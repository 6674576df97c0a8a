/** The inverse S-box that the FairPlay message cipher ships with: it has no repeated entry, so what is
    proved of every cipher of that shape holds of this one. */
module FairPlayTables {
  import opened Bytes
  import opened FairPlayMessage

  const INVERSE_0: seq<byte> := [0x52, 0x09, 0x6a, 0xd5, 0x30, 0x36, 0xa5, 0x38]
  const INVERSE_1: seq<byte> := [0xbf, 0x40, 0xa3, 0x9e, 0x81, 0xf3, 0xd7, 0xfb]
  const INVERSE_2: seq<byte> := [0x7c, 0xe3, 0x39, 0x82, 0x9b, 0x2f, 0xff, 0x87]
  const INVERSE_3: seq<byte> := [0x34, 0x8e, 0x43, 0x44, 0xc4, 0xde, 0xe9, 0xcb]
  const INVERSE_4: seq<byte> := [0x54, 0x7b, 0x94, 0x32, 0xa6, 0xc2, 0x23, 0x3d]
  const INVERSE_5: seq<byte> := [0xee, 0x4c, 0x95, 0x0b, 0x42, 0xfa, 0xc3, 0x4e]
  const INVERSE_6: seq<byte> := [0x08, 0x2e, 0xa1, 0x66, 0x28, 0xd9, 0x24, 0xb2]
  const INVERSE_7: seq<byte> := [0x76, 0x5b, 0xa2, 0x49, 0x6d, 0x8b, 0xd1, 0x25]
  const INVERSE_8: seq<byte> := [0x72, 0xf8, 0xf6, 0x64, 0x86, 0x68, 0x98, 0x16]
  const INVERSE_9: seq<byte> := [0xd4, 0xa4, 0x5c, 0xcc, 0x5d, 0x65, 0xb6, 0x92]
  const INVERSE_10: seq<byte> := [0x6c, 0x70, 0x48, 0x50, 0xfd, 0xed, 0xb9, 0xda]
  const INVERSE_11: seq<byte> := [0x5e, 0x15, 0x46, 0x57, 0xa7, 0x8d, 0x9d, 0x84]
  const INVERSE_12: seq<byte> := [0x90, 0xd8, 0xab, 0x00, 0x8c, 0xbc, 0xd3, 0x0a]
  const INVERSE_13: seq<byte> := [0xf7, 0xe4, 0x58, 0x05, 0xb8, 0xb3, 0x45, 0x06]
  const INVERSE_14: seq<byte> := [0xd0, 0x2c, 0x1e, 0x8f, 0xca, 0x3f, 0x0f, 0x02]
  const INVERSE_15: seq<byte> := [0xc1, 0xaf, 0xbd, 0x03, 0x01, 0x13, 0x8a, 0x6b]
  const INVERSE_16: seq<byte> := [0x3a, 0x91, 0x11, 0x41, 0x4f, 0x67, 0xdc, 0xea]
  const INVERSE_17: seq<byte> := [0x97, 0xf2, 0xcf, 0xce, 0xf0, 0xb4, 0xe6, 0x73]
  const INVERSE_18: seq<byte> := [0x96, 0xac, 0x74, 0x22, 0xe7, 0xad, 0x35, 0x85]
  const INVERSE_19: seq<byte> := [0xe2, 0xf9, 0x37, 0xe8, 0x1c, 0x75, 0xdf, 0x6e]
  const INVERSE_20: seq<byte> := [0x47, 0xf1, 0x1a, 0x71, 0x1d, 0x29, 0xc5, 0x89]
  const INVERSE_21: seq<byte> := [0x6f, 0xb7, 0x62, 0x0e, 0xaa, 0x18, 0xbe, 0x1b]
  const INVERSE_22: seq<byte> := [0xfc, 0x56, 0x3e, 0x4b, 0xc6, 0xd2, 0x79, 0x20]
  const INVERSE_23: seq<byte> := [0x9a, 0xdb, 0xc0, 0xfe, 0x78, 0xcd, 0x5a, 0xf4]
  const INVERSE_24: seq<byte> := [0x1f, 0xdd, 0xa8, 0x33, 0x88, 0x07, 0xc7, 0x31]
  const INVERSE_25: seq<byte> := [0xb1, 0x12, 0x10, 0x59, 0x27, 0x80, 0xec, 0x5f]
  const INVERSE_26: seq<byte> := [0x60, 0x51, 0x7f, 0xa9, 0x19, 0xb5, 0x4a, 0x0d]
  const INVERSE_27: seq<byte> := [0x2d, 0xe5, 0x7a, 0x9f, 0x93, 0xc9, 0x9c, 0xef]
  const INVERSE_28: seq<byte> := [0xa0, 0xe0, 0x3b, 0x4d, 0xae, 0x2a, 0xf5, 0xb0]
  const INVERSE_29: seq<byte> := [0xc8, 0xeb, 0xbb, 0x3c, 0x83, 0x53, 0x99, 0x61]
  const INVERSE_30: seq<byte> := [0x17, 0x2b, 0x04, 0x7e, 0xba, 0x77, 0xd6, 0x26]
  const INVERSE_31: seq<byte> := [0xe1, 0x69, 0x14, 0x63, 0x55, 0x21, 0x0c, 0x7d]

  function InverseRow(r: nat): (row: seq<byte>)
    ensures |row| == 8
  {
    match r
    case 0 => INVERSE_0
    case 1 => INVERSE_1
    case 2 => INVERSE_2
    case 3 => INVERSE_3
    case 4 => INVERSE_4
    case 5 => INVERSE_5
    case 6 => INVERSE_6
    case 7 => INVERSE_7
    case 8 => INVERSE_8
    case 9 => INVERSE_9
    case 10 => INVERSE_10
    case 11 => INVERSE_11
    case 12 => INVERSE_12
    case 13 => INVERSE_13
    case 14 => INVERSE_14
    case 15 => INVERSE_15
    case 16 => INVERSE_16
    case 17 => INVERSE_17
    case 18 => INVERSE_18
    case 19 => INVERSE_19
    case 20 => INVERSE_20
    case 21 => INVERSE_21
    case 22 => INVERSE_22
    case 23 => INVERSE_23
    case 24 => INVERSE_24
    case 25 => INVERSE_25
    case 26 => INVERSE_26
    case 27 => INVERSE_27
    case 28 => INVERSE_28
    case 29 => INVERSE_29
    case 30 => INVERSE_30
    case _ => INVERSE_31
  }

  /** The same table turned around: where each value stands. */
  function PlaceRow(r: nat): (row: seq<byte>)
    ensures |row| == 16
  {
    match r
    case 0 => [0x63, 0x7c, 0x77, 0x7b, 0xf2, 0x6b, 0x6f, 0xc5, 0x30, 0x01, 0x67, 0x2b, 0xfe, 0xd7, 0xab, 0x76]
    case 1 => [0xca, 0x82, 0xc9, 0x7d, 0xfa, 0x59, 0x47, 0xf0, 0xad, 0xd4, 0xa2, 0xaf, 0x9c, 0xa4, 0x72, 0xc0]
    case 2 => [0xb7, 0xfd, 0x93, 0x26, 0x36, 0x3f, 0xf7, 0xcc, 0x34, 0xa5, 0xe5, 0xf1, 0x71, 0xd8, 0x31, 0x15]
    case 3 => [0x04, 0xc7, 0x23, 0xc3, 0x18, 0x96, 0x05, 0x9a, 0x07, 0x12, 0x80, 0xe2, 0xeb, 0x27, 0xb2, 0x75]
    case 4 => [0x09, 0x83, 0x2c, 0x1a, 0x1b, 0x6e, 0x5a, 0xa0, 0x52, 0x3b, 0xd6, 0xb3, 0x29, 0xe3, 0x2f, 0x84]
    case 5 => [0x53, 0xd1, 0x00, 0xed, 0x20, 0xfc, 0xb1, 0x5b, 0x6a, 0xcb, 0xbe, 0x39, 0x4a, 0x4c, 0x58, 0xcf]
    case 6 => [0xd0, 0xef, 0xaa, 0xfb, 0x43, 0x4d, 0x33, 0x85, 0x45, 0xf9, 0x02, 0x7f, 0x50, 0x3c, 0x9f, 0xa8]
    case 7 => [0x51, 0xa3, 0x40, 0x8f, 0x92, 0x9d, 0x38, 0xf5, 0xbc, 0xb6, 0xda, 0x21, 0x10, 0xff, 0xf3, 0xd2]
    case 8 => [0xcd, 0x0c, 0x13, 0xec, 0x5f, 0x97, 0x44, 0x17, 0xc4, 0xa7, 0x7e, 0x3d, 0x64, 0x5d, 0x19, 0x73]
    case 9 => [0x60, 0x81, 0x4f, 0xdc, 0x22, 0x2a, 0x90, 0x88, 0x46, 0xee, 0xb8, 0x14, 0xde, 0x5e, 0x0b, 0xdb]
    case 10 => [0xe0, 0x32, 0x3a, 0x0a, 0x49, 0x06, 0x24, 0x5c, 0xc2, 0xd3, 0xac, 0x62, 0x91, 0x95, 0xe4, 0x79]
    case 11 => [0xe7, 0xc8, 0x37, 0x6d, 0x8d, 0xd5, 0x4e, 0xa9, 0x6c, 0x56, 0xf4, 0xea, 0x65, 0x7a, 0xae, 0x08]
    case 12 => [0xba, 0x78, 0x25, 0x2e, 0x1c, 0xa6, 0xb4, 0xc6, 0xe8, 0xdd, 0x74, 0x1f, 0x4b, 0xbd, 0x8b, 0x8a]
    case 13 => [0x70, 0x3e, 0xb5, 0x66, 0x48, 0x03, 0xf6, 0x0e, 0x61, 0x35, 0x57, 0xb9, 0x86, 0xc1, 0x1d, 0x9e]
    case 14 => [0xe1, 0xf8, 0x98, 0x11, 0x69, 0xd9, 0x8e, 0x94, 0x9b, 0x1e, 0x87, 0xe9, 0xce, 0x55, 0x28, 0xdf]
    case _ => [0x8c, 0xa1, 0x89, 0x0d, 0xbf, 0xe6, 0x42, 0x68, 0x41, 0x99, 0x2d, 0x0f, 0xb0, 0x54, 0xbb, 0x16]
  }

  function InverseAt(i: nat): byte {
    InverseRow(i / 8)[i % 8]
  }

  function PlaceOf(value: nat): byte {
    PlaceRow(value / 16)[value % 16]
  }

  function InverseSbox(): (table: seq<bv8>)
    ensures |table| == 256
  {
    seq(256, i requires 0 <= i < 256 => InverseAt(i) as bv8)
  }

  lemma Places0(i: nat)
    requires i < 8
    ensures PlaceOf(INVERSE_0[i]) == 0 + i
  {}

  lemma Places1(i: nat)
    requires i < 8
    ensures PlaceOf(INVERSE_1[i]) == 8 + i
  {}

  lemma Places2(i: nat)
    requires i < 8
    ensures PlaceOf(INVERSE_2[i]) == 16 + i
  {}

  lemma Places3(i: nat)
    requires i < 8
    ensures PlaceOf(INVERSE_3[i]) == 24 + i
  {}

  lemma Places4(i: nat)
    requires i < 8
    ensures PlaceOf(INVERSE_4[i]) == 32 + i
  {}

  lemma Places5(i: nat)
    requires i < 8
    ensures PlaceOf(INVERSE_5[i]) == 40 + i
  {}

  lemma Places6(i: nat)
    requires i < 8
    ensures PlaceOf(INVERSE_6[i]) == 48 + i
  {}

  lemma Places7(i: nat)
    requires i < 8
    ensures PlaceOf(INVERSE_7[i]) == 56 + i
  {}

  lemma Places8(i: nat)
    requires i < 8
    ensures PlaceOf(INVERSE_8[i]) == 64 + i
  {}

  lemma Places9(i: nat)
    requires i < 8
    ensures PlaceOf(INVERSE_9[i]) == 72 + i
  {}

  lemma Places10(i: nat)
    requires i < 8
    ensures PlaceOf(INVERSE_10[i]) == 80 + i
  {}

  lemma Places11(i: nat)
    requires i < 8
    ensures PlaceOf(INVERSE_11[i]) == 88 + i
  {}

  lemma Places12(i: nat)
    requires i < 8
    ensures PlaceOf(INVERSE_12[i]) == 96 + i
  {}

  lemma Places13(i: nat)
    requires i < 8
    ensures PlaceOf(INVERSE_13[i]) == 104 + i
  {}

  lemma Places14(i: nat)
    requires i < 8
    ensures PlaceOf(INVERSE_14[i]) == 112 + i
  {}

  lemma Places15(i: nat)
    requires i < 8
    ensures PlaceOf(INVERSE_15[i]) == 120 + i
  {}

  lemma Places16(i: nat)
    requires i < 8
    ensures PlaceOf(INVERSE_16[i]) == 128 + i
  {}

  lemma Places17(i: nat)
    requires i < 8
    ensures PlaceOf(INVERSE_17[i]) == 136 + i
  {}

  lemma Places18(i: nat)
    requires i < 8
    ensures PlaceOf(INVERSE_18[i]) == 144 + i
  {}

  lemma Places19(i: nat)
    requires i < 8
    ensures PlaceOf(INVERSE_19[i]) == 152 + i
  {}

  lemma Places20(i: nat)
    requires i < 8
    ensures PlaceOf(INVERSE_20[i]) == 160 + i
  {}

  lemma Places21(i: nat)
    requires i < 8
    ensures PlaceOf(INVERSE_21[i]) == 168 + i
  {}

  lemma Places22(i: nat)
    requires i < 8
    ensures PlaceOf(INVERSE_22[i]) == 176 + i
  {}

  lemma Places23(i: nat)
    requires i < 8
    ensures PlaceOf(INVERSE_23[i]) == 184 + i
  {}

  lemma Places24(i: nat)
    requires i < 8
    ensures PlaceOf(INVERSE_24[i]) == 192 + i
  {}

  lemma Places25(i: nat)
    requires i < 8
    ensures PlaceOf(INVERSE_25[i]) == 200 + i
  {}

  lemma Places26(i: nat)
    requires i < 8
    ensures PlaceOf(INVERSE_26[i]) == 208 + i
  {}

  lemma Places27(i: nat)
    requires i < 8
    ensures PlaceOf(INVERSE_27[i]) == 216 + i
  {}

  lemma Places28(i: nat)
    requires i < 8
    ensures PlaceOf(INVERSE_28[i]) == 224 + i
  {}

  lemma Places29(i: nat)
    requires i < 8
    ensures PlaceOf(INVERSE_29[i]) == 232 + i
  {}

  lemma Places30(i: nat)
    requires i < 8
    ensures PlaceOf(INVERSE_30[i]) == 240 + i
  {}

  lemma Places31(i: nat)
    requires i < 8
    ensures PlaceOf(INVERSE_31[i]) == 248 + i
  {}

  /** Every entry stands in one place only. */
  lemma PlaceOfEntry(i: nat)
    requires i < 256
    ensures PlaceOf(InverseAt(i)) == i
  {
    hide PlaceOf, PlaceRow;
    var k := i % 8;
    match i / 8
    case 0 => Places0(k);
    case 1 => Places1(k);
    case 2 => Places2(k);
    case 3 => Places3(k);
    case 4 => Places4(k);
    case 5 => Places5(k);
    case 6 => Places6(k);
    case 7 => Places7(k);
    case 8 => Places8(k);
    case 9 => Places9(k);
    case 10 => Places10(k);
    case 11 => Places11(k);
    case 12 => Places12(k);
    case 13 => Places13(k);
    case 14 => Places14(k);
    case 15 => Places15(k);
    case 16 => Places16(k);
    case 17 => Places17(k);
    case 18 => Places18(k);
    case 19 => Places19(k);
    case 20 => Places20(k);
    case 21 => Places21(k);
    case 22 => Places22(k);
    case 23 => Places23(k);
    case 24 => Places24(k);
    case 25 => Places25(k);
    case 26 => Places26(k);
    case 27 => Places27(k);
    case 28 => Places28(k);
    case 29 => Places29(k);
    case 30 => Places30(k);
    case _ => Places31(k);
  }

  lemma EntriesDiffer()
    ensures forall i, j | 0 <= i < j < 256 :: InverseSbox()[i] != InverseSbox()[j]
  {
    hide PlaceOf, InverseAt;
    forall i, j | 0 <= i < j < 256
      ensures InverseSbox()[i] != InverseSbox()[j]
    {
      PlaceOfEntry(i);
      PlaceOfEntry(j);
      FairPlayMessage.ByteRoundTrip(InverseAt(i));
      FairPlayMessage.ByteRoundTrip(InverseAt(j));
    }
  }

  /** The shipped table meets what the cipher's results require, whatever the keys. */
  lemma ShippedTablesAreValid(iv: seq<Block>, first: Block, last: Block, middle: seq<seq<Block>>)
    requires |iv| == MODE_COUNT && |middle| == MODE_COUNT
    requires forall m | 0 <= m < MODE_COUNT :: |middle[m]| == 9
    ensures Tables(InverseSbox(), iv, first, last, middle).Valid()
  {
    EntriesDiffer();
  }
}
