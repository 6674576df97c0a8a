/** The worked example of FIPS 197 appendix C.1: with its round keys and the shipped S-box, the block
    transform passes through the states listed there and gives the ciphertext. */
module AesExample {
  import opened Bytes
  import opened Gf256
  import opened FairPlayMessage
  import opened FairPlayTables
  import opened AesReference

  /** A block by its columns. */
  datatype Square = Square(c0: Column, c1: Column, c2: Column, c3: Column) {
    function Bytes(): Block {
      ColumnBytes(c0) + ColumnBytes(c1) + ColumnBytes(c2) + ColumnBytes(c3)
    }
  }

  // the expanded key
  const KEY_0 := Square(Column(0x00, 0x01, 0x02, 0x03), Column(0x04, 0x05, 0x06, 0x07), Column(0x08, 0x09, 0x0a, 0x0b), Column(0x0c, 0x0d, 0x0e, 0x0f))
  const KEY_1 := Square(Column(0xd6, 0xaa, 0x74, 0xfd), Column(0xd2, 0xaf, 0x72, 0xfa), Column(0xda, 0xa6, 0x78, 0xf1), Column(0xd6, 0xab, 0x76, 0xfe))
  const KEY_2 := Square(Column(0xb6, 0x92, 0xcf, 0x0b), Column(0x64, 0x3d, 0xbd, 0xf1), Column(0xbe, 0x9b, 0xc5, 0x00), Column(0x68, 0x30, 0xb3, 0xfe))
  const KEY_3 := Square(Column(0xb6, 0xff, 0x74, 0x4e), Column(0xd2, 0xc2, 0xc9, 0xbf), Column(0x6c, 0x59, 0x0c, 0xbf), Column(0x04, 0x69, 0xbf, 0x41))
  const KEY_4 := Square(Column(0x47, 0xf7, 0xf7, 0xbc), Column(0x95, 0x35, 0x3e, 0x03), Column(0xf9, 0x6c, 0x32, 0xbc), Column(0xfd, 0x05, 0x8d, 0xfd))
  const KEY_5 := Square(Column(0x3c, 0xaa, 0xa3, 0xe8), Column(0xa9, 0x9f, 0x9d, 0xeb), Column(0x50, 0xf3, 0xaf, 0x57), Column(0xad, 0xf6, 0x22, 0xaa))
  const KEY_6 := Square(Column(0x5e, 0x39, 0x0f, 0x7d), Column(0xf7, 0xa6, 0x92, 0x96), Column(0xa7, 0x55, 0x3d, 0xc1), Column(0x0a, 0xa3, 0x1f, 0x6b))
  const KEY_7 := Square(Column(0x14, 0xf9, 0x70, 0x1a), Column(0xe3, 0x5f, 0xe2, 0x8c), Column(0x44, 0x0a, 0xdf, 0x4d), Column(0x4e, 0xa9, 0xc0, 0x26))
  const KEY_8 := Square(Column(0x47, 0x43, 0x87, 0x35), Column(0xa4, 0x1c, 0x65, 0xb9), Column(0xe0, 0x16, 0xba, 0xf4), Column(0xae, 0xbf, 0x7a, 0xd2))
  const KEY_9 := Square(Column(0x54, 0x99, 0x32, 0xd1), Column(0xf0, 0x85, 0x57, 0x68), Column(0x10, 0x93, 0xed, 0x9c), Column(0xbe, 0x2c, 0x97, 0x4e))
  const KEY_10 := Square(Column(0x13, 0x11, 0x1d, 0x7f), Column(0xe3, 0x94, 0x4a, 0x17), Column(0xf3, 0x07, 0xa7, 0x8b), Column(0x4d, 0x2b, 0x30, 0xc5))

  function ExpandedKey(): seq<Block> {
    [KEY_0.Bytes(), KEY_1.Bytes(), KEY_2.Bytes(), KEY_3.Bytes(), KEY_4.Bytes(), KEY_5.Bytes(), KEY_6.Bytes(),
     KEY_7.Bytes(), KEY_8.Bytes(), KEY_9.Bytes(), KEY_10.Bytes()]
  }

  // the state at the start of each round, and the output
  const STATE_0 := Square(Column(0x00, 0x10, 0x20, 0x30), Column(0x40, 0x50, 0x60, 0x70), Column(0x80, 0x90, 0xa0, 0xb0), Column(0xc0, 0xd0, 0xe0, 0xf0))
  const STATE_1 := Square(Column(0x89, 0xd8, 0x10, 0xe8), Column(0x85, 0x5a, 0xce, 0x68), Column(0x2d, 0x18, 0x43, 0xd8), Column(0xcb, 0x12, 0x8f, 0xe4))
  const STATE_2 := Square(Column(0x49, 0x15, 0x59, 0x8f), Column(0x55, 0xe5, 0xd7, 0xa0), Column(0xda, 0xca, 0x94, 0xfa), Column(0x1f, 0x0a, 0x63, 0xf7))
  const STATE_3 := Square(Column(0xfa, 0x63, 0x6a, 0x28), Column(0x25, 0xb3, 0x39, 0xc9), Column(0x40, 0x66, 0x8a, 0x31), Column(0x57, 0x24, 0x4d, 0x17))
  const STATE_4 := Square(Column(0x24, 0x72, 0x40, 0x23), Column(0x69, 0x66, 0xb3, 0xfa), Column(0x6e, 0xd2, 0x75, 0x32), Column(0x88, 0x42, 0x5b, 0x6c))
  const STATE_5 := Square(Column(0xc8, 0x16, 0x77, 0xbc), Column(0x9b, 0x7a, 0xc9, 0x3b), Column(0x25, 0x02, 0x79, 0x92), Column(0xb0, 0x26, 0x19, 0x96))
  const STATE_6 := Square(Column(0xc6, 0x2f, 0xe1, 0x09), Column(0xf7, 0x5e, 0xed, 0xc3), Column(0xcc, 0x79, 0x39, 0x5d), Column(0x84, 0xf9, 0xcf, 0x5d))
  const STATE_7 := Square(Column(0xd1, 0x87, 0x6c, 0x0f), Column(0x79, 0xc4, 0x30, 0x0a), Column(0xb4, 0x55, 0x94, 0xad), Column(0xd6, 0x6f, 0xf4, 0x1f))
  const STATE_8 := Square(Column(0xfd, 0xe3, 0xba, 0xd2), Column(0x05, 0xe5, 0xd0, 0xd7), Column(0x35, 0x47, 0x96, 0x4e), Column(0xf1, 0xfe, 0x37, 0xf1))
  const STATE_9 := Square(Column(0xbd, 0x6e, 0x7c, 0x3d), Column(0xf2, 0xb5, 0x77, 0x9e), Column(0x0b, 0x61, 0x21, 0x6e), Column(0x8b, 0x10, 0xb6, 0x89))
  const STATE_10 := Square(Column(0x69, 0xc4, 0xe0, 0xd8), Column(0x6a, 0x7b, 0x04, 0x30), Column(0xd8, 0xcd, 0xb7, 0x80), Column(0x70, 0xb4, 0xc5, 0x5a))

  const PLAINTEXT: Block := [0x00, 0x11, 0x22, 0x33, 0x44, 0x55, 0x66, 0x77, 0x88, 0x99, 0xaa, 0xbb, 0xcc, 0xdd, 0xee, 0xff]
  const CIPHERTEXT: Block := [0x69, 0xc4, 0xe0, 0xd8, 0x6a, 0x7b, 0x04, 0x30, 0xd8, 0xcd, 0xb7, 0x80, 0x70, 0xb4, 0xc5, 0x5a]

  // ---------- one round on columns ----------

  ghost predicate Forward(sbox: seq<bv8>) {
    |sbox| == 256 && Undoes(sbox, InverseSbox())
  }

  /** The forward table takes an entry of the inverse one back to its place. */
  lemma Entry(sbox: seq<bv8>, p: bv8, b: bv8)
    requires Forward(sbox) && InverseAt(p as int) == b as int
    ensures Lookup(sbox, b) == p
  {
    hide InverseAt;
    IndexRoundTrip(p);
    ByteRoundTrip(InverseAt(p as int));
    IndexRoundTrip(b);
    assert Lookup(InverseSbox(), p) == b;
    assert Lookup(sbox, Lookup(InverseSbox(), p)) == p;
  }

  /** Column j after SubBytes and ShiftRows. */
  function Shifted(sbox: seq<bv8>, a: bv8, b: bv8, c: bv8, d: bv8): Column
    requires |sbox| == 256
  {
    Column(Lookup(sbox, a), Lookup(sbox, b), Lookup(sbox, c), Lookup(sbox, d))
  }

  ghost predicate Gives(sbox: seq<bv8>, key: Column, a: bv8, b: bv8, c: bv8, d: bv8, mixed: Column, next: Column)
    requires |sbox| == 256
  {
    MixColumn(Shifted(sbox, a, b, c, d)) == mixed && ColumnPlus(mixed, key) == next
  }

  /** These bytes stand at those places of the inverse table. */
  predicate Stand(places: Column, a: bv8, b: bv8, c: bv8, d: bv8) {
    && InverseAt(places.a as int) == a as int && InverseAt(places.b as int) == b as int
    && InverseAt(places.c as int) == c as int && InverseAt(places.d as int) == d as int
  }

  lemma Entries(sbox: seq<bv8>, places: Column, a: bv8, b: bv8, c: bv8, d: bv8)
    requires Forward(sbox) && Stand(places, a, b, c, d)
    ensures Shifted(sbox, a, b, c, d) == places
  {
    hide Forward, Lookup, InverseAt;
    Entry(sbox, places.a, a);
    Entry(sbox, places.b, b);
    Entry(sbox, places.c, c);
    Entry(sbox, places.d, d);
  }

  lemma ColumnGives(sbox: seq<bv8>, key: Column, places: Column, a: bv8, b: bv8, c: bv8, d: bv8, mixed: Column, next: Column)
    requires Forward(sbox) && Stand(places, a, b, c, d)
    requires MixColumn(places) == mixed && ColumnPlus(mixed, key) == next
    ensures Gives(sbox, key, a, b, c, d, mixed, next)
  {
    hide Forward, Stand, MixColumn, ColumnPlus;
    Entries(sbox, places, a, b, c, d);
  }

  lemma Columns(q: Square)
    ensures ColumnAt(q.Bytes(), 0) == q.c0 && ColumnAt(q.Bytes(), 1) == q.c1
    ensures ColumnAt(q.Bytes(), 2) == q.c2 && ColumnAt(q.Bytes(), 3) == q.c3
  {}

  lemma BytesAre(q: Square)
    ensures var b := q.Bytes();
      && b[0] == q.c0.a && b[1] == q.c0.b && b[2] == q.c0.c && b[3] == q.c0.d
      && b[4] == q.c1.a && b[5] == q.c1.b && b[6] == q.c1.c && b[7] == q.c1.d
      && b[8] == q.c2.a && b[9] == q.c2.b && b[10] == q.c2.c && b[11] == q.c2.d
      && b[12] == q.c3.a && b[13] == q.c3.b && b[14] == q.c3.c && b[15] == q.c3.d
  {}

  lemma XorColumns(a: Block, b: Block, j: nat)
    requires j < 4
    ensures ColumnAt(XorBlock(a, b), j) == ColumnPlus(ColumnAt(a, j), ColumnAt(b, j))
  {
    hide Plus;
  }

  lemma ShiftedColumns(sbox: seq<bv8>, s: Block)
    requires |sbox| == 256
    ensures var x := ShiftRows(Substitute(sbox, s));
      && ColumnAt(x, 0) == Shifted(sbox, s[0], s[5], s[10], s[15]) && ColumnAt(x, 1) == Shifted(sbox, s[4], s[9], s[14], s[3])
      && ColumnAt(x, 2) == Shifted(sbox, s[8], s[13], s[2], s[7]) && ColumnAt(x, 3) == Shifted(sbox, s[12], s[1], s[6], s[11])
  {
    hide Lookup;
  }

  lemma SameSquare(s: Block, q: Square)
    requires ColumnAt(s, 0) == q.c0 && ColumnAt(s, 1) == q.c1 && ColumnAt(s, 2) == q.c2 && ColumnAt(s, 3) == q.c3
    ensures s == q.Bytes()
  {
    hide ColumnAt, Square.Bytes;
    Columns(q);
    SameColumns(s, q.Bytes());
  }

  lemma RoundGives(sbox: seq<bv8>, key: Square, s: Square, mixed: Square, next: Square)
    requires |sbox| == 256
    requires Gives(sbox, key.c0, s.c0.a, s.c1.b, s.c2.c, s.c3.d, mixed.c0, next.c0)
    requires Gives(sbox, key.c1, s.c1.a, s.c2.b, s.c3.c, s.c0.d, mixed.c1, next.c1)
    requires Gives(sbox, key.c2, s.c2.a, s.c3.b, s.c0.c, s.c1.d, mixed.c2, next.c2)
    requires Gives(sbox, key.c3, s.c3.a, s.c0.b, s.c1.c, s.c2.d, mixed.c3, next.c3)
    ensures Round(sbox, key.Bytes(), s.Bytes()) == next.Bytes()
  {
    hide Round, MixColumn, Plus, Lookup, ColumnAt, Square.Bytes, XorBlock, ShiftRows, Substitute, MixColumns, ColumnPlus, Shifted;
    var shifted := ShiftRows(Substitute(sbox, s.Bytes()));
    var all := MixColumns(shifted);
    RoundIs(sbox, key.Bytes(), s.Bytes());
    ShiftedColumns(sbox, s.Bytes());
    BytesAre(s);
    Columns(key);
    XorColumns(all, key.Bytes(), 0); XorColumns(all, key.Bytes(), 1); XorColumns(all, key.Bytes(), 2); XorColumns(all, key.Bytes(), 3);
    SameSquare(XorBlock(all, key.Bytes()), next);
  }

  // ---------- the rounds ----------

  lemma Mixed1()
    ensures MixColumn(Column(0x63, 0x53, 0xe0, 0x8c)) == Column(0x5f, 0x72, 0x64, 0x15)
    ensures MixColumn(Column(0x09, 0x60, 0xe1, 0x04)) == Column(0x57, 0xf5, 0xbc, 0x92)
    ensures MixColumn(Column(0xcd, 0x70, 0xb7, 0x51)) == Column(0xf7, 0xbe, 0x3b, 0x29)
    ensures MixColumn(Column(0xba, 0xca, 0xd0, 0xe7)) == Column(0x1d, 0xb9, 0xf9, 0x1a)
  {}

  lemma Column0OfRound1(sbox: seq<bv8>)
    requires Forward(sbox)
    ensures Gives(sbox, KEY_1.c0, 0x00, 0x50, 0xa0, 0xf0, Column(0x5f, 0x72, 0x64, 0x15), STATE_1.c0)
  {
    hide Forward, Gives, MixColumn;
    Mixed1();
    ColumnGives(sbox, KEY_1.c0, Column(0x63, 0x53, 0xe0, 0x8c), 0x00, 0x50, 0xa0, 0xf0, Column(0x5f, 0x72, 0x64, 0x15), STATE_1.c0);
  }

  lemma Column1OfRound1(sbox: seq<bv8>)
    requires Forward(sbox)
    ensures Gives(sbox, KEY_1.c1, 0x40, 0x90, 0xe0, 0x30, Column(0x57, 0xf5, 0xbc, 0x92), STATE_1.c1)
  {
    hide Forward, Gives, MixColumn;
    Mixed1();
    ColumnGives(sbox, KEY_1.c1, Column(0x09, 0x60, 0xe1, 0x04), 0x40, 0x90, 0xe0, 0x30, Column(0x57, 0xf5, 0xbc, 0x92), STATE_1.c1);
  }

  lemma Column2OfRound1(sbox: seq<bv8>)
    requires Forward(sbox)
    ensures Gives(sbox, KEY_1.c2, 0x80, 0xd0, 0x20, 0x70, Column(0xf7, 0xbe, 0x3b, 0x29), STATE_1.c2)
  {
    hide Forward, Gives, MixColumn;
    Mixed1();
    ColumnGives(sbox, KEY_1.c2, Column(0xcd, 0x70, 0xb7, 0x51), 0x80, 0xd0, 0x20, 0x70, Column(0xf7, 0xbe, 0x3b, 0x29), STATE_1.c2);
  }

  lemma Column3OfRound1(sbox: seq<bv8>)
    requires Forward(sbox)
    ensures Gives(sbox, KEY_1.c3, 0xc0, 0x10, 0x60, 0xb0, Column(0x1d, 0xb9, 0xf9, 0x1a), STATE_1.c3)
  {
    hide Forward, Gives, MixColumn;
    Mixed1();
    ColumnGives(sbox, KEY_1.c3, Column(0xba, 0xca, 0xd0, 0xe7), 0xc0, 0x10, 0x60, 0xb0, Column(0x1d, 0xb9, 0xf9, 0x1a), STATE_1.c3);
  }

  lemma Round1(sbox: seq<bv8>)
    requires Forward(sbox)
    ensures Round(sbox, KEY_1.Bytes(), STATE_0.Bytes()) == STATE_1.Bytes()
  {
    hide Round, Gives, Square.Bytes;
    Column0OfRound1(sbox);
    Column1OfRound1(sbox);
    Column2OfRound1(sbox);
    Column3OfRound1(sbox);
    RoundGives(sbox, KEY_1, STATE_0, Square(Column(0x5f, 0x72, 0x64, 0x15), Column(0x57, 0xf5, 0xbc, 0x92), Column(0xf7, 0xbe, 0x3b, 0x29), Column(0x1d, 0xb9, 0xf9, 0x1a)), STATE_1);
  }

  lemma Mixed2()
    ensures MixColumn(Column(0xa7, 0xbe, 0x1a, 0x69)) == Column(0xff, 0x87, 0x96, 0x84)
    ensures MixColumn(Column(0x97, 0xad, 0x73, 0x9b)) == Column(0x31, 0xd8, 0x6a, 0x51)
    ensures MixColumn(Column(0xd8, 0xc9, 0xca, 0x45)) == Column(0x64, 0x51, 0x51, 0xfa)
    ensures MixColumn(Column(0x1f, 0x61, 0x8b, 0x61)) == Column(0x77, 0x3a, 0xd0, 0x09)
  {}

  lemma Column0OfRound2(sbox: seq<bv8>)
    requires Forward(sbox)
    ensures Gives(sbox, KEY_2.c0, 0x89, 0x5a, 0x43, 0xe4, Column(0xff, 0x87, 0x96, 0x84), STATE_2.c0)
  {
    hide Forward, Gives, MixColumn;
    Mixed2();
    ColumnGives(sbox, KEY_2.c0, Column(0xa7, 0xbe, 0x1a, 0x69), 0x89, 0x5a, 0x43, 0xe4, Column(0xff, 0x87, 0x96, 0x84), STATE_2.c0);
  }

  lemma Column1OfRound2(sbox: seq<bv8>)
    requires Forward(sbox)
    ensures Gives(sbox, KEY_2.c1, 0x85, 0x18, 0x8f, 0xe8, Column(0x31, 0xd8, 0x6a, 0x51), STATE_2.c1)
  {
    hide Forward, Gives, MixColumn;
    Mixed2();
    ColumnGives(sbox, KEY_2.c1, Column(0x97, 0xad, 0x73, 0x9b), 0x85, 0x18, 0x8f, 0xe8, Column(0x31, 0xd8, 0x6a, 0x51), STATE_2.c1);
  }

  lemma Column2OfRound2(sbox: seq<bv8>)
    requires Forward(sbox)
    ensures Gives(sbox, KEY_2.c2, 0x2d, 0x12, 0x10, 0x68, Column(0x64, 0x51, 0x51, 0xfa), STATE_2.c2)
  {
    hide Forward, Gives, MixColumn;
    Mixed2();
    ColumnGives(sbox, KEY_2.c2, Column(0xd8, 0xc9, 0xca, 0x45), 0x2d, 0x12, 0x10, 0x68, Column(0x64, 0x51, 0x51, 0xfa), STATE_2.c2);
  }

  lemma Column3OfRound2(sbox: seq<bv8>)
    requires Forward(sbox)
    ensures Gives(sbox, KEY_2.c3, 0xcb, 0xd8, 0xce, 0xd8, Column(0x77, 0x3a, 0xd0, 0x09), STATE_2.c3)
  {
    hide Forward, Gives, MixColumn;
    Mixed2();
    ColumnGives(sbox, KEY_2.c3, Column(0x1f, 0x61, 0x8b, 0x61), 0xcb, 0xd8, 0xce, 0xd8, Column(0x77, 0x3a, 0xd0, 0x09), STATE_2.c3);
  }

  lemma Round2(sbox: seq<bv8>)
    requires Forward(sbox)
    ensures Round(sbox, KEY_2.Bytes(), STATE_1.Bytes()) == STATE_2.Bytes()
  {
    hide Round, Gives, Square.Bytes;
    Column0OfRound2(sbox);
    Column1OfRound2(sbox);
    Column2OfRound2(sbox);
    Column3OfRound2(sbox);
    RoundGives(sbox, KEY_2, STATE_1, Square(Column(0xff, 0x87, 0x96, 0x84), Column(0x31, 0xd8, 0x6a, 0x51), Column(0x64, 0x51, 0x51, 0xfa), Column(0x77, 0x3a, 0xd0, 0x09)), STATE_2);
  }

  lemma Mixed3()
    ensures MixColumn(Column(0x3b, 0xd9, 0x22, 0x68)) == Column(0x4c, 0x9c, 0x1e, 0x66)
    ensures MixColumn(Column(0xfc, 0x74, 0xfb, 0x73)) == Column(0xf7, 0x71, 0xf0, 0x76)
    ensures MixColumn(Column(0x57, 0x67, 0xcb, 0xe0)) == Column(0x2c, 0x3f, 0x86, 0x8e)
    ensures MixColumn(Column(0xc0, 0x59, 0x0e, 0x2d)) == Column(0x53, 0x4d, 0xf2, 0x56)
  {}

  lemma Column0OfRound3(sbox: seq<bv8>)
    requires Forward(sbox)
    ensures Gives(sbox, KEY_3.c0, 0x49, 0xe5, 0x94, 0xf7, Column(0x4c, 0x9c, 0x1e, 0x66), STATE_3.c0)
  {
    hide Forward, Gives, MixColumn;
    Mixed3();
    ColumnGives(sbox, KEY_3.c0, Column(0x3b, 0xd9, 0x22, 0x68), 0x49, 0xe5, 0x94, 0xf7, Column(0x4c, 0x9c, 0x1e, 0x66), STATE_3.c0);
  }

  lemma Column1OfRound3(sbox: seq<bv8>)
    requires Forward(sbox)
    ensures Gives(sbox, KEY_3.c1, 0x55, 0xca, 0x63, 0x8f, Column(0xf7, 0x71, 0xf0, 0x76), STATE_3.c1)
  {
    hide Forward, Gives, MixColumn;
    Mixed3();
    ColumnGives(sbox, KEY_3.c1, Column(0xfc, 0x74, 0xfb, 0x73), 0x55, 0xca, 0x63, 0x8f, Column(0xf7, 0x71, 0xf0, 0x76), STATE_3.c1);
  }

  lemma Column2OfRound3(sbox: seq<bv8>)
    requires Forward(sbox)
    ensures Gives(sbox, KEY_3.c2, 0xda, 0x0a, 0x59, 0xa0, Column(0x2c, 0x3f, 0x86, 0x8e), STATE_3.c2)
  {
    hide Forward, Gives, MixColumn;
    Mixed3();
    ColumnGives(sbox, KEY_3.c2, Column(0x57, 0x67, 0xcb, 0xe0), 0xda, 0x0a, 0x59, 0xa0, Column(0x2c, 0x3f, 0x86, 0x8e), STATE_3.c2);
  }

  lemma Column3OfRound3(sbox: seq<bv8>)
    requires Forward(sbox)
    ensures Gives(sbox, KEY_3.c3, 0x1f, 0x15, 0xd7, 0xfa, Column(0x53, 0x4d, 0xf2, 0x56), STATE_3.c3)
  {
    hide Forward, Gives, MixColumn;
    Mixed3();
    ColumnGives(sbox, KEY_3.c3, Column(0xc0, 0x59, 0x0e, 0x2d), 0x1f, 0x15, 0xd7, 0xfa, Column(0x53, 0x4d, 0xf2, 0x56), STATE_3.c3);
  }

  lemma Round3(sbox: seq<bv8>)
    requires Forward(sbox)
    ensures Round(sbox, KEY_3.Bytes(), STATE_2.Bytes()) == STATE_3.Bytes()
  {
    hide Round, Gives, Square.Bytes;
    Column0OfRound3(sbox);
    Column1OfRound3(sbox);
    Column2OfRound3(sbox);
    Column3OfRound3(sbox);
    RoundGives(sbox, KEY_3, STATE_2, Square(Column(0x4c, 0x9c, 0x1e, 0x66), Column(0xf7, 0x71, 0xf0, 0x76), Column(0x2c, 0x3f, 0x86, 0x8e), Column(0x53, 0x4d, 0xf2, 0x56)), STATE_3);
  }

  lemma Mixed4()
    ensures MixColumn(Column(0x2d, 0x6d, 0x7e, 0xf0)) == Column(0x63, 0x85, 0xb7, 0x9f)
    ensures MixColumn(Column(0x3f, 0x33, 0xe3, 0x34)) == Column(0xfc, 0x53, 0x8d, 0xf9)
    ensures MixColumn(Column(0x09, 0x36, 0x02, 0xdd)) == Column(0x97, 0xbe, 0x47, 0x8e)
    ensures MixColumn(Column(0x5b, 0xfb, 0x12, 0xc7)) == Column(0x75, 0x47, 0xd6, 0x91)
  {}

  lemma Column0OfRound4(sbox: seq<bv8>)
    requires Forward(sbox)
    ensures Gives(sbox, KEY_4.c0, 0xfa, 0xb3, 0x8a, 0x17, Column(0x63, 0x85, 0xb7, 0x9f), STATE_4.c0)
  {
    hide Forward, Gives, MixColumn;
    Mixed4();
    ColumnGives(sbox, KEY_4.c0, Column(0x2d, 0x6d, 0x7e, 0xf0), 0xfa, 0xb3, 0x8a, 0x17, Column(0x63, 0x85, 0xb7, 0x9f), STATE_4.c0);
  }

  lemma Column1OfRound4(sbox: seq<bv8>)
    requires Forward(sbox)
    ensures Gives(sbox, KEY_4.c1, 0x25, 0x66, 0x4d, 0x28, Column(0xfc, 0x53, 0x8d, 0xf9), STATE_4.c1)
  {
    hide Forward, Gives, MixColumn;
    Mixed4();
    ColumnGives(sbox, KEY_4.c1, Column(0x3f, 0x33, 0xe3, 0x34), 0x25, 0x66, 0x4d, 0x28, Column(0xfc, 0x53, 0x8d, 0xf9), STATE_4.c1);
  }

  lemma Column2OfRound4(sbox: seq<bv8>)
    requires Forward(sbox)
    ensures Gives(sbox, KEY_4.c2, 0x40, 0x24, 0x6a, 0xc9, Column(0x97, 0xbe, 0x47, 0x8e), STATE_4.c2)
  {
    hide Forward, Gives, MixColumn;
    Mixed4();
    ColumnGives(sbox, KEY_4.c2, Column(0x09, 0x36, 0x02, 0xdd), 0x40, 0x24, 0x6a, 0xc9, Column(0x97, 0xbe, 0x47, 0x8e), STATE_4.c2);
  }

  lemma Column3OfRound4(sbox: seq<bv8>)
    requires Forward(sbox)
    ensures Gives(sbox, KEY_4.c3, 0x57, 0x63, 0x39, 0x31, Column(0x75, 0x47, 0xd6, 0x91), STATE_4.c3)
  {
    hide Forward, Gives, MixColumn;
    Mixed4();
    ColumnGives(sbox, KEY_4.c3, Column(0x5b, 0xfb, 0x12, 0xc7), 0x57, 0x63, 0x39, 0x31, Column(0x75, 0x47, 0xd6, 0x91), STATE_4.c3);
  }

  lemma Round4(sbox: seq<bv8>)
    requires Forward(sbox)
    ensures Round(sbox, KEY_4.Bytes(), STATE_3.Bytes()) == STATE_4.Bytes()
  {
    hide Round, Gives, Square.Bytes;
    Column0OfRound4(sbox);
    Column1OfRound4(sbox);
    Column2OfRound4(sbox);
    Column3OfRound4(sbox);
    RoundGives(sbox, KEY_4, STATE_3, Square(Column(0x63, 0x85, 0xb7, 0x9f), Column(0xfc, 0x53, 0x8d, 0xf9), Column(0x97, 0xbe, 0x47, 0x8e), Column(0x75, 0x47, 0xd6, 0x91)), STATE_4);
  }

  lemma Mixed5()
    ensures MixColumn(Column(0x36, 0x33, 0x9d, 0x50)) == Column(0xf4, 0xbc, 0xd4, 0x54)
    ensures MixColumn(Column(0xf9, 0xb5, 0x39, 0x26)) == Column(0x32, 0xe5, 0x54, 0xd0)
    ensures MixColumn(Column(0x9f, 0x2c, 0x09, 0x2d)) == Column(0x75, 0xf1, 0xd6, 0xc5)
    ensures MixColumn(Column(0xc4, 0x40, 0x6d, 0x23)) == Column(0x1d, 0xd0, 0x3b, 0x3c)
  {}

  lemma Column0OfRound5(sbox: seq<bv8>)
    requires Forward(sbox)
    ensures Gives(sbox, KEY_5.c0, 0x24, 0x66, 0x75, 0x6c, Column(0xf4, 0xbc, 0xd4, 0x54), STATE_5.c0)
  {
    hide Forward, Gives, MixColumn;
    Mixed5();
    ColumnGives(sbox, KEY_5.c0, Column(0x36, 0x33, 0x9d, 0x50), 0x24, 0x66, 0x75, 0x6c, Column(0xf4, 0xbc, 0xd4, 0x54), STATE_5.c0);
  }

  lemma Column1OfRound5(sbox: seq<bv8>)
    requires Forward(sbox)
    ensures Gives(sbox, KEY_5.c1, 0x69, 0xd2, 0x5b, 0x23, Column(0x32, 0xe5, 0x54, 0xd0), STATE_5.c1)
  {
    hide Forward, Gives, MixColumn;
    Mixed5();
    ColumnGives(sbox, KEY_5.c1, Column(0xf9, 0xb5, 0x39, 0x26), 0x69, 0xd2, 0x5b, 0x23, Column(0x32, 0xe5, 0x54, 0xd0), STATE_5.c1);
  }

  lemma Column2OfRound5(sbox: seq<bv8>)
    requires Forward(sbox)
    ensures Gives(sbox, KEY_5.c2, 0x6e, 0x42, 0x40, 0xfa, Column(0x75, 0xf1, 0xd6, 0xc5), STATE_5.c2)
  {
    hide Forward, Gives, MixColumn;
    Mixed5();
    ColumnGives(sbox, KEY_5.c2, Column(0x9f, 0x2c, 0x09, 0x2d), 0x6e, 0x42, 0x40, 0xfa, Column(0x75, 0xf1, 0xd6, 0xc5), STATE_5.c2);
  }

  lemma Column3OfRound5(sbox: seq<bv8>)
    requires Forward(sbox)
    ensures Gives(sbox, KEY_5.c3, 0x88, 0x72, 0xb3, 0x32, Column(0x1d, 0xd0, 0x3b, 0x3c), STATE_5.c3)
  {
    hide Forward, Gives, MixColumn;
    Mixed5();
    ColumnGives(sbox, KEY_5.c3, Column(0xc4, 0x40, 0x6d, 0x23), 0x88, 0x72, 0xb3, 0x32, Column(0x1d, 0xd0, 0x3b, 0x3c), STATE_5.c3);
  }

  lemma Round5(sbox: seq<bv8>)
    requires Forward(sbox)
    ensures Round(sbox, KEY_5.Bytes(), STATE_4.Bytes()) == STATE_5.Bytes()
  {
    hide Round, Gives, Square.Bytes;
    Column0OfRound5(sbox);
    Column1OfRound5(sbox);
    Column2OfRound5(sbox);
    Column3OfRound5(sbox);
    RoundGives(sbox, KEY_5, STATE_4, Square(Column(0xf4, 0xbc, 0xd4, 0x54), Column(0x32, 0xe5, 0x54, 0xd0), Column(0x75, 0xf1, 0xd6, 0xc5), Column(0x1d, 0xd0, 0x3b, 0x3c)), STATE_5);
  }

  lemma Mixed6()
    ensures MixColumn(Column(0xe8, 0xda, 0xb6, 0x90)) == Column(0x98, 0x16, 0xee, 0x74)
    ensures MixColumn(Column(0x14, 0x77, 0xd4, 0x65)) == Column(0x00, 0xf8, 0x7f, 0x55)
    ensures MixColumn(Column(0x3f, 0xf7, 0xf5, 0xe2)) == Column(0x6b, 0x2c, 0x04, 0x9c)
    ensures MixColumn(Column(0xe7, 0x47, 0xdd, 0x4f)) == Column(0x8e, 0x5a, 0xd0, 0x36)
  {}

  lemma Column0OfRound6(sbox: seq<bv8>)
    requires Forward(sbox)
    ensures Gives(sbox, KEY_6.c0, 0xc8, 0x7a, 0x79, 0x96, Column(0x98, 0x16, 0xee, 0x74), STATE_6.c0)
  {
    hide Forward, Gives, MixColumn;
    Mixed6();
    ColumnGives(sbox, KEY_6.c0, Column(0xe8, 0xda, 0xb6, 0x90), 0xc8, 0x7a, 0x79, 0x96, Column(0x98, 0x16, 0xee, 0x74), STATE_6.c0);
  }

  lemma Column1OfRound6(sbox: seq<bv8>)
    requires Forward(sbox)
    ensures Gives(sbox, KEY_6.c1, 0x9b, 0x02, 0x19, 0xbc, Column(0x00, 0xf8, 0x7f, 0x55), STATE_6.c1)
  {
    hide Forward, Gives, MixColumn;
    Mixed6();
    ColumnGives(sbox, KEY_6.c1, Column(0x14, 0x77, 0xd4, 0x65), 0x9b, 0x02, 0x19, 0xbc, Column(0x00, 0xf8, 0x7f, 0x55), STATE_6.c1);
  }

  lemma Column2OfRound6(sbox: seq<bv8>)
    requires Forward(sbox)
    ensures Gives(sbox, KEY_6.c2, 0x25, 0x26, 0x77, 0x3b, Column(0x6b, 0x2c, 0x04, 0x9c), STATE_6.c2)
  {
    hide Forward, Gives, MixColumn;
    Mixed6();
    ColumnGives(sbox, KEY_6.c2, Column(0x3f, 0xf7, 0xf5, 0xe2), 0x25, 0x26, 0x77, 0x3b, Column(0x6b, 0x2c, 0x04, 0x9c), STATE_6.c2);
  }

  lemma Column3OfRound6(sbox: seq<bv8>)
    requires Forward(sbox)
    ensures Gives(sbox, KEY_6.c3, 0xb0, 0x16, 0xc9, 0x92, Column(0x8e, 0x5a, 0xd0, 0x36), STATE_6.c3)
  {
    hide Forward, Gives, MixColumn;
    Mixed6();
    ColumnGives(sbox, KEY_6.c3, Column(0xe7, 0x47, 0xdd, 0x4f), 0xb0, 0x16, 0xc9, 0x92, Column(0x8e, 0x5a, 0xd0, 0x36), STATE_6.c3);
  }

  lemma Round6(sbox: seq<bv8>)
    requires Forward(sbox)
    ensures Round(sbox, KEY_6.Bytes(), STATE_5.Bytes()) == STATE_6.Bytes()
  {
    hide Round, Gives, Square.Bytes;
    Column0OfRound6(sbox);
    Column1OfRound6(sbox);
    Column2OfRound6(sbox);
    Column3OfRound6(sbox);
    RoundGives(sbox, KEY_6, STATE_5, Square(Column(0x98, 0x16, 0xee, 0x74), Column(0x00, 0xf8, 0x7f, 0x55), Column(0x6b, 0x2c, 0x04, 0x9c), Column(0x8e, 0x5a, 0xd0, 0x36)), STATE_6);
  }

  lemma Mixed7()
    ensures MixColumn(Column(0xb4, 0x58, 0x12, 0x4c)) == Column(0xc5, 0x7e, 0x1c, 0x15)
    ensures MixColumn(Column(0x68, 0xb6, 0x8a, 0x01)) == Column(0x9a, 0x9b, 0xd2, 0x86)
    ensures MixColumn(Column(0x4b, 0x99, 0xf8, 0x2e)) == Column(0xf0, 0x5f, 0x4b, 0xe0)
    ensures MixColumn(Column(0x5f, 0x15, 0x55, 0x4c)) == Column(0x98, 0xc6, 0x34, 0x39)
  {}

  lemma Column0OfRound7(sbox: seq<bv8>)
    requires Forward(sbox)
    ensures Gives(sbox, KEY_7.c0, 0xc6, 0x5e, 0x39, 0x5d, Column(0xc5, 0x7e, 0x1c, 0x15), STATE_7.c0)
  {
    hide Forward, Gives, MixColumn;
    Mixed7();
    ColumnGives(sbox, KEY_7.c0, Column(0xb4, 0x58, 0x12, 0x4c), 0xc6, 0x5e, 0x39, 0x5d, Column(0xc5, 0x7e, 0x1c, 0x15), STATE_7.c0);
  }

  lemma Column1OfRound7(sbox: seq<bv8>)
    requires Forward(sbox)
    ensures Gives(sbox, KEY_7.c1, 0xf7, 0x79, 0xcf, 0x09, Column(0x9a, 0x9b, 0xd2, 0x86), STATE_7.c1)
  {
    hide Forward, Gives, MixColumn;
    Mixed7();
    ColumnGives(sbox, KEY_7.c1, Column(0x68, 0xb6, 0x8a, 0x01), 0xf7, 0x79, 0xcf, 0x09, Column(0x9a, 0x9b, 0xd2, 0x86), STATE_7.c1);
  }

  lemma Column2OfRound7(sbox: seq<bv8>)
    requires Forward(sbox)
    ensures Gives(sbox, KEY_7.c2, 0xcc, 0xf9, 0xe1, 0xc3, Column(0xf0, 0x5f, 0x4b, 0xe0), STATE_7.c2)
  {
    hide Forward, Gives, MixColumn;
    Mixed7();
    ColumnGives(sbox, KEY_7.c2, Column(0x4b, 0x99, 0xf8, 0x2e), 0xcc, 0xf9, 0xe1, 0xc3, Column(0xf0, 0x5f, 0x4b, 0xe0), STATE_7.c2);
  }

  lemma Column3OfRound7(sbox: seq<bv8>)
    requires Forward(sbox)
    ensures Gives(sbox, KEY_7.c3, 0x84, 0x2f, 0xed, 0x5d, Column(0x98, 0xc6, 0x34, 0x39), STATE_7.c3)
  {
    hide Forward, Gives, MixColumn;
    Mixed7();
    ColumnGives(sbox, KEY_7.c3, Column(0x5f, 0x15, 0x55, 0x4c), 0x84, 0x2f, 0xed, 0x5d, Column(0x98, 0xc6, 0x34, 0x39), STATE_7.c3);
  }

  lemma Round7(sbox: seq<bv8>)
    requires Forward(sbox)
    ensures Round(sbox, KEY_7.Bytes(), STATE_6.Bytes()) == STATE_7.Bytes()
  {
    hide Round, Gives, Square.Bytes;
    Column0OfRound7(sbox);
    Column1OfRound7(sbox);
    Column2OfRound7(sbox);
    Column3OfRound7(sbox);
    RoundGives(sbox, KEY_7, STATE_6, Square(Column(0xc5, 0x7e, 0x1c, 0x15), Column(0x9a, 0x9b, 0xd2, 0x86), Column(0xf0, 0x5f, 0x4b, 0xe0), Column(0x98, 0xc6, 0x34, 0x39)), STATE_7);
  }

  lemma Mixed8()
    ensures MixColumn(Column(0x3e, 0x1c, 0x22, 0xc0)) == Column(0xba, 0xa0, 0x3d, 0xe7)
    ensures MixColumn(Column(0xb6, 0xfc, 0xbf, 0x76)) == Column(0xa1, 0xf9, 0xb5, 0x6e)
    ensures MixColumn(Column(0x8d, 0xa8, 0x50, 0x67)) == Column(0xd5, 0x51, 0x2c, 0xba)
    ensures MixColumn(Column(0xf6, 0x17, 0x04, 0x95)) == Column(0x5f, 0x41, 0x4d, 0x23)
  {}

  lemma Column0OfRound8(sbox: seq<bv8>)
    requires Forward(sbox)
    ensures Gives(sbox, KEY_8.c0, 0xd1, 0xc4, 0x94, 0x1f, Column(0xba, 0xa0, 0x3d, 0xe7), STATE_8.c0)
  {
    hide Forward, Gives, MixColumn;
    Mixed8();
    ColumnGives(sbox, KEY_8.c0, Column(0x3e, 0x1c, 0x22, 0xc0), 0xd1, 0xc4, 0x94, 0x1f, Column(0xba, 0xa0, 0x3d, 0xe7), STATE_8.c0);
  }

  lemma Column1OfRound8(sbox: seq<bv8>)
    requires Forward(sbox)
    ensures Gives(sbox, KEY_8.c1, 0x79, 0x55, 0xf4, 0x0f, Column(0xa1, 0xf9, 0xb5, 0x6e), STATE_8.c1)
  {
    hide Forward, Gives, MixColumn;
    Mixed8();
    ColumnGives(sbox, KEY_8.c1, Column(0xb6, 0xfc, 0xbf, 0x76), 0x79, 0x55, 0xf4, 0x0f, Column(0xa1, 0xf9, 0xb5, 0x6e), STATE_8.c1);
  }

  lemma Column2OfRound8(sbox: seq<bv8>)
    requires Forward(sbox)
    ensures Gives(sbox, KEY_8.c2, 0xb4, 0x6f, 0x6c, 0x0a, Column(0xd5, 0x51, 0x2c, 0xba), STATE_8.c2)
  {
    hide Forward, Gives, MixColumn;
    Mixed8();
    ColumnGives(sbox, KEY_8.c2, Column(0x8d, 0xa8, 0x50, 0x67), 0xb4, 0x6f, 0x6c, 0x0a, Column(0xd5, 0x51, 0x2c, 0xba), STATE_8.c2);
  }

  lemma Column3OfRound8(sbox: seq<bv8>)
    requires Forward(sbox)
    ensures Gives(sbox, KEY_8.c3, 0xd6, 0x87, 0x30, 0xad, Column(0x5f, 0x41, 0x4d, 0x23), STATE_8.c3)
  {
    hide Forward, Gives, MixColumn;
    Mixed8();
    ColumnGives(sbox, KEY_8.c3, Column(0xf6, 0x17, 0x04, 0x95), 0xd6, 0x87, 0x30, 0xad, Column(0x5f, 0x41, 0x4d, 0x23), STATE_8.c3);
  }

  lemma Round8(sbox: seq<bv8>)
    requires Forward(sbox)
    ensures Round(sbox, KEY_8.Bytes(), STATE_7.Bytes()) == STATE_8.Bytes()
  {
    hide Round, Gives, Square.Bytes;
    Column0OfRound8(sbox);
    Column1OfRound8(sbox);
    Column2OfRound8(sbox);
    Column3OfRound8(sbox);
    RoundGives(sbox, KEY_8, STATE_7, Square(Column(0xba, 0xa0, 0x3d, 0xe7), Column(0xa1, 0xf9, 0xb5, 0x6e), Column(0xd5, 0x51, 0x2c, 0xba), Column(0x5f, 0x41, 0x4d, 0x23)), STATE_8);
  }

  lemma Mixed9()
    ensures MixColumn(Column(0x54, 0xd9, 0x90, 0xa1)) == Column(0xe9, 0xf7, 0x4e, 0xec)
    ensures MixColumn(Column(0x6b, 0xa0, 0x9a, 0xb5)) == Column(0x02, 0x30, 0x20, 0xf6)
    ensures MixColumn(Column(0x96, 0xbb, 0xf4, 0x0e)) == Column(0x1b, 0xf2, 0xcc, 0xf2)
    ensures MixColumn(Column(0xa1, 0x11, 0x70, 0x2f)) == Column(0x35, 0x3c, 0x21, 0xc7)
  {}

  lemma Column0OfRound9(sbox: seq<bv8>)
    requires Forward(sbox)
    ensures Gives(sbox, KEY_9.c0, 0xfd, 0xe5, 0x96, 0xf1, Column(0xe9, 0xf7, 0x4e, 0xec), STATE_9.c0)
  {
    hide Forward, Gives, MixColumn;
    Mixed9();
    ColumnGives(sbox, KEY_9.c0, Column(0x54, 0xd9, 0x90, 0xa1), 0xfd, 0xe5, 0x96, 0xf1, Column(0xe9, 0xf7, 0x4e, 0xec), STATE_9.c0);
  }

  lemma Column1OfRound9(sbox: seq<bv8>)
    requires Forward(sbox)
    ensures Gives(sbox, KEY_9.c1, 0x05, 0x47, 0x37, 0xd2, Column(0x02, 0x30, 0x20, 0xf6), STATE_9.c1)
  {
    hide Forward, Gives, MixColumn;
    Mixed9();
    ColumnGives(sbox, KEY_9.c1, Column(0x6b, 0xa0, 0x9a, 0xb5), 0x05, 0x47, 0x37, 0xd2, Column(0x02, 0x30, 0x20, 0xf6), STATE_9.c1);
  }

  lemma Column2OfRound9(sbox: seq<bv8>)
    requires Forward(sbox)
    ensures Gives(sbox, KEY_9.c2, 0x35, 0xfe, 0xba, 0xd7, Column(0x1b, 0xf2, 0xcc, 0xf2), STATE_9.c2)
  {
    hide Forward, Gives, MixColumn;
    Mixed9();
    ColumnGives(sbox, KEY_9.c2, Column(0x96, 0xbb, 0xf4, 0x0e), 0x35, 0xfe, 0xba, 0xd7, Column(0x1b, 0xf2, 0xcc, 0xf2), STATE_9.c2);
  }

  lemma Column3OfRound9(sbox: seq<bv8>)
    requires Forward(sbox)
    ensures Gives(sbox, KEY_9.c3, 0xf1, 0xe3, 0xd0, 0x4e, Column(0x35, 0x3c, 0x21, 0xc7), STATE_9.c3)
  {
    hide Forward, Gives, MixColumn;
    Mixed9();
    ColumnGives(sbox, KEY_9.c3, Column(0xa1, 0x11, 0x70, 0x2f), 0xf1, 0xe3, 0xd0, 0x4e, Column(0x35, 0x3c, 0x21, 0xc7), STATE_9.c3);
  }

  lemma Round9(sbox: seq<bv8>)
    requires Forward(sbox)
    ensures Round(sbox, KEY_9.Bytes(), STATE_8.Bytes()) == STATE_9.Bytes()
  {
    hide Round, Gives, Square.Bytes;
    Column0OfRound9(sbox);
    Column1OfRound9(sbox);
    Column2OfRound9(sbox);
    Column3OfRound9(sbox);
    RoundGives(sbox, KEY_9, STATE_8, Square(Column(0xe9, 0xf7, 0x4e, 0xec), Column(0x02, 0x30, 0x20, 0xf6), Column(0x1b, 0xf2, 0xcc, 0xf2), Column(0x35, 0x3c, 0x21, 0xc7)), STATE_9);
  }

  lemma Column0OfRound10(sbox: seq<bv8>)
    requires Forward(sbox)
    ensures Shifted(sbox, 0xbd, 0xb5, 0x21, 0x89) == Column(0x7a, 0xd5, 0xfd, 0xa7)
  {
    hide Forward, Lookup;
    Entries(sbox, Column(0x7a, 0xd5, 0xfd, 0xa7), 0xbd, 0xb5, 0x21, 0x89);
  }

  lemma Column1OfRound10(sbox: seq<bv8>)
    requires Forward(sbox)
    ensures Shifted(sbox, 0xf2, 0x61, 0xb6, 0x3d) == Column(0x89, 0xef, 0x4e, 0x27)
  {
    hide Forward, Lookup;
    Entries(sbox, Column(0x89, 0xef, 0x4e, 0x27), 0xf2, 0x61, 0xb6, 0x3d);
  }

  lemma Column2OfRound10(sbox: seq<bv8>)
    requires Forward(sbox)
    ensures Shifted(sbox, 0x0b, 0x10, 0x7c, 0x9e) == Column(0x2b, 0xca, 0x10, 0x0b)
  {
    hide Forward, Lookup;
    Entries(sbox, Column(0x2b, 0xca, 0x10, 0x0b), 0x0b, 0x10, 0x7c, 0x9e);
  }

  lemma Column3OfRound10(sbox: seq<bv8>)
    requires Forward(sbox)
    ensures Shifted(sbox, 0x8b, 0x6e, 0x77, 0x6e) == Column(0x3d, 0x9f, 0xf5, 0x9f)
  {
    hide Forward, Lookup;
    Entries(sbox, Column(0x3d, 0x9f, 0xf5, 0x9f), 0x8b, 0x6e, 0x77, 0x6e);
  }

  lemma LastGives(sbox: seq<bv8>, key: Square, s: Square, next: Square)
    requires |sbox| == 256
    requires next.c0 == ColumnPlus(Shifted(sbox, s.c0.a, s.c1.b, s.c2.c, s.c3.d), key.c0)
    requires next.c1 == ColumnPlus(Shifted(sbox, s.c1.a, s.c2.b, s.c3.c, s.c0.d), key.c1)
    requires next.c2 == ColumnPlus(Shifted(sbox, s.c2.a, s.c3.b, s.c0.c, s.c1.d), key.c2)
    requires next.c3 == ColumnPlus(Shifted(sbox, s.c3.a, s.c0.b, s.c1.c, s.c2.d), key.c3)
    ensures LastRound(sbox, key.Bytes(), s.Bytes()) == next.Bytes()
  {
    hide Plus, Lookup, ColumnAt, Square.Bytes, XorBlock, ShiftRows, Substitute, ColumnPlus, Shifted;
    var shifted := ShiftRows(Substitute(sbox, s.Bytes()));
    LastRoundXor(sbox, key.Bytes(), s.Bytes());
    ShiftedColumns(sbox, s.Bytes());
    BytesAre(s);
    Columns(key);
    XorColumns(shifted, key.Bytes(), 0); XorColumns(shifted, key.Bytes(), 1);
    XorColumns(shifted, key.Bytes(), 2); XorColumns(shifted, key.Bytes(), 3);
    SameSquare(XorBlock(shifted, key.Bytes()), next);
  }

  lemma LastRoundIs(sbox: seq<bv8>)
    requires Forward(sbox)
    ensures LastRound(sbox, KEY_10.Bytes(), STATE_9.Bytes()) == STATE_10.Bytes()
  {
    hide LastRound, Shifted, Square.Bytes;
    Column0OfRound10(sbox);
    Column1OfRound10(sbox);
    Column2OfRound10(sbox);
    Column3OfRound10(sbox);
    LastGives(sbox, KEY_10, STATE_9, STATE_10);
  }

  /** One step along the rounds. */
  lemma OneMore(sbox: seq<bv8>, keys: seq<Block>, s: Block, n: nat, before: Block, after: Block)
    requires |sbox| == 256 && 0 < n < |keys|
    requires After(sbox, keys, s, n - 1) == before && Round(sbox, keys[n], before) == after
    ensures After(sbox, keys, s, n) == after
  {
    hide Round;
  }

  lemma FirstXor()
    ensures XorBlock(PLAINTEXT, KEY_0.Bytes()) == STATE_0.Bytes()
  {
    hide XorBlock, Square.Bytes;
    Columns(KEY_0);
    XorColumns(PLAINTEXT, KEY_0.Bytes(), 0); XorColumns(PLAINTEXT, KEY_0.Bytes(), 1);
    XorColumns(PLAINTEXT, KEY_0.Bytes(), 2); XorColumns(PLAINTEXT, KEY_0.Bytes(), 3);
    SameSquare(XorBlock(PLAINTEXT, KEY_0.Bytes()), STATE_0);
  }

  lemma FirstState(sbox: seq<bv8>)
    requires |sbox| == 256
    ensures After(sbox, ExpandedKey(), PLAINTEXT, 0) == STATE_0.Bytes()
  {
    hide XorBlock;
    StartIs(sbox, ExpandedKey(), PLAINTEXT);
    FirstXor();
  }

  lemma LastState(sbox: seq<bv8>)
    requires Forward(sbox)
    ensures After(sbox, ExpandedKey(), PLAINTEXT, 9) == STATE_9.Bytes()
  {
    hide After, Round, Square.Bytes;
    var keys := ExpandedKey();
    FirstState(sbox);
    Round1(sbox); OneMore(sbox, keys, PLAINTEXT, 1, STATE_0.Bytes(), STATE_1.Bytes());
    Round2(sbox); OneMore(sbox, keys, PLAINTEXT, 2, STATE_1.Bytes(), STATE_2.Bytes());
    Round3(sbox); OneMore(sbox, keys, PLAINTEXT, 3, STATE_2.Bytes(), STATE_3.Bytes());
    Round4(sbox); OneMore(sbox, keys, PLAINTEXT, 4, STATE_3.Bytes(), STATE_4.Bytes());
    Round5(sbox); OneMore(sbox, keys, PLAINTEXT, 5, STATE_4.Bytes(), STATE_5.Bytes());
    Round6(sbox); OneMore(sbox, keys, PLAINTEXT, 6, STATE_5.Bytes(), STATE_6.Bytes());
    Round7(sbox); OneMore(sbox, keys, PLAINTEXT, 7, STATE_6.Bytes(), STATE_7.Bytes());
    Round8(sbox); OneMore(sbox, keys, PLAINTEXT, 8, STATE_7.Bytes(), STATE_8.Bytes());
    Round9(sbox); OneMore(sbox, keys, PLAINTEXT, 9, STATE_8.Bytes(), STATE_9.Bytes());
  }

  /** Appendix C.1: under the key 000102...0f, expanded, 00112233...ff becomes 69c4e0d8...5a, and back. */
  lemma KnownAnswer(t: Tables, mode: nat)
    requires t.Valid() && mode < MODE_COUNT && t.invSbox == InverseSbox()
    requires [t.roundKey0] + t.middleKeys[mode] + [t.roundKey10] == ExpandedKey()
    ensures EncryptBlock(t, mode, PLAINTEXT, ForwardTable(t.invSbox)) == CIPHERTEXT
    ensures DecryptBlock(t, mode, CIPHERTEXT) == PLAINTEXT
  {
    hide EncryptBlock, DecryptBlock, LastRound, After;
    var sbox := ForwardTable(t.invSbox);
    EncryptIsCipher(t, mode, PLAINTEXT, sbox);
    BlockInverse(t, mode, PLAINTEXT, sbox);
    LastState(sbox);
    LastRoundIs(sbox);
  }
}
