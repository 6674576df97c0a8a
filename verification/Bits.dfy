/** Bit strings, most significant bit first, and their bytes. */
module Bits {
  import opened Bytes

  type bit = x: int | 0 <= x < 2

  function Pow2(n: nat): (p: nat)
    ensures p > 0
  {
    if n == 0 then 1 else 2 * Pow2(n - 1)
  }

  lemma {:induction false} Pow2Add(m: nat, n: nat)
    ensures Pow2(m + n) == Pow2(m) * Pow2(n)
    decreases n
  {
    if n > 0 {
      Pow2Add(m, n - 1);
    }
  }

  lemma Pow2Values()
    ensures Pow2(8) == 0x100 && Pow2(16) == 0x1_0000 && Pow2(31) == 0x8000_0000 && Pow2(32) == 0x1_0000_0000
  {
    Pow2Add(8, 8);
    Pow2Add(8, 7);
    Pow2Add(16, 15);
    Pow2Add(16, 16);
  }

  /** The n-bit form of v, in front of rest. */
  function PutBits(n: nat, v: nat, rest: seq<bit>): seq<bit>
    requires v < Pow2(n)
  {
    if n == 0 then rest
    else
      var high := Pow2(n - 1);
      if v >= high then [1] + PutBits(n - 1, v - high, rest) else [0] + PutBits(n - 1, v, rest)
  }

  /** What a reader gets that shifts n bits, one by one, into acc. */
  function TakeBits(n: nat, acc: nat, bits: seq<bit>): Option<(nat, seq<bit>)>
    decreases n
  {
    if n == 0 then Some((acc, bits))
    else if bits == [] then None
    else TakeBits(n - 1, 2 * acc + bits[0], bits[1..])
  }

  function Shifted(acc: nat, n: nat, v: nat): nat {
    acc * Pow2(n) + v
  }

  lemma ShiftIn(acc: nat, b: bit, n: nat, low: nat)
    requires n > 0
    ensures Shifted(2 * acc + b, n - 1, low) == Shifted(acc, n, if b == 1 then Pow2(n - 1) + low else low)
  {
    var high := Pow2(n - 1);
    assert (2 * acc) * high == acc * (2 * high);
  }

  lemma {:induction false} TakeAfterPut(n: nat, v: nat, acc: nat, rest: seq<bit>)
    requires v < Pow2(n)
    ensures TakeBits(n, acc, PutBits(n, v, rest)) == Some((Shifted(acc, n, v), rest))
    decreases n
  {
    hide Shifted;
    if n > 0 {
      var high := Pow2(n - 1);
      var b, low := if v >= high then 1 else 0, if v >= high then v - high else v;
      assert PutBits(n, v, rest) == [b] + PutBits(n - 1, low, rest);
      TakeAfterPut(n - 1, low, 2 * acc + b, rest);
      ShiftIn(acc, b, n, low);
    } else {
      assert Shifted(acc, 0, 0) == acc by { ShiftNothing(acc); }
    }
  }

  lemma ShiftNothing(acc: nat)
    ensures Shifted(acc, 0, 0) == acc
  {}

  /** A reader that starts from zero gets the value back. */
  lemma TakePutBits(n: nat, v: nat, rest: seq<bit>)
    requires v < Pow2(n)
    ensures TakeBits(n, 0, PutBits(n, v, rest)) == Some((v, rest))
  {
    TakeAfterPut(n, v, 0, rest);
  }

  lemma {:induction false} PutBitsSize(n: nat, v: nat, rest: seq<bit>)
    requires v < Pow2(n)
    ensures |PutBits(n, v, rest)| == n + |rest|
    decreases n
  {
    if n > 0 {
      var high := Pow2(n - 1);
      PutBitsSize(n - 1, if v >= high then v - high else v, rest);
    }
  }

  // ---------- bytes ----------

  /** The bits of a byte, from the top. */
  function BitOf(b: byte, j: nat): bit
    requires j < 8
  {
    if j == 0 then b / 128
    else if j == 1 then b / 64 % 2
    else if j == 2 then b / 32 % 2
    else if j == 3 then b / 16 % 2
    else if j == 4 then b / 8 % 2
    else if j == 5 then b / 4 % 2
    else if j == 6 then b / 2 % 2
    else b % 2
  }

  function ByteOf(bits: seq<bit>): byte
    requires |bits| == 8
  {
    bits[0] as int * 128 + bits[1] as int * 64 + bits[2] as int * 32 + bits[3] as int * 16
    + bits[4] as int * 8 + bits[5] as int * 4 + bits[6] as int * 2 + bits[7] as int
  }

  lemma BitOfByte(bits: seq<bit>, j: nat)
    requires |bits| == 8 && j < 8
    ensures BitOf(ByteOf(bits), j) == bits[j]
  {
    Quotients(bits);
    if j == 0 {
    } else {
      LastDigit(bits, j);
    }
  }

  /** The first n bits as a number. */
  function Leading(bits: seq<bit>, n: nat): nat
    requires n <= |bits|
  {
    if n == 0 then 0 else 2 * Leading(bits, n - 1) + bits[n - 1]
  }

  lemma LastDigit(bits: seq<bit>, j: nat)
    requires j < |bits|
    ensures Leading(bits, j + 1) % 2 == bits[j]
  {}

  lemma LeadingStep(bits: seq<bit>, n: nat)
    requires n < |bits|
    ensures Leading(bits, n + 1) == 2 * Leading(bits, n) + bits[n]
  {}

  lemma Quotients(bits: seq<bit>)
    requires |bits| == 8
    ensures var b := ByteOf(bits);
      && b / 128 == bits[0] && b / 64 == Leading(bits, 2) && b / 32 == Leading(bits, 3) && b / 16 == Leading(bits, 4)
      && b / 8 == Leading(bits, 5) && b / 4 == Leading(bits, 6) && b / 2 == Leading(bits, 7) && b == Leading(bits, 8)
  {
    hide Leading;
    assert Leading(bits, 0) == 0 by { NothingLeads(bits); }
    LeadingStep(bits, 0);
    LeadingStep(bits, 1);
    LeadingStep(bits, 2);
    LeadingStep(bits, 3);
    LeadingStep(bits, 4);
    LeadingStep(bits, 5);
    LeadingStep(bits, 6);
    LeadingStep(bits, 7);
  }

  lemma NothingLeads(bits: seq<bit>)
    ensures Leading(bits, 0) == 0
  {}

  /** All the bits of a byte string. */
  function AllBits(data: seq<byte>): (bits: seq<bit>)
    ensures |bits| == 8 * |data|
    ensures forall i | 0 <= i < 8 * |data| :: bits[i] == BitOf(data[i / 8], i % 8)
  {
    seq(8 * |data|, i requires 0 <= i < 8 * |data| => BitOf(data[i / 8], i % 8))
  }

  function Pack(bits: seq<bit>): (data: seq<byte>)
    requires |bits| % 8 == 0
    ensures |data| == |bits| / 8
  {
    if bits == [] then [] else [ByteOf(bits[..8])] + Pack(bits[8..])
  }

  lemma {:induction false} AllBitsOfPack(bits: seq<bit>)
    requires |bits| % 8 == 0
    ensures AllBits(Pack(bits)) == bits
  {
    hide BitOf, ByteOf;
    if bits != [] {
      var data, tail := Pack(bits), Pack(bits[8..]);
      AllBitsOfPack(bits[8..]);
      forall i | 0 <= i < |bits|
        ensures AllBits(data)[i] == bits[i]
      {
        if i < 8 {
          BitOfByte(bits[..8], i);
        } else {
          assert data[i / 8] == tail[(i - 8) / 8];
          assert AllBits(tail)[i - 8] == bits[8..][i - 8];
        }
      }
    }
  }

  /** Eight bits read from the front of a byte string are its first byte. */
  lemma FirstByteRead(data: seq<byte>)
    requires data != []
    ensures TakeBits(8, 0, AllBits(data)) == Some((data[0] as nat, AllBits(data[1..])))
  {
    hide BitOf;
    var b, bits := data[0], AllBits(data);
    assert forall j | 0 <= j < 8 :: bits[j] == BitOf(b, j);
    EightTaken(bits);
    ByteByBits(b);
    forall i | 0 <= i < |bits| - 8
      ensures bits[8..][i] == AllBits(data[1..])[i]
    {
      assert (i + 8) / 8 == i / 8 + 1 && (i + 8) % 8 == i % 8;
    }
    assert bits[8..] == AllBits(data[1..]);
  }

  lemma EightTaken(bits: seq<bit>)
    requires |bits| >= 8
    ensures TakeBits(8, 0, bits) == Some((
      bits[0] as int * 128 + bits[1] as int * 64 + bits[2] as int * 32 + bits[3] as int * 16
      + bits[4] as int * 8 + bits[5] as int * 4 + bits[6] as int * 2 + bits[7] as int, bits[8..]))
  {
    FourTaken(bits, 0, 4);
    FourTaken(bits[4..], bits[0] as int * 8 + bits[1] as int * 4 + bits[2] as int * 2 + bits[3] as int, 0);
    NoBitsTaken(((bits[0] as int * 8 + bits[1] as int * 4 + bits[2] as int * 2 + bits[3] as int) * 16
      + bits[4] as int * 8 + bits[5] as int * 4 + bits[6] as int * 2 + bits[7] as int), bits[8..]);
    assert bits[4..][4..] == bits[8..];
  }

  lemma NoBitsTaken(acc: nat, bits: seq<bit>)
    ensures TakeBits(0, acc, bits) == Some((acc, bits))
  {}

  lemma FourTaken(bits: seq<bit>, acc: nat, more: nat)
    requires |bits| >= 4
    ensures TakeBits(4 + more, acc, bits)
      == TakeBits(more, acc * 16 + bits[0] as int * 8 + bits[1] as int * 4 + bits[2] as int * 2 + bits[3] as int, bits[4..])
  {
    OneTaken(bits, acc, 3 + more);
    OneTaken(bits[1..], 2 * acc + bits[0], 2 + more);
    OneTaken(bits[2..], 2 * (2 * acc + bits[0]) + bits[1], 1 + more);
    OneTaken(bits[3..], 2 * (2 * (2 * acc + bits[0]) + bits[1]) + bits[2], more);
    assert bits[1..][1..] == bits[2..] && bits[2..][1..] == bits[3..] && bits[3..][1..] == bits[4..];
  }

  lemma OneTaken(bits: seq<bit>, acc: nat, more: nat)
    requires bits != []
    ensures TakeBits(1 + more, acc, bits) == TakeBits(more, 2 * acc + bits[0], bits[1..])
  {}

  lemma ByteByBits(b: byte)
    ensures b == BitOf(b, 0) as int * 128 + BitOf(b, 1) as int * 64 + BitOf(b, 2) as int * 32 + BitOf(b, 3) as int * 16
      + BitOf(b, 4) as int * 8 + BitOf(b, 5) as int * 4 + BitOf(b, 6) as int * 2 + BitOf(b, 7) as int
  {
    Telescope(b);
  }

  lemma Telescope(b: int)
    ensures b / 64 % 2 == b / 64 - 2 * (b / 128)
    ensures b / 32 % 2 == b / 32 - 2 * (b / 64)
    ensures b / 16 % 2 == b / 16 - 2 * (b / 32)
    ensures b / 8 % 2 == b / 8 - 2 * (b / 16)
    ensures b / 4 % 2 == b / 4 - 2 * (b / 8)
    ensures b / 2 % 2 == b / 2 - 2 * (b / 4)
    ensures b % 2 == b - 2 * (b / 2)
  {
    Halves(b / 64, b / 128);
    Halves(b / 32, b / 64);
    Halves(b / 16, b / 32);
    Halves(b / 8, b / 16);
    Halves(b / 4, b / 8);
    Halves(b / 2, b / 4);
  }

  lemma Halves(a: int, half: int)
    requires 2 * half <= a < 2 * half + 2
    ensures a % 2 == a - 2 * half
  {}
}
