/** Reading a sequence parameter set: the bit reader, its Exp-Golomb codes (section 9.1 of ITU-T H.264)
    and the picture size, against the syntax of section 7.3.2.1.1 printed by an encoder. */
module Sps {
  import opened Bytes
  import opened Bits
  import NalStream

  const MAX_ZEROS := 31

  // ---------- Exp-Golomb codes ----------

  function TakeBit(bits: seq<bit>): Option<(nat, seq<bit>)> {
    if bits == [] then None else Some((bits[0], bits[1..]))
  }

  /** Zeros up to the first one; 32 of them are too many. */
  function TakeZeros(zeros: nat, bits: seq<bit>): Option<(nat, seq<bit>)>
    decreases |bits|
  {
    if bits == [] then None
    else if bits[0] == 1 then Some((zeros, bits[1..]))
    else if zeros + 1 > MAX_ZEROS then None
    else TakeZeros(zeros + 1, bits[1..])
  }

  function TakeUe(bits: seq<bit>): Option<(nat, seq<bit>)> {
    var (zeros, rest) :- TakeZeros(0, bits);
    var (low, rest') :- TakeBits(zeros, 0, rest);
    Some((Pow2(zeros) - 1 + low, rest'))
  }

  function SignedValue(k: nat): int {
    if k % 2 == 1 then (k + 1) / 2 else -(k / 2)
  }

  function TakeSe(bits: seq<bit>): Option<(int, seq<bit>)> {
    var (k, rest) :- TakeUe(bits);
    Some((SignedValue(k), rest))
  }

  /** Counts how often n can be halved: the prefix length of n - 1's code. */
  function Log2(n: nat): (k: nat)
    requires n > 0
    ensures Pow2(k) <= n < 2 * Pow2(k)
  {
    if n == 1 then 0 else Log2(n / 2) + 1
  }

  function PutZeros(n: nat, rest: seq<bit>): seq<bit> {
    if n == 0 then rest else [0] + PutZeros(n - 1, rest)
  }

  function PutUe(v: nat, rest: seq<bit>): seq<bit> {
    var k := Log2(v + 1);
    PutZeros(k, [1] + PutBits(k, v + 1 - Pow2(k), rest))
  }

  function PutSe(v: int, rest: seq<bit>): seq<bit> {
    PutUe(if v > 0 then 2 * v - 1 else -2 * v, rest)
  }

  /** The values with a code of at most 31 leading zeros. */
  const UE_LIMIT := 0xFFFF_FFFF

  lemma {:induction false} ZerosRoundTrip(n: nat, zeros: nat, rest: seq<bit>)
    requires zeros + n <= MAX_ZEROS
    ensures TakeZeros(zeros, PutZeros(n, [1] + rest)) == Some((zeros + n, rest))
    decreases n
  {
    if n > 0 {
      var tail := PutZeros(n - 1, [1] + rest);
      assert PutZeros(n, [1] + rest)[1..] == tail;
      ZerosRoundTrip(n - 1, zeros + 1, rest);
    }
  }

  lemma {:induction false} Pow2Grows(m: nat, n: nat)
    requires m <= n
    ensures Pow2(m) <= Pow2(n)
    decreases n
  {
    if m < n {
      Pow2Grows(m, n - 1);
    }
  }

  /** 32 leading zeros belong to the values from 2^32 - 1 on. */
  lemma LongestCode(k: nat)
    requires Pow2(k) <= UE_LIMIT
    ensures k <= MAX_ZEROS
  {
    if k > MAX_ZEROS {
      Pow2Grows(32, k);
      Pow2Values();
    }
  }

  lemma UeRoundTrip(v: nat, rest: seq<bit>)
    requires v < UE_LIMIT
    ensures TakeUe(PutUe(v, rest)) == Some((v, rest))
  {
    hide Pow2, PutBits, TakeBits, PutZeros, TakeZeros;
    var k := Log2(v + 1);
    LongestCode(k);
    var low := v + 1 - Pow2(k);
    ZerosRoundTrip(k, 0, PutBits(k, low, rest));
    TakePutBits(k, low, rest);
  }

  predicate SeRange(v: int) {
    -0x8000_0000 < v < 0x8000_0000
  }

  lemma SeRoundTrip(v: int, rest: seq<bit>)
    requires SeRange(v)
    ensures TakeSe(PutSe(v, rest)) == Some((v, rest))
  {
    hide PutUe, TakeUe;
    UeRoundTrip(if v > 0 then 2 * v - 1 else -2 * v, rest);
  }

  /** Longer codes are refused, so the codes read back are exactly those of 32-bit values. */
  lemma {:induction false} TooManyZeros(n: nat, zeros: nat, rest: seq<bit>)
    requires zeros + n > MAX_ZEROS >= zeros
    ensures TakeZeros(zeros, PutZeros(n, rest)) == None
    decreases n
  {
    var tail := PutZeros(n - 1, rest);
    assert PutZeros(n, rest)[1..] == tail;
    if zeros + 1 <= MAX_ZEROS {
      TooManyZeros(n - 1, zeros + 1, rest);
    }
  }

  lemma UeReadsExactlyItsRange(v: nat, rest: seq<bit>)
    ensures TakeUe(PutUe(v, rest)).Some? <==> v < UE_LIMIT
  {
    hide Pow2, PutBits, TakeBits, PutZeros, TakeZeros;
    if v < UE_LIMIT {
      UeRoundTrip(v, rest);
    } else {
      var k := Log2(v + 1);
      assert k > MAX_ZEROS by {
        if k <= MAX_ZEROS {
          Pow2Grows(k, 31);
          Pow2Values();
        }
      }
      TooManyZeros(k, 0, [1] + PutBits(k, v + 1 - Pow2(k), rest));
    }
  }

  lemma OneMoreBit(n: nat, acc: nat, bits: seq<bit>)
    requires n > 0
    ensures match TakeBit(bits)
      case None => TakeBits(n, acc, bits) == None
      case Some(v) => TakeBits(n, acc, bits) == TakeBits(n - 1, 2 * acc + v.0, v.1)
  {}

  lemma NoMoreBits(acc: nat, bits: seq<bit>)
    ensures TakeBits(0, acc, bits) == Some((acc, bits))
  {}

  lemma NoLowBits(bits: seq<bit>)
    ensures Pow2(0) == 1 && TakeBits(0, 0, bits) == Some((0, bits))
  {}

  // ---------- the reader ----------

  ghost predicate Reads<T(!new)>(r: Option<T>, spec: Option<(T, seq<bit>)>, left: seq<bit>) {
    (r.None? <==> spec.None?) && (r.Some? ==> spec.value == (r.value, left))
  }

  class BitReader {
    const data: seq<byte>
    var pos: nat
    var err: bool

    ghost predicate Valid()
      reads this
    {
      pos <= 8 * |data|
    }

    ghost function Left(): seq<bit>
      reads this
      requires Valid()
    {
      AllBits(data)[pos..]
    }

    constructor (data: seq<byte>)
      ensures Valid() && this.data == data && !err && Left() == AllBits(data)
    {
      this.data := data;
      pos := 0;
      err := false;
    }

    method ReadBit() returns (r: Option<nat>)
      requires Valid()
      modifies this
      ensures Valid() && Reads(r, TakeBit(old(Left())), Left())
      ensures err == (old(err) || r.None?)
    {
      if pos >= |data| * 8 {
        err := true;
        return None;
      }
      r := Some(BitOf(data[pos / 8], pos % 8));
      pos := pos + 1;
    }

    method ReadBits(n: nat) returns (r: Option<nat>)
      requires Valid()
      modifies this
      ensures Valid() && Reads(r, TakeBits(n, 0, old(Left())), Left())
      ensures err == (old(err) || r.None?)
    {
      hide AllBits, TakeBits, TakeBit;
      var v := 0;
      for i := 0 to n
        invariant Valid() && v >= 0 && err == old(err)
        invariant TakeBits(n, 0, old(Left())) == TakeBits(n - i, v, Left())
      {
        OneMoreBit(n - i, v, Left());
        var b :- ReadBit();
        v := 2 * v + b;
      }
      NoMoreBits(v, Left());
      r := Some(v);
    }

    /** The zeros of a code, up to and with its first one. */
    method CountZeros() returns (r: Option<nat>)
      requires Valid()
      modifies this
      ensures Valid() && Reads(r, TakeZeros(0, old(Left())), Left())
      ensures err == (old(err) || r.None?)
    {
      hide AllBits;
      var zeros := 0;
      while true
        invariant Valid() && err == old(err)
        invariant 0 <= zeros <= MAX_ZEROS
        invariant TakeZeros(0, old(Left())) == TakeZeros(zeros, Left())
        decreases 8 * |data| - pos
      {
        ghost var left := Left();
        var b :- ReadBit();
        if b != 0 {
          return Some(zeros);
        }
        assert TakeZeros(zeros, left) == if zeros + 1 > MAX_ZEROS then None else TakeZeros(zeros + 1, Left());
        zeros := zeros + 1;
        if zeros > 31 {
          err := true;
          return None;
        }
      }
    }

    method ReadUe() returns (r: Option<nat>)
      requires Valid()
      modifies this
      ensures Valid() && Reads(r, TakeUe(old(Left())), Left())
      ensures err == (old(err) || r.None?)
    {
      hide AllBits, TakeBits, TakeZeros, Pow2;
      var zeros :- CountZeros();
      if zeros == 0 {
        NoLowBits(Left());
        return Some(0);
      }
      var rest :- ReadBits(zeros);
      r := Some(Pow2(zeros) - 1 + rest);
    }

    method ReadSe() returns (r: Option<int>)
      requires Valid()
      modifies this
      ensures Valid() && Reads(r, TakeSe(old(Left())), Left())
      ensures err == (old(err) || r.None?)
    {
      hide TakeUe, AllBits;
      var k :- ReadUe();
      var half: int := (k + 1) / 2;
      r := Some(if k % 2 != 0 then half else -half);
    }
  }

  // ---------- the syntax ----------

  datatype High = High(
    chromaFormat: nat,
    separatePlanes: bit,
    lumaDepth: nat,
    chromaDepth: nat,
    bypass: bit,
    // each list's delta_scale values, when the list is present
    scaling: Option<seq<Option<seq<int>>>>)

  datatype Order =
    | Type0(lsbBits: nat)
    | Type1(alwaysZero: bit, nonRef: int, topToBottom: int, refFrames: seq<int>)
    | Type2

  datatype Crop = Crop(left: nat, right: nat, top: nat, bottom: nat)

  datatype Frame = Frame(refFrames: nat, gaps: bit, widthMinus1: nat, heightMinus1: nat, frameMbsOnly: bit, adaptive: bit, direct: bit, crop: Option<Crop>)

  /** Everything up to the cropping window; VUI and trailing bits are whatever follows. */
  datatype Syntax = Syntax(
    profile: byte, constraints: byte, level: byte, id: nat,
    high: Option<High>,
    frameNumBits: nat,
    order: Order,
    frame: Frame)

  predicate HasHighFields(profile: nat) {
    profile in {100, 110, 122, 244, 44, 83, 86, 118, 128, 138, 139, 134, 135}
  }

  function ListSize(i: nat): nat {
    if i >= 6 then 64 else 16
  }

  function ListCount(chromaFormat: nat): nat {
    if chromaFormat == 3 then 12 else 8
  }

  const START_SCALE := 8

  /** Section 7.3.2.1.1.1: deltas go on until a scale of zero. */
  predicate ValidDeltas(size: nat, last: int, next: int, deltas: seq<int>)
    decreases size
  {
    if size == 0 || next == 0 then deltas == []
    else
      && deltas != [] && -128 <= deltas[0] <= 127
      && var scale := (last + deltas[0] + 256) % 256;
      ValidDeltas(size - 1, if scale != 0 then scale else last, scale, deltas[1..])
  }

  ghost predicate ValidLists(i: nat, lists: seq<Option<seq<int>>>) {
    forall k: nat | k < |lists| && lists[k].Some? :: ValidDeltas(if i + k < 6 then 16 else 64, 8, 8, lists[k].value)
  }

  ghost predicate ValidHigh(h: High) {
    && h.chromaFormat <= 3 && h.lumaDepth < UE_LIMIT && h.chromaDepth < UE_LIMIT
    && (h.scaling.Some? ==> |h.scaling.value| == (if h.chromaFormat != 3 then 8 else 12) && ValidLists(0, h.scaling.value))
  }

  ghost predicate ValidOrder(o: Order) {
    match o
    case Type0(bits) => bits < UE_LIMIT
    case Type1(_, nonRef, topToBottom, refFrames) =>
      SeRange(nonRef) && SeRange(topToBottom) && |refFrames| < UE_LIMIT && forall v | v in refFrames :: SeRange(v)
    case Type2 => true
  }

  ghost predicate ValidFrame(f: Frame) {
    && f.refFrames < UE_LIMIT && f.widthMinus1 < UE_LIMIT && f.heightMinus1 < UE_LIMIT
    && (f.crop.Some? ==> var c := f.crop.value;
      c.left < UE_LIMIT && c.right < UE_LIMIT && c.top < UE_LIMIT && c.bottom < UE_LIMIT)
  }

  /** Section 7.3.2.1.1: these profiles, and no others, have the chroma and scaling fields. */
  ghost predicate ValidSyntax(s: Syntax) {
    && s.id < UE_LIMIT && s.frameNumBits < UE_LIMIT
    && (s.high.Some? <==> s.profile in {44, 83, 86, 100, 110, 118, 122, 128, 134, 135, 138, 139, 244})
    && (s.high.Some? ==> ValidHigh(s.high.value))
    && ValidOrder(s.order) && ValidFrame(s.frame)
  }

  // ---------- printing ----------

  function PutBit(b: bit, rest: seq<bit>): seq<bit> {
    [b] + rest
  }

  function PutByte(b: byte, rest: seq<bit>): seq<bit> {
    Pow2Values();
    PutBits(8, b, rest)
  }

  function PutSes(values: seq<int>, rest: seq<bit>): seq<bit> {
    if values == [] then rest else PutSe(values[0], PutSes(values[1..], rest))
  }

  function PutLists(lists: seq<Option<seq<int>>>, rest: seq<bit>): seq<bit> {
    if lists == [] then rest
    else match lists[0]
      case None => PutBit(0, PutLists(lists[1..], rest))
      case Some(deltas) => PutBit(1, PutSes(deltas, PutLists(lists[1..], rest)))
  }

  function PutScaling(h: High, rest: seq<bit>): seq<bit> {
    match h.scaling
    case None => PutBit(0, rest)
    case Some(lists) => PutBit(1, PutLists(lists, rest))
  }

  function PutHigh(h: High, rest: seq<bit>): seq<bit> {
    var depths := PutUe(h.lumaDepth, PutUe(h.chromaDepth, PutBit(h.bypass, PutScaling(h, rest))));
    PutUe(h.chromaFormat, if h.chromaFormat == 3 then PutBit(h.separatePlanes, depths) else depths)
  }

  function PutOrder(o: Order, rest: seq<bit>): seq<bit> {
    match o
    case Type0(bits) => PutUe(0, PutUe(bits, rest))
    case Type1(alwaysZero, nonRef, topToBottom, refFrames) =>
      PutUe(1, PutBit(alwaysZero, PutSe(nonRef, PutSe(topToBottom, PutUe(|refFrames|, PutSes(refFrames, rest))))))
    case Type2 => PutUe(2, rest)
  }

  function PutCrop(c: Option<Crop>, rest: seq<bit>): seq<bit> {
    match c
    case None => PutBit(0, rest)
    case Some(c) => PutBit(1, PutUe(c.left, PutUe(c.right, PutUe(c.top, PutUe(c.bottom, rest)))))
  }

  function PutFrame(f: Frame, rest: seq<bit>): seq<bit> {
    var tail := PutBit(f.direct, PutCrop(f.crop, rest));
    var fields := PutBit(f.frameMbsOnly, if f.frameMbsOnly == 0 then PutBit(f.adaptive, tail) else tail);
    PutUe(f.refFrames, PutBit(f.gaps, PutUe(f.widthMinus1, PutUe(f.heightMinus1, fields))))
  }

  function PutSyntax(s: Syntax, rest: seq<bit>): seq<bit> {
    var body := PutUe(s.frameNumBits, PutOrder(s.order, PutFrame(s.frame, rest)));
    PutByte(s.profile, PutByte(s.constraints, PutByte(s.level, PutUe(s.id,
      match s.high { case None => body case Some(h) => PutHigh(h, body) }))))
  }

  // ---------- what the parser takes ----------

  /** The remainder of the original's division, which takes the sign of its dividend. */
  function Remainder256(a: int): int {
    if a >= 0 then a % 256 else -(-a % 256)
  }

  function TakeList(size: nat, last: int, next: int, bits: seq<bit>): Option<seq<bit>>
    decreases size
  {
    if size == 0 then Some(bits)
    else if next == 0 then TakeList(size - 1, last, next, bits)
    else
      var (delta, rest) :- TakeSe(bits);
      var scale := Remainder256(last + delta + 256);
      TakeList(size - 1, if scale != 0 then scale else last, scale, rest)
  }

  function TakeLists(i: nat, n: nat, bits: seq<bit>): Option<seq<bit>>
    decreases n - i
  {
    if i >= n then Some(bits)
    else
      var (present, rest) :- TakeBit(bits);
      if present == 1 then
        var rest' :- TakeList(ListSize(i), START_SCALE, START_SCALE, rest);
        TakeLists(i + 1, n, rest')
      else TakeLists(i + 1, n, rest)
  }

  function TakeHigh(bits: seq<bit>): Option<seq<bit>> {
    var (chromaFormat, b1) :- TakeUe(bits);
    var b2 :- if chromaFormat == 3 then Skip(TakeBit(b1)) else Some(b1);
    var (_, b3) :- TakeUe(b2);
    var (_, b4) :- TakeUe(b3);
    var (_, b5) :- TakeBit(b4);
    var (scaling, b6) :- TakeBit(b5);
    if scaling == 1 then TakeLists(0, ListCount(chromaFormat), b6) else Some(b6)
  }

  function Skip<T>(taken: Option<(T, seq<bit>)>): Option<seq<bit>> {
    match taken { case None => None case Some(v) => Some(v.1) }
  }

  function TakeSes(n: nat, bits: seq<bit>): Option<seq<bit>>
    decreases n
  {
    if n == 0 then Some(bits)
    else
      var (_, rest) :- TakeSe(bits);
      TakeSes(n - 1, rest)
  }

  function TakeOrder(bits: seq<bit>): Option<seq<bit>> {
    var (kind, b1) :- TakeUe(bits);
    if kind == 0 then Skip(TakeUe(b1))
    else if kind == 1 then
      var (_, b2) :- TakeBit(b1);
      var (_, b3) :- TakeSe(b2);
      var (_, b4) :- TakeSe(b3);
      var (n, b5) :- TakeUe(b4);
      TakeSes(n, b5)
    else Some(b1)
  }

  function TakeCrop(bits: seq<bit>): Option<(Crop, seq<bit>)> {
    var (cropped, b1) :- TakeBit(bits);
    if cropped == 1 then
      var (left, b2) :- TakeUe(b1);
      var (right, b3) :- TakeUe(b2);
      var (top, b4) :- TakeUe(b3);
      var (bottom, b5) :- TakeUe(b4);
      Some((Crop(left, right, top, bottom), b5))
    else Some((Crop(0, 0, 0, 0), b1))
  }

  function SubtractToZero(a: nat, b: nat): nat {
    if a < b then 0 else a - b
  }

  /** Width and height as 32-bit numbers, with the crop units of 4:2:0 pictures. */
  function Size(widthMinus1: nat, heightMinus1: nat, frameMbsOnly: nat, c: Crop): Option<(nat, nat)>
    requires frameMbsOnly <= 1
  {
    var w := SubtractToZero((widthMinus1 + 1) * 16, (c.left + c.right) * 2);
    var h := SubtractToZero((2 - frameMbsOnly) * (heightMinus1 + 1) * 16, (c.top + c.bottom) * (2 * (2 - frameMbsOnly)));
    if w == 0 || h == 0 then None else Some((w % 0x1_0000_0000, h % 0x1_0000_0000))
  }

  function TakeFrame(bits: seq<bit>): Option<(nat, nat)> {
    var (_, b1) :- TakeUe(bits);
    var (_, b2) :- TakeBit(b1);
    var (width, b3) :- TakeUe(b2);
    var (height, b4) :- TakeUe(b3);
    var (frameMbsOnly, b5) :- TakeBit(b4);
    var b6 :- if frameMbsOnly == 0 then Skip(TakeBit(b5)) else Some(b5);
    var (_, b7) :- TakeBit(b6);
    var (crop, _) :- TakeCrop(b7);
    Size(width, height, frameMbsOnly, crop)
  }

  function TakeByte(bits: seq<bit>): Option<(nat, seq<bit>)> {
    TakeBits(8, 0, bits)
  }

  function TakeSyntax(bits: seq<bit>): Option<(nat, nat)> {
    var (profile, b1) :- TakeByte(bits);
    var (_, b2) :- TakeByte(b1);
    var (_, b3) :- TakeByte(b2);
    var (_, b4) :- TakeUe(b3);
    var b5 :- if HasHighFields(profile) then TakeHigh(b4) else Some(b4);
    var (_, b6) :- TakeUe(b5);
    var b7 :- TakeOrder(b6);
    TakeFrame(b7)
  }

  function DimensionsOf(sps: seq<byte>): Option<(nat, nat)> {
    if |sps| < 4 || sps[0] % 32 != 7 then None
    else TakeSyntax(AllBits(NalStream.Strip(0, sps[1..])))
  }

  // ---------- reading back what was printed ----------

  lemma BitRoundTrip(b: bit, rest: seq<bit>)
    ensures TakeBit(PutBit(b, rest)) == Some((b as nat, rest))
  {}

  lemma ByteRoundTrip(b: byte, rest: seq<bit>)
    ensures TakeByte(PutByte(b, rest)) == Some((b as nat, rest))
  {
    hide PutBits, TakeBits, Pow2;
    Pow2Values();
    TakePutBits(8, b, rest);
  }

  lemma {:induction false} ListRoundTrip(size: nat, last: int, next: int, deltas: seq<int>, rest: seq<bit>)
    requires 0 <= last < 256 && 0 <= next < 256 && ValidDeltas(size, last, next, deltas)
    ensures TakeList(size, last, next, PutSes(deltas, rest)) == Some(rest)
    decreases size
  {
    hide PutSe, TakeSe;
    if size > 0 {
      if next == 0 {
        ListRoundTrip(size - 1, last, next, deltas, rest);
      } else {
        var tail := PutSes(deltas[1..], rest);
        SeRoundTrip(deltas[0], tail);
        if last + deltas[0] + 256 >= 0 {
          var scale := (last + deltas[0] + 256) % 256;
          ListRoundTrip(size - 1, if scale != 0 then scale else last, scale, deltas[1..], rest);
        }
      }
    }
  }

  lemma {:induction false} ListsRoundTrip(i: nat, n: nat, lists: seq<Option<seq<int>>>, rest: seq<bit>)
    requires i + |lists| == n && ValidLists(i, lists)
    ensures TakeLists(i, n, PutLists(lists, rest)) == Some(rest)
    decreases n - i
  {
    hide PutBit, TakeBit, PutSes, TakeList, ValidDeltas;
    if lists != [] {
      var tail := PutLists(lists[1..], rest);
      forall k: nat | k < |lists[1..]| && lists[1..][k].Some?
        ensures ValidDeltas(if i + 1 + k < 6 then 16 else 64, 8, 8, lists[1..][k].value)
      {
        assert lists[1..][k] == lists[k + 1];
      }
      ListsRoundTrip(i + 1, n, lists[1..], rest);
      match lists[0]
      case None => BitRoundTrip(0, tail);
      case Some(deltas) =>
        BitRoundTrip(1, PutSes(deltas, tail));
        assert lists[0].Some?;
        ListRoundTrip(ListSize(i + 0), START_SCALE, START_SCALE, deltas, tail);
    }
  }

  lemma HighRoundTrip(h: High, rest: seq<bit>)
    requires ValidHigh(h)
    ensures TakeHigh(PutHigh(h, rest)) == Some(rest)
  {
    hide PutBit, TakeBit, PutUe, TakeUe, PutLists, TakeLists;
    var b6 := match h.scaling { case None => rest case Some(lists) => PutLists(lists, rest) };
    var flag: bit := if h.scaling.Some? then 1 else 0;
    var b5 := PutBit(flag, b6);
    assert PutScaling(h, rest) == b5;
    BitRoundTrip(flag, b6);
    var b4 := PutBit(h.bypass, b5);
    BitRoundTrip(h.bypass, b5);
    var b3 := PutUe(h.chromaDepth, b4);
    UeRoundTrip(h.chromaDepth, b4);
    var b2 := PutUe(h.lumaDepth, b3);
    UeRoundTrip(h.lumaDepth, b3);
    BitRoundTrip(h.separatePlanes, b2);
    UeRoundTrip(h.chromaFormat, if h.chromaFormat == 3 then PutBit(h.separatePlanes, b2) else b2);
    if h.scaling.Some? {
      ListsRoundTrip(0, ListCount(h.chromaFormat), h.scaling.value, rest);
    }
  }

  lemma {:induction false} SesRoundTrip(values: seq<int>, rest: seq<bit>)
    requires forall v | v in values :: SeRange(v)
    ensures TakeSes(|values|, PutSes(values, rest)) == Some(rest)
    decreases |values|
  {
    hide PutSe, TakeSe;
    if values != [] {
      SeRoundTrip(values[0], PutSes(values[1..], rest));
      SesRoundTrip(values[1..], rest);
    }
  }

  lemma OrderRoundTrip(o: Order, rest: seq<bit>)
    requires ValidOrder(o)
    ensures TakeOrder(PutOrder(o, rest)) == Some(rest)
  {
    hide PutBit, TakeBit, PutUe, TakeUe, PutSe, TakeSe, PutSes, TakeSes;
    match o
    case Type0(bits) =>
      UeRoundTrip(0, PutUe(bits, rest));
      UeRoundTrip(bits, rest);
    case Type1(alwaysZero, nonRef, topToBottom, refFrames) =>
      var b5 := PutSes(refFrames, rest);
      SesRoundTrip(refFrames, rest);
      var b4 := PutUe(|refFrames|, b5);
      UeRoundTrip(|refFrames|, b5);
      var b3 := PutSe(topToBottom, b4);
      SeRoundTrip(topToBottom, b4);
      var b2 := PutSe(nonRef, b3);
      SeRoundTrip(nonRef, b3);
      BitRoundTrip(alwaysZero, b2);
      UeRoundTrip(1, PutBit(alwaysZero, b2));
    case Type2 => UeRoundTrip(2, rest);
  }

  function CropOf(f: Frame): Crop {
    if f.crop.Some? then f.crop.value else Crop(0, 0, 0, 0)
  }

  lemma CropRoundTrip(f: Frame, rest: seq<bit>)
    requires ValidFrame(f)
    ensures TakeCrop(PutCrop(f.crop, rest)) == Some((CropOf(f), rest))
  {
    hide PutBit, TakeBit, PutUe, TakeUe;
    match f.crop
    case None => BitRoundTrip(0, rest);
    case Some(c) =>
      var b4 := PutUe(c.bottom, rest);
      UeRoundTrip(c.bottom, rest);
      var b3 := PutUe(c.top, b4);
      UeRoundTrip(c.top, b4);
      var b2 := PutUe(c.right, b3);
      UeRoundTrip(c.right, b3);
      UeRoundTrip(c.left, b2);
      BitRoundTrip(1, PutUe(c.left, b2));
  }

  lemma FrameRoundTrip(f: Frame, rest: seq<bit>)
    requires ValidFrame(f)
    ensures TakeFrame(PutFrame(f, rest)) == Size(f.widthMinus1, f.heightMinus1, f.frameMbsOnly, CropOf(f))
  {
    hide PutBit, TakeBit, PutUe, TakeUe, PutCrop, TakeCrop, Size;
    var b7 := PutCrop(f.crop, rest);
    CropRoundTrip(f, rest);
    var b6 := PutBit(f.direct, b7);
    BitRoundTrip(f.direct, b7);
    BitRoundTrip(f.adaptive, b6);
    var b5 := if f.frameMbsOnly == 0 then PutBit(f.adaptive, b6) else b6;
    var b4 := PutBit(f.frameMbsOnly, b5);
    BitRoundTrip(f.frameMbsOnly, b5);
    var b3 := PutUe(f.heightMinus1, b4);
    UeRoundTrip(f.heightMinus1, b4);
    var b2 := PutUe(f.widthMinus1, b3);
    UeRoundTrip(f.widthMinus1, b3);
    BitRoundTrip(f.gaps, b2);
    UeRoundTrip(f.refFrames, PutBit(f.gaps, b2));
  }

  lemma SyntaxRoundTrip(s: Syntax, rest: seq<bit>)
    requires ValidSyntax(s)
    ensures TakeSyntax(PutSyntax(s, rest)) == Size(s.frame.widthMinus1, s.frame.heightMinus1, s.frame.frameMbsOnly, CropOf(s.frame))
  {
    hide PutByte, TakeByte, PutUe, TakeUe, PutHigh, TakeHigh, PutOrder, TakeOrder, PutFrame, TakeFrame, Size, ValidHigh, ValidOrder, ValidFrame;
    var b7 := PutFrame(s.frame, rest);
    FrameRoundTrip(s.frame, rest);
    var b6 := PutOrder(s.order, b7);
    OrderRoundTrip(s.order, b7);
    var b5 := PutUe(s.frameNumBits, b6);
    UeRoundTrip(s.frameNumBits, b6);
    if s.high.Some? {
      HighRoundTrip(s.high.value, b5);
    }
    var b4 := match s.high { case None => b5 case Some(h) => PutHigh(h, b5) };
    var b3 := PutUe(s.id, b4);
    UeRoundTrip(s.id, b4);
    var b2 := PutByte(s.level, b3);
    ByteRoundTrip(s.level, b3);
    var b1 := PutByte(s.constraints, b2);
    ByteRoundTrip(s.constraints, b2);
    ByteRoundTrip(s.profile, b1);
  }

  // ---------- the parameter set as a NAL unit ----------

  /** The unit an encoder sends: header, then the payload with emulation prevention.  The tail is the
      rest of the payload: VUI parameters, stop bit and alignment. */
  function SpsNal(header: byte, s: Syntax, tail: seq<bit>): seq<byte>
    requires |PutSyntax(s, tail)| % 8 == 0
  {
    [header] + NalStream.Escape(0, Pack(PutSyntax(s, tail)))
  }

  lemma {:induction false} EscapeGrows(zeros: nat, s: seq<byte>)
    requires zeros <= 2
    ensures |NalStream.Escape(zeros, s)| >= |s|
    decreases |s|
  {
    if s != [] {
      EscapeGrows(NalStream.NextZeros(if zeros == 2 && s[0] <= 3 then 0 else zeros, s[0]), s[1..]);
    }
  }

  lemma PutByteSize(b: byte, rest: seq<bit>)
    ensures |PutByte(b, rest)| == 8 + |rest|
  {
    hide PutBits;
    Pow2Values();
    PutBitsSize(8, b, rest);
  }

  /** The size found is the one the code's formula gives for the fields that were printed. */
  lemma DimensionsRoundTrip(header: byte, s: Syntax, tail: seq<bit>)
    requires header % 32 == 7 && ValidSyntax(s) && |PutSyntax(s, tail)| % 8 == 0
    ensures DimensionsOf(SpsNal(header, s, tail)) == Size(s.frame.widthMinus1, s.frame.heightMinus1, s.frame.frameMbsOnly, CropOf(s.frame))
  {
    hide TakeSyntax, ValidSyntax, Size, PutUe, PutByte, PutHigh, PutFrame, PutOrder, NalStream.Escape, NalStream.Strip, AllBits, Pack;
    var bits := PutSyntax(s, tail);
    var rbsp := Pack(bits);
    var nal := SpsNal(header, s, tail);
    assert |bits| >= 24 by {
      var body := PutUe(s.frameNumBits, PutOrder(s.order, PutFrame(s.frame, tail)));
      var b3 := PutUe(s.id, match s.high { case None => body case Some(h) => PutHigh(h, body) });
      PutByteSize(s.level, b3);
      PutByteSize(s.constraints, PutByte(s.level, b3));
      PutByteSize(s.profile, PutByte(s.constraints, PutByte(s.level, b3)));
    }
    EscapeGrows(0, rbsp);
    assert nal[1..] == NalStream.Escape(0, rbsp);
    NalStream.StripUndoesEscape(0, rbsp);
    AllBitsOfPack(bits);
    SyntaxRoundTrip(s, tail);
  }

  /** Section 7.4.2.1.1: 0 for monochrome or separate planes, otherwise the chroma format. */
  function ChromaArrayType(s: Syntax): nat {
    match s.high
    case None => 1
    case Some(h) => if h.separatePlanes == 1 && h.chromaFormat == 3 then 0 else h.chromaFormat
  }

  /** Horizontal and vertical crop units in frame samples, before field doubling (table 6-1). */
  function UnitX(s: Syntax): nat {
    if ChromaArrayType(s) in {1, 2} then 2 else 1
  }

  function UnitY(s: Syntax): nat {
    if ChromaArrayType(s) == 1 then 2 else 1
  }

  function CroppedWidth(s: Syntax): int {
    16 * (s.frame.widthMinus1 + 1) - UnitX(s) * (CropOf(s.frame).left + CropOf(s.frame).right)
  }

  function CroppedHeight(s: Syntax): int {
    (2 - s.frame.frameMbsOnly) * (16 * (s.frame.heightMinus1 + 1) - UnitY(s) * (CropOf(s.frame).top + CropOf(s.frame).bottom))
  }

  predicate InRange(n: int) {
    0 < n < 0x1_0000_0000
  }

  /** Where the code's 4:2:0 crop units give the standard's size. */
  predicate UnitsAgree(s: Syntax) {
    && (UnitX(s) == 2 || CropOf(s.frame).left + CropOf(s.frame).right == 0)
    && (UnitY(s) == 2 || CropOf(s.frame).top + CropOf(s.frame).bottom == 0)
  }

  lemma OneSide(full: nat, cropped: nat, unit: nat, doubling: nat)
    requires unit in {1, 2} && doubling in {1, 2} && InRange(full - doubling * unit * cropped)
    ensures var v := SubtractToZero(full, cropped * (2 * doubling));
      (v != 0 && v % 0x1_0000_0000 == full - doubling * unit * cropped) <==> (unit == 2 || cropped == 0)
  {}

  lemma SizeIsExact(s: Syntax)
    requires InRange(CroppedWidth(s)) && InRange(CroppedHeight(s))
    ensures (Size(s.frame.widthMinus1, s.frame.heightMinus1, s.frame.frameMbsOnly, CropOf(s.frame))
             == Some((CroppedWidth(s) as nat, CroppedHeight(s) as nat))) <==> UnitsAgree(s)
  {
    hide SubtractToZero, ChromaArrayType, InRange;
    var f, c := s.frame, CropOf(s.frame);
    var width, height, doubling := (f.widthMinus1 + 1) * 16, (2 - f.frameMbsOnly) * (f.heightMinus1 + 1) * 16, 2 - f.frameMbsOnly;
    HeightSplits(s);
    OneSide(width, c.left + c.right, UnitX(s), 1);
    OneSide(height, c.top + c.bottom, UnitY(s), doubling);
  }

  lemma HeightSplits(s: Syntax)
    ensures var doubling := 2 - s.frame.frameMbsOnly;
      CroppedHeight(s) == doubling * (s.frame.heightMinus1 + 1) * 16 - doubling * UnitY(s) * (CropOf(s.frame).top + CropOf(s.frame).bottom)
  {
    hide UnitY, CropOf;
    if s.frame.frameMbsOnly == 0 {
      assert 2 - s.frame.frameMbsOnly == 2;
    } else {
      assert 2 - s.frame.frameMbsOnly == 1;
    }
  }

  /** For every parameter set whose cropped size fits 32 bits: the parser returns that size exactly when
      its crop units apply. */
  lemma DimensionsAreExact(header: byte, s: Syntax, tail: seq<bit>)
    requires header % 32 == 7 && ValidSyntax(s) && |PutSyntax(s, tail)| % 8 == 0
    requires InRange(CroppedWidth(s)) && InRange(CroppedHeight(s))
    ensures (DimensionsOf(SpsNal(header, s, tail)) == Some((CroppedWidth(s) as nat, CroppedHeight(s) as nat))) <==> UnitsAgree(s)
  {
    hide DimensionsOf, SpsNal, Size, UnitsAgree, PutSyntax, ValidSyntax;
    DimensionsRoundTrip(header, s, tail);
    SizeIsExact(s);
  }

  /** In particular for every 4:2:0 parameter set, cropped or not, of any profile. */
  lemma Dimensions420(header: byte, s: Syntax, tail: seq<bit>)
    requires header % 32 == 7 && ValidSyntax(s) && |PutSyntax(s, tail)| % 8 == 0
    requires ChromaArrayType(s) == 1 && InRange(CroppedWidth(s)) && InRange(CroppedHeight(s))
    ensures DimensionsOf(SpsNal(header, s, tail)) == Some((CroppedWidth(s) as nat, CroppedHeight(s) as nat))
  {
    hide DimensionsOf, SpsNal, PutSyntax, ValidSyntax, CroppedWidth, CroppedHeight;
    DimensionsAreExact(header, s, tail);
  }

  /** A 4:4:4 picture of 20 by 15 macroblocks whose last column of samples is cropped. */
  const CROPPED_444: Syntax := Syntax(
    244, 0, 30, 0, Some(High(3, 0, 0, 0, 0, None)), 0, Type2,
    Frame(1, 0, 19, 14, 1, 0, 1, Some(Crop(0, 1, 0, 0))))

  const TRAILING: seq<bit> := [1, 0, 0, 0]

  /** The parser takes two columns off instead of one. */
  lemma Crop444Fails()
    ensures ValidSyntax(CROPPED_444) && |PutSyntax(CROPPED_444, TRAILING)| % 8 == 0
    ensures CroppedWidth(CROPPED_444) == 319 && CroppedHeight(CROPPED_444) == 240
    ensures DimensionsOf(SpsNal(0x67, CROPPED_444, TRAILING)) == Some((318, 240))
  {
    hide DimensionsOf, SpsNal, PutSyntax, ValidSyntax, Size, CroppedWidth, CroppedHeight;
    Valid444();
    Sizes444();
    Aligned444();
    DimensionsRoundTrip(0x67, CROPPED_444, TRAILING);
  }

  lemma Valid444()
    ensures ValidSyntax(CROPPED_444)
  {}

  lemma Sizes444()
    ensures CroppedWidth(CROPPED_444) == 319 && CroppedHeight(CROPPED_444) == 240
    ensures var f := CROPPED_444.frame;
      Size(f.widthMinus1, f.heightMinus1, f.frameMbsOnly, CropOf(f)) == Some((318, 240))
  {
    hide Size, CroppedWidth, CroppedHeight;
    var f := CROPPED_444.frame;
    SmallSize(f.widthMinus1, f.heightMinus1, CropOf(f));
    SmallCrop(CROPPED_444);
  }

  lemma SmallSize(widthMinus1: nat, heightMinus1: nat, c: Crop)
    requires widthMinus1 == 19 && heightMinus1 == 14 && c.left + c.right == 1 && c.top + c.bottom == 0
    ensures Size(widthMinus1, heightMinus1, 1, c) == Some((318, 240))
  {}

  lemma SmallCrop(s: Syntax)
    requires s.frame.widthMinus1 == 19 && s.frame.heightMinus1 == 14 && s.frame.frameMbsOnly == 1
    requires ChromaArrayType(s) == 3
    requires CropOf(s.frame).left + CropOf(s.frame).right == 1 && CropOf(s.frame).top + CropOf(s.frame).bottom == 0
    ensures CroppedWidth(s) == 319 && CroppedHeight(s) == 240
  {}

  lemma {:induction false} ZerosSize(n: nat, rest: seq<bit>)
    ensures |PutZeros(n, rest)| == n + |rest|
  {
    if n > 0 {
      ZerosSize(n - 1, rest);
    }
  }

  lemma UeSize(v: nat, k: nat, rest: seq<bit>)
    requires Pow2(k) <= v + 1 < 2 * Pow2(k)
    ensures |PutUe(v, rest)| == 2 * k + 1 + |rest|
  {
    hide Pow2, PutBits, PutZeros;
    var k' := Log2(v + 1);
    if k < k' {
      Pow2Grows(k + 1, k');
      assert Pow2(k + 1) == 2 * Pow2(k) by { DoublePow2(k); }
    } else if k' < k {
      Pow2Grows(k' + 1, k);
      assert Pow2(k' + 1) == 2 * Pow2(k') by { DoublePow2(k'); }
    }
    var low := PutBits(k', v + 1 - Pow2(k'), rest);
    PutBitsSize(k', v + 1 - Pow2(k'), rest);
    ZerosSize(k', [1] + low);
  }

  lemma DoublePow2(k: nat)
    ensures Pow2(k + 1) == 2 * Pow2(k)
  {}

  lemma SmallPow2()
    ensures Pow2(0) == 1 && Pow2(1) == 2 && Pow2(2) == 4 && Pow2(3) == 8 && Pow2(4) == 16
  {
    DoublePow2(0);
    DoublePow2(1);
    DoublePow2(2);
    DoublePow2(3);
  }

  lemma Aligned444()
    ensures |PutSyntax(CROPPED_444, TRAILING)| == 72
  {
    hide PutUe, PutByte, PutFrame, PutOrder, PutHigh, Pow2;
    var s := CROPPED_444;
    FrameSize444();
    var b1 := PutFrame(s.frame, TRAILING);
    SmallPow2();
    assert PutOrder(s.order, b1) == PutUe(2, b1) by { OrderTwo(b1); }
    UeSize(2, 1, b1);
    var b2 := PutOrder(s.order, b1);
    UeSize(0, 0, b2);
    var b3 := PutUe(0, b2);
    HighSize444(b3);
    var b4 := PutHigh(s.high.value, b3);
    UeSize(0, 0, b4);
    var b5 := PutUe(0, b4);
    PutByteSize(s.level, b5);
    PutByteSize(s.constraints, PutByte(s.level, b5));
    PutByteSize(s.profile, PutByte(s.constraints, PutByte(s.level, b5)));
  }

  lemma OrderTwo(rest: seq<bit>)
    ensures PutOrder(Type2, rest) == PutUe(2, rest)
  {
    hide PutUe;
  }

  lemma HighSize444(rest: seq<bit>)
    ensures |PutHigh(High(3, 0, 0, 0, 0, None), rest)| == 10 + |rest|
  {
    hide PutUe, Pow2;
    SmallPow2();
    var b1 := PutBit(0, PutBit(0, rest));
    UeSize(0, 0, b1);
    UeSize(0, 0, PutUe(0, b1));
    UeSize(3, 2, PutBit(0, PutUe(0, PutUe(0, b1))));
  }

  lemma FrameSize444()
    ensures |PutFrame(CROPPED_444.frame, TRAILING)| == 33
  {
    hide PutUe, PutCrop, Pow2;
    SmallPow2();
    CropSize444();
    var b1 := PutBit(1, PutBit(1, PutCrop(CROPPED_444.frame.crop, TRAILING)));
    UeSize(14, 3, b1);
    UeSize(19, 4, PutUe(14, b1));
    UeSize(1, 1, PutBit(0, PutUe(19, PutUe(14, b1))));
  }

  lemma CropSize444()
    ensures |PutCrop(CROPPED_444.frame.crop, TRAILING)| == 11
  {
    hide PutUe, Pow2;
    SmallPow2();
    UeSize(0, 0, TRAILING);
    UeSize(0, 0, PutUe(0, TRAILING));
    UeSize(1, 1, PutUe(0, PutUe(0, TRAILING)));
    UeSize(0, 0, PutUe(1, PutUe(0, PutUe(0, TRAILING))));
  }

  // ---------- the parser, step by step ----------

  ghost predicate Skips(r: Option<()>, spec: Option<seq<bit>>, left: seq<bit>) {
    (r.None? <==> spec.None?) && (r.Some? ==> spec.value == left)
  }

  method ReadList(r: BitReader, size: nat) returns (ok: Option<()>)
    requires r.Valid()
    modifies r
    ensures r.Valid() && Skips(ok, TakeList(size, START_SCALE, START_SCALE, old(r.Left())), r.Left())
    ensures r.err == (old(r.err) || ok.None?)
  {
    hide TakeSe, AllBits;
    var lastScale: int := 8;
    var nextScale: int := 8;
    for i := 0 to size
      invariant r.Valid() && r.err == old(r.err)
      invariant TakeList(size, START_SCALE, START_SCALE, old(r.Left())) == TakeList(size - i, lastScale, nextScale, r.Left())
    {
      if nextScale != 0 {
        var delta :- r.ReadSe();
        nextScale := Remainder256(lastScale + delta + 256);
      }
      if nextScale != 0 {
        lastScale := nextScale;
      }
    }
    ok := Some(());
  }

  method ReadLists(r: BitReader, n: nat) returns (ok: Option<()>)
    requires r.Valid()
    modifies r
    ensures r.Valid() && Skips(ok, TakeLists(0, n, old(r.Left())), r.Left())
    ensures r.err == (old(r.err) || ok.None?)
  {
    hide TakeList, AllBits;
    for i := 0 to n
      invariant r.Valid() && r.err == old(r.err)
      invariant TakeLists(0, n, old(r.Left())) == TakeLists(i, n, r.Left())
    {
      var present :- r.ReadBit();
      if present == 1 {
        var _ :- ReadList(r, ListSize(i));
      }
    }
    ok := Some(());
  }

  method ReadHigh(r: BitReader) returns (ok: Option<()>)
    requires r.Valid()
    modifies r
    ensures r.Valid() && Skips(ok, TakeHigh(old(r.Left())), r.Left())
    ensures r.err == (old(r.err) || ok.None?)
  {
    hide TakeUe, TakeLists, AllBits;
    var chromaFormat :- r.ReadUe();
    if chromaFormat == 3 {
      var _ :- r.ReadBit();
    }
    var _ :- r.ReadUe();
    var _ :- r.ReadUe();
    var _ :- r.ReadBit();
    var scaling :- r.ReadBit();
    if scaling == 1 {
      var _ :- ReadLists(r, ListCount(chromaFormat));
    }
    ok := Some(());
  }

  method ReadSes(r: BitReader, n: nat) returns (ok: Option<()>)
    requires r.Valid()
    modifies r
    ensures r.Valid() && Skips(ok, TakeSes(n, old(r.Left())), r.Left())
    ensures r.err == (old(r.err) || ok.None?)
  {
    hide TakeSe, AllBits;
    for i := 0 to n
      invariant r.Valid() && r.err == old(r.err)
      invariant TakeSes(n, old(r.Left())) == TakeSes(n - i, r.Left())
    {
      var _ :- r.ReadSe();
    }
    ok := Some(());
  }

  method ReadOrder(r: BitReader) returns (ok: Option<()>)
    requires r.Valid()
    modifies r
    ensures r.Valid() && Skips(ok, TakeOrder(old(r.Left())), r.Left())
    ensures r.err == (old(r.err) || ok.None?)
  {
    hide TakeUe, TakeSe, TakeSes, AllBits;
    var kind :- r.ReadUe();
    if kind == 0 {
      var _ :- r.ReadUe();
    } else if kind == 1 {
      var _ :- r.ReadBit();
      var _ :- r.ReadSe();
      var _ :- r.ReadSe();
      var n :- r.ReadUe();
      var _ :- ReadSes(r, n);
    }
    ok := Some(());
  }

  method ReadFrame(r: BitReader) returns (size: Option<(nat, nat)>)
    requires r.Valid() && !r.err
    modifies r
    ensures size == TakeFrame(old(r.Left()))
  {
    hide TakeUe, AllBits, Size;
    var _ :- r.ReadUe();
    var _ :- r.ReadBit();
    var width :- r.ReadUe();
    var height :- r.ReadUe();
    ghost var left := r.Left();
    var frameMbsOnly :- r.ReadBit();
    assert frameMbsOnly <= 1;
    if frameMbsOnly == 0 {
      var _ :- r.ReadBit();
    }
    var _ :- r.ReadBit();
    var crop :- ReadCrop(r);
    if r.err {
      return None;
    }
    size := Size(width, height, frameMbsOnly, crop);
  }

  method ReadCrop(r: BitReader) returns (crop: Option<Crop>)
    requires r.Valid()
    modifies r
    ensures r.Valid() && Reads(crop, TakeCrop(old(r.Left())), r.Left())
    ensures r.err == (old(r.err) || crop.None?)
  {
    hide TakeUe, AllBits;
    var c := Crop(0, 0, 0, 0);
    var cropped :- r.ReadBit();
    if cropped == 1 {
      var left :- r.ReadUe();
      var right :- r.ReadUe();
      var top :- r.ReadUe();
      var bottom :- r.ReadUe();
      c := Crop(left, right, top, bottom);
    }
    crop := Some(c);
  }

  method SpsDimensions(sps: seq<byte>) returns (size: Option<(nat, nat)>)
    ensures size == DimensionsOf(sps)
  {
    hide TakeUe, TakeBits, TakeHigh, TakeOrder, TakeFrame, AllBits, NalStream.Strip;
    if |sps| < 4 || sps[0] % 32 != 7 {
      return None;
    }
    var rbsp := NalStream.StripEmulationPrevention(sps[1..]);
    var r := new BitReader(rbsp);
    var profile :- r.ReadBits(8);
    var _ :- r.ReadBits(8);
    var _ :- r.ReadBits(8);
    var _ :- r.ReadUe();
    if HasHighFields(profile) {
      var _ :- ReadHigh(r);
    }
    var _ :- r.ReadUe();
    var _ :- ReadOrder(r);
    size := ReadFrame(r);
  }

  // ---------- the printed codes of tables 9-1 to 9-3 ----------

  /** The first five codes of table 9-2, and the signed values of table 9-3. */
  lemma FirstCodes(rest: seq<bit>)
    ensures PutUe(0, rest) == [1] + rest
    ensures PutUe(1, rest) == [0, 1, 0] + rest && PutUe(2, rest) == [0, 1, 1] + rest
    ensures PutUe(3, rest) == [0, 0, 1, 0, 0] + rest && PutUe(4, rest) == [0, 0, 1, 0, 1] + rest
    ensures SignedValue(1) == 1 && SignedValue(2) == -1 && SignedValue(3) == 2 && SignedValue(4) == -2
    ensures PutSe(0, rest) == [1] + rest && PutSe(1, rest) == [0, 1, 0] + rest && PutSe(-1, rest) == [0, 1, 1] + rest
  {
    SmallPow2();
    SmallLogs();
    OneDigit(rest);
    TwoDigits(rest);
    ZerosFirst([1] + PutBits(1, 0, rest));
    ZerosFirst([1] + PutBits(1, 1, rest));
    ZerosFirst([1] + PutBits(2, 0, rest));
    ZerosFirst([1] + PutBits(2, 1, rest));
  }

  lemma SmallLogs()
    ensures Log2(1) == 0 && Log2(2) == 1 && Log2(3) == 1 && Log2(4) == 2 && Log2(5) == 2
  {}

  lemma OneDigit(rest: seq<bit>)
    ensures Pow2(1) == 2 && PutBits(1, 0, rest) == [0] + rest && PutBits(1, 1, rest) == [1] + rest
  {
    SmallPow2();
  }

  lemma TwoDigits(rest: seq<bit>)
    ensures Pow2(2) == 4 && PutBits(2, 0, rest) == [0, 0] + rest && PutBits(2, 1, rest) == [0, 1] + rest
  {
    SmallPow2();
    OneDigit(rest);
  }

  lemma ZerosFirst(rest: seq<bit>)
    ensures PutZeros(1, rest) == [0] + rest && PutZeros(2, rest) == [0, 0] + rest
  {
    assert PutZeros(0, rest) == rest;
  }

  /** A code begins with a one exactly when its value is zero. */
  lemma CodeBegins(v: nat, rest: seq<bit>)
    ensures PutUe(v, rest) != [] && (PutUe(v, rest)[0] == 1 <==> v == 0)
  {
    hide PutBits, Pow2;
    SmallPow2();
    var k := Log2(v + 1);
    ZeroLog(v + 1);
    BeginsWithZero(k, [1] + PutBits(k, v + 1 - Pow2(k), rest));
  }

  lemma ZeroLog(n: nat)
    requires n > 0
    ensures Log2(n) == 0 <==> n == 1
  {}

  lemma BeginsWithZero(k: nat, rest: seq<bit>)
    requires rest != [] && rest[0] == 1
    ensures PutZeros(k, rest) != [] && (PutZeros(k, rest)[0] == 1 <==> k == 0)
  {}
}
