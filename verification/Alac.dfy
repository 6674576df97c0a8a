/** The audio frame encoder: an MSB-first bit writer over a byte buffer, and the uncompressed ALAC frame
    it writes, read back with the bit reader's own operations. */
module Alac {
  import opened Bytes
  import opened Bits

  // ---------- fields ----------

  datatype Field = Field(width: nat, value: nat)

  predicate ValidField(f: Field) {
    f.width <= 32 && f.value < Pow2(f.width)
  }

  ghost predicate ValidFields(fields: seq<Field>) {
    forall f | f in fields :: ValidField(f)
  }

  function PutFields(fields: seq<Field>, rest: seq<bit>): seq<bit>
    requires ValidFields(fields)
  {
    if fields == [] then rest
    else
      assert ValidField(fields[0]);
      PutBits(fields[0].width, fields[0].value, PutFields(fields[1..], rest))
  }

  function TakeFields(widths: seq<nat>, bits: seq<bit>): (r: Option<(seq<nat>, seq<bit>)>)
    ensures r.Some? ==> |r.value.0| == |widths|
  {
    if widths == [] then Some(([], bits))
    else
      var (v, rest) :- TakeBits(widths[0], 0, bits);
      var (values, rest') :- TakeFields(widths[1..], rest);
      Some(([v] + values, rest'))
  }

  function Widths(fields: seq<Field>): seq<nat> {
    if fields == [] then [] else [fields[0].width] + Widths(fields[1..])
  }

  function FieldValues(fields: seq<Field>): seq<nat> {
    if fields == [] then [] else [fields[0].value] + FieldValues(fields[1..])
  }

  /** Every sequence of fields is read back. */
  lemma {:induction false} FieldsRoundTrip(fields: seq<Field>, rest: seq<bit>)
    requires ValidFields(fields)
    ensures TakeFields(Widths(fields), PutFields(fields, rest)) == Some((FieldValues(fields), rest))
    decreases |fields|
  {
    hide PutBits, TakeBits;
    if fields != [] {
      assert ValidField(fields[0]);
      TakePutBits(fields[0].width, fields[0].value, PutFields(fields[1..], rest));
      FieldsRoundTrip(fields[1..], rest);
      assert Widths(fields)[1..] == Widths(fields[1..]);
    }
  }

  lemma {:induction false} PutBitsThen(n: nat, v: nat, rest: seq<bit>)
    requires v < Pow2(n)
    ensures PutBits(n, v, rest) == PutBits(n, v, []) + rest
    decreases n
  {
    if n > 0 {
      var high := Pow2(n - 1);
      PutBitsThen(n - 1, if v >= high then v - high else v, rest);
    }
  }

  lemma {:induction false} PutFieldsThen(fields: seq<Field>, more: seq<Field>, rest: seq<bit>)
    requires ValidFields(fields) && ValidFields(more)
    ensures ValidFields(fields + more)
    ensures PutFields(fields + more, rest) == PutFields(fields, PutFields(more, rest))
    decreases |fields|
  {
    hide PutBits;
    if fields == [] {
      assert fields + more == more;
    } else {
      PutFieldsThen(fields[1..], more, rest);
      assert (fields + more)[1..] == fields[1..] + more;
    }
  }

  lemma {:induction false} PutFieldsPrefix(fields: seq<Field>, rest: seq<bit>)
    requires ValidFields(fields)
    ensures PutFields(fields, rest) == PutFields(fields, []) + rest
    decreases |fields|
  {
    hide PutBits;
    if fields != [] {
      assert ValidField(fields[0]);
      var f, tail := fields[0], PutFields(fields[1..], []);
      PutFieldsPrefix(fields[1..], rest);
      PutBitsThen(f.width, f.value, tail + rest);
      PutBitsThen(f.width, f.value, tail);
    }
  }

  // ---------- arithmetic of the writer's buffer ----------

  lemma ShiftedBound(m: nat, top: nat, n: nat, low: nat)
    requires top < Pow2(m) && low < Pow2(n)
    ensures Shifted(top, n, low) < Pow2(m + n)
  {
    Pow2Add(m, n);
    LessTimes(top + 1, Pow2(m), Pow2(n));
    assert (top + 1) * Pow2(n) == top * Pow2(n) + Pow2(n);
  }

  lemma LessTimes(a: nat, b: nat, p: nat)
    requires a <= b
    ensures a * p <= b * p
  {}

  /** The top bit of the upper field is the top bit of the whole. */
  lemma SplitTop(m: nat, top: nat, n: nat, low: nat)
    requires top < Pow2(m + 1)
    ensures var half := Pow2(m);
      Shifted(top, n, low) == if top >= half then Pow2(m + n) + Shifted(top - half, n, low) else Shifted(top, n, low)
  {
    var half, p := Pow2(m), Pow2(n);
    Pow2Add(m, n);
    if top >= half {
      assert top * p == half * p + (top - half) * p;
    }
  }

  /** Two fields side by side are one wider field. */
  lemma {:induction false} JoinBits(m: nat, top: nat, n: nat, low: nat)
    requires top < Pow2(m) && low < Pow2(n)
    ensures Shifted(top, n, low) < Pow2(m + n)
    ensures PutBits(m + n, Shifted(top, n, low), []) == PutBits(m, top, []) + PutBits(n, low, [])
    decreases m
  {
    hide Shifted;
    ShiftedBound(m, top, n, low);
    if m == 0 {
      assert Shifted(0, n, low) == low by { NoTop(n, low); }
    } else {
      var half := Pow2(m - 1);
      var rest := if top >= half then top - half else top;
      JoinBits(m - 1, rest, n, low);
      SplitTop(m - 1, top, n, low);
      assert (m + n) - 1 == (m - 1) + n;
    }
  }

  lemma NoTop(n: nat, low: nat)
    ensures Shifted(0, n, low) == low
  {}

  /** Bitwise or of two numbers. */
  function Or(a: nat, b: nat): nat {
    if a == 0 then b
    else if b == 0 then a
    else (if a % 2 == 1 || b % 2 == 1 then 1 else 0) + 2 * Or(a / 2, b / 2)
  }

  /** Where no bit overlaps, or is addition. */
  lemma {:induction false} OrIsSum(high: nat, n: nat, low: nat)
    requires low < Pow2(n)
    ensures Or(high * Pow2(n), low) == high * Pow2(n) + low
    decreases n
  {
    if n > 0 && low > 0 && high > 0 {
      var a := high * Pow2(n);
      assert a == 2 * (high * Pow2(n - 1));
      OrIsSum(high, n - 1, low / 2);
    }
  }

  function Value(bits: seq<bit>): nat {
    if bits == [] then 0 else bits[0] * Pow2(|bits| - 1) + Value(bits[1..])
  }

  lemma {:induction false} PutValue(bits: seq<bit>)
    ensures Value(bits) < Pow2(|bits|) && PutBits(|bits|, Value(bits), []) == bits
    decreases |bits|
  {
    if bits != [] {
      PutValue(bits[1..]);
      assert bits == [bits[0]] + bits[1..];
    }
  }

  lemma ByteIsItsBits(b: byte)
    ensures b < Pow2(8) && AllBits([b]) == PutBits(8, b, [])
  {
    var bits := AllBits([b]);
    PutValue(bits);
    EightBits(bits);
    ByteOfBits(b, bits);
  }

  lemma SmallPowers()
    ensures Pow2(1) == 2 && Pow2(2) == 4 && Pow2(3) == 8 && Pow2(4) == 16 && Pow2(5) == 32 && Pow2(6) == 64 && Pow2(7) == 128
  {}

  lemma ValueStep(bits: seq<bit>, n: nat)
    requires |bits| == n + 1
    ensures Value(bits) == bits[0] * Pow2(n) + Value(bits[1..])
  {}

  lemma EightBits(bits: seq<bit>)
    requires |bits| == 8
    ensures Value(bits) == ByteOf(bits)
  {
    hide Value, Pow2;
    SmallPowers();
    ValueStep(bits, 7);
    ValueStep(bits[1..], 6);
    ValueStep(bits[1..][1..], 5);
    ValueStep(bits[1..][1..][1..], 4);
    ValueStep(bits[1..][1..][1..][1..], 3);
    var low := bits[1..][1..][1..][1..][1..];
    ValueStep(low, 2);
    ValueStep(low[1..], 1);
    assert Value(low[1..][1..]) == bits[7] by { OneBit(low[1..][1..]); }
  }

  lemma OneBit(bits: seq<bit>)
    requires |bits| == 1
    ensures Value(bits) == bits[0]
  {
    assert Value(bits[1..]) == 0;
  }

  lemma ByteOfBits(b: byte, bits: seq<bit>)
    requires |bits| == 8 && forall j: nat | j < 8 :: bits[j] == BitOf(b, j)
    ensures ByteOf(bits) == b
  {
    Telescope(b);
    assert bits[0] == b / 128 && bits[1] == b / 64 % 2 && bits[2] == b / 32 % 2 && bits[3] == b / 16 % 2;
    assert bits[4] == b / 8 % 2 && bits[5] == b / 4 % 2 && bits[6] == b / 2 % 2 && bits[7] == b % 2;
  }

  lemma AllBitsAppend(a: seq<byte>, b: byte)
    ensures AllBits(a + [b]) == AllBits(a) + AllBits([b])
  {
    hide BitOf;
    var whole := AllBits(a + [b]);
    forall i | 0 <= i < |whole|
      ensures whole[i] == (AllBits(a) + AllBits([b]))[i]
    {
      if i >= 8 * |a| {
        assert (a + [b])[i / 8] == b && (i - 8 * |a|) / 8 == 0;
      }
    }
  }

  lemma Scale(top: nat, p: nat, q: nat, v: nat)
    ensures (top * p + v) * q == top * (p * q) + v * q
  {
    assert top * (p * q) == (top * p) * q;
  }

  lemma ScaledBound(v: nat, p: nat, q: nat)
    requires v < p && q > 0
    ensures v * q < p * q
  {
    LessTimes(v + 1, p, q);
    assert (v + 1) * q == v * q + q;
  }

  /** Or-ing the next bits into the byte buffer appends them. */
  lemma MergeBuffer(top: nat, used: nat, n: nat, v: nat)
    requires used + n <= 8 && v < Pow2(n)
    ensures Or(top * Pow2(8 - used), v * Pow2(8 - used - n)) == Shifted(top, n, v) * Pow2(8 - used - n)
  {
    hide Pow2, Or;
    var free := 8 - used - n;
    Pow2Add(n, free);
    assert n + free == 8 - used;
    ScaledBound(v, Pow2(n), Pow2(free));
    OrIsSum(top, 8 - used, v * Pow2(free));
    Scale(top, Pow2(n), Pow2(free), v);
  }

  function Padding(used: nat): seq<bit>
    requires used < 8
  {
    if used == 0 then [] else PutZeroBits(8 - used)
  }

  function PutZeroBits(n: nat): (bits: seq<bit>)
    ensures |bits| == n && forall i | 0 <= i < n :: bits[i] == 0
  {
    seq(n, _ => 0)
  }

  lemma {:induction false} ZeroField(n: nat)
    ensures PutBits(n, 0, []) == PutZeroBits(n)
    decreases n
  {
    if n > 0 {
      ZeroField(n - 1);
      assert PutBits(n, 0, []) == [0] + PutZeroBits(n - 1);
    }
  }

  // ---------- the writer ----------

  class BitWriter {
    const buf: array<byte>
    var pos: nat
    var bitBuf: nat
    var bitPos: nat
    /** The bits waiting in bitBuf, as a number. */
    ghost var top: nat

    ghost predicate Valid()
      reads this
    {
      bitPos < 8 && top < Pow2(bitPos) && bitBuf == top * Pow2(8 - bitPos) && pos <= buf.Length
    }

    /** Everything written so far. */
    ghost function Contents(): seq<bit>
      reads this, buf
      requires Valid()
    {
      AllBits(buf[..pos]) + PutBits(bitPos, top, [])
    }

    ghost function Size(): nat
      reads this
    {
      8 * pos + bitPos
    }

    constructor (buf: array<byte>)
      ensures Valid() && this.buf == buf && Contents() == [] && Size() == 0
    {
      this.buf := buf;
      pos, bitBuf, bitPos, top := 0, 0, 0, 0;
    }

    /** Up to as many bits as the current byte has room for; a full byte is stored. */
    method PutPart(v: nat, n: nat)
      requires Valid() && v < Pow2(n) && bitPos + n <= 8 && Size() + n <= 8 * buf.Length
      modifies this, buf
      ensures Valid() && Contents() == old(Contents()) + PutBits(n, v, [])
      ensures Size() == old(Size()) + n
    {
      hide Pow2, PutBits, Or, Shifted, AllBits;
      MergeBuffer(top, bitPos, n, v);
      JoinBits(bitPos, top, n, v);
      ghost var before := buf[..pos];
      bitBuf := Or(bitBuf, v * Pow2(8 - bitPos - n));
      top := Shifted(top, n, v);
      bitPos := bitPos + n;
      if bitPos == 8 {
        OneAndZero();
        assert bitBuf == top < 256 by { Pow2Values(); }
        ByteIsItsBits(bitBuf);
        AllBitsAppend(before, bitBuf);
        buf[pos] := bitBuf;
        pos := pos + 1;
        assert buf[..pos] == before + [bitBuf];
        bitBuf := 0;
        bitPos := 0;
        top := 0;
        assert PutBits(0, 0, []) == [] by { NoBits(); }
      }
    }

    /** The low bits of a value, split over as many bytes as they touch. */
    method Write(val: nat, nbits: nat)
      requires Valid() && nbits <= 32 && Size() + nbits <= 8 * buf.Length
      modifies this, buf
      ensures Valid() && Contents() == old(Contents()) + PutBits(nbits, Low(val, nbits), [])
      ensures Size() == old(Size()) + nbits
    {
      hide Pow2, PutBits, AllBits, Contents, Low, High;
      ghost var start, whole := Contents(), PutBits(nbits, Low(val, nbits), []);
      var left: nat, rest: nat := nbits, Low(val, nbits);
      while left > 0
        invariant Valid() && Size() + left == old(Size()) + nbits && left <= nbits
        invariant rest < Pow2(left)
        invariant Contents() + PutBits(left, rest, []) == start + whole
        decreases left
      {
        var space: nat := 8 - bitPos;
        if left <= space {
          PutPart(rest, left);
          return;
        }
        var shift: nat := left - space;
        SplitField(left, rest, space);
        Regroup(Contents(), PutBits(space, High(rest, shift), []), PutBits(shift, Low(rest, shift), []));
        PutPart(High(rest, shift), space);
        rest, left := Low(rest, shift), shift;
      }
      NothingLeft(rest);
    }

    /** Stores the last, partial byte; its low bits are zero. */
    method Flush() returns (n: nat)
      requires Valid() && (bitPos > 0 ==> pos < buf.Length)
      modifies this, buf
      ensures n <= buf.Length && 8 * n == old(Size()) + |Padding(old(bitPos))|
      ensures AllBits(buf[..n]) == old(Contents()) + Padding(old(bitPos))
    {
      hide Pow2, PutBits, AllBits;
      ghost var before := buf[..pos];
      if bitPos > 0 {
        PartialByte(bitPos, top);
        AllBitsAppend(before, bitBuf);
        buf[pos] := bitBuf;
        pos := pos + 1;
        assert buf[..pos] == before + [buf[pos - 1]];
      } else {
        assert top == 0 by { OneAndZero(); }
        NoBits();
      }
      n := pos;
    }
  }

  function High(v: nat, n: nat): nat {
    DivisionFacts(v, Pow2(n));
    v / Pow2(n)
  }

  lemma DivisionFacts(v: nat, p: nat)
    requires p > 0
    ensures v / p >= 0
    ensures v < p ==> v % p == v
  {
    var q := v / p;
    assert v == p * q + v % p;
    if q > 0 && v < p {
      LessTimes(1, q, p);
    }
  }

  function Low(v: nat, n: nat): (r: nat)
    ensures r < Pow2(n)
  {
    v % Pow2(n)
  }

  lemma Regroup(a: seq<bit>, b: seq<bit>, c: seq<bit>)
    ensures a + (b + c) == (a + b) + c
  {}

  lemma NothingLeft(v: nat)
    requires v < Pow2(0)
    ensures PutBits(0, v, []) == []
  {}

  lemma OneAndZero()
    ensures Pow2(0) == 1
  {}

  lemma NoBits()
    ensures PutBits(0, 0, []) == []
  {}

  lemma SplitField(n: nat, v: nat, high: nat)
    requires v < Pow2(n) && 0 < high <= n
    ensures var low := n - high;
      && High(v, low) < Pow2(high)
      && PutBits(n, v, []) == PutBits(high, High(v, low), []) + PutBits(low, Low(v, low), [])
  {
    hide Pow2, PutBits;
    var low := n - high;
    Pow2Add(high, low);
    assert high + low == n;
    QuotientBound(v, Pow2(high), Pow2(low));
    JoinBits(high, v / Pow2(low), low, v % Pow2(low));
  }

  lemma QuotientBound(v: nat, a: nat, b: nat)
    requires b > 0 && v < a * b
    ensures v / b < a && v == v / b * b + v % b
  {
    if v / b >= a {
      LessTimes(a, v / b, b);
    }
  }

  lemma PartialByte(used: nat, top: nat)
    requires 0 < used < 8 && top < Pow2(used)
    ensures top * Pow2(8 - used) < 256
    ensures AllBits([top * Pow2(8 - used)]) == PutBits(used, top, []) + Padding(used)
  {
    hide Pow2, PutBits, AllBits;
    var b := top * Pow2(8 - used);
    JoinBits(used, top, 8 - used, 0);
    assert used + (8 - used) == 8;
    Pow2Values();
    ByteIsItsBits(b);
    ZeroField(8 - used);
  }

  // ---------- the frame ----------

  type Sample = x: int | -0x8000 <= x < 0x8000

  function Unsigned16(s: Sample): (r: nat)
    ensures r < 0x1_0000
  {
    s % 0x1_0000
  }

  function Signed16(n: nat): (s: int) {
    if n < 0x8000 then n else n - 0x1_0000
  }

  function SampleFields(pcm: seq<Sample>): seq<Field> {
    if pcm == [] then [] else [Field(16, Unsigned16(pcm[0]))] + SampleFields(pcm[1..])
  }

  /** Element type, instance tag, unused, has-size, extra bytes, verbatim, sample count. */
  function HeaderFields(frameSize: nat, channels: nat): (h: seq<Field>)
    ensures |h| == 7
  {
    [Field(3, if channels == 2 then 1 else 0), Field(4, 0), Field(12, 0), Field(1, 1), Field(2, 0), Field(1, 1),
     Field(32, frameSize % 0x1_0000_0000)]
  }

  function FirstSamples(pcm: seq<Sample>, frameSize: nat, channels: nat): seq<Sample> {
    var n := frameSize * channels;
    if |pcm| < n then pcm else pcm[..n]
  }

  /** Everything the encoder writes. */
  function FrameFields(pcm: seq<Sample>, frameSize: nat, channels: nat): seq<Field> {
    HeaderFields(frameSize, channels) + SampleFields(FirstSamples(pcm, frameSize, channels)) + [Field(3, 7)]
  }

  lemma {:induction false} SampleFieldsValid(pcm: seq<Sample>)
    ensures ValidFields(SampleFields(pcm)) && |SampleFields(pcm)| == |pcm|
    ensures forall i | 0 <= i < |pcm| :: SampleFields(pcm)[i] == Field(16, Unsigned16(pcm[i]))
    decreases |pcm|
  {
    hide Pow2;
    Pow2Values();
    if pcm != [] {
      SampleFieldsValid(pcm[1..]);
    }
  }

  lemma HeaderValid(frameSize: nat, channels: nat)
    ensures ValidFields(HeaderFields(frameSize, channels)) && ValidFields([Field(3, 7)])
  {
    Pow2Values();
    SmallPowers();
    Pow2Add(8, 4);
  }

  lemma FrameValid(pcm: seq<Sample>, frameSize: nat, channels: nat)
    ensures ValidFields(FrameFields(pcm, frameSize, channels))
  {
    hide HeaderFields, ValidField;
    HeaderValid(frameSize, channels);
    SampleFieldsValid(FirstSamples(pcm, frameSize, channels));
  }

  function TotalWidth(fields: seq<Field>): nat {
    if fields == [] then 0 else fields[0].width + TotalWidth(fields[1..])
  }

  lemma {:induction false} TotalWidthAppend(a: seq<Field>, b: seq<Field>)
    ensures TotalWidth(a + b) == TotalWidth(a) + TotalWidth(b)
    decreases |a|
  {
    if a == [] {
      assert a + b == b;
    } else {
      TotalWidthAppend(a[1..], b);
      assert (a + b)[1..] == a[1..] + b;
    }
  }

  lemma {:induction false} SamplesWidth(pcm: seq<Sample>)
    ensures TotalWidth(SampleFields(pcm)) == 16 * |pcm|
    decreases |pcm|
  {
    if pcm != [] {
      SamplesWidth(pcm[1..]);
      assert SampleFields(pcm)[1..] == SampleFields(pcm[1..]);
    }
  }

  lemma FrameWidth(pcm: seq<Sample>, frameSize: nat, channels: nat)
    ensures TotalWidth(HeaderFields(frameSize, channels)) == 55
    ensures TotalWidth(FrameFields(pcm, frameSize, channels)) == 55 + 16 * |FirstSamples(pcm, frameSize, channels)| + 3
    ensures 16 * |FirstSamples(pcm, frameSize, channels)| <= frameSize * channels * 16
  {
    var header, samples := HeaderFields(frameSize, channels), SampleFields(FirstSamples(pcm, frameSize, channels));
    HeaderWidth(frameSize, channels);
    SamplesWidth(FirstSamples(pcm, frameSize, channels));
    TotalWidthAppend(header + samples, [Field(3, 7)]);
    TotalWidthAppend(header, samples);
    assert TotalWidth([Field(3, 7)]) == 3 + TotalWidth([]);
  }

  lemma WidthFrom(h: seq<Field>, k: nat)
    requires k < |h|
    ensures TotalWidth(h[k..]) == h[k].width + TotalWidth(h[k + 1..])
  {
    assert h[k..][1..] == h[k + 1..];
  }

  lemma HeaderWidth(frameSize: nat, channels: nat)
    ensures TotalWidth(HeaderFields(frameSize, channels)) == 55
  {
    hide TotalWidth;
    var h := HeaderFields(frameSize, channels);
    WidthFrom(h, 0);
    WidthFrom(h, 1);
    WidthFrom(h, 2);
    WidthFrom(h, 3);
    WidthFrom(h, 4);
    WidthFrom(h, 5);
    WidthFrom(h, 6);
    assert h[0..] == h && h[7..] == [];
    NoFields();
  }

  /** The bits of the fields so far, after one more. */
  lemma OneMoreField(fields: seq<Field>, k: nat)
    requires ValidFields(fields) && k < |fields|
    ensures ValidFields(fields[..k]) && ValidFields(fields[..k + 1]) && ValidField(fields[k])
    ensures PutFields(fields[..k + 1], []) == PutFields(fields[..k], []) + PutBits(fields[k].width, fields[k].value, [])
    ensures TotalWidth(fields[..k + 1]) == TotalWidth(fields[..k]) + fields[k].width
  {
    hide PutBits, Pow2;
    var f := fields[k];
    assert ValidField(f);
    assert fields[..k + 1] == fields[..k] + [f];
    PutFieldsThen(fields[..k], [f], []);
    assert PutFields([f], []) == PutBits(f.width, f.value, PutFields([], []));
    PutFieldsPrefix(fields[..k], PutBits(f.width, f.value, []));
    TotalWidthAppend(fields[..k], [f]);
    assert TotalWidth([f]) == f.width + TotalWidth([]);
  }

  lemma {:induction false} PrefixWidth(fields: seq<Field>, k: nat)
    requires k <= |fields|
    ensures TotalWidth(fields[..k]) <= TotalWidth(fields)
  {
    TotalWidthAppend(fields[..k], fields[k..]);
    assert fields[..k] + fields[k..] == fields;
  }

  method WriteField(bw: BitWriter, ghost fields: seq<Field>, ghost k: nat, width: nat, value: nat)
    requires bw.Valid() && ValidFields(fields) && k < |fields| && fields[k].width == width && fields[k].value == value
    requires ValidFields(fields[..k]) && bw.Contents() == PutFields(fields[..k], []) && bw.Size() == TotalWidth(fields[..k])
    requires TotalWidth(fields) <= 8 * bw.buf.Length
    modifies bw, bw.buf
    ensures bw.Valid() && ValidFields(fields[..k + 1])
    ensures bw.Contents() == PutFields(fields[..k + 1], []) && bw.Size() == TotalWidth(fields[..k + 1])
  {
    hide PutBits, Pow2, AllBits, BitWriter.Contents;
    OneMoreField(fields, k);
    PrefixWidth(fields, k + 1);
    assert Low(value, width) == value by { LowOfSmall(value, width); }
    bw.Write(value, width);
  }

  lemma LowOfSmall(v: nat, n: nat)
    requires v < Pow2(n)
    ensures Low(v, n) == v
  {
    hide Pow2;
    DivisionFacts(v, Pow2(n));
  }

  /** The frame's bits, padded with zeros to whole bytes; the buffer is never overrun. */
  method EncodeAlacVerbatim(pcm: seq<Sample>, frameSize: nat, channels: nat) returns (frame: seq<byte>)
    ensures ValidFields(FrameFields(pcm, frameSize, channels))
    ensures exists pad: nat ::
      pad < 8 && AllBits(frame) == PutFields(FrameFields(pcm, frameSize, channels), []) + PutZeroBits(pad)
  {
    hide PutBits, Pow2, AllBits, PutFields, HeaderFields, SampleFields, BitWriter.Contents;
    ghost var fields, header := FrameFields(pcm, frameSize, channels), HeaderFields(frameSize, channels);
    var samples := FirstSamples(pcm, frameSize, channels);
    FrameValid(pcm, frameSize, channels);
    FrameWidth(pcm, frameSize, channels);
    SampleFieldsValid(samples);
    var maxBits := 23 + 32 + frameSize * channels * 16 + 3;
    var out := new byte[maxBits / 8 + 1](_ => 0);
    assert 8 * out.Length >= maxBits + 1;
    var bw := new BitWriter(out);
    NoFields();
    assert fields[..0] == [];
    WriteHeader(bw, fields, frameSize, channels);
    for i := 0 to |samples|
      invariant bw.Valid() && ValidFields(fields[..7 + i])
      invariant bw.Contents() == PutFields(fields[..7 + i], []) && bw.Size() == TotalWidth(fields[..7 + i])
    {
      assert fields[7 + i] == SampleFields(samples)[i];
      WriteField(bw, fields, 7 + i, 16, Unsigned16(samples[i]));
    }
    assert fields[7 + |samples|] == Field(3, 7);
    WriteField(bw, fields, 7 + |samples|, 3, 7);
    assert fields[..7 + |samples| + 1] == fields;
    ghost var used := bw.bitPos;
    assert bw.pos < out.Length;
    var n := bw.Flush();
    frame := out[..n];
    assert AllBits(frame) == PutFields(fields, []) + PutZeroBits(if used == 0 then 0 else 8 - used);
  }

  lemma NoFields()
    ensures ValidFields([]) && PutFields([], []) == [] && TotalWidth([]) == 0
  {}

  method WriteHeader(bw: BitWriter, ghost fields: seq<Field>, frameSize: nat, channels: nat)
    requires bw.Valid() && ValidFields(fields) && |fields| >= 7 && fields[..7] == HeaderFields(frameSize, channels)
    requires bw.Contents() == PutFields([], []) && bw.Size() == 0
    requires TotalWidth(fields) <= 8 * bw.buf.Length
    modifies bw, bw.buf
    ensures bw.Valid() && ValidFields(fields[..7])
    ensures bw.Contents() == PutFields(fields[..7], []) && bw.Size() == TotalWidth(fields[..7])
  {
    hide PutBits, Pow2, AllBits, PutFields, TotalWidth, BitWriter.Contents, ValidFields;
    NoFields();
    assert fields[..0] == [];
    assert forall i: nat | i < 7 :: fields[i] == fields[..7][i];
    WriteField(bw, fields, 0, 3, if channels == 2 then 1 else 0);
    WriteField(bw, fields, 1, 4, 0);
    WriteField(bw, fields, 2, 12, 0);
    WriteField(bw, fields, 3, 1, 1);
    WriteField(bw, fields, 4, 2, 0);
    WriteField(bw, fields, 5, 1, 1);
    WriteField(bw, fields, 6, 32, frameSize % 0x1_0000_0000);
  }

  // ---------- decoding ----------

  datatype Decoded = Decoded(channels: nat, samples: seq<int>)

  function TakeSamples(n: nat, bits: seq<bit>): Option<(seq<int>, seq<bit>)>
    decreases n
  {
    if n == 0 then Some(([], bits))
    else
      var (v, rest) :- TakeBits(16, 0, bits);
      var (samples, rest') :- TakeSamples(n - 1, rest);
      Some(([Signed16(v)] + samples, rest'))
  }

  function ChannelsOf(tag: nat): nat {
    if tag == 1 then 2 else 1
  }

  function Decode(bits: seq<bit>): Option<Decoded> {
    var (header, b1) :- TakeFields([3, 4, 12, 1, 2, 1, 32], bits);
    var channels := ChannelsOf(header[0]);
    var (samples, b2) :- TakeSamples(header[6] * channels, b1);
    var (tag, _) :- TakeBits(3, 0, b2);
    if tag == 7 then Some(Decoded(channels, samples)) else None
  }

  lemma {:induction false} FieldsAt(fields: seq<Field>)
    ensures |Widths(fields)| == |FieldValues(fields)| == |fields|
    ensures forall i | 0 <= i < |fields| :: Widths(fields)[i] == fields[i].width && FieldValues(fields)[i] == fields[i].value
    decreases |fields|
  {
    if fields != [] {
      FieldsAt(fields[1..]);
    }
  }

  lemma HeaderWidths(frameSize: nat, channels: nat)
    ensures Widths(HeaderFields(frameSize, channels)) == [3, 4, 12, 1, 2, 1, 32]
    ensures FieldValues(HeaderFields(frameSize, channels))
      == [if channels == 2 then 1 else 0, 0, 0, 1, 0, 1, frameSize % 0x1_0000_0000]
  {
    FieldsAt(HeaderFields(frameSize, channels));
  }

  lemma {:induction false} TakeBitsShort(n: nat, acc: nat, bits: seq<bit>)
    requires |bits| < n
    ensures TakeBits(n, acc, bits) == None
    decreases n
  {
    if bits != [] {
      TakeBitsShort(n - 1, 2 * acc + bits[0], bits[1..]);
    }
  }

  lemma SignRoundTrip(s: Sample)
    ensures Signed16(Unsigned16(s)) == s
  {}

  /** The decoder finds the samples that are there; one sample too few and it runs out of bits. */
  lemma {:induction false} SamplesRoundTrip(pcm: seq<Sample>, n: nat, rest: seq<bit>)
    requires |pcm| <= n && (|pcm| < n ==> |rest| < 16)
    ensures ValidFields(SampleFields(pcm))
    ensures TakeSamples(n, PutFields(SampleFields(pcm), rest)) == if |pcm| == n then Some((pcm, rest)) else None
    decreases n
  {
    hide PutBits, TakeBits, Pow2;
    SampleFieldsValid(pcm);
    if pcm != [] {
      var fields := SampleFields(pcm);
      assert ValidField(fields[0]) && fields[1..] == SampleFields(pcm[1..]);
      TakePutBits(16, Unsigned16(pcm[0]), PutFields(fields[1..], rest));
      SignRoundTrip(pcm[0]);
      SamplesRoundTrip(pcm[1..], n - 1, rest);
      assert [pcm[0]] + pcm[1..] == pcm;
      assert TakeBits(16, 0, PutFields(fields, rest)) == Some((Unsigned16(pcm[0]), PutFields(fields[1..], rest)));
    } else if n > 0 {
      TakeBitsShort(16, 0, rest);
    }
  }

  function EndBits(pad: nat): (bits: seq<bit>)
    ensures |bits| == 3 + pad
  {
    SmallPowers();
    PutBitsSize(3, 7, PutZeroBits(pad));
    PutBits(3, 7, PutZeroBits(pad))
  }

  lemma EndIsTaken(pad: nat)
    ensures TakeBits(3, 0, EndBits(pad)) == Some((7, PutZeroBits(pad)))
  {
    hide PutBits, TakeBits;
    SmallPowers();
    TakePutBits(3, 7, PutZeroBits(pad));
  }

  /** The frame's bits are its header, its samples and its end, one inside the other. */
  lemma FrameNests(pcm: seq<Sample>, frameSize: nat, channels: nat, pad: nat)
    ensures ValidFields(FrameFields(pcm, frameSize, channels))
    ensures ValidFields(HeaderFields(frameSize, channels)) && ValidFields(SampleFields(FirstSamples(pcm, frameSize, channels)))
    ensures PutFields(FrameFields(pcm, frameSize, channels), []) + PutZeroBits(pad)
      == PutFields(HeaderFields(frameSize, channels), PutFields(SampleFields(FirstSamples(pcm, frameSize, channels)), EndBits(pad)))
  {
    hide PutBits, HeaderFields, SampleFields, FirstSamples, Pow2;
    var header, samples, end := HeaderFields(frameSize, channels), SampleFields(FirstSamples(pcm, frameSize, channels)), [Field(3, 7)];
    var zeros := PutZeroBits(pad);
    HeaderValid(frameSize, channels);
    SampleFieldsValid(FirstSamples(pcm, frameSize, channels));
    FrameValid(pcm, frameSize, channels);
    PutFieldsPrefix(header + samples + end, zeros);
    PutFieldsThen(header, samples, []);
    PutFieldsThen(header + samples, end, zeros);
    PutFieldsThen(header, samples, PutFields(end, zeros));
    assert PutFields(end, zeros) == EndBits(pad) by { EndField(pad); }
  }

  lemma EndField(pad: nat)
    ensures ValidFields([Field(3, 7)])
    ensures PutFields([Field(3, 7)], PutZeroBits(pad)) == EndBits(pad)
  {
    hide PutBits;
    SmallPowers();
    var end, zeros := [Field(3, 7)], PutZeroBits(pad);
    assert ValidField(Field(3, 7));
    assert PutFields(end, zeros) == PutBits(end[0].width, end[0].value, PutFields(end[1..], zeros));
  }

  /** The encoded frame decodes to its channel count and every sample when enough PCM was given, and to
      nothing otherwise. */
  lemma FrameRoundTrip(pcm: seq<Sample>, frameSize: nat, channels: nat, pad: nat)
    requires channels in {1, 2} && frameSize < 0x1_0000_0000 && pad < 8
    ensures ValidFields(FrameFields(pcm, frameSize, channels))
    ensures var n := frameSize * channels;
      Decode(PutFields(FrameFields(pcm, frameSize, channels), []) + PutZeroBits(pad))
      == if |pcm| >= n then Some(Decoded(channels, pcm[..n])) else None
  {
    hide HeaderFields, SampleFields, PutFields, TakeFields, TakeSamples, TakeBits, EndBits, PutZeroBits;
    var samples := FirstSamples(pcm, frameSize, channels);
    var b1 := PutFields(SampleFields(samples), EndBits(pad)) by { SampleFieldsValid(samples); }
    FrameNests(pcm, frameSize, channels, pad);
    FieldsRoundTrip(HeaderFields(frameSize, channels), b1);
    HeaderWidths(frameSize, channels);
    var n := frameSize * channels;
    SamplesRoundTrip(samples, n, EndBits(pad));
    EndIsTaken(pad);
    assert frameSize % 0x1_0000_0000 == frameSize;
  }
}
