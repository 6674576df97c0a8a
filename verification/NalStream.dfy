/** From raw byte sequence payloads to a byte stream and back: emulation prevention (section 7.4.1 of
    ITU-T H.264), start codes (Annex B), and the length-prefixed form. */
module NalStream {
  import opened Bytes
  import opened AnnexB

  // ---------- emulation prevention ----------

  function NextZeros(zeros: nat, b: byte): nat {
    if b == 0 then zeros + 1 else 0
  }

  /** The encoder's side: a 03 goes before any byte up to 03 that follows two zeros. */
  function Escape(zeros: nat, s: seq<byte>): seq<byte>
    requires zeros <= 2
    decreases |s|
  {
    if s == [] then []
    else if zeros == 2 && s[0] <= 3 then [3, s[0]] + Escape(NextZeros(0, s[0]), s[1..])
    else [s[0]] + Escape(NextZeros(zeros, s[0]), s[1..])
  }

  function Strip(zeros: nat, b: seq<byte>): seq<byte>
    decreases |b|
  {
    if b == [] then []
    else if zeros >= 2 && b[0] == 3 && |b| > 1 && b[1] <= 3 then Strip(0, b[1..])
    else [b[0]] + Strip(NextZeros(zeros, b[0]), b[1..])
  }

  method StripEmulationPrevention(b: seq<byte>) returns (out: seq<byte>)
    ensures out == Strip(0, b)
  {
    out := [];
    var zeros := 0;
    var i := 0;
    while i < |b|
      invariant 0 <= i <= |b| && zeros >= 0
      invariant Strip(0, b) == out + Strip(zeros, b[i..])
    {
      assert b[i..][1..] == b[i + 1..];
      if zeros >= 2 && b[i] == 3 && i + 1 < |b| && b[i + 1] <= 3 {
        zeros := 0;
        i := i + 1;
        continue;
      }
      if b[i] == 0 {
        zeros := zeros + 1;
      } else {
        zeros := 0;
      }
      out := out + [b[i]];
      i := i + 1;
    }
  }

  /** Every payload survives, whatever its last byte. */
  lemma {:induction false} StripUndoesEscape(zeros: nat, s: seq<byte>)
    requires zeros <= 2
    ensures Strip(zeros, Escape(zeros, s)) == s
    decreases |s|
  {
    if s != [] {
      var escaped := Escape(zeros, s);
      if zeros == 2 && s[0] <= 3 {
        var rest := Escape(NextZeros(0, s[0]), s[1..]);
        assert escaped[1..] == [s[0]] + rest;
        assert ([s[0]] + rest)[1..] == rest;
        StripUndoesEscape(NextZeros(0, s[0]), s[1..]);
      } else {
        assert escaped[1..] == Escape(NextZeros(zeros, s[0]), s[1..]);
        StripUndoesEscape(NextZeros(zeros, s[0]), s[1..]);
      }
    }
  }

  /** After that many zeros, no byte up to 02 ever follows two zeros. */
  predicate Sparse(zeros: nat, b: seq<byte>)
    decreases |b|
  {
    b == [] || (!(zeros >= 2 && b[0] <= 2) && Sparse(NextZeros(zeros, b[0]), b[1..]))
  }

  predicate NoTriple(b: seq<byte>) {
    forall i: nat | i + 2 < |b| :: !(b[i] == 0 && b[i + 1] == 0 && b[i + 2] <= 2)
  }

  lemma {:induction false} EscapedIsSparse(zeros: nat, s: seq<byte>)
    requires zeros <= 2
    ensures Sparse(zeros, Escape(zeros, s))
    decreases |s|
  {
    if s != [] {
      var escaped := Escape(zeros, s);
      if zeros == 2 && s[0] <= 3 {
        EscapedIsSparse(NextZeros(0, s[0]), s[1..]);
        var tail := escaped[1..];
        assert tail[1..] == Escape(NextZeros(0, s[0]), s[1..]);
        assert Sparse(0, tail);
      } else {
        EscapedIsSparse(NextZeros(zeros, s[0]), s[1..]);
        assert escaped[1..] == Escape(NextZeros(zeros, s[0]), s[1..]);
      }
    }
  }

  lemma {:induction false} SparseHasNoTriple(zeros: nat, b: seq<byte>)
    requires Sparse(zeros, b)
    ensures NoTriple(b)
    ensures zeros >= 1 && |b| >= 2 ==> !(b[0] == 0 && b[1] <= 2)
    decreases |b|
  {
    if b != [] {
      var tail := b[1..];
      SparseHasNoTriple(NextZeros(zeros, b[0]), tail);
      assert |b| >= 2 ==> b[1] == tail[0];
      forall i: nat | i + 2 < |b|
        ensures !(b[i] == 0 && b[i + 1] == 0 && b[i + 2] <= 2)
      {
        assert b[i + 1] == tail[i] && b[i + 2] == tail[i + 1];
        assert i > 0 ==> b[i] == tail[i - 1];
      }
    }
  }

  /** Escaped data never contains a start code. */
  lemma EscapedHasNoStart(s: seq<byte>, i: nat)
    ensures NoTriple(Escape(0, s)) && !StartsAt(Escape(0, s), i)
  {
    EscapedIsSparse(0, s);
    SparseHasNoTriple(0, Escape(0, s));
  }

  // ---------- printing a stream ----------

  /** A NAL unit: its one-byte header and its payload, with the kind of start code it is sent with. */
  datatype Nal = Nal(header: byte, payload: seq<byte>, longCode: bool) {
    /** A zero header byte means the unspecified type 0; section 7.4.1 has every nonempty payload end
        in its stop bit. */
    predicate Valid() {
      header != 0 && (payload == [] || payload[|payload| - 1] != 0)
    }

    function Raw(): seq<byte> {
      [header] + Escape(0, payload)
    }

    function Code(): seq<byte> {
      if longCode then [0, 0, 0, 1] else [0, 0, 1]
    }

    function Unit(): seq<byte> {
      Code() + Raw()
    }
  }

  function Printed(nals: seq<Nal>): Nals {
    if nals == [] then [] else [nals[0].Unit()] + Printed(nals[1..])
  }

  function StripStartCode(nal: seq<byte>): seq<byte> {
    if |nal| > 4 && nal[..4] == [0, 0, 0, 1] then nal[4..]
    else if |nal| > 3 && nal[..3] == [0, 0, 1] then nal[3..]
    else nal
  }

  /** Removing the start code and the header and undoing the escape gives the payload back. */
  lemma UnitRoundTrip(n: Nal)
    ensures StripStartCode(n.Unit()) == n.Raw()
    ensures Strip(0, n.Raw()[1..]) == n.payload
  {
    StripUndoesEscape(0, n.payload);
    assert n.Raw()[1..] == Escape(0, n.payload);
    var unit := n.Unit();
    if n.longCode {
      assert unit[..4] == [0, 0, 0, 1];
    } else {
      assert unit[2] == 1;
      assert unit[..3] == [0, 0, 1];
      assert |unit| > 4 ==> unit[..4][2] == 1;
    }
  }

  lemma {:induction false} EscapeEnd(zeros: nat, s: seq<byte>)
    requires zeros <= 2 && s != []
    ensures Escape(zeros, s) != []
    ensures Escape(zeros, s)[|Escape(zeros, s)| - 1] == s[|s| - 1]
    decreases |s|
  {
    if |s| > 1 {
      EscapeEnd(if zeros == 2 && s[0] <= 3 then NextZeros(0, s[0]) else NextZeros(zeros, s[0]), s[1..]);
    }
  }

  lemma RawShape(n: Nal)
    requires n.Valid()
    ensures var raw := n.Raw(); NoTriple(raw) && raw[|raw| - 1] != 0
  {
    var raw, escaped := n.Raw(), Escape(0, n.payload);
    EscapedIsSparse(0, n.payload);
    assert raw[1..] == escaped;
    assert Sparse(0, raw);
    SparseHasNoTriple(0, raw);
    if n.payload != [] {
      EscapeEnd(0, n.payload);
    }
  }

  /** In a unit followed by anything, no start code begins after the unit's own. */
  lemma UnitHasOneStart(n: Nal, rest: seq<byte>, i: nat)
    requires n.Valid() && 3 <= i < |n.Unit()|
    ensures !StartsAt(n.Unit() + rest, i)
  {
    hide Escape;
    var unit, raw, data, k := n.Unit(), n.Raw(), n.Unit() + rest, |n.Code()|;
    RawShape(n);
    if i >= k {
      var j := i - k;
      assert data[i] == raw[j];
      if j + 2 < |raw| {
        assert data[i + 1] == raw[j + 1] && data[i + 2] == raw[j + 2];
      } else if j + 1 < |raw| {
        assert data[i + 1] == raw[j + 1];
      }
    }
  }

  lemma UnitStarts(n: Nal, rest: seq<byte>)
    requires n.Valid()
    ensures |n.Unit()| >= 4 && StartsAt(n.Unit() + rest, 0)
  {
    hide Escape;
    var data := n.Unit() + rest;
    if n.longCode {
      assert data[0] == 0 && data[1] == 0 && data[2] == 0 && data[3] == 1;
    } else {
      assert data[0] == 0 && data[1] == 0 && data[2] == 1;
    }
  }

  ghost predicate AllValid(nals: seq<Nal>) {
    forall n | n in nals :: n.Valid()
  }

  /** The batch splitter recovers every printed list. */
  lemma {:induction false} BatchRoundTrip(nals: seq<Nal>)
    requires AllValid(nals)
    ensures Units(Concat(Printed(nals))) == Printed(nals)
    ensures nals != [] ==> StartsAt(Concat(Printed(nals)), 0)
  {
    hide Nal.Unit, Nal.Raw, StartsAt, FirstStart, Units;
    var data := Concat(Printed(nals));
    if nals == [] {
      FirstStartNone(data, 0);
      UnitsOfNothing(data);
    } else {
      var unit, rest := nals[0].Unit(), Concat(Printed(nals[1..]));
      assert data == unit + rest;
      BatchRoundTrip(nals[1..]);
      UnitStarts(nals[0], rest);
      forall i: nat | 3 <= i < |unit|
        ensures !StartsAt(data, i)
      {
        UnitHasOneStart(nals[0], rest, i);
      }
      assert data[0..] == data && data[..|unit|] == unit && data[|unit|..] == rest;
      if nals[1..] == [] {
        assert rest == [];
        assert data == unit;
        FirstStartNone(data, 3);
      } else {
        DropStart(data, |unit|, 0);
        FirstStartIs(data, 3, |unit|);
      }
      UnitsFrom(data, 0);
    }
  }

  lemma UnitEndsCleanly(n: Nal)
    requires n.Valid()
    ensures |n.Unit()| >= 4 && CleanEnd(n.Unit())
  {
    hide Escape;
    RawShape(n);
    var unit, raw := n.Unit(), n.Raw();
    UnitStarts(n, []);
    var k, m := |unit|, |raw|;
    assert unit[k - 1] == raw[m - 1];
    assert unit[k - 3..] == [unit[k - 3], unit[k - 2], unit[k - 1]];
    if m >= 3 {
      assert unit[k - 3] == raw[m - 3] && unit[k - 2] == raw[m - 2];
    }
  }

  lemma {:induction false} StreamEndsCleanly(nals: seq<Nal>)
    requires AllValid(nals) && nals != []
    ensures var data := Concat(Printed(nals)); |data| >= 4 && CleanEnd(data)
  {
    hide Nal.Unit, Nal.Raw, CleanEnd;
    var data, unit := Concat(Printed(nals)), nals[0].Unit();
    assert data == unit + Concat(Printed(nals[1..]));
    if nals[1..] == [] {
      assert data == unit;
      UnitEndsCleanly(nals[0]);
    } else {
      StreamEndsCleanly(nals[1..]);
      var rest := Concat(Printed(nals[1..]));
      assert rest == data[|data| - |rest|..];
      SameEnd(data, rest);
    }
  }

  /** The incremental parser, fed a printed list in any pieces and flushed, returns exactly that list
      and keeps nothing. */
  lemma StreamRoundTrip(nals: seq<Nal>, chunks: seq<seq<byte>>)
    requires AllValid(nals) && Concat(chunks) == Concat(Printed(nals))
    ensures var (units, buf) := Pushes([], chunks);
      var (last, buf') := FlushStep(buf);
      units + last == Printed(nals) && buf' == []
  {
    hide Pushes, FlushStep, Units, CleanEnd, StartsAt, Nal.Unit;
    BatchRoundTrip(nals);
    if nals == [] {
      ChunkingIsInvisible([], chunks);
      ShortHasNoStart([]);
      FlushOfNothing();
    } else {
      StreamEndsCleanly(nals);
      FlushMatchesBatch(Concat(chunks), chunks);
    }
  }

  lemma FlushOfNothing()
    ensures FlushStep([]) == ([], [])
  {}

  predicate OneAfterZeros(nal: seq<byte>, i: nat) {
    2 <= i < |nal| && nal[i] == 1 && nal[i - 1] == 0 && nal[i - 2] == 0
  }

  /** The type field after the first 00 00 01 from i on, or 0. */
  function TypeFrom(nal: seq<byte>, i: nat): byte
    decreases |nal| - i
  {
    if i + 1 >= |nal| then 0
    else if OneAfterZeros(nal, i) then nal[i + 1] % 32
    else TypeFrom(nal, i + 1)
  }

  method NalType(nal: seq<byte>) returns (r: byte)
    ensures r == TypeFrom(nal, 0)
  {
    var i := 0;
    while i + 1 < |nal|
      invariant 0 <= i
      invariant TypeFrom(nal, 0) == TypeFrom(nal, i)
    {
      if nal[i] == 1 && i >= 2 && nal[i - 1] == 0 && nal[i - 2] == 0 {
        if i + 1 < |nal| {
          return nal[i + 1] % 32;
        }
      }
      i := i + 1;
    }
    r := 0;
  }

  /** The type scan stops at the unit's own start code. */
  lemma TypeOfUnit(n: Nal)
    ensures TypeFrom(n.Unit(), 0) == n.header % 32
  {
    hide Escape;
    var unit, k := n.Unit(), |n.Code()|;
    assert unit[..k] == n.Code();
    if n.longCode {
      assert unit[0] == 0 && unit[1] == 0 && unit[2] == 0 && unit[3] == 1;
      TypeSkips(unit, 3);
    } else {
      assert unit[0] == 0 && unit[1] == 0 && unit[2] == 1;
      TypeSkips(unit, 2);
    }
    assert unit[k] == n.Raw()[0];
  }

  lemma {:induction false} TypeSkips(nal: seq<byte>, i: nat)
    requires i + 1 < |nal| && forall j: nat | j < i :: !OneAfterZeros(nal, j)
    ensures TypeFrom(nal, 0) == TypeFrom(nal, i)
    decreases i
  {
    if i > 0 {
      TypeSkips(nal, i - 1);
    }
  }

  // ---------- the length-prefixed form ----------

  function ToBe32(n: nat): (b: seq<byte>)
    ensures |b| == 4
    ensures n < 0x1_0000_0000 ==> Be32(b) == n
  {
    [n / 256 / 256 / 256 % 256, n / 256 / 256 % 256, n / 256 % 256, n % 256]
  }

  /** The length wraps at 32 bits. */
  function AvccWrap(raw: seq<byte>): seq<byte> {
    ToBe32(|raw| % 0x1_0000_0000) + raw
  }

  function Wrapped(raws: seq<seq<byte>>): seq<seq<byte>> {
    if raws == [] then [] else [AvccWrap(raws[0])] + Wrapped(raws[1..])
  }

  function WithCodes(raws: seq<seq<byte>>): Nals {
    if raws == [] then [] else [[0, 0, 0, 1] + raws[0]] + WithCodes(raws[1..])
  }

  /** Every complete length field is possible. */
  predicate PossibleLengths(b: seq<byte>)
    decreases |b|
  {
    |b| < 4 ||
    (var length := Be32(b[..4]);
     1 <= length <= AVCC_LIMIT && (|b| < 4 + length || PossibleLengths(b[4 + length..])))
  }

  /** The length of the unit that b begins with, when all of it is there. */
  function WholeUnit(b: seq<byte>): Option<nat> {
    if |b| < 4 then None
    else
      var length := Be32(b[..4]);
      if 1 <= length <= AVCC_LIMIT && |b| >= 4 + length then Some(length) else None
  }

  lemma AvccWhole(b: seq<byte>)
    requires WholeUnit(b).Some?
    ensures var rest := b[4 + WholeUnit(b).value..];
      && ExtractAvcc(b) == ([[0, 0, 0, 1] + b[4..4 + WholeUnit(b).value]] + ExtractAvcc(rest).0, ExtractAvcc(rest).1)
      && PossibleLengths(b) == PossibleLengths(rest)
  {}

  lemma AvccPart(b: seq<byte>)
    requires WholeUnit(b).None? && PossibleLengths(b)
    ensures ExtractAvcc(b) == ([], b)
  {}

  lemma WholeUnitAppend(b: seq<byte>, c: seq<byte>)
    ensures WholeUnit(b).Some? ==> WholeUnit(b + c) == WholeUnit(b)
    ensures PossibleLengths(b + c) && WholeUnit(b).None? ==> PossibleLengths(b)
  {
    if |b| >= 4 {
      assert (b + c)[..4] == b[..4];
    }
  }

  lemma {:induction false} AvccAppend(b: seq<byte>, c: seq<byte>)
    requires PossibleLengths(b + c)
    ensures PossibleLengths(ExtractAvcc(b).1 + c)
    ensures ExtractAvcc(b + c).0 == ExtractAvcc(b).0 + ExtractAvcc(ExtractAvcc(b).1 + c).0
    ensures ExtractAvcc(b + c).1 == ExtractAvcc(ExtractAvcc(b).1 + c).1
    decreases |b|
  {
    hide ExtractAvcc, PossibleLengths;
    WholeUnitAppend(b, c);
    if WholeUnit(b).Some? {
      var length := WholeUnit(b).value;
      AvccWhole(b);
      AvccWhole(b + c);
      assert (b + c)[4 + length..] == b[4 + length..] + c;
      assert (b + c)[4..4 + length] == b[4..4 + length];
      AvccAppend(b[4 + length..], c);
    } else {
      AvccPart(b);
      NothingAdded(ExtractAvcc(b + c).0);
    }
  }

  function AvccPushes(buf: seq<byte>, chunks: seq<seq<byte>>): (Nals, seq<byte>)
    decreases |chunks|
  {
    if chunks == [] then ([], buf)
    else
      var (nals, buf1) := ExtractAvcc(buf + chunks[0]);
      var (more, buf2) := AvccPushes(buf1, chunks[1..]);
      (nals + more, buf2)
  }

  lemma {:induction false} AvccPushesExtract(buf: seq<byte>, chunks: seq<seq<byte>>)
    requires PossibleLengths(buf + Concat(chunks)) && ExtractAvcc(buf) == ([], buf)
    ensures AvccPushes(buf, chunks) == ExtractAvcc(buf + Concat(chunks))
    decreases |chunks|
  {
    hide ExtractAvcc, PossibleLengths;
    if chunks == [] {
      assert buf + Concat(chunks) == buf;
    } else {
      var b, rest := buf + chunks[0], chunks[1..];
      assert buf + Concat(chunks) == b + Concat(rest);
      AvccAppend(b, Concat(rest));
      ExtractAgain(b);
      AvccPushesExtract(ExtractAvcc(b).1, rest);
    }
  }

  lemma {:induction false} ExtractAgain(b: seq<byte>)
    ensures ExtractAvcc(ExtractAvcc(b).1) == ([], ExtractAvcc(b).1)
    decreases |b|
  {
    if |b| >= 4 {
      var length := Be32(b[..4]);
      if 1 <= length <= AVCC_LIMIT && |b| >= 4 + length {
        ExtractAgain(b[4 + length..]);
      }
    }
  }

  lemma {:induction false} WrappedExtract(raws: seq<seq<byte>>)
    requires forall r | r in raws :: 1 <= |r| <= AVCC_LIMIT
    ensures var data := Concat(Wrapped(raws));
      PossibleLengths(data) && ExtractAvcc(data) == (WithCodes(raws), [])
  {
    hide ToBe32;
    if raws != [] {
      var raw, rest := raws[0], Concat(Wrapped(raws[1..]));
      var data := Concat(Wrapped(raws));
      assert data == AvccWrap(raw) + rest;
      assert data[..4] == ToBe32(|raw|);
      assert data[4..4 + |raw|] == raw;
      assert data[4 + |raw|..] == rest;
      WrappedExtract(raws[1..]);
    }
  }

  /** Length-prefixed units, read in any pieces, come back whole, in order, each with a start code. */
  lemma AvccRoundTrip(raws: seq<seq<byte>>, chunks: seq<seq<byte>>)
    requires forall r | r in raws :: 1 <= |r| <= AVCC_LIMIT
    requires Concat(chunks) == Concat(Wrapped(raws))
    ensures AvccPushes([], chunks) == (WithCodes(raws), [])
  {
    WrappedExtract(raws);
    assert [] + Concat(chunks) == Concat(chunks);
    AvccPushesExtract([], chunks);
  }

  // ---------- the parser's choice between the two forms ----------

  /** No push finds a start code in what is then buffered. */
  predicate NoStartSeen(buf: seq<byte>, chunks: seq<seq<byte>>)
    decreases |chunks|
  {
    chunks == []
    || (FirstStart(buf + chunks[0], 0).None? && NoStartSeen(ExtractAvcc(buf + chunks[0]).1, chunks[1..]))
  }

  lemma {:induction false} PushesAreAvcc(buf: seq<byte>, chunks: seq<seq<byte>>)
    requires NoStartSeen(buf, chunks)
    ensures Pushes(buf, chunks) == AvccPushes(buf, chunks)
    decreases |chunks|
  {
    hide FirstStart, ExtractAvcc;
    if chunks != [] {
      PushesAreAvcc(ExtractAvcc(buf + chunks[0]).1, chunks[1..]);
    }
  }

  lemma {:induction false} RestStarts(b: seq<byte>)
    requires FirstStart(b, 0).Some?
    ensures StartsAt(Extract(b).1, 0)
    decreases |b|
  {
    hide FirstStart, StartsAt;
    FirstStartMeans(b, 0);
    var start := FirstStart(b, 0).value;
    DropStart(b, start, 0);
    FirstStartMeans(b, start + 3);
    if FirstStart(b, start + 3).Some? {
      var next := FirstStart(b, start + 3).value;
      DropStart(b, next, 0);
      FirstStartIs(b[next..], 0, 0);
      RestStarts(b[next..]);
    }
  }

  /** Once a start code is at the front, something is always buffered. */
  lemma {:induction false} StartStays(buf: seq<byte>, chunks: seq<seq<byte>>)
    requires StartsAt(buf, 0)
    ensures Pushes(buf, chunks).1 != []
    decreases |chunks|
  {
    hide FirstStart, StartsAt, Extract, ExtractAvcc;
    if chunks == [] {
      assert buf != [] by { StartHasBytes(buf); }
    } else {
      StartsAtAppend(buf, chunks[0], 0);
      FirstStartIs(buf + chunks[0], 0, 0);
      RestStarts(buf + chunks[0]);
      StartStays(Extract(buf + chunks[0]).1, chunks[1..]);
    }
  }

  lemma StartHasBytes(b: seq<byte>)
    ensures StartsAt(b, 0) ==> b != []
  {}

  lemma {:induction false} StartSeen(buf: seq<byte>, chunks: seq<seq<byte>>)
    requires !NoStartSeen(buf, chunks)
    ensures Pushes(buf, chunks).1 != []
    decreases |chunks|
  {
    hide FirstStart, StartsAt, Extract, ExtractAvcc;
    if FirstStart(buf + chunks[0], 0).Some? {
      RestStarts(buf + chunks[0]);
      StartStays(Extract(buf + chunks[0]).1, chunks[1..]);
    } else {
      StartSeen(ExtractAvcc(buf + chunks[0]).1, chunks[1..]);
    }
  }

  /** Pushed in any pieces, length-prefixed units come back whole and in order, and nothing is kept,
      exactly when no push finds a start code in the buffer. */
  lemma AvccPushed(raws: seq<seq<byte>>, chunks: seq<seq<byte>>)
    requires forall r | r in raws :: 1 <= |r| <= AVCC_LIMIT
    requires Concat(chunks) == Concat(Wrapped(raws))
    ensures Pushes([], chunks) == (WithCodes(raws), []) <==> NoStartSeen([], chunks)
  {
    hide Pushes, NoStartSeen, AvccPushes, Concat, Wrapped, WithCodes;
    if NoStartSeen([], chunks) {
      PushesAreAvcc([], chunks);
      AvccRoundTrip(raws, chunks);
    } else {
      StartSeen([], chunks);
    }
  }

  /** The end of a buffer that the length-prefixed reader keeps. */
  lemma {:induction false} KeptIsEnd(b: seq<byte>)
    ensures var r := ExtractAvcc(b).1; |r| <= |b| && r == b[|b| - |r|..]
    decreases |b|
  {
    if |b| >= 4 {
      var length := Be32(b[..4]);
      if 1 <= length <= AVCC_LIMIT && |b| >= 4 + length {
        KeptIsEnd(b[4 + length..]);
      }
    }
  }

  lemma {:induction false} NoStartAnywhere(before: seq<byte>, buf: seq<byte>, chunks: seq<seq<byte>>)
    requires var s := before + buf + Concat(chunks); NoStartIn(s, 0, |s|)
    ensures NoStartSeen(buf, chunks)
    decreases |chunks|
  {
    hide ExtractAvcc, FirstStart, StartsAt;
    if chunks != [] {
      var b, rest := buf + chunks[0], Concat(chunks[1..]);
      var s := before + buf + Concat(chunks);
      assert s == before + b + rest;
      forall i: nat | i < |b| - 3
        ensures !StartsAt(b, i)
      {
        InsideStarts(before, b, rest, i);
      }
      FirstStartNone(b, 0);
      KeptIsEnd(b);
      var r := ExtractAvcc(b).1;
      var gone := b[..|b| - |r|];
      assert b == gone + r;
      assert s == (before + gone) + r + rest;
      NoStartAnywhere(before + gone, r, chunks[1..]);
    }
  }

  lemma InsideStarts(a: seq<byte>, b: seq<byte>, c: seq<byte>, i: nat)
    requires i + 3 < |b|
    ensures StartsAt(a + b + c, |a| + i) == StartsAt(b, i)
  {}

  /** In particular when the units and their lengths together contain none. */
  lemma AvccPushedClean(raws: seq<seq<byte>>, chunks: seq<seq<byte>>)
    requires forall r | r in raws :: 1 <= |r| <= AVCC_LIMIT
    requires Concat(chunks) == Concat(Wrapped(raws))
    requires var s := Concat(Wrapped(raws)); NoStartIn(s, 0, |s|)
    ensures Pushes([], chunks) == (WithCodes(raws), [])
  {
    hide Pushes, NoStartSeen, Concat, Wrapped, WithCodes, StartsAt;
    assert [] + [] + Concat(chunks) == Concat(chunks);
    NoStartAnywhere([], [], chunks);
    AvccPushed(raws, chunks);
  }

  /** The limit: the length of a unit of 256 to 511 bytes looks like a start code, so such a unit, pushed
      whole, stays in the buffer. */
  lemma MiddleLengthsFail(raw: seq<byte>)
    requires 256 <= |raw| < 512
    ensures !NoStartSeen([], [AvccWrap(raw)])
    ensures Pushes([], [AvccWrap(raw)]) != (WithCodes([raw]), [])
  {
    hide FirstStart, Pushes, NoStartSeen;
    var b := AvccWrap(raw);
    var chunks := [b];
    assert b[..4] == ToBe32(|raw|);
    assert StartsAt(b, 0) && [] + b == b;
    FirstStartIs(b, 0, 0);
    SeenAtOnce(b);
    var raws := [raw];
    assert raws[1..] == [] && chunks[1..] == [];
    assert Wrapped(raws) == [b] + Wrapped([]) == [b];
    AvccPushed(raws, chunks);
  }

  lemma SeenAtOnce(b: seq<byte>)
    requires FirstStart([] + b, 0).Some?
    ensures !NoStartSeen([], [b])
  {
    hide FirstStart;
  }

  /** The prefix is the length, highest byte first. */
  lemma PrefixIsLength(raw: seq<byte>)
    requires |raw| < 0x1_0000_0000
    ensures var b := AvccWrap(raw);
      && b[4..] == raw
      && ((b[0] as int * 256 + b[1] as int) * 256 + b[2] as int) * 256 + b[3] as int == |raw|
  {}
}
