/** NAL units in a byte stream: the incremental Annex B parser, the batch splitter of the encoder
    crate, the AVCC reader, and emulation prevention. */
module AnnexB {
  import opened Bytes

  type Nals = seq<seq<byte>>

  const KEEP_LIMIT := 1024 * 1024
  const KEEP_TAIL := 128 * 1024
  const AVCC_LIMIT := 16 * 1024 * 1024
  const SENTINEL: seq<byte> := [0, 0, 1, 0]

  // ---------- start codes ----------

  /** A start code of three or four bytes.  Four bytes must be there in either case. */
  predicate StartsAt(b: seq<byte>, i: nat) {
    i + 3 < |b| && b[i] == 0 && b[i + 1] == 0 && (b[i + 2] == 1 || (b[i + 2] == 0 && b[i + 3] == 1))
  }

  predicate NoStartIn(b: seq<byte>, from: nat, to: int) {
    forall i: nat | from <= i < to :: !StartsAt(b, i)
  }

  function FirstStart(b: seq<byte>, from: nat): (r: Option<nat>)
    ensures r.Some? ==> from <= r.value && r.value + 3 < |b|
    decreases |b| - from
  {
    if from + 3 >= |b| then None
    else if StartsAt(b, from) then Some(from)
    else FirstStart(b, from + 1)
  }

  lemma {:induction false} FirstStartMeans(b: seq<byte>, from: nat)
    ensures var r := FirstStart(b, from);
      && (r.Some? ==> StartsAt(b, r.value) && NoStartIn(b, from, r.value))
      && (r.None? ==> NoStartIn(b, from, |b|))
    decreases |b| - from
  {
    if from + 3 < |b| && !StartsAt(b, from) {
      FirstStartMeans(b, from + 1);
    }
  }

  lemma {:induction false} FirstStartIs(b: seq<byte>, from: nat, at: nat)
    requires from <= at && StartsAt(b, at) && NoStartIn(b, from, at)
    ensures FirstStart(b, from) == Some(at)
    decreases at - from
  {
    if from < at {
      assert !StartsAt(b, from);
      FirstStartIs(b, from + 1, at);
    }
  }

  lemma {:induction false} FirstStartNone(b: seq<byte>, from: nat)
    requires NoStartIn(b, from, |b| - 3)
    ensures FirstStart(b, from) == None
    decreases |b| - from
  {
    if from + 3 < |b| {
      assert !StartsAt(b, from);
      FirstStartNone(b, from + 1);
    }
  }

  method FindStartCode(b: seq<byte>, from: nat) returns (r: Option<nat>)
    ensures r == FirstStart(b, from)
  {
    var i := from;
    while i + 3 < |b|
      invariant from <= i
      invariant FirstStart(b, from) == FirstStart(b, i)
    {
      if b[i] == 0 && b[i + 1] == 0 {
        if b[i + 2] == 1 {
          return Some(i);
        }
        if i + 3 < |b| && b[i + 2] == 0 && b[i + 3] == 1 {
          return Some(i);
        }
      }
      i := i + 1;
    }
    r := None;
  }

  // ---------- the incremental parser ----------

  /** The units closed by a following start code, and the bytes kept for later. */
  function Extract(buf: seq<byte>): (Nals, seq<byte>)
    decreases |buf|
  {
    match FirstStart(buf, 0)
    case None => ([], if |buf| > KEEP_LIMIT then buf[|buf| - KEEP_TAIL..] else buf)
    case Some(start) =>
      match FirstStart(buf, start + 3)
      case None => ([], buf[start..])
      case Some(next) =>
        var (nals, rest) := Extract(buf[next..]);
        ([buf[start..next]] + nals, rest)
  }

  function Be32(b: seq<byte>): nat
    requires |b| == 4
  {
    (((b[0] as int) * 256 + b[1]) * 256 + b[2]) * 256 + b[3]
  }

  /** Length-prefixed units, each given a start code; an impossible length drops everything. */
  function ExtractAvcc(buf: seq<byte>): (Nals, seq<byte>)
    decreases |buf|
  {
    if |buf| < 4 then ([], buf)
    else
      var length := Be32(buf[..4]);
      if length == 0 || length > AVCC_LIMIT then ([], [])
      else if |buf| < 4 + length then ([], buf)
      else
        var (nals, rest) := ExtractAvcc(buf[4 + length..]);
        ([[0, 0, 0, 1] + buf[4..4 + length]] + nals, rest)
  }

  function PushStep(buf: seq<byte>, data: seq<byte>): (Nals, seq<byte>) {
    if FirstStart(buf + data, 0).Some? then Extract(buf + data) else ExtractAvcc(buf + data)
  }

  function FlushStep(buf: seq<byte>): (Nals, seq<byte>) {
    if buf == [] then ([], [])
    else
      var (nals, rest) := Extract(buf + SENTINEL);
      (nals, if rest == SENTINEL then [] else rest)
  }

  function Pushes(buf: seq<byte>, chunks: seq<seq<byte>>): (Nals, seq<byte>)
    decreases |chunks|
  {
    if chunks == [] then ([], buf)
    else
      var (nals, buf1) := PushStep(buf, chunks[0]);
      var (more, buf2) := Pushes(buf1, chunks[1..]);
      (nals + more, buf2)
  }

  class H264Parser {
    var buf: seq<byte>

    constructor ()
      ensures buf == []
    {
      buf := [];
    }

    method Push(data: seq<byte>) returns (out: Nals)
      modifies this
      ensures (out, buf) == PushStep(old(buf), data)
    {
      buf := buf + data;
      var found := FindStartCode(buf, 0);
      if found.Some? {
        out := PushAnnexB();
      } else {
        out := PushAvcc();
      }
    }

    /** Closes the last unit with a sentinel start code and takes the sentinel out again. */
    method Flush() returns (out: Nals)
      modifies this
      ensures (out, buf) == FlushStep(old(buf))
    {
      if buf == [] {
        return [];
      }
      buf := buf + SENTINEL;
      out := PushAnnexB();
      if buf == SENTINEL {
        buf := [];
      }
    }

    method PushAnnexB() returns (out: Nals)
      modifies this
      ensures (out, buf) == Extract(old(buf))
    {
      out := [];
      while true
        invariant Extract(old(buf)).0 == out + Extract(buf).0
        invariant Extract(old(buf)).1 == Extract(buf).1
        decreases |buf|
      {
        hide FirstStart;
        NothingAdded(out);
        var found := FindStartCode(buf, 0);
        if found.None? {
          if |buf| > 1024 * 1024 {
            buf := buf[|buf| - 128 * 1024..];
          }
          return;
        }
        var start := found.value;
        var closing := FindStartCode(buf, start + 3);
        if closing.None? {
          buf := buf[start..];
          return;
        }
        var next := closing.value;
        out := out + [buf[start..next]];
        buf := buf[next..];
      }
    }

    method PushAvcc() returns (out: Nals)
      modifies this
      ensures (out, buf) == ExtractAvcc(old(buf))
    {
      out := [];
      while true
        invariant ExtractAvcc(old(buf)).0 == out + ExtractAvcc(buf).0
        invariant ExtractAvcc(old(buf)).1 == ExtractAvcc(buf).1
        decreases |buf|
      {
        NothingAdded(out);
        if |buf| < 4 {
          return;
        }
        var length := Be32(buf[..4]);
        if length == 0 || length > 16 * 1024 * 1024 {
          buf := [];
          return;
        }
        if |buf| < 4 + length {
          return;
        }
        out := out + [[0, 0, 0, 1] + buf[4..4 + length]];
        buf := buf[4 + length..];
      }
    }
  }

  // ---------- cutting the stream makes no difference ----------

  lemma StartsAtAppend(b: seq<byte>, c: seq<byte>, i: nat)
    ensures StartsAt(b, i) ==> StartsAt(b + c, i)
    ensures i + 3 < |b| ==> StartsAt(b + c, i) == StartsAt(b, i)
  {}

  lemma FirstStartAppend(b: seq<byte>, c: seq<byte>, from: nat)
    requires FirstStart(b, from).Some?
    ensures FirstStart(b + c, from) == FirstStart(b, from)
  {
    var at := FirstStart(b, from).value;
    FirstStartMeans(b, from);
    StartsAtAppend(b, c, at);
    forall i: nat | from <= i < at
      ensures !StartsAt(b + c, i)
    {
      StartsAtAppend(b, c, i);
    }
    FirstStartIs(b + c, from, at);
  }

  lemma DropStart(b: seq<byte>, n: nat, i: nat)
    requires n <= |b|
    ensures StartsAt(b[n..], i) == StartsAt(b, n + i)
  {}

  lemma NothingAdded(n: Nals)
    ensures [] + n == n && n + [] == n
  {}

  lemma ExtractOpen(b: seq<byte>)
    requires StartsAt(b, 0) && FirstStart(b, 3).None?
    ensures Extract(b) == ([], b)
  {
    hide StartsAt;
    FirstStartIs(b, 0, 0);
    assert b[0..] == b;
  }

  lemma ExtractClosed(b: seq<byte>)
    requires StartsAt(b, 0) && FirstStart(b, 3).Some?
    ensures var next := FirstStart(b, 3).value;
      && StartsAt(b[next..], 0)
      && Extract(b) == ([b[..next]] + Extract(b[next..]).0, Extract(b[next..]).1)
  {
    hide StartsAt;
    FirstStartIs(b, 0, 0);
    FirstStartMeans(b, 3);
    DropStart(b, FirstStart(b, 3).value, 0);
  }

  /** Extracting from a longer buffer is extracting twice. */
  lemma {:induction false} ExtractAppend(b: seq<byte>, c: seq<byte>)
    requires StartsAt(b, 0)
    ensures Extract(b + c).0 == Extract(b).0 + Extract(Extract(b).1 + c).0
    ensures Extract(b + c).1 == Extract(Extract(b).1 + c).1
    ensures StartsAt(Extract(b).1, 0)
    decreases |b|
  {
    hide FirstStart, StartsAt, Extract;
    if FirstStart(b, 3).Some? {
      var next := FirstStart(b, 3).value;
      ExtractClosed(b);
      StartsAtAppend(b, c, 0);
      FirstStartAppend(b, c, 3);
      ExtractClosed(b + c);
      assert (b + c)[next..] == b[next..] + c;
      assert (b + c)[..next] == b[..next];
      ExtractAppend(b[next..], c);
    } else {
      ExtractOpen(b);
    }
  }

  predicate Opens(s: seq<byte>) {
    |s| < 4 || StartsAt(s, 0)
  }

  lemma ShortHasNoStart(s: seq<byte>)
    requires |s| < 4
    ensures Extract(s) == ([], s) && ExtractAvcc(s) == ([], s)
  {
    FirstStartNone(s, 0);
  }

  lemma PushIsExtract(buf: seq<byte>, data: seq<byte>)
    requires Opens(buf + data)
    ensures PushStep(buf, data) == Extract(buf + data)
  {
    hide FirstStart, StartsAt, Extract, ExtractAvcc;
    if |buf + data| < 4 {
      ShortHasNoStart(buf + data);
    } else {
      FirstStartIs(buf + data, 0, 0);
    }
  }

  /** What a stream's pushes leave in the buffer stands for the stream. */
  lemma ExtractResumes(s: seq<byte>, more: seq<byte>)
    requires Opens(s + more)
    ensures Opens(Extract(s).1 + more)
    ensures Extract(s + more).0 == Extract(s).0 + Extract(Extract(s).1 + more).0
    ensures Extract(s + more).1 == Extract(Extract(s).1 + more).1
  {
    hide FirstStart, Extract, ExtractAvcc;
    if |s| < 4 {
      ShortHasNoStart(s);
      NothingAdded(Extract(s + more).0);
    } else {
      assert StartsAt(s, 0);
      ExtractAppend(s, more);
      StartsAtAppend(Extract(s).1, more, 0);
    }
  }

  lemma {:induction false} PushesExtract(s: seq<byte>, chunks: seq<seq<byte>>)
    requires Opens(s + Concat(chunks))
    ensures Extract(s + Concat(chunks)).0 == Extract(s).0 + Pushes(Extract(s).1, chunks).0
    ensures Extract(s + Concat(chunks)).1 == Pushes(Extract(s).1, chunks).1
    decreases |chunks|
  {
    hide FirstStart, Extract, PushStep;
    if chunks == [] {
      assert s + Concat(chunks) == s;
      NothingAdded(Extract(s).0);
    } else {
      var head, rest := chunks[0], chunks[1..];
      assert s + Concat(chunks) == (s + head) + Concat(rest);
      if |s + head| >= 4 {
        assert StartsAt(s + head, 0);
      }
      PushesExtract(s + head, rest);
      ExtractResumes(s, head);
      PushIsExtract(Extract(s).1, head);
    }
  }

  /** However a stream that begins with a start code is cut, the pushes emit the same units and leave
      the same bytes behind. */
  lemma ChunkingIsInvisible(s: seq<byte>, chunks: seq<seq<byte>>)
    requires Opens(s) && Concat(chunks) == s
    ensures Pushes([], chunks) == Extract(s)
  {
    hide FirstStart, Extract, Pushes, Concat;
    assert [] + Concat(chunks) == s;
    ShortHasNoStart([]);
    PushesExtract([], chunks);
    NothingAdded(Pushes([], chunks).0);
  }

  /** Emitted bytes plus buffered bytes are the bytes pushed so far. */
  lemma {:induction false} NothingIsLost(s: seq<byte>)
    requires Opens(s)
    ensures Concat(Extract(s).0) + Extract(s).1 == s
    decreases |s|
  {
    hide FirstStart, StartsAt, Extract, ExtractAvcc;
    if |s| < 4 {
      ShortHasNoStart(s);
    } else if FirstStart(s, 3).Some? {
      var next := FirstStart(s, 3).value;
      ExtractClosed(s);
      NothingIsLost(s[next..]);
      assert s == s[..next] + s[next..];
    } else {
      ExtractOpen(s);
    }
  }

  lemma PushesConserve(s: seq<byte>, chunks: seq<seq<byte>>)
    requires Opens(s) && Concat(chunks) == s
    ensures Concat(Pushes([], chunks).0) + Pushes([], chunks).1 == s
  {
    ChunkingIsInvisible(s, chunks);
    NothingIsLost(s);
  }

  // ---------- the batch splitter ----------

  function CodeLength(b: seq<byte>, i: nat): nat
    requires i + 3 < |b|
  {
    if b[i + 2] == 0 then 4 else 3
  }

  /** The batch splitter's own scan, which also reports the code's length. */
  method FindStartCodeWithLength(data: seq<byte>, from: nat) returns (r: Option<(nat, nat)>)
    ensures r.None? <==> FirstStart(data, from).None?
    ensures r.Some? ==> FirstStart(data, from) == Some(r.value.0) && r.value.1 == CodeLength(data, r.value.0)
  {
    var i := from;
    while i + 3 < |data|
      invariant from <= i
      invariant FirstStart(data, from) == FirstStart(data, i)
    {
      if data[i] == 0 && data[i + 1] == 0 && data[i + 2] == 0 && data[i + 3] == 1 {
        return Some((i, 4));
      }
      if data[i] == 0 && data[i + 1] == 0 && data[i + 2] == 1 {
        return Some((i, 3));
      }
      i := i + 1;
    }
    r := None;
  }

  /** All the units of a complete stream: the closed ones and the open one. */
  function Units(data: seq<byte>): Nals {
    if FirstStart(data, 0).None? then [] else Extract(data).0 + [Extract(data).1]
  }

  /** Skipping a whole start code or just three bytes finds the same next one. */
  lemma SkipCode(b: seq<byte>, i: nat)
    requires StartsAt(b, i)
    ensures FirstStart(b, i + CodeLength(b, i)) == FirstStart(b, i + 3)
  {
    if b[i + 2] == 0 {
      assert !StartsAt(b, i + 3);
    }
  }

  lemma UnitsFrom(data: seq<byte>, pos: nat)
    requires pos + 3 < |data| && StartsAt(data, pos)
    ensures FirstStart(data, pos + 3).None? ==> Units(data[pos..]) == [data[pos..]]
    ensures FirstStart(data, pos + 3).Some? ==>
      var next := FirstStart(data, pos + 3).value;
      Units(data[pos..]) == [data[pos..next]] + Units(data[next..])
  {
    hide FirstStart, StartsAt, Extract;
    var tail := data[pos..];
    DropStart(data, pos, 0);
    FirstStartIs(tail, 0, 0);
    FirstStartDrop(data, pos, 3);
    if FirstStart(data, pos + 3).None? {
      ExtractOpen(tail);
      NothingAdded([tail]);
    } else {
      UnitsClosed(data, pos, FirstStart(data, pos + 3).value);
    }
  }

  lemma UnitsClosed(data: seq<byte>, pos: nat, next: nat)
    requires pos + 3 <= next && next + 3 < |data| && StartsAt(data[pos..], 0)
    requires FirstStart(data[pos..], 3) == Some(next - pos)
    ensures Units(data[pos..]) == [data[pos..next]] + Units(data[next..])
  {
    hide FirstStart, StartsAt, Extract;
    var tail := data[pos..];
    ExtractClosed(tail);
    assert tail[next - pos..] == data[next..];
    assert tail[..next - pos] == data[pos..next];
    FirstStartIs(tail, 0, 0);
    FirstStartIs(data[next..], 0, 0);
    var (nals, rest) := Extract(data[next..]);
    assert ([data[pos..next]] + nals) + [rest] == [data[pos..next]] + (nals + [rest]);
  }

  lemma FirstStartDrop(data: seq<byte>, pos: nat, from: nat)
    requires pos <= |data|
    ensures FirstStart(data[pos..], from) ==
      match FirstStart(data, pos + from) { case None => None case Some(next) => Some(next - pos) }
  {
    hide FirstStart, StartsAt;
    var tail := data[pos..];
    forall i: nat
      ensures StartsAt(tail, i) == StartsAt(data, pos + i)
    {
      DropStart(data, pos, i);
    }
    FirstStartMeans(data, pos + from);
    match FirstStart(data, pos + from)
    case None => FirstStartNone(tail, from);
    case Some(next) => FirstStartIs(tail, from, next - pos);
  }

  lemma UnitsOfNothing(data: seq<byte>)
    requires FirstStart(data, 0).None?
    ensures Units(data) == []
  {}

  method AnnexbNals(data: seq<byte>) returns (out: Nals)
    ensures out == Units(data)
  {
    hide FirstStart, StartsAt, Units;
    out := [];
    var first := FindStartCodeWithLength(data, 0);
    if first.None? {
      assert Units(data) == [] by { UnitsOfNothing(data); }
      return;
    }
    var (pos, length) := first.value;
    FirstStartMeans(data, 0);
    UnitsSkipPrefix(data, pos);
    while true
      invariant pos + 3 < |data| && StartsAt(data, pos) && length == CodeLength(data, pos)
      invariant Units(data) == out + Units(data[pos..])
      decreases |data| - pos
    {
      UnitsFrom(data, pos);
      SkipCode(data, pos);
      FirstStartMeans(data, pos + 3);
      var following := FindStartCodeWithLength(data, pos + length);
      if following.None? {
        out := out + [data[pos..]];
        return;
      }
      var (next, nextLength) := following.value;
      out := out + [data[pos..next]];
      pos := next;
      length := nextLength;
    }
  }

  /** Bytes before the first start code are dropped. */
  lemma UnitsSkipPrefix(data: seq<byte>, pos: nat)
    requires FirstStart(data, 0) == Some(pos)
    ensures Units(data) == Units(data[pos..])
  {
    hide FirstStart, StartsAt;
    FirstStartMeans(data, 0);
    UnitsFrom(data, pos);
    FirstStartMeans(data, pos + 3);
    if FirstStart(data, pos + 3).Some? {
      var next := FirstStart(data, pos + 3).value;
      DropStart(data, next, 0);
      FirstStartIs(data[next..], 0, 0);
    }
  }

  // ---------- flushing ----------

  predicate EndsInShortCode(s: seq<byte>) {
    |s| >= 4 && s[|s| - 3..] == [0, 0, 1] && s[|s| - 4] != 0
  }

  /** The stream's end cannot be mistaken for part of the sentinel, or for a start code. */
  predicate CleanEnd(s: seq<byte>)
    requires |s| >= 4
  {
    s[|s| - 1] != 0 && !EndsInShortCode(s)
  }

  lemma SentinelStarts(r: seq<byte>, i: nat)
    requires |r| >= 4
    ensures var n := |r|;
      StartsAt(r + SENTINEL, i) <==>
        || (i + 3 < n && StartsAt(r, i))
        || (i == n - 3 && r[n - 3..] == [0, 0, 1])
        || (i == n - 1 && r[n - 1] == 0)
        || i == n
  {
    var n := |r|;
    if i == n - 3 {
      assert r[n - 3..] == [r[n - 3], r[n - 2], r[n - 1]];
    }
  }

  lemma NoLongCodeAtEnd(r: seq<byte>)
    requires StartsAt(r, 0) && NoStartIn(r, 3, |r|)
    ensures r[|r| - 3..] == [0, 0, 1] ==> |r| == 4 || r[|r| - 4] != 0
  {
    var n := |r|;
    assert r[n - 3..] == [r[n - 3], r[n - 2], r[n - 1]];
    assert n >= 7 ==> !StartsAt(r, n - 4);
  }

  /** Where the unit r, followed by the sentinel, is closed. */
  lemma SentinelCloses(r: seq<byte>)
    requires StartsAt(r, 0) && FirstStart(r, 3).None?
    ensures FirstStart(r + SENTINEL, 3) ==
      Some(if EndsInShortCode(r) then |r| - 3 else if r[|r| - 1] == 0 then |r| - 1 else |r|)
  {
    var b, n := r + SENTINEL, |r|;
    FirstStartMeans(r, 3);
    forall i: nat
      ensures StartsAt(b, i) <==>
        (i + 3 < n && StartsAt(r, i)) || (i == n - 3 && r[n - 3..] == [0, 0, 1]) || (i == n - 1 && r[n - 1] == 0) || i == n
    {
      SentinelStarts(r, i);
    }
    if EndsInShortCode(r) {
      assert n != 4 && n != 5;
      FirstStartIs(b, 3, n - 3);
    } else if r[n - 1] == 0 {
      FirstStartIs(b, 3, n - 1);
    } else {
      NoLongCodeAtEnd(r);
      FirstStartIs(b, 3, n);
    }
  }

  /** What a flush leaves of a unit that ends in a zero: that zero and the sentinel. */
  const LEFTOVER: seq<byte> := [0] + SENTINEL

  lemma FlushUnit(r: seq<byte>)
    requires StartsAt(r, 0) && FirstStart(r, 3).None?
    ensures CleanEnd(r) ==> FlushStep(r) == ([r], [])
    ensures r[|r| - 1] == 0 ==> FlushStep(r) == ([r[..|r| - 1]], LEFTOVER)
    ensures EndsInShortCode(r) ==> FlushStep(r) == ([r[..|r| - 3], [0, 0, 1]], [])
  {
    hide FirstStart, Extract, FlushStep;
    var n := |r|;
    SentinelCloses(r);
    assert r[n..] + SENTINEL == SENTINEL;
    assert r[n - 1..] == [r[n - 1]];
    if CleanEnd(r) {
      FlushAt(r, n, SENTINEL);
      FirstStartNone(SENTINEL, 3);
      ExtractOpen(SENTINEL);
      NothingAdded([r]);
    } else if EndsInShortCode(r) {
      var tail: seq<byte> := [0, 0, 1] + SENTINEL;
      FlushAt(r, n - 3, tail);
      FirstStartIs(tail, 3, 3);
      ExtractClosed(tail);
      assert tail[3..] == SENTINEL && tail[..3] == [0, 0, 1];
      FirstStartNone(SENTINEL, 3);
      ExtractOpen(SENTINEL);
      NothingAdded([[0, 0, 1]]);
      assert [r[..n - 3]] + [[0, 0, 1]] == [r[..n - 3], [0, 0, 1]];
    } else {
      FlushAt(r, n - 1, LEFTOVER);
      FirstStartNone(LEFTOVER, 3);
      ExtractOpen(LEFTOVER);
      NothingAdded([r[..n - 1]]);
    }
  }

  /** The flush closes the unit at n and goes on with tail. */
  lemma FlushAt(r: seq<byte>, n: nat, tail: seq<byte>)
    requires StartsAt(r, 0) && FirstStart(r, 3).None? && n <= |r|
    requires FirstStart(r + SENTINEL, 3) == Some(n) && tail == r[n..] + SENTINEL
    ensures FlushStep(r) == ([r[..n]] + Extract(tail).0, if Extract(tail).1 == SENTINEL then [] else Extract(tail).1)
    ensures n == |r| ==> r[..n] == r
  {
    hide FirstStart, Extract;
    var b := r + SENTINEL;
    StartsAtAppend(r, SENTINEL, 0);
    ExtractClosed(b);
    assert b[..n] == r[..n] && b[n..] == tail;
  }

  /** The open unit is the end of the stream. */
  lemma {:induction false} OpenUnit(s: seq<byte>)
    requires StartsAt(s, 0)
    ensures var r := Extract(s).1;
      && 4 <= |r| <= |s| && r == s[|s| - |r|..]
      && StartsAt(r, 0) && FirstStart(r, 3).None?
    decreases |s|
  {
    hide FirstStart, Extract;
    if FirstStart(s, 3).Some? {
      var next := FirstStart(s, 3).value;
      ExtractClosed(s);
      OpenUnit(s[next..]);
      var r := Extract(s).1;
      assert s[next..][|s| - next - |r|..] == s[|s| - |r|..];
    } else {
      ExtractOpen(s);
      assert s[0..] == s;
    }
  }

  lemma SameEnd(s: seq<byte>, r: seq<byte>)
    requires 4 <= |r| <= |s| && r == s[|s| - |r|..]
    ensures CleanEnd(r) == CleanEnd(s)
  {
    assert r[|r| - 1] == s[|s| - 1] && r[|r| - 4] == s[|s| - 4];
    assert r[|r| - 3..] == s[|s| - 3..];
  }

  /** Pushing a stream in any pieces and flushing gives the batch splitter's units and an empty buffer
      exactly when the stream ends cleanly. */
  lemma FlushMatchesBatch(s: seq<byte>, chunks: seq<seq<byte>>)
    requires StartsAt(s, 0) && Concat(chunks) == s
    ensures var (nals, buf) := Pushes([], chunks);
      var (last, buf') := FlushStep(buf);
      (nals + last == Units(s) && buf' == []) <==> CleanEnd(s)
  {
    hide FirstStart, StartsAt, Extract, Pushes, FlushStep;
    ChunkingIsInvisible(s, chunks);
    OpenUnit(s);
    var (nals, r) := Extract(s);
    FlushUnit(r);
    FirstStartIs(s, 0, 0);
    var last := FlushStep(r).0;
    assert Units(s) == nals + [r];
    SameEnd(s, r);
    if nals + last == Units(s) {
      assert |last| == 1;
    }
  }

  /** Two streams that do not end cleanly: a trailing zero is cut off and stays behind with the sentinel;
      a three-byte start code at the end becomes a unit of its own. */
  lemma DirtyEndsFail()
    ensures var s: seq<byte> := [0, 0, 1, 0];
      && Units(s) == [s]
      && Pushes([], [s]) == ([], s) && FlushStep(s) == ([[0, 0, 1]], LEFTOVER)
    ensures var s: seq<byte> := [0, 0, 1, 5, 0, 0, 1];
      && Units(s) == [s]
      && Pushes([], [s]) == ([], s) && FlushStep(s) == ([[0, 0, 1, 5], [0, 0, 1]], [])
  {
    hide FlushStep, Pushes, Units;
    var zero: seq<byte>, code: seq<byte> := [0, 0, 1, 0], [0, 0, 1, 5, 0, 0, 1];
    OpenStream(zero);
    OpenStream(code);
    FlushUnit(zero);
    FlushUnit(code);
    assert code[4..] == [0, 0, 1] && zero[..3] == [0, 0, 1] && code[..4] == [0, 0, 1, 5];
  }

  lemma OpenStream(s: seq<byte>)
    requires StartsAt(s, 0) && NoStartIn(s, 3, |s| - 3)
    ensures FirstStart(s, 3).None? && Units(s) == [s] && Pushes([], [s]) == ([], s)
  {
    hide FirstStart, StartsAt;
    FirstStartNone(s, 3);
    FirstStartIs(s, 0, 0);
    ExtractOpen(s);
    NothingAdded([s]);
    var one := [s];
    assert Concat(one) == s + Concat([]) == s;
    ChunkingIsInvisible(s, one);
  }
}
