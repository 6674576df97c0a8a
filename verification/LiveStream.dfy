/** The incremental parser on a live stream: the encoder's units arrive in any pieces, and idle flushes
    come in between. */
module LiveStream {
  import opened Bytes
  import opened AnnexB
  import opened NalStream

  datatype Feed = Data(data: seq<byte>) | Flush

  function FeedStep(buf: seq<byte>, f: Feed): (Nals, seq<byte>) {
    match f
    case Data(data) => PushStep(buf, data)
    case Flush => FlushStep(buf)
  }

  /** The units emitted over a run, and the bytes still buffered. */
  function Parse(feeds: seq<Feed>): (Nals, seq<byte>) {
    if feeds == [] then ([], [])
    else
      var (before, buf) := Parse(feeds[..|feeds| - 1]);
      var (nals, buf') := FeedStep(buf, feeds[|feeds| - 1]);
      (before + nals, buf')
  }

  function Pushed(feeds: seq<Feed>): seq<byte> {
    if feeds == [] then []
    else
      var front, last := Pushed(feeds[..|feeds| - 1]), feeds[|feeds| - 1];
      if last.Data? then front + last.data else front
  }

  /** The first k units of the stream, as bytes. */
  function Front(nals: seq<Nal>, k: nat): seq<byte>
    requires k <= |nals|
  {
    Concat(Printed(nals[..k]))
  }

  ghost predicate OnBoundary(nals: seq<Nal>, s: seq<byte>) {
    exists m | 0 <= m <= |nals| :: s == Front(nals, m)
  }

  /** Every flush comes where the bytes pushed so far are whole units. */
  ghost predicate FlushesOnBoundaries(nals: seq<Nal>, feeds: seq<Feed>) {
    forall i | 0 <= i < |feeds| && feeds[i].Flush? :: OnBoundary(nals, Pushed(feeds[..i]))
  }

  // ---------- prefixes of a printed stream ----------

  lemma {:induction false} PrintedAppend(a: seq<Nal>, b: seq<Nal>)
    ensures Printed(a + b) == Printed(a) + Printed(b)
    decreases |a|
  {
    hide Nal.Unit;
    if a == [] {
      assert a + b == b;
    } else {
      PrintedAppend(a[1..], b);
      assert (a + b)[1..] == a[1..] + b;
    }
  }

  lemma {:induction false} PrintedSize(nals: seq<Nal>)
    ensures |Printed(nals)| == |nals|
    ensures forall i | 0 <= i < |nals| :: Printed(nals)[i] == nals[i].Unit()
  {
    hide Nal.Unit;
    if nals != [] {
      PrintedSize(nals[1..]);
    }
  }

  lemma SplitPrinted(nals: seq<Nal>, k: nat, m: nat)
    requires k <= m <= |nals|
    ensures Printed(nals[..m]) == Printed(nals[..k]) + Printed(nals[k..m])
    ensures Front(nals, m) == Front(nals, k) + Concat(Printed(nals[k..m]))
  {
    hide Nal.Unit;
    assert nals[..m] == nals[..k] + nals[k..m];
    PrintedAppend(nals[..k], nals[k..m]);
    ConcatAppend(Printed(nals[..k]), Printed(nals[k..m]));
  }

  lemma WholePrinted(nals: seq<Nal>, k: nat)
    requires k <= |nals|
    ensures Printed(nals) == Printed(nals[..k]) + Printed(nals[k..])
    ensures Concat(Printed(nals)) == Front(nals, k) + Concat(Printed(nals[k..]))
  {
    SplitPrinted(nals, k, |nals|);
    assert nals[..|nals|] == nals && nals[k..|nals|] == nals[k..];
  }

  lemma NonemptyStream(nals: seq<Nal>)
    requires AllValid(nals) && nals != []
    ensures |Concat(Printed(nals))| >= 4
  {
    hide Nal.Unit;
    assert nals[0] in nals;
    UnitStarts(nals[0], []);
  }

  /** Later boundaries lie farther on. */
  lemma BoundariesGrow(nals: seq<Nal>, k: nat, m: nat)
    requires AllValid(nals) && k <= |nals| && m <= |nals|
    ensures |Front(nals, k)| <= |Front(nals, m)| <==> k <= m
    ensures k < m ==> |Front(nals, k)| < |Front(nals, m)|
  {
    hide Nal.Unit, Nal.Valid;
    if k < m {
      SplitPrinted(nals, k, m);
      SliceIsValid(nals, k, m);
      NonemptyStream(nals[k..m]);
    } else if m < k {
      SplitPrinted(nals, m, k);
      SliceIsValid(nals, m, k);
      NonemptyStream(nals[m..k]);
    }
  }

  lemma SliceIsValid(nals: seq<Nal>, k: nat, m: nat)
    requires AllValid(nals) && k <= m <= |nals|
    ensures AllValid(nals[k..m])
  {
    hide Nal.Valid;
  }

  ghost predicate Settled(r: seq<byte>) {
    Extract(r) == ([], r)
  }

  lemma PrefixOpens(nals: seq<Nal>, s: seq<byte>)
    requires AllValid(nals) && s <= Concat(Printed(nals))
    ensures Opens(s)
  {
    hide Nal.Unit;
    BatchRoundTrip(nals);
  }

  lemma RestIsSettled(s: seq<byte>)
    requires Opens(s)
    ensures Settled(Extract(s).1)
  {
    hide Extract, FirstStart;
    if |s| < 4 {
      ShortHasNoStart(s);
    } else {
      OpenUnit(s);
      ExtractOpen(Extract(s).1);
    }
  }

  /** What the parser makes of the beginning of a stream: its first units, and the rest. */
  lemma ExtractPrefix(nals: seq<Nal>, s: seq<byte>) returns (j: nat)
    requires AllValid(nals) && s <= Concat(Printed(nals))
    ensures j <= |nals| && Extract(s).0 == Printed(nals[..j])
    ensures s == Front(nals, j) + Extract(s).1
    ensures Settled(Extract(s).1)
  {
    hide Extract, Nal.Unit, FirstStart, StartsAt, Settled;
    var whole := Concat(Printed(nals));
    PrefixOpens(nals, s);
    RestIsSettled(s);
    NothingIsLost(s);
    if nals == [] {
      j := 0;
      assert s == [];
      ShortHasNoStart(s);
    } else {
      PrefixOpens(nals, whole);
      assert s + whole[|s|..] == whole;
      ExtractResumes(s, whole[|s|..]);
      j := |Extract(s).0|;
      BatchRoundTrip(nals);
      UnitsExtract(whole);
      PrintedSize(nals);
      WholePrinted(nals, j);
      PrintedSize(nals[..j]);
      assert Extract(s).0 == Printed(nals)[..j] == Printed(nals[..j]);
    }
  }

  lemma UnitsExtract(s: seq<byte>)
    ensures Units(s) != [] ==> Units(s) == Extract(s).0 + [Extract(s).1]
  {}

  // ---------- flushes on boundaries change nothing ----------

  lemma PushGoesOn(nals: seq<Nal>, k: nat, r: seq<byte>, data: seq<byte>) returns (k': nat)
    requires AllValid(nals) && k <= |nals| && Front(nals, k) + (r + data) <= Concat(Printed(nals))
    ensures k <= k' <= |nals| && PushStep(r, data).0 == Printed(nals[k..k'])
    ensures Front(nals, k) + (r + data) == Front(nals, k') + PushStep(r, data).1
    ensures Settled(PushStep(r, data).1)
  {
    hide PushStep, Extract, Nal.Unit, Settled, AllValid, Front, Concat, Printed, Opens;
    var rest := nals[k..];
    WholePrinted(nals, k);
    assert AllValid(rest) by { SliceIsValid(nals, k, |nals|); assert nals[k..|nals|] == rest; }
    Cancel(Front(nals, k), r + data, Concat(Printed(rest)));
    PrefixOpens(rest, r + data);
    PushIsExtract(r, data);
    var j := ExtractPrefix(rest, r + data);
    k' := k + j;
    assert rest[..j] == nals[k..k'];
    SplitPrinted(nals, k, k');
    FrontIs(rest, j);
    assert Front(nals, k) + (Concat(Printed(nals[k..k'])) + PushStep(r, data).1) == Front(nals, k') + PushStep(r, data).1;
  }

  lemma FrontIs(nals: seq<Nal>, k: nat)
    requires k <= |nals|
    ensures Front(nals, k) == Concat(Printed(nals[..k]))
  {}

  lemma Cancel(a: seq<byte>, b: seq<byte>, c: seq<byte>)
    ensures a + b <= a + c ==> b <= c
    ensures a + b == a + c ==> b == c
  {
    assert (a + b)[|a|..] == b && (a + c)[|a|..] == c;
    if a + b <= a + c {
      forall i | 0 <= i < |b|
        ensures b[i] == c[i]
      {
        assert (a + b)[|a| + i] == (a + c)[|a| + i];
      }
    }
  }

  lemma FlushOfSettled(nals: seq<Nal>, r: seq<byte>)
    requires AllValid(nals) && Settled(r) && r == Concat(Printed(nals))
    ensures FlushStep(r) == (Printed(nals), [])
  {
    hide PushStep, FlushStep, Extract, Nal.Unit, Settled, AllValid;
    PrefixOpens(nals, r);
    assert [] + r == r;
    PushIsExtract([], r);
    assert Concat([r]) == r + Concat([]) == r;
    OnePush(r);
    StreamRoundTrip(nals, [r]);
    SettledIs(r);
    NothingAdded(FlushStep(r).0);
  }

  lemma SettledIs(r: seq<byte>)
    requires Settled(r)
    ensures Extract(r) == ([], r)
  {}

  lemma OnePush(r: seq<byte>)
    ensures Pushes([], [r]) == PushStep([], r)
  {
    hide PushStep;
    var chunks := [r];
    assert chunks[1..] == [];
    NothingAdded(PushStep([], r).0);
  }

  /** The parser has emitted the first k units and holds the bytes pushed since. */
  ghost predicate Follows(nals: seq<Nal>, feeds: seq<Feed>, k: nat) {
    && k <= |nals|
    && Parse(feeds).0 == Printed(nals[..k])
    && Pushed(feeds) == Front(nals, k) + Parse(feeds).1
    && Settled(Parse(feeds).1)
  }

  lemma PushedGrows(feeds: seq<Feed>)
    requires feeds != []
    ensures Pushed(feeds[..|feeds| - 1]) <= Pushed(feeds)
  {}

  /** At any moment of a live stream, whatever the pieces: with flushes on unit boundaries only, the
      units emitted are the stream's first ones and the buffer holds exactly the bytes after them;
      right after a flush it is empty. */
  lemma {:induction false} CleanRun(nals: seq<Nal>, feeds: seq<Feed>) returns (k: nat)
    requires AllValid(nals) && Pushed(feeds) <= Concat(Printed(nals)) && FlushesOnBoundaries(nals, feeds)
    ensures Follows(nals, feeds, k)
    ensures feeds != [] && feeds[|feeds| - 1].Flush? ==> Parse(feeds).1 == []
    decreases |feeds|
  {
    hide FeedStep, AllValid, Settled, OnBoundary, Front, Printed;
    if feeds == [] {
      k := 0;
      NothingPushed(nals);
    } else {
      var front, last := feeds[..|feeds| - 1], feeds[|feeds| - 1];
      PushedGrows(feeds);
      assert FlushesOnBoundaries(nals, front) by { FrontFlushes(nals, feeds); }
      k := CleanRun(nals, front);
      k := CleanStep(nals, Parse(front).0, Parse(front).1, Pushed(front), last, k);
    }
  }

  lemma NothingPushed(nals: seq<Nal>)
    ensures Printed(nals[..0]) == [] && Front(nals, 0) == [] && Settled([])
  {
    ShortHasNoStart([]);
  }

  lemma FrontFlushes(nals: seq<Nal>, feeds: seq<Feed>)
    requires feeds != [] && FlushesOnBoundaries(nals, feeds)
    ensures var front, last := feeds[..|feeds| - 1], feeds[|feeds| - 1];
      && FlushesOnBoundaries(nals, front)
      && (last.Flush? ==> OnBoundary(nals, Pushed(front)))
  {
    hide OnBoundary, Pushed;
    var front := feeds[..|feeds| - 1];
    forall i | 0 <= i < |front| && front[i].Flush?
      ensures OnBoundary(nals, Pushed(front[..i]))
    {
      assert feeds[i].Flush? && front[..i] == feeds[..i];
    }
  }

  lemma CleanStep(nals: seq<Nal>, out: Nals, r: seq<byte>, pushed: seq<byte>, f: Feed, k: nat) returns (k': nat)
    requires AllValid(nals) && k <= |nals| && out == Printed(nals[..k]) && pushed == Front(nals, k) + r && Settled(r)
    requires f.Data? ==> pushed + f.data <= Concat(Printed(nals))
    requires f.Flush? ==> OnBoundary(nals, pushed)
    ensures k' <= |nals| && out + FeedStep(r, f).0 == Printed(nals[..k'])
    ensures (if f.Data? then pushed + f.data else pushed) == Front(nals, k') + FeedStep(r, f).1
    ensures Settled(FeedStep(r, f).1)
    ensures f.Flush? ==> FeedStep(r, f).1 == []
  {
    hide PushStep, FlushStep, AllValid, Settled, Front, Printed;
    match f
    case Data(data) =>
      assert Front(nals, k) + r + data == Front(nals, k) + (r + data);
      k' := PushGoesOn(nals, k, r, data);
      SplitPrinted(nals, k, k');
    case Flush =>
      k' :| 0 <= k' <= |nals| && pushed == Front(nals, k');
      BoundariesGrow(nals, k, k');
      SplitPrinted(nals, k, k');
      Cancel(Front(nals, k), r, Concat(Printed(nals[k..k'])));
      SliceIsValid(nals, k, k');
      FlushOfSettled(nals[k..k'], r);
      NothingPushed(nals);
      assert Front(nals, k') + [] == Front(nals, k');
  }

  // ---------- a flush inside a unit is never made good ----------

  /** The units differ from the stream's, or will before the buffer is empty again. */
  ghost predicate Derailed(nals: seq<Nal>, out: Nals, buf: seq<byte>) {
    !(out <= Printed(nals)) || LEFTOVER <= buf
  }

  /** These begin no unit with a header. */
  lemma NotAUnit(n: Nal, unit: seq<byte>)
    requires n.Valid()
    requires unit == [0, 0, 1] || unit == [0, 0, 0, 1] || LEFTOVER <= unit
    ensures unit != n.Unit()
  {
    hide Escape;
    var own := n.Unit();
    assert own[|n.Code()|] == n.header;
    assert n.longCode ==> own[3] == 1 && |own| >= 5;
    assert !n.longCode ==> own[2] == 1 && |own| >= 4;
    if LEFTOVER <= unit {
      assert unit[2] == 0 && unit[4] == 0;
    }
  }

  lemma WrongUnit(nals: seq<Nal>, out: Nals, more: Nals)
    requires AllValid(nals) && more != []
    requires more[0] == [0, 0, 1] || more[0] == [0, 0, 0, 1] || LEFTOVER <= more[0]
    ensures !(out + more <= Printed(nals))
  {
    hide Nal.Unit, Nal.Valid;
    PrintedSize(nals);
    var at := |out|;
    if at < |nals| {
      assert nals[at] in nals;
      NotAUnit(nals[at], more[0]);
    }
    PrefixAt(out + more, Printed(nals), at);
  }

  lemma PrefixAt(a: Nals, b: Nals, i: nat)
    requires i < |a|
    ensures a <= b ==> i < |b| && a[i] == b[i]
  {}

  lemma ExtractLeftover(b: seq<byte>)
    requires LEFTOVER <= b
    ensures Extract(b) == ([], b)
      || (Extract(b).0 != [] && (Extract(b).0[0] == [0, 0, 0, 1] || LEFTOVER <= Extract(b).0[0]))
  {
    hide FirstStart, Extract;
    assert b[0] == 0 && b[1] == 0 && b[2] == 0 && b[3] == 1 && b[4] == 0;
    if FirstStart(b, 3).Some? {
      var next := FirstStart(b, 3).value;
      ExtractClosed(b);
      FirstStartMeans(b, 3);
      assert next != 3;
      if next == 4 {
        assert b[..4] == [0, 0, 0, 1];
      } else {
        assert LEFTOVER <= b[..next];
      }
    } else {
      ExtractOpen(b);
    }
  }

  lemma LeftoverStays(buf: seq<byte>, f: Feed)
    requires LEFTOVER <= buf
    ensures var (more, buf') := FeedStep(buf, f);
      LEFTOVER <= buf' || (more != [] && (more[0] == [0, 0, 0, 1] || LEFTOVER <= more[0]))
  {
    hide FirstStart, Extract, ExtractAvcc;
    var b := buf + (if f.Data? then f.data else SENTINEL);
    assert LEFTOVER <= b;
    ExtractLeftover(b);
    assert b[0] == 0 && b[1] == 0 && b[2] == 0 && b[3] == 1;
    if f.Data? {
      PushIsExtract(buf, f.data);
    } else {
      assert b != SENTINEL;
    }
  }

  lemma StaysDerailed(nals: seq<Nal>, out: Nals, buf: seq<byte>, f: Feed)
    requires AllValid(nals) && Derailed(nals, out, buf)
    ensures Derailed(nals, out + FeedStep(buf, f).0, FeedStep(buf, f).1)
  {
    hide FeedStep, Printed;
    var more := FeedStep(buf, f).0;
    if !(out <= Printed(nals)) {
      StillNoPrefix(out, more, Printed(nals));
    } else {
      LeftoverStays(buf, f);
      if !(LEFTOVER <= FeedStep(buf, f).1) {
        WrongUnit(nals, out, more);
      }
    }
  }

  lemma StillNoPrefix(a: Nals, b: Nals, c: Nals)
    ensures a + b <= c ==> a <= c
  {
    if a + b <= c {
      assert (a + b)[..|a|] == a;
      assert c[..|a|] == a;
    }
  }

  /** A buffer too short for a start code. */
  lemma FlushOfShort(r: seq<byte>)
    requires r == [0] || r == [0, 0] || r == [0, 0, 0] || r == [0, 0, 1]
    ensures if r == [0, 0, 1] then FlushStep(r) == ([[0, 0, 1]], []) else FlushStep(r).1 == LEFTOVER
  {
    hide Extract, FirstStart;
    var b := r + SENTINEL;
    if r == [0, 0, 1] {
      assert StartsAt(b, 0) && StartsAt(b, 3);
      FirstStartIs(b, 3, 3);
      ExtractClosed(b);
      assert b[3..] == SENTINEL && b[..3] == r;
      FirstStartNone(SENTINEL, 3);
      ExtractOpen(SENTINEL);
      NothingAdded([r]);
    } else {
      var at := |r| - 1;
      assert b[at..] == LEFTOVER;
      FirstStartIs(b, 0, at);
      FirstStartNone(b, at + 3);
      OnlyOpen(b, at);
    }
  }

  lemma OnlyOpen(b: seq<byte>, at: nat)
    requires FirstStart(b, 0) == Some(at) && FirstStart(b, at + 3).None?
    ensures Extract(b) == ([], b[at..])
  {}

  lemma SettledHasOneStart(r: seq<byte>)
    requires Settled(r) && StartsAt(r, 0)
    ensures FirstStart(r, 3).None?
  {
    hide Extract, FirstStart, StartsAt;
    if FirstStart(r, 3).Some? {
      ExtractClosed(r);
    }
  }

  lemma ShortOfUnit(n: Nal, r: seq<byte>, rest: seq<byte>)
    requires n.Valid() && r <= n.Unit() + rest && 0 < |r| < 4
    ensures r == [0] || r == [0, 0] || r == [0, 0, 0] || r == [0, 0, 1]
  {
    hide Escape;
    var own := n.Unit() + rest;
    UnitStarts(n, rest);
    assert forall i | 0 <= i < |r| :: r[i] == own[i];
  }

  /** A flush inside a unit, or inside a start code. */
  lemma DirtyFlush(nals: seq<Nal>, k: nat, r: seq<byte>)
    requires AllValid(nals) && k <= |nals| && Settled(r) && Front(nals, k) + r <= Concat(Printed(nals))
    requires !OnBoundary(nals, Front(nals, k) + r)
    ensures Derailed(nals, Printed(nals[..k]) + FlushStep(r).0, FlushStep(r).1)
  {
    hide Settled, FlushStep, Nal.Unit, Nal.Valid, StartsAt, FirstStart, CleanEnd, EndsInShortCode, OnBoundary, Concat, Printed, Front;
    WholePrinted(nals, k);
    Cancel(Front(nals, k), r, Concat(Printed(nals[k..])));
    PartOfUnit(nals, k, r);
    var n := nals[k];
    assert n in nals;
    var out := Printed(nals[..k]);
    PrintedSize(nals);
    PrintedSize(nals[..k]);
    if |r| < 4 {
      ShortOfUnit(n, r, Concat(Printed(nals[k + 1..])));
      FlushOfShort(r);
      if r == [0, 0, 1] {
        WrongUnit(nals, out, [[0, 0, 1]]);
      }
    } else {
      PrefixOpens(nals[k..], r);
      SettledHasOneStart(r);
      FlushUnit(r);
      if CleanEnd(r) {
        assert (out + [r])[k] == r;
      } else if EndsInShortCode(r) {
        ShortCodeEmitted(nals, out, r);
      } else {
        NotClean(r);
      }
    }
  }

  lemma NotClean(r: seq<byte>)
    requires |r| >= 4
    ensures CleanEnd(r) || EndsInShortCode(r) || r[|r| - 1] == 0
  {}

  lemma ShortCodeEmitted(nals: seq<Nal>, out: Nals, r: seq<byte>)
    requires AllValid(nals) && |r| >= 4
    ensures !(out + [r[..|r| - 3], [0, 0, 1]] <= Printed(nals))
  {
    var first: seq<byte> := r[..|r| - 3];
    assert out + [first, [0, 0, 1]] == (out + [first]) + [[0, 0, 1]];
    WrongUnit(nals, out + [first], [[0, 0, 1]]);
  }

  lemma PartOfUnit(nals: seq<Nal>, k: nat, r: seq<byte>)
    requires AllValid(nals) && k <= |nals| && r <= Concat(Printed(nals[k..]))
    requires !OnBoundary(nals, Front(nals, k) + r)
    ensures k < |nals| && r != [] && r != nals[k].Unit() && AllValid(nals[k..])
    ensures Concat(Printed(nals[k..])) == nals[k].Unit() + Concat(Printed(nals[k + 1..]))
  {
    hide Nal.Unit, Nal.Valid;
    assert Front(nals, k) + [] == Front(nals, k);
    assert k < |nals|;
    assert nals[k..][1..] == nals[k + 1..];
    var one := nals[k..k + 1];
    assert one == [nals[k]] && one[1..] == [];
    assert Printed(one) == [nals[k].Unit()] + Printed([]) == [nals[k].Unit()];
    assert Concat([nals[k].Unit()]) == nals[k].Unit() + Concat([]) == nals[k].Unit();
    SplitPrinted(nals, k, k + 1);
  }

  lemma {:induction false} DirtyRun(nals: seq<Nal>, feeds: seq<Feed>)
    requires AllValid(nals) && Pushed(feeds) <= Concat(Printed(nals)) && !FlushesOnBoundaries(nals, feeds)
    ensures Derailed(nals, Parse(feeds).0, Parse(feeds).1)
    decreases |feeds|
  {
    hide FeedStep, AllValid, Settled, OnBoundary, Front, Printed, FlushesOnBoundaries, Derailed;
    assert feeds != [] by { NoFlushes(nals, feeds); }
    var front, last := feeds[..|feeds| - 1], feeds[|feeds| - 1];
    PushedGrows(feeds);
    if FlushesOnBoundaries(nals, front) {
      LastIsDirty(nals, feeds);
      var k := CleanRun(nals, front);
      DirtyFlush(nals, k, Parse(front).1);
      assert FeedStep(Parse(front).1, last) == FlushStep(Parse(front).1) by { FlushIs(Parse(front).1); }
    } else {
      DirtyRun(nals, front);
      StaysDerailed(nals, Parse(front).0, Parse(front).1, last);
    }
  }

  lemma FlushIs(buf: seq<byte>)
    ensures FeedStep(buf, Flush) == FlushStep(buf)
  {}

  lemma NoFlushes(nals: seq<Nal>, feeds: seq<Feed>)
    ensures feeds == [] ==> FlushesOnBoundaries(nals, feeds)
  {}

  lemma LastIsDirty(nals: seq<Nal>, feeds: seq<Feed>)
    requires feeds != [] && !FlushesOnBoundaries(nals, feeds)
    requires FlushesOnBoundaries(nals, feeds[..|feeds| - 1])
    ensures feeds[|feeds| - 1].Flush? && !OnBoundary(nals, Pushed(feeds[..|feeds| - 1]))
  {
    hide OnBoundary, Pushed;
    var front := feeds[..|feeds| - 1];
    var i :| 0 <= i < |feeds| && feeds[i].Flush? && !OnBoundary(nals, Pushed(feeds[..i]));
    assert forall j | 0 <= j < |front| :: front[j] == feeds[j] && front[..j] == feeds[..j];
  }

  /** Pushed in any pieces, with idle flushes anywhere and one at the end, a stream's units come out
      whole and the buffer ends empty exactly when every flush came between two units. */
  lemma LiveRoundTrip(nals: seq<Nal>, feeds: seq<Feed>)
    requires AllValid(nals) && Pushed(feeds) == Concat(Printed(nals))
    requires feeds != [] && feeds[|feeds| - 1].Flush?
    ensures Parse(feeds) == (Printed(nals), []) <==> FlushesOnBoundaries(nals, feeds)
  {
    hide Parse, AllValid, FlushesOnBoundaries, Printed, Concat, Settled, Pushed;
    if FlushesOnBoundaries(nals, feeds) {
      var k := CleanRun(nals, feeds);
      assert nals[..|nals|] == nals;
      assert Front(nals, k) + [] == Front(nals, k);
      BoundariesGrow(nals, k, |nals|);
    } else {
      DirtyRun(nals, feeds);
    }
  }

  /** A unit that is split by a flush: its beginning comes out as a unit, the rest is dropped. */
  lemma SplitUnit()
    ensures var n := Nal(0x41, [0x80, 0x11], false);
      n.Valid() && Printed([n]) == [[0, 0, 1, 0x41, 0x80, 0x11]]
    ensures Parse([Data([0, 0, 1, 0x41]), Flush, Data([0x80, 0x11]), Flush]) == ([[0, 0, 1, 0x41]], [])
  {
    hide FeedStep;
    var n := Nal(0x41, [0x80, 0x11], false);
    assert [n][1..] == [] && Escape(0, [0x80, 0x11]) == [0x80, 0x11] by { NothingEscaped(); }
    assert n.Unit() == [0, 0, 1, 0x41, 0x80, 0x11];
    var front: seq<byte>, back: seq<byte> := [0, 0, 1, 0x41], [0x80, 0x11];
    SplitFront(front);
    SplitBack(back);
    FourFeeds(Data(front), Flush, Data(back), Flush);
    assert [] + [front] + [] + [] == [front];
  }

  lemma NothingEscaped()
    ensures Escape(0, [0x80, 0x11]) == [0x80, 0x11]
  {
    var s: seq<byte> := [0x80, 0x11];
    assert s[1..] == [0x11] && s[1..][1..] == [];
    assert Escape(0, [0x11]) == [0x11] + Escape(0, []);
  }

  lemma SplitFront(r: seq<byte>)
    requires r == [0, 0, 1, 0x41]
    ensures FeedStep([], Data(r)) == ([], r) && FeedStep(r, Flush) == ([r], [])
  {
    hide FirstStart, Extract, FlushStep, PushStep;
    assert StartsAt(r, 0) && [] + r == r;
    FirstStartNone(r, 3);
    ExtractOpen(r);
    PushIsExtract([], r);
    FlushUnit(r);
    assert r[1..] == [0, 1, 0x41];
  }

  lemma SplitBack(r: seq<byte>)
    requires r == [0x80, 0x11]
    ensures FeedStep([], Data(r)) == ([], r) && FeedStep(r, Flush) == ([], [])
  {
    hide FirstStart, Extract, ExtractAvcc;
    assert [] + r == r;
    ShortHasNoStart(r);
    FirstStartNone(r, 0);
    var b := r + SENTINEL;
    assert b[2..] == SENTINEL;
    FirstStartIs(b, 0, 2);
    FirstStartNone(b, 5);
    OnlyOpen(b, 2);
  }

  lemma FourFeeds(f1: Feed, f2: Feed, f3: Feed, f4: Feed)
    ensures var (n1, b1) := FeedStep([], f1);
      var (n2, b2) := FeedStep(b1, f2);
      var (n3, b3) := FeedStep(b2, f3);
      var (n4, b4) := FeedStep(b3, f4);
      Parse([f1, f2, f3, f4]) == (n1 + n2 + n3 + n4, b4)
  {
    hide FeedStep;
    NothingAdded(FeedStep([], f1).0);
    OneMore([], f1);
    OneMore([f1], f2);
    OneMore([f1, f2], f3);
    OneMore([f1, f2, f3], f4);
    assert [] + [f1] == [f1] && [f1] + [f2] == [f1, f2];
    assert [f1, f2] + [f3] == [f1, f2, f3] && [f1, f2, f3] + [f4] == [f1, f2, f3, f4];
  }

  lemma OneMore(feeds: seq<Feed>, f: Feed)
    ensures var (before, buf) := Parse(feeds);
      Parse(feeds + [f]) == (before + FeedStep(buf, f).0, FeedStep(buf, f).1)
    ensures Pushed(feeds + [f]) == Pushed(feeds) + (if f.Data? then f.data else [])
  {
    hide FeedStep;
    assert (feeds + [f])[..|feeds|] == feeds;
  }

  lemma PushedFour(a: seq<byte>, b: seq<byte>)
    ensures Pushed([Data(a), Flush, Data(b), Flush]) == a + b
  {
    hide Pushed;
    PushedTwo([], a);
    PushedTwo([] + [Data(a)] + [Flush], b);
    PushedNothing();
    assert [] + [Data(a)] + [Flush] + [Data(b)] + [Flush] == [Data(a), Flush, Data(b), Flush];
  }

  lemma PushedTwo(feeds: seq<Feed>, a: seq<byte>)
    ensures Pushed(feeds + [Data(a)] + [Flush]) == Pushed(feeds) + a
  {
    hide Pushed;
    OneMore(feeds, Data(a));
    OneMore(feeds + [Data(a)], Flush);
  }

  lemma PushedNothing()
    ensures Pushed([]) == []
  {}
}
