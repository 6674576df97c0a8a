/** Assembling access units: NAL units come in, length-prefixed frames go out, key frames after a codec
    frame.  The clock readings and whether a send succeeds are inputs. */
module Streamer {
  import opened Bytes
  import opened AnnexB
  import opened NalStream
  import Bits
  import L = LiveStream
  import S = Sps

  // ---------- the abstract streamer ----------

  /** A coded slice: its bytes without start code, and whether its type is 5 (IDR). */
  datatype Slice = Slice(raw: seq<byte>, idr: bool)

  datatype Sent =
    | Codec(sps: seq<byte>, pps: seq<byte>, time: nat, size: (nat, nat))
    | Frame(slices: seq<Slice>, key: bool, time: nat, timeline: nat)

  /** A clock reading, which may lie before earlier ones, and the outcome of the sends. */
  datatype Reading = Reading(time: nat, timeline: nat, codecOk: bool, frameOk: bool) {
    predicate AllOk() {
      codecOk && frameOk
    }
  }

  datatype State = State(
    sps: Option<seq<byte>>,
    pps: Option<seq<byte>>,
    vcl: seq<Slice>,
    pendingKey: bool,
    codecSent: bool,
    lastTime: nat,
    size: (nat, nat),
    sent: seq<Sent>)

  const IDLE := State(None, None, [], false, false, 0, (0, 0), [])

  /** The reading, or just after the last frame's time if the clock went back. */
  function Monotonic(time: nat, last: nat): nat {
    if time <= last then last + 1 else time
  }

  /** The parameter set's picture size, or the one before if it does not parse. */
  function PictureSize(sps: seq<byte>, before: (nat, nat)): (nat, nat) {
    match S.DimensionsOf(sps) { case None => before case Some(size) => size }
  }

  function Flush(st: State, r: Reading): State {
    if st.vcl == [] then st
    else
      var time := Monotonic(r.time, st.lastTime);
      var wantsCodec := st.pendingKey && !st.codecSent && st.sps.Some? && st.pps.Some?;
      var size := if wantsCodec then PictureSize(st.sps.value, st.size) else st.size;
      var timed := st.(lastTime := time, size := size);
      if wantsCodec && !r.codecOk then timed
      else
        var sent := if wantsCodec then st.sent + [Codec(st.sps.value, st.pps.value, time, size)] else st.sent;
        var taken := timed.(vcl := [], codecSent := st.codecSent || wantsCodec, sent := sent);
        if !r.frameOk then taken
        else taken.(sent := sent + [Frame(st.vcl, st.pendingKey, time, r.timeline)], pendingKey := false, codecSent := false)
  }

  predicate IsFirstSlice(raw: seq<byte>) {
    |raw| >= 2 && raw[1] >= 128
  }

  function Unit(st: State, nal: seq<byte>, r: Reading): State {
    var kind, raw := TypeFrom(nal, 0), StripStartCode(nal);
    if kind == 9 then Flush(st, r)
    else if kind == 7 then Flush(st, r).(sps := Some(raw))
    else if kind == 8 then st.(pps := Some(raw))
    else if kind == 5 then
      var st1 := if st.vcl != [] && !st.pendingKey then Flush(st, r) else st;
      st1.(pendingKey := true, vcl := st1.vcl + [Slice(raw, true)])
    else if 1 <= kind <= 4 then
      var st1 := if st.vcl != [] && st.pendingKey then Flush(st, r) else st;
      var st2 := if st1.vcl != [] && !st1.pendingKey && IsFirstSlice(raw) then Flush(st1, r) else st1;
      st2.(vcl := st2.vcl + [Slice(raw, false)])
    else st
  }

  datatype Event = Arrives(nal: seq<byte>, r: Reading) | Idle(r: Reading)

  function Step(st: State, e: Event): State {
    match e
    case Arrives(nal, r) => Unit(st, nal, r)
    case Idle(r) => Flush(st, r)
  }

  function Run(st: State, events: seq<Event>): State {
    if events == [] then st else Step(Run(st, events[..|events| - 1]), events[|events| - 1])
  }

  /** The slices of a run, in order. */
  function SlicesIn(events: seq<Event>): seq<Slice> {
    if events == [] then []
    else
      var front, last := SlicesIn(events[..|events| - 1]), events[|events| - 1];
      if last.Arrives? && 1 <= TypeFrom(last.nal, 0) <= 5
      then front + [Slice(StripStartCode(last.nal), TypeFrom(last.nal, 0) == 5)] else front
  }

  function SlicesOf(sent: seq<Sent>): seq<Slice> {
    if sent == [] then []
    else
      var front, last := SlicesOf(sent[..|sent| - 1]), sent[|sent| - 1];
      if last.Frame? then front + last.slices else front
  }

  function SliceIn(nal: seq<byte>): seq<Slice> {
    if 1 <= TypeFrom(nal, 0) <= 5 then [Slice(StripStartCode(nal), TypeFrom(nal, 0) == 5)] else []
  }

  // ---------- when sends fail ----------

  /** The key frame in the accumulator is to follow a codec frame. */
  predicate WantsCodec(st: State) {
    st.pendingKey && !st.codecSent && st.sps.Some? && st.pps.Some?
  }

  /** Whether the event makes the accumulator go out: an idle flush, a delimiter or parameter set, or a
      slice that begins another frame. */
  predicate Flushes(st: State, e: Event) {
    st.vcl != [] &&
    match e
    case Idle(_) => true
    case Arrives(nal, _) =>
      var kind := TypeFrom(nal, 0);
      || kind == 9 || kind == 7
      || (kind == 5 && !st.pendingKey)
      || (1 <= kind <= 4 && (st.pendingKey || IsFirstSlice(StripStartCode(nal))))
  }

  /** The codec frame could not be sent: the accumulator stays. */
  predicate Stops(st: State, r: Reading) {
    WantsCodec(st) && !r.codecOk
  }

  /** The frame was attempted and could not be sent. */
  predicate Loses(st: State, e: Event) {
    Flushes(st, e) && !Stops(st, e.r) && !e.r.frameOk
  }

  /** A codec frame is to be built from a parameter set shorter than four bytes: the original panics. */
  predicate Panics(st: State, e: Event) {
    Flushes(st, e) && WantsCodec(st) && |st.sps.value| < 4
  }

  ghost predicate NoPanic(st: State, events: seq<Event>) {
    forall i | 0 <= i < |events| :: !Panics(Run(st, events[..i]), events[i])
  }

  /** An ordinary slice arrives while a key frame is pending that does not go out: its codec frame
      failed, its own send failed, or it was lost before. */
  predicate Spoils(st: State, e: Event) {
    && e.Arrives? && 1 <= TypeFrom(e.nal, 0) <= 4 && st.pendingKey
    && (st.vcl == [] || Stops(st, e.r) || !e.r.frameOk)
  }

  ghost predicate NoLoss(events: seq<Event>) {
    forall i | 0 <= i < |events| :: !Loses(Run(IDLE, events[..i]), events[i])
  }

  ghost predicate NoSpoiling(events: seq<Event>) {
    forall i | 0 <= i < |events| :: !Spoils(Run(IDLE, events[..i]), events[i])
  }

  /** Every send that was attempted succeeded. */
  ghost predicate SendsOk(events: seq<Event>) {
    forall i | 0 <= i < |events| && Flushes(Run(IDLE, events[..i]), events[i]) :: events[i].r.AllOk()
  }

  ghost predicate AllOk(events: seq<Event>) {
    forall e | e in events :: e.r.AllOk()
  }

  // ---------- nothing is lost ----------

  /** The slices in the frames, then those waiting. */
  function Content(st: State): seq<Slice> {
    SlicesOf(st.sent) + st.vcl
  }

  lemma SlicesAppend(sent: seq<Sent>, s: Sent)
    ensures SlicesOf(sent + [s]) == SlicesOf(sent) + (if s.Frame? then s.slices else [])
  {
    assert (sent + [s])[..|sent|] == sent;
  }

  lemma FlushContent(st: State, r: Reading)
    ensures Content(Flush(st, r))
      == if st.vcl == [] || Stops(st, r) || r.frameOk then Content(st) else SlicesOf(st.sent)
  {
    hide SlicesOf, PictureSize;
    if st.vcl != [] {
      var time := Monotonic(r.time, st.lastTime);
      var frame := Frame(st.vcl, st.pendingKey, time, r.timeline);
      if WantsCodec(st) {
        var codec := Codec(st.sps.value, st.pps.value, time, PictureSize(st.sps.value, st.size));
        SlicesAppend(st.sent, codec);
        SlicesAppend(st.sent + [codec], frame);
      } else {
        SlicesAppend(st.sent, frame);
      }
    }
  }

  function SlicesOfEvent(e: Event): seq<Slice> {
    if e.Arrives? then SliceIn(e.nal) else []
  }

  /** A step adds its slice; a loss is exactly the accumulator. */
  lemma StepContent(st: State, e: Event)
    ensures Content(Step(st, e)) == (if Loses(st, e) then SlicesOf(st.sent) else Content(st)) + SlicesOfEvent(e)
  {
    hide SlicesOf, StripStartCode, TypeFrom, IsFirstSlice, PictureSize, Flush;
    FlushContent(st, e.r);
    FlushLeaves(st, e.r);
    match e
    case Idle(_) =>
    case Arrives(nal, r) =>
      var st1 := Flush(st, r);
      var slices := SliceIn(nal);
      assert SlicesOf(st1.sent) + (st1.vcl + slices) == Content(st1) + slices;
      assert SlicesOf(st.sent) + (st.vcl + slices) == Content(st) + slices;
  }

  lemma FlushLeaves(st: State, r: Reading)
    ensures var st' := Flush(st, r);
      if st.vcl == [] then st' == st
      else if Stops(st, r) then st'.vcl == st.vcl && st'.pendingKey == st.pendingKey && st'.sent == st.sent
      else st'.vcl == [] && (st'.pendingKey <==> st.pendingKey && !r.frameOk)
  {
    hide PictureSize;
  }

  /** The slices lost over a run: at each failed frame send the whole accumulator. */
  function LostSlices(events: seq<Event>): nat {
    if events == [] then 0
    else
      var before, last := events[..|events| - 1], events[|events| - 1];
      var st := Run(IDLE, before);
      LostSlices(before) + if Loses(st, last) then |st.vcl| else 0
  }

  lemma {:induction false} SlicesAreCounted(events: seq<Event>)
    ensures |Content(Run(IDLE, events))| + LostSlices(events) == |SlicesIn(events)|
    decreases |events|
  {
    hide Step, Loses, TypeFrom, StripStartCode;
    if events != [] {
      var before, last := events[..|events| - 1], events[|events| - 1];
      SlicesAreCounted(before);
      StepContent(Run(IDLE, before), last);
    }
  }

  lemma {:induction false} NothingLostExactly(events: seq<Event>)
    ensures NoLoss(events) ==> Content(Run(IDLE, events)) == SlicesIn(events)
    ensures NoLoss(events) <==> LostSlices(events) == 0
    decreases |events|
  {
    hide Step, Loses, TypeFrom, StripStartCode, Content;
    if events == [] {
      assert Content(IDLE) == [] by { IdleIsEmpty(); }
    } else {
      var before, last := events[..|events| - 1], events[|events| - 1];
      NothingLostExactly(before);
      var st := Run(IDLE, before);
      StepContent(st, last);
      assert Loses(st, last) ==> st.vcl != [] by { LosesSlices(st, last); }
      assert NoLoss(events) <==> NoLoss(before) && !Loses(st, last) by { LossAtEnd(events); }
    }
  }

  lemma IdleIsEmpty()
    ensures Content(IDLE) == [] && Uniform(IDLE)
  {}

  lemma LosesSlices(st: State, e: Event)
    ensures Loses(st, e) ==> st.vcl != []
  {}

  lemma LossAtEnd(events: seq<Event>)
    requires events != []
    ensures var before, last := events[..|events| - 1], events[|events| - 1];
      NoLoss(events) <==> NoLoss(before) && !Loses(Run(IDLE, before), last)
  {
    hide Loses, Run;
    var before := events[..|events| - 1];
    assert forall i | 0 <= i < |before| :: before[i] == events[i] && before[..i] == events[..i];
  }

  /** In every run, whatever sends fail: the frames and the accumulator hold exactly the slices that came
      in, in order, if and only if no attempted frame send failed.  A failed codec send loses nothing. */
  lemma NothingLost(events: seq<Event>)
    ensures Content(Run(IDLE, events)) == SlicesIn(events) <==> NoLoss(events)
  {
    hide Run, Content, SlicesIn, LostSlices, NoLoss;
    NothingLostExactly(events);
    SlicesAreCounted(events);
  }

  // ---------- frames are uniform ----------

  predicate AllIdr(slices: seq<Slice>, idr: bool) {
    forall i | 0 <= i < |slices| :: slices[i].idr == idr
  }

  /** Only the first slice of these may be an access unit's first. */
  predicate OneUnit(slices: seq<Slice>) {
    forall i | 1 <= i < |slices| :: !IsFirstSlice(slices[i].raw)
  }

  /** All IDR and flagged so, or all other and flagged so, with no second access unit inside. */
  predicate Pure(slices: seq<Slice>, key: bool) {
    AllIdr(slices, key) && (!key ==> OneUnit(slices))
  }

  predicate GoodFrame(s: Sent) {
    s.Frame? ==> s.slices != [] && Pure(s.slices, s.key)
  }

  /** The frames so far, and the one being assembled. */
  ghost predicate Uniform(st: State) {
    Pure(st.vcl, st.pendingKey) && forall s | s in st.sent :: GoodFrame(s)
  }

  lemma NoSlices(key: bool)
    ensures Pure([], key)
  {}

  lemma AddSlice(slices: seq<Slice>, s: Slice)
    requires Pure(slices, s.idr)
    ensures slices == [] || s.idr || !IsFirstSlice(s.raw) ==> Pure(slices + [s], s.idr)
  {}

  lemma OtherSlice(slices: seq<Slice>, s: Slice, key: bool)
    requires s.idr != key
    ensures !Pure(slices + [s], key)
  {
    assert (slices + [s])[|slices|] == s;
  }

  lemma FlushKeepsUniform(st: State, r: Reading)
    requires Uniform(st)
    ensures Uniform(Flush(st, r))
  {
    hide Pure, PictureSize;
    NoSlices(true);
    NoSlices(false);
  }

  /** Exactly these steps mix an accumulator or give it the wrong flag. */
  lemma SpoiledExactly(st: State, e: Event)
    requires Uniform(st)
    ensures Uniform(Step(st, e)) <==> !Spoils(st, e)
  {
    hide Flush, Pure, StripStartCode, TypeFrom, GoodFrame, IsFirstSlice, PictureSize;
    FlushKeepsUniform(st, e.r);
    FlushLeaves(st, e.r);
    NoSlices(true);
    NoSlices(false);
    match e
    case Idle(_) =>
    case Arrives(nal, r) =>
      var raw, st1 := StripStartCode(nal), Flush(st, r);
      SpoiledByIdr(st, raw);
      SpoiledByIdr(st1, raw);
      SpoiledByOther(st, raw);
      SpoiledByOther(st1, raw);
  }

  lemma SpoiledByIdr(st: State, raw: seq<byte>)
    requires Uniform(st)
    ensures st.vcl == [] || st.pendingKey ==>
      Uniform(st.(pendingKey := true, vcl := st.vcl + [Slice(raw, true)]))
  {
    hide Pure, GoodFrame;
    NoSlices(true);
    if st.vcl == [] || st.pendingKey {
      AddSlice(st.vcl, Slice(raw, true));
    }
  }

  lemma SpoiledByOther(st: State, raw: seq<byte>)
    requires Uniform(st)
    ensures !st.pendingKey && (st.vcl == [] || !IsFirstSlice(raw)) ==>
      Uniform(st.(vcl := st.vcl + [Slice(raw, false)]))
    ensures st.pendingKey ==> !Uniform(st.(vcl := st.vcl + [Slice(raw, false)]))
  {
    hide Pure, GoodFrame, IsFirstSlice;
    if st.pendingKey {
      OtherSlice(st.vcl, Slice(raw, false), true);
    } else {
      AddSlice(st.vcl, Slice(raw, false));
    }
  }

  /** All along a run, every frame and the accumulator are all IDR or all not, flagged so, with no second
      access unit inside a non-IDR one, if and only if no step spoils them. */
  lemma {:induction false} UniformExactly(events: seq<Event>)
    ensures (forall i | 0 <= i <= |events| :: Uniform(Run(IDLE, events[..i]))) <==> NoSpoiling(events)
    decreases |events|
  {
    hide Run, Uniform, Spoils;
    if events == [] {
      assert events[..0] == [];
      RunNothing();
    } else {
      var before, last := events[..|events| - 1], events[|events| - 1];
      UniformExactly(before);
      assert events[..|events|] == events;
      assert forall i | 0 <= i <= |before| :: before[..i] == events[..i];
      assert forall i | 0 <= i < |before| :: before[i] == events[i];
      assert before[..|before|] == before;
      RunLast(events);
      if Uniform(Run(IDLE, before)) {
        SpoiledExactly(Run(IDLE, before), last);
      }
    }
  }

  lemma RunNothing()
    ensures Run(IDLE, []) == IDLE && Uniform(IDLE)
  {}

  lemma RunLast(events: seq<Event>)
    requires events != []
    ensures Run(IDLE, events) == Step(Run(IDLE, events[..|events| - 1]), events[|events| - 1])
  {}

  /** A spoiled accumulator stays so until it is lost or goes out as a bad frame. */
  lemma SpoiledGoesOut(st: State, e: Event)
    requires st.pendingKey && !AllIdr(st.vcl, true)
    ensures var st' := Step(st, e);
      || Loses(st, e)
      || (st'.pendingKey && !AllIdr(st'.vcl, true))
      || exists s | s in st'.sent :: s.Frame? && s.slices == st.vcl && !GoodFrame(s)
  {
    hide StripStartCode, TypeFrom, IsFirstSlice, PictureSize, OneUnit, AllIdr, Flush;
    FlushLeaves(st, e.r);
    assert st.vcl != [] by { NoSlices(true); }
    match e
    case Idle(_) => FlushSends(st, e.r);
    case Arrives(nal, _) =>
      FlushSends(st, e.r);
      StillMixed(st.vcl, Slice(StripStartCode(nal), true));
      StillMixed(st.vcl, Slice(StripStartCode(nal), false));
  }

  lemma StillMixed(slices: seq<Slice>, s: Slice)
    requires !AllIdr(slices, true)
    ensures !AllIdr(slices + [s], true)
  {
    var i :| 0 <= i < |slices| && !slices[i].idr;
    assert (slices + [s])[i] == slices[i];
  }

  lemma FlushSends(st: State, r: Reading)
    ensures st.vcl != [] && !Stops(st, r) && r.frameOk ==>
      && Flush(st, r).sent != []
      && var s := Flush(st, r).sent[|Flush(st, r).sent| - 1];
         s.Frame? && s.slices == st.vcl && s.key == st.pendingKey
  {
    hide PictureSize;
  }

  /** A key frame can only be pending without slices because its send failed. */
  lemma {:induction false} PendingWithoutSlices(events: seq<Event>) returns (i: nat)
    requires Run(IDLE, events).pendingKey && Run(IDLE, events).vcl == []
    ensures i < |events| && Loses(Run(IDLE, events[..i]), events[i]) && Run(IDLE, events[..i]).pendingKey
    decreases |events|
  {
    hide Run, Loses;
    RunNothing();
    var before, last := events[..|events| - 1], events[|events| - 1];
    RunLast(events);
    var st := Run(IDLE, before);
    if Loses(st, last) && st.pendingKey {
      i := |before|;
    } else {
      StaysPending(st, last);
      i := PendingWithoutSlices(before);
      assert before[..i] == events[..i];
    }
  }

  lemma StaysPending(st: State, e: Event)
    requires Step(st, e).pendingKey && Step(st, e).vcl == [] && !(Loses(st, e) && st.pendingKey)
    ensures st.pendingKey && st.vcl == []
  {
    hide Flush, StripStartCode, TypeFrom, IsFirstSlice;
    FlushLeaves(st, e.r);
  }

  /** Where every attempted send succeeds: nothing is lost, and all along the run the frames are
      uniform. */
  lemma NothingLostOrMixed(events: seq<Event>)
    requires SendsOk(events)
    ensures NoLoss(events) && NoSpoiling(events)
    ensures var st := Run(IDLE, events);
      Uniform(st) && Content(st) == SlicesIn(events) && !st.codecSent && (st.vcl == [] ==> !st.pendingKey)
  {
    hide Run, Content, SlicesIn, Uniform, Flushes;
    NoFailuresNoLoss(events);
    NothingLost(events);
    UniformExactly(events);
    NothingPends(events);
    assert events[..|events|] == events;
  }

  lemma NoFailuresNoLoss(events: seq<Event>)
    requires SendsOk(events)
    ensures NoLoss(events) && NoSpoiling(events)
  {
    hide Run, Flushes, Stops;
    forall i | 0 <= i < |events|
      ensures !Loses(Run(IDLE, events[..i]), events[i]) && !Spoils(Run(IDLE, events[..i]), events[i])
    {
      SendsOkFront(events, i);
      NothingPends(events[..i]);
      FailureNeedsFlush(Run(IDLE, events[..i]), events[i]);
    }
  }

  lemma FailureNeedsFlush(st: State, e: Event)
    requires Flushes(st, e) ==> e.r.AllOk()
    requires st.vcl == [] ==> !st.pendingKey
    ensures !Loses(st, e) && !Spoils(st, e)
  {
    hide TypeFrom, StripStartCode, IsFirstSlice;
  }

  lemma SendsOkFront(events: seq<Event>, i: nat)
    requires SendsOk(events) && i <= |events|
    ensures SendsOk(events[..i])
  {
    hide Run, Flushes;
    assert forall j | 0 <= j < i :: events[..i][j] == events[j] && events[..i][..j] == events[..j];
  }

  lemma {:induction false} NothingPends(events: seq<Event>)
    requires SendsOk(events)
    ensures var st := Run(IDLE, events); !st.codecSent && (st.vcl == [] ==> !st.pendingKey)
    decreases |events|
  {
    hide Run, Flushes, Step;
    RunNothing();
    if events != [] {
      var before, last := events[..|events| - 1], events[|events| - 1];
      SendsOkFront(events, |before|);
      NothingPends(before);
      RunLast(events);
      assert Flushes(Run(IDLE, before), last) ==> last.r.AllOk();
      StepLeavesNothing(Run(IDLE, before), last);
    }
  }

  lemma StepLeavesNothing(st: State, e: Event)
    requires !st.codecSent && (st.vcl == [] ==> !st.pendingKey)
    requires Flushes(st, e) ==> e.r.AllOk()
    ensures !Step(st, e).codecSent && (Step(st, e).vcl == [] ==> !Step(st, e).pendingKey)
  {
    hide TypeFrom, StripStartCode, IsFirstSlice, PictureSize;
  }

  // ---------- two runs that go wrong ----------

  /** The frame send of a key frame fails when a delimiter arrives; the original goes on, and the next
      ordinary slice goes out flagged as a key frame. */
  lemma LostKeyFrame(idr: seq<byte>, delimiter: seq<byte>, slice: seq<byte>, fine: Reading, lost: Reading)
    requires TypeFrom(idr, 0) == 5 && TypeFrom(delimiter, 0) == 9 && 1 <= TypeFrom(slice, 0) <= 4
    requires fine.AllOk() && !lost.frameOk
    ensures var events := [Arrives(idr, fine), Arrives(delimiter, lost), Arrives(slice, fine), Arrives(delimiter, fine)];
      && !NoLoss(events) && !NoSpoiling(events)
      && |Run(IDLE, events).sent| == 1
      && var s := Run(IDLE, events).sent[0];
         s.Frame? && s.key && s.slices == [Slice(StripStartCode(slice), false)]
  {
    hide TypeFrom, StripStartCode, IsFirstSlice, Step;
    var e1, e2, e3, e4 := Arrives(idr, fine), Arrives(delimiter, lost), Arrives(slice, fine), Arrives(delimiter, fine);
    FourSteps(e1, e2, e3, e4);
    var events := [e1, e2, e3, e4];
    IdrWaits(IDLE, idr, fine);
    var st1 := Step(IDLE, e1);
    FrameFails(st1, delimiter, lost);
    var st2 := Step(st1, e2);
    assert Loses(Run(IDLE, events[..1]), events[1]);
    OtherWaits(st2, slice, fine);
    assert Spoils(Run(IDLE, events[..2]), events[2]);
    PendingGoesOut(Step(st2, e3), delimiter, fine);
  }

  lemma FourSteps(e1: Event, e2: Event, e3: Event, e4: Event)
    ensures var events := [e1, e2, e3, e4];
      && Run(IDLE, events[..1]) == Step(IDLE, e1)
      && Run(IDLE, events[..2]) == Step(Step(IDLE, e1), e2)
      && Run(IDLE, events[..3]) == Step(Step(Step(IDLE, e1), e2), e3)
      && Run(IDLE, events) == Step(Step(Step(Step(IDLE, e1), e2), e3), e4)
  {
    hide Step;
    var events := [e1, e2, e3, e4];
    assert events[..1] == [e1] && events[..2] == [e1, e2] && events[..3] == [e1, e2, e3];
    assert [e1][..0] == [] && [e1, e2][..1] == [e1] && [e1, e2, e3][..2] == [e1, e2];
  }

  lemma IdrWaits(st: State, nal: seq<byte>, r: Reading)
    requires TypeFrom(nal, 0) == 5 && st.vcl == []
    ensures Step(st, Arrives(nal, r)) == st.(pendingKey := true, vcl := [Slice(StripStartCode(nal), true)])
  {}

  lemma OtherWaits(st: State, nal: seq<byte>, r: Reading)
    requires 1 <= TypeFrom(nal, 0) <= 4 && st.vcl == []
    ensures Step(st, Arrives(nal, r)) == st.(vcl := [Slice(StripStartCode(nal), false)])
  {}

  lemma FrameFails(st: State, delimiter: seq<byte>, lost: Reading)
    requires TypeFrom(delimiter, 0) == 9 && st.vcl != [] && st.pendingKey && !Known(st) && !lost.frameOk
    ensures var st' := Step(st, Arrives(delimiter, lost));
      st'.vcl == [] && st'.pendingKey && !Known(st') && st'.sent == st.sent
  {}

  lemma PendingGoesOut(st: State, delimiter: seq<byte>, fine: Reading)
    requires TypeFrom(delimiter, 0) == 9 && st.vcl != [] && st.pendingKey && !Known(st) && fine.AllOk()
    ensures var time := Monotonic(fine.time, st.lastTime);
      Step(st, Arrives(delimiter, fine)).sent == st.sent + [Frame(st.vcl, true, time, fine.timeline)]
  {}

  predicate Known(st: State) {
    st.sps.Some? && st.pps.Some?
  }

  /** The codec frame of a key frame fails when an ordinary slice arrives: the slice joins the key frame. */
  lemma MixedFrame(sps: seq<byte>, pps: seq<byte>, idr: seq<byte>, slice: seq<byte>, fine: Reading, failing: Reading)
    requires TypeFrom(sps, 0) == 7 && TypeFrom(pps, 0) == 8 && TypeFrom(idr, 0) == 5 && 1 <= TypeFrom(slice, 0) <= 4
    requires !failing.codecOk
    ensures var st := Run(IDLE, [Arrives(sps, fine), Arrives(pps, fine), Arrives(idr, fine), Arrives(slice, failing)]);
      && st.vcl == [Slice(StripStartCode(idr), true), Slice(StripStartCode(slice), false)]
      && st.pendingKey && st.sent == [] && !Uniform(st)
  {
    hide TypeFrom, StripStartCode, IsFirstSlice, PictureSize, Step, Uniform;
    var e1, e2, e3, e4 := Arrives(sps, fine), Arrives(pps, fine), Arrives(idr, fine), Arrives(slice, failing);
    FourSteps(e1, e2, e3, e4);
    SetsArrive(sps, pps, fine);
    var st2 := Step(Step(IDLE, e1), e2);
    IdrWaits(st2, idr, fine);
    CodecFails(Step(st2, e3), slice, failing);
    assert [Slice(StripStartCode(idr), true)] + [Slice(StripStartCode(slice), false)]
      == [Slice(StripStartCode(idr), true), Slice(StripStartCode(slice), false)];
    OtherSlice([Slice(StripStartCode(idr), true)], Slice(StripStartCode(slice), false), true);
    UniformIsPure(Step(Step(st2, e3), e4));
  }

  lemma UniformIsPure(st: State)
    ensures Uniform(st) ==> Pure(st.vcl, st.pendingKey)
  {}

  lemma SetsArrive(sps: seq<byte>, pps: seq<byte>, r: Reading)
    requires TypeFrom(sps, 0) == 7 && TypeFrom(pps, 0) == 8
    ensures Step(Step(IDLE, Arrives(sps, r)), Arrives(pps, r))
      == IDLE.(sps := Some(StripStartCode(sps)), pps := Some(StripStartCode(pps)))
  {}

  lemma CodecFails(st: State, nal: seq<byte>, failing: Reading)
    requires 1 <= TypeFrom(nal, 0) <= 4 && st.vcl != [] && WantsCodec(st) && !failing.codecOk
    ensures var st' := Step(st, Arrives(nal, failing));
      st'.vcl == st.vcl + [Slice(StripStartCode(nal), false)] && st'.pendingKey && st'.sent == st.sent
  {
    hide PictureSize;
  }

  /** Units of these types exist. */
  lemma SampleTypes()
    ensures TypeFrom([0, 0, 1, 9], 0) == 9 && TypeFrom([0, 0, 1, 0x65], 0) == 5 && TypeFrom([0, 0, 1, 0x41], 0) == 1
    ensures TypeFrom([0, 0, 1, 0x67], 0) == 7 && TypeFrom([0, 0, 1, 0x68], 0) == 8
  {
    SampleType(9);
    SampleType(0x65);
    SampleType(0x41);
    SampleType(0x67);
    SampleType(0x68);
  }

  lemma SampleType(header: byte)
    ensures TypeFrom([0, 0, 1, header], 0) == header % 32
  {
    var n := Nal(header, [], false);
    TypeOfUnit(n);
    assert n.Unit() == [0, 0, 1, header];
  }

  // ---------- times ----------

  /** Every frame's time is later than all before it; a codec frame shares its key frame's time. */
  ghost predicate Increasing(sent: seq<Sent>) {
    forall i, j | 0 <= i < j < |sent| ::
      sent[i].time < sent[j].time || (sent[i].Codec? && sent[i].time == sent[j].time)
  }

  ghost predicate TimesKept(st: State) {
    Increasing(st.sent) && forall i | 0 <= i < |st.sent| :: st.sent[i].time <= st.lastTime
  }

  lemma FlushKeepsTimes(st: State, r: Reading)
    requires TimesKept(st)
    ensures TimesKept(Flush(st, r))
  {
    hide PictureSize;
  }

  lemma StepKeepsTimes(st: State, e: Event)
    requires TimesKept(st)
    ensures TimesKept(Step(st, e))
  {
    hide Flush, TypeFrom, StripStartCode, IsFirstSlice;
    FlushKeepsTimes(st, e.r);
    if st.vcl != [] && st.pendingKey {
      FlushKeepsTimes(Flush(st, e.r), e.r);
    }
  }

  /** Frame times strictly increase in every run, whatever the clock and the network do. */
  lemma {:induction false} TimesIncrease(events: seq<Event>)
    ensures Increasing(Run(IDLE, events).sent)
    ensures TimesKept(Run(IDLE, events))
    decreases |events|
  {
    hide Step;
    if events != [] {
      TimesIncrease(events[..|events| - 1]);
      StepKeepsTimes(Run(IDLE, events[..|events| - 1]), events[|events| - 1]);
    }
  }

  lemma FlushStamps(st: State, r: Reading, i: nat)
    requires |st.sent| <= i < |Flush(st, r).sent|
    ensures var s := Flush(st, r).sent[i];
      && s.time == (if r.time > st.lastTime then r.time else st.lastTime + 1)
      && (s.Frame? ==> s.timeline == r.timeline)
  {
    hide PictureSize;
  }

  /** What a step sends carries its clock reading, or the time right after the last frame's if the clock
      went back, and its place on the timeline. */
  lemma StepStamps(st: State, e: Event, i: nat)
    requires |st.sent| <= i < |Step(st, e).sent|
    ensures var s := Step(st, e).sent[i];
      && s.time == (if e.r.time > st.lastTime then e.r.time else st.lastTime + 1)
      && (s.Frame? ==> s.timeline == e.r.timeline)
  {
    hide Flush, TypeFrom, StripStartCode, IsFirstSlice;
    var st1 := Flush(st, e.r);
    FlushKeepsSets(st, e.r);
    FlushKeepsSets(st1, e.r);
    FlushLeaves(st, e.r);
    if i < |st1.sent| {
      FlushStamps(st, e.r, i);
    }
  }

  // ---------- codec frames ----------

  /** From n on, every key frame follows a codec frame of the same time. */
  ghost predicate CodecBefore(sent: seq<Sent>, n: nat) {
    forall i: nat | n <= i < |sent| && sent[i].Frame? && sent[i].key :: i > n && sent[i - 1].Codec? && sent[i - 1].time == sent[i].time
  }

  lemma FlushKeepsCodec(st: State, r: Reading, n: nat)
    requires Known(st) && !st.codecSent && r.AllOk() && n <= |st.sent| && CodecBefore(st.sent, n)
    ensures var st' := Flush(st, r);
      Known(st') && !st'.codecSent && n <= |st'.sent| && CodecBefore(st'.sent, n)
  {
    hide PictureSize;
  }

  lemma StepKeepsCodec(st: State, e: Event, n: nat)
    requires Known(st) && !st.codecSent && e.r.AllOk() && n <= |st.sent| && CodecBefore(st.sent, n)
    ensures var st' := Step(st, e);
      Known(st') && !st'.codecSent && n <= |st'.sent| && CodecBefore(st'.sent, n)
  {
    hide Flush, CodecBefore, TypeFrom, StripStartCode, IsFirstSlice;
    FlushKeepsCodec(st, e.r, n);
    if st.vcl != [] && st.pendingKey {
      FlushKeepsCodec(Flush(st, e.r), e.r, n);
    }
  }

  /** Once both parameter sets are known, every later key frame is preceded by a codec frame. */
  lemma {:induction false} KeyFramesFollowCodec(st: State, events: seq<Event>)
    requires Known(st) && !st.codecSent && AllOk(events)
    ensures var st' := Run(st, events);
      Known(st') && !st'.codecSent && |st'.sent| >= |st.sent| && CodecBefore(st'.sent, |st.sent|)
    decreases |events|
  {
    hide Step, CodecBefore;
    if events == [] {
      assert CodecBefore(st.sent, |st.sent|) by { NothingSince(st.sent); }
    } else {
      var before := events[..|events| - 1];
      KeyFramesFollowCodec(st, before);
      StepKeepsCodec(Run(st, before), events[|events| - 1], |st.sent|);
    }
  }

  lemma NothingSince(sent: seq<Sent>)
    ensures CodecBefore(sent, |sent|)
  {}

  /** The newest unit of a kind, without its start code. */
  function Latest(events: seq<Event>, kind: byte): Option<seq<byte>> {
    if events == [] then None
    else
      var last := events[|events| - 1];
      if last.Arrives? && TypeFrom(last.nal, 0) == kind then Some(StripStartCode(last.nal))
      else Latest(events[..|events| - 1], kind)
  }

  lemma FlushKeepsSets(st: State, r: Reading)
    ensures Flush(st, r).sps == st.sps && Flush(st, r).pps == st.pps
    ensures st.sent <= Flush(st, r).sent
    ensures forall i | |st.sent| <= i < |Flush(st, r).sent| && Flush(st, r).sent[i].Codec? ::
      st.sps == Some(Flush(st, r).sent[i].sps) && st.pps == Some(Flush(st, r).sent[i].pps)
  {
    hide PictureSize;
  }

  lemma UnitKeepsSets(st: State, nal: seq<byte>, r: Reading)
    ensures var st', kind, raw := Unit(st, nal, r), TypeFrom(nal, 0), StripStartCode(nal);
      && st'.sps == (if kind == 7 then Some(raw) else st.sps)
      && st'.pps == (if kind == 8 then Some(raw) else st.pps)
      && st.sent <= st'.sent
      && forall i | |st.sent| <= i < |st'.sent| && st'.sent[i].Codec? ::
        st.sps == Some(st'.sent[i].sps) && st.pps == Some(st'.sent[i].pps)
  {
    hide Flush, TypeFrom, StripStartCode, IsFirstSlice;
    FlushKeepsSets(st, r);
    FlushKeepsSets(Flush(st, r), r);
  }

  lemma {:induction false} SetsAreLatest(events: seq<Event>)
    ensures Run(IDLE, events).sps == Latest(events, 7) && Run(IDLE, events).pps == Latest(events, 8)
    decreases |events|
  {
    hide Unit, Flush, TypeFrom, StripStartCode;
    if events != [] {
      var before, last := events[..|events| - 1], events[|events| - 1];
      SetsAreLatest(before);
      match last
      case Arrives(nal, r) => UnitKeepsSets(Run(IDLE, before), nal, r);
      case Idle(r) => FlushKeepsSets(Run(IDLE, before), r);
    }
  }

  /** In every run, a codec frame carries the newest parameter sets that arrived before it. */
  lemma CodecCarriesLatest(events: seq<Event>, e: Event, i: nat)
    requires var st := Run(IDLE, events); |st.sent| <= i < |Step(st, e).sent| && Step(st, e).sent[i].Codec?
    ensures var codec := Step(Run(IDLE, events), e).sent[i];
      Latest(events, 7) == Some(codec.sps) && Latest(events, 8) == Some(codec.pps)
  {
    hide Unit, Flush, Run, Latest;
    SetsAreLatest(events);
    match e
    case Arrives(nal, r) => UnitKeepsSets(Run(IDLE, events), nal, r);
    case Idle(r) => FlushKeepsSets(Run(IDLE, events), r);
  }

  /** A slice begins an access unit, as the streamer sees it, exactly when its first field, the address of
      its first macroblock (section 7.3.3 of ITU-T H.264), is zero. */
  lemma FirstSliceIs(header: byte, longCode: bool, address: nat, more: seq<Bits.bit>)
    requires address < S.UE_LIMIT && |S.PutUe(address, more)| % 8 == 0
    ensures IsFirstSlice(Nal(header, Bits.Pack(S.PutUe(address, more)), longCode).Raw()) <==> address == 0
  {
    hide S.PutUe, Bits.Pack, Escape, Bits.ByteOf, Bits.AllBits, Bits.BitOf, S.TakeUe;
    var bits := S.PutUe(address, more);
    var payload := Bits.Pack(bits);
    S.UeRoundTrip(address, more);
    S.CodeBegins(address, more);
    Bits.AllBitsOfPack(bits);
    TopBit(payload);
    FirstKept(payload);
  }

  lemma TopBit(data: seq<byte>)
    ensures data != [] ==> (Bits.AllBits(data)[0] == 1 <==> data[0] >= 128)
  {}

  lemma FirstKept(data: seq<byte>)
    ensures data != [] ==> Escape(0, data) != [] && Escape(0, data)[0] == data[0]
  {}

  lemma FlushSizes(st: State, r: Reading, i: nat)
    requires |st.sent| <= i < |Flush(st, r).sent| && Flush(st, r).sent[i].Codec?
    ensures Flush(st, r).sent[i].size == PictureSize(Flush(st, r).sent[i].sps, st.size)
  {
    hide PictureSize;
  }

  lemma StepSizes(st: State, e: Event, i: nat)
    requires |st.sent| <= i < |Step(st, e).sent| && Step(st, e).sent[i].Codec?
    ensures exists before :: Step(st, e).sent[i].size == PictureSize(Step(st, e).sent[i].sps, before)
  {
    hide Flush, TypeFrom, StripStartCode, IsFirstSlice, PictureSize;
    var st1 := Flush(st, e.r);
    FlushKeepsSets(st, e.r);
    FlushKeepsSets(st1, e.r);
    if i < |st1.sent| {
      if st1.sent[i].Codec? {
        FlushSizes(st, e.r, i);
      }
    } else {
      FlushSizes(st1, e.r, i);
    }
  }

  /** In every run, the codec frame of a printed 4:2:0 parameter set announces that set's cropped width
      and height, on the wire too. */
  lemma CodecSize(events: seq<Event>, e: Event, i: nat, header: byte, s: S.Syntax, tail: seq<Bits.bit>)
    requires var st := Run(IDLE, events); |st.sent| <= i < |Step(st, e).sent| && Step(st, e).sent[i].Codec?
    requires header % 32 == 7 && S.ValidSyntax(s) && |S.PutSyntax(s, tail)| % 8 == 0
    requires S.ChromaArrayType(s) == 1 && S.InRange(S.CroppedWidth(s)) && S.InRange(S.CroppedHeight(s))
    requires Step(Run(IDLE, events), e).sent[i].sps == S.SpsNal(header, s, tail)
    ensures var codec := Step(Run(IDLE, events), e).sent[i];
      && codec.size == (S.CroppedWidth(s) as nat, S.CroppedHeight(s) as nat)
      && OnWire(codec).width == S.CroppedWidth(s) && OnWire(codec).height == S.CroppedHeight(s)
  {
    hide Step, Run, S.DimensionsOf, S.SpsNal, S.PutSyntax, S.ValidSyntax, S.CroppedWidth, S.CroppedHeight, AvccConfig;
    StepSizes(Run(IDLE, events), e, i);
    S.Dimensions420(header, s, tail);
  }

  // ---------- from the encoder's units to the frames ----------

  function Arrived(events: seq<Event>): Nals {
    if events == [] then []
    else
      var front, last := Arrived(events[..|events| - 1]), events[|events| - 1];
      if last.Arrives? then front + [last.nal] else front
  }

  /** The slices among a list of units, without their start codes. */
  function CodedSlices(nals: seq<Nal>): seq<Slice> {
    if nals == [] then []
    else
      var n := nals[0];
      (if 1 <= n.header % 32 <= 5 then [Slice(n.Raw(), n.header % 32 == 5)] else []) + CodedSlices(nals[1..])
  }

  function SlicesAmong(units: Nals): seq<Slice> {
    if units == [] then [] else SliceIn(units[0]) + SlicesAmong(units[1..])
  }

  lemma {:induction false} AmongAppend(units: Nals, nal: seq<byte>)
    ensures SlicesAmong(units + [nal]) == SlicesAmong(units) + SliceIn(nal)
    decreases |units|
  {
    hide SliceIn;
    if units == [] {
      assert ([nal])[1..] == [];
    } else {
      AmongAppend(units[1..], nal);
      assert (units + [nal])[1..] == units[1..] + [nal];
    }
  }

  lemma {:induction false} SlicesInArrived(events: seq<Event>)
    ensures SlicesIn(events) == SlicesAmong(Arrived(events))
    decreases |events|
  {
    hide TypeFrom, StripStartCode;
    if events != [] {
      var before, last := events[..|events| - 1], events[|events| - 1];
      SlicesInArrived(before);
      if last.Arrives? {
        AmongAppend(Arrived(before), last.nal);
      }
    }
  }

  lemma {:induction false} AmongPrinted(nals: seq<Nal>)
    ensures SlicesAmong(Printed(nals)) == CodedSlices(nals)
    decreases |nals|
  {
    hide TypeFrom, StripStartCode, Nal.Unit, Nal.Raw;
    if nals != [] {
      TypeOfUnit(nals[0]);
      UnitRoundTrip(nals[0]);
      AmongPrinted(nals[1..]);
      assert Printed(nals)[1..] == Printed(nals[1..]);
    }
  }

  function Events(nals: Nals, clock: nat -> Reading): (events: seq<Event>)
    ensures |events| == |nals|
  {
    seq(|nals|, i requires 0 <= i < |nals| => Arrives(nals[i], clock(i)))
  }

  /** What the main loop does: it pushes the encoder's output, or flushes parser and accumulator because
      the desktop is idle. */
  datatype Operation = PushOp(data: seq<byte>, clock: nat -> Reading) | FlushOp(clock: nat -> Reading)

  function FeedOf(op: Operation): L.Feed {
    match op
    case PushOp(data, _) => L.Data(data)
    case FlushOp(_) => L.Flush
  }

  function EventsOf(buf: seq<byte>, op: Operation): seq<Event> {
    match op
    case PushOp(data, clock) => Events(PushStep(buf, data).0, clock)
    case FlushOp(clock) =>
      var tail := FlushStep(buf).0;
      Events(tail, clock) + [Idle(clock(|tail|))]
  }

  /** The parser's buffer and the streamer's state after an operation. */
  function Operate(buf: seq<byte>, st: State, op: Operation): (seq<byte>, State) {
    (L.FeedStep(buf, FeedOf(op)).1, Run(st, EventsOf(buf, op)))
  }

  function OperateAll(ops: seq<Operation>): (seq<byte>, State) {
    if ops == [] then ([], IDLE)
    else
      var (buf, st) := OperateAll(ops[..|ops| - 1]);
      Operate(buf, st, ops[|ops| - 1])
  }

  function Feeds(ops: seq<Operation>): (feeds: seq<L.Feed>)
    ensures |feeds| == |ops| && forall i | 0 <= i < |ops| :: feeds[i] == FeedOf(ops[i])
  {
    if ops == [] then [] else Feeds(ops[..|ops| - 1]) + [FeedOf(ops[|ops| - 1])]
  }

  function AllEvents(ops: seq<Operation>): seq<Event> {
    if ops == [] then []
    else
      var before := ops[..|ops| - 1];
      AllEvents(before) + EventsOf(L.Parse(Feeds(before)).1, ops[|ops| - 1])
  }

  lemma {:induction false} RunAppend(st: State, a: seq<Event>, b: seq<Event>)
    ensures Run(st, a + b) == Run(Run(st, a), b)
    decreases |b|
  {
    hide Step;
    if b == [] {
      assert a + b == a;
    } else {
      var front := b[..|b| - 1];
      assert (a + b)[..|a + b| - 1] == a + front;
      RunAppend(st, a, front);
    }
  }

  lemma {:induction false} ArrivedAppend(a: seq<Event>, b: seq<Event>)
    ensures Arrived(a + b) == Arrived(a) + Arrived(b)
    decreases |b|
  {
    if b == [] {
      assert a + b == a;
    } else {
      var front := b[..|b| - 1];
      assert (a + b)[..|a + b| - 1] == a + front;
      ArrivedAppend(a, front);
    }
  }

  lemma {:induction false} ArrivedEvents(nals: Nals, clock: nat -> Reading)
    ensures Arrived(Events(nals, clock)) == nals
    decreases |nals|
  {
    if nals != [] {
      var front := nals[..|nals| - 1];
      assert Events(nals, clock)[..|nals| - 1] == Events(front, clock);
      ArrivedEvents(front, clock);
    }
  }

  lemma ArrivedOf(buf: seq<byte>, op: Operation)
    ensures Arrived(EventsOf(buf, op)) == L.FeedStep(buf, FeedOf(op)).0
  {
    hide PushStep, FlushStep, Events;
    match op
    case PushOp(data, clock) => ArrivedEvents(PushStep(buf, data).0, clock);
    case FlushOp(clock) =>
      var events := Events(FlushStep(buf).0, clock);
      ArrivedEvents(FlushStep(buf).0, clock);
      assert (events + [Idle(clock(|FlushStep(buf).0|))])[..|events|] == events;
  }

  /** Operations run the parser and the streamer on the parser's units. */
  lemma {:induction false} OperationsRun(ops: seq<Operation>)
    ensures OperateAll(ops) == (L.Parse(Feeds(ops)).1, Run(IDLE, AllEvents(ops)))
    ensures Arrived(AllEvents(ops)) == L.Parse(Feeds(ops)).0
    decreases |ops|
  {
    hide Run, EventsOf, L.FeedStep, FeedOf, Arrived;
    if ops == [] {
      RunNothing();
      NothingArrived();
    } else {
      var before, last := ops[..|ops| - 1], ops[|ops| - 1];
      OperationsRun(before);
      var buf := L.Parse(Feeds(before)).1;
      assert Feeds(ops)[..|ops| - 1] == Feeds(before);
      RunAppend(IDLE, AllEvents(before), EventsOf(buf, last));
      ArrivedAppend(AllEvents(before), EventsOf(buf, last));
      ArrivedOf(buf, last);
    }
  }

  lemma NothingArrived()
    ensures Arrived([]) == []
  {}

  /** End to end, at any moment of a live stream: an encoder's units are pushed in any pieces, with idle
      flushes between units.  The units that left the parser are the stream's first k, its buffer is what
      was pushed after them, and their slices are in the frames and the accumulator, complete and in
      order, if and only if no attempted frame send failed.  A flush at the end leaves the buffer empty,
      and with all sends successful nothing in the accumulator either. */
  lemma EndToEnd(nals: seq<Nal>, ops: seq<Operation>) returns (k: nat)
    requires AllValid(nals) && L.Pushed(Feeds(ops)) <= Concat(Printed(nals))
    requires L.FlushesOnBoundaries(nals, Feeds(ops))
    ensures k <= |nals|
    ensures var (buf, st) := OperateAll(ops);
      && L.Pushed(Feeds(ops)) == L.Front(nals, k) + buf
      && (Content(st) == CodedSlices(nals[..k]) <==> NoLoss(AllEvents(ops)))
      && (ops != [] && ops[|ops| - 1].FlushOp? ==>
          && buf == []
          && (L.Pushed(Feeds(ops)) == Concat(Printed(nals)) ==> k == |nals|)
          && (SendsOk(AllEvents(ops)) ==> st.vcl == [] && SlicesOf(st.sent) == CodedSlices(nals[..k])))
  {
    hide Run, L.Parse, L.FeedStep, L.Pushed, L.Settled, L.Front, Content, NoLoss, OperateAll, AllEvents, Printed, Concat, AllValid, L.FlushesOnBoundaries, SendsOk;
    var events := AllEvents(ops);
    k := L.CleanRun(nals, Feeds(ops));
    OperationsRun(ops);
    NothingLost(events);
    SlicesInArrived(events);
    AmongPrinted(nals[..k]);
    if ops != [] && ops[|ops| - 1].FlushOp? {
      AllPushed(nals, k);
      if SendsOk(events) {
        LastFlush(ops);
        NothingLostOrMixed(events);
        ContentInFrames(Run(IDLE, events));
      }
    }
  }

  lemma AllPushed(nals: seq<Nal>, k: nat)
    requires AllValid(nals) && k <= |nals|
    ensures L.Front(nals, k) + [] == Concat(Printed(nals)) ==> k == |nals|
  {
    hide Concat, Printed;
    L.BoundariesGrow(nals, k, |nals|);
    assert nals[..|nals|] == nals;
    assert L.Front(nals, k) + [] == L.Front(nals, k);
  }

  lemma ContentInFrames(st: State)
    ensures st.vcl == [] ==> Content(st) == SlicesOf(st.sent)
  {}

  lemma LastFlush(ops: seq<Operation>)
    requires ops != [] && ops[|ops| - 1].FlushOp? && SendsOk(AllEvents(ops))
    ensures Run(IDLE, AllEvents(ops)).vcl == []
  {
    hide Run, L.Parse, FlushStep, Flush;
    var events := AllEvents(ops);
    var before := events[..|events| - 1];
    RunLast(events);
    assert events[|events| - 1].Idle?;
    FlushLeaves(Run(IDLE, before), events[|events| - 1].r);
  }

  /** The limit: a unit split by an idle flush goes out truncated, although every send succeeds. */
  lemma SplitUnitIsTruncated(clock: nat -> Reading)
    requires forall i :: clock(i).AllOk()
    ensures var n := Nal(0x41, [0x80, 0x11], false);
      var ops := [PushOp([0, 0, 1, 0x41], clock), FlushOp(clock), PushOp([0x80, 0x11], clock), FlushOp(clock)];
      && n.Valid() && L.Pushed(Feeds(ops)) == n.Unit() == [0, 0, 1, 0x41, 0x80, 0x11]
      && OperateAll(ops).0 == [] && SlicesOf(OperateAll(ops).1.sent) == [Slice([0x41], false)]
      && CodedSlices([n]) == [Slice([0x41, 0x80, 0x11], false)]
  {
    hide L.Parse, Run, Content, AllEvents, SendsOk, SlicesOf, Nal.Raw, Nal.Unit, OperateAll;
    var n := Nal(0x41, [0x80, 0x11], false);
    var ops := [PushOp([0, 0, 1, 0x41], clock), FlushOp(clock), PushOp([0x80, 0x11], clock), FlushOp(clock)];
    L.SplitUnit();
    SplitFeeds(ops, clock);
    OperationsRun(ops);
    AlwaysOk(ops, clock);
    LastFlush(ops);
    NothingLostOrMixed(AllEvents(ops));
    SlicesInArrived(AllEvents(ops));
    ContentInFrames(Run(IDLE, AllEvents(ops)));
    TruncatedSlice();
    WholeSlice(n);
  }

  lemma SplitFeeds(ops: seq<Operation>, clock: nat -> Reading)
    requires ops == [PushOp([0, 0, 1, 0x41], clock), FlushOp(clock), PushOp([0x80, 0x11], clock), FlushOp(clock)]
    ensures Feeds(ops) == [L.Data([0, 0, 1, 0x41]), L.Flush, L.Data([0x80, 0x11]), L.Flush]
    ensures L.Pushed(Feeds(ops)) == [0, 0, 1, 0x41, 0x80, 0x11]
  {
    hide L.Pushed, FeedOf;
    var front: seq<byte>, back: seq<byte> := [0, 0, 1, 0x41], [0x80, 0x11];
    FeedsOfFour(ops);
    assert FeedOf(ops[0]) == L.Data(front) && FeedOf(ops[1]) == L.Flush by { FeedIs(ops); }
    assert FeedOf(ops[2]) == L.Data(back) && FeedOf(ops[3]) == L.Flush by { FeedIs(ops); }
    L.PushedFour(front, back);
  }

  lemma FeedIs(ops: seq<Operation>)
    ensures forall op | op in ops :: FeedOf(op) == if op.PushOp? then L.Data(op.data) else L.Flush
  {}

  lemma FeedsOfFour(ops: seq<Operation>)
    requires |ops| == 4
    ensures Feeds(ops) == [FeedOf(ops[0]), FeedOf(ops[1]), FeedOf(ops[2]), FeedOf(ops[3])]
  {
    hide FeedOf;
  }

  lemma {:induction false} AlwaysOk(ops: seq<Operation>, clock: nat -> Reading)
    requires forall i :: clock(i).AllOk()
    requires forall op | op in ops :: op.clock == clock
    ensures AllOk(AllEvents(ops)) && SendsOk(AllEvents(ops))
    decreases |ops|
  {
    hide L.Parse, Run, Flushes, PushStep, FlushStep;
    if ops != [] {
      AlwaysOk(ops[..|ops| - 1], clock);
    }
  }

  lemma TruncatedSlice()
    ensures SlicesAmong([[0, 0, 1, 0x41]]) == [Slice([0x41], false)]
  {
    hide TypeFrom;
    var n := Nal(0x41, [], false);
    TypeOfUnit(n);
    UnitRoundTrip(n);
    assert n.Unit() == [0, 0, 1, 0x41];
    var units := [n.Unit()];
    assert units[1..] == [];
    assert SlicesAmong(units) == SliceIn(units[0]) + SlicesAmong([]);
  }

  lemma WholeSlice(n: Nal)
    requires n.header == 0x41 && n.Valid() && Printed([n]) == [[0, 0, 1, 0x41, 0x80, 0x11]]
    ensures n.Unit() == [0, 0, 1, 0x41, 0x80, 0x11]
    ensures n == Nal(0x41, [0x80, 0x11], false) ==> CodedSlices([n]) == [Slice([0x41, 0x80, 0x11], false)]
  {
    hide Escape;
    var one := [n];
    assert one[1..] == [];
    assert Printed(one)[0] == n.Unit();
    assert CodedSlices(one) == [Slice(n.Raw(), false)] + CodedSlices([]);
    if n == Nal(0x41, [0x80, 0x11], false) {
      assert n.Unit() == [0, 0, 1] + n.Raw();
      assert n.Raw() == n.Unit()[3..] == [0x41, 0x80, 0x11];
    }
  }

  // ---------- the streamer itself ----------

  datatype WireFrame =
    | CodecFrame(payload: seq<byte>, time: nat, width: nat, height: nat)
    | VclFrame(payload: seq<byte>, key: bool, time: nat, timeline: nat)

  function Be16(n: nat): (b: seq<byte>)
    ensures |b| == 2
  {
    [n / 256 % 256, n % 256]
  }

  /** The decoder configuration record, with the four-byte trailer. */
  function AvccConfig(sps: seq<byte>, pps: seq<byte>): seq<byte>
    requires |sps| >= 4
  {
    [1, sps[1], sps[2], sps[3], 0xff, 0xe1] + Be16(|sps|) + sps + [1] + Be16(|pps|) + pps + [2, 0, 0, 0]
  }

  /** A decoder finds both parameter sets where the lengths say. */
  lemma ConfigHoldsBoth(sps: seq<byte>, pps: seq<byte>)
    requires 4 <= |sps| < 0x1_0000 && |pps| < 0x1_0000
    ensures var config, off := AvccConfig(sps, pps), 8 + |sps|;
      && |config| == off + 3 + |pps| + 4
      && config[0] == 1 && config[1..4] == sps[1..4] && config[4] == 0xff && config[5] == 0xe1 && config[off] == 1
      && config[off + 3 + |pps|..] == [2, 0, 0, 0]
      && config[6] as int * 256 + config[7] as int == |sps| && config[8..off] == sps
      && config[off + 1] as int * 256 + config[off + 2] as int == |pps| && config[off + 3..off + 3 + |pps|] == pps
  {}

  method BuildAvccConfig(sps: seq<byte>, pps: seq<byte>) returns (payload: seq<byte>)
    requires |sps| >= 4
    ensures payload == AvccConfig(sps, pps)
  {
    hide Be16;
    var avccLen := 6 + 2 + |sps| + 1 + 2 + |pps|;
    var record := new byte[avccLen + 4](_ => 0);
    var off := FillSps(record, sps);
    ghost var front := record[..off];
    FillPps(record, off, pps);
    assert record[avccLen..avccLen + 1] == [2];
    payload := record[..];
    assert payload == front + ([1] + Be16(|pps|) + pps + [2]) + [0, 0, 0];
  }

  method FillSps(record: array<byte>, sps: seq<byte>) returns (off: nat)
    requires |sps| >= 4 && record.Length >= 8 + |sps|
    modifies record
    ensures off == 8 + |sps|
    ensures record[..off] == [1, sps[1], sps[2], sps[3], 0xff, 0xe1] + Be16(|sps|) + sps
    ensures forall k | off <= k < record.Length :: record[k] == old(record[k])
  {
    hide Be16;
    Fill(record, 0, [1, sps[1], sps[2], sps[3], 0xff, 0xe1]);
    Fill(record, 6, Be16(|sps|));
    Fill(record, 8, sps);
    off := 8 + |sps|;
  }

  method FillPps(record: array<byte>, off: nat, pps: seq<byte>)
    requires record.Length >= off + |pps| + 4
    modifies record
    ensures record[..off + |pps| + 4] == old(record[..off]) + ([1] + Be16(|pps|) + pps + [2])
    ensures forall k | off + |pps| + 4 <= k < record.Length :: record[k] == old(record[k])
  {
    hide Be16;
    Fill(record, off, [1]);
    Fill(record, off + 1, Be16(|pps|));
    Fill(record, off + 3, pps);
    Fill(record, off + 3 + |pps|, [2]);
  }

  /** Writes the next field; what lies beyond it is untouched. */
  method Fill(record: array<byte>, start: nat, data: seq<byte>)
    requires start + |data| <= record.Length
    modifies record
    ensures record[..start + |data|] == old(record[..start]) + data
    ensures forall k | start + |data| <= k < record.Length :: record[k] == old(record[k])
  {
    forall k | 0 <= k < |data| {
      record[start + k] := data[k];
    }
  }

  function Raws(slices: seq<Slice>): seq<seq<byte>> {
    if slices == [] then [] else Raws(slices[..|slices| - 1]) + [slices[|slices| - 1].raw]
  }

  /** The accumulator: each slice with its length in front. */
  function Accumulated(slices: seq<Slice>): seq<byte> {
    Concat(Wrapped(Raws(slices)))
  }

  function OnWire(s: Sent): WireFrame {
    match s
    case Codec(sps, pps, time, size) => CodecFrame(if |sps| >= 4 then AvccConfig(sps, pps) else [], time, size.0, size.1)
    case Frame(slices, key, time, timeline) => VclFrame(Accumulated(slices), key, time, timeline)
  }

  function AllOnWire(sent: seq<Sent>): seq<WireFrame> {
    if sent == [] then [] else AllOnWire(sent[..|sent| - 1]) + [OnWire(sent[|sent| - 1])]
  }

  lemma OnWireAppend(sent: seq<Sent>, s: Sent)
    ensures AllOnWire(sent + [s]) == AllOnWire(sent) + [OnWire(s)]
  {
    assert (sent + [s])[..|sent|] == sent;
  }

  lemma CodecOnWire(sent: seq<Sent>, sps: seq<byte>, pps: seq<byte>, time: nat, size: (nat, nat))
    requires |sps| >= 4
    ensures AllOnWire(sent + [Codec(sps, pps, time, size)])
      == AllOnWire(sent) + [CodecFrame(AvccConfig(sps, pps), time, size.0, size.1)]
  {
    OnWireAppend(sent, Codec(sps, pps, time, size));
  }

  lemma {:induction false} WrappedAppend(a: seq<seq<byte>>, raw: seq<byte>)
    ensures Wrapped(a + [raw]) == Wrapped(a) + [AvccWrap(raw)]
    decreases |a|
  {
    hide AvccWrap;
    if a == [] {
      assert ([raw])[1..] == [];
    } else {
      WrappedAppend(a[1..], raw);
      assert (a + [raw])[1..] == a[1..] + [raw];
    }
  }

  lemma AccumulatedAppend(slices: seq<Slice>, s: Slice)
    ensures Accumulated(slices + [s]) == Accumulated(slices) + AvccWrap(s.raw)
    ensures Accumulated(slices + [s]) != []
  {
    assert (slices + [s])[..|slices|] == slices;
    WrappedAppend(Raws(slices), s.raw);
    ConcatAppend(Wrapped(Raws(slices)), [AvccWrap(s.raw)]);
    assert Concat([AvccWrap(s.raw)]) == AvccWrap(s.raw) + Concat([]);
  }

  lemma EmptyAccumulator(slices: seq<Slice>)
    ensures Accumulated(slices) == [] <==> slices == []
  {
    if slices != [] {
      var n := |slices| - 1;
      AccumulatedAppend(slices[..n], slices[n]);
      assert slices[..n] + [slices[n]] == slices;
    }
  }

  /** A decoder that reads the length prefixes of a frame finds exactly its slices. */
  lemma PayloadReadable(slices: seq<Slice>)
    requires forall s | s in slices :: 1 <= |s.raw| <= AVCC_LIMIT
    ensures ExtractAvcc(Accumulated(slices)) == (WithCodes(Raws(slices)), [])
    ensures |Raws(slices)| == |slices| && forall i | 0 <= i < |slices| :: Raws(slices)[i] == slices[i].raw
  {
    hide ExtractAvcc, Wrapped, WithCodes;
    RawsAre(slices);
    forall r | r in Raws(slices)
      ensures 1 <= |r| <= AVCC_LIMIT
    {
      var i :| 0 <= i < |Raws(slices)| && Raws(slices)[i] == r;
      assert slices[i] in slices;
    }
    WrappedExtract(Raws(slices));
  }

  lemma {:induction false} RawsAre(slices: seq<Slice>)
    ensures |Raws(slices)| == |slices| && forall i | 0 <= i < |slices| :: Raws(slices)[i] == slices[i].raw
    decreases |slices|
  {
    if slices != [] {
      RawsAre(slices[..|slices| - 1]);
    }
  }

  class MirrorSession {
    var lastFrameTimestamp: nat
    var videoWidth: nat
    var videoHeight: nat
    var sent: seq<WireFrame>

    constructor ()
      ensures lastFrameTimestamp == 0 && videoWidth == 0 && videoHeight == 0 && sent == []
    {
      lastFrameTimestamp, videoWidth, videoHeight, sent := 0, 0, 0, [];
    }

    method MonotonicFrameTime(timestamp: nat) returns (time: nat)
      modifies this`lastFrameTimestamp
      ensures time == Monotonic(timestamp, old(lastFrameTimestamp)) && lastFrameTimestamp == time
      ensures time == if timestamp > old(lastFrameTimestamp) then timestamp else old(lastFrameTimestamp) + 1
    {
      time := timestamp;
      if time <= lastFrameTimestamp {
        time := lastFrameTimestamp + 1;
      }
      lastFrameTimestamp := time;
    }

    /** The picture size of a parameter set, if it parses. */
    method TakeSize(sps: seq<byte>)
      modifies this`videoWidth, this`videoHeight
      ensures (videoWidth, videoHeight) == PictureSize(sps, old((videoWidth, videoHeight)))
    {
      hide S.DimensionsOf;
      var size := S.SpsDimensions(sps);
      if size.Some? {
        videoWidth := size.value.0;
        videoHeight := size.value.1;
      }
    }

    method SendCodecFrame(payload: seq<byte>, time: nat, ok: bool) returns (r: Result<()>)
      modifies this`sent
      ensures r.Ok? == ok
      ensures sent == if ok then old(sent) + [CodecFrame(payload, time, videoWidth, videoHeight)] else old(sent)
    {
      if !ok {
        return Err;
      }
      sent := sent + [CodecFrame(payload, time, videoWidth, videoHeight)];
      r := Ok(());
    }

    method SendFrame(data: seq<byte>, key: bool, time: nat, timeline: nat, ok: bool) returns (r: Result<()>)
      modifies this`sent
      ensures r.Ok? == ok
      ensures sent == if ok then old(sent) + [VclFrame(data, key, time, timeline)] else old(sent)
    {
      if !ok {
        return Err;
      }
      sent := sent + [VclFrame(data, key, time, timeline)];
      r := Ok(());
    }
  }

  class H264Streamer {
    const session: MirrorSession
    const parser: H264Parser
    var latestSps: Option<seq<byte>>
    var latestPps: Option<seq<byte>>
    var vclBuf: seq<byte>
    var pendingKeyframe: bool
    var codecSent: bool
    var framesSent: nat
    var bytesSent: nat
    ghost var model: State

    ghost predicate Valid()
      reads this, session
    {
      && latestSps == model.sps && latestPps == model.pps
      && vclBuf == Accumulated(model.vcl) && pendingKeyframe == model.pendingKey && codecSent == model.codecSent
      && session.lastFrameTimestamp == model.lastTime
      && (session.videoWidth, session.videoHeight) == model.size
      && session.sent == AllOnWire(model.sent)
    }

    constructor ()
      ensures Valid() && model == IDLE && parser.buf == [] && fresh(session) && fresh(parser)
    {
      session := new MirrorSession();
      parser := new H264Parser();
      latestSps, latestPps := None, None;
      vclBuf := [];
      pendingKeyframe, codecSent := false, false;
      framesSent, bytesSent := 0, 0;
      model := IDLE;
    }

    method FlushVcl(r: Reading) returns (done: Result<()>)
      requires Valid() && !Panics(model, Idle(r))
      modifies this, session
      ensures Valid() && model == Flush(old(model), r)
    {
      hide Accumulated, AllOnWire, AvccConfig, PictureSize;
      EmptyAccumulator(model.vcl);
      if vclBuf == [] {
        return Ok(());
      }
      var time := session.MonotonicFrameTime(r.time);
      if pendingKeyframe && !codecSent {
        if latestSps.Some? && latestPps.Some? {
          done := SendCodec(time, r.codecOk);
          if done.Err? {
            model := Flush(model, r);
            return;
          }
        }
      }
      ghost var sent := model.sent;
      if pendingKeyframe && !model.codecSent && Known(model) {
        sent := sent + [Codec(model.sps.value, model.pps.value, time, PictureSize(model.sps.value, model.size))];
      }
      done := SendAccumulated(time, r, sent);
      model := Flush(model, r);
    }

    /** The accumulator goes out as one frame, or is lost with it. */
    method SendAccumulated(time: nat, r: Reading, ghost before: seq<Sent>) returns (done: Result<()>)
      requires session.sent == AllOnWire(before) && vclBuf == Accumulated(model.vcl)
      modifies this`vclBuf, this`pendingKeyframe, this`codecSent, this`framesSent, this`bytesSent, session`sent
      ensures vclBuf == Accumulated([])
      ensures r.frameOk ==> !pendingKeyframe && !codecSent
      ensures r.frameOk ==> session.sent == AllOnWire(before + [Frame(model.vcl, old(pendingKeyframe), time, r.timeline)])
      ensures !r.frameOk ==> pendingKeyframe == old(pendingKeyframe) && codecSent == old(codecSent) && session.sent == old(session.sent)
    {
      hide Accumulated;
      EmptyAccumulator([]);
      OnWireAppend(before, Frame(model.vcl, pendingKeyframe, time, r.timeline));
      var frame := vclBuf;
      vclBuf := [];
      var _ :- session.SendFrame(frame, pendingKeyframe, time, r.timeline, r.frameOk);
      bytesSent := bytesSent + |frame|;
      framesSent := framesSent + 1;
      pendingKeyframe := false;
      codecSent := false;
      done := Ok(());
    }

    /** The codec frame of a key frame, after taking the picture size from the parameter set. */
    method SendCodec(time: nat, ok: bool) returns (r: Result<()>)
      requires latestSps.Some? && latestPps.Some? && |latestSps.value| >= 4
      requires session.sent == AllOnWire(model.sent) && (session.videoWidth, session.videoHeight) == model.size
      requires !codecSent
      modifies this`bytesSent, this`codecSent, session`videoWidth, session`videoHeight, session`sent
      ensures r.Ok? == ok && codecSent == ok
      ensures (session.videoWidth, session.videoHeight) == PictureSize(latestSps.value, model.size)
      ensures ok ==> session.sent == AllOnWire(model.sent + [Codec(latestSps.value, latestPps.value, time, PictureSize(latestSps.value, model.size))])
      ensures !ok ==> session.sent == old(session.sent)
    {
      hide AvccConfig, PictureSize, AllOnWire;
      var sps, pps := latestSps.value, latestPps.value;
      session.TakeSize(sps);
      CodecOnWire(model.sent, sps, pps, time, PictureSize(sps, model.size));
      var avcc := BuildAvccConfig(sps, pps);
      var _ :- session.SendCodecFrame(avcc, time, ok);
      bytesSent := bytesSent + |avcc|;
      codecSent := true;
      r := Ok(());
    }

    method ProcessUnit(nal: seq<byte>, r: Reading)
      requires Valid() && !Panics(model, Arrives(nal, r))
      modifies this, session
      ensures Valid() && model == Unit(old(model), nal, r)
    {
      hide Flush, Accumulated, TypeFrom, StripStartCode, AllOnWire, AvccWrap, Panics, IsFirstSlice;
      PanicsOnlyInFlush(model, nal, r);
      KeyOnlyPanics(model, r);
      var kind := NalType(nal);
      var raw := StripStartCode(nal);
      EmptyAccumulator(model.vcl);
      if kind == 9 {
        var _ := FlushVcl(r);
      } else if kind == 7 {
        var _ := FlushVcl(r);
        latestSps := Some(raw);
        model := model.(sps := Some(raw));
      } else if kind == 8 {
        latestPps := Some(raw);
        model := model.(pps := Some(raw));
      } else if kind == 5 {
        if vclBuf != [] && !pendingKeyframe {
          var _ := FlushVcl(r);
        }
        AccumulatedAppend(model.vcl, Slice(raw, true));
        pendingKeyframe := true;
        vclBuf := vclBuf + AvccWrap(raw);
        model := model.(pendingKey := true, vcl := model.vcl + [Slice(raw, true)]);
      } else if 1 <= kind <= 4 {
        if vclBuf != [] && pendingKeyframe {
          var _ := FlushVcl(r);
        }
        EmptyAccumulator(model.vcl);
        if vclBuf != [] && !pendingKeyframe && IsFirstSlice(raw) {
          var _ := FlushVcl(r);
        }
        AccumulatedAppend(model.vcl, Slice(raw, false));
        vclBuf := vclBuf + AvccWrap(raw);
        model := model.(vcl := model.vcl + [Slice(raw, false)]);
      }
    }

    method ProcessNals(nals: Nals, clock: nat -> Reading)
      requires Valid() && NoPanic(model, Events(nals, clock))
      modifies this, session
      ensures Valid() && model == Run(old(model), Events(nals, clock))
    {
      hide Unit, Panics;
      for i := 0 to |nals|
        invariant Valid()
        invariant model == Run(old(model), Events(nals, clock)[..i])
      {
        var events := Events(nals, clock);
        assert events[..i + 1][..i] == events[..i];
        assert !Panics(Run(old(model), events[..i]), events[i]);
        ProcessUnit(nals[i], clock(i));
      }
      assert Events(nals, clock)[..|nals|] == Events(nals, clock);
    }

    method Push(annexB: seq<byte>, clock: nat -> Reading)
      requires Valid() && NoPanic(model, EventsOf(parser.buf, PushOp(annexB, clock)))
      modifies this, session, parser
      ensures Valid() && (parser.buf, model) == Operate(old(parser.buf), old(model), PushOp(annexB, clock))
    {
      hide PushStep, Run, NoPanic;
      var nals := parser.Push(annexB);
      ProcessNals(nals, clock);
    }

    /** Sends whatever is still buffered in the parser or the accumulator. */
    method FlushIdle(clock: nat -> Reading)
      requires Valid() && NoPanic(model, EventsOf(parser.buf, FlushOp(clock)))
      modifies this, session, parser
      ensures Valid() && (parser.buf, model) == Operate(old(parser.buf), old(model), FlushOp(clock))
    {
      hide Flush, FlushStep, Panics;
      ghost var start := model;
      var tail := parser.Flush();
      ghost var events, last := Events(tail, clock), Idle(clock(|tail|));
      assert (events + [last])[..|events|] == events;
      PanicsNowhere(start, events, last);
      ProcessNals(tail, clock);
      var _ := FlushVcl(clock(|tail|));
    }
  }

  lemma PanicsOnlyInFlush(st: State, nal: seq<byte>, r: Reading)
    requires !Panics(st, Arrives(nal, r))
    ensures var kind := TypeFrom(nal, 0);
      kind == 9 || kind == 7 || (1 <= kind <= 4 && st.pendingKey) ==> !Panics(st, Idle(r))
  {
    hide TypeFrom, StripStartCode, IsFirstSlice;
  }

  lemma KeyOnlyPanics(st: State, r: Reading)
    ensures !st.pendingKey ==> !Panics(st, Idle(r))
    ensures !Flush(st, r).pendingKey ==> !Panics(Flush(st, r), Idle(r))
  {
    hide Flush;
  }

  lemma PanicsNowhere(st: State, events: seq<Event>, last: Event)
    requires NoPanic(st, events + [last])
    ensures NoPanic(st, events) && !Panics(Run(st, events), last)
  {
    hide Panics, Run;
    var all := events + [last];
    assert all[..|events|] == events && all[|events|] == last;
    assert forall i | 0 <= i < |events| :: all[i] == events[i] && all[..i] == events[..i];
  }
}
