/** The sender's whole session against the receiver over one control connection: pairing, the FairPlay
    handshake and the requests that carry out a session, each posted as a request and answered. */
module ConnectionRun {
  import opened Bytes
  import opened Crypto
  import opened ReceiverSession
  import F = Fpsap
  import M = FairPlayMessage
  import P = PairingSession
  import PR = PairingRun
  import R = ReceiverPairing
  import T = Tlv8

  function Post(path: string, appleEt: Option<string>, body: seq<byte>, o: Outside): Entry {
    Entry(Request("POST", path, appleEt, body), o)
  }

  /** The reply to the next request of a connection. */
  ghost function Reply(cfg: Config, trace: seq<Entry>, e: Entry): Response
    requires cfg.Valid()
  {
    Step(cfg, At(cfg, trace, |trace|), e).1
  }

  /** The connection after a run. */
  ghost function Now(cfg: Config, trace: seq<Entry>): Control
    requires cfg.Valid()
  {
    At(cfg, trace, |trace|)
  }

  lemma {:induction false} AtPrefix(cfg: Config, a: seq<Entry>, b: seq<Entry>, n: nat)
    requires cfg.Valid() && n <= |a|
    ensures At(cfg, a + b, n) == At(cfg, a, n)
    decreases n
  {
    hide Step;
    if n > 0 {
      AtPrefix(cfg, a, b, n - 1);
    }
  }

  /** One more request. */
  lemma Next(cfg: Config, trace: seq<Entry>, e: Entry)
    requires cfg.Valid()
    ensures ValidSession(Now(cfg, trace).session)
    ensures var (s, r, keys) := Dispatch(cfg, Now(cfg, trace).session, e);
      && Now(cfg, trace + [e]) == Control(s, EnableHap(Now(cfg, trace).stream, keys))
      && Reply(cfg, trace, e) == r
      && Status(cfg, trace + [e], |trace|) == r.status
  {
    hide Dispatch, EnableHap, At;
    AtPrefix(cfg, trace, [e], |trace|);
    OneTurn(cfg, trace + [e], |trace|);
  }

  lemma PostsTo(path: string, appleEt: Option<string>, body: seq<byte>, o: Outside)
    requires path != "" && path[0] == '/'
    ensures forall other :: IsPost(Post(path, appleEt, body, o).req, other) <==> other == path
  {}

  // ---------- pairing ----------

  /** The sender posts a message and decodes the reply; None: it is not a 200. */
  ghost function Ask(cfg: Config, trace: seq<Entry>, path: string, items: seq<T.Item>, o: Outside): (seq<Entry>, Option<T.Fields>)
    requires cfg.Valid()
  {
    var e := Post(path, None, T.EncodeOrdered(items), o);
    var r := Reply(cfg, trace, e);
    (trace + [e], if r.status == 200 then Some(T.Decode(r.body)) else None)
  }

  /** The sender's pairing, over the connection. */
  ghost function PairSetup(s: P.Sender, cfg: Config, trace: seq<Entry>, o: Outside): (seq<Entry>, Option<P.Response>)
    requires s.Valid() && cfg.Valid()
  {
    var (t1, m2) := Ask(cfg, trace, "/pair-setup", P.M1_ITEMS, o);
    if m2.None? || P.ParseM2(m2.value).None? then (t1, None)
    else
      match P.Respond(s, P.ParseM2(m2.value).value)
      case None => (t1, None)
      case Some(r) =>
        var (t2, m4) := Ask(cfg, t1, "/pair-setup", P.M3Items(r), o);
        if m4.None? || !P.GoodM4(s, r, m4.value) then (t2, None)
        else
          var (t3, m6) := Ask(cfg, t2, "/pair-setup", P.M5Items(s, r), o);
          (t3, if m6.None? || T.ERROR in m6.value then None else Some(r))
  }

  ghost function PairVerify(s: P.Sender, cfg: Config, trace: seq<Entry>, o: Outside): (seq<Entry>, Option<R.SessionKeys>)
    requires s.Valid() && cfg.Valid()
  {
    var (t1, v2) := Ask(cfg, trace, "/pair-verify", P.V1Items(s), o);
    if v2.None? || P.ParseV2(s, v2.value).None? then (t1, None)
    else
      var a := P.ParseV2(s, v2.value).value;
      var (t2, v4) := Ask(cfg, t1, "/pair-verify", P.V3Items(s, a), o);
      (t2, if v4.None? || T.ERROR in v4.value then None else Some(P.SenderKeys(s.suite, a.shared)))
  }

  ghost function Pair(s: P.Sender, cfg: Config, trace: seq<Entry>, o: Outside): (seq<Entry>, Option<R.SessionKeys>)
    requires s.Valid() && cfg.Valid()
  {
    var (t1, r) := PairSetup(s, cfg, trace, o);
    if r.None? then (t1, None) else PairVerify(s, cfg, t1, o)
  }

  /** What a pairing request leaves alone. */
  ghost predicate SameElse(a: Control, b: Control) {
    a.session.fairplay == b.session.fairplay && a.session.media == b.session.media
  }

  lemma AskSetup(cfg: Config, trace: seq<Entry>, items: seq<T.Item>, o: Outside)
    requires cfg.Valid()
    ensures var (trace', m) := Ask(cfg, trace, "/pair-setup", items, o);
      var (st, m') := P.Ask(cfg.id, Now(cfg, trace).session.pairing, items, o.rnd);
      && m == Some(m') && Now(cfg, trace').session.pairing == st
      && Now(cfg, trace').stream == Now(cfg, trace).stream && SameElse(Now(cfg, trace'), Now(cfg, trace))
  {
    hide R.VerifyStep, R.SetupStep, FairplayStep, SetupStep, T.Decode, T.EncodeOrdered, Now, RequestPath;
    var e := Post("/pair-setup", None, T.EncodeOrdered(items), o);
    Next(cfg, trace, e);
    PostsTo("/pair-setup", None, T.EncodeOrdered(items), o);
  }

  lemma AskVerify(cfg: Config, trace: seq<Entry>, items: seq<T.Item>, o: Outside)
    requires cfg.Valid()
    ensures var (trace', m) := Ask(cfg, trace, "/pair-verify", items, o);
      var (st, m') := P.AskVerify(cfg.id, Now(cfg, trace).session.pairing, items, o.rnd);
      && m == Some(m') && Now(cfg, trace').session.pairing == st
      && SameElse(Now(cfg, trace'), Now(cfg, trace))
  {
    hide R.VerifyStep, R.SetupStep, FairplayStep, SetupStep, T.Decode, T.EncodeOrdered, Now, RequestPath;
    var e := Post("/pair-verify", None, T.EncodeOrdered(items), o);
    Next(cfg, trace, e);
    PostsTo("/pair-verify", None, T.EncodeOrdered(items), o);
  }

  /** Over the connection the pairing goes just as it does between the two machines. */
  lemma SetupOverConnection(s: P.Sender, cfg: Config, trace: seq<Entry>, o: Outside)
    requires s.Valid() && cfg.Valid()
    ensures var (trace', r) := PairSetup(s, cfg, trace, o);
      && (Now(cfg, trace').session.pairing, r) == P.RunSetup(s, cfg.id, Now(cfg, trace).session.pairing, o.rnd)
      && Now(cfg, trace').stream == Now(cfg, trace).stream && SameElse(Now(cfg, trace'), Now(cfg, trace))
  {
    hide Ask, P.Ask, P.ParseM2, P.Respond, P.M3Items, P.M5Items, P.GoodM4, Now;
    AskSetup(cfg, trace, P.M1_ITEMS, o);
    var (t1, m2) := Ask(cfg, trace, "/pair-setup", P.M1_ITEMS, o);
    if P.ParseM2(m2.value).Some? && P.Respond(s, P.ParseM2(m2.value).value).Some? {
      var r := P.Respond(s, P.ParseM2(m2.value).value).value;
      AskSetup(cfg, t1, P.M3Items(r), o);
      var (t2, m4) := Ask(cfg, t1, "/pair-setup", P.M3Items(r), o);
      if P.GoodM4(s, r, m4.value) {
        AskSetup(cfg, t2, P.M5Items(s, r), o);
      }
    }
  }

  lemma VerifyOverConnection(s: P.Sender, cfg: Config, trace: seq<Entry>, o: Outside)
    requires s.Valid() && cfg.Valid()
    ensures var (trace', keys) := PairVerify(s, cfg, trace, o);
      && P.Outcome(Now(cfg, trace').session.pairing, keys) == P.RunVerify(s, cfg.id, Now(cfg, trace).session.pairing, o.rnd)
      && SameElse(Now(cfg, trace'), Now(cfg, trace))
  {
    hide Ask, P.AskVerify, P.ParseV2, P.V1Items, P.V3Items, Now;
    AskVerify(cfg, trace, P.V1Items(s), o);
    var (t1, v2) := Ask(cfg, trace, "/pair-verify", P.V1Items(s), o);
    if P.ParseV2(s, v2.value).Some? {
      AskVerify(cfg, t1, P.V3Items(s, P.ParseV2(s, v2.value).value), o);
    }
  }

  /** On any connection, whatever requests came before: the pairing's messages and their replies are just
      those between the two machines. */
  lemma PairOverConnection(s: P.Sender, cfg: Config, trace: seq<Entry>, o: Outside)
    requires s.Valid() && cfg.Valid()
    ensures var (trace', keys) := Pair(s, cfg, trace, o);
      && P.Outcome(Now(cfg, trace').session.pairing, keys) == P.RunPairing(s, cfg.id, Now(cfg, trace).session.pairing, o.rnd)
      && SameElse(Now(cfg, trace'), Now(cfg, trace))
  {
    hide PairSetup, PairVerify, P.RunSetup, P.RunVerify, Now;
    SetupOverConnection(s, cfg, trace, o);
    var (t1, r) := PairSetup(s, cfg, trace, o);
    if r.Some? {
      VerifyOverConnection(s, cfg, t1, o);
    }
  }

  // ---------- the stream after pairing ----------

  /** A verify exchange that begins on a plain stream and ends verified leaves the stream encrypted, with
      the keys that the machine then holds. */
  lemma StreamAfterVerify(cfg: Config, trace: seq<Entry>, e: Entry)
    requires cfg.Valid() && Now(cfg, trace).stream == Plain && Now(cfg, trace + [e]).session.pairing.verified
    ensures var keys := Now(cfg, trace + [e]).session.pairing.session;
      Now(cfg, trace + [e]).stream == Hap(keys.readKey, keys.writeKey)
  {
    hide At, Dispatch;
    StreamStep(cfg, trace + [e], |trace| + 1);
    VerifiedIsEncrypted(cfg, trace + [e], |trace| + 1);
    AtPrefix(cfg, trace, [e], |trace|);
    assert (trace + [e])[|trace|] == e;
  }

  lemma StreamStaysPlain(cfg: Config, trace: seq<Entry>, e: Entry)
    requires cfg.Valid() && Now(cfg, trace).stream == Plain && !Now(cfg, trace + [e]).session.pairing.verified
    ensures Now(cfg, trace + [e]).stream == Plain
  {
    hide At, Dispatch;
    StreamStep(cfg, trace + [e], |trace| + 1);
    AtPrefix(cfg, trace, [e], |trace|);
  }

  /** The stream after an honest verify exchange. */
  lemma StreamAfterExchange(s: P.Sender, cfg: Config, trace: seq<Entry>, o: Outside)
    requires PR.Honest(s, cfg.id) && cfg.Valid() && Now(cfg, trace).stream == Plain
    ensures var (trace', keys) := PairVerify(s, cfg, trace, o);
      Now(cfg, trace').session.pairing.verified && keys.Some? ==>
        var held := Now(cfg, trace').session.pairing.session;
        Now(cfg, trace').stream == Hap(held.readKey, held.writeKey)
  {
    hide P.AskVerify, P.ParseV2, P.V1Items, P.V3Items, Now, R.NewVerify;
    var (t1, v2) := Ask(cfg, trace, "/pair-verify", P.V1Items(s), o);
    AskVerify(cfg, trace, P.V1Items(s), o);
    PR.AnswerV1(s, cfg.id, Now(cfg, trace).session.pairing, o.rnd);
    StreamStaysPlain(cfg, trace, t1[|trace|]);
    var a := P.ParseV2(s, v2.value).value;
    var (t2, v4) := Ask(cfg, t1, "/pair-verify", P.V3Items(s, a), o);
    if Now(cfg, t2).session.pairing.verified {
      StreamAfterVerify(cfg, t1, t2[|t1|]);
    }
  }

  /** An honest pairing over a connection, in the clear so far: it completes under exactly the conditions
      of the two machines, and then the connection is verified and its stream encrypted under the sender's
      keys, crossed. */
  lemma HonestPairing(s: P.Sender, cfg: Config, trace: seq<Entry>, o: Outside)
    requires PR.Honest(s, cfg.id) && cfg.Valid() && Now(cfg, trace).stream == Plain
    ensures var (trace', keys) := Pair(s, cfg, trace, o);
      && (keys.Some? <==>
          && !PR.Degenerate(s, cfg.id, o.rnd) && PR.ProofsMatch(s, PR.HonestResponse(s, cfg.id, o.rnd))
          && PR.NotShadowed(s, Now(cfg, trace).session.pairing, o.rnd))
      && SameElse(Now(cfg, trace'), Now(cfg, trace))
      && (keys.Some? ==>
          && Now(cfg, trace').session.pairing.verified
          && Now(cfg, trace').stream == Hap(keys.value.writeKey, keys.value.readKey)
          && var shared := s.suite.dhShared(s.dhPrivate, s.suite.dhPublic(o.rnd.dhPrivate));
          && keys.value.writeKey == s.suite.hkdf(shared, "Control-Salt", "Control-Write-Encryption-Key")
          && keys.value.readKey == s.suite.hkdf(shared, "Control-Salt", "Control-Read-Encryption-Key"))
  {
    hide PairSetup, PairVerify, P.RunPairing, P.RunSetup, P.RunVerify, Now, PR.Degenerate, PR.ProofsMatch, PR.HonestResponse, PR.NotShadowed;
    PairOverConnection(s, cfg, trace, o);
    PR.PairingCompletes(s, cfg.id, Now(cfg, trace).session.pairing, o.rnd);
    var (t1, r) := PairSetup(s, cfg, trace, o);
    SetupOverConnection(s, cfg, trace, o);
    if r.Some? {
      StreamAfterExchange(s, cfg, t1, o);
      KeysAre(s, cfg.id, Now(cfg, t1).session.pairing, o.rnd);
      VerifyOverConnection(s, cfg, t1, o);
    }
  }

  lemma KeysAre(s: P.Sender, id: R.Identity, st: R.State, rnd: R.Random)
    requires PR.Honest(s, id)
    ensures var keys := P.RunVerify(s, id, st, rnd).keys;
      keys.Some? ==>
        var shared := s.suite.dhShared(s.dhPrivate, s.suite.dhPublic(rnd.dhPrivate));
        && keys.value.writeKey == s.suite.hkdf(shared, "Control-Salt", "Control-Write-Encryption-Key")
        && keys.value.readKey == s.suite.hkdf(shared, "Control-Salt", "Control-Read-Encryption-Key")
  {
    hide P.V1Items, P.V3Items, P.ParseV2, P.AskVerify;
    PR.AnswerV1(s, id, st, rnd);
    assert s.suite.dhShared(rnd.dhPrivate, s.suite.dhPublic(s.dhPrivate)) == s.suite.dhShared(s.dhPrivate, s.suite.dhPublic(rnd.dhPrivate));
  }

  /** The first request of a pairing, byte by byte. */
  lemma FirstRequest()
    ensures T.EncodeOrdered(P.M1_ITEMS) == [0x00, 0x01, 0x00, 0x06, 0x01, 0x01]
  {
    var second := [T.Item(T.STATE, [1])];
    assert P.M1_ITEMS[1..] == second && second[1..] == [];
    assert T.EncodeOrdered(second) == T.EncodeItem(second[0]) + T.EncodeOrdered([]);
    assert T.EncodeOrdered(P.M1_ITEMS) == T.EncodeItem(P.M1_ITEMS[0]) + T.EncodeOrdered(second);
  }

  // ---------- the FairPlay handshake ----------

  lemma {:induction false} MachineBytes(s: seq<bv8>)
    ensures ToMachine(FromMachine(s)) == s
  {
    forall i | 0 <= i < |s|
      ensures ToMachine(FromMachine(s))[i] == s[i]
    {
      M.IndexRoundTrip(s[i]);
    }
  }

  /** The sender posts a record and reads the reply's. */
  ghost function Shake(cfg: Config, trace: seq<Entry>, fply: seq<bv8>, o: Outside): (seq<Entry>, Option<seq<bv8>>)
    requires cfg.Valid()
  {
    var e := Post("/fp-setup", Some("32"), FromMachine(fply), o);
    var r := Reply(cfg, trace, e);
    (trace + [e], if r.status == 200 then Some(ToMachine(r.body)) else None)
  }

  /** M1 to M4 over the connection; the sender's state afterwards, if all went well. */
  ghost function Handshake(sender: F.SenderState, cfg: Config, trace: seq<Entry>, o: Outside): (seq<Entry>, Option<F.SenderState>)
    requires sender.Valid() && cfg.Valid()
  {
    var (t1, m2) := Shake(cfg, trace, F.M1(), o);
    if m2.None? || F.SenderStep(cfg.setting, sender, m2.value).1.Err? then (t1, None)
    else
      var (sender', m3) := F.SenderStep(cfg.setting, sender, m2.value);
      var (t2, m4) := Shake(cfg, t1, m3.value, o);
      (t2, if m4.Some? && sender'.Valid() && F.Confirms(sender', m4.value) then Some(sender') else None)
  }

  ghost predicate Ready(cfg: Config, c: Control, phase: nat)
    requires cfg.Valid()
  {
    && c.session.pairing.verified
    && c.session.fairplay.Some? && OwnReceiver(cfg, c.session.fairplay.value) && c.session.fairplay.value.phase == phase
  }

  lemma ShakeM1(cfg: Config, trace: seq<Entry>, o: Outside)
    requires cfg.Valid() && Ready(cfg, Now(cfg, trace), 0)
    ensures var (trace', m2) := Shake(cfg, trace, F.M1(), o);
      && m2 == Some(F.M2(cfg.setting.tables, 3, [0, 1] + cfg.entropy))
      && Ready(cfg, Now(cfg, trace'), 1)
      && Now(cfg, trace').session.pairing == Now(cfg, trace).session.pairing && Now(cfg, trace').stream == Now(cfg, trace).stream
  {
    hide Now, Dispatch, ToMachine, FromMachine, F.M1, F.M2, TakesF3;
    var e := Post("/fp-setup", Some("32"), FromMachine(F.M1()), o);
    Next(cfg, trace, e);
    PostsTo("/fp-setup", Some("32"), FromMachine(F.M1()), o);
    MachineBytes(F.M1());
    M1Bytes();
    FairplayAnswers(cfg, Now(cfg, trace).session, e);
    MachineBytes(F.M2(cfg.setting.tables, 3, [0, 1] + cfg.entropy));
    NoKeys(cfg, Now(cfg, trace).session, e);
  }

  lemma M1Bytes()
    ensures F.M1() == [0x46, 0x50, 0x4c, 0x59, 3, 1, 1, 0, 0, 0, 0, 4, 0x02, 0x00, 0x03, 0xbb]
  {
    F.BuiltRecordIsValid(1, F.M1_PAYLOAD);
    assert F.M1()[12..16] == F.M1_PAYLOAD;
    F.AcceptedM1Is(F.M1());
  }

  /** A FairPlay request brings no keys. */
  lemma NoKeys(cfg: Config, s: Session, e: Entry)
    requires cfg.Valid() && ValidSession(s) && !IsPost(e.req, "/pair-verify") && !IsPost(e.req, "/pair-setup")
    ensures Dispatch(cfg, s, e).2.None? && Dispatch(cfg, s, e).0.pairing == s.pairing
  {
    hide RequestPath, FairplayStep, SetupStep, R.SetupStep, R.VerifyStep;
    DispatchPairing(cfg, s, e);
  }

  lemma ShakeM3(cfg: Config, trace: seq<Entry>, o: Outside, sender: F.SenderState)
    requires cfg.Valid() && Ready(cfg, Now(cfg, trace), 1) && sender.Valid()
    ensures |[0, 1] + cfg.entropy| == 128
    ensures var m3 := F.M3(cfg.setting, 3, sender.localSap, [0, 1] + cfg.entropy);
      var (trace', m4) := Shake(cfg, trace, m3, o);
      && |m3| == 164 && m4 == Some(F.M4(m3))
      && Ready(cfg, Now(cfg, trace'), 2) && Now(cfg, trace').session.fairplay.value.m3 == m3
      && Now(cfg, trace').session.pairing == Now(cfg, trace).session.pairing && Now(cfg, trace').stream == Now(cfg, trace).stream
  {
    hide Now, Dispatch, ToMachine, FromMachine, F.M3, F.M4, TakesF1, TakesF3, F.AcceptM3, F.SenderSap;
    var f := Now(cfg, trace).session.fairplay.value;
    var m3 := F.M3(cfg.setting, 3, sender.localSap, f.sap);
    var e := Post("/fp-setup", Some("32"), FromMachine(m3), o);
    Next(cfg, trace, e);
    PostsTo("/fp-setup", Some("32"), FromMachine(m3), o);
    MachineBytes(m3);
    F.ReceiverAcceptsM3(cfg.setting, f, sender.localSap, m3);
    TakenF(cfg, f, e);
    FairplayAnswers(cfg, Now(cfg, trace).session, e);
    F.M4Is(m3);
    MachineBytes(F.M4(m3));
    NoKeys(cfg, Now(cfg, trace).session, e);
    assert f.(phase := 2, m3 := m3).Valid();
  }

  /** Each side holds the other's SAP: the sender directly, the receiver in the M3 that it kept. */
  ghost predicate BothHold(cfg: Config, c: Control, sender: F.SenderState)
    requires cfg.Valid()
  {
    && Ready(cfg, c, 2)
    && sender.remoteSap == c.session.fairplay.value.sap
    && var m3 := c.session.fairplay.value.m3;
    && |m3| == 164 && m3 == sender.m3 && m3[12] == 3
    && F.SenderSap(cfg.setting.tables, m3) == sender.localSap
  }

  /** On a verified connection where no FairPlay record was taken yet, the honest handshake completes. */
  lemma HonestHandshake(sender: F.SenderState, cfg: Config, trace: seq<Entry>, o: Outside)
    requires sender.Valid() && cfg.Valid() && Ready(cfg, Now(cfg, trace), 0)
    ensures var (trace', sender') := Handshake(sender, cfg, trace, o);
      && sender'.Some? && sender'.value.localSap == sender.localSap
      && BothHold(cfg, Now(cfg, trace'), sender'.value)
      && Now(cfg, trace').stream == Now(cfg, trace).stream
  {
    hide Now, Shake, F.M2, F.M3, F.M4, F.SenderStep, F.Confirms, F.AcceptM3, F.SenderSap, OwnReceiver;
    ShakeM1(cfg, trace, o);
    var (t1, m2) := Shake(cfg, trace, F.M1(), o);
    var f := Now(cfg, t1).session.fairplay.value;
    OwnIs(cfg, f);
    F.SenderAcceptsM2(cfg.setting, sender, 3, f.sap);
    ShakeM3(cfg, t1, o, sender);
    var m3 := F.M3(cfg.setting, 3, sender.localSap, f.sap);
    F.ReceiverAcceptsM3(cfg.setting, f, sender.localSap, m3);
    var sender' := sender.(remoteSap := f.sap, m3 := m3, hasM3 := true);
    F.ConfirmsIs(sender', F.M4(m3));
    F.M4Is(m3);
    var (t2, m4) := Shake(cfg, t1, m3, o);
    OwnIs(cfg, Now(cfg, t2).session.fairplay.value);
  }

  lemma OwnIs(cfg: Config, f: F.ReceiverState)
    requires cfg.Valid() && OwnReceiver(cfg, f)
    ensures f.Valid() && f.sap == [0, 1] + cfg.entropy && f.mode == 3
  {}

  // ---------- carrying out a session ----------

  /** The requests of a session: SETUP while media endpoints can be had, and the others at any time. */
  predicate InSession(e: Entry) {
    (e.req.method_ == "SETUP" && e.outside.mediaReady) || IsControl(e.req) || IsPost(e.req, "/feedback")
  }

  ghost predicate Open(c: Control) {
    c.session.pairing.verified && (c.session.fairplay.Some? ==> c.session.fairplay.value.phase == 2)
  }

  lemma OneServed(cfg: Config, trace: seq<Entry>, e: Entry)
    requires cfg.Valid() && Open(Now(cfg, trace)) && InSession(e)
    ensures Reply(cfg, trace, e).status == 200
    ensures Open(Now(cfg, trace + [e])) && Now(cfg, trace + [e]).stream == Now(cfg, trace).stream
  {
    hide Now, Dispatch, RequestPath;
    Next(cfg, trace, e);
    SessionAnswers(cfg, Now(cfg, trace).session, e);
    ControlNoKeys(cfg, Now(cfg, trace).session, e);
  }

  lemma ControlNoKeys(cfg: Config, s: Session, e: Entry)
    requires cfg.Valid() && ValidSession(s) && InSession(e)
    ensures Dispatch(cfg, s, e).2.None?
  {
    hide RequestPath, FairplayStep, SetupStep, R.SetupStep, R.VerifyStep;
  }

  /** Every request of any session on an open connection is served, and the stream stays as it is. */
  lemma {:induction false} SessionServed(cfg: Config, trace: seq<Entry>, more: seq<Entry>)
    requires cfg.Valid() && Open(Now(cfg, trace)) && forall e | e in more :: InSession(e)
    ensures forall i | 0 <= i < |more| :: Reply(cfg, trace + more[..i], more[i]).status == 200
    ensures Open(Now(cfg, trace + more)) && Now(cfg, trace + more).stream == Now(cfg, trace).stream
    decreases |more|
  {
    hide Now, Open, InSession, Reply;
    if more == [] {
      assert trace + more == trace;
    } else {
      var n := |more| - 1;
      SessionServed(cfg, trace, more[..n]);
      assert more[n] in more;
      OneServed(cfg, trace + more[..n], more[n]);
      assert trace + more[..n] + [more[n]] == trace + more;
      assert forall i | 0 <= i < n :: more[..n][..i] == more[..i] && more[..n][i] == more[i];
    }
  }

  /** A whole session from a new connection: the pairing completes under its exact conditions, and then the
      FairPlay handshake completes, every request of any session is answered 200, and all of it after the
      pairing goes over a stream encrypted under the sender's keys. */
  lemma HonestSession(s: P.Sender, sender: F.SenderState, cfg: Config, o: Outside, more: seq<Entry>)
    requires PR.Honest(s, cfg.id) && sender.Valid() && cfg.Valid() && cfg.fairplay
    requires forall e | e in more :: InSession(e)
    ensures var (t1, keys) := Pair(s, cfg, [], o);
      && (keys.Some? <==>
          !PR.Degenerate(s, cfg.id, o.rnd) && PR.ProofsMatch(s, PR.HonestResponse(s, cfg.id, o.rnd)))
      && (keys.Some? ==>
          var (t2, sender') := Handshake(sender, cfg, t1, o);
          && sender'.Some? && BothHold(cfg, Now(cfg, t2), sender'.value)
          && (forall i | 0 <= i < |more| :: Reply(cfg, t2 + more[..i], more[i]).status == 200)
          && Now(cfg, t1).stream == Now(cfg, t2 + more).stream == Hap(keys.value.writeKey, keys.value.readKey))
  {
    hide Now, Pair, Handshake, Open, BothHold, Reply, PR.Degenerate, PR.ProofsMatch, PR.HonestResponse, PR.NotShadowed, Ready;
    NewConnection(s, cfg, o);
    HonestPairing(s, cfg, [], o);
    var (t1, keys) := Pair(s, cfg, [], o);
    if keys.Some? {
      StillFresh(cfg, Now(cfg, []), Now(cfg, t1));
      HonestHandshake(sender, cfg, t1, o);
      var (t2, sender') := Handshake(sender, cfg, t1, o);
      NowOpen(cfg, Now(cfg, t2), sender'.value);
      SessionServed(cfg, t2, more);
    }
  }

  lemma NewConnection(s: P.Sender, cfg: Config, o: Outside)
    requires cfg.Valid()
    ensures Now(cfg, []) == Start(cfg) && Now(cfg, []).stream == Plain
    ensures PR.NotShadowed(s, Now(cfg, []).session.pairing, o.rnd)
  {}

  lemma StillFresh(cfg: Config, start: Control, c: Control)
    requires cfg.Valid() && cfg.fairplay && start == Start(cfg) && SameElse(c, start) && c.session.pairing.verified
    ensures Ready(cfg, c, 0)
  {
    FreshOwn(cfg);
  }

  lemma NowOpen(cfg: Config, c: Control, sender: F.SenderState)
    requires cfg.Valid() && BothHold(cfg, c, sender)
    ensures Open(c)
  {}
}
