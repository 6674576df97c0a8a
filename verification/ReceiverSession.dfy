/** One control connection of the receiver: which requests it serves when, and when its stream becomes
    encrypted.  A run is a sequence of requests; every claim is about all runs. */
module ReceiverSession {
  import opened Bytes
  import opened Crypto
  import N = BigNat
  import F = Fpsap
  import M = FairPlayMessage
  import R = ReceiverPairing
  import T = Tlv8

  /** A parsed request; of its headers, only X-Apple-ET matters here. */
  datatype Request = Request(method_: string, uri: string, appleEt: Option<string>, body: seq<byte>)

  /** What the outside supplies while a request is handled: random bytes, whether media endpoints can
      be had, and the property list that a reply carries. */
  datatype Outside = Outside(rnd: R.Random, mediaReady: bool, plist: seq<byte>)

  datatype Entry = Entry(req: Request, outside: Outside)

  datatype Response = Response(status: nat, body: seq<byte>)

  datatype Config = Config(id: R.Identity, setting: F.Setting, pinAuth: bool, fairplay: bool, entropy: seq<bv8>) {
    ghost predicate Valid() {
      id.Valid() && setting.Valid() && |entropy| == 126
    }
  }

  datatype Session = Session(pairing: R.State, fairplay: Option<F.ReceiverState>, media: bool)

  datatype Stream = Plain | Hap(readKey: seq<byte>, writeKey: seq<byte>)

  datatype Control = Control(session: Session, stream: Stream)

  ghost predicate ValidSession(s: Session) {
    s.fairplay.Some? ==> s.fairplay.value.Valid()
  }

  // ---------- requests ----------

  const SCHEME := "rtsp://"

  function RequestPath(uri: string): string {
    if SCHEME <= uri then
      match FindSlash(uri[|SCHEME|..])
      case Some(path) => path
      case None => uri
    else uri
  }

  function FindSlash(rest: string): Option<string> {
    if rest == "" then None else if rest[0] == '/' then Some(rest) else FindSlash(rest[1..])
  }

  lemma {:induction false} SlashFound(host: string, path: string)
    requires '/' !in host && path != "" && path[0] == '/'
    ensures FindSlash(host + path) == Some(path)
    decreases |host|
  {
    if host == "" {
      assert host + path == path;
    } else {
      assert (host + path)[1..] == host[1..] + path;
      assert (host + path)[0] == host[0];
      SlashFound(host[1..], path);
    }
  }

  /** The path of an absolute URI is what follows the host; any other URI is its own path. */
  lemma PathIs(host: string, path: string)
    requires '/' !in host && path != "" && path[0] == '/'
    ensures RequestPath("rtsp://" + host + path) == path && RequestPath(path) == path
  {
    var uri := "rtsp://" + host + path;
    assert uri[|SCHEME|..] == host + path;
    assert SCHEME <= uri;
    SlashFound(host, path);
  }

  predicate IsPost(req: Request, path: string) {
    req.method_ == "POST" && RequestPath(req.uri) == path
  }

  predicate IsSessionRequest(req: Request) {
    req.method_ in {"SETUP", "RECORD", "SET_PARAMETER", "TEARDOWN"} || IsPost(req, "/fp-setup") || IsPost(req, "/feedback")
  }

  /** The handshake works on machine bytes. */
  function ToMachine(s: seq<byte>): seq<bv8> {
    seq(|s|, i requires 0 <= i < |s| => s[i] as bv8)
  }

  function FromMachine(s: seq<bv8>): seq<byte> {
    seq(|s|, i requires 0 <= i < |s| => s[i] as int)
  }

  ghost function FairplayStep(cfg: Config, s: Session, req: Request): (Session, Response)
    requires cfg.Valid() && ValidSession(s)
  {
    if s.fairplay.None? || s.fairplay.value.phase == 2 then (s, Response(404, []))
    else if req.appleEt != Some("32") then (s, Response(400, []))
    else
      var (f, r) := F.ReceiverStep(cfg.setting, s.fairplay.value, ToMachine(req.body));
      (s.(fairplay := Some(f)), if r.Ok? then Response(200, FromMachine(r.value)) else Response(400, []))
  }

  function SetupStep(s: Session, o: Outside): (Session, Response) {
    if s.fairplay.Some? && s.fairplay.value.phase != 2 then (s, Response(455, []))
    else if !s.media && !o.mediaReady then (s, Response(500, []))
    else (s.(media := true), Response(200, o.plist))
  }

  ghost function Dispatch(cfg: Config, s: Session, e: Entry): (Session, Response, Option<R.SessionKeys>)
    requires cfg.Valid() && ValidSession(s)
  {
    var req := e.req;
    if IsSessionRequest(req) && !s.pairing.verified then (s, Response(455, []), None)
    else if req.method_ == "GET" && RequestPath(req.uri) == "/info" then (s, Response(200, e.outside.plist), None)
    else if IsPost(req, "/pair-pin-start") then (s, Response(if cfg.pinAuth then 200 else 453, []), None)
    else if IsPost(req, "/pair-setup") then
      var (p, body) := R.SetupStep(cfg.id, s.pairing, req.body, e.outside.rnd);
      (s.(pairing := p), Response(200, body), None)
    else if IsPost(req, "/pair-verify") then
      var (p, body, keys) := R.VerifyStep(cfg.id, s.pairing, req.body, e.outside.rnd);
      (s.(pairing := p), Response(200, body), keys)
    else if IsPost(req, "/fp-setup") then
      var (s', r) := FairplayStep(cfg, s, req);
      (s', r, None)
    else if req.method_ == "SETUP" then
      var (s', r) := SetupStep(s, e.outside);
      (s', r, None)
    else if req.method_ in {"RECORD", "SET_PARAMETER", "TEARDOWN"} then (s, Response(200, []), None)
    else if IsPost(req, "/feedback") then (s, Response(200, e.outside.plist), None)
    else (s, Response(404, []), None)
  }

  function EnableHap(stream: Stream, keys: Option<R.SessionKeys>): Stream {
    match keys
    case None => stream
    case Some(k) => if stream.Plain? then Hap(k.readKey, k.writeKey) else stream
  }

  /** One turn of the control loop; the reply goes out before the stream changes. */
  ghost function Step(cfg: Config, c: Control, e: Entry): (Control, Response)
    requires cfg.Valid() && ValidSession(c.session)
  {
    var (s, r, keys) := Dispatch(cfg, c.session, e);
    (Control(s, EnableHap(c.stream, keys)), r)
  }

  function Start(cfg: Config): Control
    requires |cfg.entropy| == 126
  {
    Control(Session(R.FRESH, if cfg.fairplay then Some(F.FreshReceiver(cfg.entropy)) else None, false), Plain)
  }

  lemma StartIsValid(cfg: Config)
    requires cfg.Valid()
    ensures ValidSession(Start(cfg).session)
  {}

  lemma DispatchKeepsValid(cfg: Config, s: Session, e: Entry)
    requires cfg.Valid() && ValidSession(s)
    ensures ValidSession(Dispatch(cfg, s, e).0)
  {
    hide F.ReceiverStep, R.SetupStep, R.VerifyStep, RequestPath, F.ReceiverState.Valid;
    if s.fairplay.Some? {
      F.RequestCases(cfg.setting, s.fairplay.value, ToMachine(e.req.body));
    }
  }

  /** The connection after the first n requests. */
  ghost function At(cfg: Config, trace: seq<Entry>, n: nat): (c: Control)
    requires cfg.Valid() && n <= |trace|
    ensures ValidSession(c.session)
    decreases n
  {
    if n == 0 then
      StartIsValid(cfg);
      Start(cfg)
    else
      var before := At(cfg, trace, n - 1);
      DispatchKeepsValid(cfg, before.session, trace[n - 1]);
      Step(cfg, before, trace[n - 1]).0
  }

  ghost function Status(cfg: Config, trace: seq<Entry>, n: nat): nat
    requires cfg.Valid() && n < |trace|
  {
    Step(cfg, At(cfg, trace, n), trace[n]).1.status
  }

  // ---------- what a request achieves ----------

  predicate TakesM1(cfg: Config, e: Entry) {
    && IsPost(e.req, "/pair-setup") && |e.req.body| != 32
    && R.StateOf(T.Decode(e.req.body)) == Some(1) && R.AcceptM1(cfg.id, T.Decode(e.req.body)).Some?
  }

  predicate TakesLegacy(cfg: Config, e: Entry) {
    IsPost(e.req, "/pair-setup") && |e.req.body| == 32 && cfg.id.pin == []
  }

  predicate TakesM3(cfg: Config, p: R.State, e: Entry)
    requires cfg.id.Valid()
  {
    && IsPost(e.req, "/pair-setup") && |e.req.body| != 32
    && R.StateOf(T.Decode(e.req.body)) == Some(3)
    && p.setup.Some? && p.setup.value.sharedKey.None? && R.AcceptM3(cfg.id, p.setup.value, T.Decode(e.req.body))
  }

  function TakesM5(cfg: Config, p: R.State, e: Entry): Option<R.Registration> {
    if IsPost(e.req, "/pair-setup") && |e.req.body| != 32 && R.StateOf(T.Decode(e.req.body)) == Some(5)
       && p.setup.Some? && p.setup.value.sharedKey.Some?
    then R.AcceptM5(cfg.id.suite, p.setup.value.sharedKey.value, T.Decode(e.req.body)) else None
  }

  predicate TakesV1(e: Entry) {
    && IsPost(e.req, "/pair-verify")
    && R.StateOf(T.Decode(e.req.body)) == Some(1) && R.HasSize(T.Decode(e.req.body), T.PUBLIC_KEY, 32)
  }

  function TakesV3(cfg: Config, p: R.State, e: Entry): Option<R.Registration> {
    if IsPost(e.req, "/pair-verify") && R.StateOf(T.Decode(e.req.body)) == Some(3) && p.verify.Some?
    then R.AcceptV3(cfg.id.suite, p, p.verify.value, T.Decode(e.req.body)) else None
  }

  predicate StartsSetup(cfg: Config, e: Entry) {
    TakesM1(cfg, e) || TakesLegacy(cfg, e)
  }

  predicate Resets(cfg: Config, e: Entry) {
    StartsSetup(cfg, e) || TakesV1(e)
  }

  ghost function PairingAfter(cfg: Config, p: R.State, e: Entry): R.State
    requires cfg.Valid()
  {
    if IsPost(e.req, "/pair-setup") then R.SetupStep(cfg.id, p, e.req.body, e.outside.rnd).0
    else if IsPost(e.req, "/pair-verify") then R.VerifyStep(cfg.id, p, e.req.body, e.outside.rnd).0
    else p
  }

  lemma DispatchPairing(cfg: Config, s: Session, e: Entry)
    requires cfg.Valid() && ValidSession(s)
    ensures Dispatch(cfg, s, e).0.pairing == PairingAfter(cfg, s.pairing, e)
  {
    hide F.ReceiverStep, R.SetupStep, R.VerifyStep, RequestPath;
  }

  lemma AfterLegacy(cfg: Config, p: R.State, e: Entry)
    requires cfg.Valid() && TakesLegacy(cfg, e)
    ensures PairingAfter(cfg, p, e) == R.Reset(p)
  {
    hide RequestPath, R.Reset, R.StepM1, R.StepM3, R.StepM5, R.VerifyStep, R.StateOf, R.ErrorReply;
  }

  lemma AfterM1(cfg: Config, p: R.State, e: Entry)
    requires cfg.Valid() && TakesM1(cfg, e)
    ensures PairingAfter(cfg, p, e)
      == R.Reset(p).(setup := Some(R.NewSetup(cfg.id, R.AcceptM1(cfg.id, T.Decode(e.req.body)).value, e.outside.rnd)))
  {
    hide RequestPath, T.Decode, R.Reset, R.StepM3, R.StepM5, R.VerifyStep, R.StateOf, R.ErrorReply, R.AcceptM1, R.NewSetup, R.M2;
  }

  lemma AfterM3(cfg: Config, p: R.State, e: Entry)
    requires cfg.Valid() && TakesM3(cfg, p, e)
    ensures var key := R.ServerKey(cfg.id, p.setup.value, T.Decode(e.req.body)[T.PUBLIC_KEY]);
      PairingAfter(cfg, p, e) == p.(setup := Some(p.setup.value.(sharedKey := Some(key))))
  {
    hide RequestPath, T.Decode, R.StepM1, R.StepM5, R.VerifyStep, R.StateOf, R.ErrorReply, R.ServerKey, R.WantedProof;
  }

  lemma AfterM5(cfg: Config, p: R.State, e: Entry)
    requires cfg.Valid() && TakesM5(cfg, p, e).Some?
    ensures PairingAfter(cfg, p, e)
      == R.Register(cfg.id, p, p.setup.value.isTransient, TakesM5(cfg, p, e).value).(setup := None)
  {
    hide RequestPath, T.Decode, R.StepM1, R.StepM3, R.VerifyStep, R.StateOf, R.ErrorReply, R.AcceptM5, R.M6, R.Register;
  }

  lemma AfterV1(cfg: Config, p: R.State, e: Entry)
    requires cfg.Valid() && TakesV1(e)
    ensures var v := R.NewVerify(cfg.id.suite, T.Decode(e.req.body)[T.PUBLIC_KEY], e.outside.rnd.dhPrivate);
      PairingAfter(cfg, p, e) == R.ResetVerify(p).(verify := Some(v))
  {
    hide RequestPath, T.Decode, R.SetupStep, R.StepV3, R.StateOf, R.ErrorReply, R.NewVerify, R.V2;
  }

  lemma AfterV3(cfg: Config, p: R.State, e: Entry)
    requires cfg.Valid() && TakesV3(cfg, p, e).Some?
    ensures PairingAfter(cfg, p, e)
      == p.(session := R.ReceiverKeys(cfg.id.suite, p.verify.value.sharedSecret), verified := true, verify := None)
  {
    hide RequestPath, T.Decode, R.SetupStep, R.StepV1, R.StateOf, R.ErrorReply, R.AcceptV3, R.ReceiverKeys;
  }

  predicate Refused(cfg: Config, p: R.State, e: Entry)
    requires cfg.id.Valid()
  {
    !Resets(cfg, e) && !TakesM3(cfg, p, e) && TakesM5(cfg, p, e).None? && TakesV3(cfg, p, e).None?
  }

  lemma M3Refused(id: R.Identity, p: R.State, msg: T.Fields)
    requires id.Valid() && !(p.setup.Some? && p.setup.value.sharedKey.None? && R.AcceptM3(id, p.setup.value, msg))
    ensures R.StepM3(id, p, msg).0 == p || R.StepM3(id, p, msg).0 == p.(setup := None)
  {
    hide R.AcceptM3, R.ErrorReply;
  }

  lemma M5Refused(id: R.Identity, p: R.State, msg: T.Fields)
    requires p.setup.Some? && p.setup.value.sharedKey.Some? ==> R.AcceptM5(id.suite, p.setup.value.sharedKey.value, msg).None?
    ensures R.StepM5(id, p, msg).0 == p || R.StepM5(id, p, msg).0 == p.(setup := None)
  {
    hide R.AcceptM5, R.ErrorReply;
  }

  lemma SetupRefused(cfg: Config, p: R.State, e: Entry)
    requires cfg.Valid() && Refused(cfg, p, e) && IsPost(e.req, "/pair-setup")
    ensures PairingAfter(cfg, p, e) == p || PairingAfter(cfg, p, e) == p.(setup := None)
  {
    hide RequestPath, T.Decode, R.VerifyStep, R.StateOf, R.ErrorReply, R.AcceptM1, R.AcceptM3, R.AcceptM5, R.StepM3, R.StepM5, R.NewSetup;
    var msg := T.Decode(e.req.body);
    if |e.req.body| != 32 {
      match R.StateOf(msg)
      case Some(1) =>
      case Some(3) => M3Refused(cfg.id, p, msg);
      case Some(5) => M5Refused(cfg.id, p, msg);
      case _ =>
    }
  }

  lemma VerifyRefused(cfg: Config, p: R.State, e: Entry)
    requires cfg.Valid() && Refused(cfg, p, e) && IsPost(e.req, "/pair-verify")
    ensures PairingAfter(cfg, p, e) == p || PairingAfter(cfg, p, e) == p.(verify := None)
  {
    hide RequestPath, T.Decode, R.SetupStep, R.StateOf, R.ErrorReply, R.AcceptV3, R.NewVerify, R.V2, R.ReceiverKeys;
  }

  /** A request that is not accepted at most drops the exchange it belongs to. */
  lemma AfterRefused(cfg: Config, p: R.State, e: Entry)
    requires cfg.Valid() && Refused(cfg, p, e)
    ensures PairingAfter(cfg, p, e) in {p, p.(setup := None), p.(verify := None)}
  {
    hide Refused, RequestPath, R.SetupStep, R.VerifyStep;
    if IsPost(e.req, "/pair-setup") {
      SetupRefused(cfg, p, e);
    } else if IsPost(e.req, "/pair-verify") {
      VerifyRefused(cfg, p, e);
    }
  }

  /** At most one of the messages can be taken. */
  lemma OneMessage(cfg: Config, p: R.State, e: Entry)
    requires cfg.Valid()
    ensures TakesLegacy(cfg, e) ==> !TakesM1(cfg, e)
    ensures TakesM3(cfg, p, e) ==> !Resets(cfg, e) && TakesM5(cfg, p, e).None? && TakesV3(cfg, p, e).None?
    ensures TakesM5(cfg, p, e).Some? ==> !Resets(cfg, e) && TakesV3(cfg, p, e).None?
    ensures TakesV1(e) ==> !StartsSetup(cfg, e)
    ensures TakesV3(cfg, p, e).Some? ==> !Resets(cfg, e)
  {
    hide RequestPath, T.Decode, R.StateOf, R.AcceptM1, R.AcceptM3, R.AcceptM5, R.AcceptV3;
  }

  /** The states that one request can lead to. */
  lemma PairingCases(cfg: Config, p: R.State, e: Entry)
    requires cfg.Valid()
    ensures var p' := PairingAfter(cfg, p, e);
      if TakesLegacy(cfg, e) then p' == R.Reset(p)
      else if TakesM1(cfg, e) then
        p' == R.Reset(p).(setup := Some(R.NewSetup(cfg.id, R.AcceptM1(cfg.id, T.Decode(e.req.body)).value, e.outside.rnd)))
      else if TakesM3(cfg, p, e) then
        p' == p.(setup := Some(p.setup.value.(sharedKey :=
          Some(R.ServerKey(cfg.id, p.setup.value, T.Decode(e.req.body)[T.PUBLIC_KEY])))))
      else if TakesM5(cfg, p, e).Some? then
        p' == R.Register(cfg.id, p, p.setup.value.isTransient, TakesM5(cfg, p, e).value).(setup := None)
      else if TakesV1(e) then
        p' == R.ResetVerify(p).(verify := Some(R.NewVerify(cfg.id.suite, T.Decode(e.req.body)[T.PUBLIC_KEY], e.outside.rnd.dhPrivate)))
      else if TakesV3(cfg, p, e).Some? then
        p' == p.(session := R.ReceiverKeys(cfg.id.suite, p.verify.value.sharedSecret), verified := true, verify := None)
      else p' in {p, p.(setup := None), p.(verify := None)}
  {
    hide PairingAfter, TakesLegacy, RequestPath, T.Decode;
    hide R.Reset, R.ResetVerify, R.NewSetup, R.NewVerify, R.Register, R.ReceiverKeys;
    hide R.AcceptM1, R.AcceptM3, R.AcceptM5, R.AcceptV3;
    if TakesLegacy(cfg, e) {
      AfterLegacy(cfg, p, e);
    } else if TakesM1(cfg, e) {
      AfterM1(cfg, p, e);
    } else if TakesM3(cfg, p, e) {
      AfterM3(cfg, p, e);
    } else if TakesM5(cfg, p, e).Some? {
      AfterM5(cfg, p, e);
    } else if TakesV1(e) {
      AfterV1(cfg, p, e);
    } else if TakesV3(cfg, p, e).Some? {
      AfterV3(cfg, p, e);
    } else {
      AfterRefused(cfg, p, e);
    }
  }

  /** Where a pending setup comes from. */
  lemma SetupAfter(cfg: Config, p: R.State, e: Entry)
    requires cfg.Valid() && PairingAfter(cfg, p, e).setup.Some?
    ensures var p' := PairingAfter(cfg, p, e);
      || (TakesM1(cfg, e)
          && p'.setup.value == R.NewSetup(cfg.id, R.AcceptM1(cfg.id, T.Decode(e.req.body)).value, e.outside.rnd)
          && p'.setup.value.sharedKey.None?)
      || (!StartsSetup(cfg, e) && TakesM3(cfg, p, e)
          && p'.setup.value == p.setup.value.(sharedKey :=
               Some(R.ServerKey(cfg.id, p.setup.value, T.Decode(e.req.body)[T.PUBLIC_KEY]))))
      || (!StartsSetup(cfg, e) && p.setup == p'.setup)
  {
    hide PairingAfter, TakesLegacy, TakesM1, TakesM3, TakesM5, TakesV1, TakesV3, R.NewVerify, R.ReceiverKeys;
    hide R.NewSetup, R.ServerKey;
    PairingCases(cfg, p, e);
    OneMessage(cfg, p, e);
    if TakesM1(cfg, e) {
      R.NewSetupHasNoKey(cfg.id, e.outside.rnd);
    }
  }

  predicate Has(p: R.State, name: seq<byte>, key: seq<byte>) {
    (name in p.transients && p.transients[name] == key) || (name in p.controllers && p.controllers[name] == key)
  }

  /** Where a registered key comes from. */
  lemma KeysAfter(cfg: Config, p: R.State, e: Entry, name: seq<byte>, key: seq<byte>)
    requires cfg.Valid() && Has(PairingAfter(cfg, p, e), name, key)
    ensures Has(p, name, key)
      || (TakesM5(cfg, p, e).Some? && cfg.id.suite.lossyText(TakesM5(cfg, p, e).value.identifier) == name
          && TakesM5(cfg, p, e).value.publicKey == key)
  {
    hide PairingAfter, TakesLegacy, TakesM1, TakesM3, TakesM5, TakesV1, TakesV3, R.NewVerify, R.NewSetup, R.ReceiverKeys;
    PairingCases(cfg, p, e);
    OneMessage(cfg, p, e);
  }

  /** Where a pending verify exchange comes from. */
  lemma VerifyAfter(cfg: Config, p: R.State, e: Entry)
    requires cfg.Valid() && PairingAfter(cfg, p, e).verify.Some?
    ensures var v := PairingAfter(cfg, p, e).verify.value;
      || (TakesV1(e) && v == R.NewVerify(cfg.id.suite, T.Decode(e.req.body)[T.PUBLIC_KEY], e.outside.rnd.dhPrivate))
      || (!Resets(cfg, e) && p.verify == Some(v))
  {
    hide PairingAfter, TakesLegacy, TakesM1, TakesM3, TakesM5, TakesV1, TakesV3, R.NewVerify, R.NewSetup, R.ReceiverKeys;
    PairingCases(cfg, p, e);
    OneMessage(cfg, p, e);
  }

  /** Where being verified comes from. */
  lemma VerifiedAfter(cfg: Config, p: R.State, e: Entry)
    requires cfg.Valid() && R.Consistent(p)
    ensures R.Consistent(PairingAfter(cfg, p, e))
    ensures TakesV3(cfg, p, e).Some? ==>
      var p' := PairingAfter(cfg, p, e);
      && !p.verified && p'.verified && !Resets(cfg, e)
      && p'.session == R.ReceiverKeys(cfg.id.suite, p.verify.value.sharedSecret)
    ensures PairingAfter(cfg, p, e).verified && TakesV3(cfg, p, e).None? ==>
      p.verified && !Resets(cfg, e) && PairingAfter(cfg, p, e).session == p.session
    ensures p.verified && !Resets(cfg, e) ==> PairingAfter(cfg, p, e).verified
  {
    hide PairingAfter, TakesLegacy, TakesM1, TakesM3, TakesM5, TakesV1, R.NewVerify, R.NewSetup, R.AcceptV3;
    PairingCases(cfg, p, e);
    OneMessage(cfg, p, e);
  }

  // ---------- what a run's state says about its past ----------

  ghost function PairingAt(cfg: Config, trace: seq<Entry>, n: nat): R.State
    requires cfg.Valid() && n <= |trace|
  {
    At(cfg, trace, n).session.pairing
  }

  lemma PairingStep(cfg: Config, trace: seq<Entry>, n: nat)
    requires cfg.Valid() && 0 < n <= |trace|
    ensures PairingAt(cfg, trace, n) == PairingAfter(cfg, PairingAt(cfg, trace, n - 1), trace[n - 1])
  {
    hide Dispatch, PairingAfter, EnableHap;
    DispatchPairing(cfg, At(cfg, trace, n - 1).session, trace[n - 1]);
  }

  lemma PairingStart(cfg: Config, trace: seq<Entry>)
    requires cfg.Valid()
    ensures PairingAt(cfg, trace, 0) == R.FRESH
  {}

  ghost predicate NoSetupIn(cfg: Config, trace: seq<Entry>, from: nat, to: nat)
    requires to <= |trace|
  {
    forall i | from <= i < to :: !StartsSetup(cfg, trace[i])
  }

  ghost predicate NoResetIn(cfg: Config, trace: seq<Entry>, from: nat, to: nat)
    requires to <= |trace|
  {
    forall i | from <= i < to :: !Resets(cfg, trace[i])
  }

  /** The setup is the one that this M1 began, whatever became of its key. */
  ghost predicate BeganBy(cfg: Config, setup: R.SrpSetup, m1: Entry)
    requires cfg.Valid()
  {
    && TakesM1(cfg, m1)
    && setup.(sharedKey := None) == R.NewSetup(cfg.id, R.AcceptM1(cfg.id, T.Decode(m1.req.body)).value, m1.outside.rnd)
  }

  /** An M1 and an M3 were taken, the M3 in the exchange that the M1 began.  The M3's public value and
      proof are right for the configured PIN, and the shared key is the one they prove. */
  ghost predicate ProofChain(cfg: Config, trace: seq<Entry>, n: nat, m1: nat, m3: nat)
    requires cfg.Valid() && n <= |trace|
  {
    && m1 < m3 < n && TakesM1(cfg, trace[m1]) && TakesM3(cfg, PairingAt(cfg, trace, m3), trace[m3])
    && NoSetupIn(cfg, trace, m1 + 1, n)
    && var setup := PairingAt(cfg, trace, n).setup;
    && setup.Some? && setup.value.sharedKey.Some?
    && ProvesPinIn(cfg, trace[m1], trace[m3], setup.value.sharedKey.value)
  }

  ghost predicate ProvesPinIn(cfg: Config, m1: Entry, m3: Entry, key: seq<byte>)
    requires cfg.Valid()
  {
    var rnd, msg := m1.outside.rnd, T.Decode(m3.req.body);
    && 0x03 in msg && 0x04 in msg
    && R.ProvesPin(cfg.id, cfg.id.pin, rnd.salt, N.FromBytes(rnd.b), msg[0x03], msg[0x04], key)
  }

  lemma {:induction false} SetupHasM1(cfg: Config, trace: seq<Entry>, n: nat) returns (m1: nat)
    requires cfg.Valid() && n <= |trace| && PairingAt(cfg, trace, n).setup.Some?
    ensures m1 < n && TakesM1(cfg, trace[m1]) && NoSetupIn(cfg, trace, m1 + 1, n)
    ensures BeganBy(cfg, PairingAt(cfg, trace, n).setup.value, trace[m1])
    decreases n
  {
    hide At, PairingAfter, TakesM1, TakesM3, StartsSetup, R.NewSetup, R.ServerKey;
    PairingStart(cfg, trace);
    if n == 0 {
      assert false;
    } else {
      PairingStep(cfg, trace, n);
      SetupAfter(cfg, PairingAt(cfg, trace, n - 1), trace[n - 1]);
      var setup := PairingAt(cfg, trace, n).setup.value;
      if TakesM1(cfg, trace[n - 1]) {
        m1 := n - 1;
        assert !(!StartsSetup(cfg, trace[n - 1])) by { SetupStarts(cfg, trace[n - 1]); }
        assert setup == setup.(sharedKey := None);
      } else {
        assert PairingAt(cfg, trace, n - 1).setup.Some? by { TakenM3(cfg, PairingAt(cfg, trace, n - 1), trace[n - 1]); }
        m1 := SetupHasM1(cfg, trace, n - 1);
      }
    }
  }

  lemma TakenM3(cfg: Config, p: R.State, e: Entry)
    requires cfg.Valid()
    ensures TakesM3(cfg, p, e) ==> p.setup.Some? && p.setup.value.sharedKey.None? && T.PUBLIC_KEY in T.Decode(e.req.body)
  {}

  /** The key that an M3 leaves is proved for the PIN of the M1 before it. */
  lemma M3ProvesPin(cfg: Config, p: R.State, m1: Entry, m3: Entry)
    requires cfg.Valid() && TakesM3(cfg, p, m3) && BeganBy(cfg, p.setup.value, m1)
    ensures T.PUBLIC_KEY in T.Decode(m3.req.body)
    ensures ProvesPinIn(cfg, m1, m3, R.ServerKey(cfg.id, p.setup.value, T.Decode(m3.req.body)[T.PUBLIC_KEY]))
  {
    hide T.Decode, R.ServerKey, R.NewSetup, R.ProvesPin, R.ProvesSecret, R.AcceptM3, RequestPath, R.StateOf;
    var msg := T.Decode(m3.req.body);
    var setup := p.setup.value;
    R.AcceptM3Is(cfg.id, setup, msg);
    var isTransient := R.AcceptM1(cfg.id, T.Decode(m1.req.body)).value;
    R.NewSetupHasNoKey(cfg.id, m1.outside.rnd);
    assert setup == setup.(sharedKey := None);
    R.NewSetupProves(cfg.id, isTransient, m1.outside.rnd, msg[0x03], msg[0x04], R.ServerKey(cfg.id, setup, msg[0x03]));
  }

  lemma {:induction false} SharedKeyHasProof(cfg: Config, trace: seq<Entry>, n: nat) returns (m1: nat, m3: nat)
    requires cfg.Valid() && n <= |trace|
    requires PairingAt(cfg, trace, n).setup.Some? && PairingAt(cfg, trace, n).setup.value.sharedKey.Some?
    ensures ProofChain(cfg, trace, n, m1, m3)
    decreases n
  {
    hide At, PairingAfter, TakesM1, TakesM3, StartsSetup, R.NewSetup, R.ServerKey, ProvesPinIn, BeganBy;
    PairingStart(cfg, trace);
    if n == 0 {
      assert false;
    } else {
      PairingStep(cfg, trace, n);
      SetupAfter(cfg, PairingAt(cfg, trace, n - 1), trace[n - 1]);
      if TakesM3(cfg, PairingAt(cfg, trace, n - 1), trace[n - 1]) {
        TakenM3(cfg, PairingAt(cfg, trace, n - 1), trace[n - 1]);
        m1 := SetupHasM1(cfg, trace, n - 1);
        m3 := n - 1;
        assert !StartsSetup(cfg, trace[n - 1]) by { OneMessage(cfg, PairingAt(cfg, trace, n - 1), trace[n - 1]); }
        M3ProvesPin(cfg, PairingAt(cfg, trace, n - 1), trace[m1], trace[m3]);
        SetupStarts(cfg, trace[n - 1]);
      } else {
        SetupStarts(cfg, trace[n - 1]);
        m1, m3 := SharedKeyHasProof(cfg, trace, n - 1);
      }
    }
  }

  lemma SetupStarts(cfg: Config, e: Entry)
    ensures TakesM1(cfg, e) ==> StartsSetup(cfg, e)
  {}

  /** M1, M3 and M5 of one exchange were taken, and the M5 registered this key under this name: it opens
      under the key that the M3 proved and carries the registered key's signature. */
  ghost predicate KeyChain(cfg: Config, trace: seq<Entry>, n: nat, name: seq<byte>, key: seq<byte>, m1: nat, m3: nat, m5: nat)
    requires cfg.Valid() && n <= |trace|
  {
    && m5 < n && ProofChain(cfg, trace, m5, m1, m3)
    && var r := TakesM5(cfg, PairingAt(cfg, trace, m5), trace[m5]);
    && r.Some? && cfg.id.suite.lossyText(r.value.identifier) == name && r.value.publicKey == key
    && R.SignedM5(cfg.id.suite, PairingAt(cfg, trace, m5).setup.value.sharedKey.value, T.Decode(trace[m5].req.body), r.value)
  }

  lemma {:induction false} KeyHasChain(cfg: Config, trace: seq<Entry>, n: nat, name: seq<byte>, key: seq<byte>)
    returns (m1: nat, m3: nat, m5: nat)
    requires cfg.Valid() && n <= |trace| && Has(PairingAt(cfg, trace, n), name, key)
    ensures KeyChain(cfg, trace, n, name, key, m1, m3, m5)
    decreases n
  {
    hide At, PairingAfter, TakesM5, ProofChain, R.SignedM5;
    PairingStart(cfg, trace);
    if n == 0 {
      assert false;
    } else {
      PairingStep(cfg, trace, n);
      var p := PairingAt(cfg, trace, n - 1);
      if Has(p, name, key) {
        m1, m3, m5 := KeyHasChain(cfg, trace, n - 1, name, key);
      } else {
        KeysAfter(cfg, p, trace[n - 1], name, key);
        TakenM5(cfg, p, trace[n - 1]);
        m1, m3 := SharedKeyHasProof(cfg, trace, n - 1);
        m5 := n - 1;
      }
    }
  }

  lemma TakenM5(cfg: Config, p: R.State, e: Entry)
    requires cfg.Valid()
    ensures TakesM5(cfg, p, e).Some? ==>
      && p.setup.Some? && p.setup.value.sharedKey.Some?
      && R.SignedM5(cfg.id.suite, p.setup.value.sharedKey.value, T.Decode(e.req.body), TakesM5(cfg, p, e).value)
  {
    hide T.Decode, R.AcceptM5, R.SignedM5, RequestPath;
    var r := TakesM5(cfg, p, e);
    if r.Some? {
      R.AcceptM5Is(cfg.id.suite, p.setup.value.sharedKey.value, T.Decode(e.req.body), r.value);
    }
  }

  /** The pending exchange is the one that this V1 began, and nothing reset it since. */
  ghost predicate Pending(cfg: Config, trace: seq<Entry>, n: nat, v1: nat)
    requires cfg.Valid() && n <= |trace|
  {
    && v1 < n && TakesV1(trace[v1]) && NoResetIn(cfg, trace, v1 + 1, n)
    && PairingAt(cfg, trace, n).verify
      == Some(R.NewVerify(cfg.id.suite, T.Decode(trace[v1].req.body)[T.PUBLIC_KEY], trace[v1].outside.rnd.dhPrivate))
  }

  lemma {:induction false} VerifyHasV1(cfg: Config, trace: seq<Entry>, n: nat) returns (v1: nat)
    requires cfg.Valid() && n <= |trace| && PairingAt(cfg, trace, n).verify.Some?
    ensures Pending(cfg, trace, n, v1)
    decreases n
  {
    hide At, PairingAfter, Resets, R.NewVerify;
    PairingStart(cfg, trace);
    if n == 0 {
      assert false;
    } else {
      PairingStep(cfg, trace, n);
      VerifyAfter(cfg, PairingAt(cfg, trace, n - 1), trace[n - 1]);
      if PairingAt(cfg, trace, n - 1).verify == PairingAt(cfg, trace, n).verify && !Resets(cfg, trace[n - 1]) {
        v1 := VerifyHasV1(cfg, trace, n - 1);
      } else {
        v1 := n - 1;
      }
    }
  }

  /** Verified and pending never go together, in any run. */
  lemma {:induction false} AlwaysConsistent(cfg: Config, trace: seq<Entry>, n: nat)
    requires cfg.Valid() && n <= |trace|
    ensures R.Consistent(PairingAt(cfg, trace, n))
    decreases n
  {
    hide PairingAfter;
    if n > 0 {
      AlwaysConsistent(cfg, trace, n - 1);
      PairingStep(cfg, trace, n);
      VerifiedAfter(cfg, PairingAt(cfg, trace, n - 1), trace[n - 1]);
    }
  }

  /** A V3 was taken that proves possession of this key in the exchange of this V1: it carries the key's
      signature of both public values and the name.  Nothing reset it since, and the session keys are that
      exchange's. */
  ghost predicate VerifyChain(cfg: Config, trace: seq<Entry>, n: nat, r: R.Registration, v1: nat, v3: nat)
    requires cfg.Valid() && n <= |trace|
  {
    && v3 < n && Pending(cfg, trace, v3, v1) && NoResetIn(cfg, trace, v1 + 1, n)
    && TakesV3(cfg, PairingAt(cfg, trace, v3), trace[v3]) == Some(r)
    && SignedInExchange(cfg, PairingAt(cfg, trace, v3), trace[v1], trace[v3], r)
    && PairingAt(cfg, trace, n).session
      == R.ReceiverKeys(cfg.id.suite, PairingAt(cfg, trace, v3).verify.value.sharedSecret)
  }

  /** The V3's signature is good for the public value in the V1 and the one drawn for it. */
  ghost predicate SignedInExchange(cfg: Config, p: R.State, v1: Entry, v3: Entry, r: R.Registration) {
    var c, msg := cfg.id.suite, T.Decode(v1.req.body);
    && 0x03 in msg
    && var shared := c.dhShared(v1.outside.rnd.dhPrivate, msg[0x03]);
    && R.SignedV3(c, p,
         R.HapVerify(msg[0x03], c.dhPublic(v1.outside.rnd.dhPrivate), shared,
                     c.hkdf(shared, "Pair-Verify-Encrypt-Salt", "Pair-Verify-Encrypt-Info")),
         T.Decode(v3.req.body), r)
  }

  lemma TakenV3Signed(cfg: Config, p: R.State, v1: Entry, v3: Entry)
    requires cfg.Valid() && TakesV3(cfg, p, v3).Some? && TakesV1(v1)
    requires p.verify == Some(R.NewVerify(cfg.id.suite, T.Decode(v1.req.body)[T.PUBLIC_KEY], v1.outside.rnd.dhPrivate))
    ensures SignedInExchange(cfg, p, v1, v3, TakesV3(cfg, p, v3).value)
  {
    hide T.Decode, R.AcceptV3, R.SignedV3, R.NewVerify, RequestPath;
    R.AcceptV3Is(cfg.id.suite, p, p.verify.value, T.Decode(v3.req.body), TakesV3(cfg, p, v3).value);
    R.NewVerifyIs(cfg.id.suite, T.Decode(v1.req.body)[T.PUBLIC_KEY], v1.outside.rnd.dhPrivate);
  }

  lemma {:induction false} VerifiedHasV3(cfg: Config, trace: seq<Entry>, n: nat) returns (r: R.Registration, v1: nat, v3: nat)
    requires cfg.Valid() && n <= |trace| && PairingAt(cfg, trace, n).verified
    ensures VerifyChain(cfg, trace, n, r, v1, v3)
    decreases n
  {
    hide At, PairingAfter, Resets, TakesV3, R.ReceiverKeys, R.NewVerify, SignedInExchange;
    PairingStart(cfg, trace);
    if n == 0 {
      assert false;
    } else {
      var p := PairingAt(cfg, trace, n - 1);
      PairingStep(cfg, trace, n);
      AlwaysConsistent(cfg, trace, n - 1);
      VerifiedAfter(cfg, p, trace[n - 1]);
      if TakesV3(cfg, p, trace[n - 1]).Some? {
        TakenV3(cfg, p, trace[n - 1]);
        v1 := VerifyHasV1(cfg, trace, n - 1);
        r, v3 := TakesV3(cfg, p, trace[n - 1]).value, n - 1;
        TakenV3Signed(cfg, p, trace[v1], trace[v3]);
      } else {
        r, v1, v3 := VerifiedHasV3(cfg, trace, n - 1);
      }
    }
  }

  lemma TakenV3(cfg: Config, p: R.State, e: Entry)
    requires cfg.Valid() && TakesV3(cfg, p, e).Some?
    ensures p.verify.Some?
    ensures var r := TakesV3(cfg, p, e).value; Has(p, cfg.id.suite.lossyText(r.identifier), r.publicKey)
  {
    hide RequestPath, T.Decode;
  }

  /** A verified connection: an M1, M3, M5 chain registered a key, and a V1 followed by a V3 signed with
      that key, with no reset since the V1. */
  lemma VerifiedHasHistory(cfg: Config, trace: seq<Entry>, n: nat)
    returns (r: R.Registration, m1: nat, m3: nat, m5: nat, v1: nat, v3: nat)
    requires cfg.Valid() && n <= |trace| && PairingAt(cfg, trace, n).verified
    ensures VerifyChain(cfg, trace, n, r, v1, v3)
    ensures KeyChain(cfg, trace, v3, cfg.id.suite.lossyText(r.identifier), r.publicKey, m1, m3, m5)
  {
    hide TakesV3, Pending, At, KeyChain, SignedInExchange;
    r, v1, v3 := VerifiedHasV3(cfg, trace, n);
    TakenV3(cfg, PairingAt(cfg, trace, v3), trace[v3]);
    m1, m3, m5 := KeyHasChain(cfg, trace, v3, cfg.id.suite.lossyText(r.identifier), r.publicKey);
  }

  /** The connection is verified exactly when a V3 was taken and nothing reset it since. */
  lemma {:induction false} VerifiedExactly(cfg: Config, trace: seq<Entry>, n: nat)
    requires cfg.Valid() && n <= |trace|
    ensures PairingAt(cfg, trace, n).verified <==>
      exists v3: nat :: v3 < n && TakesV3(cfg, PairingAt(cfg, trace, v3), trace[v3]).Some? && NoResetIn(cfg, trace, v3 + 1, n)
    decreases n
  {
    hide At, PairingAfter, TakesV3, Resets, PairingAt;
    PairingStart(cfg, trace);
    if n > 0 {
      var p, e := PairingAt(cfg, trace, n - 1), trace[n - 1];
      VerifiedExactly(cfg, trace, n - 1);
      PairingStep(cfg, trace, n);
      AlwaysConsistent(cfg, trace, n - 1);
      VerifiedAfter(cfg, p, e);
      if PairingAt(cfg, trace, n).verified {
        if TakesV3(cfg, p, e).None? {
          var v3: nat :| v3 < n - 1 && TakesV3(cfg, PairingAt(cfg, trace, v3), trace[v3]).Some? && NoResetIn(cfg, trace, v3 + 1, n - 1);
          assert NoResetIn(cfg, trace, v3 + 1, n);
        } else {
          assert NoResetIn(cfg, trace, n - 1 + 1, n);
        }
      }
      if v3: nat :| v3 < n && TakesV3(cfg, PairingAt(cfg, trace, v3), trace[v3]).Some? && NoResetIn(cfg, trace, v3 + 1, n) {
        if v3 < n - 1 {
          assert NoResetIn(cfg, trace, v3 + 1, n - 1);
        }
      }
    }
  }

  // ---------- FairPlay ----------

  predicate FairplayRequest(e: Entry) {
    IsPost(e.req, "/fp-setup") && e.req.appleEt == Some("32")
  }

  /** The one request that is an M1. */
  ghost predicate TakesF1(cfg: Config, e: Entry) {
    && FairplayRequest(e)
    && ToMachine(e.req.body) == [0x46, 0x50, 0x4c, 0x59, 3, 1, 1, 0, 0, 0, 0, 4, 0x02, 0x00, 0x03, 0xbb]
  }

  /** An M3 of the receiver's mode whose confirmation is the white box's answer for the sender's SAP,
      decrypted from its body, and the receiver's. */
  ghost predicate TakesF3(cfg: Config, e: Entry)
    requires cfg.Valid()
  {
    var m3, t := ToMachine(e.req.body), cfg.setting;
    && FairplayRequest(e)
    && |m3| == 164
    && m3[..16] == [0x46, 0x50, 0x4c, 0x59, 3, 1, 3, 0, 0, 0, 0, 152, 3, 0x8f, 0x1a, 0x9c]
    && m3[144..164] == t.box.exchange(M.DecryptBody(t.tables, 3, m3[16..144]), [0, 1] + cfg.entropy)
  }

  /** The receiver of this connection, in some phase. */
  ghost predicate OwnReceiver(cfg: Config, f: F.ReceiverState)
    requires cfg.Valid()
  {
    f.Valid() && f.sap == [0, 1] + cfg.entropy && f.mode == 3
  }

  lemma TakenF(cfg: Config, f: F.ReceiverState, e: Entry)
    requires cfg.Valid() && OwnReceiver(cfg, f) && FairplayRequest(e)
    ensures F.AcceptM1(ToMachine(e.req.body)) <==> TakesF1(cfg, e)
    ensures F.AcceptM3(cfg.setting, f, ToMachine(e.req.body)) <==> TakesF3(cfg, e)
  {
    hide ToMachine, F.AcceptM1, F.AcceptM3, M.DecryptBody, FairplayRequest;
    F.AcceptedM1Is(ToMachine(e.req.body));
    F.AcceptedM3Is(cfg.setting, f, ToMachine(e.req.body));
    assert 3 as nat == 3;
  }

  /** The handshake moves exactly by a FairPlay request on a verified connection that carries the record
      whose turn it is, and the reply is then the receiver's next record. */
  lemma FairplayAnswers(cfg: Config, s: Session, e: Entry)
    requires cfg.Valid() && ValidSession(s) && s.fairplay.Some? && OwnReceiver(cfg, s.fairplay.value)
    ensures var f, (s', r, _) := s.fairplay.value, Dispatch(cfg, s, e);
      if s.pairing.verified && f.phase == 0 && TakesF1(cfg, e) then
        s' == s.(fairplay := Some(f.(phase := 1))) && r == Response(200, FromMachine(F.M2(cfg.setting.tables, 3, f.sap)))
      else if s.pairing.verified && f.phase == 1 && TakesF3(cfg, e) then
        var m3 := ToMachine(e.req.body);
        s' == s.(fairplay := Some(f.(phase := 2, m3 := m3)))
        && r == Response(200, FromMachine([0x46, 0x50, 0x4c, 0x59, 3, 1, 4, 0, 0, 0, 0, 20] + m3[144..164]))
      else s'.fairplay == s.fairplay && (IsPost(e.req, "/fp-setup") ==> r.status != 200)
  {
    hide R.SetupStep, R.VerifyStep, RequestPath, F.ReceiverStep, F.M2, ToMachine, FromMachine;
    hide F.AcceptM1, F.AcceptM3, TakesF1, TakesF3, F.M4, F.ReceiverState.Valid, SetupStep;
    if IsSessionRequest(e.req) && !s.pairing.verified {
    } else if IsPost(e.req, "/fp-setup") {
      if FairplayRequest(e) {
        FairplayMoves(cfg, s.fairplay.value, e);
      } else {
        NotTaken(cfg, e);
      }
    } else {
      NotTaken(cfg, e);
    }
    if !IsPost(e.req, "/fp-setup") {
      FairplayElsewhere(cfg, s, e);
    }
  }

  lemma NotTaken(cfg: Config, e: Entry)
    requires cfg.Valid()
    ensures !FairplayRequest(e) ==> !TakesF1(cfg, e) && !TakesF3(cfg, e)
  {}

  lemma FairplayElsewhere(cfg: Config, s: Session, e: Entry)
    requires cfg.Valid() && ValidSession(s) && !IsPost(e.req, "/fp-setup")
    ensures Dispatch(cfg, s, e).0.fairplay == s.fairplay
  {
    hide F.ReceiverStep, R.SetupStep, R.VerifyStep, RequestPath, F.ReceiverState.Valid;
  }

  /** What the receiver makes of a FairPlay request. */
  lemma FairplayMoves(cfg: Config, f: F.ReceiverState, e: Entry)
    requires cfg.Valid() && OwnReceiver(cfg, f) && FairplayRequest(e)
    ensures var (f', r) := F.ReceiverStep(cfg.setting, f, ToMachine(e.req.body));
      var m3 := ToMachine(e.req.body);
      if f.phase == 0 && TakesF1(cfg, e) then
        f' == f.(phase := 1) && r == Ok(F.M2(cfg.setting.tables, 3, f.sap))
      else if f.phase == 1 && TakesF3(cfg, e) then
        f' == f.(phase := 2, m3 := m3)
        && r == Ok([0x46, 0x50, 0x4c, 0x59, 3, 1, 4, 0, 0, 0, 0, 20] + m3[144..164])
      else f' == f && r.Err?
  {
    hide ToMachine, F.AcceptM1, F.AcceptM3, TakesF1, FairplayRequest, M.DecryptBody, F.M2;
    TakenF(cfg, f, e);
    if TakesF3(cfg, e) {
      F.M4Is(ToMachine(e.req.body));
    }
  }

  /** Where the handshake stands says which records were accepted, in order, all on a verified
      connection. */
  ghost predicate FairplayHistory(cfg: Config, trace: seq<Entry>, n: nat, f1: nat, f3: nat)
    requires cfg.Valid() && n <= |trace|
  {
    var f := At(cfg, trace, n).session.fairplay;
    && f.Some? && OwnReceiver(cfg, f.value) && f.value.phase <= 2
    && (f.value.phase >= 1 ==> f1 < n && TakesF1(cfg, trace[f1]) && PairingAt(cfg, trace, f1).verified)
    && (f.value.phase == 2 ==> f1 < f3 < n && TakesF3(cfg, trace[f3]) && PairingAt(cfg, trace, f3).verified)
  }

  /** The handshake over one turn of the connection. */
  lemma FairplayTurn(cfg: Config, trace: seq<Entry>, n: nat)
    requires cfg.Valid() && n < |trace|
    requires var f := At(cfg, trace, n).session.fairplay; f.Some? && OwnReceiver(cfg, f.value)
    ensures var f, f' := At(cfg, trace, n).session.fairplay.value, At(cfg, trace, n + 1).session.fairplay;
      var verified := PairingAt(cfg, trace, n).verified;
      && f'.Some? && OwnReceiver(cfg, f'.value)
      && (if f.phase == 0 && verified && TakesF1(cfg, trace[n]) then f'.value.phase == 1
          else if f.phase == 1 && verified && TakesF3(cfg, trace[n]) then f'.value.phase == 2
          else f'.value == f)
  {
    hide At, Dispatch, TakesF1, TakesF3;
    OneTurn(cfg, trace, n);
    FairplayAnswers(cfg, At(cfg, trace, n).session, trace[n]);
    var f := At(cfg, trace, n).session.fairplay.value;
    assert f.(phase := 1).Valid() && f.(phase := 2, m3 := F.BlankM3()).Valid();
    AtIsValid(cfg, trace, n + 1);
  }

  lemma AtIsValid(cfg: Config, trace: seq<Entry>, n: nat)
    requires cfg.Valid() && n <= |trace|
    ensures ValidSession(At(cfg, trace, n).session)
  {
    hide Dispatch;
  }

  lemma {:induction false} FairplayHasHistory(cfg: Config, trace: seq<Entry>, n: nat) returns (f1: nat, f3: nat)
    requires cfg.Valid() && n <= |trace| && cfg.fairplay
    ensures FairplayHistory(cfg, trace, n, f1, f3)
    decreases n
  {
    hide At, TakesF1, TakesF3, OwnReceiver;
    f1, f3 := 0, 0;
    if n == 0 {
      FreshOwn(cfg);
      StartAt(cfg, trace);
    } else {
      f1, f3 := FairplayHasHistory(cfg, trace, n - 1);
      FairplayTurn(cfg, trace, n - 1);
      var f, f' := At(cfg, trace, n - 1).session.fairplay.value, At(cfg, trace, n).session.fairplay.value;
      if f' != f {
        if f.phase == 0 {
          f1 := n - 1;
        } else {
          f3 := n - 1;
        }
      }
    }
  }

  lemma FreshOwn(cfg: Config)
    requires cfg.Valid() && cfg.fairplay
    ensures Start(cfg).session.fairplay.Some? && OwnReceiver(cfg, Start(cfg).session.fairplay.value)
    ensures Start(cfg).session.fairplay.value.phase == 0
  {}

  /** A phase is never undone. */
  lemma {:induction false} PhasesGrow(cfg: Config, trace: seq<Entry>, m: nat, n: nat)
    requires cfg.Valid() && m <= n <= |trace| && cfg.fairplay
    ensures At(cfg, trace, m).session.fairplay.Some? && At(cfg, trace, n).session.fairplay.Some?
    ensures At(cfg, trace, m).session.fairplay.value.phase <= At(cfg, trace, n).session.fairplay.value.phase
    decreases n
  {
    hide At, TakesF1, TakesF3, OwnReceiver;
    FairplayStays(cfg, trace, m);
    if m < n {
      PhasesGrow(cfg, trace, m, n - 1);
      var f1, f3 := FairplayHasHistory(cfg, trace, n - 1);
      FairplayTurn(cfg, trace, n - 1);
    }
  }

  /** The records of a handshake, in order, on a verified connection. */
  ghost predicate Shaken(cfg: Config, trace: seq<Entry>, n: nat, f1: nat, f3: nat)
    requires cfg.Valid() && n <= |trace|
  {
    && f1 < f3 < n
    && TakesF1(cfg, trace[f1]) && PairingAt(cfg, trace, f1).verified
    && TakesF3(cfg, trace[f3]) && PairingAt(cfg, trace, f3).verified
  }

  ghost predicate Complete(cfg: Config, trace: seq<Entry>, n: nat)
    requires cfg.Valid() && n <= |trace|
  {
    var f := At(cfg, trace, n).session.fairplay;
    f.Some? && f.value.phase == 2
  }

  /** In every run the handshake is complete exactly when an M1 and later a right M3 arrived on the
      verified connection. */
  lemma CompleteExactly(cfg: Config, trace: seq<Entry>, n: nat)
    requires cfg.Valid() && n <= |trace| && cfg.fairplay
    ensures Complete(cfg, trace, n) <==> exists f1, f3 :: Shaken(cfg, trace, n, f1, f3)
  {
    hide At, TakesF1, TakesF3, PairingAt, OwnReceiver;
    var f1, f3 := FairplayHasHistory(cfg, trace, n);
    if Complete(cfg, trace, n) {
      assert Shaken(cfg, trace, n, f1, f3);
    }
    if f1: nat, f3: nat :| Shaken(cfg, trace, n, f1, f3) {
      AfterF1(cfg, trace, f1);
      PhasesGrow(cfg, trace, f1 + 1, f3);
      AfterF3(cfg, trace, f3);
      PhasesGrow(cfg, trace, f3 + 1, n);
    }
  }

  lemma AfterF1(cfg: Config, trace: seq<Entry>, n: nat)
    requires cfg.Valid() && n < |trace| && cfg.fairplay && TakesF1(cfg, trace[n]) && PairingAt(cfg, trace, n).verified
    ensures var f := At(cfg, trace, n + 1).session.fairplay; f.Some? && f.value.phase >= 1
  {
    hide At, TakesF1, TakesF3, OwnReceiver;
    var f1, f3 := FairplayHasHistory(cfg, trace, n);
    FairplayTurn(cfg, trace, n);
  }

  lemma AfterF3(cfg: Config, trace: seq<Entry>, n: nat)
    requires cfg.Valid() && n < |trace| && cfg.fairplay && TakesF3(cfg, trace[n]) && PairingAt(cfg, trace, n).verified
    requires var f := At(cfg, trace, n).session.fairplay; f.Some? && f.value.phase >= 1
    ensures var f := At(cfg, trace, n + 1).session.fairplay; f.Some? && f.value.phase == 2
  {
    hide At, TakesF1, TakesF3, OwnReceiver;
    var f1, f3 := FairplayHasHistory(cfg, trace, n);
    FairplayTurn(cfg, trace, n);
  }

  lemma FairplayKept(cfg: Config, s: Session, e: Entry)
    requires cfg.Valid() && ValidSession(s)
    ensures Dispatch(cfg, s, e).0.fairplay.Some? <==> s.fairplay.Some?
  {
    hide F.ReceiverStep, R.SetupStep, R.VerifyStep, RequestPath, F.ReceiverState.Valid;
  }

  lemma {:induction false} FairplayStays(cfg: Config, trace: seq<Entry>, n: nat)
    requires cfg.Valid() && n <= |trace|
    ensures At(cfg, trace, n).session.fairplay.Some? <==> cfg.fairplay
    decreases n
  {
    hide Dispatch, EnableHap;
    if n > 0 {
      FairplayStays(cfg, trace, n - 1);
      FairplayKept(cfg, At(cfg, trace, n - 1).session, trace[n - 1]);
    }
  }

  // ---------- what is served ----------

  predicate IsControl(req: Request) {
    req.method_ == "RECORD" || req.method_ == "SET_PARAMETER" || req.method_ == "TEARDOWN"
  }

  /** The answers to the requests that carry out a session, for any state of it. */
  lemma SessionAnswers(cfg: Config, s: Session, e: Entry)
    requires cfg.Valid() && ValidSession(s)
    ensures IsControl(e.req) ==> Dispatch(cfg, s, e).0 == s && Dispatch(cfg, s, e).1 == Response(if s.pairing.verified then 200 else 455, [])
    ensures IsPost(e.req, "/feedback") ==>
      Dispatch(cfg, s, e).0 == s
      && Dispatch(cfg, s, e).1 == if s.pairing.verified then Response(200, e.outside.plist) else Response(455, [])
    ensures e.req.method_ == "SETUP" ==>
      Dispatch(cfg, s, e).1 ==
        if !s.pairing.verified || (s.fairplay.Some? && s.fairplay.value.phase != 2) then Response(455, [])
        else if s.media || e.outside.mediaReady then Response(200, e.outside.plist)
        else Response(500, [])
    ensures e.req.method_ == "SETUP" ==>
      Dispatch(cfg, s, e).0 == if Dispatch(cfg, s, e).1.status == 200 then s.(media := true) else s
  {
    hide F.ReceiverStep, R.SetupStep, R.VerifyStep, RequestPath, FairplayStep, F.ReceiverState.Valid;
  }

  /** In every run: RECORD, SET_PARAMETER, TEARDOWN and /feedback are answered 200 exactly when a V3 was
      taken and nothing reset the pairing since; SETUP exactly when also a FairPlay handshake was completed,
      if that is enabled, and media endpoints can be had or were had for an earlier SETUP. */
  lemma ServedExactly(cfg: Config, trace: seq<Entry>, n: nat)
    requires cfg.Valid() && n < |trace|
    ensures var paired := exists v3: nat ::
        v3 < n && TakesV3(cfg, PairingAt(cfg, trace, v3), trace[v3]).Some? && NoResetIn(cfg, trace, v3 + 1, n);
      var req := trace[n].req;
      && (IsControl(req) || IsPost(req, "/feedback") ==>
          && (Status(cfg, trace, n) == 200 <==> paired) && (Status(cfg, trace, n) == 455 <==> !paired))
      && (req.method_ == "SETUP" ==>
          (Status(cfg, trace, n) == 200 <==>
            && paired
            && (cfg.fairplay ==> exists f1, f3 :: Shaken(cfg, trace, n, f1, f3))
            && (trace[n].outside.mediaReady
                || exists k: nat :: k < n && trace[k].req.method_ == "SETUP" && Status(cfg, trace, k) == 200)))
  {
    hide At, Dispatch, TakesV3, Resets, RequestPath, Shaken, Status;
    MediaExactly(cfg, trace, n);
    var s := At(cfg, trace, n).session;
    VerifiedExactly(cfg, trace, n);
    OneTurn(cfg, trace, n);
    SessionAnswers(cfg, s, trace[n]);
    FairplayStays(cfg, trace, n);
    if cfg.fairplay {
      CompleteExactly(cfg, trace, n);
      var f1, f3 := FairplayHasHistory(cfg, trace, n);
    }
  }

  lemma MediaElsewhere(cfg: Config, s: Session, e: Entry)
    requires cfg.Valid() && ValidSession(s) && e.req.method_ != "SETUP"
    ensures Dispatch(cfg, s, e).0.media == s.media
  {
    hide F.ReceiverStep, R.SetupStep, R.VerifyStep, RequestPath, F.ReceiverState.Valid;
  }

  /** The media endpoints are there exactly when a SETUP was served before. */
  lemma {:induction false} MediaExactly(cfg: Config, trace: seq<Entry>, n: nat)
    requires cfg.Valid() && n <= |trace|
    ensures At(cfg, trace, n).session.media <==>
      exists k: nat :: k < n && trace[k].req.method_ == "SETUP" && Status(cfg, trace, k) == 200
    decreases n
  {
    hide At, Dispatch, Status;
    StartAt(cfg, trace);
    if n > 0 {
      MediaExactly(cfg, trace, n - 1);
      OneTurn(cfg, trace, n - 1);
      if trace[n - 1].req.method_ == "SETUP" {
        SessionAnswers(cfg, At(cfg, trace, n - 1).session, trace[n - 1]);
      } else {
        MediaElsewhere(cfg, At(cfg, trace, n - 1).session, trace[n - 1]);
      }
    }
  }

  lemma ServedOnlyWhen(cfg: Config, s: Session, e: Entry)
    requires cfg.Valid() && ValidSession(s) && IsSessionRequest(e.req) && Dispatch(cfg, s, e).1.status == 200
    ensures s.pairing.verified
    ensures e.req.method_ == "SETUP" && s.fairplay.Some? ==> s.fairplay.value.phase == 2
  {
    hide F.ReceiverStep, R.SetupStep, R.VerifyStep, RequestPath, FairplayStep, F.ReceiverState.Valid;
  }

  /** In every run, a 200 to SETUP, RECORD or any other session request means that the whole pairing
      history is there; a 200 to SETUP also means a complete FairPlay handshake, when that is enabled. */
  lemma ServedHasHistory(cfg: Config, trace: seq<Entry>, n: nat)
    returns (r: R.Registration, m1: nat, m3: nat, m5: nat, v1: nat, v3: nat, f1: nat, f3: nat)
    requires cfg.Valid() && n < |trace| && IsSessionRequest(trace[n].req) && Status(cfg, trace, n) == 200
    ensures VerifyChain(cfg, trace, n, r, v1, v3)
    ensures KeyChain(cfg, trace, v3, cfg.id.suite.lossyText(r.identifier), r.publicKey, m1, m3, m5)
    ensures trace[n].req.method_ == "SETUP" && cfg.fairplay ==> Shaken(cfg, trace, n, f1, f3)
  {
    hide Dispatch, IsSessionRequest, VerifyChain, KeyChain, At, TakesF1, TakesF3, OwnReceiver;
    var s := At(cfg, trace, n).session;
    ServedOnlyWhen(cfg, s, trace[n]);
    r, m1, m3, m5, v1, v3 := VerifiedHasHistory(cfg, trace, n);
    f1, f3 := 0, 0;
    if cfg.fairplay {
      f1, f3 := FairplayHasHistory(cfg, trace, n);
      FairplayStays(cfg, trace, n);
    }
  }

  // ---------- the stream ----------

  /** Keys come back from a request exactly when it leaves a verified machine after a state-3 message. */
  lemma KeysComeBack(cfg: Config, s: Session, e: Entry)
    requires cfg.Valid() && ValidSession(s) && R.Consistent(s.pairing)
    ensures var (s', _, keys) := Dispatch(cfg, s, e);
      && (keys.Some? ==> s'.pairing.verified && keys.value == s'.pairing.session)
      && (s'.pairing.verified && !s.pairing.verified ==> keys.Some?)
  {
    hide F.ReceiverStep, R.SetupStep, RequestPath, FairplayStep, R.StepV1, R.StepV3, T.Decode, R.StateOf, R.Consistent;
    if !IsPost(e.req, "/pair-verify") {
      PairingUnlessVerify(cfg, s, e);
    } else {
      V1NeverVerifies(cfg.id, s.pairing, T.Decode(e.req.body), e.outside.rnd);
    }
  }

  lemma PairingUnlessVerify(cfg: Config, s: Session, e: Entry)
    requires cfg.Valid() && ValidSession(s) && R.Consistent(s.pairing) && !IsPost(e.req, "/pair-verify")
    ensures Dispatch(cfg, s, e).0.pairing.verified ==> s.pairing.verified
  {
    hide RequestPath, TakesLegacy, TakesM1, TakesM3, TakesM5, TakesV1, Dispatch, PairingAfter;
    DispatchPairing(cfg, s, e);
    VerifiedAfter(cfg, s.pairing, e);
  }

  lemma V1NeverVerifies(id: R.Identity, p: R.State, msg: T.Fields, rnd: R.Random)
    ensures R.StepV1(id, p, msg, rnd).0.verified ==> p.verified
  {}

  /** The stream was encrypted by this V3, with that exchange's keys, and was plain until then. */
  ghost predicate HapSince(cfg: Config, trace: seq<Entry>, n: nat, v3: nat)
    requires cfg.Valid() && n <= |trace|
  {
    && v3 < n && TakesV3(cfg, PairingAt(cfg, trace, v3), trace[v3]).Some?
    && At(cfg, trace, v3).stream == Plain
    && PairingAt(cfg, trace, v3).verify.Some?
    && var keys := R.ReceiverKeys(cfg.id.suite, PairingAt(cfg, trace, v3).verify.value.sharedSecret);
      At(cfg, trace, n).stream == Hap(keys.readKey, keys.writeKey)
  }

  /** Once encrypted, the stream is never switched again, not even by another pair-verify. */
  lemma {:induction false} SwitchesOnce(cfg: Config, trace: seq<Entry>, m: nat, n: nat)
    requires cfg.Valid() && m <= n <= |trace| && At(cfg, trace, m).stream.Hap?
    ensures At(cfg, trace, n).stream == At(cfg, trace, m).stream
    decreases n
  {
    hide Dispatch;
    if m < n {
      SwitchesOnce(cfg, trace, m, n - 1);
    }
  }

  /** The three facts about one turn that the stream depends on. */
  lemma StreamStep(cfg: Config, trace: seq<Entry>, n: nat)
    requires cfg.Valid() && 0 < n <= |trace|
    ensures var c, c', e := At(cfg, trace, n - 1), At(cfg, trace, n), trace[n - 1];
      && (c'.stream == c.stream
          || (c.stream == Plain && c'.session.pairing.verified
              && c'.stream == Hap(c'.session.pairing.session.readKey, c'.session.pairing.session.writeKey)))
      && (c'.session.pairing.verified && !c.session.pairing.verified ==> c'.stream.Hap?)
  {
    hide Dispatch, R.Consistent;
    AlwaysConsistent(cfg, trace, n - 1);
    var c := At(cfg, trace, n - 1);
    KeysComeBack(cfg, c.session, trace[n - 1]);
    var d := Dispatch(cfg, c.session, trace[n - 1]);
    assert At(cfg, trace, n) == Control(d.0, EnableHap(c.stream, d.2));
    assert d.2.Some? ==> d.2.value == d.0.pairing.session;
  }

  /** A verified machine always has an encrypted stream. */
  lemma {:induction false} VerifiedIsEncrypted(cfg: Config, trace: seq<Entry>, n: nat)
    requires cfg.Valid() && n <= |trace|
    ensures PairingAt(cfg, trace, n).verified ==> At(cfg, trace, n).stream.Hap?
    decreases n
  {
    hide At;
    PairingStart(cfg, trace);
    if n > 0 {
      VerifiedIsEncrypted(cfg, trace, n - 1);
      StreamStep(cfg, trace, n);
    }
  }

  lemma {:induction false} EncryptedByV3(cfg: Config, trace: seq<Entry>, n: nat) returns (v3: nat)
    requires cfg.Valid() && n <= |trace| && At(cfg, trace, n).stream.Hap?
    ensures HapSince(cfg, trace, n, v3)
    decreases n
  {
    if n == 0 {
      assert false;
    } else {
      hide At, PairingAfter, TakesV3, Resets, R.ReceiverKeys;
      StreamStep(cfg, trace, n);
      if At(cfg, trace, n).stream == At(cfg, trace, n - 1).stream {
        v3 := EncryptedByV3(cfg, trace, n - 1);
      } else {
        v3 := n - 1;
        var p := PairingAt(cfg, trace, v3);
        VerifiedIsEncrypted(cfg, trace, v3);
        AlwaysConsistent(cfg, trace, v3);
        PairingStep(cfg, trace, n);
        VerifiedAfter(cfg, p, trace[v3]);
        TakenV3(cfg, p, trace[v3]);
      }
    }
  }

  /** The stream is encrypted exactly when some V3 was taken. */
  lemma EncryptedExactlyAfterV3(cfg: Config, trace: seq<Entry>, n: nat)
    requires cfg.Valid() && n <= |trace|
    ensures At(cfg, trace, n).stream.Hap? <==>
      exists v3 :: 0 <= v3 < n && TakesV3(cfg, PairingAt(cfg, trace, v3), trace[v3]).Some?
  {
    hide At, TakesV3, PairingAfter, Resets;
    if At(cfg, trace, n).stream.Hap? {
      var v3 := EncryptedByV3(cfg, trace, n);
      assert TakesV3(cfg, PairingAt(cfg, trace, v3), trace[v3]).Some?;
    }
    forall v3 | 0 <= v3 < n && TakesV3(cfg, PairingAt(cfg, trace, v3), trace[v3]).Some?
      ensures At(cfg, trace, n).stream.Hap?
    {
      AlwaysConsistent(cfg, trace, v3);
      PairingStep(cfg, trace, v3 + 1);
      VerifiedAfter(cfg, PairingAt(cfg, trace, v3), trace[v3]);
      VerifiedIsEncrypted(cfg, trace, v3 + 1);
      SwitchesOnce(cfg, trace, v3 + 1, n);
    }
  }

  lemma StartAt(cfg: Config, trace: seq<Entry>)
    requires cfg.Valid()
    ensures At(cfg, trace, 0) == Start(cfg)
  {}

  lemma OneTurn(cfg: Config, trace: seq<Entry>, n: nat)
    requires cfg.Valid() && n < |trace|
    ensures var d := Dispatch(cfg, At(cfg, trace, n).session, trace[n]);
      && At(cfg, trace, n + 1) == Control(d.0, EnableHap(At(cfg, trace, n).stream, d.2))
      && Status(cfg, trace, n) == d.1.status
  {
    hide Dispatch, EnableHap;
  }

  // ---------- the connection ----------

  class ControlConnection {
    const cfg: Config
    const pairing: R.Receiver
    const fairplay: F.ReceiverFpsap?
    var media: bool
    var stream: Stream

    ghost predicate Valid()
      reads this, pairing, fairplay
    {
      && cfg.Valid() && pairing.id == cfg.id
      && (fairplay != null ==> fairplay.Valid() && fairplay.setting == cfg.setting)
    }

    ghost function Now(): Session
      reads this, pairing, fairplay
    {
      Session(pairing.Now(), if fairplay == null then None else Some(fairplay.State()), media)
    }

    constructor (cfg: Config)
      requires cfg.Valid()
      ensures Valid() && fresh(pairing) && (fairplay != null ==> fresh(fairplay))
      ensures this.cfg == cfg && Control(Now(), stream) == Start(cfg)
    {
      this.cfg := cfg;
      pairing := new R.Receiver(cfg.id);
      if cfg.fairplay {
        var f := new F.ReceiverFpsap(cfg.setting, cfg.entropy);
        fairplay := f;
      } else {
        fairplay := null;
      }
      media := false;
      stream := Plain;
    }

    method Handle(e: Entry) returns (resp: Response, keys: Option<R.SessionKeys>)
      requires Valid()
      modifies this`media, pairing, fairplay
      ensures Valid()
      ensures (Now(), resp, keys) == Dispatch(cfg, old(Now()), e)
    {
      hide RequestPath, R.SetupStep, R.VerifyStep, FairplayStep;
      var req := e.req;
      keys := None;
      if IsSessionRequest(req) && !pairing.verified {
        resp := Response(455, []);
      } else if req.method_ == "GET" && RequestPath(req.uri) == "/info" {
        resp := Response(200, e.outside.plist);
      } else if IsPost(req, "/pair-pin-start") {
        resp := Response(if cfg.pinAuth then 200 else 453, []);
      } else if IsPost(req, "/pair-setup") {
        var body := pairing.PairSetup(req.body, e.outside.rnd);
        resp := Response(200, body);
      } else if IsPost(req, "/pair-verify") {
        var body;
        body, keys := pairing.PairVerify(req.body, e.outside.rnd);
        resp := Response(200, body);
      } else if IsPost(req, "/fp-setup") {
        resp := HandleFairplay(req);
      } else if req.method_ == "SETUP" {
        resp := HandleSetup(e.outside);
      } else if req.method_ in {"RECORD", "SET_PARAMETER", "TEARDOWN"} {
        resp := Response(200, []);
      } else if IsPost(req, "/feedback") {
        resp := Response(200, e.outside.plist);
      } else {
        resp := Response(404, []);
      }
    }

    method HandleFairplay(req: Request) returns (resp: Response)
      requires Valid()
      modifies fairplay
      ensures Valid()
      ensures (Now(), resp) == FairplayStep(cfg, old(Now()), req)
    {
      hide F.ReceiverStep;
      if fairplay == null || fairplay.phase == 2 {
        return Response(404, []);
      }
      if req.appleEt != Some("32") {
        return Response(400, []);
      }
      var r := fairplay.Exchange(ToMachine(req.body));
      resp := if r.Ok? then Response(200, FromMachine(r.value)) else Response(400, []);
    }

    method HandleSetup(o: Outside) returns (resp: Response)
      requires Valid()
      modifies this`media
      ensures Valid()
      ensures (Now(), resp) == SetupStep(old(Now()), o)
    {
      if fairplay != null && fairplay.phase != 2 {
        return Response(455, []);
      }
      if !media {
        if !o.mediaReady {
          return Response(500, []);
        }
        media := true;
      }
      resp := Response(200, o.plist);
    }

    /** Serves a whole run of requests.  Each reply's status is returned with the stream it goes out on,
        which is the one before the request: the reply that completes pair-verify is not encrypted yet. */
    method ServeControl(trace: seq<Entry>) returns (replies: seq<(nat, Stream)>)
      requires Valid() && Control(Now(), stream) == Start(cfg)
      modifies this`media, this`stream, pairing, fairplay
      ensures Valid()
      ensures Control(Now(), stream) == At(cfg, trace, |trace|)
      ensures |replies| == |trace|
      ensures forall i: nat | i < |trace| :: replies[i] == (Status(cfg, trace, i), At(cfg, trace, i).stream)
    {
      hide Dispatch, At, Status;
      StartAt(cfg, trace);
      replies := [];
      for n := 0 to |trace|
        invariant Valid()
        invariant Control(Now(), stream) == At(cfg, trace, n)
        invariant |replies| == n
        invariant forall i: nat | i < n :: replies[i] == (Status(cfg, trace, i), At(cfg, trace, i).stream)
      {
        OneTurn(cfg, trace, n);
        var resp, keys := Handle(trace[n]);
        replies := replies + [(resp.status, stream)];
        if keys.Some? {
          if stream.Plain? {
            stream := Hap(keys.value.readKey, keys.value.writeKey);
          }
        }
      }
    }
  }
}
