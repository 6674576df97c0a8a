/** The sender run against the receiver, both honest and holding the same PIN. */
module PairingRun {
  import opened BigNat
  import opened Bytes
  import opened Crypto
  import opened PairingSession
  import opened Srp
  import T = Tlv8
  import R = ReceiverPairing

  /** Same library and group; the username both sides hash is the literal one. */
  ghost predicate Linked(s: Sender, id: R.Identity) {
    && s.suite == id.suite && s.grp == id.grp
    && s.suite.Lawful() && s.grp.Valid()
    && id.username == Ascii(USERNAME)
    && s.pairingId != []
  }

  /** And the same PIN. */
  ghost predicate Honest(s: Sender, id: R.Identity) {
    Linked(s, id) && id.pin == s.pin
  }

  // ---------- M1, M2 ----------

  lemma AnswerM1(s: Sender, id: R.Identity, st: R.State, rnd: R.Random)
    requires Linked(s, id)
    ensures var setup := R.NewSetup(id, false, rnd);
      && Ask(id, st, M1_ITEMS, rnd).0 == R.Reset(st).(setup := Some(setup))
      && ParseM2(Ask(id, st, M1_ITEMS, rnd).1) == Some(Challenge(rnd.salt, PadTo(setup.serverPublic, KEY_SIZE)))
  {
    hide R.NewSetup, PadTo;
    var m1 := T.EncodeOrdered(M1_ITEMS);
    var msg := T.Decode(m1);
    T.FieldOnce(M1_ITEMS, 0);
    T.FieldOnce(M1_ITEMS, 1);
    T.DecodeOfEncode(M1_ITEMS, T.FLAGS);
    M1Size();
    var setup := R.NewSetup(id, false, rnd);
    assert R.SetupStep(id, st, m1, rnd) == R.StepM1(id, st, msg, rnd);
    assert R.AcceptM1(id, msg) == Some(false);
    ReadM2(setup);
    assert setup.salt == rnd.salt by { SetupSalt(id, rnd); }
  }

  lemma M1Size()
    ensures |T.EncodeOrdered(M1_ITEMS)| == 6
  {
    var second := [T.Item(T.STATE, [1])];
    assert M1_ITEMS[1..] == second && second[1..] == [];
    assert T.EncodeOrdered(second) == T.EncodeItem(second[0]) + T.EncodeOrdered([]);
    assert T.EncodeOrdered(M1_ITEMS) == T.EncodeItem(M1_ITEMS[0]) + T.EncodeOrdered(second);
  }

  lemma SetupSalt(id: R.Identity, rnd: R.Random)
    requires id.grp.Valid()
    ensures R.NewSetup(id, false, rnd).salt == rnd.salt
  {}

  lemma ReadM2(setup: R.SrpSetup)
    ensures ParseM2(T.Decode(R.M2(setup))) == Some(Challenge(setup.salt, PadTo(setup.serverPublic, KEY_SIZE)))
  {
    var items := [T.Item(T.STATE, [2]), T.Item(T.SALT, setup.salt), T.Item(T.PUBLIC_KEY, PadTo(setup.serverPublic, KEY_SIZE))];
    T.FieldOnce(items, 1);
    T.FieldOnce(items, 2);
    T.DecodeOfEncode(items, T.ERROR);
  }

  // ---------- M3, M4 ----------

  /** The public values of the run. */
  function B(id: R.Identity, rnd: R.Random): nat
    requires id.grp.Valid()
  {
    var v := Verifier(id.grp, X(id.suite, id.username, id.pin, rnd.salt));
    ServerPublic(id.grp, Multiplier(id.suite, id.grp), v, FromBytes(rnd.b))
  }

  function A(s: Sender): seq<byte>
    requires s.grp.Valid()
  {
    ToBytes(ClientPublic(s.grp, Secret(s)))
  }

  /** The values that both sides refuse to continue with. */
  ghost predicate Degenerate(s: Sender, id: R.Identity, rnd: R.Random)
    requires s.grp.Valid() && id.grp.Valid()
  {
    B(id, rnd) == 0 || U(s.suite, A(s), ToBytes(B(id, rnd))) == 0
  }

  lemma PublicSize(s: Sender)
    requires s.grp.Valid()
    ensures |A(s)| <= KEY_SIZE && |PadTo(A(s), KEY_SIZE)| == KEY_SIZE
    ensures PadTo(PadTo(A(s), KEY_SIZE), KEY_SIZE) == PadTo(A(s), KEY_SIZE)
    ensures FromBytes(PadTo(A(s), KEY_SIZE)) == ClientPublic(s.grp, Secret(s))
  {
    NaturalLength(ClientPublic(s.grp, Secret(s)), KEY_SIZE);
    FromPadded(ClientPublic(s.grp, Secret(s)), KEY_SIZE);
  }

  lemma ClientResponds(s: Sender, id: R.Identity, rnd: R.Random)
    requires Honest(s, id) && B(id, rnd) != 0
    ensures var setup := R.NewSetup(id, false, rnd);
      var r := Respond(s, Challenge(rnd.salt, PadTo(setup.serverPublic, KEY_SIZE)));
      && r.Some?
      && r.value.clientPublic == A(s)
      && r.value.key == R.ServerKey(id, setup, PadTo(A(s), KEY_SIZE))
      && r.value.proof == R.WantedProof(id, setup, PadTo(A(s), KEY_SIZE))
      && |r.value.proof| == PROOF_SIZE
  {
    hide ClientProof, ClientSecret, ServerSecret, ServerPublic, Verifier, ClientPublic, X, Multiplier, PadTo;
    var b, setup := B(id, rnd), R.NewSetup(id, false, rnd);
    var x, k := X(id.suite, id.username, id.pin, rnd.salt), Multiplier(id.suite, id.grp);
    var v := Verifier(id.grp, x);
    FromPadded(b, KEY_SIZE);
    FromToBytes(b);
    FromToBytes(v);
    PublicSize(s);
    var u := U(s.suite, A(s), ToBytes(b));
    assert U(s.suite, PadTo(A(s), KEY_SIZE), ToBytes(b)) == u;
    SecretsAgree(s.grp, k, x, Secret(s), FromBytes(rnd.b), u);
    ProofSize(s.suite, s.grp, rnd.salt, A(s), ToBytes(b), R.ServerKey(id, setup, PadTo(A(s), KEY_SIZE)));
  }

  lemma ProofSize(c: Suite, grp: Group, salt: seq<byte>, clientPublic: seq<byte>, serverPublic: seq<byte>, key: seq<byte>)
    requires c.LawfulSizes()
    ensures |ClientProof(c, grp, salt, clientPublic, serverPublic, key)| == PROOF_SIZE
  {}

  /** The receiver accepts the client proof exactly when u is not zero. */
  lemma AnswerM3(s: Sender, id: R.Identity, st: R.State, rnd: R.Random, r: Response)
    requires Honest(s, id) && B(id, rnd) != 0
    requires st.setup == Some(R.NewSetup(id, false, rnd))
    requires Respond(s, Challenge(rnd.salt, PadTo(ToBytes(B(id, rnd)), KEY_SIZE))) == Some(r)
    ensures var (st', m4) := Ask(id, st, M3Items(r), rnd);
      if U(s.suite, A(s), ToBytes(B(id, rnd))) == 0 then T.ERROR in m4
      else
        && st' == st.(setup := Some(st.setup.value.(sharedKey := Some(r.key))))
        && T.ERROR !in m4 && T.PROOF in m4
        && m4[T.PROOF] == ServerProof(s.suite, PadTo(A(s), KEY_SIZE), r.proof, r.key)
  {
    hide R.WantedProof, R.ServerKey, U, ServerProof, PadTo, Respond, A, B;
    var items := M3Items(r);
    var msg := T.Decode(T.EncodeOrdered(items));
    T.FieldOnce(items, 0); T.FieldOnce(items, 1); T.FieldOnce(items, 2);
    T.EncodedSize(items, 1);
    NewSetupPublic(id, rnd);
    ClientResponds(s, id, rnd);
    PublicSize(s);
    UOfPadded(s, ToBytes(B(id, rnd)));
    assert R.SetupStep(id, st, T.EncodeOrdered(items), rnd) == R.StepM3(id, st, msg);
    if U(s.suite, A(s), ToBytes(B(id, rnd))) == 0 {
      ErrorReplies(4);
    } else {
      ReadM4(ServerProof(s.suite, PadTo(A(s), KEY_SIZE), r.proof, r.key));
    }
  }

  lemma NewSetupPublic(id: R.Identity, rnd: R.Random)
    requires id.grp.Valid()
    ensures R.NewSetup(id, false, rnd).serverPublic == ToBytes(B(id, rnd))
    ensures R.NewSetup(id, false, rnd).sharedKey.None? && !R.NewSetup(id, false, rnd).isTransient
  {}

  lemma UOfPadded(s: Sender, serverPublic: seq<byte>)
    requires s.grp.Valid()
    ensures U(s.suite, PadTo(A(s), KEY_SIZE), serverPublic) == U(s.suite, A(s), serverPublic)
  {
    PublicSize(s);
  }

  lemma ErrorReplies(state: byte)
    ensures T.ERROR in T.Decode(R.ErrorReply(state))
  {
    T.FieldOnce([T.Item(T.STATE, [state]), T.Item(T.ERROR, [R.AUTH_ERROR])], 1);
  }

  lemma ReadM4(proof: seq<byte>)
    ensures var m4 := T.Decode(T.EncodeOrdered([T.Item(T.STATE, [4]), T.Item(T.PROOF, proof)]));
      T.ERROR !in m4 && T.PROOF in m4 && m4[T.PROOF] == proof
  {
    var items := [T.Item(T.STATE, [4]), T.Item(T.PROOF, proof)];
    T.FieldOnce(items, 1);
    T.DecodeOfEncode(items, T.ERROR);
  }

  // ---------- M5, M6 ----------

  lemma AnswerM5(s: Sender, id: R.Identity, st: R.State, rnd: R.Random, r: Response)
    requires Honest(s, id)
    requires st.setup.Some? && st.setup.value.sharedKey == Some(r.key) && !st.setup.value.isTransient
    ensures var (st', m6) := Ask(id, st, M5Items(s, r), rnd);
      && T.ERROR !in m6
      && st' == st.(setup := None,
                    controllers := st.controllers[s.suite.lossyText(s.pairingId) := s.suite.signPublic(s.edSeed)])
  {
    hide M5Fields, R.SetupKey, R.M6;
    var items := M5Items(s, r);
    var msg := T.Decode(T.EncodeOrdered(items));
    T.FieldOnce(items, 0); T.FieldOnce(items, 1);
    T.EncodedSize(items, 0);
    M5Registers(s, r);
    T.EncodedSize(M5Fields(s, r), 1);
    assert R.SetupStep(id, st, T.EncodeOrdered(items), rnd) == R.StepM5(id, st, msg);
    assert R.AcceptM5(s.suite, r.key, msg) == Some(R.Registration(s.pairingId, s.suite.signPublic(s.edSeed)));
    M6IsNoError(id, r.key);
  }

  lemma M5Registers(s: Sender, r: Response)
    requires s.suite.Lawful() && s.pairingId != []
    ensures |M5Fields(s, r)| > 1 && |M5Fields(s, r)[1].value| == 32
    ensures var plain := T.EncodeOrdered(M5Fields(s, r));
      var fields := T.Decode(plain);
      && s.suite.unseal(R.SetupKey(s.suite, r.key), LabelNonce("PS-Msg05"), [],
                        s.suite.seal(R.SetupKey(s.suite, r.key), LabelNonce("PS-Msg05"), [], plain)) == Some(plain)
      && T.IDENTIFIER in fields && fields[T.IDENTIFIER] == s.pairingId
      && R.HasSize(fields, T.PUBLIC_KEY, 32) && fields[T.PUBLIC_KEY] == s.suite.signPublic(s.edSeed)
      && R.HasSize(fields, T.SIGNATURE, 64)
      && var reg := R.Registration(s.pairingId, s.suite.signPublic(s.edSeed));
         s.suite.checkSignature(reg.publicKey, R.ControllerSigned(s.suite, r.key, reg), fields[T.SIGNATURE])
  {
    hide R.ControllerSigned, R.SetupKey;
    var items := M5Fields(s, r);
    T.FieldOnce(items, 0); T.FieldOnce(items, 1); T.FieldOnce(items, 2);
  }

  lemma M6IsNoError(id: R.Identity, key: seq<byte>)
    ensures T.ERROR !in T.Decode(R.M6(id, key))
  {
    var c := id.suite;
    var public := c.signPublic(id.seed);
    var signKey := c.hkdf(key, "Pair-Setup-Accessory-Sign-Salt", "Pair-Setup-Accessory-Sign-Info");
    var fields := T.EncodeOrdered([
      T.Item(T.IDENTIFIER, id.identifier), T.Item(T.PUBLIC_KEY, public),
      T.Item(T.SIGNATURE, c.sign(id.seed, signKey + id.identifier + public))]);
    T.DecodeOfEncode([
      T.Item(T.STATE, [6]),
      T.Item(T.ENCRYPTED_DATA, c.seal(R.SetupKey(c, key), LabelNonce("PS-Msg06"), [], fields))], T.ERROR);
  }

  // ---------- pair-setup as a whole ----------

  /** The server proof covers the padded A, the check on it the natural one. */
  ghost predicate ProofsMatch(s: Sender, r: Response)
    requires s.grp.Valid()
  {
    ServerProof(s.suite, PadTo(A(s), KEY_SIZE), r.proof, r.key) == ServerProof(s.suite, A(s), r.proof, r.key)
  }

  ghost predicate Registered(s: Sender, st: R.State) {
    var name := s.suite.lossyText(s.pairingId);
    name in st.controllers && st.controllers[name] == s.suite.signPublic(s.edSeed)
  }

  lemma SetupRun(s: Sender, id: R.Identity, st: R.State, rnd: R.Random)
    requires Honest(s, id)
    ensures var (st', done) := RunSetup(s, id, st, rnd);
      && (done.Some? <==> !Degenerate(s, id, rnd) && ProofsMatch(s, HonestResponse(s, id, rnd)))
      && (done.Some? ==> st'.transients == st.transients && Registered(s, st'))
  {
    hide R.NewSetup, B, M3Items, M5Items, A, U, PadTo, ServerProof, Ask, ParseM2, Respond, Registered;
    AnswerM1(s, id, st, rnd);
    NewSetupPublic(id, rnd);
    var (st1, m2) := Ask(id, st, M1_ITEMS, rnd);
    var ch := ParseM2(m2).value;
    if B(id, rnd) == 0 {
      RefusesZero(s, id, rnd);
    } else {
      ClientResponds(s, id, rnd);
      var r := Respond(s, ch).value;
      HonestResponseIs(s, id, rnd);
      AnswerM3(s, id, st1, rnd, r);
      var (st2, m4) := Ask(id, st1, M3Items(r), rnd);
      if GoodM4(s, r, m4) {
        AnswerM5(s, id, st2, rnd, r);
        var (st3, m6) := Ask(id, st2, M5Items(s, r), rnd);
        NowRegistered(s, st2, st3);
      }
    }
  }

  lemma NowRegistered(s: Sender, st: R.State, st': R.State)
    requires st'.controllers == st.controllers[s.suite.lossyText(s.pairingId) := s.suite.signPublic(s.edSeed)]
    ensures Registered(s, st')
  {}

  /** The response to this receiver's challenge; arbitrary when B = 0 makes the sender stop. */
  function HonestResponse(s: Sender, id: R.Identity, rnd: R.Random): Response
    requires s.Valid() && id.grp.Valid()
  {
    match Respond(s, Challenge(rnd.salt, PadTo(ToBytes(B(id, rnd)), KEY_SIZE)))
    case Some(r) => r
    case None => Response([], [], [])
  }

  lemma HonestResponseIs(s: Sender, id: R.Identity, rnd: R.Random)
    requires Honest(s, id) && B(id, rnd) != 0
    ensures Respond(s, Challenge(rnd.salt, PadTo(ToBytes(B(id, rnd)), KEY_SIZE))) == Some(HonestResponse(s, id, rnd))
    ensures HonestResponse(s, id, rnd).clientPublic == A(s)
  {
    hide ServerPublic, Respond, B, PadTo, A;
    NewSetupPublic(id, rnd);
    ClientResponds(s, id, rnd);
  }

  lemma RefusesZero(s: Sender, id: R.Identity, rnd: R.Random)
    requires Honest(s, id) && B(id, rnd) == 0
    ensures Respond(s, Challenge(rnd.salt, PadTo(ToBytes(B(id, rnd)), KEY_SIZE))).None?
  {
    FromPadded(0, KEY_SIZE);
  }

  // ---------- V1 to V4 ----------

  lemma AnswerV1(s: Sender, id: R.Identity, st: R.State, rnd: R.Random)
    requires Honest(s, id)
    ensures var v := R.NewVerify(s.suite, s.suite.dhPublic(s.dhPrivate), rnd.dhPrivate);
      var (st', v2) := AskVerify(id, st, V1Items(s), rnd);
      && st' == R.ResetVerify(st).(verify := Some(v))
      && ParseV2(s, v2) == Some(Agreed(v.serverPublic, v.sharedSecret, v.verifyKey))
  {
    var items := V1Items(s);
    var msg := T.Decode(T.EncodeOrdered(items));
    T.FieldOnce(items, 0); T.FieldOnce(items, 1);
    assert R.StateOf(msg) == Some(1);
    var v := R.NewVerify(s.suite, s.suite.dhPublic(s.dhPrivate), rnd.dhPrivate);
    assert R.VerifyStep(id, st, T.EncodeOrdered(items), rnd).1 == R.V2(id, v);
    ReadV2(s, id, v, rnd.dhPrivate);
  }

  lemma ReadV2(s: Sender, id: R.Identity, v: R.HapVerify, dhPrivate: seq<byte>)
    requires Honest(s, id)
    requires v == R.NewVerify(s.suite, s.suite.dhPublic(s.dhPrivate), dhPrivate)
    ensures ParseV2(s, T.Decode(R.V2(id, v))) == Some(Agreed(v.serverPublic, v.sharedSecret, v.verifyKey))
  {
    var c := s.suite;
    var fields := T.EncodeOrdered([
      T.Item(T.IDENTIFIER, id.identifier),
      T.Item(T.SIGNATURE, c.sign(id.seed, v.serverPublic + id.identifier + v.clientPublic))]);
    var sealed := c.seal(v.verifyKey, LabelNonce("PV-Msg02"), [], fields);
    var items := [T.Item(T.STATE, [2]), T.Item(T.PUBLIC_KEY, v.serverPublic), T.Item(T.ENCRYPTED_DATA, sealed)];
    T.FieldOnce(items, 1); T.FieldOnce(items, 2);
    T.DecodeOfEncode(items, T.ERROR);
    assert v.serverPublic[..32] == v.serverPublic;
    assert c.dhShared(s.dhPrivate, v.serverPublic) == v.sharedSecret;
    assert c.unseal(v.verifyKey, LabelNonce("PV-Msg02"), [], sealed) == Some(fields);
  }

  /** Whether the sender's V3 signature holds under a key. */
  predicate SignatureHolds(s: Sender, key: seq<byte>, serverPublic: seq<byte>) {
    var signed := s.suite.dhPublic(s.dhPrivate) + s.pairingId + serverPublic;
    |key| == 32 && s.suite.checkSignature(key, signed, s.suite.sign(s.edSeed, signed))
  }

  lemma AnswerV3(s: Sender, id: R.Identity, st: R.State, rnd: R.Random, v: R.HapVerify, key: seq<byte>)
    requires Honest(s, id)
    requires st.verify == Some(v) && v == R.NewVerify(s.suite, s.suite.dhPublic(s.dhPrivate), rnd.dhPrivate)
    requires R.ControllerKey(st, s.suite.lossyText(s.pairingId)) == Some(key)
    ensures var a := Agreed(v.serverPublic, v.sharedSecret, v.verifyKey);
      var (st', v4) := AskVerify(id, st, V3Items(s, a), rnd);
      && (T.ERROR !in v4 <==> SignatureHolds(s, key, v.serverPublic))
      && (SignatureHolds(s, key, v.serverPublic) ==>
          st' == st.(session := R.ReceiverKeys(s.suite, v.sharedSecret), verified := true, verify := None))
  {
    hide V3Fields, R.ReceiverKeys, R.AcceptV3, SignatureHolds, V3Items;
    var a := Agreed(v.serverPublic, v.sharedSecret, v.verifyKey);
    V3Judged(s, id, st, rnd, v, key);
    T.DecodeOfEncode([T.Item(T.STATE, [4])], T.ERROR);
    ErrorReplies(4);
  }

  lemma V3Judged(s: Sender, id: R.Identity, st: R.State, rnd: R.Random, v: R.HapVerify, key: seq<byte>)
    requires Honest(s, id)
    requires st.verify == Some(v) && v == R.NewVerify(s.suite, s.suite.dhPublic(s.dhPrivate), rnd.dhPrivate)
    requires R.ControllerKey(st, s.suite.lossyText(s.pairingId)) == Some(key)
    ensures var msg := T.Decode(T.EncodeOrdered(V3Items(s, Agreed(v.serverPublic, v.sharedSecret, v.verifyKey))));
      && R.StateOf(msg) == Some(3)
      && R.AcceptV3(s.suite, st, v, msg)
        == if SignatureHolds(s, key, v.serverPublic) then Some(R.Registration(s.pairingId, key)) else None
  {
    hide V3Fields;
    var a := Agreed(v.serverPublic, v.sharedSecret, v.verifyKey);
    var items := V3Items(s, a);
    T.FieldOnce(items, 0); T.FieldOnce(items, 1);
    V3Proves(s, a);
  }

  lemma V3Proves(s: Sender, a: Agreed)
    requires s.suite.Lawful() && s.pairingId != []
    ensures var plain := T.EncodeOrdered(V3Fields(s, a));
      var fields := T.Decode(plain);
      && s.suite.unseal(a.verifyKey, LabelNonce("PV-Msg03"), [],
                        s.suite.seal(a.verifyKey, LabelNonce("PV-Msg03"), [], plain)) == Some(plain)
      && T.IDENTIFIER in fields && fields[T.IDENTIFIER] == s.pairingId
      && R.HasSize(fields, T.SIGNATURE, 64)
      && fields[T.SIGNATURE] == s.suite.sign(s.edSeed, s.suite.dhPublic(s.dhPrivate) + s.pairingId + a.serverPublic)
  {
    var items := V3Fields(s, a);
    T.FieldOnce(items, 0); T.FieldOnce(items, 1);
  }

  /** What a completed run leaves on the two ends. */
  ghost predicate Paired(o: Outcome) {
    && o.keys.Some?
    && o.receiver.verified
    && o.keys.value.sharedSecret == o.receiver.session.sharedSecret
    && o.keys.value.writeKey == o.receiver.session.readKey
    && o.keys.value.readKey == o.receiver.session.writeKey
  }

  lemma VerifyRun(s: Sender, id: R.Identity, st: R.State, rnd: R.Random, key: seq<byte>)
    requires Honest(s, id)
    requires R.ControllerKey(st, s.suite.lossyText(s.pairingId)) == Some(key)
    ensures var o := RunVerify(s, id, st, rnd);
      && (o.keys.Some? <==> SignatureHolds(s, key, s.suite.dhPublic(rnd.dhPrivate)))
      && (o.keys.Some? ==> Paired(o))
  {
    hide R.NewVerify, AskVerify, V1Items, V3Items, ParseV2, SignatureHolds;
    var v := R.NewVerify(s.suite, s.suite.dhPublic(s.dhPrivate), rnd.dhPrivate);
    AnswerV1(s, id, st, rnd);
    var (st1, v2) := AskVerify(id, st, V1Items(s), rnd);
    AnswerV3(s, id, st1, rnd, v, key);
    assert v.serverPublic == s.suite.dhPublic(rnd.dhPrivate) by { NewVerifyPublic(s.suite, s.suite.dhPublic(s.dhPrivate), rnd); }
  }

  lemma NewVerifyPublic(c: Suite, clientPublic: seq<byte>, rnd: R.Random)
    ensures R.NewVerify(c, clientPublic, rnd.dhPrivate).serverPublic == c.dhPublic(rnd.dhPrivate)
  {}

  // ---------- the whole run ----------

  /** The receiver looks the sender up among the transient registrations first: one of its name there
      hides the registration of this run, and must fit the sender's signature. */
  predicate NotShadowed(s: Sender, st: R.State, rnd: R.Random) {
    var name := s.suite.lossyText(s.pairingId);
    name in st.transients ==> SignatureHolds(s, st.transients[name], s.suite.dhPublic(rnd.dhPrivate))
  }

  /** From any state of the receiver, an honest run finishes exactly when no public value is
      degenerate, the two forms of the server proof agree and no older transient registration shadows
      the sender; it then leaves the receiver verified and the two key pairs crossed. */
  lemma PairingCompletes(s: Sender, id: R.Identity, st: R.State, rnd: R.Random)
    requires Honest(s, id)
    ensures var o := RunPairing(s, id, st, rnd);
      && (o.keys.Some? <==>
          !Degenerate(s, id, rnd) && ProofsMatch(s, HonestResponse(s, id, rnd)) && NotShadowed(s, st, rnd))
      && (o.keys.Some? ==> Paired(o))
  {
    hide RunSetup, RunVerify, B, A, U, PadTo, ServerProof, HonestResponse, SignatureHolds;
    SetupRun(s, id, st, rnd);
    var (st1, done) := RunSetup(s, id, st, rnd);
    if done.Some? {
      OwnKeyHolds(s, rnd);
      var name := s.suite.lossyText(s.pairingId);
      VerifyRun(s, id, st1, rnd, if name in st.transients then st.transients[name] else s.suite.signPublic(s.edSeed));
    }
  }

  lemma OwnKeyHolds(s: Sender, rnd: R.Random)
    requires s.suite.Lawful()
    ensures SignatureHolds(s, s.suite.signPublic(s.edSeed), s.suite.dhPublic(rnd.dhPrivate))
  {}

  /** A public value of the full 384 bytes is enough. */
  lemma FullSizePublicCompletes(s: Sender, id: R.Identity, st: R.State, rnd: R.Random)
    requires Honest(s, id) && NotShadowed(s, st, rnd) && !Degenerate(s, id, rnd)
    requires |A(s)| == KEY_SIZE
    ensures Paired(RunPairing(s, id, st, rnd))
  {
    hide RunPairing, B, A, U, HonestResponse;
    PairingCompletes(s, id, st, rnd);
    PadFull(A(s));
  }

  lemma PadFull(a: seq<byte>)
    ensures |a| == KEY_SIZE ==> PadTo(a, KEY_SIZE) == a
  {}

  /** The two texts whose hashes the receiver sends and the sender expects. */
  function PaddedText(s: Sender, id: R.Identity, rnd: R.Random): seq<byte>
    requires s.Valid() && id.grp.Valid()
  {
    PadTo(A(s), KEY_SIZE) + HonestResponse(s, id, rnd).proof + HonestResponse(s, id, rnd).key
  }

  function NaturalText(s: Sender, id: R.Identity, rnd: R.Random): seq<byte>
    requires s.Valid() && id.grp.Valid()
  {
    A(s) + HonestResponse(s, id, rnd).proof + HonestResponse(s, id, rnd).key
  }

  /** With a shorter one, a run completes exactly when it is neither degenerate nor shadowed and the hash
      of the padded text equals the hash of the natural one, which is a different text. */
  lemma ShortPublicNeedsCollision(s: Sender, id: R.Identity, st: R.State, rnd: R.Random)
    requires Honest(s, id) && |A(s)| < KEY_SIZE
    ensures PaddedText(s, id, rnd) != NaturalText(s, id, rnd)
    ensures RunPairing(s, id, st, rnd).keys.Some? <==>
      && !Degenerate(s, id, rnd) && NotShadowed(s, st, rnd)
      && s.suite.hash(PaddedText(s, id, rnd)) == s.suite.hash(NaturalText(s, id, rnd))
  {
    hide RunPairing, B, A, U, HonestResponse;
    PairingCompletes(s, id, st, rnd);
    PublicSize(s);
    assert |PaddedText(s, id, rnd)| > |NaturalText(s, id, rnd)|;
  }

  // ---------- any PIN ----------

  /** The sender's proof is the one over the receiver's own key. */
  ghost predicate ProofFits(s: Sender, id: R.Identity, rnd: R.Random)
    requires s.Valid() && id.Valid()
  {
    var key := R.ServerKey(id, R.NewSetup(id, false, rnd), PadTo(A(s), KEY_SIZE));
    HonestResponse(s, id, rnd).proof == ClientProof(s.suite, s.grp, rnd.salt, A(s), ToBytes(B(id, rnd)), key)
  }

  lemma AnyResponse(s: Sender, id: R.Identity, rnd: R.Random)
    requires Linked(s, id) && B(id, rnd) != 0
    ensures var r := HonestResponse(s, id, rnd);
      && Respond(s, Challenge(rnd.salt, PadTo(ToBytes(B(id, rnd)), KEY_SIZE))) == Some(r)
      && r.clientPublic == A(s) && |r.proof| == PROOF_SIZE
  {
    hide ClientProof, ClientSecret, ServerPublic, Verifier, ClientPublic, X, Multiplier, PadTo, SessionKey, ToBytes, FromBytes;
    var b := B(id, rnd);
    PublicInRange(id, rnd);
    FromPadded(b, KEY_SIZE);
    var c, grp, x := s.suite, s.grp, X(s.suite, Ascii(USERNAME), s.pin, rnd.salt);
    var u := U(c, A(s), ToBytes(b));
    ProofSize(c, grp, rnd.salt, A(s), ToBytes(b), SessionKey(c, ClientSecret(grp, Multiplier(c, grp), b, Secret(s), x, u)));
  }

  lemma PublicInRange(id: R.Identity, rnd: R.Random)
    requires id.grp.Valid()
    ensures B(id, rnd) < id.grp.n < Pow(256, KEY_SIZE)
  {
    hide Verifier, Multiplier, X, FromBytes;
  }

  /** Whatever PIN the sender was given: the receiver keeps a shared key exactly when u is not zero and
      the sender's proof is the one over the receiver's own key; otherwise the exchange is gone and the
      reply is an error. */
  lemma AnyPinM3(s: Sender, id: R.Identity, st: R.State, rnd: R.Random)
    requires Linked(s, id) && B(id, rnd) != 0
    requires st.setup == Some(R.NewSetup(id, false, rnd))
    ensures var (st', m4) := Ask(id, st, M3Items(HonestResponse(s, id, rnd)), rnd);
      var key := R.ServerKey(id, st.setup.value, PadTo(A(s), KEY_SIZE));
      if U(s.suite, A(s), ToBytes(B(id, rnd))) != 0 && ProofFits(s, id, rnd)
      then T.ERROR !in m4 && st' == st.(setup := Some(st.setup.value.(sharedKey := Some(key))))
      else T.ERROR in m4 && st' == st.(setup := None)
  {
    hide R.ServerKey, U, ServerProof, ClientProof, PadTo, Respond, A, B, R.NewSetup, HonestResponse;
    var r := HonestResponse(s, id, rnd);
    var items := M3Items(r);
    var msg := T.Decode(T.EncodeOrdered(items));
    T.FieldOnce(items, 0); T.FieldOnce(items, 1); T.FieldOnce(items, 2);
    T.EncodedSize(items, 1);
    NewSetupPublic(id, rnd);
    AnyResponse(s, id, rnd);
    PublicSize(s);
    UOfPadded(s, ToBytes(B(id, rnd)));
    WantedIs(s, id, rnd);
    assert R.SetupStep(id, st, T.EncodeOrdered(items), rnd) == R.StepM3(id, st, msg);
    ErrorReplies(4);
    ReadM4(ServerProof(s.suite, PadTo(A(s), KEY_SIZE), r.proof, R.ServerKey(id, st.setup.value, PadTo(A(s), KEY_SIZE))));
  }

  lemma WantedIs(s: Sender, id: R.Identity, rnd: R.Random)
    requires Linked(s, id)
    ensures var setup := R.NewSetup(id, false, rnd);
      R.WantedProof(id, setup, PadTo(A(s), KEY_SIZE))
      == ClientProof(s.suite, s.grp, rnd.salt, A(s), ToBytes(B(id, rnd)), R.ServerKey(id, setup, PadTo(A(s), KEY_SIZE)))
  {
    hide R.ServerKey, ClientProof, B, ClientPublic, R.NewSetup;
    NewSetupPublic(id, rnd);
    PublicSize(s);
    FromToBytes(B(id, rnd));
    SetupSalt(id, rnd);
  }

  /** With a proof that does not fit, nothing is registered and no keys come of the run; what it leaves is
      the receiver with its exchanges reset. */
  lemma WrongPinStops(s: Sender, id: R.Identity, st: R.State, rnd: R.Random)
    requires Linked(s, id) && B(id, rnd) != 0 && !ProofFits(s, id, rnd)
    ensures RunPairing(s, id, st, rnd) == Outcome(R.Reset(st), None)
  {
    hide R.NewSetup, B, A, U, PadTo, ProofFits, Ask, ParseM2, Respond, HonestResponse, RunVerify, M3Items;
    AnswerM1(s, id, st, rnd);
    NewSetupPublic(id, rnd);
    AnyResponse(s, id, rnd);
    var (st1, m2) := Ask(id, st, M1_ITEMS, rnd);
    AnyPinM3(s, id, st1, rnd);
  }

  // ---------- the conditions can be met, and can fail ----------

  lemma {:induction false} PowOfOne(e: nat)
    ensures Pow(1, e) == 1
  {
    if e > 0 {
      PowOfOne(e - 1);
    }
  }

  lemma {:induction false} PowGrows(k: nat)
    requires k > 0
    ensures Pow(256, k) >= 256
  {
    if k > 1 {
      PowGrows(k - 1);
    } else {
      assert Pow(256, 0) == 1;
    }
  }

  /** Like the plain suite, but the hash tells the length of the message. */
  function LengthSuite(): Suite {
    PlainSuite().(hash := m => Fill(63) + [|m| % 255 + 1])
  }

  lemma LengthSuiteIsLawful()
    ensures LengthSuite().Lawful()
  {
    LawsAreConsistent();
    var c, plain := LengthSuite(), PlainSuite();
    assert c.LawfulSizes();
    forall k, n, a, p
      ensures c.unseal(k, n, a, c.seal(k, n, a, p)) == Some(p)
    {
      assert plain.unseal(k, n, a, plain.seal(k, n, a, p)) == Some(p);
    }
  }

  lemma SmallNumber(b: byte)
    ensures FromBytes(Fill(63) + [b]) == b
  {
    LeadingZeros(63, [b]);
    assert Fill(63) == Zeros(63);
    var one := [b];
    assert one[..0] == [];
  }

  lemma PlainHash(m: seq<byte>)
    ensures FromBytes(PlainSuite().hash(m)) == 1
  {
    SmallNumber(1);
  }

  lemma LengthHash(m: seq<byte>)
    ensures FromBytes(LengthSuite().hash(m)) == |m| % 255 + 1
  {
    SmallNumber(|m| % 255 + 1);
  }

  /** A sender and a receiver that share everything they should; the secrets are 1. */
  function SampleSender(c: Suite, grp: Group): Sender {
    Sender(c, grp, [1], [], [], [], [], false)
  }

  function SampleReceiver(c: Suite, grp: Group): R.Identity {
    R.Identity(c, grp, [2], [], Ascii(USERNAME), [])
  }

  const SAMPLE_RANDOM := R.Random([], [1], [])

  /** A full-size public value: the modulus is 256^384 - 1 and g is 256^383. */
  function FullGroup(): Group {
    PowIsPositive(KEY_SIZE);
    Group(Pow(256, KEY_SIZE) - 1, Pow(256, KEY_SIZE - 1))
  }

  lemma PowSteps(k: nat)
    requires k > 0
    ensures Pow(256, k) == 256 * Pow(256, k - 1) && Pow(256, k - 1) > 0
  {
    PowIsPositive(k - 1);
  }

  lemma {:induction false} PowIsPositive(k: nat)
    ensures Pow(256, k) > 0
  {
    if k > 0 {
      PowIsPositive(k - 1);
    }
  }

  lemma FirstPower(b: nat)
    ensures Pow(b, 1) == b
  {
    assert Pow(b, 0) == 1;
  }

  lemma OneIsOne()
    ensures FromBytes([1]) == 1 && FromBytes([]) == 0
  {
    var one: seq<byte> := [1];
    assert one[..0] == [];
  }

  lemma Remainder(a: nat, n: nat)
    requires a < n
    ensures a % n == a
  {}

  /** All the premises of FullSizePublicCompletes hold of this run, and it completes. */
  lemma SomeFullSizeRunCompletes()
    ensures FullGroup().n > 0
    ensures var s, id := SampleSender(PlainSuite(), FullGroup()), SampleReceiver(PlainSuite(), FullGroup());
      && Honest(s, id) && NotShadowed(s, R.FRESH, SAMPLE_RANDOM) && |A(s)| == KEY_SIZE && !Degenerate(s, id, SAMPLE_RANDOM)
      && Paired(RunPairing(s, id, R.FRESH, SAMPLE_RANDOM))
  {
    hide RunPairing, Paired, A, Degenerate, Pow;
    var grp := FullGroup();
    var s, id := SampleSender(PlainSuite(), grp), SampleReceiver(PlainSuite(), grp);
    LawsAreConsistent();
    PowSteps(KEY_SIZE);
    assert |A(s)| == KEY_SIZE by { FullSize(s); }
    assert !Degenerate(s, id, SAMPLE_RANDOM) by { FullValues(s, id); }
    FullSizePublicCompletes(s, id, R.FRESH, SAMPLE_RANDOM);
  }

  lemma FullSize(s: Sender)
    requires s.grp == FullGroup() && s.grp.Valid() && s.srpSecret == []
    ensures |A(s)| == KEY_SIZE
  {
    hide Pow, ToBytes, FromBytes;
    OneIsOne();
    FirstPower(s.grp.g);
    PowSteps(KEY_SIZE);
    Remainder(s.grp.g, s.grp.n);
    NaturalLength(s.grp.g, KEY_SIZE);
    NaturalLength(s.grp.g, KEY_SIZE - 1);
  }

  lemma FullValues(s: Sender, id: R.Identity)
    requires s.suite == id.suite && s.suite.hash == PlainSuite().hash && s.grp == id.grp == FullGroup() && s.grp.Valid()
    ensures !Degenerate(s, id, SAMPLE_RANDOM)
  {
    hide PlainSuite, PadTo, Pow, FromBytes;
    var c, grp := id.suite, id.grp;
    PlainHash(SAMPLE_RANDOM.salt + c.hash(id.username + Ascii(":") + id.pin));
    PlainHash(PadTo(ToBytes(grp.n), KEY_SIZE) + PadTo(ToBytes(grp.g), KEY_SIZE));
    PlainHash(PadTo(A(s), KEY_SIZE) + PadTo(ToBytes(B(id, SAMPLE_RANDOM)), KEY_SIZE));
    OneIsOne();
    FirstPower(grp.g);
    PowSteps(KEY_SIZE);
    Remainder(grp.g, grp.n);
    Remainder(2 * grp.g, grp.n);
    assert B(id, SAMPLE_RANDOM) == 2 * grp.g;
  }

  /** Like the plain suite, but signatures hold under one key only. */
  function OneKeySuite(): Suite {
    PlainSuite().(checkSignature := (k, m, sig) => k == Fill(32))
  }

  lemma OneKeySuiteIsLawful()
    ensures OneKeySuite().Lawful()
  {
    LawsAreConsistent();
    var c, plain := OneKeySuite(), PlainSuite();
    assert c.LawfulSizes();
    forall k, n, a, p
      ensures c.unseal(k, n, a, c.seal(k, n, a, p)) == Some(p)
    {
      assert plain.unseal(k, n, a, plain.seal(k, n, a, p)) == Some(p);
    }
  }

  const OTHER_KEY: seq<byte> := [1] + Fill(31)

  /** The same run against a receiver that holds another transient key of the sender's name: everything
      else is in order, and it does not complete. */
  lemma SomeShadowedRunFails()
    ensures FullGroup().Valid()
    ensures var s, id := SampleSender(OneKeySuite(), FullGroup()), SampleReceiver(OneKeySuite(), FullGroup());
      var st := R.FRESH.(transients := map[s.suite.lossyText(s.pairingId) := OTHER_KEY]);
      && Honest(s, id) && |A(s)| == KEY_SIZE && !Degenerate(s, id, SAMPLE_RANDOM)
      && !NotShadowed(s, st, SAMPLE_RANDOM) && RunPairing(s, id, st, SAMPLE_RANDOM).keys.None?
  {
    hide RunPairing, Paired, A, Degenerate, Pow, HonestResponse, ProofsMatch;
    var grp := FullGroup();
    var s, id := SampleSender(OneKeySuite(), grp), SampleReceiver(OneKeySuite(), grp);
    var st := R.FRESH.(transients := map[s.suite.lossyText(s.pairingId) := OTHER_KEY]);
    OneKeySuiteIsLawful();
    PowSteps(KEY_SIZE);
    assert |A(s)| == KEY_SIZE by { FullSize(s); }
    assert !Degenerate(s, id, SAMPLE_RANDOM) by { FullValues(s, id); }
    assert OTHER_KEY[0] != Fill(32)[0];
    PairingCompletes(s, id, st, SAMPLE_RANDOM);
  }

  /** An honest run of good values and a short A that does not complete: the two proofs differ. */
  lemma SomeShortRunFails(rnd: R.Random)
    ensures Group(3, 1).Valid()
    ensures var s, id := SampleSender(LengthSuite(), Group(3, 1)), SampleReceiver(LengthSuite(), Group(3, 1));
      && Honest(s, id) && NotShadowed(s, R.FRESH, rnd) && |A(s)| < KEY_SIZE && !Degenerate(s, id, rnd)
      && RunPairing(s, id, R.FRESH, rnd).keys.None?
  {
    hide RunPairing, A, Degenerate, Pow, HonestResponse, LengthSuite, PadTo;
    var c, grp := LengthSuite(), Group(3, 1);
    var s, id := SampleSender(c, grp), SampleReceiver(c, grp);
    LengthSuiteIsLawful();
    PowGrows(KEY_SIZE);
    assert |A(s)| == 1 by { OneByte(s); }
    assert !Degenerate(s, id, rnd) by { SmallValues(s, id, rnd); }
    ShortPublicNeedsCollision(s, id, R.FRESH, rnd);
    HonestSizes(s, id, rnd);
    LengthHash(PaddedText(s, id, rnd));
    LengthHash(NaturalText(s, id, rnd));
  }

  lemma OneByte(s: Sender)
    requires s.grp == Group(3, 1) && s.grp.Valid()
    ensures |A(s)| == 1
  {
    PowOfOne(Secret(s));
  }

  lemma SmallValues(s: Sender, id: R.Identity, rnd: R.Random)
    requires s.suite == id.suite == LengthSuite() && s.grp == id.grp == Group(3, 1) && s.grp.Valid()
    ensures !Degenerate(s, id, rnd)
  {
    hide LengthSuite, PadTo, B, A, ToBytes;
    SmallPublic(id, rnd);
    LengthHash(PadTo(A(s), KEY_SIZE) + PadTo(ToBytes(B(id, rnd)), KEY_SIZE));
  }

  lemma SmallPublic(id: R.Identity, rnd: R.Random)
    requires id.suite == LengthSuite() && id.grp == Group(3, 1) && id.grp.Valid()
    ensures B(id, rnd) == 2
  {
    hide LengthSuite, PadTo, ToBytes, X, Pow, FromBytes;
    PowOfOne(X(id.suite, id.username, id.pin, rnd.salt));
    PowOfOne(FromBytes(rnd.b));
    assert Multiplier(id.suite, id.grp) == 4 by { SmallMultiplier(id); }
  }

  lemma SmallMultiplier(id: R.Identity)
    requires id.suite == LengthSuite() && id.grp == Group(3, 1) && id.grp.Valid()
    ensures Multiplier(id.suite, id.grp) == 4
  {
    hide LengthSuite, ToBytes, Pow, FromBytes;
    PowGrows(KEY_SIZE);
    NaturalLength(3, KEY_SIZE);
    NaturalLength(1, KEY_SIZE);
    LengthHash(PadTo(ToBytes(3), KEY_SIZE) + PadTo(ToBytes(1), KEY_SIZE));
  }

  /** Proof and key are hashes. */
  lemma HonestSizes(s: Sender, id: R.Identity, rnd: R.Random)
    requires Honest(s, id) && !Degenerate(s, id, rnd)
    ensures |HonestResponse(s, id, rnd).proof| == PROOF_SIZE && |HonestResponse(s, id, rnd).key| == PROOF_SIZE
    ensures |PaddedText(s, id, rnd)| == KEY_SIZE + 128 && |NaturalText(s, id, rnd)| == |A(s)| + 128
  {
    hide A, B, PadTo, ClientProof, ClientSecret, ServerSecret, Respond;
    PublicSize(s);
    HonestResponseIs(s, id, rnd);
    NewSetupPublic(id, rnd);
    ClientResponds(s, id, rnd);
  }

  /** Like the plain suite, but the hash tells the last byte of the message. */
  function LastSuite(): Suite {
    PlainSuite().(hash := m => Fill(63) + [if m == [] then 1 else m[|m| - 1] % 255 + 1])
  }

  lemma LastSuiteIsLawful()
    ensures LastSuite().Lawful()
  {
    LawsAreConsistent();
    var c, plain := LastSuite(), PlainSuite();
    assert c.LawfulSizes();
    forall k, n, a, p
      ensures c.unseal(k, n, a, c.seal(k, n, a, p)) == Some(p)
    {
      assert plain.unseal(k, n, a, plain.seal(k, n, a, p)) == Some(p);
    }
  }

  lemma LastHash(m: seq<byte>, b: byte)
    ensures LastSuite().hash(m + [b]) == Fill(63) + [b % 255 + 1]
    ensures FromBytes(LastSuite().hash(m + [b])) == b % 255 + 1
  {
    SmallNumber(b % 255 + 1);
    assert (m + [b])[|m + [b]| - 1] == b;
  }

  /** The hash of a text that ends in a hash. */
  lemma LastOfHash(m: seq<byte>, b: byte)
    ensures LastSuite().hash(m + (Fill(63) + [b])) == Fill(63) + [b % 255 + 1]
  {
    hide LastSuite;
    LastHash(m + Fill(63), b);
    assert m + Fill(63) + [b] == m + (Fill(63) + [b]);
  }

  lemma LastOfPadded(m: seq<byte>, b: byte)
    ensures FromBytes(LastSuite().hash(m + PadTo([b], KEY_SIZE))) == b % 255 + 1
  {
    hide LastSuite, FromBytes;
    LastHash(m + Zeros(KEY_SIZE - 1), b);
    assert m + Zeros(KEY_SIZE - 1) + [b] == m + PadTo([b], KEY_SIZE);
  }

  lemma LastX(username: seq<byte>, digit: byte)
    requires digit < 200
    ensures X(LastSuite(), username, [digit], []) == digit + 2
  {
    hide LastSuite, FromBytes;
    var inner := LastSuite().hash(username + Ascii(":") + [digit]);
    LastHash(username + Ascii(":"), digit);
    assert [] + inner == Fill(63) + [digit + 1];
    LastHash(Fill(63), digit + 1);
  }

  function DigitSender(digit: byte): Sender {
    SampleSender(LastSuite(), Group(3, 2)).(pin := [digit])
  }

  function DigitReceiver(digit: byte): R.Identity {
    SampleReceiver(LastSuite(), Group(3, 2)).(pin := [digit])
  }

  lemma PowersOfTwo()
    ensures Pow(2, 1) == 2 && Pow(2, 2) == 4 && Pow(2, 3) == 8 && Pow(2, 7) == 128 && Pow(2, 10) == 1024
    ensures Pow(1, 3) == 1
  {}

  lemma DigitPublic(s: Sender, id: R.Identity)
    requires s.suite == id.suite == LastSuite() && s.grp == id.grp == Group(3, 2) && s.grp.Valid() && s.srpSecret == [] && id.pin == [0]
    ensures A(s) == [2] && B(id, SAMPLE_RANDOM) == 2 && U(s.suite, [2], [2]) == 3
    ensures Multiplier(id.suite, id.grp) == 3
    ensures Verifier(id.grp, X(id.suite, id.username, id.pin, [])) == 1
  {
    hide LastSuite, PadTo, Pow, FromBytes;
    PowersOfTwo();
    OneIsOne();
    LastX(id.username, 0);
    LastOfPadded(PadTo([3], KEY_SIZE), 2);
    LastOfPadded(PadTo([2], KEY_SIZE), 2);
    assert ToBytes(3) == [3] && ToBytes(2) == [2];
  }

  lemma DigitServerKey(s: Sender, id: R.Identity)
    requires s.suite == id.suite == LastSuite() && s.grp == id.grp == Group(3, 2) && s.grp.Valid() && s.srpSecret == [] && id.pin == [0]
    requires id.Valid()
    ensures R.ServerKey(id, R.NewSetup(id, false, SAMPLE_RANDOM), PadTo(A(s), KEY_SIZE)) == Fill(63) + [3]
  {
    hide LastSuite, PadTo, Pow, FromBytes, X, Multiplier, A;
    PowersOfTwo();
    OneIsOne();
    DigitPublic(s, id);
    NewSetupPublic(id, SAMPLE_RANDOM);
    PublicSize(s);
    var setup := R.NewSetup(id, false, SAMPLE_RANDOM);
    SmallBytes();
    LastOfPadded(PadTo(PadTo([2], KEY_SIZE), KEY_SIZE), 2);
    LastHash([], 2);
    assert [] + [2] == [2];
    assert FromBytes(setup.v) == 1 && setup.b == [1] by { SetupHolds(id); }
    assert ServerSecret(id.grp, 2, 1, 3, 1) == 2;
  }

  lemma SetupHolds(id: R.Identity)
    requires id.grp.Valid()
    ensures var setup := R.NewSetup(id, false, SAMPLE_RANDOM);
      setup.b == [1] && FromBytes(setup.v) == Verifier(id.grp, X(id.suite, id.username, id.pin, []))
  {
    hide X, Pow, FromBytes, ToBytes;
    FromToBytes(Verifier(id.grp, X(id.suite, id.username, id.pin, [])));
  }

  lemma SmallBytes()
    ensures ToBytes(1) == [1] && ToBytes(2) == [2] && ToBytes(3) == [3]
  {}

  lemma DigitSenderKey(s: Sender, id: R.Identity, digit: byte)
    requires s.suite == id.suite == LastSuite() && s.grp == id.grp == Group(3, 2) && s.grp.Valid() && s.srpSecret == [] && id.pin == [0]
    requires s.Valid() && id.Valid() && s.pin == [digit] && digit <= 1
    ensures var r := HonestResponse(s, id, SAMPLE_RANDOM);
      && r.key == Fill(63) + [if digit == 0 then 3 else 2]
      && r.proof == ClientProof(s.suite, s.grp, [], [2], [2], r.key)
  {
    hide LastSuite, PadTo, Pow, FromBytes, X, Multiplier, A, U, ClientProof;
    PowersOfTwo();
    DigitPublic(s, id);
    SmallBytes();
    OneIsOne();
    FromPadded(2, KEY_SIZE);
    LastX(Ascii(USERNAME), digit);
    LastHash([], 2);
    LastHash([], 1);
    assert [] + [2] == [2] && [] + [1] == [1];
    assert ClientSecret(s.grp, 3, 2, 1, 2, 3) == 2 && ClientSecret(s.grp, 3, 2, 1, 3, 3) == 1;
    assert ToBytes(ClientPublic(s.grp, Secret(s))) == A(s) by { PublicIs(s); }
    assert Secret(s) == 1;
  }

  lemma PublicIs(s: Sender)
    requires s.grp.Valid()
    ensures ToBytes(ClientPublic(s.grp, Secret(s))) == A(s)
  {}

  lemma LastProof(grp: Group, key: byte)
    ensures |LastSuite().hash(ToBytes(grp.n))| == |LastSuite().hash(ToBytes(grp.g))|
    ensures ClientProof(LastSuite(), grp, [], [2], [2], Fill(63) + [key]) == Fill(63) + [key % 255 + 1]
  {
    hide XorBytes, ToBytes;
    var c := LastSuite();
    LastSuiteIsLawful();
    LastOfHash(XorBytes(c.hash(ToBytes(grp.n)), c.hash(ToBytes(grp.g))) + c.hash(Ascii(USERNAME)) + [] + [2] + [2], key);
  }

  /** One sender, one receiver, one set of random values: with the receiver's PIN the run completes, with
      another it stops at the proof and nothing is registered. */
  lemma SomeWrongPinFails()
    ensures Group(3, 2).Valid()
    ensures var right, wrong, id := DigitSender(0), DigitSender(1), DigitReceiver(0);
      && wrong == right.(pin := [1])
      && Honest(right, id) && Linked(wrong, id)
      && RunPairing(right, id, R.FRESH, SAMPLE_RANDOM).keys.Some?
      && RunPairing(wrong, id, R.FRESH, SAMPLE_RANDOM) == Outcome(R.FRESH, None)
  {
    hide RunPairing, A, B, U, Pow, HonestResponse, LastSuite, ProofFits, Degenerate, ProofsMatch;
    PowGrows(KEY_SIZE);
    LastSuiteIsLawful();
    var right, wrong, id := DigitSender(0), DigitSender(1), DigitReceiver(0);
    DigitPublic(wrong, id);
    assert !ProofFits(wrong, id, SAMPLE_RANDOM) by { WrongDigit(wrong, id); }
    WrongPinStops(wrong, id, R.FRESH, SAMPLE_RANDOM);
    assert !Degenerate(right, id, SAMPLE_RANDOM) by { DigitsGood(right, id); }
    assert ProofsMatch(right, HonestResponse(right, id, SAMPLE_RANDOM)) by { DigitProofs(right, id); }
    PairingCompletes(right, id, R.FRESH, SAMPLE_RANDOM);
  }

  lemma WrongDigit(s: Sender, id: R.Identity)
    requires s.suite == id.suite == LastSuite() && s.grp == id.grp == Group(3, 2) && s.grp.Valid() && s.srpSecret == [] && id.pin == [0]
    requires s.Valid() && id.Valid() && s.pin == [1]
    ensures !ProofFits(s, id, SAMPLE_RANDOM)
  {
    hide A, B, Pow, HonestResponse, LastSuite, ClientProof, R.ServerKey, R.NewSetup;
    DigitPublic(s, id);
    DigitServerKey(s, id);
    DigitSenderKey(s, id, 1);
    LastProof(s.grp, 2);
    LastProof(s.grp, 3);
    SmallBytes();
    assert (Fill(63) + [3])[63] == 3 && (Fill(63) + [4])[63] == 4;
  }

  lemma DigitsGood(s: Sender, id: R.Identity)
    requires s.suite == id.suite == LastSuite() && s.grp == id.grp == Group(3, 2) && s.grp.Valid() && s.srpSecret == [] && id.pin == [0]
    ensures !Degenerate(s, id, SAMPLE_RANDOM)
  {
    hide A, B, U, Pow, LastSuite;
    DigitPublic(s, id);
    SmallBytes();
  }

  lemma DigitProofs(s: Sender, id: R.Identity)
    requires s.suite == id.suite == LastSuite() && s.grp == id.grp == Group(3, 2) && s.grp.Valid() && s.srpSecret == [] && id.pin == [0]
    requires s.Valid() && id.Valid() && s.pin == [0]
    ensures ProofsMatch(s, HonestResponse(s, id, SAMPLE_RANDOM))
  {
    hide A, B, U, Pow, LastSuite, HonestResponse, ClientProof, PadTo;
    DigitSenderKey(s, id, 0);
    var r := HonestResponse(s, id, SAMPLE_RANDOM);
    LastOfHash(PadTo(A(s), KEY_SIZE) + r.proof, 3);
    LastOfHash(A(s) + r.proof, 3);
  }

  // ---------- what each side could check of the other ----------

  /** The sender answers exactly the challenges whose public value is neither zero nor too large. */
  lemma RespondsExactly(s: Sender, ch: Challenge)
    requires s.Valid()
    ensures Respond(s, ch).Some? <==> 0 < FromBytes(ch.serverPublic) < s.grp.n
  {
    hide X, U, SessionKey, ClientSecret, Multiplier, ClientProof, ClientPublic, ToBytes, FromBytes;
  }

  /** The sender goes on from V2 exactly when it is no error, has a public value of at least 32 bytes, and
      its sealed part, if there is one, opens under the exchange's key. */
  lemma V2TakenExactly(s: Sender, msg: T.Fields)
    ensures ParseV2(s, msg).Some? <==>
      && 0x07 !in msg && 0x03 in msg && |msg[0x03]| >= 32
      && var shared := s.suite.dhShared(s.dhPrivate, msg[0x03][..32]);
         0x05 in msg && msg[0x05] != [] ==>
           s.suite.unseal(s.suite.hkdf(shared, "Pair-Verify-Encrypt-Salt", "Pair-Verify-Encrypt-Info"),
                          [0, 0, 0, 0] + Ascii("PV-Msg02"), [], msg[0x05]).Some?
  {
    R.NonceText("PV-Msg02");
  }

  /** V2 proves the accessory: its sealed part opens to the accessory's name and a signature, good under
      the accessory's key, of both public values and that name. */
  lemma V2Proves(id: R.Identity, v: R.HapVerify)
    requires id.suite.Lawful()
    ensures var c, msg := id.suite, T.Decode(R.V2(id, v));
      && 0x06 in msg && msg[0x06] == [2] && 0x03 in msg && msg[0x03] == v.serverPublic && 0x05 in msg
      && var plain := c.unseal(v.verifyKey, [0, 0, 0, 0] + Ascii("PV-Msg02"), [], msg[0x05]);
      && plain.Some?
      && var fields := T.Decode(plain.value);
      && 0x01 in fields && fields[0x01] == id.identifier && 0x0a in fields
      && c.checkSignature(c.signPublic(id.seed), v.serverPublic + id.identifier + v.clientPublic, fields[0x0a])
  {
    var c := id.suite;
    var inner := [T.Item(T.IDENTIFIER, id.identifier),
                  T.Item(T.SIGNATURE, c.sign(id.seed, v.serverPublic + id.identifier + v.clientPublic))];
    var sealed := c.seal(v.verifyKey, LabelNonce("PV-Msg02"), [], T.EncodeOrdered(inner));
    var items := [T.Item(T.STATE, [2]), T.Item(T.PUBLIC_KEY, v.serverPublic), T.Item(T.ENCRYPTED_DATA, sealed)];
    R.NonceText("PV-Msg02");
    T.FieldOnce(inner, 0); T.FieldOnce(inner, 1);
    T.FieldOnce(items, 0); T.FieldOnce(items, 1); T.FieldOnce(items, 2);
  }

  lemma ThreeFields(identifier: seq<byte>, public: seq<byte>, signature: seq<byte>)
    ensures var f := T.Decode(T.EncodeOrdered([
        T.Item(T.IDENTIFIER, identifier), T.Item(T.PUBLIC_KEY, public), T.Item(T.SIGNATURE, signature)]));
      && 0x01 in f && 0x03 in f && 0x0a in f && f[0x01] == identifier && f[0x03] == public && f[0x0a] == signature
  {
    var items := [T.Item(T.IDENTIFIER, identifier), T.Item(T.PUBLIC_KEY, public), T.Item(T.SIGNATURE, signature)];
    T.FieldOnce(items, 0); T.FieldOnce(items, 1); T.FieldOnce(items, 2);
  }

  lemma TwoFields(state: byte, sealed: seq<byte>)
    ensures var f := T.Decode(T.EncodeOrdered([T.Item(T.STATE, [state]), T.Item(T.ENCRYPTED_DATA, sealed)]));
      0x06 in f && 0x05 in f && f[0x06] == [state] && f[0x05] == sealed
  {
    var items := [T.Item(T.STATE, [state]), T.Item(T.ENCRYPTED_DATA, sealed)];
    T.FieldOnce(items, 0); T.FieldOnce(items, 1);
  }

  /** M6 does so for the accessory's long-term key, under the key of the exchange. */
  lemma M6Proves(id: R.Identity, key: seq<byte>)
    requires id.suite.Lawful()
    ensures var c, msg := id.suite, T.Decode(R.M6(id, key));
      && 0x06 in msg && msg[0x06] == [6] && 0x05 in msg
      && var plain := c.unseal(c.hkdf(key, "Pair-Setup-Encrypt-Salt", "Pair-Setup-Encrypt-Info"),
                               [0, 0, 0, 0] + Ascii("PS-Msg06"), [], msg[0x05]);
      && plain.Some?
      && var fields := T.Decode(plain.value);
      && 0x01 in fields && fields[0x01] == id.identifier
      && 0x03 in fields && fields[0x03] == c.signPublic(id.seed) && 0x0a in fields
      && c.checkSignature(fields[0x03],
           c.hkdf(key, "Pair-Setup-Accessory-Sign-Salt", "Pair-Setup-Accessory-Sign-Info") + id.identifier + fields[0x03],
           fields[0x0a])
  {
    hide T.Decode, T.EncodeOrdered, LabelNonce;
    var c, public := id.suite, id.suite.signPublic(id.seed);
    var signed := c.hkdf(key, "Pair-Setup-Accessory-Sign-Salt", "Pair-Setup-Accessory-Sign-Info") + id.identifier + public;
    var inner := [T.Item(T.IDENTIFIER, id.identifier), T.Item(T.PUBLIC_KEY, public),
                  T.Item(T.SIGNATURE, c.sign(id.seed, signed))];
    var sealed := c.seal(R.SetupKey(c, key), LabelNonce("PS-Msg06"), [], T.EncodeOrdered(inner));
    R.NonceText("PS-Msg06");
    ThreeFields(id.identifier, public, c.sign(id.seed, signed));
    TwoFields(6, sealed);
  }
}
