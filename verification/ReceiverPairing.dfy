/** The receiver's pairing state machine: SRP pair-setup (M1-M6) and pair-verify (V1-V4).

    Each message is first described by what it takes to be accepted (an Option), then by the step it
    makes; the class below performs the same exchange on mutable fields, check by check. */
module ReceiverPairing {
  import opened BigNat
  import opened Bytes
  import opened Crypto
  import opened Srp
  import T = Tlv8

  const AUTH_ERROR: byte := 0x02
  const TRANSIENT_BIT := 0x10

  datatype SrpSetup = SrpSetup(
    salt: seq<byte>,
    b: seq<byte>,
    v: seq<byte>,
    serverPublic: seq<byte>,
    sharedKey: Option<seq<byte>>,
    isTransient: bool)

  datatype HapVerify = HapVerify(
    clientPublic: seq<byte>,
    serverPublic: seq<byte>,
    sharedSecret: seq<byte>,
    verifyKey: seq<byte>)

  datatype SessionKeys = SessionKeys(
    sharedSecret: seq<byte>,
    readKey: seq<byte>,
    writeKey: seq<byte>,
    encrypted: bool)

  const NO_KEYS := SessionKeys([], [], [], false)

  /** What does not change over a connection. */
  datatype Identity = Identity(
    suite: Suite,
    grp: Group,
    identifier: seq<byte>,
    seed: seq<byte>,
    username: seq<byte>,
    pin: seq<byte>)
  {
    ghost predicate Valid() {
      suite.LawfulSizes() && grp.Valid()
    }
  }

  type Controllers = map<seq<byte>, seq<byte>>

  datatype State = State(
    controllers: Controllers,
    transients: Controllers,
    setup: Option<SrpSetup>,
    verify: Option<HapVerify>,
    session: SessionKeys,
    verified: bool)

  const FRESH := State(map[], map[], None, None, NO_KEYS, false)

  /** The random bytes that a request may draw. */
  datatype Random = Random(salt: seq<byte>, b: seq<byte>, dhPrivate: seq<byte>)

  // ---------- replies ----------

  function ErrorReply(state: byte): seq<byte> {
    T.EncodeOrdered([T.Item(T.STATE, [state]), T.Item(T.ERROR, [AUTH_ERROR])])
  }

  function StateOf(msg: T.Fields): Option<byte> {
    if T.STATE in msg && |msg[T.STATE]| == 1 then Some(msg[T.STATE][0]) else None
  }

  predicate HasSize(msg: T.Fields, tag: byte, size: nat) {
    tag in msg && |msg[tag]| == size
  }

  function Reset(st: State): State {
    st.(setup := None, verify := None, session := NO_KEYS, verified := false)
  }

  function ResetVerify(st: State): State {
    st.(verify := None, session := NO_KEYS, verified := false)
  }

  // ---------- pair-setup ----------

  function IsTransientFlags(flags: seq<byte>): bool {
    |flags| in {1, 4} && (flags[0] / TRANSIENT_BIT) % 2 == 1
  }

  /** Whether M1 is acceptable, and if so whether it asks for transient pairing. */
  function AcceptM1(id: Identity, msg: T.Fields): Option<bool> {
    if !(HasSize(msg, T.METHOD, 1) && msg[T.METHOD][0] in {0, 1, 3}) then None
    else if T.FLAGS !in msg then Some(false)
    else if IsTransientFlags(msg[T.FLAGS]) && id.pin == [] then Some(true)
    else None
  }

  function NewSetup(id: Identity, isTransient: bool, rnd: Random): SrpSetup
    requires id.grp.Valid()
  {
    var x := X(id.suite, id.username, if isTransient then [] else id.pin, rnd.salt);
    var v := Verifier(id.grp, x);
    var pub := ServerPublic(id.grp, Multiplier(id.suite, id.grp), v, FromBytes(rnd.b));
    SrpSetup(rnd.salt, rnd.b, ToBytes(v), ToBytes(pub), None, isTransient)
  }

  function M2(setup: SrpSetup): seq<byte> {
    T.EncodeOrdered([
      T.Item(T.STATE, [2]), T.Item(T.SALT, setup.salt), T.Item(T.PUBLIC_KEY, PadTo(setup.serverPublic, KEY_SIZE))])
  }

  function StepM1(id: Identity, st: State, msg: T.Fields, rnd: Random): (State, seq<byte>)
    requires id.grp.Valid()
  {
    match AcceptM1(id, msg)
    case None => (st, ErrorReply(2))
    case Some(isTransient) =>
      var setup := NewSetup(id, isTransient, rnd);
      (Reset(st).(setup := Some(setup)), M2(setup))
  }

  function ServerKey(id: Identity, setup: SrpSetup, clientPublic: seq<byte>): seq<byte>
    requires id.grp.Valid()
  {
    var u := U(id.suite, clientPublic, setup.serverPublic);
    SessionKey(id.suite, ServerSecret(id.grp, FromBytes(clientPublic), FromBytes(setup.v), u, FromBytes(setup.b)))
  }

  function WantedProof(id: Identity, setup: SrpSetup, clientPublic: seq<byte>): seq<byte>
    requires id.Valid()
  {
    ClientProof(id.suite, id.grp, setup.salt, ToBytes(FromBytes(clientPublic)),
                ToBytes(FromBytes(setup.serverPublic)), ServerKey(id, setup, clientPublic))
  }

  predicate AcceptM3(id: Identity, setup: SrpSetup, msg: T.Fields)
    requires id.Valid()
  {
    && HasSize(msg, T.PUBLIC_KEY, KEY_SIZE)
    && HasSize(msg, T.PROOF, PROOF_SIZE)
    && U(id.suite, msg[T.PUBLIC_KEY], setup.serverPublic) != 0
    && msg[T.PROOF] == WantedProof(id, setup, msg[T.PUBLIC_KEY])
  }

  function StepM3(id: Identity, st: State, msg: T.Fields): (State, seq<byte>)
    requires id.Valid()
  {
    if st.setup.None? || st.setup.value.sharedKey.Some? then (st, ErrorReply(4))
    else if !AcceptM3(id, st.setup.value, msg) then (st.(setup := None), ErrorReply(4))
    else
      var setup, clientPublic := st.setup.value, msg[T.PUBLIC_KEY];
      var key := ServerKey(id, setup, clientPublic);
      // the proof covers the padded 384 bytes, not the natural representation
      (st.(setup := Some(setup.(sharedKey := Some(key)))),
       T.EncodeOrdered([
         T.Item(T.STATE, [4]), T.Item(T.PROOF, ServerProof(id.suite, clientPublic, msg[T.PROOF], key))]))
  }

  datatype Registration = Registration(identifier: seq<byte>, publicKey: seq<byte>)

  function SetupKey(c: Suite, key: seq<byte>): seq<byte> {
    c.hkdf(key, "Pair-Setup-Encrypt-Salt", "Pair-Setup-Encrypt-Info")
  }

  function ControllerSigned(c: Suite, key: seq<byte>, r: Registration): seq<byte> {
    c.hkdf(key, "Pair-Setup-Controller-Sign-Salt", "Pair-Setup-Controller-Sign-Info") + r.identifier + r.publicKey
  }

  /** The identity that M5 registers, if its seal, fields and signature are all good. */
  function AcceptM5(c: Suite, key: seq<byte>, msg: T.Fields): Option<Registration> {
    if !(T.ENCRYPTED_DATA in msg && |msg[T.ENCRYPTED_DATA]| >= TAG_SIZE) then None
    else
      var plain :- c.unseal(SetupKey(c, key), LabelNonce("PS-Msg05"), [], msg[T.ENCRYPTED_DATA]);
      var fields := T.Decode(plain);
      if !(T.IDENTIFIER in fields && fields[T.IDENTIFIER] != []
           && HasSize(fields, T.PUBLIC_KEY, 32) && HasSize(fields, T.SIGNATURE, 64)) then None
      else
        var r := Registration(fields[T.IDENTIFIER], fields[T.PUBLIC_KEY]);
        if c.checkSignature(r.publicKey, ControllerSigned(c, key, r), fields[T.SIGNATURE]) then Some(r) else None
  }

  function M6(id: Identity, key: seq<byte>): seq<byte> {
    var c := id.suite;
    var signKey := c.hkdf(key, "Pair-Setup-Accessory-Sign-Salt", "Pair-Setup-Accessory-Sign-Info");
    var public := c.signPublic(id.seed);
    var signature := c.sign(id.seed, signKey + id.identifier + public);
    var fields := T.EncodeOrdered([
      T.Item(T.IDENTIFIER, id.identifier), T.Item(T.PUBLIC_KEY, public), T.Item(T.SIGNATURE, signature)]);
    T.EncodeOrdered([
      T.Item(T.STATE, [6]),
      T.Item(T.ENCRYPTED_DATA, c.seal(SetupKey(c, key), LabelNonce("PS-Msg06"), [], fields))])
  }

  function Register(id: Identity, st: State, isTransient: bool, r: Registration): State {
    var name := id.suite.lossyText(r.identifier);
    if isTransient then st.(transients := st.transients[name := r.publicKey])
    else st.(controllers := st.controllers[name := r.publicKey])
  }

  function StepM5(id: Identity, st: State, msg: T.Fields): (State, seq<byte>) {
    if st.setup.None? || st.setup.value.sharedKey.None? then (st, ErrorReply(6))
    else
      var key := st.setup.value.sharedKey.value;
      match AcceptM5(id.suite, key, msg)
      case None => (st.(setup := None), ErrorReply(6))
      case Some(r) => (Register(id, st, st.setup.value.isTransient, r).(setup := None), M6(id, key))
  }

  /** One /pair-setup request. */
  function SetupStep(id: Identity, st: State, body: seq<byte>, rnd: Random): (State, seq<byte>)
    requires id.Valid()
  {
    if |body| == 32 then
      if id.pin != [] then (st, ErrorReply(4)) else (Reset(st), id.suite.signPublic(id.seed))
    else
      var msg := T.Decode(body);
      match StateOf(msg)
      case Some(1) => StepM1(id, st, msg, rnd)
      case Some(3) => StepM3(id, st, msg)
      case Some(5) => StepM5(id, st, msg)
      case _ => (st, ErrorReply(4))
  }

  // ---------- pair-verify ----------

  function VerifyKey(c: Suite, shared: seq<byte>): seq<byte> {
    c.hkdf(shared, "Pair-Verify-Encrypt-Salt", "Pair-Verify-Encrypt-Info")
  }

  function NewVerify(c: Suite, clientPublic: seq<byte>, dhPrivate: seq<byte>): HapVerify {
    var shared := c.dhShared(dhPrivate, clientPublic);
    HapVerify(clientPublic, c.dhPublic(dhPrivate), shared, VerifyKey(c, shared))
  }

  function V2(id: Identity, v: HapVerify): seq<byte> {
    var c := id.suite;
    var signature := c.sign(id.seed, v.serverPublic + id.identifier + v.clientPublic);
    var fields := T.EncodeOrdered([T.Item(T.IDENTIFIER, id.identifier), T.Item(T.SIGNATURE, signature)]);
    T.EncodeOrdered([
      T.Item(T.STATE, [2]), T.Item(T.PUBLIC_KEY, v.serverPublic),
      T.Item(T.ENCRYPTED_DATA, c.seal(v.verifyKey, LabelNonce("PV-Msg02"), [], fields))])
  }

  function StepV1(id: Identity, st: State, msg: T.Fields, rnd: Random): (State, seq<byte>) {
    if !HasSize(msg, T.PUBLIC_KEY, 32) then (st, ErrorReply(2))
    else
      var v := NewVerify(id.suite, msg[T.PUBLIC_KEY], rnd.dhPrivate);
      (ResetVerify(st).(verify := Some(v)), V2(id, v))
  }

  /** A transient registration hides a permanent one of the same name. */
  function ControllerKey(st: State, name: seq<byte>): Option<seq<byte>> {
    if name in st.transients then Some(st.transients[name])
    else if name in st.controllers then Some(st.controllers[name])
    else None
  }

  /** The identifier and key that V3 proves possession of. */
  function AcceptV3(c: Suite, st: State, v: HapVerify, msg: T.Fields): Option<Registration> {
    if !(T.ENCRYPTED_DATA in msg && |msg[T.ENCRYPTED_DATA]| >= TAG_SIZE) then None
    else
      var plain :- c.unseal(v.verifyKey, LabelNonce("PV-Msg03"), [], msg[T.ENCRYPTED_DATA]);
      var fields := T.Decode(plain);
      if !(T.IDENTIFIER in fields && fields[T.IDENTIFIER] != [] && HasSize(fields, T.SIGNATURE, 64)) then None
      else
        var identifier := fields[T.IDENTIFIER];
        var key :- ControllerKey(st, c.lossyText(identifier));
        if |key| == 32 && c.checkSignature(key, v.clientPublic + identifier + v.serverPublic, fields[T.SIGNATURE])
        then Some(Registration(identifier, key)) else None
  }

  function ReceiverKeys(c: Suite, shared: seq<byte>): SessionKeys {
    SessionKeys(
      shared,
      c.hkdf(shared, "Control-Salt", "Control-Write-Encryption-Key"),
      c.hkdf(shared, "Control-Salt", "Control-Read-Encryption-Key"),
      true)
  }

  function StepV3(id: Identity, st: State, msg: T.Fields): (State, seq<byte>) {
    if st.verify.None? then (st, ErrorReply(4))
    else
      match AcceptV3(id.suite, st, st.verify.value, msg)
      case None => (st.(verify := None), ErrorReply(4))
      case Some(_) =>
        (st.(session := ReceiverKeys(id.suite, st.verify.value.sharedSecret), verified := true, verify := None),
         T.EncodeOrdered([T.Item(T.STATE, [4])]))
  }

  /** One /pair-verify request; keys come back whenever the machine is verified after a V3, even
      alongside an error reply. */
  function VerifyStep(id: Identity, st: State, body: seq<byte>, rnd: Random): (State, seq<byte>, Option<SessionKeys>) {
    var msg := T.Decode(body);
    match StateOf(msg)
    case Some(1) => var (st', reply) := StepV1(id, st, msg, rnd); (st', reply, None)
    case Some(3) =>
      var (st', reply) := StepV3(id, st, msg);
      (st', reply, if st'.verified then Some(st'.session) else None)
    case _ => (st, ErrorReply(2), None)
  }

  /** Kept by every request: a verified machine has no verify exchange pending and holds encrypted
      keys, and it has keys only when verified. */
  predicate Consistent(st: State) {
    && (st.verified ==> st.verify.None? && st.session.encrypted)
    && (!st.verified ==> st.session == NO_KEYS)
  }

  lemma SetupKeepsConsistent(id: Identity, st: State, body: seq<byte>, rnd: Random)
    requires id.Valid() && Consistent(st)
    ensures Consistent(SetupStep(id, st, body, rnd).0)
  {
    hide StepM1, StepM3, StepM5, ErrorReply, StateOf;
    var msg := T.Decode(body);
    M1KeepsConsistent(id, st, msg, rnd);
    M3KeepsConsistent(id, st, msg);
    M5KeepsConsistent(id, st, msg);
  }

  lemma M1KeepsConsistent(id: Identity, st: State, msg: T.Fields, rnd: Random)
    requires id.Valid() && Consistent(st)
    ensures Consistent(StepM1(id, st, msg, rnd).0)
  {
    hide AcceptM1, M2, NewSetup, ErrorReply;
  }

  lemma M3KeepsConsistent(id: Identity, st: State, msg: T.Fields)
    requires id.Valid() && Consistent(st)
    ensures Consistent(StepM3(id, st, msg).0)
  {
    hide AcceptM3, ServerKey, ErrorReply;
  }

  lemma M5KeepsConsistent(id: Identity, st: State, msg: T.Fields)
    requires Consistent(st)
    ensures Consistent(StepM5(id, st, msg).0)
  {
    hide AcceptM5, M6, ErrorReply;
  }

  lemma VerifyKeepsConsistent(id: Identity, st: State, body: seq<byte>, rnd: Random)
    requires Consistent(st)
    ensures Consistent(VerifyStep(id, st, body, rnd).0)
  {
    hide V2, NewVerify, AcceptV3, ErrorReply;
  }

  /** Pair-setup never verifies, and only an accepted V3 does. */
  lemma OnlyV3Verifies(id: Identity, st: State, body: seq<byte>, rnd: Random)
    requires id.Valid() && !st.verified
    ensures !SetupStep(id, st, body, rnd).0.verified
    ensures VerifyStep(id, st, body, rnd).0.verified <==>
      && StateOf(T.Decode(body)) == Some(3)
      && st.verify.Some?
      && AcceptV3(id.suite, st, st.verify.value, T.Decode(body)).Some?
  {
    hide M2, M6, V2, NewSetup, NewVerify, AcceptM3, AcceptM5, AcceptV3, ErrorReply;
  }

  // ---------- what acceptance takes, written out ----------

  /** The client proof of SRP-6a (section 2.6 of RFC 5054), for a verifier v, a secret b and a public
      value of the server: u = H(A | PAD(B)), S = (A * v^u)^b, K = H(S), and the proof is
      H((H(N) xor H(g)) | H(I) | salt | A | B | K). */
  ghost predicate ProvesSecret(id: Identity, salt: seq<byte>, v: nat, b: nat, serverPublic: seq<byte>, a: seq<byte>, proof: seq<byte>, key: seq<byte>)
    requires id.Valid()
  {
    var h, n, g := id.suite.hash, id.grp.n, id.grp.g;
    var u := FromBytes(h(a + PadTo(serverPublic, 384)));
    var secret := Pow((FromBytes(a) * (Pow(v, u) % n)) % n, b) % n;
    && |a| == 384 && |proof| == 64 && u != 0
    && key == h(ToBytes(secret))
    && proof == h(XorBytes(h(ToBytes(n)), h(ToBytes(g))) + h(Ascii("Pair-Setup")) + salt
                  + ToBytes(FromBytes(a)) + ToBytes(FromBytes(serverPublic)) + key)
  }

  /** The same for a PIN: x = H(salt | H(I ":" PIN)), v = g^x, k = H(PAD(N) | PAD(g)) and B = k * v + g^b. */
  ghost predicate ProvesPin(id: Identity, pin: seq<byte>, salt: seq<byte>, b: nat, a: seq<byte>, proof: seq<byte>, key: seq<byte>)
    requires id.Valid()
  {
    var h, n, g := id.suite.hash, id.grp.n, id.grp.g;
    var x := FromBytes(h(salt + h(id.username + Ascii(":") + pin)));
    var k := FromBytes(h(PadTo(ToBytes(n), 384) + PadTo(ToBytes(g), 384)));
    var v := Pow(g, x) % n;
    ProvesSecret(id, salt, v, b, ToBytes(((k * v) % n + Pow(g, b) % n) % n), a, proof, key)
  }

  /** M3 carries such a public value and proof. */
  ghost predicate ProvenM3(id: Identity, setup: SrpSetup, msg: T.Fields, key: seq<byte>)
    requires id.Valid()
  {
    && 0x03 in msg && 0x04 in msg
    && ProvesSecret(id, setup.salt, FromBytes(setup.v), FromBytes(setup.b), setup.serverPublic, msg[0x03], msg[0x04], key)
  }

  lemma AcceptM3Is(id: Identity, setup: SrpSetup, msg: T.Fields)
    requires id.Valid()
    ensures AcceptM3(id, setup, msg) <==> T.PUBLIC_KEY in msg && ProvenM3(id, setup, msg, ServerKey(id, setup, msg[T.PUBLIC_KEY]))
  {
    hide XorBytes, Pow, FromBytes, ToBytes;
    if HasSize(msg, T.PUBLIC_KEY, KEY_SIZE) {
      PadWhole(msg[T.PUBLIC_KEY]);
    }
  }

  lemma PadWhole(a: seq<byte>)
    requires |a| == KEY_SIZE
    ensures PadTo(a, KEY_SIZE) == a
  {}

  /** The setup that an M1 begins stands for the PIN. */
  lemma NewSetupProves(id: Identity, isTransient: bool, rnd: Random, a: seq<byte>, proof: seq<byte>, key: seq<byte>)
    requires id.Valid()
    ensures var setup := NewSetup(id, isTransient, rnd);
      setup.salt == rnd.salt
      && (ProvesSecret(id, setup.salt, FromBytes(setup.v), FromBytes(setup.b), setup.serverPublic, a, proof, key)
          <==> ProvesPin(id, if isTransient then [] else id.pin, rnd.salt, FromBytes(rnd.b), a, proof, key))
  {
    hide ProvesSecret, Pow, FromBytes, ToBytes;
    var x := X(id.suite, id.username, if isTransient then [] else id.pin, rnd.salt);
    FromToBytes(Verifier(id.grp, x));
  }

  /** What a pending setup makes of an M3, whatever it carries: with the right proof the key is kept and
      the server's proof sent, and with any other the setup is gone and the reply is an error. */
  lemma M3Exactly(id: Identity, st: State, body: seq<byte>, rnd: Random)
    requires id.Valid() && |body| != 32 && StateOf(T.Decode(body)) == Some(3)
    requires st.setup.Some? && st.setup.value.sharedKey.None?
    ensures var (st', reply) := SetupStep(id, st, body, rnd);
      var setup, msg := st.setup.value, T.Decode(body);
      if exists key :: ProvenM3(id, setup, msg, key) then
        && st'.setup.Some? && st'.setup.value.sharedKey.Some?
        && var key := st'.setup.value.sharedKey.value;
           && ProvenM3(id, setup, msg, key)
           && st' == st.(setup := Some(setup.(sharedKey := Some(key))))
           && reply == T.EncodeOrdered([T.Item(0x06, [4]), T.Item(0x04, id.suite.hash(msg[0x03] + msg[0x04] + key))])
      else st' == st.(setup := None) && reply == [0x06, 0x01, 0x04, 0x07, 0x01, 0x02]
  {
    hide T.Decode, T.EncodeOrdered, ProvenM3, AcceptM3, ServerKey;
    var setup, msg := st.setup.value, T.Decode(body);
    AcceptM3Is(id, setup, msg);
    ErrorBytes(4);
    if AcceptM3(id, setup, msg) {
      assert ProvenM3(id, setup, msg, ServerKey(id, setup, msg[T.PUBLIC_KEY]));
    } else {
      forall key
        ensures !ProvenM3(id, setup, msg, key)
      {
        OneKey(id, setup, msg, key);
      }
    }
    AcceptedHasKey(id, setup, msg);
  }

  lemma AcceptedHasKey(id: Identity, setup: SrpSetup, msg: T.Fields)
    requires id.Valid()
    ensures AcceptM3(id, setup, msg) ==> T.PUBLIC_KEY in msg && T.PROOF in msg
  {}

  lemma OneKey(id: Identity, setup: SrpSetup, msg: T.Fields, key: seq<byte>)
    requires id.Valid()
    ensures ProvenM3(id, setup, msg, key) ==> T.PUBLIC_KEY in msg && key == ServerKey(id, setup, msg[T.PUBLIC_KEY])
  {
    hide XorBytes, Pow, FromBytes, ToBytes;
    if T.PUBLIC_KEY in msg && |msg[T.PUBLIC_KEY]| == KEY_SIZE {
      PadWhole(msg[T.PUBLIC_KEY]);
    }
  }

  lemma ErrorBytes(state: byte)
    ensures ErrorReply(state) == [0x06, 0x01, state, 0x07, 0x01, 0x02]
  {
    var items := [T.Item(T.STATE, [state]), T.Item(T.ERROR, [AUTH_ERROR])];
    assert items[1..] == [T.Item(T.ERROR, [AUTH_ERROR])];
    assert T.EncodeOrdered(items[1..]) == [0x07, 0x01, 0x02] + T.EncodeOrdered([]);
    assert T.EncodeItem(items[0]) == [0x06, 0x01, state];
  }

  /** A shared key appears only with a proof of the secret. */
  lemma SharedKeyNeedsProof(id: Identity, st: State, body: seq<byte>, rnd: Random)
    requires id.Valid()
    ensures var st', msg := SetupStep(id, st, body, rnd).0, T.Decode(body);
      st'.setup.Some? && st'.setup.value.sharedKey.Some? && (st.setup.None? || st.setup.value.sharedKey.None?) ==>
        && |body| != 32 && StateOf(msg) == Some(3) && st.setup.Some?
        && ProvenM3(id, st.setup.value, msg, st'.setup.value.sharedKey.value)
  {
    hide T.Decode, ProvenM3, AcceptM3, AcceptM1, AcceptM5, ServerKey, NewSetup, M2, M6, T.EncodeOrdered, ErrorReply;
    if |body| != 32 && StateOf(T.Decode(body)) == Some(3) && st.setup.Some? {
      AcceptM3Is(id, st.setup.value, T.Decode(body));
      AcceptedHasKey(id, st.setup.value, T.Decode(body));
    }
    NewSetupHasNoKey(id, rnd);
  }

  lemma NewSetupHasNoKey(id: Identity, rnd: Random)
    requires id.Valid()
    ensures NewSetup(id, true, rnd).sharedKey.None? && NewSetup(id, false, rnd).sharedKey.None?
  {}

  /** M5 opens under the key of M3's secret, and its identity is signed by the key it registers. */
  ghost predicate SignedM5(c: Suite, key: seq<byte>, msg: T.Fields, r: Registration) {
    && 0x05 in msg && |msg[0x05]| >= 16
    && var plain := c.unseal(c.hkdf(key, "Pair-Setup-Encrypt-Salt", "Pair-Setup-Encrypt-Info"),
                             [0, 0, 0, 0] + Ascii("PS-Msg05"), [], msg[0x05]);
    && plain.Some?
    && var fields := T.Decode(plain.value);
    && 0x01 in fields && 0x03 in fields && 0x0a in fields
    && fields[0x01] == r.identifier != [] && fields[0x03] == r.publicKey && |r.publicKey| == 32 && |fields[0x0a]| == 64
    && c.checkSignature(r.publicKey,
         c.hkdf(key, "Pair-Setup-Controller-Sign-Salt", "Pair-Setup-Controller-Sign-Info") + r.identifier + r.publicKey,
         fields[0x0a])
  }

  lemma AcceptM5Is(c: Suite, key: seq<byte>, msg: T.Fields, r: Registration)
    ensures AcceptM5(c, key, msg) == Some(r) <==> SignedM5(c, key, msg, r)
  {
    hide T.Decode;
    NonceText("PS-Msg05");
  }

  lemma NonceText(text: string)
    ensures LabelNonce(text) == [0, 0, 0, 0] + Ascii(text)
  {
    assert Fill(4) == [0, 0, 0, 0];
  }

  /** V3 opens under the key of the exchange, and the text A | identifier | B is signed by the key that is
      registered for the identifier, a transient registration first. */
  ghost predicate SignedV3(c: Suite, st: State, v: HapVerify, msg: T.Fields, r: Registration) {
    && 0x05 in msg && |msg[0x05]| >= 16
    && var plain := c.unseal(v.verifyKey, [0, 0, 0, 0] + Ascii("PV-Msg03"), [], msg[0x05]);
    && plain.Some?
    && var fields := T.Decode(plain.value);
    && 0x01 in fields && 0x0a in fields && fields[0x01] == r.identifier != [] && |fields[0x0a]| == 64
    && var name := c.lossyText(r.identifier);
    && (if name in st.transients then st.transients[name] == r.publicKey
        else name in st.controllers && st.controllers[name] == r.publicKey)
    && |r.publicKey| == 32
    && c.checkSignature(r.publicKey, v.clientPublic + r.identifier + v.serverPublic, fields[0x0a])
  }

  lemma AcceptV3Is(c: Suite, st: State, v: HapVerify, msg: T.Fields, r: Registration)
    ensures AcceptV3(c, st, v, msg) == Some(r) <==> SignedV3(c, st, v, msg, r)
  {
    hide T.Decode;
    NonceText("PV-Msg03");
  }

  /** The exchange that a V1 begins, written out. */
  lemma NewVerifyIs(c: Suite, clientPublic: seq<byte>, dhPrivate: seq<byte>)
    ensures var v, shared := NewVerify(c, clientPublic, dhPrivate), c.dhShared(dhPrivate, clientPublic);
      && v.clientPublic == clientPublic && v.serverPublic == c.dhPublic(dhPrivate) && v.sharedSecret == shared
      && v.verifyKey == c.hkdf(shared, "Pair-Verify-Encrypt-Salt", "Pair-Verify-Encrypt-Info")
  {}

  // ---------- the machine ----------

  class Receiver {
    const id: Identity
    var controllers: Controllers
    var transients: Controllers
    var setup: Option<SrpSetup>
    var verify: Option<HapVerify>
    var session: SessionKeys
    var verified: bool

    constructor (id: Identity)
      ensures this.id == id && Now() == FRESH
    {
      this.id := id;
      controllers, transients := map[], map[];
      setup, verify := None, None;
      session, verified := NO_KEYS, false;
    }

    function Now(): State
      reads this
    {
      State(controllers, transients, setup, verify, session, verified)
    }

    method PairSetup(body: seq<byte>, rnd: Random) returns (reply: seq<byte>)
      requires id.Valid()
      modifies this
      ensures (Now(), reply) == SetupStep(id, old(Now()), body, rnd)
    {
      if |body| == 32 {
        if id.pin != [] {
          return ErrorReply(4);
        }
        ResetAll();
        return id.suite.signPublic(id.seed);
      }
      var msg := T.DecodeFields(body);
      if T.STATE !in msg || |msg[T.STATE]| != 1 {
        return ErrorReply(4);
      }
      var state := msg[T.STATE][0];
      if state == 1 {
        reply := BeginSrpSetup(msg, rnd);
      } else if state == 3 {
        reply := VerifySrpProof(msg);
      } else if state == 5 {
        reply := FinishSrpSetup(msg);
      } else {
        reply := ErrorReply(4);
      }
    }

    method BeginSrpSetup(msg: T.Fields, rnd: Random) returns (reply: seq<byte>)
      requires id.Valid()
      modifies this
      ensures (Now(), reply) == StepM1(id, old(Now()), msg, rnd)
    {
      hide M2, AcceptM1, ErrorReply, X, Verifier, ServerPublic, Multiplier;
      var accepted := CheckM1(msg);
      if accepted.None? {
        return ErrorReply(2);
      }
      var isTransient := accepted.value;
      ResetAll();
      var pin := if isTransient then [] else id.pin;
      var x := X(id.suite, id.username, pin, rnd.salt);
      var v := Verifier(id.grp, x);
      var pub := ServerPublic(id.grp, Multiplier(id.suite, id.grp), v, FromBytes(rnd.b));
      setup := Some(SrpSetup(rnd.salt, rnd.b, ToBytes(v), ToBytes(pub), None, isTransient));
      reply := M2(setup.value);
    }

    /** The method and flags that an M1 may have; the result says whether it is transient. */
    method CheckM1(msg: T.Fields) returns (r: Option<bool>)
      ensures r == AcceptM1(id, msg)
    {
      if T.METHOD !in msg {
        return None;
      }
      var m := msg[T.METHOD];
      if |m| != 1 || m[0] !in {0, 1, 3} {
        return None;
      }
      var isTransient := false;
      if T.FLAGS in msg {
        var flags := msg[T.FLAGS];
        if |flags| != 1 && |flags| != 4 {
          return None;
        }
        if (flags[0] / TRANSIENT_BIT) % 2 == 0 {
          return None;
        }
        isTransient := true;
      }
      if isTransient && id.pin != [] {
        return None;
      }
      r := Some(isTransient);
    }

    method VerifySrpProof(msg: T.Fields) returns (reply: seq<byte>)
      requires id.Valid()
      modifies this
      ensures (Now(), reply) == StepM3(id, old(Now()), msg)
    {
      hide ServerSecret, ClientProof, ServerProof;
      if setup.None? || setup.value.sharedKey.Some? {
        return ErrorReply(4);
      }
      var s := setup.value;
      if !HasSize(msg, T.PUBLIC_KEY, KEY_SIZE) || !HasSize(msg, T.PROOF, PROOF_SIZE) {
        setup := None;
        return ErrorReply(4);
      }
      var clientPublic, clientProof := msg[T.PUBLIC_KEY], msg[T.PROOF];
      var u := U(id.suite, clientPublic, s.serverPublic);
      if u == 0 {
        setup := None;
        return ErrorReply(4);
      }
      var shared := ServerSecret(id.grp, FromBytes(clientPublic), FromBytes(s.v), u, FromBytes(s.b));
      var sharedKey := id.suite.hash(ToBytes(shared));
      var want := ClientProof(id.suite, id.grp, s.salt, ToBytes(FromBytes(clientPublic)),
                              ToBytes(FromBytes(s.serverPublic)), sharedKey);
      if want != clientProof {
        setup := None;
        return ErrorReply(4);
      }
      setup := Some(s.(sharedKey := Some(sharedKey)));
      var serverProof := ServerProof(id.suite, clientPublic, want, sharedKey);
      reply := T.Encode([T.Item(T.STATE, [4]), T.Item(T.PROOF, serverProof)]);
    }

    method FinishSrpSetup(msg: T.Fields) returns (reply: seq<byte>)
      modifies this
      ensures (Now(), reply) == StepM5(id, old(Now()), msg)
    {
      hide M6, ControllerSigned;
      if setup.None? || setup.value.sharedKey.None? {
        return ErrorReply(6);
      }
      var key, isTransient := setup.value.sharedKey.value, setup.value.isTransient;
      if T.ENCRYPTED_DATA !in msg || |msg[T.ENCRYPTED_DATA]| < TAG_SIZE {
        setup := None;
        return ErrorReply(6);
      }
      var plain := id.suite.unseal(SetupKey(id.suite, key), LabelNonce("PS-Msg05"), [], msg[T.ENCRYPTED_DATA]);
      if plain.None? {
        setup := None;
        return ErrorReply(6);
      }
      var fields := T.DecodeFields(plain.value);
      if T.IDENTIFIER !in fields || fields[T.IDENTIFIER] == [] {
        setup := None;
        return ErrorReply(6);
      }
      if !HasSize(fields, T.PUBLIC_KEY, 32) {
        setup := None;
        return ErrorReply(6);
      }
      if !HasSize(fields, T.SIGNATURE, 64) {
        setup := None;
        return ErrorReply(6);
      }
      var r := Registration(fields[T.IDENTIFIER], fields[T.PUBLIC_KEY]);
      if !id.suite.checkSignature(r.publicKey, ControllerSigned(id.suite, key, r), fields[T.SIGNATURE]) {
        setup := None;
        return ErrorReply(6);
      }
      var name := id.suite.lossyText(r.identifier);
      if isTransient {
        transients := transients[name := r.publicKey];
      } else {
        controllers := controllers[name := r.publicKey];
      }
      setup := None;
      reply := M6(id, key);
    }

    method PairVerify(body: seq<byte>, rnd: Random) returns (reply: seq<byte>, keys: Option<SessionKeys>)
      modifies this
      ensures (Now(), reply, keys) == VerifyStep(id, old(Now()), body, rnd)
    {
      keys := None;
      var msg := T.DecodeFields(body);
      if T.STATE !in msg || |msg[T.STATE]| != 1 {
        return ErrorReply(2), None;
      }
      var state := msg[T.STATE][0];
      if state == 1 {
        reply := BeginHapVerify(msg, rnd);
      } else if state == 3 {
        reply := FinishHapVerify(msg);
        if verified {
          keys := Some(session);
        }
      } else {
        reply := ErrorReply(2);
      }
    }

    method BeginHapVerify(msg: T.Fields, rnd: Random) returns (reply: seq<byte>)
      modifies this
      ensures (Now(), reply) == StepV1(id, old(Now()), msg, rnd)
    {
      hide V2;
      if !HasSize(msg, T.PUBLIC_KEY, 32) {
        return ErrorReply(2);
      }
      var clientPublic := msg[T.PUBLIC_KEY];
      ResetVerifyState();
      var serverPublic := id.suite.dhPublic(rnd.dhPrivate);
      var shared := id.suite.dhShared(rnd.dhPrivate, clientPublic);
      verify := Some(HapVerify(clientPublic, serverPublic, shared, VerifyKey(id.suite, shared)));
      reply := V2(id, verify.value);
    }

    method FinishHapVerify(msg: T.Fields) returns (reply: seq<byte>)
      modifies this
      ensures (Now(), reply) == StepV3(id, old(Now()), msg)
    {
      if verify.None? {
        return ErrorReply(4);
      }
      var v := verify.value;
      if T.ENCRYPTED_DATA !in msg || |msg[T.ENCRYPTED_DATA]| < TAG_SIZE {
        verify := None;
        return ErrorReply(4);
      }
      var plain := id.suite.unseal(v.verifyKey, LabelNonce("PV-Msg03"), [], msg[T.ENCRYPTED_DATA]);
      if plain.None? {
        verify := None;
        return ErrorReply(4);
      }
      var fields := T.DecodeFields(plain.value);
      if T.IDENTIFIER !in fields || fields[T.IDENTIFIER] == [] {
        verify := None;
        return ErrorReply(4);
      }
      if !HasSize(fields, T.SIGNATURE, 64) {
        verify := None;
        return ErrorReply(4);
      }
      var identifier := fields[T.IDENTIFIER];
      var name := id.suite.lossyText(identifier);
      if name !in transients && name !in controllers {
        verify := None;
        return ErrorReply(4);
      }
      var key := if name in transients then transients[name] else controllers[name];
      if |key| != 32 || !id.suite.checkSignature(key, v.clientPublic + identifier + v.serverPublic, fields[T.SIGNATURE]) {
        verify := None;
        return ErrorReply(4);
      }
      session := SessionKeys(
        v.sharedSecret,
        id.suite.hkdf(v.sharedSecret, "Control-Salt", "Control-Write-Encryption-Key"),
        id.suite.hkdf(v.sharedSecret, "Control-Salt", "Control-Read-Encryption-Key"),
        true);
      verified := true;
      verify := None;
      reply := T.Encode([T.Item(T.STATE, [4])]);
    }

    method ResetAll()
      modifies this
      ensures Now() == Reset(old(Now()))
    {
      ResetVerifyState();
      setup := None;
    }

    method ResetVerifyState()
      modifies this
      ensures Now() == ResetVerify(old(Now()))
    {
      verify := None;
      session := NO_KEYS;
      verified := false;
    }
  }
}
