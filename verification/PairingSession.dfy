/** The sender's side of PIN pairing: pair-setup M1-M6, then pair-verify V1-V4. */
module PairingSession {
  import opened BigNat
  import opened Bytes
  import opened Crypto
  import opened Srp
  import T = Tlv8
  import R = ReceiverPairing

  /** What the sender brings to a pairing run, random draws included. */
  datatype Sender = Sender(
    suite: Suite,
    grp: Group,
    pairingId: seq<byte>,
    pin: seq<byte>,
    edSeed: seq<byte>,
    srpSecret: seq<byte>,
    dhPrivate: seq<byte>,
    screenCapture: bool)
  {
    ghost predicate Valid() {
      suite.LawfulSizes() && grp.Valid()
    }
  }

  const SCREEN_CAPTURE_ACL: seq<byte> := [0xe1, 0x57] + Ascii("com.apple.ScreenCapture") + [0x01]

  // ---------- pair-setup ----------

  const M1_ITEMS := [T.Item(T.METHOD, [0]), T.Item(T.STATE, [1])]

  datatype Challenge = Challenge(salt: seq<byte>, serverPublic: seq<byte>)

  function ParseM2(msg: T.Fields): Option<Challenge> {
    if T.ERROR in msg || T.SALT !in msg || T.PUBLIC_KEY !in msg then None
    else Some(Challenge(msg[T.SALT], msg[T.PUBLIC_KEY]))
  }

  datatype Response = Response(clientPublic: seq<byte>, proof: seq<byte>, key: seq<byte>)

  function Secret(s: Sender): nat {
    if FromBytes(s.srpSecret) == 0 then 1 else FromBytes(s.srpSecret)
  }

  /** The SRP computation on a challenge; fails on B = 0 or B >= N. */
  function Respond(s: Sender, ch: Challenge): Option<Response>
    requires s.Valid()
  {
    var b := FromBytes(ch.serverPublic);
    if b == 0 || b >= s.grp.n then None
    else
      var c, grp := s.suite, s.grp;
      var x := X(c, Ascii(USERNAME), s.pin, ch.salt);
      var clientPublic, serverPublic := ToBytes(ClientPublic(grp, Secret(s))), ToBytes(b);
      var u := U(c, clientPublic, serverPublic);
      var key := SessionKey(c, ClientSecret(grp, Multiplier(c, grp), b, Secret(s), x, u));
      Some(Response(clientPublic, ClientProof(c, grp, ch.salt, clientPublic, serverPublic, key), key))
  }

  function M3Items(r: Response): seq<T.Item> {
    [T.Item(T.STATE, [3]), T.Item(T.PUBLIC_KEY, PadTo(r.clientPublic, KEY_SIZE)), T.Item(T.PROOF, r.proof)]
  }

  /** The server proof, when present, must cover the natural representation of A. */
  predicate GoodM4(s: Sender, r: Response, msg: T.Fields) {
    && T.ERROR !in msg
    && (T.PROOF in msg ==> msg[T.PROOF] == ServerProof(s.suite, r.clientPublic, r.proof, r.key))
  }

  function M5Fields(s: Sender, r: Response): seq<T.Item> {
    var public := s.suite.signPublic(s.edSeed);
    var signed := R.ControllerSigned(s.suite, r.key, R.Registration(s.pairingId, public));
    [T.Item(T.IDENTIFIER, s.pairingId), T.Item(T.PUBLIC_KEY, public),
     T.Item(T.SIGNATURE, s.suite.sign(s.edSeed, signed))]
    + if s.screenCapture then [T.Item(T.ACL, SCREEN_CAPTURE_ACL)] else []
  }

  function M5Items(s: Sender, r: Response): seq<T.Item> {
    var sealed := s.suite.seal(R.SetupKey(s.suite, r.key), LabelNonce("PS-Msg05"), [], T.EncodeOrdered(M5Fields(s, r)));
    [T.Item(T.ENCRYPTED_DATA, sealed), T.Item(T.STATE, [5])]
  }

  // ---------- pair-verify ----------

  function V1Items(s: Sender): seq<T.Item> {
    [T.Item(T.STATE, [1]), T.Item(T.PUBLIC_KEY, s.suite.dhPublic(s.dhPrivate))]
  }

  datatype Agreed = Agreed(serverPublic: seq<byte>, shared: seq<byte>, verifyKey: seq<byte>)

  /** The shared secret from V2; sealed data, when present, must open under the verify key. */
  function ParseV2(s: Sender, msg: T.Fields): Option<Agreed> {
    if T.ERROR in msg || T.PUBLIC_KEY !in msg || |msg[T.PUBLIC_KEY]| < 32 then None
    else
      var serverPublic := msg[T.PUBLIC_KEY][..32];
      var shared := s.suite.dhShared(s.dhPrivate, serverPublic);
      var verifyKey := R.VerifyKey(s.suite, shared);
      var sealed := if T.ENCRYPTED_DATA in msg then msg[T.ENCRYPTED_DATA] else [];
      if sealed != [] && s.suite.unseal(verifyKey, LabelNonce("PV-Msg02"), [], sealed).None? then None
      else Some(Agreed(serverPublic, shared, verifyKey))
  }

  function V3Fields(s: Sender, a: Agreed): seq<T.Item> {
    var signed := s.suite.dhPublic(s.dhPrivate) + s.pairingId + a.serverPublic;
    [T.Item(T.IDENTIFIER, s.pairingId), T.Item(T.SIGNATURE, s.suite.sign(s.edSeed, signed))]
  }

  function V3Items(s: Sender, a: Agreed): seq<T.Item> {
    [T.Item(T.STATE, [3]),
     T.Item(T.ENCRYPTED_DATA, s.suite.seal(a.verifyKey, LabelNonce("PV-Msg03"), [], T.EncodeOrdered(V3Fields(s, a))))]
  }

  // ---------- one run against a receiver ----------

  datatype Outcome = Outcome(receiver: R.State, keys: Option<R.SessionKeys>)

  /** The sender's channel keys: the receiver's pair, the other way round. */
  function SenderKeys(c: Suite, shared: seq<byte>): R.SessionKeys {
    R.SessionKeys(
      shared,
      c.hkdf(shared, "Control-Salt", "Control-Read-Encryption-Key"),
      c.hkdf(shared, "Control-Salt", "Control-Write-Encryption-Key"),
      true)
  }

  function Ask(id: R.Identity, st: R.State, items: seq<T.Item>, rnd: R.Random): (R.State, T.Fields)
    requires id.Valid()
  {
    var (st', reply) := R.SetupStep(id, st, T.EncodeOrdered(items), rnd);
    (st', T.Decode(reply))
  }

  function AskVerify(id: R.Identity, st: R.State, items: seq<T.Item>, rnd: R.Random): (R.State, T.Fields)
    requires id.Valid()
  {
    var (st', reply, _) := R.VerifyStep(id, st, T.EncodeOrdered(items), rnd);
    (st', T.Decode(reply))
  }

  function RunSetup(s: Sender, id: R.Identity, st: R.State, rnd: R.Random): (R.State, Option<Response>)
    requires s.Valid() && id.Valid()
  {
    var (st1, m2) := Ask(id, st, M1_ITEMS, rnd);
    match ParseM2(m2)
    case None => (st1, None)
    case Some(ch) => FinishSetup(s, id, st1, ch, rnd)
  }

  function FinishSetup(s: Sender, id: R.Identity, st: R.State, ch: Challenge, rnd: R.Random): (R.State, Option<Response>)
    requires s.Valid() && id.Valid()
  {
    match Respond(s, ch)
    case None => (st, None)
    case Some(r) =>
      var (st1, m4) := Ask(id, st, M3Items(r), rnd);
      if !GoodM4(s, r, m4) then (st1, None)
      else
        var (st2, m6) := Ask(id, st1, M5Items(s, r), rnd);
        (st2, if T.ERROR in m6 then None else Some(r))
  }

  function RunVerify(s: Sender, id: R.Identity, st: R.State, rnd: R.Random): Outcome
    requires s.Valid() && id.Valid()
  {
    var (st1, v2) := AskVerify(id, st, V1Items(s), rnd);
    match ParseV2(s, v2)
    case None => Outcome(st1, None)
    case Some(a) =>
      var (st2, v4) := AskVerify(id, st1, V3Items(s, a), rnd);
      Outcome(st2, if T.ERROR in v4 then None else Some(SenderKeys(s.suite, a.shared)))
  }

  function RunPairing(s: Sender, id: R.Identity, st: R.State, rnd: R.Random): Outcome
    requires s.Valid() && id.Valid()
  {
    var (st1, r) := RunSetup(s, id, st, rnd);
    if r.None? then Outcome(st1, None) else RunVerify(s, id, st1, rnd)
  }

  // ---------- the session object ----------

  class Session {
    const sender: Sender
    var edPublic: seq<byte>
    var sharedSecret: seq<byte>
    var encWriteKey: seq<byte>
    var encReadKey: seq<byte>
    var encrypted: bool

    constructor (sender: Sender)
      ensures this.sender == sender && !encrypted
    {
      this.sender := sender;
      edPublic, sharedSecret := [], [];
      encWriteKey, encReadKey := [], [];
      encrypted := false;
    }

    /** Runs both exchanges, with the receiver object as the transport. */
    method PairWithPin(receiver: R.Receiver, rnd: R.Random) returns (ok: bool)
      requires sender.Valid() && receiver.id.Valid()
      modifies this, receiver
      ensures Outcome(receiver.Now(), if ok then Some(Keys()) else None)
        == RunPairing(sender, receiver.id, old(receiver.Now()), rnd)
      ensures ok ==> encrypted
    {
      hide RunVerify;
      edPublic := sender.suite.signPublic(sender.edSeed);
      ok := PairSetup(receiver, rnd);
      if ok {
        ok := PairVerify(receiver, rnd);
      }
    }

    function Keys(): R.SessionKeys
      reads this
    {
      R.SessionKeys(sharedSecret, encReadKey, encWriteKey, encrypted)
    }

    method PairSetup(receiver: R.Receiver, rnd: R.Random) returns (ok: bool)
      requires sender.Valid() && receiver.id.Valid()
      requires edPublic == sender.suite.signPublic(sender.edSeed)
      modifies this, receiver
      ensures var (st, r) := RunSetup(sender, receiver.id, old(receiver.Now()), rnd);
        receiver.Now() == st && ok == r.Some?
    {
      hide R.SetupStep, Respond, GoodM4, M5Items;
      var m1 := T.Encode(M1_ITEMS);
      var m2Bytes := receiver.PairSetup(m1, rnd);
      var m2 := T.DecodeFields(m2Bytes);
      if T.ERROR in m2 {
        return false;
      }
      if T.SALT !in m2 {
        return false;
      }
      if T.PUBLIC_KEY !in m2 {
        return false;
      }
      ok := CompleteSrpExchange(receiver, Challenge(m2[T.SALT], m2[T.PUBLIC_KEY]), rnd);
    }

    method CompleteSrpExchange(receiver: R.Receiver, ch: Challenge, rnd: R.Random) returns (ok: bool)
      requires sender.Valid() && receiver.id.Valid()
      requires edPublic == sender.suite.signPublic(sender.edSeed)
      modifies this, receiver
      ensures receiver.Now() == FinishSetup(sender, receiver.id, old(receiver.Now()), ch, rnd).0
      ensures ok == FinishSetup(sender, receiver.id, old(receiver.Now()), ch, rnd).1.Some?
    {
      hide Respond, GoodM4, Ask, M3Items, M5Items;
      var response := AnswerChallenge(ch);
      if response.None? {
        return false;
      }
      var r := response.value;
      var m4 := SendSetup(receiver, M3Items(r), rnd);
      var good := CheckM4(r, m4);
      if !good {
        return false;
      }
      var m5 := BuildM5(r);
      var m6 := SendSetup(receiver, m5, rnd);
      if T.ERROR in m6 {
        return false;
      }
      sharedSecret := r.key;
      ok := true;
    }

    method SendSetup(receiver: R.Receiver, items: seq<T.Item>, rnd: R.Random) returns (reply: T.Fields)
      requires receiver.id.Valid()
      modifies receiver
      ensures (receiver.Now(), reply) == Ask(receiver.id, old(receiver.Now()), items, rnd)
    {
      hide R.SetupStep;
      var message := T.Encode(items);
      var bytes := receiver.PairSetup(message, rnd);
      reply := T.DecodeFields(bytes);
    }

    /** The SRP computation: A, the shared key and the proof of it. */
    method AnswerChallenge(ch: Challenge) returns (r: Option<Response>)
      requires sender.Valid()
      ensures r == Respond(sender, ch)
    {
      hide ClientProof, ClientSecret;
      var c, grp := sender.suite, sender.grp;
      var x := X(c, Ascii(USERNAME), sender.pin, ch.salt);
      var a := FromBytes(sender.srpSecret);
      if a == 0 {
        a := 1;
      }
      var clientPublic := ToBytes(ModPow(grp.g, a, grp.n));
      var b := FromBytes(ch.serverPublic);
      if b == 0 || b >= grp.n {
        return None;
      }
      var serverPublic := ToBytes(b);
      var u := U(c, clientPublic, serverPublic);
      var key := SessionKey(c, ClientSecret(grp, Multiplier(c, grp), b, a, x, u));
      var proof := ClientProof(c, grp, ch.salt, clientPublic, serverPublic, key);
      r := Some(Response(clientPublic, proof, key));
    }

    method CheckM4(r: Response, m4: T.Fields) returns (good: bool)
      ensures good == GoodM4(sender, r, m4)
    {
      hide ServerProof;
      if T.ERROR in m4 {
        return false;
      }
      var expected := ServerProof(sender.suite, r.clientPublic, r.proof, r.key);
      if T.PROOF in m4 {
        if m4[T.PROOF] != expected {
          return false;
        }
      }
      good := true;
    }

    /** The sealed and signed identity. */
    method BuildM5(r: Response) returns (items: seq<T.Item>)
      requires edPublic == sender.suite.signPublic(sender.edSeed)
      ensures items == M5Items(sender, r)
    {
      hide R.ControllerSigned;
      var c := sender.suite;
      var signed := R.ControllerSigned(c, r.key, R.Registration(sender.pairingId, edPublic));
      var fields := [
        T.Item(T.IDENTIFIER, sender.pairingId), T.Item(T.PUBLIC_KEY, edPublic),
        T.Item(T.SIGNATURE, c.sign(sender.edSeed, signed))];
      if sender.screenCapture {
        fields := fields + [T.Item(T.ACL, SCREEN_CAPTURE_ACL)];
      }
      assert fields == M5Fields(sender, r);
      var sub := T.Encode(fields);
      var sealed := c.seal(R.SetupKey(c, r.key), LabelNonce("PS-Msg05"), [], sub);
      items := [T.Item(T.ENCRYPTED_DATA, sealed), T.Item(T.STATE, [5])];
    }

    method PairVerify(receiver: R.Receiver, rnd: R.Random) returns (ok: bool)
      requires sender.Valid() && receiver.id.Valid()
      modifies this, receiver
      ensures Outcome(receiver.Now(), if ok then Some(Keys()) else None)
        == RunVerify(sender, receiver.id, old(receiver.Now()), rnd)
      ensures ok ==> encrypted
    {
      hide ParseV2, AskVerify, V1Items, V3Items;
      var c := sender.suite;
      var v2 := SendVerify(receiver, V1Items(sender), rnd);
      var agreed := OpenV2(v2);
      if agreed.None? {
        return false;
      }
      var v3 := BuildV3(agreed.value);
      var v4 := SendVerify(receiver, v3, rnd);
      if T.ERROR in v4 {
        return false;
      }
      var shared := agreed.value.shared;
      sharedSecret := shared;
      encWriteKey := c.hkdf(shared, "Control-Salt", "Control-Write-Encryption-Key");
      encReadKey := c.hkdf(shared, "Control-Salt", "Control-Read-Encryption-Key");
      encrypted := true;
      ok := true;
    }

    /** An empty reply has no fields. */
    method SendVerify(receiver: R.Receiver, items: seq<T.Item>, rnd: R.Random) returns (reply: T.Fields)
      requires receiver.id.Valid()
      modifies receiver
      ensures (receiver.Now(), reply) == AskVerify(receiver.id, old(receiver.Now()), items, rnd)
    {
      hide R.VerifyStep;
      var message := T.Encode(items);
      var bytes, _ := receiver.PairVerify(message, rnd);
      reply := T.DecodeFields(bytes);
    }

    /** The shared secret, if V2 carries the server's key and what it sealed opens. */
    method OpenV2(v2: T.Fields) returns (r: Option<Agreed>)
      ensures r == ParseV2(sender, v2)
    {
      var c := sender.suite;
      if T.ERROR in v2 || T.PUBLIC_KEY !in v2 {
        return None;
      }
      var serverKeyData := v2[T.PUBLIC_KEY];
      var serverEncrypted := if T.ENCRYPTED_DATA in v2 then v2[T.ENCRYPTED_DATA] else [];
      if |serverKeyData| < 32 {
        return None;
      }
      var serverPublic := serverKeyData[..32];
      var shared := c.dhShared(sender.dhPrivate, serverPublic);
      var verifyKey := R.VerifyKey(c, shared);
      if serverEncrypted != [] {
        var plain := c.unseal(verifyKey, LabelNonce("PV-Msg02"), [], serverEncrypted);
        if plain.None? {
          return None;
        }
      }
      r := Some(Agreed(serverPublic, shared, verifyKey));
    }

    method BuildV3(a: Agreed) returns (items: seq<T.Item>)
      ensures items == V3Items(sender, a)
    {
      var c := sender.suite;
      var signature := c.sign(sender.edSeed, c.dhPublic(sender.dhPrivate) + sender.pairingId + a.serverPublic);
      var sub := T.Encode([T.Item(T.IDENTIFIER, sender.pairingId), T.Item(T.SIGNATURE, signature)]);
      var sealed := c.seal(a.verifyKey, LabelNonce("PV-Msg03"), [], sub);
      items := [T.Item(T.STATE, [3]), T.Item(T.ENCRYPTED_DATA, sealed)];
    }
  }
}
