/** The FairPlay SAP handshake: four FPLY records between the sender's FpsapSession and the
    receiver's ReceiverFpsap, and the wrapped stream key that follows. */
module Fpsap {
  import opened Bytes
  import opened FairPlayMessage

  /** The white-box networks, key derivation, AES and HMAC, as functions of their inputs. */
  datatype WhiteBox = WhiteBox(
    exchange: (seq<bv8>, seq<bv8>) -> seq<bv8>,
    descriptor: (seq<bv8>, seq<bv8>) -> seq<bv8>,
    // sender SAP, receiver SAP
    wrappingKey: (seq<bv8>, seq<bv8>) -> seq<bv8>,
    aes: (seq<bv8>, seq<bv8>) -> seq<bv8>,
    aesInverse: (seq<bv8>, seq<bv8>) -> seq<bv8>,
    hmac: (seq<bv8>, seq<bv8>) -> seq<bv8>)
  {
    ghost predicate Sized() {
      && (forall x, y :: |exchange(x, y)| == CONFIRMATION_SIZE)
      && (forall k, x :: |aes(k, x)| == 16)
      && (forall k, x :: |hmac(k, x)| == 20)
    }

    ghost predicate Lawful() {
      Sized() && forall k, x :: |x| == 16 ==> aesInverse(k, aes(k, x)) == x
    }
  }

  /** Everything fixed: the tables and the white box. */
  datatype Setting = Setting(tables: Tables, box: WhiteBox) {
    ghost predicate Valid() {
      tables.Valid() && box.Sized()
    }
  }

  const CONFIRMATION_SIZE := 20
  const HEADER_SIZE := 12
  const M1_PAYLOAD: seq<bv8> := [0x02, 0x00, 0x03, 0xbb]
  const M3_LABEL: seq<bv8> := [0x8f, 0x1a, 0x9c]
  const RECEIVER_MODE: bv8 := 3

  // ---------- records ----------

  function ByteOf(i: int): bv8
    requires 0 <= i < 256
  {
    i as bv8
  }

  function ValueOf(b: bv8): (i: int)
    ensures 0 <= i < 256
  {
    b as int
  }

  function ToBe32(n: nat): (b: seq<bv8>)
    requires n < 0x1_0000_0000
    ensures |b| == 4
  {
    [ByteOf(n / 256 / 256 / 256), ByteOf(n / 256 / 256 % 256), ByteOf(n / 256 % 256), ByteOf(n % 256)]
  }

  function FromBe32(b: seq<bv8>): nat
    requires |b| == 4
  {
    ((ValueOf(b[0]) * 256 + ValueOf(b[1])) * 256 + ValueOf(b[2])) * 256 + ValueOf(b[3])
  }

  lemma ByteValue(i: int)
    requires 0 <= i < 256
    ensures ValueOf(ByteOf(i)) == i
  {
    ByteRoundTrip(i);
  }

  lemma Be32RoundTrip(n: nat)
    requires n < 0x1_0000_0000
    ensures FromBe32(ToBe32(n)) == n
  {
    hide ByteOf, ValueOf;
    var high := n / 256;
    var higher := high / 256;
    ByteValue(higher / 256);
    ByteValue(higher % 256);
    ByteValue(high % 256);
    ByteValue(n % 256);
  }

  function Header(messageType: bv8, payloadLength: nat): (h: seq<bv8>)
    requires payloadLength < 0x1_0000_0000
    ensures |h| == HEADER_SIZE
  {
    [0x46, 0x50, 0x4c, 0x59, 3, 1, messageType, 0] + ToBe32(payloadLength)
  }

  /** The checks on an incoming record. */
  predicate ValidRecord(record: seq<bv8>, messageType: bv8, payloadLength: nat) {
    && |record| == HEADER_SIZE + payloadLength
    && record[..4] == [0x46, 0x50, 0x4c, 0x59]
    && record[4] == 3 && record[5] == 1 && record[6] == messageType && record[7] == 0
    && FromBe32(record[8..12]) == payloadLength
  }

  lemma BuiltRecordIsValid(messageType: bv8, payload: seq<bv8>)
    requires |payload| < 0x1_0000_0000
    ensures ValidRecord(Header(messageType, |payload|) + payload, messageType, |payload|)
    ensures (Header(messageType, |payload|) + payload)[HEADER_SIZE..] == payload
  {
    hide ToBe32, FromBe32;
    Be32RoundTrip(|payload|);
    var record := Header(messageType, |payload|) + payload;
    assert record[8..12] == ToBe32(|payload|);
    assert record[..4] == [0x46, 0x50, 0x4c, 0x59];
  }

  // ---------- the four messages ----------

  function M1(): seq<bv8> {
    Header(1, 4) + M1_PAYLOAD
  }

  ghost function M2(t: Tables, mode: bv8, receiverSap: seq<bv8>): (m: seq<bv8>)
    requires t.Valid() && mode as nat < MODE_COUNT && |receiverSap| == BODY_SIZE
    ensures |m| == 142
  {
    Header(2, 130) + [2, mode] + EncryptBody(t, mode as nat, receiverSap)
  }

  ghost function M3(t: Setting, mode: bv8, localSap: seq<bv8>, remoteSap: seq<bv8>): (m: seq<bv8>)
    requires t.Valid() && mode as nat < MODE_COUNT && |localSap| == BODY_SIZE
    ensures |m| == 164
  {
    Header(3, 152) + [mode] + M3_LABEL + EncryptBody(t.tables, mode as nat, localSap) + t.box.exchange(localSap, remoteSap)
  }

  function M4(m3: seq<bv8>): seq<bv8>
    requires |m3| == 164
  {
    Header(4, 20) + m3[144..]
  }

  // ---------- receiver ----------

  datatype ReceiverState = ReceiverState(sap: seq<bv8>, mode: bv8, phase: nat, m3: seq<bv8>) {
    ghost predicate Valid() {
      |sap| == BODY_SIZE && mode as nat < MODE_COUNT && phase <= 2 && |m3| == 164
    }
  }

  /** The M3 field before there is one. */
  function BlankM3(): (m: seq<bv8>)
    ensures |m| == 164
  {
    seq(164, _ => 0)
  }

  function FreshReceiver(entropy: seq<bv8>): (st: ReceiverState)
    requires |entropy| == 126
    ensures st.Valid()
  {
    ReceiverState([0, 1] + entropy, RECEIVER_MODE, 0, BlankM3())
  }

  predicate AcceptM1(m1: seq<bv8>) {
    ValidRecord(m1, 1, 4) && m1[12..16] == M1_PAYLOAD
  }

  function SenderSap(t: Tables, m3: seq<bv8>): (sap: seq<bv8>)
    requires t.Valid() && |m3| >= 144 && m3[12] as nat < MODE_COUNT
    ensures |sap| == BODY_SIZE
  {
    DecryptBody(t, m3[12] as nat, m3[16..144])
  }

  predicate AcceptM3(t: Setting, st: ReceiverState, m3: seq<bv8>)
    requires t.Valid() && st.mode as nat < MODE_COUNT
  {
    && ValidRecord(m3, 3, 152)
    && m3[12] == st.mode
    && m3[13..16] == M3_LABEL
    && m3[144..164] == t.box.exchange(SenderSap(t.tables, m3), st.sap)
  }

  ghost function ReceiverStep(t: Setting, st: ReceiverState, request: seq<bv8>): (ReceiverState, Result<seq<bv8>>)
    requires t.Valid() && st.Valid()
  {
    if st.phase == 0 && AcceptM1(request) then (st.(phase := 1), Ok(M2(t.tables, st.mode, st.sap)))
    else if st.phase == 1 && AcceptM3(t, st, request) then (st.(phase := 2, m3 := request), Ok(M4(request)))
    else (st, Err)
  }

  lemma RequestCases(t: Setting, st: ReceiverState, request: seq<bv8>)
    requires t.Valid() && st.Valid()
    ensures var (st', r) := ReceiverStep(t, st, request);
      && st'.Valid() && st'.sap == st.sap && st'.mode == st.mode
      && (r.Err? ==> st' == st)
      && (r.Ok? ==> st'.phase == st.phase + 1)
      && (st.phase == 2 ==> r.Err?)
      && (r.Ok? <==> (st.phase == 0 && AcceptM1(request)) || (st.phase == 1 && AcceptM3(t, st, request)))
  {
    hide AcceptM1, DecryptBody, M2, M4;
  }

  ghost function ReceiverRun(t: Setting, st: ReceiverState, requests: seq<seq<bv8>>): (st': ReceiverState)
    requires t.Valid() && st.Valid()
    ensures st'.Valid()
    decreases |requests|
  {
    if requests == [] then st
    else
      RequestCases(t, st, requests[0]);
      ReceiverRun(t, ReceiverStep(t, st, requests[0]).0, requests[1..])
  }

  /** How many requests of a run are answered with a record. */
  ghost function Accepted(t: Setting, st: ReceiverState, requests: seq<seq<bv8>>): nat
    requires t.Valid() && st.Valid()
    decreases |requests|
  {
    if requests == [] then 0
    else
      RequestCases(t, st, requests[0]);
      var (st', r) := ReceiverStep(t, st, requests[0]);
      (if r.Ok? then 1 else 0) + Accepted(t, st', requests[1..])
  }

  lemma {:induction false} RunAppend(t: Setting, st: ReceiverState, a: seq<seq<bv8>>, b: seq<seq<bv8>>)
    requires t.Valid() && st.Valid()
    ensures ReceiverRun(t, st, a + b) == ReceiverRun(t, ReceiverRun(t, st, a), b)
    decreases |a|
  {
    hide ReceiverStep, ReceiverRun, Setting.Valid, ReceiverState.Valid;
    if a == [] {
      assert a + b == b;
      RunNothing(t, st);
    } else {
      RequestCases(t, st, a[0]);
      RunFirst(t, st, a);
      RunFirst(t, st, a + b);
      RunAppend(t, ReceiverStep(t, st, a[0]).0, a[1..], b);
      assert (a + b)[0] == a[0] && (a + b)[1..] == a[1..] + b;
    }
  }

  lemma RunNothing(t: Setting, st: ReceiverState)
    requires t.Valid() && st.Valid()
    ensures ReceiverRun(t, st, []) == st
  {}

  lemma RunFirst(t: Setting, st: ReceiverState, requests: seq<seq<bv8>>)
    requires t.Valid() && st.Valid() && requests != []
    ensures ReceiverStep(t, st, requests[0]).0.Valid()
    ensures ReceiverRun(t, st, requests) == ReceiverRun(t, ReceiverStep(t, st, requests[0]).0, requests[1..])
  {
    hide ReceiverStep;
    RequestCases(t, st, requests[0]);
  }

  lemma {:induction false} PhasesCount(t: Setting, st: ReceiverState, requests: seq<seq<bv8>>)
    requires t.Valid() && st.Valid()
    ensures var end := ReceiverRun(t, st, requests);
      && end.phase == st.phase + Accepted(t, st, requests)
      && end.sap == st.sap && end.mode == st.mode
      && (end.phase == st.phase ==> end == st)
    decreases |requests|
  {
    hide ReceiverStep, AcceptM1, AcceptM3;
    if requests != [] {
      RequestCases(t, st, requests[0]);
      PhasesCount(t, ReceiverStep(t, st, requests[0]).0, requests[1..]);
    }
  }

  /** Between any two moments i <= j of any run, honest or not: the phase has moved on by exactly the
      number of accepted requests, which is at most two over a whole run; where it has not moved, nothing
      changed at all; the receiver's SAP and mode never change. */
  lemma ReceiverPhases(t: Setting, st: ReceiverState, requests: seq<seq<bv8>>, i: nat, j: nat)
    requires t.Valid() && st.Valid() && i <= j <= |requests|
    ensures var a, b := ReceiverRun(t, st, requests[..i]), ReceiverRun(t, st, requests[..j]);
      && b.phase == a.phase + Accepted(t, a, requests[i..j]) <= 2
      && (b.phase == a.phase ==> b == a)
      && b.sap == st.sap && b.mode == st.mode
  {
    hide ReceiverRun, Accepted;
    var a := ReceiverRun(t, st, requests[..i]);
    assert requests[..j] == requests[..i] + requests[i..j];
    RunAppend(t, st, requests[..i], requests[i..j]);
    PhasesCount(t, st, requests[..i]);
    PhasesCount(t, a, requests[i..j]);
  }

  lemma {:induction false} CompleteRunAccepts(t: Setting, st: ReceiverState, requests: seq<seq<bv8>>)
    requires t.Valid() && st.Valid()
    ensures ReceiverRun(t, st, requests).phase >= st.phase
    ensures st.phase < 2 && ReceiverRun(t, st, requests).phase == 2 ==>
      exists j :: 0 <= j < |requests| && AcceptM3(t, st, requests[j])
        && (st.phase == 0 ==> exists i :: 0 <= i < j && AcceptM1(requests[i]))
    decreases |requests|
  {
    hide AcceptM1, ReceiverStep, ValidRecord, DecryptBody;
    if requests != [] {
      RequestCases(t, st, requests[0]);
      var st1, rest := ReceiverStep(t, st, requests[0]).0, requests[1..];
      CompleteRunAccepts(t, st1, rest);
      if st.phase < 2 && ReceiverRun(t, st, requests).phase == 2 {
        if st1.phase < 2 {
          var j :| 0 <= j < |rest| && AcceptM3(t, st1, rest[j])
            && (st1.phase == 0 ==> exists i :: 0 <= i < j && AcceptM1(rest[i]));
          assert requests[j + 1] == rest[j];
          SameAcceptance(t, st, st1, rest[j]);
          if st1.phase == 0 {
            var i :| 0 <= i < j && AcceptM1(rest[i]);
            assert requests[i + 1] == rest[i];
          } else if st.phase == 0 {
            assert AcceptM1(requests[0]);
          }
        } else {
          assert AcceptM3(t, st, requests[0]);
        }
      }
    }
  }

  /** A run that reaches the end accepted an M1 and, later, an M3 whose confirmation is right: the record
      carries the white box's answer for the two SAPs. */
  lemma CompleteRunHasChain(t: Setting, st: ReceiverState, requests: seq<seq<bv8>>)
    requires t.Valid() && st.Valid()
    ensures ReceiverRun(t, st, requests).phase >= st.phase
    ensures st.phase < 2 && ReceiverRun(t, st, requests).phase == 2 ==>
      exists j :: 0 <= j < |requests|
        && (var m3 := requests[j];
            && |m3| == 164
            && m3[..16] == [0x46, 0x50, 0x4c, 0x59, 3, 1, 3, 0, 0, 0, 0, 152, st.mode, 0x8f, 0x1a, 0x9c]
            && m3[144..164] == t.box.exchange(DecryptBody(t.tables, st.mode as nat, m3[16..144]), st.sap))
        && (st.phase == 0 ==>
            exists i :: (0 <= i < j && requests[i] == [0x46, 0x50, 0x4c, 0x59, 3, 1, 1, 0, 0, 0, 0, 4, 0x02, 0x00, 0x03, 0xbb]))
  {
    hide AcceptM1, AcceptM3, ReceiverRun, DecryptBody;
    CompleteRunAccepts(t, st, requests);
    if st.phase < 2 && ReceiverRun(t, st, requests).phase == 2 {
      var j :| 0 <= j < |requests| && AcceptM3(t, st, requests[j])
        && (st.phase == 0 ==> exists i :: 0 <= i < j && AcceptM1(requests[i]));
      AcceptedM3Is(t, st, requests[j]);
      if st.phase == 0 {
        var i :| 0 <= i < j && AcceptM1(requests[i]);
        AcceptedM1Is(requests[i]);
      }
    }
  }

  lemma SameAcceptance(t: Setting, st: ReceiverState, st': ReceiverState, m3: seq<bv8>)
    requires t.Valid() && st.Valid() && st'.sap == st.sap && st'.mode == st.mode
    ensures AcceptM3(t, st', m3) == AcceptM3(t, st, m3)
  {}

  // ---------- sender ----------

  datatype SenderState = SenderState(localSap: seq<bv8>, remoteSap: seq<bv8>, m3: seq<bv8>, hasM3: bool) {
    ghost predicate Valid() {
      |localSap| == BODY_SIZE && |remoteSap| == BODY_SIZE && |m3| == 164
    }
  }

  predicate AcceptM2(m2: seq<bv8>) {
    ValidRecord(m2, 2, 130) && m2[12] == 2 && m2[13] as nat < MODE_COUNT
  }

  function ReceiverSap(t: Tables, m2: seq<bv8>): (sap: seq<bv8>)
    requires t.Valid() && |m2| == 142 && m2[13] as nat < MODE_COUNT
    ensures |sap| == BODY_SIZE
  {
    DecryptBody(t, m2[13] as nat, m2[14..142])
  }

  ghost function SenderStep(t: Setting, st: SenderState, m2: seq<bv8>): (SenderState, Result<seq<bv8>>)
    requires t.Valid() && st.Valid()
  {
    if !AcceptM2(m2) then (st, Err)
    else
      var remote := ReceiverSap(t.tables, m2);
      var m3 := M3(t, m2[13], st.localSap, remote);
      (st.(remoteSap := remote, m3 := m3, hasM3 := true), Ok(m3))
  }

  predicate Confirms(st: SenderState, m4: seq<bv8>)
    requires st.Valid()
  {
    st.hasM3 && ValidRecord(m4, 4, 20) && m4[12..] == st.m3[144..]
  }

  // ---------- key wrapping ----------

  const EKEY_HEADER: seq<bv8> := [0x46, 0x50, 0x4c, 0x59, 1, 2, 1, 0, 0, 0, 0, 0x3c, 0, 0, 0, 0]

  predicate Wrappable(m3: seq<bv8>) {
    ValidRecord(m3, 3, 152) && m3[12] as nat < MODE_COUNT
  }

  function EkeyHead(mask: Block): (head: seq<bv8>)
    ensures |head| == 36 && head[16..32] == mask
  {
    EKEY_HEADER + mask + ToBe32(|mask|)
  }

  /** The 72-byte ekey record, from both SAPs. */
  function Ekey(box: WhiteBox, senderSap: seq<bv8>, receiverSap: seq<bv8>, rawKey: Block, mask: Block): seq<bv8> {
    var head := EkeyHead(mask);
    var mac := box.hmac(box.descriptor(senderSap, receiverSap), head + rawKey);
    head + mac + box.aes(box.wrappingKey(senderSap, receiverSap), XorBlock(rawKey, mask))
  }

  function WrapKey(t: Setting, receiverSap: seq<bv8>, m3: seq<bv8>, rawKey: Block, mask: Block): Result<seq<bv8>>
    requires t.Valid()
  {
    if Wrappable(m3) then Ok(Ekey(t.box, SenderSap(t.tables, m3), receiverSap, rawKey, mask)) else Err
  }

  /** The receiver's operation on an ekey record. */
  function OpenEkey(box: WhiteBox, senderSap: seq<bv8>, receiverSap: seq<bv8>, ekey: seq<bv8>): Option<Block>
    requires |ekey| == 72
  {
    var block := box.aesInverse(box.wrappingKey(senderSap, receiverSap), ekey[56..72]);
    if |block| == 16 then Some(XorBlock(block, ekey[16..32])) else None
  }

  lemma EkeyRoundTrip(box: WhiteBox, senderSap: seq<bv8>, receiverSap: seq<bv8>, rawKey: Block, mask: Block)
    requires box.Lawful()
    ensures |Ekey(box, senderSap, receiverSap, rawKey, mask)| == 72
    ensures OpenEkey(box, senderSap, receiverSap, Ekey(box, senderSap, receiverSap, rawKey, mask)) == Some(rawKey)
  {
    hide EkeyHead, XorBlock;
    var ekey, head := Ekey(box, senderSap, receiverSap, rawKey, mask), EkeyHead(mask);
    var mac := box.hmac(box.descriptor(senderSap, receiverSap), head + rawKey);
    var sealed := box.aes(box.wrappingKey(senderSap, receiverSap), XorBlock(rawKey, mask));
    assert ekey == head + mac + sealed;
    assert ekey[56..72] == sealed;
    assert ekey[16..32] == head[16..32] == mask;
    XorBlockTwice(rawKey, mask);
  }

  /** The record's bytes: its header, the mask, the length 16, the MAC of all these and the raw key, and
      the raw key plus mask under AES. */
  lemma EkeyIs(box: WhiteBox, senderSap: seq<bv8>, receiverSap: seq<bv8>, rawKey: Block, mask: Block)
    requires box.Sized()
    ensures var e := Ekey(box, senderSap, receiverSap, rawKey, mask);
      && |e| == 72
      && e[..16] == [0x46, 0x50, 0x4c, 0x59, 1, 2, 1, 0, 0, 0, 0, 0x3c, 0, 0, 0, 0]
      && e[16..32] == mask && e[32..36] == [0, 0, 0, 16]
      && e[36..56] == box.hmac(box.descriptor(senderSap, receiverSap), e[..36] + rawKey)
      && e[56..] == box.aes(box.wrappingKey(senderSap, receiverSap), XorBlock(rawKey, mask))
  {
    hide XorBlock, ToBe32, ByteOf;
    var e, head := Ekey(box, senderSap, receiverSap, rawKey, mask), EkeyHead(mask);
    SmallLength(16);
    SixteenIs();
    assert e[..36] == head;
    assert e[..16] == head[..16] && e[32..36] == head[32..36];
  }

  lemma SixteenIs()
    ensures ByteOf(16) == 16
  {}

  // ---------- the honest run ----------

  lemma SenderAcceptsM2(t: Setting, st: SenderState, mode: bv8, receiverSap: seq<bv8>)
    requires t.Valid() && st.Valid() && mode as nat < MODE_COUNT && |receiverSap| == BODY_SIZE
    ensures var m3 := M3(t, mode, st.localSap, receiverSap);
      SenderStep(t, st, M2(t.tables, mode, receiverSap))
      == (st.(remoteSap := receiverSap, m3 := m3, hasM3 := true), Ok(m3))
  {
    hide EncryptBody, DecryptBody, Header, ValidRecord;
    var payload := [2, mode] + EncryptBody(t.tables, mode as nat, receiverSap);
    var m2 := M2(t.tables, mode, receiverSap);
    assert m2 == Header(2, 130) + payload;
    BuiltRecordIsValid(2, payload);
    assert m2[12] == payload[0] && m2[13] == payload[1];
    assert m2[14..142] == payload[2..] == EncryptBody(t.tables, mode as nat, receiverSap);
    DecryptAfterEncrypt(t.tables, mode as nat, receiverSap);
  }

  lemma M3IsWellFormed(t: Setting, mode: bv8, localSap: seq<bv8>, receiverSap: seq<bv8>)
    requires t.Valid() && mode as nat < MODE_COUNT && |localSap| == BODY_SIZE
    ensures var m3 := M3(t, mode, localSap, receiverSap);
      && ValidRecord(m3, 3, 152) && m3[12] == mode && m3[13..16] == M3_LABEL
      && m3[16..144] == EncryptBody(t.tables, mode as nat, localSap)
      && m3[144..164] == t.box.exchange(localSap, receiverSap)
  {
    hide EncryptBody, Header, ValidRecord;
    var body, tail := EncryptBody(t.tables, mode as nat, localSap), t.box.exchange(localSap, receiverSap);
    var payload := [mode] + M3_LABEL + body + tail;
    var m3 := M3(t, mode, localSap, receiverSap);
    assert m3 == Header(3, 152) + payload;
    BuiltRecordIsValid(3, payload);
    assert m3[12] == payload[0];
    assert m3[13..16] == M3_LABEL;
    assert m3[16..144] == body;
    assert m3[144..164] == tail;
  }

  lemma ReceiverAcceptsM3(t: Setting, st: ReceiverState, localSap: seq<bv8>, m3: seq<bv8>)
    requires t.Valid() && st.Valid() && |localSap| == BODY_SIZE
    requires m3 == M3(t, st.mode, localSap, st.sap)
    ensures |m3| >= 144 && m3[12] == st.mode
    ensures AcceptM3(t, st, m3)
    ensures SenderSap(t.tables, m3) == localSap
  {
    hide EncryptBody, DecryptBody, M3, ValidRecord;
    M3IsWellFormed(t, st.mode, localSap, st.sap);
    DecryptAfterEncrypt(t.tables, st.mode as nat, localSap);
  }

  /** All four messages are accepted, each side ends up with the other's SAP, and the wrapped stream
      key opens on the receiver's side. */
  lemma HonestRun(t: Setting, sender: SenderState, receiver: ReceiverState, rawKey: Block, mask: Block)
    returns (m2: seq<bv8>, m3: seq<bv8>, m4: seq<bv8>, ekey: seq<bv8>)
    requires t.Valid() && t.box.Lawful() && sender.Valid() && receiver.Valid() && receiver.phase == 0
    ensures ReceiverStep(t, receiver, M1()) == (receiver.(phase := 1), Ok(m2))
    ensures SenderStep(t, sender, m2) == (sender.(remoteSap := receiver.sap, m3 := m3, hasM3 := true), Ok(m3))
    ensures |m3| == 164
    ensures ReceiverStep(t, receiver.(phase := 1), m3) == (receiver.(phase := 2, m3 := m3), Ok(m4))
    ensures Confirms(sender.(remoteSap := receiver.sap, m3 := m3, hasM3 := true), m4)
    ensures WrapKey(t, receiver.sap, m3, rawKey, mask) == Ok(ekey)
    ensures |ekey| == 72 && OpenEkey(t.box, sender.localSap, receiver.sap, ekey) == Some(rawKey)
    ensures m3[12] as nat < MODE_COUNT && SenderSap(t.tables, m3) == sender.localSap
  {
    hide M2, M3, EncryptBody, DecryptBody, SenderStep, SenderSap, ValidRecord, Ekey, OpenEkey;
    m2, m3 := M2(t.tables, receiver.mode, receiver.sap), M3(t, receiver.mode, sender.localSap, receiver.sap);
    BuiltRecordIsValid(1, M1_PAYLOAD);
    assert M1()[12..16] == M1()[12..];
    assert AcceptM1(M1());
    SenderAcceptsM2(t, sender, receiver.mode, receiver.sap);
    ReceiverAcceptsM3(t, receiver, sender.localSap, m3);
    SameAcceptance(t, receiver, receiver.(phase := 1), m3);
    M3IsWellFormed(t, receiver.mode, sender.localSap, receiver.sap);
    m4 := M4(m3);
    BuiltRecordIsValid(4, m3[144..]);
    EkeyRoundTrip(t.box, sender.localSap, receiver.sap, rawKey, mask);
    ekey := Ekey(t.box, sender.localSap, receiver.sap, rawKey, mask);
  }

  // ---------- what acceptance takes, byte by byte ----------

  lemma LengthBytes(b: seq<bv8>, n: nat)
    requires |b| == 4 && n < 256
    ensures FromBe32(b) == n <==> b == [0, 0, 0, ByteOf(n)]
  {
    hide ByteOf, ValueOf;
    ByteValue(n);
    ByteValue(0);
    assert ByteOf(0) == 0 by { ZeroByte(); }
    ByteBack(b[0]);
    ByteBack(b[1]);
    ByteBack(b[2]);
    ByteBack(b[3]);
  }

  lemma ZeroByte()
    ensures ByteOf(0) == 0
  {}

  lemma ByteBack(b: bv8)
    ensures ByteOf(ValueOf(b)) == b
  {
    IndexRoundTrip(b);
  }

  /** The header of a valid record is one fixed string of twelve bytes. */
  lemma HeaderIs(record: seq<bv8>, messageType: bv8, payloadLength: nat)
    requires payloadLength < 256
    ensures ValidRecord(record, messageType, payloadLength) <==>
      && |record| == 12 + payloadLength
      && record[..12] == [0x46, 0x50, 0x4c, 0x59, 3, 1, messageType, 0, 0, 0, 0, ByteOf(payloadLength)]
  {
    hide FromBe32, ByteOf;
    if |record| == 12 + payloadLength {
      LengthBytes(record[8..12], payloadLength);
      assert record[..12] == record[..4] + [record[4], record[5], record[6], record[7]] + record[8..12];
    }
  }

  lemma LengthsAre()
    ensures ByteOf(4) == 4 && ByteOf(130) == 130 && ByteOf(152) == 152 && ByteOf(20) == 20
  {}

  /** One request alone is taken for M1. */
  lemma AcceptedM1Is(m1: seq<bv8>)
    ensures AcceptM1(m1) <==> m1 == [0x46, 0x50, 0x4c, 0x59, 3, 1, 1, 0, 0, 0, 0, 4, 0x02, 0x00, 0x03, 0xbb]
  {
    hide ValidRecord, ByteOf;
    HeaderIs(m1, 1, 4);
    LengthsAre();
    if |m1| == 16 {
      assert m1 == m1[..12] + m1[12..16];
    }
  }

  lemma AcceptedM2Is(m2: seq<bv8>)
    ensures AcceptM2(m2) <==>
      && |m2| == 142 && m2[..13] == [0x46, 0x50, 0x4c, 0x59, 3, 1, 2, 0, 0, 0, 0, 130, 2]
      && m2[13] as nat < 4
  {
    hide ValidRecord, ByteOf;
    HeaderIs(m2, 2, 130);
    LengthsAre();
    if |m2| == 142 {
      assert m2[..13] == m2[..12] + [m2[12]];
      assert m2[..13][..12] == m2[..12] && m2[..13][12] == m2[12];
    }
  }

  /** An M3 is taken exactly when it has the right size, header, mode and label, and its last 20 bytes
      are what the white box gives for the sender's SAP, decrypted from its body, and the receiver's. */
  lemma AcceptedM3Is(t: Setting, st: ReceiverState, m3: seq<bv8>)
    requires t.Valid() && st.Valid()
    ensures AcceptM3(t, st, m3) <==>
      && |m3| == 164
      && m3[..16] == [0x46, 0x50, 0x4c, 0x59, 3, 1, 3, 0, 0, 0, 0, 152, st.mode, 0x8f, 0x1a, 0x9c]
      && m3[144..164] == t.box.exchange(DecryptBody(t.tables, st.mode as nat, m3[16..144]), st.sap)
  {
    hide ValidRecord, ByteOf, DecryptBody;
    HeaderIs(m3, 3, 152);
    LengthsAre();
    if |m3| == 164 {
      assert m3[..16] == m3[..12] + [m3[12]] + m3[13..16];
      assert m3[..16][..12] == m3[..12] && m3[..16][12] == m3[12] && m3[..16][13..16] == m3[13..16];
    }
  }

  /** An M4 confirms exactly when it is the header and the confirmation that was sent. */
  lemma ConfirmsIs(st: SenderState, m4: seq<bv8>)
    requires st.Valid()
    ensures Confirms(st, m4) <==>
      st.hasM3 && m4 == [0x46, 0x50, 0x4c, 0x59, 3, 1, 4, 0, 0, 0, 0, 20] + st.m3[144..164]
  {
    hide ValidRecord, ByteOf;
    HeaderIs(m4, 4, 20);
    LengthsAre();
    assert st.m3[144..] == st.m3[144..164];
    if |m4| == 32 {
      assert m4 == m4[..12] + m4[12..];
    }
  }

  lemma M4Is(m3: seq<bv8>)
    requires |m3| == 164
    ensures M4(m3) == [0x46, 0x50, 0x4c, 0x59, 3, 1, 4, 0, 0, 0, 0, 20] + m3[144..164]
  {
    hide ToBe32, ByteOf;
    SmallLength(20);
    LengthsAre();
    assert m3[144..] == m3[144..164];
  }

  lemma SmallLength(n: nat)
    requires n < 256
    ensures ToBe32(n) == [0, 0, 0, ByteOf(n)]
  {
    hide ByteOf;
    ZeroByte();
    assert n / 256 == 0 && n % 256 == n;
  }

  /** The M3 that the sender builds on the receiver's M2, with any other confirmation put in, is refused
      and changes nothing; so is its M4 with any other confirmation. */
  lemma WrongConfirmationRefused(t: Setting, sender: SenderState, receiver: ReceiverState, wrong: seq<bv8>)
    requires t.Valid() && sender.Valid() && receiver.Valid() && receiver.phase == 1 && |wrong| == 20
    ensures var (sender', r) := SenderStep(t, sender, M2(t.tables, receiver.mode, receiver.sap));
      && r.Ok? && |r.value| == 164
      && ReceiverStep(t, receiver, r.value).1 == Ok(M4(r.value)) && Confirms(sender', M4(r.value))
      && (wrong != r.value[144..164] ==>
          && ReceiverStep(t, receiver, r.value[..144] + wrong) == (receiver, Err)
          && !Confirms(sender', M4(r.value)[..12] + wrong))
  {
    hide M2, M3, EncryptBody, DecryptBody, SenderStep, SenderSap, ValidRecord, AcceptM3;
    var m3 := M3(t, receiver.mode, sender.localSap, receiver.sap);
    SenderAcceptsM2(t, sender, receiver.mode, receiver.sap);
    ReceiverAcceptsM3(t, receiver, sender.localSap, m3);
    M3IsWellFormed(t, receiver.mode, sender.localSap, receiver.sap);
    DecryptAfterEncrypt(t.tables, receiver.mode as nat, sender.localSap);
    BuiltRecordIsValid(4, m3[144..]);
    var other := m3[..144] + wrong;
    AcceptedM3Is(t, receiver, other);
    assert other[16..144] == m3[16..144] && other[144..164] == wrong;
    var sender' := sender.(remoteSap := receiver.sap, m3 := m3, hasM3 := true);
    WrongM4(sender', m3, wrong);
  }

  lemma WrongM4(st: SenderState, m3: seq<bv8>, wrong: seq<bv8>)
    requires st.Valid() && st.m3 == m3 && |wrong| == 20
    ensures wrong != m3[144..164] ==> !Confirms(st, M4(m3)[..12] + wrong)
  {
    assert (M4(m3)[..12] + wrong)[12..] == wrong;
    assert m3[144..] == m3[144..164];
  }

  // ---------- the two sides, step by step ----------

  /** Overwrites part of a record. */
  method CopyInto(record: array<bv8>, start: nat, data: seq<bv8>)
    requires start + |data| <= record.Length
    modifies record
    ensures record[..] == old(record[..start]) + data + old(record[start + |data|..])
  {
    forall k | 0 <= k < |data| {
      record[start + k] := data[k];
    }
  }

  method NewRecord(messageType: bv8, payloadLength: nat) returns (record: array<bv8>)
    requires payloadLength < 0x1_0000_0000
    ensures fresh(record) && record.Length == HEADER_SIZE + payloadLength
    ensures record[..HEADER_SIZE] == Header(messageType, payloadLength)
  {
    hide ToBe32;
    record := new bv8[12 + payloadLength](_ => 0);
    CopyInto(record, 0, [0x46, 0x50, 0x4c, 0x59]);
    CopyInto(record, 4, [3, 1, messageType, 0]);
    CopyInto(record, 8, ToBe32(payloadLength));
  }

  method EncryptedBody(t: Tables, mode: bv8, sap: seq<bv8>) returns (body: seq<bv8>)
    requires t.Valid() && mode as nat < MODE_COUNT && |sap| == BODY_SIZE
    ensures body == EncryptBody(t, mode as nat, sap)
  {
    hide EncryptBody;
    var buffer := new bv8[128](_ => 0);
    var r := EncryptMessage(t, mode, sap, buffer);
    body := buffer[..];
  }

  method DecryptedBody(t: Tables, record: seq<bv8>) returns (sap: seq<bv8>)
    requires t.Valid() && |record| >= 144 && record[12] as nat < MODE_COUNT
    ensures sap == SenderSap(t, record)
  {
    hide DecryptBody;
    var buffer := new bv8[128](_ => 0);
    DecryptMessage(t, record, buffer);
    sap := buffer[..];
  }

  /** Decrypts the body of an M2, which sits two bytes earlier than an M3's. */
  method DecryptM2Body(t: Tables, mode: bv8, payload: seq<bv8>) returns (sap: seq<bv8>)
    requires t.Valid() && mode as nat < MODE_COUNT && |payload| == BODY_SIZE
    ensures sap == DecryptBody(t, mode as nat, payload)
  {
    hide DecryptBody;
    var message := new bv8[144](_ => 0);
    message[12] := mode;
    CopyInto(message, 16, payload);
    assert message[..][16..144] == payload;
    sap := DecryptedBody(t, message[..]);
  }

  class FpsapSession {
    const setting: Setting
    var localSap: seq<bv8>
    var remoteSap: seq<bv8>
    var m3: seq<bv8>
    var hasM3: bool

    ghost predicate Valid()
      reads this
    {
      setting.Valid() && State().Valid()
    }

    ghost function State(): SenderState
      reads this
    {
      SenderState(localSap, remoteSap, m3, hasM3)
    }

    constructor (setting: Setting, entropy: seq<bv8>)
      requires setting.Valid() && |entropy| >= 126
      ensures Valid() && this.setting == setting && !hasM3
      ensures localSap == [0, 1] + entropy[..126]
    {
      this.setting := setting;
      localSap := [0, 1] + entropy[..126];
      remoteSap := seq(128, _ => 0);
      m3 := BlankM3();
      hasM3 := false;
    }

    method Message1() returns (m1: seq<bv8>)
      ensures m1 == M1()
    {
      hide ToBe32;
      var record := NewRecord(1, 4);
      CopyInto(record, 12, M1_PAYLOAD);
      m1 := record[..];
    }

    method ExchangeM3(m2: seq<bv8>) returns (r: Result<seq<bv8>>)
      requires Valid()
      modifies this
      ensures Valid()
      ensures (State(), r) == SenderStep(setting, old(State()), m2)
    {
      hide ValidRecord, EncryptBody, DecryptBody, Header;
      if !ValidRecord(m2, 2, 130) {
        return Err;
      }
      RecordSize(m2, 2, 130);
      if m2[12] != 2 || m2[13] as nat >= MODE_COUNT {
        return Err;
      }
      var mode := m2[13];
      var sap := DecryptM2Body(setting.tables, mode, m2[14..142]);
      var record := BuildM3(mode, sap);
      remoteSap := sap;
      m3 := record;
      hasM3 := true;
      r := Ok(record);
    }

    method BuildM3(mode: bv8, sap: seq<bv8>) returns (record: seq<bv8>)
      requires Valid() && mode as nat < MODE_COUNT
      ensures record == M3(setting, mode, localSap, sap)
    {
      hide EncryptBody, Header;
      var buffer := NewRecord(3, 152);
      buffer[12] := mode;
      CopyInto(buffer, 13, M3_LABEL);
      var body := EncryptedBody(setting.tables, mode, localSap);
      CopyInto(buffer, 16, body);
      CopyInto(buffer, 144, setting.box.exchange(localSap, sap));
      record := buffer[..];
    }

    method ConfirmM4(m4: seq<bv8>) returns (r: Result<()>)
      requires Valid()
      ensures r.Ok? <==> Confirms(State(), m4)
    {
      hide ValidRecord;
      if !hasM3 || !ValidRecord(m4, 4, 20) {
        return Err;
      }
      RecordSize(m4, 4, 20);
      r := if m4[12..] != m3[144..] then Err else Ok(());
    }

    /** Fills the 72-byte record piece by piece. */
    method WrapStreamKey(rawKey: Block, mask: Block) returns (r: Result<seq<bv8>>)
      requires Valid()
      ensures r == if hasM3 then WrapKey(setting, remoteSap, m3, rawKey, mask) else Err
    {
      hide ValidRecord, SenderSap;
      if !hasM3 || !ValidRecord(m3, 3, 152) || m3[12] as nat >= MODE_COUNT {
        return Err;
      }
      var senderSap := DecryptedBody(setting.tables, m3);
      var ekey := FillEkey(senderSap, rawKey, mask);
      r := Ok(ekey);
    }

    method FillEkey(senderSap: seq<bv8>, rawKey: Block, mask: Block) returns (r: seq<bv8>)
      requires Valid()
      ensures r == Ekey(setting.box, senderSap, remoteSap, rawKey, mask)
    {
      hide EkeyHead, XorBlock;
      var box := setting.box;
      var ekey := StartEkey(mask);
      var head := ekey[..36];
      var masked := XorKey(rawKey, head[16..32]);
      var wrapped := box.aes(box.wrappingKey(senderSap, remoteSap), masked);
      CopyInto(ekey, 56, wrapped);
      assert ekey[..36] == head && ekey[56..] == wrapped;
      var mac := box.hmac(box.descriptor(senderSap, remoteSap), head + rawKey);
      ghost var tail := ekey[56..];
      CopyInto(ekey, 36, mac);
      assert ekey[..36] == head && ekey[36..56] == mac && ekey[56..] == tail;
      r := ekey[..];
      assert r == ekey[..36] + ekey[36..56] + ekey[56..];
    }
  }

  method StartEkey(mask: Block) returns (ekey: array<bv8>)
    ensures fresh(ekey) && ekey.Length == 72
    ensures ekey[..36] == EkeyHead(mask)
  {
    hide ToBe32;
    ekey := new bv8[72](_ => 0);
    CopyInto(ekey, 0, EKEY_HEADER);
    CopyInto(ekey, 16, mask);
    CopyInto(ekey, 32, ToBe32(|mask|));
  }

  method XorKey(key: Block, mask: Block) returns (masked: Block)
    ensures masked == XorBlock(key, mask)
  {
    var bytes := new bv8[16](_ => 0);
    for i := 0 to 16
      invariant forall k | 0 <= k < i :: bytes[k] == XorBlock(key, mask)[k]
    {
      bytes[i] := key[i] ^ mask[i];
    }
    masked := bytes[..];
  }

  /** A new session, or an error when there is too little entropy for its SAP. */
  method NewSession(setting: Setting, entropy: seq<bv8>) returns (r: Result<FpsapSession>)
    requires setting.Valid()
    ensures r.Ok? <==> |entropy| >= 126
    ensures r.Ok? ==> fresh(r.value) && r.value.Valid() && !r.value.hasM3 && r.value.localSap == [0, 1] + entropy[..126]
  {
    if |entropy| < 126 {
      return Err;
    }
    var session := new FpsapSession(setting, entropy);
    r := Ok(session);
  }

  lemma RecordSize(record: seq<bv8>, messageType: bv8, payloadLength: nat)
    ensures ValidRecord(record, messageType, payloadLength) ==> |record| == HEADER_SIZE + payloadLength
  {}

  class ReceiverFpsap {
    const setting: Setting
    var sap: seq<bv8>
    var mode: bv8
    var phase: nat
    var m3: seq<bv8>

    ghost predicate Valid()
      reads this
    {
      setting.Valid() && State().Valid()
    }

    ghost function State(): ReceiverState
      reads this
    {
      ReceiverState(sap, mode, phase, m3)
    }

    constructor (setting: Setting, entropy: seq<bv8>)
      requires setting.Valid() && |entropy| == 126
      ensures Valid() && this.setting == setting
      ensures State() == FreshReceiver(entropy)
    {
      this.setting := setting;
      sap := [0, 1] + entropy;
      mode := RECEIVER_MODE;
      phase := 0;
      m3 := BlankM3();
    }

    /** Processes one request: M1 first, then M3, then nothing more. */
    method Exchange(request: seq<bv8>) returns (r: Result<seq<bv8>>)
      requires Valid()
      modifies this
      ensures Valid()
      ensures (State(), r) == ReceiverStep(setting, old(State()), request)
    {
      hide AcceptM1, AcceptM3, M2, M4;
      if phase == 0 {
        r := ExchangeM2(request);
      } else if phase == 1 {
        r := ExchangeM4(request);
      } else {
        r := Err;
      }
    }

    method ExchangeM2(m1: seq<bv8>) returns (r: Result<seq<bv8>>)
      requires Valid() && phase == 0
      modifies this
      ensures Valid()
      ensures (State(), r) == ReceiverStep(setting, old(State()), m1)
    {
      hide EncryptBody, Header, ValidRecord;
      RecordSize(m1, 1, 4);
      if !ValidRecord(m1, 1, 4) || m1[12..16] != M1_PAYLOAD {
        return Err;
      }
      var record := NewRecord(2, 130);
      record[12] := 2;
      record[13] := mode;
      var body := EncryptedBody(setting.tables, mode, sap);
      CopyInto(record, 14, body);
      assert record[..] == M2(setting.tables, mode, sap);
      phase := 1;
      r := Ok(record[..]);
    }

    method ExchangeM4(request: seq<bv8>) returns (r: Result<seq<bv8>>)
      requires Valid() && phase == 1
      modifies this
      ensures Valid()
      ensures (State(), r) == ReceiverStep(setting, old(State()), request)
    {
      hide SenderSap, Header, ValidRecord;
      RecordSize(request, 3, 152);
      if !ValidRecord(request, 3, 152) || request[12] != mode || request[13..16] != M3_LABEL {
        return Err;
      }
      var senderSap := DecryptedBody(setting.tables, request);
      if request[144..164] != setting.box.exchange(senderSap, sap) {
        return Err;
      }
      m3 := request;
      phase := 2;
      var record := NewRecord(4, 20);
      CopyInto(record, 12, request[144..]);
      assert record[..] == M4(request);
      r := Ok(record[..]);
    }
  }
}
