/** The audio sender: RTP packets with 16-bit sequence numbers and a 32-bit clock, each plaintext frame
    sent a second time through a ring of the last eight. */
module AudioRing {
  import opened Bytes
  import opened Crypto
  import H = HapFraming

  const SPF := 352
  const DEPTH := 8
  const CLOCK := 0x1_0000_0000
  const SEQUENCE := 0x1_0000

  // ---------- packets ----------

  datatype Packet = Packet(payload: seq<byte>, rtpTime: nat, number: nat) {
    predicate Valid() {
      rtpTime < CLOCK && number < SEQUENCE
    }
  }

  function Be(n: nat, size: nat): (b: seq<byte>)
    ensures |b| == size
  {
    if size == 0 then [] else Be(n / 256, size - 1) + [n % 256]
  }

  function FromBe(b: seq<byte>): nat {
    if b == [] then 0 else FromBe(b[..|b| - 1]) * 256 + b[|b| - 1]
  }

  lemma {:induction false} BeRoundTrip(n: nat, size: nat)
    requires n < H.Limit(size)
    ensures FromBe(Be(n, size)) == n
    decreases size
  {
    if size > 0 {
      BeRoundTrip(n / 256, size - 1);
      assert Be(n, size)[..size - 1] == Be(n / 256, size - 1);
    }
  }

  /** Version, payload type 96, sequence number, timestamp and a zero source. */
  function Header(p: Packet): (h: seq<byte>)
    ensures |h| == 12
  {
    [0x80, 96] + Be(p.number, 2) + Be(p.rtpTime, 4) + Be(0, 4)
  }

  function AudioNonce(counter: nat): seq<byte> {
    H.LittleEndian(counter, 8) + Fill(4)
  }

  /** A datagram; with a key the payload is sealed under the counter, which is appended. */
  function Datagram(suite: Suite, key: Option<seq<byte>>, counter: nat, p: Packet): seq<byte> {
    var header := Header(p);
    match key
    case None => header + p.payload
    case Some(k) =>
      header + suite.seal(k, AudioNonce(counter), header[4..], p.payload) + H.LittleEndian(counter, 8)
  }

  /** What a receiver makes of a datagram. */
  function Open(suite: Suite, key: Option<seq<byte>>, datagram: seq<byte>): Option<Packet> {
    if |datagram| < 12 then None
    else
      var number, rtpTime := FromBe(datagram[2..4]), FromBe(datagram[4..8]);
      match key
      case None => Some(Packet(datagram[12..], rtpTime, number))
      case Some(k) =>
        if |datagram| < 20 then None
        else
          var nonce := datagram[|datagram| - 8..] + Fill(4);
          var payload :- suite.unseal(k, nonce, datagram[4..12], datagram[12..|datagram| - 8]);
          Some(Packet(payload, rtpTime, number))
  }

  lemma HeaderFields(p: Packet, body: seq<byte>)
    requires p.Valid()
    ensures var d := Header(p) + body;
      FromBe(d[2..4]) == p.number && FromBe(d[4..8]) == p.rtpTime && d[4..12] == Header(p)[4..] && d[12..] == body
  {
    hide FromBe, Be;
    var d := Header(p) + body;
    assert d[2..4] == Be(p.number, 2) && d[4..8] == Be(p.rtpTime, 4);
    Limits();
    BeRoundTrip(p.number, 2);
    BeRoundTrip(p.rtpTime, 4);
  }

  lemma Limits()
    ensures H.Limit(2) == SEQUENCE && H.Limit(4) == CLOCK
  {}

  /** Every packet survives, in the clear or sealed, whatever the counter. */
  lemma DatagramRoundTrip(suite: Suite, key: Option<seq<byte>>, counter: nat, p: Packet)
    requires suite.Lawful() && p.Valid()
    ensures Open(suite, key, Datagram(suite, key, counter, p)) == Some(p)
  {
    hide Header, FromBe, H.LittleEndian;
    var d := Datagram(suite, key, counter, p);
    match key
    case None => HeaderFields(p, p.payload);
    case Some(k) =>
      var tail := H.LittleEndian(counter, 8);
      var sealed := suite.seal(k, AudioNonce(counter), Header(p)[4..], p.payload);
      HeaderFields(p, sealed + tail);
      assert d == Header(p) + (sealed + tail);
      assert d[|d| - 8..] == tail;
      assert d[12..|d| - 8] == sealed;
  }

  // ---------- what a run sends ----------

  function RtpTime(epoch: nat, k: nat): (t: nat)
    ensures t < CLOCK
  {
    (epoch + SPF * k) % CLOCK
  }

  function Number(k: nat): (n: nat)
    ensures n < SEQUENCE
  {
    (1 + k) % SEQUENCE
  }

  function Fresh(payloads: seq<seq<byte>>, epoch: nat, k: nat): (p: Packet)
    requires k < |payloads|
    ensures p.Valid()
  {
    Packet(payloads[k], RtpTime(epoch, k), Number(k))
  }

  /** Frame k of a plaintext run, preceded by a repeat of frame k - 8. */
  function Turn(payloads: seq<seq<byte>>, epoch: nat, k: nat): seq<Packet>
    requires k < |payloads|
  {
    (if k >= DEPTH then [Fresh(payloads, epoch, k - DEPTH)] else []) + [Fresh(payloads, epoch, k)]
  }

  function Sent(payloads: seq<seq<byte>>, epoch: nat, n: nat): seq<Packet>
    requires n <= |payloads|
  {
    if n == 0 then [] else Sent(payloads, epoch, n - 1) + Turn(payloads, epoch, n - 1)
  }

  function FreshAt(k: nat): nat {
    if k < DEPTH then k else 2 * k - 7
  }

  /** Frame k goes out at its own place and once more right before frame k + 8, with its number and its
      timestamp, and nothing else is sent. */
  lemma {:induction false} SentCount(payloads: seq<seq<byte>>, epoch: nat, n: nat)
    requires n <= |payloads|
    ensures |Sent(payloads, epoch, n)| == if n <= DEPTH then n else 2 * n - DEPTH
    decreases n
  {
    hide Fresh;
    if n > 0 {
      SentCount(payloads, epoch, n - 1);
    }
  }

  lemma {:induction false} SentPrefix(payloads: seq<seq<byte>>, epoch: nat, m: nat, n: nat)
    requires m <= n <= |payloads|
    ensures Sent(payloads, epoch, m) <= Sent(payloads, epoch, n)
    decreases n
  {
    hide Turn;
    if m < n {
      SentPrefix(payloads, epoch, m, n - 1);
    }
  }

  lemma SentTwice(payloads: seq<seq<byte>>, epoch: nat, n: nat, k: nat)
    requires k < n <= |payloads|
    ensures |Sent(payloads, epoch, n)| == if n <= DEPTH then n else 2 * n - DEPTH
    ensures FreshAt(k) < |Sent(payloads, epoch, n)| && Sent(payloads, epoch, n)[FreshAt(k)] == Fresh(payloads, epoch, k)
    ensures k >= DEPTH ==> FreshAt(k) > 0 && Sent(payloads, epoch, n)[FreshAt(k) - 1] == Fresh(payloads, epoch, k - DEPTH)
  {
    hide Fresh;
    SentCount(payloads, epoch, n);
    SentCount(payloads, epoch, k);
    SentCount(payloads, epoch, k + 1);
    SentPrefix(payloads, epoch, k + 1, n);
    var upTo := Sent(payloads, epoch, k + 1);
    assert upTo == Sent(payloads, epoch, k) + Turn(payloads, epoch, k);
  }

  // ---------- the clock ----------

  /** A timestamp moves the clock when it is ahead by less than half the 32-bit range. */
  function ClockAfter(clock: nat, rtpTime: nat): (c: nat)
    requires clock < CLOCK && rtpTime < CLOCK
    ensures c < CLOCK
  {
    if (rtpTime - clock) % CLOCK < 0x8000_0000 then rtpTime else clock
  }

  /** The clock stands at the newest frame, through any number of wrap-arounds: a fresh frame moves it
      there and a repeat leaves it. */
  lemma FreshMovesClock(epoch: nat, k: nat)
    ensures k > 0 ==> ClockAfter(RtpTime(epoch, k - 1), RtpTime(epoch, k)) == RtpTime(epoch, k)
    ensures k == 0 ==> ClockAfter(RtpTime(epoch, 0), RtpTime(epoch, 0)) == RtpTime(epoch, 0)
  {
    if k > 0 {
      StepAhead(epoch + SPF * (k - 1), SPF);
    }
  }

  lemma RepeatKeepsClock(epoch: nat, k: nat)
    requires k >= DEPTH
    ensures ClockAfter(RtpTime(epoch, k - 1), RtpTime(epoch, k - DEPTH)) == RtpTime(epoch, k - 1)
  {
    StepAhead(epoch + SPF * (k - DEPTH), SPF * (DEPTH - 1));
  }

  /** The difference of two reduced timestamps, reduced. */
  lemma StepAhead(a: nat, d: nat)
    requires 0 < d < CLOCK
    ensures ((a + d) % CLOCK - a % CLOCK) % CLOCK == d
    ensures (a % CLOCK - (a + d) % CLOCK) % CLOCK == CLOCK - d
  {}

  lemma NextTime(epoch: nat, k: nat)
    ensures (RtpTime(epoch, k) + SPF) % CLOCK == RtpTime(epoch, k + 1)
    ensures (Number(k) + 1) % SEQUENCE == Number(k + 1)
  {}

  // ---------- the sender ----------

  function Datagrams(suite: Suite, packets: seq<Packet>): seq<seq<byte>> {
    if packets == [] then []
    else Datagrams(suite, packets[..|packets| - 1]) + [Datagram(suite, None, 0, packets[|packets| - 1])]
  }

  function Sealed(suite: Suite, key: seq<byte>, payloads: seq<seq<byte>>, epoch: nat, n: nat): seq<seq<byte>>
    requires n <= |payloads|
  {
    if n == 0 then []
    else Sealed(suite, key, payloads, epoch, n - 1) + [Datagram(suite, Some(key), n - 1, Fresh(payloads, epoch, n - 1))]
  }

  lemma DatagramsAppend(suite: Suite, packets: seq<Packet>, p: Packet)
    ensures Datagrams(suite, packets + [p]) == Datagrams(suite, packets) + [Datagram(suite, None, 0, p)]
  {
    hide Datagram;
    assert (packets + [p])[..|packets|] == packets;
  }

  class AudioStream {
    const suite: Suite
    const key: Option<seq<byte>>
    var rtpTime: nat
    var chachaCounter: nat
    var sent: seq<seq<byte>>

    constructor (suite: Suite, key: Option<seq<byte>>)
      ensures this.suite == suite && this.key == key && rtpTime == 0 && chachaCounter == 0 && sent == []
    {
      this.suite, this.key := suite, key;
      rtpTime, chachaCounter, sent := 0, 0, [];
    }

    method SendFrame(payload: seq<byte>, time: nat, number: nat)
      requires time < CLOCK && number < SEQUENCE && rtpTime < CLOCK
      modifies this
      ensures sent == old(sent) + [Datagram(suite, key, old(chachaCounter), Packet(payload, time, number))]
      ensures rtpTime == ClockAfter(old(rtpTime), time)
      ensures chachaCounter == old(chachaCounter) + if key.Some? then 1 else 0
    {
      hide Be, H.LittleEndian;
      var pkt := [0x80, 96] + Be(number, 2) + Be(time, 4) + Be(0, 4);
      assert pkt == Header(Packet(payload, time, number)) && pkt[4..12] == pkt[4..];
      var body := payload;
      if key.Some? {
        var aad := pkt[4..12];
        var nonce := H.LittleEndian(chachaCounter, 8) + Fill(4);
        body := suite.seal(key.value, nonce, aad, body);
        body := body + H.LittleEndian(chachaCounter, 8);
        ghost var sealed := suite.seal(key.value, nonce, aad, payload);
        assert pkt + body == pkt + sealed + H.LittleEndian(chachaCounter, 8);
        chachaCounter := chachaCounter + 1;
      }
      sent := sent + [pkt + body];
      if (time - rtpTime) % CLOCK < 0x8000_0000 {
        rtpTime := time;
      }
    }
  }

  /** What the ring holds after n frames: of each slot, the newest frame with that remainder. */
  ghost predicate RingHolds(ring: seq<Option<Packet>>, payloads: seq<seq<byte>>, epoch: nat, n: nat)
    requires n <= |payloads|
  {
    && |ring| == DEPTH
    && forall k: nat | n - DEPTH <= k < n :: ring[k % DEPTH] == Some(Fresh(payloads, epoch, k))
  }

  /** The sending loop, over the frames that capture delivers. */
  method RunAudio(audio: AudioStream, payloads: seq<seq<byte>>, epoch: nat)
    requires epoch < CLOCK && audio.sent == [] && audio.chachaCounter == 0
    modifies audio
    ensures audio.key.None? ==> audio.sent == Datagrams(audio.suite, Sent(payloads, epoch, |payloads|))
    ensures audio.key.Some? ==> audio.sent == Sealed(audio.suite, audio.key.value, payloads, epoch, |payloads|)
    ensures audio.rtpTime == RtpTime(epoch, if payloads == [] then 0 else |payloads| - 1)
  {
    hide Datagram, RingHolds, Datagrams, Sent, RtpTime, Number, ClockAfter;
    var rtpTime, number := epoch, 1;
    StartTime(epoch);
    audio.rtpTime := rtpTime;
    var useFec := audio.key.None?;
    var ring := new Option<Packet>[8](_ => None);
    var idx := 0;
    var burstDone := false;
    NothingSent(audio.suite, ring[..], payloads, epoch);
    for k := 0 to |payloads|
      invariant rtpTime == RtpTime(epoch, k) && number == Number(k)
      invariant audio.rtpTime == RtpTime(epoch, if k == 0 then 0 else k - 1)
      invariant useFec ==> audio.chachaCounter == 0 && burstDone == (k >= DEPTH) && idx == k % DEPTH
      invariant useFec ==> RingHolds(ring[..], payloads, epoch, k)
      invariant useFec ==> audio.sent == Datagrams(audio.suite, Sent(payloads, epoch, k))
      invariant !useFec ==> audio.chachaCounter == k && audio.sent == Sealed(audio.suite, audio.key.value, payloads, epoch, k)
    {
      FreshMovesClock(epoch, k);
      if useFec {
        SendTurn(audio, ring, payloads, epoch, k, payloads[k], rtpTime, number, idx, burstDone);
        idx, burstDone := NextSlot(k, idx, burstDone);
      } else {
        audio.SendFrame(payloads[k], rtpTime, number);
      }
      NextTime(epoch, k);
      number := (number + 1) % SEQUENCE;
      rtpTime := (rtpTime + SPF) % CLOCK;
    }
  }

  /** Where the ring continues, and whether the first eight are through. */
  method NextSlot(ghost k: nat, idx: nat, burstDone: bool) returns (next: nat, done: bool)
    requires burstDone == (k >= DEPTH) && idx == k % DEPTH
    ensures done == (k + 1 >= DEPTH) && next == (k + 1) % DEPTH
  {
    next, done := idx, burstDone;
    if !burstDone {
      next := next + 1;
      if next >= 8 {
        done := true;
        next := 0;
      }
    } else {
      next := (next + 1) % 8;
    }
  }

  lemma StartTime(epoch: nat)
    requires epoch < CLOCK
    ensures RtpTime(epoch, 0) == epoch && Number(0) == 1
  {}

  lemma NothingSent(suite: Suite, ring: seq<Option<Packet>>, payloads: seq<seq<byte>>, epoch: nat)
    requires |ring| == DEPTH
    ensures RingHolds(ring, payloads, epoch, 0) && Datagrams(suite, Sent(payloads, epoch, 0)) == []
  {}

  /** One turn of the plaintext loop: repeat the slot's frame, if the burst is over, and replace it. */
  method SendTurn(audio: AudioStream, ring: array<Option<Packet>>, ghost payloads: seq<seq<byte>>, ghost epoch: nat, ghost k: nat,
                  payload: seq<byte>, rtpTime: nat, number: nat, idx: nat, burstDone: bool)
    requires k < |payloads| && ring.Length == DEPTH && audio.key.None?
    requires Packet(payload, rtpTime, number) == Fresh(payloads, epoch, k)
    requires burstDone == (k >= DEPTH) && idx == k % DEPTH
    requires RingHolds(ring[..], payloads, epoch, k)
    requires audio.rtpTime == RtpTime(epoch, if k == 0 then 0 else k - 1)
    requires audio.sent == Datagrams(audio.suite, Sent(payloads, epoch, k)) && audio.chachaCounter == 0
    modifies audio, ring
    ensures RingHolds(ring[..], payloads, epoch, k + 1)
    ensures audio.rtpTime == RtpTime(epoch, k) && audio.chachaCounter == 0
    ensures audio.sent == Datagrams(audio.suite, Sent(payloads, epoch, k + 1))
  {
    hide Datagram, Datagrams, ClockAfter, RtpTime, RingHolds;
    ghost var before := Sent(payloads, epoch, k);
    FreshMovesClock(epoch, k);
    RingSlot(ring[..], payloads, epoch, k);
    if burstDone && ring[idx].Some? {
      var repeated := ring[idx].value;
      RepeatKeepsClock(epoch, k);
      DatagramsAppend(audio.suite, before, repeated);
      audio.SendFrame(repeated.payload, repeated.rtpTime, repeated.number);
      before := before + [repeated];
    }
    DatagramsAppend(audio.suite, before, Fresh(payloads, epoch, k));
    assert Sent(payloads, epoch, k + 1) == before + [Fresh(payloads, epoch, k)];
    audio.SendFrame(payload, rtpTime, number);
    RingReplaced(ring[..], payloads, epoch, k);
    ring[idx] := Some(Packet(payload, rtpTime, number));
  }

  lemma RingSlot(ring: seq<Option<Packet>>, payloads: seq<seq<byte>>, epoch: nat, k: nat)
    requires k < |payloads| && RingHolds(ring, payloads, epoch, k)
    ensures |ring| == DEPTH
    ensures k >= DEPTH ==> ring[k % DEPTH] == Some(Fresh(payloads, epoch, k - DEPTH))
  {
    assert k >= DEPTH ==> (k - DEPTH) % DEPTH == k % DEPTH;
  }

  lemma RingReplaced(ring: seq<Option<Packet>>, payloads: seq<seq<byte>>, epoch: nat, k: nat)
    requires k < |payloads| && RingHolds(ring, payloads, epoch, k)
    ensures |ring| == DEPTH && RingHolds(ring[k % DEPTH := Some(Fresh(payloads, epoch, k))], payloads, epoch, k + 1)
  {
    forall j: nat | k + 1 - DEPTH <= j < k
      ensures j % DEPTH != k % DEPTH
    {
      DistinctSlots(j, k);
    }
  }

  lemma DistinctSlots(j: nat, k: nat)
    requires j < k < j + DEPTH
    ensures j % DEPTH != k % DEPTH
  {}

  // ---------- the bytes of a datagram ----------

  lemma BeTwo(n: nat)
    requires n < 0x1_0000
    ensures Be(n, 2) == [n / 256, n % 256]
  {
    assert Be(n / 256, 1) == Be(n / 256 / 256, 0) + [n / 256 % 256];
    assert n / 256 % 256 == n / 256;
  }

  lemma BeFour(n: nat)
    requires n < 0x1_0000_0000
    ensures var b := Be(n, 4);
      ((b[0] as int * 256 + b[1] as int) * 256 + b[2] as int) * 256 + b[3] as int == n
  {
    hide FromBe;
    Limits();
    BeRoundTrip(n, 4);
    FromFour(Be(n, 4));
  }

  lemma FromFour(b: seq<byte>)
    requires |b| == 4
    ensures FromBe(b) == ((b[0] as int * 256 + b[1] as int) * 256 + b[2] as int) * 256 + b[3] as int
  {
    var b3, b2, b1 := b[..3], b[..2], b[..1];
    assert b3[..2] == b2 && b2[..1] == b1 && b1[..0] == [];
    assert FromBe(b1) == b[0];
    assert FromBe(b2) == b[0] as int * 256 + b[1] as int;
    assert FromBe(b3) == (b[0] as int * 256 + b[1] as int) * 256 + b[2] as int;
  }

  /** A datagram's bytes: version 2 and payload type 96, number and timestamp with the highest byte first,
      no source; then the payload, or the payload sealed over timestamp and source under a nonce of the
      counter, lowest byte first, and four zeros, followed by the counter's eight bytes. */
  lemma DatagramIs(suite: Suite, key: Option<seq<byte>>, counter: nat, p: Packet)
    requires p.Valid() && counter < H.COUNTER_LIMIT
    ensures var d := Datagram(suite, key, counter, p);
      && |d| >= 12 && d[0] == 0x80 && d[1] == 96
      && d[2] as int * 256 + d[3] as int == p.number
      && ((d[4] as int * 256 + d[5] as int) * 256 + d[6] as int) * 256 + d[7] as int == p.rtpTime
      && d[8..12] == [0, 0, 0, 0]
      && match key
         case None => d[12..] == p.payload
         case Some(k) =>
           exists tail :: |tail| == 8 && H.Value64(tail) == counter
             && d[12..] == suite.seal(k, tail + [0, 0, 0, 0], d[4..12], p.payload) + tail
  {
    hide Be, H.LittleEndian, H.Value64;
    var d, h := Datagram(suite, key, counter, p), Header(p);
    assert d[..12] == h;
    BeTwo(p.number);
    BeFour(p.rtpTime);
    BeZero();
    assert d[2] == h[2] && d[3] == h[3] && d[4] == h[4] && d[5] == h[5] && d[6] == h[6] && d[7] == h[7];
    assert h[4..8] == Be(p.rtpTime, 4) && h[8..12] == Be(0, 4);
    if key.Some? {
      var tail := H.LittleEndian(counter, 8);
      H.LittleEndianValue(counter);
      assert AudioNonce(counter) == tail + [0, 0, 0, 0] by { ZeroTail(tail); }
      assert d[4..12] == h[4..];
      assert d[12..] == suite.seal(key.value, tail + [0, 0, 0, 0], d[4..12], p.payload) + tail;
    }
  }

  lemma ZeroTail(tail: seq<byte>)
    ensures tail + Fill(4) == tail + [0, 0, 0, 0]
  {}

  lemma BeZero()
    ensures Be(0, 4) == [0, 0, 0, 0]
  {}
}
