/** HAP framing: ChaCha20-Poly1305 frames of up to 1024 bytes with a counter for a nonce, as written by
    the control client, the receiver's HapStream and the event channel, and read back through a
    residual buffer. */
module HapFraming {
  import opened Bytes
  import opened Crypto

  const MAX_CHUNK := 1024
  const COUNTER_LIMIT := 0x1_0000_0000_0000_0000

  // ---------- frames ----------

  function LittleEndian(n: nat, size: nat): (b: seq<byte>)
    ensures |b| == size
    decreases size
  {
    if size == 0 then [] else [n % 256] + LittleEndian(n / 256, size - 1)
  }

  function FromLittleEndian(b: seq<byte>): nat {
    if b == [] then 0 else b[0] + 256 * FromLittleEndian(b[1..])
  }

  function Limit(size: nat): (n: nat)
    ensures n > 0
  {
    if size == 0 then 1 else 256 * Limit(size - 1)
  }

  lemma {:induction false} LittleEndianRoundTrip(n: nat, size: nat)
    requires n < Limit(size)
    ensures FromLittleEndian(LittleEndian(n, size)) == n
    decreases size
  {
    if size > 0 {
      LittleEndianRoundTrip(n / 256, size - 1);
      assert LittleEndian(n, size)[1..] == LittleEndian(n / 256, size - 1);
    }
  }

  /** The counter is a 64-bit number. */
  function Nonce(counter: nat): seq<byte> {
    Fill(4) + LittleEndian(counter, 8)
  }

  /** No nonce repeats before the 64-bit counter does. */
  lemma NoncesAreDistinct(a: nat, b: nat)
    requires a < COUNTER_LIMIT && b < COUNTER_LIMIT && Nonce(a) == Nonce(b)
    ensures a == b
  {
    hide LittleEndian, FromLittleEndian;
    assert Nonce(a)[4..] == LittleEndian(a, 8) && Nonce(b)[4..] == LittleEndian(b, 8);
    LittleEndianRoundTrip(a, 8);
    LittleEndianRoundTrip(b, 8);
  }

  function SizeBytes(n: nat): (b: seq<byte>)
    ensures |b| == 2
  {
    [n % 256, n / 256 % 256]
  }

  function SizeOf(b: seq<byte>): nat
    requires |b| == 2
  {
    b[0] + 256 * b[1] as int
  }

  function Frame(suite: Suite, key: seq<byte>, counter: nat, chunk: seq<byte>): seq<byte> {
    SizeBytes(|chunk|) + suite.seal(key, Nonce(counter), SizeBytes(|chunk|), chunk)
  }

  function Chunks(plain: seq<byte>): seq<seq<byte>> {
    if plain == [] then []
    else if |plain| > MAX_CHUNK then [plain[..MAX_CHUNK]] + Chunks(plain[MAX_CHUNK..])
    else [plain]
  }

  /** The frames of consecutive chunks. */
  function Frames(suite: Suite, key: seq<byte>, counter: nat, chunks: seq<seq<byte>>): seq<byte>
    decreases |chunks|
  {
    if chunks == [] then []
    else Frame(suite, key, counter, chunks[0]) + Frames(suite, key, counter + 1, chunks[1..])
  }

  ghost predicate ValidChunks(chunks: seq<seq<byte>>) {
    forall c | c in chunks :: 1 <= |c| <= MAX_CHUNK
  }

  /** The chunks are the plaintext, cut into pieces of 1 to 1024 bytes. */
  lemma {:induction false} ChunksCut(plain: seq<byte>)
    ensures Concat(Chunks(plain)) == plain && ValidChunks(Chunks(plain))
    ensures |Chunks(plain)| == (|plain| + MAX_CHUNK - 1) / MAX_CHUNK
    decreases |plain|
  {
    if |plain| > MAX_CHUNK {
      ChunksCut(plain[MAX_CHUNK..]);
      assert plain == plain[..MAX_CHUNK] + plain[MAX_CHUNK..];
    } else if plain != [] {
      assert Concat([plain]) == plain + Concat([]);
    }
  }

  lemma {:induction false} FramesAppend(suite: Suite, key: seq<byte>, counter: nat, a: seq<seq<byte>>, b: seq<seq<byte>>)
    ensures Frames(suite, key, counter, a + b) == Frames(suite, key, counter, a) + Frames(suite, key, counter + |a|, b)
    decreases |a|
  {
    hide Frame;
    if a == [] {
      assert a + b == b;
    } else {
      FramesAppend(suite, key, counter + 1, a[1..], b);
      assert (a + b)[0] == a[0] && (a + b)[1..] == a[1..] + b;
    }
  }

  // ---------- reading ----------

  /** One frame off the wire: its plaintext and what follows it. */
  function OpenFrame(suite: Suite, key: seq<byte>, counter: nat, wire: seq<byte>): (r: Option<(seq<byte>, seq<byte>)>)
    ensures r.Some? ==> |r.value.1| < |wire|
  {
    if |wire| < 2 then None
    else
      var size := SizeOf(wire[..2]);
      if size < 1 || size > MAX_CHUNK || |wire| < 2 + size + TAG_SIZE then None
      else
        var plain :- suite.unseal(key, Nonce(counter), wire[..2], wire[2..2 + size + TAG_SIZE]);
        Some((plain, wire[2 + size + TAG_SIZE..]))
  }

  lemma OpenUndoesFrame(suite: Suite, key: seq<byte>, counter: nat, chunk: seq<byte>, rest: seq<byte>)
    requires suite.Lawful() && 1 <= |chunk| <= MAX_CHUNK
    ensures OpenFrame(suite, key, counter, Frame(suite, key, counter, chunk) + rest) == Some((chunk, rest))
  {
    hide Nonce;
    var head, sealed := SizeBytes(|chunk|), suite.seal(key, Nonce(counter), SizeBytes(|chunk|), chunk);
    var wire := Frame(suite, key, counter, chunk) + rest;
    assert wire[..2] == head;
    assert SizeOf(head) == |chunk|;
    assert wire[2..2 + |chunk| + TAG_SIZE] == sealed;
    assert wire[2 + |chunk| + TAG_SIZE..] == rest;
  }

  /** The number that eight bytes stand for, the first of them the lowest. */
  function Value64(b: seq<byte>): nat
    requires |b| == 8
  {
    Value32(b[0], b[1], b[2], b[3]) + 0x1_0000_0000 * Value32(b[4], b[5], b[6], b[7])
  }

  function Value32(a: nat, b: nat, c: nat, d: nat): nat {
    a + 0x100 * b + 0x1_0000 * c + 0x100_0000 * d
  }

  /** A twelve-byte nonce: four zeros and the counter, lowest byte first. */
  ghost predicate IsNonce(nonce: seq<byte>, counter: nat) {
    |nonce| == 12 && nonce[..4] == [0, 0, 0, 0] && Value64(nonce[4..]) == counter
  }

  lemma NonceIs(counter: nat)
    requires counter < COUNTER_LIMIT
    ensures IsNonce(Nonce(counter), counter)
  {
    hide LittleEndian;
    var nonce := Nonce(counter);
    assert nonce[4..] == LittleEndian(counter, 8) && nonce[..4] == Fill(4) == [0, 0, 0, 0];
    LittleEndianValue(counter);
  }

  lemma LittleEndianValue(n: nat)
    requires n < COUNTER_LIMIT
    ensures Value64(LittleEndian(n, 8)) == n
  {
    hide LittleEndian, Value32;
    var high := FourBytes(n, 4);
    var none := FourBytes(high, 0);
    var b := LittleEndian(n, 8);
    assert b[4..][0] == b[4] && b[4..][1] == b[5] && b[4..][2] == b[6] && b[4..][3] == b[7];
    Below64(n, Value32(b[0], b[1], b[2], b[3]), high, Value32(b[4], b[5], b[6], b[7]), none);
  }

  lemma Below64(n: nat, low: nat, high: nat, middle: nat, none: nat)
    requires n < COUNTER_LIMIT && n == low + 0x1_0000_0000 * high && high == middle + 0x1_0000_0000 * none
    ensures high == middle
  {}

  /** The low four bytes come first. */
  lemma FourBytes(n: nat, more: nat) returns (high: nat)
    ensures var b := LittleEndian(n, 4 + more);
      && b[4..] == LittleEndian(high, more)
      && n == Value32(b[0], b[1], b[2], b[3]) + 0x1_0000_0000 * high
  {
    hide LittleEndian;
    var n1, n2, n3 := n / 256, n / 256 / 256, n / 256 / 256 / 256;
    OneByte(n, 3 + more);
    OneByte(n1, 2 + more);
    OneByte(n2, 1 + more);
    OneByte(n3, more);
    high := n3 / 256;
    assert LittleEndian(n, 4 + more) == [n % 256, n1 % 256, n2 % 256, n3 % 256] + LittleEndian(high, more);
  }

  lemma OneByte(n: nat, more: nat)
    ensures LittleEndian(n, 1 + more) == [n % 256] + LittleEndian(n / 256, more)
  {}

  /** What every frame is: its chunk's length, low byte first, then the chunk sealed under the counter's
      nonce with those two bytes as associated data. */
  lemma FrameIs(suite: Suite, key: seq<byte>, counter: nat, chunk: seq<byte>) returns (h: seq<byte>, nonce: seq<byte>)
    requires 1 <= |chunk| <= MAX_CHUNK && counter < COUNTER_LIMIT
    ensures |h| == 2 && h[0] + 256 * h[1] as int == |chunk|
    ensures IsNonce(nonce, counter)
    ensures Frame(suite, key, counter, chunk) == h + suite.seal(key, nonce, h, chunk)
  {
    hide Nonce, IsNonce;
    h, nonce := SizeBytes(|chunk|), Nonce(counter);
    NonceIs(counter);
  }

  /** Only one twelve-byte nonce belongs to a counter. */
  lemma OneNonce(nonce: seq<byte>, counter: nat)
    requires counter < COUNTER_LIMIT && IsNonce(nonce, counter)
    ensures nonce == Nonce(counter)
  {
    hide Nonce, Value64;
    NonceIs(counter);
    var own := Nonce(counter);
    SameValue(nonce[4..], own[4..]);
    assert nonce == nonce[..4] + nonce[4..] && own == own[..4] + own[4..];
  }

  lemma SameValue(a: seq<byte>, b: seq<byte>)
    requires |a| == |b| == 8 && Value64(a) == Value64(b)
    ensures a == b
  {
    hide Value32;
    SameHalves(Value32(a[0], a[1], a[2], a[3]), Value32(a[4], a[5], a[6], a[7]),
               Value32(b[0], b[1], b[2], b[3]), Value32(b[4], b[5], b[6], b[7]));
    SameFour(a[0], a[1], a[2], a[3], b[0], b[1], b[2], b[3]);
    SameFour(a[4], a[5], a[6], a[7], b[4], b[5], b[6], b[7]);
    Below32(a[0], a[1], a[2], a[3]);
    Below32(b[0], b[1], b[2], b[3]);
  }

  lemma Below32(a: byte, b: byte, c: byte, d: byte)
    ensures Value32(a, b, c, d) < 0x1_0000_0000
  {}

  lemma SameHalves(low: nat, high: nat, low': nat, high': nat)
    requires low + 0x1_0000_0000 * high == low' + 0x1_0000_0000 * high'
    ensures low < 0x1_0000_0000 && low' < 0x1_0000_0000 ==> low == low' && high == high'
  {}

  lemma SameFour(a: byte, b: byte, c: byte, d: byte, a': byte, b': byte, c': byte, d': byte)
    ensures Value32(a, b, c, d) == Value32(a', b', c', d') ==> a == a' && b == b' && c == c' && d == d'
  {
    SameLowByte(a, b + 0x100 * c as int + 0x1_0000 * d as int, a', b' + 0x100 * c' as int + 0x1_0000 * d' as int);
    SameLowByte(b, c + 0x100 * d as int, b', c' + 0x100 * d' as int);
    SameLowByte(c, d, c', d');
  }

  lemma SameLowByte(a: byte, more: nat, a': byte, more': nat)
    ensures a + 0x100 * more == a' + 0x100 * more' ==> a == a' && more == more'
  {}

  /** What a reader takes off any wire, tampered or not: exactly a length from 1 to 1024, low byte
      first, and that many sealed bytes with their tag, which open under the counter's nonce with the
      length's two bytes as associated data. */
  lemma OpenFrameIs(suite: Suite, key: seq<byte>, counter: nat, wire: seq<byte>, nonce: seq<byte>, plain: seq<byte>, rest: seq<byte>)
    requires counter < COUNTER_LIMIT && IsNonce(nonce, counter)
    ensures OpenFrame(suite, key, counter, wire) == Some((plain, rest)) <==>
      && |wire| >= 2
      && var size := wire[0] + 256 * wire[1] as int;
         && 1 <= size <= 1024 && |wire| >= 18 + size
         && suite.unseal(key, nonce, wire[..2], wire[2..18 + size]) == Some(plain)
         && rest == wire[18 + size..]
  {
    hide Nonce, IsNonce;
    OneNonce(nonce, counter);
  }

  datatype Reader = Reader(buf: seq<byte>, counter: nat, wire: seq<byte>)

  /** One read of at most n bytes.  None: not one whole frame of ours is there. */
  function ReadStep(suite: Suite, key: seq<byte>, st: Reader, n: nat): Option<(Reader, seq<byte>)> {
    if n == 0 then Some((st, []))
    else if st.buf == [] then
      var (plain, rest) :- OpenFrame(suite, key, st.counter, st.wire);
      Some(Deliver(Reader(plain, st.counter + 1, rest), n))
    else Some(Deliver(st, n))
  }

  function Deliver(st: Reader, n: nat): (Reader, seq<byte>) {
    var k := if n < |st.buf| then n else |st.buf|;
    (st.(buf := st.buf[k..]), st.buf[..k])
  }

  /** What is on the wire after a frame that did not open was taken off it. */
  function AfterBadFrame(wire: seq<byte>): (rest: seq<byte>)
    ensures wire != [] ==> |rest| < |wire|
  {
    if |wire| < 2 then []
    else
      var size := SizeOf(wire[..2]);
      if size < 1 || size > MAX_CHUNK then wire[2..]
      else if |wire| < 2 + size + TAG_SIZE then []
      else wire[2 + size + TAG_SIZE..]
  }

  function AfterFailure(st: Reader): Reader {
    st.(wire := AfterBadFrame(st.wire))
  }

  // ---------- reading exactly n bytes ----------

  /** Reads until n bytes are there or a read fails or gives nothing; the last state says where. */
  function ReadAll(suite: Suite, key: seq<byte>, st: Reader, n: nat): (Option<seq<byte>>, Reader)
    decreases n
  {
    if n == 0 then (Some([]), st)
    else
      match ReadStep(suite, key, st, n)
      case None => (None, AfterFailure(st))
      case Some(v) =>
        if v.1 == [] || |v.1| > n then (None, v.0)
        else
          var (more, end) := ReadAll(suite, key, v.0, n - |v.1|);
          (Prepend(v.1, more), end)
  }

  function Prepend(data: seq<byte>, more: Option<seq<byte>>): Option<seq<byte>> {
    if more.Some? then Some(data + more.value) else None
  }

  /** What a stream still gives: bytes, and BROKEN where a read fails.  At the end every read fails. */
  type Symbol = x: int | -1 <= x < 256

  const BROKEN: Symbol := -1

  /** The frames on the wire as such a stream. */
  function Arriving(suite: Suite, key: seq<byte>, counter: nat, wire: seq<byte>): seq<Symbol>
    decreases |wire|
  {
    if wire == [] then []
    else
      match OpenFrame(suite, key, counter, wire)
      case Some(v) => OrBroken(v.0) + Arriving(suite, key, counter + 1, v.1)
      case None => [BROKEN] + Arriving(suite, key, counter, AfterBadFrame(wire))
  }

  function OrBroken(plain: seq<byte>): seq<Symbol> {
    if plain == [] then [BROKEN] else plain
  }

  function Symbols(suite: Suite, key: seq<byte>, st: Reader): seq<Symbol> {
    st.buf + Arriving(suite, key, st.counter, st.wire)
  }

  /** The next n bytes of a stream, or None when a failure is met first; and what is left. */
  function TakeExact(s: seq<Symbol>, n: nat): (r: (Option<seq<byte>>, seq<Symbol>))
    ensures |r.1| <= |s|
    decreases n
  {
    if n == 0 then (Some([]), s)
    else if s == [] then (None, [])
    else if s[0] == BROKEN then (None, s[1..])
    else
      var (more, rest) := TakeExact(s[1..], n - 1);
      (Prepend([s[0]], more), rest)
  }

  lemma {:induction false} TakeExactAfter(data: seq<byte>, s: seq<Symbol>, n: nat)
    requires |data| <= n
    ensures var (more, rest) := TakeExact(s, n - |data|);
      TakeExact(data + s, n) == (Prepend(data, more), rest)
    decreases |data|
  {
    if data == [] {
      assert data + s == s;
      PrependNothing(TakeExact(s, n).0);
    } else {
      TakeExactAfter(data[1..], s, n - 1);
      assert (data + s)[1..] == data[1..] + s;
      PrependTwice([data[0]], data[1..], TakeExact(s, n - |data|).0);
      assert [data[0]] + data[1..] == data;
    }
  }

  lemma TakeNone(s: seq<Symbol>)
    ensures TakeExact(s, 0) == (Some([]), s)
  {}

  lemma TakeExactBytes(data: seq<byte>, s: seq<Symbol>)
    ensures TakeExact(data + s, |data|) == (Some(data), s)
  {
    TakeExactAfter(data, s, |data|);
    assert data + [] == data;
  }

  /** A stream without failures. */
  lemma {:induction false} TakeFromBytes(s: seq<byte>, n: nat)
    ensures TakeExact(s, n) == if n <= |s| then (Some(s[..n]), s[n..]) else (None, [])
    decreases n
  {
    if n > 0 && s != [] {
      TakeFromBytes(s[1..], n - 1);
      if n <= |s| {
        assert [s[0]] + s[1..][..n - 1] == s[..n];
      }
    }
  }

  lemma ReadStepGives(suite: Suite, key: seq<byte>, st: Reader, n: nat)
    requires n > 0
    ensures match ReadStep(suite, key, st, n)
      case None =>
        if st.wire == [] then Symbols(suite, key, st) == [] == Symbols(suite, key, AfterFailure(st))
        else Symbols(suite, key, st) == [BROKEN] + Symbols(suite, key, AfterFailure(st))
      case Some(v) =>
        && |v.1| <= n
        && Symbols(suite, key, st) == OrBroken(v.1) + Symbols(suite, key, v.0)
  {
    hide OpenFrame, AfterBadFrame;
    if st.buf == [] && st.wire == [] {
      NoFrame(suite, key, st.counter);
      NothingAfterNothing();
    }
  }

  lemma NothingAfterNothing()
    ensures AfterBadFrame([]) == []
  {}

  /** A read of n bytes on any connection, whatever is on the wire: it takes the next n bytes of the
      stream, across frames and buffered remainders. */
  lemma {:induction false} ReadAllTakes(suite: Suite, key: seq<byte>, st: Reader, n: nat)
    ensures var (r, end) := ReadAll(suite, key, st, n);
      (r, Symbols(suite, key, end)) == TakeExact(Symbols(suite, key, st), n)
    decreases n
  {
    hide ReadStep, Symbols, AfterFailure;
    if n > 0 {
      ReadStepGives(suite, key, st, n);
      var step := ReadStep(suite, key, st, n);
      if step.None? {
        StopsAtFailure(Symbols(suite, key, AfterFailure(st)), n);
      } else if step.value.1 == [] {
        StopsAtFailure(Symbols(suite, key, step.value.0), n);
      } else {
        var (st', data) := step.value;
        ReadAllTakes(suite, key, st', n - |data|);
        TakeExactAfter(data, Symbols(suite, key, st'), n);
      }
    }
  }

  /** A stream has nothing left exactly when nothing is buffered or on the wire. */
  lemma NothingLeft(suite: Suite, key: seq<byte>, st: Reader)
    ensures Symbols(suite, key, st) == [] <==> st.buf == [] && st.wire == []
  {
    hide OpenFrame, AfterBadFrame;
  }

  lemma StopsAtFailure(s: seq<Symbol>, n: nat)
    requires n > 0
    ensures TakeExact([BROKEN] + s, n) == (None, s) && TakeExact([], n) == (None, [])
  {
    assert ([BROKEN] + s)[1..] == s;
  }

  /** Two reads are one longer read, state included: how a parser groups its reads does not matter. */
  lemma {:induction false} ReadAllTwice(suite: Suite, key: seq<byte>, st: Reader, m: nat, n: nat)
    ensures var (a, mid) := ReadAll(suite, key, st, m);
      a.Some? ==>
        var (b, end) := ReadAll(suite, key, mid, n);
        ReadAll(suite, key, st, m + n) == (Prepend(a.value, b), end)
    decreases m, 1
  {
    hide OpenFrame;
    if m == 0 {
      PrependNothing(ReadAll(suite, key, st, n).0);
    } else if st.buf != [] {
      ReadTwiceBuffered(suite, key, st, m, n);
    } else {
      var frame := OpenFrame(suite, key, st.counter, st.wire);
      if frame.Some? && frame.value.0 != [] {
        var st1 := Reader(frame.value.0, st.counter + 1, frame.value.1);
        RefillFirst(suite, key, st, m);
        RefillFirst(suite, key, st, m + n);
        ReadTwiceBuffered(suite, key, st1, m, n);
      }
    }
  }

  lemma RefillFirst(suite: Suite, key: seq<byte>, st: Reader, n: nat)
    requires n > 0 && st.buf == []
    ensures var frame := OpenFrame(suite, key, st.counter, st.wire);
      frame.Some? && frame.value.0 != [] ==>
        ReadAll(suite, key, st, n) == ReadAll(suite, key, Reader(frame.value.0, st.counter + 1, frame.value.1), n)
  {
    hide OpenFrame;
  }

  lemma PrependNothing(r: Option<seq<byte>>)
    ensures Prepend([], r) == r
  {
    assert r.Some? ==> [] + r.value == r.value;
  }

  /** A buffered reader gives its buffer first. */
  lemma BufferFirst(suite: Suite, key: seq<byte>, st: Reader, n: nat)
    requires st.buf != [] && n > 0
    ensures ReadAll(suite, key, st, n)
      == if n <= |st.buf| then (Some(st.buf[..n]), st.(buf := st.buf[n..]))
         else
           var (more, end) := ReadAll(suite, key, st.(buf := []), n - |st.buf|);
           (Prepend(st.buf, more), end)
  {
    if n <= |st.buf| {
      assert st.buf[..n] + [] == st.buf[..n];
      assert ReadAll(suite, key, st.(buf := st.buf[n..]), 0) == (Some([]), st.(buf := st.buf[n..]));
    } else {
      assert st.buf[|st.buf|..] == [] && st.buf[..|st.buf|] == st.buf;
    }
  }

  lemma ReadTwiceBuffered(suite: Suite, key: seq<byte>, st: Reader, m: nat, n: nat)
    requires st.buf != [] && m > 0
    ensures var (a, mid) := ReadAll(suite, key, st, m);
      a.Some? ==>
        var (b, end) := ReadAll(suite, key, mid, n);
        ReadAll(suite, key, st, m + n) == (Prepend(a.value, b), end)
    decreases m, 0
  {
    hide ReadAll;
    var buf := st.buf;
    BufferFirst(suite, key, st, m);
    BufferFirst(suite, key, st, m + n);
    if m < |buf| {
      var mid := st.(buf := buf[m..]);
      ReadNone(suite, key, mid);
      if n == 0 {
        assert buf[..m] + [] == buf[..m];
      } else {
        BufferFirst(suite, key, mid, n);
        if m + n <= |buf| {
          assert buf[..m] + buf[m..][..n] == buf[..m + n];
        } else {
          PrependTwice(buf[..m], buf[m..], ReadAll(suite, key, st.(buf := []), m + n - |buf|).0);
          assert buf[..m] + buf[m..] == buf;
        }
      }
    } else {
      var empty := st.(buf := []);
      ReadNone(suite, key, empty);
      ReadAllTwice(suite, key, empty, m - |buf|, n);
      var (a, mid) := ReadAll(suite, key, empty, m - |buf|);
      assert buf[..|buf|] == buf && buf[|buf|..] == [] && buf + [] == buf;
      if a.Some? {
        PrependTwice(buf, a.value, ReadAll(suite, key, mid, n).0);
      }
    }
  }

  lemma ReadNone(suite: Suite, key: seq<byte>, st: Reader)
    ensures ReadAll(suite, key, st, 0) == (Some([]), st)
  {}

  lemma PrependTwice(a: seq<byte>, b: seq<byte>, r: Option<seq<byte>>)
    ensures Prepend(a, Prepend(b, r)) == Prepend(a + b, r)
  {
    assert r.Some? ==> a + (b + r.value) == a + b + r.value;
  }

  /** What lies between two states of a reader is reading just the bytes that are gone from its stream,
      unless a failure is among them. */
  ghost predicate Advanced(suite: Suite, key: seq<byte>, st: Reader, st': Reader) {
    var s, s' := Symbols(suite, key, st), Symbols(suite, key, st');
    && |s'| <= |s|
    && var (r, end) := ReadAll(suite, key, st, |s| - |s'|);
       r.Some? ==> end == st'
  }

  lemma {:induction false} TakeExactPrefix(s: seq<Symbol>, m: nat, n: nat)
    requires m <= n && TakeExact(s, n).0.Some?
    ensures TakeExact(s, m).0.Some? && |TakeExact(s, n).1| == |s| - n
    decreases n
  {
    if m > 0 {
      TakeExactPrefix(s[1..], m - 1, n - 1);
    } else if n > 0 {
      TakeExactPrefix(s[1..], 0, n - 1);
    }
  }

  /** A read that fails has met a failure or the end. */
  lemma {:induction false} TakeExactFails(s: seq<Symbol>, n: nat)
    requires TakeExact(s, n).0.None?
    ensures var rest := TakeExact(s, n).1;
      TakeExact(s, |s| - |rest|).0.None? || (rest == [] && |s| < n)
    decreases n
  {
    if s != [] && s[0] != BROKEN {
      TakeExactFails(s[1..], n - 1);
    } else if s != [] {
      assert |s[1..]| == |s| - 1;
    }
  }

  lemma ReadExactAdvances(suite: Suite, key: seq<byte>, st: Reader, n: nat)
    ensures Advanced(suite, key, st, ReadAll(suite, key, st, n).1)
  {
    hide ReadAll, Symbols, TakeExact;
    var s := Symbols(suite, key, st);
    ReadAllTakes(suite, key, st, n);
    var k := |s| - |TakeExact(s, n).1|;
    ReadAllTakes(suite, key, st, k);
    if TakeExact(s, n).0.Some? {
      TakeExactPrefix(s, n, n);
    } else {
      TakeExactFails(s, n);
      if TakeExact(s, k).0.Some? {
        TakeExactPrefix(s, k, k);
        var end := ReadAll(suite, key, st, k).1;
        ReadAllTwice(suite, key, st, k, n - k);
        NothingLeft(suite, key, end);
        ReadAtEnd(suite, key, end, n - k);
      }
    }
  }

  lemma ReadAtEnd(suite: Suite, key: seq<byte>, st: Reader, n: nat)
    requires st.buf == [] && st.wire == [] && n > 0
    ensures ReadAll(suite, key, st, n) == (None, st)
  {
    NoFrame(suite, key, st.counter);
    NothingAfterNothing();
  }

  lemma AdvancedNone(suite: Suite, key: seq<byte>, st: Reader)
    ensures Advanced(suite, key, st, st)
  {
    hide Symbols;
    ReadNone(suite, key, st);
  }

  lemma AdvancedTwice(suite: Suite, key: seq<byte>, st: Reader, mid: Reader, end: Reader)
    requires Advanced(suite, key, st, mid) && Advanced(suite, key, mid, end)
    ensures Advanced(suite, key, st, end)
  {
    hide ReadAll, Symbols, TakeExact;
    var s, s1, s2 := Symbols(suite, key, st), Symbols(suite, key, mid), Symbols(suite, key, end);
    var m, n := |s| - |s1|, |s1| - |s2|;
    ReadAllTakes(suite, key, st, m);
    ReadAllTakes(suite, key, st, m + n);
    if ReadAll(suite, key, st, m + n).0.Some? {
      TakeExactPrefix(s, m, m + n);
      ReadAllTwice(suite, key, st, m, n);
    }
  }

  // ---------- both ends of a connection ----------

  datatype Event = Write(data: seq<byte>) | Read(n: nat)

  /** One direction of a connection; the last two fields record its history. */
  datatype Pipe = Pipe(counter: nat, reader: Reader, written: seq<byte>, delivered: seq<byte>)

  const IDLE := Pipe(0, Reader([], 0, []), [], [])

  function Step(suite: Suite, key: seq<byte>, p: Pipe, e: Event): Pipe {
    match e
    case Write(data) =>
      var chunks := Chunks(data);
      p.(counter := p.counter + |chunks|,
         reader := p.reader.(wire := p.reader.wire + Frames(suite, key, p.counter, chunks)),
         written := p.written + data)
    case Read(n) =>
      match ReadStep(suite, key, p.reader, n)
      case None => p
      case Some(v) => p.(reader := v.0, delivered := p.delivered + v.1)
  }

  function Run(suite: Suite, key: seq<byte>, p: Pipe, events: seq<Event>): Pipe {
    if events == [] then p else Step(suite, key, Run(suite, key, p, events[..|events| - 1]), events[|events| - 1])
  }

  /** The wire holds exactly the frames of these chunks, numbered from the reader's counter to the
      writer's, and delivered, buffered and travelling bytes are the written ones. */
  ghost predicate InStep(suite: Suite, key: seq<byte>, p: Pipe, chunks: seq<seq<byte>>) {
    && ValidChunks(chunks)
    && p.reader.wire == Frames(suite, key, p.reader.counter, chunks)
    && p.reader.counter + |chunks| == p.counter
    && p.delivered + (p.reader.buf + Concat(chunks)) == p.written
  }

  lemma WriteKeepsStep(suite: Suite, key: seq<byte>, p: Pipe, data: seq<byte>, chunks: seq<seq<byte>>)
    requires InStep(suite, key, p, chunks)
    ensures InStep(suite, key, Step(suite, key, p, Write(data)), chunks + Chunks(data))
  {
    hide Frames, Chunks, Concat;
    ChunksCut(data);
    FramesAppend(suite, key, p.reader.counter, chunks, Chunks(data));
    ConcatAppend(chunks, Chunks(data));
    var buf, before := p.reader.buf, Concat(chunks);
    assert p.delivered + (buf + (before + data)) == (p.delivered + (buf + before)) + data;
  }

  /** With an empty buffer, the first frame on the wire is opened. */
  lemma ReadOpensFrame(suite: Suite, key: seq<byte>, st: Reader, n: nat, chunks: seq<seq<byte>>)
    requires suite.Lawful() && ValidChunks(chunks) && chunks != [] && n > 0 && st.buf == []
    requires st.wire == Frames(suite, key, st.counter, chunks)
    ensures ReadStep(suite, key, st, n)
      == Some(Deliver(Reader(chunks[0], st.counter + 1, Frames(suite, key, st.counter + 1, chunks[1..])), n))
  {
    hide Frame, OpenFrame, Deliver;
    OpenUndoesFrame(suite, key, st.counter, chunks[0], Frames(suite, key, st.counter + 1, chunks[1..]));
  }

  /** A nonzero read delivers between 1 and n bytes, unless everything written was delivered. */
  lemma ReadKeepsStep(suite: Suite, key: seq<byte>, p: Pipe, n: nat, chunks: seq<seq<byte>>)
    returns (left: seq<seq<byte>>)
    requires suite.Lawful() && InStep(suite, key, p, chunks)
    ensures InStep(suite, key, Step(suite, key, p, Read(n)), left)
    ensures var r := ReadStep(suite, key, p.reader, n);
      && (r.Some? ==> |r.value.1| <= n && (n > 0 ==> r.value.1 != []))
      && (r.None? <==> n > 0 && p.delivered == p.written)
  {
    hide Frames, OpenFrame;
    left := chunks;
    if n == 0 {
      assert p.delivered + [] == p.delivered;
    } else if p.reader.buf != [] {
      DeliverKeeps(p.delivered, p.reader.buf, Concat(chunks), n);
    } else if chunks == [] {
      FramesOfNothing(suite, key, p.reader.counter);
      NoFrame(suite, key, p.reader.counter);
    } else {
      left := chunks[1..];
      ReadNextKeepsStep(suite, key, p, n, chunks);
    }
  }

  lemma ReadNextKeepsStep(suite: Suite, key: seq<byte>, p: Pipe, n: nat, chunks: seq<seq<byte>>)
    requires suite.Lawful() && InStep(suite, key, p, chunks) && n > 0 && p.reader.buf == [] && chunks != []
    ensures InStep(suite, key, Step(suite, key, p, Read(n)), chunks[1..])
    ensures var r := ReadStep(suite, key, p.reader, n);
      r.Some? && |r.value.1| <= n && r.value.1 != []
    ensures p.delivered != p.written
  {
    hide Frames, ReadStep, Concat;
    ReadOpensFrame(suite, key, p.reader, n, chunks);
    ConcatFirst(chunks);
    DeliverKeeps(p.delivered, chunks[0], Concat(chunks[1..]), n);
  }

  lemma NoFrame(suite: Suite, key: seq<byte>, counter: nat)
    ensures OpenFrame(suite, key, counter, []) == None
  {}

  lemma ConcatNothing(chunks: seq<seq<byte>>)
    requires chunks == []
    ensures Concat(chunks) == []
  {}

  lemma ConcatFirst(chunks: seq<seq<byte>>)
    requires chunks != []
    ensures Concat(chunks) == chunks[0] + Concat(chunks[1..])
  {}

  lemma DeliverKeeps(delivered: seq<byte>, buf: seq<byte>, rest: seq<byte>, n: nat)
    ensures var k := if n < |buf| then n else |buf|;
      (delivered + buf[..k]) + (buf[k..] + rest) == delivered + (buf + rest)
  {}

  /** Over every sequence of writes and reads: what was delivered is a prefix of what was written, the
      writer's counter is the number of frames written and the reader's the number opened, and the
      missing bytes are exactly those buffered or on the wire. */
  lemma {:induction false} RunStaysInStep(suite: Suite, key: seq<byte>, events: seq<Event>) returns (chunks: seq<seq<byte>>)
    requires suite.Lawful()
    ensures var p := Run(suite, key, IDLE, events);
      InStep(suite, key, p, chunks) && p.delivered <= p.written
    decreases |events|
  {
    hide Frames, Step, Concat;
    if events == [] {
      chunks := [];
      assert Frames(suite, key, 0, chunks) == [] by { FramesOfNothing(suite, key, 0); }
      ConcatNothing(chunks);
    } else {
      var before := RunStaysInStep(suite, key, events[..|events| - 1]);
      var p := Run(suite, key, IDLE, events[..|events| - 1]);
      match events[|events| - 1]
      case Write(data) =>
        WriteKeepsStep(suite, key, p, data, before);
        chunks := before + Chunks(data);
      case Read(n) =>
        chunks := ReadKeepsStep(suite, key, p, n, before);
    }
  }

  lemma FramesOfNothing(suite: Suite, key: seq<byte>, counter: nat)
    ensures Frames(suite, key, counter, []) == []
  {}

  /** A stream in step still gives exactly the bytes written and not delivered, and then ends. */
  lemma SymbolsInStep(suite: Suite, key: seq<byte>, p: Pipe, chunks: seq<seq<byte>>)
    requires suite.Lawful() && InStep(suite, key, p, chunks)
    ensures p.delivered + Symbols(suite, key, p.reader) == p.written
  {
    hide Frames, Arriving;
    FramesArrive(suite, key, p.reader.counter, chunks);
  }

  lemma {:induction false} FramesArrive(suite: Suite, key: seq<byte>, counter: nat, chunks: seq<seq<byte>>)
    requires suite.Lawful() && ValidChunks(chunks)
    ensures Arriving(suite, key, counter, Frames(suite, key, counter, chunks)) == Concat(chunks)
    decreases |chunks|
  {
    hide OpenFrame, Frame;
    if chunks != [] {
      assert chunks[0] in chunks;
      FramesArrive(suite, key, counter + 1, chunks[1..]);
      OpenUndoesFrame(suite, key, counter, chunks[0], Frames(suite, key, counter + 1, chunks[1..]));
    }
  }

  /** Reading n bytes delivers exactly the next n and stays in step; it fails when fewer are left. */
  ghost predicate ReadsNext(suite: Suite, key: seq<byte>, p: Pipe, n: nat, left: seq<seq<byte>>) {
    var (r, end) := ReadAll(suite, key, p.reader, n);
    var d := |p.delivered|;
    && d <= |p.written|
    && r == (if d + n <= |p.written| then Some(p.written[d..d + n]) else None)
    && (r.Some? ==> InStep(suite, key, p.(reader := end, delivered := p.delivered + r.value), left))
  }

  /** A connection in step is a stream of the written bytes. */
  lemma {:induction false} ReadAllKeepsStep(suite: Suite, key: seq<byte>, p: Pipe, n: nat, chunks: seq<seq<byte>>)
    returns (left: seq<seq<byte>>)
    requires suite.Lawful() && InStep(suite, key, p, chunks)
    ensures ReadsNext(suite, key, p, n, left)
    decreases n
  {
    hide ReadStep, Frames, Concat, ReadsNext;
    if n == 0 {
      left := chunks;
      ReadsNone(suite, key, p, chunks);
    } else {
      left := ReadKeepsStep(suite, key, p, n, chunks);
      var step := ReadStep(suite, key, p.reader, n);
      if step.None? {
        ReadsPastEnd(suite, key, p, n, left);
      } else {
        var p', before := Step(suite, key, p, Read(n)), left;
        left := ReadAllKeepsStep(suite, key, p', n - |step.value.1|, left);
        ReadsOn(suite, key, p, n, before, left);
      }
    }
  }

  lemma ReadsNone(suite: Suite, key: seq<byte>, p: Pipe, left: seq<seq<byte>>)
    requires InStep(suite, key, p, left)
    ensures ReadsNext(suite, key, p, 0, left)
  {
    hide Frames, Concat;
    DeliveredIsPrefix(suite, key, p, left);
    assert p.delivered + [] == p.delivered;
  }

  lemma ReadsPastEnd(suite: Suite, key: seq<byte>, p: Pipe, n: nat, left: seq<seq<byte>>)
    requires n > 0 && p.delivered == p.written && ReadStep(suite, key, p.reader, n).None?
    ensures ReadsNext(suite, key, p, n, left)
  {
    hide ReadStep, InStep;
  }

  lemma ReadsOn(suite: Suite, key: seq<byte>, p: Pipe, n: nat, between: seq<seq<byte>>, left: seq<seq<byte>>)
    requires n > 0 && ReadStep(suite, key, p.reader, n).Some?
    requires var data := ReadStep(suite, key, p.reader, n).value.1;
      && data != [] && |data| <= n
      && InStep(suite, key, Step(suite, key, p, Read(n)), between)
      && ReadsNext(suite, key, Step(suite, key, p, Read(n)), n - |data|, left)
    ensures ReadsNext(suite, key, p, n, left)
  {
    hide ReadStep, InStep;
    var data := ReadStep(suite, key, p.reader, n).value.1;
    var p' := Step(suite, key, p, Read(n));
    DeliveredIsPrefix(suite, key, p', between);
    assert p'.delivered == p.delivered + data && p'.written == p.written;
    NextDelivered(p.delivered, data, p.written, n);
    var (more, end) := ReadAll(suite, key, p'.reader, n - |data|);
    if more.Some? {
      assert (p.delivered + data) + more.value == p.delivered + (data + more.value);
    }
  }

  lemma DeliveredIsPrefix(suite: Suite, key: seq<byte>, p: Pipe, chunks: seq<seq<byte>>)
    requires InStep(suite, key, p, chunks)
    ensures p.delivered <= p.written
  {
    hide Frames, Concat;
  }

  lemma NextDelivered(delivered: seq<byte>, data: seq<byte>, written: seq<byte>, n: nat)
    requires delivered + data <= written && |data| <= n
    ensures |delivered| + n <= |written| ==>
      data + written[|delivered| + |data|..|delivered| + n] == written[|delivered|..|delivered| + n]
  {
    assert data == written[|delivered|..|delivered| + |data|];
  }

  /** When everything written was delivered, nothing is buffered or under way and the counters agree. */
  lemma FullyRead(suite: Suite, key: seq<byte>, p: Pipe, chunks: seq<seq<byte>>)
    requires InStep(suite, key, p, chunks) && p.delivered == p.written
    ensures p.reader.buf == [] && p.reader.wire == [] && p.reader.counter == p.counter
  {
    hide Concat, Frame;
    ChunksHaveBytes(chunks);
  }

  lemma ChunksHaveBytes(chunks: seq<seq<byte>>)
    requires ValidChunks(chunks)
    ensures chunks != [] ==> Concat(chunks) != []
  {
    if chunks != [] {
      assert chunks[0] in chunks;
      assert |Concat(chunks)| >= |chunks[0]|;
    }
  }

  function Written(events: seq<Event>): seq<byte> {
    if events == [] then []
    else
      var front, last := Written(events[..|events| - 1]), events[|events| - 1];
      if last.Write? then front + last.data else front
  }

  function FrameCount(events: seq<Event>): nat {
    if events == [] then 0
    else
      var front, last := FrameCount(events[..|events| - 1]), events[|events| - 1];
      if last.Write? then front + (|last.data| + MAX_CHUNK - 1) / MAX_CHUNK else front
  }

  lemma {:induction false} HistoryIsRight(suite: Suite, key: seq<byte>, events: seq<Event>)
    ensures Run(suite, key, IDLE, events).written == Written(events)
    ensures Run(suite, key, IDLE, events).counter == FrameCount(events)
    decreases |events|
  {
    hide Chunks, Frames, ReadStep;
    if events != [] {
      HistoryIsRight(suite, key, events[..|events| - 1]);
      if events[|events| - 1].Write? {
        ChunksCut(events[|events| - 1].data);
      }
    }
  }

  function AllChunks(events: seq<Event>): (chunks: seq<seq<byte>>) {
    if events == [] then []
    else
      var front, last := AllChunks(events[..|events| - 1]), events[|events| - 1];
      if last.Write? then front + Chunks(last.data) else front
  }

  /** Everything the writer has ever put on the wire. */
  function Sent(suite: Suite, key: seq<byte>, events: seq<Event>): seq<byte> {
    if events == [] then []
    else
      var before, last := events[..|events| - 1], events[|events| - 1];
      if last.Write? then
        Sent(suite, key, before) + Frames(suite, key, Run(suite, key, IDLE, before).counter, Chunks(last.data))
      else Sent(suite, key, before)
  }

  /** Frame i of a run carries nonce i, so under one key no nonce is used twice. */
  lemma {:induction false} SentFramesAreNumbered(suite: Suite, key: seq<byte>, events: seq<Event>)
    ensures Sent(suite, key, events) == Frames(suite, key, 0, AllChunks(events))
    ensures Run(suite, key, IDLE, events).counter == |AllChunks(events)|
    ensures ValidChunks(AllChunks(events))
    decreases |events|
  {
    hide Frames, Chunks, ReadStep;
    if events == [] {
      FramesOfNothing(suite, key, 0);
    } else {
      var before, last := events[..|events| - 1], events[|events| - 1];
      SentFramesAreNumbered(suite, key, before);
      if last.Write? {
        ChunksCut(last.data);
        FramesAppend(suite, key, 0, AllChunks(before), Chunks(last.data));
      }
    }
  }

  // ---------- the three implementations ----------

  class Conn {
    var incoming: seq<byte>
    var outgoing: seq<byte>

    /** None: the stream ends first. */
    method ReadExact(n: nat) returns (r: Option<seq<byte>>)
      modifies this`incoming
      ensures r.Some? <==> |old(incoming)| >= n
      ensures r.Some? ==> r.value == old(incoming)[..n] && incoming == old(incoming)[n..]
      ensures r.None? ==> incoming == []
    {
      if |incoming| < n {
        incoming := [];
        return None;
      }
      r := Some(incoming[..n]);
      incoming := incoming[n..];
    }

    method WriteAll(data: seq<byte>)
      modifies this`outgoing
      ensures outgoing == old(outgoing) + data
    {
      outgoing := outgoing + data;
    }
  }

  lemma FirstChunk(plain: seq<byte>, k: nat)
    requires plain != [] && k == if |plain| < MAX_CHUNK then |plain| else MAX_CHUNK
    ensures Chunks(plain) == [plain[..k]] + Chunks(plain[k..])
  {
    if |plain| <= MAX_CHUNK {
      assert plain[..k] == plain && plain[k..] == [];
    }
  }

  lemma FramesFirst(suite: Suite, key: seq<byte>, counter: nat, plain: seq<byte>, k: nat)
    requires plain != [] && k == if |plain| < MAX_CHUNK then |plain| else MAX_CHUNK
    ensures Frames(suite, key, counter, Chunks(plain))
      == Frame(suite, key, counter, plain[..k]) + Frames(suite, key, counter + 1, Chunks(plain[k..]))
    ensures |Chunks(plain)| == 1 + |Chunks(plain[k..])|
  {
    hide Frame, Chunks;
    FirstChunk(plain, k);
    assert ([plain[..k]] + Chunks(plain[k..]))[1..] == Chunks(plain[k..]);
  }

  /** What is left to send after part of a buffer was sent. */
  ghost predicate SentSoFar(suite: Suite, key: seq<byte>, counter: nat, plain: seq<byte>, sent: seq<byte>, counter': nat, rest: seq<byte>) {
    && Frames(suite, key, counter, Chunks(plain)) == sent + Frames(suite, key, counter', Chunks(rest))
    && counter + |Chunks(plain)| == counter' + |Chunks(rest)|
  }

  lemma SendOne(suite: Suite, key: seq<byte>, counter: nat, plain: seq<byte>, sent: seq<byte>, counter': nat, rest: seq<byte>, k: nat)
    requires SentSoFar(suite, key, counter, plain, sent, counter', rest)
    requires rest != [] && k == if |rest| < MAX_CHUNK then |rest| else MAX_CHUNK
    ensures SentSoFar(suite, key, counter, plain, sent + Frame(suite, key, counter', rest[..k]), counter' + 1, rest[k..])
  {
    hide Frame, Frames, Chunks;
    FramesFirst(suite, key, counter', rest, k);
  }

  lemma SentAll(suite: Suite, key: seq<byte>, counter: nat, plain: seq<byte>, sent: seq<byte>, counter': nat)
    requires SentSoFar(suite, key, counter, plain, sent, counter', [])
    ensures sent == Frames(suite, key, counter, Chunks(plain)) && counter' == counter + |Chunks(plain)|
  {}

  /** The control client.  Its reader takes whole frames. */
  class ClientChannel {
    const suite: Suite
    const conn: Conn
    const encWriteKey: seq<byte>
    const encReadKey: seq<byte>
    var encWriteNonce: nat
    var encReadNonce: nat

    constructor (suite: Suite, conn: Conn, writeKey: seq<byte>, readKey: seq<byte>)
      ensures this.suite == suite && this.conn == conn && encWriteKey == writeKey && encReadKey == readKey
      ensures encWriteNonce == 0 && encReadNonce == 0
    {
      this.suite, this.conn, encWriteKey, encReadKey := suite, conn, writeKey, readKey;
      encWriteNonce, encReadNonce := 0, 0;
    }

    method HapEncrypt(data: seq<byte>) returns (result: seq<byte>)
      modifies this`encWriteNonce
      ensures result == Frames(suite, encWriteKey, old(encWriteNonce), Chunks(data))
      ensures encWriteNonce == old(encWriteNonce) + |Chunks(data)|
    {
      hide Nonce, Frames, Chunks, SentSoFar;
      result := [];
      var rest := data;
      assert SentSoFar(suite, encWriteKey, encWriteNonce, data, [], encWriteNonce, data) by { NothingSent(suite, encWriteKey, encWriteNonce, data); }
      while rest != []
        invariant SentSoFar(suite, encWriteKey, old(encWriteNonce), data, result, encWriteNonce, rest)
        decreases |rest|
      {
        var chunk := if |rest| > 1024 then rest[..1024] else rest;
        assert chunk == rest[..|chunk|];
        SendOne(suite, encWriteKey, old(encWriteNonce), data, result, encWriteNonce, rest, |chunk|);
        rest := rest[|chunk|..];
        var aad := SizeBytes(|chunk|);
        var sealed := suite.seal(encWriteKey, Nonce(encWriteNonce), aad, chunk);
        assert result + aad + sealed == result + (aad + sealed);
        result := result + aad + sealed;
        encWriteNonce := encWriteNonce + 1;
      }
      SentAll(suite, encWriteKey, old(encWriteNonce), data, result, encWriteNonce);
    }

    method ReadEncryptedFrame() returns (plain: Option<seq<byte>>)
      modifies this`encReadNonce, conn`incoming
      ensures match OpenFrame(suite, encReadKey, old(encReadNonce), old(conn.incoming))
        case None => plain.None?
        case Some(v) => plain == Some(v.0) && conn.incoming == v.1 && encReadNonce == old(encReadNonce) + 1
    {
      hide Nonce;
      ghost var wire := conn.incoming;
      var lengthBytes :- conn.ReadExact(2);
      var plaintextLen := SizeOf(lengthBytes);
      if plaintextLen == 0 || plaintextLen > 1024 {
        return None;
      }
      var sealed :- conn.ReadExact(plaintextLen + 16);
      assert sealed == wire[2..2 + plaintextLen + TAG_SIZE];
      var nonce := Nonce(encReadNonce);
      encReadNonce := encReadNonce + 1;
      plain := suite.unseal(encReadKey, nonce, lengthBytes, sealed);
    }
  }

  lemma NothingSent(suite: Suite, key: seq<byte>, counter: nat, plain: seq<byte>)
    ensures SentSoFar(suite, key, counter, plain, [], counter, plain)
  {}

  /** The receiver's end of the control channel. */
  class HapStream {
    const suite: Suite
    const conn: Conn
    const readKey: seq<byte>
    const writeKey: seq<byte>
    var readNonce: nat
    var writeNonce: nat
    var readBuf: seq<byte>

    ghost function State(): Reader
      reads this, conn
    {
      Reader(readBuf, readNonce, conn.incoming)
    }

    constructor (suite: Suite, conn: Conn, readKey: seq<byte>, writeKey: seq<byte>)
      ensures this.suite == suite && this.conn == conn && this.readKey == readKey && this.writeKey == writeKey
      ensures readNonce == 0 && writeNonce == 0 && readBuf == []
    {
      this.suite, this.conn, this.readKey, this.writeKey := suite, conn, readKey, writeKey;
      readNonce, writeNonce, readBuf := 0, 0, [];
    }

    /** Fills the front of dst and says how much. */
    method Read(dst: array<byte>) returns (r: Option<nat>)
      modifies this`readNonce, this`readBuf, conn`incoming, dst
      ensures match ReadStep(suite, readKey, old(State()), dst.Length)
        case None => r.None? && State() == AfterFailure(old(State()))
        case Some(v) =>
          && r == Some(|v.1|) && State() == v.0
          && |v.1| <= dst.Length && dst[..] == v.1 + old(dst[..])[|v.1|..]
    {
      hide OpenFrame, AfterBadFrame;
      if dst.Length == 0 {
        return Some(0);
      }
      if readBuf == [] {
        var plain :- Refill();
        readBuf := plain;
      }
      var n := if dst.Length < |readBuf| then dst.Length else |readBuf|;
      forall i | 0 <= i < n {
        dst[i] := readBuf[i];
      }
      readBuf := readBuf[n..];
      r := Some(n);
    }

    /** Reads until n bytes are there. */
    method ReadExact(n: nat) returns (r: Option<seq<byte>>)
      modifies this`readNonce, this`readBuf, conn`incoming
      ensures (r, State()) == ReadAll(suite, readKey, old(State()), n)
    {
      hide ReadStep, AfterFailure;
      var got: seq<byte> := [];
      ghost var start := State();
      PrependNothing(ReadAll(suite, readKey, State(), n).0);
      while |got| < n
        invariant |got| <= n
        invariant var (more, end) := ReadAll(suite, readKey, State(), n - |got|);
          ReadAll(suite, readKey, start, n) == (Prepend(got, more), end)
        decreases n - |got|
      {
        ghost var before, had := State(), got;
        var part := new byte[n - |got|];
        var k := Read(part);
        if k.None? || k.value == 0 {
          return None;
        }
        assert part[..][..k.value] == part[..k.value];
        got := got + part[..k.value];
        PrependTwice(had, part[..k.value], ReadAll(suite, readKey, State(), n - |got|).0);
      }
      r := Some(got);
      assert got + [] == got;
    }

    /** Opens one frame; the counter moves only when it opens. */
    method Refill() returns (plain: Option<seq<byte>>)
      modifies this`readNonce, conn`incoming
      ensures match OpenFrame(suite, readKey, old(readNonce), old(conn.incoming))
        case None => plain.None? && readNonce == old(readNonce) && conn.incoming == AfterBadFrame(old(conn.incoming))
        case Some(v) => plain == Some(v.0) && conn.incoming == v.1 && readNonce == old(readNonce) + 1
    {
      hide Nonce;
      ghost var wire := conn.incoming;
      var sizeBytes :- conn.ReadExact(2);
      var size := SizeOf(sizeBytes);
      if size < 1 || size > 1024 {
        return None;
      }
      var sealed :- conn.ReadExact(size + 16);
      assert sealed == wire[2..2 + size + TAG_SIZE];
      plain := suite.unseal(readKey, Nonce(readNonce), sizeBytes, sealed);
      if plain.Some? {
        readNonce := readNonce + 1;
      }
    }

    method Write(plain: seq<byte>) returns (total: nat)
      modifies this`writeNonce, conn`outgoing
      ensures total == |plain|
      ensures conn.outgoing == old(conn.outgoing) + Frames(suite, writeKey, old(writeNonce), Chunks(plain))
      ensures writeNonce == old(writeNonce) + |Chunks(plain)|
    {
      hide Nonce, Frames, Chunks, SentSoFar;
      total := |plain|;
      var offset := 0;
      ghost var sent: seq<byte> := [];
      NothingSent(suite, writeKey, writeNonce, plain);
      assert plain[0..] == plain;
      while offset < |plain|
        invariant 0 <= offset <= |plain|
        invariant conn.outgoing == old(conn.outgoing) + sent
        invariant SentSoFar(suite, writeKey, old(writeNonce), plain, sent, writeNonce, plain[offset..])
      {
        var end := if offset + 1024 < |plain| then offset + 1024 else |plain|;
        var chunk := plain[offset..end];
        assert chunk == plain[offset..][..|chunk|];
        SendOne(suite, writeKey, old(writeNonce), plain, sent, writeNonce, plain[offset..], |chunk|);
        var frame := SizeBytes(|chunk|);
        frame := frame + suite.seal(writeKey, Nonce(writeNonce), SizeBytes(|chunk|), chunk);
        conn.WriteAll(frame);
        sent := sent + frame;
        writeNonce := writeNonce + 1;
        assert plain[offset..][|chunk|..] == plain[offset + |chunk|..];
        offset := offset + |chunk|;
      }
      assert plain[offset..] == [];
      SentAll(suite, writeKey, old(writeNonce), plain, sent, writeNonce);
    }
  }

  /** The sender's end of an encrypted event channel. */
  class EventChannel {
    const suite: Suite
    const stream: Conn
    const readKey: seq<byte>
    const writeKey: seq<byte>
    var readNonce: nat
    var writeNonce: nat
    var readBuf: seq<byte>

    ghost function State(): Reader
      reads this, stream
    {
      Reader(readBuf, readNonce, stream.incoming)
    }

    constructor (suite: Suite, stream: Conn, sharedSecret: seq<byte>)
      ensures this.suite == suite && this.stream == stream
      ensures readKey == suite.hkdf(sharedSecret, "Events-Salt", "Events-Write-Encryption-Key")
      ensures writeKey == suite.hkdf(sharedSecret, "Events-Salt", "Events-Read-Encryption-Key")
      ensures readNonce == 0 && writeNonce == 0 && readBuf == []
    {
      this.suite, this.stream := suite, stream;
      readKey := suite.hkdf(sharedSecret, "Events-Salt", "Events-Write-Encryption-Key");
      writeKey := suite.hkdf(sharedSecret, "Events-Salt", "Events-Read-Encryption-Key");
      readNonce, writeNonce, readBuf := 0, 0, [];
    }

    method Read(dst: array<byte>) returns (r: Option<nat>)
      modifies this`readNonce, this`readBuf, stream`incoming, dst
      ensures match ReadStep(suite, readKey, old(State()), dst.Length)
        case None => r.None?
        case Some(v) =>
          && r == Some(|v.1|) && State() == v.0
          && |v.1| <= dst.Length && dst[..] == v.1 + old(dst[..])[|v.1|..]
    {
      hide OpenFrame;
      if dst.Length == 0 {
        return Some(0);
      }
      if readBuf == [] {
        var plain :- Refill();
        readBuf := plain;
      }
      var n := if dst.Length < |readBuf| then dst.Length else |readBuf|;
      forall i | 0 <= i < n {
        dst[i] := readBuf[i];
      }
      readBuf := readBuf[n..];
      r := Some(n);
    }

    /** Opens one frame; the counter moves even when it does not open. */
    method Refill() returns (plain: Option<seq<byte>>)
      modifies this`readNonce, stream`incoming
      ensures match OpenFrame(suite, readKey, old(readNonce), old(stream.incoming))
        case None => plain.None?
        case Some(v) => plain == Some(v.0) && stream.incoming == v.1 && readNonce == old(readNonce) + 1
    {
      hide Nonce;
      ghost var wire := stream.incoming;
      var sizeBytes :- stream.ReadExact(2);
      var size := SizeOf(sizeBytes);
      if !(1 <= size <= 1024) {
        return None;
      }
      var sealed :- stream.ReadExact(size + 16);
      assert sealed == wire[2..2 + size + TAG_SIZE];
      var nonce := Nonce(readNonce);
      readNonce := readNonce + 1;
      plain := suite.unseal(readKey, nonce, sizeBytes, sealed);
    }

    method Write(plain: seq<byte>) returns (written: nat)
      modifies this`writeNonce, stream`outgoing
      ensures written == |plain|
      ensures stream.outgoing == old(stream.outgoing) + Frames(suite, writeKey, old(writeNonce), Chunks(plain))
      ensures writeNonce == old(writeNonce) + |Chunks(plain)|
    {
      hide Nonce, Frames, Chunks, SentSoFar;
      written := 0;
      var rest := plain;
      ghost var sent: seq<byte> := [];
      NothingSent(suite, writeKey, writeNonce, plain);
      while rest != []
        invariant written + |rest| == |plain|
        invariant stream.outgoing == old(stream.outgoing) + sent
        invariant SentSoFar(suite, writeKey, old(writeNonce), plain, sent, writeNonce, rest)
        decreases |rest|
      {
        var chunk := if |rest| > 1024 then rest[..1024] else rest;
        assert chunk == rest[..|chunk|];
        SendOne(suite, writeKey, old(writeNonce), plain, sent, writeNonce, rest, |chunk|);
        var nonce := Nonce(writeNonce);
        writeNonce := writeNonce + 1;
        var frame := SizeBytes(|chunk|);
        frame := frame + suite.seal(writeKey, nonce, SizeBytes(|chunk|), chunk);
        stream.WriteAll(frame);
        sent := sent + frame;
        written := written + |chunk|;
        rest := rest[|chunk|..];
      }
      SentAll(suite, writeKey, old(writeNonce), plain, sent, writeNonce);
    }
  }

  /** An encrypted event channel needs the secret that pair-verify agreed on. */
  method OpenEventChannel(suite: Suite, stream: Conn, sharedSecret: seq<byte>) returns (r: Result<EventChannel>)
    ensures r.Ok? <==> sharedSecret != []
    ensures r.Ok? ==> fresh(r.value) && r.value.suite == suite && r.value.stream == stream
    ensures r.Ok? ==> r.value.State() == Reader([], 0, stream.incoming) && r.value.writeNonce == 0
    ensures r.Ok? ==>
      r.value.readKey == suite.hkdf(sharedSecret, "Events-Salt", "Events-Write-Encryption-Key")
      && r.value.writeKey == suite.hkdf(sharedSecret, "Events-Salt", "Events-Read-Encryption-Key")
  {
    if sharedSecret == [] {
      return Err;
    }
    var channel := new EventChannel(suite, stream, sharedSecret);
    r := Ok(channel);
  }
}
