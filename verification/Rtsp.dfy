/** Requests and responses on the encrypted control channel: each side's printer against the other
    side's parser, over the HAP framing. */
module Rtsp {
  import opened Bytes
  import opened Crypto
  import opened HeaderText
  import H = HapFraming

  type Symbol = H.Symbol

  const HEADER_LIMIT := 32 * 1024
  const BODY_LIMIT := 8 * 1024 * 1024
  const RESPONSE_HEADER_LIMIT := 16384
  const USIZE := 0x1_0000_0000_0000_0000
  const VERSION: Text := Ascii("RTSP/1.0")

  // ---------- what is printed ----------

  datatype Call = Call(verb: Text, uri: Text, contentType: Text, extra: seq<Field>, body: seq<byte>)
  datatype Answer = Answer(status: nat, reason: Text, contentType: Text, extra: seq<Field>, body: seq<byte>)

  function RequestLine(verb: Text, uri: Text): Text {
    verb + ([SPACE] + (uri + ([SPACE] + VERSION)))
  }

  function TypeField(contentType: Text, body: seq<byte>): seq<Field> {
    if contentType != [] && body != [] then [Field(Ascii("Content-Type"), contentType)] else []
  }

  function LengthField(body: seq<byte>): Field {
    Field(Ascii("Content-Length"), Decimal(|body|))
  }

  function RequestFields(cseq: nat, c: Call): seq<Field> {
    [Field(Ascii("CSeq"), Decimal(cseq)), Field(Ascii("User-Agent"), Ascii("AirPlay/935.7.1"))]
    + c.extra + TypeField(c.contentType, c.body) + [LengthField(c.body)]
  }

  function Message(firstLine: Text, fields: seq<Field>): Text {
    firstLine + (CRLF + Block(fields))
  }

  function PrintRequest(cseq: nat, c: Call): seq<byte> {
    Message(RequestLine(c.verb, c.uri), RequestFields(cseq, c)) + c.body
  }

  function StatusLine(a: Answer): Text {
    VERSION + ([SPACE] + (Decimal(a.status) + ([SPACE] + a.reason)))
  }

  /** The request's sequence number comes back, if it had one. */
  function ResponseFields(cseq: Option<Text>, a: Answer): seq<Field> {
    (if cseq.Some? then [Field(Ascii("CSeq"), cseq.value)] else [])
    + [Field(Ascii("Server"), Ascii("lumen-receiver/1"))]
    + a.extra + TypeField(a.contentType, a.body) + [LengthField(a.body)]
  }

  function ResponseHead(cseq: Option<Text>, a: Answer): Text {
    Message(StatusLine(a), ResponseFields(cseq, a))
  }

  // ---------- the receiver's parser ----------

  datatype Request = Request(verb: Text, uri: Text, headers: Headers, body: seq<byte>)

  /** A line up to LF, without its CRs, from a stream; buf is what was read of it.  A failed read also
      ends the line. */
  function TakeLine(buf: Text, s: seq<Symbol>): (r: Result<(Text, seq<Symbol>)>)
    ensures r.Ok? ==> |r.value.1| <= |s| && (s != [] ==> |r.value.1| < |s|) && (s == [] ==> buf != [])
    decreases |s|
  {
    if s == [] || s[0] == H.BROKEN then
      if buf == [] then Err else Ok((TrimReturns(buf), if s == [] then [] else s[1..]))
    else if s[0] == LF then Ok((TrimReturns(buf), s[1..]))
    else if |buf| + 1 > HEADER_LIMIT then Err
    else TakeLine(buf + [s[0]], s[1..])
  }

  function TakeFields(s: seq<Symbol>, headers: Headers, length: nat): (r: Result<(Headers, nat, seq<Symbol>)>)
    ensures r.Ok? ==> |r.value.2| <= |s|
    decreases |s|
  {
    var (line, rest) :- TakeLine([], s);
    if line == [] then Ok((headers, length, rest))
    else
      match ParseField(line)
      case None => TakeFields(rest, headers, length)
      case Some(f) =>
        if f.name == CONTENT_LENGTH then
          match ParseNumber(f.value, USIZE)
          case None => Err
          case Some(n) => TakeFields(rest, headers[f.name := f.value], n)
        else TakeFields(rest, headers[f.name := f.value], length)
  }

  function TakeRequest(s: seq<Symbol>): (r: Result<(Request, seq<Symbol>)>)
    ensures r.Ok? ==> |r.value.1| <= |s|
  {
    var (line, r1) :- TakeLine([], s);
    var words := Words(line);
    if line == [] || |words| != 3 || words[2] != VERSION then Err
    else
      var (headers, length, r2) :- TakeFields(r1, map[], 0);
      var n := if length < BODY_LIMIT then length else BODY_LIMIT;
      match H.TakeExact(r2, n)
      case (None, _) => Err
      case (Some(body), r3) => Ok((Request(words[0], words[1], headers, body), r3))
  }

  // ---------- the client's parser ----------

  datatype Reply = Reply(status: nat, headers: Headers, body: seq<byte>)

  /** Whether the header's end is at i. */
  predicate EndsAt(s: seq<byte>, i: nat) {
    i + 4 <= |s| && s[i] == CR && s[i + 1] == LF && s[i + 2] == CR && s[i + 3] == LF
  }

  function HeaderEnd(s: seq<byte>, from: nat): (r: Option<nat>)
    ensures r.Some? ==> r.value <= |s|
    decreases |s| - from
  {
    if from + 4 > |s| then None else if EndsAt(s, from) then Some(from + 4) else HeaderEnd(s, from + 1)
  }

  /** The pieces between CRLFs. */
  function SplitLines(s: Text): seq<Text>
    decreases |s|
  {
    if s == [] then [[]]
    else if |s| >= 2 && s[0] == CR && s[1] == LF then [[]] + SplitLines(s[2..])
    else
      var tail := SplitLines(s[1..]);
      if tail == [] then [] else [[s[0]] + tail[0]] + tail[1..]
  }

  function ParseStatus(line: Text): nat {
    var http := Ascii("HTTP/1.1 ");
    var rtsp := VERSION + [SPACE];
    var rest := if http <= line then Some(line[|http|..]) else if rtsp <= line then Some(line[|rtsp|..]) else None;
    if rest.None? || Words(rest.value) == [] then 0
    else match ParseNumber(Words(rest.value)[0], 0x1_0000) { case None => 0 case Some(n) => n }
  }

  function FoldLines(lines: seq<Text>, headers: Headers, length: nat): (Headers, nat) {
    if lines == [] then (headers, length)
    else
      match ParseField(lines[0])
      case None => FoldLines(lines[1..], headers, length)
      case Some(f) =>
        if f.name == [] then FoldLines(lines[1..], headers, length)
        else
          var length' := if f.name != CONTENT_LENGTH then length
            else match ParseNumber(f.value, USIZE) { case None => 0 case Some(n) => n };
          FoldLines(lines[1..], headers[f.name := f.value], length')
  }

  function ParseHttpHeader(header: Text): (nat, nat, Headers) {
    var lines := SplitLines(header);
    if lines == [] then (0, 0, map[])
    else
      var (headers, length) := FoldLines(lines[1..], map[], 0);
      (ParseStatus(lines[0]), length, headers)
  }

  datatype Incoming = Incoming(data: seq<byte>, counter: nat, wire: seq<byte>)

  /** Whole frames, until the header is complete. */
  function CollectHead(suite: Suite, key: seq<byte>, c: Incoming): (r: Option<Incoming>)
    ensures r.Some? ==> HeaderEnd(r.value.data, 0).Some?
    decreases |c.wire|
  {
    if HeaderEnd(c.data, 0).Some? then Some(c)
    else
      var (plain, wire) :- H.OpenFrame(suite, key, c.counter, c.wire);
      if |c.data + plain| > RESPONSE_HEADER_LIMIT then None
      else CollectHead(suite, key, Incoming(c.data + plain, c.counter + 1, wire))
  }

  function CollectBody(suite: Suite, key: seq<byte>, c: Incoming, total: nat): (r: Option<Incoming>)
    ensures r.Some? ==> |r.value.data| >= total && |r.value.data| >= |c.data|
    decreases |c.wire|
  {
    if |c.data| >= total then Some(c)
    else
      var (plain, wire) :- H.OpenFrame(suite, key, c.counter, c.wire);
      CollectBody(suite, key, Incoming(c.data + plain, c.counter + 1, wire), total)
  }

  /** One response; whatever the last frame held beyond it is gone. */
  function TakeResponse(suite: Suite, key: seq<byte>, counter: nat, wire: seq<byte>): Option<(Reply, nat, seq<byte>)> {
    var head :- CollectHead(suite, key, Incoming([], counter, wire));
    var end := HeaderEnd(head.data, 0).value;
    var (status, length, headers) := ParseHttpHeader(head.data[..end]);
    if length > BODY_LIMIT then None
    else
      var all :- CollectBody(suite, key, head, end + length);
      Some((Reply(status, headers, all.data[end..end + length]), all.counter, all.wire))
  }

  // ---------- lines are read back ----------

  lemma TrimOneReturn(s: Text)
    requires NoneOf(s, CR)
    ensures TrimReturns(s + [CR]) == s
  {
    assert (s + [CR])[..|s|] == s;
  }

  lemma {:induction false} TakeLineOf(buf: Text, line: Text, rest: seq<Symbol>)
    requires OneLine(line) && NoneOf(buf, CR) && |buf| + |line| + 1 <= HEADER_LIMIT
    ensures TakeLine(buf, line + (CRLF + rest)) == Ok((buf + line, rest))
    decreases |line|
  {
    hide TrimReturns;
    var s := line + (CRLF + rest);
    if line == [] {
      assert s[0] == CR && s[1..] == [LF] + rest && ([LF] + rest)[1..] == rest;
      TrimOneReturn(buf);
      assert TakeLine(buf + [CR], [LF] + rest) == Ok((TrimReturns(buf + [CR]), rest));
      assert buf + line == buf;
    } else {
      assert s[1..] == line[1..] + (CRLF + rest);
      TakeLineOf(buf + [line[0]], line[1..], rest);
      assert buf + [line[0]] + line[1..] == buf + line;
    }
  }

  lemma LineRoundTrip(line: Text, rest: seq<Symbol>)
    requires OneLine(line) && |line| + 1 <= HEADER_LIMIT
    ensures TakeLine([], line + (CRLF + rest)) == Ok((line, rest))
  {
    TakeLineOf([], line, rest);
    assert [] + line == line;
  }

  // ---------- fields are read back ----------

  predicate PrintableField(f: Field) {
    ValidField(f) && |FieldLine(f)| + 1 <= HEADER_LIMIT
  }

  /** Ordinary fields and, last of all, the length. */
  ghost predicate Printable(fields: seq<Field>, body: seq<byte>) {
    && fields != [] && fields[|fields| - 1] == LengthField(body) && |body| < USIZE
    && (forall f | f in fields :: PrintableField(f))
    && forall i | 0 <= i < |fields| - 1 :: !IsLength(fields[i])
  }

  lemma LengthFieldFacts(body: seq<byte>)
    requires |body| < USIZE
    ensures IsLength(LengthField(body))
    ensures ParseNumber(LengthField(body).value, USIZE) == Some(|body|)
  {
    hide ParseNumber, Decimal;
    NumberRoundTrip(|body|, USIZE);
    assert LowerAll(Ascii("Content-Length")) == Ascii("content-length");
  }

  lemma PrintableTail(fields: seq<Field>, body: seq<byte>)
    requires Printable(fields, body) && |fields| > 1
    ensures Printable(fields[1..], body) && !IsLength(fields[0])
  {
    hide PrintableField, IsLength, LengthField;
  }

  /** The receiver collects every printed field and the body's length. */
  lemma {:induction false} FieldsTaken(fields: seq<Field>, body: seq<byte>, rest: seq<Symbol>, headers: Headers, length: nat)
    requires Printable(fields, body)
    ensures TakeFields(Block(fields) + rest, headers, length) == Ok((Collected(fields, headers), |body|, rest))
    decreases |fields|
  {
    hide ParseField, ValidField, LengthField, TakeLine, ParseNumber, IsLength, TakeFields, Block, PrintableField;
    var f, tail := fields[0], Block(fields[1..]);
    var headers' := headers[LowerAll(f.name) := f.value];
    assert PrintableField(f);
    assert IsLength(f) ==> f == LengthField(body) by { LengthLast(fields, body); }
    OneFieldTaken(fields, body, rest, headers, length);
    if |fields| == 1 {
      LengthFieldFacts(body);
      assert fields[1..] == [];
      BlockEnd(rest, headers', |body|);
    } else {
      PrintableTail(fields, body);
      FieldsTaken(fields[1..], body, rest, headers', length);
    }
  }

  lemma LengthLast(fields: seq<Field>, body: seq<byte>)
    requires Printable(fields, body)
    ensures IsLength(fields[0]) ==> fields[0] == LengthField(body)
  {
    hide IsLength, LengthField, PrintableField;
  }

  lemma BlockEnd(rest: seq<Symbol>, headers: Headers, length: nat)
    ensures TakeFields(Block([]) + rest, headers, length) == Ok((headers, length, rest))
  {
    hide TakeLine;
    EmptyLine(rest);
    assert CRLF + rest == [] + (CRLF + rest);
  }

  /** One field line off the stream. */
  lemma OneFieldTaken(fields: seq<Field>, body: seq<byte>, rest: seq<Symbol>, headers: Headers, length: nat)
    requires fields != [] && PrintableField(fields[0]) && |body| < USIZE
    requires IsLength(fields[0]) ==> fields[0] == LengthField(body)
    ensures var f := fields[0];
      TakeFields(Block(fields) + rest, headers, length)
      == TakeFields(Block(fields[1..]) + rest, headers[LowerAll(f.name) := f.value], if IsLength(f) then |body| else length)
  {
    hide FieldLine, ParseField, ValidField, LengthField, TakeLine, ParseNumber, IsLength;
    var f, tail := fields[0], Block(fields[1..]);
    var line := FieldLine(f);
    FieldRoundTrip(f);
    assert Block(fields) + rest == line + (CRLF + (tail + rest));
    LineRoundTrip(line, tail + rest);
    LengthFieldFacts(body);
    OneField(f);
  }

  lemma OneField(f: Field)
    ensures IsLength(f) <==> LowerAll(f.name) == CONTENT_LENGTH
  {}

  lemma EmptyLine(rest: seq<Symbol>)
    ensures TakeLine([], [] + (CRLF + rest)) == Ok(([], rest))
  {
    LineRoundTrip([], rest);
  }

  // ---------- requests are read back ----------

  predicate OrdinaryField(f: Field) {
    PrintableField(f) && !IsLength(f)
  }

  /** A call that the receiver reads whole. */
  ghost predicate GoodCall(c: Call) {
    ReadableCall(c) && |c.body| <= BODY_LIMIT
  }

  ghost predicate AllOrdinary(fields: seq<Field>) {
    forall f | f in fields :: OrdinaryField(f)
  }

  lemma PrintableFields(fields: seq<Field>, body: seq<byte>)
    requires AllOrdinary(fields) && |body| < USIZE && PrintableField(LengthField(body))
    ensures Printable(fields + [LengthField(body)], body)
  {
    hide OrdinaryField, LengthField, PrintableField, IsLength;
    var all := fields + [LengthField(body)];
    forall f | f in all
      ensures PrintableField(f)
    {
      if f in fields {
        OrdinaryIsPrintable(f);
      }
    }
    forall i | 0 <= i < |all| - 1
      ensures !IsLength(all[i])
    {
      assert all[i] in fields;
      OrdinaryIsPrintable(all[i]);
    }
  }

  lemma OrdinaryIsPrintable(f: Field)
    requires OrdinaryField(f)
    ensures PrintableField(f) && !IsLength(f)
  {}

  function Ten(k: nat): nat {
    if k == 0 then 1 else 10 * Ten(k - 1)
  }

  lemma {:induction false} DecimalSize(n: nat, k: nat)
    requires k > 0 && n < Ten(k)
    ensures |Decimal(n)| <= k
    decreases k
  {
    if k > 1 && n >= 10 {
      DecimalSize(n / 10, k - 1);
    }
  }

  lemma EnoughDigits()
    ensures Ten(20) > USIZE
  {
    assert Ten(10) == 100_0000_0000;
    assert Ten(20) == 100_0000_0000 * Ten(10);
  }

  /** A field whose value is a number is never too long, and only the length is called so. */
  lemma NumberField(name: Text, n: nat)
    requires n < USIZE && name != [] && OneLine(name) && NoneOf(name, COLON) && Trimmed(name) && |name| < 100
    ensures PrintableField(Field(name, Decimal(n)))
  {
    hide Decimal, ParseNumber, IsSpace;
    NumberRoundTrip(n, USIZE);
    EnoughDigits();
    DecimalSize(n, 20);
  }

  lemma SequenceField(cseq: nat)
    requires cseq < USIZE
    ensures OrdinaryField(Field(Ascii("CSeq"), Decimal(cseq)))
  {
    hide Decimal;
    NumberField(Ascii("CSeq"), cseq);
    assert |LowerAll(Ascii("CSeq"))| == 4 && |CONTENT_LENGTH| == 14;
  }

  lemma AgentField()
    ensures OrdinaryField(Field(Ascii("User-Agent"), Ascii("AirPlay/935.7.1")))
  {
    assert |LowerAll(Ascii("User-Agent"))| == 10 && |CONTENT_LENGTH| == 14;
  }

  lemma ServerField()
    ensures OrdinaryField(Field(Ascii("Server"), Ascii("lumen-receiver/1")))
  {
    assert |LowerAll(Ascii("Server"))| == 6 && |CONTENT_LENGTH| == 14;
  }

  lemma LengthIsPrintable(body: seq<byte>)
    requires |body| < USIZE
    ensures PrintableField(LengthField(body))
  {
    hide Decimal;
    NumberField(Ascii("Content-Length"), |body|);
  }

  lemma RequestFieldsPrintable(cseq: nat, c: Call)
    requires cseq < USIZE && ReadableCall(c)
    ensures Printable(RequestFields(cseq, c), c.body)
  {
    hide OrdinaryField, PrintableField, Decimal, Ascii, LengthField;
    SequenceField(cseq);
    AgentField();
    LengthIsPrintable(c.body);
    var front := [Field(Ascii("CSeq"), Decimal(cseq)), Field(Ascii("User-Agent"), Ascii("AirPlay/935.7.1"))]
      + c.extra + TypeField(c.contentType, c.body);
    PrintableFields(front, c.body);
  }

  function Parsed(cseq: nat, c: Call): Request {
    Request(c.verb, c.uri, Collected(RequestFields(cseq, c), map[]), c.body)
  }

  /** A call that the receiver can read, whatever the size of its body. */
  ghost predicate ReadableCall(c: Call) {
    && IsWord(c.verb) && IsWord(c.uri) && |RequestLine(c.verb, c.uri)| + 1 <= HEADER_LIMIT
    && (forall f | f in c.extra :: OrdinaryField(f))
    && (c.contentType != [] ==> OrdinaryField(Field(Ascii("Content-Type"), c.contentType)))
    && |c.body| < USIZE
  }

  /** The receiver reads at most 8 MiB of a body; what is beyond them is left on the stream. */
  lemma RequestTaken(cseq: nat, c: Call, rest: seq<Symbol>)
    requires cseq < USIZE && ReadableCall(c)
    ensures var n := if |c.body| < 8 * 1024 * 1024 then |c.body| else 8 * 1024 * 1024;
      TakeRequest(PrintRequest(cseq, c) + rest)
      == Ok((Parsed(cseq, c).(body := c.body[..n]), c.body[n..] + rest))
  {
    hide Block, TakeLine, TakeFields, Words, IsWord, RequestFields, Collected, Ascii, H.TakeExact;
    var line, fields := RequestLine(c.verb, c.uri), RequestFields(cseq, c);
    var s := PrintRequest(cseq, c) + rest;
    assert s == line + (CRLF + (Block(fields) + (c.body + rest)));
    RequestLineFacts(c);
    LineRoundTrip(line, Block(fields) + (c.body + rest));
    RequestFieldsPrintable(cseq, c);
    FieldsTaken(fields, c.body, c.body + rest, map[], 0);
    var n := if |c.body| < BODY_LIMIT then |c.body| else BODY_LIMIT;
    assert c.body + rest == c.body[..n] + (c.body[n..] + rest);
    H.TakeExactBytes(c.body[..n], c.body[n..] + rest);
  }

  /** The receiver parses back exactly the request that was printed, and leaves what follows it, exactly
      when the body has at most 8 MiB. */
  lemma RequestRoundTrip(cseq: nat, c: Call, rest: seq<Symbol>)
    requires cseq < USIZE && ReadableCall(c)
    ensures TakeRequest(PrintRequest(cseq, c) + rest) == Ok((Parsed(cseq, c), rest)) <==> |c.body| <= 8 * 1024 * 1024
  {
    hide TakeRequest, PrintRequest;
    RequestTaken(cseq, c, rest);
    if |c.body| <= BODY_LIMIT {
      assert c.body[..|c.body|] == c.body && c.body[|c.body|..] + rest == rest;
    }
  }

  /** A line is read exactly when it and its return have at most 32 KiB. */
  lemma LineTakenExactly(line: Text, rest: seq<Symbol>)
    requires OneLine(line)
    ensures TakeLine([], line + (CRLF + rest)) == if |line| + 1 <= 32 * 1024 then Ok((line, rest)) else Err
  {
    if |line| + 1 <= HEADER_LIMIT {
      LineRoundTrip(line, rest);
    } else {
      LongLineRefused([], line + [CR], [LF] + rest);
      assert line + (CRLF + rest) == (line + [CR]) + ([LF] + rest);
    }
  }

  lemma {:induction false} LongLineRefused(buf: Text, line: Text, rest: seq<Symbol>)
    requires NoneOf(line, LF) && |buf| <= HEADER_LIMIT < |buf| + |line|
    ensures TakeLine(buf, line + rest) == Err
    decreases |line|
  {
    var s := line + rest;
    assert s[0] == line[0] && s[1..] == line[1..] + rest;
    if |buf| < HEADER_LIMIT {
      LongLineRefused(buf + [line[0]], line[1..], rest);
    }
  }

  lemma RequestLineFacts(c: Call)
    requires ReadableCall(c)
    ensures var line := RequestLine(c.verb, c.uri);
      line != [] && OneLine(line) && Words(line) == [c.verb, c.uri, VERSION]
  {
    hide Words;
    ThreeWords(c.verb, c.uri, VERSION);
  }

  // ---------- responses are read back ----------

  ghost predicate GoodAnswer(cseq: Option<Text>, a: Answer) {
    && a.status < 0x1_0000 && OneLine(a.reason)
    && (forall f | f in a.extra :: OrdinaryField(f))
    && (cseq.Some? ==> OrdinaryField(Field(Ascii("CSeq"), cseq.value)))
    && (a.contentType != [] ==> OrdinaryField(Field(Ascii("Content-Type"), a.contentType)))
    && |a.body| <= BODY_LIMIT
    && |ResponseHead(cseq, a)| <= RESPONSE_HEADER_LIMIT
  }

  lemma ResponseFieldsPrintable(cseq: Option<Text>, a: Answer)
    requires GoodAnswer(cseq, a)
    ensures Printable(ResponseFields(cseq, a), a.body)
  {
    hide OrdinaryField, PrintableField, Decimal, Ascii, LengthField, ResponseHead;
    ServerField();
    LengthIsPrintable(a.body);
    var front := (if cseq.Some? then [Field(Ascii("CSeq"), cseq.value)] else [])
      + [Field(Ascii("Server"), Ascii("lumen-receiver/1"))] + a.extra + TypeField(a.contentType, a.body);
    PrintableFields(front, a.body);
  }

  ghost predicate Lines(lines: seq<Text>) {
    forall l | l in lines :: l != [] && OneLine(l)
  }

  function FieldLines(fields: seq<Field>): seq<Text> {
    if fields == [] then [] else [FieldLine(fields[0])] + FieldLines(fields[1..])
  }

  /** Lines, each ended by CRLF, and the empty line. */
  function Ended(lines: seq<Text>): Text {
    if lines == [] then CRLF else lines[0] + (CRLF + Ended(lines[1..]))
  }

  lemma {:induction false} BlockIsEnded(fields: seq<Field>)
    requires forall f | f in fields :: ValidField(f)
    ensures Block(fields) == Ended(FieldLines(fields)) && Lines(FieldLines(fields))
    decreases |fields|
  {
    hide FieldLine, ValidField;
    if fields != [] {
      assert ValidField(fields[0]);
      FieldRoundTrip(fields[0]);
      BlockIsEnded(fields[1..]);
      assert FieldLines(fields)[1..] == FieldLines(fields[1..]);
    }
  }

  lemma {:induction false} SplitOneLine(line: Text, rest: Text)
    requires OneLine(line)
    ensures SplitLines(line + (CRLF + rest)) == [line] + SplitLines(rest)
    decreases |line|
  {
    var s := line + (CRLF + rest);
    if line == [] {
      assert s == CRLF + rest && s[2..] == rest;
    } else {
      assert s[1..] == line[1..] + (CRLF + rest);
      SplitOneLine(line[1..], rest);
      assert [line[0]] + line[1..] == line;
      assert ([line[1..]] + SplitLines(rest))[1..] == SplitLines(rest);
    }
  }

  lemma {:induction false} SplitEnded(lines: seq<Text>)
    requires Lines(lines)
    ensures SplitLines(Ended(lines)) == lines + [[], []]
    decreases |lines|
  {
    hide SplitLines;
    if lines == [] {
      SplitOneLine([], []);
      assert [] + (CRLF + []) == CRLF;
      assert SplitLines([]) == [[]] by { SplitNothing(); }
    } else {
      assert lines[0] in lines;
      SplitOneLine(lines[0], Ended(lines[1..]));
      SplitEnded(lines[1..]);
    }
  }

  lemma SplitNothing()
    ensures SplitLines([]) == [[]]
  {}

  lemma {:induction false} FieldsFolded(fields: seq<Field>, body: seq<byte>, headers: Headers, length: nat)
    requires Printable(fields, body)
    ensures FoldLines(FieldLines(fields) + [[], []], headers, length) == (Collected(fields, headers), |body|)
    decreases |fields|
  {
    hide FieldLine, ParseField, ValidField, LengthField, ParseNumber, IsLength;
    var f := fields[0];
    assert PrintableField(f);
    FieldRoundTrip(f);
    OneField(f);
    NamesStay(f);
    var lines := FieldLines(fields) + [[], []];
    var headers' := headers[LowerAll(f.name) := f.value];
    assert lines[1..] == FieldLines(fields[1..]) + [[], []];
    if |fields| == 1 {
      LengthFieldFacts(body);
      assert fields[1..] == [];
      assert lines[1..] == [[], []];
      EmptyLinesSkipped(lines[1..], headers', |body|);
    } else {
      PrintableTail(fields, body);
      FieldsFolded(fields[1..], body, headers', length);
    }
  }

  lemma NamesStay(f: Field)
    requires ValidField(f)
    ensures Lowered(f).name != []
  {}

  lemma {:induction false} EmptyLinesSkipped(lines: seq<Text>, headers: Headers, length: nat)
    requires forall i | 0 <= i < |lines| :: |lines[i]| == 0
    ensures FoldLines(lines, headers, length) == (headers, length)
    decreases |lines|
  {
    if lines != [] {
      EmptyLinesSkipped(lines[1..], headers, length);
    }
  }

  lemma StatusRoundTrip(a: Answer)
    requires a.status < 0x1_0000 && OneLine(a.reason)
    ensures ParseStatus(StatusLine(a)) == a.status
    ensures StatusLine(a) != [] && OneLine(StatusLine(a))
  {
    hide Words, ParseNumber, Decimal;
    var rtsp, digits := VERSION + [SPACE], Decimal(a.status);
    var rest := digits + ([SPACE] + a.reason);
    assert StatusLine(a) == rtsp + rest;
    assert StatusLine(a)[|rtsp|..] == rest;
    assert !(Ascii("HTTP/1.1 ") <= StatusLine(a)) by {
      assert StatusLine(a)[0] == 82 && Ascii("HTTP/1.1 ")[0] == 72;
    }
    NumberRoundTrip(a.status, 0x1_0000);
    FirstWord(digits, [SPACE] + a.reason);
  }

  /** The client parses back the status, every field and the body's length. */
  lemma HeadRoundTrip(cseq: Option<Text>, a: Answer)
    requires GoodAnswer(cseq, a)
    ensures ParseHttpHeader(ResponseHead(cseq, a)) == (a.status, |a.body|, Collected(ResponseFields(cseq, a), map[]))
  {
    hide Block, Ended, SplitLines, FoldLines, ParseStatus, ResponseFields, Collected, StatusLine, FieldLines;
    var fields := ResponseFields(cseq, a);
    ResponseFieldsPrintable(cseq, a);
    FieldsAreValid(fields, a.body);
    BlockIsEnded(fields);
    StatusRoundTrip(a);
    SplitOneLine(StatusLine(a), Block(fields));
    SplitEnded(FieldLines(fields));
    FieldsFolded(fields, a.body, map[], 0);
    assert ([StatusLine(a)] + (FieldLines(fields) + [[], []]))[1..] == FieldLines(fields) + [[], []];
  }

  lemma FieldsAreValid(fields: seq<Field>, body: seq<byte>)
    requires Printable(fields, body)
    ensures forall f | f in fields :: ValidField(f)
  {
    hide ValidField, LengthField, IsLength;
    forall f | f in fields
      ensures ValidField(f)
    {
      assert PrintableField(f);
    }
  }

  // ---------- where the header ends ----------

  lemma {:induction false} EndedSize(lines: seq<Text>)
    requires Lines(lines) && lines != []
    ensures |Ended(lines)| >= 4
    decreases |lines|
  {
    assert lines[0] in lines;
    if lines[1..] != [] {
      EndedSize(lines[1..]);
    }
  }

  /** In lines that are not empty, two line ends meet only at the very end. */
  lemma {:induction false} EndOfLines(lines: seq<Text>, rest: seq<byte>, i: nat)
    requires Lines(lines) && lines != []
    ensures |Ended(lines)| >= 4
    ensures i + 4 <= |Ended(lines)| ==> (EndsAt(Ended(lines) + rest, i) <==> i + 4 == |Ended(lines)|)
    decreases |lines|
  {
    hide OneLine, EndsAt, Ended;
    EndedSize(lines);
    var line, tail := lines[0], Ended(lines[1..]);
    assert line in lines;
    EndedCons(lines);
    var m := |line| + 2;
    assert Ended(lines) + rest == line + (CRLF + (tail + rest)) == (line + CRLF) + (tail + rest);
    if lines[1..] != [] {
      EndedSize(lines[1..]);
      if i < m {
        BeforeLineEnd(line, tail + rest, i);
        TailStartsLine(lines[1..], rest);
      } else {
        EndOfLines(lines[1..], rest, i - m);
        EndsShift(line + CRLF, tail + rest, i - m);
      }
    } else {
      EndedNothing(lines[1..]);
      if i + 4 <= |Ended(lines)| {
        BeforeLineEnd(line, tail + rest, i);
        EndsOfLast(line, rest);
      }
    }
  }

  lemma EndedCons(lines: seq<Text>)
    requires lines != []
    ensures Ended(lines) == lines[0] + (CRLF + Ended(lines[1..]))
  {}

  lemma EndedNothing(lines: seq<Text>)
    requires lines == []
    ensures Ended(lines) == CRLF
  {}

  lemma EndsShift(prefix: seq<byte>, s: seq<byte>, i: nat)
    ensures EndsAt(prefix + s, |prefix| + i) == EndsAt(s, i)
  {}

  lemma EndsOfLast(line: Text, rest: seq<byte>)
    ensures EndsAt(line + (CRLF + (CRLF + rest)), |line|)
  {}

  lemma TailStartsLine(lines: seq<Text>, rest: seq<byte>)
    requires Lines(lines) && lines != []
    ensures (Ended(lines) + rest)[0] != CR
  {
    assert lines[0] in lines;
    assert (Ended(lines) + rest)[0] == lines[0][0];
  }

  lemma BeforeLineEnd(line: Text, rest: seq<byte>, i: nat)
    requires OneLine(line) && i < |line| + 2
    ensures EndsAt(line + (CRLF + rest), i) ==> i == |line| && rest != [] && rest[0] == CR
  {
    var s := line + (CRLF + rest);
    if i < |line| {
      assert s[i] == line[i];
    }
  }

  lemma {:induction false} EndFound(s: seq<byte>, from: nat, at: nat)
    requires from <= at && EndsAt(s, at) && forall i: nat | from <= i < at :: !EndsAt(s, i)
    ensures HeaderEnd(s, from) == Some(at + 4)
    decreases at - from
  {
    if from < at {
      EndFound(s, from + 1, at);
    }
  }

  lemma {:induction false} EndNotFound(s: seq<byte>, from: nat)
    requires forall i: nat | from <= i :: !EndsAt(s, i)
    ensures HeaderEnd(s, from) == None
    decreases |s| - from
  {
    if from + 4 <= |s| {
      EndNotFound(s, from + 1);
    }
  }

  /** The end is seen exactly when the whole header is there. */
  lemma HeadEnds(cseq: Option<Text>, a: Answer, k: nat)
    requires GoodAnswer(cseq, a) && k <= |ResponseHead(cseq, a)|
    ensures var head := ResponseHead(cseq, a);
      HeaderEnd(head[..k], 0) == if k == |head| then Some(k) else None
  {
    hide Block, Ended, ResponseFields, StatusLine, EndsAt, FieldLines;
    var fields := ResponseFields(cseq, a);
    var lines := [StatusLine(a)] + FieldLines(fields);
    ResponseFieldsPrintable(cseq, a);
    FieldsAreValid(fields, a.body);
    BlockIsEnded(fields);
    StatusRoundTrip(a);
    var head := ResponseHead(cseq, a);
    assert head == Ended(lines) by { EndedFirst(StatusLine(a), FieldLines(fields)); }
    assert head + [] == head;
    var whole := |head|;
    EndedSize(lines);
    forall i: nat
      ensures EndsAt(head[..k], i) <==> i + 4 == k == whole
    {
      EndOfLines(lines, [], i);
      EndsInPrefix(head, k, i);
    }
    if k == whole {
      EndFound(head[..k], 0, whole - 4);
    } else {
      EndNotFound(head[..k], 0);
    }
  }

  lemma EndedFirst(line: Text, lines: seq<Text>)
    ensures Ended([line] + lines) == line + (CRLF + Ended(lines))
  {
    assert ([line] + lines)[1..] == lines;
  }

  lemma EndsInPrefix(s: seq<byte>, k: nat, i: nat)
    requires k <= |s|
    ensures EndsAt(s[..k], i) <==> i + 4 <= k && EndsAt(s, i)
  {}

  // ---------- through the frames ----------

  /** Frames of the header are collected up to its end and no further. */
  lemma {:induction false} HeadCollected(suite: Suite, key: seq<byte>, c: Incoming, head: seq<byte>, chunks: seq<seq<byte>>, more: seq<seq<byte>>)
    requires suite.Lawful() && H.ValidChunks(chunks) && |head| <= RESPONSE_HEADER_LIMIT
    requires c.data + Concat(chunks) == head
    requires forall k | 0 <= k <= |head| :: HeaderEnd(head[..k], 0).Some? <==> k == |head|
    requires c.wire == H.Frames(suite, key, c.counter, chunks + more)
    ensures CollectHead(suite, key, c)
      == Some(Incoming(head, c.counter + |chunks|, H.Frames(suite, key, c.counter + |chunks|, more)))
    decreases |chunks|
  {
    hide HeaderEnd, H.OpenFrame, H.Frame;
    assert c.data == head[..|c.data|];
    if chunks == [] {
      assert chunks + more == more && c.data == head;
    } else {
      var chunk, rest := chunks[0], chunks[1..];
      assert chunk in chunks;
      assert (chunks + more)[0] == chunk && (chunks + more)[1..] == rest + more;
      H.OpenUndoesFrame(suite, key, c.counter, chunk, H.Frames(suite, key, c.counter + 1, rest + more));
      assert c.data + chunk == head[..|c.data| + |chunk|];
      HeadCollected(suite, key, Incoming(c.data + chunk, c.counter + 1, H.Frames(suite, key, c.counter + 1, rest + more)), head, rest, more);
    }
  }

  lemma {:induction false} BodyCollected(suite: Suite, key: seq<byte>, c: Incoming, all: seq<byte>, chunks: seq<seq<byte>>, more: seq<seq<byte>>)
    requires suite.Lawful() && H.ValidChunks(chunks)
    requires c.data + Concat(chunks) == all
    requires c.wire == H.Frames(suite, key, c.counter, chunks + more)
    ensures CollectBody(suite, key, c, |all|)
      == Some(Incoming(all, c.counter + |chunks|, H.Frames(suite, key, c.counter + |chunks|, more)))
    decreases |chunks|
  {
    hide H.OpenFrame, H.Frame;
    if chunks == [] {
      assert chunks + more == more && c.data == all;
    } else {
      var chunk, rest := chunks[0], chunks[1..];
      assert chunk in chunks;
      assert (chunks + more)[0] == chunk && (chunks + more)[1..] == rest + more;
      assert |c.data| < |all| by { assert |all| == |c.data| + |chunk| + |Concat(rest)|; }
      H.OpenUndoesFrame(suite, key, c.counter, chunk, H.Frames(suite, key, c.counter + 1, rest + more));
      assert c.data + chunk + Concat(rest) == all;
      BodyCollected(suite, key, Incoming(c.data + chunk, c.counter + 1, H.Frames(suite, key, c.counter + 1, rest + more)), all, rest, more);
    }
  }

  function ResponseChunks(cseq: Option<Text>, a: Answer): seq<seq<byte>> {
    H.Chunks(ResponseHead(cseq, a)) + H.Chunks(a.body)
  }

  function ParsedReply(cseq: Option<Text>, a: Answer): Reply {
    Reply(a.status, Collected(ResponseFields(cseq, a), map[]), a.body)
  }

  /** The client parses back exactly the response that was written, in two writes, and stops on a frame
      boundary: nothing is dropped and nothing is left over. */
  lemma ResponseRoundTrip(suite: Suite, key: seq<byte>, counter: nat, cseq: Option<Text>, a: Answer, more: seq<seq<byte>>)
    requires suite.Lawful() && GoodAnswer(cseq, a)
    ensures var chunks := ResponseChunks(cseq, a);
      TakeResponse(suite, key, counter, H.Frames(suite, key, counter, chunks + more))
      == Some((ParsedReply(cseq, a), counter + |chunks|, H.Frames(suite, key, counter + |chunks|, more)))
  {
    hide H.Frames, H.Chunks, ResponseHead, HeaderEnd, CollectHead, CollectBody, ParseHttpHeader, ResponseFields, GoodAnswer;
    var head, headChunks, bodyChunks := ResponseHead(cseq, a), H.Chunks(ResponseHead(cseq, a)), H.Chunks(a.body);
    assert headChunks + bodyChunks + more == headChunks + (bodyChunks + more);
    HeadIsCollected(suite, key, counter, cseq, a, bodyChunks + more);
    var c := Incoming(head, counter + |headChunks|, H.Frames(suite, key, counter + |headChunks|, bodyChunks + more));
    HeadRoundTrip(cseq, a);
    BodyIsCollected(suite, key, c, a.body, more);
    assert |a.body| <= BODY_LIMIT by { BodyFits(cseq, a); }
    assert head[..|head|] == head && (head + a.body)[|head|..|head| + |a.body|] == a.body;
  }

  lemma BodyFits(cseq: Option<Text>, a: Answer)
    requires GoodAnswer(cseq, a)
    ensures |a.body| <= BODY_LIMIT && |ResponseHead(cseq, a)| <= RESPONSE_HEADER_LIMIT
  {}

  lemma HeadIsCollected(suite: Suite, key: seq<byte>, counter: nat, cseq: Option<Text>, a: Answer, more: seq<seq<byte>>)
    requires suite.Lawful() && GoodAnswer(cseq, a)
    ensures var head := ResponseHead(cseq, a);
      var n := |H.Chunks(head)|;
      && HeaderEnd(head, 0) == Some(|head|)
      && CollectHead(suite, key, Incoming([], counter, H.Frames(suite, key, counter, H.Chunks(head) + more)))
        == Some(Incoming(head, counter + n, H.Frames(suite, key, counter + n, more)))
  {
    hide H.Frames, H.Chunks, ResponseHead, HeaderEnd, CollectHead, GoodAnswer, Concat;
    var head := ResponseHead(cseq, a);
    BodyFits(cseq, a);
    H.ChunksCut(head);
    forall k | 0 <= k <= |head|
      ensures HeaderEnd(head[..k], 0).Some? <==> k == |head|
    {
      HeadEnds(cseq, a, k);
    }
    HeadEnds(cseq, a, |head|);
    assert head[..|head|] == head && [] + head == head;
    HeadCollected(suite, key, Incoming([], counter, H.Frames(suite, key, counter, H.Chunks(head) + more)), head, H.Chunks(head), more);
  }

  lemma BodyIsCollected(suite: Suite, key: seq<byte>, c: Incoming, body: seq<byte>, more: seq<seq<byte>>)
    requires suite.Lawful() && c.wire == H.Frames(suite, key, c.counter, H.Chunks(body) + more)
    ensures var n := |H.Chunks(body)|;
      CollectBody(suite, key, c, |c.data| + |body|)
        == Some(Incoming(c.data + body, c.counter + n, H.Frames(suite, key, c.counter + n, more)))
  {
    hide H.Frames, H.Chunks, CollectBody, Concat;
    H.ChunksCut(body);
    BodyCollected(suite, key, c, c.data + body, H.Chunks(body), more);
  }

  // ---------- whole runs ----------

  /** The keys of the two directions. */
  datatype Keys = Keys(up: seq<byte>, down: seq<byte>)

  /** The channel between two exchanges: the client's sequence number; the requests' direction, with the
      client's frame counter and the receiver's reader; and of the responses' direction the receiver's
      and the client's frame counters and what is between them. */
  datatype Channel = Channel(cseq: nat, up: H.Pipe, sent: nat, received: nat, toClient: seq<byte>)

  /** Every written byte was delivered; in both directions nothing is buffered or under way and the two
      counters agree. */
  ghost predicate InSync(ch: Channel) {
    && ch.up.delivered == ch.up.written && ch.up.reader == H.Reader([], ch.up.counter, [])
    && ch.toClient == [] && ch.sent == ch.received
  }

  datatype Exchange = Exchange(call: Call, answer: Answer)

  function EchoOf(r: Request): Option<Text> {
    if Ascii("cseq") in r.headers then Some(r.headers[Ascii("cseq")]) else None
  }

  /** The client writes a request in frames; the receiver parses one off its reader and takes from it
      just the bytes that were parsed.  None: no request, or a read failed. */
  function RequestSent(suite: Suite, key: seq<byte>, up: H.Pipe, cseq: nat, c: Call): Option<(H.Pipe, Request)> {
    var p := H.Step(suite, key, up, H.Write(PrintRequest(cseq, c)));
    var s := H.Symbols(suite, key, p.reader);
    match TakeRequest(s)
    case Err => None
    case Ok((request, unread)) =>
      var (taken, end) := H.ReadAll(suite, key, p.reader, |s| - |unread|);
      if taken.None? then None
      else Some((p.(reader := end, delivered := p.delivered + taken.value), request))
  }

  /** One exchange through the real parsers and both directions' frames; the response is written as
      header and body and collected frame by frame. */
  function Exchanged(suite: Suite, keys: Keys, ch: Channel, x: Exchange): Option<(Channel, Request, Reply)> {
    var (up, request) :- RequestSent(suite, keys.up, ch.up, ch.cseq + 1, x.call);
    var chunks := ResponseChunks(EchoOf(request), x.answer);
    var wire := ch.toClient + H.Frames(suite, keys.down, ch.sent, chunks);
    var (reply, received, left) :- TakeResponse(suite, keys.down, ch.received, wire);
    Some((Channel(ch.cseq + 1, up, ch.sent + |chunks|, received, left), request, reply))
  }

  ghost predicate GoodExchange(cseq: nat, x: Exchange) {
    && cseq < USIZE && GoodCall(x.call)
    && GoodAnswer(EchoOf(Parsed(cseq, x.call)), x.answer)
  }

  /** The receiver parses the request through the frames and its reader ends on their boundary. */
  lemma RequestArrives(suite: Suite, key: seq<byte>, up: H.Pipe, cseq: nat, c: Call)
    requires suite.Lawful() && cseq < USIZE && GoodCall(c)
    requires up.delivered == up.written && up.reader == H.Reader([], up.counter, [])
    ensures var r := RequestSent(suite, key, up, cseq, c);
      && r.Some? && r.value.1 == Parsed(cseq, c)
      && var up' := r.value.0;
         && up'.written == up.written + PrintRequest(cseq, c)
         && up'.delivered == up'.written && up'.reader == H.Reader([], up'.counter, [])
  {
    hide H.Frames, H.Arriving, H.Symbols, H.ReadAll, H.Chunks, H.InStep, Concat, TakeRequest, PrintRequest, Parsed, ReadableCall;
    var data := PrintRequest(cseq, c);
    var p := H.Step(suite, key, up, H.Write(data));
    IdleIsInStep(suite, key, up);
    H.WriteKeepsStep(suite, key, up, data, []);
    H.SymbolsInStep(suite, key, p, [] + H.Chunks(data));
    SamePrefix(up.written, H.Symbols(suite, key, p.reader), data);
    RequestRoundTrip(cseq, c, []);
    assert data + [] == data;
    var left := H.ReadAllKeepsStep(suite, key, p, |data|, [] + H.Chunks(data));
    assert p.written[|p.delivered|..|p.delivered| + |data|] == data;
    var (_, end) := H.ReadAll(suite, key, p.reader, |data|);
    H.FullyRead(suite, key, p.(reader := end, delivered := p.delivered + data), left);
  }

  lemma IdleIsInStep(suite: Suite, key: seq<byte>, p: H.Pipe)
    requires p.delivered == p.written && p.reader == H.Reader([], p.counter, [])
    ensures H.InStep(suite, key, p, [])
  {}

  lemma SamePrefix(a: seq<byte>, s: seq<Symbol>, t: seq<byte>)
    requires a + s == a + t
    ensures s == t
  {
    assert (a + s)[|a|..] == s && (a + t)[|a|..] == t;
  }

  /** What an exchange of printable messages leaves. */
  ghost predicate ExchangeKeepsSync(suite: Suite, keys: Keys, ch: Channel, x: Exchange) {
    var r := Exchanged(suite, keys, ch, x);
    && r.Some?
    && InSync(r.value.0) && r.value.0.cseq == ch.cseq + 1
    && r.value.0.up.written == ch.up.written + PrintRequest(ch.cseq + 1, x.call)
    && r.value.1 == Parsed(ch.cseq + 1, x.call)
    && r.value.2 == ParsedReply(EchoOf(Parsed(ch.cseq + 1, x.call)), x.answer)
  }

  lemma ExchangeStaysInSync(suite: Suite, keys: Keys, ch: Channel, x: Exchange)
    requires suite.Lawful() && InSync(ch) && GoodExchange(ch.cseq + 1, x)
    ensures ExchangeKeepsSync(suite, keys, ch, x)
  {
    hide RequestSent, TakeResponse, PrintRequest, ResponseChunks, H.Frames, GoodCall, GoodAnswer, Parsed, ParsedReply, EchoOf;
    RequestArrives(suite, keys.up, ch.up, ch.cseq + 1, x.call);
    var echo := EchoOf(Parsed(ch.cseq + 1, x.call));
    ResponseRoundTrip(suite, keys.down, ch.received, echo, x.answer, []);
    var chunks := ResponseChunks(echo, x.answer);
    assert chunks + [] == chunks;
    var frames := H.Frames(suite, keys.down, ch.sent, chunks);
    assert [] + frames == frames;
    H.FramesOfNothing(suite, keys.down, ch.received + |chunks|);
  }

  function RunOf(suite: Suite, keys: Keys, ch: Channel, xs: seq<Exchange>): Option<(Channel, seq<(Request, Reply)>)>
    decreases |xs|
  {
    if xs == [] then Some((ch, []))
    else
      var (ch', request, reply) :- Exchanged(suite, keys, ch, xs[0]);
      var (end, more) :- RunOf(suite, keys, ch', xs[1..]);
      Some((end, [(request, reply)] + more))
  }

  /** The bytes of all the requests of a run. */
  function Requests(cseq: nat, xs: seq<Exchange>): seq<byte>
    decreases |xs|
  {
    if xs == [] then [] else PrintRequest(cseq + 1, xs[0].call) + Requests(cseq + 1, xs[1..])
  }

  /** Over every run of requests and responses through the frames of both directions, each side parses
      back exactly what the other printed; the receiver has then been delivered exactly the bytes of the
      requests, and both directions stay on a frame boundary with nothing left over. */
  lemma {:induction false} RunStaysInSync(suite: Suite, keys: Keys, ch: Channel, xs: seq<Exchange>)
    requires suite.Lawful() && InSync(ch)
    requires forall i | 0 <= i < |xs| :: GoodExchange(ch.cseq + 1 + i, xs[i])
    ensures var r := RunOf(suite, keys, ch, xs);
      && r.Some? && InSync(r.value.0) && |r.value.1| == |xs|
      && r.value.0.up.delivered == ch.up.delivered + Requests(ch.cseq, xs)
      && forall i | 0 <= i < |xs| ::
        r.value.1[i].0 == Parsed(ch.cseq + 1 + i, xs[i].call)
        && r.value.1[i].1 == ParsedReply(EchoOf(Parsed(ch.cseq + 1 + i, xs[i].call)), xs[i].answer)
    decreases |xs|
  {
    hide Exchanged, GoodExchange, Parsed, ParsedReply, EchoOf, PrintRequest;
    if xs == [] {
      assert ch.up.delivered + [] == ch.up.delivered;
    } else {
      assert GoodExchange(ch.cseq + 1 + 0, xs[0]);
      ExchangeStaysInSync(suite, keys, ch, xs[0]);
      var ch' := Exchanged(suite, keys, ch, xs[0]).value.0;
      forall i | 0 <= i < |xs[1..]|
        ensures GoodExchange(ch'.cseq + 1 + i, xs[1..][i])
      {
        assert GoodExchange(ch.cseq + 1 + (i + 1), xs[i + 1]);
      }
      RunStaysInSync(suite, keys, ch', xs[1..]);
      var first, more := PrintRequest(ch.cseq + 1, xs[0].call), Requests(ch'.cseq, xs[1..]);
      assert ch.up.delivered + first + more == ch.up.delivered + (first + more);
    }
  }

  // ---------- the two ends, step by step ----------

  /** The control stream of a connection: plain during pairing, then HAP frames on the same socket. */
  class CtrlStream {
    const conn: H.Conn
    var hap: H.HapStream?

    ghost predicate Valid()
      reads this, hap
    {
      hap != null ==> hap.conn == conn
    }

    ghost function Framed(): set<H.HapStream>
      reads this
    {
      if hap == null then {} else {hap}
    }

    /** What reads from the stream still give, whatever is on the wire. */
    ghost function Left(): seq<Symbol>
      requires Valid()
      reads this, conn, hap
    {
      if hap == null then conn.incoming else H.Symbols(hap.suite, hap.readKey, hap.State())
    }

    constructor FromTcp(conn: H.Conn)
      ensures Valid() && this.conn == conn && hap == null
    {
      this.conn, hap := conn, null;
    }

    /** Only the first call has an effect: the bytes that follow are read as frames, from counter 0. */
    method EnableHap(suite: Suite, readKey: seq<byte>, writeKey: seq<byte>)
      requires Valid()
      modifies this
      ensures Valid()
      ensures old(hap) != null ==> hap == old(hap)
      ensures old(hap) == null ==>
        && hap != null && fresh(hap) && hap.suite == suite && hap.readKey == readKey && hap.writeKey == writeKey
        && hap.writeNonce == 0 && hap.State() == H.Reader([], 0, conn.incoming)
        && Left() == H.Arriving(suite, readKey, 0, conn.incoming)
    {
      if hap == null {
        hap := new H.HapStream(suite, conn, readKey, writeKey);
      }
    }

    /** How reading has moved the frame reader, when there is one. */
    ghost predicate Moved(st: H.Reader)
      requires Valid()
      reads this, conn, hap
    {
      hap != null ==> H.Advanced(hap.suite, hap.readKey, st, hap.State())
    }

    /** The state of the frame reader, when there is one. */
    ghost function Reader(): H.Reader
      requires Valid()
      reads this, conn, hap
    {
      if hap == null then H.Reader([], 0, []) else hap.State()
    }

    method ReadExact(n: nat) returns (r: Option<seq<byte>>)
      requires Valid()
      modifies conn`incoming, Framed()`readNonce, Framed()`readBuf
      ensures Valid()
      ensures (r, Left()) == H.TakeExact(old(Left()), n)
      ensures Moved(old(Reader()))
    {
      hide H.TakeExact, H.Symbols, H.ReadAll, H.Advanced;
      if hap == null {
        ghost var s := conn.incoming;
        r := conn.ReadExact(n);
        H.TakeFromBytes(s, n);
      } else {
        H.ReadAllTakes(hap.suite, hap.readKey, hap.State(), n);
        H.ReadExactAdvances(hap.suite, hap.readKey, hap.State(), n);
        r := hap.ReadExact(n);
      }
    }

    lemma NotMoved()
      requires Valid()
      ensures Moved(Reader())
    {
      hide H.Advanced;
      if hap != null {
        H.AdvancedNone(hap.suite, hap.readKey, hap.State());
      }
    }

    lemma MovedTwice(st: H.Reader, mid: H.Reader)
      requires Valid() && Moved(mid)
      requires hap != null ==> H.Advanced(hap.suite, hap.readKey, st, mid)
      ensures Moved(st)
    {
      hide H.Advanced;
      if hap != null {
        H.AdvancedTwice(hap.suite, hap.readKey, st, mid, hap.State());
      }
    }

    method Write(data: seq<byte>)
      requires Valid()
      modifies conn`outgoing, Framed()`writeNonce
      ensures Valid()
      ensures hap == null ==> conn.outgoing == old(conn.outgoing) + data
      ensures hap != null ==>
        && conn.outgoing == old(conn.outgoing) + H.Frames(hap.suite, hap.writeKey, old(hap.writeNonce), H.Chunks(data))
        && hap.writeNonce == old(hap.writeNonce) + |H.Chunks(data)|
    {
      if hap == null {
        conn.WriteAll(data);
      } else {
        var _ := hap.Write(data);
      }
    }
  }

  method ReadLine(reader: CtrlStream) returns (r: Result<Text>)
    requires reader.Valid()
    modifies reader.conn`incoming, reader.Framed()`readNonce, reader.Framed()`readBuf
    ensures reader.Valid()
    ensures match TakeLine([], old(reader.Left()))
      case Err => r.Err?
      case Ok(v) => r == Ok(v.0) && reader.Left() == v.1
    ensures r.Ok? ==> reader.Moved(old(reader.Reader()))
  {
    hide TrimReturns, H.Advanced, H.Symbols;
    var buf: Text := [];
    reader.NotMoved();
    while true
      invariant reader.Valid() && reader.Moved(old(reader.Reader()))
      invariant TakeLine([], old(reader.Left())) == TakeLine(buf, reader.Left())
      decreases |reader.Left()|
    {
      ghost var before := reader.Left();
      ghost var mid := reader.Reader();
      var b := reader.ReadExact(1);
      reader.MovedTwice(old(reader.Reader()), mid);
      if b.None? {
        if buf == [] {
          return Err;
        }
        return Ok(TrimReturns(buf));
      }
      assert b.value == [before[0]];
      if b.value[0] == LF {
        return Ok(TrimReturns(buf));
      }
      buf := buf + b.value;
      if |buf| > HEADER_LIMIT {
        return Err;
      }
    }
  }

  method ReadFields(reader: CtrlStream) returns (r: Result<(Headers, nat)>)
    requires reader.Valid()
    modifies reader.conn`incoming, reader.Framed()`readNonce, reader.Framed()`readBuf
    ensures reader.Valid()
    ensures match TakeFields(old(reader.Left()), map[], 0)
      case Err => r.Err?
      case Ok(v) => r == Ok((v.0, v.1)) && reader.Left() == v.2
    ensures r.Ok? ==> reader.Moved(old(reader.Reader()))
  {
    hide TakeLine, ParseField, ParseNumber, H.Advanced, H.Symbols;
    reader.NotMoved();
    var headers: Headers := map[];
    var contentLength: nat := 0;
    while true
      invariant reader.Valid() && reader.Moved(old(reader.Reader()))
      invariant TakeFields(old(reader.Left()), map[], 0) == TakeFields(reader.Left(), headers, contentLength)
      decreases |reader.Left()|
    {
      ghost var before := reader.Left();
      ghost var mid := reader.Reader();
      var line := ReadLine(reader);
      if line.Err? {
        return Err;
      }
      reader.MovedTwice(old(reader.Reader()), mid);
      if line.value == [] {
        return Ok((headers, contentLength));
      }
      assert before != [] by { NoLineInNothing(before); }
      var field := ParseField(line.value);
      if field.Some? {
        if field.value.name == CONTENT_LENGTH {
          var n := ParseNumber(field.value.value, USIZE);
          if n.None? {
            return Err;
          }
          contentLength := n.value;
        }
        headers := headers[field.value.name := field.value.value];
      }
    }
  }

  lemma NoLineInNothing(s: seq<Symbol>)
    ensures s == [] ==> TakeLine([], s).Err?
  {}

  method ReadRequest(reader: CtrlStream) returns (r: Result<Request>)
    requires reader.Valid()
    modifies reader.conn`incoming, reader.Framed()`readNonce, reader.Framed()`readBuf
    ensures reader.Valid()
    ensures match TakeRequest(old(reader.Left()))
      case Err => r.Err?
      case Ok(v) => r == Ok(v.0) && reader.Left() == v.1
    ensures r.Ok? ==> reader.Moved(old(reader.Reader()))
  {
    hide TakeLine, TakeFields, Words, H.Advanced, H.Symbols, H.TakeExact;
    var line :- ReadLine(reader);
    if line == [] {
      return Err;
    }
    var parts := Words(line);
    if |parts| != 3 || parts[2] != VERSION {
      return Err;
    }
    ghost var afterLine := reader.Reader();
    var fields :- ReadFields(reader);
    reader.MovedTwice(old(reader.Reader()), afterLine);
    var (headers, contentLength) := fields;
    var body: seq<byte> := [];
    H.TakeNone(reader.Left());
    if contentLength > 0 {
      ghost var afterFields := reader.Reader();
      var read := reader.ReadExact(if contentLength < BODY_LIMIT then contentLength else BODY_LIMIT);
      reader.MovedTwice(old(reader.Reader()), afterFields);
      if read.None? {
        return Err;
      }
      body := read.value;
    }
    r := Ok(Request(parts[0], parts[1], headers, body));
  }

  /** The request's text, built up field by field. */
  method BuildRequest(cseq: nat, c: Call) returns (buf: seq<byte>)
    ensures buf == PrintRequest(cseq, c)
  {
    hide Ascii, Decimal, FieldLine, Listed, Block;
    var line := RequestLine(c.verb, c.uri);
    ghost var base := line + CRLF;
    buf := line + CRLF;
    NothingListed(base);
    buf := AddField(buf, base, [], Field(Ascii("CSeq"), Decimal(cseq)));
    ghost var first := [Field(Ascii("CSeq"), Decimal(cseq))];
    assert [] + first == first;
    buf := AddField(buf, base, first, Field(Ascii("User-Agent"), Ascii("AirPlay/935.7.1")));
    ghost var own := first + [Field(Ascii("User-Agent"), Ascii("AirPlay/935.7.1"))];
    assert own + c.extra[..0] == own;
    for i := 0 to |c.extra|
      invariant buf == base + Listed(own + c.extra[..i])
    {
      assert own + c.extra[..i] + [c.extra[i]] == own + c.extra[..i + 1];
      buf := AddField(buf, base, own + c.extra[..i], c.extra[i]);
    }
    assert own + c.extra[..|c.extra|] == own + c.extra;
    ghost var fields := own + c.extra;
    if c.contentType != [] && c.body != [] {
      buf := AddField(buf, base, fields, Field(Ascii("Content-Type"), c.contentType));
    } else {
      assert fields + [] == fields;
    }
    fields := fields + TypeField(c.contentType, c.body);
    buf := AddField(buf, base, fields, LengthField(c.body));
    buf := buf + CRLF;
    buf := buf + c.body;
    FieldsInOrder(cseq, c, fields);
    BlockIsListed(RequestFields(cseq, c));
  }

  lemma FieldsInOrder(cseq: nat, c: Call, fields: seq<Field>)
    requires fields == [Field(Ascii("CSeq"), Decimal(cseq))] + [Field(Ascii("User-Agent"), Ascii("AirPlay/935.7.1"))]
      + c.extra + TypeField(c.contentType, c.body)
    ensures fields + [LengthField(c.body)] == RequestFields(cseq, c)
  {
    hide Ascii, Decimal;
  }

  method AddField(buf: seq<byte>, ghost base: seq<byte>, ghost fields: seq<Field>, f: Field) returns (r: seq<byte>)
    requires buf == base + Listed(fields)
    ensures r == base + Listed(fields + [f])
  {
    hide FieldLine;
    ListedAppend(fields, f);
    r := buf + FieldLine(f) + CRLF;
  }

  lemma NothingListed(base: seq<byte>)
    ensures base + Listed([]) == base
  {}

  /** The lines of fields, each ended. */
  function Listed(fields: seq<Field>): Text {
    if fields == [] then [] else FieldLine(fields[0]) + (CRLF + Listed(fields[1..]))
  }

  lemma {:induction false} ListedAppend(fields: seq<Field>, f: Field)
    ensures Listed(fields + [f]) == Listed(fields) + (FieldLine(f) + CRLF)
    decreases |fields|
  {
    hide FieldLine;
    if fields == [] {
      assert ([f])[1..] == [] && fields + [f] == [f];
      assert CRLF + Listed([]) == CRLF;
    } else {
      ListedAppend(fields[1..], f);
      assert (fields + [f])[0] == fields[0] && (fields + [f])[1..] == fields[1..] + [f];
    }
  }

  lemma {:induction false} BlockIsListed(fields: seq<Field>)
    ensures Block(fields) == Listed(fields) + CRLF
    decreases |fields|
  {
    hide FieldLine;
    if fields != [] {
      BlockIsListed(fields[1..]);
    }
  }

  /** Two writes: the header, then the body. */
  method WriteResponse(writer: CtrlStream, cseq: Option<Text>, a: Answer)
    requires writer.Valid()
    modifies writer.conn`outgoing, writer.Framed()`writeNonce
    ensures writer.Valid()
    ensures writer.hap == null ==> writer.conn.outgoing == old(writer.conn.outgoing) + ResponseHead(cseq, a) + a.body
    ensures writer.hap != null ==>
      && writer.conn.outgoing == old(writer.conn.outgoing)
        + H.Frames(writer.hap.suite, writer.hap.writeKey, old(writer.hap.writeNonce), ResponseChunks(cseq, a))
      && writer.hap.writeNonce == old(writer.hap.writeNonce) + |ResponseChunks(cseq, a)|
  {
    hide H.Frames, H.Chunks, ResponseHead;
    if writer.hap != null {
      H.FramesAppend(writer.hap.suite, writer.hap.writeKey, writer.hap.writeNonce, H.Chunks(ResponseHead(cseq, a)), H.Chunks(a.body));
    }
    writer.Write(ResponseHead(cseq, a));
    writer.Write(a.body);
  }

  method ParseHeader(header: Text) returns (status: nat, contentLength: nat, headers: Headers)
    ensures (status, contentLength, headers) == ParseHttpHeader(header)
  {
    hide ParseField, ParseNumber, ParseStatus, SplitLines;
    var lines := SplitLines(header);
    headers, contentLength, status := map[], 0, 0;
    if lines == [] {
      return;
    }
    status := ParseStatus(lines[0]);
    for i := 1 to |lines|
      invariant FoldLines(lines[1..], map[], 0) == FoldLines(lines[i..], headers, contentLength)
    {
      assert lines[i..][1..] == lines[i + 1..];
      var field := ParseField(lines[i]);
      if field.Some? {
        if field.value.name == [] {
          continue;
        }
        if field.value.name == CONTENT_LENGTH {
          var n := ParseNumber(field.value.value, USIZE);
          contentLength := if n.Some? then n.value else 0;
        }
        headers := headers[field.value.name := field.value.value];
      }
    }
  }

  method ReadEncryptedResponse(client: H.ClientChannel) returns (r: Option<Reply>)
    modifies client`encReadNonce, client.conn`incoming
    ensures match TakeResponse(client.suite, client.encReadKey, old(client.encReadNonce), old(client.conn.incoming))
      case None => r.None?
      case Some(v) => r == Some(v.0) && client.encReadNonce == v.1 && client.conn.incoming == v.2
  {
    hide H.OpenFrame, HeaderEnd, ParseHttpHeader;
    var decrypted: seq<byte> := [];
    ghost var start := Incoming([], client.encReadNonce, client.conn.incoming);
    while HeaderEnd(decrypted, 0).None?
      invariant CollectHead(client.suite, client.encReadKey, start)
        == CollectHead(client.suite, client.encReadKey, Incoming(decrypted, client.encReadNonce, client.conn.incoming))
      decreases |client.conn.incoming|
    {
      var frame :- client.ReadEncryptedFrame();
      decrypted := decrypted + frame;
      if |decrypted| > 16384 {
        return None;
      }
    }
    var headerEnd := HeaderEnd(decrypted, 0).value;
    var status, contentLength, headers := ParseHeader(decrypted[..headerEnd]);
    if contentLength > BODY_LIMIT {
      return None;
    }
    ghost var head := Incoming(decrypted, client.encReadNonce, client.conn.incoming);
    while |decrypted| < headerEnd + contentLength
      invariant |decrypted| >= headerEnd
      invariant CollectBody(client.suite, client.encReadKey, head, headerEnd + contentLength)
        == CollectBody(client.suite, client.encReadKey, Incoming(decrypted, client.encReadNonce, client.conn.incoming), headerEnd + contentLength)
      decreases |client.conn.incoming|
    {
      var frame :- client.ReadEncryptedFrame();
      decrypted := decrypted + frame;
    }
    r := Some(Reply(status, headers, decrypted[headerEnd..headerEnd + contentLength]));
  }

  // ---------- the text of a message ----------

  /** The lines of header fields, as text. */
  function FieldsText(fields: seq<Field>): Text {
    if fields == [] then []
    else fields[0].name + Ascii(": ") + fields[0].value + Ascii("\r\n") + FieldsText(fields[1..])
  }

  lemma Punctuation()
    ensures Ascii(": ") == [COLON, SPACE] && Ascii("\r\n") == CRLF && Ascii(" ") == [SPACE]
  {}

  lemma {:induction false} ListedText(fields: seq<Field>)
    ensures Listed(fields) == FieldsText(fields)
    decreases |fields|
  {
    hide Ascii;
    Punctuation();
    if fields != [] {
      ListedText(fields[1..]);
      var f, rest := fields[0], FieldsText(fields[1..]);
      assert FieldLine(f) + (CRLF + rest) == f.name + Ascii(": ") + f.value + Ascii("\r\n") + rest;
    }
  }

  /** What the client writes for a request, character by character. */
  lemma RequestText(cseq: nat, c: Call)
    ensures PrintRequest(cseq, c) ==
      c.verb + Ascii(" ") + c.uri + Ascii(" RTSP/1.0\r\n")
      + FieldsText([Field(Ascii("CSeq"), Decimal(cseq)), Field(Ascii("User-Agent"), Ascii("AirPlay/935.7.1"))]
          + c.extra
          + (if c.contentType == [] || c.body == [] then [] else [Field(Ascii("Content-Type"), c.contentType)])
          + [Field(Ascii("Content-Length"), Decimal(|c.body|))])
      + Ascii("\r\n") + c.body
  {
    hide Listed, FieldsText, Decimal, Block;
    var fields := RequestFields(cseq, c);
    BlockIsListed(fields);
    ListedText(fields);
    Punctuation();
    VersionText();
  }

  lemma VersionText()
    ensures Ascii(" RTSP/1.0\r\n") == [SPACE] + VERSION + CRLF
  {}

  /** And the receiver for a response's header. */
  lemma ResponseText(cseq: Option<Text>, a: Answer)
    ensures ResponseHead(cseq, a) ==
      Ascii("RTSP/1.0 ") + Decimal(a.status) + Ascii(" ") + a.reason + Ascii("\r\n")
      + FieldsText((if cseq.Some? then [Field(Ascii("CSeq"), cseq.value)] else [])
          + [Field(Ascii("Server"), Ascii("lumen-receiver/1"))]
          + a.extra
          + (if a.contentType == [] || a.body == [] then [] else [Field(Ascii("Content-Type"), a.contentType)])
          + [Field(Ascii("Content-Length"), Decimal(|a.body|))])
      + Ascii("\r\n")
  {
    hide Listed, FieldsText, Decimal, Block;
    var fields := ResponseFields(cseq, a);
    BlockIsListed(fields);
    ListedText(fields);
    Punctuation();
    assert Ascii("RTSP/1.0 ") == VERSION + [SPACE];
  }
}
