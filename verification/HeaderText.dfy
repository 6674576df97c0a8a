/** The text of RTSP messages: lines, words, numbers and header fields, printed and parsed. */
module HeaderText {
  import opened Bytes
  import Crypto

  type Text = seq<byte>

  const CR: byte := 13
  const LF: byte := 10
  const SPACE: byte := 32
  const COLON: byte := 58
  const CRLF: Text := [13, 10]

  // ---------- characters ----------

  /** White space among ASCII characters. */
  predicate IsSpace(b: byte) {
    9 <= b <= 13 || b == SPACE
  }

  function Lower(b: byte): byte {
    if 65 <= b <= 90 then b + 32 else b
  }

  function LowerAll(s: Text): (r: Text)
    ensures |r| == |s|
  {
    seq(|s|, i requires 0 <= i < |s| => Lower(s[i]))
  }

  predicate NoneOf(s: Text, b: byte) {
    forall i | 0 <= i < |s| :: s[i] != b
  }

  predicate OneLine(s: Text) {
    NoneOf(s, CR) && NoneOf(s, LF)
  }

  /** Neither end is white space. */
  predicate Trimmed(s: Text) {
    s != [] ==> !IsSpace(s[0]) && !IsSpace(s[|s| - 1])
  }

  function TrimStart(s: Text): (r: Text)
    ensures |r| <= |s|
  {
    if s != [] && IsSpace(s[0]) then TrimStart(s[1..]) else s
  }

  function TrimEnd(s: Text): Text {
    if s != [] && IsSpace(s[|s| - 1]) then TrimEnd(s[..|s| - 1]) else s
  }

  function Trim(s: Text): Text {
    TrimEnd(TrimStart(s))
  }

  function TrimReturns(s: Text): Text {
    if s != [] && s[|s| - 1] == CR then TrimReturns(s[..|s| - 1]) else s
  }

  lemma TrimOfTrimmed(s: Text)
    requires Trimmed(s)
    ensures Trim(s) == s && Trim([SPACE] + s) == s
  {
    assert ([SPACE] + s)[1..] == s;
  }

  // ---------- words and numbers ----------

  predicate IsWord(s: Text) {
    s != [] && forall i | 0 <= i < |s| :: !IsSpace(s[i])
  }

  function WordLength(s: Text): (n: nat)
    ensures n <= |s|
  {
    if s == [] || IsSpace(s[0]) then 0 else 1 + WordLength(s[1..])
  }

  /** The runs of non-space characters. */
  function Words(s: Text): seq<Text>
    decreases |s|
  {
    var t := TrimStart(s);
    if t == [] then []
    else
      var n := WordLength(t);
      if n == 0 then [] else [t[..n]] + Words(t[n..])
  }

  lemma {:induction false} WordLengthOf(w: Text, rest: Text)
    requires forall i | 0 <= i < |w| :: !IsSpace(w[i])
    requires rest == [] || IsSpace(rest[0])
    ensures WordLength(w + rest) == |w|
    decreases |w|
  {
    if w == [] {
      assert w + rest == rest;
    } else {
      assert (w + rest)[1..] == w[1..] + rest;
      WordLengthOf(w[1..], rest);
    }
  }

  lemma FirstWord(w: Text, rest: Text)
    requires IsWord(w) && (rest == [] || IsSpace(rest[0]))
    ensures Words(w + rest) == [w] + Words(rest)
  {
    var s := w + rest;
    assert s[0] == w[0];
    WordLengthOf(w, rest);
    assert s[..|w|] == w && s[|w|..] == rest;
  }

  lemma SkipSpace(s: Text)
    ensures Words([SPACE] + s) == Words(s)
  {
    assert ([SPACE] + s)[1..] == s;
  }

  lemma ThreeWords(a: Text, b: Text, c: Text)
    requires IsWord(a) && IsWord(b) && IsWord(c)
    ensures Words(a + ([SPACE] + (b + ([SPACE] + c)))) == [a, b, c]
  {
    hide Words, IsWord;
    FirstWord(a, [SPACE] + (b + ([SPACE] + c)));
    SkipSpace(b + ([SPACE] + c));
    FirstWord(b, [SPACE] + c);
    SkipSpace(c);
    FirstWord(c, []);
    assert c + [] == c;
    assert Words([]) == [] by { NoWords(); }
  }

  lemma NoWords()
    ensures Words([]) == []
  {}

  function Decimal(n: nat): (d: Text)
    ensures d != [] && forall i | 0 <= i < |d| :: 48 <= d[i] <= 57
  {
    if n < 10 then [48 + n] else Decimal(n / 10) + [48 + n % 10]
  }

  function DigitsValue(s: Text): Option<nat> {
    if s == [] then Some(0)
    else if !(48 <= s[|s| - 1] <= 57) then None
    else
      var high :- DigitsValue(s[..|s| - 1]);
      Some(10 * high + (s[|s| - 1] - 48))
  }

  /** An unsigned number below the limit; a plus sign is allowed in front. */
  function ParseNumber(s: Text, limit: nat): Option<nat> {
    var digits := if |s| > 1 && s[0] == 43 then s[1..] else s;
    if digits == [] then None
    else
      var n :- DigitsValue(digits);
      if n < limit then Some(n) else None
  }

  lemma {:induction false} DigitsOfDecimal(n: nat)
    ensures DigitsValue(Decimal(n)) == Some(n)
    decreases n
  {
    var d := Decimal(n);
    if n >= 10 {
      DigitsOfDecimal(n / 10);
      assert d[..|d| - 1] == Decimal(n / 10);
    } else {
      assert d[..|d| - 1] == [];
    }
  }

  lemma NumberRoundTrip(n: nat, limit: nat)
    requires n < limit
    ensures ParseNumber(Decimal(n), limit) == Some(n)
    ensures IsWord(Decimal(n)) && OneLine(Decimal(n)) && Trimmed(Decimal(n))
  {
    DigitsOfDecimal(n);
  }

  // ---------- header fields ----------

  datatype Field = Field(name: Text, value: Text)

  predicate ValidField(f: Field) {
    && f.name != [] && OneLine(f.name) && NoneOf(f.name, COLON) && Trimmed(f.name)
    && OneLine(f.value) && Trimmed(f.value)
  }

  function FieldLine(f: Field): Text {
    f.name + ([COLON, SPACE] + f.value)
  }

  function SplitColon(s: Text): Option<(Text, Text)> {
    if s == [] then None
    else if s[0] == COLON then Some(([], s[1..]))
    else
      var (name, value) :- SplitColon(s[1..]);
      Some(([s[0]] + name, value))
  }

  lemma {:induction false} SplitColonAt(name: Text, value: Text)
    requires NoneOf(name, COLON)
    ensures SplitColon(name + ([COLON] + value)) == Some((name, value))
    decreases |name|
  {
    var s := name + ([COLON] + value);
    if name == [] {
      assert s[1..] == value;
    } else {
      assert s[1..] == name[1..] + ([COLON] + value);
      SplitColonAt(name[1..], value);
      assert name == [name[0]] + name[1..];
    }
  }

  /** Name in lower case and value, both without surrounding space. */
  function ParseField(line: Text): Option<Field> {
    var (name, value) :- SplitColon(line);
    Some(Field(LowerAll(Trim(name)), Trim(value)))
  }

  function Lowered(f: Field): Field {
    Field(LowerAll(f.name), f.value)
  }

  lemma FieldRoundTrip(f: Field)
    requires ValidField(f)
    ensures ParseField(FieldLine(f)) == Some(Lowered(f))
    ensures FieldLine(f) != [] && OneLine(FieldLine(f))
  {
    hide Trim, LowerAll, IsSpace;
    assert FieldLine(f) == f.name + ([COLON] + ([SPACE] + f.value));
    SplitColonAt(f.name, [SPACE] + f.value);
    TrimOfTrimmed(f.name);
    TrimOfTrimmed(f.value);
  }

  /** The fields' lines and the empty line after them. */
  function Block(fields: seq<Field>): Text {
    if fields == [] then CRLF else FieldLine(fields[0]) + (CRLF + Block(fields[1..]))
  }

  type Headers = map<Text, Text>

  /** Later fields replace earlier ones of the same name. */
  function Collected(fields: seq<Field>, headers: Headers): Headers {
    if fields == [] then headers
    else Collected(fields[1..], headers[LowerAll(fields[0].name) := fields[0].value])
  }

  const CONTENT_LENGTH: Text := Crypto.Ascii("content-length")

  predicate IsLength(f: Field) {
    LowerAll(f.name) == CONTENT_LENGTH
  }
}
