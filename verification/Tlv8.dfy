/** HomeKit-style TLV8: (tag, length, value) records, with values over 255 bytes split into several
    records of the same tag. */
module Tlv8 {
  import opened Bytes

  const METHOD: byte := 0x00
  const IDENTIFIER: byte := 0x01
  const SALT: byte := 0x02
  const PUBLIC_KEY: byte := 0x03
  const PROOF: byte := 0x04
  const ENCRYPTED_DATA: byte := 0x05
  const STATE: byte := 0x06
  const ERROR: byte := 0x07
  const SIGNATURE: byte := 0x0A
  const ACL: byte := 0x12
  const FLAGS: byte := 0x13

  const CHUNK := 255

  datatype Item = Item(tag: byte, value: seq<byte>)

  type Fields = map<byte, seq<byte>>

  // ---------- encoding ----------

  function EncodeItem(item: Item): seq<byte>
    decreases |item.value|
  {
    if |item.value| <= CHUNK then [item.tag, |item.value|] + item.value
    else [item.tag, CHUNK] + item.value[..CHUNK] + EncodeItem(Item(item.tag, item.value[CHUNK..]))
  }

  function EncodeOrdered(items: seq<Item>): seq<byte> {
    if items == [] then [] else EncodeItem(items[0]) + EncodeOrdered(items[1..])
  }

  method Encode(items: seq<Item>) returns (buf: seq<byte>)
    ensures buf == EncodeOrdered(items)
  {
    buf := [];
    for i := 0 to |items|
      invariant buf + EncodeOrdered(items[i..]) == EncodeOrdered(items)
    {
      assert items[i..][1..] == items[i + 1..];
      buf := PushItem(buf, items[i]);
    }
  }

  /** The loop body of the encoder: at least one record per item. */
  method PushItem(start: seq<byte>, item: Item) returns (buf: seq<byte>)
    ensures buf == start + EncodeItem(item)
  {
    buf := start;
    if item.value == [] {
      buf := buf + [item.tag];
      buf := buf + [0];
      return;
    }
    var rest := item.value;
    while rest != []
      invariant buf + Remaining(item.tag, rest) == start + EncodeItem(item)
      decreases |rest|
    {
      var chunk := if |rest| > CHUNK then rest[..CHUNK] else rest;
      assert Remaining(item.tag, rest) == [item.tag] + [|chunk|] + chunk + Remaining(item.tag, rest[|chunk|..]);
      buf := buf + [item.tag];
      buf := buf + [|chunk|];
      buf := buf + chunk;
      rest := rest[|chunk|..];
    }
  }

  ghost function Remaining(tag: byte, rest: seq<byte>): seq<byte> {
    if rest == [] then [] else EncodeItem(Item(tag, rest))
  }

  // ---------- decoding ----------

  function Append(m: Fields, tag: byte, value: seq<byte>): Fields {
    m[tag := Start(m, tag) + value]
  }

  /** Whether a whole record is at the front of the data. */
  predicate HasRecord(data: seq<byte>) {
    |data| >= 2 && data[1] <= |data| - 2
  }

  function DecodeOnto(m: Fields, data: seq<byte>): Fields
    decreases |data|
  {
    if !HasRecord(data) then m
    else DecodeOnto(Append(m, data[0], data[2..2 + data[1]]), data[2 + data[1]..])
  }

  function Decode(data: seq<byte>): Fields {
    DecodeOnto(map[], data)
  }

  method DecodeFields(data: seq<byte>) returns (result: Fields)
    ensures result == Decode(data)
  {
    result := map[];
    var rest := data;
    while |rest| >= 2
      invariant DecodeOnto(result, rest) == Decode(data)
      decreases |rest|
    {
      var tag := rest[0];
      var length := rest[1];
      ghost var record, before := rest, result;
      rest := rest[2..];
      if length > |rest| {
        break;
      }
      assert record[2..2 + (length as int)] == rest[..length] && record[2 + (length as int)..] == rest[length..];
      if tag !in result {
        result := result[tag := []];
      }
      result := result[tag := result[tag] + rest[..length]];
      assert result == Append(before, tag, rest[..length]);
      rest := rest[length..];
    }
  }

  // ---------- what decoding an encoding gives ----------

  /** The concatenation, in order, of the values carried under one tag. */
  function ValuesOf(items: seq<Item>, tag: byte): seq<byte> {
    if items == [] then []
    else (if items[0].tag == tag then items[0].value else []) + ValuesOf(items[1..], tag)
  }

  predicate HasTag(items: seq<Item>, tag: byte) {
    exists i :: 0 <= i < |items| && items[i].tag == tag
  }

  function AppendAll(m: Fields, items: seq<Item>): Fields
    decreases |items|
  {
    if items == [] then m else AppendAll(Append(m, items[0].tag, items[0].value), items[1..])
  }

  lemma DecodeRecord(m: Fields, tag: byte, value: seq<byte>, rest: seq<byte>)
    requires |value| <= CHUNK
    ensures DecodeOnto(m, [tag, |value|] + value + rest) == DecodeOnto(Append(m, tag, value), rest)
  {
    var data := [tag, |value|] + value + rest;
    assert data[2..2 + |value|] == value;
    assert data[2 + |value|..] == rest;
  }

  lemma AppendTwice(m: Fields, tag: byte, a: seq<byte>, b: seq<byte>)
    ensures Append(Append(m, tag, a), tag, b) == Append(m, tag, a + b)
  {
    assert Start(m, tag) + a + b == Start(m, tag) + (a + b);
  }

  lemma {:induction false} DecodeItem(m: Fields, item: Item, rest: seq<byte>)
    ensures DecodeOnto(m, EncodeItem(item) + rest) == DecodeOnto(Append(m, item.tag, item.value), rest)
    decreases |item.value|
  {
    if |item.value| <= CHUNK {
      DecodeRecord(m, item.tag, item.value, rest);
    } else {
      var chunk, tail := item.value[..CHUNK], Item(item.tag, item.value[CHUNK..]);
      var m' := Append(m, item.tag, chunk);
      assert EncodeItem(item) + rest == [item.tag, CHUNK] + chunk + (EncodeItem(tail) + rest);
      DecodeRecord(m, item.tag, chunk, EncodeItem(tail) + rest);
      DecodeItem(m', tail, rest);
      AppendTwice(m, item.tag, chunk, tail.value);
      assert chunk + tail.value == item.value;
    }
  }

  lemma {:induction false} DecodeEncoded(m: Fields, items: seq<Item>)
    ensures DecodeOnto(m, EncodeOrdered(items)) == AppendAll(m, items)
    decreases |items|
  {
    if items != [] {
      DecodeItem(m, items[0], EncodeOrdered(items[1..]));
      DecodeEncoded(Append(m, items[0].tag, items[0].value), items[1..]);
    }
  }

  lemma {:induction false} AppendAllGives(m: Fields, items: seq<Item>, tag: byte)
    ensures tag in AppendAll(m, items) <==> tag in m || HasTag(items, tag)
    ensures tag in AppendAll(m, items) ==> AppendAll(m, items)[tag] == Start(m, tag) + ValuesOf(items, tag)
    decreases |items|
  {
    hide HasTag;
    if items == [] {
      assert !HasTag(items, tag) by { NoTagInNothing(items, tag); }
      assert Start(m, tag) + [] == Start(m, tag);
    } else {
      var m', rest := Append(m, items[0].tag, items[0].value), items[1..];
      AppendAllGives(m', rest, tag);
      HasTagFirst(items, tag);
      var first := if items[0].tag == tag then items[0].value else [];
      assert tag in m' ==> Start(m', tag) == Start(m, tag) + first;
      assert Start(m, tag) + first + ValuesOf(rest, tag) == Start(m, tag) + (first + ValuesOf(rest, tag));
    }
  }

  function Start(m: Fields, tag: byte): seq<byte> {
    if tag in m then m[tag] else []
  }

  lemma NoTagInNothing(items: seq<Item>, tag: byte)
    ensures items == [] ==> !HasTag(items, tag)
  {}

  lemma HasTagFirst(items: seq<Item>, tag: byte)
    requires items != []
    ensures HasTag(items, tag) <==> items[0].tag == tag || HasTag(items[1..], tag)
  {
    if HasTag(items[1..], tag) {
      var i :| 0 <= i < |items[1..]| && items[1..][i].tag == tag;
      assert items[i + 1].tag == tag;
    }
    if HasTag(items, tag) && items[0].tag != tag {
      var i :| 0 <= i < |items| && items[i].tag == tag;
      assert items[1..][i - 1].tag == tag;
    }
  }

  /** Decoding an encoded list gives each tag the concatenation of its values, and no other tags. */
  lemma DecodeOfEncode(items: seq<Item>, tag: byte)
    ensures tag in Decode(EncodeOrdered(items)) <==> HasTag(items, tag)
    ensures tag in Decode(EncodeOrdered(items)) ==> Decode(EncodeOrdered(items))[tag] == ValuesOf(items, tag)
  {
    DecodeEncoded(map[], items);
    AppendAllGives(map[], items, tag);
  }

  lemma {:induction false} ValuesOfUnused(items: seq<Item>, tag: byte)
    requires !HasTag(items, tag)
    ensures ValuesOf(items, tag) == []
  {
    if items != [] {
      HasTagFirst(items, tag);
      ValuesOfUnused(items[1..], tag);
    }
  }

  lemma {:induction false} ValuesOfUnique(items: seq<Item>, i: nat)
    requires i < |items| && forall j | 0 <= j < |items| && j != i :: items[j].tag != items[i].tag
    ensures ValuesOf(items, items[i].tag) == items[i].value
    decreases |items|
  {
    if i == 0 {
      ValuesOfUnused(items[1..], items[0].tag);
    } else {
      assert items[1..][i - 1] == items[i];
      ValuesOfUnique(items[1..], i - 1);
    }
  }

  /** A tag used once decodes to its value. */
  lemma FieldOnce(items: seq<Item>, i: nat)
    requires i < |items| && forall j | 0 <= j < |items| && j != i :: items[j].tag != items[i].tag
    ensures items[i].tag in Decode(EncodeOrdered(items))
    ensures Decode(EncodeOrdered(items))[items[i].tag] == items[i].value
  {
    DecodeOfEncode(items, items[i].tag);
    ValuesOfUnique(items, i);
  }

  lemma {:induction false} EncodedItemSize(item: Item)
    ensures |EncodeItem(item)| >= |item.value| + 2
    decreases |item.value|
  {
    if |item.value| > CHUNK {
      EncodedItemSize(Item(item.tag, item.value[CHUNK..]));
    }
  }

  lemma {:induction false} EncodedSize(items: seq<Item>, i: nat)
    requires i < |items|
    ensures |EncodeOrdered(items)| >= |items[i].value| + 2
    decreases |items|
  {
    EncodedItemSize(items[0]);
    if i > 0 {
      EncodedSize(items[1..], i - 1);
    }
  }

  // ---------- truncated input ----------

  ghost predicate PrefixFields(short: Fields, long: Fields) {
    forall tag | tag in short :: tag in long && short[tag] <= long[tag]
  }

  lemma {:induction false} DecodeOntoExtends(m: Fields, data: seq<byte>)
    ensures PrefixFields(m, DecodeOnto(m, data))
    decreases |data|
  {
    if HasRecord(data) {
      DecodeOntoExtends(Append(m, data[0], data[2..2 + data[1]]), data[2 + data[1]..]);
    }
  }

  lemma {:induction false} TruncationOnto(m: Fields, data: seq<byte>, n: nat)
    requires n <= |data|
    ensures PrefixFields(DecodeOnto(m, data[..n]), DecodeOnto(m, data))
    decreases |data|
  {
    if HasRecord(data[..n]) {
      var size := 2 + (data[1] as int);
      assert data[..n][2..size] == data[2..size];
      assert data[..n][size..] == data[size..][..n - size];
      TruncationOnto(Append(m, data[0], data[2..size]), data[size..], n - size);
    } else {
      DecodeOntoExtends(m, data);
    }
  }

  /** Cutting any byte string short only shortens the values it decodes to. */
  lemma TruncationGivesPrefixes(data: seq<byte>, n: nat)
    requires n <= |data|
    ensures PrefixFields(Decode(data[..n]), Decode(data))
  {
    TruncationOnto(map[], data, n);
  }

  // ---------- the bytes of an encoding ----------

  /** A value of up to 255 bytes is one record, and a longer one is the record of its first 255 bytes
      followed by those of the rest. */
  lemma RecordsAre(tag: byte, value: seq<byte>)
    ensures |value| <= 255 ==> EncodeItem(Item(tag, value)) == [tag, |value|] + value
    ensures |value| > 255 ==>
      EncodeItem(Item(tag, value)) == [tag, 255] + value[..255] + EncodeItem(Item(tag, value[255..]))
  {}

  /** No encoding of a value is shorter: two bytes more for each 255 bytes begun. */
  lemma {:induction false} EncodedLength(item: Item)
    ensures |EncodeItem(item)| == |item.value| + 2 * (if item.value == [] then 1 else (|item.value| + 254) / 255)
    decreases |item.value|
  {
    if |item.value| > CHUNK {
      EncodedLength(Item(item.tag, item.value[CHUNK..]));
    }
  }
}
