/** The decoder inverts the encoder: decoding the encoding of any value,
    followed by arbitrary further input, gives the value back and leaves
    exactly the further input unread. */
module RoundTrip {
  import opened Common
  import opened Utf8
  import opened Decimal
  import opened Bencode
  import opened ByteOrder
  import opened Decoder
  import opened Encoder

  /** The entries of `m` whose keys occur in `keys`. */
  function Restrict(m: map<ByteString, Value>, keys: seq<ByteString>): (r: map<ByteString, Value>)
    ensures forall k :: k in r <==> k in m && k in keys
  {
    map k | k in m && k in keys :: m[k]
  }

  lemma StringRoundTrip(b: ByteString, rest: seq<Byte>)
    ensures DecodeString(EncodeString(b) + rest) == Ok((b, rest))
  {
    var digits := NatToDecimal(|b|);
    AsciiIsUtf8(digits);
    assert EncodeString(b) + rest == digits + [COLON] + (b + rest);
    ReadUntilFirst(digits, COLON, b + rest);
    ParseUsizeOfDecimal(|b|);
    assert (b + rest)[..|b|] == b && (b + rest)[|b|..] == rest;
  }

  lemma IntegerRoundTrip(n: I64, rest: seq<Byte>)
    ensures DecodeInteger(EncodeInteger(n) + rest) == Ok((n, rest))
  {
    var numeral := IntToDecimal(n);
    AsciiIsUtf8(numeral);
    var s := EncodeInteger(n) + rest;
    assert s[1..] == numeral + [END] + rest;
    ReadUntilFirst(numeral, END, rest);
    ParseI64OfDecimal(n);
    if n < 0 {
      assert numeral[1..] == NatToDecimal(-(n as int));
    }
  }

  lemma {:induction false} ValueRoundTrip(v: Value, rest: seq<Byte>)
    ensures DecodeNext(Encode(v) + rest) == Ok((v, rest))
    decreases v, 3
  {
    match v
    case String(b) =>
      StringRoundTrip(b, rest);
    case Integer(n) =>
      IntegerRoundTrip(n, rest);
    case List(items) =>
      ItemsRoundTrip(items, rest);
      ListRoundTrip(items, rest);
    case Dict(m) =>
      var keys := SortedKeys(m.Keys);
      EntriesRoundTrip(m, keys, map[], rest);
      DictRoundTrip(m, rest);
  }

  /** The list case of `ValueRoundTrip`, given the round trip of the items. */
  lemma ListRoundTrip(items: seq<Value>, rest: seq<Byte>)
    requires DecodeListItems(EncodeItems(items) + [END] + rest) == Ok((items, rest))
    ensures DecodeNext(Encode(List(items)) + rest) == Ok((List(items), rest))
  {
    ListShape(items, rest);
    NextOnList(EncodeItems(items) + [END] + rest, items, rest);
  }

  /** The dictionary case of `ValueRoundTrip`, given the round trip of the
      entries in sorted key order. */
  lemma DictRoundTrip(m: map<ByteString, Value>, rest: seq<Byte>)
    requires DecodeDictItems(EncodeEntries(m, SortedKeys(m.Keys)) + [END] + rest, map[])
               == Ok((map[] + Restrict(m, SortedKeys(m.Keys)), rest))
    ensures DecodeNext(Encode(Dict(m)) + rest) == Ok((Dict(m), rest))
  {
    DictShape(m, rest);
    RestrictAll(m);
    NextOnDict(EncodeEntries(m, SortedKeys(m.Keys)) + [END] + rest, m, rest);
  }

  lemma RestrictAll(m: map<ByteString, Value>)
    ensures map[] + Restrict(m, SortedKeys(m.Keys)) == m
  {
    var keys := SortedKeys(m.Keys);
    RestrictCovering(m, keys);
    assert map[] + m == m;
  }

  lemma RestrictCovering(m: map<ByteString, Value>, keys: seq<ByteString>)
    requires forall k :: k in m ==> k in keys
    ensures Restrict(m, keys) == m
  {
    assert Restrict(m, keys).Keys == m.Keys;
  }

  lemma {:induction false} ItemsRoundTrip(items: seq<Value>, rest: seq<Byte>)
    ensures DecodeListItems(EncodeItems(items) + [END] + rest) == Ok((items, rest))
    decreases items, 1
  {
    if |items| == 0 {
      assert EncodeItems(items) + [END] + rest == [END] + rest;
      assert ([END] + rest)[1..] == rest;
    } else {
      var tail := EncodeItems(items[1..]) + [END] + rest;
      ItemsShape(items, rest);
      ValueRoundTrip(items[0], tail);
      ItemsRoundTrip(items[1..], rest);
      ListItemsStep(Encode(items[0]) + tail, items[0], tail, items[1..], rest);
      assert [items[0]] + items[1..] == items;
    }
  }

  lemma {:induction false} EntriesRoundTrip(m: map<ByteString, Value>, keys: seq<ByteString>,
                                            acc: map<ByteString, Value>, rest: seq<Byte>)
    requires forall i :: 0 <= i < |keys| ==> keys[i] in m
    ensures DecodeDictItems(EncodeEntries(m, keys) + [END] + rest, acc) == Ok((acc + Restrict(m, keys), rest))
    decreases Dict(m), 1, |keys|
  {
    if |keys| == 0 {
      assert EncodeEntries(m, keys) + [END] + rest == [END] + rest;
      assert ([END] + rest)[1..] == rest;
      assert Restrict(m, keys) == map[];
      assert acc + map[] == acc;
    } else {
      var k := keys[0];
      var afterValue := EncodeEntries(m, keys[1..]) + [END] + rest;
      var afterKey := Encode(m[k]) + afterValue;
      EntriesShape(m, keys, rest);
      StringRoundTrip(k, afterKey);
      ValueRoundTrip(m[k], afterValue);
      DictItemsStep(EncodeString(k) + afterKey, acc, k, afterKey, m[k], afterValue);
      EntriesRoundTrip(m, keys[1..], acc[k := m[k]], rest);
      RestrictStep(m, keys, acc);
    }
  }

  /** A dictionary entry written by the encoder is read back as one
      insertion into the accumulated map. */
  lemma EntryThen(k: ByteString, v: Value, after: seq<Byte>, acc: map<ByteString, Value>)
    ensures DecodeDictItems(EncodeString(k) + (Encode(v) + after), acc) == DecodeDictItems(after, acc[k := v])
  {
    StringRoundTrip(k, Encode(v) + after);
    ValueRoundTrip(v, after);
    DictItemsStep(EncodeString(k) + (Encode(v) + after), acc, k, Encode(v) + after, v, after);
  }

  lemma RestrictStep(m: map<ByteString, Value>, keys: seq<ByteString>, acc: map<ByteString, Value>)
    requires |keys| > 0 && keys[0] in m
    ensures acc[keys[0] := m[keys[0]]] + Restrict(m, keys[1..]) == acc + Restrict(m, keys)
  {
    var l := acc[keys[0] := m[keys[0]]] + Restrict(m, keys[1..]);
    var r := acc + Restrict(m, keys);
    forall k | k in keys
      ensures k == keys[0] || k in keys[1..]
    {
    }
    assert l.Keys == r.Keys;
  }

  /* How each encoding splits into its first part and the rest. */

  lemma ListShape(items: seq<Value>, rest: seq<Byte>)
    ensures Encode(List(items)) + rest == [LIST_START] + (EncodeItems(items) + [END] + rest)
  {
  }

  lemma DictShape(m: map<ByteString, Value>, rest: seq<Byte>)
    ensures Encode(Dict(m)) + rest == [DICT_START] + (EncodeEntries(m, SortedKeys(m.Keys)) + [END] + rest)
  {
  }

  lemma ItemsShape(items: seq<Value>, rest: seq<Byte>)
    requires |items| > 0
    ensures EncodeItems(items) + [END] + rest == Encode(items[0]) + (EncodeItems(items[1..]) + [END] + rest)
  {
    var first := Encode(items[0]);
    var more := EncodeItems(items[1..]);
    assert EncodeItems(items) == first + more;
    assert first + more + [END] + rest == first + (more + [END] + rest);
  }

  lemma EntriesShape(m: map<ByteString, Value>, keys: seq<ByteString>, rest: seq<Byte>)
    requires |keys| > 0
    requires forall i :: 0 <= i < |keys| ==> keys[i] in m
    ensures EncodeEntries(m, keys) + [END] + rest
              == EncodeString(keys[0]) + (Encode(m[keys[0]]) + (EncodeEntries(m, keys[1..]) + [END] + rest))
  {
  }

  /** Two values with the same encoding are equal: the bytes that are hashed
      for the info-hash determine the info dictionary. */
  lemma EncodeInjective(v: Value, w: Value)
    ensures Encode(v) == Encode(w) ==> v == w
  {
    if Encode(v) == Encode(w) {
      ValueRoundTrip(v, []);
      ValueRoundTrip(w, []);
      assert Encode(v) + [] == Encode(v) && Encode(w) + [] == Encode(w);
    }
  }

  /** Bytes that are the canonical encoding of a value decode to it, and
      re-encoding the result reproduces the bytes exactly. */
  lemma CanonicalBytesReencode(b: seq<Byte>, v: Value)
    requires b == Encode(v)
    ensures DecodeNext(b) == Ok((v, []))
    ensures Encode(DecodeNext(b).value.0) == b
  {
    ValueRoundTrip(v, []);
    assert b + [] == b;
  }
}
