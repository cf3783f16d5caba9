/** What the decoder does with each shape of input: exact lengths, the
    error kind of each rejection, dispatch on the first byte, and the
    treatment of lists and dictionaries. */
module DecoderFacts {
  import opened Common
  import opened Utf8
  import opened Decimal
  import opened Bencode
  import opened Decoder
  import opened Encoder
  import opened RoundTrip

  /* ---------- decode_string ---------- */

  /** With a length prefix `n` that can be allocated and at least `n`
      bytes after the colon, the string is exactly those `n` bytes and the
      rest is left unread. */
  lemma StringTakesExactlyN(header: seq<Byte>, body: seq<Byte>, n: nat)
    requires COLON !in header && ValidUtf8(header)
    requires ParseUsize(header) == Some(n) && n <= ISIZE_MAX && n <= |body|
    ensures DecodeString(header + [COLON] + body) == Ok((body[..n], body[n..]))
  {
    ReadUntilFirst(header, COLON, body);
  }

  /** A length prefix that can be allocated, with fewer than `n` bytes
      after the colon: UnexpectedEOI. */
  lemma StringTooShort(header: seq<Byte>, body: seq<Byte>, n: nat)
    requires COLON !in header && ValidUtf8(header)
    requires ParseUsize(header) == Some(n) && n <= ISIZE_MAX && |body| < n
    ensures DecodeString(header + [COLON] + body) == Err(UnexpectedEOI)
  {
    ReadUntilFirst(header, COLON, body);
  }

  /** A `usize` length prefix above `isize::MAX` (such as
      18446744073709551615): the up-front allocation panics, whatever
      follows the colon. */
  lemma StringCapacityOverflow(header: seq<Byte>, body: seq<Byte>, n: nat)
    requires COLON !in header && ValidUtf8(header)
    requires ParseUsize(header) == Some(n) && n > ISIZE_MAX
    ensures DecodeString(header + [COLON] + body) == Err(CapacityOverflow)
  {
    ReadUntilFirst(header, COLON, body);
  }

  /** A length prefix that is not a `usize` (empty, a non-digit, or too
      large): InvalidStringLength. */
  lemma StringBadLength(header: seq<Byte>, body: seq<Byte>)
    requires COLON !in header && ValidUtf8(header)
    requires ParseUsize(header) == None
    ensures DecodeString(header + [COLON] + body) == Err(InvalidStringLength)
  {
    ReadUntilFirst(header, COLON, body);
  }

  /** No colon at all: UnexpectedEOI. */
  lemma StringNoColon(s: seq<Byte>)
    requires COLON !in s
    ensures DecodeString(s) == Err(UnexpectedEOI)
  {
  }

  /** A decoded string starts with a digit or `+`: that is what a `usize`
      may start with. */
  lemma StringStartsWithLength(s: seq<Byte>)
    requires DecodeString(s).Ok?
    ensures |s| > 0 && (IsDigit(s[0]) || s[0] == PLUS)
  {
    var header := ReadUntil(s, COLON).value;
    assert ParseUsize(header.0).Some?;
    assert s[0] == header.0[0];
  }

  /* ---------- decode_integer ---------- */

  /** The numeral checks of `decode_integer`, in the order the source makes
      them, all reject with InvalidInteger. */
  predicate RejectedNumeral(numeral: seq<Byte>) {
    (|numeral| > 1 && numeral[0] == ZERO)
    || numeral == [MINUS, ZERO]
    || |numeral| == 0
    || ParseI64(numeral) == None
  }

  lemma IntegerRejected(numeral: seq<Byte>, rest: seq<Byte>)
    requires END !in numeral && ValidUtf8(numeral)
    requires RejectedNumeral(numeral)
    ensures DecodeInteger([INT_START] + numeral + [END] + rest) == Err(InvalidInteger)
  {
    var s := [INT_START] + numeral + [END] + rest;
    assert s[1..] == numeral + [END] + rest;
    ReadUntilFirst(numeral, END, rest);
  }

  lemma IntegerAccepted(numeral: seq<Byte>, rest: seq<Byte>)
    requires END !in numeral && ValidUtf8(numeral)
    requires !RejectedNumeral(numeral)
    ensures DecodeInteger([INT_START] + numeral + [END] + rest) == Ok((ParseI64(numeral).value, rest))
  {
    var s := [INT_START] + numeral + [END] + rest;
    assert s[1..] == numeral + [END] + rest;
    ReadUntilFirst(numeral, END, rest);
  }

  /** Input that does not start with `i` is not an integer. */
  lemma IntegerNeedsMarker(s: seq<Byte>)
    requires |s| > 0 && s[0] != INT_START
    ensures DecodeInteger(s) == Err(InvalidFormat)
  {
  }

  /** No closing `e`: UnexpectedEOI. */
  lemma IntegerNoEnd(s: seq<Byte>)
    requires |s| > 0 && s[0] == INT_START && END !in s[1..]
    ensures DecodeInteger(s) == Err(UnexpectedEOI)
  {
  }

  /* ---------- decode_next ---------- */

  /** `decode_next` dispatches on the first byte: empty input is
      UnexpectedEOI, a byte that starts no value is InvalidFormat, and a
      decoded value's variant is the one its first byte announces. */
  lemma NextDispatch(s: seq<Byte>)
    ensures |s| == 0 ==> DecodeNext(s) == Err(UnexpectedEOI)
    ensures |s| > 0 && !StartsValue(s[0]) ==> DecodeNext(s) == Err(InvalidFormat)
    ensures DecodeNext(s).Ok? ==> (DecodeNext(s).value.0.String? <==> IsDigit(s[0]))
    ensures DecodeNext(s).Ok? ==> (DecodeNext(s).value.0.Integer? <==> s[0] == INT_START)
    ensures DecodeNext(s).Ok? ==> (DecodeNext(s).value.0.List? <==> s[0] == LIST_START)
    ensures DecodeNext(s).Ok? ==> (DecodeNext(s).value.0.Dict? <==> s[0] == DICT_START)
  {
  }

  /* ---------- decode_list ---------- */

  /** `le` is the empty list. */
  lemma EmptyList(rest: seq<Byte>)
    ensures DecodeNext([LIST_START, END] + rest) == Ok((List([]), rest))
  {
    var body := [END] + rest;
    assert body[1..] == rest;
    NextOnList(body, [], rest);
    assert [LIST_START] + body == [LIST_START, END] + rest;
  }

  /** Items without the closing `e`: UnexpectedEOI. */
  lemma {:induction false} ItemsWithoutEnd(items: seq<Value>)
    ensures DecodeListItems(EncodeItems(items)) == Err(UnexpectedEOI)
    decreases |items|
  {
    if |items| > 0 {
      var tail := EncodeItems(items[1..]);
      assert EncodeItems(items) == Encode(items[0]) + tail;
      ValueRoundTrip(items[0], tail);
      ItemsWithoutEnd(items[1..]);
    }
  }

  /** An item that fails to decode ends the list loop with its error. */
  lemma ListItemFails(s: seq<Byte>)
    requires |s| > 0 && s[0] != END && DecodeNext(s).Err?
    ensures DecodeListItems(s) == Err(DecodeNext(s).error)
  {
  }

  /** After a decoded item, a failure further on is the list's failure. */
  lemma ListTailFails(s: seq<Byte>, first: Value, afterFirst: seq<Byte>)
    requires |s| > 0 && s[0] != END
    requires DecodeNext(s) == Ok((first, afterFirst)) && DecodeListItems(afterFirst).Err?
    ensures DecodeListItems(s) == Err(DecodeListItems(afterFirst).error)
  {
  }

  lemma ListWithoutEnd(items: seq<Value>)
    ensures DecodeNext([LIST_START] + EncodeItems(items)) == Err(UnexpectedEOI)
  {
    var s := [LIST_START] + EncodeItems(items);
    assert s[1..] == EncodeItems(items);
    ItemsWithoutEnd(items);
  }

  /* ---------- decode_dict ---------- */

  /** Two entries in whatever order: both are inserted, the second
      overwriting the first when the keys are equal. So a repeated key keeps
      its last value, and keys out of order are accepted. */
  lemma TwoEntries(k1: ByteString, v1: Value, k2: ByteString, v2: Value, rest: seq<Byte>)
    ensures DecodeNext([DICT_START] + (EncodeString(k1) + (Encode(v1) + (EncodeString(k2) + (Encode(v2) + ([END] + rest))))))
              == Ok((Dict(map[k1 := v1][k2 := v2]), rest))
  {
    TwoEntryItems(k1, v1, k2, v2, rest);
    NextOnDict(EncodeString(k1) + (Encode(v1) + (EncodeString(k2) + (Encode(v2) + ([END] + rest)))),
               map[k1 := v1][k2 := v2], rest);
  }

  lemma TwoEntryItems(k1: ByteString, v1: Value, k2: ByteString, v2: Value, rest: seq<Byte>)
    ensures DecodeDictItems(EncodeString(k1) + (Encode(v1) + (EncodeString(k2) + (Encode(v2) + ([END] + rest)))), map[])
              == Ok((map[k1 := v1][k2 := v2], rest))
  {
    var afterV2 := [END] + rest;
    var afterV1 := EncodeString(k2) + (Encode(v2) + afterV2);
    EntryThen(k1, v1, afterV1, map[]);
    EntryThen(k2, v2, afterV2, map[k1 := v1]);
    assert afterV2[1..] == rest;
  }

  /** A key that fails to decode ends the dictionary loop with its error. */
  lemma DictKeyFails(s: seq<Byte>, acc: map<ByteString, Value>)
    requires |s| > 0 && s[0] != END && DecodeString(s).Err?
    ensures DecodeDictItems(s, acc) == Err(DecodeString(s).error)
  {
  }

  /** A value that fails to decode after its key ends the dictionary loop
      with its error. */
  lemma DictValueFails(s: seq<Byte>, acc: map<ByteString, Value>, key: ByteString, afterKey: seq<Byte>)
    requires |s| > 0 && s[0] != END
    requires DecodeString(s) == Ok((key, afterKey)) && DecodeNext(afterKey).Err?
    ensures DecodeDictItems(s, acc) == Err(DecodeNext(afterKey).error)
  {
  }

  /** A dictionary key must be a byte string: an entry starting with any
      byte other than a length digit, `+` or the closing `e` fails. */
  lemma DictKeyMustBeString(s: seq<Byte>, acc: map<ByteString, Value>)
    requires |s| > 0 && !IsDigit(s[0]) && s[0] != PLUS && s[0] != END
    ensures DecodeDictItems(s, acc).Err?
  {
    if DecodeString(s).Ok? {
      StringStartsWithLength(s);
    }
  }
}
