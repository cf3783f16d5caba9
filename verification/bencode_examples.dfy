/** Worked bencode examples: the encodings of small values, and how the
    decoder treats canonical, non-canonical and malformed inputs. Byte
    strings are written as byte values with their text alongside. */
module BencodeExamples {
  import opened Common
  import opened Utf8
  import opened Decimal
  import opened Bencode
  import opened ByteOrder
  import opened Decoder
  import opened Encoder
  import opened RoundTrip
  import opened DecoderFacts

  const SPAM: ByteString := [115, 112, 97, 109] // "spam"
  const KEY_A: ByteString := [97]               // "a"
  const KEY_B: ByteString := [98]               // "b"

  const SPAM_WIRE: seq<Byte> := [52, 58, 115, 112, 97, 109] // "4:spam"
  const FORTY_TWO_WIRE: seq<Byte> := [105, 52, 50, 101] // "i42e"
  const SPAM_LIST_WIRE: seq<Byte> := [108, 52, 58, 115, 112, 97, 109, 105, 52, 50, 101, 101] // "l4:spami42ee"
  const SORTED_DICT_WIRE: seq<Byte> := [100, 49, 58, 97, 105, 50, 101, 49, 58, 98, 105, 49, 101, 101] // "d1:ai2e1:bi1ee"
  const REPEATED_KEY_WIRE: seq<Byte> := [100, 49, 58, 97, 105, 49, 101, 49, 58, 97, 105, 50, 101, 101] // "d1:ai1e1:ai2ee"
  const EMPTY_LIST_WIRE: seq<Byte> := [108, 101] // "le"
  const ZERO_WIRE: seq<Byte> := [105, 48, 101] // "i0e"
  const LEADING_ZERO_WIRE: seq<Byte> := [105, 48, 51, 101] // "i03e"
  const NEGATIVE_ZERO_WIRE: seq<Byte> := [105, 45, 48, 101] // "i-0e"
  const EMPTY_INTEGER_WIRE: seq<Byte> := [105, 101] // "ie"
  const NEGATIVE_LEADING_ZERO_WIRE: seq<Byte> := [105, 45, 48, 51, 101] // "i-03e"
  const MINUS_THREE_WIRE: seq<Byte> := [105, 45, 51, 101] // "i-3e"
  const PLUS_FIVE_WIRE: seq<Byte> := [105, 43, 53, 101] // "i+5e"
  const FIVE_WIRE: seq<Byte> := [105, 53, 101] // "i5e"
  const SHORT_STRING_WIRE: seq<Byte> := [53, 58, 104, 105] // "5:hi"
  const NO_VALUE_WIRE: seq<Byte> := [120] // "x"
  const PLUS_KEY_WIRE: seq<Byte> := [43, 49, 58, 97] // "+1:a"
  const PLUS_KEY_DICT_WIRE: seq<Byte> := [100, 43, 49, 58, 97, 105, 49, 101, 101] // "d+1:ai1ee"
  const BAD_ITEM_LIST_WIRE: seq<Byte> := [108, 105, 48, 51, 101, 101] // "li03ee"
  const BAD_VALUE_DICT_WIRE: seq<Byte> := [100, 49, 58, 97, 105, 48, 51, 101, 101] // "d1:ai03ee"

  /** `4:spam` is the encoding of "spam". */
  lemma SpamEncoding()
    ensures Encode(String(SPAM)) == SPAM_WIRE
  {
    assert NatToDecimal(4) == [52];
  }

  /** `i42e` is the encoding of 42. */
  lemma FortyTwoEncoding()
    ensures Encode(Integer(42)) == FORTY_TWO_WIRE
  {
    assert NatToDecimal(4) == [52];
    assert NatToDecimal(42) == [52, 50];
  }

  /** The encoding of a two-item list. */
  lemma TwoItemList(a: Value, b: Value)
    ensures Encode(List([a, b])) == [LIST_START] + Encode(a) + Encode(b) + [END]
  {
    var items := [a, b];
    assert items[1..] == [b] && items[1..][1..] == [];
    assert EncodeItems(items[1..]) == Encode(b) + [];
    assert EncodeItems(items) == Encode(a) + Encode(b);
  }

  /** `l4:spami42ee` is the encoding of the list ["spam", 42]. */
  lemma SpamListEncoding()
    ensures Encode(List([String(SPAM), Integer(42)]))
              == SPAM_LIST_WIRE
  {
    SpamEncoding();
    FortyTwoEncoding();
    TwoItemList(String(SPAM), Integer(42));
  }

  /** Each of these canonical encodings decodes back to its value. */
  lemma CanonicalExamplesDecode()
    ensures DecodeNext(SPAM_WIRE) == Ok((String(SPAM), []))
    ensures DecodeNext(FORTY_TWO_WIRE) == Ok((Integer(42), []))
    ensures DecodeNext(SPAM_LIST_WIRE)
              == Ok((List([String(SPAM), Integer(42)]), []))
  {
    SpamEncoding();
    CanonicalBytesReencode(SPAM_WIRE, String(SPAM));
    FortyTwoEncoding();
    CanonicalBytesReencode(FORTY_TWO_WIRE, Integer(42));
    SpamListEncoding();
    CanonicalBytesReencode(SPAM_LIST_WIRE, List([String(SPAM), Integer(42)]));
  }

  /** "a" sorts before "b". */
  lemma KeysAB(m: map<ByteString, Value>)
    requires m.Keys == {KEY_A, KEY_B}
    ensures SortedKeys(m.Keys) == [KEY_A, KEY_B]
  {
    assert Less(KEY_A, KEY_B);
    SortedEnumerationUnique([KEY_A, KEY_B], m.Keys);
  }

  /** The encoding of a two-entry dictionary whose keys sort as `k1`, `k2`. */
  lemma TwoEntryDict(m: map<ByteString, Value>, k1: ByteString, k2: ByteString)
    requires SortedKeys(m.Keys) == [k1, k2] && k1 in m && k2 in m
    ensures Encode(Dict(m)) == [DICT_START] + EncodeString(k1) + Encode(m[k1]) + EncodeString(k2) + Encode(m[k2]) + [END]
  {
    var keys := [k1, k2];
    var first, second := EncodeString(k1) + Encode(m[k1]), EncodeString(k2) + Encode(m[k2]);
    assert keys[1..] == [k2] && keys[1..][1..] == [];
    assert EncodeEntries(m, keys[1..]) == second + [];
    assert EncodeEntries(m, keys) == first + second;
    assert Encode(Dict(m)) == [DICT_START] + (first + second) + [END];
  }

  /** {"b": 1, "a": 2}, written with "b" first. */
  const UNSORTED: map<ByteString, Value> := map[KEY_B := Integer(1), KEY_A := Integer(2)]

  /** The encoder sorts the keys: {"b": 1, "a": 2} is `d1:ai2e1:bi1ee`. */
  lemma SortedDict()
    ensures Encode(Dict(UNSORTED)) == SORTED_DICT_WIRE
  {
    SortedDictParts();
    SmallEncodings();
  }

  lemma SortedDictParts()
    ensures Encode(Dict(UNSORTED))
              == [DICT_START] + EncodeString(KEY_A) + Encode(Integer(2)) + EncodeString(KEY_B) + Encode(Integer(1)) + [END]
  {
    assert UNSORTED.Keys == {KEY_A, KEY_B};
    assert UNSORTED[KEY_A] == Integer(2) && UNSORTED[KEY_B] == Integer(1);
    KeysAB(UNSORTED);
    TwoEntryDict(UNSORTED, KEY_A, KEY_B);
  }

  lemma SmallEncodings()
    ensures EncodeString(KEY_A) == [49, 58, 97]
    ensures EncodeString(KEY_B) == [49, 58, 98]
    ensures Encode(Integer(1)) == [105, 49, 101]
    ensures Encode(Integer(2)) == [105, 50, 101]
  {
    assert NatToDecimal(1) == [49] && NatToDecimal(2) == [50];
  }

  /** A repeated key keeps its last value: `d1:ai1e1:ai2ee` is {"a": 2}. */
  lemma RepeatedKey()
    ensures DecodeNext(REPEATED_KEY_WIRE)
              == Ok((Dict(map[KEY_A := Integer(2)]), []))
  {
    RepeatedKeyBytes();
    TwoEntries(KEY_A, Integer(1), KEY_A, Integer(2), []);
    assert map[KEY_A := Integer(1)][KEY_A := Integer(2)] == map[KEY_A := Integer(2)];
  }

  lemma RepeatedKeyBytes()
    ensures [DICT_START] + (EncodeString(KEY_A) + (Encode(Integer(1)) + (EncodeString(KEY_A) + (Encode(Integer(2)) + ([END] + [])))))
              == REPEATED_KEY_WIRE
  {
    SmallEncodings();
  }

  /** `le` is the empty list. */
  lemma EmptyListExample()
    ensures DecodeNext(EMPTY_LIST_WIRE) == Ok((List([]), []))
  {
    EmptyList([]);
    assert [LIST_START, END] + [] == EMPTY_LIST_WIRE;
  }

  const HELLO: ByteString := [104, 101, 108, 108, 111] // "hello"
  const FOO: ByteString := [102, 111, 111]           // "foo"
  const BAR: ByteString := [98, 97, 114]             // "bar"
  const KEY: ByteString := [107, 101, 121]           // "key"

  const HELLO_WIRE: seq<Byte> := [53, 58, 104, 101, 108, 108, 111] // "5:hello"
  const ONE_HELLO_WIRE: seq<Byte> := [108, 105, 49, 101, 53, 58, 104, 101, 108, 108, 111, 101] // "li1e5:helloe"
  const FOO_BAR_WIRE: seq<Byte> := [100, 51, 58, 102, 111, 111, 51, 58, 98, 97, 114, 101] // "d3:foo3:bare"
  const KEY_42_WIRE: seq<Byte> := [100, 51, 58, 107, 101, 121, 105, 52, 50, 101, 101] // "d3:keyi42ee"

  /** `5:hello` and "hello" correspond in both directions. */
  lemma HelloString()
    ensures Encode(String(HELLO)) == HELLO_WIRE
    ensures DecodeNext(HELLO_WIRE) == Ok((String(HELLO), []))
  {
    assert NatToDecimal(5) == [53];
    CanonicalBytesReencode(HELLO_WIRE, String(HELLO));
  }

  /** `li1e5:helloe` is the encoding of [1, "hello"]. */
  lemma OneHelloEncoding()
    ensures Encode(List([Integer(1), String(HELLO)])) == ONE_HELLO_WIRE
  {
    SmallEncodings();
    assert NatToDecimal(5) == [53];
    TwoItemList(Integer(1), String(HELLO));
  }

  /** `li1e5:helloe` decodes to [1, "hello"]. */
  lemma OneHelloList()
    ensures DecodeNext(ONE_HELLO_WIRE) == Ok((List([Integer(1), String(HELLO)]), []))
  {
    OneHelloEncoding();
    CanonicalBytesReencode(ONE_HELLO_WIRE, List([Integer(1), String(HELLO)]));
  }

  /** The encoding of a one-entry dictionary. */
  lemma OneEntryDict(m: map<ByteString, Value>, k: ByteString)
    requires m.Keys == {k}
    ensures Encode(Dict(m)) == [DICT_START] + EncodeString(k) + Encode(m[k]) + [END]
  {
    SortedEnumerationUnique([k], m.Keys);
    var keys := [k];
    assert keys[1..] == [];
    assert EncodeEntries(m, keys) == EncodeString(k) + Encode(m[k]) + [];
  }

  /** `d3:foo3:bare` and {"foo": "bar"} correspond in both directions. */
  lemma FooBarDict()
    ensures Encode(Dict(map[FOO := String(BAR)])) == FOO_BAR_WIRE
    ensures DecodeNext(FOO_BAR_WIRE) == Ok((Dict(map[FOO := String(BAR)]), []))
  {
    var m := map[FOO := String(BAR)];
    assert m.Keys == {FOO};
    OneEntryDict(m, FOO);
    ThreeLetterEncodings();
    CanonicalBytesReencode(FOO_BAR_WIRE, Dict(m));
  }

  /** `d3:keyi42ee` and {"key": 42} correspond in both directions. */
  lemma Key42Dict()
    ensures Encode(Dict(map[KEY := Integer(42)])) == KEY_42_WIRE
    ensures DecodeNext(KEY_42_WIRE) == Ok((Dict(map[KEY := Integer(42)]), []))
  {
    var m := map[KEY := Integer(42)];
    assert m.Keys == {KEY};
    OneEntryDict(m, KEY);
    ThreeLetterEncodings();
    FortyTwoEncoding();
    CanonicalBytesReencode(KEY_42_WIRE, Dict(m));
  }

  lemma ThreeLetterEncodings()
    ensures EncodeString(FOO) == [51, 58, 102, 111, 111]
    ensures Encode(String(BAR)) == [51, 58, 98, 97, 114]
    ensures EncodeString(KEY) == [51, 58, 107, 101, 121]
  {
    assert NatToDecimal(3) == [51];
  }

  /** `i0e` is zero. */
  lemma ZeroExample()
    ensures DecodeNext(ZERO_WIRE) == Ok((Integer(0), []))
  {
    var numeral := [48];
    AsciiIsUtf8(numeral);
    assert DigitsValue(numeral) == 0;
    IntegerAccepted(numeral, []);
    assert [INT_START] + numeral + [END] + [] == ZERO_WIRE;
  }

  /** `i03e`, `i-0e` and `ie` are rejected with InvalidInteger. */
  lemma RejectedIntegers()
    ensures DecodeNext(LEADING_ZERO_WIRE) == Err(InvalidInteger)
    ensures DecodeNext(NEGATIVE_ZERO_WIRE) == Err(InvalidInteger)
    ensures DecodeNext(EMPTY_INTEGER_WIRE) == Err(InvalidInteger)
  {
    RejectedExample(LEADING_ZERO_WIRE, [48, 51]);
    RejectedExample(NEGATIVE_ZERO_WIRE, [45, 48]);
    RejectedExample(EMPTY_INTEGER_WIRE, []);
  }

  /** A rejected item or value makes the whole container fail with its
      error: `li03ee` and `d1:ai03ee` are InvalidInteger. */
  lemma RejectedInsideContainers()
    ensures DecodeNext(BAD_ITEM_LIST_WIRE) == Err(InvalidInteger)
    ensures DecodeNext(BAD_VALUE_DICT_WIRE) == Err(InvalidInteger)
  {
    BadItemList();
    BadValueDict();
  }

  /** `i03e` followed by anything is InvalidInteger. */
  lemma LeadingZeroThen(rest: seq<Byte>)
    ensures DecodeNext(LEADING_ZERO_WIRE + rest) == Err(InvalidInteger)
  {
    AsciiIsUtf8([48, 51]);
    IntegerRejected([48, 51], rest);
    assert LEADING_ZERO_WIRE + rest == [INT_START] + [48, 51] + [END] + rest;
  }

  lemma BadItemList()
    ensures DecodeNext(BAD_ITEM_LIST_WIRE) == Err(InvalidInteger)
  {
    var item := LEADING_ZERO_WIRE + [END];
    LeadingZeroThen([END]);
    ListItemFails(item);
    assert BAD_ITEM_LIST_WIRE == [LIST_START] + item;
    NextOnListFails(item);
  }

  lemma BadValueDict()
    ensures DecodeNext(BAD_VALUE_DICT_WIRE) == Err(InvalidInteger)
  {
    var value := LEADING_ZERO_WIRE + [END];
    LeadingZeroThen([END]);
    SmallEncodings();
    assert BAD_VALUE_DICT_WIRE == [DICT_START] + (EncodeString(KEY_A) + value);
    FailingValue(KEY_A, value);
  }

  /** A first value that fails makes the dictionary fail with its error. */
  lemma FailingValue(k: ByteString, value: seq<Byte>)
    requires DecodeNext(value).Err?
    ensures DecodeNext([DICT_START] + (EncodeString(k) + value)) == Err(DecodeNext(value).error)
  {
    var entries := EncodeString(k) + value;
    StringRoundTrip(k, value);
    DictValueFails(entries, map[], k, value);
    NextOnDictFails(entries);
  }

  /** An ASCII numeral that fails a check of `decode_integer` is rejected,
      between `i` and `e`, with InvalidInteger. */
  lemma RejectedExample(s: seq<Byte>, numeral: seq<Byte>)
    requires s == [INT_START] + numeral + [END]
    requires forall i :: 0 <= i < |numeral| ==> numeral[i] < 0x80 && numeral[i] != END
    requires RejectedNumeral(numeral)
    ensures DecodeNext(s) == Err(InvalidInteger)
  {
    AsciiIsUtf8(numeral);
    IntegerRejected(numeral, []);
    assert s + [] == s;
  }

  /** Only the first byte of a numeral is checked for a zero: `i-03e` is
      -3, although -3 is encoded `i-3e`. */
  lemma NegativeLeadingZero()
    ensures DecodeNext(NEGATIVE_LEADING_ZERO_WIRE) == Ok((Integer(-3), []))
    ensures Encode(Integer(-3)) == MINUS_THREE_WIRE
  {
    var numeral := [45, 48, 51];
    NonCanonicalNumerals();
    AcceptedNumeral(NEGATIVE_LEADING_ZERO_WIRE, numeral, -3);
    CanonicalSmallIntegers();
  }

  /** The sign `+` is accepted: `i+5e` is 5, although 5 is encoded `i5e`. */
  lemma PlusSign()
    ensures DecodeNext(PLUS_FIVE_WIRE) == Ok((Integer(5), []))
    ensures Encode(Integer(5)) == FIVE_WIRE
  {
    var numeral := [43, 53];
    NonCanonicalNumerals();
    AcceptedNumeral(PLUS_FIVE_WIRE, numeral, 5);
    CanonicalSmallIntegers();
  }

  lemma CanonicalSmallIntegers()
    ensures Encode(Integer(-3)) == MINUS_THREE_WIRE
    ensures Encode(Integer(5)) == FIVE_WIRE
  {
    assert NatToDecimal(3) == [51] && NatToDecimal(5) == [53];
  }

  lemma NonCanonicalNumerals()
    ensures !RejectedNumeral([45, 48, 51]) && ParseI64([45, 48, 51]) == Some(-3)
    ensures !RejectedNumeral([43, 53]) && ParseI64([43, 53]) == Some(5)
  {
    LeadingZerosAndPlusAccepted();
  }

  /** An ASCII numeral that passes the checks of `decode_integer` and
      parses to `n` decodes, between `i` and `e`, to `n`. */
  lemma AcceptedNumeral(s: seq<Byte>, numeral: seq<Byte>, n: I64)
    requires s == [INT_START] + numeral + [END]
    requires forall i :: 0 <= i < |numeral| ==> numeral[i] < 0x80 && numeral[i] != END
    requires !RejectedNumeral(numeral) && ParseI64(numeral) == Some(n)
    ensures DecodeNext(s) == Ok((Integer(n), []))
  {
    AsciiIsUtf8(numeral);
    IntegerAccepted(numeral, []);
    assert s + [] == s;
  }

  /** `5:hi` announces more bytes than there are: UnexpectedEOI. */
  lemma ShortString()
    ensures DecodeNext(SHORT_STRING_WIRE) == Err(UnexpectedEOI)
  {
    AsciiIsUtf8([53]);
    assert DigitsValue([53]) == 5;
    StringTooShort([53], [104, 105], 5);
    assert [53] + [COLON] + [104, 105] == SHORT_STRING_WIRE;
  }

  /** A length written in decimal that is a valid `usize` but more than
      any `Vec` may hold (`18446744073709551615:x` among them): the
      allocation panics before any byte of the string is read. */
  lemma OversizedLengthPrefix(n: nat, rest: seq<Byte>)
    requires ISIZE_MAX < n <= USIZE_MAX
    ensures DecodeNext(NatToDecimal(n) + [COLON] + rest) == Err(CapacityOverflow)
  {
    var header := NatToDecimal(n);
    ParseUsizeOfDecimal(n);
    AsciiIsUtf8(header);
    assert COLON !in header by {
      assert forall i :: 0 <= i < |header| ==> IsDigit(header[i]);
    }
    StringCapacityOverflow(header, rest, n);
    assert (header + [COLON] + rest)[0] == header[0];
  }

  /** `x` starts no value: InvalidFormat. */
  lemma NoValue()
    ensures DecodeNext(NO_VALUE_WIRE) == Err(InvalidFormat)
  {
    NextDispatch([120]);
  }

  /** A `+` before a length is accepted by `decode_string`, so it is
      accepted for a dictionary key; `decode_next` dispatches to
      `decode_string` only on a digit, so as a value it is InvalidFormat. */
  lemma PlusPrefixOnlyForKeys()
    ensures DecodeNext(PLUS_KEY_WIRE) == Err(InvalidFormat)
    ensures DecodeString(PLUS_KEY_WIRE) == Ok((KEY_A, []))
    ensures DecodeNext(PLUS_KEY_DICT_WIRE) == Ok((Dict(map[KEY_A := Integer(1)]), []))
  {
    NextDispatch(PLUS_KEY_WIRE);
    PlusKey([]);
    assert PLUS_KEY_WIRE + [] == PLUS_KEY_WIRE;
    SmallEncodings();
    assert PLUS_KEY_DICT_WIRE == [DICT_START] + (PLUS_KEY_WIRE + (Encode(Integer(1)) + [END]));
    PlusKeyEntry(Integer(1));
  }

  /** `d+1:a`, any value, then `e` is the dictionary with that value at `a`. */
  lemma PlusKeyEntry(v: Value)
    ensures DecodeNext([DICT_START] + (PLUS_KEY_WIRE + (Encode(v) + [END]))) == Ok((Dict(map[KEY_A := v]), []))
  {
    var body := PLUS_KEY_WIRE + (Encode(v) + [END]);
    PlusKey(Encode(v) + [END]);
    ValueRoundTrip(v, [END]);
    DictItemsStep(body, map[], KEY_A, Encode(v) + [END], v, [END]);
    assert [END][1..] == [];
    assert DecodeDictItems([END], map[KEY_A := v]) == Ok((map[KEY_A := v], []));
    NextOnDict(body, map[KEY_A := v], []);
  }

  /** `+1:a` followed by anything is the key `a`. */
  lemma PlusKey(rest: seq<Byte>)
    ensures DecodeString(PLUS_KEY_WIRE + rest) == Ok((KEY_A, rest))
  {
    AsciiIsUtf8([PLUS, 49]);
    assert ParseUsize([PLUS, 49]) == Some(1) by {
      assert [PLUS, 49][1..] == [49] && [49][..0] == [];
    }
    StringTakesExactlyN([PLUS, 49], [97] + rest, 1);
    assert PLUS_KEY_WIRE + rest == [PLUS, 49] + [COLON] + ([97] + rest);
    assert ([97] + rest)[..1] == KEY_A && ([97] + rest)[1..] == rest;
  }
}
