/** The recursive-descent bencode decoder. The Rust decoder reads from a
    peekable byte stream; here every step is a function of the remaining
    input that returns the decoded item together with the input left after
    it, so "the stream is left just after the value" is a statement about
    that second component. */
module Decoder {
  import opened Common
  import opened Utf8
  import opened Decimal
  import opened Bencode

  /** A decoding step: the item and the input that follows it. */
  type Decoded<T> = Result<(T, seq<Byte>), DecodeError>

  /** A successful step consumed at least one byte and left a suffix of its
      input unread. */
  predicate Consumes<T>(s: seq<Byte>, r: Decoded<T>) {
    r.Ok? ==> |r.value.1| < |s| && r.value.1 == s[|s| - |r.value.1|..]
  }

  lemma SuffixOfSuffix(s: seq<Byte>, t: seq<Byte>, u: seq<Byte>)
    requires |t| <= |s| && t == s[|s| - |t|..]
    requires |u| <= |t| && u == t[|t| - |u|..]
    ensures u == s[|s| - |u|..]
  {
  }

  /** `read_until` on input whose first `delim` follows `token`: it returns
      `token` and leaves everything after the delimiter, or fails with
      InvalidFormat when `token` is not UTF-8. */
  lemma ReadUntilFirst(token: seq<Byte>, delim: Byte, rest: seq<Byte>)
    requires delim !in token
    ensures ReadUntil(token + [delim] + rest, delim)
              == if ValidUtf8(token) then Ok((token, rest)) else Err(InvalidFormat)
  {
    var s := token + [delim] + rest;
    var i := Find(s, delim);
    assert s[|token|] == delim;
    assert s[..|token|] == token;
    assert i == |token|;
    assert s[i + 1..] == rest;
  }

  /** Position of the first `delim` in `s`, or `|s|` when there is none. */
  function Find(s: seq<Byte>, delim: Byte): (i: nat)
    ensures i <= |s|
    ensures delim !in s[..i]
    ensures i < |s| ==> s[i] == delim
  {
    if |s| == 0 || s[0] == delim then 0
    else
      var j := Find(s[1..], delim);
      assert s[..1 + j] == [s[0]] + s[1..][..j];
      1 + j
  }

  /** `read_until`: the bytes before the first `delim`, which is consumed
      but not returned; they must form valid UTF-8. */
  function ReadUntil(s: seq<Byte>, delim: Byte): (r: Decoded<seq<Byte>>)
    ensures r.Ok? ==> s == r.value.0 + [delim] + r.value.1
    ensures r.Ok? ==> delim !in r.value.0 && ValidUtf8(r.value.0)
    ensures r == Err(UnexpectedEOI) <==> delim !in s
    ensures r.Err? ==> r.error == UnexpectedEOI || r.error == InvalidFormat
    ensures Consumes(s, r)
  {
    var i := Find(s, delim);
    if i == |s| then
      assert s[..i] == s;
      Err(UnexpectedEOI)
    else if !ValidUtf8(s[..i]) then Err(InvalidFormat)
    else
      assert s == s[..i] + [delim] + s[i + 1..];
      Ok((s[..i], s[i + 1..]))
  }

  /** `decode_string`: a `usize` length, a colon, then exactly that many
      bytes. The buffer for the bytes is allocated before any of them is
      read, so a length above `isize::MAX` panics (CapacityOverflow)
      whatever follows. */
  function DecodeString(s: seq<Byte>): (r: Decoded<ByteString>)
    ensures Consumes(s, r)
  {
    var header :- ReadUntil(s, COLON);
    var afterColon := header.1;
    match ParseUsize(header.0)
    case None => Err(InvalidStringLength)
    case Some(n) =>
      if n > ISIZE_MAX then Err(CapacityOverflow)
      else if |afterColon| < n then Err(UnexpectedEOI)
      else Ok((afterColon[..n], afterColon[n..]))
  }

  /** `decode_integer`: `i`, a signed decimal, `e`. Only the first byte of
      the numeral is checked for a zero, so `-03` and `+5` pass to the `i64`
      parser. */
  function DecodeInteger(s: seq<Byte>): (r: Decoded<I64>)
    ensures Consumes(s, r)
  {
    if |s| == 0 then Err(UnexpectedEOI)
    else if s[0] != INT_START then Err(InvalidFormat)
    else
      var body :- ReadUntil(s[1..], END);
      var numeral := body.0;
      if |numeral| > 1 && numeral[0] == ZERO then Err(InvalidInteger)
      else if numeral == [MINUS, ZERO] then Err(InvalidInteger)
      else if |numeral| == 0 then Err(InvalidInteger)
      else
        match ParseI64(numeral)
        case None => Err(InvalidInteger)
        case Some(n) => Ok((n, body.1))
  }

  /** `decode_next`: dispatch on the first byte. */
  function DecodeNext(s: seq<Byte>): (r: Decoded<Value>)
    ensures Consumes(s, r)
    ensures |s| == 0 ==> r == Err(UnexpectedEOI)
    decreases |s|, 2
  {
    if |s| == 0 then Err(UnexpectedEOI)
    else if IsDigit(s[0]) then
      var p :- DecodeString(s);
      Ok((String(p.0), p.1))
    else if s[0] == INT_START then
      var p :- DecodeInteger(s);
      Ok((Integer(p.0), p.1))
    else if s[0] == LIST_START then
      var p :- DecodeList(s);
      Ok((List(p.0), p.1))
    else if s[0] == DICT_START then
      var p :- DecodeDict(s);
      Ok((Dict(p.0), p.1))
    else Err(InvalidFormat)
  }

  /** `decode_list`: `l`, then the items. */
  function DecodeList(s: seq<Byte>): (r: Decoded<seq<Value>>)
    ensures Consumes(s, r)
    ensures |s| == 0 ==> r == Err(UnexpectedEOI)
    ensures |s| > 0 && s[0] != LIST_START ==> r == Err(InvalidFormat)
    ensures r.Ok? ==> s[0] == LIST_START && DecodeListItems(s[1..]) == r
    decreases |s|, 1
  {
    if |s| == 0 then Err(UnexpectedEOI)
    else if s[0] != LIST_START then Err(InvalidFormat)
    else DecodeListItems(s[1..])
  }

  /** The loop of `decode_list`: values in order up to a consumed `e`. */
  function DecodeListItems(s: seq<Byte>): (r: Decoded<seq<Value>>)
    ensures Consumes(s, r)
    decreases |s|, 3
  {
    if |s| == 0 then Err(UnexpectedEOI)
    else if s[0] == END then Ok(([], s[1..]))
    else
      var first := DecodeNext(s);
      if first.Err? then Err(first.error)
      else
        var more := DecodeListItems(first.value.1);
        if more.Err? then Err(more.error)
        else
          SuffixOfSuffix(s, first.value.1, more.value.1);
          Ok(([first.value.0] + more.value.0, more.value.1))
  }

  /** `decode_dict`: `d`, then the entries. */
  function DecodeDict(s: seq<Byte>): (r: Decoded<map<ByteString, Value>>)
    ensures Consumes(s, r)
    ensures |s| == 0 ==> r == Err(UnexpectedEOI)
    ensures |s| > 0 && s[0] != DICT_START ==> r == Err(InvalidFormat)
    ensures r.Ok? ==> s[0] == DICT_START && DecodeDictItems(s[1..], map[]) == r
    decreases |s|, 1
  {
    if |s| == 0 then Err(UnexpectedEOI)
    else if s[0] != DICT_START then Err(InvalidFormat)
    else DecodeDictItems(s[1..], map[])
  }

  /** The loop of `decode_dict`: each key is read by `DecodeString` (so a
      key that is not a byte string fails on its length prefix), each value
      by `DecodeNext`, and a repeated key overwrites the earlier entry. Key
      order is not checked. */
  function DecodeDictItems(s: seq<Byte>, acc: map<ByteString, Value>): (r: Decoded<map<ByteString, Value>>)
    ensures Consumes(s, r)
    decreases |s|, 3
  {
    if |s| == 0 then Err(UnexpectedEOI)
    else if s[0] == END then Ok((acc, s[1..]))
    else
      var key := DecodeString(s);
      if key.Err? then Err(key.error)
      else
        var value := DecodeNext(key.value.1);
        if value.Err? then Err(value.error)
        else
          var afterValue := value.value.1;
          assert |afterValue| < |s|;
          DecodeDictItems(afterValue, acc[key.value.0 := value.value.0])
  }

  /** One turn of the list loop. */
  lemma ListItemsStep(s: seq<Byte>, first: Value, afterFirst: seq<Byte>, more: seq<Value>, afterMore: seq<Byte>)
    requires |s| > 0 && s[0] != END
    requires DecodeNext(s) == Ok((first, afterFirst))
    requires DecodeListItems(afterFirst) == Ok((more, afterMore))
    ensures DecodeListItems(s) == Ok(([first] + more, afterMore))
  {
  }

  /** One turn of the dictionary loop. */
  lemma DictItemsStep(s: seq<Byte>, acc: map<ByteString, Value>, key: ByteString, afterKey: seq<Byte>,
                      value: Value, afterValue: seq<Byte>)
    requires |s| > 0 && s[0] != END
    requires DecodeString(s) == Ok((key, afterKey))
    requires DecodeNext(afterKey) == Ok((value, afterValue))
    ensures DecodeDictItems(s, acc) == DecodeDictItems(afterValue, acc[key := value])
  {
  }

  /** `decode_next` on a list marker hands over to the list loop. */
  lemma NextOnList(body: seq<Byte>, items: seq<Value>, rest: seq<Byte>)
    requires DecodeListItems(body) == Ok((items, rest))
    ensures DecodeNext([LIST_START] + body) == Ok((List(items), rest))
  {
    var s := [LIST_START] + body;
    assert s[1..] == body;
    assert DecodeList(s) == Ok((items, rest));
  }

  /** A list whose loop fails fails with the loop's error. */
  lemma NextOnListFails(body: seq<Byte>)
    requires DecodeListItems(body).Err?
    ensures DecodeNext([LIST_START] + body) == Err(DecodeListItems(body).error)
  {
    var s := [LIST_START] + body;
    assert s[1..] == body;
  }

  /** `decode_next` on a dictionary marker hands over to the dictionary loop. */
  lemma NextOnDict(body: seq<Byte>, m: map<ByteString, Value>, rest: seq<Byte>)
    requires DecodeDictItems(body, map[]) == Ok((m, rest))
    ensures DecodeNext([DICT_START] + body) == Ok((Dict(m), rest))
  {
    var s := [DICT_START] + body;
    assert s[1..] == body;
    assert DecodeDict(s) == Ok((m, rest));
  }

  /** A dictionary whose loop fails fails with the loop's error. */
  lemma NextOnDictFails(body: seq<Byte>)
    requires DecodeDictItems(body, map[]).Err?
    ensures DecodeNext([DICT_START] + body) == Err(DecodeDictItems(body, map[]).error)
  {
    var s := [DICT_START] + body;
    assert s[1..] == body;
  }
}
