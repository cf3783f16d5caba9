/** The canonical bencode encoder. Writing into an in-memory buffer cannot
    fail, so encoding is a total function from values to bytes. */
module Encoder {
  import opened Common
  import opened Decimal
  import opened Bencode
  import opened ByteOrder

  /** `encode_string`: decimal length, `:`, the raw bytes. */
  function EncodeString(s: ByteString): (r: seq<Byte>)
    ensures |r| > |s| && IsDigit(r[0])
  {
    NatToDecimal(|s|) + [COLON] + s
  }

  /** `encode_integer`: `i`, the signed decimal, `e`. */
  function EncodeInteger(n: I64): (r: seq<Byte>)
    ensures |r| >= 3 && r[0] == INT_START && r[|r| - 1] == END
  {
    [INT_START] + IntToDecimal(n) + [END]
  }

  /** `encode_value` and its public wrapper `encode`: every variant is
      handled, and the output starts the way a value must. */
  function Encode(v: Value): (r: seq<Byte>)
    ensures |r| > 0 && StartsValue(r[0])
    decreases v, 3
  {
    match v
    case String(b) => EncodeString(b)
    case Integer(n) => EncodeInteger(n)
    case List(items) => EncodeList(items)
    case Dict(m) => EncodeDict(m)
  }

  /** `encode_list`: `l`, the members in order, `e`. */
  function EncodeList(items: seq<Value>): (r: seq<Byte>)
    ensures |r| >= 2 && r[0] == LIST_START && r[|r| - 1] == END
    decreases items, 2
  {
    [LIST_START] + EncodeItems(items) + [END]
  }

  function EncodeItems(items: seq<Value>): seq<Byte>
    decreases items, 1
  {
    if |items| == 0 then [] else Encode(items[0]) + EncodeItems(items[1..])
  }

  /** `encode_dict`: `d`, the entries in increasing key order, `e`. Every
      key visited comes from the map, so the lookup that could report a
      missing value always succeeds. */
  function EncodeDict(m: map<ByteString, Value>): (r: seq<Byte>)
    ensures |r| >= 2 && r[0] == DICT_START && r[|r| - 1] == END
    decreases Dict(m), 2
  {
    [DICT_START] + EncodeEntries(m, SortedKeys(m.Keys)) + [END]
  }

  /** The entries for `keys`, in that order: each key as a byte string
      followed by its value. */
  function EncodeEntries(m: map<ByteString, Value>, keys: seq<ByteString>): seq<Byte>
    requires forall i :: 0 <= i < |keys| ==> keys[i] in m
    decreases Dict(m), 1, |keys|
  {
    if |keys| == 0 then []
    else EncodeString(keys[0]) + Encode(m[keys[0]]) + EncodeEntries(m, keys[1..])
  }

  /** The first byte of an encoding tells which variant was encoded. */
  lemma EncodeFirstByte(v: Value)
    ensures IsDigit(Encode(v)[0]) <==> v.String?
    ensures Encode(v)[0] == INT_START <==> v.Integer?
    ensures Encode(v)[0] == LIST_START <==> v.List?
    ensures Encode(v)[0] == DICT_START <==> v.Dict?
  {
  }
}
