/** The bencode value model (BEP 3 "bencoding") and the error kinds of the
    decoder. */
module Bencode {
  import opened Common
  import opened Decimal

  /** The four bencode types. Dictionary keys are byte strings and are
      unique because the dictionary is a map. */
  datatype Value =
    | String(bytes: ByteString)
    | Integer(n: I64)
    | List(items: seq<Value>)
    | Dict(entries: map<ByteString, Value>)

  /** The decoder's error kinds. I/O failures of the underlying stream do not
      arise on an in-memory byte sequence; the encoder-only kinds are never
      produced. `CapacityOverflow` is not a `BencodeError`: it stands for the
      panic of `vec![0; n]` when a string's length prefix exceeds
      `isize::MAX`, which ends decoding before any byte of the string is
      read. */
  datatype DecodeError =
    | UnexpectedEOI
    | InvalidFormat
    | InvalidInteger
    | InvalidStringLength
    | CapacityOverflow

  /** Wire bytes of the type markers. */
  const COLON: Byte := 58      // ':'
  const INT_START: Byte := 105  // 'i'
  const LIST_START: Byte := 108 // 'l'
  const DICT_START: Byte := 100 // 'd'
  const END: Byte := 101        // 'e'

  /** The bytes that can start a value: a length digit or a type marker. */
  predicate StartsValue(b: Byte) {
    IsDigit(b) || b == INT_START || b == LIST_START || b == DICT_START
  }
}
