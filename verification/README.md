# A verified model of the core of rs-torrent-client

This project models, in Dafny, the core of a small BitTorrent client written in
Rust:

- the bencode value type, its recursive-descent decoder and its canonical
  encoder;
- the torrent metadata parser (`TorrentFile::parse` and its helpers) and the
  piece geometry of a parsed torrent (`total_length`, `num_pieces`,
  `piece_size`, `file_paths_for_piece`);
- the 68-byte peer handshake (`new`, `serialize`, `read`, `validate`,
  `do_handshake`);
- the tracker helpers: `url_encode`, the compact and non-compact peer lists of
  `parse_announce_response`, `generate_peer_id` and the `AnnounceRequest` that
  `announce` builds.

The main results:

- decoding the encoding of any value, followed by any further bytes, gives the
  value back and leaves exactly the further bytes unread
  (`RoundTrip.ValueRoundTrip`). So the encoding is injective, and the bytes
  hashed for the info hash determine the info dictionary;
- the encoder's key order is the unique strictly increasing enumeration of the
  keys;
- percent-decoding undoes `url_encode`;
- the compact peer list decodes the peers it encodes;
- reading a serialized handshake gives it back, apart from the reserved bytes,
  and any well-framed handshake is read back exactly, extension bits included;
- `do_handshake` is `read` followed by `validate`;
- for a torrent with at least one piece, the piece sizes add up to the total
  length, with the one exception the code has.

The model follows the code:

- **In-memory decoding.** The decoder reads from a peekable byte stream. Here
  every decoding step is a function of the remaining input. It returns the
  decoded item together with the bytes after it.
- **Strings as bytes.** A Rust `String` is held as its UTF-8 bytes.
  `String::from_utf8` is a well-formedness check (`Utf8.ValidUtf8`, Table 3-7
  of the Unicode Standard).
- **Numerals as Rust parses them.** `str::parse::<usize>()` and
  `str::parse::<i64>()` are modelled exactly. They accept a `+` sign and
  leading zeros. `decode_integer` checks only the first byte of the numeral
  for a zero. So `i-03e` decodes to -3 and `i+5e` to 5, although the
  function's documentation says leading zeros are rejected. A string length
  prefix such as `05` is accepted everywhere. A prefix such as `+5` is accepted
  only for a dictionary key, where `decode_string` is called directly; as a
  value, a leading `+` is InvalidFormat, because `decode_next` hands only a
  digit to `decode_string` (`BencodeExamples.PlusPrefixOnlyForKeys`).
- **Allocation before reading.** `decode_string` allocates `vec![0; length]`
  before it reads a byte of the string. A length prefix above `isize::MAX`
  (for example `18446744073709551615`) therefore panics with a capacity
  overflow, whatever follows. The model reports this panic as the outcome
  `CapacityOverflow`. A `Vec<u8>` never exceeds `isize::MAX` bytes, so
  `ByteString` has that bound.
- **Duplicate and out-of-order keys.** The dictionary decoder does not check
  key order. A repeated key keeps its last value.
- **The "creation data" key.** The creation time is looked up under the key
  `"creation data"`, not the `"creation date"` of BEP 3. A torrent's BEP 3
  creation date is therefore never read (`TorrentFacts.CreationDateKeyIgnored`).
- **The `Dicts` variant name.** The encoder matches on a variant called
  `Dicts`, while the value enum in `src/bencode/mod.rs` declares `Dict`. The
  model has one variant, `Dict`, used by both sides.
- **The last piece.** `piece_size` reports a last-piece remainder of 0 as a
  full piece. So when a torrent with at least one piece carries a digest too
  many, the piece sizes overshoot the total by one piece length (`PieceMap.PieceSizesCoverTotal`).
- **The peer-id prefix.** `generate_peer_id` writes the 8-byte prefix
  `-RT0001-` and 12 random bytes. Its documentation describes a 9-byte
  `-GT0001-` prefix and 11 random bytes.
- **Duplicated files.** Several files duplicate others, and the duplicates
  have the same behaviour, so each table row cites one copy:
  - `src/bencode/decoder/mod.rs` repeats `decode_string` and `read_until` of
    `src/bencode/decoder.rs`;
  - `src/bencode/encoder.rs` repeats `src/bencode/encoder/mod.rs`;
  - `src/torrent/file/mod.rs` repeats `parse_pieces` and the geometry methods
    of `src/torrent/file.rs`.

Functions the code cannot see are parameters:
- the SHA-1 digest (`sha1`);
- `IpAddr::from_str` (`parseIp`);
- the random tail of the peer id.

Modules, one per file:

| module | file | contents |
|---|---|---|
| `Common` | `common.dfy` | `Byte`, `I64`, `ByteString`, `Option`, `Result` |
| `Utf8` | `utf8.dfy` | UTF-8 well-formedness |
| `Decimal` | `decimal.dfy` | formatting and parsing of decimal numerals |
| `Bencode` | `bencode.dfy` | the value type and the decoder's errors |
| `ByteOrder` | `byte_order.dfy` | the byte-string order and the sorted key enumeration |
| `Decoder` | `decoder.dfy` | the decoder |
| `Encoder` | `encoder.dfy` | the encoder |
| `RoundTrip` | `roundtrip.dfy` | the round trip and its consequences |
| `DecoderFacts` | `decoder_facts.dfy` | what the decoder does with each shape of input |
| `Torrent` | `torrent.dfy` | the metadata parser |
| `TorrentFacts` | `torrent_facts.dfy` | properties of the parser |
| `PieceMap` | `pieces.dfy` | piece geometry |
| `PeerHandshake` | `handshake.dfy` | the handshake |
| `Tracker` | `tracker.dfy` | the tracker helpers |
| `BencodeExamples`, `PieceExamples`, `TrackerExamples` | `*_examples.dfy` | worked examples |

## Model

| member | source | states |
|---|---|---|
| Decimal.ParseUsizeOfDecimal | src/bencode/decoder.rs:32-35 | the length prefix the encoder writes (`{}` formatting) parses back, as a `usize`, to the same length |
| Decimal.ParseI64OfDecimal | src/bencode/decoder.rs:153-155 | every `i64` formatted with `{}` parses back with `parse::<i64>()` to itself |
| Decimal.LeadingZerosAndPlusAccepted | src/bencode/decoder/mod.rs:12-15 | Rust's parsers accept `05`, `+5` and `-03`, and reject `-5` as a `usize`, the empty string and a lone `-` |
| Utf8.AsciiIsUtf8 | src/bencode/decoder.rs:93-95 | an all-ASCII token, which every decimal numeral is, always passes the `String::from_utf8` check |
| Decoder.ReadUntil | src/bencode/decoder/mod.rs:42-74 | on success the input is the token, the delimiter, then the rest; the token holds no delimiter and is valid UTF-8. UnexpectedEOI exactly when the delimiter is absent; otherwise InvalidFormat |
| Decoder.ReadUntilFirst | src/bencode/decoder.rs:64-96 | with the first delimiter right after `token`, `read_until` returns `token` and leaves what follows the delimiter, or fails with InvalidFormat exactly when `token` is not UTF-8 |
| Decoder.DecodeString | src/bencode/decoder.rs:28-45 | a successful read consumes at least one byte and leaves a suffix of its input unread |
| Decoder.DecodeInteger | src/bencode/decoder.rs:125-156 | a successful read consumes at least one byte and leaves a suffix of its input unread |
| Decoder.DecodeNext | src/bencode/decoder.rs:279-298 | empty input is UnexpectedEOI; a successful read leaves a strict suffix of the input |
| Decoder.DecodeListItems | src/bencode/decoder.rs:194-215 | the list loop leaves a strict suffix of its input unread |
| Decoder.DecodeDictItems | src/bencode/decoder.rs:251-275 | the dictionary loop leaves a strict suffix of its input unread |
| Decoder.ListItemsStep | src/bencode/decoder.rs:211-212 | one turn of the list loop: a decoded item is prepended to the items that follow it |
| Decoder.DictItemsStep | src/bencode/decoder.rs:268-272 | one turn of the dictionary loop: the decoded key and value are inserted into the map built so far |
| Decoder.NextOnList | src/bencode/decoder.rs:188-192 | after `l`, `decode_next` yields a List of exactly the items the loop reads |
| Decoder.NextOnDict | src/bencode/decoder.rs:245-249 | after `d`, `decode_next` yields a Dict of exactly the entries the loop reads, starting from an empty map |
| Decoder.NextOnListFails | src/bencode/decoder.rs:188-216 | after `l`, a failing list loop is the failure of `decode_next`, with the same error |
| Decoder.NextOnDictFails | src/bencode/decoder.rs:245-275 | after `d`, a failing dictionary loop is the failure of `decode_next`, with the same error |
| Decoder.DecodeList | src/bencode/decoder.rs:181-192 | empty input is UnexpectedEOI and a first byte other than `l` is InvalidFormat; a success is the list loop's result on the bytes after the `l` |
| Decoder.DecodeDict | src/bencode/decoder.rs:237-249 | empty input is UnexpectedEOI and a first byte other than `d` is InvalidFormat; a success is the dictionary loop's result on the bytes after the `d`, from an empty map |
| Encoder.EncodeString | src/bencode/encoder/mod.rs:16-20 | the encoding is longer than the string and starts with a length digit |
| Encoder.EncodeInteger | src/bencode/encoder/mod.rs:30-33 | the encoding is at least three bytes, framed by `i` and `e` |
| Encoder.Encode | src/bencode/encoder/mod.rs:96-103 | every value encodes to a non-empty output whose first byte starts a value |
| Encoder.EncodeList | src/bencode/encoder/mod.rs:43-50 | the encoding is framed by `l` and `e` |
| Encoder.EncodeDict | src/bencode/encoder/mod.rs:61-77 | the encoding is framed by `d` and `e` |
| Encoder.EncodeFirstByte | src/bencode/encoder.rs:49-56 | the first byte of an encoding identifies the variant, in both directions |
| ByteOrder.SortedKeys | src/bencode/encoder.rs:35-36 | the encoder's key order lists every key exactly once, in strictly increasing byte order |
| ByteOrder.SortedEnumerationUnique | src/bencode/encoder/mod.rs:66-67 | any strictly increasing enumeration of the keys is that order, so the output does not depend on how the map is iterated |
| RoundTrip.StringRoundTrip | src/bencode/decoder.rs:28-45 | decoding an encoded byte string, followed by anything, gives the string back and leaves the rest |
| RoundTrip.IntegerRoundTrip | src/bencode/decoder.rs:125-156 | decoding an encoded `i64`, followed by anything, gives the integer back and leaves the rest |
| RoundTrip.ValueRoundTrip | src/bencode/encoder/mod.rs:113-115 | decoding the encoding of any value, followed by anything, gives the value back and leaves exactly the rest |
| RoundTrip.ItemsRoundTrip | src/bencode/encoder/mod.rs:45-48 | the list loop reads back the encoded items in order and stops after the `e` |
| RoundTrip.EntriesRoundTrip | src/bencode/encoder/mod.rs:68-75 | the dictionary loop reads back the encoded entries, adding exactly the encoded keys to the map |
| RoundTrip.EncodeInjective | src/torrent/info_hash.rs:28-31 | two values with the same encoding are equal: the bytes hashed for the info hash determine the info dictionary |
| RoundTrip.CanonicalBytesReencode | src/bencode/encoder.rs:58-61 | a corollary of `ValueRoundTrip` with nothing after the value, used by the worked examples: the encoder's output decodes to the encoded value with nothing left over |
| DecoderFacts.StringTakesExactlyN | src/bencode/decoder.rs:37-44 | with a length prefix `n` of at most `isize::MAX` and enough input, the string is exactly the next `n` bytes and the rest is left |
| DecoderFacts.StringTooShort | src/bencode/decoder.rs:37-42 | with a length prefix `n` of at most `isize::MAX`, fewer than `n` bytes after the colon is UnexpectedEOI |
| DecoderFacts.StringCapacityOverflow | src/bencode/decoder.rs:37 | a `usize` length prefix above `isize::MAX` makes the up-front `vec![0; length]` panic (CapacityOverflow), whatever follows the colon |
| DecoderFacts.StringBadLength | src/bencode/decoder.rs:33-35 | a prefix that is not a `usize` is InvalidStringLength |
| DecoderFacts.StringNoColon | src/bencode/decoder.rs:71-73 | input without a colon is UnexpectedEOI |
| DecoderFacts.StringStartsWithLength | src/bencode/decoder/mod.rs:10-25 | a decoded string's input starts with a digit or `+` |
| DecoderFacts.IntegerRejected | src/bencode/decoder.rs:141-155 | a numeral with a leading zero, `-0`, an empty numeral, or one `i64` parsing refuses is InvalidInteger |
| DecoderFacts.IntegerAccepted | src/bencode/decoder.rs:139-156 | any other numeral decodes to the value `i64` parsing gives it, and the rest after `e` is left |
| DecoderFacts.IntegerNeedsMarker | src/bencode/decoder.rs:133-137 | input not starting with `i` is InvalidFormat |
| DecoderFacts.IntegerNoEnd | src/bencode/decoder.rs:139 | an integer without a closing `e` is UnexpectedEOI |
| DecoderFacts.NextDispatch | src/bencode/decoder.rs:282-297 | empty input is UnexpectedEOI and a byte starting no value is InvalidFormat; a decoded value's variant is the one its first byte announces, in both directions |
| DecoderFacts.EmptyList | src/bencode/decoder.rs:203-208 | `le` is the empty list, and the rest is left |
| DecoderFacts.ItemsWithoutEnd | src/bencode/decoder.rs:196-201 | encoded items that run out before an `e` are UnexpectedEOI |
| DecoderFacts.ListItemFails | src/bencode/decoder.rs:211 | an item that fails to decode ends the list loop with that item's error |
| DecoderFacts.ListTailFails | src/bencode/decoder.rs:195-212 | after a decoded item, a failure later in the loop is the loop's failure, with the same error |
| DecoderFacts.DictKeyFails | src/bencode/decoder.rs:268 | a key that fails to decode ends the dictionary loop with that key's error |
| DecoderFacts.DictValueFails | src/bencode/decoder.rs:268-270 | a value that fails to decode after its key ends the dictionary loop with that value's error |
| DecoderFacts.ListWithoutEnd | src/bencode/decoder.rs:181-216 | a list missing its closing `e` is UnexpectedEOI |
| DecoderFacts.TwoEntries | src/bencode/decoder.rs:268-272 | two entries are read in any key order; on a repeated key the second value wins |
| DecoderFacts.TwoEntryItems | src/bencode/decoder.rs:253-273 | the dictionary loop inserts two entries in input order |
| DecoderFacts.DictKeyMustBeString | src/bencode/decoder.rs:268 | an entry that starts with anything but a length digit, `+` or the closing `e` fails |
| Torrent.Get | src/torrent/file.rs:148 | the lookup finds a value exactly when the key is present, and it is the stored one |
| Torrent.Chunks20 | src/torrent/file/mod.rs:64-74 | the digests are the successive 20-byte slices, and their concatenation is the input |
| Torrent.ParsePieces | src/torrent/file.rs:61-76 | InvalidPiecesHashLength exactly when the length is not a multiple of 20; otherwise one digest per 20 bytes, in order, concatenating back to the input |
| Torrent.ParseTexts | src/torrent/file.rs:203-218 | succeeds exactly when every member is a UTF-8 string, and keeps their bytes in order; otherwise InvalidFormat |
| Torrent.ParseTiers | src/torrent/file.rs:91-122 | succeeds exactly when every tier is a list of UTF-8 strings; keeps the tier count and the tiers in order |
| Torrent.ParseAnnounceList | src/torrent/file.rs:87-127 | succeeds exactly when the value is a list of lists of UTF-8 strings; nesting, order and bytes are kept; otherwise InvalidFormat |
| Torrent.ParseFileEntry | src/torrent/file.rs:186-230 | succeeds exactly when the entry is a dictionary with an integer `length` and a `path` list of UTF-8 strings, and carries that length and those components in order. The failures, in source order: InvalidFormat for a non-dictionary, MissingField("file length"), MissingField("file path"), then InvalidFormat for a path component that is not a UTF-8 string |
| Torrent.ParseFiles | src/torrent/file.rs:184-231 | succeeds exactly when every entry parses, keeping their order; a failure is the error of the first failing entry, every entry before it having parsed |
| Torrent.ParseFilesField | src/torrent/file.rs:179-235 | without a `files` list there are no entries; a list succeeds exactly when every entry is well-formed, keeping their order, and a failure is the error of the first failing entry |
| Torrent.ParseInfoDict | src/torrent/file.rs:138-250 | succeeds exactly when `piece length` is an integer, `pieces` a string, `name` a UTF-8 string and the `files` field parses. The failures, in source order: InvalidFormat for a non-dictionary, MissingField("piece length"), MissingField("pieces"), MissingField("name"), InvalidFormat for a non-UTF-8 name, then the error of the `files` field. On success each field is the stored value: `private` exactly when it is integer 1, `length` exactly when it is an integer, and `is_directory` exactly when the file list is non-empty |
| Torrent.OptionalText | src/torrent/file.rs:410-421 | the stored value when it is a UTF-8 string, and empty otherwise |
| Torrent.ParseCreationDate | src/torrent/file.rs:390-408 | absent is None, and a non-negative integer `t` is Some(`t`). DateParseError exactly for a negative integer; InvalidFormat exactly for a non-integer |
| Torrent.Parse | src/torrent/file.rs:351-437 | succeeds exactly when every check passes. The failures, in source order: InvalidFormat for a non-dictionary root, MissingField("announce"), MissingField("announce(not string)"), InvalidFormat for a non-UTF-8 announce URL, MissingField("info"), InvalidFormat for a non-dictionary `info`, the error of `parse_info_dict`, InvalidFormat from `announce-list`, the creation-date error, then InvalidPiecesHashLength. On success: the announce URL is the stored string; the announce list is what `parse_announce_list` gives, or empty when absent; the creation date and the three descriptive fields are read as their helpers read them; the info is `parse_info_dict` of `info`; the info hash is SHA-1 of its re-encoding; and the piece table splits `pieces` |
| Torrent.ParseFields | src/torrent/file.rs:361-436 | the same guarantees, stated for the looked-up fields; the comment, creator and encoding are carried through unchanged |
| TorrentFacts.UnreadKeyIgnored | src/torrent/file.rs:361-421 | adding or replacing any top-level key other than the seven `parse` reads leaves the result unchanged |
| TorrentFacts.CreationDateKeyIgnored | src/torrent/file.rs:390 | a value stored under BEP 3's "creation date" key never affects the result |
| TorrentFacts.CommentOnlyAffectsComment | src/torrent/file.rs:410-413 | the `comment` key changes nothing but the `comment` field, and cannot make parsing fail |
| TorrentFacts.FieldsComment | src/torrent/file.rs:426-436 | the comment is carried into the result and influences nothing else |
| TorrentFacts.InfoHashDependsOnlyOnInfo | src/torrent/info_hash.rs:28-40 | two parsed torrents with the same `info` value agree on the info hash, the info dictionary and the piece table |
| TorrentFacts.ParsedPieceTable | src/torrent/file.rs:424 | a parsed torrent's `pieces` length is a multiple of 20, and each digest is the matching 20-byte slice |
| PieceMap.PieceSize | src/torrent/file.rs:286-303 | 0 past the end; `piece length` before the last piece; the remainder for the last piece, where a remainder of 0 gives `piece length` |
| PieceMap.OverlappingIsSelection | src/torrent/file/mod.rs:134-150 | the running-cursor loop selects exactly the files whose absolute byte range meets the piece, in list order |
| PieceMap.FilePathsForPiece | src/torrent/file.rs:313-338 | nothing past the end; the torrent name for a single-file torrent; otherwise the paths of exactly the files whose byte range meets the piece's range |
| PieceMap.FullPiecesSum | src/torrent/file/mod.rs:99-100 | the pieces before the last are each `piece length` long |
| PieceMap.PieceSizesCoverTotal | src/torrent/file/mod.rs:95-112 | for a torrent with at least one piece, the piece sizes add up to the total length, except that a zero remainder overshoots it by one piece length |
| PieceMap.PiecesAdjacent | src/torrent/file.rs:317-318 | each piece but the last ends where the next begins |
| PieceMap.LastPieceEndsAtTotal | src/torrent/file.rs:293-301 | when the piece count fits the total, the last piece holds 1 to `piece length` bytes and ends at the total length |
| PieceMap.TotalLength | src/torrent/file.rs:261-267 | the single-file `length`, or 0 when it is absent; for a multi-file torrent, the offset at which the file list ends. With no negative lengths, every file's byte range lies between 0 and the total |
| PieceMap.NumPieces | src/torrent/file.rs:274-276 | the piece table holds 20 bytes of digest per piece |
| PieceMap.FileStartStep | src/torrent/file.rs:325-334 | the cursor moves on by the file's length: the next file starts where this one ends |
| PieceMap.FileStartMonotone | src/torrent/file.rs:324-335 | with no negative lengths, the running cursor never moves back |
| PieceMap.FilesWithinTotal | src/torrent/file.rs:261-267 | with no negative lengths, each file's byte range starts at 0 or later and ends at or before the end of the file list |
| PeerHandshake.Serialize | src/peer/handshake.rs:64-72 | 68 bytes: length byte, protocol name, eight zero bytes, info hash, peer id, at offsets 0, 1, 20, 28 and 48 |
| PeerHandshake.Read | src/peer/handshake.rs:100-140 | empty input is UnexpectedEof; a bad length byte is refused after one byte; a short input is UnexpectedEof. With 68 bytes and the right length byte, a wrong protocol name is InvalidProtocol of those 19 bytes, and otherwise the result is the handshake of bytes 20-27 (the reserved bytes, kept), 28-47 and 48-67. Either way 68 bytes are consumed, and an accepted handshake is exactly the wire form of those bytes |
| PeerHandshake.Validate | src/peer/handshake.rs:152-161 | succeeds exactly when the info hash is the expected one; otherwise it reports both hashes |
| PeerHandshake.DoHandshake | src/peer/handshake.rs:189-254 | sends our serialized handshake. For a well-framed peer handshake the info hash decides: ours gives the peer's handshake with the reserved bytes and peer id it sent; any other is InfoHashMismatch. An accepted peer has our info hash and the standard protocol, 68 bytes are consumed, and the result is the wire form of those bytes |
| PeerHandshake.ReadSerialize | src/peer/handshake.rs:112-130 | reading a serialized handshake gives it back with zeroed reserved bytes, and leaves what follows unread |
| PeerHandshake.ReadNew | src/peer/handshake.rs:42-50 | a fresh handshake survives serialization and reading unchanged |
| PeerHandshake.DoHandshakeIsReadThenValidate | src/peer/handshake.rs:206-244 | `do_handshake` has the outcome and consumption of `read` followed by `validate` |
| PeerHandshake.MatchingPeerAccepted | src/peer/handshake.rs:246-253 | a peer answering with our info hash is accepted with the peer id it sent |
| PeerHandshake.OtherTorrentRefused | src/peer/handshake.rs:237-244 | a peer for another torrent is refused with InfoHashMismatch after all 68 bytes |
| PeerHandshake.New | src/peer/handshake.rs:42-50 | our info hash and peer id, the standard length byte and protocol name, and no extension bits, so `serialize` loses nothing of it |
| PeerHandshake.Wire | src/peer/handshake.rs:112-130 | the 68 bytes a peer sends, reserved bytes included: length byte, name, reserved bytes, info hash and peer id at offsets 0, 1, 20, 28 and 48 |
| PeerHandshake.SerializeIsZeroedWire | src/peer/handshake.rs:64-72 | `serialize` writes the wire form with the reserved bytes zeroed |
| PeerHandshake.ReadWire | src/peer/handshake.rs:112-140 | any well-framed handshake is read back exactly, extension bits included, and what follows is left unread |
| PeerHandshake.ReadAcceptsExactlyWire | src/peer/handshake.rs:100-140 | `read` succeeds exactly when the first 68 bytes have the length byte 19 and the protocol name, and its result is the handshake those bytes encode |
| PeerHandshake.ExtendedPeerAccepted | src/peer/handshake.rs:206-253 | a peer that sets extension bits is accepted, and the reserved bytes it sent are kept |
| Tracker.PercentTriplet | src/tracker/mod.rs:225 | `%` then two upper-case hexadecimal digits, whose values are the byte's high and low four bits |
| Tracker.UrlEncode | src/tracker/mod.rs:217-230 | the output is pure ASCII |
| Tracker.UrlEncodeDecodes | src/tracker/mod.rs:219-228 | percent-decoding the output gives the input bytes back |
| Tracker.UrlEncodeInjective | src/tracker/mod.rs:217-230 | distinct byte strings have distinct encodings |
| Tracker.UrlEncodeLength | src/tracker/mod.rs:218 | one character per unreserved byte and three per other byte |
| Tracker.UrlEncodeAppend | src/tracker/mod.rs:219 | encoding goes byte by byte: it distributes over concatenation |
| Tracker.UrlEncodePassThrough | src/tracker/mod.rs:221-223 | a run of unreserved bytes is copied through, one character per byte |
| Tracker.CompactPeers | src/tracker/mod.rs:143-153 | one peer per whole 6-byte chunk, each read from the chunk at its offset; a partial tail is dropped |
| Tracker.CompactRoundTrip | src/tracker/mod.rs:144-147 | decoding the compact form of IPv4 peers, with any partial chunk after it, gives the peers back |
| Tracker.NonCompactPeers | src/tracker/mod.rs:155-163 | every peer comes from an entry whose address parses, with that entry's port; there are no more peers than entries |
| Tracker.NonCompactConcat | src/tracker/mod.rs:157 | the mapping is a filter: it distributes over concatenation |
| Tracker.NonCompactAllParse | src/tracker/mod.rs:158-161 | when every address parses, each entry becomes the peer at the same position |
| Tracker.ParseAnnounceResponse | src/tracker/mod.rs:136-171 | the interval is kept. A compact list gives the peer of each whole 6-byte chunk, in order. A non-compact list gives the address-parsing filter of its entries (at most one peer per entry), and when every address parses, each entry becomes the peer at its position |
| Tracker.GeneratePeerId | src/tracker/mod.rs:189-196 | the id is the prefix `-RT0001-` followed by the random bytes |
| Tracker.PeerIdInjective | src/tracker/mod.rs:192-194 | two ids are equal exactly when their random tails are |
| Tracker.BuildAnnounceRequest | src/tracker/mod.rs:85-93 | the request carries the torrent's info hash, our peer id and port, nothing uploaded or downloaded, compact set, and `left` is the total length |
| Tracker.AnnounceLeftOfParsed | src/torrent/file.rs:261-267 | for a parsed torrent, `left` is the single-file length, or 0, or the sum of the file lengths, and the info hash is SHA-1 of the re-encoded `info` |
| BencodeExamples.SpamListEncoding | src/bencode/mod.rs:25 | `["spam", 42]` encodes to `l4:spami42ee` |
| BencodeExamples.CanonicalExamplesDecode | src/bencode/mod.rs:15-25 | `4:spam`, `i42e` and `l4:spami42ee` decode to their values |
| BencodeExamples.HelloString | src/bencode/encoder/mod.rs:12-14 | `5:hello` and the string "hello" correspond in both directions |
| BencodeExamples.OneHelloEncoding | src/bencode/encoder/mod.rs:39-41 | `[1, "hello"]` encodes to `li1e5:helloe` |
| BencodeExamples.OneHelloList | src/bencode/decoder.rs:194-215 | `li1e5:helloe` decodes to `[1, "hello"]` |
| BencodeExamples.OneEntryDict | src/bencode/encoder/mod.rs:65-76 | a one-entry dictionary encodes as `d`, the key as a byte string, the value, then `e` |
| BencodeExamples.FooBarDict | src/bencode/mod.rs:31 | `d3:foo3:bare` and `{"foo": "bar"}` correspond in both directions |
| BencodeExamples.Key42Dict | src/bencode/encoder/mod.rs:57-59 | `d3:keyi42ee` and `{"key": 42}` correspond in both directions |
| BencodeExamples.SortedDict | src/bencode/encoder/mod.rs:65-69 | `{"b": 1, "a": 2}` encodes with sorted keys as `d1:ai2e1:bi1ee` |
| BencodeExamples.RepeatedKey | src/bencode/decoder.rs:272 | `d1:ai1e1:ai2ee` decodes to `{"a": 2}` |
| BencodeExamples.EmptyListExample | src/bencode/decoder.rs:203-208 | `le` decodes to the empty list |
| BencodeExamples.ZeroExample | src/bencode/decoder.rs:141 | `i0e` decodes to 0 |
| BencodeExamples.RejectedIntegers | src/bencode/decoder.rs:141-151 | `i03e`, `i-0e` and `ie` are InvalidInteger |
| BencodeExamples.RejectedInsideContainers | src/bencode/decoder.rs:181-275 | `li03ee` and `d1:ai03ee` are InvalidInteger: the rejected item or value fails the whole container |
| BencodeExamples.FailingValue | src/bencode/decoder.rs:268-270 | a dictionary whose first value fails after a valid key fails with that value's error |
| BencodeExamples.NegativeLeadingZero | src/bencode/decoder.rs:141-143 | `i-03e` decodes to -3, whose canonical form is `i-3e` |
| BencodeExamples.PlusSign | src/bencode/decoder.rs:153-155 | `i+5e` decodes to 5, whose canonical form is `i5e` |
| BencodeExamples.ShortString | src/bencode/decoder.rs:37-43 | `5:hi` is UnexpectedEOI |
| BencodeExamples.OversizedLengthPrefix | src/bencode/decoder.rs:32-37 | any decimal length prefix above `isize::MAX` that is still a `usize`, `18446744073709551615:x` among them, ends in the allocation panic (CapacityOverflow) |
| BencodeExamples.PlusPrefixOnlyForKeys | src/bencode/decoder.rs:264-293 | `+1:a` is InvalidFormat as a value, but the key `a` when read as a dictionary key, so `d+1:ai1ee` is {"a": 1} |
| BencodeExamples.PlusKeyEntry | src/bencode/decoder.rs:264-272 | `d+1:a`, any encoded value, then `e` decodes to the dictionary holding that value under `a` |
| BencodeExamples.NoValue | src/bencode/decoder.rs:293-296 | `x` is InvalidFormat |
| PieceExamples.MebibyteGeometry | src/torrent/file.rs:290-291 | 1 MiB in 256 KiB pieces: four full pieces, nothing past the end |
| PieceExamples.ExtraDigestGeometry | src/torrent/file.rs:297-298 | 2048 bytes in 1024-byte pieces with three digests: the last piece is reported full and the sizes total 3072 |
| PieceExamples.TwoFilesGeometry | src/torrent/file.rs:324-335 | files of 100 and 5000 bytes: piece 0 meets both files, piece 1 only the second, and the last piece holds 1004 bytes |
| TrackerExamples.EscapedSpace | src/tracker/mod.rs:219-228 | `a b!` encodes to `a%20b%21` |
| TrackerExamples.UpperCaseEscape | src/tracker/mod.rs:225 | the byte 0xAB is escaped as `%AB`, with upper-case digits |
| TrackerExamples.WordsAroundSpace | src/tracker/mod.rs:211-216 | the documented example's shape: two unreserved words around a space and before `!` encode to the words with `%20` and `%21` |
| TrackerExamples.LocalhostPeer | src/tracker/mod.rs:143-153 | seven bytes hold one compact peer, 127.0.0.1:6881; the stray byte is dropped |

## Left out

- I/O failures of the stream, TCP socket and writer are not modelled. This covers `BencodeError::Io`, `TcpStream::connect` and the tokio runtime. The handshake model starts once the connection exists, and a short read becomes UnexpectedEof.
- Timeouts and asynchrony are not modelled.
- The HTTP exchange of `announce` is not modelled: the `url` crate's URL building, `reqwest::get` and the response body. One consequence is out of scope: `query_pairs_mut` escapes the `%` of `url_encode`'s output a second time.
- The serde deserialisation of the tracker response into `TrackerResponse` is not modelled; `ParseAnnounceResponse` takes the deserialised fields. The `Peers::default` value is not modelled.
- SHA-1 is the parameter `sha1`; its internals are not modelled.
- `IpAddr::from_str` is the parameter `parseIp`, and `rand::rng` is the random tail passed to `GeneratePeerId`.
- `Client::new` is not modelled separately; it only pairs a generated peer id with the port (`Tracker.Client`).
- The text messages carried by `InvalidFormat` errors are not modelled; only the error kinds are.
- Error kinds that the modelled code never raises are left out: `CannotEncodeType`, `DictKeyNotString` and the like.
- Tracing, `anyhow` contexts and `src/lib.rs` are not modelled.
- PieceMap.PieceSize: does not model `i64` overflow of `(num_pieces - 1) * piece_length`. Offsets are unbounded integers, because the overflow needs torrents beyond any realistic size.
- PieceMap.FilePathsForPiece: paths are sequences of components; `PathBuf::join` semantics are not modelled. An absolute component would replace the path, and that case is not modelled.
- PieceMap.TotalLength: the `i64` sum of the file lengths is not wrapped on overflow.
- Torrent.ParseCreationDate: the creation time is kept as seconds after the Unix epoch rather than a `SystemTime`.
- Tracker.BuildAnnounceRequest: `uploaded`, `downloaded` and `left` are unbounded integers, not `u64`/`i64`.
- Decoder.DecodeString, Decoder.DecodeInteger, Decoder.DecodeNext, Decoder.DecodeListItems, Decoder.DecodeDictItems: their own contracts state only how much input they consume. Their exact results are stated by the `DecoderFacts` and `RoundTrip` lemmas: the successes by the round trips and the step lemmas, and the failures by `ListItemFails`, `ListTailFails`, `DictKeyFails`, `DictValueFails`, `NextOnListFails`, `NextOnDictFails`, `ItemsWithoutEnd` and the `Integer` and `String` lemmas of `DecoderFacts`.
- Tracker.UrlEncode: its own contract states only that the output is ASCII. Its meaning is stated by `Tracker.UrlEncodeDecodes`, `Tracker.UrlEncodeLength` and `Tracker.UrlEncodeAppend`, and the upper-case digits by `Tracker.PercentTriplet`.
- Decoder.DecodeString, DecoderFacts.StringTooShort: a length prefix of at most `isize::MAX` that is larger than the memory available makes `vec![0; length]` abort the process before any byte is read. The model does not model memory, so it reads on and gives UnexpectedEOI or the string. A prefix above `isize::MAX` is modelled: it is the CapacityOverflow outcome.
- Encoder.Encode, Encoder.EncodeString, Encoder.EncodeInteger, Encoder.EncodeList, Encoder.EncodeDict: their own contracts state only the framing. Their meaning is the round trip in `RoundTrip`.
