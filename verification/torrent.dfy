/** The torrent metadata model: turning a decoded bencode dictionary into a
    `TorrentFile` (`parse`, `parse_info_dict`, `parse_announce_list`,
    `parse_pieces`). Rust `String`s are held as their UTF-8 bytes, and a
    conversion with `String::from_utf8` is a `ValidUtf8` check. */
module Torrent {
  import opened Common
  import opened Utf8
  import opened Bencode
  import opened Encoder

  /** A Rust `String`: bytes that are valid UTF-8 wherever the parser
      produced them. */
  type Text = ByteString

  /** The error kinds the metadata parser reports. The messages carried by
      `InvalidFormat` are not modelled; the field names of `MissingField`
      are, because they say which check failed. */
  datatype TorrentError =
    | InvalidFormat
    | MissingField(field: string)
    | InvalidPiecesHashLength
    | DateParseError

  datatype FileDict = FileDict(length: I64, path: seq<Text>)

  datatype InfoDict = InfoDict(
    pieceLength: I64,
    pieces: ByteString,
    private: bool,
    name: Text,
    length: Option<I64>,
    files: seq<FileDict>,
    isDirectory: bool)

  /** `creationDate` is the number of seconds after the Unix epoch. */
  datatype TorrentFile = TorrentFile(
    announce: Text,
    announceList: seq<seq<Text>>,
    creationDate: Option<nat>,
    comment: Text,
    createdBy: Text,
    encoding: Text,
    info: InfoDict,
    infoHash: Bytes20,
    piecesHash: seq<Bytes20>)

  /* Dictionary keys, as the parser spells them. The creation time is looked
     up under "creation data", not the "creation date" of BEP 3. */
  const ANNOUNCE: ByteString := [97, 110, 110, 111, 117, 110, 99, 101] // "announce"
  const ANNOUNCE_LIST: ByteString := [97, 110, 110, 111, 117, 110, 99, 101, 45, 108, 105, 115, 116] // "announce-list"
  const INFO: ByteString := [105, 110, 102, 111] // "info"
  const CREATION_DATE: ByteString := [99, 114, 101, 97, 116, 105, 111, 110, 32, 100, 97, 116, 97] // "creation data"
  const COMMENT: ByteString := [99, 111, 109, 109, 101, 110, 116] // "comment"
  const CREATED_BY: ByteString := [99, 114, 101, 97, 116, 101, 100, 32, 98, 121] // "created by"
  const ENCODING: ByteString := [101, 110, 99, 111, 100, 105, 110, 103] // "encoding"
  const PIECE_LENGTH: ByteString := [112, 105, 101, 99, 101, 32, 108, 101, 110, 103, 116, 104] // "piece length"
  const PIECES: ByteString := [112, 105, 101, 99, 101, 115] // "pieces"
  const PRIVATE: ByteString := [112, 114, 105, 118, 97, 116, 101] // "private"
  const NAME: ByteString := [110, 97, 109, 101] // "name"
  const LENGTH: ByteString := [108, 101, 110, 103, 116, 104] // "length"
  const FILES: ByteString := [102, 105, 108, 101, 115] // "files"
  const PATH: ByteString := [112, 97, 116, 104] // "path"

  /** `HashMap::get`. */
  function Get(d: map<ByteString, Value>, k: ByteString): (r: Option<Value>)
    ensures r.Some? <==> k in d
    ensures r.Some? ==> r.value == d[k]
  {
    if k in d then Some(d[k]) else None
  }

  /** The successive 20-byte slices of `b`. */
  function Chunks20(b: seq<Byte>): (r: seq<Bytes20>)
    requires |b| % 20 == 0
    ensures |r| == |b| / 20
    ensures forall i :: 0 <= i < |r| ==> r[i] == b[20 * i..20 * i + 20]
    ensures Flatten(r) == b
    decreases |b|
  {
    if |b| == 0 then []
    else
      var more := Chunks20(b[20..]);
      assert forall i :: 0 < i < |more| + 1 ==> more[i - 1] == b[20 * i..20 * i + 20];
      assert b == b[..20] + b[20..];
      [b[..20]] + more
  }

  /** `parse_pieces`: the piece-hash table as 20-byte SHA-1 digests. */
  function ParsePieces(b: seq<Byte>): (r: Result<seq<Bytes20>, TorrentError>)
    ensures r.Err? <==> |b| % 20 != 0
    ensures r.Err? ==> r.error == InvalidPiecesHashLength
    ensures r.Ok? ==> |r.value| == |b| / 20 && Flatten(r.value) == b
    ensures r.Ok? ==> forall i :: 0 <= i < |r.value| ==> r.value[i] == b[20 * i..20 * i + 20]
  {
    if |b| % 20 != 0 then Err(InvalidPiecesHashLength) else Ok(Chunks20(b))
  }

  /** A byte string the parser accepts as a `String`. */
  predicate IsText(v: Value) {
    v.String? && ValidUtf8(v.bytes)
  }

  /** A list of strings converted one by one with `String::from_utf8`, as
      both the tracker tiers and the file paths are: any non-string or
      non-UTF-8 member fails the whole list with TorrentError.InvalidFormat. */
  function ParseTexts(vs: seq<Value>): (r: Result<seq<Text>, TorrentError>)
    ensures r.Ok? <==> forall j :: 0 <= j < |vs| ==> IsText(vs[j])
    ensures r.Ok? ==> |r.value| == |vs| && forall j :: 0 <= j < |vs| ==> r.value[j] == vs[j].bytes
    ensures r.Err? ==> r.error == TorrentError.InvalidFormat
  {
    if |vs| == 0 then Ok([])
    else if !IsText(vs[0]) then Err(TorrentError.InvalidFormat)
    else
      var more :- ParseTexts(vs[1..]);
      Ok([vs[0].bytes] + more)
  }

  /** A tier of the announce list: a list of trackers. */
  predicate IsTier(v: Value) {
    v.List? && forall j :: 0 <= j < |v.items| ==> IsText(v.items[j])
  }

  function ParseTiers(tiers: seq<Value>): (r: Result<seq<seq<Text>>, TorrentError>)
    ensures r.Ok? <==> forall i :: 0 <= i < |tiers| ==> IsTier(tiers[i])
    ensures r.Ok? ==> |r.value| == |tiers|
    ensures r.Ok? ==> forall i :: 0 <= i < |tiers| ==> ParseTexts(tiers[i].items) == Ok(r.value[i])
    ensures r.Err? ==> r.error == TorrentError.InvalidFormat
  {
    if |tiers| == 0 then Ok([])
    else if !tiers[0].List? then Err(TorrentError.InvalidFormat)
    else
      var tier :- ParseTexts(tiers[0].items);
      var more :- ParseTiers(tiers[1..]);
      Ok([tier] + more)
  }

  /** `parse_announce_list`: a list of tiers, each a list of tracker URLs,
      with nesting and order kept. */
  function ParseAnnounceList(v: Value): (r: Result<seq<seq<Text>>, TorrentError>)
    ensures r.Ok? <==> v.List? && forall i :: 0 <= i < |v.items| ==> IsTier(v.items[i])
    ensures r.Ok? ==> |r.value| == |v.items|
    ensures r.Ok? ==> forall i :: 0 <= i < |r.value| ==>
                        |r.value[i]| == |v.items[i].items|
                        && forall j :: 0 <= j < |r.value[i]| ==> r.value[i][j] == v.items[i].items[j].bytes
    ensures r.Err? ==> r.error == TorrentError.InvalidFormat
  {
    if v.List? then ParseTiers(v.items) else Err(TorrentError.InvalidFormat)
  }

  /** A well-formed entry of `files`: a dictionary with an integer
      `length` and a `path` list of UTF-8 strings. */
  predicate IsFileEntry(v: Value) {
    v.Dict? && LENGTH in v.entries && v.entries[LENGTH].Integer?
    && PATH in v.entries && v.entries[PATH].List?
    && forall j :: 0 <= j < |v.entries[PATH].items| ==> IsText(v.entries[PATH].items[j])
  }

  /** One entry of `files`: a dictionary with an integer `length` and a
      `path` list of strings, checked in that order. */
  function ParseFileEntry(v: Value): (r: Result<FileDict, TorrentError>)
    ensures r.Ok? <==> IsFileEntry(v)
    ensures r.Ok? ==> v.Dict? && Get(v.entries, LENGTH) == Some(Integer(r.value.length))
    ensures r.Ok? ==> Get(v.entries, PATH).Some? && v.entries[PATH].List?
                      && ParseTexts(v.entries[PATH].items) == Ok(r.value.path)
    ensures r.Ok? ==> |r.value.path| == |v.entries[PATH].items|
                      && forall j :: 0 <= j < |r.value.path| ==> r.value.path[j] == v.entries[PATH].items[j].bytes
    ensures !v.Dict? ==> r == Err(TorrentError.InvalidFormat)
    ensures (v.Dict? && !(LENGTH in v.entries && v.entries[LENGTH].Integer?))
            ==> r == Err(MissingField("file length"))
    ensures (v.Dict? && LENGTH in v.entries && v.entries[LENGTH].Integer?
             && !(PATH in v.entries && v.entries[PATH].List?))
            ==> r == Err(MissingField("file path"))
    ensures (v.Dict? && LENGTH in v.entries && v.entries[LENGTH].Integer?
             && PATH in v.entries && v.entries[PATH].List? && !IsFileEntry(v))
            ==> r == Err(TorrentError.InvalidFormat)
  {
    match v
    case Dict(d) =>
      var length :- match Get(d, LENGTH)
                    case Some(Integer(n)) => Ok(n)
                    case _ => Err(MissingField("file length"));
      var path :- match Get(d, PATH)
                  case Some(List(components)) => ParseTexts(components)
                  case _ => Err(MissingField("file path"));
      Ok(FileDict(length, path))
    case _ => Err(TorrentError.InvalidFormat)
  }

  /** The `files` loop: entries in order, stopping at the first failure. */
  function ParseFiles(vs: seq<Value>): (r: Result<seq<FileDict>, TorrentError>)
    ensures r.Ok? <==> forall i :: 0 <= i < |vs| ==> ParseFileEntry(vs[i]).Ok?
    ensures r.Ok? ==> |r.value| == |vs| && forall i :: 0 <= i < |vs| ==> ParseFileEntry(vs[i]) == Ok(r.value[i])
    ensures r.Err? ==> exists i :: 0 <= i < |vs| && (forall j :: 0 <= j < i ==> ParseFileEntry(vs[j]).Ok?)
                                 && ParseFileEntry(vs[i]) == Err(r.error)
  {
    if |vs| == 0 then Ok([])
    else
      var entry :- ParseFileEntry(vs[0]);
      var more :- ParseFiles(vs[1..]);
      Ok([entry] + more)
  }

  /** The `files` field: a list is parsed, anything else (or nothing) means
      a single-file torrent with no file entries. */
  function ParseFilesField(d: map<ByteString, Value>): (r: Result<seq<FileDict>, TorrentError>)
    ensures !(FILES in d && d[FILES].List?) ==> r == Ok([])
    ensures (FILES in d && d[FILES].List?)
            ==> (r.Ok? <==> forall i :: 0 <= i < |d[FILES].items| ==> IsFileEntry(d[FILES].items[i]))
    ensures (FILES in d && d[FILES].List? && r.Ok?)
            ==> |r.value| == |d[FILES].items|
                && forall i :: 0 <= i < |r.value| ==> ParseFileEntry(d[FILES].items[i]) == Ok(r.value[i])
    ensures r.Err? ==> FILES in d && d[FILES].List?
                       && exists i :: 0 <= i < |d[FILES].items|
                                      && (forall j :: 0 <= j < i ==> ParseFileEntry(d[FILES].items[j]).Ok?)
                                      && ParseFileEntry(d[FILES].items[i]) == Err(r.error)
  {
    match Get(d, FILES)
    case Some(List(vs)) => ParseFiles(vs)
    case _ => Ok([])
  }

  /** `key` holds a UTF-8 string. */
  predicate HasText(d: map<ByteString, Value>, key: ByteString) {
    key in d && IsText(d[key])
  }

  /** Every check of `parse_info_dict` passes. */
  predicate IsInfoDict(v: Value) {
    v.Dict? && PIECE_LENGTH in v.entries && v.entries[PIECE_LENGTH].Integer?
    && PIECES in v.entries && v.entries[PIECES].String?
    && HasText(v.entries, NAME)
    && ParseFilesField(v.entries).Ok?
  }

  /** `parse_info_dict`. Required fields are checked in the order
      `piece length`, `pieces`, `name`; `private` is set only by the integer
      1; a `length` that is not an integer is treated as absent. */
  function ParseInfoDict(v: Value): (r: Result<InfoDict, TorrentError>)
    ensures r.Ok? <==> IsInfoDict(v)
    ensures !v.Dict? ==> r == Err(TorrentError.InvalidFormat)
    ensures (v.Dict? && !(PIECE_LENGTH in v.entries && v.entries[PIECE_LENGTH].Integer?))
            ==> r == Err(MissingField("piece length"))
    ensures (v.Dict? && PIECE_LENGTH in v.entries && v.entries[PIECE_LENGTH].Integer?
             && !(PIECES in v.entries && v.entries[PIECES].String?))
            ==> r == Err(MissingField("pieces"))
    ensures (v.Dict? && PIECE_LENGTH in v.entries && v.entries[PIECE_LENGTH].Integer?
             && PIECES in v.entries && v.entries[PIECES].String?
             && !(NAME in v.entries && v.entries[NAME].String?))
            ==> r == Err(MissingField("name"))
    ensures (v.Dict? && PIECE_LENGTH in v.entries && v.entries[PIECE_LENGTH].Integer?
             && PIECES in v.entries && v.entries[PIECES].String?
             && NAME in v.entries && v.entries[NAME].String? && !ValidUtf8(v.entries[NAME].bytes))
            ==> r == Err(TorrentError.InvalidFormat)
    ensures (v.Dict? && PIECE_LENGTH in v.entries && v.entries[PIECE_LENGTH].Integer?
             && PIECES in v.entries && v.entries[PIECES].String?
             && HasText(v.entries, NAME) && ParseFilesField(v.entries).Err?)
            ==> r == Err(ParseFilesField(v.entries).error)
    ensures r.Ok? ==> v.Dict? && Get(v.entries, PIECE_LENGTH) == Some(Integer(r.value.pieceLength))
    ensures r.Ok? ==> Get(v.entries, PIECES) == Some(String(r.value.pieces))
    ensures r.Ok? ==> (r.value.private <==> Get(v.entries, PRIVATE) == Some(Integer(1)))
    ensures r.Ok? ==> Get(v.entries, NAME) == Some(String(r.value.name)) && ValidUtf8(r.value.name)
    ensures r.Ok? ==> (r.value.length.Some? <==> LENGTH in v.entries && v.entries[LENGTH].Integer?)
    ensures r.Ok? && r.value.length.Some? ==> v.entries[LENGTH] == Integer(r.value.length.value)
    ensures r.Ok? ==> ParseFilesField(v.entries) == Ok(r.value.files)
    ensures r.Ok? ==> (r.value.isDirectory <==> |r.value.files| > 0)
  {
    match v
    case Dict(d) =>
      var pieceLength :- match Get(d, PIECE_LENGTH)
                         case Some(Integer(n)) => Ok(n)
                         case _ => Err(MissingField("piece length"));
      var pieces :- match Get(d, PIECES)
                    case Some(String(s)) => Ok(s)
                    case _ => Err(MissingField("pieces"));
      var private := Get(d, PRIVATE) == Some(Integer(1));
      var name :- match Get(d, NAME)
                  case Some(String(s)) => if ValidUtf8(s) then Ok(s) else Err(TorrentError.InvalidFormat)
                  case _ => Err(MissingField("name"));
      var length := match Get(d, LENGTH)
                    case Some(Integer(n)) => Some(n)
                    case _ => None;
      var files :- ParseFilesField(d);
      Ok(InfoDict(pieceLength, pieces, private, name, length, files, |files| > 0))
    case _ => Err(TorrentError.InvalidFormat)
  }

  /** An optional descriptive field (`comment`, `created by`, `encoding`):
      its text when it is a UTF-8 string, otherwise empty. */
  function OptionalText(d: map<ByteString, Value>, k: ByteString): (r: Text)
    ensures ValidUtf8(r)
    ensures HasText(d, k) ==> r == d[k].bytes
    ensures !HasText(d, k) ==> r == []
  {
    match Get(d, k)
    case Some(String(s)) => if ValidUtf8(s) then s else []
    case _ => []
  }

  /** The creation time under the key "creation data": absent gives None,
      a non-negative integer gives that many seconds, a negative one fails
      the conversion to `u64`, anything else is TorrentError.InvalidFormat. */
  function ParseCreationDate(d: map<ByteString, Value>): (r: Result<Option<nat>, TorrentError>)
    ensures CREATION_DATE !in d ==> r == Ok(None)
    ensures (CREATION_DATE in d && d[CREATION_DATE].Integer? && d[CREATION_DATE].n >= 0)
            ==> r.Ok? && r.value == Some(d[CREATION_DATE].n)
    ensures r.Ok? && r.value.Some? ==> d[CREATION_DATE].Integer? && d[CREATION_DATE].n == r.value.value
    ensures r == Err(DateParseError) <==> CREATION_DATE in d && d[CREATION_DATE].Integer? && d[CREATION_DATE].n < 0
    ensures r == Err(TorrentError.InvalidFormat) <==> CREATION_DATE in d && !d[CREATION_DATE].Integer?
  {
    match Get(d, CREATION_DATE)
    case None => Ok(None)
    case Some(Integer(t)) => if t < 0 then Err(DateParseError) else Ok(Some(t))
    case Some(_) => Err(TorrentError.InvalidFormat)
  }

  /** `announce` was found and is a UTF-8 string. */
  predicate AnnounceChecked(announceField: Option<Value>) {
    announceField.Some? && IsText(announceField.value)
  }

  /** `info` was found and passes `parse_info_dict` (so it is a dictionary). */
  predicate InfoChecked(infoField: Option<Value>) {
    infoField.Some? && ParseInfoDict(infoField.value).Ok?
  }

  /** `announce-list` is absent or passes `parse_announce_list`. */
  predicate AnnounceListChecked(announceListField: Option<Value>) {
    announceListField.None? || ParseAnnounceList(announceListField.value).Ok?
  }

  /** Every check of `parse` passes, the length of `pieces` last. */
  predicate Accepted(announceField: Option<Value>, infoField: Option<Value>, announceListField: Option<Value>,
                     creationDate: Result<Option<nat>, TorrentError>) {
    AnnounceChecked(announceField) && InfoChecked(infoField) && AnnounceListChecked(announceListField)
    && creationDate.Ok? && |ParseInfoDict(infoField.value).value.pieces| % 20 == 0
  }

  /** `TorrentFile::parse`. The checks run in the order of the source:
      root, `announce`, `info`, the info dictionary, `announce-list`,
      the creation date, then the piece table. `sha1` is the SHA-1 digest
      function; the info hash is the digest of the re-encoded info
      dictionary. */
  function Parse(data: Value, sha1: seq<Byte> -> Bytes20): (r: Result<TorrentFile, TorrentError>)
    ensures !data.Dict? ==> r == Err(TorrentError.InvalidFormat)
    ensures data.Dict? ==>
              (r.Ok? <==> Accepted(Get(data.entries, ANNOUNCE), Get(data.entries, INFO),
                                   Get(data.entries, ANNOUNCE_LIST), ParseCreationDate(data.entries)))
    ensures data.Dict? && ANNOUNCE !in data.entries ==> r == Err(MissingField("announce"))
    ensures data.Dict? && ANNOUNCE in data.entries && !data.entries[ANNOUNCE].String?
            ==> r == Err(MissingField("announce(not string)"))
    ensures data.Dict? && ANNOUNCE in data.entries && data.entries[ANNOUNCE].String? && !HasText(data.entries, ANNOUNCE)
            ==> r == Err(TorrentError.InvalidFormat)
    ensures data.Dict? && HasText(data.entries, ANNOUNCE) && INFO !in data.entries
            ==> r == Err(MissingField("info"))
    ensures data.Dict? && HasText(data.entries, ANNOUNCE) && INFO in data.entries && !data.entries[INFO].Dict?
            ==> r == Err(TorrentError.InvalidFormat)
    ensures data.Dict? && HasText(data.entries, ANNOUNCE) && INFO in data.entries
            && ParseInfoDict(data.entries[INFO]).Err?
            ==> r == Err(ParseInfoDict(data.entries[INFO]).error)
    ensures data.Dict? && HasText(data.entries, ANNOUNCE) && InfoChecked(Get(data.entries, INFO))
            && ANNOUNCE_LIST in data.entries && ParseAnnounceList(data.entries[ANNOUNCE_LIST]).Err?
            ==> r == Err(TorrentError.InvalidFormat)
    ensures data.Dict? && HasText(data.entries, ANNOUNCE) && InfoChecked(Get(data.entries, INFO))
            && AnnounceListChecked(Get(data.entries, ANNOUNCE_LIST)) && ParseCreationDate(data.entries).Err?
            ==> r == Err(ParseCreationDate(data.entries).error)
    ensures data.Dict? && HasText(data.entries, ANNOUNCE) && InfoChecked(Get(data.entries, INFO))
            && AnnounceListChecked(Get(data.entries, ANNOUNCE_LIST)) && ParseCreationDate(data.entries).Ok?
            && |ParseInfoDict(data.entries[INFO]).value.pieces| % 20 != 0
            ==> r == Err(InvalidPiecesHashLength)
    ensures r.Ok? ==> data.Dict? && INFO in data.entries && data.entries[INFO].Dict?
    ensures r.Ok? ==> r.value.infoHash == sha1(Encode(data.entries[INFO]))
    ensures r.Ok? ==> ParseInfoDict(data.entries[INFO]) == Ok(r.value.info)
    ensures r.Ok? ==> Get(data.entries, ANNOUNCE) == Some(String(r.value.announce)) && ValidUtf8(r.value.announce)
    ensures r.Ok? && ANNOUNCE_LIST !in data.entries ==> r.value.announceList == []
    ensures r.Ok? && ANNOUNCE_LIST in data.entries
            ==> ParseAnnounceList(data.entries[ANNOUNCE_LIST]) == Ok(r.value.announceList)
    ensures r.Ok? ==> ParseCreationDate(data.entries) == Ok(r.value.creationDate)
    ensures r.Ok? ==> r.value.comment == OptionalText(data.entries, COMMENT)
                      && r.value.createdBy == OptionalText(data.entries, CREATED_BY)
                      && r.value.encoding == OptionalText(data.entries, ENCODING)
    ensures r.Ok? ==> ParsePieces(r.value.info.pieces) == Ok(r.value.piecesHash)
    ensures r.Ok? ==> |r.value.piecesHash| == |r.value.info.pieces| / 20
    ensures r.Ok? ==> Flatten(r.value.piecesHash) == r.value.info.pieces
  {
    match data
    case Dict(d) =>
      ParseFields(Get(d, ANNOUNCE), Get(d, INFO), Get(d, ANNOUNCE_LIST), ParseCreationDate(d),
                  OptionalText(d, COMMENT), OptionalText(d, CREATED_BY), OptionalText(d, ENCODING), sha1)
    case _ => Err(TorrentError.InvalidFormat)
  }

  /** The body of `parse` once the root is a dictionary, as a function of
      the fields it looks up. */
  function ParseFields(announceField: Option<Value>, infoField: Option<Value>, announceListField: Option<Value>,
                       creationDate: Result<Option<nat>, TorrentError>,
                       comment: Text, createdBy: Text, encoding: Text,
                       sha1: seq<Byte> -> Bytes20): (r: Result<TorrentFile, TorrentError>)
    ensures r.Ok? <==> Accepted(announceField, infoField, announceListField, creationDate)
    ensures announceField.None? ==> r == Err(MissingField("announce"))
    ensures announceField.Some? && !announceField.value.String? ==> r == Err(MissingField("announce(not string)"))
    ensures announceField.Some? && announceField.value.String? && !ValidUtf8(announceField.value.bytes)
            ==> r == Err(TorrentError.InvalidFormat)
    ensures AnnounceChecked(announceField) && infoField.None? ==> r == Err(MissingField("info"))
    ensures AnnounceChecked(announceField) && infoField.Some? && !infoField.value.Dict?
            ==> r == Err(TorrentError.InvalidFormat)
    ensures AnnounceChecked(announceField) && infoField.Some? && ParseInfoDict(infoField.value).Err?
            ==> r == Err(ParseInfoDict(infoField.value).error)
    ensures AnnounceChecked(announceField) && InfoChecked(infoField) && !AnnounceListChecked(announceListField)
            ==> r == Err(TorrentError.InvalidFormat)
    ensures AnnounceChecked(announceField) && InfoChecked(infoField) && AnnounceListChecked(announceListField)
            && creationDate.Err?
            ==> r == Err(creationDate.error)
    ensures AnnounceChecked(announceField) && InfoChecked(infoField) && AnnounceListChecked(announceListField)
            && creationDate.Ok? && |ParseInfoDict(infoField.value).value.pieces| % 20 != 0
            ==> r == Err(InvalidPiecesHashLength)
    ensures r.Ok? ==> infoField.Some? && infoField.value.Dict?
    ensures r.Ok? ==> r.value.infoHash == sha1(Encode(infoField.value))
    ensures r.Ok? ==> ParseInfoDict(infoField.value) == Ok(r.value.info)
    ensures r.Ok? ==> announceField == Some(String(r.value.announce)) && ValidUtf8(r.value.announce)
    ensures r.Ok? && announceListField.None? ==> r.value.announceList == []
    ensures r.Ok? && announceListField.Some? ==> ParseAnnounceList(announceListField.value) == Ok(r.value.announceList)
    ensures r.Ok? ==> creationDate == Ok(r.value.creationDate)
    ensures r.Ok? ==> r.value.comment == comment && r.value.createdBy == createdBy && r.value.encoding == encoding
    ensures r.Ok? ==> ParsePieces(r.value.info.pieces) == Ok(r.value.piecesHash)
    ensures r.Ok? ==> |r.value.piecesHash| == |r.value.info.pieces| / 20
    ensures r.Ok? ==> Flatten(r.value.piecesHash) == r.value.info.pieces
  {
    var announceValue :- match announceField
                         case Some(a) => Ok(a)
                         case None => Err(MissingField("announce"));
    var announce :- match announceValue
                    case String(s) => if ValidUtf8(s) then Ok(s) else Err(TorrentError.InvalidFormat)
                    case _ => Err(MissingField("announce(not string)"));
    var infoValue :- match infoField
                     case Some(i) => Ok(i)
                     case None => Err(MissingField("info"));
    var infoMap :- match infoValue
                   case Dict(m) => Ok(m)
                   case _ => Err(TorrentError.InvalidFormat);
    var info :- ParseInfoDict(infoValue);
    var announceList :- match announceListField
                        case Some(l) => ParseAnnounceList(l)
                        case None => Ok([]);
    var date :- creationDate;
    var infoHash := sha1(Encode(Dict(infoMap)));
    var piecesHash :- ParsePieces(info.pieces);
    Ok(TorrentFile(announce, announceList, date, comment, createdBy, encoding, info, infoHash, piecesHash))
  }
}
