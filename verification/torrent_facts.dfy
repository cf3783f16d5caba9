/** Properties of `TorrentFile::parse`: which keys it reads, and what the
    info hash depends on. */
module TorrentFacts {
  import opened Common
  import opened Bencode
  import opened Encoder
  import opened Torrent

  /** The top-level keys `parse` looks at. */
  predicate ReadByParse(k: ByteString) {
    k == ANNOUNCE || k == INFO || k == ANNOUNCE_LIST || k == CREATION_DATE
    || k == COMMENT || k == CREATED_BY || k == ENCODING
  }

  /** Adding or replacing any other top-level key changes nothing. */
  lemma UnreadKeyIgnored(m: map<ByteString, Value>, k: ByteString, v: Value, sha1: seq<Byte> -> Bytes20)
    requires !ReadByParse(k)
    ensures Parse(Dict(m[k := v]), sha1) == Parse(Dict(m), sha1)
  {
    var m' := m[k := v];
    assert Get(m', ANNOUNCE) == Get(m, ANNOUNCE);
    assert Get(m', INFO) == Get(m, INFO);
    assert Get(m', ANNOUNCE_LIST) == Get(m, ANNOUNCE_LIST);
    assert ParseCreationDate(m') == ParseCreationDate(m);
    assert OptionalText(m', COMMENT) == OptionalText(m, COMMENT);
    assert OptionalText(m', CREATED_BY) == OptionalText(m, CREATED_BY);
    assert OptionalText(m', ENCODING) == OptionalText(m, ENCODING);
  }

  /** "creation date" */
  const CREATION_DATE_BEP3: ByteString := [99, 114, 101, 97, 116, 105, 111, 110, 32, 100, 97, 116, 101]

  /** The creation time stored under the key BEP 3 names, "creation date",
      is never read: the parser looks under "creation data". */
  lemma CreationDateKeyIgnored(m: map<ByteString, Value>, v: Value, sha1: seq<Byte> -> Bytes20)
    ensures Parse(Dict(m[CREATION_DATE_BEP3 := v]), sha1) == Parse(Dict(m), sha1)
  {
    assert CREATION_DATE_BEP3[12] != CREATION_DATE[12];
    UnreadKeyIgnored(m, CREATION_DATE_BEP3, v, sha1);
  }

  /** The comment affects nothing but the `comment` field, and cannot make
      parsing fail. */
  lemma CommentOnlyAffectsComment(m: map<ByteString, Value>, c: Value, sha1: seq<Byte> -> Bytes20)
    ensures Parse(Dict(m[COMMENT := c]), sha1)
              == match Parse(Dict(m), sha1)
                 case Ok(t) => Ok(t.(comment := OptionalText(map[COMMENT := c], COMMENT)))
                 case Err(e) => Err(e)
  {
    var m' := m[COMMENT := c];
    assert Get(m', ANNOUNCE) == Get(m, ANNOUNCE);
    assert Get(m', INFO) == Get(m, INFO);
    assert Get(m', ANNOUNCE_LIST) == Get(m, ANNOUNCE_LIST);
    assert ParseCreationDate(m') == ParseCreationDate(m);
    assert OptionalText(m', COMMENT) == OptionalText(map[COMMENT := c], COMMENT);
    assert OptionalText(m', CREATED_BY) == OptionalText(m, CREATED_BY);
    assert OptionalText(m', ENCODING) == OptionalText(m, ENCODING);
    FieldsComment(Get(m, ANNOUNCE), Get(m, INFO), Get(m, ANNOUNCE_LIST), ParseCreationDate(m),
                  OptionalText(m, COMMENT), OptionalText(m', COMMENT),
                  OptionalText(m, CREATED_BY), OptionalText(m, ENCODING), sha1);
  }

  lemma FieldsComment(announceField: Option<Value>, infoField: Option<Value>, announceListField: Option<Value>,
                      creationDate: Result<Option<nat>, TorrentError>,
                      comment: Text, comment': Text, createdBy: Text, encoding: Text,
                      sha1: seq<Byte> -> Bytes20)
    ensures ParseFields(announceField, infoField, announceListField, creationDate, comment', createdBy, encoding, sha1)
              == match ParseFields(announceField, infoField, announceListField, creationDate, comment, createdBy, encoding, sha1)
                 case Ok(t) => Ok(t.(comment := comment'))
                 case Err(e) => Err(e)
  {
  }

  /** The info hash, the info dictionary and the piece table are functions
      of the raw `info` value alone: two torrents that share it agree on
      all three, whatever their other keys. */
  lemma InfoHashDependsOnlyOnInfo(m1: map<ByteString, Value>, m2: map<ByteString, Value>, sha1: seq<Byte> -> Bytes20)
    requires Parse(Dict(m1), sha1).Ok? && Parse(Dict(m2), sha1).Ok?
    requires m1[INFO] == m2[INFO]
    ensures Parse(Dict(m1), sha1).value.infoHash == Parse(Dict(m2), sha1).value.infoHash
    ensures Parse(Dict(m1), sha1).value.info == Parse(Dict(m2), sha1).value.info
    ensures Parse(Dict(m1), sha1).value.piecesHash == Parse(Dict(m2), sha1).value.piecesHash
  {
  }

  /** The piece table of a parsed torrent has one digest per 20 bytes of
      `pieces`, and those digests are its successive 20-byte slices. */
  lemma ParsedPieceTable(data: Value, sha1: seq<Byte> -> Bytes20)
    requires Parse(data, sha1).Ok?
    ensures var t := Parse(data, sha1).value;
            |t.info.pieces| % 20 == 0
            && forall i :: 0 <= i < |t.piecesHash| ==> t.piecesHash[i] == t.info.pieces[20 * i..20 * i + 20]
  {
  }
}
