/** The BitTorrent peer handshake (BEP 3): a 68-byte message holding the
    protocol name, eight reserved bytes, the torrent's info hash and the
    sender's peer id. Reading from the TCP stream is modelled as a pure parse
    of the bytes the peer sent, returning how many of them were consumed. */
module PeerHandshake {
  import opened Common

  type Bytes8 = s: seq<Byte> | |s| == 8 witness Zeros(8)
  type Bytes19 = s: seq<Byte> | |s| == 19 witness Zeros(19)

  const PROTOCOL_LEN: Byte := 19
  /** "BitTorrent protocol" */
  const PROTOCOL: Bytes19 := [66, 105, 116, 84, 111, 114, 114, 101, 110, 116, 32, 112, 114, 111, 116, 111, 99, 111, 108]
  const HANDSHAKE_LEN: nat := 68

  datatype Handshake = Handshake(
    protocolLen: Byte,
    protocol: Bytes19,
    reserved: Bytes8,
    infoHash: Bytes20,
    peerId: Bytes20)

  /** Why a handshake was refused. `UnexpectedEof` is the failure of
      `read_exact` when the peer sends fewer bytes than asked for. */
  datatype HandshakeError =
    | UnexpectedEof
    | InvalidProtocolLength(length: Byte)
    | InvalidProtocol(protocol: Bytes19)
    | InfoHashMismatch(got: Bytes20, expected: Bytes20)

  /** `Handshake::new`: the standard protocol name and no extension bits,
      so `serialize` loses nothing of it. */
  function New(infoHash: Bytes20, peerId: Bytes20): (h: Handshake)
    ensures h.infoHash == infoHash && h.peerId == peerId
    ensures h.protocolLen == PROTOCOL_LEN && h.protocol == PROTOCOL
    ensures Serialize(h) == Wire(h)
  {
    Handshake(PROTOCOL_LEN, PROTOCOL, Zeros(8), infoHash, peerId)
  }

  /** `serialize`: the 68-byte wire form. The reserved bytes are written as
      zeros whatever the handshake holds. */
  function Serialize(h: Handshake): (r: seq<Byte>)
    ensures |r| == HANDSHAKE_LEN
    ensures r[0] == h.protocolLen
    ensures r[1..20] == h.protocol
    ensures r[20..28] == Zeros(8)
    ensures r[28..48] == h.infoHash
    ensures r[48..68] == h.peerId
  {
    [h.protocolLen] + h.protocol + Zeros(8) + h.infoHash + h.peerId
  }

  /** The 68 bytes of a handshake as a peer may send them, its reserved
      (extension) bytes included; `serialize` sends this with the reserved
      bytes zeroed. */
  function Wire(h: Handshake): (r: seq<Byte>)
    ensures |r| == HANDSHAKE_LEN
    ensures r[0] == h.protocolLen && r[1..20] == h.protocol && r[20..28] == h.reserved
    ensures r[28..48] == h.infoHash && r[48..68] == h.peerId
  {
    [h.protocolLen] + h.protocol + h.reserved + h.infoHash + h.peerId
  }

  /** What `serialize` writes is the wire form with no extension bits. */
  lemma SerializeIsZeroedWire(h: Handshake)
    ensures Serialize(h) == Wire(h.(reserved := Zeros(8)))
  {
  }

  /** A parse of the peer's bytes and the number of bytes it consumed. */
  datatype ReadOutcome = ReadOutcome(result: Result<Handshake, HandshakeError>, consumed: nat)

  /** `Handshake::read`: one length byte, which must be 19 (otherwise only
      that byte is consumed), then 67 more bytes whose first 19 must be the
      protocol name; reserved bytes, info hash and peer id follow at offsets
      19, 27 and 47 of those 67, that is at 20, 28 and 48 of the input. */
  function Read(input: seq<Byte>): (r: ReadOutcome)
    ensures r.consumed <= |input|
    ensures |input| == 0 ==> r == ReadOutcome(Err(UnexpectedEof), 0)
    ensures (|input| > 0 && input[0] != PROTOCOL_LEN) ==> r == ReadOutcome(Err(InvalidProtocolLength(input[0])), 1)
    ensures (|input| > 0 && input[0] == PROTOCOL_LEN && |input| < HANDSHAKE_LEN)
            ==> r == ReadOutcome(Err(UnexpectedEof), |input|)
    ensures (|input| >= HANDSHAKE_LEN && input[0] == PROTOCOL_LEN)
            ==> r == ReadOutcome(if input[1..20] == PROTOCOL
                                 then Ok(Handshake(PROTOCOL_LEN, PROTOCOL, input[20..28], input[28..48], input[48..68]))
                                 else Err(InvalidProtocol(input[1..20])),
                                 HANDSHAKE_LEN)
    ensures r.result.Ok? ==> r.consumed == HANDSHAKE_LEN && r.result.value.protocol == PROTOCOL
    ensures r.result.Ok? ==> Wire(r.result.value) == input[..HANDSHAKE_LEN]
  {
    if |input| == 0 then ReadOutcome(Err(UnexpectedEof), 0)
    else if input[0] != PROTOCOL_LEN then ReadOutcome(Err(InvalidProtocolLength(input[0])), 1)
    else if |input| < HANDSHAKE_LEN then ReadOutcome(Err(UnexpectedEof), |input|)
    else
      var protocol: Bytes19 := input[1..20];
      if protocol != PROTOCOL then ReadOutcome(Err(InvalidProtocol(protocol)), HANDSHAKE_LEN)
      else
        var h := Handshake(input[0], protocol, input[20..28], input[28..48], input[48..68]);
        assert input[..HANDSHAKE_LEN] == [input[0]] + input[1..20] + input[20..28] + input[28..48] + input[48..68];
        ReadOutcome(Ok(h), HANDSHAKE_LEN)
  }

  /** `validate`: the peer must be serving the expected torrent. */
  function Validate(h: Handshake, expected: Bytes20): (r: Result<(), HandshakeError>)
    ensures r.Ok? <==> h.infoHash == expected
    ensures r.Err? ==> r.error == InfoHashMismatch(h.infoHash, expected)
  {
    if h.infoHash != expected then Err(InfoHashMismatch(h.infoHash, expected)) else Ok(())
  }

  /** What one handshake exchange sends, concludes and consumes. */
  datatype Exchange = Exchange(sent: seq<Byte>, result: Result<Handshake, HandshakeError>, consumed: nat)

  /** The framing and checks of `do_handshake`, after the connection is
      made: send our handshake, then read the peer's and check its length
      byte, protocol name and info hash, in that order. The accepted
      handshake carries the literal protocol name. */
  function DoHandshake(infoHash: Bytes20, peerId: Bytes20, received: seq<Byte>): (x: Exchange)
    ensures x.sent == Serialize(New(infoHash, peerId))
    ensures x.result.Ok? ==> x.result.value.infoHash == infoHash && x.result.value.protocol == PROTOCOL
    ensures x.consumed <= |received|
    ensures x.result.Ok? ==> x.consumed == HANDSHAKE_LEN && x.result.value.peerId == received[48..68]
    ensures x.result.Ok? ==> Wire(x.result.value) == received[..HANDSHAKE_LEN]
    ensures (|received| >= HANDSHAKE_LEN && received[0] == PROTOCOL_LEN && received[1..20] == PROTOCOL)
            ==> x.consumed == HANDSHAKE_LEN
                && x.result == if received[28..48] == infoHash
                               then Ok(Handshake(PROTOCOL_LEN, PROTOCOL, received[20..28], infoHash, received[48..68]))
                               else Err(InfoHashMismatch(received[28..48], infoHash))
  {
    var sent := Serialize(New(infoHash, peerId));
    if |received| == 0 then Exchange(sent, Err(UnexpectedEof), 0)
    else if received[0] != PROTOCOL_LEN then Exchange(sent, Err(InvalidProtocolLength(received[0])), 1)
    else if |received| < HANDSHAKE_LEN then Exchange(sent, Err(UnexpectedEof), |received|)
    else
      var protocol: Bytes19 := received[1..20];
      var peerInfoHash: Bytes20 := received[28..48];
      if protocol != PROTOCOL then Exchange(sent, Err(InvalidProtocol(protocol)), HANDSHAKE_LEN)
      else if peerInfoHash != infoHash then
        Exchange(sent, Err(InfoHashMismatch(peerInfoHash, infoHash)), HANDSHAKE_LEN)
      else
        var h := Handshake(PROTOCOL_LEN, PROTOCOL, received[20..28], peerInfoHash, received[48..68]);
        assert received[..HANDSHAKE_LEN] == [received[0]] + received[1..20] + received[20..28] + received[28..48] + received[48..68];
        Exchange(sent, Ok(h), HANDSHAKE_LEN)
  }

  /** Reading what `serialize` wrote gives the handshake back, apart from
      the reserved bytes, which travel as zeros; the bytes after the
      handshake are left unread. */
  lemma ReadSerialize(h: Handshake, rest: seq<Byte>)
    requires h.protocolLen == PROTOCOL_LEN && h.protocol == PROTOCOL
    ensures Read(Serialize(h) + rest) == ReadOutcome(Ok(h.(reserved := Zeros(8))), HANDSHAKE_LEN)
  {
    var s := Serialize(h) + rest;
    assert s[1..HANDSHAKE_LEN][0..19] == h.protocol;
    assert s[1..HANDSHAKE_LEN][27..47] == h.infoHash;
    assert s[1..HANDSHAKE_LEN][47..67] == h.peerId;
    assert s[1..HANDSHAKE_LEN][19..27] == Zeros(8);
  }

  /** A fresh handshake survives the wire unchanged. */
  lemma ReadNew(infoHash: Bytes20, peerId: Bytes20, rest: seq<Byte>)
    ensures Read(Serialize(New(infoHash, peerId)) + rest) == ReadOutcome(Ok(New(infoHash, peerId)), HANDSHAKE_LEN)
  {
    ReadSerialize(New(infoHash, peerId), rest);
  }

  /** `do_handshake` is `read` followed by `validate`: the same outcome,
      the same bytes consumed. */
  lemma DoHandshakeIsReadThenValidate(infoHash: Bytes20, peerId: Bytes20, received: seq<Byte>)
    ensures DoHandshake(infoHash, peerId, received).consumed == Read(received).consumed
    ensures DoHandshake(infoHash, peerId, received).result
              == match Read(received).result
                 case Err(e) => Err(e)
                 case Ok(h) => (match Validate(h, infoHash)
                                case Ok(_) => Ok(h)
                                case Err(e) => Err(e))
  {
  }

  /** A peer that answers with our info hash is accepted, and its peer id is
      the one it sent. */
  lemma MatchingPeerAccepted(infoHash: Bytes20, ourId: Bytes20, theirId: Bytes20, rest: seq<Byte>)
    ensures DoHandshake(infoHash, ourId, Serialize(New(infoHash, theirId)) + rest).result
              == Ok(New(infoHash, theirId))
  {
    ReadNew(infoHash, theirId, rest);
    DoHandshakeIsReadThenValidate(infoHash, ourId, Serialize(New(infoHash, theirId)) + rest);
  }

  /** A peer serving another torrent is refused after all 68 bytes. */
  lemma OtherTorrentRefused(infoHash: Bytes20, other: Bytes20, ourId: Bytes20, theirId: Bytes20, rest: seq<Byte>)
    requires other != infoHash
    ensures DoHandshake(infoHash, ourId, Serialize(New(other, theirId)) + rest)
              == Exchange(Serialize(New(infoHash, ourId)), Err(InfoHashMismatch(other, infoHash)), HANDSHAKE_LEN)
  {
    ReadNew(other, theirId, rest);
    DoHandshakeIsReadThenValidate(infoHash, ourId, Serialize(New(other, theirId)) + rest);
  }

  /** Any well-framed handshake is read back exactly, extension bits
      included, and the bytes after it are left unread. */
  lemma {:induction false} ReadWire(h: Handshake, rest: seq<Byte>)
    requires h.protocolLen == PROTOCOL_LEN && h.protocol == PROTOCOL
    ensures Read(Wire(h) + rest) == ReadOutcome(Ok(h), HANDSHAKE_LEN)
  {
    var s := Wire(h) + rest;
    assert s[..HANDSHAKE_LEN] == Wire(h);
    assert s[1..20] == h.protocol && s[20..28] == h.reserved;
    assert s[28..48] == h.infoHash && s[48..68] == h.peerId;
  }

  /** A handshake is read successfully exactly when its first 68 bytes are
      the wire form of a handshake with the standard length byte and
      protocol name, and that handshake is the result. */
  lemma ReadAcceptsExactlyWire(input: seq<Byte>)
    ensures Read(input).result.Ok?
            <==> |input| >= HANDSHAKE_LEN && input[0] == PROTOCOL_LEN && input[1..20] == PROTOCOL
    ensures Read(input).result.Ok? ==> Wire(Read(input).result.value) == input[..HANDSHAKE_LEN]
  {
  }

  /** A peer announcing extension bits is still accepted, and the reserved
      bytes it sent are kept. */
  lemma ExtendedPeerAccepted(infoHash: Bytes20, ourId: Bytes20, theirId: Bytes20, reserved: Bytes8, rest: seq<Byte>)
    ensures DoHandshake(infoHash, ourId, Wire(Handshake(PROTOCOL_LEN, PROTOCOL, reserved, infoHash, theirId)) + rest).result
              == Ok(Handshake(PROTOCOL_LEN, PROTOCOL, reserved, infoHash, theirId))
  {
    var h := Handshake(PROTOCOL_LEN, PROTOCOL, reserved, infoHash, theirId);
    ReadWire(h, rest);
    DoHandshakeIsReadThenValidate(infoHash, ourId, Wire(h) + rest);
  }
}
