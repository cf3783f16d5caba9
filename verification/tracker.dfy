/** Tracker helpers: percent-encoding of binary query values, decoding of
    the peer lists a tracker returns, the peer-id layout, and the announce
    request built from a torrent. The HTTP exchange itself is not modelled. */
module Tracker {
  import opened Common
  import opened Torrent
  import opened PieceMap

  /* ---------- url_encode ---------- */

  /** The unreserved characters of RFC 3986 section 2.3:
      ALPHA / DIGIT / "-" / "." / "_" / "~". */
  predicate Unreserved(b: Byte) {
    (97 <= b <= 122) || (65 <= b <= 90) || (48 <= b <= 57) || b == 45 || b == 46 || b == 95 || b == 126
  }

  const HEX_DIGITS: string := "0123456789ABCDEF"

  /** `%` and the byte as two upper-case hexadecimal digits (`%{:02X}`). */
  function PercentTriplet(b: Byte): (r: string)
    ensures |r| == 3 && r[0] == '%'
    ensures HexValue(r[1]) == Some(b / 16) && HexValue(r[2]) == Some(b % 16)
    ensures !('a' <= r[1] <= 'z') && !('a' <= r[2] <= 'z')
  {
    ['%', HEX_DIGITS[b / 16], HEX_DIGITS[b % 16]]
  }

  /** `url_encode`: unreserved bytes pass through as characters, every
      other byte becomes a percent triplet (RFC 3986 section 2.1). */
  function UrlEncode(bytes: seq<Byte>): (r: string)
    ensures forall i :: 0 <= i < |r| ==> r[i] as int < 128
  {
    if |bytes| == 0 then []
    else (if Unreserved(bytes[0]) then [bytes[0] as char] else PercentTriplet(bytes[0])) + UrlEncode(bytes[1..])
  }

  function CountUnreserved(bytes: seq<Byte>): (n: nat)
    ensures n <= |bytes|
  {
    if |bytes| == 0 then 0 else (if Unreserved(bytes[0]) then 1 else 0) + CountUnreserved(bytes[1..])
  }

  /** The value of a hexadecimal digit of either case. */
  function HexValue(c: char): (r: Option<nat>)
    ensures r.Some? ==> r.value < 16
  {
    if '0' <= c <= '9' then Some(c as int - '0' as int)
    else if 'A' <= c <= 'F' then Some(c as int - 'A' as int + 10)
    else if 'a' <= c <= 'f' then Some(c as int - 'a' as int + 10)
    else None
  }

  /** Percent-decoding (RFC 3986 section 2.1): the inverse reading of a
      query value. Anything but an unreserved character or a well-formed
      triplet is rejected. */
  function PercentDecode(s: string): Option<seq<Byte>>
  {
    if |s| == 0 then Some([])
    else if s[0] == '%' then
      if |s| < 3 then None
      else
        var hi :- HexValue(s[1]);
        var lo :- HexValue(s[2]);
        var rest :- PercentDecode(s[3..]);
        Some([hi * 16 + lo] + rest)
    else if s[0] as int < 256 && Unreserved(s[0] as int) then
      var rest :- PercentDecode(s[1..]);
      Some([s[0] as int] + rest)
    else None
  }

  /** Percent-decoding undoes `url_encode`. */
  lemma {:induction false} UrlEncodeDecodes(bytes: seq<Byte>)
    ensures PercentDecode(UrlEncode(bytes)) == Some(bytes)
  {
    if |bytes| > 0 {
      var b := bytes[0];
      UrlEncodeDecodes(bytes[1..]);
      if Unreserved(b) {
        DecodeUnreserved(b, UrlEncode(bytes[1..]), bytes[1..]);
      } else {
        DecodeTriplet(b, UrlEncode(bytes[1..]), bytes[1..]);
      }
      assert [b] + bytes[1..] == bytes;
    }
  }

  lemma DecodeUnreserved(b: Byte, tail: string, rest: seq<Byte>)
    requires Unreserved(b) && PercentDecode(tail) == Some(rest)
    ensures PercentDecode([b as char] + tail) == Some([b] + rest)
  {
    assert ([b as char] + tail)[1..] == tail;
  }

  lemma DecodeTriplet(b: Byte, tail: string, rest: seq<Byte>)
    requires PercentDecode(tail) == Some(rest)
    ensures PercentDecode(PercentTriplet(b) + tail) == Some([b] + rest)
  {
    var t := PercentTriplet(b);
    assert (t + tail)[3..] == tail;
    assert HexValue(t[1]) == Some(b / 16);
    assert HexValue(t[2]) == Some(b % 16);
  }

  /** Distinct byte strings have distinct encodings. */
  lemma UrlEncodeInjective(a: seq<Byte>, b: seq<Byte>)
    ensures UrlEncode(a) == UrlEncode(b) ==> a == b
  {
    UrlEncodeDecodes(a);
    UrlEncodeDecodes(b);
  }

  /** One character per unreserved byte, three per other byte. */
  lemma {:induction false} UrlEncodeLength(bytes: seq<Byte>)
    ensures |UrlEncode(bytes)| == CountUnreserved(bytes) + 3 * (|bytes| - CountUnreserved(bytes))
  {
    if |bytes| > 0 {
      UrlEncodeLength(bytes[1..]);
    }
  }

  /** Encoding works byte by byte: it distributes over concatenation. */
  lemma {:induction false} UrlEncodeAppend(a: seq<Byte>, b: seq<Byte>)
    ensures UrlEncode(a + b) == UrlEncode(a) + UrlEncode(b)
  {
    if |a| == 0 {
      assert a + b == b;
    } else {
      assert (a + b)[0] == a[0];
      assert (a + b)[1..] == a[1..] + b;
      UrlEncodeAppend(a[1..], b);
    }
  }

  /** A run of unreserved bytes is copied through, one character per byte. */
  lemma {:induction false} UrlEncodePassThrough(bytes: seq<Byte>)
    requires forall i :: 0 <= i < |bytes| ==> Unreserved(bytes[i])
    ensures |UrlEncode(bytes)| == |bytes|
    ensures forall i :: 0 <= i < |bytes| ==> UrlEncode(bytes)[i] == bytes[i] as char
  {
    if |bytes| > 0 {
      UrlEncodePassThrough(bytes[1..]);
    }
  }

  /* ---------- peers from an announce response ---------- */

  datatype IpAddr = V4(a: Byte, b: Byte, c: Byte, d: Byte) | V6(segments: seq<U16>)

  datatype Peer = Peer(ip: IpAddr, port: U16)

  /** A non-compact peer entry as the tracker sends it: the address as text. */
  datatype PeerDict = PeerDict(ip: string, port: U16)

  /** The two shapes of the `peers` field. */
  datatype Peers = Compact(bytes: seq<Byte>) | NonCompact(dicts: seq<PeerDict>)

  /** The peer in one 6-byte compact chunk: an IPv4 address, then the port
      in network byte order. */
  function ChunkPeer(chunk: seq<Byte>): Peer
    requires |chunk| >= 6
  {
    Peer(V4(chunk[0], chunk[1], chunk[2], chunk[3]), chunk[4] as int * 256 + chunk[5] as int)
  }

  /** `chunks_exact(6)` mapped through `ChunkPeer`: a trailing partial chunk
      is dropped. */
  function CompactPeers(bytes: seq<Byte>): (r: seq<Peer>)
    ensures |r| == |bytes| / 6
    ensures forall i :: 0 <= i < |r| ==> r[i] == ChunkPeer(bytes[6 * i..])
    decreases |bytes|
  {
    if |bytes| < 6 then []
    else
      var more := CompactPeers(bytes[6..]);
      assert forall i :: 0 < i < |more| + 1 ==> bytes[6..][6 * (i - 1)..] == bytes[6 * i..];
      [ChunkPeer(bytes)] + more
  }

  /** The compact form of a list of IPv4 peers. */
  function EncodeCompact(peers: seq<Peer>): (r: seq<Byte>)
    requires forall i :: 0 <= i < |peers| ==> peers[i].ip.V4?
    ensures |r| == 6 * |peers|
  {
    if |peers| == 0 then []
    else
      var p := peers[0];
      [p.ip.a, p.ip.b, p.ip.c, p.ip.d, p.port / 256, p.port % 256] + EncodeCompact(peers[1..])
  }

  /** Decoding the compact form gives the peers back, whatever partial
      chunk trails it. */
  lemma {:induction false} CompactRoundTrip(peers: seq<Peer>, trailing: seq<Byte>)
    requires forall i :: 0 <= i < |peers| ==> peers[i].ip.V4?
    requires |trailing| < 6
    ensures CompactPeers(EncodeCompact(peers) + trailing) == peers
  {
    if |peers| > 0 {
      var p := peers[0];
      var chunk := [p.ip.a, p.ip.b, p.ip.c, p.ip.d, p.port / 256, p.port % 256];
      var more := EncodeCompact(peers[1..]) + trailing;
      var s := EncodeCompact(peers) + trailing;
      assert s == chunk + more;
      assert s[6..] == more;
      assert ChunkPeer(s) == p;
      CompactRoundTrip(peers[1..], trailing);
      assert CompactPeers(s) == [p] + peers[1..];
      assert [p] + peers[1..] == peers;
    }
  }

  /** The non-compact mapping: entries whose address does not parse are
      dropped, the others keep their port and their order. `parseIp` is
      `IpAddr::from_str`, which is not part of this model. */
  function NonCompactPeers(dicts: seq<PeerDict>, parseIp: string -> Option<IpAddr>): (r: seq<Peer>)
    ensures |r| <= |dicts|
    ensures forall p :: p in r ==> exists i :: 0 <= i < |dicts| && parseIp(dicts[i].ip) == Some(p.ip) && dicts[i].port == p.port
  {
    if |dicts| == 0 then []
    else
      var more := NonCompactPeers(dicts[1..], parseIp);
      assert forall p :: p in more ==> exists i :: 1 <= i < |dicts| && parseIp(dicts[i].ip) == Some(p.ip) && dicts[i].port == p.port by {
        forall p | p in more
          ensures exists i :: 1 <= i < |dicts| && parseIp(dicts[i].ip) == Some(p.ip) && dicts[i].port == p.port
        {
          var j :| 0 <= j < |dicts[1..]| && parseIp(dicts[1..][j].ip) == Some(p.ip) && dicts[1..][j].port == p.port;
          assert dicts[j + 1] == dicts[1..][j];
        }
      }
      match parseIp(dicts[0].ip)
      case Some(ip) => [Peer(ip, dicts[0].port)] + more
      case None => more
  }

  /** The mapping is a filter: it distributes over concatenation. */
  lemma {:induction false} NonCompactConcat(a: seq<PeerDict>, b: seq<PeerDict>, parseIp: string -> Option<IpAddr>)
    ensures NonCompactPeers(a + b, parseIp) == NonCompactPeers(a, parseIp) + NonCompactPeers(b, parseIp)
  {
    if |a| == 0 {
      assert a + b == b;
    } else {
      assert (a + b)[0] == a[0];
      assert (a + b)[1..] == a[1..] + b;
      NonCompactConcat(a[1..], b, parseIp);
    }
  }

  /** When every address parses, nothing is dropped. */
  lemma {:induction false} NonCompactAllParse(dicts: seq<PeerDict>, parseIp: string -> Option<IpAddr>)
    requires forall i :: 0 <= i < |dicts| ==> parseIp(dicts[i].ip).Some?
    ensures |NonCompactPeers(dicts, parseIp)| == |dicts|
    ensures forall i :: 0 <= i < |dicts| ==>
              NonCompactPeers(dicts, parseIp)[i] == Peer(parseIp(dicts[i].ip).value, dicts[i].port)
  {
    if |dicts| > 0 {
      NonCompactAllParse(dicts[1..], parseIp);
    }
  }

  datatype AnnounceResponse = AnnounceResponse(interval: I64, peers: seq<Peer>)

  /** `parse_announce_response`, from the already deserialised fields: a
      compact list is split into 6-byte chunks, a non-compact one is
      filtered through the address parser. */
  function ParseAnnounceResponse(interval: I64, peers: Peers, parseIp: string -> Option<IpAddr>): (r: AnnounceResponse)
    ensures r.interval == interval
    ensures peers.Compact? ==> |r.peers| == |peers.bytes| / 6
    ensures peers.Compact? ==> forall i :: 0 <= i < |r.peers| ==> r.peers[i] == ChunkPeer(peers.bytes[6 * i..])
    ensures peers.NonCompact? ==> |r.peers| <= |peers.dicts|
    ensures peers.NonCompact? ==> r.peers == NonCompactPeers(peers.dicts, parseIp)
    ensures (peers.NonCompact? && forall i :: 0 <= i < |peers.dicts| ==> parseIp(peers.dicts[i].ip).Some?)
            ==> |r.peers| == |peers.dicts|
                && forall i :: 0 <= i < |peers.dicts| ==>
                     r.peers[i] == Peer(parseIp(peers.dicts[i].ip).value, peers.dicts[i].port)
  {
    match peers
    case Compact(bytes) => AnnounceResponse(interval, CompactPeers(bytes))
    case NonCompact(dicts) =>
      NonCompactAllParseWhen(dicts, parseIp);
      AnnounceResponse(interval, NonCompactPeers(dicts, parseIp))
  }

  /** `NonCompactAllParse` under its condition, for use inside a function. */
  lemma NonCompactAllParseWhen(dicts: seq<PeerDict>, parseIp: string -> Option<IpAddr>)
    ensures (forall i :: 0 <= i < |dicts| ==> parseIp(dicts[i].ip).Some?)
            ==> |NonCompactPeers(dicts, parseIp)| == |dicts|
                && forall i :: 0 <= i < |dicts| ==>
                     NonCompactPeers(dicts, parseIp)[i] == Peer(parseIp(dicts[i].ip).value, dicts[i].port)
  {
    if forall i :: 0 <= i < |dicts| ==> parseIp(dicts[i].ip).Some? {
      NonCompactAllParse(dicts, parseIp);
    }
  }

  /* ---------- peer id and announce request ---------- */

  /** "-RT0001-": eight bytes, although the documentation of
      `generate_peer_id` describes a nine-byte "-GT0001-" prefix. */
  const PEER_ID_PREFIX: seq<Byte> := [45, 82, 84, 48, 48, 48, 49, 45]

  /** `generate_peer_id`, with the random tail as a parameter: the prefix
      then twelve random bytes. */
  function GeneratePeerId(randomTail: seq<Byte>): (r: Bytes20)
    requires |randomTail| == 20 - |PEER_ID_PREFIX|
    ensures r[..|PEER_ID_PREFIX|] == PEER_ID_PREFIX && r[|PEER_ID_PREFIX|..] == randomTail
  {
    PEER_ID_PREFIX + randomTail
  }

  /** Ids differ exactly when their random tails differ. */
  lemma PeerIdInjective(t1: seq<Byte>, t2: seq<Byte>)
    requires |t1| == 12 && |t2| == 12
    ensures GeneratePeerId(t1) == GeneratePeerId(t2) <==> t1 == t2
  {
    if GeneratePeerId(t1) == GeneratePeerId(t2) {
      assert GeneratePeerId(t1)[8..] == t1;
    }
  }

  /** The client: its peer id and listening port. */
  datatype Client = Client(peerId: Bytes20, port: U16)

  datatype AnnounceRequest = AnnounceRequest(
    infoHash: Bytes20,
    peerId: Bytes20,
    port: U16,
    uploaded: int,
    downloaded: int,
    compact: bool,
    left: int)

  /** The request `announce` builds before any network activity: nothing
      transferred yet, compact peers requested, everything left to fetch. */
  function BuildAnnounceRequest(c: Client, t: TorrentFile): (r: AnnounceRequest)
    ensures r.infoHash == t.infoHash && r.peerId == c.peerId && r.port == c.port
    ensures r.uploaded == 0 && r.downloaded == 0 && r.compact
    ensures r.left == TotalLength(t)
  {
    AnnounceRequest(t.infoHash, c.peerId, c.port, 0, 0, true, TotalLength(t))
  }

  /** For a parsed torrent, `left` is the single-file length (0 when absent)
      when there is no file list, and the sum of the file lengths otherwise. */
  lemma AnnounceLeftOfParsed(data: Bencode.Value, sha1: seq<Byte> -> Bytes20, c: Client, t: TorrentFile)
    requires Parse(data, sha1) == Ok(t)
    ensures BuildAnnounceRequest(c, t).left
              == if |t.info.files| == 0 then t.info.length.GetOr(0) else SumLengths(t.info.files)
    ensures BuildAnnounceRequest(c, t).infoHash == sha1(Encoder.Encode(data.entries[INFO]))
  {
  }
}
