/** Worked tracker examples: percent-encoding a query value and reading a
    compact peer list. */
module TrackerExamples {
  import opened Common
  import opened Tracker

  /** "a b!": the letters pass through, the space and the `!` are
      escaped. */
  lemma EscapedSpace()
    ensures UrlEncode([97, 32, 98, 33]) == "a%20b%21"
  {
    WordsAroundSpace([97, 32, 98, 33], [97], [98], "a", "b");
  }

  /** The byte 0xAB is escaped with upper-case digits, as `%{:02X}`
      writes it. */
  lemma UpperCaseEscape()
    ensures UrlEncode([0xAB]) == "%AB"
  {
    assert PercentTriplet(0xAB) == "%AB";
  }

  /** The shape of the documented example, "Hello World!" encoding to
      `Hello%20World%21`: two runs of unreserved bytes joined by a space and
      closed by `!` keep their letters, and the space and the `!` become
      `%20` and `%21`. */
  lemma WordsAroundSpace(s: seq<Byte>, w1: seq<Byte>, w2: seq<Byte>, t1: string, t2: string)
    requires s == w1 + ([32] + (w2 + [33]))
    requires |w1| == |t1| && forall i :: 0 <= i < |w1| ==> Unreserved(w1[i]) && t1[i] == w1[i] as char
    requires |w2| == |t2| && forall i :: 0 <= i < |w2| ==> Unreserved(w2[i]) && t2[i] == w2[i] as char
    ensures UrlEncode(s) == t1 + "%20" + t2 + "%21"
  {
    FourParts(w1, [32], w2, [33]);
    UrlEncodePassThrough(w1);
    UrlEncodePassThrough(w2);
    EscapedBytes();
  }

  lemma FourParts(a: seq<Byte>, b: seq<Byte>, c: seq<Byte>, d: seq<Byte>)
    ensures UrlEncode(a + (b + (c + d))) == UrlEncode(a) + UrlEncode(b) + UrlEncode(c) + UrlEncode(d)
  {
    UrlEncodeAppend(a, b + (c + d));
    UrlEncodeAppend(b, c + d);
    UrlEncodeAppend(c, d);
  }

  lemma EscapedBytes()
    ensures UrlEncode([32]) == "%20" && UrlEncode([33]) == "%21"
  {
    assert PercentTriplet(32) == "%20";
    assert PercentTriplet(33) == "%21";
  }

  /** 127.0.0.1:6881 followed by one stray byte: the stray byte is not a
      whole chunk and is dropped. */
  const LOCALHOST_PEER: seq<Byte> := [127, 0, 0, 1, 0x1A, 0xE1, 9]

  lemma LocalhostPeer()
    ensures CompactPeers(LOCALHOST_PEER) == [Peer(V4(127, 0, 0, 1), 6881)]
  {
    assert ChunkPeer(LOCALHOST_PEER) == Peer(V4(127, 0, 0, 1), 6881);
  }
}
