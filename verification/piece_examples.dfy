/** Worked piece-geometry examples: a single-file torrent whose length is a
    multiple of the piece length, one that carries a digest too many, and a
    two-file torrent whose first piece spans both files. */
module PieceExamples {
  import opened Common
  import opened Torrent
  import opened PieceMap

  const DIGEST: Bytes20 := Zeros(20)
  const TORRENT_NAME: Text := [116] // "t"
  const FILE_A: Text := [97]        // "a"
  const FILE_B: Text := [98]        // "b"

  /** A torrent holding `n` identical digests; only the fields piece
      geometry reads are of interest. */
  function WithPieces(n: nat, info: InfoDict): (t: TorrentFile)
    ensures NumPieces(t) == n && t.info == info
  {
    TorrentFile([], [], None, [], [], [], info, DIGEST, seq(n, _ => DIGEST))
  }

  /** 1 MiB in pieces of 256 KiB: four pieces, the last one full. */
  const MEBIBYTE: TorrentFile :=
    WithPieces(4, InfoDict(262144, [], false, TORRENT_NAME, Some(1048576), [], false))

  lemma MebibyteGeometry()
    ensures TotalLength(MEBIBYTE) == 1048576 && NumPieces(MEBIBYTE) == 4
    ensures PieceSize(MEBIBYTE, 0) == 262144 && PieceSize(MEBIBYTE, 3) == 262144
    ensures PieceSize(MEBIBYTE, 4) == 0
    ensures FilePathsForPiece(MEBIBYTE, 3) == [[TORRENT_NAME]]
    ensures FilePathsForPiece(MEBIBYTE, 4) == []
  {
  }

  /** 2048 bytes in pieces of 1024 with three digests: the remainder for
      the third piece is 0, so it is reported as a full piece and the sizes
      add up to 3072. */
  const EXTRA_DIGEST: TorrentFile :=
    WithPieces(3, InfoDict(1024, [], false, TORRENT_NAME, Some(2048), [], false))

  lemma ExtraDigestGeometry()
    ensures LastRemainder(EXTRA_DIGEST) == 0
    ensures PieceSize(EXTRA_DIGEST, 2) == 1024
    ensures SumPieceSizes(EXTRA_DIGEST, 3) == 3072
  {
    PieceSizesCoverTotal(EXTRA_DIGEST);
  }

  /** Files of 100 and 5000 bytes in pieces of 1024: five pieces, the last
      holding 1004 bytes; piece 0 meets both files, piece 1 only the
      second. */
  const TWO_FILES: TorrentFile :=
    WithPieces(5, InfoDict(1024, [], false, TORRENT_NAME, None,
                           [FileDict(100, [FILE_A]), FileDict(5000, [FILE_B])], true))

  lemma TwoFilesGeometry()
    ensures TotalLength(TWO_FILES) == 5100
    ensures PieceSize(TWO_FILES, 4) == 1004
    ensures FilePathsForPiece(TWO_FILES, 0) == [[TORRENT_NAME, FILE_A], [TORRENT_NAME, FILE_B]]
    ensures FilePathsForPiece(TWO_FILES, 1) == [[TORRENT_NAME, FILE_B]]
  {
    var files := TWO_FILES.info.files;
    var name := TORRENT_NAME;
    assert files[..0] == [] && files[..1][..0] == [] && files[..2] == files && files[..2][..1] == files[..1];
    assert FileStart(files, 0) == 0;
    assert FileStart(files, 1) == 100;
    assert FileStart(files, 2) == 5100;
    assert PieceEnd(TWO_FILES, 0) == 1024 && PieceEnd(TWO_FILES, 1) == 2048;
    assert Selection(files, 2, 0, 1024, name) == [];
    assert Selection(files, 2, 1024, 2048, name) == [];
    assert Selection(files, 0, 0, 1024, name) == [FullPath(name, files[0]), FullPath(name, files[1])];
    assert Selection(files, 0, 1024, 2048, name) == [FullPath(name, files[1])];
    assert FullPath(name, files[0]) == [TORRENT_NAME, FILE_A];
    assert FullPath(name, files[1]) == [TORRENT_NAME, FILE_B];
  }
}
