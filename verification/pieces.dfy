/** Piece geometry of a parsed torrent: total length, number and size of
    pieces, and which files a piece touches. Offsets are mathematical
    integers; the `i64` products of the source are not bounded here. */
module PieceMap {
  import opened Common
  import opened Torrent

  /** Sum of the file lengths, in list order (`iter().map(..).sum()`). */
  function SumLengths(files: seq<FileDict>): int
  {
    if |files| == 0 then 0 else SumLengths(files[..|files| - 1]) + files[|files| - 1].length
  }

  /** No file has a negative length. */
  predicate LengthsNonNegative(files: seq<FileDict>) {
    forall j :: 0 <= j < |files| ==> files[j].length >= 0
  }

  /** `total_length`: the single-file `length` (0 when absent), or, for a
      multi-file torrent, the offset at which the file list ends. With no
      negative lengths, every file lies between 0 and that total. */
  function TotalLength(t: TorrentFile): (r: int)
    ensures !t.info.isDirectory ==> r == t.info.length.GetOr(0)
    ensures t.info.isDirectory ==> r == FileStart(t.info.files, |t.info.files|)
    ensures t.info.isDirectory && LengthsNonNegative(t.info.files)
            ==> forall j :: 0 <= j < |t.info.files| ==>
                  0 <= FileStart(t.info.files, j) && FileStart(t.info.files, j) + t.info.files[j].length <= r
  {
    if !t.info.isDirectory then t.info.length.GetOr(0)
    else
      FilesWithinTotal(t.info.files);
      assert t.info.files[..|t.info.files|] == t.info.files;
      SumLengths(t.info.files)
  }

  /** `num_pieces`: one piece per 20-byte digest of the piece table. */
  function NumPieces(t: TorrentFile): (r: nat)
    ensures 20 * r == |Flatten(t.piecesHash)|
  {
    DigestTableLength(t.piecesHash);
    |t.piecesHash|
  }

  lemma {:induction false} DigestTableLength(hs: seq<Bytes20>)
    ensures |Flatten(hs)| == 20 * |hs|
  {
    if |hs| > 0 {
      DigestTableLength(hs[1..]);
    }
  }

  /** What the last piece holds: the total less the full pieces before it. */
  function LastRemainder(t: TorrentFile): int
    requires NumPieces(t) > 0
  {
    TotalLength(t) - (NumPieces(t) - 1) * t.info.pieceLength
  }

  /** `piece_size`: 0 past the end, `piece length` for every piece but the
      last, and the remainder for the last piece, where a remainder of 0 is
      reported as a full piece. */
  function PieceSize(t: TorrentFile, index: nat): (r: int)
    ensures index >= NumPieces(t) ==> r == 0
    ensures index + 1 < NumPieces(t) ==> r == t.info.pieceLength
    ensures index + 1 == NumPieces(t) && LastRemainder(t) != 0 ==> r == LastRemainder(t)
    ensures index + 1 == NumPieces(t) && LastRemainder(t) == 0 ==> r == t.info.pieceLength
  {
    var n := NumPieces(t);
    if index >= n then 0
    else if index < n - 1 then t.info.pieceLength
    else
      var last := TotalLength(t) - (n - 1) * t.info.pieceLength;
      if last == 0 && n > 0 then t.info.pieceLength else last
  }

  function PieceStart(t: TorrentFile, index: nat): int
  {
    index * t.info.pieceLength
  }

  function PieceEnd(t: TorrentFile, index: nat): int
  {
    PieceStart(t, index) + PieceSize(t, index)
  }

  /** The path of a file of a multi-file torrent: the torrent name, then
      the file's own components (`PathBuf::join` in turn). */
  function FullPath(name: Text, f: FileDict): seq<Text>
  {
    [name] + f.path
  }

  /** The loop of `file_paths_for_piece`: a running cursor marks where each
      file starts, and a file is kept when `[start, end)` meets the piece. */
  function Overlapping(files: seq<FileDict>, cursor: int, pieceStart: int, pieceEnd: int, name: Text): seq<seq<Text>>
    decreases |files|
  {
    if |files| == 0 then []
    else
      var fileEnd := cursor + files[0].length;
      (if fileEnd > pieceStart && cursor < pieceEnd then [FullPath(name, files[0])] else [])
        + Overlapping(files[1..], fileEnd, pieceStart, pieceEnd, name)
  }

  /** Byte offset at which file `j` starts: the lengths of the files before it. */
  function FileStart(files: seq<FileDict>, j: nat): int
    requires j <= |files|
  {
    SumLengths(files[..j])
  }

  lemma FileStartStep(files: seq<FileDict>, j: nat)
    requires j < |files|
    ensures FileStart(files, j + 1) == FileStart(files, j) + files[j].length
  {
    assert files[..j + 1][..j] == files[..j];
  }

  /** With no negative lengths, file starts never decrease. */
  lemma {:induction false} FileStartMonotone(files: seq<FileDict>, i: nat, j: nat)
    requires i <= j <= |files| && LengthsNonNegative(files)
    ensures FileStart(files, i) <= FileStart(files, j)
    decreases j - i
  {
    if i < j {
      FileStartStep(files, i);
      FileStartMonotone(files, i + 1, j);
    }
  }

  /** With no negative lengths, each file's byte range starts at or after 0
      and ends at or before the end of the list. */
  lemma FilesWithinTotal(files: seq<FileDict>)
    ensures LengthsNonNegative(files) ==>
              forall j :: 0 <= j < |files| ==>
                0 <= FileStart(files, j) && FileStart(files, j) + files[j].length <= FileStart(files, |files|)
  {
    if LengthsNonNegative(files) {
      forall j | 0 <= j < |files|
        ensures 0 <= FileStart(files, j) && FileStart(files, j) + files[j].length <= FileStart(files, |files|)
      {
        assert files[..0] == [];
        FileStartMonotone(files, 0, j);
        FileStartStep(files, j);
        FileStartMonotone(files, j + 1, |files|);
      }
    }
  }

  /** Reference selection with absolute offsets: the paths of files `j..`
      whose byte range `[FileStart, FileStart + length)` meets
      `[pieceStart, pieceEnd)`, in list order. */
  function Selection(files: seq<FileDict>, j: nat, pieceStart: int, pieceEnd: int, name: Text): seq<seq<Text>>
    requires j <= |files|
    decreases |files| - j
  {
    if j == |files| then []
    else
      var start := FileStart(files, j);
      (if start + files[j].length > pieceStart && start < pieceEnd then [FullPath(name, files[j])] else [])
        + Selection(files, j + 1, pieceStart, pieceEnd, name)
  }

  lemma {:induction false} OverlappingIsSelection(files: seq<FileDict>, j: nat, pieceStart: int, pieceEnd: int, name: Text)
    requires j <= |files|
    ensures Overlapping(files[j..], FileStart(files, j), pieceStart, pieceEnd, name)
              == Selection(files, j, pieceStart, pieceEnd, name)
    decreases |files| - j
  {
    if j < |files| {
      assert files[j..][0] == files[j];
      assert files[j..][1..] == files[j + 1..];
      assert files[..j + 1][..j] == files[..j];
      assert FileStart(files, j + 1) == FileStart(files, j) + files[j].length;
      OverlappingIsSelection(files, j + 1, pieceStart, pieceEnd, name);
    }
  }

  /** `file_paths_for_piece`: nothing past the end, the torrent name alone
      for a single-file torrent, and otherwise the files whose byte range
      meets the piece's, in list order. */
  function FilePathsForPiece(t: TorrentFile, index: nat): (r: seq<seq<Text>>)
    ensures index >= NumPieces(t) ==> r == []
    ensures index < NumPieces(t) && !t.info.isDirectory ==> r == [[t.info.name]]
    ensures (index < NumPieces(t) && t.info.isDirectory)
            ==> r == Selection(t.info.files, 0, PieceStart(t, index), PieceEnd(t, index), t.info.name)
  {
    if index >= NumPieces(t) then []
    else
      var pieceStart := index * t.info.pieceLength;
      var pieceEnd := pieceStart + PieceSize(t, index);
      if !t.info.isDirectory then [[t.info.name]]
      else
        OverlappingIsSelection(t.info.files, 0, pieceStart, pieceEnd, t.info.name);
        assert t.info.files[0..] == t.info.files && t.info.files[..0] == [];
        Overlapping(t.info.files, 0, pieceStart, pieceEnd, t.info.name)
  }

  /** Sum of the sizes of pieces `0..k`. */
  function SumPieceSizes(t: TorrentFile, k: nat): int
  {
    if k == 0 then 0 else SumPieceSizes(t, k - 1) + PieceSize(t, k - 1)
  }

  lemma {:induction false} FullPiecesSum(t: TorrentFile, k: nat)
    requires k < NumPieces(t)
    ensures SumPieceSizes(t, k) == k * t.info.pieceLength
  {
    if k > 0 {
      FullPiecesSum(t, k - 1);
    }
  }

  /** The piece sizes add up to the total length, except when the remainder
      for the last piece is 0: that piece is then reported as full and the
      sizes overshoot the total by one piece length. */
  lemma PieceSizesCoverTotal(t: TorrentFile)
    requires NumPieces(t) > 0
    ensures LastRemainder(t) != 0 ==> SumPieceSizes(t, NumPieces(t)) == TotalLength(t)
    ensures LastRemainder(t) == 0 ==> SumPieceSizes(t, NumPieces(t)) == TotalLength(t) + t.info.pieceLength
  {
    FullPiecesSum(t, NumPieces(t) - 1);
  }

  /** Consecutive pieces are adjacent: each non-last piece ends where the
      next one starts. */
  lemma PiecesAdjacent(t: TorrentFile, index: nat)
    requires index + 1 < NumPieces(t)
    ensures PieceEnd(t, index) == PieceStart(t, index + 1)
  {
    assert (index + 1) * t.info.pieceLength == index * t.info.pieceLength + t.info.pieceLength;
  }

  /** When the piece count fits the total (every piece but the last is full
      and the last holds between 1 and `piece length` bytes), the last piece
      ends exactly at the total length. */
  lemma LastPieceEndsAtTotal(t: TorrentFile)
    requires NumPieces(t) > 0
    requires (NumPieces(t) - 1) * t.info.pieceLength < TotalLength(t) <= NumPieces(t) * t.info.pieceLength
    ensures 0 < PieceSize(t, NumPieces(t) - 1) <= t.info.pieceLength
    ensures PieceEnd(t, NumPieces(t) - 1) == TotalLength(t)
  {
    var n := NumPieces(t);
    assert n * t.info.pieceLength == (n - 1) * t.info.pieceLength + t.info.pieceLength;
  }
}
