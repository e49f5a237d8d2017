/**
 * The browser side's arithmetic: how `uploadFile` decides the number of
 * chunks and which bytes of the file each chunk carries.
 */
module Splitter {
  import opened Base
  import opened FileStore

  /** `const chunkSize = 1024 * 1024 * 5`. */
  const CHUNK_SIZE: nat := 1024 * 1024 * 5

  /** `Number.MAX_SAFE_INTEGER`: file sizes up to this are exact JavaScript numbers. */
  const MAX_SAFE_INTEGER: nat := 0x1F_FFFF_FFFF_FFFF

  /** `Math.ceil(file.size / chunkSize)`: the fewest chunks of `CHUNK_SIZE` bytes that cover `size` bytes. */
  function TotalChunks(size: nat): (n: nat)
    ensures size <= n * CHUNK_SIZE
    ensures n == 0 || (n - 1) * CHUNK_SIZE < size
    ensures n == 0 <==> size == 0
    ensures n <= size
  {
    (size + CHUNK_SIZE - 1) / CHUNK_SIZE
  }

  /**
   * `Blob.slice(start, end)` for non-negative arguments: both ends are clamped
   * to the size, and the slice is empty when the end is not after the start.
   */
  function BlobSlice(data: seq<byte>, start: nat, end: nat): (r: seq<byte>)
    ensures start <= end <= |data| ==> r == data[start..end]
    ensures |data| <= start ==> r == []
  {
    var s := Min(start, |data|);
    var e := Min(end, |data|);
    if s < e then data[s..e] else []
  }

  /** `start = currentChunk * chunkSize`. */
  function SliceStart(k: nat): nat
  {
    k * CHUNK_SIZE
  }

  /** `end = Math.min(start + chunkSize, file.size)`. */
  function SliceEnd(k: nat, size: nat): nat
  {
    Min(SliceStart(k) + CHUNK_SIZE, size)
  }

  /** The bytes `uploadNextChunk` sends as chunk `k`. */
  function Piece(data: seq<byte>, k: nat): seq<byte>
  {
    BlobSlice(data, SliceStart(k), SliceEnd(k, |data|))
  }

  /** Pieces `lo`, ..., `hi - 1` concatenated in order. */
  function Pieces(data: seq<byte>, lo: nat, hi: nat): seq<byte>
    decreases hi - lo
  {
    if hi <= lo then [] else Piece(data, lo) + Pieces(data, lo + 1, hi)
  }

  /**
   * Chunk `k` (for `k` below the chunk count) is the slice
   * `[k * CHUNK_SIZE, min(k * CHUNK_SIZE + CHUNK_SIZE, size))`; every chunk but
   * the last holds exactly `CHUNK_SIZE` bytes and the last holds between 1 and
   * `CHUNK_SIZE`.
   */
  lemma PieceBounds(data: seq<byte>, k: nat)
    requires k < TotalChunks(|data|)
    ensures SliceStart(k) < SliceEnd(k, |data|) <= |data|
    ensures Piece(data, k) == data[SliceStart(k)..SliceEnd(k, |data|)]
    ensures k + 1 < TotalChunks(|data|) ==> |Piece(data, k)| == CHUNK_SIZE
    ensures k + 1 == TotalChunks(|data|) ==> 1 <= |Piece(data, k)| <= CHUNK_SIZE
  {
  }

  /** Consecutive chunks meet: each ends where the next begins, so they neither overlap nor leave a gap. */
  lemma PiecesContiguous(size: nat, k: nat)
    requires k + 1 < TotalChunks(size)
    ensures SliceEnd(k, size) == SliceStart(k + 1)
  {
  }

  /** The pieces from `i` on make up the rest of the file from byte `i * CHUNK_SIZE`. */
  lemma {:induction false} PiecesSuffix(data: seq<byte>, i: nat)
    requires i <= TotalChunks(|data|)
    ensures SliceStart(i) >= |data| ==> i == TotalChunks(|data|)
    ensures Pieces(data, i, TotalChunks(|data|)) == data[Min(SliceStart(i), |data|)..]
    decreases TotalChunks(|data|) - i
  {
    var n := TotalChunks(|data|);
    if i < n {
      PieceBounds(data, i);
      PiecesSuffix(data, i + 1);
      if i + 1 < n {
        PiecesContiguous(|data|, i);
      }
      assert data[SliceStart(i)..] == data[SliceStart(i)..SliceEnd(i, |data|)] + data[SliceEnd(i, |data|)..];
    }
  }

  /** Concatenating the chunks in order gives back the whole file. */
  lemma SplitJoin(data: seq<byte>)
    ensures Pieces(data, 0, TotalChunks(|data|)) == data
  {
    PiecesSuffix(data, 0);
  }

  /** An empty file has no chunks, and the slice the browser still sends for chunk 0 is empty. */
  lemma EmptyFile()
    ensures TotalChunks(0) == 0
    ensures Piece([], 0) == []
  {
  }
}
