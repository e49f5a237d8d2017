/**
 * The server's disk, seen as a map from path to bytes, with the three
 * operations the upload coordinator performs on it, and the two path schemes
 * it uses: chunk files under `chunks/` and finished uploads under `uploads/`.
 * Paths are plain strings: no directory structure and no normalisation.
 */
module FileStore {
  import opened Base
  import opened Decimal

  newtype byte = x: int | 0 <= x < 256

  type FileMap = map<string, seq<byte>>

  /** The bytes at `p`; a path that does not exist reads as empty. */
  function Read(fs: FileMap, p: string): (data: seq<byte>)
    ensures p in fs ==> data == fs[p]
    ensures p !in fs ==> data == []
  {
    if p in fs then fs[p] else []
  }

  /** `p` holds the same thing (or nothing) in both maps. */
  predicate Same(fs: FileMap, fs': FileMap, p: string)
  {
    (p in fs <==> p in fs') && (p in fs ==> fs[p] == fs'[p])
  }

  /** `os.Create`: the path exists afterwards and is empty (truncated if it existed). */
  function Create(fs: FileMap, p: string): (r: FileMap)
    ensures p in r && r[p] == []
  {
    fs[p := []]
  }

  /**
   * Opening with `O_CREATE|O_APPEND` and writing `data`: the path is created if
   * absent and `data` lands after whatever it already held.
   */
  function Append(fs: FileMap, p: string, data: seq<byte>): (r: FileMap)
    ensures p in r && r[p] == Read(fs, p) + data
  {
    fs[p := Read(fs, p) + data]
  }

  /** `os.Remove`: the path no longer exists. */
  function Remove(fs: FileMap, p: string): (r: FileMap)
    ensures p !in r
  {
    fs - {p}
  }

  /** Appending to `p` leaves every other path as it was. */
  lemma AppendElsewhere(fs: FileMap, p: string, data: seq<byte>, q: string)
    requires q != p
    ensures Same(fs, Append(fs, p, data), q) && Read(Append(fs, p, data), q) == Read(fs, q)
  {
  }

  /** Creating `p` leaves every other path as it was. */
  lemma CreateElsewhere(fs: FileMap, p: string, q: string)
    requires q != p
    ensures Same(fs, Create(fs, p), q) && Read(Create(fs, p), q) == Read(fs, q)
  {
  }

  /** Removing `p` leaves every other path as it was. */
  lemma RemoveElsewhere(fs: FileMap, p: string, q: string)
    requires q != p
    ensures Same(fs, Remove(fs, p), q) && Read(Remove(fs, p), q) == Read(fs, q)
  {
  }

  const CHUNK_DIR := "chunks/"
  const UPLOAD_DIR := "uploads/"

  /** The multipart file name a browser gives a `Blob` appended to a `FormData`. */
  const BLOB_NAME := "blob"

  /** Where the handler stores chunk `index` of a part whose multipart file name is `partName`. */
  function ChunkPath(index: int, partName: string): string
  {
    CHUNK_DIR + Itoa(index) + "-" + partName
  }

  /** Where reassembly looks for chunk `index`: the multipart name is fixed to `blob`. */
  function BlobChunkPath(index: int): string
  {
    ChunkPath(index, BLOB_NAME)
  }

  /** Where reassembly writes the finished file. */
  function UploadPath(filename: string): string
  {
    UPLOAD_DIR + filename
  }

  /**
   * Chunk paths are unambiguous: the index and the multipart name can be read
   * back from the path, because the digits of the index stop at the first `-`.
   */
  lemma ChunkPathInjective(i: int, partName: string, j: int, otherName: string)
    ensures ChunkPath(i, partName) == ChunkPath(j, otherName) <==> i == j && partName == otherName
  {
    var a, b := Itoa(i), Itoa(j);
    if ChunkPath(i, partName) == ChunkPath(j, otherName) {
      var s := ChunkPath(i, partName);
      assert s == CHUNK_DIR + (a + ("-" + partName));
      assert s == CHUNK_DIR + (b + ("-" + otherName));
      var rest := s[|CHUNK_DIR|..];
      assert rest == a + ("-" + partName);
      assert rest == b + ("-" + otherName);
      DashEndsIndex(i, partName);
      DashEndsIndex(j, otherName);
      assert |a| == |b|;
      assert a == rest[..|a|] == b;
      ItoaInjective(i, j);
      assert partName == rest[|a| + 1..] == otherName;
    }
  }

  /** In `Itoa(n) + "-" + rest`, the first dash after position 0 is the one just past the number. */
  lemma DashEndsIndex(n: int, rest: string)
    ensures var s := Itoa(n) + ("-" + rest);
      s[|Itoa(n)|] == '-' && forall k :: 1 <= k < |Itoa(n)| ==> s[k] != '-'
  {
    ItoaTail(n);
  }

  /**
   * A stored chunk is found by reassembly exactly when it was stored under the
   * same index with the multipart file name `blob`.
   */
  lemma FoundOnlyAsBlob(index: int, partName: string, i: int)
    ensures ChunkPath(index, partName) == BlobChunkPath(i) <==> index == i && partName == BLOB_NAME
  {
    ChunkPathInjective(index, partName, i, BLOB_NAME);
  }

  /** The finished file never shares a path with a chunk. */
  lemma UploadPathIsNotChunkPath(filename: string, i: int, partName: string)
    ensures UploadPath(filename) != ChunkPath(i, partName)
  {
    assert UploadPath(filename)[0] == 'u';
    assert ChunkPath(i, partName)[0] == 'c';
  }
}
