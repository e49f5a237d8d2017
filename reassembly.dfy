/**
 * What `reassembleFile` does to the disk: create `uploads/<filename>`, then for
 * each chunk number 0, 1, ..., totalChunks - 1 open `chunks/<i>-blob` (creating
 * it if absent), append its bytes to the output and remove it; stop at the
 * first open or copy that fails.
 *
 * `Sweep` is that loop written as a recursive function; the class method
 * `Coordinator.Server.Reassemble` runs the loop and is proved to end in the
 * state `Reassembled` describes. The lemmas below say what that state is.
 */
module Reassembly {
  import opened Base
  import opened FileStore

  /** How handling one chunk can go wrong: the open fails, or the copy fails after `written` bytes. */
  datatype ChunkFault = OpenFails | CopyFails(written: nat)

  /**
   * The disk's behaviour during one reassembly: whether creating the output
   * fails, which chunk numbers fail to open or copy, and which removals fail
   * (the code ignores a failed removal).
   */
  datatype DiskFaults = DiskFaults(createFails: bool, chunkFaults: map<int, ChunkFault>, removeFails: set<int>)

  const HEALTHY_DISK := DiskFaults(false, map[], {})

  datatype ReassemblyError = CreateFailed | ChunkOpenFailed(index: int) | ChunkCopyFailed(index: int)

  /** The error `reassembleFile` returns (`None` for nil) and the disk it leaves behind. */
  datatype Run = Run(error: Option<ReassemblyError>, files: FileMap)

  function FaultAt(faults: DiskFaults, i: int): Option<ChunkFault>
  {
    if i in faults.chunkFaults then Some(faults.chunkFaults[i]) else None
  }

  /** The bytes reassembly reads for chunk `i`; a missing chunk file reads as empty. */
  function ChunkBytes(fs: FileMap, i: int): seq<byte>
  {
    Read(fs, BlobChunkPath(i))
  }

  /** Chunks `lo`, `lo + 1`, ..., `hi - 1` concatenated in ascending order. */
  function ChunkRange(fs: FileMap, lo: int, hi: int): seq<byte>
    decreases hi - lo
  {
    if hi <= lo then [] else ChunkBytes(fs, lo) + ChunkRange(fs, lo + 1, hi)
  }

  /** Chunk `k` sits between the chunks before it and the chunks after it. */
  lemma {:induction false} ChunkRangeSplit(fs: FileMap, lo: int, k: int, hi: int)
    requires lo <= k < hi
    ensures ChunkRange(fs, lo, hi) == ChunkRange(fs, lo, k) + (ChunkBytes(fs, k) + ChunkRange(fs, k + 1, hi))
    decreases k - lo
  {
    var rest := ChunkBytes(fs, k) + ChunkRange(fs, k + 1, hi);
    if lo < k {
      ChunkRangeSplit(fs, lo + 1, k, hi);
      Associate(ChunkBytes(fs, lo), ChunkRange(fs, lo + 1, k), rest);
    } else {
      assert ChunkRange(fs, lo, k) + rest == rest;
    }
  }

  lemma Associate(a: seq<byte>, b: seq<byte>, c: seq<byte>)
    ensures a + (b + c) == (a + b) + c
  {
  }

  /**
   * A chunk that never arrived is opened with `O_CREATE` and copied as an
   * empty file: the output simply skips it, with no error and no gap marker.
   */
  lemma {:induction false} MissingChunkContributesNothing(fs: FileMap, lo: int, k: int, hi: int)
    requires lo <= k < hi && BlobChunkPath(k) !in fs
    ensures ChunkRange(fs, lo, hi) == ChunkRange(fs, lo, k) + ChunkRange(fs, k + 1, hi)
  {
    ChunkRangeSplit(fs, lo, k, hi);
    EmptyPrefix(ChunkBytes(fs, k), ChunkRange(fs, k + 1, hi));
  }

  lemma EmptyPrefix(a: seq<byte>, b: seq<byte>)
    requires a == []
    ensures a + b == b
  {
  }

  /** The first chunk number in `[i, n)` whose open or copy fails; `n` (or `i`, if `i > n`) when none does. */
  function FirstFault(faults: DiskFaults, i: int, n: int): (s: int)
    ensures i <= s <= Max(i, n)
    ensures forall k :: i <= k < s ==> k !in faults.chunkFaults
    ensures s < n ==> s in faults.chunkFaults
    decreases n - i
  {
    if i >= n || i in faults.chunkFaults then i else FirstFault(faults, i + 1, n)
  }

  /** The error reported when chunk `s` fails with `fault`. */
  function FaultError(fault: ChunkFault, s: int): ReassemblyError
  {
    if fault.OpenFails? then ChunkOpenFailed(s) else ChunkCopyFailed(s)
  }

  /** The bytes of chunk `s` that reach the output before a failed copy of it (none otherwise). */
  function PartialCopy(fs: FileMap, faults: DiskFaults, s: int): seq<byte>
  {
    match FaultAt(faults, s)
    case Some(CopyFails(w)) => ChunkBytes(fs, s)[..Min(w, |ChunkBytes(fs, s)|)]
    case _ => []
  }

  /** The part of a chunk copied before a failure depends only on that chunk's bytes. */
  lemma PartialCopyFrame(fs: FileMap, fs': FileMap, faults: DiskFaults, s: int)
    requires ChunkBytes(fs, s) == ChunkBytes(fs', s)
    ensures PartialCopy(fs, faults, s) == PartialCopy(fs', faults, s)
  {
  }

  /**
   * One turn of the loop that goes through: chunk `i` is opened (and so
   * created if missing), appended to the output and removed, unless its
   * removal fails.
   */
  function Step(fs: FileMap, filename: string, i: int, faults: DiskFaults): FileMap
  {
    var p := BlobChunkPath(i);
    var touched := Append(fs, p, []);
    var copied := Append(touched, UploadPath(filename), Read(touched, p));
    if i in faults.removeFails then copied else Remove(copied, p)
  }

  /** The loop of `reassembleFile` from chunk `i` on, appending to `uploads/<filename>`. */
  function Sweep(fs: FileMap, filename: string, i: int, n: int, faults: DiskFaults): (r: Run)
    decreases n - i
  {
    if i >= n then Run(None, fs)
    else
      var fault := FaultAt(faults, i);
      if fault == Some(OpenFails) then Run(Some(ChunkOpenFailed(i)), fs)
      else if fault.Some? then
        var touched := Append(fs, BlobChunkPath(i), []);
        var data := Read(touched, BlobChunkPath(i));
        var w := fault.value.written;
        Run(Some(ChunkCopyFailed(i)), Append(touched, UploadPath(filename), data[..Min(w, |data|)]))
      else
        Sweep(Step(fs, filename, i, faults), filename, i + 1, n, faults)
  }

  /** `reassembleFile(filename, totalChunks)` run against the disk `fs`. */
  function Reassembled(fs: FileMap, filename: string, totalChunks: int, faults: DiskFaults): Run
  {
    if faults.createFails then Run(Some(CreateFailed), fs)
    else Sweep(Create(fs, UploadPath(filename)), filename, 0, totalChunks, faults)
  }

  // ---------------------------------------------------------------------------
  // Properties of one turn of the loop and of the whole loop

  /** Chunk ranges read the same on two disks that agree on those chunks. */
  lemma {:induction false} ChunkRangeFrame(fs: FileMap, fs': FileMap, lo: int, hi: int)
    requires forall k :: lo <= k < hi ==> ChunkBytes(fs, k) == ChunkBytes(fs', k)
    ensures ChunkRange(fs, lo, hi) == ChunkRange(fs', lo, hi)
    decreases hi - lo
  {
    if lo < hi {
      ChunkRangeFrame(fs, fs', lo + 1, hi);
    }
  }

  /**
   * One turn appends chunk `i` to the output, consumes chunk file `i` (which
   * stays, with its old bytes or created empty, only when its removal fails)
   * and touches no other path.
   */
  lemma StepEffect(fs: FileMap, filename: string, i: int, faults: DiskFaults, q: string)
    ensures var r := Step(fs, filename, i, faults);
      && UploadPath(filename) in r
      && r[UploadPath(filename)] == Read(fs, UploadPath(filename)) + ChunkBytes(fs, i)
      && (i !in faults.removeFails ==> BlobChunkPath(i) !in r)
      && (i in faults.removeFails ==> BlobChunkPath(i) in r && r[BlobChunkPath(i)] == Read(fs, BlobChunkPath(i)))
      && (q != UploadPath(filename) && q != BlobChunkPath(i) ==> Same(fs, r, q))
  {
    var p, out := BlobChunkPath(i), UploadPath(filename);
    UploadPathIsNotChunkPath(filename, i, BLOB_NAME);
    var touched := Append(fs, p, []);
    var copied := Append(touched, out, Read(touched, p));
    AppendElsewhere(fs, p, [], out);
    AppendElsewhere(touched, out, Read(touched, p), p);
    assert Read(touched, p) == ChunkBytes(fs, i);
    assert copied[p] == Read(fs, p);
    if q != out && q != p {
      AppendElsewhere(fs, p, [], q);
      AppendElsewhere(touched, out, Read(touched, p), q);
      if i !in faults.removeFails {
        RemoveElsewhere(copied, p, q);
      }
    }
    if i !in faults.removeFails {
      RemoveElsewhere(copied, p, out);
    }
  }

  /** One turn leaves every other chunk as it was. */
  lemma StepKeepsOtherChunks(fs: FileMap, filename: string, i: int, faults: DiskFaults, k: int)
    requires k != i
    ensures Same(fs, Step(fs, filename, i, faults), BlobChunkPath(k))
    ensures ChunkBytes(Step(fs, filename, i, faults), k) == ChunkBytes(fs, k)
  {
    ChunkPathInjective(k, BLOB_NAME, i, BLOB_NAME);
    UploadPathIsNotChunkPath(filename, k, BLOB_NAME);
    StepEffect(fs, filename, i, faults, BlobChunkPath(k));
  }

  /** The loop fails exactly at the first faulty chunk, with that chunk's error. */
  lemma {:induction false} SweepError(fs: FileMap, filename: string, i: int, n: int, faults: DiskFaults)
    ensures var s := FirstFault(faults, i, n);
      Sweep(fs, filename, i, n, faults).error
        == if s < n then Some(FaultError(faults.chunkFaults[s], s)) else None
    decreases n - i
  {
    if i < n && FaultAt(faults, i).None? {
      SweepError(Step(fs, filename, i, faults), filename, i + 1, n, faults);
    }
  }

  /**
   * The output ends up holding what it held before, then chunks `i` up to the
   * first faulty one in ascending order, then whatever part of the faulty
   * chunk was copied before the copy failed.
   */
  lemma {:induction false} SweepOutput(fs: FileMap, filename: string, i: int, n: int, faults: DiskFaults)
    ensures var s := FirstFault(faults, i, n);
      Read(Sweep(fs, filename, i, n, faults).files, UploadPath(filename))
        == Read(fs, UploadPath(filename)) + ChunkRange(fs, i, s) + (if s < n then PartialCopy(fs, faults, s) else [])
    ensures UploadPath(filename) in fs ==> UploadPath(filename) in Sweep(fs, filename, i, n, faults).files
    decreases n - i
  {
    if i >= n {
      assert ChunkRange(fs, i, FirstFault(faults, i, n)) == [];
    } else if FaultAt(faults, i).Some? {
      SweepOutputAtFault(fs, filename, i, n, faults);
    } else {
      SweepOutput(Step(fs, filename, i, faults), filename, i + 1, n, faults);
      SweepOutputStep(fs, filename, i, n, faults);
    }
  }

  /** `SweepOutput` when chunk `i` itself fails: only the part copied before a failed copy reaches the output. */
  lemma SweepOutputAtFault(fs: FileMap, filename: string, i: int, n: int, faults: DiskFaults)
    requires i < n && FaultAt(faults, i).Some?
    ensures FirstFault(faults, i, n) == i
    ensures Read(Sweep(fs, filename, i, n, faults).files, UploadPath(filename))
        == Read(fs, UploadPath(filename)) + ChunkRange(fs, i, i) + PartialCopy(fs, faults, i)
    ensures UploadPath(filename) in fs ==> UploadPath(filename) in Sweep(fs, filename, i, n, faults).files
  {
    UploadPathIsNotChunkPath(filename, i, BLOB_NAME);
    assert ChunkRange(fs, i, i) == [];
    if FaultAt(faults, i) != Some(OpenFails) {
      var touched := Append(fs, BlobChunkPath(i), []);
      assert Read(touched, BlobChunkPath(i)) == ChunkBytes(fs, i);
      assert Read(touched, UploadPath(filename)) == Read(fs, UploadPath(filename));
    }
  }

  /** `SweepOutput` for a turn that goes through, given `SweepOutput` for the rest of the loop. */
  lemma SweepOutputStep(fs: FileMap, filename: string, i: int, n: int, faults: DiskFaults)
    requires i < n && FaultAt(faults, i).None?
    requires var next := Step(fs, filename, i, faults);
      var s := FirstFault(faults, i + 1, n);
      && Read(Sweep(next, filename, i + 1, n, faults).files, UploadPath(filename))
           == Read(next, UploadPath(filename)) + ChunkRange(next, i + 1, s) + (if s < n then PartialCopy(next, faults, s) else [])
      && (UploadPath(filename) in next ==> UploadPath(filename) in Sweep(next, filename, i + 1, n, faults).files)
    ensures var s := FirstFault(faults, i, n);
      Read(Sweep(fs, filename, i, n, faults).files, UploadPath(filename))
        == Read(fs, UploadPath(filename)) + ChunkRange(fs, i, s) + (if s < n then PartialCopy(fs, faults, s) else [])
    ensures UploadPath(filename) in Sweep(fs, filename, i, n, faults).files
  {
    var out := UploadPath(filename);
    var next := Step(fs, filename, i, faults);
    var s := FirstFault(faults, i, n);
    StepOutput(fs, filename, i, n, faults);
    var tail := if s < n then PartialCopy(fs, faults, s) else [];
    var before, chunk, rest := Read(fs, out), ChunkBytes(fs, i), ChunkRange(fs, i + 1, s);
    assert Sweep(fs, filename, i, n, faults) == Sweep(next, filename, i + 1, n, faults);
    assert Read(Sweep(next, filename, i + 1, n, faults).files, out) == (before + chunk) + rest + tail;
    assert ChunkRange(fs, i, s) == chunk + rest;
    Regroup(before, chunk, rest, tail);
  }

  /**
   * A turn that goes through adds chunk `i` to the output and changes neither
   * the chunks after it nor what a later failed copy writes.
   */
  lemma StepOutput(fs: FileMap, filename: string, i: int, n: int, faults: DiskFaults)
    requires i < n && FaultAt(faults, i).None?
    ensures var next := Step(fs, filename, i, faults);
      var s := FirstFault(faults, i, n);
      && s == FirstFault(faults, i + 1, n)
      && UploadPath(filename) in next
      && Read(next, UploadPath(filename)) == Read(fs, UploadPath(filename)) + ChunkBytes(fs, i)
      && ChunkRange(next, i + 1, s) == ChunkRange(fs, i + 1, s)
      && (if s < n then PartialCopy(next, faults, s) else []) == (if s < n then PartialCopy(fs, faults, s) else [])
  {
    var next := Step(fs, filename, i, faults);
    var s := FirstFault(faults, i, n);
    forall k | i + 1 <= k <= s
      ensures ChunkBytes(next, k) == ChunkBytes(fs, k)
    {
      StepKeepsOtherChunks(fs, filename, i, faults, k);
    }
    ChunkRangeFrame(next, fs, i + 1, s);
    StepEffect(fs, filename, i, faults, UploadPath(filename));
  }

  lemma Regroup(a: seq<byte>, b: seq<byte>, c: seq<byte>, d: seq<byte>)
    ensures (a + b) + c + d == a + (b + c) + d
  {
  }

  /**
   * What becomes of chunk file `k`: chunks before the first faulty one are
   * removed (or left as they were when their removal fails), the faulty chunk
   * is left in place (created empty if it was missing and its copy failed),
   * and every other chunk file is untouched.
   */
  lemma {:induction false} SweepChunk(fs: FileMap, filename: string, i: int, n: int, faults: DiskFaults, k: int)
    ensures ChunkFate(fs, filename, i, n, faults, k)
    decreases n - i
  {
    if i < n && FaultAt(faults, i).None? {
      SweepChunk(Step(fs, filename, i, faults), filename, i + 1, n, faults, k);
      SweepChunkStep(fs, filename, i, n, faults, k);
    } else {
      SweepChunkStop(fs, filename, i, n, faults, k);
    }
  }

  /** The fate of chunk file `k` under the loop from chunk `i` on, as `SweepChunk` states it. */
  predicate ChunkFate(fs: FileMap, filename: string, i: int, n: int, faults: DiskFaults, k: int)
  {
    var s := FirstFault(faults, i, n);
    var r := Sweep(fs, filename, i, n, faults).files;
    var p := BlobChunkPath(k);
    && (i <= k < s && k !in faults.removeFails ==> p !in r)
    && (i <= k < s && k in faults.removeFails ==> p in r && r[p] == Read(fs, p))
    && (k == s < n && faults.chunkFaults[s].CopyFails? ==> p in r && r[p] == Read(fs, p))
    && (k < i || k > s || k >= n || (k == s && faults.chunkFaults[s].OpenFails?) ==> Same(fs, r, p))
  }

  /** `SweepChunk` when the loop stops at once: it has ended, or chunk `i` fails. */
  lemma SweepChunkStop(fs: FileMap, filename: string, i: int, n: int, faults: DiskFaults, k: int)
    requires !(i < n && FaultAt(faults, i).None?)
    ensures ChunkFate(fs, filename, i, n, faults, k)
  {
    UploadPathIsNotChunkPath(filename, k, BLOB_NAME);
    ChunkPathInjective(k, BLOB_NAME, i, BLOB_NAME);
  }

  /** `SweepChunk` for a turn that goes through, given `SweepChunk` for the rest of the loop. */
  lemma SweepChunkStep(fs: FileMap, filename: string, i: int, n: int, faults: DiskFaults, k: int)
    requires i < n && FaultAt(faults, i).None?
    requires ChunkFate(Step(fs, filename, i, faults), filename, i + 1, n, faults, k)
    ensures ChunkFate(fs, filename, i, n, faults, k)
  {
    var next := Step(fs, filename, i, faults);
    assert FirstFault(faults, i, n) == FirstFault(faults, i + 1, n);
    assert Sweep(fs, filename, i, n, faults) == Sweep(next, filename, i + 1, n, faults);
    if k != i {
      StepKeepsOtherChunks(fs, filename, i, faults, k);
    } else {
      StepEffect(fs, filename, i, faults, BlobChunkPath(k));
      forall j | i + 1 <= j < n
        ensures BlobChunkPath(k) != BlobChunkPath(j)
      {
        ChunkPathInjective(k, BLOB_NAME, j, BLOB_NAME);
      }
      UploadPathIsNotChunkPath(filename, k, BLOB_NAME);
      SweepFrame(next, filename, i + 1, n, faults, BlobChunkPath(k));
    }
  }

  /** Paths other than the output and the chunk files the loop visits are untouched. */
  lemma {:induction false} SweepFrame(fs: FileMap, filename: string, i: int, n: int, faults: DiskFaults, q: string)
    requires q != UploadPath(filename)
    requires forall k :: i <= k < n ==> q != BlobChunkPath(k)
    ensures Same(fs, Sweep(fs, filename, i, n, faults).files, q)
    decreases n - i
  {
    if i < n && FaultAt(faults, i).None? {
      var next := Step(fs, filename, i, faults);
      StepEffect(fs, filename, i, faults, q);
      SweepFrame(next, filename, i + 1, n, faults, q);
    }
  }

  // ---------------------------------------------------------------------------
  // Properties of reassembleFile

  /**
   * Reassembly succeeds exactly when the output can be created and every
   * chunk 0..totalChunks-1 opens and copies; otherwise it reports the first
   * failure, and a failed create leaves the disk as it was.
   */
  lemma ReassembledError(fs: FileMap, filename: string, totalChunks: int, faults: DiskFaults)
    ensures var r := Reassembled(fs, filename, totalChunks, faults);
      var s := FirstFault(faults, 0, totalChunks);
      && (r.error.None? <==> !faults.createFails && forall k :: 0 <= k < totalChunks ==> k !in faults.chunkFaults)
      && (faults.createFails ==> r == Run(Some(CreateFailed), fs))
      && (!faults.createFails && s < totalChunks ==> r.error == Some(FaultError(faults.chunkFaults[s], s)))
  {
    if !faults.createFails {
      SweepError(Create(fs, UploadPath(filename)), filename, 0, totalChunks, faults);
    }
  }

  /**
   * On success, `uploads/<filename>` holds exactly chunks 0..totalChunks-1 in
   * ascending order (whatever it held before, and with a missing chunk
   * contributing nothing); each of those chunk files is gone unless its
   * removal failed, and no other path changes.
   */
  lemma ReassembledOnSuccess(fs: FileMap, filename: string, totalChunks: int, faults: DiskFaults)
    requires Reassembled(fs, filename, totalChunks, faults).error.None?
    ensures var r := Reassembled(fs, filename, totalChunks, faults).files;
      && UploadPath(filename) in r
      && r[UploadPath(filename)] == ChunkRange(fs, 0, totalChunks)
      && (forall k :: 0 <= k < totalChunks && k !in faults.removeFails ==> BlobChunkPath(k) !in r)
      && (forall k :: 0 <= k < totalChunks && k in faults.removeFails ==> Same(fs, r, BlobChunkPath(k)) || (BlobChunkPath(k) !in fs && r[BlobChunkPath(k)] == []))
      && (forall q :: q != UploadPath(filename) && (forall k :: 0 <= k < totalChunks ==> q != BlobChunkPath(k)) ==> Same(fs, r, q))
  {
    SucceededAll(fs, filename, totalChunks, faults);
    SuccessOutput(fs, filename, totalChunks, faults);
    var r := Reassembled(fs, filename, totalChunks, faults).files;
    forall k | 0 <= k < totalChunks
      ensures k !in faults.removeFails ==> BlobChunkPath(k) !in r
      ensures k in faults.removeFails ==> Same(fs, r, BlobChunkPath(k)) || (BlobChunkPath(k) !in fs && r[BlobChunkPath(k)] == [])
    {
      SuccessChunk(fs, filename, totalChunks, faults, k);
    }
    forall q | q != UploadPath(filename) && (forall k :: 0 <= k < totalChunks ==> q != BlobChunkPath(k))
      ensures Same(fs, r, q)
    {
      ReassembledElsewhere(fs, filename, totalChunks, faults, q);
    }
  }

  /** Success means the output was created and no chunk in range is faulty. */
  lemma SucceededAll(fs: FileMap, filename: string, totalChunks: int, faults: DiskFaults)
    requires Reassembled(fs, filename, totalChunks, faults).error.None?
    ensures !faults.createFails && FirstFault(faults, 0, totalChunks) == Max(0, totalChunks)
  {
    ReassembledError(fs, filename, totalChunks, faults);
  }

  /** The output after a successful reassembly: `ReassembledOnSuccess`'s first part. */
  lemma SuccessOutput(fs: FileMap, filename: string, totalChunks: int, faults: DiskFaults)
    requires !faults.createFails && FirstFault(faults, 0, totalChunks) == Max(0, totalChunks)
    ensures var r := Reassembled(fs, filename, totalChunks, faults).files;
      UploadPath(filename) in r && r[UploadPath(filename)] == ChunkRange(fs, 0, totalChunks)
  {
    var out := UploadPath(filename);
    var created := Create(fs, out);
    var s := Max(0, totalChunks);
    var r := Sweep(created, filename, 0, totalChunks, faults).files;
    assert Reassembled(fs, filename, totalChunks, faults).files == r;
    assert out in r && Read(r, out) == [] + ChunkRange(created, 0, s) + [] by {
      SweepOutput(created, filename, 0, totalChunks, faults);
    }
    assert ChunkRange(created, 0, s) == ChunkRange(fs, 0, totalChunks) by {
      forall k | 0 <= k < s
        ensures ChunkBytes(created, k) == ChunkBytes(fs, k)
      {
        UploadPathIsNotChunkPath(filename, k, BLOB_NAME);
      }
      ChunkRangeFrame(created, fs, 0, s);
    }
  }

  /** Chunk file `k` after a successful reassembly: removed, unless its removal failed. */
  lemma SuccessChunk(fs: FileMap, filename: string, totalChunks: int, faults: DiskFaults, k: int)
    requires !faults.createFails && FirstFault(faults, 0, totalChunks) == Max(0, totalChunks)
    requires 0 <= k < totalChunks
    ensures var r := Reassembled(fs, filename, totalChunks, faults).files;
      && (k !in faults.removeFails ==> BlobChunkPath(k) !in r)
      && (k in faults.removeFails ==> Same(fs, r, BlobChunkPath(k)) || (BlobChunkPath(k) !in fs && r[BlobChunkPath(k)] == []))
  {
    var created := Create(fs, UploadPath(filename));
    UploadPathIsNotChunkPath(filename, k, BLOB_NAME);
    SweepChunk(created, filename, 0, totalChunks, faults, k);
  }

  /** A path that is neither the output nor one of the chunk files in range is untouched by reassembly, whether it succeeds or not. */
  lemma ReassembledElsewhere(fs: FileMap, filename: string, totalChunks: int, faults: DiskFaults, q: string)
    requires !faults.createFails
    requires q != UploadPath(filename) && forall k :: 0 <= k < totalChunks ==> q != BlobChunkPath(k)
    ensures Same(fs, Reassembled(fs, filename, totalChunks, faults).files, q)
  {
    var created := Create(fs, UploadPath(filename));
    SweepFrame(created, filename, 0, totalChunks, faults, q);
  }

  /**
   * When chunk `j` is the first to fail, the output holds chunks 0..j-1 in
   * order (plus the part of chunk `j` copied before a failed copy). Chunk
   * files before `j` have been consumed (or keep their bytes when their
   * removal failed); chunk file `j` is untouched after a failed open and keeps
   * its bytes (created empty if it was missing) after a failed copy; chunk
   * files after `j` and every other path are untouched.
   */
  lemma ReassembledOnChunkFailure(fs: FileMap, filename: string, totalChunks: int, faults: DiskFaults, j: int)
    requires var e := Reassembled(fs, filename, totalChunks, faults).error;
      e == Some(ChunkOpenFailed(j)) || e == Some(ChunkCopyFailed(j))
    ensures 0 <= j < totalChunks
    ensures var run := Reassembled(fs, filename, totalChunks, faults);
      var r := run.files;
      var p := BlobChunkPath(j);
      && UploadPath(filename) in r
      && r[UploadPath(filename)] == ChunkRange(fs, 0, j) + PartialCopy(fs, faults, j)
      && (forall k :: 0 <= k < j && k !in faults.removeFails ==> BlobChunkPath(k) !in r)
      && (forall k :: 0 <= k < j && k in faults.removeFails ==>
            BlobChunkPath(k) in r && r[BlobChunkPath(k)] == Read(fs, BlobChunkPath(k)))
      && (run.error == Some(ChunkOpenFailed(j)) ==> Same(fs, r, p))
      && (run.error == Some(ChunkCopyFailed(j)) ==> p in r && r[p] == Read(fs, p))
      && (forall k :: j < k ==> Same(fs, r, BlobChunkPath(k)))
      && (forall q :: q != UploadPath(filename) && (forall k :: 0 <= k < totalChunks ==> q != BlobChunkPath(k)) ==>
            Same(fs, r, q))
  {
    FailedChunk(fs, filename, totalChunks, faults, j);
    FailureOutput(fs, filename, totalChunks, faults, j);
    FailedChunkFile(fs, filename, totalChunks, faults, j);
    var r := Reassembled(fs, filename, totalChunks, faults).files;
    forall k | 0 <= k < j
      ensures k !in faults.removeFails ==> BlobChunkPath(k) !in r
      ensures k in faults.removeFails ==> BlobChunkPath(k) in r && r[BlobChunkPath(k)] == Read(fs, BlobChunkPath(k))
    {
      FailureChunk(fs, filename, totalChunks, faults, j, k);
    }
    forall k | j < k
      ensures Same(fs, r, BlobChunkPath(k))
    {
      FailureChunk(fs, filename, totalChunks, faults, j, k);
    }
    forall q | q != UploadPath(filename) && (forall k :: 0 <= k < totalChunks ==> q != BlobChunkPath(k))
      ensures Same(fs, r, q)
    {
      ReassembledElsewhere(fs, filename, totalChunks, faults, q);
    }
  }

  /** Chunk file `j`, the first to fail: untouched after a failed open, holding its bytes after a failed copy. */
  lemma FailedChunkFile(fs: FileMap, filename: string, totalChunks: int, faults: DiskFaults, j: int)
    requires !faults.createFails && FirstFault(faults, 0, totalChunks) == j && 0 <= j < totalChunks
    ensures var run := Reassembled(fs, filename, totalChunks, faults);
      var p := BlobChunkPath(j);
      && (run.error == Some(ChunkOpenFailed(j)) ==> Same(fs, run.files, p))
      && (run.error == Some(ChunkCopyFailed(j)) ==> p in run.files && run.files[p] == Read(fs, p))
  {
    ReassembledError(fs, filename, totalChunks, faults);
    FailureChunk(fs, filename, totalChunks, faults, j, j);
  }

  /** A chunk failure at `j` means the output was created and `j` is the first faulty chunk. */
  lemma FailedChunk(fs: FileMap, filename: string, totalChunks: int, faults: DiskFaults, j: int)
    requires var e := Reassembled(fs, filename, totalChunks, faults).error;
      e == Some(ChunkOpenFailed(j)) || e == Some(ChunkCopyFailed(j))
    ensures !faults.createFails && FirstFault(faults, 0, totalChunks) == j && 0 <= j < totalChunks
  {
    ReassembledError(fs, filename, totalChunks, faults);
  }

  /** The output after a failure at chunk `j`: `ReassembledOnChunkFailure`'s first part. */
  lemma FailureOutput(fs: FileMap, filename: string, totalChunks: int, faults: DiskFaults, j: int)
    requires !faults.createFails && FirstFault(faults, 0, totalChunks) == j && 0 <= j < totalChunks
    ensures var r := Reassembled(fs, filename, totalChunks, faults).files;
      && UploadPath(filename) in r
      && r[UploadPath(filename)] == ChunkRange(fs, 0, j) + PartialCopy(fs, faults, j)
  {
    FailureSweepOutput(fs, filename, totalChunks, faults, j);
    CreatedChunks(fs, filename, faults, j);
  }

  /** `FailureOutput` in terms of the freshly created output file. */
  lemma FailureSweepOutput(fs: FileMap, filename: string, totalChunks: int, faults: DiskFaults, j: int)
    requires !faults.createFails && FirstFault(faults, 0, totalChunks) == j && 0 <= j < totalChunks
    ensures var created := Create(fs, UploadPath(filename));
      var r := Sweep(created, filename, 0, totalChunks, faults).files;
      && UploadPath(filename) in r
      && Read(r, UploadPath(filename)) == ChunkRange(created, 0, j) + PartialCopy(created, faults, j)
  {
    var created := Create(fs, UploadPath(filename));
    SweepOutput(created, filename, 0, totalChunks, faults);
    EmptyPrefix(Read(created, UploadPath(filename)), ChunkRange(created, 0, j));
  }

  /** Creating the output file changes neither chunks `0..j-1` nor what a failed copy of chunk `j` writes. */
  lemma CreatedChunks(fs: FileMap, filename: string, faults: DiskFaults, j: int)
    requires 0 <= j
    ensures var created := Create(fs, UploadPath(filename));
      && ChunkRange(created, 0, j) == ChunkRange(fs, 0, j)
      && PartialCopy(created, faults, j) == PartialCopy(fs, faults, j)
  {
    var created := Create(fs, UploadPath(filename));
    forall k | 0 <= k < j
      ensures ChunkBytes(created, k) == ChunkBytes(fs, k)
    {
      UploadPathIsNotChunkPath(filename, k, BLOB_NAME);
    }
    ChunkRangeFrame(created, fs, 0, j);
    UploadPathIsNotChunkPath(filename, j, BLOB_NAME);
    PartialCopyFrame(created, fs, faults, j);
  }

  /** Chunk file `k` after a failure at chunk `j`: consumed before `j`, untouched after it. */
  lemma FailureChunk(fs: FileMap, filename: string, totalChunks: int, faults: DiskFaults, j: int, k: int)
    requires !faults.createFails && FirstFault(faults, 0, totalChunks) == j && 0 <= j < totalChunks
    ensures var r := Reassembled(fs, filename, totalChunks, faults).files;
      var p := BlobChunkPath(k);
      && (0 <= k < j && k !in faults.removeFails ==> p !in r)
      && (0 <= k < j && k in faults.removeFails ==> p in r && r[p] == Read(fs, p))
      && (k == j && faults.chunkFaults[j].OpenFails? ==> Same(fs, r, p))
      && (k == j && faults.chunkFaults[j].CopyFails? ==> p in r && r[p] == Read(fs, p))
      && (j < k ==> Same(fs, r, p))
  {
    var created := Create(fs, UploadPath(filename));
    UploadPathIsNotChunkPath(filename, k, BLOB_NAME);
    SweepChunk(created, filename, 0, totalChunks, faults, k);
  }
}
