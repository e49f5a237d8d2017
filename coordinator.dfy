/**
 * The chunked-upload coordinator of the server: the handler behind
 * `POST /upload_chunk`, the in-memory ledger `fileChunkCount` it updates, and
 * the chunk and upload files it writes.
 *
 * `Handle` is one request as a step from one server state to the next; the
 * class `Server` holds that state in fields and its method `UploadChunk`
 * performs the step in place, proved to agree with `Handle`. The lemmas at the
 * end state what a step does to the ledger and the disk.
 */
module Coordinator {
  import opened Base
  import opened Decimal
  import opened FileStore
  import opened Reassembly

  /** The `file` part of the form as `c.FormFile("file")` returns it: its multipart file name and bytes. */
  datatype Part = Part(filename: string, content: seq<byte>)

  /**
   * The fields of one `POST /upload_chunk` form: `chunkIndex`, `totalChunks`
   * and `filenameWithExtension` as text, and the `file` part if there is one.
   */
  datatype ChunkRequest = ChunkRequest(
    chunkIndex: string,
    totalChunks: string,
    filenameWithExtension: string,
    file: Option<Part>)

  /** How writing the chunk file can go wrong: the open fails, or the copy fails after `written` bytes. */
  datatype StoreFault = StoreOk | ChunkFileOpenFails | ChunkFileCopyFails(written: nat)

  /** Everything the environment decides during one request. */
  datatype RequestFaults = RequestFaults(partOpenFails: bool, store: StoreFault, disk: DiskFaults)

  const NO_FAULTS := RequestFaults(false, StoreOk, HEALTHY_DISK)

  datatype HandlerError =
    | BadChunkIndex
    | BadTotalChunks
    | NoFormFile
    | PartOpenFailed
    | ChunkFileOpenFailed
    | ChunkFileWriteFailed
    | ReassemblyFailed(cause: ReassemblyError)

  /** `Ok` is the 200 JSON reply naming the upload; `Failed` is the error the handler returns. */
  datatype Response = Ok(file: string) | Failed(error: HandlerError)

  /** The ledger `fileChunkCount` and the disk. */
  datatype State = State(ledger: map<string, Int64>, files: FileMap)

  datatype Handled = Handled(response: Response, state: State)

  /** `fileChunkCount[name]`: an absent entry reads as 0. */
  function Count(ledger: map<string, Int64>, name: string): (c: Int64)
    ensures name !in ledger ==> c == 0
  {
    if name in ledger then ledger[name] else 0
  }

  /** The disk after writing `data` to the chunk file at `path` in append mode. */
  function Persist(fs: FileMap, path: string, data: seq<byte>, fault: StoreFault): FileMap
  {
    match fault
    case StoreOk => Append(fs, path, data)
    case ChunkFileOpenFails => fs
    case ChunkFileCopyFails(w) => Append(fs, path, data[..Min(w, |data|)])
  }

  function StoreError(fault: StoreFault): HandlerError
  {
    if fault.ChunkFileOpenFails? then ChunkFileOpenFailed else ChunkFileWriteFailed
  }

  /** `uploadChunkHandler` as a step from the state `st`. */
  function Handle(st: State, req: ChunkRequest, faults: RequestFaults): Handled
  {
    match Atoi(req.chunkIndex)
    case None => Handled(Failed(BadChunkIndex), st)
    case Some(index) =>
      match Atoi(req.totalChunks)
      case None => Handled(Failed(BadTotalChunks), st)
      case Some(total) =>
        match req.file
        case None => Handled(Failed(NoFormFile), st)
        case Some(part) =>
          if faults.partOpenFails then Handled(Failed(PartOpenFailed), st)
          else
            var stored := Persist(st.files, ChunkPath(index, part.filename), part.content, faults.store);
            if !faults.store.StoreOk? then Handled(Failed(StoreError(faults.store)), State(st.ledger, stored))
            else
              var name := req.filenameWithExtension;
              var count := Inc64(Count(st.ledger, name));
              var ledger := st.ledger[name := count];
              if count >= total then
                var run := Reassembled(stored, name, total, faults.disk);
                match run.error
                case Some(e) => Handled(Failed(ReassemblyFailed(e)), State(ledger, run.files))
                case None => Handled(Ok(name), State(ledger - {name}, run.files))
              else Handled(Ok(name), State(ledger, stored))
  }

  class Server {
    /** `fileChunkCount`: chunks received so far, per `filenameWithExtension`. */
    var ledger: map<string, Int64>
    /** The disk, path by path. */
    var files: FileMap

    /** `init()`: an empty ledger, over whatever the disk already holds. */
    constructor (disk: FileMap)
      ensures ledger == map[] && files == disk
    {
      ledger := map[];
      files := disk;
    }

    function Snapshot(): State
      reads this
    {
      State(ledger, files)
    }

    /** Opens the chunk file at `path` in append mode (creating it) and copies `data` into it. */
    method StoreChunk(path: string, data: seq<byte>, fault: StoreFault) returns (ok: bool)
      modifies this
      ensures ok <==> fault.StoreOk?
      ensures ledger == old(ledger)
      ensures files == Persist(old(files), path, data, fault)
      ensures ok ==> path in files && files[path] == Read(old(files), path) + data
    {
      match fault {
        case StoreOk =>
          files := Append(files, path, data);
        case ChunkFileOpenFails =>
        case ChunkFileCopyFails(w) =>
          files := Append(files, path, data[..Min(w, |data|)]);
      }
      ok := fault.StoreOk?;
    }

    /**
     * `reassembleFile(filename, totalChunks)`: creates `uploads/<filename>`
     * and appends chunk files 0..totalChunks-1 to it in order, removing each.
     */
    method Reassemble(filename: string, totalChunks: int, faults: DiskFaults) returns (error: Option<ReassemblyError>)
      modifies this
      ensures ledger == old(ledger)
      ensures Run(error, files) == Reassembled(old(files), filename, totalChunks, faults)
    {
      var out := UploadPath(filename);
      if faults.createFails {
        return Some(CreateFailed);
      }
      files := Create(files, out);
      ghost var created := files;
      var i := 0;
      while i < totalChunks
        invariant 0 <= i
        invariant ledger == old(ledger)
        invariant Sweep(files, filename, i, totalChunks, faults) == Sweep(created, filename, 0, totalChunks, faults)
        decreases totalChunks - i
      {
        var chunkFilename := BlobChunkPath(i);
        var fault := FaultAt(faults, i);
        if fault == Some(OpenFails) {
          return Some(ChunkOpenFailed(i));
        }
        files := Append(files, chunkFilename, []);
        var data := Read(files, chunkFilename);
        if fault.Some? {
          var w := fault.value.written;
          files := Append(files, out, data[..Min(w, |data|)]);
          return Some(ChunkCopyFailed(i));
        }
        files := Append(files, out, data);
        if i !in faults.removeFails {
          files := Remove(files, chunkFilename);
        }
        i := i + 1;
      }
      return None;
    }

    /** `uploadChunkHandler`: one `POST /upload_chunk` request. */
    method UploadChunk(req: ChunkRequest, faults: RequestFaults) returns (response: Response)
      modifies this
      ensures Handled(response, Snapshot()) == Handle(old(Snapshot()), req, faults)
    {
      var chunkIndex := Atoi(req.chunkIndex);
      if chunkIndex.None? {
        return Failed(BadChunkIndex);
      }
      var totalChunks := Atoi(req.totalChunks);
      if totalChunks.None? {
        return Failed(BadTotalChunks);
      }
      var name := req.filenameWithExtension;
      if req.file.None? {
        return Failed(NoFormFile);
      }
      var part := req.file.value;
      if faults.partOpenFails {
        return Failed(PartOpenFailed);
      }
      var stored := StoreChunk(ChunkPath(chunkIndex.value, part.filename), part.content, faults.store);
      if !stored {
        return Failed(StoreError(faults.store));
      }
      ledger := ledger[name := Inc64(Count(ledger, name))];
      if ledger[name] >= totalChunks.value {
        var error := Reassemble(name, totalChunks.value, faults.disk);
        if error.Some? {
          return Failed(ReassemblyFailed(error.value));
        }
        ledger := ledger - {name};
      }
      return Ok(name);
    }
  }

  // ---------------------------------------------------------------------------
  // What one request does

  /**
   * A request whose `chunkIndex` or `totalChunks` does not parse, that has no
   * `file` part, or whose part cannot be opened is refused with that error
   * and changes neither the ledger nor the disk.
   */
  lemma RejectedBeforeStoring(st: State, req: ChunkRequest, faults: RequestFaults)
    ensures Atoi(req.chunkIndex).None? ==> Handle(st, req, faults) == Handled(Failed(BadChunkIndex), st)
    ensures Atoi(req.chunkIndex).Some? && Atoi(req.totalChunks).None? ==>
      Handle(st, req, faults) == Handled(Failed(BadTotalChunks), st)
    ensures Atoi(req.chunkIndex).Some? && Atoi(req.totalChunks).Some? && req.file.None? ==>
      Handle(st, req, faults) == Handled(Failed(NoFormFile), st)
    ensures Atoi(req.chunkIndex).Some? && Atoi(req.totalChunks).Some? && req.file.Some? && faults.partOpenFails ==>
      Handle(st, req, faults) == Handled(Failed(PartOpenFailed), st)
  {
  }

  /**
   * When writing the chunk file fails the request fails and the ledger is not
   * incremented; only the chunk file may have changed (a failed copy can leave
   * part of the bytes behind).
   */
  lemma StoreFailureNotCounted(st: State, req: ChunkRequest, faults: RequestFaults)
    requires Atoi(req.chunkIndex).Some? && Atoi(req.totalChunks).Some? && req.file.Some?
    requires !faults.partOpenFails && !faults.store.StoreOk?
    ensures var h := Handle(st, req, faults);
      var path := ChunkPath(Atoi(req.chunkIndex).value, req.file.value.filename);
      && h.response == Failed(StoreError(faults.store))
      && h.state.ledger == st.ledger
      && (forall q :: q != path ==> Same(st.files, h.state.files, q))
      && (faults.store.ChunkFileOpenFails? ==> h.state.files == st.files)
  {
  }

  /**
   * A persisted chunk is appended to `chunks/<chunkIndex>-<multipart name>` and
   * raises the ledger count of its upload by one (from 0 when absent); no other
   * ledger entry changes. Reassembly runs exactly when the new count reaches
   * `totalChunks`: on success the entry is deleted and the reply is 200, on
   * failure the entry keeps the new count and the error is returned.
   */
  lemma PersistedChunkCounted(st: State, req: ChunkRequest, faults: RequestFaults)
    requires Atoi(req.chunkIndex).Some? && Atoi(req.totalChunks).Some? && req.file.Some?
    requires !faults.partOpenFails && faults.store.StoreOk?
    requires Count(st.ledger, req.filenameWithExtension) < MAX_INT64
    ensures var h := Handle(st, req, faults);
      var name := req.filenameWithExtension;
      var total := Atoi(req.totalChunks).value;
      var count := Count(st.ledger, name) + 1;
      var path := ChunkPath(Atoi(req.chunkIndex).value, req.file.value.filename);
      var stored := Append(st.files, path, req.file.value.content);
      var run := Reassembled(stored, name, total, faults.disk);
      && stored[path] == Read(st.files, path) + req.file.value.content
      && h.state.ledger - {name} == st.ledger - {name}
      && (count < total ==> h == Handled(Ok(name), State(st.ledger[name := count], stored)))
      && (count >= total && run.error.None? ==> h == Handled(Ok(name), State(st.ledger - {name}, run.files)))
      && (count >= total && run.error.Some? ==>
            h == Handled(Failed(ReassemblyFailed(run.error.value)), State(st.ledger[name := count], run.files)))
  {
    var name := req.filenameWithExtension;
    assert st.ledger[name := Count(st.ledger, name) + 1] - {name} == st.ledger - {name};
    assert (st.ledger - {name}) - {name} == st.ledger - {name};
  }

  /**
   * The counter is a plain 64-bit `int` with no overflow check: a stored chunk
   * of an upload already counted at the maximum wraps its entry to the
   * minimum, which is below every `totalChunks` but the minimum itself, so
   * that upload never completes by counting further.
   */
  lemma CounterWrapsAtMaximum(st: State, req: ChunkRequest, faults: RequestFaults)
    requires Atoi(req.chunkIndex).Some? && Atoi(req.totalChunks).Some? && req.file.Some?
    requires !faults.partOpenFails && faults.store.StoreOk?
    requires Count(st.ledger, req.filenameWithExtension) == MAX_INT64
    ensures var h := Handle(st, req, faults);
      var name := req.filenameWithExtension;
      var total := Atoi(req.totalChunks).value;
      var path := ChunkPath(Atoi(req.chunkIndex).value, req.file.value.filename);
      var stored := Append(st.files, path, req.file.value.content);
      && (MIN_INT64 < total ==> h == Handled(Ok(name), State(st.ledger[name := MIN_INT64], stored)))
      && (total == MIN_INT64 ==> h.state.files == Reassembled(stored, name, total, faults.disk).files)
  {
  }

  /**
   * There is no range check on `totalChunks`: a value of 0 or less makes the
   * first persisted chunk of an upload trigger reassembly.
   */
  lemma NonPositiveTotalReassemblesAtOnce(st: State, req: ChunkRequest)
    requires Atoi(req.chunkIndex).Some? && req.file.Some?
    requires Atoi(req.totalChunks).Some? && Atoi(req.totalChunks).value <= 0
    requires req.filenameWithExtension !in st.ledger
    ensures var h := Handle(st, req, NO_FAULTS);
      var path := ChunkPath(Atoi(req.chunkIndex).value, req.file.value.filename);
      && h.response == Ok(req.filenameWithExtension)
      && req.filenameWithExtension !in h.state.ledger
      && h.state.files == Reassembled(Append(st.files, path, req.file.value.content),
                                       req.filenameWithExtension, Atoi(req.totalChunks).value, HEALTHY_DISK).files
      && UploadPath(req.filenameWithExtension) in h.state.files
      && h.state.files[UploadPath(req.filenameWithExtension)] == []
  {
    var name := req.filenameWithExtension;
    var path := ChunkPath(Atoi(req.chunkIndex).value, req.file.value.filename);
    var stored := Append(st.files, path, req.file.value.content);
    ReassembledError(stored, name, Atoi(req.totalChunks).value, HEALTHY_DISK);
    ReassembledOnSuccess(stored, name, Atoi(req.totalChunks).value, HEALTHY_DISK);
  }

  /**
   * Sending the same chunk twice (say, a retry) appends its bytes twice to the
   * same chunk file and counts it twice toward completion.
   */
  lemma RetriedChunkDuplicates(st: State, req: ChunkRequest)
    requires Atoi(req.chunkIndex).Some? && Atoi(req.totalChunks).Some? && req.file.Some?
    requires Count(st.ledger, req.filenameWithExtension) + 2 < Atoi(req.totalChunks).value
    ensures var once := Handle(st, req, NO_FAULTS).state;
      var twice := Handle(once, req, NO_FAULTS).state;
      var path := ChunkPath(Atoi(req.chunkIndex).value, req.file.value.filename);
      && Count(twice.ledger, req.filenameWithExtension) == Count(st.ledger, req.filenameWithExtension) + 2
      && path in twice.files
      && twice.files[path] == Read(st.files, path) + req.file.value.content + req.file.value.content
  {
    var name := req.filenameWithExtension;
    var once := Handle(st, req, NO_FAULTS).state;
    PersistedChunkCounted(st, req, NO_FAULTS);
    PersistedChunkCounted(once, req, NO_FAULTS);
  }
}
