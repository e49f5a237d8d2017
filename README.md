# Chunked upload: coordinator and splitter

This project models how the server and the browser cooperate on a large file
upload.

- **Browser (`static/upload.js`).** `uploadFile` cuts the file into 5 MiB
  slices. `uploadNextChunk` posts them one at a time to `/upload_chunk`, each
  with `chunkIndex`, `totalChunks` and `filenameWithExtension`. It moves on to
  the next slice only after a 200 reply.
- **Server (`http/main.go`).** `uploadChunkHandler` parses the two numbers. It
  appends the chunk to `chunks/<chunkIndex>-<multipart file name>` and raises
  the in-memory ledger `fileChunkCount` for the upload by one. When the count
  reaches `totalChunks`, it calls `reassembleFile`. `reassembleFile` creates
  `uploads/<filename>`, appends `chunks/0-blob`, `chunks/1-blob`, … to it in
  order, and removes each chunk file as it goes. On success the ledger entry
  is deleted.

## Modelling choices

- The disk is a map from path to bytes, changed by create, append and remove
  (`FileStore`).
- Everything the environment decides is an explicit input. This covers a form
  file that cannot be opened, and a chunk file that cannot be opened or whose
  copy stops after some bytes. On the reassembly side it covers the output
  not being created, a chunk failing to open or copy, and a failed removal
  (which the code ignores).
- The server state is the ledger plus the disk. `Coordinator.Handle` is one
  request as a step from one state to the next. The class
  `Coordinator.Server` holds the two maps as fields. Its methods do the work
  in place:
  - `StoreChunk` is the append-mode write of one chunk file;
  - `Reassemble` is the `for` loop of `reassembleFile`, with invariants;
  - `UploadChunk` is the handler.
  Each method is proved to agree with the step functions. The lemmas state
  what those functions do.
- The browser side has two parts:
  - `Splitter` holds the slice arithmetic.
  - `Client.UploadNextChunk` is the recursive `uploadNextChunk`, sending to a
    `Server`. A 200 reply is `Response.Ok`.
  - `Client.Session` describes the same requests handled one after another,
    starting from a given state.
- Joining the two sides gives the round trip. A file split as the browser
  splits it, and stored and reassembled as the server does, ends up in
  `uploads/<name>` byte for byte. This holds when the upload starts from a
  clean state and nothing fails.
- `Reordering` feeds the handler the chunks of one upload in an arbitrary
  order. The browser sends them in ascending order, but the handler does not
  depend on that: it files each chunk under its own index and reassembles by
  index. Whatever the order, the replies and the final ledger and disk are
  the same.
- Integer details:
  - The ledger counter is Go's 64-bit `int`; the increment wraps at the top
    of the range (`Base.Inc64`).
  - `strconv.Atoi` accepts an optional sign and decimal digits within that
    range.
  - The browser's numbers are sent as decimal text (`Decimal.Itoa`).
  - File sizes are at most `Number.MAX_SAFE_INTEGER`, so every size
    arithmetic in `upload.js` is exact.

## Where the code departs from the system's design description

The model follows the code in each of these cases:

- **Missing chunks.** The design says reassembly fails with "chunk missing" when a chunk was never received. The code opens each chunk with `O_CREATE`, so a missing chunk is created empty and contributes no bytes (`Reassembly.ReassembledOnSuccess`, `Reassembly.MissingChunkContributesNothing`).
- **Partial output.** The design says a failed reassembly emits no partial artifact. The code leaves the output as written so far.
- **When chunks are deleted.** The design deletes consumed chunks only on success. The code removes each chunk as soon as it has been appended (`Reassembly.ReassembledOnChunkFailure`).
- **Range checks.** The design requires `chunkIndex >= 0` and `totalChunks > 0`. The code checks neither (`Coordinator.NonPositiveTotalReassemblesAtOnce`).
- **Locking.** The design guards the ledger with a lock. The code has none, so the model handles one request at a time.

## Model

| member | source | states |
|---|---|---|
| Decimal.Atoi | http/main.go:95-103 | A form value parses only if it is non-empty, starts with a digit or a sign, and fits Go's 64-bit `int`; anything else is the parse error that ends the request. |
| Decimal.AtoiItoa | http/main.go:95-103 | Every number within Go's `int` that the browser writes in decimal parses back to the same number. |
| Decimal.ItoaInjective | http/main.go:122 | Two integers have the same decimal text exactly when they are equal. |
| Base.Inc64 | http/main.go:134 | The ledger increment is Go's `++` on a 64-bit `int`: the result is the one value of the range congruent to the count plus one modulo 2^64, so it is the count plus one whenever that fits and wraps to the minimum otherwise. |
| FileStore.Create | http/main.go:158 | After `os.Create` the path exists and is empty, whatever it held before. |
| FileStore.CreateElsewhere | http/main.go:158 | Creating the output leaves every other path as it was. |
| FileStore.Append | http/main.go:123-131 | Writing in append mode leaves the path holding its old bytes followed by the new ones, creating it if absent. |
| FileStore.Remove | http/main.go:182 | After the removal the path no longer exists. |
| FileStore.AppendElsewhere | http/main.go:123-131 | Appending to one path leaves every other path as it was. |
| FileStore.ChunkPathInjective | http/main.go:122 | Two chunks share a chunk file exactly when they have the same index and the same multipart name. |
| FileStore.FoundOnlyAsBlob | http/main.go:165 | The path reassembly reads for chunk `i` is the path a chunk was stored at exactly when that chunk's index is `i` and its multipart name is `blob`. |
| FileStore.UploadPathIsNotChunkPath | http/main.go:158 | As strings, the output path `uploads/<filename>` never equals a chunk path `chunks/<i>-<name>`; path resolution is not modelled (see Left out). |
| Reassembly.FirstFault | http/main.go:164-178 | The first chunk number in range whose open or copy fails: none before it fails, and it fails unless it is the end of the range. |
| Reassembly.SweepError | http/main.go:164-183 | The loop returns an error exactly when some chunk in range fails, and then it is the first failing chunk's open or copy error. |
| Reassembly.SweepOutput | http/main.go:164-183 | The loop appends to the output the chunks from its start up to the first failure, in ascending order, followed by the part of the failing chunk copied before a failed copy. |
| Reassembly.SweepChunk | http/main.go:168-182 | Each chunk file the loop gets past is removed, unless its removal failed. The failing chunk file and the ones after it keep their bytes. |
| Reassembly.SweepFrame | http/main.go:164-183 | The loop changes no path except the output and the chunk files it visits. |
| Reassembly.ReassembledError | http/main.go:156-186 | `reassembleFile` succeeds exactly when the output can be created and every chunk in range opens and copies. A failed create leaves the disk unchanged. Otherwise the first failing chunk's error is returned. |
| Reassembly.ReassembledOnSuccess | http/main.go:156-186 | On success the output holds exactly chunks `0..totalChunks-1` in ascending order, whatever it held before; a missing chunk contributes nothing. Each of those chunk files is gone unless its removal failed, and no other path changes. |
| Reassembly.MissingChunkContributesNothing | http/main.go:166-175 | A chunk file that does not exist is opened with `O_CREATE` and copied as empty: the chunks around it are joined with nothing in between. |
| Reassembly.ReassembledOnChunkFailure | http/main.go:156-183 | When chunk `j` is the first to fail, the output keeps chunks `0..j-1` plus whatever part of `j` was copied. The chunk files before `j` are removed, or keep their bytes when their removal failed. Chunk file `j` is untouched after a failed open and keeps its bytes (created empty if missing) after a failed copy. The chunk files after `j` and every other path are untouched. |
| Coordinator.Server.constructor | http/main.go:19-23 | The ledger starts empty. |
| Coordinator.Server.StoreChunk | http/main.go:122-131 | Storing a chunk succeeds exactly when neither the open nor the copy fails. On success the chunk file holds its old bytes followed by the chunk. On failure the file is unchanged, or holds the bytes written before the copy failed. The ledger is not touched. |
| Coordinator.Server.Reassemble | http/main.go:156-186 | The loop returns the error and leaves the disk that `Reassembly.Reassembled` describes, and it does not touch the ledger. |
| Coordinator.Server.UploadChunk | http/main.go:94-152 | One request gives the reply and the new ledger and disk that `Coordinator.Handle` describes. |
| Coordinator.RejectedBeforeStoring | http/main.go:95-116 | A bad `chunkIndex`, a bad `totalChunks`, a missing form file or one that cannot be opened is refused with that error, and the ledger and disk are unchanged. |
| Coordinator.StoreFailureNotCounted | http/main.go:122-131 | When writing the chunk file fails, the request fails with that error and the ledger is unchanged. Only the chunk file can have changed, and a failed open changes nothing. |
| Coordinator.PersistedChunkCounted | http/main.go:133-151 | A stored chunk is appended to its chunk file and raises its upload's count by one (from 0 when absent). No other ledger entry changes. Reassembly runs exactly when the new count is at least `totalChunks`. On success the entry is deleted; on failure it keeps the new count and the error is returned. |
| Coordinator.CounterWrapsAtMaximum | http/main.go:133-139 | The count has no overflow check: a stored chunk of an upload counted at the maximum wraps the entry to the minimum `int`, and with any larger `totalChunks` the reply is 200 and nothing is reassembled. |
| Coordinator.NonPositiveTotalReassemblesAtOnce | http/main.go:139-145 | With `totalChunks` of 0 or less, the first stored chunk triggers reassembly. The reply is 200, the entry is deleted and the output is empty. |
| Coordinator.RetriedChunkDuplicates | http/main.go:122-134 | Sending the same chunk twice appends its bytes twice to the same chunk file and counts it twice. |
| Splitter.TotalChunks | static/upload.js:16-18 | The chunk count is the least `n` with `n * chunkSize >= size`, which is 0 exactly for an empty file. |
| Splitter.BlobSlice | static/upload.js:23 | `slice(start, end)` within bounds is exactly those bytes, and it is empty from the end of the file on. |
| Splitter.PieceBounds | static/upload.js:21-23 | Chunk `k` is the slice from `k * chunkSize` to `min(k * chunkSize + chunkSize, size)`. Every chunk but the last has exactly `chunkSize` bytes, and the last has between 1 and `chunkSize`. |
| Splitter.PiecesContiguous | static/upload.js:21-22 | Each chunk ends where the next one starts. |
| Splitter.SplitJoin | static/upload.js:18-23 | The chunks, concatenated in order, give back the whole file. |
| Splitter.EmptyFile | static/upload.js:18-23 | An empty file has a chunk count of 0, and its chunk 0 is empty. |
| Client.RequestCount | static/upload.js:18-64 | An upload that meets no error sends one request per chunk, and one request for an empty file. |
| Client.RequestsAgree | static/upload.js:26-30 | All requests of one upload carry the same `totalChunks` and file name, and no two carry the same chunk number. |
| Client.UploadNextChunk | static/upload.js:20-62 | Starting at `currentChunk`, the chunks are sent in ascending order. Every reply but the last is 200. A failed reply stops sending without advancing the counter. After a 200 it stops only once every chunk has been sent. The replies and the server's final state are those of the server handling these requests in turn. |
| Client.UploadFile | static/upload.js:1-65 | The same from chunk 0: between one request and the request count, all replies but the last are 200. `currentChunk` ends at the failing chunk, or at the request count after a full upload. |
| Client.SessionIsClean | http/main.go:94-152 | The handler, given the requests of a fault-free upload from a clean state, agrees with the reference `Client.CleanUpload`, built chunk by chunk: every reply is 200, each chunk but the last raises the count by one, and the last one reassembles and deletes the entry. |
| Client.HandleNextChunk | http/main.go:122-145 | With nothing failing, chunk `m` of a clean upload is appended to `chunks/m-blob`. It raises the count to `m + 1`, or, as the last chunk, reassembles the file and deletes the entry. |
| Client.CleanPrefix | http/main.go:122-134 | Before the last request of a clean upload, the count equals the chunks sent so far, and each chunk file holds its slice (or nothing, if not yet sent). |
| Client.ReassembleAllPieces | http/main.go:156-186 | When chunk files hold the browser's slices, reassembly succeeds, the output is the original file and the chunk files are gone. |
| Client.CleanComplete | http/main.go:139-145 | After the last request of a clean upload the file is in place, the ledger entry is gone and so are the chunk files. |
| Client.UploadRoundTrip | static/upload.js:20-64 | Round trip: from a clean state with no faults, every request is answered 200. Once all are sent, `uploads/<name>` holds exactly the file, the ledger has no entry and no chunk file of the upload remains. |
| Client.CleanUploadOutcome | static/upload.js:43-58 | Given what `Client.UploadFile` guarantees, a fault-free upload from a clean state sends every chunk, gets 200 each time, and leaves the file in place and nothing else behind. |
| Reordering.ArrivalsPrefix | http/main.go:122-139 | Chunks arriving in any order, each once, before the last one: every reply is 200, and the count equals the number of chunks received. Each received chunk sits alone in its chunk file, the other chunk files are still empty, and no other ledger entry or path has changed. |
| Reordering.ChunkRangeJoined | http/main.go:164-179 | Chunk files that hold the chunks are read back as the chunks joined in ascending index order. |
| Reordering.ArrivalOrderIrrelevant | http/main.go:122-145 | For any arrival order of the chunks of a fresh upload (each index below `totalChunks` exactly once, nothing failing), every request is answered 200. Afterwards `uploads/<name>` holds the chunks in ascending index order, the ledger has lost only that upload's entry, no chunk file of the upload remains, and every other path is unchanged. |
| Reordering.ArrivalOrdersAgree | http/main.go:122-145 | Any two arrival orders of the same fresh upload give the same replies and the same final ledger and disk. |
| Client.EmptyUploadLeavesChunkFile | static/upload.js:18-64 | An empty file is still sent as one request with index 0, total 0 and no bytes. It completes at once with an empty upload and leaves the empty `chunks/0-blob` behind. |

## Left out

- HTTP plumbing is not modelled: the echo server, CORS, routing, static files and `uploadHandler`. Replies are `Ok(name)` or `Failed(error)`; the JSON body and its `time.Now()` timestamp are left out.
- The goroutine that wipes `uploads` every minute is not modelled; it is timer-driven and runs concurrently.
- Concurrent requests on the unsynchronised `fileChunkCount` map are not modelled. Requests are handled one at a time, in the order the browser sends them.
- Directory creation (`os.MkdirAll`), permissions, file handles and `Close`, and `fmt` logging are not modelled. A path is present or absent, with its bytes.
- The multipart library's sanitising of the part's file name is not modelled; the name is taken as given.
- `FileStore.ChunkPathInjective` assumes the multipart name is whatever the client sent. Directory separators in it are not interpreted.
- FileStore.UploadPathIsNotChunkPath: disjointness is stated about path strings only. The upload name is an unsanitised form value (http/main.go:105, 158), and `..` or `/` in it are not resolved. For example, the name `../chunks/0-blob` would make the output path name chunk 0's file on a real disk.
- XHR and the DOM are not modelled: `onprogress`, the progress bar (floating point), `console` output, the text area and the missing-file alert.
- An XHR network error (`onerror`) is not modelled. In the model every request gets a reply.
- `Math.ceil(file.size / chunkSize)` is modelled as integer ceiling division. This is exact for sizes up to `Number.MAX_SAFE_INTEGER`, and the lemmas about the upload assume such a size.
- `strconv.Atoi` is modelled for ASCII decimal text. Go's error values are one error constructor per failure point.
- Client.UploadFile: its ensures ties the replies and the final server state to `Client.Session` for any faults; what a fault-free upload from a clean state then produces is stated separately, in `Client.CleanUploadOutcome` and `Client.UploadRoundTrip`.
- Reordering.ArrivalOrderIrrelevant: stated for a fresh upload (count 0, its chunk files empty) whose chunks each arrive once with nothing failing. Duplicated chunks are covered separately by `Coordinator.RetriedChunkDuplicates`, and leftover chunk bytes by `Reassembly.ReassembledOnSuccess`.
