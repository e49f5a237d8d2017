/**
 * The browser's `uploadFile`: it sends chunk 0, and after each 200 reply
 * sends the next chunk until `currentChunk` reaches `totalChunks`; any other
 * reply ends the upload. Here the requests go straight to a `Server`, one at a
 * time, and a 200 reply is a `Response.Ok`.
 *
 * Joined with the server model this gives the round trip: a file split as the
 * browser splits it and stored as the handler stores it comes out of
 * reassembly byte for byte.
 */
module Client {
  import opened Base
  import opened Decimal
  import opened FileStore
  import opened Reassembly
  import opened Coordinator
  import opened Splitter

  /**
   * The form `uploadNextChunk` sends for chunk `k`: the numbers as decimal
   * text, and the chunk as a `Blob`, whose multipart file name is `blob`.
   */
  function RequestFor(data: seq<byte>, name: string, k: nat): ChunkRequest
  {
    ChunkRequest(Itoa(k), Itoa(TotalChunks(|data|)), name, Some(Part(BLOB_NAME, Piece(data, k))))
  }

  /**
   * Every request of one upload carries the same `totalChunks` and
   * `filenameWithExtension`, and the chunk number tells the requests apart.
   */
  lemma RequestsAgree(data: seq<byte>, name: string, j: nat, k: nat)
    ensures RequestFor(data, name, j).totalChunks == RequestFor(data, name, k).totalChunks == Itoa(TotalChunks(|data|))
    ensures RequestFor(data, name, j).filenameWithExtension == RequestFor(data, name, k).filenameWithExtension == name
    ensures RequestFor(data, name, j).chunkIndex == RequestFor(data, name, k).chunkIndex <==> j == k
  {
    ItoaInjective(j, k);
  }

  /** How many requests an upload that meets no error sends: one per chunk, and one even for an empty file. */
  function RequestCount(size: nat): (n: nat)
    ensures 1 <= n <= Max(size, 1)
    ensures n == TotalChunks(size) || (size == 0 && n == 1)
  {
    Max(TotalChunks(size), 1)
  }

  /** The environment's behaviour for the `j`-th request; requests not listed meet no fault. */
  function FaultsFor(faults: map<nat, RequestFaults>, j: nat): RequestFaults
  {
    if j in faults then faults[j] else NO_FAULTS
  }

  datatype Trace = Trace(responses: seq<Response>, state: State)

  /**
   * The server handling chunks `lo`, `lo + 1`, ..., `hi - 1` of the upload in
   * turn from state `s`: each request goes to the state the one before left,
   * and the `j`-th chunk meets the environment `FaultsFor(faults, j)`.
   */
  function Session(s: State, data: seq<byte>, name: string, lo: nat, hi: nat, faults: map<nat, RequestFaults>): (t: Trace)
    ensures |t.responses| == Max(hi - lo, 0)
    decreases hi - lo
  {
    if hi <= lo then Trace([], s)
    else
      var h := Handle(s, RequestFor(data, name, lo), FaultsFor(faults, lo));
      var rest := Session(h.state, data, name, lo + 1, hi, faults);
      Trace([h.response] + rest.responses, rest.state)
  }

  /**
   * The server state an upload of `data` under `name` needs to start from:
   * no ledger entry for the name and no leftover bytes in the chunk files it
   * will use.
   */
  predicate FreshFor(st: State, data: seq<byte>, name: string)
  {
    name !in st.ledger && forall k :: 0 <= k < TotalChunks(|data|) ==> ChunkBytes(st.files, k) == []
  }

  /** `responses` are the replies to chunks `lo`, `lo + 1`, ... sent from state `s`, and `final` the state they leave. */
  predicate Follows(s: State, data: seq<byte>, name: string, lo: nat, faults: map<nat, RequestFaults>,
                    responses: seq<Response>, final: State)
  {
    Trace(responses, final) == Session(s, data, name, lo, lo + |responses|, faults)
  }

  /**
   * `uploadFile` sending `data` under `name` to `server`: it starts
   * `uploadNextChunk` at chunk 0. Returns the replies and the final value of
   * `currentChunk`.
   */
  method UploadFile(server: Server, data: seq<byte>, name: string, faults: map<nat, RequestFaults>)
    returns (responses: seq<Response>, currentChunk: nat)
    modifies server
    ensures 1 <= |responses| <= RequestCount(|data|)
    ensures forall k :: 0 <= k < |responses| - 1 ==> responses[k].Ok?
    ensures responses[|responses| - 1].Failed? ==> currentChunk == |responses| - 1
    ensures responses[|responses| - 1].Ok? ==> currentChunk == |responses| == RequestCount(|data|)
    ensures Trace(responses, server.Snapshot()) == Session(old(server.Snapshot()), data, name, 0, |responses|, faults)
  {
    responses, currentChunk := UploadNextChunk(server, data, name, 0, faults);
  }

  /**
   * What `uploadFile` ends with when nothing fails: given what `UploadFile`
   * guarantees about its replies and the server, an upload with no faults from
   * a fresh state has in fact sent every chunk, each reply is 200, the server
   * holds the file, the ledger entry is gone and so are the chunk files.
   */
  lemma CleanUploadOutcome(st: State, data: seq<byte>, name: string, responses: seq<Response>, final: State)
    requires |data| <= MAX_SAFE_INTEGER && FreshFor(st, data, name)
    requires 1 <= |responses| <= RequestCount(|data|)
    requires responses[|responses| - 1].Ok? ==> |responses| == RequestCount(|data|)
    requires Trace(responses, final) == Session(st, data, name, 0, |responses|, map[])
    ensures |responses| == RequestCount(|data|)
    ensures forall k :: 0 <= k < |responses| ==> responses[k] == Ok(name)
    ensures UploadPath(name) in final.files && final.files[UploadPath(name)] == data
    ensures name !in final.ledger
    ensures forall k :: 0 <= k < TotalChunks(|data|) ==> BlobChunkPath(k) !in final.files
  {
    UploadRoundTrip(st, data, name, |responses|);
  }

  /**
   * `uploadNextChunk` for chunk `currentChunk`: sends it and, after a 200
   * reply, goes on with the next chunk while chunks remain. Returns the
   * replies to the chunks it sent and the final value of `currentChunk`.
   */
  method UploadNextChunk(server: Server, data: seq<byte>, name: string, currentChunk: nat, faults: map<nat, RequestFaults>)
    returns (responses: seq<Response>, finalChunk: nat)
    modifies server
    requires currentChunk < RequestCount(|data|)
    ensures 1 <= |responses| <= RequestCount(|data|) - currentChunk
    ensures forall k :: 0 <= k < |responses| - 1 ==> responses[k].Ok?
    ensures responses[|responses| - 1].Failed? ==> finalChunk == currentChunk + |responses| - 1
    ensures responses[|responses| - 1].Ok? ==> finalChunk == currentChunk + |responses| == RequestCount(|data|)
    ensures Follows(old(server.Snapshot()), data, name, currentChunk, faults, responses, server.Snapshot())
    decreases RequestCount(|data|) - currentChunk
  {
    var request := RequestFor(data, name, currentChunk);
    var response := server.UploadChunk(request, FaultsFor(faults, currentChunk));
    finalChunk := currentChunk;
    responses := [response];
    if response.Ok? {
      var next := currentChunk + 1;
      finalChunk := next;
      if next < TotalChunks(|data|) {
        ghost var s' := server.Snapshot();
        var rest;
        rest, finalChunk := UploadNextChunk(server, data, name, next, faults);
        Prepend(response, rest);
        responses := [response] + rest;
        SessionCons(old(server.Snapshot()), response, s', data, name, currentChunk, next, rest, server.Snapshot(), responses, faults);
        return;
      }
    }
    SessionCons(old(server.Snapshot()), response, server.Snapshot(), data, name, currentChunk, currentChunk + 1, [],
                server.Snapshot(), responses, faults);
  }

  /**
   * If the server answers chunk `lo` in state `s` with `response` and moves to
   * `s'`, and the chunks from `next = lo + 1` on give `rest` and end in `s''`,
   * then the session from `s` is that reply followed by `rest`.
   */
  lemma SessionCons(s: State, response: Response, s': State, data: seq<byte>, name: string, lo: nat, next: nat,
                    rest: seq<Response>, s'': State, responses: seq<Response>, faults: map<nat, RequestFaults>)
    requires next == lo + 1 && responses == [response] + rest
    requires Handled(response, s') == Handle(s, RequestFor(data, name, lo), FaultsFor(faults, lo))
    requires Follows(s', data, name, next, faults, rest, s'')
    ensures Follows(s, data, name, lo, faults, responses, s'')
  {
    var hi := next + |rest|;
    FollowsElim(s', data, name, next, hi, faults, rest, s'');
    SessionUnfold(s, response, s', data, name, lo, next, hi, faults);
    TraceCons(response, rest, s'', responses, Session(s, data, name, lo, hi, faults), Session(s', data, name, next, hi, faults));
    FollowsIntro(s, data, name, lo, hi, faults, responses, s'');
  }

  /** `Session` over a non-empty range, with the first chunk's answer named. */
  lemma SessionUnfold(s: State, response: Response, s': State, data: seq<byte>, name: string, lo: nat, next: nat, hi: nat,
                      faults: map<nat, RequestFaults>)
    requires next == lo + 1 && lo < hi
    requires Handled(response, s') == Handle(s, RequestFor(data, name, lo), FaultsFor(faults, lo))
    ensures var rest := Session(s', data, name, next, hi, faults);
      Session(s, data, name, lo, hi, faults) == Trace([response] + rest.responses, rest.state)
  {
  }

  /** Putting one reply in front of a trace. */
  lemma TraceCons(response: Response, rest: seq<Response>, final: State, responses: seq<Response>, t: Trace, u: Trace)
    requires responses == [response] + rest
    requires t == Trace([response] + u.responses, u.state)
    requires Trace(rest, final) == u
    ensures Trace(responses, final) == t
  {
  }

  /** `Follows` with the end of the range named `hi`. */
  lemma FollowsElim(s: State, data: seq<byte>, name: string, lo: nat, hi: nat, faults: map<nat, RequestFaults>,
                    responses: seq<Response>, final: State)
    requires hi == lo + |responses|
    requires Follows(s, data, name, lo, faults, responses, final)
    ensures Trace(responses, final) == Session(s, data, name, lo, hi, faults)
  {
  }

  /** The converse of `FollowsElim`. */
  lemma FollowsIntro(s: State, data: seq<byte>, name: string, lo: nat, hi: nat, faults: map<nat, RequestFaults>,
                     responses: seq<Response>, final: State)
    requires hi == lo + |responses|
    requires Trace(responses, final) == Session(s, data, name, lo, hi, faults)
    ensures Follows(s, data, name, lo, faults, responses, final)
  {
  }

  /** A 200 reply followed by the replies of the rest of the upload. */
  lemma Prepend(response: Response, rest: seq<Response>)
    requires response.Ok? && 1 <= |rest|
    requires forall k :: 0 <= k < |rest| - 1 ==> rest[k].Ok?
    ensures |[response] + rest| == |rest| + 1
    ensures ([response] + rest)[|rest|] == rest[|rest| - 1]
    ensures forall k :: 0 <= k < |rest| ==> ([response] + rest)[k].Ok?
  {
  }

  /** Handling one more chunk after chunks `lo..hi-1` handles chunk `hi` in the state they left. */
  lemma {:induction false} SessionSnoc(s: State, data: seq<byte>, name: string, lo: nat, hi: nat, faults: map<nat, RequestFaults>)
    requires lo <= hi
    ensures var t := Session(s, data, name, lo, hi, faults);
      var h := Handle(t.state, RequestFor(data, name, hi), FaultsFor(faults, hi));
      Session(s, data, name, lo, hi + 1, faults) == Trace(t.responses + [h.response], h.state)
    decreases hi - lo
  {
    if lo < hi {
      var h0 := Handle(s, RequestFor(data, name, lo), FaultsFor(faults, lo));
      var r := Session(h0.state, data, name, lo + 1, hi, faults);
      var h := Handle(r.state, RequestFor(data, name, hi), FaultsFor(faults, hi));
      SessionSnoc(h0.state, data, name, lo + 1, hi, faults);
      SessionUnfold(s, h0.response, h0.state, data, name, lo, lo + 1, hi, faults);
      SessionUnfold(s, h0.response, h0.state, data, name, lo, lo + 1, hi + 1, faults);
      TraceSnoc(h0.response, r, Session(s, data, name, lo, hi, faults), Session(h0.state, data, name, lo + 1, hi + 1, faults),
                h.response, h.state);
    }
  }

  /** Appending one reply to a trace commutes with putting one in front. */
  lemma TraceSnoc(first: Response, rest: Trace, whole: Trace, longer: Trace, last: Response, final: State)
    requires whole == Trace([first] + rest.responses, rest.state)
    requires longer == Trace(rest.responses + [last], final)
    ensures Trace([first] + longer.responses, longer.state) == Trace(whole.responses + [last], final)
  {
    assert [first] + (rest.responses + [last]) == ([first] + rest.responses) + [last];
  }

  /**
   * What the first `m` requests of an upload do when nothing fails, stated
   * without the handler: each is answered 200 and appends its piece to its
   * chunk file; the count rises by one, and the request that brings it to the
   * chunk count reassembles the file and deletes the ledger entry.
   */
  function CleanUpload(st: State, data: seq<byte>, name: string, m: nat): (t: Trace)
    requires |data| <= MAX_SAFE_INTEGER && m <= RequestCount(|data|)
    ensures |t.responses| == m
    ensures forall k :: 0 <= k < m ==> t.responses[k] == Ok(name)
  {
    if m == 0 then Trace([], st)
    else
      var prev := CleanUpload(st, data, name, m - 1);
      var stored := Append(prev.state.files, BlobChunkPath(m - 1), Piece(data, m - 1));
      var total := TotalChunks(|data|);
      if m < total then Trace(prev.responses + [Ok(name)], State(prev.state.ledger[name := m], stored))
      else Trace(prev.responses + [Ok(name)], State(prev.state.ledger - {name}, Reassembled(stored, name, total, HEALTHY_DISK).files))
  }

  /** What the server does with chunk `m` of a fresh upload when nothing fails. */
  lemma HandleNextChunk(s: State, data: seq<byte>, name: string, m: nat)
    requires |data| <= MAX_SAFE_INTEGER
    requires m < RequestCount(|data|) && Count(s.ledger, name) == m
    ensures var stored := Append(s.files, BlobChunkPath(m), Piece(data, m));
      var total := TotalChunks(|data|);
      var h := Handle(s, RequestFor(data, name, m), NO_FAULTS);
      && (m + 1 < total ==> h == Handled(Ok(name), State(s.ledger[name := m + 1], stored)))
      && (m + 1 >= total ==>
            h == Handled(Ok(name), State(s.ledger - {name}, Reassembled(stored, name, total, HEALTHY_DISK).files)))
  {
    var total := TotalChunks(|data|);
    AtoiItoa(m);
    AtoiItoa(total);
    var req := RequestFor(data, name, m);
    var stored := Append(s.files, BlobChunkPath(m), Piece(data, m));
    ReassembledError(stored, name, total, HEALTHY_DISK);
    PersistedChunkCounted(s, req, NO_FAULTS);
  }

  /** The handler, fed the requests of a fresh upload with no faults, does what `CleanUpload` says. */
  lemma {:induction false} SessionIsClean(st: State, data: seq<byte>, name: string, m: nat)
    requires |data| <= MAX_SAFE_INTEGER && FreshFor(st, data, name)
    requires m <= RequestCount(|data|)
    ensures Session(st, data, name, 0, m, map[]) == CleanUpload(st, data, name, m)
    decreases m, 1
  {
    if m > 0 {
      SessionCleanStep(st, data, name, m);
    }
  }

  /** `SessionIsClean` for `m >= 1`: the first `m - 1` requests behave as `CleanUpload` says, and so does the `m`-th. */
  lemma {:induction false} SessionCleanStep(st: State, data: seq<byte>, name: string, m: nat)
    requires |data| <= MAX_SAFE_INTEGER && FreshFor(st, data, name)
    requires 1 <= m <= RequestCount(|data|)
    ensures Session(st, data, name, 0, m, map[]) == CleanUpload(st, data, name, m)
    decreases m, 0
  {
    SessionIsClean(st, data, name, m - 1);
    CleanPrefix(st, data, name, m - 1);
    SessionSnoc(st, data, name, 0, m - 1, map[]);
    HandleNextChunk(CleanUpload(st, data, name, m - 1).state, data, name, m - 1);
  }

  /**
   * Before the last request of a fresh upload with no faults, the ledger
   * counts the chunks sent so far, and chunk file `k` holds exactly piece `k`
   * for the chunks sent and nothing for the others.
   */
  lemma {:induction false} CleanPrefix(st: State, data: seq<byte>, name: string, m: nat)
    requires |data| <= MAX_SAFE_INTEGER && FreshFor(st, data, name)
    requires m < RequestCount(|data|)
    ensures var t := CleanUpload(st, data, name, m);
      Count(t.state.ledger, name) == m && HoldsPieces(t.state.files, data, m)
  {
    if m > 0 {
      CleanPrefix(st, data, name, m - 1);
      CleanUploadGrows(st, data, name, m);
      StoreNextPiece(CleanUpload(st, data, name, m - 1).state.files, data, m);
    }
  }

  /** A request of a clean upload before the last one counts its chunk and stores its piece. */
  lemma CleanUploadGrows(st: State, data: seq<byte>, name: string, m: nat)
    requires |data| <= MAX_SAFE_INTEGER && 1 <= m < TotalChunks(|data|)
    ensures var prev := CleanUpload(st, data, name, m - 1).state;
      CleanUpload(st, data, name, m).state
        == State(prev.ledger[name := m], Append(prev.files, BlobChunkPath(m - 1), Piece(data, m - 1)))
  {
  }

  /** Chunk file `k` holds piece `k` of `data` for `k < m`, and nothing for the other chunks of the upload. */
  predicate HoldsPieces(fs: FileMap, data: seq<byte>, m: nat)
  {
    forall k :: 0 <= k < TotalChunks(|data|) ==> ChunkBytes(fs, k) == if k < m then Piece(data, k) else []
  }

  /** Storing piece `m - 1` after the first `m - 1` pieces gives the chunk files of the first `m` pieces. */
  lemma StoreNextPiece(fs: FileMap, data: seq<byte>, m: nat)
    requires 1 <= m && HoldsPieces(fs, data, m - 1)
    ensures HoldsPieces(Append(fs, BlobChunkPath(m - 1), Piece(data, m - 1)), data, m)
  {
    var stored := Append(fs, BlobChunkPath(m - 1), Piece(data, m - 1));
    forall k | 0 <= k < TotalChunks(|data|)
      ensures ChunkBytes(stored, k) == if k < m then Piece(data, k) else []
    {
      var p := BlobChunkPath(m - 1);
      assert ChunkBytes(fs, k) == if k < m - 1 then Piece(data, k) else [];
      if k == m - 1 {
        assert ChunkBytes(stored, k) == Read(fs, p) + Piece(data, m - 1);
      } else {
        ChunkPathInjective(k, BLOB_NAME, m - 1, BLOB_NAME);
        assert BlobChunkPath(k) != p;
        assert ChunkBytes(stored, k) == ChunkBytes(fs, k);
      }
    }
  }

  /**
   * The upload of `data` under `name` is finished in state `st`:
   * `uploads/<name>` holds exactly `data`, the ledger has no entry for the
   * name and none of the upload's chunk files remains.
   */
  predicate Delivered(st: State, data: seq<byte>, name: string)
  {
    && UploadPath(name) in st.files
    && st.files[UploadPath(name)] == data
    && name !in st.ledger
    && forall k :: 0 <= k < TotalChunks(|data|) ==> BlobChunkPath(k) !in st.files
  }

  /** After the last request of a fresh, fault-free upload the file is in place and nothing of the upload is left. */
  lemma CleanComplete(st: State, data: seq<byte>, name: string)
    requires |data| <= MAX_SAFE_INTEGER && FreshFor(st, data, name)
    ensures Delivered(CleanUpload(st, data, name, RequestCount(|data|)).state, data, name)
  {
    var m := RequestCount(|data|);
    CleanPrefix(st, data, name, m - 1);
    CleanUploadLast(st, data, name);
    StoreLastPiece(CleanUpload(st, data, name, m - 1).state.files, data, name);
  }

  /** The last request of a clean upload stores the last piece, reassembles the file and deletes the ledger entry. */
  lemma CleanUploadLast(st: State, data: seq<byte>, name: string)
    requires |data| <= MAX_SAFE_INTEGER
    ensures var m := RequestCount(|data|);
      var prev := CleanUpload(st, data, name, m - 1).state;
      var stored := Append(prev.files, BlobChunkPath(m - 1), Piece(data, m - 1));
      CleanUpload(st, data, name, m).state
        == State(prev.ledger - {name}, Reassembled(stored, name, TotalChunks(|data|), HEALTHY_DISK).files)
  {
  }

  /** Storing the last piece after all the others and reassembling gives back the file and removes the chunk files. */
  lemma StoreLastPiece(fs: FileMap, data: seq<byte>, name: string)
    requires HoldsPieces(fs, data, RequestCount(|data|) - 1)
    ensures var m := RequestCount(|data|);
      var stored := Append(fs, BlobChunkPath(m - 1), Piece(data, m - 1));
      var files := Reassembled(stored, name, TotalChunks(|data|), HEALTHY_DISK).files;
      && UploadPath(name) in files
      && files[UploadPath(name)] == data
      && forall k :: 0 <= k < TotalChunks(|data|) ==> BlobChunkPath(k) !in files
  {
    var m := RequestCount(|data|);
    var stored := Append(fs, BlobChunkPath(m - 1), Piece(data, m - 1));
    StoreNextPiece(fs, data, m);
    assert forall k :: 0 <= k < TotalChunks(|data|) ==> ChunkBytes(stored, k) == Piece(data, k);
    ReassembleAllPieces(stored, data, name);
  }

  /** Reassembling chunk files that hold the browser's pieces gives back the file and removes them. */
  lemma ReassembleAllPieces(fs: FileMap, data: seq<byte>, name: string)
    requires forall k :: 0 <= k < TotalChunks(|data|) ==> ChunkBytes(fs, k) == Piece(data, k)
    ensures var r := Reassembled(fs, name, TotalChunks(|data|), HEALTHY_DISK);
      && r.error.None?
      && UploadPath(name) in r.files
      && r.files[UploadPath(name)] == data
      && forall k :: 0 <= k < TotalChunks(|data|) ==> BlobChunkPath(k) !in r.files
  {
    var total := TotalChunks(|data|);
    ReassembledError(fs, name, total, HEALTHY_DISK);
    ReassembledOnSuccess(fs, name, total, HEALTHY_DISK);
    ChunkRangeIsPieces(fs, data, 0, total);
    SplitJoin(data);
  }

  /** Chunk files holding the browser's pieces are reassembled into the pieces' concatenation. */
  lemma {:induction false} ChunkRangeIsPieces(fs: FileMap, data: seq<byte>, lo: nat, hi: nat)
    requires forall k: nat :: lo <= k < hi ==> ChunkBytes(fs, k) == Piece(data, k)
    ensures ChunkRange(fs, lo, hi) == Pieces(data, lo, hi)
    decreases hi - lo
  {
    if lo < hi {
      ChunkRangeIsPieces(fs, data, lo + 1, hi);
    }
  }

  /**
   * The round trip: from a fresh state with no faults, every request of the
   * upload is answered 200 and afterwards `uploads/<name>` holds exactly the
   * file, the ledger has no entry for the name, and no chunk file of the
   * upload remains.
   */
  lemma UploadRoundTrip(st: State, data: seq<byte>, name: string, m: nat)
    requires |data| <= MAX_SAFE_INTEGER && FreshFor(st, data, name)
    requires m <= RequestCount(|data|)
    ensures var t := Session(st, data, name, 0, m, map[]);
      && (forall k :: 0 <= k < m ==> t.responses[k] == Ok(name))
      && (m == RequestCount(|data|) ==>
            && UploadPath(name) in t.state.files
            && t.state.files[UploadPath(name)] == data
            && name !in t.state.ledger
            && forall k :: 0 <= k < TotalChunks(|data|) ==> BlobChunkPath(k) !in t.state.files)
  {
    SessionIsClean(st, data, name, m);
    if m == RequestCount(|data|) {
      CleanComplete(st, data, name);
    }
  }

  /**
   * An empty file is still sent as one request (chunk 0, total 0, no bytes);
   * it completes at once with an empty upload and leaves the empty chunk file
   * `chunks/0-blob` behind, since reassembly of zero chunks removes nothing.
   */
  lemma EmptyUploadLeavesChunkFile(st: State, name: string)
    requires FreshFor(st, [], name)
    ensures RequestCount(0) == 1
    ensures RequestFor([], name, 0) == ChunkRequest("0", "0", name, Some(Part(BLOB_NAME, [])))
    ensures var t := Session(st, [], name, 0, 1, map[]);
      && t.responses == [Ok(name)]
      && UploadPath(name) in t.state.files
      && t.state.files[UploadPath(name)] == []
      && BlobChunkPath(0) in t.state.files
  {
    EmptyFile();
    SessionIsClean(st, [], name, 1);
    UploadPathIsNotChunkPath(name, 0, BLOB_NAME);
  }
}
