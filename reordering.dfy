/**
 * Chunks may reach the server in any order. The handler files each chunk
 * under its own index, counts arrivals, and reassembles by index once the
 * count reaches `totalChunks`. This module proves that, for an upload whose
 * chunks all arrive exactly once with nothing failing, the replies and the
 * final ledger and disk are the same whatever the arrival order, and that the
 * finished file is the chunks joined in ascending index order.
 */
module Reordering {
  import opened Base
  import opened Decimal
  import opened FileStore
  import opened Reassembly
  import opened Coordinator

  /** The replies to a run of requests and the server state after them. */
  datatype Delivery = Delivery(responses: seq<Response>, state: State)

  /** The request carrying chunk `index` of the upload `name`, whose chunks are `payloads`. */
  function ChunkArrival(name: string, payloads: seq<seq<byte>>, index: nat): ChunkRequest
    requires index < |payloads|
  {
    ChunkRequest(Itoa(index), Itoa(|payloads|), name, Some(Part(BLOB_NAME, payloads[index])))
  }

  /** `order` lists every chunk number below `n` exactly once. */
  predicate IsOrdering(order: seq<nat>, n: nat)
  {
    && |order| == n
    && (forall t :: 0 <= t < n ==> order[t] < n)
    && (forall s, t :: 0 <= s < t < n ==> order[s] != order[t])
    && (forall k :: 0 <= k < n ==> k in order)
  }

  /** The handler's replies and final state when the chunks arrive in the order `order` and nothing fails. */
  function Arrivals(st: State, name: string, payloads: seq<seq<byte>>, order: seq<nat>): (d: Delivery)
    requires forall t :: 0 <= t < |order| ==> order[t] < |payloads|
    ensures |d.responses| == |order|
  {
    if order == [] then Delivery([], st)
    else
      var prev := Arrivals(st, name, payloads, order[..|order| - 1]);
      var h := Handle(prev.state, ChunkArrival(name, payloads, order[|order| - 1]), NO_FAULTS);
      Delivery(prev.responses + [h.response], h.state)
  }

  /** The chunks concatenated in ascending index order. */
  function Joined(payloads: seq<seq<byte>>): seq<byte>
  {
    if payloads == [] then [] else payloads[0] + Joined(payloads[1..])
  }

  /** No upload of `name` is under way: its count is 0 and its first `n` chunk files are empty or absent. */
  predicate FreshUpload(st: State, name: string, n: nat)
  {
    Count(st.ledger, name) == 0 && forall k :: 0 <= k < n ==> ChunkBytes(st.files, k) == []
  }

  /** Chunk file `k` holds chunk `k` if it has arrived and nothing otherwise. */
  predicate HoldsArrived(fs: FileMap, payloads: seq<seq<byte>>, arrived: seq<nat>)
  {
    forall k :: 0 <= k < |payloads| ==> ChunkBytes(fs, k) == if k in arrived then payloads[k] else []
  }

  /** Every path but the first `n` chunk files is as in `fs`. */
  ghost predicate OnlyChunksChanged(fs: FileMap, fs': FileMap, n: nat)
  {
    forall q :: (forall k :: 0 <= k < n ==> q != BlobChunkPath(k)) ==> Same(fs, fs', q)
  }

  /**
   * From `st` to `s`, the chunks `arrived` (all distinct) have been received:
   * the ledger counts them and has changed nowhere else, each sits in its own
   * chunk file, and no path outside the upload's chunk files has changed.
   */
  ghost predicate Progress(st: State, s: State, name: string, payloads: seq<seq<byte>>, arrived: seq<nat>)
  {
    && Count(s.ledger, name) == |arrived|
    && s.ledger - {name} == st.ledger - {name}
    && HoldsArrived(s.files, payloads, arrived)
    && OnlyChunksChanged(st.files, s.files, |payloads|)
  }

  /** What the server does with an arriving chunk when `m` chunks of the upload have been counted. */
  lemma HandleArrival(s: State, name: string, payloads: seq<seq<byte>>, index: nat, m: nat)
    requires |payloads| <= MAX_INT64 && index < |payloads| && m < |payloads|
    requires Count(s.ledger, name) == m
    ensures var n := |payloads|;
      var stored := Append(s.files, BlobChunkPath(index), payloads[index]);
      var h := Handle(s, ChunkArrival(name, payloads, index), NO_FAULTS);
      && h.state.ledger - {name} == s.ledger - {name}
      && (m + 1 < n ==> h == Handled(Ok(name), State(s.ledger[name := m + 1], stored)))
      && (m + 1 == n ==> h == Handled(Ok(name), State(s.ledger - {name}, Reassembled(stored, name, n, HEALTHY_DISK).files)))
  {
    var n := |payloads|;
    AtoiItoa(index);
    AtoiItoa(n);
    var stored := Append(s.files, BlobChunkPath(index), payloads[index]);
    ReassembledError(stored, name, n, HEALTHY_DISK);
    PersistedChunkCounted(s, ChunkArrival(name, payloads, index), NO_FAULTS);
  }

  /** Storing a chunk that has not arrived before files it under its index and touches no other path. */
  lemma StoreArrived(fs0: FileMap, fs: FileMap, payloads: seq<seq<byte>>, arrived: seq<nat>, index: nat)
    requires index < |payloads| && index !in arrived
    requires HoldsArrived(fs, payloads, arrived) && OnlyChunksChanged(fs0, fs, |payloads|)
    ensures var stored := Append(fs, BlobChunkPath(index), payloads[index]);
      HoldsArrived(stored, payloads, arrived + [index]) && OnlyChunksChanged(fs0, stored, |payloads|)
  {
    var p := BlobChunkPath(index);
    var stored := Append(fs, p, payloads[index]);
    forall k | 0 <= k < |payloads|
      ensures ChunkBytes(stored, k) == if k in arrived + [index] then payloads[k] else []
    {
      if k == index {
        assert ChunkBytes(stored, k) == ChunkBytes(fs, k) + payloads[index];
      } else {
        ChunkPathInjective(k, BLOB_NAME, index, BLOB_NAME);
        AppendElsewhere(fs, p, payloads[index], BlobChunkPath(k));
      }
    }
    forall q | forall k :: 0 <= k < |payloads| ==> q != BlobChunkPath(k)
      ensures Same(fs0, stored, q)
    {
      assert Same(fs0, fs, q) && q != p;
      AppendElsewhere(fs, p, payloads[index], q);
    }
  }

  /** In an ordering, the chunk at position `m` is not among those before it. */
  lemma NotYetArrived(order: seq<nat>, n: nat, m: nat)
    requires IsOrdering(order, n) && m < n
    ensures order[m] !in order[..m]
  {
    assert forall t :: 0 <= t < m ==> order[..m][t] == order[t];
  }

  /**
   * The arrival at position `m` of an ordering, when `m` chunks have been
   * counted: a 200 reply, and either the count goes up by one or, for the
   * last chunk, the file is reassembled and the entry deleted.
   */
  lemma NextArrival(st: State, name: string, payloads: seq<seq<byte>>, order: seq<nat>, m: nat)
    requires |payloads| <= MAX_INT64 && IsOrdering(order, |payloads|) && m < |payloads|
    requires Count(Arrivals(st, name, payloads, order[..m]).state.ledger, name) == m
    ensures var n := |payloads|;
      var prev := Arrivals(st, name, payloads, order[..m]);
      var d := Arrivals(st, name, payloads, order[..m + 1]);
      var stored := Append(prev.state.files, BlobChunkPath(order[m]), payloads[order[m]]);
      && d.responses == prev.responses + [Ok(name)]
      && d.state.ledger - {name} == prev.state.ledger - {name}
      && (m + 1 < n ==> d.state == State(prev.state.ledger[name := m + 1], stored))
      && (m + 1 == n ==> d.state == State(prev.state.ledger - {name}, Reassembled(stored, name, n, HEALTHY_DISK).files))
  {
    ArrivalsSnoc(st, name, payloads, order, m);
    var prev := Arrivals(st, name, payloads, order[..m]);
    HandleArrival(prev.state, name, payloads, order[m], m);
  }

  /** One more arrival is one more request handled after the earlier ones. */
  lemma ArrivalsSnoc(st: State, name: string, payloads: seq<seq<byte>>, order: seq<nat>, m: nat)
    requires (forall t :: 0 <= t < |order| ==> order[t] < |payloads|) && m < |order|
    ensures var prev := Arrivals(st, name, payloads, order[..m]);
      var h := Handle(prev.state, ChunkArrival(name, payloads, order[m]), NO_FAULTS);
      Arrivals(st, name, payloads, order[..m + 1]) == Delivery(prev.responses + [h.response], h.state)
  {
    assert order[..m + 1][..m] == order[..m];
  }

  /**
   * Before the last arrival, every reply is 200, the ledger counts the chunks
   * that have arrived, each arrived chunk sits in its own chunk file and no
   * path outside the upload's chunk files has changed.
   */
  lemma {:induction false} ArrivalsPrefix(st: State, name: string, payloads: seq<seq<byte>>, order: seq<nat>, m: nat)
    requires |payloads| <= MAX_INT64 && IsOrdering(order, |payloads|) && FreshUpload(st, name, |payloads|)
    requires m < |payloads|
    ensures var d := Arrivals(st, name, payloads, order[..m]);
      && (forall t :: 0 <= t < m ==> d.responses[t] == Ok(name))
      && Progress(st, d.state, name, payloads, order[..m])
  {
    if m > 0 {
      ArrivalsPrefix(st, name, payloads, order, m - 1);
      var prev := Arrivals(st, name, payloads, order[..m - 1]);
      NextArrival(st, name, payloads, order, m - 1);
      NotYetArrived(order, |payloads|, m - 1);
      StoreArrived(st.files, prev.state.files, payloads, order[..m - 1], order[m - 1]);
      PrefixSnoc(order, m);
      OkSnoc(prev.responses, name);
    } else {
      assert order[..0] == [];
    }
  }

  /** Chunk files holding the chunks are reassembled into the chunks joined in order. */
  lemma {:induction false} ChunkRangeJoined(fs: FileMap, payloads: seq<seq<byte>>, lo: nat)
    requires lo <= |payloads|
    requires forall k :: lo <= k < |payloads| ==> ChunkBytes(fs, k) == payloads[k]
    ensures ChunkRange(fs, lo, |payloads|) == Joined(payloads[lo..])
    decreases |payloads| - lo
  {
    if lo < |payloads| {
      ChunkRangeJoined(fs, payloads, lo + 1);
      assert payloads[lo..][1..] == payloads[lo + 1..];
    }
  }

  /**
   * The upload `name` of the chunks `payloads` is finished: `uploads/<name>`
   * holds the chunks joined in ascending index order, the ledger has lost the
   * entry for `name` and nothing else, no chunk file of the upload remains,
   * and every other path is as in `st`.
   */
  ghost predicate Finished(st: State, st': State, name: string, payloads: seq<seq<byte>>)
  {
    && st'.ledger == st.ledger - {name}
    && UploadPath(name) in st'.files
    && st'.files[UploadPath(name)] == Joined(payloads)
    && (forall k :: 0 <= k < |payloads| ==> BlobChunkPath(k) !in st'.files)
    && (forall q :: q != UploadPath(name) && (forall k :: 0 <= k < |payloads| ==> q != BlobChunkPath(k)) ==>
          Same(st.files, st'.files, q))
  }

  /** Reassembling chunk files that hold every chunk finishes the upload. */
  lemma ReassembleArrived(fs0: FileMap, stored: FileMap, name: string, payloads: seq<seq<byte>>)
    requires forall k :: 0 <= k < |payloads| ==> ChunkBytes(stored, k) == payloads[k]
    requires OnlyChunksChanged(fs0, stored, |payloads|)
    ensures var files := Reassembled(stored, name, |payloads|, HEALTHY_DISK).files;
      && UploadPath(name) in files
      && files[UploadPath(name)] == Joined(payloads)
      && (forall k :: 0 <= k < |payloads| ==> BlobChunkPath(k) !in files)
      && (forall q :: q != UploadPath(name) && (forall k :: 0 <= k < |payloads| ==> q != BlobChunkPath(k)) ==>
            Same(fs0, files, q))
  {
    ReassembledArrivedOutput(stored, name, payloads);
    ReassembledArrivedFrame(fs0, stored, name, |payloads|);
  }

  /** Once the last chunk of an ordering is stored, every chunk file holds its chunk. */
  lemma AllArrived(fs: FileMap, payloads: seq<seq<byte>>, order: seq<nat>)
    requires 1 <= |payloads| && IsOrdering(order, |payloads|)
    requires HoldsArrived(fs, payloads, order[..|payloads| - 1] + [order[|payloads| - 1]])
    ensures forall k :: 0 <= k < |payloads| ==> ChunkBytes(fs, k) == payloads[k]
  {
    PrefixSnoc(order, |payloads|);
    assert order[..|payloads|] == order;
  }

  lemma OkSnoc(responses: seq<Response>, name: string)
    requires forall t :: 0 <= t < |responses| ==> responses[t] == Ok(name)
    ensures var rs := responses + [Ok(name)];
      forall t :: 0 <= t < |rs| ==> rs[t] == Ok(name)
  {
  }

  lemma PrefixSnoc(s: seq<nat>, m: nat)
    requires 1 <= m <= |s|
    ensures s[..m] == s[..m - 1] + [s[m - 1]]
  {
  }

  /** Reassembling chunk files that hold every chunk writes them joined in order and removes them. */
  lemma ReassembledArrivedOutput(stored: FileMap, name: string, payloads: seq<seq<byte>>)
    requires forall k :: 0 <= k < |payloads| ==> ChunkBytes(stored, k) == payloads[k]
    ensures var files := Reassembled(stored, name, |payloads|, HEALTHY_DISK).files;
      && UploadPath(name) in files
      && files[UploadPath(name)] == Joined(payloads)
      && (forall k :: 0 <= k < |payloads| ==> BlobChunkPath(k) !in files)
  {
    var n := |payloads|;
    ReassembledError(stored, name, n, HEALTHY_DISK);
    ReassembledOnSuccess(stored, name, n, HEALTHY_DISK);
    ChunkRangeJoined(stored, payloads, 0);
    assert payloads[0..] == payloads;
  }

  /** Reassembly after the arrivals leaves alone every path the arrivals left alone, except the output. */
  lemma ReassembledArrivedFrame(fs0: FileMap, stored: FileMap, name: string, n: nat)
    requires OnlyChunksChanged(fs0, stored, n)
    ensures var files := Reassembled(stored, name, n, HEALTHY_DISK).files;
      forall q :: q != UploadPath(name) && (forall k :: 0 <= k < n ==> q != BlobChunkPath(k)) ==> Same(fs0, files, q)
  {
    var files := Reassembled(stored, name, n, HEALTHY_DISK).files;
    forall q | q != UploadPath(name) && (forall k :: 0 <= k < n ==> q != BlobChunkPath(k))
      ensures Same(fs0, files, q)
    {
      assert Same(fs0, stored, q);
      ReassembledElsewhere(stored, name, n, HEALTHY_DISK, q);
    }
  }

  /**
   * Arrival order does not matter: whichever order the chunks of a fresh
   * upload arrive in, each exactly once and nothing failing, every request is
   * answered 200 and the upload is finished, its file holding the chunks in
   * ascending index order.
   */
  lemma ArrivalOrderIrrelevant(st: State, name: string, payloads: seq<seq<byte>>, order: seq<nat>)
    requires 1 <= |payloads| <= MAX_INT64 && IsOrdering(order, |payloads|) && FreshUpload(st, name, |payloads|)
    ensures var d := Arrivals(st, name, payloads, order);
      && (forall t :: 0 <= t < |order| ==> d.responses[t] == Ok(name))
      && Finished(st, d.state, name, payloads)
  {
    ArrivalsComplete(st, name, payloads, order);
    assert order[..|payloads|] == order;
  }

  /** `ArrivalOrderIrrelevant` for the ordering taken as its own prefix of full length. */
  lemma ArrivalsComplete(st: State, name: string, payloads: seq<seq<byte>>, order: seq<nat>)
    requires 1 <= |payloads| <= MAX_INT64 && IsOrdering(order, |payloads|) && FreshUpload(st, name, |payloads|)
    ensures var d := Arrivals(st, name, payloads, order[..|payloads|]);
      && (forall t :: 0 <= t < |payloads| ==> d.responses[t] == Ok(name))
      && Finished(st, d.state, name, payloads)
  {
    ArrivalsPrefix(st, name, payloads, order, |payloads| - 1);
    FinalArrival(st, name, payloads, order);
  }

  /** The last arrival of an ordering is answered 200 and finishes the upload. */
  lemma FinalArrival(st: State, name: string, payloads: seq<seq<byte>>, order: seq<nat>)
    requires 1 <= |payloads| <= MAX_INT64 && IsOrdering(order, |payloads|)
    requires var prev := Arrivals(st, name, payloads, order[..|payloads| - 1]);
      && (forall t :: 0 <= t < |payloads| - 1 ==> prev.responses[t] == Ok(name))
      && Progress(st, prev.state, name, payloads, order[..|payloads| - 1])
    ensures var d := Arrivals(st, name, payloads, order[..|payloads|]);
      && (forall t :: 0 <= t < |payloads| ==> d.responses[t] == Ok(name))
      && Finished(st, d.state, name, payloads)
  {
    var n := |payloads|;
    var prev := Arrivals(st, name, payloads, order[..n - 1]);
    NextArrival(st, name, payloads, order, n - 1);
    OkSnoc(prev.responses, name);
    LastArrival(st, prev.state, name, payloads, order);
  }

  /** Storing the last chunk of an ordering and reassembling finishes the upload. */
  lemma LastArrival(st: State, prev: State, name: string, payloads: seq<seq<byte>>, order: seq<nat>)
    requires 1 <= |payloads| && IsOrdering(order, |payloads|)
    requires HoldsArrived(prev.files, payloads, order[..|payloads| - 1])
    requires OnlyChunksChanged(st.files, prev.files, |payloads|)
    requires prev.ledger - {name} == st.ledger - {name}
    ensures var n := |payloads|;
      var stored := Append(prev.files, BlobChunkPath(order[n - 1]), payloads[order[n - 1]]);
      Finished(st, State(prev.ledger - {name}, Reassembled(stored, name, n, HEALTHY_DISK).files), name, payloads)
  {
    var n := |payloads|;
    NotYetArrived(order, n, n - 1);
    var stored := Append(prev.files, BlobChunkPath(order[n - 1]), payloads[order[n - 1]]);
    StoreArrived(st.files, prev.files, payloads, order[..n - 1], order[n - 1]);
    AllArrived(stored, payloads, order);
    ReassembleArrived(st.files, stored, name, payloads);
  }

  /** Two arrival orders of the same fresh upload give the same replies and the same final ledger and disk. */
  lemma ArrivalOrdersAgree(st: State, name: string, payloads: seq<seq<byte>>, order: seq<nat>, order': seq<nat>)
    requires 1 <= |payloads| <= MAX_INT64 && FreshUpload(st, name, |payloads|)
    requires IsOrdering(order, |payloads|) && IsOrdering(order', |payloads|)
    ensures Arrivals(st, name, payloads, order) == Arrivals(st, name, payloads, order')
  {
    ArrivalOrderIrrelevant(st, name, payloads, order);
    ArrivalOrderIrrelevant(st, name, payloads, order');
    var a := Arrivals(st, name, payloads, order);
    var b := Arrivals(st, name, payloads, order');
    FinishedUnique(st, a.state, b.state, name, payloads);
    assert a.responses == b.responses;
  }

  /** A finished upload determines the whole final state. */
  lemma FinishedUnique(st: State, a: State, b: State, name: string, payloads: seq<seq<byte>>)
    requires Finished(st, a, name, payloads) && Finished(st, b, name, payloads)
    ensures a == b
  {
    forall q | q in a.files
      ensures q in b.files && a.files[q] == b.files[q]
    {
      if q != UploadPath(name) {
        assert forall k :: 0 <= k < |payloads| ==> q != BlobChunkPath(k);
        assert Same(st.files, a.files, q) && Same(st.files, b.files, q);
      }
    }
    forall q | q in b.files
      ensures q in a.files
    {
      if q != UploadPath(name) {
        assert forall k :: 0 <= k < |payloads| ==> q != BlobChunkPath(k);
        assert Same(st.files, a.files, q) && Same(st.files, b.files, q);
      }
    }
    assert a.files == b.files;
  }
}
