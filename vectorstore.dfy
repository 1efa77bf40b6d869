/** `QdrantRepository` (src/repositories/qdrant/qdrant.repository.ts): a thin layer over the
    vector database client. The client is modelled by the database's collections and the log
    of requests the repository sends; the vectors' numbers, the cosine ranking and the network
    are left out. */
module VectorStore {
  import opened Wrappers
  import opened Seqs

  /** An embedding; only its length is ever read. */
  type Vector = seq<real>

  /** The payload the ingestion stores with each chunk (src/services/ingestion.service.ts:101-107). */
  datatype Payload = Payload(sourceUrl: string, title: Option<string>, publishedAt: Option<string>,
                             chunkIndex: nat, text: string)

  /** A point to store. The vector is None when the embedder returned too few vectors and the
      caller read past the end of its result. */
  datatype Point = Point(id: nat, vector: Option<Vector>, payload: Payload)

  /** A search hit as the client returns it (its score is left out). */
  datatype ScoredPoint = ScoredPoint(id: nat, payload: Payload)

  datatype Distance = Cosine
  datatype CollectionConfig = CollectionConfig(size: int, distance: Distance)

  /** The requests the repository sends to the client. */
  datatype Call =
    | GetCollection(name: string)
    | CreateCollection(name: string, config: CollectionConfig)
    | Upsert(name: string, wait: bool, points: seq<Point>)
    | Search(name: string, vector: Vector, limit: int, withPayload: bool)

  /** Points go to the database in batches of this many (line 32). */
  const Batch := 64
  /** The number of hits `search` asks for by default (line 45). */
  const DefaultLimit := 5

  /** What `ensureCollection` does against collections `cols`: the requests it sends, the
      collections afterwards and whether it returns normally. `getFails` says whether the
      existence check errs for another reason than absence (the network, say); either error
      counts as absence (lines 18-21). Creating a collection that exists fails, and the
      failure propagates. */
  datatype EnsureOutcome = EnsureOutcome(cols: map<string, CollectionConfig>, calls: seq<Call>, ok: bool)

  function Ensure(cols: map<string, CollectionConfig>, name: string, vectorSize: int, getFails: bool): EnsureOutcome {
    var present := !getFails && name in cols;
    if present then EnsureOutcome(cols, [GetCollection(name)], true)
    else
      var create := CreateCollection(name, CollectionConfig(vectorSize, Cosine));
      if name in cols then EnsureOutcome(cols, [GetCollection(name), create], false)
      else EnsureOutcome(cols[name := CollectionConfig(vectorSize, Cosine)], [GetCollection(name), create], true)
  }

  /** `ensureCollection` first asks for the collection and creates it exactly when that check
      fails; afterwards, unless the creation failed, the collection exists, with the requested
      size when it is new; no other collection changes, and a collection that is found is left
      as it is. */
  lemma EnsureFacts(cols: map<string, CollectionConfig>, name: string, vectorSize: int, getFails: bool)
    ensures var out := Ensure(cols, name, vectorSize, getFails);
      && (out.ok ==> name in out.cols)
      && (name !in cols && out.ok ==> out.cols[name] == CollectionConfig(vectorSize, Cosine))
      && (forall other :: other != name ==> (other in out.cols <==> other in cols))
      && (forall other :: other != name && other in cols ==> out.cols[other] == cols[other])
      && (name in cols ==> out.cols == cols)
      && (!getFails && name in cols ==> out.ok && out.calls == [GetCollection(name)])
      && |out.calls| >= 1 && out.calls[0] == GetCollection(name)
      && ((exists c :: c in out.calls && c.CreateCollection?) <==> getFails || name !in cols)
  {
    var out := Ensure(cols, name, vectorSize, getFails);
    if getFails || name !in cols {
      assert out.calls[1].CreateCollection?;
    }
  }

  /** The number of requests that create a collection. */
  function Creates(calls: seq<Call>): nat {
    if calls == [] then 0 else (if calls[0].CreateCollection? then 1 else 0) + Creates(calls[1..])
  }

  /** Ensuring twice, with the checks answering, against a database without the collection
      creates it exactly once; against one with it, never. */
  lemma EnsureTwiceCreatesOnce(cols: map<string, CollectionConfig>, name: string, size1: int, size2: int)
    ensures var first := Ensure(cols, name, size1, false);
      var second := Ensure(first.cols, name, size2, false);
      && first.ok && second.ok
      && second.cols == first.cols
      && Creates(first.calls + second.calls) == (if name in cols then 0 else 1)
  {
    var first := Ensure(cols, name, size1, false);
    var second := Ensure(first.cols, name, size2, false);
    assert second.calls == [GetCollection(name)];
    var all := first.calls + second.calls;
    if name in cols {
      assert all == [GetCollection(name), GetCollection(name)];
      assert all[1..][1..] == [];
      assert Creates(all[1..][1..]) == 0;
      assert Creates(all[1..]) == 0;
    } else {
      assert all == [GetCollection(name), CreateCollection(name, CollectionConfig(size1, Cosine)), GetCollection(name)];
      assert all[1..][1..][1..] == [];
      assert Creates(all[1..][1..]) == 0;
      assert Creates(all[1..]) == 1;
    }
  }

  /** The upsert requests for batches `bs`, one per batch, each waiting for the write. */
  function UpsertCalls(name: string, bs: seq<seq<Point>>): (r: seq<Call>)
    ensures |r| == |bs|
    ensures forall k :: 0 <= k < |r| ==> r[k] == Upsert(name, true, bs[k])
  {
    if bs == [] then [] else [Upsert(name, true, bs[0])] + UpsertCalls(name, bs[1..])
  }

  /** The points of a sequence of upsert requests, one request after another. */
  function SentPoints(calls: seq<Call>): seq<Point> {
    if calls == [] then []
    else (if calls[0].Upsert? then calls[0].points else []) + SentPoints(calls[1..])
  }

  /** `upsertPoints` sends ceil(n/64) requests of at most 64 points each, every one but the last
      full, which together send the points in order; no points, no request. */
  lemma {:induction false} UpsertBatching(name: string, points: seq<Point>)
    ensures var calls := UpsertCalls(name, Batches(points, Batch));
      && |calls| == (|points| + Batch - 1) / Batch
      && (forall k :: 0 <= k < |calls| ==> 0 < |calls[k].points| <= Batch && calls[k].wait)
      && (forall k :: 0 <= k < |calls| - 1 ==> |calls[k].points| == Batch)
      && SentPoints(calls) == points
      && (points == [] <==> calls == [])
    decreases |points|
  {
    var bs := Batches(points, Batch);
    var calls := UpsertCalls(name, bs);
    if points != [] {
      BatchesUnfold(points, Batch);
      var m := Min(Batch, |points|);
      UpsertBatching(name, points[m..]);
      assert bs[1..] == Batches(points[m..], Batch);
      assert calls[1..] == UpsertCalls(name, Batches(points[m..], Batch));
      assert points == points[..m] + points[m..];
    }
  }

  /** 130 points go in three requests of 64, 64 and 2. */
  lemma UpsertOf130(name: string, points: seq<Point>)
    requires |points| == 130
    ensures var calls := UpsertCalls(name, Batches(points, Batch));
      |calls| == 3 && |calls[0].points| == 64 && |calls[1].points| == 64 && |calls[2].points| == 2
  {
    BatchesUnfold(points, Batch);
    BatchesUnfold(points[64..], Batch);
    BatchesUnfold(points[128..], Batch);
    assert points[64..][64..] == points[128..];
    assert points[128..][2..] == [];
  }

  /** The requests for the points from `i` on: the batch at `i`, then those after it. */
  lemma UpsertCallsFrom(name: string, points: seq<Point>, i: nat)
    requires i < |points|
    ensures UpsertCalls(name, Batches(points[i..], Batch)) ==
      [Upsert(name, true, points[i..Min(i + Batch, |points|)])] +
      (if i + Batch >= |points| then [] else UpsertCalls(name, Batches(points[i + Batch..], Batch)))
  {
    BatchesUnfold(points[i..], Batch);
    var m := Min(Batch, |points| - i);
    var rest := Batches(points[i..][m..], Batch);
    assert points[i..Min(i + Batch, |points|)] == points[i..][..m];
    assert UpsertCalls(name, [points[i..][..m]] + rest)[1..] == UpsertCalls(name, rest);
    if i + Batch < |points| {
      assert points[i..][m..] == points[i + Batch..];
    }
  }

  class QdrantRepository {
    /** The collection's name, from the environment (line 5). */
    const collection: string
    /** The database's collections and their configurations. */
    var collections: map<string, CollectionConfig>
    /** Every request sent to the client, in order. */
    var log: seq<Call>

    constructor(collection: string, collections: map<string, CollectionConfig>)
      ensures this.collection == collection && this.collections == collections && log == []
    {
      this.collection := collection;
      this.collections := collections;
      log := [];
    }

    /** Lines 17-27; `ok` is false when the creation fails and the error propagates. */
    method EnsureCollection(vectorSize: int, getFails: bool) returns (ok: bool)
      modifies this
      ensures var out := Ensure(old(collections), collection, vectorSize, getFails);
        collections == out.cols && log == old(log) + out.calls && ok == out.ok
    {
      log := log + [GetCollection(collection)];
      var present := !getFails && collection in collections;
      if !present {
        var config := CollectionConfig(vectorSize, Cosine);
        log := log + [CreateCollection(collection, config)];
        if collection in collections {
          return false;
        }
        collections := collections[collection := config];
      }
      return true;
    }

    /** Lines 29-44: one upsert request per batch of 64 points, waiting for each write. */
    method UpsertPoints(points: seq<Point>)
      modifies this
      ensures collections == old(collections)
      ensures log == old(log) + UpsertCalls(collection, Batches(points, Batch))
    {
      var i := 0;
      while i < |points|
        invariant 0 <= i <= |points|
        invariant collections == old(collections)
        invariant log + UpsertCalls(collection, Batches(points[i..], Batch)) ==
                  old(log) + UpsertCalls(collection, Batches(points, Batch))
        decreases |points| - i
      {
        var batch := points[i..Min(i + Batch, |points|)];
        UpsertCallsFrom(collection, points, i);
        ghost var later := if i + Batch >= |points| then [] else UpsertCalls(collection, Batches(points[i + Batch..], Batch));
        AppendAssoc(log, [Upsert(collection, true, batch)], later);
        log := log + [Upsert(collection, true, batch)];
        if i + Batch >= |points| {
          return;
        }
        i := i + Batch;
      }
    }

    /** Lines 45-52: the client's hits `hits` for the query, returned as they are. */
    method Search(vector: Vector, limit: int, hits: seq<ScoredPoint>) returns (result: seq<ScoredPoint>)
      modifies this
      ensures result == hits
      ensures collections == old(collections)
      ensures log == old(log) + [Call.Search(collection, vector, limit, true)]
    {
      log := log + [Call.Search(collection, vector, limit, true)];
      result := hits;
    }
  }
}
