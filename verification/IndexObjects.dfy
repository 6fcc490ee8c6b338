/** The index object (index.go:70-78, 230-320, 365-390): shards that are written batch by batch. */
module IndexObjects {
  import opened DocIds
  import opened Windows
  import opened Store
  import opened EventStore
  import opened Wrappers

  /** Writes a batch to one shard. */
  method WriteShard(shard: Shard, docs: seq<Document>) returns (r: Shard)
    ensures r == Write(shard, docs)
  {
    r := shard;
    for i := 0 to |docs|
      invariant r == Write(shard, docs[..i])
    {
      assert docs[..i + 1][..i] == docs[..i];
      r := r[docs[i].id := docs[i].source];
    }
    assert docs[..|docs|] == docs;
  }

  class IndexObject {
    const window: Window
    var shards: seq<Shard>

    ghost function View(): Index
      reads this
    {
      Index(window, shards)
    }

    constructor (w: Window, numShards: nat)
      ensures window == w && shards == Empty(numShards)
    {
      window, shards := w, Empty(numShards);
    }

    /** Splits a batch by shard. */
    method Demultiplex(docs: seq<Document>) returns (batches: map<nat, seq<Document>>)
      requires |shards| > 0
      ensures forall k: nat :: k in batches <==> ForShard(docs, |shards|, k) != []
      ensures forall k | k in batches :: k < |shards| && batches[k] == ForShard(docs, |shards|, k)
    {
      batches := map[];
      for i := 0 to |docs|
        invariant forall k: nat :: k in batches <==> ForShard(docs[..i], |shards|, k) != []
        invariant forall k | k in batches :: k < |shards| && batches[k] == ForShard(docs[..i], |shards|, k)
      {
        assert docs[..i + 1][..i] == docs[..i];
        var k := Route(docs[i].id, |shards|);
        batches := batches[k := (if k in batches then batches[k] else []) + [docs[i]]];
      }
      assert docs[..|docs|] == docs;
    }

    /** Indexes a batch of documents. The shards are written in any order: they run in parallel. */
    method IndexDocuments(docs: seq<Document>)
      requires |shards| > 0
      modifies this
      ensures shards == WriteSharded(old(shards), docs)
    {
      var n := |shards|;
      var batches := Demultiplex(docs);
      var todo := batches.Keys;
      while todo != {}
        invariant todo <= batches.Keys && |shards| == n
        invariant forall k: nat | k < n ::
            shards[k] == if k in todo then old(shards)[k] else Write(old(shards)[k], ForShard(docs, n, k))
        decreases |todo|
      {
        var k :| k in todo;
        var shard := WriteShard(shards[k], batches[k]);
        shards := shards[k := shard];
        todo := todo - {k};
      }
    }

    /** The source of a document. */
    method Document(id: DocId) returns (r: Option<Source>)
      requires |shards| > 0
      ensures r == Lookup(shards, id)
    {
      var shard := shards[Route(id, |shards|)];
      if id in shard {
        return Some(shard[id]);
      }
      return None;
    }

    /** The number of documents. */
    method Total() returns (total: nat)
      ensures total == TotalOf(shards)
      ensures WellRouted(shards) ==> total == |AllIds(shards)|
    {
      total := 0;
      for i := 0 to |shards|
        invariant total == TotalOf(shards[..i])
      {
        assert shards[..i + 1][..i] == shards[..i];
        total := total + |shards[i]|;
      }
      assert shards[..|shards|] == shards;
      if WellRouted(shards) { TotalCountsIds(shards); }
    }
  }
}
