/** One index (index.go:70-78, 230-320, 365-390): documents hashed over shards. Each shard is taken as a map from
    document ID to source in which the last write wins. */
module Store {
  import opened Bytes
  import opened DocIds
  import opened Sequences
  import opened Wrappers

  type Source = Text

  datatype Document = Document(id: DocId, source: Source)

  type Shard = map<DocId, Source>

  /** No index has more shards. */
  const MAX_SHARDS := 9999

  // ----- Routing -----

  const TWO_32 := 0x1_0000_0000
  const FNV_OFFSET := 2166136261
  const FNV_PRIME := 16777619

  /** Exclusive or of the lowest `width` bits. */
  function Xor(a: nat, b: nat, width: nat): nat {
    if width == 0 then 0 else 2 * Xor(a / 2, b / 2, width - 1) + (a + b) % 2
  }

  function Bit(a: nat, k: nat): nat {
    if k == 0 then a % 2 else Bit(a / 2, k - 1)
  }

  function Pow2(k: nat): nat {
    if k == 0 then 1 else 2 * Pow2(k - 1)
  }

  /** Each bit tells whether the bits at its place differ. */
  lemma {:induction false} XorDiffers(a: nat, b: nat, width: nat, k: nat)
    requires k < width
    ensures Bit(Xor(a, b, width), k) == if Bit(a, k) == Bit(b, k) then 0 else 1
    decreases width
  {
    var half := Xor(a / 2, b / 2, width - 1);
    assert Xor(a, b, width) / 2 == half && Xor(a, b, width) % 2 == (a + b) % 2;
    if k > 0 { XorDiffers(a / 2, b / 2, width - 1, k - 1); }
  }

  lemma {:induction false} XorFits(a: nat, b: nat, width: nat)
    ensures Xor(a, b, width) < Pow2(width)
  {
    if width > 0 { XorFits(a / 2, b / 2, width - 1); }
  }

  /** The 32-bit FNV-1a hash. */
  function Fnv1a(s: Text): nat {
    if s == [] then FNV_OFFSET else Xor(Fnv1a(s[..|s| - 1]), s[|s| - 1], 32) * FNV_PRIME % TWO_32
  }

  function Route(id: DocId, shards: nat): (k: nat)
    requires shards > 0
    ensures k < shards
  {
    Fnv1a(id) % shards
  }

  /** The two numbers of at most 32 bits differ in exactly the bits that the byte has. */
  ghost predicate DifferBy(x: nat, h: nat, b: Byte) {
    x < Pow2(32) && forall k: nat | k < 32 :: (Bit(x, k) != Bit(h, k) <==> Bit(b, k) == 1)
  }

  lemma BitIsBinary(a: nat, k: nat)
    ensures Bit(a, k) <= 1
  {
  }

  /** The hash starts from the offset; each byte is put in with exclusive or, and the prime multiplies it. Documents go
      where the remainder of the hash says. */
  lemma RouteIsFnv1a(s: Text, b: Byte, n: nat)
    requires n > 0
    ensures Fnv1a([]) == 2_166_136_261
    ensures exists x: nat :: DifferBy(x, Fnv1a(s), b) && Fnv1a(s + [b]) == x * 16_777_619 % 4_294_967_296
    ensures Route(s, n) == Fnv1a(s) % n
  {
    var x := Xor(Fnv1a(s), b, 32);
    XorFits(Fnv1a(s), b, 32);
    forall k: nat | k < 32 ensures Bit(x, k) != Bit(Fnv1a(s), k) <==> Bit(b, k) == 1 {
      XorDiffers(Fnv1a(s), b, 32, k);
      BitIsBinary(Fnv1a(s), k);
      BitIsBinary(b, k);
    }
    assert (s + [b])[..|s|] == s && DifferBy(x, Fnv1a(s), b);
  }

  // ----- Writing -----

  /** Documents written one after the other. */
  function Write(m: Shard, docs: seq<Document>): Shard {
    if docs == [] then m
    else Write(m, docs[..|docs| - 1])[docs[|docs| - 1].id := docs[|docs| - 1].source]
  }

  /** The documents of a batch that belong on shard k of n, in order. */
  function ForShard(docs: seq<Document>, n: nat, k: nat): seq<Document>
    requires n > 0
  {
    if docs == [] then []
    else
      var front := ForShard(docs[..|docs| - 1], n, k);
      if Route(docs[|docs| - 1].id, n) == k then front + [docs[|docs| - 1]] else front
  }

  function WriteSharded(shards: seq<Shard>, docs: seq<Document>): (r: seq<Shard>)
    ensures |r| == |shards|
  {
    seq(|shards|, k requires 0 <= k < |shards| => Write(shards[k], ForShard(docs, |shards|, k)))
  }

  // ----- Reading -----

  function Get(m: Shard, id: DocId): Option<Source> {
    if id in m then Some(m[id]) else None
  }

  /** Looking a document up on the shard it belongs to. */
  function Lookup(shards: seq<Shard>, id: DocId): Option<Source>
    requires |shards| > 0
  {
    Get(shards[Route(id, |shards|)], id)
  }

  /** The source held under an ID is that of the last document written with it. */
  lemma {:induction false} LastWriteWins(m: Shard, docs: seq<Document>, k: nat)
    requires k < |docs| && forall j | k < j < |docs| :: docs[j].id != docs[k].id
    ensures Get(Write(m, docs), docs[k].id) == Some(docs[k].source)
    decreases |docs|
  {
    if k < |docs| - 1 { LastWriteWins(m, docs[..|docs| - 1], k); }
  }

  /** An ID that is not written keeps what it had. */
  lemma {:induction false} OthersStay(m: Shard, docs: seq<Document>, id: DocId)
    requires forall j | 0 <= j < |docs| :: docs[j].id != id
    ensures Get(Write(m, docs), id) == Get(m, id)
    decreases |docs|
  {
    if docs != [] { OthersStay(m, docs[..|docs| - 1], id); }
  }

  /** Every document is on the shard it belongs to. */
  ghost predicate WellRouted(shards: seq<Shard>) {
    |shards| > 0 && forall k, id | 0 <= k < |shards| && id in shards[k] :: Route(id, |shards|) == k
  }

  ghost function AllIds(shards: seq<Shard>): (ids: set<DocId>) {
    if shards == [] then {} else AllIds(shards[..|shards| - 1]) + shards[|shards| - 1].Keys
  }

  function TotalOf(shards: seq<Shard>): nat {
    if shards == [] then 0 else TotalOf(shards[..|shards| - 1]) + |shards[|shards| - 1]|
  }

  // ----- The sharded store agrees with one flat map -----

  /** The shards after one document is written to shard k. */
  function Put(shards: seq<Shard>, k: nat, d: Document): (r: seq<Shard>)
    requires k < |shards|
    ensures |r| == |shards|
  {
    shards[k := shards[k][d.id := d.source]]
  }

  lemma WriteShardedSnoc(shards: seq<Shard>, docs: seq<Document>)
    requires |shards| > 0 && docs != []
    ensures var d := docs[|docs| - 1];
            var before, k := WriteSharded(shards, docs[..|docs| - 1]), Route(d.id, |shards|);
            WriteSharded(shards, docs) == Put(before, k, d)
  {
    var n := |shards|;
    var front, d := docs[..|docs| - 1], docs[|docs| - 1];
    var before, k := WriteSharded(shards, front), Route(d.id, n);
    forall j | 0 <= j < n
      ensures WriteSharded(shards, docs)[j] == Put(before, k, d)[j]
    {
      if j == k {
        var mine := ForShard(docs, n, k);
        assert mine[..|mine| - 1] == ForShard(front, n, k);
      }
    }
  }

  lemma PutKeepsRouted(shards: seq<Shard>, k: nat, d: Document)
    requires WellRouted(shards) && k == Route(d.id, |shards|)
    ensures WellRouted(Put(shards, k, d))
  {
    var after := Put(shards, k, d);
    forall j, id | 0 <= j < |after| && id in after[j] ensures Route(id, |after|) == j {
      assert id == d.id || id in shards[j];
    }
  }

  lemma {:induction false} WriteKeepsRouted(shards: seq<Shard>, docs: seq<Document>)
    requires WellRouted(shards)
    ensures WellRouted(WriteSharded(shards, docs))
    decreases |docs|
  {
    if docs == [] {
      assert WriteSharded(shards, docs) == shards;
    } else {
      var n := |docs| - 1;
      WriteKeepsRouted(shards, docs[..n]);
      WriteShardedSnoc(shards, docs);
      PutKeepsRouted(WriteSharded(shards, docs[..n]), Route(docs[n].id, |shards|), docs[n]);
    }
  }

  /** If a lookup agrees with a flat map, it does so after a batch is written to both. */
  lemma {:induction false} ShardedIsFlat(shards: seq<Shard>, m: Shard, docs: seq<Document>, id: DocId)
    requires |shards| > 0 && Lookup(shards, id) == Get(m, id)
    ensures Lookup(WriteSharded(shards, docs), id) == Get(Write(m, docs), id)
    decreases |docs|
  {
    if docs == [] {
      assert WriteSharded(shards, docs) == shards;
    } else {
      ShardedIsFlat(shards, m, docs[..|docs| - 1], id);
      WriteShardedSnoc(shards, docs);
    }
  }

  function Empty(n: nat): (shards: seq<Shard>)
    ensures |shards| == n && forall k | 0 <= k < n :: shards[k] == map[]
  {
    seq(n, _ => map[])
  }

  function WriteBatches(shards: seq<Shard>, batches: seq<seq<Document>>): (r: seq<Shard>)
    ensures |r| == |shards|
  {
    if batches == [] then shards
    else WriteSharded(WriteBatches(shards, batches[..|batches| - 1]), batches[|batches| - 1])
  }

  lemma {:induction false} WriteAppend(m: Shard, a: seq<Document>, b: seq<Document>)
    ensures Write(m, a + b) == Write(Write(m, a), b)
    decreases |b|
  {
    if b == [] {
      assert a + b == a;
    } else {
      var n := |b| - 1;
      assert (a + b)[..|a| + n] == a + b[..n];
      WriteAppend(m, a, b[..n]);
    }
  }

  lemma {:induction false} BatchesLookUpFlat(n: nat, batches: seq<seq<Document>>, id: DocId)
    requires n > 0
    ensures Lookup(WriteBatches(Empty(n), batches), id) == Get(Write(map[], Flatten(batches)), id)
    decreases |batches|
  {
    if batches != [] {
      var k := |batches| - 1;
      BatchesLookUpFlat(n, batches[..k], id);
      var m := Write(map[], Flatten(batches[..k]));
      ShardedIsFlat(WriteBatches(Empty(n), batches[..k]), m, batches[k], id);
      WriteAppend(map[], Flatten(batches[..k]), batches[k]);
    }
  }

  lemma {:induction false} BatchesKeepRouted(n: nat, batches: seq<seq<Document>>)
    requires n > 0
    ensures WellRouted(WriteBatches(Empty(n), batches))
    decreases |batches|
  {
    if batches != [] {
      var k := |batches| - 1;
      BatchesKeepRouted(n, batches[..k]);
      WriteKeepsRouted(WriteBatches(Empty(n), batches[..k]), batches[k]);
    }
  }

  // ----- Counting -----

  lemma {:induction false} InAllIds(shards: seq<Shard>, id: DocId)
    ensures id in AllIds(shards) <==> exists k | 0 <= k < |shards| :: id in shards[k]
    decreases |shards|
  {
    if shards != [] {
      var n := |shards| - 1;
      InAllIds(shards[..n], id);
      assert (exists k | 0 <= k < n :: id in shards[..n][k]) <==> (exists k | 0 <= k < n :: id in shards[k]) by {
        assert forall k | 0 <= k < n :: shards[..n][k] == shards[k];
      }
    }
  }

  /** An ID is stored exactly if it is found. */
  lemma StoredIffFound(shards: seq<Shard>, id: DocId)
    requires WellRouted(shards)
    ensures id in AllIds(shards) <==> Lookup(shards, id).Some?
  {
    InAllIds(shards, id);
    if id in AllIds(shards) {
      var k :| 0 <= k < |shards| && id in shards[k];
      assert Route(id, |shards|) == k;
    }
  }

  lemma ShardsDisjoint(shards: seq<Shard>, j: nat)
    requires WellRouted(shards) && j < |shards|
    ensures AllIds(shards[..j]) !! shards[j].Keys
  {
    forall id | id in shards[j] ensures id !in AllIds(shards[..j]) {
      InAllIds(shards[..j], id);
      assert Route(id, |shards|) == j;
      assert forall k | 0 <= k < j :: shards[..j][k] == shards[k];
    }
  }

  lemma {:induction false} TotalOfPrefix(shards: seq<Shard>, j: nat)
    requires WellRouted(shards) && j <= |shards|
    ensures TotalOf(shards[..j]) == |AllIds(shards[..j])|
    decreases j
  {
    if j > 0 {
      TotalOfPrefix(shards, j - 1);
      assert shards[..j][..j - 1] == shards[..j - 1] && shards[..j][j - 1] == shards[j - 1];
      ShardsDisjoint(shards, j - 1);
      var a, b := AllIds(shards[..j - 1]), shards[j - 1].Keys;
      assert |a + b| == |a| + |b|;
    }
  }

  /** No document is on two shards, so the sizes of the shards add up to the number of documents. */
  lemma TotalCountsIds(shards: seq<Shard>)
    requires WellRouted(shards)
    ensures TotalOf(shards) == |AllIds(shards)|
  {
    TotalOfPrefix(shards, |shards|);
    assert shards[..|shards|] == shards;
  }

  /** After any sequence of batches on an index with at least one shard, looking a document up on its shard is looking
      it up in one flat map in which the last write wins, and the total is the number of different IDs written. */
  lemma BatchesAreFlat(n: nat, batches: seq<seq<Document>>)
    requires n > 0
    ensures var shards, flat := WriteBatches(Empty(n), batches), Write(map[], Flatten(batches));
            && (forall id :: Lookup(shards, id) == Get(flat, id))
            && TotalOf(shards) == |flat.Keys|
            && flat.Keys == set d | d in Flatten(batches) :: d.id
  {
    var shards, flat := WriteBatches(Empty(n), batches), Write(map[], Flatten(batches));
    BatchesKeepRouted(n, batches);
    TotalCountsIds(shards);
    forall id ensures Lookup(shards, id) == Get(flat, id) && (id in AllIds(shards) <==> id in flat) {
      BatchesLookUpFlat(n, batches, id);
      StoredIffFound(shards, id);
    }
    assert AllIds(shards) == flat.Keys;
    WriteKeys(map[], Flatten(batches));
  }

  /** The IDs that a batch adds. */
  lemma {:induction false} WriteKeys(m: Shard, docs: seq<Document>)
    ensures Write(m, docs).Keys == m.Keys + set d | d in docs :: d.id
    decreases |docs|
  {
    if docs != [] {
      var n := |docs| - 1;
      WriteKeys(m, docs[..n]);
      assert docs == docs[..n] + [docs[n]];
    }
  }

  lemma WriteShardedIds(shards: seq<Shard>, docs: seq<Document>)
    requires WellRouted(shards)
    ensures AllIds(WriteSharded(shards, docs)) == AllIds(shards) + set d | d in docs :: d.id
  {
    var after := WriteSharded(shards, docs);
    WriteKeepsRouted(shards, docs);
    forall id ensures id in AllIds(after) <==> id in AllIds(shards) || id in set d | d in docs :: d.id {
      StoredIffFound(after, id);
      StoredIffFound(shards, id);
      var m: Shard := shards[Route(id, |shards|)];
      ShardedIsFlat(shards, m, docs, id);
      WriteKeys(m, docs);
    }
  }

  // ----- One shard at a time -----

  lemma {:induction false} ForShardMembers(docs: seq<Document>, n: nat, k: nat, d: Document)
    requires n > 0
    ensures d in ForShard(docs, n, k) <==> d in docs && Route(d.id, n) == k
    decreases |docs|
  {
    if docs != [] {
      var m := |docs| - 1;
      ForShardMembers(docs[..m], n, k, d);
      assert docs == docs[..m] + [docs[m]];
    }
  }

  /** The shards after one of them has got its part of a batch. */
  function WriteOn(shards: seq<Shard>, k: nat, docs: seq<Document>): seq<Shard>
    requires k < |shards|
  {
    shards[k := Write(shards[k], ForShard(docs, |shards|, k))]
  }

  lemma WriteOnKeepsRouted(shards: seq<Shard>, k: nat, docs: seq<Document>)
    requires WellRouted(shards) && k < |shards|
    ensures WellRouted(WriteOn(shards, k, docs))
  {
    var n, mine := |shards|, ForShard(docs, |shards|, k);
    WriteKeys(shards[k], mine);
    forall d | d in mine ensures Route(d.id, n) == k { ForShardMembers(docs, n, k, d); }
  }

  /** Whatever order the shards are written in, a lookup sees the part of its own shard, and only that. */
  lemma WriteOnLookup(shards: seq<Shard>, k: nat, docs: seq<Document>, id: DocId)
    requires k < |shards|
    ensures var after := WriteOn(shards, k, docs);
            Lookup(after, id) ==
            if Route(id, |shards|) == k then Get(Write(shards[k], ForShard(docs, |shards|, k)), id)
            else Lookup(shards, id)
  {
  }

  lemma WriteOnIds(shards: seq<Shard>, k: nat, docs: seq<Document>, id: DocId)
    requires WellRouted(shards) && k < |shards|
    ensures id in AllIds(WriteOn(shards, k, docs)) <==>
            id in AllIds(shards) || (Route(id, |shards|) == k && exists d | d in docs :: d.id == id)
  {
    var n, mine, after := |shards|, ForShard(docs, |shards|, k), WriteOn(shards, k, docs);
    WriteOnKeepsRouted(shards, k, docs);
    StoredIffFound(shards, id);
    StoredIffFound(after, id);
    WriteOnLookup(shards, k, docs, id);
    WriteKeys(shards[k], mine);
    forall d: Document ensures d in mine <==> d in docs && Route(d.id, n) == k { ForShardMembers(docs, n, k, d); }
  }

  /** What is found after a batch was there before or is in the batch. */
  lemma {:induction false} WriteSource(m: Shard, docs: seq<Document>, id: DocId)
    requires Get(Write(m, docs), id).Some?
    ensures Get(Write(m, docs), id) == Get(m, id) || Document(id, Get(Write(m, docs), id).value) in docs
    decreases |docs|
  {
    if docs != [] {
      var n := |docs| - 1;
      if docs[n].id != id { WriteSource(m, docs[..n], id); }
    }
  }
}
