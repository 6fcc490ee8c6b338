/** What a call of Index does to the texts that the engine holds (engine.go:296-344): under each ID it hands in, the
    last text given; under every other ID, what was held before. */
module EngineTexts {
  import opened DocIds
  import opened Windows
  import opened Store
  import opened EventStore
  import opened EngineObject
  import opened Wrappers

  /** The text of the last event with this ID. */
  function LastText(events: seq<ValidEvent>, id: DocId): Option<Source> {
    if events == [] then None
    else
      var e := events[|events| - 1];
      if e.Id() == id then Some(e.text) else LastText(events[..|events| - 1], id)
  }

  /** The text that is to be held under the ID after the events have been handed in. */
  ghost predicate DueAfter(v: seq<Index>, events: seq<ValidEvent>, id: DocId, text: Source) {
    if LastText(events, id).Some? then LastText(events, id) == Some(text) else HeldAs(v, id, text)
  }

  predicate TimeIn(w: Window, id: DocId) {
    WellFormed(id) && w.Contains(TimeOf(id))
  }

  lemma WriteLast(m: Shard, docs: seq<Document>, d: Document, id: DocId)
    ensures Get(Write(m, docs + [d]), id) == if d.id == id then Some(d.source) else Get(Write(m, docs), id)
  {
    assert (docs + [d])[..|docs|] == docs;
  }

  lemma {:induction false} TextWritten(events: seq<ValidEvent>, w: Window, m: Shard, id: DocId)
    ensures Get(Write(m, DocsFor(events, w)), id) ==
            if LastText(events, id).Some? && TimeIn(w, id) then LastText(events, id) else Get(m, id)
    decreases |events|
  {
    if events != [] {
      var e, front := events[|events| - 1], events[..|events| - 1];
      TextWritten(front, w, m, id);
      DecodeId(e);
      if w.Contains(e.time) { WriteLast(m, DocsFor(front, w), e.Doc(), id); }
    }
  }

  lemma TextFiled(ix: Index, events: seq<ValidEvent>, id: DocId)
    requires |ix.shards| > 0
    ensures Lookup(Filed(ix, DocsFor(events, ix.window)).shards, id) ==
            if LastText(events, id).Some? && TimeIn(ix.window, id) then LastText(events, id) else Lookup(ix.shards, id)
  {
    var m := ix.shards[Route(id, |ix.shards|)];
    ShardedIsFlat(ix.shards, m, DocsFor(events, ix.window), id);
    TextWritten(events, ix.window, m, id);
  }

  // ----- New indexes hold nothing -----

  predicate HoldsText(ix: Index, id: DocId, text: Source) {
    |ix.shards| > 0 && Lookup(ix.shards, id) == Some(text)
  }

  lemma NewHoldsNothing(w: Window, n: nat, id: DocId, text: Source)
    ensures !HoldsText(Index(w, Empty(n)), id, text)
  {
  }

  lemma HeldIsHolds(v: seq<Index>, id: DocId, text: Source)
    ensures HeldAs(v, id, text) <==> exists ix :: ix in v && HoldsText(ix, id, text)
  {
    if HeldAs(v, id, text) {
      var k :| 0 <= k < |v| && |v[k].shards| > 0 && Lookup(v[k].shards, id) == Some(text);
      assert v[k] in v && HoldsText(v[k], id, text);
    }
    if ix: Index :| ix in v && HoldsText(ix, id, text) {
      var k :| 0 <= k < |v| && v[k] == ix;
      assert |v[k].shards| > 0 && Lookup(v[k].shards, id) == Some(text);
    }
  }

  lemma CreatedHolds(v: seq<Index>, w: Window, n: nat, id: DocId, text: Source)
    ensures HeldAs(Created(v, w, n), id, text) <==> HeldAs(v, id, text)
  {
    var p, empty := Position(WindowList(v), w), Index(w, Empty(n));
    NewHoldsNothing(w, n, id, text);
    HeldIsHolds(v, id, text);
    HeldIsHolds(Created(v, w, n), id, text);
    assert v == v[..p] + v[p..];
    forall ix ensures ix in Created(v, w, n) <==> ix == empty || ix in v {
    }
  }

  lemma {:induction false} EnsuredAllHolds(
    v: seq<Index>, events: seq<ValidEvent>, d: int, n: nat, id: DocId, text: Source)
    ensures HeldAs(EnsuredAll(v, events, d, n), id, text) <==> HeldAs(v, id, text)
    decreases |events|
  {
    if events != [] {
      var front := events[..|events| - 1];
      EnsuredAllHolds(v, front, d, n, id, text);
      var mid := EnsuredAll(v, front, d, n);
      var r := RequestFor(WindowList(mid), events[|events| - 1].time, d);
      if r.Granted? { CreatedHolds(mid, r.window, n, id, text); }
    }
  }

  // ----- All texts after a call -----

  lemma {:induction false} LastTextTime(events: seq<ValidEvent>, id: DocId) returns (k: nat)
    requires LastText(events, id).Some?
    ensures k < |events| && events[k].Id() == id && WellFormed(id) && TimeOf(id) == events[k].time
    decreases |events|
  {
    var n := |events| - 1;
    if events[n].Id() == id {
      DecodeId(events[n]);
      k := n;
    } else {
      k := LastTextTime(events[..n], id);
    }
  }

  /** An index that holds the ID holds times like its own. */
  lemma HeldInWindow(ix: Index, id: DocId)
    requires Sound(ix) && Lookup(ix.shards, id).Some?
    ensures TimeIn(ix.window, id)
  {
    StoredIffFound(ix.shards, id);
    FiledFacts(id, ix.window);
  }

  lemma FilingGivesTexts(v: seq<Index>, d: int, events: seq<ValidEvent>, id: DocId, text: Source)
    requires StoreInv(v, d) && Covered(v, events)
    ensures HeldAs(FiledAll(v, events), id, text) <==> DueAfter(v, events, id, text)
  {
    var after := FiledAll(v, events);
    forall i | 0 <= i < |v|
      ensures |v[i].shards| > 0 && |after[i].shards| > 0
      ensures Lookup(after[i].shards, id) == if LastText(events, id).Some? && TimeIn(v[i].window, id)
                                             then LastText(events, id) else Lookup(v[i].shards, id)
      ensures Lookup(v[i].shards, id).Some? ==> TimeIn(v[i].window, id)
    {
      assert Sound(v[i]);
      TextFiled(v[i], events, id);
      if Lookup(v[i].shards, id).Some? { HeldInWindow(v[i], id); }
    }
    if LastText(events, id).Some? {
      var k := LastTextTime(events, id);
      assert HasWindow(v, events[k].time);
      var i := Find(WindowList(v), events[k].time);
      assert Lookup(after[i].shards, id) == LastText(events, id);
    }
  }

  /** After a call of Index on its own, whatever texts it hands in and however often under one ID: under each ID the
      engine holds exactly the last text given, and under an ID that is not given what it held before. */
  lemma TextsAfterCall(v: seq<Index>, d: int, n: nat, events: seq<ValidEvent>, id: DocId, text: Source)
    requires StoreInv(v, d) && n > 0
    ensures HeldAs(FiledAll(EnsuredAll(v, events, d, n), events), id, text) <==> DueAfter(v, events, id, text)
  {
    EnsuredAllKeepsInv(v, events, d, n);
    FilingGivesTexts(EnsuredAll(v, events, d, n), d, events, id, text);
    EnsuredAllHolds(v, events, d, n, id, text);
  }
}
