/** The engine object (engine.go:109-379): its list of indexes, filled by Index, thinned by retention, read by Search
    and Total. Here one call runs at a time; EngineRuns covers calls that overlap. */
module EngineObject {
  import opened DocIds
  import opened Windows
  import opened Store
  import opened EventStore
  import opened IndexObjects
  import opened Sequences

  // ----- What Index does to the list of indexes -----

  /** The list with a window for time t. */
  function Ensured(v: seq<Index>, t: Time, d: int, numShards: nat): seq<Index> {
    if Find(WindowList(v), t) < |v| then v
    else
      var r := RequestFor(WindowList(v), t, d);
      if r.AssertionFailed? then v else Created(v, r.window, numShards)
  }

  function EnsuredAll(v: seq<Index>, events: seq<Event>, d: int, numShards: nat): seq<Index> {
    if events == [] then v
    else Ensured(EnsuredAll(v, events[..|events| - 1], d, numShards), events[|events| - 1].time, d, numShards)
  }

  /** Every index gets the events of the batch that fall into its window. */
  function FiledAll(v: seq<Index>, events: seq<Event>): (r: seq<Index>)
    requires AllValid(events)
    ensures |r| == |v|
  {
    seq(|v|, i requires 0 <= i < |v| => Filed(v[i], DocsFor(events, v[i].window)))
  }

  /** Some window of the list contains t. */
  predicate HasWindow(v: seq<Index>, t: Time) {
    Find(WindowList(v), t) < |v|
  }

  ghost predicate Covered(v: seq<Index>, events: seq<Event>) {
    forall i | 0 <= i < |events| :: HasWindow(v, events[i].time)
  }

  lemma FindIs(ws: seq<Window>, t: Time, k: nat)
    requires k < |ws| && ws[k].Contains(t)
    ensures Find(ws, t) < |ws|
  {
  }

  lemma EnsuredKeepsInv(v: seq<Index>, t: Time, d: int, numShards: nat)
    requires StoreInv(v, d) && numShards > 0
    ensures StoreInv(Ensured(v, t, d, numShards), d)
    ensures HasWindow(Ensured(v, t, d, numShards), t)
    ensures forall u | HasWindow(v, u) :: HasWindow(Ensured(v, t, d, numShards), u)
  {
    if Find(WindowList(v), t) == |v| {
      CreateKeepsInv(v, t, d, numShards);
      var w := RequestFor(WindowList(v), t, d).window;
      CreatedFinds(v, w, numShards, t);
      forall u | HasWindow(v, u) ensures HasWindow(Created(v, w, numShards), u) { CreatedFinds(v, w, numShards, u); }
    }
  }

  lemma CreatedFinds(v: seq<Index>, w: Window, numShards: nat, t: Time)
    requires w.Contains(t) || HasWindow(v, t)
    ensures HasWindow(Created(v, w, numShards), t)
  {
    var k, j := Position(WindowList(v), w), Find(WindowList(v), t);
    var ws := WindowList(Created(v, w, numShards));
    CreatedWindows(v, w, numShards);
    if w.Contains(t) {
      FindIs(ws, t, k);
    } else {
      FindIs(ws, t, if j < k then j else j + 1);
    }
  }

  lemma {:induction false} EnsuredAllKeepsInv(v: seq<Index>, events: seq<Event>, d: int, numShards: nat)
    requires StoreInv(v, d) && numShards > 0
    ensures StoreInv(EnsuredAll(v, events, d, numShards), d) && Covered(EnsuredAll(v, events, d, numShards), events)
    decreases |events|
  {
    if events != [] {
      var n := |events| - 1;
      var mid := EnsuredAll(v, events[..n], d, numShards);
      EnsuredAllKeepsInv(v, events[..n], d, numShards);
      EnsuredKeepsInv(mid, events[n].time, d, numShards);
      forall i | 0 <= i < |events| ensures HasWindow(Ensured(mid, events[n].time, d, numShards), events[i].time) {
        if i < n { assert events[..n][i] == events[i]; }
      }
    }
  }

  lemma FiledAllKeepsInv(v: seq<Index>, events: seq<Event>, d: int)
    requires StoreInv(v, d) && AllValid(events)
    ensures StoreInv(FiledAll(v, events), d)
  {
    var r := FiledAll(v, events);
    assert WindowList(r) == WindowList(v);
    forall i | 0 <= i < |r| ensures Sound(r[i]) {
      DocsForBelong(events, v[i].window);
      FileKeepsSound(v[i], DocsFor(events, v[i].window));
    }
  }

  /** Nothing of a batch that is covered falls into a window apart from all others. */
  lemma {:induction false} NothingForNewWindow(v: seq<Index>, w: Window, events: seq<Event>)
    requires AllValid(events) && Covered(v, events) && forall i | 0 <= i < |v| :: Apart(w, v[i].window)
    ensures DocsFor(events, w) == []
    decreases |events|
  {
    if events != [] {
      var n := |events| - 1;
      assert Covered(v, events[..n]);
      NothingForNewWindow(v, w, events[..n]);
      var k := Find(WindowList(v), events[n].time);
      assert v[k].window.Contains(events[n].time);
    }
  }

  // ----- Sorting -----

  const ObjectWindow: IndexObject -> Window := (ix: IndexObject) => ix.window

  /** Sorts the list by inserting one index after the other. On disjoint windows that are not empty the result is newest
      first, and there is only one such arrangement. */
  method SortIndexes(s: seq<IndexObject>) returns (r: seq<IndexObject>)
    ensures multiset(r) == multiset(s)
    ensures ApartBy(s, ObjectWindow) && NonEmptyBy(s, ObjectWindow) ==> DescendingBy(r, ObjectWindow)
  {
    r := [];
    for i := 0 to |s|
      invariant multiset(r) == multiset(s[..i])
      invariant ApartBy(s, ObjectWindow) && NonEmptyBy(s, ObjectWindow) ==> DescendingBy(r, ObjectWindow)
    {
      var k := 0;
      while k < |r| && !WindowLess(s[i].window, r[k].window)
        invariant k <= |r|
        invariant forall j | 0 <= j < k :: !WindowLess(s[i].window, r[j].window)
      {
        k := k + 1;
      }
      if ApartBy(s, ObjectWindow) && NonEmptyBy(s, ObjectWindow) { InsertedInOrder(s, i, r, k); }
      FrontSnoc(s, i);
      InsertionPermutes(r, k, s[i]);
      r := InsertAt(r, k, s[i]);
    }
    assert s[..|s|] == s;
  }

  lemma InsertedInOrder(s: seq<IndexObject>, i: nat, r: seq<IndexObject>, k: nat)
    requires ApartBy(s, ObjectWindow) && NonEmptyBy(s, ObjectWindow) && DescendingBy(r, ObjectWindow)
    requires i < |s| && multiset(r) == multiset(s[..i]) && k <= |r|
    requires forall j | 0 <= j < k :: !WindowLess(s[i].window, r[j].window)
    requires k < |r| ==> WindowLess(s[i].window, r[k].window)
    ensures DescendingBy(InsertAt(r, k, s[i]), ObjectWindow)
  {
    forall j | 0 <= j < |r| ensures Apart(r[j].window, s[i].window) && r[j].window.start < r[j].window.end {
      assert r[j] in multiset(s[..i]);
      var m :| 0 <= m < i && s[..i][m] == r[j];
      assert Apart(ObjectWindow(s[m]), ObjectWindow(s[i]));
      assert ObjectWindow(s[m]).start < ObjectWindow(s[m]).end;
    }
    assert ObjectWindow(s[i]).start < ObjectWindow(s[i]).end;
    forall j | k <= j < |r| ensures r[j].window.end <= s[i].window.start {
      if j > k { assert ObjectWindow(r[j]).end <= ObjectWindow(r[k]).start; }
    }
    var q := InsertAt(r, k, s[i]);
    forall a, b | 0 <= a < b < |q| ensures ObjectWindow(q[b]).end <= ObjectWindow(q[a]).start {
      assert q[a] == if a < k then r[a] else if a == k then s[i] else r[a - 1];
      assert q[b] == if b < k then r[b] else if b == k then s[i] else r[b - 1];
    }
  }

  // ----- The engine object -----

  ghost function Views(s: seq<IndexObject>): (v: seq<Index>)
    reads s
    ensures |v| == |s| && forall i | 0 <= i < |s| :: v[i] == s[i].View()
  {
    seq(|s|, i requires 0 <= i < |s| reads s => s[i].View())
  }

  ghost predicate Distinct(s: seq<IndexObject>) {
    forall i, j | 0 <= i < j < |s| :: s[i] != s[j]
  }

  /** A new index goes where its window belongs, however the list is sorted. */
  lemma SortedCreation(before: seq<IndexObject>, ix: IndexObject, after: seq<IndexObject>, d: int)
    requires Tiled(WindowsOf(before, ObjectWindow), d) && Aligned(ix.window, d)
    requires forall i | 0 <= i < |before| :: Apart(ix.window, before[i].window)
    requires multiset(after) == multiset(before + [ix])
    requires ApartBy(before + [ix], ObjectWindow) && NonEmptyBy(before + [ix], ObjectWindow) ==>
               DescendingBy(after, ObjectWindow)
    ensures after == InsertAt(before, Position(WindowsOf(before, ObjectWindow), ix.window), ix)
  {
    var ws, all := WindowsOf(before, ObjectWindow), before + [ix];
    var k := Position(ws, ix.window);
    var r := InsertAt(before, k, ix);
    forall i, j | 0 <= i < j < |all| ensures Apart(ObjectWindow(all[i]), ObjectWindow(all[j])) {
      if j < |before| { assert ws[j].end <= ws[i].start; }
    }
    forall i | 0 <= i < |all| ensures ObjectWindow(all[i]).start < ObjectWindow(all[i]).end {
      if i < |before| { assert Aligned(ws[i], d); }
    }
    InsertionDescends(before, k, ix, d);
    InsertionPermutes(before, k, ix);
    SameElementsNonEmpty(all, after);
    SameElementsNonEmpty(all, r);
    DescendingIsUnique(after, r, ObjectWindow);
  }

  lemma InsertionPermutes(s: seq<IndexObject>, k: nat, x: IndexObject)
    requires k <= |s|
    ensures multiset(InsertAt(s, k, x)) == multiset(s + [x])
  {
    assert s == s[..k] + s[k..];
  }

  lemma SameElementsNonEmpty(a: seq<IndexObject>, b: seq<IndexObject>)
    requires multiset(a) == multiset(b) && NonEmptyBy(a, ObjectWindow)
    ensures NonEmptyBy(b, ObjectWindow)
  {
    forall i | 0 <= i < |b| ensures ObjectWindow(b[i]).start < ObjectWindow(b[i]).end {
      assert b[i] in multiset(a);
      var j :| 0 <= j < |a| && a[j] == b[i];
      assert ObjectWindow(a[j]).start < ObjectWindow(a[j]).end;
    }
  }

  lemma InsertionDescends(before: seq<IndexObject>, k: nat, ix: IndexObject, d: int)
    requires Tiled(WindowsOf(before, ObjectWindow), d) && Aligned(ix.window, d)
    requires forall i | 0 <= i < |before| :: Apart(ix.window, before[i].window)
    requires k == Position(WindowsOf(before, ObjectWindow), ix.window)
    ensures DescendingBy(InsertAt(before, k, ix), ObjectWindow)
  {
    InsertKeepsTiled(WindowsOf(before, ObjectWindow), ix.window, d);
    InsertedWindows(before, k, ix, ObjectWindow);
    DescendingWindows(InsertAt(before, k, ix), ObjectWindow);
  }

  lemma InsertedViews(was: seq<IndexObject>, k: nat, ix: IndexObject)
    requires k <= |was|
    ensures Views(InsertAt(was, k, ix)) == InsertAt(Views(was), k, ix.View())
  {
    var r := InsertAt(was, k, ix);
    forall i | 0 <= i < |r| ensures Views(r)[i] == InsertAt(Views(was), k, ix.View())[i] { Inserted(was, k, ix, i); }
  }

  lemma InsertedDistinct(was: seq<IndexObject>, k: nat, ix: IndexObject)
    requires k <= |was| && Distinct(was) && ix !in was
    ensures Distinct(InsertAt(was, k, ix))
  {
    var r := InsertAt(was, k, ix);
    forall i, j | 0 <= i < j < |r| ensures r[i] != r[j] {
      Inserted(was, k, ix, i);
      Inserted(was, k, ix, j);
    }
  }

  lemma InsertedMembers(was: seq<IndexObject>, k: nat, ix: IndexObject, o: IndexObject)
    requires k <= |was|
    ensures o in InsertAt(was, k, ix) <==> o == ix || o in was
  {
  }

  /** The list after a new, empty index has been added and sorted in. */
  lemma CreatedObject(was: seq<IndexObject>, ix: IndexObject, now: seq<IndexObject>, d: int, numShards: nat)
    requires Distinct(was) && ix !in was && ix.shards == Empty(numShards)
    requires Tiled(WindowList(Views(was)), d) && Aligned(ix.window, d)
    requires forall i | 0 <= i < |was| :: Apart(ix.window, WindowList(Views(was))[i])
    requires multiset(now) == multiset(was + [ix])
    requires ApartBy(was + [ix], ObjectWindow) && NonEmptyBy(was + [ix], ObjectWindow) ==>
               DescendingBy(now, ObjectWindow)
    ensures Views(now) == Created(Views(was), ix.window, numShards) && Distinct(now)
    ensures forall o: IndexObject :: o in now <==> o == ix || o in was
    ensures forall i | 0 <= i < |was| :: Apart(ix.window, was[i].window)
  {
    assert WindowsOf(was, ObjectWindow) == WindowList(Views(was));
    forall i | 0 <= i < |was| ensures Apart(ix.window, was[i].window) {
      assert WindowList(Views(was))[i] == was[i].window;
    }
    SortedCreation(was, ix, now, d);
    var k := Position(WindowList(Views(was)), ix.window);
    InsertedViews(was, k, ix);
    InsertedDistinct(was, k, ix);
    forall o: IndexObject ensures o in now <==> o == ix || o in was { InsertedMembers(was, k, ix, o); }
  }

  lemma CreationDone(was: seq<IndexObject>, ix: IndexObject, now: seq<IndexObject>, t: Time, d: int, numShards: nat)
    requires Distinct(was) && ix !in was && ix.shards == Empty(numShards) && numShards > 0
    requires StoreInv(Views(was), d) && Find(WindowList(Views(was)), t) == |was|
    requires RequestFor(WindowList(Views(was)), t, d) == Granted(ix.window)
    requires multiset(now) == multiset(was + [ix])
    requires ApartBy(was + [ix], ObjectWindow) && NonEmptyBy(was + [ix], ObjectWindow) ==>
               DescendingBy(now, ObjectWindow)
    ensures Distinct(now) && StoreInv(Views(now), d) && Views(now) == Ensured(Views(was), t, d, numShards)
    ensures ix.window.Contains(t)
    ensures forall o: IndexObject :: o in now <==> o == ix || o in was
    ensures forall o | o in was :: Apart(ix.window, o.window)
  {
    AlignedRequest(WindowList(Views(was)), t, d);
    CreateKeepsInv(Views(was), t, d, numShards);
    CreatedObject(was, ix, now, d, numShards);
  }

  // ----- Sub-batches -----

  /** The sub-batches hold, for every index, the documents of the events in its window, in order; an index without
      any has no sub-batch. */
  ghost predicate SplitUp(indexes: seq<IndexObject>, sub: map<IndexObject, seq<Document>>, events: seq<ValidEvent>) {
    && (forall o | o in sub :: o in indexes)
    && (forall o | o in indexes :: o in sub <==> DocsFor(events, o.window) != [])
    && (forall o | o in sub :: sub[o] == DocsFor(events, o.window))
  }

  lemma SplitUpNext(
    indexes: seq<IndexObject>, sub: map<IndexObject, seq<Document>>, events: seq<ValidEvent>, e: ValidEvent,
    ix: IndexObject)
    requires SplitUp(indexes, sub, events) && ix in indexes && ix.window.Contains(e.time)
    requires forall o | o in indexes && o != ix :: !o.window.Contains(e.time)
    ensures SplitUp(indexes, sub[ix := (if ix in sub then sub[ix] else []) + [e.Doc()]], events + [e])
  {
    var next := sub[ix := (if ix in sub then sub[ix] else []) + [e.Doc()]];
    forall o | o in indexes
      ensures o in next <==> DocsFor(events + [e], o.window) != []
      ensures o in next ==> next[o] == DocsFor(events + [e], o.window)
    {
      assert (events + [e])[..|events|] == events;
    }
  }

  /** In a tiled list only one index contains a given time. */
  lemma OnlyOneContains(indexes: seq<IndexObject>, d: int, k: nat, t: Time)
    requires Tiled(WindowList(Views(indexes)), d) && k < |indexes| && indexes[k].window.Contains(t)
    ensures forall o | o in indexes && o != indexes[k] :: !o.window.Contains(t)
  {
    var ws := WindowList(Views(indexes));
    forall o | o in indexes && o != indexes[k] ensures !o.window.Contains(t) {
      var j :| 0 <= j < |indexes| && indexes[j] == o;
      assert ws[j] == o.window && ws[k] == indexes[k].window;
      if j < k { assert ws[k].end <= ws[j].start; } else { assert ws[j].end <= ws[k].start; }
    }
  }

  /** A new index whose window is apart from all others has no sub-batch yet. */
  lemma SplitUpWithNew(
    was: seq<IndexObject>, ix: IndexObject, now: seq<IndexObject>, sub: map<IndexObject, seq<Document>>,
    events: seq<ValidEvent>)
    requires SplitUp(was, sub, events) && ix !in was && Covered(Views(was), events)
    requires forall o: IndexObject :: o in now <==> o == ix || o in was
    requires forall o | o in was :: Apart(ix.window, o.window)
    ensures SplitUp(now, sub, events)
  {
    forall i | 0 <= i < |was| ensures Apart(ix.window, Views(was)[i].window) { assert was[i] in was; }
    NothingForNewWindow(Views(was), ix.window, events);
  }

  /** The list after a retention pass: exactly the indexes stay whose window, with the retention period added, does not
      end before the reading of the clock. */
  ghost predicate ExactlyKept(was: seq<IndexObject>, now: seq<IndexObject>, nows: seq<Time>, retention: int)
    requires |nows| == |was|
  {
    && (forall i | 0 <= i < |was| :: was[i] in now <==> was[i].window.end + retention >= nows[i])
    && forall o | o in now :: o in was
  }

  lemma RetentionIsExact(was: seq<IndexObject>, nows: seq<Time>, retention: int)
    requires |nows| == |was| && Distinct(was)
    ensures ExactlyKept(was, Retained(was, ObjectWindow, nows, retention), nows, retention)
  {
    forall o ensures o in Retained(was, ObjectWindow, nows, retention) <==>
                       exists i | 0 <= i < |was| ::
                         was[i] == o && ObjectWindow(was[i]).end + retention >= nows[i]
    {
      RetainedIff(was, ObjectWindow, nows, retention, o);
    }
  }

  /** If the clock has not moved during the pass, exactly the indexes stay that have not aged out at that time. */
  lemma KeptAtOneTime(was: seq<IndexObject>, now: seq<IndexObject>, nows: seq<Time>, retention: int, time: Time)
    requires |nows| == |was| && ExactlyKept(was, now, nows, retention) && forall i | 0 <= i < |nows| :: nows[i] == time
    ensures forall o :: o in now <==> o in was && o.window.end + retention >= time
  {
  }

  /** No index is gone that holds a time still within the period at the last reading of the clock. */
  ghost predicate KeepsWhatIsDue(was: seq<IndexObject>, now: seq<IndexObject>, nows: seq<Time>, retention: int)
    requires |nows| == |was|
  {
    forall i, t | 0 <= i < |was| && was[i].window.Contains(t) && t + retention >= nows[|nows| - 1] :: was[i] in now
  }

  lemma KeptIsDue(was: seq<IndexObject>, nows: seq<Time>, retention: int, d: int)
    requires StoreInv(Views(was), d) && |nows| == |was| && NonDecreasing(nows)
    ensures KeepsWhatIsDue(was, Retained(was, ObjectWindow, nows, retention), nows, retention)
  {
    assert WindowsOf(was, ObjectWindow) == WindowList(Views(was));
    DescendingEnds(WindowList(Views(was)), d);
    forall i, t | 0 <= i < |was| && was[i].window.Contains(t) && t + retention >= nows[|nows| - 1]
      ensures was[i] in Retained(was, ObjectWindow, nows, retention)
    {
      RetentionIsSafe(was, ObjectWindow, nows, retention, i, t);
    }
  }

  /** It is a prefix. */
  lemma RetentionDone(was: seq<IndexObject>, nows: seq<Time>, retention: int, d: int)
    requires StoreInv(Views(was), d) && |nows| == |was| && NonDecreasing(nows)
    ensures var now := Retained(was, ObjectWindow, nows, retention);
            && now == was[..KeptCount(WindowList(Views(was)), nows, retention)]
            && StoreInv(Views(now), d)
  {
    var v := Views(was);
    var k := KeptCount(WindowList(v), nows, retention);
    assert WindowsOf(was, ObjectWindow) == WindowList(v);
    DescendingEnds(WindowList(v), d);
    RetentionKeepsPrefix(was, ObjectWindow, nows, retention);
    FrontKeepsInv(v, d, k);
    assert Views(was[..k]) == v[..k];
  }

  /** A retention pass in one statement. */
  lemma PassIsRight(was: seq<IndexObject>, now: seq<IndexObject>, nows: seq<Time>, retention: int, d: int)
    requires StoreInv(Views(was), d) && Distinct(was) && |nows| == |was| && NonDecreasing(nows)
    requires now == Retained(was, ObjectWindow, nows, retention)
    ensures ExactlyKept(was, now, nows, retention) && KeepsWhatIsDue(was, now, nows, retention)
    ensures now == was[..KeptCount(WindowList(Views(was)), nows, retention)]
    ensures StoreInv(Views(now), d) && Distinct(now)
  {
    RetentionDone(was, nows, retention, d);
    RetentionIsExact(was, nows, retention);
    KeptIsDue(was, nows, retention, d);
  }

  /** The indexes that no longer wait hold their part of the batch; the others are as they were. */
  ghost predicate PartlyFiled(
    now: seq<Index>, was: seq<Index>, indexes: seq<IndexObject>, waiting: set<IndexObject>, events: seq<ValidEvent>) {
    && |now| == |was| == |indexes|
    && forall i | 0 <= i < |was| ::
         now[i] == if indexes[i] in waiting then was[i] else Filed(was[i], DocsFor(events, was[i].window))
  }

  lemma FilingBegins(indexes: seq<IndexObject>, sub: map<IndexObject, seq<Document>>, events: seq<ValidEvent>)
    requires SplitUp(indexes, sub, events)
    ensures PartlyFiled(Views(indexes), Views(indexes), indexes, sub.Keys, events)
  {
    var v := Views(indexes);
    forall i | 0 <= i < |v| && indexes[i] !in sub ensures v[i] == Filed(v[i], DocsFor(events, v[i].window)) {
      assert DocsFor(events, indexes[i].window) == [];
      assert WriteSharded(v[i].shards, []) == v[i].shards;
    }
  }

  lemma FilingGoesOn(
    now: seq<Index>, was: seq<Index>, indexes: seq<IndexObject>, waiting: set<IndexObject>, events: seq<ValidEvent>,
    j: nat)
    requires PartlyFiled(now, was, indexes, waiting, events) && Distinct(indexes)
    requires j < |indexes| && indexes[j] in waiting
    ensures PartlyFiled(
              now[j := Filed(now[j], DocsFor(events, now[j].window))], was, indexes, waiting - {indexes[j]}, events)
  {
  }

  lemma FilingEnds(now: seq<Index>, was: seq<Index>, indexes: seq<IndexObject>, events: seq<ValidEvent>)
    requires PartlyFiled(now, was, indexes, {}, events)
    ensures now == FiledAll(was, events)
  {
  }

  lemma SmallerSet(a: set<IndexObject>, b: set<IndexObject>)
    requires a < b
    ensures |a| < |b|
  {
    assert b == a + (b - a) && b - a != {};
  }

  /** Writes the sub-batch of one index. */
  method WriteSubBatch(indexes: seq<IndexObject>, ix: IndexObject, docs: seq<Document>, ghost j: nat)
    requires Distinct(indexes) && j < |indexes| && indexes[j] == ix && |ix.shards| > 0
    modifies ix
    ensures Views(indexes) == old(Views(indexes))[j := Filed(old(Views(indexes))[j], docs)]
  {
    ix.IndexDocuments(docs);
  }

  class Engine {
    const numShards: nat
    const indexDuration: int
    const retentionPeriod: int
    var indexes: seq<IndexObject>

    ghost function View(): seq<Index>
      reads this, indexes
    {
      Views(indexes)
    }

    ghost predicate Valid()
      reads this, indexes
    {
      indexDuration > 0 && 1 <= numShards <= MAX_SHARDS && Distinct(indexes) && StoreInv(View(), indexDuration)
    }

    constructor (shards: nat, duration: int, retention: int)
      requires duration > 0 && 1 <= shards <= MAX_SHARDS
      ensures Valid() && indexes == []
      ensures numShards == shards && indexDuration == duration && retentionPeriod == retention
    {
      numShards, indexDuration, retentionPeriod, indexes := shards, duration, retention, [];
    }

    /** The first index whose window contains t. */
    method IndexForReferenceTime(t: Time) returns (ix: IndexObject?)
      ensures var k := Find(WindowList(View()), t);
              if k < |indexes| then ix == indexes[k] else ix == null
    {
      ghost var ws := WindowList(View());
      for i := 0 to |indexes|
        invariant forall j | 0 <= j < i :: !ws[j].Contains(t)
      {
        if indexes[i].window.Contains(t) {
          assert ws[i].Contains(t);
          return indexes[i];
        }
        assert ws[i] == indexes[i].window;
      }
      return null;
    }

    /** Creates an index for a window, shifted if one with the same start exists, and sorts the list. */
    method CreateIndex(start: Time, end: Time) returns (ix: IndexObject)
      requires CreateWindow(WindowList(View()), start, end).Granted?
      modifies this`indexes
      ensures fresh(ix) && ix.shards == Empty(numShards)
      ensures ix.window == CreateWindow(old(WindowList(View())), start, end).window
      ensures multiset(indexes) == multiset(old(indexes) + [ix])
      ensures ApartBy(old(indexes) + [ix], ObjectWindow) && NonEmptyBy(old(indexes) + [ix], ObjectWindow) ==>
                DescendingBy(indexes, ObjectWindow)
    {
      ghost var ws := WindowList(View());
      var startTime := start;
      var i := 0;
      while i < |indexes| && indexes[i].window.start != start
        invariant i <= |indexes| && forall j | 0 <= j < i :: ws[j].start != start
      {
        assert ws[i] == indexes[i].window;
        i := i + 1;
      }
      if i < |indexes| {
        assert ws[i] == indexes[i].window && FindStart(ws, start) == i;
        startTime := indexes[i].window.end;
        assert startTime <= end;
      }
      ix := new IndexObject(Window(startTime, end), numShards);
      indexes := SortIndexes(indexes + [ix]);
    }

    /** Creates an index for time t, which none contains. */
    method CreateIndexForReferenceTime(t: Time) returns (ix: IndexObject)
      requires Valid() && Find(WindowList(View()), t) == |indexes|
      modifies this`indexes
      ensures Valid() && fresh(ix) && ix.shards == Empty(numShards) && ix.window.Contains(t)
      ensures forall o: IndexObject :: o in indexes <==> o == ix || o in old(indexes)
      ensures forall o | o in old(indexes) :: Apart(ix.window, o.window)
      ensures View() == Ensured(old(View()), t, indexDuration, numShards)
    {
      ghost var was := indexes;
      RequestedWindowContains(WindowList(View()), t, indexDuration);
      var start := Truncate(t, indexDuration);
      ix := CreateIndex(start, start + indexDuration);
      assert Views(was) == old(View());
      CreationDone(was, ix, indexes, t, indexDuration, numShards);
    }

    /** The index for one event: the one that contains its time, or a new one. */
    method IndexFor(e: ValidEvent) returns (ix: IndexObject)
      requires Valid()
      modifies this`indexes
      ensures Valid() && View() == Ensured(old(View()), e.time, indexDuration, numShards)
      ensures ix in indexes && ix.window.Contains(e.time)
      ensures if ix in old(indexes) then indexes == old(indexes)
              else fresh(ix) && (forall o: IndexObject :: o in indexes <==> o == ix || o in old(indexes)) &&
                   forall o | o in old(indexes) :: Apart(ix.window, o.window)
    {
      var found := IndexForReferenceTime(e.time);
      if found != null {
        return found;
      }
      ix := CreateIndexForReferenceTime(e.time);
    }

    /** Adds one event to the sub-batch of its index. */
    method AddToSubBatch(sub: map<IndexObject, seq<Document>>, ghost front: seq<ValidEvent>, e: ValidEvent)
      returns (r: map<IndexObject, seq<Document>>)
      requires Valid() && SplitUp(indexes, sub, front) && Covered(View(), front)
      modifies this`indexes
      ensures Valid() && View() == Ensured(old(View()), e.time, indexDuration, numShards)
      ensures SplitUp(indexes, r, front + [e])
      ensures forall o | o in indexes :: o in old(indexes) || fresh(o)
    {
      ghost var was := indexes;
      var ix := IndexFor(e);
      if ix !in was { SplitUpWithNew(was, ix, indexes, sub, front); }
      ghost var k :| 0 <= k < |indexes| && indexes[k] == ix;
      OnlyOneContains(indexes, indexDuration, k, e.time);
      SplitUpNext(indexes, sub, front, e, ix);
      r := sub[ix := (if ix in sub then sub[ix] else []) + [e.Doc()]];
    }

    /** De-multiplexes a batch into one sub-batch for each index, creating indexes as needed. */
    method Demultiplex(events: seq<ValidEvent>) returns (sub: map<IndexObject, seq<Document>>)
      requires Valid()
      modifies this`indexes
      ensures Valid() && View() == EnsuredAll(old(View()), events, indexDuration, numShards)
      ensures SplitUp(indexes, sub, events)
      ensures forall o | o in indexes :: o in old(indexes) || fresh(o)
    {
      sub := map[];
      ghost var v := View();
      for i := 0 to |events|
        invariant Valid() && View() == EnsuredAll(v, events[..i], indexDuration, numShards)
        invariant SplitUp(indexes, sub, events[..i])
        invariant forall o | o in indexes :: o in old(indexes) || fresh(o)
      {
        EnsuredAllKeepsInv(v, events[..i], indexDuration, numShards);
        sub := AddToSubBatch(sub, events[..i], events[i]);
        FrontSnoc(events, i);
      }
      assert events[..|events|] == events;
    }

    /** Writes one of the sub-batches that wait. */
    method WriteNext(sub: map<IndexObject, seq<Document>>, todo: set<IndexObject>, ghost was: seq<Index>,
                     ghost events: seq<ValidEvent>) returns (rest: set<IndexObject>)
      requires Distinct(indexes) && SplitUp(indexes, sub, events) && todo <= sub.Keys && todo != {}
      requires PartlyFiled(View(), was, indexes, todo, events) && forall i | 0 <= i < |was| :: |was[i].shards| > 0
      modifies indexes
      ensures rest < todo && PartlyFiled(View(), was, indexes, rest, events)
    {
      var ix :| ix in todo;
      ghost var j :| 0 <= j < |indexes| && indexes[j] == ix;
      assert View()[j] == was[j] == ix.View();
      FilingGoesOn(View(), was, indexes, todo, events, j);
      WriteSubBatch(indexes, ix, sub[ix], j);
      rest := todo - {ix};
    }

    /** Writes the sub-batches in any order: they run in parallel. */
    method WriteSubBatches(sub: map<IndexObject, seq<Document>>, ghost events: seq<ValidEvent>)
      requires Distinct(indexes) && SplitUp(indexes, sub, events)
      requires forall o | o in indexes :: |o.shards| > 0
      modifies indexes
      ensures View() == FiledAll(old(View()), events)
    {
      ghost var v := View();
      FilingBegins(indexes, sub, events);
      var todo := sub.Keys;
      while todo != {}
        invariant todo <= sub.Keys && PartlyFiled(View(), v, indexes, todo, events)
        decreases |todo|
      {
        var rest := WriteNext(sub, todo, v, events);
        SmallerSet(rest, todo);
        todo := rest;
      }
      FilingEnds(View(), v, indexes, events);
    }

    lemma EveryIndexHasShards()
      requires Valid()
      ensures forall o | o in indexes :: |o.shards| > 0
    {
      forall o | o in indexes ensures |o.shards| > 0 {
        var i :| 0 <= i < |indexes| && indexes[i] == o;
        assert Sound(View()[i]);
      }
    }

    /** Indexes a batch of events. */
    method IndexEvents(events: seq<ValidEvent>)
      requires Valid()
      modifies this, indexes
      ensures Valid()
      ensures View() == FiledAll(EnsuredAll(old(View()), events, indexDuration, numShards), events)
    {
      var sub := Demultiplex(events);
      ghost var v := View();
      FiledAllKeepsInv(v, events, indexDuration);
      EveryIndexHasShards();
      assert forall i | 0 <= i < |indexes| :: indexes[i] in old(indexes) || fresh(indexes[i]);
      WriteSubBatches(sub, events);
      assert View() == FiledAll(v, events);
    }

    /** The number of documents in all indexes: each event counts once. */
    method Total() returns (total: nat)
      requires Valid()
      ensures total == TotalAll(View()) && total == |HeldIds(View())|
    {
      ghost var v := View();
      total := 0;
      for i := 0 to |indexes|
        invariant total == TotalAll(v[..i])
      {
        var t := indexes[i].Total();
        assert v[..i + 1][..i] == v[..i] && v[i].shards == indexes[i].shards;
        total := total + t;
      }
      assert v[..|indexes|] == v;
      TotalCountsHeld(v, indexDuration);
    }

    /** The indexes that have not aged out; the clock is read once for each. */
    method Unexpired(nows: seq<Time>) returns (kept: seq<IndexObject>)
      requires |nows| == |indexes|
      ensures kept == Retained(indexes, ObjectWindow, nows, retentionPeriod)
    {
      var a := new IndexObject[|indexes|](i requires 0 <= i < |indexes| reads this => indexes[i]);
      assert a[..] == indexes;
      var n := FilterInPlace(a, ObjectWindow, nows, retentionPeriod);
      kept := a[..n];
    }

    /** Removes the indexes that have aged out. */
    method EnforceRetention(nows: seq<Time>)
      requires Valid() && |nows| == |indexes| && NonDecreasing(nows)
      modifies this`indexes
      ensures Valid()
      ensures ExactlyKept(old(indexes), indexes, nows, retentionPeriod)
      ensures indexes == old(indexes)[..KeptCount(old(WindowList(View())), nows, retentionPeriod)]
      ensures KeepsWhatIsDue(old(indexes), indexes, nows, retentionPeriod)
    {
      var kept := Unexpired(nows);
      PassIsRight(indexes, kept, nows, retentionPeriod, indexDuration);
      indexes := kept;
    }

    /** Reads the documents of one page. */
    method ReadPage(ix: IndexObject, page: seq<DocId>) returns (texts: seq<Source>)
      requires |ix.shards| > 0
      ensures texts == Sources(ix.View(), page)
    {
      texts := [];
      for j := 0 to |page|
        invariant texts == Sources(ix.View(), page)[..j]
      {
        var r := ix.Document(page[j]);
        texts := texts + [match r case Some(source) => source case None => []];
      }
    }

    /** Sends back what the indexes hold of a query. */
    method Search(answers: seq<Answer>) returns (texts: seq<Source>, ghost ids: seq<DocId>)
      requires Valid() && AnswersFor(View(), answers)
      ensures SentBack(View(), answers, ids, texts)
      ensures Searchable(View(), answers) && texts == Results(View(), answers) && ids == Emitted(answers)
    {
      AnswersAreSearchable(View(), indexDuration, answers);
      texts := Walk(answers);
      ids := ResultsAreSentBack(View(), indexDuration, answers, texts);
    }

    /** Walks the indexes from the oldest to the newest. */
    method Walk(answers: seq<Answer>) returns (texts: seq<Source>)
      requires Searchable(View(), answers)
      ensures texts == Results(View(), answers)
    {
      ghost var v := View();
      texts := [];
      var i := |indexes|;
      assert v[..i] == v && answers[..i] == answers;
      while i > 0
        invariant 0 <= i <= |indexes| && Searchable(v[..i], answers[..i])
        invariant texts + Results(v[..i], answers[..i]) == Results(v, answers)
      {
        i := i - 1;
        ResultsStep(v, answers, i);
        if answers[i].SearchFailed? {
          break;
        }
        assert v[i] == indexes[i].View();
        var more := ReadPage(indexes[i], Page(answers[i]));
        Associative(texts, more, Results(v[..i], answers[..i]));
        texts := texts + more;
      }
    }
  }
}
