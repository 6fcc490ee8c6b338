/** Closing the engine and opening it again (engine.go:135-171, index.go:95-213): which indexes come back, and which
    directories they are kept in. */
module ReopenStore {
  import opened Sequences
  import opened Windows
  import opened Store
  import opened EventStore
  import opened Reopen
  import opened EngineSteps
  import opened EngineRuns

  // ----- One index -----

  /** The directory of an index: named after the start, with the end in a file, and a subdirectory for each shard. */
  datatype Directory = Directory(name: int, end: int, disk: Disk, listing: seq<Entry>) {
    predicate Readable() {
      forall e | e in listing && e.IsShard() :: e.name in disk
    }
  }

  /** The directory is the one of this index. */
  ghost predicate Saves(dir: Directory, ix: Index) {
    && dir.name == IndexName(ix.window) && dir.end == Minutes(ix.window.end)
    && OnDisk(dir.disk, ix.shards) && ListsIndex(dir.listing, |ix.shards|)
  }

  /** What is opened: the window to the minute, and the shards in the order of their names. */
  ghost predicate OpensAs(dir: Directory, ix: Index) {
    var names := SortNames(ShardEntries(dir.listing));
    && ix.window == Window(dir.name * MINUTE, dir.end * MINUTE)
    && |ix.shards| == |names|
    && forall k | 0 <= k < |names| :: names[k] in dir.disk && ix.shards[k] == dir.disk[names[k]]
  }

  method OpenIndex(dir: Directory) returns (ix: Index)
    requires dir.Readable()
    ensures OpensAs(dir, ix)
  {
    var shards := OpenShards(dir.disk, dir.listing);
    ix := Index(Window(dir.name * MINUTE, dir.end * MINUTE), shards);
  }

  /** An index comes back as it was exactly if its window does, that is, for durations of whole minutes. */
  lemma IndexComesBackIff(dir: Directory, ix: Index, found: Index, d: int)
    requires d > 0 && Aligned(ix.window, d) && ix.shards != []
    requires Saves(dir, ix) && OpensAs(dir, found)
    ensures found == ix <==> d % MINUTE == 0
  {
    AlignedRestoredIff(ix.window, d);
    ReopenKeepsDocuments(dir.disk, dir.listing, ix.shards, found.shards, []);
  }

  // ----- The whole store -----

  lemma StoreIsApart(v: seq<Index>, d: int)
    requires StoreInv(v, d)
    ensures NoDuplicates(v) && DescendingBy(v, WindowOf) && NonEmptyBy(v, WindowOf)
    ensures forall i | 0 <= i < |v| :: Aligned(v[i].window, d) && v[i].shards != []
  {
    var ws := WindowList(v);
    forall i | 0 <= i < |v| ensures Aligned(v[i].window, d) && v[i].shards != [] {
      assert Aligned(ws[i], d) && Sound(v[i]);
    }
    forall i, j | 0 <= i < j < |v| ensures v[j].window.end <= v[i].window.start { assert ws[j].end <= ws[i].start; }
  }

  /** Any arrangement of the indexes of a store has windows that are apart. */
  lemma ArrangedIsApart(v: seq<Index>, d: int, s: seq<Index>)
    requires StoreInv(v, d) && multiset(s) == multiset(v)
    ensures ApartBy(s, WindowOf) && NonEmptyBy(s, WindowOf)
    ensures forall i | 0 <= i < |s| :: Aligned(s[i].window, d) && s[i].shards != []
  {
    StoreIsApart(v, d);
    UniqueStaysUnique(v, s);
    forall i | 0 <= i < |s| ensures s[i] in v { assert s[i] in multiset(v); }
    forall i, j | 0 <= i < j < |s| ensures Apart(WindowOf(s[i]), WindowOf(s[j])) { OthersAreApart(v, s[i], s[j]); }
  }

  lemma OthersAreApart(v: seq<Index>, x: Index, y: Index)
    requires DescendingBy(v, WindowOf) && x in v && y in v && x != y
    ensures Apart(WindowOf(x), WindowOf(y))
  {
    var p :| 0 <= p < |v| && v[p] == x;
    var q :| 0 <= q < |v| && v[q] == y;
    if p < q { assert WindowOf(v[q]).end <= WindowOf(v[p]).start; }
  }

  /** The directories of the indexes are listed in any order, opened one by one and sorted. */
  ghost predicate ReopensAs(
    v: seq<Index>, dirs: seq<Directory>, saved: seq<Index>, found: seq<Index>, sorted: seq<Index>) {
    && multiset(saved) == multiset(v) && |dirs| == |saved| == |found|
    && (forall i | 0 <= i < |dirs| :: Saves(dirs[i], saved[i]) && OpensAs(dirs[i], found[i]))
    && multiset(sorted) == multiset(found)
    && (ApartBy(found, WindowOf) && NonEmptyBy(found, WindowOf) ==> DescendingBy(sorted, WindowOf))
  }

  /** Whatever order the directories are listed in, and however the indexes are then sorted: a store that is not empty
      comes back as it was, with the same windows in the same order and the same documents, if and only if the duration
      of an index is a number of whole minutes. */
  lemma StoreComesBackIff(
    v: seq<Index>, d: int, dirs: seq<Directory>, saved: seq<Index>, found: seq<Index>, sorted: seq<Index>)
    requires StoreInv(v, d) && ReopensAs(v, dirs, saved, found, sorted) && v != []
    ensures sorted == v <==> d % MINUTE == 0
  {
    if d % MINUTE == 0 {
      StoreComesBack(v, d, dirs, saved, found, sorted);
    } else if sorted == v {
      WholeMinutesComeBack(v, dirs, saved, found, sorted);
      StoreIsApart(v, d);
      AlignedRestoredIff(v[0].window, d);
      assert false;
    }
  }

  lemma StoreComesBack(
    v: seq<Index>, d: int, dirs: seq<Directory>, saved: seq<Index>, found: seq<Index>, sorted: seq<Index>)
    requires StoreInv(v, d) && ReopensAs(v, dirs, saved, found, sorted) && d % MINUTE == 0
    ensures sorted == v
  {
    ArrangedIsApart(v, d, saved);
    forall i | 0 <= i < |dirs| ensures found[i] == saved[i] { IndexComesBackIff(dirs[i], saved[i], found[i], d); }
    assert found == saved;
    StoreIsApart(v, d);
    ArrangedIsApart(v, d, sorted);
    DescendingIsUnique(sorted, v, WindowOf);
  }

  /** What comes back has windows of whole minutes. */
  lemma WholeMinutesComeBack(
    v: seq<Index>, dirs: seq<Directory>, saved: seq<Index>, found: seq<Index>, sorted: seq<Index>)
    requires ReopensAs(v, dirs, saved, found, sorted) && sorted != []
    ensures Restored(sorted[0].window) == sorted[0].window
  {
    var i := PlaceOf(found, sorted);
    assert OpensAs(dirs[i], found[i]);
    WholeMinutes(dirs[i].name, dirs[i].end);
  }

  lemma PlaceOf(found: seq<Index>, sorted: seq<Index>) returns (i: nat)
    requires multiset(sorted) == multiset(found) && sorted != []
    ensures i < |found| && found[i] == sorted[0]
  {
    assert sorted[0] in multiset(found);
    i :| 0 <= i < |found| && found[i] == sorted[0];
  }

  lemma WholeMinutes(start: int, end: int)
    ensures Restored(Window(start * MINUTE, end * MINUTE)) == Window(start * MINUTE, end * MINUTE)
  {
  }

  /** So after every interleaving an engine that holds something can be closed and opened again without a difference
      if and only if the duration of an index is a number of whole minutes. */
  lemma EngineComesBackIff(
    cfg: Config, acts: seq<Action>, dirs: seq<Directory>, saved: seq<Index>, found: seq<Index>, sorted: seq<Index>)
    requires cfg.Valid() && Possible(cfg, INITIAL, acts) && Run(cfg, INITIAL, acts).slots != []
    requires ReopensAs(IndexList(Run(cfg, INITIAL, acts).slots), dirs, saved, found, sorted)
    ensures sorted == IndexList(Run(cfg, INITIAL, acts).slots) <==> cfg.duration % MINUTE == 0
  {
    EveryInterleavingIsSafe(cfg, acts);
    StoreComesBackIff(IndexList(Run(cfg, INITIAL, acts).slots), cfg.duration, dirs, saved, found, sorted);
  }

  // ----- Directories of their own -----

  /** With durations of a minute or more, no two indexes ever share a directory. */
  lemma DirectoriesDiffer(cfg: Config, acts: seq<Action>)
    requires cfg.Valid() && cfg.duration >= MINUTE && Possible(cfg, INITIAL, acts)
    ensures NamesDiffer(SlotWindows(Run(cfg, INITIAL, acts).slots))
  {
    EveryInterleavingIsSafe(cfg, acts);
    LongWindowsHaveNames(SlotWindows(Run(cfg, INITIAL, acts).slots), cfg.duration);
  }

  /** With durations of half a minute or less, two indexes can. */
  lemma DirectoriesCanClash(cfg: Config) returns (acts: seq<Action>)
    requires cfg.Valid() && 2 * cfg.duration <= MINUTE
    ensures Possible(cfg, INITIAL, acts) && !NamesDiffer(SlotWindows(Run(cfg, INITIAL, acts).slots))
  {
    var t, u := ShortWindowsShareNames(cfg.duration);
    var e: ValidEvent, f: ValidEvent := Event(t, 1, []), Event(u, 2, []);
    acts := IndexFromStart(cfg, [e, f]);
    var st := Run(cfg, INITIAL, acts);
    assert e in [e, f] && f in [e, f];
    EveryInterleavingIsSafe(cfg, acts);
    var i := SlotOf(cfg, acts, e);
    var j := SlotOf(cfg, acts, f);
    var ws := SlotWindows(st.slots);
    assert IndexName(ws[i]) == IndexName(ws[j]) && i != j;
    assert IndexName(ws[if i < j then i else j]) == IndexName(ws[if i < j then j else i]);
  }

  lemma SlotOf(cfg: Config, acts: seq<Action>, e: ValidEvent) returns (i: nat)
    requires cfg.Valid() && Possible(cfg, INITIAL, acts)
    requires var st := Run(cfg, INITIAL, acts); Quiet(st) && e in st.started && Within(cfg, st.latest, e)
    ensures var slots := Run(cfg, INITIAL, acts).slots;
            i < |slots| && slots[i].index.window.start == Truncate(e.time, cfg.duration)
  {
    EveryInterleavingIsSafe(cfg, acts);
    NothingWithinThePeriodIsLost(cfg, acts, e);
    var st := Run(cfg, INITIAL, acts);
    i :| 0 <= i < |st.slots| && e.Id() in AllIds(st.slots[i].index.shards);
    SlotFacts(cfg, st, i, e);
  }
}
