/** What the engine holds (engine.go:109-124) and what its operations make of it, as functions: indexes for time
    windows, newest first; events filed under them; and searches that walk them from oldest to newest. */
module EventStore {
  import opened DocIds
  import opened Sequences
  import opened Windows
  import opened Store
  import opened Wrappers

  datatype Event = Event(time: Time, sequence: int, text: Source) {
    /** Time and sequence number fit in 64 bits. */
    predicate Valid() {
      IsInt64(time) && IsInt64(sequence)
    }

    function Id(): DocId
      requires Valid()
    {
      EventId(time, sequence)
    }

    function Doc(): Document
      requires Valid()
    {
      Document(Id(), text)
    }
  }

  type ValidEvent = e: Event | e.Valid() witness Event(0, 0, [])

  datatype Index = Index(window: Window, shards: seq<Shard>)

  const WindowOf: Index -> Window := (ix: Index) => ix.window

  function WindowList(v: seq<Index>): (ws: seq<Window>)
    ensures |ws| == |v| && forall i | 0 <= i < |v| :: ws[i] == v[i].window
  {
    WindowsOf(v, WindowOf)
  }

  // ----- What every operation keeps -----

  /** The ID is that of an event with a reference time in the window. */
  ghost predicate FiledUnder(id: DocId, w: Window) {
    exists e: Event :: e.Valid() && e.Id() == id && w.Contains(e.time)
  }

  /** Documents are on their shards and belong to the window. */
  ghost predicate Sound(ix: Index) {
    WellRouted(ix.shards) && forall id | id in AllIds(ix.shards) :: FiledUnder(id, ix.window)
  }

  ghost predicate StoreInv(v: seq<Index>, d: int) {
    Tiled(WindowList(v), d) && forall i | 0 <= i < |v| :: Sound(v[i])
  }

  // ----- Creating an index -----

  function Created(v: seq<Index>, w: Window, numShards: nat): seq<Index> {
    InsertAt(v, Position(WindowList(v), w), Index(w, Empty(numShards)))
  }

  lemma {:induction false} EmptyHasNoIds(n: nat)
    ensures AllIds(Empty(n)) == {}
  {
    forall id ensures id !in AllIds(Empty(n)) { InAllIds(Empty(n), id); }
  }

  lemma CreatedWindows(v: seq<Index>, w: Window, numShards: nat)
    ensures WindowList(Created(v, w, numShards)) == InsertAt(WindowList(v), Position(WindowList(v), w), w)
  {
  }

  /** Creating the window for a reference time that none contains keeps the store as it should be. */
  lemma CreateKeepsInv(v: seq<Index>, t: Time, d: int, numShards: nat)
    requires StoreInv(v, d) && numShards > 0 && Find(WindowList(v), t) == |v|
    ensures var r := RequestFor(WindowList(v), t, d);
            && r.Granted? && r.window.Contains(t) && Aligned(r.window, d)
            && StoreInv(Created(v, r.window, numShards), d)
  {
    var ws := WindowList(v);
    AlignedRequest(ws, t, d);
    var w := RequestFor(ws, t, d).window;
    InsertKeepsTiled(ws, w, d);
    CreatedWindows(v, w, numShards);
    CreatedSound(v, w, numShards);
  }

  lemma CreatedSound(v: seq<Index>, w: Window, numShards: nat)
    requires numShards > 0 && forall i | 0 <= i < |v| :: Sound(v[i])
    ensures var r := Created(v, w, numShards); forall i | 0 <= i < |r| :: Sound(r[i])
  {
    EmptyHasNoIds(numShards);
    var k, r := Position(WindowList(v), w), Created(v, w, numShards);
    forall i | 0 <= i < |r| ensures Sound(r[i]) {
      assert r[i] == if i < k then v[i] else if i == k then Index(w, Empty(numShards)) else v[i - 1];
    }
  }

  // ----- Filing events -----

  ghost predicate AllValid(events: seq<Event>) {
    forall i | 0 <= i < |events| :: events[i].Valid()
  }

  /** The documents of the events that fall into the window, in order. */
  function DocsFor(events: seq<Event>, w: Window): seq<Document>
    requires AllValid(events)
  {
    if events == [] then []
    else
      var e, front := events[|events| - 1], DocsFor(events[..|events| - 1], w);
      if w.Contains(e.time) then front + [e.Doc()] else front
  }

  function Filed(ix: Index, docs: seq<Document>): Index {
    ix.(shards := WriteSharded(ix.shards, docs))
  }

  ghost predicate DocsBelong(docs: seq<Document>, w: Window) {
    forall d | d in docs :: FiledUnder(d.id, w)
  }

  lemma FileKeepsSound(ix: Index, docs: seq<Document>)
    requires Sound(ix) && DocsBelong(docs, ix.window)
    ensures Sound(Filed(ix, docs))
    ensures AllIds(Filed(ix, docs).shards) == AllIds(ix.shards) + set d | d in docs :: d.id
  {
    WriteKeepsRouted(ix.shards, docs);
    WriteShardedIds(ix.shards, docs);
  }

  /** The index after the documents of one shard have been written. */
  function FiledOn(ix: Index, k: nat, docs: seq<Document>): Index
    requires k < |ix.shards|
  {
    ix.(shards := WriteOn(ix.shards, k, docs))
  }

  lemma FileOnKeepsSound(ix: Index, k: nat, docs: seq<Document>)
    requires Sound(ix) && DocsBelong(docs, ix.window) && k < |ix.shards|
    ensures Sound(FiledOn(ix, k, docs))
  {
    WriteOnKeepsRouted(ix.shards, k, docs);
    forall id | id in AllIds(FiledOn(ix, k, docs).shards) ensures FiledUnder(id, ix.window) {
      WriteOnIds(ix.shards, k, docs, id);
    }
  }

  lemma {:induction false} DocsForBelong(events: seq<Event>, w: Window)
    requires AllValid(events)
    ensures DocsBelong(DocsFor(events, w), w)
  {
    if events != [] {
      DocsForBelong(events[..|events| - 1], w);
    }
  }

  // ----- Searching -----

  /** What the search library answers for one index: an error, or hits of which the first `readable`, after sorting,
      can be read. */
  datatype Answer = SearchFailed | Found(hits: seq<DocId>, readable: nat)

  predicate Insertable(ids: seq<DocId>) {
    forall i | 0 <= i < |ids| :: WellFormed(ids[i])
  }

  /** The order of IDs; those that cannot be compared are in no order. */
  const ID_ORDER: (DocId, DocId) -> bool := (x, y) => WellFormed(x) && WellFormed(y) && IdLess(x, y)

  /** The hits in ascending order. */
  function SortIds(ids: seq<DocId>): (r: seq<DocId>)
    requires Insertable(ids)
    ensures Insertable(r) && |r| == |ids|
  {
    SortingKeepsIds(ids);
    SortBy(ids, ID_ORDER)
  }

  lemma IdOrderIsStrict()
    ensures StrictOrder(ID_ORDER)
  {
    forall x, y, z ensures !ID_ORDER(x, x) && (ID_ORDER(x, y) && ID_ORDER(y, z) ==> ID_ORDER(x, z)) {
      if WellFormed(x) && WellFormed(y) && WellFormed(z) { LessIsStrictOrder(x, y, z); }
    }
  }

  lemma SortingKeepsIds(ids: seq<DocId>)
    requires Insertable(ids)
    ensures Insertable(SortBy(ids, ID_ORDER))
  {
    IdOrderIsStrict();
    SortBySorts(ids, ID_ORDER);
    var r := SortBy(ids, ID_ORDER);
    forall i | 0 <= i < |r| ensures WellFormed(r[i]) {
      assert r[i] in multiset(ids);
      var j :| 0 <= j < |ids| && ids[j] == r[i];
    }
  }

  predicate PageReadable(a: Answer) {
    a.Found? && Insertable(a.hits) && a.readable <= |a.hits|
  }

  /** What is shown of one index. */
  function Page(a: Answer): seq<DocId>
    requires PageReadable(a)
  {
    SortIds(a.hits)[..a.readable]
  }

  predicate Readable(answers: seq<Answer>) {
    forall i | 0 <= i < |answers| :: answers[i].Found? ==> PageReadable(answers[i])
  }

  /** The IDs of the documents sent back: the indexes from the oldest, which is last, to the newest, up to the first
      that cannot be searched. */
  function Emitted(answers: seq<Answer>): seq<DocId>
    requires Readable(answers)
  {
    if answers == [] || answers[|answers| - 1].SearchFailed? then []
    else Page(answers[|answers| - 1]) + Emitted(answers[..|answers| - 1])
  }

  // ----- Sorting -----

  ghost predicate Ascending(ids: seq<DocId>)
    requires Insertable(ids)
  {
    forall i, j | 0 <= i < j < |ids| :: !IdLess(ids[j], ids[i])
  }

  lemma SortSorts(ids: seq<DocId>)
    requires Insertable(ids)
    ensures Ascending(SortIds(ids)) && multiset(SortIds(ids)) == multiset(ids)
  {
    IdOrderIsStrict();
    SortBySorts(ids, ID_ORDER);
    var r := SortIds(ids);
    forall i, j | 0 <= i < j < |r| ensures !IdLess(r[j], r[i]) { assert !ID_ORDER(r[j], r[i]); }
  }

  // ----- The order in which documents come back -----

  function Signed(u: nat): int {
    if u < TWO_63 then u else u - TWO_64
  }

  /** The reference time and sequence number that an ID stands for. */
  function TimeOf(id: DocId): int
    requires WellFormed(id)
  {
    Signed(Split(id).hi)
  }

  function SequenceOf(id: DocId): int
    requires WellFormed(id)
  {
    Signed(Split(id).lo)
  }

  lemma DecodeId(e: Event)
    requires e.Valid()
    ensures WellFormed(e.Id()) && TimeOf(e.Id()) == e.time && SequenceOf(e.Id()) == e.sequence
  {
    SplitEventId(e.time, e.sequence);
  }

  /** The event of x occurred before that of y. */
  predicate Precedes(x: DocId, y: DocId)
    requires WellFormed(x) && WellFormed(y)
  {
    Before(TimeOf(x), SequenceOf(x), TimeOf(y), SequenceOf(y))
  }

  predicate Alike(x: DocId, y: DocId)
    requires WellFormed(x) && WellFormed(y)
  {
    SameSide(TimeOf(x), SequenceOf(x), TimeOf(y), SequenceOf(y))
  }

  ghost predicate Chronological(ids: seq<DocId>)
    requires Insertable(ids)
  {
    forall i, j | 0 <= i < j < |ids| :: Precedes(ids[i], ids[j])
  }

  /** No two documents of the list stand on different sides of 1970 or, at the same time, of sequence number 0. */
  ghost predicate AllAlike(ids: seq<DocId>)
    requires Insertable(ids)
  {
    forall i, j | 0 <= i < j < |ids| :: Alike(ids[i], ids[j])
  }

  /** The hits of an index are different documents that it holds. */
  ghost predicate AnswersFor(v: seq<Index>, answers: seq<Answer>) {
    && |answers| == |v|
    && forall i | 0 <= i < |v| && answers[i].Found? ::
         && answers[i].readable <= |answers[i].hits|
         && NoDuplicates(answers[i].hits)
         && forall id | id in answers[i].hits :: id in AllIds(v[i].shards)
  }

  /** All the IDs are those of events in the window. */
  ghost predicate AllFiled(ids: seq<DocId>, w: Window) {
    forall i | 0 <= i < |ids| :: FiledUnder(ids[i], w)
  }

  lemma FiledFacts(id: DocId, w: Window)
    requires FiledUnder(id, w)
    ensures WellFormed(id) && w.Contains(TimeOf(id))
    ensures IsInt64(TimeOf(id)) && IsInt64(SequenceOf(id)) && id == EventId(TimeOf(id), SequenceOf(id))
  {
    var e: Event :| e.Valid() && e.Id() == id && w.Contains(e.time);
    DecodeId(e);
  }

  /** Two different documents of one index, in the order of their IDs, are in the order of their events exactly if they
      stand on the same side. */
  lemma PairInOrder(x: DocId, y: DocId, w: Window)
    requires FiledUnder(x, w) && FiledUnder(y, w) && x != y
    ensures WellFormed(x) && WellFormed(y)
    ensures !IdLess(y, x) ==> (Precedes(x, y) <==> Alike(x, y))
  {
    FiledFacts(x, w);
    FiledFacts(y, w);
    IdOrderIsTimeOrderIff(TimeOf(x), SequenceOf(x), TimeOf(y), SequenceOf(y));
    IdOrderIsTimeOrderIff(TimeOf(y), SequenceOf(y), TimeOf(x), SequenceOf(x));
    LessIsStrictOrder(x, y, x);
    SplitEventId(TimeOf(x), SequenceOf(x));
    SplitEventId(TimeOf(y), SequenceOf(y));
  }

  lemma PageFiled(hits: seq<DocId>, w: Window)
    requires AllFiled(hits, w) && NoDuplicates(hits)
    ensures Insertable(hits) && AllFiled(SortIds(hits), w) && NoDuplicates(SortIds(hits)) && Ascending(SortIds(hits))
  {
    forall i | 0 <= i < |hits| ensures WellFormed(hits[i]) { FiledFacts(hits[i], w); }
    SortSorts(hits);
    var r := SortIds(hits);
    forall i | 0 <= i < |r| ensures FiledUnder(r[i], w) {
      assert r[i] in multiset(r);
      var k :| 0 <= k < |hits| && hits[k] == r[i];
    }
    UniqueStaysUnique(hits, r);
  }

  /** IDs of events that stand neither in front of nor behind each other are the same. */
  lemma FiledTies(x: DocId, y: DocId, w: Window)
    requires FiledUnder(x, w) && FiledUnder(y, w)
    ensures WellFormed(x) && WellFormed(y) && (!IdLess(x, y) && !IdLess(y, x) ==> x == y)
  {
    FiledFacts(x, w);
    FiledFacts(y, w);
    LessIsStrictOrder(x, y, x);
  }

  /** There is only one ascending arrangement of the hits of an index, so the sorting algorithm does not matter. */
  lemma AscendingIsUnique(r: seq<DocId>, s: seq<DocId>, w: Window)
    requires AllFiled(r, w) && AllFiled(s, w) && multiset(r) == multiset(s)
    requires Insertable(r) && Insertable(s) && Ascending(r) && Ascending(s)
    ensures r == s
  {
    forall i, j | 0 <= i < |s| && 0 <= j < |s| && !ID_ORDER(s[i], s[j]) && !ID_ORDER(s[j], s[i])
      ensures s[i] == s[j]
    {
      FiledTies(s[i], s[j], w);
    }
    OrderedIsUnique(r, s, ID_ORDER);
  }

  /** One page is in the order of events exactly if all its documents stand on the same side. */
  lemma PageChronologicalIff(ids: seq<DocId>, w: Window)
    requires Insertable(ids) && AllFiled(ids, w) && NoDuplicates(ids) && Ascending(ids)
    ensures Chronological(ids) <==> AllAlike(ids)
  {
    forall i, j | 0 <= i < j < |ids| ensures Precedes(ids[i], ids[j]) <==> Alike(ids[i], ids[j]) {
      PairInOrder(ids[i], ids[j], w);
    }
  }

  ghost predicate PageAlike(a: Answer)
    requires PageReadable(a)
  {
    Insertable(Page(a)) && AllAlike(Page(a))
  }

  /** Every page that is shown is all alike. */
  ghost predicate PagesAlike(answers: seq<Answer>)
    requires Readable(answers)
  {
    if answers == [] || answers[|answers| - 1].SearchFailed? then true
    else PageAlike(answers[|answers| - 1]) && PagesAlike(answers[..|answers| - 1])
  }

  /** What is shown of an index with window w: different documents of that window, in ascending order. */
  ghost predicate PageOk(a: Answer, w: Window) {
    a.Found? ==>
      && PageReadable(a)
      && Insertable(Page(a)) && AllFiled(Page(a), w) && NoDuplicates(Page(a)) && Ascending(Page(a))
  }

  ghost predicate PagesOk(ws: seq<Window>, answers: seq<Answer>) {
    |ws| == |answers| && forall i | 0 <= i < |ws| :: PageOk(answers[i], ws[i])
  }

  lemma AnswerIsOk(ix: Index, a: Answer)
    requires Sound(ix) && (a.Found? ==> a.readable <= |a.hits| && NoDuplicates(a.hits))
    requires a.Found? ==> forall id | id in a.hits :: id in AllIds(ix.shards)
    ensures PageOk(a, ix.window)
  {
    if a.Found? {
      forall j | 0 <= j < |a.hits| ensures FiledUnder(a.hits[j], ix.window) { assert a.hits[j] in a.hits; }
      PageFiled(a.hits, ix.window);
    }
  }

  lemma AnswersAreOk(v: seq<Index>, answers: seq<Answer>)
    requires AnswersFor(v, answers) && forall i | 0 <= i < |v| :: Sound(v[i])
    ensures PagesOk(WindowList(v), answers) && Readable(answers)
  {
    forall i | 0 <= i < |v| ensures PageOk(answers[i], v[i].window) { AnswerIsOk(v[i], answers[i]); }
  }

  ghost predicate NotBefore(ids: seq<DocId>, bound: Time)
    requires Insertable(ids)
  {
    forall i | 0 <= i < |ids| :: bound <= TimeOf(ids[i])
  }

  lemma PagesOkFront(ws: seq<Window>, answers: seq<Answer>)
    requires PagesOk(ws, answers) && Readable(answers) && ws != []
    ensures var n := |ws| - 1;
            && PagesOk(ws[..n], answers[..n]) && Readable(answers[..n])
            && PageOk(answers[n], ws[n])
            && (Descending(ws) ==> Descending(ws[..n]) && forall i | 0 <= i < n :: ws[n].end <= ws[..n][i].start)
  {
    var n := |ws| - 1;
    assert forall i | 0 <= i < n :: ws[..n][i] == ws[i] && answers[..n][i] == answers[i];
  }

  /** Nothing comes back from before the earliest window that is searched. */
  lemma {:induction false} EmittedNotBefore(ws: seq<Window>, answers: seq<Answer>, bound: Time)
    requires PagesOk(ws, answers) && Readable(answers) && forall i | 0 <= i < |ws| :: bound <= ws[i].start
    ensures Insertable(Emitted(answers)) && NotBefore(Emitted(answers), bound)
    decreases |ws|
  {
    if ws != [] && answers[|ws| - 1].Found? {
      var n := |ws| - 1;
      PagesOkFront(ws, answers);
      EmittedNotBefore(ws[..n], answers[..n], bound);
      FiledNotBefore(Page(answers[n]), ws[n]);
      NotBeforeAppend(Page(answers[n]), Emitted(answers[..n]), bound);
    }
  }

  lemma NotBeforeAppend(a: seq<DocId>, b: seq<DocId>, bound: Time)
    requires Insertable(a) && Insertable(b) && NotBefore(a, bound) && NotBefore(b, bound)
    ensures Insertable(a + b) && NotBefore(a + b, bound)
  {
  }

  lemma FiledNotBefore(ids: seq<DocId>, w: Window)
    requires AllFiled(ids, w)
    ensures Insertable(ids) && NotBefore(ids, w.start) && forall i | 0 <= i < |ids| :: TimeOf(ids[i]) < w.end
  {
    forall i | 0 <= i < |ids| ensures WellFormed(ids[i]) && w.Contains(TimeOf(ids[i])) { FiledFacts(ids[i], w); }
  }

  lemma OlderThenNewer(a: seq<DocId>, b: seq<DocId>, bound: Time)
    requires Insertable(a) && Insertable(b) && NotBefore(b, bound)
    requires forall i | 0 <= i < |a| :: TimeOf(a[i]) < bound
    ensures Insertable(a + b) && (Chronological(a + b) <==> Chronological(a) && Chronological(b))
  {
    var r := a + b;
    assert forall i | 0 <= i < |r| :: r[i] == if i < |a| then a[i] else b[i - |a|];
    if Chronological(r) {
      forall i, j | 0 <= i < j < |a| ensures Precedes(a[i], a[j]) { assert Precedes(r[i], r[j]); }
      forall i, j | 0 <= i < j < |b| ensures Precedes(b[i], b[j]) { assert Precedes(r[|a| + i], r[|a| + j]); }
    }
  }

  /** The two sides of the main result, for what is shown by a list of answers. */
  ghost predicate OrderedIffAlike(answers: seq<Answer>)
    requires Readable(answers)
  {
    Insertable(Emitted(answers)) && (Chronological(Emitted(answers)) <==> PagesAlike(answers))
  }

  lemma {:induction false} EmittedChronologicalIff(ws: seq<Window>, answers: seq<Answer>)
    requires PagesOk(ws, answers) && Readable(answers) && Descending(ws)
    ensures OrderedIffAlike(answers)
    decreases |ws|
  {
    if ws != [] && answers[|ws| - 1].Found? {
      var n := |ws| - 1;
      PagesOkFront(ws, answers);
      EmittedChronologicalIff(ws[..n], answers[..n]);
      PageInFront(ws, answers);
    } else {
      NothingShown(answers);
    }
  }

  lemma PageInFront(ws: seq<Window>, answers: seq<Answer>)
    requires PagesOk(ws, answers) && Readable(answers) && Descending(ws) && ws != [] && answers[|ws| - 1].Found?
    requires OrderedIffAlike(answers[..|ws| - 1])
    ensures OrderedIffAlike(answers)
  {
    var n := |ws| - 1;
    PagesOkFront(ws, answers);
    EmittedNotBefore(ws[..n], answers[..n], ws[n].end);
    PageThenNewer(Page(answers[n]), Emitted(answers[..n]), ws[n]);
    OnePageMore(answers);
  }

  lemma NothingShown(answers: seq<Answer>)
    requires Readable(answers) && (answers == [] || answers[|answers| - 1].SearchFailed?)
    ensures OrderedIffAlike(answers)
  {
  }

  lemma OnePageMore(answers: seq<Answer>)
    requires Readable(answers) && answers != [] && answers[|answers| - 1].Found?
    requires OrderedIffAlike(answers[..|answers| - 1])
    requires var page, rest := Page(answers[|answers| - 1]), Emitted(answers[..|answers| - 1]);
             && Insertable(page) && Insertable(page + rest)
             && (Chronological(page + rest) <==> AllAlike(page) && Chronological(rest))
    ensures OrderedIffAlike(answers)
  {
  }

  /** A page of one window, followed by documents of newer windows. */
  lemma PageThenNewer(page: seq<DocId>, rest: seq<DocId>, w: Window)
    requires Insertable(page) && AllFiled(page, w) && NoDuplicates(page) && Ascending(page)
    requires Insertable(rest) && NotBefore(rest, w.end)
    ensures Insertable(page + rest) && (Chronological(page + rest) <==> AllAlike(page) && Chronological(rest))
  {
    PageChronologicalIff(page, w);
    FiledNotBefore(page, w);
    OlderThenNewer(page, rest, w.end);
  }

  /** For given answers, the results are in the order of events exactly if every page that is shown is all alike. */
  lemma EmittedInOrderIff(v: seq<Index>, d: int, answers: seq<Answer>)
    requires StoreInv(v, d) && AnswersFor(v, answers)
    ensures Readable(answers) && Insertable(Emitted(answers))
    ensures Chronological(Emitted(answers)) <==> PagesAlike(answers)
  {
    AnswersAreOk(v, answers);
    EmittedChronologicalIff(WindowList(v), answers);
  }

  lemma FrontKeepsInv(v: seq<Index>, d: int, n: nat)
    requires StoreInv(v, d) && n <= |v|
    ensures StoreInv(v[..n], d)
    ensures n < |v| ==> forall i | 0 <= i < n :: v[n].window.end <= v[..n][i].window.start
  {
    assert WindowList(v[..n]) == WindowList(v)[..n];
    forall i | 0 <= i < n && n < |v| ensures v[n].window.end <= v[..n][i].window.start {
      assert WindowList(v)[n].end <= WindowList(v)[i].start;
    }
  }

  // ----- Whatever a search finds -----

  /** The documents come back in the order in which their events occurred. */
  ghost predicate InOrder(answers: seq<Answer>) {
    Readable(answers) && Insertable(Emitted(answers)) && Chronological(Emitted(answers))
  }

  /** Whatever is found, it comes back in order. */
  ghost predicate AlwaysInOrder(v: seq<Index>) {
    forall answers | AnswersFor(v, answers) :: InOrder(answers)
  }

  /** The index holds no two documents on different sides of 1970 or, at the same time, of sequence number 0. */
  ghost predicate AlikeIndex(ix: Index) {
    forall x, y | x in AllIds(ix.shards) && y in AllIds(ix.shards) :: BothAlike(x, y)
  }

  predicate BothAlike(x: DocId, y: DocId) {
    WellFormed(x) && WellFormed(y) && Alike(x, y)
  }

  ghost predicate HeldAlike(v: seq<Index>) {
    forall i | 0 <= i < |v| :: AlikeIndex(v[i])
  }

  ghost predicate AlikeHits(a: Answer) {
    a.Found? ==> Insertable(a.hits) && forall x, y | x in a.hits && y in a.hits :: Alike(x, y)
  }

  lemma {:induction false} AlikeHitsAlikePages(answers: seq<Answer>)
    requires Readable(answers) && forall i | 0 <= i < |answers| :: AlikeHits(answers[i])
    ensures PagesAlike(answers)
    decreases |answers|
  {
    if answers != [] && answers[|answers| - 1].Found? {
      var n := |answers| - 1;
      AlikeHitsAlikePages(answers[..n]);
      assert AlikeHits(answers[n]);
      AlikePage(answers[n]);
    }
  }

  lemma AlikePage(a: Answer)
    requires PageReadable(a) && AlikeHits(a)
    ensures PageAlike(a)
  {
    SortSorts(a.hits);
    var r := SortIds(a.hits);
    forall i | 0 <= i < |r| ensures r[i] in a.hits { assert r[i] in multiset(r); }
  }

  /** An answer that finds two documents in one index and nothing in the others. */
  function Pair(n: nat, i: nat, x: DocId, y: DocId): seq<Answer> {
    seq(n, j requires 0 <= j < n => if j == i then Found([x, y], 2) else Found([], 0))
  }

  lemma PageOfTwo(x: DocId, y: DocId)
    requires WellFormed(x) && WellFormed(y)
    ensures PageReadable(Found([x, y], 2)) && Page(Found([x, y], 2)) == if IdLess(x, y) then [x, y] else [y, x]
  {
    var hits := [x, y];
    assert hits[1..] == [y] && [y][1..] == [];
    assert SortBy([y], ID_ORDER) == InsertBy([], y, ID_ORDER) == [y];
    assert InsertBy([], x, ID_ORDER) == [x];
    var r := SortIds(hits);
    assert r == InsertBy([y], x, ID_ORDER) == if IdLess(x, y) then [x] + [y] else [y] + [x];
    assert r[..2] == r;
  }

  lemma PairIsAnswer(v: seq<Index>, i: nat, x: DocId, y: DocId)
    requires i < |v| && x in AllIds(v[i].shards) && y in AllIds(v[i].shards) && x != y
    ensures AnswersFor(v, Pair(|v|, i, x, y))
  {
  }

  lemma PageOfNone()
    ensures PageReadable(Found([], 0)) && Page(Found([], 0)) == []
  {
  }

  /** The answers without the last. */
  lemma PairFront(n: nat, i: nat, x: DocId, y: DocId)
    requires n > 0
    ensures Pair(n, i, x, y)[..n - 1] == Pair(n - 1, i, x, y)
    ensures Pair(n, i, x, y)[n - 1] == if i == n - 1 then Found([x, y], 2) else Found([], 0)
  {
  }

  lemma {:induction false} PairEmits(n: nat, i: nat, x: DocId, y: DocId)
    requires WellFormed(x) && WellFormed(y)
    ensures Readable(Pair(n, i, x, y))
    ensures Emitted(Pair(n, i, x, y)) == if i < n then (if IdLess(x, y) then [x, y] else [y, x]) else []
    decreases n
  {
    if n > 0 {
      PairEmits(n - 1, i, x, y);
      PageOfTwo(x, y);
      PageOfNone();
      PairFront(n, i, x, y);
    }
  }

  lemma PairShowsDifference(v: seq<Index>, d: int, i: nat, x: DocId, y: DocId)
    requires StoreInv(v, d) && i < |v| && x in AllIds(v[i].shards) && y in AllIds(v[i].shards)
    requires WellFormed(x) && WellFormed(y) && !Alike(x, y)
    ensures AnswersFor(v, Pair(|v|, i, x, y)) && !InOrder(Pair(|v|, i, x, y))
  {
    PairIsAnswer(v, i, x, y);
    PairEmits(|v|, i, x, y);
    assert Sound(v[i]);
    PairInOrder(x, y, v[i].window);
    PairInOrder(y, x, v[i].window);
    TwoNotChronological(x, y);
    if IdLess(x, y) { LessIsStrictOrder(x, y, x); }
  }

  lemma TwoNotChronological(x: DocId, y: DocId)
    requires WellFormed(x) && WellFormed(y)
    ensures Insertable([x, y]) && (Chronological([x, y]) <==> Precedes(x, y))
    ensures Insertable([y, x]) && (Chronological([y, x]) <==> Precedes(y, x))
  {
    assert Chronological([x, y]) ==> Precedes([x, y][0], [x, y][1]);
    assert Chronological([y, x]) ==> Precedes([y, x][0], [y, x][1]);
  }

  lemma HitsAreAlike(v: seq<Index>, answers: seq<Answer>, i: nat)
    requires AnswersFor(v, answers) && HeldAlike(v) && i < |v|
    ensures AlikeHits(answers[i])
  {
    assert AlikeIndex(v[i]);
    if answers[i].Found? {
      forall x, y | x in answers[i].hits && y in answers[i].hits ensures BothAlike(x, y) {
        assert x in AllIds(v[i].shards) && y in AllIds(v[i].shards);
      }
      forall j | 0 <= j < |answers[i].hits| ensures WellFormed(answers[i].hits[j]) {
        assert BothAlike(answers[i].hits[j], answers[i].hits[j]);
      }
    }
  }

  lemma AlikeIsInOrder(v: seq<Index>, d: int, answers: seq<Answer>)
    requires StoreInv(v, d) && HeldAlike(v) && AnswersFor(v, answers)
    ensures InOrder(answers)
  {
    EmittedInOrderIff(v, d, answers);
    forall i | 0 <= i < |answers| ensures AlikeHits(answers[i]) { HitsAreAlike(v, answers, i); }
    AlikeHitsAlikePages(answers);
  }

  lemma DifferenceShows(v: seq<Index>, d: int, i: nat)
    requires StoreInv(v, d) && i < |v| && !AlikeIndex(v[i])
    ensures !AlwaysInOrder(v)
  {
    var ix := v[i];
    assert Sound(ix);
    var x, y :| x in AllIds(ix.shards) && y in AllIds(ix.shards) && !BothAlike(x, y);
    FiledFacts(x, ix.window);
    FiledFacts(y, ix.window);
    PairShowsDifference(v, d, i, x, y);
  }

  /** Whatever a search finds comes back in the order in which the messages occurred, over all windows and shards, if
      and only if no index holds two documents on different sides of 1970 or, at one time, of sequence number 0. */
  lemma SearchIsChronologicalIff(v: seq<Index>, d: int)
    requires StoreInv(v, d)
    ensures AlwaysInOrder(v) <==> HeldAlike(v)
  {
    if HeldAlike(v) {
      forall answers | AnswersFor(v, answers) ensures InOrder(answers) { AlikeIsInOrder(v, d, answers); }
    } else {
      var i :| 0 <= i < |v| && !AlikeIndex(v[i]);
      DifferenceShows(v, d, i);
    }
  }

  // ----- Exactly what is sent, and in which order -----

  /** The hits that sort in front of the ID. */
  ghost function Ahead(hits: seq<DocId>, id: DocId): set<DocId> {
    set x | x in hits && ID_ORDER(x, id)
  }

  /** No index from the last one down to this one fails to be searched. */
  predicate Reached(answers: seq<Answer>, i: nat) {
    i < |answers| && forall j | i <= j < |answers| :: answers[j].Found?
  }

  /** The document is a hit of an index that is reached, and fewer hits of that index sort in front of it than can be
      read. */
  ghost predicate IsSent(answers: seq<Answer>, id: DocId) {
    exists i: nat :: Reached(answers, i) && AmongFirst(answers[i], id)
  }

  ghost predicate AmongFirst(a: Answer, id: DocId)
    requires a.Found?
  {
    id in a.hits && |Ahead(a.hits, id)| < a.readable
  }

  /** The first document is a hit of an older index, which stands further back in the list, or of the same one and sorts
      in front of the second. */
  ghost predicate SentBefore(answers: seq<Answer>, x: DocId, y: DocId) {
    exists i: nat, j: nat :: IsHit(answers, i, x) && IsHit(answers, j, y) && (j < i || (j == i && ID_ORDER(x, y)))
  }

  predicate IsHit(answers: seq<Answer>, i: nat, id: DocId) {
    i < |answers| && answers[i].Found? && id in answers[i].hits
  }

  /** These documents are sent and no others, each once, in this order. */
  ghost predicate SentExactly(answers: seq<Answer>, ids: seq<DocId>) {
    && NoDuplicates(ids)
    && (forall id :: id in ids <==> IsSent(answers, id))
    && (forall p, q | 0 <= p < q < |ids| :: SentBefore(answers, ids[p], ids[q]))
  }

  /** The hits of an index with window w. */
  ghost predicate HitsOk(a: Answer, w: Window) {
    a.Found? ==> PageReadable(a) && AllFiled(a.hits, w) && NoDuplicates(a.hits)
  }

  /** Different documents of one index, in ascending order, are strictly ascending. */
  lemma StrictlyAscending(r: seq<DocId>, w: Window, i: nat, j: nat)
    requires Insertable(r) && AllFiled(r, w) && NoDuplicates(r) && Ascending(r) && i < |r| && j < |r|
    ensures ID_ORDER(r[i], r[j]) <==> i < j
  {
    LessIsStrictOrder(r[i], r[i], r[i]);
    if i < j { FiledTies(r[i], r[j], w); }
  }

  /** As many hits sort in front of a document as stand in front of it in the sorted list. */
  lemma AheadInSorted(hits: seq<DocId>, r: seq<DocId>, w: Window, k: nat)
    requires Insertable(r) && AllFiled(r, w) && NoDuplicates(r) && Ascending(r) && k < |r|
    requires multiset(hits) == multiset(r)
    ensures |Ahead(hits, r[k])| == k
  {
    var front := r[..k];
    SetOfDistinct(front);
    forall x ensures x in Ahead(hits, r[k]) <==> x in front {
      assert x in hits <==> x in multiset(hits);
      assert x in r <==> x in multiset(r);
      if x in r {
        var m :| 0 <= m < |r| && r[m] == x;
        StrictlyAscending(r, w, m, k);
        if m < k { assert front[m] == x; }
      }
    }
    assert Ahead(hits, r[k]) == set x | x in front;
  }

  /** The page holds exactly the hits that are among the first, in strictly ascending order. */
  lemma PageIsExact(a: Answer, w: Window)
    requires a.Found? && HitsOk(a, w)
    ensures NoDuplicates(Page(a)) && AllFiled(Page(a), w) && Insertable(Page(a))
    ensures forall id :: id in Page(a) <==> AmongFirst(a, id)
    ensures forall p, q | 0 <= p < q < |Page(a)| :: ID_ORDER(Page(a)[p], Page(a)[q])
  {
    PageFiled(a.hits, w);
    SortSorts(a.hits);
    var r, page := SortIds(a.hits), Page(a);
    forall id ensures id in page <==> AmongFirst(a, id) {
      assert id in a.hits <==> id in multiset(a.hits);
      assert id in r <==> id in multiset(r);
      if id in r {
        var k :| 0 <= k < |r| && r[k] == id;
        AheadInSorted(a.hits, r, w, k);
        if k < a.readable { assert page[k] == id; }
      }
    }
    forall p, q | 0 <= p < q < |page| ensures ID_ORDER(page[p], page[q]) { StrictlyAscending(r, w, p, q); }
  }

  lemma ReachedFront(answers: seq<Answer>, i: nat)
    requires answers != []
    ensures var n := |answers| - 1;
            Reached(answers, i) <==> answers[n].Found? && (i == n || Reached(answers[..n], i))
  {
    var n := |answers| - 1;
    assert forall j | 0 <= j < n :: answers[..n][j] == answers[j];
  }

  lemma IsSentFront(answers: seq<Answer>, id: DocId)
    requires answers != []
    ensures var n := |answers| - 1;
            IsSent(answers, id) <==>
            answers[n].Found? && (AmongFirst(answers[n], id) || IsSent(answers[..n], id))
  {
    var n := |answers| - 1;
    forall i: nat
      ensures Reached(answers, i) <==> answers[n].Found? && (i == n || Reached(answers[..n], i))
      ensures i < n ==> answers[..n][i] == answers[i]
    {
      ReachedFront(answers, i);
    }
    if answers[n].Found? && AmongFirst(answers[n], id) { assert Reached(answers, n); }
    if answers[n].Found? && IsSent(answers[..n], id) {
      var i: nat :| Reached(answers[..n], i) && AmongFirst(answers[..n][i], id);
      assert Reached(answers, i) && AmongFirst(answers[i], id);
    }
  }

  lemma SentBeforeFront(answers: seq<Answer>, x: DocId, y: DocId)
    requires answers != [] && SentBefore(answers[..|answers| - 1], x, y)
    ensures SentBefore(answers, x, y)
  {
    var front := answers[..|answers| - 1];
    var i: nat, j: nat :| IsHit(front, i, x) && IsHit(front, j, y) && (j < i || (j == i && ID_ORDER(x, y)));
    assert IsHit(answers, i, x) && IsHit(answers, j, y);
  }

  lemma SentIsHit(answers: seq<Answer>, id: DocId) returns (i: nat)
    requires IsSent(answers, id)
    ensures IsHit(answers, i, id)
  {
    i :| Reached(answers, i) && AmongFirst(answers[i], id);
  }

  ghost predicate AllHitsOk(ws: seq<Window>, answers: seq<Answer>) {
    |ws| == |answers| && forall i | 0 <= i < |ws| :: HitsOk(answers[i], ws[i])
  }

  lemma AllHitsOkFront(ws: seq<Window>, answers: seq<Answer>)
    requires AllHitsOk(ws, answers) && ws != []
    ensures AllHitsOk(ws[..|ws| - 1], answers[..|ws| - 1])
  {
  }

  /** Hits of windows that are apart are different. */
  lemma OlderIsDifferent(ws: seq<Window>, answers: seq<Answer>, i: nat, j: nat, x: DocId)
    requires AllHitsOk(ws, answers) && Descending(ws) && i < j < |ws|
    ensures !(IsHit(answers, i, x) && IsHit(answers, j, x))
  {
    assert ws[j].end <= ws[i].start;
    if IsHit(answers, i, x) {
      FiledFacts(x, ws[i]);
      if IsHit(answers, j, x) { FiledFacts(x, ws[j]); }
    }
  }

  lemma {:induction false} EmittedIsExact(ws: seq<Window>, answers: seq<Answer>)
    requires AllHitsOk(ws, answers) && Descending(ws) && Readable(answers)
    ensures SentExactly(answers, Emitted(answers))
    decreases |ws|
  {
    var n := |ws| - 1;
    if ws == [] || answers[n].SearchFailed? {
      NothingIsSent(answers);
    } else {
      AllHitsOkFront(ws, answers);
      EmittedIsExact(ws[..n], answers[..n]);
      PageIsExact(answers[n], ws[n]);
      OnePageInFront(ws, answers, Page(answers[n]), Emitted(answers[..n]));
    }
  }

  lemma NothingIsSent(answers: seq<Answer>)
    requires answers == [] || answers[|answers| - 1].SearchFailed?
    ensures SentExactly(answers, [])
  {
    forall id ensures !IsSent(answers, id) {
      if answers != [] { IsSentFront(answers, id); }
    }
  }

  lemma OnePageInFront(ws: seq<Window>, answers: seq<Answer>, page: seq<DocId>, rest: seq<DocId>)
    requires AllHitsOk(ws, answers) && Descending(ws) && ws != [] && answers[|ws| - 1].Found?
    requires SentExactly(answers[..|ws| - 1], rest) && NoDuplicates(page)
    requires forall id :: id in page <==> AmongFirst(answers[|ws| - 1], id)
    requires forall p, q | 0 <= p < q < |page| :: ID_ORDER(page[p], page[q])
    ensures SentExactly(answers, page + rest)
  {
    var n, ids := |ws| - 1, page + rest;
    forall id ensures id in ids <==> IsSent(answers, id) { IsSentFront(answers, id); }
    forall p, q | 0 <= p < q < |ids| ensures SentBefore(answers, ids[p], ids[q]) && ids[p] != ids[q] {
      if q < |page| {
        assert page[p] in page && page[q] in page;
        assert IsHit(answers, n, page[p]) && IsHit(answers, n, page[q]);
      } else {
        var y := rest[q - |page|];
        var j := SentIsHit(answers[..n], y);
        assert IsHit(answers, j, y);
        if p < |page| {
          assert page[p] in page;
          assert IsHit(answers, n, page[p]);
          OlderIsDifferent(ws, answers, j, n, y);
        } else {
          SentBeforeFront(answers, rest[p - |page|], y);
        }
      }
    }
  }

  lemma HitsAreOk(v: seq<Index>, d: int, answers: seq<Answer>)
    requires StoreInv(v, d) && AnswersFor(v, answers)
    ensures AllHitsOk(WindowList(v), answers)
  {
    forall i | 0 <= i < |v| ensures HitsOk(answers[i], v[i].window) {
      assert Sound(v[i]);
      if answers[i].Found? {
        var hits := answers[i].hits;
        forall k | 0 <= k < |hits| ensures FiledUnder(hits[k], v[i].window) && WellFormed(hits[k]) {
          assert hits[k] in hits;
          FiledFacts(hits[k], v[i].window);
        }
      }
    }
  }

  /** What is sent: of each index behind the last that fails to be searched exactly as many hits as can be read, those
      that sort first, each once; older indexes come first, and within one the hits in the order of their IDs. */
  lemma SearchSendsExactly(v: seq<Index>, d: int, answers: seq<Answer>)
    requires StoreInv(v, d) && AnswersFor(v, answers)
    ensures Readable(answers) && SentExactly(answers, Emitted(answers))
  {
    AnswersAreOk(v, answers);
    HitsAreOk(v, d, answers);
    EmittedIsExact(WindowList(v), answers);
  }

  /** All hits of all indexes. */
  function AllHits(answers: seq<Answer>): seq<DocId> {
    if answers == [] then []
    else
      var a, front := answers[|answers| - 1], AllHits(answers[..|answers| - 1]);
      if a.Found? then front + a.hits else front
  }

  predicate NothingMissing(answers: seq<Answer>) {
    forall i | 0 <= i < |answers| :: answers[i].Found? && answers[i].readable == |answers[i].hits|
  }

  /** If no index fails and every hit can be read, all hits come back. */
  lemma {:induction false} EveryHitComesBack(answers: seq<Answer>)
    requires Readable(answers) && NothingMissing(answers)
    ensures multiset(Emitted(answers)) == multiset(AllHits(answers))
    decreases |answers|
  {
    if answers != [] {
      var n := |answers| - 1;
      EveryHitComesBack(answers[..n]);
      WholePage(answers[n]);
    }
  }

  lemma WholePage(a: Answer)
    requires PageReadable(a) && a.readable == |a.hits|
    ensures multiset(Page(a)) == multiset(a.hits)
  {
    SortSorts(a.hits);
    assert SortIds(a.hits)[..|a.hits|] == SortIds(a.hits);
  }

  // ----- What is sent back -----

  function SourceIn(ix: Index, id: DocId): Source
    requires |ix.shards| > 0
  {
    match Lookup(ix.shards, id)
    case Some(source) => source
    case None => []
  }

  function Sources(ix: Index, ids: seq<DocId>): (r: seq<Source>)
    requires |ix.shards| > 0
    ensures |r| == |ids|
  {
    seq(|ids|, i requires 0 <= i < |ids| => SourceIn(ix, ids[i]))
  }

  predicate Searchable(v: seq<Index>, answers: seq<Answer>) {
    |v| == |answers| && Readable(answers) && forall i | 0 <= i < |v| :: |v[i].shards| > 0
  }

  lemma ResultsStep(v: seq<Index>, answers: seq<Answer>, n: nat)
    requires Searchable(v, answers) && n < |v|
    ensures Searchable(v[..n], answers[..n]) && Searchable(v[..n + 1], answers[..n + 1])
    ensures Results(v[..n + 1], answers[..n + 1]) ==
            if answers[n].SearchFailed? then [] else Sources(v[n], Page(answers[n])) + Results(v[..n], answers[..n])
  {
    assert v[..n + 1][..n] == v[..n] && answers[..n + 1][..n] == answers[..n];
  }

  lemma AnswersAreSearchable(v: seq<Index>, d: int, answers: seq<Answer>)
    requires StoreInv(v, d) && AnswersFor(v, answers)
    ensures Searchable(v, answers)
  {
    AnswersAreOk(v, answers);
    assert forall i | 0 <= i < |v| :: Sound(v[i]);
  }

  /** The documents sent back, in the order of their IDs in Emitted. */
  function Results(v: seq<Index>, answers: seq<Answer>): (r: seq<Source>)
    requires Searchable(v, answers)
    ensures |r| == |Emitted(answers)|
  {
    var n := |v| - 1;
    if v == [] || answers[n].SearchFailed? then []
    else Sources(v[n], Page(answers[n])) + Results(v[..n], answers[..n])
  }

  /** Some index holds the text under the ID. */
  ghost predicate HeldAs(v: seq<Index>, id: DocId, text: Source) {
    exists k | 0 <= k < |v| :: |v[k].shards| > 0 && Lookup(v[k].shards, id) == Some(text)
  }

  /** The texts are those held under the IDs, one by one. */
  ghost predicate AllHeldAs(v: seq<Index>, ids: seq<DocId>, texts: seq<Source>) {
    |ids| == |texts| && forall i | 0 <= i < |ids| :: HeldAs(v, ids[i], texts[i])
  }

  lemma PageIsHeld(v: seq<Index>, n: nat, a: Answer)
    requires n < |v| && Sound(v[n]) && PageReadable(a)
    requires forall id | id in a.hits :: id in AllIds(v[n].shards)
    ensures AllHeldAs(v, Page(a), Sources(v[n], Page(a)))
  {
    SortSorts(a.hits);
    var page, shards := Page(a), v[n].shards;
    forall i | 0 <= i < |page| ensures HeldAs(v, page[i], Sources(v[n], page)[i]) {
      assert page[i] in multiset(SortIds(a.hits));
      StoredIffFound(shards, page[i]);
      assert Lookup(shards, page[i]) == Some(Sources(v[n], page)[i]);
    }
  }

  lemma HeldInFront(v: seq<Index>, n: nat, ids: seq<DocId>, texts: seq<Source>)
    requires n <= |v| && AllHeldAs(v[..n], ids, texts)
    ensures AllHeldAs(v, ids, texts)
  {
    forall i | 0 <= i < |ids| ensures HeldAs(v, ids[i], texts[i]) {
      var k :| 0 <= k < n && |v[..n][k].shards| > 0 && Lookup(v[..n][k].shards, ids[i]) == Some(texts[i]);
      assert v[k] == v[..n][k];
    }
  }

  lemma HeldAppend(v: seq<Index>, ids: seq<DocId>, texts: seq<Source>, ids': seq<DocId>, texts': seq<Source>)
    requires AllHeldAs(v, ids, texts) && AllHeldAs(v, ids', texts')
    ensures AllHeldAs(v, ids + ids', texts + texts')
  {
  }

  lemma AnswersInFront(v: seq<Index>, answers: seq<Answer>, n: nat)
    requires AnswersFor(v, answers) && n <= |v| && forall k | 0 <= k < |v| :: Sound(v[k])
    ensures AnswersFor(v[..n], answers[..n]) && forall k | 0 <= k < n :: Sound(v[..n][k])
  {
    assert forall k | 0 <= k < n :: v[..n][k] == v[k] && answers[..n][k] == answers[k];
  }

  lemma SplitResults(v: seq<Index>, answers: seq<Answer>)
    requires Searchable(v, answers) && v != [] && answers[|v| - 1].Found?
    ensures var n := |v| - 1;
            && Searchable(v[..n], answers[..n])
            && Emitted(answers) == Page(answers[n]) + Emitted(answers[..n])
            && Results(v, answers) == Sources(v[n], Page(answers[n])) + Results(v[..n], answers[..n])
  {
    var n := |v| - 1;
    assert forall k | 0 <= k < n :: v[..n][k] == v[k] && answers[..n][k] == answers[k];
  }

  /** Each text sent back is the one stored under the ID at the same place. */
  lemma {:induction false} ResultsAreHeld(v: seq<Index>, answers: seq<Answer>)
    requires Searchable(v, answers) && AnswersFor(v, answers) && forall k | 0 <= k < |v| :: Sound(v[k])
    ensures AllHeldAs(v, Emitted(answers), Results(v, answers))
    decreases |v|
  {
    var n := |v| - 1;
    if v != [] && answers[n].Found? {
      var front, rest := v[..n], answers[..n];
      SplitResults(v, answers);
      AnswersInFront(v, answers, n);
      ResultsAreHeld(front, rest);
      HeldInFront(v, n, Emitted(rest), Results(front, rest));
      PageIsHeld(v, n, answers[n]);
      HeldAppend(v, Page(answers[n]), Sources(v[n], Page(answers[n])), Emitted(rest), Results(front, rest));
    }
  }

  // ----- Counting -----

  function TotalAll(v: seq<Index>): nat {
    if v == [] then 0 else TotalAll(v[..|v| - 1]) + TotalOf(v[|v| - 1].shards)
  }

  ghost function HeldIds(v: seq<Index>): set<DocId> {
    if v == [] then {} else HeldIds(v[..|v| - 1]) + AllIds(v[|v| - 1].shards)
  }

  lemma {:induction false} InHeldIds(v: seq<Index>, id: DocId)
    ensures id in HeldIds(v) <==> exists i | 0 <= i < |v| :: id in AllIds(v[i].shards)
    decreases |v|
  {
    if v != [] {
      var n := |v| - 1;
      InHeldIds(v[..n], id);
      assert forall i | 0 <= i < n :: v[..n][i] == v[i];
    }
  }

  /** Two windows that are apart hold no document in common. */
  lemma ApartHoldDifferent(u: Index, w: Index, id: DocId)
    requires Sound(u) && Sound(w) && Apart(u.window, w.window)
    ensures !(id in AllIds(u.shards) && id in AllIds(w.shards))
  {
    if id in AllIds(u.shards) && id in AllIds(w.shards) {
      FiledFacts(id, u.window);
      FiledFacts(id, w.window);
      assert false;
    }
  }

  /** The index at n holds nothing that one in front of it holds. */
  lemma HeldOnce(v: seq<Index>, d: int, n: nat)
    requires StoreInv(v, d) && n < |v|
    ensures HeldIds(v[..n]) !! AllIds(v[n].shards)
  {
    forall id | id in HeldIds(v[..n]) ensures id !in AllIds(v[n].shards) {
      InHeldIds(v[..n], id);
      var i :| 0 <= i < n && id in AllIds(v[..n][i].shards);
      assert WindowList(v)[n].end <= WindowList(v)[i].start;
      ApartHoldDifferent(v[i], v[n], id);
    }
  }

  lemma SizesAdd(a: set<DocId>, b: set<DocId>)
    requires a !! b
    ensures |a + b| == |a| + |b|
  {
  }

  /** No document is in two indexes, so the totals of the indexes add up to the number of documents. */
  lemma {:induction false} TotalCountsHeld(v: seq<Index>, d: int)
    requires StoreInv(v, d)
    ensures TotalAll(v) == |HeldIds(v)|
    decreases |v|
  {
    if v != [] {
      var n := |v| - 1;
      FrontKeepsInv(v, d, n);
      TotalCountsHeld(v[..n], d);
      HeldOnce(v, d, n);
      TotalCountsIds(v[n].shards);
      SizesAdd(HeldIds(v[..n]), AllIds(v[n].shards));
    }
  }

  /** These documents, and no others, are sent back of a search, in this order, each text stored under the ID at its
      place. If no index fails and all hits can be read, that is every hit. They come in the order of their events
      exactly if every page is all alike, as they are if no index holds documents on different sides. */
  ghost predicate SentBack(v: seq<Index>, answers: seq<Answer>, ids: seq<DocId>, texts: seq<Source>) {
    && SentExactly(answers, ids) && AllHeldAs(v, ids, texts)
    && (NothingMissing(answers) ==> multiset(ids) == multiset(AllHits(answers)))
    && Insertable(ids) && Readable(answers)
    && (Chronological(ids) <==> PagesAlike(answers))
    && (HeldAlike(v) ==> Chronological(ids))
  }

  lemma ResultsAreSentBack(v: seq<Index>, d: int, answers: seq<Answer>, texts: seq<Source>) returns (ids: seq<DocId>)
    requires StoreInv(v, d) && AnswersFor(v, answers) && Searchable(v, answers) && texts == Results(v, answers)
    ensures SentBack(v, answers, ids, texts) && ids == Emitted(answers)
  {
    ids := Emitted(answers);
    SearchSendsExactly(v, d, answers);
    TextsAreHeld(v, d, answers);
    EmittedInOrderIff(v, d, answers);
    if HeldAlike(v) { AlikeIsInOrder(v, d, answers); }
    if NothingMissing(answers) { EveryHitComesBack(answers); }
  }

  lemma TextsAreHeld(v: seq<Index>, d: int, answers: seq<Answer>)
    requires StoreInv(v, d) && AnswersFor(v, answers) && Searchable(v, answers)
    ensures AllHeldAs(v, Emitted(answers), Results(v, answers))
  {
    assert forall i | 0 <= i < |v| :: Sound(v[i]);
    ResultsAreHeld(v, answers);
  }
}
