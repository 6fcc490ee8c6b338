/** What holds after every interleaving of concurrent Index callers with retention passes (engine.go:225-379). */
module EngineRuns {
  import opened DocIds
  import opened Windows
  import opened Store
  import opened EventStore
  import opened EngineSteps
  import opened EngineInvariant
  import opened Wrappers

  /** For every interleaving of Index callers with retention passes, from an empty engine: the windows are aligned,
      disjoint and newest first; every event was assigned to a window that contains its reference time; and while a
      caller holds the read lock, the indexes it chose since it took the lock are still there to be written to. */
  lemma EveryInterleavingIsSafe(cfg: Config, acts: seq<Action>)
    requires cfg.Valid() && Possible(cfg, INITIAL, acts)
    ensures var st := Run(cfg, INITIAL, acts);
            && Tiled(SlotWindows(st.slots), cfg.duration)
            && (forall c, i | c in st.callers && 0 <= i < |st.callers[c].chosen| ::
                  FitsItsEvent(cfg, st.callers[c].chosen[i]))
            && LockInv(st)
            && Inv(cfg, st)
  {
    RunKeepsInv(cfg, INITIAL, acts);
    var st := Run(cfg, INITIAL, acts);
    SlotWindowsAre(st.slots);
    forall c, i | c in st.callers && 0 <= i < |st.callers[c].chosen|
      ensures FitsItsEvent(cfg, st.callers[c].chosen[i])
    {
      assert ChoiceInv(cfg, st, st.callers[c].chosen[i]);
    }
  }

  predicate FitsItsEvent(cfg: Config, ch: Choice)
    requires cfg.Valid()
  {
    ch.window.Contains(ch.event.time) && Aligned(ch.window, cfg.duration)
  }

  // ----- Nothing within the retention period is lost -----

  /** No call is running. */
  predicate Quiet(st: State) {
    st.callers == map[]
  }

  /** For every interleaving: once all calls are done, every event handed to Index is stored if it was within the
      retention period whenever a retention pass looked at the clock. */
  lemma NothingWithinThePeriodIsLost(cfg: Config, acts: seq<Action>, e: ValidEvent)
    requires cfg.Valid() && Possible(cfg, INITIAL, acts)
    requires var st := Run(cfg, INITIAL, acts); Quiet(st) && e in st.started && Within(cfg, st.latest, e)
    ensures Stored(Run(cfg, INITIAL, acts).slots, e.Id())
  {
    EveryInterleavingIsSafe(cfg, acts);
    assert Accounted(cfg, Run(cfg, INITIAL, acts), e);
  }

  /** What is stored under an ID is the text of an event with this ID that was handed to Index. */
  lemma StoredTextWasSent(cfg: Config, st: State, id: DocId, text: Source)
    requires Inv(cfg, st) && HeldAs(IndexList(st.slots), id, text)
    ensures TextFiled(st.started, id, text)
  {
    var i :| 0 <= i < |st.slots| && Lookup(st.slots[i].index.shards, id) == Some(text);
    assert TextsFiled(st.slots[i].index.shards, st.filed);
  }

  lemma StoredWasSent(cfg: Config, st: State, i: nat, id: DocId) returns (e: ValidEvent)
    requires Inv(cfg, st) && i < |st.slots| && id in AllIds(st.slots[i].index.shards)
    ensures e in st.started && e.Id() == id
  {
    var shards := st.slots[i].index.shards;
    SlotsRouted(cfg, st);
    StoredIffFound(shards, id);
    assert TextsFiled(shards, st.filed);
    e :| e in st.filed && e.Id() == id && e.text == Lookup(shards, id).value;
  }

  /** Once all calls are done, the engine's total is the number of different IDs of the events handed to it, for every
      interleaving in which they were all within the retention period at every pass. */
  lemma TotalCountsDistinctEvents(cfg: Config, acts: seq<Action>)
    requires cfg.Valid() && Possible(cfg, INITIAL, acts)
    requires var st := Run(cfg, INITIAL, acts); Quiet(st) && forall e | e in st.started :: Within(cfg, st.latest, e)
    ensures var st := Run(cfg, INITIAL, acts);
            TotalAll(IndexList(st.slots)) == |set e | e in st.started :: e.Id()|
  {
    EveryInterleavingIsSafe(cfg, acts);
    var st := Run(cfg, INITIAL, acts);
    TotalCountsHeld(IndexList(st.slots), cfg.duration);
    var held, ids := HeldIds(IndexList(st.slots)), set e | e in st.started :: e.Id();
    forall id ensures id in held <==> id in ids { HeldIffStarted(cfg, st, id); }
    assert held == ids;
  }

  lemma HeldIffStarted(cfg: Config, st: State, id: DocId)
    requires Inv(cfg, st) && Quiet(st) && forall e | e in st.started :: Within(cfg, st.latest, e)
    ensures id in HeldIds(IndexList(st.slots)) <==> exists e | e in st.started :: e.Id() == id
  {
    InHeldIds(IndexList(st.slots), id);
    if id in HeldIds(IndexList(st.slots)) {
      var i :| 0 <= i < |st.slots| && id in AllIds(IndexList(st.slots)[i].shards);
      var e := StoredWasSent(cfg, st, i, id);
    }
    if e :| e in st.started && e.Id() == id {
      assert Accounted(cfg, st, e);
      var i :| 0 <= i < |st.slots| && id in AllIds(st.slots[i].index.shards);
      assert id in AllIds(IndexList(st.slots)[i].shards);
    }
  }

  // ----- Nothing that has aged out is kept -----

  /** A retention pass removes exactly the indexes whose window, with the retention period added, has ended before the
      reading of the clock. So none is left that ended before the first reading. */
  lemma RetainRemovesAgedOut(cfg: Config, st: State, nows: seq<Time>)
    requires Inv(cfg, st) && Enabled(cfg, st, Retain(nows))
    ensures var next := Step(cfg, st, Retain(nows));
            && (forall i | 0 <= i < |st.slots| ::
                  st.slots[i] in next.slots <==> st.slots[i].index.window.end + cfg.retention >= nows[i])
            && (forall s | s in next.slots :: s in st.slots && s.index.window.end + cfg.retention >= nows[0])
  {
    var next := Step(cfg, st, Retain(nows));
    forall s ensures s in next.slots <==>
                       exists i | 0 <= i < |st.slots| ::
                         st.slots[i] == s && SlotWindow(st.slots[i]).end + cfg.retention >= nows[i]
    {
      RetainedIff(st.slots, SlotWindow, nows, cfg.retention, s);
    }
    forall s | s in next.slots ensures s in st.slots && s.index.window.end + cfg.retention >= nows[0] {
      var i :| 0 <= i < |st.slots| && st.slots[i] == s && SlotWindow(st.slots[i]).end + cfg.retention >= nows[i];
    }
  }

  // ----- The order of search results -----

  /** No two of the events fall into one window but stand on different sides of 1970 or, at the same time, of sequence
      number 0. */
  ghost predicate EventsAlike(events: set<ValidEvent>, d: int) {
    forall e, f | e in events && f in events && Truncate(e.time, d) == Truncate(f.time, d) ::
      SameSide(e.time, e.sequence, f.time, f.sequence)
  }

  lemma SlotFacts(cfg: Config, st: State, i: nat, e: ValidEvent)
    requires Inv(cfg, st) && i < |st.slots| && e.Id() in AllIds(st.slots[i].index.shards)
    ensures var w := st.slots[i].index.window; w.Contains(e.time) && w.start == Truncate(e.time, cfg.duration)
    ensures WellFormed(e.Id()) && TimeOf(e.Id()) == e.time && SequenceOf(e.Id()) == e.sequence
  {
    var w := st.slots[i].index.window;
    assert Sound(IndexList(st.slots)[i]);
    FiledFacts(e.Id(), w);
    DecodeId(e);
    SlotWindowsAre(st.slots);
    assert Aligned(SlotWindows(st.slots)[i], cfg.duration);
    AlignedTruncate(w, e.time, cfg.duration);
  }

  /** Every document of the index is of one of these events, and the event belongs there. */
  ghost predicate HoldsOnly(ix: Index, events: set<ValidEvent>, d: int) {
    forall id | id in AllIds(ix.shards) :: IdOf(events, id, ix.window.start, d)
  }

  ghost predicate IdOf(events: set<ValidEvent>, id: DocId, start: Time, d: int) {
    exists e | e in events :: e.Id() == id && Truncate(e.time, d) == start
  }

  lemma SlotHoldsOnly(cfg: Config, st: State, i: nat)
    requires Inv(cfg, st) && i < |st.slots|
    ensures HoldsOnly(st.slots[i].index, st.started, cfg.duration)
  {
    var ix := st.slots[i].index;
    forall id | id in AllIds(ix.shards) ensures IdOf(st.started, id, ix.window.start, cfg.duration) {
      var e := StoredWasSent(cfg, st, i, id);
      SlotFacts(cfg, st, i, e);
    }
  }

  lemma AlikeIds(events: set<ValidEvent>, x: DocId, y: DocId, start: Time, d: int)
    requires EventsAlike(events, d) && IdOf(events, x, start, d) && IdOf(events, y, start, d)
    ensures BothAlike(x, y)
  {
    var e :| e in events && e.Id() == x && Truncate(e.time, d) == start;
    var f :| f in events && f.Id() == y && Truncate(f.time, d) == start;
    DecodeId(e);
    DecodeId(f);
    assert SameSide(e.time, e.sequence, f.time, f.sequence);
  }

  lemma AlikeSlot(ix: Index, events: set<ValidEvent>, d: int)
    requires HoldsOnly(ix, events, d) && EventsAlike(events, d)
    ensures AlikeIndex(ix)
  {
    forall x, y | x in AllIds(ix.shards) && y in AllIds(ix.shards) ensures BothAlike(x, y) {
      AlikeIds(events, x, y, ix.window.start, d);
    }
  }

  lemma AlikeEventsAlikeStore(cfg: Config, st: State)
    requires Inv(cfg, st) && EventsAlike(st.started, cfg.duration)
    ensures HeldAlike(IndexList(st.slots))
  {
    forall i | 0 <= i < |st.slots| ensures AlikeIndex(IndexList(st.slots)[i]) {
      SlotHoldsOnly(cfg, st, i);
      AlikeSlot(st.slots[i].index, st.started, cfg.duration);
    }
  }

  /** Stored events with the same truncated time are in the same index. */
  lemma SameSlot(cfg: Config, st: State, e: ValidEvent, f: ValidEvent) returns (i: nat)
    requires Inv(cfg, st) && Stored(st.slots, e.Id()) && Stored(st.slots, f.Id())
    requires Truncate(e.time, cfg.duration) == Truncate(f.time, cfg.duration)
    ensures i < |st.slots| && e.Id() in AllIds(st.slots[i].index.shards) && f.Id() in AllIds(st.slots[i].index.shards)
  {
    i :| 0 <= i < |st.slots| && e.Id() in AllIds(st.slots[i].index.shards);
    var j :| 0 <= j < |st.slots| && f.Id() in AllIds(st.slots[j].index.shards);
    SlotFacts(cfg, st, i, e);
    SlotFacts(cfg, st, j, f);
    OneSlotPerStart(cfg, st, i, j);
  }

  lemma OneSlotPerStart(cfg: Config, st: State, i: nat, j: nat)
    requires Inv(cfg, st) && i < |st.slots| && j < |st.slots|
    requires st.slots[i].index.window.start == st.slots[j].index.window.start
    ensures i == j
  {
    var ws := SlotWindows(st.slots);
    SlotWindowsAre(st.slots);
    assert Aligned(ws[i], cfg.duration) && Aligned(ws[j], cfg.duration);
  }

  lemma AlikeStoreAlikeEvents(cfg: Config, st: State)
    requires Inv(cfg, st) && HeldAlike(IndexList(st.slots))
    requires forall e | e in st.started :: Stored(st.slots, e.Id())
    ensures EventsAlike(st.started, cfg.duration)
  {
    forall e, f | e in st.started && f in st.started && Truncate(e.time, cfg.duration) == Truncate(f.time, cfg.duration)
      ensures SameSide(e.time, e.sequence, f.time, f.sequence)
    {
      var i := SameSlot(cfg, st, e, f);
      SlotFacts(cfg, st, i, e);
      SlotFacts(cfg, st, i, f);
      assert AlikeIndex(IndexList(st.slots)[i]);
      assert BothAlike(e.Id(), f.Id());
    }
  }

  /** For every interleaving and at every moment: whatever a search finds comes back in the order in which the messages
      occurred, if the events handed to Index are alike. */
  lemma AlikeEventsSearchChronologically(cfg: Config, acts: seq<Action>)
    requires cfg.Valid() && Possible(cfg, INITIAL, acts)
    requires EventsAlike(Run(cfg, INITIAL, acts).started, cfg.duration)
    ensures AlwaysInOrder(IndexList(Run(cfg, INITIAL, acts).slots))
  {
    EveryInterleavingIsSafe(cfg, acts);
    var st := Run(cfg, INITIAL, acts);
    AlikeEventsAlikeStore(cfg, st);
    SearchIsChronologicalIff(IndexList(st.slots), cfg.duration);
  }

  /** And if they are not, the order fails: once all calls are done, and if all events were within the retention period
      at every pass, every search comes back in order if and only if the events are alike. */
  lemma EverySearchIsChronologicalIff(cfg: Config, acts: seq<Action>)
    requires cfg.Valid() && Possible(cfg, INITIAL, acts)
    requires var st := Run(cfg, INITIAL, acts); Quiet(st) && forall e | e in st.started :: Within(cfg, st.latest, e)
    ensures var st := Run(cfg, INITIAL, acts);
            AlwaysInOrder(IndexList(st.slots)) <==> EventsAlike(st.started, cfg.duration)
  {
    EveryInterleavingIsSafe(cfg, acts);
    var st := Run(cfg, INITIAL, acts);
    SearchIsChronologicalIff(IndexList(st.slots), cfg.duration);
    if EventsAlike(st.started, cfg.duration) {
      AlikeEventsAlikeStore(cfg, st);
    } else {
      forall e | e in st.started ensures Stored(st.slots, e.Id()) { NothingWithinThePeriodIsLost(cfg, acts, e); }
      if HeldAlike(IndexList(st.slots)) { AlikeStoreAlikeEvents(cfg, st); }
    }
  }

  /** Sequence numbers are counted up from the time of the start of the program, in nanoseconds, so they are not
      negative. With them the order is right for every interleaving if a window starts with 1970, as it does for the
      default duration, and for all durations if all events are from 1970 on. */
  lemma OrdinaryEventsSearchChronologically(cfg: Config, acts: seq<Action>)
    requires cfg.Valid() && Possible(cfg, INITIAL, acts)
    requires forall e | e in Run(cfg, INITIAL, acts).started :: e.sequence >= 0
    requires BoundaryAt1970(cfg.duration) || forall e | e in Run(cfg, INITIAL, acts).started :: e.time >= 0
    ensures AlwaysInOrder(IndexList(Run(cfg, INITIAL, acts).slots))
  {
    var started, d := Run(cfg, INITIAL, acts).started, cfg.duration;
    forall e, f | e in started && f in started && Truncate(e.time, d) == Truncate(f.time, d)
      ensures (e.time < 0) == (f.time < 0)
    {
      if BoundaryAt1970(d) {
        if e.time < 0 <= f.time { BoundarySeparates(e.time, f.time, d); }
        if f.time < 0 <= e.time { BoundarySeparates(f.time, e.time, d); }
      }
    }
    AlikeEventsSearchChronologically(cfg, acts);
  }

  /** Each text sent back is that of an event handed to Index, under the ID that gives it its place. */
  lemma TextsSentBackWereSent(cfg: Config, acts: seq<Action>, answers: seq<Answer>)
    requires cfg.Valid() && Possible(cfg, INITIAL, acts)
    requires AnswersFor(IndexList(Run(cfg, INITIAL, acts).slots), answers)
    ensures var st := Run(cfg, INITIAL, acts);
            var v := IndexList(st.slots);
            && Searchable(v, answers)
            && forall i | 0 <= i < |Emitted(answers)| ::
                 TextFiled(st.started, Emitted(answers)[i], Results(v, answers)[i])
  {
    EveryInterleavingIsSafe(cfg, acts);
    var st := Run(cfg, INITIAL, acts);
    var v := IndexList(st.slots);
    AnswersAreSearchable(v, cfg.duration, answers);
    ResultsAreHeld(v, answers);
    var ids, texts := Emitted(answers), Results(v, answers);
    forall i | 0 <= i < |ids| ensures TextFiled(st.started, ids[i], texts[i]) {
      assert HeldAs(v, ids[i], texts[i]);
      StoredTextWasSent(cfg, st, ids[i], texts[i]);
    }
  }

  // ----- Progress -----

  /** A step of a running call, or of a retention pass that waits. */
  predicate Advances(st: State, a: Action) {
    StepsCaller(st, a) || (a.Retain? && st.retaining)
  }

  /** The upgrade of the lock cannot deadlock, although a writer that waits keeps new readers out: as long as a call is
      running or a retention pass waits, one of them can take a step. */
  lemma NeverDeadlocked(cfg: Config, st: State)
    requires Inv(cfg, st) && (!Quiet(st) || st.retaining)
    ensures exists a :: Advances(st, a) && Enabled(cfg, st, a)
  {
    if !WriteLockFree(st) {
      var c :| c in st.callers && HoldsReadLock(st.callers[c]);
      var a := ReaderCanStep(cfg, st, c);
    } else if st.retaining {
      var nows: seq<Time> := seq(|st.slots|, _ => 0);
      assert Advances(st, Retain(nows)) && Enabled(cfg, st, Retain(nows));
    } else if WriterWaits(st) {
      var c :| c in st.callers && st.callers[c].phase == Waiting;
      assert HoldsStarted(st.callers[c], st.started);
      assert StepsCaller(st, CreateOrReuse(c)) && Enabled(cfg, st, CreateOrReuse(c));
    } else {
      var c :| c in st.callers;
      var a := if st.callers[c].phase == Relocking then Relock(c) else RequestLock(c);
      assert StepsCaller(st, a) && Enabled(cfg, st, a);
    }
  }

  /** A caller that holds the read lock never waits. */
  lemma ReaderCanStep(cfg: Config, st: State, c: nat) returns (a: Action)
    requires c in st.callers && HoldsReadLock(st.callers[c])
    ensures StepsCaller(st, a) && a.id == c && Enabled(cfg, st, a)
  {
    var caller := st.callers[c];
    if caller.phase == Reading {
      a := if caller.todo == [] then BeginWriting(c) else LookUp(c);
    } else if Targets(cfg, caller) <= caller.written {
      a := Finish(c);
    } else {
      var target :| target in Targets(cfg, caller) && target !in caller.written;
      a := WriteTo(c, target.0, target.1);
    }
  }

  function Rank(p: Phase): nat {
    match p
    case Writing => 0
    case Waiting => 1
    case Released => 2
    case Reading => 3
    case Relocking => 4
  }

  /** What a call still has to do: before it writes, its events and its phase count; while it writes, the shards. */
  function WorkLeft(cfg: Config, c: Caller): (nat, nat) {
    if c.phase == Writing then (0, |Targets(cfg, c) - c.written|) else (1, 4 * |c.todo| + Rank(c.phase))
  }

  predicate Fewer(a: (nat, nat), b: (nat, nat)) {
    a.0 < b.0 || (a.0 == b.0 && a.1 < b.1)
  }

  ghost predicate OthersStay(st: State, next: State, c: nat) {
    forall o | o in st.callers && o != c :: o in next.callers && next.callers[o] == st.callers[o]
  }

  /** Every step of a call leaves it less to do, or ends it, and leaves the other calls as they are. So a call ends
      after finitely many steps of its own, whatever the others and retention do in between. */
  lemma EveryStepAdvances(cfg: Config, st: State, a: Action)
    requires Inv(cfg, st) && StepsCaller(st, a) && Enabled(cfg, st, a)
    ensures var next := Step(cfg, st, a);
            && (a.id in next.callers ==> Fewer(WorkLeft(cfg, next.callers[a.id]), WorkLeft(cfg, st.callers[a.id])))
            && OthersStay(st, next, a.id)
  {
    match a
    case LookUp(c) => LookUpAdvances(cfg, st, c);
    case CreateOrReuse(c) => CreateAdvances(cfg, st, c);
    case WriteTo(c, key, k) => WriteAdvances(cfg, st, c, key, k);
    case _ =>
  }

  lemma LookUpAdvances(cfg: Config, st: State, c: nat)
    requires cfg.Valid() && Enabled(cfg, st, LookUp(c))
    ensures var next := Step(cfg, st, LookUp(c));
            && c in next.callers && Fewer(WorkLeft(cfg, next.callers[c]), WorkLeft(cfg, st.callers[c]))
            && OthersStay(st, next, c)
  {
  }

  lemma ChooseAdvances(cfg: Config, caller: Caller, s: Slot)
    requires caller.todo != [] && caller.phase == Waiting
    ensures Fewer(WorkLeft(cfg, Choose(caller, s, Relocking)), WorkLeft(cfg, caller))
  {
  }

  lemma CreateAdvances(cfg: Config, st: State, c: nat)
    requires cfg.Valid() && SlotsInv(cfg, st) && Enabled(cfg, st, CreateOrReuse(c))
    ensures var next := Step(cfg, st, CreateOrReuse(c));
            && c in next.callers && Fewer(WorkLeft(cfg, next.callers[c]), WorkLeft(cfg, st.callers[c]))
            && OthersStay(st, next, c)
  {
    var caller := st.callers[c];
    var e := caller.todo[0];
    var k := Find(SlotWindows(st.slots), e.time);
    if k < |st.slots| {
      ChooseAdvances(cfg, caller, st.slots[k]);
    } else {
      NewSlotInv(cfg, st, e.time);
      var w := RequestFor(SlotWindows(st.slots), e.time, cfg.duration).window;
      ChooseAdvances(cfg, caller, Slot(st.nextKey, Index(w, [])));
    }
  }

  lemma WriteAdvances(cfg: Config, st: State, c: nat, key: nat, k: nat)
    requires cfg.Valid() && Enabled(cfg, st, WriteTo(c, key, k))
    ensures var next := Step(cfg, st, WriteTo(c, key, k));
            && c in next.callers && Fewer(WorkLeft(cfg, next.callers[c]), WorkLeft(cfg, st.callers[c]))
            && OthersStay(st, next, c)
  {
    var before, after := st.callers[c], Step(cfg, st, WriteTo(c, key, k)).callers[c];
    assert Targets(cfg, after) - after.written == (Targets(cfg, before) - before.written) - {(key, k)};
  }

  // ----- Running to the end -----

  ghost function Pick(callers: map<nat, Caller>): (c: nat)
    requires callers != map[]
    ensures c in callers
  {
    var c :| c in callers;
    c
  }

  ghost function Sum(callers: map<nat, Caller>, work: Caller -> nat): nat
    decreases |callers|
  {
    if callers == map[] then 0
    else
      var c := Pick(callers);
      assert |callers - {c}| < |callers| by { FewerCallers(callers, c); }
      work(callers[c]) + Sum(callers - {c}, work)
  }

  lemma FewerCallers(callers: map<nat, Caller>, c: nat)
    requires c in callers
    ensures |callers - {c}| == |callers| - 1
  {
    assert (callers - {c}).Keys == callers.Keys - {c};
  }

  lemma {:induction false} SumWithout(callers: map<nat, Caller>, work: Caller -> nat, c: nat)
    requires c in callers
    ensures Sum(callers, work) == work(callers[c]) + Sum(callers - {c}, work)
    decreases |callers|
  {
    var d := Pick(callers);
    if c != d {
      FewerCallers(callers, c);
      FewerCallers(callers, d);
      SumWithout(callers - {d}, work, c);
      SumWithout(callers - {c}, work, d);
      assert callers - {d} - {c} == callers - {c} - {d};
    }
  }

  /** Work before writing, and while writing. */
  const Early: Caller -> nat := (c: Caller) => if c.phase == Writing then 0 else 1 + 4 * |c.todo| + Rank(c.phase)

  function Late(cfg: Config): Caller -> nat {
    (c: Caller) => if c.phase == Writing then |Targets(cfg, c) - c.written| else 0
  }

  /** Only the work of one call changes. */
  lemma SumChange(before: map<nat, Caller>, after: map<nat, Caller>, work: Caller -> nat, c: nat)
    requires c in before && after - {c} == before - {c}
    ensures Sum(after, work) + work(before[c]) == Sum(before, work) + if c in after then work(after[c]) else 0
    ensures |after| == if c in after then |before| else |before| - 1
  {
    SumWithout(before, work, c);
    FewerCallers(before, c);
    if c in after {
      SumWithout(after, work, c);
      FewerCallers(after, c);
    } else {
      assert after - {c} == after;
    }
  }

  /** A step of a call changes or ends that call, and nothing else of what is counted here. */
  lemma StepsOneCaller(cfg: Config, st: State, a: Action)
    requires cfg.Valid() && StepsCaller(st, a) && Enabled(cfg, st, a)
    ensures var next := Step(cfg, st, a);
            && next.callers - {a.id} == st.callers - {a.id}
            && next.retaining == st.retaining && next.started == st.started && next.latest == st.latest
  {
    match a
    case LookUp(c) => LookUpChangesOne(cfg, st, c);
    case CreateOrReuse(c) => CreateChangesOne(cfg, st, c);
    case _ =>
  }

  lemma LookUpChangesOne(cfg: Config, st: State, c: nat)
    requires cfg.Valid() && Enabled(cfg, st, LookUp(c))
    ensures var next := Step(cfg, st, LookUp(c));
            && next.callers - {c} == st.callers - {c}
            && next.retaining == st.retaining && next.started == st.started && next.latest == st.latest
  {
  }

  lemma CreateChangesOne(cfg: Config, st: State, c: nat)
    requires cfg.Valid() && Enabled(cfg, st, CreateOrReuse(c))
    ensures var next := Step(cfg, st, CreateOrReuse(c));
            && next.callers - {c} == st.callers - {c}
            && next.retaining == st.retaining && next.started == st.started && next.latest == st.latest
  {
  }

  /** What a step leaves of the work of its call. */
  lemma CallerLeavesLess(cfg: Config, before: Caller, after: Caller)
    requires Fewer(WorkLeft(cfg, after), WorkLeft(cfg, before))
    ensures Early(after) < Early(before) ||
            (Early(after) == Early(before) && Late(cfg)(after) < Late(cfg)(before))
  {
  }

  lemma FinishLeavesNothing(cfg: Config, st: State, a: Action)
    requires cfg.Valid() && StepsCaller(st, a) && Enabled(cfg, st, a) && a.id !in Step(cfg, st, a).callers
    ensures Early(st.callers[a.id]) == 0 && Late(cfg)(st.callers[a.id]) == 0
  {
    var c := st.callers[a.id];
    assert a.Finish?;
    assert Targets(cfg, c) - c.written == {};
  }

  lemma StepLeavesLess(cfg: Config, st: State, a: Action)
    requires Inv(cfg, st) && StepsCaller(st, a) && Enabled(cfg, st, a)
    ensures Less(AllWork(cfg, Step(cfg, st, a)), AllWork(cfg, st))
  {
    var before, after, c := st.callers, Step(cfg, st, a).callers, a.id;
    StepsOneCaller(cfg, st, a);
    SumChange(before, after, Early, c);
    SumChange(before, after, Late(cfg), c);
    if c in after {
      EveryStepAdvances(cfg, st, a);
      CallerLeavesLess(cfg, before[c], after[c]);
    } else {
      FinishLeavesNothing(cfg, st, a);
    }
  }

  /** All that is left to do. */
  ghost function AllWork(cfg: Config, st: State): (nat, nat, nat, nat) {
    (Sum(st.callers, Early), Sum(st.callers, Late(cfg)), |st.callers|, if st.retaining then 1 else 0)
  }

  predicate Less(a: (nat, nat, nat, nat), b: (nat, nat, nat, nat)) {
    a.0 < b.0 || (a.0 == b.0 && (a.1 < b.1 || (a.1 == b.1 && (a.2 < b.2 || (a.2 == b.2 && a.3 < b.3)))))
  }

  lemma NextStep(cfg: Config, st: State) returns (a: Action)
    requires Inv(cfg, st) && (!Quiet(st) || st.retaining)
    ensures Advancing(a) && Enabled(cfg, st, a)
    ensures var next := Step(cfg, st, a);
            && Inv(cfg, next) && Less(AllWork(cfg, next), AllWork(cfg, st)) && next.started == st.started
            && (!st.retaining ==> !next.retaining && next.latest == st.latest)
  {
    NeverDeadlocked(cfg, st);
    a :| Advances(st, a) && Enabled(cfg, st, a);
    StepKeepsInv(cfg, st, a);
    if StepsCaller(st, a) {
      StepLeavesLess(cfg, st, a);
      StepsOneCaller(cfg, st, a);
    }
  }

  ghost predicate AllAdvancing(acts: seq<Action>) {
    forall i | 0 <= i < |acts| :: Advancing(acts[i])
  }

  /** All calls are done, and nothing else has happened. */
  predicate Done(st: State, end: State) {
    && Quiet(end) && !end.retaining && end.started == st.started
    && (!st.retaining ==> end.latest == st.latest)
  }

  /** From every state that can come up, whatever the calls are in the middle of, all of them can be run to their end
      without a new one. */
  lemma EveryCallCanFinish(cfg: Config, st: State) returns (acts: seq<Action>)
    requires Inv(cfg, st)
    ensures Possible(cfg, st, acts) && AllAdvancing(acts) && Done(st, Run(cfg, st, acts))
  {
    acts := FinishFrom(cfg, st, AllWork(cfg, st));
  }

  /** The actions lead from the state to one in which all calls are done. */
  ghost predicate Finishes(cfg: Config, st: State, acts: seq<Action>)
    requires cfg.Valid()
  {
    Possible(cfg, st, acts) && AllAdvancing(acts) && Done(st, Run(cfg, st, acts))
  }

  lemma {:induction false} FinishFrom(cfg: Config, st: State, work: (nat, nat, nat, nat)) returns (acts: seq<Action>)
    requires Inv(cfg, st) && work == AllWork(cfg, st)
    ensures Finishes(cfg, st, acts)
    decreases work.0, work.1, work.2, work.3
  {
    if Quiet(st) && !st.retaining {
      acts := [];
    } else {
      var a := NextStep(cfg, st);
      var next := Step(cfg, st, a);
      var more := FinishFrom(cfg, next, AllWork(cfg, next));
      acts := [a] + more;
      FinishesCons(cfg, st, a, more);
    }
  }

  lemma FinishesCons(cfg: Config, st: State, a: Action, more: seq<Action>)
    requires cfg.Valid() && Advancing(a) && Enabled(cfg, st, a) && Finishes(cfg, Step(cfg, st, a), more)
    requires var next := Step(cfg, st, a);
             next.started == st.started && (!st.retaining ==> !next.retaining && next.latest == st.latest)
    ensures Finishes(cfg, st, [a] + more)
  {
    RunCons(cfg, st, a, more);
  }

  lemma RunCons(cfg: Config, st: State, a: Action, more: seq<Action>)
    requires cfg.Valid() && Enabled(cfg, st, a) && Possible(cfg, Step(cfg, st, a), more)
    ensures Possible(cfg, st, [a] + more) && Run(cfg, st, [a] + more) == Run(cfg, Step(cfg, st, a), more)
  {
    assert ([a] + more)[0] == a && ([a] + more)[1..] == more;
  }

  /** Neither a new call nor a new retention pass. */
  predicate Advancing(a: Action) {
    !a.Start? && !a.RequestRetain?
  }

  // ----- A run in which the order fails -----

  /** Every batch can be indexed from the start. */
  lemma IndexFromStart(cfg: Config, events: seq<ValidEvent>) returns (acts: seq<Action>)
    requires cfg.Valid()
    ensures Possible(cfg, INITIAL, acts)
    ensures var end := Run(cfg, INITIAL, acts); Quiet(end) && end.started == (set e | e in events) && end.latest == None
  {
    var a := Start(0, events);
    var st := Step(cfg, INITIAL, a);
    StepKeepsInv(cfg, INITIAL, a);
    var more := EveryCallCanFinish(cfg, st);
    acts := [a] + more;
    RunCons(cfg, INITIAL, a, more);
    assert st.started == set e | e in events;
  }

  /** Whenever no window starts with 1970, the order can fail: a message from just before it and one from its first
      moment are in one index, and come back the wrong way round. */
  lemma OrderCanFail(cfg: Config) returns (acts: seq<Action>)
    requires cfg.Valid() && !BoundaryAt1970(cfg.duration)
    ensures Possible(cfg, INITIAL, acts) && !AlwaysInOrder(IndexList(Run(cfg, INITIAL, acts).slots))
    ensures Run(cfg, INITIAL, acts).started == {Event(-1, 1, []), Event(0, 2, [])}
  {
    var e: ValidEvent, f: ValidEvent := Event(-1, 1, []), Event(0, 2, []);
    acts := IndexFromStart(cfg, [e, f]);
    assert (set x | x in [e, f]) == {e, f};
    SharedWindowIff(cfg.duration);
    EverySearchIsChronologicalIff(cfg, acts);
    assert !EventsAlike({e, f}, cfg.duration) by { assert !SameSide(e.time, e.sequence, f.time, f.sequence); }
  }

  /** So with indexes of 24 hours and sequence numbers that are not negative the order never fails, and with weekly
      indexes it can. */
  lemma DefaultIsSafeWeekIsNot(cfg: Config, acts: seq<Action>) returns (failing: seq<Action>)
    requires cfg.Valid() && cfg.duration == DEFAULT_DURATION && Possible(cfg, INITIAL, acts)
    requires forall e | e in Run(cfg, INITIAL, acts).started :: e.sequence >= 0
    ensures AlwaysInOrder(IndexList(Run(cfg, INITIAL, acts).slots))
    ensures var weekly := cfg.(duration := WEEK);
            && weekly.Valid() && Possible(weekly, INITIAL, failing)
            && !AlwaysInOrder(IndexList(Run(weekly, INITIAL, failing).slots))
  {
    DaysMeetAt1970WeeksDoNot();
    OrdinaryEventsSearchChronologically(cfg, acts);
    failing := OrderCanFail(cfg.(duration := WEEK));
  }
}
