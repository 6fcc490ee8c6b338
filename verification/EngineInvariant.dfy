/** What every step of the engine's state machine keeps, whoever takes it. */
module EngineInvariant {
  import opened DocIds
  import opened Sequences
  import opened Windows
  import opened Store
  import opened EventStore
  import opened EngineSteps
  import opened Wrappers

  // ----- What every step keeps: the list of indexes -----

  ghost predicate SlotsInv(cfg: Config, st: State) {
    && StoreInv(IndexList(st.slots), cfg.duration)
    && (forall i | 0 <= i < |st.slots| :: st.slots[i].key < st.nextKey)
    && (forall i, j | 0 <= i < j < |st.slots| :: st.slots[i].key != st.slots[j].key)
    && (forall i | 0 <= i < |st.slots| :: |st.slots[i].index.shards| == cfg.numShards)
  }

  /** The caller's choices: each window contains the event's time, is aligned, and is the window of the index with that
      key, if it is still in the list. */
  ghost predicate ChoiceInv(cfg: Config, st: State, ch: Choice)
    requires cfg.Valid()
  {
    && ch.window.Contains(ch.event.time)
    && Aligned(ch.window, cfg.duration)
    && ch.key < st.nextKey
    && forall i | 0 <= i < |st.slots| && st.slots[i].key == ch.key :: st.slots[i].index.window == ch.window
  }

  ghost predicate ChoicesInv(cfg: Config, st: State)
    requires cfg.Valid()
  {
    forall c, i | c in st.callers && 0 <= i < |st.callers[c].chosen| :: ChoiceInv(cfg, st, st.callers[c].chosen[i])
  }

  lemma SlotWindowsAre(slots: seq<Slot>)
    ensures SlotWindows(slots) == WindowList(IndexList(slots))
  {
  }

  lemma NewSlotInv(cfg: Config, st: State, t: Time)
    requires cfg.Valid() && SlotsInv(cfg, st) && Find(SlotWindows(st.slots), t) == |st.slots|
    ensures var r := RequestFor(SlotWindows(st.slots), t, cfg.duration);
            && r.Granted? && r.window.Contains(t) && Aligned(r.window, cfg.duration)
            && SlotsInv(cfg, WithNew(cfg, st, r.window))
  {
    var v := IndexList(st.slots);
    SlotWindowsAre(st.slots);
    CreateKeepsInv(v, t, cfg.duration, cfg.numShards);
    var w := RequestFor(WindowList(v), t, cfg.duration).window;
    NewSlotList(cfg, st, w);
    NewSlotKeys(cfg, st, w);
    NewSlotShards(cfg, st, w);
  }

  lemma NewSlotShards(cfg: Config, st: State, w: Window)
    requires forall i | 0 <= i < |st.slots| :: |st.slots[i].index.shards| == cfg.numShards
    ensures var next := WithNew(cfg, st, w).slots;
            forall i | 0 <= i < |next| :: |next[i].index.shards| == cfg.numShards
  {
    var k, x := Position(SlotWindows(st.slots), w), Slot(st.nextKey, Index(w, Empty(cfg.numShards)));
    var next := WithNew(cfg, st, w).slots;
    forall i | 0 <= i < |next| ensures |next[i].index.shards| == cfg.numShards { Inserted(st.slots, k, x, i); }
  }

  lemma NewSlotList(cfg: Config, st: State, w: Window)
    ensures IndexList(WithNew(cfg, st, w).slots) == Created(IndexList(st.slots), w, cfg.numShards)
  {
    SlotWindowsAre(st.slots);
  }

  lemma NewSlotKeys(cfg: Config, st: State, w: Window)
    requires forall i | 0 <= i < |st.slots| :: st.slots[i].key < st.nextKey
    requires forall i, j | 0 <= i < j < |st.slots| :: st.slots[i].key != st.slots[j].key
    ensures var next := WithNew(cfg, st, w);
            && (forall i | 0 <= i < |next.slots| :: next.slots[i].key < next.nextKey)
            && (forall i, j | 0 <= i < j < |next.slots| :: next.slots[i].key != next.slots[j].key)
            && SlotsFollow(st, next)
  {
    var k, x := Position(SlotWindows(st.slots), w), Slot(st.nextKey, Index(w, Empty(cfg.numShards)));
    var next := WithNew(cfg, st, w);
    forall i | 0 <= i < |next.slots|
      ensures next.slots[i].key < next.nextKey
      ensures next.slots[i].key >= st.nextKey || HasSlot(st.slots, next.slots[i].key, next.slots[i].index.window)
    {
      Inserted(st.slots, k, x, i);
    }
    forall i, j | 0 <= i < j < |next.slots| ensures next.slots[i].key != next.slots[j].key {
      Inserted(st.slots, k, x, i);
      Inserted(st.slots, k, x, j);
    }
  }

  /** Every slot of the next state is new or stands for an index that was there, with the same window. */
  ghost predicate SlotsFollow(st: State, next: State) {
    && st.nextKey <= next.nextKey
    && forall j | 0 <= j < |next.slots| ::
         next.slots[j].key >= st.nextKey || HasSlot(st.slots, next.slots[j].key, next.slots[j].index.window)
  }

  ghost predicate HasSlot(slots: seq<Slot>, key: nat, w: Window) {
    exists i | 0 <= i < |slots| :: slots[i].key == key && slots[i].index.window == w
  }

  lemma RetainInv(cfg: Config, st: State, nows: seq<Time>)
    requires cfg.Valid() && SlotsInv(cfg, st) && |nows| == |st.slots| && NonDecreasing(nows)
    ensures var k := KeptCount(SlotWindows(st.slots), nows, cfg.retention);
            && Retained(st.slots, SlotWindow, nows, cfg.retention) == st.slots[..k]
            && SlotsInv(cfg, st.(slots := st.slots[..k]))
  {
    var k := KeptCount(SlotWindows(st.slots), nows, cfg.retention);
    SlotWindowsAre(st.slots);
    DescendingEnds(SlotWindows(st.slots), cfg.duration);
    RetentionKeepsPrefix(st.slots, SlotWindow, nows, cfg.retention);
    PrefixInv(cfg, st, k);
  }

  lemma PrefixInv(cfg: Config, st: State, k: nat)
    requires SlotsInv(cfg, st) && k <= |st.slots|
    ensures SlotsInv(cfg, st.(slots := st.slots[..k]))
  {
    FrontKeepsInv(IndexList(st.slots), cfg.duration, k);
    assert IndexList(st.slots[..k]) == IndexList(st.slots)[..k];
  }

  /** The documents of a sub-batch belong to the window that its events were assigned to. */
  lemma {:induction false} SubBatchBelongs(cfg: Config, st: State, chosen: seq<Choice>, key: nat, w: Window)
    requires cfg.Valid() && forall i | 0 <= i < |chosen| :: ChoiceInv(cfg, st, chosen[i])
    requires exists i | 0 <= i < |st.slots| :: st.slots[i].key == key && st.slots[i].index.window == w
    ensures forall e | e in EventsFor(chosen, key) :: w.Contains(e.time)
    ensures DocsBelong(DocsOf(EventsFor(chosen, key)), w)
    decreases |chosen|
  {
    if chosen != [] {
      SubBatchBelongs(cfg, st, chosen[..|chosen| - 1], key, w);
      assert chosen[|chosen| - 1].key == key ==> w.Contains(chosen[|chosen| - 1].event.time);
    }
    var events := EventsFor(chosen, key);
    forall d | d in DocsOf(events) ensures FiledUnder(d.id, w) {
      var i :| 0 <= i < |events| && DocsOf(events)[i] == d;
      assert events[i] in events;
    }
  }

  lemma WriteKeepsShape(slots: seq<Slot>, key: nat, shard: nat, docs: seq<Document>)
    ensures var next := WithDocs(slots, key, shard, docs);
            && (forall i | 0 <= i < |slots| :: SameShape(slots[i], next[i]))
            && WindowList(IndexList(next)) == WindowList(IndexList(slots))
  {
  }

  predicate SameShape(s: Slot, s': Slot) {
    s.key == s'.key && s.index.window == s'.index.window && |s.index.shards| == |s'.index.shards|
  }

  lemma WriteKeepsSound(slots: seq<Slot>, key: nat, shard: nat, docs: seq<Document>)
    requires forall i | 0 <= i < |slots| :: Sound(slots[i].index)
    requires forall i | 0 <= i < |slots| && slots[i].key == key :: DocsBelong(docs, slots[i].index.window)
    ensures var next := WithDocs(slots, key, shard, docs); forall i | 0 <= i < |slots| :: Sound(next[i].index)
  {
    var k := KeyAt(slots, key);
    if k < |slots| && shard < |slots[k].index.shards| { FileOnKeepsSound(slots[k].index, shard, docs); }
  }

  lemma WriteInv(cfg: Config, st: State, key: nat, shard: nat, docs: seq<Document>)
    requires cfg.Valid() && SlotsInv(cfg, st)
    requires forall i | 0 <= i < |st.slots| && st.slots[i].key == key :: DocsBelong(docs, st.slots[i].index.window)
    ensures SlotsInv(cfg, st.(slots := WithDocs(st.slots, key, shard, docs)))
    ensures forall i | 0 <= i < |st.slots| :: SameShape(st.slots[i], WithDocs(st.slots, key, shard, docs)[i])
  {
    assert forall i | 0 <= i < |st.slots| :: Sound(IndexList(st.slots)[i]);
    WriteKeepsShape(st.slots, key, shard, docs);
    WriteKeepsSound(st.slots, key, shard, docs);
  }

  lemma StepKeepsSlots(cfg: Config, st: State, a: Action)
    requires cfg.Valid() && SlotsInv(cfg, st) && ChoicesInv(cfg, st) && Enabled(cfg, st, a)
    ensures SlotsInv(cfg, Step(cfg, st, a)) && SlotsFollow(st, Step(cfg, st, a))
  {
    match a
    case CreateOrReuse(c) => CreateStepKeepsSlots(cfg, st, c);
    case WriteTo(c, key, k) => WriteStepKeepsSlots(cfg, st, c, key, k);
    case Retain(nows) => RetainStepKeepsSlots(cfg, st, nows);
    case _ => SameSlotsFollow(cfg, st, Step(cfg, st, a));
  }

  lemma SameSlotsFollow(cfg: Config, st: State, next: State)
    requires SlotsInv(cfg, st) && next.slots == st.slots && next.nextKey == st.nextKey
    ensures SlotsInv(cfg, next) && SlotsFollow(st, next)
  {
  }

  lemma CreateStepKeepsSlots(cfg: Config, st: State, c: nat)
    requires cfg.Valid() && SlotsInv(cfg, st) && Enabled(cfg, st, CreateOrReuse(c))
    ensures var next := Step(cfg, st, CreateOrReuse(c)); SlotsInv(cfg, next) && SlotsFollow(st, next)
  {
    var t := st.callers[c].todo[0].time;
    if Find(SlotWindows(st.slots), t) == |st.slots| {
      NewSlotInv(cfg, st, t);
      NewSlotKeys(cfg, st, RequestFor(SlotWindows(st.slots), t, cfg.duration).window);
    } else {
      SameSlotsFollow(cfg, st, Step(cfg, st, CreateOrReuse(c)));
    }
  }

  lemma RetainStepKeepsSlots(cfg: Config, st: State, nows: seq<Time>)
    requires cfg.Valid() && SlotsInv(cfg, st) && Enabled(cfg, st, Retain(nows))
    ensures var next := Step(cfg, st, Retain(nows)); SlotsInv(cfg, next) && SlotsFollow(st, next)
  {
    RetainInv(cfg, st, nows);
  }

  lemma WriteStepKeepsSlots(cfg: Config, st: State, c: nat, key: nat, shard: nat)
    requires cfg.Valid() && SlotsInv(cfg, st) && ChoicesInv(cfg, st) && Enabled(cfg, st, WriteTo(c, key, shard))
    ensures var next := Step(cfg, st, WriteTo(c, key, shard)); SlotsInv(cfg, next) && SlotsFollow(st, next)
  {
    var chosen := st.callers[c].chosen;
    var docs := DocsOf(EventsFor(chosen, key));
    forall i | 0 <= i < |st.slots| && st.slots[i].key == key ensures DocsBelong(docs, st.slots[i].index.window) {
      SubBatchBelongs(cfg, st, chosen, key, st.slots[i].index.window);
    }
    WriteInv(cfg, st, key, shard, docs);
  }

  // ----- What every step keeps: the callers' choices -----

  lemma ChoiceSurvives(cfg: Config, st: State, next: State, ch: Choice)
    requires cfg.Valid() && ChoiceInv(cfg, st, ch) && SlotsFollow(st, next)
    ensures ChoiceInv(cfg, next, ch)
  {
    forall j | 0 <= j < |next.slots| && next.slots[j].key == ch.key ensures next.slots[j].index.window == ch.window {
      assert HasSlot(st.slots, next.slots[j].key, next.slots[j].index.window);
    }
  }

  lemma ReuseIsSound(cfg: Config, st: State, e: ValidEvent)
    requires cfg.Valid() && SlotsInv(cfg, st) && Find(SlotWindows(st.slots), e.time) < |st.slots|
    ensures var s := st.slots[Find(SlotWindows(st.slots), e.time)];
            ChoiceInv(cfg, st, Choice(e, s.key, s.index.window))
  {
    SlotWindowsAre(st.slots);
    var k := Find(SlotWindows(st.slots), e.time);
    assert Aligned(SlotWindows(st.slots)[k], cfg.duration);
  }

  lemma CreationIsSound(cfg: Config, st: State, e: ValidEvent)
    requires cfg.Valid() && SlotsInv(cfg, st) && Find(SlotWindows(st.slots), e.time) == |st.slots|
    ensures var r := RequestFor(SlotWindows(st.slots), e.time, cfg.duration);
            r.Granted? && ChoiceInv(cfg, WithNew(cfg, st, r.window), Choice(e, st.nextKey, r.window))
  {
    NewSlotInv(cfg, st, e.time);
    var w := RequestFor(SlotWindows(st.slots), e.time, cfg.duration).window;
    NewSlotWindow(cfg, st, w);
  }

  lemma NewSlotWindow(cfg: Config, st: State, w: Window)
    requires forall i | 0 <= i < |st.slots| :: st.slots[i].key < st.nextKey
    ensures var next := WithNew(cfg, st, w);
            forall i | 0 <= i < |next.slots| && next.slots[i].key == st.nextKey :: next.slots[i].index.window == w
  {
    var k, x := Position(SlotWindows(st.slots), w), Slot(st.nextKey, Index(w, Empty(cfg.numShards)));
    var next := WithNew(cfg, st, w);
    forall i | 0 <= i < |next.slots| && next.slots[i].key == st.nextKey ensures next.slots[i].index.window == w {
      Inserted(st.slots, k, x, i);
    }
  }

  /** The list of choices stays as it is, or gets one more, which is sound. */
  ghost predicate Grows(cfg: Config, next: State, before: seq<Choice>, after: seq<Choice>)
    requires cfg.Valid()
  {
    after == before || (after != [] && after[..|after| - 1] == before && ChoiceInv(cfg, next, after[|after| - 1]))
  }

  function ChosenBy(st: State, c: nat): seq<Choice> {
    if c in st.callers then st.callers[c].chosen else []
  }

  lemma ReuseGrows(cfg: Config, st: State, c: nat, phase: Phase)
    requires cfg.Valid() && SlotsInv(cfg, st) && c in st.callers && st.callers[c].todo != []
    requires Find(SlotWindows(st.slots), st.callers[c].todo[0].time) < |st.slots|
    ensures var s := st.slots[Find(SlotWindows(st.slots), st.callers[c].todo[0].time)];
            var next := WithCaller(st, c, Choose(st.callers[c], s, phase));
            Grows(cfg, next, ChosenBy(st, c), ChosenBy(next, c))
  {
    ReuseIsSound(cfg, st, st.callers[c].todo[0]);
  }

  lemma CreationGrows(cfg: Config, st: State, c: nat, w: Window)
    requires cfg.Valid() && c in st.callers && st.callers[c].todo != []
    requires ChoiceInv(cfg, WithNew(cfg, st, w), Choice(st.callers[c].todo[0], st.nextKey, w))
    ensures var next := CreatedFor(cfg, st, c, w); Grows(cfg, next, ChosenBy(st, c), ChosenBy(next, c))
  {
  }

  lemma CreateStepGrows(cfg: Config, st: State, c: nat)
    requires cfg.Valid() && SlotsInv(cfg, st) && Enabled(cfg, st, CreateOrReuse(c))
    ensures var next := Step(cfg, st, CreateOrReuse(c)); Grows(cfg, next, ChosenBy(st, c), ChosenBy(next, c))
  {
    var e := st.callers[c].todo[0];
    if Find(SlotWindows(st.slots), e.time) < |st.slots| {
      ReuseGrows(cfg, st, c, Relocking);
    } else {
      CreationIsSound(cfg, st, e);
      CreationGrows(cfg, st, c, RequestFor(SlotWindows(st.slots), e.time, cfg.duration).window);
    }
  }

  lemma NewChoiceIsSound(cfg: Config, st: State, a: Action, c: nat)
    requires cfg.Valid() && SlotsInv(cfg, st) && Enabled(cfg, st, a) && c in Step(cfg, st, a).callers
    ensures Grows(cfg, Step(cfg, st, a), ChosenBy(st, c), ChosenBy(Step(cfg, st, a), c))
  {
    if a.LookUp? && c == a.id {
      if Find(SlotWindows(st.slots), st.callers[c].todo[0].time) < |st.slots| { ReuseGrows(cfg, st, c, Reading); }
    } else if a.CreateOrReuse? && c == a.id {
      CreateStepGrows(cfg, st, c);
    } else {
      OthersChooseNothing(cfg, st, a, c);
    }
  }

  lemma OthersChooseNothing(cfg: Config, st: State, a: Action, c: nat)
    requires cfg.Valid() && Enabled(cfg, st, a) && c in Step(cfg, st, a).callers
    requires !((a.LookUp? || a.CreateOrReuse?) && c == a.id)
    ensures ChosenBy(Step(cfg, st, a), c) == ChosenBy(st, c)
  {
  }

  lemma GrowsKeepsChoices(cfg: Config, st: State, next: State, before: seq<Choice>, after: seq<Choice>)
    requires cfg.Valid() && SlotsFollow(st, next) && Grows(cfg, next, before, after)
    requires forall i | 0 <= i < |before| :: ChoiceInv(cfg, st, before[i])
    ensures forall i | 0 <= i < |after| :: ChoiceInv(cfg, next, after[i])
  {
    forall i | 0 <= i < |after| ensures ChoiceInv(cfg, next, after[i]) {
      if i < |before| {
        assert after[i] == before[i];
        ChoiceSurvives(cfg, st, next, before[i]);
      }
    }
  }

  lemma StepKeepsChoices(cfg: Config, st: State, a: Action)
    requires cfg.Valid() && SlotsInv(cfg, st) && ChoicesInv(cfg, st) && Enabled(cfg, st, a)
    ensures ChoicesInv(cfg, Step(cfg, st, a))
  {
    var next := Step(cfg, st, a);
    StepKeepsSlots(cfg, st, a);
    forall c | c in next.callers
      ensures forall i | 0 <= i < |next.callers[c].chosen| :: ChoiceInv(cfg, next, next.callers[c].chosen[i])
    {
      NewChoiceIsSound(cfg, st, a, c);
      GrowsKeepsChoices(cfg, st, next, ChosenBy(st, c), ChosenBy(next, c));
    }
  }

  // ----- What the read lock is for -----

  ghost predicate Live(slots: seq<Slot>, key: nat) {
    exists i | 0 <= i < |slots| :: slots[i].key == key
  }

  /** While a caller holds the read lock, every index it chose since it took the lock is still in the list. */
  ghost predicate LockInv(st: State) {
    forall c | c in st.callers && HoldsReadLock(st.callers[c]) ::
      forall i | st.callers[c].held <= i < |st.callers[c].chosen| :: Live(st.slots, st.callers[c].chosen[i].key)
  }

  lemma WriteKeepsLive(slots: seq<Slot>, key: nat, shard: nat, docs: seq<Document>, other: nat)
    ensures Live(slots, other) <==> Live(WithDocs(slots, key, shard, docs), other)
  {
    var next := WithDocs(slots, key, shard, docs);
    assert forall i | 0 <= i < |slots| :: next[i].key == slots[i].key;
  }

  lemma StepKeepsLock(cfg: Config, st: State, a: Action)
    requires cfg.Valid() && LockInv(st) && Enabled(cfg, st, a)
    ensures LockInv(Step(cfg, st, a))
  {
    match a
    case LookUp(c) => LookUpKeepsLock(cfg, st, c);
    case CreateOrReuse(c) => CreateKeepsLock(cfg, st, c);
    case WriteTo(c, key, k) => WriteKeepsLock(cfg, st, c, key, k);
    case _ =>
  }

  /** Nobody holds the read lock while the list changes. */
  lemma CreateKeepsLock(cfg: Config, st: State, c: nat)
    requires cfg.Valid() && Enabled(cfg, st, CreateOrReuse(c))
    ensures LockInv(Step(cfg, st, CreateOrReuse(c)))
  {
    assert WriteLockFree(Step(cfg, st, CreateOrReuse(c)));
  }

  lemma LookUpKeepsLock(cfg: Config, st: State, c: nat)
    requires cfg.Valid() && LockInv(st) && Enabled(cfg, st, LookUp(c))
    ensures LockInv(Step(cfg, st, LookUp(c)))
  {
    var k := Find(SlotWindows(st.slots), st.callers[c].todo[0].time);
    if k < |st.slots| { assert Live(st.slots, st.slots[k].key); }
  }

  lemma WriteKeepsLock(cfg: Config, st: State, c: nat, key: nat, shard: nat)
    requires cfg.Valid() && LockInv(st) && Enabled(cfg, st, WriteTo(c, key, shard))
    ensures LockInv(Step(cfg, st, WriteTo(c, key, shard)))
  {
    var next := Step(cfg, st, WriteTo(c, key, shard));
    var docs := DocsOf(EventsFor(st.callers[c].chosen, key));
    forall other: nat ensures Live(st.slots, other) <==> Live(next.slots, other) {
      WriteKeepsLive(st.slots, key, shard, docs, other);
    }
  }

  // ----- What becomes of the events -----

  /** A caller still has to write the event. */
  ghost predicate Pending(cfg: Config, c: Caller, e: ValidEvent)
    requires cfg.Valid()
  {
    e in c.todo || exists i | 0 <= i < |c.chosen| :: c.chosen[i].event == e && Unwritten(cfg, c, c.chosen[i])
  }

  ghost predicate Unwritten(cfg: Config, c: Caller, ch: Choice)
    requires cfg.Valid()
  {
    (ch.key, Route(ch.event.Id(), cfg.numShards)) !in c.written
  }

  ghost predicate Accounted(cfg: Config, st: State, e: ValidEvent)
    requires cfg.Valid()
  {
    e in st.filed || exists c | c in st.callers :: Pending(cfg, st.callers[c], e)
  }

  ghost predicate PhaseInv(c: Caller) {
    && (c.phase != Writing ==> c.written == {})
    && (c.phase == Writing ==> c.todo == [])
    && (c.phase == Released || c.phase == Waiting ==> c.todo != [])
  }

  /** No event gets lost on the way: each is filed, or still pending with a caller. */
  ghost predicate EventsInv(cfg: Config, st: State)
    requires cfg.Valid()
  {
    && (forall c | c in st.callers :: HoldsStarted(st.callers[c], st.started))
    && (forall e | e in st.started :: Accounted(cfg, st, e))
    && st.filed <= st.started
  }

  lemma {:induction false} EventsForMembers(chosen: seq<Choice>, key: nat, e: ValidEvent)
    ensures e in EventsFor(chosen, key) <==>
            exists i | 0 <= i < |chosen| :: chosen[i].event == e && chosen[i].key == key
    decreases |chosen|
  {
    if chosen != [] {
      var n := |chosen| - 1;
      EventsForMembers(chosen[..n], key, e);
      assert forall i | 0 <= i < n :: chosen[..n][i] == chosen[i];
    }
  }

  /** Choosing an index for the first event keeps every pending event pending. */
  lemma ChooseKeepsPending(cfg: Config, c: Caller, s: Slot, phase: Phase, e: ValidEvent)
    requires cfg.Valid() && c.todo != [] && c.written == {} && Pending(cfg, c, e)
    ensures Pending(cfg, Choose(c, s, phase), e)
  {
    var next := Choose(c, s, phase);
    assert c.todo == [c.todo[0]] + c.todo[1..];
    assert forall i | 0 <= i < |c.chosen| :: next.chosen[i] == c.chosen[i];
    assert next.chosen[|c.chosen|].event == c.todo[0];
  }

  lemma NothingPendingAtFinish(cfg: Config, c: Caller, e: ValidEvent)
    requires cfg.Valid() && c.todo == [] && Targets(cfg, c) <= c.written
    ensures !Pending(cfg, c, e)
  {
    forall i | 0 <= i < |c.chosen| ensures !Unwritten(cfg, c, c.chosen[i]) {
      var ch := c.chosen[i];
      assert ch in c.chosen;
      assert (ch.key, Route(ch.event.Id(), cfg.numShards)) in Targets(cfg, c);
    }
  }

  lemma WriteKeepsPending(cfg: Config, c: Caller, key: nat, shard: nat, e: ValidEvent)
    requires cfg.Valid() && Pending(cfg, c, e)
    ensures e in OnShard(EventsFor(c.chosen, key), cfg.numShards, shard) ||
            Pending(cfg, c.(written := c.written + {(key, shard)}), e)
  {
    EventsForMembers(c.chosen, key, e);
    if e !in c.todo {
      var i :| 0 <= i < |c.chosen| && c.chosen[i].event == e && Unwritten(cfg, c, c.chosen[i]);
      var next := c.(written := c.written + {(key, shard)});
      if (c.chosen[i].key, Route(e.Id(), cfg.numShards)) != (key, shard) {
        assert Unwritten(cfg, next, next.chosen[i]);
      }
    }
  }

  lemma StepKeepsPending(cfg: Config, st: State, a: Action, c: nat, e: ValidEvent)
    requires cfg.Valid() && Enabled(cfg, st, a)
    requires c in st.callers && PhaseInv(st.callers[c]) && Pending(cfg, st.callers[c], e)
    ensures var next := Step(cfg, st, a);
            e in next.filed || (c in next.callers && Pending(cfg, next.callers[c], e))
  {
    var caller := st.callers[c];
    match a
    case LookUp(c') =>
      if c == c' {
        var k := Find(SlotWindows(st.slots), caller.todo[0].time);
        if k < |st.slots| { ChooseKeepsPending(cfg, caller, st.slots[k], Reading, e); }
      }
    case CreateOrReuse(c') =>
      if c == c' { CreateKeepsPending(cfg, st, c, e); }
    case WriteTo(c', key, k) =>
      if c == c' { WriteKeepsPending(cfg, caller, key, k, e); }
    case Finish(c') =>
      if c == c' {
        NothingPendingAtFinish(cfg, caller, e);
        assert false;
      }
    case _ =>
  }

  lemma CreateKeepsPending(cfg: Config, st: State, c: nat, e: ValidEvent)
    requires cfg.Valid() && Enabled(cfg, st, CreateOrReuse(c))
    requires PhaseInv(st.callers[c]) && Pending(cfg, st.callers[c], e)
    ensures var next := Step(cfg, st, CreateOrReuse(c)); c in next.callers && Pending(cfg, next.callers[c], e)
  {
    var caller := st.callers[c];
    var t := caller.todo[0].time;
    var k, r := Find(SlotWindows(st.slots), t), RequestFor(SlotWindows(st.slots), t, cfg.duration);
    if k < |st.slots| {
      ChooseKeepsPending(cfg, caller, st.slots[k], Relocking, e);
    } else if r.Granted? {
      ChooseKeepsPending(cfg, caller, Slot(st.nextKey, Index(r.window, [])), Relocking, e);
    }
  }

  lemma StepKeepsAccounted(cfg: Config, st: State, a: Action, e: ValidEvent)
    requires cfg.Valid() && EventsInv(cfg, st) && Enabled(cfg, st, a) && e in Step(cfg, st, a).started
    ensures Accounted(cfg, Step(cfg, st, a), e)
  {
    var next := Step(cfg, st, a);
    if e in st.filed {
      assert e in next.filed;
    } else if e in st.started {
      var c :| c in st.callers && Pending(cfg, st.callers[c], e);
      assert HoldsStarted(st.callers[c], st.started);
      StepKeepsPending(cfg, st, a, c, e);
    } else {
      assert a.Start? && Pending(cfg, next.callers[a.id], e);
    }
  }

  /** Callers only ever hold events that were handed to them. */
  lemma StepKeepsHeld(cfg: Config, st: State, a: Action, c: nat)
    requires cfg.Valid() && EventsInv(cfg, st) && Enabled(cfg, st, a) && c in Step(cfg, st, a).callers
    ensures HoldsStarted(Step(cfg, st, a).callers[c], Step(cfg, st, a).started)
  {
    match a
    case LookUp(c') => LookUpKeepsHeld(cfg, st, c', c);
    case CreateOrReuse(c') => CreateKeepsHeld(cfg, st, c', c);
    case _ =>
  }

  /** A caller holds only events that were handed to it, and is in order. */
  ghost predicate HoldsStarted(caller: Caller, started: set<ValidEvent>) {
    && PhaseInv(caller)
    && (forall e | e in caller.todo :: e in started)
    && (forall i | 0 <= i < |caller.chosen| :: caller.chosen[i].event in started)
  }

  lemma ChooseKeepsHeld(caller: Caller, s: Slot, phase: Phase, started: set<ValidEvent>)
    requires caller.todo != [] && HoldsStarted(caller, started) && caller.phase != Writing
    requires phase == Reading || phase == Relocking
    ensures HoldsStarted(Choose(caller, s, phase), started)
  {
  }

  lemma LookUpKeepsHeld(cfg: Config, st: State, c: nat, other: nat)
    requires cfg.Valid() && EventsInv(cfg, st) && Enabled(cfg, st, LookUp(c)) && other in st.callers
    ensures var next := Step(cfg, st, LookUp(c));
            other in next.callers && HoldsStarted(next.callers[other], next.started)
  {
    var k := Find(SlotWindows(st.slots), st.callers[c].todo[0].time);
    assert HoldsStarted(st.callers[c], st.started);
    if k < |st.slots| { ChooseKeepsHeld(st.callers[c], st.slots[k], Reading, st.started); }
  }

  lemma CreateKeepsHeld(cfg: Config, st: State, c: nat, other: nat)
    requires cfg.Valid() && EventsInv(cfg, st) && Enabled(cfg, st, CreateOrReuse(c)) && other in st.callers
    ensures var next := Step(cfg, st, CreateOrReuse(c));
            other in next.callers && HoldsStarted(next.callers[other], next.started)
  {
    var caller := st.callers[c];
    var t := caller.todo[0].time;
    var k, r := Find(SlotWindows(st.slots), t), RequestFor(SlotWindows(st.slots), t, cfg.duration);
    assert HoldsStarted(caller, st.started);
    if k < |st.slots| {
      ChooseKeepsHeld(caller, st.slots[k], Relocking, st.started);
    } else if r.Granted? {
      ChooseKeepsHeld(caller, Slot(st.nextKey, Index(r.window, [])), Relocking, st.started);
    }
  }

  lemma StepFilesStarted(cfg: Config, st: State, a: Action)
    requires cfg.Valid() && EventsInv(cfg, st) && Enabled(cfg, st, a)
    ensures Step(cfg, st, a).filed <= Step(cfg, st, a).started
  {
    if a.WriteTo? {
      var chosen := st.callers[a.id].chosen;
      forall e | e in EventsFor(chosen, a.key) ensures e in st.started { EventsForMembers(chosen, a.key, e); }
    }
  }

  lemma StepKeepsEvents(cfg: Config, st: State, a: Action)
    requires cfg.Valid() && EventsInv(cfg, st) && Enabled(cfg, st, a)
    ensures EventsInv(cfg, Step(cfg, st, a))
  {
    var next := Step(cfg, st, a);
    forall e | e in next.started ensures Accounted(cfg, next, e) { StepKeepsAccounted(cfg, st, a, e); }
    forall c | c in next.callers
      ensures HoldsStarted(next.callers[c], next.started)
    {
      StepKeepsHeld(cfg, st, a, c);
    }
    StepFilesStarted(cfg, st, a);
  }

  // ----- What is stored -----

  ghost predicate Stored(slots: seq<Slot>, id: DocId) {
    exists i | 0 <= i < |slots| :: id in AllIds(slots[i].index.shards)
  }

  /** An event with this ID and this text has been written. */
  ghost predicate TextFiled(filed: set<ValidEvent>, id: DocId, text: Source) {
    exists e | e in filed :: e.Id() == id && e.text == text
  }

  ghost predicate TextsFiled(shards: seq<Shard>, filed: set<ValidEvent>) {
    |shards| > 0 && forall id | Lookup(shards, id).Some? :: TextFiled(filed, id, Lookup(shards, id).value)
  }

  /** What is stored is the text of an event that was written, under its own ID. */
  ghost predicate TextsInv(st: State) {
    forall i | 0 <= i < |st.slots| :: TextsFiled(st.slots[i].index.shards, st.filed)
  }

  /** Every written event that was within the retention period at every pass is stored, and the index of every chosen
      event of this kind is still in the list. */
  ghost predicate KeptInv(cfg: Config, st: State) {
    && (forall e | e in st.filed && Within(cfg, st.latest, e) :: Stored(st.slots, e.Id()))
    && (forall c | c in st.callers :: ChosenLive(cfg, st, st.callers[c].chosen))
  }

  ghost predicate ChosenLive(cfg: Config, st: State, chosen: seq<Choice>) {
    forall i | 0 <= i < |chosen| && Within(cfg, st.latest, chosen[i].event) :: Live(st.slots, chosen[i].key)
  }

  // What a new index changes.

  lemma NewSlotKeepsLive(cfg: Config, st: State, w: Window, key: nat)
    ensures Live(st.slots, key) || key == st.nextKey ==> Live(WithNew(cfg, st, w).slots, key)
  {
    var k, x := Position(SlotWindows(st.slots), w), Slot(st.nextKey, Index(w, Empty(cfg.numShards)));
    Inserted(st.slots, k, x, k);
    if Live(st.slots, key) {
      var i :| 0 <= i < |st.slots| && st.slots[i].key == key;
      Inserted(st.slots, k, x, i);
    }
  }

  lemma NewSlotKeepsStored(cfg: Config, st: State, w: Window, id: DocId)
    requires Stored(st.slots, id)
    ensures Stored(WithNew(cfg, st, w).slots, id)
  {
    var k, x := Position(SlotWindows(st.slots), w), Slot(st.nextKey, Index(w, Empty(cfg.numShards)));
    var i :| 0 <= i < |st.slots| && id in AllIds(st.slots[i].index.shards);
    Inserted(st.slots, k, x, i);
  }

  lemma NewSlotTexts(cfg: Config, st: State, w: Window)
    requires cfg.Valid() && TextsInv(st)
    ensures TextsInv(WithNew(cfg, st, w))
  {
    var k, x := Position(SlotWindows(st.slots), w), Slot(st.nextKey, Index(w, Empty(cfg.numShards)));
    var next := WithNew(cfg, st, w);
    forall i | 0 <= i < |next.slots| ensures TextsFiled(next.slots[i].index.shards, next.filed) {
      Inserted(st.slots, k, x, i);
    }
  }

  lemma CreationKept(cfg: Config, st: State, c: nat, w: Window)
    requires cfg.Valid() && KeptInv(cfg, st) && c in st.callers && st.callers[c].todo != []
    ensures KeptInv(cfg, CreatedFor(cfg, st, c, w))
  {
    var next := CreatedFor(cfg, st, c, w);
    forall key: nat | Live(st.slots, key) || key == st.nextKey ensures Live(next.slots, key) {
      NewSlotKeepsLive(cfg, st, w, key);
    }
    forall id | Stored(st.slots, id) ensures Stored(next.slots, id) { NewSlotKeepsStored(cfg, st, w, id); }
  }

  lemma ReuseKept(cfg: Config, st: State, c: nat, s: Slot, phase: Phase)
    requires KeptInv(cfg, st) && c in st.callers && st.callers[c].todo != [] && Live(st.slots, s.key)
    ensures KeptInv(cfg, WithCaller(st, c, Choose(st.callers[c], s, phase)))
  {
  }

  lemma CreateKeepsKept(cfg: Config, st: State, c: nat)
    requires cfg.Valid() && KeptInv(cfg, st) && Enabled(cfg, st, CreateOrReuse(c))
    ensures KeptInv(cfg, Step(cfg, st, CreateOrReuse(c)))
  {
    var t := st.callers[c].todo[0].time;
    var k, r := Find(SlotWindows(st.slots), t), RequestFor(SlotWindows(st.slots), t, cfg.duration);
    if k < |st.slots| {
      assert Live(st.slots, st.slots[k].key);
      ReuseKept(cfg, st, c, st.slots[k], Relocking);
    } else if r.Granted? {
      CreationKept(cfg, st, c, r.window);
    }
  }

  lemma CreateKeepsTexts(cfg: Config, st: State, c: nat)
    requires cfg.Valid() && TextsInv(st) && Enabled(cfg, st, CreateOrReuse(c))
    ensures TextsInv(Step(cfg, st, CreateOrReuse(c)))
  {
    var r := RequestFor(SlotWindows(st.slots), st.callers[c].todo[0].time, cfg.duration);
    if r.Granted? { NewSlotTexts(cfg, st, r.window); }
  }

  // What writing to a shard changes.

  lemma SlotsRouted(cfg: Config, st: State)
    requires SlotsInv(cfg, st)
    ensures forall i | 0 <= i < |st.slots| :: WellRouted(st.slots[i].index.shards)
  {
    assert forall i | 0 <= i < |st.slots| :: Sound(IndexList(st.slots)[i]);
  }

  lemma WriteKeepsStoredId(slots: seq<Slot>, key: nat, shard: nat, docs: seq<Document>, id: DocId)
    requires Stored(slots, id) && forall i | 0 <= i < |slots| :: WellRouted(slots[i].index.shards)
    ensures Stored(WithDocs(slots, key, shard, docs), id)
  {
    var k, next := KeyAt(slots, key), WithDocs(slots, key, shard, docs);
    var i :| 0 <= i < |slots| && id in AllIds(slots[i].index.shards);
    if i == k && shard < |slots[k].index.shards| { WriteOnIds(slots[k].index.shards, shard, docs, id); }
    assert id in AllIds(next[i].index.shards);
  }

  /** If the index is in the list, everything that is filed with a shard is stored. */
  lemma FiledIsStored(cfg: Config, st: State, key: nat, shard: nat, events: seq<ValidEvent>, e: ValidEvent)
    requires cfg.Valid() && SlotsInv(cfg, st) && Live(st.slots, key)
    requires shard < cfg.numShards && e in OnShard(events, cfg.numShards, shard)
    ensures Stored(WithDocs(st.slots, key, shard, DocsOf(events)), e.Id())
  {
    var docs, k := DocsOf(events), KeyAt(st.slots, key);
    var next := WithDocs(st.slots, key, shard, docs);
    SlotsRouted(cfg, st);
    var j :| 0 <= j < |events| && events[j] == e;
    assert docs[j] in docs && docs[j].id == e.Id();
    WriteOnIds(st.slots[k].index.shards, shard, docs, e.Id());
    assert e.Id() in AllIds(next[k].index.shards);
  }

  lemma WriteKeepsKept(cfg: Config, st: State, c: nat, key: nat, shard: nat)
    requires cfg.Valid() && SlotsInv(cfg, st) && KeptInv(cfg, st) && Enabled(cfg, st, WriteTo(c, key, shard))
    ensures KeptInv(cfg, Step(cfg, st, WriteTo(c, key, shard)))
  {
    var next, chosen := Step(cfg, st, WriteTo(c, key, shard)), st.callers[c].chosen;
    var events := EventsFor(chosen, key);
    var docs := DocsOf(events);
    SlotsRouted(cfg, st);
    forall e | e in next.filed && Within(cfg, next.latest, e) ensures Stored(next.slots, e.Id()) {
      if e in st.filed {
        WriteKeepsStoredId(st.slots, key, shard, docs, e.Id());
      } else {
        ChosenKeyIsLive(cfg, st, c, key, e);
        FiledIsStored(cfg, st, key, shard, events, e);
      }
    }
    forall other: nat ensures Live(st.slots, other) <==> Live(next.slots, other) {
      WriteKeepsLive(st.slots, key, shard, docs, other);
    }
  }

  lemma ChosenKeyIsLive(cfg: Config, st: State, c: nat, key: nat, e: ValidEvent)
    requires KeptInv(cfg, st) && c in st.callers && Within(cfg, st.latest, e)
    requires e in EventsFor(st.callers[c].chosen, key)
    ensures Live(st.slots, key)
  {
    EventsForMembers(st.callers[c].chosen, key, e);
    assert ChosenLive(cfg, st, st.callers[c].chosen);
  }

  /** What is found on a shard after its part of a sub-batch was there before, or is of an event filed with it. */
  lemma WrittenTexts(cfg: Config, shards: seq<Shard>, k: nat, events: seq<ValidEvent>, filed: set<ValidEvent>)
    requires cfg.Valid() && |shards| == cfg.numShards && k < |shards| && TextsFiled(shards, filed)
    ensures TextsFiled(WriteOn(shards, k, DocsOf(events)), filed + OnShard(events, cfg.numShards, k))
  {
    var docs, n := DocsOf(events), cfg.numShards;
    var after, all := WriteOn(shards, k, docs), filed + OnShard(events, n, k);
    forall id | Lookup(after, id).Some? ensures TextFiled(all, id, Lookup(after, id).value) {
      WriteOnLookup(shards, k, docs, id);
      var text := Lookup(after, id).value;
      if Lookup(shards, id) == Some(text) {
        assert TextFiled(filed, id, text);
      } else {
        WriteSource(shards[k], ForShard(docs, n, k), id);
        ForShardMembers(docs, n, k, Document(id, text));
        var j :| 0 <= j < |docs| && docs[j] == Document(id, text);
        assert events[j] in all && events[j].Id() == id && events[j].text == text;
      }
    }
  }

  lemma MoreFiled(shards: seq<Shard>, filed: set<ValidEvent>, more: set<ValidEvent>)
    requires TextsFiled(shards, filed) && filed <= more
    ensures TextsFiled(shards, more)
  {
    forall id | Lookup(shards, id).Some? ensures TextFiled(more, id, Lookup(shards, id).value) {
      assert TextFiled(filed, id, Lookup(shards, id).value);
    }
  }

  lemma WriteKeepsTexts(cfg: Config, st: State, c: nat, key: nat, shard: nat)
    requires cfg.Valid() && SlotsInv(cfg, st) && TextsInv(st) && Enabled(cfg, st, WriteTo(c, key, shard))
    ensures TextsInv(Step(cfg, st, WriteTo(c, key, shard)))
  {
    var next := Step(cfg, st, WriteTo(c, key, shard));
    var events, k := EventsFor(st.callers[c].chosen, key), KeyAt(st.slots, key);
    forall i | 0 <= i < |next.slots| ensures TextsFiled(next.slots[i].index.shards, next.filed) {
      if i == k {
        WrittenTexts(cfg, st.slots[k].index.shards, shard, events, st.filed);
      } else {
        MoreFiled(st.slots[i].index.shards, st.filed, next.filed);
      }
    }
  }

  // What a retention pass changes.

  /** A slot whose window contains the time of an event within the period stays. */
  lemma SlotStays(cfg: Config, st: State, nows: seq<Time>, i: nat, e: ValidEvent)
    requires cfg.Valid() && SlotsInv(cfg, st) && Enabled(cfg, st, Retain(nows))
    requires i < |st.slots| && st.slots[i].index.window.Contains(e.time)
    requires Within(cfg, LatestOf(st.latest, nows), e)
    ensures st.slots[i] in Step(cfg, st, Retain(nows)).slots
  {
    SlotWindowsAre(st.slots);
    DescendingEnds(SlotWindows(st.slots), cfg.duration);
    RetentionIsSafe(st.slots, SlotWindow, nows, cfg.retention, i, e.time);
  }

  lemma RetainKeepsStoredId(cfg: Config, st: State, nows: seq<Time>, e: ValidEvent)
    requires cfg.Valid() && SlotsInv(cfg, st) && Enabled(cfg, st, Retain(nows))
    requires Stored(st.slots, e.Id()) && Within(cfg, LatestOf(st.latest, nows), e)
    ensures Stored(Step(cfg, st, Retain(nows)).slots, e.Id())
  {
    var next := Step(cfg, st, Retain(nows)).slots;
    var i :| 0 <= i < |st.slots| && e.Id() in AllIds(st.slots[i].index.shards);
    assert Sound(IndexList(st.slots)[i]);
    FiledFacts(e.Id(), st.slots[i].index.window);
    DecodeId(e);
    SlotStays(cfg, st, nows, i, e);
    var j :| 0 <= j < |next| && next[j] == st.slots[i];
  }

  lemma RetainKeepsLive(cfg: Config, st: State, nows: seq<Time>, ch: Choice)
    requires cfg.Valid() && SlotsInv(cfg, st) && Enabled(cfg, st, Retain(nows)) && ChoiceInv(cfg, st, ch)
    requires Live(st.slots, ch.key) && Within(cfg, LatestOf(st.latest, nows), ch.event)
    ensures Live(Step(cfg, st, Retain(nows)).slots, ch.key)
  {
    var next := Step(cfg, st, Retain(nows)).slots;
    var i :| 0 <= i < |st.slots| && st.slots[i].key == ch.key;
    SlotStays(cfg, st, nows, i, ch.event);
    var j :| 0 <= j < |next| && next[j] == st.slots[i];
  }

  lemma RetainKeepsKept(cfg: Config, st: State, nows: seq<Time>)
    requires cfg.Valid() && SlotsInv(cfg, st) && ChoicesInv(cfg, st) && KeptInv(cfg, st)
    requires Enabled(cfg, st, Retain(nows))
    ensures KeptInv(cfg, Step(cfg, st, Retain(nows)))
  {
    var next := Step(cfg, st, Retain(nows));
    forall e | e in next.filed && Within(cfg, next.latest, e) ensures Stored(next.slots, e.Id()) {
      RetainKeepsStoredId(cfg, st, nows, e);
    }
    forall c | c in next.callers ensures ChosenLive(cfg, next, next.callers[c].chosen) {
      var chosen := st.callers[c].chosen;
      assert ChosenLive(cfg, st, chosen);
      forall i | 0 <= i < |chosen| && Within(cfg, next.latest, chosen[i].event)
        ensures Live(next.slots, chosen[i].key)
      {
        RetainKeepsLive(cfg, st, nows, chosen[i]);
      }
    }
  }

  lemma RetainKeepsTexts(cfg: Config, st: State, nows: seq<Time>)
    requires cfg.Valid() && SlotsInv(cfg, st) && TextsInv(st) && Enabled(cfg, st, Retain(nows))
    ensures TextsInv(Step(cfg, st, Retain(nows)))
  {
    RetainInv(cfg, st, nows);
  }

  lemma StepKeepsTexts(cfg: Config, st: State, a: Action)
    requires cfg.Valid() && SlotsInv(cfg, st) && TextsInv(st) && Enabled(cfg, st, a)
    ensures TextsInv(Step(cfg, st, a))
  {
    match a
    case CreateOrReuse(c) => CreateKeepsTexts(cfg, st, c);
    case WriteTo(c, key, k) => WriteKeepsTexts(cfg, st, c, key, k);
    case Retain(nows) => RetainKeepsTexts(cfg, st, nows);
    case _ =>
  }

  lemma StepKeepsKept(cfg: Config, st: State, a: Action)
    requires cfg.Valid() && SlotsInv(cfg, st) && ChoicesInv(cfg, st) && KeptInv(cfg, st) && Enabled(cfg, st, a)
    ensures KeptInv(cfg, Step(cfg, st, a))
  {
    match a
    case LookUp(c) =>
      var k := Find(SlotWindows(st.slots), st.callers[c].todo[0].time);
      if k < |st.slots| {
        assert Live(st.slots, st.slots[k].key);
        ReuseKept(cfg, st, c, st.slots[k], Reading);
      }
    case CreateOrReuse(c) => CreateKeepsKept(cfg, st, c);
    case WriteTo(c, key, k) => WriteKeepsKept(cfg, st, c, key, k);
    case Retain(nows) => RetainKeepsKept(cfg, st, nows);
    case _ =>
  }

  // ----- The whole invariant -----

  ghost predicate Inv(cfg: Config, st: State) {
    && cfg.Valid()
    && SlotsInv(cfg, st) && ChoicesInv(cfg, st) && LockInv(st)
    && EventsInv(cfg, st) && TextsInv(st) && KeptInv(cfg, st)
  }

  lemma StepKeepsInv(cfg: Config, st: State, a: Action)
    requires Inv(cfg, st) && Enabled(cfg, st, a)
    ensures Inv(cfg, Step(cfg, st, a))
  {
    StepKeepsSlots(cfg, st, a);
    StepKeepsChoices(cfg, st, a);
    StepKeepsLock(cfg, st, a);
    StepKeepsEvents(cfg, st, a);
    StepKeepsTexts(cfg, st, a);
    StepKeepsKept(cfg, st, a);
  }

  lemma {:induction false} RunKeepsInv(cfg: Config, st: State, acts: seq<Action>)
    requires Inv(cfg, st) && Possible(cfg, st, acts)
    ensures Inv(cfg, Run(cfg, st, acts))
    decreases |acts|
  {
    if acts != [] {
      StepKeepsInv(cfg, st, acts[0]);
      RunKeepsInv(cfg, Step(cfg, st, acts[0]), acts[1..]);
    }
  }
}
