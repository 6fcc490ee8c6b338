/** What the engine object's methods compute is what the steps of the state machine lead to: a call of Index on its own
    takes steps that, in any order they allow, end with what IndexEvents computes, and the retention step is
    EnforceRetention. */
module EngineAlone {
  import opened Sequences
  import opened Windows
  import opened Store
  import opened EventStore
  import opened EngineObject
  import opened EngineSteps
  import opened EngineInvariant
  import opened EngineRuns

  predicate StepOf(a: Action, c: nat) {
    !a.Start? && !a.RequestRetain? && !a.Retain? && a.id == c
  }

  // ----- What a call has done so far -----

  /** The choices are those of the first events of the batch, and their indexes are in the list. */
  ghost predicate ChoseInOrder(slots: seq<Slot>, chosen: seq<Choice>, events: seq<ValidEvent>) {
    && |chosen| <= |events|
    && forall i | 0 <= i < |chosen| :: chosen[i].event == events[i] && Live(slots, chosen[i].key)
  }

  /** The call is looking for indexes: the list is the old one with a window for each event looked at. */
  ghost predicate Choosing(cfg: Config, v: seq<Index>, events: seq<ValidEvent>, st: State, c: nat) {
    && st.callers.Keys == {c} && st.callers[c].phase != Writing
    && ChoseInOrder(st.slots, st.callers[c].chosen, events)
    && st.callers[c].todo == events[|st.callers[c].chosen|..]
    && IndexList(st.slots) == EnsuredAll(v, events[..|st.callers[c].chosen|], cfg.duration, cfg.numShards)
  }

  /** The shard of an index, with or without its part of the batch. */
  function ShardAfter(ix: Index, events: seq<ValidEvent>, k: nat, written: bool): Shard
    requires k < |ix.shards|
  {
    if written then Write(ix.shards[k], ForShard(DocsFor(events, ix.window), |ix.shards|, k)) else ix.shards[k]
  }

  ghost predicate SlotAfter(s: Slot, ix: Index, events: seq<ValidEvent>, written: set<(nat, nat)>) {
    && s.index.window == ix.window && |s.index.shards| == |ix.shards|
    && forall k: nat | k < |ix.shards| :: s.index.shards[k] == ShardAfter(ix, events, k, (s.key, k) in written)
  }

  /** The call is writing: the shards that have been written hold their part of the batch, the others are as before. */
  ghost predicate Filing(cfg: Config, base: seq<Index>, events: seq<ValidEvent>, st: State, c: nat) {
    && st.callers.Keys == {c} && st.callers[c].phase == Writing
    && |st.callers[c].chosen| == |events| && ChoseInOrder(st.slots, st.callers[c].chosen, events)
    && |st.slots| == |base|
    && forall i | 0 <= i < |base| :: SlotAfter(st.slots[i], base[i], events, st.callers[c].written)
  }

  // ----- Looking for indexes -----

  lemma ChooseKeepsOrder(slots: seq<Slot>, caller: Caller, s: Slot, phase: Phase, events: seq<ValidEvent>)
    requires ChoseInOrder(slots, caller.chosen, events) && Live(slots, s.key)
    requires caller.todo == events[|caller.chosen|..] && caller.todo != []
    ensures var next := Choose(caller, s, phase);
            ChoseInOrder(slots, next.chosen, events) && next.todo == events[|next.chosen|..]
  {
    var j := |caller.chosen|;
    assert caller.todo[0] == events[j] && caller.todo[1..] == events[j + 1..];
  }

  lemma EnsuredNext(v: seq<Index>, events: seq<ValidEvent>, j: nat, d: int, n: nat)
    requires j < |events|
    ensures EnsuredAll(v, events[..j + 1], d, n) == Ensured(EnsuredAll(v, events[..j], d, n), events[j].time, d, n)
  {
    FrontSnoc(events, j);
  }

  lemma ReuseKeepsChoosing(
    cfg: Config, v: seq<Index>, events: seq<ValidEvent>, st: State, c: nat, phase: Phase)
    requires Choosing(cfg, v, events, st, c) && st.callers[c].todo != [] && phase != Writing
    requires Find(SlotWindows(st.slots), st.callers[c].todo[0].time) < |st.slots|
    ensures var s := st.slots[Find(SlotWindows(st.slots), st.callers[c].todo[0].time)];
            Choosing(cfg, v, events, WithCaller(st, c, Choose(st.callers[c], s, phase)), c)
  {
    var k := Find(SlotWindows(st.slots), st.callers[c].todo[0].time);
    assert Live(st.slots, st.slots[k].key);
    ChooseKeepsOrder(st.slots, st.callers[c], st.slots[k], phase, events);
    EnsuredNext(v, events, |st.callers[c].chosen|, cfg.duration, cfg.numShards);
    SlotWindowsAre(st.slots);
  }

  lemma CreationKeepsChoosing(cfg: Config, v: seq<Index>, events: seq<ValidEvent>, st: State, c: nat)
    requires Inv(cfg, st) && Choosing(cfg, v, events, st, c) && st.callers[c].todo != []
    requires Find(SlotWindows(st.slots), st.callers[c].todo[0].time) == |st.slots|
    ensures var r := RequestFor(SlotWindows(st.slots), st.callers[c].todo[0].time, cfg.duration);
            r.Granted? && Choosing(cfg, v, events, CreatedFor(cfg, st, c, r.window), c)
  {
    var caller, t := st.callers[c], st.callers[c].todo[0].time;
    NewSlotInv(cfg, st, t);
    var w := RequestFor(SlotWindows(st.slots), t, cfg.duration).window;
    CreationKeepsChosen(cfg, st, caller.chosen, events, w);
    ChooseKeepsOrder(WithNew(cfg, st, w).slots, caller, Slot(st.nextKey, Index(w, [])), Relocking, events);
    CreationEnsures(cfg, v, events, st, |caller.chosen|, w);
  }

  lemma CreationKeepsChosen(cfg: Config, st: State, chosen: seq<Choice>, events: seq<ValidEvent>, w: Window)
    requires ChoseInOrder(st.slots, chosen, events)
    ensures var next := WithNew(cfg, st, w).slots; ChoseInOrder(next, chosen, events) && Live(next, st.nextKey)
  {
    var next := WithNew(cfg, st, w).slots;
    forall key: nat | Live(st.slots, key) || key == st.nextKey ensures Live(next, key) {
      NewSlotKeepsLive(cfg, st, w, key);
    }
  }

  lemma CreationEnsures(cfg: Config, v: seq<Index>, events: seq<ValidEvent>, st: State, j: nat, w: Window)
    requires j < |events| && IndexList(st.slots) == EnsuredAll(v, events[..j], cfg.duration, cfg.numShards)
    requires Find(SlotWindows(st.slots), events[j].time) == |st.slots|
    requires RequestFor(SlotWindows(st.slots), events[j].time, cfg.duration) == Granted(w)
    ensures IndexList(WithNew(cfg, st, w).slots) ==
            EnsuredAll(v, events[..j + 1], cfg.duration, cfg.numShards)
  {
    EnsuredNext(v, events, j, cfg.duration, cfg.numShards);
    NewSlotList(cfg, st, w);
    SlotWindowsAre(st.slots);
  }

  lemma StepKeepsChoosing(cfg: Config, v: seq<Index>, events: seq<ValidEvent>, st: State, c: nat, a: Action)
    requires Inv(cfg, st) && Choosing(cfg, v, events, st, c) && StepOf(a, c) && Enabled(cfg, st, a)
    requires !a.BeginWriting?
    ensures Choosing(cfg, v, events, Step(cfg, st, a), c)
  {
    match a
    case LookUp(_) =>
      if Find(SlotWindows(st.slots), st.callers[c].todo[0].time) < |st.slots| {
        ReuseKeepsChoosing(cfg, v, events, st, c, Reading);
      }
    case CreateOrReuse(_) =>
      if Find(SlotWindows(st.slots), st.callers[c].todo[0].time) < |st.slots| {
        ReuseKeepsChoosing(cfg, v, events, st, c, Relocking);
      } else {
        CreationKeepsChoosing(cfg, v, events, st, c);
      }
    case _ =>
  }

  lemma BeginKeepsIndexes(cfg: Config, v: seq<Index>, events: seq<ValidEvent>, st: State, c: nat)
    requires Inv(cfg, st) && Choosing(cfg, v, events, st, c) && Enabled(cfg, st, BeginWriting(c))
    ensures Filing(cfg, EnsuredAll(v, events, cfg.duration, cfg.numShards), events, Step(cfg, st, BeginWriting(c)), c)
  {
    assert HoldsStarted(st.callers[c], st.started);
    assert events[..|events|] == events;
  }

  // ----- Writing -----

  /** An event was assigned to a slot exactly if the slot's window contains its time. */
  lemma ChosenIffContains(cfg: Config, st: State, ch: Choice, i: nat)
    requires cfg.Valid() && SlotsInv(cfg, st) && ChoiceInv(cfg, st, ch) && Live(st.slots, ch.key) && i < |st.slots|
    ensures ch.key == st.slots[i].key <==> st.slots[i].index.window.Contains(ch.event.time)
  {
    var j :| 0 <= j < |st.slots| && st.slots[j].key == ch.key;
    SlotWindowsAre(st.slots);
    var ws := SlotWindows(st.slots);
    if i < j { assert ws[j].end <= ws[i].start; } else if j < i { assert ws[i].end <= ws[j].start; }
  }

  lemma DocsOfSnoc(events: seq<ValidEvent>, e: ValidEvent)
    ensures DocsOf(events + [e]) == DocsOf(events) + [e.Doc()]
  {
  }

  lemma EventsForNext(chosen: seq<Choice>, key: nat, m: nat)
    requires m < |chosen|
    ensures EventsFor(chosen[..m + 1], key) ==
            EventsFor(chosen[..m], key) + if chosen[m].key == key then [chosen[m].event] else []
  {
    FrontSnoc(chosen, m);
  }

  lemma DocsForNext(events: seq<ValidEvent>, w: Window, m: nat)
    requires m < |events|
    ensures DocsFor(events[..m + 1], w) ==
            DocsFor(events[..m], w) + if w.Contains(events[m].time) then [events[m].Doc()] else []
  {
    FrontSnoc(events, m);
  }

  /** The sub-batch of an index holds the documents of the events in its window. */
  lemma {:induction false} SubBatchIsDocs(
    cfg: Config, st: State, chosen: seq<Choice>, events: seq<ValidEvent>, i: nat, m: nat)
    requires cfg.Valid() && SlotsInv(cfg, st) && i < |st.slots| && m <= |chosen|
    requires ChoseInOrder(st.slots, chosen, events)
    requires forall k | 0 <= k < |chosen| :: ChoiceInv(cfg, st, chosen[k])
    ensures DocsOf(EventsFor(chosen[..m], st.slots[i].key)) == DocsFor(events[..m], st.slots[i].index.window)
    decreases m
  {
    if m > 0 {
      var key, w := st.slots[i].key, st.slots[i].index.window;
      SubBatchIsDocs(cfg, st, chosen, events, i, m - 1);
      ChosenIffContains(cfg, st, chosen[m - 1], i);
      EventsForNext(chosen, key, m - 1);
      DocsForNext(events, w, m - 1);
      DocsOfSnoc(EventsFor(chosen[..m - 1], key), chosen[m - 1].event);
    }
  }

  lemma WholeSubBatch(cfg: Config, st: State, c: nat, events: seq<ValidEvent>, i: nat)
    requires Inv(cfg, st) && c in st.callers && i < |st.slots|
    requires |st.callers[c].chosen| == |events| && ChoseInOrder(st.slots, st.callers[c].chosen, events)
    ensures DocsOf(EventsFor(st.callers[c].chosen, st.slots[i].key)) == DocsFor(events, st.slots[i].index.window)
  {
    var chosen := st.callers[c].chosen;
    SubBatchIsDocs(cfg, st, chosen, events, i, |chosen|);
    assert chosen[..|chosen|] == chosen && events[..|events|] == events;
  }

  lemma WrittenSlot(s: Slot, ix: Index, events: seq<ValidEvent>, written: set<(nat, nat)>, k: nat)
    requires SlotAfter(s, ix, events, written) && k < |ix.shards| && (s.key, k) !in written
    ensures SlotAfter(Slot(s.key, FiledOn(s.index, k, DocsFor(events, ix.window))), ix, events, written + {(s.key, k)})
  {
  }

  lemma UnwrittenSlot(s: Slot, ix: Index, events: seq<ValidEvent>, written: set<(nat, nat)>, key: nat, k: nat)
    requires SlotAfter(s, ix, events, written) && s.key != key
    ensures SlotAfter(s, ix, events, written + {(key, k)})
  {
  }

  lemma WriteKeepsFiling(
    cfg: Config, base: seq<Index>, events: seq<ValidEvent>, st: State, c: nat, key: nat, shard: nat)
    requires Inv(cfg, st) && Filing(cfg, base, events, st, c) && Enabled(cfg, st, WriteTo(c, key, shard))
    ensures Filing(cfg, base, events, Step(cfg, st, WriteTo(c, key, shard)), c)
  {
    var next := Step(cfg, st, WriteTo(c, key, shard));
    var caller, j := st.callers[c], KeyAt(st.slots, key);
    var docs := DocsOf(EventsFor(caller.chosen, key));
    forall i | 0 <= i < |base| ensures SlotAfter(next.slots[i], base[i], events, next.callers[c].written) {
      if i == j {
        WholeSubBatch(cfg, st, c, events, i);
        WrittenSlot(st.slots[i], base[i], events, caller.written, shard);
      } else {
        OneSlotPerKey(cfg, st, i, key);
        UnwrittenSlot(st.slots[i], base[i], events, caller.written, key, shard);
      }
    }
    forall other: nat ensures Live(st.slots, other) <==> Live(next.slots, other) {
      WriteKeepsLive(st.slots, key, shard, docs, other);
    }
  }

  lemma OneSlotPerKey(cfg: Config, st: State, i: nat, key: nat)
    requires SlotsInv(cfg, st) && i < |st.slots| && i != KeyAt(st.slots, key)
    ensures st.slots[i].key != key
  {
  }

  /** If nothing of the batch was assigned to the slot, nothing of it falls into its window. */
  lemma {:induction false} NothingAssigned(chosen: seq<Choice>, key: nat)
    requires forall i | 0 <= i < |chosen| :: chosen[i].key != key
    ensures EventsFor(chosen, key) == []
  {
    if chosen != [] { NothingAssigned(chosen[..|chosen| - 1], key); }
  }

  lemma SlotIsFiled(cfg: Config, base: seq<Index>, events: seq<ValidEvent>, st: State, c: nat, i: nat, k: nat)
    requires Inv(cfg, st) && Filing(cfg, base, events, st, c) && Enabled(cfg, st, Finish(c))
    requires i < |base| && k < |base[i].shards|
    ensures st.slots[i].index.shards[k] == ShardAfter(base[i], events, k, true)
  {
    var caller, key := st.callers[c], st.slots[i].key;
    assert SlotAfter(st.slots[i], base[i], events, caller.written);
    if (key, k) !in caller.written {
      assert forall m | 0 <= m < |caller.chosen| :: caller.chosen[m] in caller.chosen;
      assert forall m | 0 <= m < |caller.chosen| :: (caller.chosen[m].key, k) in Targets(cfg, caller);
      NothingAssigned(caller.chosen, key);
      WholeSubBatch(cfg, st, c, events, i);
    }
  }

  lemma EverythingIsFiled(cfg: Config, base: seq<Index>, events: seq<ValidEvent>, st: State, c: nat)
    requires Inv(cfg, st) && Filing(cfg, base, events, st, c) && Enabled(cfg, st, Finish(c))
    ensures IndexList(st.slots) == FiledAll(base, events)
  {
    forall i | 0 <= i < |base| ensures st.slots[i].index == FiledAll(base, events)[i] {
      assert SlotAfter(st.slots[i], base[i], events, st.callers[c].written);
      var filed := FiledAll(base, events)[i];
      forall k | 0 <= k < |base[i].shards| ensures st.slots[i].index.shards[k] == filed.shards[k] {
        SlotIsFiled(cfg, base, events, st, c, i, k);
      }
      assert st.slots[i].index.shards == filed.shards;
    }
  }

  // ----- A whole call -----

  ghost predicate StepsOf(acts: seq<Action>, c: nat) {
    forall i | 0 <= i < |acts| :: StepOf(acts[i], c)
  }

  /** The call is somewhere between its start and its end. */
  ghost predicate Underway(cfg: Config, v: seq<Index>, events: seq<ValidEvent>, st: State, c: nat) {
    || Choosing(cfg, v, events, st, c)
    || Filing(cfg, EnsuredAll(v, events, cfg.duration, cfg.numShards), events, st, c)
  }

  lemma StepKeepsUnderway(cfg: Config, v: seq<Index>, events: seq<ValidEvent>, st: State, c: nat, a: Action)
    requires Inv(cfg, st) && Underway(cfg, v, events, st, c) && StepOf(a, c) && Enabled(cfg, st, a) && !a.Finish?
    ensures Underway(cfg, v, events, Step(cfg, st, a), c)
  {
    var base := EnsuredAll(v, events, cfg.duration, cfg.numShards);
    if a.BeginWriting? {
      BeginKeepsIndexes(cfg, v, events, st, c);
    } else if a.WriteTo? {
      WriteKeepsFiling(cfg, base, events, st, c, a.key, a.shard);
    } else {
      StepKeepsChoosing(cfg, v, events, st, c, a);
    }
  }

  lemma {:induction false} RunOfOne(
    cfg: Config, v: seq<Index>, base: seq<Index>, events: seq<ValidEvent>, st: State, c: nat, acts: seq<Action>)
    requires Inv(cfg, st) && base == EnsuredAll(v, events, cfg.duration, cfg.numShards)
    requires Underway(cfg, v, events, st, c)
    requires Possible(cfg, st, acts) && StepsOf(acts, c) && Quiet(Run(cfg, st, acts))
    ensures IndexList(Run(cfg, st, acts).slots) == FiledAll(base, events)
    decreases |acts|
  {
    assert c in st.callers;
    if acts[0].Finish? {
      EndOfOne(cfg, base, events, st, c, acts);
    } else {
      StepKeepsInv(cfg, st, acts[0]);
      StepKeepsUnderway(cfg, v, events, st, c, acts[0]);
      TailOf(acts, c);
      RunOfOne(cfg, v, base, events, Step(cfg, st, acts[0]), c, acts[1..]);
    }
  }

  lemma TailOf(acts: seq<Action>, c: nat)
    requires acts != [] && StepsOf(acts, c)
    ensures StepOf(acts[0], c) && StepsOf(acts[1..], c)
  {
    assert forall i | 0 <= i < |acts| - 1 :: acts[1..][i] == acts[i + 1];
  }

  lemma EndOfOne(cfg: Config, base: seq<Index>, events: seq<ValidEvent>, st: State, c: nat, acts: seq<Action>)
    requires Inv(cfg, st) && Filing(cfg, base, events, st, c)
    requires acts != [] && acts[0].Finish? && Possible(cfg, st, acts) && StepsOf(acts, c)
    ensures IndexList(Run(cfg, st, acts).slots) == FiledAll(base, events)
  {
    EverythingIsFiled(cfg, base, events, st, c);
    NothingAfterTheEnd(cfg, Step(cfg, st, acts[0]), c, acts[1..]);
  }

  lemma NothingAfterTheEnd(cfg: Config, st: State, c: nat, acts: seq<Action>)
    requires cfg.Valid() && c !in st.callers && Possible(cfg, st, acts) && StepsOf(acts, c)
    ensures acts == []
  {
    assert acts != [] ==> StepOf(acts[0], c);
  }

  /** Every run of one call of Index on its own, from any state without calls, ends with the indexes that the engine
      object's IndexEvents computes. */
  lemma OneCallIsIndexEvents(cfg: Config, st: State, c: nat, events: seq<ValidEvent>, acts: seq<Action>)
    requires Inv(cfg, st) && Quiet(st) && !st.retaining && StepsOf(acts, c)
    requires Possible(cfg, st, [Start(c, events)] + acts) && Quiet(Run(cfg, st, [Start(c, events)] + acts))
    ensures IndexList(Run(cfg, st, [Start(c, events)] + acts).slots) ==
            FiledAll(EnsuredAll(IndexList(st.slots), events, cfg.duration, cfg.numShards), events)
  {
    var a, all := Start(c, events), [Start(c, events)] + acts;
    assert all[0] == a && all[1..] == acts;
    var next := Step(cfg, st, a);
    StepKeepsInv(cfg, st, a);
    assert events[..0] == [] && events[0..] == events;
    assert Choosing(cfg, IndexList(st.slots), events, next, c);
    var v := IndexList(st.slots);
    RunOfOne(cfg, v, EnsuredAll(v, events, cfg.duration, cfg.numShards), events, next, c, acts);
  }

  /** The retention step leaves exactly the indexes that EnforceRetention leaves. */
  lemma RetainIsEnforceRetention(cfg: Config, st: State, nows: seq<Time>)
    requires Inv(cfg, st) && Enabled(cfg, st, Retain(nows))
    ensures var v := IndexList(st.slots);
            IndexList(Step(cfg, st, Retain(nows)).slots) == v[..KeptCount(WindowList(v), nows, cfg.retention)]
  {
    RetainInv(cfg, st, nows);
    SlotWindowsAre(st.slots);
  }
}
