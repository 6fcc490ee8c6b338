/** Concurrent Index callers and retention passes as a state machine (engine.go:225-344). A caller holds the read lock
    except while it upgrades to the write lock to create an index: then it gives up the read lock, asks for the write
    lock, looks again under it, and takes the read lock again afterwards. Each step below runs under the lock the code
    holds there. As in Go's RWMutex, one writer at a time may wait for the readers to leave, and while it waits no new
    reader gets in. */
module EngineSteps {
  import opened Sequences
  import opened Windows
  import opened Store
  import opened EventStore
  import opened Wrappers

  /** Fixed settings: the duration of new indexes, their number of shards, and the retention period. */
  datatype Config = Config(duration: int, numShards: nat, retention: int) {
    predicate Valid() {
      duration > 0 && 1 <= numShards <= MAX_SHARDS
    }
  }

  /** An index in the list; the key tells objects apart that were created at different times. */
  datatype Slot = Slot(key: nat, index: Index)

  const SlotWindow: Slot -> Window := (s: Slot) => s.index.window

  /** The index an event was assigned to. */
  datatype Choice = Choice(event: ValidEvent, key: nat, window: Window)

  datatype Phase =
    | Reading     // holds the read lock, looks for the next event's index
    | Released    // holds no lock, has still to ask for the write lock
    | Waiting     // holds no lock, waits for the readers to leave
    | Relocking   // holds no lock, has still to get the read lock
    | Writing     // holds the read lock, writes its sub-batches

  /** One running call of Index. Choices from `held` on were made since the read lock was last taken. `written` are the
      shards that have got their part of a sub-batch, each with the key of its index. */
  datatype Caller = Caller(
    phase: Phase, todo: seq<ValidEvent>, chosen: seq<Choice>, held: nat, written: set<(nat, nat)>)

  /** `retaining` says that a retention pass waits for the write lock. `started` and `filed` are the events handed to
      Index and those that have been written; `latest` is the latest time at which a retention pass looked at the
      clock. */
  datatype State = State(
    slots: seq<Slot>, nextKey: nat, callers: map<nat, Caller>, retaining: bool,
    started: set<ValidEvent>, filed: set<ValidEvent>, latest: Option<Time>)

  const INITIAL := State([], 0, map[], false, {}, {}, None)

  datatype Action =
    | Start(id: nat, events: seq<ValidEvent>)
    | LookUp(id: nat)
    | RequestLock(id: nat)
    | CreateOrReuse(id: nat)
    | Relock(id: nat)
    | BeginWriting(id: nat)
    | WriteTo(id: nat, key: nat, shard: nat)
    | Finish(id: nat)
    | RequestRetain
    | Retain(nows: seq<Time>)

  function IndexList(slots: seq<Slot>): (v: seq<Index>)
    ensures |v| == |slots| && forall i | 0 <= i < |slots| :: v[i] == slots[i].index
  {
    seq(|slots|, i requires 0 <= i < |slots| => slots[i].index)
  }

  function SlotWindows(slots: seq<Slot>): (ws: seq<Window>)
    ensures |ws| == |slots| && forall i | 0 <= i < |slots| :: ws[i] == slots[i].index.window
  {
    WindowsOf(slots, SlotWindow)
  }

  // ----- Locks -----

  predicate HoldsReadLock(c: Caller) {
    c.phase == Reading || c.phase == Writing
  }

  /** No reader is in. */
  predicate WriteLockFree(st: State) {
    forall c | c in st.callers :: !HoldsReadLock(st.callers[c])
  }

  predicate WriterWaits(st: State) {
    st.retaining || exists c | c in st.callers :: st.callers[c].phase == Waiting
  }

  predicate In(st: State, c: nat, phase: Phase) {
    c in st.callers && st.callers[c].phase == phase
  }

  /** The shards that a caller has to write to. */
  function Targets(cfg: Config, c: Caller): set<(nat, nat)> {
    set ch, k | ch in c.chosen && 0 <= k < cfg.numShards :: (ch.key, k)
  }

  ghost predicate Enabled(cfg: Config, st: State, a: Action) {
    match a
    case Start(c, _) => c !in st.callers && !WriterWaits(st)
    case LookUp(c) => In(st, c, Reading) && st.callers[c].todo != []
    case RequestLock(c) => In(st, c, Released) && !WriterWaits(st)
    case CreateOrReuse(c) => In(st, c, Waiting) && st.callers[c].todo != [] && WriteLockFree(st)
    case Relock(c) => In(st, c, Relocking) && !WriterWaits(st)
    case BeginWriting(c) => In(st, c, Reading) && st.callers[c].todo == []
    case WriteTo(c, key, k) => In(st, c, Writing) && (key, k) in Targets(cfg, st.callers[c]) - st.callers[c].written
    case Finish(c) => In(st, c, Writing) && Targets(cfg, st.callers[c]) <= st.callers[c].written
    case RequestRetain => !WriterWaits(st)
    case Retain(nows) => st.retaining && |nows| == |st.slots| && NonDecreasing(nows) && WriteLockFree(st)
  }

  // ----- Steps -----

  function Choose(c: Caller, s: Slot, phase: Phase): Caller
    requires c.todo != []
  {
    c.(phase := phase, todo := c.todo[1..], chosen := c.chosen + [Choice(c.todo[0], s.key, s.index.window)])
  }

  /** The position of the slot with this key, or |slots|. */
  function KeyAt(slots: seq<Slot>, key: nat): (k: nat)
    ensures k <= |slots|
    ensures k < |slots| ==> slots[k].key == key
    ensures forall i | 0 <= i < k :: slots[i].key != key
  {
    if slots == [] || slots[0].key == key then 0 else 1 + KeyAt(slots[1..], key)
  }

  function EventsFor(chosen: seq<Choice>, key: nat): seq<ValidEvent> {
    if chosen == [] then []
    else
      var front := EventsFor(chosen[..|chosen| - 1], key);
      if chosen[|chosen| - 1].key == key then front + [chosen[|chosen| - 1].event] else front
  }

  function DocsOf(events: seq<ValidEvent>): (docs: seq<Document>)
    ensures |docs| == |events|
  {
    seq(|events|, i requires 0 <= i < |events| => events[i].Doc())
  }

  /** The events whose documents belong on shard k of n. */
  function OnShard(events: seq<ValidEvent>, n: nat, k: nat): set<ValidEvent>
    requires n > 0
  {
    set e | e in events && Route(e.Id(), n) == k
  }

  function WithNew(cfg: Config, st: State, w: Window): State {
    var slot := Slot(st.nextKey, Index(w, Empty(cfg.numShards)));
    st.(slots := InsertAt(st.slots, Position(SlotWindows(st.slots), w), slot), nextKey := st.nextKey + 1)
  }

  /** The slots after one shard has got its part of a sub-batch: nothing happens if the index is gone from the list. */
  function WithDocs(slots: seq<Slot>, key: nat, shard: nat, docs: seq<Document>): (r: seq<Slot>)
    ensures |r| == |slots|
  {
    var k := KeyAt(slots, key);
    if k == |slots| || shard >= |slots[k].index.shards| then slots
    else slots[k := Slot(key, FiledOn(slots[k].index, shard, docs))]
  }

  function WithCaller(st: State, c: nat, caller: Caller): State {
    st.(callers := st.callers[c := caller])
  }

  /** A new index for the caller's next event. */
  function CreatedFor(cfg: Config, st: State, c: nat, w: Window): State
    requires c in st.callers && st.callers[c].todo != []
  {
    WithCaller(WithNew(cfg, st, w), c, Choose(st.callers[c], Slot(st.nextKey, Index(w, [])), Relocking))
  }

  /** The latest look at the clock, after a pass that looked at it once for each index. */
  function LatestOf(latest: Option<Time>, nows: seq<Time>): Option<Time> {
    if nows == [] then latest
    else
      var now := nows[|nows| - 1];
      Some(if latest.Some? && latest.value > now then latest.value else now)
  }

  function Step(cfg: Config, st: State, a: Action): State
    requires cfg.Valid() && Enabled(cfg, st, a)
  {
    match a
    case Start(c, events) =>
      WithCaller(st, c, Caller(Reading, events, [], 0, {})).(started := st.started + set e | e in events)
    case LookUp(c) =>
      var caller := st.callers[c];
      var k := Find(SlotWindows(st.slots), caller.todo[0].time);
      if k < |st.slots| then WithCaller(st, c, Choose(caller, st.slots[k], Reading))
      else WithCaller(st, c, caller.(phase := Released))
    case RequestLock(c) =>
      WithCaller(st, c, st.callers[c].(phase := Waiting))
    case CreateOrReuse(c) =>
      var caller := st.callers[c];
      var t := caller.todo[0].time;
      var k := Find(SlotWindows(st.slots), t);
      if k < |st.slots| then WithCaller(st, c, Choose(caller, st.slots[k], Relocking))
      else
        var r := RequestFor(SlotWindows(st.slots), t, cfg.duration);
        if r.AssertionFailed? then WithCaller(st, c, caller)
        else CreatedFor(cfg, st, c, r.window)
    case Relock(c) =>
      var caller := st.callers[c];
      WithCaller(st, c, caller.(phase := Reading, held := |caller.chosen|))
    case BeginWriting(c) =>
      WithCaller(st, c, st.callers[c].(phase := Writing))
    case WriteTo(c, key, k) =>
      var caller := st.callers[c];
      var events := EventsFor(caller.chosen, key);
      WithCaller(st, c, caller.(written := caller.written + {(key, k)})).(
        slots := WithDocs(st.slots, key, k, DocsOf(events)),
        filed := st.filed + OnShard(events, cfg.numShards, k))
    case Finish(c) =>
      st.(callers := st.callers - {c})
    case RequestRetain =>
      st.(retaining := true)
    case Retain(nows) =>
      st.(slots := Retained(st.slots, SlotWindow, nows, cfg.retention), retaining := false,
          latest := LatestOf(st.latest, nows))
  }

  ghost predicate Possible(cfg: Config, st: State, acts: seq<Action>)
    requires cfg.Valid()
    decreases |acts|
  {
    acts == [] || (Enabled(cfg, st, acts[0]) && Possible(cfg, Step(cfg, st, acts[0]), acts[1..]))
  }

  ghost function Run(cfg: Config, st: State, acts: seq<Action>): State
    requires cfg.Valid() && Possible(cfg, st, acts)
    decreases |acts|
  {
    if acts == [] then st else Run(cfg, Step(cfg, st, acts[0]), acts[1..])
  }

  /** The event was within the retention period whenever a retention pass looked at the clock. */
  predicate Within(cfg: Config, latest: Option<Time>, e: Event) {
    latest.Some? ==> e.time + cfg.retention >= latest.value
  }

  /** The action is a step of some running call. */
  predicate StepsCaller(st: State, a: Action) {
    !a.Start? && !a.RequestRetain? && !a.Retain? && a.id in st.callers
  }
}
