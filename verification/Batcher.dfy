/** The batcher (engine.go:36-102): collects events and hands them to the indexer when enough have come or when
    a timer says so. Which branch of its select runs next, and whether the indexer succeeds, is up to the schedule. */
module Batcher {
  import opened Sequences

  /** `armed` is the timer running; `tick` is a firing that waits in the timer's channel, which holds one. Stopping
      or resetting the timer does not remove a waiting tick, so a tick can be stale. `sent` are the batches that the
      indexer took. */
  datatype State<T> = State(batch: seq<T>, armed: bool, tick: bool, sent: seq<seq<T>>)

  /** `ok` says whether the indexer succeeds, if it is called. */
  datatype Action<T> = Receive(event: T, ok: bool) | Fire | TakeTick(ok: bool)

  /** A new timer may fire before it is stopped, so a tick may be waiting at the start. */
  predicate Initial<T(==)>(st: State<T>) {
    st.batch == [] && !st.armed && st.sent == []
  }

  predicate Enabled<T>(st: State<T>, a: Action<T>) {
    match a
    case Receive(_, _) => true
    case Fire => st.armed
    case TakeTick(_) => st.tick
  }

  function Send<T>(st: State<T>, ok: bool): State<T> {
    if ok then st.(batch := [], sent := st.sent + [st.batch]) else st
  }

  function Step<T>(size: nat, st: State<T>, a: Action<T>): State<T> {
    match a
    case Receive(e, ok) =>
      var b := st.batch + [e];
      if |b| == size then Send(st.(batch := b, armed := false), ok)
      else st.(batch := b, armed := st.armed || |b| == 1)
    case Fire => st.(armed := false, tick := true)
    case TakeTick(ok) => Send(st.(tick := false), ok)
  }

  // ----- Runs -----

  /** The action at every step is possible there. */
  predicate Possible<T>(size: nat, st: State<T>, acts: seq<Action<T>>)
    decreases |acts|
  {
    acts == [] || (Enabled(st, acts[0]) && Possible(size, Step(size, st, acts[0]), acts[1..]))
  }

  function Run<T>(size: nat, st: State<T>, acts: seq<Action<T>>): State<T>
    decreases |acts|
  {
    if acts == [] then st else Run(size, Step(size, st, acts[0]), acts[1..])
  }

  function Received<T>(acts: seq<Action<T>>): seq<T> {
    if acts == [] then []
    else (if acts[0].Receive? then [acts[0].event] else []) + Received(acts[1..])
  }

  function Accepted<T>(st: State<T>): seq<T> {
    Flatten(st.sent) + st.batch
  }

  lemma StepAccepts<T>(size: nat, st: State<T>, a: Action<T>)
    ensures Accepted(Step(size, st, a)) == Accepted(st) + if a.Receive? then [a.event] else []
  {
    match a
    case Receive(e, ok) =>
      FlattenSnoc(st.sent, st.batch + [e]);
      assert Flatten(st.sent) + (st.batch + [e]) == Accepted(st) + [e];
    case Fire =>
    case TakeTick(ok) => FlattenSnoc(st.sent, st.batch);
  }

  /** First in, first out, and nothing lost: on every run, however often the indexer fails, the batches it took and
      the pending batch are together the events received, in order. */
  lemma {:induction false} NothingLost<T>(size: nat, st: State<T>, acts: seq<Action<T>>)
    ensures Accepted(Run(size, st, acts)) == Accepted(st) + Received(acts)
    decreases |acts|
  {
    if acts == [] {
      assert Accepted(st) + [] == Accepted(st);
    } else {
      StepAccepts(size, st, acts[0]);
      NothingLost(size, Step(size, st, acts[0]), acts[1..]);
      Associative(Accepted(st), if acts[0].Receive? then [acts[0].event] else [], Received(acts[1..]));
    }
  }

  lemma ConservedFromStart<T>(size: nat, st: State<T>, acts: seq<Action<T>>)
    requires Initial(st)
    ensures Accepted(Run(size, st, acts)) == Received(acts)
  {
    NothingLost(size, st, acts);
    assert Flatten(st.sent) == [];
  }

  // ----- An indexer that never fails -----

  predicate NeverFails<T>(acts: seq<Action<T>>) {
    forall i | 0 <= i < |acts| :: acts[i].Receive? || acts[i].TakeTick? ==> acts[i].ok
  }

  /** Batches are bounded, and pending events always have a timer running or a tick waiting. */
  predicate Healthy<T(==)>(size: nat, st: State<T>) {
    && |st.batch| < size
    && (st.batch != [] ==> st.armed || st.tick)
    && forall i | 0 <= i < |st.sent| :: |st.sent[i]| <= size
  }

  lemma {:induction false} NeverStranded<T>(size: nat, st: State<T>, acts: seq<Action<T>>)
    requires Healthy(size, st) && NeverFails(acts) && Possible(size, st, acts)
    ensures Healthy(size, Run(size, st, acts))
    decreases |acts|
  {
    if acts != [] {
      assert Healthy(size, Step(size, st, acts[0]));
      NeverStranded(size, Step(size, st, acts[0]), acts[1..]);
    }
  }

  lemma NeverStrandedFromStart<T>(size: nat, st: State<T>, acts: seq<Action<T>>)
    requires size >= 1 && Initial(st) && NeverFails(acts) && Possible(size, st, acts)
    ensures Healthy(size, Run(size, st, acts))
  {
    NeverStranded(size, st, acts);
  }

  // ----- An indexer that may fail: when pending events are left alone -----

  /** Events are pending, but no timer runs and no tick waits, so their age alone will not send them. */
  predicate Stranded<T(==)>(st: State<T>) {
    st.batch != [] && !st.armed && !st.tick
  }

  /** The step is a refused send that leaves neither a timer nor a tick. */
  predicate Strands<T(==)>(size: nat, st: State<T>, a: Action<T>) {
    match a
    case Receive(_, ok) => !ok && |st.batch| + 1 == size && !st.tick
    case Fire => false
    case TakeTick(ok) => !ok && st.batch != [] && !st.armed
  }

  /** The event fills the batch and the indexer takes it. */
  predicate Fills<T>(size: nat, st: State<T>, a: Action<T>) {
    a.Receive? && a.ok && |st.batch| + 1 == size
  }

  ghost predicate Delivers<T(!new)>(size: nat, st: State<T>, acts: seq<Action<T>>) {
    Possible(size, st, acts) && |Run(size, st, acts).sent| > |st.sent|
  }

  predicate NoEvents<T>(acts: seq<Action<T>>) {
    forall i | 0 <= i < |acts| :: !acts[i].Receive?
  }

  /** Pending events can be sent without more events coming exactly if they are not stranded. */
  lemma DeliverableByAgeIffNotStranded<T(!new)>(size: nat, st: State<T>)
    requires st.batch != []
    ensures (exists acts :: NoEvents(acts) && Delivers(size, st, acts)) <==> !Stranded(st)
  {
    if st.tick {
      var acts: seq<Action<T>> := [TakeTick(true)];
      DeliverByTick(size, st, acts);
    } else if st.armed {
      var acts := DeliverByTimer(size, st);
    } else {
      forall acts | NoEvents(acts) && Possible(size, st, acts) ensures !Delivers(size, st, acts) {
        assert acts == [];
      }
    }
  }

  lemma DeliverByTick<T(!new)>(size: nat, st: State<T>, acts: seq<Action<T>>)
    requires st.tick && acts == [TakeTick(true)]
    ensures Delivers(size, st, acts) && NoEvents(acts)
  {
    assert acts[1..] == [];
    assert Run(size, st, acts) == Run(size, Step(size, st, acts[0]), []);
    assert Run(size, st, acts).sent == st.sent + [st.batch];
  }

  lemma DeliverByTimer<T(!new)>(size: nat, st: State<T>) returns (acts: seq<Action<T>>)
    requires st.armed
    ensures Delivers(size, st, acts) && NoEvents(acts)
  {
    var last: seq<Action<T>> := [TakeTick(true)];
    acts := [Fire] + last;
    assert acts[1..] == last;
    DeliverByTick(size, Step(size, st, Fire), last);
    assert Run(size, st, acts) == Run(size, Step(size, st, Fire), last);
  }

  /** One step: events come to be stranded by a refused send, and stay so until a full batch is taken. */
  lemma StrandedStep<T>(size: nat, st: State<T>, a: Action<T>)
    requires Enabled(st, a)
    ensures Stranded(Step(size, st, a)) <==> Strands(size, st, a) || (Stranded(st) && !Fills(size, st, a))
  {
  }

  lemma {:induction false} RunSnoc<T>(size: nat, st: State<T>, acts: seq<Action<T>>, a: Action<T>)
    requires Possible(size, st, acts + [a])
    ensures Possible(size, st, acts) && Enabled(Run(size, st, acts), a)
    ensures Run(size, st, acts + [a]) == Step(size, Run(size, st, acts), a)
    decreases |acts|
  {
    if acts == [] {
      assert (acts + [a])[1..] == [] && (acts + [a])[0] == a;
    } else {
      assert (acts + [a])[1..] == acts[1..] + [a] && (acts + [a])[0] == acts[0];
      RunSnoc(size, Step(size, st, acts[0]), acts[1..], a);
    }
  }

  /** Step i of the run is a refused send that leaves neither a timer nor a tick, and no later batch is filled
      and taken. */
  predicate StrandedBy<T(==)>(size: nat, st: State<T>, acts: seq<Action<T>>, i: nat)
    requires i < |acts|
  {
    && Strands(size, Run(size, st, acts[..i]), acts[i])
    && forall j | i < j < |acts| :: !Fills(size, Run(size, st, acts[..j]), acts[j])
  }

  /** Exactly these runs from the start end with stranded events: one step of the run was a refused send that left
      neither a timer nor a tick, and no full batch has been taken since. */
  lemma {:induction false} StrandedIff<T>(size: nat, st: State<T>, acts: seq<Action<T>>)
    requires Initial(st) && Possible(size, st, acts)
    ensures Stranded(Run(size, st, acts)) <==> exists i: nat | i < |acts| :: StrandedBy(size, st, acts, i)
    decreases |acts|
  {
    if acts != [] {
      var n := |acts| - 1;
      var front, a := acts[..n], acts[n];
      assert acts == front + [a];
      RunSnoc(size, st, front, a);
      StrandedIff(size, st, front);
      StrandedStep(size, Run(size, st, front), a);
      FrontIsStranded(size, st, acts);
    }
  }

  /** What the last step of a run means for the condition. */
  lemma FrontIsStranded<T>(size: nat, st: State<T>, acts: seq<Action<T>>)
    requires acts != []
    ensures var n := |acts| - 1;
            var mid := Run(size, st, acts[..n]);
            (exists i: nat | i < |acts| :: StrandedBy(size, st, acts, i)) <==>
            Strands(size, mid, acts[n]) ||
            (!Fills(size, mid, acts[n]) && exists i: nat | i < n :: StrandedBy(size, st, acts[..n], i))
  {
    var n := |acts| - 1;
    var front, mid := acts[..n], Run(size, st, acts[..n]);
    forall i: nat | i < n
      ensures StrandedBy(size, st, acts, i) <==> StrandedBy(size, st, front, i) && !Fills(size, mid, acts[n])
    {
      assert forall j | 0 <= j <= n :: front[..j] == acts[..j];
      assert forall j | 0 <= j < n :: front[j] == acts[j];
    }
    assert StrandedBy(size, st, acts, n) <==> Strands(size, mid, acts[n]);
  }

  /** An event that came alone and grew old is stranded by one refusal, long before the batch is full. */
  lemma OldEventStrands<T>(size: nat, st: State<T>, e: T)
    requires size >= 2 && Initial(st) && !st.tick
    ensures var acts := [Receive(e, true), Fire, TakeTick(false)];
            && Possible(size, st, acts)
            && Run(size, st, acts) == State([e], false, false, []) && Stranded(Run(size, st, acts))
  {
    var acts: seq<Action<T>> := [Receive(e, true), Fire, TakeTick(false)];
    var s1 := Step(size, st, acts[0]);
    var s2 := Step(size, s1, acts[1]);
    assert acts[1..][1..] == [acts[2]] && acts[1..][0] == Fire && [acts[2]][1..] == [];
    assert Possible(size, s2, [acts[2]]) && Possible(size, s1, acts[1..]);
    assert Run(size, st, acts) == Run(size, s2, [acts[2]]) == Run(size, Step(size, s2, acts[2]), []);
  }

  // ----- Stranded events that more events can or cannot bring on their way -----

  /** The batch has reached or passed its size, no timer runs and no tick waits. */
  predicate Stuck<T(==)>(size: nat, st: State<T>) {
    Stranded(st) && |st.batch| >= size
  }

  lemma {:induction false} StuckForGood<T>(size: nat, st: State<T>, acts: seq<Action<T>>)
    requires Stuck(size, st) && Possible(size, st, acts)
    ensures Stuck(size, Run(size, st, acts)) && Run(size, st, acts).sent == st.sent
    decreases |acts|
  {
    if acts != [] {
      assert Stuck(size, Step(size, st, acts[0]));
      StuckForGood(size, Step(size, st, acts[0]), acts[1..]);
    }
  }

  /** Stranded events below the size are sent no sooner than the batch is full: exactly so many events must come. */
  lemma {:induction false} StrandedWaitForSize<T(!new)>(size: nat, st: State<T>, acts: seq<Action<T>>)
    requires Stranded(st) && |st.batch| < size && Delivers(size, st, acts)
    ensures |st.batch| + |Received(acts)| >= size
    decreases |acts|
  {
    assert acts != [] && acts[0].Receive?;
    var next := Step(size, st, acts[0]);
    if |next.batch| > 0 && |next.batch| < size {
      StrandedWaitForSize(size, next, acts[1..]);
    }
  }

  /** Events that just fill the batch. */
  lemma {:induction false} FillUp<T(!new)>(size: nat, st: State<T>, e: T) returns (acts: seq<Action<T>>)
    requires |st.batch| < size
    ensures Delivers(size, st, acts) && |st.batch| + |Received(acts)| == size
    decreases size - |st.batch|
  {
    var a := Receive(e, true);
    var next := Step(size, st, a);
    if |st.batch| + 1 == size {
      acts := [a];
      assert acts[1..] == [];
    } else {
      var more := FillUp(size, next, e);
      acts := [a] + more;
      assert acts[1..] == more;
    }
  }

  /** A pending batch can still reach the indexer by some continuation exactly if the batcher is not stuck. */
  lemma DeliverableIffNotStuck<T(!new)>(size: nat, st: State<T>)
    requires st.batch != []
    ensures (exists acts :: Delivers(size, st, acts)) <==> !Stuck(size, st)
  {
    if Stuck(size, st) {
      forall acts | Possible(size, st, acts) ensures !Delivers(size, st, acts) {
        StuckForGood(size, st, acts);
      }
    } else if Stranded(st) {
      var acts := FillUp(size, st, st.batch[0]);
    } else {
      DeliverableByAgeIffNotStranded(size, st);
    }
  }

  /** One failure does it: the indexer refuses the batch that has just become full, and no stale tick is waiting. */
  lemma FailureAtSizeSticks<T>(size: nat, st: State<T>, e: T)
    requires |st.batch| + 1 == size
    ensures Stuck(size, Step(size, st, Receive(e, false))) <==> !st.tick
  {
  }

  // ----- When the timer runs, and what is sent -----

  /** The event is the first of a batch that it does not fill. */
  predicate ArmsTimer<T>(size: nat, st: State<T>, a: Action<T>) {
    a.Receive? && |st.batch| == 0 && size != 1
  }

  /** The timer fires, or the event fills the batch, whether or not the indexer takes it. */
  predicate StopsTimer<T>(size: nat, st: State<T>, a: Action<T>) {
    a.Fire? || (a.Receive? && |st.batch| + 1 == size)
  }

  lemma TimerStep<T>(size: nat, st: State<T>, a: Action<T>)
    ensures Step(size, st, a).armed <==> ArmsTimer(size, st, a) || (st.armed && !StopsTimer(size, st, a))
    ensures Step(size, st, a).tick <==> a.Fire? || (st.tick && !a.TakeTick?)
  {
  }

  /** Step i started the timer, and nothing has stopped it since. */
  predicate RunsSince<T>(size: nat, st: State<T>, acts: seq<Action<T>>, i: nat)
    requires i < |acts|
  {
    && ArmsTimer(size, Run(size, st, acts[..i]), acts[i])
    && forall j | i < j < |acts| :: !StopsTimer(size, Run(size, st, acts[..j]), acts[j])
  }

  /** Exactly in these runs from the start the timer runs at the end: some event that did not fill the batch was the
      first of one, and since then the timer has not fired and no batch has become full. */
  lemma {:induction false} TimerRunsIff<T>(size: nat, st: State<T>, acts: seq<Action<T>>)
    requires Initial(st) && Possible(size, st, acts)
    ensures Run(size, st, acts).armed <==> exists i: nat | i < |acts| :: RunsSince(size, st, acts, i)
    decreases |acts|
  {
    if acts != [] {
      var n := |acts| - 1;
      assert acts == acts[..n] + [acts[n]];
      RunSnoc(size, st, acts[..n], acts[n]);
      TimerRunsIff(size, st, acts[..n]);
      TimerStep(size, Run(size, st, acts[..n]), acts[n]);
      RunsSinceFront(size, st, acts);
    }
  }

  lemma RunsSinceFront<T>(size: nat, st: State<T>, acts: seq<Action<T>>)
    requires acts != []
    ensures var n := |acts| - 1;
            var mid := Run(size, st, acts[..n]);
            (exists i: nat | i < |acts| :: RunsSince(size, st, acts, i)) <==>
            ArmsTimer(size, mid, acts[n]) ||
            (!StopsTimer(size, mid, acts[n]) && exists i: nat | i < n :: RunsSince(size, st, acts[..n], i))
  {
    var n := |acts| - 1;
    var front, mid := acts[..n], Run(size, st, acts[..n]);
    forall i: nat | i < n
      ensures RunsSince(size, st, acts, i) <==> RunsSince(size, st, front, i) && !StopsTimer(size, mid, acts[n])
    {
      assert forall j | 0 <= j <= n :: front[..j] == acts[..j];
      assert forall j | 0 <= j < n :: front[j] == acts[j];
    }
    assert RunsSince(size, st, acts, n) <==> ArmsTimer(size, mid, acts[n]);
  }

  /** A step sends exactly if the indexer succeeds, and a tick is taken or the event fills the batch; then it sends all
      that is pending, and otherwise that stays pending. */
  lemma StepSendsIff<T>(size: nat, st: State<T>, a: Action<T>)
    ensures var all := st.batch + if a.Receive? then [a.event] else [];
            var next := Step(size, st, a);
            if (a.TakeTick? && a.ok) || (a.Receive? && a.ok && |st.batch| + 1 == size)
            then next.sent == st.sent + [all] && next.batch == []
            else next.sent == st.sent && next.batch == all
  {
    assert st.batch + [] == st.batch;
  }

  // ----- Empty batches -----

  /** Every firing of the timer is followed directly by the tick being taken. */
  predicate PromptTicks<T>(acts: seq<Action<T>>) {
    forall i | 0 <= i < |acts| - 1 :: acts[i].Fire? ==> acts[i + 1].TakeTick?
  }

  predicate NoneEmpty<T(==)>(bs: seq<seq<T>>) {
    forall i | 0 <= i < |bs| :: bs[i] != []
  }

  /** The timer runs, or a tick waits, only for pending events. */
  predicate TimerHasCause<T(==)>(st: State<T>) {
    (st.armed ==> st.batch != []) && (st.tick ==> st.batch != [] && !st.armed) && NoneEmpty(st.sent)
  }

  lemma {:induction false} PromptTicksFrom<T>(size: nat, st: State<T>, acts: seq<Action<T>>)
    requires TimerHasCause(st) && Possible(size, st, acts) && PromptTicks(acts)
    requires st.tick && acts != [] ==> acts[0].TakeTick?
    ensures TimerHasCause(Run(size, st, acts))
    decreases |acts|
  {
    if acts != [] {
      var rest := acts[1..];
      assert forall i | 0 <= i < |rest| :: rest[i] == acts[i + 1];
      PromptTicksFrom(size, Step(size, st, acts[0]), rest);
    }
  }

  /** On every run from a start without a tick in which ticks are taken promptly, the timer runs only while events are
      pending, and no empty batch is sent. */
  lemma NoEmptyBatchIfPrompt<T>(size: nat, st: State<T>, acts: seq<Action<T>>)
    requires Initial(st) && !st.tick && Possible(size, st, acts) && PromptTicks(acts)
    ensures var end := Run(size, st, acts); (end.armed ==> end.batch != []) && NoneEmpty(end.sent)
  {
    PromptTicksFrom(size, st, acts);
  }

  /** The indexer takes a batch for a tick while nothing is pending. */
  predicate SendsNothing<T(==)>(st: State<T>, a: Action<T>) {
    a.TakeTick? && a.ok && st.batch == []
  }

  /** Exactly the runs that take a stale tick while nothing is pending send an empty batch. */
  lemma {:induction false} EmptyBatchIff<T>(size: nat, st: State<T>, acts: seq<Action<T>>)
    requires Initial(st) && Possible(size, st, acts)
    ensures NoneEmpty(Run(size, st, acts).sent) <==>
            forall i | 0 <= i < |acts| :: !SendsNothing(Run(size, st, acts[..i]), acts[i])
    decreases |acts|
  {
    if acts != [] {
      var n := |acts| - 1;
      var front, mid := acts[..n], Run(size, st, acts[..n]);
      assert acts == front + [acts[n]];
      RunSnoc(size, st, front, acts[n]);
      EmptyBatchIff(size, st, front);
      StepSendsNothingIff(size, mid, acts[n]);
      assert forall i | 0 <= i < n :: front[..i] == acts[..i] && front[i] == acts[i];
    }
  }

  lemma StepSendsNothingIff<T>(size: nat, st: State<T>, a: Action<T>)
    ensures NoneEmpty(Step(size, st, a).sent) <==> NoneEmpty(st.sent) && !SendsNothing(st, a)
  {
    StepSendsIff(size, st, a);
    var next := Step(size, st, a);
    assert forall i | 0 <= i < |st.sent| :: next.sent[i] == st.sent[i];
    if |next.sent| > |st.sent| {
      assert next.sent[|st.sent|] == st.batch + if a.Receive? then [a.event] else [];
    }
  }

  // ----- The batcher object -----

  class Batcher<T> {
    const size: nat
    var batch: seq<T>
    var armed: bool
    var tick: bool
    ghost var sent: seq<seq<T>>

    ghost function View(): State<T>
      reads this
    {
      State(batch, armed, tick, sent)
    }

    constructor (sz: nat, earlyTick: bool)
      ensures size == sz && Initial(View()) && tick == earlyTick
    {
      size, batch, armed, tick, sent := sz, [], false, earlyTick, [];
    }

    /** Hands the pending batch to the indexer; it stays pending if the indexer fails. */
    method SendBatch(ok: bool)
      modifies this`batch, this`sent
      ensures View() == Send(old(View()), ok)
    {
      if !ok {
        return;
      }
      sent := sent + [batch];
      batch := [];
    }

    method OnEvent(event: T, ok: bool)
      modifies this
      ensures View() == Step(size, old(View()), Receive(event, ok))
    {
      batch := batch + [event];
      if |batch| == 1 {
        armed := true;
      }
      if |batch| == size {
        armed := false;
        SendBatch(ok);
      }
    }

    method OnTimerFires()
      requires armed
      modifies this
      ensures View() == Step(size, old(View()), Fire)
    {
      armed, tick := false, true;
    }

    method OnTick(ok: bool)
      requires tick
      modifies this
      ensures View() == Step(size, old(View()), TakeTick(ok))
    {
      tick := false;
      SendBatch(ok);
    }

    /** The event loop under a given schedule. */
    method Start(schedule: seq<Action<T>>)
      requires Possible(size, View(), schedule)
      modifies this
      ensures View() == Run(size, old(View()), schedule)
    {
      for i := 0 to |schedule|
        invariant Possible(size, View(), schedule[i..])
        invariant Run(size, View(), schedule[i..]) == Run(size, old(View()), schedule)
      {
        assert schedule[i..][1..] == schedule[i + 1..];
        match schedule[i]
        case Receive(event, ok) => OnEvent(event, ok);
        case Fire => OnTimerFires();
        case TakeTick(ok) => OnTick(ok);
      }
    }
  }
}
