/** Producers and consumers around one Queue (include/nebula/producer_consumer.h), as an interleaving
    transition system: each step is one critical section or one thread-local action. */
module Tasklets {
  // A tasklet is known by the order in which it was generated.
  type Tasklet = nat

  /** Where a producer thread is inside generateTaskletAndDispatch(limit). */
  datatype ProducerPc =
    | ProducerIdle
    | Generating(count: nat, limit: nat)
    | Dispatching(count: nat, limit: nat, item: Tasklet)

  /** Where a consumer thread is inside fetchTaskletAndExecute(limit). */
  datatype ConsumerPc =
    | ConsumerIdle
    | Fetching(count: nat, limit: nat)
    | Fetched(count: nat, limit: nat, item: Tasklet)
    | Executed(count: nat, limit: nat, item: Tasklet)

  datatype Producer = Producer(pc: ProducerPc, attached: bool)
  datatype Consumer = Consumer(pc: ConsumerPc, attached: bool)

  /** The queue is usable, in its destructor, or gone. */
  datatype QueuePhase = Open | Closing | Gone

  /** `queue` is items_. The other sequences are histories: tasklets pushed, popped by consumers, executed,
      and deleted after execution, after a failed dispatch, or by the queue's destructor. */
  datatype State = State(
    generated: nat,
    producers: seq<Producer>,
    consumers: seq<Consumer>,
    phase: QueuePhase,
    queue: seq<Tasklet>,
    pushed: seq<Tasklet>,
    popped: seq<Tasklet>,
    executed: seq<Tasklet>,
    finished: seq<Tasklet>,
    failed: seq<Tasklet>,
    cancelled: seq<Tasklet>)

  datatype Step =
    | BeginGenerate(p: nat, limit: nat)
    | Generate(p: nat)
    | NothingToGenerate(p: nat)
    | Dispatch(p: nat)
    | BeginFetch(c: nat, limit: nat)
    | Fetch(c: nat)
    | Execute(c: nat)
    | Delete(c: nat)
    | AttachProducer(p: nat, on: bool)
    | AttachConsumer(c: nat, on: bool)
    | BeginDestroy
    | CancelFront
    | EndDestroy

  /** limit ? (count < limit) : 1. */
  predicate MayGoOn(count: nat, limit: nat) {
    limit != 0 ==> count < limit
  }

  function Initial(producers: nat, consumers: nat): State {
    State(0, seq(producers, _ => Producer(ProducerIdle, false)), seq(consumers, _ => Consumer(ConsumerIdle, false)),
          Open, [], [], [], [], [], [], [])
  }

  /** A thread may be attached only while the queue is open, and the queue may be destroyed only when no
      thread is attached to it. */
  predicate Enabled(s: State, step: Step) {
    match step
    case BeginGenerate(p, _) => p < |s.producers| && s.producers[p].pc.ProducerIdle?
    case Generate(p) => p < |s.producers| && s.producers[p].pc.Generating?
    case NothingToGenerate(p) => p < |s.producers| && s.producers[p].pc.Generating?
    case Dispatch(p) => p < |s.producers| && s.producers[p].pc.Dispatching?
    case BeginFetch(c, _) => c < |s.consumers| && s.consumers[c].pc.ConsumerIdle?
    case Fetch(c) => c < |s.consumers| && s.consumers[c].pc.Fetching?
    case Execute(c) => c < |s.consumers| && s.consumers[c].pc.Fetched?
    case Delete(c) => c < |s.consumers| && s.consumers[c].pc.Executed?
    case AttachProducer(p, on) => p < |s.producers| && (on ==> s.phase.Open?)
    case AttachConsumer(c, on) => c < |s.consumers| && (on ==> s.phase.Open?)
    case BeginDestroy =>
      && s.phase.Open?
      && (forall p :: 0 <= p < |s.producers| ==> !s.producers[p].attached)
      && (forall c :: 0 <= c < |s.consumers| ==> !s.consumers[c].attached)
    case CancelFront => s.phase.Closing? && s.queue != []
    case EndDestroy => s.phase.Closing? && s.queue == []
  }

  function SetProducer(s: State, p: nat, pc: ProducerPc): State
    requires p < |s.producers|
  {
    s.(producers := s.producers[p := s.producers[p].(pc := pc)])
  }

  function SetConsumer(s: State, c: nat, pc: ConsumerPc): State
    requires c < |s.consumers|
  {
    s.(consumers := s.consumers[c := s.consumers[c].(pc := pc)])
  }

  function Next(s: State, step: Step): State
    requires Enabled(s, step)
  {
    match step
    case BeginGenerate(p, limit) => SetProducer(s, p, Generating(0, limit))
    case Generate(p) =>
      var pc := s.producers[p].pc;
      if MayGoOn(pc.count, pc.limit) then
        SetProducer(s, p, Dispatching(pc.count + 1, pc.limit, s.generated)).(generated := s.generated + 1)
      else SetProducer(s, p, ProducerIdle)
    case NothingToGenerate(p) => SetProducer(s, p, ProducerIdle)
    case Dispatch(p) =>
      var pc := s.producers[p].pc;
      var t := SetProducer(s, p, Generating(pc.count, pc.limit));
      if s.producers[p].attached then t.(queue := s.queue + [pc.item], pushed := s.pushed + [pc.item])
      else t.(failed := s.failed + [pc.item])
    case BeginFetch(c, limit) => SetConsumer(s, c, Fetching(0, limit))
    case Fetch(c) =>
      var pc := s.consumers[c].pc;
      if MayGoOn(pc.count, pc.limit) && s.consumers[c].attached && s.queue != [] then
        SetConsumer(s, c, Fetched(pc.count, pc.limit, s.queue[0]))
          .(queue := s.queue[1..], popped := s.popped + [s.queue[0]])
      else SetConsumer(s, c, ConsumerIdle)
    case Execute(c) =>
      var pc := s.consumers[c].pc;
      SetConsumer(s, c, Executed(pc.count + 1, pc.limit, pc.item)).(executed := s.executed + [pc.item])
    case Delete(c) =>
      var pc := s.consumers[c].pc;
      SetConsumer(s, c, Fetching(pc.count, pc.limit)).(finished := s.finished + [pc.item])
    case AttachProducer(p, on) => s.(producers := s.producers[p := s.producers[p].(attached := on)])
    case AttachConsumer(c, on) => s.(consumers := s.consumers[c := s.consumers[c].(attached := on)])
    case BeginDestroy => s.(phase := Closing)
    case CancelFront => s.(queue := s.queue[1..], cancelled := s.cancelled + [s.queue[0]])
    case EndDestroy => s.(phase := Gone)
  }

  // ----- who holds what -----

  predicate ProducerHolds(p: Producer, item: Tasklet) {
    p.pc.Dispatching? && p.pc.item == item
  }

  predicate ConsumerHolds(c: Consumer, item: Tasklet) {
    (c.pc.Fetched? || c.pc.Executed?) && c.pc.item == item
  }

  predicate ConsumerExecuted(c: Consumer, item: Tasklet) {
    c.pc.Executed? && c.pc.item == item
  }

  /** How many of the threads hold the item. */
  function Holders<T>(threads: seq<T>, holds: (T, Tasklet) -> bool, item: Tasklet): nat {
    if threads == [] then 0
    else Holders(threads[..|threads| - 1], holds, item) + One(holds(threads[|threads| - 1], item))
  }

  function One(b: bool): nat { if b then 1 else 0 }

  lemma {:induction false} HoldersUpdate<T>(threads: seq<T>, i: nat, t: T, holds: (T, Tasklet) -> bool, item: Tasklet)
    requires i < |threads|
    ensures Holders(threads[i := t], holds, item) + One(holds(threads[i], item))
         == Holders(threads, holds, item) + One(holds(t, item))
  {
    var n := |threads| - 1;
    if i < n {
      assert threads[i := t][..n] == threads[..n][i := t];
      HoldersUpdate(threads[..n], i, t, holds, item);
    } else {
      assert threads[i := t][..n] == threads[..n];
    }
  }

  lemma {:induction false} HoldersNone<T>(threads: seq<T>, holds: (T, Tasklet) -> bool, item: Tasklet)
    requires forall i :: 0 <= i < |threads| ==> !holds(threads[i], item)
    ensures Holders(threads, holds, item) == 0
  {
    if threads != [] {
      HoldersNone(threads[..|threads| - 1], holds, item);
    }
  }

  /** How often the item occurs in a list. */
  function Count(list: seq<Tasklet>, item: Tasklet): nat {
    if list == [] then 0 else Count(list[..|list| - 1], item) + One(list[|list| - 1] == item)
  }

  lemma CountAppend(list: seq<Tasklet>, last: Tasklet, item: Tasklet)
    ensures Count(list + [last], item) == Count(list, item) + One(last == item)
  {
    assert (list + [last])[..|list|] == list;
  }

  lemma {:induction false} CountFront(list: seq<Tasklet>, item: Tasklet)
    requires list != []
    ensures Count(list, item) == One(list[0] == item) + Count(list[1..], item)
  {
    var n := |list| - 1;
    if n > 0 {
      assert list[1..][..n - 1] == list[..n][1..];
      CountFront(list[..n], item);
    }
  }

  function Held(s: State, item: Tasklet): nat {
    Holders(s.producers, ProducerHolds, item) + Holders(s.consumers, ConsumerHolds, item)
  }

  function Deleted(s: State, item: Tasklet): nat {
    Count(s.finished, item) + Count(s.failed, item) + Count(s.cancelled, item)
  }

  /** First in, first out: what was pushed is what consumers popped, then what the destructor cancelled,
      then what is still queued. */
  ghost predicate Fifo(s: State) {
    && s.pushed == s.popped + s.cancelled + s.queue
    && (s.phase.Open? ==> s.cancelled == [])
    && (!s.phase.Open? ==> (forall p :: 0 <= p < |s.producers| ==> !s.producers[p].attached)
                           && (forall c :: 0 <= c < |s.consumers| ==> !s.consumers[c].attached))
  }

  /** The number of places the item is in: held by a thread, queued, or deleted for one of three reasons. */
  function Places(s: State, item: Tasklet): nat {
    Held(s, item) + Count(s.queue, item) + Deleted(s, item)
  }

  /** Every tasklet ever generated is in exactly one place. */
  ghost predicate Owned(s: State) {
    forall item: Tasklet :: Places(s, item) == One(item < s.generated)
  }

  /** Every execution is of a tasklet that its consumer still holds or has deleted since. */
  ghost predicate ExecutedOwned(s: State) {
    forall item: Tasklet ::
      Count(s.executed, item) == Count(s.finished, item) + Holders(s.consumers, ConsumerExecuted, item)
  }

  /** A call never handles more tasklets than its limit. */
  ghost predicate WithinLimits(s: State) {
    && (forall p :: 0 <= p < |s.producers| && !s.producers[p].pc.ProducerIdle? ==>
          var pc := s.producers[p].pc; pc.limit != 0 ==> pc.count <= pc.limit)
    && (forall c :: 0 <= c < |s.consumers| && !s.consumers[c].pc.ConsumerIdle? ==>
          var pc := s.consumers[c].pc;
          && (pc.limit != 0 ==> pc.count <= pc.limit)
          && (pc.limit != 0 && pc.Fetched? ==> pc.count < pc.limit))
  }

  ghost predicate Inv(s: State) {
    Fifo(s) && Owned(s) && ExecutedOwned(s) && WithinLimits(s)
  }

  lemma InitialInv(producers: nat, consumers: nat)
    ensures Inv(Initial(producers, consumers))
  {
    var s := Initial(producers, consumers);
    forall item: Tasklet
      ensures Places(s, item) == 0 && Holders(s.consumers, ConsumerExecuted, item) == 0
    {
      HoldersNone(s.producers, ProducerHolds, item);
      HoldersNone(s.consumers, ConsumerHolds, item);
      HoldersNone(s.consumers, ConsumerExecuted, item);
    }
  }

  /** An item that leaves the front of the queue joins what is in front of it. */
  lemma FrontMoves(before: seq<Tasklet>, queue: seq<Tasklet>)
    requires queue != []
    ensures before + queue == (before + [queue[0]]) + queue[1..]
  {
    assert queue == [queue[0]] + queue[1..];
  }

  lemma BackJoins(a: seq<Tasklet>, b: seq<Tasklet>, queue: seq<Tasklet>, item: Tasklet)
    ensures a + b + queue + [item] == a + b + (queue + [item])
  {}

  lemma NextOrder(s: State, step: Step)
    requires Fifo(s) && Enabled(s, step)
    ensures var t := Next(s, step); t.pushed == t.popped + t.cancelled + t.queue
  {
    match step
    case Dispatch(p) => BackJoins(s.popped, s.cancelled, s.queue, s.producers[p].pc.item);
    case Fetch(c) =>
      if s.queue != [] && s.consumers[c].attached {
        assert s.cancelled == [] && s.popped + [] == s.popped;
        FrontMoves(s.popped, s.queue);
        assert s.popped + [s.queue[0]] + [] == s.popped + [s.queue[0]];
      }
    case CancelFront =>
      FrontMoves(s.popped + s.cancelled, s.queue);
      assert s.popped + s.cancelled + [s.queue[0]] == s.popped + (s.cancelled + [s.queue[0]]);
    case _ =>
  }

  lemma NextPhase(s: State, step: Step)
    requires Fifo(s) && Enabled(s, step)
    ensures var t := Next(s, step);
      && (t.phase.Open? ==> t.cancelled == [])
      && (!t.phase.Open? ==> (forall p :: 0 <= p < |t.producers| ==> !t.producers[p].attached)
                             && (forall c :: 0 <= c < |t.consumers| ==> !t.consumers[c].attached))
  {}

  lemma NextFifo(s: State, step: Step)
    requires Fifo(s) && Enabled(s, step)
    ensures Fifo(Next(s, step))
  {
    hide Next, Enabled;
    NextOrder(s, step);
    NextPhase(s, step);
  }

  lemma NextLimits(s: State, step: Step)
    requires WithinLimits(s) && Enabled(s, step)
    ensures WithinLimits(Next(s, step))
  {}

  /** The consumer a step is about, if any. */
  function ConsumerOf(step: Step): int {
    match step
    case BeginFetch(c, _) => c
    case Fetch(c) => c
    case Execute(c) => c
    case Delete(c) => c
    case AttachConsumer(c, _) => c
    case _ => -1
  }

  function ProducerOf(step: Step): int {
    match step
    case BeginGenerate(p, _) => p
    case Generate(p) => p
    case NothingToGenerate(p) => p
    case Dispatch(p) => p
    case AttachProducer(p, _) => p
    case _ => -1
  }

  lemma NextConsumers(s: State, step: Step, holds: (Consumer, Tasklet) -> bool, item: Tasklet)
    requires Enabled(s, step)
    ensures var t := Next(s, step);
      var c := ConsumerOf(step);
      if c < 0 then t.consumers == s.consumers
      else c < |s.consumers| == |t.consumers|
           && Holders(t.consumers, holds, item) + One(holds(s.consumers[c], item))
              == Holders(s.consumers, holds, item) + One(holds(t.consumers[c], item))
  {
    var c := ConsumerOf(step);
    if c >= 0 {
      HoldersUpdate(s.consumers, c, Next(s, step).consumers[c], holds, item);
    }
  }

  lemma NextProducers(s: State, step: Step, item: Tasklet)
    requires Enabled(s, step)
    ensures var t := Next(s, step);
      var p := ProducerOf(step);
      if p < 0 then t.producers == s.producers
      else p < |s.producers| == |t.producers|
           && Holders(t.producers, ProducerHolds, item) + One(ProducerHolds(s.producers[p], item))
              == Holders(s.producers, ProducerHolds, item) + One(ProducerHolds(t.producers[p], item))
  {
    var p := ProducerOf(step);
    if p >= 0 {
      HoldersUpdate(s.producers, p, Next(s, step).producers[p], ProducerHolds, item);
    }
  }

  lemma NextExecuted(s: State, step: Step)
    requires ExecutedOwned(s) && Enabled(s, step)
    ensures ExecutedOwned(Next(s, step))
  {
    hide Count, Holders;
    var t := Next(s, step);
    forall item: Tasklet
      ensures Count(t.executed, item) == Count(t.finished, item) + Holders(t.consumers, ConsumerExecuted, item)
    {
      NextConsumers(s, step, ConsumerExecuted, item);
      if step.Execute? {
        CountAppend(s.executed, s.consumers[step.c].pc.item, item);
      } else if step.Delete? {
        CountAppend(s.finished, s.consumers[step.c].pc.item, item);
      }
    }
  }

  lemma NextHeld(s: State, step: Step, item: Tasklet)
    requires Enabled(s, step)
    ensures var t := Next(s, step);
      var got := match step
        case Generate(p) => One(t.generated > s.generated && item == s.generated)
        case Fetch(c) => One(|t.popped| > |s.popped| && item == s.queue[0])
        case _ => 0;
      var gave := match step
        case Dispatch(p) => One(item == s.producers[p].pc.item)
        case Delete(c) => One(item == s.consumers[c].pc.item)
        case _ => 0;
      Held(t, item) + gave == Held(s, item) + got
  {
    NextProducers(s, step, item);
    NextConsumers(s, step, ConsumerHolds, item);
  }

  lemma NextLists(s: State, step: Step, item: Tasklet)
    requires Enabled(s, step)
    ensures var t := Next(s, step);
      var got := match step
        case Dispatch(p) => One(item == s.producers[p].pc.item)
        case Delete(c) => One(item == s.consumers[c].pc.item)
        case _ => 0;
      var gave := match step
        case Fetch(c) => One(|t.popped| > |s.popped| && item == s.queue[0])
        case _ => 0;
      Count(t.queue, item) + Deleted(t, item) + gave == Count(s.queue, item) + Deleted(s, item) + got
  {
    hide Count;
    match step
    case Dispatch(p) =>
      CountAppend(s.queue, s.producers[p].pc.item, item);
      CountAppend(s.failed, s.producers[p].pc.item, item);
    case Fetch(c) =>
      if s.queue != [] { CountFront(s.queue, item); }
    case Delete(c) =>
      CountAppend(s.finished, s.consumers[c].pc.item, item);
    case CancelFront =>
      CountFront(s.queue, item);
      CountAppend(s.cancelled, s.queue[0], item);
    case _ =>
  }

  /** A step creates no place for a tasklet but the one of the tasklet it generates, and destroys none. */
  lemma NextPlaces(s: State, step: Step, item: Tasklet)
    requires Enabled(s, step)
    ensures Places(Next(s, step), item) + One(item < s.generated)
         == Places(s, item) + One(item < Next(s, step).generated)
  {
    hide Held, Deleted;
    NextHeld(s, step, item);
    NextLists(s, step, item);
  }

  lemma NextOwned(s: State, step: Step)
    requires Owned(s) && Enabled(s, step)
    ensures Owned(Next(s, step))
  {
    forall item: Tasklet ensures Places(Next(s, step), item) == One(item < Next(s, step).generated) {
      NextPlaces(s, step, item);
    }
  }

  // ----- every interleaving -----

  predicate RunOk(s: State, steps: seq<Step>)
    decreases |steps|
  {
    steps != [] ==> Enabled(s, steps[0]) && RunOk(Next(s, steps[0]), steps[1..])
  }

  function Run(s: State, steps: seq<Step>): State
    requires RunOk(s, steps)
    decreases |steps|
  {
    if steps == [] then s else Run(Next(s, steps[0]), steps[1..])
  }

  lemma {:induction false} RunKeepsInv(s: State, steps: seq<Step>)
    requires Inv(s) && RunOk(s, steps)
    ensures Inv(Run(s, steps))
    decreases |steps|
  {
    hide Fifo, Owned, ExecutedOwned, WithinLimits, Next;
    if steps != [] {
      NextFifo(s, steps[0]);
      NextOwned(s, steps[0]);
      NextExecuted(s, steps[0]);
      NextLimits(s, steps[0]);
      RunKeepsInv(Next(s, steps[0]), steps[1..]);
    }
  }

  lemma {:induction false} ExecutedIsHeld(consumers: seq<Consumer>, item: Tasklet)
    ensures Holders(consumers, ConsumerExecuted, item) <= Holders(consumers, ConsumerHolds, item)
  {
    if consumers != [] {
      ExecutedIsHeld(consumers[..|consumers| - 1], item);
    }
  }

  /** In every interleaving of any number of producers and consumers: the queue is first in, first out; each
      generated tasklet is in exactly one place; none is executed or deleted twice; one that the destructor
      cancelled or whose dispatch failed was never executed; no call exceeds its limit. */
  lemma EveryInterleaving(producers: nat, consumers: nat, steps: seq<Step>, item: Tasklet)
    requires RunOk(Initial(producers, consumers), steps)
    ensures var s := Run(Initial(producers, consumers), steps);
      && s.pushed == s.popped + s.cancelled + s.queue
      && Places(s, item) == One(item < s.generated)
      && Count(s.executed, item) <= 1 && Deleted(s, item) <= 1
      && (Count(s.cancelled, item) + Count(s.failed, item) > 0 ==> Count(s.executed, item) == 0)
      && WithinLimits(s)
  {
    InitialInv(producers, consumers);
    RunKeepsInv(Initial(producers, consumers), steps);
    var s := Run(Initial(producers, consumers), steps);
    hide Run, RunOk, WithinLimits;
    ExecutedIsHeld(s.consumers, item);
    assert Places(s, item) == One(item < s.generated);
    assert Count(s.executed, item) == Count(s.finished, item) + Holders(s.consumers, ConsumerExecuted, item);
  }

  /** When a step touches the queue: a dispatch pushes exactly when its producer is attached, and deletes the
      tasklet otherwise; a fetch pops exactly when its consumer is attached, there is something to pop, and the call
      has not reached its limit; nothing else pushes, pops or fails. */
  lemma QueueTouchedIff(s: State, step: Step)
    requires Enabled(s, step)
    ensures var t := Next(s, step);
      && (t.pushed != s.pushed <==> step.Dispatch? && s.producers[step.p].attached)
      && (t.failed != s.failed <==> step.Dispatch? && !s.producers[step.p].attached)
      && (t.popped != s.popped <==>
            && step.Fetch? && s.consumers[step.c].attached && s.queue != []
            && (s.consumers[step.c].pc.limit == 0 || s.consumers[step.c].pc.count < s.consumers[step.c].pc.limit))
      && (t.executed != s.executed <==> step.Execute?)
  {}

  /** From the moment the destructor starts it has the queue for itself: no call of any thread, in whatever
      interleaving, pushes or pops any more, and what it cancels comes from the front. */
  lemma {:induction false} DestructorIsAlone(s: State, steps: seq<Step>)
    requires Fifo(s) && !s.phase.Open? && RunOk(s, steps)
    ensures var t := Run(s, steps);
      t.pushed == s.pushed && t.popped == s.popped && t.cancelled + t.queue == s.cancelled + s.queue
    decreases |steps|
  {
    if steps != [] {
      var t := Next(s, steps[0]);
      QueueTouchedIff(s, steps[0]);
      NextFifo(s, steps[0]);
      assert s.queue != [] ==> s.queue == [s.queue[0]] + s.queue[1..];
      assert t.cancelled + t.queue == s.cancelled + s.queue;
      DestructorIsAlone(t, steps[1..]);
    }
  }

  /** Once the queue is gone and every thread has returned, each generated tasklet has been deleted exactly
      once, and executed exactly when that is why it was deleted. */
  lemma NothingLeaks(producers: nat, consumers: nat, steps: seq<Step>, item: Tasklet)
    requires RunOk(Initial(producers, consumers), steps)
    requires var s := Run(Initial(producers, consumers), steps);
      && s.queue == []
      && (forall p :: 0 <= p < |s.producers| ==> s.producers[p].pc.ProducerIdle?)
      && (forall c :: 0 <= c < |s.consumers| ==> s.consumers[c].pc.ConsumerIdle?)
    ensures var s := Run(Initial(producers, consumers), steps);
      && Deleted(s, item) == One(item < s.generated)
      && Count(s.executed, item) == Count(s.finished, item)
  {
    InitialInv(producers, consumers);
    RunKeepsInv(Initial(producers, consumers), steps);
    var s := Run(Initial(producers, consumers), steps);
    HoldersNone(s.producers, ProducerHolds, item);
    HoldersNone(s.consumers, ConsumerHolds, item);
    HoldersNone(s.consumers, ConsumerExecuted, item);
    assert Places(s, item) == One(item < s.generated);
  }
}
