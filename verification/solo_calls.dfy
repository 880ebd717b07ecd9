/** A call of fetchTaskletAndExecute or generateTaskletAndDispatch that no other thread interrupts: as a run of
    the transition system it does what the contracts of the objects say. */
module SoloCalls {
  import opened Sequences
  import opened Tasklets
  import opened ProducerConsumer

  lemma RunCons(s: State, step: Step, rest: seq<Step>)
    requires Enabled(s, step) && RunOk(Next(s, step), rest)
    ensures RunOk(s, [step] + rest) && Run(s, [step] + rest) == Run(Next(s, step), rest)
  {
    assert ([step] + rest)[1..] == rest;
  }

  lemma {:induction false} RunConcat(s: State, a: seq<Step>, b: seq<Step>)
    requires RunOk(s, a) && RunOk(Run(s, a), b)
    ensures RunOk(s, a + b) && Run(s, a + b) == Run(Run(s, a), b)
    decreases |a|
  {
    if a == [] {
      assert a + b == b;
    } else {
      hide Next, Enabled;
      assert (a + b)[1..] == a[1..] + b;
      RunConcat(Next(s, a[0]), a[1..], b);
    }
  }

  // ----- the consumer -----

  /** The loop: n tasklets fetched, executed and deleted, then a fetch that brings none. */
  function FetchLoop(c: nat, n: nat): seq<Step> {
    if n == 0 then [Fetch(c)] else [Fetch(c)] + ([Execute(c)] + ([Delete(c)] + FetchLoop(c, n - 1)))
  }

  /** How many more tasklets a call takes that has taken `count`. */
  function Remaining(count: nat, limit: nat, available: nat): nat {
    if limit == 0 then available else if count >= limit then 0 else Taken(limit - count, available)
  }

  /** The state after the consumer took the first n tasklets of the queue and returned. */
  function AfterFetch(s: State, c: nat, n: nat): State
    requires c < |s.consumers| && n <= |s.queue|
  {
    SetConsumer(s, c, ConsumerIdle)
      .(queue := s.queue[n..], popped := s.popped + s.queue[..n],
        executed := s.executed + s.queue[..n], finished := s.finished + s.queue[..n])
  }

  /** One tasklet through the loop body. */
  function AfterOne(s: State, c: nat, count: nat, limit: nat): State
    requires c < |s.consumers| && s.queue != []
  {
    var t := s.queue[0];
    SetConsumer(s, c, Fetching(count + 1, limit))
      .(queue := s.queue[1..], popped := s.popped + [t], executed := s.executed + [t], finished := s.finished + [t])
  }

  lemma FetchOne(s: State, c: nat, count: nat, limit: nat, rest: seq<Step>)
    requires c < |s.consumers| && s.consumers[c] == Consumer(Fetching(count, limit), true)
    requires s.queue != [] && MayGoOn(count, limit)
    requires RunOk(AfterOne(s, c, count, limit), rest)
    ensures var steps := [Fetch(c)] + ([Execute(c)] + ([Delete(c)] + rest));
      RunOk(s, steps) && Run(s, steps) == Run(AfterOne(s, c, count, limit), rest)
  {
    hide Run, RunOk;
    var s1 := Next(s, Fetch(c));
    var s2 := Next(s1, Execute(c));
    assert Next(s2, Delete(c)) == AfterOne(s, c, count, limit);
    RunCons(s2, Delete(c), rest);
    RunCons(s1, Execute(c), [Delete(c)] + rest);
    RunCons(s, Fetch(c), [Execute(c)] + ([Delete(c)] + rest));
  }

  lemma AfterFetchSplits(s: State, c: nat, count: nat, limit: nat, n: nat)
    requires c < |s.consumers| && 0 < n <= |s.queue|
    ensures AfterFetch(AfterOne(s, c, count, limit), c, n - 1) == AfterFetch(s, c, n)
  {
    assert s.queue[..n] == [s.queue[0]] + s.queue[1..][..n - 1];
    assert s.queue[1..][n - 1..] == s.queue[n..];
  }

  lemma FetchNone(s: State, c: nat)
    requires c < |s.consumers| && s.consumers[c].pc.Fetching?
    requires s.queue == [] || !MayGoOn(s.consumers[c].pc.count, s.consumers[c].pc.limit)
    ensures RunOk(s, FetchLoop(c, 0)) && Run(s, FetchLoop(c, 0)) == AfterFetch(s, c, 0)
  {
    var t := Next(s, Fetch(c));
    assert t == AfterFetch(s, c, 0);
    assert Run(t, []) == t;
    RunCons(s, Fetch(c), []);
  }

  lemma {:induction false} FetchLoopRuns(s: State, c: nat, count: nat, limit: nat)
    requires c < |s.consumers| && s.consumers[c] == Consumer(Fetching(count, limit), true)
    ensures var n := Remaining(count, limit, |s.queue|);
      && n <= |s.queue|
      && RunOk(s, FetchLoop(c, n)) && Run(s, FetchLoop(c, n)) == AfterFetch(s, c, n)
    decreases |s.queue|
  {
    var n := Remaining(count, limit, |s.queue|);
    hide Run, RunOk;
    if n == 0 {
      FetchNone(s, c);
    } else {
      var t := AfterOne(s, c, count, limit);
      FetchLoopRuns(t, c, count + 1, limit);
      FetchOne(s, c, count, limit, FetchLoop(c, n - 1));
      AfterFetchSplits(s, c, count, limit, n);
    }
  }

  /** fetchTaskletAndExecute(limit), alone, takes Taken(limit, queue length) tasklets from the front, executes
      and deletes them in order, and returns: what Consumer.FetchTaskletAndExecute promises. */
  lemma SoloFetch(s: State, c: nat, limit: nat)
    requires c < |s.consumers| && s.consumers[c] == Consumer(ConsumerIdle, true)
    ensures var n := Taken(limit, |s.queue|);
      var steps := [BeginFetch(c, limit)] + FetchLoop(c, n);
      RunOk(s, steps) && Run(s, steps) == AfterFetch(s, c, n)
  {
    hide Run, RunOk;
    var t := Next(s, BeginFetch(c, limit));
    FetchLoopRuns(t, c, 0, limit);
    RunCons(s, BeginFetch(c, limit), FetchLoop(c, Taken(limit, |s.queue|)));
    assert AfterFetch(t, c, Taken(limit, |s.queue|)) == AfterFetch(s, c, Taken(limit, |s.queue|));
  }

  // ----- the producer -----

  /** The loop: n tasklets generated and dispatched, then it ends, at the limit or for want of a tasklet. */
  function GenerateLoop(p: nat, n: nat): seq<Step> {
    if n == 0 then [NothingToGenerate(p)] else [Generate(p)] + ([Dispatch(p)] + GenerateLoop(p, n - 1))
  }

  /** The next n tasklets. */
  function Fresh(from: nat, n: nat): (r: seq<Tasklet>)
    ensures |r| == n
    decreases n
  {
    if n == 0 then [] else [from] + Fresh(from + 1, n - 1)
  }

  /** The state after the producer generated n tasklets and returned. */
  function AfterGenerate(s: State, p: nat, n: nat): State
    requires p < |s.producers|
  {
    var items := Fresh(s.generated, n);
    var t := SetProducer(s, p, ProducerIdle).(generated := s.generated + n);
    if s.producers[p].attached then t.(queue := s.queue + items, pushed := s.pushed + items)
    else t.(failed := s.failed + items)
  }

  lemma AfterGenerateSplits(s: State, p: nat, t: State, n: nat)
    requires p < |s.producers| && s.producers[p].pc.Generating? && n > 0
    requires MayGoOn(s.producers[p].pc.count, s.producers[p].pc.limit)
    requires t == Next(Next(s, Generate(p)), Dispatch(p))
    ensures AfterGenerate(t, p, n - 1) == AfterGenerate(s, p, n)
  {
    var rest := Fresh(s.generated + 1, n - 1);
    Assoc(s.queue, [s.generated], rest);
    Assoc(s.pushed, [s.generated], rest);
    Assoc(s.failed, [s.generated], rest);
  }

  lemma {:induction false} GenerateLoopRuns(s: State, p: nat, n: nat)
    requires p < |s.producers| && s.producers[p].pc.Generating?
    requires var pc := s.producers[p].pc; pc.limit != 0 ==> pc.count + n <= pc.limit
    ensures RunOk(s, GenerateLoop(p, n)) && Run(s, GenerateLoop(p, n)) == AfterGenerate(s, p, n)
    decreases n
  {
    if n == 0 {
      var t := Next(s, NothingToGenerate(p));
      assert s.queue + [] == s.queue && s.pushed + [] == s.pushed && s.failed + [] == s.failed;
      assert Run(t, []) == t;
      RunCons(s, NothingToGenerate(p), []);
    } else {
      hide Run, RunOk;
      var t := Next(s, Generate(p));
      var u := Next(t, Dispatch(p));
      GenerateLoopRuns(u, p, n - 1);
      RunCons(t, Dispatch(p), GenerateLoop(p, n - 1));
      RunCons(s, Generate(p), [Dispatch(p)] + GenerateLoop(p, n - 1));
      AfterGenerateSplits(s, p, u, n);
    }
  }

  /** generateTaskletAndDispatch(limit), alone, with `available` tasklets to generate: Taken(limit, available)
      of them are pushed in order, or deleted when the producer is detached. */
  lemma SoloGenerate(s: State, p: nat, limit: nat, available: nat)
    requires p < |s.producers| && s.producers[p].pc.ProducerIdle?
    ensures var n := Taken(limit, available);
      var steps := [BeginGenerate(p, limit)] + GenerateLoop(p, n);
      RunOk(s, steps) && Run(s, steps) == AfterGenerate(s, p, n)
  {
    hide Run, RunOk;
    var n := Taken(limit, available);
    var t := Next(s, BeginGenerate(p, limit));
    GenerateLoopRuns(t, p, n);
    RunCons(s, BeginGenerate(p, limit), GenerateLoop(p, n));
    assert AfterGenerate(t, p, n) == AfterGenerate(s, p, n);
  }

  // ----- a whole run -----

  /** One producer and one consumer, attached to an open queue. */
  function Attached(): State {
    Initial(1, 1).(producers := [Producer(ProducerIdle, true)], consumers := [Consumer(ConsumerIdle, true)])
  }

  lemma Attaches()
    ensures var steps := [AttachProducer(0, true), AttachConsumer(0, true)];
      RunOk(Initial(1, 1), steps) && Run(Initial(1, 1), steps) == Attached()
  {
    var s := Initial(1, 1);
    var t := Next(s, AttachProducer(0, true));
    var u := Next(t, AttachConsumer(0, true));
    assert u == Attached() && Run(u, []) == u;
    RunCons(t, AttachConsumer(0, true), []);
    RunCons(s, AttachProducer(0, true), [AttachConsumer(0, true)]);
    assert [AttachProducer(0, true)] + [AttachConsumer(0, true)] == [AttachProducer(0, true), AttachConsumer(0, true)];
  }

  /** The calls: n tasklets generated and dispatched, then all of them fetched and executed. */
  function Through(n: nat): seq<Step> {
    [AttachProducer(0, true), AttachConsumer(0, true)]
    + ([BeginGenerate(0, n)] + GenerateLoop(0, n)) + ([BeginFetch(0, 0)] + FetchLoop(0, n))
  }

  lemma GenerateThenFetch(n: nat)
    ensures var a, b := [BeginGenerate(0, n)] + GenerateLoop(0, n), [BeginFetch(0, 0)] + FetchLoop(0, n);
      var items := Fresh(0, n);
      && RunOk(Attached(), a) && RunOk(Run(Attached(), a), b)
      && Run(Run(Attached(), a), b)
         == Attached().(generated := n, pushed := items, popped := items, executed := items, finished := items)
  {
    hide Run, RunOk;
    var s, items := Attached(), Fresh(0, n);
    SoloGenerate(s, 0, n, n);
    var t := AfterGenerate(s, 0, n);
    assert t == s.(generated := n, queue := items, pushed := items) by {
      assert [] + items == items;
    }
    SoloFetch(t, 0, 0);
    assert items[..n] == items && items[n..] == [] && [] + items == items;
  }

  /** Any number of tasklets get through: from the start, with one producer and one consumer attached, all that are
      generated are executed and deleted, in order, and nothing is left. */
  lemma AllGetThrough(n: nat)
    ensures RunOk(Initial(1, 1), Through(n))
    ensures var s := Run(Initial(1, 1), Through(n));
      && s.generated == n && s.queue == [] && s.failed == [] && s.cancelled == []
      && |s.executed| == n && (forall i :: 0 <= i < n ==> s.executed[i] == i)
      && s.pushed == s.popped == s.executed == s.finished
      && s.producers == Attached().producers && s.consumers == Attached().consumers
  {
    var first := [AttachProducer(0, true), AttachConsumer(0, true)];
    var a, b := [BeginGenerate(0, n)] + GenerateLoop(0, n), [BeginFetch(0, 0)] + FetchLoop(0, n);
    Attaches();
    GenerateThenFetch(n);
    FreshCounts(0, n);
    hide Run, RunOk, GenerateLoop, FetchLoop, Fresh;
    RunConcat(Initial(1, 1), first, a);
    RunConcat(Initial(1, 1), first + a, b);
  }

  lemma {:induction false} FreshCounts(from: nat, n: nat)
    ensures forall i :: 0 <= i < n ==> Fresh(from, n)[i] == from + i
    decreases n
  {
    if n > 0 {
      FreshCounts(from + 1, n - 1);
    }
  }
}
