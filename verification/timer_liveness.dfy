/** eventLoop with timers only: every round fires a timer, and finite budgets are spent exactly. */
module TimerLiveness {
  import opened Words
  import opened EventTypes
  import opened FdTable
  import opened Sequences
  import opened Timers
  import opened EventModel
  import opened ReadySteps
  import opened ReadyPasses
  import opened PollPasses
  import opened TimerSteps
  import opened TimerPasses
  import opened EventLoops

  // ----- weighted counts -----

  function WeightOf(id: nat, w: nat -> nat, selected: nat -> bool): nat {
    if selected(id) then w(id) else 0
  }

  function Weigh(w: nat -> nat, selected: nat -> bool): TimeEvent -> nat {
    (e: TimeEvent) => WeightOf(e.id, w, selected)
  }

  /** The sum of w(id) over the events whose id is selected. */
  function Weight(events: seq<TimeEvent>, w: nat -> nat, selected: nat -> bool): nat {
    Total(events, Weigh(w, selected))
  }

  function One(id: nat): nat { 1 }

  predicate Any(id: nat) { true }

  /** How many of the logged firings are of selected ids. */
  function Firings(log: seq<TimeEvent>, selected: nat -> bool): nat {
    Weight(log, One, selected)
  }

  lemma {:induction false} FiringsOfAny(log: seq<TimeEvent>)
    ensures Firings(log, Any) == |log|
  {
    if log != [] {
      assert Weigh(One, Any)(log[0]) == 1;
      FiringsOfAny(log[1..]);
    }
  }

  // ----- the environment of a loop with timers only -----

  /** What one round does besides waiting as asked: the clock moves on by `before` before the deadline is
      read and by `after` after the wait; `delay` is what a callback returns that wants to fire again. */
  datatype Env = Env(before: nat, after: nat, delay: nat -> nat)

  ghost predicate EnvOk(env: nat -> Env) {
    forall k, id :: 1 <= env(k).delay(id) < TWO_TO_THE_31
  }

  /** A callback with a budget of firings returns its delay until the last one, then 0. */
  function Spender(budget: nat -> nat, delay: nat -> nat): nat -> TimerScript {
    (id: nat) => TimerScript([], if budget(id) > 1 then delay(id) else 0)
  }

  function DueIds(events: seq<TimeEvent>, now: int): set<nat> {
    set e | e in events && e.when <= now :: e.id
  }

  function Spend(budget: nat -> nat, ids: set<nat>): nat -> nat {
    (id: nat) => if id in ids && budget(id) > 0 then budget(id) - 1 else budget(id)
  }

  /** No fd is monitored, nobody asked to stop, every live timer has firings left and is due within 2^31-1 ms. */
  ghost predicate TimersOnly(s: Loop, clock: int, budget: nat -> nat) {
    && Good(s) && !s.stop && s.fds.numMonitored == 0 && s.timers.issued < TWO_TO_THE_64
    && (forall e :: e in Live(s.timers) ==> budget(e.id) >= 1 && e.when - clock < TWO_TO_THE_31)
  }

  // ----- what a sweep spends -----

  lemma {:induction false} SweepSpends(events: seq<TimeEvent>, now: int, budget: nat -> nat, delay: nat -> nat,
                                       ids: set<nat>, selected: nat -> bool)
    requires forall e :: e in events ==> budget(e.id) >= 1 && delay(e.id) >= 1 && (e.id in ids <==> e.when <= now)
    ensures var spec := Sweep(events, now, Spender(budget, delay));
      Firings(spec.fired, selected) + Weight(spec.stay, Spend(budget, ids), selected)
      == Weight(events, budget, selected)
  {
    if events != [] {
      var e := events[0];
      assert e in events;
      assert forall f :: f in events[1..] ==> f in events;
      SweepSpends(events[1..], now, budget, delay, ids, selected);
      OneSpends(e, now, budget, delay, ids, selected);
      hide Kept, FiredOf, Spend, Weigh;
      var oracle := Spender(budget, delay);
      var rest := Sweep(events[1..], now, oracle);
      TotalConcat(Kept(e, now, oracle), rest.stay, Weigh(Spend(budget, ids), selected));
      TotalConcat(FiredOf(e, now), rest.fired, Weigh(One, selected));
    }
  }

  lemma OneSpends(e: TimeEvent, now: int, budget: nat -> nat, delay: nat -> nat, ids: set<nat>, selected: nat -> bool)
    requires budget(e.id) >= 1 && delay(e.id) >= 1 && (e.id in ids <==> e.when <= now)
    ensures Firings(FiredOf(e, now), selected)
            + Weight(Kept(e, now, Spender(budget, delay)), Spend(budget, ids), selected)
         == Weigh(budget, selected)(e)
  {
    var oracle := Spender(budget, delay);
    TotalOne(e, Weigh(One, selected));
    if e.when > now {
      TotalOne(e, Weigh(Spend(budget, ids), selected));
    } else if budget(e.id) > 1 {
      var later := e.(when := now + delay(e.id));
      assert Kept(e, now, oracle) == [later];
      TotalOne(later, Weigh(Spend(budget, ids), selected));
    } else {
      assert Kept(e, now, oracle) == [];
    }
  }

  lemma {:induction false} SweepStays(events: seq<TimeEvent>, now: int, clock: int, budget: nat -> nat,
                                      delay: nat -> nat, ids: set<nat>)
    requires clock <= now && forall id :: 1 <= delay(id) < TWO_TO_THE_31
    requires forall e :: e in events ==>
               budget(e.id) >= 1 && e.when - clock < TWO_TO_THE_31 && (e.id in ids <==> e.when <= now)
    ensures forall e :: e in Sweep(events, now, Spender(budget, delay)).stay ==>
              Spend(budget, ids)(e.id) >= 1 && e.when - now < TWO_TO_THE_31
  {
    if events != [] {
      assert events[0] in events;
      assert forall f :: f in events[1..] ==> f in events;
      SweepStays(events[1..], now, clock, budget, delay, ids);
    }
  }

  lemma DueIdsExact(events: seq<TimeEvent>, now: int)
    requires DistinctIds(events)
    ensures forall e :: e in events ==> (e.id in DueIds(events, now) <==> e.when <= now)
  {
    forall e | e in events && e.id in DueIds(events, now) ensures e.when <= now {
      var d :| d in events && d.when <= now && d.id == e.id;
      var i :| 0 <= i < |events| && events[i] == e;
      var j :| 0 <= j < |events| && events[j] == d;
      assert i == j;
    }
  }

  // ----- one round -----

  function WaitUntil(s: Loop, clock: int, env: Env): int
    requires 0 <= s.timers.used <= |s.timers.slots|
  {
    clock + env.before + Timeout(s, clock + env.before) + env.after
  }

  /** The round of eventLoop in which epoll_wait has nothing to report and the clock advances at least by the
      requested wait. */
  function RoundOf(s: Loop, clock: int, budget: nat -> nat, env: Env): Round
    requires 0 <= s.timers.used <= |s.timers.slots|
  {
    var idle := (fd: int) => FdScript([], NONE);
    Round(idle, clock + env.before, [], idle, WaitUntil(s, clock, env), Spender(budget, env.delay))
  }

  lemma {:induction false} SpenderPass(s: Loop, i: nat, now: int, budget: nat -> nat, delay: nat -> nat)
    requires Shaped(s) && i <= s.timers.used
    ensures var oracle := Spender(budget, delay);
      && TimerPassContract(s, i, now, oracle)
      && var out := TimerPass(s, i, now, oracle);
         out.s.fds == s.fds && out.s.stop == s.stop && out.s.timers.issued == s.timers.issued && out.added == []
    decreases DueCount(Rest(s.timers, i), now), s.timers.used - i
  {
    hide DueCount, TimerTail;
    var oracle := Spender(budget, delay);
    AddersHonour(s, i, now, oracle);
    if i < s.timers.used {
      var e := s.timers.slots[i];
      if e.when > now {
        DueAhead(s.timers, i, now);
        SpenderPass(s, i + 1, now, budget, delay);
      } else {
        TimerStepShrinks(s, i, now, oracle(e.id));
        IdleTurn(s, i, now, oracle(e.id));
        var (t, next) := TimerStep(s, i, now, oracle(e.id));
        SpenderPass(t, next, now, budget, delay);
      }
    }
  }

  lemma IdleTurn(s: Loop, i: nat, now: int, script: TimerScript)
    requires Shaped(s) && i < s.timers.used && script.ops == []
    ensures AddedBy(s, script.ops) == []
    ensures var t := TimerStep(s, i, now, script).0;
      t.fds == s.fds && t.stop == s.stop && t.timers.issued == s.timers.issued
  {}

  lemma NoFdsNoneReady(f: FdState)
    requires Inv(f) && f.numMonitored == 0
    ensures f.numReady == 0
  {
    if f.numReady > 0 {
      ListedIsMonitored(f, 0);
    }
  }

  lemma ListedIsMonitored(f: FdState, i: nat)
    requires ReadyInv(f) && i < f.numReady
    ensures |MonitoredFds(f)| > 0
  {
    assert f.slots[i] in MonitoredFds(f);
  }

  /** With nothing ready and nothing reported, the first two passes of a round do nothing. */
  lemma RoundIsTimerPass(s: Loop, clock: int, budget: nat -> nat, env: Env)
    requires TimersOnly(s, clock, budget)
    ensures var r := RoundOf(s, clock, budget, env);
      && RunOk(s, RoundSteps(r)) && TimerPassContract(s, 0, r.now, r.timer)
      && Run(s, RoundSteps(r)) == TimerPass(s, 0, r.now, r.timer).s
  {
    NoFdsNoneReady(s.fds);
    var r := RoundOf(s, clock, budget, env);
    SpenderPass(s, 0, r.now, budget, env.delay);
    GoodIsSized(s);
    hide Run, RunOk, Inv, TimerInv, Sweep, TimerPass, TimerPassContract, Timeout;
    IdleReady(s, r.ready);
    IdlePoll(s, r.poll);
    RunThree(s, s, s, ProcessReadyFds(r.ready), ProcessFdEvents(r.batch, r.poll), ProcessTimeEvents(r.now, r.timer));
  }

  lemma IdleReady(s: Loop, oracle: int -> FdScript)
    requires Good(s) && s.fds.numReady == 0
    ensures StepOk(s, ProcessReadyFds(oracle)) && Do(s, ProcessReadyFds(oracle)) == s
  {}

  lemma IdlePoll(s: Loop, oracle: int -> FdScript)
    requires Good(s) && forall fd :: MasksGiven(oracle(fd).ops)
    ensures StepOk(s, ProcessFdEvents([], oracle)) && Do(s, ProcessFdEvents([], oracle)) == s
  {}

  lemma RunThree(s: Loop, t: Loop, u: Loop, a: Step, b: Step, c: Step)
    requires Good(s) && StepOk(s, a) && t == Do(s, a)
    requires StepOk(t, b) && u == Do(t, b) && StepOk(u, c)
    ensures RunOk(s, [a, b, c]) && Run(s, [a, b, c]) == Do(u, c)
  {
    hide Do, StepOk, Good;
    RunCons(u, c, []);
    RunCons(t, b, [c]);
    RunCons(s, a, [b, c]);
    assert [c] + [] == [c] && [b] + [c] == [b, c] && [a] + [b, c] == [a, b, c];
  }

  lemma RunCons(s: Loop, a: Step, rest: seq<Step>)
    requires Good(s) && StepOk(s, a) && RunOk(Do(s, a), rest)
    ensures RunOk(s, [a] + rest) && Run(s, [a] + rest) == Run(Do(s, a), rest)
  {
    assert ([a] + rest)[1..] == rest;
  }

  /** The wait reaches the earliest deadline. */
  lemma WaitReachesDeadline(s: Loop, clock: int, budget: nat -> nat, env: Env)
    requires TimersOnly(s, clock, budget) && s.timers.used > 0
    ensures clock <= WaitUntil(s, clock, env)
    ensures exists e :: e in Live(s.timers) && e.when <= WaitUntil(s, clock, env)
  {
    hide Inv;
    var near := clock + env.before;
    var ms := Nearest(s.timers, near);
    NearestIsEarliest(s.timers, near);
    assert s.fds.numReady == 0 by { NoFdsNoneReady(s.fds); }
    var i :| 0 <= i < s.timers.used
             && (s.timers.slots[i].when - near == ms || (ms == 0 && s.timers.slots[i].when <= near));
    assert s.timers.slots[i] == Live(s.timers)[i];
    TimeoutRespectsDeadlineIff(s, near, ms);
  }

  lemma SomethingFires(events: seq<TimeEvent>, now: int, oracle: nat -> TimerScript, e: TimeEvent)
    requires e in events && e.when <= now
    ensures |Sweep(events, now, oracle).fired| > 0
  {
    SweepFiresDue(events, now, oracle, e);
    assert e in multiset(events);
    assert e in Sweep(events, now, oracle).fired;
  }

  /** The pass of a round, in terms of Sweep on the live events. */
  lemma PassIsSweep(s: Loop, now: int, budget: nat -> nat, delay: nat -> nat)
    requires Good(s)
    ensures var oracle := Spender(budget, delay);
      && TimerPassContract(s, 0, now, oracle)
      && var out := TimerPass(s, 0, now, oracle);
         var spec := Sweep(Live(s.timers), now, oracle);
         Good(out.s) && out.s.fds == s.fds && out.s.stop == s.stop && out.s.timers.issued == s.timers.issued
         && multiset(out.fired) == multiset(spec.fired) && multiset(Live(out.s.timers)) == multiset(spec.stay)
  {
    var oracle := Spender(budget, delay);
    SpenderPass(s, 0, now, budget, delay);
    AddersRefine(s, now, oracle);
    TimerPassKeepsInv(s, 0, now, oracle);
  }

  lemma RoundSpendsExactly(s: Loop, now: int, budget: nat -> nat, delay: nat -> nat, selected: nat -> bool)
    requires Good(s) && s.timers.issued < TWO_TO_THE_64
    requires forall e :: e in Live(s.timers) ==> budget(e.id) >= 1 && delay(e.id) >= 1
    ensures var oracle := Spender(budget, delay);
      && TimerPassContract(s, 0, now, oracle)
      && var out := TimerPass(s, 0, now, oracle);
         Good(out.s)
         && Firings(out.fired, selected)
            + Weight(Live(out.s.timers), Spend(budget, DueIds(Live(s.timers), now)), selected)
            == Weight(Live(s.timers), budget, selected)
  {
    var oracle := Spender(budget, delay);
    var events, ids := Live(s.timers), DueIds(Live(s.timers), now);
    PassIsSweep(s, now, budget, delay);
    DueIdsExact(events, now);
    var out, spec := TimerPass(s, 0, now, oracle), Sweep(events, now, oracle);
    SweepSpends(events, now, budget, delay, ids, selected);
    TotalPermutes(out.fired, spec.fired, Weigh(One, selected));
    TotalPermutes(Live(out.s.timers), spec.stay, Weigh(Spend(budget, ids), selected));
  }

  /** The loop with timers only stays one: deadlines stay near and budgets of live timers positive. */
  lemma RoundKeepsTimersOnly(s: Loop, clock: int, now: int, budget: nat -> nat, delay: nat -> nat)
    requires TimersOnly(s, clock, budget) && clock <= now
    requires forall id :: 1 <= delay(id) < TWO_TO_THE_31
    ensures var oracle := Spender(budget, delay);
      && TimerPassContract(s, 0, now, oracle)
      && TimersOnly(TimerPass(s, 0, now, oracle).s, now, Spend(budget, DueIds(Live(s.timers), now)))
  {
    var oracle := Spender(budget, delay);
    var events, ids := Live(s.timers), DueIds(Live(s.timers), now);
    PassIsSweep(s, now, budget, delay);
    DueIdsExact(events, now);
    SweepStays(events, now, clock, budget, delay, ids);
    var out, spec := TimerPass(s, 0, now, oracle), Sweep(events, now, oracle);
    forall e | e in Live(out.s.timers) ensures Spend(budget, ids)(e.id) >= 1 && e.when - now < TWO_TO_THE_31 {
      assert e in multiset(spec.stay);
    }
  }

  /** Every round fires at least one timer, spends one firing of each timer it fires, and leaves the loop as
      it was otherwise. */
  lemma RoundFires(s: Loop, clock: int, budget: nat -> nat, env: Env)
    requires TimersOnly(s, clock, budget) && s.timers.used > 0
    requires forall id :: 1 <= env.delay(id) < TWO_TO_THE_31
    ensures var r := RoundOf(s, clock, budget, env);
      && TimerPassContract(s, 0, r.now, r.timer)
      && var out := TimerPass(s, 0, r.now, r.timer);
         var left := Spend(budget, DueIds(Live(s.timers), r.now));
      && |out.fired| > 0
      && TimersOnly(out.s, r.now, left)
      && Weight(Live(out.s.timers), left, Any) < Weight(Live(s.timers), budget, Any)
  {
    var r := RoundOf(s, clock, budget, env);
    var events := Live(s.timers);
    WaitReachesDeadline(s, clock, budget, env);
    RoundKeepsTimersOnly(s, clock, r.now, budget, env.delay);
    PassIsSweep(s, r.now, budget, env.delay);
    var e :| e in events && e.when <= r.now;
    SomethingFires(events, r.now, r.timer, e);
    var out := TimerPass(s, 0, r.now, r.timer);
    SameLength(out.fired, Sweep(events, r.now, r.timer).fired);
    RoundSpendsExactly(s, r.now, budget, env.delay, Any);
    FiringsOfAny(out.fired);
  }

  // ----- the whole loop -----

  datatype Drained = Drained(s: Loop, log: seq<TimeEvent>, rounds: nat)

  lemma RoundSpends(s: Loop, clock: int, budget: nat -> nat, env: Env)
    requires TimersOnly(s, clock, budget) && s.timers.used > 0
    requires forall id :: 1 <= env.delay(id) < TWO_TO_THE_31
    ensures var r := RoundOf(s, clock, budget, env);
      && RunOk(s, RoundSteps(r))
      && var t := Run(s, RoundSteps(r));
         var left := Spend(budget, DueIds(Live(s.timers), r.now));
         TimersOnly(t, r.now, left) && Weight(Live(t.timers), left, Any) < Weight(Live(s.timers), budget, Any)
  {
    hide Run, RunOk, RoundSteps;
    RoundFires(s, clock, budget, env);
    RoundIsTimerPass(s, clock, budget, env);
  }

  /** eventLoop with timers only, run until its guard fails: the final state, every firing in order, and the
      number of rounds. The remaining budget is the measure that shows it ends. */
  function Drain(s: Loop, clock: int, budget: nat -> nat, env: nat -> Env, k: nat): Drained
    requires TimersOnly(s, clock, budget) && EnvOk(env)
    decreases Weight(Live(s.timers), budget, Any)
  {
    if !Continues(s) then Drained(s, [], 0)
    else
      RoundSpends(s, clock, budget, env(k));
      RoundFires(s, clock, budget, env(k));
      var r := RoundOf(s, clock, budget, env(k));
      var fired := TimerPass(s, 0, r.now, r.timer).fired;
      var left := Spend(budget, DueIds(Live(s.timers), r.now));
      var rest := Drain(Run(s, RoundSteps(r)), r.now, left, env, k + 1);
      Drained(rest.s, fired + rest.log, rest.rounds + 1)
  }

  /** One round of Drain, with what it spends. */
  lemma DrainUnfolds(s: Loop, clock: int, budget: nat -> nat, env: nat -> Env, k: nat)
    requires TimersOnly(s, clock, budget) && EnvOk(env) && s.timers.used > 0
    ensures var r := RoundOf(s, clock, budget, env(k));
      && TimerPassContract(s, 0, r.now, r.timer)
      && var out := TimerPass(s, 0, r.now, r.timer);
         var left := Spend(budget, DueIds(Live(s.timers), r.now));
      && TimersOnly(out.s, r.now, left)
      && |out.fired| > 0
      && Weight(Live(out.s.timers), left, Any) < Weight(Live(s.timers), budget, Any)
      && var rest := Drain(out.s, r.now, left, env, k + 1);
         Drain(s, clock, budget, env, k) == Drained(rest.s, out.fired + rest.log, rest.rounds + 1)
  {
    hide Run, RunOk, RoundSteps, Inv, TimerInv;
    RoundFires(s, clock, budget, env(k));
    RoundSpends(s, clock, budget, env(k));
    RoundIsTimerPass(s, clock, budget, env(k));
  }

  /** With timers only, no stop, deadlines within 2^31-1 ms and a clock that advances at least by the wait,
      the loop ends with an empty timer table after every timer fired exactly as often as its budget said:
      the firings of any selection of ids add up to the budgets of the selected live timers. Each round fires
      at least once, so there are at most as many rounds as firings. */
  lemma {:induction false} BudgetsAreSpentExactly(s: Loop, clock: int, budget: nat -> nat, env: nat -> Env, k: nat,
                                                  selected: nat -> bool)
    requires TimersOnly(s, clock, budget) && EnvOk(env)
    ensures var d := Drain(s, clock, budget, env, k);
      && d.s.timers.used == 0 && !d.s.stop
      && Firings(d.log, selected) == Weight(Live(s.timers), budget, selected)
      && d.rounds <= |d.log|
    decreases Weight(Live(s.timers), budget, Any)
  {
    hide Inv, TimerInv, Sweep, TimerPass, TimerPassContract, Timeout, Weight, DueIds, Spend, EnvOk;
    if s.timers.used <= 0 {
      NothingToDrain(s, clock, budget, env, k, selected);
    } else {
      DrainUnfolds(s, clock, budget, env, k);
      hide Drain;
      var r := RoundOf(s, clock, budget, env(k));
      var out := TimerPass(s, 0, r.now, r.timer);
      var left := Spend(budget, DueIds(Live(s.timers), r.now));
      DelaysArePositive(env, k);
      RoundSpendsExactly(s, r.now, budget, env(k).delay, selected);
      BudgetsAreSpentExactly(out.s, r.now, left, env, k + 1, selected);
      FiringsAdd(out.fired, Drain(out.s, r.now, left, env, k + 1).log, selected);
    }
  }

  lemma FiringsAdd(a: seq<TimeEvent>, b: seq<TimeEvent>, selected: nat -> bool)
    ensures Firings(a + b, selected) == Firings(a, selected) + Firings(b, selected)
  {
    hide Weigh;
    TotalConcat(a, b, Weigh(One, selected));
  }

  lemma DelaysArePositive(env: nat -> Env, k: nat)
    requires EnvOk(env)
    ensures forall id :: env(k).delay(id) >= 1
  {}

  lemma NothingToDrain(s: Loop, clock: int, budget: nat -> nat, env: nat -> Env, k: nat, selected: nat -> bool)
    requires TimersOnly(s, clock, budget) && EnvOk(env) && s.timers.used <= 0
    ensures s.timers.used == 0 && Drain(s, clock, budget, env, k) == Drained(s, [], 0)
    ensures Weight(Live(s.timers), budget, selected) == Firings([], selected) == 0
  {
    assert Live(s.timers) == [];
  }

  // ----- Drain is eventLoop -----

  /** The rounds that Drain goes through. */
  function DrainRounds(s: Loop, clock: int, budget: nat -> nat, env: nat -> Env, k: nat): seq<Round>
    requires TimersOnly(s, clock, budget) && EnvOk(env)
    decreases Weight(Live(s.timers), budget, Any)
  {
    if !Continues(s) then []
    else
      RoundSpends(s, clock, budget, env(k));
      var r := RoundOf(s, clock, budget, env(k));
      var left := Spend(budget, DueIds(Live(s.timers), r.now));
      [r] + DrainRounds(Run(s, RoundSteps(r)), r.now, left, env, k + 1)
  }

  lemma EventLoopCons(s: Loop, r: Round, rest: seq<Round>)
    requires Good(s) && Continues(s) && RunOk(s, RoundSteps(r)) && LoopOk(Run(s, RoundSteps(r)), rest)
    ensures LoopOk(s, [r] + rest)
    ensures EventLoop(s, [r] + rest).s == EventLoop(Run(s, RoundSteps(r)), rest).s
    ensures |EventLoop(s, [r] + rest).waits| == 1 + |EventLoop(Run(s, RoundSteps(r)), rest).waits|
  {
    hide Run, RunOk, RoundSteps, Timeout, ReadyPass, Good, Continues;
    assert ([r] + rest)[1..] == rest;
  }

  /** eventLoop on those rounds ends in the same state, where its guard fails, after as many waits as Drain
      counts rounds. */
  lemma {:induction false} DrainIsEventLoop(s: Loop, clock: int, budget: nat -> nat, env: nat -> Env, k: nat)
    requires TimersOnly(s, clock, budget) && EnvOk(env)
    ensures var rounds := DrainRounds(s, clock, budget, env, k);
      var d := Drain(s, clock, budget, env, k);
      && LoopOk(s, rounds) && !Continues(d.s)
      && EventLoop(s, rounds).s == d.s && |EventLoop(s, rounds).waits| == d.rounds == |rounds|
    decreases Weight(Live(s.timers), budget, Any)
  {
    hide Run, RunOk, RoundSteps, TimerPass, TimerPassContract, Timeout, Weight, Inv, TimerInv, ReadyPass;
    GoodIsSized(s);
    hide EventLoop, LoopOk, Spend, DueIds, Drain, DrainRounds, Good;
    if Continues(s) {
      DrainStep(s, clock, budget, env, k);
      var r := DrainRounds(s, clock, budget, env, k)[0];
      var t := Run(s, RoundSteps(r));
      var left := Spend(budget, DueIds(Live(s.timers), r.now));
      DrainIsEventLoop(t, r.now, left, env, k + 1);
      EventLoopCons(s, r, DrainRounds(t, r.now, left, env, k + 1));
    } else {
      DrainOver(s, clock, budget, env, k);
      EventLoopOver(s);
    }
  }

  lemma GoodIsSized(s: Loop)
    requires Good(s)
    ensures 0 <= s.timers.used <= |s.timers.slots|
  {}

  lemma DrainStep(s: Loop, clock: int, budget: nat -> nat, env: nat -> Env, k: nat)
    requires TimersOnly(s, clock, budget) && EnvOk(env) && Continues(s)
    ensures var rounds := DrainRounds(s, clock, budget, env, k);
      && rounds != []
      && var r := rounds[0];
      && RunOk(s, RoundSteps(r))
      && var t := Run(s, RoundSteps(r));
         var left := Spend(budget, DueIds(Live(s.timers), r.now));
      && TimersOnly(t, r.now, left)
      && Weight(Live(t.timers), left, Any) < Weight(Live(s.timers), budget, Any)
      && rounds == [r] + DrainRounds(t, r.now, left, env, k + 1)
      && Drain(s, clock, budget, env, k).s == Drain(t, r.now, left, env, k + 1).s
      && Drain(s, clock, budget, env, k).rounds == Drain(t, r.now, left, env, k + 1).rounds + 1
  {
    assert 0 <= s.timers.used <= |s.timers.slots|;
    hide Run, RunOk, RoundSteps, TimerPass, TimerPassContract, Timeout, Weight, Inv, TimerInv, ReadyPass, Spend, DueIds;
    RoundSpends(s, clock, budget, env(k));
  }

  lemma DrainOver(s: Loop, clock: int, budget: nat -> nat, env: nat -> Env, k: nat)
    requires TimersOnly(s, clock, budget) && EnvOk(env) && !Continues(s)
    ensures DrainRounds(s, clock, budget, env, k) == [] && Drain(s, clock, budget, env, k) == Drained(s, [], 0)
  {}

  lemma EventLoopOver(s: Loop)
    requires Good(s)
    ensures LoopOk(s, []) && EventLoop(s, []) == LoopOut(s, [])
  {}
}
