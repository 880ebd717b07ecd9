/** AsyncEvent::eventLoop and everything an application can make the loop do: steps, runs, the timeout. */
module EventLoops {
  import opened Words
  import opened EventTypes
  import opened FdTable
  import opened Timers
  import opened EventModel
  import opened ReadySteps
  import opened ReadyPasses
  import opened PollPasses
  import opened TimerSteps
  import opened TimerPasses

  /** Something that happens to the loop: an API call from outside, or one of the three passes. */
  datatype Step =
    | ApiCall(op: Op)
    | ProcessReadyFds(fdOracle: int -> FdScript)
    | ProcessFdEvents(batch: seq<Fired>, fdOracle: int -> FdScript)
    | ProcessTimeEvents(now: int, timerOracle: nat -> TimerScript)

  ghost predicate Good(s: Loop) {
    Inv(s.fds) && TimerInv(s.timers)
  }

  /** What the source asks of callers and callbacks in a step. */
  ghost predicate StepOk(s: Loop, step: Step)
    requires Good(s)
  {
    match step
    case ApiCall(op) => MasksGiven([op])
    case ProcessReadyFds(oracle) => ReadyPassContract(s, 0, oracle)
    case ProcessFdEvents(batch, oracle) => BatchOk(s, batch, oracle)
    case ProcessTimeEvents(now, oracle) =>
      TimerPassContract(s, 0, now, oracle) && forall id :: MasksGiven(oracle(id).ops)
  }

  lemma {:induction false} ReadyPassTimers(s: Loop, idx: nat, oracle: int -> FdScript)
    requires Shaped(s) && TimerInv(s.timers)
    ensures var t := ReadyPass(s, idx, oracle).s.timers; TimerInv(t) && NoneRevived(s.timers, t)
    decreases s.fds.numReady - idx
  {
    InOwnIds(s.timers);
    if idx < s.fds.numReady {
      var script := oracle(s.fds.slots[idx]);
      ExecKeepsTimerInv(s, script.ops);
      var (t, next) := ReadyStep(s, idx, script);
      ReadyPassTimers(t, next, oracle);
      NoneRevivedTrans(s.timers, t.timers, ReadyPass(s, idx, oracle).s.timers);
    }
  }

  lemma PollStepTimers(s: Loop, e: Fired, script: FdScript)
    requires Shaped(s) && Inv(s.fds) && InTable(s.fds, e.fd) && MasksGiven(script.ops) && TimerInv(s.timers)
    ensures var t := PollStep(s, e, script).timers; TimerInv(t) && NoneRevived(s.timers, t)
  {
    InOwnIds(s.timers);
    ExecKeepsTimerInv(s, script.ops);
    PollStepRuns(s, e, script);
    hide Inv, PollStep, Exec, PollTail;
  }

  lemma {:induction false} PollPassTimers(s: Loop, batch: seq<Fired>, oracle: int -> FdScript)
    requires Shaped(s) && Inv(s.fds) && BatchOk(s, batch, oracle) && TimerInv(s.timers)
    ensures var t := PollPass(s, batch, oracle).s.timers; TimerInv(t) && NoneRevived(s.timers, t)
    decreases |batch|
  {
    InOwnIds(s.timers);
    hide Inv, PollStep, TimerInv;
    if batch != [] {
      var e := batch[0];
      PollStepTimers(s, e, oracle(e.fd));
      PollStepKeepsInv(s, e, oracle(e.fd));
      var t := PollStep(s, e, oracle(e.fd));
      PollPassTimers(t, batch[1..], oracle);
      NoneRevivedTrans(s.timers, t.timers, PollPass(s, batch, oracle).s.timers);
    }
  }

  lemma ApiCallKeepsInv(s: Loop, op: Op)
    requires Good(s) && MasksGiven([op])
    ensures Good(Apply(s, op)) && NoneRevived(s.timers, Apply(s, op).timers)
  {
    ApplyKeepsInv(s, op);
    assert Exec(s, [op]) == Exec(Apply(s, op), []);
    ExecKeepsTimerInv(s, [op]);
  }

  function Do(s: Loop, step: Step): (t: Loop)
    requires Good(s) && StepOk(s, step)
    ensures Good(t) && NoneRevived(s.timers, t.timers)
  {
    match step
    case ApiCall(op) =>
      ApiCallKeepsInv(s, op);
      Apply(s, op)
    case ProcessReadyFds(oracle) =>
      ReadyPassKeepsInv(s, 0, oracle);
      ReadyPassTimers(s, 0, oracle);
      ReadyPass(s, 0, oracle).s
    case ProcessFdEvents(batch, oracle) =>
      PollPassTimers(s, batch, oracle);
      PollPass(s, batch, oracle).s
    case ProcessTimeEvents(now, oracle) =>
      TimerPassKeepsInv(s, 0, now, oracle);
      TimerPass(s, 0, now, oracle).s
  }

  // ----- runs -----

  ghost predicate RunOk(s: Loop, steps: seq<Step>)
    requires Good(s)
    decreases |steps|
  {
    steps != [] ==> StepOk(s, steps[0]) && RunOk(Do(s, steps[0]), steps[1..])
  }

  function Run(s: Loop, steps: seq<Step>): (t: Loop)
    requires Good(s) && RunOk(s, steps)
    ensures Good(t)
    decreases |steps|
  {
    if steps == [] then s else Run(Do(s, steps[0]), steps[1..])
  }

  /** A fresh loop with the given table sizes: what initialize() leaves. */
  function Initial(fdTableSize: nat, timerTableSize: nat): (s: Loop)
    ensures Good(s)
  {
    FreshInv(fdTableSize);
    Loop(Fresh(fdTableSize), FreshTimers(timerTableSize), false)
  }

  /** In every state a run can reach, with epoll_ctl failing at will: the ready list holds exactly the fds
      with recorded events, once each, and they are monitored; the list leaves room for any other fd; the
      counter equals the number of monitored fds; the kernel watches exactly those, each for its mask; live
      timer ids are distinct until the id counter wraps. */
  lemma ReachableStates(fdTableSize: nat, timerTableSize: nat, steps: seq<Step>)
    requires RunOk(Initial(fdTableSize, timerTableSize), steps)
    ensures var f := Run(Initial(fdTableSize, timerTableSize), steps).fds;
      && 0 <= f.numReady <= |f.slots|
      && (forall fd :: fd in Ready(f) <==> InTable(f, fd) && f.info[fd].fired != NONE)
      && (forall i, j :: 0 <= i < j < f.numReady ==> f.slots[i] != f.slots[j])
      && (forall fd :: fd in Ready(f) ==> f.info[fd].monitored != NONE)
      && (forall fd :: InTable(f, fd) && fd !in Ready(f) ==> f.numReady < |f.slots|)
      && f.numMonitored == |f.interest|
      && (forall fd :: fd in f.interest <==> InTable(f, fd) && f.info[fd].monitored != NONE)
      && (forall fd :: fd in f.interest ==>
            && (f.interest[fd].epollin <==> f.info[fd].monitored.readable)
            && (f.interest[fd].epollout <==> f.info[fd].monitored.writable))
    ensures var t := Run(Initial(fdTableSize, timerTableSize), steps).timers;
      0 <= t.used <= |t.slots| && (t.issued < TWO_TO_THE_64 ==> DistinctIds(Live(t)))
  {
    GoodMeans(Run(Initial(fdTableSize, timerTableSize), steps).fds);
  }

  lemma GoodMeans(f: FdState)
    requires Inv(f)
    ensures forall fd :: fd in Ready(f) <==> InTable(f, fd) && f.info[fd].fired != NONE
    ensures forall fd :: InTable(f, fd) && fd !in Ready(f) ==> f.numReady < |f.slots|
    ensures f.numMonitored == |f.interest|
    ensures forall fd :: fd in f.interest <==> InTable(f, fd) && f.info[fd].monitored != NONE
  {
    forall fd | InTable(f, fd) && fd !in Ready(f) ensures f.numReady < |f.slots| {
      ReadyFits(f, fd);
    }
    assert |f.interest.Keys| == |f.interest|;
  }

  /** A timer id that was handed out before a run began and is dead then is never live again, until the id
      counter wraps: ids are not reused. */
  lemma {:induction false} DeadIdsStayDead(s: Loop, steps: seq<Step>)
    requires Good(s) && RunOk(s, steps)
    ensures NoneRevived(s.timers, Run(s, steps).timers)
    decreases |steps|
  {
    InOwnIds(s.timers);
    if steps != [] {
      var t := Do(s, steps[0]);
      DeadIdsStayDead(t, steps[1..]);
      NoneRevivedTrans(s.timers, t.timers, Run(s, steps).timers);
    }
  }

  // ----- recorded events over a run -----

  /** No API call made in this step, directly or by a callback, stops monitoring any of the events b on fd. */
  ghost predicate StepSpares(step: Step, fd: int, b: Mask) {
    match step
    case ApiCall(op) => Spares([op], fd, b)
    case ProcessReadyFds(oracle) => forall g :: Spares(oracle(g).ops, fd, b)
    case ProcessFdEvents(_, oracle) => forall g :: Spares(oracle(g).ops, fd, b)
    case ProcessTimeEvents(_, oracle) => forall id :: Spares(oracle(id).ops, fd, b)
  }

  lemma {:induction false} TimerPassKeepsRecorded(s: Loop, i: nat, now: int, oracle: nat -> TimerScript,
                                                  fd: int, b: Mask)
    requires Shaped(s) && i <= s.timers.used && TimerPassContract(s, i, now, oracle)
    requires Recorded(s.fds, fd, b) && forall id :: Spares(oracle(id).ops, fd, b)
    ensures Recorded(TimerPass(s, i, now, oracle).s.fds, fd, b)
    decreases DueCount(Rest(s.timers, i), now), s.timers.used - i
  {
    hide DueCount, Recorded, SparesUpTo;
    if i < s.timers.used {
      var e := s.timers.slots[i];
      if e.when > now {
        DueAhead(s.timers, i, now);
        TimerPassKeepsRecorded(s, i + 1, now, oracle, fd, b);
      } else {
        TimerStepShrinks(s, i, now, oracle(e.id));
        ExecKeepsRecorded(s, oracle(e.id).ops, fd, b);
        var (t, next) := TimerStep(s, i, now, oracle(e.id));
        TimerPassKeepsRecorded(t, next, now, oracle, fd, b);
      }
    }
  }

  lemma DoKeepsRecorded(s: Loop, step: Step, fd: int, b: Mask)
    requires Good(s) && StepOk(s, step) && Recorded(s.fds, fd, b) && StepSpares(step, fd, b)
    ensures Recorded(Do(s, step).fds, fd, b)
  {
    match step
    case ApiCall(op) => ApplyKeepsRecorded(s, op, fd, b);
    case ProcessReadyFds(oracle) => ReadyPassKeepsRecorded(s, 0, oracle, fd, b);
    case ProcessFdEvents(batch, oracle) => PollPassKeepsRecorded(s, batch, oracle, fd, b);
    case ProcessTimeEvents(now, oracle) => TimerPassKeepsRecorded(s, 0, now, oracle, fd, b);
  }

  /** Over any run a recorded, monitored event stays recorded, with its fd in the ready list, until a call
      stops monitoring it. */
  lemma {:induction false} RecordedEventsAreKept(s: Loop, steps: seq<Step>, fd: int, b: Mask)
    requires Good(s) && RunOk(s, steps) && Recorded(s.fds, fd, b)
    requires forall i :: 0 <= i < |steps| ==> StepSpares(steps[i], fd, b)
    ensures var t := Run(s, steps); Recorded(t.fds, fd, b) && fd in Ready(t.fds)
    decreases |steps|
  {
    if steps != [] {
      DoKeepsRecorded(s, steps[0], fd, b);
      RecordedEventsAreKept(Do(s, steps[0]), steps[1..], fd, b);
    }
  }

  // ----- one round of eventLoop -----

  /** static_cast<int> of an int64_t. */
  function ToInt32(x: int): int {
    var low := x % TWO_TO_THE_32;
    if low < TWO_TO_THE_31 then low else low - TWO_TO_THE_32
  }

  /** The timeout eventLoop passes to epoll_wait when the clock reads `clock`; negative means forever. */
  function Timeout(s: Loop, clock: int): int
    requires 0 <= s.timers.used <= |s.timers.slots|
  {
    var msLeft := ToInt32(Nearest(s.timers, clock));
    if msLeft == 0 then 0 else if s.fds.numReady > 0 then 1 else msLeft
  }

  /** Milliseconds until the earliest deadline, 0 if it has passed. */
  ghost predicate EarliestIn(t: TimerState, clock: int, ms: int)
    requires 0 <= t.used <= |t.slots|
  {
    && ms >= 0
    && (forall i :: 0 <= i < t.used ==> t.slots[i].when - clock >= ms || ms == 0)
    && (exists i :: 0 <= i < t.used && (t.slots[i].when - clock == ms || (ms == 0 && t.slots[i].when <= clock)))
  }

  lemma NearestIsEarliest(t: TimerState, clock: int)
    requires 0 < t.used <= |t.slots|
    ensures EarliestIn(t, clock, Nearest(t, clock))
  {
    var i := NearestIndex(t.slots, t.used);
    var ms := Nearest(t, clock);
    assert t.slots[i].when - clock == ms || (ms == 0 && t.slots[i].when <= clock);
  }

  /** The loop waits no longer than until the earliest deadline exactly when some fd is ready or the wait,
      cut to 32 bits, is still a non-negative int; in particular whenever it is below 2^31 ms. */
  lemma TimeoutRespectsDeadlineIff(s: Loop, clock: int, ms: int)
    requires 0 < s.timers.used <= |s.timers.slots| && EarliestIn(s.timers, clock, ms)
    ensures 0 <= Timeout(s, clock) <= ms <==> s.fds.numReady > 0 || ms % TWO_TO_THE_32 < TWO_TO_THE_31
    ensures ms < TWO_TO_THE_31 && s.fds.numReady <= 0 ==> Timeout(s, clock) == ms
  {
    NearestIsEarliest(s.timers, clock);
    assert Nearest(s.timers, clock) == ms;
  }

  /** The wait in every case: the time to the earliest deadline, or -1, cut to an int (the `cut` in its range that
      is congruent to it); but at once when that is 0, and otherwise 1 ms when some fd is ready. */
  lemma TimeoutIs(s: Loop, clock: int, cut: int, q: int)
    requires 0 <= s.timers.used <= |s.timers.slots|
    requires Nearest(s.timers, clock) == q * TWO_TO_THE_32 + cut && -TWO_TO_THE_31 <= cut < TWO_TO_THE_31
    ensures Timeout(s, clock) == if cut == 0 then 0 else if s.fds.numReady > 0 then 1 else cut
  {
    var ms := Nearest(s.timers, clock);
    var low := ms % TWO_TO_THE_32;
    assert ms == ms / TWO_TO_THE_32 * TWO_TO_THE_32 + low;
    assert low == if cut < 0 then cut + TWO_TO_THE_32 else cut by {
      assert (q - ms / TWO_TO_THE_32) * TWO_TO_THE_32 == low - cut;
    }
  }

  /** It waits forever exactly when no fd is ready and there is no timer, or the cut wait came out negative. */
  lemma BlocksForeverIff(s: Loop, clock: int)
    requires 0 <= s.timers.used <= |s.timers.slots|
    ensures Timeout(s, clock) < 0 <==>
            s.fds.numReady <= 0
            && (s.timers.used == 0 || Nearest(s.timers, clock) % TWO_TO_THE_32 >= TWO_TO_THE_31)
  {}

  /** What the environment and the callbacks do in one round of the loop: `clock` is what nearestTimeEvent
      reads, `now` what processTimeEvents reads. */
  datatype Round = Round(
    ready: int -> FdScript, clock: int, batch: seq<Fired>, poll: int -> FdScript, now: int, timer: nat -> TimerScript)

  function RoundSteps(r: Round): seq<Step> {
    [ProcessReadyFds(r.ready), ProcessFdEvents(r.batch, r.poll), ProcessTimeEvents(r.now, r.timer)]
  }

  /** A round is its three passes, one after the other. */
  lemma RoundUnfolds(s: Loop, r: Round)
    requires Good(s) && RunOk(s, RoundSteps(r))
    ensures ReadyPassContract(s, 0, r.ready)
    ensures var t := ReadyPass(s, 0, r.ready).s;
      && Good(t) && BatchOk(t, r.batch, r.poll)
      && var u := PollPass(t, r.batch, r.poll).s;
      && Good(u) && TimerPassContract(u, 0, r.now, r.timer)
      && Run(s, RoundSteps(r)) == TimerPass(u, 0, r.now, r.timer).s
  {
    hide Inv, TimerInv;
    var steps := RoundSteps(r);
    var t := Do(s, steps[0]);
    assert steps[1..][0] == steps[1] && steps[1..][1..][0] == steps[2];
    assert RunOk(t, steps[1..]);
    var u := Do(t, steps[1]);
    assert RunOk(u, steps[1..][1..]) && StepOk(u, steps[2]);
    assert Run(s, steps) == Run(t, steps[1..]) == Run(u, steps[1..][1..]);
    var v := Do(u, steps[2]);
    assert steps[1..][1..][1..] == [];
    assert Run(v, []) == v;
  }

  /** The guard of the loop in eventLoop. */
  predicate Continues(s: Loop) {
    !s.stop && (s.fds.numMonitored > 0 || s.timers.used > 0)
  }

  ghost predicate LoopOk(s: Loop, rounds: seq<Round>)
    requires Good(s)
    decreases |rounds|
  {
    rounds != [] && Continues(s) ==>
      RunOk(s, RoundSteps(rounds[0])) && LoopOk(Run(s, RoundSteps(rounds[0])), rounds[1..])
  }

  datatype LoopOut = LoopOut(s: Loop, waits: seq<int>)

  /** eventLoop for as many rounds as `rounds` describes: any finite part of what the loop does. `waits` are
      the timeouts passed to epoll_wait. */
  function EventLoop(s: Loop, rounds: seq<Round>): (r: LoopOut)
    requires Good(s) && LoopOk(s, rounds)
    ensures Good(r.s)
    decreases |rounds|
  {
    if rounds == [] || !Continues(s) then LoopOut(s, [])
    else
      var r := rounds[0];
      var rest := EventLoop(Run(s, RoundSteps(r)), rounds[1..]);
      LoopOut(rest.s, [Timeout(ReadyPass(s, 0, r.ready).s, r.clock)] + rest.waits)
  }

  /** A loop that is not stopped and has a monitored fd or a timer goes on: it runs the next round, and waits in it
      as long as the state after the pass over the ready list says. */
  lemma {:induction false} EventLoopGoesOn(s: Loop, rounds: seq<Round>)
    requires Good(s) && LoopOk(s, rounds) && rounds != []
    requires !s.stop && (s.fds.interest != map[] || s.timers.used > 0)
    ensures RunOk(s, RoundSteps(rounds[0]))
    ensures var t := Run(s, RoundSteps(rounds[0]));
      && Good(t) && LoopOk(t, rounds[1..])
      && Shaped(ReadyPass(s, 0, rounds[0].ready).s)
      && var rest := EventLoop(t, rounds[1..]);
         EventLoop(s, rounds)
         == LoopOut(rest.s, [Timeout(ReadyPass(s, 0, rounds[0].ready).s, rounds[0].clock)] + rest.waits)
  {
    WatchedAreCounted(s);
    hide Run, RunOk, RoundSteps, Timeout, ReadyPass, Inv, TimerInv;
  }

  lemma WatchedAreCounted(s: Loop)
    requires Good(s)
    ensures Shaped(s) && s.fds.numMonitored == |s.fds.interest|
    ensures s.fds.interest == map[] <==> s.fds.numMonitored <= 0
  {
    assert |s.fds.interest.Keys| == |s.fds.interest|;
  }

  /** And it ends before its rounds do only when it is stopped, or the kernel watches nothing for it and no timer
      is left. */
  lemma {:induction false} EventLoopEnds(s: Loop, rounds: seq<Round>)
    requires Good(s) && LoopOk(s, rounds)
    ensures var out := EventLoop(s, rounds);
      && |out.waits| <= |rounds|
      && (|out.waits| < |rounds| ==> out.s.stop || (out.s.fds.interest == map[] && out.s.timers.used == 0))
    decreases |rounds|
  {
    WatchedAreCounted(s);
    hide Run, RunOk, RoundSteps, Timeout, ReadyPass, Inv, TimerInv;
    if rounds != [] && Continues(s) {
      EventLoopEnds(Run(s, RoundSteps(rounds[0])), rounds[1..]);
    }
  }

  /** Once its guard fails the loop is over: further rounds make no difference. */
  lemma {:induction false} EventLoopStops(s: Loop, rounds: seq<Round>, more: seq<Round>)
    requires Good(s) && LoopOk(s, rounds) && !Continues(EventLoop(s, rounds).s)
    ensures LoopOk(s, rounds + more) && EventLoop(s, rounds + more) == EventLoop(s, rounds)
    decreases |rounds|
  {
    hide Run, RunOk, RoundSteps, Timeout, ReadyPass, Good;
    if rounds == [] {
      assert rounds + more == more;
    } else if Continues(s) {
      assert (rounds + more)[1..] == rounds[1..] + more;
      EventLoopStops(Run(s, RoundSteps(rounds[0])), rounds[1..], more);
    }
  }
}
