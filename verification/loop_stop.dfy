/** AsyncEvent::start and AsyncEvent::stop: when a callback's call of stop() ends eventLoop. */
module LoopStops {
  import opened EventTypes
  import opened FdTable
  import opened Timers
  import opened EventModel
  import opened ReadySteps
  import opened ReadyPasses
  import opened PollPasses
  import opened TimerSteps
  import opened TimerPasses
  import opened EventLoops

  /** stop() is called at k and start() is not called after that. */
  ghost predicate LastStop(ops: seq<Op>, k: int) {
    0 <= k < |ops| && ops[k].Stop? && forall j :: k < j < |ops| ==> !ops[j].Start?
  }

  /** The stop flag after a series of calls: the last start() or stop() among them decides. */
  ghost predicate Raised(stop: bool, ops: seq<Op>) {
    (exists k :: LastStop(ops, k)) || (stop && NoStart(ops))
  }

  ghost predicate NoStart(ops: seq<Op>) {
    forall j :: 0 <= j < |ops| ==> !ops[j].Start?
  }

  ghost predicate Stops(ops: seq<Op>) {
    exists k :: 0 <= k < |ops| && ops[k].Stop?
  }

  lemma ApplyStop(s: Loop, op: Op)
    requires Shaped(s)
    ensures Apply(s, op).stop <==> op.Stop? || (s.stop && !op.Start?)
  {}

  lemma RaisedCons(stop: bool, op: Op, rest: seq<Op>)
    ensures Raised(stop, [op] + rest) <==> Raised(op.Stop? || (stop && !op.Start?), rest)
  {
    var ops := [op] + rest;
    assert ops[0] == op && forall j :: 0 < j < |ops| ==> ops[j] == rest[j - 1];
    forall k | 0 < k ensures LastStop(ops, k) <==> LastStop(rest, k - 1) {
      assert forall j :: 0 <= j < |rest| ==> rest[j] == ops[j + 1];
    }
    if k :| LastStop(rest, k) {
      assert LastStop(ops, k + 1);
    }
    assert NoStart(ops) <==> !op.Start? && NoStart(rest) by {
      assert forall j :: 0 <= j < |rest| ==> rest[j] == ops[j + 1];
    }
    if op.Stop? && NoStart(rest) {
      assert LastStop(ops, 0);
    }
  }

  /** The last of the calls of start() and stop() decides. */
  lemma {:induction false} ExecStopIff(s: Loop, ops: seq<Op>)
    requires Shaped(s)
    ensures Exec(s, ops).stop <==> Raised(s.stop, ops)
    decreases |ops|
  {
    if ops != [] {
      assert ops == [ops[0]] + ops[1..];
      ApplyStop(s, ops[0]);
      RaisedCons(s.stop, ops[0], ops[1..]);
      hide Apply, Raised;
      ExecStopIff(Apply(s, ops[0]), ops[1..]);
    }
  }

  lemma RaisedIfStops(stop: bool, ops: seq<Op>)
    requires NoStart(ops)
    ensures Raised(stop, ops) <==> stop || Stops(ops)
  {
    if k :| 0 <= k < |ops| && ops[k].Stop? {
      assert LastStop(ops, k);
    }
  }

  /** Without start(), the flag is up afterwards if and only if it was or stop() was called. */
  lemma ExecStops(s: Loop, ops: seq<Op>)
    requires Shaped(s) && NoStart(ops)
    ensures Exec(s, ops).stop <==> s.stop || Stops(ops)
  {
    ExecStopIff(s, ops);
    RaisedIfStops(s.stop, ops);
  }

  // ----- a pass -----

  ghost predicate Some<T>(list: seq<T>, p: T -> bool) {
    exists i :: 0 <= i < |list| && p(list[i])
  }

  lemma SomeCons<T>(x: T, list: seq<T>, p: T -> bool)
    ensures Some([x] + list, p) <==> p(x) || Some(list, p)
  {
    var all := [x] + list;
    if p(x) {
      assert p(all[0]);
    }
    if i :| 0 <= i < |list| && p(list[i]) {
      assert p(all[i + 1]);
    }
    if i :| 0 <= i < |all| && p(all[i]) {
      assert i > 0 ==> p(list[i - 1]);
    }
  }

  ghost function CallStops(oracle: int -> FdScript): Call -> bool {
    (c: Call) => Stops(oracle(c.fd).ops)
  }

  ghost function HandledStops(oracle: int -> FdScript): Handled -> bool {
    (h: Handled) => !h.branch.Ignored? && Stops(oracle(h.fd).ops)
  }

  ghost function FiringStops(oracle: nat -> TimerScript): TimeEvent -> bool {
    (e: TimeEvent) => Stops(oracle(e.id).ops)
  }

  lemma {:induction false} ReadyPassStopIff(s: Loop, idx: nat, oracle: int -> FdScript)
    requires Shaped(s) && forall fd :: NoStart(oracle(fd).ops)
    ensures var out := ReadyPass(s, idx, oracle); out.s.stop <==> s.stop || Some(out.calls, CallStops(oracle))
    decreases s.fds.numReady - idx
  {
    hide Some, Stops, NoStart;
    if idx < s.fds.numReady {
      var fd := s.fds.slots[idx];
      ExecStops(s, oracle(fd).ops);
      ReadyTailTouchesIff(Exec(s, oracle(fd).ops), idx, fd, oracle(fd).rc, NONE);
      var (t, next) := ReadyStep(s, idx, oracle(fd));
      assert t.stop <==> s.stop || Stops(oracle(fd).ops);
      hide ReadyStep;
      ReadyPassStopIff(t, next, oracle);
      SomeCons(Call(fd, s.fds.info[fd].fired), ReadyPass(t, next, oracle).calls, CallStops(oracle));
    } else {
      NoneStop<Call>(CallStops(oracle));
    }
  }

  lemma NoneStop<T>(p: T -> bool)
    ensures !Some([], p)
  {}

  lemma {:induction false} PollPassStopIff(s: Loop, batch: seq<Fired>, oracle: int -> FdScript)
    requires Shaped(s) && Inv(s.fds) && BatchOk(s, batch, oracle) && forall fd :: NoStart(oracle(fd).ops)
    ensures var out := PollPass(s, batch, oracle); out.s.stop <==> s.stop || Some(out.log, HandledStops(oracle))
    decreases |batch|
  {
    hide Some, Stops, NoStart, Inv;
    if batch != [] {
      var e := batch[0];
      var info := s.fds.info[e.fd];
      ExecStops(s, oracle(e.fd).ops);
      PollStepKeepsInv(s, e, oracle(e.fd));
      var t := PollStep(s, e, oracle(e.fd));
      assert t.stop <==> s.stop || (!BranchOf(info, e.events).Ignored? && Stops(oracle(e.fd).ops));
      hide PollStep, BranchOf;
      PollPassStopIff(t, batch[1..], oracle);
      SomeCons(Handled(e.fd, BranchOf(info, e.events), info), PollPass(t, batch[1..], oracle).log,
               HandledStops(oracle));
    } else {
      NoneStop<Handled>(HandledStops(oracle));
    }
  }

  lemma {:induction false} TimerPassStopIff(s: Loop, i: nat, now: int, oracle: nat -> TimerScript)
    requires Shaped(s) && i <= s.timers.used && TimerPassContract(s, i, now, oracle)
    requires forall id :: NoStart(oracle(id).ops)
    ensures var out := TimerPass(s, i, now, oracle); out.s.stop <==> s.stop || Some(out.fired, FiringStops(oracle))
    decreases DueCount(Rest(s.timers, i), now), s.timers.used - i
  {
    hide Some, Stops, NoStart, DueCount, TurnContract;
    if i < s.timers.used {
      var e := s.timers.slots[i];
      if e.when > now {
        DueAhead(s.timers, i, now);
        TimerPassStopIff(s, i + 1, now, oracle);
      } else {
        TimerStepShrinks(s, i, now, oracle(e.id));
        ExecStops(s, oracle(e.id).ops);
        var (t, next) := TimerStep(s, i, now, oracle(e.id));
        assert t.stop <==> s.stop || Stops(oracle(e.id).ops);
        hide TimerStep;
        TimerPassStopIff(t, next, now, oracle);
        SomeCons(e, TimerPass(t, next, now, oracle).fired, FiringStops(oracle));
      }
    } else {
      NoneStop<TimeEvent>(FiringStops(oracle));
    }
  }

  // ----- the loop -----

  ghost predicate NeverStarts(r: Round) {
    && (forall fd :: NoStart(r.ready(fd).ops))
    && (forall fd :: NoStart(r.poll(fd).ops))
    && (forall id :: NoStart(r.timer(id).ops))
  }

  /** Some callback that the round calls calls stop(). */
  ghost predicate SomeoneStops(s: Loop, r: Round)
    requires Good(s) && RunOk(s, RoundSteps(r))
  {
    RoundUnfolds(s, r);
    var ready := ReadyPass(s, 0, r.ready);
    var poll := PollPass(ready.s, r.batch, r.poll);
    || Some(ready.calls, CallStops(r.ready))
    || Some(poll.log, HandledStops(r.poll))
    || Some(TimerPass(poll.s, 0, r.now, r.timer).fired, FiringStops(r.timer))
  }

  /** A round whose callbacks do not call start() leaves the loop stopped if and only if it was stopped or one of
      the callbacks that ran called stop(). */
  lemma RoundStopIff(s: Loop, r: Round)
    requires Good(s) && RunOk(s, RoundSteps(r)) && NeverStarts(r)
    ensures Run(s, RoundSteps(r)).stop <==> s.stop || SomeoneStops(s, r)
  {
    RoundUnfolds(s, r);
    hide Inv, TimerInv, Run, RunOk, RoundSteps, Some, NoStart;
    var t := ReadyPass(s, 0, r.ready).s;
    var u := PollPass(t, r.batch, r.poll).s;
    ReadyPassStopIff(s, 0, r.ready);
    PollPassStopIff(t, r.batch, r.poll);
    TimerPassStopIff(u, 0, r.now, r.timer);
  }

  /** A round that was begun is finished, but when one of its callbacks called stop() it is the last. */
  lemma StopEndsLoop(s: Loop, rounds: seq<Round>)
    requires Good(s) && LoopOk(s, rounds) && rounds != [] && Continues(s)
    requires RunOk(s, RoundSteps(rounds[0])) && NeverStarts(rounds[0]) && SomeoneStops(s, rounds[0])
    ensures EventLoop(s, rounds).s == Run(s, RoundSteps(rounds[0])) && |EventLoop(s, rounds).waits| == 1
  {
    RoundStopIff(s, rounds[0]);
    hide Inv, TimerInv, Run, RunOk, RoundSteps, Timeout, ReadyPass, SomeoneStops, NeverStarts;
  }
}
