/** Runs from a fresh loop that reach the states in which a contract is broken or a cast shows. */
module Witnesses {
  import opened Words
  import opened EventTypes
  import opened FdTable
  import opened Timers
  import opened EventModel
  import opened TimerSteps
  import opened TimerPasses
  import opened TimerFaults
  import opened ReadySteps
  import opened ReadyPasses
  import opened ReadyFaults
  import opened PollPasses
  import opened EventLoops

  ghost predicate Leads(s: Loop, steps: seq<Step>, t: Loop) {
    Good(s) && RunOk(s, steps) && Run(s, steps) == t
  }

  lemma LeadsOne(s: Loop, step: Step)
    requires Good(s) && StepOk(s, step)
    ensures Leads(s, [step], Do(s, step))
  {
    assert [step][1..] == [];
  }

  lemma {:induction false} LeadsThen(s: Loop, a: seq<Step>, t: Loop, b: seq<Step>, u: Loop)
    requires Leads(s, a, t) && Leads(t, b, u)
    ensures Leads(s, a + b, u)
    decreases |a|
  {
    hide Do, StepOk, Good;
    if a == [] {
      assert a + b == b;
    } else {
      assert (a + b)[1..] == a[1..] + b;
      LeadsThen(Do(s, a[0]), a[1..], t, b, u);
    }
  }

  // ----- ready fds -----

  const HANDLER := Handler(1, 0, 0, 0)
  const IN := Events(true, false, false, false)

  /** A callback that does nothing and has more to read. */
  function MoreToRead(fd: int): FdScript { FdScript([], READABLE) }

  /** f with fd added for `mask`, and with one readable event reported and recorded. */
  function WithReady(f: FdState, fd: int, mask: Mask): FdState
    requires InTable(f, fd) && 0 <= f.numReady < |f.slots|
  {
    FdState(f.info[fd := FdInfo(mask, READABLE, HANDLER)], f.slots[f.numReady := fd], f.numReady + 1,
            f.numMonitored + 1, f.interest[fd := InterestOf(mask)])
  }

  /** f with fd added for `mask`. */
  function WithFd(f: FdState, fd: int, mask: Mask): FdState
    requires InTable(f, fd)
  {
    f.(info := f.info[fd := FdInfo(mask, NONE, HANDLER)], numMonitored := f.numMonitored + 1,
       interest := f.interest[fd := InterestOf(mask)])
  }

  lemma AddGives(s: Loop, fd: int, mask: Mask)
    requires Good(s) && InTable(s.fds, fd) && s.fds.info[fd].monitored == NONE && READABLE.Within(mask)
    ensures Leads(s, [ApiCall(AddFdEvent(fd, mask, HANDLER, true))], s.(fds := WithFd(s.fds, fd, mask)))
  {
    assert s.fds.info[fd] == CLEARED && fd !in s.fds.interest;
    assert NONE.Or(mask) == mask;
    assert Apply(s, AddFdEvent(fd, mask, HANDLER, true)) == s.(fds := WithFd(s.fds, fd, mask));
    hide Inv, TimerInv;
    LeadsOne(s, ApiCall(AddFdEvent(fd, mask, HANDLER, true)));
  }

  lemma PollGives(t: Loop, fd: int)
    requires Good(t) && InTable(t.fds, fd) && t.fds.info[fd].fired == NONE && READABLE.Within(t.fds.info[fd].monitored)
    ensures 0 <= t.fds.numReady < |t.fds.slots|
    ensures Leads(t, [ProcessFdEvents([Fired(fd, IN)], MoreToRead)],
                  t.(fds := SetFired(Append(t.fds, fd), fd, READABLE)))
  {
    hide Inv, TimerInv, PollPass, Append, SetFired, PollTail, BatchOk, Leads;
    PollTailGives(t.fds, fd);
    PollOne(t, fd);
    var poll := ProcessFdEvents([Fired(fd, IN)], MoreToRead);
    assert BranchOf(t.fds.info[fd], IN) == InputOutput(READABLE);
    assert Do(t, poll) == PollPass(t, [Fired(fd, IN)], MoreToRead).s;
    LeadsOne(t, poll);
  }

  lemma PollTailGives(f: FdState, fd: int)
    requires Inv(f) && InTable(f, fd) && f.info[fd].fired == NONE && READABLE.Within(f.info[fd].monitored)
    ensures 0 <= f.numReady < |f.slots|
    ensures PollTail(f, fd, READABLE, READABLE) == SetFired(Append(f, fd), fd, READABLE)
  {
    ReadyFits(f, fd);
    hide Inv;
    assert Guess(f, fd, READABLE) == READABLE && NONE.Or(READABLE) == READABLE;
  }

  lemma PollOne(t: Loop, fd: int)
    requires Good(t) && InTable(t.fds, fd)
    ensures BatchOk(t, [Fired(fd, IN)], MoreToRead)
    ensures PollPass(t, [Fired(fd, IN)], MoreToRead).s == PollStep(t, Fired(fd, IN), MoreToRead(fd))
  {
    var batch := [Fired(fd, IN)];
    assert batch[0] == Fired(fd, IN) && batch[1..] == [];
    hide Inv, PollStep;
    PollStepKeepsInv(t, batch[0], MoreToRead(fd));
  }

  lemma AppendIs(f: FdState, fd: int, mask: Mask)
    requires InTable(f, fd) && 0 <= f.numReady < |f.slots|
    ensures SetFired(Append(WithFd(f, fd, mask), fd), fd, READABLE) == WithReady(f, fd, mask)
  {}

  /** The table after fd was added, once its event has been reported. */
  lemma PollAdded(t: Loop, f: FdState, fd: int, mask: Mask)
    requires Good(t) && InTable(f, fd) && t.fds == WithFd(f, fd, mask) && READABLE.Within(mask)
    ensures 0 <= f.numReady < |f.slots|
    ensures Leads(t, [ProcessFdEvents([Fired(fd, IN)], MoreToRead)], t.(fds := WithReady(f, fd, mask)))
  {
    hide Good, Leads, SetFired, Append, WithReady;
    PollGives(t, fd);
    AppendIs(f, fd, mask);
  }

  lemma AddReady(s: Loop, fd: int, mask: Mask)
    requires Good(s) && InTable(s.fds, fd) && s.fds.info[fd].monitored == NONE && READABLE.Within(mask)
    ensures 0 <= s.fds.numReady < |s.fds.slots|
    ensures exists steps :: Leads(s, steps, s.(fds := WithReady(s.fds, fd, mask)))
  {
    hide Good, Leads, WithReady, WithFd;
    var t := s.(fds := WithFd(s.fds, fd, mask));
    var add := [ApiCall(AddFdEvent(fd, mask, HANDLER, true))];
    AddGives(s, fd, mask);
    LeadsToGood(s, add, t);
    PollAdded(t, s.fds, fd, mask);
    LeadsThen(s, add, t, [ProcessFdEvents([Fired(fd, IN)], MoreToRead)], t.(fds := WithReady(s.fds, fd, mask)));
  }

  lemma LeadsNowhere(s: Loop)
    requires Good(s)
    ensures Leads(s, [], s)
  {}

  lemma LeadsToGood(s: Loop, steps: seq<Step>, t: Loop)
    requires Leads(s, steps, t)
    ensures Good(t)
  {}

  /** fds 0 to n - 1 of a fresh table of this size, all readable, recorded and listed in order; the last one
      also waits to write if asked. */
  function ReadyFds(n: nat, size: nat, last: Mask): (f: FdState)
    requires n <= size
    ensures |f.info| == |f.slots| == size && f.numReady == n
    ensures forall k :: 0 <= k < n ==> f.slots[k] == k
    ensures forall k :: 0 <= k < n ==>
              f.info[k] == FdInfo(if k == n - 1 then last else READABLE, READABLE, HANDLER)
    ensures forall k :: n <= k < size ==> f.info[k] == CLEARED
  {
    if n == 0 then Fresh(size) else WithReady(ReadyFds(n - 1, size, READABLE), n - 1, last)
  }

  function Waiting(f: FdState): Loop {
    Loop(f, FreshTimers(0), false)
  }

  /** The loop of that table is reached from a fresh one. */
  lemma {:induction false} ReadyFdsReached(n: nat, size: nat, last: Mask)
    requires n <= size && READABLE.Within(last)
    ensures exists steps :: Leads(Initial(size, 0), steps, Waiting(ReadyFds(n, size, last)))
    decreases n
  {
    hide Leads, Good;
    if n == 0 {
      LeadsNowhere(Initial(size, 0));
      assert Initial(size, 0) == Waiting(ReadyFds(n, size, last));
    } else {
      ReadyFdsReached(n - 1, size, READABLE);
      var s, t := Waiting(ReadyFds(n - 1, size, READABLE)), Waiting(ReadyFds(n, size, last));
      var a :| Leads(Initial(size, 0), a, s);
      LeadsToGood(Initial(size, 0), a, s);
      AddReady(s, n - 1, last);
      var b :| Leads(s, b, t);
      LeadsThen(Initial(size, 0), a, s, b, t);
    }
  }

  lemma WaitingIsGood(n: nat, size: nat, last: Mask)
    requires n <= size && READABLE.Within(last)
    ensures Good(Waiting(ReadyFds(n, size, last)))
  {
    ReadyFdsReached(n, size, last);
    var a :| Leads(Initial(size, 0), a, Waiting(ReadyFds(n, size, last)));
    LeadsToGood(Initial(size, 0), a, Waiting(ReadyFds(n, size, last)));
  }

  /** processReadyFds, last slot: a state that is reached in which fd 1 is last and removes itself, so that
      LastSlotRemovalForgetsAnotherFd applies. */
  lemma LastSlotRemovalHappens()
    ensures exists steps :: Leads(Initial(2, 0), steps, Waiting(ReadyFds(2, 2, READABLE)))
    ensures var s := Waiting(ReadyFds(2, 2, READABLE));
      && Good(s) && Ready(s.fds) == [0, 1] && OwnOnly([RemoveFdEvent(1, true)], 1)
      && Unregistered(s, 1, [RemoveFdEvent(1, true)])
  {
    ReadyFdsReached(2, 2, READABLE);
    WaitingIsGood(2, 2, READABLE);
    var s := Waiting(ReadyFds(2, 2, READABLE));
    RemoveClears(s, 1);
  }

  const REMOVE_AND_REST: seq<Op> := [RemoveFdEvent(0, true), DelFdEvent(2, READABLE, true)]

  /** processReadyFds, another fd: from the last of three slots fd 2, which waits to read and to write, removes
      fd 0, stops waiting to read and wants nothing. It is left listed with nothing recorded, and the recorded
      event of fd 1 leaves the list. */
  lemma EarlierRemovalLosesEvent()
    ensures exists steps :: Leads(Initial(3, 0), steps, Waiting(ReadyFds(3, 3, RDWR)))
    ensures var s := Waiting(ReadyFds(3, 3, RDWR));
      && Good(s) && Ready(s.fds) == [0, 1, 2] && MasksGiven(REMOVE_AND_REST)
      && !Unregistered(s, 2, REMOVE_AND_REST)
      && var t := ReadyStep(s, 2, FdScript(REMOVE_AND_REST, NONE)).0.fds;
      && t.numReady == 1 && t.slots[0] == 2 && t.info[2].fired == NONE
      && t.info[1].fired == READABLE && t.info[1].monitored == READABLE
  {
    hide Inv, TimerInv, Leads, Exec, ReadyStep, ReadyFds;
    ReadyFdsReached(3, 3, RDWR);
    WaitingIsGood(3, 3, RDWR);
    LosesEvent(Waiting(ReadyFds(3, 3, RDWR)));
  }

  lemma LosesEvent(s: Loop)
    requires s == Waiting(ReadyFds(3, 3, RDWR)) && Good(s)
    ensures Ready(s.fds) == [0, 1, 2] && MasksGiven(REMOVE_AND_REST) && !Unregistered(s, 2, REMOVE_AND_REST)
    ensures var t := ReadyStep(s, 2, FdScript(REMOVE_AND_REST, NONE)).0.fds;
      && t.numReady == 1 && |t.slots| == |t.info| == 3 && t.slots[0] == 2 && t.info[2].fired == NONE
      && t.info[1].fired == READABLE && t.info[1].monitored == READABLE
  {
    hide Inv, TimerInv, Exec, ReadyTail;
    assert s.fds.slots == [0, 1, 2] && s.fds.numReady == 3 && |s.fds.info| == 3;
    hide ReadyFds;
    RemoveAndRestLeaves(s);
    StaleTail(Exec(s, REMOVE_AND_REST));
  }

  lemma StaleTail(c: Loop)
    requires Shaped(c) && c.fds.slots == [2, 1, 2] && c.fds.numReady == 2 && |c.fds.info| == 3
    requires c.fds.info[2].monitored == WRITABLE && c.fds.info[2].fired == READABLE
    ensures var t := ReadyTail(c, 2, 2, NONE).0.fds;
      && t.numReady == 1 && |t.slots| == |t.info| == 3 && t.slots[0] == 2 && t.info[2].fired == NONE
      && t.info[1] == c.fds.info[1]
  {}

  lemma RemoveAndRestLeaves(s: Loop)
    requires s == Waiting(ReadyFds(3, 3, RDWR)) && Good(s)
    ensures var c := Exec(s, REMOVE_AND_REST).fds;
      && c.slots == [2, 1, 2] && c.numReady == 2 && |c.info| == 3
      && c.info[1] == FdInfo(READABLE, READABLE, HANDLER)
      && c.info[2].monitored == WRITABLE && c.info[2].fired == READABLE
  {
    var t := Apply(s, REMOVE_AND_REST[0]);
    RemoveFirst(s);
    assert Exec(s, REMOVE_AND_REST) == Exec(t, REMOVE_AND_REST[1..]);
    hide ReadyFds, Good, Exec, Apply;
    RestOfLast(t);
    assert REMOVE_AND_REST[1..] == [DelFdEvent(2, READABLE, true)];
    OneOp(t, DelFdEvent(2, READABLE, true));
  }

  lemma RemoveFirst(s: Loop)
    requires s == Waiting(ReadyFds(3, 3, RDWR)) && Good(s)
    ensures var t := Apply(s, REMOVE_AND_REST[0]);
      && Good(t) && t.fds.slots == [2, 1, 2] && t.fds.numReady == 2 && |t.fds.info| == 3
      && t.fds.info[1] == s.fds.info[1] && t.fds.info[2] == s.fds.info[2]
  {
    hide Inv, RemoveFd, TimerInv;
    ApiCallKeepsInv(s, REMOVE_AND_REST[0]);
    assert s.fds.slots == [0, 1, 2] && s.fds.numReady == 3 && |s.fds.info| == 3;
    hide ReadyFds;
    RemoveFirstFd(s.fds);
  }

  lemma RemoveFirstFd(f: FdState)
    requires Inv(f) && f.slots == [0, 1, 2] && f.numReady == 3 && |f.info| == 3
    ensures var c := RemoveFd(f, 0, true).0;
      && c.slots == [2, 1, 2] && c.numReady == 2 && |c.info| == 3
      && c.info[1] == f.info[1] && c.info[2] == f.info[2]
  {
    RemoveDrops(f, 0, 0);
  }

  lemma RestOfLast(t: Loop)
    requires Good(t) && t.fds.slots == [2, 1, 2] && |t.fds.info| == 3
    requires t.fds.info[2] == FdInfo(RDWR, READABLE, HANDLER)
    ensures var c := Apply(t, DelFdEvent(2, READABLE, true)).fds;
      && c.slots == t.fds.slots && c.numReady == t.fds.numReady && |c.info| == 3
      && c.info[1] == t.fds.info[1] && c.info[2] == FdInfo(WRITABLE, READABLE, HANDLER)
  {
    assert 2 in t.fds.interest by { assert 2 in MonitoredFds(t.fds); }
    hide Inv, TimerInv;
    assert RDWR.Minus(READABLE) == WRITABLE;
  }

  // ----- one batch -----

  /** The first callback unregisters fd 1, the other one does nothing. */
  function RemoveFd1(fd: int): FdScript {
    if fd == 0 then FdScript([RemoveFdEvent(1, true)], NONE) else FdScript([], NONE)
  }

  /** processFdEvents: a batch from the kernel whose second event is handled through a cleared entry. */
  lemma BrokenBatchHappens()
    ensures exists steps :: Leads(Initial(2, 0), steps, Waiting(ReadyFds(2, 2, READABLE)))
    ensures var s, batch := Waiting(ReadyFds(2, 2, READABLE)), [Fired(0, IN), Fired(1, IN)];
      && Good(s) && BatchOk(s, batch, RemoveFd1) && FromKernel(s, batch)
      && |PollPass(s, batch, RemoveFd1).log| == 2 && PollPass(s, batch, RemoveFd1).log[1].info == CLEARED
  {
    ReadyFdsReached(2, 2, READABLE);
    WaitingIsGood(2, 2, READABLE);
    var s, batch := Waiting(ReadyFds(2, 2, READABLE)), [Fired(0, IN), Fired(1, IN)];
    assert 0 in MonitoredFds(s.fds) && 1 in MonitoredFds(s.fds);
    hide PollPass;
    UnregisteringAnotherFdBreaksBatch(s, batch[0], batch[1], RemoveFd1);
  }

  // ----- timers -----

  /** A fresh loop with one timer, set at clock 0 to be due `ms` later. */
  function OneTimer(ms: nat): Loop {
    Loop(Fresh(0), TimerState([TimeEvent(1, ms, 1, 0)], 1, 1, 1), false)
  }

  lemma OneTimerReached(ms: nat)
    ensures Leads(Initial(0, 1), [ApiCall(AddTimeEvent(ms, 1, 0, 0))], OneTimer(ms))
  {
    var s, step := Initial(0, 1), ApiCall(AddTimeEvent(ms, 1, 0, 0));
    LeadsOne(s, step);
    assert Do(s, step).timers.slots == OneTimer(ms).timers.slots;
  }

  /** processTimeEvents: the only timer deletes itself and returns 0; used_time_events_ becomes -1. */
  lemma SingleTimerUnderflows()
    ensures Leads(Initial(0, 1), [ApiCall(AddTimeEvent(0, 1, 0, 0))], OneTimer(0))
    ensures TimerStep(OneTimer(0), 0, 0, TimerScript([DelTimeEvent(1)], 0)).0.timers.used == -1
  {
    OneTimerReached(0);
    OwnDeleteCases(OneTimer(0), 0, 0, 0);
  }

  /** eventLoop: a single timer 2^31 ms away, which ms_later can ask for, makes the loop wait for ever. */
  lemma FarTimerBlocksForever()
    ensures Leads(Initial(0, 1), [ApiCall(AddTimeEvent(TWO_TO_THE_31, 1, 0, 0))], OneTimer(TWO_TO_THE_31))
    ensures Continues(OneTimer(TWO_TO_THE_31)) && Timeout(OneTimer(TWO_TO_THE_31), 0) < 0
  {
    OneTimerReached(TWO_TO_THE_31);
    hide Leads, Timeout, Nearest;
    OneTimerNearest(TWO_TO_THE_31);
    BlocksForeverIff(OneTimer(TWO_TO_THE_31), 0);
  }

  lemma OneTimerNearest(ms: nat)
    ensures Nearest(OneTimer(ms).timers, 0) == ms
  {
    assert NearestIndex(OneTimer(ms).timers.slots, 1) == 0;
  }
}
