/** AsyncEvent as a whole, on values: API calls, callbacks as scripts of API calls, the three
    processing passes and the event loop. */
module EventModel {
  import opened EventTypes
  import opened FdTable
  import opened Timers

  datatype Loop = Loop(fds: FdState, timers: TimerState, stop: bool)

  /** One call of the public API. What the kernel answers (`willing`) and what the clock reads (`clock`)
      travel with the call. */
  datatype Op =
    | AddFdEvent(fd: int, mask: Mask, handler: Handler, willing: bool)
    | DelFdEvent(fd: int, mask: Mask, willing: bool)
    | RemoveFdEvent(fd: int, willing: bool)
    | AddTimeEvent(msLater: nat, proc: nat, data: nat, clock: int)
    | DelTimeEvent(id: nat)
    | Start
    | Stop

  /** What one invocation of a callback does to the loop: some API calls, then a return value. */
  datatype FdScript = FdScript(ops: seq<Op>, rc: Mask)
  datatype TimerScript = TimerScript(ops: seq<Op>, rc: nat)

  ghost predicate Shaped(s: Loop) {
    Shape(s.fds) && 0 <= s.timers.used <= |s.timers.slots|
  }

  predicate SameSize(s: Loop, t: Loop) {
    |t.fds.info| == |s.fds.info| && |t.timers.slots| == |s.timers.slots|
  }

  /** API calls never append to the ready list, and a ready list of the same length is the same list. */
  predicate OnlyDrops(s: Loop, t: Loop) {
    && t.fds.numReady <= s.fds.numReady
    && (t.fds.numReady == s.fds.numReady ==> t.fds.slots == s.fds.slots)
  }

  function Apply(s: Loop, op: Op): (t: Loop)
    requires Shaped(s)
    ensures Shaped(t) && SameSize(s, t) && OnlyDrops(s, t)
  {
    match op
    case AddFdEvent(fd, mask, handler, willing) => s.(fds := AddFd(s.fds, fd, mask, handler, willing).0)
    case DelFdEvent(fd, mask, willing) => s.(fds := DelFd(s.fds, fd, mask, willing).0)
    case RemoveFdEvent(fd, willing) => s.(fds := RemoveFd(s.fds, fd, willing).0)
    case AddTimeEvent(msLater, proc, data, clock) =>
      s.(timers := AddTimer(s.timers, msLater, proc, data, clock).0)
    case DelTimeEvent(id) => s.(timers := DelTimer(s.timers, id).0)
    case Start => s.(stop := false)
    case Stop => s.(stop := true)
  }

  function Exec(s: Loop, ops: seq<Op>): (t: Loop)
    requires Shaped(s)
    ensures Shaped(t) && SameSize(s, t) && OnlyDrops(s, t)
    decreases |ops|
  {
    if ops == [] then s else Exec(Apply(s, ops[0]), ops[1..])
  }

  lemma OneOp(s: Loop, op: Op)
    requires Shaped(s)
    ensures Exec(s, [op]) == Apply(s, op)
  {
    assert Exec(s, [op]) == Exec(Apply(s, op), []);
  }

  // ----- what the source asks of callbacks -----

  /** No call registers an fd for no event. */
  ghost predicate MasksGiven(ops: seq<Op>) {
    forall i :: 0 <= i < |ops| && ops[i].AddFdEvent? ==> ops[i].mask != NONE
  }

  /** The callback of fd unregisters no other fd. */
  ghost predicate OwnOnly(ops: seq<Op>, fd: int) {
    forall i :: 0 <= i < |ops| && (ops[i].DelFdEvent? || ops[i].RemoveFdEvent?) ==> ops[i].fd == fd
  }

  // ----- what API calls keep -----

  lemma ApplyKeepsInv(s: Loop, op: Op)
    requires Shaped(s) && Inv(s.fds) && MasksGiven([op])
    ensures Inv(Apply(s, op).fds)
  {
    assert [op][0] == op;
    match op
    case AddFdEvent(fd, mask, handler, willing) => AddFdKeepsInvIff(s.fds, fd, mask, handler, willing);
    case DelFdEvent(fd, mask, willing) => DelFdKeepsInv(s.fds, fd, mask, willing);
    case RemoveFdEvent(fd, willing) => RemoveFdKeepsInv(s.fds, fd, willing);
    case _ =>
  }

  /** Any series of API calls, with any kernel failures, keeps tables, counter and kernel in agreement. */
  lemma {:induction false} ExecKeepsInv(s: Loop, ops: seq<Op>)
    requires Shaped(s) && Inv(s.fds) && MasksGiven(ops)
    ensures Inv(Exec(s, ops).fds)
    decreases |ops|
  {
    if ops != [] {
      ApplyKeepsInv(s, ops[0]);
      ExecKeepsInv(Apply(s, ops[0]), ops[1..]);
    }
  }

  /** What calls that unregister at most fd do to the fd table: other fds keep their recorded events and lose
      no monitored one; fd either keeps its place in the ready list or has left it. */
  ghost predicate OwnEffect(s: FdState, t: FdState, fd: int)
    requires InTable(s, fd) && s.numReady <= |s.slots|
  {
    && |t.info| == |s.info|
    && (forall g :: InTable(s, g) && g != fd ==>
          t.info[g].fired == s.info[g].fired && s.info[g].monitored.Within(t.info[g].monitored))
    && (|| (t.slots == s.slots && t.numReady == s.numReady && t.info[fd].fired == s.info[fd].fired)
        || (t.slots == DropReady(s, fd).slots && t.numReady == DropReady(s, fd).numReady && t.info[fd].fired == NONE))
  }

  lemma AddOwn(f: FdState, g: int, mask: Mask, handler: Handler, willing: bool, fd: int)
    requires Shape(f) && InTable(f, fd)
    ensures OwnEffect(f, AddFd(f, g, mask, handler, willing).0, fd)
  {
    hide DropReady;
  }

  lemma DelOwn(f: FdState, mask: Mask, willing: bool, fd: int)
    requires Shape(f) && InTable(f, fd)
    ensures OwnEffect(f, DelFd(f, fd, mask, willing).0, fd)
  {
    DropForgotten(f, fd);
  }

  lemma RemoveOwn(f: FdState, willing: bool, fd: int)
    requires Shape(f) && InTable(f, fd)
    ensures OwnEffect(f, RemoveFd(f, fd, willing).0, fd)
  {
    DropForgotten(f, fd);
  }

  /** Scanning the list does not look at the entries. */
  lemma DropForgotten(f: FdState, fd: int)
    requires Shape(f) && InTable(f, fd)
    ensures var a, b := DropReady(Forget(f, fd), fd), DropReady(f, fd);
      a.slots == b.slots && a.numReady == b.numReady && a.info == Forget(f, fd).info
  {}

  lemma NoEffect(f: FdState, fd: int)
    requires Shape(f) && InTable(f, fd)
    ensures OwnEffect(f, f, fd)
  {}

  lemma ApplyOwn(s: Loop, op: Op, fd: int)
    requires Shaped(s) && InTable(s.fds, fd) && OwnOnly([op], fd)
    ensures OwnEffect(s.fds, Apply(s, op).fds, fd)
  {
    assert [op][0] == op;
    hide OwnEffect, AddFd, DelFd, RemoveFd;
    match op
    case AddFdEvent(g, mask, handler, willing) => AddOwn(s.fds, g, mask, handler, willing, fd);
    case DelFdEvent(_, mask, willing) => DelOwn(s.fds, mask, willing, fd);
    case RemoveFdEvent(_, willing) => RemoveOwn(s.fds, willing, fd);
    case _ => NoEffect(s.fds, fd);
  }

  lemma OwnEffectTrans(s: FdState, t: FdState, u: FdState, fd: int)
    requires ReadyInv(s) && ReadyInv(t) && InTable(s, fd)
    requires OwnEffect(s, t, fd) && OwnEffect(t, u, fd)
    ensures OwnEffect(s, u, fd)
  {
    if t.info[fd].fired == NONE {
      assert DropReady(t, fd) == t by {
        forall i | 0 <= i < t.numReady ensures t.slots[i] != fd {}
      }
    }
  }

  lemma {:induction false} ExecOwn(s: Loop, ops: seq<Op>, fd: int)
    requires Shaped(s) && Inv(s.fds) && InTable(s.fds, fd) && MasksGiven(ops) && OwnOnly(ops, fd)
    ensures OwnEffect(s.fds, Exec(s, ops).fds, fd)
    decreases |ops|
  {
    hide Apply;
    if ops != [] {
      var t := Apply(s, ops[0]);
      ApplyOwn(s, ops[0], fd);
      ApplyKeepsInv(s, ops[0]);
      ExecOwn(t, ops[1..], fd);
      ExecKeepsInv(t, ops[1..]);
      OwnEffectTrans(s.fds, t.fds, Exec(s, ops).fds, fd);
    }
  }

  /** API calls keep the timer table's invariant and never revive a dead id. */
  lemma {:induction false} ExecKeepsTimerInv(s: Loop, ops: seq<Op>)
    requires Shaped(s) && TimerInv(s.timers)
    ensures TimerInv(Exec(s, ops).timers) && NoneRevived(s.timers, Exec(s, ops).timers)
    decreases |ops|
  {
    InOwnIds(s.timers);
    if ops != [] {
      match ops[0] {
        case AddTimeEvent(msLater, proc, data, clock) => AddTimerKeepsInv(s.timers, msLater, proc, data, clock);
        case DelTimeEvent(id) => DelTimerKeepsInv(s.timers, id);
        case _ =>
      }
      var t := Apply(s, ops[0]);
      ExecKeepsTimerInv(t, ops[1..]);
      NoneRevivedTrans(s.timers, t.timers, Exec(s, ops).timers);
    }
  }
}
