/** The class AsyncEvent: its arrays and counters, edited in place. Each method is proved to do to the
    fields what the functions of the model do to the view. */
module AsyncEvents {
  import opened Words
  import opened EventTypes
  import FdTable
  import Timers
  import opened EventModel
  import Q = ReadySteps
  import R = ReadyPasses
  import P = PollPasses
  import A = TimerSteps
  import T = TimerPasses
  import L = EventLoops

  /** The kernel's epoll instance. */
  class Epoll {
    var interest: map<int, Interest>

    constructor ()
      ensures interest == map[]
    {
      interest := map[];
    }

    /** epoll_ctl: 0 or -1. */
    method Ctl(op: FdTable.CtlOp, fd: int, events: Interest, willing: bool) returns (rc: int)
      modifies this
      ensures var r := FdTable.EpollCtl(old(interest), op, fd, events, willing);
        && rc == (if r.CtlFailed? then -1 else 0)
        && interest == if r.CtlFailed? then old(interest) else r.interest
    {
      if !willing || (fd in interest <==> op.CtlAdd?) {
        return -1;
      }
      interest := if op.CtlDel? then interest - {fd} else interest[fd := events];
      rc := 0;
    }
  }

  class AsyncEvent {
    var stopped: bool
    var numMonitoredFds: int
    var numReadyFds: int
    const listOfReadyFds: array<int>
    const fdEventList: array<FdInfo>
    const timeEventList: array<TimeEvent>
    var usedTimeEvents: int
    var lastTimeEventId: nat
    const epoll: Epoll
    // history: how many timer ids were handed out
    ghost var issued: nat

    ghost function FdView(): FdTable.FdState
      reads this, listOfReadyFds, fdEventList, epoll
    {
      FdTable.FdState(fdEventList[..], listOfReadyFds[..], numReadyFds, numMonitoredFds, epoll.interest)
    }

    ghost function TimerView(): Timers.TimerState
      reads this, timeEventList
    {
      Timers.TimerState(timeEventList[..], usedTimeEvents, lastTimeEventId, issued)
    }

    ghost function View(): Loop
      reads this, listOfReadyFds, fdEventList, timeEventList, epoll
    {
      Loop(FdView(), TimerView(), stopped)
    }

    ghost predicate Valid()
      reads this, listOfReadyFds, fdEventList, timeEventList, epoll
    {
      Shaped(View())
    }

    ghost function Repr(): set<object> {
      {this, listOfReadyFds, fdEventList, timeEventList, epoll}
    }

    /** The constructor and initialize(). */
    constructor (fdTableSize: nat, timerTableSize: nat)
      ensures Valid() && View() == L.Initial(fdTableSize, timerTableSize)
      ensures fresh(Repr())
    {
      stopped, numMonitoredFds, numReadyFds := false, 0, 0;
      usedTimeEvents, lastTimeEventId, issued := 0, 0, 0;
      listOfReadyFds := new int[fdTableSize](_ => 0);
      fdEventList := new FdInfo[fdTableSize](_ => CLEARED);
      timeEventList := new TimeEvent[timerTableSize](_ => TimeEvent(0, 0, 0, 0));
      epoll := new Epoll();
    }

    method AddFdEvent(fd: int, mask: Mask, handler: Handler, willing: bool) returns (rc: int)
      requires Valid()
      modifies fdEventList, epoll, this`numMonitoredFds
      ensures Valid()
      ensures (FdView(), rc) == FdTable.AddFd(old(FdView()), fd, mask, handler, willing)
    {
      if fd >= fdEventList.Length || fd < 0 {
        return ERROR;
      }
      var oldInfo := fdEventList[fd];
      var operation := if oldInfo.monitored == NONE then FdTable.CtlAdd else FdTable.CtlMod;
      fdEventList[fd] := FdInfo(oldInfo.monitored.Or(mask), oldInfo.fired, handler);
      var events := InterestOf(fdEventList[fd].monitored);
      var failed := epoll.Ctl(operation, fd, events, willing);
      if failed < 0 {
        fdEventList[fd] := oldInfo;
        assert fdEventList[..] == old(fdEventList[..]);
        return ERROR;
      }
      if operation.CtlAdd? {
        numMonitoredFds := numMonitoredFds + 1;
      }
      rc := OK;
    }

    /** The scan of the ready list shared by delFdEvent, removeFd and processFdEvents. */
    method DropReady(fd: int)
      requires numReadyFds <= listOfReadyFds.Length
      modifies listOfReadyFds, this`numReadyFds
      ensures FdView() == FdTable.DropReady(old(FdView()), fd)
    {
      var i := 0;
      while i < numReadyFds
        invariant 0 <= i
        invariant numReadyFds == old(numReadyFds) && listOfReadyFds[..] == old(listOfReadyFds[..])
        invariant i <= numReadyFds || numReadyFds < 0
        invariant forall k :: 0 <= k < i && k < numReadyFds ==> listOfReadyFds[k] != fd
      {
        if listOfReadyFds[i] == fd {
          SlotFound(listOfReadyFds[..], numReadyFds, fd, i);
          numReadyFds := numReadyFds - 1;
          listOfReadyFds[i] := listOfReadyFds[numReadyFds];
          return;
        }
        i := i + 1;
      }
    }

    static lemma SlotFound(slots: seq<int>, n: int, fd: int, i: nat)
      requires i < n <= |slots| && slots[i] == fd && forall k :: 0 <= k < i ==> slots[k] != fd
      ensures fd in slots[..n] && FdTable.FirstIndex(slots[..n], fd) == i
    {
      assert slots[..n][i] == fd;
      FirstIndexIs(slots[..n], fd, i);
    }

    static lemma {:induction false} FirstIndexIs(list: seq<int>, x: int, i: nat)
      requires i < |list| && list[i] == x && forall k :: 0 <= k < i ==> list[k] != x
      ensures FdTable.FirstIndex(list, x) == i
    {
      if i > 0 {
        assert list[1..][i - 1] == x;
        FirstIndexIs(list[1..], x, i - 1);
      }
    }

    method Unregister(fd: int, willing: bool) returns (rc: int)
      requires Valid() && 0 <= fd < fdEventList.Length
      modifies fdEventList, listOfReadyFds, epoll, this`numMonitoredFds, this`numReadyFds
      ensures Valid()
      ensures (FdView(), rc) == FdTable.Unregister(old(FdView()), fd, willing)
    {
      var failed := epoll.Ctl(FdTable.CtlDel, fd, InterestOf(NONE), willing);
      if failed < 0 {
        return ERROR;
      }
      fdEventList[fd] := CLEARED;
      numMonitoredFds := numMonitoredFds - 1;
      DropReady(fd);
      rc := OK;
    }

    method DelFdEvent(fd: int, mask: Mask, willing: bool) returns (rc: int)
      requires Valid()
      modifies fdEventList, listOfReadyFds, epoll, this`numMonitoredFds, this`numReadyFds
      ensures Valid()
      ensures (FdView(), rc) == FdTable.DelFd(old(FdView()), fd, mask, willing)
    {
      if fd >= fdEventList.Length || fd < 0 {
        return ERROR;
      }
      if mask == NONE {
        return OK;
      }
      var oldInfo := fdEventList[fd];
      var left := oldInfo.monitored.Minus(mask);
      if left != NONE {
        fdEventList[fd] := oldInfo.(monitored := left);
        var failed := epoll.Ctl(FdTable.CtlMod, fd, InterestOf(left), willing);
        if failed < 0 {
          fdEventList[fd] := oldInfo;
          assert fdEventList[..] == old(fdEventList[..]);
          return ERROR;
        }
        return OK;
      }
      rc := Unregister(fd, willing);
    }

    method RemoveFd(fd: int, willing: bool) returns (rc: int)
      requires Valid()
      modifies fdEventList, listOfReadyFds, epoll, this`numMonitoredFds, this`numReadyFds
      ensures Valid()
      ensures (FdView(), rc) == FdTable.RemoveFd(old(FdView()), fd, willing)
    {
      if fd >= fdEventList.Length || fd < 0 {
        return ERROR;
      }
      if fdEventList[fd].monitored == NONE {
        return OK;
      }
      rc := Unregister(fd, willing);
    }

    method AddTimeEvent(msLater: nat, proc: nat, data: nat, clock: int) returns (rc: int)
      requires Valid()
      modifies timeEventList, this`usedTimeEvents, this`lastTimeEventId, this`issued
      ensures Valid()
      ensures (TimerView(), rc) == Timers.AddTimer(old(TimerView()), msLater, proc, data, clock)
    {
      if usedTimeEvents == timeEventList.Length {
        return ERROR;
      }
      lastTimeEventId := (lastTimeEventId + 1) % TWO_TO_THE_64;
      timeEventList[usedTimeEvents] := TimeEvent(lastTimeEventId, clock + msLater, proc, data);
      usedTimeEvents := usedTimeEvents + 1;
      issued := issued + 1;
      rc := OK;
    }

    method DelTimeEvent(timeEventId: nat) returns (rc: int)
      requires Valid()
      modifies timeEventList, this`usedTimeEvents
      ensures Valid()
      ensures (TimerView(), rc) == Timers.DelTimer(old(TimerView()), timeEventId)
    {
      var i := 0;
      while i < usedTimeEvents
        invariant i <= usedTimeEvents == old(usedTimeEvents) <= timeEventList.Length
        invariant timeEventList[..] == old(timeEventList[..])
        invariant forall k :: 0 <= k < i ==> timeEventList[k].id != timeEventId
      {
        if timeEventList[i].id == timeEventId {
          Timers.IdFound(timeEventList[..usedTimeEvents], timeEventId, i);
          usedTimeEvents := usedTimeEvents - 1;
          timeEventList[i] := timeEventList[usedTimeEvents];
          return OK;
        }
        i := i + 1;
      }
      Timers.IdMissing(timeEventList[..usedTimeEvents], timeEventId);
      rc := ERROR;
    }

    method Start()
      modifies this`stopped
      ensures !stopped
    {
      stopped := false;
    }

    method Stop()
      modifies this`stopped
      ensures stopped
    {
      stopped := true;
    }

    /** What a callback, or the application, does to the loop. */
    method RunOps(ops: seq<Op>)
      requires Valid()
      modifies Repr()
      ensures Valid()
      ensures View() == Exec(old(View()), ops)
    {
      ghost var start := View();
      var i := 0;
      while i < |ops|
        invariant 0 <= i <= |ops|
        invariant Valid() && Exec(View(), ops[i..]) == Exec(start, ops)
      {
        assert ops[i..][0] == ops[i] && ops[i..][1..] == ops[i + 1..];
        RunOp(ops[i]);
        i := i + 1;
      }
      assert ops[i..] == [];
    }

    method RunOp(op: Op)
      requires Valid()
      modifies Repr()
      ensures Valid()
      ensures View() == Apply(old(View()), op)
    {
      match op {
        case AddFdEvent(fd, mask, handler, willing) =>
          var rc := AddFdEvent(fd, mask, handler, willing);
        case DelFdEvent(fd, mask, willing) =>
          var rc := DelFdEvent(fd, mask, willing);
        case RemoveFdEvent(fd, willing) =>
          var rc := RemoveFd(fd, willing);
        case AddTimeEvent(msLater, proc, data, clock) =>
          var rc := AddTimeEvent(msLater, proc, data, clock);
        case DelTimeEvent(id) =>
          var rc := DelTimeEvent(id);
        case Start =>
          Start();
        case Stop =>
          Stop();
      }
    }

    // ----- processReadyFds -----

    /** The part of the loop body of processReadyFds that follows the call of proc_. */
    method AfterReadyCallback(idx: nat, fd: int, rc: Mask) returns (next: nat)
      requires Valid() && 0 <= fd < fdEventList.Length && idx < listOfReadyFds.Length
      requires numReadyFds > 0 || rc.Or(fdEventList[fd].fired).And(fdEventList[fd].monitored) != NONE
               || listOfReadyFds[idx] != fd
      modifies fdEventList, listOfReadyFds, this`numReadyFds
      ensures Valid()
      ensures (View(), next) == Q.ReadyTail(old(View()), idx, fd, rc)
    {
      var guess := rc;
      guess := guess.Or(fdEventList[fd].fired);
      guess := guess.And(fdEventList[fd].monitored);
      if guess != NONE {
        fdEventList[fd] := fdEventList[fd].(fired := guess);
        next := idx + 1;
      } else {
        fdEventList[fd] := fdEventList[fd].(fired := NONE);
        if listOfReadyFds[idx] == fd {
          numReadyFds := numReadyFds - 1;
          listOfReadyFds[idx] := listOfReadyFds[numReadyFds];
        }
        next := idx;
      }
    }

    /** processReadyFds; `processed` is the number of callbacks called. */
    method ProcessReadyFds(oracle: int -> FdScript) returns (processed: nat)
      requires Valid() && FdTable.Inv(FdView()) && R.ReadyPassContract(View(), 0, oracle)
      modifies Repr()
      ensures Valid()
      ensures View() == R.ReadyPass(old(View()), 0, oracle).s
      ensures processed == |R.ReadyPass(old(View()), 0, oracle).calls|
    {
      hide FdTable.Inv, R.ReadyContract, Q.ReadyStep;
      ghost var out := R.ReadyPass(View(), 0, oracle);
      processed := 0;
      var idx: nat := 0;
      while idx < numReadyFds
        invariant Valid() && FdTable.Inv(FdView()) && R.ReadyPassContract(View(), idx, oracle)
        invariant R.ReadyPass(View(), idx, oracle).s == out.s
        invariant processed + |R.ReadyPass(View(), idx, oracle).calls| == |out.calls|
        decreases numReadyFds - idx
      {
        processed := processed + 1;
        idx := ReadyTurn(idx, oracle(listOfReadyFds[idx]));
      }
    }

    /** One turn of that loop: call proc_ of the fd in slot idx, then update its entry. */
    method ReadyTurn(idx: nat, script: FdScript) returns (next: nat)
      requires Valid() && FdTable.Inv(FdView()) && idx < numReadyFds && R.ReadyContract(View(), idx, script)
      modifies Repr()
      ensures Valid() && FdTable.Inv(FdView())
      ensures (View(), next) == Q.ReadyStep(old(View()), idx, script)
    {
      ReadyTurnSafe(View(), idx, script);
      var fd := listOfReadyFds[idx];
      RunOps(script.ops);
      next := AfterReadyCallback(idx, fd, script.rc);
    }

    /** What a turn of the loop relies on: the table survives it, and index -1 is never read. */
    static lemma ReadyTurnSafe(s: Loop, idx: nat, script: FdScript)
      requires Shaped(s) && FdTable.Inv(s.fds) && idx < s.fds.numReady && R.ReadyContract(s, idx, script)
      ensures FdTable.Inv(Q.ReadyStep(s, idx, script).0.fds)
      ensures var c := Exec(s, script.ops).fds;
        var fd := s.fds.slots[idx];
        c.numReady > 0 || Q.Guess(c, fd, script.rc) != NONE || c.slots[idx] != fd
    {
      Q.ReadyStepKeepsInvIff(s, idx, script);
      var t := Q.ReadyStep(s, idx, script).0.fds;
      assert t.numReady >= 0;
    }

    // ----- processFdEvents -----

    /** The part of the loop body of processFdEvents that follows the call of proc_. */
    method AfterPollCallback(fd: int, mask: Mask, rc: Mask)
      requires Valid() && FdTable.Inv(FdView()) && 0 <= fd < fdEventList.Length
      modifies fdEventList, listOfReadyFds, this`numReadyFds
      ensures FdView() == P.PollTail(old(FdView()), fd, mask, rc)
    {
      var info := fdEventList[fd];
      var guess := rc;
      guess := guess.Or(info.fired);
      guess := guess.And(info.monitored);
      if guess != NONE {
        if info.fired == NONE {
          FdTable.ReadyFits(FdView(), fd);
          listOfReadyFds[numReadyFds] := fd;
          numReadyFds := numReadyFds + 1;
        }
        fdEventList[fd] := info.(fired := info.fired.Or(guess));
      } else if info.fired != NONE {
        fdEventList[fd] := info.(fired := info.fired.Minus(mask));
        if fdEventList[fd].fired == NONE {
          DropReady(fd);
        }
      }
    }

    method HandleFired(e: P.Fired, script: FdScript)
      requires Valid() && FdTable.Inv(FdView()) && 0 <= e.fd < fdEventList.Length && MasksGiven(script.ops)
      modifies Repr()
      ensures Valid() && FdTable.Inv(FdView())
      ensures View() == P.PollStep(old(View()), e, script)
    {
      hide FdTable.Inv, P.PollTail;
      P.PollStepKeepsInv(View(), e, script);
      var mask := Reported(e.events);
      if (e.events.epollhup || e.events.epollerr) && fdEventList[e.fd].handler.procExp != 0 {
        RunOps(script.ops);
      } else if mask != NONE {
        ExecKeepsInv(View(), script.ops);
        RunOps(script.ops);
        AfterPollCallback(e.fd, mask, script.rc);
      }
    }

    /** processFdEvents on what epoll_wait stored. */
    method ProcessFdEvents(batch: seq<P.Fired>, oracle: int -> FdScript) returns (nr: int)
      requires Valid() && FdTable.Inv(FdView()) && P.BatchOk(View(), batch, oracle)
      modifies Repr()
      ensures Valid() && FdTable.Inv(FdView())
      ensures View() == P.PollPass(old(View()), batch, oracle).s && nr == |batch|
    {
      hide FdTable.Inv, P.PollStep;
      ghost var final := P.PollPass(View(), batch, oracle).s;
      nr := |batch|;
      var i := 0;
      while i < nr
        invariant 0 <= i <= nr
        invariant Valid() && FdTable.Inv(FdView()) && P.BatchOk(View(), batch[i..], oracle)
        invariant P.PollPass(View(), batch[i..], oracle).s == final
      {
        assert batch[i..][0] == batch[i] && batch[i..][1..] == batch[i + 1..];
        HandleFired(batch[i], oracle(batch[i].fd));
        i := i + 1;
      }
    }

    // ----- processTimeEvents -----

    /** processTimeEvents; `processed` is the number of timers fired. */
    method ProcessTimeEvents(now: int, oracle: nat -> TimerScript) returns (processed: nat)
      requires Valid() && T.TimerPassContract(View(), 0, now, oracle)
      modifies Repr()
      ensures Valid()
      ensures View() == T.TimerPass(old(View()), 0, now, oracle).s
      ensures processed == |T.TimerPass(old(View()), 0, now, oracle).fired|
    {
      ghost var out := T.TimerPass(View(), 0, now, oracle);
      var i: nat := 0;
      processed := 0;
      while i < usedTimeEvents
        invariant Valid() && i <= usedTimeEvents && T.TimerPassContract(View(), i, now, oracle)
        invariant T.TimerPass(View(), i, now, oracle).s == out.s
        invariant processed + |T.TimerPass(View(), i, now, oracle).fired| == |out.fired|
        decreases T.DueCount(A.Rest(TimerView(), i), now), usedTimeEvents - i
      {
        if timeEventList[i].when <= now {
          T.TimerStepShrinks(View(), i, now, oracle(timeEventList[i].id));
          processed := processed + 1;
          i := TimerTurn(i, now, oracle(timeEventList[i].id));
        } else {
          T.DueAhead(TimerView(), i, now);
          i := i + 1;
        }
      }
    }

    /** One turn of that loop for a due timer: call proc_, then reschedule or drop slot i. */
    method TimerTurn(i: nat, now: int, script: TimerScript) returns (next: nat)
      requires Valid() && i < usedTimeEvents && T.TurnContract(View(), i, now, script)
      modifies Repr()
      ensures Valid()
      ensures (View(), next) == T.TimerStep(old(View()), i, now, script)
    {
      A.ExecBalance(View(), script.ops, i);
      RunOps(script.ops);
      next := AfterTimerCallback(i, now, script.rc);
    }

    /** The part of the loop body of processTimeEvents that follows the call of proc_. */
    method AfterTimerCallback(i: nat, now: int, rc: nat) returns (next: nat)
      requires Valid() && i < timeEventList.Length && (rc != 0 || usedTimeEvents > 0)
      modifies timeEventList, this`usedTimeEvents
      ensures (TimerView(), next) == A.TimerTail(old(TimerView()), i, now, rc)
    {
      if rc != 0 {
        timeEventList[i] := timeEventList[i].(when := now + rc);
        next := i + 1;
      } else {
        usedTimeEvents := usedTimeEvents - 1;
        timeEventList[i] := timeEventList[usedTimeEvents];
        next := i;
      }
    }

    // ----- eventLoop -----

    method NearestTimeEvent(clock: int) returns (msLeft: int)
      requires Valid()
      ensures msLeft == Timers.Nearest(TimerView(), clock)
    {
      msLeft := -1;
      var idx := -1;
      for i := 0 to usedTimeEvents
        invariant idx == Timers.NearestIndex(TimerView().slots, i)
      {
        if idx < 0 || timeEventList[i].when < timeEventList[idx].when {
          idx := i;
        }
      }
      if idx >= 0 {
        msLeft := timeEventList[idx].when - clock;
        if msLeft < 0 {
          msLeft := 0;
        }
      }
    }

    /** One round of the loop; `timeout` is what epoll_wait is asked to wait. */
    method LoopTurn(r: L.Round) returns (timeout: int)
      requires Valid() && L.Good(View()) && L.RunOk(View(), L.RoundSteps(r))
      modifies Repr()
      ensures Valid()
      ensures View() == L.Run(old(View()), L.RoundSteps(r))
      ensures timeout == L.Timeout(R.ReadyPass(old(View()), 0, r.ready).s, r.clock)
    {
      hide FdTable.Inv, Timers.TimerInv, L.Run, L.RunOk, R.ReadyPass;
      L.RoundUnfolds(View(), r);
      var n := ProcessReadyFds(r.ready);
      var msLeft := NearestTimeEvent(r.clock);
      msLeft := L.ToInt32(msLeft);
      timeout := if msLeft == 0 then 0 else if numReadyFds > 0 then 1 else msLeft;
      var nr := ProcessFdEvents(r.batch, r.poll);
      n := ProcessTimeEvents(r.now, r.timer);
    }

    /** eventLoop, for the rounds described; `waits` are the timeouts passed to epoll_wait. */
    method EventLoop(rounds: seq<L.Round>) returns (waits: seq<int>)
      requires Valid() && L.Good(View()) && L.LoopOk(View(), rounds)
      modifies Repr()
      ensures Valid()
      ensures L.LoopOut(View(), waits) == L.EventLoop(old(View()), rounds)
    {
      hide FdTable.Inv, Timers.TimerInv, L.Run, L.RunOk, L.RoundSteps, R.ReadyPass, L.Timeout;
      ghost var out := L.EventLoop(View(), rounds);
      waits := [];
      var k := 0;
      while k < |rounds| && !stopped && (numMonitoredFds > 0 || usedTimeEvents > 0)
        invariant 0 <= k <= |rounds|
        invariant Valid() && L.Good(View()) && L.LoopOk(View(), rounds[k..])
        invariant L.EventLoop(View(), rounds[k..]).s == out.s
        invariant waits + L.EventLoop(View(), rounds[k..]).waits == out.waits
      {
        assert rounds[k..][0] == rounds[k] && rounds[k..][1..] == rounds[k + 1..];
        var timeout := LoopTurn(rounds[k]);
        waits := waits + [timeout];
        k := k + 1;
      }
    }
  }
}
