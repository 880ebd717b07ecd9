/** AsyncEvent::processFdEvents: handling one batch of events from epoll_wait. */
module PollPasses {
  import opened EventTypes
  import opened FdTable
  import opened Sequences
  import opened EventModel
  import opened ReadySteps
  import opened ReadyPasses

  /** One epoll_event stored by epoll_wait. */
  datatype Fired = Fired(fd: int, events: Events)

  datatype Branch = Exception | InputOutput(mask: Mask) | Ignored

  /** How one event was handled; `info` is the fd's table entry when its turn came. */
  datatype Handled = Handled(fd: int, branch: Branch, info: FdInfo)

  function BranchOf(info: FdInfo, events: Events): Branch {
    if (events.epollhup || events.epollerr) && info.handler.procExp != 0 then Exception
    else if Reported(events) != NONE then InputOutput(Reported(events))
    else Ignored
  }

  /** list_of_ready_fds_[num_ready_fds_++] = fd. */
  function Append(f: FdState, fd: int): FdState
    requires 0 <= f.numReady < |f.slots|
  {
    f.(slots := f.slots[f.numReady := fd], numReady := f.numReady + 1)
  }

  /** What processFdEvents does after proc_ returned rc in state c. */
  function PollTail(c: FdState, fd: int, mask: Mask, rc: Mask): (t: FdState)
    requires Inv(c) && InTable(c, fd)
    ensures |t.info| == |c.info|
  {
    var fired := c.info[fd].fired;
    var guess := Guess(c, fd, rc);
    if guess != NONE then
      if fired == NONE then
        ReadyFits(c, fd);
        SetFired(Append(c, fd), fd, fired.Or(guess))
      else SetFired(c, fd, fired.Or(guess))
    else if fired != NONE then
      var left := SetFired(c, fd, fired.Minus(mask));
      if fired.Minus(mask) == NONE then DropReady(left, fd) else left
    else c
  }

  /** One round of the loop in processFdEvents: at most one callback of the fd runs. */
  function PollStep(s: Loop, e: Fired, script: FdScript): (t: Loop)
    requires Shaped(s) && Inv(s.fds) && InTable(s.fds, e.fd) && MasksGiven(script.ops)
    ensures |t.fds.info| == |s.fds.info|
  {
    match BranchOf(s.fds.info[e.fd], e.events)
    case Exception => Exec(s, script.ops)
    case InputOutput(mask) =>
      ExecKeepsInv(s, script.ops);
      var c := Exec(s, script.ops);
      c.(fds := PollTail(c.fds, e.fd, mask, script.rc))
    case Ignored => s
  }

  lemma AppendKeepsInv(c: FdState, fd: int, fired: Mask)
    requires Inv(c) && InTable(c, fd) && c.info[fd].fired == NONE && c.info[fd].monitored != NONE
    requires c.numReady < |c.slots| && fired != NONE
    ensures Inv(SetFired(Append(c, fd), fd, fired))
  {
    SetFiredKernel(c, fd, fired);
    var t := SetFired(Append(c, fd), fd, fired);
    KernelOnly(SetFired(c, fd, fired), t);
    AppendReady(c, fd, fired);
  }

  lemma AppendReady(c: FdState, fd: int, fired: Mask)
    requires ReadyInv(c) && InTable(c, fd) && c.info[fd].fired == NONE && c.info[fd].monitored != NONE
    requires c.numReady < |c.slots| && fired != NONE
    ensures ReadyInv(SetFired(Append(c, fd), fd, fired))
  {
    var t := SetFired(Append(c, fd), fd, fired);
    assert t.slots[..t.numReady] == c.slots[..c.numReady] + [fd];
  }

  lemma PollTailKeepsInv(c: FdState, fd: int, mask: Mask, rc: Mask)
    requires Inv(c) && InTable(c, fd)
    ensures Inv(PollTail(c, fd, mask, rc))
  {
    var fired := c.info[fd].fired;
    var guess := Guess(c, fd, rc);
    if guess != NONE {
      if fired == NONE {
        ReadyFits(c, fd);
        AppendKeepsInv(c, fd, fired.Or(guess));
      } else {
        SetFiredKeepsInv(c, fd, fired.Or(guess));
      }
    } else if fired != NONE {
      if fired.Minus(mask) == NONE {
        ClearAndDrop(c, fd);
      } else {
        SetFiredKeepsInv(c, fd, fired.Minus(mask));
      }
    }
  }

  /** Handling an event keeps the invariant whatever its callback does through the API: unlike the pass over
      the ready list, this one rereads the fd's entry after the call. */
  lemma PollStepKeepsInv(s: Loop, e: Fired, script: FdScript)
    requires Shaped(s) && Inv(s.fds) && InTable(s.fds, e.fd) && MasksGiven(script.ops)
    ensures Shaped(PollStep(s, e, script)) && Inv(PollStep(s, e, script).fds)
  {
    ExecKeepsInv(s, script.ops);
    var c := Exec(s, script.ops);
    if BranchOf(s.fds.info[e.fd], e.events).InputOutput? {
      PollTailKeepsInv(c.fds, e.fd, Reported(e.events), script.rc);
    }
  }

  datatype PollOut = PollOut(s: Loop, log: seq<Handled>)

  ghost predicate BatchOk(s: Loop, batch: seq<Fired>, oracle: int -> FdScript) {
    && (forall i :: 0 <= i < |batch| ==> InTable(s.fds, batch[i].fd))
    && (forall fd :: MasksGiven(oracle(fd).ops))
  }

  /** processFdEvents on the events epoll_wait returned; `oracle` says what the callback of each fd does.
      A timeout or an error is the empty batch. */
  function PollPass(s: Loop, batch: seq<Fired>, oracle: int -> FdScript): (r: PollOut)
    requires Shaped(s) && Inv(s.fds) && BatchOk(s, batch, oracle)
    ensures Shaped(r.s) && Inv(r.s.fds) && |r.s.fds.info| == |s.fds.info|
    decreases |batch|
  {
    if batch == [] then PollOut(s, [])
    else
      var e := batch[0];
      PollStepKeepsInv(s, e, oracle(e.fd));
      var rest := PollPass(PollStep(s, e, oracle(e.fd)), batch[1..], oracle);
      var info := s.fds.info[e.fd];
      PollOut(rest.s, [Handled(e.fd, BranchOf(info, e.events), info)] + rest.log)
  }

  // ----- which callback an event reaches -----

  /** The event goes to the error callback. */
  predicate ToErrorCallback(info: FdInfo, events: Events) {
    (events.epollhup || events.epollerr) && info.handler.procExp != 0
  }

  /** A hang-up or an error goes to the error callback if there is one, and nothing is recorded then; otherwise
      input and output go to proc_, told exactly which of them came, whose answer is then recorded; when there
      is nothing of these, nothing happens. */
  lemma PollStepRuns(s: Loop, e: Fired, script: FdScript)
    requires Shaped(s) && Inv(s.fds) && InTable(s.fds, e.fd) && MasksGiven(script.ops)
    ensures var t, c := PollStep(s, e, script), Exec(s, script.ops);
      && Inv(c.fds) && |c.fds.info| == |s.fds.info|
      && var mask := Mask(e.events.epollin, e.events.epollout);
         if ToErrorCallback(s.fds.info[e.fd], e.events) then t == c
         else if e.events.epollin || e.events.epollout then t == c.(fds := PollTail(c.fds, e.fd, mask, script.rc))
         else t == s
  {
    ExecKeepsInv(s, script.ops);
    assert Reported(e.events) == Mask(e.events.epollin, e.events.epollout);
    hide PollTail, Exec, Inv;
  }

  /** How an event must have been handled that came when the fd's entry was `info`. */
  ghost predicate Dispatched(h: Handled, e: Fired, info: FdInfo) {
    && h.fd == e.fd && h.info == info
    && (h.branch.Exception? <==> ToErrorCallback(info, e.events))
    && (h.branch.InputOutput? <==> !ToErrorCallback(info, e.events) && (e.events.epollin || e.events.epollout))
    && (h.branch.InputOutput? ==>
          (h.branch.mask.readable <==> e.events.epollin) && (h.branch.mask.writable <==> e.events.epollout))
  }

  lemma PollPassUnfold(s: Loop, e: Fired, rest: seq<Fired>, oracle: int -> FdScript)
    requires Shaped(s) && Inv(s.fds) && BatchOk(s, [e] + rest, oracle)
    ensures InTable(s.fds, e.fd)
    ensures var t := PollStep(s, e, oracle(e.fd));
      && Shaped(t) && Inv(t.fds) && BatchOk(t, rest, oracle)
      && var info := s.fds.info[e.fd];
         var after := PollPass(t, rest, oracle);
         PollPass(s, [e] + rest, oracle)
         == PollOut(after.s, [Handled(e.fd, BranchOf(info, e.events), info)] + after.log)
  {
    var batch := [e] + rest;
    assert batch[0] == e && batch[1..] == rest;
    PollStepKeepsInv(s, e, oracle(e.fd));
    forall i | 0 <= i < |rest| ensures InTable(s.fds, rest[i].fd) {
      assert rest[i] == batch[i + 1];
    }
  }

  lemma HandledAsDispatched(info: FdInfo, e: Fired)
    ensures Dispatched(Handled(e.fd, BranchOf(info, e.events), info), e, info)
  {}

  lemma EmptyBatch(s: Loop, oracle: int -> FdScript)
    requires Shaped(s) && Inv(s.fds) && BatchOk(s, [], oracle)
    ensures PollPass(s, [], oracle) == PollOut(s, [])
  {}

  lemma BatchParts(s: Loop, a: seq<Fired>, b: seq<Fired>, oracle: int -> FdScript)
    requires BatchOk(s, a + b, oracle)
    ensures BatchOk(s, a, oracle)
  {
    assert forall k :: 0 <= k < |a| ==> (a + b)[k] == a[k];
  }

  /** The same with the batch taken apart: `e` comes after the events a. */
  lemma {:induction false} DispatchesAfter(s: Loop, a: seq<Fired>, e: Fired, b: seq<Fired>, oracle: int -> FdScript)
    requires Shaped(s) && Inv(s.fds) && BatchOk(s, a + ([e] + b), oracle)
    ensures BatchOk(s, a, oracle)
    ensures var before, log := PollPass(s, a, oracle).s.fds, PollPass(s, a + ([e] + b), oracle).log;
      InTable(before, e.fd) && |a| < |log| && Dispatched(log[|a|], e, before.info[e.fd])
    decreases |a|
  {
    BatchParts(s, a, [e] + b, oracle);
    hide Inv, PollStep, PollPass, Dispatched, BranchOf, BatchOk;
    var rest := [e] + b;
    if a == [] {
      assert a + rest == rest;
      FirstDispatched(s, e, b, oracle);
    } else {
      var head, tail := a[0], a[1..];
      assert a == [head] + tail;
      Assoc([head], tail, rest);
      PollPassUnfold(s, head, tail + rest, oracle);
      DispatchesAfter(PollStep(s, head, oracle(head.fd)), tail, e, b, oracle);
      PollPassUnfold(s, head, tail, oracle);
    }
  }

  lemma FirstDispatched(s: Loop, e: Fired, b: seq<Fired>, oracle: int -> FdScript)
    requires Shaped(s) && Inv(s.fds) && BatchOk(s, [e] + b, oracle)
    ensures BatchOk(s, [], oracle) && InTable(s.fds, e.fd)
    ensures PollPass(s, [], oracle).s == s
    ensures var log := PollPass(s, [e] + b, oracle).log;
      |log| > 0 && Dispatched(log[0], e, s.fds.info[e.fd])
  {
    BatchParts(s, [], [e] + b, oracle);
    assert [] + ([e] + b) == [e] + b;
    hide Inv, PollStep, Dispatched, BranchOf;
    PollPassUnfold(s, e, b, oracle);
    EmptyBatch(s, oracle);
    HandledAsDispatched(s.fds.info[e.fd], e);
  }

  /** Every event of the batch is handled, in order, each through the entry that its fd has when the events
      before it have been handled. */
  lemma PollDispatches(s: Loop, batch: seq<Fired>, oracle: int -> FdScript, i: nat)
    requires Shaped(s) && Inv(s.fds) && BatchOk(s, batch, oracle) && i < |batch|
    ensures BatchOk(s, batch[..i], oracle)
    ensures var before := PollPass(s, batch[..i], oracle).s.fds;
      var log := PollPass(s, batch, oracle).log;
      && InTable(before, batch[i].fd) && |log| == |batch|
      && Dispatched(log[i], batch[i], before.info[batch[i].fd])
  {
    assert batch == batch[..i] + ([batch[i]] + batch[i + 1..]);
    DispatchesAfter(s, batch[..i], batch[i], batch[i + 1..], oracle);
    hide Inv, PollPass, Dispatched, BatchOk;
    LogLength(s, batch, oracle);
  }

  lemma {:induction false} LogLength(s: Loop, batch: seq<Fired>, oracle: int -> FdScript)
    requires Shaped(s) && Inv(s.fds) && BatchOk(s, batch, oracle)
    ensures |PollPass(s, batch, oracle).log| == |batch|
    decreases |batch|
  {
    hide Inv, PollStep, BatchOk, BranchOf;
    if batch != [] {
      var e := batch[0];
      assert batch == [e] + batch[1..];
      PollPassUnfold(s, e, batch[1..], oracle);
      LogLength(PollStep(s, e, oracle(e.fd)), batch[1..], oracle);
    }
  }

  // ----- no call through an unregistered entry -----

  /** epoll_wait reports registered fds only, each at most once. */
  ghost predicate FromKernel(s: Loop, batch: seq<Fired>) {
    && (forall i :: 0 <= i < |batch| ==> batch[i].fd in s.fds.interest)
    && (forall i, j :: 0 <= i < j < |batch| ==> batch[i].fd != batch[j].fd)
  }

  /** Handling an event leaves each fd monitored for what the callback, if one ran, left it monitored for. */
  lemma PollStepMonitors(s: Loop, e: Fired, script: FdScript, g: int)
    requires Shaped(s) && Inv(s.fds) && InTable(s.fds, e.fd) && MasksGiven(script.ops) && InTable(s.fds, g)
    ensures var t := PollStep(s, e, script).fds;
      t.info[g].monitored == (if BranchOf(s.fds.info[e.fd], e.events).Ignored? then s.fds.info[g].monitored
                              else Exec(s, script.ops).fds.info[g].monitored)
  {
    ExecKeepsInv(s, script.ops);
    hide Inv, Guess, Exec;
    if BranchOf(s.fds.info[e.fd], e.events).InputOutput? {
      PollTailMonitors(Exec(s, script.ops).fds, e.fd, Reported(e.events), script.rc, g);
    }
  }

  lemma PollTailMonitors(c: FdState, fd: int, mask: Mask, rc: Mask, g: int)
    requires Inv(c) && InTable(c, fd) && InTable(c, g)
    ensures PollTail(c, fd, mask, rc).info[g].monitored == c.info[g].monitored
  {}

  /** No call takes events from fd g. */
  predicate LeavesAlone(ops: seq<Op>, g: int) {
    forall i :: 0 <= i < |ops| && (ops[i].DelFdEvent? || ops[i].RemoveFdEvent?) ==> ops[i].fd != g
  }

  lemma {:induction false} ExecLeavesAlone(s: Loop, ops: seq<Op>, g: int)
    requires Shaped(s) && InTable(s.fds, g) && LeavesAlone(ops, g)
    ensures s.fds.info[g].monitored.Within(Exec(s, ops).fds.info[g].monitored)
    decreases |ops|
  {
    if ops != [] {
      ApplyLeavesAlone(s, ops[0], g);
      hide Apply;
      ExecLeavesAlone(Apply(s, ops[0]), ops[1..], g);
    }
  }

  lemma ApplyLeavesAlone(s: Loop, op: Op, g: int)
    requires Shaped(s) && InTable(s.fds, g) && LeavesAlone([op], g)
    ensures s.fds.info[g].monitored.Within(Apply(s, op).fds.info[g].monitored)
  {
    assert [op][0] == op;
  }

  lemma PollStepKeepsLater(s: Loop, e: Fired, script: FdScript, g: int)
    requires Shaped(s) && Inv(s.fds) && InTable(s.fds, e.fd) && MasksGiven(script.ops)
    requires LeavesAlone(script.ops, g) && InTable(s.fds, g) && s.fds.info[g].monitored != NONE
    ensures PollStep(s, e, script).fds.info[g].monitored != NONE
  {
    PollStepMonitors(s, e, script, g);
    ExecLeavesAlone(s, script.ops, g);
  }

  /** No callback of the batch takes events from an fd whose event comes later in the batch. */
  ghost predicate SparesLater(batch: seq<Fired>, oracle: int -> FdScript) {
    forall i, j :: 0 <= i < j < |batch| ==> LeavesAlone(oracle(batch[i].fd).ops, batch[j].fd)
  }

  lemma RestFromKernel(s: Loop, batch: seq<Fired>, oracle: int -> FdScript)
    requires Shaped(s) && Inv(s.fds) && BatchOk(s, batch, oracle) && FromKernel(s, batch)
    requires batch != [] && SparesLater(batch, oracle)
    ensures FromKernel(PollStep(s, batch[0], oracle(batch[0].fd)), batch[1..])
  {
    var e, rest := batch[0], batch[1..];
    var t := PollStep(s, e, oracle(e.fd));
    PollStepKeepsInv(s, e, oracle(e.fd));
    hide PollStep, ReadyInv;
    forall i | 0 <= i < |rest| ensures rest[i].fd in t.fds.interest {
      assert rest[i] == batch[i + 1] && batch[i + 1].fd in s.fds.interest;
      PollStepKeepsLater(s, e, oracle(e.fd), rest[i].fd);
      assert rest[i].fd in MonitoredFds(t.fds);
    }
    forall i, j | 0 <= i < j < |rest| ensures rest[i].fd != rest[j].fd {
      assert rest[i] == batch[i + 1] && rest[j] == batch[j + 1];
    }
  }

  /** Then every event of the batch is handled once, in order, through an entry that is registered at that
      moment. */
  lemma {:induction false} PollCallsRegistered(s: Loop, batch: seq<Fired>, oracle: int -> FdScript)
    requires Shaped(s) && Inv(s.fds) && BatchOk(s, batch, oracle) && FromKernel(s, batch)
    requires SparesLater(batch, oracle)
    ensures var log := PollPass(s, batch, oracle).log;
      && |log| == |batch|
      && (forall i :: 0 <= i < |batch| ==> log[i].fd == batch[i].fd && log[i].info.monitored != NONE)
    decreases |batch|
  {
    if batch != [] {
      var e := batch[0];
      HeadIsRegistered(s, batch);
      PollStepKeepsInv(s, e, oracle(e.fd));
      RestFromKernel(s, batch, oracle);
      RestSparesLater(batch, oracle);
      hide Inv, PollStep, FromKernel, SparesLater;
      PollCallsRegistered(PollStep(s, e, oracle(e.fd)), batch[1..], oracle);
    }
  }

  lemma HeadIsRegistered(s: Loop, batch: seq<Fired>)
    requires Inv(s.fds) && FromKernel(s, batch) && batch != []
    ensures InTable(s.fds, batch[0].fd) && s.fds.info[batch[0].fd].monitored != NONE
  {
    assert batch[0].fd in s.fds.interest && batch[0].fd in MonitoredFds(s.fds);
  }

  lemma RestSparesLater(batch: seq<Fired>, oracle: int -> FdScript)
    requires batch != [] && SparesLater(batch, oracle)
    ensures SparesLater(batch[1..], oracle)
  {
    var rest := batch[1..];
    forall i, j | 0 <= i < j < |rest| ensures LeavesAlone(oracle(rest[i].fd).ops, rest[j].fd) {
      assert rest[i] == batch[i + 1] && rest[j] == batch[j + 1];
    }
  }

  lemma PollPassTwo(s: Loop, e0: Fired, e1: Fired, oracle: int -> FdScript)
    requires Shaped(s) && Inv(s.fds) && BatchOk(s, [e0, e1], oracle)
    ensures InTable(s.fds, e0.fd) && InTable(s.fds, e1.fd)
    ensures var info := PollStep(s, e0, oracle(e0.fd)).fds.info[e1.fd];
      var log := PollPass(s, [e0, e1], oracle).log;
      |log| == 2 && log[1] == Handled(e1.fd, BranchOf(info, e1.events), info)
  {
    assert [e0, e1][0] == e0 && [e0, e1][1] == e1;
    assert [e0] + [e1] == [e0, e1] && [e1] + [] == [e1];
    PollPassUnfold(s, e0, [e1], oracle);
    PollPassUnfold(PollStep(s, e0, oracle(e0.fd)), e1, [], oracle);
  }

  /** In a batch of two the second event is handled through a registered entry if and only if the callback of
      the first left its fd registered, or there was none. */
  lemma SecondIsRegisteredIff(s: Loop, e0: Fired, e1: Fired, oracle: int -> FdScript)
    requires Shaped(s) && Inv(s.fds) && BatchOk(s, [e0, e1], oracle) && FromKernel(s, [e0, e1])
    ensures InTable(s.fds, e0.fd) && InTable(s.fds, e1.fd)
    ensures var log := PollPass(s, [e0, e1], oracle).log;
      |log| == 2 && (log[1].info.monitored != NONE <==>
        BranchOf(s.fds.info[e0.fd], e0.events).Ignored?
        || Exec(s, oracle(e0.fd).ops).fds.info[e1.fd].monitored != NONE)
  {
    PollPassTwo(s, e0, e1, oracle);
    assert [e0, e1][1] == e1;
    assert e1.fd in MonitoredFds(s.fds);
    hide Inv, PollPass, PollStep, Exec;
    PollStepMonitors(s, e0, oracle(e0.fd), e1.fd);
  }

  /** So when the first callback removes the second fd, its event is handled through a cleared entry. */
  lemma UnregisteringAnotherFdBreaksBatch(s: Loop, e0: Fired, e1: Fired, oracle: int -> FdScript)
    requires Shaped(s) && Inv(s.fds) && BatchOk(s, [e0, e1], oracle) && FromKernel(s, [e0, e1])
    requires [e0, e1][0] == e0 && InTable(s.fds, e0.fd) && !BranchOf(s.fds.info[e0.fd], e0.events).Ignored?
    requires oracle(e0.fd).ops == [RemoveFdEvent(e1.fd, true)]
    ensures var log := PollPass(s, [e0, e1], oracle).log; |log| == 2 && log[1].info == CLEARED
  {
    assert [e0, e1][1] == e1;
    HeadIsRegistered(s, [e1]) by {
      assert [e1][0] == e1;
    }
    RemoveClears(s, e1.fd);
    PollPassTwo(s, e0, e1, oracle);
    PollStepKeepsInv(s, e0, oracle(e0.fd));
    hide PollStep, PollPass, Exec, ReadyInv;
    PollStepMonitors(s, e0, oracle(e0.fd), e1.fd);
  }

  lemma RemoveClears(s: Loop, fd: int)
    requires Shaped(s) && Inv(s.fds) && InTable(s.fds, fd) && s.fds.info[fd].monitored != NONE
    ensures Exec(s, [RemoveFdEvent(fd, true)]).fds.info[fd] == CLEARED
  {
    var op := RemoveFdEvent(fd, true);
    assert Exec(s, [op]) == Exec(Apply(s, op), []);
    assert fd in MonitoredFds(s.fds);
  }

  // ----- recorded events are not lost -----

  /** The same rule as in the pass over the ready list, and it touches no other entry. */
  lemma PollTailRecordsIff(c: FdState, fd: int, mask: Mask, rc: Mask, b: Mask)
    requires Inv(c) && InTable(c, fd)
    ensures Recorded(PollTail(c, fd, mask, rc), fd, b) <==>
            b != NONE && b.Within(rc.Or(c.info[fd].fired)) && b.Within(c.info[fd].monitored)
    ensures OnlyEntry(c, PollTail(c, fd, mask, rc), fd)
  {
    hide KernelInv;
    assert c.info[fd].fired != NONE ==> c.info[fd].monitored != NONE;
  }

  /** The callback, or the record, names an event that is monitored. */
  predicate Wanted(info: FdInfo, rc: Mask) {
    || (info.monitored.readable && (rc.readable || info.fired.readable))
    || (info.monitored.writable && (rc.writable || info.fired.writable))
  }

  /** Exactly what is recorded afterwards, monitored or not: when a monitored event is wanted, what was recorded
      and what the callback asked for and is monitored; else what was recorded and is not in this report. The fd
      leaves the list exactly when nothing is wanted and the report covers what was recorded. Nothing else
      changes. */
  lemma PollTailTouchesIff(c: FdState, fd: int, mask: Mask, rc: Mask, b: Mask)
    requires Inv(c) && InTable(c, fd) && (b == READABLE || b == WRITABLE)
    ensures var t := PollTail(c, fd, mask, rc);
      var was := c.info[fd];
      && (b.Within(t.info[fd].fired) <==>
            if Wanted(was, rc) then b.Within(was.fired) || (b.Within(rc) && b.Within(was.monitored))
            else b.Within(was.fired) && !b.Within(mask))
      && 0 <= t.numReady <= |t.slots|
      && (fd in Ready(t) <==> Wanted(was, rc) || !was.fired.Within(mask))
      && t.info[fd].monitored == was.monitored && t.info[fd].handler == was.handler
      && OnlyEntry(c, t, fd) && t.interest == c.interest && t.numMonitored == c.numMonitored
  {
    PollTailKeepsInv(c, fd, mask, rc);
    PollTailEntry(c, fd, mask, rc);
    hide PollTail, Inv;
    InvMeans(PollTail(c, fd, mask, rc), fd);
  }

  lemma PollTailEntry(c: FdState, fd: int, mask: Mask, rc: Mask)
    requires Inv(c) && InTable(c, fd)
    ensures var t := PollTail(c, fd, mask, rc);
      var was := c.info[fd];
      && t.info[fd].fired == (if Wanted(was, rc) then was.fired.Or(rc.And(was.monitored)) else was.fired.Minus(mask))
      && t.info[fd].monitored == was.monitored && t.info[fd].handler == was.handler
      && OnlyEntry(c, t, fd) && t.interest == c.interest && t.numMonitored == c.numMonitored
  {
    hide Inv;
    assert Wanted(c.info[fd], rc) <==> Guess(c, fd, rc) != NONE;
  }

  lemma PollTailKeepsRecorded(c: FdState, at: int, mask: Mask, rc: Mask, fd: int, b: Mask)
    requires Inv(c) && InTable(c, at) && Recorded(c, fd, b)
    ensures Recorded(PollTail(c, at, mask, rc), fd, b)
  {
    if at == fd {
      assert b.Within(Guess(c, fd, rc));
    }
  }

  lemma PollStepKeepsRecorded(s: Loop, e: Fired, script: FdScript, fd: int, b: Mask)
    requires Shaped(s) && Inv(s.fds) && InTable(s.fds, e.fd) && MasksGiven(script.ops)
    requires Recorded(s.fds, fd, b) && Spares(script.ops, fd, b)
    ensures Recorded(PollStep(s, e, script).fds, fd, b)
  {
    hide Inv, PollTail, Recorded;
    ExecKeepsRecorded(s, script.ops, fd, b);
    ExecKeepsInv(s, script.ops);
    if BranchOf(s.fds.info[e.fd], e.events).InputOutput? {
      PollTailKeepsRecorded(Exec(s, script.ops).fds, e.fd, Reported(e.events), script.rc, fd, b);
    }
  }

  /** Handling a batch never forgets a recorded event unless a callback stops monitoring it. */
  lemma {:induction false} PollPassKeepsRecorded(s: Loop, batch: seq<Fired>, oracle: int -> FdScript, fd: int, b: Mask)
    requires Shaped(s) && Inv(s.fds) && BatchOk(s, batch, oracle) && Recorded(s.fds, fd, b)
    requires forall g :: Spares(oracle(g).ops, fd, b)
    ensures Recorded(PollPass(s, batch, oracle).s.fds, fd, b)
    decreases |batch|
  {
    if batch != [] {
      var e := batch[0];
      PollStepKeepsInv(s, e, oracle(e.fd));
      PollStepKeepsRecorded(s, e, oracle(e.fd), fd, b);
      PollPassKeepsRecorded(PollStep(s, e, oracle(e.fd)), batch[1..], oracle, fd, b);
    }
  }
}
