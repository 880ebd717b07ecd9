/** One turn of the loop in AsyncEvent::processReadyFds: a callback, then an update of its fd's entry and of
    the compact ready list. */
module ReadySteps {
  import opened EventTypes
  import opened FdTable
  import opened EventModel

  function SetFired(f: FdState, fd: int, fired: Mask): FdState
    requires InTable(f, fd)
  {
    f.(info := f.info[fd := f.info[fd].(fired := fired)])
  }

  /** list_of_ready_fds_[idx] = list_of_ready_fds_[--num_ready_fds_]. With num_ready_fds_ == 0 the C code
      reads in front of the array; here the slot keeps its value and only the counter goes wrong. */
  function PopInto(f: FdState, idx: nat): FdState
    requires idx < |f.slots| && f.numReady <= |f.slots|
  {
    f.(slots := if f.numReady > 0 then f.slots[idx := f.slots[f.numReady - 1]] else f.slots,
       numReady := f.numReady - 1)
  }

  function Guess(f: FdState, fd: int, rc: Mask): Mask
    requires InTable(f, fd)
  {
    rc.Or(f.info[fd].fired).And(f.info[fd].monitored)
  }

  /** What processReadyFds does after proc_ returned rc in state c. */
  function ReadyTail(c: Loop, idx: nat, fd: int, rc: Mask): (r: (Loop, nat))
    requires Shaped(c) && InTable(c.fds, fd) && idx < |c.fds.slots|
    ensures Shaped(r.0) && SameSize(c, r.0)
    ensures r.0.fds.numReady - r.1 <= c.fds.numReady - idx
    ensures c.fds.slots[idx] == fd ==> r.0.fds.numReady - r.1 < c.fds.numReady - idx
  {
    var guess := Guess(c.fds, fd, rc);
    if guess != NONE then (c.(fds := SetFired(c.fds, fd, guess)), idx + 1)
    else
      var f := SetFired(c.fds, fd, NONE);
      (c.(fds := if f.slots[idx] == fd then PopInto(f, idx) else f), idx)
  }

  /** ReadyTail with the extra guard idx < num_ready_fds_ in front of the slot comparison. */
  function GuardedReadyTail(c: Loop, idx: nat, fd: int, rc: Mask): (r: (Loop, nat))
    requires Shaped(c) && InTable(c.fds, fd) && idx < |c.fds.slots|
    ensures Shaped(r.0) && SameSize(c, r.0)
    ensures r.0.fds.numReady - r.1 <= c.fds.numReady - idx
    ensures c.fds.numReady > idx && c.fds.slots[idx] == fd ==> r.0.fds.numReady - r.1 < c.fds.numReady - idx
  {
    if Guess(c.fds, fd, rc) == NONE && idx >= c.fds.numReady then
      (c.(fds := SetFired(c.fds, fd, NONE)), idx)
    else ReadyTail(c, idx, fd, rc)
  }

  /** One turn of the loop. */
  function ReadyStep(s: Loop, idx: nat, script: FdScript): (r: (Loop, nat))
    requires Shaped(s) && idx < s.fds.numReady
    ensures Shaped(r.0) && SameSize(s, r.0)
    ensures r.0.fds.numReady - r.1 < s.fds.numReady - idx
  {
    ReadyTail(Exec(s, script.ops), idx, s.fds.slots[idx], script.rc)
  }

  // ----- when the list survives -----

  /** The entry of fd as its callback left it fits what the code is about to do: an fd that stays listed must
      be listed, and what leaves the list must be fd. */
  predicate TailOk(c: FdState, idx: nat, fd: int, rc: Mask)
    requires InTable(c, fd) && idx < |c.slots| && c.numReady <= |c.slots|
  {
    if Guess(c, fd, rc) != NONE then c.info[fd].fired != NONE
    else if c.slots[idx] == fd then idx < c.numReady || (0 < c.numReady && c.slots[c.numReady - 1] == fd)
    else c.info[fd].fired == NONE
  }

  /** The same with the guard. */
  predicate GuardedTailOk(c: FdState, idx: nat, fd: int, rc: Mask)
    requires InTable(c, fd) && idx < |c.slots| && c.numReady <= |c.slots|
  {
    if Guess(c, fd, rc) != NONE then c.info[fd].fired != NONE
    else (idx < c.numReady && c.slots[idx] == fd) || c.info[fd].fired == NONE
  }

  lemma PopIsDrop(f: FdState, idx: nat)
    requires idx < f.numReady <= |f.slots|
    requires forall i, j :: 0 <= i < j < f.numReady ==> f.slots[i] != f.slots[j]
    ensures DropReady(f, f.slots[idx]) == PopInto(f, idx)
  {
    assert f.slots[..f.numReady][idx] == f.slots[idx];
    var i := FirstIndex(f.slots[..f.numReady], f.slots[idx]);
    assert f.slots[..f.numReady][i] == f.slots[i];
  }

  lemma ClearReady(c: FdState, fd: int)
    requires ReadyInv(c) && InTable(c, fd)
    ensures ReadyInvBut(SetFired(c, fd, NONE), fd)
  {
    assert SetFired(c, fd, NONE).slots[..c.numReady] == c.slots[..c.numReady];
  }

  lemma SetFiredKernel(c: FdState, fd: int, fired: Mask)
    requires KernelInv(c) && InTable(c, fd) && c.info[fd].monitored != NONE
    ensures KernelInv(SetFired(c, fd, fired))
  {
    var f := SetFired(c, fd, fired);
    assert MonitoredFds(f) == MonitoredFds(c);
  }

  lemma SetFiredKeepsInv(c: FdState, fd: int, fired: Mask)
    requires Inv(c) && InTable(c, fd) && c.info[fd].fired != NONE && fired != NONE
    ensures Inv(SetFired(c, fd, fired))
  {
    SetFiredKernel(c, fd, fired);
    assert Ready(SetFired(c, fd, fired)) == Ready(c);
  }

  lemma ClearAndDrop(c: FdState, fd: int)
    requires Inv(c) && InTable(c, fd) && c.info[fd].monitored != NONE
    ensures Inv(DropReady(SetFired(c, fd, NONE), fd))
  {
    var f := SetFired(c, fd, NONE);
    ClearReady(c, fd);
    DropReadyInv(f, fd);
    SetFiredKernel(c, fd, NONE);
    DropReadyFacts(f, fd);
    hide DropReady, ReadyInvBut;
    KernelOnly(f, DropReady(f, fd));
  }

  /** Popping the slot of fd, or the last one when fd is there and slot idx is stale. */
  lemma PopKeepsInv(c: FdState, idx: nat, fd: int)
    requires Inv(c) && InTable(c, fd) && idx < |c.slots| && c.slots[idx] == fd && 0 < c.numReady
    requires idx < c.numReady || c.slots[c.numReady - 1] == fd
    ensures Inv(PopInto(SetFired(c, fd, NONE), idx))
  {
    var at := if idx < c.numReady then idx else c.numReady - 1;
    assert c.slots[at] == fd && c.info[fd].monitored != NONE;
    ClearAndDrop(c, fd);
    PopIsDrop(SetFired(c, fd, NONE), at);
    hide Inv, PopInto, DropReady;
    if idx != at {
      PopLast(SetFired(c, fd, NONE), idx);
    }
  }

  lemma PopLast(f: FdState, idx: nat)
    requires 0 < f.numReady <= idx < |f.slots| && f.slots[idx] == f.slots[f.numReady - 1]
    ensures PopInto(f, f.numReady - 1) == PopInto(f, idx)
  {
    assert f.slots[idx := f.slots[idx]] == f.slots == f.slots[f.numReady - 1 := f.slots[f.numReady - 1]];
  }

  lemma PopBreaksInv(c: FdState, idx: nat, fd: int)
    requires Inv(c) && InTable(c, fd) && idx < |c.slots| && c.slots[idx] == fd && c.numReady <= idx
    requires c.numReady == 0 || c.slots[c.numReady - 1] != fd
    ensures !Inv(PopInto(SetFired(c, fd, NONE), idx))
  {
    var t := PopInto(SetFired(c, fd, NONE), idx);
    if c.numReady > 0 {
      var g := c.slots[c.numReady - 1];
      assert t.info[g].fired != NONE && g !in t.slots[..t.numReady];
    }
  }

  lemma MarkKeepsInvIff(c: FdState, fd: int, fired: Mask)
    requires Inv(c) && InTable(c, fd) && fired != NONE
    ensures Inv(SetFired(c, fd, fired)) <==> c.info[fd].fired != NONE
  {
    var t := SetFired(c, fd, fired);
    if c.info[fd].fired != NONE {
      SetFiredKeepsInv(c, fd, fired);
    } else {
      assert Ready(t) == Ready(c);
      assert t.info[fd].fired != NONE && fd !in Ready(c);
    }
  }

  lemma UnmarkKeepsInvIff(c: FdState, fd: int)
    requires Inv(c) && InTable(c, fd)
    ensures Inv(SetFired(c, fd, NONE)) <==> c.info[fd].fired == NONE
  {
    var t := SetFired(c, fd, NONE);
    if c.info[fd].fired == NONE {
      assert t == c;
    } else {
      assert fd in Ready(c) && Ready(t) == Ready(c);
      var k :| 0 <= k < c.numReady && c.slots[k] == fd;
      assert t.info[t.slots[k]].fired == NONE;
    }
  }

  lemma PopKeepsInvIff(c: FdState, idx: nat, fd: int)
    requires Inv(c) && InTable(c, fd) && idx < |c.slots| && c.slots[idx] == fd
    ensures c.numReady <= |c.slots|
    ensures Inv(PopInto(SetFired(c, fd, NONE), idx)) <==>
            idx < c.numReady || (0 < c.numReady && c.slots[c.numReady - 1] == fd)
  {
    if idx < c.numReady || (0 < c.numReady && c.slots[c.numReady - 1] == fd) {
      PopKeepsInv(c, idx, fd);
    } else {
      PopBreaksInv(c, idx, fd);
    }
  }

  /** What the code does to the entry keeps the invariant if and only if the table it finds meets TailOk. */
  lemma ReadyTailKeepsInvIff(c: Loop, idx: nat, fd: int, rc: Mask)
    requires Shaped(c) && Inv(c.fds) && InTable(c.fds, fd) && idx < |c.fds.slots|
    ensures Inv(ReadyTail(c, idx, fd, rc).0.fds) <==> TailOk(c.fds, idx, fd, rc)
  {
    hide Inv, PopInto, Guess;
    if Guess(c.fds, fd, rc) != NONE {
      MarkKeepsInvIff(c.fds, fd, Guess(c.fds, fd, rc));
    } else if c.fds.slots[idx] != fd {
      UnmarkKeepsInvIff(c.fds, fd);
    } else {
      PopKeepsInvIff(c.fds, idx, fd);
    }
  }

  lemma GuardedTailKeepsInvIff(c: Loop, idx: nat, fd: int, rc: Mask)
    requires Shaped(c) && Inv(c.fds) && InTable(c.fds, fd) && idx < |c.fds.slots|
    ensures Inv(GuardedReadyTail(c, idx, fd, rc).0.fds) <==> GuardedTailOk(c.fds, idx, fd, rc)
  {
    ReadyTailKeepsInvIff(c, idx, fd, rc);
    UnmarkKeepsInvIff(c.fds, fd);
    assert idx < c.fds.numReady && c.fds.info[fd].fired == NONE ==> c.fds.slots[idx] != fd;
  }

  /** One turn of the pass keeps the invariant, whatever its callback does, if and only if the callback leaves
      the table so that TailOk holds. */
  lemma ReadyStepKeepsInvIff(s: Loop, idx: nat, script: FdScript)
    requires Shaped(s) && Inv(s.fds) && idx < s.fds.numReady && MasksGiven(script.ops)
    ensures Inv(ReadyStep(s, idx, script).0.fds) <==>
            TailOk(Exec(s, script.ops).fds, idx, s.fds.slots[idx], script.rc)
  {
    ExecKeepsInv(s, script.ops);
    hide Inv, TailOk, ReadyTail, MasksGiven;
    ReadyTailKeepsInvIff(Exec(s, script.ops), idx, s.fds.slots[idx], script.rc);
  }

  /** With the guard. */
  lemma GuardedStepKeepsInvIff(s: Loop, idx: nat, script: FdScript)
    requires Shaped(s) && Inv(s.fds) && idx < s.fds.numReady && MasksGiven(script.ops)
    ensures var c, fd := Exec(s, script.ops), s.fds.slots[idx];
      Inv(GuardedReadyTail(c, idx, fd, script.rc).0.fds) <==> GuardedTailOk(c.fds, idx, fd, script.rc)
  {
    ExecKeepsInv(s, script.ops);
    hide Inv, GuardedTailOk, GuardedReadyTail, MasksGiven;
    GuardedTailKeepsInvIff(Exec(s, script.ops), idx, s.fds.slots[idx], script.rc);
  }

  // ----- callbacks that unregister no fd but their own -----

  /** The callback left its own fd without recorded events, which it can only do by unregistering it. */
  ghost predicate Unregistered(s: Loop, fd: int, ops: seq<Op>)
    requires Shaped(s) && InTable(s.fds, fd)
  {
    Exec(s, ops).fds.info[fd].fired == NONE
  }

  lemma UnregisteredSlots(s: FdState, c: FdState, idx: nat)
    requires ReadyInv(s) && idx < s.numReady
    requires OwnEffect(s, c, s.slots[idx]) && c.info[s.slots[idx]].fired == NONE
    ensures c.numReady == s.numReady - 1 && c.slots == s.slots[idx := s.slots[s.numReady - 1]]
  {
    assert s.slots[idx] in Ready(s);
    assert FirstIndex(Ready(s), s.slots[idx]) == idx;
  }

  lemma OwnTailOkIff(s: FdState, c: FdState, idx: nat, rc: Mask)
    requires ReadyInv(s) && idx < s.numReady && OwnEffect(s, c, s.slots[idx])
    ensures idx < |c.slots| && c.numReady <= |c.slots|
    ensures TailOk(c, idx, s.slots[idx], rc) <==>
            (c.info[s.slots[idx]].fired == NONE ==>
               idx != s.numReady - 1 && rc.And(c.info[s.slots[idx]].monitored) == NONE)
  {
    var fd := s.slots[idx];
    if c.info[fd].fired == NONE {
      UnregisteredSlots(s, c, idx);
      assert Guess(c, fd, rc) == rc.And(c.info[fd].monitored);
      assert idx < s.numReady - 1 ==> s.slots[s.numReady - 1] != fd;
      assert c.numReady > 0 ==> c.slots[c.numReady - 1] != fd;
    }
  }

  /** For a callback that unregisters no fd but its own, the condition is: having unregistered it, it asks for
      none of its events and was not called for the last slot. */
  lemma OwnStepKeepsInvIff(s: Loop, idx: nat, script: FdScript)
    requires Shaped(s) && Inv(s.fds) && idx < s.fds.numReady
    requires MasksGiven(script.ops) && OwnOnly(script.ops, s.fds.slots[idx])
    ensures Inv(ReadyStep(s, idx, script).0.fds) <==>
            (Unregistered(s, s.fds.slots[idx], script.ops) ==>
               idx != s.fds.numReady - 1
               && script.rc.And(Exec(s, script.ops).fds.info[s.fds.slots[idx]].monitored) == NONE)
  {
    ExecOwn(s, script.ops, s.fds.slots[idx]);
    ReadyStepKeepsInvIff(s, idx, script);
    hide Exec, TailOk, ReadyStep, OwnEffect, KernelInv, MasksGiven, OwnOnly;
    OwnTailOkIff(s.fds, Exec(s, script.ops).fds, idx, script.rc);
  }

  /** With the guard the last slot needs no exception. */
  lemma GuardedOwnStepKeepsInvIff(s: Loop, idx: nat, script: FdScript)
    requires Shaped(s) && Inv(s.fds) && idx < s.fds.numReady
    requires MasksGiven(script.ops) && OwnOnly(script.ops, s.fds.slots[idx])
    ensures var c, fd := Exec(s, script.ops), s.fds.slots[idx];
      Inv(GuardedReadyTail(c, idx, fd, script.rc).0.fds) <==>
      (Unregistered(s, fd, script.ops) ==> script.rc.And(c.fds.info[fd].monitored) == NONE)
  {
    ExecOwn(s, script.ops, s.fds.slots[idx]);
    GuardedStepKeepsInvIff(s, idx, script);
    hide Exec, GuardedReadyTail, KernelInv, MasksGiven, OwnOnly;
    OwnGuardedTailOkIff(s.fds, Exec(s, script.ops).fds, idx, script.rc);
  }

  lemma OwnGuardedTailOkIff(s: FdState, c: FdState, idx: nat, rc: Mask)
    requires ReadyInv(s) && idx < s.numReady && OwnEffect(s, c, s.slots[idx])
    ensures idx < |c.slots| && c.numReady <= |c.slots|
    ensures GuardedTailOk(c, idx, s.slots[idx], rc) <==>
            (c.info[s.slots[idx]].fired == NONE ==> rc.And(c.info[s.slots[idx]].monitored) == NONE)
  {
    var fd := s.slots[idx];
    if c.info[fd].fired == NONE {
      assert Guess(c, fd, rc) == rc.And(c.info[fd].monitored);
    }
  }

  // ----- what a turn records -----

  /** The events b are recorded for fd and still monitored. */
  predicate Recorded(f: FdState, fd: int, b: Mask) {
    InTable(f, fd) && b != NONE && b.Within(f.info[fd].fired) && b.Within(f.info[fd].monitored)
  }

  /** What is recorded for the fd after its callback returned rc: exactly the monitored events that the
      callback asked for or that were recorded already. Returning NONE drops no monitored event. */
  lemma ReadyTailRecordsIff(c: Loop, idx: nat, fd: int, rc: Mask, b: Mask)
    requires Shaped(c) && InTable(c.fds, fd) && idx < |c.fds.slots|
    ensures Recorded(ReadyTail(c, idx, fd, rc).0.fds, fd, b) <==>
            b != NONE && b.Within(rc.Or(c.fds.info[fd].fired)) && b.Within(c.fds.info[fd].monitored)
  {}

  /** Nothing else is recorded for the fd, and nothing else changes but the list: not what it is monitored for,
      not its handler, no other entry, not the kernel, no timer. */
  lemma ReadyTailTouchesIff(c: Loop, idx: nat, fd: int, rc: Mask, b: Mask)
    requires Shaped(c) && InTable(c.fds, fd) && idx < |c.fds.slots|
    ensures var t := ReadyTail(c, idx, fd, rc).0;
      && (b.Within(t.fds.info[fd].fired) <==>
            b.Within(rc.Or(c.fds.info[fd].fired)) && b.Within(c.fds.info[fd].monitored))
      && t.fds.info[fd].monitored == c.fds.info[fd].monitored && t.fds.info[fd].handler == c.fds.info[fd].handler
      && OnlyEntry(c.fds, t.fds, fd)
      && t.fds.interest == c.fds.interest && t.fds.numMonitored == c.fds.numMonitored
      && t.timers == c.timers && t.stop == c.stop
  {}
}
