/** What goes wrong in processReadyFds when a callback does not honour its contract. */
module ReadyFaults {
  import opened EventTypes
  import opened FdTable
  import opened EventModel
  import opened ReadySteps
  import opened ReadyPasses
  import Timers

  // ----- an fd in the last slot that unregisters itself -----

  lemma LastTwoDiffer(f: FdState)
    requires ReadyInv(f) && f.numReady >= 2
    ensures var lost := f.slots[f.numReady - 2];
      lost != f.slots[f.numReady - 1] && InTable(f, lost) && f.info[lost].fired != NONE
      && lost !in f.slots[..f.numReady - 2]
  {
    var others := f.slots[..f.numReady - 2];
    assert forall i :: 0 <= i < |others| ==> others[i] == f.slots[i];
  }

  /** The tail takes a stale slot just past the list for a live one. */
  lemma StaleSlotTail(c: Loop, idx: nat, fd: int)
    requires Shaped(c) && InTable(c.fds, fd) && idx < |c.fds.slots| && c.fds.slots[idx] == fd
    requires c.fds.info[fd].fired == NONE
    ensures ReadyTail(c, idx, fd, NONE).0.fds == PopInto(c.fds, idx)
  {
    assert SetFired(c.fds, fd, NONE) == c.fds;
  }

  /** What happens when the fd in the last slot unregisters itself and wants nothing more: the count drops
      twice, so the fd in the slot before it keeps its recorded events but leaves the ready list. */
  lemma LastSlotRemovalForgetsAnotherFd(s: Loop, script: FdScript)
    requires Shaped(s) && Inv(s.fds) && s.fds.numReady >= 2 && script.rc == NONE
    requires var fd := s.fds.slots[s.fds.numReady - 1];
      MasksGiven(script.ops) && OwnOnly(script.ops, fd) && Unregistered(s, fd, script.ops)
    ensures var t := ReadyStep(s, s.fds.numReady - 1, script).0.fds;
      var lost := s.fds.slots[s.fds.numReady - 2];
      && t.numReady == s.fds.numReady - 2
      && t.info[lost].fired != NONE && lost !in Ready(t)
  {
    var last := s.fds.numReady - 1;
    var fd := s.fds.slots[last];
    var c := Exec(s, script.ops);
    ExecOwn(s, script.ops, fd);
    UnregisteredSlots(s.fds, c.fds, last);
    LastTwoDiffer(s.fds);
    assert c.fds.info[s.fds.slots[last - 1]].fired != NONE;
    hide Inv, Exec, ReadyTail, ReadyInv, OwnEffect, MasksGiven, OwnOnly;
    StaleSlotTail(c, last, fd);
  }

  /** A single ready fd that does so takes num_ready_fds_ to -1. */
  lemma OnlySlotRemovalUnderflows(s: Loop, script: FdScript)
    requires Shaped(s) && Inv(s.fds) && s.fds.numReady == 1 && script.rc == NONE
    requires var fd := s.fds.slots[0];
      MasksGiven(script.ops) && OwnOnly(script.ops, fd) && Unregistered(s, fd, script.ops)
    ensures ReadyStep(s, 0, script).0.fds.numReady == -1
  {
    var fd := s.fds.slots[0];
    ExecOwn(s, script.ops, fd);
    UnregisteredSlots(s.fds, Exec(s, script.ops).fds, 0);
    hide Inv, Exec, ReadyTail, ReadyInv, OwnEffect, MasksGiven, OwnOnly;
    StaleSlotTail(Exec(s, script.ops), 0, fd);
  }

  // ----- a callback that unregisters an fd the pass is done with -----

  lemma RemoveDrops(f: FdState, g: int, j: nat)
    requires Inv(f) && j < f.numReady && f.slots[j] == g
    ensures var c := RemoveFd(f, g, true).0;
      && c.numReady == f.numReady - 1 && c.slots == f.slots[j := f.slots[c.numReady]]
      && |c.info| == |f.info| && forall h :: InTable(f, h) && h != g ==> c.info[h] == f.info[h]
  {
    assert g in f.interest by { assert g in MonitoredFds(f); }
    var ready := f.slots[..f.numReady];
    assert ready[j] == g;
    var i := FirstIndex(ready, g);
    hide KernelInv, FirstIndex;
    assert f.slots[i] == f.slots[j];
  }

  lemma TailKeepsEarlier(c: Loop, idx: nat, fd: int, rc: Mask, j: nat)
    requires Shaped(c) && InTable(c.fds, fd) && j < idx < c.fds.numReady && c.fds.slots[idx] == fd
    requires c.fds.info[fd].fired != NONE
    ensures TailOk(c.fds, idx, fd, rc)
    ensures var (t, next) := ReadyTail(c, idx, fd, rc);
      j < next && j < t.fds.numReady && t.fds.slots[j] == c.fds.slots[j]
  {}

  lemma RemoveEarlierFd(f: FdState, j: nat, idx: nat)
    requires Inv(f) && j < idx < f.numReady - 1
    ensures var c := RemoveFd(f, f.slots[j], true).0;
      && idx < c.numReady <= |c.slots| && c.slots[idx] == f.slots[idx] && InTable(c, f.slots[idx])
      && c.info[f.slots[idx]].fired != NONE && c.slots[j] == f.slots[f.numReady - 1]
  {
    RemoveDrops(f, f.slots[j], j);
    hide KernelInv, RemoveFd;
    assert f.slots[idx] != f.slots[j] && InTable(f, f.slots[idx]) && f.info[f.slots[idx]].fired != NONE;
  }

  lemma RemovesEarlier(s: Loop, j: nat, idx: nat)
    requires Shaped(s) && Inv(s.fds) && j < idx < s.fds.numReady - 1
    ensures var c := Exec(s, [RemoveFdEvent(s.fds.slots[j], true)]).fds;
      && idx < c.numReady <= |c.slots| && c.slots[idx] == s.fds.slots[idx] && InTable(c, s.fds.slots[idx])
      && c.info[s.fds.slots[idx]].fired != NONE && c.slots[j] == s.fds.slots[s.fds.numReady - 1]
  {
    hide Inv, Exec, RemoveFd;
    OneOp(s, RemoveFdEvent(s.fds.slots[j], true));
    RemoveEarlierFd(s.fds, j, idx);
  }

  /** Then the last fd of the list moves in front of the loop and is not called in this pass, although it is
      still listed: the invariant holds, "called exactly once" does not. */
  lemma EarlierRemovalSkipsLast(s: Loop, j: nat, idx: nat, rc: Mask)
    requires Shaped(s) && Inv(s.fds) && j < idx < s.fds.numReady - 1
    ensures var ops := [RemoveFdEvent(s.fds.slots[j], true)];
      var (t, next) := ReadyStep(s, idx, FdScript(ops, rc));
      && TailOk(Exec(s, ops).fds, idx, s.fds.slots[idx], rc)
      && j < next && j < t.fds.numReady && t.fds.slots[j] == s.fds.slots[s.fds.numReady - 1]
  {
    hide Inv, Exec, TailOk, ReadyTail;
    RemovesEarlier(s, j, idx);
    TailKeepsEarlier(Exec(s, [RemoveFdEvent(s.fds.slots[j], true)]), idx, s.fds.slots[idx], rc, j);
  }

  /** When slot idx is stale and still names fd, and fd is not the last of the list, the last fd of the list
      leaves it with its events recorded; an fd that was listed itself stays, with nothing recorded. */
  lemma StaleSlotLosesEvent(c: FdState, idx: nat, fd: int)
    requires Inv(c) && InTable(c, fd) && 0 < c.numReady <= idx < |c.slots| && c.slots[idx] == fd
    requires c.slots[c.numReady - 1] != fd
    ensures var t := PopInto(SetFired(c, fd, NONE), idx);
      var lost := c.slots[c.numReady - 1];
      && t.info[lost].fired != NONE && lost !in t.slots[..t.numReady]
      && (fd in t.slots[..t.numReady] <==> c.info[fd].fired != NONE) && t.info[fd].fired == NONE
  {
    hide KernelInv;
    var t := PopInto(SetFired(c, fd, NONE), idx);
    if c.info[fd].fired != NONE {
      var k :| 0 <= k < c.numReady && c.slots[..c.numReady][k] == fd;
      assert t.slots[..t.numReady][k] == fd;
    }
  }
}
