/** AsyncEvent::processReadyFds: the pass over the compact ready list. */
module ReadyPasses {
  import opened EventTypes
  import opened FdTable
  import opened Sequences
  import opened EventModel
  import opened ReadySteps

  /** An invocation of proc_ on an fd with the events it is told about. */
  datatype Call = Call(fd: int, mask: Mask)

  /** The final state; the calls made, in order; the calls that were owed to fds which a callback unregistered
      before their turn. */
  datatype ReadyOut = ReadyOut(s: Loop, calls: seq<Call>, dropped: seq<Call>)

  /** The calls a pass over slots[idx..] owes: every fd still listed, with its recorded events. */
  function Pending(f: FdState, idx: nat): (calls: seq<Call>)
    requires Shape(f)
    ensures |calls| == if idx <= f.numReady then f.numReady - idx else 0
    ensures forall i :: 0 <= i < |calls| ==> calls[i] == Call(f.slots[idx + i], f.info[f.slots[idx + i]].fired)
  {
    if idx > f.numReady then []
    else
      seq(f.numReady - idx, i requires 0 <= i < f.numReady - idx =>
        Call(f.slots[idx + i], f.info[f.slots[idx + i]].fired))
  }

  /** Those of the calls whose fd has nothing recorded any more. */
  function Gone(calls: seq<Call>, c: FdState): seq<Call> {
    if calls == [] then []
    else
      (if InTable(c, calls[0].fd) && c.info[calls[0].fd].fired == NONE then [calls[0]] else []) + Gone(calls[1..], c)
  }

  /** The calls lost in a turn: those owed to later fds that the callback unregistered. */
  function DroppedIn(s: Loop, idx: nat, script: FdScript): seq<Call>
    requires Shaped(s) && idx < s.fds.numReady
  {
    Gone(Pending(s.fds, idx + 1), Exec(s, script.ops).fds)
  }

  /** processReadyFds from slot idx on; `oracle` says what the callback of each fd does when called.
      The number of calls is the C function's return value. */
  function ReadyPass(s: Loop, idx: nat, oracle: int -> FdScript): (r: ReadyOut)
    requires Shaped(s)
    ensures Shaped(r.s) && SameSize(s, r.s)
    decreases s.fds.numReady - idx
  {
    if idx >= s.fds.numReady then ReadyOut(s, [], [])
    else
      var fd := s.fds.slots[idx];
      var (t, next) := ReadyStep(s, idx, oracle(fd));
      var rest := ReadyPass(t, next, oracle);
      ReadyOut(rest.s, [Call(fd, s.fds.info[fd].fired)] + rest.calls, DroppedIn(s, idx, oracle(fd)) + rest.dropped)
  }

  // ----- the invariant over the pass -----

  /** What the source asks of a callback called from slot idx of the ready list. */
  ghost predicate ReadyContract(s: Loop, idx: nat, script: FdScript)
    requires Shaped(s) && idx < s.fds.numReady
  {
    MasksGiven(script.ops) && TailOk(Exec(s, script.ops).fds, idx, s.fds.slots[idx], script.rc)
  }

  ghost predicate ReadyPassContract(s: Loop, idx: nat, oracle: int -> FdScript)
    requires Shaped(s)
    decreases s.fds.numReady - idx
  {
    idx < s.fds.numReady ==>
      var script := oracle(s.fds.slots[idx]);
      ReadyContract(s, idx, script)
      && ReadyPassContract(ReadyStep(s, idx, script).0, ReadyStep(s, idx, script).1, oracle)
  }

  /** A pass whose callbacks honour it keeps the invariant. */
  lemma {:induction false} ReadyPassKeepsInv(s: Loop, idx: nat, oracle: int -> FdScript)
    requires Shaped(s) && Inv(s.fds) && ReadyPassContract(s, idx, oracle)
    ensures Inv(ReadyPass(s, idx, oracle).s.fds)
    decreases s.fds.numReady - idx
  {
    hide Inv, ReadyStep, Exec, TailOk, MasksGiven;
    if idx < s.fds.numReady {
      var script := oracle(s.fds.slots[idx]);
      ReadyStepKeepsInvIff(s, idx, script);
      var (t, next) := ReadyStep(s, idx, script);
      ReadyPassKeepsInv(t, next, oracle);
    }
  }

  // ----- what any callback does to the list -----

  lemma {:induction false} ExecFired(s: Loop, ops: seq<Op>, g: int)
    requires Shaped(s) && InTable(s.fds, g)
    ensures var c := Exec(s, ops).fds;
      InTable(c, g) && (c.info[g].fired == s.fds.info[g].fired || c.info[g].fired == NONE)
    decreases |ops|
  {
    if ops != [] {
      ExecFired(Apply(s, ops[0]), ops[1..], g);
    }
  }

  /** The callback unregistered no fd in front of slot n. */
  ghost predicate EarlierKept(s: FdState, c: FdState, n: int)
    requires Shape(s) && n <= s.numReady && |c.info| == |s.info|
  {
    forall j :: 0 <= j < n ==> c.info[s.slots[j]].fired != NONE
  }

  lemma DropKeepsPrefix(s: FdState, fd: int, n: nat)
    requires n <= s.numReady <= |s.slots| && forall j :: 0 <= j < n ==> s.slots[j] != fd
    ensures var d := DropReady(s, fd); n <= d.numReady <= |d.slots| && d.slots[..n] == s.slots[..n]
  {
    if s.numReady > 0 && fd in s.slots[..s.numReady] {
      var i := FirstIndex(s.slots[..s.numReady], fd);
      assert s.slots[..s.numReady][i] == s.slots[i];
    }
  }

  lemma ApplyKeepsPrefix(s: Loop, op: Op, n: nat)
    requires Shaped(s) && n <= s.fds.numReady && EarlierKept(s.fds, Apply(s, op).fds, n)
    ensures var t := Apply(s, op).fds; n <= t.numReady && t.slots[..n] == s.fds.slots[..n]
  {
    var f := s.fds;
    match op
    case DelFdEvent(fd, mask, willing) =>
      if InTable(f, fd) && forall j :: 0 <= j < n ==> f.slots[j] != fd {
        DropKeepsPrefix(Forget(f, fd), fd, n);
      }
    case RemoveFdEvent(fd, willing) =>
      if InTable(f, fd) && forall j :: 0 <= j < n ==> f.slots[j] != fd {
        DropKeepsPrefix(Forget(f, fd), fd, n);
      }
    case _ =>
  }

  /** Slots in front of which nothing was unregistered are as they were. */
  lemma {:induction false} ExecKeepsPrefix(s: Loop, ops: seq<Op>, n: nat)
    requires Shaped(s) && n <= s.fds.numReady && EarlierKept(s.fds, Exec(s, ops).fds, n)
    ensures var c := Exec(s, ops).fds; n <= c.numReady && c.slots[..n] == s.fds.slots[..n]
    decreases |ops|
  {
    if ops != [] {
      var t := Apply(s, ops[0]);
      hide Apply;
      forall j | 0 <= j < n ensures t.fds.info[s.fds.slots[j]].fired != NONE {
        ExecFired(t, ops[1..], s.fds.slots[j]);
      }
      ApplyKeepsPrefix(s, ops[0], n);
      assert forall j :: 0 <= j < n ==> t.fds.slots[..n][j] == s.fds.slots[..n][j];
      ExecKeepsPrefix(t, ops[1..], n);
    }
  }

  // ----- one turn -----

  /** What either form of the tail does to the table c that the callback left, when it finds what it should:
      fd stays in its slot with `guess` recorded, or leaves it, or had left already. */
  ghost predicate Outcome(c: FdState, idx: nat, fd: int, rc: Mask, t: FdState, next: nat)
    requires InTable(c, fd) && idx < |c.slots| && c.numReady <= |c.slots|
  {
    if c.info[fd].fired == NONE then t == c && next == idx
    else if Guess(c, fd, rc) != NONE then t == SetFired(c, fd, Guess(c, fd, rc)) && next == idx + 1
    else t == PopInto(SetFired(c, fd, NONE), idx) && next == idx
  }

  lemma TailOutcome(s: FdState, c: Loop, idx: nat, rc: Mask)
    requires ReadyInv(s) && idx < s.numReady && Shaped(c) && Inv(c.fds) && |c.fds.info| == |s.info|
    requires TailOk(c.fds, idx, s.slots[idx], rc) && idx <= c.fds.numReady
    requires c.fds.info[s.slots[idx]].fired != NONE ==> idx < c.fds.numReady && c.fds.slots[idx] == s.slots[idx]
    ensures var (t, next) := ReadyTail(c, idx, s.slots[idx], rc);
      Outcome(c.fds, idx, s.slots[idx], rc, t.fds, next)
  {
    if c.fds.info[s.slots[idx]].fired == NONE {
      assert SetFired(c.fds, s.slots[idx], NONE) == c.fds;
      assert idx < c.fds.numReady ==> c.fds.info[c.fds.slots[idx]].fired != NONE;
    }
  }

  lemma GuardedTailOutcome(s: FdState, c: Loop, idx: nat, rc: Mask)
    requires ReadyInv(s) && idx < s.numReady && Shaped(c) && Inv(c.fds) && |c.fds.info| == |s.info|
    requires GuardedTailOk(c.fds, idx, s.slots[idx], rc) && idx <= c.fds.numReady
    requires c.fds.info[s.slots[idx]].fired != NONE ==> idx < c.fds.numReady && c.fds.slots[idx] == s.slots[idx]
    ensures var (t, next) := GuardedReadyTail(c, idx, s.slots[idx], rc);
      Outcome(c.fds, idx, s.slots[idx], rc, t.fds, next)
  {
    if c.fds.info[s.slots[idx]].fired == NONE {
      assert SetFired(c.fds, s.slots[idx], NONE) == c.fds;
      assert idx < c.fds.numReady ==> c.fds.info[c.fds.slots[idx]].fired != NONE;
    }
  }

  /** fd g is still to be called from slot n on. */
  ghost predicate Ahead(f: FdState, n: nat, g: int)
    requires f.numReady <= |f.slots|
  {
    exists k :: n <= k < f.numReady && f.slots[k] == g
  }

  lemma AheadIff(f: FdState, n: nat, g: int)
    requires ReadyInv(f) && n <= f.numReady && InTable(f, g)
    ensures Ahead(f, n, g) <==> f.info[g].fired != NONE && g !in f.slots[..n]
  {
    assert forall j :: 0 <= j < n ==> f.slots[j] in f.slots[..n];
    if f.info[g].fired != NONE && g !in f.slots[..n] {
      var k :| 0 <= k < f.numReady && f.slots[..f.numReady][k] == g;
      assert f.slots[k] == g;
    }
    if g in f.slots[..n] {
      var k :| 0 <= k < n && f.slots[..n][k] == g;
      assert f.slots[k] == g;
    }
  }

  /** What the callback left, seen from slot idx. */
  ghost predicate LeftBy(s: FdState, c: FdState, idx: nat)
    requires ReadyInv(s) && idx < s.numReady
  {
    && ReadyInv(c) && |c.info| == |s.info|
    && (forall g :: InTable(s, g) ==> c.info[g].fired == s.info[g].fired || c.info[g].fired == NONE)
    && idx <= c.numReady && c.slots[..idx] == s.slots[..idx]
    && (c.info[s.slots[idx]].fired != NONE ==> idx < c.numReady && c.slots[idx] == s.slots[idx])
  }

  lemma ExecLeaves(s: Loop, idx: nat, script: FdScript)
    requires Shaped(s) && Inv(s.fds) && idx < s.fds.numReady && MasksGiven(script.ops)
    requires EarlierKept(s.fds, Exec(s, script.ops).fds, idx)
    ensures LeftBy(s.fds, Exec(s, script.ops).fds, idx)
  {
    ExecKeepsInv(s, script.ops);
    hide KernelInv, MasksGiven, Exec;
    var f, c := s.fds, Exec(s, script.ops).fds;
    assert InTable(f, f.slots[idx]);
    hide ReadyInv;
    forall g | InTable(f, g) ensures c.info[g].fired == f.info[g].fired || c.info[g].fired == NONE {
      ExecFired(s, script.ops, g);
    }
    ExecKeepsPrefix(s, script.ops, idx);
    OwnSlotKept(s, idx, script.ops);
  }

  lemma OwnSlotKept(s: Loop, idx: nat, ops: seq<Op>)
    requires Shaped(s) && idx < s.fds.numReady && EarlierKept(s.fds, Exec(s, ops).fds, idx)
    ensures var c, fd := Exec(s, ops).fds, s.fds.slots[idx];
      c.info[fd].fired != NONE ==> idx < c.numReady && c.slots[idx] == fd
  {
    hide Exec;
    var c := Exec(s, ops).fds;
    if c.info[s.fds.slots[idx]].fired != NONE {
      ExecKeepsPrefix(s, ops, idx + 1);
      assert c.slots[..idx + 1][idx] == s.fds.slots[..idx + 1][idx];
    }
  }

  lemma PopAhead(c: FdState, idx: nat, t: FdState, g: int)
    requires idx < c.numReady <= |c.slots| && t.numReady == c.numReady - 1
    requires t.slots == c.slots[idx := c.slots[c.numReady - 1]]
    requires forall i, j :: 0 <= i < j < c.numReady ==> c.slots[i] != c.slots[j]
    ensures Ahead(t, idx, g) <==> Ahead(c, idx, g) && g != c.slots[idx]
  {
    var last := c.numReady - 1;
    if Ahead(t, idx, g) {
      var k :| idx <= k < t.numReady && t.slots[k] == g;
      assert c.slots[if k == idx then last else k] == g;
    }
    if Ahead(c, idx, g) && g != c.slots[idx] {
      var k :| idx <= k < c.numReady && c.slots[k] == g;
      assert t.slots[if k == last then idx else k] == g;
    }
  }

  lemma NextAhead(c: FdState, idx: nat, t: FdState, g: int)
    requires idx < c.numReady <= |c.slots| && t.numReady == c.numReady && t.slots == c.slots
    requires forall i, j :: 0 <= i < j < c.numReady ==> c.slots[i] != c.slots[j]
    ensures Ahead(t, idx + 1, g) <==> Ahead(c, idx, g) && g != c.slots[idx]
  {
    if Ahead(t, idx + 1, g) {
      var k :| idx + 1 <= k < t.numReady && t.slots[k] == g;
      assert c.slots[k] == g;
    }
    if Ahead(c, idx, g) && g != c.slots[idx] {
      var k :| idx <= k < c.numReady && c.slots[k] == g;
      assert t.slots[k] == g;
    }
  }

  /** After the tail, the fds ahead are those that were ahead of c, without fd. */
  lemma OutcomeAhead(c: FdState, idx: nat, fd: int, rc: Mask, t: FdState, next: nat, g: int)
    requires ReadyInv(c) && InTable(c, fd) && idx <= c.numReady && idx < |c.slots|
    requires c.info[fd].fired != NONE ==> idx < c.numReady && c.slots[idx] == fd
    requires Outcome(c, idx, fd, rc, t, next)
    ensures next <= t.numReady <= |t.slots|
    ensures Ahead(t, next, g) <==> Ahead(c, idx, g) && g != fd
  {
    if c.info[fd].fired == NONE {
      forall k | idx <= k < c.numReady ensures c.slots[k] != fd {}
    } else {
      hide Guess, Ahead;
      if next == idx {
        PopAhead(c, idx, t, g);
      } else {
        NextAhead(c, idx, t, g);
      }
    }
  }

  /** The fds still to be called after the turn are those that were, without this one and without those that
      the callback unregistered. */
  lemma TurnAhead(s: FdState, c: FdState, idx: nat, rc: Mask, t: FdState, next: nat, g: int)
    requires ReadyInv(s) && idx < s.numReady && LeftBy(s, c, idx) && InTable(s, g)
    requires Outcome(c, idx, s.slots[idx], rc, t, next)
    ensures next <= t.numReady <= |t.slots|
    ensures Ahead(t, next, g) <==> Ahead(s, idx + 1, g) && c.info[g].fired != NONE
  {
    var fd := s.slots[idx];
    OutcomeAhead(c, idx, fd, rc, t, next, g);
    AheadIff(c, idx, g);
    AheadIff(s, idx + 1, g);
    assert s.slots[..idx + 1] == s.slots[..idx] + [fd];
  }

  // ----- the calls that are owed -----

  lemma {:induction false} GoneIff(calls: seq<Call>, c: FdState, x: Call)
    ensures x in Gone(calls, c) <==> x in calls && InTable(c, x.fd) && c.info[x.fd].fired == NONE
  {
    if calls != [] {
      GoneIff(calls[1..], c, x);
      assert calls == [calls[0]] + calls[1..];
    }
  }

  lemma {:induction false} GoneDistinct(calls: seq<Call>, c: FdState)
    requires Distinct(calls)
    ensures Distinct(Gone(calls, c))
  {
    if calls != [] {
      GoneDistinct(calls[1..], c);
      GoneIff(calls[1..], c, calls[0]);
      assert calls[0] !in calls[1..];
    }
  }

  lemma {:induction false} GoneNone(calls: seq<Call>, c: FdState)
    requires forall k :: 0 <= k < |calls| ==> InTable(c, calls[k].fd) && c.info[calls[k].fd].fired != NONE
    ensures Gone(calls, c) == []
  {
    if calls != [] {
      GoneNone(calls[1..], c);
    }
  }

  lemma PendingIff(f: FdState, n: nat, x: Call)
    requires Shape(f)
    ensures x in Pending(f, n) <==> Ahead(f, n, x.fd) && InTable(f, x.fd) && x.mask == f.info[x.fd].fired
  {
    hide Pending;
    var p := Pending(f, n);
    if Ahead(f, n, x.fd) && InTable(f, x.fd) && x.mask == f.info[x.fd].fired {
      var k :| n <= k < f.numReady && f.slots[k] == x.fd;
      assert p[k - n] == x;
    }
    if x in p {
      var k :| 0 <= k < |p| && p[k] == x;
      assert f.slots[n + k] == x.fd;
    }
  }

  lemma PendingDistinct(f: FdState, n: nat)
    requires ReadyInv(f)
    ensures Distinct(Pending(f, n))
  {
    hide Pending;
    var p := Pending(f, n);
    forall a, b | 0 <= a < b < |p| ensures p[a] != p[b] {
      assert f.slots[n + a] != f.slots[n + b];
    }
  }

  /** A turn makes the call of its fd, drops those of the fds that its callback unregistered, and still owes
      the others. */
  lemma TurnOwes(s: FdState, c: FdState, idx: nat, rc: Mask, t: FdState, next: nat)
    requires ReadyInv(s) && idx < s.numReady && LeftBy(s, c, idx) && ReadyInv(t) && |t.info| == |s.info|
    requires Outcome(c, idx, s.slots[idx], rc, t, next)
    ensures next <= t.numReady
    ensures multiset(Pending(t, next)) + multiset(Gone(Pending(s, idx + 1), c)) == multiset(Pending(s, idx + 1))
  {
    var fd := s.slots[idx];
    var p, q, gone := Pending(s, idx + 1), Pending(t, next), Gone(Pending(s, idx + 1), c);
    PendingDistinct(s, idx + 1);
    PendingDistinct(t, next);
    GoneDistinct(p, c);
    OutcomeAhead(c, idx, fd, rc, t, next, fd);
    hide Pending, Gone, LeftBy, ReadyInv, Ahead;
    forall x: Call ensures (x in p <==> x in q || x in gone) && !(x in q && x in gone) {
      PendingIff(s, idx + 1, x);
      PendingIff(t, next, x);
      GoneIff(p, c, x);
      if InTable(s, x.fd) {
        TurnAhead(s, c, idx, rc, t, next, x.fd);
        TurnMask(s, c, idx, rc, t, next, x.fd);
      }
    }
    SplitDistinct(q, gone, p);
  }

  lemma TurnMask(s: FdState, c: FdState, idx: nat, rc: Mask, t: FdState, next: nat, g: int)
    requires ReadyInv(s) && idx < s.numReady && LeftBy(s, c, idx) && InTable(s, g)
    requires Outcome(c, idx, s.slots[idx], rc, t, next)
    ensures |t.info| == |s.info| && |c.info| == |s.info|
    ensures c.info[g].fired != NONE && g != s.slots[idx] ==> t.info[g].fired == s.info[g].fired
    ensures !Ahead(t, next, s.slots[idx]) && !Ahead(s, idx + 1, s.slots[idx])
  {
    OutcomeAhead(c, idx, s.slots[idx], rc, t, next, s.slots[idx]);
  }

  /** No callback of the pass unregisters an fd in front of the slot it is called from. */
  ghost predicate SparesEarlier(s: Loop, idx: nat, oracle: int -> FdScript)
    requires Shaped(s)
    decreases s.fds.numReady - idx
  {
    idx < s.fds.numReady ==>
      var script := oracle(s.fds.slots[idx]);
      EarlierKept(s.fds, Exec(s, script.ops).fds, idx)
      && SparesEarlier(ReadyStep(s, idx, script).0, ReadyStep(s, idx, script).1, oracle)
  }

  lemma TurnOutcome(s: Loop, idx: nat, script: FdScript)
    requires Shaped(s) && Inv(s.fds) && idx < s.fds.numReady && ReadyContract(s, idx, script)
    requires EarlierKept(s.fds, Exec(s, script.ops).fds, idx)
    ensures var c := Exec(s, script.ops).fds;
      var (t, next) := ReadyStep(s, idx, script);
      && LeftBy(s.fds, c, idx) && Inv(t.fds) && |t.fds.info| == |s.fds.info|
      && Outcome(c, idx, s.fds.slots[idx], script.rc, t.fds, next)
  {
    ReadyStepKeepsInvIff(s, idx, script);
    ExecLeaves(s, idx, script);
    ExecKeepsInv(s, script.ops);
    hide Exec, KernelInv, EarlierKept, Outcome, MasksGiven, ReadyTail, TailOk;
    TailOutcome(s.fds, Exec(s, script.ops), idx, script.rc);
  }

  lemma PendingHead(f: FdState, idx: nat)
    requires Shape(f) && idx < f.numReady
    ensures Pending(f, idx) == [Call(f.slots[idx], f.info[f.slots[idx]].fired)] + Pending(f, idx + 1)
  {}

  /** One processReadyFds pass whose callbacks honour the contract and unregister no fd that it has passed:
      every fd that was ready is called exactly once, with the events recorded for it when the pass began, or
      was unregistered by a callback before its turn; no other is called. */
  lemma {:induction false} ReadyPassCallsOnce(s: Loop, idx: nat, oracle: int -> FdScript)
    requires Shaped(s) && Inv(s.fds) && idx <= s.fds.numReady
    requires ReadyPassContract(s, idx, oracle) && SparesEarlier(s, idx, oracle)
    ensures var out := ReadyPass(s, idx, oracle);
      multiset(out.calls) + multiset(out.dropped) == multiset(Pending(s.fds, idx))
    decreases s.fds.numReady - idx
  {
    hide Inv, ReadyStep, ReadyContract, EarlierKept, Exec, Gone, LeftBy, Outcome, Pending;
    if idx < s.fds.numReady {
      var script := oracle(s.fds.slots[idx]);
      TurnOutcome(s, idx, script);
      var (t, next) := ReadyStep(s, idx, script);
      ReadyPart(s.fds);
      ReadyPart(t.fds);
      TurnOwes(s.fds, Exec(s, script.ops).fds, idx, script.rc, t.fds, next);
      ReadyPassCallsOnce(t, next, oracle);
      var rest := ReadyPass(t, next, oracle);
      PendingHead(s.fds, idx);
      PassSums(Call(s.fds.slots[idx], s.fds.info[s.fds.slots[idx]].fired), Pending(s.fds, idx + 1),
               Pending(t.fds, next), DroppedIn(s, idx, script), rest.calls, rest.dropped);
    } else {
      NothingPending(s.fds);
    }
  }

  lemma ReadyPart(f: FdState)
    requires Inv(f)
    ensures ReadyInv(f)
  {}

  lemma NothingPending(f: FdState)
    requires Shape(f) && f.numReady >= 0
    ensures Pending(f, f.numReady) == []
  {}

  lemma PassSums<T(!new)>(head: T, later: seq<T>, owed: seq<T>, dropped: seq<T>, calls: seq<T>, dropped': seq<T>)
    requires multiset(owed) + multiset(dropped) == multiset(later)
    requires multiset(calls) + multiset(dropped') == multiset(owed)
    ensures multiset([head] + calls) + multiset(dropped + dropped') == multiset([head] + later)
  {
    ChainBalance(later, owed, calls, dropped, [], dropped', []);
    assert multiset(later) + multiset([] + []) == multiset(later);
    ConsBoth(head, calls, dropped + dropped', later, []);
  }

  // ----- recorded events stay within monitored ones -----

  predicate CleanAt(f: FdState, fd: int)
    requires InTable(f, fd)
  {
    f.info[fd].fired.Within(f.info[fd].monitored)
  }

  /** The first n entries have no recorded event that is not monitored. */
  ghost predicate Clean(f: FdState, n: int)
    requires Shape(f)
  {
    forall i :: 0 <= i < n && i < f.numReady ==> CleanAt(f, f.slots[i])
  }

  /** The callback stopped monitoring no recorded event of an fd in front of slot n. */
  ghost predicate EarlierClean(s: FdState, c: FdState, n: int)
    requires Shape(s) && n <= s.numReady && |c.info| == |s.info|
  {
    forall j :: 0 <= j < n ==> CleanAt(c, s.slots[j])
  }

  ghost predicate KeepsClean(s: Loop, idx: nat, oracle: int -> FdScript)
    requires Shaped(s)
    decreases s.fds.numReady - idx
  {
    idx < s.fds.numReady ==>
      var script := oracle(s.fds.slots[idx]);
      EarlierClean(s.fds, Exec(s, script.ops).fds, idx)
      && KeepsClean(ReadyStep(s, idx, script).0, ReadyStep(s, idx, script).1, oracle)
  }

  lemma TurnCleans(s: FdState, c: FdState, idx: nat, rc: Mask, t: FdState, next: nat)
    requires ReadyInv(s) && idx < s.numReady && LeftBy(s, c, idx) && ReadyInv(t)
    requires Outcome(c, idx, s.slots[idx], rc, t, next) && EarlierClean(s, c, idx)
    ensures Clean(t, next)
  {
    var fd := s.slots[idx];
    OutcomeEntries(c, idx, fd, rc, t, next);
    assert forall j :: 0 <= j < idx ==> s.slots[j] != fd && InTable(s, s.slots[j]);
    assert Shape(t);
    hide Outcome, ReadyInv;
    CleanSoFar(s.slots, c, idx, fd, t, next);
  }

  lemma CleanSoFar(slots: seq<int>, c: FdState, idx: nat, fd: int, t: FdState, next: nat)
    requires Shape(t) && idx <= |slots| && idx <= |c.slots| && c.slots[..idx] == slots[..idx] && idx <= |t.slots|
    requires forall j :: 0 <= j < idx ==> slots[j] != fd && InTable(c, slots[j]) && CleanAt(c, slots[j])
    requires OnlyEntry(c, t, fd) && forall j :: 0 <= j < idx ==> t.slots[j] == c.slots[j]
    requires idx <= next <= idx + 1 && InTable(t, fd)
    requires next == idx + 1 ==> idx < |t.slots| && t.slots[idx] == fd && CleanAt(t, fd)
    ensures Clean(t, next)
  {
    forall i | 0 <= i < next && i < t.numReady ensures CleanAt(t, t.slots[i]) {
      if i < idx {
        assert c.slots[..idx][i] == slots[..idx][i];
        assert t.slots[i] == slots[i] && CleanAt(c, slots[i]);
      }
    }
  }

  /** The tail touches no entry but that of fd, and no slot in front of idx. */
  lemma OutcomeEntries(c: FdState, idx: nat, fd: int, rc: Mask, t: FdState, next: nat)
    requires InTable(c, fd) && idx < |c.slots| && c.numReady <= |c.slots|
    requires c.info[fd].fired != NONE ==> c.slots[idx] == fd
    requires Outcome(c, idx, fd, rc, t, next)
    ensures OnlyEntry(c, t, fd) && |t.slots| == |c.slots| && forall j :: 0 <= j < idx ==> t.slots[j] == c.slots[j]
    ensures idx <= next <= idx + 1
    ensures next == idx + 1 ==> t.slots[idx] == fd && CleanAt(t, fd)
  {}

  /** The pass leaves no entry with a recorded event that is not monitored. */
  lemma {:induction false} ReadyPassCleans(s: Loop, idx: nat, oracle: int -> FdScript)
    requires Shaped(s) && Inv(s.fds) && idx <= s.fds.numReady && Clean(s.fds, idx)
    requires ReadyPassContract(s, idx, oracle) && SparesEarlier(s, idx, oracle) && KeepsClean(s, idx, oracle)
    ensures var f := ReadyPass(s, idx, oracle).s.fds; Shape(f) && Clean(f, f.numReady)
    decreases s.fds.numReady - idx
  {
    hide Inv, ReadyStep, ReadyContract, EarlierKept, EarlierClean, Exec, LeftBy, Outcome, Clean, Pending;
    if idx < s.fds.numReady {
      var script := oracle(s.fds.slots[idx]);
      TurnOutcome(s, idx, script);
      var (t, next) := ReadyStep(s, idx, script);
      var c := Exec(s, script.ops).fds;
      InvParts(s.fds);
      InvParts(t.fds);
      OutcomeInRange(s.fds, c, idx, script.rc, t.fds, next);
      TurnCleans(s.fds, c, idx, script.rc, t.fds, next);
      ReadyPassCleans(t, next, oracle);
    }
  }

  lemma InvParts(f: FdState)
    requires Inv(f)
    ensures ReadyInv(f)
  {}

  lemma OutcomeInRange(s: FdState, c: FdState, idx: nat, rc: Mask, t: FdState, next: nat)
    requires ReadyInv(s) && idx < s.numReady && LeftBy(s, c, idx)
    requires Outcome(c, idx, s.slots[idx], rc, t, next)
    ensures next <= t.numReady
  {
    OutcomeAhead(c, idx, s.slots[idx], rc, t, next, s.slots[idx]);
  }

  // ----- callbacks that unregister no fd but their own -----

  lemma OwnTurn(s: FdState, c: FdState, idx: nat)
    requires ReadyInv(s) && idx < s.numReady && OwnEffect(s, c, s.slots[idx]) && Clean(s, idx)
    ensures EarlierKept(s, c, idx) && EarlierClean(s, c, idx)
  {
    hide DropReady;
    forall j | 0 <= j < idx ensures c.info[s.slots[j]].fired != NONE && CleanAt(c, s.slots[j]) {
      assert s.slots[j] != s.slots[idx] && CleanAt(s, s.slots[j]);
    }
  }

  lemma OwnDropsNone(s: FdState, c: FdState, idx: nat)
    requires ReadyInv(s) && idx < s.numReady && OwnEffect(s, c, s.slots[idx])
    ensures Gone(Pending(s, idx + 1), c) == []
  {
    hide Gone, Pending, DropReady;
    var p := Pending(s, idx + 1);
    forall k | 0 <= k < |p| ensures InTable(c, p[k].fd) && c.info[p[k].fd].fired != NONE {
      assert p[k].fd == s.slots[idx + 1 + k] && p[k].fd != s.slots[idx];
    }
    GoneNone(p, c);
  }

  /** Then the whole contract holds, and every ready fd is called exactly once. */
  lemma {:induction false} OwnPassCallsAll(s: Loop, idx: nat, oracle: int -> FdScript)
    requires Shaped(s) && Inv(s.fds) && idx <= s.fds.numReady && Clean(s.fds, idx)
    requires ReadyPassContract(s, idx, oracle) && forall fd :: OwnOnly(oracle(fd).ops, fd)
    ensures SparesEarlier(s, idx, oracle) && KeepsClean(s, idx, oracle)
    ensures ReadyPass(s, idx, oracle).dropped == []
    decreases s.fds.numReady - idx
  {
    hide Inv, ReadyStep, EarlierKept, EarlierClean, Exec, LeftBy, Outcome, Clean, Pending, Gone, OwnEffect, OwnOnly;
    hide TailOk;
    if idx < s.fds.numReady {
      var script := oracle(s.fds.slots[idx]);
      InvParts(s.fds);
      ExecOwn(s, script.ops, s.fds.slots[idx]);
      var c := Exec(s, script.ops).fds;
      OwnTurn(s.fds, c, idx);
      OwnDropsNone(s.fds, c, idx);
      TurnOutcome(s, idx, script);
      var (t, next) := ReadyStep(s, idx, script);
      InvParts(t.fds);
      OutcomeInRange(s.fds, c, idx, script.rc, t.fds, next);
      TurnCleans(s.fds, c, idx, script.rc, t.fds, next);
      OwnPassCallsAll(t, next, oracle);
    }
  }

  /** One processReadyFds pass keeps the invariant, calls every fd that was ready exactly once, with the events
      recorded for it when the pass began, and leaves no entry with a recorded event that is not monitored. */
  lemma ReadyPassCorrect(s: Loop, oracle: int -> FdScript)
    requires Shaped(s) && Inv(s.fds)
    requires ReadyPassContract(s, 0, oracle) && forall fd :: OwnOnly(oracle(fd).ops, fd)
    ensures var out := ReadyPass(s, 0, oracle);
      && Inv(out.s.fds)
      && multiset(out.calls) == multiset(Pending(s.fds, 0))
      && Clean(out.s.fds, out.s.fds.numReady)
  {
    hide ReadyPass, ReadyPassContract, SparesEarlier, KeepsClean, Pending;
    assert Clean(s.fds, 0);
    ReadyPassKeepsInv(s, 0, oracle);
    OwnPassCallsAll(s, 0, oracle);
    ReadyPassCallsOnce(s, 0, oracle);
    ReadyPassCleans(s, 0, oracle);
  }

  // ----- the pass with the guard -----

  function GuardedReadyStep(s: Loop, idx: nat, script: FdScript): (r: (Loop, nat))
    requires Shaped(s) && idx < s.fds.numReady
    ensures Shaped(r.0) && SameSize(s, r.0)
    ensures r.0.fds.numReady - r.1 < s.fds.numReady - idx
  {
    GuardedReadyTail(Exec(s, script.ops), idx, s.fds.slots[idx], script.rc)
  }

  function GuardedReadyPass(s: Loop, idx: nat, oracle: int -> FdScript): (r: ReadyOut)
    requires Shaped(s)
    ensures Shaped(r.s) && SameSize(s, r.s)
    decreases s.fds.numReady - idx
  {
    if idx >= s.fds.numReady then ReadyOut(s, [], [])
    else
      var fd := s.fds.slots[idx];
      var (t, next) := GuardedReadyStep(s, idx, oracle(fd));
      var rest := GuardedReadyPass(t, next, oracle);
      ReadyOut(rest.s, [Call(fd, s.fds.info[fd].fired)] + rest.calls, DroppedIn(s, idx, oracle(fd)) + rest.dropped)
  }

  /** The contract that is left: a callback unregisters no fd that the pass is done with, and does not ask for
      events of its own fd when it has unregistered it. */
  ghost predicate GuardedContract(s: Loop, idx: nat, script: FdScript)
    requires Shaped(s) && idx < s.fds.numReady
  {
    var c, fd := Exec(s, script.ops).fds, s.fds.slots[idx];
    && MasksGiven(script.ops) && EarlierKept(s.fds, c, idx)
    && (Guess(c, fd, script.rc) != NONE ==> c.info[fd].fired != NONE)
  }

  ghost predicate GuardedPassContract(s: Loop, idx: nat, oracle: int -> FdScript)
    requires Shaped(s)
    decreases s.fds.numReady - idx
  {
    idx < s.fds.numReady ==>
      var script := oracle(s.fds.slots[idx]);
      GuardedContract(s, idx, script)
      && GuardedPassContract(GuardedReadyStep(s, idx, script).0, GuardedReadyStep(s, idx, script).1, oracle)
  }

  lemma GuardedTurnOutcome(s: Loop, idx: nat, script: FdScript)
    requires Shaped(s) && Inv(s.fds) && idx < s.fds.numReady && GuardedContract(s, idx, script)
    ensures var c := Exec(s, script.ops).fds;
      var (t, next) := GuardedReadyStep(s, idx, script);
      && LeftBy(s.fds, c, idx) && Inv(t.fds) && |t.fds.info| == |s.fds.info|
      && Outcome(c, idx, s.fds.slots[idx], script.rc, t.fds, next)
  {
    ExecLeaves(s, idx, script);
    ExecKeepsInv(s, script.ops);
    GuardedStepKeepsInvIff(s, idx, script);
    hide Exec, KernelInv, EarlierKept, Outcome, MasksGiven, GuardedReadyTail;
    GuardedTailOutcome(s.fds, Exec(s, script.ops), idx, script.rc);
  }

  /** With the guard idx < num_ready_fds_ the pass keeps the invariant and calls every ready fd exactly once,
      or drops it when a callback unregisters it before its turn, also when an fd in the last slot unregisters
      itself. */
  lemma {:induction false} GuardedReadyPassCorrect(s: Loop, idx: nat, oracle: int -> FdScript)
    requires Shaped(s) && Inv(s.fds) && idx <= s.fds.numReady && GuardedPassContract(s, idx, oracle)
    ensures var out := GuardedReadyPass(s, idx, oracle);
      Inv(out.s.fds) && multiset(out.calls) + multiset(out.dropped) == multiset(Pending(s.fds, idx))
    decreases s.fds.numReady - idx
  {
    hide Inv, GuardedReadyStep, GuardedContract, EarlierKept, Exec, Gone, LeftBy, Outcome, Pending;
    if idx < s.fds.numReady {
      var script := oracle(s.fds.slots[idx]);
      GuardedTurnOutcome(s, idx, script);
      var (t, next) := GuardedReadyStep(s, idx, script);
      InvParts(s.fds);
      InvParts(t.fds);
      TurnOwes(s.fds, Exec(s, script.ops).fds, idx, script.rc, t.fds, next);
      GuardedReadyPassCorrect(t, next, oracle);
      var rest := GuardedReadyPass(t, next, oracle);
      PendingHead(s.fds, idx);
      PassSums(Call(s.fds.slots[idx], s.fds.info[s.fds.slots[idx]].fired), Pending(s.fds, idx + 1),
               Pending(t.fds, next), DroppedIn(s, idx, script), rest.calls, rest.dropped);
    } else {
      NothingPending(s.fds);
    }
  }

  // ----- recorded events are not lost -----

  /** No call stops monitoring any of the events b on fd. */
  ghost predicate Spares(ops: seq<Op>, fd: int, b: Mask) {
    forall i :: 0 <= i < |ops| ==>
      && (ops[i].DelFdEvent? && ops[i].fd == fd ==> ops[i].mask.And(b) == NONE)
      && (ops[i].RemoveFdEvent? ==> ops[i].fd != fd)
  }

  lemma ApplyKeepsRecorded(s: Loop, op: Op, fd: int, b: Mask)
    requires Shaped(s) && Recorded(s.fds, fd, b) && Spares([op], fd, b)
    ensures Recorded(Apply(s, op).fds, fd, b)
  {
    assert [op][0] == op;
  }

  lemma {:induction false} ExecKeepsRecorded(s: Loop, ops: seq<Op>, fd: int, b: Mask)
    requires Shaped(s) && Recorded(s.fds, fd, b) && Spares(ops, fd, b)
    ensures Recorded(Exec(s, ops).fds, fd, b)
    decreases |ops|
  {
    if ops != [] {
      ApplyKeepsRecorded(s, ops[0], fd, b);
      ExecKeepsRecorded(Apply(s, ops[0]), ops[1..], fd, b);
    }
  }

  /** A pass never forgets a recorded event, whatever its callbacks return, unless one stops monitoring it. */
  lemma {:induction false} ReadyPassKeepsRecorded(s: Loop, idx: nat, oracle: int -> FdScript, fd: int, b: Mask)
    requires Shaped(s) && Recorded(s.fds, fd, b)
    requires forall g :: Spares(oracle(g).ops, fd, b)
    ensures Recorded(ReadyPass(s, idx, oracle).s.fds, fd, b)
    decreases s.fds.numReady - idx
  {
    if idx < s.fds.numReady {
      var script := oracle(s.fds.slots[idx]);
      ExecKeepsRecorded(s, script.ops, fd, b);
      var (t, next) := ReadyStep(s, idx, script);
      ReadyPassKeepsRecorded(t, next, oracle, fd, b);
    }
  }
}
