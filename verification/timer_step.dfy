/** One turn of the loop in AsyncEvent::processTimeEvents: what the callback may do to the timer table, and
    what the code does to slot i afterwards. */
module TimerSteps {
  import opened Words
  import opened EventTypes
  import opened FdTable
  import opened Sequences
  import opened Timers
  import opened EventModel

  /** What becomes of an event whose callback returned rc. */
  function Rescheduled(e: TimeEvent, now: int, rc: nat): seq<TimeEvent> {
    if rc == 0 then [] else [e.(when := now + rc)]
  }

  /** What processTimeEvents does after proc_ returned rc: slot i is rescheduled, or reused by the last event.
      With no timer left the C code reads slot -1 here; the model leaves the slots as they are. */
  function TimerTail(c: TimerState, i: nat, now: int, rc: nat): (TimerState, nat)
    requires 0 <= c.used <= |c.slots| && i < |c.slots|
  {
    if rc != 0 then (c.(slots := c.slots[i := c.slots[i].(when := now + rc)]), i + 1)
    else
      (c.(slots := if c.used > 0 then c.slots[i := c.slots[c.used - 1]] else c.slots, used := c.used - 1), i)
  }

  /** The events in front of slot i. */
  function Done(t: TimerState, i: nat): seq<TimeEvent>
    requires i <= t.used <= |t.slots|
  {
    t.slots[..i]
  }

  /** The events from slot i on. */
  function Rest(t: TimerState, i: nat): (rest: seq<TimeEvent>)
    requires i <= t.used <= |t.slots|
    ensures |rest| == t.used - i
  {
    t.slots[i..t.used]
  }

  // ----- when the code acts on the right event -----

  /** Between c and u only the fired event e was acted on: if still live it is rescheduled or gone, if its
      callback deleted it nothing changed. */
  ghost predicate ActsOn(c: TimerState, u: TimerState, e: TimeEvent, now: int, rc: nat)
    requires 0 <= c.used <= |c.slots|
  {
    && 0 <= u.used <= |u.slots|
    && multiset(Live(u)) == if e in Live(c) then multiset(Live(c)) - multiset{e} + multiset(Rescheduled(e, now, rc))
                            else multiset(Live(c))
  }

  /** The condition on the table that the callback left. */
  predicate FindsEvent(c: TimerState, i: nat, e: TimeEvent, now: int, rc: nat)
    requires 0 <= c.used <= |c.slots| && i < |c.slots|
  {
    if e in Live(c) then
      if i < c.used then c.slots[i] == e else rc == 0 && c.slots[c.used - 1] == e
    else
      rc != 0 && (i < c.used ==> c.slots[i].when == now + rc)
  }

  lemma Replaced<T>(list: seq<T>, i: nat, x: T)
    requires i < |list|
    ensures multiset(list[i := x]) == multiset(list) - multiset{list[i]} + multiset{x}
  {
    assert list == list[..i] + ([list[i]] + list[i + 1..]);
    assert list[i := x] == list[..i] + ([x] + list[i + 1..]);
  }

  lemma DistinctOnce(events: seq<TimeEvent>, k: nat)
    requires DistinctIds(events) && k < |events|
    ensures multiset(events)[events[k]] == 1
  {
    var before, after := events[..k], events[k + 1..];
    assert events == before + ([events[k]] + after);
    assert events[k] !in before && events[k] !in after;
  }

  /** Rescheduling slot i. */
  lemma RescheduleActsIff(c: TimerState, i: nat, e: TimeEvent, now: int, rc: nat)
    requires 0 <= c.used <= |c.slots| && i < |c.slots| && DistinctIds(Live(c)) && e.when <= now && rc != 0
    requires e.id in Ids(Live(c)) ==> e in Live(c)
    ensures ActsOn(c, TimerTail(c, i, now, rc).0, e, now, rc) <==> FindsEvent(c, i, e, now, rc)
  {
    var live, u := Live(c), TimerTail(c, i, now, rc).0;
    var later := e.(when := now + rc);
    if e in live {
      assert e in multiset(live);
      assert later.id == e.id;
    }
    if i < c.used {
      var x := live[i];
      var y := x.(when := now + rc);
      assert Live(u) == live[i := y];
      Replaced(live, i, y);
      DistinctOnce(live, i);
      if e in live {
        assert x != e ==> multiset(Live(u))[e] == multiset(live)[e];
        var k :| 0 <= k < |live| && live[k] == e;
        DistinctOnce(live, k);
      } else {
        assert y != x ==> multiset(Live(u))[x] == 0;
      }
    } else {
      assert Live(u) == live;
      if e in live {
        var k :| 0 <= k < |live| && live[k] == e;
        DistinctOnce(live, k);
      }
    }
  }

  lemma TakenOut<T>(m: multiset<T>, x: T, e: T)
    requires x in m
    ensures m - multiset{x} == (if e in m then m - multiset{e} else m) <==> e == x
  {
    assert (m - multiset{x})[x] == m[x] - 1;
    assert e != x ==> (m - multiset{e})[x] == m[x];
  }

  /** Dropping slot i takes the event there out, or the last one. */
  lemma DropTakesOut(c: TimerState, i: nat, now: int)
    requires 0 < c.used <= |c.slots| && i < |c.slots|
    ensures var u := TimerTail(c, i, now, 0).0;
      && u.used == c.used - 1 && |u.slots| == |c.slots|
      && multiset(Live(u)) == multiset(Live(c)) - multiset{c.slots[if i < c.used then i else c.used - 1]}
  {
    SwapOutOf(c.slots, c.used, i);
  }

  /** Dropping slot i. */
  lemma DropActsIff(c: TimerState, i: nat, e: TimeEvent, now: int)
    requires 0 <= c.used <= |c.slots| && i < |c.slots|
    ensures ActsOn(c, TimerTail(c, i, now, 0).0, e, now, 0) <==> FindsEvent(c, i, e, now, 0)
  {
    if c.used > 0 {
      DropTakesOut(c, i, now);
      hide TimerTail;
      var k := if i < c.used then i else c.used - 1;
      assert Live(c)[k] == c.slots[k];
      assert c.slots[k] in multiset(Live(c));
      TakenOut(multiset(Live(c)), c.slots[k], e);
    }
  }

  /** After the callback of e, called from slot i, left the table c, the code acts on e and on nothing else if
      and only if: e is live and in slot i, or slot i is dead, rc is 0 and e is the last live event; or e was
      deleted, rc is not 0, and slot i is dead (or holds an event due at now + rc in any case). */
  lemma TimerTailActsIff(c: TimerState, i: nat, e: TimeEvent, now: int, rc: nat)
    requires 0 <= c.used <= |c.slots| && i < |c.slots| && DistinctIds(Live(c)) && e.when <= now
    requires e.id in Ids(Live(c)) ==> e in Live(c)
    ensures ActsOn(c, TimerTail(c, i, now, rc).0, e, now, rc) <==> FindsEvent(c, i, e, now, rc)
  {
    if rc != 0 {
      RescheduleActsIff(c, i, e, now, rc);
    } else {
      DropActsIff(c, i, e, now);
    }
  }

  // ----- what a callback does to the table -----

  /** The event a call adds, or none. */
  function AddedOne(s: Loop, op: Op): seq<TimeEvent>
    requires Shaped(s)
  {
    if op.AddTimeEvent? && s.timers.used < |s.timers.slots| then
      [TimeEvent(NextId(s.timers), op.clock + op.msLater, op.proc, op.data)]
    else []
  }

  /** The slot of the event a call deletes, or -1. */
  function DeletedSlot(s: Loop, op: Op): (k: int)
    requires Shaped(s)
    ensures -1 <= k < s.timers.used
  {
    if op.DelTimeEvent? then IndexOfId(Live(s.timers), op.id) else -1
  }

  function DeletedOne(s: Loop, op: Op): seq<TimeEvent>
    requires Shaped(s)
  {
    var k := DeletedSlot(s, op);
    if k < 0 then [] else [s.timers.slots[k]]
  }

  /** The events a callback adds, and those it deletes. */
  function AddedBy(s: Loop, ops: seq<Op>): seq<TimeEvent>
    requires Shaped(s)
    decreases |ops|
  {
    if ops == [] then [] else AddedOne(s, ops[0]) + AddedBy(Apply(s, ops[0]), ops[1..])
  }

  function DeletedBy(s: Loop, ops: seq<Op>): seq<TimeEvent>
    requires Shaped(s)
    decreases |ops|
  {
    if ops == [] then [] else DeletedOne(s, ops[0]) + DeletedBy(Apply(s, ops[0]), ops[1..])
  }

  /** No call deletes an event that is at slot i or in front of it when the call is made. */
  predicate SparesUpTo(s: Loop, i: nat, ops: seq<Op>)
    requires Shaped(s)
    decreases |ops|
  {
    ops != [] ==> !(0 <= DeletedSlot(s, ops[0]) <= i) && SparesUpTo(Apply(s, ops[0]), i, ops[1..])
  }

  /** The slots up to i are live and as they were. */
  predicate PrefixKept(s: TimerState, c: TimerState, i: nat)
    requires i < s.used <= |s.slots|
  {
    i < c.used <= |c.slots| && c.slots[..i + 1] == s.slots[..i + 1]
  }

  lemma AddBalance(t: TimerState, msLater: nat, proc: nat, data: nat, clock: int, i: nat)
    requires i < t.used < |t.slots|
    ensures var c := AddTimer(t, msLater, proc, data, clock).0;
      && PrefixKept(t, c, i)
      && Rest(c, i + 1) == Rest(t, i + 1) + [TimeEvent(NextId(t), clock + msLater, proc, data)]
  {}

  lemma DelBalance(t: TimerState, id: nat, i: nat)
    requires i < t.used <= |t.slots| && IndexOfId(Live(t), id) > i
    ensures var c := DelTimer(t, id).0;
      && PrefixKept(t, c, i)
      && multiset(Rest(c, i + 1)) + multiset([t.slots[IndexOfId(Live(t), id)]]) == multiset(Rest(t, i + 1))
  {
    var c := DelTimer(t, id).0;
    var k := IndexOfId(Live(t), id) - (i + 1);
    var rest := Rest(t, i + 1);
    hide Live, IndexOfId;
    var out := rest[k := rest[|rest| - 1]][..|rest| - 1];
    forall n | 0 <= n < |out| ensures Rest(c, i + 1)[n] == out[n] {
      assert Rest(c, i + 1)[n] == c.slots[i + 1 + n];
    }
    assert Rest(c, i + 1) == out;
    SwapOut(rest, k);
    assert rest[k] in multiset(rest);
  }

  lemma ApplyBalance(s: Loop, op: Op, i: nat)
    requires Shaped(s) && i < s.timers.used && !(0 <= DeletedSlot(s, op) <= i)
    ensures var c := Apply(s, op).timers;
      && PrefixKept(s.timers, c, i)
      && multiset(Rest(c, i + 1)) + multiset(DeletedOne(s, op))
         == multiset(Rest(s.timers, i + 1)) + multiset(AddedOne(s, op))
  {
    hide Rest, IndexOfId, PrefixKept, AddFd, DelFd, RemoveFd, AddTimer, DelTimer;
    if op.AddTimeEvent? && s.timers.used < |s.timers.slots| {
      AddBalance(s.timers, op.msLater, op.proc, op.data, op.clock, i);
    } else if op.DelTimeEvent? && DeletedSlot(s, op) >= 0 {
      DelBalance(s.timers, op.id, i);
    } else {
      NoTimerTouched(s, op);
      PrefixUntouched(s.timers, i);
    }
  }

  lemma PrefixUntouched(t: TimerState, i: nat)
    requires i < t.used <= |t.slots|
    ensures PrefixKept(t, t, i)
  {}

  lemma NoTimerTouched(s: Loop, op: Op)
    requires Shaped(s)
    requires op.AddTimeEvent? ==> s.timers.used == |s.timers.slots|
    requires op.DelTimeEvent? ==> DeletedSlot(s, op) < 0
    ensures Apply(s, op).timers == s.timers
  {
    hide AddFd, DelFd, RemoveFd;
  }

  /** A callback that spares everything up to slot i leaves those slots alone; behind them, what it added has
      joined and what it deleted has left. */
  lemma {:induction false} ExecBalance(s: Loop, ops: seq<Op>, i: nat)
    requires Shaped(s) && i < s.timers.used && SparesUpTo(s, i, ops)
    ensures var c := Exec(s, ops).timers;
      && PrefixKept(s.timers, c, i)
      && multiset(Rest(c, i + 1)) + multiset(DeletedBy(s, ops))
         == multiset(Rest(s.timers, i + 1)) + multiset(AddedBy(s, ops))
    decreases |ops|
  {
    if ops != [] {
      hide Rest, Apply, DeletedOne, AddedOne, DeletedSlot;
      ApplyBalance(s, ops[0], i);
      var t := Apply(s, ops[0]);
      ExecBalance(t, ops[1..], i);
      ChainBalance(Rest(s.timers, i + 1), Rest(t.timers, i + 1), Rest(Exec(s, ops).timers, i + 1),
                   DeletedOne(s, ops[0]), AddedOne(s, ops[0]), DeletedBy(t, ops[1..]), AddedBy(t, ops[1..]));
    }
  }

  /** An effective deletion at or in front of slot i cannot be made good: ids are not reused. */
  lemma HitBreaksPrefix(s: Loop, ops: seq<Op>, i: nat)
    requires Shaped(s) && TimerInv(s.timers) && i < s.timers.used && ops != []
    requires 0 <= DeletedSlot(s, ops[0]) <= i
    requires Exec(s, ops).timers.issued < TWO_TO_THE_64
    ensures !PrefixKept(s.timers, Exec(s, ops).timers, i)
  {
    var k := DeletedSlot(s, ops[0]);
    var id := s.timers.slots[k].id;
    var t, c := Apply(s, ops[0]), Exec(s, ops).timers;
    IssuedGrows(s, ops);
    assert t.timers == DelTimer(s.timers, ops[0].id).0;
    hide Apply;
    DelTimerExact(s.timers, ops[0].id);
    DelTimerKeepsInv(s.timers, ops[0].id);
    ExecKeepsTimerInv(t, ops[1..]);
    DeadBreaksPrefix(s.timers, t.timers, c, i, k);
  }

  lemma IssuedGrows(s: Loop, ops: seq<Op>)
    requires Shaped(s) && TimerInv(s.timers)
    ensures s.timers.issued <= Exec(s, ops).timers.issued
  {
    ExecKeepsTimerInv(s, ops);
  }

  lemma DeadBreaksPrefix(s: TimerState, t: TimerState, c: TimerState, i: nat, k: nat)
    requires k <= i < s.used <= |s.slots| && TimerInv(s) && NoneRevived(t, c) && c.issued < TWO_TO_THE_64
    requires t.issued == s.issued && s.slots[k].id !in Ids(Live(t))
    ensures !PrefixKept(s, c, i)
  {
    if PrefixKept(s, c, i) {
      SlotKept(s, c, i, k);
    }
  }

  lemma SlotKept(s: TimerState, c: TimerState, i: nat, k: nat)
    requires k <= i < s.used <= |s.slots| && PrefixKept(s, c, i)
    ensures k < c.used && c.slots[k] == s.slots[k]
  {
    assert c.slots[..i + 1][k] == s.slots[..i + 1][k];
  }

  /** Until the id counter wraps, the slots up to i are live and unchanged after a callback if and only if none
      of its calls deleted an event at slot i or in front of it. */
  lemma {:induction false} PrefixKeptIff(s: Loop, ops: seq<Op>, i: nat)
    requires Shaped(s) && TimerInv(s.timers) && i < s.timers.used
    requires Exec(s, ops).timers.issued < TWO_TO_THE_64
    ensures PrefixKept(s.timers, Exec(s, ops).timers, i) <==> SparesUpTo(s, i, ops)
    decreases |ops|
  {
    if ops != [] {
      hide Apply;
      if 0 <= DeletedSlot(s, ops[0]) <= i {
        HitBreaksPrefix(s, ops, i);
      } else {
        ApplyBalance(s, ops[0], i);
        ExecKeepsTimerInv(s, ops[..1]);
        OneOp(s, ops[0]);
        assert ops[..1] == [ops[0]];
        PrefixKeptIff(Apply(s, ops[0]), ops[1..], i);
      }
    }
  }

  /** An event that is live after a callback was live before or is new. */
  lemma {:induction false} ExecKeepsEvents(s: Loop, ops: seq<Op>, x: TimeEvent)
    requires Shaped(s) && TimerInv(s.timers) && Exec(s, ops).timers.issued < TWO_TO_THE_64
    requires x in Live(Exec(s, ops).timers)
    ensures x in Live(s.timers) || x.id > s.timers.issued
    decreases |ops|
  {
    if ops != [] {
      var t := Apply(s, ops[0]);
      OneOp(s, ops[0]);
      ExecKeepsTimerInv(s, [ops[0]]);
      ExecKeepsTimerInv(t, ops[1..]);
      ExecKeepsEvents(t, ops[1..], x);
      if x in Live(t.timers) {
        ApplyKeepsEvents(s, ops[0], x);
      }
    }
  }

  lemma ApplyKeepsEvents(s: Loop, op: Op, x: TimeEvent)
    requires Shaped(s) && TimerInv(s.timers) && Apply(s, op).timers.issued < TWO_TO_THE_64
    requires x in Live(Apply(s, op).timers)
    ensures x in Live(s.timers) || x.id > s.timers.issued
  {
    var c := Apply(s, op).timers;
    var k :| 0 <= k < c.used && Live(c)[k] == x;
    if op.AddTimeEvent? && k < s.timers.used {
      assert Live(s.timers)[k] == x;
    } else if op.DelTimeEvent? {
      var at := IndexOfId(Live(s.timers), op.id);
      assert x == Live(s.timers)[if k == at then s.timers.used - 1 else k];
    }
  }

  /** The turn of the loop for the due event in slot i, whatever its callback does: the code acts on that event
      and on nothing else if and only if the table meets FindsEvent when the callback returns. */
  lemma TimerTurnActsIff(s: Loop, i: nat, now: int, script: TimerScript)
    requires Shaped(s) && TimerInv(s.timers) && i < s.timers.used && s.timers.slots[i].when <= now
    requires Exec(s, script.ops).timers.issued < TWO_TO_THE_64
    ensures var c := Exec(s, script.ops).timers;
      var e := s.timers.slots[i];
      ActsOn(c, TimerTail(c, i, now, script.rc).0, e, now, script.rc) <==> FindsEvent(c, i, e, now, script.rc)
  {
    var c := Exec(s, script.ops).timers;
    SameEventIfLive(s, script.ops, i);
    hide ActsOn, FindsEvent, Ids, TimerTail;
    TimerTailActsIff(c, i, s.timers.slots[i], now, script.rc);
  }

  /** After a callback the table is in order, and holds under the id of slot i the event that was there. */
  lemma SameEventIfLive(s: Loop, ops: seq<Op>, i: nat)
    requires Shaped(s) && TimerInv(s.timers) && i < s.timers.used && Exec(s, ops).timers.issued < TWO_TO_THE_64
    ensures var c := Exec(s, ops).timers;
      DistinctIds(Live(c)) && (s.timers.slots[i].id in Ids(Live(c)) ==> s.timers.slots[i] in Live(c))
  {
    hide Exec;
    var c := Exec(s, ops).timers;
    var e := s.timers.slots[i];
    assert e == Live(s.timers)[i];
    ExecKeepsTimerInv(s, ops);
    if e.id in Ids(Live(c)) {
      var x :| x in Live(c) && x.id == e.id;
      ExecKeepsEvents(s, ops, x);
      var k :| 0 <= k < s.timers.used && Live(s.timers)[k] == x;
      assert k == i;
    }
  }
}
