/** What goes wrong in processTimeEvents when a callback does not honour its contract. */
module TimerFaults {
  import opened Words
  import opened EventTypes
  import opened Sequences
  import opened Timers
  import opened EventModel
  import opened TimerSteps
  import opened TimerPasses

  // ----- a callback that deletes its own timer -----

  /** The table after the event in slot i deleted itself: the last event is in its place. */
  function WithoutOwn(t: TimerState, i: nat): TimerState
    requires i < t.used <= |t.slots|
  {
    t.(slots := t.slots[i := t.slots[t.used - 1]], used := t.used - 1)
  }

  lemma DeletesOwn(s: Loop, i: nat)
    requires Shaped(s) && DistinctIds(Live(s.timers)) && i < s.timers.used
    ensures Exec(s, [DelTimeEvent(s.timers.slots[i].id)]).timers == WithoutOwn(s.timers, i)
  {
    var id := s.timers.slots[i].id;
    OneOp(s, DelTimeEvent(id));
    forall k | 0 <= k < i ensures Live(s.timers)[k].id != id {
      assert Live(s.timers)[i].id == id;
    }
    IdFound(Live(s.timers), id, i);
  }

  lemma OwnIsGone(t: TimerState, i: nat)
    requires i < t.used <= |t.slots| && DistinctIds(Live(t))
    ensures var c := WithoutOwn(t, i);
      DistinctIds(Live(c)) && t.slots[i] !in Live(c) && t.slots[i].id !in Ids(Live(c))
  {
    var live := Live(t);
    assert Live(WithoutOwn(t, i)) == live[i := live[t.used - 1]][..t.used - 1];
    SwapOutDistinct(live, i);
    assert t.slots[i].id !in Ids(Live(WithoutOwn(t, i)));
  }

  lemma OthersStay(t: TimerState, i: nat)
    requires i < t.used <= |t.slots|
    ensures multiset(Live(WithoutOwn(t, i))) == multiset(Live(t)) - multiset{t.slots[i]}
  {
    var live := Live(t);
    assert Live(WithoutOwn(t, i)) == live[i := live[t.used - 1]][..t.used - 1];
    SwapOut(live, i);
  }

  /** A callback that deletes its own event from slot i and returns rc: the code leaves every other event alone
      if and only if rc is not 0 and slot i was the last (or the last event is due at now + rc in any case). */
  lemma OwnDeleteActsIff(s: Loop, i: nat, now: int, rc: nat)
    requires Shaped(s) && DistinctIds(Live(s.timers)) && i < s.timers.used && s.timers.slots[i].when <= now
    ensures var e := s.timers.slots[i];
      var c := Exec(s, [DelTimeEvent(e.id)]).timers;
      ActsOn(c, TimerTail(c, i, now, rc).0, e, now, rc) <==>
      rc != 0 && (i == s.timers.used - 1 || s.timers.slots[s.timers.used - 1].when == now + rc)
  {
    DeletesOwn(s, i);
    hide ActsOn, TimerTail, Exec, Apply, Live, DistinctIds, WithoutOwn;
    OwnDeleteTailIff(s.timers, i, now, rc);
  }

  lemma OwnDeleteTailIff(t: TimerState, i: nat, now: int, rc: nat)
    requires i < t.used <= |t.slots| && DistinctIds(Live(t)) && t.slots[i].when <= now
    ensures var e, c := t.slots[i], WithoutOwn(t, i);
      ActsOn(c, TimerTail(c, i, now, rc).0, e, now, rc) <==>
      rc != 0 && (i == t.used - 1 || t.slots[t.used - 1].when == now + rc)
  {
    OwnIsGone(t, i);
    hide ActsOn, TimerTail, Ids, DistinctIds;
    TimerTailActsIff(WithoutOwn(t, i), i, t.slots[i], now, rc);
  }

  /** What a turn makes of the table t when the event in slot i deletes itself. Not the last slot: another event,
      which has not fired, is rescheduled or lost. The last slot: rc != 0 is harmless; 0 loses the event in front
      of it or, for a single timer, takes used_time_events_ to -1, from where the next addTimeEvent writes in
      front of the array. */
  ghost predicate OwnDeleteGives(t: TimerState, i: nat, now: int, rc: nat, u: TimerState)
    requires i < t.used <= |t.slots|
  {
    var last, left := t.used - 1, multiset(Live(t)) - multiset{t.slots[i]};
    && |u.slots| == |t.slots|
    && u.used == (if rc != 0 then last else last - 1)
    && (i < last && rc != 0 ==> u.slots[i] == t.slots[last].(when := now + rc))
    && (i < last && rc == 0 ==> multiset(Live(u)) == left - multiset{t.slots[last]})
    && (i == last && rc != 0 ==> multiset(Live(u)) == left)
    && (i == last > 0 && rc == 0 ==> multiset(Live(u)) == left - multiset{t.slots[last - 1]})
  }

  lemma OwnDeleteCases(s: Loop, i: nat, now: int, rc: nat)
    requires Shaped(s) && DistinctIds(Live(s.timers)) && i < s.timers.used
    ensures var script := TimerScript([DelTimeEvent(s.timers.slots[i].id)], rc);
      OwnDeleteGives(s.timers, i, now, rc, TimerStep(s, i, now, script).0.timers)
  {
    DeletesOwn(s, i);
    hide Exec, TimerTail, WithoutOwn, OwnDeleteGives;
    OwnDeleteTailCases(s.timers, i, now, rc);
  }

  lemma OwnDeleteTailCases(t: TimerState, i: nat, now: int, rc: nat)
    requires i < t.used <= |t.slots| && DistinctIds(Live(t))
    ensures OwnDeleteGives(t, i, now, rc, TimerTail(WithoutOwn(t, i), i, now, rc).0)
  {
    OthersStay(t, i);
    var c := WithoutOwn(t, i);
    hide DistinctIds;
    if rc == 0 && c.used > 0 {
      DropTakesOut(c, i, now);
    } else if i >= c.used && rc != 0 {
      assert Live(TimerTail(c, i, now, rc).0) == Live(c);
    }
  }

  // ----- a callback that deletes an event the loop has passed -----

  lemma DeletesEarlier(s: Loop, i: nat, j: nat)
    requires Shaped(s) && DistinctIds(Live(s.timers)) && j < i < s.timers.used - 1
    ensures var c := Exec(s, [DelTimeEvent(s.timers.slots[j].id)]).timers;
      && c.used == s.timers.used - 1 && |c.slots| == |s.timers.slots|
      && c.slots[j] == s.timers.slots[c.used] && c.slots[i] == s.timers.slots[i]
  {
    DeletesOwn(s, j);
  }

  /** Then the last event of the table moves behind the loop: if it was due, the pass leaves it due, even if
      every later callback honours its contract. */
  lemma EarlierDeleteSkipsLast(s: Loop, i: nat, j: nat, now: int, oracle: nat -> TimerScript)
    requires Shaped(s) && DistinctIds(Live(s.timers)) && j < i < s.timers.used - 1
    requires oracle(s.timers.slots[i].id).ops == [DelTimeEvent(s.timers.slots[j].id)]
    requires s.timers.slots[s.timers.used - 1].when <= now
    ensures var (t, next) := TimerStep(s, i, now, oracle(s.timers.slots[i].id));
      && Shaped(t) && j < next <= t.timers.used
      && (TimerPassContract(t, next, now, oracle) ==>
            var u := TimerPass(t, next, now, oracle).s.timers;
            j < u.used && u.slots[j] == s.timers.slots[s.timers.used - 1] && u.slots[j].when <= now)
  {
    var script := oracle(s.timers.slots[i].id);
    DeletesEarlier(s, i, j);
    hide Exec, DistinctIds, TimerPass, TimerPassContract;
    var (t, next) := TimerStep(s, i, now, script);
    assert t.timers.slots[j] == s.timers.slots[s.timers.used - 1];
    if TimerPassContract(t, next, now, oracle) {
      PassedSlotsStay(t, next, now, oracle);
      var u := TimerPass(t, next, now, oracle).s.timers;
      assert u.slots[j] == u.slots[..next][j] == t.timers.slots[..next][j];
    }
  }

  // ----- a callback that adds a timer which is due already -----

  /** A turn leaves fewer due events ahead if and only if its callback added no more due events than it deleted
      ahead of the loop. */
  lemma TurnShrinksIff(s: Loop, i: nat, now: int, script: TimerScript)
    requires Shaped(s) && i < s.timers.used && s.timers.slots[i].when <= now && SparesUpTo(s, i, script.ops)
    ensures var (t, next) := TimerStep(s, i, now, script);
      && Shaped(t) && next <= t.timers.used
      && (DueCount(Rest(t.timers, next), now) < DueCount(Rest(s.timers, i), now) <==>
          DueCount(AddedBy(s, script.ops), now) <= DueCount(DeletedBy(s, script.ops), now))
  {
    TurnDueBalance(s, i, now, script);
  }

  /** So a callback that adds a due timer, when there is room, keeps the pass going: the new event will fire in
      the same pass, and as many events are due ahead as before. */
  lemma DueAddStalls(s: Loop, i: nat, now: int, op: Op, rc: nat)
    requires Shaped(s) && i < s.timers.used < |s.timers.slots| && s.timers.slots[i].when <= now
    requires op.AddTimeEvent? && op.clock + op.msLater <= now
    ensures var (t, next) := TimerStep(s, i, now, TimerScript([op], rc));
      && Shaped(t) && next < t.timers.used
      && TimeEvent(NextId(s.timers), op.clock + op.msLater, op.proc, op.data) in Rest(t.timers, next)
      && DueCount(Rest(t.timers, next), now) == DueCount(Rest(s.timers, i), now)
  {
    var script := TimerScript([op], rc);
    var e := TimeEvent(NextId(s.timers), op.clock + op.msLater, op.proc, op.data);
    OneCall(s, op, i);
    TurnDueBalance(s, i, now, script);
    TurnFacts(s, i, now, script);
    var (t, next) := TimerStep(s, i, now, script);
    hide TimerStep, Rest;
    assert DueCount([e], now) == 1 && DueCount([], now) == 0;
    assert e in multiset(Rest(s.timers, i + 1)) + multiset([e]);
    assert multiset(DeletedBy(s, script.ops)) == multiset{};
    assert e in multiset(Rest(t.timers, next));
  }

  lemma OneCall(s: Loop, op: Op, i: nat)
    requires Shaped(s) && op.AddTimeEvent?
    ensures SparesUpTo(s, i, [op]) && AddedBy(s, [op]) == AddedOne(s, op) && DeletedBy(s, [op]) == []
  {
    var t := Apply(s, op);
    assert [op][1..] == [] && AddedBy(t, []) == [] && DeletedBy(t, []) == [] && SparesUpTo(t, i, []);
  }
}
