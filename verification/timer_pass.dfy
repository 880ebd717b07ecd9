/** AsyncEvent::processTimeEvents: firing due timers while the table is edited under the loop. */
module TimerPasses {
  import opened Words
  import opened EventTypes
  import opened FdTable
  import opened Sequences
  import opened Timers
  import opened EventModel
  import opened TimerSteps

  // ----- the specification: a filter and map over the events the loop meets -----

  datatype Swept = Swept(stay: seq<TimeEvent>, fired: seq<TimeEvent>)

  /** Each event due at `now` fires once and is rescheduled to now + rc, or dropped when its callback
      returned 0; the others stay as they are. `oracle` says what the callback of each timer id does. */
  function Sweep(events: seq<TimeEvent>, now: int, oracle: nat -> TimerScript): Swept {
    if events == [] then Swept([], [])
    else
      var rest := Sweep(events[1..], now, oracle);
      Swept(Kept(events[0], now, oracle) + rest.stay, FiredOf(events[0], now) + rest.fired)
  }

  function Kept(e: TimeEvent, now: int, oracle: nat -> TimerScript): seq<TimeEvent> {
    if e.when > now then [e] else Rescheduled(e, now, oracle(e.id).rc)
  }

  function FiredOf(e: TimeEvent, now: int): seq<TimeEvent> {
    if e.when > now then [] else [e]
  }

  /** 1 for an event that is x and not due, or was due and becomes x when it is moved to now plus its callback's
      result, unless that is 0. */
  function StaysAs(x: TimeEvent, now: int, oracle: nat -> TimerScript): TimeEvent -> nat {
    (e: TimeEvent) =>
      if e.when > now then (if e == x then 1 else 0)
      else if oracle(e.id).rc != 0 && e.(when := now + oracle(e.id).rc) == x then 1
      else 0
  }

  /** What stays is that, for every event met. */
  lemma {:induction false} SweepStaysCount(events: seq<TimeEvent>, now: int, oracle: nat -> TimerScript, x: TimeEvent)
    ensures multiset(Sweep(events, now, oracle).stay)[x] == Total(events, StaysAs(x, now, oracle))
  {
    if events != [] {
      SweepStaysCount(events[1..], now, oracle, x);
      var kept, rest := Kept(events[0], now, oracle), Sweep(events[1..], now, oracle).stay;
      assert multiset(kept)[x] == StaysAs(x, now, oracle)(events[0]);
      hide Kept;
      assert multiset(kept + rest) == multiset(kept) + multiset(rest);
    }
  }

  /** An event fires as often as it is met if it is due, and not at all otherwise. */
  lemma {:induction false} SweepFiresDue(events: seq<TimeEvent>, now: int, oracle: nat -> TimerScript, e: TimeEvent)
    ensures multiset(Sweep(events, now, oracle).fired)[e] == if e.when <= now then multiset(events)[e] else 0
  {
    if events != [] {
      assert events == [events[0]] + events[1..];
      SweepFiresDue(events[1..], now, oracle, e);
    }
  }

  /** The order in which the table holds the events does not matter. */
  lemma SweepPermutes(a: seq<TimeEvent>, b: seq<TimeEvent>, now: int, oracle: nat -> TimerScript)
    requires multiset(a) == multiset(b)
    ensures multiset(Sweep(a, now, oracle).stay) == multiset(Sweep(b, now, oracle).stay)
    ensures multiset(Sweep(a, now, oracle).fired) == multiset(Sweep(b, now, oracle).fired)
  {
    hide Sweep;
    forall x: TimeEvent
      ensures multiset(Sweep(a, now, oracle).stay)[x] == multiset(Sweep(b, now, oracle).stay)[x]
      ensures multiset(Sweep(a, now, oracle).fired)[x] == multiset(Sweep(b, now, oracle).fired)[x]
    {
      SweepStaysCount(a, now, oracle, x);
      SweepStaysCount(b, now, oracle, x);
      TotalPermutes(a, b, StaysAs(x, now, oracle));
      SweepFiresDue(a, now, oracle, x);
      SweepFiresDue(b, now, oracle, x);
    }
  }

  lemma {:induction false} SweepConcat(a: seq<TimeEvent>, b: seq<TimeEvent>, now: int, oracle: nat -> TimerScript)
    ensures Sweep(a + b, now, oracle).stay == Sweep(a, now, oracle).stay + Sweep(b, now, oracle).stay
    ensures Sweep(a + b, now, oracle).fired == Sweep(a, now, oracle).fired + Sweep(b, now, oracle).fired
  {
    if a == [] {
      assert a + b == b;
    } else {
      assert (a + b)[1..] == a[1..] + b;
      SweepConcat(a[1..], b, now, oracle);
      Assoc(Kept(a[0], now, oracle), Sweep(a[1..], now, oracle).stay, Sweep(b, now, oracle).stay);
      Assoc(FiredOf(a[0], now), Sweep(a[1..], now, oracle).fired, Sweep(b, now, oracle).fired);
    }
  }

  lemma {:induction false} SweepIdle(events: seq<TimeEvent>, now: int, oracle: nat -> TimerScript)
    requires forall i :: 0 <= i < |events| ==> events[i].when > now
    ensures Sweep(events, now, oracle) == Swept(events, [])
  {
    if events != [] {
      SweepIdle(events[1..], now, oracle);
    }
  }

  // ----- what the source asks of a timer callback -----

  /** The timers it adds are not due in this pass. */
  predicate AddsLater(ops: seq<Op>, now: int) {
    forall i :: 0 <= i < |ops| && ops[i].AddTimeEvent? ==> ops[i].clock + ops[i].msLater > now
  }

  /** A callback called from slot i may delete events that the loop has still to meet, not its own and not
      one in front of it, and may add timers for later. */
  predicate TurnContract(s: Loop, i: nat, now: int, script: TimerScript)
    requires Shaped(s)
  {
    SparesUpTo(s, i, script.ops) && AddsLater(script.ops, now)
  }

  // ----- one turn -----

  /** One turn of the loop in processTimeEvents for the event in slot i. */
  function TimerStep(s: Loop, i: nat, now: int, script: TimerScript): (r: (Loop, nat))
    requires Shaped(s) && i < s.timers.used
    ensures SameSize(s, r.0)
  {
    var c := Exec(s, script.ops);
    var (t, next) := TimerTail(c.timers, i, now, script.rc);
    (c.(timers := t), next)
  }

  lemma TailFacts(s: TimerState, c: TimerState, i: nat, now: int, rc: nat)
    requires i < s.used <= |s.slots| && PrefixKept(s, c, i)
    ensures var (t, next) := TimerTail(c, i, now, rc);
      && next <= t.used <= |t.slots| == |c.slots|
      && Done(t, next) == Done(s, i) + Rescheduled(s.slots[i], now, rc)
      && multiset(Rest(t, next)) == multiset(Rest(c, i + 1))
  {
    SlotKept(s, c, i, i);
    var (t, next) := TimerTail(c, i, now, rc);
    assert c.slots[..i] == c.slots[..i + 1][..i] == s.slots[..i + 1][..i] == s.slots[..i];
    if rc == 0 {
      var all := Rest(c, i);
      assert Rest(t, i) == all[0 := all[|all| - 1]][..|all| - 1];
      SwapOut(all, 0);
      assert all == [all[0]] + Rest(c, i + 1);
    } else {
      assert Rest(t, i + 1) == Rest(c, i + 1);
    }
  }

  /** After a turn whose callback spared everything up to slot i: the fired event is behind the loop, or gone;
      ahead of it, what the callback added has joined the rest and what it deleted has left. */
  lemma TurnFacts(s: Loop, i: nat, now: int, script: TimerScript)
    requires Shaped(s) && i < s.timers.used && SparesUpTo(s, i, script.ops)
    ensures var (t, next) := TimerStep(s, i, now, script);
      && Shaped(t) && next <= t.timers.used
      && Done(t.timers, next) == Done(s.timers, i) + Rescheduled(s.timers.slots[i], now, script.rc)
      && multiset(Rest(t.timers, next)) + multiset(DeletedBy(s, script.ops))
         == multiset(Rest(s.timers, i + 1)) + multiset(AddedBy(s, script.ops))
  {
    ExecBalance(s, script.ops, i);
    TailFacts(s.timers, Exec(s, script.ops).timers, i, now, script.rc);
  }

  // ----- how many events are due -----

  function DueAt(now: int): TimeEvent -> nat {
    (e: TimeEvent) => if e.when <= now then 1 else 0
  }

  function DueCount(events: seq<TimeEvent>, now: int): nat {
    Total(events, DueAt(now))
  }

  lemma {:induction false} NoneDue(events: seq<TimeEvent>, now: int)
    requires forall k :: 0 <= k < |events| ==> events[k].when > now
    ensures DueCount(events, now) == 0
  {
    if events != [] {
      NoneDue(events[1..], now);
    }
  }

  lemma RestCons(t: TimerState, i: nat)
    requires i < t.used <= |t.slots|
    ensures Rest(t, i) == [t.slots[i]] + Rest(t, i + 1)
    ensures Rest(t, i)[0] == t.slots[i] && Rest(t, i)[1..] == Rest(t, i + 1)
    ensures Done(t, i + 1) == Done(t, i) + [t.slots[i]]
  {}

  lemma DueAhead(t: TimerState, i: nat, now: int)
    requires i < t.used <= |t.slots|
    ensures DueCount(Rest(t, i), now) == DueAt(now)(t.slots[i]) + DueCount(Rest(t, i + 1), now)
  {
    RestCons(t, i);
  }

  /** A turn for a due event takes it off the due events ahead, adds the due events that the callback added and
      takes off those it deleted. */
  lemma TurnDueBalance(s: Loop, i: nat, now: int, script: TimerScript)
    requires Shaped(s) && i < s.timers.used && s.timers.slots[i].when <= now && SparesUpTo(s, i, script.ops)
    ensures var (t, next) := TimerStep(s, i, now, script);
      && Shaped(t) && next <= t.timers.used
      && DueCount(Rest(t.timers, next), now) + DueCount(DeletedBy(s, script.ops), now) + 1
         == DueCount(Rest(s.timers, i), now) + DueCount(AddedBy(s, script.ops), now)
  {
    TurnFacts(s, i, now, script);
    DueAhead(s.timers, i, now);
    hide Rest, TimerStep;
    var (t, next) := TimerStep(s, i, now, script);
    var a, b := Rest(t.timers, next), Rest(s.timers, i + 1);
    var deleted, added := DeletedBy(s, script.ops), AddedBy(s, script.ops);
    assert multiset(a + deleted) == multiset(b + added);
    TotalPermutes(a + deleted, b + added, DueAt(now));
    TotalConcat(a, deleted, DueAt(now));
    TotalConcat(b, added, DueAt(now));
  }

  lemma {:induction false} AddedByIsLater(s: Loop, ops: seq<Op>, now: int)
    requires Shaped(s) && AddsLater(ops, now)
    ensures forall k :: 0 <= k < |AddedBy(s, ops)| ==> AddedBy(s, ops)[k].when > now
    decreases |ops|
  {
    if ops != [] {
      AddedByIsLater(Apply(s, ops[0]), ops[1..], now);
    }
  }

  /** Under the contract every firing leaves fewer due events ahead. */
  lemma TimerStepShrinks(s: Loop, i: nat, now: int, script: TimerScript)
    requires Shaped(s) && i < s.timers.used && s.timers.slots[i].when <= now && TurnContract(s, i, now, script)
    ensures var (t, next) := TimerStep(s, i, now, script);
      && Shaped(t) && next <= t.timers.used
      && DueCount(Rest(t.timers, next), now) < DueCount(Rest(s.timers, i), now)
  {
    TurnDueBalance(s, i, now, script);
    AddedByIsLater(s, script.ops, now);
    NoneDue(AddedBy(s, script.ops), now);
  }

  // ----- the pass -----

  /** Every callback that the pass calls from slot i on honours the contract. */
  ghost predicate TimerPassContract(s: Loop, i: nat, now: int, oracle: nat -> TimerScript)
    requires Shaped(s) && i <= s.timers.used
    decreases DueCount(Rest(s.timers, i), now), s.timers.used - i
  {
    i < s.timers.used ==>
      var e := s.timers.slots[i];
      if e.when > now then
        DueAhead(s.timers, i, now);
        TimerPassContract(s, i + 1, now, oracle)
      else
        TurnContract(s, i, now, oracle(e.id)) &&
        (TimerStepShrinks(s, i, now, oracle(e.id));
         var (t, next) := TimerStep(s, i, now, oracle(e.id));
         TimerPassContract(t, next, now, oracle))
  }

  /** The final state; the events that fired and all events the loop met, in order; what callbacks added and
      what they deleted. */
  datatype TimerOut = TimerOut(
    s: Loop, fired: seq<TimeEvent>, met: seq<TimeEvent>, added: seq<TimeEvent>, deleted: seq<TimeEvent>)

  /** processTimeEvents from slot i on. The number of fired events is the C function's return value. The
      measure shows that the loop ends although callbacks make the table grow. */
  function TimerPass(s: Loop, i: nat, now: int, oracle: nat -> TimerScript): (r: TimerOut)
    requires Shaped(s) && i <= s.timers.used && TimerPassContract(s, i, now, oracle)
    ensures Shaped(r.s) && SameSize(s, r.s)
    decreases DueCount(Rest(s.timers, i), now), s.timers.used - i
  {
    if i == s.timers.used then TimerOut(s, [], [], [], [])
    else
      var e := s.timers.slots[i];
      if e.when > now then
        DueAhead(s.timers, i, now);
        var rest := TimerPass(s, i + 1, now, oracle);
        rest.(met := [e] + rest.met)
      else
        var ops := oracle(e.id).ops;
        TimerStepShrinks(s, i, now, oracle(e.id));
        var (t, next) := TimerStep(s, i, now, oracle(e.id));
        var rest := TimerPass(t, next, now, oracle);
        TimerOut(rest.s, [e] + rest.fired, [e] + rest.met, AddedBy(s, ops) + rest.added,
                 DeletedBy(s, ops) + rest.deleted)
  }

  // ----- the pass refines the specification -----

  /** With `done` behind the loop and `ahead` in front of it, the loop met everything that was ahead or was
      added, except what was deleted first; what it met it treated as Sweep specifies, and nothing is due
      afterwards. */
  ghost predicate Refines(done: seq<TimeEvent>, ahead: seq<TimeEvent>, now: int, oracle: nat -> TimerScript,
                          out: TimerOut)
  {
    var u := out.s.timers;
    var spec := Sweep(out.met, now, oracle);
    && 0 <= u.used <= |u.slots|
    && multiset(out.met) + multiset(out.deleted) == multiset(ahead) + multiset(out.added)
    && out.fired == spec.fired
    && multiset(Live(u)) == multiset(done) + multiset(spec.stay)
    && (forall k :: 0 <= k < u.used ==> u.slots[k].when > now)
    && (forall k :: 0 <= k < |out.added| ==> out.added[k].when > now)
  }

  lemma RefineEnd(s: Loop, now: int, oracle: nat -> TimerScript)
    requires Shaped(s) && forall k :: 0 <= k < s.timers.used ==> s.timers.slots[k].when > now
    ensures Refines(Live(s.timers), [], now, oracle, TimerOut(s, [], [], [], []))
  {}

  lemma SweepCons(e: TimeEvent, met: seq<TimeEvent>, now: int, oracle: nat -> TimerScript)
    ensures Sweep([e] + met, now, oracle) ==
      Swept(Kept(e, now, oracle) + Sweep(met, now, oracle).stay, FiredOf(e, now) + Sweep(met, now, oracle).fired)
  {
    assert ([e] + met)[1..] == met;
  }

  lemma StaySums<T>(live: seq<T>, done: seq<T>, again: seq<T>, stay: seq<T>)
    requires multiset(live) == multiset(done + again) + multiset(stay)
    ensures multiset(live) == multiset(done) + multiset(again + stay)
  {}

  lemma RefineSkip(done: seq<TimeEvent>, e: TimeEvent, ahead: seq<TimeEvent>, now: int, oracle: nat -> TimerScript,
                   out: TimerOut)
    requires e.when > now && Refines(done + [e], ahead, now, oracle, out)
    ensures Refines(done, [e] + ahead, now, oracle, out.(met := [e] + out.met))
  {
    hide Sweep;
    SweepCons(e, out.met, now, oracle);
    ConsBoth(e, out.met, out.deleted, ahead, out.added);
    StaySums(Live(out.s.timers), done, [e], Sweep(out.met, now, oracle).stay);
  }

  lemma RefineFire(done: seq<TimeEvent>, e: TimeEvent, before: seq<TimeEvent>, ahead: seq<TimeEvent>, now: int,
                   oracle: nat -> TimerScript, added: seq<TimeEvent>, deleted: seq<TimeEvent>, rest: TimerOut)
    requires e.when <= now && Refines(done + Rescheduled(e, now, oracle(e.id).rc), ahead, now, oracle, rest)
    requires multiset(ahead) + multiset(deleted) == multiset(before) + multiset(added)
    requires forall k :: 0 <= k < |added| ==> added[k].when > now
    ensures Refines(done, [e] + before, now, oracle,
                    TimerOut(rest.s, [e] + rest.fired, [e] + rest.met, added + rest.added, deleted + rest.deleted))
  {
    hide Sweep, Rescheduled;
    var again := Rescheduled(e, now, oracle(e.id).rc);
    SweepCons(e, rest.met, now, oracle);
    ChainBalance(before, ahead, rest.met, deleted, added, rest.deleted, rest.added);
    ConsBoth(e, rest.met, deleted + rest.deleted, before, added + rest.added);
    StaySums(Live(rest.s.timers), done, again, Sweep(rest.met, now, oracle).stay);
  }

  /** processTimeEvents refines the specification, whatever its callbacks add for later and delete ahead of the
      loop. */
  lemma {:induction false} TimerPassRefines(s: Loop, i: nat, now: int, oracle: nat -> TimerScript)
    requires Shaped(s) && i <= s.timers.used && TimerPassContract(s, i, now, oracle)
    requires forall k :: 0 <= k < i ==> s.timers.slots[k].when > now
    ensures Refines(Done(s.timers, i), Rest(s.timers, i), now, oracle, TimerPass(s, i, now, oracle))
    decreases DueCount(Rest(s.timers, i), now), s.timers.used - i
  {
    hide Refines, Sweep, TimerStep, DueCount, AddedBy, DeletedBy, AddsLater, SparesUpTo;
    if i == s.timers.used {
      assert Done(s.timers, i) == Live(s.timers) && Rest(s.timers, i) == [];
      RefineEnd(s, now, oracle);
    } else {
      var e := s.timers.slots[i];
      RestCons(s.timers, i);
      if e.when > now {
        DueAhead(s.timers, i, now);
        TimerPassRefines(s, i + 1, now, oracle);
        RefineSkip(Done(s.timers, i), e, Rest(s.timers, i + 1), now, oracle, TimerPass(s, i + 1, now, oracle));
      } else {
        var script := oracle(e.id);
        TimerStepShrinks(s, i, now, script);
        StepDoneIsLater(s, i, now, script);
        TurnFacts(s, i, now, script);
        AddedByIsLater(s, script.ops, now);
        var (t, next) := TimerStep(s, i, now, script);
        TimerPassRefines(t, next, now, oracle);
        RefineFire(Done(s.timers, i), e, Rest(s.timers, i + 1), Rest(t.timers, next), now, oracle,
                   AddedBy(s, script.ops), DeletedBy(s, script.ops), TimerPass(t, next, now, oracle));
      }
    }
  }

  lemma StepDoneIsLater(s: Loop, i: nat, now: int, script: TimerScript)
    requires Shaped(s) && i < s.timers.used && TurnContract(s, i, now, script)
    requires forall k :: 0 <= k < i ==> s.timers.slots[k].when > now
    ensures var (t, next) := TimerStep(s, i, now, script);
      next <= t.timers.used <= |t.timers.slots| && forall k :: 0 <= k < next ==> t.timers.slots[k].when > now
  {
    TurnFacts(s, i, now, script);
    hide TimerStep, TurnContract;
    var (t, next) := TimerStep(s, i, now, script);
    var done := Done(s.timers, i) + Rescheduled(s.timers.slots[i], now, script.rc);
    assert Done(t.timers, next) == done;
    forall k | 0 <= k < next ensures t.timers.slots[k].when > now {
      assert t.timers.slots[k] == done[k];
    }
  }

  /** In one pass each event that was due fires exactly once or was deleted before its turn; no other fires. */
  lemma EachDueFiresOnce(s: Loop, now: int, oracle: nat -> TimerScript, e: TimeEvent)
    requires Shaped(s) && TimerPassContract(s, 0, now, oracle)
    ensures var out := TimerPass(s, 0, now, oracle);
      && (e.when <= now ==> multiset(out.fired)[e] + multiset(out.deleted)[e] == multiset(Live(s.timers))[e])
      && (e.when > now ==> multiset(out.fired)[e] == 0)
      && (forall k :: 0 <= k < out.s.timers.used ==> out.s.timers.slots[k].when > now)
  {
    TimerPassRefines(s, 0, now, oracle);
    hide Sweep, TimerPassContract, TimerPass;
    var out := TimerPass(s, 0, now, oracle);
    SweepFiresDue(out.met, now, oracle, e);
    assert Rest(s.timers, 0) == Live(s.timers);
    if e.when <= now {
      assert e !in out.added;
      assert (multiset(out.met) + multiset(out.deleted))[e] == (multiset(Rest(s.timers, 0)) + multiset(out.added))[e];
    }
  }

  // ----- callbacks that only add -----

  /** A timer callback that deletes nothing. */
  predicate OnlyAdds(ops: seq<Op>, now: int) {
    (forall i :: 0 <= i < |ops| ==> !ops[i].DelTimeEvent?) && AddsLater(ops, now)
  }

  lemma {:induction false} OnlyAddsHonours(s: Loop, i: nat, ops: seq<Op>, now: int)
    requires Shaped(s) && OnlyAdds(ops, now)
    ensures SparesUpTo(s, i, ops) && DeletedBy(s, ops) == []
    decreases |ops|
  {
    if ops != [] {
      OnlyAddsHonours(Apply(s, ops[0]), i, ops[1..], now);
    }
  }

  lemma {:induction false} AddersHonour(s: Loop, i: nat, now: int, oracle: nat -> TimerScript)
    requires Shaped(s) && i <= s.timers.used && forall id :: OnlyAdds(oracle(id).ops, now)
    ensures TimerPassContract(s, i, now, oracle) && TimerPass(s, i, now, oracle).deleted == []
    decreases DueCount(Rest(s.timers, i), now), s.timers.used - i
  {
    hide TimerStep, DueCount;
    if i < s.timers.used {
      var e := s.timers.slots[i];
      if e.when > now {
        DueAhead(s.timers, i, now);
        AddersHonour(s, i + 1, now, oracle);
      } else {
        OnlyAddsHonours(s, i, oracle(e.id).ops, now);
        TimerStepShrinks(s, i, now, oracle(e.id));
        var (t, next) := TimerStep(s, i, now, oracle(e.id));
        AddersHonour(t, next, now, oracle);
      }
    }
  }

  /** Then the whole table is swept: each due event fires exactly once, events that are not due stay, those
      whose callback returned 0 vanish, the others move to now + rc, and what was added is kept. */
  lemma AddersRefine(s: Loop, now: int, oracle: nat -> TimerScript)
    requires Shaped(s) && forall id :: OnlyAdds(oracle(id).ops, now)
    ensures TimerPassContract(s, 0, now, oracle)
    ensures var out := TimerPass(s, 0, now, oracle);
      var spec := Sweep(Live(s.timers), now, oracle);
      && multiset(out.fired) == multiset(spec.fired)
      && multiset(Live(out.s.timers)) == multiset(spec.stay) + multiset(out.added)
  {
    AddersHonour(s, 0, now, oracle);
    TimerPassRefines(s, 0, now, oracle);
    hide TimerPassContract, TimerPass, Sweep;
    var out := TimerPass(s, 0, now, oracle);
    var live := Live(s.timers);
    assert Rest(s.timers, 0) == live && Done(s.timers, 0) == [];
    assert multiset(out.met) == multiset(live + out.added);
    SweepPermutes(out.met, live + out.added, now, oracle);
    SweepConcat(live, out.added, now, oracle);
    SweepIdle(out.added, now, oracle);
  }

  // ----- the pass keeps the invariants -----

  lemma TimerTailKeepsInv(c: TimerState, i: nat, now: int, rc: nat)
    requires TimerInv(c) && i < c.used
    ensures TimerInv(TimerTail(c, i, now, rc).0) && NoneRevived(c, TimerTail(c, i, now, rc).0)
  {
    InOwnIds(c);
    var t := TimerTail(c, i, now, rc).0;
    if rc != 0 {
      assert Live(t) == Live(c)[i := t.slots[i]];
    } else if c.issued < TWO_TO_THE_64 {
      assert Live(t) == Live(c)[i := Live(c)[c.used - 1]][..c.used - 1];
      SwapOutDistinct(Live(c), i);
    }
  }

  lemma TimerStepKeepsInv(s: Loop, i: nat, now: int, script: TimerScript)
    requires Shaped(s) && i < s.timers.used && SparesUpTo(s, i, script.ops)
    requires Inv(s.fds) && TimerInv(s.timers) && MasksGiven(script.ops)
    ensures var t := TimerStep(s, i, now, script).0;
      Inv(t.fds) && TimerInv(t.timers) && NoneRevived(s.timers, t.timers)
  {
    ExecKeepsInv(s, script.ops);
    ExecKeepsTimerInv(s, script.ops);
    ExecBalance(s, script.ops, i);
    hide Inv, TimerInv, NoneRevived, Exec;
    var c := Exec(s, script.ops).timers;
    TimerTailKeepsInv(c, i, now, script.rc);
    NoneRevivedTrans(s.timers, c, TimerStep(s, i, now, script).0.timers);
  }

  /** The pass keeps every invariant and revives no dead timer id. */
  lemma {:induction false} TimerPassKeepsInv(s: Loop, i: nat, now: int, oracle: nat -> TimerScript)
    requires Shaped(s) && i <= s.timers.used && TimerPassContract(s, i, now, oracle)
    requires Inv(s.fds) && TimerInv(s.timers) && forall id :: MasksGiven(oracle(id).ops)
    ensures var out := TimerPass(s, i, now, oracle);
      Inv(out.s.fds) && TimerInv(out.s.timers) && NoneRevived(s.timers, out.s.timers)
    decreases DueCount(Rest(s.timers, i), now), s.timers.used - i
  {
    NoneRevivedSelf(s.timers);
    hide Inv, TimerInv, NoneRevived, DueCount, TimerStep, MasksGiven;
    if i < s.timers.used {
      var e := s.timers.slots[i];
      if e.when > now {
        DueAhead(s.timers, i, now);
        TimerPassKeepsInv(s, i + 1, now, oracle);
      } else {
        TimerStepKeepsInv(s, i, now, oracle(e.id));
        TimerStepShrinks(s, i, now, oracle(e.id));
        var (t, next) := TimerStep(s, i, now, oracle(e.id));
        TimerPassKeepsInv(t, next, now, oracle);
        NoneRevivedTrans(s.timers, t.timers, TimerPass(t, next, now, oracle).s.timers);
      }
    }
  }

  lemma NoneRevivedSelf(t: TimerState)
    requires 0 <= t.used <= |t.slots|
    ensures NoneRevived(t, t)
  {
    InOwnIds(t);
  }

  /** The loop never goes back: what it has passed stays as it is. */
  lemma {:induction false} PassedSlotsStay(s: Loop, i: nat, now: int, oracle: nat -> TimerScript)
    requires Shaped(s) && i <= s.timers.used && TimerPassContract(s, i, now, oracle)
    ensures var u := TimerPass(s, i, now, oracle).s.timers;
      i <= u.used <= |u.slots| && u.slots[..i] == s.timers.slots[..i]
    decreases DueCount(Rest(s.timers, i), now), s.timers.used - i
  {
    hide DueCount, TimerStep;
    if i < s.timers.used {
      var e := s.timers.slots[i];
      if e.when > now {
        DueAhead(s.timers, i, now);
        PassedSlotsStay(s, i + 1, now, oracle);
        var u := TimerPass(s, i + 1, now, oracle).s.timers;
        PrefixShorter(s.timers.slots, u.slots, i, i + 1);
      } else {
        TurnFacts(s, i, now, oracle(e.id));
        TimerStepShrinks(s, i, now, oracle(e.id));
        var (t, next) := TimerStep(s, i, now, oracle(e.id));
        PassedSlotsStay(t, next, now, oracle);
        var u := TimerPass(t, next, now, oracle).s.timers;
        assert t.timers.slots[..i] == s.timers.slots[..i] && i <= next by {
          assert Done(t.timers, next)[..i] == Done(s.timers, i);
        }
        PrefixShorter(t.timers.slots, u.slots, i, next);
      }
    }
  }

  lemma PrefixShorter<T>(a: seq<T>, b: seq<T>, i: nat, n: nat)
    requires i <= n <= |a| && n <= |b| && a[..n] == b[..n]
    ensures a[..i] == b[..i]
  {
    assert a[..n][..i] == b[..n][..i];
  }
}
