/** The timer half of AsyncEvent: an unsorted array of time events with swap-with-last deletion. */
module Timers {
  import opened Words
  import opened EventTypes
  import opened Sequences

  /** `slots` is the whole time_event_list_ array; only slots[..used] is live. A pass whose callbacks delete
      timers can drive used to -1. `issued` is history: how many ids have been handed out so far, not reduced
      modulo 2^64. */
  datatype TimerState = TimerState(slots: seq<TimeEvent>, used: int, lastId: nat, issued: nat)

  function Live(t: TimerState): seq<TimeEvent>
    requires 0 <= t.used <= |t.slots|
  {
    t.slots[..t.used]
  }

  /** ++last_time_event_id_ on a uint64_t. */
  function NextId(t: TimerState): nat {
    (t.lastId + 1) % TWO_TO_THE_64
  }

  function AddTimer(t: TimerState, msLater: nat, proc: nat, data: nat, clock: int): (r: (TimerState, int))
    requires 0 <= t.used <= |t.slots|
    ensures |r.0.slots| == |t.slots| && 0 <= r.0.used <= |t.slots|
  {
    if t.used == |t.slots| then (t, ERROR)
    else
      var event := TimeEvent(NextId(t), clock + msLater, proc, data);
      (TimerState(t.slots[t.used := event], t.used + 1, NextId(t), t.issued + 1), OK)
  }

  function IndexOfId(events: seq<TimeEvent>, id: nat): (i: int)
    ensures 0 <= i ==> i < |events| && events[i].id == id
    ensures i < 0 <==> id !in Ids(events)
    ensures -1 <= i
  {
    if events == [] then -1
    else if events[0].id == id then assert events[0] in events; 0
    else
      var j := IndexOfId(events[1..], id);
      assert Ids(events) == {events[0].id} + Ids(events[1..]) by {
        assert events == [events[0]] + events[1..];
      }
      if j < 0 then -1 else j + 1
  }

  lemma {:induction false} IdFound(events: seq<TimeEvent>, id: nat, i: nat)
    requires i < |events| && events[i].id == id && forall k :: 0 <= k < i ==> events[k].id != id
    ensures IndexOfId(events, id) == i
  {
    if i > 0 {
      IdFound(events[1..], id, i - 1);
    }
  }

  lemma {:induction false} IdMissing(events: seq<TimeEvent>, id: nat)
    requires forall k :: 0 <= k < |events| ==> events[k].id != id
    ensures IndexOfId(events, id) == -1
  {
    if events != [] {
      IdMissing(events[1..], id);
    }
  }

  function Ids(events: seq<TimeEvent>): set<nat> {
    set e | e in events :: e.id
  }

  function DelTimer(t: TimerState, id: nat): (r: (TimerState, int))
    requires 0 <= t.used <= |t.slots|
    ensures |r.0.slots| == |t.slots| && 0 <= r.0.used <= |t.slots|
  {
    var i := IndexOfId(Live(t), id);
    if i < 0 then (t, ERROR)
    else (t.(slots := t.slots[i := t.slots[t.used - 1]], used := t.used - 1), OK)
  }

  ghost predicate DistinctIds(events: seq<TimeEvent>) {
    forall i, j :: 0 <= i < j < |events| ==> events[i].id != events[j].id
  }

  /** Until the id counter wraps, live ids are pairwise distinct and none is above the last one handed out. */
  ghost predicate TimerInv(t: TimerState) {
    && 0 <= t.used <= |t.slots|
    && t.lastId == t.issued % TWO_TO_THE_64
    && (t.issued < TWO_TO_THE_64 ==>
          DistinctIds(Live(t)) && forall i :: 0 <= i < t.used ==> 1 <= t.slots[i].id <= t.lastId)
  }

  /** No id handed out before s and dead in s is live again in t. */
  ghost predicate NoneRevived(s: TimerState, t: TimerState) {
    && s.issued <= t.issued
    && 0 <= s.used <= |s.slots| && 0 <= t.used <= |t.slots|
    && (t.issued < TWO_TO_THE_64 ==>
          forall i :: 0 <= i < t.used && t.slots[i].id <= s.issued ==> t.slots[i].id in Ids(Live(s)))
  }

  lemma NoneRevivedTrans(s: TimerState, t: TimerState, u: TimerState)
    requires NoneRevived(s, t) && NoneRevived(t, u)
    ensures NoneRevived(s, u)
  {
    forall i | u.issued < TWO_TO_THE_64 && 0 <= i < u.used && u.slots[i].id <= s.issued
      ensures u.slots[i].id in Ids(Live(s))
    {
      var e :| e in Live(t) && e.id == u.slots[i].id;
      var k :| 0 <= k < t.used && t.slots[k] == e;
    }
  }

  function FreshTimers(size: nat): TimerState {
    TimerState(seq(size, _ => TimeEvent(0, 0, 0, 0)), 0, 0, 0)
  }

  // ----- adding -----

  /** Live ids stay distinct across addTimeEvent exactly when the table is full or the next id is not live. */
  lemma AddTimerDistinctIff(t: TimerState, msLater: nat, proc: nat, data: nat, clock: int)
    requires 0 <= t.used <= |t.slots| && DistinctIds(Live(t))
    ensures DistinctIds(Live(AddTimer(t, msLater, proc, data, clock).0)) <==>
            t.used == |t.slots| || NextId(t) !in Ids(Live(t))
  {
    if t.used < |t.slots| {
      var u := AddTimer(t, msLater, proc, data, clock).0;
      assert Live(u) == Live(t) + [u.slots[t.used]];
      if NextId(t) in Ids(Live(t)) {
        var k :| 0 <= k < t.used && Live(t)[k].id == NextId(t);
        assert Live(u)[k].id == Live(u)[t.used].id;
      } else {
        forall k | 0 <= k < t.used ensures Live(u)[k].id != NextId(t) {
          assert Live(t)[k] in Live(t);
        }
      }
    }
  }

  /** addTimeEvent fails exactly when the table is full; otherwise it appends one event whose id, until the
      counter wraps, is above every id handed out before. */
  lemma AddTimerKeepsInv(t: TimerState, msLater: nat, proc: nat, data: nat, clock: int)
    requires TimerInv(t)
    ensures var (u, rc) := AddTimer(t, msLater, proc, data, clock);
      && TimerInv(u) && NoneRevived(t, u)
      && (rc == OK <==> t.used < |t.slots|)
      && (rc == OK ==> Live(u) == Live(t) + [TimeEvent(u.lastId, clock + msLater, proc, data)])
      && (rc == OK && u.issued < TWO_TO_THE_64 ==> u.lastId == t.issued + 1)
      && (rc != OK ==> u == t)
  {
    var (u, rc) := AddTimer(t, msLater, proc, data, clock);
    InOwnIds(t);
    if rc == OK {
      assert Live(u) == Live(t) + [TimeEvent(u.lastId, clock + msLater, proc, data)];
      if u.issued < TWO_TO_THE_64 {
        AddTimerDistinctIff(t, msLater, proc, data, clock);
        assert NextId(t) !in Ids(Live(t));
      }
    }
  }

  lemma InOwnIds(t: TimerState)
    requires 0 <= t.used <= |t.slots|
    ensures forall i :: 0 <= i < t.used ==> t.slots[i].id in Ids(Live(t))
  {
    forall i | 0 <= i < t.used ensures t.slots[i].id in Ids(Live(t)) {
      assert Live(t)[i] in Live(t);
    }
  }

  // ----- deleting -----

  lemma SwapOutDistinct(events: seq<TimeEvent>, i: nat)
    requires DistinctIds(events) && i < |events|
    ensures var out := events[i := events[|events| - 1]][..|events| - 1];
      DistinctIds(out) && Ids(out) == Ids(events) - {events[i].id}
  {
    var last := |events| - 1;
    var out := events[i := events[last]][..last];
    forall e | e in out ensures e in events && e.id != events[i].id {
      var k :| 0 <= k < |out| && out[k] == e;
      assert e == events[if k == i then last else k];
    }
    forall e | e in events && e.id != events[i].id ensures e in out {
      var k :| 0 <= k < |events| && events[k] == e;
      assert out[if k == last then i else k] == e;
    }
  }

  /** `after` is `before` without one event that has this id. */
  ghost predicate WithoutOne(before: seq<TimeEvent>, after: seq<TimeEvent>, id: nat) {
    exists e :: e in before && e.id == id && multiset(after) == multiset(before) - multiset{e}
  }

  /** delTimeEvent fails exactly when no live event has the id; otherwise it removes one event with that id
      and keeps all others. Until the id counter wraps, the id is then dead. */
  lemma DelTimerExact(t: TimerState, id: nat)
    requires TimerInv(t)
    ensures var (u, rc) := DelTimer(t, id);
      && u.lastId == t.lastId && u.issued == t.issued
      && (rc == ERROR <==> id !in Ids(Live(t)))
      && (rc == ERROR ==> u == t)
      && (rc != ERROR ==> rc == OK && WithoutOne(Live(t), Live(u), id))
      && (rc != ERROR && t.issued < TWO_TO_THE_64 ==> Ids(Live(u)) == Ids(Live(t)) - {id})
  {
    hide DistinctIds;
    var i := IndexOfId(Live(t), id);
    if i >= 0 {
      DelTimerMultiset(t, id);
      if t.issued < TWO_TO_THE_64 {
        DelTimerIds(t, id);
      }
    }
  }

  lemma DelTimerMultiset(t: TimerState, id: nat)
    requires 0 <= t.used <= |t.slots| && IndexOfId(Live(t), id) >= 0
    ensures WithoutOne(Live(t), Live(DelTimer(t, id).0), id)
  {
    hide WithoutOne;
    DelTimerLive(t, id);
    WithoutOneIntro(Live(t), IndexOfId(Live(t), id));
  }

  lemma WithoutOneIntro(live: seq<TimeEvent>, i: nat)
    requires i < |live|
    ensures WithoutOne(live, live[i := live[|live| - 1]][..|live| - 1], live[i].id)
  {
    SwapOut(live, i);
    var e := live[i];
    assert e in live;
  }

  lemma DelTimerIds(t: TimerState, id: nat)
    requires TimerInv(t) && t.issued < TWO_TO_THE_64 && IndexOfId(Live(t), id) >= 0
    ensures Ids(Live(DelTimer(t, id).0)) == Ids(Live(t)) - {id}
  {
    DelTimerLive(t, id);
    SwapOutDistinct(Live(t), IndexOfId(Live(t), id));
  }

  lemma DelTimerLive(t: TimerState, id: nat)
    requires 0 <= t.used <= |t.slots| && IndexOfId(Live(t), id) >= 0
    ensures Live(DelTimer(t, id).0) == Live(t)[IndexOfId(Live(t), id) := Live(t)[t.used - 1]][..t.used - 1]
  {}

  lemma DelTimerKeepsInv(t: TimerState, id: nat)
    requires TimerInv(t)
    ensures TimerInv(DelTimer(t, id).0) && NoneRevived(t, DelTimer(t, id).0)
  {
    InOwnIds(t);
    hide DistinctIds;
    var i := IndexOfId(Live(t), id);
    if i >= 0 && t.issued < TWO_TO_THE_64 {
      SwapOutDistinct(Live(t), i);
      DelTimerLive(t, id);
    }
  }

  // ----- nearestTimeEvent -----

  /** Index of the first event with the least deadline, or -1. */
  function NearestIndex(events: seq<TimeEvent>, n: nat): (idx: int)
    requires n <= |events|
    ensures idx < 0 <==> n == 0
    ensures 0 <= idx ==> idx < n && forall i :: 0 <= i < n ==> events[idx].when <= events[i].when
  {
    if n == 0 then -1
    else
      var idx := NearestIndex(events, n - 1);
      if idx < 0 || events[n - 1].when < events[idx].when then n - 1 else idx
  }

  /** Milliseconds until the earliest deadline, 0 if it has passed, -1 if there is no timer. */
  function Nearest(t: TimerState, clock: int): (ms: int)
    requires 0 <= t.used <= |t.slots|
    ensures ms < 0 <==> t.used == 0
    ensures forall j :: 0 <= j < t.used ==> ms <= (if t.slots[j].when > clock then t.slots[j].when - clock else 0)
    ensures t.used > 0 && ms > 0 ==> exists j :: 0 <= j < t.used && ms == t.slots[j].when - clock
  {
    var idx := NearestIndex(t.slots, t.used);
    if idx < 0 then -1
    else if t.slots[idx].when - clock < 0 then 0
    else t.slots[idx].when - clock
  }
}
