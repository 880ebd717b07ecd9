/** Runs of the LogServer protocol from its initial state, with thread 0 alone at work. */
module LogServerRuns {
  import opened LogServers

  /** Everything that threads share. */
  datatype Shared = Shared(unique: Pointer, owner: int, ready: int, servers: seq<Server>)

  /** Thread 0 is at pc, the others are idle. */
  function Solo(n: nat, g: Shared, pc: Pc): State {
    State(g.unique, g.owner, g.ready, g.servers, seq(n, i => if i == 0 then pc else Idle))
  }

  ghost predicate Reaches(s: State, t: State) {
    exists steps :: Leads(s, steps, t)
  }

  lemma Then(s: State, t: State, u: State)
    requires Reaches(s, t) && Reaches(t, u)
    ensures Reaches(s, u)
  {
    hide Leads;
    var a :| Leads(s, a, t);
    var b :| Leads(t, b, u);
    LeadsThen(s, a, t, b, u);
  }

  lemma Stays(s: State)
    ensures Reaches(s, s)
  {
    assert Leads(s, [], s);
  }

  /** One more step, of thread 0 or of a server. */
  lemma Go(s: State, n: nat, g: Shared, pc: Pc, step: Step, h: Shared, next: Pc)
    requires n > 0 && Reaches(s, Solo(n, g, pc))
    requires Enabled(Solo(n, g, pc), step) && Serialised(Solo(n, g, pc), step)
    requires var r := Next(Solo(n, g, pc), step);
      && Shared(r.unique, r.owner, r.ready, r.servers) == h
      && r.threads[0] == next && forall i :: 0 < i < n ==> r.threads[i] == Idle
    ensures Reaches(s, Solo(n, h, next))
  {
    var t, u := Solo(n, g, pc), Solo(n, h, next);
    LeadsOne(t, step);
    assert Next(t, step).threads == u.threads;
    assert Next(t, step) == u;
    Then(s, t, u);
  }

  lemma Last(past: seq<Server>, x: Server, y: Server)
    ensures (past + [x])[|past|] == x && (past + [x])[|past| := y] == past + [y]
  {}

  // ----- the parts of a life -----

  /** Nobody is inside, with these servers behind. */
  function Quiet(past: seq<Server>): Shared { Shared(Null, NOBODY, 0, past) }

  /** The newest server is published and serves. */
  function Up(past: seq<Server>): Shared { Shared(To(|past|), NOBODY, 1, past + [Server(Serving, 0, false)]) }

  /** The newest server is being created by thread 0, under the lock. */
  function Newborn(past: seq<Server>, phase: Phase): Shared {
    Shared(Null, 0, if phase.Serving? then 1 else 0, past + [Server(phase, 0, false)])
  }

  /** What getInstance's caller goes on with. */
  function Result(c: Caller, p: Pointer): Pc {
    if c.Client? then Holds(p) else if c.ToStop? then SetStop(p) else Join(p)
  }

  lemma LooksAgain(s: State, n: nat, g: Shared, c: Caller)
    requires n > 0 && Reaches(s, Solo(n, g, LastRead(c)))
    ensures Reaches(s, Solo(n, g, Result(c, g.unique)))
  {
    hide Reaches;
    Go(s, n, g, LastRead(c), Advance(0), g, Result(c, g.unique));
  }

  /** getInstance finds a server and returns it. */
  lemma Looks(s: State, n: nat, g: Shared, c: Caller)
    requires n > 0 && g.unique.To? && Reaches(s, Solo(n, g, FirstCheck(c)))
    ensures Reaches(s, Solo(n, g, Result(c, g.unique)))
  {
    hide Reaches;
    Go(s, n, g, FirstCheck(c), Advance(0), g, LastRead(c));
    LooksAgain(s, n, g, c);
  }

  /** getInstance finds no server and allocates one. */
  lemma Allocates(n: nat, past: seq<Server>, c: Caller)
    requires n > 0 && !c.ToJoin?
    ensures Reaches(Solo(n, Quiet(past), FirstCheck(c)), Solo(n, Newborn(past, Allocated), Create(c, |past|)))
  {
    var s, held := Solo(n, Quiet(past), FirstCheck(c)), Quiet(past).(owner := 0);
    hide Reaches;
    Stays(s);
    Go(s, n, Quiet(past), FirstCheck(c), Advance(0), Quiet(past), Lock(c));
    Go(s, n, Quiet(past), Lock(c), Advance(0), held, SecondCheck(c));
    Go(s, n, held, SecondCheck(c), Advance(0), Newborn(past, Allocated), Create(c, |past|));
  }

  lemma StartsThread(n: nat, past: seq<Server>, c: Caller)
    requires n > 0 && !c.ToJoin?
    ensures Reaches(Solo(n, Newborn(past, Allocated), Create(c, |past|)),
                    Solo(n, Newborn(past, Starting), AwaitReady(c, |past|)))
  {
    var s := Solo(n, Newborn(past, Allocated), Create(c, |past|));
    hide Reaches;
    Stays(s);
    Last(past, Server(Allocated, 0, false), Server(Starting, 0, false));
    Go(s, n, Newborn(past, Allocated), Create(c, |past|), Advance(0), Newborn(past, Starting), AwaitReady(c, |past|));
  }

  /** Its thread sets itself up, and the creator is about to publish it. */
  lemma SetsUp(n: nat, past: seq<Server>, c: Caller)
    requires n > 0 && !c.ToJoin?
    ensures Reaches(Solo(n, Newborn(past, Starting), AwaitReady(c, |past|)),
                    Solo(n, Newborn(past, Serving), Publish(c, To(|past|))))
  {
    var k, g := |past|, Newborn(past, Serving);
    var s := Solo(n, Newborn(past, Starting), AwaitReady(c, k));
    hide Reaches;
    Stays(s);
    Last(past, Server(Starting, 0, false), Server(Serving, 0, false));
    Go(s, n, Newborn(past, Starting), AwaitReady(c, k), SetUp(k), g, AwaitReady(c, k));
    Go(s, n, g, AwaitReady(c, k), Advance(0), g, Publish(c, To(k)));
  }

  /** It is published, and getInstance returns it. */
  lemma Publishes(n: nat, past: seq<Server>, c: Caller)
    requires n > 0 && !c.ToJoin?
    ensures Reaches(Solo(n, Newborn(past, Serving), Publish(c, To(|past|))), Solo(n, Up(past), Result(c, To(|past|))))
  {
    var p, g := To(|past|), Newborn(past, Serving);
    var s := Solo(n, g, Publish(c, p));
    hide Reaches;
    Stays(s);
    Go(s, n, g, Publish(c, p), Advance(0), g.(unique := p), Unlock(c));
    Go(s, n, g.(unique := p), Unlock(c), Advance(0), Up(past), LastRead(c));
    LooksAgain(s, n, Up(past), c);
  }

  /** getInstance when there is no server: it creates one and returns it. */
  lemma CreatesServer(n: nat, past: seq<Server>, c: Caller)
    requires n > 0 && !c.ToJoin?
    ensures Reaches(Solo(n, Quiet(past), FirstCheck(c)), Solo(n, Up(past), Result(c, To(|past|))))
  {
    Allocates(n, past, c);
    StartsThread(n, past, c);
    SetsUp(n, past, c);
    Publishes(n, past, c);
    hide Reaches, Solo;
    var s := Solo(n, Quiet(past), FirstCheck(c));
    var t := Solo(n, Newborn(past, Starting), AwaitReady(c, |past|));
    var u := Solo(n, Newborn(past, Serving), Publish(c, To(|past|)));
    Then(s, Solo(n, Newborn(past, Allocated), Create(c, |past|)), t);
    Then(s, t, u);
    Then(s, u, Solo(n, Up(past), Result(c, To(|past|))));
  }

  /** The server is stopping or has stopped. */
  function Down(past: seq<Server>, owner: int, phase: Phase): Shared {
    Shared(To(|past|), owner, if phase.Serving? then 1 else 0, past + [Server(phase, 1, false)])
  }

  /** destroyInstance asks the server to stop, and it does. */
  lemma StopsServer(n: nat, past: seq<Server>)
    requires n > 0
    ensures Reaches(Solo(n, Up(past), SetStop(To(|past|))), Solo(n, Down(past, NOBODY, Exited), FirstCheck(ToJoin)))
  {
    var k, pc := |past|, FirstCheck(ToJoin);
    var s := Solo(n, Up(past), SetStop(To(k)));
    hide Reaches;
    Stays(s);
    Last(past, Server(Serving, 0, false), Server(Serving, 1, false));
    Last(past, Server(Serving, 1, false), Server(Cleared, 1, false));
    Last(past, Server(Cleared, 1, false), Server(Exited, 1, false));
    Go(s, n, Up(past), SetStop(To(k)), Advance(0), Down(past, NOBODY, Serving), pc);
    Go(s, n, Down(past, NOBODY, Serving), pc, SeeStop(k), Down(past, NOBODY, Cleared), pc);
    Go(s, n, Down(past, NOBODY, Cleared), pc, LeaveLoop(k), Down(past, NOBODY, Exited), pc);
  }

  /** It joins the server and takes the lock to delete it. */
  lemma JoinsServer(n: nat, past: seq<Server>)
    requires n > 0
    ensures Reaches(Solo(n, Down(past, NOBODY, Exited), FirstCheck(ToJoin)), Solo(n, Down(past, 0, Exited), Delete))
  {
    var g, p := Down(past, NOBODY, Exited), To(|past|);
    var s := Solo(n, g, FirstCheck(ToJoin));
    hide Reaches;
    Stays(s);
    Last(past, Server(Exited, 1, false), Server(Exited, 1, false));
    Looks(s, n, g, ToJoin);
    Go(s, n, g, Join(p), Advance(0), g, LockToDelete);
    Go(s, n, g, LockToDelete, Advance(0), Down(past, 0, Exited), Delete);
  }

  lemma DeletesServer(n: nat, past: seq<Server>)
    requires n > 0
    ensures Reaches(Solo(n, Down(past, 0, Exited), Delete), Solo(n, Quiet(past + [Server(Exited, 1, true)]), Idle))
  {
    var g := Down(past, 0, Exited).(servers := past + [Server(Exited, 1, true)]);
    var h := Quiet(past + [Server(Exited, 1, true)]);
    var s := Solo(n, Down(past, 0, Exited), Delete);
    hide Reaches;
    Stays(s);
    Last(past, Server(Exited, 1, false), Server(Exited, 1, true));
    Go(s, n, Down(past, 0, Exited), Delete, Advance(0), g, Forget);
    Go(s, n, g, Forget, Advance(0), h.(owner := 0), UnlockDeleted);
    Go(s, n, h.(owner := 0), UnlockDeleted, Advance(0), h, Idle);
  }

  /** destroyInstance with a server up, as far as the deletion. */
  lemma ReachesDelete(n: nat, past: seq<Server>)
    requires n > 0
    ensures Reaches(Solo(n, Up(past), SetStop(To(|past|))), Solo(n, Down(past, 0, Exited), Delete))
  {
    StopsServer(n, past);
    JoinsServer(n, past);
    hide Reaches, Solo;
    Then(Solo(n, Up(past), SetStop(To(|past|))), Solo(n, Down(past, NOBODY, Exited), FirstCheck(ToJoin)),
         Solo(n, Down(past, 0, Exited), Delete));
  }

  /** A client gets the server, is done with it, and calls destroyInstance. */
  lemma UsesServer(n: nat, past: seq<Server>)
    requires n > 0
    ensures Reaches(Solo(n, Up(past), Holds(To(|past|))), Solo(n, Up(past), SetStop(To(|past|))))
  {
    var g, p := Up(past), To(|past|);
    var s := Solo(n, g, Holds(p));
    hide Reaches;
    Stays(s);
    Go(s, n, g, Holds(p), FinishedWith(0), g, Idle);
    Go(s, n, g, Idle, CallDestroyInstance(0), g, FirstCheck(ToStop));
    Looks(s, n, g, ToStop);
  }

  lemma CallsGetInstance(n: nat, past: seq<Server>)
    requires n > 0
    ensures Reaches(Solo(n, Quiet(past), Idle), Solo(n, Up(past), Holds(To(|past|))))
  {
    var s := Solo(n, Quiet(past), Idle);
    hide Reaches;
    Stays(s);
    Go(s, n, Quiet(past), Idle, CallGetInstance(0), Quiet(past), FirstCheck(Client));
    CreatesServer(n, past, Client);
    Then(s, Solo(n, Quiet(past), FirstCheck(Client)), Solo(n, Up(past), Holds(To(|past|))));
  }

  /** One life of the singleton. */
  lemma OneLife(n: nat, past: seq<Server>)
    requires n > 0
    ensures Reaches(Solo(n, Quiet(past), Idle), Solo(n, Quiet(past + [Server(Exited, 1, true)]), Idle))
  {
    CallsGetInstance(n, past);
    UsesServer(n, past);
    ReachesDelete(n, past);
    DeletesServer(n, past);
    hide Reaches, Solo;
    var s, p := Solo(n, Quiet(past), Idle), To(|past|);
    Then(s, Solo(n, Up(past), Holds(p)), Solo(n, Up(past), SetStop(p)));
    Then(s, Solo(n, Up(past), SetStop(p)), Solo(n, Down(past, 0, Exited), Delete));
    Then(s, Solo(n, Down(past, 0, Exited), Delete), Solo(n, Quiet(past + [Server(Exited, 1, true)]), Idle));
  }

  // ----- from the start -----

  lemma Starts(n: nat)
    ensures Initial(n) == Solo(n, Quiet([]), Idle)
  {
    assert Initial(n).threads == Solo(n, Quiet([]), Idle).threads;
  }

  function Buried(m: nat): (r: seq<Server>)
    ensures |r| == m
  {
    if m == 0 then [] else Buried(m - 1) + [Server(Exited, 1, true)]
  }

  lemma {:induction false} Lives(n: nat, m: nat)
    requires n > 0
    ensures Reaches(Initial(n), Solo(n, Quiet(Buried(m)), Idle))
  {
    Starts(n);
    hide Solo, Reaches;
    if m == 0 {
      Stays(Initial(n));
    } else {
      Lives(n, m - 1);
      OneLife(n, Buried(m - 1));
      Then(Initial(n), Solo(n, Quiet(Buried(m - 1)), Idle), Solo(n, Quiet(Buried(m)), Idle));
    }
  }

  /** However often the singleton has been created and destroyed, it can be created again: a client then holds the
      server number m, alive, serving and published. */
  lemma EveryRestartServes(n: nat, m: nat)
    requires n > 0
    ensures exists steps, s ::
              && Leads(Initial(n), steps, s) && |s.threads| == n
              && s.threads[0] == Holds(To(m)) && s.unique == To(m)
              && |s.servers| == m + 1 && s.servers[m] == Server(Serving, 0, false)
              && forall i :: 0 <= i < m ==> s.servers[i].deleted
  {
    Lives(n, m);
    CallsGetInstance(n, Buried(m));
    BuriedAreDeleted(m);
    var s := Solo(n, Up(Buried(m)), Holds(To(m)));
    Then(Initial(n), Solo(n, Quiet(Buried(m)), Idle), s);
    hide Leads;
    var steps :| Leads(Initial(n), steps, s);
  }

  lemma {:induction false} BuriedAreDeleted(m: nat)
    ensures forall i :: 0 <= i < m ==> Buried(m)[i].deleted
  {
    if m > 0 {
      BuriedAreDeleted(m - 1);
    }
  }

  /** A call from the start, as far as the allocation of the first server. */
  lemma FirstAllocation(n: nat, c: Caller)
    requires n > 0 && !c.ToJoin?
    ensures Reaches(Initial(n), Solo(n, Newborn([], Allocated), Create(c, 0)))
  {
    var g, call := Quiet([]), if c.Client? then CallGetInstance(0) else CallDestroyInstance(0);
    hide Reaches;
    Starts(n);
    Stays(Initial(n));
    Go(Initial(n), n, g, Idle, call, g, FirstCheck(c));
    Allocates(n, [], c);
    Then(Initial(n), Solo(n, g, FirstCheck(c)), Solo(n, Newborn([], Allocated), Create(c, 0)));
  }

  /** The server's thread starts, cannot set itself up, and the creator waits. */
  lemma FailedSetUpHappens(n: nat)
    requires n > 0
    ensures exists steps, s ::
              && Leads(Initial(n), steps, s) && |s.threads| == n
              && s.threads[0] == AwaitReady(Client, 0) && |s.servers| == 1 && s.servers[0].phase.SetupFailed?
  {
    var waits, failed := AwaitReady(Client, 0), Newborn([], SetupFailed);
    FirstAllocation(n, Client);
    StartsThread(n, [], Client);
    Then(Initial(n), Solo(n, Newborn([], Allocated), Create(Client, 0)), Solo(n, Newborn([], Starting), waits));
    Go(Initial(n), n, Newborn([], Starting), waits, FailSetUp(0), failed, waits);
    hide Leads;
    var steps :| Leads(Initial(n), steps, Solo(n, failed, waits));
  }

  lemma CreateFailsForDestroy(n: nat)
    requires n > 0
    ensures Reaches(Initial(n), Solo(n, Quiet([Server(Allocated, 0, true)]), LastRead(ToStop)))
  {
    var dead := Quiet([Server(Allocated, 0, true)]);
    var held := dead.(owner := 0);
    hide Reaches;
    FirstAllocation(n, ToStop);
    Go(Initial(n), n, Newborn([], Allocated), Create(ToStop, 0), CreateFails(0), held, Publish(ToStop, Null));
    Go(Initial(n), n, held, Publish(ToStop, Null), Advance(0), held, Unlock(ToStop));
    Go(Initial(n), n, held, Unlock(ToStop), Advance(0), dead, LastRead(ToStop));
  }

  /** create() fails for the first server in destroyInstance, which then dereferences NULL. */
  lemma NullDereferenceHappens(n: nat)
    requires n > 0
    ensures exists steps, s ::
              Leads(Initial(n), steps, s) && |s.threads| == n && s.threads[0] == Crashed(NullDereference)
  {
    var dead := Quiet([Server(Allocated, 0, true)]);
    CreateFailsForDestroy(n);
    Go(Initial(n), n, dead, LastRead(ToStop), Advance(0), dead, SetStop(Null));
    Go(Initial(n), n, dead, SetStop(Null), Advance(0), dead, Crashed(NullDereference));
    hide Leads;
    var steps :| Leads(Initial(n), steps, Solo(n, dead, Crashed(NullDereference)));
  }

  /** destroyInstance with no server: it creates one, stops it, joins it and is about to delete it while every other
      thread is idle, the state in which a second thread's getInstance goes wrong. */
  lemma DeleteHappens(n: nat)
    requires n > 0
    ensures exists steps ::
              Leads(Initial(n), steps, Solo(n, Shared(To(0), 0, 0, [Server(Exited, 1, false)]), Delete))
  {
    var g := Quiet([]);
    Starts(n);
    Stays(Initial(n));
    Go(Initial(n), n, g, Idle, CallDestroyInstance(0), g, FirstCheck(ToStop));
    CreatesServer(n, [], ToStop);
    ReachesDelete(n, []);
    hide Solo, Leads;
    Then(Initial(n), Solo(n, g, FirstCheck(ToStop)), Solo(n, Up([]), SetStop(To(0))));
    Then(Initial(n), Solo(n, Up([]), SetStop(To(0))), Solo(n, Down([], 0, Exited), Delete));
    assert [] + [Server(Exited, 1, false)] == [Server(Exited, 1, false)];
  }
}
