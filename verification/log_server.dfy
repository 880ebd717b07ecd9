/** The LogServer singleton: getInstance, destroyInstance and the server's own thread as an interleaving
    transition system. Every step is one access to memory that threads share, under sequential consistency. */
module LogServers {
  import opened Threads

  // A server is known by the order of its allocation.
  type ServerId = nat

  datatype Pointer = Null | To(server: ServerId)

  /** A server object and its thread: no thread yet, setting itself up, in its event loop with the ready
      flag raised, past checkStopFlag with the flag cleared, and the two ways routine() returns. */
  datatype Phase = Allocated | Starting | Serving | Cleared | Exited | SetupFailed

  datatype Server = Server(phase: Phase, stop: int, deleted: bool)

  /** On whose behalf getInstance is running: a client, or one of the two calls in destroyInstance. */
  datatype Caller = Client | ToStop | ToJoin

  datatype Fault = NullDereference | UseAfterDelete

  datatype Pc =
    | Idle
    // getInstance
    | FirstCheck(caller: Caller)
    | Lock(caller: Caller)
    | SecondCheck(caller: Caller)
    | Create(caller: Caller, temp: ServerId)
    | AwaitReady(caller: Caller, temp: ServerId)
    | Publish(caller: Caller, found: Pointer)
    | Unlock(caller: Caller)
    | LastRead(caller: Caller)
    | Holds(found: Pointer)
    // destroyInstance, around its calls to getInstance
    | SetStop(target: Pointer)
    | Join(target: Pointer)
    | LockToDelete
    | Delete
    | Forget
    | UnlockDeleted
    | Crashed(fault: Fault)

  datatype State = State(
    unique: Pointer,
    owner: int,
    ready: int,
    servers: seq<Server>,
    threads: seq<Pc>)

  const NOBODY := -1

  datatype Step =
    | CallGetInstance(t: nat)
    | CallDestroyInstance(t: nat)
    | Advance(t: nat)
    | CreateFails(t: nat)
    | FinishedWith(t: nat)
    | SetUp(s: ServerId)
    | FailSetUp(s: ServerId)
    | SeeStop(s: ServerId)
    | LeaveLoop(s: ServerId)

  function Initial(threads: nat): State {
    State(Null, NOBODY, 0, [], seq(threads, _ => Idle))
  }

  /** routine() has returned, so join() does. */
  predicate Terminated(s: State, id: ServerId)
    requires id < |s.servers|
  {
    s.servers[id].phase.Exited? || s.servers[id].phase.SetupFailed?
  }

  predicate Exists(s: State, p: Pointer) {
    p.To? ==> p.server < |s.servers|
  }

  /** A thread can move unless it has nothing to do, or waits for the mutex or for a thread to end. */
  predicate CanAdvance(s: State, pc: Pc) {
    match pc
    case Idle => false
    case Holds(_) => false
    case Crashed(_) => false
    case Lock(_) => s.owner == NOBODY
    case LockToDelete => s.owner == NOBODY
    case Create(_, temp) => temp < |s.servers|
    case AwaitReady(_, temp) => temp < |s.servers|
    case SetStop(target) => Exists(s, target)
    case Join(target) =>
      Exists(s, target) && (target.To? && !s.servers[target.server].deleted ==> Terminated(s, target.server))
    case Delete => Exists(s, s.unique)
    case _ => true
  }

  predicate Enabled(s: State, step: Step) {
    match step
    case CallGetInstance(t) => t < |s.threads| && s.threads[t].Idle?
    case CallDestroyInstance(t) => t < |s.threads| && s.threads[t].Idle?
    case Advance(t) => t < |s.threads| && CanAdvance(s, s.threads[t])
    case CreateFails(t) => t < |s.threads| && s.threads[t].Create? && s.threads[t].temp < |s.servers|
    case FinishedWith(t) => t < |s.threads| && s.threads[t].Holds?
    case SetUp(id) => id < |s.servers| && s.servers[id].phase.Starting?
    case FailSetUp(id) => id < |s.servers| && s.servers[id].phase.Starting?
    case SeeStop(id) => id < |s.servers| && s.servers[id].phase.Serving? && s.servers[id].stop != 0
    case LeaveLoop(id) => id < |s.servers| && s.servers[id].phase.Cleared?
  }

  function At(s: State, t: nat, pc: Pc): State
    requires t < |s.threads|
  {
    s.(threads := s.threads[t := pc])
  }

  function WithServer(s: State, id: ServerId, server: Server): State
    requires id < |s.servers|
  {
    s.(servers := s.servers[id := server])
  }

  /** What getInstance's caller does with its result. */
  function Returned(caller: Caller, found: Pointer): Pc {
    match caller
    case Client => Holds(found)
    case ToStop => SetStop(found)
    case ToJoin => Join(found)
  }

  function AdvanceGet(s: State, t: nat): State
    requires t < |s.threads| && CanAdvance(s, s.threads[t])
  {
    match s.threads[t]
    case FirstCheck(c) => At(s, t, if s.unique.Null? then Lock(c) else LastRead(c))
    case Lock(c) => At(s, t, SecondCheck(c)).(owner := t)
    case SecondCheck(c) =>
      if s.unique.Null? then
        At(s, t, Create(c, |s.servers|)).(servers := s.servers + [Server(Allocated, 0, false)])
      else At(s, t, Unlock(c))
    case Create(c, temp) =>
      At(WithServer(s, temp, s.servers[temp].(phase := Starting)), t, AwaitReady(c, temp))
    case AwaitReady(c, temp) => if s.ready == 1 then At(s, t, Publish(c, To(temp))) else s
    case Publish(c, found) => At(s, t, Unlock(c)).(unique := found)
    case Unlock(c) => At(s, t, LastRead(c)).(owner := NOBODY)
    case LastRead(c) => At(s, t, Returned(c, s.unique))
    case _ => s
  }

  predicate Dead(s: State, p: Pointer)
    requires Exists(s, p)
  {
    p.To? && s.servers[p.server].deleted
  }

  function AdvanceDestroy(s: State, t: nat): State
    requires t < |s.threads| && CanAdvance(s, s.threads[t])
  {
    match s.threads[t]
    case SetStop(target) =>
      if target.Null? then At(s, t, Crashed(NullDereference))
      else if Dead(s, target) then At(s, t, Crashed(UseAfterDelete))
      else
        var server := s.servers[target.server];
        At(WithServer(s, target.server, server.(stop := Swapped(server.stop, 0, 1))), t, FirstCheck(ToJoin))
    case Join(target) =>
      if target.Null? then At(s, t, Crashed(NullDereference))
      else if Dead(s, target) then At(s, t, Crashed(UseAfterDelete))
      else At(s, t, LockToDelete)
    case LockToDelete => At(s, t, Delete).(owner := t)
    case Delete =>
      if s.unique.Null? then At(s, t, Forget)
      else if Dead(s, s.unique) then At(s, t, Crashed(UseAfterDelete))
      else At(WithServer(s, s.unique.server, s.servers[s.unique.server].(deleted := true)), t, Forget)
    case Forget => At(s, t, UnlockDeleted).(unique := Null)
    case UnlockDeleted => At(s, t, Idle).(owner := NOBODY)
    case _ => s
  }

  predicate Destroying(pc: Pc) {
    match pc
    case FirstCheck(c) => !c.Client?
    case Lock(c) => !c.Client?
    case SecondCheck(c) => !c.Client?
    case Create(c, _) => !c.Client?
    case AwaitReady(c, _) => !c.Client?
    case Publish(c, _) => !c.Client?
    case Unlock(c) => !c.Client?
    case LastRead(c) => !c.Client?
    case Idle => false
    case Holds(_) => false
    case _ => true
  }

  predicate InDestroy(pc: Pc) {
    pc.SetStop? || pc.Join? || pc.LockToDelete? || pc.Delete? || pc.Forget? || pc.UnlockDeleted?
  }

  function Next(s: State, step: Step): (r: State)
    requires Enabled(s, step)
    ensures |r.threads| == |s.threads|
  {
    match step
    case CallGetInstance(t) => At(s, t, FirstCheck(Client))
    case CallDestroyInstance(t) => At(s, t, FirstCheck(ToStop))
    case Advance(t) => if InDestroy(s.threads[t]) then AdvanceDestroy(s, t) else AdvanceGet(s, t)
    case CreateFails(t) =>
      var temp := s.threads[t].temp;
      At(WithServer(s, temp, s.servers[temp].(deleted := true)), t, Publish(s.threads[t].caller, Null))
    case FinishedWith(t) => At(s, t, Idle)
    case SetUp(id) => WithServer(s, id, s.servers[id].(phase := Serving)).(ready := Swapped(s.ready, 0, 1))
    case FailSetUp(id) => WithServer(s, id, s.servers[id].(phase := SetupFailed))
    case SeeStop(id) => WithServer(s, id, s.servers[id].(phase := Cleared)).(ready := Swapped(s.ready, 1, 0))
    case LeaveLoop(id) => WithServer(s, id, s.servers[id].(phase := Exited))
  }

  /** How the program may use the singleton: destroyInstance is called only when no other thread is inside
      getInstance or still uses what it returned, and nobody calls either function until it has finished. */
  predicate Serialised(s: State, step: Step) {
    match step
    case CallGetInstance(_) => forall u :: 0 <= u < |s.threads| ==> !Destroying(s.threads[u])
    case CallDestroyInstance(_) => forall u :: 0 <= u < |s.threads| ==> s.threads[u].Idle?
    case _ => true
  }

  // ----- the invariant -----

  /** The thread's program counter lies between pthread_mutex_lock and pthread_mutex_unlock. */
  predicate InsideLock(pc: Pc) {
    pc.SecondCheck? || pc.Create? || pc.AwaitReady? || pc.Publish? || pc.Unlock?
    || pc.Delete? || pc.Forget? || pc.UnlockDeleted?
  }

  /** The server has raised the ready flag. */
  predicate Signalled(server: Server) {
    server.phase.Serving? || server.phase.Cleared? || server.phase.Exited?
  }

  predicate ServerOk(server: Server) {
    && (server.deleted ==> server.phase.Allocated? || server.phase.Exited?)
    && (server.stop != 0 ==> Signalled(server))
  }

  /** The newest server exists, is not deleted, and is `id`. */
  predicate Newest(s: State, id: ServerId) {
    id + 1 == |s.servers| && !s.servers[id].deleted
  }

  predicate AllDeleted(s: State) {
    s.servers == [] || s.servers[|s.servers| - 1].deleted
  }

  /** The published server: alive, and it raised the ready flag. */
  predicate Published(s: State, p: Pointer) {
    p.To? && s.unique == p && Newest(s, p.server) && Signalled(s.servers[p.server])
  }

  predicate ServersOk(s: State) {
    && (forall i :: 0 <= i < |s.servers| ==> ServerOk(s.servers[i]))
    && (forall i :: 0 <= i < |s.servers| - 1 ==> s.servers[i].deleted)
    && s.ready == (if s.servers != [] && s.servers[|s.servers| - 1].phase.Serving? then 1 else 0)
  }

  /** When the mutex is free, either nothing is published and nothing alive, or the published server is. */
  predicate UniqueOk(s: State) {
    && NOBODY <= s.owner < |s.threads|
    && (s.unique.To? ==> Published(s, s.unique) || (s.owner != NOBODY && s.threads[s.owner].Forget?))
    && (s.unique.Null? ==> AllDeleted(s) || (s.owner != NOBODY && Creating(s.threads[s.owner])))
  }

  predicate Creating(pc: Pc) {
    pc.Create? || pc.AwaitReady? || pc.Publish?
  }

  predicate JoinedCaller(s: State, caller: Caller) {
    caller.ToJoin? ==> Published(s, s.unique) && s.servers[s.unique.server].stop != 0
  }

  /** What a thread may rely on where it is. */
  predicate Knows(s: State, pc: Pc) {
    match pc
    case FirstCheck(c) => JoinedCaller(s, c)
    case Lock(c) => !c.ToJoin?
    case SecondCheck(c) => !c.ToJoin?
    case Create(c, temp) =>
      && !c.ToJoin? && s.unique.Null? && Newest(s, temp)
      && s.servers[temp] == Server(Allocated, 0, false)
    case AwaitReady(c, temp) =>
      && !c.ToJoin? && s.unique.Null? && Newest(s, temp) && s.servers[temp].stop == 0
      && (s.servers[temp].phase.Starting? || s.servers[temp].phase.Serving? || s.servers[temp].phase.SetupFailed?)
    case Publish(c, found) =>
      && !c.ToJoin? && s.unique.Null?
      && (found.Null? ==> AllDeleted(s))
      && (found.To? ==> Newest(s, found.server) && s.servers[found.server] == Server(Serving, 0, false))
    case Unlock(c) => !c.ToJoin?
    case LastRead(c) => JoinedCaller(s, c)
    case Holds(found) => found.To? ==> Published(s, found)
    case SetStop(target) => target.To? ==> Published(s, target)
    case Join(target) => Published(s, target) && s.servers[target.server].stop != 0
    case LockToDelete => Published(s, s.unique) && s.servers[s.unique.server].phase.Exited?
    case Delete => Published(s, s.unique) && s.servers[s.unique.server].phase.Exited?
    case Forget =>
      s.unique.To? && s.unique.server + 1 == |s.servers|
      && s.servers[s.unique.server].deleted && s.servers[s.unique.server].phase.Exited?
    case UnlockDeleted => s.unique.Null? && AllDeleted(s)
    case Crashed(fault) => fault.NullDereference?
    case Idle => true
  }

  predicate ThreadOk(s: State, t: nat)
    requires t < |s.threads|
  {
    && (InsideLock(s.threads[t]) <==> s.owner == t)
    && Knows(s, s.threads[t])
    && (Destroying(s.threads[t]) ==> forall u :: 0 <= u < |s.threads| && u != t ==> s.threads[u].Idle?)
  }

  ghost predicate Inv(s: State) {
    ServersOk(s) && UniqueOk(s) && forall t :: 0 <= t < |s.threads| ==> ThreadOk(s, t)
  }

  lemma InitialInv(threads: nat)
    ensures Inv(Initial(threads))
  {}

  /** The thread that takes the step, if it is a thread's. */
  function Mover(step: Step): int {
    match step
    case CallGetInstance(t) => t
    case CallDestroyInstance(t) => t
    case Advance(t) => t
    case CreateFails(t) => t
    case FinishedWith(t) => t
    case _ => -1
  }

  lemma ServerStepServers(s: State, step: Step)
    requires ServersOk(s) && Enabled(s, step) && Mover(step) < 0
    ensures ServersOk(Next(s, step))
  {}

  lemma ThreadStepServers(s: State, step: Step)
    requires Inv(s) && Enabled(s, step) && Mover(step) >= 0
    ensures ServersOk(Next(s, step))
  {
    var t := Mover(step);
    assert ThreadOk(s, t);
    assert step.Advance? && s.threads[t].SecondCheck? && s.unique.Null? ==> AllDeleted(s);
    hide UniqueOk, Destroying;
  }

  lemma NextUnique(s: State, step: Step)
    requires Inv(s) && Enabled(s, step)
    ensures UniqueOk(Next(s, step))
  {
    hide ServersOk;
    var t := Mover(step);
    assert t >= 0 ==> ThreadOk(s, t);
    assert s.owner >= 0 ==> ThreadOk(s, s.owner);
  }

  lemma DestroyerMoves(s: State, t: nat)
    requires Inv(s) && t < |s.threads| && CanAdvance(s, s.threads[t]) && InDestroy(s.threads[t])
    ensures ThreadOk(AdvanceDestroy(s, t), t)
  {
    hide ServersOk, UniqueOk;
    assert ThreadOk(s, t);
  }

  lemma CallerMoves(s: State, t: nat)
    requires Inv(s) && t < |s.threads| && CanAdvance(s, s.threads[t]) && !InDestroy(s.threads[t])
    ensures ThreadOk(AdvanceGet(s, t), t)
  {
    assert s.ready == 1 ==> s.servers != [] && s.servers[|s.servers| - 1].phase.Serving?;
    hide ServersOk;
    assert ThreadOk(s, t);
    assert s.owner >= 0 ==> ThreadOk(s, s.owner);
  }

  lemma NextMover(s: State, step: Step)
    requires Inv(s) && Enabled(s, step) && Serialised(s, step) && Mover(step) >= 0
    ensures ThreadOk(Next(s, step), Mover(step))
  {
    hide ServersOk, UniqueOk;
    var t := Mover(step);
    if step.Advance? {
      if InDestroy(s.threads[t]) {
        DestroyerMoves(s, t);
      } else {
        CallerMoves(s, t);
      }
    } else {
      assert ThreadOk(s, t);
    }
  }

  lemma OtherAfterServerStep(s: State, step: Step, u: nat)
    requires Inv(s) && Enabled(s, step) && u < |s.threads| && Mover(step) < 0
    ensures ThreadOk(Next(s, step), u)
  {
    hide ServersOk, UniqueOk;
    assert ThreadOk(s, u);
  }

  lemma OtherAfterThreadStep(s: State, step: Step, u: nat)
    requires Inv(s) && Enabled(s, step) && Serialised(s, step)
    requires u < |s.threads| && u != Mover(step) && Mover(step) >= 0
    ensures ThreadOk(Next(s, step), u)
  {
    hide ServersOk, UniqueOk;
    assert ThreadOk(s, u) && ThreadOk(s, Mover(step));
    if s.threads[u].Idle? {
      hide Knows, Published, Newest, AllDeleted;
    }
  }

  lemma StepKeepsInv(s: State, step: Step)
    requires Inv(s) && Enabled(s, step) && Serialised(s, step)
    ensures Inv(Next(s, step))
  {
    hide ServersOk, UniqueOk, ThreadOk, Next, Serialised, Enabled;
    if Mover(step) < 0 {
      ServerStepServers(s, step);
    } else {
      ThreadStepServers(s, step);
    }
    NextUnique(s, step);
    forall u | 0 <= u < |s.threads| ensures ThreadOk(Next(s, step), u) {
      if Mover(step) < 0 {
        OtherAfterServerStep(s, step, u);
      } else if u == Mover(step) {
        NextMover(s, step);
      } else {
        OtherAfterThreadStep(s, step, u);
      }
    }
  }

  // ----- every run -----

  predicate RunOk(s: State, steps: seq<Step>)
    decreases |steps|
  {
    steps != [] ==> Enabled(s, steps[0]) && Serialised(s, steps[0]) && RunOk(Next(s, steps[0]), steps[1..])
  }

  function Run(s: State, steps: seq<Step>): (r: State)
    requires RunOk(s, steps)
    ensures |r.threads| == |s.threads|
    decreases |steps|
  {
    if steps == [] then s else Run(Next(s, steps[0]), steps[1..])
  }

  lemma {:induction false} RunKeepsInv(s: State, steps: seq<Step>)
    requires Inv(s) && RunOk(s, steps)
    ensures Inv(Run(s, steps))
    decreases |steps|
  {
    hide Inv, Next, Enabled, Serialised;
    if steps != [] {
      StepKeepsInv(s, steps[0]);
      RunKeepsInv(Next(s, steps[0]), steps[1..]);
    }
  }

  predicate Live(s: State, id: ServerId) {
    id < |s.servers| && !s.servers[id].deleted
  }

  /** At most one server is alive in any reachable state, and it is the published one or the one that the
      lock's owner is creating: none is leaked. */
  lemma OneServer(threads: nat, steps: seq<Step>, i: ServerId, j: ServerId)
    requires RunOk(Initial(threads), steps)
    requires var s := Run(Initial(threads), steps); Live(s, i) && Live(s, j)
    ensures i == j
    ensures var s := Run(Initial(threads), steps);
      s.unique == To(i) || (s.unique.Null? && 0 <= s.owner < |s.threads| && Creating(s.threads[s.owner]))
  {
    InitialInv(threads);
    RunKeepsInv(Initial(threads), steps);
    hide Run, RunOk, Knows;
    var s := Run(Initial(threads), steps);
    assert s.owner >= 0 ==> ThreadOk(s, s.owner);
  }

  /** A published server raised the ready flag before, and is alive except while destroyInstance, holding
      the lock, is between its delete and its store of NULL. */
  lemma PublishedWasReady(threads: nat, steps: seq<Step>)
    requires RunOk(Initial(threads), steps)
    requires Run(Initial(threads), steps).unique.To?
    ensures var s := Run(Initial(threads), steps);
      && s.unique.server < |s.servers| && Signalled(s.servers[s.unique.server])
      && (s.servers[s.unique.server].deleted <==> 0 <= s.owner < |s.threads| && s.threads[s.owner].Forget?)
  {
    InitialInv(threads);
    RunKeepsInv(Initial(threads), steps);
    hide Run, RunOk;
    var s := Run(Initial(threads), steps);
    assert s.owner >= 0 ==> ThreadOk(s, s.owner);
  }

  /** What a thread can rely on, wherever it is: the lock excludes; a pointer that a client holds is the
      published server, alive; the flag a creator waits for is raised by no server but its own; after the
      join the flag is down; no server is used after its deletion. */
  lemma EveryThread(threads: nat, steps: seq<Step>, t: nat)
    requires RunOk(Initial(threads), steps) && t < threads
    ensures var s := Run(Initial(threads), steps);
      var pc := s.threads[t];
      && (InsideLock(pc) <==> s.owner == t)
      && (pc.Holds? && pc.found.To? ==> s.unique == pc.found && Live(s, pc.found.server))
      && (pc.AwaitReady? ==> Live(s, pc.temp) && (s.ready == 1 <==> s.servers[pc.temp].phase.Serving?))
      && (pc.LockToDelete? || pc.Delete? || pc.Forget? || pc.UnlockDeleted? ==> s.ready == 0)
      && (pc.Create? ==> s.ready == 0)
      && (pc.Crashed? ==> pc.fault.NullDereference?)
  {
    InitialInv(threads);
    RunKeepsInv(Initial(threads), steps);
    hide Run, RunOk;
    var s := Run(Initial(threads), steps);
    assert ThreadOk(s, t);
  }

  /** When its server cannot set itself up, a creator waits for ever: it keeps the lock, nothing is ever
      published, and nobody gets out of getInstance through the lock. */
  lemma {:induction false} FailedSetUpBlocks(s: State, steps: seq<Step>, t: nat)
    requires Inv(s) && RunOk(s, steps)
    requires t < |s.threads| && s.threads[t].AwaitReady?
    requires s.threads[t].temp < |s.servers| && s.servers[s.threads[t].temp].phase.SetupFailed?
    ensures var r := Run(s, steps);
      r.threads[t] == s.threads[t] && r.owner == t && r.unique.Null? && r.ready == 0
    decreases |steps|
  {
    assert ThreadOk(s, t);
    assert s.ready == 0;
    if steps != [] {
      var r := Next(s, steps[0]);
      FailedSetUpStep(s, steps[0], t);
      StepKeepsInv(s, steps[0]);
      FailedSetUpBlocks(r, steps[1..], t);
    }
  }

  lemma FailedSetUpStep(s: State, step: Step, t: nat)
    requires Inv(s) && Enabled(s, step)
    requires t < |s.threads| && s.threads[t].AwaitReady?
    requires s.threads[t].temp < |s.servers| && s.servers[s.threads[t].temp].phase.SetupFailed?
    ensures var r := Next(s, step);
      && r.threads[t] == s.threads[t] && s.threads[t].temp < |r.servers|
      && r.servers[s.threads[t].temp].phase.SetupFailed?
  {
    assert ThreadOk(s, t);
    var u := Mover(step);
    assert u >= 0 ==> ThreadOk(s, u);
  }

  /** The run takes the thread out of where it is. */
  ghost predicate Frees(s: State, steps: seq<Step>, t: nat)
    requires t < |s.threads|
  {
    RunOk(s, steps) && Run(s, steps).threads[t] != s.threads[t]
  }

  lemma ReadyServerFrees(s: State, t: nat)
    requires Inv(s) && t < |s.threads| && s.threads[t].AwaitReady? && s.ready == 1
    ensures Frees(s, [Advance(t)], t)
  {
    assert ThreadOk(s, t);
    hide Inv;
    LeadsOne(s, Advance(t));
  }

  lemma StartingServerFrees(s: State, t: nat)
    requires Inv(s) && t < |s.threads| && s.threads[t].AwaitReady? && s.threads[t].temp < |s.servers|
    requires s.servers[s.threads[t].temp].phase.Starting?
    ensures Frees(s, [SetUp(s.threads[t].temp)] + [Advance(t)], t)
  {
    var step := SetUp(s.threads[t].temp);
    var r := Next(s, step);
    StepKeepsInv(s, step);
    WaitsForOwn(s, t);
    WaitsForOwn(r, t);
    ReadyServerFrees(r, t);
    LeadsOne(s, step);
    hide Inv, RunOk, Run;
    LeadsThen(s, [step], r, [Advance(t)], Run(r, [Advance(t)]));
  }

  lemma WaitsForOwn(s: State, t: nat)
    requires Inv(s) && t < |s.threads| && s.threads[t].AwaitReady?
    ensures var temp := s.threads[t].temp;
      && temp < |s.servers| && (s.ready == 1 <==> s.servers[temp].phase.Serving?)
      && (s.servers[temp].phase.Starting? || s.servers[temp].phase.Serving? || s.servers[temp].phase.SetupFailed?)
  {
    assert ThreadOk(s, t);
  }

  /** A creator's wait can end if and only if its server has not failed to set itself up. */
  lemma WaitEndsIff(s: State, t: nat)
    requires Inv(s) && t < |s.threads| && s.threads[t].AwaitReady?
    ensures s.threads[t].temp < |s.servers|
    ensures (exists steps :: Frees(s, steps, t)) <==> !s.servers[s.threads[t].temp].phase.SetupFailed?
  {
    WaitsForOwn(s, t);
    var phase := s.servers[s.threads[t].temp].phase;
    if phase.SetupFailed? {
      forall steps ensures !Frees(s, steps, t) {
        if RunOk(s, steps) {
          FailedSetUpBlocks(s, steps, t);
        }
      }
    } else {
      hide Inv, Frees;
      if phase.Starting? {
        StartingServerFrees(s, t);
      } else {
        ReadyServerFrees(s, t);
      }
    }
  }

  ghost predicate Leads(s: State, steps: seq<Step>, t: State) {
    RunOk(s, steps) && Run(s, steps) == t
  }

  lemma LeadsOne(s: State, step: Step)
    requires Enabled(s, step) && Serialised(s, step)
    ensures Leads(s, [step], Next(s, step))
  {
    assert [step][1..] == [] && RunOk(Next(s, step), []) && Run(Next(s, step), []) == Next(s, step);
  }

  lemma {:induction false} LeadsThen(s: State, a: seq<Step>, t: State, b: seq<Step>, u: State)
    requires Leads(s, a, t) && Leads(t, b, u)
    ensures Leads(s, a + b, u)
    decreases |a|
  {
    if a == [] {
      assert a + b == b;
    } else {
      hide Next, Enabled, Serialised;
      assert (a + b)[1..] == a[1..] + b;
      LeadsThen(Next(s, a[0]), a[1..], t, b, u);
    }
  }

  /** A thread that crashes does so because its first getInstance in destroyInstance returned NULL, and then it
      does: destroyInstance calls setStopFlag through that pointer. */
  lemma CrashesIff(s: State, step: Step, t: nat)
    requires Inv(s) && Enabled(s, step) && t < |s.threads| && !s.threads[t].Crashed?
    ensures var pc := Next(s, step).threads[t];
      && (pc.Crashed? <==> step == Advance(t) && s.threads[t] == SetStop(Null))
      && (pc.Crashed? ==> pc == Crashed(NullDereference))
  {
    assert ThreadOk(s, t);
  }

  /** It returned NULL exactly when uniq_instance_ was NULL at its last read. */
  lemma FirstCallReturnsNullIff(s: State, step: Step, t: nat)
    requires Inv(s) && Enabled(s, step) && t < |s.threads| && s.threads[t] != SetStop(Null)
    ensures Next(s, step).threads[t] == SetStop(Null) <==>
            step == Advance(t) && s.threads[t] == LastRead(ToStop) && s.unique.Null?
  {
    assert ThreadOk(s, t);
  }

  /** Why destroyInstance must be serialised: a getInstance that another thread starts while the deletion is
      under way returns the deleted server. */
  lemma OverlappingCallGetsDeletedServer(s: State, t: nat, u: nat)
    requires Inv(s) && t < |s.threads| && u < |s.threads| && t != u
    requires s.threads[t].Delete? && s.threads[u].Idle?
    ensures Enabled(s, Advance(t))
    ensures var s1 := Next(s, Advance(t));
      && Enabled(s1, CallGetInstance(u)) && !Serialised(s1, CallGetInstance(u))
      && var s2 := Next(s1, CallGetInstance(u));
      && Enabled(s2, Advance(u))
      && var s3 := Next(s2, Advance(u));
      && Enabled(s3, Advance(u))
      && var s4 := Next(s3, Advance(u));
      && s4.threads[u].Holds? && s4.threads[u].found.To? && !Live(s4, s4.threads[u].found.server)
  {
    assert ThreadOk(s, t);
    var s1 := Next(s, Advance(t));
    assert s1.threads[t].Forget? && Destroying(s1.threads[t]);
  }
}
