/** What getInstance returns, and when it creates a server. */
module LogServerCalls {
  import opened LogServers

  /** A step allocates one server, with no thread yet, if and only if its thread is at the second check, under the
      lock, and uniq_instance_ is NULL there; no other step allocates, and none frees a place. */
  lemma AllocatesIff(s: State, step: Step)
    requires Inv(s) && Enabled(s, step)
    ensures var r := Next(s, step);
      if step.Advance? && s.threads[step.t].SecondCheck? && s.unique.Null? then
        && s.owner == step.t
        && r.servers == s.servers + [Server(Allocated, 0, false)]
        && r.threads[step.t] == Create(s.threads[step.t].caller, |s.servers|)
      else |r.servers| == |s.servers|
  {
    if step.Advance? {
      assert ThreadOk(s, step.t);
    }
  }

  /** With a server published, getInstance returns it without taking the lock. */
  lemma PublishedNeedsNoLock(s: State, t: nat)
    requires t < |s.threads| && s.threads[t].FirstCheck? && s.unique.To?
    ensures Enabled(s, Advance(t))
    ensures var r := Next(s, Advance(t));
      && Enabled(r, Advance(t))
      && var u := Next(r, Advance(t));
      && u.unique == s.unique && u.owner == s.owner && u.ready == s.ready && u.servers == s.servers
      && u.threads[t] == (match s.threads[t].caller
                          case Client => Holds(s.unique)
                          case ToStop => SetStop(s.unique)
                          case ToJoin => Join(s.unique))
  {}

  // ----- getInstance finds a server -----

  /** The thread has a server, or is sure to get one, wherever getInstance has looked for it. */
  predicate HasServer(s: State, pc: Pc) {
    match pc
    case Publish(_, found) => found.To?
    case Unlock(_) => s.unique.To?
    case LastRead(_) => s.unique.To?
    case Holds(found) => found.To?
    case SetStop(target) => target.To?
    case Join(target) => target.To?
    case Crashed(_) => false
    case _ => true
  }

  ghost predicate AllHaveServer(s: State) {
    forall t :: 0 <= t < |s.threads| ==> HasServer(s, s.threads[t])
  }

  lemma MoverHasServer(s: State, step: Step)
    requires Inv(s) && Enabled(s, step) && !step.CreateFails? && AllHaveServer(s) && Mover(step) >= 0
    ensures HasServer(Next(s, step), Next(s, step).threads[Mover(step)])
  {
    assert ThreadOk(s, Mover(step));
    assert HasServer(s, s.threads[Mover(step)]);
    hide ServersOk, UniqueOk;
  }

  lemma OtherHasServer(s: State, step: Step, u: nat)
    requires Inv(s) && Enabled(s, step) && AllHaveServer(s) && u < |s.threads| && u != Mover(step)
    ensures HasServer(Next(s, step), Next(s, step).threads[u])
  {
    assert HasServer(s, s.threads[u]);
    if Mover(step) >= 0 {
      assert ThreadOk(s, Mover(step));
    }
    hide ServersOk, UniqueOk, Knows;
  }

  lemma StepFinds(s: State, step: Step)
    requires Inv(s) && Enabled(s, step) && !step.CreateFails? && AllHaveServer(s)
    ensures AllHaveServer(Next(s, step))
  {
    hide Inv, HasServer, Next;
    forall u | 0 <= u < |s.threads| ensures HasServer(Next(s, step), Next(s, step).threads[u]) {
      if u == Mover(step) {
        MoverHasServer(s, step);
      } else {
        OtherHasServer(s, step, u);
      }
    }
  }

  lemma {:induction false} RunFinds(s: State, steps: seq<Step>)
    requires Inv(s) && RunOk(s, steps) && AllHaveServer(s)
    requires forall i :: 0 <= i < |steps| ==> !steps[i].CreateFails?
    ensures AllHaveServer(Run(s, steps))
    decreases |steps|
  {
    hide Inv, HasServer, Next, AllHaveServer;
    if steps != [] {
      StepKeepsInv(s, steps[0]);
      StepFinds(s, steps[0]);
      RunFinds(Next(s, steps[0]), steps[1..]);
    }
  }

  /** As long as create() does not fail, getInstance never returns NULL, not even after any number of
      destroyInstance calls: whoever is past the lock sees a server, whoever got a result got a server, and no
      thread crashes. */
  lemma CallsFindServer(threads: nat, steps: seq<Step>, t: nat)
    requires RunOk(Initial(threads), steps) && t < threads
    requires forall i :: 0 <= i < |steps| ==> !steps[i].CreateFails?
    ensures var s := Run(Initial(threads), steps);
      var pc := s.threads[t];
      && (pc.Unlock? || pc.LastRead? ==> s.unique.To?)
      && (pc.Holds? ==> pc.found.To?)
      && (pc.SetStop? || pc.Join? ==> pc.target.To?)
      && !pc.Crashed?
  {
    InitialInv(threads);
    RunFinds(Initial(threads), steps);
    hide Run, RunOk, Inv, AllHaveServer, Next, Enabled, Serialised;
    HasServerMeans(Run(Initial(threads), steps), t);
  }

  lemma HasServerMeans(s: State, t: nat)
    requires AllHaveServer(s) && t < |s.threads|
    ensures var pc := s.threads[t];
      && (pc.Unlock? || pc.LastRead? ==> s.unique.To?)
      && (pc.Holds? ==> pc.found.To?)
      && (pc.SetStop? || pc.Join? ==> pc.target.To?)
      && !pc.Crashed?
  {
    assert HasServer(s, s.threads[t]);
  }
}
