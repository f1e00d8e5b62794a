/** What a successful unpublish leaves behind: a port and a config file exactly if the port is still in use. */
module ProtocolLeak {
  import opened NodeProtocol
  import opened ProtocolInverse
  import opened ProtocolSafety
  import opened ProtocolCrash

  /** From the inspected mount table on. */
  predicate Releasing(at: Loc) {
    at.Inspected? || HasReleased(at) || at.Scheduling? || at.Removed? || at.Failed?
  }

  /**
   What thread t, past the inspection, owes its volume v.  `used`: the port was found in use.  `orphan`: there was a
   file without a port.
   */
  ghost predicate Owes(g: Node, th: Thread, v: string, used: bool, orphan: bool) {
    && th.v == v && (if used then th.at.Kept? && v in g.maps.ports else Releasing(th.at))
    && (th.at.Inspected? || HasReleased(th.at) ==> !orphan)
    && (th.at.Scheduling? || th.at.Removed? ==> (v in g.files <==> orphan))
  }

  /** The inspection finds the port in use, or there is no way to tell. */
  ghost predicate FoundInUse(g: Node, v: string, readable: bool) {
    v in g.maps.ports && (!readable || g.InUse(g.maps.ports[v]))
  }

  ghost predicate Orphan(g: Node, v: string) {
    v in g.files && v !in g.maps.ports
  }

  lemma InspectOwes(g: Node, t: Tid, th: Thread, readable: bool)
    requires Can(g, th, Inspect(readable))
    ensures var (g', th') := Act(g, t, th, Inspect(readable));
            Owes(g', th', th.v, FoundInUse(g, th.v, readable), Orphan(g, th.v))
  {
  }

  lemma OwnStepOwes(g: Node, t: Tid, th: Thread, step: Step, v: string, used: bool, orphan: bool)
    requires Can(g, th, step) && Owes(g, th, v, used, orphan) && !step.Return?
    ensures Owes(Act(g, t, th, step).0, Act(g, t, th, step).1, v, used, orphan)
  {
    if step.Clean? || step.Reset? || step.Schedule? || step.Release? || step.Rollback? {
      FilesStay(g, t, th, step);
    }
  }

  lemma NextOwes(s: State, a: Action, t: Tid, v: string, used: bool, orphan: bool)
    requires Steady(s) && Enabled(s, a) && a != Run(t, Return) && !a.Crash?
    requires Owes(s.node, s.Th(t), v, used, orphan)
    ensures Owes(Next(s, a).node, Next(s, a).Th(t), v, used, orphan)
  {
    if a.Run? && a.t == t {
      OwnStepOwes(s.node, t, s.Th(t), a.step, v, used, orphan);
    } else if a.Run? {
      var th := s.Th(a.t);
      assert ThreadOk(s.node, a.t, th);
      if th.at.Idle? {
        StartTouchesNothing(s.node, a.t, th, a.step);
      } else {
        StepTouches(s.node, a.t, th, a.step);
      }
    }
  }

  /** Thread t neither returns nor is cut off by a crash from i to j. */
  ghost predicate Uncut(actions: seq<Action>, i: nat, j: nat, t: Tid) {
    j <= |actions| && forall k :: i <= k < j ==> actions[k] != Run(t, Return) && !actions[k].Crash?
  }

  lemma {:induction false} OwesThroughout(
    states: seq<State>, actions: seq<Action>, i: nat, j: nat, t: Tid, v: string, used: bool, orphan: bool)
    requires OneCallRun(states, actions) && i <= j && Uncut(actions, i, j, t)
    requires Owes(states[i].node, states[i].Th(t), v, used, orphan)
    ensures Owes(states[j].node, states[j].Th(t), v, used, orphan)
  {
    if i < j {
      var n := j - 1;
      OwesThroughout(states, actions, i, n, t, v, used, orphan);
      SteadyAlways(states, actions, n);
      assert Enabled(states[n], actions[n]) && states[n + 1] == Next(states[n], actions[n]);
      NextOwes(states[n], actions[n], t, v, used, orphan);
    }
  }

  /** Thread t inspects the mount table at i and has returned without an error by j. */
  ghost predicate Unpublished(
    states: seq<State>, actions: seq<Action>, i: nat, j: nat, t: Tid, readable: bool)
  {
    && |states| == |actions| + 1 && i < j && Uncut(actions, i + 1, j, t)
    && actions[i] == Run(t, Inspect(readable))
    && (states[j].Th(t).at == Removed || states[j].Th(t).at == Kept)
  }

  /**
   With one call per share, after a successful unpublish the share has a port exactly when its port was found in use,
       and
   a config file exactly when it has a port or RemoveTunnel met a file without one,
       which only a startup rollback leaves.
   */
  lemma LeakExactly(states: seq<State>, actions: seq<Action>, i: nat, j: nat, t: Tid, readable: bool)
    requires OneCallRun(states, actions) && Unpublished(states, actions, i, j, t, readable)
    ensures var v, g, g' := states[i].Th(t).v, states[i].node, states[j].node;
            && (v in g'.maps.ports <==> FoundInUse(g, v, readable))
            && (v in g'.files <==> FoundInUse(g, v, readable) || Orphan(g, v))
  {
    var v, g := states[i].Th(t).v, states[i].node;
    assert Enabled(states[i], actions[i]) && states[i + 1] == Next(states[i], actions[i]);
    InspectOwes(g, t, states[i].Th(t), readable);
    OwesThroughout(states, actions, i + 1, j, t, v, FoundInUse(g, v, readable), Orphan(g, v));
    SteadyAlways(states, actions, j);
    assert ThreadSteady(states[j].node, states[j].Th(t));
  }

  /**
   A thread that is not in flight and whose volume has no port has no file either, as long as every file is
   accounted for.
   */
  lemma NoPortNoFile(s: State, t: Tid)
    requires Steady(s) && Covered(s) && s.Th(t).at.Removing? && s.Th(t).v !in s.node.maps.ports
    ensures s.Th(t).v !in s.node.files
  {
    assert forall u: Tid :: Carries(s, u, s.Th(t).v) ==> u == t;
  }

  /**
   No leak: if startup rollbacks delete their files, a successful unpublish with a readable table and no mount through
   the share's port leaves neither a port nor a config file of that share.
   */
  lemma NoLeak(states: seq<State>, actions: seq<Action>, i: nat, j: nat, t: Tid)
    requires OneCallRun(states, actions) && DeletingRun(actions) && Unpublished(states, actions, i, j, t, true)
    requires var v, g := states[i].Th(t).v, states[i].node; v in g.maps.ports ==> !g.InUse(g.maps.ports[v])
    ensures var v := states[i].Th(t).v; v !in states[j].node.maps.ports && v !in states[j].node.files
  {
    SteadyAlways(states, actions, i);
    DeletingRunsAreCovered(states, actions, i);
    assert Enabled(states[i], actions[i]);
    if states[i].Th(t).v !in states[i].node.maps.ports {
      NoPortNoFile(states[i], t);
    }
    LeakExactly(states, actions, i, j, t, true);
  }

  /** In a guarded run the port of a share is in use exactly when a mount of that share is left. */
  lemma InUseMeansMounted(states: seq<State>, actions: seq<Action>, n: nat, v: string)
    requires GuardedRun(states, actions) && n < |states| && v in states[n].node.maps.ports
    ensures states[n].node.InUse(states[n].node.maps.ports[v]) <==> exists m <- states[n].node.mounts :: m.share == v
  {
    var g := states[n].node;
    SafeAlways(states, actions, n);
    assert forall m <- g.mounts :: g.maps.owners[m.port] == m.share;
    if exists m <- g.mounts :: m.share == v {
      var m :| m in g.mounts && m.share == v;
      assert m.port == g.maps.ports[v];
    }
  }
}
