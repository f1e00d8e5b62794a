/**
 What holds over every interleaving, with no assumption about the callers or the
 operating system: lock discipline, and when exactly the two maps stop being inverse.
 */
module ProtocolInverse {
  import opened Wrappers
  import opened PortMaps
  import opened NodeProtocol
  import Debounce

  predicate InSection(at: Loc) {
    HasFreePort(at) || HasCommitted(at)
  }

  /** Holds the lock and a port that is in nobody's name. */
  predicate HasFreePort(at: Loc) {
    at.Writing? || at.Committing? || at.Undoing?
  }

  /** Holds the lock and has put its pair into the maps. */
  predicate HasCommitted(at: Loc) {
    at.Checking? || at.Waiting?
  }

  /** Took its pair out of the maps and may put it back. */
  predicate HasReleased(at: Loc) {
    at.Cleaning? || at.Resetting? || at.Deleting? || at.DeletingLast? || at.RollingBack?
  }

  predicate HoldsLock(at: Loc) {
    InSection(at) || at.Inspected?
  }

  /** What one thread may rely on. */
  ghost predicate ThreadOk(g: Node, t: Tid, th: Thread) {
    && (HoldsLock(th.at) <==> g.lock == Some(t))
    && (th.at.Inspected? ==> th.v in g.maps.ports && g.maps.ports[th.v] == th.p)
    && (HasFreePort(th.at) ==> th.v !in g.maps.ports && th.p !in g.maps.owners && g.range.Has(th.p))
    && (HasCommitted(th.at) ==>
          && th.v in g.maps.ports && g.maps.ports[th.v] == th.p
          && th.p in g.maps.owners && g.maps.owners[th.p] == th.v)
    && (HasReleased(th.at) ==> g.range.Has(th.p))
  }

  ghost predicate NodeOk(g: Node) {
    InRange(g.maps, g.range) && Debounce.WellArmed(g.timer)
  }

  ghost predicate Base(s: State) {
    NodeOk(s.node) && forall t: Tid :: ThreadOk(s.node, t, s.Th(t))
  }

  /** The maps change only while nobody else holds the lock, and the lock only between free and t. */
  ghost predicate RespectsLock(g: Node, g': Node, t: Tid) {
    && g'.range == g.range
    && (g'.maps == g.maps || g.lock == None || g.lock == Some(t))
    && (g'.lock == g.lock || (g.lock in {None, Some(t)} && g'.lock in {None, Some(t)}))
  }

  /** The steps of EnsureTunnel. */
  predicate IsEnsureStep(step: Step) {
    step.Lookup? || step.Enter? || step.Write? || step.Commit? || step.Check? || step.Wake? || step.Undo?
  }

  ghost predicate KeepsBase(g: Node, t: Tid, th: Thread, step: Step)
    requires Can(g, th, step)
  {
    var (g', th') := Act(g, t, th, step);
    NodeOk(g') && ThreadOk(g', t, th') && RespectsLock(g, g', t)
  }

  lemma EnterBase(g: Node, t: Tid, th: Thread, busy: set<int>)
    requires NodeOk(g) && ThreadOk(g, t, th) && Can(g, th, Enter(busy))
    ensures KeepsBase(g, t, th, Enter(busy))
  {
    PickedIsFree(g.maps.owners, busy, g.range);
  }

  lemma EnsureBase(g: Node, t: Tid, th: Thread, step: Step)
    requires NodeOk(g) && ThreadOk(g, t, th) && Can(g, th, step)
    requires IsEnsureStep(step) && !step.Enter?
    ensures KeepsBase(g, t, th, step)
  {
  }

  lemma OtherBase(g: Node, t: Tid, th: Thread, step: Step)
    requires NodeOk(g) && ThreadOk(g, t, th) && Can(g, th, step)
    requires !IsEnsureStep(step) && !step.Inspect? && !step.Release?
    ensures KeepsBase(g, t, th, step)
  {
  }

  lemma ReleaseBase(g: Node, t: Tid, th: Thread, step: Step)
    requires NodeOk(g) && ThreadOk(g, t, th) && Can(g, th, step) && (step.Inspect? || step.Release?)
    ensures KeepsBase(g, t, th, step)
  {
  }

  lemma RunBase(s: State, t: Tid, step: Step)
    requires Base(s) && Enabled(s, Run(t, step))
    ensures Base(Next(s, Run(t, step)))
    ensures KeepsBase(s.node, t, s.Th(t), step)
  {
    var g, th := s.node, s.Th(t);
    assert ThreadOk(g, t, th);
    if step.Enter? {
      EnterBase(g, t, th, step.busy);
    } else if IsEnsureStep(step) {
      EnsureBase(g, t, th, step);
    } else if step.Inspect? || step.Release? {
      ReleaseBase(g, t, th, step);
    } else {
      OtherBase(g, t, th, step);
    }
    var s' := Next(s, Run(t, step));
    forall u: Tid
      ensures ThreadOk(s'.node, u, s'.Th(u))
    {
      assert ThreadOk(g, u, s.Th(u));
    }
  }

  lemma BaseStep(s: State, a: Action)
    requires Base(s) && Enabled(s, a)
    ensures Base(Next(s, a))
  {
    var s' := Next(s, a);
    match a {
      case Run(t, step) => RunBase(s, t, step);
      case Crash(order) => RecoveredContents(order, s.node.files, s.node.range);
      case _ =>
        forall u: Tid
          ensures ThreadOk(s'.node, u, s'.Th(u))
        {
          assert ThreadOk(s.node, u, s.Th(u));
        }
    }
  }

  lemma {:induction false} BaseAlways(states: seq<State>, actions: seq<Action>, n: nat)
    requires Behaviour(states, actions) && n < |states|
    ensures Base(states[n])
  {
    if n > 0 {
      BaseAlways(states, actions, n - 1);
      BaseStep(states[n - 1], actions[n - 1]);
    }
  }

  // ------------------------------------------------------------------
  // When the maps stop being inverse
  // ------------------------------------------------------------------

  /** The volume has meanwhile another port, or the port another volume. */
  predicate Clash(m: Maps, v: string, p: int) {
    (v in m.ports && m.ports[v] != p) || (p in m.owners && m.owners[p] != v)
  }

  /** The only two steps that can break the pairing, each with the condition one could test before taking it. */
  ghost predicate Breaks(s: State, a: Action) {
    match a
    case Run(t, Rollback) => Clash(s.node.maps, s.Th(t).v, s.Th(t).p)
    case Crash(order) => !NoSharedPort(s.node.files, s.node.range)
    case _ => false
  }

  lemma RunInverse(g: Node, t: Tid, th: Thread, step: Step)
    requires ThreadOk(g, t, th) && Inverse(g.maps) && Can(g, th, step)
    ensures Inverse(Act(g, t, th, step).0.maps) <==> !(step.Rollback? && Clash(g.maps, th.v, th.p))
  {
    match step {
      case Commit => BindKeepsInverse(g.maps, th.v, th.p);
      case Rollback => BindKeepsInverse(g.maps, th.v, th.p);
      case Wake => UnbindKeepsInverse(g.maps, th.v, th.p);
      case Release => UnbindKeepsInverse(g.maps, th.v, th.p);
      case _ =>
    }
  }

  /** Every step keeps the maps inverse unless it breaks them in one of the two ways above, and then it really does. */
  lemma InverseExactly(s: State, a: Action)
    requires Base(s) && Inverse(s.node.maps) && Enabled(s, a)
    ensures Inverse(Next(s, a).node.maps) <==> !Breaks(s, a)
  {
    match a {
      case Run(t, step) =>
        assert ThreadOk(s.node, t, s.Th(t));
        RunInverse(s.node, t, s.Th(t), step);
      case Crash(order) => RecoveryIsInverseExactly(order, s.node.files, s.node.range);
      case _ =>
    }
  }

  lemma {:induction false} InverseUpTo(states: seq<State>, actions: seq<Action>, n: nat)
    requires Behaviour(states, actions) && n < |states|
    requires forall i :: 0 <= i < n ==> !Breaks(states[i], actions[i])
    ensures Inverse(states[n].node.maps)
  {
    if n > 0 {
      InverseUpTo(states, actions, n - 1);
      BaseAlways(states, actions, n - 1);
      InverseExactly(states[n - 1], actions[n - 1]);
    }
  }

  /**
   Over whole runs: the maps are inverse at every instant exactly when no step breaks them; ports are in range
   regardless.
   */
  lemma InverseOverRuns(states: seq<State>, actions: seq<Action>)
    requires Behaviour(states, actions)
    ensures forall n :: 0 <= n < |states| ==> InRange(states[n].node.maps, states[n].node.range)
    ensures (forall n :: 0 <= n < |states| ==> Inverse(states[n].node.maps)) <==>
            (forall i :: 0 <= i < |actions| ==> !Breaks(states[i], actions[i]))
  {
    forall n | 0 <= n < |states|
      ensures Base(states[n])
    {
      BaseAlways(states, actions, n);
    }
    if forall i :: 0 <= i < |actions| ==> !Breaks(states[i], actions[i]) {
      forall n | 0 <= n < |states|
        ensures Inverse(states[n].node.maps)
      {
        InverseUpTo(states, actions, n);
      }
    }
    if forall n :: 0 <= n < |states| ==> Inverse(states[n].node.maps) {
      forall i | 0 <= i < |actions|
        ensures !Breaks(states[i], actions[i])
      {
        InverseExactly(states[i], actions[i]);
        assert Inverse(states[i + 1].node.maps);
      }
    }
  }

  /** Tunnels never outnumber ports in a run without a breaking step. */
  lemma TunnelsFitOverRuns(states: seq<State>, actions: seq<Action>, n: nat)
    requires Behaviour(states, actions) && n < |states|
    requires forall i :: 0 <= i < n ==> !Breaks(states[i], actions[i])
    ensures |states[n].node.maps.ports| <= states[n].node.range.size
  {
    InverseUpTo(states, actions, n);
    BaseAlways(states, actions, n);
    TunnelsFitTheRange(states[n].node.maps, states[n].node.range);
  }
}
