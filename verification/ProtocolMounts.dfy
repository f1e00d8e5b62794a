/**
 Tunnel safety with no hypothesis at all: the exact steps, each with a condition that one could test
 before taking it, after which a live mount is no longer backed by the maps and the directory.
 */
module ProtocolMounts {
  import opened PortMaps
  import opened NodeProtocol
  import opened ProtocolInverse
  import opened ProtocolSafety
  import opened ProtocolCrash

  ghost predicate AllBacked(g: Node) {
    forall m <- g.mounts :: MountBacked(g, m)
  }

  predicate MountsOf(g: Node, v: string) {
    exists m <- g.mounts :: m.share == v
  }

  /** Some mount goes through p for another share, or through another port for v. */
  predicate MountsAgainst(g: Node, v: string, p: int) {
    exists m <- g.mounts :: (m.share == v && m.port != p) || (m.port == p && m.share != v)
  }

  /** w's config, of the same port as v's, is listed after v's. */
  ghost predicate Overtakes(order: seq<string>, files: map<string, int>, r: PortRange, v: string, w: string) {
    && Recoverable(files, r, v) && Recoverable(files, r, w) && files[w] == files[v]
    && exists i, j :: 0 <= i < j < |order| && order[i] == v && order[j] == w
  }

  /**
   A mount through a stale port; a startup rollback, a release or a deletion under a mount; a rollback against a
   mount.
   */
  ghost predicate StepUnbacks(g: Node, th: Thread, step: Step) {
    match step
    case MountShare(mounted) => mounted && !MountBacked(g, Mount(th.target, th.v, th.p))
    case Wake => !g.running && MountsOf(g, th.v)
    case Release => g.InUse(th.p) || MountsOf(g, th.v)
    case Delete(ok) => ok && MountsOf(g, th.v)
    case Rollback => MountsAgainst(g, th.v, th.p)
    case _ => false
  }

  /** One of these steps, or a recovery that gives a mounted port away. */
  ghost predicate Unbacks(s: State, a: Action) {
    match a
    case Run(t, step) => StepUnbacks(s.node, s.Th(t), step)
    case Crash(order) => exists m <- s.node.mounts, w :: Overtakes(order, s.node.files, s.node.range, m.share, w)
    case _ => false
  }

  // ------------------------------------------------------------------
  // Steps
  // ------------------------------------------------------------------

  ghost predicate Exactly(g: Node, t: Tid, th: Thread, step: Step)
    requires Can(g, th, step)
  {
    AllBacked(Act(g, t, th, step).0) <==> !StepUnbacks(g, th, step)
  }

  lemma MapStep(g: Node, t: Tid, th: Thread, step: Step)
    requires ThreadOk(g, t, th) && AllBacked(g) && Can(g, th, step)
    requires step.Commit? || step.Wake? || step.Release?
    ensures Exactly(g, t, th, step)
  {
    var g' := Act(g, t, th, step).0;
    if (step.Release? || (step.Wake? && !g.running)) && MountsOf(g, th.v) {
      var m :| m in g.mounts && m.share == th.v;
      assert !MountBacked(g', m);
    } else if step.Release? && g.InUse(th.p) {
      var m :| m in g.mounts && m.port == th.p;
      assert !MountBacked(g', m);
    }
  }

  lemma RollbackStep(g: Node, t: Tid, th: Thread)
    requires AllBacked(g) && Can(g, th, Rollback)
    ensures Exactly(g, t, th, Rollback)
  {
    var g' := Act(g, t, th, Rollback).0;
    if MountsAgainst(g, th.v, th.p) {
      var m :| m in g.mounts && ((m.share == th.v && m.port != th.p) || (m.port == th.p && m.share != th.v));
      assert !MountBacked(g', m);
    }
  }

  lemma FileStep(g: Node, t: Tid, th: Thread, step: Step)
    requires ThreadOk(g, t, th) && AllBacked(g) && Can(g, th, step)
    requires step.Write? || step.Undo? || step.Delete?
    ensures Exactly(g, t, th, step)
  {
    var g' := Act(g, t, th, step).0;
    if step.Delete? && step.ok && MountsOf(g, th.v) {
      var m :| m in g.mounts && m.share == th.v;
      assert !MountBacked(g', m);
    }
  }

  lemma MountStep(g: Node, t: Tid, th: Thread, step: Step)
    requires AllBacked(g) && Can(g, th, step) && (step.MountShare? || step.Unmount?)
    ensures Exactly(g, t, th, step)
  {
  }

  lemma OtherStep(g: Node, t: Tid, th: Thread, step: Step)
    requires AllBacked(g) && Can(g, th, step) && (IsQuiet(step) || step.Enter? || step.Inspect?)
    ensures Exactly(g, t, th, step)
  {
    OtherTables(g, t, th, step);
    MountsStay(g, t, th, step);
  }

  lemma MountsStay(g: Node, t: Tid, th: Thread, step: Step)
    requires Can(g, th, step) && !step.MountShare? && !step.Unmount?
    ensures Act(g, t, th, step).0.mounts == g.mounts
  {
    if step.Clean? {
      CleanMounts(g, t, th, step);
    }
  }

  lemma CleanMounts(g: Node, t: Tid, th: Thread, step: Step)
    requires Can(g, th, step) && step.Clean?
    ensures Act(g, t, th, step).0.mounts == g.mounts
  {
  }

  // ------------------------------------------------------------------
  // Recovery
  // ------------------------------------------------------------------

  /** A config listed after position i names the same port. */
  ghost predicate NamedAfter(order: seq<string>, files: map<string, int>, r: PortRange, i: nat)
    requires i < |order| && order[i] in files
  {
    exists j :: i < j < |order| && Recoverable(files, r, order[j]) && files[order[j]] == files[order[i]]
  }

  /** After recovery a port belongs to the last listed config that names it. */
  lemma {:induction false} LastNamesThePort(order: seq<string>, files: map<string, int>, r: PortRange, i: nat)
    requires i < |order| && Recoverable(files, r, order[i])
    requires forall j, k :: 0 <= j < k < |order| ==> order[j] != order[k]
    ensures var owners, p := Recovered(order, files, r).owners, files[order[i]];
            p in owners && (owners[p] == order[i] <==> !NamedAfter(order, files, r, i))
  {
    var n := |order| - 1;
    var init := order[..n];
    if i < n {
      LastNamesThePort(init, files, r, i);
    }
  }

  lemma CrashStep(s: State, order: seq<string>)
    requires Base(s) && AllBacked(s.node) && Enabled(s, Crash(order))
    ensures AllBacked(Next(s, Crash(order)).node) <==> !Unbacks(s, Crash(order))
  {
    var g, g' := s.node, Next(s, Crash(order)).node;
    RecoveredContents(order, g.files, g.range);
    forall m <- g.mounts
      ensures MountBacked(g', m) <==> !exists w :: Overtakes(order, g.files, g.range, m.share, w)
    {
      MountAfterCrash(g, order, m);
    }
  }

  lemma MountAfterCrash(g: Node, order: seq<string>, m: Mount)
    requires Lists(order, g.files) && InRange(g.maps, g.range) && MountBacked(g, m)
    ensures MountBacked(Restarted(g, order), m) <==> !exists w :: Overtakes(order, g.files, g.range, m.share, w)
  {
    RecoveredContents(order, g.files, g.range);
    assert Recoverable(g.files, g.range, m.share);
    var i :| 0 <= i < |order| && order[i] == m.share;
    LastNamesThePort(order, g.files, g.range, i);
    if MountBacked(Restarted(g, order), m) {
      forall w
        ensures !Overtakes(order, g.files, g.range, m.share, w)
      {
      }
    } else {
      var j :| i < j < |order| && Recoverable(g.files, g.range, order[j]) && g.files[order[j]] == m.port;
      assert Overtakes(order, g.files, g.range, m.share, order[j]);
    }
  }

  // ------------------------------------------------------------------
  // Runs
  // ------------------------------------------------------------------

  /** Every step keeps all live mounts backed unless it is one of those above, and then it really does not. */
  lemma BackedExactly(s: State, a: Action)
    requires Base(s) && AllBacked(s.node) && Enabled(s, a)
    ensures AllBacked(Next(s, a).node) <==> !Unbacks(s, a)
  {
    match a
    case Run(t, step) =>
      var g, th := s.node, s.Th(t);
      assert ThreadOk(g, t, th);
      if step.Commit? || step.Wake? || step.Release? {
        MapStep(g, t, th, step);
      } else if step.Rollback? {
        RollbackStep(g, t, th);
      } else if step.Write? || step.Undo? || step.Delete? {
        FileStep(g, t, th, step);
      } else if step.MountShare? || step.Unmount? {
        MountStep(g, t, th, step);
      } else {
        OtherStep(g, t, th, step);
      }
    case Crash(order) => CrashStep(s, order);
    case _ =>
  }

  lemma {:induction false} BackedUpTo(states: seq<State>, actions: seq<Action>, n: nat)
    requires Behaviour(states, actions) && n < |states|
    requires forall i :: 0 <= i < n ==> !Unbacks(states[i], actions[i])
    ensures AllBacked(states[n].node)
  {
    if n > 0 {
      var m := n - 1;
      BackedUpTo(states, actions, m);
      BaseAlways(states, actions, m);
      assert Enabled(states[m], actions[m]) && states[m + 1] == Next(states[m], actions[m]);
      BackedExactly(states[m], actions[m]);
    }
  }

  /** Tunnel safety over every run: each live mount is backed at every instant exactly when no such step is taken. */
  lemma BackedOverRuns(states: seq<State>, actions: seq<Action>)
    requires Behaviour(states, actions)
    ensures (forall n :: 0 <= n < |states| ==> AllBacked(states[n].node)) <==>
            (forall i :: 0 <= i < |actions| ==> !Unbacks(states[i], actions[i]))
  {
    if forall i :: 0 <= i < |actions| ==> !Unbacks(states[i], actions[i]) {
      forall n | 0 <= n < |states|
        ensures AllBacked(states[n].node)
      {
        BackedUpTo(states, actions, n);
      }
    }
    if forall n :: 0 <= n < |states| ==> AllBacked(states[n].node) {
      forall i | 0 <= i < |actions|
        ensures !Unbacks(states[i], actions[i])
      {
        BaseAlways(states, actions, i);
        assert Enabled(states[i], actions[i]) && states[i + 1] == Next(states[i], actions[i]);
        assert AllBacked(states[i].node) && AllBacked(states[i + 1].node);
        BackedExactly(states[i], actions[i]);
      }
    }
  }

  // ------------------------------------------------------------------
  // Port and config alone
  // ------------------------------------------------------------------

  ghost predicate AllServed(g: Node) {
    forall m <- g.mounts :: MountServed(g, m)
  }

  /** The reverse index apart, a recovery does no harm, nor does a rollback onto another share's port. */
  ghost predicate StepUnserves(g: Node, th: Thread, step: Step) {
    match step
    case MountShare(mounted) => mounted && !MountServed(g, Mount(th.target, th.v, th.p))
    case Wake => !g.running && MountsOf(g, th.v)
    case Release => MountsOf(g, th.v)
    case Delete(ok) => ok && MountsOf(g, th.v)
    case Rollback => exists m <- g.mounts :: m.share == th.v && m.port != th.p
    case _ => false
  }

  ghost predicate Unserves(s: State, a: Action) {
    a.Run? && StepUnserves(s.node, s.Th(a.t), a.step)
  }

  lemma ServedMapStep(g: Node, t: Tid, th: Thread, step: Step)
    requires ThreadOk(g, t, th) && AllServed(g) && Can(g, th, step)
    requires step.Commit? || step.Wake? || step.Release? || step.Rollback?
    ensures AllServed(Act(g, t, th, step).0) <==> !StepUnserves(g, th, step)
  {
    var g' := Act(g, t, th, step).0;
    if StepUnserves(g, th, step) {
      var m :| m in g.mounts && m.share == th.v && (step.Rollback? ==> m.port != th.p);
      assert !MountServed(g', m);
    }
  }

  lemma ServedFileStep(g: Node, t: Tid, th: Thread, step: Step)
    requires ThreadOk(g, t, th) && AllServed(g) && Can(g, th, step) && (step.Write? || step.Undo? || step.Delete?)
    ensures AllServed(Act(g, t, th, step).0) <==> !StepUnserves(g, th, step)
  {
    var g' := Act(g, t, th, step).0;
    if StepUnserves(g, th, step) {
      var m :| m in g.mounts && m.share == th.v;
      assert !MountServed(g', m);
    }
  }

  lemma ServedMountStep(g: Node, t: Tid, th: Thread, step: Step)
    requires AllServed(g) && Can(g, th, step) && (step.MountShare? || step.Unmount?)
    ensures AllServed(Act(g, t, th, step).0) <==> !StepUnserves(g, th, step)
  {
  }

  /** A step leaves some live mount without its share's port or config exactly when it is one of those above. */
  lemma ServedExactly(s: State, a: Action)
    requires Base(s) && AllServed(s.node) && Enabled(s, a)
    ensures AllServed(Next(s, a).node) <==> !Unserves(s, a)
  {
    match a
    case Run(t, step) =>
      var g, th := s.node, s.Th(t);
      assert ThreadOk(g, t, th);
      if step.Commit? || step.Wake? || step.Release? || step.Rollback? {
        ServedMapStep(g, t, th, step);
      } else if step.Write? || step.Undo? || step.Delete? {
        ServedFileStep(g, t, th, step);
      } else if step.MountShare? || step.Unmount? {
        ServedMountStep(g, t, th, step);
      } else {
        OtherTables(g, t, th, step);
        MountsStay(g, t, th, step);
      }
    case Crash(order) => RecoveredContents(order, s.node.files, s.node.range);
    case _ =>
  }

  lemma {:induction false} ServedUpTo(states: seq<State>, actions: seq<Action>, n: nat)
    requires Behaviour(states, actions) && n < |states|
    requires forall i :: 0 <= i < n ==> !Unserves(states[i], actions[i])
    ensures AllServed(states[n].node)
  {
    if n > 0 {
      var m := n - 1;
      ServedUpTo(states, actions, m);
      BaseAlways(states, actions, m);
      assert Enabled(states[m], actions[m]) && states[m + 1] == Next(states[m], actions[m]);
      ServedExactly(states[m], actions[m]);
    }
  }

  /**
   Over every run: each live mount has its share's port and config at every instant exactly when no such step is
   taken.
   */
  lemma ServedOverRuns(states: seq<State>, actions: seq<Action>)
    requires Behaviour(states, actions)
    ensures (forall n :: 0 <= n < |states| ==> AllServed(states[n].node)) <==>
            (forall i :: 0 <= i < |actions| ==> !Unserves(states[i], actions[i]))
  {
    if forall i :: 0 <= i < |actions| ==> !Unserves(states[i], actions[i]) {
      forall n | 0 <= n < |states|
        ensures AllServed(states[n].node)
      {
        ServedUpTo(states, actions, n);
      }
    }
    if forall n :: 0 <= n < |states| ==> AllServed(states[n].node) {
      forall i | 0 <= i < |actions|
        ensures !Unserves(states[i], actions[i])
      {
        BaseAlways(states, actions, i);
        assert Enabled(states[i], actions[i]) && states[i + 1] == Next(states[i], actions[i]);
        assert AllServed(states[i].node) && AllServed(states[i + 1].node);
        ServedExactly(states[i], actions[i]);
      }
    }
  }
}
