/**
 What stunnel listens on.  A port may be given to another share before stunnel has reread its directory; a mount through
 it would then reach the server of the share that had the port before.
 */
module ProtocolListening {
  import opened PortMaps
  import opened NodeProtocol
  import opened ProtocolSafety

  predicate ListensFor(g: Node, w: string, p: int) {
    g.running && w in g.loaded && g.loaded[w] == p
  }

  /** Stunnel listens on no live mount's port for another share. */
  ghost predicate Private(g: Node) {
    forall m <- g.mounts, w :: ListensFor(g, w, m.port) ==> w == m.share
  }

  // ------------------------------------------------------------------
  // Every run
  // ------------------------------------------------------------------

  /** The directory gives a mounted port to another share. */
  ghost predicate DirectoryClashes(g: Node) {
    exists m <- g.mounts, w <- g.files :: g.files[w] == m.port && w != m.share
  }

  /**
   A mount through a port that stunnel serves for another share, or a reload or start on a directory that clashes
   with a mount.
   */
  ghost predicate Exposes(s: State, a: Action) {
    match a
    case Run(t, MountShare(true)) => exists w :: ListensFor(s.node, w, s.Th(t).p) && w != s.Th(t).v
    case Run(t, Clean(Signalled)) => DirectoryClashes(s.node)
    case TimerCallback(Signalled) => s.node.timer.pending && DirectoryClashes(s.node)
    case StunnelUp => DirectoryClashes(s.node)
    case _ => false
  }

  /** Steps that leave alone who mounts what and who listens where. */
  lemma SameListeners(g: Node, t: Tid, th: Thread, step: Step)
    requires Can(g, th, step) && !step.MountShare? && !step.Unmount? && step != Clean(Signalled)
    ensures var g' := Act(g, t, th, step).0;
            g'.mounts == g.mounts && g'.loaded == g.loaded && (g'.running ==> g.running)
  {
  }

  lemma Reread(g: Node, g': Node)
    requires g'.mounts == g.mounts && g'.running && g'.loaded == g.files
    ensures Private(g') <==> !DirectoryClashes(g)
  {
    if DirectoryClashes(g) {
      var m, w :| m in g.mounts && w in g.files && g.files[w] == m.port && w != m.share;
      assert ListensFor(g', w, m.port);
    }
  }

  lemma MountPrivate(g: Node, t: Tid, th: Thread)
    requires Private(g) && Can(g, th, MountShare(true))
    ensures Private(Act(g, t, th, MountShare(true)).0) <==> !exists w :: ListensFor(g, w, th.p) && w != th.v
  {
    var g', m := Act(g, t, th, MountShare(true)).0, Mount(th.target, th.v, th.p);
    assert m in g'.mounts;
    assert forall w, p :: ListensFor(g', w, p) <==> ListensFor(g, w, p);
  }

  /**
   From any state: a step makes stunnel listen on a live mount's port for another share exactly when it is one of
   those above.
   */
  lemma PrivateExactly(s: State, a: Action)
    requires Private(s.node) && Enabled(s, a)
    ensures Private(Next(s, a).node) <==> !Exposes(s, a)
  {
    var g, g' := s.node, Next(s, a).node;
    match a
    case Run(t, step) =>
      if step == MountShare(true) {
        MountPrivate(g, t, s.Th(t));
      } else if step == Clean(Signalled) {
        Reread(g, g');
      } else {
        if !step.MountShare? && !step.Unmount? {
          SameListeners(g, t, s.Th(t), step);
        }
        FewerListeners(g, g');
      }
    case TimerCallback(reload) =>
      if g.timer.pending && reload == Signalled {
        Reread(g, g');
      } else {
        FewerListeners(g, g');
      }
    case StunnelUp => Reread(g, g');
    case _ => FewerListeners(g, g');
  }

  lemma FewerListeners(g: Node, g': Node)
    requires Private(g) && g'.mounts <= g.mounts && g'.loaded == g.loaded && (g'.running ==> g.running)
    ensures Private(g')
  {
    assert forall w, p :: ListensFor(g', w, p) ==> ListensFor(g, w, p);
  }

  lemma {:induction false} PrivateUpTo(states: seq<State>, actions: seq<Action>, n: nat)
    requires Behaviour(states, actions) && n < |states|
    requires forall i :: 0 <= i < n ==> !Exposes(states[i], actions[i])
    ensures Private(states[n].node)
  {
    if n > 0 {
      var m := n - 1;
      PrivateUpTo(states, actions, m);
      assert Enabled(states[m], actions[m]) && states[m + 1] == Next(states[m], actions[m]);
      PrivateExactly(states[m], actions[m]);
    }
  }

  /**
   Over every run, with no hypothesis: stunnel never listens on a live mount's port for another share exactly when
   no such step is taken.
   */
  lemma PrivateOverRuns(states: seq<State>, actions: seq<Action>)
    requires Behaviour(states, actions)
    ensures (forall n :: 0 <= n < |states| ==> Private(states[n].node)) <==>
            (forall i :: 0 <= i < |actions| ==> !Exposes(states[i], actions[i]))
  {
    if forall i :: 0 <= i < |actions| ==> !Exposes(states[i], actions[i]) {
      forall n | 0 <= n < |states|
        ensures Private(states[n].node)
      {
        PrivateUpTo(states, actions, n);
      }
    }
    if forall n :: 0 <= n < |states| ==> Private(states[n].node) {
      forall i | 0 <= i < |actions|
        ensures !Exposes(states[i], actions[i])
      {
        assert Enabled(states[i], actions[i]) && states[i + 1] == Next(states[i], actions[i]);
        assert Private(states[i].node) && Private(states[i + 1].node);
        PrivateExactly(states[i], actions[i]);
      }
    }
  }

  // ------------------------------------------------------------------
  // Guarded runs: it is decided when the port is chosen
  // ------------------------------------------------------------------

  ghost predicate OwnPort(g: Node, v: string, p: int) {
    forall w :: ListensFor(g, w, p) ==> w == v
  }

  /** No config on disk, and no port about to be written, is served for another share. */
  ghost predicate Dedicated(s: State) {
    && (forall v <- s.node.files :: OwnPort(s.node, v, s.node.files[v]))
    && (forall t: Tid :: s.Th(t).at.Writing? ==> OwnPort(s.node, s.Th(t).v, s.Th(t).p))
  }

  /** The scan picks a port that stunnel still serves for another share. */
  ghost predicate Reuses(s: State, a: Action) {
    match a
    case Run(t, Enter(busy)) =>
      && s.Th(t).v !in s.node.maps.ports
      && var port := LeastFree(s.node.maps.owners, busy, s.node.range);
      port.Some? && !OwnPort(s.node, s.Th(t).v, port.value)
    case _ => false
  }

  lemma SameOwnPort(g: Node, g': Node)
    requires g'.loaded == g.loaded && (g'.running ==> g.running)
    ensures forall v, p :: OwnPort(g, v, p) ==> OwnPort(g', v, p)
  {
    assert forall w, p :: ListensFor(g', w, p) ==> ListensFor(g, w, p);
  }

  /** After a reload or a start the directory itself decides, and it names each port once. */
  lemma RereadDedicated(s: State, s': State)
    requires Safe(s) && s'.node.files == s.node.files && s'.node.loaded == s.node.files
    requires forall t: Tid :: s'.Th(t).at.Writing? ==> s'.Th(t) == s.Th(t)
    ensures Dedicated(s')
  {
    forall t: Tid | s'.Th(t).at.Writing?
      ensures OwnPort(s'.node, s'.Th(t).v, s'.Th(t).p)
    {
      assert NewPort(s.node, s.Th(t));
    }
  }

  lemma EnterDedicated(s: State, t: Tid, busy: set<int>)
    requires Dedicated(s) && Enabled(s, Run(t, Enter(busy)))
    ensures Dedicated(Next(s, Run(t, Enter(busy)))) <==> !Reuses(s, Run(t, Enter(busy)))
  {
    var s' := Next(s, Run(t, Enter(busy)));
    SameOwnPort(s.node, s'.node);
    SameOwnPort(s'.node, s.node);
    assert forall u: Tid :: u != t ==> s'.Th(u) == s.Th(u);
    if Reuses(s, Run(t, Enter(busy))) {
      assert s'.Th(t).at.Writing? && !OwnPort(s'.node, s'.Th(t).v, s'.Th(t).p);
    }
  }

  /** The other steps write no config but the one whose port was chosen. */
  lemma OtherDedicated(s: State, t: Tid, step: Step)
    requires Dedicated(s) && Enabled(s, Run(t, step)) && !step.Enter? && step != Clean(Signalled)
    ensures Dedicated(Next(s, Run(t, step)))
  {
    var s' := Next(s, Run(t, step));
    StepListening(s.node, t, s.Th(t), step);
    SameOwnPort(s.node, s'.node);
    assert forall u: Tid :: u != t ==> s'.Th(u) == s.Th(u);
  }

  lemma StepListening(g: Node, t: Tid, th: Thread, step: Step)
    requires Can(g, th, step) && !step.Enter? && step != Clean(Signalled)
    ensures var (g', th') := Act(g, t, th, step);
            && g'.loaded == g.loaded && (g'.running ==> g.running) && !th'.at.Writing?
            && (forall v <- g'.files ::
                  (v in g.files && g'.files[v] == g.files[v]) || (th.at.Writing? && v == th.v && g'.files[v] == th.p))
  {
    if step.Write? || step.Undo? || step.Delete? || step.Inspect? || step.Release? {
      WriterListening(g, t, th, step);
    }
  }

  lemma WriterListening(g: Node, t: Tid, th: Thread, step: Step)
    requires Can(g, th, step) && (step.Write? || step.Undo? || step.Delete? || step.Inspect? || step.Release?)
    ensures var (g', th') := Act(g, t, th, step);
            && g'.loaded == g.loaded && (g'.running ==> g.running) && !th'.at.Writing?
            && (forall v <- g'.files ::
                  (v in g.files && g'.files[v] == g.files[v]) || (th.at.Writing? && v == th.v && g'.files[v] == th.p))
  {
  }

  /** In a guarded run only the choice of the port matters. */
  lemma DedicatedExactly(s: State, a: Action)
    requires Safe(s) && Dedicated(s) && Enabled(s, a)
    ensures Dedicated(Next(s, a)) <==> !Reuses(s, a)
  {
    var s' := Next(s, a);
    match a
    case Run(t, step) =>
      if step.Enter? {
        EnterDedicated(s, t, step.busy);
      } else if step == Clean(Signalled) {
        RereadDedicated(s, s');
      } else {
        OtherDedicated(s, t, step);
      }
    case StunnelUp => RereadDedicated(s, s');
    case TimerCallback(reload) =>
      if s.node.timer.pending && reload == Signalled {
        RereadDedicated(s, s');
      } else {
        StaysDedicated(s, s');
      }
    case _ => StaysDedicated(s, s');
  }

  lemma StaysDedicated(s: State, s': State)
    requires Dedicated(s) && s'.node.loaded == s.node.loaded && (s'.node.running ==> s.node.running)
    requires s'.node.files == s.node.files && (forall t: Tid :: s'.Th(t) == s.Th(t) || s'.Th(t).at.Idle?)
    ensures Dedicated(s')
  {
    SameOwnPort(s.node, s'.node);
  }

  lemma {:induction false} DedicatedUpTo(states: seq<State>, actions: seq<Action>, n: nat)
    requires GuardedRun(states, actions) && n < |states|
    requires forall i :: 0 <= i < n ==> !Reuses(states[i], actions[i])
    ensures Dedicated(states[n])
  {
    if n > 0 {
      var m := n - 1;
      DedicatedUpTo(states, actions, m);
      SafeAlways(states, actions, m);
      assert Enabled(states[m], actions[m]) && states[m + 1] == Next(states[m], actions[m]);
      DedicatedExactly(states[m], actions[m]);
    }
  }

  /**
   Over guarded runs: every config has its port to itself at every instant exactly when no scan picks a port that is
   still served.
   */
  lemma DedicatedOverRuns(states: seq<State>, actions: seq<Action>)
    requires GuardedRun(states, actions)
    ensures (forall n :: 0 <= n < |states| ==> Dedicated(states[n])) <==>
            (forall i :: 0 <= i < |actions| ==> !Reuses(states[i], actions[i]))
  {
    if forall i :: 0 <= i < |actions| ==> !Reuses(states[i], actions[i]) {
      forall n | 0 <= n < |states|
        ensures Dedicated(states[n])
      {
        DedicatedUpTo(states, actions, n);
      }
    }
    if forall n :: 0 <= n < |states| ==> Dedicated(states[n]) {
      forall i | 0 <= i < |actions|
        ensures !Reuses(states[i], actions[i])
      {
        SafeAlways(states, actions, i);
        assert Enabled(states[i], actions[i]) && states[i + 1] == Next(states[i], actions[i]);
        assert Dedicated(states[i]) && Dedicated(states[i + 1]);
        DedicatedExactly(states[i], actions[i]);
      }
    }
  }

  /** The bind test fails on every port that stunnel listens on. */
  ghost predicate TruthfulBind(s: State, a: Action) {
    a.Run? && a.step.Enter? && s.node.running ==> forall w <- s.node.loaded :: s.node.loaded[w] in a.step.busy
  }

  lemma TruthfulNeverReuses(s: State, a: Action)
    requires TruthfulBind(s, a)
    ensures !Reuses(s, a)
  {
    if a.Run? && a.step.Enter? {
      PickedIsFree(s.node.maps.owners, a.step.busy, s.node.range);
    }
  }

  /**
   With a truthful bind test stunnel never listens on a live mount's port for another share, at any instant of any
   guarded run.
   */
  lemma NoForeignListener(states: seq<State>, actions: seq<Action>, n: nat)
    requires GuardedRun(states, actions) && n < |states|
    requires forall i :: 0 <= i < |actions| ==> TruthfulBind(states[i], actions[i])
    ensures Private(states[n].node)
  {
    forall i | 0 <= i < n
      ensures !Reuses(states[i], actions[i])
    {
      TruthfulNeverReuses(states[i], actions[i]);
    }
    DedicatedUpTo(states, actions, n);
    TunnelSafety(states, actions, n);
    forall m <- states[n].node.mounts
      ensures OwnPort(states[n].node, m.share, m.port)
    {
      assert MountServed(states[n].node, m);
    }
  }
}
