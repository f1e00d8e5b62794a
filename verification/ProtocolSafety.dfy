/**
 Safety over whole runs of publish, unpublish, timers, stunnel restarts and driver crashes.

 With one RPC per share at a time, maps, directory and mounts agree on every share's port.  The reverse index needs
 a second hypothesis: the bind test finds a port busy while a config file that no tunnel has names it.
 */
module ProtocolSafety {
  import opened Wrappers
  import opened PortMaps
  import opened NodeProtocol
  import opened ProtocolInverse

  ghost predicate OneCallPerShare(s: State, a: Action) {
    match a
    case Run(t, Publish(v, _)) => Alone(s, t, v)
    case Run(t, Unpublish(v, _)) => Alone(s, t, v)
    case _ => true
  }

  ghost predicate Alone(s: State, t: Tid, v: string) {
    forall u: Tid :: u != t && !s.Th(u).at.Idle? ==> s.Th(u).v != v
  }

  /** The thread's volume has a config file but no entry in the maps, and the thread knows the port. */
  predicate InFlight(at: Loc) {
    at.Committing? || at.Undoing? || HasReleased(at)
  }

  ghost predicate NodeSteady(g: Node) {
    && (forall v <- g.maps.ports :: v in g.files && g.files[v] == g.maps.ports[v])
    && (forall v <- g.files :: g.range.Has(g.files[v]))
    && (forall m <- g.mounts :: m.share in g.maps.ports && g.maps.ports[m.share] == m.port)
  }

  ghost predicate ThreadSteady(g: Node, th: Thread) {
    && (InFlight(th.at) ==> th.v !in g.maps.ports && th.v in g.files && g.files[th.v] == th.p)
    && (HasCommitted(th.at) || th.at.Inspected? ==> forall m <- g.mounts :: m.share != th.v)
    && (th.at.Granted? ==> th.v in g.maps.ports && g.maps.ports[th.v] == th.p)
    && (th.at.Scheduling? || th.at.Removed? ==> th.v !in g.maps.ports)
  }

  ghost predicate Distinct(s: State) {
    forall t: Tid, u: Tid :: t != u && !s.Th(t).at.Idle? && !s.Th(u).at.Idle? ==> s.Th(t).v != s.Th(u).v
  }

  ghost predicate Steady(s: State) {
    && Base(s) && NodeSteady(s.node) && Distinct(s)
    && (forall t: Tid :: ThreadSteady(s.node, s.Th(t)))
  }

  ghost predicate LocallySteady(g: Node, t: Tid, th: Thread) {
    ThreadOk(g, t, th) && NodeSteady(g) && ThreadSteady(g, th)
  }

  /** What a step promises about its own thread. */
  ghost predicate KeepsSteady(g: Node, t: Tid, th: Thread, step: Step)
    requires Can(g, th, step)
  {
    var (g', th') := Act(g, t, th, step);
    NodeSteady(g') && ThreadSteady(g', th')
  }

  lemma EnterSteady(g: Node, t: Tid, th: Thread, busy: set<int>)
    requires LocallySteady(g, t, th) && Can(g, th, Enter(busy))
    ensures KeepsSteady(g, t, th, Enter(busy))
  {
  }

  lemma InspectSteady(g: Node, t: Tid, th: Thread, readable: bool)
    requires LocallySteady(g, t, th) && Can(g, th, Inspect(readable))
    ensures KeepsSteady(g, t, th, Inspect(readable))
  {
    if th.v in g.maps.ports {
      assert forall m <- g.mounts :: m.share == th.v ==> g.InUse(m.port);
    }
  }

  lemma MapStepSteady(g: Node, t: Tid, th: Thread, step: Step)
    requires LocallySteady(g, t, th) && Can(g, th, step)
    requires step.Commit? || step.Wake? || step.Release? || step.Rollback?
    ensures KeepsSteady(g, t, th, step)
  {
  }

  lemma FileStepSteady(g: Node, t: Tid, th: Thread, step: Step)
    requires LocallySteady(g, t, th) && Can(g, th, step) && (step.Write? || step.Undo? || step.Delete?)
    ensures KeepsSteady(g, t, th, step)
  {
  }

  lemma MountSteady(g: Node, t: Tid, th: Thread, mounted: bool)
    requires LocallySteady(g, t, th) && Can(g, th, MountShare(mounted))
    ensures KeepsSteady(g, t, th, MountShare(mounted))
  {
  }

  lemma UnmountSteady(g: Node, t: Tid, th: Thread, ok: bool, gone: set<Mount>)
    requires LocallySteady(g, t, th) && Can(g, th, Unmount(ok, gone))
    ensures KeepsSteady(g, t, th, Unmount(ok, gone))
  {
  }

  /** Steps that touch neither maps nor files nor mounts. */
  predicate IsQuiet(step: Step) {
    step.Publish? || step.Lookup? || step.Check? || step.Unpublish? || step.Clean? || step.Reset? || step.Schedule?
    || step.Return?
  }

  lemma QuietSteady(g: Node, t: Tid, th: Thread, step: Step)
    requires LocallySteady(g, t, th) && Can(g, th, step) && IsQuiet(step)
    ensures KeepsSteady(g, t, th, step)
  {
    QuietFrame(g, t, th, step);
    SameSteady(g, Act(g, t, th, step).0, Act(g, t, th, step).1);
  }

  lemma QuietFrame(g: Node, t: Tid, th: Thread, step: Step)
    requires ThreadSteady(g, th) && ThreadOk(g, t, th) && Can(g, th, step) && IsQuiet(step)
    ensures SameTables(g, Act(g, t, th, step).0) && ThreadSteady(g, Act(g, t, th, step).1)
  {
    if step.Lookup? || step.Check? {
      EnsureFrame(g, t, th, step);
    }
  }

  lemma EnsureFrame(g: Node, t: Tid, th: Thread, step: Step)
    requires ThreadSteady(g, th) && ThreadOk(g, t, th) && Can(g, th, step) && (step.Lookup? || step.Check?)
    ensures SameTables(g, Act(g, t, th, step).0) && ThreadSteady(g, Act(g, t, th, step).1)
  {
  }

  predicate SameTables(g: Node, g': Node) {
    g'.range == g.range && g'.maps == g.maps && g'.files == g.files && g'.mounts == g.mounts
  }

  lemma SameSteady(g: Node, g': Node, th: Thread)
    requires NodeSteady(g) && ThreadSteady(g, th) && SameTables(g, g')
    ensures NodeSteady(g') && ThreadSteady(g', th)
  {
  }

  lemma RunOwnSteady(s: State, t: Tid, step: Step)
    requires Steady(s) && Enabled(s, Run(t, step))
    ensures KeepsSteady(s.node, t, s.Th(t), step)
  {
    var g, th := s.node, s.Th(t);
    assert ThreadOk(g, t, th) && ThreadSteady(g, th);
    if step.Enter? {
      EnterSteady(g, t, th, step.busy);
    } else if step.Inspect? {
      InspectSteady(g, t, th, step.readable);
    } else if step.Commit? || step.Wake? || step.Release? || step.Rollback? {
      MapStepSteady(g, t, th, step);
    } else if step.Write? || step.Undo? || step.Delete? {
      FileStepSteady(g, t, th, step);
    } else if step.MountShare? {
      MountSteady(g, t, th, step.mounted);
    } else if step.Unmount? {
      UnmountSteady(g, t, th, step.ok, step.gone);
    } else {
      QuietSteady(g, t, th, step);
    }
  }

  // ------------------------------------------------------------------
  // The other threads
  // ------------------------------------------------------------------

  /** A step on v changes nothing about another volume w, and adds a file only under the lock. */
  ghost predicate OnlyTouches(g: Node, g': Node, t: Tid, v: string) {
    && (forall w :: w != v ==> (w in g'.files <==> w in g.files) && (w in g'.maps.ports <==> w in g.maps.ports))
    && (forall w :: w != v && w in g.files ==> g'.files[w] == g.files[w])
    && (forall w :: w != v && w in g.maps.ports ==> g'.maps.ports[w] == g.maps.ports[w])
    && (v in g'.files ==> g.lock == Some(t) || (v in g.files && g'.files[v] == g.files[v]))
    && (forall m <- g'.mounts :: m in g.mounts || m.share == v)
  }

  lemma StepTouches(g: Node, t: Tid, th: Thread, step: Step)
    requires ThreadOk(g, t, th) && Can(g, th, step)
    ensures OnlyTouches(g, Act(g, t, th, step).0, t, th.v)
  {
    if step.Commit? || step.Wake? || step.Release? || step.Rollback? {
      MapStepTouches(g, t, th, step);
    } else if step.Write? || step.Undo? || step.Delete? {
      FileStepTouches(g, t, th, step);
    }
  }

  lemma MapStepTouches(g: Node, t: Tid, th: Thread, step: Step)
    requires Can(g, th, step) && (step.Commit? || step.Wake? || step.Release? || step.Rollback?)
    ensures OnlyTouches(g, Act(g, t, th, step).0, t, th.v)
  {
  }

  lemma FileStepTouches(g: Node, t: Tid, th: Thread, step: Step)
    requires ThreadOk(g, t, th) && Can(g, th, step) && (step.Write? || step.Undo? || step.Delete?)
    ensures OnlyTouches(g, Act(g, t, th, step).0, t, th.v)
  {
  }

  lemma BystanderSteady(g: Node, g': Node, t: Tid, v: string, u: Tid, other: Thread)
    requires OnlyTouches(g, g', t, v) && ThreadOk(g, u, other) && ThreadSteady(g, other)
    requires u != t && other.v != v
    ensures ThreadSteady(g', other)
  {
  }

  lemma RunDistinct(s: State, t: Tid, step: Step)
    requires Steady(s) && Enabled(s, Run(t, step)) && OneCallPerShare(s, Run(t, step))
    ensures Distinct(Next(s, Run(t, step)))
  {
    var s' := Next(s, Run(t, step));
    StepVolume(s.node, t, s.Th(t), step);
    forall u: Tid | u != t && !s'.Th(t).at.Idle? && !s'.Th(u).at.Idle?
      ensures s'.Th(t).v != s'.Th(u).v
    {
      assert s'.Th(u) == s.Th(u);
    }
    forall u: Tid, w: Tid | u != t && w != t
      ensures s'.Th(u) == s.Th(u) && s'.Th(w) == s.Th(w)
    {
    }
  }

  /** A thread changes its volume only by a new call. */
  lemma StepVolume(g: Node, t: Tid, th: Thread, step: Step)
    requires Can(g, th, step)
    ensures var th' := Act(g, t, th, step).1;
            if step.Publish? || step.Unpublish? then th'.v == step.v
            else !th.at.Idle? && (th'.at.Idle? || th'.v == th.v)
  {
  }

  lemma RunSteady(s: State, t: Tid, step: Step)
    requires Steady(s) && Enabled(s, Run(t, step)) && OneCallPerShare(s, Run(t, step))
    ensures Steady(Next(s, Run(t, step)))
  {
    var s' := Next(s, Run(t, step));
    RunBase(s, t, step);
    RunOwnSteady(s, t, step);
    RunDistinct(s, t, step);
    RunThreads(s, t, step);
  }

  lemma RunThreads(s: State, t: Tid, step: Step)
    requires Steady(s) && Enabled(s, Run(t, step)) && KeepsSteady(s.node, t, s.Th(t), step)
    ensures forall u: Tid :: ThreadSteady(Next(s, Run(t, step)).node, Next(s, Run(t, step)).Th(u))
  {
    assert ThreadOk(s.node, t, s.Th(t));
    StepTouches(s.node, t, s.Th(t), step);
    if s.Th(t).at.Idle? {
      StartTouchesNothing(s.node, t, s.Th(t), step);
    }
    ThreadsKept(s, t, Next(s, Run(t, step)));
  }

  lemma ThreadsKept(s: State, t: Tid, s': State)
    requires Steady(s) && OnlyTouches(s.node, s'.node, t, s.Th(t).v) && ThreadSteady(s'.node, s'.Th(t))
    requires s.Th(t).at.Idle? ==> s'.node == s.node
    requires forall u: Tid :: u != t ==> s'.Th(u) == s.Th(u)
    ensures forall u: Tid :: ThreadSteady(s'.node, s'.Th(u))
  {
    forall u: Tid
      ensures ThreadSteady(s'.node, s'.Th(u))
    {
      assert ThreadOk(s.node, u, s.Th(u)) && ThreadSteady(s.node, s.Th(u));
      if u != t && !s.Th(u).at.Idle? && !s.Th(t).at.Idle? {
        BystanderSteady(s.node, s'.node, t, s.Th(t).v, u, s.Th(u));
      }
    }
  }

  lemma StartTouchesNothing(g: Node, t: Tid, th: Thread, step: Step)
    requires Can(g, th, step) && th.at.Idle?
    ensures Act(g, t, th, step).0 == g
  {
  }

  // ------------------------------------------------------------------
  // Whole runs
  // ------------------------------------------------------------------

  lemma CrashSteady(s: State, order: seq<string>)
    requires Steady(s) && Enabled(s, Crash(order))
    ensures Steady(Next(s, Crash(order)))
  {
    BaseStep(s, Crash(order));
    RecoveredContents(order, s.node.files, s.node.range);
  }

  lemma EnvironmentSteady(s: State, a: Action)
    requires Steady(s) && Enabled(s, a) && !a.Run? && !a.Crash?
    ensures Steady(Next(s, a))
  {
    var s' := Next(s, a);
    BaseStep(s, a);
    assert SameTables(s.node, s'.node) && s'.threads == s.threads;
    forall t: Tid
      ensures s'.Th(t) == s.Th(t) && ThreadSteady(s'.node, s'.Th(t))
    {
      SameSteady(s.node, s'.node, s.Th(t));
    }
    SameSteady(s.node, s'.node, s.Th(0));
  }

  lemma SteadyStep(s: State, a: Action)
    requires Steady(s) && Enabled(s, a) && OneCallPerShare(s, a)
    ensures Steady(Next(s, a))
  {
    match a {
      case Run(t, step) => RunSteady(s, t, step);
      case Crash(order) => CrashSteady(s, order);
      case _ => EnvironmentSteady(s, a);
    }
  }

  ghost predicate OneCallRun(states: seq<State>, actions: seq<Action>) {
    Behaviour(states, actions) && forall i :: 0 <= i < |actions| ==> OneCallPerShare(states[i], actions[i])
  }

  lemma {:induction false} SteadyAlways(states: seq<State>, actions: seq<Action>, n: nat)
    requires OneCallRun(states, actions) && n < |states|
    ensures Steady(states[n])
  {
    if n > 0 {
      var m := n - 1;
      SteadyAlways(states, actions, m);
      assert Enabled(states[m], actions[m]) && states[m + 1] == Next(states[m], actions[m]);
      SteadyStep(states[m], actions[m]);
    } else {
      BaseAlways(states, actions, 0);
    }
  }

  /** The share has the port that the mount uses, and its config on disk names that port. */
  predicate MountServed(g: Node, m: Mount) {
    && m.share in g.maps.ports && g.maps.ports[m.share] == m.port
    && m.share in g.files && g.files[m.share] == m.port
  }

  /**
   Tunnel safety: with one RPC per share at a time, every live tunnelled mount goes through the port allocated to its
   own share, whose config on disk names that port, at every instant of every run, crashes included.
   */
  lemma TunnelSafety(states: seq<State>, actions: seq<Action>, n: nat)
    requires OneCallRun(states, actions) && n < |states|
    ensures forall m <- states[n].node.mounts :: MountServed(states[n].node, m)
  {
    SteadyAlways(states, actions, n);
  }

  // ------------------------------------------------------------------
  // The reverse index
  // ------------------------------------------------------------------

  ghost predicate LeftoversBusy(g: Node, busy: set<int>) {
    forall w <- g.files :: w !in g.maps.ports ==> g.files[w] in busy
  }

  ghost predicate LeftoversStayBusy(s: State, a: Action) {
    a.Run? && a.step.Enter? ==> LeftoversBusy(s.node, a.step.busy)
  }

  /** Both hypotheses. */
  ghost predicate Guarded(s: State, a: Action) {
    OneCallPerShare(s, a) && LeftoversStayBusy(s, a)
  }

  /** The port about to be written is in no config. */
  ghost predicate NewPort(g: Node, th: Thread) {
    th.at.Writing? ==> forall w <- g.files :: g.files[w] != th.p
  }

  ghost predicate Safe(s: State) {
    && Steady(s) && Inverse(s.node.maps) && Injective(s.node.files)
    && (forall t: Tid :: NewPort(s.node, s.Th(t)))
  }

  /** A released pair is still free: its file reserves the port. */
  lemma NoClash(g: Node, th: Thread)
    requires NodeSteady(g) && Injective(g.files) && Inverse(g.maps) && ThreadSteady(g, th) && HasReleased(th.at)
    ensures !Clash(g.maps, th.v, th.p)
  {
    assert forall w :: w in g.maps.ports && g.files[w] == th.p ==> w == th.v;
  }

  lemma SafeNeverBreaks(s: State, a: Action)
    requires Safe(s) && Enabled(s, a)
    ensures !Breaks(s, a)
  {
    if a.Run? && a.step.Rollback? {
      assert ThreadSteady(s.node, s.Th(a.t));
      NoClash(s.node, s.Th(a.t));
    }
  }

  /** The directory after a step: only a write adds to it. */
  lemma StepOnFiles(g: Node, t: Tid, th: Thread, step: Step)
    requires Can(g, th, step)
    ensures var g' := Act(g, t, th, step).0;
            && (step == Write(true) ==> g'.files == g.files[th.v := th.p])
            && (step != Write(true) ==> forall w <- g'.files :: w in g.files && g'.files[w] == g.files[w])
  {
    if step.Write? || step.Undo? || step.Delete? {
      WriterOnFiles(g, t, th, step);
    }
  }

  lemma WriterOnFiles(g: Node, t: Tid, th: Thread, step: Step)
    requires Can(g, th, step) && (step.Write? || step.Undo? || step.Delete?)
    ensures var g' := Act(g, t, th, step).0;
            && (step == Write(true) ==> g'.files == g.files[th.v := th.p])
            && (step != Write(true) ==> forall w <- g'.files :: w in g.files && g'.files[w] == g.files[w])
  {
  }

  /** The scan skips allocated ports, and leftover configs are busy. */
  lemma EnterNewPort(g: Node, t: Tid, th: Thread, busy: set<int>)
    requires NodeSteady(g) && Inverse(g.maps) && Can(g, th, Enter(busy)) && LeftoversBusy(g, busy)
    ensures NewPort(Act(g, t, th, Enter(busy)).0, Act(g, t, th, Enter(busy)).1)
  {
    PickedIsFree(g.maps.owners, busy, g.range);
  }

  lemma OwnNewPort(g: Node, t: Tid, th: Thread, step: Step)
    requires Can(g, th, step) && !step.Enter?
    ensures !Act(g, t, th, step).1.at.Writing?
  {
    if step.Inspect? || step.Lookup? || step.Release? {
      LookingNewPort(g, t, th, step);
    }
  }

  lemma LookingNewPort(g: Node, t: Tid, th: Thread, step: Step)
    requires Can(g, th, step) && (step.Inspect? || step.Lookup? || step.Release?)
    ensures !Act(g, t, th, step).1.at.Writing?
  {
  }

  lemma RunNewPorts(s: State, t: Tid, step: Step)
    requires Safe(s) && Enabled(s, Run(t, step)) && LeftoversStayBusy(s, Run(t, step))
    ensures forall u: Tid :: NewPort(Next(s, Run(t, step)).node, Next(s, Run(t, step)).Th(u))
  {
    var g, th, s' := s.node, s.Th(t), Next(s, Run(t, step));
    assert ThreadOk(g, t, th);
    StepOnFiles(g, t, th, step);
    if step.Enter? {
      EnterNewPort(g, t, th, step.busy);
    } else {
      OwnNewPort(g, t, th, step);
    }
    forall u: Tid | u != t
      ensures NewPort(s'.node, s'.Th(u))
    {
      assert ThreadOk(g, u, s.Th(u)) && NewPort(g, s.Th(u)) && s'.Th(u) == s.Th(u);
    }
  }

  lemma RunSafe(s: State, t: Tid, step: Step)
    requires Safe(s) && Enabled(s, Run(t, step)) && Guarded(s, Run(t, step))
    ensures Safe(Next(s, Run(t, step)))
  {
    var a := Run(t, step);
    SteadyStep(s, a);
    SafeNeverBreaks(s, a);
    InverseExactly(s, a);
    RunNewPorts(s, t, step);
    StepOnFiles(s.node, t, s.Th(t), step);
    assert NewPort(s.node, s.Th(t));
  }

  lemma SafeStep(s: State, a: Action)
    requires Safe(s) && Enabled(s, a) && Guarded(s, a)
    ensures Safe(Next(s, a))
  {
    if a.Run? {
      RunSafe(s, a.t, a.step);
    } else {
      SteadyStep(s, a);
      SafeNeverBreaks(s, a);
      InverseExactly(s, a);
      forall t: Tid
        ensures NewPort(Next(s, a).node, Next(s, a).Th(t))
      {
        assert NewPort(s.node, s.Th(t));
      }
    }
  }

  ghost predicate GuardedRun(states: seq<State>, actions: seq<Action>) {
    Behaviour(states, actions) && forall i :: 0 <= i < |actions| ==> Guarded(states[i], actions[i])
  }

  lemma {:induction false} SafeAlways(states: seq<State>, actions: seq<Action>, n: nat)
    requires GuardedRun(states, actions) && n < |states|
    ensures Safe(states[n])
  {
    if n > 0 {
      var m := n - 1;
      SafeAlways(states, actions, m);
      assert Enabled(states[m], actions[m]) && states[m + 1] == Next(states[m], actions[m]);
      SafeStep(states[m], actions[m]);
    } else {
      SteadyAlways(states, actions, 0);
    }
  }

  /** In a guarded run no rollback clashes and no recovery finds a port named twice, so the maps are always inverse. */
  lemma GuardedRunsNeverBreak(states: seq<State>, actions: seq<Action>, n: nat)
    requires GuardedRun(states, actions) && n < |actions|
    ensures !Breaks(states[n], actions[n])
  {
    SafeAlways(states, actions, n);
    SafeNeverBreaks(states[n], actions[n]);
  }

  /** Besides, the reverse index gives the port to that share. */
  ghost predicate MountBacked(g: Node, m: Mount) {
    MountServed(g, m) && m.port in g.maps.owners && g.maps.owners[m.port] == m.share
  }

  /** In a guarded run maps, reverse index and directory all agree on every live mount, at every instant. */
  lemma GuardedTunnelSafety(states: seq<State>, actions: seq<Action>, n: nat)
    requires GuardedRun(states, actions) && n < |states|
    ensures forall m <- states[n].node.mounts :: MountBacked(states[n].node, m)
  {
    SafeAlways(states, actions, n);
  }

  /** The maps rebuilt from the directory are inverse and are the directory. */
  lemma RecoveredIsDirectory(g: Node, order: seq<string>)
    requires NodeSteady(g) && Injective(g.files) && Lists(order, g.files)
    ensures var m := Recovered(order, g.files, g.range);
            Inverse(m) && InRange(m, g.range) && m.ports == g.files
  {
    RecoveryIsInverseExactly(order, g.files, g.range);
  }
}
