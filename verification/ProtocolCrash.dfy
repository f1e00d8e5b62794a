/**
 Crash safety: what recovery makes of the directory at any instant.  First with no hypothesis, as an
 equivalence over every run; then for the runs where the hypotheses rule the failing steps out.
 */
module ProtocolCrash {
  import opened PortMaps
  import opened NodeProtocol
  import opened ProtocolInverse
  import opened ProtocolSafety

  /** Every allocated tunnel has its config on disk. */
  ghost predicate Mirrored(g: Node) {
    forall v <- g.maps.ports :: v in g.files && g.files[v] == g.maps.ports[v]
  }

  ghost predicate Carries(s: State, t: Tid, v: string) {
    InFlight(s.Th(t).at) && s.Th(t).v == v
  }

  ghost predicate Carried(s: State, v: string) {
    exists t: Tid :: Carries(s, t, v)
  }

  /** Every config file belongs to an allocated tunnel or to a call in flight. */
  ghost predicate Covered(s: State) {
    forall v <- s.node.files :: v in s.node.maps.ports || Carried(s, v)
  }

  ghost predicate Ranged(g: Node) {
    forall v <- g.files :: g.range.Has(g.files[v])
  }

  /** A crash now loses no tunnel, moves none, and brings up only tunnels that a call was creating or removing. */
  ghost predicate RecoversWell(s: State) {
    forall order | Lists(order, s.node.files) ::
      var m := Recovered(order, s.node.files, s.node.range);
      && Inverse(m)
      && (forall v <- s.node.maps.ports :: v in m.ports && m.ports[v] == s.node.maps.ports[v])
      && (forall v <- m.ports :: v in s.node.maps.ports || Carried(s, v))
  }

  /** A directory can be listed. */
  lemma Listing(files: map<string, int>) returns (order: seq<string>)
    ensures Lists(order, files)
    decreases |files|
  {
    if files == map[] {
      order := [];
    } else {
      var v :| v in files;
      var rest := files - {v};
      assert rest.Keys == files.Keys - {v};
      var tail := Listing(rest);
      order := [v] + tail;
    }
  }

  lemma RecoversWellExactly(s: State)
    requires Ranged(s.node)
    ensures RecoversWell(s) <==> Mirrored(s.node) && Covered(s) && NoSharedPort(s.node.files, s.node.range)
  {
    var g := s.node;
    forall order | Lists(order, g.files)
      ensures var m := Recovered(order, g.files, g.range);
              m.ports == g.files && (Inverse(m) <==> NoSharedPort(g.files, g.range))
    {
      RecoveryIsInverseExactly(order, g.files, g.range);
    }
    var order := Listing(g.files);
    if RecoversWell(s) {
      assert Recovered(order, g.files, g.range).ports == g.files;
    }
  }

  // ------------------------------------------------------------------
  // The steps after which a crash does harm
  // ------------------------------------------------------------------

  ghost predicate OnDisk(g: Node, v: string, p: int) {
    v in g.files && g.files[v] == p
  }

  /** A commit or rollback of a pair that the directory does not hold, or a deletion under an allocated tunnel. */
  ghost predicate StepUnmirrors(g: Node, th: Thread, step: Step) {
    match step
    case Commit => !OnDisk(g, th.v, th.p)
    case Rollback => !OnDisk(g, th.v, th.p)
    case Delete(ok) => ok && th.v in g.maps.ports
    case _ => false
  }

  /** A config for a port that another config names. */
  ghost predicate StepShares(g: Node, th: Thread, step: Step) {
    step == Write(true) && exists w :: w != th.v && Recoverable(g.files, g.range, w) && g.files[w] == th.p
  }

  /** A startup rollback that leaves its file behind, with no other call on that volume in flight. */
  ghost predicate Uncovers(s: State, t: Tid, step: Step) {
    step == Undo(false) && s.Th(t).v in s.node.files && forall u: Tid :: u != t ==> !Carries(s, u, s.Th(t).v)
  }

  ghost predicate Endangers(s: State, a: Action) {
    Unmirrors(s, a) || LeavesOrphan(s, a) || (a.Run? && StepShares(s.node, s.Th(a.t), a.step))
  }

  lemma RunMirrored(g: Node, t: Tid, th: Thread, step: Step)
    requires ThreadOk(g, t, th) && Mirrored(g) && Can(g, th, step)
    ensures Mirrored(Act(g, t, th, step).0) <==> !StepUnmirrors(g, th, step)
  {
    var g' := Act(g, t, th, step).0;
    if StepUnmirrors(g, th, step) {
      assert th.v in g'.maps.ports;
    } else if step.Commit? || step.Wake? || step.Release? || step.Rollback? {
      MapStepTouches(g, t, th, step);
    } else if step.Write? || step.Undo? || step.Delete? {
      FileStepTouches(g, t, th, step);
    } else {
      OtherTables(g, t, th, step);
    }
  }

  /** The remaining steps change neither maps nor directory. */
  lemma OtherTables(g: Node, t: Tid, th: Thread, step: Step)
    requires Can(g, th, step) && !step.Commit? && !step.Wake? && !step.Release? && !step.Rollback?
    requires !step.Write? && !step.Undo? && !step.Delete?
    ensures Act(g, t, th, step).0.maps == g.maps && Act(g, t, th, step).0.files == g.files
  {
    if IsQuiet(step) {
      QuietTables(g, t, th, step);
    }
  }

  lemma QuietTables(g: Node, t: Tid, th: Thread, step: Step)
    requires Can(g, th, step) && IsQuiet(step)
    ensures Act(g, t, th, step).0.maps == g.maps && Act(g, t, th, step).0.files == g.files
  {
    if step.Clean? {
      CleanTables(g, t, th, step);
    }
  }

  lemma CleanTables(g: Node, t: Tid, th: Thread, step: Step)
    requires Can(g, th, step) && step.Clean?
    ensures Act(g, t, th, step).0.maps == g.maps && Act(g, t, th, step).0.files == g.files
  {
  }

  lemma RunShared(g: Node, t: Tid, th: Thread, step: Step)
    requires ThreadOk(g, t, th) && Ranged(g) && NoSharedPort(g.files, g.range) && Can(g, th, step)
    ensures Ranged(Act(g, t, th, step).0)
    ensures var g' := Act(g, t, th, step).0; NoSharedPort(g'.files, g'.range) <==> !StepShares(g, th, step)
  {
    var g' := Act(g, t, th, step).0;
    if step == Write(true) {
      WriteShared(g, th);
    } else if step.Write? || step.Undo? || step.Delete? {
      assert forall v <- g'.files :: v in g.files && g'.files[v] == g.files[v];
    } else {
      FilesStay(g, t, th, step);
    }
  }

  lemma FilesStay(g: Node, t: Tid, th: Thread, step: Step)
    requires Can(g, th, step) && !step.Write? && !step.Undo? && !step.Delete?
    ensures Act(g, t, th, step).0.files == g.files && Act(g, t, th, step).0.range == g.range
  {
  }

  lemma WriteShared(g: Node, th: Thread)
    requires g.range.Has(th.p) && Ranged(g) && NoSharedPort(g.files, g.range)
    ensures NoSharedPort(g.files[th.v := th.p], g.range) <==> !StepShares(g, th, Write(true))
  {
    var files' := g.files[th.v := th.p];
    if StepShares(g, th, Write(true)) {
      var w :| w != th.v && Recoverable(g.files, g.range, w) && g.files[w] == th.p;
      assert Recoverable(files', g.range, w) && Recoverable(files', g.range, th.v);
    } else {
      forall v, w | Recoverable(files', g.range, v) && Recoverable(files', g.range, w) && files'[v] == files'[w]
        ensures v == w
      {
        assert v != th.v ==> Recoverable(g.files, g.range, v);
        assert w != th.v ==> Recoverable(g.files, g.range, w);
      }
    }
  }

  /** Own volume: what the step leaves on disk it also accounts for. */
  lemma OwnCovered(g: Node, t: Tid, th: Thread, step: Step)
    requires ThreadOk(g, t, th) && Can(g, th, step) && !th.at.Idle? && step != Undo(false)
    requires th.v in g.files ==> th.v in g.maps.ports || InFlight(th.at)
    ensures var (g', th') := Act(g, t, th, step);
            th.v in g'.files ==> th.v in g'.maps.ports || (InFlight(th'.at) && th'.v == th.v)
  {
    if IsQuiet(step) {
      QuietCovered(g, t, th, step);
    }
  }

  lemma QuietCovered(g: Node, t: Tid, th: Thread, step: Step)
    requires Can(g, th, step) && IsQuiet(step)
    ensures InFlight(th.at) ==> InFlight(Act(g, t, th, step).1.at) && Act(g, t, th, step).1.v == th.v
  {
  }

  /** A volume that the step is not about stays accounted for. */
  lemma OthersCovered(s: State, t: Tid, step: Step, v: string)
    requires Covered(s) && Enabled(s, Run(t, step)) && v in s.node.files && v !in s.node.maps.ports
    requires !Carries(s, t, v)
    ensures Carried(Next(s, Run(t, step)), v)
  {
    var u: Tid :| Carries(s, u, v);
    assert Carries(Next(s, Run(t, step)), u, v);
  }

  lemma RunCovered(s: State, t: Tid, step: Step)
    requires Base(s) && Covered(s) && Enabled(s, Run(t, step)) && step != Undo(false)
    ensures Covered(Next(s, Run(t, step)))
  {
    var s', th := Next(s, Run(t, step)), s.Th(t);
    assert ThreadOk(s.node, t, th);
    StepTouches(s.node, t, th, step);
    if th.at.Idle? {
      StartTouchesNothing(s.node, t, th, step);
    }
    forall v <- s'.node.files | v !in s'.node.maps.ports
      ensures Carried(s', v)
    {
      if v in s.node.files && v !in s.node.maps.ports && !Carries(s, t, v) {
        OthersCovered(s, t, step, v);
      } else {
        OwnCovered(s.node, t, th, step);
        assert Carries(s', t, v);
      }
    }
  }

  lemma UndoLeavesFile(s: State, t: Tid)
    requires Base(s) && Covered(s) && Enabled(s, Run(t, Undo(false)))
    ensures Covered(Next(s, Run(t, Undo(false)))) <==> !Uncovers(s, t, Undo(false))
  {
    var s', v := Next(s, Run(t, Undo(false))), s.Th(t).v;
    assert ThreadOk(s.node, t, s.Th(t));
    assert forall u: Tid, w :: Carries(s', u, w) <==> u != t && Carries(s, u, w);
    if !Uncovers(s, t, Undo(false)) && v in s.node.files {
      var u: Tid :| u != t && Carries(s, u, v);
      assert Carries(s', u, v);
    }
    forall w <- s.node.files | w != v && w !in s.node.maps.ports
      ensures Carried(s', w)
    {
      OthersCovered(s, t, Undo(false), w);
    }
  }

  // ------------------------------------------------------------------
  // Every run
  // ------------------------------------------------------------------

  ghost predicate Unmirrors(s: State, a: Action) {
    a.Run? && StepUnmirrors(s.node, s.Th(a.t), a.step)
  }

  /** A step leaves an allocated tunnel without its config exactly when it is one of those above. */
  lemma MirroredExactly(s: State, a: Action)
    requires Base(s) && Mirrored(s.node) && Enabled(s, a)
    ensures Mirrored(Next(s, a).node) <==> !Unmirrors(s, a)
  {
    match a
    case Run(t, step) =>
      assert ThreadOk(s.node, t, s.Th(t));
      RunMirrored(s.node, t, s.Th(t), step);
    case Crash(order) => RecoveredContents(order, s.node.files, s.node.range);
    case _ =>
  }

  ghost predicate LeavesOrphan(s: State, a: Action) {
    a.Run? && Uncovers(s, a.t, a.step)
  }

  /**
   A step leaves a config that nobody accounts for exactly when it is a startup rollback that leaves its file
   behind.
   */
  lemma CoveredExactly(s: State, a: Action)
    requires Base(s) && Ranged(s.node) && Covered(s) && Enabled(s, a)
    ensures Covered(Next(s, a)) <==> !LeavesOrphan(s, a)
  {
    match a
    case Run(t, step) =>
      if step == Undo(false) {
        UndoLeavesFile(s, t);
      } else {
        RunCovered(s, t, step);
      }
    case Crash(order) => RecoveredContents(order, s.node.files, s.node.range);
    case _ => EnvironmentCovered(s, a);
  }

  lemma EnvironmentCovered(s: State, a: Action)
    requires Covered(s) && Enabled(s, a) && !a.Run? && !a.Crash?
    ensures Covered(Next(s, a))
  {
    var s' := Next(s, a);
    forall v <- s'.node.files | v !in s'.node.maps.ports
      ensures Carried(s', v)
    {
      var t: Tid :| Carries(s, t, v);
      assert Carries(s', t, v);
    }
  }

  lemma {:induction false} MirroredUpTo(states: seq<State>, actions: seq<Action>, n: nat)
    requires Behaviour(states, actions) && n < |states|
    requires forall i :: 0 <= i < n ==> !Unmirrors(states[i], actions[i])
    ensures Mirrored(states[n].node)
  {
    if n > 0 {
      var m := n - 1;
      MirroredUpTo(states, actions, m);
      BaseAlways(states, actions, m);
      assert Enabled(states[m], actions[m]) && states[m + 1] == Next(states[m], actions[m]);
      MirroredExactly(states[m], actions[m]);
    }
  }

  /**
   Over every run: each allocated tunnel has its config on disk at every instant exactly when no such step is taken.
   */
  lemma MirroredOverRuns(states: seq<State>, actions: seq<Action>)
    requires Behaviour(states, actions)
    ensures (forall n :: 0 <= n < |states| ==> Mirrored(states[n].node)) <==>
            (forall i :: 0 <= i < |actions| ==> !Unmirrors(states[i], actions[i]))
  {
    if forall i :: 0 <= i < |actions| ==> !Unmirrors(states[i], actions[i]) {
      forall n | 0 <= n < |states|
        ensures Mirrored(states[n].node)
      {
        MirroredUpTo(states, actions, n);
      }
    }
    if forall n :: 0 <= n < |states| ==> Mirrored(states[n].node) {
      forall i | 0 <= i < |actions|
        ensures !Unmirrors(states[i], actions[i])
      {
        BaseAlways(states, actions, i);
        assert Enabled(states[i], actions[i]) && states[i + 1] == Next(states[i], actions[i]);
        assert Mirrored(states[i].node) && Mirrored(states[i + 1].node);
        MirroredExactly(states[i], actions[i]);
      }
    }
  }

  lemma {:induction false} CoveredUpTo(states: seq<State>, actions: seq<Action>, n: nat)
    requires Behaviour(states, actions) && n < |states|
    requires forall i :: 0 <= i < n ==> !LeavesOrphan(states[i], actions[i])
    ensures Covered(states[n])
  {
    if n > 0 {
      var m := n - 1;
      CoveredUpTo(states, actions, m);
      BaseAlways(states, actions, m);
      RangedAlways(states, actions, m);
      assert Enabled(states[m], actions[m]) && states[m + 1] == Next(states[m], actions[m]);
      CoveredExactly(states[m], actions[m]);
    }
  }

  /** Over every run: each config belongs to a tunnel or a call at every instant exactly when no such step is taken. */
  lemma CoveredOverRuns(states: seq<State>, actions: seq<Action>)
    requires Behaviour(states, actions)
    ensures (forall n :: 0 <= n < |states| ==> Covered(states[n])) <==>
            (forall i :: 0 <= i < |actions| ==> !LeavesOrphan(states[i], actions[i]))
  {
    if forall i :: 0 <= i < |actions| ==> !LeavesOrphan(states[i], actions[i]) {
      forall n | 0 <= n < |states|
        ensures Covered(states[n])
      {
        CoveredUpTo(states, actions, n);
      }
    }
    if forall n :: 0 <= n < |states| ==> Covered(states[n]) {
      forall i | 0 <= i < |actions|
        ensures !LeavesOrphan(states[i], actions[i])
      {
        BaseAlways(states, actions, i);
        RangedAlways(states, actions, i);
        assert Enabled(states[i], actions[i]) && states[i + 1] == Next(states[i], actions[i]);
        assert Covered(states[i]) && Covered(states[i + 1]);
        CoveredExactly(states[i], actions[i]);
      }
    }
  }

  // ------------------------------------------------------------------
  // Crashes
  // ------------------------------------------------------------------

  ghost predicate CrashSafe(s: State) {
    Mirrored(s.node) && Covered(s) && NoSharedPort(s.node.files, s.node.range)
  }

  /** From any reachable state: a step leaves the next crash harmful exactly when it is one of the five above. */
  lemma CrashSafeExactly(s: State, a: Action)
    requires Base(s) && Ranged(s.node) && CrashSafe(s) && Enabled(s, a)
    ensures Ranged(Next(s, a).node) && (CrashSafe(Next(s, a)) <==> !Endangers(s, a))
  {
    MirroredExactly(s, a);
    CoveredExactly(s, a);
    if a.Run? {
      assert ThreadOk(s.node, a.t, s.Th(a.t));
      RunShared(s.node, a.t, s.Th(a.t), a.step);
    }
  }

  lemma {:induction false} CrashSafeUpTo(states: seq<State>, actions: seq<Action>, n: nat)
    requires Behaviour(states, actions) && n < |states|
    requires forall i :: 0 <= i < n ==> !Endangers(states[i], actions[i])
    ensures Ranged(states[n].node) && CrashSafe(states[n])
  {
    if n > 0 {
      var m := n - 1;
      CrashSafeUpTo(states, actions, m);
      BaseAlways(states, actions, m);
      assert Enabled(states[m], actions[m]) && states[m + 1] == Next(states[m], actions[m]);
      CrashSafeExactly(states[m], actions[m]);
    }
  }

  /** Files are in range at every instant of every run. */
  lemma {:induction false} RangedAlways(states: seq<State>, actions: seq<Action>, n: nat)
    requires Behaviour(states, actions) && n < |states|
    ensures Ranged(states[n].node)
  {
    if n > 0 {
      var m := n - 1;
      RangedAlways(states, actions, m);
      BaseAlways(states, actions, m);
      assert Enabled(states[m], actions[m]) && states[m + 1] == Next(states[m], actions[m]);
      RangedStep(states[m], actions[m]);
    }
  }

  lemma RangedStep(s: State, a: Action)
    requires Base(s) && Ranged(s.node) && Enabled(s, a)
    ensures Ranged(Next(s, a).node)
  {
    if a.Run? {
      assert ThreadOk(s.node, a.t, s.Th(a.t));
      if !a.step.Write? && !a.step.Undo? && !a.step.Delete? {
        FilesStay(s.node, a.t, s.Th(a.t), a.step);
      }
    }
  }

  /**
   Crash safety over every run, with no hypothesis: a crash does no harm at any instant exactly when no step commits or
   rolls back a pair that is not on disk, deletes under an allocated tunnel, writes a port that another config names, or
   leaves a file behind in a startup rollback.
   */
  lemma CrashSafeOverRuns(states: seq<State>, actions: seq<Action>)
    requires Behaviour(states, actions)
    ensures (forall n :: 0 <= n < |states| ==> RecoversWell(states[n])) <==>
            (forall i :: 0 <= i < |actions| ==> !Endangers(states[i], actions[i]))
  {
    forall n | 0 <= n < |states|
      ensures RecoversWell(states[n]) <==> CrashSafe(states[n])
    {
      RangedAlways(states, actions, n);
      RecoversWellExactly(states[n]);
    }
    if forall i :: 0 <= i < |actions| ==> !Endangers(states[i], actions[i]) {
      forall n | 0 <= n < |states|
        ensures RecoversWell(states[n])
      {
        CrashSafeUpTo(states, actions, n);
      }
    }
    if forall n :: 0 <= n < |states| ==> RecoversWell(states[n]) {
      forall i | 0 <= i < |actions|
        ensures !Endangers(states[i], actions[i])
      {
        BaseAlways(states, actions, i);
        RangedAlways(states, actions, i);
        assert Enabled(states[i], actions[i]) && states[i + 1] == Next(states[i], actions[i]);
        assert RecoversWell(states[i]) && RecoversWell(states[i + 1]);
        CrashSafeExactly(states[i], actions[i]);
      }
    }
  }

  // ------------------------------------------------------------------
  // Runs where no such step is taken
  // ------------------------------------------------------------------

  /** The startup rollback manages to delete the file it wrote. */
  predicate RollbackDeletes(a: Action) {
    a.Run? && a.step.Undo? ==> a.step.ok
  }

  ghost predicate DeletingRun(actions: seq<Action>) {
    forall i :: 0 <= i < |actions| ==> RollbackDeletes(actions[i])
  }

  /** With one call per share no step takes the config from an allocated tunnel. */
  lemma SteadyNeverUnmirrors(s: State, a: Action)
    requires Steady(s) && Enabled(s, a)
    ensures !Unmirrors(s, a)
  {
    if a.Run? {
      assert ThreadOk(s.node, a.t, s.Th(a.t)) && ThreadSteady(s.node, s.Th(a.t));
    }
  }

  /** If besides leftover configs are busy, only a startup rollback that leaves its file behind endangers a crash. */
  lemma OnlyUndoEndangers(s: State, a: Action)
    requires Safe(s) && Enabled(s, a)
    ensures Endangers(s, a) ==> LeavesOrphan(s, a)
  {
    SteadyNeverUnmirrors(s, a);
    if a.Run? {
      assert ThreadOk(s.node, a.t, s.Th(a.t)) && NewPort(s.node, s.Th(a.t));
    }
  }

  /** If startup rollbacks delete their files, every config is accounted for. */
  lemma DeletingRunsAreCovered(states: seq<State>, actions: seq<Action>, n: nat)
    requires Behaviour(states, actions) && DeletingRun(actions) && n < |states|
    ensures Covered(states[n])
  {
    CoveredUpTo(states, actions, n);
  }

  /**
   A crash at any instant, with one call per share and startup rollbacks that delete their files: recovery gives every
   tunnel its port again, and brings up only tunnels that a call was creating or removing, on the port that call holds.
   With leftover configs busy the recovered maps are inverse, too.
   */
  lemma CrashSafety(states: seq<State>, actions: seq<Action>, n: nat, order: seq<string>)
    requires OneCallRun(states, actions) && DeletingRun(actions) && n < |states| && Lists(order, states[n].node.files)
    ensures var s := states[n];
            var m := Recovered(order, s.node.files, s.node.range);
            && InRange(m, s.node.range)
            && (forall v <- s.node.maps.ports :: v in m.ports && m.ports[v] == s.node.maps.ports[v])
            && (forall v <- m.ports ::
                  v in s.node.maps.ports || exists t: Tid :: Carries(s, t, v) && s.Th(t).p == m.ports[v])
            && (GuardedRun(states, actions) ==> Inverse(m))
  {
    var s := states[n];
    SteadyAlways(states, actions, n);
    DeletingRunsAreCovered(states, actions, n);
    RecoveryIsInverseExactly(order, s.node.files, s.node.range);
    forall v <- s.node.files | v !in s.node.maps.ports
      ensures exists t: Tid :: Carries(s, t, v) && s.Th(t).p == s.node.files[v]
    {
      var t: Tid :| Carries(s, t, v);
      assert ThreadSteady(s.node, s.Th(t));
    }
    if GuardedRun(states, actions) {
      SafeAlways(states, actions, n);
    }
  }

  // ------------------------------------------------------------------
  // One call at a time
  // ------------------------------------------------------------------

  ghost predicate OneActive(s: State) {
    forall t: Tid, u: Tid :: !s.Th(t).at.Idle? && !s.Th(u).at.Idle? ==> t == u
  }

  ghost predicate SoloRun(states: seq<State>, actions: seq<Action>) {
    Behaviour(states, actions) && forall n :: 0 <= n < |states| ==> OneActive(states[n])
  }

  lemma SoloStepIsOneCall(s: State, a: Action)
    requires OneActive(s) && Enabled(s, a) && OneActive(Next(s, a))
    ensures OneCallPerShare(s, a)
  {
    match a {
      case Run(t, Publish(v, target)) => OthersIdle(s, t, v, Next(s, a));
      case Run(t, Unpublish(v, target)) => OthersIdle(s, t, v, Next(s, a));
      case _ =>
    }
  }

  /** One call at a time is one call per share. */
  lemma SoloRunsAreOneCall(states: seq<State>, actions: seq<Action>)
    requires SoloRun(states, actions)
    ensures OneCallRun(states, actions)
  {
    forall i | 0 <= i < |actions|
      ensures OneCallPerShare(states[i], actions[i])
    {
      assert Enabled(states[i], actions[i]) && states[i + 1] == Next(states[i], actions[i]);
      assert OneActive(states[i]) && OneActive(states[i + 1]);
      SoloStepIsOneCall(states[i], actions[i]);
    }
  }

  /** Nothing is in flight, so every file belongs to an allocated tunnel. */
  lemma SoloFiles(s: State, t: Tid)
    requires Covered(s) && OneActive(s) && s.Th(t).at.SlowPath?
    ensures forall w <- s.node.files :: w in s.node.maps.ports
  {
    forall w, u: Tid
      ensures !Carries(s, u, w)
    {
    }
  }

  lemma OthersIdle(s: State, t: Tid, v: string, s': State)
    requires OneActive(s') && !s'.Th(t).at.Idle? && (forall u: Tid :: u != t ==> s'.Th(u) == s.Th(u))
    ensures Alone(s, t, v)
  {
  }

  /**
   With one call at a time and startup rollbacks that delete their files, the bind-test hypothesis is not needed: the
   directory then names no released port when a port is chosen.
   */
  lemma SoloRunsAreGuarded(states: seq<State>, actions: seq<Action>)
    requires SoloRun(states, actions) && DeletingRun(actions)
    ensures GuardedRun(states, actions)
  {
    SoloRunsAreOneCall(states, actions);
    forall i | 0 <= i < |actions|
      ensures Guarded(states[i], actions[i])
    {
      assert Enabled(states[i], actions[i]) && OneActive(states[i]);
      DeletingRunsAreCovered(states, actions, i);
      if actions[i].Run? && actions[i].step.Enter? {
        SoloFiles(states[i], actions[i].t);
      }
    }
  }

  /** The only file that no tunnel has is that of the one call. */
  lemma OnlyOwnFile(s: State, t: Tid)
    requires Covered(s) && forall u: Tid :: u != t ==> s.Th(u).at.Idle?
    ensures forall v <- s.node.files :: v in s.node.maps.ports || (v == s.Th(t).v && InFlight(s.Th(t).at))
  {
    forall v <- s.node.files | v !in s.node.maps.ports
      ensures v == s.Th(t).v && InFlight(s.Th(t).at)
    {
      var u: Tid :| Carries(s, u, v);
      assert u == t;
    }
  }

  /** Single-threaded crash safety: recovery gives back the maps, plus at most the one tunnel in flight. */
  lemma SoloCrashSafety(states: seq<State>, actions: seq<Action>, n: nat, t: Tid, order: seq<string>)
    requires SoloRun(states, actions) && DeletingRun(actions) && n < |states| && Lists(order, states[n].node.files)
    requires forall u: Tid :: u != t ==> states[n].Th(u).at.Idle?
    ensures var s := states[n];
            var m := Recovered(order, s.node.files, s.node.range);
            && Inverse(m)
            && (m.ports == s.node.maps.ports ||
                (s.Th(t).v !in s.node.maps.ports && m.ports == s.node.maps.ports[s.Th(t).v := s.Th(t).p]))
  {
    var s := states[n];
    SoloRunsAreGuarded(states, actions);
    SafeAlways(states, actions, n);
    DeletingRunsAreCovered(states, actions, n);
    RecoveredIsDirectory(s.node, order);
    assert ThreadSteady(s.node, s.Th(t));
    OnlyOwnFile(s, t);
    OneMoreFile(s.node.files, s.node.maps.ports, s.Th(t).v);
  }

  lemma OneMoreFile(files: map<string, int>, ports: map<string, int>, v: string)
    requires forall w <- ports :: w in files && files[w] == ports[w]
    requires forall w <- files :: w in ports || w == v
    ensures files == ports || (v !in ports && v in files && files == ports[v := files[v]])
  {
    if v in ports || v !in files {
      assert files == ports;
    }
  }
}
