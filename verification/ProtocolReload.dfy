/**
 The debounced reload over whole runs: once no reload is pending, stunnel has read the
 config of every allocated tunnel.
 */
module ProtocolReload {
  import opened Wrappers
  import opened NodeProtocol
  import opened ProtocolInverse
  import opened ProtocolSafety
  import opened ProtocolCrash

  /**
   Stunnel has read v's config as it is on disk, or will: a reload is pending, or stunnel is down and reads the
   directory when it starts.
   */
  ghost predicate FreshFile(g: Node, v: string) {
    g.timer.pending || !g.running || (v in g.loaded && v in g.files && g.loaded[v] == g.files[v])
  }

  /** The call that wrote v's config has yet to check stunnel or to withdraw the file. */
  predicate Announcing(th: Thread, v: string) {
    th.v == v && (th.at.Committing? || th.at.Checking? || th.at.Undoing?)
  }

  ghost predicate Announced(s: State, v: string) {
    FreshFile(s.node, v) || (s.node.lock.Some? && Announcing(s.Th(s.node.lock.value), v))
  }

  ghost predicate Fresh(s: State) {
    forall v <- s.node.files :: Announced(s, v)
  }

  /** Every reload reaches stunnel (or finds it just gone). */
  predicate ReloadWorks(a: Action) {
    && (a.TimerCallback? ==> a.reload != NotSent)
    && (a.Run? && a.step.Clean? ==> a.step.reload != NotSent)
  }

  lemma StepFresh(g: Node, t: Tid, th: Thread, step: Step, v: string)
    requires Can(g, th, step) && (step.Clean? ==> step.reload != NotSent) && !(step == Undo(false) && th.v == v)
    requires v in Act(g, t, th, step).0.files
    requires v in g.files ==> FreshFile(g, v) || Announcing(th, v)
    ensures FreshFile(Act(g, t, th, step).0, v) || Announcing(Act(g, t, th, step).1, v)
  {
  }

  lemma StepFiles(g: Node, t: Tid, th: Thread, step: Step, v: string)
    requires ThreadOk(g, t, th) && Can(g, th, step) && g.lock != Some(t)
    ensures v in Act(g, t, th, step).0.files ==> v in g.files
  {
  }

  lemma RunFresh(s: State, t: Tid, step: Step)
    requires Base(s) && Fresh(s) && Enabled(s, Run(t, step))
    requires ReloadWorks(Run(t, step)) && (step.Undo? ==> step.ok)
    ensures Fresh(Next(s, Run(t, step)))
  {
    var s' := Next(s, Run(t, step));
    assert ThreadOk(s.node, t, s.Th(t));
    RunBase(s, t, step);
    forall v <- s'.node.files
      ensures Announced(s', v)
    {
      if s.node.lock == None || s.node.lock == Some(t) {
        StepFresh(s.node, t, s.Th(t), step, v);
      } else {
        var u := s.node.lock.value;
        assert s'.node.lock == Some(u) && s'.Th(u) == s.Th(u);
        StepFiles(s.node, t, s.Th(t), step, v);
        if !Announcing(s.Th(u), v) {
          StepFresh(s.node, t, s.Th(t), step, v);
        }
      }
    }
  }

  /** Stunnel runs and has not read v's config as it is on disk. */
  ghost predicate Unread(g: Node, v: string) {
    g.running && !(v in g.loaded && v in g.files && g.loaded[v] == g.files[v])
  }

  ghost predicate HeldBack(s: State, v: string) {
    s.node.lock.Some? && Announcing(s.Th(s.node.lock.value), v)
  }

  /**
   A reload that is not sent, a startup rollback that leaves its file, or a restart, while there is a config that
   stunnel still has to read.
   */
  ghost predicate Stales(s: State, a: Action) {
    match a
    case TimerCallback(NotSent) => exists v <- s.node.files :: Unread(s.node, v) && !HeldBack(s, v)
    case Run(t, Clean(NotSent)) => exists v <- s.node.files :: Unread(s.node, v) && !HeldBack(s, v)
    case Run(t, Undo(false)) => s.Th(t).v in s.node.files && !FreshFile(s.node, s.Th(t).v)
    case Crash(order) => exists v <- s.node.files :: Unread(s.node, v)
    case _ => false
  }

  /** The flag is cleared and nothing else moves. */
  lemma DroppedReload(s: State, s': State)
    requires s'.node == s.node.(timer := s'.node.timer) && !s'.node.timer.pending
    requires forall v :: HeldBack(s', v) <==> HeldBack(s, v)
    ensures Fresh(s') <==> !exists v <- s.node.files :: Unread(s.node, v) && !HeldBack(s, v)
  {
    if exists v <- s.node.files :: Unread(s.node, v) && !HeldBack(s, v) {
      var v :| v in s.node.files && Unread(s.node, v) && !HeldBack(s, v);
      assert !Announced(s', v);
    }
  }

  lemma CleanFails(s: State, t: Tid)
    requires Base(s) && Enabled(s, Run(t, Clean(NotSent)))
    ensures Fresh(Next(s, Run(t, Clean(NotSent)))) <==> !Stales(s, Run(t, Clean(NotSent)))
  {
    assert ThreadOk(s.node, t, s.Th(t));
    DroppedReload(s, Next(s, Run(t, Clean(NotSent))));
  }

  lemma UndoFails(s: State, t: Tid)
    requires Base(s) && Fresh(s) && Enabled(s, Run(t, Undo(false)))
    ensures Fresh(Next(s, Run(t, Undo(false)))) <==> !Stales(s, Run(t, Undo(false)))
  {
    assert ThreadOk(s.node, t, s.Th(t));
    var s' := Next(s, Run(t, Undo(false)));
    assert forall v :: Announced(s', v) <==> FreshFile(s.node, v);
    assert forall v <- s.node.files :: v != s.Th(t).v ==> FreshFile(s.node, v);
  }

  /**
   A restart forgets a pending reload: the directory is then fresh exactly when stunnel is down or has already read
   all of it.
   */
  lemma RestartFreshExactly(s: State, order: seq<string>)
    requires Enabled(s, Crash(order))
    ensures Fresh(Next(s, Crash(order))) <==>
            (!s.node.running || forall v <- s.node.files :: v in s.node.loaded && s.node.loaded[v] == s.node.files[v])
  {
  }

  /**
   Every step keeps the directory read or about to be read, unless it is one of the four above, and then it really
   does not.
   */
  lemma FreshExactly(s: State, a: Action)
    requires Base(s) && Fresh(s) && Enabled(s, a)
    ensures Fresh(Next(s, a)) <==> !Stales(s, a)
  {
    if a.Run? && a.step == Clean(NotSent) {
      CleanFails(s, a.t);
    } else if a.Run? && a.step == Undo(false) {
      UndoFails(s, a.t);
    } else if a.Run? {
      RunFresh(s, a.t, a.step);
    } else if a.Crash? {
      RestartFreshExactly(s, a.order);
    } else if a == TimerCallback(NotSent) {
      CallbackFails(s);
    } else {
      EnvironmentFresh(s, a);
    }
  }

  lemma CallbackFails(s: State)
    requires Fresh(s) && Enabled(s, TimerCallback(NotSent))
    ensures Fresh(Next(s, TimerCallback(NotSent))) <==> !Stales(s, TimerCallback(NotSent))
  {
    DroppedReload(s, Next(s, TimerCallback(NotSent)));
  }

  lemma EnvironmentFresh(s: State, a: Action)
    requires Fresh(s) && Enabled(s, a) && !a.Run? && !a.Crash? && a != TimerCallback(NotSent)
    ensures Fresh(Next(s, a))
  {
    forall v <- Next(s, a).node.files
      ensures Announced(Next(s, a), v)
    {
      assert Announced(s, v);
    }
  }

  lemma {:induction false} FreshUpTo(states: seq<State>, actions: seq<Action>, n: nat)
    requires Behaviour(states, actions) && n < |states|
    requires forall i :: 0 <= i < n ==> !Stales(states[i], actions[i])
    ensures Fresh(states[n])
  {
    if n > 0 {
      var m := n - 1;
      FreshUpTo(states, actions, m);
      BaseAlways(states, actions, m);
      assert Enabled(states[m], actions[m]) && states[m + 1] == Next(states[m], actions[m]);
      FreshExactly(states[m], actions[m]);
    }
  }

  /**
   Over every run, without any hypothesis: every config is read or about to be read at every instant exactly when no
   such step is taken.
   */
  lemma FreshOverRuns(states: seq<State>, actions: seq<Action>)
    requires Behaviour(states, actions)
    ensures (forall n :: 0 <= n < |states| ==> Fresh(states[n])) <==>
            (forall i :: 0 <= i < |actions| ==> !Stales(states[i], actions[i]))
  {
    if forall i :: 0 <= i < |actions| ==> !Stales(states[i], actions[i]) {
      forall n | 0 <= n < |states|
        ensures Fresh(states[n])
      {
        FreshUpTo(states, actions, n);
      }
    }
    if forall n :: 0 <= n < |states| ==> Fresh(states[n]) {
      forall i | 0 <= i < |actions|
        ensures !Stales(states[i], actions[i])
      {
        BaseAlways(states, actions, i);
        assert Enabled(states[i], actions[i]) && states[i + 1] == Next(states[i], actions[i]);
        assert Fresh(states[i]) && Fresh(states[i + 1]);
        FreshExactly(states[i], actions[i]);
      }
    }
  }

  /** No restart, and every reload arrives. */
  ghost predicate ReloadingRun(states: seq<State>, actions: seq<Action>) {
    Behaviour(states, actions) && forall i :: 0 <= i < |actions| ==> ReloadWorks(actions[i]) && !actions[i].Crash?
  }

  /** If besides every startup rollback deletes its file, no such step is taken. */
  lemma FreshAlways(states: seq<State>, actions: seq<Action>, n: nat)
    requires ReloadingRun(states, actions) && n < |states|
    requires forall i :: 0 <= i < |actions| ==> RollbackDeletes(actions[i])
    ensures Fresh(states[n])
  {
    FreshUpTo(states, actions, n);
  }

  // ------------------------------------------------------------------
  // Allocated tunnels, whatever the startup rollback leaves behind
  // ------------------------------------------------------------------

  /** v's config belongs to a tunnel or to a call in flight. */
  ghost predicate Owned(s: State, v: string) {
    v in s.node.maps.ports || Carried(s, v)
  }

  ghost predicate OwnedFresh(s: State) {
    forall v <- s.node.files :: Owned(s, v) ==> Announced(s, v)
  }

  /** A config becomes owned only by being written. */
  lemma BecomesOwned(s: State, t: Tid, step: Step, v: string)
    requires Steady(s) && Enabled(s, Run(t, step)) && Owned(Next(s, Run(t, step)), v) && !Owned(s, v)
    ensures step == Write(true) && v == s.Th(t).v
  {
    var s' := Next(s, Run(t, step));
    var th := s.Th(t);
    assert ThreadOk(s.node, t, th);
    StepTouches(s.node, t, th, step);
    if v !in s'.node.maps.ports {
      var u: Tid :| Carries(s', u, v);
      assert u != t ==> Carries(s, u, v);
      StepVolume(s.node, t, th, step);
    }
    assert !Carries(s, t, v);
    NewlyOwned(s.node, t, th, step);
  }

  lemma NewlyOwned(g: Node, t: Tid, th: Thread, step: Step)
    requires ThreadOk(g, t, th) && Can(g, th, step) && th.v !in g.maps.ports && !InFlight(th.at)
    ensures var (g', th') := Act(g, t, th, step);
            th.v in g'.maps.ports || (InFlight(th'.at) && th'.v == th.v) ==> step == Write(true)
  {
  }

  lemma RunOwnedFresh(s: State, t: Tid, step: Step)
    requires Steady(s) && OwnedFresh(s) && Enabled(s, Run(t, step)) && ReloadWorks(Run(t, step))
    ensures OwnedFresh(Next(s, Run(t, step)))
  {
    var s' := Next(s, Run(t, step));
    assert ThreadOk(s.node, t, s.Th(t));
    RunBase(s, t, step);
    forall v <- s'.node.files | Owned(s', v)
      ensures Announced(s', v)
    {
      if !Owned(s, v) {
        BecomesOwned(s, t, step, v);
      } else {
        StaysAnnounced(s, t, step, v);
      }
    }
  }

  /** Its own call no longer owns the file that a startup rollback leaves. */
  lemma UndoneIsNotOwned(s: State, t: Tid)
    requires Steady(s) && Enabled(s, Run(t, Undo(false)))
    ensures !Owned(Next(s, Run(t, Undo(false))), s.Th(t).v)
  {
    var s' := Next(s, Run(t, Undo(false)));
    assert ThreadOk(s.node, t, s.Th(t));
    assert forall u: Tid :: u != t ==> s'.Th(u) == s.Th(u);
  }

  lemma StaysAnnounced(s: State, t: Tid, step: Step, v: string)
    requires Steady(s) && OwnedFresh(s) && Enabled(s, Run(t, step)) && ReloadWorks(Run(t, step))
    requires Owned(s, v) && Owned(Next(s, Run(t, step)), v) && v in Next(s, Run(t, step)).node.files
    ensures Announced(Next(s, Run(t, step)), v)
  {
    var s' := Next(s, Run(t, step));
    assert ThreadOk(s.node, t, s.Th(t));
    RunBase(s, t, step);
    if step == Undo(false) {
      UndoneIsNotOwned(s, t);
    }
    if s.node.lock == None || s.node.lock == Some(t) {
      StepFresh(s.node, t, s.Th(t), step, v);
    } else {
      var u := s.node.lock.value;
      assert s'.node.lock == Some(u) && s'.Th(u) == s.Th(u);
      StepFiles(s.node, t, s.Th(t), step, v);
      if !Announcing(s.Th(u), v) {
        StepFresh(s.node, t, s.Th(t), step, v);
      }
    }
  }

  lemma EnvironmentOwnedFresh(s: State, a: Action)
    requires OwnedFresh(s) && Enabled(s, a) && ReloadWorks(a) && !a.Run? && !a.Crash?
    ensures OwnedFresh(Next(s, a))
  {
    var s' := Next(s, a);
    forall v <- s'.node.files | Owned(s', v)
      ensures Announced(s', v)
    {
      assert forall t: Tid :: Carries(s', t, v) <==> Carries(s, t, v);
      assert Owned(s, v) && Announced(s, v);
    }
  }

  lemma {:induction false} OwnedFreshAlways(states: seq<State>, actions: seq<Action>, n: nat)
    requires OneCallRun(states, actions) && ReloadingRun(states, actions) && n < |states|
    ensures OwnedFresh(states[n])
  {
    if n > 0 {
      var m := n - 1;
      OwnedFreshAlways(states, actions, m);
      SteadyAlways(states, actions, m);
      assert Enabled(states[m], actions[m]) && states[m + 1] == Next(states[m], actions[m]);
      if actions[m].Run? {
        RunOwnedFresh(states[m], actions[m].t, actions[m].step);
      } else {
        EnvironmentOwnedFresh(states[m], actions[m]);
      }
    }
  }

  /**
   Once no reload is pending and stunnel runs, it has read the config of every allocated tunnel, but for the one whose
   EnsureTunnel is still at work.
   */
  lemma QuietMeansLoaded(states: seq<State>, actions: seq<Action>, n: nat)
    requires OneCallRun(states, actions) && ReloadingRun(states, actions) && n < |states|
    requires !states[n].node.timer.pending && states[n].node.running
    ensures var s := states[n];
            forall v <- s.node.maps.ports ::
              || (v in s.node.loaded && s.node.loaded[v] == s.node.maps.ports[v])
              || (s.node.lock.Some? && s.Th(s.node.lock.value).at.Checking? && s.Th(s.node.lock.value).v == v)
  {
    var s := states[n];
    OwnedFreshAlways(states, actions, n);
    SteadyAlways(states, actions, n);
    if s.node.lock.Some? {
      var t := s.node.lock.value;
      assert ThreadOk(s.node, t, s.Th(t)) && ThreadSteady(s.node, s.Th(t));
    }
    forall v <- s.node.maps.ports
      ensures v in s.node.files && Announced(s, v)
    {
      assert Owned(s, v);
    }
  }

  /**
   The last tunnel: the signal goes out while its config is still on disk, so that stunnel reads it once more before it
   goes.
   */
  lemma LastConfigReadBeforeDeletion(states: seq<State>, actions: seq<Action>, n: nat, t: Tid)
    requires OneCallRun(states, actions) && n < |actions| && actions[n] == Run(t, Clean(Signalled))
    ensures var th := states[n].Th(t);
            && th.v in states[n + 1].node.loaded && states[n + 1].node.loaded[th.v] == th.p
            && th.v in states[n + 1].node.files && !states[n + 1].node.timer.pending
  {
    SteadyAlways(states, actions, n);
    assert ThreadSteady(states[n].node, states[n].Th(t));
  }
}
