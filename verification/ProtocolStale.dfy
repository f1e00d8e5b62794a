/**
 Services that should be gone: stunnel serves what it last read, so a deleted config has to be followed by a reload.
 Together with the configs that still have to be read, this says when stunnel serves exactly what is on disk.
 */
module ProtocolStale {
  import opened Wrappers
  import opened NodeProtocol
  import opened ProtocolInverse
  import opened ProtocolSafety
  import opened ProtocolCrash
  import opened ProtocolReload

  /** A running stunnel serves w, which has no config any more. */
  predicate ServesGone(g: Node, w: string) {
    g.running && w in g.loaded && w !in g.files
  }

  predicate AnyGone(g: Node) {
    exists w <- g.loaded :: ServesGone(g, w)
  }

  /** A call has deleted a config and is about to schedule a reload. */
  ghost predicate AboutToSchedule(s: State) {
    exists t: Tid :: s.Th(t).at.Scheduling?
  }

  ghost predicate ReloadToCome(s: State) {
    s.node.timer.pending || AboutToSchedule(s)
  }

  /** Stunnel serves nothing that is gone, or a reload is to come. */
  ghost predicate Swept(s: State) {
    AnyGone(s.node) ==> ReloadToCome(s)
  }

  /** The deletion of a config that a running stunnel serves, with no reload to come. */
  ghost predicate Bereaves(s: State, v: string) {
    s.node.running && v in s.node.loaded && !ReloadToCome(s)
  }

  /**
   The deletion of the last tunnel, whose signal went out before, and a startup rollback that deletes; a reload that is
   not sent, and a restart, while stunnel serves something that is gone.
   */
  ghost predicate Lingers(s: State, a: Action) {
    match a
    case Run(t, Delete(true)) => s.Th(t).at.DeletingLast? && Bereaves(s, s.Th(t).v)
    case Run(t, Undo(true)) => Bereaves(s, s.Th(t).v)
    case Run(t, Clean(NotSent)) => AnyGone(s.node) && !AboutToSchedule(s)
    case TimerCallback(NotSent) => AnyGone(s.node) && !AboutToSchedule(s)
    case Crash(order) => AnyGone(s.node)
    case _ => false
  }

  // ------------------------------------------------------------------
  // Steps
  // ------------------------------------------------------------------

  /** Whatever else a step does, nothing more is gone, and a reload to come stays to come. */
  lemma StaysSwept(s: State, s': State)
    requires Swept(s) && (AnyGone(s'.node) ==> AnyGone(s.node)) && (ReloadToCome(s) ==> ReloadToCome(s'))
    ensures Swept(s')
  {
  }

  lemma SameThreads(s: State, s': State, t: Tid)
    requires (forall u: Tid :: u != t ==> s'.Th(u) == s.Th(u)) && !s.Th(t).at.Scheduling?
    ensures AboutToSchedule(s) ==> AboutToSchedule(s')
  {
    if AboutToSchedule(s) {
      var u: Tid :| s.Th(u).at.Scheduling?;
      assert s'.Th(u).at.Scheduling?;
    }
  }

  lemma DeleteSweeps(s: State, t: Tid)
    requires Swept(s) && Enabled(s, Run(t, Delete(true)))
    ensures Swept(Next(s, Run(t, Delete(true)))) <==> !Lingers(s, Run(t, Delete(true)))
  {
    var s', v := Next(s, Run(t, Delete(true))), s.Th(t).v;
    SameThreads(s, s', t);
    assert forall w :: w != v ==> (ServesGone(s'.node, w) <==> ServesGone(s.node, w));
    assert ServesGone(s'.node, v) <==> s.node.running && v in s.node.loaded;
    if s.Th(t).at.Deleting? {
      assert s'.Th(t).at.Scheduling?;
    } else if Bereaves(s, v) {
      assert ServesGone(s'.node, v);
      assert forall u: Tid :: u != t ==> s'.Th(u) == s.Th(u);
    }
  }

  lemma UndoSweeps(s: State, t: Tid)
    requires Swept(s) && Enabled(s, Run(t, Undo(true)))
    ensures Swept(Next(s, Run(t, Undo(true)))) <==> !Lingers(s, Run(t, Undo(true)))
  {
    var s', v := Next(s, Run(t, Undo(true))), s.Th(t).v;
    SameThreads(s, s', t);
    assert forall w :: w != v ==> (ServesGone(s'.node, w) <==> ServesGone(s.node, w));
    assert ServesGone(s'.node, v) <==> s.node.running && v in s.node.loaded;
    if Bereaves(s, v) {
      assert ServesGone(s'.node, v);
      assert forall u: Tid :: u != t ==> s'.Th(u) == s.Th(u);
    }
  }

  /** The flag is cleared without a reload. */
  lemma DroppedSweeps(s: State, s': State)
    requires s'.node == s.node.(timer := s'.node.timer) && !s'.node.timer.pending
    requires AboutToSchedule(s') <==> AboutToSchedule(s)
    ensures Swept(s') <==> !(AnyGone(s.node) && !AboutToSchedule(s))
  {
    assert forall w :: ServesGone(s'.node, w) <==> ServesGone(s.node, w);
  }

  lemma CleanDropped(s: State, t: Tid)
    requires Enabled(s, Run(t, Clean(NotSent)))
    ensures Swept(Next(s, Run(t, Clean(NotSent)))) <==> !Lingers(s, Run(t, Clean(NotSent)))
  {
    var s' := Next(s, Run(t, Clean(NotSent)));
    SameThreads(s, s', t);
    SameThreads(s', s, t);
    DroppedSweeps(s, s');
  }

  /** A reload that arrives, or a stunnel that is gone, serves nothing that is gone. */
  lemma NothingGone(g: Node)
    requires g.running ==> g.loaded == g.files
    ensures !AnyGone(g)
  {
  }

  /** The remaining steps of a thread neither delete a config nor touch what stunnel serves. */
  lemma OtherFiles(g: Node, t: Tid, th: Thread, step: Step)
    requires Can(g, th, step) && step != Delete(true) && step != Undo(true) && !step.Clean?
    ensures var g' := Act(g, t, th, step).0;
            && g'.loaded == g.loaded && g'.running == g.running
            && (forall w :: w in g.files ==> w in g'.files)
            && (g.timer.pending ==> g'.timer.pending) && (step.Schedule? ==> g'.timer.pending)
  {
    if step.Write? || step.Undo? || step.Delete? {
      WriterKeeps(g, t, th, step);
    }
  }

  lemma WriterKeeps(g: Node, t: Tid, th: Thread, step: Step)
    requires Can(g, th, step) && step != Delete(true) && step != Undo(true)
             && (step.Write? || step.Undo? || step.Delete?)
    ensures var g' := Act(g, t, th, step).0;
            && g'.loaded == g.loaded && g'.running == g.running && g'.timer == g.timer
            && (forall w :: w in g.files ==> w in g'.files)
  {
  }

  lemma OtherSweeps(s: State, t: Tid, step: Step)
    requires Swept(s) && Enabled(s, Run(t, step)) && step != Delete(true) && step != Undo(true) && !step.Clean?
    ensures Swept(Next(s, Run(t, step)))
  {
    var s' := Next(s, Run(t, step));
    OtherFiles(s.node, t, s.Th(t), step);
    assert forall w :: ServesGone(s'.node, w) ==> ServesGone(s.node, w);
    if !step.Schedule? {
      SameThreads(s, s', t);
    }
    StaysSwept(s, s');
  }

  /**
   From any state: a step leaves a running stunnel with a service that is gone and no reload to come exactly when it
   is one of those above.
   */
  lemma SweptExactly(s: State, a: Action)
    requires Swept(s) && Enabled(s, a)
    ensures Swept(Next(s, a)) <==> !Lingers(s, a)
  {
    var s' := Next(s, a);
    match a
    case Run(t, step) =>
      if step == Delete(true) {
        DeleteSweeps(s, t);
      } else if step == Undo(true) {
        UndoSweeps(s, t);
      } else if step == Clean(NotSent) {
        CleanDropped(s, t);
      } else if step.Clean? {
        NothingGone(s'.node);
      } else {
        OtherSweeps(s, t, step);
      }
    case TimerCallback(reload) => CallbackSweeps(s, reload);
    case StunnelUp => NothingGone(s'.node);
    case StunnelDown => NothingGone(s'.node);
    case TimerExpires =>
      assert forall w :: ServesGone(s'.node, w) <==> ServesGone(s.node, w);
      assert AboutToSchedule(s) ==> AboutToSchedule(s') by {
        if AboutToSchedule(s) {
          var u: Tid :| s.Th(u).at.Scheduling?;
          assert s'.Th(u).at.Scheduling?;
        }
      }
    case Crash(order) =>
      assert forall w :: ServesGone(s'.node, w) <==> ServesGone(s.node, w);
      assert forall t: Tid :: s'.Th(t) == IDLE;
  }

  lemma CallbackSweeps(s: State, reload: Reload)
    requires Swept(s) && Enabled(s, TimerCallback(reload))
    ensures Swept(Next(s, TimerCallback(reload))) <==> !Lingers(s, TimerCallback(reload))
  {
    var s' := Next(s, TimerCallback(reload));
    assert forall t: Tid :: s'.Th(t) == s.Th(t);
    assert AboutToSchedule(s') <==> AboutToSchedule(s) by {
      if AboutToSchedule(s) {
        var u: Tid :| s.Th(u).at.Scheduling?;
        assert s'.Th(u).at.Scheduling?;
      }
    }
    if s.node.timer.pending && reload != NotSent {
      NothingGone(s'.node);
    } else {
      DroppedSweeps(s, s');
    }
  }

  // ------------------------------------------------------------------
  // Runs
  // ------------------------------------------------------------------

  lemma {:induction false} SweptUpTo(states: seq<State>, actions: seq<Action>, n: nat)
    requires Behaviour(states, actions) && n < |states|
    requires forall i :: 0 <= i < n ==> !Lingers(states[i], actions[i])
    ensures Swept(states[n])
  {
    if n > 0 {
      var m := n - 1;
      SweptUpTo(states, actions, m);
      assert Enabled(states[m], actions[m]) && states[m + 1] == Next(states[m], actions[m]);
      SweptExactly(states[m], actions[m]);
    }
  }

  /**
   Over every run, with no hypothesis: what is gone is served only with a reload to come, at every instant, exactly
   when no such step is taken.
   */
  lemma SweptOverRuns(states: seq<State>, actions: seq<Action>)
    requires Behaviour(states, actions)
    ensures (forall n :: 0 <= n < |states| ==> Swept(states[n])) <==>
            (forall i :: 0 <= i < |actions| ==> !Lingers(states[i], actions[i]))
  {
    if forall i :: 0 <= i < |actions| ==> !Lingers(states[i], actions[i]) {
      forall n | 0 <= n < |states|
        ensures Swept(states[n])
      {
        SweptUpTo(states, actions, n);
      }
    }
    if forall n :: 0 <= n < |states| ==> Swept(states[n]) {
      forall i | 0 <= i < |actions|
        ensures !Lingers(states[i], actions[i])
      {
        assert Enabled(states[i], actions[i]) && states[i + 1] == Next(states[i], actions[i]);
        assert Swept(states[i]) && Swept(states[i + 1]);
        SweptExactly(states[i], actions[i]);
      }
    }
  }

  /** No reload is pending or about to be, and no call holds the lock. */
  ghost predicate Quiet(s: State) {
    !ReloadToCome(s) && s.node.lock == None
  }

  /**
   Once all is quiet, a running stunnel serves exactly the configs on disk, as they are there,
       in every run up to the first
   step that leaves one unread or one served that is gone.
   */
  lemma QuietMeansExactlyLoaded(states: seq<State>, actions: seq<Action>, n: nat)
    requires Behaviour(states, actions) && n < |states| && Quiet(states[n]) && states[n].node.running
    requires forall i :: 0 <= i < n ==> !Lingers(states[i], actions[i]) && !Stales(states[i], actions[i])
    ensures states[n].node.loaded == states[n].node.files
  {
    var s := states[n];
    SweptUpTo(states, actions, n);
    FreshUpTo(states, actions, n);
    assert forall w <- s.node.loaded :: !ServesGone(s.node, w);
    assert forall v <- s.node.files :: Announced(s, v);
  }
}
