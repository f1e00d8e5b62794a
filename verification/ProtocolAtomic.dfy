/**
 Double-checked locking: over every interleaving, each EnsureTunnel call takes effect in
 one instant between its call and its return, as an atomic lookup-or-allocate.
 */
module ProtocolAtomic {
  import opened Wrappers
  import opened PortMaps
  import opened NodeProtocol
  import opened ProtocolInverse

  /**
   The maps as a thread without the lock could see them: a tunnel whose stunnel check is pending is hidden by the
   lock.
   */
  ghost function Hiding(m: Maps, th: Thread): Maps {
    if HasCommitted(th.at) then m.Unbind(th.v, th.p) else m
  }

  ghost function Visible(s: State): Maps {
    match s.node.lock
    case None => s.node.maps
    case Some(t) => Hiding(s.node.maps, s.Th(t))
  }

  /**
   Look the volume up; if absent, give it the least port that is neither allocated nor busy.  It fails exactly when
   there is no such port, unless it is `excused`.
   */
  ghost predicate AtomicEnsure(
    m: Maps, m': Maps, r: PortRange, busy: set<int>, v: string, result: Option<int>, excused: bool)
  {
    if v in m.ports then result == Some(m.ports[v]) && m' == m
    else if result == None then m' == m && (excused || LeastFree(m.owners, busy, r) == None)
    else !excused && LeastFree(m.owners, busy, r) == result && m' == m.Bind(v, result.value)
  }

  /**
   The failures that no map shows: the config cannot be written, or stunnel has not come up by the end of the wait.
   */
  predicate Excuses(step: Step) {
    step == Write(false) || step.Undo?
  }

  predicate Returned(at: Loc) {
    at.Granted? || at.Refused?
  }

  predicate InEnsure(at: Loc) {
    at.FastPath? || at.SlowPath? || InSection(at) || Returned(at)
  }

  function Outcome(th: Thread): Option<int> {
    if th.at.Granted? then Some(th.p) else None
  }

  /** The port held under the lock is the one that the scan of the visible maps finds. */
  ghost predicate Picked(g: Node, th: Thread) {
    InSection(th.at) ==> LeastFree(Hiding(g.maps, th).owners, th.busy, g.range) == Some(th.p)
  }

  /** One step of EnsureTunnel decides the call as the atomic operation would, or changes nothing visible. */
  ghost predicate ActsAtomically(g: Node, th: Thread, step: Step, g': Node, th': Thread) {
    var before, after := Hiding(g.maps, th), Hiding(g'.maps, th');
    if Returned(th'.at)
    then AtomicEnsure(before, after, g.range, th'.busy, th.v, Outcome(th'), Excuses(step))
    else after == before
  }

  lemma EnsureStepIsAtomic(g: Node, t: Tid, th: Thread, step: Step)
    requires ThreadOk(g, t, th) && Picked(g, th) && Can(g, th, step) && IsEnsureStep(step)
    ensures var (g', th') := Act(g, t, th, step);
            && ActsAtomically(g, th, step, g', th')
            && Picked(g', th')
            && th'.v == th.v && InEnsure(th'.at)
  {
    match step {
      case Commit => UnbindAfterBind(g.maps, th.v, th.p);
      case Check => BindAfterUnbind(g.maps, th.v, th.p);
      case Wake => BindAfterUnbind(g.maps, th.v, th.p);
      case _ =>
    }
  }

  ghost predicate AllPicked(s: State) {
    Base(s) && forall t: Tid :: Picked(s.node, s.Th(t))
  }

  /** Steps of other kinds leave the port of a lock holder alone. */
  lemma OtherStepKeepsPick(g: Node, t: Tid, th: Thread, step: Step)
    requires ThreadOk(g, t, th) && Can(g, th, step) && !IsEnsureStep(step)
    ensures !InSection(Act(g, t, th, step).1.at) && !InSection(th.at)
  {
  }

  lemma PickedStep(s: State, a: Action)
    requires AllPicked(s) && Enabled(s, a)
    ensures AllPicked(Next(s, a))
  {
    BaseStep(s, a);
    match a {
      case Run(t, step) =>
        var g, th := s.node, s.Th(t);
        assert ThreadOk(g, t, th) && Picked(g, th);
        RunBase(s, t, step);
        if IsEnsureStep(step) {
          EnsureStepIsAtomic(g, t, th, step);
        } else {
          OtherStepKeepsPick(g, t, th, step);
        }
        forall u: Tid
          ensures Picked(Next(s, a).node, Next(s, a).Th(u))
        {
          assert ThreadOk(g, u, s.Th(u)) && Picked(g, s.Th(u));
        }
      case Crash(_) =>
      case _ =>
        forall u: Tid
          ensures Picked(Next(s, a).node, Next(s, a).Th(u))
        {
          assert Picked(s.node, s.Th(u));
        }
    }
  }

  lemma {:induction false} PickedAlways(states: seq<State>, actions: seq<Action>, n: nat)
    requires Behaviour(states, actions) && n < |states|
    ensures AllPicked(states[n])
  {
    if n > 0 {
      PickedAlways(states, actions, n - 1);
      PickedStep(states[n - 1], actions[n - 1]);
    } else {
      BaseAlways(states, actions, 0);
    }
  }

  /** Every step of every EnsureTunnel call: atomic at the step that decides it, invisible before. */
  lemma CallIsAtomic(s: State, t: Tid, step: Step)
    requires AllPicked(s) && Enabled(s, Run(t, step)) && IsEnsureStep(step)
    ensures var s' := Next(s, Run(t, step));
            if Returned(s'.Th(t).at)
            then AtomicEnsure(Visible(s), Visible(s'), s.node.range, s'.Th(t).busy, s.Th(t).v, Outcome(s'.Th(t)),
                              Excuses(step))
            else Visible(s') == Visible(s)
  {
    var s' := Next(s, Run(t, step));
    assert ThreadOk(s.node, t, s.Th(t)) && Picked(s.node, s.Th(t));
    EnsureStepIsAtomic(s.node, t, s.Th(t), step);
    RunBase(s, t, step);
    assert ThreadOk(s'.node, t, s'.Th(t));
  }

  /** The startup rollback begins only when stunnel is found down at the end of the wait. */
  lemma UndoAfterFailedStart(g: Node, t: Tid, th: Thread, step: Step)
    requires Can(g, th, step) && Act(g, t, th, step).1.at.Undoing?
    ensures step.Wake? && !g.running
  {
    if step.Inspect? || step.Release? || step.Unmount? {
      RemovalIsNoUndo(g, t, th, step);
    }
  }

  lemma RemovalIsNoUndo(g: Node, t: Tid, th: Thread, step: Step)
    requires Can(g, th, step) && (step.Inspect? || step.Release? || step.Unmount?)
    ensures !Act(g, t, th, step).1.at.Undoing?
  {
  }

  // ------------------------------------------------------------------
  // From call to return
  // ------------------------------------------------------------------

  /**
   This step decides thread t's call with the atomic operation on v, under the bind-test answers that the call saw.
   */
  ghost predicate Decides(s: State, a: Action, s': State, t: Tid, v: string, result: Option<int>) {
    && ByThread(a, t)
    && AtomicEnsure(Visible(s), Visible(s'), s.node.range, s'.Th(t).busy, v, result, Excuses(a.step))
  }

  /** A thread gets into EnsureTunnel only by a publish call. */
  lemma StaysInCall(s: State, a: Action, t: Tid)
    requires Enabled(s, a) && InEnsure(Next(s, a).Th(t).at)
    requires !IsPublish(a, t)
    ensures InEnsure(s.Th(t).at) && Next(s, a).Th(t).v == s.Th(t).v
    ensures ByThread(a, t) ==> IsEnsureStep(a.step)
    ensures !ByThread(a, t) ==> Next(s, a).Th(t) == s.Th(t)
  {
    if ByThread(a, t) {
      InEnsureOnlyFromEnsure(s.node, t, s.Th(t), a.step);
    }
  }

  lemma InEnsureOnlyFromEnsure(g: Node, t: Tid, th: Thread, step: Step)
    requires Can(g, th, step) && !step.Publish? && InEnsure(Act(g, t, th, step).1.at)
    ensures IsEnsureStep(step) && InEnsure(th.at) && Act(g, t, th, step).1.v == th.v
  {
    if step.MountShare? || step.Unpublish? || step.Unmount? || step.Return? {
      PublishStepLeaves(g, t, th, step);
    } else if !IsEnsureStep(step) {
      RemoveStepLeaves(g, t, th, step);
    }
  }

  lemma PublishStepLeaves(g: Node, t: Tid, th: Thread, step: Step)
    requires Can(g, th, step) && (step.MountShare? || step.Unpublish? || step.Unmount? || step.Return?)
    ensures !InEnsure(Act(g, t, th, step).1.at)
  {
  }

  lemma RemoveStepLeaves(g: Node, t: Tid, th: Thread, step: Step)
    requires Can(g, th, step) && !IsEnsureStep(step)
    requires !step.Publish? && !step.MountShare? && !step.Unpublish? && !step.Unmount? && !step.Return?
    ensures !InEnsure(Act(g, t, th, step).1.at)
  {
    match step
    case Inspect(readable) =>
    case _ =>
  }

  /** The step before an undecided state is not the deciding one; after it the thread only waits. */
  lemma DecidedOnce(g: Node, t: Tid, th: Thread, step: Step)
    requires Can(g, th, step) && IsEnsureStep(step)
    ensures !Returned(th.at)
  {
  }

  predicate ByThread(a: Action, t: Tid) {
    a.Run? && a.t == t
  }

  predicate IsPublish(a: Action, t: Tid) {
    ByThread(a, t) && a.step.Publish?
  }

  /** Thread t publishes v at i and makes no other publish call before j. */
  ghost predicate CallSpan(actions: seq<Action>, i: nat, j: nat, t: Tid, v: string) {
    && i < j <= |actions|
    && IsPublish(actions[i], t) && actions[i].step.v == v
    && (forall k :: i < k < j ==> !IsPublish(actions[k], t))
  }

  lemma AfterPublish(s: State, a: Action, t: Tid)
    requires Enabled(s, a) && IsPublish(a, t)
    ensures Next(s, a).Th(t).at == FastPath && Next(s, a).Th(t).v == a.step.v
  {
  }

  lemma {:induction false} SameVolume(states: seq<State>, actions: seq<Action>, i: nat, j: nat, t: Tid, v: string)
    requires Behaviour(states, actions) && CallSpan(actions, i, j, t, v)
    requires InEnsure(states[j].Th(t).at)
    ensures states[j].Th(t).v == v
  {
    if i + 1 == j {
      AfterPublish(states[i], actions[i], t);
    } else {
      var n := j - 1;
      assert Enabled(states[n], actions[n]) && states[n + 1] == Next(states[n], actions[n]);
      StaysInCall(states[n], actions[n], t);
      SameVolume(states, actions, i, n, t, v);
    }
  }

  lemma StepDecides(s: State, a: Action, t: Tid)
    requires AllPicked(s) && Enabled(s, a) && ByThread(a, t) && IsEnsureStep(a.step)
    requires Returned(Next(s, a).Th(t).at)
    ensures Decides(s, a, Next(s, a), t, s.Th(t).v, Outcome(Next(s, a).Th(t)))
    ensures !Returned(s.Th(t).at)
  {
    DecidedOnce(s.node, t, s.Th(t), a.step);
    CallIsAtomic(s, t, a.step);
  }

  /** The step from n to n + 1 decided the call. */
  lemma LastStepDecides(states: seq<State>, actions: seq<Action>, i: nat, n: nat, t: Tid, v: string)
    requires Behaviour(states, actions) && CallSpan(actions, i, n, t, v) && n < |actions|
    requires ByThread(actions[n], t) && !IsPublish(actions[n], t) && Returned(states[n + 1].Th(t).at)
    ensures Decides(states[n], actions[n], states[n + 1], t, v, Outcome(states[n + 1].Th(t)))
    ensures InEnsure(states[n].Th(t).at) && !Returned(states[n].Th(t).at)
  {
    var s, a := states[n], actions[n];
    assert Enabled(s, a) && states[n + 1] == Next(s, a);
    StaysInCall(s, a, t);
    SameVolume(states, actions, i, n, t, v);
    PickedAlways(states, actions, n);
    StepDecides(s, a, t);
  }

  lemma EarlierStepsInvisible(states: seq<State>, actions: seq<Action>, i: nat, n: nat, k: nat, t: Tid, v: string)
    requires Behaviour(states, actions) && CallSpan(actions, i, k, t, v) && i < n < k < |actions|
    requires InEnsure(states[k].Th(t).at) && !Returned(states[k].Th(t).at)
    requires ByThread(actions[n], t)
    ensures Visible(states[n + 1]) == Visible(states[n])
  {
    UndecidedBefore(states, actions, i, n + 1, k, t, v);
    StaysInCall(states[n], actions[n], t);
    PickedAlways(states, actions, n);
    CallIsAtomic(states[n], t, actions[n].step);
  }

  /** The last step that thread t took before j. */
  lemma {:induction false} LastOwnStep(states: seq<State>, actions: seq<Action>, i: nat, j: nat, t: Tid, v: string)
    returns (k: nat)
    requires Behaviour(states, actions) && CallSpan(actions, i, j, t, v)
    requires Returned(states[j].Th(t).at)
    ensures i < k < j && ByThread(actions[k], t) && states[k + 1].Th(t) == states[j].Th(t)
    ensures forall n :: k < n < j ==> !ByThread(actions[n], t)
  {
    k := j - 1;
    if k == i {
      AfterPublish(states[i], actions[i], t);
    } else if !ByThread(actions[k], t) {
      StaysInCall(states[k], actions[k], t);
      k := LastOwnStep(states, actions, i, k, t, v);
    }
  }

  /**
   EnsureTunnel called at i and returned by j with result r: there is one instant in between
   where the atomic operation on the visible maps gives r, and no other step of the call
   changes what other threads can see.
   */
  lemma EnsureIsLinearizable(states: seq<State>, actions: seq<Action>, i: nat, j: nat, t: Tid, v: string)
    returns (k: nat)
    requires Behaviour(states, actions) && CallSpan(actions, i, j, t, v)
    requires Returned(states[j].Th(t).at)
    ensures i < k < j
    ensures Decides(states[k], actions[k], states[k + 1], t, v, Outcome(states[j].Th(t)))
    ensures forall n :: i < n < j && n != k && ByThread(actions[n], t) ==> Visible(states[n + 1]) == Visible(states[n])
  {
    k := LastOwnStep(states, actions, i, j, t, v);
    LastStepDecides(states, actions, i, k, t, v);
    forall n | i < n < k && ByThread(actions[n], t)
      ensures Visible(states[n + 1]) == Visible(states[n])
    {
      EarlierStepsInvisible(states, actions, i, n, k, t, v);
    }
  }

  /** Walking back from an undecided state of the call, every state is an undecided state of the call. */
  lemma {:induction false} UndecidedBefore(states: seq<State>, actions: seq<Action>, i: nat, n: nat, k: nat, t: Tid,
                                           v: string)
    requires Behaviour(states, actions) && CallSpan(actions, i, k, t, v) && i < n <= k < |actions|
    requires InEnsure(states[k].Th(t).at) && !Returned(states[k].Th(t).at)
    ensures InEnsure(states[n].Th(t).at) && !Returned(states[n].Th(t).at)
    decreases k - n
  {
    if n < k {
      UndecidedBefore(states, actions, i, n + 1, k, t, v);
      StaysInCall(states[n], actions[n], t);
      if ByThread(actions[n], t) {
        DecidedOnce(states[n].node, t, states[n].Th(t), actions[n].step);
      }
    }
  }

  // ------------------------------------------------------------------
  // One port and one file per volume
  // ------------------------------------------------------------------

  /** Does this step take v out of the maps, put it back, or rebuild the maps? */
  ghost predicate Disturbs(s: State, a: Action, v: string) {
    a.Crash? || (a.Run? && (a.step.Release? || a.step.Rollback?) && s.Th(a.t).v == v)
  }

  /**
   While v has a port and is not disturbed: it keeps it, every call on v is given it, and no call writes v's file
   again.
   */
  ghost predicate SamePort(s: State, a: Action, s': State, v: string, p: int) {
    && v in Visible(s').ports && Visible(s').ports[v] == p
    && (a.Run? && s.Th(a.t).v == v ==>
          && !a.step.Write? && !a.step.Commit?
          && (IsEnsureStep(a.step) && Returned(s'.Th(a.t).at) ==> Outcome(s'.Th(a.t)) == Some(p)))
  }

  lemma NoSecondWrite(s: State, t: Tid, step: Step)
    requires Base(s) && Enabled(s, Run(t, step)) && (step.Write? || step.Commit?)
    ensures s.Th(t).v !in Visible(s).ports
  {
    assert ThreadOk(s.node, t, s.Th(t));
  }

  lemma OtherStepVisible(s: State, t: Tid, step: Step, v: string)
    requires Base(s) && Enabled(s, Run(t, step)) && !IsEnsureStep(step)
    requires v in Visible(s).ports && !Disturbs(s, Run(t, step), v)
    ensures var m := Visible(Next(s, Run(t, step)));
            v in m.ports && m.ports[v] == Visible(s).ports[v]
  {
    var s' := Next(s, Run(t, step));
    assert ThreadOk(s.node, t, s.Th(t));
    OtherStepKeepsPick(s.node, t, s.Th(t), step);
    RunBase(s, t, step);
    MapsAfterOther(s.node, t, s.Th(t), step, v);
    if s.node.lock.Some? && s.node.lock.value != t {
      assert s'.Th(s.node.lock.value) == s.Th(s.node.lock.value);
    }
  }

  lemma MapsAfterOther(g: Node, t: Tid, th: Thread, step: Step, v: string)
    requires Can(g, th, step) && !IsEnsureStep(step)
    ensures var g' := Act(g, t, th, step).0;
            && (g'.lock == g.lock || step.Inspect? || step.Release?)
            && (g'.maps == g.maps || g.lock == None || step.Release?)
            && (v in g.maps.ports && th.v != v ==> v in g'.maps.ports && g'.maps.ports[v] == g.maps.ports[v])
            && (!step.Release? && !step.Rollback? ==> g'.maps == g.maps)
  {
  }

  lemma SamePortStep(s: State, a: Action, v: string)
    requires AllPicked(s) && Enabled(s, a)
    requires v in Visible(s).ports && !Disturbs(s, a, v)
    ensures SamePort(s, a, Next(s, a), v, Visible(s).ports[v])
  {
    if a.Run? {
      if IsEnsureStep(a.step) {
        CallIsAtomic(s, a.t, a.step);
      } else {
        OtherStepVisible(s, a.t, a.step, v);
      }
      if a.step.Write? || a.step.Commit? {
        NoSecondWrite(s, a.t, a.step);
      }
    }
  }

  /** The segment [i, j) leaves v's tunnel alone. */
  ghost predicate Undisturbed(states: seq<State>, actions: seq<Action>, i: nat, j: nat, v: string) {
    i < j <= |actions| && |states| == |actions| + 1 && forall k :: i <= k < j ==> !Disturbs(states[k], actions[k], v)
  }

  lemma {:induction false} SamePortAt(
    states: seq<State>, actions: seq<Action>, i: nat, j: nat, k: nat, v: string, p: int)
    requires Behaviour(states, actions) && Undisturbed(states, actions, i, j, v) && i <= k < j
    requires v in Visible(states[i]).ports && p == Visible(states[i]).ports[v]
    ensures SamePort(states[k], actions[k], states[k + 1], v, p)
  {
    if i < k {
      SamePortAt(states, actions, i, j, k - 1, v, p);
    }
    PickedAlways(states, actions, k);
    SamePortStep(states[k], actions[k], v);
  }

  /** Concurrent successful calls on one volume with no removal in between agree on one port and write one file. */
  lemma OnePortOneFile(states: seq<State>, actions: seq<Action>, i: nat, j: nat, v: string)
    requires Behaviour(states, actions) && Undisturbed(states, actions, i, j, v)
    requires v in Visible(states[i]).ports
    ensures forall k :: i <= k < j ==>
                          SamePort(states[k], actions[k], states[k + 1], v, Visible(states[i]).ports[v])
  {
    var p := Visible(states[i]).ports[v];
    forall k | i <= k < j ensures SamePort(states[k], actions[k], states[k + 1], v, p) {
      SamePortAt(states, actions, i, j, k, v, p);
    }
  }

  /**
   Two successful calls on v in such a segment return one port, and v's file is not written between the two
   decisions.
   */
  lemma CallsAgree(
    states: seq<State>, actions: seq<Action>, i: nat, j: nat, k: nat, k': nat, t: Tid, t': Tid, v: string, p: int,
    p': int)
    requires Behaviour(states, actions) && Undisturbed(states, actions, i, j, v) && i <= k < k' < j
    requires Decides(states[k], actions[k], states[k + 1], t, v, Some(p))
    requires Decides(states[k'], actions[k'], states[k' + 1], t', v, Some(p'))
    ensures p == p'
    ensures forall n :: k < n <= k' ==> SamePort(states[n], actions[n], states[n + 1], v, p)
  {
    assert Undisturbed(states, actions, k + 1, j, v);
    OnePortOneFile(states, actions, k + 1, j, v);
    if k + 1 < k' {
      var n := k' - 1;
      assert SamePort(states[n], actions[n], states[n + 1], v, p);
    }
  }

  // ------------------------------------------------------------------
  // The first write
  // ------------------------------------------------------------------

  predicate Writes(s: State, a: Action, v: string) {
    a.Run? && a.step == Write(true) && s.Th(a.t).v == v
  }

  /** The call of thread t has written v's file and is still under the lock. */
  predicate Writer(s: State, t: Tid, v: string) {
    && s.node.lock == Some(t) && s.Th(t).v == v
    && (s.Th(t).at.Committing? || s.Th(t).at.Undoing? || HasCommitted(s.Th(t).at))
  }

  lemma WriterGoesOn(s: State, a: Action, t: Tid, v: string)
    requires AllPicked(s) && Enabled(s, a) && Writer(s, t, v) && !a.Crash?
    ensures var s' := Next(s, a);
            || Writer(s', t, v)
            || v in Visible(s').ports
            || (a.Run? && a.t == t && a.step.Undo?)
  {
    assert ThreadOk(s.node, t, s.Th(t));
    if a.Run? {
      RunBase(s, a.t, a.step);
      if a.t != t {
        assert ThreadOk(s.node, a.t, s.Th(a.t)) && Next(s, a).Th(t) == s.Th(t);
        assert Next(s, a).node.lock == s.node.lock;
      } else {
        WriterStep(s.node, t, s.Th(t), a.step);
      }
    }
  }

  lemma WriterStep(g: Node, t: Tid, th: Thread, step: Step)
    requires ThreadOk(g, t, th) && Can(g, th, step) && g.lock == Some(t)
    requires th.at.Committing? || th.at.Undoing? || HasCommitted(th.at)
    ensures var (g', th') := Act(g, t, th, step);
            || step.Undo?
            || (g'.lock == Some(t) && th'.v == th.v && (th'.at.Committing? || th'.at.Undoing? || HasCommitted(th'.at)))
            || (g'.lock == None && th.v in g'.maps.ports)
  {
  }

  ghost predicate Undone(actions: seq<Action>, n: nat, m: nat, t: Tid) {
    exists k :: n < k < m && k < |actions| && actions[k].Run? && actions[k].t == t && actions[k].step.Undo?
  }

  lemma {:induction false} AfterTheWrite(states: seq<State>, actions: seq<Action>, n: nat, m: nat, v: string)
    requires Behaviour(states, actions) && Undisturbed(states, actions, n, m, v) && Writes(states[n], actions[n], v)
    ensures var t := actions[n].t; Writer(states[m], t, v) || v in Visible(states[m]).ports || Undone(actions, n, m, t)
  {
    var k, t := m - 1, actions[n].t;
    PickedAlways(states, actions, k);
    assert Enabled(states[k], actions[k]) && states[k + 1] == Next(states[k], actions[k]);
    if k == n {
      assert ThreadOk(states[n].node, t, states[n].Th(t));
    } else {
      AfterTheWrite(states, actions, n, k, v);
      if v in Visible(states[k]).ports {
        SamePortStep(states[k], actions[k], v);
      } else if Writer(states[k], t, v) {
        WriterGoesOn(states[k], actions[k], t, v);
      }
    }
  }

  /**
   With no removal in between, v's file is written a second time only after the call that wrote it first has failed
   and undone it.
   */
  lemma SecondWriteAfterUndo(states: seq<State>, actions: seq<Action>, n: nat, m: nat, v: string)
    requires Behaviour(states, actions) && Undisturbed(states, actions, n, m, v) && m < |actions|
    requires Writes(states[n], actions[n], v) && Writes(states[m], actions[m], v)
    ensures Undone(actions, n, m, actions[n].t)
  {
    AfterTheWrite(states, actions, n, m, v);
    BaseAlways(states, actions, m);
    assert Enabled(states[m], actions[m]);
    NoSecondWrite(states[m], actions[m].t, actions[m].step);
    assert ThreadOk(states[m].node, actions[m].t, states[m].Th(actions[m].t));
  }
}
