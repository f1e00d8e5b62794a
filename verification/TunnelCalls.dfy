/**
 EnsureTunnel and RemoveTunnel as whole calls, with nothing running beside them: what each
 does to the maps, the directory, the started flag and the timer.
 */
module TunnelCalls {
  import opened Wrappers
  import opened PortMaps
  import opened NodeProtocol
  import Debounce

  datatype Core = Core(maps: Maps, files: map<string, int>, started: bool, timer: Debounce.Timer)

  /** Answers of the operating system during one EnsureTunnel. */
  datatype EnsureEnv = EnsureEnv(busy: set<int>, writes: bool, upNow: bool, upLater: bool, deletes: bool)

  function EnsureCall(c: Core, r: PortRange, v: string, env: EnsureEnv): (Core, Option<int>) {
    if v in c.maps.ports then (c, Some(c.maps.ports[v]))
    else
      match LeastFree(c.maps.owners, env.busy, r)
      case None => (c, None)
      case Some(p) =>
        var done := c.(maps := c.maps.Bind(v, p), files := c.files[v := p], started := true);
        if !env.writes then (c, None)
        else if c.started || env.upNow then (done.(timer := c.timer.Schedule()), Some(p))
        else if env.upLater then (done, Some(p))
        else (c.(files := if env.deletes then c.files - {v} else c.files[v := p]), None)
  }

  /** Answers of the operating system during one RemoveTunnel. */
  datatype RemoveEnv = RemoveEnv(inUse: bool, reloads: bool, deletes: bool)

  /** The flag is the absence of an error. */
  function RemoveCall(c: Core, v: string, env: RemoveEnv): (Core, bool) {
    if v !in c.maps.ports || env.inUse then (c, true)
    else
      var p := c.maps.ports[v];
      FinishRemove(c.(maps := c.maps.Unbind(v, p)), v, p, |c.maps.ports| == 1, env)
  }

  /** The part of RemoveTunnel after the lock is dropped: cleanup, deletion, and putting the pair back on failure. */
  function FinishRemove(c: Core, v: string, p: int, last: bool, env: RemoveEnv): (Core, bool) {
    var putBack := c.(maps := c.maps.Bind(v, p));
    if last && !env.reloads then (putBack.(timer := c.timer.Cleanup()), false)
    else if last && !env.deletes then (putBack.(timer := c.timer.Cleanup(), started := false), false)
    else if last then (c.(timer := c.timer.Cleanup(), started := false, files := c.files - {v}), true)
    else if !env.deletes then (putBack, false)
    else (c.(files := c.files - {v}, timer := c.timer.Schedule()), true)
  }

  // ------------------------------------------------------------------
  // What the calls keep and undo
  // ------------------------------------------------------------------

  /** At rest: maps inverse, in range, and mirrored by the directory. */
  ghost predicate AtRest(c: Core, r: PortRange) {
    Inverse(c.maps) && InRange(c.maps, r) && c.files == c.maps.ports
  }

  /** EnsureTunnel on a volume without a tunnel can succeed: a port, a written config, and a stunnel. */
  ghost predicate Ensurable(c: Core, r: PortRange, env: EnsureEnv) {
    && (exists p :: r.Has(p) && p !in c.maps.owners && p !in env.busy)
    && env.writes && (c.started || env.upNow || env.upLater)
  }

  /**
   What EnsureTunnel returns and leaves.  It answers with the port there is, or it makes a tunnel on the least port that
   is neither allocated nor busy, or it fails and the maps,
       the started flag and the timer stay.  A new tunnel comes with
   a pending, armed reload unless stunnel was seen to start after its config was written.
   */
  lemma EnsureOutcome(c: Core, r: PortRange, v: string, env: EnsureEnv)
    ensures var (c', result) := EnsureCall(c, r, v, env);
            && (v in c.maps.ports ==> c' == c && result == Some(c.maps.ports[v]))
            && (v !in c.maps.ports ==> (result.Some? <==> Ensurable(c, r, env)))
            && (v !in c.maps.ports && result.Some? ==>
                  && IsLeastFree(c.maps.owners, env.busy, r.lo, r.lo + r.size, result.value)
                  && c'.maps.ports == c.maps.ports[v := result.value]
                  && c'.maps.owners == c.maps.owners[result.value := v]
                  && c'.files == c.files[v := result.value] && c'.started
                  && (if c.started || env.upNow
                      then c'.timer.pending && c'.timer.armed && c'.timer.waiting == c.timer.waiting
                      else c'.timer == c.timer))
            && (result.None? ==> c'.maps == c.maps && c'.started == c.started && c'.timer == c.timer)
  {
    LeastFreeExactly(c.maps.owners, env.busy, r);
    match LeastFree(c.maps.owners, env.busy, r)
    case None => assert forall p :: r.Has(p) ==> !Free(c.maps.owners, env.busy, p);
    case Some(p) => assert Free(c.maps.owners, env.busy, p);
  }

  /** RemoveTunnel has something to remove. */
  predicate Removable(c: Core, v: string, env: RemoveEnv) {
    v in c.maps.ports && !env.inUse
  }

  /**
   What RemoveTunnel returns and leaves.  An unused tunnel goes from both maps and from the directory.  If others are
   left, a reload is then pending and armed; if it was the last one, stunnel was signalled before and is not taken to be
   started any more.
   */
  lemma RemoveOutcome(c: Core, v: string, env: RemoveEnv)
    ensures var (c', ok) := RemoveCall(c, v, env);
            && (!Removable(c, v, env) ==> c' == c && ok)
            && (Removable(c, v, env) ==> (ok <==> env.deletes && (|c.maps.ports| == 1 ==> env.reloads)))
            && (Removable(c, v, env) && ok ==>
                  && c'.maps.ports == c.maps.ports - {v} && c'.maps.owners == c.maps.owners - {c.maps.ports[v]}
                  && c'.files == c.files - {v}
                  && (|c.maps.ports| == 1 ==> !c'.started && !c'.timer.pending && !c'.timer.armed)
                  && (|c.maps.ports| != 1 ==> c'.started == c.started && c'.timer.pending && c'.timer.armed)
                  && c'.timer.waiting == c.timer.waiting)
            && (!ok ==> c'.files == c.files && c'.timer.waiting == c.timer.waiting
                        && (|c.maps.ports| == 1 ==> !c'.timer.pending && !c'.timer.armed
                                                    && c'.started == (c.started && !env.reloads))
                        && (|c.maps.ports| != 1 ==> c'.started == c.started && c'.timer == c.timer))
  {
  }

  /** A new tunnel whose stunnel does not come up and whose file cannot be deleted again. */
  predicate LeavesFile(c: Core, r: PortRange, v: string, env: EnsureEnv) {
    && v !in c.maps.ports && LeastFree(c.maps.owners, env.busy, r).Some? && env.writes
    && !c.started && !env.upNow && !env.upLater && !env.deletes
  }

  /** EnsureTunnel keeps the maps inverse and in range; the directory mirrors them unless a file is left behind. */
  lemma EnsureKeepsRest(c: Core, r: PortRange, v: string, env: EnsureEnv)
    requires AtRest(c, r)
    ensures var c' := EnsureCall(c, r, v, env).0;
            Inverse(c'.maps) && InRange(c'.maps, r) && (AtRest(c', r) <==> !LeavesFile(c, r, v, env))
  {
    PickedIsFree(c.maps.owners, env.busy, r);
    match LeastFree(c.maps.owners, env.busy, r)
    case None =>
    case Some(p) =>
      BindKeepsInverse(c.maps, v, p);
      if v !in c.files {
        assert c.files - {v} == c.files;
        assert v in c.files[v := p];
      }
  }

  lemma RemoveKeepsRest(c: Core, r: PortRange, v: string, env: RemoveEnv)
    requires AtRest(c, r)
    ensures AtRest(RemoveCall(c, v, env).0, r)
  {
    if v in c.maps.ports {
      BindAfterUnbind(c.maps, v, c.maps.ports[v]);
      UnbindKeepsInverse(c.maps, v, c.maps.ports[v]);
    }
  }

  /** A call that reports an error leaves maps and directory as they were. */
  lemma FailedRemoveChangesNothing(c: Core, v: string, env: RemoveEnv)
    requires Inverse(c.maps) && !RemoveCall(c, v, env).1
    ensures RemoveCall(c, v, env).0.maps == c.maps && RemoveCall(c, v, env).0.files == c.files
  {
    BindAfterUnbind(c.maps, v, c.maps.ports[v]);
  }

  lemma FailedEnsureChangesNothing(c: Core, r: PortRange, v: string, env: EnsureEnv)
    requires AtRest(c, r) && EnsureCall(c, r, v, env).1.None?
    ensures EnsureCall(c, r, v, env).0.maps == c.maps
    ensures EnsureCall(c, r, v, env).0.files == c.files <==> !LeavesFile(c, r, v, env)
  {
    if v !in c.files {
      assert c.files - {v} == c.files;
      if LeavesFile(c, r, v, env) {
        assert v in EnsureCall(c, r, v, env).0.files;
      }
    }
  }

  /** A second call finds the tunnel of the first. */
  lemma EnsureIsIdempotent(c: Core, r: PortRange, v: string, env: EnsureEnv, env': EnsureEnv)
    requires EnsureCall(c, r, v, env).1.Some?
    ensures var (c', p) := EnsureCall(c, r, v, env); EnsureCall(c', r, v, env') == (c', p)
  {
  }

  /** Removing a tunnel that was just created, once no mount uses it, gives back the maps and the directory. */
  lemma RemoveUndoesEnsure(c: Core, r: PortRange, v: string, env: EnsureEnv, env': RemoveEnv)
    requires AtRest(c, r) && v !in c.maps.ports && EnsureCall(c, r, v, env).1.Some?
    requires !env'.inUse && env'.deletes && (c.maps.ports == map[] ==> env'.reloads)
    ensures var (c', ok) := RemoveCall(EnsureCall(c, r, v, env).0, v, env');
            ok && c'.maps == c.maps && c'.files == c.files
  {
    var (c', p) := EnsureCall(c, r, v, env);
    EnsureOutcome(c, r, v, env);
    RemoveOutcome(c', v, env');
    OneMore(c.maps.ports, v, p.value);
    assert c.files[v := p.value] - {v} == c.files && c.maps.owners[p.value := v] - {p.value} == c.maps.owners;
  }

  lemma OneMore(m: map<string, int>, v: string, p: int)
    requires v !in m
    ensures |m[v := p]| == |m| + 1 && m[v := p] - {v} == m
  {
    assert m[v := p].Keys == m.Keys + {v};
  }

  // ------------------------------------------------------------------
  // The calls are the uninterrupted runs of the step machine
  // ------------------------------------------------------------------

  function CoreOf(g: Node): Core {
    Core(g.maps, g.files, g.started, g.timer)
  }

  /**
   A new driver process: maps from the directory, nothing started, no timer; directory, mounts and stunnel are as
   before.
   */
  lemma RestartOutcome(g: Node, order: seq<string>)
    ensures var g' := Restarted(g, order);
            && CoreOf(g') == Core(Recovered(order, g.files, g.range), g.files, false, Debounce.Timer(false, false, 0))
            && g'.lock == None && g'.mounts == g.mounts && g'.running == g.running && g'.loaded == g.loaded
  {
  }

  /** Thread t runs EnsureTunnel to its return; stunnel may come up during the startup wait and nothing else happens. */
  function SoloEnsure(g: Node, t: Tid, v: string, env: EnsureEnv): (Node, Thread)
    requires g.lock == None && v != "" && g.running == env.upNow
  {
    var (g1, th1) := Act(g, t, IDLE, Publish(v, ""));
    var (g2, th2) := Act(g1, t, th1, Lookup);
    if th2.at.Granted? then (g2, th2)
    else
      var (g3, th3) := Act(g2, t, th2, Enter(env.busy));
      if th3.at.Writing? then SoloSection(g3, t, th3, env) else (g3, th3)
  }

  /** The part under the lock, from the chosen port on. */
  function SoloSection(g: Node, t: Tid, th: Thread, env: EnsureEnv): (Node, Thread)
    requires th.at.Writing?
  {
    var (g1, th1) := Act(g, t, th, Write(env.writes));
    if !th1.at.Committing? then (g1, th1)
    else
      var (g2, th2) := Act(g1, t, th1, Commit);
      var (g3, th3) := Act(g2, t, th2, Check);
      if !th3.at.Waiting? then (g3, th3)
      else
        var awake := if env.upLater then g3.(running := true, loaded := g3.files) else g3;
        var (g4, th4) := Act(awake, t, th3, Wake);
        if th4.at.Granted? then (g4, th4) else Act(g4, t, th4, Undo(env.deletes))
  }

  lemma SoloSectionIsTheCall(g: Node, t: Tid, th: Thread, env: EnsureEnv)
    requires th.at.Writing? && g.running == env.upNow
    requires th.v !in g.maps.ports && LeastFree(g.maps.owners, env.busy, g.range) == Some(th.p)
    ensures var (g', th') := SoloSection(g, t, th, env);
            var (c, result) := EnsureCall(CoreOf(g), g.range, th.v, env);
            && CoreOf(g') == c && g'.lock == None
            && (if result.Some? then th'.at == Granted && th'.p == result.value else th'.at == Refused)
  {
    PickedIsFree(g.maps.owners, env.busy, g.range);
    UnbindAfterBind(g.maps, th.v, th.p);
    assert g.files[th.v := th.p] - {th.v} == g.files - {th.v};
  }

  /** An uninterrupted run of the steps of EnsureTunnel is the call. */
  lemma SoloEnsureIsTheCall(g: Node, t: Tid, v: string, env: EnsureEnv)
    requires g.lock == None && v != "" && g.running == env.upNow
    ensures var (g', th) := SoloEnsure(g, t, v, env);
            var (c, result) := EnsureCall(CoreOf(g), g.range, v, env);
            && CoreOf(g') == c && g'.lock == None
            && (if result.Some? then th.at == Granted && th.p == result.value else th.at == Refused)
  {
    if v !in g.maps.ports {
      match LeastFree(g.maps.owners, env.busy, g.range)
      case None =>
      case Some(p) => SoloSectionIsTheCall(g.(lock := Some(t)), t, Thread(Writing, v, "", p, env.busy), env);
    }
  }

  /** Thread t runs RemoveTunnel to its return. */
  function SoloRemove(g: Node, t: Tid, v: string, env: RemoveEnv): (Node, Thread)
    requires g.lock == None && (env.reloads ==> g.running)
  {
    var (g1, th1) := Act(g, t, Thread(Removing, v, "", 0, {}), Inspect(!env.inUse));
    if th1.at.Inspected? then
      var (g2, th2) := Act(g1, t, th1, Release);
      SoloFinish(g2, t, th2, env)
    else (g1, th1)
  }

  /** The unlocked part. */
  function SoloFinish(g: Node, t: Tid, th: Thread, env: RemoveEnv): (Node, Thread)
    requires (th.at.Cleaning? || th.at.Deleting?) && g.lock == None && (env.reloads ==> g.running)
  {
    var (g1, th1) := if th.at.Cleaning? then Act(g, t, th, Clean(if env.reloads then Signalled else NotSent))
                     else (g, th);
    if th1.at.RollingBack? then Act(g1, t, th1, Rollback)
    else
      var (g1', th1') := if th1.at.Resetting? then Act(g1, t, th1, Reset) else (g1, th1);
      var (g2, th2) := Act(g1', t, th1', Delete(env.deletes));
      if th2.at.RollingBack? then Act(g2, t, th2, Rollback)
      else if th2.at.Scheduling? then Act(g2, t, th2, Schedule)
      else (g2, th2)
  }

  lemma SoloFinishIsTheCall(g: Node, t: Tid, th: Thread, env: RemoveEnv)
    requires (th.at.Cleaning? || th.at.Deleting?) && g.lock == None && (env.reloads ==> g.running)
    ensures var (g', th') := SoloFinish(g, t, th, env);
            var (c, ok) := FinishRemove(CoreOf(g), th.v, th.p, th.at.Cleaning?, env);
            CoreOf(g') == c && g'.lock == None && th'.at == if ok then Removed else Failed
  {
    if th.at.Cleaning? {
      SoloLastIsTheCall(g, t, th, env);
    }
  }

  lemma SoloLastIsTheCall(g: Node, t: Tid, th: Thread, env: RemoveEnv)
    requires th.at.Cleaning? && g.lock == None && (env.reloads ==> g.running)
    ensures var (g', th') := SoloFinish(g, t, th, env);
            var (c, ok) := FinishRemove(CoreOf(g), th.v, th.p, true, env);
            CoreOf(g') == c && g'.lock == None && th'.at == if ok then Removed else Failed
  {
  }

  /** An uninterrupted run of the steps of RemoveTunnel is the call. */
  lemma SoloRemoveIsTheCall(g: Node, t: Tid, v: string, env: RemoveEnv)
    requires g.lock == None && (env.reloads ==> g.running)
    requires v in g.maps.ports && g.InUse(g.maps.ports[v]) ==> env.inUse
    ensures var (g', th) := SoloRemove(g, t, v, env);
            var (c, ok) := RemoveCall(CoreOf(g), v, env);
            CoreOf(g') == c && g'.lock == None && (ok <==> th.at == Removed || th.at == Kept)
  {
    var (g1, th1) := Act(g, t, Thread(Removing, v, "", 0, {}), Inspect(!env.inUse));
    if th1.at.Inspected? {
      var (g2, th2) := Act(g1, t, th1, Release);
      SoloFinishIsTheCall(g2, t, th2, env);
    }
  }
}
