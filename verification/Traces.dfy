/**
 Concrete runs that show why the hypotheses are there: drop one of them, keep the others,
 and a property of the careful runs fails.
 */
module Traces {
  import opened Wrappers
  import opened PortMaps
  import opened NodeProtocol
  import opened ProtocolSafety
  import opened ProtocolCrash
  import opened ProtocolReload
  import opened ProtocolListening
  import opened ProtocolStale
  import Debounce

  /** Which hypotheses a run respects. */
  datatype Given = Given(oneCall: bool, leftovers: bool, rollback: bool)

  ghost predicate Respects(h: Given, s: State, a: Action) {
    && (h.oneCall ==> OneCallPerShare(s, a))
    && (h.leftovers ==> LeftoversStayBusy(s, a))
    && (h.rollback ==> RollbackDeletes(a))
  }

  ghost predicate Reaches(h: Given, s: State, acts: seq<Action>, e: State)
    decreases |acts|
  {
    if acts == [] then s == e
    else Enabled(s, acts[0]) && Respects(h, s, acts[0]) && Reaches(h, Next(s, acts[0]), acts[1..], e)
  }

  lemma Then(h: Given, s: State, xs: seq<Action>, m: State, ys: seq<Action>, e: State)
    requires Reaches(h, s, xs, m) && Reaches(h, m, ys, e)
    ensures Reaches(h, s, xs + ys, e)
    decreases |xs|
  {
    if xs == [] {
      assert xs + ys == ys;
    } else {
      Then(h, Next(s, xs[0]), xs[1..], m, ys, e);
      assert (xs + ys)[1..] == xs[1..] + ys;
    }
  }

  /** Such a path from an initial state is a run. */
  lemma {:induction false} PathIsRun(h: Given, s: State, acts: seq<Action>, e: State) returns (states: seq<State>)
    requires Reaches(h, s, acts, e)
    ensures |states| == |acts| + 1 && states[0] == s && states[|acts|] == e
    ensures forall i :: 0 <= i < |acts| ==>
                          Enabled(states[i], acts[i]) && Respects(h, states[i], acts[i])
                          && states[i + 1] == Next(states[i], acts[i])
    decreases |acts|
  {
    if acts == [] {
      states := [s];
    } else {
      var rest := PathIsRun(h, Next(s, acts[0]), acts[1..], e);
      states := [s] + rest;
    }
  }

  lemma Cons(h: Given, s: State, a: Action, acts: seq<Action>, e: State)
    requires Enabled(s, a) && Respects(h, s, a) && Reaches(h, Next(s, a), acts, e)
    ensures Reaches(h, s, [a] + acts, e)
  {
    assert ([a] + acts)[1..] == acts;
  }

  /** The state after an undisturbed publish of v up to the return of EnsureTunnel. */
  function AfterEnsure(s: State, t: Tid, v: string, target: string, busy: set<int>, p: int): State {
    var g := s.node;
    State(
      g.(maps := g.maps.Bind(v, p), files := g.files[v := p], started := true, timer := g.timer.Schedule()),
      s.threads[t := Thread(Granted, v, target, p, busy)])
  }

  lemma EnsurePath(h: Given, s: State, t: Tid, v: string, target: string, busy: set<int>, p: int)
    returns (acts: seq<Action>)
    requires s.Th(t).at.Idle? && s.node.lock == None && v != "" && v !in s.node.maps.ports
    requires s.node.started || s.node.running
    requires LeastFree(s.node.maps.owners, busy, s.node.range) == Some(p)
    requires h.oneCall ==> Alone(s, t, v)
    requires h.leftovers ==> LeftoversBusy(s.node, busy)
    ensures Reaches(h, s, acts, AfterEnsure(s, t, v, target, busy, p))
  {
    var s1 := Next(s, Run(t, Publish(v, target)));
    var s2 := Next(s1, Run(t, Lookup));
    var s3 := Next(s2, Run(t, Enter(busy)));
    acts := [];
    Cons(h, s2, Run(t, Enter(busy)), acts, s3); acts := [Run(t, Enter(busy))] + acts;
    Cons(h, s1, Run(t, Lookup), acts, s3); acts := [Run(t, Lookup)] + acts;
    Cons(h, s, Run(t, Publish(v, target)), acts, s3); acts := [Run(t, Publish(v, target))] + acts;
    assert s3.threads == s.threads[t := Thread(Writing, v, target, p, busy)];
    var more := SectionPath(h, s3, t);
    assert AfterSection(s3, t).threads == s.threads[t := Thread(Granted, v, target, p, busy)];
    Then(h, s, acts, s3, more, AfterSection(s3, t)); acts := acts + more;
  }

  function AfterSection(s: State, t: Tid): State {
    var g, th := s.node, s.Th(t);
    State(
      g.(maps := g.maps.Bind(th.v, th.p), files := g.files[th.v := th.p], started := true,
      timer := g.timer.Schedule(), lock := None),
      s.threads[t := th.(at := Granted)])
  }

  lemma SectionPath(h: Given, s: State, t: Tid) returns (acts: seq<Action>)
    requires s.Th(t).at.Writing? && (s.node.started || s.node.running)
    ensures Reaches(h, s, acts, AfterSection(s, t))
  {
    var s1 := Next(s, Run(t, Write(true)));
    var s2 := Next(s1, Run(t, Commit));
    var s3 := Next(s2, Run(t, Check));
    assert s3.threads == s.threads[t := s.Th(t).(at := Granted)];
    acts := [];
    Cons(h, s2, Run(t, Check), acts, s3); acts := [Run(t, Check)] + acts;
    Cons(h, s1, Run(t, Commit), acts, s3); acts := [Run(t, Commit)] + acts;
    Cons(h, s, Run(t, Write(true)), acts, s3); acts := [Run(t, Write(true))] + acts;
  }

  /** The state after an unpublish of v, from the only mounted target, up to the release of its port. */
  function AfterRelease(s: State, t: Tid, v: string, target: string): State
    requires v in s.node.maps.ports
  {
    var g, p := s.node, s.node.maps.ports[v];
    State(
      g.(maps := g.maps.Unbind(v, p), mounts := {}),
      s.threads[t := Thread(if |g.maps.ports| == 1 then Cleaning else Deleting, v, target, p, {})])
  }

  lemma ReleasePath(h: Given, s: State, t: Tid, v: string, target: string) returns (acts: seq<Action>)
    requires s.Th(t).at.Idle? && s.node.lock == None && v != "" && v in s.node.maps.ports
    requires forall m <- s.node.mounts :: m.target == target
    requires h.oneCall ==> Alone(s, t, v)
    ensures Reaches(h, s, acts, AfterRelease(s, t, v, target))
  {
    var s1 := Next(s, Run(t, Unpublish(v, target)));
    var unmount := Run(t, Unmount(true, s.node.mounts));
    var s2 := Next(s1, unmount);
    var e := AfterRelease(s, t, v, target);
    assert s2.node.mounts == {} && s2.threads == s.threads[t := Thread(Removing, v, target, 0, {})];
    acts := InspectPath(h, s2, t);
    assert AfterInspect(s2, t).threads == e.threads;
    Cons(h, s1, unmount, acts, e); acts := [unmount] + acts;
    Cons(h, s, Run(t, Unpublish(v, target)), acts, e); acts := [Run(t, Unpublish(v, target))] + acts;
  }

  /** The state after an inspection that finds the port unused, and the release. */
  function AfterInspect(s: State, t: Tid): State
    requires s.Th(t).v in s.node.maps.ports
  {
    var g, th := s.node, s.Th(t);
    var p, at := g.maps.ports[th.v], if |g.maps.ports| == 1 then Cleaning else Deleting;
    State(g.(maps := g.maps.Unbind(th.v, p)), s.threads[t := th.(at := at, p := p)])
  }

  lemma InspectPath(h: Given, s: State, t: Tid) returns (acts: seq<Action>)
    requires s.Th(t).at.Removing? && s.node.lock == None && s.node.mounts == {} && s.Th(t).v in s.node.maps.ports
    ensures Reaches(h, s, acts, AfterInspect(s, t))
  {
    var s1 := Next(s, Run(t, Inspect(true)));
    var e := Next(s1, Run(t, Release));
    assert e.threads == AfterInspect(s, t).threads;
    One(h, s1, Run(t, Release)); acts := [Run(t, Release)];
    Cons(h, s, Run(t, Inspect(true)), acts, e); acts := [Run(t, Inspect(true))] + acts;
  }

  lemma One(h: Given, s: State, a: Action)
    requires Enabled(s, a) && Respects(h, s, a)
    ensures Reaches(h, s, [a], Next(s, a))
  {
    Cons(h, s, a, [], Next(s, a));
    assert [a] + [] == [a];
  }

  const RANGE := PortRange(11300, 300)
  const START := State(Node(RANGE, NO_TUNNELS, map[], false, true, map[], Debounce.QUIET, {}, None), map[])

  lemma FirstScans()
    ensures LeastFree(map[], {}, RANGE) == Some(11300)
    ensures LeastFree(map[], {11300}, RANGE) == Some(11301)
  {
  }

  /** One tunnel "a" on port 11300, its publish call finished and its target mounted or not. */
  function Tunnel(mounted: bool): State {
    var s := AfterEnsure(START, 0, "a", "/t", {}, 11300);
    s.(node := s.node.(mounts := if mounted then {Mount("/t", "a", 11300)} else {}), threads := map[0 := IDLE])
  }

  lemma TunnelPath(h: Given, mounted: bool) returns (acts: seq<Action>)
    ensures Reaches(h, START, acts, Tunnel(mounted))
  {
    FirstScans();
    acts := EnsurePath(h, START, 0, "a", "/t", {}, 11300);
    var s := AfterEnsure(START, 0, "a", "/t", {}, 11300);
    One(h, s, Run(0, MountShare(mounted)));
    assert Next(s, Run(0, MountShare(mounted))).threads == map[0 := IDLE];
    Then(h, START, acts, s, [Run(0, MountShare(mounted))], Tunnel(mounted));
    acts := acts + [Run(0, MountShare(mounted))];
  }

  /** The tunnel "a" has been released as the last one and its config is still on disk. */
  function Released(): State {
    AfterRelease(Tunnel(false), 0, "a", "/t")
  }

  lemma ReleasedPath(h: Given) returns (acts: seq<Action>)
    ensures Reaches(h, START, acts, Released())
    ensures Released().node.maps == NO_TUNNELS && Released().Th(0) == Thread(Cleaning, "a", "/t", 11300, {})
  {
    acts := TunnelPath(h, false);
    var more := ReleasePath(h, Tunnel(false), 0, "a", "/t");
    assert Tunnel(false).node.maps.ports.Keys == {"a"};
    Then(h, START, acts, Tunnel(false), more, Released());
    acts := acts + more;
  }

  /** The reload of the last-tunnel cleanup has failed, so a rollback is due. */
  function Rolling(): State {
    var s := Released();
    State(s.node.(timer := s.node.timer.Cleanup()), s.threads[0 := Thread(RollingBack, "a", "/t", 11300, {})])
  }

  lemma RollingPath(h: Given) returns (acts: seq<Action>)
    ensures Reaches(h, START, acts, Rolling())
    ensures Rolling().node.maps == NO_TUNNELS && Rolling().node.files == map["a" := 11300]
    ensures Rolling().Th(0) == Thread(RollingBack, "a", "/t", 11300, {})
  {
    acts := ReleasedPath(h);
    One(h, Released(), Run(0, Clean(NotSent)));
    Then(h, START, acts, Released(), [Run(0, Clean(NotSent))], Rolling());
    acts := acts + [Run(0, Clean(NotSent))];
  }

  /** The last-tunnel cleanup has gone through and the config is about to be deleted. */
  function Cleaned(): State {
    var s := Released();
    State(
      s.node.(timer := s.node.timer.Cleanup(), loaded := s.node.files, started := false),
      s.threads[0 := Thread(DeletingLast, "a", "/t", 11300, {})])
  }

  lemma CleanedPath(h: Given) returns (acts: seq<Action>)
    ensures Reaches(h, START, acts, Cleaned())
    ensures Cleaned().node.maps == NO_TUNNELS && Cleaned().node.files == map["a" := 11300]
    ensures Cleaned().Th(0) == Thread(DeletingLast, "a", "/t", 11300, {})
  {
    acts := ReleasedPath(h);
    var s, clean := Released(), Run(0, Clean(Signalled));
    var s' := Next(s, clean);
    One(h, s', Run(0, Reset));
    assert Next(s', Run(0, Reset)).threads == s.threads[0 := Thread(DeletingLast, "a", "/t", 11300, {})];
    Cons(h, s, clean, [Run(0, Reset)], Cleaned());
    Then(h, START, acts, s, [clean, Run(0, Reset)], Cleaned());
    acts := acts + [clean, Run(0, Reset)];
  }

  /** A path, then a path, then a step. */
  lemma Extend(h: Given, s: State, xs: seq<Action>, m: State, ys: seq<Action>, e: State, a: Action)
    requires Reaches(h, s, xs, m) && Reaches(h, m, ys, e) && Enabled(e, a) && Respects(h, e, a)
    ensures Reaches(h, s, xs + ys + [a], Next(e, a))
  {
    Then(h, s, xs, m, ys, e);
    One(h, e, a);
    Then(h, s, xs + ys, e, [a], Next(e, a));
  }

  lemma TwoBinds()
    ensures var m := NO_TUNNELS.Bind("b", 11300).Bind("a", 11300);
            !Inverse(m) && m.ports == map["a" := 11300, "b" := 11300]
    ensures var m := NO_TUNNELS.Bind("a", 11301).Bind("a", 11300);
            !Inverse(m) && m.owners == map[11300 := "a", 11301 := "a"]
  {
    assert NO_TUNNELS.Bind("b", 11300).Bind("a", 11300).ports["b"] == 11300;
    assert NO_TUNNELS.Bind("a", 11301).Bind("a", 11300).owners[11301] == "a";
  }

  /** The port went to another volume while a rollback was due: two volumes end up with one port. */
  lemma RollbackOntoTakenPort() returns (acts: seq<Action>, e: State)
    ensures Initial(START) && Reaches(Given(true, false, true), START, acts, e)
    ensures !Inverse(e.node.maps) && e.node.maps.ports == map["a" := 11300, "b" := 11300]
  {
    var h := Given(true, false, true);
    acts := RollingPath(h);
    FirstScans();
    var more := EnsurePath(h, Rolling(), 1, "b", "/u", {}, 11300);
    var m := AfterEnsure(Rolling(), 1, "b", "/u", {}, 11300);
    Extend(h, START, acts, Rolling(), more, m, Run(0, Rollback));
    acts, e := acts + more + [Run(0, Rollback)], Next(m, Run(0, Rollback));
    TwoBinds();
  }

  /** The volume got a different port while a rollback was due: two ports end up with one volume. */
  lemma RollbackOntoMovedVolume() returns (acts: seq<Action>, e: State)
    ensures Initial(START) && Reaches(Given(false, true, true), START, acts, e)
    ensures !Inverse(e.node.maps) && e.node.maps.owners == map[11300 := "a", 11301 := "a"]
  {
    var h := Given(false, true, true);
    acts := RollingPath(h);
    FirstScans();
    var more := EnsurePath(h, Rolling(), 1, "a", "/u", {11300}, 11301);
    var m := AfterEnsure(Rolling(), 1, "a", "/u", {11300}, 11301);
    Extend(h, START, acts, Rolling(), more, m, Run(0, Rollback));
    acts, e := acts + more + [Run(0, Rollback)], Next(m, Run(0, Rollback));
    TwoBinds();
  }

  /** The unlocked deletion removes a config that a concurrent EnsureTunnel for the same volume has just written. */
  lemma DeletionHitsFreshFile() returns (acts: seq<Action>, e: State)
    ensures Initial(START) && Reaches(Given(false, true, true), START, acts, e)
    ensures e.node.maps.ports == map["a" := 11301] && e.node.files == map[] && !Mirrored(e.node)
  {
    var h := Given(false, true, true);
    acts := CleanedPath(h);
    FirstScans();
    var more := EnsurePath(h, Cleaned(), 1, "a", "/u", {11300}, 11301);
    var m := AfterEnsure(Cleaned(), 1, "a", "/u", {11300}, 11301);
    Extend(h, START, acts, Cleaned(), more, m, Run(0, Delete(true)));
    acts, e := acts + more + [Run(0, Delete(true))], Next(m, Run(0, Delete(true)));
    assert e.node.files == map[];
  }

  /**
   Target locks do not serialise the share: a publish on one target mounts through a port that an unpublish on
   another has released.
   */
  lemma MountThroughReleasedPort() returns (acts: seq<Action>, e: State)
    ensures Initial(START) && Reaches(Given(false, true, true), START, acts, e)
    ensures Mount("/u", "a", 11300) in e.node.mounts && "a" !in e.node.maps.ports
  {
    var h := Given(false, true, true);
    acts := TunnelPath(h, true);
    var s1 := Next(Tunnel(true), Run(1, Publish("a", "/u")));
    var s2 := Next(s1, Run(1, Lookup));
    One(h, s1, Run(1, Lookup));
    Cons(h, Tunnel(true), Run(1, Publish("a", "/u")), [Run(1, Lookup)], s2);
    var looked := [Run(1, Publish("a", "/u"))] + [Run(1, Lookup)];
    Then(h, START, acts, Tunnel(true), looked, s2);
    var more := ReleasePath(h, s2, 0, "a", "/t");
    var m := AfterRelease(s2, 0, "a", "/t");
    Extend(h, START, acts + looked, s2, more, m, Run(1, MountShare(true)));
    acts, e := acts + looked + more + [Run(1, MountShare(true))], Next(m, Run(1, MountShare(true)));
  }

  /** A released port whose config is still on disk has been given to "b", which is mounted through it. */
  function GivenAway(): State {
    var s := AfterEnsure(Released(), 1, "b", "/u", {}, 11300);
    State(s.node.(mounts := {Mount("/u", "b", 11300)}), s.threads[1 := IDLE])
  }

  lemma GivenAwayPath(h: Given) returns (acts: seq<Action>)
    requires !h.leftovers
    ensures Reaches(h, START, acts, GivenAway()) && GivenAway().node.files == map["a" := 11300, "b" := 11300]
  {
    acts := ReleasedPath(h);
    FirstScans();
    var more := EnsurePath(h, Released(), 1, "b", "/u", {}, 11300);
    var m := AfterEnsure(Released(), 1, "b", "/u", {}, 11300);
    assert Released().node.mounts == {};
    assert Next(m, Run(1, MountShare(true))).threads == m.threads[1 := IDLE];
    Extend(h, START, acts, Released(), more, m, Run(1, MountShare(true)));
    acts := acts + more + [Run(1, MountShare(true))];
  }

  /** A crash then finds the port named twice, and the mount of "b" ends up on a port that belongs to "a". */
  lemma PortNamedTwice() returns (acts: seq<Action>, e: State)
    ensures Initial(START) && Reaches(Given(true, false, true), START, acts, e)
    ensures !Inverse(e.node.maps)
    ensures Mount("/u", "b", 11300) in e.node.mounts && e.node.maps.owners == map[11300 := "a"]
  {
    var h := Given(true, false, true);
    acts := GivenAwayPath(h);
    var s, crash := GivenAway(), Crash(["b", "a"]);
    One(h, s, crash);
    e := Next(s, crash);
    Then(h, START, acts, s, [crash], e);
    acts := acts + [crash];
    TwoFiles(s.node.files);
  }

  lemma TwoFiles(files: map<string, int>)
    requires files == map["a" := 11300, "b" := 11300]
    ensures var m := Recovered(["b", "a"], files, RANGE); !Inverse(m) && m.owners == map[11300 := "a"]
  {
    assert ["b", "a"][..1] == ["b"] && ["b"][..0] == [];
    assert Recovered([], files, RANGE) == NO_TUNNELS;
    assert Recovered(["b"], files, RANGE) == NO_TUNNELS.Bind("b", 11300);
    assert Recovered(["b", "a"], files, RANGE) == NO_TUNNELS.Bind("b", 11300).Bind("a", 11300);
    TwoBinds();
  }

  /** A restart before the timer fires leaves a recovered tunnel that stunnel has not read, with no reload pending. */
  lemma RestartForgetsReload() returns (acts: seq<Action>, e: State)
    ensures Initial(START) && Reaches(Given(true, true, true), START, acts, e)
    ensures "a" in e.node.maps.ports && !Fresh(e)
  {
    var h := Given(true, true, true);
    acts := TunnelPath(h, true);
    One(h, Tunnel(true), Crash(["a"]));
    e := Next(Tunnel(true), Crash(["a"]));
    Then(h, START, acts, Tunnel(true), [Crash(["a"])], e);
    acts := acts + [Crash(["a"])];
    RecoveryIsInverseExactly(["a"], Tunnel(true).node.files, RANGE);
    assert Recoverable(Tunnel(true).node.files, RANGE, "a");
    assert !Announced(e, "a");
  }

  /** A debounced reload that cannot be sent is not repeated. */
  lemma FailedReloadIsDropped() returns (acts: seq<Action>, e: State)
    ensures Initial(START) && Reaches(Given(true, true, true), START, acts, e)
    ensures e.node.timer == Debounce.QUIET && "a" in e.node.maps.ports && !Fresh(e)
  {
    var h := Given(true, true, true);
    acts := TunnelPath(h, true);
    var s := Next(Tunnel(true), TimerExpires);
    One(h, Tunnel(true), TimerExpires);
    Extend(h, START, acts, Tunnel(true), [TimerExpires], s, TimerCallback(NotSent));
    acts, e := acts + [TimerExpires] + [TimerCallback(NotSent)], Next(s, TimerCallback(NotSent));
    assert !Announced(e, "a");
  }

  /** The last tunnel is gone from the maps and from the directory; stunnel has not reread it since. */
  function Gone(): State {
    var s := Cleaned();
    State(s.node.(files := map[]), s.threads[0 := Thread(Removed, "a", "/t", 11300, {})])
  }

  lemma GonePath(h: Given) returns (acts: seq<Action>)
    ensures Reaches(h, START, acts, Gone()) && Gone().node.maps == NO_TUNNELS
  {
    acts := CleanedPath(h);
    var delete := Run(0, Delete(true));
    One(h, Cleaned(), delete);
    assert Cleaned().node.files - {"a"} == map[];
    Then(h, START, acts, Cleaned(), [delete], Gone());
    acts := acts + [delete];
  }

  /** A bind test that does not see stunnel listening: the port goes to "b" while stunnel still serves it for "a". */
  lemma PortServedForAnother() returns (acts: seq<Action>, e: State)
    ensures Initial(START) && Reaches(Given(true, true, true), START, acts, e)
    ensures Mount("/u", "b", 11300) in e.node.mounts && !Private(e.node)
  {
    var h := Given(true, true, true);
    acts := GonePath(h);
    FirstScans();
    var more := EnsurePath(h, Gone(), 1, "b", "/u", {}, 11300);
    var m := AfterEnsure(Gone(), 1, "b", "/u", {}, 11300);
    Extend(h, START, acts, Gone(), more, m, Run(1, MountShare(true)));
    acts, e := acts + more + [Run(1, MountShare(true))], Next(m, Run(1, MountShare(true)));
    assert ListensFor(e.node, "a", 11300);
  }

  /**
   After the last tunnel is removed stunnel goes on serving it: its signal went out while the config was still
   there.
   */
  lemma LastTunnelIsServedOn() returns (acts: seq<Action>)
    ensures Initial(START) && Reaches(Given(true, true, true), START, acts, Gone())
    ensures Gone().node.files == map[] && Gone().node.running && "a" in Gone().node.loaded && !Swept(Gone())
  {
    acts := GonePath(Given(true, true, true));
    assert ServesGone(Gone().node, "a");
    assert forall t: Tid :: !Gone().Th(t).at.Scheduling?;
  }

  const COLD := State(START.node.(running := false), map[])

  const CALL := Thread(Committing, "a", "/t", 11300, {})

  /** The config file is written, the maps are not yet updated. */
  const WRITTEN := State(COLD.node.(files := map["a" := 11300], lock := Some(0)), map[0 := CALL])

  lemma UndoFails() returns (acts: seq<Action>, e: State)
    ensures Reaches(Given(true, true, false), WRITTEN, acts, e)
    ensures e == State(WRITTEN.node.(lock := None), map[0 := CALL.(at := Refused)])
  {
    var h := Given(true, true, false);
    var s1 := Next(WRITTEN, Run(0, Commit));
    var s2 := Next(s1, Run(0, Check));
    var s3 := Next(s2, Run(0, Wake));
    e := Next(s3, Run(0, Undo(false)));
    UnbindAfterBind(NO_TUNNELS, "a", 11300);
    One(h, s3, Run(0, Undo(false))); acts := [Run(0, Undo(false))];
    Cons(h, s2, Run(0, Wake), acts, e); acts := [Run(0, Wake)] + acts;
    Cons(h, s1, Run(0, Check), acts, e); acts := [Run(0, Check)] + acts;
    Cons(h, WRITTEN, Run(0, Commit), acts, e); acts := [Run(0, Commit)] + acts;
  }

  lemma WrittenPath(h: Given) returns (acts: seq<Action>)
    ensures Reaches(h, COLD, acts, WRITTEN)
  {
    FirstScans();
    var s1 := Next(COLD, Run(0, Publish("a", "/t")));
    var s2 := Next(s1, Run(0, Lookup));
    var s3 := Next(s2, Run(0, Enter({})));
    assert Next(s3, Run(0, Write(true))) == WRITTEN;
    One(h, s3, Run(0, Write(true))); acts := [Run(0, Write(true))];
    Cons(h, s2, Run(0, Enter({})), acts, WRITTEN); acts := [Run(0, Enter({}))] + acts;
    Cons(h, s1, Run(0, Lookup), acts, WRITTEN); acts := [Run(0, Lookup)] + acts;
    Cons(h, COLD, Run(0, Publish("a", "/t")), acts, WRITTEN); acts := [Run(0, Publish("a", "/t"))] + acts;
  }

  lemma NobodyCarries(s: State, th: Thread)
    requires s.threads == map[0 := th] && th.at.Refused? && "a" in s.node.files && "a" !in s.node.maps.ports
    ensures !Covered(s)
  {
    assert forall t: Tid :: !Carries(s, t, "a");
  }

  /**
   A startup rollback that cannot delete its file leaves a config that no call accounts for: a crash would recover a
   tunnel nobody has.
   */
  lemma FailedUndoLeavesFile() returns (acts: seq<Action>, e: State)
    ensures Initial(COLD) && Reaches(Given(true, true, false), COLD, acts, e)
    ensures e.node.maps == NO_TUNNELS && e.node.files == map["a" := 11300] && !Covered(e)
  {
    var h := Given(true, true, false);
    acts := WrittenPath(h);
    var more;
    more, e := UndoFails();
    Then(h, COLD, acts, WRITTEN, more, e);
    acts := acts + more;
    NobodyCarries(e, CALL.(at := Refused));
  }
}
