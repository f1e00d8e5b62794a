/**
 NodePublishVolume and NodeUnpublishVolume over the tunnel manager, as a step machine
 with any number of threads.

 A step is a stretch of code that touches shared state under one lock hold, or one
 directory operation, mount operation or signal.  The write lock of the manager is held
 across several steps of EnsureTunnel, so the unlocked steps of other threads (deleting
 a config file, the last-tunnel cleanup, a timer callback) interleave with them.
 A driver crash with the recovery that follows it, the stunnel process coming up or
 going away, and the answers of the operating system are steps and step arguments too.
 */
module NodeProtocol {
  import opened Wrappers
  import opened PortMaps
  import Debounce

  type Tid = nat

  datatype Loc =
    | Idle
      // EnsureTunnel, called by NodePublishVolume
    | FastPath     // about to look up under the read lock
    | SlowPath     // about to take the write lock
    | Writing      // holds the lock, port chosen
    | Committing   // holds the lock, config file written
    | Checking     // holds the lock, maps updated
    | Waiting      // holds the lock, sleeping for stunnel to start
    | Undoing      // holds the lock, maps restored, file still there
    | Granted      // EnsureTunnel returned a port
    | Refused      // EnsureTunnel returned an error
      // RemoveTunnel, called by NodeUnpublishVolume
    | Unmounting   // about to unmount the target
    | Removing     // about to take the write lock
    | Inspected    // holds the lock, read the mount table and found the port unused
    | Cleaning     // released the last tunnel, about to signal stunnel
    | Resetting    // signal sent and waited for, about to reset stunnelStarted
    | Deleting     // released, about to delete the file
    | DeletingLast // same, after the last-tunnel cleanup
    | RollingBack  // about to put the pair back
    | Scheduling   // file deleted, about to schedule a reload
    | Removed      // RemoveTunnel returned nil, nothing left
    | Kept         // RemoveTunnel returned nil, port still in use
    | Failed       // the call returned an error

  /** `busy` records the bind-test answers that the scan for a port saw. */
  datatype Thread = Thread(at: Loc, v: string, target: string, p: int, busy: set<int>)

  const IDLE := Thread(Idle, "", "", 0, {})

  datatype Mount = Mount(target: string, share: string, port: int)

  /** Everything the threads share on one node. */
  datatype Node = Node(
    range: PortRange,
    maps: Maps,                   // allocatedPorts and portToVolume
    files: map<string, int>,      // the services directory: volume -> port its config accepts on
    started: bool,                // stunnelStarted
    running: bool,                // is there a stunnel process
    loaded: map<string, int>,     // the services directory as stunnel last read it
    timer: Debounce.Timer,
    mounts: set<Mount>,           // live tunnelled mounts
    lock: Option<Tid>)            // the writer holding mu
  {
    predicate InUse(p: int) {
      exists m <- mounts :: m.port == p
    }

    predicate CanReload(reload: Reload) {
      reload == Signalled ==> running
    }

    /** The effect of reloadStunnel. */
    function Reloaded(reload: Reload): Node {
      match reload
      case Signalled => this.(loaded := files)
      case Vanished => this.(running := false)
      case NotSent => this
    }
  }

  /** What reloadStunnel did: signalled a live process, found it just gone (no error), or failed. */
  datatype Reload = Signalled | Vanished | NotSent

  datatype State = State(node: Node, threads: map<Tid, Thread>) {
    function Th(t: Tid): Thread {
      if t in threads then threads[t] else IDLE
    }
  }

  /** One step of one thread; the arguments are what the operating system answered. */
  datatype Step =
    | Publish(v: string, target: string)
    | Lookup
    | Enter(busy: set<int>)
    | Write(ok: bool)
    | Commit
    | Check
    | Wake
    | Undo(ok: bool)
    | MountShare(mounted: bool)
    | Unpublish(v: string, target: string)
    | Unmount(ok: bool, gone: set<Mount>)
    | Inspect(readable: bool)
    | Release
    | Clean(reload: Reload)
    | Reset
    | Delete(ok: bool)
    | Rollback
    | Schedule
    | Return

  datatype Action =
    | Run(t: Tid, step: Step)
    | TimerExpires
    | TimerCallback(reload: Reload)
    | StunnelUp
    | StunnelDown
    | Crash(order: seq<string>)

  /** May a thread at th take this step? */
  ghost predicate Can(g: Node, th: Thread, step: Step) {
    match step
    case Publish(v, target) => th.at.Idle? && v != ""
    case Lookup => th.at.FastPath? && g.lock == None
    case Enter(busy) => th.at.SlowPath? && g.lock == None
    case Write(ok) => th.at.Writing?
    case Commit => th.at.Committing?
    case Check => th.at.Checking?
    case Wake => th.at.Waiting?
    case Undo(ok) => th.at.Undoing?
    case MountShare(mounted) => th.at.Granted?
    case Unpublish(v, target) => th.at.Idle? && v != ""
    case Unmount(ok, gone) =>
      && th.at.Unmounting?
      && gone <= g.mounts && (forall m <- gone :: m.target == th.target)
      && (ok ==> forall m <- g.mounts - gone :: m.target != th.target)
    case Inspect(readable) => th.at.Removing? && g.lock == None
    case Release => th.at.Inspected?
    case Clean(reload) => th.at.Cleaning? && g.CanReload(reload)
    case Reset => th.at.Resetting?
    case Delete(ok) => th.at.Deleting? || th.at.DeletingLast?
    case Rollback => th.at.RollingBack? && g.lock == None
    case Schedule => th.at.Scheduling?
    case Return => th.at.Refused? || th.at.Removed? || th.at.Kept? || th.at.Failed?
  }

  /** The node and the thread after the step. */
  function Act(g: Node, t: Tid, th: Thread, step: Step): (Node, Thread)
    requires Can(g, th, step)
  {
    match step
    case Publish(v, target) => (g, Thread(FastPath, v, target, 0, {}))
    case Lookup =>
      if th.v in g.maps.ports then (g, th.(at := Granted, p := g.maps.ports[th.v])) else (g, th.(at := SlowPath))
    case Enter(busy) =>
      if th.v in g.maps.ports then (g, th.(at := Granted, p := g.maps.ports[th.v]))
      else (
             match LeastFree(g.maps.owners, busy, g.range)
             case None => (g, th.(at := Refused, busy := busy))
             case Some(p) => (g.(lock := Some(t)), th.(at := Writing, p := p, busy := busy))
           )
    case Write(ok) =>
      if ok then (g.(files := g.files[th.v := th.p]), th.(at := Committing))
      else (g.(lock := None), th.(at := Refused))
    case Commit => (g.(maps := g.maps.Bind(th.v, th.p)), th.(at := Checking))
    case Check =>
      if !g.started && !g.running then (g, th.(at := Waiting))
      else (g.(started := true, timer := g.timer.Schedule(), lock := None), th.(at := Granted))
    case Wake =>
      if g.running then (g.(started := true, lock := None), th.(at := Granted))
      else (g.(maps := g.maps.Unbind(th.v, th.p)), th.(at := Undoing))
    case Undo(ok) =>
      (g.(lock := None, files := if ok then g.files - {th.v} else g.files), th.(at := Refused))
    case MountShare(mounted) =>
      (g.(mounts := if mounted then g.mounts + {Mount(th.target, th.v, th.p)} else g.mounts), IDLE)
    case Unpublish(v, target) => (g, Thread(Unmounting, v, target, 0, {}))
    case Unmount(ok, gone) => (g.(mounts := g.mounts - gone), th.(at := if ok then Removing else Failed))
    case Inspect(readable) =>
      if th.v !in g.maps.ports then (g, th.(at := Removed))
      else if !readable || g.InUse(g.maps.ports[th.v]) then (g, th.(at := Kept))
      else (g.(lock := Some(t)), th.(at := Inspected, p := g.maps.ports[th.v]))
    case Release =>
      var last := |g.maps.ports| == 1;
      (g.(maps := g.maps.Unbind(th.v, th.p), lock := None), th.(at := if last then Cleaning else Deleting))
    case Clean(reload) =>
      var g' := g.Reloaded(reload).(timer := g.timer.Cleanup());
      (g', th.(at := if reload == NotSent then RollingBack else Resetting))
    case Reset => (g.(started := false), th.(at := DeletingLast))
    case Delete(ok) =>
      if ok then (g.(files := g.files - {th.v}), th.(at := if th.at.DeletingLast? then Removed else Scheduling))
      else (g, th.(at := RollingBack))
    case Rollback => (g.(maps := g.maps.Bind(th.v, th.p)), th.(at := Failed))
    case Schedule => (g.(timer := g.timer.Schedule()), th.(at := Removed))
    case Return => (g, IDLE)
  }

  ghost predicate Enabled(s: State, a: Action) {
    match a
    case Run(t, step) => Can(s.node, s.Th(t), step)
    case TimerExpires => s.node.timer.armed
    case TimerCallback(reload) => s.node.timer.waiting > 0 && s.node.CanReload(reload)
    case StunnelUp => !s.node.running
    case StunnelDown => s.node.running
    case Crash(order) => Lists(order, s.node.files)
  }

  function Next(s: State, a: Action): State
    requires Enabled(s, a)
  {
    var g := s.node;
    match a
    case Run(t, step) => var (g', th) := Act(g, t, s.Th(t), step); State(g', s.threads[t := th])
    case TimerExpires => s.(node := g.(timer := g.timer.Expire()))
    case TimerCallback(reload) =>
      s.(node := (if g.timer.pending then g.Reloaded(reload) else g).(timer := g.timer.Callback()))
    case StunnelUp => s.(node := g.(running := true, loaded := g.files))
    case StunnelDown => s.(node := g.(running := false))
    case Crash(order) => State(Restarted(g, order), map[])
  }

  /** The driver process is new; directory, mounts and stunnel survive. */
  function Restarted(g: Node, order: seq<string>): Node {
    g.(maps := Recovered(order, g.files, g.range), started := false, timer := Debounce.QUIET, lock := None)
  }

  /** A run: states[i] takes actions[i] to states[i + 1]. */
  ghost predicate Behaviour(states: seq<State>, actions: seq<Action>) {
    && |states| == |actions| + 1
    && Initial(states[0])
    && (forall i :: 0 <= i < |actions| ==>
                      Enabled(states[i], actions[i]) && states[i + 1] == Next(states[i], actions[i]))
  }

  /**
   A freshly recovered driver: the directory names each port at most once, and any surviving mount is backed by it.
   */
  ghost predicate Initial(s: State) {
    var g := s.node;
    && s.threads == map[] && g.lock == None
    && g.maps.ports == g.files && Inverse(g.maps) && InRange(g.maps, g.range)
    && g.timer == Debounce.QUIET
    && (forall m <- g.mounts :: m.share in g.files && g.files[m.share] == m.port)
    && g.loaded == g.files
  }
}
