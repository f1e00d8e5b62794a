/** The tunnel manager as an object: the sequential code of each operation, proved against the call functions. */
module StunnelManager {
  import opened Wrappers
  import opened Text
  import opened PortMaps
  import opened TunnelConfig
  import opened TunnelCalls
  import Debounce
  import MountTable

  /** Answers of the operating system during one RemoveTunnel: the mount table, and whether signal and deletion work. */
  datatype RemoveAnswers = RemoveAnswers(mounts: Option<string>, reloads: bool, deletes: bool)

  /** A manager's settings, memory and directory. */
  datatype Tunnels = Tunnels(range: PortRange, settings: Settings, memory: Core, dir: map<string, string>)

  class Manager {
    const range: PortRange
    const settings: Settings
    var allocatedPorts: map<string, int>
    var portToVolume: map<int, string>
    var stunnelStarted: bool
    var timer: Debounce.Timer
    var dir: map<string, string>   // the services directory on disk

    ghost predicate Valid()
      reads this
    {
      && 0 <= range.lo && range.lo + range.size <= 65536
      && InRange(MapsNow(), range)
    }

    function MapsNow(): Maps
      reads this
    {
      Maps(allocatedPorts, portToVolume)
    }

    /** What the manager keeps in memory, as the call functions see it. */
    function Memory(): Core
      reads this
    {
      Core(MapsNow(), map[], stunnelStarted, timer)
    }

    /** The manager together with its directory. */
    ghost function Snapshot(): Tunnels
      reads this
    {
      Tunnels(range, settings, Memory(), dir)
    }

    /** NewStunnelManager: empty maps, then recovery from the directory. */
    constructor (range: PortRange, settings: Settings, names: seq<string>, dir: map<string, string>)
      requires 0 <= range.lo && range.lo + range.size <= 65536
      ensures Valid() && this.range == range && this.settings == settings && this.dir == dir
      ensures MapsNow() == Recovered(ListedVolumes(names), Files(dir, range), range)
      ensures !stunnelStarted && timer == Debounce.QUIET
    {
      var m := RecoverExistingTunnels(names, dir, range);
      RecoveredContents(ListedVolumes(names), Files(dir, range), range);
      this.range := range;
      this.settings := settings;
      allocatedPorts := m.ports;
      portToVolume := m.owners;
      stunnelStarted := false;
      timer := Debounce.QUIET;
      this.dir := dir;
    }

    /** findAvailablePort: `busy` are the ports whose bind test fails. */
    method FindAvailablePort(busy: set<int>) returns (port: Option<int>)
      ensures port == LeastFree(portToVolume, busy, range)
    {
      var p := range.lo;
      while p < range.lo + range.size
        invariant range.lo <= p <= range.lo + range.size
        invariant LeastFree(portToVolume, busy, range) == LeastFreeFrom(portToVolume, busy, p, range.lo + range.size)
      {
        if p !in portToVolume && p !in busy {
          return Some(p);
        }
        p := p + 1;
      }
      return None;
    }

    method ScheduleDebouncedSIGHUP()
      modifies this`timer
      ensures timer == old(timer).Schedule() && timer.pending && timer.armed
    {
      timer := timer.(pending := true);
      timer := timer.(armed := true);   // the old timer is stopped, a new one started
    }

    /** handleLastTunnelCleanup: false means that the signal could not be sent. */
    method HandleLastTunnelCleanup(reloads: bool) returns (ok: bool)
      modifies this`timer, this`stunnelStarted
      ensures ok == reloads && timer == old(timer).Cleanup() && !timer.pending && !timer.armed
      ensures stunnelStarted == if reloads then false else old(stunnelStarted)
    {
      timer := timer.(armed := false);
      timer := timer.(pending := false);
      if !reloads {
        return false;
      }
      stunnelStarted := false;
      return true;
    }

    method EnsureTunnel(volumeID: string, nfsServer: string, env: EnsureEnv) returns (result: Result<int>)
      requires Valid()
      modifies this`allocatedPorts, this`portToVolume, this`stunnelStarted, this`timer, this`dir
      ensures Valid()
      ensures volumeID == "" || nfsServer == "" ==> result.Err? && Memory() == old(Memory()) && dir == old(dir)
      ensures volumeID != "" && nfsServer != "" ==>
                && ResultIs(result, EnsureCall(old(Memory()), range, volumeID, env).1)
                && Memory() == EnsureCall(old(Memory()), range, volumeID, env).0.(files := map[])
                && dir == EnsureDir(old(dir), old(Memory()), range, volumeID, nfsServer, settings, env)
    {
      if volumeID == "" {
        return Err("volumeID is required");
      }
      if nfsServer == "" {
        return Err("target IP is required");
      }
      if volumeID in allocatedPorts {
        return Ok(allocatedPorts[volumeID]);
      }
      var found := FindAvailablePort(env.busy);
      PickedIsFree(portToVolume, env.busy, range);
      if found.None? {
        return Err("no available ports");
      }
      var port := found.value;
      var configPath := FileName(volumeID);
      if !env.writes {
        return Err("failed to write stunnel config file");
      }
      dir := dir[configPath := BuildConfig(volumeID, nfsServer, port, settings)];
      ghost var before, written := MapsNow(), dir;
      allocatedPorts := allocatedPorts[volumeID := port];
      portToVolume := portToVolume[port := volumeID];
      var up := AnnounceTunnel(volumeID, port, env);
      if !up {
        UnbindAfterBind(before, volumeID, port);
        assert written - {configPath} == old(dir) - {configPath};
        return Err("stunnel not running");
      }
      return Ok(port);
    }

    /**
     EnsureTunnel after the commit: schedule a reload, or wait for stunnel and undo the tunnel if it does not come
     up.
     */
    method AnnounceTunnel(volumeID: string, port: int, env: EnsureEnv) returns (up: bool)
      modifies this`allocatedPorts, this`portToVolume, this`stunnelStarted, this`timer, this`dir
      ensures up == (old(stunnelStarted) || env.upNow || env.upLater)
      ensures up ==> MapsNow() == old(MapsNow()) && dir == old(dir) && stunnelStarted
      ensures timer == if old(stunnelStarted) || env.upNow then old(timer).Schedule() else old(timer)
      ensures !up ==> MapsNow() == old(MapsNow()).Unbind(volumeID, port) && stunnelStarted == old(stunnelStarted)
      ensures !up ==> dir == if env.deletes then old(dir) - {FileName(volumeID)} else old(dir)
    {
      if !stunnelStarted && !env.upNow {
        if !env.upLater {
          allocatedPorts := allocatedPorts - {volumeID};
          portToVolume := portToVolume - {port};
          if env.deletes {
            dir := dir - {FileName(volumeID)};
          }
          return false;
        }
        stunnelStarted := true;
      } else {
        stunnelStarted := true;
        ScheduleDebouncedSIGHUP();
      }
      return true;
    }

    method RemoveTunnel(volumeID: string, answers: RemoveAnswers) returns (ok: bool)
      requires Valid()
      modifies this`allocatedPorts, this`portToVolume, this`stunnelStarted, this`timer, this`dir
      ensures Valid()
      ensures volumeID == "" ==> !ok && Memory() == old(Memory()) && dir == old(dir)
      ensures volumeID != "" ==>
                var env := Answers(old(allocatedPorts), volumeID, answers);
                && Memory() == RemoveCall(old(Memory()), volumeID, env).0.(files := map[])
                && ok == RemoveCall(old(Memory()), volumeID, env).1
                && dir == RemoveDir(old(dir), old(Memory()), volumeID, env)
      ensures ok && volumeID in old(allocatedPorts) && volumeID !in allocatedPorts && |old(allocatedPorts)| > 1 ==>
                timer.pending && timer.armed
      ensures ok && volumeID in old(allocatedPorts) && volumeID !in allocatedPorts && |old(allocatedPorts)| == 1 ==>
                !stunnelStarted
      ensures volumeID != "" && volumeID in old(allocatedPorts) && old(allocatedPorts)[volumeID] >= 0 &&
              (answers.mounts.None? || MountTable.TextMatches(answers.mounts.value, old(allocatedPorts)[volumeID])) ==>
                ok && Memory() == old(Memory()) && dir == old(dir)
    {
      if volumeID == "" {
        return false;
      }
      if volumeID !in allocatedPorts {
        return true;
      }
      var tunnelPort := allocatedPorts[volumeID];
      var inUse := MountTable.IsTunnelPortInUse(answers.mounts, tunnelPort);
      ghost var env := Answers(allocatedPorts, volumeID, answers);
      assert inUse == env.inUse;
      if inUse {
        return true;
      }
      var isLastTunnel := |allocatedPorts| == 1;
      allocatedPorts := allocatedPorts - {volumeID};
      portToVolume := portToVolume - {tunnelPort};
      ok := FinishRemoval(volumeID, tunnelPort, isLastTunnel, answers);
    }

    /** RemoveTunnel after the lock is dropped. */
    method FinishRemoval(volumeID: string, tunnelPort: int, isLastTunnel: bool, answers: RemoveAnswers)
      returns (ok: bool)
      modifies this`allocatedPorts, this`portToVolume, this`stunnelStarted, this`timer, this`dir
      ensures var env := RemoveEnv(false, answers.reloads, answers.deletes);
              (Memory(), ok) == FinishRemove(old(Memory()), volumeID, tunnelPort, isLastTunnel, env)
      ensures dir == if ok then old(dir) - {FileName(volumeID)} else old(dir)
    {
      assert Memory().files - {volumeID} == Memory().files;
      if isLastTunnel {
        var sent := HandleLastTunnelCleanup(answers.reloads);
        if !sent {
          allocatedPorts := allocatedPorts[volumeID := tunnelPort];
          portToVolume := portToVolume[tunnelPort := volumeID];
          return false;
        }
      }
      if !answers.deletes {
        allocatedPorts := allocatedPorts[volumeID := tunnelPort];
        portToVolume := portToVolume[tunnelPort := volumeID];
        return false;
      }
      dir := dir - {FileName(volumeID)};
      if !isLastTunnel {
        ScheduleDebouncedSIGHUP();
      }
      return true;
    }
  }

  predicate ResultIs(result: Result<int>, port: Option<int>) {
    if port.Some? then result == Ok(port.value) else result.Err?
  }

  /** The in-use test on the volume's port. */
  ghost function Answers(ports: map<string, int>, v: string, answers: RemoveAnswers): RemoveEnv {
    RemoveEnv(
      v in ports && ports[v] >= 0 &&
      (answers.mounts.None? || MountTable.TextMatches(answers.mounts.value, ports[v])),
      answers.reloads, answers.deletes)
  }

  /** The services directory after EnsureTunnel. */
  function EnsureDir(dir: map<string, string>, c: Core, r: PortRange, v: string, nfsServer: string, st: Settings,
                     env: EnsureEnv): map<string, string>
    requires 0 <= r.lo
  {
    if v in c.maps.ports || !env.writes then dir
    else
      match LeastFree(c.maps.owners, env.busy, r)
      case None => dir
      case Some(p) =>
        PickedIsFree(c.maps.owners, env.busy, r);
        if !c.started && !env.upNow && !env.upLater && env.deletes then dir - {FileName(v)}
        else dir[FileName(v) := BuildConfig(v, nfsServer, p, st)]
  }

  /** The services directory after RemoveTunnel. */
  function RemoveDir(dir: map<string, string>, c: Core, v: string, env: RemoveEnv): map<string, string> {
    if v in c.maps.ports && !env.inUse && env.deletes && (|c.maps.ports| == 1 ==> env.reloads)
    then dir - {FileName(v)} else dir
  }

  /**
   The directory after an EnsureTunnel that made a tunnel: one file more, named by the volume,
       that connects the returned
   local port to the server on port 20049 and checks it as the settings say.
   */
  lemma EnsureDirSays(dir: map<string, string>, c: Core, r: PortRange, v: string, nfsServer: string, st: Settings,
                      env: EnsureEnv)
    requires 0 <= r.lo && v !in c.maps.ports && EnsureCall(c, r, v, env).1.Some? && Printable(v, nfsServer, st)
    ensures var dir', p := EnsureDir(dir, c, r, v, nfsServer, st, env), EnsureCall(c, r, v, env).1.value;
            && p >= 0 && v + ".conf" in dir' && dir' == dir[v + ".conf" := dir'[v + ".conf"]]
            && var lines := Lines(dir'[v + ".conf"]);
            && lines != [] && lines[0] == "[" + (v + "]")
            && DirectiveValue(lines, "client") == Some("yes")
            && DirectiveValue(lines, "accept") == Some("127.0.0.1:" + Decimal(p))
            && DirectiveValue(lines, "connect") == Some(nfsServer + ":20049")
            && DirectiveValue(lines, "CAfile") == Some(st.caFile)
            && DirectiveValue(lines, "checkHost") == Some(st.checkHost)
            && DirectiveValue(lines, "verify") == Some("2")
  {
    PickedIsFree(c.maps.owners, env.busy, r);
    var p := EnsureCall(c, r, v, env).1.value;
    FileNameIs(v);
    ConfigSays(v, nfsServer, p, st);
  }

  /** Otherwise it stays, but for the file of a tunnel whose start failed. */
  lemma EnsureDirStays(dir: map<string, string>, c: Core, r: PortRange, v: string, nfsServer: string, st: Settings,
                       env: EnsureEnv)
    requires 0 <= r.lo && (v in c.maps.ports || EnsureCall(c, r, v, env).1.None?)
    ensures var dir' := EnsureDir(dir, c, r, v, nfsServer, st, env);
            && dir' - {v + ".conf"} == dir - {v + ".conf"}
            && (dir' == dir || (v !in c.maps.ports && env.writes && !c.started && !env.upNow && !env.upLater))
            && (dir' != dir && env.deletes ==> v + ".conf" !in dir')
  {
    PickedIsFree(c.maps.owners, env.busy, r);
    FileNameIs(v);
  }

  /** The directory after RemoveTunnel: the file of an unused tunnel is gone exactly if the call succeeds. */
  lemma RemoveDirStays(dir: map<string, string>, c: Core, v: string, env: RemoveEnv)
    ensures RemoveDir(dir, c, v, env) ==
            if Removable(c, v, env) && RemoveCall(c, v, env).1 then dir - {v + ".conf"} else dir
  {
    FileNameIs(v);
  }

  /**
   Read back as a table, the directory after EnsureTunnel is what the call function says, for every id without a
   line break.
   */
  lemma EnsureDirShows(dir: map<string, string>, c: Core, r: PortRange, v: string, nfsServer: string, st: Settings,
                       env: EnsureEnv)
    requires 0 <= r.lo && r.lo + r.size <= 65536 && '\n' !in v
    ensures Files(EnsureDir(dir, c, r, v, nfsServer, st, env), r) ==
            EnsureCall(c.(files := Files(dir, r)), r, v, env).0.files
  {
    PickedIsFree(c.maps.owners, env.busy, r);
    match LeastFree(c.maps.owners, env.busy, r)
    case None =>
    case Some(p) =>
      WriteShows(dir, v, nfsServer, p, st, r);
      DeleteShows(dir, v, r);
  }

  lemma RemoveDirShows(dir: map<string, string>, c: Core, r: PortRange, v: string, env: RemoveEnv)
    ensures Files(RemoveDir(dir, c, v, env), r) == RemoveCall(c.(files := Files(dir, r)), v, env).0.files
  {
    if v in c.maps.ports && !env.inUse {
      DeleteShows(dir, v, r);
    }
  }
}
