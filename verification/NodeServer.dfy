/**
 NodePublishVolume, NodeUnpublishVolume and processMount as an object's methods over the mount table and the tunnel
 manager.
 */
module NodeServer {
  import opened Wrappers
  import opened Text
  import opened PortMaps
  import opened TunnelCalls
  import opened StunnelManager
  import opened VolumeContext
  import opened VolumeParameters
  import opened VolumeRequest
  import opened Capacity
  import opened VolumeId
  import MountTable
  import NfsSource

  /** A mount as the mounter was asked for it. */
  datatype MountEntry = MountEntry(source: string, fsType: string, transit: string, options: seq<string>)

  type Mounts = map<string, MountEntry>

  /** The mount command: works, fails, or fails with the target mounted all the same. */
  datatype Attempt = Works | Fails | FailsMounted

  /** Answers of the mounter: the two mount-point queries of the undo may fail, and so may its unmount. */
  datatype MountAnswers = MountAnswers(makeDir: bool, mount: Attempt, query: bool, unmount: bool, requery: bool)

  /** mount.CleanupMountPoint: no error means that the mount is gone; it may be gone in spite of an error. */
  datatype Cleanup = Cleanup(ok: bool, gone: bool)

  datatype PublishRequest = PublishRequest(volumeID: string, target: string, labels: Labels, capabilityOk: bool,
                                           flags: seq<string>)

  datatype PublishAnswers = PublishAnswers(query: bool, ensure: EnsureEnv, mount: MountAnswers)

  /**
   Mounting `entry` at a target that had no mount: success means mounted; failure leaves a mount only if the undo
   broke off.
   */
  ghost predicate MountEffect(before: Mounts, after: Mounts, ok: bool, target: string, entry: MountEntry,
                              a: MountAnswers) {
    && (ok <==> a.makeDir && a.mount.Works?)
    && (ok ==> after == before[target := entry])
    && (!ok ==> after == before || (after == before[target := entry] && a.makeDir && a.mount.FailsMounted?
                                    && !(a.query && a.unmount)))
    && (!ok && a.query && a.unmount ==> after == before)
  }

  predicate BadRequest(req: PublishRequest) {
    req.volumeID == "" || Read(req.labels, ServerPathLabel) == "" || req.target == "" || !req.capabilityOk
  }

  /** What is mounted for a share that needs no tunnel; the EIT helper takes no mount flags. */
  function DirectEntry(req: PublishRequest): MountEntry {
    var mode := ModeOf(req.labels);
    MountEntry(Read(req.labels, ServerPathLabel), mode.fsType, mode.transitEncryption, if mode.fsType == "ibmshare"
               then [] else req.flags)
  }

  /** What is mounted through the tunnel on port p. */
  function TunnelEntry(req: PublishRequest, path: string, p: nat): MountEntry {
    MountEntry("127.0.0.1:" + path, "nfs4", "", req.flags + ["port=" + Decimal(p)])
  }

  /** The mount goes to this host, on the port that the share has, with the path of the share's own source. */
  ghost predicate ThroughTunnel(e: MountEntry, source: string, flags: seq<string>, ports: map<string, int>,
                                share: string) {
    && share != "" && share in ports && ports[share] >= 0
    && e.fsType == "nfs4" && e.transit == "" && e.options == flags + ["port=" + Decimal(ports[share])]
    && exists server, path :: source == server + ":" + path && ':' !in server && e.source == "127.0.0.1:" + path
  }

  class Server {
    const manager: Manager?
    const isIP: string -> bool
    var mounts: Mounts

    ghost predicate Valid()
      reads this, manager
    {
      manager != null ==> manager.Valid()
    }

    constructor (manager: Manager?, isIP: string -> bool, mounts: Mounts)
      requires manager != null ==> manager.Valid()
      ensures Valid() && this.manager == manager && this.isIP == isIP && this.mounts == mounts
    {
      this.manager := manager;
      this.isIP := isIP;
      this.mounts := mounts;
    }

    /** processMount: the EIT helper takes the transit mode and no options, a plain mount the options. */
    method ProcessMount(mountPath: string, target: string, fsType: string, transit: string, options: seq<string>,
                        a: MountAnswers)
      returns (ok: bool)
      requires target !in mounts
      modifies this`mounts
      ensures fsType != "ibmshare" ==> MountEffect(old(mounts), mounts, ok, target,
                                                   MountEntry(mountPath, fsType, "", options), a)
      ensures fsType == "ibmshare" ==> MountEffect(old(mounts), mounts, ok, target,
                                                   MountEntry(mountPath, fsType, transit, []), a)
      ensures ok <==> a.makeDir && a.mount.Works?
      ensures ok ==> target in mounts && mounts[target].source == mountPath && mounts[target].fsType == fsType
      ensures ok ==> if fsType == "ibmshare" then mounts[target].transit == transit && mounts[target].options == []
                else mounts[target].transit == "" && mounts[target].options == options
      ensures !ok && a.query && a.unmount ==> mounts == old(mounts)
      ensures mounts == old(mounts) || (target in mounts && mounts == old(mounts)[target := mounts[target]])
    {
      var entry: MountEntry;
      if fsType != "ibmshare" {
        entry := MountEntry(mountPath, fsType, "", options);
      } else {
        entry := MountEntry(mountPath, fsType, transit, []);
      }
      if !a.makeDir {
        return false;
      }
      if !a.mount.Fails? {
        mounts := mounts[target := entry];
      }
      if a.mount.Works? {
        return true;
      }
      if !a.query {
        return false;
      }
      if target in mounts {
        if !a.unmount {
          return false;
        }
        assert old(mounts)[target := entry] - {target} == old(mounts);
        mounts := mounts - {target};
        if !a.requery {
          return false;
        }
      }
      return false;
    }

    /** The rest of NodePublishVolume for an rfs share with EIT. */
    method PublishThroughTunnel(manager: Manager, req: PublishRequest, a: PublishAnswers) returns (ok: bool)
      requires manager.Valid() && req.target !in mounts
      modifies this`mounts, manager
      ensures manager.Valid()
      ensures var source := NfsSource.SplitNFSSource(Read(req.labels, ServerPathLabel), isIP);
              TunnelPublished(req, a, ok, old(mounts), mounts, source, old(manager.Snapshot()), manager.Snapshot())
      ensures ok ==> req.target in mounts && ServerPathLabel in req.labels && FileShareIDLabel in req.labels
      ensures ok ==> ThroughTunnel(mounts[req.target], req.labels[ServerPathLabel], req.flags,
                                   manager.allocatedPorts, req.labels[FileShareIDLabel])
      ensures !ok && a.mount.query && a.mount.unmount ==> mounts == old(mounts)
      ensures mounts == old(mounts) || (req.target in mounts && mounts == old(mounts)[req.target := mounts[req.target]])
    {
      var source := Read(req.labels, ServerPathLabel);
      var parsed := NfsSource.SplitNFSSource(source, isIP);
      if parsed.Err? {
        return false;
      }
      NfsSource.SourceExactly(source, parsed.value.server, parsed.value.exportPath, isIP);
      var share := Read(req.labels, FileShareIDLabel);
      GrantedPort(manager.Memory(), manager.range, share, a.ensure);
      var tunnel := manager.EnsureTunnel(share, parsed.value.server, a.ensure);
      if tunnel.Err? {
        return false;
      }
      var mountSource := "127.0.0.1:" + parsed.value.exportPath;
      var options := req.flags + ["port=" + Decimal(tunnel.value)];
      ok := ProcessMount(mountSource, req.target, "nfs4", "", options, a.mount);
    }

    /**
     NodePublishVolume: an already mounted target is a success; else the mode of the labels decides what is mounted.
     */
    method NodePublishVolume(req: PublishRequest, a: PublishAnswers) returns (ok: bool)
      requires Valid()
      modifies this`mounts, if manager == null then {} else {manager}
      ensures Valid()
      ensures BadRequest(req) || !a.query ==> !ok && mounts == old(mounts)
      ensures req.volumeID == "" || req.target == "" || !req.capabilityOk ==> !ok && mounts == old(mounts)
      ensures ServerPathLabel !in req.labels || req.labels[ServerPathLabel] == "" ==> !ok && mounts == old(mounts)
      ensures !BadRequest(req) && a.query && req.target in old(mounts) ==> ok && mounts == old(mounts)
      ensures !BadRequest(req) && a.query && req.target !in old(mounts) && !ModeOf(req.labels).tunnelled ==>
                MountEffect(old(mounts), mounts, ok, req.target, DirectEntry(req), a.mount)
      ensures BadRequest(req) || !a.query || req.target in old(mounts) || !ModeOf(req.labels).tunnelled ==>
                manager != null ==> manager.Snapshot() == old(manager.Snapshot())
      ensures !BadRequest(req) && a.query && req.target !in old(mounts) && ModeOf(req.labels).tunnelled ==>
                && (manager == null ==> !ok && mounts == old(mounts))
                && (manager != null ==>
                      var source := NfsSource.SplitNFSSource(Read(req.labels, ServerPathLabel), isIP);
                      TunnelPublished(req, a, ok, old(mounts), mounts, source, old(manager.Snapshot()),
                                      manager.Snapshot()))
      ensures ok && req.target !in old(mounts) ==>
                && req.target in mounts && ServerPathLabel in req.labels
                && mounts == old(mounts)[req.target := mounts[req.target]]
      ensures ok && req.target !in old(mounts) && !(EITLabel in req.labels && req.labels[EITLabel] == "true") ==>
                mounts[req.target] == MountEntry(req.labels[ServerPathLabel], "nfs", "", req.flags)
      ensures ok && req.target !in old(mounts) && EITLabel in req.labels && req.labels[EITLabel] == "true" &&
              ProfileLabel in req.labels && req.labels[ProfileLabel] == "dp2" ==>
                mounts[req.target] == MountEntry(req.labels[ServerPathLabel], "ibmshare", "ipsec", [])
      ensures ok && req.target !in old(mounts) && EITLabel in req.labels && req.labels[EITLabel] == "true" &&
              ProfileLabel in req.labels && req.labels[ProfileLabel] == "rfs" ==>
                && manager != null && FileShareIDLabel in req.labels
                && ThroughTunnel(mounts[req.target], req.labels[ServerPathLabel], req.flags,
                                 manager.allocatedPorts, req.labels[FileShareIDLabel])
      ensures !ok && a.mount.query && a.mount.unmount ==> mounts == old(mounts)
      ensures mounts == old(mounts) || (req.target in mounts && mounts == old(mounts)[req.target := mounts[req.target]])
    {
      var source := Read(req.labels, ServerPathLabel);
      if req.volumeID == "" || source == "" || req.target == "" || !req.capabilityOk || !a.query {
        return false;
      }
      if req.target in mounts {
        return true;
      }
      var profileName, isEITEnabled := Read(req.labels, ProfileLabel), Read(req.labels, EITLabel);
      var fsType, transitEncryption := "nfs", "";
      if isEITEnabled == TRUE && profileName == DP2 {
        transitEncryption := "ipsec";
        fsType := "ibmshare";
      }
      if profileName == RFS && isEITEnabled == TRUE {
        if manager == null {
          return false;
        }
        ok := PublishThroughTunnel(manager, req, a);
        return;
      }
      ok := ProcessMount(source, req.target, fsType, transitEncryption, req.flags, a.mount);
    }

    /**
     NodeUnpublishVolume: unmount first, then let the manager decide about the tunnel of the share named in the id.
     */
    method NodeUnpublishVolume(volumeID: string, target: string, cleanup: Cleanup, answers: RemoveAnswers)
      returns (ok: bool)
      requires Valid()
      modifies this`mounts, if manager == null then {} else {manager}
      ensures Valid()
      ensures volumeID == "" || target == "" ==> !ok && mounts == old(mounts)
      ensures volumeID != "" && target != "" ==>
                mounts == if cleanup.ok || cleanup.gone then old(mounts) - {target} else old(mounts)
      ensures volumeID == "" || target == "" || !cleanup.ok ==>
                !ok && (manager != null ==> manager.Snapshot() == old(manager.Snapshot()))
      ensures ok && manager != null ==>
                var share := GetTokens(volumeID)[0];
                share != "" && (share in manager.allocatedPorts ==>
                                  InUseNow(answers, manager.allocatedPorts[share]))
      ensures volumeID != "" && target != "" && cleanup.ok ==>
                && (manager == null ==> ok)
                && (manager != null ==>
                      TunnelDropped(ShareOf(volumeID), answers, ok, old(manager.Snapshot()), manager.Snapshot()))
    {
      if volumeID == "" || target == "" {
        return false;
      }
      if cleanup.ok || cleanup.gone {
        mounts := mounts - {target};
      }
      if !cleanup.ok {
        return false;
      }
      if manager != null {
        ok := manager.RemoveTunnel(GetTokens(volumeID)[0], answers);
        return;
      }
      return true;
    }
  }

  /** The mount table shows the port, or cannot be read. */
  ghost predicate InUseNow(answers: RemoveAnswers, p: int) {
    answers.mounts.None? || (p >= 0 && MountTable.TextMatches(answers.mounts.value, p))
  }

  /** RemoveTunnel on the share; an empty share id is an error. */
  ghost predicate TunnelDropped(share: string, answers: RemoveAnswers, ok: bool, m: Tunnels, m': Tunnels) {
    if share == "" then !ok && m' == m
    else
      var env := Answers(m.memory.maps.ports, share, answers);
      var (c, done) := RemoveCall(m.memory, share, env);
      && ok == done && m'.memory == c.(files := map[])
      && m'.dir == RemoveDir(m.dir, m.memory, share, env)
  }

  /**
   From the request to the mount: with the requested profile returned,
       the labels printed for an accepted request lead to
   an ibmshare mount with ipsec for dp2 with EIT, to a tunnel for rfs with EIT, and to a plain nfs mount without EIT.
   */
  lemma AcceptedRequestMounts(
    labels: Labels, req: Request, policy: Policy, created: Share, ap: AccessPoint, site: Site, preq: PublishRequest)
    requires PrintedFor(labels, req, policy, created, ap, site) && created.profile == Some(ProfileOf(req))
    requires preq.labels == labels
    ensures Profile in req.parameters
    ensures var eit, direct := AsksEIT(req), DirectEntry(preq);
            && (!eit ==> !ModeOf(labels).tunnelled && direct == MountEntry(ap.mountPath, "nfs", "", preq.flags))
            && (eit && req.parameters[Profile] == "dp2" ==>
                  !ModeOf(labels).tunnelled && direct == MountEntry(ap.mountPath, "ibmshare", "ipsec", []))
            && (eit && req.parameters[Profile] == "rfs" ==> ModeOf(labels).tunnelled)
  {
    MapsCombine(req, policy.supported, policy.defaultGroup);
    ModesAgree(labels, req, policy, created, ap, site);
  }

  /** A granted port is the share's own. */
  lemma GrantedPort(c: Core, r: PortRange, share: string, env: EnsureEnv)
    requires InRange(c.maps, r) && 0 <= r.lo
    ensures var (c', port) := EnsureCall(c, r, share, env);
            port.Some? ==> share in c'.maps.ports && c'.maps.ports[share] == port.value && r.Has(port.value)
  {
    PickedIsFree(c.maps.owners, env.busy, r);
  }

  /** A tunnelled publish: the share gets its tunnel first, and what is mounted goes through the share's own port. */
  ghost predicate TunnelPublished(
    req: PublishRequest, a: PublishAnswers, ok: bool, before: Mounts, after: Mounts, source: Result<NfsSource.Source>,
    m: Tunnels, m': Tunnels)
    requires 0 <= m.range.lo
  {
    var share := Read(req.labels, FileShareIDLabel);
    if source.Err? || share == "" then !ok && after == before && m' == m
    else
      var (c, port) := EnsureCall(m.memory, m.range, share, a.ensure);
      && m'.memory == c.(files := map[])
      && m'.dir == EnsureDir(m.dir, m.memory, m.range, share, source.value.server, m.settings, a.ensure)
      && (port.None? ==> !ok && after == before)
      && (port.Some? ==>
            && share in m'.memory.maps.ports && m'.memory.maps.ports[share] == port.value >= 0
            && MountEffect(before, after, ok, req.target, TunnelEntry(req, source.value.exportPath, port.value),
                           a.mount))
  }

  // ------------------------------------------------------------------
  // Text of the mount table, volume id and tunnel together
  // ------------------------------------------------------------------

  lemma {:induction false} OptionText(flags: seq<string>, last: string)
    ensures Join(flags + [last], ',') == MountTable.FlagText(flags) + last
  {
    if flags == [] {
      assert flags + [last] == [last];
    } else {
      OptionText(flags[1..], last);
      assert (flags + [last])[1..] == flags[1..] + [last];
      var rest := MountTable.FlagText(flags[1..]);
      assert flags[0] + [','] + (rest + last) == flags[0] + "," + rest + last;
    }
  }

  /** A tunnelled publish puts into the table the line that the in-use test is proved for. */
  lemma PublishedLine(req: PublishRequest, path: string, p: nat)
    ensures var e := TunnelEntry(req, path, p);
            MountTable.MountLine(MountTable.TunnelMount(path, req.target, req.flags, p, [])) ==
            e.source + " " + req.target + " " + e.fsType + " " + Join(e.options, ',') + " 0 0"
  {
    OptionText(req.flags, "port=" + Decimal(p));
  }

  /** The mount table can be read. */
  function Readable(table: seq<MountTable.Entry>, reloads: bool, deletes: bool): RemoveAnswers {
    RemoveAnswers(Some(MountTable.TableText(table)), reloads, deletes)
  }

  /** Regular lines, tunnels within the range, and no port of the range beginning another. */
  ghost predicate GoodTable(table: seq<MountTable.Entry>, r: PortRange) {
    0 <= r.lo && MountTable.RegularTable(table) && MountTable.InRange(table, r) && MountTable.PrefixFree(r)
  }

  /** The share's tunnel is mounted through. */
  ghost predicate Mounted(c: Core, share: string, table: seq<MountTable.Entry>) {
    share in c.maps.ports && c.maps.ports[share] >= 0 && MountTable.Uses(table, c.maps.ports[share])
  }

  /** The answer of the in-use test on a good table is whether the share's port is used. */
  lemma AnswerIsExact(c: Core, r: PortRange, share: string, table: seq<MountTable.Entry>, reloads: bool, deletes: bool)
    requires AtRest(c, r) && GoodTable(table, r)
    ensures Answers(c.maps.ports, share, Readable(table, reloads, deletes)).inUse <==> Mounted(c, share, table)
  {
    if share in c.maps.ports {
      MountTable.InUseExactly(table, r, c.maps.ports[share]);
    }
  }

  /** RemoveTunnel with the mount table's text: what an error and a success leave. */
  lemma UnpublishShare(
    c: Core, r: PortRange, share: string, table: seq<MountTable.Entry>, reloads: bool, deletes: bool)
    requires AtRest(c, r) && GoodTable(table, r)
    ensures var (c', ok) := RemoveCall(c, share, Answers(c.maps.ports, share, Readable(table, reloads, deletes)));
            && AtRest(c', r)
            && (!ok ==> c'.maps == c.maps && c'.files == c.files)
            && (ok ==> (share in c'.maps.ports <==> Mounted(c, share, table)))
            && (ok ==> (share in c'.files <==> Mounted(c, share, table)))
            && (forall other | other != share :: other in c'.maps.ports <==> other in c.maps.ports)
  {
    var env := Answers(c.maps.ports, share, Readable(table, reloads, deletes));
    AnswerIsExact(c, r, share, table, reloads, deletes);
    RemoveKeepsRest(c, r, share, env);
    if !RemoveCall(c, share, env).1 {
      FailedRemoveChangesNothing(c, share, env);
    }
  }

  /**
   No leak: unpublishing with the id printed for a share (no '#' in it) works on that share's own tunnel.  An error
   changes neither maps nor directory; after a success the share has a port and a config file exactly if a line of the
   table still mounts through its port.
   */
  lemma UnpublishLeavesNothing(
    c: Core, r: PortRange, share: string, accessPoint: string, table: seq<MountTable.Entry>, reloads: bool,
    deletes: bool)
    requires AtRest(c, r) && GoodTable(table, r) && '#' !in share
    ensures var v := ShareOf(Printed(share, accessPoint));
            var (c', ok) := RemoveCall(c, v, Answers(c.maps.ports, v, Readable(table, reloads, deletes)));
            && AtRest(c', r)
            && (!ok ==> c'.maps == c.maps && c'.files == c.files)
            && (ok ==> (share in c'.maps.ports <==> Mounted(c, share, table)))
            && (ok ==> (share in c'.files <==> Mounted(c, share, table)))
            && (forall other | other != share :: other in c'.maps.ports <==> other in c.maps.ports)
  {
    ShareExactly(share, accessPoint);
    UnpublishShare(c, r, share, table, reloads, deletes);
  }

  /** The same for an id in the old format. */
  lemma UnpublishOldId(
    c: Core, r: PortRange, share: string, accessPoint: string, table: seq<MountTable.Entry>, reloads: bool,
    deletes: bool)
    requires AtRest(c, r) && GoodTable(table, r) && '#' !in share && '#' !in accessPoint && ':' !in share
    ensures var v := ShareOf(share + ":" + accessPoint);
            var (c', ok) := RemoveCall(c, v, Answers(c.maps.ports, v, Readable(table, reloads, deletes)));
            && AtRest(c', r)
            && (!ok ==> c'.maps == c.maps && c'.files == c.files)
            && (ok ==> (share in c'.maps.ports <==> Mounted(c, share, table)))
            && (ok ==> (share in c'.files <==> Mounted(c, share, table)))
  {
    OldShareExactly(share, accessPoint);
    UnpublishShare(c, r, share, table, reloads, deletes);
  }
}
