/** CreateVolume and DeleteVolume as an object's methods: the order of the source's checks and provider calls. */
module Controller {
  import opened Wrappers
  import opened Text
  import opened Capacity
  import opened VolumeId
  import opened VolumeParameters
  import opened VolumeRequest
  import opened VolumeContext
  import Provisioning

  datatype Setup = Setup(policy: Policy, rfsEnabled: bool, clusterID: string, region: string)

  /** Answers from outside during one CreateVolume; an empty subnet or group means that none was found. */
  datatype Env = Env(
    session: bool, sourceOk: bool, subnet: string, group: string, calls: Provisioning.CreateAnswers, share: Share,
    mountPath: string)

  datatype Response = Response(id: string, capacityBytes: int, labels: Labels)

  /** In security-group mode, without a subnet and without the id of a reserved IP. */
  predicate NeedsSubnet(wanted: Volume) {
    && wanted.guard.accessMode == SecurityGroup && wanted.place.subnetID == ""
    && !(wanted.guard.primaryIP.Some? && wanted.guard.primaryIP.value.ById? && wanted.guard.primaryIP.value.id != "")
  }

  predicate Reachable(wanted: Volume, env: Env) {
    NeedsSubnet(wanted) ==> env.subnet != ""
  }

  /** The subnet as requested, else as found. */
  function SubnetFor(wanted: Volume, env: Env): string {
    if NeedsSubnet(wanted) then env.subnet else wanted.place.subnetID
  }

  /** The security groups as requested, else, in security-group mode, the cluster's own if there is one. */
  function GroupsFor(wanted: Volume, env: Env): Option<seq<string>> {
    if wanted.place.securityGroups.Some? || wanted.guard.accessMode == Vpc || env.group == ""
    then wanted.place.securityGroups
    else Some([env.group])
  }

  /** The checks before the first provider call. */
  predicate Admitted(setup: Setup, name: string, req: Request, capabilitiesOk: bool, env: Env) {
    && name != "" && capabilitiesOk
    && Accepted(req, setup.policy.supported, setup.policy.defaultGroup)
    && (ProfileOf(req) == RFS ==> setup.rfsEnabled)
    && env.session && env.sourceOk
  }

  /** An admitted CreateVolume as a run of provider steps. */
  ghost function Run(setup: Setup, store: Provisioning.Store, name: string, req: Request, capabilitiesOk: bool,
                     env: Env)
    : (Provisioning.Store, Provisioning.Call)
    requires Admitted(setup, name, req, capabilitiesOk, env)
  {
    var wanted := Wanted(req, setup.policy.supported, setup.policy.defaultGroup);
    Provisioning.CreateCall(store, name, wanted.capacity, env.calls.(network := Reachable(wanted, env)))
  }

  /** The response names the call's volume and access point and carries the labels printed for the request. */
  ghost predicate Answered(setup: Setup, c: Provisioning.Call, req: Request, env: Env, response: Response) {
    && c.vol.Some? && c.point.Some? && response.id == Printed(c.vol.value, c.point.value)
    && Accepted(req, setup.policy.supported, setup.policy.defaultGroup)
    && RequestedCapacity(req.range, ProfileOf(req)) == Ok(response.capacityBytes)
    && var wanted := Wanted(req, setup.policy.supported, setup.policy.defaultGroup);
    var site := Site(SubnetFor(wanted, env), GroupsFor(wanted, env), setup.clusterID, setup.region);
    var ap := AccessPoint(c.point.value, env.mountPath);
    PrintedFor(response.labels, req, setup.policy, env.share.(id := c.vol.value), ap, site)
  }

  /**
   The network in the response's labels: the requested subnet,
       else the one found unless a reserved IP is named by its id;
   the requested groups, else the cluster's own if there is one; the cluster and the region as configured.
   */
  lemma NetworkInLabels(setup: Setup, c: Provisioning.Call, req: Request, env: Env, response: Response)
    requires Answered(setup, c, req, env, response) && AsksENI(req)
    ensures var labels := response.labels;
            && ENISubnetLabel in labels
            && labels[ENISubnetLabel] ==
               (if LatestGiven(req, SubnetID) != "" then LatestGiven(req, SubnetID)
                else if LatestGiven(req, PrimaryIPID) != "" then "" else env.subnet)
            && (ENISecurityGroupsLabel in labels <==> LatestGiven(req, SecurityGroupIDs) != "" || env.group != "")
            && (LatestGiven(req, SecurityGroupIDs) != "" ==>
                  labels[ENISecurityGroupsLabel] == TrimSpace(LatestGiven(req, SecurityGroupIDs)))
            && (LatestGiven(req, SecurityGroupIDs) == "" && env.group != "" ==>
                  labels[ENISecurityGroupsLabel] == env.group)
            && ClusterIDLabel in labels && labels[ClusterIDLabel] == setup.clusterID
            && RegionLabel in labels && labels[RegionLabel] == if env.share.region != "" then env.share.region
                                                               else setup.region
  {
    var wanted := Wanted(req, setup.policy.supported, setup.policy.defaultGroup);
    var created := Patched(env.share.(id := c.vol.value), wanted, SubnetFor(wanted, env), GroupsFor(wanted, env));
    var ap := AccessPoint(c.point.value, env.mountPath);
    ModesWanted(req, setup.policy.supported, setup.policy.defaultGroup);
    NetworkWanted(req, setup.policy.supported, setup.policy.defaultGroup);
    PrimaryIPWanted(req, setup.policy.supported, setup.policy.defaultGroup);
    LabelsSay(response.labels, created, ap, setup.clusterID, setup.region);
    AccessLabelsSay(response.labels, created, ap, setup.clusterID, setup.region);
    SplitThenJoin(TrimSpace(LatestGiven(req, SecurityGroupIDs)), ',');
    assert Join([env.group], ',') == env.group;
  }

  /** The response names volume and access point, has the accepted size, and its labels name the same. */
  lemma ResponseSays(setup: Setup, c: Provisioning.Call, req: Request, env: Env, response: Response)
    requires Answered(setup, c, req, env, response)
    ensures c.vol.Some? && c.point.Some? && response.id == c.vol.value + "#" + c.point.value
    ensures Profile in req.parameters
    ensures RequestedCapacity(req.range, req.parameters[Profile]) == Ok(response.capacityBytes)
    ensures VolumeIDLabel in response.labels && response.labels[VolumeIDLabel] == response.id
    ensures FileShareIDLabel in response.labels && response.labels[FileShareIDLabel] == c.vol.value
    ensures ServerPathLabel in response.labels && response.labels[ServerPathLabel] == env.mountPath
  {
    var wanted := Wanted(req, setup.policy.supported, setup.policy.defaultGroup);
    var created := Patched(env.share.(id := c.vol.value), wanted, SubnetFor(wanted, env), GroupsFor(wanted, env));
    LabelsSay(response.labels, created, AccessPoint(c.point.value, env.mountPath), setup.clusterID, setup.region);
  }

  /** Which requests reach the provider. */
  lemma AdmittedExactly(setup: Setup, name: string, req: Request, capabilitiesOk: bool, env: Env)
    ensures Admitted(setup, name, req, capabilitiesOk, env) <==>
            && name != "" && capabilitiesOk && env.session && env.sourceOk
            && Accepted(req, setup.policy.supported, setup.policy.defaultGroup)
            && (req.parameters[Profile] == "rfs" ==> setup.rfsEnabled)
  {
  }

  /** When a subnet has to be found: in security-group mode, without a subnet and without the id of a reserved IP. */
  lemma ReachableExactly(req: Request, policy: Policy, env: Env)
    requires Accepted(req, policy.supported, policy.defaultGroup)
    ensures Reachable(Wanted(req, policy.supported, policy.defaultGroup), env) <==>
            !AsksENI(req) || LatestGiven(req, SubnetID) != "" || LatestGiven(req, PrimaryIPID) != "" || env.subnet != ""
  {
    ModesWanted(req, policy.supported, policy.defaultGroup);
    NetworkWanted(req, policy.supported, policy.defaultGroup);
    PrimaryIPWanted(req, policy.supported, policy.defaultGroup);
  }

  class Controller {
    const setup: Setup
    var store: Provisioning.Store   // at the provider

    constructor (setup: Setup, store: Provisioning.Store)
      ensures this.setup == setup && this.store == store
    {
      this.setup := setup;
      this.store := store;
    }

    /** CreateVolume from the creation of the volume on; `existing` is what the lookup found. */
    method ObtainShare(name: string, capacity: int, existing: Option<Provisioning.Vol>, a: Provisioning.CreateAnswers)
      returns (r: Option<(string, string)>)
      requires a.network
      modifies this`store
      ensures var (s, c) := Provisioning.FromNetwork((old(store), Provisioning.Looked(name, capacity, existing)), a);
              && store == s && (r.Some? <==> c.at.Created?)
              && (r.Some? ==> c.vol == Some(r.value.0) && c.point == Some(r.value.1))
      ensures r.Some? && existing.Some? ==> r.value.0 == existing.value.id
    {
      var volumeObj: Provisioning.Vol;
      if existing.Some? {
        volumeObj := existing.value;
      } else {
        if a.make == Provisioning.Refused || !store.CanMake(name, a.v, a.ps) {
          return None;
        }
        store := store.Make(name, capacity, a.v, a.ps);
        if a.make == Provisioning.Lost {
          return None;
        }
        volumeObj := Provisioning.Vol(a.v, capacity, a.ps);
      }
      var accessPoint: string;
      if volumeObj.points != [] {
        accessPoint := volumeObj.points[0];
      } else {
        var made := MakeAccessPoint(volumeObj.id, a);
        if made.None? {
          return None;
        }
        accessPoint := made.value;
      }
      if !a.wait || accessPoint !in store.Points(volumeObj.id) {
        return None;
      }
      return Some((volumeObj.id, accessPoint));
    }

    /** session.CreateVolumeAccessPoint: an access point that exists already is returned. */
    method MakeAccessPoint(v: string, a: Provisioning.CreateAnswers) returns (point: Option<string>)
      modifies this`store
      ensures forall c: Provisioning.Call | c.at.Pointing? && c.vol == Some(v) ::
                var (s, c') := Provisioning.Act(old(store), c, Provisioning.MakePoint(a.p, a.point));
                && store == s && (point.Some? <==> c'.at.Awaiting?)
                && c' == if point.Some? then c.(at := Provisioning.Awaiting, point := point)
                         else c.(at := Provisioning.Rejected)
    {
      if a.point == Provisioning.Refused || !store.Has(v) {
        return None;
      }
      if store.Points(v) != [] {
        return if a.point == Provisioning.Done then Some(store.Points(v)[0]) else None;
      }
      if a.p in store.owners {
        return None;
      }
      store := store.AddPoint(v, a.p);
      return if a.point == Provisioning.Done then Some(a.p) else None;
    }

    /** CreateVolume up to the first provider call. */
    method Admit(name: string, req: Request, capabilitiesOk: bool, order: seq<Key>, secretOrder: seq<Key>, env: Env)
      returns (r: Result<Volume>)
      requires Orders(order, req.parameters) && Orders(secretOrder, req.secrets)
      ensures r.Ok? <==> Admitted(setup, name, req, capabilitiesOk, env)
      ensures r.Ok? ==> r.value == Wanted(req, setup.policy.supported, setup.policy.defaultGroup)
    {
      if name == "" {
        return Err("missing volume name");
      }
      if !capabilitiesOk {
        return Err("volume capabilities missing or not supported");
      }
      var parsed := GetVolumeParameters(req, setup.policy.supported, setup.policy.defaultGroup, order, secretOrder);
      if parsed.Err? {
        return Err(parsed.reason);
      }
      if parsed.value.profile == RFS && !setup.rfsEnabled {
        return Err("profile not allowlisted");
      }
      if !env.session || !env.sourceOk {
        return Err("no session, or unsupported content source");
      }
      return parsed;
    }

    /** Subnet and security groups for the access point. */
    method ChooseNetwork(requested: Volume, env: Env) returns (r: Option<(string, Option<seq<string>>)>)
      ensures r.Some? <==> Reachable(requested, env)
      ensures r.Some? ==> r.value == (SubnetFor(requested, env), GroupsFor(requested, env))
    {
      var subnetID, groups := requested.place.subnetID, requested.place.securityGroups;
      if requested.guard.accessMode == SecurityGroup {
        if subnetID == "" && (requested.guard.primaryIP.None? || requested.guard.primaryIP.value.ByAddress?
                              || requested.guard.primaryIP.value.id == "") {
          if env.subnet == "" {
            return None;
          }
          subnetID := env.subnet;
        }
        if groups.None? && env.group != "" {
          groups := Some([env.group]);
        }
      }
      return Some((subnetID, groups));
    }

    /**
     CreateVolume: the provider is called only for an admitted request, and the response is printed for that
     request.
     */
    method CreateVolume(name: string, req: Request, capabilitiesOk: bool, order: seq<Key>, secretOrder: seq<Key>,
                        env: Env)
      returns (r: Result<Response>)
      requires Orders(order, req.parameters) && Orders(secretOrder, req.secrets)
      modifies this`store
      ensures !Admitted(setup, name, req, capabilitiesOk, env) ==> r.Err? && store == old(store)
      ensures Admitted(setup, name, req, capabilitiesOk, env) ==>
                var (s, c) := Run(setup, old(store), name, req, capabilitiesOk, env);
                && store == s && (r.Ok? <==> c.at.Created?)
                && (r.Ok? ==> Answered(setup, c, req, env, r.value))
    {
      var admitted := Admit(name, req, capabilitiesOk, order, secretOrder, env);
      if admitted.Err? {
        return Err(admitted.reason);
      }
      var requested := admitted.value;
      ghost var a := env.calls.(network := Reachable(requested, env));
      Provisioning.LookupOutcome(store, name, requested.capacity, a);
      var existing: Option<Provisioning.Vol> := None;
      if env.calls.find == Provisioning.Answers && name in store.vols {
        existing := Some(store.vols[name]);
        if existing.value.capacity != requested.capacity {
          return Err("volume already exists");
        }
      }
      var network := ChooseNetwork(requested, env);
      if network.None? {
        return Err("no subnet");
      }
      var share := ObtainShare(name, requested.capacity, existing, env.calls.(network := true));
      if share.None? {
        return Err("backend error");
      }
      var (v, accessPoint) := share.value;
      var created := env.share.(id := v);
      created := created.(accessMode := requested.guard.accessMode, transit := requested.guard.transit);
      created := created.(securityGroups := network.value.1, subnetID := network.value.0);
      assert created == Patched(env.share.(id := v), requested, network.value.0, network.value.1);
      var id, labels := CreateCSIVolumeResponse(created, AccessPoint(accessPoint, env.mountPath), setup.clusterID,
                                                setup.region);
      WholeCapacity(req.range, requested.profile);
      return Ok(Response(id, requested.capacity * GIB, labels));
    }

    /** DeleteVolume. */
    method DeleteVolume(volumeID: string, session: bool, a: Provisioning.DeleteAnswers) returns (ok: bool)
      modifies this`store
      ensures volumeID == "" || !session ==> !ok && store == old(store)
      ensures volumeID != "" && session ==>
                var (s, c) := Provisioning.DeleteCall(old(store), volumeID, a); store == s && (ok <==> c.at.Deleted?)
    {
      if volumeID == "" || !session {
        return false;
      }
      Provisioning.CheckOutcome(store, volumeID, a);
      var tokens := GetTokens(volumeID);
      if |tokens| != 2 {
        return false;
      }
      var v, accessPoint := tokens[0], tokens[1];
      if v != "" && (a.find == Provisioning.Absent || (a.find == Provisioning.Answers && !store.Has(v))) {
        return true;
      }
      ok := DropAll(v, accessPoint, a);
    }

    /** DeleteVolume after its lookup: access point, wait, volume. */
    method DropAll(v: string, accessPoint: string, a: Provisioning.DeleteAnswers) returns (ok: bool)
      modifies this`store
      ensures var c := Provisioning.Call(Provisioning.DroppingPoint, "", 0, Some(v), Some(accessPoint));
              var (s, c') := Provisioning.FromDropPoint((old(store), c), a);
              store == s && (ok <==> c'.at.Deleted?)
    {
      Provisioning.DropOutcome(store, v, accessPoint, a);
      if a.drop {
        store := store.DropPoint(v, accessPoint);
      }
      if !a.dropOk {
        return false;
      }
      if a.late {
        store := store.DropPoint(v, accessPoint);
      }
      if !a.waitOk || accessPoint in store.Points(v) {
        return false;
      }
      if a.delete {
        store := store.DropVolume(v);
      }
      return a.deleteOk && !store.Has(v);
    }
  }
}
