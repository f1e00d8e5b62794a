/** getVolumeParameters as a whole: both parameter passes, the size, and the checks between them. */
module VolumeRequest {
  import opened Wrappers
  import opened Text
  import opened Capacity
  import opened VolumeParameters

  /** The two labels that the driver reads from a topology. */
  datatype Segment = Segment(region: string, zone: string)

  datatype Request = Request(
    parameters: Params, secrets: Params, range: Option<CapacityRange>, hasCapabilities: bool, fromSnapshot: bool,
    preferred: seq<Option<Segment>>)

  datatype Owner = Owner(uid: int, gid: int)

  datatype Volume = Volume(
    profile: string, place: Place, guard: Guard, iops: Option<string>, bandwidth: int, owner: Option<Owner>,
    capacity: int)

  predicate Blank(s: string) {
    TrimSpace(s) == ""
  }

  /** encrypted = "false" drops the key seen so far; the loop variable ends with its loop. */
  function KeyDropped(d: Draft): Draft {
    d.WithGuard(d.guard.(encrypt := None, encryptionKey := if d.guard.encrypt == Some(FALSE) then None
                else d.guard.encryptionKey))
  }

  /** The resource group of the configuration stands in for a missing one. */
  function Grouped(d: Draft, defaultGroup: string): Draft {
    if d.guard.resourceGroup.None? || d.guard.resourceGroup.value == ""
    then d.WithGuard(d.guard.(resourceGroup := Some(defaultGroup))) else d
  }

  predicate NetworkOk(d: Draft, profile: string) {
    d.guard.accessMode == SecurityGroup ==>
      && (profile == DP2 && (Blank(d.place.az) || Blank(d.place.region)) ==> d.place.subnetID == ""
                                                                             && d.guard.primaryIP.None?)
      && (d.guard.primaryIP.Some? && d.guard.primaryIP.value.ByAddress? && d.guard.primaryIP.value.address != ""
          ==> d.place.subnetID != "")
  }

  predicate ProfileOk(d: Draft, profile: string) {
    && (profile == DP2 ==> d.extra.bandwidth <= 0)
    && (profile == RFS ==> (d.extra.iops.None? || Blank(d.extra.iops.value)) && Blank(d.place.az))
  }

  /** Position i holds the first segment. */
  ghost predicate FirstAt(preferred: seq<Option<Segment>>, i: int) {
    0 <= i < |preferred| && preferred[i].Some? && forall j :: 0 <= j < i ==> preferred[j].None?
  }

  /** getPrefedTopologyParams: the first preferred topology with segments. */
  function FirstSegment(preferred: seq<Option<Segment>>): (s: Option<Segment>)
    ensures s.None? <==> forall i :: 0 <= i < |preferred| ==> preferred[i].None?
    ensures s.Some? ==> exists i :: FirstAt(preferred, i) && preferred[i] == s
  {
    if preferred == [] then None
    else if preferred[0].Some? then
      assert FirstAt(preferred, 0);
      preferred[0]
    else
      var rest := preferred[1..];
      var s := FirstSegment(rest);
      assert forall i :: 1 <= i < |preferred| ==> preferred[i] == rest[i - 1];
      assert s.Some? ==> exists i :: FirstAt(preferred, i) && preferred[i] == s by {
        if s.Some? {
          var i :| FirstAt(rest, i) && rest[i] == s;
          assert FirstAt(preferred, i + 1);
        }
      }
      s
  }

  function TransitFor(transit: Transit, profile: string): Transit {
    if transit == UserManaged && profile == DP2 then Ipsec
    else if transit == UserManaged && profile == RFS then Stunnel
    else NoTransit
  }

  // ------------------------------------------------------------------
  // Meaning of a request
  // ------------------------------------------------------------------

  function AfterParameters(req: Request): Draft {
    KeyDropped(Filled(EMPTY, req.parameters))
  }

  function AfterSecrets(req: Request, defaultGroup: string): Draft {
    KeyDropped(Grouped(Filled(AfterParameters(req), req.secrets), defaultGroup))
  }

  function ProfileOf(req: Request): string {
    if Profile in req.parameters then req.parameters[Profile] else ""
  }

  predicate NeedsTopology(d: Draft, profile: string) {
    profile == DP2 && Blank(d.place.az)
  }

  /** The checks on the filled-in volume. */
  predicate Fits(d: Draft, profile: string, preferred: seq<Option<Segment>>) {
    && NetworkOk(d, profile)
    && (d.guard.transit == UserManaged ==> d.guard.accessMode == SecurityGroup)
    && ProfileOk(d, profile)
    && (NeedsTopology(d, profile) ==> FirstSegment(preferred).Some?)
  }

  /** A dp2 volume without a zone takes zone and region from the topology, both from the same segment. */
  function Placed(d: Draft, profile: string, preferred: seq<Option<Segment>>): Place
    requires NeedsTopology(d, profile) ==> FirstSegment(preferred).Some?
  {
    if NeedsTopology(d, profile)
    then d.place.(region := FirstSegment(preferred).value.region, az := FirstSegment(preferred).value.zone)
    else d.place
  }

  function OwnerOf(d: Draft, fromSnapshot: bool): Option<Owner> {
    if (d.extra.uid != 0 || d.extra.gid != 0) && !fromSnapshot then Some(Owner(d.extra.uid, d.extra.gid)) else None
  }

  /** Everything that getVolumeParameters demands. */
  predicate Accepted(req: Request, supported: string -> bool, defaultGroup: string) {
    var d := AfterSecrets(req, defaultGroup);
    var profile := ProfileOf(req);
    && ParamsOk(req.parameters, supported) && Profile in req.parameters
    && RequestedCapacity(req.range, profile).Ok?
    && SecretsOk(AfterParameters(req), req.secrets)
    && req.hasCapabilities
    && Fits(d, profile, req.preferred)
  }

  /** The volume that an accepted request asks for. */
  function Wanted(req: Request, supported: string -> bool, defaultGroup: string): Volume
    requires Accepted(req, supported, defaultGroup)
  {
    var d := AfterSecrets(req, defaultGroup);
    var profile := ProfileOf(req);
    Volume(
      profile, Placed(d, profile, req.preferred), d.guard.(transit := TransitFor(d.guard.transit, profile)),
      d.extra.iops, d.extra.bandwidth, OwnerOf(AfterParameters(req), req.fromSnapshot),
      BytesToGiB(RequestedCapacity(req.range, profile).value))
  }

  /** overrideParams. */
  method OverrideParams(base: Draft, secrets: Params, defaultGroup: string, order: seq<Key>) returns (r: Result<Draft>)
    requires Orders(order, secrets)
    ensures r.Ok? <==> SecretsOk(base, secrets)
    ensures r.Ok? ==> r.value == KeyDropped(Grouped(Filled(base, secrets), defaultGroup))
  {
    var read := ReadSecrets(base, secrets, order);
    if read.None? {
      return Err("invalid secret");
    }
    var d := read.value;
    if d.guard.resourceGroup.None? || d.guard.resourceGroup.value == "" {
      d := d.WithGuard(d.guard.(resourceGroup := Some(defaultGroup)));
    }
    if d.guard.encrypt == Some(FALSE) {
      d := d.WithGuard(d.guard.(encryptionKey := None));
    }
    d := d.WithGuard(d.guard.(encrypt := None));
    return Ok(d);
  }

  /** The checks and the choice of a zone at the end of getVolumeParameters. */
  method CheckAndPlace(d: Draft, profile: string, preferred: seq<Option<Segment>>) returns (r: Result<Place>)
    ensures r.Ok? <==> Fits(d, profile, preferred)
    ensures r.Ok? ==> r.value == Placed(d, profile, preferred)
  {
    if d.guard.accessMode == SecurityGroup {
      if profile == DP2 && (Blank(d.place.az) || Blank(d.place.region))
         && (d.place.subnetID != "" || d.guard.primaryIP.Some?) {
        return Err("zone and region are mandatory");
      }
      if d.place.subnetID == "" && d.guard.primaryIP.Some? && d.guard.primaryIP.value.ByAddress?
         && d.guard.primaryIP.value.address != "" {
        return Err("subnetID is mandatory");
      }
    }
    if d.guard.transit == UserManaged && d.guard.accessMode != SecurityGroup {
      return Err("ENI must be enabled for EIT");
    }
    if profile == DP2 && d.extra.bandwidth > 0 {
      return Err("bandwidth is not supported for dp2");
    }
    if profile == RFS && d.extra.iops.Some? && !Blank(d.extra.iops.value) {
      return Err("iops is not supported for rfs");
    }
    if profile == RFS && !Blank(d.place.az) {
      return Err("zone is not supported for rfs");
    }
    var place := d.place;
    if Blank(d.place.az) && profile == DP2 {
      var zones := FirstSegment(preferred);
      if zones.None? {
        return Err("unable to fetch zone information");
      }
      place := place.(region := zones.value.region, az := zones.value.zone);
    }
    return Ok(place);
  }

  /** getVolumeParameters: the outcome is the same for every iteration order of the two maps. */
  method GetVolumeParameters(
    req: Request, supported: string -> bool, defaultGroup: string, order: seq<Key>, secretOrder: seq<Key>)
    returns (r: Result<Volume>)
    requires Orders(order, req.parameters) && Orders(secretOrder, req.secrets)
    ensures r.Ok? <==> Accepted(req, supported, defaultGroup)
    ensures r.Ok? ==> r.value == Wanted(req, supported, defaultGroup)
  {
    var read := ReadParameters(req.parameters, supported, order);
    if read.None? {
      return Err("invalid parameter");
    }
    var d := read.value;
    if d.guard.encrypt == Some(FALSE) {
      d := d.WithGuard(d.guard.(encryptionKey := None));
    }
    d := d.WithGuard(d.guard.(encrypt := None));
    var owner: Option<Owner> := None;
    if (d.extra.uid != 0 || d.extra.gid != 0) && !req.fromSnapshot {
      owner := Some(Owner(d.extra.uid, d.extra.gid));
    }
    if d.place.profile.None? {
      return Err("volume profile is empty");
    }
    var profile := d.place.profile.value;
    assert profile == ProfileOf(req) && d == AfterParameters(req);
    var capBytes := RequestedCapacity(req.range, profile);
    if capBytes.Err? {
      return Err("invalid capacity");
    }
    var overridden := OverrideParams(d, req.secrets, defaultGroup, secretOrder);
    if overridden.Err? {
      return Err(overridden.reason);
    }
    d := overridden.value;
    if !req.hasCapabilities {
      return Err("volume capabilities are empty");
    }
    var place := CheckAndPlace(d, profile, req.preferred);
    if place.Err? {
      return Err(place.reason);
    }
    var transit := NoTransit;
    if d.guard.transit == UserManaged && profile == DP2 {
      transit := Ipsec;
    } else if d.guard.transit == UserManaged && profile == RFS {
      transit := Stunnel;
    }
    return Ok(Volume(profile, place.value, d.guard.(transit := transit), d.extra.iops, d.extra.bandwidth, owner,
                     BytesToGiB(capBytes.value)));
  }

  // ------------------------------------------------------------------
  // How the two maps combine
  // ------------------------------------------------------------------

  predicate SaysTrue(m: Params, k: Key) {
    k in m && Lower(m[k]) == "true"
  }

  /** EIT is on if either map asks for it: "false" in the secrets does not switch it off. */
  predicate AsksEIT(req: Request) {
    SaysTrue(req.parameters, IsEITEnabled) || SaysTrue(req.secrets, IsEITEnabled)
  }

  /** ENI mode is what the secrets say, else what the parameters say, else on. */
  predicate AsksENI(req: Request) {
    if IsENIEnabled in req.secrets then SaysTrue(req.secrets, IsENIEnabled)
    else IsENIEnabled in req.parameters ==> SaysTrue(req.parameters, IsENIEnabled)
  }

  /** The secret if there is one, even an empty one, else the parameter, else nothing. */
  function Latest(req: Request, k: Key): string {
    if k in req.secrets then req.secrets[k] else if k in req.parameters then req.parameters[k] else ""
  }

  /** The secret if it is not empty, else the parameter. */
  function LatestGiven(req: Request, k: Key): string {
    if k in req.secrets && req.secrets[k] != "" then req.secrets[k]
    else if k in req.parameters then req.parameters[k] else ""
  }

  function OptionOf(value: string): Option<string> {
    if value == "" then None else Some(value)
  }

  /** The key left by one map, given the key before it. */
  function KeyLeft(m: Params, before: Option<string>): Option<string> {
    if Encrypted in m && m[Encrypted] == "false" then None
    else if EncryptionKey in m && m[EncryptionKey] != "" then Some(m[EncryptionKey])
    else before
  }

  /** The modes: IPsec for dp2 with EIT, stunnel for rfs with EIT, and EIT only in security-group mode. */
  lemma ModesWanted(req: Request, supported: string -> bool, defaultGroup: string)
    requires Accepted(req, supported, defaultGroup)
    ensures Profile in req.parameters
    ensures var w, eit := Wanted(req, supported, defaultGroup), AsksEIT(req);
            && w.profile == req.parameters[Profile]
            && (w.guard.transit == Ipsec <==> eit && req.parameters[Profile] == "dp2")
            && (w.guard.transit == Stunnel <==> eit && req.parameters[Profile] == "rfs")
            && (w.guard.transit == NoTransit <==> !eit || (w.profile != "dp2" && w.profile != "rfs"))
            && (w.guard.accessMode == SecurityGroup <==> AsksENI(req))
            && (eit ==> AsksENI(req))
  {
  }

  /**
   The secrets decide over the parameters, except that EIT is an "or" and a primary IP can be given only once over
   both.
   */
  lemma MapsCombine(req: Request, supported: string -> bool, defaultGroup: string)
    requires Accepted(req, supported, defaultGroup)
    ensures var g := Wanted(req, supported, defaultGroup).guard;
            && g.transit == (if AsksEIT(req) then TransitFor(UserManaged, ProfileOf(req)) else NoTransit)
            && g.accessMode == (if AsksENI(req) then SecurityGroup else Vpc)
            && (AsksEIT(req) ==> AsksENI(req))
            && g.encryptionKey == KeyLeft(req.secrets, KeyLeft(req.parameters, None))
            && g.resourceGroup.Some? && g.resourceGroup.value ==
                                        (if Given(req.secrets, ResourceGroup) then req.secrets[ResourceGroup]
                                         else if ResourceGroup !in req.secrets
                                                 && Given(req.parameters, ResourceGroup)
                                         then req.parameters[ResourceGroup]
                                         else defaultGroup)
  {
  }

  /** Zone and region: as given last, or both from the first preferred segment for a dp2 volume with a blank zone. */
  lemma PlaceWanted(req: Request, supported: string -> bool, defaultGroup: string)
    requires Accepted(req, supported, defaultGroup)
    ensures Profile in req.parameters
    ensures var p := Wanted(req, supported, defaultGroup).place;
            if req.parameters[Profile] == "dp2" && TrimSpace(Latest(req, Zone)) == ""
            then exists i :: FirstAt(req.preferred, i) && req.preferred[i] == Some(Segment(p.region, p.az))
            else p.az == Latest(req, Zone) && p.region == Latest(req, Region)
  {
  }

  /** The tags of both maps, and subnet and groups as given last. */
  lemma NetworkWanted(req: Request, supported: string -> bool, defaultGroup: string)
    requires Accepted(req, supported, defaultGroup)
    ensures var place := Wanted(req, supported, defaultGroup).place;
            && place.tags == (if Given(req.parameters, Tag) then [req.parameters[Tag]] else []) +
                             (if Given(req.secrets, Tag) then [req.secrets[Tag]] else [])
            && place.subnetID == LatestGiven(req, SubnetID)
            && place.securityGroups ==
               (if LatestGiven(req, SecurityGroupIDs) == "" then None
                else Some(Split(TrimSpace(LatestGiven(req, SecurityGroupIDs)), ',')))
  {
  }

  /** The primary IP as given, by its id or by its address. */
  lemma PrimaryIPWanted(req: Request, supported: string -> bool, defaultGroup: string)
    requires Accepted(req, supported, defaultGroup)
    ensures Wanted(req, supported, defaultGroup).guard.primaryIP ==
            if LatestGiven(req, PrimaryIPID) != "" then Some(ById(LatestGiven(req, PrimaryIPID)))
            else if LatestGiven(req, PrimaryIPAddress) != "" then Some(ByAddress(LatestGiven(req, PrimaryIPAddress)))
            else None
  {
  }

  /** Performance and size. */
  lemma ExtrasWanted(req: Request, supported: string -> bool, defaultGroup: string)
    requires Accepted(req, supported, defaultGroup)
    ensures var w := Wanted(req, supported, defaultGroup);
            && w.iops == OptionOf(LatestGiven(req, IOPS))
            && Speed(LatestGiven(req, Throughput), w.bandwidth)
            && RequestedCapacity(req.range, w.profile).Ok?
            && RequestedCapacity(req.range, w.profile).value / 1073741824 == w.capacity
  {
    ThroughputsAreNumbers(req, supported, defaultGroup);
  }

  /** A bandwidth written in decimal, none if the text is empty. */
  predicate Speed(text: string, n: int) {
    if text == "" then n == 0 else Atoi(text) == Some(n)
  }

  lemma ThroughputsAreNumbers(req: Request, supported: string -> bool, defaultGroup: string)
    requires forall k <- req.parameters :: ParamValid(k, req.parameters[k], supported)
    requires forall k <- req.secrets :: SecretValid(k, req.secrets[k])
    ensures Speed(LatestGiven(req, Throughput), AfterSecrets(req, defaultGroup).extra.bandwidth)
  {
    if Throughput in req.parameters {
      assert ParamValid(Throughput, req.parameters[Throughput], supported);
    }
    if Throughput in req.secrets {
      assert SecretValid(Throughput, req.secrets[Throughput]);
    }
  }

  /** An id written in decimal, 0 if the parameter is missing. */
  predicate IdGiven(m: Params, k: Key, n: int) {
    if k in m then Atoi(m[k]) == Some(n) else n == 0
  }

  /** The owner: the ids given as parameters, unless both are 0 or the volume is restored from a snapshot. */
  lemma OwnerWanted(req: Request, supported: string -> bool, defaultGroup: string, uid: int, gid: int)
    requires Accepted(req, supported, defaultGroup)
    requires IdGiven(req.parameters, UID, uid) && IdGiven(req.parameters, GID, gid)
    ensures Wanted(req, supported, defaultGroup).owner ==
            if (uid != 0 || gid != 0) && !req.fromSnapshot then Some(Owner(uid, gid)) else None
  {
  }

  ghost function IPEntries(req: Request): (n: nat) {
    (if Given(req.parameters, PrimaryIPID) then 1 else 0) + (if Given(req.parameters, PrimaryIPAddress) then 1 else 0) +
    (if Given(req.secrets, PrimaryIPID) then 1 else 0) + (if Given(req.secrets, PrimaryIPAddress) then 1 else 0)
  }

  /** The primary IP conflict, over all four places where one can be given. */
  lemma OnePrimaryIP(req: Request, supported: string -> bool, defaultGroup: string)
    requires forall k <- req.parameters :: ParamValid(k, req.parameters[k], supported)
    requires forall k <- req.secrets :: SecretValid(k, req.secrets[k])
    ensures ParamsOk(req.parameters, supported) && SecretsOk(AfterParameters(req), req.secrets) <==> IPEntries(req) <= 1
  {
  }

  /** Every entry is acceptable on its own, and at most one names a primary IP. */
  ghost predicate EntriesOk(req: Request, supported: string -> bool) {
    Entries(req, supported) && IPEntries(req) <= 1
  }

  /** What the two maps say about network and performance does not contradict the profile. */
  ghost predicate ChoiceOk(req: Request, profile: string) {
    var zone, region, subnet := Latest(req, Zone), Latest(req, Region), LatestGiven(req, SubnetID);
    var iops, speed := LatestGiven(req, IOPS), LatestGiven(req, Throughput);
    && (AsksENI(req) && profile == "dp2" && (TrimSpace(zone) == "" || TrimSpace(region) == "") ==>
          subnet == "" && IPEntries(req) == 0)
    && (AsksENI(req) && LatestGiven(req, PrimaryIPAddress) != "" ==> subnet != "")
    && (AsksEIT(req) ==> AsksENI(req))
    && (profile == "dp2" ==> forall n :: Speed(speed, n) ==> n <= 0)
    && (profile == "rfs" ==> TrimSpace(iops) == "" && TrimSpace(zone) == "")
    && (profile == "dp2" && TrimSpace(zone) == "" ==> exists i :: 0 <= i < |req.preferred| && req.preferred[i].Some?)
  }

  /** A request is accepted exactly if its entries are, it names a profile with a possible size, and its choices fit. */
  lemma AcceptedExactly(req: Request, supported: string -> bool, defaultGroup: string)
    ensures Accepted(req, supported, defaultGroup) <==>
            && EntriesOk(req, supported) && Profile in req.parameters
            && RequestedCapacity(req.range, req.parameters[Profile]).Ok? && req.hasCapabilities
            && ChoiceOk(req, req.parameters[Profile])
  {
    if EntriesOk(req, supported) || Accepted(req, supported, defaultGroup) {
      OnePrimaryIP(req, supported, defaultGroup);
      FitsExactly(req, supported, defaultGroup, ProfileOf(req));
    }
  }

  /** The entries themselves, one by one. */
  ghost predicate Entries(req: Request, supported: string -> bool) {
    && (forall k <- req.parameters :: ParamValid(k, req.parameters[k], supported))
    && (forall k <- req.secrets :: SecretValid(k, req.secrets[k]))
  }

  lemma FitsExactly(req: Request, supported: string -> bool, defaultGroup: string, profile: string)
    requires Entries(req, supported) && IPEntries(req) <= 1
    ensures Fits(AfterSecrets(req, defaultGroup), profile, req.preferred) <==> ChoiceOk(req, profile)
  {
    var d := AfterSecrets(req, defaultGroup);
    PlaceDrafted(req, defaultGroup);
    GuardDrafted(req, defaultGroup);
    ThroughputsAreNumbers(req, supported, defaultGroup);
    IopsDrafted(req, defaultGroup);
    DraftFits(req, d, profile);
  }

  /** Where the draft holds the choices, its checks are those of the choices. */
  lemma DraftFits(req: Request, d: Draft, profile: string)
    requires d.place.az == Latest(req, Zone) && d.place.region == Latest(req, Region)
    requires d.place.subnetID == LatestGiven(req, SubnetID)
    requires d.guard.accessMode == SecurityGroup <==> AsksENI(req)
    requires d.guard.transit == UserManaged <==> AsksEIT(req)
    requires d.guard.primaryIP.None? <==> IPEntries(req) == 0
    requires NamesAddress(d.guard.primaryIP) <==> LatestGiven(req, PrimaryIPAddress) != ""
    requires d.extra.iops == OptionOf(LatestGiven(req, IOPS)) && Speed(LatestGiven(req, Throughput), d.extra.bandwidth)
    ensures Fits(d, profile, req.preferred) <==> ChoiceOk(req, profile)
  {
    assert forall n :: Speed(LatestGiven(req, Throughput), n) ==> n == d.extra.bandwidth;
    assert TrimSpace("") == "";
  }

  predicate NamesAddress(ip: Option<PrimaryIP>) {
    ip.Some? && ip.value.ByAddress? && ip.value.address != ""
  }

  lemma PlaceDrafted(req: Request, defaultGroup: string)
    ensures var p := AfterSecrets(req, defaultGroup).place;
            && p.az == Latest(req, Zone) && p.region == Latest(req, Region) && p.subnetID == LatestGiven(req, SubnetID)
  {
  }

  lemma GuardDrafted(req: Request, defaultGroup: string)
    requires IPEntries(req) <= 1
    ensures var g := AfterSecrets(req, defaultGroup).guard;
            && (g.accessMode == SecurityGroup <==> AsksENI(req)) && (g.transit == UserManaged <==> AsksEIT(req))
            && (g.primaryIP.None? <==> IPEntries(req) == 0)
            && (NamesAddress(g.primaryIP) <==> LatestGiven(req, PrimaryIPAddress) != "")
  {
  }

  lemma IopsDrafted(req: Request, defaultGroup: string)
    ensures AfterSecrets(req, defaultGroup).extra.iops == OptionOf(LatestGiven(req, IOPS))
  {
  }
}
