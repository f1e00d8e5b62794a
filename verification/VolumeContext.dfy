/**
 The volume context that CreateVolume prints and NodePublishVolume reads: labels on one side, mount mode on the
 other.
 */
module VolumeContext {
  import opened Wrappers
  import opened Text
  import opened Capacity
  import opened VolumeParameters
  import opened VolumeRequest
  import opened VolumeId

  datatype Label =
    | VolumeIDLabel | ClusterIDLabel | ProfileLabel | HrefLabel | CRNLabel | TagLabel | IOPSLabel | ThroughputLabel
    | FileShareIDLabel | FileShareTargetIDLabel | RegionLabel | ZoneLabel | ENILabel | ENISubnetLabel
    | ENISecurityGroupsLabel | ServerPathLabel | EITLabel

  type Labels = map<Label, string>

  /** The provider's volume, as far as the response looks at it. */
  datatype Share = Share(
    id: string, profile: Option<string>, href: string, crn: string, tags: seq<string>, iops: Option<string>,
    bandwidth: int,
    region: string, az: string, accessMode: AccessMode, transit: Transit, securityGroups: Option<seq<string>>,
    subnetID: string)

  datatype AccessPoint = AccessPoint(id: string, mountPath: string)

  /** A missing label reads as the empty string. */
  function Read(labels: Labels, k: Label): string {
    if k in labels then labels[k] else ""
  }

  /** k is present exactly when `when` holds, with this value. */
  predicate Shows(labels: Labels, k: Label, when: bool, value: string) {
    if when then k in labels && labels[k] == value else k !in labels
  }

  /** What the labels say about the share itself. */
  predicate DescribesShare(labels: Labels, vol: Share, ap: AccessPoint, clusterID: string) {
    && Shows(labels, VolumeIDLabel, true, Printed(vol.id, ap.id))
    && Shows(labels, ClusterIDLabel, true, clusterID)
    && Shows(labels, ProfileLabel, vol.profile.Some? && vol.profile.value != "", vol.profile.GetOr(""))
    && Shows(labels, HrefLabel, vol.href != "", vol.href)
    && Shows(labels, CRNLabel, true, vol.crn)
    && Shows(labels, TagLabel, true, Join(vol.tags, ','))
    && Shows(labels, IOPSLabel, vol.iops.Some? && vol.iops.value != "", vol.iops.GetOr(""))
    && Shows(labels, ThroughputLabel, vol.bandwidth > 0, Mbps(vol.bandwidth))
    && Shows(labels, FileShareIDLabel, true, vol.id)
    && Shows(labels, FileShareTargetIDLabel, true, ap.id)
  }

  /** What the labels say about where it is and how it is reached. */
  predicate DescribesAccess(labels: Labels, vol: Share, ap: AccessPoint, region: string) {
    var eni := vol.accessMode == SecurityGroup;
    && Shows(labels, RegionLabel, true, if vol.region != "" then vol.region else region)
    && Shows(labels, ZoneLabel, !eni, vol.az)
    && Shows(labels, ENILabel, true, if eni then TRUE else FALSE)
    && Shows(labels, ENISubnetLabel, eni, vol.subnetID)
    && Shows(labels, ENISecurityGroupsLabel, eni && vol.securityGroups.Some?, Join(vol.securityGroups.GetOr([]), ','))
    && Shows(labels, ServerPathLabel, true, ap.mountPath)
    && Shows(labels, EITLabel, vol.transit.Ipsec? || vol.transit.Stunnel?, TRUE)
  }

  predicate AccessLabel(k: Label) {
    k.RegionLabel? || k.ZoneLabel? || k.ENILabel? || k.ENISubnetLabel? || k.ENISecurityGroupsLabel?
    || k.ServerPathLabel? || k.EITLabel?
  }

  predicate Describes(labels: Labels, vol: Share, ap: AccessPoint, clusterID: string, region: string) {
    DescribesShare(labels, vol, ap, clusterID) && DescribesAccess(labels, vol, ap, region)
  }

  /** The labels, one by one. */
  lemma LabelsSay(labels: Labels, vol: Share, ap: AccessPoint, clusterID: string, region: string)
    requires Describes(labels, vol, ap, clusterID, region)
    ensures VolumeIDLabel in labels && labels[VolumeIDLabel] == vol.id + "#" + ap.id
    ensures FileShareIDLabel in labels && labels[FileShareIDLabel] == vol.id
    ensures FileShareTargetIDLabel in labels && labels[FileShareTargetIDLabel] == ap.id
    ensures ServerPathLabel in labels && labels[ServerPathLabel] == ap.mountPath
    ensures ClusterIDLabel in labels && labels[ClusterIDLabel] == clusterID
    ensures CRNLabel in labels && labels[CRNLabel] == vol.crn && TagLabel in labels
            && labels[TagLabel] == Join(vol.tags, ',')
    ensures HrefLabel in labels <==> vol.href != ""
    ensures HrefLabel in labels ==> labels[HrefLabel] == vol.href
    ensures ProfileLabel in labels <==> vol.profile.Some? && vol.profile.value != ""
    ensures ProfileLabel in labels ==> Some(labels[ProfileLabel]) == vol.profile
    ensures IOPSLabel in labels <==> vol.iops.Some? && vol.iops.value != ""
    ensures IOPSLabel in labels ==> Some(labels[IOPSLabel]) == vol.iops
    ensures ThroughputLabel in labels <==> vol.bandwidth > 0
    ensures ThroughputLabel in labels ==> labels[ThroughputLabel] == Decimal(vol.bandwidth) + " mbps"
  {
  }

  lemma AccessLabelsSay(labels: Labels, vol: Share, ap: AccessPoint, clusterID: string, region: string)
    requires Describes(labels, vol, ap, clusterID, region)
    ensures RegionLabel in labels && labels[RegionLabel] == if vol.region != "" then vol.region else region
    ensures ZoneLabel in labels <==> vol.accessMode == Vpc
    ensures ZoneLabel in labels ==> labels[ZoneLabel] == vol.az
    ensures ENILabel in labels && labels[ENILabel] == if vol.accessMode == Vpc then "false" else "true"
    ensures ENISubnetLabel in labels <==> vol.accessMode == SecurityGroup
    ensures ENISubnetLabel in labels ==> labels[ENISubnetLabel] == vol.subnetID
    ensures ENISecurityGroupsLabel in labels <==> vol.accessMode == SecurityGroup && vol.securityGroups.Some?
    ensures ENISecurityGroupsLabel in labels ==> labels[ENISecurityGroupsLabel] == Join(vol.securityGroups.value, ',')
    ensures EITLabel in labels <==> vol.transit == Ipsec || vol.transit == Stunnel
    ensures EITLabel in labels ==> labels[EITLabel] == "true"
  {
  }

  function Mbps(bandwidth: int): string {
    if bandwidth > 0 then Decimal(bandwidth) + " mbps" else ""
  }

  method ShareLabels(vol: Share, ap: AccessPoint, clusterID: string) returns (labels: Labels)
    ensures DescribesShare(labels, vol, ap, clusterID)
    ensures forall k <- labels :: !AccessLabel(k)
  {
    labels := map[VolumeIDLabel := vol.id + "#" + ap.id, ClusterIDLabel := clusterID];
    if vol.profile.Some? && vol.profile.value != "" {
      labels := labels[ProfileLabel := vol.profile.value];
    }
    if vol.href != "" {
      labels := labels[HrefLabel := vol.href];
    }
    labels := labels[CRNLabel := vol.crn][TagLabel := Join(vol.tags, ',')];
    if vol.iops.Some? && vol.iops.value != "" {
      labels := labels[IOPSLabel := vol.iops.value];
    }
    if vol.bandwidth > 0 {
      labels := labels[ThroughputLabel := Decimal(vol.bandwidth) + " mbps"];
    }
    labels := labels[FileShareIDLabel := vol.id][FileShareTargetIDLabel := ap.id];
  }

  method AccessLabels(labels: Labels, vol: Share, ap: AccessPoint, region: string) returns (all: Labels)
    requires forall k <- labels :: !AccessLabel(k)
    ensures DescribesAccess(all, vol, ap, region)
    ensures forall k | !AccessLabel(k) :: (k in all <==> k in labels) && (k in all ==> all[k] == labels[k])
  {
    all := labels[RegionLabel := if vol.region != "" then vol.region else region];
    if vol.accessMode == Vpc {
      all := all[ENILabel := FALSE][ZoneLabel := vol.az];
    } else {
      all := all[ENILabel := TRUE][ENISubnetLabel := vol.subnetID];
      if vol.securityGroups.Some? {
        all := all[ENISecurityGroupsLabel := Join(vol.securityGroups.value, ',')];
      }
    }
    all := all[ServerPathLabel := ap.mountPath];
    if vol.transit.Ipsec? || vol.transit.Stunnel? {
      all := all[EITLabel := TRUE];
    }
  }

  /** createCSIVolumeResponse: the volume id and the labels. */
  method CreateCSIVolumeResponse(vol: Share, ap: AccessPoint, clusterID: string, region: string)
    returns (id: string, labels: Labels)
    ensures id == Printed(vol.id, ap.id)
    ensures Describes(labels, vol, ap, clusterID, region)
  {
    labels := ShareLabels(vol, ap, clusterID);
    labels := AccessLabels(labels, vol, ap, region);
    id := vol.id + "#" + ap.id;
  }

  /**
   The share that publish names (a label) and the one that unpublish names (from the id) are one, unless it holds
   '#'.
   */
  lemma PublishAndUnpublishAgree(labels: Labels, vol: Share, ap: AccessPoint, clusterID: string, region: string)
    requires Describes(labels, vol, ap, clusterID, region)
    ensures Read(labels, FileShareIDLabel) == ShareOf(labels[VolumeIDLabel]) <==> '#' !in vol.id
  {
    ShareExactly(vol.id, ap.id);
  }

  // ------------------------------------------------------------------
  // The mount mode
  // ------------------------------------------------------------------

  /** How a share is mounted: file system type, transit argument of the EIT helper, through a tunnel or not. */
  datatype Mode = Mode(fsType: string, transitEncryption: string, tunnelled: bool)

  const PLAIN := Mode("nfs", "", false)
  const IPSEC := Mode("ibmshare", "ipsec", false)
  const TUNNEL := Mode("nfs4", "", true)

  /** The mode that NodePublishVolume reads from the labels. */
  function ModeOf(labels: Labels): Mode {
    if Read(labels, EITLabel) != TRUE then PLAIN
    else if Read(labels, ProfileLabel) == DP2 then IPSEC
    else if Read(labels, ProfileLabel) == RFS then TUNNEL
    else PLAIN
  }

  /** What the controller writes over the provider's volume before printing it. */
  function Patched(created: Share, wanted: Volume, subnetID: string, groups: Option<seq<string>>): Share {
    created.(accessMode := wanted.guard.accessMode, transit := wanted.guard.transit, securityGroups := groups,
    subnetID := subnetID)
  }

  /** The mode that a request asks for. */
  function AskedMode(req: Request): Mode {
    if !AsksEIT(req) then PLAIN
    else if ProfileOf(req) == DP2 then IPSEC
    else if ProfileOf(req) == RFS then TUNNEL
    else PLAIN
  }

  /** Which profiles are supported, and the configured resource group. */
  datatype Policy = Policy(supported: string -> bool, defaultGroup: string)

  /** What the labels show beside the request and the provider's answers. */
  datatype Site = Site(subnetID: string, groups: Option<seq<string>>, clusterID: string, region: string)

  /** labels are printed for an accepted request, over a volume that the provider returned. */
  ghost predicate PrintedFor(labels: Labels, req: Request, policy: Policy, created: Share, ap: AccessPoint,
                             site: Site) {
    Accepted(req, policy.supported, policy.defaultGroup) &&
    var wanted := Wanted(req, policy.supported, policy.defaultGroup);
    Describes(labels, Patched(created, wanted, site.subnetID, site.groups), ap, site.clusterID, site.region)
  }

  /**
   The controller's mode and the node's mode agree when the provider returns the requested
   profile; an encrypted mount is always in security-group mode.
   */
  lemma ModesAgree(
    labels: Labels, req: Request, policy: Policy, created: Share, ap: AccessPoint, site: Site)
    requires PrintedFor(labels, req, policy, created, ap, site)
    requires created.profile == Some(ProfileOf(req))
    ensures ModeOf(labels) == AskedMode(req)
    ensures ModeOf(labels) != PLAIN ==> Read(labels, ENILabel) == TRUE
  {
    MapsCombine(req, policy.supported, policy.defaultGroup);
  }

  /**
   For an EIT request on a known profile, the provider's answer decides: the modes agree exactly when the profiles
   do.
   */
  lemma ModesAgreeExactly(
    labels: Labels, req: Request, policy: Policy, created: Share, ap: AccessPoint, site: Site)
    requires PrintedFor(labels, req, policy, created, ap, site)
    ensures AskedMode(req) != PLAIN ==> (ModeOf(labels) == AskedMode(req) <==> created.profile == Some(ProfileOf(req)))
  {
    MapsCombine(req, policy.supported, policy.defaultGroup);
  }

  /** No request without EIT mounts encrypted, whatever the provider returns. */
  lemma NoEITMeansPlain(
    labels: Labels, req: Request, policy: Policy, created: Share, ap: AccessPoint, site: Site)
    requires PrintedFor(labels, req, policy, created, ap, site) && !AsksEIT(req)
    ensures ModeOf(labels) == PLAIN
  {
    MapsCombine(req, policy.supported, policy.defaultGroup);
  }

  ghost predicate EITAlwaysHonoured(supported: string -> bool, defaultGroup: string) {
    forall req :: Accepted(req, supported, defaultGroup) && AsksEIT(req) ==> AskedMode(req) != PLAIN
  }

  /** An EIT request for some profile, and nothing else. */
  function BareEIT(profile: string): Request {
    Request(map[Profile := profile, IsEITEnabled := TRUE], map[], None, true, false, [])
  }

  /** Every accepted EIT request is encrypted exactly when the profile check admits dp2 and rfs only. */
  lemma EITHonouredExactly(supported: string -> bool, defaultGroup: string)
    ensures EITAlwaysHonoured(supported, defaultGroup) <==> forall x :: supported(x) ==> x == DP2 || x == RFS
  {
    if forall x :: supported(x) ==> x == DP2 || x == RFS {
      forall req | Accepted(req, supported, defaultGroup) && AsksEIT(req)
        ensures AskedMode(req) != PLAIN
      {
        assert ParamValid(Profile, req.parameters[Profile], supported);
      }
    }
    forall x | supported(x) && x != DP2 && x != RFS
      ensures !EITAlwaysHonoured(supported, defaultGroup)
    {
      BareEITIsAccepted(x, supported, defaultGroup);
    }
  }

  lemma BareEITIsAccepted(x: string, supported: string -> bool, defaultGroup: string)
    requires supported(x) && x != DP2 && x != RFS
    ensures var req := BareEIT(x); Accepted(req, supported, defaultGroup) && AsksEIT(req) && AskedMode(req) == PLAIN
  {
    assert Lower(TRUE) == TRUE;
  }
}
