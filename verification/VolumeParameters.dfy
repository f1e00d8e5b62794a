/**
 The parameter pass of CreateVolume: one loop over the storage-class parameters, one over
 the secrets.  Both range over Go maps, in an order that the language leaves open.
 */
module VolumeParameters {
  import opened Wrappers
  import opened Text

  /** The parameter names the driver knows; any other string is Unknown. */
  datatype Key =
    | Profile | Zone | Region | Tag | SecurityGroupIDs | PrimaryIPID | PrimaryIPAddress | SubnetID
    | IsENIEnabled | IsEITEnabled | ResourceGroup | BillingType | Encrypted | EncryptionKey
    | ClassVersion | SizeRangeSupported | SizeIopsRange | Generation | IOPS | Throughput | UID | GID | VMState
    | Unknown(name: string)

  type Params = map<Key, string>

  datatype PrimaryIP = ById(id: string) | ByAddress(address: string)
  datatype AccessMode = SecurityGroup | Vpc
  datatype Transit = Unset | UserManaged | Ipsec | Stunnel | NoTransit

  datatype Place = Place(
    profile: Option<string>, az: string, region: string, tags: seq<string>,
    securityGroups: Option<seq<string>>, subnetID: string)

  datatype Guard = Guard(
    primaryIP: Option<PrimaryIP>, accessMode: AccessMode, transit: Transit, resourceGroup: Option<string>,
    encrypt: Option<string>, encryptionKey: Option<string>)

  datatype Extra = Extra(iops: Option<string>, bandwidth: int, uid: int, gid: int)

  /** The volume being filled in, with the loop's own variables encrypt, uid and gid. */
  datatype Draft = Draft(place: Place, guard: Guard, extra: Extra) {
    function WithPlace(p: Place): Draft { this.(place := p) }
    function WithGuard(g: Guard): Draft { this.(guard := g) }
    function WithExtra(e: Extra): Draft { this.(extra := e) }
  }

  const NO_PLACE := Place(None, "", "", [], None, "")
  const NO_GUARD := Guard(None, SecurityGroup, Unset, None, None, None)
  const EMPTY := Draft(NO_PLACE, NO_GUARD, Extra(None, 0, 0, 0))

  const TRUE := "true"
  const FALSE := "false"

  function LowerChar(c: char): char {
    if 'A' <= c <= 'Z' then (c as int + 32) as char else c
  }

  /** strings.ToLower, as far as a comparison with "true" and "false" can tell. */
  function Lower(s: string): string {
    if s == "" then "" else [LowerChar(s[0])] + Lower(s[1..])
  }

  predicate IsBool(s: string) {
    s == TRUE || s == FALSE
  }

  /** strconv.ParseInt(s, 10, 32). */
  function ParseInt32(s: string): Option<int> {
    match Atoi(s)
    case None => None
    case Some(n) => if -0x8000_0000 <= n < 0x8000_0000 then Some(n) else None
  }

  function SecurityGroupList(value: string): seq<string> {
    Split(TrimSpace(value), ',')
  }

  // ------------------------------------------------------------------
  // One loop iteration each
  // ------------------------------------------------------------------

  /** One iteration of the parameter loop; None is the early return with an error. */
  function ApplyParam(d: Draft, k: Key, value: string, supported: string -> bool): Option<Draft> {
    match k
    case Profile => if supported(value) then Some(d.WithPlace(d.place.(profile := Some(value)))) else None
    case Zone => if ByteLen(value) > 63 then None else Some(d.WithPlace(d.place.(az := value)))
    case Region => if ByteLen(value) > 63 then None else Some(d.WithPlace(d.place.(region := value)))
    case Tag => if ByteLen(value) > 128 then None
    else Some(if value != "" then d.WithPlace(d.place.(tags := [value])) else d)
    case SecurityGroupIDs => Some(if value != ""
                                  then d.WithPlace(d.place.(securityGroups := Some(SecurityGroupList(value)))) else d)
    case PrimaryIPID => SetPrimaryIP(d, value, ById(value))
    case PrimaryIPAddress => SetPrimaryIP(d, value, ByAddress(value))
    case SubnetID => Some(if value != "" then d.WithPlace(d.place.(subnetID := value)) else d)
    case IsENIEnabled => SetENI(d, Lower(value))
    case IsEITEnabled => SetEIT(d, Lower(value))
    case ResourceGroup => if ByteLen(value) > 32 then None
    else Some(d.WithGuard(d.guard.(resourceGroup := Some(value))))
    case Encrypted => if IsBool(value) then Some(d.WithGuard(d.guard.(encrypt := Some(value)))) else None
    case EncryptionKey =>
      if ByteLen(value) > 256 then None
      else Some(if value != "" then d.WithGuard(d.guard.(encryptionKey := Some(value))) else d)
    case IOPS => Some(if value != "" then d.WithExtra(d.extra.(iops := Some(value))) else d)
    case Throughput => SetThroughput(d, value)
    case UID => if Atoi(value).Some? && Atoi(value).value >= 0
    then Some(d.WithExtra(d.extra.(uid := Atoi(value).value))) else None
    case GID => if Atoi(value).Some? && Atoi(value).value >= 0
    then Some(d.WithExtra(d.extra.(gid := Atoi(value).value))) else None
    case BillingType => Some(d)
    case ClassVersion => Some(d)
    case SizeRangeSupported => Some(d)
    case SizeIopsRange => Some(d)
    case Generation => Some(d)
    case VMState => Some(d)
    case Unknown(_) => None
  }

  /** setPrimaryIPID and setPrimaryIPAddress: fail if either is already set. */
  function SetPrimaryIP(d: Draft, value: string, ip: PrimaryIP): Option<Draft> {
    if value == "" then Some(d) else if d.guard.primaryIP.None?
    then Some(d.WithGuard(d.guard.(primaryIP := Some(ip)))) else None
  }

  function SetENI(d: Draft, value: string): Option<Draft> {
    if IsBool(value) then Some(d.WithGuard(d.guard.(accessMode := if value == TRUE then SecurityGroup else Vpc)))
    else None
  }

  function SetEIT(d: Draft, value: string): Option<Draft> {
    if IsBool(value) then Some(if value == TRUE then d.WithGuard(d.guard.(transit := UserManaged)) else d) else None
  }

  function SetThroughput(d: Draft, value: string): Option<Draft> {
    if value == "" then Some(d)
    else
      match ParseInt32(value)
      case None => None
      case Some(n) => Some(d.WithExtra(d.extra.(bandwidth := n)))
  }

  /** One iteration of the secrets loop. */
  function ApplySecret(d: Draft, k: Key, value: string): Option<Draft> {
    match k
    case ResourceGroup => if ByteLen(value) > 32 then None
    else Some(d.WithGuard(d.guard.(resourceGroup := Some(value))))
    case Encrypted => if IsBool(value) then Some(d.WithGuard(d.guard.(encrypt := Some(value)))) else None
    case EncryptionKey =>
      if ByteLen(value) > 256 then None
      else Some(if value != "" then d.WithGuard(d.guard.(encryptionKey := Some(value))) else d)
    case Tag => if ByteLen(value) > 128 then None
    else Some(if value != "" then d.WithPlace(d.place.(tags := d.place.tags + [value])) else d)
    case Zone => if ByteLen(value) > 63 then None else Some(d.WithPlace(d.place.(az := value)))
    case Region => if ByteLen(value) > 63 then None else Some(d.WithPlace(d.place.(region := value)))
    case IOPS =>
      if value == "" then Some(d) else if Atoi(value).None? then None
      else Some(d.WithExtra(d.extra.(iops := Some(value))))
    case Throughput => SetThroughput(d, value)
    case SecurityGroupIDs => Some(if value != ""
                                  then d.WithPlace(d.place.(securityGroups := Some(SecurityGroupList(value)))) else d)
    case PrimaryIPID => SetPrimaryIP(d, value, ById(value))
    case PrimaryIPAddress => SetPrimaryIP(d, value, ByAddress(value))
    case SubnetID => Some(if value != "" then d.WithPlace(d.place.(subnetID := value)) else d)
    case IsENIEnabled => SetENI(d, Lower(value))
    case IsEITEnabled => SetEIT(d, Lower(value))
    case _ => None
  }

  lemma LowerCharIs(c: char, l: char)
    requires 'a' <= l <= 'z'
    ensures LowerChar(c) == l <==> c == l || c as int == l as int - 32
  {
  }

  lemma {:induction false} LowerAt(s: string, i: int)
    ensures |Lower(s)| == |s|
    ensures 0 <= i < |s| ==> Lower(s)[i] == LowerChar(s[i])
  {
    if s != "" {
      LowerAt(s[1..], i - 1);
    }
  }

  /** The two spellings of a letter, at position i. */
  predicate Spelt(s: string, i: nat, l: char) {
    i < |s| && (s[i] == l || s[i] as int == l as int - 32)
  }

  /** A comparison after lower-casing is one that ignores case. */
  lemma LowerIs(s: string, word: string)
    requires forall i :: 0 <= i < |word| ==> 'a' <= word[i] <= 'z'
    ensures Lower(s) == word <==> |s| == |word| && forall i :: 0 <= i < |word| ==> Spelt(s, i, word[i])
  {
    LowerAt(s, 0);
    forall i | 0 <= i < |word| && |s| == |word|
      ensures Lower(s)[i] == word[i] <==> Spelt(s, i, word[i])
    {
      LowerAt(s, i);
      LowerCharIs(s[i], word[i]);
    }
  }

  lemma BoolWords(value: string)
    ensures IsBool(value) <==> value == "true" || value == "false"
  {
  }

  predicate IsInt32(value: string) {
    Atoi(value).Some? && -2147483648 <= Atoi(value).value <= 2147483647
  }

  /** The values that a parameter may have, with the driver's limits. */
  lemma PlaceLimits(d: Draft, value: string, supported: string -> bool)
    ensures ApplyParam(d, Profile, value, supported).Some? <==> supported(value)
    ensures ApplyParam(d, Zone, value, supported).Some? <==> ByteLen(value) <= 63
    ensures ApplyParam(d, Region, value, supported).Some? <==> ByteLen(value) <= 63
    ensures ApplyParam(d, Tag, value, supported).Some? <==> ByteLen(value) <= 128
    ensures ApplyParam(d, SecurityGroupIDs, value, supported).Some? && ApplyParam(d, SubnetID, value, supported).Some?
  {
  }

  /** The same for access and encryption; a primary IP may be given only once. */
  lemma GuardLimits(d: Draft, value: string, supported: string -> bool)
    ensures ApplyParam(d, ResourceGroup, value, supported).Some? <==> ByteLen(value) <= 32
    ensures ApplyParam(d, EncryptionKey, value, supported).Some? <==> ByteLen(value) <= 256
    ensures ApplyParam(d, Encrypted, value, supported).Some? <==> IsBool(value)
    ensures ApplyParam(d, IsENIEnabled, value, supported).Some? <==> IsBool(Lower(value))
    ensures ApplyParam(d, IsEITEnabled, value, supported).Some? <==> IsBool(Lower(value))
    ensures ApplyParam(d, PrimaryIPID, value, supported).Some? <==> value == "" || d.guard.primaryIP.None?
    ensures ApplyParam(d, PrimaryIPAddress, value, supported).Some? <==> value == "" || d.guard.primaryIP.None?
  {
  }

  /** The same for numbers; an unknown name is refused, an informative one is ignored. */
  lemma ExtraLimits(d: Draft, value: string, supported: string -> bool, name: string)
    ensures ApplyParam(d, Throughput, value, supported).Some? <==> value == "" || IsInt32(value)
    ensures ApplyParam(d, UID, value, supported).Some? <==> Atoi(value).Some? && Atoi(value).value >= 0
    ensures ApplyParam(d, GID, value, supported).Some? <==> Atoi(value).Some? && Atoi(value).value >= 0
    ensures ApplyParam(d, IOPS, value, supported).Some? && ApplyParam(d, Unknown(name), value, supported).None?
  {
  }

  lemma IgnoredParameters(d: Draft, k: Key, value: string, supported: string -> bool)
    requires k.BillingType? || k.ClassVersion? || k.SizeRangeSupported? || k.SizeIopsRange? || k.Generation?
             || k.VMState?
    ensures ApplyParam(d, k, value, supported) == Some(d)
  {
  }

  /** The values that a secret may have. */
  lemma SecretPlaceLimits(d: Draft, value: string)
    ensures ApplySecret(d, Zone, value).Some? <==> ByteLen(value) <= 63
    ensures ApplySecret(d, Region, value).Some? <==> ByteLen(value) <= 63
    ensures ApplySecret(d, Tag, value).Some? <==> ByteLen(value) <= 128
    ensures ApplySecret(d, SecurityGroupIDs, value).Some? && ApplySecret(d, SubnetID, value).Some?
  {
  }

  lemma SecretExtraLimits(d: Draft, value: string)
    ensures ApplySecret(d, IOPS, value).Some? <==> value == "" || Atoi(value).Some?
    ensures ApplySecret(d, Throughput, value).Some? <==> value == "" || IsInt32(value)
  {
  }

  lemma SecretGuardLimits(d: Draft, value: string)
    ensures ApplySecret(d, ResourceGroup, value).Some? <==> ByteLen(value) <= 32
    ensures ApplySecret(d, EncryptionKey, value).Some? <==> ByteLen(value) <= 256
    ensures ApplySecret(d, Encrypted, value).Some? <==> IsBool(value)
    ensures ApplySecret(d, IsENIEnabled, value).Some? <==> IsBool(Lower(value))
    ensures ApplySecret(d, IsEITEnabled, value).Some? <==> IsBool(Lower(value))
    ensures ApplySecret(d, PrimaryIPID, value).Some? <==> value == "" || d.guard.primaryIP.None?
    ensures ApplySecret(d, PrimaryIPAddress, value).Some? <==> value == "" || d.guard.primaryIP.None?
  {
  }

  /** The names that only parameters may have, and unknown ones, are refused. */
  lemma RefusedSecrets(d: Draft, k: Key, value: string)
    requires k.Profile? || k.BillingType? || k.ClassVersion? || k.SizeRangeSupported? || k.SizeIopsRange?
             || k.Generation? ||
             k.UID? || k.GID? || k.VMState? || k.Unknown?
    ensures ApplySecret(d, k, value) == None
  {
  }

  // ------------------------------------------------------------------
  // What a whole map means, with no order in sight
  // ------------------------------------------------------------------

  predicate Given(m: Params, k: Key) {
    k in m && m[k] != ""
  }

  function FillPlace(base: Place, m: Params): Place {
    Place(
      if Profile in m then Some(m[Profile]) else base.profile,
      if Zone in m then m[Zone] else base.az,
      if Region in m then m[Region] else base.region,
      if Given(m, Tag) then base.tags + [m[Tag]] else base.tags,
      if Given(m, SecurityGroupIDs) then Some(SecurityGroupList(m[SecurityGroupIDs])) else base.securityGroups,
      if Given(m, SubnetID) then m[SubnetID] else base.subnetID)
  }

  function FillGuard(base: Guard, m: Params): Guard {
    Guard(
      if Given(m, PrimaryIPID) then Some(ById(m[PrimaryIPID]))
      else if Given(m, PrimaryIPAddress) then Some(ByAddress(m[PrimaryIPAddress])) else base.primaryIP,
      if IsENIEnabled in m then (if Lower(m[IsENIEnabled]) == TRUE then SecurityGroup else Vpc) else base.accessMode,
      if IsEITEnabled in m && Lower(m[IsEITEnabled]) == TRUE then UserManaged else base.transit,
      if ResourceGroup in m then Some(m[ResourceGroup]) else base.resourceGroup,
      if Encrypted in m then Some(m[Encrypted]) else base.encrypt,
      if Given(m, EncryptionKey) then Some(m[EncryptionKey]) else base.encryptionKey)
  }

  function FillExtra(base: Extra, m: Params): Extra {
    Extra(
      if Given(m, IOPS) then Some(m[IOPS]) else base.iops,
      if Given(m, Throughput) && ParseInt32(m[Throughput]).Some? then ParseInt32(m[Throughput]).value
      else base.bandwidth,
      if UID in m && Atoi(m[UID]).Some? then Atoi(m[UID]).value else base.uid,
      if GID in m && Atoi(m[GID]).Some? then Atoi(m[GID]).value else base.gid)
  }

  /** The draft after all entries of m, field by field. */
  function Filled(base: Draft, m: Params): Draft {
    Draft(FillPlace(base.place, m), FillGuard(base.guard, m), FillExtra(base.extra, m))
  }

  /** An entry that is acceptable on its own. */
  predicate ParamValid(k: Key, value: string, supported: string -> bool) {
    match k
    case Profile => supported(value)
    case Zone => ByteLen(value) <= 63
    case Region => ByteLen(value) <= 63
    case Tag => ByteLen(value) <= 128
    case IsENIEnabled => IsBool(Lower(value))
    case IsEITEnabled => IsBool(Lower(value))
    case ResourceGroup => ByteLen(value) <= 32
    case Encrypted => IsBool(value)
    case EncryptionKey => ByteLen(value) <= 256
    case Throughput => value == "" || ParseInt32(value).Some?
    case UID => Atoi(value).Some? && Atoi(value).value >= 0
    case GID => Atoi(value).Some? && Atoi(value).value >= 0
    case Unknown(_) => false
    case _ => true
  }

  predicate SecretValid(k: Key, value: string) {
    match k
    case Zone => ByteLen(value) <= 63
    case Region => ByteLen(value) <= 63
    case Tag => ByteLen(value) <= 128
    case IsENIEnabled => IsBool(Lower(value))
    case IsEITEnabled => IsBool(Lower(value))
    case ResourceGroup => ByteLen(value) <= 32
    case Encrypted => IsBool(value)
    case EncryptionKey => ByteLen(value) <= 256
    case Throughput => value == "" || ParseInt32(value).Some?
    case IOPS => value == "" || Atoi(value).Some?
    case SecurityGroupIDs => true
    case PrimaryIPID => true
    case PrimaryIPAddress => true
    case SubnetID => true
    case _ => false
  }

  /** At most one primary IP, counting what is already set. */
  predicate OneIP(base: Draft, m: Params) {
    if base.guard.primaryIP.Some? then !Given(m, PrimaryIPID) && !Given(m, PrimaryIPAddress)
    else !(Given(m, PrimaryIPID) && Given(m, PrimaryIPAddress))
  }

  predicate ParamsOk(m: Params, supported: string -> bool) {
    (forall k <- m :: ParamValid(k, m[k], supported)) && OneIP(EMPTY, m)
  }

  predicate SecretsOk(base: Draft, m: Params) {
    (forall k <- m :: SecretValid(k, m[k])) && OneIP(base, m)
  }

  // ------------------------------------------------------------------
  // One more entry
  // ------------------------------------------------------------------

  predicate PlaceKey(k: Key) {
    k.Profile? || k.Zone? || k.Region? || k.Tag? || k.SecurityGroupIDs? || k.SubnetID?
  }

  predicate GuardKey(k: Key) {
    k.PrimaryIPID? || k.PrimaryIPAddress? || k.IsENIEnabled? || k.IsEITEnabled? || k.ResourceGroup? || k.Encrypted?
    || k.EncryptionKey?
  }

  predicate ExtraKey(k: Key) {
    k.IOPS? || k.Throughput? || k.UID? || k.GID?
  }

  lemma PlaceFrame(base: Place, m: Params, k: Key, value: string)
    ensures !PlaceKey(k) ==> FillPlace(base, m[k := value]) == FillPlace(base, m)
  {
  }

  lemma GuardFrame(base: Guard, m: Params, k: Key, value: string)
    ensures !GuardKey(k) ==> FillGuard(base, m[k := value]) == FillGuard(base, m)
  {
  }

  lemma ExtraFrame(base: Extra, m: Params, k: Key, value: string)
    ensures !ExtraKey(k) ==> FillExtra(base, m[k := value]) == FillExtra(base, m)
  {
  }

  ghost predicate ParamStepHolds(m: Params, k: Key, value: string, supported: string -> bool) {
    ApplyParam(Filled(EMPTY, m), k, value, supported) ==
    if ParamValid(k, value, supported) && OneIP(EMPTY, m[k := value]) then Some(Filled(EMPTY, m[k := value])) else None
  }

  lemma ZoneParam(m: Params, k: Key, value: string, supported: string -> bool)
    requires ParamsOk(m, supported) && k !in m && (k.Profile? || k.Zone? || k.Region?)
    ensures ParamStepHolds(m, k, value, supported)
  {
    GuardFrame(EMPTY.guard, m, k, value);
    ExtraFrame(EMPTY.extra, m, k, value);
  }

  lemma TagParam(m: Params, k: Key, value: string, supported: string -> bool)
    requires ParamsOk(m, supported) && k !in m && (k.Tag? || k.SecurityGroupIDs? || k.SubnetID?)
    ensures ParamStepHolds(m, k, value, supported)
  {
    GuardFrame(EMPTY.guard, m, k, value);
    ExtraFrame(EMPTY.extra, m, k, value);
    assert EMPTY.place.tags + [value] == [value];
  }

  lemma NetworkParam(m: Params, k: Key, value: string, supported: string -> bool)
    requires ParamsOk(m, supported) && k !in m
    requires k.PrimaryIPID? || k.PrimaryIPAddress? || k.IsENIEnabled? || k.IsEITEnabled?
    ensures ParamStepHolds(m, k, value, supported)
  {
    PlaceFrame(EMPTY.place, m, k, value);
    ExtraFrame(EMPTY.extra, m, k, value);
  }

  lemma KeyParam(m: Params, k: Key, value: string, supported: string -> bool)
    requires ParamsOk(m, supported) && k !in m && (k.ResourceGroup? || k.Encrypted? || k.EncryptionKey?)
    ensures ParamStepHolds(m, k, value, supported)
  {
    PlaceFrame(EMPTY.place, m, k, value);
    ExtraFrame(EMPTY.extra, m, k, value);
  }

  lemma ExtraParam(m: Params, k: Key, value: string, supported: string -> bool)
    requires ParamsOk(m, supported) && k !in m && !PlaceKey(k) && !GuardKey(k)
    ensures ParamStepHolds(m, k, value, supported)
  {
    PlaceFrame(EMPTY.place, m, k, value);
    GuardFrame(EMPTY.guard, m, k, value);
    ExtraFrame(EMPTY.extra, m, k, value);
    match k
    case UID =>
    case _ =>
  }

  /** One more parameter: rejected if it is bad or a second primary IP, else the draft of the larger map. */
  lemma ParamStep(m: Params, k: Key, value: string, supported: string -> bool)
    requires ParamsOk(m, supported) && k !in m
    ensures ParamStepHolds(m, k, value, supported)
  {
    if k.Profile? || k.Zone? || k.Region? {
      ZoneParam(m, k, value, supported);
    } else if k.Tag? || k.SecurityGroupIDs? || k.SubnetID? {
      TagParam(m, k, value, supported);
    } else if k.PrimaryIPID? || k.PrimaryIPAddress? || k.IsENIEnabled? || k.IsEITEnabled? {
      NetworkParam(m, k, value, supported);
    } else if GuardKey(k) {
      KeyParam(m, k, value, supported);
    } else {
      ExtraParam(m, k, value, supported);
    }
  }

  ghost predicate SecretStepHolds(base: Draft, m: Params, k: Key, value: string) {
    ApplySecret(Filled(base, m), k, value) ==
    if SecretValid(k, value) && OneIP(base, m[k := value]) then Some(Filled(base, m[k := value])) else None
  }

  lemma PlaceSecret(base: Draft, m: Params, k: Key, value: string)
    requires SecretsOk(base, m) && k !in m && PlaceKey(k)
    ensures SecretStepHolds(base, m, k, value)
  {
    GuardFrame(base.guard, m, k, value);
    ExtraFrame(base.extra, m, k, value);
  }

  lemma NetworkSecret(base: Draft, m: Params, k: Key, value: string)
    requires SecretsOk(base, m) && k !in m
    requires k.PrimaryIPID? || k.PrimaryIPAddress? || k.IsENIEnabled? || k.IsEITEnabled?
    ensures SecretStepHolds(base, m, k, value)
  {
    PlaceFrame(base.place, m, k, value);
    ExtraFrame(base.extra, m, k, value);
  }

  lemma KeySecret(base: Draft, m: Params, k: Key, value: string)
    requires SecretsOk(base, m) && k !in m && (k.ResourceGroup? || k.Encrypted? || k.EncryptionKey?)
    ensures SecretStepHolds(base, m, k, value)
  {
    PlaceFrame(base.place, m, k, value);
    ExtraFrame(base.extra, m, k, value);
  }

  lemma ExtraSecret(base: Draft, m: Params, k: Key, value: string)
    requires SecretsOk(base, m) && k !in m && !PlaceKey(k) && !GuardKey(k)
    ensures SecretStepHolds(base, m, k, value)
  {
    PlaceFrame(base.place, m, k, value);
    GuardFrame(base.guard, m, k, value);
    ExtraFrame(base.extra, m, k, value);
    match k
    case IOPS =>
    case _ =>
  }

  lemma SecretStep(base: Draft, m: Params, k: Key, value: string)
    requires SecretsOk(base, m) && k !in m
    ensures SecretStepHolds(base, m, k, value)
  {
    if PlaceKey(k) {
      PlaceSecret(base, m, k, value);
    } else if k.PrimaryIPID? || k.PrimaryIPAddress? || k.IsENIEnabled? || k.IsEITEnabled? {
      NetworkSecret(base, m, k, value);
    } else if GuardKey(k) {
      KeySecret(base, m, k, value);
    } else {
      ExtraSecret(base, m, k, value);
    }
  }

  // ------------------------------------------------------------------
  // The two loops, for every iteration order
  // ------------------------------------------------------------------

  /** An order in which a range loop may visit m. */
  ghost predicate Orders(order: seq<Key>, m: Params) {
    && (forall k :: k in m <==> k in order)
    && (forall i, j :: 0 <= i < j < |order| ==> order[i] != order[j])
  }

  /** The entries visited before position i. */
  ghost function Visited(order: seq<Key>, m: Params, i: nat): Params
    requires i <= |order|
  {
    map k | k in order[..i] && k in m :: m[k]
  }

  lemma VisitOne(order: seq<Key>, m: Params, i: nat)
    requires Orders(order, m) && i < |order|
    ensures order[i] in m && order[i] !in Visited(order, m, i)
    ensures Visited(order, m, i + 1) == Visited(order, m, i)[order[i] := m[order[i]]]
  {
    assert order[i] in order;
    assert order[..i + 1] == order[..i] + [order[i]];
  }

  lemma VisitAll(order: seq<Key>, m: Params)
    requires Orders(order, m)
    ensures Visited(order, m, |order|) == m
  {
    assert order[..|order|] == order;
  }

  /** Part of an acceptable map is acceptable. */
  lemma OneIPInPart(base: Draft, part: Params, m: Params)
    requires (forall k <- part :: k in m && m[k] == part[k]) && OneIP(base, m)
    ensures OneIP(base, part)
  {
  }

  /** The parameter loop: accepts exactly the good maps and fills in the same draft whatever the order. */
  method ReadParameters(m: Params, supported: string -> bool, order: seq<Key>) returns (r: Option<Draft>)
    requires Orders(order, m)
    ensures r == if ParamsOk(m, supported) then Some(Filled(EMPTY, m)) else None
  {
    var d := EMPTY;
    for i := 0 to |order|
      invariant ParamsOk(Visited(order, m, i), supported)
      invariant d == Filled(EMPTY, Visited(order, m, i))
    {
      var k := order[i];
      VisitOne(order, m, i);
      ghost var seen := Visited(order, m, i);
      ParamStep(seen, k, m[k], supported);
      var next := ApplyParam(d, k, m[k], supported);
      if next.None? {
        if OneIP(EMPTY, m) {
          OneIPInPart(EMPTY, seen[k := m[k]], m);
        }
        return None;
      }
      d := next.value;
    }
    VisitAll(order, m);
    return Some(d);
  }

  /** The secrets loop of overrideParams, on top of the draft from the parameters. */
  method ReadSecrets(base: Draft, m: Params, order: seq<Key>) returns (r: Option<Draft>)
    requires Orders(order, m)
    ensures r == if SecretsOk(base, m) then Some(Filled(base, m)) else None
  {
    var d := base;
    for i := 0 to |order|
      invariant SecretsOk(base, Visited(order, m, i))
      invariant d == Filled(base, Visited(order, m, i))
    {
      var k := order[i];
      VisitOne(order, m, i);
      ghost var seen := Visited(order, m, i);
      SecretStep(base, seen, k, m[k]);
      var next := ApplySecret(d, k, m[k]);
      if next.None? {
        if OneIP(base, m) {
          OneIPInPart(base, seen[k := m[k]], m);
        }
        return None;
      }
      d := next.value;
    }
    VisitAll(order, m);
    return Some(d);
  }
}
