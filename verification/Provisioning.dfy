/**
 CreateVolume and DeleteVolume as step protocols over the storage provider.

 Each provider call is one step, and any number of calls interleave.  The provider keeps
 names unique and never issues an id twice; beyond that a call may fail before its
 effect, fail after it, or take effect late.
 */
module Provisioning {
  import opened Wrappers
  import opened VolumeId

  datatype Vol = Vol(id: string, capacity: int, points: seq<string>)

  /** The provider's volumes by name, with every volume id and access point id it ever issued. */
  datatype Store = Store(vols: map<string, Vol>, issued: map<string, string>, owners: map<string, string>) {
    predicate Has(v: string) {
      v in issued && issued[v] in vols && vols[issued[v]].id == v
    }

    function Points(v: string): seq<string> {
      if Has(v) then vols[issued[v]].points else []
    }

    predicate CanMake(name: string, v: string, ps: seq<string>) {
      && name !in vols && v !in issued
      && (forall p <- ps :: p !in owners)
      && (forall i, j :: 0 <= i < j < |ps| ==> ps[i] != ps[j])
    }

    function Make(name: string, capacity: int, v: string, ps: seq<string>): Store {
      Store(vols[name := Vol(v, capacity, ps)], issued[v := name], owners + (map p <- ps :: v))
    }

    function AddPoint(v: string, p: string): Store
      requires Has(v)
    {
      var n := issued[v];
      this.(vols := vols[n := vols[n].(points := vols[n].points + [p])], owners := owners[p := v])
    }

    /** Removes the access point if it is there. */
    function DropPoint(v: string, p: string): Store {
      if Has(v) then this.(vols := vols[issued[v] := vols[issued[v]].(points := Remove(vols[issued[v]].points, p))])
      else this
    }

    function DropVolume(v: string): Store {
      if Has(v) then this.(vols := vols - {issued[v]}) else this
    }
  }

  function Remove(ps: seq<string>, p: string): seq<string> {
    if ps == [] then [] else if ps[0] == p then ps[1..] else [ps[0]] + Remove(ps[1..], p)
  }

  function First(ps: seq<string>): Option<string> {
    if ps == [] then None else Some(ps[0])
  }

  datatype Loc =
    | Idle
      // CreateVolume
    | Looking      // about to look the name up
    | Networking   // about to ask for subnet and security group
    | Creating     // about to create the volume
    | Pointing     // volume without access point: about to create one
    | Awaiting     // about to wait for the access point
    | Created
    | Rejected
      // DeleteVolume
    | Checking     // about to look the id up
    | DroppingPoint
    | AwaitingGone
    | DroppingVolume
    | Deleted
    | Undeleted

  datatype Call = Call(at: Loc, name: string, capacity: int, vol: Option<string>, point: Option<string>)

  const IDLE := Call(Idle, "", 0, None, None)

  /** A lookup answers truthfully, fails with a not-found or retrieval error, or fails with another error. */
  datatype Lookup = Answers | Absent | Broken

  /** A creating call succeeds, takes effect but reports an error, or is refused. */
  datatype Fate = Done | Lost | Refused

  datatype Step =
    | StartCreate(name: string, capacity: int)
    | Find(lookup: Lookup)
    | Network(ok: bool)
    | Make(v: string, ps: seq<string>, fate: Fate)
    | MakePoint(p: string, fate: Fate)
    | Await(ok: bool)
    | StartDelete(id: string)
    | Check(lookup: Lookup)
    | DropPoint(effect: bool, ok: bool)
    | AwaitGone(effect: bool, ok: bool)
    | DropVolume(effect: bool, ok: bool)
    | Return

  predicate Can(c: Call, step: Step) {
    match step
    case StartCreate(_, _) => c.at.Idle?
    case Find(_) => c.at.Looking?
    case Network(_) => c.at.Networking?
    case Make(_, _, _) => c.at.Creating?
    case MakePoint(_, _) => c.at.Pointing? && c.vol.Some?
    case Await(_) => c.at.Awaiting? && c.vol.Some? && c.point.Some?
    case StartDelete(_) => c.at.Idle?
    case Check(_) => c.at.Checking? && c.vol.Some? && c.point.Some?
    case DropPoint(_, _) => c.at.DroppingPoint? && c.vol.Some? && c.point.Some?
    case AwaitGone(_, _) => c.at.AwaitingGone? && c.vol.Some? && c.point.Some?
    case DropVolume(_, _) => c.at.DroppingVolume? && c.vol.Some? && c.point.Some?
    case Return => c.at.Created? || c.at.Rejected? || c.at.Deleted? || c.at.Undeleted?
  }

  /** With a volume in hand: wait for its first access point, or make one. */
  function WithVolume(c: Call, v: string, ps: seq<string>): Call {
    c.(at := if ps == [] then Pointing else Awaiting, vol := Some(v), point := First(ps))
  }

  /** checkIfVolumeExists by id finds nothing and reports no error; without an id it reports an error. */
  predicate Missing(s: Store, v: string, lookup: Lookup) {
    v != "" && (lookup == Absent || (lookup == Answers && !s.Has(v)))
  }

  function Act(s: Store, c: Call, step: Step): (Store, Call)
    requires Can(c, step)
  {
    match step
    case StartCreate(name, capacity) => (s, Call(if name == "" then Rejected else Looking, name, capacity, None, None))
    case Find(lookup) =>
      if lookup == Answers && c.name in s.vols then
        var found := s.vols[c.name];
        if found.capacity == c.capacity
        then (s, c.(at := Networking, vol := Some(found.id), point := First(found.points)))
        else (s, c.(at := Rejected))
      else (s, c.(at := Networking))
    case Network(ok) =>
      (s, c.(at := if !ok then Rejected else if c.vol.None? then Creating else if c.point.None? then Pointing
       else Awaiting))
    case Make(v, ps, fate) =>
      if fate == Refused || !s.CanMake(c.name, v, ps) then (s, c.(at := Rejected))
      else (s.Make(c.name, c.capacity, v, ps), if fate == Done then WithVolume(c, v, ps) else c.(at := Rejected))
    case MakePoint(p, fate) =>
      var v := c.vol.value;
      if fate == Refused || !s.Has(v) then (s, c.(at := Rejected))
      else if s.Points(v) != [] then
        (s, if fate == Done then c.(at := Awaiting, point := First(s.Points(v))) else c.(at := Rejected))
      else if p in s.owners then (s, c.(at := Rejected))
      else (s.AddPoint(v, p), if fate == Done then c.(at := Awaiting, point := Some(p)) else c.(at := Rejected))
    case Await(ok) => (s, c.(at := if ok && c.point.value in s.Points(c.vol.value) then Created else Rejected))
    case StartDelete(id) =>
      var tokens := GetTokens(id);
      if id == "" || |tokens| != 2 then (s, c.(at := Undeleted))
      else (s, Call(Checking, "", 0, Some(tokens[0]), Some(tokens[1])))
    case Check(lookup) =>
      (s, c.(at := if Missing(s, c.vol.value, lookup) then Deleted else DroppingPoint))
    case DropPoint(effect, ok) =>
      (if effect then s.DropPoint(c.vol.value, c.point.value) else s, c.(at := if ok then AwaitingGone else Undeleted))
    case AwaitGone(effect, ok) =>
      var s' := if effect then s.DropPoint(c.vol.value, c.point.value) else s;
      (s', c.(at := if ok && c.point.value !in s'.Points(c.vol.value) then DroppingVolume else Undeleted))
    case DropVolume(effect, ok) =>
      var s' := if effect then s.DropVolume(c.vol.value) else s;
      (s', c.(at := if ok && !s'.Has(c.vol.value) then Deleted else Undeleted))
    case Return => (s, IDLE)
  }

  // ------------------------------------------------------------------
  // Runs
  // ------------------------------------------------------------------

  /** A CreateVolume that returned the id vol#point. */
  datatype Grant = Grant(name: string, vol: string, point: string)

  datatype State = State(store: Store, calls: map<nat, Call>, grants: set<Grant>) {
    function At(t: nat): Call {
      if t in calls then calls[t] else IDLE
    }
  }

  /** A step of one call, or the driver going down with all of its calls. */
  datatype Action = Run(t: nat, step: Step) | Crash

  predicate Enabled(s: State, a: Action) {
    a.Run? ==> Can(s.At(a.t), a.step)
  }

  function Granted(c: Call): set<Grant> {
    if c.at.Created? && c.vol.Some? && c.point.Some? then {Grant(c.name, c.vol.value, c.point.value)} else {}
  }

  function Next(s: State, a: Action): State
    requires Enabled(s, a)
  {
    match a
    case Run(t, step) =>
      var (store, c) := Act(s.store, s.At(t), step);
      State(store, s.calls[t := c], s.grants + Granted(c))
    case Crash => s.(calls := map[])
  }

  ghost predicate Behaviour(states: seq<State>, actions: seq<Action>) {
    && |states| == |actions| + 1
    && Sound(states[0].store) && states[0].calls == map[] && states[0].grants == {}
    && (forall i :: 0 <= i < |actions| ==> Enabled(states[i], actions[i])
                                           && states[i + 1] == Next(states[i], actions[i]))
  }

  // ------------------------------------------------------------------
  // What every step keeps
  // ------------------------------------------------------------------

  ghost predicate Distinct(ps: seq<string>) {
    forall i, j :: 0 <= i < j < |ps| ==> ps[i] != ps[j]
  }

  ghost predicate SoundVol(s: Store, n: string, v: Vol) {
    && v.id in s.issued && s.issued[v.id] == n
    && Distinct(v.points)
    && (forall p <- v.points :: p in s.owners && s.owners[p] == v.id)
  }

  ghost predicate Sound(s: Store) {
    forall n <- s.vols :: SoundVol(s, n, s.vols[n])
  }

  /** vol was issued for name and point for vol; while the point exists it is the volume's first. */
  ghost predicate Claim(s: Store, g: Grant) {
    && g.vol in s.issued && s.issued[g.vol] == g.name
    && g.point in s.owners && s.owners[g.point] == g.vol
    && (g.point in s.Points(g.vol) ==> s.Points(g.vol)[0] == g.point)
  }

  predicate Making(at: Loc) {
    at.Networking? || at.Pointing? || at.Awaiting? || at.Created?
  }

  ghost predicate CallOk(s: Store, c: Call) {
    && (c.at.Looking? || c.at.Creating? ==> c.vol.None?)
    && (Making(c.at) && c.vol.Some? ==>
          && c.vol.value in s.issued && s.issued[c.vol.value] == c.name
          && (c.point.Some? ==> Claim(s, Grant(c.name, c.vol.value, c.point.value))))
  }

  ghost predicate Good(s: State) {
    && Sound(s.store)
    && (forall t <- s.calls :: CallOk(s.store, s.calls[t]))
    && (forall g <- s.grants :: Claim(s.store, g))
  }

  lemma {:induction false} RemoveKeeps(ps: seq<string>, p: string)
    requires Distinct(ps)
    ensures Distinct(Remove(ps, p)) && p !in Remove(ps, p)
    ensures forall q | q != p :: q in Remove(ps, p) <==> q in ps
    ensures ps != [] && ps[0] != p ==> Remove(ps, p) != [] && Remove(ps, p)[0] == ps[0]
  {
    if ps != [] {
      assert ps == [ps[0]] + ps[1..];
      assert Distinct(ps[1..]);
      if ps[0] != p {
        RemoveKeeps(ps[1..], p);
        var rest := Remove(ps[1..], p);
        assert ps[0] !in rest;
        assert Distinct([ps[0]] + rest);
      }
    }
  }

  /**
   How the store may move: nothing issued is forgotten, nothing gone comes back, and first access points stay first.
   */
  ghost predicate Moves(s: Store, s': Store) {
    && (forall v <- s.issued :: v in s'.issued && s'.issued[v] == s.issued[v])
    && (forall p <- s.owners :: p in s'.owners && s'.owners[p] == s.owners[p])
    && (forall v <- s.issued :: s'.Has(v) ==> s.Has(v))
    && (forall v, p | v in s.issued && p in s.owners && p in s'.Points(v) ::
          p in s.Points(v) && (s.Points(v)[0] == p ==> s'.Points(v)[0] == p))
  }

  lemma MakeMoves(s: Store, name: string, capacity: int, v: string, ps: seq<string>)
    requires Sound(s) && s.CanMake(name, v, ps)
    ensures Sound(s.Make(name, capacity, v, ps)) && Moves(s, s.Make(name, capacity, v, ps))
  {
    var s' := s.Make(name, capacity, v, ps);
    forall n <- s'.vols
      ensures SoundVol(s', n, s'.vols[n])
    {
      if n != name {
        assert SoundVol(s, n, s.vols[n]);
      }
    }
  }

  lemma AddMoves(s: Store, v: string, p: string)
    requires Sound(s) && s.Has(v) && s.Points(v) == [] && p !in s.owners
    ensures Sound(s.AddPoint(v, p)) && Moves(s, s.AddPoint(v, p))
  {
    var s' := s.AddPoint(v, p);
    forall n <- s'.vols
      ensures SoundVol(s', n, s'.vols[n])
    {
      assert SoundVol(s, n, s.vols[n]);
    }
  }

  lemma DropPointMoves(s: Store, v: string, p: string)
    requires Sound(s)
    ensures Sound(s.DropPoint(v, p)) && Moves(s, s.DropPoint(v, p)) && p !in s.DropPoint(v, p).Points(v)
  {
    var s' := s.DropPoint(v, p);
    if s.Has(v) {
      assert SoundVol(s, s.issued[v], s.vols[s.issued[v]]);
      RemoveKeeps(s.Points(v), p);
      forall n <- s'.vols
        ensures SoundVol(s', n, s'.vols[n])
      {
        assert SoundVol(s, n, s.vols[n]);
      }
    }
  }

  lemma DropVolumeMoves(s: Store, v: string)
    requires Sound(s)
    ensures Sound(s.DropVolume(v)) && Moves(s, s.DropVolume(v)) && !s.DropVolume(v).Has(v)
  {
    var s' := s.DropVolume(v);
    forall n <- s'.vols
      ensures SoundVol(s', n, s'.vols[n])
    {
      assert SoundVol(s, n, s.vols[n]);
    }
  }

  lemma StepMoves(s: Store, c: Call, step: Step)
    requires Sound(s) && Can(c, step)
    ensures Sound(Act(s, c, step).0) && Moves(s, Act(s, c, step).0)
  {
    match step
    case Make(v, ps, fate) =>
      if s.CanMake(c.name, v, ps) {
        MakeMoves(s, c.name, c.capacity, v, ps);
      }
    case MakePoint(p, fate) =>
      if s.Has(c.vol.value) && s.Points(c.vol.value) == [] && p !in s.owners {
        AddMoves(s, c.vol.value, p);
      }
    case DropPoint(effect, ok) => DropPointMoves(s, c.vol.value, c.point.value);
    case AwaitGone(effect, ok) => DropPointMoves(s, c.vol.value, c.point.value);
    case DropVolume(effect, ok) => DropVolumeMoves(s, c.vol.value);
    case _ =>
  }

  lemma ClaimStays(s: Store, s': Store, g: Grant)
    requires Moves(s, s') && Claim(s, g)
    ensures Claim(s', g)
  {
  }

  lemma CallStays(s: Store, s': Store, c: Call)
    requires Moves(s, s') && CallOk(s, c)
    ensures CallOk(s', c)
  {
    if Making(c.at) && c.vol.Some? && c.point.Some? {
      ClaimStays(s, s', Grant(c.name, c.vol.value, c.point.value));
    }
  }

  lemma OwnCallOk(s: Store, c: Call, step: Step)
    requires Sound(s) && CallOk(s, c) && Can(c, step)
    ensures CallOk(Act(s, c, step).0, Act(s, c, step).1)
  {
    StepMoves(s, c, step);
    match step
    case Find(lookup) =>
      if c.name in s.vols {
        assert SoundVol(s, c.name, s.vols[c.name]);
      }
    case MakePoint(p, fate) =>
      if s.Has(c.vol.value) {
        assert SoundVol(s, s.issued[c.vol.value], s.vols[s.issued[c.vol.value]]);
      }
    case Make(v, ps, fate) =>
    case _ =>
  }

  lemma NextGood(s: State, a: Action)
    requires Good(s) && Enabled(s, a)
    ensures Good(Next(s, a)) && Moves(s.store, Next(s, a).store)
  {
    if a.Run? {
      var c := s.At(a.t);
      assert CallOk(s.store, c);
      StepMoves(s.store, c, a.step);
      OwnCallOk(s.store, c, a.step);
      var (store, c') := Act(s.store, c, a.step);
      forall t <- s.calls
        ensures CallOk(store, s.calls[t])
      {
        CallStays(s.store, store, s.calls[t]);
      }
      forall g <- s.grants
        ensures Claim(store, g)
      {
        ClaimStays(s.store, store, g);
      }
    }
  }

  lemma {:induction false} GoodAlways(states: seq<State>, actions: seq<Action>, n: nat)
    requires Behaviour(states, actions) && n <= |actions|
    ensures Good(states[n])
  {
    if n > 0 {
      GoodAlways(states, actions, n - 1);
      assert Enabled(states[n - 1], actions[n - 1]) && states[n - 1 + 1] == Next(states[n - 1], actions[n - 1]);
      NextGood(states[n - 1], actions[n - 1]);
    }
  }

  // ------------------------------------------------------------------
  // Stable ids
  // ------------------------------------------------------------------

  predicate Live(s: Store, g: Grant) {
    g.point in s.Points(g.vol)
  }

  /** Over every run: of all the ids ever returned for a name, at most one still names an existing access point. */
  lemma OneLiveId(states: seq<State>, actions: seq<Action>, n: nat, g: Grant, g': Grant)
    requires Behaviour(states, actions) && n <= |actions|
    requires g in states[n].grants && g' in states[n].grants && g.name == g'.name
    requires Live(states[n].store, g) && Live(states[n].store, g')
    ensures g == g'
  {
    GoodAlways(states, actions, n);
  }

  /**
   Over every run: ids returned for different names share neither volume nor access point, and one volume has one id
   per access point.
   */
  lemma NamesNeverShare(states: seq<State>, actions: seq<Action>, n: nat, g: Grant, g': Grant)
    requires Behaviour(states, actions) && n <= |actions|
    requires g in states[n].grants && g' in states[n].grants && g.name != g'.name
    ensures g.vol != g'.vol && g.point != g'.point
  {
    GoodAlways(states, actions, n);
  }

  /** The step takes effect on the volume v in a way that may take away an access point. */
  predicate Removes(s: State, a: Action, v: string) {
    && a.Run? && s.At(a.t).vol == Some(v)
    && ((a.step.DropPoint? && a.step.effect) || (a.step.AwaitGone? && a.step.effect)
        || (a.step.DropVolume? && a.step.effect))
  }

  lemma LiveStays(s: State, a: Action, g: Grant)
    requires Good(s) && Enabled(s, a) && Claim(s.store, g) && Live(s.store, g) && !Removes(s, a, g.vol)
    ensures Live(Next(s, a).store, g)
  {
    if a.Run? {
      var c := s.At(a.t);
      match a.step
      case DropPoint(effect, ok) =>
        if effect {
          OtherStays(s.store, c.vol.value, c.point.value, g.vol);
        }
      case AwaitGone(effect, ok) =>
        if effect {
          OtherStays(s.store, c.vol.value, c.point.value, g.vol);
        }
      case DropVolume(effect, ok) =>
        if effect {
          OtherStays(s.store, c.vol.value, "", g.vol);
        }
      case _ =>
    }
  }

  lemma LiveClaimStays(s: State, a: Action, g: Grant)
    requires Good(s) && Enabled(s, a) && Claim(s.store, g) && Live(s.store, g) && !Removes(s, a, g.vol)
    ensures Claim(Next(s, a).store, g) && Live(Next(s, a).store, g)
  {
    NextGood(s, a);
    ClaimStays(s.store, Next(s, a).store, g);
    LiveStays(s, a, g);
  }

  /** Dropping from one volume leaves every other volume alone. */
  lemma OtherStays(s: Store, v: string, p: string, w: string)
    requires v != w
    ensures s.DropPoint(v, p).Has(w) == s.Has(w) && s.DropPoint(v, p).Points(w) == s.Points(w)
    ensures s.DropVolume(v).Has(w) == s.Has(w) && s.DropVolume(v).Points(w) == s.Points(w)
  {
  }

  ghost predicate Untouched(states: seq<State>, actions: seq<Action>, i: nat, j: nat, v: string)
    requires |states| == |actions| + 1 && j <= |actions|
  {
    forall k :: i <= k < j ==> !Removes(states[k], actions[k], v)
  }

  lemma {:induction false} LiveThrough(states: seq<State>, actions: seq<Action>, i: nat, j: nat, g: Grant)
    requires Behaviour(states, actions) && i <= j <= |actions|
    requires Claim(states[i].store, g) && Live(states[i].store, g) && Untouched(states, actions, i, j, g.vol)
    ensures Claim(states[j].store, g) && Live(states[j].store, g)
  {
    if i < j {
      LiveThrough(states, actions, i, j - 1, g);
      GoodAlways(states, actions, j - 1);
      var m := j - 1;
      assert Enabled(states[m], actions[m]) && states[m + 1] == Next(states[m], actions[m]);
      LiveClaimStays(states[m], actions[m], g);
    }
  }

  /** Step i makes a CreateVolume return the id of g. */
  ghost predicate Returns(states: seq<State>, actions: seq<Action>, i: nat, g: Grant)
    requires Behaviour(states, actions) && i < |actions|
  {
    actions[i].Run? && actions[i].step.Await? && g in Granted(states[i + 1].At(actions[i].t))
  }

  lemma ReturnedIsLive(states: seq<State>, actions: seq<Action>, i: nat, g: Grant)
    requires Behaviour(states, actions) && i < |actions| && Returns(states, actions, i, g)
    ensures Claim(states[i + 1].store, g) && Live(states[i + 1].store, g) && g in states[i + 1].grants
  {
    GoodAlways(states, actions, i + 1);
    var t := actions[i].t;
    assert Enabled(states[i], actions[i]) && states[i + 1] == Next(states[i], actions[i]);
  }

  /**
   Any two CreateVolume calls for one name return the same id exactly when the access point of the first is still
   there.
   */
  lemma SameIdExactly(states: seq<State>, actions: seq<Action>, i: nat, j: nat, g: Grant, g': Grant)
    requires Behaviour(states, actions) && i < j < |actions|
    requires Returns(states, actions, i, g) && Returns(states, actions, j, g') && g.name == g'.name
    ensures g == g' <==> Live(states[j + 1].store, g)
  {
    ReturnedIsLive(states, actions, i, g);
    ReturnedIsLive(states, actions, j, g');
    GoodAlways(states, actions, i + 1);
    ClaimThrough(states, actions, i + 1, j + 1, g);
  }

  lemma {:induction false} ClaimThrough(states: seq<State>, actions: seq<Action>, i: nat, j: nat, g: Grant)
    requires Behaviour(states, actions) && i <= j <= |actions| && Claim(states[i].store, g)
    ensures Claim(states[j].store, g)
  {
    if i < j {
      var m := j - 1;
      ClaimThrough(states, actions, i, m, g);
      GoodAlways(states, actions, m);
      assert Enabled(states[m], actions[m]) && states[m + 1] == Next(states[m], actions[m]);
      NextGood(states[m], actions[m]);
      ClaimStays(states[m].store, states[m + 1].store, g);
    }
  }

  /**
   The id is stable: CreateVolume calls for one name, however often failed, lost, retried or overlapped with others,
   return one id as long as no removal of that volume or of one of its access points takes effect in between.
   */
  lemma StableId(states: seq<State>, actions: seq<Action>, i: nat, j: nat, g: Grant, g': Grant)
    requires Behaviour(states, actions) && i < j < |actions|
    requires Returns(states, actions, i, g) && Returns(states, actions, j, g') && g.name == g'.name
    requires Untouched(states, actions, i + 1, j + 1, g.vol)
    ensures Printed(g.vol, g.point) == Printed(g'.vol, g'.point)
  {
    ReturnedIsLive(states, actions, i, g);
    LiveThrough(states, actions, i + 1, j + 1, g);
    SameIdExactly(states, actions, i, j, g, g');
  }

  // ------------------------------------------------------------------
  // Deletion
  // ------------------------------------------------------------------

  /** DeleteVolume on a returned id works on exactly that volume and that access point. */
  lemma DeleteAimsAtTheGrant(s: Store, g: Grant)
    requires '#' !in g.vol && '#' !in g.point
    ensures Act(s, IDLE, StartDelete(Printed(g.vol, g.point))) == (s, Call(Checking, "", 0, Some(g.vol), Some(g.point)))
  {
    TokensExactly(g.vol, g.point);
  }

  /** So does DeleteVolume on an id of the old format, with a colon. */
  lemma DeleteAimsAtTheOldId(s: Store, v: string, p: string)
    requires '#' !in v && '#' !in p && ':' !in v && ':' !in p
    ensures Act(s, IDLE, StartDelete(v + ":" + p)) == (s, Call(Checking, "", 0, Some(v), Some(p)))
  {
    OldTokensExactly(v, p);
  }

  predicate DeleteStep(step: Step) {
    step.Check? || step.DropPoint? || step.AwaitGone? || step.DropVolume?
  }

  /** Each of its steps leaves every other volume, and every other access point of its own, as it was. */
  lemma DeleteTouchesNothingElse(s: Store, c: Call, step: Step, w: string)
    requires Sound(s) && Can(c, step) && DeleteStep(step)
    ensures var (s', c') := Act(s, c, step);
            && c'.vol == c.vol && c'.point == c.point
            && (Some(w) != c.vol ==> s'.Has(w) == s.Has(w) && s'.Points(w) == s.Points(w))
            && (Some(w) == c.vol && s'.Has(w) ==> forall p | Some(p) != c.point :: p in s'.Points(w)
                                                                                   <==> p in s.Points(w))
  {
    if s.Has(c.vol.value) {
      assert SoundVol(s, s.issued[c.vol.value], s.vols[s.issued[c.vol.value]]);
      RemoveKeeps(s.Points(c.vol.value), c.point.value);
    }
    if Some(w) != c.vol {
      OtherStays(s, c.vol.value, c.point.value, w);
    }
  }

  /** The wait for the access point that lets thread t go on at time n. */
  ghost predicate WaitedAt(states: seq<State>, actions: seq<Action>, i: nat, n: nat, t: nat)
    requires |states| == |actions| + 1
  {
    && i < n <= |actions|
    && actions[i].Run? && actions[i].t == t && actions[i].step.AwaitGone? && actions[i].step.ok
    && states[i].At(t).vol == states[n].At(t).vol && states[i].At(t).point == states[n].At(t).point
    && states[n].At(t).vol.Some? && states[n].At(t).point.Some?
    && states[n].At(t).point.value !in states[i + 1].store.Points(states[n].At(t).vol.value)
    && (forall m :: i < m <= n ==> states[m].At(t).at.DroppingVolume?)
  }

  lemma DroppingComesFromWait(s: Store, c: Call, step: Step)
    requires Can(c, step) && Act(s, c, step).1.at.DroppingVolume?
    ensures step.AwaitGone? && step.ok && Act(s, c, step).1.vol == c.vol && Act(s, c, step).1.point == c.point
    ensures c.vol.Some? && c.point.Some? && c.point.value !in Act(s, c, step).0.Points(c.vol.value)
  {
  }

  /**
   In every run a DeleteVolume that is about to delete the volume has waited, successfully, for its access point to
   go.
   */
  lemma {:induction false} WaitsBeforeDropping(states: seq<State>, actions: seq<Action>, n: nat, t: nat)
    requires Behaviour(states, actions) && n <= |actions| && states[n].At(t).at.DroppingVolume?
    ensures exists i: nat :: WaitedAt(states, actions, i, n, t)
  {
    var m := n - 1;
    assert Enabled(states[m], actions[m]) && states[m + 1] == Next(states[m], actions[m]);
    if actions[m].Run? && actions[m].t == t {
      DroppingComesFromWait(states[m].store, states[m].At(t), actions[m].step);
      assert WaitedAt(states, actions, m, n, t);
    } else {
      assert states[n].At(t) == states[m].At(t);
      WaitsBeforeDropping(states, actions, m, t);
      var i: nat :| WaitedAt(states, actions, i, m, t);
      assert WaitedAt(states, actions, i, n, t);
    }
  }

  lemma MovesOn(s: Store, s': Store, s'': Store)
    requires Moves(s, s') && Moves(s', s'')
    ensures Moves(s, s'')
  {
  }

  /** Over a whole run nothing that is gone comes back. */
  lemma {:induction false} MovesThrough(states: seq<State>, actions: seq<Action>, i: nat, j: nat)
    requires Behaviour(states, actions) && i <= j <= |actions|
    ensures Moves(states[i].store, states[j].store)
  {
    if i < j {
      var m := j - 1;
      MovesThrough(states, actions, i, m);
      GoodAlways(states, actions, m);
      assert Enabled(states[m], actions[m]) && states[m + 1] == Next(states[m], actions[m]);
      NextGood(states[m], actions[m]);
      MovesOn(states[i].store, states[m].store, states[j].store);
    }
  }

  /**
   So when DeleteVolume, called on an id that was returned before, deletes the volume, its access point is not there
   any more.
   */
  lemma PointGoesFirst(states: seq<State>, actions: seq<Action>, k: nat, n: nat, t: nat, g: Grant)
    requires Behaviour(states, actions) && k <= n <= |actions|
    requires g in states[k].grants && states[k].At(t).at.Idle?
    requires states[n].At(t).at.DroppingVolume? && states[n].At(t).vol == Some(g.vol)
             && states[n].At(t).point == Some(g.point)
    ensures g.point !in states[n].store.Points(g.vol)
  {
    WaitsBeforeDropping(states, actions, n, t);
    var i: nat :| WaitedAt(states, actions, i, n, t);
    GoodAlways(states, actions, k);
    MovesThrough(states, actions, k, i + 1);
    MovesThrough(states, actions, i + 1, n);
  }

  /**
   A step that makes DeleteVolume succeed leaves the volume behind exactly when a lookup error stood for "not found"
   while it was there.
   */
  lemma DeletedExactly(s: Store, c: Call, step: Step)
    requires Can(c, step) && Act(s, c, step).1.at.Deleted?
    ensures c.vol.Some?
    ensures Act(s, c, step).0.Has(c.vol.value) <==> step == Check(Absent) && s.Has(c.vol.value)
  {
  }

  /**
   Once an issued volume is gone, a repeated DeleteVolume succeeds at its lookup, unless that fails with some other
   error.
   */
  lemma RepeatedDelete(states: seq<State>, actions: seq<Action>, i: nat, j: nat, c: Call, lookup: Lookup)
    requires Behaviour(states, actions) && i <= j <= |actions|
    requires c.at.Checking? && c.vol.Some? && c.point.Some?
    requires c.vol.value in states[i].store.issued && !states[i].store.Has(c.vol.value)
    ensures Act(states[j].store, c, Check(lookup)).1.at.Deleted? <==> lookup != Broken && c.vol.value != ""
    ensures Act(states[j].store, c, Check(lookup)).0 == states[j].store
  {
    MovesThrough(states, actions, i, j);
  }

  // ------------------------------------------------------------------
  // Retrying CreateVolume
  // ------------------------------------------------------------------

  /** A lookup that fails although the name is taken: the call goes on to create, and the provider turns it down. */
  lemma FallThroughIsHarmless(s: Store, c: Call, lookup: Lookup, v: string, ps: seq<string>, fate: Fate)
    requires c.at.Looking? && c.vol.None? && c.point.None? && c.name in s.vols && lookup != Answers
    ensures var (s1, c1) := Act(s, c, Find(lookup));
            var (s2, c2) := Act(s1, c1, Network(true));
            c2.at.Creating? && Act(s2, c2, Make(v, ps, fate)) == (s, c2.(at := Rejected))
  {
  }

  /** A creation that took effect but reported an error: the retry finds that volume and makes no other. */
  lemma RetryFindsTheLostVolume(s: Store, c: Call, v: string, ps: seq<string>)
    requires c.at.Creating? && s.CanMake(c.name, v, ps) && c.name != ""
    ensures var (s1, c1) := Act(s, c, Make(v, ps, Lost));
            var (s2, c2) := Act(s1, IDLE, StartCreate(c.name, c.capacity));
            var (s3, c3) := Act(s2, c2, Find(Answers));
            var (s4, c4) := Act(s3, c3, Network(true));
            c1.at.Rejected? && s4 == s1 && c4.vol == Some(v)
            && (if ps == [] then c4.at.Pointing? else c4.at.Awaiting? && c4.point == Some(ps[0]))
  {
  }

  // ------------------------------------------------------------------
  // Whole calls
  // ------------------------------------------------------------------

  /** A step that the call's branches may skip. */
  function Try(sc: (Store, Call), step: Step): (Store, Call) {
    if Can(sc.1, step) then Act(sc.0, sc.1, step) else sc
  }

  /** What the provider answers during one CreateVolume. */
  datatype CreateAnswers = CreateAnswers(find: Lookup, network: bool, v: string, ps: seq<string>, make: Fate,
                                         p: string, point: Fate, wait: bool)

  /** CreateVolume with nothing running beside it. */
  function CreateCall(s: Store, name: string, capacity: int, a: CreateAnswers): (Store, Call) {
    FromNetwork(Try(Try((s, IDLE), StartCreate(name, capacity)), Find(a.find)), a)
  }

  /** The part after the lookup. */
  function FromNetwork(looked: (Store, Call), a: CreateAnswers): (Store, Call) {
    var made := Try(Try(looked, Network(a.network)), Make(a.v, a.ps, a.make));
    Try(Try(made, MakePoint(a.p, a.point)), Await(a.wait))
  }

  /** The call at the end of its lookup. */
  function Looked(name: string, capacity: int, found: Option<Vol>): Call {
    Call(Networking, name, capacity, if found.Some? then Some(found.value.id) else None, if found.Some?
         then First(found.value.points) else None)
  }

  lemma LookupOutcome(s: Store, name: string, capacity: int, a: CreateAnswers)
    requires name != ""
    ensures var found := if a.find == Answers && name in s.vols then Some(s.vols[name]) else None;
            if (found.Some? && found.value.capacity != capacity) || !a.network
            then CreateCall(s, name, capacity, a).0 == s && CreateCall(s, name, capacity, a).1.at.Rejected?
            else CreateCall(s, name, capacity, a) == FromNetwork((s, Looked(name, capacity, found)), a)
  {
  }

  /** A missing name, another size under that name, or no network: nothing is created and the call fails. */
  lemma CreateRefused(s: Store, name: string, capacity: int, a: CreateAnswers)
    requires name == "" || !a.network || (a.find == Answers && name in s.vols && s.vols[name].capacity != capacity)
    ensures CreateCall(s, name, capacity, a).0 == s && CreateCall(s, name, capacity, a).1.at.Rejected?
  {
  }

  /** A name that the lookup did not find: what the answer to the creation leaves, and which id the call returns. */
  lemma CreateNew(s: Store, name: string, capacity: int, a: CreateAnswers)
    requires name != "" && a.network && !(a.find == Answers && name in s.vols) && a.ps != []
    ensures var (s', c) := CreateCall(s, name, capacity, a);
            if a.make == Refused || !s.CanMake(name, a.v, a.ps) then s' == s && c.at.Rejected?
            else
              && name in s'.vols && s'.vols == s.vols[name := Vol(a.v, capacity, a.ps)]
              && (c.at.Created? <==> a.make == Done && a.wait)
              && (c.at.Created? ==> c.vol == Some(a.v) && c.point == Some(a.ps[0]))
  {
    var made := s.Make(name, capacity, a.v, a.ps);
    assert made.Points(a.v) == a.ps;
    LookupOutcome(s, name, capacity, a);
  }

  /** What CreateVolumeAccessPoint leaves: an existing access point is returned, a new one is the only one. */
  lemma MakePointOutcome(s: Store, c: Call, v: string, p: string, fate: Fate)
    requires c.at.Pointing? && c.vol == Some(v)
    ensures var (s', c') := Act(s, c, MakePoint(p, fate));
            && (fate == Refused || !s.Has(v) || (s.Points(v) == [] && p in s.owners) ==> s' == s && c'.at.Rejected?)
            && (fate != Refused && s.Has(v) && s.Points(v) != [] ==>
                  s' == s && (if fate == Done then c'.at.Awaiting? && c'.point == Some(s.Points(v)[0])
                              else c'.at.Rejected?))
            && (fate != Refused && s.Has(v) && s.Points(v) == [] && p !in s.owners ==>
                  s'.Points(v) == [p] && (if fate == Done then c'.at.Awaiting? && c'.point == Some(p)
                                          else c'.at.Rejected?))
  {
  }

  /** A name that the lookup found, with an access point and the right size: that volume and its first access point. */
  lemma CreateFound(s: Store, name: string, capacity: int, a: CreateAnswers)
    requires Sound(s) && name != "" && a.network && a.find == Answers && name in s.vols
    requires s.vols[name].capacity == capacity && s.vols[name].points != []
    ensures var (s', c) := CreateCall(s, name, capacity, a);
            && s' == s && (c.at.Created? <==> a.wait)
            && (c.at.Created? ==> c.vol == Some(s.vols[name].id) && c.point == Some(s.vols[name].points[0]))
  {
    assert SoundVol(s, name, s.vols[name]);
    assert s.Points(s.vols[name].id) == s.vols[name].points;
    LookupOutcome(s, name, capacity, a);
  }

  /** What the provider answers during one DeleteVolume. */
  datatype DeleteAnswers = DeleteAnswers(find: Lookup, drop: bool, dropOk: bool, late: bool, waitOk: bool,
                                         delete: bool, deleteOk: bool)

  /** DeleteVolume with nothing running beside it. */
  function DeleteCall(s: Store, id: string, a: DeleteAnswers): (Store, Call) {
    FromDropPoint(Try(Try((s, IDLE), StartDelete(id)), Check(a.find)), a)
  }

  /** The part after the lookup. */
  function FromDropPoint(looked: (Store, Call), a: DeleteAnswers): (Store, Call) {
    var dropped := Try(Try(looked, DropPoint(a.drop, a.dropOk)), AwaitGone(a.late, a.waitOk));
    Try(dropped, DropVolume(a.delete, a.deleteOk))
  }

  lemma DeleteIsOver(sc: (Store, Call), a: DeleteAnswers)
    requires sc.1.at.Deleted? || sc.1.at.Undeleted?
    ensures FromDropPoint(sc, a) == sc
  {
  }

  /** What the part after the lookup comes to. */
  lemma DropOutcome(s: Store, v: string, p: string, a: DeleteAnswers)
    ensures var s1 := if a.drop then s.DropPoint(v, p) else s;
            var s2 := if a.late then s1.DropPoint(v, p) else s1;
            var s3 := if a.delete then s2.DropVolume(v) else s2;
            var (s', c) := FromDropPoint((s, Call(DroppingPoint, "", 0, Some(v), Some(p))), a);
            if !a.dropOk then s' == s1 && !c.at.Deleted?
            else if !a.waitOk || p in s2.Points(v) then s' == s2 && !c.at.Deleted?
            else s' == s3 && (c.at.Deleted? <==> a.deleteOk && !s3.Has(v))
  {
    var start := (s, Call(DroppingPoint, "", 0, Some(v), Some(p)));
    var dropped := Try(start, DropPoint(a.drop, a.dropOk));
    var waited := Try(dropped, AwaitGone(a.late, a.waitOk));
    assert FromDropPoint(start, a) == Try(waited, DropVolume(a.delete, a.deleteOk));
  }

  lemma CheckOutcome(s: Store, id: string, a: DeleteAnswers)
    requires id != ""
    ensures var tokens := GetTokens(id);
            if |tokens| != 2 then DeleteCall(s, id, a).0 == s && DeleteCall(s, id, a).1.at.Undeleted?
            else if Missing(s, tokens[0], a.find)
            then DeleteCall(s, id, a).0 == s && DeleteCall(s, id, a).1.at.Deleted?
            else
              var c := Call(DroppingPoint, "", 0, Some(tokens[0]), Some(tokens[1]));
              DeleteCall(s, id, a) == FromDropPoint((s, c), a)
  {
    var looked := Try(Try((s, IDLE), StartDelete(id)), Check(a.find));
    if looked.1.at.Deleted? || looked.1.at.Undeleted? {
      DeleteIsOver(looked, a);
    }
  }

  const ALL_WELL := DeleteAnswers(Answers, true, true, false, true, true, true)
  const WAIT_FAILS := DeleteAnswers(Answers, true, true, false, false, false, false)

  /** A first CreateVolume, with nothing going wrong. */
  lemma CreateMakes(s: Store, name: string, capacity: int, v: string, p: string)
    requires name != "" && s.CanMake(name, v, [p])
    ensures var a := CreateAnswers(Answers, true, v, [p], Done, "", Refused, true);
            CreateCall(s, name, capacity, a) ==
            (s.Make(name, capacity, v, [p]), Call(Created, name, capacity, Some(v), Some(p)))
  {
    var made := s.Make(name, capacity, v, [p]);
    assert made.Points(v) == [p];
  }

  /** A DeleteVolume on an existing volume with one access point, with nothing going wrong. */
  lemma DeleteRemoves(s: Store, v: string, p: string)
    requires s.Has(v) && s.Points(v) == [p] && '#' !in v && '#' !in p
    ensures var (s', c) := DeleteCall(s, Printed(v, p), ALL_WELL); c.at.Deleted? && s'.vols == s.vols - {s.issued[v]}
  {
    TokensExactly(v, p);
    var (s1, c1) := Act(s, IDLE, StartDelete(Printed(v, p)));
    assert s.DropPoint(v, p).Points(v) == [];
    assert s.DropPoint(v, p).DropVolume(v).vols == s.vols - {s.issued[v]};
  }

  /** Deleting a volume that is gone succeeds and changes nothing, unless the lookup fails with some other error. */
  lemma DeleteAgain(s: Store, v: string, p: string, a: DeleteAnswers)
    requires !s.Has(v) && v != "" && '#' !in v && '#' !in p && a.find != Broken
    ensures var (s', c) := DeleteCall(s, Printed(v, p), a); c.at.Deleted? && s' == s
  {
    TokensExactly(v, p);
  }

  /** Deleting what was created gives back the volumes there were. */
  lemma DeleteUndoesCreate(s: Store, name: string, capacity: int, v: string, p: string)
    requires name != "" && s.CanMake(name, v, [p]) && '#' !in v && '#' !in p
    ensures var a := CreateAnswers(Answers, true, v, [p], Done, "", Refused, true);
            var (s1, c1) := CreateCall(s, name, capacity, a);
            var (s2, c2) := DeleteCall(s1, Printed(v, p), ALL_WELL);
            && c1.at.Created? && c2.at.Deleted? && s2.vols == s.vols
  {
    CreateMakes(s, name, capacity, v, p);
    var s1 := s.Make(name, capacity, v, [p]);
    DeleteRemoves(s1, v, p);
    assert s1.vols - {name} == s.vols;
  }

  /** A retrieval error at the lookup makes DeleteVolume report success and leave everything in place. */
  lemma RetrievalErrorLeaks(s: Store, v: string, p: string, a: DeleteAnswers)
    requires v != "" && '#' !in v && '#' !in p && a.find == Absent
    ensures var (s', c) := DeleteCall(s, Printed(v, p), a); c.at.Deleted? && s' == s
  {
    TokensExactly(v, p);
  }

  lemma DeletionStopsHalfway(s: Store, v: string, p: string)
    requires s.Has(v) && s.Points(v) == [p] && '#' !in v && '#' !in p
    ensures DeleteCall(s, Printed(v, p), WAIT_FAILS).0 == s.DropPoint(v, p)
    ensures DeleteCall(s, Printed(v, p), WAIT_FAILS).1.at.Undeleted?
  {
    TokensExactly(v, p);
  }

  lemma CreateAddsThePoint(s: Store, name: string, q: string, a: CreateAnswers)
    requires name != "" && name in s.vols && s.vols[name].points == [] && s.Has(s.vols[name].id)
    requires q !in s.owners && s.issued[s.vols[name].id] == name
    requires a.find == Answers && a.network && a.p == q && a.point == Done && a.wait
    ensures CreateCall(s, name, s.vols[name].capacity, a).1 == Call(Created, name, s.vols[name].capacity,
                                                                    Some(s.vols[name].id), Some(q))
  {
    assert s.AddPoint(s.vols[name].id, q).Points(s.vols[name].id) == [q];
  }

  /** A deletion that stops after the access point: the next CreateVolume returns the same volume under another id. */
  lemma HalfDeletionChangesTheId(s: Store, name: string, p: string, q: string, a: CreateAnswers)
    requires Sound(s) && name != "" && name in s.vols && s.vols[name].points == [p]
    requires '#' !in s.vols[name].id && '#' !in p && q !in s.owners
    requires a.find == Answers && a.network && a.p == q && a.point == Done && a.wait
    ensures var v := s.vols[name].id;
            var (s1, c1) := DeleteCall(s, Printed(v, p), WAIT_FAILS);
            var (s2, c2) := CreateCall(s1, name, s.vols[name].capacity, a);
            && c1.at.Undeleted? && c2.at.Created? && c2.vol == Some(v) && c2.point == Some(q)
            && Printed(v, p) != Printed(v, q)
  {
    var v := s.vols[name].id;
    assert SoundVol(s, name, s.vols[name]);
    DeletionStopsHalfway(s, v, p);
    CreateAddsThePoint(s.DropPoint(v, p), name, q, a);
    assert p in s.owners;
    assert Printed(v, p)[|v| + 1..] == p && Printed(v, q)[|v| + 1..] == q;
  }
}
