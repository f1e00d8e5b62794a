/**
 The two maps of the tunnel manager: volume -> port and its reverse index
 port -> volume, the scan for a free port, and the rebuild after a restart.
 */
module PortMaps {
  import opened Wrappers

  /** The ports the manager may hand out: lo, lo + 1, ..., lo + size - 1. */
  datatype PortRange = PortRange(lo: int, size: nat) {
    predicate Has(p: int) {
      lo <= p < lo + size
    }
  }

  datatype Maps = Maps(ports: map<string, int>, owners: map<int, string>) {
    /** Commit: both maps gain the pair. */
    function Bind(v: string, p: int): Maps {
      Maps(ports[v := p], owners[p := v])
    }

    /** Release: each map loses its own key. */
    function Unbind(v: string, p: int): Maps {
      Maps(ports - {v}, owners - {p})
    }
  }

  const NO_TUNNELS := Maps(map[], map[])

  ghost predicate Inverse(m: Maps) {
    && (forall v <- m.ports :: m.ports[v] in m.owners && m.owners[m.ports[v]] == v)
    && (forall p <- m.owners :: m.owners[p] in m.ports && m.ports[m.owners[p]] == p)
  }

  ghost predicate InRange(m: Maps, r: PortRange) {
    && (forall v <- m.ports :: r.Has(m.ports[v]))
    && (forall p <- m.owners :: r.Has(p))
  }

  /** No two volumes are given the same port. */
  ghost predicate Injective(files: map<string, int>) {
    forall v, w :: v in files && w in files && files[v] == files[w] ==> v == w
  }

  // ------------------------------------------------------------------
  // Binding and unbinding
  // ------------------------------------------------------------------

  /** Writing a pair over inverse maps keeps them inverse exactly when neither half is taken by another partner. */
  lemma BindKeepsInverse(m: Maps, v: string, p: int)
    requires Inverse(m)
    ensures Inverse(m.Bind(v, p)) <==>
            (v in m.ports ==> m.ports[v] == p) && (p in m.owners ==> m.owners[p] == v)
  {
    var m' := m.Bind(v, p);
    if v in m.ports && m.ports[v] != p {
      assert m'.owners[m.ports[v]] == v;
    }
    if p in m.owners && m.owners[p] != v {
      assert m'.ports[m.owners[p]] == p;
    }
  }

  lemma UnbindKeepsInverse(m: Maps, v: string, p: int)
    requires Inverse(m) && v in m.ports && m.ports[v] == p
    ensures Inverse(m.Unbind(v, p))
  {
    forall w <- m.Unbind(v, p).ports
      ensures m.ports[w] in m.Unbind(v, p).owners
    {
      assert m.owners[m.ports[w]] == w;
    }
    forall q <- m.Unbind(v, p).owners
      ensures m.owners[q] in m.Unbind(v, p).ports
    {
      assert m.ports[m.owners[q]] == q;
    }
  }

  /** Putting back what was just released restores the maps. */
  lemma BindAfterUnbind(m: Maps, v: string, p: int)
    requires v in m.ports && m.ports[v] == p && p in m.owners && m.owners[p] == v
    ensures m.Unbind(v, p).Bind(v, p) == m
  {
    assert (m.ports - {v})[v := p] == m.ports;
    assert (m.owners - {p})[p := v] == m.owners;
  }

  /** Releasing what was just committed restores the maps. */
  lemma UnbindAfterBind(m: Maps, v: string, p: int)
    requires v !in m.ports && p !in m.owners
    ensures m.Bind(v, p).Unbind(v, p) == m
  {
    assert m.ports[v := p] - {v} == m.ports;
    assert m.owners[p := v] - {p} == m.owners;
  }

  // ------------------------------------------------------------------
  // The scan for a free port
  // ------------------------------------------------------------------

  predicate Free(owners: map<int, string>, busy: set<int>, p: int) {
    p !in owners && p !in busy
  }

  /** The scan over [from, end), in increasing order. */
  function LeastFreeFrom(owners: map<int, string>, busy: set<int>, from: int, end: int): Option<int>
    decreases end - from
  {
    if from >= end then None
    else if Free(owners, busy, from) then Some(from)
    else LeastFreeFrom(owners, busy, from + 1, end)
  }

  function LeastFree(owners: map<int, string>, busy: set<int>, r: PortRange): Option<int> {
    LeastFreeFrom(owners, busy, r.lo, r.lo + r.size)
  }

  /** p is the smallest free port of [from, end). */
  ghost predicate IsLeastFree(owners: map<int, string>, busy: set<int>, from: int, end: int, p: int) {
    from <= p < end && Free(owners, busy, p) && forall q :: from <= q < p ==> !Free(owners, busy, q)
  }

  lemma {:induction false} ScanFindsTheLeast(owners: map<int, string>, busy: set<int>, from: int, end: int)
    ensures forall p :: LeastFreeFrom(owners, busy, from, end) == Some(p) <==> IsLeastFree(owners, busy, from, end, p)
    ensures LeastFreeFrom(owners, busy, from, end).None? <==> forall p :: from <= p < end ==> !Free(owners, busy, p)
    decreases end - from
  {
    if from < end {
      ScanFindsTheLeast(owners, busy, from + 1, end);
      forall p
        ensures IsLeastFree(owners, busy, from, end, p) <==>
                if Free(owners, busy, from) then p == from else IsLeastFree(owners, busy, from + 1, end, p)
      {
      }
    }
  }

  /**
   The scan answers p exactly when p is the least port of the range neither allocated nor busy, and fails exactly
   when there is none.
   */
  lemma LeastFreeExactly(owners: map<int, string>, busy: set<int>, r: PortRange)
    ensures forall p :: LeastFree(owners, busy, r) == Some(p) <==> IsLeastFree(owners, busy, r.lo, r.lo + r.size, p)
    ensures LeastFree(owners, busy, r).None? <==> forall p :: r.Has(p) ==> !Free(owners, busy, p)
  {
    ScanFindsTheLeast(owners, busy, r.lo, r.lo + r.size);
  }

  /** What a successful scan promises the caller. */
  lemma PickedIsFree(owners: map<int, string>, busy: set<int>, r: PortRange)
    ensures LeastFree(owners, busy, r).Some? ==>
              && r.Has(LeastFree(owners, busy, r).value)
              && LeastFree(owners, busy, r).value !in owners
              && LeastFree(owners, busy, r).value !in busy
  {
    LeastFreeExactly(owners, busy, r);
  }

  // ------------------------------------------------------------------
  // Pigeonhole
  // ------------------------------------------------------------------

  lemma UnbindSizes(m: Maps, v: string, p: int)
    requires v in m.ports && p in m.owners
    ensures |m.Unbind(v, p).ports| == |m.ports| - 1 && |m.Unbind(v, p).owners| == |m.owners| - 1
  {
    assert m.Unbind(v, p).ports.Keys == m.ports.Keys - {v};
    assert m.Unbind(v, p).owners.Keys == m.owners.Keys - {p};
  }

  lemma {:induction false} InverseMapsHaveOneSize(m: Maps)
    requires Inverse(m)
    ensures |m.ports| == |m.owners|
    decreases |m.ports|
  {
    if m.ports.Keys == {} {
      assert forall p <- m.owners :: m.owners[p] in m.ports.Keys;
      assert m.owners.Keys == {};
    } else {
      var v :| v in m.ports.Keys;
      var p := m.ports[v];
      UnbindKeepsInverse(m, v, p);
      UnbindSizes(m, v, p);
      InverseMapsHaveOneSize(m.Unbind(v, p));
    }
  }

  ghost function Interval(from: int, n: nat): (s: set<int>)
    ensures |s| == n
    ensures forall q :: q in s <==> from <= q < from + n
  {
    if n == 0 then {} else Interval(from, n - 1) + {from + n - 1}
  }

  lemma SubsetIsNoLarger<T>(a: set<T>, b: set<T>)
    requires a <= b
    ensures |a| <= |b|
  {
    assert b == a + (b - a);
  }

  lemma SomeOutside<T>(a: set<T>, b: set<T>) returns (x: T)
    requires |a| < |b|
    ensures x in b && x !in a
  {
    if b <= a {
      SubsetIsNoLarger(b, a);
    }
    x :| x in b && x !in a;
  }

  /** Tunnels never outnumber ports. */
  lemma TunnelsFitTheRange(m: Maps, r: PortRange)
    requires Inverse(m) && InRange(m, r)
    ensures |m.ports| <= r.size
  {
    InverseMapsHaveOneSize(m);
    SubsetIsNoLarger(m.owners.Keys, Interval(r.lo, r.size));
  }

  /** With fewer tunnels than ports and every unallocated port bindable, the scan succeeds. */
  lemma AllocationSucceeds(m: Maps, r: PortRange, busy: set<int>)
    requires Inverse(m) && InRange(m, r) && |m.ports| < r.size
    requires forall p :: r.Has(p) && p in busy ==> p in m.owners
    ensures LeastFree(m.owners, busy, r).Some?
  {
    InverseMapsHaveOneSize(m);
    var p := SomeOutside(m.owners.Keys, Interval(r.lo, r.size));
    assert r.Has(p) && Free(m.owners, busy, p);
    LeastFreeExactly(m.owners, busy, r);
  }

  // ------------------------------------------------------------------
  // Rebuilding the maps from a directory listing
  // ------------------------------------------------------------------

  /** `order` lists every key once, as a directory listing does. */
  ghost predicate Lists(order: seq<string>, files: map<string, int>) {
    && (forall i :: 0 <= i < |order| ==> order[i] in files)
    && (forall v <- files :: v in order)
    && (forall i, j :: 0 <= i < j < |order| ==> order[i] != order[j])
  }

  /** The recovery loop after the entries of `order`: each in-range port overwrites both maps. */
  function Recovered(order: seq<string>, files: map<string, int>, r: PortRange): Maps {
    if order == [] then NO_TUNNELS
    else
      var before := Recovered(order[..|order| - 1], files, r);
      var v := order[|order| - 1];
      if v in files && r.Has(files[v]) then before.Bind(v, files[v]) else before
  }

  ghost predicate Recoverable(files: map<string, int>, r: PortRange, v: string) {
    v in files && r.Has(files[v])
  }

  lemma {:induction false} RecoveredContents(order: seq<string>, files: map<string, int>, r: PortRange)
    ensures forall v :: v in Recovered(order, files, r).ports <==> v in order && Recoverable(files, r, v)
    ensures forall v <- Recovered(order, files, r).ports ::
              v in files && Recovered(order, files, r).ports[v] == files[v]
    ensures forall v <- Recovered(order, files, r).ports ::
              Recovered(order, files, r).ports[v] in Recovered(order, files, r).owners
    ensures forall p <- Recovered(order, files, r).owners ::
              var w := Recovered(order, files, r).owners[p];
              w in order && Recoverable(files, r, w) && files[w] == p
  {
    if order != [] {
      var init := order[..|order| - 1];
      RecoveredContents(init, files, r);
      assert order == init + [order[|order| - 1]];
    }
  }

  /** The listed in-range entries name pairwise different ports. */
  ghost predicate NoSharedPort(files: map<string, int>, r: PortRange) {
    forall v, w :: Recoverable(files, r, v) && Recoverable(files, r, w) && files[v] == files[w] ==> v == w
  }

  /** Recovery takes over every in-range entry; its maps are inverse exactly when no port is named twice. */
  lemma RecoveryIsInverseExactly(order: seq<string>, files: map<string, int>, r: PortRange)
    requires Lists(order, files)
    ensures var m := Recovered(order, files, r);
            && InRange(m, r)
            && (forall v :: v in m.ports <==> Recoverable(files, r, v))
            && (forall v <- m.ports :: m.ports[v] == files[v])
            && (Inverse(m) <==> NoSharedPort(files, r))
  {
    var m := Recovered(order, files, r);
    RecoveredContents(order, files, r);
    if Inverse(m) {
      forall v, w | Recoverable(files, r, v) && Recoverable(files, r, w) && files[v] == files[w]
        ensures v == w
      {
        assert m.owners[m.ports[v]] == v && m.owners[m.ports[w]] == w;
      }
    }
  }
}
