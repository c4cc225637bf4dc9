/** The UE pool overlap rule: a sort and one sweep that remembers only the interval reaching furthest,
    against the definition by pairs. */
module Sweep {
  import opened Wrappers

  /** One session of an SMF or UPF. */
  datatype Session = Session(dnn: string, subnet: string, loc: string)

  /** An IP network, by the numbers of its first and last address. */
  datatype Network = Network(version: int, first: nat, last: nat, prefixlen: nat)

  /** A session with the network its subnet parses to. */
  datatype Pool = Pool(session: Session, net: Network)

  datatype Issue = Overlap(first: Session, second: Session)

  /** Parsed subnets reach from their first to their last address. */
  ghost predicate Sound(net: string -> Option<Network>) {
    forall s :: net(s).Some? ==> net(s).value.first <= net(s).value.last
  }

  /** The sessions whose subnet is there and parses. */
  function Pools(sessions: seq<Session>, net: string -> Option<Network>): seq<Pool> {
    if sessions == [] then []
    else
      var init, s := Pools(sessions[..|sessions| - 1], net), sessions[|sessions| - 1];
      if s.subnet == "" || net(s.subnet).None? then init else init + [Pool(s, net(s.subnet).value)]
  }

  predicate Meet(a: Network, b: Network) { a.version == b.version && a.first <= b.last && b.first <= a.last }

  /** An SMF and a UPF that name the same subnet for the same data network agree; that is no overlap. */
  predicate Agree(a: Session, b: Session) { a.dnn != "" && a.dnn == b.dnn && a.subnet == b.subnet }

  predicate Conflict(a: Pool, b: Pool) { Meet(a.net, b.net) && !Agree(a.session, b.session) }

  predicate HasAddress(n: Network, x: nat) { n.first <= x <= n.last }

  /** Two pools conflict exactly when some address is in both networks, unless they name the same subnet for the same
      data network. */
  lemma ConflictIs(a: Pool, b: Pool)
    requires a.net.first <= a.net.last && b.net.first <= b.net.last
    ensures Conflict(a, b) <==>
              && a.net.version == b.net.version
              && (exists x: nat :: HasAddress(a.net, x) && HasAddress(b.net, x))
              && !(a.session.dnn != "" && a.session.dnn == b.session.dnn && a.session.subnet == b.session.subnet)
  {
    if Meet(a.net, b.net) {
      var x := Max(a.net.first, b.net.first);
      assert HasAddress(a.net, x) && HasAddress(b.net, x);
    }
  }

  /** Some two of the pools conflict. */
  ghost predicate AnyConflict(pools: seq<Pool>) {
    exists i, j :: 0 <= i < j < |pools| && Conflict(pools[i], pools[j])
  }

  /** The report names two pools that conflict. */
  ghost predicate IsConflictOf(pools: seq<Pool>, o: Issue) {
    exists a, b :: a in pools && b in pools && Conflict(a, b) && o == Overlap(a.session, b.session)
  }

  // ---------------------------------------------------------------- sorting

  predicate Before(a: Pool, b: Pool) {
    a.net.first < b.net.first || (a.net.first == b.net.first && a.net.prefixlen <= b.net.prefixlen)
  }

  predicate Sorted(ps: seq<Pool>) {
    forall i, j | 0 <= i < j < |ps| :: Before(ps[i], ps[j])
  }

  /** `sorted` by first address and prefix length, equal ones in the order they came. */
  function SortedPools(ps: seq<Pool>): (r: seq<Pool>)
    ensures multiset(r) == multiset(ps)
  {
    if ps == [] then []
    else
      assert ps == ps[..|ps| - 1] + [ps[|ps| - 1]];
      Insert(SortedPools(ps[..|ps| - 1]), ps[|ps| - 1])
  }

  function Insert(ps: seq<Pool>, p: Pool): (r: seq<Pool>)
    ensures multiset(r) == multiset(ps) + multiset{p}
  {
    if ps == [] || Before(ps[|ps| - 1], p) then ps + [p]
    else
      var n := |ps| - 1;
      assert ps == ps[..n] + [ps[n]];
      Insert(ps[..n], p) + [ps[n]]
  }

  lemma InsertedFrom(ps: seq<Pool>, p: Pool)
    ensures forall x | x in Insert(ps, p) :: x in ps || x == p
  {
    forall x | x in Insert(ps, p) ensures x in ps || x == p {
      assert x in multiset(ps) + multiset{p};
    }
  }

  predicate AllBefore(ps: seq<Pool>, p: Pool) {
    forall x | x in ps :: Before(x, p)
  }

  lemma SortedMore(ps: seq<Pool>, p: Pool)
    requires Sorted(ps) && AllBefore(ps, p)
    ensures Sorted(ps + [p])
  {
  }

  lemma LastIsLast(ps: seq<Pool>, p: Pool)
    requires Sorted(ps) && ps != []
    ensures AllBefore(ps[..|ps| - 1], ps[|ps| - 1]) && Sorted(ps[..|ps| - 1])
    ensures Before(ps[|ps| - 1], p) ==> AllBefore(ps, p)
  {
  }

  lemma {:induction false} InsertSorts(ps: seq<Pool>, p: Pool)
    requires Sorted(ps)
    ensures Sorted(Insert(ps, p))
  {
    hide Sorted;
    if ps == [] {
      OneSorted(p);
    } else {
      var n := |ps| - 1;
      LastIsLast(ps, p);
      if Before(ps[n], p) {
        SortedMore(ps, p);
      } else {
        InsertSorts(ps[..n], p);
        InsertedFrom(ps[..n], p);
        SortedMore(Insert(ps[..n], p), ps[n]);
      }
    }
  }

  lemma OneSorted(p: Pool)
    ensures Sorted([] + [p])
  {
  }

  lemma {:induction false} SortSorts(ps: seq<Pool>)
    ensures Sorted(SortedPools(ps))
  {
    if ps != [] {
      SortSorts(ps[..|ps| - 1]);
      InsertSorts(SortedPools(ps[..|ps| - 1]), ps[|ps| - 1]);
    }
  }

  function OfVersion(ps: seq<Pool>, version: int): seq<Pool> {
    if ps == [] then []
    else
      var init, p := OfVersion(ps[..|ps| - 1], version), ps[|ps| - 1];
      if p.net.version == version then init + [p] else init
  }

  // ---------------------------------------------------------------- pairs

  /** A conflict between two pools, or of one that is there twice, does not depend on the order. */
  ghost predicate AnyConflictIn(pools: multiset<Pool>) {
    exists a, b :: a in pools && b in pools && Conflict(a, b) && (a == b ==> pools[a] > 1)
  }

  lemma {:induction false} TwoOf(pools: seq<Pool>, a: Pool) returns (i: nat, j: nat)
    requires multiset(pools)[a] > 1
    ensures i < j < |pools| && pools[i] == pools[j] == a
  {
    var n := |pools| - 1;
    assert pools == pools[..n] + [pools[n]];
    if pools[n] == a {
      j := n;
      assert a in multiset(pools[..n]);
      assert a in pools[..n];
      i :| 0 <= i < n && pools[i] == a;
    } else {
      i, j := TwoOf(pools[..n], a);
    }
  }

  lemma TwiceThere(pools: seq<Pool>, i: nat, j: nat)
    requires i < j < |pools| && pools[i] == pools[j]
    ensures multiset(pools)[pools[i]] > 1
  {
    var a, b := pools[..j], pools[j..];
    assert pools == a + b;
    assert a[i] in multiset(a) && b[0] in multiset(b);
  }

  lemma ConflictSymmetric(a: Pool, b: Pool)
    ensures Conflict(a, b) <==> Conflict(b, a)
  {
  }

  lemma ConflictAnyOrder(pools: seq<Pool>)
    ensures AnyConflict(pools) <==> AnyConflictIn(multiset(pools))
  {
    if AnyConflict(pools) {
      var i, j :| 0 <= i < j < |pools| && Conflict(pools[i], pools[j]);
      if pools[i] == pools[j] {
        TwiceThere(pools, i, j);
      }
      assert pools[i] in multiset(pools) && pools[j] in multiset(pools);
    }
    if AnyConflictIn(multiset(pools)) {
      var a, b :| a in multiset(pools) && b in multiset(pools) && Conflict(a, b) && (a == b ==> multiset(pools)[a] > 1);
      if a == b {
        var i, j := TwoOf(pools, a);
      } else {
        var i :| 0 <= i < |pools| && pools[i] == a;
        var j :| 0 <= j < |pools| && pools[j] == b;
        ConflictSymmetric(a, b);
        assert Conflict(pools[i], pools[j]) && Conflict(pools[j], pools[i]);
      }
    }
  }

  // ---------------------------------------------------------------- the sweep

  /** The interval that reaches furthest among the first ones, the earliest of them. */
  function Active(ps: seq<Pool>): (a: Pool)
    requires ps != []
  {
    if |ps| == 1 then ps[0]
    else
      var a, p := Active(ps[..|ps| - 1]), ps[|ps| - 1];
      if p.net.last > a.net.last then p else a
  }

  /** What the sweep reports. */
  function Swept(ps: seq<Pool>): seq<Issue> {
    if |ps| <= 1 then []
    else
      var init, p := ps[..|ps| - 1], ps[|ps| - 1];
      var a := Active(init);
      if p.net.first <= a.net.last && !Agree(a.session, p.session)
      then Swept(init) + [Overlap(a.session, p.session)] else Swept(init)
  }

  lemma {:induction false} ActiveReaches(ps: seq<Pool>) returns (k: nat)
    requires ps != []
    ensures k < |ps| && Active(ps) == ps[k]
    ensures forall i | 0 <= i < |ps| :: ps[i].net.last <= ps[k].net.last
  {
    if |ps| == 1 {
      k := 0;
    } else {
      var n := |ps| - 1;
      k := ActiveReaches(ps[..n]);
      if ps[n].net.last > ps[..n][k].net.last {
        k := n;
      }
    }
  }

  /** Pools of one version whose networks are what their subnets parse to. */
  ghost predicate Group(ps: seq<Pool>, net: string -> Option<Network>, version: int) {
    forall p | p in ps :: p.net.version == version && p.net.first <= p.net.last && net(p.session.subnet) == Some(p.net)
  }

  /** Whatever the sweep reports is a conflict. */
  lemma {:induction false} SweptIsConflict(ps: seq<Pool>, net: string -> Option<Network>, version: int, o: Issue)
    requires Sorted(ps) && Group(ps, net, version) && o in Swept(ps)
    ensures exists i, j :: 0 <= i < j < |ps| && Conflict(ps[i], ps[j]) && o == Overlap(ps[i].session, ps[j].session)
  {
    var n := |ps| - 1;
    var init := ps[..n];
    if o in Swept(init) {
      SweptIsConflict(init, net, version, o);
      var i, j :| 0 <= i < j < |init| && Conflict(init[i], init[j]) && o == Overlap(init[i].session, init[j].session);
      assert Conflict(ps[i], ps[j]);
    } else {
      var k := ActiveReaches(init);
      assert ps[k] in ps && ps[n] in ps;
      assert Before(ps[k], ps[n]);
      assert Conflict(ps[k], ps[n]);
    }
  }

  /** A conflict of two pools is reported, at the latest when the sweep comes to the later one: the active
      interval meets it too, and if those two agree, the active one already conflicted with the earlier. */
  lemma {:induction false} ConflictIsSwept(ps: seq<Pool>, net: string -> Option<Network>, version: int, i: nat, j: nat)
    requires Sorted(ps) && Group(ps, net, version) && i < j < |ps| && Conflict(ps[i], ps[j])
    ensures Swept(ps) != []
    decreases |ps|, j
  {
    var n := |ps| - 1;
    var init := ps[..n];
    if j < n {
      ConflictIsSwept(init, net, version, i, j);
    } else {
      var k := ActiveReaches(init);
      var a, p := ps[k], ps[n];
      assert ps[i] in ps && a in ps && p in ps;
      assert init[i] == ps[i];
      if Agree(a.session, p.session) {
        assert a.net == p.net;
        if i < k {
          assert Conflict(init[i], init[k]);
          ConflictIsSwept(init, net, version, i, k);
        } else if k < i {
          assert Conflict(init[k], init[i]);
          ConflictIsSwept(init, net, version, k, i);
        }
      }
    }
  }

  lemma SweepIsPairs(ps: seq<Pool>, net: string -> Option<Network>, version: int)
    requires Sorted(ps) && Group(ps, net, version)
    ensures Swept(ps) != [] <==> AnyConflict(ps)
  {
    if Swept(ps) != [] {
      SweptIsConflict(ps, net, version, Swept(ps)[0]);
    }
    if AnyConflict(ps) {
      var i, j :| 0 <= i < j < |ps| && Conflict(ps[i], ps[j]);
      ConflictIsSwept(ps, net, version, i, j);
    }
  }

  // ---------------------------------------------------------------- the rule

  lemma {:induction false} PoolsAre(sessions: seq<Session>, net: string -> Option<Network>)
    requires Sound(net)
    ensures forall p | p in Pools(sessions, net) :: net(p.session.subnet) == Some(p.net) && p.net.first <= p.net.last
  {
    if sessions != [] {
      PoolsAre(sessions[..|sessions| - 1], net);
    }
  }

  /** A session is swept exactly when its subnet is there and parses. */
  ghost predicate IsPoolOf(s: Session, net: string -> Option<Network>, p: Pool) {
    s.subnet != "" && net(s.subnet) == Some(p.net) && p.session == s
  }

  lemma {:induction false} InPools(sessions: seq<Session>, net: string -> Option<Network>, p: Pool)
    ensures p in Pools(sessions, net) <==> exists i :: 0 <= i < |sessions| && IsPoolOf(sessions[i], net, p)
  {
    if sessions != [] {
      var n := |sessions| - 1;
      InPools(sessions[..n], net, p);
      assert forall i | 0 <= i < n :: sessions[..n][i] == sessions[i];
      assert IsPoolOf(sessions[n], net, p) ==> p == Pool(sessions[n], net(sessions[n].subnet).value);
    }
  }

  /** Some two pools conflict exactly when two of the sessions, one after the other in the list, have subnets that are
      there and parse to conflicting networks. */
  lemma {:induction false} SessionsConflict(sessions: seq<Session>, net: string -> Option<Network>)
    ensures AnyConflict(Pools(sessions, net)) <==>
              exists i, j, p, q ::
                && 0 <= i < j < |sessions| && IsPoolOf(sessions[i], net, p) && IsPoolOf(sessions[j], net, q)
                && Conflict(p, q)
  {
    hide Conflict;
    if sessions != [] {
      var n := |sessions| - 1;
      var init, s := sessions[..n], sessions[n];
      var before := Pools(init, net);
      SessionsConflict(init, net);
      assert forall i | 0 <= i < n :: init[i] == sessions[i];
      if s.subnet != "" && net(s.subnet).Some? {
        var last := Pool(s, net(s.subnet).value);
        assert IsPoolOf(s, net, last);
        ConflictMore(before, last);
        forall p ensures p in before <==> exists i :: 0 <= i < n && IsPoolOf(sessions[i], net, p) {
          InPools(init, net, p);
        }
      }
    }
  }

  lemma ConflictMore(pools: seq<Pool>, p: Pool)
    ensures AnyConflict(pools + [p]) <==> AnyConflict(pools) || exists q :: q in pools && Conflict(q, p)
  {
    hide Conflict;
    var all, n := pools + [p], |pools|;
    if i, j :| 0 <= i < j < |all| && Conflict(all[i], all[j]) {
      if j == n {
        assert pools[i] in pools;
      } else {
        assert Conflict(pools[i], pools[j]);
      }
    }
    if i, j :| 0 <= i < j < n && Conflict(pools[i], pools[j]) {
      assert Conflict(all[i], all[j]);
    }
    if q :| q in pools && Conflict(q, p) {
      var i :| 0 <= i < n && pools[i] == q;
      assert Conflict(all[i], all[n]);
    }
  }

  lemma {:induction false} VersionIs(ps: seq<Pool>, version: int)
    ensures forall p | p in OfVersion(ps, version) :: p in ps && p.net.version == version
    ensures forall p: Pool | p.net.version == version :: multiset(OfVersion(ps, version))[p] == multiset(ps)[p]
  {
    if ps != [] {
      var n := |ps| - 1;
      VersionIs(ps[..n], version);
      assert ps == ps[..n] + [ps[n]];
    }
  }

  lemma SortedGroup(ps: seq<Pool>, net: string -> Option<Network>, version: int)
    requires forall p | p in ps :: net(p.session.subnet) == Some(p.net) && p.net.first <= p.net.last
    ensures var g := SortedPools(OfVersion(ps, version));
            Sorted(g) && Group(g, net, version) && (AnyConflict(g) <==> AnyConflict(OfVersion(ps, version)))
  {
    var v := OfVersion(ps, version);
    var g := SortedPools(v);
    VersionIs(ps, version);
    SortSorts(v);
    forall p | p in g ensures p in v {
      assert p in multiset(g);
    }
    ConflictAnyOrder(g);
    ConflictAnyOrder(v);
  }

  /** A conflict within one version is one among all. */
  lemma VersionConflicts(ps: seq<Pool>, version: int)
    requires AnyConflict(OfVersion(ps, version))
    ensures AnyConflict(ps)
  {
    hide Conflict, AnyConflict;
    ConflictAnyOrder(ps);
    ConflictAnyOrder(OfVersion(ps, version));
    VersionIs(ps, version);
    var all, some := multiset(ps), multiset(OfVersion(ps, version));
    var a, b :| a in some && b in some && Conflict(a, b) && (a == b ==> some[a] > 1);
    assert a in OfVersion(ps, version) && b in OfVersion(ps, version);
    assert a in all && b in all;
  }

  /** A conflict is always within one version. */
  lemma ConflictHasVersion(ps: seq<Pool>) returns (version: int)
    requires AnyConflict(ps)
    ensures AnyConflict(OfVersion(ps, version)) && exists p :: p in ps && p.net.version == version
  {
    hide AnyConflict;
    ConflictAnyOrder(ps);
    var all := multiset(ps);
    var a, b :| a in all && b in all && Conflict(a, b) && (a == b ==> all[a] > 1);
    version := a.net.version;
    assert a in ps;
    VersionIs(ps, version);
    ConflictAnyOrder(OfVersion(ps, version));
    var some := multiset(OfVersion(ps, version));
    assert some[a] == all[a] && some[b] == all[b];
  }

  lemma VersionsApart(ps: seq<Pool>)
    requires forall p | p in ps :: p.net.version == 4 || p.net.version == 6
    ensures AnyConflict(ps) <==> AnyConflict(OfVersion(ps, 4)) || AnyConflict(OfVersion(ps, 6))
  {
    hide AnyConflict, OfVersion;
    if AnyConflict(ps) {
      var version := ConflictHasVersion(ps);
    }
    if AnyConflict(OfVersion(ps, 4)) {
      VersionConflicts(ps, 4);
    }
    if AnyConflict(OfVersion(ps, 6)) {
      VersionConflicts(ps, 6);
    }
  }

  /** The sweep of one version's sorted pools. */
  method SweepGroup(group: seq<Pool>) returns (found: seq<Issue>)
    ensures found == Swept(group)
  {
    found := [];
    var active: Option<Pool> := None;
    var i := 0;
    while i < |group|
      invariant i <= |group| && found == Swept(group[..i])
      invariant active == if i == 0 then None else Some(Active(group[..i]))
    {
      var p := group[i];
      assert group[..i + 1][..i] == group[..i];
      if active.Some? {
        var a := active.value;
        if p.net.first <= a.net.last && !Agree(a.session, p.session) {
          found := found + [Overlap(a.session, p.session)];
        }
      }
      if active.None? || p.net.last > active.value.net.last {
        active := Some(p);
      }
      i := i + 1;
    }
    assert group[..i] == group;
  }

  /** The overlap part of `rule_ue_pool_sanity`: it reports something exactly when some two pools conflict,
      and whatever it reports is such a pair. */
  method FindOverlaps(sessions: seq<Session>, net: string -> Option<Network>) returns (found: seq<Issue>)
    requires Sound(net)
    requires forall s :: net(s).Some? ==> net(s).value.version == 4 || net(s).value.version == 6
    ensures found != [] <==> AnyConflict(Pools(sessions, net))
    ensures forall o | o in found :: IsConflictOf(Pools(sessions, net), o)
  {
    var nets: seq<Pool>, i := [], 0;
    while i < |sessions|
      invariant i <= |sessions| && nets == Pools(sessions[..i], net)
    {
      var s := sessions[i];
      assert sessions[..i + 1][..i] == sessions[..i];
      if s.subnet != "" {
        var n := net(s.subnet);
        if n.Some? {
          nets := nets + [Pool(s, n.value)];
        }
      }
      i := i + 1;
    }
    assert sessions[..i] == sessions;
    PoolsAre(sessions, net);
    VersionsApart(nets);
    var four := SweepVersion(nets, net, 4);
    var six := SweepVersion(nets, net, 6);
    found := four + six;
  }

  method SweepVersion(nets: seq<Pool>, ghost net: string -> Option<Network>, version: int) returns (found: seq<Issue>)
    requires forall p | p in nets :: net(p.session.subnet) == Some(p.net) && p.net.first <= p.net.last
    ensures found != [] <==> AnyConflict(OfVersion(nets, version))
    ensures forall o | o in found :: IsConflictOf(nets, o)
  {
    var group := SortedPools(OfVersion(nets, version));
    SortedGroup(nets, net, version);
    SweepIsPairs(group, net, version);
    found := SweepGroup(group);
    VersionIs(nets, version);
    forall o | o in found ensures IsConflictOf(nets, o) {
      SweptIsConflict(group, net, version, o);
      var i, j :| 0 <= i < j < |group| && Conflict(group[i], group[j])
                   && o == Overlap(group[i].session, group[j].session);
      assert group[i] in multiset(group) && group[j] in multiset(group);
      assert group[i] in OfVersion(nets, version) && group[j] in OfVersion(nets, version);
    }
  }
}
