/**
 * Each group's, tenant's and key's share of a pool while all of the active
 * ones are busy.
 */
module PoolShares {
  import opened Sorting

  datatype Algorithm = Weighted | Hierarchical

  datatype Tenant = Tenant(id: string, group: string, weight: int, active: bool)

  datatype Key = Key(id: string, tenant: string, weight: int, active: bool)

  datatype Shares = Shares(groups: map<string, real>, tenants: map<string, real>, keys: map<string, real>)

  const DEFAULT_WEIGHT: int := 100

  /** Weights below 1 count as 1. */
  function Clamped(w: int): (r: int)
    ensures r >= 1
  {
    if w < 1 then 1 else w
  }

  function GroupWeight(weights: map<string, int>, g: string): (r: int)
    ensures r >= 1
  {
    Clamped(if g in weights then weights[g] else DEFAULT_WEIGHT)
  }

  /** The share of an entry, 0 when it has none. */
  function At(m: map<string, real>, k: string): real { if k in m then m[k] else 0.0 }

  // -------------------------------------------------------------------------
  // What the shares are
  // -------------------------------------------------------------------------

  /** The groups with an active tenant. */
  function ActiveGroups(ts: seq<Tenant>): (groups: seq<string>)
    ensures Distinct(groups)
    ensures forall g :: g in groups <==> exists t :: t in ts && t.active && t.group == g
  {
    if ts == [] then []
    else
      var front, last := ts[..|ts| - 1], ts[|ts| - 1];
      var groups := ActiveGroups(front);
      assert forall t :: t in ts <==> t in front || t == last;
      if last.active && last.group !in groups then groups + [last.group] else groups
  }

  function SumWeights(weights: map<string, int>, groups: seq<string>): nat {
    if groups == [] then 0 else SumWeights(weights, groups[..|groups| - 1]) + GroupWeight(weights, groups[|groups| - 1])
  }

  /** The weights of a group's active tenants. */
  function InGroup(ts: seq<Tenant>, g: string): nat {
    if ts == [] then 0
    else
      var last := ts[|ts| - 1];
      InGroup(ts[..|ts| - 1], g) + if last.active && last.group == g then Clamped(last.weight) else 0
  }

  function ActiveTotal(ts: seq<Tenant>): nat {
    if ts == [] then 0
    else
      var last := ts[|ts| - 1];
      ActiveTotal(ts[..|ts| - 1]) + if last.active then Clamped(last.weight) else 0
  }

  function OfTenant(ks: seq<Key>, tenant: string): nat {
    if ks == [] then 0
    else
      var last := ks[|ks| - 1];
      OfTenant(ks[..|ks| - 1], tenant) + if last.active && last.tenant == tenant then Clamped(last.weight) else 0
  }

  function Ratio(a: int, b: int): real { if b == 0 then 0.0 else a as real / b as real }

  /** The part `a` of `n` of a share. */
  function Part(share: real, a: int, n: int): real { share * Ratio(a, n) }

  function GroupShare(weights: map<string, int>, ts: seq<Tenant>, g: string): real {
    var groups := ActiveGroups(ts);
    if g in groups then Ratio(GroupWeight(weights, g), SumWeights(weights, groups)) else 0.0
  }

  /** A tenant's share while active. */
  function TenantShare(how: Algorithm, weights: map<string, int>, ts: seq<Tenant>, t: Tenant): real {
    match how
    case Weighted => Ratio(Clamped(t.weight), ActiveTotal(ts))
    case Hierarchical => Part(GroupShare(weights, ts, t.group), Clamped(t.weight), InGroup(ts, t.group))
  }

  function KeyShare(tenants: map<string, real>, ks: seq<Key>, k: Key): real {
    Part(At(tenants, k.tenant), Clamped(k.weight), OfTenant(ks, k.tenant))
  }

  // -------------------------------------------------------------------------
  // Computing them
  // -------------------------------------------------------------------------

  lemma OneMore<T>(s: seq<T>, i: nat)
    requires i < |s|
    ensures s[..i + 1][..i] == s[..i] && s[..i + 1][i] == s[i]
  {
  }

  lemma {:induction false} NoneInGroup(ts: seq<Tenant>, g: string)
    ensures if g in ActiveGroups(ts) then InGroup(ts, g) > 0 else InGroup(ts, g) == 0
  {
    if ts == [] {
    } else {
      NoneInGroup(ts[..|ts| - 1], g);
    }
  }

  lemma {:induction false} NoneOfTenant(ks: seq<Key>, tenant: string)
    ensures if exists k :: k in ks && k.active && k.tenant == tenant then OfTenant(ks, tenant) > 0 else OfTenant(ks, tenant) == 0
  {
    if ks == [] {
    } else {
      NoneOfTenant(ks[..|ks| - 1], tenant);
      assert forall k :: k in ks <==> k in ks[..|ks| - 1] || k == ks[|ks| - 1];
    }
  }

  /** The sum kept for a key of a map, 0 before there is one. */
  function Kept(m: map<string, nat>, k: string): nat { if k in m then m[k] else 0 }

  ghost predicate GroupsTallied(ts: seq<Tenant>, groups: seq<string>, inGroup: map<string, nat>, total: nat) {
    && groups == ActiveGroups(ts)
    && (forall g :: Kept(inGroup, g) == InGroup(ts, g))
    && total == ActiveTotal(ts)
  }

  /** The tallies with one more tenant counted. */
  lemma TallyGrows(ts: seq<Tenant>, t: Tenant, groups: seq<string>, inGroup: map<string, nat>, total: nat)
    requires GroupsTallied(ts, groups, inGroup, total)
    ensures !t.active ==> GroupsTallied(ts + [t], groups, inGroup, total)
    ensures t.active ==>
              GroupsTallied(ts + [t], if t.group in groups then groups else groups + [t.group],
                            inGroup[t.group := Kept(inGroup, t.group) + Clamped(t.weight)], total + Clamped(t.weight))
  {
    hide ActiveGroups;
    GroupsGrow(ts + [t]);
    assert (ts + [t])[..|ts|] == ts;
    var after := inGroup[t.group := Kept(inGroup, t.group) + Clamped(t.weight)];
    assert forall g :: Kept(after, g) == Kept(inGroup, g) + if g == t.group then Clamped(t.weight) else 0;
  }

  lemma NothingTallied()
    ensures GroupsTallied([], [], map[], 0)
  {
  }

  method TallyGroups(ts: seq<Tenant>) returns (groups: seq<string>, inGroup: map<string, nat>, total: nat)
    ensures GroupsTallied(ts, groups, inGroup, total)
  {
    hide GroupsTallied;
    groups, inGroup, total := [], map[], 0;
    NothingTallied();
    for i := 0 to |ts|
      invariant GroupsTallied(ts[..i], groups, inGroup, total)
    {
      var t := ts[i];
      TallyGrows(ts[..i], t, groups, inGroup, total);
      assert ts[..i + 1] == ts[..i] + [t];
      if t.active {
        if t.group !in groups { groups := groups + [t.group]; }
        inGroup := inGroup[t.group := Kept(inGroup, t.group) + Clamped(t.weight)];
        total := total + Clamped(t.weight);
      }
    }
    assert ts[..|ts|] == ts;
  }

  lemma GroupsGrow(ts: seq<Tenant>)
    requires ts != []
    ensures var groups, last := ActiveGroups(ts[..|ts| - 1]), ts[|ts| - 1];
            ActiveGroups(ts) == if last.active && last.group !in groups then groups + [last.group] else groups
  {
  }

  method TallyKeys(ks: seq<Key>) returns (ofTenant: map<string, nat>)
    ensures forall t :: Kept(ofTenant, t) == OfTenant(ks, t)
  {
    ofTenant := map[];
    for i := 0 to |ks|
      invariant forall t :: Kept(ofTenant, t) == OfTenant(ks[..i], t)
    {
      OneMore(ks, i);
      ghost var before := ofTenant;
      if ks[i].active {
        ofTenant := ofTenant[ks[i].tenant := Kept(ofTenant, ks[i].tenant) + Clamped(ks[i].weight)];
      }
      assert forall t :: Kept(ofTenant, t) == Kept(before, t) + if ks[i].active && ks[i].tenant == t then Clamped(ks[i].weight) else 0;
    }
    assert ks[..|ks|] == ks;
  }

  method GroupShares(weights: map<string, int>, ts: seq<Tenant>, groups: seq<string>) returns (shares: map<string, real>)
    requires groups == ActiveGroups(ts)
    ensures forall g :: g in shares <==> g in groups
    ensures forall g :: At(shares, g) == GroupShare(weights, ts, g)
  {
    hide ActiveGroups;
    var total := 0;
    for i := 0 to |groups|
      invariant total == SumWeights(weights, groups[..i])
    {
      OneMore(groups, i);
      total := total + GroupWeight(weights, groups[i]);
    }
    assert groups[..|groups|] == groups;
    shares := map[];
    for i := 0 to |groups|
      invariant forall g :: g in shares <==> g in groups[..i]
      invariant forall g | g in shares :: shares[g] == GroupShare(weights, ts, g)
    {
      assert forall g :: g in groups[..i + 1] <==> g in groups[..i] || g == groups[i];
      shares := shares[groups[i] := Ratio(GroupWeight(weights, groups[i]), total)];
    }
  }

  ghost predicate DistinctTenants(ts: seq<Tenant>) { forall i, j | 0 <= i < j < |ts| :: ts[i].id != ts[j].id }

  ghost predicate DistinctKeys(ks: seq<Key>) { forall i, j | 0 <= i < j < |ks| :: ks[i].id != ks[j].id }

  method TenantShares(how: Algorithm, weights: map<string, int>, ts: seq<Tenant>, groupShares: map<string, real>,
                      inGroup: map<string, nat>, total: nat)
    returns (shares: map<string, real>)
    requires forall g :: At(groupShares, g) == GroupShare(weights, ts, g)
    requires forall g :: Kept(inGroup, g) == InGroup(ts, g)
    requires total == ActiveTotal(ts)
    ensures forall id :: id in shares <==> exists t :: t in ts && t.active && t.id == id
    ensures DistinctTenants(ts) ==> forall t | t in ts && t.active :: shares[t.id] == TenantShare(how, weights, ts, t)
  {
    hide GroupShare, InGroup, ActiveTotal;
    shares := map[];
    for i := 0 to |ts|
      invariant forall id :: id in shares <==> exists t :: t in ts[..i] && t.active && t.id == id
      invariant DistinctTenants(ts) ==> forall t | t in ts[..i] && t.active :: shares[t.id] == TenantShare(how, weights, ts, t)
    {
      var t := ts[i];
      assert forall u :: u in ts[..i + 1] <==> u in ts[..i] || u == t;
      assert DistinctTenants(ts) ==> forall u | u in ts[..i] :: u.id != t.id;
      if t.active {
        var share := if how == Weighted then Ratio(Clamped(t.weight), total)
                     else At(groupShares, t.group) * Ratio(Clamped(t.weight), Kept(inGroup, t.group));
        assert share == TenantShare(how, weights, ts, t);
        shares := shares[t.id := share];
      }
    }
    assert ts[..|ts|] == ts;
  }

  method KeyShares(ks: seq<Key>, tenants: map<string, real>, ofTenant: map<string, nat>) returns (shares: map<string, real>)
    requires forall t :: Kept(ofTenant, t) == OfTenant(ks, t)
    ensures forall id :: id in shares <==> exists k :: k in ks && k.active && k.id == id
    ensures DistinctKeys(ks) ==> forall k | k in ks && k.active :: shares[k.id] == KeyShare(tenants, ks, k)
  {
    hide OfTenant;
    shares := map[];
    for i := 0 to |ks|
      invariant forall id :: id in shares <==> exists k :: k in ks[..i] && k.active && k.id == id
      invariant DistinctKeys(ks) ==> forall k | k in ks[..i] && k.active :: shares[k.id] == KeyShare(tenants, ks, k)
    {
      var k := ks[i];
      assert forall u :: u in ks[..i + 1] <==> u in ks[..i] || u == k;
      assert DistinctKeys(ks) ==> forall u | u in ks[..i] :: u.id != k.id;
      if k.active {
        var share := At(tenants, k.tenant) * Ratio(Clamped(k.weight), Kept(ofTenant, k.tenant));
        assert share == KeyShare(tenants, ks, k);
        shares := shares[k.id := share];
      }
    }
    assert ks[..|ks|] == ks;
  }

  /** The shares hold every active group, tenant and key, and nothing else. */
  ghost predicate AreShares(how: Algorithm, weights: map<string, int>, ts: seq<Tenant>, ks: seq<Key>, s: Shares) {
    && (forall g :: g in s.groups <==> g in ActiveGroups(ts))
    && (forall g :: At(s.groups, g) == GroupShare(weights, ts, g))
    && (forall id :: id in s.tenants <==> exists t :: t in ts && t.active && t.id == id)
    && (DistinctTenants(ts) ==> forall t | t in ts && t.active :: At(s.tenants, t.id) == TenantShare(how, weights, ts, t))
    && (forall id :: id in s.keys <==> exists k :: k in ks && k.active && k.id == id)
    && (DistinctKeys(ks) ==> forall k | k in ks && k.active :: At(s.keys, k.id) == KeyShare(s.tenants, ks, k))
  }

  method Split(how: Algorithm, weights: map<string, int>, ts: seq<Tenant>, ks: seq<Key>) returns (s: Shares)
    ensures AreShares(how, weights, ts, ks, s)
  {
    hide GroupShare, TenantShare, KeyShare, ActiveGroups;
    var groups, inGroup, total := TallyGroups(ts);
    var groupShares := GroupShares(weights, ts, groups);
    var tenants := TenantShares(how, weights, ts, groupShares, inGroup, total);
    var ofTenant := TallyKeys(ks);
    var keys := KeyShares(ks, tenants, ofTenant);
    s := Shares(groupShares, tenants, keys);
  }

  // -------------------------------------------------------------------------
  // Shares fill what they split
  // -------------------------------------------------------------------------

  function GroupSum(groups: seq<string>, s: Shares): real {
    if groups == [] then 0.0 else GroupSum(groups[..|groups| - 1], s) + At(s.groups, groups[|groups| - 1])
  }

  /** The shares of the active tenants, or only those of one group. */
  function TenantSum(ts: seq<Tenant>, s: Shares): real {
    if ts == [] then 0.0
    else
      var last := ts[|ts| - 1];
      TenantSum(ts[..|ts| - 1], s) + if last.active then At(s.tenants, last.id) else 0.0
  }

  function MemberSum(ts: seq<Tenant>, g: string, s: Shares): real {
    if ts == [] then 0.0
    else
      var last := ts[|ts| - 1];
      MemberSum(ts[..|ts| - 1], g, s) + if last.active && last.group == g then At(s.tenants, last.id) else 0.0
  }

  function KeySum(ks: seq<Key>, tenant: string, s: Shares): real {
    if ks == [] then 0.0
    else
      var last := ks[|ks| - 1];
      KeySum(ks[..|ks| - 1], tenant, s) + if last.active && last.tenant == tenant then At(s.keys, last.id) else 0.0
  }

  lemma RatioAdds(a: int, b: int, n: int)
    ensures Ratio(a + b, n) == Ratio(a, n) + Ratio(b, n)
  {
    if n != 0 {
      assert (a + b) as real == a as real + b as real;
      AddQuotients(a as real, b as real, n as real);
    }
  }

  lemma AddQuotients(x: real, y: real, t: real)
    requires t != 0.0
    ensures x / t + y / t == (x + y) / t
  {
    var p, q := x / t, y / t;
    assert p * t == x && q * t == y;
    assert (p + q) * t == p * t + q * t;
    OneQuotient(x + y, t, p + q);
  }

  lemma Distribute(x: real, a: int, b: int, n: int)
    ensures Part(x, a + b, n) == Part(x, a, n) + Part(x, b, n)
  {
    hide Ratio;
    RatioAdds(a, b, n);
  }

  lemma Whole(x: real, n: int)
    requires n > 0
    ensures Ratio(n, n) == 1.0 && Part(x, n, n) == x
  {
    var r := n as real;
    assert r != 0.0 && 1.0 * r == r;
    OneQuotient(r, r, 1.0);
    assert x * 1.0 == x;
  }

  /** A quotient is what multiplies back. */
  lemma OneQuotient(a: real, b: real, q: real)
    requires b != 0.0 && q * b == a
    ensures a / b == q
  {
    var p := a / b;
    assert p * b == a;
    assert (p - q) * b == p * b - q * b;
  }

  lemma {:induction false} GroupsUpTo(weights: map<string, int>, groups: seq<string>, s: Shares, n: int)
    requires forall g | g in groups :: At(s.groups, g) == Ratio(GroupWeight(weights, g), n)
    ensures GroupSum(groups, s) == Ratio(SumWeights(weights, groups), n)
  {
    hide Ratio, GroupWeight, At;
    if groups == [] {
      NoShare(n);
    } else {
      var front, last := groups[..|groups| - 1], groups[|groups| - 1];
      assert last in groups;
      assert forall g | g in front :: g in groups;
      GroupsUpTo(weights, front, s, n);
      RatioAdds(SumWeights(weights, front), GroupWeight(weights, last), n);
    }
  }

  lemma NoShare(n: int)
    ensures Ratio(0, n) == 0.0 && forall x :: Part(x, 0, n) == 0.0
  {
  }

  /** While any tenant is active, the groups' shares fill the pool. */
  lemma GroupsFillPool(how: Algorithm, weights: map<string, int>, ts: seq<Tenant>, ks: seq<Key>, s: Shares)
    requires AreShares(how, weights, ts, ks, s) && ActiveGroups(ts) != []
    ensures GroupSum(ActiveGroups(ts), s) == 1.0
  {
    hide ActiveGroups, GroupWeight, Ratio, TenantShare, KeyShare;
    var groups := ActiveGroups(ts);
    GroupsUpTo(weights, groups, s, SumWeights(weights, groups));
    assert SumWeights(weights, groups) > 0;
    Whole(1.0, SumWeights(weights, groups));
  }

  lemma {:induction false} MembersUpTo(ts: seq<Tenant>, g: string, s: Shares, x: real, n: int)
    requires forall t | t in ts && t.active && t.group == g :: At(s.tenants, t.id) == Part(x, Clamped(t.weight), n)
    ensures MemberSum(ts, g, s) == Part(x, InGroup(ts, g), n)
  {
    hide Part, Clamped, At;
    if ts == [] {
      NoShare(n);
    } else {
      var front, last := ts[..|ts| - 1], ts[|ts| - 1];
      assert last in ts;
      assert forall t | t in front :: t in ts;
      MembersUpTo(front, g, s, x, n);
      Distribute(x, InGroup(front, g), Clamped(last.weight), n);
    }
  }

  /** Hierarchical: a group's active tenants fill the group's share. */
  lemma MembersFillGroup(weights: map<string, int>, ts: seq<Tenant>, ks: seq<Key>, s: Shares, g: string)
    requires DistinctTenants(ts) && AreShares(Hierarchical, weights, ts, ks, s)
    ensures MemberSum(ts, g, s) == At(s.groups, g)
  {
    hide Ratio, Part, KeyShare, GroupShare, InGroup, ActiveGroups, MemberSum, At;
    MembersUpTo(ts, g, s, GroupShare(weights, ts, g), InGroup(ts, g));
    NoneInGroup(ts, g);
    if g in ActiveGroups(ts) {
      Whole(GroupShare(weights, ts, g), InGroup(ts, g));
    } else {
      NoShare(0);
      IdleGroup(weights, ts, g);
    }
  }

  lemma IdleGroup(weights: map<string, int>, ts: seq<Tenant>, g: string)
    requires g !in ActiveGroups(ts)
    ensures GroupShare(weights, ts, g) == 0.0
  {
  }

  function MembersOver(groups: seq<string>, ts: seq<Tenant>, s: Shares): real {
    if groups == [] then 0.0 else MembersOver(groups[..|groups| - 1], ts, s) + MemberSum(ts, groups[|groups| - 1], s)
  }

  lemma {:induction false} OneMoreMember(groups: seq<string>, ts: seq<Tenant>, s: Shares)
    requires ts != [] && Distinct(groups)
    ensures var last := ts[|ts| - 1];
            MembersOver(groups, ts, s) == MembersOver(groups, ts[..|ts| - 1], s)
              + if last.active && last.group in groups then At(s.tenants, last.id) else 0.0
  {
    if groups == [] {
    } else {
      var front, g := groups[..|groups| - 1], groups[|groups| - 1];
      OneMoreMember(front, ts, s);
      assert forall x :: x in groups <==> x in front || x == g;
      assert g !in front;
    }
  }

  lemma {:induction false} NoMembers(groups: seq<string>, s: Shares)
    ensures MembersOver(groups, [], s) == 0.0
  {
    if groups == [] {
    } else {
      NoMembers(groups[..|groups| - 1], s);
    }
  }

  lemma {:induction false} MembersAreTenants(groups: seq<string>, ts: seq<Tenant>, s: Shares)
    requires Distinct(groups) && forall t | t in ts && t.active :: t.group in groups
    ensures MembersOver(groups, ts, s) == TenantSum(ts, s)
  {
    if ts == [] {
      NoMembers(groups, s);
    } else {
      assert ts[|ts| - 1] in ts;
      MembersAreTenants(groups, ts[..|ts| - 1], s);
      OneMoreMember(groups, ts, s);
    }
  }

  lemma {:induction false} MembersAreGroups(weights: map<string, int>, groups: seq<string>, ts: seq<Tenant>, ks: seq<Key>, s: Shares)
    requires DistinctTenants(ts) && AreShares(Hierarchical, weights, ts, ks, s)
    ensures MembersOver(groups, ts, s) == GroupSum(groups, s)
  {
    hide AreShares, MemberSum;
    if groups == [] {
    } else {
      MembersAreGroups(weights, groups[..|groups| - 1], ts, ks, s);
      MembersFillGroup(weights, ts, ks, s, groups[|groups| - 1]);
    }
  }

  lemma {:induction false} WeightedUpTo(ts: seq<Tenant>, s: Shares, n: int)
    requires forall t | t in ts && t.active :: At(s.tenants, t.id) == Ratio(Clamped(t.weight), n)
    ensures TenantSum(ts, s) == Ratio(ActiveTotal(ts), n)
  {
    hide Ratio, Clamped, At;
    if ts == [] {
      NoShare(n);
    } else {
      var front, last := ts[..|ts| - 1], ts[|ts| - 1];
      assert last in ts;
      assert forall t | t in front :: t in ts;
      WeightedUpTo(front, s, n);
      RatioAdds(ActiveTotal(front), Clamped(last.weight), n);
    }
  }

  lemma {:induction false} SomeoneActive(ts: seq<Tenant>)
    ensures ActiveTotal(ts) > 0 <==> ActiveGroups(ts) != []
  {
    if ts == [] {
    } else {
      SomeoneActive(ts[..|ts| - 1]);
    }
  }

  /** Under either algorithm the active tenants' shares add to the whole pool. */
  lemma TenantsFillPool(how: Algorithm, weights: map<string, int>, ts: seq<Tenant>, ks: seq<Key>, s: Shares)
    requires DistinctTenants(ts) && AreShares(how, weights, ts, ks, s) && ActiveGroups(ts) != []
    ensures TenantSum(ts, s) == 1.0
  {
    hide GroupWeight, GroupShare, Ratio, KeyShare, TenantSum, MembersOver;
    var groups := ActiveGroups(ts);
    if how == Hierarchical {
      MembersAreTenants(groups, ts, s);
      MembersAreGroups(weights, groups, ts, ks, s);
      GroupsFillPool(how, weights, ts, ks, s);
    } else {
      WeightedUpTo(ts, s, ActiveTotal(ts));
      SomeoneActive(ts);
      Whole(1.0, ActiveTotal(ts));
    }
  }

  lemma {:induction false} KeysUpTo(ks: seq<Key>, tenant: string, s: Shares, x: real, n: int)
    requires forall k | k in ks && k.active && k.tenant == tenant :: At(s.keys, k.id) == Part(x, Clamped(k.weight), n)
    ensures KeySum(ks, tenant, s) == Part(x, OfTenant(ks, tenant), n)
  {
    hide Part, Clamped, At;
    if ks == [] {
      NoShare(n);
    } else {
      var front, last := ks[..|ks| - 1], ks[|ks| - 1];
      assert last in ks;
      assert forall k | k in front :: k in ks;
      KeysUpTo(front, tenant, s, x, n);
      Distribute(x, OfTenant(front, tenant), Clamped(last.weight), n);
    }
  }

  /** A tenant's active keys fill exactly the tenant's share, if it has any. */
  lemma KeysFillTenant(how: Algorithm, weights: map<string, int>, ts: seq<Tenant>, ks: seq<Key>, s: Shares, tenant: string)
    requires DistinctKeys(ks) && AreShares(how, weights, ts, ks, s)
    requires exists k :: k in ks && k.active && k.tenant == tenant
    ensures KeySum(ks, tenant, s) == At(s.tenants, tenant)
  {
    hide GroupShare, Ratio, Part, TenantShare;
    KeysUpTo(ks, tenant, s, At(s.tenants, tenant), OfTenant(ks, tenant));
    NoneOfTenant(ks, tenant);
    Whole(At(s.tenants, tenant), OfTenant(ks, tenant));
  }

  // -------------------------------------------------------------------------
  // Shares stand as the weights do
  // -------------------------------------------------------------------------

  /** A weight as configured: below 1 it counts as 1. */
  ghost predicate Counts(weight: int, w: int) { if weight < 1 then w == 1 else w == weight }

  /** A group's configured weight; a group without one counts as 100. */
  ghost predicate GroupCounts(weights: map<string, int>, g: string, w: int) {
    if g in weights then Counts(weights[g], w) else w == 100
  }

  lemma Proportion(share: real, a: int, b: int, n: int, x: real, y: real)
    requires x == Part(share, a, n) && y == Part(share, b, n)
    ensures x * b as real == y * a as real
  {
    if n != 0 {
      var p, q, u, v, t := a as real / n as real, b as real / n as real, a as real, b as real, n as real;
      assert p * t == u && q * t == v;
      assert p * v == p * (q * t) && q * u == q * (p * t);
      assert share * p * v == share * (p * v) && share * q * u == share * (q * u);
    }
  }

  lemma RatioIsPart(a: int, n: int)
    ensures Ratio(a, n) == Part(1.0, a, n)
  {
  }

  lemma GroupHas(how: Algorithm, weights: map<string, int>, ts: seq<Tenant>, ks: seq<Key>, s: Shares, g: string)
    requires AreShares(how, weights, ts, ks, s) && g in ActiveGroups(ts)
    ensures g in s.groups && s.groups[g] == GroupShare(weights, ts, g)
  {
    hide GroupShare, TenantShare, KeyShare, ActiveGroups;
    assert At(s.groups, g) == s.groups[g];
  }

  lemma GroupAt(how: Algorithm, weights: map<string, int>, ts: seq<Tenant>, ks: seq<Key>, s: Shares, t: Tenant, v: int)
    requires AreShares(how, weights, ts, ks, s) && t in ts && t.active && GroupCounts(weights, t.group, v)
    ensures t.group in s.groups && s.groups[t.group] == Part(1.0, v, SumWeights(weights, ActiveGroups(ts)))
  {
    hide Ratio, Part, AreShares, ActiveGroups, SumWeights;
    assert t.group in ActiveGroups(ts);
    assert GroupWeight(weights, t.group) == v;
    GroupHas(how, weights, ts, ks, s, t.group);
    RatioIsPart(v, SumWeights(weights, ActiveGroups(ts)));
  }

  /** Two active groups' shares stand as their configured weights. */
  lemma GroupsInProportion(how: Algorithm, weights: map<string, int>, ts: seq<Tenant>, ks: seq<Key>, s: Shares,
                           t: Tenant, u: Tenant, v: int, w: int)
    requires AreShares(how, weights, ts, ks, s)
    requires t in ts && t.active && u in ts && u.active && GroupCounts(weights, t.group, v) && GroupCounts(weights, u.group, w)
    ensures t.group in s.groups && u.group in s.groups
    ensures s.groups[t.group] * w as real == s.groups[u.group] * v as real
  {
    hide Part, AreShares, GroupCounts;
    GroupAt(how, weights, ts, ks, s, t, v);
    GroupAt(how, weights, ts, ks, s, u, w);
    Proportion(1.0, v, w, SumWeights(weights, ActiveGroups(ts)), s.groups[t.group], s.groups[u.group]);
  }

  lemma TenantAt(how: Algorithm, weights: map<string, int>, ts: seq<Tenant>, ks: seq<Key>, s: Shares, t: Tenant, v: int)
    requires DistinctTenants(ts) && AreShares(how, weights, ts, ks, s) && t in ts && t.active && Counts(t.weight, v)
    ensures t.id in s.tenants
    ensures s.tenants[t.id] == match how case Weighted => Part(1.0, v, ActiveTotal(ts))
                                         case Hierarchical => Part(GroupShare(weights, ts, t.group), v, InGroup(ts, t.group))
  {
    hide Ratio, Part, KeyShare, GroupShare, DistinctTenants, ActiveTotal, InGroup;
    assert Clamped(t.weight) == v;
    RatioIsPart(v, ActiveTotal(ts));
  }

  /** Two active tenants' shares stand as their own weights: within a group, and in the whole pool under the weighted split. */
  lemma TenantsInProportion(how: Algorithm, weights: map<string, int>, ts: seq<Tenant>, ks: seq<Key>, s: Shares,
                            t: Tenant, u: Tenant, v: int, w: int)
    requires DistinctTenants(ts) && AreShares(how, weights, ts, ks, s) && (how == Weighted || t.group == u.group)
    requires t in ts && t.active && u in ts && u.active && Counts(t.weight, v) && Counts(u.weight, w)
    ensures t.id in s.tenants && u.id in s.tenants
    ensures s.tenants[t.id] * w as real == s.tenants[u.id] * v as real
  {
    hide Part, GroupShare, AreShares, DistinctTenants, ActiveTotal, InGroup, Counts;
    TenantAt(how, weights, ts, ks, s, t, v);
    TenantAt(how, weights, ts, ks, s, u, w);
    match how
    case Weighted => Proportion(1.0, v, w, ActiveTotal(ts), s.tenants[t.id], s.tenants[u.id]);
    case Hierarchical =>
      Proportion(GroupShare(weights, ts, t.group), v, w, InGroup(ts, t.group), s.tenants[t.id], s.tenants[u.id]);
  }

  /** Two active keys of a tenant have shares that stand as their own weights. */
  lemma KeysInProportion(how: Algorithm, weights: map<string, int>, ts: seq<Tenant>, ks: seq<Key>, s: Shares,
                         k: Key, l: Key, v: int, w: int)
    requires DistinctKeys(ks) && AreShares(how, weights, ts, ks, s) && k.tenant == l.tenant
    requires k in ks && k.active && l in ks && l.active && Counts(k.weight, v) && Counts(l.weight, w)
    ensures k.id in s.keys && l.id in s.keys
    ensures s.keys[k.id] * w as real == s.keys[l.id] * v as real
  {
    hide Ratio, Part, GroupShare, TenantShare, OfTenant, DistinctKeys;
    assert Clamped(k.weight) == v && Clamped(l.weight) == w;
    Proportion(At(s.tenants, k.tenant), v, w, OfTenant(ks, k.tenant), s.keys[k.id], s.keys[l.id]);
  }

  /** An active key of a tenant that is not active has no share. */
  lemma IdleTenantsKeys(how: Algorithm, weights: map<string, int>, ts: seq<Tenant>, ks: seq<Key>, s: Shares, k: Key)
    requires DistinctKeys(ks) && AreShares(how, weights, ts, ks, s) && k in ks && k.active
    requires forall t | t in ts && t.active :: t.id != k.tenant
    ensures k.id in s.keys && s.keys[k.id] == 0.0
  {
    hide Ratio, GroupShare, TenantShare, OfTenant;
  }
}
