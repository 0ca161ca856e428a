/** The fair-share page's rows, previews and group shares, told in the tenants' own figures. */
module FairShareRows {
  import opened Wrappers
  import opened Sorting
  import opened FairShares

  /** Waiting below its share: something queued, a whole slot or more short, and another tenant a whole slot or more above its own. */
  lemma BelowShareMeans(t: Tenant, pool: seq<Tenant>)
    ensures IsWaitingBelowShare(t, pool)
       <==> && t.queued >= 1 && t.inFlight as real + 1.0 <= t.expected
            && exists o :: o in pool && o.id != t.id && o.inFlight as real >= o.expected + 1.0
  {
  }

  /** A row's standing, in order: next in line below its share, in line, above its share, within it. */
  lemma StandingMeans(t: Tenant, pool: seq<Tenant>)
    ensures var s := RowOf(t, pool).standing;
            && (s == Next <==> IsWaitingBelowShare(t, pool))
            && (s == InLine <==> !IsWaitingBelowShare(t, pool) && t.queued >= 1)
            && (s == Above <==> t.queued == 0 && t.inFlight as real >= t.expected + 1.0)
            && (s == Within <==> t.queued == 0 && t.inFlight as real < t.expected + 1.0)
    ensures Rank(Next) < Rank(InLine) < Rank(Above) < Rank(Within)
  {
  }

  /** The slots shown above a share are the whole ones held above it, none where it is not exceeded. */
  lemma AboveMeans(t: Tenant, pool: seq<Tenant>)
    ensures var above := RowOf(t, pool).above;
            && (above > 0 ==> t.expected + above as real <= t.inFlight as real < t.expected + above as real + 1.0)
            && (above == 0 <==> t.inFlight as real < t.expected + 1.0)
  {
  }

  /** The rows are of exactly the tenants that have a request running or waiting. */
  lemma RowsAreOfActive(tenants: seq<Tenant>, collate: Collation)
    ensures forall r | r in PoolTenantRows(tenants, collate) :: r.tenant in tenants && r.tenant.inFlight + r.tenant.queued >= 1
    ensures forall t | t in tenants && t.inFlight + t.queued >= 1 :: exists r :: r in PoolTenantRows(tenants, collate) && r.tenant == t
  {
    hide RowLeq;
    var rows, active := PoolTenantRows(tenants, collate), ActiveRows(tenants, tenants);
    RowLeqOrder(collate);
    SortSorts(active, RowComparator(collate));
    SameElements(rows, active);
    ActiveRowsAre(tenants, tenants);
    forall t | t in tenants && t.inFlight + t.queued >= 1 ensures exists r :: r in rows && r.tenant == t {
      assert RowOf(t, tenants) in rows && RowOf(t, tenants).tenant == t;
    }
  }

  // -------------------------------------------------------------------------
  // Previews
  // -------------------------------------------------------------------------

  lemma {:induction false} PeersMean(tenants: seq<Tenant>, me: Tenant)
    ensures forall p :: p in Peers(tenants, me) <==>
              p in tenants && p.inFlight + p.queued >= 1 && p.group == me.group && p.id != me.id
  {
    if tenants == [] {
    } else {
      PeersMean(tenants[1..], me);
      assert forall p :: p in tenants <==> p == tenants[0] || p in tenants[1..];
    }
  }

  lemma {:induction false} FindIs(tenants: seq<Tenant>, me: Tenant)
    requires DistinctIds(tenants) && me in tenants
    ensures Find(tenants, me.id) == Some(me)
  {
    hide DistinctIds;
    FirstIdAlone(tenants);
    assert forall p :: p in tenants <==> p == tenants[0] || p in tenants[1..];
    if me != tenants[0] { FindIs(tenants[1..], me); }
  }

  lemma {:induction false} FindNone(tenants: seq<Tenant>, id: string)
    requires forall t | t in tenants :: t.id != id
    ensures Find(tenants, id) == None
  {
    if tenants == [] {
    } else {
      assert forall p :: p in tenants <==> p == tenants[0] || p in tenants[1..];
      FindNone(tenants[1..], id);
    }
  }

  /** A pool previews a tenant that is active in it: from its own figure, out of the pool's configured slots where there are any. */
  lemma PreviewMeans(pool: Pool, me: Tenant, weight: nat)
    requires DistinctIds(pool.tenants) && me in pool.tenants
    ensures me.inFlight + me.queued == 0 ==> PreviewOf(pool, me.id, weight) == None
    ensures me.inFlight + me.queued >= 1 ==>
              var p := PreviewOf(pool, me.id, weight);
              && p.Some? && p.value.model == pool.model && p.value.from == me.expected
              && p.value.cap == (match pool.configuredCap case Some(c) => c case None => pool.cap)
              && p.value.peers == Names(Peers(pool.tenants, me))
              && p.value.to == Rescaled(me.expected, me.weight, weight, Weights(Peers(pool.tenants, me)))
  {
    hide Peers, Rescaled, Weights, DistinctIds;
    FindIs(pool.tenants, me);
  }

  /** A pool without the tenant previews nothing. */
  lemma NoPreview(pool: Pool, id: string, weight: nat)
    requires forall t | t in pool.tenants :: t.id != id
    ensures PreviewOf(pool, id, weight) == None
  {
    FindNone(pool.tenants, id);
  }

  /** What previews are ordered by is the distance moved. */
  lemma MovedMeans(p: Preview)
    ensures Moved(p) >= 0.0 && (Moved(p) == p.to - p.from || Moved(p) == p.from - p.to)
  {
  }

  // -------------------------------------------------------------------------
  // Group shares
  // -------------------------------------------------------------------------

  lemma {:induction false} SharesAt(some: seq<Group>, groups: seq<Group>, i: nat)
    requires i < |some|
    ensures |GroupShares(some, groups)| == |some| && GroupShares(some, groups)[i] == ShareOf(some[i], groups)
  {
    hide ShareOf;
    if i > 0 {
      SharesAt(some[1..], groups, i - 1);
    } else if |some| > 1 {
      SharesAt(some[1..], groups, 0);
    }
  }

  /** While some group is active only active groups have a share; counted groups' shares stand as their weights. */
  lemma GroupSharesMean(groups: seq<Group>, i: nat, j: nat)
    requires i < |groups| && j < |groups|
    ensures var shares := GroupShares(groups, groups);
            && |shares| == |groups|
            && (!groups[i].active && (exists g :: g in groups && g.active) ==> shares[i] == 0.0)
            && (groups[i].active == groups[j].active ==> shares[i] * groups[j].weight as real == shares[j] * groups[i].weight as real)
  {
    hide CountedWeight, GroupShares;
    SharesAt(groups, groups, i);
    SharesAt(groups, groups, j);
    var n := CountedWeight(groups, groups);
    if n > 0 { Proportional(groups[i].weight as real, groups[j].weight as real, n as real); }
  }

  lemma Proportional(a: real, b: real, n: real)
    requires n > 0.0
    ensures a / n * b == b / n * a
  {
    var p, q := a / n, b / n;
    assert p * n == a && q * n == b;
    assert p * b == p * (q * n) && q * a == q * (p * n);
  }

  lemma {:induction false} WeightCounts(some: seq<Group>, groups: seq<Group>, g: Group)
    requires g in some && g.weight > 0 && (g.active || forall h | h in groups :: !h.active)
    ensures CountedWeight(some, groups) > 0
  {
    if g != some[0] {
      assert g in some[1..];
      WeightCounts(some[1..], groups, g);
    }
  }

  /** Every group with work has its share, or every group while none has, and together they are the whole pool. */
  lemma GroupsWithWeightShare(groups: seq<Group>, i: nat)
    requires i < |groups| && groups[i].weight > 0 && (groups[i].active || forall h | h in groups :: !h.active)
    ensures |GroupShares(groups, groups)| == |groups| && GroupShares(groups, groups)[i] > 0.0
    ensures Sum(GroupShares(groups, groups)) == 1.0
  {
    hide GroupShares, CountedWeight;
    WeightCounts(groups, groups, groups[i]);
    SharesAt(groups, groups, i);
    GroupSharesFillPool(groups);
    Positives(groups[i].weight as real, CountedWeight(groups, groups) as real);
  }
}
