/** A weight preview against the shares the gateway would give at that weight. */
module Previews {
  import opened Sorting
  import F = FairShares
  import P = PoolShares

  /** A tenant's row as the gateway's split sees it. */
  function Seen(t: F.Tenant): P.Tenant { P.Tenant(t.id, t.group, t.weight, F.Active(t)) }

  /** The pool with one tenant's weight changed. */
  function Reweighted(ts: seq<F.Tenant>, id: string, w: nat): (r: seq<P.Tenant>)
    ensures |r| == |ts|
    ensures forall i | 0 <= i < |ts| :: r[i] == Seen(if ts[i].id == id then ts[i].(weight := w) else ts[i])
  {
    if ts == [] then []
    else [Seen(if ts[0].id == id then ts[0].(weight := w) else ts[0])] + Reweighted(ts[1..], id, w)
  }

  /** Weights below 1 count as 1 at the gateway, so the preview and it agree only on weights of at least 1. */
  ghost predicate Weighed(ts: seq<F.Tenant>) { forall t | t in ts && F.Active(t) :: t.weight >= 1 }

  function Counted(t: P.Tenant, g: string): nat { if t.active && t.group == g then P.Clamped(t.weight) else 0 }

  lemma {:induction false} InGroupCons(t: P.Tenant, ts: seq<P.Tenant>, g: string)
    ensures P.InGroup([t] + ts, g) == Counted(t, g) + P.InGroup(ts, g)
  {
    if ts == [] {
      assert [t] + ts == [t] && [t][..0] == [];
    } else {
      InGroupCons(t, ts[..|ts| - 1], g);
      assert ([t] + ts)[..|ts|] == [t] + ts[..|ts| - 1];
    }
  }

  /** A group's weights are its peers' and the tenant's own. */
  lemma {:induction false} GroupIsPeersAndMe(ts: seq<F.Tenant>, me: F.Tenant, w: nat)
    requires F.DistinctIds(ts) && Weighed(ts) && F.Active(me) && w >= 1
    requires forall t | t in ts && t.id == me.id :: t == me
    ensures P.InGroup(Reweighted(ts, me.id, w), me.group) == F.Weights(F.Peers(ts, me)) + if me in ts then w else 0
  {
    hide F.DistinctIds, F.Active;
    if ts == [] {
    } else {
      var t, rest := ts[0], ts[1..];
      F.FirstIdAlone(ts);
      assert forall u :: u in ts <==> u == t || u in rest;
      GroupIsPeersAndMe(rest, me, w);
      InGroupCons(Seen(if t.id == me.id then t.(weight := w) else t), Reweighted(rest, me.id, w), me.group);
      SeenActive(t, w);
      PeersCons(ts, me);
    }
  }

  lemma MyGroup(ts: seq<F.Tenant>, me: F.Tenant, w: nat)
    requires F.DistinctIds(ts) && Weighed(ts) && me in ts && F.Active(me) && w >= 1
    ensures P.InGroup(Reweighted(ts, me.id, w), me.group) == F.Weights(F.Peers(ts, me)) + w
  {
    hide F.DistinctIds, Weighed, F.Active, P.InGroup, F.Peers, Reweighted;
    forall t | t in ts && t.id == me.id ensures t == me { F.SameIdSame(ts, t, me); }
    GroupIsPeersAndMe(ts, me, w);
  }

  lemma SeenActive(t: F.Tenant, w: nat)
    ensures Seen(t.(weight := w)).active == Seen(t).active == F.Active(t)
  {
  }

  lemma PeersCons(ts: seq<F.Tenant>, me: F.Tenant)
    requires ts != []
    ensures var t := ts[0];
            F.Weights(F.Peers(ts, me)) == (if F.Active(t) && t.group == me.group && t.id != me.id then t.weight else 0)
              + F.Weights(F.Peers(ts[1..], me))
  {
    var rest := F.Peers(ts[1..], me);
    assert ([ts[0]] + rest)[1..] == rest;
    assert [] + rest == rest;
  }

  lemma {:induction false} SameGroups(a: seq<P.Tenant>, b: seq<P.Tenant>)
    requires |a| == |b| && forall i | 0 <= i < |a| :: a[i].group == b[i].group && a[i].active == b[i].active
    ensures P.ActiveGroups(a) == P.ActiveGroups(b)
  {
    if a == [] {
    } else {
      SameGroups(a[..|a| - 1], b[..|b| - 1]);
    }
  }

  /** The gateway's share of a tenant at a weight: its part of the group's share beside its peers. */
  lemma ShareAtWeight(weights: map<string, int>, ts: seq<F.Tenant>, me: F.Tenant, w: nat)
    requires F.DistinctIds(ts) && Weighed(ts) && me in ts && F.Active(me) && w >= 1
    ensures P.TenantShare(P.Hierarchical, weights, Reweighted(ts, me.id, w), Seen(me.(weight := w)))
         == P.Part(P.GroupShare(weights, Reweighted(ts, me.id, me.weight), me.group), w, F.Weights(F.Peers(ts, me)) + w)
  {
    hide P.GroupShare, P.TenantShare, P.Part, F.Peers, F.Weights, P.InGroup, F.Active, P.ActiveGroups, F.DistinctIds, Weighed, Reweighted;
    MyGroup(ts, me, w);
    ReweightedGroups(ts, me.id, me.weight, w);
    SameGroupShare(weights, Reweighted(ts, me.id, me.weight), Reweighted(ts, me.id, w), me.group);
    ShareIs(weights, Reweighted(ts, me.id, w), Seen(me.(weight := w)));
  }

  /** Hierarchical: the preview is always the share at the new weight. */
  lemma HierarchicalPreview(slots: real, weights: map<string, int>, ts: seq<F.Tenant>, me: F.Tenant, w: nat)
    requires F.DistinctIds(ts) && Weighed(ts) && me in ts && F.Active(me) && w >= 1
    requires me.expected == slots * P.TenantShare(P.Hierarchical, weights, Reweighted(ts, me.id, me.weight), Seen(me))
    ensures F.Rescaled(me.expected, me.weight, w, F.Weights(F.Peers(ts, me)))
         == slots * P.TenantShare(P.Hierarchical, weights, Reweighted(ts, me.id, w), Seen(me.(weight := w)))
  {
    hide P.GroupShare, P.TenantShare, P.Part, F.Rescaled, F.Peers, F.Weights, F.Active, F.DistinctIds, Reweighted;
    ShareAtWeight(weights, ts, me, me.weight);
    ShareAtWeight(weights, ts, me, w);
    assert me.(weight := me.weight) == me;
    Rescales(slots, P.GroupShare(weights, Reweighted(ts, me.id, me.weight), me.group), me.weight, w, F.Weights(F.Peers(ts, me)),
             P.TenantShare(P.Hierarchical, weights, Reweighted(ts, me.id, me.weight), Seen(me)),
             P.TenantShare(P.Hierarchical, weights, Reweighted(ts, me.id, w), Seen(me.(weight := w))), me.expected);
  }

  lemma ReweightedGroups(ts: seq<F.Tenant>, id: string, v: nat, w: nat)
    ensures P.ActiveGroups(Reweighted(ts, id, v)) == P.ActiveGroups(Reweighted(ts, id, w))
  {
    hide P.ActiveGroups;
    SameGroups(Reweighted(ts, id, v), Reweighted(ts, id, w));
  }

  lemma ShareIs(weights: map<string, int>, ts: seq<P.Tenant>, t: P.Tenant)
    requires t.weight >= 1
    ensures P.TenantShare(P.Hierarchical, weights, ts, t) == P.Part(P.GroupShare(weights, ts, t.group), t.weight, P.InGroup(ts, t.group))
  {
    hide P.GroupShare, P.Part, P.InGroup;
  }

  lemma SameGroupShare(weights: map<string, int>, a: seq<P.Tenant>, b: seq<P.Tenant>, g: string)
    requires P.ActiveGroups(a) == P.ActiveGroups(b)
    ensures P.GroupShare(weights, a, g) == P.GroupShare(weights, b, g)
  {
  }

  lemma Rescales(slots: real, g: real, c: nat, w: nat, peers: nat, share: real, later: real, from: real)
    requires c >= 1 && w >= 1
    requires share == P.Part(g, c, peers + c) && later == P.Part(g, w, peers + w) && from == slots * share
    ensures F.Rescaled(from, c, w, peers) == slots * later
  {
    var part, next := F.GroupPart(c, peers), F.GroupPart(w, peers);
    F.Positives(c as real, (peers + c) as real);
    assert share == g * part && later == g * next;
    Regroup(slots, g, part);
    Regroup(slots, g, next);
    F.Cancel(slots * g, part, next);
  }

  lemma Regroup(a: real, b: real, c: real)
    ensures a * (b * c) == a * b * c
  {
  }

  // -------------------------------------------------------------------------
  // Weighted shares
  // -------------------------------------------------------------------------

  /** The weights of the active tenants outside a tenant's group. */
  function Elsewhere(ts: seq<F.Tenant>, me: F.Tenant): nat {
    if ts == [] then 0
    else (if F.Active(ts[0]) && ts[0].group != me.group then ts[0].weight else 0) + Elsewhere(ts[1..], me)
  }

  /** Every active tenant is in the tenant's own group. */
  predicate OneGroup(ts: seq<F.Tenant>, me: F.Tenant) { forall t | t in ts && F.Active(t) :: t.group == me.group }

  lemma {:induction false} ElsewhereIsOthers(ts: seq<F.Tenant>, me: F.Tenant)
    requires Weighed(ts)
    ensures Elsewhere(ts, me) == 0 <==> OneGroup(ts, me)
  {
    hide F.Active;
    if ts == [] {
    } else {
      assert forall t :: t in ts <==> t == ts[0] || t in ts[1..];
      ElsewhereIsOthers(ts[1..], me);
    }
  }

  lemma {:induction false} TotalCons(t: P.Tenant, ts: seq<P.Tenant>)
    ensures P.ActiveTotal([t] + ts) == (if t.active then P.Clamped(t.weight) else 0) + P.ActiveTotal(ts)
  {
    if ts == [] {
      assert [t] + ts == [t] && [t][..0] == [];
    } else {
      TotalCons(t, ts[..|ts| - 1]);
      assert ([t] + ts)[..|ts|] == [t] + ts[..|ts| - 1];
    }
  }

  /** All active weights are the peers', the tenant's own and those elsewhere. */
  lemma {:induction false} TotalIsThree(ts: seq<F.Tenant>, me: F.Tenant, w: nat)
    requires F.DistinctIds(ts) && Weighed(ts) && F.Active(me) && w >= 1
    requires forall t | t in ts && t.id == me.id :: t == me
    ensures P.ActiveTotal(Reweighted(ts, me.id, w))
         == F.Weights(F.Peers(ts, me)) + (if me in ts then w else 0) + Elsewhere(ts, me)
  {
    hide F.DistinctIds, F.Active;
    if ts == [] {
    } else {
      var t, rest := ts[0], ts[1..];
      F.FirstIdAlone(ts);
      assert forall u :: u in ts <==> u == t || u in rest;
      TotalIsThree(rest, me, w);
      TotalCons(Seen(if t.id == me.id then t.(weight := w) else t), Reweighted(rest, me.id, w));
      SeenActive(t, w);
      PeersCons(ts, me);
    }
  }

  lemma WeightedShareAt(weights: map<string, int>, ts: seq<F.Tenant>, me: F.Tenant, w: nat)
    requires F.DistinctIds(ts) && Weighed(ts) && me in ts && F.Active(me) && w >= 1
    ensures P.TenantShare(P.Weighted, weights, Reweighted(ts, me.id, w), Seen(me.(weight := w)))
         == Fraction(w, F.Weights(F.Peers(ts, me)) + w + Elsewhere(ts, me))
  {
    hide F.DistinctIds, Weighed, F.Active, P.ActiveTotal, F.Peers, F.Weights, Elsewhere, Reweighted;
    forall t | t in ts && t.id == me.id ensures t == me { F.SameIdSame(ts, t, me); }
    TotalIsThree(ts, me, w);
  }

  /** Two fractions are equal exactly when they are crosswise. */
  lemma Crosswise(p: real, q: real, x: real, y: real)
    requires q > 0.0 && y > 0.0
    ensures p / q == x / y <==> p * y == x * q
    ensures p / q < x / y <==> p * y < x * q
  {
    var f, g := p / q, x / y;
    assert f * q == p && g * y == x;
    assert p * y == f * (q * y) && x * q == g * (q * y);
    assert q * y > 0.0;
    assert (g - f) * (q * y) == g * (q * y) - f * (q * y);
    assert f < g ==> (g - f) * (q * y) > 0.0;
    assert f > g ==> (f - g) * (q * y) > 0.0;
    assert (f - g) * (q * y) == f * (q * y) - g * (q * y);
  }

  /** The tenant's part, scaled within its group: `w` of `b` where it was `c` of `a`, both beside `o` elsewhere. */
  lemma ScaledPart(c: real, w: real, a: real, b: real, o: real)
    requires c > 0.0 && w > 0.0 && a > 0.0 && b > 0.0 && o >= 0.0
    ensures c / (a + o) * ((w / b) / (c / a)) == w / b * (a / (a + o))
  {
    var r, x, y, z := (w / b) / (c / a), c / a, a / (a + o), c / (a + o);
    F.Positives(c, a);
    assert r * x == w / b;
    assert x * a == c && y * (a + o) == a && z * (a + o) == c;
    assert x * y * (a + o) == x * a;
    SameFactor(x * y, z, a + o);
    assert z * r == r * x * y;
  }

  lemma SameFactor(x: real, y: real, f: real)
    requires f > 0.0 && x * f == y * f
    ensures x == y
  {
    assert (x - y) * f == x * f - y * f;
  }

  lemma PartOfPart(w: real, b: real, n: real)
    requires b > 0.0 && n > 0.0
    ensures w / n == w / b * (b / n)
  {
    var p, r := w / b, b / n;
    assert p * b == w && r * n == b;
    assert p * r * n == p * (r * n);
    assert w / n * n == w;
    SameFactor(w / n, p * r, n);
  }

  /** A larger group is a larger part beside the same others. */
  lemma LargerPart(a: real, b: real, o: real, d: real, e: real)
    requires a > 0.0 && b > 0.0 && o >= 0.0 && d == a + o && e == b + o
    ensures a / d == b / e <==> a == b || o == 0.0
    ensures a / d < b / e <==> a < b && o > 0.0
  {
    Crosswise(a, d, b, e);
    CrossSums(a, b, o, d, e);
    Ordered(a, b, o);
  }

  lemma CrossSums(a: real, b: real, o: real, d: real, e: real)
    requires d == a + o && e == b + o
    ensures a * e - b * d == a * o - b * o
    ensures a * e == b * d <==> a * o == b * o
  {
    assert a * e == a * b + a * o;
    assert b * d == a * b + b * o;
  }

  /** Against `w` of `b + o`: equal where the group did not change or is all there is, too little where it grew. */
  lemma PartMoves(w: real, a: real, b: real, o: real)
    requires w > 0.0 && a > 0.0 && b > 0.0 && o >= 0.0
    ensures w / b * (a / (a + o)) == w / (b + o) <==> a == b || o == 0.0
    ensures w / b * (a / (a + o)) < w / (b + o) <==> a < b && o > 0.0
  {
    PartOfPart(w, b, b + o);
    F.Positives(w, b);
    LargerPart(a, b, o, a + o, b + o);
    Stretched(w / b, a / (a + o), b / (b + o));
  }

  lemma Ordered(x: real, y: real, f: real)
    requires f >= 0.0
    ensures x * f == y * f <==> x == y || f == 0.0
    ensures x * f < y * f <==> x < y && f > 0.0
  {
    assert (x - y) * f == x * f - y * f;
    assert x > y && f > 0.0 ==> (x - y) * f > 0.0;
    assert x < y && f > 0.0 ==> (x - y) * f < 0.0;
  }

  /** `w` of `n`. */
  function Fraction(w: nat, n: nat): real
    requires n > 0
  {
    w as real / n as real
  }

  lemma RescaledFraction(slots: real, c: nat, w: nat, peers: nat, o: nat)
    requires c >= 1 && w >= 1
    ensures F.Rescaled(slots * Fraction(c, peers + c + o), c, w, peers)
         == slots * (Fraction(w, peers + w) * Fraction(peers + c, peers + c + o))
  {
    var a, b, e := (peers + c) as real, (peers + w) as real, o as real;
    var x, y := c as real, w as real;
    F.Positives(x, a);
    ScaledPart(x, y, a, b, e);
    Regroup(slots, x / (a + e), (y / b) / (x / a));
  }

  lemma FractionMoves(c: nat, w: nat, peers: nat, o: nat)
    requires c >= 1 && w >= 1
    ensures var p, q := Fraction(w, peers + w) * Fraction(peers + c, peers + c + o), Fraction(w, peers + w + o);
            && (p == q <==> w == c || o == 0)
            && (p < q <==> w > c && o > 0)
  {
    PartMoves(w as real, (peers + c) as real, (peers + w) as real, o as real);
  }

  lemma WeightedMoves(slots: real, c: nat, w: nat, peers: nat, o: nat, from: real, to: real)
    requires c >= 1 && w >= 1
    requires from == slots * Fraction(c, peers + c + o) && to == slots * Fraction(w, peers + w + o)
    ensures F.Rescaled(from, c, w, peers) == to <==> slots == 0.0 || w == c || o == 0
    ensures slots > 0.0 ==> (F.Rescaled(from, c, w, peers) < to <==> w > c && o > 0)
  {
    hide Fraction, F.Rescaled;
    RescaledFraction(slots, c, w, peers, o);
    FractionMoves(c, w, peers, o);
    Stretched(slots, Fraction(w, peers + w) * Fraction(peers + c, peers + c + o), Fraction(w, peers + w + o));
  }

  lemma Stretched(slots: real, p: real, q: real)
    ensures slots * p == slots * q <==> slots == 0.0 || p == q
    ensures slots > 0.0 ==> (slots * p < slots * q <==> p < q)
  {
    assert slots * (p - q) == slots * p - slots * q;
    assert slots > 0.0 && p < q ==> slots * (p - q) < 0.0;
    assert slots > 0.0 && p > q ==> slots * (p - q) > 0.0;
    assert slots < 0.0 && p < q ==> slots * (p - q) > 0.0;
    assert slots < 0.0 && p > q ==> slots * (p - q) < 0.0;
  }

  /**
   * When a tenant's figure is its share of the slots as the gateway splits
   * them, its preview is its share of them at the new weight exactly under the
   * hierarchical split, without slots, without a change, or while every active
   * tenant is in its group. Otherwise a raised weight is given too little.
   */
  lemma PreviewIsGatewayShare(how: P.Algorithm, slots: real, weights: map<string, int>, ts: seq<F.Tenant>, me: F.Tenant, w: nat)
    requires F.DistinctIds(ts) && Weighed(ts) && me in ts && F.Active(me) && w >= 1
    requires me.expected == slots * P.TenantShare(how, weights, Reweighted(ts, me.id, me.weight), Seen(me))
    ensures var to := F.Rescaled(me.expected, me.weight, w, F.Weights(F.Peers(ts, me)));
            var share := slots * P.TenantShare(how, weights, Reweighted(ts, me.id, w), Seen(me.(weight := w)));
            && (to == share <==> how == P.Hierarchical || slots == 0.0 || w == me.weight || OneGroup(ts, me))
            && (how == P.Weighted && slots > 0.0 ==> (to < share <==> w > me.weight && !OneGroup(ts, me)))
  {
    hide P.GroupShare, P.TenantShare, F.Rescaled, F.Peers, F.Weights, F.Active, F.DistinctIds, Elsewhere, Reweighted, OneGroup, Fraction;
    match how
    case Hierarchical =>
      HierarchicalPreview(slots, weights, ts, me, w);
    case Weighted =>
      WeightedShareAt(weights, ts, me, me.weight);
      WeightedShareAt(weights, ts, me, w);
      assert me.(weight := me.weight) == me;
      ElsewhereIsOthers(ts, me);
      var peers, o := F.Weights(F.Peers(ts, me)), Elsewhere(ts, me);
      var share := slots * P.TenantShare(how, weights, Reweighted(ts, me.id, w), Seen(me.(weight := w)));
      WeightedMoves(slots, me.weight, w, peers, o, me.expected, share);
  }

  const ALONE: F.Tenant := F.Tenant("a", "", "g", 100, 1, 0, 0.0, 5.0)
  const OTHER: F.Tenant := F.Tenant("b", "", "h", 100, 1, 0, 0.0, 5.0)

  /** Weighted: the only tenant of its group, at twice its weight, is previewed no move and gets two slots of three. */
  lemma AloneInGroupMoves(weights: map<string, int>)
    ensures var ts := [ALONE, OTHER];
            && ALONE.expected == 10.0 * P.TenantShare(P.Weighted, weights, Reweighted(ts, "a", 100), Seen(ALONE))
            && F.Rescaled(ALONE.expected, 100, 200, F.Weights(F.Peers(ts, ALONE))) == ALONE.expected
            && P.TenantShare(P.Weighted, weights, Reweighted(ts, "a", 200), Seen(ALONE.(weight := 200))) == 2.0 / 3.0
  {
    var ts := [ALONE, OTHER];
    assert ts[1..] == [OTHER] && [OTHER][1..] == [];
    assert F.Peers([OTHER], ALONE) == [] && Elsewhere([OTHER], ALONE) == 100;
    assert F.Peers(ts, ALONE) == [] && Elsewhere(ts, ALONE) == 100;
    assert ALONE in ts && ALONE.(weight := 100) == ALONE;
    WeightedShareAt(weights, ts, ALONE, 100);
    WeightedShareAt(weights, ts, ALONE, 200);
  }
}
