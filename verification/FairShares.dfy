/**
 * Fair shares of one pool: who waits below its share, who holds above it, the
 * order tenants stand in line, and what a changed weight would move.
 */
module FairShares {
  import opened Wrappers
  import opened Sorting

  /** A tenant's row in one pool; `expected` is its fair share in slots. */
  datatype Tenant = Tenant(
    id: string, name: string, group: string, weight: nat, inFlight: nat, queued: nat, score: real, expected: real)

  predicate IsAboveShare(t: Tenant) { t.inFlight as real - t.expected >= 1.0 }

  predicate IsWaitingBelowShare(t: Tenant, pool: seq<Tenant>) {
    && t.queued > 0
    && t.inFlight < t.expected.Floor
    && exists o | o in pool :: o.id != t.id && IsAboveShare(o)
  }

  // -------------------------------------------------------------------------
  // Below and above
  // -------------------------------------------------------------------------

  function Held(pool: seq<Tenant>): nat { if pool == [] then 0 else pool[0].inFlight + Held(pool[1..]) }

  function Shares(pool: seq<Tenant>): real { if pool == [] then 0.0 else pool[0].expected + Shares(pool[1..]) }

  /** Slots held beyond the fair share; negative when short. */
  function Excess(t: Tenant): real { t.inFlight as real - t.expected }

  function TotalExcess(pool: seq<Tenant>): real { if pool == [] then 0.0 else Excess(pool[0]) + TotalExcess(pool[1..]) }

  lemma {:induction false} ExcessIsHeldLessShares(pool: seq<Tenant>)
    ensures TotalExcess(pool) == Held(pool) as real - Shares(pool)
  {
    if pool == [] {
    } else {
      ExcessIsHeldLessShares(pool[1..]);
    }
  }

  lemma {:induction false} ExcessWithout(pool: seq<Tenant>, i: nat)
    requires i < |pool|
    ensures TotalExcess(pool[..i] + pool[i + 1..]) == TotalExcess(pool) - Excess(pool[i])
  {
    if i == 0 {
      assert pool[..0] + pool[1..] == pool[1..];
    } else {
      ExcessWithout(pool[1..], i - 1);
      var others := pool[..i] + pool[i + 1..];
      assert others[1..] == pool[1..][..i - 1] + pool[1..][i..];
    }
  }

  /** Someone holds at least the average excess. */
  lemma {:induction false} SomeoneHoldsAverage(pool: seq<Tenant>, each: real)
    requires pool != [] && TotalExcess(pool) >= each * |pool| as real
    ensures exists o | o in pool :: Excess(o) >= each
  {
    if Excess(pool[0]) >= each {
      assert pool[0] in pool;
    } else {
      assert TotalExcess(pool) == Excess(pool[0]) + TotalExcess(pool[1..]);
      assert each * |pool| as real == each + each * |pool[1..]| as real;
      if |pool| > 1 {
        SomeoneHoldsAverage(pool[1..], each);
      }
    }
  }

  /**
   * In a pool whose slots in use reach the sum of shares, when one tenant is a
   * whole slot short the others hold at least one slot too many between them.
   */
  lemma OthersBorrow(pool: seq<Tenant>, i: nat)
    requires i < |pool| && Held(pool) as real >= Shares(pool)
    requires pool[i].inFlight < pool[i].expected.Floor
    ensures var others := pool[..i] + pool[i + 1..];
            && others != [] && TotalExcess(others) >= 1.0
            && exists o | o in others :: Excess(o) >= 1.0 / |others| as real
  {
    var others := pool[..i] + pool[i + 1..];
    ExcessIsHeldLessShares(pool);
    ExcessWithout(pool, i);
    if others != [] {
      var n := |others| as real;
      assert 1.0 / n * n == 1.0;
      SomeoneHoldsAverage(others, 1.0 / n);
    }
  }

  ghost predicate DistinctIds(tenants: seq<Tenant>) {
    forall i, j | 0 <= i < j < |tenants| :: tenants[i].id != tenants[j].id
  }

  /** Waiting while a whole slot short of its share. */
  predicate IsShort(t: Tenant) { t.queued > 0 && t.inFlight < t.expected.Floor }

  /** A pool whose slots in use reach the sum of shares. */
  predicate IsFull(pool: seq<Tenant>) { Held(pool) as real >= Shares(pool) }

  lemma OtherInPool(pool: seq<Tenant>, i: nat, o: Tenant)
    requires DistinctIds(pool) && i < |pool| && o in pool[..i] + pool[i + 1..]
    ensures o in pool && o.id != pool[i].id
  {
    var others := pool[..i] + pool[i + 1..];
    var k :| 0 <= k < |others| && others[k] == o;
    assert o == pool[if k < i then k else k + 1];
  }

  /** With at most one other tenant, a short tenant of a full pool is always seen waiting below its share. */
  lemma OneOtherIsSeen(pool: seq<Tenant>, i: nat)
    requires DistinctIds(pool) && IsFull(pool) && i < |pool| <= 2 && IsShort(pool[i])
    ensures IsWaitingBelowShare(pool[i], pool)
  {
    OthersBorrow(pool, i);
    var others := pool[..i] + pool[i + 1..];
    var o :| o in others && Excess(o) >= 1.0 / |others| as real;
    assert |others| == 1;
    OtherInPool(pool, i, o);
  }

  /** Where every share is a whole number of slots, a short tenant of a full pool is always seen. */
  lemma WholeSharesAreSeen(pool: seq<Tenant>, i: nat)
    requires DistinctIds(pool) && IsFull(pool) && i < |pool| && IsShort(pool[i])
    requires forall t | t in pool :: t.expected == t.expected.Floor as real
    ensures IsWaitingBelowShare(pool[i], pool)
  {
    hide DistinctIds, Excess, IsAboveShare, Held, Shares, TotalExcess;
    OthersBorrow(pool, i);
    var others := pool[..i] + pool[i + 1..];
    var o :| o in others && Excess(o) >= 1.0 / |others| as real;
    OtherInPool(pool, i, o);
    Reciprocal(|others|);
    WholeExcess(o);
  }

  lemma WholeExcess(o: Tenant)
    requires o.expected == o.expected.Floor as real && Excess(o) > 0.0
    ensures IsAboveShare(o)
  {
    assert Excess(o) == (o.inFlight - o.expected.Floor) as real;
  }

  lemma Reciprocal(n: nat)
    requires n > 0
    ensures n as real * (1.0 / n as real) == 1.0 && 1.0 / n as real > 0.0
  {
    var r := 1.0 / n as real;
    assert n as real * r == 1.0;
  }

  /** One of `n` lenders: a fraction of a slot above its share, never a whole one. */
  function Lender(n: nat, k: nat): Tenant
    requires n > 0
  {
    Tenant(seq(k, _ => 'x'), "", "", 1, 2, 0, 0.0, 2.0 - 1.0 / n as real)
  }

  function Lenders(n: nat, k: nat): (pool: seq<Tenant>)
    requires n > 0
    ensures |pool| == k && forall j | 0 <= j < k :: pool[j] == Lender(n, k - j)
  {
    if k == 0 then [] else [Lender(n, k)] + Lenders(n, k - 1)
  }

  const BORROWER: Tenant := Tenant("", "", "", 1, 1, 1, 0.0, 2.0)

  lemma {:induction false} LendersAddUp(n: nat, k: nat)
    requires n > 0
    ensures Held(Lenders(n, k)) == 2 * k
    ensures Shares(Lenders(n, k)) == 2.0 * k as real - k as real * (1.0 / n as real)
  {
    if k == 0 {
    } else {
      LendersAddUp(n, k - 1);
      assert Lenders(n, k)[1..] == Lenders(n, k - 1);
      var r := 1.0 / n as real;
      assert k as real * r == (k - 1) as real * r + r;
    }
  }

  /** With two or more others the excess can be spread so that none of them holds a whole slot, and nobody is seen. */
  lemma SpreadExcessIsUnseen(n: nat)
    requires n >= 2
    ensures var pool := [BORROWER] + Lenders(n, n);
            DistinctIds(pool) && IsFull(pool) && IsShort(pool[0]) && !IsWaitingBelowShare(pool[0], pool)
  {
    var lenders := Lenders(n, n);
    var pool := [BORROWER] + lenders;
    LendersAddUp(n, n);
    Reciprocal(n);
    assert pool[1..] == lenders;
    HalfAtMost(n);
    forall o | o in pool ensures !IsAboveShare(o) || o.id == BORROWER.id {
      if o != BORROWER {
        assert o in lenders;
        var j :| 0 <= j < n && lenders[j] == o;
        assert o == Lender(n, n - j);
      }
    }
    LendersDistinct(n);
  }

  lemma HalfAtMost(n: nat)
    requires n >= 2
    ensures 1.0 / n as real <= 0.5
  {
    var r := 1.0 / n as real;
    assert n as real * r == 1.0;
    assert r > 0.5 ==> n as real * r > n as real * 0.5;
  }

  lemma LendersDistinct(n: nat)
    requires n > 0
    ensures DistinctIds([BORROWER] + Lenders(n, n))
  {
    var pool := [BORROWER] + Lenders(n, n);
    forall i, j | 0 <= i < j < |pool| ensures pool[i].id != pool[j].id {
      assert pool[j] == Lender(n, n - (j - 1)) && |pool[j].id| == n - (j - 1);
      assert |pool[i].id| == if i == 0 then 0 else n - (i - 1);
    }
  }

  /** Whether a short tenant of a full pool is seen for certain, whatever the shares of its others. */
  ghost predicate AlwaysSeen(others: nat) {
    forall pool: seq<Tenant>, i: nat |
      |pool| == others + 1 && i < |pool| && DistinctIds(pool) && IsFull(pool) && IsShort(pool[i]) ::
        IsWaitingBelowShare(pool[i], pool)
  }

  /** It is exactly when there is no more than one other. */
  lemma SeenForCertain(others: nat)
    ensures AlwaysSeen(others) <==> others <= 1
  {
    hide IsFull, IsShort, IsWaitingBelowShare, DistinctIds;
    if others <= 1 {
      forall pool: seq<Tenant>, i: nat |
        |pool| == others + 1 && i < |pool| && DistinctIds(pool) && IsFull(pool) && IsShort(pool[i])
        ensures IsWaitingBelowShare(pool[i], pool)
      {
        OneOtherIsSeen(pool, i);
      }
    } else {
      SpreadExcessIsUnseen(others);
      var pool := [BORROWER] + Lenders(others, others);
      assert |pool| == others + 1 && !IsWaitingBelowShare(pool[0], pool);
    }
  }

  // -------------------------------------------------------------------------
  // The line, and the pool's rows
  // -------------------------------------------------------------------------

  /** A number as the runtime subtracts it: infinities may meet as NaN. */
  datatype Number = Finite(r: real) | PosInf | NegInf | NaN

  /** Zero and NaN make `||` go on to the next comparison. */
  predicate Falsy(n: Number) { n == Finite(0.0) || n == NaN }

  predicate Positive(n: Number) { n == PosInf || (n.Finite? && n.r > 0.0) }

  function Or(a: Number, b: Number): Number { if Falsy(a) then b else a }

  function Minus(a: nat, b: nat): Number { Finite(a as real - b as real) }

  /** The difference of two places, an absent one standing for infinity. */
  function PlaceDiff(a: Option<nat>, b: Option<nat>): Number {
    match (a, b)
    case (Some(x), Some(y)) => Minus(x, y)
    case (Some(_), None) => NegInf
    case (None, Some(_)) => PosInf
    case (None, None) => NaN
  }

  function LineOrder(a: Tenant, b: Tenant): Number { Or(Finite(a.score - b.score), Minus(b.queued, a.queued)) }

  predicate LineLeq(a: Tenant, b: Tenant) { !Positive(LineOrder(a, b)) }

  function Waiting(tenants: seq<Tenant>): seq<Tenant> {
    if tenants == [] then []
    else (if tenants[0].queued > 0 then [tenants[0]] else []) + Waiting(tenants[1..])
  }

  /** Waiting tenants in the order freed slots reach them: least served against weight first. */
  function NextInLine(tenants: seq<Tenant>): seq<Tenant> {
    Sort(Waiting(tenants), (a: Tenant, b: Tenant) => LineLeq(a, b))
  }

  datatype Standing = Next | InLine | Above | Within
  datatype Row = Row(tenant: Tenant, standing: Standing, above: nat, place: Option<nat>)

  function Rank(s: Standing): nat { match s case Next => 0 case InLine => 1 case Above => 2 case Within => 3 }

  function StandingOf(t: Tenant, pool: seq<Tenant>): Standing {
    if IsWaitingBelowShare(t, pool) then Next
    else if t.queued > 0 then InLine
    else if IsAboveShare(t) then Above
    else Within
  }

  /** The last position of an id in the line, 1-based, as a map built from it would hold. */
  function PlaceIn(line: seq<Tenant>, id: string): (p: Option<nat>)
    ensures p.Some? ==> 1 <= p.value <= |line| && line[p.value - 1].id == id
    ensures p.None? <==> forall i | 0 <= i < |line| :: line[i].id != id
  {
    if line == [] then None
    else if line[|line| - 1].id == id then Some(|line|)
    else PlaceIn(line[..|line| - 1], id)
  }

  /** Whole slots held above the fair share. */
  function WholeAbove(t: Tenant): nat { if Excess(t).Floor > 0 then Excess(t).Floor else 0 }

  /** No row is both waiting below its share and above it. */
  lemma NotBothBelowAndAbove(t: Tenant, pool: seq<Tenant>)
    ensures IsWaitingBelowShare(t, pool) ==> !IsAboveShare(t) && WholeAbove(t) == 0
  {
  }

  function RowOf(t: Tenant, pool: seq<Tenant>): Row {
    Row(t, StandingOf(t, pool), WholeAbove(t), PlaceIn(NextInLine(pool), t.id))
  }

  predicate Active(t: Tenant) { t.inFlight > 0 || t.queued > 0 }

  function ActiveRows(tenants: seq<Tenant>, pool: seq<Tenant>): seq<Row> {
    if tenants == [] then []
    else (if Active(tenants[0]) then [RowOf(tenants[0], pool)] else []) + ActiveRows(tenants[1..], pool)
  }

  /** `collate` is a name's position in the reader's own alphabet. */
  type Collation = string -> int

  function RowOrder(a: Row, b: Row, collate: Collation): Number {
    Or(Minus(Rank(a.standing), Rank(b.standing)),
       Or(PlaceDiff(a.place, b.place),
          Or(Minus(b.tenant.inFlight, a.tenant.inFlight),
             Finite((collate(a.tenant.name) - collate(b.tenant.name)) as real))))
  }

  predicate RowLeq(a: Row, b: Row, collate: Collation) { !Positive(RowOrder(a, b, collate)) }

  function RowComparator(collate: Collation): (Row, Row) -> bool {
    (a: Row, b: Row) => RowLeq(a, b, collate)
  }

  function PoolTenantRows(tenants: seq<Tenant>, collate: Collation): seq<Row> {
    Sort(ActiveRows(tenants, tenants), RowComparator(collate))
  }

  lemma LineLeqOrder()
    ensures TotalPreorder((a: Tenant, b: Tenant) => LineLeq(a, b))
  {
  }

  /** The comparator orders rows consistently, even where two absent places compare as NaN. */
  lemma RowLeqOrder(collate: Collation)
    ensures TotalPreorder(RowComparator(collate))
    ensures forall a: Row, b: Row :: RowLeq(a, b, collate) <==> !RowLeq(b, a, collate) || RowTies(a, b, collate)
  {
    forall a: Row, b: Row, c: Row | RowLeq(a, b, collate) && RowLeq(b, c, collate) ensures RowLeq(a, c, collate) {
      RowLeqMeans(a, b, collate);
      RowLeqMeans(b, c, collate);
      RowLeqMeans(a, c, collate);
    }
    forall a: Row, b: Row
      ensures RowLeq(a, b, collate) || RowLeq(b, a, collate)
      ensures RowLeq(a, b, collate) <==> !RowLeq(b, a, collate) || RowTies(a, b, collate)
    {
      RowLeqMeans(a, b, collate);
      RowLeqMeans(b, a, collate);
    }
  }

  predicate RowTies(a: Row, b: Row, collate: Collation) {
    a.standing == b.standing && a.place == b.place && a.tenant.inFlight == b.tenant.inFlight
    && collate(a.tenant.name) == collate(b.tenant.name)
  }

  function PlaceKey(p: Option<nat>): (int, nat) { if p.Some? then (0, p.value) else (1, 0) }

  /** The order in plain words: standing, then place with absent last, then most in flight, then name. */
  lemma RowLeqMeans(a: Row, b: Row, collate: Collation)
    ensures RowLeq(a, b, collate) <==>
              || Rank(a.standing) < Rank(b.standing)
              || (a.standing == b.standing &&
                  (|| PlaceKey(a.place).0 < PlaceKey(b.place).0
                   || (PlaceKey(a.place).0 == PlaceKey(b.place).0 &&
                       (|| PlaceKey(a.place).1 < PlaceKey(b.place).1
                        || (a.place == b.place &&
                            (|| a.tenant.inFlight > b.tenant.inFlight
                             || (a.tenant.inFlight == b.tenant.inFlight && collate(a.tenant.name) <= collate(b.tenant.name))))))))
  {
    assert Rank(a.standing) == Rank(b.standing) <==> a.standing == b.standing;
  }

  lemma FirstIdAlone(tenants: seq<Tenant>)
    requires tenants != [] && DistinctIds(tenants)
    ensures DistinctIds(tenants[1..]) && forall t | t in tenants[1..] :: t.id != tenants[0].id
  {
  }

  lemma IdsCons(t: Tenant, s: seq<Tenant>)
    requires DistinctIds(s) && forall u | u in s :: u.id != t.id
    ensures DistinctIds([t] + s)
  {
    assert forall i | 0 <= i < |s| :: s[i] in s;
  }

  lemma {:induction false} WaitingElements(tenants: seq<Tenant>)
    ensures forall t :: t in Waiting(tenants) <==> t in tenants && t.queued > 0
    ensures DistinctIds(tenants) ==> DistinctIds(Waiting(tenants))
  {
    if tenants == [] {
    } else {
      hide DistinctIds;
      var rest := tenants[1..];
      WaitingElements(rest);
      assert forall t :: t in tenants <==> t == tenants[0] || t in rest;
      if DistinctIds(tenants) {
        FirstIdAlone(tenants);
        IdsCons(tenants[0], Waiting(rest));
        assert [] + Waiting(rest) == Waiting(rest);
      }
    }
  }

  lemma PermutedIds(a: seq<Tenant>, b: seq<Tenant>)
    requires DistinctIds(a) && multiset(a) == multiset(b)
    ensures DistinctIds(b)
  {
    PermutationDistinct(a, b);
    forall i, j | 0 <= i < j < |b| ensures b[i].id != b[j].id {
      assert b[i] in multiset(a) && b[j] in multiset(a);
    }
  }

  /** The line holds exactly the waiting tenants, once each, least served against weight first. */
  lemma LineIsSorted(tenants: seq<Tenant>)
    requires DistinctIds(tenants)
    ensures var line := NextInLine(tenants);
            && (forall t :: t in line <==> t in tenants && t.queued > 0)
            && DistinctIds(line)
            && (forall i, j | 0 <= i < j < |line| ::
                  line[i].score < line[j].score || (line[i].score == line[j].score && line[i].queued >= line[j].queued))
  {
    var leq := (a: Tenant, b: Tenant) => LineLeq(a, b);
    var line := NextInLine(tenants);
    LineLeqOrder();
    SortSorts(Waiting(tenants), leq);
    SameElements(line, Waiting(tenants));
    WaitingElements(tenants);
    PermutedIds(Waiting(tenants), line);
    forall i, j | 0 <= i < j < |line|
      ensures line[i].score < line[j].score || (line[i].score == line[j].score && line[i].queued >= line[j].queued)
    {
      assert leq(line[i], line[j]);
    }
  }

  /** Tenants level in the line keep the order they were given in. */
  lemma LineKeepsOrder(tenants: seq<Tenant>, x: Tenant)
    ensures var leq := (a: Tenant, b: Tenant) => LineLeq(a, b);
            Ties(NextInLine(tenants), x, leq) == Ties(Waiting(tenants), x, leq)
  {
    LineLeqOrder();
    SortStable(Waiting(tenants), x, (a: Tenant, b: Tenant) => LineLeq(a, b));
  }

  lemma {:induction false} ActiveRowsAre(tenants: seq<Tenant>, pool: seq<Tenant>)
    ensures forall r :: r in ActiveRows(tenants, pool) <==> r.tenant in tenants && Active(r.tenant) && r == RowOf(r.tenant, pool)
  {
    hide RowOf;
    assert forall t :: RowOf(t, pool).tenant == t by { RowTenant(pool); }
    if tenants == [] {
    } else {
      ActiveRowsAre(tenants[1..], pool);
      assert tenants == [tenants[0]] + tenants[1..];
    }
  }

  lemma RowTenant(pool: seq<Tenant>)
    ensures forall t :: RowOf(t, pool).tenant == t
  {
  }

  /**
   * The rows are the active tenants in order; exactly the waiting ones have a
   * place, the places are their positions in line, and everyone next in line
   * comes before everyone else.
   */
  lemma RowsAreOrdered(tenants: seq<Tenant>, collate: Collation)
    requires DistinctIds(tenants)
    ensures var rows := PoolTenantRows(tenants, collate);
            && multiset(rows) == multiset(ActiveRows(tenants, tenants))
            && (forall i, j | 0 <= i < j < |rows| :: RowLeq(rows[i], rows[j], collate))
            && (forall i, j | 0 <= i < j < |rows| && rows[j].standing == Next :: rows[i].standing == Next)
    ensures var rows := PoolTenantRows(tenants, collate);
            && (forall r | r in rows :: r.standing == Next ==> r.above == 0)
            && (forall r | r in rows :: r.place.Some? <==> r.tenant.queued > 0)
            && (forall r | r in rows && r.place.Some? ::
                  1 <= r.place.value <= |NextInLine(tenants)| && NextInLine(tenants)[r.place.value - 1] == r.tenant)
    ensures forall k | 1 <= k <= |NextInLine(tenants)| :: HasRowAt(PoolTenantRows(tenants, collate), NextInLine(tenants), k)
  {
    hide RowLeq, NextInLine, DistinctIds, PlaceIn, ActiveRows;
    var leq := RowComparator(collate);
    var rows := PoolTenantRows(tenants, collate);
    var active := ActiveRows(tenants, tenants);
    var line := NextInLine(tenants);
    RowLeqOrder(collate);
    SortSorts(active, leq);
    SameElements(rows, active);
    ActiveRowsAre(tenants, tenants);
    LineIsSorted(tenants);
    forall r | r in rows
      ensures r.standing == Next ==> r.above == 0
      ensures r.place.Some? <==> r.tenant.queued > 0
      ensures r.place.Some? ==> 1 <= r.place.value <= |line| && line[r.place.value - 1] == r.tenant
    {
      assert r in active;
      NotBothBelowAndAbove(r.tenant, tenants);
      PlaceFound(line, r.tenant, tenants);
    }
    forall k | 1 <= k <= |line| ensures HasRowAt(rows, line, k) {
      var t := line[k - 1];
      assert t in line;
      PlaceFound(line, t, tenants);
      PlaceUnique(line, k);
      assert RowOf(t, tenants) in active;
      assert RowOf(t, tenants) in rows;
    }
    forall i, j | 0 <= i < j < |rows| ensures RowLeq(rows[i], rows[j], collate) && (rows[j].standing == Next ==> rows[i].standing == Next) {
      assert leq(rows[i], rows[j]);
      RowLeqMeans(rows[i], rows[j], collate);
    }
  }

  /** Some row shows the `k`-th tenant in line at place `k`. */
  ghost predicate HasRowAt(rows: seq<Row>, line: seq<Tenant>, k: nat)
    requires 1 <= k <= |line|
  {
    exists r | r in rows :: r.place == Some(k) && r.tenant == line[k - 1]
  }

  lemma PlaceUnique(line: seq<Tenant>, k: nat)
    requires DistinctIds(line) && 1 <= k <= |line|
    ensures PlaceIn(line, line[k - 1].id) == Some(k)
  {
  }

  lemma PlaceFound(line: seq<Tenant>, t: Tenant, tenants: seq<Tenant>)
    requires DistinctIds(tenants) && t in tenants
    requires forall x :: x in line <==> x in tenants && x.queued > 0
    ensures PlaceIn(line, t.id).Some? <==> t.queued > 0
    ensures PlaceIn(line, t.id).Some? ==> line[PlaceIn(line, t.id).value - 1] == t
  {
    var p := PlaceIn(line, t.id);
    if p.Some? {
      var x := line[p.value - 1];
      assert x in line;
      SameIdSame(tenants, x, t);
    }
    if t.queued > 0 {
      assert t in line;
      var i :| 0 <= i < |line| && line[i] == t;
    }
  }

  lemma SameIdSame(tenants: seq<Tenant>, x: Tenant, y: Tenant)
    requires DistinctIds(tenants) && x in tenants && y in tenants && x.id == y.id
    ensures x == y
  {
    var i :| 0 <= i < |tenants| && tenants[i] == x;
    var j :| 0 <= j < |tenants| && tenants[j] == y;
    assert i == j;
  }

  // -------------------------------------------------------------------------
  // Weight previews
  // -------------------------------------------------------------------------

  datatype Pool = Pool(model: string, cap: nat, configuredCap: Option<nat>, tenants: seq<Tenant>)
  datatype Preview = Preview(model: string, cap: nat, from: real, to: real, peers: seq<string>)

  function AtLeastOne(n: nat): nat { if n < 1 then 1 else n }

  function Find(tenants: seq<Tenant>, id: string): (r: Option<Tenant>)
    ensures r.Some? ==> r.value in tenants && r.value.id == id
  {
    if tenants == [] then None
    else if tenants[0].id == id then Some(tenants[0])
    else
      assert tenants == [tenants[0]] + tenants[1..];
      Find(tenants[1..], id)
  }

  /** The other active tenants of a tenant's group. */
  function Peers(tenants: seq<Tenant>, me: Tenant): seq<Tenant> {
    if tenants == [] then []
    else
      var t := tenants[0];
      (if Active(t) && t.group == me.group && t.id != me.id then [t] else []) + Peers(tenants[1..], me)
  }

  function Weights(tenants: seq<Tenant>): nat { if tenants == [] then 0 else tenants[0].weight + Weights(tenants[1..]) }

  function Names(tenants: seq<Tenant>): seq<string> { if tenants == [] then [] else [tenants[0].name] + Names(tenants[1..]) }

  /** A tenant's part of its group's slots at weight `w`, beside peers weighing `peers` in all. */
  function GroupPart(w: nat, peers: nat): real { w as real / AtLeastOne(peers + w) as real }

  /** The share after a change of weight, scaled from the gateway's own figure. */
  function Rescaled(from: real, current: nat, weight: nat, peers: nat): real {
    var before := GroupPart(current, peers);
    if before > 0.0 then from * (GroupPart(weight, peers) / before) else from
  }

  function PreviewOf(pool: Pool, id: string, weight: nat): Option<Preview> {
    match Find(pool.tenants, id)
    case None => None
    case Some(me) =>
      if !Active(me) then None
      else
        var peers := Peers(pool.tenants, me);
        Some(Preview(pool.model, if pool.configuredCap.Some? then pool.configuredCap.value else pool.cap,
                     me.expected, Rescaled(me.expected, me.weight, weight, Weights(peers)), Names(peers)))
  }

  function Previews(pools: seq<Pool>, id: string, weight: nat): seq<Preview> {
    if pools == [] then []
    else
      Previews(pools[..|pools| - 1], id, weight)
      + match PreviewOf(pools[|pools| - 1], id, weight) case None => [] case Some(p) => [p]
  }

  function Moved(p: Preview): real { if p.to < p.from then p.from - p.to else p.to - p.from }

  function PreviewComparator(collate: Collation): (Preview, Preview) -> bool {
    (a: Preview, b: Preview) => !Positive(Or(Finite(Moved(b) - Moved(a)), Finite((collate(a.model) - collate(b.model)) as real)))
  }

  /** The most moved first, and pools that move as much by their model's name. */
  ghost predicate PreviewBefore(a: Preview, b: Preview, collate: Collation) {
    Moved(a) > Moved(b) || (Moved(a) == Moved(b) && collate(a.model) <= collate(b.model))
  }

  /** What a new weight would do in every pool the tenant is active in, most moved first. */
  method PreviewTenantWeight(pools: seq<Pool>, id: string, weight: nat, collate: Collation) returns (rows: seq<Preview>)
    ensures multiset(rows) == multiset(Previews(pools, id, weight))
    ensures forall i, j | 0 <= i < j < |rows| :: PreviewBefore(rows[i], rows[j], collate)
  {
    hide PreviewOf, Moved, PreviewComparator;
    var pushed := [];
    for k := 0 to |pools|
      invariant pushed == Previews(pools[..k], id, weight)
    {
      assert pools[..k + 1][..k] == pools[..k];
      var row := PreviewOf(pools[k], id, weight);
      if row.Some? { pushed := pushed + [row.value]; }
    }
    assert pools[..|pools|] == pools;
    rows := Sort(pushed, PreviewComparator(collate));
    PreviewsSorted(pushed, collate);
  }

  lemma PreviewsSorted(pushed: seq<Preview>, collate: Collation)
    ensures var rows := Sort(pushed, PreviewComparator(collate));
            multiset(rows) == multiset(pushed) && forall i, j | 0 <= i < j < |rows| :: PreviewBefore(rows[i], rows[j], collate)
  {
    var leq := PreviewComparator(collate);
    assert forall a: Preview, b: Preview :: leq(a, b) <==>
      Moved(a) > Moved(b) || (Moved(a) == Moved(b) && collate(a.model) <= collate(b.model));
    hide Moved, PreviewComparator;
    SortSorts(pushed, leq);
    var rows := Sort(pushed, leq);
    forall i, j | 0 <= i < j < |rows| ensures PreviewBefore(rows[i], rows[j], collate) {
      assert leq(rows[i], rows[j]);
    }
  }

  lemma SameWeightSameShare(from: real, current: nat, peers: nat)
    ensures Rescaled(from, current, current, peers) == from
  {
    var part := GroupPart(current, peers);
    if part > 0.0 { assert part / part == 1.0; }
  }

  lemma PartGrows(w: nat, v: nat, peers: nat)
    requires w <= v
    ensures GroupPart(w, peers) <= GroupPart(v, peers)
  {
    var a, b := AtLeastOne(peers + w) as real, AtLeastOne(peers + v) as real;
    var x, y, p := w as real, v as real, peers as real;
    if w > 0 {
      assert a == p + x && b == p + y;
      CrossParts(x, y, p);
      CrossMultiply(x, a, y, b);
    }
  }

  lemma CrossParts(x: real, y: real, p: real)
    requires 0.0 <= x <= y && p >= 0.0
    ensures x * (p + y) <= y * (p + x)
  {
    assert x * (p + y) == x * p + x * y;
    assert y * (p + x) == y * p + y * x;
    ScaleUp(x, y, p);
  }

  lemma CrossMultiply(x: real, a: real, y: real, b: real)
    requires a > 0.0 && b > 0.0 && x * b <= y * a
    ensures x / a <= y / b
  {
    var q, r := x / a, y / b;
    assert q * a == x && r * b == y;
    if q > r {
      assert q * (a * b) == x * b;
      assert r * (a * b) == y * a;
      assert a * b > 0.0;
      Stretch(r, q, a * b);
    }
  }

  lemma Stretch(r: real, q: real, d: real)
    requires r < q && d > 0.0
    ensures r * d < q * d
  {
  }

  lemma ScaleUp(x: real, y: real, s: real)
    requires x <= y && s >= 0.0
    ensures x * s <= y * s && s * x <= s * y
  {
  }

  /** A heavier weight never previews fewer slots. */
  lemma HeavierNeverLess(from: real, current: nat, w: nat, v: nat, peers: nat)
    requires w <= v && from >= 0.0
    ensures Rescaled(from, current, w, peers) <= Rescaled(from, current, v, peers)
  {
    var before := GroupPart(current, peers);
    if before > 0.0 {
      PartGrows(w, v, peers);
      var a, b := GroupPart(w, peers), GroupPart(v, peers);
      CrossMultiply(a, before, b, before) by { ScaleUp(a, b, before); }
      ScaleUp(a / before, b / before, from);
    }
  }

  /** The slots of a group split by weight. */
  function Split(slots: real, weight: nat, total: nat): real
    requires total > 0
  {
    slots * (weight as real / total as real)
  }

  /**
   * When the gateway splits a group's slots by weight, the preview is the same
   * split at the new weight, and with the peers' own new parts it gives out
   * exactly the group's slots.
   */
  lemma PreviewConserves(slots: real, current: nat, weight: nat, peers: nat)
    requires current > 0 && peers + weight > 0
    ensures var to := Rescaled(Split(slots, current, peers + current), current, weight, peers);
            to == Split(slots, weight, peers + weight) && to + Split(slots, peers, peers + weight) == slots
  {
    var part, next := GroupPart(current, peers), GroupPart(weight, peers);
    assert part > 0.0 by { Positives(current as real, (peers + current) as real); }
    Cancel(slots, part, next);
    var t := (peers + weight) as real;
    Shares2(slots, weight as real, peers as real, t);
  }

  lemma Positives(x: real, y: real)
    requires x > 0.0 && y > 0.0
    ensures x / y > 0.0
  {
  }

  lemma Cancel(slots: real, part: real, next: real)
    requires part > 0.0
    ensures slots * part * (next / part) == slots * next
  {
    var q := next / part;
    assert part * q == next;
    assert slots * part * q == slots * (part * q);
  }

  lemma Shares2(slots: real, x: real, y: real, t: real)
    requires t == x + y && t > 0.0
    ensures slots * (x / t) + slots * (y / t) == slots
  {
    assert x / t + y / t == (x + y) / t == 1.0;
    assert slots * (x / t) + slots * (y / t) == slots * (x / t + y / t);
  }

  // -------------------------------------------------------------------------
  // Groups and gateways
  // -------------------------------------------------------------------------

  datatype Group = Group(name: string, weight: nat, active: bool)

  predicate AnyActive(groups: seq<Group>) { exists g | g in groups :: g.active }

  predicate Counted(g: Group, groups: seq<Group>) { g.active || !AnyActive(groups) }

  function CountedWeight(some: seq<Group>, groups: seq<Group>): nat {
    if some == [] then 0
    else (if Counted(some[0], groups) then some[0].weight else 0) + CountedWeight(some[1..], groups)
  }

  /** A group's share of a full pool. */
  function ShareOf(g: Group, groups: seq<Group>): real {
    var total := CountedWeight(groups, groups);
    if Counted(g, groups) && total > 0 then g.weight as real / total as real else 0.0
  }

  function GroupShares(some: seq<Group>, groups: seq<Group>): seq<real> {
    if some == [] then [] else [ShareOf(some[0], groups)] + GroupShares(some[1..], groups)
  }

  function Sum(s: seq<real>): real { if s == [] then 0.0 else s[0] + Sum(s[1..]) }

  lemma {:induction false} SharesOfSome(some: seq<Group>, groups: seq<Group>)
    requires CountedWeight(groups, groups) > 0
    ensures Sum(GroupShares(some, groups)) == CountedWeight(some, groups) as real / CountedWeight(groups, groups) as real
  {
    hide Counted;
    if some == [] {
    } else {
      SharesOfSome(some[1..], groups);
      assert GroupShares(some, groups)[1..] == GroupShares(some[1..], groups);
      var first := if Counted(some[0], groups) then some[0].weight else 0;
      AddFractions(first, CountedWeight(some[1..], groups), CountedWeight(groups, groups));
    }
  }

  lemma AddFractions(a: nat, b: nat, total: nat)
    requires total > 0
    ensures a as real / total as real + b as real / total as real == (a + b) as real / total as real
  {
    AddQuotients(a as real, b as real, total as real);
    assert (a + b) as real == a as real + b as real;
  }

  lemma AddQuotients(x: real, y: real, t: real)
    requires t != 0.0
    ensures x / t + y / t == (x + y) / t
  {
    var p, q := x / t, y / t;
    assert p * t == x && q * t == y;
    Distribute(p, q, t);
    Quotient(x + y, t, p + q);
  }

  lemma Distribute(p: real, q: real, t: real)
    ensures (p + q) * t == p * t + q * t
  {
  }

  /** A quotient is what multiplies back. */
  lemma Quotient(a: real, b: real, q: real)
    requires b != 0.0 && q * b == a
    ensures a / b == q
  {
    var p := a / b;
    assert p * b == a;
    assert (p - q) * b == p * b - q * b;
  }

  /** The shares of a full pool add up to the whole pool, unless nothing counted has weight. */
  lemma GroupSharesFillPool(groups: seq<Group>)
    ensures Sum(GroupShares(groups, groups)) == if CountedWeight(groups, groups) > 0 then 1.0 else 0.0
  {
    if CountedWeight(groups, groups) > 0 {
      SharesOfSome(groups, groups);
    } else {
      NoShares(groups, groups);
    }
  }

  lemma {:induction false} NoShares(some: seq<Group>, groups: seq<Group>)
    requires CountedWeight(groups, groups) == 0
    ensures Sum(GroupShares(some, groups)) == 0.0
  {
    if some == [] {
    } else {
      NoShares(some[1..], groups);
      assert GroupShares(some, groups)[1..] == GroupShares(some[1..], groups);
    }
  }

  /** A gateway's part of a limit when it is split across replicas. */
  function ReplicaShare(configured: nat, replicas: nat): nat {
    var n := AtLeastOne(replicas);
    AtLeastOne((configured + n - 1) / n)
  }

  /** The parts cover the limit, and no smaller part would, except that a part is never zero. No replica counts as one. */
  lemma ReplicaShareIsLeast(configured: nat, replicas: nat)
    ensures var part, n := ReplicaShare(configured, replicas), AtLeastOne(replicas);
            part >= 1 && part * n >= configured && (part > 1 ==> (part - 1) * n < configured)
  {
    var n := AtLeastOne(replicas);
    var q := (configured + n - 1) / n;
    assert q * n + (configured + n - 1) % n == configured + n - 1;
    assert (q - 1) * n == q * n - n;
  }
}
