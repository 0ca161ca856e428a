/**
 * Whole slots split by weight: largest-remainder apportionment with at least
 * one slot for everyone while there are enough. Quotas are exact fractions
 * over the total weight, so an item's quota is its floor and a remainder.
 */
module SlotCaps {
  import opened Sorting

  /** Weights below 1 count as 1. */
  function Clamped(w: int): nat
    ensures Clamped(w) >= 1
  {
    if w < 1 then 1 else w
  }

  function TotalWeight(ws: seq<int>): nat { if ws == [] then 0 else TotalWeight(ws[1..]) + Clamped(ws[0]) }

  function SumOf(s: seq<nat>): nat { if s == [] then 0 else SumOf(s[1..]) + s[0] }

  function Floor(max: nat, w: int, total: nat): nat
    requires total > 0
  {
    max * Clamped(w) / total
  }

  function Remainder(max: nat, w: int, total: nat): nat
    requires total > 0
  {
    max * Clamped(w) % total
  }

  lemma {:induction false} TotalIsPositive(ws: seq<int>)
    ensures TotalWeight(ws) >= |ws|
  {
    if ws == [] {
    } else {
      TotalIsPositive(ws[1..]);
    }
  }

  function Floors(max: nat, ws: seq<int>, total: nat): (s: seq<nat>)
    requires total > 0
    ensures |s| == |ws|
  {
    seq(|ws|, i requires 0 <= i < |ws| => Floor(max, ws[i], total))
  }

  function Remainders(max: nat, ws: seq<int>, total: nat): (s: seq<nat>)
    requires total > 0
    ensures |s| == |ws|
  {
    seq(|ws|, i requires 0 <= i < |ws| => Remainder(max, ws[i], total))
  }

  lemma Divides(a: nat, b: nat)
    requires b > 0
    ensures a / b * b + a % b == a && a % b < b && a / b >= 0
  {
  }

  /** Quotas add up to the slots. */
  lemma {:induction false} QuotasAddUp(max: nat, ws: seq<int>, total: nat)
    requires total > 0
    ensures SumOf(Floors(max, ws, total)) * total + SumOf(Remainders(max, ws, total)) == max * TotalWeight(ws)
    ensures ws != [] ==> SumOf(Remainders(max, ws, total)) < |ws| * total
  {
    if ws != [] {
      var rest := ws[1..];
      var f, r := Floors(max, rest, total), Remainders(max, rest, total);
      assert Floors(max, ws, total)[1..] == f && Remainders(max, ws, total)[1..] == r;
      QuotasAddUp(max, rest, total);
      var w := Clamped(ws[0]);
      Divides(max * w, total);
      Spread(SumOf(f), max * w / total, total);
      Spread(TotalWeight(rest), w, max);
      Spread(|rest|, 1, total);
      if rest == [] { assert r == []; }
    } else {
      assert Floors(max, ws, total) == [] && Remainders(max, ws, total) == [];
    }
  }

  lemma Spread(a: int, b: int, c: int)
    ensures (a + b) * c == a * c + b * c && c * (a + b) == c * a + c * b
  {
  }

  lemma Cancel(x: int, n: int, t: int)
    requires t > 0 && 0 <= x * t < n * t
    ensures 0 <= x < n
  {
    assert x < 0 ==> x * t < 0;
    assert x >= n ==> x * t >= n * t;
  }

  /** The floors never use more than there is, and leave less than one each. */
  lemma FloorsLeaveLittle(max: nat, ws: seq<int>)
    requires ws != []
    ensures TotalWeight(ws) > 0
    ensures var left := max - SumOf(Floors(max, ws, TotalWeight(ws))); 0 <= left < |ws|
  {
    hide Floors, Remainders, SumOf;
    TotalIsPositive(ws);
    var t := TotalWeight(ws);
    QuotasAddUp(max, ws, t);
    var used := SumOf(Floors(max, ws, t));
    Spread(max - used, used, t);
    Cancel(max - used, |ws|, t);
  }

  // -------------------------------------------------------------------------
  // At least one each
  // -------------------------------------------------------------------------

  function AtLeastOne(s: seq<nat>): (r: seq<nat>)
    ensures |r| == |s|
  {
    seq(|s|, i requires 0 <= i < |s| => if s[i] == 0 then 1 else s[i])
  }

  /** The caps before the difference to `max` is settled. */
  function Initial(max: nat, ws: seq<int>): (s: seq<nat>)
    requires ws != []
    ensures |s| == |ws|
  {
    TotalIsPositive(ws);
    var floors := Floors(max, ws, TotalWeight(ws));
    if max >= |ws| then AtLeastOne(floors) else floors
  }

  function RestsOf(max: nat, ws: seq<int>): (s: seq<nat>)
    requires ws != []
    ensures |s| == |ws|
  {
    TotalIsPositive(ws);
    Remainders(max, ws, TotalWeight(ws))
  }

  lemma {:induction false} SumUpdate(s: seq<nat>, i: nat, v: nat)
    requires i < |s|
    ensures SumOf(s[i := v]) == SumOf(s) - s[i] + v
  {
    if i == 0 {
      assert s[0 := v][1..] == s[1..];
    } else {
      assert s[i := v][1..] == s[1..][i - 1 := v];
      SumUpdate(s[1..], i - 1, v);
    }
  }

  lemma {:induction false} SumBetween(a: seq<nat>, b: seq<nat>)
    requires |a| == |b| && forall i | 0 <= i < |a| :: a[i] <= b[i]
    ensures SumOf(a) <= SumOf(b)
    ensures SumOf(a) == SumOf(b) ==> a == b
  {
    if a == [] {
    } else {
      SumBetween(a[1..], b[1..]);
      assert a == [a[0]] + a[1..] && b == [b[0]] + b[1..];
    }
  }

  lemma {:induction false} SumOfOnes(s: seq<nat>)
    requires forall i | 0 <= i < |s| :: s[i] <= 1
    ensures SumOf(s) <= |s|
  {
    if s == [] {
    } else {
      SumOfOnes(s[1..]);
    }
  }

  // -------------------------------------------------------------------------
  // Too many: pay back, the largest first
  // -------------------------------------------------------------------------

  /** The larger cap pays; between equals, the smaller remainder. */
  predicate PaysBefore(caps: seq<nat>, rests: seq<nat>, i: nat, j: nat)
    requires i < |caps| && j < |caps| && |rests| == |caps|
  {
    caps[i] > caps[j] || (caps[i] == caps[j] && rests[i] <= rests[j])
  }

  /** Who pays next: the last of those no one pays before; nobody while no cap is above one. */
  method Payer(caps: seq<nat>, rests: seq<nat>) returns (i: int)
    requires |rests| == |caps|
    ensures -1 <= i < |caps|
    ensures i == -1 <==> forall j | 0 <= j < |caps| :: caps[j] <= 1
    ensures i >= 0 ==> caps[i] > 1 && forall j | 0 <= j < |caps| && caps[j] > 1 :: PaysBefore(caps, rests, i, j)
  {
    i := -1;
    for k := 0 to |caps|
      invariant -1 <= i < k
      invariant i == -1 <==> forall j | 0 <= j < k :: caps[j] <= 1
      invariant i >= 0 ==> caps[i] > 1 && forall j | 0 <= j < k && caps[j] > 1 :: PaysBefore(caps, rests, i, j)
    {
      if caps[k] > 1 && (i == -1 || PaysBefore(caps, rests, k, i)) {
        i := k;
      }
    }
  }

  /**
   * Those who paid were the largest: nobody is left more than one above them,
   * and one above only with at least as large a remainder.
   */
  ghost predicate PaidFairly(start: seq<nat>, rests: seq<nat>, caps: seq<nat>) {
    && |caps| == |start| == |rests|
    && (forall i | 0 <= i < |caps| :: 1 <= caps[i] <= start[i])
    && forall i, j | 0 <= i < |caps| && 0 <= j < |caps| && caps[i] < start[i] ::
         caps[j] <= caps[i] || (caps[j] == caps[i] + 1 && rests[i] <= rests[j])
  }

  method PayBack(max: nat, start: seq<nat>, rests: seq<nat>) returns (caps: seq<nat>)
    requires |rests| == |start| && max >= |start| && SumOf(start) >= max
    requires forall i | 0 <= i < |start| :: start[i] >= 1
    ensures PaidFairly(start, rests, caps) && SumOf(caps) == max
  {
    caps := start;
    var used := SumOf(start);
    while used > max
      invariant PaidFairly(start, rests, caps) && used == SumOf(caps) >= max
    {
      var i := Payer(caps, rests);
      if i == -1 {
        SumOfOnes(caps);
        break;
      }
      SumUpdate(caps, i, caps[i] - 1);
      caps := caps[i := caps[i] - 1];
      used := used - 1;
    }
  }

  // -------------------------------------------------------------------------
  // Too few: hand out, the largest remainder first
  // -------------------------------------------------------------------------

  datatype Slot = Slot(i: nat, rest: nat)

  predicate LargerRest(a: Slot, b: Slot) { a.rest >= b.rest }

  function Slots(rests: seq<nat>): seq<Slot> { seq(|rests|, i requires 0 <= i < |rests| => Slot(i, rests[i])) }

  /**
   * Everyone takes one slot or none, and nobody with a smaller remainder than
   * someone left out; which of two equal remainders takes one is left open.
   */
  ghost predicate HandedOut(start: seq<nat>, rests: seq<nat>, caps: seq<nat>) {
    && |caps| == |start| == |rests|
    && (forall i | 0 <= i < |caps| :: start[i] <= caps[i] <= start[i] + 1)
    && forall i, j | 0 <= i < |caps| && 0 <= j < |caps| && caps[i] > start[i] && caps[j] == start[j] :: rests[i] >= rests[j]
  }

  lemma OrderIsIndices(rests: seq<nat>)
    ensures var order := Sort(Slots(rests), LargerRest);
            && |order| == |rests| && Sorted(order, LargerRest)
            && (forall j | 0 <= j < |order| :: order[j].i < |rests| && order[j].rest == rests[order[j].i])
            && (forall i | 0 <= i < |rests| :: Slot(i, rests[i]) in order)
            && (forall j, k | 0 <= j < k < |order| :: order[j].i != order[k].i)
  {
    var slots := Slots(rests);
    var order := Sort(slots, LargerRest);
    SortSorts(slots, LargerRest);
    SameElements(order, slots);
    PermutationDistinct(slots, order);
    forall j | 0 <= j < |order| ensures order[j].i < |rests| && order[j].rest == rests[order[j].i] {
      assert order[j] in slots;
    }
    forall i | 0 <= i < |rests| ensures Slot(i, rests[i]) in order {
      assert slots[i] in slots;
    }
  }

  /** Item `i` is among the first `k` of an order. */
  ghost predicate Given(order: seq<Slot>, k: nat, i: nat) { exists p | 0 <= p < k && p < |order| :: order[p].i == i }

  /** The caps when the first `k` of the order have taken a slot. */
  ghost predicate HandedTo(start: seq<nat>, order: seq<Slot>, k: nat, caps: seq<nat>) {
    |caps| == |start| && forall i | 0 <= i < |caps| :: caps[i] == if Given(order, k, i) then start[i] + 1 else start[i]
  }

  method HandOut(start: seq<nat>, rests: seq<nat>, remaining: nat) returns (caps: seq<nat>)
    requires |rests| == |start| && remaining <= |start|
    ensures HandedOut(start, rests, caps) && SumOf(caps) == SumOf(start) + remaining
  {
    hide Sort, SumOf, Slots, Sorted, HandedTo, HandedOut;
    var order := Sort(Slots(rests), LargerRest);
    OrderIsIndices(rests);
    caps := start;
    var left := remaining;
    NobodyYet(start, order);
    for j := 0 to |order|
      invariant 0 <= left <= remaining && (left == remaining - j || (left == 0 && j > remaining))
      invariant HandedTo(start, order, remaining - left, caps)
      invariant SumOf(caps) == SumOf(start) + (remaining - left)
    {
      if left == 0 { break; }
      var i := order[j].i;
      OneMoreTaker(start, rests, order, j, caps);
      SumUpdate(caps, i, caps[i] + 1);
      caps := caps[i := caps[i] + 1];
      left := left - 1;
    }
    HandedInOrder(start, rests, remaining, caps);
  }

  lemma NobodyYet(start: seq<nat>, order: seq<Slot>)
    ensures HandedTo(start, order, 0, start)
  {
  }

  lemma OneMoreTaker(start: seq<nat>, rests: seq<nat>, order: seq<Slot>, k: nat, caps: seq<nat>)
    requires |rests| == |start| && k < |start| && order == Sort(Slots(rests), LargerRest)
    requires HandedTo(start, order, k, caps)
    ensures k < |order| && order[k].i < |caps| && HandedTo(start, order, k + 1, caps[order[k].i := caps[order[k].i] + 1])
  {
    hide Sort, Slots, Sorted;
    OrderIsIndices(rests);
    forall i | 0 <= i < |caps| ensures Given(order, k + 1, i) <==> Given(order, k, i) || i == order[k].i {
      if i == order[k].i { assert order[k].i == i; }
    }
    assert !Given(order, k, order[k].i);
  }

  /** Handing out in the order of the remainders leaves nobody with a larger one out. */
  lemma HandedInOrder(start: seq<nat>, rests: seq<nat>, k: nat, caps: seq<nat>)
    requires |rests| == |start| && HandedTo(start, Sort(Slots(rests), LargerRest), k, caps)
    ensures HandedOut(start, rests, caps)
  {
    hide Sort, Slots, Sorted;
    var order := Sort(Slots(rests), LargerRest);
    OrderIsIndices(rests);
    forall i, j | 0 <= i < |caps| && 0 <= j < |caps| && caps[i] > start[i] && caps[j] == start[j] ensures rests[i] >= rests[j] {
      var p :| 0 <= p < k && p < |order| && order[p].i == i;
      var q :| 0 <= q < |order| && order[q] == Slot(j, rests[j]);
      assert q >= k;
      RestsFall(order, p);
    }
  }

  lemma RestsFall(order: seq<Slot>, j: nat)
    requires Sorted(order, LargerRest) && j < |order|
    ensures forall i | j <= i < |order| :: order[i].rest <= order[j].rest
  {
    forall i | j <= i < |order| ensures order[i].rest <= order[j].rest {
      assert i > j ==> LargerRest(order[j], order[i]);
    }
  }

  // -------------------------------------------------------------------------
  // The split
  // -------------------------------------------------------------------------

  /** What the split ends with. */
  ghost predicate Apportioned(max: nat, ws: seq<int>, caps: seq<nat>)
    requires ws != []
  {
    var start, rests := Initial(max, ws), RestsOf(max, ws);
    var used := SumOf(start);
    && SumOf(caps) == max
    && if used > max then PaidFairly(start, rests, caps) else HandedOut(start, rests, caps)
  }

  /** The initial caps ask for too much only with everyone at one or more, and otherwise leave less than one each. */
  lemma InitialFits(max: nat, ws: seq<int>)
    requires ws != []
    ensures var start := Initial(max, ws);
            && (SumOf(start) <= max ==> max - SumOf(start) < |ws|)
            && (max >= |ws| ==> forall i | 0 <= i < |ws| :: start[i] >= 1)
            && (SumOf(start) > max ==> max >= |ws|)
  {
    hide Floors;
    FloorsLeaveLittle(max, ws);
    var floors := Floors(max, ws, TotalWeight(ws));
    SumBetween(floors, Initial(max, ws));
  }

  /** Split `max` slots over the weights, item by item. */
  method Split(max: nat, ws: seq<int>) returns (caps: seq<nat>)
    ensures max == 0 || ws == [] ==> caps == []
    ensures max > 0 && ws != [] ==> |caps| == |ws| && Apportioned(max, ws, caps)
  {
    hide SumOf, PaidFairly;
    if max == 0 || ws == [] { return []; }
    InitialFits(max, ws);
    var start, rests := Initial(max, ws), RestsOf(max, ws);
    var used := SumOf(start);
    if used > max {
      caps := PayBack(max, start, rests);
      FairLength(start, rests, caps);
    } else if used < max {
      caps := HandOut(start, rests, max - used);
    } else {
      caps := start;
    }
  }

  lemma FairLength(start: seq<nat>, rests: seq<nat>, caps: seq<nat>)
    requires PaidFairly(start, rests, caps)
    ensures |caps| == |start|
  {
  }
}
