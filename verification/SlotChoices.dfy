/**
 * Which splits there are: equal remainders may be taken in any order, so a
 * split is chosen by refining the remainders to keys that break the ties.
 */
module SlotChoices {
  import opened SlotCaps
  import opened SlotLevels

  /** Keys in the order of the remainders, with some ties broken. */
  ghost predicate Refines(keys: seq<nat>, rests: seq<nat>) {
    && |keys| == |rests|
    && forall i, j | 0 <= i < |keys| && 0 <= j < |keys| && keys[i] >= keys[j] :: rests[i] >= rests[j]
  }

  /** Ties broken for `top` and against `bottom`. */
  function Keyed(rests: seq<nat>, top: nat, bottom: nat): (keys: seq<nat>)
    ensures |keys| == |rests|
  {
    seq(|rests|, k requires 0 <= k < |rests| => 3 * rests[k] + if k == top then 2 else if k == bottom then 0 else 1)
  }

  lemma KeyedRefines(rests: seq<nat>, top: nat, bottom: nat)
    ensures Refines(Keyed(rests, top, bottom), rests)
  {
  }

  lemma BeatsTop(rests: seq<nat>, top: nat, bottom: nat, k: nat)
    requires top < |rests| && k < |rests| && k != top && Keyed(rests, top, bottom)[k] >= Keyed(rests, top, bottom)[top]
    ensures rests[k] > rests[top]
  {
  }

  lemma BelowBottom(rests: seq<nat>, top: nat, bottom: nat, k: nat)
    requires bottom < |rests| && k < |rests| && k != bottom && top != bottom
    requires Keyed(rests, top, bottom)[k] <= Keyed(rests, top, bottom)[bottom]
    ensures rests[k] < rests[bottom]
  {
  }

  // -------------------------------------------------------------------------
  // There is a split for every choice
  // -------------------------------------------------------------------------

  lemma {:induction false} EveryoneTook(start: seq<nat>, caps: seq<nat>)
    requires |start| == |caps| && forall k | 0 <= k < |start| :: caps[k] == start[k] + 1
    ensures SumOf(caps) == SumOf(start) + |start|
  {
    if start == [] {
    } else {
      EveryoneTook(start[1..], caps[1..]);
    }
  }

  lemma {:induction false} BestUpTo(start: seq<nat>, keys: seq<nat>, caps: seq<nat>, n: nat) returns (i: int)
    requires |start| == |keys| == |caps| && n <= |start|
    ensures -1 <= i < n
    ensures i == -1 ==> forall k | 0 <= k < n :: caps[k] != start[k]
    ensures i >= 0 ==> caps[i] == start[i] && forall k | 0 <= k < n && caps[k] == start[k] :: keys[k] <= keys[i]
  {
    if n == 0 {
      i := -1;
    } else {
      i := BestUpTo(start, keys, caps, n - 1);
      if caps[n - 1] == start[n - 1] && (i == -1 || keys[n - 1] > keys[i]) { i := n - 1; }
    }
  }

  lemma {:induction false} SomeHandOut(start: seq<nat>, keys: seq<nat>, spares: nat) returns (caps: seq<nat>)
    requires |keys| == |start| && spares <= |start|
    ensures HandedOut(start, keys, caps) && SumOf(caps) == SumOf(start) + spares
  {
    hide SumOf;
    if spares == 0 {
      caps := start;
    } else {
      var before := SomeHandOut(start, keys, spares - 1);
      var i := BestUpTo(start, keys, before, |start|);
      if i == -1 {
        EveryoneTook(start, before);
        assert false;
      } else {
        SumUpdate(before, i, start[i] + 1);
        caps := before[i := start[i] + 1];
      }
    }
  }

  lemma {:induction false} PayerUpTo(caps: seq<nat>, keys: seq<nat>, n: nat) returns (i: int)
    requires |keys| == |caps| && n <= |caps|
    ensures -1 <= i < n
    ensures i == -1 ==> forall k | 0 <= k < n :: caps[k] <= 1
    ensures i >= 0 ==> caps[i] > 1 && forall k | 0 <= k < n && caps[k] > 1 :: PaysBefore(caps, keys, i, k)
  {
    if n == 0 {
      i := -1;
    } else {
      i := PayerUpTo(caps, keys, n - 1);
      if caps[n - 1] > 1 && (i == -1 || PaysBefore(caps, keys, n - 1, i)) { i := n - 1; }
    }
  }

  lemma {:induction false} SomePayBack(start: seq<nat>, keys: seq<nat>, due: nat) returns (caps: seq<nat>)
    requires |keys| == |start| && |start| + due <= SumOf(start)
    requires forall i | 0 <= i < |start| :: start[i] >= 1
    ensures PaidFairly(start, keys, caps) && SumOf(caps) == SumOf(start) - due
  {
    hide SumOf;
    if due == 0 {
      caps := start;
    } else {
      var before := SomePayBack(start, keys, due - 1);
      var i := PayerUpTo(before, keys, |before|);
      if i == -1 {
        SumOfOnes(before);
        assert false;
      } else {
        SumUpdate(before, i, before[i] - 1);
        caps := before[i := before[i] - 1];
      }
    }
  }

  lemma HandedByRests(start: seq<nat>, keys: seq<nat>, rests: seq<nat>, caps: seq<nat>)
    requires Refines(keys, rests) && HandedOut(start, keys, caps)
    ensures HandedOut(start, rests, caps)
  {
  }

  lemma PaidByRests(start: seq<nat>, keys: seq<nat>, rests: seq<nat>, caps: seq<nat>)
    requires Refines(keys, rests) && PaidFairly(start, keys, caps)
    ensures PaidFairly(start, rests, caps)
  {
  }

  /** For any way of breaking ties there is a split that breaks them so. */
  lemma SomeSplit(max: nat, ws: seq<int>, keys: seq<nat>) returns (caps: seq<nat>)
    requires max > 0 && ws != [] && Refines(keys, RestsOf(max, ws))
    ensures Apportioned(max, ws, caps) && |caps| == |ws|
    ensures var start := Initial(max, ws);
            if SumOf(start) > max then PaidFairly(start, keys, caps) else HandedOut(start, keys, caps)
  {
    hide SumOf, Initial, RestsOf, Refines, PaidFairly, HandedOut;
    InitialFits(max, ws);
    var start, rests := Initial(max, ws), RestsOf(max, ws);
    assert |keys| == |rests| by { RefinesLength(keys, rests); }
    if SumOf(start) > max {
      caps := SomePayBack(start, keys, SumOf(start) - max);
      PaidByRests(start, keys, rests, caps);
      FairLength(start, rests, caps);
    } else {
      caps := SomeHandOut(start, keys, max - SumOf(start));
      HandedByRests(start, keys, rests, caps);
      HandedLength(start, rests, caps);
    }
  }

  lemma RefinesLength(keys: seq<nat>, rests: seq<nat>)
    requires Refines(keys, rests)
    ensures |keys| == |rests|
  {
  }

  lemma HandedLength(start: seq<nat>, rests: seq<nat>, caps: seq<nat>)
    requires HandedOut(start, rests, caps)
    ensures |caps| == |start|
  {
  }

  // -------------------------------------------------------------------------
  // Who takes a spare slot
  // -------------------------------------------------------------------------

  function CountAbove(rests: seq<nat>, r: int): nat {
    if rests == [] then 0 else CountAbove(rests[1..], r) + if rests[0] > r then 1 else 0
  }

  function CountFrom(rests: seq<nat>, r: int): nat { CountAbove(rests, r - 1) }

  lemma {:induction false} AllAboveTake(start: seq<nat>, caps: seq<nat>, rests: seq<nat>, r: int)
    requires |start| == |caps| == |rests|
    requires forall i | 0 <= i < |start| :: start[i] <= caps[i] && (rests[i] > r ==> caps[i] > start[i])
    ensures SumOf(caps) >= SumOf(start) + CountAbove(rests, r)
  {
    if start == [] {
    } else {
      AllAboveTake(start[1..], caps[1..], rests[1..], r);
    }
  }

  lemma {:induction false} OnlyAboveTake(start: seq<nat>, caps: seq<nat>, rests: seq<nat>, r: int)
    requires |start| == |caps| == |rests|
    requires forall i | 0 <= i < |start| :: caps[i] <= start[i] + 1 && (caps[i] > start[i] ==> rests[i] > r)
    ensures SumOf(caps) <= SumOf(start) + CountAbove(rests, r)
  {
    if start == [] {
    } else {
      OnlyAboveTake(start[1..], caps[1..], rests[1..], r);
    }
  }

  lemma TakerOver(start: seq<nat>, keys: seq<nat>, caps: seq<nat>, i: nat, j: nat)
    requires HandedOut(start, keys, caps) && i < |start| && j < |start| && caps[i] > start[i] && caps[j] == start[j]
    ensures keys[i] >= keys[j]
  {
  }

  lemma OneOrNone(start: seq<nat>, keys: seq<nat>, caps: seq<nat>)
    requires HandedOut(start, keys, caps)
    ensures |caps| == |start| == |keys| && forall i | 0 <= i < |caps| :: start[i] <= caps[i] <= start[i] + 1
  {
  }

  /** Who is put first among its ties takes a slot when those above it are fewer than the slots. */
  lemma TopTakes(start: seq<nat>, rests: seq<nat>, caps: seq<nat>, top: nat, bottom: nat)
    requires HandedOut(start, Keyed(rests, top, bottom), caps) && top < |start| == |rests|
    requires SumOf(caps) > SumOf(start) + CountAbove(rests, rests[top])
    ensures |caps| == |start| && caps[top] == start[top] + 1
  {
    hide SumOf, CountAbove, HandedOut, Keyed;
    var keys := Keyed(rests, top, bottom);
    OneOrNone(start, keys, caps);
    if caps[top] == start[top] {
      forall k | 0 <= k < |start| && caps[k] > start[k] ensures rests[k] > rests[top] {
        TakerOver(start, keys, caps, k, top);
        BeatsTop(rests, top, bottom, k);
      }
      OnlyAboveTake(start, caps, rests, rests[top]);
    }
  }

  /** Who is put last among its ties takes none when those from it up are more than the slots. */
  lemma BottomMisses(start: seq<nat>, rests: seq<nat>, caps: seq<nat>, top: nat, bottom: nat)
    requires HandedOut(start, Keyed(rests, top, bottom), caps) && bottom < |start| == |rests| && top != bottom
    requires SumOf(caps) < SumOf(start) + CountFrom(rests, rests[bottom])
    ensures |caps| == |start| && caps[bottom] == start[bottom]
  {
    hide SumOf, CountAbove, HandedOut, Keyed;
    var keys := Keyed(rests, top, bottom);
    OneOrNone(start, keys, caps);
    if caps[bottom] > start[bottom] {
      var r: int := rests[bottom];
      forall k | 0 <= k < |start| && rests[k] > r - 1 ensures caps[k] > start[k] {
        if caps[k] == start[k] {
          TakerOver(start, keys, caps, bottom, k);
          BelowBottom(rests, top, bottom, k);
        }
      }
      AllAboveTake(start, caps, rests, r - 1);
    }
  }

  /** Keys that put some items last among their ties. */
  function Delayed(rests: seq<nat>, late: seq<bool>): (keys: seq<nat>)
    requires |late| == |rests|
    ensures |keys| == |rests|
  {
    seq(|rests|, k requires 0 <= k < |rests| => 2 * rests[k] + if late[k] then 0 else 1)
  }

  lemma DelayedRefines(rests: seq<nat>, late: seq<bool>)
    requires |late| == |rests|
    ensures Refines(Delayed(rests, late), rests)
  {
  }

  /** How many of the others have a remainder from `r` up. */
  function CountEarly(rests: seq<nat>, late: seq<bool>, r: nat): nat
    requires |late| == |rests|
  {
    if rests == [] then 0
    else CountEarly(rests[1..], late[1..], r) + if !late[0] && rests[0] >= r then 1 else 0
  }

  lemma {:induction false} AllEarlyTake(start: seq<nat>, caps: seq<nat>, rests: seq<nat>, late: seq<bool>, r: nat)
    requires |start| == |caps| == |rests| == |late|
    requires forall i | 0 <= i < |start| :: start[i] <= caps[i] && (!late[i] && rests[i] >= r ==> caps[i] > start[i])
    ensures SumOf(caps) >= SumOf(start) + CountEarly(rests, late, r)
  {
    if start == [] {
    } else {
      AllEarlyTake(start[1..], caps[1..], rests[1..], late[1..], r);
    }
  }

  lemma {:induction false} OnlyEarlyTake(start: seq<nat>, caps: seq<nat>, rests: seq<nat>, late: seq<bool>, r: nat)
    requires |start| == |caps| == |rests| == |late|
    requires forall i | 0 <= i < |start| :: caps[i] <= start[i] + 1 && (caps[i] > start[i] ==> !late[i] && rests[i] >= r)
    ensures SumOf(caps) <= SumOf(start) + CountEarly(rests, late, r)
  {
    if start == [] {
    } else {
      OnlyEarlyTake(start[1..], caps[1..], rests[1..], late[1..], r);
    }
  }

  lemma LateUnder(rests: seq<nat>, late: seq<bool>, i: nat, k: nat)
    requires |late| == |rests| && i < |rests| && k < |rests| && late[i] && !late[k]
    requires Delayed(rests, late)[i] >= Delayed(rests, late)[k]
    ensures rests[i] > rests[k]
  {
  }

  /** Put last among its ties, one takes no slot while the others from it up are enough for all. */
  lemma LateMisses(start: seq<nat>, rests: seq<nat>, late: seq<bool>, caps: seq<nat>, i: nat)
    requires |late| == |rests| == |start| && i < |start| && late[i]
    requires HandedOut(start, Delayed(rests, late), caps)
    requires SumOf(caps) <= SumOf(start) + CountEarly(rests, late, rests[i])
    ensures |caps| == |start| && caps[i] == start[i]
  {
    hide SumOf, CountEarly, HandedOut, Delayed;
    var keys := Delayed(rests, late);
    OneOrNone(start, keys, caps);
    if caps[i] > start[i] {
      var others := caps[i := start[i]];
      SumUpdate(caps, i, start[i]);
      forall k | 0 <= k < |start| && !late[k] && rests[k] >= rests[i] ensures others[k] > start[k] {
        if caps[k] == start[k] {
          TakerOver(start, keys, caps, i, k);
          LateUnder(rests, late, i, k);
        }
      }
      AllEarlyTake(start, others, rests, late, rests[i]);
    }
  }

  // -------------------------------------------------------------------------
  // Without equal remainders there is no choice
  // -------------------------------------------------------------------------

  ghost predicate NoTies(rests: seq<nat>) { forall i, j | 0 <= i < j < |rests| :: rests[i] != rests[j] }

  lemma {:induction false} NotThere(rests: seq<nat>, r: nat)
    requires r !in rests
    ensures CountFrom(rests, r) == CountAbove(rests, r)
  {
    if rests == [] {
    } else {
      assert rests[0] in rests;
      NotThere(rests[1..], r);
    }
  }

  lemma {:induction false} OnceThere(rests: seq<nat>, i: nat)
    requires NoTies(rests) && i < |rests|
    ensures CountFrom(rests, rests[i]) == CountAbove(rests, rests[i]) + 1
  {
    var rest := rests[1..];
    forall a, b | 0 <= a < b < |rest| ensures rest[a] != rest[b] { assert rest[a] == rests[a + 1] && rest[b] == rests[b + 1]; }
    if i == 0 {
      NotThere(rest, rests[0]);
    } else {
      OnceThere(rest, i - 1);
    }
  }

  lemma {:induction false} NoneAtLevel(start: seq<nat>, rests: seq<nat>, l: nat, r: nat)
    requires |start| == |rests| && r !in rests
    ensures CountBelow(start, rests, l, r + 1) == CountBelow(start, rests, l, r)
  {
    if start == [] {
    } else {
      assert rests[0] in rests;
      NoneAtLevel(start[1..], rests[1..], l, r);
    }
  }

  lemma {:induction false} OnceAtLevel(start: seq<nat>, rests: seq<nat>, l: nat, i: nat)
    requires |start| == |rests| && NoTies(rests) && i < |rests| && start[i] >= l
    ensures CountBelow(start, rests, l, rests[i] + 1) == CountBelow(start, rests, l, rests[i]) + 1
  {
    var rest := rests[1..];
    forall a, b | 0 <= a < b < |rest| ensures rest[a] != rest[b] { assert rest[a] == rests[a + 1] && rest[b] == rests[b + 1]; }
    if i == 0 {
      NoneAtLevel(start[1..], rest, l, rests[0]);
    } else {
      OnceAtLevel(start[1..], rest, l, i - 1);
    }
  }

  // -------------------------------------------------------------------------
  // Who pays last
  // -------------------------------------------------------------------------

  lemma PayerUnder(start: seq<nat>, keys: seq<nat>, caps: seq<nat>, l: nat, i: nat, j: nat)
    requires PaidFairly(start, keys, caps) && Levelled(start, caps, l) && i < |start| && j < |start|
    requires start[i] >= l && caps[i] == l - 1 && caps[j] == l
    ensures |keys| == |start| && keys[i] <= keys[j]
  {
  }

  lemma BottomPays(start: seq<nat>, rests: seq<nat>, caps: seq<nat>, l: nat, top: nat, bottom: nat)
    requires PaidFairly(start, Keyed(rests, top, bottom), caps) && Levelled(start, caps, l) && |rests| == |start|
    requires bottom < |start| && top != bottom && start[bottom] >= l
    requires SumOf(caps) + CountBelow(start, rests, l, rests[bottom]) < SumOf(CutTo(start, l))
    ensures caps[bottom] == l - 1
  {
    hide SumOf, CountBelow, CutTo, PaidFairly, Keyed;
    var keys := Keyed(rests, top, bottom);
    if caps[bottom] == l {
      forall k | 0 <= k < |start| && caps[k] < Least(start[k], l) ensures start[k] >= l && rests[k] < rests[bottom] {
        PayerUnder(start, keys, caps, l, k, bottom);
        BelowBottom(rests, top, bottom, k);
      }
      OnlyBelowPay(start, rests, caps, l, rests[bottom]);
    }
  }

  lemma TopStays(start: seq<nat>, rests: seq<nat>, caps: seq<nat>, l: nat, top: nat, bottom: nat)
    requires PaidFairly(start, Keyed(rests, top, bottom), caps) && Levelled(start, caps, l) && |rests| == |start|
    requires top < |start| && start[top] >= l
    requires SumOf(caps) + CountBelow(start, rests, l, rests[top] + 1) > SumOf(CutTo(start, l))
    ensures caps[top] == l
  {
    hide SumOf, CountBelow, CutTo, PaidFairly, Keyed;
    var keys := Keyed(rests, top, bottom);
    if caps[top] == l - 1 {
      forall k | 0 <= k < |start| && start[k] >= l && rests[k] < rests[top] + 1 ensures caps[k] < l {
        if caps[k] == l {
          PayerUnder(start, keys, caps, l, top, k);
          BeatsTop(rests, top, bottom, k);
        }
      }
      AllBelowPay(start, rests, caps, l, rests[top] + 1);
    }
  }
}
