/**
 * Where paying back ends: everyone is cut down to one common level, and of
 * those who reach it the smallest remainders pay one slot more.
 */
module SlotLevels {
  import opened SlotCaps

  function Least(a: nat, b: nat): nat { if a < b then a else b }

  /** Everyone cut down to a level. */
  function CutTo(start: seq<nat>, level: nat): (r: seq<nat>)
    ensures |r| == |start|
    ensures forall i | 0 <= i < |start| :: r[i] == Least(start[i], level)
  {
    seq(|start|, i requires 0 <= i < |start| => Least(start[i], level))
  }

  /** The lowest level up to `top` that still uses `max` slots. */
  function LevelUpTo(max: nat, start: seq<nat>, top: nat): nat {
    if top == 0 || SumOf(CutTo(start, top - 1)) < max then top else LevelUpTo(max, start, top - 1)
  }

  function Level(max: nat, start: seq<nat>): nat { LevelUpTo(max, start, max) }

  /** How many slots that level still uses too many. */
  function Due(max: nat, start: seq<nat>): nat {
    var used := SumOf(CutTo(start, Level(max, start)));
    if used > max then used - max else 0
  }

  lemma {:induction false} LevelUses(max: nat, start: seq<nat>, top: nat)
    requires max > 0 && SumOf(CutTo(start, top)) >= max
    ensures var l := LevelUpTo(max, start, top);
            l > 0 && SumOf(CutTo(start, l)) >= max && SumOf(CutTo(start, l - 1)) < max
  {
    hide SumOf, CutTo;
    if top == 0 {
      NothingUsed(start);
    } else if SumOf(CutTo(start, top - 1)) >= max {
      LevelUses(max, start, top - 1);
    }
  }

  lemma NothingUsed(start: seq<nat>)
    ensures SumOf(CutTo(start, 0)) == 0
  {
    SumBetween(CutTo(start, 0), seq(|start|, i => 0));
    SumOfZeros(|start|);
  }

  lemma {:induction false} SumOfZeros(n: nat)
    ensures SumOf(seq(n, i => 0)) == 0
  {
    if n == 0 {
    } else {
      SumOfZeros(n - 1);
      assert seq(n, i => 0)[1..] == seq(n - 1, i => 0);
    }
  }

  lemma {:induction false} PartOfSum(s: seq<nat>, i: nat)
    requires i < |s|
    ensures s[i] <= SumOf(s)
  {
    if i == 0 {
    } else {
      PartOfSum(s[1..], i - 1);
    }
  }

  /** The level is well defined: `max` itself is high enough. */
  lemma LevelIs(max: nat, start: seq<nat>)
    requires 0 < max <= SumOf(start)
    ensures var l := Level(max, start);
            l > 0 && SumOf(CutTo(start, l)) >= max && SumOf(CutTo(start, l - 1)) < max
  {
    hide SumOf;
    var cut := CutTo(start, max);
    if i :| 0 <= i < |start| && start[i] >= max {
      PartOfSum(cut, i);
    } else {
      assert cut == start;
    }
    LevelUses(max, start, max);
  }

  lemma AboveUsesMore(start: seq<nat>, rests: seq<nat>, caps: seq<nat>, l: nat, k: nat)
    requires PaidFairly(start, rests, caps) && k < |caps| && caps[k] > l
    ensures SumOf(caps) > SumOf(CutTo(start, l))
  {
    hide SumOf;
    var cut := CutTo(start, l);
    SumBetween(cut, caps);
    assert cut[k] != caps[k];
  }

  lemma BelowUsesLess(start: seq<nat>, rests: seq<nat>, caps: seq<nat>, l: nat, k: nat)
    requires PaidFairly(start, rests, caps) && k < |caps| && caps[k] < Least(start[k], l)
    ensures SumOf(caps) <= SumOf(CutTo(start, l))
  {
    hide SumOf;
    SumBetween(caps, CutTo(start, l));
  }

  /** Everyone is cut down to the level, or ends one below it. */
  ghost predicate Levelled(start: seq<nat>, caps: seq<nat>, l: nat) {
    && l > 0 && |caps| == |start|
    && forall k | 0 <= k < |caps| :: if start[k] < l then caps[k] == start[k] else l - 1 <= caps[k] <= l
  }

  /** Paying back cuts everyone down to the level; some of those who reach it end one below. */
  lemma PaidToLevel(max: nat, start: seq<nat>, rests: seq<nat>, caps: seq<nat>)
    requires PaidFairly(start, rests, caps) && 0 < max == SumOf(caps) <= SumOf(start)
    ensures Levelled(start, caps, Level(max, start))
  {
    hide SumOf, Level, CutTo;
    LevelIs(max, start);
    var l := Level(max, start);
    forall k | 0 <= k < |caps| ensures if start[k] < l then caps[k] == start[k] else l - 1 <= caps[k] <= l {
      if caps[k] > l { AboveUsesMore(start, rests, caps, l, k); }
      if caps[k] < Least(start[k], l - 1) { BelowUsesLess(start, rests, caps, l - 1, k); }
    }
  }

  /** Reaches the level and ends one below it. */
  ghost predicate PaysLast(max: nat, start: seq<nat>, caps: seq<nat>, i: nat)
    requires |caps| == |start| && i < |start|
  {
    start[i] >= Level(max, start) && caps[i] < Level(max, start)
  }

  /** Of those who reach the level, how many remainders are below `r`. */
  function CountBelow(start: seq<nat>, rests: seq<nat>, level: nat, r: nat): nat
    requires |start| == |rests|
  {
    if start == [] then 0
    else CountBelow(start[1..], rests[1..], level, r) + if start[0] >= level && rests[0] < r then 1 else 0
  }

  lemma {:induction false} AllBelowPay(start: seq<nat>, rests: seq<nat>, caps: seq<nat>, level: nat, r: nat)
    requires |start| == |rests| == |caps| && level > 0
    requires forall k | 0 <= k < |caps| ::
               caps[k] <= Least(start[k], level) && (start[k] >= level && rests[k] < r ==> caps[k] < level)
    ensures SumOf(caps) + CountBelow(start, rests, level, r) <= SumOf(CutTo(start, level))
  {
    if start == [] {
    } else {
      AllBelowPay(start[1..], rests[1..], caps[1..], level, r);
      assert CutTo(start, level)[1..] == CutTo(start[1..], level);
    }
  }

  lemma {:induction false} OnlyBelowPay(start: seq<nat>, rests: seq<nat>, caps: seq<nat>, level: nat, r: nat)
    requires |start| == |rests| == |caps| && level > 0
    requires forall k | 0 <= k < |caps| ::
               && caps[k] + 1 >= Least(start[k], level)
               && (caps[k] < Least(start[k], level) ==> start[k] >= level && rests[k] < r)
    ensures SumOf(caps) + CountBelow(start, rests, level, r) >= SumOf(CutTo(start, level))
  {
    if start == [] {
    } else {
      OnlyBelowPay(start[1..], rests[1..], caps[1..], level, r);
      assert CutTo(start, level)[1..] == CutTo(start[1..], level);
    }
  }

  lemma LastOnlyIfFew(start: seq<nat>, rests: seq<nat>, caps: seq<nat>, l: nat, i: nat)
    requires PaidFairly(start, rests, caps) && Levelled(start, caps, l)
    requires i < |start| && start[i] >= l && caps[i] < l
    ensures SumOf(caps) + CountBelow(start, rests, l, rests[i]) < SumOf(CutTo(start, l))
  {
    hide SumOf, CountBelow, CutTo;
    var others := caps[i := l];
    SumUpdate(caps, i, l);
    AllBelowPay(start, rests, others, l, rests[i]);
  }

  lemma LastOwesNoMore(start: seq<nat>, rests: seq<nat>, caps: seq<nat>, l: nat, i: nat, k: nat)
    requires PaidFairly(start, rests, caps) && Levelled(start, caps, l)
    requires i < |start| && start[i] >= l && caps[i] >= l
    requires k < |start| && caps[k] < Least(start[k], l)
    ensures start[k] >= l && rests[k] < rests[i] + 1
  {
  }

  lemma FewAreLast(start: seq<nat>, rests: seq<nat>, caps: seq<nat>, l: nat, i: nat)
    requires PaidFairly(start, rests, caps) && Levelled(start, caps, l)
    requires i < |start| && start[i] >= l && caps[i] >= l
    ensures |rests| == |start|
    ensures SumOf(caps) + CountBelow(start, rests, l, rests[i] + 1) > SumOf(CutTo(start, l))
  {
    hide SumOf, CountBelow, CutTo, PaidFairly;
    LengthsAgree(start, rests, caps);
    var more := caps[i := l - 1];
    SumUpdate(caps, i, l - 1);
    forall k | 0 <= k < |more|
      ensures more[k] + 1 >= Least(start[k], l)
      ensures more[k] < Least(start[k], l) ==> start[k] >= l && rests[k] < rests[i] + 1
    {
      if k != i && caps[k] < Least(start[k], l) { LastOwesNoMore(start, rests, caps, l, i, k); }
    }
    OnlyBelowPay(start, rests, more, l, rests[i] + 1);
  }

  lemma LengthsAgree(start: seq<nat>, rests: seq<nat>, caps: seq<nat>)
    requires PaidFairly(start, rests, caps)
    ensures |start| == |rests| == |caps|
  {
  }

  /**
   * Of those who reach the level the smallest remainders pay last: one is
   * among them for certain when the remainders up to its own are no more than
   * what is due, and only if those below it are fewer.
   */
  lemma LastByRemainder(max: nat, start: seq<nat>, rests: seq<nat>, caps: seq<nat>, i: nat)
    requires PaidFairly(start, rests, caps) && 0 < max == SumOf(caps) <= SumOf(start) && i < |start|
    ensures |caps| == |start| == |rests|
    ensures var l := Level(max, start);
            && (PaysLast(max, start, caps, i) ==> CountBelow(start, rests, l, rests[i]) < Due(max, start))
            && (start[i] >= l && CountBelow(start, rests, l, rests[i] + 1) <= Due(max, start) ==> PaysLast(max, start, caps, i))
  {
    hide SumOf, Level, CutTo, CountBelow;
    PaidToLevel(max, start, rests, caps);
    LevelIs(max, start);
    var l := Level(max, start);
    if PaysLast(max, start, caps, i) {
      LastOnlyIfFew(start, rests, caps, l, i);
    } else if start[i] >= l {
      FewAreLast(start, rests, caps, l, i);
    }
  }
}
