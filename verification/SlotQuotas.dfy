/** What the split of slots by weight promises: everyone served, and how near to the quotas. */
module SlotQuotas {
  import opened Sorting
  import opened SlotCaps
  import opened SlotLevels
  import opened SlotChoices

  /** Every slot is given out, and everyone has one while there are enough. */
  lemma NobodyStarves(max: nat, ws: seq<int>, caps: seq<nat>)
    requires max > 0 && ws != [] && Apportioned(max, ws, caps)
    ensures SumOf(caps) == max && |caps| == |ws|
    ensures max >= |ws| ==> forall i | 0 <= i < |caps| :: caps[i] >= 1
  {
    hide SumOf, Initial, RestsOf;
    InitialFits(max, ws);
  }

  /** How many whole slots an item's quota holds. */
  function QuotaFloor(max: nat, ws: seq<int>, i: nat): nat
    requires i < |ws|
  {
    TotalIsPositive(ws);
    Floor(max, ws[i], TotalWeight(ws))
  }

  /** Whether raising the empty floors to one asks for more than there is. */
  ghost predicate Overdrawn(max: nat, ws: seq<int>)
    requires ws != []
  {
    SumOf(Initial(max, ws)) > max
  }

  /** Nobody gets less than the whole part of their quota, exactly when the raises are not overdrawn. */
  lemma LowerQuota(max: nat, ws: seq<int>, caps: seq<nat>)
    requires max > 0 && ws != [] && Apportioned(max, ws, caps)
    ensures |caps| == |ws|
    ensures (forall i | 0 <= i < |ws| :: caps[i] >= QuotaFloor(max, ws, i)) <==> !Overdrawn(max, ws)
  {
    hide SumOf, Floor, RestsOf;
    InitialFits(max, ws);
    var start := Initial(max, ws);
    if Overdrawn(max, ws) && forall i | 0 <= i < |ws| :: caps[i] >= QuotaFloor(max, ws, i) {
      SumBetween(start, caps);
    }
  }

  /** An item that takes a spare slot. */
  ghost predicate TakesSpare(max: nat, ws: seq<int>, caps: seq<nat>, i: nat)
    requires ws != [] && |caps| == |ws| && i < |ws|
  {
    caps[i] > Initial(max, ws)[i]
  }

  /** A quota rounded up. */
  function QuotaCeiling(max: nat, ws: seq<int>, i: nat): nat
    requires i < |ws|
  {
    QuotaFloor(max, ws, i) + if RestsOf(max, ws)[i] > 0 then 1 else 0
  }

  /** When only those who took a slot have a remainder, the remainders are few. */
  lemma {:induction false} FewRemainders(start: seq<nat>, caps: seq<nat>, rests: seq<nat>, most: nat)
    requires |start| == |caps| == |rests|
    requires forall i | 0 <= i < |start| :: start[i] <= caps[i] <= start[i] + 1 && rests[i] <= most
    requires forall i | 0 <= i < |start| && caps[i] == start[i] :: rests[i] == 0
    ensures SumOf(caps) >= SumOf(start) && SumOf(rests) <= (SumOf(caps) - SumOf(start)) * most
  {
    if start == [] {
    } else {
      FewRemainders(start[1..], caps[1..], rests[1..], most);
      var k, one := SumOf(caps[1..]) - SumOf(start[1..]), caps[0] - start[0];
      OneMoreRemainder(SumOf(rests[1..]), k, rests[0], one, most);
      assert SumOf(caps) - SumOf(start) == k + one;
    }
  }

  lemma OneMoreRemainder(sum: int, k: int, rest: int, one: int, most: int)
    requires sum <= k * most && 0 <= one <= 1 && 0 <= rest <= most && (one == 0 ==> rest == 0)
    ensures sum + rest <= (k + one) * most
  {
    if one == 1 { Spread(k, 1, most); }
  }

  /** A spare slot never goes to a whole quota: there are enough remainders for all the spare slots. */
  lemma TakersHaveRemainders(max: nat, ws: seq<int>, caps: seq<nat>, i: nat)
    requires max > 0 && ws != [] && Apportioned(max, ws, caps) && !Overdrawn(max, ws)
    requires i < |ws| == |caps| && TakesSpare(max, ws, caps, i)
    ensures RestsOf(max, ws)[i] > 0
  {
    hide Floors, SumOf, TotalWeight, Remainders, Initial;
    TotalIsPositive(ws);
    var t, start, rests := TotalWeight(ws), Initial(max, ws), RestsOf(max, ws);
    if rests[i] == 0 {
      RestsSum(max, ws);
      SparesFit(max, ws);
      FewRemainders(start, caps, rests, t - 1);
      SumBetween(start, caps);
      Shrinks(SumOf(caps) - SumOf(start), max - SumOf(Floors(max, ws, t)), t, SumOf(rests));
    }
  }

  /** Fewer than `m` remainders of less than `t` each cannot make up `m` wholes. */
  lemma Shrinks(k: int, m: int, t: int, sum: int)
    requires 0 <= k <= m && t > 0 && sum <= k * (t - 1) && sum == m * t
    ensures k == 0
  {
    assert k * (t - 1) == k * t - k;
    assert (m - k) * t == m * t - k * t;
    assert (m - k) * t >= 0;
  }

  lemma RestsSum(max: nat, ws: seq<int>)
    requires ws != []
    ensures TotalWeight(ws) > 0
    ensures SumOf(RestsOf(max, ws)) == (max - SumOf(Floors(max, ws, TotalWeight(ws)))) * TotalWeight(ws)
    ensures forall i | 0 <= i < |ws| :: RestsOf(max, ws)[i] <= TotalWeight(ws) - 1
  {
    hide Floors, SumOf, TotalWeight;
    TotalIsPositive(ws);
    var t := TotalWeight(ws);
    QuotasAddUp(max, ws, t);
    Spread(max - SumOf(Floors(max, ws, t)), SumOf(Floors(max, ws, t)), t);
  }

  /** An item raised to one has a remainder. */
  lemma RaisedHaveRemainders(max: nat, ws: seq<int>, i: nat)
    requires max > 0 && i < |ws| && QuotaFloor(max, ws, i) == 0
    ensures RestsOf(max, ws)[i] > 0
  {
    hide TotalWeight;
    TotalIsPositive(ws);
    var a, t := max * Clamped(ws[i]), TotalWeight(ws);
    Divides(a, t);
    assert a > 0;
  }

  /** Nobody gets more than their quota rounded up. */
  ghost predicate WithinUpper(max: nat, ws: seq<int>, caps: seq<nat>) {
    |caps| == |ws| && forall i | 0 <= i < |ws| :: caps[i] <= QuotaCeiling(max, ws, i)
  }

  /** An item without a whole slot in its quota, raised to one. */
  predicate IsRaised(max: nat, ws: seq<int>, i: nat)
    requires i < |ws|
  {
    max >= |ws| && QuotaFloor(max, ws, i) == 0
  }

  /** In one split: exactly when no item that was raised to one also takes a spare slot. */
  lemma WithinUpperWhen(max: nat, ws: seq<int>, caps: seq<nat>)
    requires max > 0 && ws != [] && Apportioned(max, ws, caps)
    ensures |caps| == |ws|
    ensures WithinUpper(max, ws, caps) <==> forall i | 0 <= i < |ws| && TakesSpare(max, ws, caps, i) :: !IsRaised(max, ws, i)
  {
    hide SumOf, Floor, RestsOf, QuotaFloor, Initial;
    InitialFits(max, ws);
    forall i | 0 <= i < |ws|
      ensures caps[i] <= QuotaCeiling(max, ws, i) <==> !TakesSpare(max, ws, caps, i) || max < |ws| || QuotaFloor(max, ws, i) > 0
    {
      InitialIs(max, ws, i);
      if QuotaFloor(max, ws, i) == 0 { RaisedHaveRemainders(max, ws, i); }
      if TakesSpare(max, ws, caps, i) { TakersHaveRemainders(max, ws, caps, i); }
    }
  }

  // -------------------------------------------------------------------------
  // Who takes a spare slot
  // -------------------------------------------------------------------------

  /** How many spare slots there are. */
  function Spares(max: nat, ws: seq<int>): nat
    requires ws != []
  {
    if SumOf(Initial(max, ws)) < max then max - SumOf(Initial(max, ws)) else 0
  }

  /**
   * An item takes a spare slot for certain when the remainders from its own
   * up are no more than the slots, and only if those above it are fewer.
   */
  lemma SpareByRemainder(max: nat, ws: seq<int>, caps: seq<nat>, i: nat)
    requires max > 0 && ws != [] && Apportioned(max, ws, caps) && i < |ws|
    ensures |caps| == |ws|
    ensures var rests := RestsOf(max, ws);
            && (TakesSpare(max, ws, caps, i) ==> CountAbove(rests, rests[i]) < Spares(max, ws))
            && (CountFrom(rests, rests[i]) <= Spares(max, ws) && !Overdrawn(max, ws) ==> TakesSpare(max, ws, caps, i))
  {
    hide SumOf, RestsOf, Initial;
    InitialFits(max, ws);
    var start, rests := Initial(max, ws), RestsOf(max, ws);
    if TakesSpare(max, ws, caps, i) {
      var others := caps[i := start[i]];
      SumUpdate(caps, i, start[i]);
      AllAboveTake(start, others, rests, rests[i]);
    } else if !Overdrawn(max, ws) {
      var more := caps[i := start[i] + 1];
      SumUpdate(caps, i, start[i] + 1);
      var r: int := rests[i];
      OnlyAboveTake(start, more, rests, r - 1);
    }
  }

  /** Some split gives an item a spare slot, every split does: by its remainder alone. */
  lemma SpareGoesTo(max: nat, ws: seq<int>, i: nat)
    requires max > 0 && i < |ws|
    ensures var rests := RestsOf(max, ws);
            && ((exists caps :: Apportioned(max, ws, caps) && Takes(max, ws, caps, i)) <==> CountAbove(rests, rests[i]) < Spares(max, ws))
            && ((forall caps | Apportioned(max, ws, caps) :: Takes(max, ws, caps, i)) <==> CountFrom(rests, rests[i]) <= Spares(max, ws))
  {
    hide SumOf, RestsOf, Initial, CountAbove, HandedOut, Keyed, Refines, Apportioned;
    var start, rests := Initial(max, ws), RestsOf(max, ws);
    forall caps | Apportioned(max, ws, caps)
      ensures Takes(max, ws, caps, i) ==> CountAbove(rests, rests[i]) < Spares(max, ws)
      ensures CountFrom(rests, rests[i]) <= Spares(max, ws) ==> Takes(max, ws, caps, i)
    {
      SpareByRemainder(max, ws, caps, i);
      SomeFrom(rests, i);
    }
    if CountAbove(rests, rests[i]) < Spares(max, ws) {
      KeyedRefines(rests, i, |ws|);
      var caps := SomeSplit(max, ws, Keyed(rests, i, |ws|));
      CapsLength(max, ws, caps);
      TopTakes(start, rests, caps, i, |ws|);
    }
    if CountFrom(rests, rests[i]) > Spares(max, ws) {
      KeyedRefines(rests, |ws|, i);
      var caps := SomeSplit(max, ws, Keyed(rests, |ws|, i));
      CapsLength(max, ws, caps);
      if Overdrawn(max, ws) {
        SpareByRemainder(max, ws, caps, i);
      } else {
        BottomMisses(start, rests, caps, |ws|, i);
      }
    }
  }

  ghost predicate Takes(max: nat, ws: seq<int>, caps: seq<nat>, i: nat)
    requires i < |ws|
  {
    |caps| == |ws| && TakesSpare(max, ws, caps, i)
  }

  lemma {:induction false} SomeFrom(rests: seq<nat>, i: nat)
    requires i < |rests|
    ensures CountFrom(rests, rests[i]) > 0
  {
    if i == 0 {
    } else {
      SomeFrom(rests[1..], i - 1);
    }
  }

  lemma InitialIs(max: nat, ws: seq<int>, i: nat)
    requires i < |ws|
    ensures Initial(max, ws)[i] == if max >= |ws| && QuotaFloor(max, ws, i) == 0 then 1 else QuotaFloor(max, ws, i)
  {
  }

  lemma SparesFit(max: nat, ws: seq<int>)
    requires ws != []
    ensures TotalWeight(ws) > 0 && max - SumOf(Initial(max, ws)) <= max - SumOf(Floors(max, ws, TotalWeight(ws)))
  {
    hide Floors;
    TotalIsPositive(ws);
    SumBetween(Floors(max, ws, TotalWeight(ws)), Initial(max, ws));
  }

  /** Everyone's cap is stated. */
  lemma CapsLength(max: nat, ws: seq<int>, caps: seq<nat>)
    requires max > 0 && ws != [] && Apportioned(max, ws, caps)
    ensures |caps| == |ws| && SumOf(caps) == max
  {
    hide SumOf, Initial, RestsOf;
  }

  /** In one split, the raises not overdrawn: the lighter was raised and takes a spare slot, the heavier has one and takes none. */
  ghost predicate TurnsRound(max: nat, ws: seq<int>, caps: seq<nat>, i: nat, j: nat)
    requires ws != [] && |caps| == |ws| && i < |ws| && j < |ws|
  {
    && IsRaised(max, ws, j) && QuotaFloor(max, ws, i) == 1
    && TakesSpare(max, ws, caps, j) && !TakesSpare(max, ws, caps, i)
  }

  /** In one split, slots paid back: both reach the level, the heavier pays last and the lighter does not. */
  ghost predicate PaysAlone(max: nat, ws: seq<int>, caps: seq<nat>, i: nat, j: nat)
    requires ws != [] && |caps| == |ws| && i < |ws| && j < |ws|
  {
    var start := Initial(max, ws);
    PaysLast(max, start, caps, i) && start[j] >= Level(max, start) && !PaysLast(max, start, caps, j)
  }

  lemma AheadWhen(max: nat, ws: seq<int>, caps: seq<nat>, i: nat, j: nat)
    requires max > 0 && ws != [] && Apportioned(max, ws, caps)
    requires i < |ws| && j < |ws| && Clamped(ws[i]) > Clamped(ws[j])
    ensures |caps| == |ws| && caps[j] <= caps[i] + 1
    ensures !Overdrawn(max, ws) ==> (caps[j] > caps[i] <==> TurnsRound(max, ws, caps, i, j))
    ensures Overdrawn(max, ws) ==> (caps[j] > caps[i] <==> PaysAlone(max, ws, caps, i, j))
    ensures Overdrawn(max, ws) && caps[j] > caps[i] ==>
              caps[i] < QuotaFloor(max, ws, i) && RestsOf(max, ws)[i] <= RestsOf(max, ws)[j]
  {
    hide SumOf, TotalWeight, Floor, RestsOf, QuotaFloor, Initial, Level;
    InitialFits(max, ws);
    InitialIs(max, ws, i);
    InitialIs(max, ws, j);
    FloorsFollowWeights(max, ws, i, j);
    if Overdrawn(max, ws) { PaidToLevel(max, Initial(max, ws), RestsOf(max, ws), caps); }
  }

  /** Where nothing is raised a heavier item never gets less. */
  lemma HeavierNeverLess(max: nat, ws: seq<int>, caps: seq<nat>, i: nat, j: nat)
    requires max > 0 && ws != [] && Apportioned(max, ws, caps)
    requires i < |ws| && j < |ws| && Clamped(ws[i]) > Clamped(ws[j])
    requires max < |ws| || forall k | 0 <= k < |ws| :: QuotaFloor(max, ws, k) > 0
    ensures |caps| == |ws| && caps[i] >= caps[j]
  {
    hide Apportioned, Overdrawn, QuotaFloor;
    AheadWhen(max, ws, caps, i, j);
    NotOverdrawn(max, ws);
  }

  lemma NotOverdrawn(max: nat, ws: seq<int>)
    requires ws != [] && (max < |ws| || forall k | 0 <= k < |ws| :: QuotaFloor(max, ws, k) > 0)
    ensures !Overdrawn(max, ws)
  {
    hide Floor, SumOf;
    TotalIsPositive(ws);
    FloorsLeaveLittle(max, ws);
    var floors := Floors(max, ws, TotalWeight(ws));
    assert forall k | 0 <= k < |ws| :: floors[k] == QuotaFloor(max, ws, k);
    assert Initial(max, ws) == floors;
  }

  lemma FloorsFollowWeights(max: nat, ws: seq<int>, i: nat, j: nat)
    requires max > 0 && i < |ws| && j < |ws| && Clamped(ws[i]) > Clamped(ws[j])
    ensures QuotaFloor(max, ws, i) >= QuotaFloor(max, ws, j)
    ensures QuotaFloor(max, ws, i) == QuotaFloor(max, ws, j) ==> RestsOf(max, ws)[i] > RestsOf(max, ws)[j]
  {
    hide TotalWeight, Clamped;
    TotalIsPositive(ws);
    var t := TotalWeight(ws);
    var a, b := max * Clamped(ws[i]), max * Clamped(ws[j]);
    assert a > b;
    Divides(a, t);
    Divides(b, t);
    QuotientsFollow(a / t, a % t, b / t, b % t, t);
  }

  lemma QuotientsFollow(p: int, r: int, q: int, s: int, t: int)
    requires t > 0 && 0 <= r < t && 0 <= s < t && p * t + r > q * t + s
    ensures p >= q && (p == q ==> r > s)
  {
    assert p < q ==> (p + 1) * t <= q * t;
    assert (p + 1) * t == p * t + t;
  }

  /**
   * So of weights 9, 13 and 18 sharing four slots, the lightest gets two and
   * the others one each.
   */
  lemma LightestGetsMost(caps: seq<nat>)
    requires Apportioned(4, [9, 13, 18], caps)
    ensures caps == [2, 1, 1]
  {
    var ws := [9, 13, 18];
    assert ws[1..] == [13, 18] && ws[1..][1..] == [18] && ws[1..][1..][1..] == [];
    assert TotalWeight(ws) == 40;
    assert Floors(4, ws, 40) == [0, 1, 1];
    assert Initial(4, ws) == [1, 1, 1];
    assert RestsOf(4, ws) == [36, 12, 32];
    SumOfThree([1, 1, 1]);
    SumOfThree(caps);
    assert caps == [caps[0], caps[1], caps[2]];
  }

  lemma SumOfThree(s: seq<nat>)
    requires |s| == 3
    ensures SumOf(s) == s[0] + s[1] + s[2]
  {
    assert s[1..] == [s[1], s[2]] && [s[1], s[2]][1..] == [s[2]] && [s[2]][1..] == [];
    assert SumOf([s[2]]) == s[2];
    assert SumOf([s[1], s[2]]) == s[1] + s[2];
  }

  // -------------------------------------------------------------------------
  // When a lighter item is ahead, by the weights alone
  // -------------------------------------------------------------------------

  ghost predicate Ahead(caps: seq<nat>, j: nat, i: nat) { i < |caps| && j < |caps| && caps[j] > caps[i] }

  /** How many who reach the level have a remainder below `r`. */
  ghost function LevelBelow(max: nat, ws: seq<int>, r: nat): nat
    requires ws != []
  {
    var start := Initial(max, ws);
    CountBelow(start, RestsOf(max, ws), Level(max, start), r)
  }

  ghost predicate ReachesLevel(max: nat, ws: seq<int>, j: nat)
    requires j < |ws|
  {
    Initial(max, ws)[j] >= Level(max, Initial(max, ws))
  }

  /** The lighter of the two may end ahead, depending on how equal remainders are taken. */
  ghost predicate MayTurn(max: nat, ws: seq<int>, i: nat, j: nat)
    requires i < |ws| && j < |ws|
  {
    var rests := RestsOf(max, ws);
    if Overdrawn(max, ws) then
      ReachesLevel(max, ws, j)
      && LevelBelow(max, ws, rests[i]) < Due(max, Initial(max, ws)) < LevelBelow(max, ws, rests[j] + 1)
    else
      IsRaised(max, ws, j) && QuotaFloor(max, ws, i) == 1
      && CountAbove(rests, rests[j]) < Spares(max, ws) < CountFrom(rests, rests[i])
  }

  /** The lighter of the two ends ahead, however equal remainders are taken. */
  ghost predicate MustTurn(max: nat, ws: seq<int>, i: nat, j: nat)
    requires i < |ws| && j < |ws|
  {
    var rests := RestsOf(max, ws);
    if Overdrawn(max, ws) then
      ReachesLevel(max, ws, j)
      && LevelBelow(max, ws, rests[i] + 1) <= Due(max, Initial(max, ws)) <= LevelBelow(max, ws, rests[j])
    else
      IsRaised(max, ws, j) && QuotaFloor(max, ws, i) == 1
      && CountFrom(rests, rests[j]) <= Spares(max, ws) <= CountAbove(rests, rests[i])
  }

  lemma AheadOnlyIf(max: nat, ws: seq<int>, caps: seq<nat>, i: nat, j: nat)
    requires max > 0 && i < |ws| && j < |ws| && Clamped(ws[i]) > Clamped(ws[j]) && Apportioned(max, ws, caps)
    ensures Ahead(caps, j, i) ==> MayTurn(max, ws, i, j)
    ensures MustTurn(max, ws, i, j) ==> Ahead(caps, j, i)
  {
    hide SumOf, RestsOf, Initial, QuotaFloor, Level, CountAbove, CountBelow, Due, Clamped;
    AheadWhen(max, ws, caps, i, j);
    CapsLength(max, ws, caps);
    if Overdrawn(max, ws) {
      LastByRemainder(max, Initial(max, ws), RestsOf(max, ws), caps, i);
      LastByRemainder(max, Initial(max, ws), RestsOf(max, ws), caps, j);
    } else {
      SpareByRemainder(max, ws, caps, i);
      SpareByRemainder(max, ws, caps, j);
    }
  }

  lemma DueIs(max: nat, ws: seq<int>)
    requires max > 0 && ws != [] && Overdrawn(max, ws)
    ensures var start := Initial(max, ws);
            Due(max, start) == SumOf(CutTo(start, Level(max, start))) - max
  {
    hide SumOf, Initial, Level;
    LevelIs(max, Initial(max, ws));
  }

  lemma HeavierStartsHigher(max: nat, ws: seq<int>, i: nat, j: nat)
    requires max > 0 && i < |ws| && j < |ws| && Clamped(ws[i]) > Clamped(ws[j])
    ensures Initial(max, ws)[i] >= Initial(max, ws)[j]
  {
    hide Initial, QuotaFloor, Clamped;
    InitialIs(max, ws, i);
    InitialIs(max, ws, j);
    FloorsFollowWeights(max, ws, i, j);
  }

  lemma SomeAheadPaid(max: nat, ws: seq<int>, i: nat, j: nat) returns (caps: seq<nat>)
    requires max > 0 && i < |ws| && j < |ws| && Clamped(ws[i]) > Clamped(ws[j]) && Overdrawn(max, ws) && MayTurn(max, ws, i, j)
    ensures Apportioned(max, ws, caps) && Ahead(caps, j, i)
  {
    hide SumOf, RestsOf, Initial, Level, CountBelow, PaidFairly, Keyed, Refines, CutTo, Clamped, Due, Levelled;
    var start, rests := Initial(max, ws), RestsOf(max, ws);
    var l := Level(max, start);
    KeyedRefines(rests, j, i);
    caps := SomeSplit(max, ws, Keyed(rests, j, i));
    CapsLength(max, ws, caps);
    DueIs(max, ws);
    HeavierStartsHigher(max, ws, i, j);
    PaidToLevel(max, start, Keyed(rests, j, i), caps);
    BottomPays(start, rests, caps, l, j, i);
    TopStays(start, rests, caps, l, j, i);
    LevelPositive(start, caps, l);
  }

  lemma LevelPositive(start: seq<nat>, caps: seq<nat>, l: nat)
    requires Levelled(start, caps, l)
    ensures l > 0
  {
  }

  lemma SomeAheadSpare(max: nat, ws: seq<int>, i: nat, j: nat) returns (caps: seq<nat>)
    requires max > 0 && i < |ws| && j < |ws| && Clamped(ws[i]) > Clamped(ws[j]) && !Overdrawn(max, ws) && MayTurn(max, ws, i, j)
    ensures Apportioned(max, ws, caps) && Ahead(caps, j, i)
  {
    hide SumOf, RestsOf, Initial, CountAbove, CountFrom, HandedOut, Keyed, Refines, Clamped, QuotaFloor;
    var start, rests := Initial(max, ws), RestsOf(max, ws);
    KeyedRefines(rests, j, i);
    caps := SomeSplit(max, ws, Keyed(rests, j, i));
    CapsLength(max, ws, caps);
    InitialIs(max, ws, i);
    InitialIs(max, ws, j);
    TopTakes(start, rests, caps, j, i);
    BottomMisses(start, rests, caps, j, i);
  }

  lemma SomeBehindPaid(max: nat, ws: seq<int>, i: nat, j: nat) returns (caps: seq<nat>)
    requires max > 0 && i < |ws| && j < |ws| && Clamped(ws[i]) > Clamped(ws[j]) && Overdrawn(max, ws) && !MustTurn(max, ws, i, j)
    ensures Apportioned(max, ws, caps) && !Ahead(caps, j, i)
  {
    hide SumOf, RestsOf, Initial, Level, CountBelow, PaidFairly, Keyed, Refines, CutTo, Clamped, Due, Levelled;
    var start, rests := Initial(max, ws), RestsOf(max, ws);
    var l := Level(max, start);
    KeyedRefines(rests, i, j);
    caps := SomeSplit(max, ws, Keyed(rests, i, j));
    CapsLength(max, ws, caps);
    AheadWhen(max, ws, caps, i, j);
    DueIs(max, ws);
    HeavierStartsHigher(max, ws, i, j);
    PaidToLevel(max, start, Keyed(rests, i, j), caps);
    LevelPositive(start, caps, l);
    if !ReachesLevel(max, ws, j) {
    } else if LevelBelow(max, ws, rests[i] + 1) > Due(max, start) {
      TopStays(start, rests, caps, l, i, j);
    } else {
      BottomPays(start, rests, caps, l, i, j);
    }
  }

  lemma SomeBehindSpare(max: nat, ws: seq<int>, i: nat, j: nat) returns (caps: seq<nat>)
    requires max > 0 && i < |ws| && j < |ws| && Clamped(ws[i]) > Clamped(ws[j]) && !Overdrawn(max, ws) && !MustTurn(max, ws, i, j)
    ensures Apportioned(max, ws, caps) && !Ahead(caps, j, i)
  {
    hide SumOf, RestsOf, Initial, CountAbove, CountFrom, HandedOut, Keyed, Refines, Clamped, QuotaFloor;
    var start, rests := Initial(max, ws), RestsOf(max, ws);
    KeyedRefines(rests, i, j);
    caps := SomeSplit(max, ws, Keyed(rests, i, j));
    CapsLength(max, ws, caps);
    AheadWhen(max, ws, caps, i, j);
    if !(IsRaised(max, ws, j) && QuotaFloor(max, ws, i) == 1) {
    } else if Spares(max, ws) < CountFrom(rests, rests[j]) {
      BottomMisses(start, rests, caps, i, j);
    } else {
      TopTakes(start, rests, caps, i, j);
    }
  }

  /**
   * A lighter item ends ahead of a heavier one by one slot at most. Some split
   * puts it ahead exactly when it may turn, every split exactly when it must:
   * conditions on the slots and the weights.
   */
  lemma HeavierAndLighter(max: nat, ws: seq<int>, i: nat, j: nat)
    requires max > 0 && i < |ws| && j < |ws| && Clamped(ws[i]) > Clamped(ws[j])
    ensures forall caps | Apportioned(max, ws, caps) :: |caps| == |ws| && caps[j] <= caps[i] + 1
    ensures (exists caps :: Apportioned(max, ws, caps) && Ahead(caps, j, i)) <==> MayTurn(max, ws, i, j)
    ensures (forall caps | Apportioned(max, ws, caps) :: Ahead(caps, j, i)) <==> MustTurn(max, ws, i, j)
  {
    hide Apportioned, Ahead, MayTurn, MustTurn, Overdrawn, Clamped;
    forall caps | Apportioned(max, ws, caps)
      ensures |caps| == |ws| && caps[j] <= caps[i] + 1
      ensures Ahead(caps, j, i) ==> MayTurn(max, ws, i, j)
      ensures MustTurn(max, ws, i, j) ==> Ahead(caps, j, i)
    {
      AheadWhen(max, ws, caps, i, j);
      AheadOnlyIf(max, ws, caps, i, j);
    }
    if MayTurn(max, ws, i, j) {
      if Overdrawn(max, ws) {
        var caps := SomeAheadPaid(max, ws, i, j);
      } else {
        var caps := SomeAheadSpare(max, ws, i, j);
      }
    }
    if !MustTurn(max, ws, i, j) {
      if Overdrawn(max, ws) {
        var caps := SomeBehindPaid(max, ws, i, j);
      } else {
        var caps := SomeBehindSpare(max, ws, i, j);
      }
    }
  }

  /** Without equal remainders the two conditions are one. */
  lemma NoTiesDecide(max: nat, ws: seq<int>, i: nat, j: nat)
    requires max > 0 && i < |ws| && j < |ws| && Clamped(ws[i]) > Clamped(ws[j]) && NoTies(RestsOf(max, ws))
    ensures MayTurn(max, ws, i, j) <==> MustTurn(max, ws, i, j)
  {
    hide SumOf, RestsOf, Initial, Level, CountBelow, CountAbove, CountFrom, Clamped, Due, NoTies, QuotaFloor;
    var start, rests := Initial(max, ws), RestsOf(max, ws);
    OnceThere(rests, i);
    OnceThere(rests, j);
    HeavierStartsHigher(max, ws, i, j);
    if ReachesLevel(max, ws, j) {
      OnceAtLevel(start, rests, Level(max, start), i);
      OnceAtLevel(start, rests, Level(max, start), j);
    }
  }

  // -------------------------------------------------------------------------
  // When the upper quota is kept, by the weights alone
  // -------------------------------------------------------------------------

  function Raised(max: nat, ws: seq<int>): (late: seq<bool>)
    ensures |late| == |ws|
  {
    seq(|ws|, i requires 0 <= i < |ws| => IsRaised(max, ws, i))
  }

  /** No raised item can take a spare slot: as many remainders are above its own. */
  ghost predicate MustKeepUpper(max: nat, ws: seq<int>)
    requires ws != []
  {
    var rests := RestsOf(max, ws);
    forall i | 0 <= i < |ws| && IsRaised(max, ws, i) :: Spares(max, ws) <= CountAbove(rests, rests[i])
  }

  /** No raised item has to: items that were not raised have as many remainders from its own up. */
  ghost predicate MayKeepUpper(max: nat, ws: seq<int>)
    requires ws != []
  {
    var rests := RestsOf(max, ws);
    forall i | 0 <= i < |ws| && IsRaised(max, ws, i) :: Spares(max, ws) <= CountEarly(rests, Raised(max, ws), rests[i])
  }

  lemma KeptOnlyIf(max: nat, ws: seq<int>, caps: seq<nat>)
    requires max > 0 && ws != [] && Apportioned(max, ws, caps)
    ensures WithinUpper(max, ws, caps) ==> MayKeepUpper(max, ws)
    ensures MustKeepUpper(max, ws) ==> WithinUpper(max, ws, caps)
  {
    hide SumOf, RestsOf, Initial, QuotaFloor, CountAbove, CountEarly, WithinUpper, IsRaised;
    WithinUpperWhen(max, ws, caps);
    var start, rests := Initial(max, ws), RestsOf(max, ws);
    forall i | 0 <= i < |ws| && IsRaised(max, ws, i)
      ensures WithinUpper(max, ws, caps) ==> Spares(max, ws) <= CountEarly(rests, Raised(max, ws), rests[i])
    {
      if WithinUpper(max, ws, caps) && !Overdrawn(max, ws) {
        assert !TakesSpare(max, ws, caps, i);
        OnlyEarlyTake(start, caps, rests, Raised(max, ws), rests[i]);
      }
    }
    if MustKeepUpper(max, ws) {
      forall i | 0 <= i < |ws| && TakesSpare(max, ws, caps, i) ensures !IsRaised(max, ws, i) {
        SpareByRemainder(max, ws, caps, i);
      }
    }
  }

  lemma SomeBreaksUpper(max: nat, ws: seq<int>) returns (caps: seq<nat>)
    requires max > 0 && ws != [] && !MustKeepUpper(max, ws)
    ensures Apportioned(max, ws, caps) && !WithinUpper(max, ws, caps)
  {
    hide SumOf, RestsOf, Initial, QuotaFloor, CountAbove, WithinUpper, IsRaised, Keyed, Refines, HandedOut;
    var start, rests := Initial(max, ws), RestsOf(max, ws);
    var i :| 0 <= i < |ws| && IsRaised(max, ws, i) && Spares(max, ws) > CountAbove(rests, rests[i]);
    KeyedRefines(rests, i, |ws|);
    caps := SomeSplit(max, ws, Keyed(rests, i, |ws|));
    CapsLength(max, ws, caps);
    WithinUpperWhen(max, ws, caps);
    TopTakes(start, rests, caps, i, |ws|);
    assert TakesSpare(max, ws, caps, i);
  }

  lemma SomeKeepsUpper(max: nat, ws: seq<int>) returns (caps: seq<nat>)
    requires max > 0 && ws != [] && MayKeepUpper(max, ws)
    ensures Apportioned(max, ws, caps) && WithinUpper(max, ws, caps)
  {
    hide SumOf, RestsOf, Initial, QuotaFloor, CountEarly, WithinUpper, IsRaised, Delayed, Refines, HandedOut, PaidFairly;
    var start, rests, late := Initial(max, ws), RestsOf(max, ws), Raised(max, ws);
    DelayedRefines(rests, late);
    caps := SomeSplit(max, ws, Delayed(rests, late));
    CapsLength(max, ws, caps);
    WithinUpperWhen(max, ws, caps);
    forall i | 0 <= i < |ws| && TakesSpare(max, ws, caps, i) ensures !IsRaised(max, ws, i) {
      if Overdrawn(max, ws) {
        SpareByRemainder(max, ws, caps, i);
      } else if IsRaised(max, ws, i) {
        LateMisses(start, rests, late, caps, i);
      }
    }
  }

  /**
   * Every split keeps everyone within their quota rounded up exactly when the
   * spare slots are used up above each raised item, and some split does
   * exactly when the items that were not raised suffice for them.
   */
  lemma UpperQuota(max: nat, ws: seq<int>)
    requires max > 0 && ws != []
    ensures (forall caps | Apportioned(max, ws, caps) :: WithinUpper(max, ws, caps)) <==> MustKeepUpper(max, ws)
    ensures (exists caps :: Apportioned(max, ws, caps) && WithinUpper(max, ws, caps)) <==> MayKeepUpper(max, ws)
  {
    hide Apportioned, WithinUpper, MustKeepUpper, MayKeepUpper;
    forall caps | Apportioned(max, ws, caps)
      ensures WithinUpper(max, ws, caps) ==> MayKeepUpper(max, ws)
      ensures MustKeepUpper(max, ws) ==> WithinUpper(max, ws, caps)
    {
      KeptOnlyIf(max, ws, caps);
    }
    if !MustKeepUpper(max, ws) {
      var caps := SomeBreaksUpper(max, ws);
    }
    if MayKeepUpper(max, ws) {
      var caps := SomeKeepsUpper(max, ws);
    }
  }

  /** An item's quota: `max` times its weight, a weight below 1 counting as 1, is its whole slots and its remainder of the total weight. */
  lemma QuotaIs(max: nat, ws: seq<int>, i: nat)
    requires i < |ws|
    ensures var w := if ws[i] < 1 then 1 else ws[i];
            max * w == QuotaFloor(max, ws, i) * TotalWeight(ws) + RestsOf(max, ws)[i] && RestsOf(max, ws)[i] < TotalWeight(ws)
  {
    hide TotalWeight;
    TotalIsPositive(ws);
    Divides(max * Clamped(ws[i]), TotalWeight(ws));
  }

  /** The total adds every weight, those below 1 as 1. */
  lemma TotalIs(ws: seq<int>, w: int)
    ensures TotalWeight([w] + ws) == (if w < 1 then 1 else w) + TotalWeight(ws) && TotalWeight([]) == 0
  {
    assert ([w] + ws)[1..] == ws;
  }
}
