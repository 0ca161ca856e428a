/**
 * The Reports page: totals over usage rows, and the per-day chart with its
 * split into series.
 */
module Chart {
  import opened Wrappers
  import opened Text
  import opened Sorting
  import D = DayRanges

  /** One row of the daily usage rollup. */
  datatype Row = Row(
    day: string, tenant: string, model: string,
    requests: real, failed: real, succeeded: real, inputTokens: real, outputTokens: real, tokens: real,
    cost: real, cacheHits: real, cacheMisses: real, energyWh: real, energyCost: real, co2: real,
    estimated: real, avgTtft: real, avgTotal: real)

  datatype Totals = Totals(
    requests: real, failed: real, succeeded: real, inputTokens: real, outputTokens: real, tokens: real,
    cost: real, cacheHits: real, cacheMisses: real, energyWh: real, energyCost: real, co2: real,
    estimated: real, avgTtft: real, avgTotal: real)

  /** The figures that add up over rows. */
  datatype Figure = Requests | Failed | Succeeded | InputTokens | OutputTokens | Tokens | Cost
                  | CacheHits | CacheMisses | EnergyWh | EnergyCost | Co2 | Estimated

  /** The figures each row keeps as a mean over its successes. */
  datatype Average = FirstToken | WholeRequest

  function InRow(r: Row, f: Figure): real {
    match f
    case Requests => r.requests case Failed => r.failed case Succeeded => r.succeeded
    case InputTokens => r.inputTokens case OutputTokens => r.outputTokens case Tokens => r.tokens
    case Cost => r.cost case CacheHits => r.cacheHits case CacheMisses => r.cacheMisses
    case EnergyWh => r.energyWh case EnergyCost => r.energyCost case Co2 => r.co2
    case Estimated => r.estimated
  }

  function InTotals(t: Totals, f: Figure): real {
    match f
    case Requests => t.requests case Failed => t.failed case Succeeded => t.succeeded
    case InputTokens => t.inputTokens case OutputTokens => t.outputTokens case Tokens => t.tokens
    case Cost => t.cost case CacheHits => t.cacheHits case CacheMisses => t.cacheMisses
    case EnergyWh => t.energyWh case EnergyCost => t.energyCost case Co2 => t.co2
    case Estimated => t.estimated
  }

  function RowMean(r: Row, a: Average): real { if a == FirstToken then r.avgTtft else r.avgTotal }

  function Sum(rows: seq<Row>, f: Figure): real {
    if rows == [] then 0.0 else Sum(rows[..|rows| - 1], f) + InRow(rows[|rows| - 1], f)
  }

  function Weight(r: Row, a: Average): real { RowMean(r, a) * r.succeeded }

  function Weighted(rows: seq<Row>, a: Average): real {
    if rows == [] then 0.0 else Weighted(rows[..|rows| - 1], a) + Weight(rows[|rows| - 1], a)
  }

  /** The mean over every success of every row; 0 when there is none. */
  function Mean(rows: seq<Row>, a: Average): real {
    var n := Sum(rows, Succeeded);
    if n != 0.0 then Weighted(rows, a) / n else 0.0
  }

  lemma OneMoreRow(rows: seq<Row>, i: nat)
    requires i < |rows|
    ensures rows[..i + 1][..i] == rows[..i] && rows[..i + 1][i] == rows[i]
  {
  }

  lemma FieldsAre(t: Totals, rows: seq<Row>)
    requires forall f: Figure :: InTotals(t, f) == Sum(rows, f)
    ensures t.requests == Sum(rows, Requests) && t.failed == Sum(rows, Failed) && t.succeeded == Sum(rows, Succeeded)
    ensures t.inputTokens == Sum(rows, InputTokens) && t.outputTokens == Sum(rows, OutputTokens) && t.tokens == Sum(rows, Tokens)
    ensures t.cost == Sum(rows, Cost) && t.cacheHits == Sum(rows, CacheHits) && t.cacheMisses == Sum(rows, CacheMisses)
    ensures t.energyWh == Sum(rows, EnergyWh) && t.energyCost == Sum(rows, EnergyCost) && t.co2 == Sum(rows, Co2)
    ensures t.estimated == Sum(rows, Estimated)
  {
    hide Sum;
    forall f: Figure ensures InTotals(t, f) == Sum(rows, f) {
    }
    assert InTotals(t, Requests) == t.requests && InTotals(t, Failed) == t.failed && InTotals(t, Succeeded) == t.succeeded;
    assert InTotals(t, InputTokens) == t.inputTokens && InTotals(t, OutputTokens) == t.outputTokens && InTotals(t, Tokens) == t.tokens;
    assert InTotals(t, Cost) == t.cost && InTotals(t, CacheHits) == t.cacheHits && InTotals(t, CacheMisses) == t.cacheMisses;
    assert InTotals(t, EnergyWh) == t.energyWh && InTotals(t, EnergyCost) == t.energyCost && InTotals(t, Co2) == t.co2;
    assert InTotals(t, Estimated) == t.estimated;
  }

  /** The totals of one row are its own figures; with the totals of a concatenation this decides all totals. */
  lemma OneRowTotals(r: Row)
    ensures Sum([r], Requests) == r.requests && Sum([r], Failed) == r.failed && Sum([r], Succeeded) == r.succeeded
    ensures Sum([r], InputTokens) == r.inputTokens && Sum([r], OutputTokens) == r.outputTokens && Sum([r], Tokens) == r.tokens
    ensures Sum([r], Cost) == r.cost && Sum([r], CacheHits) == r.cacheHits && Sum([r], CacheMisses) == r.cacheMisses
    ensures Sum([r], EnergyWh) == r.energyWh && Sum([r], EnergyCost) == r.energyCost && Sum([r], Co2) == r.co2
    ensures Sum([r], Estimated) == r.estimated
    ensures r.succeeded != 0.0 ==> Mean([r], FirstToken) == r.avgTtft && Mean([r], WholeRequest) == r.avgTotal
    ensures r.succeeded == 0.0 ==> Mean([r], FirstToken) == Mean([r], WholeRequest) == 0.0
  {
    hide Sum, Weighted;
    forall f: Figure ensures Sum([r], f) == InRow(r, f) { OneSum(r, f); }
    assert Sum([r], Succeeded) == InRow(r, Succeeded);
    forall a: Average ensures Weighted([r], a) == Weight(r, a) { OneWeight(r, a); }
  }

  lemma OneSum(r: Row, f: Figure)
    ensures Sum([r], f) == InRow(r, f)
  {
    assert [r][..0] == [];
  }

  lemma OneWeight(r: Row, a: Average)
    ensures Weighted([r], a) == Weight(r, a)
  {
    assert [r][..0] == [];
  }

  method TotalsOf(rows: seq<Row>) returns (t: Totals)
    ensures forall f: Figure :: InTotals(t, f) == Sum(rows, f)
    ensures t.requests == Sum(rows, Requests) && t.failed == Sum(rows, Failed) && t.succeeded == Sum(rows, Succeeded)
    ensures t.inputTokens == Sum(rows, InputTokens) && t.outputTokens == Sum(rows, OutputTokens) && t.tokens == Sum(rows, Tokens)
    ensures t.cost == Sum(rows, Cost) && t.cacheHits == Sum(rows, CacheHits) && t.cacheMisses == Sum(rows, CacheMisses)
    ensures t.energyWh == Sum(rows, EnergyWh) && t.energyCost == Sum(rows, EnergyCost) && t.co2 == Sum(rows, Co2)
    ensures t.estimated == Sum(rows, Estimated)
    ensures t.avgTtft == Mean(rows, FirstToken) && t.avgTotal == Mean(rows, WholeRequest)
  {
    t := Totals(0.0, 0.0, 0.0, 0.0, 0.0, 0.0, 0.0, 0.0, 0.0, 0.0, 0.0, 0.0, 0.0, 0.0, 0.0);
    var ttft, total := 0.0, 0.0;
    for i := 0 to |rows|
      invariant forall f: Figure :: InTotals(t, f) == Sum(rows[..i], f)
      invariant ttft == Weighted(rows[..i], FirstToken) && total == Weighted(rows[..i], WholeRequest)
    {
      var r := rows[i];
      ghost var before := t;
      t := t.(requests := t.requests + r.requests, failed := t.failed + r.failed, succeeded := t.succeeded + r.succeeded,
              inputTokens := t.inputTokens + r.inputTokens, outputTokens := t.outputTokens + r.outputTokens,
              tokens := t.tokens + r.tokens, cost := t.cost + r.cost, cacheHits := t.cacheHits + r.cacheHits,
              cacheMisses := t.cacheMisses + r.cacheMisses, energyWh := t.energyWh + r.energyWh,
              energyCost := t.energyCost + r.energyCost, co2 := t.co2 + r.co2, estimated := t.estimated + r.estimated);
      ttft := ttft + r.avgTtft * r.succeeded;
      total := total + r.avgTotal * r.succeeded;
      OneMoreRow(rows, i);
      forall f: Figure ensures InTotals(t, f) == Sum(rows[..i + 1], f) {
        assert InTotals(t, f) == InTotals(before, f) + InRow(r, f);
      }
    }
    assert rows[..|rows|] == rows;
    FieldsAre(t, rows);
    t := t.(avgTtft := if t.succeeded != 0.0 then ttft / t.succeeded else 0.0,
            avgTotal := if t.succeeded != 0.0 then total / t.succeeded else 0.0);
  }

  // -------------------------------------------------------------------------
  // Totals of two sets of rows
  // -------------------------------------------------------------------------

  ghost predicate Counted(rows: seq<Row>) { forall r | r in rows :: r.succeeded >= 0.0 }

  lemma {:induction false} SumPlus(a: seq<Row>, b: seq<Row>, f: Figure)
    ensures Sum(a + b, f) == Sum(a, f) + Sum(b, f)
  {
    if b == [] {
      assert a + b == a;
    } else {
      SumPlus(a, b[..|b| - 1], f);
      assert (a + b)[..|a + b| - 1] == a + b[..|b| - 1];
    }
  }

  lemma {:induction false} WeightedPlus(a: seq<Row>, b: seq<Row>, k: Average)
    ensures Weighted(a + b, k) == Weighted(a, k) + Weighted(b, k)
  {
    hide Weight;
    if b == [] {
      assert a + b == a;
    } else {
      WeightedPlus(a, b[..|b| - 1], k);
      assert (a + b)[..|a + b| - 1] == a + b[..|b| - 1];
    }
  }

  /** Without a success there is nothing to average. */
  lemma {:induction false} NoSuccessNoWeight(rows: seq<Row>, k: Average)
    requires Counted(rows)
    ensures Sum(rows, Succeeded) >= 0.0
    ensures Sum(rows, Succeeded) == 0.0 ==> Weighted(rows, k) == 0.0
  {
    if rows == [] {
    } else {
      var last := rows[|rows| - 1];
      NoSuccessNoWeight(rows[..|rows| - 1], k);
      assert last in rows;
    }
  }

  lemma MeanTimesCount(rows: seq<Row>, k: Average)
    requires Counted(rows)
    ensures Mean(rows, k) * Sum(rows, Succeeded) == Weighted(rows, k)
  {
    NoSuccessNoWeight(rows, k);
  }

  /** Totals add over concatenation, and the joint mean weighs each part by its successes. */
  lemma TotalsAdd(a: seq<Row>, b: seq<Row>)
    requires Counted(a) && Counted(b)
    ensures forall f: Figure :: Sum(a + b, f) == Sum(a, f) + Sum(b, f)
    ensures forall k: Average ::
              Mean(a + b, k) * Sum(a + b, Succeeded) == Mean(a, k) * Sum(a, Succeeded) + Mean(b, k) * Sum(b, Succeeded)
  {
    hide Mean, Weighted, Sum;
    forall f: Figure ensures Sum(a + b, f) == Sum(a, f) + Sum(b, f) {
      SumPlus(a, b, f);
    }
    forall k: Average
      ensures Mean(a + b, k) * Sum(a + b, Succeeded) == Mean(a, k) * Sum(a, Succeeded) + Mean(b, k) * Sum(b, Succeeded)
    {
      WeightedPlus(a, b, k);
      MeanTimesCount(a, k);
      MeanTimesCount(b, k);
      MeanTimesCount(a + b, k);
    }
  }

  ghost predicate Between(lo: real, w: real, hi: real, n: real) { lo * n <= w <= hi * n }

  ghost predicate RowMeansWithin(rows: seq<Row>, k: Average, lo: real, hi: real) {
    forall r | r in rows :: r.succeeded >= 0.0 && (r.succeeded > 0.0 ==> lo <= RowMean(r, k) <= hi)
  }

  lemma {:induction false} WeightWithin(rows: seq<Row>, k: Average, lo: real, hi: real)
    requires RowMeansWithin(rows, k, lo, hi)
    ensures Between(lo, Weighted(rows, k), hi, Sum(rows, Succeeded))
  {
    if rows == [] {
      assert Between(lo, 0.0, hi, 0.0);
    } else {
      hide RowMean, Between, Weight;
      var front, last := rows[..|rows| - 1], rows[|rows| - 1];
      WeightWithin(front, k, lo, hi);
      assert last in rows;
      RowWithin(last, k, lo, hi);
      BetweenAdds(lo, Weighted(front, k), Weight(last, k), hi, Sum(front, Succeeded), last.succeeded);
    }
  }

  lemma RowWithin(r: Row, k: Average, lo: real, hi: real)
    requires r.succeeded >= 0.0 && (r.succeeded > 0.0 ==> lo <= RowMean(r, k) <= hi)
    ensures Between(lo, Weight(r, k), hi, r.succeeded)
  {
    hide RowMean;
  }

  lemma BetweenAdds(lo: real, w: real, x: real, hi: real, n: real, s: real)
    requires Between(lo, w, hi, n) && Between(lo, x, hi, s)
    ensures Between(lo, w + x, hi, n + s)
  {
    assert lo * (n + s) == lo * n + lo * s && hi * (n + s) == hi * n + hi * s;
  }

  /** A mean lies between the least and the greatest row mean it is taken over. */
  lemma MeanWithin(rows: seq<Row>, k: Average, lo: real, hi: real)
    requires RowMeansWithin(rows, k, lo, hi)
    requires Sum(rows, Succeeded) != 0.0
    ensures lo <= Mean(rows, k) <= hi
  {
    hide Sum, Weighted;
    var n, w := Sum(rows, Succeeded), Weighted(rows, k);
    NoSuccessNoWeight(rows, k);
    WeightWithin(rows, k, lo, hi);
    assert n > 0.0 && lo * n <= w <= hi * n;
    Quotient(lo, w, hi, n);
  }

  lemma Quotient(lo: real, w: real, hi: real, n: real)
    requires n > 0.0 && lo * n <= w <= hi * n
    ensures lo <= w / n <= hi
  {
    var q := w / n;
    assert q * n == w;
    assert q < lo ==> q * n < lo * n;
    assert q > hi ==> q * n > hi * n;
  }

  // -------------------------------------------------------------------------
  // Measures and series
  // -------------------------------------------------------------------------

  datatype Measure = OfRequests | OfTokens | OfSpend | OfTtft

  function Measured(rows: seq<Row>, m: Measure): real {
    match m
    case OfRequests => Sum(rows, Requests)
    case OfTokens => Sum(rows, Tokens)
    case OfSpend => Sum(rows, Cost)
    case OfTtft => Mean(rows, FirstToken)
  }

  /** A measure of one row is its requests, its tokens, its spend, or its time to first token. */
  lemma OneRowMeasures(r: Row)
    ensures Measured([r], OfRequests) == r.requests && Measured([r], OfTokens) == r.tokens && Measured([r], OfSpend) == r.cost
    ensures Measured([r], OfTtft) == if r.succeeded != 0.0 then r.avgTtft else 0.0
  {
    hide Sum, Mean;
    OneRowTotals(r);
  }

  method MeasureOf(rows: seq<Row>, m: Measure) returns (v: real)
    ensures v == Measured(rows, m)
  {
    var t := TotalsOf(rows);
    assert InTotals(t, Requests) == Sum(rows, Requests) && InTotals(t, Tokens) == Sum(rows, Tokens)
        && InTotals(t, Cost) == Sum(rows, Cost);
    match m
    case OfRequests => v := t.requests;
    case OfTokens => v := t.tokens;
    case OfSpend => v := t.cost;
    case OfTtft => v := t.avgTtft;
  }

  /** A single row's measure. */
  function Value(r: Row, m: Measure): real { Measured([r], m) }

  lemma MeasureAdds(rows: seq<Row>, m: Measure)
    requires rows != [] && m != OfTtft
    ensures Measured(rows, m) == Measured(rows[..|rows| - 1], m) + Value(rows[|rows| - 1], m)
  {
    var r := rows[|rows| - 1];
    assert [r][..0] == [];
    assert forall f: Figure :: Sum([r], f) == Sum([], f) + InRow(r, f);
  }

  datatype Split = NoSplit | ByTenant | ByModel

  function KeyOf(r: Row, split: Split): string { if split == ByTenant then r.tenant else r.model }

  const REST: string := "__rest"

  /** How rows fall into series: each key its own, or every key outside the top into the rest. */
  datatype Grouping = Keys(split: Split) | Folded(split: Split, top: set<string>)

  function IdOf(r: Row, g: Grouping): string {
    var key := KeyOf(r, g.split);
    if g.Folded? && key !in g.top then REST else key
  }

  /** What the rows of one series sum to. */
  function GroupSum(rows: seq<Row>, m: Measure, g: Grouping, id: string): real {
    if rows == [] then 0.0
    else
      var last := rows[|rows| - 1];
      GroupSum(rows[..|rows| - 1], m, g, id) + if IdOf(last, g) == id then Value(last, m) else 0.0
  }

  ghost predicate SumsTo(parts: map<string, real>, rows: seq<Row>, m: Measure, g: Grouping) {
    && (forall id :: id in parts <==> exists r :: r in rows && IdOf(r, g) == id)
    && forall id | id in parts :: parts[id] == GroupSum(rows, m, g, id)
  }

  /** A map from series to its sum over the rows. */
  method Parts(rows: seq<Row>, m: Measure, g: Grouping) returns (parts: map<string, real>)
    ensures SumsTo(parts, rows, m, g)
  {
    hide SumsTo, Measured, IdOf;
    parts := map[];
    NoSums(m, g);
    for i := 0 to |rows|
      invariant SumsTo(parts, rows[..i], m, g)
    {
      var id := IdOf(rows[i], g);
      var v := MeasureOf([rows[i]], m);
      OneMoreSum(parts, rows, i, m, g);
      parts := parts[id := (if id in parts then parts[id] else 0.0) + v];
    }
    assert rows[..|rows|] == rows;
  }

  lemma NoSums(m: Measure, g: Grouping)
    ensures SumsTo(map[], [], m, g)
  {
  }

  lemma {:induction false} NoRowNoSum(rows: seq<Row>, m: Measure, g: Grouping, id: string)
    ensures (forall r | r in rows :: IdOf(r, g) != id) ==> GroupSum(rows, m, g, id) == 0.0
  {
    if rows == [] {
    } else {
      NoRowNoSum(rows[..|rows| - 1], m, g, id);
      assert rows[|rows| - 1] in rows;
      assert forall r | r in rows[..|rows| - 1] :: r in rows;
    }
  }

  lemma OneMoreSum(parts: map<string, real>, rows: seq<Row>, i: nat, m: Measure, g: Grouping)
    requires i < |rows| && SumsTo(parts, rows[..i], m, g)
    ensures var id := IdOf(rows[i], g);
            SumsTo(parts[id := (if id in parts then parts[id] else 0.0) + Value(rows[i], m)], rows[..i + 1], m, g)
  {
    hide IdOf, Value, GroupSum;
    var last, more := rows[i], rows[..i + 1];
    var key := IdOf(last, g);
    OneMoreRow(rows, i);
    assert more == rows[..i] + [last];
    forall id
      ensures (exists r :: r in more && IdOf(r, g) == id) <==> id in parts || id == key
      ensures GroupSum(more, m, g, id) == (if id in parts then parts[id] else 0.0) + if id == key then Value(last, m) else 0.0
    {
      IdsGrow(rows[..i], last, g, id);
      GroupGrows(rows[..i], last, m, g, id);
    }
  }

  lemma GroupGrows(rows: seq<Row>, last: Row, m: Measure, g: Grouping, id: string)
    ensures GroupSum(rows + [last], m, g, id) == GroupSum(rows, m, g, id) + if IdOf(last, g) == id then Value(last, m) else 0.0
    ensures (forall r | r in rows :: IdOf(r, g) != id) ==> GroupSum(rows, m, g, id) == 0.0
  {
    hide IdOf, Value;
    NoRowNoSum(rows, m, g, id);
    assert (rows + [last])[..|rows|] == rows;
  }

  lemma IdsGrow(rows: seq<Row>, last: Row, g: Grouping, id: string)
    ensures (exists r :: r in rows + [last] && IdOf(r, g) == id) <==> (exists r :: r in rows && IdOf(r, g) == id) || IdOf(last, g) == id
  {
    hide IdOf;
    assert last in rows + [last];
    assert forall r :: r in rows + [last] <==> r in rows || r == last;
  }

  // -------------------------------------------------------------------------
  // Which series are shown
  // -------------------------------------------------------------------------

  /** The keys of the rows, in order of first appearance. */
  function KeysOf(rows: seq<Row>, split: Split): (keys: seq<string>)
    ensures Distinct(keys)
    ensures forall k :: k in keys <==> exists r :: r in rows && KeyOf(r, split) == k
  {
    if rows == [] then []
    else
      var keys, key := KeysOf(rows[..|rows| - 1], split), KeyOf(rows[|rows| - 1], split);
      assert forall r :: r in rows <==> r in rows[..|rows| - 1] || r == rows[|rows| - 1];
      if key in keys then keys else keys + [key]
  }

  /** The label of a key: that of its first row. */
  function LabelOf(rows: seq<Row>, split: Split, key: string, labelFor: Row -> string): string {
    if rows == [] then ""
    else if KeyOf(rows[0], split) == key then labelFor(rows[0])
    else LabelOf(rows[1..], split, key, labelFor)
  }

  datatype Entry = Entry(id: string, name: string, value: real)

  function EntryOf(rows: seq<Row>, m: Measure, split: Split, labelFor: Row -> string, key: string): Entry {
    Entry(key, LabelOf(rows, split, key, labelFor), GroupSum(rows, m, Keys(split), key))
  }

  function Entries(rows: seq<Row>, m: Measure, split: Split, labelFor: Row -> string): seq<Entry> {
    var keys := KeysOf(rows, split);
    seq(|keys|, i requires 0 <= i < |keys| => EntryOf(rows, m, split, labelFor, keys[i]))
  }

  predicate LargerFirst(a: Entry, b: Entry) { a.value >= b.value }

  function Ranked(rows: seq<Row>, m: Measure, split: Split, labelFor: Row -> string): seq<Entry> {
    Sort(Entries(rows, m, split, labelFor), LargerFirst)
  }

  const SPLIT_TOP: nat := 4
  const SPLIT_TONES: seq<string> := ["hsl(240 5% 88%)", "hsl(240 4% 66%)", "hsl(240 4% 50%)", "hsl(240 4% 38%)"]
  const REST_TONE: string := "hsl(240 4% 24%)"

  datatype Series = Series(id: string, name: string, color: string)

  function Shown(ranked: seq<Entry>): nat { if |ranked| < SPLIT_TOP then |ranked| else SPLIT_TOP }

  function TopIds(ranked: seq<Entry>): set<string> { set i | 0 <= i < Shown(ranked) :: ranked[i].id }

  /** The series list: the largest few, then one for everyone else if there is anyone. */
  function SeriesOf(ranked: seq<Entry>): seq<Series> {
    seq(Shown(ranked), i requires 0 <= i < Shown(ranked) => Series(ranked[i].id, ranked[i].name, SPLIT_TONES[i]))
    + if |ranked| > SPLIT_TOP then [Series(REST, Decimal(|ranked| - SPLIT_TOP) + " more", REST_TONE)] else []
  }

  lemma {:induction false} LabelKept(rows: seq<Row>, r: Row, split: Split, key: string, labelFor: Row -> string)
    ensures LabelOf(rows + [r], split, key, labelFor)
         == if key in KeysOf(rows, split) then LabelOf(rows, split, key, labelFor)
            else if KeyOf(r, split) == key then labelFor(r) else ""
  {
    if rows == [] {
      assert [r][1..] == [];
      assert rows + [r] == [r];
    } else {
      assert (rows + [r])[1..] == rows[1..] + [r];
      LabelKept(rows[1..], r, split, key, labelFor);
      assert forall q :: q in rows <==> q == rows[0] || q in rows[1..];
    }
  }

  /** What one more row does to a key's entry. */
  lemma EntryGrows(rows: seq<Row>, r: Row, m: Measure, split: Split, labelFor: Row -> string, k: string)
    ensures var was, now := EntryOf(rows, m, split, labelFor, k), EntryOf(rows + [r], m, split, labelFor, k);
            && (k in KeysOf(rows, split) && KeyOf(r, split) == k ==> now == was.(value := was.value + Value(r, m)))
            && (k in KeysOf(rows, split) && KeyOf(r, split) != k ==> now == was)
            && (k !in KeysOf(rows, split) && KeyOf(r, split) == k ==> now == Entry(k, labelFor(r), Value(r, m)))
  {
    hide Value;
    LabelKept(rows, r, split, k, labelFor);
    NoRowNoSum(rows, m, Keys(split), k);
    assert (rows + [r])[..|rows|] == rows;
  }

  lemma KeysGrow(rows: seq<Row>, r: Row, split: Split)
    ensures var keys, key := KeysOf(rows, split), KeyOf(r, split);
            KeysOf(rows + [r], split) == if key in keys then keys else keys + [key]
  {
    assert (rows + [r])[..|rows|] == rows;
  }

  /** The tallies kept per key while the rows are read. */
  ghost predicate Tallied(order: seq<string>, tally: map<string, Entry>, rows: seq<Row>, m: Measure, split: Split, labelFor: Row -> string) {
    && order == KeysOf(rows, split)
    && (forall k :: k in tally <==> k in order)
    && forall k | k in tally :: tally[k] == EntryOf(rows, m, split, labelFor, k)
  }

  function TallyFor(tally: map<string, Entry>, r: Row, split: Split, labelFor: Row -> string): Entry {
    var key := KeyOf(r, split);
    if key in tally then tally[key] else Entry(key, labelFor(r), 0.0)
  }

  /** The order with a key put last unless it is there. */
  function Ordered(order: seq<string>, tally: map<string, Entry>, key: string): seq<string> {
    if key in tally then order else order + [key]
  }

  /** The tallies with one more row counted. */
  function Counting(tally: map<string, Entry>, r: Row, m: Measure, split: Split, labelFor: Row -> string): map<string, Entry> {
    var cur := TallyFor(tally, r, split, labelFor);
    tally[KeyOf(r, split) := cur.(value := cur.value + Value(r, m))]
  }

  lemma TallyKeys(order: seq<string>, tally: map<string, Entry>, rows: seq<Row>, r: Row, m: Measure, split: Split, labelFor: Row -> string)
    requires Tallied(order, tally, rows, m, split, labelFor)
    ensures var keys := Ordered(order, tally, KeyOf(r, split));
            keys == KeysOf(rows + [r], split) && forall k :: k in Counting(tally, r, m, split, labelFor) <==> k in keys
  {
    hide KeysOf, EntryOf, KeyOf, Value, TallyFor;
    KeysGrow(rows, r, split);
  }

  lemma OneMoreTally(order: seq<string>, tally: map<string, Entry>, rows: seq<Row>, r: Row, m: Measure, split: Split, labelFor: Row -> string)
    requires Tallied(order, tally, rows, m, split, labelFor)
    ensures Tallied(Ordered(order, tally, KeyOf(r, split)), Counting(tally, r, m, split, labelFor), rows + [r], m, split, labelFor)
  {
    hide TallyFor, KeysOf, EntryOf, KeyOf, Ordered, Counting;
    TallyKeys(order, tally, rows, r, m, split, labelFor);
    var after := Counting(tally, r, m, split, labelFor);
    forall k | k in after ensures after[k] == EntryOf(rows + [r], m, split, labelFor, k) {
      TallyGrows(order, tally, rows, r, m, split, labelFor, k);
    }
  }

  lemma TallyGrows(order: seq<string>, tally: map<string, Entry>, rows: seq<Row>, r: Row, m: Measure, split: Split,
                   labelFor: Row -> string, k: string)
    requires Tallied(order, tally, rows, m, split, labelFor)
    ensures var after := Counting(tally, r, m, split, labelFor);
            k in after ==> after[k] == EntryOf(rows + [r], m, split, labelFor, k)
  {
    hide KeysOf, EntryOf, Value, KeyOf;
    EntryGrows(rows, r, m, split, labelFor, k);
  }

  /** The tallies in the order their keys were added. */
  function Listing(order: seq<string>, tally: map<string, Entry>): seq<Entry>
    requires forall k | k in order :: k in tally
  {
    seq(|order|, i requires 0 <= i < |order| => tally[order[i]])
  }

  lemma TalliedEntries(order: seq<string>, tally: map<string, Entry>, rows: seq<Row>, m: Measure, split: Split, labelFor: Row -> string)
    requires Tallied(order, tally, rows, m, split, labelFor)
    ensures forall k | k in order :: k in tally
    ensures Listing(order, tally) == Entries(rows, m, split, labelFor)
  {
    hide EntryOf, KeysOf;
  }

  lemma NothingTallied(m: Measure, split: Split, labelFor: Row -> string)
    ensures Tallied([], map[], [], m, split, labelFor)
  {
  }

  /** Each key's total over the rows, in order of first appearance. */
  method SeriesTotals(rows: seq<Row>, m: Measure, split: Split, labelFor: Row -> string) returns (entries: seq<Entry>)
    ensures entries == Entries(rows, m, split, labelFor)
  {
    hide Tallied, Entries, Measured, KeyOf, TallyFor, Listing;
    var order: seq<string>, tally: map<string, Entry> := [], map[];
    NothingTallied(m, split, labelFor);
    for i := 0 to |rows|
      invariant Tallied(order, tally, rows[..i], m, split, labelFor)
    {
      assert rows[..i + 1] == rows[..i] + [rows[i]];
      OneMoreTally(order, tally, rows[..i], rows[i], m, split, labelFor);
      var key, cur := KeyOf(rows[i], split), TallyFor(tally, rows[i], split, labelFor);
      var v := MeasureOf([rows[i]], m);
      if key !in tally { order := order + [key]; }
      tally := tally[key := cur.(value := cur.value + v)];
    }
    assert rows[..|rows|] == rows;
    TalliedEntries(order, tally, rows, m, split, labelFor);
    entries := Listing(order, tally);
  }

  lemma RankedIds(rows: seq<Row>, m: Measure, split: Split, labelFor: Row -> string)
    ensures var ranked := Ranked(rows, m, split, labelFor);
            && Sorted(ranked, LargerFirst)
            && (forall i | 0 <= i < |ranked| :: ranked[i] == EntryOf(rows, m, split, labelFor, ranked[i].id))
            && (forall i, j | 0 <= i < j < |ranked| :: ranked[i].id != ranked[j].id)
            && (forall r | r in rows :: EntryOf(rows, m, split, labelFor, KeyOf(r, split)) in ranked)
  {
    hide EntryOf;
    var keys, entries := KeysOf(rows, split), Entries(rows, m, split, labelFor);
    var ranked := Ranked(rows, m, split, labelFor);
    SortSorts(entries, LargerFirst);
    SameElements(ranked, entries);
    forall k ensures EntryOf(rows, m, split, labelFor, k).id == k { EntryId(rows, m, split, labelFor, k); }
    assert forall i | 0 <= i < |keys| :: entries[i] == EntryOf(rows, m, split, labelFor, keys[i]);
    assert Distinct(entries);
    PermutationDistinct(entries, ranked);
    forall i | 0 <= i < |ranked| ensures ranked[i] == EntryOf(rows, m, split, labelFor, ranked[i].id) {
      assert ranked[i] in entries;
    }
    forall r | r in rows ensures EntryOf(rows, m, split, labelFor, KeyOf(r, split)) in ranked {
      assert KeyOf(r, split) in keys;
      var p :| 0 <= p < |keys| && keys[p] == KeyOf(r, split);
      assert entries[p] in entries;
    }
  }

  lemma EntryId(rows: seq<Row>, m: Measure, split: Split, labelFor: Row -> string, k: string)
    ensures EntryOf(rows, m, split, labelFor, k).id == k
  {
  }

  // -------------------------------------------------------------------------
  // The chart
  // -------------------------------------------------------------------------

  function On(rows: seq<Row>, day: string): seq<Row> {
    if rows == [] then []
    else On(rows[..|rows| - 1], day) + if rows[|rows| - 1].day == day then [rows[|rows| - 1]] else []
  }

  /** Absent days have no rows. */
  function Listed(byDay: map<string, seq<Row>>, day: string): seq<Row> { if day in byDay then byDay[day] else [] }

  method ByDay(rows: seq<Row>) returns (byDay: map<string, seq<Row>>)
    ensures forall day :: Listed(byDay, day) == On(rows, day)
  {
    byDay := map[];
    for i := 0 to |rows|
      invariant forall day :: Listed(byDay, day) == On(rows[..i], day)
    {
      OneMoreRow(rows, i);
      ghost var before := byDay;
      byDay := byDay[rows[i].day := Listed(byDay, rows[i].day) + [rows[i]]];
      assert forall day :: Listed(byDay, day) == if day == rows[i].day then Listed(before, day) + [rows[i]] else Listed(before, day);
    }
    assert rows[..|rows|] == rows;
  }

  /** The last row of a day, as a lookup keyed by day finds it. */
  function LastOn(rows: seq<Row>, day: string): Option<Row> {
    if rows == [] then None
    else if rows[|rows| - 1].day == day then Some(rows[|rows| - 1])
    else LastOn(rows[..|rows| - 1], day)
  }

  datatype Previous = Previous(days: seq<string>, rows: seq<Row>)

  function PreviousAt(previous: Option<Previous>, i: nat, m: Measure): Option<real> {
    if previous.None? || i >= |previous.value.days| then None
    else
      var row := LastOn(previous.value.rows, previous.value.days[i]);
      Some(if row.Some? then Value(row.value, m) else 0.0)
  }

  datatype ChartDay = ChartDay(day: string, value: real, previous: Option<real>, parts: map<string, real>)

  predicate Splits(split: Split, m: Measure) { split != NoSplit && m != OfTtft }

  ghost predicate DayShows(d: ChartDay, i: nat, day: string, m: Measure, split: Split, rows: seq<Row>,
                           previous: Option<Previous>, splitRows: seq<Row>, top: set<string>) {
    && d.day == day
    && d.value == Measured(On(rows, day), m)
    && d.previous == PreviousAt(previous, i, m)
    && (Splits(split, m) ==> SumsTo(d.parts, On(splitRows, day), m, Folded(split, top)))
    && (!Splits(split, m) ==> d.parts == map[])
  }

  /** The days of a range, as far as they are listed. */
  function DaysOf(r: D.Range): seq<string>
    requires D.FourDigitYears(r)
  {
    D.DayTexts(r.start, D.Listed(r))
  }

  /** The period before: its range and its rows. */
  datatype Before = Before(range: D.Range, rows: seq<Row>)

  ghost predicate ShownYears(previous: Option<Before>) { previous.Some? ==> D.FourDigitYears(previous.value.range) }

  function PreviousOf(previous: Option<Before>): Option<Previous>
    requires ShownYears(previous)
  {
    if previous.Some? then Some(Previous(DaysOf(previous.value.range), previous.value.rows)) else None
  }

  ghost predicate IsChart(out: seq<ChartDay>, series: seq<Series>, range: D.Range, m: Measure, split: Split, rows: seq<Row>,
                          previous: Option<Before>, splitRows: seq<Row>, labelFor: Row -> string)
    requires D.FourDigitYears(range) && ShownYears(previous)
  {
    && (Splits(split, m) ==> series == SeriesOf(Ranked(splitRows, m, split, labelFor)))
    && (!Splits(split, m) ==> series == [])
    && |out| == |DaysOf(range)|
    && forall i | 0 <= i < |out| ::
         DayShows(out[i], i, DaysOf(range)[i], m, split, rows, PreviousOf(previous), splitRows,
                  TopIds(Ranked(splitRows, m, split, labelFor)))
  }

  /** The chart over a range, each day beside the one at its place in the period before. */
  method BuildChart(range: D.Range, m: Measure, split: Split, rows: seq<Row>, previous: Option<Before>,
                    splitRows: seq<Row>, labelFor: Row -> string)
    returns (out: seq<ChartDay>, series: seq<Series>)
    requires D.FourDigitYears(range) && ShownYears(previous)
    ensures IsChart(out, series, range, m, split, rows, previous, splitRows, labelFor)
  {
    hide DayShows, TopIds, SeriesOf, Ranked;
    var days := D.EachDay(range);
    var before := None;
    if previous.Some? {
      var listed := D.EachDay(previous.value.range);
      before := Some(Previous(listed, previous.value.rows));
    }
    out, series := ChartOver(days, m, split, rows, before, splitRows, labelFor);
  }

  method ChartOver(days: seq<string>, m: Measure, split: Split, rows: seq<Row>, previous: Option<Previous>,
                   splitRows: seq<Row>, labelFor: Row -> string)
    returns (out: seq<ChartDay>, series: seq<Series>)
    ensures Splits(split, m) ==> series == SeriesOf(Ranked(splitRows, m, split, labelFor))
    ensures !Splits(split, m) ==> series == []
    ensures |out| == |days|
    ensures forall i | 0 <= i < |days| ::
              DayShows(out[i], i, days[i], m, split, rows, previous, splitRows, TopIds(Ranked(splitRows, m, split, labelFor)))
  {
    hide DayShows, SumsTo, TopIds, SeriesOf, Ranked, Measured, Splits, PreviousAt, Entries, On, Listed, LargerFirst;
    var byDay := ByDay(rows);
    var splitByDay := ByDay(splitRows);
    var entries := SeriesTotals(splitRows, m, split, labelFor);
    var ranked := Sort(entries, LargerFirst);
    RankedIs(splitRows, m, split, labelFor);
    var top := TopIds(ranked);
    series := if Splits(split, m) then SeriesOf(ranked) else [];
    out := [];
    for i := 0 to |days|
      invariant |out| == i
      invariant forall j | 0 <= j < i :: DayShows(out[j], j, days[j], m, split, rows, previous, splitRows, top)
    {
      var day := days[i];
      var value := MeasureOf(Listed(byDay, day), m);
      var parts := map[];
      if Splits(split, m) {
        parts := Parts(Listed(splitByDay, day), m, Folded(split, top));
      }
      var d := ChartDay(day, value, PreviousAt(previous, i, m), parts);
      DayBuilt(d, i, day, m, split, rows, previous, splitRows, top);
      out := out + [d];
    }
  }

  lemma RankedIs(rows: seq<Row>, m: Measure, split: Split, labelFor: Row -> string)
    ensures Ranked(rows, m, split, labelFor) == Sort(Entries(rows, m, split, labelFor), LargerFirst)
  {
  }

  lemma DayBuilt(d: ChartDay, i: nat, day: string, m: Measure, split: Split, rows: seq<Row>,
                 previous: Option<Previous>, splitRows: seq<Row>, top: set<string>)
    requires d.day == day && d.value == Measured(On(rows, day), m) && d.previous == PreviousAt(previous, i, m)
    requires Splits(split, m) ==> SumsTo(d.parts, On(splitRows, day), m, Folded(split, top))
    requires !Splits(split, m) ==> d.parts == map[]
    ensures DayShows(d, i, day, m, split, rows, previous, splitRows, top)
  {
  }

  // -------------------------------------------------------------------------
  // A day's parts add up
  // -------------------------------------------------------------------------

  /** The parts of some ids together, absent ones as 0. */
  function Stacked(ids: seq<string>, parts: map<string, real>): real {
    if ids == [] then 0.0 else Stacked(ids[1..], parts) + if ids[0] in parts then parts[ids[0]] else 0.0
  }

  function GroupTotal(ids: seq<string>, rows: seq<Row>, m: Measure, g: Grouping): real {
    if ids == [] then 0.0 else GroupTotal(ids[1..], rows, m, g) + GroupSum(rows, m, g, ids[0])
  }

  lemma {:induction false} StackedIsGroupTotal(ids: seq<string>, parts: map<string, real>, rows: seq<Row>, m: Measure, g: Grouping)
    requires SumsTo(parts, rows, m, g)
    ensures Stacked(ids, parts) == GroupTotal(ids, rows, m, g)
  {
    if ids == [] {
    } else {
      StackedIsGroupTotal(ids[1..], parts, rows, m, g);
      NoRowNoSum(rows, m, g, ids[0]);
    }
  }

  lemma {:induction false} GroupTotalGrows(ids: seq<string>, rows: seq<Row>, m: Measure, g: Grouping)
    requires rows != [] && Distinct(ids)
    ensures var last := rows[|rows| - 1];
            GroupTotal(ids, rows, m, g) == GroupTotal(ids, rows[..|rows| - 1], m, g)
              + if IdOf(last, g) in ids then Value(last, m) else 0.0
  {
    hide IdOf, Value;
    if ids == [] {
    } else {
      GroupTotalGrows(ids[1..], rows, m, g);
      assert forall id :: id in ids <==> id == ids[0] || id in ids[1..];
      assert ids[0] !in ids[1..];
    }
  }

  lemma {:induction false} NothingYet(ids: seq<string>, m: Measure, g: Grouping)
    ensures GroupTotal(ids, [], m, g) == 0.0
  {
    if ids == [] {
    } else {
      NothingYet(ids[1..], m, g);
    }
  }

  lemma {:induction false} GroupTotalIsMeasure(ids: seq<string>, rows: seq<Row>, m: Measure, g: Grouping)
    requires m != OfTtft && Distinct(ids)
    requires forall r | r in rows :: IdOf(r, g) in ids
    ensures GroupTotal(ids, rows, m, g) == Measured(rows, m)
  {
    hide IdOf, Value;
    if rows == [] {
      NothingYet(ids, m, g);
    } else {
      assert rows[|rows| - 1] in rows;
      GroupTotalIsMeasure(ids, rows[..|rows| - 1], m, g);
      GroupTotalGrows(ids, rows, m, g);
      MeasureAdds(rows, m);
    }
  }

  /** However the series are told apart, a day's parts sum to the measure of that day's split rows. */
  lemma PartsAddUp(ids: seq<string>, parts: map<string, real>, rows: seq<Row>, m: Measure, g: Grouping)
    requires m != OfTtft && SumsTo(parts, rows, m, g)
    requires Distinct(ids) && forall id | id in parts :: id in ids
    ensures Stacked(ids, parts) == Measured(rows, m)
  {
    StackedIsGroupTotal(ids, parts, rows, m, g);
    GroupTotalIsMeasure(ids, rows, m, g);
  }

  lemma {:induction false} OnAreRows(rows: seq<Row>, day: string)
    ensures forall r :: r in On(rows, day) <==> r in rows && r.day == day
  {
    if rows == [] {
    } else {
      OnAreRows(rows[..|rows| - 1], day);
      assert forall r :: r in rows <==> r in rows[..|rows| - 1] || r == rows[|rows| - 1];
    }
  }

  /** Every part a day holds belongs to a series of the legend. */
  lemma PartsAreSeries(splitRows: seq<Row>, day: string, m: Measure, split: Split, labelFor: Row -> string, parts: map<string, real>)
    requires var top := TopIds(Ranked(splitRows, m, split, labelFor));
             SumsTo(parts, On(splitRows, day), m, Folded(split, top))
    ensures forall id | id in parts :: exists s :: s in SeriesOf(Ranked(splitRows, m, split, labelFor)) && s.id == id
  {
    hide Ranked, Measured, GroupSum, EntryOf, SeriesOf, TopIds, On;
    var ranked := Ranked(splitRows, m, split, labelFor);
    RankedIds(splitRows, m, split, labelFor);
    OnAreRows(splitRows, day);
    forall id | id in parts ensures exists s :: s in SeriesOf(ranked) && s.id == id {
      var r :| r in On(splitRows, day) && IdOf(r, Folded(split, TopIds(ranked))) == id;
      var key := KeyOf(r, split);
      var p :| 0 <= p < |ranked| && ranked[p] == EntryOf(splitRows, m, split, labelFor, key);
      EntryId(splitRows, m, split, labelFor, key);
      var s := ListedAs(ranked, p);
    }
  }

  /** An entry's rows are drawn as a listed series: its own, or the rest. */
  lemma ListedAs(ranked: seq<Entry>, p: nat) returns (s: Series)
    requires p < |ranked|
    ensures s in SeriesOf(ranked) && s.id == if ranked[p].id in TopIds(ranked) then ranked[p].id else REST
  {
    var series, key := SeriesOf(ranked), ranked[p].id;
    if key in TopIds(ranked) {
      var q :| 0 <= q < Shown(ranked) && ranked[q].id == key;
      s := series[q];
    } else {
      assert p >= SPLIT_TOP;
      s := series[SPLIT_TOP];
    }
  }

  function SeriesIds(series: seq<Series>): (ids: seq<string>)
    ensures |ids| == |series| && forall k | 0 <= k < |series| :: ids[k] == series[k].id
  {
    seq(|series|, k requires 0 <= k < |series| => series[k].id)
  }

  /** The legend's ids: the top ones, then the rest's if there is a rest. */
  function TopList(ranked: seq<Entry>): (ids: seq<string>)
    ensures |ids| == Shown(ranked)
  {
    seq(Shown(ranked), k requires 0 <= k < Shown(ranked) => ranked[k].id)
  }

  lemma LegendIds(ranked: seq<Entry>)
    ensures SeriesIds(SeriesOf(ranked)) == TopList(ranked) + if |ranked| > SPLIT_TOP then [REST] else []
    ensures forall id :: id in TopList(ranked) <==> id in TopIds(ranked)
  {
    forall id ensures id in TopList(ranked) <==> id in TopIds(ranked) {
      if id in TopIds(ranked) {
        var k :| 0 <= k < Shown(ranked) && ranked[k].id == id;
        assert TopList(ranked)[k] == id;
      }
    }
  }

  lemma {:induction false} StackedPlus(ids: seq<string>, id: string, parts: map<string, real>)
    ensures Stacked(ids + [id], parts) == Stacked(ids, parts) + if id in parts then parts[id] else 0.0
  {
    if ids == [] {
      assert ids + [id] == [id] && [id][1..] == [];
    } else {
      assert (ids + [id])[1..] == ids[1..] + [id];
      StackedPlus(ids[1..], id, parts);
    }
  }

  lemma SeriesHasId(series: seq<Series>, s: Series)
    requires s in series
    ensures s.id in SeriesIds(series)
  {
    var k :| 0 <= k < |series| && series[k] == s;
    assert SeriesIds(series)[k] == s.id;
  }

  lemma TopListDistinct(splitRows: seq<Row>, m: Measure, split: Split, labelFor: Row -> string)
    ensures Distinct(TopList(Ranked(splitRows, m, split, labelFor)))
  {
    hide Ranked;
    RankedIds(splitRows, m, split, labelFor);
  }

  /** A shown key is spelled like the rest while there is a rest, and its part is not zero. */
  ghost predicate ListedTwice(ranked: seq<Entry>, parts: map<string, real>) {
    REST in TopIds(ranked) && |ranked| > SPLIT_TOP && REST in parts && parts[REST] != 0.0
  }

  /**
   * The parts of the listed series sum to the measure of the day's split rows,
   * exactly unless a shown key is spelled like the rest, which is then listed
   * twice, and that part is not zero.
   */
  lemma LegendAddsUp(splitRows: seq<Row>, day: string, m: Measure, split: Split, labelFor: Row -> string, parts: map<string, real>)
    requires m != OfTtft
    requires SumsTo(parts, On(splitRows, day), m, Folded(split, TopIds(Ranked(splitRows, m, split, labelFor))))
    ensures Stacked(SeriesIds(SeriesOf(Ranked(splitRows, m, split, labelFor))), parts) == Measured(On(splitRows, day), m)
       <==> !ListedTwice(Ranked(splitRows, m, split, labelFor), parts)
  {
    hide Ranked, Measured, SumsTo, SeriesOf, TopIds, On, TopList, Distinct, Stacked;
    var ranked := Ranked(splitRows, m, split, labelFor);
    var g := Folded(split, TopIds(ranked));
    var top, all := TopList(ranked), SeriesIds(SeriesOf(ranked));
    PartsAreSeries(splitRows, day, m, split, labelFor, parts);
    LegendIds(ranked);
    TopListDistinct(splitRows, m, split, labelFor);
    forall id | id in parts ensures id in all {
      var s :| s in SeriesOf(ranked) && s.id == id;
      SeriesHasId(SeriesOf(ranked), s);
    }
    if |ranked| <= SPLIT_TOP {
      assert all == top;
      PartsAddUp(top, parts, On(splitRows, day), m, g);
    } else if REST in top {
      assert forall id | id in parts :: id in top;
      PartsAddUp(top, parts, On(splitRows, day), m, g);
      StackedPlus(top, REST, parts);
    } else {
      OneMoreDistinct(top, REST);
      PartsAddUp(all, parts, On(splitRows, day), m, g);
    }
  }

  lemma OneMoreDistinct(ids: seq<string>, id: string)
    requires Distinct(ids) && id !in ids
    ensures Distinct(ids + [id])
  {
  }

  /** Entries of equal value are ranked in order of first appearance. */
  lemma EqualEntriesKeepOrder(rows: seq<Row>, m: Measure, split: Split, labelFor: Row -> string, x: Entry)
    ensures Ties(Ranked(rows, m, split, labelFor), x, LargerFirst) == Ties(Entries(rows, m, split, labelFor), x, LargerFirst)
  {
    hide Entries;
    SortStable(Entries(rows, m, split, labelFor), x, LargerFirst);
  }

  /** A key is folded only when four others are shown, none of them smaller. */
  lemma FoldedAreNoLarger(splitRows: seq<Row>, m: Measure, split: Split, labelFor: Row -> string, folded: string)
    requires folded in KeysOf(splitRows, split)
    ensures var top := TopIds(Ranked(splitRows, m, split, labelFor));
            folded !in top ==>
              && |top| == SPLIT_TOP
              && forall key | key in top ::
                   GroupSum(splitRows, m, Keys(split), folded) <= GroupSum(splitRows, m, Keys(split), key)
  {
    hide Ranked, Measured, GroupSum, KeysOf, Sorted, TopIds, LargerFirst;
    var ranked := Ranked(splitRows, m, split, labelFor);
    var top := TopIds(ranked);
    RankedIds(splitRows, m, split, labelFor);
    var r := RowWithKey(splitRows, split, folded);
    var p :| 0 <= p < |ranked| && ranked[p] == EntryOf(splitRows, m, split, labelFor, folded);
    TopIsFirst(ranked, p);
    forall key | key in top && folded !in top
      ensures GroupSum(splitRows, m, Keys(split), folded) <= GroupSum(splitRows, m, Keys(split), key)
    {
      var q := Position(ranked, key);
      NoLarger(ranked, q, p);
      assert ranked[q] == EntryOf(splitRows, m, split, labelFor, key);
    }
  }

  lemma Position(ranked: seq<Entry>, key: string) returns (q: nat)
    requires key in TopIds(ranked)
    ensures q < Shown(ranked) <= |ranked| && ranked[q].id == key
  {
    q :| 0 <= q < Shown(ranked) && ranked[q].id == key;
  }

  lemma NoLarger(ranked: seq<Entry>, q: nat, p: nat)
    requires Sorted(ranked, LargerFirst) && q < |ranked| && p < |ranked|
    ensures q < p ==> ranked[p].value <= ranked[q].value
  {
    assert q < p ==> LargerFirst(ranked[q], ranked[p]);
  }

  /** An entry outside the top comes after all four of it. */
  lemma TopIsFirst(ranked: seq<Entry>, p: nat)
    requires p < |ranked| && forall i, j | 0 <= i < j < |ranked| :: ranked[i].id != ranked[j].id
    ensures ranked[p].id !in TopIds(ranked) ==> p >= SPLIT_TOP && |TopIds(ranked)| == SPLIT_TOP
  {
    if p < SPLIT_TOP {
      assert ranked[p].id in TopIds(ranked);
    } else {
      assert TopIds(ranked) == {ranked[0].id, ranked[1].id, ranked[2].id, ranked[3].id};
    }
  }

  lemma RowWithKey(rows: seq<Row>, split: Split, key: string) returns (r: Row)
    requires key in KeysOf(rows, split)
    ensures r in rows && KeyOf(r, split) == key
  {
    r :| r in rows && KeyOf(r, split) == key;
  }

  // -------------------------------------------------------------------------
  // The days of the range add up
  // -------------------------------------------------------------------------

  /** A series summed over days. */
  function OverDays(days: seq<string>, rows: seq<Row>, m: Measure, g: Grouping, id: string): real {
    if days == [] then 0.0 else OverDays(days[1..], rows, m, g, id) + GroupSum(On(rows, days[0]), m, g, id)
  }

  lemma OnGroupGrows(rows: seq<Row>, day: string, m: Measure, g: Grouping, id: string)
    requires rows != []
    ensures var last := rows[|rows| - 1];
            GroupSum(On(rows, day), m, g, id) == GroupSum(On(rows[..|rows| - 1], day), m, g, id)
              + if last.day == day && IdOf(last, g) == id then Value(last, m) else 0.0
  {
    hide IdOf, Value;
    var last, front := rows[|rows| - 1], On(rows[..|rows| - 1], day);
    if last.day == day {
      assert On(rows, day) == front + [last];
      assert (front + [last])[..|front|] == front;
    } else {
      assert On(rows, day) == front;
    }
  }

  lemma {:induction false} OverDaysGrows(days: seq<string>, rows: seq<Row>, m: Measure, g: Grouping, id: string)
    requires rows != [] && Distinct(days)
    ensures var last := rows[|rows| - 1];
            OverDays(days, rows, m, g, id) == OverDays(days, rows[..|rows| - 1], m, g, id)
              + if last.day in days && IdOf(last, g) == id then Value(last, m) else 0.0
  {
    hide IdOf, Value, On, GroupSum;
    if days == [] {
    } else {
      OverDaysGrows(days[1..], rows, m, g, id);
      OnGroupGrows(rows, days[0], m, g, id);
      assert forall d :: d in days <==> d == days[0] || d in days[1..];
      assert days[0] !in days[1..];
    }
  }

  lemma {:induction false} NoRowsNoDays(days: seq<string>, m: Measure, g: Grouping, id: string)
    ensures OverDays(days, [], m, g, id) == 0.0
  {
    if days == [] {
    } else {
      NoRowsNoDays(days[1..], m, g, id);
    }
  }

  /** When the range lists every row's day once, a series' parts over the days sum to the total it is ranked by. */
  lemma {:induction false} SeriesAddsUp(days: seq<string>, rows: seq<Row>, m: Measure, g: Grouping, id: string)
    requires Distinct(days) && forall r | r in rows :: r.day in days
    ensures OverDays(days, rows, m, g, id) == GroupSum(rows, m, g, id)
  {
    hide IdOf, Value;
    if rows == [] {
      NoRowsNoDays(days, m, g, id);
    } else {
      assert rows[|rows| - 1] in rows;
      SeriesAddsUp(days, rows[..|rows| - 1], m, g, id);
      OverDaysGrows(days, rows, m, g, id);
    }
  }

  lemma {:induction false} FoldingKeepsShown(rows: seq<Row>, m: Measure, split: Split, top: set<string>, key: string)
    requires key in top
    ensures GroupSum(rows, m, Folded(split, top), key)
         == GroupSum(rows, m, Keys(split), key) + if key == REST then FoldedSum(rows, m, split, top) else 0.0
  {
    hide Value;
    if rows == [] {
    } else {
      FoldingKeepsShown(rows[..|rows| - 1], m, split, top, key);
    }
  }

  /** What the keys outside the top sum to. */
  function FoldedSum(rows: seq<Row>, m: Measure, split: Split, top: set<string>): real {
    if rows == [] then 0.0
    else
      var last := rows[|rows| - 1];
      FoldedSum(rows[..|rows| - 1], m, split, top) + if KeyOf(last, split) !in top then Value(last, m) else 0.0
  }

  /** A shown series is that key's own rows, unless the key is spelled like the rest and something is folded into it. */
  lemma ShownIsItsOwn(rows: seq<Row>, m: Measure, split: Split, top: set<string>, key: string)
    requires key in top
    ensures GroupSum(rows, m, Folded(split, top), key) == GroupSum(rows, m, Keys(split), key)
       <==> key != REST || FoldedSum(rows, m, split, top) == 0.0
  {
    FoldingKeepsShown(rows, m, split, top, key);
  }
}
