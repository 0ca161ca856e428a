/** The chart told in the rows' own fields: what it is split by, what each part sums, and what it is compared with. */
module ChartRows {
  import opened Wrappers
  import opened Text
  import opened Sorting
  import opened Chart
  import D = DayRanges
  import C = Calendar

  /** The measures of the rows of some kind, added up. */
  function SumIf(rows: seq<Row>, m: Measure, kind: Row -> bool): real {
    if rows == [] then 0.0
    else SumIf(rows[..|rows| - 1], m, kind) + if kind(rows[|rows| - 1]) then Measured([rows[|rows| - 1]], m) else 0.0
  }

  lemma {:induction false} SameKind(rows: seq<Row>, m: Measure, p: Row -> bool, q: Row -> bool)
    requires forall r | r in rows :: p(r) == q(r)
    ensures SumIf(rows, m, p) == SumIf(rows, m, q)
  {
    hide Measured;
    if rows == [] {
    } else {
      assert rows[|rows| - 1] in rows;
      assert forall r | r in rows[..|rows| - 1] :: r in rows;
      SameKind(rows[..|rows| - 1], m, p, q);
    }
  }

  function Everyone(): Row -> bool { (r: Row) => true }

  function OfDay(day: string): Row -> bool { (r: Row) => r.day == day }

  function OfTenant(day: string, name: string): Row -> bool { (r: Row) => r.day == day && r.tenant == name }

  function OfModel(day: string, name: string): Row -> bool { (r: Row) => r.day == day && r.model == name }

  /** Rows of a day whose tenant, or model, is not among the shown. */
  function OtherTenants(day: string, shown: set<string>): Row -> bool { (r: Row) => r.day == day && r.tenant !in shown }

  function OtherModels(day: string, shown: set<string>): Row -> bool { (r: Row) => r.day == day && r.model !in shown }

  function InSeries(g: Grouping, id: string): Row -> bool { (r: Row) => IdOf(r, g) == id }

  function Both(day: string, kind: Row -> bool): Row -> bool { (r: Row) => r.day == day && kind(r) }

  lemma {:induction false} GroupSumIf(rows: seq<Row>, m: Measure, g: Grouping, id: string)
    ensures GroupSum(rows, m, g, id) == SumIf(rows, m, InSeries(g, id))
  {
    hide Measured, IdOf;
    if rows == [] {
    } else {
      GroupSumIf(rows[..|rows| - 1], m, g, id);
    }
  }

  lemma SumSnoc(rows: seq<Row>, last: Row, m: Measure, kind: Row -> bool)
    ensures SumIf(rows + [last], m, kind) == SumIf(rows, m, kind) + if kind(last) then Measured([last], m) else 0.0
  {
    hide Measured;
    assert (rows + [last])[..|rows|] == rows;
  }

  lemma {:induction false} SumOn(rows: seq<Row>, day: string, m: Measure, kind: Row -> bool)
    ensures SumIf(On(rows, day), m, kind) == SumIf(rows, m, Both(day, kind))
  {
    hide Measured, SumIf;
    if rows == [] {
      NoRows(m, kind);
      NoRows(m, Both(day, kind));
    } else {
      var front, last := rows[..|rows| - 1], rows[|rows| - 1];
      SumOn(front, day, m, kind);
      SumSnoc(On(front, day), last, m, kind);
      SumSnoc(front, last, m, Both(day, kind));
      assert rows == front + [last];
      assert On(rows, day) == if last.day == day then On(front, day) + [last] else On(front, day);
    }
  }

  lemma NoRows(m: Measure, kind: Row -> bool)
    ensures SumIf([], m, kind) == 0.0
  {
  }

  /** What a series of a day sums, by any description of its rows. */
  lemma SeriesOn(rows: seq<Row>, day: string, m: Measure, g: Grouping, id: string, kind: Row -> bool)
    requires forall r: Row :: kind(r) <==> r.day == day && IdOf(r, g) == id
    ensures GroupSum(On(rows, day), m, g, id) == SumIf(rows, m, kind)
  {
    hide Measured, IdOf, On, GroupSum, SumIf;
    GroupSumIf(On(rows, day), m, g, id);
    SumOn(rows, day, m, InSeries(g, id));
    SameKind(rows, m, Both(day, InSeries(g, id)), kind);
  }

  lemma {:induction false} MeasuredIsSum(rows: seq<Row>, m: Measure)
    requires m != OfTtft
    ensures Measured(rows, m) == SumIf(rows, m, Everyone())
  {
    hide Value;
    if rows == [] {
    } else {
      MeasuredIsSum(rows[..|rows| - 1], m);
      MeasureAdds(rows, m);
      ValueIs(rows[|rows| - 1], m);
    }
  }

  lemma ValueIs(r: Row, m: Measure)
    ensures Value(r, m) == Measured([r], m)
  {
  }

  // -------------------------------------------------------------------------
  // A day
  // -------------------------------------------------------------------------

  /** A day's figure sums the rows of that day; first token averages them. */
  lemma DayValue(d: ChartDay, i: nat, day: string, m: Measure, split: Split, rows: seq<Row>,
                 previous: Option<Previous>, splitRows: seq<Row>, top: set<string>)
    requires DayShows(d, i, day, m, split, rows, previous, splitRows, top)
    ensures d.day == day
    ensures m != OfTtft ==> d.value == SumIf(rows, m, OfDay(day))
  {
    hide Measured, SumIf;
    if m != OfTtft {
      MeasuredIsSum(On(rows, day), m);
      SumOn(rows, day, m, Everyone());
      SameKind(rows, m, Both(day, Everyone()), OfDay(day));
    }
  }

  lemma {:induction false} LastOnIs(rows: seq<Row>, day: string, k: nat)
    requires k < |rows| && rows[k].day == day && forall l | k < l < |rows| :: rows[l].day != day
    ensures LastOn(rows, day) == Some(rows[k])
  {
    if k < |rows| - 1 { LastOnIs(rows[..|rows| - 1], day, k); }
  }

  lemma {:induction false} NoneOn(rows: seq<Row>, day: string)
    requires forall r | r in rows :: r.day != day
    ensures LastOn(rows, day) == None
  {
    if rows == [] {
    } else {
      assert rows[|rows| - 1] in rows;
      assert forall r | r in rows[..|rows| - 1] :: r in rows;
      NoneOn(rows[..|rows| - 1], day);
    }
  }

  /**
   * A day is compared with the day at its place in the period before: the last
   * row of that day, or nothing spent, and with no figure past that period's end.
   */
  lemma DayBefore(d: ChartDay, i: nat, day: string, m: Measure, split: Split, rows: seq<Row>,
                  previous: Option<Previous>, splitRows: seq<Row>, top: set<string>)
    requires DayShows(d, i, day, m, split, rows, previous, splitRows, top)
    ensures d.previous.Some? <==> previous.Some? && i < |previous.value.days|
    ensures d.previous.Some? ==>
              var days, before := previous.value.days, previous.value.rows;
              && (forall k | 0 <= k < |before| && before[k].day == days[i] && (forall l | k < l < |before| :: before[l].day != days[i]) ::
                    d.previous == Some(Measured([before[k]], m)))
              && ((forall r | r in before :: r.day != days[i]) ==> d.previous == Some(0.0))
  {
    hide Measured, LastOn;
    if d.previous.Some? {
      var days, before := previous.value.days, previous.value.rows;
      forall k | 0 <= k < |before| && before[k].day == days[i] && (forall l | k < l < |before| :: before[l].day != days[i])
        ensures d.previous == Some(Measured([before[k]], m))
      {
        LastOnIs(before, days[i], k);
      }
      if forall r | r in before :: r.day != days[i] { NoneOn(before, days[i]); }
    }
  }

  /** The name a row is split by. */
  ghost predicate SplitBy(split: Split, r: Row, name: string) {
    match split
    case ByTenant => r.tenant == name
    case ByModel => r.model == name
    case NoSplit => false
  }

  /** A shown series' part sums the rows of that day with its tenant, or with its model. */
  lemma ShownPart(d: ChartDay, i: nat, day: string, m: Measure, split: Split, rows: seq<Row>,
                  previous: Option<Previous>, splitRows: seq<Row>, top: set<string>, name: string)
    requires DayShows(d, i, day, m, split, rows, previous, splitRows, top) && split != NoSplit && m != OfTtft
    requires name in top && name != "__rest"
    ensures name in d.parts <==> exists r :: r in splitRows && r.day == day && SplitBy(split, r, name)
    ensures name in d.parts && split == ByTenant ==> d.parts[name] == SumIf(splitRows, m, OfTenant(day, name))
    ensures name in d.parts && split == ByModel ==> d.parts[name] == SumIf(splitRows, m, OfModel(day, name))
  {
    hide Measured, On, GroupSum, SumIf;
    var g := Folded(split, top);
    OnAreRows(splitRows, day);
    match split
    case ByTenant => SeriesOn(splitRows, day, m, g, name, OfTenant(day, name));
    case ByModel => SeriesOn(splitRows, day, m, g, name, OfModel(day, name));
  }

  /** The rest sums the rows of that day whose tenant, or model, is not shown. */
  lemma RestPart(d: ChartDay, i: nat, day: string, m: Measure, split: Split, rows: seq<Row>,
                 previous: Option<Previous>, splitRows: seq<Row>, top: set<string>)
    requires DayShows(d, i, day, m, split, rows, previous, splitRows, top) && split != NoSplit && m != OfTtft && "__rest" !in top
    ensures "__rest" in d.parts <==>
              exists r :: r in splitRows && r.day == day && (if split == ByTenant then r.tenant else r.model) !in top
    ensures "__rest" in d.parts && split == ByTenant ==> d.parts["__rest"] == SumIf(splitRows, m, OtherTenants(day, top))
    ensures "__rest" in d.parts && split == ByModel ==> d.parts["__rest"] == SumIf(splitRows, m, OtherModels(day, top))
  {
    hide Measured, On, GroupSum, SumIf;
    var g := Folded(split, top);
    OnAreRows(splitRows, day);
    match split
    case ByTenant => SeriesOn(splitRows, day, m, g, REST, OtherTenants(day, top));
    case ByModel => SeriesOn(splitRows, day, m, g, REST, OtherModels(day, top));
  }

  // -------------------------------------------------------------------------
  // The chart
  // -------------------------------------------------------------------------

  /** The chart shows the listed days from the first of the range on, in order, and is split only by tenant or model and never by first token. */
  lemma ChartIs(out: seq<ChartDay>, series: seq<Series>, range: D.Range, m: Measure, split: Split, rows: seq<Row>,
                previous: Option<Before>, splitRows: seq<Row>, labelFor: Row -> string)
    requires D.FourDigitYears(range) && ShownYears(previous) && IsChart(out, series, range, m, split, rows, previous, splitRows, labelFor)
    ensures |out| == D.Listed(range) && forall i | 0 <= i < |out| :: out[i].day == C.IsoDay(C.AddDays(range.start, i))
    ensures split == NoSplit || m == OfTtft ==> series == [] && forall d | d in out :: d.parts == map[]
    ensures split != NoSplit && m != OfTtft ==> series == SeriesOf(Ranked(splitRows, m, split, labelFor))
    ensures forall i | 0 <= i < |out| :: out[i].previous.Some? <==> previous.Some? && i < D.Listed(previous.value.range)
  {
    hide DayShows, TopIds, SeriesOf, Ranked;
    forall i | 0 <= i < |out|
      ensures out[i].day == C.IsoDay(C.AddDays(range.start, i))
      ensures split == NoSplit || m == OfTtft ==> out[i].parts == map[]
      ensures out[i].previous.Some? <==> previous.Some? && i < D.Listed(previous.value.range)
    {
      DayOf(out[i], i, DaysOf(range)[i], m, split, rows, PreviousOf(previous), splitRows, TopIds(Ranked(splitRows, m, split, labelFor)));
    }
  }

  lemma DayOf(d: ChartDay, i: nat, day: string, m: Measure, split: Split, rows: seq<Row>,
              previous: Option<Previous>, splitRows: seq<Row>, top: set<string>)
    requires DayShows(d, i, day, m, split, rows, previous, splitRows, top)
    ensures d.day == day
    ensures split == NoSplit || m == OfTtft ==> d.parts == map[]
    ensures d.previous.Some? <==> previous.Some? && i < |previous.value.days|
  {
    hide Measured, SumsTo, On, LastOn;
  }

  // -------------------------------------------------------------------------
  // The legend
  // -------------------------------------------------------------------------

  lemma {:induction false} LabelIs(rows: seq<Row>, split: Split, key: string, labelFor: Row -> string, k: nat)
    requires k < |rows| && KeyOf(rows[k], split) == key && forall l | 0 <= l < k :: KeyOf(rows[l], split) != key
    ensures LabelOf(rows, split, key, labelFor) == labelFor(rows[k])
  {
    if k > 0 { LabelIs(rows[1..], split, key, labelFor, k - 1); }
  }

  function Named(split: Split, name: string): Row -> bool {
    (r: Row) => match split case ByTenant => r.tenant == name case ByModel => r.model == name case NoSplit => false
  }

  /** The names rows are split by. */
  function Names(rows: seq<Row>, split: Split): set<string> {
    match split
    case ByTenant => set r | r in rows :: r.tenant
    case ByModel => set r | r in rows :: r.model
    case NoSplit => {}
  }

  lemma TotalNamed(rows: seq<Row>, m: Measure, split: Split, name: string)
    requires split != NoSplit
    ensures GroupSum(rows, m, Keys(split), name) == SumIf(rows, m, Named(split, name))
  {
    hide Measured, GroupSum, SumIf;
    GroupSumIf(rows, m, Keys(split), name);
    SameKind(rows, m, InSeries(Keys(split), name), Named(split, name));
  }

  lemma KeysAreNames(rows: seq<Row>, split: Split)
    requires split != NoSplit
    ensures forall k :: k in KeysOf(rows, split) <==> k in Names(rows, split)
    ensures |KeysOf(rows, split)| == |Names(rows, split)|
  {
    var keys, names := KeysOf(rows, split), Names(rows, split);
    forall k ensures k in keys <==> k in names {
      if k in keys { var r :| r in rows && KeyOf(r, split) == k; }
    }
    CountDistinct(keys, names);
  }

  lemma {:induction false} CountDistinct(keys: seq<string>, names: set<string>)
    requires Distinct(keys) && forall k :: k in keys <==> k in names
    ensures |keys| == |names|
  {
    if keys == [] {
      assert names == {};
    } else {
      assert forall k :: k in keys <==> k == keys[0] || k in keys[1..];
      assert keys[0] !in keys[1..];
      CountDistinct(keys[1..], names - {keys[0]});
    }
  }

  const TONES: seq<string> := ["hsl(240 5% 88%)", "hsl(240 4% 66%)", "hsl(240 4% 50%)", "hsl(240 4% 38%)"]

  /**
   * The legend names the four tenants, or models, of the largest sums, largest
   * first, each labelled by its first row and toned by its place; beyond four
   * it counts the others under the rest.
   */
  lemma LegendIs(splitRows: seq<Row>, m: Measure, split: Split, labelFor: Row -> string)
    requires split != NoSplit
    ensures var series, n := SeriesOf(Ranked(splitRows, m, split, labelFor)), |Names(splitRows, split)|;
            && |series| == (if n <= 4 then n else 5)
            && (n > 4 ==> series[4] == Series("__rest", Decimal(n - 4) + " more", "hsl(240 4% 24%)"))
            && (forall p | 0 <= p < |series| && p < 4 :: series[p].id in Names(splitRows, split) && series[p].color == TONES[p])
            && (forall p, k | 0 <= p < |series| && p < 4 && IsFirst(splitRows, k, Named(split, series[p].id)) ::
                  series[p].name == labelFor(splitRows[k]))
            && (forall p, q | 0 <= p < q < |series| && q < 4 ::
                  series[p].id != series[q].id
                  && SumIf(splitRows, m, Named(split, series[p].id)) >= SumIf(splitRows, m, Named(split, series[q].id)))
  {
    hide Measured, GroupSum, SumIf, KeysOf, LabelOf, Ranked, Names;
    var ranked, keys := Ranked(splitRows, m, split, labelFor), KeysOf(splitRows, split);
    RankedIds(splitRows, m, split, labelFor);
    RankedLength(splitRows, m, split, labelFor);
    KeysAreNames(splitRows, split);
    forall p | 0 <= p < |ranked|
      ensures ranked[p].id in Names(splitRows, split)
      ensures ranked[p].value == SumIf(splitRows, m, Named(split, ranked[p].id))
      ensures forall k | IsFirst(splitRows, k, Named(split, ranked[p].id)) :: ranked[p].name == labelFor(splitRows[k])
    {
      RankedIsKey(splitRows, m, split, labelFor, p);
      TotalNamed(splitRows, m, split, ranked[p].id);
      forall k | IsFirst(splitRows, k, Named(split, ranked[p].id)) ensures ranked[p].name == labelFor(splitRows[k]) {
        LabelIs(splitRows, split, ranked[p].id, labelFor, k);
      }
    }
  }

  /** The first row of a kind. */
  ghost predicate IsFirst(rows: seq<Row>, k: int, kind: Row -> bool) {
    0 <= k < |rows| && kind(rows[k]) && forall l | 0 <= l < k :: !kind(rows[l])
  }

  lemma RankedLength(rows: seq<Row>, m: Measure, split: Split, labelFor: Row -> string)
    ensures |Ranked(rows, m, split, labelFor)| == |KeysOf(rows, split)|
  {
    var entries := Entries(rows, m, split, labelFor);
    SortSorts(entries, LargerFirst);
    assert |multiset(entries)| == |entries|;
    assert |multiset(Ranked(rows, m, split, labelFor))| == |Ranked(rows, m, split, labelFor)|;
  }

  lemma RankedIsKey(rows: seq<Row>, m: Measure, split: Split, labelFor: Row -> string, p: nat)
    requires p < |Ranked(rows, m, split, labelFor)|
    ensures Ranked(rows, m, split, labelFor)[p].id in KeysOf(rows, split)
  {
    hide EntryOf, KeysOf;
    var entries, ranked := Entries(rows, m, split, labelFor), Ranked(rows, m, split, labelFor);
    SortSorts(entries, LargerFirst);
    SameElements(ranked, entries);
    assert ranked[p] in entries;
    var i :| 0 <= i < |entries| && entries[i] == ranked[p];
    EntryId(rows, m, split, labelFor, KeysOf(rows, split)[i]);
  }

  /** A name left out sums no more than any shown. */
  lemma OthersAreNoLarger(splitRows: seq<Row>, m: Measure, split: Split, labelFor: Row -> string, name: string, shown: string)
    requires split != NoSplit && name in Names(splitRows, split)
    requires var top := TopIds(Ranked(splitRows, m, split, labelFor)); name !in top && shown in top
    ensures SumIf(splitRows, m, Named(split, name)) <= SumIf(splitRows, m, Named(split, shown))
  {
    hide Ranked, SumIf, GroupSum, KeysOf, Names;
    KeysAreNames(splitRows, split);
    FoldedAreNoLarger(splitRows, m, split, labelFor, name);
    TotalNamed(splitRows, m, split, name);
    TotalNamed(splitRows, m, split, shown);
  }
}
