/** Report date ranges: every day of one, its length, and the period before. */
module DayRanges {
  import opened Text
  import opened Sorting
  import opened Calendar

  /** Both ends are part of the range. */
  datatype Range = Range(start: Date, end: Date)

  const DAY_MS: int := 86400000
  const CAP: nat := 400
  const LAST_DAY: Date := Date(9999, 12, 31)

  ghost predicate FourDigitYears(r: Range) {
    && Valid(r.start) && Valid(r.end)
    && 1000 <= r.start.year <= 9999 && 1000 <= r.end.year <= 9999
  }

  /** The days from the first on, as text. */
  function DayTexts(start: Date, n: nat): seq<string>
    requires Valid(start)
  {
    seq(n, i requires 0 <= i < n => IsoDay(AddDays(start, i)))
  }

  /** How many days the loop lists. */
  function Listed(r: Range): nat
    requires FourDigitYears(r)
  {
    var n := DayNumber(r.end) - DayNumber(r.start) + 1;
    if n <= 0 then 0 else if n > CAP || r.end == LAST_DAY then CAP else n
  }

  /** Every day in the range, oldest first, comparing days as texts. */
  method EachDay(r: Range) returns (out: seq<string>)
    requires FourDigitYears(r)
    ensures out == DayTexts(r.start, Listed(r))
  {
    hide IsoDay, StringLeq, DayNumber;
    out := [];
    var d := r.start;
    var end := IsoDay(r.end);
    while StringLeq(IsoDay(d), end) && |out| < CAP
      invariant |out| <= Listed(r)
      invariant d == AddDays(r.start, |out|) && out == DayTexts(r.start, |out|)
      decreases CAP - |out|
    {
      InRange(r, |out|);
      out := out + [IsoDay(d)];
      OneMore(r.start, |out| - 1);
      d := Next(d);
    }
    InRange(r, |out|);
  }

  lemma OneMore(d: Date, n: nat)
    requires Valid(d)
    ensures AddDays(d, n + 1) == Next(AddDays(d, n))
    decreases n
  {
    NextCountsOne(d);
    if n > 0 { OneMore(Next(d), n - 1); }
  }

  /** The loop's test, after `n` days, is whether there are more to list. */
  lemma InRange(r: Range, n: nat)
    requires FourDigitYears(r) && n <= Listed(r)
    ensures StringLeq(IsoDay(AddDays(r.start, n)), IsoDay(r.end)) && n < CAP <==> n < Listed(r)
  {
    hide IsoDay, StringLeq, DayNumber;
    var d := AddDays(r.start, n);
    if n < CAP {
      DaysBounded(r);
      CountKeepsOrder(d, r.end);
      CountKeepsOrder(d, LAST_DAY);
      CountKeepsOrder(r.start, r.end);
      CountKeepsOrder(r.start, d);
      if d.year <= 9999 {
        IsoOrderIsDayOrder(d, r.end);
      } else {
        assert r.end == LAST_DAY by { CountKeepsOrder(r.end, LAST_DAY); }
        FarYear(d, n, r.start);
      }
    }
  }

  lemma DaysBounded(r: Range)
    requires FourDigitYears(r)
    ensures DayNumber(r.end) <= DayNumber(LAST_DAY)
  {
    CountKeepsOrder(r.end, LAST_DAY);
    CountKeepsOrder(LAST_DAY, r.end);
  }

  /** A day past 9999 still reads as before the last day of 9999. */
  lemma FarYear(d: Date, n: nat, start: Date)
    requires Valid(d) && Valid(start) && start.year <= 9999 && n <= CAP && d == AddDays(start, n) && d.year > 9999
    ensures StringLeq(IsoDay(d), IsoDay(LAST_DAY))
  {
    CountKeepsOrder(start, LAST_DAY);
    CountKeepsOrder(d, Date(10002, 1, 1));
    LateCount();
    var s, t := IsoDay(d), IsoDay(LAST_DAY);
    FiveDigits(d.year);
    assert t[0] == '9' by { IsoParts(LAST_DAY); }
    assert s[0] == '1';
  }

  lemma LateCount()
    ensures DayNumber(Date(10002, 1, 1)) > DayNumber(LAST_DAY) + CAP
  {
    YearLength(9999);
    YearLength(10000);
    YearLength(10001);
    MonthsOf(9999);
    assert MonthStart(10002, 1) == 0;
  }

  lemma FiveDigits(y: int)
    requires 10000 <= y < 20000
    ensures Integer(y) != "" && Integer(y)[0] == '1'
  {
    assert Decimal(y / 10000) == "1";
    assert y / 1000 / 10 == y / 10000 && y / 100 / 10 == y / 1000 && y / 10 / 10 == y / 100;
    assert Decimal(y / 1000)[0] == '1';
    assert Decimal(y / 100)[0] == '1';
    assert Decimal(y / 10)[0] == '1';
  }

  /**
   * The list is the range's days, each once and in order, exactly when there
   * are at most 400 of them and the range does not end on the last day of
   * 9999, whose text stays above every later year's.
   */
  lemma EachDayListsRange(r: Range)
    requires FourDigitYears(r) && DayNumber(r.start) <= DayNumber(r.end)
    ensures var n := DayNumber(r.end) - DayNumber(r.start) + 1;
            Listed(r) == n <==> n <= 400 && (r.end == Date(9999, 12, 31) ==> n == 400)
    ensures Listed(r) <= 400
    ensures forall i, j | 0 <= i < j < Listed(r) :: Earlier(AddDays(r.start, i), AddDays(r.start, j))
  {
    hide DayNumber;
    forall i, j | 0 <= i < j < Listed(r) ensures Earlier(AddDays(r.start, i), AddDays(r.start, j)) {
      CountKeepsOrder(AddDays(r.start, i), AddDays(r.start, j));
    }
  }

  // -------------------------------------------------------------------------
  // Length, and the period before
  // -------------------------------------------------------------------------

  /** Halves round up, as the runtime rounds. */
  function Round(n: int, unit: int): int
    requires unit > 0
  {
    (2 * n + unit) / (2 * unit)
  }

  /** The instant of a date's midnight, given the zone's offset there. */
  function Midnight(d: Date, offset: int): int { DAY_MS * DayNumber(d) - offset }

  /** How many days a range has, from the instants of its two midnights. */
  function DaysBetween(r: Range, startOffset: int, endOffset: int): int {
    Round(Midnight(r.end, endOffset) - Midnight(r.start, startOffset), DAY_MS) + 1
  }

  /** The count is exact just when the zone's offset moved by less than half a day. */
  lemma DaysBetweenExact(r: Range, startOffset: int, endOffset: int)
    ensures DaysBetween(r, startOffset, endOffset) == DayNumber(r.end) - DayNumber(r.start) + 1
       <==> -86400000 <= 2 * (startOffset - endOffset) < 86400000
  {
    hide DayNumber;
    var n, m := DayNumber(r.end) - DayNumber(r.start), startOffset - endOffset;
    var x := Midnight(r.end, endOffset) - Midnight(r.start, startOffset);
    assert x == DAY_MS * n + m;
    RoundsTo(n, m);
  }

  lemma RoundsTo(n: int, m: int)
    ensures Round(DAY_MS * n + m, DAY_MS) == n <==> -DAY_MS <= 2 * m < DAY_MS
  {
  }

  function BeforeRange(r: Range, startOffset: int, endOffset: int): Range
    requires Valid(r.start)
  {
    var n := DaysBetween(r, startOffset, endOffset);
    Range(AddDays(r.start, -n), AddDays(r.start, -1))
  }

  /**
   * The period before ends the day before and has as many days as were counted,
   * which is as many as the range exactly while the offset is steady.
   */
  lemma BeforeRangeAdjoins(r: Range, startOffset: int, endOffset: int)
    requires Valid(r.start) && Valid(r.end)
    ensures var p := BeforeRange(r, startOffset, endOffset);
            && Valid(p.start) && Valid(p.end) && Next(p.end) == r.start
            && DayNumber(p.end) - DayNumber(p.start) + 1 == DaysBetween(r, startOffset, endOffset)
            && (DayNumber(p.end) - DayNumber(p.start) == DayNumber(r.end) - DayNumber(r.start)
                <==> -86400000 <= 2 * (startOffset - endOffset) < 86400000)
  {
    hide DayNumber;
    DaysBetweenExact(r, startOffset, endOffset);
    var e := AddDays(r.start, -1);
    NextCountsOne(e);
    CountKeepsOrder(Next(e), r.start);
  }

  /** The same days of the month before, or all of it. */
  function BeforeMonth(r: Range, whole: bool): Range {
    var y := if r.start.month == 1 then r.start.year - 1 else r.start.year;
    var m := if r.start.month <= 1 then 12 else r.start.month - 1;
    var last := DaysIn(y, m);
    Range(Date(y, m, 1), Date(y, m, if whole || r.end.day > last then last else r.end.day))
  }

  /** A month's period before is in the month before; the whole of it ends the day before the month starts. */
  lemma BeforeMonthAdjoins(r: Range, whole: bool)
    requires Valid(r.start) && Valid(r.end) && r.start.day == 1
    ensures var p := BeforeMonth(r, whole);
            && Valid(p.start) && Valid(p.end) && p.start.day == 1
            && p.start.year == p.end.year && p.start.month == p.end.month
            && Next(Date(p.start.year, p.start.month, DaysIn(p.start.year, p.start.month))) == r.start
            && (whole ==> Next(p.end) == r.start)
            && (!whole ==> p.end.day == r.end.day || (p.end.day < r.end.day && Next(p.end) == r.start))
  {
  }
}
