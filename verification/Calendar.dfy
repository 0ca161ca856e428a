/** Calendar dates: their count of days, and their text as `YYYY-MM-DD`. */
module Calendar {
  import opened Text
  import opened Sorting

  datatype Date = Date(year: int, month: nat, day: nat)

  predicate IsLeap(y: int) { y % 4 == 0 && (y % 100 != 0 || y % 400 == 0) }

  function DaysIn(y: int, m: nat): nat {
    if m == 2 then (if IsLeap(y) then 29 else 28)
    else if m == 4 || m == 6 || m == 9 || m == 11 then 30
    else 31
  }

  predicate Valid(d: Date) { 1 <= d.month <= 12 && 1 <= d.day <= DaysIn(d.year, d.month) }

  function Next(d: Date): Date {
    if d.day < DaysIn(d.year, d.month) then d.(day := d.day + 1)
    else if d.month < 12 then Date(d.year, d.month + 1, 1)
    else Date(d.year + 1, 1, 1)
  }

  function Previous(d: Date): Date
    requires Valid(d)
  {
    if d.day > 1 then d.(day := d.day - 1)
    else if d.month > 1 then Date(d.year, d.month - 1, DaysIn(d.year, d.month - 1))
    else Date(d.year - 1, 12, 31)
  }

  // -------------------------------------------------------------------------
  // Counting days
  // -------------------------------------------------------------------------

  /** Days before the year, leap days included. */
  function YearStart(y: int): int { 365 * y + (y - 1) / 4 - (y - 1) / 100 + (y - 1) / 400 }

  /** Days of the year before the month. */
  function MonthStart(y: int, m: nat): nat { if m <= 1 then 0 else MonthStart(y, m - 1) + DaysIn(y, m - 1) }

  function DayNumber(d: Date): int { YearStart(d.year) + MonthStart(d.year, d.month) + d.day }

  /** How many multiples a step of one passes; `q` and `r` are the quotient and remainder of `y`. */
  lemma StepOver(y: int, n: int, q: int, r: int, p: int, s: int)
    requires n > 0 && y == n * q + r && 0 <= r < n && y - 1 == n * p + s && 0 <= s < n
    ensures q - p == if r == 0 then 1 else 0
  {
    assert n * q - n * p == n * (q - p);
    assert q - p >= 2 ==> n * (q - p) >= 2 * n;
    assert q - p <= -1 ==> n * (q - p) <= -n;
    assert q - p == 1 ==> n * (q - p) == n;
    assert q - p == 0 ==> n * (q - p) == 0;
  }

  lemma Fours(y: int)
    ensures y / 4 - (y - 1) / 4 == if y % 4 == 0 then 1 else 0
  {
    StepOver(y, 4, y / 4, y % 4, (y - 1) / 4, (y - 1) % 4);
  }

  lemma Hundreds(y: int)
    ensures y / 100 - (y - 1) / 100 == if y % 100 == 0 then 1 else 0
  {
    StepOver(y, 100, y / 100, y % 100, (y - 1) / 100, (y - 1) % 100);
  }

  lemma FourHundreds(y: int)
    ensures y / 400 - (y - 1) / 400 == if y % 400 == 0 then 1 else 0
  {
    StepOver(y, 400, y / 400, y % 400, (y - 1) / 400, (y - 1) % 400);
  }

  lemma HundredsAreFours(y: int)
    requires y % 100 == 0
    ensures y % 4 == 0
  {
    assert y == 4 * (25 * (y / 100));
  }

  lemma FourHundredsAreHundreds(y: int)
    requires y % 400 == 0
    ensures y % 100 == 0
  {
    assert y == 100 * (4 * (y / 400));
  }

  lemma YearLength(y: int)
    ensures YearStart(y + 1) == YearStart(y) + if IsLeap(y) then 366 else 365
  {
    Fours(y);
    Hundreds(y);
    FourHundreds(y);
    if y % 100 == 0 { HundredsAreFours(y); }
    if y % 400 == 0 { FourHundredsAreHundreds(y); }
  }

  lemma MonthsOf(y: int)
    ensures MonthStart(y, 12) + 31 == if IsLeap(y) then 366 else 365
  {
    var f := if IsLeap(y) then 29 else 28;
    assert MonthStart(y, 1) == 0 && MonthStart(y, 2) == 31 && MonthStart(y, 3) == 31 + f;
    assert MonthStart(y, 4) == 62 + f && MonthStart(y, 5) == 92 + f && MonthStart(y, 6) == 123 + f;
    assert MonthStart(y, 7) == 153 + f && MonthStart(y, 8) == 184 + f && MonthStart(y, 9) == 215 + f;
    assert MonthStart(y, 10) == 245 + f && MonthStart(y, 11) == 276 + f && MonthStart(y, 12) == 306 + f;
  }

  /** Each day counts one more than the day before. */
  lemma NextCountsOne(d: Date)
    requires Valid(d)
    ensures Valid(Next(d)) && DayNumber(Next(d)) == DayNumber(d) + 1
  {
    if d.day == DaysIn(d.year, d.month) && d.month == 12 {
      YearLength(d.year);
      MonthsOf(d.year);
    }
  }

  lemma PreviousIsBefore(d: Date)
    requires Valid(d)
    ensures Valid(Previous(d)) && Next(Previous(d)) == d
    ensures DayNumber(Previous(d)) == DayNumber(d) - 1
  {
    NextCountsOne(Previous(d));
  }

  /** The calendar's own order: year, then month, then day. */
  predicate Earlier(a: Date, b: Date) {
    a.year < b.year || (a.year == b.year && (a.month < b.month || (a.month == b.month && a.day < b.day)))
  }

  lemma {:induction false} MonthsAdd(y: int, m: nat, n: nat)
    requires 1 <= m < n <= 12
    ensures MonthStart(y, m) + DaysIn(y, m) <= MonthStart(y, n)
    decreases n
  {
    if n > m + 1 { MonthsAdd(y, m, n - 1); }
  }

  lemma {:induction false} YearsAdd(y: int, z: int)
    requires y < z
    ensures YearStart(y) + (if IsLeap(y) then 366 else 365) <= YearStart(z)
    decreases z - y
  {
    YearLength(z - 1);
    if y < z - 1 { YearsAdd(y, z - 1); }
  }

  lemma YearBounds(d: Date)
    requires Valid(d)
    ensures YearStart(d.year) < DayNumber(d) <= YearStart(d.year) + if IsLeap(d.year) then 366 else 365
  {
    MonthsOf(d.year);
    if d.month < 12 { MonthsAdd(d.year, d.month, 12); }
  }

  /** Counting days keeps the calendar's order, so no two dates count the same. */
  lemma CountKeepsOrder(a: Date, b: Date)
    requires Valid(a) && Valid(b)
    ensures DayNumber(a) < DayNumber(b) <==> Earlier(a, b)
    ensures DayNumber(a) == DayNumber(b) <==> a == b
  {
    YearBounds(a);
    YearBounds(b);
    if a.year < b.year { YearsAdd(a.year, b.year); }
    if b.year < a.year { YearsAdd(b.year, a.year); }
    if a.year == b.year {
      if a.month < b.month { MonthsAdd(a.year, a.month, b.month); }
      if b.month < a.month { MonthsAdd(a.year, b.month, a.month); }
    }
  }

  /** The date `n` days on, or back when negative. */
  function AddDays(d: Date, n: int): (r: Date)
    requires Valid(d)
    ensures Valid(r) && DayNumber(r) == DayNumber(d) + n
    decreases if n < 0 then -n else n
  {
    if n > 0 then (NextCountsOne(d); AddDays(Next(d), n - 1))
    else if n < 0 then (PreviousIsBefore(d); AddDays(Previous(d), n + 1))
    else d
  }

  // -------------------------------------------------------------------------
  // Text
  // -------------------------------------------------------------------------

  /** A number in at least two digits. */
  function Pad2(n: nat): string { if n < 10 then "0" + Decimal(n) else Decimal(n) }

  function IsoDay(d: Date): string { Integer(d.year) + "-" + Pad2(d.month) + "-" + Pad2(d.day) }

  function Two(n: nat): string requires n < 100 { [Digit(n / 10), Digit(n % 10)] }

  lemma Pad2Two(n: nat)
    requires n < 100
    ensures Pad2(n) == Two(n)
  {
    assert n >= 10 ==> Decimal(n / 10) == [Digit(n / 10)];
    assert n < 10 ==> n / 10 == 0 && n % 10 == n && "0" + Decimal(n) == ['0', Digit(n)];
  }

  lemma FourDigits(y: int)
    requires 1000 <= y <= 9999
    ensures Integer(y) == Two(y / 100) + Two(y % 100)
  {
    assert Decimal(y) == Decimal(y / 10) + [Digit(y % 10)];
    assert Decimal(y / 10) == Decimal(y / 100) + [Digit(y / 10 % 10)];
    assert y / 10 / 10 == y / 100;
    assert Decimal(y / 100) == [Digit(y / 1000), Digit(y / 100 % 10)];
    assert y % 100 / 10 == y / 10 % 10 && y % 100 % 10 == y % 10;
  }

  lemma LeqHead(c: char, s: string, d: char, t: string)
    ensures StringLeq([c] + s, [d] + t) <==> c < d || (c == d && StringLeq(s, t))
  {
    assert ([c] + s)[1..] == s && ([d] + t)[1..] == t;
  }

  lemma TwoOrder(a: nat, s: string, b: nat, t: string)
    requires a < 100 && b < 100
    ensures StringLeq(Two(a) + s, Two(b) + t) <==> a < b || (a == b && StringLeq(s, t))
  {
    LeqHead(Digit(a % 10), s, Digit(b % 10), t);
    LeqHead(Digit(a / 10), [Digit(a % 10)] + s, Digit(b / 10), [Digit(b % 10)] + t);
    assert Two(a) + s == [Digit(a / 10)] + ([Digit(a % 10)] + s);
    assert Two(b) + t == [Digit(b / 10)] + ([Digit(b % 10)] + t);
  }

  lemma IsoParts(d: Date)
    requires Valid(d) && 1000 <= d.year <= 9999
    ensures IsoDay(d) == Two(d.year / 100) + (Two(d.year % 100) + (['-'] + (Two(d.month) + (['-'] + (Two(d.day) + "")))))
  {
    FourDigits(d.year);
    Pad2Two(d.month);
    Pad2Two(d.day);
  }

  /** In the years 1000 to 9999, the order of the texts is the order of the days. */
  lemma IsoOrderIsDayOrder(a: Date, b: Date)
    requires Valid(a) && Valid(b) && 1000 <= a.year <= 9999 && 1000 <= b.year <= 9999
    ensures StringLeq(IsoDay(a), IsoDay(b)) <==> DayNumber(a) <= DayNumber(b)
  {
    hide StringLeq, Two, DayNumber, IsoDay;
    CountKeepsOrder(a, b);
    IsoParts(a);
    IsoParts(b);
    TwoOrder(a.day, "", b.day, "");
    LeqHead('-', Two(a.day) + "", '-', Two(b.day) + "");
    TwoOrder(a.month, ['-'] + (Two(a.day) + ""), b.month, ['-'] + (Two(b.day) + ""));
    LeqHead('-', Two(a.month) + (['-'] + (Two(a.day) + "")), '-', Two(b.month) + (['-'] + (Two(b.day) + "")));
    TwoOrder(a.year % 100, ['-'] + (Two(a.month) + (['-'] + (Two(a.day) + ""))),
             b.year % 100, ['-'] + (Two(b.month) + (['-'] + (Two(b.day) + ""))));
    TwoOrder(a.year / 100, Two(a.year % 100) + (['-'] + (Two(a.month) + (['-'] + (Two(a.day) + "")))),
             b.year / 100, Two(b.year % 100) + (['-'] + (Two(b.month) + (['-'] + (Two(b.day) + "")))));
    StringLeqEmpty();
  }

  lemma StringLeqEmpty()
    ensures StringLeq("", "")
  {
  }

  /** The days of each month, February by the Gregorian rule; a month's last day is followed by the next month's first. */
  lemma MonthsAre(y: int)
    ensures DaysIn(y, 1) == DaysIn(y, 3) == DaysIn(y, 5) == DaysIn(y, 7) == DaysIn(y, 8) == DaysIn(y, 10) == DaysIn(y, 12) == 31
    ensures DaysIn(y, 4) == DaysIn(y, 6) == DaysIn(y, 9) == DaysIn(y, 11) == 30
    ensures y % 400 == 0 || (y % 4 == 0 && y % 100 != 0) ==> DaysIn(y, 2) == 29
    ensures y % 4 != 0 || (y % 100 == 0 && y % 400 != 0) ==> DaysIn(y, 2) == 28
    ensures Next(Date(y, 12, 31)) == Date(y + 1, 1, 1) && Next(Date(y, 4, 30)) == Date(y, 5, 1) && Next(Date(y, 1, 31)) == Date(y, 2, 1)
  {
  }
}
