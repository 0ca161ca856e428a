/**
 * Wall-clock times in a zone and the instants they stand for. A zone is its
 * offset from UTC at every instant.
 */
module ZonedTime {
  import opened Wrappers
  import opened Text
  import opened Calendar

  const SECOND: int := 1000
  const MINUTE: int := 60000
  const DAY: int := 86400000

  /** A wall-clock time to the minute. */
  datatype Wall = Wall(date: Date, hour: nat, minute: nat)

  predicate ValidWall(w: Wall) { Valid(w.date) && w.hour < 24 && w.minute < 60 }

  const EPOCH: Date := Date(1970, 1, 1)

  /** The clock reading in milliseconds, as if it were UTC. */
  function WallMs(w: Wall): int {
    (DayNumber(w.date) - DayNumber(EPOCH)) * DAY + w.hour * 3600000 + w.minute * MINUTE
  }

  /** The wall clock at a reading, seconds dropped. */
  function WallOf(ms: int): Wall {
    var days, rest := ms / DAY, ms % DAY;
    Wall(AddDays(EPOCH, days), rest / 3600000, rest % 3600000 / MINUTE)
  }

  lemma WallOfWallMs(w: Wall)
    requires ValidWall(w)
    ensures WallOf(WallMs(w)) == w
  {
    hide DayNumber;
    var n := DayNumber(w.date) - DayNumber(EPOCH);
    var rest := w.hour * 3600000 + w.minute * MINUTE;
    var ms := WallMs(w);
    assert 0 <= rest < DAY && ms == n * DAY + rest;
    assert ms / DAY == n && ms % DAY == rest;
    assert rest / 3600000 == w.hour && rest % 3600000 / MINUTE == w.minute;
    CountKeepsOrder(AddDays(EPOCH, n), w.date);
  }

  /** The offset at an instant; zones keep whole seconds. */
  type Zone = int -> int

  ghost predicate WholeSeconds(zone: Zone) { forall t :: zone(t) % SECOND == 0 }

  /** What the zone's clock shows at an instant, as if it were UTC. */
  function Shown(zone: Zone, t: int): int { (t + zone(t)) / SECOND * SECOND }

  /** The instant for a wall-clock reading: a first guess, corrected twice. */
  method ZonedToUtc(guess: int, zone: Zone) returns (t: int)
    requires WholeSeconds(zone) && guess % SECOND == 0
    ensures t == Corrected(guess, zone)
  {
    hide Shown;
    t := guess;
    for i := 0 to 2
      invariant i < 2 ==> t % SECOND == 0
      invariant i == 1 ==> t == guess - zone(guess)
      invariant i == 2 ==> t == Corrected(guess, zone)
      invariant i == 0 ==> t == guess
    {
      ShownWhole(zone, t);
      t := t + (guess - Shown(zone, t));
    }
  }

  lemma ShownWhole(zone: Zone, t: int)
    requires WholeSeconds(zone) && t % SECOND == 0
    ensures Shown(zone, t) == t + zone(t)
    ensures forall g | g % SECOND == 0 :: (g - zone(t)) % SECOND == 0
  {
    assert zone(t) % SECOND == 0;
  }

  function Corrected(guess: int, zone: Zone): int { guess - zone(guess - zone(guess)) }

  /**
   * Near a reading the offset changes at most once: from `a` to `b` at instant
   * `at`, over every instant the reading could stand for.
   */
  ghost predicate OneChange(zone: Zone, guess: int, a: int, b: int, at: int) {
    forall t | t == guess || t == guess - a || t == guess - b :: zone(t) == if t < at then a else b
  }

  /** Both offsets the zone takes are seen by the two corrections, so no instant elsewhere shows the reading. */
  ghost predicate OffsetsNear(zone: Zone, guess: int, a: int, b: int) {
    forall t | t + zone(t) == guess :: zone(t) == a || zone(t) == b
  }

  /** Two corrections find an instant that shows the reading whenever some instant does. */
  lemma TwoCorrectionsEnough(guess: int, zone: Zone, a: int, b: int, at: int)
    requires OneChange(zone, guess, a, b, at) && OffsetsNear(zone, guess, a, b)
    ensures var t := Corrected(guess, zone);
            t + zone(t) == guess <==> exists s :: s + zone(s) == guess
  {
    var t := Corrected(guess, zone);
    if s :| s + zone(s) == guess {
      assert zone(guess - a) == if guess - a < at then a else b;
      assert zone(guess - b) == if guess - b < at then a else b;
      assert zone(guess) == if guess < at then a else b;
    }
  }

  /** It misses exactly the readings a forward change skips. */
  lemma MissesExactlyTheGap(guess: int, zone: Zone, a: int, b: int, at: int)
    requires OneChange(zone, guess, a, b, at) && OffsetsNear(zone, guess, a, b)
    ensures var t := Corrected(guess, zone);
            t + zone(t) != guess <==> at + a <= guess < at + b
  {
    assert zone(guess - a) == if guess - a < at then a else b;
    assert zone(guess - b) == if guess - b < at then a else b;
    assert zone(guess) == if guess < at then a else b;
  }

  /** A reading has no seconds, and so neither has any time the corrections pass through. */
  lemma ReadingsAreWhole(w: Wall)
    ensures WallMs(w) % SECOND == 0
  {
    hide DayNumber;
    var n := DayNumber(w.date) - DayNumber(EPOCH);
    assert WallMs(w) == (n * 86400 + w.hour * 3600 + w.minute * 60) * SECOND;
  }

  lemma Corrections(guess: int, zone: Zone)
    requires WholeSeconds(zone) && guess % SECOND == 0
    ensures var t := Corrected(guess, zone); Shown(zone, t) == t + zone(t)
  {
    var t := Corrected(guess, zone);
    assert zone(guess - zone(guess)) % SECOND == 0 && zone(t) % SECOND == 0;
  }

  /** The clock shows a minute exactly during that minute. */
  lemma WallShownForAMinute(ms: int, w: Wall)
    requires ValidWall(w)
    ensures WallOf(ms) == w <==> WallMs(w) <= ms < WallMs(w) + MINUTE
  {
    hide DayNumber;
    assert Valid(EPOCH);
    var days, rest := ms / DAY, ms % DAY;
    var n := DayNumber(w.date) - DayNumber(EPOCH);
    var minutes := w.hour * 60 + w.minute;
    assert ms == days * DAY + rest && 0 <= rest < DAY;
    assert WallMs(w) == n * DAY + minutes * MINUTE && 0 <= minutes < 1440;
    assert (rest / 3600000 == w.hour && rest % 3600000 / MINUTE == w.minute) <==> minutes * MINUTE <= rest < minutes * MINUTE + MINUTE;
    WallOfWallMs(w);
    if days == n {
      assert WallOf(ms).date == AddDays(EPOCH, n) == WallOf(WallMs(w)).date;
    } else {
      assert DayNumber(AddDays(EPOCH, days)) == DayNumber(EPOCH) + days;
      assert days < n ==> ms < WallMs(w);
      assert days > n ==> ms >= WallMs(w) + MINUTE;
    }
  }

  /** Inside the skipped gap the corrected instant shows the reading moved by the whole jump, to one side of it. */
  lemma GapShowsTheJump(guess: int, zone: Zone, a: int, b: int, at: int)
    requires OneChange(zone, guess, a, b, at) && at + a <= guess < at + b
    ensures var t := Corrected(guess, zone); t + zone(t) == guess + (b - a) || t + zone(t) == guess - (b - a)
  {
    assert zone(guess - a) == if guess - a < at then a else b;
    assert zone(guess - b) == if guess - b < at then a else b;
    assert zone(guess) == if guess < at then a else b;
  }

  // -------------------------------------------------------------------------
  // The form's text
  // -------------------------------------------------------------------------

  /** A wall-clock time as the form shows it. */
  function FormText(w: Wall): string { IsoDay(w.date) + ("T" + Pad2(w.hour) + ":" + Pad2(w.minute)) }

  predicate IsDigit(c: char) { '0' <= c <= '9' }

  function DigitAt(s: string, i: nat): nat
    requires i < |s| && IsDigit(s[i])
  {
    s[i] as int - '0' as int
  }

  function TwoAt(s: string, i: nat): nat
    requires i + 1 < |s| && IsDigit(s[i]) && IsDigit(s[i + 1])
  {
    10 * DigitAt(s, i) + DigitAt(s, i + 1)
  }

  predicate HasShape(s: string) {
    && |s| == 16
    && (forall i | i in [0, 1, 2, 3, 5, 6, 8, 9, 11, 12, 14, 15] :: IsDigit(s[i]))
    && s[4] == '-' && s[7] == '-' && s[10] == 'T' && s[13] == ':'
  }

  /** The time a form's text stands for. */
  function ReadForm(s: string): Option<Wall> {
    if !HasShape(s) then None
    else Some(Wall(Date(100 * TwoAt(s, 0) + TwoAt(s, 2), TwoAt(s, 5), TwoAt(s, 8)), TwoAt(s, 11), TwoAt(s, 14)))
  }

  lemma {:induction false} DecimalLength(n: nat)
    ensures |Decimal(n)| >= if n >= 10000 then 5 else if n >= 1000 then 4 else 1
    ensures n < 1000 ==> |Decimal(n)| <= 3
  {
    if n >= 10 { DecimalLength(n / 10); }
  }

  lemma TwoRead(n: nat, s: string, i: nat)
    requires n < 100 && i + 1 < |s| && s[i..i + 2] == Two(n)
    ensures IsDigit(s[i]) && IsDigit(s[i + 1]) && TwoAt(s, i) == n
  {
    assert s[i] == s[i..i + 2][0] && s[i + 1] == s[i..i + 2][1];
  }

  /** The text reads back as the time it shows exactly in the years of four digits, and otherwise not at all. */
  lemma FormTextReads(w: Wall)
    requires ValidWall(w)
    ensures ReadForm(FormText(w)) == if 1000 <= w.date.year <= 9999 then Some(w) else None
  {
    hide Decimal;
    var s, y := FormText(w), w.date.year;
    Pad2Two(w.hour);
    Pad2Two(w.minute);
    if 1000 <= y <= 9999 {
      IsoParts(w.date);
      FormParts(s, w);
    } else {
      Pad2Two(w.date.month);
      Pad2Two(w.date.day);
      DecimalLength(if y < 0 then -y else y);
      assert |s| == |Integer(y)| + 12;
      assert y < 0 ==> s[0] == '-';
    }
  }

  lemma FormParts(s: string, w: Wall)
    requires ValidWall(w) && 1000 <= w.date.year <= 9999
    requires var d := w.date;
             s == Two(d.year / 100) + (Two(d.year % 100) + (['-'] + (Two(d.month) + (['-'] + (Two(d.day) + "")))))
               + ("T" + Two(w.hour) + ":" + Two(w.minute))
    ensures ReadForm(s) == Some(w)
  {
    hide Two, TwoAt;
    var d := w.date;
    TwoLong(d.year / 100);
    TwoLong(d.year % 100);
    TwoLong(d.month);
    TwoLong(d.day);
    TwoLong(w.hour);
    TwoLong(w.minute);
    SixParts(s, Two(d.year / 100), Two(d.year % 100), Two(d.month), Two(d.day), Two(w.hour), Two(w.minute));
    TwoRead(d.year / 100, s, 0);
    TwoRead(d.year % 100, s, 2);
    TwoRead(d.month, s, 5);
    TwoRead(d.day, s, 8);
    TwoRead(w.hour, s, 11);
    TwoRead(w.minute, s, 14);
  }

  lemma TwoLong(n: nat)
    requires n < 100
    ensures |Two(n)| == 2
  {
  }

  lemma SixParts(s: string, a: string, b: string, c: string, d: string, e: string, f: string)
    requires |a| == |b| == |c| == |d| == |e| == |f| == 2
    requires s == a + (b + (['-'] + (c + (['-'] + (d + ""))))) + ("T" + e + ":" + f)
    ensures |s| == 16 && s[4] == '-' && s[7] == '-' && s[10] == 'T' && s[13] == ':'
    ensures s[0..2] == a && s[2..4] == b && s[5..7] == c && s[8..10] == d && s[11..13] == e && s[14..16] == f
  {
  }

  lemma WallIsValid(ms: int)
    ensures ValidWall(WallOf(ms))
  {
    hide DayNumber;
    var rest := ms % DAY;
    assert rest / 3600000 < 24 && rest % 3600000 / MINUTE < 60;
  }

  /**
   * A time set on the form shows on it again exactly when the zone's clock
   * ever shows it, for a change of a minute or more; its text does so only in
   * the years of four digits.
   */
  lemma FormTimeRoundTrip(w: Wall, zone: Zone, a: int, b: int, at: int)
    requires ValidWall(w) && WholeSeconds(zone)
    requires a == b || b - a >= MINUTE || a - b >= MINUTE
    requires OneChange(zone, WallMs(w), a, b, at) && OffsetsNear(zone, WallMs(w), a, b)
    ensures WallOf(Shown(zone, Corrected(WallMs(w), zone))) == w <==> !(at + a <= WallMs(w) < at + b)
    ensures ReadForm(FormText(WallOf(Shown(zone, Corrected(WallMs(w), zone))))) == Some(w)
       <==> !(at + a <= WallMs(w) < at + b) && 1000 <= w.date.year <= 9999
  {
    hide FormText, ReadForm, ValidWall, WallOf, WallMs, Shown, Corrected, OneChange, OffsetsNear;
    var guess := WallMs(w);
    ReadingsAreWhole(w);
    MissesExactlyTheGap(guess, zone, a, b, at);
    Corrections(guess, zone);
    WallShownForAMinute(Shown(zone, Corrected(guess, zone)), w);
    if at + a <= guess < at + b {
      GapShowsTheJump(guess, zone, a, b, at);
    }
    WallIsValid(Shown(zone, Corrected(guess, zone)));
    FormTextReads(WallOf(Shown(zone, Corrected(guess, zone))));
  }

  /** A reading counts its minutes of 60,000 milliseconds from midnight on 1970-01-01, whole days by the calendar. */
  lemma ReadingIs(w: Wall)
    ensures WallMs(Wall(Date(1970, 1, 1), 0, 0)) == 0
    ensures WallMs(w) == WallMs(Wall(w.date, 0, 0)) + 60000 * (60 * w.hour + w.minute)
    ensures Valid(w.date) ==> WallMs(Wall(Next(w.date), w.hour, w.minute)) == WallMs(w) + 24 * 60 * 60000
  {
    hide DayNumber;
    if Valid(w.date) { NextCountsOne(w.date); }
  }
}
