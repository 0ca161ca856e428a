/**
 * A tenant's weekly hours: a list of windows, and the week grid of half-hour
 * cells the form edits it on.
 */
module AccessHours {
  import opened Wrappers

  /** Open on `day` (Sunday is 0) from minute `start` up to minute `end`. */
  datatype Window = Window(day: nat, start: int, end: int)

  const DAYS: nat := 7
  const SLOTS: nat := 48

  ghost predicate OnWeekdays(ws: seq<Window>) { forall w | w in ws :: w.day < 7 }

  /** Whether a window reaches into half hour `s`, as the grid draws it. */
  predicate Overlaps(w: Window, s: nat) { s * 30 < w.end && s * 30 + 30 > w.start }

  predicate Opens(ws: seq<Window>, day: nat, s: nat) {
    exists w | w in ws :: w.day == day && Overlaps(w, s)
  }

  /** Whether the windows are open at a minute of a day. */
  predicate OpenAt(ws: seq<Window>, day: nat, minute: int) {
    exists w | w in ws :: w.day == day && w.start <= minute < w.end
  }

  /** Every window starts and ends on a half hour. */
  predicate FitsGrid(ws: seq<Window>) {
    forall w | w in ws :: w.start % 30 == 0 && w.end % 30 == 0
  }

  /** Half-hour windows inside their day, in order, apart from each other. */
  ghost predicate Tidy(ws: seq<Window>) {
    && (forall i | 0 <= i < |ws| :: TidyWindow(ws[i]))
    && (forall i, j | 0 <= i < j < |ws| :: Before(ws[i], ws[j]))
  }

  predicate TidyWindow(w: Window) {
    w.day < 7 && 0 <= w.start < w.end <= 1440 && w.start % 30 == 0 && w.end % 30 == 0
  }

  predicate Before(v: Window, w: Window) { v.day < w.day || (v.day == w.day && v.end < w.start) }

  ghost predicate WeekGrid(grid: array2<bool>) { grid.Length0 == 7 && grid.Length1 == 48 }

  /** The grid shows exactly the cells the windows reach into. */
  ghost predicate Shows(grid: array2<bool>, ws: seq<Window>)
    requires WeekGrid(grid)
    reads grid
  {
    forall d: nat, s: nat | d < DAYS && s < SLOTS :: grid[d, s] == Opens(ws, d, s)
  }

  // -------------------------------------------------------------------------
  // The program
  // -------------------------------------------------------------------------

  /** A week as rows of half-hour cells, open or not. */
  method WindowsToGrid(ws: seq<Window>) returns (grid: array2<bool>)
    requires OnWeekdays(ws)
    ensures fresh(grid) && WeekGrid(grid) && Shows(grid, ws)
  {
    grid := new bool[DAYS, SLOTS]((d, s) => false);
    assert ws[..0] == [];
    for i := 0 to |ws|
      invariant Shows(grid, ws[..i])
    {
      var w := ws[i];
      assert ws[..i + 1] == ws[..i] + [w];
      for s := 0 to SLOTS
        invariant forall d: nat, t: nat | d < DAYS && t < SLOTS ::
            grid[d, t] == (Opens(ws[..i], d, t) || (d == w.day && t < s && Overlaps(w, t)))
      {
        if Overlaps(w, s) { grid[w.day, s] := true; }
      }
      forall d: nat, t: nat | d < DAYS && t < SLOTS ensures grid[d, t] == Opens(ws[..i + 1], d, t) {
        OpensSnoc(ws[..i], w, d, t);
      }
    }
    assert ws[..|ws|] == ws;
  }

  lemma OpensSnoc(ws: seq<Window>, w: Window, d: nat, s: nat)
    ensures Opens(ws + [w], d, s) <==> Opens(ws, d, s) || (w.day == d && Overlaps(w, s))
  {
    if w.day == d && Overlaps(w, s) { assert (ws + [w])[|ws|] == w; }
    if Opens(ws, d, s) {
      var v :| v in ws && v.day == d && Overlaps(v, s);
      assert v in ws + [w];
    }
  }

  /** The open cells of the grid that come before cell `s` of `day`, and no others. */
  ghost predicate ShowsUpTo(grid: array2<bool>, ws: seq<Window>, day: nat, s: nat)
    requires WeekGrid(grid)
    reads grid
  {
    forall d: nat, t: nat | d < DAYS && t < SLOTS ::
      Opens(ws, d, t) == ((d < day || (d == day && t < s)) && grid[d, t])
  }

  /** The grid back as windows: each run of open cells is one window. */
  method GridToWindows(grid: array2<bool>) returns (out: seq<Window>)
    requires WeekGrid(grid)
    ensures Tidy(out) && Shows(grid, out)
  {
    out := [];
    for day := 0 to DAYS
      invariant Tidy(out) && forall w | w in out :: w.day < day
      invariant ShowsUpTo(grid, out, day, 0)
    {
      var start := -1;
      for s := 0 to SLOTS + 1
        invariant -1 <= start < s && start < SLOTS
        invariant Tidy(out)
        invariant forall w | w in out :: w.day < day || (w.day == day && w.end <= 30 * (if start >= 0 then start else s) - 30)
        invariant ShowsUpTo(grid, out, day, if start >= 0 then start else s)
        invariant start >= 0 ==> s <= SLOTS && forall t | start <= t < s :: grid[day, t]
      {
        var on := s < SLOTS && grid[day, s];
        if on && start < 0 { start := s; }
        if !on && start >= 0 {
          var w := Window(day, start * 30, s * 30);
          PushRun(grid, out, day, start, s);
          out := out + [w];
          start := -1;
        }
      }
    }
  }

  lemma PushRun(grid: array2<bool>, out: seq<Window>, day: nat, start: nat, s: nat)
    requires WeekGrid(grid) && day < DAYS && start < s <= SLOTS
    requires ShowsUpTo(grid, out, day, start)
    requires forall t | start <= t < s :: grid[day, t]
    requires s < SLOTS ==> !grid[day, s]
    ensures ShowsUpTo(grid, out + [Window(day, start * 30, s * 30)], day, s)
    ensures ShowsUpTo(grid, out + [Window(day, start * 30, s * 30)], day, s + 1)
  {
    var w := Window(day, start * 30, s * 30);
    forall d: nat, t: nat | d < DAYS && t < SLOTS
      ensures Opens(out + [w], d, t) == (Opens(out, d, t) || (d == day && start <= t < s))
    {
      OpensSnoc(out, w, d, t);
    }
  }

  // -------------------------------------------------------------------------
  // The tidy list is the only one
  // -------------------------------------------------------------------------

  ghost predicate SameCells(a: seq<Window>, b: seq<Window>) {
    forall d: nat, s: nat | d < DAYS && s < SLOTS :: Opens(a, d, s) == Opens(b, d, s)
  }

  lemma TidyTail(ws: seq<Window>)
    requires ws != [] && Tidy(ws)
    ensures Tidy(ws[1..])
    ensures forall d: nat, s: nat | s < SLOTS :: Opens(ws[1..], d, s) <==> Opens(ws, d, s) && !(d == ws[0].day && Overlaps(ws[0], s))
  {
    var t := ws[1..];
    assert forall i | 0 <= i < |t| :: t[i] == ws[i + 1];
    forall d: nat, s: nat | s < SLOTS
      ensures Opens(t, d, s) <==> Opens(ws, d, s) && !(d == ws[0].day && Overlaps(ws[0], s))
    {
      if Opens(t, d, s) {
        var w :| w in t && w.day == d && Overlaps(w, s);
        var i :| 0 <= i < |t| && t[i] == w;
        assert Before(ws[0], ws[i + 1]) && w in ws;
        Apart(ws[0], w, s);
      }
      if Opens(ws, d, s) && !(d == ws[0].day && Overlaps(ws[0], s)) {
        var w :| w in ws && w.day == d && Overlaps(w, s);
        var i :| 0 <= i < |ws| && ws[i] == w;
        assert t[i - 1] == w;
      }
    }
  }

  lemma Apart(v: Window, w: Window, s: nat)
    requires TidyWindow(v) && TidyWindow(w) && Before(v, w) && Overlaps(w, s)
    ensures !(w.day == v.day && Overlaps(v, s))
  {
  }

  /** The first window's cells, seen from the list. */
  lemma Head(ws: seq<Window>)
    requires ws != [] && Tidy(ws)
    ensures Opens(ws, ws[0].day, ws[0].start / 30)
    ensures forall s: nat | ws[0].start <= s * 30 < ws[0].end :: Opens(ws, ws[0].day, s)
    ensures ws[0].end < 1440 ==> !Opens(ws, ws[0].day, ws[0].end / 30)
    ensures forall d: nat, s: nat | s < SLOTS && Opens(ws, d, s) :: ws[0].day < d || (ws[0].day == d && ws[0].start <= s * 30)
  {
    hide Tidy;
    FirstOpens(ws);
    forall d: nat, s: nat | s < SLOTS && Opens(ws, d, s)
      ensures ws[0].day < d || (ws[0].day == d && ws[0].start <= s * 30 && s * 30 != ws[0].end)
    {
      LaterOpens(ws, d, s);
    }
    EndOnGrid(ws);
  }

  lemma EndOnGrid(ws: seq<Window>)
    requires ws != [] && Tidy(ws)
    ensures ws[0].end == ws[0].end / 30 * 30 && (ws[0].end < 1440 ==> 0 <= ws[0].end / 30 < SLOTS) && ws[0].day >= 0
  {
    assert ws[0] in ws;
    assert TidyWindow(ws[0]);
  }

  lemma FirstOpens(ws: seq<Window>)
    requires ws != [] && Tidy(ws)
    ensures Opens(ws, ws[0].day, ws[0].start / 30)
    ensures forall s: nat | ws[0].start <= s * 30 < ws[0].end :: Opens(ws, ws[0].day, s)
  {
    assert ws[0] in ws;
    assert Overlaps(ws[0], ws[0].start / 30);
    forall s: nat | ws[0].start <= s * 30 < ws[0].end ensures Opens(ws, ws[0].day, s) {
      assert Overlaps(ws[0], s);
    }
  }

  lemma OpenedBy(ws: seq<Window>, d: nat, s: nat) returns (i: nat)
    requires Opens(ws, d, s)
    ensures i < |ws| && ws[i].day == d && Overlaps(ws[i], s)
  {
    var w :| w in ws && w.day == d && Overlaps(w, s);
    i :| i < |ws| && ws[i] == w;
  }

  lemma LaterOpens(ws: seq<Window>, d: nat, s: nat)
    requires ws != [] && Tidy(ws) && s < SLOTS && Opens(ws, d, s)
    ensures ws[0].day < d || (ws[0].day == d && ws[0].start <= s * 30 && s * 30 != ws[0].end)
  {
    hide Opens;
    var i := OpenedBy(ws, d, s);
    assert i > 0 ==> Before(ws[0], ws[i]);
    OnTheGrid(ws[0], ws[i], s, i > 0);
  }

  lemma OnTheGrid(v: Window, w: Window, s: nat, later: bool)
    requires TidyWindow(v) && TidyWindow(w) && Overlaps(w, s) && (if later then Before(v, w) else v == w)
    ensures v.day < w.day || (v.day == w.day && v.start <= s * 30 && s * 30 != v.end)
  {
    var a, b, c, e := v.start / 30, v.end / 30, w.start / 30, w.end / 30;
    assert v.start == 30 * a && v.end == 30 * b && w.start == 30 * c && w.end == 30 * e;
  }

  /** Two tidy lists that reach the same cells are the same list. */
  lemma {:induction false} TidyUnique(a: seq<Window>, b: seq<Window>)
    requires Tidy(a) && Tidy(b) && SameCells(a, b)
    ensures a == b
  {
    if a == [] {
    } else {
      SomeCell(a, b);
    }
    if b == [] {
    } else {
      SomeCell(b, a);
    }
    if a == [] {
    } else {
      SameHead(a, b);
      TidyTail(a);
      TidyTail(b);
      TidyUnique(a[1..], b[1..]);
    }
  }

  lemma SomeCell(a: seq<Window>, b: seq<Window>)
    requires Tidy(a) && a != [] && SameCells(a, b)
    ensures b != []
  {
    Head(a);
    assert Opens(b, a[0].day, a[0].start / 30);
  }

  lemma SameHead(a: seq<Window>, b: seq<Window>)
    requires Tidy(a) && Tidy(b) && SameCells(a, b) && a != [] && b != []
    ensures a[0] == b[0]
  {
    var v, w := a[0], b[0];
    Head(a);
    Head(b);
    assert TidyWindow(v) && TidyWindow(w);
    assert Opens(b, v.day, v.start / 30) && Opens(a, w.day, w.start / 30);
    assert v.day == w.day && v.start == w.start;
    var p: nat, q: nat := v.end / 30, w.end / 30;
    assert v.end < w.end ==> Opens(b, w.day, p) && !Opens(a, v.day, p);
    assert w.end < v.end ==> Opens(a, v.day, q) && !Opens(b, w.day, q);
  }

  // -------------------------------------------------------------------------
  // There and back
  // -------------------------------------------------------------------------

  /** A grid read as windows and drawn again is the same grid. */
  method GridRoundTrip(grid: array2<bool>) returns (ws: seq<Window>, again: array2<bool>)
    requires WeekGrid(grid)
    ensures Tidy(ws) && fresh(again) && WeekGrid(again)
    ensures forall d, s | 0 <= d < DAYS && 0 <= s < SLOTS :: again[d, s] == grid[d, s]
  {
    ws := GridToWindows(grid);
    assert forall w | w in ws :: TidyWindow(w);
    again := WindowsToGrid(ws);
  }

  /** Windows drawn on the grid and read back are the one tidy list of the cells they reach into. */
  method WindowsRoundTrip(ws: seq<Window>) returns (out: seq<Window>)
    requires OnWeekdays(ws)
    ensures Tidy(out) && SameCells(out, ws)
    ensures forall other | Tidy(other) && SameCells(other, ws) :: other == out
  {
    var grid := WindowsToGrid(ws);
    out := GridToWindows(grid);
    forall other | Tidy(other) && SameCells(other, ws) ensures other == out {
      TidyUnique(other, out);
    }
  }

  /** The grid opens a half hour exactly when some minute of it is open: the least half-hour superset. */
  lemma CellHoldsOpenMinute(ws: seq<Window>, d: nat, s: nat)
    requires forall w | w in ws :: w.start < w.end
    ensures Opens(ws, d, s) <==> exists m | s * 30 <= m < s * 30 + 30 :: OpenAt(ws, d, m)
  {
    if Opens(ws, d, s) {
      var w :| w in ws && w.day == d && Overlaps(w, s);
      var m := if w.start < s * 30 then s * 30 else w.start;
      assert OpenAt(ws, d, m);
    }
    if m :| s * 30 <= m < s * 30 + 30 && OpenAt(ws, d, m) {
      var w :| w in ws && w.day == d && w.start <= m < w.end;
      assert Overlaps(w, s);
    }
  }

  /** A window that stands inside a cell and is empty. */
  ghost predicate StandsIn(w: Window, d: nat, s: nat) { w.day == d && s * 30 < w.start == w.end < s * 30 + 30 }

  /**
   * A cell is on without an open minute exactly when an empty window stands
   * inside it and only empty ones reach into it.
   */
  lemma EmptyWindowOpensCell(ws: seq<Window>, d: nat, s: nat)
    requires forall w | w in ws :: w.start <= w.end
    ensures (Opens(ws, d, s) && forall m | s * 30 <= m < s * 30 + 30 :: !OpenAt(ws, d, m))
       <==> (exists w :: w in ws && StandsIn(w, d, s)) && forall w | w in ws && w.day == d && Overlaps(w, s) :: w.start == w.end
  {
    if w :| w in ws && StandsIn(w, d, s) {
      assert Overlaps(w, s);
    }
    if Opens(ws, d, s) && forall m | s * 30 <= m < s * 30 + 30 :: !OpenAt(ws, d, m) {
      forall w | w in ws && w.day == d && Overlaps(w, s) ensures w.start == w.end && StandsIn(w, d, s) {
        var m := if w.start < s * 30 then s * 30 else w.start;
        assert !OpenAt(ws, d, m);
      }
    }
    if m :| s * 30 <= m < s * 30 + 30 && OpenAt(ws, d, m) {
      var w :| w in ws && w.day == d && w.start <= m < w.end;
      assert Overlaps(w, s);
    }
  }

  /** On half-hour windows a minute is open exactly when its cell is. */
  lemma FittingMinute(ws: seq<Window>, d: nat, m: nat)
    requires FitsGrid(ws)
    ensures OpenAt(ws, d, m) <==> Opens(ws, d, m / 30)
  {
    if OpenAt(ws, d, m) {
      var w :| w in ws && w.day == d && w.start <= m < w.end;
      assert Overlaps(w, m / 30);
    }
    if Opens(ws, d, m / 30) {
      var w :| w in ws && w.day == d && Overlaps(w, m / 30);
      assert w.start <= m < w.end by { HalfHours(w, m); }
    }
  }

  lemma HalfHours(w: Window, m: nat)
    requires w.start % 30 == 0 && w.end % 30 == 0 && Overlaps(w, m / 30)
    ensures w.start <= m < w.end
  {
    var a, b := w.start / 30, w.end / 30;
    assert w.start == 30 * a && w.end == 30 * b;
  }

  // -------------------------------------------------------------------------
  // Whether a tenant's keys work
  // -------------------------------------------------------------------------

  datatype Hours = Hours(from: Option<int>, until: Option<int>, windows: seq<Window>)
  datatype AccessState = Always | Open | Closed | NotYet | Ended

  /** At instant `now`, which the tenant's wall clock shows as `minute` of `day`. */
  function StateAt(h: Hours, now: int, day: nat, minute: int): AccessState {
    if h.from.Some? && now < h.from.value then NotYet
    else if h.until.Some? && now >= h.until.value then Ended
    else if h.windows == [] then (if h.from.Some? || h.until.Some? then Open else Always)
    else if OpenAt(h.windows, day, minute) then Open
    else Closed
  }

  /** Two sets of hours let a tenant in at exactly the same times. */
  ghost predicate SameHours(g: Hours, h: Hours) {
    forall now: int, day: nat, minute: nat | day < DAYS && minute < 1440 :: StateAt(g, now, day, minute) == StateAt(h, now, day, minute)
  }

  ghost predicate NeverOpen(ws: seq<Window>) {
    forall d: nat, s: nat | d < DAYS && s < SLOTS :: !Opens(ws, d, s)
  }

  /** The dates leave no time at all for the weekly hours to matter. */
  predicate NeverActive(h: Hours) { h.from.Some? && h.until.Some? && h.until.value <= h.from.value }

  /**
   * Hours that fit the grid survive it unless their windows are all empty: the
   * grid reads those back as no windows at all, which closes nothing.
   */
  lemma GridKeepsHours(h: Hours, ws: seq<Window>)
    requires FitsGrid(h.windows) && Tidy(ws) && SameCells(ws, h.windows)
    ensures SameHours(h, h.(windows := ws)) <==> (h.windows == [] || !NeverOpen(h.windows) || NeverActive(h))
  {
    assert FitsGrid(ws) by { assert forall w | w in ws :: TidyWindow(w); }
    forall day: nat, minute: nat | day < DAYS && minute < 1440
      ensures OpenAt(ws, day, minute) == OpenAt(h.windows, day, minute)
    {
      FittingMinute(ws, day, minute);
      FittingMinute(h.windows, day, minute);
      assert minute / 30 < SLOTS;
    }
    if NeverOpen(h.windows) {
      assert NeverOpen(ws);
      if ws != [] { SomeOpen(ws); }
      if h.windows != [] && !NeverActive(h) {
        var now := if h.from.Some? then h.from.value else if h.until.Some? then h.until.value - 1 else 0;
        FittingMinute(h.windows, 0, 0);
        assert StateAt(h, now, 0, 0) == Closed;
        assert StateAt(h.(windows := ws), now, 0, 0) != Closed;
      }
    } else {
      var d: nat, s: nat :| d < DAYS && s < SLOTS && Opens(h.windows, d, s);
      assert Opens(ws, d, s);
    }
  }

  /** Windows that end after they start, as every stored window does: those that fit the grid always survive it. */
  lemma FittingHoursSurvive(h: Hours, ws: seq<Window>)
    requires OnWeekdays(h.windows) && FitsGrid(h.windows) && Tidy(ws) && SameCells(ws, h.windows)
    requires forall w | w in h.windows :: 0 <= w.start < w.end <= 1440
    ensures SameHours(h, h.(windows := ws))
  {
    hide SameHours, Tidy, FitsGrid;
    GridKeepsHours(h, ws);
    if h.windows != [] {
      var w := h.windows[0];
      assert w in h.windows && Overlaps(w, w.start / 30);
      assert Opens(h.windows, w.day, w.start / 30) && w.start / 30 < SLOTS;
    }
  }

  lemma SomeOpen(ws: seq<Window>)
    requires Tidy(ws) && ws != []
    ensures !NeverOpen(ws)
  {
    Head(ws);
    assert TidyWindow(ws[0]);
  }

  /**
   * Before its start hours are not yet, from their end on ended; in between, without
   * windows they are open, always where there are no dates, and with windows
   * open exactly in one.
   */
  lemma StateMeans(h: Hours, now: int, day: nat, minute: int)
    ensures var early, late := h.from.Some? && now < h.from.value, h.until.Some? && h.until.value <= now;
            var inWindow := exists w :: w in h.windows && w.day == day && w.start <= minute && minute < w.end;
            && (StateAt(h, now, day, minute) == NotYet <==> early)
            && (StateAt(h, now, day, minute) == Ended <==> !early && late)
            && (StateAt(h, now, day, minute) == Always <==> h == Hours(None, None, []))
            && (StateAt(h, now, day, minute) == Closed <==> !early && !late && h.windows != [] && !inWindow)
            && (inWindow && !early && !late ==> StateAt(h, now, day, minute) == Open)
  {
    if OpenAt(h.windows, day, minute) { assert h.windows != []; }
  }
}
