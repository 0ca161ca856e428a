/**
 * The fair-share chart's history: tails merged on at every poll, old points
 * dropped, and the result thinned for drawing.
 */
module History {
  import opened Wrappers

  /** One sample; `ts` is its time in milliseconds. */
  datatype Point = Point(ts: int, inFlight: nat, queued: nat, groups: map<string, nat>, cluster: bool)

  ghost predicate Increasing(s: seq<Point>) { forall i, j | 0 <= i < j < |s| :: s[i].ts < s[j].ts }

  /** A time bound; None is before every point. */
  type Bound = Option<int>

  function NewerThan(s: seq<Point>, newest: Bound): seq<Point> {
    if s == [] then []
    else (if newest.None? || s[0].ts > newest.value then [s[0]] else []) + NewerThan(s[1..], newest)
  }

  function NotBefore(s: seq<Point>, cutoff: Bound): seq<Point> {
    if s == [] then []
    else (if cutoff.None? || s[0].ts >= cutoff.value then [s[0]] else []) + NotBefore(s[1..], cutoff)
  }

  function Newest(s: seq<Point>): Bound { if s == [] then None else Some(s[|s| - 1].ts) }

  function Cutoff(merged: seq<Point>, retention: int): Bound
    requires merged != []
  {
    Limit(merged[|merged| - 1].ts, retention)
  }

  function Limit(newest: int, retention: int): Bound {
    if retention > 0 then Some(newest - retention) else None
  }

  /** Merge a poll's tail onto the history: only newer points, then drop what is too old. */
  function AppendTail(prev: seq<Point>, tail: seq<Point>, retention: int): seq<Point> {
    var added := NewerThan(tail, Newest(prev));
    if added == [] then prev
    else
      var merged := prev + added;
      NotBefore(merged, Cutoff(merged, retention))
  }

  // -------------------------------------------------------------------------
  // Filters
  // -------------------------------------------------------------------------

  lemma NewerCons(p: Point, s: seq<Point>, m: Bound)
    ensures NewerThan([p] + s, m) == (if m.None? || p.ts > m.value then [p] else []) + NewerThan(s, m)
  {
    assert ([p] + s)[1..] == s;
  }

  /** One more point in front. */
  lemma NewerStep(p: Point, s: seq<Point>, b: seq<Point>, m: Bound)
    requires NewerThan(s + b, m) == NewerThan(s, m) + NewerThan(b, m)
    ensures NewerThan([p] + s + b, m) == NewerThan([p] + s, m) + NewerThan(b, m)
  {
    hide NewerThan;
    NewerCons(p, s + b, m);
    NewerCons(p, s, m);
    assert [p] + s + b == [p] + (s + b);
  }

  lemma {:induction false} NewerPlus(a: seq<Point>, b: seq<Point>, m: Bound)
    ensures NewerThan(a + b, m) == NewerThan(a, m) + NewerThan(b, m)
  {
    if a == [] {
      assert a + b == b;
    } else {
      NewerPlus(a[1..], b, m);
      hide NewerThan;
      NewerStep(a[0], a[1..], b, m);
      assert a == [a[0]] + a[1..];
    }
  }

  lemma KeptCons(p: Point, s: seq<Point>, c: Bound)
    ensures NotBefore([p] + s, c) == (if c.None? || p.ts >= c.value then [p] else []) + NotBefore(s, c)
  {
    assert ([p] + s)[1..] == s;
  }

  lemma {:induction false} KeptPlus(a: seq<Point>, b: seq<Point>, c: Bound)
    ensures NotBefore(a + b, c) == NotBefore(a, c) + NotBefore(b, c)
  {
    if a == [] {
      assert a + b == b;
    } else {
      hide NotBefore;
      KeptPlus(a[1..], b, c);
      KeptCons(a[0], a[1..] + b, c);
      KeptCons(a[0], a[1..], c);
      assert a + b == [a[0]] + (a[1..] + b) && a == [a[0]] + a[1..];
    }
  }

  lemma {:induction false} NewerAll(s: seq<Point>, m: Bound)
    requires forall i | 0 <= i < |s| :: m.None? || s[i].ts > m.value
    ensures NewerThan(s, m) == s
  {
    if s == [] {
    } else {
      NewerAll(s[1..], m);
    }
  }

  lemma {:induction false} NewerNone(s: seq<Point>, m: Bound)
    requires m.Some? && forall i | 0 <= i < |s| :: s[i].ts <= m.value
    ensures NewerThan(s, m) == []
  {
    if s == [] {
    } else {
      NewerNone(s[1..], m);
    }
  }

  lemma {:induction false} KeptAll(s: seq<Point>, c: Bound)
    requires forall i | 0 <= i < |s| :: c.None? || s[i].ts >= c.value
    ensures NotBefore(s, c) == s
  {
    if s == [] {
    } else {
      KeptAll(s[1..], c);
    }
  }

  /** The points from `k` on are newer than `m`, and no others. */
  ghost predicate SplitsAt(s: seq<Point>, m: Bound, k: nat) {
    && k <= |s|
    && (forall i | 0 <= i < k :: m.Some? && s[i].ts <= m.value)
    && (forall i | k <= i < |s| :: m.None? || s[i].ts > m.value)
  }

  /** In increasing order, the newer points are a suffix. */
  lemma {:induction false} NewerIsSuffix(s: seq<Point>, m: Bound) returns (k: nat)
    requires Increasing(s)
    ensures k <= |s| && NewerThan(s, m) == s[k..]
    ensures SplitsAt(s, m, k)
  {
    if s == [] || m.None? || s[0].ts > m.value {
      k := 0;
      NewerAll(s, m);
    } else {
      var j := NewerIsSuffix(s[1..], m);
      k := j + 1;
      assert s[1..][j..] == s[k..];
      forall i | 0 <= i < k ensures s[i].ts <= m.value {
        if i > 0 { assert s[1..][i - 1] == s[i]; }
      }
      forall i | k <= i < |s| ensures s[i].ts > m.value {
        assert s[1..][i - 1] == s[i];
      }
    }
  }

  /** The points from `k` on are not before the cutoff, and no others. */
  ghost predicate KeptFrom(s: seq<Point>, c: Bound, k: nat) {
    && k <= |s|
    && (forall i | 0 <= i < k :: c.Some? && s[i].ts < c.value)
    && (forall i | k <= i < |s| :: c.None? || s[i].ts >= c.value)
  }

  lemma KeptFromNext(s: seq<Point>, c: Bound, j: nat)
    requires s != [] && c.Some? && s[0].ts < c.value && KeptFrom(s[1..], c, j)
    ensures KeptFrom(s, c, j + 1) && s[1..][j..] == s[j + 1..]
  {
    forall i | 0 < i < |s| ensures s[i] == s[1..][i - 1] {
    }
  }

  /** In increasing order, the points kept are a suffix. */
  lemma {:induction false} KeptIsSuffix(s: seq<Point>, c: Bound) returns (k: nat)
    requires Increasing(s)
    ensures KeptFrom(s, c, k) && NotBefore(s, c) == s[k..]
  {
    if s == [] || c.None? || s[0].ts >= c.value {
      k := 0;
      KeptAll(s, c);
    } else {
      hide KeptFrom;
      SliceIncreasing(s, 1, |s|);
      assert s[1..|s|] == s[1..];
      var j := KeptIsSuffix(s[1..], c);
      KeptFromNext(s, c, j);
      k := j + 1;
    }
  }

  // -------------------------------------------------------------------------
  // One poll
  // -------------------------------------------------------------------------

  lemma MergedIncreasing(prev: seq<Point>, tail: seq<Point>)
    requires Increasing(prev) && Increasing(tail)
    ensures Increasing(prev + NewerThan(tail, Newest(prev)))
  {
    var k := NewerIsSuffix(tail, Newest(prev));
    var added := tail[k..];
    forall i | 0 <= i < |added| ensures prev != [] ==> added[i].ts > prev[|prev| - 1].ts {
      assert added[i] == tail[k + i];
    }
  }

  /** A poll keeps times strictly increasing; one that adds keeps every point within retention of the newest. */
  lemma AppendKeepsOrder(prev: seq<Point>, tail: seq<Point>, retention: int)
    requires Increasing(prev) && Increasing(tail)
    ensures var r := AppendTail(prev, tail, retention);
            && Increasing(r)
            && (r == prev || (r != [] && tail != [] && r[|r| - 1] == tail[|tail| - 1]
                && (retention > 0 ==> forall p | p in r :: p.ts >= r[|r| - 1].ts - retention)))
  {
    hide NewerThan, NotBefore;
    var added := NewerThan(tail, Newest(prev));
    var n := NewerIsSuffix(tail, Newest(prev));
    if added != [] {
      MergedIncreasing(prev, tail);
      var merged := prev + added;
      assert merged[|merged| - 1] == tail[|tail| - 1];
      KeepsRecent(merged, retention);
    }
  }

  /** What is kept of points in order is in order, ends with the newest, and is within retention of it. */
  lemma KeepsRecent(merged: seq<Point>, retention: int)
    requires Increasing(merged) && merged != []
    ensures var r := NotBefore(merged, Cutoff(merged, retention));
            && Increasing(r) && r != [] && r[|r| - 1] == merged[|merged| - 1]
            && (retention > 0 ==> forall p | p in r :: p.ts >= r[|r| - 1].ts - retention)
  {
    hide NotBefore;
    var k := KeptIsSuffix(merged, Cutoff(merged, retention));
    var last := merged[|merged| - 1];
    assert k < |merged|;
    var r := merged[k..];
    SliceIncreasing(merged, k, |merged|);
    assert merged[k..|merged|] == r;
    forall p | p in r && retention > 0 ensures p.ts >= last.ts - retention {
      var i :| 0 <= i < |r| && r[i] == p;
      assert merged[k + i] == p;
    }
  }

  /**
   * What an append that adds leaves is exactly the points, old ones and newer
   * ones of the tail, that are within retention of the newest.
   */
  lemma AppendIsExactly(prev: seq<Point>, tail: seq<Point>, retention: int)
    requires Increasing(prev) && Increasing(tail)
    ensures (forall p | p in tail :: prev != [] && p.ts <= prev[|prev| - 1].ts) ==> AppendTail(prev, tail, retention) == prev
    ensures tail != [] && (prev == [] || tail[|tail| - 1].ts > prev[|prev| - 1].ts) ==>
              forall p :: p in AppendTail(prev, tail, retention) <==>
                && (p in prev || (p in tail && (prev == [] || p.ts > prev[|prev| - 1].ts)))
                && (retention > 0 ==> p.ts >= tail[|tail| - 1].ts - retention)
  {
    hide NotBefore, NewerThan;
    var added := NewerThan(tail, Newest(prev));
    NewerAre(tail, Newest(prev));
    if tail != [] && (prev == [] || tail[|tail| - 1].ts > prev[|prev| - 1].ts) {
      assert tail[|tail| - 1] in added;
      var n := NewerIsSuffix(tail, Newest(prev));
      var merged := prev + added;
      assert merged[|merged| - 1] == tail[|tail| - 1];
      KeptAre(merged, Cutoff(merged, retention));
    }
    if added != [] {
      assert added[0] in added;
    }
  }

  lemma {:induction false} NewerAre(s: seq<Point>, m: Bound)
    ensures forall p :: p in NewerThan(s, m) <==> p in s && (m == None || p.ts > m.value)
  {
    if s == [] {
    } else {
      NewerAre(s[1..], m);
      assert forall p :: p in s <==> p == s[0] || p in s[1..];
    }
  }

  lemma {:induction false} KeptAre(s: seq<Point>, c: Bound)
    ensures forall p :: p in NotBefore(s, c) <==> p in s && (c == None || p.ts >= c.value)
  {
    if s == [] {
    } else {
      KeptAre(s[1..], c);
      assert forall p :: p in s <==> p == s[0] || p in s[1..];
    }
  }

  // -------------------------------------------------------------------------
  // Any run of polls
  // -------------------------------------------------------------------------

  /** A poll's tail: a slice of the one stream of samples. */
  datatype Slice = Slice(from: nat, to: nat)

  /** Each slice starts no later than the furthest point seen so far. */
  ghost predicate NoGaps(slices: seq<Slice>, stream: seq<Point>, reach: nat) {
    slices != [] ==>
      && slices[0].from <= slices[0].to <= |stream| && slices[0].from <= reach
      && NoGaps(slices[1..], stream, Max(reach, slices[0].to))
  }

  function Max(a: nat, b: nat): nat { if a < b then b else a }

  function Reach(slices: seq<Slice>, reach: nat): nat {
    if slices == [] then reach else Reach(slices[1..], Max(reach, slices[0].to))
  }

  /** The history after a run of polls. */
  function Run(h: seq<Point>, slices: seq<Slice>, stream: seq<Point>, retention: int): seq<Point>
    requires forall i | 0 <= i < |slices| :: slices[i].from <= slices[i].to <= |stream|
    decreases |slices|
  {
    if slices == [] then h
    else Run(AppendTail(h, stream[slices[0].from..slices[0].to], retention), slices[1..], stream, retention)
  }

  lemma SliceIncreasing(s: seq<Point>, i: nat, j: nat)
    requires Increasing(s) && i <= j <= |s|
    ensures Increasing(s[i..j])
  {
  }

  /** Points kept by an earlier, laxer cutoff make no difference to a later one. */
  lemma {:induction false} KeptTwice(s: seq<Point>, c: Bound, d: Bound)
    requires c.None? || (d.Some? && c.value <= d.value)
    ensures NotBefore(NotBefore(s, c), d) == NotBefore(s, d)
  {
    if s == [] {
    } else {
      KeptTwice(s[1..], c, d);
      if c.None? || s[0].ts >= c.value {
        assert ([s[0]] + NotBefore(s[1..], c))[1..] == NotBefore(s[1..], c);
      } else {
        assert NotBefore(s, c) == NotBefore(s[1..], c) && NotBefore(s, d) == NotBefore(s[1..], d);
      }
    }
  }

  /** Polling a stream up to `r` and then a slice that starts by `r` is polling it once, to the further end. */
  lemma TwoPolls(prev: seq<Point>, stream: seq<Point>, r: nat, i: nat, j: nat, retention: int)
    requires Increasing(prev) && Increasing(stream)
    requires i <= r <= |stream| && i <= j <= |stream|
    ensures AppendTail(AppendTail(prev, stream[..r], retention), stream[i..j], retention)
         == AppendTail(prev, stream[..Max(r, j)], retention)
  {
    var m := Newest(prev);
    var k := NewerIsSuffix(stream, m);
    if k >= r {
      NothingYet(prev, stream, r, i, j, k);
    } else {
      SomeAlready(prev, stream, r, i, j, k, retention);
    }
  }

  lemma NewerPrefix(stream: seq<Point>, m: Bound, k: nat, e: nat)
    requires e <= |stream| && SplitsAt(stream, m, k)
    ensures NewerThan(stream[..e], m) == if k <= e then stream[k..e] else []
  {
    NewerSlice(stream, m, k, 0, e);
    assert stream[0..e] == stream[..e];
  }

  lemma NewerSlice(stream: seq<Point>, m: Bound, k: nat, i: nat, e: nat)
    requires i <= e <= |stream| && k <= |stream| && SplitsAt(stream, m, k)
    ensures NewerThan(stream[i..e], m) == if Max(i, k) <= e then stream[Max(i, k)..e] else []
  {
    hide NewerThan, SplitsAt;
    if e <= k {
      NoneBefore(stream, m, k, i, e);
    } else if k <= i {
      AllAfter(stream, m, k, i, e);
    } else {
      NoneBefore(stream, m, k, i, k);
      AllAfter(stream, m, k, k, e);
      NewerPlus(stream[i..k], stream[k..e], m);
      assert stream[i..e] == stream[i..k] + stream[k..e];
    }
  }

  lemma NoneBefore(stream: seq<Point>, m: Bound, k: nat, i: nat, e: nat)
    requires i <= e <= k <= |stream| && SplitsAt(stream, m, k)
    ensures NewerThan(stream[i..e], m) == []
  {
    hide NewerThan;
    if i < e {
      assert stream[i].ts <= m.value;
      NewerNone(stream[i..e], m);
    } else {
      NewerAll(stream[i..e], m);
    }
  }

  lemma AllAfter(stream: seq<Point>, m: Bound, k: nat, i: nat, e: nat)
    requires k <= i <= e <= |stream| && SplitsAt(stream, m, k)
    ensures NewerThan(stream[i..e], m) == stream[i..e]
  {
    hide NewerThan;
    NewerAll(stream[i..e], m);
  }

  lemma NothingYet(prev: seq<Point>, stream: seq<Point>, r: nat, i: nat, j: nat, k: nat)
    requires i <= r <= k <= |stream| && i <= j <= |stream|
    requires SplitsAt(stream, Newest(prev), k)
    ensures NewerThan(stream[..r], Newest(prev)) == []
    ensures NewerThan(stream[i..j], Newest(prev)) == NewerThan(stream[..Max(r, j)], Newest(prev))
  {
    NewerPrefix(stream, Newest(prev), k, r);
    NewerPrefix(stream, Newest(prev), k, Max(r, j));
    NewerSlice(stream, Newest(prev), k, i, j);
  }

  lemma SomeAlready(prev: seq<Point>, stream: seq<Point>, r: nat, i: nat, j: nat, k: nat, retention: int)
    requires Increasing(prev) && Increasing(stream) && SplitsAt(stream, Newest(prev), k)
    requires i <= r <= |stream| && i <= j <= |stream| && k < r
    ensures AppendTail(AppendTail(prev, stream[..r], retention), stream[i..j], retention)
         == AppendTail(prev, stream[..Max(r, j)], retention)
  {
    hide NewerThan, NotBefore, SplitsAt, AppendTail, Increasing;
    var h := FirstPoll(prev, stream, r, k, retention);
    SplitsAtLast(stream, r);
    NewerSlice(stream, Some(stream[r - 1].ts), r, i, j);
    if j <= r {
      AppendNothing(h, stream[i..j], retention);
    } else {
      SecondPoll(prev, h, stream, r, i, j, k, retention);
    }
  }

  lemma SecondPoll(prev: seq<Point>, h: seq<Point>, stream: seq<Point>, r: nat, i: nat, j: nat, k: nat, retention: int)
    requires Increasing(stream) && SplitsAt(stream, Newest(prev), k)
    requires i <= r < j <= |stream| && k < r
    requires Newest(h) == Some(stream[r - 1].ts)
    requires h == NotBefore(prev + stream[k..r], Limit(stream[r - 1].ts, retention))
    requires NewerThan(stream[i..j], Newest(h)) == stream[r..j]
    ensures AppendTail(h, stream[i..j], retention) == AppendTail(prev, stream[..j], retention)
  {
    hide NewerThan, NotBefore, SplitsAt, AppendTail, Increasing, Newest, Limit;
    var merged, more := prev + stream[k..r], stream[r..j];
    assert merged + more == prev + stream[k..j];
    NewerPrefix(stream, Newest(prev), k, j);
    AppendIs(h, stream[i..j], more, retention);
    AppendIs(prev, stream[..j], stream[k..j], retention);
    InOrder(stream, r - 1, j - 1);
    LaterCutoff(merged, more, stream[r - 1].ts, stream[j - 1].ts, retention);
  }

  lemma AppendNothing(prev: seq<Point>, tail: seq<Point>, retention: int)
    requires NewerThan(tail, Newest(prev)) == []
    ensures AppendTail(prev, tail, retention) == prev
  {
  }

  lemma AppendIs(prev: seq<Point>, tail: seq<Point>, added: seq<Point>, retention: int)
    requires NewerThan(tail, Newest(prev)) == added && added != []
    ensures AppendTail(prev, tail, retention) == NotBefore(prev + added, Limit(added[|added| - 1].ts, retention))
  {
  }

  lemma InOrder(s: seq<Point>, i: nat, j: nat)
    requires Increasing(s) && i <= j < |s|
    ensures s[i].ts <= s[j].ts
  {
  }

  lemma FirstPoll(prev: seq<Point>, stream: seq<Point>, r: nat, k: nat, retention: int) returns (h: seq<Point>)
    requires Increasing(prev) && Increasing(stream) && SplitsAt(stream, Newest(prev), k) && k < r <= |stream|
    ensures h == AppendTail(prev, stream[..r], retention) && h != [] && Newest(h) == Some(stream[r - 1].ts)
    ensures h == NotBefore(prev + stream[k..r], Limit(stream[r - 1].ts, retention))
  {
    hide NewerThan, NotBefore, SplitsAt, Increasing;
    h := AppendTail(prev, stream[..r], retention);
    NewerPrefix(stream, Newest(prev), k, r);
    var merged := prev + stream[k..r];
    assert merged[|merged| - 1] == stream[r - 1];
    KeptLast(merged, Cutoff(merged, retention));
  }

  lemma {:induction false} KeptLast(s: seq<Point>, c: Bound)
    requires s != [] && (c.None? || s[|s| - 1].ts >= c.value)
    ensures NotBefore(s, c) != [] && NotBefore(s, c)[|NotBefore(s, c)| - 1] == s[|s| - 1]
  {
    if |s| > 1 { KeptLast(s[1..], c); }
  }

  lemma SplitsAtLast(stream: seq<Point>, r: nat)
    requires Increasing(stream) && 0 < r <= |stream|
    ensures SplitsAt(stream, Some(stream[r - 1].ts), r)
  {
  }

  lemma LaterCutoff(merged: seq<Point>, more: seq<Point>, t: int, u: int, retention: int)
    requires t <= u
    ensures NotBefore(NotBefore(merged, Limit(t, retention)) + more, Limit(u, retention)) == NotBefore(merged + more, Limit(u, retention))
  {
    var c, d := Limit(t, retention), Limit(u, retention);
    KeptPlus(NotBefore(merged, c), more, d);
    KeptPlus(merged, more, d);
    KeptTwice(merged, c, d);
  }

  /**
   * However the stream was cut into tails, repeated or overlapped, the history
   * is what one poll of the whole stretch would have made it, and its times
   * strictly increase.
   */
  lemma {:induction false} RunIsOnePoll(prev: seq<Point>, done: nat, slices: seq<Slice>, stream: seq<Point>, retention: int)
    requires Increasing(prev) && Increasing(stream) && done <= |stream|
    requires NoGaps(slices, stream, done)
    requires forall i | 0 <= i < |slices| :: slices[i].from <= slices[i].to <= |stream|
    ensures done <= Reach(slices, done) <= |stream|
    ensures Run(AppendTail(prev, stream[..done], retention), slices, stream, retention)
         == AppendTail(prev, stream[..Reach(slices, done)], retention)
    ensures Increasing(AppendTail(prev, stream[..Reach(slices, done)], retention))
    decreases |slices|
  {
    if slices == [] {
      SliceIncreasing(stream, 0, done);
      assert stream[0..done] == stream[..done];
      AppendKeepsOrder(prev, stream[..done], retention);
    } else {
      var s := slices[0];
      TwoPolls(prev, stream, done, s.from, s.to, retention);
      RunIsOnePoll(prev, Max(done, s.to), slices[1..], stream, retention);
    }
  }

  // -------------------------------------------------------------------------
  // Thinning for the chart
  // -------------------------------------------------------------------------

  /** `r` picks rows of `rows` in order, by strictly increasing index. */
  ghost predicate Picks<T>(r: seq<T>, rows: seq<T>, at: seq<nat>) {
    && |at| == |r|
    && (forall i | 0 <= i < |at| :: at[i] < |rows| && r[i] == rows[at[i]])
    && (forall i, j | 0 <= i < j < |at| :: at[i] < at[j])
  }

  ghost predicate Subsequence<T>(r: seq<T>, rows: seq<T>) { exists at :: Picks(r, rows, at) }

  function Ceil(n: nat, d: nat): nat requires d > 0 { (n + d - 1) / d }

  lemma CeilCovers(n: nat, d: nat)
    requires d > 0
    ensures Ceil(n, d) * d >= n
  {
  }

  /** The step is the least that takes at most `d` rows. */
  lemma StepIsLeast(n: nat, d: nat)
    requires d > 0 && n > 0
    ensures Ceil(n, d) * d >= n > (Ceil(n, d) - 1) * d
  {
  }

  lemma Scale(a: nat, b: nat, step: nat)
    requires a <= b
    ensures a * step <= b * step
  {
  }

  lemma CountBound(c: nat, step: nat, n: nat, max: nat)
    requires step > 0 && max * step >= n && (c == 0 || (c - 1) * step < n)
    ensures c <= max
  {
    if c > max {
      Scale(max, c - 1, step);
    }
  }

  /** Every `step`-th row, from the first. */
  ghost predicate EveryNth<T>(r: seq<T>, rows: seq<T>, step: nat) {
    forall k | 0 <= k < |r| :: k * step < |rows| && r[k] == rows[k * step]
  }

  lemma NoneYet<T>(rows: seq<T>, step: nat)
    ensures EveryNth([], rows, step)
  {
  }

  lemma NextNth<T>(r: seq<T>, rows: seq<T>, step: nat)
    requires EveryNth(r, rows, step) && |r| * step < |rows|
    ensures EveryNth(r + [rows[|r| * step]], rows, step)
    ensures (|r| + 1) * step == |r| * step + step
  {
  }

  lemma DropLastNth<T>(r: seq<T>, rows: seq<T>, step: nat)
    requires EveryNth(r, rows, step) && r != [] && rows != []
    ensures EveryNth(r[..|r| - 1], rows, step)
    ensures r[|r| - 1] != rows[|rows| - 1] ==> (|r| - 1) * step < |rows| - 1
  {
    assert r[|r| - 1] == rows[(|r| - 1) * step];
  }

  lemma EveryNthPicks<T>(r: seq<T>, rows: seq<T>, step: nat) returns (at: seq<nat>)
    requires EveryNth(r, rows, step) && step > 0
    ensures Picks(r, rows, at) && forall k | 0 <= k < |at| :: at[k] == k * step
  {
    at := seq(|r|, k requires 0 <= k < |r| => k * step);
    forall i, j | 0 <= i < j < |at| ensures at[i] < at[j] {
      Scale(i + 1, j, step);
      assert (i + 1) * step == i * step + step;
    }
  }

  lemma SwapLast<T>(r: seq<T>, rows: seq<T>, at: seq<nat>)
    requires Picks(r, rows, at) && r != [] && rows != []
    ensures Subsequence(r[|r| - 1 := rows[|rows| - 1]], rows)
    ensures at[|at| - 1] < |rows| - 1 ==> Subsequence(r + [rows[|rows| - 1]], rows)
  {
    assert Picks(r[|r| - 1 := rows[|rows| - 1]], rows, at[|at| - 1 := |rows| - 1]);
    if at[|at| - 1] < |rows| - 1 {
      assert Picks(r + [rows[|rows| - 1]], rows, at + [|rows| - 1]);
    }
  }

  lemma WholeSubsequence<T>(rows: seq<T>)
    ensures Subsequence(rows, rows)
  {
    assert Picks(rows, rows, seq(|rows|, i requires 0 <= i => i));
  }

  /** At most `max` rows, evenly spaced, always ending with the last one. */
  method ThinHistory<T(==)>(rows: seq<T>, max: nat) returns (thinned: seq<T>)
    ensures |rows| <= max ==> thinned == rows
    ensures Subsequence(thinned, rows)
    ensures thinned == [] <==> rows == []
    ensures rows != [] ==> thinned[|thinned| - 1] == rows[|rows| - 1]
    ensures |thinned| <= Max(max, 1)
    ensures |rows| > max > 0 ==> EveryNth(thinned[..|thinned| - 1], rows, Ceil(|rows|, max))
  {
    hide EveryNth, Subsequence, Picks, Ceil;
    if |rows| <= max {
      WholeSubsequence(rows);
      return rows;
    }
    // With a budget of none the step is infinite: only the first row is taken.
    var step := if max == 0 then |rows| else Ceil(|rows|, max);
    if max > 0 { CeilCovers(|rows|, max); }
    thinned := [];
    NoneYet(rows, step);
    var i := 0;
    while i < |rows|
      invariant i == |thinned| * step
      invariant EveryNth(thinned, rows, step)
      invariant thinned != [] ==> (|thinned| - 1) * step < |rows|
      decreases |rows| - i
    {
      NextNth(thinned, rows, step);
      thinned := thinned + [rows[i]];
      i := i + step;
    }
    CountBound(|thinned|, step, |rows|, Max(max, 1));
    var last := rows[|rows| - 1];
    DropLastNth(thinned, rows, step);
    if thinned[|thinned| - 1] != last {
      var at := EveryNthPicks(thinned, rows, step);
      SwapLast(thinned, rows, at);
      if |thinned| >= max {
        assert thinned[|thinned| - 1 := last][..|thinned| - 1] == thinned[..|thinned| - 1];
        thinned := thinned[|thinned| - 1 := last];
      } else {
        assert (thinned + [last])[..|thinned|] == thinned;
        thinned := thinned + [last];
      }
    } else {
      var at := EveryNthPicks(thinned, rows, step);
      PicksAre(thinned, rows, at);
    }
  }

  lemma PicksAre<T>(r: seq<T>, rows: seq<T>, at: seq<nat>)
    requires Picks(r, rows, at)
    ensures Subsequence(r, rows)
  {
  }
}
