/**
 * The launch form's spelling hint: a one-row edit distance table, and the
 * nearest option it suggests.
 */
module Spelling {
  import opened Text
  import opened Wrappers

  function Min(a: int, b: int): int { if a < b then a else b }

  /** The recursive Levenshtein distance, on the last characters. */
  function Lev(a: string, b: string): nat
    decreases |a| + |b|
  {
    if a == "" then |b|
    else if b == "" then |a|
    else Min(Min(Lev(Front(a), b) + 1, Lev(a, Front(b)) + 1),
             Lev(Front(a), Front(b)) + Differ(Last(a), Last(b)))
  }

  function Front(s: string): string requires s != "" { s[..|s| - 1] }

  function Last(s: string): char requires s != "" { s[|s| - 1] }

  function Differ(c: char, d: char): nat { if c == d then 0 else 1 }

  // -------------------------------------------------------------------------
  // The independent definition: single edits, one after another
  // -------------------------------------------------------------------------

  function Insert(s: string, i: nat, c: char): string requires i <= |s| { s[..i] + [c] + s[i..] }

  function Replace(s: string, i: nat, c: char): string requires i < |s| { s[i := c] }

  ghost predicate Inserts(x: string, y: string) { exists i: nat, c: char | i <= |x| :: y == Insert(x, i, c) }

  ghost predicate Replaces(x: string, y: string) { exists i: nat, c: char | i < |x| :: y == Replace(x, i, c) }

  /** One character inserted, deleted or substituted, anywhere. */
  ghost predicate OneEdit(x: string, y: string) { Inserts(x, y) || Inserts(y, x) || Replaces(x, y) }

  /** `path` goes from `a` to `b` one edit at a time. */
  ghost predicate EditPath(path: seq<string>, a: string, b: string) {
    && |path| >= 1 && path[0] == a && path[|path| - 1] == b
    && forall i | 0 <= i < |path| - 1 :: OneEdit(path[i], path[i + 1])
  }

  // -------------------------------------------------------------------------
  // The distance as a metric
  // -------------------------------------------------------------------------

  lemma {:induction false} LevBounds(a: string, b: string)
    ensures |a| - |b| <= Lev(a, b) && |b| - |a| <= Lev(a, b) <= |a| + |b|
    decreases |a| + |b|
  {
    if a != "" && b != "" {
      LevBounds(Front(a), b);
      LevBounds(a, Front(b));
      LevBounds(Front(a), Front(b));
    }
  }

  lemma {:induction false} LevZero(a: string, b: string)
    ensures Lev(a, b) == 0 <==> a == b
    decreases |a|
  {
    if a != "" && b != "" {
      LevZero(Front(a), Front(b));
      assert a == Front(a) + [Last(a)] && b == Front(b) + [Last(b)];
    }
  }

  lemma {:induction false} LevSymmetric(a: string, b: string)
    ensures Lev(a, b) == Lev(b, a)
    decreases |a| + |b|
  {
    if a != "" && b != "" {
      LevSymmetric(Front(a), b);
      LevSymmetric(a, Front(b));
      LevSymmetric(Front(a), Front(b));
    }
  }

  /** What the distance is one step from, and no more than. */
  lemma LevCases(a: string, b: string)
    requires a != "" && b != ""
    ensures var x, y := Front(a), Front(b);
            var u, v, w := Lev(x, b) + 1, Lev(a, y) + 1, Lev(x, y) + Differ(Last(a), Last(b));
            Lev(a, b) <= u && Lev(a, b) <= v && Lev(a, b) <= w && (Lev(a, b) == u || Lev(a, b) == v || Lev(a, b) == w)
  {
  }

  lemma {:induction false} LevTriangle(a: string, b: string, c: string)
    ensures Lev(a, c) <= Lev(a, b) + Lev(b, c)
    decreases |a| + |b| + |c|
  {
    if a == "" || b == "" || c == "" {
      LevBounds(a, b);
      LevBounds(b, c);
      LevBounds(a, c);
    } else {
      hide Lev;
      var a', b', c' := Front(a), Front(b), Front(c);
      LevCases(a, b);
      LevCases(b, c);
      LevCases(a, c);
      if Lev(a, b) == Lev(a', b) + 1 {
        LevTriangle(a', b, c);
      } else if Lev(b, c) == Lev(b, c') + 1 {
        LevTriangle(a, b, c');
      } else if Lev(a, b) == Lev(a, b') + 1 {
        if Lev(b, c) == Lev(b', c) + 1 {
          LevTriangle(a, b', c);
        } else {
          LevTriangle(a, b', c');
        }
      } else if Lev(b, c) == Lev(b', c) + 1 {
        LevTriangle(a', b', c);
      } else {
        LevTriangle(a', b', c');
      }
    }
  }

  // -------------------------------------------------------------------------
  // The distance is the least number of edits
  // -------------------------------------------------------------------------

  lemma {:induction false} LevSuffix(x: string, y: string, s: string)
    ensures Lev(x + s, y + s) <= Lev(x, y)
    decreases |s|
  {
    if s == "" {
      assert x + s == x && y + s == y;
    } else {
      LevSuffix(x, y, Front(s));
      assert Front(x + s) == x + Front(s) && Front(y + s) == y + Front(s);
    }
  }

  lemma LevAppend(p: string, c: char)
    ensures Lev(p, p + [c]) <= 1 && Lev(p + [c], p) <= 1
  {
    LevZero(p, p);
    LevBounds(p, p + [c]);
    assert Front(p + [c]) == p;
    LevSymmetric(p, p + [c]);
  }

  lemma LevInsert(x: string, y: string)
    requires Inserts(x, y)
    ensures Lev(x, y) <= 1 && Lev(y, x) <= 1
  {
    hide Lev;
    var i: nat, c: char :| i <= |x| && y == Insert(x, i, c);
    var p, q := x[..i], x[i..];
    LevAppend(p, c);
    LevSuffix(p, p + [c], q);
    LevSuffix(p + [c], p, q);
    assert p + q == x && p + [c] + q == y;
  }

  lemma LevLast(p: string, c: char, d: char)
    ensures Lev(p + [c], p + [d]) <= 1
  {
    LevZero(p, p);
    assert Front(p + [c]) == p && Front(p + [d]) == p;
  }

  lemma LevReplace(x: string, y: string)
    requires Replaces(x, y)
    ensures Lev(x, y) <= 1
  {
    hide Lev;
    var i: nat, c: char :| i < |x| && y == Replace(x, i, c);
    var p, q := x[..i], x[i + 1..];
    LevLast(p, x[i], c);
    LevSuffix(p + [x[i]], p + [c], q);
    assert p + [x[i]] + q == x && p + [c] + q == y;
  }

  lemma OneEditCostsOne(x: string, y: string)
    requires OneEdit(x, y)
    ensures Lev(x, y) <= 1
  {
    hide Lev, Inserts, Replaces;
    if Inserts(x, y) {
      LevInsert(x, y);
    } else if Inserts(y, x) {
      LevInsert(y, x);
    } else {
      LevReplace(x, y);
    }
  }

  /** No sequence of single edits is shorter than the distance. */
  lemma {:induction false} NoShorterPath(path: seq<string>, a: string, b: string)
    requires EditPath(path, a, b)
    ensures Lev(a, b) <= |path| - 1
    decreases |path|
  {
    hide OneEdit;
    if |path| == 1 {
      LevZero(a, b);
    } else {
      hide Lev;
      NoShorterPath(path[1..], path[1], b);
      assert OneEdit(path[0], path[0 + 1]);
      OneEditCostsOne(a, path[1]);
      LevTriangle(a, path[1], b);
    }
  }

  lemma InsertsSuffix(x: string, y: string, z: char)
    requires Inserts(x, y)
    ensures Inserts(x + [z], y + [z])
  {
    var i: nat, c: char :| i <= |x| && y == Insert(x, i, c);
    assert y + [z] == Insert(x + [z], i, c);
  }

  lemma ReplacesSuffix(x: string, y: string, z: char)
    requires Replaces(x, y)
    ensures Replaces(x + [z], y + [z])
  {
    var i: nat, c: char :| i < |x| && y == Replace(x, i, c);
    assert y + [z] == Replace(x + [z], i, c);
  }

  lemma OneEditSuffix(x: string, y: string, z: char)
    requires OneEdit(x, y)
    ensures OneEdit(x + [z], y + [z])
  {
    hide Inserts, Replaces;
    if Inserts(x, y) {
      InsertsSuffix(x, y, z);
    } else if Inserts(y, x) {
      InsertsSuffix(y, x, z);
    } else {
      ReplacesSuffix(x, y, z);
    }
  }

  lemma PathSuffix(path: seq<string>, a: string, b: string, z: char) returns (q: seq<string>)
    requires EditPath(path, a, b)
    ensures EditPath(q, a + [z], b + [z]) && |q| == |path|
  {
    hide OneEdit;
    q := seq(|path|, i requires 0 <= i < |path| => path[i] + [z]);
    forall i | 0 <= i < |q| - 1 ensures OneEdit(q[i], q[i + 1]) {
      OneEditSuffix(path[i], path[i + 1], z);
    }
  }

  lemma Prepend(x: string, path: seq<string>, a: string, b: string) returns (q: seq<string>)
    requires EditPath(path, a, b) && OneEdit(x, a)
    ensures EditPath(q, x, b) && |q| == |path| + 1
  {
    hide OneEdit;
    q := [x] + path;
    forall i | 0 <= i < |q| - 1 ensures OneEdit(q[i], q[i + 1]) {
      if i > 0 { assert OneEdit(path[i - 1], path[i - 1 + 1]); }
    }
  }

  lemma Append(path: seq<string>, a: string, b: string, x: string) returns (q: seq<string>)
    requires EditPath(path, a, b) && OneEdit(b, x)
    ensures EditPath(q, a, x) && |q| == |path| + 1
  {
    hide OneEdit;
    q := path + [x];
    forall i | 0 <= i < |q| - 1 ensures OneEdit(q[i], q[i + 1]) {
      if i < |path| - 1 { assert OneEdit(path[i], path[i + 1]); }
    }
  }

  lemma LastInserted(s: string)
    requires s != ""
    ensures OneEdit(s, Front(s)) && OneEdit(Front(s), s)
  {
    assert s == Insert(Front(s), |s| - 1, Last(s));
  }

  lemma LastReplaced(s: string, c: char)
    requires s != ""
    ensures OneEdit(Front(s) + [c], s)
  {
    assert s == Replace(Front(s) + [c], |s| - 1, Last(s));
  }

  /** Some sequence of single edits is exactly as long as the distance. */
  lemma {:induction false} ShortestPath(a: string, b: string) returns (path: seq<string>)
    ensures EditPath(path, a, b) && |path| - 1 == Lev(a, b)
    decreases |a| + |b|
  {
    hide EditPath, OneEdit;
    if a == "" && b == "" {
      path := [a];
      NoEdits(a);
    } else if b == "" || (a != "" && Lev(a, b) == Lev(Front(a), b) + 1) {
      path := ShortestPath(Front(a), b);
      LastInserted(a);
      path := Prepend(a, path, Front(a), b);
    } else if a == "" || Lev(a, b) == Lev(a, Front(b)) + 1 {
      path := ShortestPath(a, Front(b));
      LastInserted(b);
      path := Append(path, a, Front(b), b);
    } else {
      path := ShortestPath(Front(a), Front(b));
      path := PathSuffix(path, Front(a), Front(b), Last(a));
      assert Front(a) + [Last(a)] == a && Front(b) + [Last(b)] == b;
      if Last(a) != Last(b) {
        LastReplaced(b, Last(a));
        path := Append(path, a, Front(b) + [Last(a)], b);
      }
    }
  }

  lemma NoEdits(a: string)
    ensures EditPath([a], a, a)
  {
  }

  /** `d` edits suffice to turn `a` into `b`, and no fewer do. */
  ghost predicate LeastEdits(a: string, b: string, d: nat) {
    && (exists path :: EditPath(path, a, b) && |path| - 1 == d)
    && (forall path | EditPath(path, a, b) :: d <= |path| - 1)
  }

  lemma LevIsLeastEdits(a: string, b: string)
    ensures LeastEdits(a, b, Lev(a, b))
  {
    var path := ShortestPath(a, b);
    forall path | EditPath(path, a, b) ensures Lev(a, b) <= |path| - 1 {
      NoShorterPath(path, a, b);
    }
  }

  // -------------------------------------------------------------------------
  // The program
  // -------------------------------------------------------------------------

  lemma LevStep(a: string, b: string, i: nat, j: nat)
    requires 0 < i <= |a| && 0 < j <= |b|
    ensures Lev(a[..i], b[..j])
         == Min(Min(Lev(a[..i - 1], b[..j]) + 1, Lev(a[..i], b[..j - 1]) + 1),
                Lev(a[..i - 1], b[..j - 1]) + Differ(a[i - 1], b[j - 1]))
  {
    assert Front(a[..i]) == a[..i - 1] && Front(b[..j]) == b[..j - 1];
  }

  lemma LevBase(s: string)
    ensures Lev("", s) == |s| == Lev(s, "")
  {
  }

  /** The cells `lo..hi` of the table's row for the first `i` characters of `a`. */
  ghost predicate Row(dp: array<nat>, a: string, b: string, i: nat, lo: nat, hi: nat)
    requires i <= |a| && hi <= |b| + 1 == dp.Length
    reads dp
  {
    forall k | lo <= k < hi :: dp[k] == Lev(a[..i], b[..k])
  }

  /** The rolling table: one row, overwritten left to right. */
  method EditDistance(a: string, b: string) returns (d: nat)
    ensures d == Lev(a, b)
  {
    hide Lev;
    var dp := new nat[|b| + 1](j => j);
    forall k | 0 <= k <= |b| ensures Lev(a[..0], b[..k]) == k { LevBase(b[..k]); }
    for i := 1 to |a| + 1
      invariant Row(dp, a, b, i - 1, 0, |b| + 1)
    {
      var prev := dp[0];
      dp[0] := i;
      LevBase(a[..i]);
      for j := 1 to |b| + 1
        invariant prev == Lev(a[..i - 1], b[..j - 1])
        invariant Row(dp, a, b, i, 0, j)
        invariant Row(dp, a, b, i - 1, j, |b| + 1)
      {
        var tmp := dp[j];
        LevStep(a, b, i, j);
        dp[j] := Min(Min(dp[j] + 1, dp[j - 1] + 1), prev + if a[i - 1] == b[j - 1] then 0 else 1);
        prev := tmp;
      }
    }
    d := dp[|b|];
    assert a[..|a|] == a && b[..|b|] == b;
  }

  // -------------------------------------------------------------------------
  // The suggestion
  // -------------------------------------------------------------------------

  function Max(a: int, b: int): int { if a < b then b else a }

  /** How far off a suggestion may be. */
  function Reach(value: string): nat { Max(2, |value| / 3) }

  /**
   * The option a near miss probably meant: the first of those at the least
   * distance, if that is close enough.
   */
  method Suggest(value: string, options: seq<string>) returns (best: Option<nat>)
    ensures best.None? ==> forall o | o in options :: var d := Lev(Lower(value), Lower(o)); d > 2 && 3 * d > |value|
    ensures best.Some? ==>
              var k := best.value;
              && k < |options|
              && (Lev(Lower(value), Lower(options[k])) <= 2 || 3 * Lev(Lower(value), Lower(options[k])) <= |value|)
              && (forall j | 0 <= j < |options| :: Lev(Lower(value), Lower(options[k])) <= Lev(Lower(value), Lower(options[j])))
              && (forall j | 0 <= j < k :: Lev(Lower(value), Lower(options[k])) < Lev(Lower(value), Lower(options[j])))
  {
    hide Lev, Lower;
    if options == [] { return None; }
    var v := Lower(value);
    var k := 0;
    var least := EditDistance(v, Lower(options[0]));
    for i := 1 to |options|
      invariant k < i && least == Lev(v, Lower(options[k]))
      invariant forall j | 0 <= j < i :: least <= Lev(v, Lower(options[j]))
      invariant forall j | 0 <= j < k :: least < Lev(v, Lower(options[j]))
    {
      var d := EditDistance(v, Lower(options[i]));
      if d < least { k, least := i, d; }
    }
    best := if least <= Reach(value) then Some(k) else None;
  }
}
