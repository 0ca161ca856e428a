/** `#SBATCH` lines: read into job settings, and left out of the stored script. */
module Directives {
  import opened Text
  import opened Wrappers

  const MARK: string := "#SBATCH"

  predicate IsDirective(line: string) { MARK <= Trim(line) }

  // -------------------------------------------------------------------------
  // Stripping
  // -------------------------------------------------------------------------

  function Kept(lines: seq<string>): seq<string> {
    if lines == [] then []
    else (if IsDirective(lines[0]) then [] else [lines[0]]) + Kept(lines[1..])
  }

  /** The script without its `#SBATCH` lines. */
  function Strip(script: string): string { Join(Kept(Split(script, '\n')), "\n") }

  /** The lines of a script, a stripped-out one being a single empty line. */
  function KeptLines(script: string): (r: seq<string>)
    ensures r != []
  {
    var k := Kept(Split(script, '\n'));
    if k == [] then [""] else k
  }

  predicate Listed(at: seq<nat>, i: nat) { exists k | 0 <= k < |at| :: at[k] == i }

  /** `at` lists, in order, the positions of the lines that are not directives. */
  ghost predicate NonDirectives(lines: seq<string>, at: seq<nat>) {
    && (forall k | 0 <= k < |at| :: at[k] < |lines| && !IsDirective(lines[at[k]]))
    && (forall j, k | 0 <= j < k < |at| :: at[j] < at[k])
    && (forall i | 0 <= i < |lines| && !IsDirective(lines[i]) :: Listed(at, i))
  }

  lemma KeptNext(front: seq<string>, line: string)
    ensures Kept(front + [line]) == Kept(front) + if IsDirective(line) then [] else [line]
  {
    hide IsDirective;
    KeptPlus(front, [line]);
    assert [line][1..] == [];
  }

  /** The kept lines are those at the positions listed. */
  ghost predicate KeptAt(lines: seq<string>, at: seq<nat>) {
    && NonDirectives(lines, at) && |Kept(lines)| == |at|
    && forall k | 0 <= k < |at| :: Kept(lines)[k] == lines[at[k]]
  }

  lemma KeptAtNext(front: seq<string>, line: string, at: seq<nat>)
    requires KeptAt(front, at)
    ensures KeptAt(front + [line], if IsDirective(line) then at else at + [|front|])
  {
    hide IsDirective, Kept, NonDirectives;
    KeptNext(front, line);
    if IsDirective(line) {
      NextSkipped(front, line, at);
      Kept0(front, at);
    } else {
      NextTaken(front, line, at);
      Kept0(front, at);
    }
  }

  lemma Kept0(lines: seq<string>, at: seq<nat>)
    requires NonDirectives(lines, at)
    ensures forall k | 0 <= k < |at| :: at[k] < |lines|
  {
  }

  lemma NothingKept()
    ensures KeptAt([], [])
  {
  }

  /** Exactly the directive lines go, and the others stay in order. */
  lemma {:induction false} KeptExactly(lines: seq<string>) returns (at: seq<nat>)
    ensures KeptAt(lines, at)
  {
    hide KeptAt, IsDirective;
    if lines == [] {
      at := [];
      NothingKept();
    } else {
      var front, line := lines[..|lines| - 1], lines[|lines| - 1];
      at := KeptExactly(front);
      KeptAtNext(front, line, at);
      assert front + [line] == lines;
      if !IsDirective(line) { at := at + [|front|]; }
    }
  }

  lemma NextSkipped(front: seq<string>, line: string, at: seq<nat>)
    requires NonDirectives(front, at) && IsDirective(line)
    ensures NonDirectives(front + [line], at)
  {
    hide IsDirective, Listed;
  }

  lemma ListedNext(at: seq<nat>, n: nat, i: nat)
    ensures Listed(at + [n], i) <==> Listed(at, i) || i == n
  {
    var next := at + [n];
    if Listed(at, i) {
      var k :| 0 <= k < |at| && at[k] == i;
      assert next[k] == i;
    }
    if i == n { assert next[|at|] == i; }
  }

  lemma NextTaken(front: seq<string>, line: string, at: seq<nat>)
    requires NonDirectives(front, at) && !IsDirective(line)
    ensures NonDirectives(front + [line], at + [|front|])
  {
    hide IsDirective, Listed;
    forall i: nat ensures Listed(at + [|front|], i) <==> Listed(at, i) || i == |front| { ListedNext(at, |front|, i); }
  }

  lemma KeptCons(line: string, rest: seq<string>)
    ensures Kept([line] + rest) == (if IsDirective(line) then [] else [line]) + Kept(rest)
  {
    hide IsDirective;
    assert ([line] + rest)[1..] == rest;
  }

  lemma {:induction false} KeptPlus(a: seq<string>, b: seq<string>)
    ensures Kept(a + b) == Kept(a) + Kept(b)
  {
    hide IsDirective;
    if a == [] {
      assert a + b == b;
    } else {
      hide Kept;
      KeptPlus(a[1..], b);
      KeptCons(a[0], a[1..] + b);
      KeptCons(a[0], a[1..]);
      assert a + b == [a[0]] + (a[1..] + b) && a == [a[0]] + a[1..];
    }
  }

  lemma {:induction false} KeptPlain(lines: seq<string>)
    ensures forall l | l in Kept(lines) :: l in lines && !IsDirective(l)
  {
    hide IsDirective;
    if lines == [] {
    } else {
      KeptPlain(lines[1..]);
      assert lines == [lines[0]] + lines[1..];
    }
  }

  lemma {:induction false} KeptAll(lines: seq<string>)
    requires forall i | 0 <= i < |lines| :: !IsDirective(lines[i])
    ensures Kept(lines) == lines
  {
    hide IsDirective;
    if lines == [] {
    } else {
      KeptAll(lines[1..]);
      assert lines == [lines[0]] + lines[1..];
    }
  }

  /** The stored script's lines are the lines kept. */
  lemma StrippedLines(script: string)
    ensures Split(Strip(script), '\n') == KeptLines(script)
  {
    hide IsDirective;
    var lines := Split(script, '\n');
    SplitHasNoSep(script, '\n');
    KeptPlain(lines);
    if Kept(lines) != [] { SplitJoin(Kept(lines), '\n'); }
  }

  lemma EmptyLine()
    ensures !IsDirective("")
  {
  }

  /** A stored script holds no directives, so stripping it again changes nothing. */
  lemma StripTwice(script: string)
    ensures Strip(Strip(script)) == Strip(script)
    ensures forall l | l in Split(Strip(script), '\n') :: !IsDirective(l)
  {
    hide IsDirective;
    StrippedLines(script);
    EmptyLine();
    KeptPlain(Split(script, '\n'));
    KeptAll(KeptLines(script));
  }

  // -------------------------------------------------------------------------
  // Reading one line
  // -------------------------------------------------------------------------

  datatype Directive = Directive(key: string, value: string)

  function LongName(flag: string): Option<string> {
    match flag
    case "-p" => Some("partition")
    case "-c" => Some("cpus-per-task")
    case "-N" => Some("nodes")
    case "-A" => Some("account")
    case "-q" => Some("qos")
    case "-C" => Some("constraint")
    case "-x" => Some("exclude")
    case "-t" => Some("time")
    case "-o" => Some("output")
    case "-e" => Some("error")
    case "-D" => Some("chdir")
    case _ => None
  }

  function IndexOf(s: string, c: char): (i: nat)
    ensures i <= |s|
    ensures i < |s| ==> s[i] == c && c !in s[..i]
    ensures i == |s| ==> c !in s
  {
    if s == "" || s[0] == c then 0
    else
      assert s == [s[0]] + s[1..];
      var j := IndexOf(s[1..], c);
      assert s[..j + 1] == [s[0]] + s[1..][..j];
      j + 1
  }

  /** The words of a string, split at runs of white space. */
  function Words(s: string, word: string): seq<string> {
    if s == "" then (if word == "" then [] else [word])
    else if IsSpace(s[0]) then (if word == "" then [] else [word]) + Words(s[1..], "")
    else Words(s[1..], word + [s[0]])
  }

  function SplitDirective(rest: string): Option<Directive> {
    var t := Trim(rest);
    if !("-" <= t) then None
    else if "--" <= t && '=' in t then
      var eq := IndexOf(t, '=');
      Some(Directive(t[2..eq], Trim(t[eq + 1..])))
    else
      var parts := Words(t, "");
      if parts == [] then None
      else
        var flag, value := parts[0], Trim(Join(parts[1..], " "));
        if "--" <= flag then Some(Directive(flag[2..], value))
        else Some(Directive(if LongName(flag).Some? then LongName(flag).value else flag, value))
  }

  /** Where a white-space character followed by `#` starts a comment. */
  function CommentAt(s: string): (i: nat)
    ensures i <= |s|
  {
    if |s| < 2 then |s|
    else if IsSpace(s[0]) && s[1] == '#' then 0
    else 1 + CommentAt(s[1..])
  }

  function StripComment(s: string): string { Trim(s[..CommentAt(s)]) }

  function ReadDirective(line: string): Option<Directive> {
    var t := Trim(line);
    if MARK <= t then SplitDirective(StripComment(t[|MARK|..])) else None
  }

  // -------------------------------------------------------------------------
  // Reading the script
  // -------------------------------------------------------------------------

  datatype Setting =
    | Partition | Gres | CpusPerTask | Mem | TimeLimit | Nodes | Account | Qos | Constraints | Exclude | LogDir | Chdir

  function RightTrimSlashes(s: string): (r: string)
    ensures |r| <= |s|
    decreases |s|
  {
    if s != "" && s[|s| - 1] == '/' then RightTrimSlashes(s[..|s| - 1]) else s
  }

  /** The position after a string's last slash, or 0. */
  function AfterLastSlash(s: string): (i: nat)
    ensures i <= |s|
  {
    if s == "" then 0 else if s[|s| - 1] == '/' then |s| else AfterLastSlash(s[..|s| - 1])
  }

  function Dirname(p: string): string {
    var s := RightTrimSlashes(p);
    var i := AfterLastSlash(s);
    if i == 0 then "."
    else
      var d := RightTrimSlashes(s[..i - 1]);
      if d == "" then "/" else d
  }

  /** What a directive sets; `finite` says which texts the runtime reads as a number. */
  function Effect(d: Directive, finite: string -> bool): Option<(Setting, string)> {
    match d.key
    case "partition" => Some((Partition, d.value))
    case "gres" => Some((Gres, d.value))
    case "cpus-per-task" => if d.value != "" && finite(d.value) then Some((CpusPerTask, d.value)) else None
    case "mem" => Some((Mem, d.value))
    case "time" => Some((TimeLimit, d.value))
    case "nodes" => if d.value != "" && finite(d.value) then Some((Nodes, d.value)) else None
    case "account" => Some((Account, d.value))
    case "qos" => Some((Qos, d.value))
    case "constraint" => Some((Constraints, d.value))
    case "exclude" => Some((Exclude, d.value))
    case "output" => LogEffect(d.value)
    case "error" => LogEffect(d.value)
    case "chdir" => Some((Chdir, d.value))
    case _ => None
  }

  function LogEffect(path: string): Option<(Setting, string)> {
    var dir := Dirname(path);
    if dir != "" && dir != "." then Some((LogDir, dir)) else None
  }

  const KNOWN: set<string> := {
    "partition", "gres", "cpus-per-task", "mem", "time", "nodes", "account", "qos", "constraint", "exclude",
    "output", "error", "chdir"
  }

  function LineEffect(line: string, finite: string -> bool): Option<(Setting, string)> {
    match ReadDirective(line) case None => None case Some(d) => Effect(d, finite)
  }

  function LineWarning(line: string): seq<string> {
    match ReadDirective(line)
    case None => []
    case Some(d) =>
      if d.key in KNOWN then []
      else [(if "-" <= d.key then d.key else "--" + d.key) + " (not applied)"]
  }

  function Warnings(lines: seq<string>): seq<string> {
    if lines == [] then [] else Warnings(lines[..|lines| - 1]) + LineWarning(lines[|lines| - 1])
  }

  /** Line `i` is the last to set `s`. */
  ghost predicate LastSets(lines: seq<string>, i: nat, s: Setting, value: string, finite: string -> bool) {
    && i < |lines| && LineEffect(lines[i], finite) == Some((s, value))
    && forall j | i < j < |lines| :: !Sets(lines[j], s, finite)
  }

  predicate Sets(line: string, s: Setting, finite: string -> bool) {
    LineEffect(line, finite).Some? && LineEffect(line, finite).value.0 == s
  }

  /** The settings hold, for each one some line sets, what the last such line says. */
  ghost predicate LastWins(out: map<Setting, string>, lines: seq<string>, finite: string -> bool) {
    && (forall s | s in out :: exists i :: LastSets(lines, i, s, out[s], finite))
    && (forall s, i | 0 <= i < |lines| && Sets(lines[i], s, finite) :: s in out)
  }

  /** The settings of every `#SBATCH` line, the last write winning, and what was not applied. */
  method ParseSbatchDirectives(script: string, finite: string -> bool) returns (out: map<Setting, string>, warnings: seq<string>)
    ensures LastWins(out, Split(script, '\n'), finite)
    ensures warnings == Warnings(Split(script, '\n'))
  {
    hide LineEffect, LineWarning, LastSets, Sets;
    var lines := Split(script, '\n');
    out, warnings := map[], [];
    for n := 0 to |lines|
      invariant LastWins(out, lines[..n], finite)
      invariant warnings == Warnings(lines[..n])
    {
      var effect := LineEffect(lines[n], finite);
      LastWinsNext(out, lines[..n], lines[n], finite);
      assert lines[..n + 1] == lines[..n] + [lines[n]];
      if effect.Some? { out := out[effect.value.0 := effect.value.1]; }
      assert lines[..n + 1][..n] == lines[..n];
      warnings := warnings + LineWarning(lines[n]);
    }
    assert lines[..|lines|] == lines;
  }

  /**
   * A directive line nothing comes of: it names no flag, its number cannot be
   * used, or its log file is in no directory of its own.
   */
  predicate Silent(line: string, finite: string -> bool)
    requires IsDirective(line)
  {
    var text := StripComment(Trim(line)[|MARK|..]);
    if !("-" <= text) then true
    else
      match ReadDirective(line)
      case None => false
      case Some(d) =>
        || ((d.key == "cpus-per-task" || d.key == "nodes") && (d.value == "" || !finite(d.value)))
        || ((d.key == "output" || d.key == "error") && Dirname(d.value) == ".")
  }

  lemma {:induction false} SomeWord(s: string, word: string)
    requires word != "" || (s != "" && !IsSpace(s[0]))
    ensures Words(s, word) != []
  {
    if s == "" || IsSpace(s[0]) {
    } else {
      SomeWord(s[1..], word + [s[0]]);
    }
  }

  lemma FlagIsRead(rest: string)
    ensures SplitDirective(rest).Some? <==> "-" <= Trim(rest)
  {
    hide IndexOf, Trim;
    var t := Trim(rest);
    if "-" <= t {
      assert t[0] == '-';
      SomeWord(t, "");
    }
  }

  lemma KnownKeys(key: string)
    ensures key in KNOWN <==>
              || key == "partition" || key == "gres" || key == "cpus-per-task" || key == "mem" || key == "time" || key == "nodes"
              || key == "account" || key == "qos" || key == "constraint" || key == "exclude" || key == "output" || key == "error"
              || key == "chdir"
  {
  }

  lemma LogDirIsNamed(path: string)
    ensures Dirname(path) != ""
    ensures LogEffect(path).None? <==> Dirname(path) == "."
  {
  }

  lemma FateOf(d: Directive, finite: string -> bool)
    ensures Effect(d, finite).None? && d.key in KNOWN <==>
              || ((d.key == "cpus-per-task" || d.key == "nodes") && (d.value == "" || !finite(d.value)))
              || ((d.key == "output" || d.key == "error") && Dirname(d.value) == ".")
    ensures Effect(d, finite).Some? ==> d.key in KNOWN
  {
    hide LogEffect, Dirname;
    LogDirIsNamed(d.value);
    KnownKeys(d.key);
  }

  /** Every directive line is applied, warned of, or silent, and only one of these. */
  lemma EachDirectivesFate(line: string, finite: string -> bool)
    requires IsDirective(line)
    ensures Silent(line, finite) <==> LineEffect(line, finite).None? && LineWarning(line) == []
    ensures LineEffect(line, finite).None? || LineWarning(line) == []
  {
    hide Effect, SplitDirective, StripComment, Dirname, Trim, KNOWN;
    var text := StripComment(Trim(line)[|MARK|..]);
    FlagIsRead(text);
    TrimmedText(Trim(line)[|MARK|..]);
    var d := ReadDirective(line);
    if d.Some? { FateOf(d.value, finite); }
  }

  lemma TrimmedText(s: string)
    ensures Trim(StripComment(s)) == StripComment(s)
  {
  }

  lemma LastWinsNext(out: map<Setting, string>, lines: seq<string>, line: string, finite: string -> bool)
    requires LastWins(out, lines, finite)
    ensures var e := LineEffect(line, finite);
            LastWins(if e.Some? then out[e.value.0 := e.value.1] else out, lines + [line], finite)
  {
    hide LineEffect;
    var e := LineEffect(line, finite);
    var next := if e.Some? then out[e.value.0 := e.value.1] else out;
    var all := lines + [line];
    forall s | s in next ensures exists i :: LastSets(all, i, s, next[s], finite) {
      if e.Some? && s == e.value.0 {
        assert LastSets(all, |lines|, s, next[s], finite);
      } else {
        var i :| LastSets(lines, i, s, out[s], finite);
        assert LastSets(all, i, s, next[s], finite);
      }
    }
    forall s, i | 0 <= i < |all| && Sets(all[i], s, finite) ensures s in next {
      if i < |lines| { assert Sets(lines[i], s, finite); }
    }
  }

  lemma {:induction false} NoWarnings(lines: seq<string>)
    requires forall i | 0 <= i < |lines| :: !IsDirective(lines[i])
    ensures Warnings(lines) == []
  {
    if lines == [] {
    } else {
      NoWarnings(lines[..|lines| - 1]);
    }
  }

  /** A stored script asks for nothing: every setting was lifted out of it. */
  lemma StrippedSetsNothing(script: string, out: map<Setting, string>, finite: string -> bool)
    requires LastWins(out, Split(Strip(script), '\n'), finite)
    ensures out == map[] && Warnings(Split(Strip(script), '\n')) == []
  {
    var lines := Split(Strip(script), '\n');
    StripTwice(script);
    NoWarnings(lines);
    forall s, i: nat, value ensures !LastSets(lines, i, s, value, finite) {
      if i < |lines| { assert lines[i] in lines; }
    }
    assert out.Keys == {};
  }
}
