/**
 * The submitted job script: directives left out, the environment exported and
 * the working directory entered right after the shebang, values quoted so the
 * shell reads them back as they were.
 */
module JobScript {
  import opened Text
  import opened Wrappers
  import opened Directives

  datatype Variable = Variable(name: string, value: string)

  // -------------------------------------------------------------------------
  // The program
  // -------------------------------------------------------------------------

  /** Each single quote closed, escaped and opened again. */
  function EscapeQuotes(v: string): string {
    if v == "" then "" else (if v[0] == '\'' then "'\\''" else [v[0]]) + EscapeQuotes(v[1..])
  }

  function Quoted(v: string): string { "'" + EscapeQuotes(v) + "'" }

  function Named(env: seq<Variable>): seq<Variable> {
    if env == [] then []
    else (if Trim(env[0].name) != "" then [env[0]] else []) + Named(env[1..])
  }

  function ExportLine(v: Variable): string { "export " + v.name + "=" + Quoted(v.value) }

  function ExportLines(env: seq<Variable>): seq<string> {
    if env == [] then [] else [ExportLine(env[0])] + ExportLines(env[1..])
  }

  predicate IsShebang(line: string) { "#!" <= line }

  /** A block put after the shebang when there is one, and first otherwise. */
  function AfterShebang(body: string, block: string): string {
    var lines := Split(body, '\n');
    if IsShebang(lines[0]) then Join([lines[0], block] + lines[1..], "\n") else Join([block] + lines, "\n")
  }

  function ApplyEnv(body: string, env: seq<Variable>): string {
    var entries := Named(env);
    if entries == [] then body else AfterShebang(body, Join(ExportLines(entries), "\n"))
  }

  function Guard(dir: string): string { "cd " + Quoted(dir) + " || exit 1" }

  function ApplyChdir(body: string, dir: Option<string>): string {
    if dir.None? || dir.value == "" then body else AfterShebang(body, Guard(dir.value))
  }

  /** The script a deployment stores, from its rendered text. */
  function JobScript(rendered: string, env: seq<Variable>, dir: Option<string>): string {
    ApplyChdir(ApplyEnv(Strip(rendered), env), dir)
  }

  // -------------------------------------------------------------------------
  // What the shell reads: quoting as in sections 2.2.1 and 2.2.2 of the POSIX
  // Shell Command Language
  // -------------------------------------------------------------------------

  predicate EndsWord(c: char) { c == ' ' || c == '\t' || c == '\n' || c == ';' || c == '&' || c == '|' || c == '<' || c == '>' || c == '(' || c == ')' }

  /** Characters whose meaning outside quotes is not modelled. */
  predicate Special(c: char) { c in "$`\"*?[#~=%" }

  /** A word with its quotes removed, and what follows it. */
  function ReadWord(s: string): (r: Option<(string, string)>)
    ensures r.Some? ==> |r.value.1| <= |s|
    decreases |s|, 1
  {
    if s == "" || EndsWord(s[0]) then Some(("", s))
    else if s[0] == '\'' then ReadQuotedPart(s[1..])
    else if s[0] == '\\' then
      if |s| == 1 then None
      else if s[1] == '\n' then ReadWord(s[2..])
      else Prefixed(s[1], ReadWord(s[2..]))
    else if Special(s[0]) then None
    else Prefixed(s[0], ReadWord(s[1..]))
  }

  function Prefixed(c: char, r: Option<(string, string)>): Option<(string, string)> {
    if r.None? then None else Some(([c] + r.value.0, r.value.1))
  }

  /** The rest of a word inside single quotes: everything up to the next one is literal. */
  function ReadQuotedPart(s: string): (r: Option<(string, string)>)
    ensures r.Some? ==> |r.value.1| <= |s|
    decreases |s|, 0
  {
    if s == "" then None
    else if s[0] == '\'' then ReadWord(s[1..])
    else Prefixed(s[0], ReadQuotedPart(s[1..]))
  }

  predicate WordEnds(rest: string) { rest == "" || EndsWord(rest[0]) }

  lemma {:induction false} ReadEscaped(v: string, rest: string)
    requires WordEnds(rest)
    ensures ReadQuotedPart(EscapeQuotes(v) + ("'" + rest)) == Some((v, rest))
  {
    var s := EscapeQuotes(v) + ("'" + rest);
    if v == "" {
      assert s == "'" + rest && s[1..] == rest;
    } else {
      var tail := EscapeQuotes(v[1..]) + ("'" + rest);
      ReadEscaped(v[1..], rest);
      assert v == [v[0]] + v[1..];
      if v[0] == '\'' {
        assert s == "'\\''" + tail;
        ReopenQuote(s, tail);
      } else {
        assert s == [v[0]] + tail && s[1..] == tail;
      }
    }
  }

  lemma ReopenQuote(s: string, tail: string)
    requires s == "'\\''" + tail
    ensures ReadQuotedPart(s) == Prefixed('\'', ReadQuotedPart(tail))
  {
    assert s[1..] == "\\''" + tail && s[1..][2..] == "'" + tail && ("'" + tail)[1..] == tail;
    assert ReadWord("'" + tail) == ReadQuotedPart(tail);
  }

  /** A quoted value reads back as itself. */
  lemma ReadBack(v: string, rest: string)
    requires WordEnds(rest)
    ensures ReadWord(Quoted(v) + rest) == Some((v, rest))
  {
    var s := Quoted(v) + rest;
    ReadEscaped(v, rest);
    assert s[0] == '\'' && s[1..] == EscapeQuotes(v) + ("'" + rest);
  }

  /** A text without a given prefix, or None when it does not start with it. */
  function After(prefix: string, s: string): (r: Option<string>)
    ensures r.Some? ==> s == prefix + r.value
  {
    if prefix <= s then Some(s[|prefix|..]) else None
  }

  /** `export` lines for these names, read by the shell: each value, and the text after them. */
  function ReadExports(s: string, names: seq<string>): Option<(seq<string>, string)>
    decreases |names|
  {
    if names == [] then Some(([], s))
    else
      match After("export " + names[0] + "=", s)
      case None => None
      case Some(word) =>
        match ReadWord(word) {
          case None => None
          case Some((value, rest)) =>
            match After("\n", rest) {
              case None => None
              case Some(next) =>
                match ReadExports(next, names[1..])
                case None => None
                case Some((values, after)) => Some(([value] + values, after))
            }
        }
  }

  function NamesOf(env: seq<Variable>): seq<string> { if env == [] then [] else [env[0].name] + NamesOf(env[1..]) }

  function ValuesOf(env: seq<Variable>): seq<string> { if env == [] then [] else [env[0].value] + ValuesOf(env[1..]) }

  /** Every exported value reads back unchanged, whatever quotes or line breaks it holds. */
  lemma {:induction false} ExportsReadBack(env: seq<Variable>, rest: string)
    requires env != []
    ensures ReadExports(Join(ExportLines(env), "\n") + ("\n" + rest), NamesOf(env)) == Some((ValuesOf(env), rest))
  {
    hide ReadWord;
    var lines := ExportLines(env);
    assert lines[1..] == ExportLines(env[1..]);
    var prefix := "export " + env[0].name + "=";
    var next := if |env| == 1 then rest else Join(lines[1..], "\n") + ("\n" + rest);
    var s := Join(lines, "\n") + ("\n" + rest);
    assert s == prefix + (Quoted(env[0].value) + ("\n" + next));
    assert s[|prefix|..] == Quoted(env[0].value) + ("\n" + next);
    ReadBack(env[0].value, "\n" + next);
    assert ("\n" + next)[1..] == next;
    assert NamesOf(env)[1..] == NamesOf(env[1..]);
    if |env| > 1 {
      ExportsReadBack(env[1..], rest);
    } else {
      assert env[1..] == [];
    }
  }

  /** The guard names the declared directory. */
  lemma GuardReadsBack(dir: string)
    ensures var s := Guard(dir); After("cd ", s).Some? && ReadWord(After("cd ", s).value) == Some((dir, " || exit 1"))
  {
    assert Guard(dir)[3..] == Quoted(dir) + " || exit 1";
    ReadBack(dir, " || exit 1");
  }

  /** A directory named from another one. */
  function Within(pwd: string, name: string): string { if "/" <= name then name else pwd + "/" + name }

  predicate IsDotted(name: string) { name == "." || name == ".." || "./" <= name || "../" <= name }

  function Under(path: seq<string>, name: string): seq<string> {
    if path == [] then [] else [Within(path[0], name)] + Under(path[1..], name)
  }

  /**
   * The directories `cd` tries for an operand, in order, by steps 3 to 6 of
   * its description in the POSIX Shell and Utilities volume: a dash is the
   * directory before, other leading dashes are options, and only a name that
   * is not absolute or dotted is looked up along CDPATH.
   */
  function CdTries(name: string, pwd: string, before: string, path: seq<string>): Option<seq<string>> {
    if name == "-" then Some([before])
    else if "-" <= name then None
    else if "/" <= name || IsDotted(name) then Some([Within(pwd, name)])
    else Some(Under(path, name) + [Within(pwd, name)])
  }

  /** Wherever the shell stands, the guard tries the declared directory and no other. */
  ghost predicate EntersDeclared(dir: string) {
    forall pwd: string, before: string, path: seq<string> :: CdTries(dir, pwd, before, path) == Some([Within(pwd, dir)])
  }

  /** It does so exactly when the directory is absolute or dotted. */
  lemma GuardEnters(dir: string)
    ensures EntersDeclared(dir) <==> "/" <= dir || IsDotted(dir)
  {
    if dir == "-" {
      assert dir[0] == '-' && Within("", dir)[0] == '/';
      assert CdTries(dir, "", "", []) == Some([""]);
    } else if !("-" <= dir) && !("/" <= dir || IsDotted(dir)) {
      assert |Under(["/"], dir)| == 1;
      assert CdTries(dir, "", "", ["/"]) != Some([Within("", dir)]) by {
        assert |CdTries(dir, "", "", ["/"]).value| == 2;
      }
    } else if "-" <= dir {
      assert CdTries(dir, "", "", []) == None;
      assert dir[0] == '-';
    }
  }

  // -------------------------------------------------------------------------
  // The layout
  // -------------------------------------------------------------------------

  /** The shebang line, when there is one. */
  function Shebang(lines: seq<string>): seq<string>
    requires lines != []
  {
    if IsShebang(lines[0]) then [lines[0]] else []
  }

  function Rest(lines: seq<string>): seq<string>
    requires lines != []
  {
    if IsShebang(lines[0]) then lines[1..] else lines
  }

  function GuardLines(dir: Option<string>): seq<string> {
    if dir.None? || dir.value == "" then [] else [Guard(dir.value)]
  }

  lemma NoShebang(body: string, block: string)
    requires !IsShebang(body)
    ensures AfterShebang(body, block) == block + "\n" + body
  {
    var lines := Split(body, '\n');
    JoinSplit(body, '\n');
    FirstLine(body);
    JoinCons(block, lines, "\n");
  }

  /** A text starts with a shebang exactly when its first line does. */
  lemma FirstLine(body: string)
    ensures IsShebang(Split(body, '\n')[0]) <==> IsShebang(body)
  {
    if |body| >= 2 && body[0] != '\n' && body[1] != '\n' {
      assert body[1..][1..] == body[2..];
      var rest := Split(body[2..], '\n');
      assert Split(body[1..], '\n')[0] == [body[1]] + rest[0];
      assert Split(body, '\n')[0] == [body[0]] + ([body[1]] + rest[0]);
    } else if |body| >= 2 && body[0] != '\n' {
      assert Split(body[1..], '\n')[0] == "";
      assert |Split(body, '\n')[0]| == 1;
    } else if |body| == 1 && body[0] != '\n' {
      assert |Split(body, '\n')[0]| == 1;
    }
  }

  lemma OnlyShebang(first: string, block: string)
    requires IsShebang(first) && '\n' !in first
    ensures AfterShebang(first, block) == first + "\n" + block
  {
    hide IsShebang;
    SplitPlain(first, '\n');
    assert [first, block] + [first][1..] == [first] + [block];
    JoinCons(first, [block], "\n");
  }

  lemma InsertSecond(first: string, block: string, rest: seq<string>)
    ensures [first, block] + ([first] + rest)[1..] == [first] + ([block] + rest)
  {
  }

  lemma ShebangAndMore(first: string, tail: string, block: string)
    requires IsShebang(first) && '\n' !in first
    ensures AfterShebang(first + ("\n" + tail), block) == first + "\n" + (block + "\n" + tail)
  {
    hide IsShebang, Split, Join;
    var rest := Split(tail, '\n');
    SplitAt(first, tail, '\n');
    JoinSplit(tail, '\n');
    InsertSecond(first, block, rest);
    JoinCons(first, [block] + rest, "\n");
    JoinCons(block, rest, "\n");
  }

  lemma WithShebang(first: string, tail: Option<string>, block: string)
    requires IsShebang(first) && '\n' !in first
    ensures tail.None? ==> AfterShebang(first, block) == first + "\n" + block
    ensures tail.Some? ==> AfterShebang(first + ("\n" + tail.value), block) == first + "\n" + (block + "\n" + tail.value)
  {
    hide IsShebang, AfterShebang;
    OnlyShebang(first, block);
    if tail.Some? { ShebangAndMore(first, tail.value, block); }
  }

  /** Putting a block in after the shebang puts its pieces between the shebang and the rest. */
  lemma InsertPieces(shebang: seq<string>, block: seq<string>, rest: seq<string>)
    requires |shebang| <= 1 && block != []
    requires shebang == [] ==> rest != [] && !IsShebang(Join(rest, "\n"))
    requires shebang != [] ==> IsShebang(shebang[0]) && '\n' !in shebang[0]
    ensures AfterShebang(Join(shebang + rest, "\n"), Join(block, "\n")) == Join(shebang + block + rest, "\n")
  {
    hide AfterShebang, IsShebang, Join;
    if shebang == [] {
      assert shebang + rest == rest && shebang + block + rest == block + rest;
      NoShebang(Join(rest, "\n"), Join(block, "\n"));
      JoinAppend(block, rest, "\n");
    } else if rest == [] {
      assert shebang + rest == shebang && shebang + block + rest == shebang + block;
      JoinOne(shebang, "\n");
      JoinAppend(shebang, block, "\n");
      WithShebang(shebang[0], None, Join(block, "\n"));
    } else {
      JoinOne(shebang, "\n");
      JoinAppend(shebang, rest, "\n");
      JoinAppend(shebang, block + rest, "\n");
      JoinAppend(block, rest, "\n");
      assert shebang + block + rest == shebang + (block + rest);
      assert shebang[0] + "\n" + Join(rest, "\n") == shebang[0] + ("\n" + Join(rest, "\n"));
      WithShebang(shebang[0], Some(Join(rest, "\n")), Join(block, "\n"));
    }
  }

  lemma JoinOne(one: seq<string>, sep: string)
    requires |one| == 1
    ensures Join(one, sep) == one[0]
  {
  }

  lemma JoinStart(pieces: seq<string>)
    requires pieces != []
    ensures pieces[0] <= Join(pieces, "\n")
    ensures |pieces[0]| >= 2 ==> (IsShebang(Join(pieces, "\n")) <==> IsShebang(pieces[0]))
  {
  }

  /** The first line decides, even when it is short. */
  lemma PlainStart(lines: seq<string>)
    requires lines != [] && !IsShebang(lines[0]) && forall l | l in lines :: '\n' !in l
    ensures !IsShebang(Join(lines, "\n"))
  {
    SplitJoin(lines, '\n');
    FirstLine(Join(lines, "\n"));
  }

  /**
   * The script is the shebang, then the directory guard, then the exports,
   * then the other lines in order; the lines are those of the rendered script
   * that are not directives.
   */
  lemma Layout(rendered: string, env: seq<Variable>, dir: Option<string>)
    ensures var lines := KeptLines(rendered);
            && Shebang(lines) + Rest(lines) == lines
            && JobScript(rendered, env, dir)
               == Join(Shebang(lines) + GuardLines(dir) + ExportLines(Named(env)) + Rest(lines), "\n")
  {
    hide Guard, ExportLine, ExportLines, Named, KeptLines, AfterShebang, IsShebang, Join, Shebang, Rest, Strip;
    var lines := KeptLines(rendered);
    var s, r := Shebang(lines), Rest(lines);
    var e := ExportLines(Named(env));
    StrippedLines(rendered);
    SplitHasNoSep(Strip(rendered), '\n');
    JoinSplit(Strip(rendered), '\n');
    Parts(lines);
    EnvStep(lines, env);
    DirStep(lines, Named(env), dir);
    assert Strip(rendered) == Join(s + r, "\n");
    assert s + GuardLines(dir) + (e + r) == s + GuardLines(dir) + e + r;
  }

  lemma Parts(lines: seq<string>)
    requires lines != [] && forall l | l in lines :: '\n' !in l
    ensures var s, r := Shebang(lines), Rest(lines);
            && s + r == lines && |s| <= 1
            && (s == [] ==> r == lines && !IsShebang(Join(r, "\n")))
            && (s != [] ==> IsShebang(s[0]) && '\n' !in s[0])
  {
    hide Join;
    assert lines[0] in lines;
    if !IsShebang(lines[0]) { PlainStart(lines); }
  }

  lemma ExportLinesOf(env: seq<Variable>)
    ensures ExportLines(env) == [] <==> env == []
  {
  }

  lemma EnvStep(lines: seq<string>, env: seq<Variable>)
    requires lines != [] && forall l | l in lines :: '\n' !in l
    ensures ApplyEnv(Join(Shebang(lines) + Rest(lines), "\n"), env)
         == Join(Shebang(lines) + (ExportLines(Named(env)) + Rest(lines)), "\n")
  {
    hide ExportLines, Named, AfterShebang, IsShebang, Join, Shebang, Rest;
    var s, r, e := Shebang(lines), Rest(lines), ExportLines(Named(env));
    Parts(lines);
    ExportLinesOf(Named(env));
    if e != [] {
      InsertPieces(s, e, r);
      assert s + e + r == s + (e + r);
    } else {
      assert e + r == r;
    }
  }

  lemma DirStep(lines: seq<string>, env: seq<Variable>, dir: Option<string>)
    requires lines != [] && forall l | l in lines :: '\n' !in l
    ensures var more := ExportLines(env) + Rest(lines);
            ApplyChdir(Join(Shebang(lines) + more, "\n"), dir) == Join(Shebang(lines) + GuardLines(dir) + more, "\n")
  {
    hide ExportLines, Guard, AfterShebang, IsShebang, Join, Shebang, Rest;
    var s, r, e, g := Shebang(lines), Rest(lines), ExportLines(env), GuardLines(dir);
    Parts(lines);
    ExportLinesOf(env);
    if g != [] {
      if env != [] { ExportsStart(env, r); } else { assert e + r == r; }
      JoinOne(g, "\n");
      InsertPieces(s, g, e + r);
    } else {
      assert s + g + (e + r) == s + (e + r);
    }
  }

  lemma ExportsStart(env: seq<Variable>, rest: seq<string>)
    requires env != []
    ensures !IsShebang(Join(ExportLines(env) + rest, "\n"))
  {
    var pieces := ExportLines(env) + rest;
    assert pieces[0] == ExportLine(env[0]) && pieces[0][0] == 'e';
    JoinStart(pieces);
  }

  /** Exactly the variables whose name is not blank are exported, in their order. */
  lemma {:induction false} ExportedAre(a: seq<Variable>, v: Variable)
    ensures Named(a + [v]) == if Trim(v.name) != "" then Named(a) + [v] else Named(a)
    ensures Named([]) == []
  {
    hide Trim;
    if a == [] {
      assert [] + [v] == [v] && [v][1..] == [];
    } else {
      assert (a + [v])[1..] == a[1..] + [v];
      ExportedAre(a[1..], v);
    }
  }

  /** A shebang is a first line that starts with `#!`. */
  lemma ShebangIs(line: string)
    ensures IsShebang(line) <==> |line| >= 2 && line[0] == '#' && line[1] == '!'
  {
  }
}
