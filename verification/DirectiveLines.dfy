/** What a `#SBATCH` line says, from the line as it is written. */
module DirectiveLines {
  import opened Text
  import opened Wrappers
  import opened Directives

  predicate NoSpace(s: string) { forall c | c in s :: !IsSpace(c) }

  /** No comment starts in a text: no `#` after white space. */
  predicate NoComment(s: string) { forall i | 0 < i < |s| && s[i] == '#' :: !IsSpace(s[i - 1]) }

  /** A text that trimming leaves alone. */
  predicate Trimmed(s: string) { s == "" || (!IsSpace(s[0]) && !IsSpace(s[|s| - 1])) }

  lemma TrimSpace(s: string)
    requires Trimmed(s)
    ensures Trim(" " + s) == s && Trim(s) == s
  {
    assert (" " + s)[1..] == s;
  }

  lemma {:induction false} CommentIs(s: string, rest: string)
    requires NoComment(s) && (rest == "" || (|rest| >= 2 && IsSpace(rest[0]) && rest[1] == '#'))
    ensures CommentAt(s + rest) == |s|
  {
    if s == "" {
      assert s + rest == rest;
    } else {
      assert (s + rest)[1..] == s[1..] + rest;
      if |s| > 1 {
        assert (s + rest)[1] == s[1];
      } else if rest != "" {
        assert (s + rest)[1] == rest[0];
      }
      CommentIs(s[1..], rest);
    }
  }

  /** A comment, and the white space before it, is no part of a directive. */
  lemma CommentDropped(s: string, rest: string)
    requires NoComment(s) && (rest == "" || (|rest| >= 2 && IsSpace(rest[0]) && rest[1] == '#'))
    ensures StripComment(s + rest) == Trim(s)
  {
    CommentIs(s, rest);
    assert (s + rest)[..|s|] == s;
  }

  lemma {:induction false} OneWord(word: string, tail: string, done: string)
    requires NoSpace(word) && (tail == "" || IsSpace(tail[0])) && done + word != ""
    ensures Words(word + tail, done) == [done + word] + if tail == "" then [] else Words(tail[1..], "")
  {
    if word == "" {
      assert word + tail == tail && done + word == done;
    } else {
      assert word[0] in word && (word + tail)[0] == word[0] && (word + tail)[1..] == word[1..] + tail;
      assert forall c | c in word[1..] :: c in word;
      OneWord(word[1..], tail, done + [word[0]]);
      assert done + [word[0]] + word[1..] == done + word;
    }
  }

  lemma WordThenMore(first: string, more: string)
    requires first != "" && NoSpace(first)
    ensures Words(first + (" " + more), "") == [first] + Words(more, "")
    ensures Words(first, "") == [first]
  {
    hide Words;
    OneWord(first, " " + more, "");
    OneWord(first, "", "");
    assert (" " + more)[1..] == more && first + "" == first && "" + first == first;
  }

  /** Words joined by a space are those words again. */
  lemma {:induction false} WordsAre(words: seq<string>)
    requires words != [] && forall w | w in words :: w != "" && NoSpace(w)
    ensures Words(Join(words, " "), "") == words
  {
    hide Words, NoSpace, Join;
    var first, more := words[0], words[1..];
    assert first in words && words == [first] + more;
    forall w | w in more ensures w != "" && NoSpace(w) { assert w in words; }
    WordThenMore(first, Join(more, " "));
    if more == [] {
      assert words == [first];
      JoinOne(first);
    } else {
      WordsAre(more);
      JoinCons(first, more, " ");
      assert first + " " + Join(more, " ") == first + (" " + Join(more, " "));
    }
  }

  lemma JoinOne(word: string)
    ensures Join([word], " ") == word
  {
  }

  // -------------------------------------------------------------------------
  // A directive line
  // -------------------------------------------------------------------------

  /** A `#SBATCH` line with this text on it, and perhaps a comment. */
  ghost predicate Says(line: string, text: string) {
    exists comment ::
      (comment == "" || (|comment| >= 2 && IsSpace(comment[0]) && comment[1] == '#'))
      && line == "#SBATCH" + (" " + text + comment) && Trimmed(line)
  }

  /** A directive line is one that starts with `#SBATCH`, white space before it or not. */
  lemma DirectiveIs(line: string)
    ensures IsDirective(line) <==> exists a, rest :: (forall c | c in a :: IsSpace(c)) && line == a + "#SBATCH" + rest
  {
    hide Trim;
    if IsDirective(line) { DirectiveMarked(line); }
    if p, rest :| (forall c | c in p :: IsSpace(c)) && line == p + "#SBATCH" + rest {
      MarkStarts(p, rest);
    }
  }

  lemma DirectiveMarked(line: string)
    requires IsDirective(line)
    ensures exists a, rest :: (forall c | c in a :: IsSpace(c)) && line == a + "#SBATCH" + rest
  {
    hide Trim;
    var a, b := TrimIs(line);
    var t := Trim(line);
    assert t == "#SBATCH" + t[7..];
    assert a + t + b == a + "#SBATCH" + (t[7..] + b);
    assert forall c | c in a :: c in a + b;
  }

  lemma {:induction false} MarkStarts(p: string, rest: string)
    requires forall c | c in p :: IsSpace(c)
    ensures "#SBATCH" <= Trim(p + "#SBATCH" + rest)
    decreases |p| + |rest|
  {
    var line := p + "#SBATCH" + rest;
    if p != "" {
      assert p[0] in p && line[1..] == p[1..] + "#SBATCH" + rest;
      MarkStarts(p[1..], rest);
    } else if rest != "" && IsSpace(rest[|rest| - 1]) {
      assert line[0] == '#' && line[|line| - 1] == rest[|rest| - 1] && line[..|line| - 1] == p + "#SBATCH" + rest[..|rest| - 1];
      MarkStarts(p, rest[..|rest| - 1]);
    } else {
      assert line[0] == '#' && line[|line| - 1] == if rest == "" then 'H' else rest[|rest| - 1];
    }
  }

  lemma ReadSaid(line: string, text: string)
    requires Says(line, text) && NoComment(" " + text) && Trimmed(text)
    ensures IsDirective(line) && ReadDirective(line) == SplitDirective(text)
  {
    hide Trim, StripComment, SplitDirective;
    var comment :|
      (comment == "" || (|comment| >= 2 && IsSpace(comment[0]) && comment[1] == '#'))
      && line == "#SBATCH" + (" " + text + comment) && Trimmed(line);
    assert Trim(line) == line;
    assert line[7..] == " " + text + comment && line[..7] == "#SBATCH";
    CommentDropped(" " + text, comment);
    TrimSpace(text);
  }

  lemma {:induction false} FirstAt(a: string, c: char, b: string)
    requires c !in a
    ensures IndexOf(a + ([c] + b), c) == |a|
  {
    var t := a + ([c] + b);
    if a == "" {
      assert t == [c] + b;
    } else {
      assert a[0] in a && t[0] == a[0] && t[1..] == a[1..] + ([c] + b) && forall d | d in a[1..] :: d in a;
      FirstAt(a[1..], c, b);
    }
  }

  lemma SplitAtEquals(key: string, value: string)
    requires '=' !in key && Trimmed("--" + key + "=" + value)
    ensures SplitDirective("--" + key + "=" + value) == Some(Directive(key, Trim(value)))
  {
    hide Trim, Words, IndexOf, SplitDirective;
    var flag := "--" + key;
    var text := flag + "=" + value;
    FlagParts(key, value);
    assert Trim(text) == text;
    assert flag + (['='] + value) == text;
    FirstAt(flag, '=', value);
    SplitWhere(text, |flag|);
  }

  lemma FlagParts(key: string, value: string)
    ensures var text := "--" + key + "=" + value;
            |key| + 2 < |text| && text != "" && text[2..|key| + 2] == key && text[|key| + 3..] == value && text[|key| + 2] == '=' && "--" <= text
  {
    var flag := "--" + key;
    var text := flag + "=" + value;
    assert text[..|flag|] == flag && flag[2..] == key;
  }

  lemma SplitWhere(text: string, eq: nat)
    requires Trim(text) == text && "--" <= text && 2 <= eq < |text| && text[eq] == '=' && IndexOf(text, '=') == eq
    ensures SplitDirective(text) == Some(Directive(text[2..eq], Trim(text[eq + 1..])))
  {
    hide Trim, Words, IndexOf;
  }

  lemma SplitAtWords(text: string, flag: string, words: seq<string>)
    requires Trim(text) == text && "-" <= text && !("--" <= text && '=' in text) && Words(text, "") == [flag] + words
    ensures var value := Trim(Join(words, " "));
            SplitDirective(text) == Some(if "--" <= flag then Directive(flag[2..], value)
                                         else Directive(if LongName(flag).Some? then LongName(flag).value else flag, value))
  {
    hide Trim, Words, Join, LongName;
    assert ([flag] + words)[1..] == words;
  }

  /** `--key=value` */
  lemma EqualsForm(line: string, key: string, value: string)
    requires Says(line, "--" + key + "=" + value) && '=' !in key
    requires Trimmed("--" + key + "=" + value) && NoComment(" " + ("--" + key + "=" + value))
    ensures ReadDirective(line) == Some(Directive(key, Trim(value)))
  {
    hide Trim, SplitDirective, ReadDirective;
    ReadSaid(line, "--" + key + "=" + value);
    SplitAtEquals(key, value);
  }

  /** `--key word word …`, without an equals sign. */
  lemma WordsForm(line: string, key: string, words: seq<string>)
    requires key != "" && NoSpace(key) && forall w | w in words :: w != "" && NoSpace(w)
    requires var text := Join(["--" + key] + words, " ");
             Says(line, text) && '=' !in text && Trimmed(text) && NoComment(" " + text)
    ensures ReadDirective(line) == Some(Directive(key, Join(words, " ")))
  {
    hide Trim, Words, Join, SplitDirective, ReadDirective, NoSpace, NoComment, Says;
    var flag := "--" + key;
    var text := Join([flag] + words, " ");
    StartsWith(flag, words);
    ReadSaid(line, text);
    assert Trim(text) == text;
    assert NoSpace(flag) by { Dashes(key); }
    WordsAre([flag] + words);
    SplitAtWords(text, flag, words);
    assert flag[2..] == key;
    JoinTrimmed(words);
  }

  lemma Dashes(key: string)
    requires NoSpace(key)
    ensures NoSpace("--" + key)
  {
  }

  lemma StartsWith(flag: string, words: seq<string>)
    ensures flag <= Join([flag] + words, " ")
  {
    if words == [] {
      assert [flag] + words == [flag];
    } else {
      JoinCons(flag, words, " ");
    }
  }

  lemma {:induction false} JoinTrimmed(words: seq<string>)
    requires forall w | w in words :: w != "" && NoSpace(w)
    ensures Trim(Join(words, " ")) == Join(words, " ")
    ensures words != [] ==> Join(words, " ") != "" && Trimmed(Join(words, " "))
  {
    if words == [] {
    } else if |words| == 1 {
      assert words[0] in words && words[0][0] in words[0] && words[0][|words[0]| - 1] in words[0];
    } else {
      var more := words[1..];
      assert words[0] in words && words[0][0] in words[0] && forall w | w in more :: w in words;
      JoinTrimmed(more);
      var t := Join(words, " ");
      assert t == words[0] + " " + Join(more, " ");
      assert t[|t| - 1] == Join(more, " ")[|Join(more, " ")| - 1];
    }
  }

  /** What a short flag stands for. */
  ghost predicate Stands(flag: string, key: string) {
    (flag, key) in {
      ("-p", "partition"), ("-c", "cpus-per-task"), ("-N", "nodes"), ("-A", "account"), ("-q", "qos"), ("-C", "constraint"),
      ("-x", "exclude"), ("-t", "time"), ("-o", "output"), ("-e", "error"), ("-D", "chdir")}
  }

  /** `-f word word …`: the flag's long name, or the flag itself when it has none. */
  lemma ShortForm(line: string, flag: string, words: seq<string>)
    requires "-" <= flag && !("--" <= flag) && NoSpace(flag) && forall w | w in words :: w != "" && NoSpace(w)
    requires var text := Join([flag] + words, " "); Says(line, text) && Trimmed(text) && NoComment(" " + text)
    ensures forall key | Stands(flag, key) :: ReadDirective(line) == Some(Directive(key, Join(words, " ")))
    ensures (forall key :: !Stands(flag, key)) ==> ReadDirective(line) == Some(Directive(flag, Join(words, " ")))
  {
    hide Trim, Words, Join, LongName, SplitDirective, ReadDirective, NoSpace, NoComment, Says, Stands;
    var text := Join([flag] + words, " ");
    StartsWith(flag, words);
    ReadSaid(line, text);
    assert Trim(text) == text;
    WordsAre([flag] + words);
    assert !("--" <= text) by { NotLong(flag, words); }
    SplitAtWords(text, flag, words);
    JoinTrimmed(words);
    LongNames(flag);
  }

  lemma NotLong(flag: string, words: seq<string>)
    requires "-" <= flag && !("--" <= flag)
    ensures !("--" <= Join([flag] + words, " "))
  {
    if words == [] {
      assert [flag] + words == [flag];
    } else {
      JoinCons(flag, words, " ");
      var text := Join([flag] + words, " ");
      assert text[1] == if |flag| == 1 then ' ' else flag[1];
    }
  }

  lemma LongNames(flag: string)
    ensures forall key :: LongName(flag) == Some(key) <==> Stands(flag, key)
    ensures LongName(flag).None? ==> forall key :: !Stands(flag, key)
  {
  }

  // -------------------------------------------------------------------------
  // What it sets
  // -------------------------------------------------------------------------

  /** Each key sets its own field, as written; a count only where it is a number, a log folder only where there is one. */
  lemma KeysSet(v: string, finite: string -> bool)
    ensures Effect(Directive("partition", v), finite) == Some((Partition, v))
    ensures Effect(Directive("gres", v), finite) == Some((Gres, v))
    ensures Effect(Directive("mem", v), finite) == Some((Mem, v))
    ensures Effect(Directive("time", v), finite) == Some((TimeLimit, v))
    ensures Effect(Directive("account", v), finite) == Some((Account, v))
    ensures Effect(Directive("qos", v), finite) == Some((Qos, v))
    ensures Effect(Directive("constraint", v), finite) == Some((Constraints, v))
    ensures Effect(Directive("exclude", v), finite) == Some((Exclude, v))
    ensures Effect(Directive("chdir", v), finite) == Some((Chdir, v))
    ensures Effect(Directive("cpus-per-task", v), finite) == if v != "" && finite(v) then Some((CpusPerTask, v)) else None
    ensures Effect(Directive("nodes", v), finite) == if v != "" && finite(v) then Some((Nodes, v)) else None
    ensures Effect(Directive("output", v), finite) == Effect(Directive("error", v), finite)
  {
  }

  predicate Understood(key: string) {
    key in {"partition", "gres", "cpus-per-task", "mem", "time", "nodes", "account", "qos", "constraint", "exclude", "output", "error", "chdir"}
  }

  /** Every other key sets nothing and is warned of by the flag it was written with. */
  lemma OthersWarn(line: string, d: Directive, finite: string -> bool)
    requires ReadDirective(line) == Some(d)
    ensures Understood(d.key) ==> LineWarning(line) == []
    ensures !Understood(d.key) ==>
              && LineEffect(line, finite) == None
              && LineWarning(line) == [if "-" <= d.key then d.key + " (not applied)" else "--" + d.key + " (not applied)"]
  {
    hide ReadDirective;
  }

  predicate Slashes(s: string) { forall c | c in s :: c == '/' }

  lemma {:induction false} SlashesOff(s: string, slashes: string)
    requires Slashes(slashes) && (s == "" || s[|s| - 1] != '/')
    ensures RightTrimSlashes(s + slashes) == s
  {
    var t := s + slashes;
    if slashes == "" {
      assert t == s;
    } else {
      assert t[|t| - 1] == slashes[|slashes| - 1] && slashes[|slashes| - 1] in slashes;
      var fewer := slashes[..|slashes| - 1];
      assert t[..|t| - 1] == s + fewer;
      forall c | c in fewer ensures c == '/' { assert c in slashes; }
      SlashesOff(s, fewer);
    }
  }

  lemma {:induction false} LastSlash(a: string, file: string)
    requires '/' !in file && (a == "" || a[|a| - 1] == '/')
    ensures AfterLastSlash(a + file) == |a|
  {
    if file == "" {
      assert a + file == a;
    } else {
      assert file[|file| - 1] in file && forall c | c in file[..|file| - 1] :: c in file;
      assert (a + file)[..|a + file| - 1] == a + file[..|file| - 1];
      LastSlash(a, file[..|file| - 1]);
    }
  }

  /** A log file's folder is the log folder: the path before its last slashes, or the root. */
  lemma LogFolder(dir: string, slashes: string, file: string, end: string, finite: string -> bool)
    requires Slashes(slashes) && slashes != "" && Slashes(end) && file != "" && '/' !in file
    requires dir == "" || dir[|dir| - 1] != '/'
    ensures var path := dir + slashes + file + end;
            dir != "." ==> Effect(Directive("output", path), finite) == Some((LogDir, if dir == "" then "/" else dir))
  {
    hide RightTrimSlashes, AfterLastSlash;
    var s, a := dir + slashes + file, dir + slashes;
    assert s[|s| - 1] == file[|file| - 1] && file[|file| - 1] in file;
    SlashesOff(s, end);
    assert a[|a| - 1] == slashes[|slashes| - 1] && slashes[|slashes| - 1] in slashes;
    LastSlash(a, file);
    var fewer := slashes[..|slashes| - 1];
    assert s[..|a| - 1] == dir + fewer && forall c | c in fewer :: c in slashes;
    SlashesOff(dir, fewer);
  }

  /** A log file in no folder, or in `.`, sets nothing. */
  lemma NoLogFolder(file: string, end: string, finite: string -> bool)
    requires '/' !in file && Slashes(end) && (file != "" || end == "")
    ensures Effect(Directive("output", file + end), finite) == None
  {
    assert file != "" ==> file[|file| - 1] in file;
    SlashesOff(file, end);
    LastSlash("", file);
    assert "" + file == file;
  }
}
