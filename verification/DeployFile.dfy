/**
 * The launch form and its deploy file: what the file holds of a form, and the
 * file read back onto the baseline. Both are at the level of the YAML tree.
 */
module DeployFile {
  import opened Wrappers

  /** Every leaf as the text the form shows for it; a number is the text the runtime prints. */
  datatype Form = Form(recipe: string, name: string, sections: map<Section, map<string, string>>)
  datatype Section = Inputs | Slurm | Env | Serving

  const SLURM_KEYS: seq<string> := [
    "partition", "account", "qos", "time_limit", "nodes", "gres", "cpus_per_task", "mem", "constraints", "exclude", "log_output_dir"]
  const SERVING_KEYS: seq<string> := ["keep_running", "serve_from", "stop_after_failed_launches", "health_path"]

  /** All four sections are there, the fixed ones with their keys. */
  ghost predicate Complete(f: Form) {
    && f.sections.Keys == {Inputs, Slurm, Env, Serving}
    && f.sections[Slurm].Keys == (set k | k in SLURM_KEYS)
    && f.sections[Serving].Keys == (set k | k in SERVING_KEYS)
  }

  datatype Path = Path(section: Section, key: string)

  predicate IsNumeric(p: Path) {
    || p == Path(Slurm, "nodes") || p == Path(Slurm, "cpus_per_task") || p == Path(Serving, "keep_running")
    || p == Path(Serving, "serve_from") || p == Path(Serving, "stop_after_failed_launches")
  }

  /** `show(s)` is the text the runtime prints for the number it reads in `s`. */
  type NumberText = string -> string

  predicate IsFinite(text: string) { text != "NaN" && text != "Infinity" && text != "-Infinity" }

  /** Printing a number and reading it back prints the same text. */
  ghost predicate NumberLaw(show: NumberText) { forall s :: show(show(s)) == show(s) != "" }

  // -------------------------------------------------------------------------
  // Writing
  // -------------------------------------------------------------------------

  /** A YAML scalar. */
  datatype Scalar = Absent | Flag(on: bool) | Number(text: string) | Str(text: string)

  function Text(v: Scalar): string {
    match v
    case Absent => ""
    case Flag(on) => if on then "true" else "false"
    case Number(t) => t
    case Str(t) => t
  }

  function DigitRun(s: string): (n: nat)
    ensures n <= |s|
  {
    if s != "" && '0' <= s[0] <= '9' then 1 + DigitRun(s[1..]) else 0
  }

  /** A plain decimal: a sign, digits, and perhaps a point and digits. */
  predicate LooksNumeric(s: string) {
    var t := if "-" <= s then s[1..] else s;
    var n := DigitRun(t);
    n > 0 && (n == |t| || (t[n] == '.' && n + 1 < |t| && DigitRun(t[n + 1..]) == |t| - n - 1))
  }

  /** A value as the file shows it: numbers as numbers, flags as flags. */
  function YamlValue(p: Path, v: string, show: NumberText): Scalar {
    if IsNumeric(p) && v != "" && IsFinite(show(v)) then Number(show(v))
    else if p.section.Inputs? && (v == "true" || v == "false") then Flag(v == "true")
    else if p.section.Inputs? && LooksNumeric(v) then Number(show(v))
    else Str(v)
  }

  /** A leaf's text in a form, blank where it has none. */
  function Leaf(f: Form, p: Path): string {
    if p.section in f.sections && p.key in f.sections[p.section] then f.sections[p.section][p.key] else ""
  }

  predicate HasLeaf(f: Form, p: Path) { p.section in f.sections && p.key in f.sections[p.section] }

  predicate Changed(f: Form, base: Form, p: Path) { Leaf(f, p) != Leaf(base, p) }

  /** Whether the file holds a leaf: every one of the form, or only those that differ. */
  predicate Written(f: Form, base: Form, onlyChanges: bool, p: Path) {
    HasLeaf(f, p) && (!onlyChanges || Changed(f, base, p))
  }

  /** One `key: value` line of a section. */
  datatype Line = Line(key: string, value: Node)
  datatype Node = Value(v: Scalar) | Nested
  datatype TopEntry =
    | Recipe(text: string)
    | Name(text: string)
    | Unknown(key: string)
    | Blank(section: Section)
    | NotAMap(section: Section)
    | Block(section: Section, lines: seq<Line>)

  function SectionLines(f: Form, base: Form, onlyChanges: bool, show: NumberText, section: Section, keys: seq<string>): seq<Line> {
    if keys == [] then []
    else
      var p := Path(section, keys[0]);
      (if Written(f, base, onlyChanges, p) then [Line(keys[0], Value(YamlValue(p, Leaf(f, p), show)))] else [])
      + SectionLines(f, base, onlyChanges, show, section, keys[1..])
  }

  function BlockOf(section: Section, lines: seq<Line>): seq<TopEntry> {
    if lines == [] then [] else [Block(section, lines)]
  }

  /** The order the form keeps its free-form keys in: each once. */
  ghost predicate KeyOrder(f: Form, inputs: seq<string>, env: seq<string>) {
    && Inputs in f.sections && Env in f.sections
    && (forall k :: k in inputs <==> k in f.sections[Inputs])
    && (forall k :: k in env <==> k in f.sections[Env])
  }

  /** The form as a deploy file. */
  function FormToYaml(f: Form, base: Form, onlyChanges: bool, show: NumberText, inputs: seq<string>, env: seq<string>): seq<TopEntry> {
    [Recipe(f.recipe), Name(f.name)]
    + BlockOf(Inputs, SectionLines(f, base, onlyChanges, show, Inputs, inputs))
    + BlockOf(Slurm, SectionLines(f, base, onlyChanges, show, Slurm, SLURM_KEYS))
    + BlockOf(Env, SectionLines(f, base, onlyChanges, show, Env, env))
    + BlockOf(Serving, SectionLines(f, base, onlyChanges, show, Serving, SERVING_KEYS))
  }

  // -------------------------------------------------------------------------
  // Reading
  // -------------------------------------------------------------------------

  datatype Problem = NotASetting(key: string) | OtherRecipe(recipe: string) | ShouldHoldKeys(section: Section)
                   | UnknownKey(path: Path) | NotSingle(path: Path) | NotANumber(path: Path)

  predicate KnownKey(p: Path, inputNames: seq<string>) {
    match p.section
    case Inputs => p.key in inputNames
    case Slurm => p.key in SLURM_KEYS
    case Serving => p.key in SERVING_KEYS
    case Env => true
  }

  function SetLeaf(f: Form, p: Path, v: string): Form {
    var inner := if p.section in f.sections then f.sections[p.section] else map[];
    f.(sections := f.sections[p.section := inner[p.key := v]])
  }

  function DropLeaf(f: Form, p: Path): Form {
    if p.section in f.sections then f.(sections := f.sections[p.section := f.sections[p.section] - {p.key}]) else f
  }

  /** What reading one line does: a problem, or a changed form. */
  function ReadLine(f: Form, section: Section, line: Line, inputNames: seq<string>, show: NumberText): Result<Form, Problem> {
    var p := Path(section, line.key);
    if !KnownKey(p, inputNames) then Err(UnknownKey(p))
    else if line.value.Nested? then Err(NotSingle(p))
    else
      var str := Text(line.value.v);
      if p.section.Env? && str == "" then Ok(DropLeaf(f, p))
      else if IsNumeric(p) then
        if str != "" && !IsFinite(show(str)) then Err(NotANumber(p))
        else Ok(SetLeaf(f, p, if p == Path(Slurm, "cpus_per_task") then str else if str == "" then "0" else show(str)))
      else Ok(SetLeaf(f, p, str))
  }

  datatype Progress = Progress(form: Form, problems: seq<Problem>)

  function StepLine(s: Progress, section: Section, line: Line, inputNames: seq<string>, show: NumberText): Progress {
    match ReadLine(s.form, section, line, inputNames, show)
    case Ok(f) => s.(form := f)
    case Err(e) => s.(problems := s.problems + [e])
  }

  function ReadLines(s: Progress, section: Section, lines: seq<Line>, inputNames: seq<string>, show: NumberText): Progress
    decreases |lines|
  {
    if lines == [] then s
    else ReadLines(StepLine(s, section, lines[0], inputNames, show), section, lines[1..], inputNames, show)
  }

  function StepEntry(s: Progress, entry: TopEntry, base: Form, inputNames: seq<string>, show: NumberText): Progress {
    match entry
    case Unknown(key) => s.(problems := s.problems + [NotASetting(key)])
    case Recipe(v) => if v != "" && v != base.recipe then s.(problems := s.problems + [OtherRecipe(v)]) else s
    case Name(v) => s.(form := s.form.(name := v))
    case NotAMap(section) => s.(problems := s.problems + [ShouldHoldKeys(section)])
    case Blank(_) => s
    case Block(section, lines) => ReadLines(s, section, lines, inputNames, show)
  }

  function ReadEntries(s: Progress, entries: seq<TopEntry>, base: Form, inputNames: seq<string>, show: NumberText): Progress
    decreases |entries|
  {
    if entries == [] then s
    else ReadEntries(StepEntry(s, entries[0], base, inputNames, show), entries[1..], base, inputNames, show)
  }

  /** The form a file gives, or None when it has problems. */
  function FormOf(s: Progress): Option<Form> { if s.problems == [] then Some(s.form) else None }

  /** Read a deploy file back onto the baseline, entry by entry and line by line. */
  method YamlToForm(entries: seq<TopEntry>, base: Form, inputNames: seq<string>, show: NumberText)
      returns (form: Option<Form>, problems: seq<Problem>)
    ensures var s := ReadEntries(Progress(base, []), entries, base, inputNames, show);
            problems == s.problems && form == FormOf(s)
  {
    hide ReadLine;
    var read := base;
    problems := [];
    for i := 0 to |entries|
      invariant ReadEntries(Progress(read, problems), entries[i..], base, inputNames, show)
             == ReadEntries(Progress(base, []), entries, base, inputNames, show)
    {
      ghost var before := Progress(read, problems);
      match entries[i]
      case Unknown(key) => problems := problems + [NotASetting(key)];
      case Recipe(v) => if v != "" && v != base.recipe { problems := problems + [OtherRecipe(v)]; }
      case Name(v) => read := read.(name := v);
      case NotAMap(section) => problems := problems + [ShouldHoldKeys(section)];
      case Blank(_) =>
      case Block(section, lines) =>
        for j := 0 to |lines|
          invariant ReadLines(Progress(read, problems), section, lines[j..], inputNames, show) == ReadLines(before, section, lines, inputNames, show)
        {
          match ReadLine(read, section, lines[j], inputNames, show) {
            case Ok(f) => read := f;
            case Err(e) => problems := problems + [e];
          }
          assert lines[j..][1..] == lines[j + 1..];
        }
      assert Progress(read, problems) == StepEntry(before, entries[i], base, inputNames, show);
      assert entries[i..][1..] == entries[i + 1..];
    }
    form := if problems == [] then Some(read) else None;
  }

  // -------------------------------------------------------------------------
  // What comes back
  // -------------------------------------------------------------------------

  /** A leaf, or None where the form has none. */
  function LeafAt(f: Form, p: Path): Option<string> {
    if HasLeaf(f, p) then Some(f.sections[p.section][p.key]) else None
  }

  /** What writing and reading one leaf makes of it: a text, nothing, or a problem. */
  function Returned(p: Path, v: string, inputNames: seq<string>, show: NumberText): Result<Option<string>, Problem> {
    if !KnownKey(p, inputNames) then Err(UnknownKey(p))
    else if p.section.Env? then Ok(if v == "" then None else Some(v))
    else if IsNumeric(p) then
      if v == "" then Ok(Some(if p.key == "cpus_per_task" then "" else "0"))
      else if IsFinite(show(v)) then Ok(Some(show(v)))
      else Err(NotANumber(p))
    else if p.section.Inputs? && LooksNumeric(v) then Ok(Some(show(v)))
    else Ok(Some(v))
  }

  /** A written leaf comes back as it was. */
  predicate LeafSurvives(p: Path, v: string, inputNames: seq<string>, show: NumberText) {
    && KnownKey(p, inputNames)
    && (p.section.Env? ==> v != "")
    && (IsNumeric(p) && v != "" ==> IsFinite(show(v)) && show(v) == v)
    && (IsNumeric(p) && v == "" ==> p.key == "cpus_per_task")
    && (p.section.Inputs? && LooksNumeric(v) ==> show(v) == v)
  }

  lemma ReturnedSurvives(p: Path, v: string, inputNames: seq<string>, show: NumberText)
    ensures Returned(p, v, inputNames, show) == Ok(Some(v)) <==> LeafSurvives(p, v, inputNames, show)
  {
  }

  lemma NotNumericWords()
    ensures !LooksNumeric("true") && !LooksNumeric("false")
  {
  }

  /** Reading a written leaf does what `Returned` says. */
  lemma ReadWritten(f: Form, p: Path, v: string, inputNames: seq<string>, show: NumberText)
    requires NumberLaw(show) && p.section in f.sections
    ensures ReadLine(f, p.section, Line(p.key, Value(YamlValue(p, v, show))), inputNames, show)
         == match Returned(p, v, inputNames, show)
            case Err(e) => Err(e)
            case Ok(None) => Ok(DropLeaf(f, p))
            case Ok(Some(t)) => Ok(SetLeaf(f, p, t))
  {
    NotNumericWords();
    hide LooksNumeric, KnownKey, DropLeaf, SetLeaf;
  }

  /** A form with the leaves of some keys of a section as they come back. */
  ghost predicate Applied(before: Form, after: Form, f: Form, base: Form, onlyChanges: bool, show: NumberText,
                          section: Section, keys: seq<string>, inputNames: seq<string>) {
    && after.recipe == before.recipe && after.name == before.name && after.sections.Keys == before.sections.Keys
    && forall p: Path {:trigger LeafAt(after, p)} :: LeafAt(after, p) ==
        if p.section == section && p.key in keys && Written(f, base, onlyChanges, p)
        then (match Returned(p, Leaf(f, p), inputNames, show) case Err(_) => LeafAt(before, p) case Ok(t) => t)
        else LeafAt(before, p)
  }

  ghost predicate NoProblem(f: Form, base: Form, onlyChanges: bool, show: NumberText, section: Section, keys: seq<string>, inputNames: seq<string>) {
    forall k | k in keys && Written(f, base, onlyChanges, Path(section, k)) ::
      Returned(Path(section, k), Leaf(f, Path(section, k)), inputNames, show).Ok?
  }

  lemma SetLeafAt(f: Form, p: Path, v: string)
    requires p.section in f.sections
    ensures var r := SetLeaf(f, p, v);
            && r.recipe == f.recipe && r.name == f.name && r.sections.Keys == f.sections.Keys
            && forall q :: LeafAt(r, q) == if q == p then Some(v) else LeafAt(f, q)
  {
  }

  lemma DropLeafAt(f: Form, p: Path)
    requires p.section in f.sections
    ensures var r := DropLeaf(f, p);
            && r.recipe == f.recipe && r.name == f.name && r.sections.Keys == f.sections.Keys
            && forall q :: LeafAt(r, q) == if q == p then None else LeafAt(f, q)
  {
  }

  lemma {:induction false} ReadSection(
    s: Progress, f: Form, base: Form, onlyChanges: bool, show: NumberText, section: Section, keys: seq<string>, inputNames: seq<string>)
    requires NumberLaw(show) && section in s.form.sections
    ensures var r := ReadLines(s, section, SectionLines(f, base, onlyChanges, show, section, keys), inputNames, show);
            && Applied(s.form, r.form, f, base, onlyChanges, show, section, keys, inputNames)
            && (r.problems == [] <==> s.problems == [] && NoProblem(f, base, onlyChanges, show, section, keys, inputNames))
    decreases |keys|
  {
    hide Returned, YamlValue, ReadLine, Written, Leaf, LeafAt, SetLeaf, DropLeaf;
    if keys == [] {
    } else {
      var p := Path(section, keys[0]);
      var rest := SectionLines(f, base, onlyChanges, show, section, keys[1..]);
      var lines := SectionLines(f, base, onlyChanges, show, section, keys);
      assert keys == [keys[0]] + keys[1..];
      if Written(f, base, onlyChanges, p) {
        var line := Line(keys[0], Value(YamlValue(p, Leaf(f, p), show)));
        assert lines == [line] + rest && lines[1..] == rest;
        ReadWritten(s.form, p, Leaf(f, p), inputNames, show);
        var next := StepLine(s, section, line, inputNames, show);
        match Returned(p, Leaf(f, p), inputNames, show) {
          case Err(e) =>
          case Ok(None) => DropLeafAt(s.form, p);
          case Ok(Some(t)) => SetLeafAt(s.form, p, t);
        }
        ReadSection(next, f, base, onlyChanges, show, section, keys[1..], inputNames);
      } else {
        assert lines == rest;
        ReadSection(s, f, base, onlyChanges, show, section, keys[1..], inputNames);
      }
    }
  }

  lemma {:induction false} ReadEntriesPlus(s: Progress, a: seq<TopEntry>, b: seq<TopEntry>, base: Form, inputNames: seq<string>, show: NumberText)
    ensures ReadEntries(s, a + b, base, inputNames, show)
         == ReadEntries(ReadEntries(s, a, base, inputNames, show), b, base, inputNames, show)
    decreases |a|
  {
    hide StepEntry;
    if a == [] {
      assert a + b == b;
    } else {
      assert (a + b)[1..] == a[1..] + b;
      ReadEntriesPlus(StepEntry(s, a[0], base, inputNames, show), a[1..], b, base, inputNames, show);
    }
  }

  lemma ReadBlock(s: Progress, section: Section, lines: seq<Line>, base: Form, inputNames: seq<string>, show: NumberText)
    ensures ReadEntries(s, BlockOf(section, lines), base, inputNames, show) == ReadLines(s, section, lines, inputNames, show)
  {
    if lines != [] {
      assert BlockOf(section, lines)[1..] == [];
    }
  }

  /** Forms with the same recipe, name and leaves are the same form. */
  lemma SameLeaves(f: Form, g: Form)
    requires f.recipe == g.recipe && f.name == g.name && f.sections.Keys == g.sections.Keys
    requires forall p: Path {:trigger LeafAt(f, p)} {:trigger LeafAt(g, p)} :: LeafAt(f, p) == LeafAt(g, p)
    ensures f == g
  {
    forall section | section in f.sections ensures f.sections[section] == g.sections[section] {
      forall k ensures (k in f.sections[section] <==> k in g.sections[section])
                    && (k in f.sections[section] ==> f.sections[section][k] == g.sections[section][k]) {
        assert LeafAt(f, Path(section, k)) == LeafAt(g, Path(section, k));
      }
      assert f.sections[section] == g.sections[section];
    }
    assert f.sections == g.sections;
  }

  /**
   * What a form must be like to come back: the baseline's recipe, no baseline
   * leaf dropped, every leaf the file leaves out equal to the baseline's, and
   * every leaf it holds one that survives.
   */
  ghost predicate Survives(f: Form, base: Form, onlyChanges: bool, inputNames: seq<string>, show: NumberText) {
    f.recipe == base.recipe && forall p: Path :: LeafKept(f, base, onlyChanges, inputNames, show, p)
  }

  ghost predicate LeafKept(f: Form, base: Form, onlyChanges: bool, inputNames: seq<string>, show: NumberText, p: Path) {
    if HasLeaf(f, p) then
      (if Written(f, base, onlyChanges, p) then LeafSurvives(p, Leaf(f, p), inputNames, show) else LeafAt(base, p) == LeafAt(f, p))
    else !HasLeaf(base, p)
  }

  function Keys(section: Section, inputs: seq<string>, env: seq<string>): seq<string> {
    match section case Inputs => inputs case Slurm => SLURM_KEYS case Env => env case Serving => SERVING_KEYS
  }

  lemma KeysCover(f: Form, inputs: seq<string>, env: seq<string>, p: Path)
    requires Complete(f) && KeyOrder(f, inputs, env)
    ensures p.key in Keys(p.section, inputs, env) <==> HasLeaf(f, p)
  {
    assert p.section in f.sections.Keys by { SomeSection(p.section); }
  }

  lemma SomeSection(s: Section)
    ensures s in {Inputs, Slurm, Env, Serving}
  {
  }

  /** The progress after each block of the file. */
  lemma FourBlocks(f: Form, base: Form, onlyChanges: bool, inputNames: seq<string>, show: NumberText, inputs: seq<string>, env: seq<string>)
      returns (s0: Progress, s1: Progress, s2: Progress, s3: Progress, s4: Progress)
    requires NumberLaw(show) && Complete(f) && Complete(base) && KeyOrder(f, inputs, env)
    ensures s0 == Progress(base.(name := f.name), if f.recipe != "" && f.recipe != base.recipe then [OtherRecipe(f.recipe)] else [])
    ensures s4 == ReadEntries(Progress(base, []), FormToYaml(f, base, onlyChanges, show, inputs, env), base, inputNames, show)
    ensures Applied(s0.form, s1.form, f, base, onlyChanges, show, Inputs, inputs, inputNames)
    ensures Applied(s1.form, s2.form, f, base, onlyChanges, show, Slurm, SLURM_KEYS, inputNames)
    ensures Applied(s2.form, s3.form, f, base, onlyChanges, show, Env, env, inputNames)
    ensures Applied(s3.form, s4.form, f, base, onlyChanges, show, Serving, SERVING_KEYS, inputNames)
    ensures s4.problems == [] <==>
              && s0.problems == []
              && NoProblem(f, base, onlyChanges, show, Inputs, inputs, inputNames)
              && NoProblem(f, base, onlyChanges, show, Slurm, SLURM_KEYS, inputNames)
              && NoProblem(f, base, onlyChanges, show, Env, env, inputNames)
              && NoProblem(f, base, onlyChanges, show, Serving, SERVING_KEYS, inputNames)
  {
    hide SectionLines, BlockOf, ReadLines, Applied, NoProblem, ReadEntries, NumberLaw;
    var a := SectionLines(f, base, onlyChanges, show, Inputs, inputs);
    var b := SectionLines(f, base, onlyChanges, show, Slurm, SLURM_KEYS);
    var c := SectionLines(f, base, onlyChanges, show, Env, env);
    var d := SectionLines(f, base, onlyChanges, show, Serving, SERVING_KEYS);
    var start := Progress(base, []);
    var top := [Recipe(f.recipe), Name(f.name)];
    s0 := ReadTop(f, base, inputNames, show);
    ReadEntriesPlus(start, top, BlockOf(Inputs, a), base, inputNames, show);
    ReadBlock(s0, Inputs, a, base, inputNames, show);
    ReadSection(s0, f, base, onlyChanges, show, Inputs, inputs, inputNames);
    s1 := ReadLines(s0, Inputs, a, inputNames, show);
    AppliedKeys(s0.form, s1.form, f, base, onlyChanges, show, Inputs, inputs, inputNames);
    ReadEntriesPlus(start, top + BlockOf(Inputs, a), BlockOf(Slurm, b), base, inputNames, show);
    ReadBlock(s1, Slurm, b, base, inputNames, show);
    ReadSection(s1, f, base, onlyChanges, show, Slurm, SLURM_KEYS, inputNames);
    s2 := ReadLines(s1, Slurm, b, inputNames, show);
    AppliedKeys(s1.form, s2.form, f, base, onlyChanges, show, Slurm, SLURM_KEYS, inputNames);
    ReadEntriesPlus(start, top + BlockOf(Inputs, a) + BlockOf(Slurm, b), BlockOf(Env, c), base, inputNames, show);
    ReadBlock(s2, Env, c, base, inputNames, show);
    ReadSection(s2, f, base, onlyChanges, show, Env, env, inputNames);
    s3 := ReadLines(s2, Env, c, inputNames, show);
    AppliedKeys(s2.form, s3.form, f, base, onlyChanges, show, Env, env, inputNames);
    ReadEntriesPlus(start, top + BlockOf(Inputs, a) + BlockOf(Slurm, b) + BlockOf(Env, c), BlockOf(Serving, d), base, inputNames, show);
    ReadBlock(s3, Serving, d, base, inputNames, show);
    ReadSection(s3, f, base, onlyChanges, show, Serving, SERVING_KEYS, inputNames);
    s4 := ReadLines(s3, Serving, d, inputNames, show);
  }

  lemma ReadTop(f: Form, base: Form, inputNames: seq<string>, show: NumberText) returns (s: Progress)
    ensures s == ReadEntries(Progress(base, []), [Recipe(f.recipe), Name(f.name)], base, inputNames, show)
    ensures s == Progress(base.(name := f.name), if f.recipe != "" && f.recipe != base.recipe then [OtherRecipe(f.recipe)] else [])
  {
    var start := Progress(base, []);
    var top := [Recipe(f.recipe), Name(f.name)];
    assert top[1..] == [Name(f.name)] && top[1..][1..] == [];
    var named := StepEntry(start, top[0], base, inputNames, show);
    s := StepEntry(named, top[1], base, inputNames, show);
    assert ReadEntries(s, [], base, inputNames, show) == s;
    assert ReadEntries(named, [Name(f.name)], base, inputNames, show) == s by { assert [Name(f.name)][1..] == []; }
    assert ReadEntries(start, top, base, inputNames, show) == ReadEntries(named, top[1..], base, inputNames, show);
  }

  lemma AppliedKeys(before: Form, after: Form, f: Form, base: Form, onlyChanges: bool, show: NumberText,
                    section: Section, keys: seq<string>, inputNames: seq<string>)
    requires Applied(before, after, f, base, onlyChanges, show, section, keys, inputNames)
    ensures after.sections.Keys == before.sections.Keys
  {
  }

  /**
   * Writing a form and reading the file onto its baseline gives the form back
   * exactly when it survives, whether only the changes are written or everything.
   */
  lemma DeployFileRoundTrip(f: Form, base: Form, onlyChanges: bool, inputNames: seq<string>, show: NumberText, inputs: seq<string>, env: seq<string>)
    requires NumberLaw(show) && Complete(f) && Complete(base) && KeyOrder(f, inputs, env)
    ensures FormOf(ReadEntries(Progress(base, []), FormToYaml(f, base, onlyChanges, show, inputs, env), base, inputNames, show)) == Some(f)
       <==> Survives(f, base, onlyChanges, inputNames, show)
  {
    hide FormToYaml, ReadEntries, Complete, KeyOrder, Returned, LeafSurvives, Written, NumberLaw, KnownKey;
    var s0, s1, s2, s3, s4 := FourBlocks(f, base, onlyChanges, inputNames, show, inputs, env);
    forall p: Path
      ensures p.key in Keys(p.section, inputs, env) <==> HasLeaf(f, p)
      ensures LeafAt(s4.form, p) == FinalLeaf(f, base, onlyChanges, inputNames, show, p)
      ensures Returned(p, Leaf(f, p), inputNames, show) == Ok(Some(Leaf(f, p))) <==> LeafSurvives(p, Leaf(f, p), inputNames, show)
    {
      KeysCover(f, inputs, env, p);
      ReturnedSurvives(p, Leaf(f, p), inputNames, show);
      Gathered(f, base, onlyChanges, inputNames, show, inputs, env, s0.form, s1.form, s2.form, s3.form, s4.form, p);
    }
    assert s4.form.recipe == base.recipe && s4.form.name == f.name && s4.form.sections.Keys == f.sections.Keys by { SectionKeys(f, base); }
    NoProblems(f, base, onlyChanges, inputNames, show, inputs, env);
    SurvivesIsReturned(f, base, onlyChanges, inputNames, show, s4);
  }

  ghost predicate AllReturn(f: Form, base: Form, onlyChanges: bool, inputNames: seq<string>, show: NumberText) {
    forall p: Path | Written(f, base, onlyChanges, p) :: Returned(p, Leaf(f, p), inputNames, show).Ok?
  }

  /** The form comes back exactly when the recipe is the same and each leaf does. */
  lemma SurvivesIsReturned(f: Form, base: Form, onlyChanges: bool, inputNames: seq<string>, show: NumberText, s: Progress)
    requires s.form.recipe == base.recipe && s.form.name == f.name && s.form.sections.Keys == f.sections.Keys
    requires forall p: Path :: LeafAt(s.form, p) == FinalLeaf(f, base, onlyChanges, inputNames, show, p)
    requires forall p: Path ::
               Returned(p, Leaf(f, p), inputNames, show) == Ok(Some(Leaf(f, p))) <==> LeafSurvives(p, Leaf(f, p), inputNames, show)
    requires s.problems == [] <==> (f.recipe == "" || f.recipe == base.recipe) && AllReturn(f, base, onlyChanges, inputNames, show)
    ensures FormOf(s) == Some(f) <==> Survives(f, base, onlyChanges, inputNames, show)
  {
    hide Returned, LeafSurvives, Written, FinalLeaf, AllReturn;
    forall p: Path
      ensures LeafKept(f, base, onlyChanges, inputNames, show, p) ==> LeafAt(s.form, p) == LeafAt(f, p)
      ensures LeafKept(f, base, onlyChanges, inputNames, show, p) && Written(f, base, onlyChanges, p) ==> Returned(p, Leaf(f, p), inputNames, show).Ok?
      ensures LeafAt(s.form, p) == LeafAt(f, p) && (Written(f, base, onlyChanges, p) ==> Returned(p, Leaf(f, p), inputNames, show).Ok?)
              ==> LeafKept(f, base, onlyChanges, inputNames, show, p)
    {
      LeafByLeaf(f, base, onlyChanges, inputNames, show, p);
    }
    if Survives(f, base, onlyChanges, inputNames, show) {
      SameLeaves(s.form, f);
      ReturnAll(f, base, onlyChanges, inputNames, show);
    }
    if FormOf(s) == Some(f) { ReturnEach(f, base, onlyChanges, inputNames, show); }
  }

  lemma ReturnAll(f: Form, base: Form, onlyChanges: bool, inputNames: seq<string>, show: NumberText)
    requires forall p: Path | Written(f, base, onlyChanges, p) :: Returned(p, Leaf(f, p), inputNames, show).Ok?
    ensures AllReturn(f, base, onlyChanges, inputNames, show)
  {
  }

  lemma ReturnEach(f: Form, base: Form, onlyChanges: bool, inputNames: seq<string>, show: NumberText)
    requires AllReturn(f, base, onlyChanges, inputNames, show)
    ensures forall p: Path | Written(f, base, onlyChanges, p) :: Returned(p, Leaf(f, p), inputNames, show).Ok?
  {
  }

  /** One leaf is kept exactly when it is given back as it was. */
  lemma LeafByLeaf(f: Form, base: Form, onlyChanges: bool, inputNames: seq<string>, show: NumberText, p: Path)
    requires Returned(p, Leaf(f, p), inputNames, show) == Ok(Some(Leaf(f, p))) <==> LeafSurvives(p, Leaf(f, p), inputNames, show)
    ensures var final := FinalLeaf(f, base, onlyChanges, inputNames, show, p);
            && (LeafKept(f, base, onlyChanges, inputNames, show, p) ==> final == LeafAt(f, p))
            && (LeafKept(f, base, onlyChanges, inputNames, show, p) && Written(f, base, onlyChanges, p)
                ==> Returned(p, Leaf(f, p), inputNames, show).Ok?)
            && (final == LeafAt(f, p) && (Written(f, base, onlyChanges, p) ==> Returned(p, Leaf(f, p), inputNames, show).Ok?)
                ==> LeafKept(f, base, onlyChanges, inputNames, show, p))
  {
    hide Returned, LeafSurvives;
    if Written(f, base, onlyChanges, p) { WrittenHas(f, base, onlyChanges, p); }
  }

  /** The leaf the file gives back at a path. */
  function FinalLeaf(f: Form, base: Form, onlyChanges: bool, inputNames: seq<string>, show: NumberText, p: Path): Option<string> {
    if Written(f, base, onlyChanges, p) then
      (match Returned(p, Leaf(f, p), inputNames, show) case Err(_) => LeafAt(base, p) case Ok(t) => t)
    else LeafAt(base, p)
  }

  lemma WrittenHas(f: Form, base: Form, onlyChanges: bool, p: Path)
    requires Written(f, base, onlyChanges, p)
    ensures HasLeaf(f, p) && LeafAt(f, p) == Some(Leaf(f, p))
  {
  }

  lemma SectionKeys(f: Form, base: Form)
    requires Complete(f) && Complete(base)
    ensures f.sections.Keys == base.sections.Keys
  {
  }

  lemma Gathered(f: Form, base: Form, onlyChanges: bool, inputNames: seq<string>, show: NumberText, inputs: seq<string>, env: seq<string>,
                 g0: Form, g1: Form, g2: Form, g3: Form, g4: Form, p: Path)
    requires p.key in Keys(p.section, inputs, env) <==> HasLeaf(f, p)
    requires g0.sections == base.sections
    requires Applied(g0, g1, f, base, onlyChanges, show, Inputs, inputs, inputNames)
    requires Applied(g1, g2, f, base, onlyChanges, show, Slurm, SLURM_KEYS, inputNames)
    requires Applied(g2, g3, f, base, onlyChanges, show, Env, env, inputNames)
    requires Applied(g3, g4, f, base, onlyChanges, show, Serving, SERVING_KEYS, inputNames)
    ensures LeafAt(g4, p) == FinalLeaf(f, base, onlyChanges, inputNames, show, p)
  {
    hide Returned;
    if Written(f, base, onlyChanges, p) { WrittenHas(f, base, onlyChanges, p); }
    assert LeafAt(g0, p) == LeafAt(base, p);
    assert LeafAt(g4, p) == LeafAt(g4, p) && LeafAt(g3, p) == LeafAt(g3, p) && LeafAt(g2, p) == LeafAt(g2, p) && LeafAt(g1, p) == LeafAt(g1, p);
  }

  /** The four sections have no problem exactly when no written leaf has one. */
  lemma NoProblems(f: Form, base: Form, onlyChanges: bool, inputNames: seq<string>, show: NumberText, inputs: seq<string>, env: seq<string>)
    requires forall p: Path :: p.key in Keys(p.section, inputs, env) <==> HasLeaf(f, p)
    ensures (forall p: Path | Written(f, base, onlyChanges, p) :: Returned(p, Leaf(f, p), inputNames, show).Ok?) <==>
              && NoProblem(f, base, onlyChanges, show, Inputs, inputs, inputNames)
              && NoProblem(f, base, onlyChanges, show, Slurm, SLURM_KEYS, inputNames)
              && NoProblem(f, base, onlyChanges, show, Env, env, inputNames)
              && NoProblem(f, base, onlyChanges, show, Serving, SERVING_KEYS, inputNames)
  {
    hide Returned;
    if && NoProblem(f, base, onlyChanges, show, Inputs, inputs, inputNames)
       && NoProblem(f, base, onlyChanges, show, Slurm, SLURM_KEYS, inputNames)
       && NoProblem(f, base, onlyChanges, show, Env, env, inputNames)
       && NoProblem(f, base, onlyChanges, show, Serving, SERVING_KEYS, inputNames)
    {
      forall p: Path | Written(f, base, onlyChanges, p) ensures Returned(p, Leaf(f, p), inputNames, show).Ok? {
        WrittenHas(f, base, onlyChanges, p);
        assert p == Path(p.section, p.key);
      }
    }
  }

  // -------------------------------------------------------------------------
  // What each entry of a file does
  // -------------------------------------------------------------------------

  /** A key a section may hold. */
  ghost predicate MayHold(section: Section, key: string, inputNames: seq<string>) {
    match section
    case Inputs => key in inputNames
    case Slurm =>
      key in {"partition", "account", "qos", "time_limit", "nodes", "gres", "cpus_per_task", "mem", "constraints", "exclude", "log_output_dir"}
    case Env => true
    case Serving => key in {"keep_running", "serve_from", "stop_after_failed_launches", "health_path"}
  }

  /** A leaf that is a number. */
  ghost predicate HoldsNumber(section: Section, key: string) {
    || (section == Slurm && key in {"nodes", "cpus_per_task"})
    || (section == Serving && key in {"keep_running", "serve_from", "stop_after_failed_launches"})
  }

  /** The text a scalar stands for. */
  ghost function ScalarText(v: Scalar): string {
    if v.Absent? then "" else if v == Flag(true) then "true" else if v == Flag(false) then "false" else v.text
  }

  /** One form differs from another in one leaf at most, which has the given text, or none. */
  ghost predicate OnlyLeaf(f: Form, g: Form, section: Section, key: string, text: Option<string>) {
    && g.recipe == f.recipe && g.name == f.name && LeafAt(g, Path(section, key)) == text
    && forall q: Path {:trigger LeafAt(g, q)} | q != Path(section, key) :: LeafAt(g, q) == LeafAt(f, q)
  }

  lemma KeysAre()
    ensures forall k :: k in SLURM_KEYS <==>
      k in {"partition", "account", "qos", "time_limit", "nodes", "gres", "cpus_per_task", "mem", "constraints", "exclude", "log_output_dir"}
    ensures forall k :: k in SERVING_KEYS <==> k in {"keep_running", "serve_from", "stop_after_failed_launches", "health_path"}
  {
  }

  /** Reading a block of one line is reading that line. */
  lemma OneLineBlock(s: Progress, section: Section, line: Line, base: Form, inputNames: seq<string>, show: NumberText)
    ensures ReadEntries(s, [Block(section, [line])], base, inputNames, show) == StepLine(s, section, line, inputNames, show)
  {
    hide StepLine;
    OneEntry(s, Block(section, [line]), base, inputNames, show);
    assert [line][1..] == [];
    assert ReadLines(s, section, [line], inputNames, show) == StepLine(s, section, line, inputNames, show);
  }

  /**
   * A line of a file: a key its section may not hold is a problem, and so are a
   * nested value and a text that is no number where one is due; any other line
   * sets its leaf, or removes an environment variable left blank, and nothing else.
   */
  lemma ALineDoes(s: Progress, section: Section, key: string, value: Node, base: Form, inputNames: seq<string>, show: NumberText)
    ensures var p := Path(section, key);
            var r := ReadEntries(s, [Block(section, [Line(key, value)])], base, inputNames, show);
            && (!MayHold(section, key, inputNames) ==> r == Progress(s.form, s.problems + [UnknownKey(p)]))
            && (MayHold(section, key, inputNames) && value.Nested? ==> r == Progress(s.form, s.problems + [NotSingle(p)]))
            && (MayHold(section, key, inputNames) && value.Value? ==>
                  var text := ScalarText(value.v);
                  if HoldsNumber(section, key) && text != "" && show(text) in {"NaN", "Infinity", "-Infinity"} then
                    r == Progress(s.form, s.problems + [NotANumber(p)])
                  else
                    && r.problems == s.problems
                    && OnlyLeaf(s.form, r.form, section, key,
                                if section == Env && text == "" then None
                                else if HoldsNumber(section, key) && key != "cpus_per_task" then Some(if text == "" then "0" else show(text))
                                else Some(text)))
  {
    hide SetLeaf, DropLeaf;
    OneLineBlock(s, section, Line(key, value), base, inputNames, show);
    KeysAre();
    SetLeafIs(s.form, Path(section, key));
    DropLeafIs(s.form, Path(section, key));
  }

  lemma SetLeafIs(f: Form, p: Path)
    ensures forall v :: OnlyLeaf(f, SetLeaf(f, p, v), p.section, p.key, Some(v))
  {
  }

  lemma DropLeafIs(f: Form, p: Path)
    ensures OnlyLeaf(f, DropLeaf(f, p), p.section, p.key, None)
  {
  }

  /** The top level of a file: the recipe must be the baseline's, the name is taken, and every other key is a problem or a section. */
  lemma AnEntryDoes(s: Progress, base: Form, inputNames: seq<string>, show: NumberText, text: string, section: Section)
    ensures ReadEntries(s, [Unknown(text)], base, inputNames, show) == Progress(s.form, s.problems + [NotASetting(text)])
    ensures ReadEntries(s, [NotAMap(section)], base, inputNames, show) == Progress(s.form, s.problems + [ShouldHoldKeys(section)])
    ensures ReadEntries(s, [Blank(section)], base, inputNames, show) == s
    ensures ReadEntries(s, [Name(text)], base, inputNames, show) == Progress(Form(s.form.recipe, text, s.form.sections), s.problems)
    ensures ReadEntries(s, [Recipe(text)], base, inputNames, show)
         == if text == "" || text == base.recipe then s else Progress(s.form, s.problems + [OtherRecipe(text)])
  {
    hide ReadEntries;
    OneEntry(s, Unknown(text), base, inputNames, show);
    OneEntry(s, NotAMap(section), base, inputNames, show);
    OneEntry(s, Blank(section), base, inputNames, show);
    OneEntry(s, Name(text), base, inputNames, show);
    OneEntry(s, Recipe(text), base, inputNames, show);
  }

  lemma {:induction false} LinesPlus(s: Progress, section: Section, a: seq<Line>, b: seq<Line>, inputNames: seq<string>, show: NumberText)
    ensures ReadLines(s, section, a + b, inputNames, show) == ReadLines(ReadLines(s, section, a, inputNames, show), section, b, inputNames, show)
    decreases |a|
  {
    hide StepLine;
    if a == [] {
      assert a + b == b;
    } else {
      assert (a + b)[1..] == a[1..] + b;
      LinesPlus(StepLine(s, section, a[0], inputNames, show), section, a[1..], b, inputNames, show);
    }
  }

  /** A file is read entry by entry and a block line by line, so what each does is all there is. */
  lemma FileIsItsLines(s: Progress, a: seq<TopEntry>, b: seq<TopEntry>, section: Section, c: seq<Line>, d: seq<Line>, base: Form,
                       inputNames: seq<string>, show: NumberText)
    ensures ReadEntries(s, a + b, base, inputNames, show) == ReadEntries(ReadEntries(s, a, base, inputNames, show), b, base, inputNames, show)
    ensures ReadEntries(s, [Block(section, c + d)], base, inputNames, show)
         == ReadEntries(s, [Block(section, c), Block(section, d)], base, inputNames, show)
    ensures ReadEntries(s, [Block(section, [])], base, inputNames, show) == s && ReadEntries(s, [], base, inputNames, show) == s
  {
    hide ReadLines, ReadEntries;
    ReadEntriesPlus(s, a, b, base, inputNames, show);
    LinesPlus(s, section, c, d, inputNames, show);
    OneEntry(s, Block(section, c + d), base, inputNames, show);
    OneEntry(s, Block(section, c), base, inputNames, show);
    OneEntry(ReadLines(s, section, c, inputNames, show), Block(section, d), base, inputNames, show);
    ReadEntriesPlus(s, [Block(section, c)], [Block(section, d)], base, inputNames, show);
    assert [Block(section, c)] + [Block(section, d)] == [Block(section, c), Block(section, d)];
    OneEntry(s, Block(section, []), base, inputNames, show);
    NothingToRead(s, section, base, inputNames, show);
  }

  lemma OneEntry(s: Progress, e: TopEntry, base: Form, inputNames: seq<string>, show: NumberText)
    ensures ReadEntries(s, [e], base, inputNames, show) == StepEntry(s, e, base, inputNames, show)
  {
    hide StepEntry;
    assert [e][1..] == [];
  }

  lemma NothingToRead(s: Progress, section: Section, base: Form, inputNames: seq<string>, show: NumberText)
    ensures ReadEntries(s, [], base, inputNames, show) == s && ReadLines(s, section, [], inputNames, show) == s
  {
  }

  // -------------------------------------------------------------------------
  // What a written file holds
  // -------------------------------------------------------------------------

  predicate AllDigits(s: string) { forall c | c in s :: c in "0123456789" }

  lemma DigitIs(c: char)
    ensures c in "0123456789" <==> '0' <= c <= '9'
  {
    var digits := "0123456789";
    assert forall i | 0 <= i < |digits| :: digits[i] as int == '0' as int + i;
    if '0' <= c <= '9' { assert digits[c as int - '0' as int] == c; }
  }

  lemma {:induction false} RunOfDigits(a: string, rest: string)
    requires AllDigits(a) && (rest == "" || rest[0] !in "0123456789")
    ensures DigitRun(a + rest) == |a|
  {
    if a == "" {
      assert a + rest == rest;
      if rest != "" { DigitIs(rest[0]); }
    } else {
      assert a[0] in a && (a + rest)[0] == a[0] && (a + rest)[1..] == a[1..] + rest && forall c | c in a[1..] :: c in a;
      DigitIs(a[0]);
      RunOfDigits(a[1..], rest);
    }
  }

  lemma {:induction false} RunIsDigits(s: string)
    ensures AllDigits(s[..DigitRun(s)])
  {
    if DigitRun(s) > 0 {
      DigitIs(s[0]);
      RunIsDigits(s[1..]);
      assert s[..DigitRun(s)] == [s[0]] + s[1..][..DigitRun(s[1..])];
    }
  }

  /** A decimal as it may be written: digits, and perhaps a point and more digits. */
  ghost predicate IsDecimal(t: string) {
    (t != "" && AllDigits(t)) || exists a, b :: a != "" && b != "" && AllDigits(a) && AllDigits(b) && t == a + "." + b
  }

  ghost predicate RunsOut(t: string) {
    var n := DigitRun(t);
    n > 0 && (n == |t| || (t[n] == '.' && n + 1 < |t| && DigitRun(t[n + 1..]) == |t| - n - 1))
  }

  lemma PointRuns(a: string, b: string)
    requires a != "" && b != "" && AllDigits(a) && AllDigits(b)
    ensures RunsOut(a + ("." + b))
  {
    hide AllDigits, DigitRun;
    var t := a + ("." + b);
    RunOfDigits(a, "." + b);
    RunOfDigits(b, "");
    assert b + "" == b && t[|a|] == '.' && t[|a| + 1..] == b;
  }

  lemma DecimalRuns(t: string)
    requires IsDecimal(t)
    ensures RunsOut(t)
  {
    hide AllDigits, DigitRun;
    if t != "" && AllDigits(t) {
      RunOfDigits(t, "");
      assert t + "" == t;
    } else {
      hide RunsOut;
      var a, b :| a != "" && b != "" && AllDigits(a) && AllDigits(b) && t == a + "." + b;
      PointRuns(a, b);
      assert a + ("." + b) == t;
    }
  }

  lemma RunsAreDecimal(t: string, n: nat)
    requires n == DigitRun(t) && n > 0
    requires n == |t| || (t[n] == '.' && n + 1 < |t| && DigitRun(t[n + 1..]) == |t| - n - 1)
    ensures IsDecimal(t)
  {
    hide AllDigits, DigitRun;
    RunIsDigits(t);
    if n == |t| {
      assert t[..n] == t;
    } else {
      RunIsDigits(t[n + 1..]);
      assert t == t[..n] + "." + t[n + 1..] && t[n + 1..][..|t| - n - 1] == t[n + 1..];
    }
  }

  /** A text looks like a number when it is a decimal, or a minus sign and one. */
  lemma LooksNumericIs(s: string)
    ensures LooksNumeric(s) <==> IsDecimal(if s != "" && s[0] == '-' then s[1..] else s)
  {
    hide IsDecimal, DigitRun;
    var t := if "-" <= s then s[1..] else s;
    if LooksNumeric(s) { RunsAreDecimal(t, DigitRun(t)); }
    if IsDecimal(t) { DecimalRuns(t); }
  }

  /** A value is written as a number where one is due or an input looks like one, as a flag where an input is true or false, and else as it is. */
  lemma WrittenAs(p: Path, v: string, show: NumberText)
    ensures HoldsNumber(p.section, p.key) && v != "" && show(v) !in {"NaN", "Infinity", "-Infinity"} ==> YamlValue(p, v, show) == Number(show(v))
    ensures p.section == Inputs && v == "true" ==> YamlValue(p, v, show) == Flag(true)
    ensures p.section == Inputs && v == "false" ==> YamlValue(p, v, show) == Flag(false)
    ensures p.section == Inputs && LooksNumeric(v) ==> YamlValue(p, v, show) == Number(show(v))
    ensures !HoldsNumber(p.section, p.key) && !(p.section == Inputs && (v == "true" || v == "false" || LooksNumeric(v)))
            ==> YamlValue(p, v, show) == Str(v)
  {
    NotNumericWords();
  }

  /** A section's lines are, in order, of the leaves the form has, all of them or those that differ from the baseline, where an absent leaf is blank. */
  lemma {:induction false} LinesWritten(f: Form, base: Form, onlyChanges: bool, show: NumberText, section: Section, keys: seq<string>, key: string)
    requires section in f.sections && section in base.sections
    ensures var now, was := f.sections[section], base.sections[section];
            (exists v :: Line(key, v) in SectionLines(f, base, onlyChanges, show, section, keys))
            <==> key in keys && key in now && (onlyChanges ==> now[key] != if key in was then was[key] else "")
    ensures forall v | Line(key, v) in SectionLines(f, base, onlyChanges, show, section, keys) ::
              v == Value(YamlValue(Path(section, key), f.sections[section][key], show))
    decreases |keys|
  {
    hide YamlValue;
    if keys == [] {
    } else {
      LinesWritten(f, base, onlyChanges, show, section, keys[1..], key);
      var p := Path(section, keys[0]);
      var lines, rest := SectionLines(f, base, onlyChanges, show, section, keys), SectionLines(f, base, onlyChanges, show, section, keys[1..]);
      var first := Line(keys[0], Value(YamlValue(p, Leaf(f, p), show)));
      assert forall l :: l in lines <==> (Written(f, base, onlyChanges, p) && l == first) || l in rest;
      assert forall k :: k in keys <==> k == keys[0] || k in keys[1..];
    }
  }

  /** A file names the recipe and the name, then each section that has lines. */
  lemma FileHolds(f: Form, base: Form, onlyChanges: bool, show: NumberText, inputs: seq<string>, env: seq<string>)
    ensures var file := FormToYaml(f, base, onlyChanges, show, inputs, env);
            && |file| >= 2 && file[0] == Recipe(f.recipe) && file[1] == Name(f.name)
            && (forall e | e in file[2..] :: e.Block? && e.lines != [])
            && (forall section, lines | Block(section, lines) in file ::
                  lines == SectionLines(f, base, onlyChanges, show, section, match section case Inputs => inputs case Slurm => SLURM_KEYS
                                                                                      case Env => env case Serving => SERVING_KEYS))
  {
    hide SectionLines;
    var a, b := BlockOf(Inputs, SectionLines(f, base, onlyChanges, show, Inputs, inputs)), BlockOf(Slurm, SectionLines(f, base, onlyChanges, show, Slurm, SLURM_KEYS));
    var c, d := BlockOf(Env, SectionLines(f, base, onlyChanges, show, Env, env)), BlockOf(Serving, SectionLines(f, base, onlyChanges, show, Serving, SERVING_KEYS));
    var file := FormToYaml(f, base, onlyChanges, show, inputs, env);
    assert file == [Recipe(f.recipe), Name(f.name)] + (a + b + c + d);
    assert file[2..] == a + b + c + d;
  }
}
