/**
 * A recipe's script filled in: declared `{{input}}` tokens get their values,
 * then `{{cluster.*}}` tokens get the cluster's.
 */
module Template {
  import opened Text
  import opened Wrappers
  import opened Tokens

  // -------------------------------------------------------------------------
  // The two kinds of token
  // -------------------------------------------------------------------------

  predicate IsLetter(c: char) { 'a' <= c <= 'z' || 'A' <= c <= 'Z' }

  predicate IsNameStart(c: char) { IsLetter(c) || c == '_' }

  predicate IsNameChar(c: char) { IsNameStart(c) || '0' <= c <= '9' }

  predicate IsKeyChar(c: char) { 'a' <= c <= 'z' || c == '_' }

  predicate IsSubChar(c: char) { IsNameChar(c) || c == '.' || c == '-' }

  /** The length of the run of characters of a kind a text starts with. */
  function Run(s: string, kind: char -> bool): (n: nat)
    ensures n <= |s| && (forall i | 0 <= i < n :: kind(s[i])) && (n < |s| ==> !kind(s[n]))
  {
    if s != "" && kind(s[0]) then 1 + Run(s[1..], kind) else 0
  }

  lemma RunIs(s: string, kind: char -> bool, n: nat)
    requires n <= |s| && (forall i | 0 <= i < n :: kind(s[i])) && (n < |s| ==> !kind(s[n]))
    ensures Run(s, kind) == n
  {
  }

  predicate StartsAt(s: string, i: nat, t: string) { i + |t| <= |s| && s[i..i + |t|] == t }

  /** `{{name}}` at the start of a text: its length, or 0. */
  function InputToken(s: string): (n: nat)
    ensures n <= |s|
  {
    if !("{{" <= s) then 0
    else
      var n := Run(s[2..], IsNameChar);
      if n > 0 && IsNameStart(s[2]) && StartsAt(s, 2 + n, "}}") then n + 4 else 0
  }

  predicate IsInputToken(t: string) {
    && |t| > 4 && t[0] == '{' && t[1] == '{' && t[|t| - 2] == '}' && t[|t| - 1] == '}'
    && IsNameStart(t[2]) && forall i | 2 <= i < |t| - 2 :: IsNameChar(t[i])
  }

  function NameOf(t: string): string { if |t| > 4 then t[2..|t| - 2] else "" }

  lemma InputTokenFound(s: string)
    ensures var n := InputToken(s); n > 0 ==> IsInputToken(s[..n])
  {
    var n := InputToken(s);
    if n > 0 {
      var t := s[..n];
      assert s[n - 2..n] == "}}";
      assert s[n - 2] == s[n - 2..n][0] && s[n - 1] == s[n - 2..n][1];
      forall i | 2 <= i < n - 2 ensures IsNameChar(t[i]) { assert s[2..][i - 2] == s[i]; }
    }
  }

  lemma InputTokenOnly(s: string, n: nat)
    requires n <= |s| && IsInputToken(s[..n])
    ensures InputToken(s) == n
  {
    var t := s[..n];
    assert t[0] == s[0] && t[1] == s[1] && t[2] == s[2] && t[n - 2] == s[n - 2] && t[n - 1] == s[n - 1];
    assert "{{" <= s;
    forall i | 0 <= i < n - 4 ensures IsNameChar(s[2..][i]) { assert t[i + 2] == s[i + 2]; }
    RunIs(s[2..], IsNameChar, n - 4);
    assert s[n - 2..n] == "}}";
  }

  lemma InputTokensFound()
    ensures Finds(InputToken, IsInputToken)
  {
    forall s ensures InputToken(s) <= |s| && (InputToken(s) > 0 ==> IsInputToken(s[..InputToken(s)])) {
      InputTokenFound(s);
    }
    forall s, n: nat | n <= |s| && IsInputToken(s[..n]) ensures InputToken(s) == n {
      InputTokenOnly(s, n);
    }
  }

  /** A `{{cluster.key}}` or `{{cluster.key.sub}}` token. */
  datatype ClusterRef = ClusterRef(length: nat, key: string, sub: Option<string>)

  const CLUSTER: string := "cluster."

  function ClusterAt(s: string): (r: Option<ClusterRef>)
    ensures r.Some? ==> 0 < r.value.length <= |s|
  {
    if !("{{" <= s) then None
    else
      var a := 2 + Run(s[2..], IsSpace);
      if !StartsAt(s, a, CLUSTER) then None
      else
        var b := a + |CLUSTER|;
        var k := Run(s[b..], IsKeyChar);
        if k == 0 then None
        else
          var c := b + k;
          var e := c + SubAt(s, c);
          var f := e + Run(s[e..], IsSpace);
          if StartsAt(s, f, "}}") then
            Some(ClusterRef(f + 2, s[b..c], if c < e then Some(s[c + 1..e]) else None))
          else None
  }

  /** The length of the `.sub` part at a position, or 0. */
  function SubAt(s: string, c: nat): (n: nat)
    requires c <= |s|
    ensures c + n <= |s|
  {
    if c < |s| && s[c] == '.' && Run(s[c + 1..], IsSubChar) > 0 then 1 + Run(s[c + 1..], IsSubChar) else 0
  }

  function ClusterToken(s: string): (n: nat)
    ensures n <= |s|
  {
    if ClusterAt(s).Some? then ClusterAt(s).value.length else 0
  }

  // -------------------------------------------------------------------------
  // Cluster values
  // -------------------------------------------------------------------------

  datatype ClusterValues = ClusterValues(cache: string, images: string, logs: string, setup: string, image: map<string, string>)

  predicate ContainsText(s: string, t: string) { exists i | 0 <= i <= |s| :: StartsAt(s, i, t) }

  function WithoutSlashes(s: string): (r: string)
    decreases |s|
  {
    if s != "" && s[|s| - 1] == '/' then WithoutSlashes(s[..|s| - 1]) else s
  }

  function ImagePath(value: string, dir: string): string {
    if value == "" || "/" <= value || ContainsText(value, "://") || dir == "" then value
    else WithoutSlashes(dir) + "/" + value
  }

  /** One cluster value, or None when it isn't set. Setup is optional everywhere. */
  function ClusterValue(cv: ClusterValues, key: string, sub: Option<string>): Option<string> {
    if key == "setup" && sub.None? then Some(cv.setup)
    else
      var v :=
        if key == "image" && sub.Some? then
          (if sub.value in cv.image && cv.image[sub.value] != "" then ImagePath(cv.image[sub.value], cv.images) else "")
        else if key == "cache" then cv.cache
        else if key == "images" then cv.images
        else if key == "logs" then cv.logs
        else "";
      if Trim(v) != "" then Some(v) else None
  }

  /** What a cluster token becomes: its value, or itself when it isn't set. */
  function ClusterText(cv: ClusterValues): string -> string {
    t =>
      match ClusterAt(t)
      case None => t
      case Some(r) => if ClusterValue(cv, r.key, r.sub).Some? then ClusterValue(cv, r.key, r.sub).value else t
  }

  function ResolveClusterTokens(text: string, cv: ClusterValues): string {
    Replace(text, ClusterToken, ClusterText(cv))
  }

  predicate IsUnset(t: string, cv: ClusterValues) {
    ClusterAt(t).Some? && ClusterValue(cv, ClusterAt(t).value.key, ClusterAt(t).value.sub).None?
  }

  /** The name a cluster token is reported under. */
  function ClusterName(t: string): string {
    match ClusterAt(t)
    case None => t
    case Some(r) => CLUSTER + r.key + match r.sub case None => "" case Some(sub) => "." + sub
  }

  /** The names of a text's cluster tokens that have no value on this cluster. */
  function MissingClusterValues(text: string, cv: ClusterValues): set<string> {
    set t | t in Found(text, ClusterToken) && IsUnset(t, cv) :: ClusterName(t)
  }

  // -------------------------------------------------------------------------
  // Inputs
  // -------------------------------------------------------------------------

  datatype InputType = TextInput | ChoiceInput | NumberInput | PathInput | FlagInput
  datatype Input = Input(
    name: string, kind: InputType, default: Option<string>, required: bool, adds: Option<string>, byNodes: map<string, string>)

  predicate MentionsCluster(v: string) {
    exists i | 0 <= i < |v| :: "{{" <= v[i..] && StartsAt(v[i..], 2 + Run(v[i + 2..], IsSpace), CLUSTER)
  }

  function InputDefault(input: Input, cv: ClusterValues, nodes: Option<string>): string {
    var raw :=
      if nodes.Some? && nodes.value in input.byNodes then input.byNodes[nodes.value]
      else if input.default.Some? then input.default.value
      else if input.kind.FlagInput? then "false"
      else "";
    var v := ResolveClusterTokens(raw, cv);
    if !input.required && MentionsCluster(v) then "" else v
  }

  predicate IsOn(v: string) { v == "true" || v == "on" || v == "1" || v == "yes" }

  function Rendered(input: Input, value: string): string {
    if input.kind.FlagInput? then (if IsOn(value) && input.adds.Some? then input.adds.value else "") else value
  }

  /** The value given, trimmed, or the default when it is blank or absent. */
  function ValueOf(input: Input, values: map<string, string>, cv: ClusterValues, nodes: Option<string>): string {
    if input.name in values && Trim(values[input.name]) != "" then Trim(values[input.name])
    else InputDefault(input, cv, nodes)
  }

  /** A required input, not a flag, that has no value. */
  predicate Lacking(input: Input, values: map<string, string>, cv: ClusterValues, nodes: Option<string>) {
    !input.kind.FlagInput? && input.required && ValueOf(input, values, cv, nodes) == ""
  }

  datatype Options = Options(strict: bool, nodes: Option<string>, builtins: seq<(string, string)>)
  datatype RenderError = RequiredInput(name: string) | ClusterUnset(names: set<string>)

  /** What each token name becomes, or the first required input without a value. */
  function Resolved(inputs: seq<Input>, values: map<string, string>, cv: ClusterValues, opts: Options): Result<map<string, string>, RenderError> {
    if inputs == [] then Ok(map[])
    else
      match Resolved(inputs[..|inputs| - 1], values, cv, opts)
      case Err(e) => Err(e)
      case Ok(done) =>
        var input := inputs[|inputs| - 1];
        var value := ValueOf(input, values, cv, opts.nodes);
        if value == "" && !input.kind.FlagInput? then
          if input.required && opts.strict then Err(RequiredInput(input.name))
          else if input.required then Ok(done)
          else Ok(done[input.name := ""])
        else Ok(done[input.name := ResolveClusterTokens(Rendered(input, value), cv)])
  }

  function WithBuiltins(resolved: map<string, string>, builtins: seq<(string, string)>): map<string, string> {
    if builtins == [] then resolved
    else
      var done := WithBuiltins(resolved, builtins[..|builtins| - 1]);
      var (k, v) := builtins[|builtins| - 1];
      if k !in done && v != "" then done[k := v] else done
  }

  /** What an input token becomes: its value, or itself when nothing declares it. */
  function InputText(resolved: map<string, string>): string -> string {
    t => if NameOf(t) in resolved then resolved[NameOf(t)] else t
  }

  function Finish(body: string, resolved: map<string, string>, cv: ClusterValues, strict: bool): Result<string, RenderError> {
    var filled := Replace(body, InputToken, InputText(resolved));
    var out := ResolveClusterTokens(filled, cv);
    var missing := MissingClusterValues(out, cv);
    if strict && missing != {} then Err(ClusterUnset(missing)) else Ok(out)
  }

  function Render(body: string, inputs: seq<Input>, values: map<string, string>, cv: ClusterValues, opts: Options): Result<string, RenderError> {
    match Resolved(inputs, values, cv, opts)
    case Err(e) => Err(e)
    case Ok(resolved) => Finish(body, WithBuiltins(resolved, opts.builtins), cv, opts.strict)
  }

  /** The same, filling the token values input by input. */
  method RenderScript(body: string, inputs: seq<Input>, values: map<string, string>, cv: ClusterValues, opts: Options) returns (r: Result<string, RenderError>)
    ensures r == Render(body, inputs, values, cv, opts)
  {
    hide ValueOf, Rendered, ResolveClusterTokens, Finish;
    var resolved: map<string, string> := map[];
    for i := 0 to |inputs|
      invariant Resolved(inputs[..i], values, cv, opts) == Ok(resolved)
    {
      assert inputs[..i + 1][..i] == inputs[..i];
      var value := ValueOf(inputs[i], values, cv, opts.nodes);
      if value == "" && !inputs[i].kind.FlagInput? {
        if inputs[i].required && opts.strict {
          StopsAt(inputs, i + 1, values, cv, opts);
          return Err(RequiredInput(inputs[i].name));
        }
        if !inputs[i].required { resolved := resolved[inputs[i].name := ""]; }
      } else {
        resolved := resolved[inputs[i].name := ResolveClusterTokens(Rendered(inputs[i], value), cv)];
      }
    }
    assert inputs[..|inputs|] == inputs;
    var declared := resolved;
    for i := 0 to |opts.builtins|
      invariant WithBuiltins(declared, opts.builtins[..i]) == resolved
    {
      assert opts.builtins[..i + 1][..i] == opts.builtins[..i];
      var (k, v) := opts.builtins[i];
      if k !in resolved && v != "" { resolved := resolved[k := v]; }
    }
    assert opts.builtins[..|opts.builtins|] == opts.builtins;
    r := Finish(body, resolved, cv, opts.strict);
  }

  lemma {:induction false} StopsAt(inputs: seq<Input>, n: nat, values: map<string, string>, cv: ClusterValues, opts: Options)
    requires n <= |inputs| && Resolved(inputs[..n], values, cv, opts).Err?
    ensures Resolved(inputs, values, cv, opts) == Resolved(inputs[..n], values, cv, opts)
    decreases |inputs|
  {
    hide ValueOf, Rendered, ResolveClusterTokens;
    if n < |inputs| {
      var front := inputs[..|inputs| - 1];
      assert front[..n] == inputs[..n];
      StopsAt(front, n, values, cv, opts);
    } else {
      assert inputs[..n] == inputs;
    }
  }

  // -------------------------------------------------------------------------
  // What a cluster token is
  // -------------------------------------------------------------------------

  predicate All(s: string, kind: char -> bool) { forall i | 0 <= i < |s| :: kind(s[i]) }

  /** A token spelled out: its spaces, its key, and what follows the key. */
  ghost predicate ClusterShape(t: string, w: string, key: string, sub: Option<string>, v: string) {
    && All(w, IsSpace) && All(v, IsSpace)
    && key != "" && All(key, IsKeyChar)
    && (sub.Some? ==> sub.value != "" && All(sub.value, IsSubChar))
    && t == "{{" + (w + (CLUSTER + (key + (Dotted(sub) + (v + "}}")))))
  }

  ghost predicate IsClusterToken(t: string) {
    exists w, key, sub, v :: ClusterShape(t, w, key, sub, v)
  }

  lemma RunOver(a: string, rest: string, kind: char -> bool)
    requires All(a, kind) && (rest != "" ==> !kind(rest[0]))
    ensures Run(a + rest, kind) == |a|
  {
    RunIs(a + rest, kind, |a|);
  }

  lemma Drop(s: string, i: nat, a: string, rest: string)
    requires i <= |s| && s[i..] == a + rest
    ensures i + |a| <= |s| && s[i..i + |a|] == a && s[i + |a|..] == rest
  {
    assert s[i..][..|a|] == a && s[i..][|a|..] == rest;
  }

  lemma Push(a: string, b: string, rest: string)
    ensures (a + b) + rest == a + (b + rest)
  {
  }

  function Dotted(sub: Option<string>): string { if sub.Some? then "." + sub.value else "" }

  lemma SubAtIs(s: string, c: nat, sub: Option<string>, tail: string)
    requires c <= |s| && s[c..] == Dotted(sub) + tail
    requires tail != "" && tail[0] != '.' && !IsSubChar(tail[0])
    requires sub.Some? ==> sub.value != "" && All(sub.value, IsSubChar)
    ensures SubAt(s, c) == |Dotted(sub)|
    ensures var e := c + SubAt(s, c);
            && s[e..] == tail
            && (if c < e then Some(s[c + 1..e]) else None) == sub
  {
    hide Run, All, IsSubChar;
    if sub.Some? {
      Push(".", sub.value, tail);
      DottedSub(s, c, sub.value, tail);
    } else {
      assert Dotted(sub) + tail == tail;
      FirstOf(s, c, tail, "");
    }
  }

  lemma DottedSub(s: string, c: nat, sub: string, tail: string)
    requires c <= |s| && s[c..] == "." + (sub + tail)
    requires tail != "" && !IsSubChar(tail[0]) && sub != "" && All(sub, IsSubChar)
    ensures SubAt(s, c) == 1 + |sub| && c + 1 + |sub| <= |s| && s[c + 1 + |sub|..] == tail && s[c + 1..c + 1 + |sub|] == sub
  {
    hide Run, All, IsSubChar;
    Drop(s, c, ".", sub + tail);
    FirstOf(s, c, ".", sub + tail);
    RunOver(sub, tail, IsSubChar);
    Drop(s, c + 1, sub, tail);
  }

  lemma FirstOf(s: string, c: nat, a: string, rest: string)
    requires c <= |s| && a != "" && (s[c..] == a + rest || s[c..] == a)
    ensures c < |s| && s[c] == a[0]
  {
    assert s[c] == s[c..][0];
  }

  /** The spaces and closing braces after a key. */
  lemma ClosesAt(s: string, e: nat, v: string, rest: string)
    requires e <= |s| && s[e..] == v + ("}}" + rest) && All(v, IsSpace)
    ensures var f := e + Run(s[e..], IsSpace); Run(s[e..], IsSpace) == |v| && StartsAt(s, f, "}}")
  {
    RunOver(v, "}}" + rest, IsSpace);
    Drop(s, e, v, "}}" + rest);
    Drop(s, e + |v|, "}}", rest);
  }

  /** The opening braces, spaces, `cluster.` and key. */
  lemma OpensAt(s: string, w: string, key: string, more: string)
    requires s == "{{" + (w + (CLUSTER + (key + more)))
    requires All(w, IsSpace) && All(key, IsKeyChar) && more != "" && !IsKeyChar(more[0])
    ensures var a := 2 + |w|;
            var b := a + |CLUSTER|;
            && "{{" <= s && Run(s[2..], IsSpace) == |w| && StartsAt(s, a, CLUSTER)
            && Run(s[b..], IsKeyChar) == |key| && b + |key| <= |s| && s[b..b + |key|] == key && s[b + |key|..] == more
  {
    hide Run, All, IsKeyChar, IsSpace;
    SpacesEnd(s, w, key + more);
    KeyEnds(s, 2 + |w|, key, more);
  }

  lemma SpacesEnd(s: string, w: string, rest: string)
    requires s == "{{" + (w + (CLUSTER + rest)) && All(w, IsSpace)
    ensures "{{" <= s && Run(s[2..], IsSpace) == |w| && 2 + |w| <= |s| && s[2 + |w|..] == CLUSTER + rest
  {
    hide All;
    assert s[0..] == s;
    Drop(s, 0, "{{", w + (CLUSTER + rest));
    assert (CLUSTER + rest)[0] == 'c';
    RunOver(w, CLUSTER + rest, IsSpace);
    Drop(s, 2, w, CLUSTER + rest);
  }

  lemma KeyEnds(s: string, a: nat, key: string, more: string)
    requires a <= |s| && s[a..] == CLUSTER + (key + more) && All(key, IsKeyChar) && more != "" && !IsKeyChar(more[0])
    ensures var b := a + |CLUSTER|;
            && StartsAt(s, a, CLUSTER)
            && Run(s[b..], IsKeyChar) == |key| && b + |key| <= |s| && s[b..b + |key|] == key && s[b + |key|..] == more
  {
    hide All, IsKeyChar;
    Drop(s, a, CLUSTER, key + more);
    RunOver(key, more, IsKeyChar);
    Drop(s, a + |CLUSTER|, key, more);
  }

  /** A text that starts with a cluster token is seen to, with that key. */
  lemma ClusterTokenOnly(s: string, rest: string, t: string, w: string, key: string, sub: Option<string>, v: string)
    requires ClusterShape(t, w, key, sub, v) && s == t + rest
    ensures ClusterAt(s) == Some(ClusterRef(|t|, key, sub))
  {
    hide Run, SubAt, StartsAt, All, ClusterAt, Dotted;
    Regroup(w, key, Dotted(sub), v, rest);
    Lengths(w, key, sub, v);
    SpelledOut(s, w, key, sub, v, rest);
  }

  lemma SpelledOut(s: string, w: string, key: string, sub: Option<string>, v: string, rest: string)
    requires All(w, IsSpace) && All(v, IsSpace) && key != "" && All(key, IsKeyChar)
    requires sub.Some? ==> sub.value != "" && All(sub.value, IsSubChar)
    requires s == "{{" + (w + (CLUSTER + (key + (Dotted(sub) + (v + ("}}" + rest))))))
    ensures ClusterAt(s) == Some(ClusterRef(2 + |w| + |CLUSTER| + |key| + |Dotted(sub)| + |v| + 2, key, sub))
  {
    hide Run, SubAt, StartsAt, All, ClusterAt, Dotted;
    var tail := v + ("}}" + rest);
    var more := Dotted(sub) + tail;
    TailStart(v, "}}" + rest);
    MoreStart(sub, tail);
    Assembled(s, w, key, more, sub, v, rest);
  }

  lemma Assembled(s: string, w: string, key: string, more: string, sub: Option<string>, v: string, rest: string)
    requires All(w, IsSpace) && All(v, IsSpace) && key != "" && All(key, IsKeyChar)
    requires sub.Some? ==> sub.value != "" && All(sub.value, IsSubChar)
    requires s == "{{" + (w + (CLUSTER + (key + more))) && more != "" && !IsKeyChar(more[0])
    requires more == Dotted(sub) + (v + ("}}" + rest))
    ensures ClusterAt(s) == Some(ClusterRef(2 + |w| + |CLUSTER| + |key| + |Dotted(sub)| + |v| + 2, key, sub))
  {
    hide Run, SubAt, StartsAt, All, ClusterAt, Dotted, IsSpace, IsKeyChar, IsSubChar;
    OpensAt(s, w, key, more);
    Opened(s, |w|, key, sub, v, rest);
  }

  lemma Opened(s: string, w: nat, key: string, sub: Option<string>, v: string, rest: string)
    requires var b := 2 + w + |CLUSTER|;
             var c := b + |key|;
             && "{{" <= s && Run(s[2..], IsSpace) == w && StartsAt(s, 2 + w, CLUSTER)
             && c <= |s| && Run(s[b..], IsKeyChar) == |key| > 0 && s[b..c] == key
             && s[c..] == Dotted(sub) + (v + ("}}" + rest))
    requires All(v, IsSpace) && (sub.Some? ==> sub.value != "" && All(sub.value, IsSubChar))
    ensures ClusterAt(s) == Some(ClusterRef(2 + w + |CLUSTER| + |key| + |Dotted(sub)| + |v| + 2, key, sub))
  {
    hide Run, SubAt, StartsAt, All, ClusterAt, Dotted;
    var c := 2 + w + |CLUSTER| + |key|;
    TailAt(s, c, sub, v, rest);
    ClusterParts(s, w, key, sub, c + SubAt(s, c), |v|);
  }

  lemma TailAt(s: string, c: nat, sub: Option<string>, v: string, rest: string)
    requires c <= |s| && s[c..] == Dotted(sub) + (v + ("}}" + rest)) && All(v, IsSpace)
    requires sub.Some? ==> sub.value != "" && All(sub.value, IsSubChar)
    ensures var e := c + SubAt(s, c);
            && SubAt(s, c) == |Dotted(sub)|
            && (if c < e then Some(s[c + 1..e]) else None) == sub
            && Run(s[e..], IsSpace) == |v| && StartsAt(s, e + |v|, "}}")
  {
    hide Run, SubAt, StartsAt, All, Dotted;
    TailStart(v, "}}" + rest);
    SubAtIs(s, c, sub, v + ("}}" + rest));
    ClosesAt(s, c + SubAt(s, c), v, rest);
  }

  lemma MoreStart(sub: Option<string>, tail: string)
    requires tail != "" && !IsKeyChar(tail[0])
    ensures var more := Dotted(sub) + tail; more != "" && !IsKeyChar(more[0])
  {
    if sub.Some? { assert (Dotted(sub) + tail)[0] == '.'; } else { assert Dotted(sub) + tail == tail; }
  }

  lemma Regroup(w: string, key: string, d: string, v: string, rest: string)
    ensures ("{{" + (w + (CLUSTER + (key + (d + (v + "}}")))))) + rest
         == "{{" + (w + (CLUSTER + (key + (d + (v + ("}}" + rest))))))
  {
    var close := "}}";
    Push(v, close, rest);
    Push(d, v + close, rest);
    Push(key, d + (v + close), rest);
    Push(CLUSTER, key + (d + (v + close)), rest);
    Push(w, CLUSTER + (key + (d + (v + close))), rest);
    Push("{{", w + (CLUSTER + (key + (d + (v + close)))), rest);
  }

  /** How the parts found make up the token. */
  lemma ClusterParts(s: string, w: nat, key: string, sub: Option<string>, e: nat, v: nat)
    requires var b := 2 + w + |CLUSTER|;
             var c := b + |key|;
             && "{{" <= s && Run(s[2..], IsSpace) == w && StartsAt(s, 2 + w, CLUSTER)
             && b <= |s| && Run(s[b..], IsKeyChar) == |key| > 0 && c <= |s| && s[b..c] == key
             && e == c + SubAt(s, c) && (if c < e then Some(s[c + 1..e]) else None) == sub
             && Run(s[e..], IsSpace) == v && StartsAt(s, e + v, "}}")
    ensures ClusterAt(s) == Some(ClusterRef(e + v + 2, key, sub))
  {
    hide Run, SubAt, StartsAt;
  }

  lemma Lengths(w: string, key: string, sub: Option<string>, v: string)
    ensures |"{{" + (w + (CLUSTER + (key + (Dotted(sub) + (v + "}}")))))| == 2 + |w| + |CLUSTER| + |key| + |Dotted(sub)| + |v| + 2
  {
  }

  lemma TailStart(v: string, close: string)
    requires All(v, IsSpace) && close != "" && close[0] == '}'
    ensures var tail := v + close;
            && tail != "" && tail[0] != '.' && !IsSubChar(tail[0]) && !IsKeyChar(tail[0])
  {
    assert (v + close)[0] == if v == "" then '}' else v[0];
  }

  lemma RunAll(s: string, i: nat, kind: char -> bool)
    requires i <= |s|
    ensures var j := i + Run(s[i..], kind); j <= |s| && All(s[i..j], kind)
  {
    var j := i + Run(s[i..], kind);
    assert s[i..j] == s[i..][..j - i];
  }

  lemma SubFound(s: string, c: nat)
    requires c <= |s|
    ensures var e := c + SubAt(s, c);
            c < e ==> s[c] == '.' && s[c + 1..e] != "" && All(s[c + 1..e], IsSubChar)
  {
    hide Run, All;
    if SubAt(s, c) > 0 {
      RunAll(s, c + 1, IsSubChar);
      assert c + SubAt(s, c) == c + 1 + Run(s[c + 1..], IsSubChar);
    }
  }

  /** What is seen as a cluster token is one. */
  lemma ClusterTokenFound(s: string)
    ensures ClusterAt(s).Some? ==> IsClusterToken(s[..ClusterAt(s).value.length])
  {
    hide Run, All, SubAt;
    if ClusterAt(s).Some? {
      var a := 2 + Run(s[2..], IsSpace);
      var b := a + |CLUSTER|;
      var c := b + Run(s[b..], IsKeyChar);
      var e := c + SubAt(s, c);
      var f := e + Run(s[e..], IsSpace);
      assert ClusterAt(s).value.length == f + 2;
      ShapeFound(s, a, b, c, e, f);
    }
  }

  lemma ShapeFound(s: string, a: nat, b: nat, c: nat, e: nat, f: nat)
    requires "{{" <= s && a == 2 + Run(s[2..], IsSpace) && StartsAt(s, a, CLUSTER) && b == a + |CLUSTER|
    requires c == b + Run(s[b..], IsKeyChar) && b < c && e == c + SubAt(s, c)
    requires f == e + Run(s[e..], IsSpace) && StartsAt(s, f, "}}")
    ensures IsClusterToken(s[..f + 2])
  {
    hide Run, All, SubAt, Dotted;
    RunAll(s, 2, IsSpace);
    RunAll(s, b, IsKeyChar);
    RunAll(s, e, IsSpace);
    SubFound(s, c);
    var sub := if c < e then Some(s[c + 1..e]) else None;
    DottedSlice(s, c, e);
    Slices(s, a, b, c, e, f);
    assert ClusterShape(s[..f + 2], s[2..a], s[b..c], sub, s[e..f]);
  }

  lemma DottedSlice(s: string, c: nat, e: nat)
    requires c <= e <= |s| && (c < e ==> s[c] == '.')
    ensures Dotted(if c < e then Some(s[c + 1..e]) else None) == s[c..e]
  {
  }

  lemma Slices(s: string, a: nat, b: nat, c: nat, e: nat, f: nat)
    requires 2 <= a <= b <= c <= e <= f && "{{" <= s && f + 2 <= |s| && s[a..b] == CLUSTER && s[f..f + 2] == "}}"
    ensures s[..f + 2] == "{{" + (s[2..a] + (CLUSTER + (s[b..c] + (s[c..e] + (s[e..f] + "}}")))))
  {
    assert s[e..f + 2] == s[e..f] + "}}";
    assert s[c..f + 2] == s[c..e] + s[e..f + 2];
    assert s[b..f + 2] == s[b..c] + s[c..f + 2];
    assert s[a..f + 2] == CLUSTER + s[b..f + 2];
    assert s[2..f + 2] == s[2..a] + s[a..f + 2];
    assert s[..f + 2] == "{{" + s[2..f + 2];
  }

  lemma ClusterTokensFound()
    ensures Finds(ClusterToken, IsClusterToken)
  {
    hide ClusterAt, ClusterShape;
    forall s ensures ClusterToken(s) <= |s| && (ClusterToken(s) > 0 ==> IsClusterToken(s[..ClusterToken(s)])) {
      ClusterTokenFound(s);
    }
    forall s, n: nat | n <= |s| && IsClusterToken(s[..n]) ensures ClusterToken(s) == n {
      var w, key, sub, v :| ClusterShape(s[..n], w, key, sub, v);
      assert s == s[..n] + s[n..];
      ClusterTokenOnly(s, s[n..], s[..n], w, key, sub, v);
    }
    assert !IsClusterToken("") by { NotEmpty(); }
  }

  lemma NotEmpty()
    ensures !IsClusterToken("")
  {
    forall w, key, sub, v ensures !ClusterShape("", w, key, sub, v) {
      Lengths(w, key, sub, v);
    }
  }

  // -------------------------------------------------------------------------
  // What rendering guarantees
  // -------------------------------------------------------------------------

  /**
   * Every script rendered is any reading of the body with its declared tokens
   * filled once, then any reading of that with its cluster tokens filled once.
   */
  lemma RenderFillsOnce(
    body: string, resolved: map<string, string>, cv: ClusterValues, strict: bool, inputs: seq<Piece>, clusters: seq<Piece>)
    requires Reading(inputs, body, IsInputToken)
    requires Reading(clusters, Fill(inputs, InputText(resolved)), IsClusterToken)
    ensures var r := Finish(body, resolved, cv, strict); r.Ok? ==> r.value == Fill(clusters, ClusterText(cv))
  {
    InputTokensFound();
    ClusterTokensFound();
    ReplaceFillsReading(inputs, body, InputToken, IsInputToken, InputText(resolved));
    ReplaceFillsReading(clusters, Fill(inputs, InputText(resolved)), ClusterToken, IsClusterToken, ClusterText(cv));
  }

  /** Which names have a text, after every input is looked at. */
  lemma {:induction false} ResolvedNames(inputs: seq<Input>, values: map<string, string>, cv: ClusterValues, opts: Options)
    ensures var r := Resolved(inputs, values, cv, opts);
            && (r.Err? <==> opts.strict && exists i | 0 <= i < |inputs| :: Lacking(inputs[i], values, cv, opts.nodes))
            && (r.Ok? ==> forall n :: n in r.value <==>
                  exists i | 0 <= i < |inputs| :: inputs[i].name == n && !Lacking(inputs[i], values, cv, opts.nodes))
    decreases |inputs|
  {
    hide ValueOf, Rendered, ResolveClusterTokens;
    if inputs == [] {
    } else {
      var k := |inputs| - 1;
      var front := inputs[..k];
      ResolvedNames(front, values, cv, opts);
      var r := Resolved(inputs, values, cv, opts);
      assert forall i | 0 <= i < k :: front[i] == inputs[i];
      if Lacking(inputs[k], values, cv, opts.nodes) && opts.strict { assert r.Err?; }
      if r.Ok? {
        forall n ensures n in r.value <==> exists i | 0 <= i < |inputs| :: inputs[i].name == n && !Lacking(inputs[i], values, cv, opts.nodes) {
          if n in r.value && n != inputs[k].name {
            var i :| 0 <= i < k && front[i].name == n && !Lacking(front[i], values, cv, opts.nodes);
            assert inputs[i].name == n;
          }
        }
      }
    }
  }

  /**
   * Strict rendering returns a script exactly when every required input that
   * is not a flag has a value and no cluster token in the script lacks one;
   * without `strict` it always returns one.
   */
  lemma StrictReturnsWhenComplete(body: string, inputs: seq<Input>, values: map<string, string>, cv: ClusterValues, opts: Options)
    ensures var loose := Render(body, inputs, values, cv, opts.(strict := false));
            && loose.Ok?
            && (opts.strict ==>
                var r := Render(body, inputs, values, cv, opts);
                && (r.Ok? <==> (forall i | 0 <= i < |inputs| :: !Lacking(inputs[i], values, cv, opts.nodes))
                               && MissingClusterValues(loose.value, cv) == {})
                && (r.Ok? ==> r == loose))
  {
    hide ValueOf, Rendered, ResolveClusterTokens, MissingClusterValues, Replace;
    var slack := opts.(strict := false);
    ResolvedNames(inputs, values, cv, opts);
    ResolvedNames(inputs, values, cv, slack);
    if opts.strict && Resolved(inputs, values, cv, opts).Ok? {
      SameResolved(inputs, values, cv, opts);
    }
  }

  lemma {:induction false} SameResolved(inputs: seq<Input>, values: map<string, string>, cv: ClusterValues, opts: Options)
    requires Resolved(inputs, values, cv, opts).Ok?
    ensures Resolved(inputs, values, cv, opts.(strict := false)) == Resolved(inputs, values, cv, opts)
    decreases |inputs|
  {
    hide ValueOf, Rendered, ResolveClusterTokens;
    if inputs == [] {
    } else {
      SameResolved(inputs[..|inputs| - 1], values, cv, opts);
    }
  }

  // -------------------------------------------------------------------------
  // What each token becomes
  // -------------------------------------------------------------------------

  /** The text of an input that does not lack a value. */
  function TextOf(input: Input, values: map<string, string>, cv: ClusterValues, nodes: Option<string>): string {
    var value := ValueOf(input, values, cv, nodes);
    if value == "" && !input.kind.FlagInput? then "" else ResolveClusterTokens(Rendered(input, value), cv)
  }

  predicate Named(input: Input, n: string, values: map<string, string>, cv: ClusterValues, nodes: Option<string>) {
    input.name == n && !Lacking(input, values, cv, nodes)
  }

  /** The input that supplies a name: the last of that name that does not lack a value. */
  function Supplier(inputs: seq<Input>, n: string, values: map<string, string>, cv: ClusterValues, nodes: Option<string>): (r: Option<nat>)
    ensures r.Some? ==>
              && r.value < |inputs| && Named(inputs[r.value], n, values, cv, nodes)
              && forall j | r.value < j < |inputs| :: !Named(inputs[j], n, values, cv, nodes)
    ensures r.None? ==> forall j | 0 <= j < |inputs| :: !Named(inputs[j], n, values, cv, nodes)
  {
    if inputs == [] then None
    else if Named(inputs[|inputs| - 1], n, values, cv, nodes) then Some(|inputs| - 1)
    else Supplier(inputs[..|inputs| - 1], n, values, cv, nodes)
  }

  predicate Offered(builtin: (string, string), n: string) { builtin.0 == n && builtin.1 != "" }

  /** The builtin that fills a name no input supplies: the first of that name that is not blank. */
  function Filler(builtins: seq<(string, string)>, n: string): (r: Option<nat>)
    ensures r.Some? ==>
              r.value < |builtins| && Offered(builtins[r.value], n) && forall j | 0 <= j < r.value :: !Offered(builtins[j], n)
    ensures r.None? ==> forall j | 0 <= j < |builtins| :: !Offered(builtins[j], n)
  {
    if builtins == [] then None
    else
      var front := Filler(builtins[..|builtins| - 1], n);
      if front.Some? then front
      else if Offered(builtins[|builtins| - 1], n) then Some(|builtins| - 1)
      else None
  }

  /** What the last input does to the texts so far. */
  lemma ResolvedNext(inputs: seq<Input>, values: map<string, string>, cv: ClusterValues, opts: Options)
    requires inputs != [] && Resolved(inputs, values, cv, opts).Ok?
    ensures var front, last := Resolved(inputs[..|inputs| - 1], values, cv, opts), inputs[|inputs| - 1];
            && front.Ok?
            && Resolved(inputs, values, cv, opts).value
               == if Lacking(last, values, cv, opts.nodes) then front.value
                  else front.value[last.name := TextOf(last, values, cv, opts.nodes)]
  {
    hide ValueOf, Rendered, ResolveClusterTokens;
  }

  lemma NamedLast(input: Input, n: string, values: map<string, string>, cv: ClusterValues, nodes: Option<string>)
    ensures Named(input, n, values, cv, nodes) <==> input.name == n && !Lacking(input, values, cv, nodes)
  {
  }

  /** A name resolved has the text of the input that supplies it. */
  lemma {:induction false} ResolvedTexts(inputs: seq<Input>, values: map<string, string>, cv: ClusterValues, opts: Options, n: string)
    requires Resolved(inputs, values, cv, opts).Ok?
    ensures var r, i := Resolved(inputs, values, cv, opts).value, Supplier(inputs, n, values, cv, opts.nodes);
            && (n in r <==> i.Some?)
            && (i.Some? ==> r[n] == TextOf(inputs[i.value], values, cv, opts.nodes))
    decreases |inputs|
  {
    hide Lacking, TextOf;
    if inputs == [] {
    } else {
      hide Resolved, Named;
      NamedLast(inputs[|inputs| - 1], n, values, cv, opts.nodes);
      ResolvedNext(inputs, values, cv, opts);
      ResolvedTexts(inputs[..|inputs| - 1], values, cv, opts, n);
    }
  }

  /** Builtins fill only names that have no text. */
  lemma {:induction false} BuiltinsFill(done: map<string, string>, builtins: seq<(string, string)>, n: string)
    ensures var r, b := WithBuiltins(done, builtins), Filler(builtins, n);
            && (n in r <==> n in done || b.Some?)
            && (n in done ==> r[n] == done[n])
            && (n !in done && b.Some? ==> r[n] == builtins[b.value].1)
    decreases |builtins|
  {
    if builtins == [] {
    } else {
      BuiltinsFill(done, builtins[..|builtins| - 1], n);
    }
  }

  /**
   * An input token becomes the text of the input that supplies its name, else
   * the builtin that fills it, and passes through exactly when there is neither.
   */
  lemma DeclaredTokensFilled(t: string, inputs: seq<Input>, values: map<string, string>, cv: ClusterValues, opts: Options)
    requires Resolved(inputs, values, cv, opts).Ok?
    ensures var resolved := WithBuiltins(Resolved(inputs, values, cv, opts).value, opts.builtins);
            var i, b := Supplier(inputs, NameOf(t), values, cv, opts.nodes), Filler(opts.builtins, NameOf(t));
            && InputText(resolved)(t)
               == (if i.Some? then TextOf(inputs[i.value], values, cv, opts.nodes)
                   else if b.Some? then opts.builtins[b.value].1
                   else t)
            && (NameOf(t) in resolved <==> i.Some? || b.Some?)
  {
    hide TextOf, NameOf, Named, Offered, Resolved, WithBuiltins, Supplier, Filler;
    ResolvedTexts(inputs, values, cv, opts, NameOf(t));
    BuiltinsFill(Resolved(inputs, values, cv, opts).value, opts.builtins, NameOf(t));
  }
}
