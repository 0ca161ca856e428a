/**
 * What each token of a recipe's script becomes, told from the input's own
 * fields, the values typed and the cluster's defaults.
 */
module Rendering {
  import opened Text
  import opened Wrappers
  import opened Tokens
  import opened Template

  // -------------------------------------------------------------------------
  // Tokens
  // -------------------------------------------------------------------------

  /** The characters of an input's name, of a cluster key and of what follows its dot. */
  lemma CharactersAre(c: char)
    ensures IsNameStart(c) <==> c in LOWER_CASE + UPPER_CASE + "_"
    ensures IsNameChar(c) <==> c in LOWER_CASE + UPPER_CASE + DIGITS + "_"
    ensures IsKeyChar(c) <==> c in LOWER_CASE + "_"
    ensures IsSubChar(c) <==> c in LOWER_CASE + UPPER_CASE + DIGITS + "_.-"
    ensures IsSpace(c) <==> c in [' ', '\t', '\n', 11 as char, 12 as char, '\r']
  {
    AlphabetIs(c);
  }

  /** `{{name}}` is the input token of that name, wherever it stands. */
  lemma InputTokenIs(name: string, rest: string)
    requires name != "" && name[0] in LOWER_CASE + UPPER_CASE + "_" && forall c | c in name :: c in LOWER_CASE + UPPER_CASE + DIGITS + "_"
    ensures var t := "{{" + name + "}}"; InputToken(t + rest) == |t| && NameOf(t) == name && IsInputToken(t)
  {
    var t := "{{" + name + "}}";
    var s := t + rest;
    assert s[..|t|] == t && t[2..|t| - 2] == name;
    CharactersAre(name[0]);
    forall i | 2 <= i < |t| - 2 ensures IsNameChar(t[i]) {
      assert t[i] == name[i - 2];
      CharactersAre(t[i]);
    }
    InputTokenOnly(s, |t|);
  }

  // -------------------------------------------------------------------------
  // Cluster values
  // -------------------------------------------------------------------------

  /** A cluster token as it is spelled: spaces inside the braces, a key, and perhaps a dot and more. */
  ghost predicate Spells(t: string, key: string, sub: Option<string>) {
    exists w, v :: All(w, IsSpace) && All(v, IsSpace)
      && t == "{{" + (w + ("cluster." + (key + ((if sub.Some? then "." + sub.value else "") + (v + "}}")))))
  }

  lemma SpelledToken(t: string, key: string, sub: Option<string>)
    requires Spells(t, key, sub) && key != "" && All(key, IsKeyChar)
    requires sub.Some? ==> sub.value != "" && All(sub.value, IsSubChar)
    ensures ClusterAt(t) == Some(ClusterRef(|t|, key, sub))
  {
    hide ClusterAt, All;
    var w, v :| All(w, IsSpace) && All(v, IsSpace)
      && t == "{{" + (w + ("cluster." + (key + ((if sub.Some? then "." + sub.value else "") + (v + "}}")))));
    assert ClusterShape(t, w, key, sub, v);
    assert t + "" == t;
    ClusterTokenOnly(t, "", t, w, key, sub, v);
  }

  /** Each key takes its own field of the cluster's defaults, when it is not blank; `setup` takes it blank or not. */
  lemma ClusterTokenBecomes(t: string, key: string, sub: Option<string>, cv: ClusterValues)
    requires Spells(t, key, sub) && key != "" && All(key, IsKeyChar)
    requires sub.Some? ==> sub.value != "" && All(sub.value, IsSubChar)
    ensures key == "setup" && sub.None? ==> ClusterText(cv)(t) == cv.setup && !IsUnset(t, cv)
    ensures key == "cache" ==> TakesOrStays(t, cv, cv.cache)
    ensures key == "images" ==> TakesOrStays(t, cv, cv.images)
    ensures key == "logs" ==> TakesOrStays(t, cv, cv.logs)
    ensures key == "image" && sub.Some? && sub.value in cv.image ==>
              exists path :: IsImagePath(path, cv.image[sub.value], cv.images) && TakesOrStays(t, cv, path)
    ensures key !in {"setup", "cache", "images", "logs", "image"} ==> TakesOrStays(t, cv, "")
    ensures key == "setup" && sub.Some? ==> TakesOrStays(t, cv, "")
    ensures key == "image" && (sub.None? || sub.value !in cv.image) ==> TakesOrStays(t, cv, "")
    ensures ClusterName(t) == "cluster." + key + if sub.Some? then "." + sub.value else ""
  {
    hide ClusterAt, Spells, All, Trim, ImagePath;
    SpelledToken(t, key, sub);
    if key == "image" && sub.Some? && sub.value in cv.image {
      var v := cv.image[sub.value];
      ImagePathIs(v, cv.images);
      assert IsImagePath(ImagePath(v, cv.images), v, cv.images);
      if v == "" { BlankTrims(v, cv.images); }
    }
    assert Trim("") == "" by { TrimNothing(); }
  }

  lemma TrimNothing()
    ensures Trim("") == ""
  {
  }

  lemma BlankTrims(v: string, dir: string)
    requires v == ""
    ensures ImagePath(v, dir) == ""
  {
  }

  /** A token becomes a value that is not blank, and else stays and is missing. */
  ghost predicate TakesOrStays(t: string, cv: ClusterValues, value: string) {
    if Trim(value) != "" then ClusterText(cv)(t) == value && !IsUnset(t, cv) else ClusterText(cv)(t) == t && IsUnset(t, cv)
  }

  /** An image's path: as given when it is absolute, an address or there is no folder, and else under the folder. */
  ghost predicate IsImagePath(path: string, image: string, folder: string) {
    if image == "" || image[0] == '/' || folder == "" || (exists a, b :: image == a + "://" + b) then path == image
    else exists base, slashes :: Folder(folder, base, slashes) && path == base + "/" + image
  }

  /** A folder and the slashes it ends with. */
  ghost predicate Folder(folder: string, base: string, slashes: string) {
    folder == base + slashes && All(slashes, c => c == '/') && (base == "" || base[|base| - 1] != '/')
  }

  lemma {:induction false} SlashesOff(s: string) returns (slashes: string)
    ensures Folder(s, WithoutSlashes(s), slashes)
    decreases |s|
  {
    if s != "" && s[|s| - 1] == '/' {
      var more := SlashesOff(s[..|s| - 1]);
      slashes := more + "/";
      assert s == WithoutSlashes(s) + slashes;
    } else {
      slashes := "";
      assert s + "" == s;
    }
  }

  lemma ContainsIs(s: string, t: string)
    ensures ContainsText(s, t) <==> exists a, b :: s == a + t + b
  {
    if ContainsText(s, t) {
      var i :| 0 <= i <= |s| && StartsAt(s, i, t);
      assert s == s[..i] + t + s[i + |t|..];
    }
    if a, b :| s == a + t + b {
      assert StartsAt(s, |a|, t);
    }
  }

  lemma ImagePathIs(image: string, folder: string)
    ensures IsImagePath(ImagePath(image, folder), image, folder)
  {
    hide WithoutSlashes, All, ContainsText;
    ContainsIs(image, "://");
    var slashes := SlashesOff(folder);
  }

  // -------------------------------------------------------------------------
  // Inputs
  // -------------------------------------------------------------------------

  /** A text still names a cluster default. */
  ghost predicate NamesCluster(v: string) { exists a, w, b :: All(w, IsSpace) && v == a + ("{{" + (w + ("cluster." + b))) }

  lemma MentionsIs(v: string)
    ensures MentionsCluster(v) <==> NamesCluster(v)
  {
    hide MentionsCluster, NamesCluster;
    if MentionsCluster(v) { MentionedNames(v); }
    if NamesCluster(v) { NamedMentions(v); }
  }

  lemma MentionedNames(v: string)
    requires MentionsCluster(v)
    ensures NamesCluster(v)
  {
    hide Run, StartsAt, NamesCluster;
    var i :| 0 <= i < |v| && "{{" <= v[i..] && StartsAt(v[i..], 2 + Run(v[i + 2..], IsSpace), CLUSTER);
    MentionAt(v, i, Run(v[i + 2..], IsSpace));
  }

  lemma NamedMentions(v: string)
    requires NamesCluster(v)
    ensures MentionsCluster(v)
  {
    hide MentionsCluster, All;
    var a, w, b :| All(w, IsSpace) && v == a + ("{{" + (w + ("cluster." + b)));
    MentionedAt(v, a, w, b);
  }

  lemma MentionAt(v: string, i: nat, n: nat)
    requires i < |v| && "{{" <= v[i..] && n == Run(v[i + 2..], IsSpace) && StartsAt(v[i..], 2 + n, CLUSTER)
    ensures NamesCluster(v)
  {
    hide Run, All;
    RunAll(v, i + 2, IsSpace);
    var t := v[i..];
    assert t[2..] == v[i + 2..] && t[..2] == "{{";
    var w, b := v[i + 2..i + 2 + n], v[i + 10 + n..];
    assert t[2..2 + n] == w && t[2 + n..2 + n + 8] == "cluster." && t[2 + n + 8..] == b;
    FourParts(t, n, w, b);
    assert v == v[..i] + t;
  }

  lemma FourParts(t: string, n: nat, w: string, b: string)
    requires 10 + n <= |t| && t[..2] == "{{" && t[2..2 + n] == w && t[2 + n..10 + n] == "cluster." && t[10 + n..] == b
    ensures t == "{{" + (w + ("cluster." + b))
  {
    assert t[2 + n..] == "cluster." + b;
    assert t[2..] == w + t[2 + n..];
    assert t == "{{" + t[2..];
  }

  lemma MentionedAt(v: string, a: string, w: string, b: string)
    requires All(w, IsSpace) && v == a + ("{{" + (w + ("cluster." + b)))
    ensures MentionsCluster(v)
  {
    hide Run, All;
    var s := "{{" + (w + ("cluster." + b));
    assert v[|a|..] == s && s[2..] == v[|a| + 2..];
    SpacesEnd(s, w, b);
    assert StartsAt(s, 2 + |w|, CLUSTER);
    assert "{{" <= v[|a|..];
  }

  /** What an input starts from: its entry for the node count, else its default, else off for a flag and nothing otherwise. */
  ghost predicate StartsFrom(input: Input, nodes: Option<string>, raw: string) {
    if nodes.Some? && nodes.value in input.byNodes then raw == input.byNodes[nodes.value]
    else if input.default.Some? then raw == input.default.value
    else raw == if input.kind == FlagInput then "false" else ""
  }

  /** The text someone typed for an input, when it is not blank. */
  ghost predicate Typed(input: Input, values: map<string, string>, text: string) {
    input.name in values && text == Trim(values[input.name]) && text != ""
  }

  ghost predicate NothingTyped(input: Input, values: map<string, string>) {
    input.name in values ==> Trim(values[input.name]) == ""
  }

  /** What a value gives: itself, or for a flag its addition exactly when it is on. */
  ghost function Given(input: Input, value: string): string {
    if input.kind != FlagInput then value
    else if value in {"true", "on", "1", "yes"} && input.adds.Some? then input.adds.value
    else ""
  }

  /** A typed value is used trimmed, whatever the input's default, with cluster tokens filled in. */
  lemma TypedIsUsed(input: Input, values: map<string, string>, text: string, cv: ClusterValues, nodes: Option<string>)
    requires Typed(input, values, text)
    ensures TextOf(input, values, cv, nodes) == ResolveClusterTokens(Given(input, text), cv)
    ensures !Lacking(input, values, cv, nodes)
  {
    hide ResolveClusterTokens, InputDefault, Trim;
  }

  /**
   * With nothing typed, an input takes what it starts from with the cluster's
   * values filled in, twice; but nothing when it is optional and still names a
   * cluster default, and it lacks a value when it is required and that is blank.
   */
  lemma DefaultIsUsed(input: Input, values: map<string, string>, raw: string, cv: ClusterValues, nodes: Option<string>)
    requires NothingTyped(input, values) && StartsFrom(input, nodes, raw)
    ensures var v := ResolveClusterTokens(raw, cv);
            && TextOf(input, values, cv, nodes)
               == (if !input.required && NamesCluster(v) then "" else ResolveClusterTokens(Given(input, v), cv))
            && (Lacking(input, values, cv, nodes) <==> input.required && input.kind != FlagInput && v == "")
  {
    hide ResolveClusterTokens, Trim, NamesCluster, MentionsCluster;
    MentionsIs(ResolveClusterTokens(raw, cv));
    NothingResolved(cv);
  }

  lemma NothingResolved(cv: ClusterValues)
    ensures ResolveClusterTokens("", cv) == ""
  {
  }

  /** A declared token of the rendered script: the last input of its name that does not lack a value gives its text. */
  lemma DeclaredTokenText(name: string, inputs: seq<Input>, i: nat, values: map<string, string>, cv: ClusterValues, opts: Options)
    requires Resolved(inputs, values, cv, opts).Ok? && |name| > 0
    requires i < |inputs| && inputs[i].name == name && !Lacking(inputs[i], values, cv, opts.nodes)
    requires forall j | i < j < |inputs| :: inputs[j].name != name || Lacking(inputs[j], values, cv, opts.nodes)
    ensures InputText(WithBuiltins(Resolved(inputs, values, cv, opts).value, opts.builtins))("{{" + name + "}}")
         == TextOf(inputs[i], values, cv, opts.nodes)
  {
    hide Resolved, TextOf, Lacking, WithBuiltins;
    var t := "{{" + name + "}}";
    assert NameOf(t) == name by { assert t[2..|t| - 2] == name; }
    DeclaredTokensFilled(t, inputs, values, cv, opts);
    var s := Supplier(inputs, name, values, cv, opts.nodes);
    assert Named(inputs[i], name, values, cv, opts.nodes);
    assert s == Some(i);
  }

  /** Strict rendering stops at the first input that lacks its required value, and names it. */
  lemma {:induction false} FirstLackingIsNamed(inputs: seq<Input>, k: nat, values: map<string, string>, cv: ClusterValues, opts: Options)
    requires opts.strict && k < |inputs| && Lacking(inputs[k], values, cv, opts.nodes)
    requires forall j | 0 <= j < k :: !Lacking(inputs[j], values, cv, opts.nodes)
    ensures Resolved(inputs, values, cv, opts) == Err(RequiredInput(inputs[k].name))
    decreases |inputs|
  {
    hide ValueOf, TextOf, ResolveClusterTokens;
    var front := inputs[..|inputs| - 1];
    if k < |front| {
      FirstLackingIsNamed(front, k, values, cv, opts);
    } else {
      ResolvedNames(front, values, cv, opts);
    }
  }

  /** It then stops where a cluster token is left without a value, and names all such. */
  lemma UnsetAreNamed(body: string, inputs: seq<Input>, values: map<string, string>, cv: ClusterValues, opts: Options)
    requires opts.strict && Resolved(inputs, values, cv, opts).Ok? && Render(body, inputs, values, cv, opts).Err?
    ensures var out := Render(body, inputs, values, cv, opts.(strict := false));
            && out.Ok? && Render(body, inputs, values, cv, opts).error.ClusterUnset?
            && forall n :: n in Render(body, inputs, values, cv, opts).error.names <==>
                 exists t :: t in Found(out.value, ClusterToken) && IsUnset(t, cv) && ClusterName(t) == n
  {
    hide Resolved, ResolveClusterTokens, WithBuiltins, Replace, Found, IsUnset, ClusterName;
    SameResolved(inputs, values, cv, opts);
  }
}
