/**
 * The reasoning-effort editor: a model's stored map as editable rows, the rows
 * back as a map, and whether anything changed.
 */
module Reasoning {
  import opened Text
  import opened Wrappers
  import opened Json
  import opened CanonicalText

  datatype Level = LevelNone | Low | Medium | High
  datatype Mode = Passthrough | Mapped | Unsupported

  /** What a level becomes: fields merged into the request, or another level. */
  datatype Action = Send(fields: seq<Field<Json>>) | Use(level: Level)

  /** A model's map, with what older gateways leave out filled in. */
  datatype Stored = Stored(mode: Mode, defaultLevel: Option<Level>, levels: map<Level, Action>)

  datatype Preset = Default | Effort | ThinkingOff | ThinkingOn | SameAs | Custom
  datatype LevelDraft = LevelDraft(preset: Preset, effort: string, use: Level, json: string)
  datatype Rows = Rows(none: LevelDraft, low: LevelDraft, medium: LevelDraft, high: LevelDraft) {
    function At(level: Level): LevelDraft {
      match level
      case LevelNone => none
      case Low => low
      case Medium => medium
      case High => high
    }
  }
  datatype Draft = Draft(mode: Mode, defaultLevel: Option<Level>, rows: Rows)

  const LEVELS: seq<Level> := [LevelNone, Low, Medium, High]
  const RESERVED: seq<string> := ["model", "messages", "prompt", "input", "stream", "stream_options", "tools", "tool_choice", "n"]
  const MAX_SEND_BYTES: nat := 4096

  ghost predicate ActionWellFormed(a: Action, show: NumberPrinter) {
    a.Send? ==> WellFormed(JObj(a.fields), show)
  }

  /** What a row may build: numbers past the range may occur. */
  ghost predicate ActionParsed(a: Action, show: NumberPrinter) {
    a.Send? ==> Parsed(JObj(a.fields), show)
  }

  ghost predicate ActionInRange(a: Action) { a.Send? ==> InRange(JObj(a.fields)) }

  /** An action as it is sent to be stored: a number past the range prints as null. */
  function PrintedAction(a: Action): Action {
    if a.Send? then Send(FieldsAsPrinted(a.fields)) else a
  }

  ghost predicate StoredParsed(s: Stored, show: NumberPrinter) {
    forall l | l in s.levels :: ActionParsed(s.levels[l], show)
  }

  ghost predicate StoredInRange(s: Stored) { forall l | l in s.levels :: ActionInRange(s.levels[l]) }

  function PrintedLevels(levels: map<Level, Action>): map<Level, Action> {
    map l | l in levels :: PrintedAction(levels[l])
  }

  function PrintedStored(s: Stored): Stored { s.(levels := PrintedLevels(s.levels)) }

  ghost predicate StoredWellFormed(s: Stored, show: NumberPrinter) {
    forall l | l in s.levels :: ActionWellFormed(s.levels[l], show)
  }

  function LevelName(l: Level): string {
    match l case LevelNone => "none" case Low => "low" case Medium => "medium" case High => "high"
  }

  // -------------------------------------------------------------------------
  // One level
  // -------------------------------------------------------------------------

  function Neighbour(l: Level): Level {
    match l case LevelNone => Low case Low => Medium case Medium => High case High => Medium
  }

  function EffortFields(value: string): seq<Field<Json>> { [Field("reasoning_effort", JStr(value))] }

  function ThinkingFields(on: bool): seq<Field<Json>> {
    [Field("chat_template_kwargs", JObj([Field("enable_thinking", JBool(on))]))]
  }

  predicate IsEffort(fields: seq<Field<Json>>) {
    |fields| == 1 && fields[0].key == "reasoning_effort" && fields[0].value.JStr?
  }

  predicate IsThinking(fields: seq<Field<Json>>) {
    && |fields| == 1 && fields[0].key == "chat_template_kwargs" && fields[0].value.JObj?
    && var kwargs := fields[0].value.fields;
       |kwargs| == 1 && kwargs[0].key == "enable_thinking" && kwargs[0].value.JBool?
  }

  /** A stored action as a row: the preset it matches exactly, or its JSON. */
  function LevelDraftOf(level: Level, action: Option<Action>): LevelDraft {
    var draft := LevelDraft(Effort, LevelName(level), Neighbour(level), "{}");
    match action
    case None => draft
    case Some(Use(other)) => draft.(preset := SameAs, use := other)
    case Some(Send(fields)) =>
      var json := Stringify(JObj(fields), "  ", "");
      if fields == [] then draft.(preset := Default, json := json)
      else if IsEffort(fields) then draft.(preset := Effort, effort := fields[0].value.s, json := json)
      else if IsThinking(fields) then
        draft.(preset := if fields[0].value.fields[0].value.b then ThinkingOn else ThinkingOff, json := json)
      else draft.(preset := Custom, json := json)
  }

  datatype BuildError = BlankEffort | NotJson | NotObject

  /** A row as the action to store, or why it can't be one. */
  function LevelAction(draft: LevelDraft, show: NumberPrinter): Result<Action, BuildError> {
    match draft.preset
    case Default => Ok(Send([]))
    case Effort =>
      var value := Trim(draft.effort);
      if value == "" then Err(BlankEffort) else Ok(Send(EffortFields(value)))
    case ThinkingOff => Ok(Send(ThinkingFields(false)))
    case ThinkingOn => Ok(Send(ThinkingFields(true)))
    case SameAs => Ok(Use(draft.use))
    case Custom =>
      match Parse(draft.json, show) {
        case None => Err(NotJson)
        case Some(v) => if v.JObj? then Ok(Send(v.fields)) else Err(NotObject)
      }
  }

  /** What each preset builds, and the only ways a row does not build. */
  lemma PresetsBuild(d: LevelDraft, show: NumberPrinter)
    ensures d.preset == Default ==> LevelAction(d, show) == Ok(Send([]))
    ensures d.preset == Effort && Trim(d.effort) != "" ==>
              LevelAction(d, show) == Ok(Send([Field("reasoning_effort", JStr(Trim(d.effort)))]))
    ensures d.preset == ThinkingOff ==>
              LevelAction(d, show) == Ok(Send([Field("chat_template_kwargs", JObj([Field("enable_thinking", JBool(false))]))]))
    ensures d.preset == ThinkingOn ==>
              LevelAction(d, show) == Ok(Send([Field("chat_template_kwargs", JObj([Field("enable_thinking", JBool(true))]))]))
    ensures d.preset == SameAs ==> LevelAction(d, show) == Ok(Use(d.use))
    ensures d.preset == Custom && Parse(d.json, show).Some? && Parse(d.json, show).value.JObj? ==>
              LevelAction(d, show) == Ok(Send(Parse(d.json, show).value.fields))
    ensures LevelAction(d, show) == Err(BlankEffort) <==> d.preset == Effort && Trim(d.effort) == ""
    ensures LevelAction(d, show) == Err(NotJson) <==> d.preset == Custom && Parse(d.json, show).None?
    ensures LevelAction(d, show) == Err(NotObject) <==> d.preset == Custom && Parse(d.json, show).Some? && !Parse(d.json, show).value.JObj?
  {
    hide Trim, Parse;
  }

  /** An effort string that survives trimming. */
  predicate EffortTrimmed(a: Action) {
    a.Send? && IsEffort(a.fields) ==> a.fields[0].value.s != "" && Trim(a.fields[0].value.s) == a.fields[0].value.s
  }

  /** A stored action comes back from its row exactly when its effort is trimmed. */
  lemma LevelRoundTrip(level: Level, a: Action, show: NumberPrinter)
    requires ActionWellFormed(a, show)
    ensures LevelAction(LevelDraftOf(level, Some(a)), show) == Ok(a) <==> EffortTrimmed(a)
  {
    hide Trim, Stringify, Parse, WellFormed;
    if a.Send? && a.fields != [] {
      if IsEffort(a.fields) {
        var s := a.fields[0].value.s;
        assert a.fields == [Field("reasoning_effort", JStr(s))];
      } else if IsThinking(a.fields) {
        var kwargs := a.fields[0].value.fields;
        assert kwargs == [Field("enable_thinking", JBool(kwargs[0].value.b))];
        assert a.fields == [Field("chat_template_kwargs", JObj(kwargs))];
      } else {
        ParseStringify(JObj(a.fields), "  ", show);
      }
    }
  }

  lemma PresetsWellFormed(value: string, show: NumberPrinter)
    ensures WellFormed(JObj([]), show) && WellFormed(JObj(EffortFields(value)), show)
    ensures WellFormed(JObj(ThinkingFields(true)), show) && WellFormed(JObj(ThinkingFields(false)), show)
  {
    forall on ensures WellFormed(JObj(ThinkingFields(on)), show) {
      assert WellFormed(JObj([Field("enable_thinking", JBool(on))]), show);
    }
  }

  lemma WellFormedAction(a: Action, show: NumberPrinter)
    ensures ActionWellFormed(a, show) <==> ActionParsed(a, show) && ActionInRange(a)
  {
    if a.Send? { WellFormedIsInRange(JObj(a.fields), show); }
  }

  /**
   * Whatever is typed, a row builds an object with no repeated keys; it is one
   * that can be stored and read back exactly when no typed number is past the range.
   */
  lemma BuildWellFormed(draft: LevelDraft, show: NumberPrinter)
    requires NumberLaw(show)
    ensures var b := LevelAction(draft, show);
            b.Ok? ==> ActionParsed(b.value, show) && (ActionWellFormed(b.value, show) <==> ActionInRange(b.value))
    ensures var b := LevelAction(draft, show);
            b.Ok? && b.value.Send? ==>
              (Parse(Stringify(JObj(b.value.fields), "  ", ""), show) == Some(JObj(b.value.fields)) <==> ActionInRange(b.value))
  {
    hide Trim, ParseValue, Parsed, WellFormed, InRange, EffortFields, ThinkingFields, SkipSpace, Stringify;
    PresetsParsed(Trim(draft.effort), show);
    if draft.preset.Custom? && ParseValue(draft.json, show).Some? {
      ParseParsed(draft.json, show);
    }
    var b := LevelAction(draft, show);
    if b.Ok? {
      WellFormedAction(b.value, show);
      if b.value.Send? { ReadsBack(JObj(b.value.fields), "  ", show); }
    }
  }

  lemma PresetsParsed(value: string, show: NumberPrinter)
    ensures Parsed(JObj([]), show) && Parsed(JObj(EffortFields(value)), show)
    ensures Parsed(JObj(ThinkingFields(true)), show) && Parsed(JObj(ThinkingFields(false)), show)
  {
    hide WellFormed, Parsed, InRange;
    PresetsWellFormed(value, show);
    WellFormedIsInRange(JObj([]), show);
    WellFormedIsInRange(JObj(EffortFields(value)), show);
    WellFormedIsInRange(JObj(ThinkingFields(true)), show);
    WellFormedIsInRange(JObj(ThinkingFields(false)), show);
  }

  // -------------------------------------------------------------------------
  // Which maps are accepted
  // -------------------------------------------------------------------------

  datatype Problem =
    | ChatOnly
    | SameAsItself(level: Level)
    | TargetUnset(level: Level, use: Level)
    | TargetIsAlias(level: Level, use: Level)
    | Reserved(level: Level, field: string)
    | TooLong(level: Level, bytes: nat)
    | Missing(levels: seq<Level>)

  function Utf8Bytes(s: string): nat {
    if s == "" then 0
    else
      var c := s[0] as int;
      (if c < 0x80 then 1 else if c < 0x800 then 2 else if c < 0x10000 then 3 else 4) + Utf8Bytes(s[1..])
  }

  predicate Has(fields: seq<Field<Json>>, key: string) {
    exists i | 0 <= i < |fields| :: fields[i].key == key
  }

  function FirstReserved(fields: seq<Field<Json>>, names: seq<string>): (r: Option<string>)
    ensures r.None? <==> forall n | n in names :: !Has(fields, n)
    ensures r.Some? ==> r.value in names && Has(fields, r.value)
  {
    if names == [] then None
    else if Has(fields, names[0]) then Some(names[0])
    else
      assert names == [names[0]] + names[1..];
      FirstReserved(fields, names[1..])
  }

  function LevelProblem(r: Stored, level: Level): Option<Problem> {
    if level !in r.levels then None
    else
      match r.levels[level]
      case Use(target) =>
        if target == level then Some(SameAsItself(level))
        else if r.mode != Mapped then None
        else if target !in r.levels then Some(TargetUnset(level, target))
        else if r.levels[target].Use? then Some(TargetIsAlias(level, target))
        else None
      case Send(fields) =>
        match FirstReserved(fields, RESERVED) {
          case Some(field) => Some(Reserved(level, field))
          case None =>
            var bytes := Utf8Bytes(Stringify(JObj(fields), "", ""));
            if bytes > MAX_SEND_BYTES then Some(TooLong(level, bytes)) else None
        }
  }

  function FirstProblem(r: Stored, levels: seq<Level>): (p: Option<Problem>)
    ensures p.None? <==> forall l | l in levels :: LevelProblem(r, l).None?
  {
    if levels == [] then None
    else
      assert levels == [levels[0]] + levels[1..];
      if LevelProblem(r, levels[0]).Some? then LevelProblem(r, levels[0]) else FirstProblem(r, levels[1..])
  }

  function MissingLevels(r: Stored, levels: seq<Level>): (m: seq<Level>)
    ensures m == [] <==> forall l | l in levels :: l in r.levels
  {
    if levels == [] then []
    else
      assert levels == [levels[0]] + levels[1..];
      (if levels[0] in r.levels then [] else [levels[0]]) + MissingLevels(r, levels[1..])
  }

  /** Why the gateway would refuse a map, or None. */
  function ReasoningProblem(r: Stored, modelType: Option<string>): Option<Problem> {
    if r.mode != Passthrough && modelType.Some? && modelType.value != "chat" then Some(ChatOnly)
    else if FirstProblem(r, LEVELS).Some? then FirstProblem(r, LEVELS)
    else if r.mode == Mapped && MissingLevels(r, LEVELS) != [] then Some(Missing(MissingLevels(r, LEVELS)))
    else None
  }

  /** Every level sends something itself, or names a different level that does. */
  ghost predicate OneHop(r: Stored) {
    forall l: Level ::
      l in r.levels &&
      (r.levels[l].Send? ||
       (r.levels[l].level != l && r.levels[l].level in r.levels && r.levels[r.levels[l].level].Send?))
  }

  /** A level may send these: nothing reserved, and not too long. */
  ghost predicate FieldsAllowed(fields: seq<Field<Json>>) {
    && (forall i | 0 <= i < |fields| ::
          fields[i].key !in {"model", "messages", "prompt", "input", "stream", "stream_options", "tools", "tool_choice", "n"})
    && |Utf8(Stringify(JObj(fields), "", ""))| <= 4096
  }

  /** A text's bytes, by section 3 of RFC 3629. */
  function Utf8(s: string): seq<nat> {
    if s == "" then [] else Octets(s[0] as int) + Utf8(s[1..])
  }

  function Octets(c: nat): seq<nat> {
    if c < 0x80 then [c]
    else if c < 0x800 then [0xC0 + c / 0x40, 0x80 + c % 0x40]
    else if c < 0x10000 then [0xE0 + c / 0x1000, 0x80 + c / 0x40 % 0x40, 0x80 + c % 0x40]
    else [0xF0 + c / 0x40000, 0x80 + c / 0x1000 % 0x40, 0x80 + c / 0x40 % 0x40, 0x80 + c % 0x40]
  }

  lemma {:induction false} BytesCounted(s: string)
    ensures Utf8Bytes(s) == |Utf8(s)|
  {
    if s == "" {
    } else {
      BytesCounted(s[1..]);
    }
  }

  lemma ReservedAre()
    ensures forall k :: k in RESERVED <==>
              k in {"model", "messages", "prompt", "input", "stream", "stream_options", "tools", "tool_choice", "n"}
  {
  }

  lemma Allowed(fields: seq<Field<Json>>)
    ensures FieldsAllowed(fields)
       <==> FirstReserved(fields, RESERVED).None? && Utf8Bytes(Stringify(JObj(fields), "", "")) <= MAX_SEND_BYTES
  {
    hide Stringify, Utf8, Utf8Bytes, FirstReserved;
    BytesCounted(Stringify(JObj(fields), "", ""));
    ReservedAre();
    forall i | 0 <= i < |fields| ensures Has(fields, fields[i].key) {
    }
  }

  ghost predicate SendsAllowed(r: Stored) {
    forall l | l in r.levels && r.levels[l].Send? :: FieldsAllowed(r.levels[l].fields)
  }

  lemma AllLevels(l: Level)
    ensures l in LEVELS
  {
    match l
    case LevelNone => assert LEVELS[0] == l;
    case Low => assert LEVELS[1] == l;
    case Medium => assert LEVELS[2] == l;
    case High => assert LEVELS[3] == l;
  }

  /** One level of a translated map is fine: absent, or allowed to send, or one hop away. */
  ghost predicate LevelFine(r: Stored, l: Level) {
    l in r.levels ==>
      match r.levels[l]
      case Send(fields) => FieldsAllowed(fields)
      case Use(target) => target != l && target in r.levels && r.levels[target].Send?
  }

  lemma LevelProblemFine(r: Stored, l: Level)
    requires r.mode == Mapped
    ensures LevelProblem(r, l).None? <==> LevelFine(r, l)
  {
    hide Utf8Bytes, Stringify, FirstReserved, FieldsAllowed;
    if l in r.levels && r.levels[l].Send? { Allowed(r.levels[l].fields); }
  }

  /** A translated map is accepted exactly when every level sends within one hop. */
  lemma MappedAccepted(r: Stored, modelType: Option<string>)
    requires r.mode == Mapped
    ensures ReasoningProblem(r, modelType).None?
       <==> (modelType.Some? ==> modelType.value == "chat") && SendsAllowed(r) && OneHop(r)
  {
    hide LevelProblem, FieldsAllowed, FirstProblem, MissingLevels;
    forall l: Level ensures l in LEVELS && (LevelProblem(r, l).None? <==> LevelFine(r, l)) {
      AllLevels(l);
      LevelProblemFine(r, l);
    }
    assert (forall l | l in LEVELS :: l in r.levels && LevelProblem(r, l).None?) <==> (forall l: Level :: l in r.levels && LevelFine(r, l));
    if SendsAllowed(r) && OneHop(r) {
      forall l: Level ensures l in r.levels && LevelFine(r, l) {
        assert l in r.levels;
      }
    }
    if forall l: Level :: l in r.levels && LevelFine(r, l) {
      forall l: Level ensures l in r.levels && (r.levels[l].Send? ==> FieldsAllowed(r.levels[l].fields)) {
        assert LevelFine(r, l);
      }
      assert OneHop(r);
    }
  }

  /** In the other modes a map is accepted exactly when its sends are allowed and no level names itself. */
  lemma OtherModesAccepted(r: Stored, modelType: Option<string>)
    requires r.mode != Mapped
    ensures ReasoningProblem(r, modelType).None?
       <==> && (r.mode == Unsupported && modelType.Some? ==> modelType.value == "chat")
            && SendsAllowed(r) && forall l | l in r.levels :: r.levels[l] != Use(l)
  {
    hide FieldsAllowed, FirstProblem, FirstReserved, Utf8Bytes, Stringify;
    forall l: Level
      ensures l in LEVELS
      ensures LevelProblem(r, l).None? <==>
                (l in r.levels ==> r.levels[l] != Use(l) && (r.levels[l].Send? ==> FieldsAllowed(r.levels[l].fields)))
    {
      AllLevels(l);
      if l in r.levels && r.levels[l].Send? { Allowed(r.levels[l].fields); }
    }
  }

  /** What a problem says of a level is so. */
  ghost predicate TrueOf(p: Problem, r: Stored, modelType: Option<string>) {
    match p
    case ChatOnly => r.mode != Passthrough && modelType.Some? && modelType.value != "chat"
    case SameAsItself(l) => l in r.levels && r.levels[l] == Use(l)
    case TargetUnset(l, t) => r.mode == Mapped && l in r.levels && r.levels[l] == Use(t) && t != l && t !in r.levels
    case TargetIsAlias(l, t) => r.mode == Mapped && l in r.levels && r.levels[l] == Use(t) && t != l && t in r.levels && r.levels[t].Use?
    case Reserved(l, f) => l in r.levels && r.levels[l].Send? && f in RESERVED && Has(r.levels[l].fields, f)
    case TooLong(l, n) => l in r.levels && r.levels[l].Send? && n == |Utf8(Stringify(JObj(r.levels[l].fields), "", ""))| > 4096
    case Missing(ls) => r.mode == Mapped && ls != [] && forall l: Level :: l in ls <==> l !in r.levels
  }

  lemma LevelProblemIsTrue(r: Stored, l: Level, modelType: Option<string>)
    ensures LevelProblem(r, l).Some? ==> TrueOf(LevelProblem(r, l).value, r, modelType)
  {
    hide Stringify, Utf8, Utf8Bytes, FirstReserved;
    if l in r.levels && r.levels[l].Send? { BytesCounted(Stringify(JObj(r.levels[l].fields), "", "")); }
  }

  lemma {:induction false} FirstProblemAt(r: Stored, levels: seq<Level>, i: nat)
    requires i < |levels| && LevelProblem(r, levels[i]).Some?
    requires forall j | 0 <= j < i :: LevelProblem(r, levels[j]).None?
    ensures FirstProblem(r, levels) == LevelProblem(r, levels[i])
  {
    hide LevelProblem;
    if i > 0 { FirstProblemAt(r, levels[1..], i - 1); }
  }

  lemma {:induction false} FirstProblemFrom(r: Stored, levels: seq<Level>) returns (l: Level)
    requires FirstProblem(r, levels).Some?
    ensures l in levels && FirstProblem(r, levels) == LevelProblem(r, l)
  {
    hide LevelProblem;
    assert levels == [levels[0]] + levels[1..];
    if LevelProblem(r, levels[0]).Some? {
      l := levels[0];
    } else {
      l := FirstProblemFrom(r, levels[1..]);
    }
  }

  lemma {:induction false} MissingAre(r: Stored, levels: seq<Level>)
    ensures forall l :: l in MissingLevels(r, levels) <==> l in levels && l !in r.levels
  {
    if levels == [] {
    } else {
      assert levels == [levels[0]] + levels[1..];
      MissingAre(r, levels[1..]);
    }
  }

  /** The problem reported is one the map has. */
  lemma ProblemIsTrue(r: Stored, modelType: Option<string>)
    ensures var p := ReasoningProblem(r, modelType); p.Some? ==> TrueOf(p.value, r, modelType)
  {
    hide LevelProblem, FirstProblem, MissingLevels;
    if FirstProblem(r, LEVELS).Some? {
      var l := FirstProblemFrom(r, LEVELS);
      LevelProblemIsTrue(r, l, modelType);
    }
    MissingAre(r, LEVELS);
    forall l: Level ensures l in LEVELS { AllLevels(l); }
  }

  // -------------------------------------------------------------------------
  // The whole section
  // -------------------------------------------------------------------------

  function StoredAt(s: Stored, l: Level): Option<Action> {
    if l in s.levels then Some(s.levels[l]) else None
  }

  function DraftOf(s: Stored): Draft {
    Draft(s.mode, s.defaultLevel,
          Rows(LevelDraftOf(LevelNone, StoredAt(s, LevelNone)), LevelDraftOf(Low, StoredAt(s, Low)),
               LevelDraftOf(Medium, StoredAt(s, Medium)), LevelDraftOf(High, StoredAt(s, High))))
  }

  function ActionJson(a: Action): (r: Json)
    ensures r.JObj?
  {
    match a
    case Send(fields) => JObj([Field("send", JObj(fields))])
    case Use(l) => JObj([Field("use", JStr(LevelName(l)))])
  }

  function ErrorText(e: BuildError): string {
    match e case BlankEffort => "blank effort" case NotJson => "not JSON" case NotObject => "not an object"
  }

  function BuildJson(b: Result<Action, BuildError>): (r: Json)
    ensures r.JObj?
  {
    match b
    case Ok(a) => JObj([Field("ok", JBool(true)), Field("action", ActionJson(a))])
    case Err(e) => JObj([Field("ok", JBool(false)), Field("error", JStr(ErrorText(e)))])
  }

  function ModeName(m: Mode): string {
    match m case Passthrough => "passthrough" case Mapped => "mapped" case Unsupported => "unsupported"
  }

  function LevelFields(levels: map<Level, Action>, order: seq<Level>): seq<Field<Json>> {
    if order == [] then []
    else (if order[0] in levels then [Field(LevelName(order[0]), ActionJson(levels[order[0]]))] else [])
         + LevelFields(levels, order[1..])
  }

  function StoredJson(s: Stored): (r: Json)
    ensures r.JObj?
  {
    JObj([Field("mode", JStr(ModeName(s.mode)))]
         + (match s.defaultLevel case None => [] case Some(l) => [Field("default_level", JStr(LevelName(l)))])
         + (if s.levels == map[] then [] else [Field("levels", JObj(LevelFields(s.levels, LEVELS)))]))
  }

  /** A map in the shape it is saved in: its mode, its default level where it has one, and its levels in order where it has any. */
  lemma SavedShape(s: Stored)
    ensures var mode := match s.mode case Passthrough => "passthrough" case Mapped => "mapped" case Unsupported => "unsupported";
            StoredJson(s).fields[..1] == [Field("mode", JStr(mode))]
    ensures s.defaultLevel.None? && s.levels == map[] ==> |StoredJson(s).fields| == 1
    ensures s.defaultLevel.Some? ==>
              && |StoredJson(s).fields| > 1
              && StoredJson(s).fields[1] == Field("default_level", JStr(LevelName(s.defaultLevel.value)))
    ensures s.levels != map[] ==>
              var f := StoredJson(s).fields;
              f[|f| - 1] == Field("levels", JObj(LevelFields(s.levels, [LevelNone, Low, Medium, High])))
  {
    hide LevelFields;
  }

  /** A level in that shape: what it sends, or the name of the level it uses. */
  lemma LevelShape(levels: map<Level, Action>, l: Level)
    requires l in levels
    ensures levels[l].Send? ==> LevelFields(levels, [l]) == [Field(LevelName(l), JObj([Field("send", JObj(levels[l].fields))]))]
    ensures levels[l].Use? ==> LevelFields(levels, [l]) == [Field(LevelName(l), JObj([Field("use", JStr(LevelName(levels[l].level)))]))]
  {
    assert [l][1..] == [];
  }

  /** Whether some row builds something else than the stored level's row does. */
  predicate Touched(draft: Draft, s: Stored, show: NumberPrinter) {
    exists l | l in LEVELS :: Canonical(BuildJson(LevelAction(draft.rows.At(l), show)))
                           != Canonical(BuildJson(LevelAction(DraftOf(s).rows.At(l), show)))
  }

  datatype SaveError = BadRow(level: Level, error: BuildError) | Refused(problem: Problem)

  /** Every row's action, or the first row that has none. */
  function BuildRows(rows: Rows, order: seq<Level>, done: map<Level, Action>, show: NumberPrinter): Result<map<Level, Action>, SaveError> {
    if order == [] then Ok(done)
    else
      match LevelAction(rows.At(order[0]), show)
      case Err(e) => Err(BadRow(order[0], e))
      case Ok(a) => BuildRows(rows, order[1..], done[order[0] := a], show)
  }

  function Checked(r: Stored, modelType: Option<string>): Result<Stored, SaveError> {
    match ReasoningProblem(r, modelType)
    case Some(p) => Err(Refused(p))
    case None => Ok(r)
  }

  /** The section's state as the map to save, or why it can't be saved. */
  function FromDraft(draft: Draft, s: Stored, modelType: Option<string>, show: NumberPrinter): Result<Stored, SaveError> {
    if draft.mode == Mapped || Touched(draft, s, show) then
      match BuildRows(draft.rows, LEVELS, map[], show) {
        case Err(e) => Err(e)
        case Ok(levels) => Checked(Stored(draft.mode, draft.defaultLevel, levels), modelType)
      }
    else Checked(Stored(draft.mode, draft.defaultLevel, s.levels), modelType)
  }

  /** The same, filling the levels one row at a time. */
  method ReasoningFromDraft(draft: Draft, s: Stored, modelType: Option<string>, show: NumberPrinter) returns (r: Result<Stored, SaveError>)
    ensures r == FromDraft(draft, s, modelType, show)
  {
    hide LevelAction, Checked, DraftOf;
    var touched := Touched(draft, s, show);
    var levels := s.levels;
    if draft.mode == Mapped || touched {
      levels := map[];
      for i := 0 to |LEVELS|
        invariant BuildRows(draft.rows, LEVELS[i..], levels, show) == BuildRows(draft.rows, LEVELS, map[], show)
      {
        var built := LevelAction(draft.rows.At(LEVELS[i]), show);
        if built.Err? { return Err(BadRow(LEVELS[i], built.error)); }
        assert LEVELS[i..][1..] == LEVELS[i + 1..];
        levels := levels[LEVELS[i] := built.value];
      }
    }
    r := Checked(Stored(draft.mode, draft.defaultLevel, levels), modelType);
  }

  /** Whether the level rows are written: when translating, or when one was changed. */
  ghost predicate WritesRows(draft: Draft, s: Stored, show: NumberPrinter) { draft.mode == Mapped || Touched(draft, s, show) }

  /** The levels a section saves: what each row builds, or the stored ones as they were. */
  ghost predicate SavedLevels(levels: map<Level, Action>, draft: Draft, s: Stored, show: NumberPrinter) {
    if WritesRows(draft, s, show) then
      forall l: Level :: l in levels && LevelAction(draft.rows.At(l), show) == Ok(levels[l])
    else levels == s.levels
  }

  lemma SameLevels(a: map<Level, Action>, b: map<Level, Action>, draft: Draft, s: Stored, show: NumberPrinter)
    requires SavedLevels(a, draft, s, show) && SavedLevels(b, draft, s, show)
    ensures a == b
  {
    hide LevelAction, Touched;
    if WritesRows(draft, s, show) {
      assert a.Keys == b.Keys;
      forall l | l in a ensures a[l] == b[l] { assert LevelAction(draft.rows.At(l), show).value == a[l]; }
    }
  }

  /** Where the rows written all build, the section saves its own mode and default level with those levels, or is refused for them. */
  lemma SavesOrRefuses(draft: Draft, s: Stored, levels: map<Level, Action>, modelType: Option<string>, show: NumberPrinter)
    requires SavedLevels(levels, draft, s, show)
    ensures var m := Stored(draft.mode, draft.defaultLevel, levels);
            FromDraft(draft, s, modelType, show)
              == match ReasoningProblem(m, modelType) case None => Ok(m) case Some(p) => Err(Refused(p))
  {
    hide LevelAction, ReasoningProblem, Touched, BuildRows;
    if WritesRows(draft, s, show) {
      BuildRowsBuilds(draft.rows, LEVELS, map[], show);
      var built := BuildRows(draft.rows, LEVELS, map[], show);
      forall l: Level ensures l in LEVELS { AllLevels(l); }
      SameLevels(levels, built.value, draft, s, show);
    }
  }

  /**
   * A section saves its own mode and default level with those levels, exactly
   * when the rows it writes all build and the map is accepted.
   */
  lemma SavesTheDraft(draft: Draft, s: Stored, modelType: Option<string>, show: NumberPrinter)
    ensures var r := FromDraft(draft, s, modelType, show);
            r.Ok? ==> && r.value.mode == draft.mode && r.value.defaultLevel == draft.defaultLevel
                      && SavedLevels(r.value.levels, draft, s, show) && ReasoningProblem(r.value, modelType).None?
    ensures FromDraft(draft, s, modelType, show).Ok?
       <==> exists levels :: SavedLevels(levels, draft, s, show)
                             && ReasoningProblem(Stored(draft.mode, draft.defaultLevel, levels), modelType).None?
  {
    hide LevelAction, ReasoningProblem, Touched, BuildRows;
    if levels :| SavedLevels(levels, draft, s, show) {
      SavesOrRefuses(draft, s, levels, modelType, show);
      forall more | SavedLevels(more, draft, s, show) ensures more == levels { SameLevels(more, levels, draft, s, show); }
    } else {
      NoLevelsNoSave(draft, s, modelType, show);
    }
  }

  lemma NoLevelsNoSave(draft: Draft, s: Stored, modelType: Option<string>, show: NumberPrinter)
    requires forall levels :: !SavedLevels(levels, draft, s, show)
    ensures FromDraft(draft, s, modelType, show).Err?
  {
    hide LevelAction, ReasoningProblem, Touched, BuildRows;
    assert !SavedLevels(s.levels, draft, s, show);
    BuiltAreSaved(draft, s, show);
  }

  lemma BuiltAreSaved(draft: Draft, s: Stored, show: NumberPrinter)
    ensures var built := BuildRows(draft.rows, LEVELS, map[], show);
            built.Ok? && WritesRows(draft, s, show) ==> SavedLevels(built.value, draft, s, show)
  {
    hide LevelAction, Touched, BuildRows;
    BuildRowsBuilds(draft.rows, LEVELS, map[], show);
    forall l: Level ensures l in LEVELS { AllLevels(l); }
  }

  lemma {:induction false} FirstBadRow(rows: Rows, order: seq<Level>, i: nat, done: map<Level, Action>, show: NumberPrinter)
    requires i < |order| && LevelAction(rows.At(order[i]), show).Err?
    requires forall j | 0 <= j < i :: LevelAction(rows.At(order[j]), show).Ok?
    ensures BuildRows(rows, order, done, show) == Err(BadRow(order[i], LevelAction(rows.At(order[i]), show).error))
  {
    hide LevelAction;
    if i > 0 { FirstBadRow(rows, order[1..], i - 1, done[order[0] := LevelAction(rows.At(order[0]), show).value], show); }
  }

  /** A row that does not build stops the save, the first of them from none up to high. */
  lemma NamesTheFirstBadRow(draft: Draft, s: Stored, before: seq<Level>, bad: Level, modelType: Option<string>, show: NumberPrinter)
    requires WritesRows(draft, s, show) && before + [bad] <= [LevelNone, Low, Medium, High]
    requires LevelAction(draft.rows.At(bad), show).Err? && forall l | l in before :: LevelAction(draft.rows.At(l), show).Ok?
    ensures FromDraft(draft, s, modelType, show) == Err(BadRow(bad, LevelAction(draft.rows.At(bad), show).error))
  {
    hide LevelAction, ReasoningProblem, Touched, BuildRows;
    assert LEVELS[|before|] == (before + [bad])[|before|] == bad;
    forall j | 0 <= j < |before| ensures LevelAction(draft.rows.At(LEVELS[j]), show).Ok? {
      assert LEVELS[j] == (before + [bad])[j] == before[j];
    }
    FirstBadRow(draft.rows, LEVELS, |before|, map[], show);
  }

  /** A level with nothing stored starts as `reasoning_effort` under its own name, and its other inputs at their first choice. */
  lemma UnsetStartsAsItsName(level: Level, show: NumberPrinter)
    ensures var name := match level case LevelNone => "none" case Low => "low" case Medium => "medium" case High => "high";
            var next := match level case LevelNone => Low case Low => Medium case Medium => High case High => Medium;
            LevelDraftOf(level, None) == LevelDraft(Effort, name, next, "{}")
            && LevelAction(LevelDraftOf(level, None), show) == Ok(Send([Field("reasoning_effort", JStr(name))]))
  {
    assert Trim(LevelName(level)) == LevelName(level);
  }

  /** The inputs a stored action's preset does not use are kept at their first choice, and its fields as JSON. */
  lemma StoredRowKeepsInputs(level: Level, a: Action)
    ensures var d, unset := LevelDraftOf(level, Some(a)), LevelDraftOf(level, None);
            && d.use == (if a.Use? then a.level else unset.use)
            && d.json == (if a.Send? then Stringify(JObj(a.fields), "  ", "") else "{}")
            && d.effort == (if d.preset.Effort? then a.fields[0].value.s else unset.effort)
            && (d.preset.SameAs? <==> a.Use?) && (d.preset.Effort? ==> a.Send? && IsEffort(a.fields))
  {
    hide Stringify;
  }

  function RowJson(d: LevelDraft): Json {
    JObj([Field("preset", JStr(PresetName(d.preset))), Field("effort", JStr(d.effort)),
          Field("use", JStr(LevelName(d.use))), Field("json", JStr(d.json))])
  }

  function PresetName(p: Preset): string {
    match p
    case Default => "default" case Effort => "effort" case ThinkingOff => "thinking_off"
    case ThinkingOn => "thinking_on" case SameAs => "use" case Custom => "custom"
  }

  function DraftJson(d: Draft): Json {
    JObj([Field("mode", JStr(ModeName(d.mode))),
          Field("defaultLevel", JStr(match d.defaultLevel case None => "" case Some(l) => LevelName(l))),
          Field("levels", JObj([Field("none", RowJson(d.rows.none)), Field("low", RowJson(d.rows.low)),
                                Field("medium", RowJson(d.rows.medium)), Field("high", RowJson(d.rows.high))]))])
  }

  /** Whether the section holds something other than what is stored. */
  predicate Dirty(draft: Draft, s: Stored, modelType: Option<string>, show: NumberPrinter) {
    match FromDraft(draft, s, modelType, show)
    case Err(_) => Canonical(DraftJson(draft)) != Canonical(DraftJson(DraftOf(s)))
    case Ok(r) => Canonical(StoredJson(r)) != Canonical(StoredJson(s))
  }

  // -------------------------------------------------------------------------
  // An untouched section
  // -------------------------------------------------------------------------

  lemma NotTouched(s: Stored, show: NumberPrinter)
    ensures !Touched(DraftOf(s), s, show)
  {
  }

  lemma {:induction false} BuildRowsBuilds(rows: Rows, order: seq<Level>, done: map<Level, Action>, show: NumberPrinter)
    ensures var b := BuildRows(rows, order, done, show);
            && (b.Ok? <==> forall l | l in order :: LevelAction(rows.At(l), show).Ok?)
            && (b.Ok? ==> forall l | l in order :: l in b.value && LevelAction(rows.At(l), show) == Ok(b.value[l]))
            && (b.Ok? ==> forall l | l !in order :: (l in b.value <==> l in done) && (l in done ==> b.value[l] == done[l]))
  {
    hide LevelAction;
    if order == [] {
    } else {
      assert order == [order[0]] + order[1..];
      match LevelAction(rows.At(order[0]), show)
      case Err(e) =>
      case Ok(a) => BuildRowsBuilds(rows, order[1..], done[order[0] := a], show);
    }
  }

  /** Untrimmed or blank efforts are the only thing opening and saving can lose. */
  ghost predicate AllTrimmed(s: Stored) {
    forall l | l in s.levels :: EffortTrimmed(s.levels[l])
  }

  lemma BuildStored(s: Stored, show: NumberPrinter)
    requires StoredWellFormed(s, show) && forall l: Level :: l in s.levels
    ensures BuildRows(DraftOf(s).rows, LEVELS, map[], show) == Ok(s.levels) <==> AllTrimmed(s)
  {
    hide LevelAction, LevelDraftOf, EffortTrimmed;
    var rows := DraftOf(s).rows;
    var b := BuildRows(rows, LEVELS, map[], show);
    BuildRowsBuilds(rows, LEVELS, map[], show);
    forall l: Level
      ensures l in LEVELS && (LevelAction(rows.At(l), show) == Ok(s.levels[l]) <==> EffortTrimmed(s.levels[l]))
    {
      AllLevels(l);
      LevelRoundTrip(l, s.levels[l], show);
    }
    if AllTrimmed(s) {
      assert b.value == s.levels;
    }
  }

  /**
   * Opening an accepted map and saving it untouched writes the stored map,
   * unless it is a translated map with a blank or untrimmed effort.
   */
  lemma UntouchedSavesStored(s: Stored, modelType: Option<string>, show: NumberPrinter)
    requires StoredWellFormed(s, show) && ReasoningProblem(s, modelType).None?
    ensures FromDraft(DraftOf(s), s, modelType, show) == Ok(s) <==> (s.mode == Mapped ==> AllTrimmed(s))
    ensures (s.mode == Mapped ==> AllTrimmed(s)) ==> !Dirty(DraftOf(s), s, modelType, show)
  {
    hide LevelAction, LevelDraftOf, EffortTrimmed, BuildRows, StoredJson, DraftJson, Canonical, ReasoningProblem;
    NotTouched(s, show);
    if s.mode == Mapped {
      MappedAccepted(s, modelType);
      BuildStored(s, show);
    } else {
      OtherModesKeepLevels(DraftOf(s), s, modelType, show);
    }
  }

  /** Rows left alone keep the stored levels as they were in the other modes. */
  lemma OtherModesKeepLevels(draft: Draft, s: Stored, modelType: Option<string>, show: NumberPrinter)
    requires draft.rows == DraftOf(s).rows && draft.mode != Mapped
    ensures var r := FromDraft(draft, s, modelType, show);
            r.Ok? ==> r.value == Stored(draft.mode, draft.defaultLevel, s.levels)
  {
  }

  // -------------------------------------------------------------------------
  // Dirty means a different map
  // -------------------------------------------------------------------------

  /** The same map, send fields compared as maps. */
  ghost predicate SameAction(a: Action, b: Action) {
    match (a, b)
    case (Use(l), Use(m)) => l == m
    case (Send(f), Send(g)) => MapOf(f) == MapOf(g)
    case _ => false
  }

  ghost predicate SameStored(a: Stored, b: Stored) {
    && a.mode == b.mode && a.defaultLevel == b.defaultLevel && a.levels.Keys == b.levels.Keys
    && forall l | l in a.levels && l in b.levels :: SameAction(a.levels[l], b.levels[l])
  }

  lemma NamesDiffer(l: Level, m: Level)
    ensures LevelName(l) == LevelName(m) ==> l == m
    ensures LevelName(l) != ""
  {
    var a, b := LevelName(l), LevelName(m);
    assert a[0] in "nlmh" && b[0] in "nlmh";
  }

  lemma ModesDiffer(l: Mode, m: Mode)
    ensures ModeName(l) == ModeName(m) ==> l == m
  {
    var a, b := ModeName(l), ModeName(m);
    assert a[0] in "pmu" && b[0] in "pmu";
  }

  lemma SameMap<K, V>(m: map<K, V>, n: map<K, V>, k: K)
    requires m == n
    ensures k in m <==> k in n
    ensures k in m ==> m[k] == n[k]
  {
  }

  lemma One(k: string, v: Json)
    ensures MapOf([Field(k, v)]) == map[k := Meaning(v)]
  {
  }

  lemma SameActionMeaning(a: Action, b: Action)
    ensures Meaning(ActionJson(a)) == Meaning(ActionJson(b)) <==> SameAction(a, b)
  {
    var send, use := "send", "use";
    assert send[0] != use[0];
    if a.Send? { One(send, JObj(a.fields)); } else { One(use, JStr(LevelName(a.level))); }
    if b.Send? { One(send, JObj(b.fields)); } else { One(use, JStr(LevelName(b.level))); }
    var m, n := MapOf(ActionJson(a).fields), MapOf(ActionJson(b).fields);
    if a.Use? && b.Use? { NamesDiffer(a.level, b.level); }
    if m == n {
      SameMap(m, n, send);
      SameMap(m, n, use);
    }
  }

  lemma {:induction false} LevelFieldsMap(levels: map<Level, Action>, order: seq<Level>)
    ensures var m := MapOf(LevelFields(levels, order));
            && (forall l: Level :: LevelName(l) in m <==> l in order && l in levels)
            && (forall l | l in order && l in levels :: m[LevelName(l)] == Meaning(ActionJson(levels[l])))
            && (forall k | k in m :: exists l: Level :: k == LevelName(l))
  {
    hide LevelName, Meaning, ActionJson;
    if order == [] {
    } else {
      LevelFieldsMap(levels, order[1..]);
      assert order == [order[0]] + order[1..];
      var fields := LevelFields(levels, order);
      if order[0] in levels {
        assert fields[0] == Field(LevelName(order[0]), ActionJson(levels[order[0]]));
        assert fields[1..] == LevelFields(levels, order[1..]);
      } else {
        assert fields == LevelFields(levels, order[1..]);
      }
      forall l, m: Level | LevelName(l) == LevelName(m) ensures l == m { NamesDiffer(l, m); }
    }
  }

  /** The entries of a levels object, by the levels' names. */
  function LevelMap(levels: map<Level, Action>): map<string, Value> { MapOf(LevelFields(levels, LEVELS)) }

  lemma LevelEntry(levels: map<Level, Action>, l: Level)
    ensures LevelName(l) in LevelMap(levels) <==> l in levels
    ensures l in levels ==> LevelMap(levels)[LevelName(l)] == Meaning(ActionJson(levels[l]))
  {
    hide LevelName, Meaning, ActionJson, MapOf, LevelFields;
    AllLevels(l);
    LevelFieldsMap(levels, LEVELS);
  }

  lemma LevelOfKey(levels: map<Level, Action>, k: string) returns (l: Level)
    requires k in LevelMap(levels)
    ensures k == LevelName(l) && l in levels
  {
    hide LevelName, Meaning, ActionJson, MapOf, LevelFields;
    LevelFieldsMap(levels, LEVELS);
    l :| k == LevelName(l);
  }

  lemma SameLevel(a: map<Level, Action>, b: map<Level, Action>, l: Level)
    requires LevelMap(a) == LevelMap(b)
    ensures (l in a <==> l in b) && (l in a && l in b ==> SameAction(a[l], b[l]))
  {
    hide LevelName, Meaning, ActionJson, SameAction, LevelMap;
    LevelEntry(a, l);
    LevelEntry(b, l);
    if l in a && l in b { SameActionMeaning(a[l], b[l]); }
  }

  lemma SameEntries(a: map<Level, Action>, b: map<Level, Action>)
    requires a.Keys == b.Keys && forall l | l in a && l in b :: SameAction(a[l], b[l])
    ensures forall k | k in LevelMap(a) :: k in LevelMap(b) && LevelMap(a)[k] == LevelMap(b)[k]
  {
    hide LevelName, Meaning, ActionJson, SameAction, LevelMap;
    forall k | k in LevelMap(a) ensures k in LevelMap(b) && LevelMap(a)[k] == LevelMap(b)[k] {
      var l := LevelOfKey(a, k);
      assert l in a.Keys && l in b;
      LevelEntry(a, l);
      LevelEntry(b, l);
      SameActionMeaning(a[l], b[l]);
    }
  }

  lemma SameActionBack(a: Action, b: Action)
    ensures SameAction(a, b) <==> SameAction(b, a)
  {
    hide MapOf;
  }

  lemma LevelsMeaning(a: map<Level, Action>, b: map<Level, Action>)
    ensures MapOf(LevelFields(a, LEVELS)) == MapOf(LevelFields(b, LEVELS))
       <==> a.Keys == b.Keys && forall l | l in a && l in b :: SameAction(a[l], b[l])
  {
    hide SameAction, MapOf, LevelFields;
    var m, n := LevelMap(a), LevelMap(b);
    assert m == MapOf(LevelFields(a, LEVELS)) && n == MapOf(LevelFields(b, LEVELS));
    hide LevelMap;
    if m == n {
      forall l: Level ensures (l in a <==> l in b) && (l in a && l in b ==> SameAction(a[l], b[l])) { SameLevel(a, b, l); }
    }
    if a.Keys == b.Keys && forall l | l in a && l in b :: SameAction(a[l], b[l]) {
      SameEntries(a, b);
      forall l | l in a && l in b ensures SameAction(b[l], a[l]) { SameActionBack(a[l], b[l]); }
      SameEntries(b, a);
      assert m == n;
    }
  }

  lemma StoredKeys(k: string)
    requires k == "mode" || k == "default_level" || k == "levels"
    ensures k == "mode" ==> k != "default_level" && k != "levels"
    ensures k == "default_level" ==> k != "levels"
  {
    assert k[0] in "mdl";
  }

  /** The three entries of a stored map's JSON. */
  lemma StoredJsonMap(s: Stored)
    ensures var m := MapOf(StoredJson(s).fields);
            && "mode" in m && m["mode"] == Str(ModeName(s.mode))
            && ("default_level" in m <==> s.defaultLevel.Some?)
            && (s.defaultLevel.Some? ==> m["default_level"] == Str(LevelName(s.defaultLevel.value)))
            && ("levels" in m <==> s.levels != map[])
            && (s.levels != map[] ==> m["levels"] == Map(MapOf(LevelFields(s.levels, LEVELS))))
            && forall k | k in m :: k == "mode" || k == "default_level" || k == "levels"
  {
    hide ModeName, LevelName, LevelFields;
    StoredKeys("mode");
    StoredKeys("default_level");
    var mode := Field("mode", JStr(ModeName(s.mode)));
    var levels := Field("levels", JObj(LevelFields(s.levels, LEVELS)));
    var rest := if s.levels == map[] then [] else [levels];
    assert rest != [] ==> rest[1..] == [];
    assert MapOf(rest) == if s.levels == map[] then map[] else map["levels" := Map(MapOf(LevelFields(s.levels, LEVELS)))];
    match s.defaultLevel
    case None =>
      assert StoredJson(s).fields == [mode] + rest;
      assert ([mode] + rest)[1..] == rest;
    case Some(l) =>
      var d := Field("default_level", JStr(LevelName(l)));
      assert StoredJson(s).fields == [mode] + ([d] + rest);
      assert ([mode] + ([d] + rest))[1..] == [d] + rest && ([d] + rest)[1..] == rest;
      assert MapOf([d] + rest) == MapOf(rest)["default_level" := Str(LevelName(l))];
  }

  lemma StoredMeaning(a: Stored, b: Stored)
    ensures Meaning(StoredJson(a)) == Meaning(StoredJson(b)) <==> SameStored(a, b)
  {
    hide ModeName, LevelName, LevelFields, StoredJson, MapOf, SameAction;
    StoredJsonMap(a);
    StoredJsonMap(b);
    LevelsMeaning(a.levels, b.levels);
    ModesDiffer(a.mode, b.mode);
    if a.defaultLevel.Some? && b.defaultLevel.Some? { NamesDiffer(a.defaultLevel.value, b.defaultLevel.value); }
    var m, n := MapOf(StoredJson(a).fields), MapOf(StoredJson(b).fields);
    assert (Meaning(StoredJson(a)) == Meaning(StoredJson(b))) == (m == n);
    if m == n {
      SameMap(m, n, "mode");
      SameMap(m, n, "default_level");
      SameMap(m, n, "levels");
    }
    if SameStored(a, b) {
      assert a.levels == map[] <==> a.levels.Keys == {};
      assert b.levels == map[] <==> b.levels.Keys == {};
      assert m == n;
    }
  }

  lemma StoredJsonParsed(s: Stored, show: NumberPrinter)
    requires StoredParsed(s, show)
    ensures Parsed(StoredJson(s), show)
  {
    LevelFieldsParsed(s, LEVELS, show);
    StoredKeys("mode");
    StoredKeys("default_level");
  }

  lemma {:induction false} LevelFieldsParsed(s: Stored, order: seq<Level>, show: NumberPrinter)
    requires StoredParsed(s, show)
    requires forall i, j | 0 <= i < j < |order| :: order[i] != order[j]
    ensures var r := LevelFields(s.levels, order);
            && DistinctKeys(r)
            && (forall f | f in r :: Parsed(f.value, show) && exists l | l in order :: f.key == LevelName(l))
  {
    hide LevelName;
    if order == [] {
    } else {
      var t := order[1..];
      LevelFieldsParsed(s, t, show);
      var r := LevelFields(s.levels, order);
      assert forall l | l in t :: l in order && l != order[0];
      forall l, m: Level | LevelName(l) == LevelName(m) ensures l == m { NamesDiffer(l, m); }
      if order[0] in s.levels {
        var a := ActionJson(s.levels[order[0]]);
        assert Parsed(a, show);
        assert r == [Field(LevelName(order[0]), a)] + LevelFields(s.levels, t);
      }
    }
  }

  lemma FromDraftParsed(draft: Draft, s: Stored, modelType: Option<string>, show: NumberPrinter)
    requires StoredWellFormed(s, show) && NumberLaw(show)
    ensures var r := FromDraft(draft, s, modelType, show); r.Ok? ==> StoredParsed(r.value, show)
  {
    hide LevelAction, ActionWellFormed, ActionParsed, Touched, ReasoningProblem;
    BuildRowsBuilds(draft.rows, LEVELS, map[], show);
    forall l | l in s.levels ensures ActionParsed(s.levels[l], show) { WellFormedAction(s.levels[l], show); }
    forall l: Level
      ensures l in LEVELS
      ensures LevelAction(draft.rows.At(l), show).Ok? ==> ActionParsed(LevelAction(draft.rows.At(l), show).value, show)
    {
      AllLevels(l);
      BuildWellFormed(draft.rows.At(l), show);
    }
  }

  lemma {:induction false} LevelFieldsPrinted(levels: map<Level, Action>, order: seq<Level>)
    ensures FieldsAsPrinted(LevelFields(levels, order)) == LevelFields(PrintedLevels(levels), order)
  {
    hide LevelName;
    if order == [] {
    } else {
      LevelFieldsPrinted(levels, order[1..]);
      var rest := LevelFields(levels, order[1..]);
      if order[0] in levels {
        var a := levels[order[0]];
        var f := Field(LevelName(order[0]), ActionJson(a));
        assert LevelFields(levels, order) == [f] + rest;
        assert ([f] + rest)[1..] == rest;
        ActionPrinted(a);
      } else {
        assert LevelFields(levels, order) == rest;
      }
    }
  }

  lemma ActionPrinted(a: Action)
    ensures AsPrinted(ActionJson(a)) == ActionJson(PrintedAction(a))
  {
    hide LevelName;
    var fields := ActionJson(a).fields;
    assert fields[1..] == [];
  }

  lemma FieldsPlus(a: seq<Field<Json>>, b: seq<Field<Json>>)
    ensures FieldsAsPrinted(a + b) == FieldsAsPrinted(a) + FieldsAsPrinted(b)
  {
  }

  lemma StoredPrinted(s: Stored)
    ensures AsPrinted(StoredJson(s)) == StoredJson(PrintedStored(s))
  {
    hide LevelName, ModeName, LevelFields, AsPrinted, PrintedLevels;
    var mode := [Field("mode", JStr(ModeName(s.mode)))];
    var level := match s.defaultLevel case None => [] case Some(l) => [Field("default_level", JStr(LevelName(l)))];
    var levels := if s.levels == map[] then [] else [Field("levels", JObj(LevelFields(s.levels, LEVELS)))];
    assert StoredJson(s) == JObj(mode + level + levels);
    ObjectPrinted(mode + level + levels);
    FieldsPlus(mode + level, levels);
    FieldsPlus(mode, level);
    TextPrinted("mode", ModeName(s.mode));
    match s.defaultLevel {
      case None =>
      case Some(l) => TextPrinted("default_level", LevelName(l));
    }
    LevelsPrinted(s.levels);
  }

  lemma TextPrinted(key: string, text: string)
    ensures FieldsAsPrinted([Field(key, JStr(text))]) == [Field(key, JStr(text))]
  {
  }

  lemma LevelsPrinted(levels: map<Level, Action>)
    ensures PrintedLevels(levels) == map[] <==> levels == map[]
    ensures FieldsAsPrinted([Field("levels", JObj(LevelFields(levels, LEVELS)))])
         == [Field("levels", JObj(LevelFields(PrintedLevels(levels), LEVELS)))]
  {
    hide LevelFields;
    LevelFieldsPrinted(levels, LEVELS);
    assert PrintedLevels(levels).Keys == levels.Keys;
    assert levels == map[] <==> levels.Keys == {};
    assert PrintedLevels(levels) == map[] <==> PrintedLevels(levels).Keys == {};
    ObjectPrinted(LevelFields(levels, LEVELS));
  }

  /**
   * A section that could be saved counts as changed exactly when what would be
   * stored, as it prints, is a different map, send fields compared as maps.
   */
  lemma DirtyIsDifferent(draft: Draft, s: Stored, modelType: Option<string>, show: NumberPrinter)
    requires StoredWellFormed(s, show) && NumberLaw(show)
    requires FromDraft(draft, s, modelType, show).Ok?
    ensures Dirty(draft, s, modelType, show) <==> !SameStored(PrintedStored(FromDraft(draft, s, modelType, show).value), s)
  {
    hide FromDraft, StoredJson, Meaning, SameStored, WellFormed, Parsed, Canonical, PrintedStored, AsPrinted, InRange;
    var r := FromDraft(draft, s, modelType, show).value;
    FromDraftParsed(draft, s, modelType, show);
    WellFormedStored(s, show);
    StoredJsonParsed(r, show);
    StoredJsonParsed(s, show);
    CanonicalDecidesPrinted(StoredJson(r), StoredJson(s), show);
    StoredPrinted(r);
    StoredPrinted(s);
    StoredInRangePrintsItself(s);
    StoredMeaning(PrintedStored(r), s);
  }

  lemma StoredInRangePrintsItself(s: Stored)
    ensures PrintedStored(s) == s <==> StoredInRange(s)
  {
    hide AsPrinted, InRange;
    forall l | l in s.levels ensures PrintedAction(s.levels[l]) == s.levels[l] <==> ActionInRange(s.levels[l]) {
      var a := s.levels[l];
      if a.Send? {
        InRangePrintsItself(JObj(a.fields));
        assert AsPrinted(JObj(a.fields)) == JObj(FieldsAsPrinted(a.fields)) by { ObjectPrinted(a.fields); }
      }
    }
    assert PrintedLevels(s.levels).Keys == s.levels.Keys;
    if StoredInRange(s) { assert PrintedLevels(s.levels) == s.levels; }
  }

  lemma WellFormedStored(s: Stored, show: NumberPrinter)
    ensures StoredWellFormed(s, show) <==> StoredParsed(s, show) && StoredInRange(s)
  {
    hide ActionWellFormed, ActionParsed, ActionInRange;
    forall l | l in s.levels { WellFormedAction(s.levels[l], show); }
  }

  lemma ObjectPrinted(fields: seq<Field<Json>>)
    ensures AsPrinted(JObj(fields)) == JObj(FieldsAsPrinted(fields))
  {
  }

  lemma SameStoredInRange(r: Stored, s: Stored, show: NumberPrinter)
    requires StoredParsed(r, show) && StoredWellFormed(s, show) && SameStored(r, s)
    ensures StoredInRange(r)
  {
    hide Meaning, WellFormed, Parsed, InRange, SameAction;
    forall l | l in r.levels ensures ActionInRange(r.levels[l]) {
      assert SameAction(r.levels[l], s.levels[l]);
      SameActionInRange(r.levels[l], s.levels[l], show);
    }
  }

  lemma SameActionInRange(a: Action, b: Action, show: NumberPrinter)
    requires ActionParsed(a, show) && ActionWellFormed(b, show) && SameAction(a, b)
    ensures ActionInRange(a)
  {
    hide WellFormed, Parsed, InRange, MapOf;
    if a.Send? {
      WellFormedIsInRange(JObj(b.fields), show);
      InfinityDiffers(JObj(a.fields), JObj(b.fields), show);
    }
  }

  /**
   * So a changed section is missed exactly when a typed number past the range
   * prints as a null that is stored there.
   */
  lemma DirtyMisses(draft: Draft, s: Stored, modelType: Option<string>, show: NumberPrinter)
    requires StoredWellFormed(s, show) && NumberLaw(show)
    requires FromDraft(draft, s, modelType, show).Ok?
    ensures var r := FromDraft(draft, s, modelType, show).value;
            (Dirty(draft, s, modelType, show) <==> !SameStored(r, s)) <==> StoredInRange(r) || !SameStored(PrintedStored(r), s)
  {
    hide FromDraft, Dirty, SameStored, StoredInRange, PrintedStored, StoredParsed, StoredWellFormed;
    var r := FromDraft(draft, s, modelType, show).value;
    DirtyIsDifferent(draft, s, modelType, show);
    FromDraftParsed(draft, s, modelType, show);
    StoredInRangePrintsItself(r);
    if SameStored(r, s) { SameStoredInRange(r, s, show); }
  }

  lemma PresetsDiffer(p: Preset, q: Preset)
    ensures PresetName(p) == PresetName(q) ==> p == q
  {
    var a, b := PresetName(p), PresetName(q);
    assert p.ThinkingOff? ==> |a| == 12 && a[10] == 'f';
    assert q.ThinkingOff? ==> |b| == 12 && b[10] == 'f';
    assert p.ThinkingOn? ==> |a| == 11;
    assert q.ThinkingOn? ==> |b| == 11;
    assert a[0] in "detuc" && b[0] in "detuc";
  }

  lemma FieldMeaning(fields: seq<Field<Json>>, i: nat)
    requires DistinctKeys(fields) && i < |fields|
    ensures fields[i].key in MapOf(fields) && MapOf(fields)[fields[i].key] == Meaning(fields[i].value)
  {
    MapOfKeys(fields);
    assert fields[i] in fields;
  }

  lemma ObjectMeaning(fields: seq<Field<Json>>)
    ensures Meaning(JObj(fields)) == Map(MapOf(fields))
  {
  }

  lemma PlaceOfKey(fields: seq<Field<Json>>, key: string) returns (i: nat)
    requires key in MapOf(fields)
    ensures i < |fields| && fields[i].key == key
  {
    MapOfKeys(fields);
    i :| i < |fields| && fields[i].key == key;
  }

  /** Objects with the same distinct keys mean the same exactly when each value does. */
  lemma SameKeysMeaning(a: seq<Field<Json>>, b: seq<Field<Json>>)
    requires DistinctKeys(a) && DistinctKeys(b) && |a| == |b|
    requires forall i | 0 <= i < |a| :: a[i].key == b[i].key
    ensures Meaning(JObj(a)) == Meaning(JObj(b)) <==> forall i | 0 <= i < |a| :: Meaning(a[i].value) == Meaning(b[i].value)
  {
    hide MapOf, DistinctKeys, Meaning;
    forall i | 0 <= i < |a|
      ensures a[i].key in MapOf(a) && MapOf(a)[a[i].key] == Meaning(a[i].value)
      ensures b[i].key in MapOf(b) && MapOf(b)[b[i].key] == Meaning(b[i].value)
    {
      FieldMeaning(a, i);
      FieldMeaning(b, i);
    }
    ObjectMeaning(a);
    ObjectMeaning(b);
    if forall i | 0 <= i < |a| :: Meaning(a[i].value) == Meaning(b[i].value) {
      forall k | k in MapOf(a) ensures k in MapOf(b) && MapOf(a)[k] == MapOf(b)[k] {
        var i := PlaceOfKey(a, k);
      }
      forall k | k in MapOf(b) ensures k in MapOf(a) {
        var i := PlaceOfKey(b, k);
      }
      assert MapOf(a) == MapOf(b);
    }
  }

  lemma RowKeysDistinct(d: LevelDraft)
    ensures DistinctKeys(RowJson(d).fields)
  {
    var a, b, c, e := "preset", "effort", "use", "json";
    assert a[0] == 'p' && b[0] == 'e' && c[0] == 'u' && e[0] == 'j';
  }

  lemma RowMeaning(d: LevelDraft, e: LevelDraft)
    ensures Meaning(RowJson(d)) == Meaning(RowJson(e)) <==> d == e
  {
    hide LevelName, PresetName;
    RowKeysDistinct(d);
    RowKeysDistinct(e);
    var f, g := RowJson(d).fields, RowJson(e).fields;
    SameKeysMeaning(f, g);
    PresetsDiffer(d.preset, e.preset);
    NamesDiffer(d.use, e.use);
    if Meaning(JObj(f)) == Meaning(JObj(g)) {
      assert Meaning(f[0].value) == Meaning(g[0].value) && Meaning(f[1].value) == Meaning(g[1].value);
      assert Meaning(f[2].value) == Meaning(g[2].value) && Meaning(f[3].value) == Meaning(g[3].value);
    }
  }

  function RowFields(r: Rows): seq<Field<Json>> {
    [Field("none", RowJson(r.none)), Field("low", RowJson(r.low)), Field("medium", RowJson(r.medium)), Field("high", RowJson(r.high))]
  }

  lemma RowsMeaning(r: Rows, q: Rows)
    ensures DistinctKeys(RowFields(r))
    ensures Meaning(JObj(RowFields(r))) == Meaning(JObj(RowFields(q))) <==> r == q
  {
    hide RowJson;
    var a, b, c, d := "none", "low", "medium", "high";
    assert a[0] == 'n' && b[0] == 'l' && c[0] == 'm' && d[0] == 'h';
    var f, g := RowFields(r), RowFields(q);
    SameKeysMeaning(f, g);
    RowMeaning(r.none, q.none);
    RowMeaning(r.low, q.low);
    RowMeaning(r.medium, q.medium);
    RowMeaning(r.high, q.high);
    if Meaning(JObj(f)) == Meaning(JObj(g)) {
      assert Meaning(f[0].value) == Meaning(g[0].value) && Meaning(f[1].value) == Meaning(g[1].value);
      assert Meaning(f[2].value) == Meaning(g[2].value) && Meaning(f[3].value) == Meaning(g[3].value);
    }
  }

  lemma DraftMeaning(d: Draft, e: Draft)
    ensures Meaning(DraftJson(d)) == Meaning(DraftJson(e)) <==> d == e
  {
    hide RowJson, LevelName, ModeName;
    var f, g := DraftJson(d).fields, DraftJson(e).fields;
    DraftKeysDistinct(d);
    DraftKeysDistinct(e);
    SameKeysMeaning(f, g);
    RowsMeaning(d.rows, e.rows);
    ModesDiffer(d.mode, e.mode);
    if d.defaultLevel.Some? { NamesDiffer(d.defaultLevel.value, if e.defaultLevel.Some? then e.defaultLevel.value else Low); }
    if e.defaultLevel.Some? { NamesDiffer(e.defaultLevel.value, Low); }
    assert f[2].value == JObj(RowFields(d.rows)) && g[2].value == JObj(RowFields(e.rows));
    if Meaning(JObj(f)) == Meaning(JObj(g)) {
      assert Meaning(f[0].value) == Meaning(g[0].value) && Meaning(f[1].value) == Meaning(g[1].value);
      assert Meaning(f[2].value) == Meaning(g[2].value);
    }
  }

  lemma DraftKeysDistinct(d: Draft)
    ensures DistinctKeys(DraftJson(d).fields)
  {
    var a, b, c := "mode", "defaultLevel", "levels";
    assert a[0] == 'm' && b[0] == 'd' && c[0] == 'l';
  }

  lemma ObjectWellFormed(fields: seq<Field<Json>>, show: NumberPrinter)
    requires DistinctKeys(fields) && forall i | 0 <= i < |fields| :: WellFormed(fields[i].value, show)
    ensures WellFormed(JObj(fields), show)
  {
  }

  lemma RowWellFormed(d: LevelDraft, show: NumberPrinter)
    ensures WellFormed(RowJson(d), show)
  {
    hide LevelName, PresetName;
    RowKeysDistinct(d);
    ObjectWellFormed(RowJson(d).fields, show);
  }

  lemma DraftWellFormed(d: Draft, show: NumberPrinter)
    ensures WellFormed(DraftJson(d), show)
  {
    hide LevelName, ModeName, RowJson;
    RowWellFormed(d.rows.none, show);
    RowWellFormed(d.rows.low, show);
    RowWellFormed(d.rows.medium, show);
    RowWellFormed(d.rows.high, show);
    RowsMeaning(d.rows, d.rows);
    ObjectWellFormed(RowFields(d.rows), show);
    DraftKeysDistinct(d);
    assert DraftJson(d).fields[2].value == JObj(RowFields(d.rows));
    ObjectWellFormed(DraftJson(d).fields, show);
  }

  /** A section that can't be saved counts as changed exactly when anything in it was edited. */
  lemma UnsavableIsDirtyWhenEdited(draft: Draft, s: Stored, modelType: Option<string>, show: NumberPrinter)
    requires FromDraft(draft, s, modelType, show).Err?
    ensures Dirty(draft, s, modelType, show) <==> draft != DraftOf(s)
  {
    hide FromDraft, DraftJson, Canonical, Meaning, WellFormed, DraftOf;
    DraftWellFormed(draft, show);
    DraftWellFormed(DraftOf(s), show);
    CanonicalDecidesMeaning(DraftJson(draft), DraftJson(DraftOf(s)), show);
    DraftMeaning(draft, DraftOf(s));
  }

  /** Two rows build the same: the same action, or the same error. */
  ghost predicate SameBuild(a: Result<Action, BuildError>, b: Result<Action, BuildError>) {
    match (a, b)
    case (Ok(x), Ok(y)) => SameAction(x, y)
    case (Err(d), Err(e)) => d == e
    case _ => false
  }

  lemma ResavedDiffers(level: Level, a: Action, show: NumberPrinter)
    requires ActionWellFormed(a, show) && !EffortTrimmed(a)
    ensures var b := LevelAction(LevelDraftOf(level, Some(a)), show); b.Ok? ==> !SameAction(b.value, a)
  {
    hide Trim, Stringify, Parse, WellFormed, MapOf;
    var t := a.fields[0].value.s;
    assert a.fields == [Field("reasoning_effort", JStr(t))];
    One("reasoning_effort", JStr(t));
    One("reasoning_effort", JStr(Trim(t)));
    hide Meaning;
    assert Meaning(JStr(t)) != Meaning(JStr(Trim(t))) || t == Trim(t) by { StrMeaning(t, Trim(t)); }
    SingleMaps("reasoning_effort", Meaning(JStr(t)), Meaning(JStr(Trim(t))));
  }

  lemma StrMeaning(a: string, b: string)
    ensures Meaning(JStr(a)) == Meaning(JStr(b)) <==> a == b
  {
  }

  lemma SingleMaps<K, V>(k: K, v: V, w: V)
    ensures map[k := v] == map[k := w] ==> v == w
  {
    var m, n := map[k := v], map[k := w];
    assert m == n ==> m[k] == n[k];
  }

  /** An accepted section opened and left alone is dirty exactly when saving it would write another map. */
  lemma UntouchedIsDirtyWhenResaved(s: Stored, modelType: Option<string>, show: NumberPrinter)
    requires StoredWellFormed(s, show) && NumberLaw(show) && ReasoningProblem(s, modelType).None?
    ensures var r := FromDraft(DraftOf(s), s, modelType, show);
            Dirty(DraftOf(s), s, modelType, show) <==> r.Ok? && r.value != s
  {
    hide Dirty, FromDraft, DraftOf, SameStored, StoredWellFormed, StoredInRange, PrintedStored, ReasoningProblem;
    var r := FromDraft(DraftOf(s), s, modelType, show);
    if r.Err? {
      UnsavableIsDirtyWhenEdited(DraftOf(s), s, modelType, show);
    } else {
      DirtyIsDifferent(DraftOf(s), s, modelType, show);
      ResavedInRange(s, modelType, show);
      StoredInRangePrintsItself(r.value);
      if r.value == s {
        StoredItself(s);
      } else {
        ResavedIsDifferent(s, modelType, show);
      }
    }
  }

  lemma ResavedInRange(s: Stored, modelType: Option<string>, show: NumberPrinter)
    requires StoredWellFormed(s, show)
    ensures var r := FromDraft(DraftOf(s), s, modelType, show); r.Ok? ==> StoredInRange(r.value)
  {
    hide LevelAction, ActionWellFormed, ActionParsed, ActionInRange, Touched, ReasoningProblem, DraftOf;
    BuildRowsBuilds(DraftOf(s).rows, LEVELS, map[], show);
    forall l | l in s.levels ensures ActionInRange(s.levels[l]) { WellFormedAction(s.levels[l], show); }
    forall l: Level
      ensures l in LEVELS
      ensures var b := LevelAction(DraftOf(s).rows.At(l), show); b.Ok? ==> ActionInRange(b.value)
    {
      AllLevels(l);
      StoredRowInRange(s, l, show);
      var b := LevelAction(DraftOf(s).rows.At(l), show);
      if b.Ok? { WellFormedAction(b.value, show); }
    }
  }

  lemma StoredItself(s: Stored)
    ensures SameStored(s, s)
  {
    hide SameAction;
    forall l | l in s.levels ensures SameAction(s.levels[l], s.levels[l]) { ActionItself(s.levels[l]); }
  }

  lemma ResavedIsDifferent(s: Stored, modelType: Option<string>, show: NumberPrinter)
    requires StoredWellFormed(s, show) && ReasoningProblem(s, modelType).None?
    requires FromDraft(DraftOf(s), s, modelType, show).Ok? && FromDraft(DraftOf(s), s, modelType, show).value != s
    ensures !SameStored(FromDraft(DraftOf(s), s, modelType, show).value, s)
  {
    hide EffortTrimmed, LevelAction, LevelDraftOf, SameAction, BuildRows, ReasoningProblem;
    UntouchedSavesStored(s, modelType, show);
    var l := Untrimmed(s);
    MappedAccepted(s, modelType);
    BuildRowsBuilds(DraftOf(s).rows, LEVELS, map[], show);
    AllLevels(l);
    ResavedDiffers(l, s.levels[l], show);
  }

  lemma ActionItself(a: Action)
    ensures SameAction(a, a)
  {
  }

  lemma Untrimmed(s: Stored) returns (l: Level)
    requires !AllTrimmed(s)
    ensures l in s.levels && !EffortTrimmed(s.levels[l])
  {
    l :| l in s.levels && !EffortTrimmed(s.levels[l]);
  }

  lemma BuildKeys(a: Result<Action, BuildError>)
    ensures DistinctKeys(BuildJson(a).fields)
  {
    hide ActionJson;
    var k, l, m := "ok", "action", "error";
    assert k[0] == 'o' && l[0] == 'a' && m[0] == 'e';
  }

  lemma BuildMeaning(a: Result<Action, BuildError>, b: Result<Action, BuildError>)
    ensures DistinctKeys(BuildJson(a).fields)
    ensures Meaning(BuildJson(a)) == Meaning(BuildJson(b)) <==> SameBuild(a, b)
  {
    hide ActionJson, SameAction, DistinctKeys;
    BuildKeys(a);
    BuildKeys(b);
    var f, g := BuildJson(a).fields, BuildJson(b).fields;
    FieldMeaning(f, 0);
    FieldMeaning(g, 0);
    if a.Ok? == b.Ok? {
      SameKeysMeaning(f, g);
      if a.Ok? {
        SameActionMeaning(a.value, b.value);
      } else {
        assert ErrorText(BlankEffort)[0] == 'b' && |ErrorText(NotJson)| == 8 && |ErrorText(NotObject)| == 13;
      }
      if Meaning(JObj(f)) == Meaning(JObj(g)) {
        assert Meaning(f[1].value) == Meaning(g[1].value);
      }
    } else {
      assert Meaning(f[0].value) != Meaning(g[0].value);
    }
  }

  lemma BuildJsonParsed(b: Result<Action, BuildError>, show: NumberPrinter)
    requires b.Ok? ==> ActionParsed(b.value, show)
    ensures Parsed(BuildJson(b), show)
  {
    hide LevelName, ErrorText;
    BuildMeaning(b, b);
    if b.Ok? {
      var a := ActionJson(b.value);
      assert forall f | f in a.fields :: f == a.fields[0];
      assert Parsed(a, show);
    }
    var fields := BuildJson(b).fields;
    assert forall f | f in fields :: f == fields[0] || f == fields[1];
  }

  function PrintedBuild(b: Result<Action, BuildError>): Result<Action, BuildError> {
    if b.Ok? then Ok(PrintedAction(b.value)) else b
  }

  lemma BuildPrinted(b: Result<Action, BuildError>)
    ensures AsPrinted(BuildJson(b)) == BuildJson(PrintedBuild(b))
  {
    hide ErrorText, ActionJson;
    if b.Ok? { ActionPrinted(b.value); }
    var fields := BuildJson(b).fields;
    assert FieldsAsPrinted(fields) == [Field(fields[0].key, AsPrinted(fields[0].value)), Field(fields[1].key, AsPrinted(fields[1].value))];
  }

  /** The section counts as touched exactly when some row now builds something that prints as something else. */
  lemma TouchedIsDifferent(draft: Draft, s: Stored, show: NumberPrinter)
    requires NumberLaw(show)
    ensures Touched(draft, s, show) <==> exists l: Level ::
              !SameBuild(PrintedBuild(LevelAction(draft.rows.At(l), show)), PrintedBuild(LevelAction(DraftOf(s).rows.At(l), show)))
  {
    hide LevelAction, Canonical, Meaning, BuildJson, SameBuild, Parsed, ActionParsed, DraftOf, PrintedBuild, AsPrinted;
    forall l: Level
      ensures l in LEVELS
      ensures Canonical(BuildJson(LevelAction(draft.rows.At(l), show))) == Canonical(BuildJson(LevelAction(DraftOf(s).rows.At(l), show)))
         <==> SameBuild(PrintedBuild(LevelAction(draft.rows.At(l), show)), PrintedBuild(LevelAction(DraftOf(s).rows.At(l), show)))
    {
      var a, b := LevelAction(draft.rows.At(l), show), LevelAction(DraftOf(s).rows.At(l), show);
      AllLevels(l);
      BuildWellFormed(draft.rows.At(l), show);
      BuildWellFormed(DraftOf(s).rows.At(l), show);
      BuildJsonParsed(a, show);
      BuildJsonParsed(b, show);
      CanonicalDecidesPrinted(BuildJson(a), BuildJson(b), show);
      BuildPrinted(a);
      BuildPrinted(b);
      BuildMeaning(PrintedBuild(a), PrintedBuild(b));
    }
  }

  ghost predicate BuildInRange(b: Result<Action, BuildError>) { b.Ok? ==> ActionInRange(b.value) }

  lemma WellFormedPrintsItself(b: Result<Action, BuildError>, show: NumberPrinter)
    requires b.Ok? ==> ActionWellFormed(b.value, show)
    ensures PrintedBuild(b) == b
  {
    hide PrintedAction, ActionInRange, ActionWellFormed;
    if b.Ok? {
      WellFormedAction(b.value, show);
      ActionInRangePrintsItself(b.value);
    }
  }

  /** A row built from a stored level holds no number past the range. */
  lemma StoredRowInRange(s: Stored, l: Level, show: NumberPrinter)
    requires StoredWellFormed(s, show)
    ensures var b := LevelAction(DraftOf(s).rows.At(l), show); b.Ok? ==> ActionWellFormed(b.value, show)
  {
    hide Stringify, Parse, WellFormed, Trim;
    if l in s.levels {
      var a := s.levels[l];
      LevelRoundTrip(l, a, show);
      if !EffortTrimmed(a) { PresetsWellFormed(Trim(a.fields[0].value.s), show); }
    } else {
      PresetsWellFormed(Trim(LevelName(l)), show);
    }
  }

  /** Two rows build the same exactly when they print the same and the first is in range, the second always being. */
  lemma SameBuildPrinted(a: Result<Action, BuildError>, b: Result<Action, BuildError>, show: NumberPrinter)
    requires a.Ok? ==> ActionParsed(a.value, show)
    requires b.Ok? ==> ActionWellFormed(b.value, show)
    ensures SameBuild(a, b) <==> BuildInRange(a) && SameBuild(PrintedBuild(a), PrintedBuild(b))
  {
    hide Parsed, WellFormed, InRange, MapOf;
    if a.Ok? && b.Ok? {
      WellFormedAction(b.value, show);
      ActionInRangePrintsItself(b.value);
      if ActionInRange(a.value) { ActionInRangePrintsItself(a.value); }
      if SameAction(a.value, b.value) { SameActionInRange(a.value, b.value, show); }
    }
  }

  lemma ActionInRangePrintsItself(a: Action)
    ensures PrintedAction(a) == a <==> ActionInRange(a)
  {
    hide AsPrinted, InRange;
    if a.Send? {
      InRangePrintsItself(JObj(a.fields));
      ObjectPrinted(a.fields);
    }
  }

  /**
   * So a changed row is missed exactly when a number typed past the range
   * prints as a null that is stored there.
   */
  lemma TouchedMisses(draft: Draft, s: Stored, show: NumberPrinter)
    requires StoredWellFormed(s, show) && NumberLaw(show)
    ensures (Touched(draft, s, show)
             <==> exists l: Level :: !SameBuild(LevelAction(draft.rows.At(l), show), LevelAction(DraftOf(s).rows.At(l), show)))
       <==> (forall l: Level :: BuildInRange(LevelAction(draft.rows.At(l), show)))
            || exists l: Level :: !SameBuild(PrintedBuild(LevelAction(draft.rows.At(l), show)), LevelAction(DraftOf(s).rows.At(l), show))
  {
    hide Touched, LevelAction, SameBuild, PrintedBuild, BuildInRange, DraftOf, StoredWellFormed, ActionParsed, ActionWellFormed;
    TouchedIsDifferent(draft, s, show);
    forall l: Level
      ensures var a, b := LevelAction(draft.rows.At(l), show), LevelAction(DraftOf(s).rows.At(l), show);
              PrintedBuild(b) == b && (SameBuild(a, b) <==> BuildInRange(a) && SameBuild(PrintedBuild(a), b))
    {
      BuildWellFormed(draft.rows.At(l), show);
      StoredRowInRange(s, l, show);
      SameBuildPrinted(LevelAction(draft.rows.At(l), show), LevelAction(DraftOf(s).rows.At(l), show), show);
      WellFormedPrintsItself(LevelAction(DraftOf(s).rows.At(l), show), show);
    }
  }

  const NULL_SEND: Action := Send([Field("a", JNull)])
  const NULL_STORED: Stored := Stored(Mapped, None, map[Low := NULL_SEND])

  /** The section with that map loaded and a number past the range typed over the null. */
  function Retyped(): Draft {
    var loaded := DraftOf(NULL_STORED);
    loaded.(rows := loaded.rows.(low := loaded.rows.low.(json := "{\"a\":" + (" " + ("1e400" + "}")))))
  }

  lemma NullRow(show: NumberPrinter)
    ensures DraftOf(NULL_STORED).rows.low.preset == Custom
    ensures LevelAction(DraftOf(NULL_STORED).rows.low, show) == Ok(NULL_SEND)
  {
    hide Stringify, Parse;
    assert |"a"| == 1;
    LevelRoundTrip(Low, NULL_SEND, show);
  }

  lemma RetypedRow(show: NumberPrinter)
    requires show("1e400") == None
    ensures LevelAction(Retyped().rows.low, show) == Ok(Send([Field("a", JInfinity(false))]))
  {
    hide Stringify, Parse;
    NullRow(show);
    OverflowIsNumber();
    ParseOneNumber("1e400", show);
  }

  lemma SamePrintSameText(a: Result<Action, BuildError>, b: Result<Action, BuildError>)
    requires PrintedBuild(a) == b
    ensures Canonical(BuildJson(a)) == Canonical(BuildJson(b))
  {
    hide Canonical, BuildJson, AsPrinted, PrintedBuild;
    BuildPrinted(a);
    CanonicalPrinted(BuildJson(a));
  }

  /** With a null stored, typing a number past the range over it builds another action and counts as nothing touched. */
  lemma NullHidesOverflow(show: NumberPrinter)
    requires show("1e400") == None
    ensures LevelAction(Retyped().rows.low, show) == Ok(Send([Field("a", JInfinity(false))]))
    ensures LevelAction(DraftOf(NULL_STORED).rows.low, show) == Ok(Send([Field("a", JNull)]))
    ensures !Touched(Retyped(), NULL_STORED, show)
  {
    hide Stringify, Parse, Canonical, BuildJson, LevelAction;
    NullRow(show);
    RetypedRow(show);
    var a, b := LevelAction(Retyped().rows.low, show), LevelAction(DraftOf(NULL_STORED).rows.low, show);
    assert FieldsAsPrinted(a.value.fields) == [Field("a", JNull)];
    SamePrintSameText(a, b);
    forall l: Level
      ensures Canonical(BuildJson(LevelAction(Retyped().rows.At(l), show)))
           == Canonical(BuildJson(LevelAction(DraftOf(NULL_STORED).rows.At(l), show)))
    {
    }
  }

  lemma OverflowIsNumber()
    ensures IsNumber("1e400")
  {
    var s := "1e400";
    assert s[1..] == "e400" && s[1..][1..] == "400";
    assert DigitRun("e400") == 0 && DigitRun(s) == 1;
    assert "400"[1..] == "00" && "00"[1..] == "0" && "0"[1..] == "";
    assert DigitRun("0") == 1 && DigitRun("00") == 2 && DigitRun("400") == 3;
    assert NumberRun("") == 0 && NumberRun("0") == 1 && NumberRun("00") == 2 && NumberRun("400") == 3;
    assert NumberRun("e400") == 4;
  }
}
