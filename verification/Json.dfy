/**
 * JSON values and their text: what `JSON.stringify` prints, with and without
 * indentation, and what `JSON.parse` reads back.
 */
module Json {
  import opened Text
  import opened Wrappers

  /** One property of an object. */
  datatype Field<A> = Field(key: string, value: A)

  /**
   * A number is kept as the text the runtime prints for it. One written past
   * the range of a double reads as an infinity, which prints as `null`.
   */
  datatype Json =
    | JNull
    | JBool(b: bool)
    | JNum(text: string)
    | JInfinity(negative: bool)
    | JStr(s: string)
    | JArr(items: seq<Json>)
    | JObj(fields: seq<Field<Json>>)

  /** `show(t)` is the text the runtime prints for the number written `t`, or None when it is past the range. */
  type NumberPrinter = string -> Option<string>

  ghost predicate DistinctKeys<A>(fields: seq<Field<A>>) {
    forall i, j | 0 <= i < j < |fields| :: fields[i].key != fields[j].key
  }

  /** No repeated keys, and every number is one the runtime prints that way. */
  ghost predicate WellFormed(v: Json, show: NumberPrinter) {
    match v
    case JNum(t) => IsNumber(t) && show(t) == Some(t)
    case JInfinity(_) => false
    case JArr(items) => forall x | x in items :: WellFormed(x, show)
    case JObj(fields) => DistinctKeys(fields) && forall f | f in fields :: WellFormed(f.value, show)
    case _ => true
  }

  /** The same, but numbers past the range may occur. */
  ghost predicate Parsed(v: Json, show: NumberPrinter) {
    match v
    case JNum(t) => IsNumber(t) && show(t) == Some(t)
    case JArr(items) => forall x | x in items :: Parsed(x, show)
    case JObj(fields) => DistinctKeys(fields) && forall f | f in fields :: Parsed(f.value, show)
    case _ => true
  }

  /** No number is past the range. */
  ghost predicate InRange(v: Json) {
    match v
    case JInfinity(_) => false
    case JArr(items) => forall x | x in items :: InRange(x)
    case JObj(fields) => forall f | f in fields :: InRange(f.value)
    case _ => true
  }

  // -------------------------------------------------------------------------
  // Numbers
  // -------------------------------------------------------------------------

  predicate IsDigit(c: char) { '0' <= c <= '9' }

  predicate IsNumberChar(c: char) {
    IsDigit(c) || c == '-' || c == '+' || c == '.' || c == 'e' || c == 'E'
  }

  /** The length of the run of digits a string starts with. */
  function DigitRun(s: string): (n: nat)
    ensures n <= |s|
  {
    if s != "" && IsDigit(s[0]) then 1 + DigitRun(s[1..]) else 0
  }

  predicate IsExponent(s: string) {
    || s == ""
    || ((s[0] == 'e' || s[0] == 'E')
        && var t := if |s| > 1 && (s[1] == '+' || s[1] == '-') then s[2..] else s[1..];
           |t| > 0 && DigitRun(t) == |t|)
  }

  predicate IsFraction(s: string) {
    if s != "" && s[0] == '.' then
      var n := DigitRun(s[1..]);
      n > 0 && IsExponent(s[1 + n..])
    else IsExponent(s)
  }

  /** JSON's number grammar: a sign, digits with no spare zero, a fraction, an exponent. */
  predicate IsNumber(s: string) {
    var t := if s != "" && s[0] == '-' then s[1..] else s;
    var n := DigitRun(t);
    n > 0 && (t[0] == '0' ==> n == 1) && IsFraction(t[n..]) && NumberRun(s) == |s|
  }

  /** The length of the run of number characters a string starts with. */
  function NumberRun(s: string): (n: nat)
    ensures n <= |s|
  {
    if s != "" && IsNumberChar(s[0]) then 1 + NumberRun(s[1..]) else 0
  }

  lemma {:induction false} NumberRunStops(t: string, rest: string)
    requires NumberRun(t) == |t|
    requires rest == "" || !IsNumberChar(rest[0])
    ensures NumberRun(t + rest) == |t|
  {
    if t == "" {
      assert t + rest == rest;
    } else {
      NumberRunStops(t[1..], rest);
      assert (t + rest)[1..] == t[1..] + rest;
    }
  }

  predicate AllDigits(s: string) { forall c | c in s :: c in "0123456789" }

  lemma DigitIs(c: char)
    ensures IsDigit(c) <==> c in "0123456789"
  {
    var digits := "0123456789";
    assert forall i | 0 <= i < |digits| :: digits[i] as int == '0' as int + i;
    if IsDigit(c) { assert digits[c as int - '0' as int] == c; }
  }

  /** An exponent, or nothing. */
  ghost predicate ExponentPart(s: string) {
    s == "" || exists sign, digits :: sign in {"", "+", "-"} && AllDigits(digits) && digits != "" && (s == "e" + sign + digits || s == "E" + sign + digits)
  }

  /** A fraction, or nothing. */
  ghost predicate FractionPart(s: string) {
    s == "" || (|s| > 1 && s[0] == '.' && AllDigits(s[1..]))
  }

  ghost predicate Spelled(s: string, sign: string, digits: string, fraction: string, exponent: string) {
    && s == sign + (digits + (fraction + exponent)) && sign in {"", "-"}
    && digits != "" && AllDigits(digits) && (digits[0] == '0' ==> digits == "0")
    && FractionPart(fraction) && ExponentPart(exponent)
  }

  /** A number as section 6 of RFC 8259 has it: a sign, digits without a spare zero, a fraction and an exponent. */
  ghost predicate NumberText(s: string) {
    exists sign, digits, fraction, exponent :: Spelled(s, sign, digits, fraction, exponent)
  }

  lemma {:induction false} DigitsRun(a: string, rest: string)
    requires AllDigits(a) && (rest == "" || !IsDigit(rest[0]))
    ensures DigitRun(a + rest) == |a|
  {
    if a == "" {
      assert a + rest == rest;
    } else {
      assert a[0] in a && (a + rest)[0] == a[0] && (a + rest)[1..] == a[1..] + rest && forall c | c in a[1..] :: c in a;
      DigitIs(a[0]);
      DigitsRun(a[1..], rest);
    }
  }

  lemma {:induction false} RunIsDigits(s: string)
    ensures AllDigits(s[..DigitRun(s)]) && (DigitRun(s) < |s| ==> !IsDigit(s[DigitRun(s)]))
  {
    if DigitRun(s) > 0 {
      DigitIs(s[0]);
      RunIsDigits(s[1..]);
      assert s[..DigitRun(s)] == [s[0]] + s[1..][..DigitRun(s[1..])];
    }
  }

  lemma ExponentIs(s: string)
    ensures IsExponent(s) <==> ExponentPart(s)
  {
    hide DigitRun, AllDigits;
    if IsExponent(s) && s != "" {
      var signed := |s| > 1 && (s[1] == '+' || s[1] == '-');
      var sign, digits := if signed then [s[1]] else "", if signed then s[2..] else s[1..];
      RunIsDigits(digits);
      assert digits[..|digits|] == digits;
      assert s == [s[0]] + sign + digits;
    }
    if sign, digits :| sign in {"", "+", "-"} && AllDigits(digits) && digits != "" && (s == "e" + sign + digits || s == "E" + sign + digits) {
      DigitsRun(digits, "");
      assert digits + "" == digits;
      SignedDigits(s, sign, digits);
    }
  }

  lemma SignedDigits(s: string, sign: string, digits: string)
    requires sign in {"", "+", "-"} && AllDigits(digits) && digits != "" && (s == "e" + sign + digits || s == "E" + sign + digits)
    ensures var signed := |s| > 1 && (s[1] == '+' || s[1] == '-');
            digits == if signed then s[2..] else s[1..]
  {
    assert digits[0] in digits;
    if sign == "" {
      assert s[1] == digits[0] && s[1..] == digits;
    } else {
      assert s[1] == sign[0] && s[2..] == digits;
    }
  }

  lemma FractionIs(s: string)
    ensures IsFraction(s) <==> exists fraction, exponent :: s == fraction + exponent && FractionPart(fraction) && ExponentPart(exponent)
  {
    hide DigitRun, AllDigits, IsExponent, ExponentPart;
    if IsFraction(s) {
      if s != "" && s[0] == '.' {
        var n := DigitRun(s[1..]);
        RunIsDigits(s[1..]);
        ExponentIs(s[1 + n..]);
        assert s[..1 + n][1..] == s[1..][..n];
        assert s == s[..1 + n] + s[1 + n..];
        assert FractionPart(s[..1 + n]);
      } else {
        ExponentIs(s);
        assert s == "" + s && FractionPart("");
      }
    }
    if fraction, exponent :| s == fraction + exponent && FractionPart(fraction) && ExponentPart(exponent) {
      ExponentIs(exponent);
      ExponentStarts(exponent);
      if fraction == "" {
        assert s == exponent;
      } else {
        DigitsRun(fraction[1..], exponent);
        assert s[1..] == fraction[1..] + exponent && s[|fraction|..] == exponent;
      }
    }
  }

  lemma ExponentStarts(s: string)
    requires ExponentPart(s)
    ensures s == "" || (s[0] != '.' && !IsDigit(s[0]))
  {
  }

  lemma FractionSplit(s: string) returns (fraction: string, exponent: string)
    requires IsFraction(s)
    ensures s == fraction + exponent && FractionPart(fraction) && ExponentPart(exponent)
  {
    hide IsFraction, FractionPart, ExponentPart;
    FractionIs(s);
    fraction, exponent :| s == fraction + exponent && FractionPart(fraction) && ExponentPart(exponent);
  }

  lemma NumberSpelled(s: string)
    requires IsNumber(s)
    ensures NumberText(s)
  {
    hide IsNumber, DigitRun, AllDigits, IsFraction, FractionPart, ExponentPart, NumberRun;
    NumberWhen(s);
    var sign := if s != "" && s[0] == '-' then "-" else "";
    var t := if s != "" && s[0] == '-' then s[1..] else s;
    var n := DigitRun(t);
    RunIsDigits(t);
    var fraction, exponent := FractionSplit(t[n..]);
    var digits := t[..n];
    assert digits[0] == t[0] && (n == 1 ==> digits == [t[0]]);
    assert s == sign + (digits + (fraction + exponent)) by {
      assert t == digits + t[n..];
      assert s == sign + t;
    }
    assert Spelled(s, sign, digits, fraction, exponent);
  }

  predicate NumberChars(s: string) { forall c | c in s :: IsNumberChar(c) }

  lemma {:induction false} AllRun(s: string)
    requires NumberChars(s)
    ensures NumberRun(s) == |s|
  {
    if s != "" {
      assert s[0] in s && forall c | c in s[1..] :: c in s;
      AllRun(s[1..]);
    }
  }

  lemma PartsAreChars(digits: string, fraction: string, exponent: string)
    requires AllDigits(digits) && FractionPart(fraction) && ExponentPart(exponent)
    ensures NumberChars(digits) && NumberChars(fraction) && NumberChars(exponent)
  {
    forall c ensures c in "0123456789" ==> IsNumberChar(c) { DigitIs(c); }
    if fraction != "" { assert forall c | c in fraction :: c == '.' || c in fraction[1..]; }
  }

  /** A number is exactly what the grammar says. */
  lemma NumberIs(s: string)
    ensures IsNumber(s) <==> NumberText(s)
  {
    hide IsNumber, AllDigits, FractionPart, ExponentPart, IsFraction, DigitRun, NumberRun;
    if IsNumber(s) { NumberSpelled(s); }
    if NumberText(s) {
      var sign, digits, fraction, exponent :| Spelled(s, sign, digits, fraction, exponent);
      NumberParts(s, sign, digits, fraction, exponent);
      PartsAreChars(digits, fraction, exponent);
      assert NumberChars(s);
      AllRun(s);
      NumberWhen(s);
    }
  }

  lemma NumberWhen(s: string)
    ensures var t := if s != "" && s[0] == '-' then s[1..] else s;
            var n := DigitRun(t);
            IsNumber(s) <==> n > 0 && (t[0] == '0' ==> n == 1) && IsFraction(t[n..]) && NumberRun(s) == |s|
  {
  }

  lemma NumberParts(s: string, sign: string, digits: string, fraction: string, exponent: string)
    requires Spelled(s, sign, digits, fraction, exponent)
    ensures var t := if s != "" && s[0] == '-' then s[1..] else s;
            var n := DigitRun(t);
            n > 0 && (t[0] == '0' ==> n == 1) && IsFraction(t[n..])
  {
    hide DigitRun, IsFraction, ExponentPart;
    var rest := fraction + exponent;
    assert digits[0] in digits;
    DigitIs(digits[0]);
    assert s[0] == if sign == "" then digits[0] else '-';
    var t := digits + rest;
    assert t == if s[0] == '-' then s[1..] else s;
    ExponentStarts(exponent);
    assert rest == "" || rest[0] == if fraction != "" then fraction[0] else exponent[0];
    DigitsRun(digits, rest);
    assert t[|digits|..] == rest;
    FractionIs(rest);
  }

  // -------------------------------------------------------------------------
  // Strings
  // -------------------------------------------------------------------------

  function HexDigit(n: nat): char
    requires n < 16
  {
    "0123456789abcdef"[n]
  }

  function HexValue(c: char): Option<nat> {
    if '0' <= c <= '9' then Some(c as int - '0' as int)
    else if 'a' <= c <= 'f' then Some(c as int - 'a' as int + 10)
    else if 'A' <= c <= 'F' then Some(c as int - 'A' as int + 10)
    else None
  }

  function EscapeChar(c: char): string {
    if c == '"' then "\\\""
    else if c == '\\' then "\\\\"
    else if c == '\n' then "\\n"
    else if c == '\r' then "\\r"
    else if c == '\t' then "\\t"
    else if c as int == 8 then "\\b"
    else if c as int == 12 then "\\f"
    else if (c as int) < 32 then "\\u00" + [HexDigit(c as int / 16), HexDigit(c as int % 16)]
    else [c]
  }

  function EscapeAll(s: string): string {
    if s == "" then "" else EscapeChar(s[0]) + EscapeAll(s[1..])
  }

  /** A string as JSON prints it. */
  function Quote(s: string): string { "\"" + EscapeAll(s) + "\"" }

  /** The character behind a backslash escape, and what follows it. */
  function ReadEscape(s: string): (r: Option<(char, string)>)
    ensures r.Some? ==> |r.value.1| < |s|
  {
    if s == "" then None
    else if s[0] == '"' || s[0] == '\\' || s[0] == '/' then Some((s[0], s[1..]))
    else if s[0] == 'n' then Some(('\n', s[1..]))
    else if s[0] == 'r' then Some(('\r', s[1..]))
    else if s[0] == 't' then Some(('\t', s[1..]))
    else if s[0] == 'b' then Some((8 as char, s[1..]))
    else if s[0] == 'f' then Some((12 as char, s[1..]))
    else if s[0] == 'u' && |s| >= 5 then
      match (HexValue(s[1]), HexValue(s[2]), HexValue(s[3]), HexValue(s[4])) {
        case (Some(a), Some(b), Some(c), Some(d)) =>
          var code := a * 4096 + b * 256 + c * 16 + d;
          if code < 0xD800 || 0xE000 <= code < 0x10000 then Some((code as char, s[5..])) else None
        case _ => None
      }
    else None
  }

  /** What is left of a string after its opening quote, up to the closing one. */
  function ReadString(s: string): (r: Option<(string, string)>)
    ensures r.Some? ==> |r.value.1| < |s|
    decreases |s|
  {
    if s == "" then None
    else if s[0] == '"' then Some(("", s[1..]))
    else if s[0] == '\\' then
      match ReadEscape(s[1..]) {
        case None => None
        case Some((c, rest)) =>
          match ReadString(rest) {
            case None => None
            case Some((t, after)) => Some(([c] + t, after))
          }
      }
    else if (s[0] as int) < 32 then None
    else
      match ReadString(s[1..]) {
        case None => None
        case Some((t, after)) => Some(([s[0]] + t, after))
      }
  }

  lemma ReadEscaped(c: char, rest: string)
    requires |EscapeChar(c)| > 1
    ensures EscapeChar(c)[0] == '\\'
    ensures ReadEscape(EscapeChar(c)[1..] + rest) == Some((c, rest))
  {
    var e := EscapeChar(c)[1..];
    var all := e + rest;
    assert all[|e|..] == rest;
    if |e| == 1 {
      hide HexDigit, HexValue;
      assert all[0] == e[0] && all[1..] == rest;
    } else {
      var a, b := c as int / 16, c as int % 16;
      assert e == "u00" + [HexDigit(a), HexDigit(b)];
      ReadHex(a, b, rest);
      assert all == "u00" + [HexDigit(a), HexDigit(b)] + rest;
    }
  }

  /** How a character is printed, as the runtime does it. */
  lemma EscapedAs(c: char)
    ensures EscapeChar('"') == "\\\"" && EscapeChar('\\') == "\\\\" && EscapeChar('\n') == "\\n" && EscapeChar('\r') == "\\r"
    ensures EscapeChar('\t') == "\\t" && EscapeChar(8 as char) == "\\b" && EscapeChar(12 as char) == "\\f"
    ensures c as int >= 32 && c !in "\"\\" ==> EscapeChar(c) == [c]
  {
  }

  /** What each escape stands for, as section 7 of RFC 8259 has it. */
  lemma EscapeStandsFor(c: char, rest: string)
    requires c != 'u'
    ensures ReadEscape([c] + rest)
         == if c in "\"\\/" then Some((c, rest))
            else if c == 'n' then Some(('\n', rest))
            else if c == 'r' then Some(('\r', rest))
            else if c == 't' then Some(('\t', rest))
            else if c == 'b' then Some((8 as char, rest))
            else if c == 'f' then Some((12 as char, rest))
            else None
  {
    hide HexValue;
    assert ([c] + rest)[1..] == rest;
  }

  lemma HexBack(n: nat)
    requires n < 16
    ensures HexValue(HexDigit(n)) == Some(n)
  {
  }

  lemma ReadHex(a: nat, b: nat, rest: string)
    requires a < 2 && b < 16
    ensures ReadEscape("u00" + [HexDigit(a), HexDigit(b)] + rest) == Some(((a * 16 + b) as char, rest))
  {
    hide HexDigit, HexValue;
    var all := "u00" + [HexDigit(a), HexDigit(b)] + rest;
    assert all[1] == '0' && all[2] == '0' && all[3] == HexDigit(a) && all[4] == HexDigit(b) && all[5..] == rest;
    HexBack(a);
    HexBack(b);
    HexBack(0);
    assert HexDigit(0) == '0' by { ZeroDigit(); }
  }

  lemma ZeroDigit()
    ensures HexDigit(0) == '0'
  {
  }

  lemma ReadOneMore(c: char, after: string, t: string, rest: string)
    requires ReadString(after) == Some((t, rest))
    ensures ReadString(EscapeChar(c) + after) == Some(([c] + t, rest))
  {
    hide ReadEscape, HexDigit, HexValue;
    var e := EscapeChar(c);
    var s := e + after;
    if |e| > 1 {
      hide EscapeChar;
      ReadEscaped(c, after);
      assert s[0] == '\\' && s[1..] == e[1..] + after;
    } else {
      assert e == [c] && s[0] == c && s[1..] == after;
    }
  }

  lemma {:induction false} ReadQuoted(s: string, rest: string)
    ensures ReadString(EscapeAll(s) + ("\"" + rest)) == Some((s, rest))
  {
    hide EscapeChar;
    if s == "" {
      assert EscapeAll(s) + ("\"" + rest) == "\"" + rest && ("\"" + rest)[1..] == rest;
    } else {
      hide ReadString;
      ReadQuoted(s[1..], rest);
      ReadOneMore(s[0], EscapeAll(s[1..]) + ("\"" + rest), s[1..], rest);
      assert s == [s[0]] + s[1..];
      assert EscapeAll(s) + ("\"" + rest) == EscapeChar(s[0]) + (EscapeAll(s[1..]) + ("\"" + rest));
    }
  }

  // -------------------------------------------------------------------------
  // Printing
  // -------------------------------------------------------------------------

  /** A line break at an indent, or nothing when printing on one line. */
  function NewLine(gap: string, indent: string): string {
    if gap == "" then "" else "\n" + indent
  }

  function Stringify(v: Json, gap: string, indent: string): string
    decreases v, 2
  {
    match v
    case JNull => "null"
    case JBool(b) => if b then "true" else "false"
    case JNum(t) => t
    case JInfinity(_) => "null"
    case JStr(s) => Quote(s)
    case JArr(items) =>
      if items == [] then "[]"
      else "[" + NewLine(gap, indent + gap) + PrintItems(items, gap, indent + gap) + NewLine(gap, indent) + "]"
    case JObj(fields) =>
      if fields == [] then "{}"
      else "{" + NewLine(gap, indent + gap) + PrintFields(fields, gap, indent + gap) + NewLine(gap, indent) + "}"
  }

  function PrintItems(items: seq<Json>, gap: string, indent: string): string
    requires items != []
    decreases items, 1
  {
    Stringify(items[0], gap, indent)
    + if |items| == 1 then "" else "," + NewLine(gap, indent) + PrintItems(items[1..], gap, indent)
  }

  function PrintFields(fields: seq<Field<Json>>, gap: string, indent: string): string
    requires fields != []
    decreases fields, 1
  {
    Quote(fields[0].key) + (":" + (if gap == "" then "" else " ")) + Stringify(fields[0].value, gap, indent)
    + if |fields| == 1 then "" else "," + NewLine(gap, indent) + PrintFields(fields[1..], gap, indent)
  }

  /** An object with one field, on one line, or on lines of its own with the field one gap further in. */
  lemma ObjectPrints(key: string, v: Json, gap: string, indent: string)
    ensures Stringify(JObj([Field(key, v)]), "", indent) == "{" + "" + (Quote(key) + ":" + Stringify(v, "", indent + "")) + "" + "}"
    ensures gap != "" ==>
              Stringify(JObj([Field(key, v)]), gap, indent)
              == "{" + ("\n" + (indent + gap)) + (Quote(key) + ": " + Stringify(v, gap, indent + gap)) + ("\n" + indent) + "}"
  {
    hide Quote, PrintFields;
    OneField(key, v, "", indent + "");
    OneField(key, v, gap, indent + gap);
  }

  lemma OneField(key: string, v: Json, gap: string, indent: string)
    ensures PrintFields([Field(key, v)], gap, indent) == Quote(key) + (if gap == "" then ":" else ": ") + Stringify(v, gap, indent)
  {
    hide Quote;
  }

  /** A further field follows a comma, on a line of its own when printed on lines. */
  lemma MoreFieldsPrint(fields: seq<Field<Json>>, key: string, v: Json, gap: string, indent: string)
    requires fields != []
    ensures PrintFields([Field(key, v)] + fields, gap, indent)
         == Quote(key) + (if gap == "" then ":" else ": ") + Stringify(v, gap, indent)
            + ("," + (if gap == "" then "" else "\n" + indent) + PrintFields(fields, gap, indent))
  {
    hide Quote;
    assert ([Field(key, v)] + fields)[1..] == fields;
  }

  /** And so does a further item. */
  lemma MoreItemsPrint(items: seq<Json>, v: Json, gap: string, indent: string)
    requires items != []
    ensures PrintItems([v] + items, gap, indent)
         == Stringify(v, gap, indent) + ("," + (if gap == "" then "" else "\n" + indent) + PrintItems(items, gap, indent))
  {
    assert ([v] + items)[1..] == items;
  }

  // -------------------------------------------------------------------------
  // Parsing
  // -------------------------------------------------------------------------

  /** White space as section 2 of RFC 8259 has it. */
  predicate IsBlank(c: char) { c == ' ' || c == '\n' || c == '\t' || c == '\r' }

  function SkipSpace(s: string): (r: string)
    ensures |r| <= |s|
  {
    if s != "" && IsBlank(s[0]) then SkipSpace(s[1..]) else s
  }

  predicate StartsWith(s: string, c: char) { s != "" && s[0] == c }

  /** A field added to an object; a repeated key takes the later value. */
  function Put(fields: seq<Field<Json>>, key: string, v: Json): seq<Field<Json>> {
    if fields == [] then [Field(key, v)]
    else if fields[0].key == key then [Field(key, v)] + fields[1..]
    else [fields[0]] + Put(fields[1..], key, v)
  }

  function NumberOf(text: string, show: NumberPrinter): Json {
    match show(text)
    case Some(t) => JNum(t)
    case None => JInfinity(text != "" && text[0] == '-')
  }

  function ParseValue(text: string, show: NumberPrinter): (r: Option<(Json, string)>)
    ensures r.Some? ==> |r.value.1| < |text|
    decreases |text|, 2
  {
    var s := SkipSpace(text);
    if s == "" then None
    else if s[0] == '"' then
      match ReadString(s[1..]) {
        case None => None
        case Some((t, rest)) => Some((JStr(t), rest))
      }
    else if s[0] == '[' then
      if StartsWith(SkipSpace(s[1..]), ']') then Some((JArr([]), SkipSpace(s[1..])[1..]))
      else ParseItems(s[1..], [], show)
    else if s[0] == '{' then
      if StartsWith(SkipSpace(s[1..]), '}') then Some((JObj([]), SkipSpace(s[1..])[1..]))
      else ParseFields(s[1..], [], show)
    else if "null" <= s then Some((JNull, s[4..]))
    else if "true" <= s then Some((JBool(true), s[4..]))
    else if "false" <= s then Some((JBool(false), s[5..]))
    else
      var n := NumberRun(s);
      if IsNumber(s[..n]) then Some((NumberOf(s[..n], show), s[n..])) else None
  }

  function ParseItems(text: string, items: seq<Json>, show: NumberPrinter): (r: Option<(Json, string)>)
    ensures r.Some? ==> |r.value.1| < |text|
    decreases |text|, 3
  {
    match ParseValue(text, show)
    case None => None
    case Some((v, after)) =>
      var s := SkipSpace(after);
      if StartsWith(s, ',') then ParseItems(s[1..], items + [v], show)
      else if StartsWith(s, ']') then Some((JArr(items + [v]), s[1..]))
      else None
  }

  function ParseFields(text: string, fields: seq<Field<Json>>, show: NumberPrinter): (r: Option<(Json, string)>)
    ensures r.Some? ==> |r.value.1| < |text|
    decreases |text|, 3
  {
    var s := SkipSpace(text);
    if !StartsWith(s, '"') then None
    else
      match ReadString(s[1..])
      case None => None
      case Some((key, afterKey)) =>
        var colon := SkipSpace(afterKey);
        if !StartsWith(colon, ':') then None
        else
          match ParseValue(colon[1..], show)
          case None => None
          case Some((v, after)) =>
            var t := SkipSpace(after);
            if StartsWith(t, ',') then ParseFields(t[1..], Put(fields, key, v), show)
            else if StartsWith(t, '}') then Some((JObj(Put(fields, key, v)), t[1..]))
            else None
  }

  /** The whole text as one value, or None when it is not JSON. */
  function Parse(text: string, show: NumberPrinter): Option<Json> {
    match ParseValue(text, show)
    case None => None
    case Some((v, rest)) => if SkipSpace(rest) == "" then Some(v) else None
  }

  // -------------------------------------------------------------------------
  // Parsing undoes printing
  // -------------------------------------------------------------------------

  predicate AllSpace(s: string) { forall c | c in s :: IsBlank(c) }

  lemma {:induction false} SkipSpaces(w: string, s: string)
    requires AllSpace(w) && (s == "" || !IsBlank(s[0]))
    ensures SkipSpace(w + s) == s
  {
    if w == "" {
      assert w + s == s;
    } else {
      assert (w + s)[1..] == w[1..] + s;
      SkipSpaces(w[1..], s);
    }
  }

  /** What follows a printed value never reads as more of a number. */
  predicate Stops(rest: string) { rest == "" || !IsNumberChar(rest[0]) }

  lemma {:induction false} PutNew(fields: seq<Field<Json>>, key: string, v: Json)
    requires forall f | f in fields :: f.key != key
    ensures Put(fields, key, v) == fields + [Field(key, v)]
  {
    if fields == [] {
    } else {
      PutNew(fields[1..], key, v);
      assert fields == [fields[0]] + fields[1..];
    }
  }

  lemma PrintedStart(v: Json, gap: string, indent: string, show: NumberPrinter)
    requires WellFormed(v, show)
    ensures var t := Stringify(v, gap, indent); t != "" && !IsBlank(t[0]) && t[0] != ']' && t[0] != '}'
  {
    if v.JNum? {
      assert IsNumber(v.text);
      assert IsNumberChar(v.text[0]);
    }
  }

  lemma {:induction false} ParsePrinted(v: Json, gap: string, indent: string, w: string, rest: string, show: NumberPrinter)
    requires WellFormed(v, show) && AllSpace(gap) && AllSpace(indent) && AllSpace(w) && Stops(rest)
    ensures ParseValue(w + (Stringify(v, gap, indent) + rest), show) == Some((v, rest))
    decreases v, 2
  {
    hide ParseValue, ParseItems, ParseFields, SkipSpace, PrintItems, PrintFields, IsNumber, Quote;
    var t := Stringify(v, gap, indent);
    var s := t + rest;
    PrintedStart(v, gap, indent, show);
    assert s[0] == t[0];
    SkipSpaces(w, s);
    if v.JArr? && v.items != [] {
      ParseArray(v.items, gap, indent, rest, show);
      Bracketed("[", NewLine(gap, indent + gap), PrintItems(v.items, gap, indent + gap), NewLine(gap, indent), "]", rest);
      ParseOpen(w + s, s, show);
    } else if v.JObj? && v.fields != [] {
      ParseObject(v.fields, gap, indent, rest, show);
      Bracketed("{", NewLine(gap, indent + gap), PrintFields(v.fields, gap, indent + gap), NewLine(gap, indent), "}", rest);
      ParseOpen(w + s, s, show);
    } else {
      ParseLeaf(v, gap, indent, rest, show);
      SkipSpaces("", s);
      assert "" + s == s;
      ParseSkips(w + s, s, show);
    }
  }

  lemma Bracketed(open: string, a: string, body: string, b: string, close: string, rest: string)
    requires |open| == 1
    ensures (open + a + body + b + close + rest)[1..] == a + (body + (b + close + rest))
    ensures (open + a + body + b + close + rest)[0] == open[0]
  {
  }

  lemma ParseOpen(text: string, s: string, show: NumberPrinter)
    requires SkipSpace(text) == s && s != ""
    ensures s[0] == '[' && !StartsWith(SkipSpace(s[1..]), ']') ==> ParseValue(text, show) == ParseItems(s[1..], [], show)
    ensures s[0] == '{' && !StartsWith(SkipSpace(s[1..]), '}') ==> ParseValue(text, show) == ParseFields(s[1..], [], show)
  {
  }

  lemma ParseSkips(text: string, s: string, show: NumberPrinter)
    requires SkipSpace(text) == s && SkipSpace(s) == s
    ensures ParseValue(text, show) == ParseValue(s, show)
  {
  }

  lemma ParseWord(v: Json, rest: string, show: NumberPrinter)
    requires v.JNull? || v.JBool?
    ensures ParseValue(Stringify(v, "", "") + rest, show) == Some((v, rest))
  {
    hide ParseItems, ParseFields, ReadString, NumberRun, IsNumber;
    var t := Stringify(v, "", "");
    assert (t + rest)[..|t|] == t && (t + rest)[|t|..] == rest;
    match v
    case JNull => assert "null" <= t + rest;
    case JBool(b) => if b { assert "true" <= t + rest; } else { assert "false" <= t + rest; }
  }

  lemma ParseNumberAs(n: string, rest: string, show: NumberPrinter)
    requires IsNumber(n) && Stops(rest)
    ensures ParseValue(n + rest, show) == Some((NumberOf(n, show), rest))
    ensures SkipSpace(n + rest) == n + rest
  {
    hide ParseValue, NumberOf;
    NumberRunStops(n, rest);
    var s := n + rest;
    assert s[..|n|] == n && s[|n|..] == rest;
    NumberStart(n);
    assert s[0] == n[0];
    ParseNumberRun(s, show);
  }

  lemma ParseNumberRun(s: string, show: NumberPrinter)
    requires s != "" && IsNumberChar(s[0]) && IsNumber(s[..NumberRun(s)])
    ensures ParseValue(s, show) == Some((NumberOf(s[..NumberRun(s)], show), s[NumberRun(s)..]))
  {
    hide ParseItems, ParseFields, ReadString, NumberOf, IsNumber, NumberRun;
  }

  lemma NumberStart(n: string)
    requires IsNumber(n)
    ensures n != "" && IsNumberChar(n[0])
  {
  }

  lemma ParseNumber(n: string, rest: string, show: NumberPrinter)
    requires WellFormed(JNum(n), show) && Stops(rest)
    ensures ParseValue(n + rest, show) == Some((JNum(n), rest))
  {
    hide ParseValue, IsNumber;
    ParseNumberAs(n, rest, show);
  }

  lemma ParseText(q: string, rest: string, show: NumberPrinter)
    ensures ParseValue(Quote(q) + rest, show) == Some((JStr(q), rest))
  {
    hide ParseItems, ParseFields, ReadString, EscapeAll, IsNumber, NumberRun;
    ReadQuoted(q, rest);
    var s := Quote(q) + rest;
    assert s[0] == '"' && s[1..] == EscapeAll(q) + ("\"" + rest);
  }

  lemma ParseEmpty(rest: string, show: NumberPrinter)
    ensures ParseValue("[]" + rest, show) == Some((JArr([]), rest))
    ensures ParseValue("{}" + rest, show) == Some((JObj([]), rest))
  {
    hide ParseItems, ParseFields, ReadString, IsNumber, NumberRun;
    var a, b := "[]" + rest, "{}" + rest;
    assert a[1..] == "]" + rest && b[1..] == "}" + rest;
    assert ("]" + rest)[1..] == rest && ("}" + rest)[1..] == rest;
  }

  lemma ParseLeaf(v: Json, gap: string, indent: string, rest: string, show: NumberPrinter)
    requires WellFormed(v, show) && Stops(rest)
    requires !(v.JArr? && v.items != []) && !(v.JObj? && v.fields != [])
    ensures ParseValue(Stringify(v, gap, indent) + rest, show) == Some((v, rest))
  {
    hide ParseValue, Quote;
    match v
    case JNull => ParseWord(v, rest, show);
    case JBool(_) => ParseWord(v, rest, show);
    case JNum(n) => ParseNumber(n, rest, show);
    case JStr(q) => ParseText(q, rest, show);
    case JArr(_) => ParseEmpty(rest, show);
    case JObj(_) => ParseEmpty(rest, show);
  }

  lemma {:induction false} ParseArray(items: seq<Json>, gap: string, indent: string, rest: string, show: NumberPrinter)
    requires items != [] && AllSpace(gap) && AllSpace(indent)
    requires forall x | x in items :: WellFormed(x, show)
    ensures var text := NewLine(gap, indent + gap) + (PrintItems(items, gap, indent + gap) + (NewLine(gap, indent) + "]" + rest));
            ParseItems(text, [], show) == Some((JArr(items), rest)) && !StartsWith(SkipSpace(text), ']')
    decreases items, 1
  {
    var inner := indent + gap;
    var tail := NewLine(gap, indent) + "]" + rest;
    var text := NewLine(gap, inner) + (PrintItems(items, gap, inner) + tail);
    ParsePrintedItems([], items, gap, inner, NewLine(gap, inner), NewLine(gap, indent), rest, show);
    PrintedStart(items[0], gap, inner, show);
    SkipSpaces(NewLine(gap, inner), PrintItems(items, gap, inner) + tail);
    assert [] + items == items;
  }

  /** A list's items as text: the last one, or one and the rest after a comma. */
  lemma ItemTexts(items: seq<Json>, gap: string, inner: string, tail: string)
    requires items != []
    ensures var first := Stringify(items[0], gap, inner);
            && (|items| == 1 ==> PrintItems(items, gap, inner) + tail == first + tail)
            && (|items| > 1 ==>
                PrintItems(items, gap, inner) + tail == first + ("," + (NewLine(gap, inner) + (PrintItems(items[1..], gap, inner) + tail))))
  {
    hide Stringify, NewLine;
    if |items| == 1 {
      var first := Stringify(items[0], gap, inner);
      assert first + "" == first;
    } else {
      Regroup3(Stringify(items[0], gap, inner), NewLine(gap, inner), PrintItems(items[1..], gap, inner), tail);
    }
  }

  lemma Regroup3(a: string, b: string, c: string, d: string)
    ensures a + ("," + b + c) + d == a + ("," + (b + (c + d)))
  {
  }

  lemma Closing(close: string, bracket: char, rest: string)
    requires AllSpace(close) && !IsBlank(bracket) && !IsNumberChar(bracket)
    ensures close + [bracket] + rest == close + ([bracket] + rest)
    ensures SkipSpace(close + [bracket] + rest) == [bracket] + rest && ([bracket] + rest)[1..] == rest
    ensures Stops(close + [bracket] + rest)
  {
    SkipSpaces(close, [bracket] + rest);
    assert close + [bracket] + rest == close + ([bracket] + rest);
    assert close != "" ==> close[0] in close;
  }

  lemma Comma(next: string)
    ensures SkipSpace("," + next) == "," + next && ("," + next)[1..] == next && Stops("," + next)
  {
  }

  lemma {:induction false} ParsePrintedItems(done: seq<Json>, items: seq<Json>, gap: string, inner: string, w: string, close: string, rest: string, show: NumberPrinter)
    requires items != [] && AllSpace(gap) && AllSpace(inner) && AllSpace(w) && AllSpace(close)
    requires forall x | x in items :: WellFormed(x, show)
    ensures ParseItems(w + (PrintItems(items, gap, inner) + (close + "]" + rest)), done, show) == Some((JArr(done + items), rest))
    decreases items, 0
  {
    hide ParseValue, ParseItems, ParseFields, SkipSpace, Stringify, PrintItems, Stops, WellFormed;
    var first := Stringify(items[0], gap, inner);
    var tail := close + "]" + rest;
    ItemTexts(items, gap, inner, tail);
    if |items| == 1 {
      Closing(close, ']', rest);
      ParsePrinted(items[0], gap, inner, w, tail, show);
      assert done + [items[0]] == done + items;
      ItemsStep(w + (first + tail), done, items[0], tail, "]" + rest, show);
    } else {
      var next := NewLine(gap, inner) + (PrintItems(items[1..], gap, inner) + tail);
      Comma(next);
      ParsePrinted(items[0], gap, inner, w, "," + next, show);
      ItemsStep(w + (first + ("," + next)), done, items[0], "," + next, "," + next, show);
      ParsePrintedItems(done + [items[0]], items[1..], gap, inner, NewLine(gap, inner), close, rest, show);
      assert done + [items[0]] + items[1..] == done + items;
    }
  }

  lemma ItemsStep(text: string, done: seq<Json>, v: Json, after: string, s: string, show: NumberPrinter)
    requires ParseValue(text, show) == Some((v, after)) && SkipSpace(after) == s
    ensures StartsWith(s, ',') ==> ParseItems(text, done, show) == ParseItems(s[1..], done + [v], show)
    ensures StartsWith(s, ']') ==> ParseItems(text, done, show) == Some((JArr(done + [v]), s[1..]))
  {
  }

  lemma {:induction false} ParseObject(fields: seq<Field<Json>>, gap: string, indent: string, rest: string, show: NumberPrinter)
    requires fields != [] && AllSpace(gap) && AllSpace(indent) && DistinctKeys(fields)
    requires forall f | f in fields :: WellFormed(f.value, show)
    ensures var text := NewLine(gap, indent + gap) + (PrintFields(fields, gap, indent + gap) + (NewLine(gap, indent) + "}" + rest));
            ParseFields(text, [], show) == Some((JObj(fields), rest)) && !StartsWith(SkipSpace(text), '}')
    decreases fields, 1
  {
    var inner := indent + gap;
    var tail := NewLine(gap, indent) + "}" + rest;
    ParsePrintedFields([], fields, gap, inner, NewLine(gap, inner), NewLine(gap, indent), rest, show);
    SkipSpaces(NewLine(gap, inner), PrintFields(fields, gap, inner) + tail);
    assert [] + fields == fields;
  }

  function Colon(gap: string): string { if gap == "" then "" else " " }

  /** What follows an object's first field. */
  function MoreFields(fields: seq<Field<Json>>, gap: string, inner: string): string
    requires fields != []
  {
    if |fields| == 1 then "" else "," + NewLine(gap, inner) + PrintFields(fields[1..], gap, inner)
  }

  lemma FirstField(fields: seq<Field<Json>>, gap: string, inner: string)
    requires fields != []
    ensures PrintFields(fields, gap, inner)
         == ("\"" + EscapeAll(fields[0].key) + "\"") + (":" + Colon(gap)) + Stringify(fields[0].value, gap, inner) + MoreFields(fields, gap, inner)
  {
    hide Stringify, NewLine, EscapeAll;
  }

  lemma MoreText(fields: seq<Field<Json>>, gap: string, inner: string, tail: string)
    requires fields != []
    ensures MoreFields(fields, gap, inner) + tail
         == if |fields| == 1 then tail else "," + (NewLine(gap, inner) + (PrintFields(fields[1..], gap, inner) + tail))
  {
    hide PrintFields, NewLine;
    assert "" + tail == tail;
  }

  /** An object's fields as text: the last one, or one and the rest after a comma. */
  lemma FieldTexts(fields: seq<Field<Json>>, gap: string, inner: string, tail: string)
    requires fields != []
    ensures var after := if |fields| == 1 then tail
                         else "," + (NewLine(gap, inner) + (PrintFields(fields[1..], gap, inner) + tail));
            PrintFields(fields, gap, inner) + tail
            == "\"" + (EscapeAll(fields[0].key) + ("\"" + (":" + (Colon(gap) + (Stringify(fields[0].value, gap, inner) + after)))))
  {
    hide Stringify, NewLine, EscapeAll, PrintFields, MoreFields, Colon;
    FirstField(fields, gap, inner);
    MoreText(fields, gap, inner, tail);
    KeyedText(EscapeAll(fields[0].key), Colon(gap), Stringify(fields[0].value, gap, inner), MoreFields(fields, gap, inner), tail);
  }

  lemma KeyedText(key: string, colon: string, value: string, more: string, tail: string)
    ensures ("\"" + key + "\"") + (":" + colon) + value + more + tail
         == "\"" + (key + ("\"" + (":" + (colon + (value + (more + tail))))))
  {
  }

  lemma NextKeyIsNew(done: seq<Field<Json>>, fields: seq<Field<Json>>)
    requires fields != [] && DistinctKeys(done + fields)
    ensures forall f | f in done :: f.key != fields[0].key
    ensures done + [fields[0]] + fields[1..] == done + fields
  {
    forall f | f in done ensures f.key != fields[0].key {
      var i :| 0 <= i < |done| && done[i] == f;
      assert (done + fields)[i] == f && (done + fields)[|done|] == fields[0];
    }
  }

  lemma {:induction false} ParsePrintedFields(done: seq<Field<Json>>, fields: seq<Field<Json>>, gap: string, inner: string, w: string, close: string, rest: string, show: NumberPrinter)
    requires fields != [] && AllSpace(gap) && AllSpace(inner) && AllSpace(w) && AllSpace(close)
    requires DistinctKeys(done + fields)
    requires forall f | f in fields :: WellFormed(f.value, show)
    ensures ParseFields(w + (PrintFields(fields, gap, inner) + (close + "}" + rest)), done, show) == Some((JObj(done + fields), rest))
    decreases fields, 0
  {
    hide ParseValue, ParseItems, ParseFields, SkipSpace, Stringify, ReadString, EscapeAll, Put, PrintFields, Stops, DistinctKeys, WellFormed;
    var Field(key, v) := fields[0];
    NextKeyIsNew(done, fields);
    PutNew(done, key, v);
    var tail := close + "}" + rest;
    FieldTexts(fields, gap, inner, tail);
    if |fields| == 1 {
      Closing(close, '}', rest);
      ParsePrinted(v, gap, inner, Colon(gap), tail, show);
      assert done + [Field(key, v)] == done + fields;
      FieldsStep(w, done, key, Colon(gap) + (Stringify(v, gap, inner) + tail), v, tail, "}" + rest, show);
    } else {
      var next := NewLine(gap, inner) + (PrintFields(fields[1..], gap, inner) + tail);
      Comma(next);
      ParsePrinted(v, gap, inner, Colon(gap), "," + next, show);
      FieldsStep(w, done, key, Colon(gap) + (Stringify(v, gap, inner) + ("," + next)), v, "," + next, "," + next, show);
      ParsePrintedFields(done + [Field(key, v)], fields[1..], gap, inner, NewLine(gap, inner), close, rest, show);
    }
  }

  lemma FieldsStep(w: string, done: seq<Field<Json>>, key: string, value: string, v: Json, after: string, s: string, show: NumberPrinter)
    requires AllSpace(w) && ParseValue(value, show) == Some((v, after)) && SkipSpace(after) == s
    ensures var text := w + ("\"" + (EscapeAll(key) + ("\"" + (":" + value))));
            && (StartsWith(s, ',') ==> ParseFields(text, done, show) == ParseFields(s[1..], Put(done, key, v), show))
            && (StartsWith(s, '}') ==> ParseFields(text, done, show) == Some((JObj(Put(done, key, v)), s[1..])))
  {
    hide ParseValue, EscapeAll, Put;
    FieldText(w, key, value);
  }

  /** How a key and its colon read, whatever follows. */
  lemma FieldText(w: string, key: string, value: string)
    requires AllSpace(w)
    ensures var body := "\"" + (EscapeAll(key) + ("\"" + (":" + value)));
            && SkipSpace(w + body) == body && StartsWith(body, '"')
            && ReadString(body[1..]) == Some((key, ":" + value))
            && SkipSpace(":" + value) == ":" + value && (":" + value)[1..] == value
  {
    hide ReadString, EscapeAll;
    var body := "\"" + (EscapeAll(key) + ("\"" + (":" + value)));
    SkipSpaces(w, body);
    assert body[1..] == EscapeAll(key) + ("\"" + (":" + value));
    ReadQuoted(key, ":" + value);
  }

  /** Reading back what was printed, on one line or indented, gives the same value. */
  lemma ParseStringify(v: Json, gap: string, show: NumberPrinter)
    requires WellFormed(v, show) && AllSpace(gap)
    ensures Parse(Stringify(v, gap, ""), show) == Some(v)
  {
    ParsePrinted(v, gap, "", "", "", show);
    var t := Stringify(v, gap, "");
    assert "" + (t + "") == t;
  }

  // -------------------------------------------------------------------------
  // What is parsed
  // -------------------------------------------------------------------------

  /** A number in range prints as JSON, and what was printed prints unchanged. */
  ghost predicate NumberLaw(show: NumberPrinter) {
    forall t | IsNumber(t) && show(t).Some? :: IsNumber(show(t).value) && show(show(t).value) == show(t)
  }

  /** The law leaves room for numbers past the range. */
  lemma LawAllowsOverflow(t: string)
    ensures var show: NumberPrinter := s => if s == t then None else Some(s);
            NumberLaw(show) && show(t) == None
  {
  }

  lemma {:induction false} PutDistinct(fields: seq<Field<Json>>, key: string, v: Json)
    requires DistinctKeys(fields)
    ensures var r := Put(fields, key, v);
            DistinctKeys(r) && forall f | f in r :: f == Field(key, v) || f in fields
  {
    if fields != [] && fields[0].key != key {
      var t := fields[1..];
      assert forall i | 0 <= i < |t| :: t[i] == fields[i + 1];
      PutDistinct(t, key, v);
      var r := Put(t, key, v);
      forall f | f in r ensures f.key != fields[0].key && (f == Field(key, v) || f in fields) {
        if f != Field(key, v) {
          var i :| 0 <= i < |t| && t[i] == f;
          assert fields[i + 1] == f;
        }
      }
      assert Put(fields, key, v) == [fields[0]] + r;
    } else if fields != [] {
      assert forall i | 1 <= i < |fields| :: fields[1..][i - 1] == fields[i];
    }
  }

  lemma PutParsed(fields: seq<Field<Json>>, key: string, v: Json, show: NumberPrinter)
    requires Parsed(JObj(fields), show) && Parsed(v, show)
    ensures Parsed(JObj(Put(fields, key, v)), show)
  {
    PutDistinct(fields, key, v);
  }

  /** What is read has no repeated keys, and its numbers are as printed or past the range. */
  lemma {:induction false} ParseParsed(text: string, show: NumberPrinter)
    requires NumberLaw(show) && ParseValue(text, show).Some?
    ensures Parsed(ParseValue(text, show).value.0, show)
    decreases |text|, 2
  {
    hide ReadString, IsNumber, NumberRun;
    var s := SkipSpace(text);
    if s[0] == '[' && !StartsWith(SkipSpace(s[1..]), ']') {
      ParseItemsParsed(s[1..], [], show);
    } else if s[0] == '{' && !StartsWith(SkipSpace(s[1..]), '}') {
      ParseFieldsParsed(s[1..], [], show);
    }
  }

  lemma {:induction false} ParseItemsParsed(text: string, items: seq<Json>, show: NumberPrinter)
    requires NumberLaw(show) && ParseItems(text, items, show).Some?
    requires forall v | v in items :: Parsed(v, show)
    ensures Parsed(ParseItems(text, items, show).value.0, show)
    decreases |text|, 3
  {
    ParseParsed(text, show);
    var (v, after) := ParseValue(text, show).value;
    var s := SkipSpace(after);
    if StartsWith(s, ',') {
      ParseItemsParsed(s[1..], items + [v], show);
    }
  }

  lemma {:induction false} ParseFieldsParsed(text: string, fields: seq<Field<Json>>, show: NumberPrinter)
    requires NumberLaw(show) && ParseFields(text, fields, show).Some?
    requires Parsed(JObj(fields), show)
    ensures Parsed(ParseFields(text, fields, show).value.0, show)
    decreases |text|, 3
  {
    var s := SkipSpace(text);
    var (key, afterKey) := ReadString(s[1..]).value;
    var colon := SkipSpace(afterKey);
    ParseParsed(colon[1..], show);
    var (v, after) := ParseValue(colon[1..], show).value;
    PutParsed(fields, key, v, show);
    var t := SkipSpace(after);
    if StartsWith(t, ',') {
      ParseFieldsParsed(t[1..], Put(fields, key, v), show);
    }
  }

  // -------------------------------------------------------------------------
  // Values as they print
  // -------------------------------------------------------------------------

  /** A value with every number past the range as the null it prints. */
  function AsPrinted(v: Json): Json
    decreases v, 1
  {
    match v
    case JInfinity(_) => JNull
    case JArr(items) => JArr(AllAsPrinted(items))
    case JObj(fields) => JObj(FieldsAsPrinted(fields))
    case _ => v
  }

  function AllAsPrinted(items: seq<Json>): (r: seq<Json>)
    ensures |r| == |items|
    ensures forall i | 0 <= i < |items| :: r[i] == AsPrinted(items[i])
    decreases items, 0
  {
    if items == [] then [] else [AsPrinted(items[0])] + AllAsPrinted(items[1..])
  }

  function FieldsAsPrinted(fields: seq<Field<Json>>): (r: seq<Field<Json>>)
    ensures |r| == |fields|
    ensures forall i | 0 <= i < |fields| :: r[i] == Field(fields[i].key, AsPrinted(fields[i].value))
    decreases fields, 0
  {
    if fields == [] then [] else [Field(fields[0].key, AsPrinted(fields[0].value))] + FieldsAsPrinted(fields[1..])
  }

  lemma {:induction false} PrintsAlike(v: Json, gap: string, indent: string)
    ensures Stringify(AsPrinted(v), gap, indent) == Stringify(v, gap, indent)
    decreases v, 2
  {
    match v
    case JArr(items) => if items != [] { ItemsPrintAlike(items, gap, indent + gap); }
    case JObj(fields) => if fields != [] { FieldsPrintAlike(fields, gap, indent + gap); }
    case _ =>
  }

  lemma {:induction false} ItemsPrintAlike(items: seq<Json>, gap: string, indent: string)
    requires items != []
    ensures PrintItems(AllAsPrinted(items), gap, indent) == PrintItems(items, gap, indent)
    decreases items, 1
  {
    hide Stringify, AsPrinted;
    PrintsAlike(items[0], gap, indent);
    if |items| > 1 {
      ItemsPrintAlike(items[1..], gap, indent);
      assert AllAsPrinted(items)[1..] == AllAsPrinted(items[1..]);
    }
  }

  lemma {:induction false} FieldsPrintAlike(fields: seq<Field<Json>>, gap: string, indent: string)
    requires fields != []
    ensures PrintFields(FieldsAsPrinted(fields), gap, indent) == PrintFields(fields, gap, indent)
    decreases fields, 1
  {
    hide Stringify, AsPrinted, Quote;
    PrintsAlike(fields[0].value, gap, indent);
    if |fields| > 1 {
      FieldsPrintAlike(fields[1..], gap, indent);
      assert FieldsAsPrinted(fields)[1..] == FieldsAsPrinted(fields[1..]);
    }
  }

  lemma {:induction false} PrintedIsWellFormed(v: Json, show: NumberPrinter)
    requires Parsed(v, show)
    ensures WellFormed(AsPrinted(v), show)
    decreases v
  {
    match v
    case JArr(items) =>
      var r := AllAsPrinted(items);
      forall i | 0 <= i < |items| ensures WellFormed(r[i], show) { PrintedIsWellFormed(items[i], show); }
    case JObj(fields) =>
      var r := FieldsAsPrinted(fields);
      forall i | 0 <= i < |fields| ensures WellFormed(r[i].value, show) { PrintedIsWellFormed(fields[i].value, show); }
    case _ =>
  }

  /** A value prints as itself exactly when no number in it is past the range. */
  lemma {:induction false} InRangePrintsItself(v: Json)
    ensures AsPrinted(v) == v <==> InRange(v)
    decreases v
  {
    match v
    case JArr(items) =>
      var r := AllAsPrinted(items);
      forall i | 0 <= i < |items| ensures r[i] == items[i] <==> InRange(items[i]) { InRangePrintsItself(items[i]); }
      assert r == items <==> forall i | 0 <= i < |items| :: r[i] == items[i];
    case JObj(fields) =>
      var r := FieldsAsPrinted(fields);
      forall i | 0 <= i < |fields| ensures r[i] == fields[i] <==> InRange(fields[i].value) { InRangePrintsItself(fields[i].value); }
      assert r == fields <==> forall i | 0 <= i < |fields| :: r[i] == fields[i];
    case _ =>
  }

  lemma {:induction false} WellFormedIsInRange(v: Json, show: NumberPrinter)
    ensures WellFormed(v, show) <==> Parsed(v, show) && InRange(v)
    decreases v
  {
    match v
    case JArr(items) =>
      forall x | x in items ensures WellFormed(x, show) <==> Parsed(x, show) && InRange(x) { WellFormedIsInRange(x, show); }
    case JObj(fields) =>
      forall f | f in fields ensures WellFormed(f.value, show) <==> Parsed(f.value, show) && InRange(f.value) {
        WellFormedIsInRange(f.value, show);
      }
    case _ =>
  }

  /** Printed text reads back as what it prints, so as the value itself exactly when no number is past the range. */
  lemma ReadsBack(v: Json, gap: string, show: NumberPrinter)
    requires Parsed(v, show) && AllSpace(gap)
    ensures Parse(Stringify(v, gap, ""), show) == Some(AsPrinted(v))
    ensures Parse(Stringify(v, gap, ""), show) == Some(v) <==> InRange(v)
  {
    hide Parse, Stringify, AsPrinted, InRange, Parsed, WellFormed;
    PrintsAlike(v, gap, "");
    PrintedIsWellFormed(v, show);
    ParseStringify(AsPrinted(v), gap, show);
    InRangePrintsItself(v);
  }

  lemma ParseSpacedNumber(n: string, rest: string, show: NumberPrinter)
    requires IsNumber(n) && Stops(rest)
    ensures ParseValue(" " + (n + rest), show) == Some((NumberOf(n, show), rest))
  {
    hide ParseValue, IsNumber, NumberOf;
    ParseNumberAs(n, rest, show);
    NumberStart(n);
    assert (n + rest)[0] == n[0];
    SkipSpaces(" ", n + rest);
    ParseSkips(" " + (n + rest), n + rest, show);
  }

  /** An object with one number in it, as someone would type it. */
  lemma ParseOneNumber(n: string, show: NumberPrinter)
    requires IsNumber(n)
    ensures Parse("{\"a\":" + (" " + (n + "}")), show) == Some(JObj([Field("a", NumberOf(n, show))]))
  {
    hide ParseValue, ParseFields, ParseItems, ReadString, NumberOf, IsNumber;
    var value := " " + (n + "}");
    var body := "\"" + (EscapeAll("a") + ("\"" + (":" + value)));
    assert EscapeAll("a") == "a" by { assert "a"[1..] == ""; }
    var text := "{\"a\":" + value;
    assert text[0] == '{' && text[1..] == body;
    assert "}"[1..] == "";
    ParseSpacedNumber(n, "}", show);
    ParseOpen(text, text, show);
    FieldsStep("", [], "a", value, NumberOf(n, show), "}", "}", show);
    assert "" + body == body;
    assert Put([], "a", NumberOf(n, show)) == [Field("a", NumberOf(n, show))];
  }
}
