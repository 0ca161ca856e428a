/**
 * The audit log as CSV, and a reader that follows section 2 of RFC 4180 with
 * a line feed ending each line.
 */
module AuditCsv {
  import opened Text
  import opened Wrappers
  import opened Json
  import opened Audit

  datatype Kind = Models | Deployments | Keys | Tenants | Mcp | Knowledge | Settings | Gateway

  function KindLabel(k: Kind): string {
    match k
    case Models => "Models"
    case Deployments => "Deployments"
    case Keys => "Keys"
    case Tenants => "Tenants"
    case Mcp => "MCP servers"
    case Knowledge => "Knowledge"
    case Settings => "Settings"
    case Gateway => "The gateway"
  }

  function KindOf(entityType: string): Kind {
    if entityType == "model" || entityType == "model_endpoint" then Models
    else if entityType == "managed_model" || entityType == "model_replica" || entityType == "recipe" then Deployments
    else if entityType == "api_key" then Keys
    else if entityType == "tenant" || entityType == "fairshare_group" then Tenants
    else if entityType == "mcp_server" then Mcp
    else if entityType == "knowledge_collection" || entityType == "knowledge_document" then Knowledge
    else if entityType == "settings" then Settings
    else Gateway
  }

  const HEAD: seq<string> := ["id", "time", "actor", "action", "kind", "entity_type", "entity_id", "name", "detail"]

  /** One event's nine fields, before any escaping. */
  function Fields(e: Entry, names: map<string, string>): seq<string> {
    [Integer(e.id), e.ts, e.actor, e.action, KindLabel(KindOf(e.entityType)), e.entityType, e.entityId,
     if e.entityId in names then names[e.entityId] else "",
     Stringify(if e.detail.JNull? then JObj([]) else e.detail, "", "")]
  }

  // -------------------------------------------------------------------------
  // Printing
  // -------------------------------------------------------------------------

  predicate NeedsQuotes(v: string) {
    v != "" && (v[0] == '"' || v[0] == ',' || v[0] == '\n' || NeedsQuotes(v[1..]))
  }

  function DoubleQuotes(v: string): string {
    if v == "" then ""
    else (if v[0] == '"' then "\"\"" else [v[0]]) + DoubleQuotes(v[1..])
  }

  function Escape(v: string): string {
    if NeedsQuotes(v) then "\"" + DoubleQuotes(v) + "\"" else v
  }

  function EscapeEach(fields: seq<string>): seq<string> {
    if fields == [] then [] else [Escape(fields[0])] + EscapeEach(fields[1..])
  }

  function Line(fields: seq<string>): string { Join(EscapeEach(fields), ",") }

  function Lines(rows: seq<seq<string>>): seq<string> {
    if rows == [] then [] else [Line(rows[0])] + Lines(rows[1..])
  }

  function Rows(entries: seq<Entry>, names: map<string, string>): (r: seq<seq<string>>)
    ensures |r| == |entries| && forall i | 0 <= i < |r| :: |r[i]| == |HEAD|
  {
    if entries == [] then [] else [Fields(entries[0], names)] + Rows(entries[1..], names)
  }

  function ToCsv(entries: seq<Entry>, names: map<string, string>): string {
    Join([Join(HEAD, ",")] + Lines(Rows(entries, names)), "\n")
  }

  // -------------------------------------------------------------------------
  // Reading
  // -------------------------------------------------------------------------

  /** The rest of a quoted field, after its opening quote. */
  function ReadQuotedField(s: string): (r: Option<(string, string)>)
    ensures r.Some? ==> |r.value.1| < |s|
  {
    if s == "" then None
    else if s[0] == '"' then
      if |s| > 1 && s[1] == '"' then
        match ReadQuotedField(s[2..]) {
          case None => None
          case Some((v, rest)) => Some(("\"" + v, rest))
        }
      else Some(("", s[1..]))
    else
      match ReadQuotedField(s[1..])
      case None => None
      case Some((v, rest)) => Some(([s[0]] + v, rest))
  }

  /** A field without quotes, up to the next comma or line end. */
  function ReadPlainField(s: string): (r: Option<(string, string)>)
    ensures r.Some? ==> |r.value.1| <= |s|
  {
    if s == "" || s[0] == ',' || s[0] == '\n' then Some(("", s))
    else if s[0] == '"' then None
    else
      match ReadPlainField(s[1..])
      case None => None
      case Some((v, rest)) => Some(([s[0]] + v, rest))
  }

  function ReadField(s: string): (r: Option<(string, string)>)
    ensures r.Some? ==> |r.value.1| <= |s|
  {
    if s != "" && s[0] == '"' then ReadQuotedField(s[1..]) else ReadPlainField(s)
  }

  /** A record's fields, and what follows its last one: a line end, or nothing. */
  function ReadRecord(s: string): (r: Option<(seq<string>, string)>)
    ensures r.Some? ==> |r.value.1| <= |s|
    decreases |s|
  {
    match ReadField(s)
    case None => None
    case Some((v, rest)) =>
      if rest == "" || rest[0] == '\n' then Some(([v], rest))
      else if rest[0] != ',' then None
      else
        match ReadRecord(rest[1..])
        case None => None
        case Some((vs, after)) => Some(([v] + vs, after))
  }

  function ReadCsv(s: string): Option<seq<seq<string>>>
    decreases |s|
  {
    match ReadRecord(s)
    case None => None
    case Some((row, rest)) =>
      if rest == "" then Some([row])
      else
        match ReadCsv(rest[1..])
        case None => None
        case Some(rows) => Some([row] + rows)
  }

  // -------------------------------------------------------------------------
  // Reading undoes printing
  // -------------------------------------------------------------------------

  predicate EndsField(rest: string) { rest == "" || rest[0] == ',' || rest[0] == '\n' }

  lemma QuoteStep(tail: string)
    ensures ReadQuotedField("\"\"" + tail) == match ReadQuotedField(tail) {
              case None => None
              case Some((v, rest)) => Some((['"'] + v, rest))
            }
  {
    assert ("\"\"" + tail)[2..] == tail;
  }

  lemma CharStep(c: char, tail: string)
    requires c != '"'
    ensures ReadQuotedField([c] + tail) == match ReadQuotedField(tail) {
              case None => None
              case Some((v, rest)) => Some(([c] + v, rest))
            }
  {
    assert ([c] + tail)[1..] == tail;
  }

  lemma QuoteEnds(rest: string)
    requires rest == "" || rest[0] != '"'
    ensures ReadQuotedField("\"" + rest) == Some(("", rest))
  {
    assert ("\"" + rest)[1..] == rest;
  }

  lemma {:induction false} ReadDoubled(v: string, rest: string)
    requires rest == "" || rest[0] != '"'
    ensures ReadQuotedField(DoubleQuotes(v) + ("\"" + rest)) == Some((v, rest))
  {
    hide ReadQuotedField;
    if v == "" {
      QuoteEnds(rest);
      assert DoubleQuotes(v) + ("\"" + rest) == "\"" + rest;
    } else {
      var tail := DoubleQuotes(v[1..]) + ("\"" + rest);
      ReadDoubled(v[1..], rest);
      assert v == [v[0]] + v[1..];
      if v[0] == '"' {
        QuoteStep(tail);
        assert DoubleQuotes(v) + ("\"" + rest) == "\"\"" + tail;
      } else {
        CharStep(v[0], tail);
        assert DoubleQuotes(v) + ("\"" + rest) == [v[0]] + tail;
      }
    }
  }

  lemma {:induction false} ReadPlain(v: string, rest: string)
    requires !NeedsQuotes(v) && EndsField(rest)
    ensures ReadPlainField(v + rest) == Some((v, rest))
  {
    if v == "" {
      assert v + rest == rest;
    } else {
      ReadPlain(v[1..], rest);
      assert (v + rest)[1..] == v[1..] + rest && v == [v[0]] + v[1..];
    }
  }

  lemma Quoted(body: string, rest: string)
    ensures var s := "\"" + body + "\"" + rest; s[0] == '"' && s[1..] == body + ("\"" + rest)
  {
  }

  lemma ReadEscapedField(v: string, rest: string)
    requires EndsField(rest)
    ensures ReadField(Escape(v) + rest) == Some((v, rest))
  {
    hide ReadPlainField, ReadQuotedField, DoubleQuotes;
    var s := Escape(v) + rest;
    if NeedsQuotes(v) {
      ReadDoubled(v, rest);
      Quoted(DoubleQuotes(v), rest);
    } else {
      ReadPlain(v, rest);
      if v != "" { assert s[0] == v[0]; } else { assert s == rest; }
    }
  }

  lemma {:induction false} ReadLine(fields: seq<string>, rest: string)
    requires fields != [] && (rest == "" || rest[0] == '\n')
    ensures ReadRecord(Line(fields) + rest) == Some((fields, rest))
    decreases |fields|
  {
    hide ReadField, Escape;
    var texts := EscapeEach(fields);
    assert texts[1..] == EscapeEach(fields[1..]);
    if |fields| == 1 {
      ReadEscapedField(fields[0], rest);
      assert fields == [fields[0]];
    } else {
      var tail := "," + (Line(fields[1..]) + rest);
      assert Line(fields) + rest == Escape(fields[0]) + tail;
      ReadEscapedField(fields[0], tail);
      ReadLine(fields[1..], rest);
      assert tail[1..] == Line(fields[1..]) + rest;
      assert fields == [fields[0]] + fields[1..];
    }
  }

  lemma {:induction false} ReadLines(rows: seq<seq<string>>)
    requires rows != [] && forall i | 0 <= i < |rows| :: rows[i] != []
    ensures ReadCsv(Join(Lines(rows), "\n")) == Some(rows)
    decreases |rows|
  {
    var texts := Lines(rows);
    assert texts[1..] == Lines(rows[1..]);
    if |rows| == 1 {
      ReadLine(rows[0], "");
      assert Line(rows[0]) + "" == Line(rows[0]) && rows == [rows[0]];
    } else {
      var tail := "\n" + Join(Lines(rows[1..]), "\n");
      assert Join(texts, "\n") == Line(rows[0]) + tail;
      ReadLine(rows[0], tail);
      ReadLines(rows[1..]);
      assert tail[1..] == Join(Lines(rows[1..]), "\n");
      assert rows == [rows[0]] + rows[1..];
    }
  }

  /** The reader recovers the header and every field of every event printed. */
  lemma CsvRoundTrip(entries: seq<Entry>, names: map<string, string>)
    ensures ReadCsv(ToCsv(entries, names)) == Some([HEAD] + Rows(entries, names))
  {
    hide Rows, EscapeEach, ReadCsv;
    var rows := [HEAD] + Rows(entries, names);
    assert rows[1..] == Rows(entries, names);
    HeadIsPlain();
    assert Lines(rows) == [Line(HEAD)] + Lines(Rows(entries, names));
    ReadLines(rows);
  }

  lemma HeadIsPlain()
    ensures Line(HEAD) == Join(HEAD, ",")
  {
    hide NeedsQuotes, Join;
    PlainNames();
    PlainFields(HEAD);
  }

  lemma PlainNames()
    ensures forall i | 0 <= i < |HEAD| :: !NeedsQuotes(HEAD[i])
  {
    hide NeedsQuotes;
    PlainWord("id");
    PlainWord("time");
    PlainWord("actor");
    PlainWord("action");
    PlainWord("kind");
    PlainWord("entity_type");
    PlainWord("entity_id");
    PlainWord("name");
    PlainWord("detail");
  }

  lemma {:induction false} PlainWord(v: string)
    requires forall i | 0 <= i < |v| :: v[i] == '_' || 'a' <= v[i] <= 'z'
    ensures !NeedsQuotes(v)
  {
    if v == "" {
    } else {
      PlainWord(v[1..]);
    }
  }

  lemma {:induction false} PlainFields(fields: seq<string>)
    requires forall i | 0 <= i < |fields| :: !NeedsQuotes(fields[i])
    ensures EscapeEach(fields) == fields
  {
    if fields == [] {
    } else {
      PlainFields(fields[1..]);
      assert fields == [fields[0]] + fields[1..];
    }
  }

  predicate Listed(t: string) {
    t in {"model", "model_endpoint", "managed_model", "model_replica", "recipe", "api_key", "tenant", "fairshare_group", "mcp_server",
          "knowledge_collection", "knowledge_document", "settings"}
  }

  /** The kind column, by what was changed. */
  lemma KindsAre(t: string)
    ensures t in {"model", "model_endpoint"} ==> KindLabel(KindOf(t)) == "Models"
    ensures t in {"managed_model", "model_replica", "recipe"} ==> KindLabel(KindOf(t)) == "Deployments"
    ensures t == "api_key" ==> KindLabel(KindOf(t)) == "Keys"
    ensures t in {"tenant", "fairshare_group"} ==> KindLabel(KindOf(t)) == "Tenants"
    ensures t == "mcp_server" ==> KindLabel(KindOf(t)) == "MCP servers"
    ensures t in {"knowledge_collection", "knowledge_document"} ==> KindLabel(KindOf(t)) == "Knowledge"
    ensures t == "settings" ==> KindLabel(KindOf(t)) == "Settings"
    ensures !Listed(t) ==> KindLabel(KindOf(t)) == "The gateway"
  {
  }

  lemma {:induction false} RowAt(entries: seq<Entry>, names: map<string, string>, i: nat)
    requires i < |entries|
    ensures Rows(entries, names)[i] == Fields(entries[i], names)
  {
    hide Fields;
    if i > 0 { RowAt(entries[1..], names, i - 1); }
  }

  /** A reader finds the header, then each event's own fields in its row, in the order of the header. */
  lemma ColumnsAre(entries: seq<Entry>, names: map<string, string>, i: nat)
    requires i < |entries|
    ensures var read, e := ReadCsv(ToCsv(entries, names)), entries[i];
            && read.Some? && |read.value| == |entries| + 1
            && read.value[0] == ["id", "time", "actor", "action", "kind", "entity_type", "entity_id", "name", "detail"]
            && read.value[i + 1] == [
                 if e.id < 0 then "-" + Decimal(-e.id) else Decimal(e.id), e.ts, e.actor, e.action, KindLabel(KindOf(e.entityType)),
                 e.entityType, e.entityId, if e.entityId in names then names[e.entityId] else "",
                 if e.detail.JNull? then "{}" else Stringify(e.detail, "", "")]
  {
    hide ReadCsv, ToCsv, Stringify, KindOf, KindLabel;
    CsvRoundTrip(entries, names);
    RowAt(entries, names, i);
    EmptyObject();
  }

  lemma EmptyObject()
    ensures Stringify(JObj([]), "", "") == "{}"
  {
  }
}
