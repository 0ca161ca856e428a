/**
 * The canonical text of a JSON value, used to decide whether two values are
 * the same: objects print with their keys sorted at every depth.
 */
module CanonicalText {
  import opened Text
  import opened Wrappers
  import opened Json
  import opened Sorting

  /** A JSON value as what it means: nested lists and maps, without key order. */
  datatype Value =
    | Null
    | Bool(b: bool)
    | Num(text: string)
    | Infinity(negative: bool)
    | Str(s: string)
    | List(items: seq<Value>)
    | Map(entries: map<string, Value>)

  function Meaning(v: Json): Value
    decreases v, 1
  {
    match v
    case JNull => Null
    case JBool(b) => Bool(b)
    case JNum(t) => Num(t)
    case JInfinity(n) => Infinity(n)
    case JStr(s) => Str(s)
    case JArr(items) => List(seq(|items|, i requires 0 <= i < |items| => Meaning(items[i])))
    case JObj(fields) => Map(MapOf(fields))
  }

  function MapOf(fields: seq<Field<Json>>): map<string, Value>
    decreases fields, 0
  {
    if fields == [] then map[]
    else MapOf(fields[1..])[fields[0].key := Meaning(fields[0].value)]
  }

  // -------------------------------------------------------------------------
  // The program
  // -------------------------------------------------------------------------

  predicate KeyLeq<A>(a: Field<A>, b: Field<A>) { StringLeq(a.key, b.key) }

  function SortFields<A(!new)>(fields: seq<Field<A>>): seq<Field<A>> {
    Sort(fields, (a: Field<A>, b: Field<A>) => KeyLeq(a, b))
  }

  function Canonical(v: Json): string
    decreases v, 2
  {
    match v
    case JArr(items) => "[" + Join(CanonicalItems(items), ",") + "]"
    case JObj(fields) => "{" + Join(KeyedTexts(SortFields(CanonicalFields(fields))), ",") + "}"
    case _ => Stringify(v, "", "")
  }

  function CanonicalItems(items: seq<Json>): seq<string>
    decreases items, 1
  {
    if items == [] then [] else [Canonical(items[0])] + CanonicalItems(items[1..])
  }

  function CanonicalFields(fields: seq<Field<Json>>): seq<Field<string>>
    decreases fields, 1
  {
    if fields == [] then []
    else [Field(fields[0].key, Canonical(fields[0].value))] + CanonicalFields(fields[1..])
  }

  function KeyedTexts(fields: seq<Field<string>>): seq<string> {
    if fields == [] then [] else [Quote(fields[0].key) + ":" + fields[0].value] + KeyedTexts(fields[1..])
  }

  // -------------------------------------------------------------------------
  // The value with its keys sorted
  // -------------------------------------------------------------------------

  function Norm(v: Json): Json
    decreases v, 1
  {
    match v
    case JArr(items) => JArr(NormItems(items))
    case JObj(fields) => JObj(SortFields(NormFields(fields)))
    case _ => v
  }

  function NormItems(items: seq<Json>): (r: seq<Json>)
    ensures |r| == |items|
    ensures forall i | 0 <= i < |items| :: r[i] == Norm(items[i])
    decreases items, 0
  {
    if items == [] then [] else [Norm(items[0])] + NormItems(items[1..])
  }

  function NormFields(fields: seq<Field<Json>>): (r: seq<Field<Json>>)
    ensures |r| == |fields|
    ensures forall i | 0 <= i < |fields| :: r[i] == Field(fields[i].key, Norm(fields[i].value))
    decreases fields, 0
  {
    if fields == [] then []
    else [Field(fields[0].key, Norm(fields[0].value))] + NormFields(fields[1..])
  }

  lemma KeyOrder<A(!new)>()
    ensures TotalPreorder((a: Field<A>, b: Field<A>) => KeyLeq(a, b))
  {
    var leq := (a: Field<A>, b: Field<A>) => KeyLeq(a, b);
    forall x, y ensures leq(x, y) || leq(y, x) {
      StringLeqTotal(x.key, y.key);
    }
    forall x, y, z | leq(x, y) && leq(y, z) ensures leq(x, z) {
      StringLeqTransitive(x.key, y.key, z.key);
    }
  }

  lemma SortFieldsElements<A(!new)>(fields: seq<Field<A>>)
    ensures |SortFields(fields)| == |fields|
    ensures forall f :: f in SortFields(fields) <==> f in fields
  {
    SortIsPermutation(fields, (a: Field<A>, b: Field<A>) => KeyLeq(a, b));
    forall f ensures f in SortFields(fields) <==> f in fields {
      assert f in SortFields(fields) <==> f in multiset(SortFields(fields));
      assert f in fields <==> f in multiset(fields);
    }
  }

  /** Each element's key before the next one's. */
  ghost predicate StrictlySorted<A>(fields: seq<Field<A>>) {
    forall i, j | 0 <= i < j < |fields| :: StringLeq(fields[i].key, fields[j].key) && fields[i].key != fields[j].key
  }

  ghost predicate KeyIn<A>(key: string, fields: seq<Field<A>>) {
    exists i | 0 <= i < |fields| :: fields[i].key == key
  }

  lemma {:induction false} InsertDistinct<A(!new)>(x: Field<A>, s: seq<Field<A>>)
    requires DistinctKeys(s) && !KeyIn(x.key, s)
    ensures var r := Insert(x, s, (a: Field<A>, b: Field<A>) => KeyLeq(a, b));
            DistinctKeys(r) && forall k :: KeyIn(k, r) <==> k == x.key || KeyIn(k, s)
  {
    var leq := (a: Field<A>, b: Field<A>) => KeyLeq(a, b);
    var r := Insert(x, s, leq);
    if s == [] || leq(x, s[0]) {
      assert r == [x] + s;
      KeysCons(x, s);
    } else {
      var t := s[1..];
      KeysCons(s[0], t);
      assert s == [s[0]] + t;
      assert forall i | 0 <= i < |t| :: t[i] == s[i + 1];
      assert !KeyIn(s[0].key, t);
      InsertDistinct(x, t);
      KeysCons(s[0], Insert(x, t, leq));
    }
  }

  lemma KeysCons<A>(x: Field<A>, s: seq<Field<A>>)
    ensures forall k :: KeyIn(k, [x] + s) <==> k == x.key || KeyIn(k, s)
    ensures DistinctKeys(s) && !KeyIn(x.key, s) ==> DistinctKeys([x] + s)
  {
    var r := [x] + s;
    forall k ensures KeyIn(k, r) <==> k == x.key || KeyIn(k, s) {
      if KeyIn(k, s) {
        var i :| 0 <= i < |s| && s[i].key == k;
        assert r[i + 1].key == k;
      }
      if k == x.key { assert r[0].key == k; }
      if KeyIn(k, r) && k != x.key {
        var i :| 0 <= i < |r| && r[i].key == k;
        assert s[i - 1].key == k;
      }
    }
  }

  lemma {:induction false} SortFieldsDistinct<A(!new)>(fields: seq<Field<A>>)
    requires DistinctKeys(fields)
    ensures StrictlySorted(SortFields(fields)) && DistinctKeys(SortFields(fields))
    ensures forall k :: KeyIn(k, SortFields(fields)) <==> KeyIn(k, fields)
  {
    var leq := (a: Field<A>, b: Field<A>) => KeyLeq(a, b);
    KeyOrder<A>();
    SortSorts(fields, leq);
    if fields == [] {
    } else {
      var t := fields[1..];
      assert fields == [fields[0]] + t;
      assert forall i | 0 <= i < |t| :: t[i] == fields[i + 1];
      assert !KeyIn(fields[0].key, t);
      SortFieldsDistinct(t);
      InsertDistinct(fields[0], SortFields(t));
      KeysCons(fields[0], t);
    }
  }

  lemma NonEmpty<A>(b: seq<A>)
    requires b != []
    ensures exists f :: f in b
  {
    assert b[0] in b;
  }

  /** Two strictly sorted lists with the same elements are the same list. */
  lemma {:induction false} SortedUnique<A>(a: seq<Field<A>>, b: seq<Field<A>>)
    requires StrictlySorted(a) && StrictlySorted(b)
    requires forall f :: f in a <==> f in b
    ensures a == b
  {
    if a == [] {
      if b != [] { NonEmpty(b); }
    } else {
      assert a[0] in b;
      assert b[0] in a;
      var i :| 0 <= i < |b| && b[i] == a[0];
      var j :| 0 <= j < |a| && a[j] == b[0];
      StringLeqTotal(a[0].key, b[0].key);
      assert a[0] == b[0];
      forall f ensures f in a[1..] <==> f in b[1..] {
        TailElement(a, f);
        TailElement(b, f);
      }
      SortedUnique(a[1..], b[1..]);
    }
  }

  lemma TailElement<A>(a: seq<Field<A>>, f: Field<A>)
    requires a != [] && StrictlySorted(a)
    ensures f in a[1..] <==> f in a && f != a[0]
  {
    if f in a && f != a[0] {
      var i :| 0 <= i < |a| && a[i] == f;
      assert a[1..][i - 1] == f;
    }
    if f in a[1..] {
      var i :| 0 <= i < |a[1..]| && a[1..][i] == f;
      assert a[i + 1] == f && a[0].key != a[i + 1].key;
    }
  }

  // -------------------------------------------------------------------------
  // Sorting the keys keeps the meaning
  // -------------------------------------------------------------------------

  lemma KeyAmong<A>(fields: seq<Field<A>>, f: Field<A>)
    requires f in fields
    ensures KeyIn(f.key, fields)
  {
  }

  lemma FirstKeyAlone<A>(fields: seq<Field<A>>)
    requires fields != [] && DistinctKeys(fields)
    ensures DistinctKeys(fields[1..]) && !KeyIn(fields[0].key, fields[1..])
  {
  }

  lemma {:induction false} MapOfKeys(fields: seq<Field<Json>>)
    ensures forall k :: k in MapOf(fields) <==> KeyIn(k, fields)
    ensures DistinctKeys(fields) ==> forall f | f in fields :: f.key in MapOf(fields) && MapOf(fields)[f.key] == Meaning(f.value)
  {
    hide Meaning;
    if fields != [] {
      hide KeyIn, DistinctKeys;
      var t := fields[1..];
      MapOfKeys(t);
      assert fields == [fields[0]] + t;
      KeysCons(fields[0], t);
      if DistinctKeys(fields) {
        FirstKeyAlone(fields);
        forall f | f in fields ensures f.key in MapOf(fields) && MapOf(fields)[f.key] == Meaning(f.value) {
          if f != fields[0] {
            assert f in t;
            KeyAmong(t, f);
          }
        }
      }
    } else {
      assert forall k :: !KeyIn(k, fields);
    }
  }

  /** A field list and its map say the same, key by key. */
  lemma MapOfSame(a: seq<Field<Json>>, b: seq<Field<Json>>)
    requires DistinctKeys(a) && DistinctKeys(b)
    requires forall k :: KeyIn(k, a) <==> KeyIn(k, b)
    requires forall f, g | f in a && g in b && f.key == g.key :: Meaning(f.value) == Meaning(g.value)
    ensures MapOf(a) == MapOf(b)
  {
    MapOfKeys(a);
    MapOfKeys(b);
    forall k | k in MapOf(a) ensures MapOf(a)[k] == MapOf(b)[k] {
      var i :| 0 <= i < |a| && a[i].key == k;
      assert KeyIn(k, b);
      var j :| 0 <= j < |b| && b[j].key == k;
      assert a[i] in a && b[j] in b;
    }
  }

  lemma {:induction false} NormKeepsMeaning(v: Json, show: NumberPrinter)
    requires WellFormed(v, show)
    ensures WellFormed(Norm(v), show) && Meaning(Norm(v)) == Meaning(v)
    decreases v
  {
    match v
    case JArr(items) =>
      forall i | 0 <= i < |items| ensures WellFormed(Norm(items[i]), show) && Meaning(Norm(items[i])) == Meaning(items[i]) {
        NormKeepsMeaning(items[i], show);
      }
    case JObj(fields) =>
      var n := NormFields(fields);
      forall i | 0 <= i < |fields| ensures WellFormed(n[i].value, show) && Meaning(n[i].value) == Meaning(fields[i].value) {
        NormKeepsMeaning(fields[i].value, show);
      }
      assert DistinctKeys(n);
      SortFieldsDistinct(n);
      SortFieldsElements(n);
      var r := SortFields(n);
      forall k ensures KeyIn(k, r) <==> KeyIn(k, fields) {
        assert KeyIn(k, n) <==> KeyIn(k, fields) by { SameKeys(n, fields); }
      }
      forall f, g | f in r && g in fields && f.key == g.key ensures Meaning(f.value) == Meaning(g.value) {
        assert f in n;
        var i :| 0 <= i < |n| && n[i] == f;
        var j :| 0 <= j < |fields| && fields[j] == g;
        SameKeySameField(fields, i, j);
      }
      MapOfSame(r, fields);
    case _ =>
  }

  lemma SameKeySameField<A>(fields: seq<Field<A>>, i: nat, j: nat)
    requires DistinctKeys(fields) && i < |fields| && j < |fields| && fields[i].key == fields[j].key
    ensures i == j
  {
  }

  lemma SameKeys<A, B>(a: seq<Field<A>>, b: seq<Field<B>>)
    requires |a| == |b| && forall i | 0 <= i < |a| :: a[i].key == b[i].key
    ensures forall k :: KeyIn(k, a) <==> KeyIn(k, b)
  {
    forall k ensures KeyIn(k, a) <==> KeyIn(k, b) {
      if KeyIn(k, a) {
        var i :| 0 <= i < |a| && a[i].key == k;
        assert b[i].key == k;
      }
      if KeyIn(k, b) {
        var i :| 0 <= i < |b| && b[i].key == k;
        assert a[i].key == k;
      }
    }
  }

  lemma {:induction false} SameMeaningSameNorm(a: Json, b: Json, show: NumberPrinter)
    requires WellFormed(a, show) && WellFormed(b, show) && Meaning(a) == Meaning(b)
    ensures Norm(a) == Norm(b)
    decreases a
  {
    match a
    case JArr(items) =>
      assert |Meaning(a).items| == |items| && |Meaning(b).items| == |b.items|;
      forall i | 0 <= i < |items| ensures Norm(items[i]) == Norm(b.items[i]) {
        assert Meaning(items[i]) == Meaning(a).items[i] == Meaning(b.items[i]);
        SameMeaningSameNorm(items[i], b.items[i], show);
      }
    case JObj(fields) =>
      assert b.JObj?;
      var na, nb := NormFields(fields), NormFields(b.fields);
      SortFieldsDistinct(na);
      SortFieldsDistinct(nb);
      SortFieldsElements(na);
      SortFieldsElements(nb);
      MapOfKeys(fields);
      MapOfKeys(b.fields);
      forall f, g | f in fields && g in b.fields && f.key == g.key ensures Norm(f.value) == Norm(g.value) {
        SameMeaningSameNorm(f.value, g.value, show);
      }
      NormElements(fields, b.fields);
      NormElements(b.fields, fields);
      SortedUnique(SortFields(na), SortFields(nb));
    case _ =>
  }

  lemma NormElements(a: seq<Field<Json>>, b: seq<Field<Json>>)
    requires forall k | KeyIn(k, a) :: KeyIn(k, b)
    requires forall f, g | f in a && g in b && f.key == g.key :: Norm(f.value) == Norm(g.value)
    ensures forall f | f in NormFields(a) :: f in NormFields(b)
  {
    forall f | f in NormFields(a) ensures f in NormFields(b) {
      var i :| 0 <= i < |a| && NormFields(a)[i] == f;
      assert KeyIn(a[i].key, b);
      var j :| 0 <= j < |b| && b[j].key == a[i].key;
      assert a[i] in a && b[j] in b;
      assert NormFields(b)[j] == f;
    }
  }

  // -------------------------------------------------------------------------
  // The canonical text is the sorted value's text
  // -------------------------------------------------------------------------

  function TextFields(fields: seq<Field<Json>>): (r: seq<Field<string>>)
    ensures |r| == |fields|
  {
    if fields == [] then []
    else [Field(fields[0].key, Stringify(fields[0].value, "", ""))] + TextFields(fields[1..])
  }

  /** Sorting by key and printing the values can be done in either order. */
  lemma {:induction false} InsertText(x: Field<Json>, s: seq<Field<Json>>)
    ensures TextFields(Insert(x, s, (a: Field<Json>, b: Field<Json>) => KeyLeq(a, b)))
         == Insert(Field(x.key, Stringify(x.value, "", "")), TextFields(s), (a: Field<string>, b: Field<string>) => KeyLeq(a, b))
  {
    var leq := (a: Field<Json>, b: Field<Json>) => KeyLeq(a, b);
    if s == [] || leq(x, s[0]) {
      assert ([x] + s)[1..] == s;
    } else {
      InsertText(x, s[1..]);
      var r := Insert(x, s[1..], leq);
      assert ([s[0]] + r)[1..] == r;
      assert TextFields(s)[1..] == TextFields(s[1..]);
    }
  }

  lemma {:induction false} SortText(fields: seq<Field<Json>>)
    ensures TextFields(SortFields(fields)) == SortFields(TextFields(fields))
  {
    if fields == [] {
    } else {
      SortText(fields[1..]);
      InsertText(fields[0], SortFields(fields[1..]));
      assert TextFields(fields)[1..] == TextFields(fields[1..]);
    }
  }

  lemma ArrayText(items: seq<Json>)
    requires items != []
    ensures Stringify(JArr(items), "", "") == "[" + PrintItems(items, "", "") + "]"
  {
    hide PrintItems;
    assert "" + "" == "";
    assert "[" + "" + PrintItems(items, "", "") + "" + "]" == "[" + PrintItems(items, "", "") + "]";
  }

  lemma ObjectText(fields: seq<Field<Json>>)
    requires fields != []
    ensures Stringify(JObj(fields), "", "") == "{" + PrintFields(fields, "", "") + "}"
  {
    hide PrintFields;
    assert "" + "" == "";
    assert "{" + "" + PrintFields(fields, "", "") + "" + "}" == "{" + PrintFields(fields, "", "") + "}";
  }

  lemma {:induction false} CanonicalIsNormText(v: Json)
    ensures Canonical(v) == Stringify(Norm(v), "", "")
    decreases v, 2
  {
    match v
    case JArr(items) =>
      CanonicalItemsText(items);
      var n := NormItems(items);
      if items != [] {
        JoinItems(n);
        ArrayText(n);
      }
    case JObj(fields) =>
      CanonicalFieldsText(fields);
      SortText(NormFields(fields));
      SortFieldsElements(NormFields(fields));
      var n := SortFields(NormFields(fields));
      assert KeyedTexts(SortFields(CanonicalFields(fields))) == KeyedTexts(TextFields(n));
      if fields != [] {
        JoinFields(n);
        ObjectText(n);
      }
    case _ =>
  }

  function ItemTexts(items: seq<Json>): seq<string> {
    if items == [] then [] else [Stringify(items[0], "", "")] + ItemTexts(items[1..])
  }

  lemma {:induction false} CanonicalItemsText(items: seq<Json>)
    ensures CanonicalItems(items) == ItemTexts(NormItems(items))
    decreases items, 1
  {
    if items == [] {
    } else {
      CanonicalIsNormText(items[0]);
      CanonicalItemsText(items[1..]);
      assert NormItems(items)[1..] == NormItems(items[1..]);
    }
  }

  lemma {:induction false} CanonicalFieldsText(fields: seq<Field<Json>>)
    ensures CanonicalFields(fields) == TextFields(NormFields(fields))
    decreases fields, 1
  {
    if fields == [] {
    } else {
      CanonicalIsNormText(fields[0].value);
      CanonicalFieldsText(fields[1..]);
      assert NormFields(fields)[1..] == NormFields(fields[1..]);
    }
  }

  lemma {:induction false} JoinItems(items: seq<Json>)
    requires items != []
    ensures Join(ItemTexts(items), ",") == PrintItems(items, "", "")
  {
    if |items| > 1 {
      JoinItems(items[1..]);
      assert ItemTexts(items)[1..] == ItemTexts(items[1..]);
    }
  }

  lemma KeyedCons(f: Field<Json>, rest: seq<Field<Json>>)
    ensures KeyedTexts(TextFields([f] + rest)) == [Quote(f.key) + ":" + Stringify(f.value, "", "")] + KeyedTexts(TextFields(rest))
  {
    hide Stringify, Quote;
    assert ([f] + rest)[1..] == rest;
    var texts := TextFields([f] + rest);
    assert texts == [Field(f.key, Stringify(f.value, "", ""))] + TextFields(rest);
    assert texts[1..] == TextFields(rest);
  }

  lemma PrintedCons(f: Field<Json>, rest: seq<Field<Json>>)
    ensures var first := Quote(f.key) + ":" + Stringify(f.value, "", "");
            PrintFields([f] + rest, "", "") == if rest == [] then first else first + "," + PrintFields(rest, "", "")
  {
    hide Stringify, Quote;
    var first := Quote(f.key) + ":" + Stringify(f.value, "", "");
    assert ([f] + rest)[1..] == rest;
    assert ":" + "" == ":" && first + "" == first;
    if rest != [] {
      hide PrintFields;
      PrintedTwo(f, rest);
      assert first + ("," + "" + PrintFields(rest, "", "")) == first + "," + PrintFields(rest, "", "");
    }
  }

  lemma PrintedTwo(f: Field<Json>, rest: seq<Field<Json>>)
    requires rest != []
    ensures PrintFields([f] + rest, "", "")
         == Quote(f.key) + (":" + "") + Stringify(f.value, "", "") + ("," + "" + PrintFields(rest, "", ""))
  {
    hide Stringify, Quote;
    assert ([f] + rest)[1..] == rest;
  }

  lemma {:induction false} JoinFields(fields: seq<Field<Json>>)
    requires fields != []
    ensures Join(KeyedTexts(TextFields(fields)), ",") == PrintFields(fields, "", "")
  {
    hide KeyedTexts, TextFields, PrintFields, Quote, Stringify;
    var f, rest := fields[0], fields[1..];
    assert fields == [f] + rest;
    KeyedCons(f, rest);
    PrintedCons(f, rest);
    if rest == [] {
      NoTexts();
    } else {
      JoinFields(rest);
      SomeTexts(rest);
      JoinCons(Quote(f.key) + ":" + Stringify(f.value, "", ""), KeyedTexts(TextFields(rest)), ",");
    }
  }

  lemma NoTexts()
    ensures KeyedTexts(TextFields([])) == []
  {
  }

  lemma SomeTexts(fields: seq<Field<Json>>)
    requires fields != []
    ensures KeyedTexts(TextFields(fields)) != []
  {
  }

  // -------------------------------------------------------------------------
  // The main result
  // -------------------------------------------------------------------------

  /** Two values print the same canonical text exactly when they mean the same. */
  lemma CanonicalDecidesMeaning(a: Json, b: Json, show: NumberPrinter)
    requires WellFormed(a, show) && WellFormed(b, show)
    ensures Canonical(a) == Canonical(b) <==> Meaning(a) == Meaning(b)
  {
    CanonicalIsNormText(a);
    CanonicalIsNormText(b);
    NormKeepsMeaning(a, show);
    NormKeepsMeaning(b, show);
    if Canonical(a) == Canonical(b) {
      ParseStringify(Norm(a), "", show);
      ParseStringify(Norm(b), "", show);
    }
    if Meaning(a) == Meaning(b) {
      SameMeaningSameNorm(a, b, show);
    }
  }

  // -------------------------------------------------------------------------
  // Numbers past the range
  // -------------------------------------------------------------------------

  lemma {:induction false} CanonicalPrinted(v: Json)
    ensures Canonical(AsPrinted(v)) == Canonical(v)
    decreases v, 2
  {
    match v
    case JArr(items) => CanonicalPrintedItems(items);
    case JObj(fields) => CanonicalPrintedFields(fields);
    case _ =>
  }

  lemma {:induction false} CanonicalPrintedItems(items: seq<Json>)
    ensures CanonicalItems(AllAsPrinted(items)) == CanonicalItems(items)
    decreases items, 1
  {
    if items == [] {
    } else {
      CanonicalPrinted(items[0]);
      CanonicalPrintedItems(items[1..]);
      assert AllAsPrinted(items)[1..] == AllAsPrinted(items[1..]);
    }
  }

  lemma {:induction false} CanonicalPrintedFields(fields: seq<Field<Json>>)
    ensures CanonicalFields(FieldsAsPrinted(fields)) == CanonicalFields(fields)
    decreases fields, 1
  {
    if fields == [] {
    } else {
      CanonicalPrinted(fields[0].value);
      CanonicalPrintedFields(fields[1..]);
      assert FieldsAsPrinted(fields)[1..] == FieldsAsPrinted(fields[1..]);
    }
  }

  /** Of any values read, the canonical text decides what they mean as printed. */
  lemma CanonicalDecidesPrinted(a: Json, b: Json, show: NumberPrinter)
    requires Parsed(a, show) && Parsed(b, show)
    ensures Canonical(a) == Canonical(b) <==> Meaning(AsPrinted(a)) == Meaning(AsPrinted(b))
  {
    hide Canonical, Meaning, AsPrinted, Parsed, WellFormed;
    CanonicalPrinted(a);
    CanonicalPrinted(b);
    PrintedIsWellFormed(a, show);
    PrintedIsWellFormed(b, show);
    CanonicalDecidesMeaning(AsPrinted(a), AsPrinted(b), show);
  }

  /** A number past the range means nothing a value in range does. */
  lemma {:induction false} InfinityDiffers(a: Json, b: Json, show: NumberPrinter)
    requires Parsed(a, show) && Parsed(b, show) && InRange(b) && Meaning(a) == Meaning(b)
    ensures InRange(a)
    decreases a
  {
    match a
    case JArr(items) =>
      assert |Meaning(a).items| == |items| && |Meaning(b).items| == |b.items|;
      forall i | 0 <= i < |items| ensures InRange(items[i]) {
        assert Meaning(items[i]) == Meaning(a).items[i] == Meaning(b.items[i]);
        InfinityDiffers(items[i], b.items[i], show);
      }
    case JObj(fields) =>
      assert b.JObj?;
      MapOfKeys(fields);
      MapOfKeys(b.fields);
      forall f | f in fields ensures InRange(f.value) {
        assert f.key in MapOf(b.fields);
        var j :| 0 <= j < |b.fields| && b.fields[j].key == f.key;
        assert b.fields[j] in b.fields;
        InfinityDiffers(f.value, b.fields[j].value, show);
      }
    case _ =>
  }

  /**
   * Against a value in range the canonical text is mistaken exactly when the
   * other value holds a number past the range where this one holds null.
   */
  lemma CanonicalMistakes(a: Json, b: Json, show: NumberPrinter)
    requires Parsed(a, show) && Parsed(b, show) && InRange(b)
    ensures (Canonical(a) == Canonical(b) <==> Meaning(a) == Meaning(b))
       <==> InRange(a) || Meaning(AsPrinted(a)) != Meaning(b)
  {
    hide Canonical, Meaning, AsPrinted, Parsed, InRange;
    CanonicalDecidesPrinted(a, b, show);
    InRangePrintsItself(a);
    InRangePrintsItself(b);
    if Meaning(a) == Meaning(b) { InfinityDiffers(a, b, show); }
  }
}
