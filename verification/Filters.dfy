/**
 * Catalogue filters: the comma-separated wire format, the clauses printed for the search engine,
 * and what they mean on its denormalised documents.
 *
 * The engine's filter grammar is not part of the repository. It is taken as: a clause is
 * `field = "text"`, `field IN ["text", ...]`, or `field` with `=`, `>=` or `<=` and an integer; inside
 * quotes a backslash pairs with the next character, and only the pair \" stands for a bare quote.
 */
module Filters {
  import opened Strings
  import opened FeedMapping

  // ----- assets and documents -----

  type Id = nat

  /** The UUID library: many texts name an id, and `str(id)` is one of them. */
  datatype Ids = Ids(parse: string -> Option<Id>, text: Id -> string) {
    ghost predicate Lawful() {
      parse("") == None && forall id: Id :: parse(text(id)) == Some(id)
    }

    /** `str(id) if id else None` */
    function TextOf(id: Option<Id>): Option<string> {
      match id case Some(i) => Some(text(i)) case None => None
    }
  }

  datatype CatalogueAsset = CatalogueAsset(
    category: Option<Id>,
    collection: Option<Id>,
    assetType: string,
    photographer: string,
    county: Option<string>,          // None without a metadata row
    published: Option<Date>)

  /** The filterable attributes of `_to_document`. */
  datatype Document = Document(
    categoryId: Option<string>,
    collectionId: Option<string>,
    assetType: string,
    county: string,
    photographer: string,
    year: Option<int>,
    publicationTs: Option<int>)

  function ToDocument(ids: Ids, ts: Date -> int, a: CatalogueAsset): Document {
    Document(
      ids.TextOf(a.category),
      ids.TextOf(a.collection),
      a.assetType,
      match a.county case Some(c) => c case None => "",
      a.photographer,
      match a.published case Some(d) => Some(d.year) case None => None,
      match a.published case Some(d) => Some(ts(d)) case None => None)
  }

  const CATEGORY := "category_id"
  const COLLECTION := "collection_id"
  const ASSET_TYPE := "asset_type"
  const COUNTY := "county"
  const PHOTOGRAPHER := "photographer"
  const YEAR := "year"
  const TIMESTAMP := "publication_date_ts"

  // ----- the filter language -----

  datatype Clause =
    | EqText(field: string, text: string)
    | InText(field: string, texts: seq<string>)
    | EqInt(field: string, n: int)
    | GeqInt(field: string, n: int)
    | LeqInt(field: string, n: int)

  function TextOf(doc: Document, field: string): Option<string> {
    if field == CATEGORY then doc.categoryId
    else if field == COLLECTION then doc.collectionId
    else if field == ASSET_TYPE then Some(doc.assetType)
    else if field == COUNTY then Some(doc.county)
    else if field == PHOTOGRAPHER then Some(doc.photographer)
    else None
  }

  function IntOf(doc: Document, field: string): Option<int> {
    if field == YEAR then doc.year else if field == TIMESTAMP then doc.publicationTs else None
  }

  predicate Eval(clause: Clause, doc: Document) {
    match clause
    case EqText(field, text) => TextOf(doc, field) == Some(text)
    case InText(field, texts) => TextOf(doc, field).Some? && TextOf(doc, field).value in texts
    case EqInt(field, n) => IntOf(doc, field) == Some(n)
    case GeqInt(field, n) => IntOf(doc, field).Some? && IntOf(doc, field).value >= n
    case LeqInt(field, n) => IntOf(doc, field).Some? && IntOf(doc, field).value <= n
  }

  // ----- printing -----

  /** `_escape` */
  function Escape(v: string): string {
    ReplaceAll(v, "\"", "\\\"")
  }

  function Quoted(v: string): string {
    "\"" + Escape(v) + "\""
  }

  function QuotedList(vs: seq<string>): string
    requires vs != []
  {
    if |vs| == 1 then Quoted(vs[0]) else Quoted(vs[0]) + ", " + QuotedList(vs[1..])
  }

  function NonEmpty(values: seq<string>): seq<string> {
    if values == [] then []
    else (if values[0] != "" then [values[0]] else []) + NonEmpty(values[1..])
  }

  /** `_eq_or_in` on a list of values. */
  function EqOrIn(field: string, values: seq<string>): Option<string> {
    var vs := NonEmpty(values);
    if vs == [] then None
    else if |vs| == 1 then Some(field + " " + "= " + Quoted(vs[0]))
    else Some(field + " " + "IN [" + QuotedList(vs) + "]")
  }

  /** The filter arguments of `search`. */
  datatype Query = Query(
    category: seq<string>,
    collection: seq<string>,
    assetType: seq<string>,
    county: seq<string>,
    photographer: seq<string>,
    year: Option<int>,
    dateFrom: Option<Date>,
    dateTo: Option<Date>)

  function IntClause(field: string, op: string, n: int): string {
    field + " " + op + IntString(n)
  }

  function YearFilter(q: Query): seq<string> {
    match q.year case Some(n) => [IntClause(YEAR, "= ", n)] case None => []
  }

  function FromFilter(ts: Date -> int, q: Query): seq<string> {
    match q.dateFrom case Some(d) => [IntClause(TIMESTAMP, ">= ", ts(d))] case None => []
  }

  function ToFilter(ts: Date -> int, q: Query): seq<string> {
    match q.dateTo case Some(d) => [IntClause(TIMESTAMP, "<= ", ts(d))] case None => []
  }

  function IntFilters(ts: Date -> int, q: Query): seq<string> {
    YearFilter(q) + FromFilter(ts, q) + ToFilter(ts, q)
  }

  /** The `filter` list sent to the engine. */
  function Compile(ts: Date -> int, q: Query): seq<string> {
    Optional(EqOrIn(CATEGORY, q.category))
    + Optional(EqOrIn(COLLECTION, q.collection))
    + Optional(EqOrIn(ASSET_TYPE, q.assetType))
    + Optional(EqOrIn(COUNTY, q.county))
    + Optional(EqOrIn(PHOTOGRAPHER, q.photographer))
    + IntFilters(ts, q)
  }

  function Optional<T>(o: Option<T>): seq<T> {
    match o case Some(x) => [x] case None => []
  }

  // ----- parsing -----

  /** The rest of a quoted text, up to its closing quote, and what follows it. */
  function ParseBody(s: string): Option<(string, string)>
    decreases |s|
  {
    if s == "" then None
    else if s[0] == '"' then Some(("", s[1..]))
    else if s[0] == '\\' then
      if |s| == 1 then None
      else match ParseBody(s[2..])
        case Some((v, rest)) => Some(((if s[1] == '"' then "\"" else s[..2]) + v, rest))
        case None => None
    else match ParseBody(s[1..])
      case Some((v, rest)) => Some(([s[0]] + v, rest))
      case None => None
  }

  function ParseQuoted(s: string): Option<(string, string)> {
    if s != "" && s[0] == '"' then ParseBody(s[1..]) else None
  }

  lemma {:induction false} ParseBodyShorter(s: string)
    ensures ParseBody(s).Some? ==> |ParseBody(s).value.1| < |s|
    decreases |s|
  {
    if s != "" && s[0] == '\\' && |s| > 1 {
      ParseBodyShorter(s[2..]);
    } else if s != "" && s[0] != '"' {
      ParseBodyShorter(s[1..]);
    }
  }

  /** The items of a list up to the closing bracket, which ends the clause. */
  function ParseList(s: string): Option<seq<string>>
    decreases |s|
  {
    if s == "" || s[0] != '"' then None
    else
      ParseBodyShorter(s[1..]);
      match ParseBody(s[1..])
      case None => None
      case Some((v, rest)) =>
        if rest == "]" then Some([v])
        else if |rest| >= 2 && rest[..2] == ", " then
          match ParseList(rest[2..])
          case Some(vs) => Some([v] + vs)
          case None => None
        else None
  }

  function ParseInt(s: string): Option<int> {
    if s != "" && s[0] == '-' then
      if |s| > 1 && AllDigits(s[1..]) then (var n: int := Number(s[1..]); Some(-n)) else None
    else if s != "" && AllDigits(s) then Some(Number(s))
    else None
  }

  function FirstSpace(s: string): nat {
    if s == "" || s[0] == ' ' then 0 else 1 + FirstSpace(s[1..])
  }

  predicate StartsWith(s: string, prefix: string) {
    |prefix| <= |s| && s[..|prefix|] == prefix
  }

  function ParseOperand(field: string, s: string): Option<Clause> {
    if StartsWith(s, "= \"") then
      match ParseQuoted(s[2..])
      case Some((v, rest)) => if rest == "" then Some(EqText(field, v)) else None
      case None => None
    else if StartsWith(s, "IN [") then
      match ParseList(s[4..])
      case Some(vs) => Some(InText(field, vs))
      case None => None
    else if StartsWith(s, "= ") then
      match ParseInt(s[2..]) case Some(n) => Some(EqInt(field, n)) case None => None
    else if StartsWith(s, ">= ") then
      match ParseInt(s[3..]) case Some(n) => Some(GeqInt(field, n)) case None => None
    else if StartsWith(s, "<= ") then
      match ParseInt(s[3..]) case Some(n) => Some(LeqInt(field, n)) case None => None
    else None
  }

  function ParseClause(s: string): Option<Clause> {
    var i := FirstSpace(s);
    if i < |s| then ParseOperand(s[..i], s[i + 1..]) else None
  }

  // ----- the quoting round trip -----

  /** No odd run of backslashes stands before a quote or the end. */
  predicate WellQuoted(v: string)
    decreases |v|
  {
    if v == "" then true
    else if v[0] == '\\' then |v| >= 2 && v[1] != '"' && WellQuoted(v[2..])
    else WellQuoted(v[1..])
  }

  lemma {:induction false} NoBackslashWellQuoted(v: string)
    requires '\\' !in v
    ensures WellQuoted(v)
  {
    if v == "" {
    } else {
      NoBackslashWellQuoted(v[1..]);
    }
  }

  lemma EscapeHead(v: string)
    requires v != ""
    ensures Escape(v) == (if v[0] == '"' then "\\\"" else [v[0]]) + Escape(v[1..])
  {
    assert v[..1] == [v[0]];
  }

  lemma ParseTwo(a: char, b: char, tail: string)
    requires a == '\\'
    ensures ParseBody([a, b] + tail) ==
      match ParseBody(tail)
      case Some((v, rest)) => Some(((if b == '"' then "\"" else [a, b]) + v, rest))
      case None => None
  {
    var s := [a, b] + tail;
    assert s[2..] == tail && s[..2] == [a, b];
  }

  lemma ParseOne(a: char, tail: string)
    requires a != '\\' && a != '"'
    ensures ParseBody([a] + tail) ==
      match ParseBody(tail) case Some((v, rest)) => Some(([a] + v, rest)) case None => None
  {
    assert ([a] + tail)[1..] == tail;
  }

  lemma {:induction false} BodyRoundTrip(v: string, rest: string)
    requires WellQuoted(v)
    ensures ParseBody(Escape(v) + "\"" + rest) == Some((v, rest))
    decreases |v|
  {
    hide Escape, ParseBody;
    if v == "" {
      EmptyBody(rest);
    } else if v[0] == '\\' {
      BodyRoundTrip(v[2..], rest);
      BackslashBody(v, rest);
    } else {
      BodyRoundTrip(v[1..], rest);
      PlainBody(v, rest);
    }
  }

  lemma EmptyBody(rest: string)
    ensures ParseBody(Escape("") + "\"" + rest) == Some(("", rest))
  {
    EscapeEmpty();
    assert "" + "\"" + rest == "\"" + rest;
  }

  lemma BackslashBody(v: string, rest: string)
    requires |v| >= 2 && v[0] == '\\' && v[1] != '"'
    requires ParseBody(Escape(v[2..]) + "\"" + rest) == Some((v[2..], rest))
    ensures ParseBody(Escape(v) + "\"" + rest) == Some((v, rest))
  {
    hide Escape, ParseBody;
    EscapeHead(v);
    EscapeHead(v[1..]);
    assert v[1..][1..] == v[2..] && v == [v[0], v[1]] + v[2..];
    var tail := Escape(v[2..]) + "\"" + rest;
    assert Escape(v) + "\"" + rest == [v[0], v[1]] + tail;
    ParseTwo(v[0], v[1], tail);
  }

  lemma PlainBody(v: string, rest: string)
    requires v != "" && v[0] != '\\'
    requires ParseBody(Escape(v[1..]) + "\"" + rest) == Some((v[1..], rest))
    ensures ParseBody(Escape(v) + "\"" + rest) == Some((v, rest))
  {
    hide Escape, ParseBody;
    EscapeHead(v);
    var tail := Escape(v[1..]) + "\"" + rest;
    assert v == [v[0]] + v[1..];
    if v[0] == '"' {
      assert Escape(v) + "\"" + rest == ['\\', '"'] + tail;
      ParseTwo('\\', '"', tail);
    } else {
      assert Escape(v) + "\"" + rest == [v[0]] + tail;
      ParseOne(v[0], tail);
    }
  }

  lemma EscapeEmpty()
    ensures Escape("") == ""
  {}

  /** A text that is not well quoted never reads back as itself. */
  lemma {:induction false} BodyBroken(v: string, rest: string)
    requires !WellQuoted(v)
    ensures var p := ParseBody(Escape(v) + "\"" + rest); p.Some? ==> p.value.0 != v
    decreases |v|
  {
    hide Escape, ParseBody;
    var s := Escape(v) + "\"" + rest;
    EscapeHead(v);
    if v[0] == '\\' {
      if |v| == 1 {
        assert v[1..] == "";
        EscapeEmpty();
        assert s == ['\\', '"'] + rest;
        ParseTwo('\\', '"', rest);
      } else {
        EscapeHead(v[1..]);
        assert v[1..][1..] == v[2..] && v == [v[0], v[1]] + v[2..];
        var tail := Escape(v[2..]) + "\"" + rest;
        if v[1] == '"' {
          assert s == ['\\', '\\'] + (['"'] + tail);
          ParseTwo('\\', '\\', ['"'] + tail);
        } else {
          assert s == [v[0], v[1]] + tail;
          ParseTwo(v[0], v[1], tail);
          BodyBroken(v[2..], rest);
          SamePrefix([v[0], v[1]], v[2..], ParseBody(tail));
        }
      }
    } else {
      var tail := Escape(v[1..]) + "\"" + rest;
      BodyBroken(v[1..], rest);
      assert v == [v[0]] + v[1..];
      if v[0] == '"' {
        assert s == ['\\', '"'] + tail;
        ParseTwo('\\', '"', tail);
      } else {
        assert s == [v[0]] + tail;
        ParseOne(v[0], tail);
      }
      SamePrefix([v[0]], v[1..], ParseBody(tail));
    }
  }

  lemma SamePrefix(head: string, v: string, p: Option<(string, string)>)
    requires p.Some? ==> p.value.0 != v
    ensures p.Some? ==> head + p.value.0 != head + v
  {
    if p.Some? { assert (head + p.value.0)[|head|..] == p.value.0 && (head + v)[|head|..] == v; }
  }

  /** A quoted text reads back exactly when it is well quoted. */
  lemma QuotedRoundTrip(v: string, rest: string)
    ensures ParseQuoted(Quoted(v) + rest) == Some((v, rest)) <==> WellQuoted(v)
    ensures !WellQuoted(v) && ParseQuoted(Quoted(v) + rest).Some? ==> ParseQuoted(Quoted(v) + rest).value.0 != v
  {
    assert (Quoted(v) + rest)[1..] == Escape(v) + "\"" + rest;
    if WellQuoted(v) { BodyRoundTrip(v, rest); } else { BodyBroken(v, rest); }
  }

  predicate AllWellQuoted(vs: seq<string>) {
    forall v | v in vs :: WellQuoted(v)
  }

  lemma {:induction false} ListRoundTrip(vs: seq<string>)
    requires vs != []
    ensures ParseList(QuotedList(vs) + "]") == Some(vs) <==> AllWellQuoted(vs)
  {
    hide WellQuoted, Quoted, ParseBody;
    var v := vs[0];
    assert vs == [v] + vs[1..];
    if |vs| == 1 {
      LastItem(v);
      assert vs == [v] && QuotedList(vs) == Quoted(v);
      assert AllWellQuoted(vs) <==> WellQuoted(v) by { assert v in vs; }
      hide ParseList, QuotedList, AllWellQuoted;
    } else {
      ListRoundTrip(vs[1..]);
      NextItem(v, QuotedList(vs[1..]) + "]");
      assert QuotedList(vs) + "]" == Quoted(v) + ", " + (QuotedList(vs[1..]) + "]");
      assert AllWellQuoted(vs) <==> WellQuoted(v) && AllWellQuoted(vs[1..]);
      assert forall x: seq<string> :: ([v] + x)[1..] == x;
      hide ParseList, QuotedList, AllWellQuoted;
    }
  }

  lemma LastItem(v: string)
    ensures ParseList(Quoted(v) + "]") == Some([v]) <==> WellQuoted(v)
  {
    QuotedRoundTrip(v, "]");
    QuotedStart(v);
    hide WellQuoted, Quoted, ParseBody;
  }

  /** An item followed by more items: the list reads back only if the item does. */
  lemma NextItem(v: string, tail: string)
    ensures WellQuoted(v) ==>
      ParseList(Quoted(v) + ", " + tail) ==
        match ParseList(tail) case Some(vs) => Some([v] + vs) case None => None
    ensures !WellQuoted(v) && ParseList(Quoted(v) + ", " + tail).Some? ==>
      ParseList(Quoted(v) + ", " + tail).value[0] != v
  {
    var follow := ", " + tail;
    QuotedRoundTrip(v, follow);
    QuotedStart(v);
    assert Quoted(v) + ", " + tail == Quoted(v) + follow;
    assert follow[..2] == ", " && follow[2..] == tail;
    hide WellQuoted, Quoted, ParseBody;
  }

  lemma QuotedStart(v: string)
    ensures Quoted(v) != "" && Quoted(v)[0] == '"'
  {}

  // ----- compiled clauses parse back -----

  lemma {:induction false} FieldEnds(field: string, rest: string)
    requires ' ' !in field
    ensures FirstSpace(field + " " + rest) == |field|
  {
    var s := field + " " + rest;
    if field == "" {
    } else {
      assert s[1..] == field[1..] + " " + rest;
      FieldEnds(field[1..], rest);
    }
  }

  lemma ClauseSplits(field: string, operand: string)
    requires ' ' !in field
    ensures ParseClause(field + " " + operand) == ParseOperand(field, operand)
  {
    FieldEnds(field, operand);
    var s := field + " " + operand;
    assert s[..|field|] == field && s[|field| + 1..] == operand;
    hide ParseOperand;
  }

  /** What a list of values asks of a text attribute. */
  function Meaning(field: string, values: seq<string>): Option<Clause> {
    var vs := NonEmpty(values);
    if vs == [] then None
    else if |vs| == 1 then Some(EqText(field, vs[0]))
    else Some(InText(field, vs))
  }

  lemma EqParses(field: string, v: string)
    requires ' ' !in field
    ensures ParseClause(field + " " + "= " + Quoted(v)) == Some(EqText(field, v)) <==> WellQuoted(v)
  {
    var operand := "= " + Quoted(v);
    assert field + " " + "= " + Quoted(v) == field + " " + operand;
    ClauseSplits(field, operand);
    QuotedRoundTrip(v, "");
    QuotedStart(v);
    assert operand[2..] == Quoted(v) && Quoted(v) + "" == Quoted(v);
    assert operand[..3] == "= \"";
    hide Quoted, ParseQuoted, WellQuoted, ParseClause;
  }

  lemma InOperand(field: string, rest: string)
    ensures ParseOperand(field, "IN [" + rest) ==
      match ParseList(rest) case Some(vs) => Some(InText(field, vs)) case None => None
  {
    var s := "IN [" + rest;
    assert s[0] == 'I' && s[..4] == "IN [" && s[4..] == rest;
    hide ParseList;
  }

  lemma InParses(field: string, vs: seq<string>)
    requires ' ' !in field && vs != []
    ensures ParseClause(field + " " + "IN [" + QuotedList(vs) + "]") == Some(InText(field, vs)) <==> AllWellQuoted(vs)
  {
    hide QuotedList, ParseList, AllWellQuoted, ParseClause, ParseOperand;
    var rest := QuotedList(vs) + "]";
    assert field + " " + "IN [" + QuotedList(vs) + "]" == field + " " + ("IN [" + rest);
    ClauseSplits(field, "IN [" + rest);
    InOperand(field, rest);
    ListRoundTrip(vs);
  }

  /** The clause printed for a list of values has the list's meaning exactly when every value is well quoted. */
  lemma EqOrInParses(field: string, values: seq<string>)
    requires ' ' !in field
    ensures EqOrIn(field, values).Some? == Meaning(field, values).Some?
    ensures EqOrIn(field, values).Some? ==>
      (ParseClause(EqOrIn(field, values).value) == Meaning(field, values) <==> AllWellQuoted(NonEmpty(values)))
  {
    var vs := NonEmpty(values);
    if |vs| == 1 {
      EqParses(field, vs[0]);
      assert vs == [vs[0]];
    } else if vs != [] {
      InParses(field, vs);
    }
    hide ParseClause, NonEmpty, WellQuoted, QuotedList, Quoted;
  }

  lemma IntRoundTrip(n: int)
    ensures ParseInt(IntString(n)) == Some(n)
    ensures IntString(n) != "" && IntString(n)[0] != '"'
  {
    hide Digits, Number;
    if n < 0 {
      NumberDigits(-n);
      assert ("-" + Digits(-n))[1..] == Digits(-n);
    } else {
      NumberDigits(n);
      assert Digits(n)[0] in Digits(n) && IsDigit(Digits(n)[0]);
    }
  }

  lemma IntClauseParses(field: string, n: int)
    requires ' ' !in field
    ensures ParseClause(IntClause(field, "= ", n)) == Some(EqInt(field, n))
    ensures ParseClause(IntClause(field, ">= ", n)) == Some(GeqInt(field, n))
    ensures ParseClause(IntClause(field, "<= ", n)) == Some(LeqInt(field, n))
  {
    IntRoundTrip(n);
    var d := IntString(n);
    OperatorSplits(field, "= ", d);
    OperatorSplits(field, ">= ", d);
    OperatorSplits(field, "<= ", d);
    EqOperand(field, d);
    BoundOperand(field, ">= ", d);
    BoundOperand(field, "<= ", d);
    hide IntString, ParseInt, ParseClause, ParseOperand;
  }

  lemma EqOperand(field: string, d: string)
    requires d != "" && d[0] != '"'
    ensures ParseOperand(field, "= " + d) == match ParseInt(d) case Some(n) => Some(EqInt(field, n)) case None => None
  {
    var s := "= " + d;
    assert s[..3][2] == d[0] && "= \""[2] == '"';
    assert s[..2] == "= " && s[2..] == d;
    assert |s| >= 4 ==> s[..4][0] == '=';
    hide ParseInt;
  }

  lemma BoundOperand(field: string, op: string, d: string)
    requires op == ">= " || op == "<= "
    ensures ParseOperand(field, op + d) ==
      match ParseInt(d)
      case Some(n) => Some(if op == ">= " then GeqInt(field, n) else LeqInt(field, n))
      case None => None
  {
    var s := op + d;
    assert s[..3] == op && s[3..] == d;
    assert s[0] == op[0];
    hide ParseInt;
  }

  lemma OperatorSplits(field: string, op: string, d: string)
    requires ' ' !in field
    ensures ParseClause(field + " " + op + d) == ParseOperand(field, op + d)
  {
    ClauseSplits(field, op + d);
    assert field + " " + op + d == field + " " + (op + d);
    hide ParseOperand, ParseClause;
  }

  // ----- filters on the wire -----

  function Segments(raw: string): seq<string> { Split(raw, ',') }

  function Trimmed(parts: seq<string>): seq<string> {
    seq(|parts|, i requires 0 <= i < |parts| => Trim(parts[i], IsSpace))
  }

  /** The `csv` helper of the search view: trimmed segments, blank ones dropped. */
  function Csv(raw: string): seq<string> {
    if raw == "" then [] else NonEmpty(Trimmed(Segments(raw)))
  }

  /** A list of values as a direct condition: nothing asked, or one of the values. */
  predicate Selects(values: seq<string>, attribute: Option<string>) {
    NonEmpty(values) == [] || (attribute.Some? && attribute.value in NonEmpty(values))
  }

  /** The wire format as the database filter reads it: the attribute is one of the segments. */
  predicate WireSelects(raw: string, attribute: Option<string>) {
    raw == "" || (attribute.Some? && attribute.value in Trimmed(Segments(raw)))
  }

  lemma {:induction false} NonEmptyExact(values: seq<string>)
    ensures forall v :: v in NonEmpty(values) <==> v in values && v != ""
    ensures NonEmpty(NonEmpty(values)) == NonEmpty(values)
  {
    if values == [] {
    } else {
      NonEmptyExact(values[1..]);
      assert values == [values[0]] + values[1..];
      if values[0] != "" {
        assert NonEmpty(values) == [values[0]] + NonEmpty(values[1..]);
        assert NonEmpty(values)[1..] == NonEmpty(values[1..]);
      } else {
        assert NonEmpty(values) == NonEmpty(values[1..]);
      }
    }
  }

  /** Both engines read a text filter alike exactly when it has no blank segment. */
  lemma WireAgreement(raw: string)
    ensures (forall attribute :: Selects(Csv(raw), attribute) <==> WireSelects(raw, attribute)) <==>
      raw == "" || "" !in Trimmed(Segments(raw))
  {
    var parts := Trimmed(Segments(raw));
    NonEmptyExact(parts);
    TrimmedNotEmpty(raw);
    hide Trimmed, Segments;
    if raw == "" {
    } else if "" in parts {
      hide NonEmpty;
      if NonEmpty(parts) == [] {
        assert Selects(Csv(raw), None) && !WireSelects(raw, None);
      } else {
        assert !Selects(Csv(raw), Some("")) && WireSelects(raw, Some(""));
      }
    } else {
      hide NonEmpty;
      assert parts[0] in parts && parts[0] in NonEmpty(parts);
      forall attribute
        ensures Selects(Csv(raw), attribute) <==> WireSelects(raw, attribute)
      {}
    }
  }

  /** The database can read an id filter: every segment names an id. Otherwise the query raises. */
  predicate IdsReadable(ids: Ids, raw: string) {
    raw == "" || forall seg | seg in Trimmed(Segments(raw)) :: ids.parse(seg).Some?
  }

  /** An id filter as the database reads it: some segment, in whatever notation, names the id. */
  predicate WireSelectsId(ids: Ids, raw: string, attribute: Option<Id>) {
    raw == "" || (attribute.Some? && exists seg | seg in Trimmed(Segments(raw)) :: ids.parse(seg) == attribute)
  }

  /** Every segment names an id whose own text is among the segments too. */
  predicate IdsCanonical(ids: Ids, raw: string) {
    raw == "" || forall seg | seg in Trimmed(Segments(raw)) ::
      ids.parse(seg).Some? && ids.text(ids.parse(seg).value) in Trimmed(Segments(raw))
  }

  /**
   * Both engines read an id filter alike exactly when each id it names is also written as the
   * search document writes it; the database reads other notations too.
   */
  lemma IdAgreement(ids: Ids, raw: string)
    requires ids.Lawful()
    ensures (IdsReadable(ids, raw) &&
        forall attribute :: Selects(Csv(raw), ids.TextOf(attribute)) <==> WireSelectsId(ids, raw, attribute)) <==>
      IdsCanonical(ids, raw)
  {
    var parts := Trimmed(Segments(raw));
    NonEmptyExact(parts);
    TrimmedNotEmpty(raw);
    hide Trimmed, Segments;
    if raw == "" {
    } else if IdsCanonical(ids, raw) {
      hide NonEmpty;
      assert parts[0] in parts && parts[0] in NonEmpty(parts);
      forall attribute
        ensures Selects(Csv(raw), ids.TextOf(attribute)) <==> WireSelectsId(ids, raw, attribute)
      {
        if attribute.Some? { assert ids.parse(ids.text(attribute.value)) == attribute; }
      }
    } else if IdsReadable(ids, raw) {
      hide NonEmpty;
      var seg :| seg in parts && ids.text(ids.parse(seg).value) !in parts;
      assert seg in NonEmpty(parts);
      assert WireSelectsId(ids, raw, ids.parse(seg)) && !Selects(Csv(raw), ids.TextOf(ids.parse(seg)));
    }
  }

  const HYPHENATED := "00112233-4455-6677-8899-aabbccddeeff"

  const UNHYPHENATED := "00112233445566778899aabbccddeeff"

  /** Any other notation of an id: the database finds the assets, the engine none. */
  lemma OtherNotation(ids: Ids, id: Id, raw: string)
    requires raw != "" && ',' !in raw && !IsSpace(raw[0]) && !IsSpace(raw[|raw| - 1])
    requires ids.parse(raw) == Some(id) && ids.text(id) != raw
    ensures IdsReadable(ids, raw) && WireSelectsId(ids, raw, Some(id))
    ensures !Selects(Csv(raw), ids.TextOf(Some(id)))
  {
    SplitNothing(raw, ',');
    TrimNothing(raw);
    hide Split, Trim;
    assert Trimmed(Segments(raw)) == [raw];
    NonEmptyExact([raw]);
    hide Trimmed, NonEmpty;
    assert raw in [raw];
  }

  /** For instance the same id without its hyphens. */
  lemma UnhyphenatedId(ids: Ids, id: Id)
    requires ids.text(id) == HYPHENATED && ids.parse(UNHYPHENATED) == Some(id)
    ensures IdsReadable(ids, UNHYPHENATED) && WireSelectsId(ids, UNHYPHENATED, Some(id))
    ensures !Selects(Csv(UNHYPHENATED), ids.TextOf(Some(id)))
  {
    hide IdsReadable, WireSelectsId, Selects, Csv;
    assert |HYPHENATED| != |UNHYPHENATED|;
    OtherNotation(ids, id, UNHYPHENATED);
  }

  lemma TrimmedNotEmpty(raw: string)
    ensures |Trimmed(Segments(raw))| > 0
  {}

  // ----- meaning -----

  predicate Before(a: Date, b: Date) {
    a.year < b.year || (a.year == b.year && (a.month < b.month || (a.month == b.month && a.day < b.day)))
  }

  predicate OnCalendar(d: Date) {
    1 <= d.month <= 12 && 1 <= d.day <= 31
  }

  /** Later days have later timestamps. */
  ghost predicate StrictlyMonotone(ts: Date -> int) {
    forall a, b | OnCalendar(a) && OnCalendar(b) && Before(a, b) :: ts(a) < ts(b)
  }

  lemma TimestampOrder(ts: Date -> int, a: Date, b: Date)
    requires StrictlyMonotone(ts) && OnCalendar(a) && OnCalendar(b)
    ensures ts(a) <= ts(b) <==> !Before(b, a)
  {
    if a != b && !Before(a, b) { assert Before(b, a); }
  }

  // What the year and the date bounds ask of a publication date; an asset without one meets none of them.

  predicate InYear(year: Option<int>, published: Option<Date>) {
    year.Some? ==> published.Some? && published.value.year == year.value
  }

  predicate NotBefore(bound: Option<Date>, published: Option<Date>) {
    bound.Some? ==> published.Some? && !Before(published.value, bound.value)
  }

  predicate NotAfter(bound: Option<Date>, published: Option<Date>) {
    bound.Some? ==> published.Some? && !Before(bound.value, published.value)
  }

  predicate DatesOnCalendar(q: Query, a: CatalogueAsset) {
    && (a.published.Some? ==> OnCalendar(a.published.value))
    && (q.dateFrom.Some? ==> OnCalendar(q.dateFrom.value))
    && (q.dateTo.Some? ==> OnCalendar(q.dateTo.value))
  }

  /** OR within each list, AND across the filters, directly on the asset. */
  predicate Matches(ids: Ids, q: Query, a: CatalogueAsset) {
    && Selects(q.category, ids.TextOf(a.category))
    && Selects(q.collection, ids.TextOf(a.collection))
    && Selects(q.assetType, Some(a.assetType))
    && Selects(q.county, a.county)
    && Selects(q.photographer, Some(a.photographer))
    && InYear(q.year, a.published)
    && NotBefore(q.dateFrom, a.published)
    && NotAfter(q.dateTo, a.published)
  }

  /** The engine's verdict on a document; a clause it cannot parse fails the whole search. */
  predicate Understood(filters: seq<string>) {
    forall f | f in filters :: ParseClause(f).Some?
  }

  predicate EngineAccepts(filters: seq<string>, doc: Document) {
    forall f | f in filters :: ParseClause(f).Some? && Eval(ParseClause(f).value, doc)
  }

  predicate QueryWellQuoted(q: Query) {
    AllWellQuoted(q.category) && AllWellQuoted(q.collection) && AllWellQuoted(q.assetType)
    && AllWellQuoted(q.county) && AllWellQuoted(q.photographer)
  }

  lemma OptionalMember<T>(o: Option<T>)
    ensures forall x :: x in Optional(o) <==> o == Some(x)
  {}

  /** One text filter, printed, parsed and evaluated, is the direct condition. */
  lemma TextFilterMeaning(field: string, values: seq<string>, doc: Document)
    requires ' ' !in field && AllWellQuoted(values)
    ensures Understood(Optional(EqOrIn(field, values)))
    ensures EngineAccepts(Optional(EqOrIn(field, values)), doc) <==> Selects(values, TextOf(doc, field))
  {
    EqOrInParses(field, values);
    NonEmptyExact(values);
    assert AllWellQuoted(NonEmpty(values)) by { hide WellQuoted; }
    hide ParseClause, EqOrIn, NonEmpty, TextOf, WellQuoted;
    var vs := NonEmpty(values);
    if vs != [] {
      OptionalMember(EqOrIn(field, values));
      if |vs| == 1 { assert vs == [vs[0]]; }
    }
  }

  lemma SingleFilter(f: string, doc: Document)
    ensures Understood([f]) <==> ParseClause(f).Some?
    ensures EngineAccepts([f], doc) <==> ParseClause(f).Some? && Eval(ParseClause(f).value, doc)
  {
    hide ParseClause, Eval;
  }

  lemma NoFilter(doc: Document)
    ensures Understood([]) && EngineAccepts([], doc)
  {}

  lemma IntFieldNames()
    ensures ' ' !in YEAR && ' ' !in TIMESTAMP
  {}

  lemma YearFilterMeaning(ids: Ids, ts: Date -> int, q: Query, a: CatalogueAsset)
    ensures Understood(YearFilter(q))
    ensures EngineAccepts(YearFilter(q), ToDocument(ids, ts, a)) <==>
      InYear(q.year, a.published)
  {
    hide ParseClause, IntClause, EngineAccepts, Understood;
    IntFieldNames();
    if q.year.Some? {
      IntClauseParses(YEAR, q.year.value);
      SingleFilter(IntClause(YEAR, "= ", q.year.value), ToDocument(ids, ts, a));
    } else {
      NoFilter(ToDocument(ids, ts, a));
    }
  }

  lemma FromFilterMeaning(ids: Ids, ts: Date -> int, q: Query, a: CatalogueAsset)
    requires StrictlyMonotone(ts) && DatesOnCalendar(q, a)
    ensures Understood(FromFilter(ts, q))
    ensures EngineAccepts(FromFilter(ts, q), ToDocument(ids, ts, a)) <==>
      NotBefore(q.dateFrom, a.published)
  {
    hide ParseClause, IntClause, EngineAccepts, Understood, Before, StrictlyMonotone, OnCalendar;
    IntFieldNames();
    if q.dateFrom.Some? {
      IntClauseParses(TIMESTAMP, ts(q.dateFrom.value));
      if a.published.Some? { TimestampOrder(ts, q.dateFrom.value, a.published.value); }
      SingleFilter(IntClause(TIMESTAMP, ">= ", ts(q.dateFrom.value)), ToDocument(ids, ts, a));
    } else {
      NoFilter(ToDocument(ids, ts, a));
    }
  }

  lemma ToFilterMeaning(ids: Ids, ts: Date -> int, q: Query, a: CatalogueAsset)
    requires StrictlyMonotone(ts) && DatesOnCalendar(q, a)
    ensures Understood(ToFilter(ts, q))
    ensures EngineAccepts(ToFilter(ts, q), ToDocument(ids, ts, a)) <==>
      NotAfter(q.dateTo, a.published)
  {
    hide ParseClause, IntClause, EngineAccepts, Understood, Before, StrictlyMonotone, OnCalendar;
    IntFieldNames();
    if q.dateTo.Some? {
      IntClauseParses(TIMESTAMP, ts(q.dateTo.value));
      if a.published.Some? { TimestampOrder(ts, a.published.value, q.dateTo.value); }
      SingleFilter(IntClause(TIMESTAMP, "<= ", ts(q.dateTo.value)), ToDocument(ids, ts, a));
    } else {
      NoFilter(ToDocument(ids, ts, a));
    }
  }

  /** The year and date bounds keep their meaning through the timestamps. */
  lemma IntFilterMeaning(ids: Ids, ts: Date -> int, q: Query, a: CatalogueAsset)
    requires StrictlyMonotone(ts) && DatesOnCalendar(q, a)
    ensures Understood(IntFilters(ts, q))
    ensures EngineAccepts(IntFilters(ts, q), ToDocument(ids, ts, a)) <==>
      && InYear(q.year, a.published)
      && NotBefore(q.dateFrom, a.published)
      && NotAfter(q.dateTo, a.published)
  {
    var doc := ToDocument(ids, ts, a);
    YearFilterMeaning(ids, ts, q, a);
    FromFilterMeaning(ids, ts, q, a);
    ToFilterMeaning(ids, ts, q, a);
    AcceptsAppend(YearFilter(q) + FromFilter(ts, q), ToFilter(ts, q), doc);
    AcceptsAppend(YearFilter(q), FromFilter(ts, q), doc);
    hide Understood, EngineAccepts, YearFilter, FromFilter, ToFilter, InYear, NotBefore, NotAfter, StrictlyMonotone;
  }

  lemma AcceptsAppend(a: seq<string>, b: seq<string>, doc: Document)
    ensures EngineAccepts(a + b, doc) <==> EngineAccepts(a, doc) && EngineAccepts(b, doc)
    ensures Understood(a + b) <==> Understood(a) && Understood(b)
  {
    hide ParseClause;
    assert forall f :: f in a + b <==> f in a || f in b;
  }

  /**
   * Filter compilation preserves meaning: for well-quoted values the engine understands the printed
   * clauses, and accepts an asset's document exactly when the asset satisfies the filters.
   */
  lemma CompilationPreservesMeaning(ids: Ids, ts: Date -> int, q: Query, a: CatalogueAsset)
    requires QueryWellQuoted(q) && StrictlyMonotone(ts) && DatesOnCalendar(q, a)
    ensures Understood(Compile(ts, q))
    ensures EngineAccepts(Compile(ts, q), ToDocument(ids, ts, a)) <==> Matches(ids, q, a)
  {
    hide Understood, EngineAccepts, Compile, EqOrIn, IntFilters, NonEmpty, InYear, NotBefore, NotAfter,
      StrictlyMonotone, AllWellQuoted, OnCalendar;
    var doc := ToDocument(ids, ts, a);
    TextFieldNames();
    CompileParts(ts, q, doc);
    TextFilterMeaning(CATEGORY, q.category, doc);
    TextFilterMeaning(COLLECTION, q.collection, doc);
    TextFilterMeaning(ASSET_TYPE, q.assetType, doc);
    TextFilterMeaning(COUNTY, q.county, doc);
    TextFilterMeaning(PHOTOGRAPHER, q.photographer, doc);
    IntFilterMeaning(ids, ts, q, a);
    NonEmptyExact(q.county);
  }

  lemma TextFieldNames()
    ensures ' ' !in CATEGORY && ' ' !in COLLECTION && ' ' !in ASSET_TYPE && ' ' !in COUNTY && ' ' !in PHOTOGRAPHER
  {}

  lemma CompileParts(ts: Date -> int, q: Query, doc: Document)
    ensures EngineAccepts(Compile(ts, q), doc) <==>
      && EngineAccepts(Optional(EqOrIn(CATEGORY, q.category)), doc)
      && EngineAccepts(Optional(EqOrIn(COLLECTION, q.collection)), doc)
      && EngineAccepts(Optional(EqOrIn(ASSET_TYPE, q.assetType)), doc)
      && EngineAccepts(Optional(EqOrIn(COUNTY, q.county)), doc)
      && EngineAccepts(Optional(EqOrIn(PHOTOGRAPHER, q.photographer)), doc)
      && EngineAccepts(IntFilters(ts, q), doc)
    ensures Understood(Compile(ts, q)) <==>
      && Understood(Optional(EqOrIn(CATEGORY, q.category)))
      && Understood(Optional(EqOrIn(COLLECTION, q.collection)))
      && Understood(Optional(EqOrIn(ASSET_TYPE, q.assetType)))
      && Understood(Optional(EqOrIn(COUNTY, q.county)))
      && Understood(Optional(EqOrIn(PHOTOGRAPHER, q.photographer)))
      && Understood(IntFilters(ts, q))
  {
    var c1 := Optional(EqOrIn(CATEGORY, q.category));
    var c2 := Optional(EqOrIn(COLLECTION, q.collection));
    var c3 := Optional(EqOrIn(ASSET_TYPE, q.assetType));
    var c4 := Optional(EqOrIn(COUNTY, q.county));
    var c5 := Optional(EqOrIn(PHOTOGRAPHER, q.photographer));
    var c6 := IntFilters(ts, q);
    assert Compile(ts, q) == c1 + c2 + c3 + c4 + c5 + c6;
    AcceptsAppend(c1 + c2 + c3 + c4 + c5, c6, doc);
    AcceptsAppend(c1 + c2 + c3 + c4, c5, doc);
    AcceptsAppend(c1 + c2 + c3, c4, doc);
    AcceptsAppend(c1 + c2, c3, doc);
    AcceptsAppend(c1, c2, doc);
    hide EngineAccepts, Understood, Compile, EqOrIn, IntFilters;
  }

  // ----- the texts that go over the wire -----

  /** What the engine finds under each filterable name of a document. */
  lemma FieldsShown(ids: Ids, ts: Date -> int, a: CatalogueAsset)
    ensures var doc := ToDocument(ids, ts, a);
      && TextOf(doc, "category_id") == ids.TextOf(a.category)
      && TextOf(doc, "collection_id") == ids.TextOf(a.collection)
      && TextOf(doc, "asset_type") == Some(a.assetType)
      && TextOf(doc, "county") == Some(if a.county.Some? then a.county.value else "")
      && TextOf(doc, "photographer") == Some(a.photographer)
      && IntOf(doc, "year") == (if a.published.Some? then Some(a.published.value.year) else None)
      && IntOf(doc, "publication_date_ts") == if a.published.Some? then Some(ts(a.published.value)) else None
  {}

  lemma OneValue(field: string, v: string)
    requires v != ""
    ensures EqOrIn(field, [v]) == Some(field + " = " + Quoted(v))
  {
    hide Quoted;
    assert NonEmpty([v][1..]) == [];
    assert field + " " + "= " == field + " = ";
  }

  lemma TwoValues(field: string, v: string, w: string)
    requires v != "" && w != ""
    ensures EqOrIn(field, [v, w]) == Some(field + " IN [" + Quoted(v) + ", " + Quoted(w) + "]")
  {
    hide Quoted;
    assert [v, w][1..] == [w] && [w][1..] == [];
    assert NonEmpty([w]) == [w] && NonEmpty([v, w]) == [v, w];
    assert QuotedList([w]) == Quoted(w);
    assert QuotedList([v, w]) == Quoted(v) + ", " + Quoted(w);
    assert field + " " + "IN [" + (Quoted(v) + ", " + Quoted(w)) + "]" ==
      field + " IN [" + Quoted(v) + ", " + Quoted(w) + "]";
  }

  /** The whole filter list of a request that asks for one value of each kind. */
  lemma CompiledShown(ts: Date -> int, a: string, b: string, c: string, d: string, e: string, y: int, f: Date, t: Date)
    requires a != "" && b != "" && c != "" && d != "" && e != ""
    ensures Compile(ts, Query([a], [b], [c], [d], [e], Some(y), Some(f), Some(t))) == [
      "category_id = " + Quoted(a),
      "collection_id = " + Quoted(b),
      "asset_type = " + Quoted(c),
      "county = " + Quoted(d),
      "photographer = " + Quoted(e),
      "year = " + IntString(y),
      "publication_date_ts >= " + IntString(ts(f)),
      "publication_date_ts <= " + IntString(ts(t))]
  {
    hide EqOrIn, Quoted, IntString;
    ClauseHeads();
    OneValue(CATEGORY, a);
    OneValue(COLLECTION, b);
    OneValue(ASSET_TYPE, c);
    OneValue(COUNTY, d);
    OneValue(PHOTOGRAPHER, e);
    hide CATEGORY, COLLECTION, ASSET_TYPE, COUNTY, PHOTOGRAPHER, YEAR, TIMESTAMP;
  }

  lemma ClauseHeads()
    ensures CATEGORY + " = " == "category_id = " && COLLECTION + " = " == "collection_id = "
    ensures ASSET_TYPE + " = " == "asset_type = " && COUNTY + " = " == "county = "
    ensures PHOTOGRAPHER + " = " == "photographer = " && YEAR + " " + "= " == "year = "
    ensures TIMESTAMP + " " + ">= " == "publication_date_ts >= " && TIMESTAMP + " " + "<= " == "publication_date_ts <= "
  {}

  predicate IsPlainValue(v: string) {
    v != "" && ',' !in v && !IsSpace(v[0]) && !IsSpace(v[|v| - 1])
  }

  /** A list of plain values joined by commas is read back as that list. */
  lemma CsvRoundTrip(vs: seq<string>)
    requires forall v | v in vs :: IsPlainValue(v)
    ensures Csv(Join(vs, ",")) == vs
  {
    hide Split, Trim, IsPlainValue, NonEmpty, Join, Trimmed;
    PlainParts(vs);
    if vs == [] {
      assert Join(vs, ",") == "" by { JoinFirst(vs); }
    } else {
      SplitJoin(vs);
      TrimmedPlain(vs);
      NonEmptyAll(vs);
      JoinFirst(vs);
    }
  }

  lemma JoinFirst(vs: seq<string>)
    ensures vs == [] ==> Join(vs, ",") == ""
    ensures vs != [] && vs[0] != "" ==> Join(vs, ",") != ""
  {}

  lemma PlainParts(vs: seq<string>)
    requires forall v | v in vs :: IsPlainValue(v)
    ensures forall v | v in vs :: ',' !in v
    ensures forall i | 0 <= i < |vs| :: vs[i] != ""
  {
    forall i | 0 <= i < |vs|
      ensures vs[i] != ""
    {
      assert IsPlainValue(vs[i]);
    }
  }

  lemma {:induction false} SplitJoin(vs: seq<string>)
    requires vs != [] && forall v | v in vs :: ',' !in v
    ensures Split(Join(vs, ","), ',') == vs
  {
    hide Split;
    assert vs[0] in vs;
    if |vs| == 1 {
      SplitNothing(vs[0], ',');
      assert vs == [vs[0]];
    } else {
      var rest := vs[1..];
      SplitJoin(rest);
      JoinStep(vs);
      hide Join;
      SplitAt(vs[0], Join(rest, ","));
      assert vs == [vs[0]] + rest;
    }
  }

  lemma JoinStep(vs: seq<string>)
    requires |vs| > 1
    ensures Join(vs, ",") == vs[0] + "," + Join(vs[1..], ",")
  {}

  lemma {:induction false} SplitAt(v: string, rest: string)
    requires ',' !in v
    ensures Split(v + "," + rest, ',') == [v] + Split(rest, ',')
  {
    var s := v + "," + rest;
    if v == "" {
      assert s[0] == ',' && s[1..] == rest;
    } else {
      assert s[0] == v[0] && s[1..] == v[1..] + "," + rest;
      SplitAt(v[1..], rest);
      assert v == [v[0]] + v[1..];
    }
  }

  lemma TrimmedPlain(vs: seq<string>)
    requires forall v | v in vs :: IsPlainValue(v)
    ensures Trimmed(vs) == vs
  {
    forall i | 0 <= i < |vs|
      ensures Trim(vs[i], IsSpace) == vs[i]
    {
      assert IsPlainValue(vs[i]);
      TrimNothing(vs[i]);
    }
    hide Trim;
  }

  lemma {:induction false} NonEmptyAll(vs: seq<string>)
    requires forall i | 0 <= i < |vs| :: vs[i] != ""
    ensures NonEmpty(vs) == vs
  {
    if vs == [] {
    } else {
      NonEmptyAll(vs[1..]);
      assert vs == [vs[0]] + vs[1..];
    }
  }

  /** The filter list as `search` builds it: the text clauses that exist, then the appended bounds. */
  method BuildFilters(ts: Date -> int, q: Query) returns (filters: seq<string>)
    ensures filters == Compile(ts, q)
  {
    var clauses := [
      EqOrIn(CATEGORY, q.category), EqOrIn(COLLECTION, q.collection), EqOrIn(ASSET_TYPE, q.assetType),
      EqOrIn(COUNTY, q.county), EqOrIn(PHOTOGRAPHER, q.photographer)];
    hide EqOrIn, IntClause;
    filters := [];
    for i := 0 to |clauses|
      invariant filters == Present(clauses[..i])
    {
      assert clauses[..i + 1][..i] == clauses[..i];
      if clauses[i].Some? {
        filters := filters + [clauses[i].value];
      }
    }
    assert clauses[..|clauses|] == clauses;
    PresentFive(clauses);
    if q.year.Some? {
      filters := filters + [IntClause(YEAR, "= ", q.year.value)];
    }
    if q.dateFrom.Some? {
      filters := filters + [IntClause(TIMESTAMP, ">= ", ts(q.dateFrom.value))];
    }
    if q.dateTo.Some? {
      filters := filters + [IntClause(TIMESTAMP, "<= ", ts(q.dateTo.value))];
    }
  }

  function Present(clauses: seq<Option<string>>): seq<string> {
    if clauses == [] then [] else Present(clauses[..|clauses| - 1]) + Optional(clauses[|clauses| - 1])
  }

  lemma PresentFive(c: seq<Option<string>>)
    requires |c| == 5
    ensures Present(c) == Optional(c[0]) + Optional(c[1]) + Optional(c[2]) + Optional(c[3]) + Optional(c[4])
  {
    assert c[..4][..3] == c[..3] && c[..3][..2] == c[..2] && c[..2][..1] == c[..1] && c[..1][..0] == [];
    assert Present(c[..1]) == Optional(c[0]);
    assert Present(c[..2]) == Present(c[..1]) + Optional(c[1]);
    assert Present(c[..3]) == Present(c[..2]) + Optional(c[2]);
    assert Present(c[..4]) == Present(c[..3]) + Optional(c[3]);
  }
}
