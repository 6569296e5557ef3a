/** One search request on its way to either engine: the raw parameters, who reads them how, and who agrees. */
module FilterRequests {
  import opened Strings
  import opened FeedMapping
  import opened Filters
  import opened Numbering

  // ----- raw parameters and their readers -----

  /** The filter parameters as text; an absent one is empty. */
  datatype Params = Params(
    category: string,
    collection: string,
    assetType: string,
    county: string,
    photographer: string,
    year: string,
    dateFrom: string,
    dateTo: string)

  /** The library functions that read a non-empty date or year. */
  datatype Readers = Readers(
    iso: string -> Result<Option<Date>>,   // parse_date: ISO notations only, raises on a day that does not exist
    form: string -> Option<Date>,          // the form field of a DateFilter, locale notations included
    integer: string -> Option<int>,        // int(text)
    number: string -> Option<int>)         // the value of a NumberFilter as a year lookup truncates it
  {
    /** All that is assumed: a calendar day YYYY-MM-DD and a plain year are read alike. */
    ghost predicate Lawful() {
      && (forall raw | IsDay(raw) :: iso(raw) == Ok(Some(DayOf(raw))) && form(raw) == Some(DayOf(raw)))
      && (forall raw | IsPlainYear(raw) :: integer(raw) == Some(Number(raw)) && number(raw) == Some(Number(raw)))
    }
  }

  predicate IsLeap(year: nat) {
    year % 4 == 0 && (year % 100 != 0 || year % 400 == 0)
  }

  function DaysIn(year: nat, month: nat): nat {
    if month == 2 then (if IsLeap(year) then 29 else 28)
    else if month == 4 || month == 6 || month == 9 || month == 11 then 30
    else 31
  }

  /** A calendar day in the notation YYYY-MM-DD. */
  predicate IsDay(raw: string) {
    && |raw| == 10 && raw[4] == '-' && raw[7] == '-'
    && AllDigits(raw[..4]) && AllDigits(raw[5..7]) && AllDigits(raw[8..])
    && var d := Date(Number(raw[..4]), Number(raw[5..7]), Number(raw[8..]));
       d.year >= 1 && 1 <= d.month <= 12 && 1 <= d.day <= DaysIn(d.year, d.month)
  }

  function DayOf(raw: string): (d: Date)
    requires IsDay(raw)
    ensures OnCalendar(d)
  {
    Date(Number(raw[..4]), Number(raw[5..7]), Number(raw[8..]))
  }

  predicate IsPlainYear(raw: string) {
    1 <= |raw| <= 4 && AllDigits(raw) && Number(raw) >= 1
  }

  // ----- the engine's side -----

  /** `parse_date(params.get(name) or "")` */
  function EngineBound(r: Readers, raw: string): Result<Option<Date>> {
    if raw == "" then Ok(None) else r.iso(raw)
  }

  /** `int(year)`, unless the parameter is empty. */
  function EngineYear(r: Readers, raw: string): Result<Option<int>> {
    if raw == "" then Ok(None)
    else match r.integer(raw)
      case Some(n) => Ok(Some(n))
      case None => Raised
  }

  /** `_meili_filters` and the parsing in `search`; a value that cannot be read raises. */
  function EngineQuery(r: Readers, p: Params): Result<Query> {
    var dateFrom :- EngineBound(r, p.dateFrom);
    var dateTo :- EngineBound(r, p.dateTo);
    var year :- EngineYear(r, p.year);
    Ok(Query(Csv(p.category), Csv(p.collection), Csv(p.assetType), Csv(p.county), Csv(p.photographer), year,
      dateFrom, dateTo))
  }

  // ----- the database's side -----

  /** A date that the form cannot read is missing from its cleaned data, and no filter is applied. */
  function DatabaseBound(r: Readers, raw: string): Option<Date> {
    if raw == "" then None else r.form(raw)
  }

  /** So is what is no number; but the lookup raises on a year that no date has. */
  function DatabaseYear(r: Readers, raw: string): Result<Option<int>> {
    if raw == "" then Ok(None)
    else match r.number(raw)
      case Some(n) => if 1 <= n <= 9999 then Ok(Some(n)) else Raised
      case None => Ok(None)
  }

  /**
   * `DigitalAssetFilter(request.GET, ...).qs`, to which the search falls back, on the row of one asset. It
   * does not ask whether the form is valid; ids that are none raise in the query.
   */
  function DatabaseAnswer(ids: Ids, r: Readers, p: Params, a: CatalogueAsset): Result<bool> {
    if !IdsReadable(ids, p.category) || !IdsReadable(ids, p.collection) then Raised
    else
      var year :- DatabaseYear(r, p.year);
      Ok(
        && WireSelectsId(ids, p.category, a.category)
        && WireSelectsId(ids, p.collection, a.collection)
        && WireSelects(p.assetType, Some(a.assetType))
        && WireSelects(p.county, a.county)
        && WireSelects(p.photographer, Some(a.photographer))
        && InYear(year, a.published)
        && NotBefore(DatabaseBound(r, p.dateFrom), a.published)
        && NotAfter(DatabaseBound(r, p.dateTo), a.published))
  }

  // ----- requests that raise -----

  /** The engine's side raises exactly for a day that does not exist, and for a year that is no integer. */
  lemma EngineRaises(r: Readers, p: Params)
    ensures EngineQuery(r, p).Raised? <==>
      || (p.dateFrom != "" && r.iso(p.dateFrom) == Raised)
      || (p.dateTo != "" && r.iso(p.dateTo) == Raised)
      || (p.year != "" && r.integer(p.year) == None)
  {
    hide Csv;
  }

  /** The database's side raises exactly for an id that is none, and for a number that no date has for its year. */
  lemma DatabaseRaises(ids: Ids, r: Readers, p: Params, a: CatalogueAsset)
    ensures DatabaseAnswer(ids, r, p, a).Raised? <==>
      || !IdsReadable(ids, p.category) || !IdsReadable(ids, p.collection)
      || (p.year != "" && r.number(p.year).Some? && (r.number(p.year).value < 1 || r.number(p.year).value > 9999))
  {
    hide IdsReadable, WireSelects, WireSelectsId, InYear, NotBefore, NotAfter;
  }

  // ----- when a date or a year is read alike -----

  lemma SameNotBefore(x: Option<Date>, y: Option<Date>)
    ensures (forall published :: NotBefore(x, published) <==> NotBefore(y, published)) <==> x == y
  {
    if x != y {
      if x == None || y == None {
        assert NotBefore(x, None) != NotBefore(y, None);
      } else {
        assert NotBefore(x, x) && NotBefore(y, y);
        assert !NotBefore(x, y) || !NotBefore(y, x);
      }
    }
  }

  lemma SameNotAfter(x: Option<Date>, y: Option<Date>)
    ensures (forall published :: NotAfter(x, published) <==> NotAfter(y, published)) <==> x == y
  {
    if x != y {
      if x == None || y == None {
        assert NotAfter(x, None) != NotAfter(y, None);
      } else {
        assert NotAfter(x, x) && NotAfter(y, y);
        assert !NotAfter(x, y) || !NotAfter(y, x);
      }
    }
  }

  /** Engine and database answer alike on a lower date bound, for every asset, exactly when both read the same. */
  lemma FromAgreement(r: Readers, raw: string)
    ensures var engine, database := EngineBound(r, raw), DatabaseBound(r, raw);
      (engine.Ok? && forall published :: NotBefore(engine.value, published) <==> NotBefore(database, published)) <==>
      engine == Ok(database)
  {
    var engine, database := EngineBound(r, raw), DatabaseBound(r, raw);
    if engine.Ok? { SameNotBefore(engine.value, database); }
    hide NotBefore;
  }

  lemma ToAgreement(r: Readers, raw: string)
    ensures var engine, database := EngineBound(r, raw), DatabaseBound(r, raw);
      (engine.Ok? && forall published :: NotAfter(engine.value, published) <==> NotAfter(database, published)) <==>
      engine == Ok(database)
  {
    var engine, database := EngineBound(r, raw), DatabaseBound(r, raw);
    if engine.Ok? { SameNotAfter(engine.value, database); }
    hide NotAfter;
  }

  lemma SameInYear(x: Option<int>, y: Option<int>)
    requires y.Some? ==> y.value >= 0
    ensures (forall published :: InYear(x, published) <==> InYear(y, published)) <==> x == y
  {
    if x != y {
      if x == None || y == None {
        assert InYear(x, None) != InYear(y, None);
      } else {
        var published := Some(Date(y.value, 1, 1));
        assert InYear(y, published) && !InYear(x, published);
      }
    }
  }

  /** The same for a year, which both sides can fail to look up. */
  lemma YearAgreement(r: Readers, raw: string)
    ensures var engine, database := EngineYear(r, raw), DatabaseYear(r, raw);
      (engine.Ok? && database.Ok? &&
        forall published :: InYear(engine.value, published) <==> InYear(database.value, published)) <==>
      engine.Ok? && engine == database
  {
    var engine, database := EngineYear(r, raw), DatabaseYear(r, raw);
    if engine.Ok? && database.Ok? { SameInYear(engine.value, database.value); }
    hide InYear;
  }

  // ----- parameters on which the engines agree -----

  /** No backslash and no blank segment. */
  predicate PlainText(raw: string) {
    '\\' !in raw && (raw == "" || "" !in Trimmed(Segments(raw)))
  }

  predicate PlainIds(ids: Ids, raw: string) {
    '\\' !in raw && IdsCanonical(ids, raw)
  }

  predicate PlainDate(r: Readers, raw: string) {
    && EngineBound(r, raw) == Ok(DatabaseBound(r, raw))
    && (DatabaseBound(r, raw).Some? ==> OnCalendar(DatabaseBound(r, raw).value))
  }

  /** Dates and year are read alike, and the dates are on the calendar. */
  predicate PlainBounds(r: Readers, p: Params) {
    && PlainDate(r, p.dateFrom) && PlainDate(r, p.dateTo)
    && EngineYear(r, p.year).Ok? && EngineYear(r, p.year) == DatabaseYear(r, p.year)
  }

  predicate Plain(ids: Ids, r: Readers, p: Params) {
    && PlainIds(ids, p.category) && PlainIds(ids, p.collection)
    && PlainText(p.assetType) && PlainText(p.county) && PlainText(p.photographer)
    && PlainBounds(r, p)
  }

  /** Neither side takes this for a date. */
  predicate IsNoDate(r: Readers, raw: string) {
    r.iso(raw) == Ok(None) && r.form(raw) == None
  }

  /** Days written YYYY-MM-DD, texts that are no date to either side, and years of one to four digits are read alike. */
  lemma IsoIsPlain(r: Readers, p: Params)
    requires r.Lawful()
    requires forall raw | raw in [p.dateFrom, p.dateTo] :: raw == "" || IsDay(raw) || IsNoDate(r, raw)
    requires p.year == "" || IsPlainYear(p.year)
    ensures PlainBounds(r, p)
  {
    if p.year != "" { YearInRange(p.year); }
    assert p.dateFrom in [p.dateFrom, p.dateTo] && p.dateTo in [p.dateFrom, p.dateTo];
    hide IsDay, IsPlainYear, DayOf;
  }

  lemma YearInRange(raw: string)
    requires IsPlainYear(raw)
    ensures 1 <= Number(raw) <= 9999
  {
    NumberBound(raw);
    assert Pow10(4) == 10000;
    Pow10Monotone(|raw|, 4);
  }

  lemma {:induction false} Pow10Monotone(j: nat, k: nat)
    requires j <= k
    ensures Pow10(j) <= Pow10(k)
  {
    if j == k {
    } else {
      Pow10Monotone(j, k - 1);
    }
  }

  lemma TrimChars(s: string, c: char)
    requires c in Trim(s, IsSpace)
    ensures c in s
  {
    assert c in TrimLeft(s, IsSpace);
  }

  lemma PlainWellQuoted(raw: string)
    requires '\\' !in raw
    ensures AllWellQuoted(Csv(raw))
  {
    var parts := Segments(raw);
    SplitChars(raw, ',');
    NonEmptyExact(Trimmed(parts));
    hide Trim, NonEmpty, WellQuoted, Split;
    forall v | v in Csv(raw)
      ensures WellQuoted(v)
    {
      var i := TrimmedFrom(parts, v);
      assert parts[i] in parts;
      if '\\' in v {
        TrimChars(parts[i], '\\');
        assert false;
      }
      NoBackslashWellQuoted(v);
    }
  }

  lemma TrimmedFrom(parts: seq<string>, v: string) returns (i: nat)
    requires v in Trimmed(parts)
    ensures i < |parts| && v == Trim(parts[i], IsSpace)
  {
    hide Trim;
    i :| i < |parts| && Trimmed(parts)[i] == v;
  }

  lemma PlainSelects(raw: string, attribute: Option<string>)
    requires PlainText(raw)
    ensures Selects(Csv(raw), attribute) <==> WireSelects(raw, attribute)
  {
    WireAgreement(raw);
    hide Csv, Trimmed, Segments;
  }

  lemma PlainSelectsId(ids: Ids, raw: string, attribute: Option<Id>)
    requires ids.Lawful() && PlainIds(ids, raw)
    ensures IdsReadable(ids, raw)
    ensures Selects(Csv(raw), ids.TextOf(attribute)) <==> WireSelectsId(ids, raw, attribute)
  {
    IdAgreement(ids, raw);
    hide Csv, Trimmed, Segments, Selects, WireSelectsId;
  }

  /**
   * The search engine and the database answer the same search alike: for plain parameters neither
   * raises, and the document of an asset passes the printed filters exactly when the asset passes the
   * database filter. Plain means no backslashes and no blank segments, ids in the notation of the
   * documents, and dates and a year that both read alike, as they do YYYY-MM-DD or no date at all.
   */
  lemma EnginesAgree(ids: Ids, r: Readers, ts: Date -> int, p: Params, a: CatalogueAsset)
    requires ids.Lawful() && Plain(ids, r, p) && StrictlyMonotone(ts)
    requires a.published.Some? ==> OnCalendar(a.published.value)
    ensures EngineQuery(r, p).Ok? && DatabaseAnswer(ids, r, p, a).Ok?
    ensures EngineAccepts(Compile(ts, EngineQuery(r, p).value), ToDocument(ids, ts, a)) <==>
      DatabaseAnswer(ids, r, p, a).value
  {
    hide Csv, AllWellQuoted, Selects, WireSelects, WireSelectsId, IdsReadable, IdsCanonical, EngineAccepts,
      Compile, StrictlyMonotone, Ids.Lawful, Ids.TextOf, InYear, NotBefore, NotAfter, OnCalendar,
      EngineBound, EngineYear, DatabaseBound, DatabaseYear;
    var q := EngineQuery(r, p).value;
    forall raw | raw in [p.category, p.collection, p.assetType, p.county, p.photographer]
      ensures AllWellQuoted(Csv(raw))
    {
      PlainWellQuoted(raw);
    }
    hide PlainText, PlainIds;
    PlainSelectsId(ids, p.category, a.category);
    PlainSelectsId(ids, p.collection, a.collection);
    PlainSelects(p.assetType, Some(a.assetType));
    PlainSelects(p.county, a.county);
    PlainSelects(p.photographer, Some(a.photographer));
    CompilationPreservesMeaning(ids, ts, q, a);
  }

  // ----- dates on which they do not -----

  const AMERICAN := "10/25/1979"

  const COMPACT := "19791025"

  function OnlyFrom(raw: string): Params {
    Params("", "", "", "", "", "", raw, "")
  }

  /** A locale date: the engine sees no bound and accepts what the database rejects. */
  lemma AmericanDate(ids: Ids, r: Readers, ts: Date -> int, a: CatalogueAsset)
    requires r.iso(AMERICAN) == Ok(None) && r.form(AMERICAN) == Some(Date(1979, 10, 25))
    requires a.published.Some? && Before(a.published.value, Date(1979, 10, 25))
    ensures var p := OnlyFrom(AMERICAN);
      && EngineQuery(r, p).Ok? && EngineAccepts(Compile(ts, EngineQuery(r, p).value), ToDocument(ids, ts, a))
      && DatabaseAnswer(ids, r, p, a) == Ok(false)
  {
    var p := OnlyFrom(AMERICAN);
    assert Csv("") == [] && NonEmpty([]) == [];
    var q := EngineQuery(r, p).value;
    assert q == Query([], [], [], [], [], None, None, None);
    assert Compile(ts, q) == [];
    assert !NotBefore(Some(Date(1979, 10, 25)), a.published);
    hide Compile, EqOrIn, Csv, Trimmed, Segments;
  }

  /** A compact ISO date: the engine rejects what the database, seeing no bound, accepts. */
  lemma CompactDate(ids: Ids, r: Readers, ts: Date -> int, a: CatalogueAsset)
    requires r.iso(COMPACT) == Ok(Some(Date(1979, 10, 25))) && r.form(COMPACT) == None && StrictlyMonotone(ts)
    requires a.published.Some? && OnCalendar(a.published.value) && Before(a.published.value, Date(1979, 10, 25))
    ensures var p := OnlyFrom(COMPACT);
      && EngineQuery(r, p).Ok? && !EngineAccepts(Compile(ts, EngineQuery(r, p).value), ToDocument(ids, ts, a))
      && DatabaseAnswer(ids, r, p, a) == Ok(true)
  {
    var p := OnlyFrom(COMPACT);
    assert Csv("") == [];
    var q := EngineQuery(r, p).value;
    assert q == Query([], [], [], [], [], None, Some(Date(1979, 10, 25)), None);
    assert !NotBefore(q.dateFrom, a.published);
    hide Compile, EngineAccepts, Csv, Trimmed, Segments, StrictlyMonotone, WellQuoted, NotBefore, Before;
    CompilationPreservesMeaning(ids, ts, q, a);
  }
}
