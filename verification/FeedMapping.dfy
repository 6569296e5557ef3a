/** Legacy feed records, their change-detection checksum, and their mapping onto catalogue fields. */
module FeedMapping {
  import opened Strings
  import opened Normalizers

  /** A feed record: scalar keys, plus the two keys that hold thumbnail URLs. */
  datatype Record = Record(
    fields: map<string, Value>,
    thumbnails: seq<string>,
    imageThumbnails: Option<seq<string>>
  ) {
    /** `rec.get(key)` */
    function Get(key: string): Value {
      if key in fields then fields[key] else Null
    }
  }

  datatype Date = Date(year: nat, month: nat, day: nat)

  datatype ItemType = MainCategory | SubCategory

  type Uuid = nat

  /** Library conversions and database tables that the mapping consults. */
  datatype Config = Config(
    uuid: string -> Option<Uuid>,                        // uuid.UUID(text)
    strptime: (string, string) -> Option<Date>,          // datetime.strptime(text, format)
    parseInt: string -> Option<int>,                     // int(text)
    decimal: Value -> Option<int>,                       // Decimal(value), in cents
    codes: map<(ItemType, int), Option<nat>>,            // LegacyCodeMap row -> its target
    defaultPrice: int                                    // settings.ASSET_DEFAULT_PRICE
  )

  // ----- change detection -----

  const CHECKSUM_FIELDS: set<string> := {
    "image_refno", "image_description", "image_headline", "image_caption", "image_keywords",
    "image_scene_location", "image_Iso_country_created", "image_county_created",
    "intellectual_genre", "iptc_scene", "image_source", "main_category", "sub_category",
    "image_creator", "image_date_created", "image_creator_jobtitle"
  }

  /** SHA-256 taken as collision free: the digest stands for the projected record itself. */
  datatype Checksum = Checksum(fields: map<string, Value>, imageThumbnails: Option<seq<string>>)

  function ChecksumOf(rec: Record): Checksum {
    Checksum(map k | k in CHECKSUM_FIELDS :: rec.Get(k), rec.imageThumbnails)
  }

  lemma SameField(a: Record, b: Record, key: string)
    requires ChecksumOf(a) == ChecksumOf(b) && key in CHECKSUM_FIELDS
    ensures a.Get(key) == b.Get(key)
  {
    assert ChecksumOf(a).fields[key] == a.Get(key);
    assert ChecksumOf(b).fields[key] == b.Get(key);
  }

  // ----- parse_date, _resolve, parse_decimal -----

  const DATE_FORMATS := ["%Y-%m-%d", "%d/%m/%Y", "%Y/%m/%d", "%d-%m-%Y"]

  const UNKNOWN_DATE := Date(1970, 1, 1)

  function TryFormats(config: Config, text: string, formats: seq<string>): Option<Date>
    decreases |formats|
  {
    if formats == [] then None
    else match config.strptime(text, formats[0])
      case Some(d) => if d == UNKNOWN_DATE then None else Some(d)
      case None => TryFormats(config, text, formats[1..])
  }

  /** The first format that parses decides, and the "unknown" day is no date. */
  lemma {:induction false} TryFormatsExact(config: Config, text: string, formats: seq<string>)
    ensures forall d :: TryFormats(config, text, formats) == Some(d) <==>
      d != UNKNOWN_DATE && exists i | 0 <= i < |formats| ::
        config.strptime(text, formats[i]) == Some(d) && forall j | 0 <= j < i ::
          config.strptime(text, formats[j]) == None
    decreases |formats|
  {
    if formats == [] {
    } else {
      var rest := formats[1..];
      TryFormatsExact(config, text, rest);
      forall d
        ensures TryFormats(config, text, formats) == Some(d) <==>
          d != UNKNOWN_DATE && FirstParse(config, text, formats, d)
      {
        FirstParseStep(config, text, formats, d);
        assert TryFormats(config, text, rest) == Some(d) <==> d != UNKNOWN_DATE && FirstParse(config, text, rest, d);
      }
    }
  }

  predicate FirstParse(config: Config, text: string, formats: seq<string>, d: Date) {
    exists i | 0 <= i < |formats| ::
      config.strptime(text, formats[i]) == Some(d) && forall j | 0 <= j < i :: config.strptime(text, formats[j]) == None
  }

  lemma FirstParseStep(config: Config, text: string, formats: seq<string>, d: Date)
    requires formats != []
    ensures FirstParse(config, text, formats, d) <==>
      match config.strptime(text, formats[0])
      case Some(e) => e == d
      case None => FirstParse(config, text, formats[1..], d)
  {
    var rest := formats[1..];
    assert forall i | 0 <= i < |rest| :: rest[i] == formats[i + 1];
    if config.strptime(text, formats[0]) == None && FirstParse(config, text, rest, d) {
      var i :| 0 <= i < |rest| && config.strptime(text, rest[i]) == Some(d) && forall j | 0 <= j < i ::
        config.strptime(text, rest[j]) == None;
      assert config.strptime(text, formats[i + 1]) == Some(d);
    }
    if config.strptime(text, formats[0]) == None && FirstParse(config, text, formats, d) {
      var i :| 0 <= i < |formats| && config.strptime(text, formats[i]) == Some(d) && forall j | 0 <= j < i ::
        config.strptime(text, formats[j]) == None;
      assert config.strptime(text, rest[i - 1]) == Some(d);
    }
  }

  /** A result of code that may raise. */
  datatype Result<+T> = Ok(value: T) | Raised {
    predicate IsFailure() { Raised? }
    function PropagateFailure<U>(): Result<U>
      requires Raised?
    { Raised }
    function Extract(): T
      requires Ok?
    { value }
  }

  /** A number has no `strip`, so a truthy non-string raises. */
  function ParseDate(config: Config, v: Value): Result<Option<Date>> {
    if !v.Truthy() then Ok(None)
    else match v
      case Str(s) => Ok(TryFormats(config, Trim(s, IsSpace), DATE_FORMATS))
      case _ => Raised
  }

  function Resolve(config: Config, itemType: ItemType, code: Value): Option<nat> {
    var number := match code
      case Null => None
      case Num(n) => if n == 0 then None else Some(n)
      case Str(s) => if s == "" then None else config.parseInt(s);
    if number.Some? && (itemType, number.value) in config.codes
    then config.codes[(itemType, number.value)] else None
  }

  function ParseDecimal(config: Config, v: Value): Option<int> {
    if v == Null || v == Str("") then None
    else match config.decimal(v)
      case Some(cents) => if cents > 0 then Some(cents) else None
      case None => None
  }

  // ----- _map_fields, _map_metadata, _map_tags -----

  const TEXT_LIMIT: nat := 255

  datatype Status = Draft | Review | Published | Archived

  /** The catalogue fields whose sources all take part in the checksum. */
  datatype Content = Content(
    title: string,
    description: string,
    caption: string,
    photographer: string,
    source: string,
    publicationDate: Option<Date>,
    captureDate: Option<Date>,
    category: Option<nat>,
    collection: Option<nat>,
    keywords: string,
    location: string,
    county: string,
    country: string,
    headline: string,
    tags: set<string>
  )

  /** The catalogue fields mapped from keys outside the checksum. */
  datatype Volatile = Volatile(status: Status, dateDigitized: Option<Date>)

  datatype Mapping = Mapping(content: Content, extra: Volatile)

  function Or(first: string, second: string): string {
    if first != "" then first else second
  }

  /** The headline of last resort shows the reference as Python formats it: "None" when null, "" when absent. */
  function FallbackTitle(rec: Record): string {
    "KNA archive image " +
    if "image_refno" in rec.fields then rec.fields["image_refno"].Text() else ""
  }

  function Title(rec: Record): string {
    var description := SentenceCase(rec.Get("image_description"));
    var headline := SentenceCase(rec.Get("image_headline"));
    Or(Prefix(description, TEXT_LIMIT), Or(Prefix(headline, TEXT_LIMIT), FallbackTitle(rec)))
  }

  function Photographer(rec: Record): string {
    Or(CleanText(rec.Get("image_creator")),
       Or(SentenceCase(rec.Get("image_creator_jobtitle")), "Staff Photographer"))
  }

  function Keywords(rec: Record): string {
    var refno, words := CleanText(rec.Get("image_refno")), CleanText(rec.Get("image_keywords"));
    if refno == "" then words else if words == "" then refno else refno + " " + words
  }

  /** A number has no `replace`, so a truthy non-string raises. */
  function KeywordTags(v: Value): Result<seq<string>> {
    if !v.Truthy() then Ok([])
    else match v
      case Str(s) => Ok(ParseTags(s))
      case _ => Raised
  }

  /** Year and decade, "1979" and "1970s". */
  function EraTags(published: Option<Date>): seq<string> {
    match published
    case Some(d) => [Digits(d.year), Digits(d.year / 10 * 10) + "s"]
    case None => []
  }

  function TagNames(rec: Record, published: Option<Date>): Result<set<string>> {
    var names :- KeywordTags(rec.Get("image_keywords"));
    Ok((set t | t in names) + (set t | t in EraTags(published)))
  }

  /** Some thumbnail URL is not blank. A list of strings is the live-feed shape. */
  predicate HasPreview(rec: Record) {
    var entries := if rec.thumbnails != [] then rec.thumbnails else
      match rec.imageThumbnails case Some(urls) => urls case None => [];
    exists url | url in entries :: Trim(url, IsSpace) != ""
  }

  function ContentOf(config: Config, rec: Record): Result<Content> {
    var published :- ParseDate(config, rec.Get("image_date_created"));
    var tags :- TagNames(rec, published);
    Ok(Assemble(config, rec, published, tags))
  }

  function Assemble(config: Config, rec: Record, published: Option<Date>, tags: set<string>): Content {
    Content(
      Title(rec),
      SentenceCase(rec.Get("image_description")),
      SentenceCase(rec.Get("image_caption")),
      Photographer(rec),
      Or(CleanText(rec.Get("image_source")), "KNA"),
      published,
      published,
      Resolve(config, SubCategory, rec.Get("sub_category")),
      Resolve(config, MainCategory, rec.Get("main_category")),
      Keywords(rec),
      TitleCaseLocation(rec.Get("image_scene_location")),
      TitleCaseLocation(rec.Get("image_county_created")),
      NormalizeCountry(rec.Get("image_Iso_country_created")),
      Prefix(SentenceCase(rec.Get("image_headline")), TEXT_LIMIT),
      tags)
  }

  /** What one remap of the record writes, or the exception that rolls it back. */
  function MapRecord(config: Config, rec: Record): Result<Mapping> {
    var content :- ContentOf(config, rec);
    var digitized :- ParseDate(config, rec.Get("date_image_injested"));
    Ok(Mapping(content, Volatile(if HasPreview(rec) then Published else Draft, digitized)))
  }

  function Price(config: Config, rec: Record): int {
    match ParseDecimal(config, rec.Get("image_cost"))
    case Some(cents) => cents
    case None => config.defaultPrice
  }

  // ----- what the checksum covers -----

  /** No description, no headline, and one record omits the reference while the other sends null. */
  predicate TitleDrift(a: Record, b: Record) {
    && SentenceCase(a.Get("image_description")) == ""
    && SentenceCase(a.Get("image_headline")) == ""
    && a.Get("image_refno") == Null
    && ("image_refno" in a.fields) != ("image_refno" in b.fields)
  }

  /** Equal checksums give equal titles except exactly in the drifting case. */
  lemma TitleCovered(a: Record, b: Record)
    requires ChecksumOf(a) == ChecksumOf(b)
    ensures Title(a) == Title(b) <==> !TitleDrift(a, b)
  {
    SameField(a, b, "image_description");
    SameField(a, b, "image_headline");
    SameField(a, b, "image_refno");
    var prefix := "KNA archive image ";
    assert |prefix + "None"| != |prefix + ""|;
  }

  lemma TextCovered(a: Record, b: Record)
    requires ChecksumOf(a) == ChecksumOf(b)
    ensures Photographer(a) == Photographer(b) && Keywords(a) == Keywords(b)
    ensures a.Get("image_description") == b.Get("image_description")
    ensures a.Get("image_caption") == b.Get("image_caption")
    ensures a.Get("image_source") == b.Get("image_source")
    ensures a.Get("image_headline") == b.Get("image_headline")
  {
    SameField(a, b, "image_creator");
    SameField(a, b, "image_creator_jobtitle");
    SameField(a, b, "image_refno");
    SameField(a, b, "image_keywords");
    SameField(a, b, "image_description");
    SameField(a, b, "image_caption");
    SameField(a, b, "image_source");
    SameField(a, b, "image_headline");
  }

  lemma PlaceCovered(a: Record, b: Record)
    requires ChecksumOf(a) == ChecksumOf(b)
    ensures a.Get("sub_category") == b.Get("sub_category")
    ensures a.Get("main_category") == b.Get("main_category")
    ensures a.Get("image_scene_location") == b.Get("image_scene_location")
    ensures a.Get("image_county_created") == b.Get("image_county_created")
    ensures a.Get("image_Iso_country_created") == b.Get("image_Iso_country_created")
    ensures a.Get("image_date_created") == b.Get("image_date_created")
    ensures a.Get("image_keywords") == b.Get("image_keywords")
  {
    SameField(a, b, "sub_category");
    SameField(a, b, "main_category");
    SameField(a, b, "image_scene_location");
    SameField(a, b, "image_county_created");
    SameField(a, b, "image_Iso_country_created");
    SameField(a, b, "image_date_created");
    SameField(a, b, "image_keywords");
  }

  lemma AssembleCovered(config: Config, a: Record, b: Record, published: Option<Date>, tags: set<string>)
    requires ChecksumOf(a) == ChecksumOf(b)
    ensures Assemble(config, a, published, tags).(title := Title(b)) == Assemble(config, b, published, tags)
  {
    TextCovered(a, b);
    PlaceCovered(a, b);
    hide SentenceCase, CleanText, TitleCaseLocation, NormalizeCountry, Resolve,
      Photographer, Keywords, Title, ChecksumOf, Or, Prefix;
  }

  /**
   * The checksum covers the mapping: whatever one record of two with equal checksums maps to,
   * so does the other, in every field but a drifting title.
   */
  lemma ChecksumCoversMapping(config: Config, a: Record, b: Record)
    requires ChecksumOf(a) == ChecksumOf(b)
    ensures ContentOf(config, a).Ok? == ContentOf(config, b).Ok?
    ensures ContentOf(config, a).Ok? ==>
      var x, y := ContentOf(config, a).value, ContentOf(config, b).value;
      x.(title := y.title) == y && (x == y <==> !TitleDrift(a, b))
  {
    PlaceCovered(a, b);
    var published := ParseDate(config, a.Get("image_date_created"));
    if published.Ok? {
      var tags := TagNames(a, published.value);
      if tags.Ok? {
        AssembleCovered(config, a, b, published.value, tags.value);
        TitleCovered(a, b);
      }
    }
    hide Title, TitleDrift, ChecksumOf, ParseDate, KeywordTags, EraTags, Record.Get, SentenceCase, CleanText;
  }

  // ----- what it does not cover -----

  const IMAGE_ID := "00000000-0000-4000-8000-000000000001"

  const NO_REFNO := Record(map["image_id" := Str(IMAGE_ID)], [], None)

  const NULL_REFNO := Record(map["image_id" := Str(IMAGE_ID), "image_refno" := Null], [], None)

  const EDITED := Record(map["image_id" := Str(IMAGE_ID), "image_caption" := Str("Edited")], [], None)

  lemma SameChecksum(a: Record, b: Record)
    requires forall k | k in CHECKSUM_FIELDS :: a.Get(k) == b.Get(k)
    requires a.imageThumbnails == b.imageThumbnails
    ensures ChecksumOf(a) == ChecksumOf(b)
  {
    assert ChecksumOf(a).fields == ChecksumOf(b).fields;
  }

  /** The drift is real: two records that the checksum cannot tell apart, with different titles. */
  lemma TitleDriftExample()
    ensures ChecksumOf(NO_REFNO) == ChecksumOf(NULL_REFNO) && Title(NO_REFNO) != Title(NULL_REFNO)
  {
    SameChecksum(NO_REFNO, NULL_REFNO);
    assert TitleDrift(NO_REFNO, NULL_REFNO);
    TitleCovered(NO_REFNO, NULL_REFNO);
  }

  const FIRST_SCAN := Record(map["image_id" := Str(IMAGE_ID), "image_cost" := Str("100.00")], [], None)

  const LATER_SCAN := Record(
    map["image_id" := Str(IMAGE_ID), "image_cost" := Str("200.00"), "date_image_injested" := Str("2001-02-03")],
    ["13ea66-600_1.jpeg"],
    None)

  /** A record without dates and keywords always maps. */
  lemma BareMaps(config: Config, rec: Record)
    requires rec.Get("image_date_created") == Null && rec.Get("image_keywords") == Null
    requires ParseDate(config, rec.Get("date_image_injested")).Ok?
    ensures MapRecord(config, rec).Ok? && ContentOf(config, rec).Ok?
    ensures MapRecord(config, rec).value.content.title == Title(rec)
    ensures MapRecord(config, rec).value.extra ==
      Volatile(if HasPreview(rec) then Published else Draft, ParseDate(config, rec.Get("date_image_injested")).value)
  {
    hide Title, Photographer, Keywords, SentenceCase, CleanText, TitleCaseLocation, NormalizeCountry, Resolve,
      HasPreview;
  }

  lemma IsoDate(config: Config, text: string, d: Date)
    requires text != "" && !IsSpace(text[0]) && !IsSpace(text[|text| - 1])
    requires config.strptime(text, "%Y-%m-%d") == Some(d) && d != UNKNOWN_DATE
    ensures ParseDate(config, Str(text)) == Ok(Some(d))
  {
    TrimNothing(text);
    hide Trim;
    assert DATE_FORMATS[0] == "%Y-%m-%d";
  }

  lemma ScanDates(config: Config)
    requires config.strptime("2001-02-03", "%Y-%m-%d") == Some(Date(2001, 2, 3))
    ensures ParseDate(config, FIRST_SCAN.Get("date_image_injested")) == Ok(None)
    ensures ParseDate(config, LATER_SCAN.Get("date_image_injested")) == Ok(Some(Date(2001, 2, 3)))
  {
    hide TryFormats, Trim;
    IsoDate(config, "2001-02-03", Date(2001, 2, 3));
    assert LATER_SCAN.Get("date_image_injested") == Str("2001-02-03");
    assert FIRST_SCAN.Get("date_image_injested") == Null;
    hide ParseDate, LATER_SCAN, FIRST_SCAN;
    assert ParseDate(config, Null) == Ok(None) by { NoDate(config); }
  }

  lemma NoDate(config: Config)
    ensures ParseDate(config, Null) == Ok(None)
  {}

  lemma PreviewOf(rec: Record, url: string)
    requires rec.thumbnails == [url] && url != "" && !IsSpace(url[0]) && !IsSpace(url[|url| - 1])
    ensures HasPreview(rec)
  {
    TrimNothing(url);
    hide Trim;
    assert rec.thumbnails[0] == url;
  }

  lemma ScanPreviews()
    ensures !HasPreview(FIRST_SCAN) && HasPreview(LATER_SCAN)
  {
    hide Trim;
    assert !HasPreview(FIRST_SCAN);
    hide HasPreview;
    PreviewOf(LATER_SCAN, "13ea66-600_1.jpeg");
  }

  lemma ScanChecksums()
    ensures ChecksumOf(FIRST_SCAN) == ChecksumOf(LATER_SCAN)
    ensures FIRST_SCAN.Get("image_date_created") == Null == LATER_SCAN.Get("image_date_created")
    ensures FIRST_SCAN.Get("image_keywords") == Null == LATER_SCAN.Get("image_keywords")
  {
    SameChecksum(FIRST_SCAN, LATER_SCAN);
    hide ChecksumOf;
  }

  /** Neither is the price, the preview or the scan date: two records with one checksum that differ in all three. */
  lemma VolatileExample(config: Config)
    requires config.decimal(Str("100.00")) == Some(10000) && config.decimal(Str("200.00")) == Some(20000)
    requires config.strptime("2001-02-03", "%Y-%m-%d") == Some(Date(2001, 2, 3))
    ensures ChecksumOf(FIRST_SCAN) == ChecksumOf(LATER_SCAN)
    ensures MapRecord(config, FIRST_SCAN).Ok? && MapRecord(config, LATER_SCAN).Ok?
    ensures MapRecord(config, FIRST_SCAN).value.extra == Volatile(Draft, None)
    ensures MapRecord(config, LATER_SCAN).value.extra == Volatile(Published, Some(Date(2001, 2, 3)))
    ensures Price(config, FIRST_SCAN) == 10000 && Price(config, LATER_SCAN) == 20000
  {
    hide ChecksumOf, MapRecord, HasPreview, ParseDate;
    ScanPrices(config);
    ScanDates(config);
    ScanPreviews();
    ScanChecksums();
    hide FIRST_SCAN, LATER_SCAN, Price;
    BareMaps(config, FIRST_SCAN);
    BareMaps(config, LATER_SCAN);
  }

  lemma ScanPrices(config: Config)
    requires config.decimal(Str("100.00")) == Some(10000) && config.decimal(Str("200.00")) == Some(20000)
    ensures Price(config, FIRST_SCAN) == 10000 && Price(config, LATER_SCAN) == 20000
  {}
}
