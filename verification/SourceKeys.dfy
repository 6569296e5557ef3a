/** Which key of a feed record each catalogue field comes from, and what stands in when that key is blank. */
module SourceKeys {
  import opened Strings
  import opened Normalizers
  import opened FeedMapping

  lemma Shown(config: Config, rec: Record, c: Content)
    requires ContentOf(config, rec) == Ok(c)
    ensures c.title == Title(rec) && c.photographer == Photographer(rec) && c.keywords == Keywords(rec)
    ensures c.description == SentenceCase(rec.Get("image_description"))
    ensures c.caption == SentenceCase(rec.Get("image_caption"))
    ensures c.headline == Prefix(SentenceCase(rec.Get("image_headline")), 255)
    ensures c.source == Or(CleanText(rec.Get("image_source")), "KNA")
    ensures c.category == Resolve(config, SubCategory, rec.Get("sub_category"))
    ensures c.collection == Resolve(config, MainCategory, rec.Get("main_category"))
    ensures c.location == TitleCaseLocation(rec.Get("image_scene_location"))
    ensures c.county == TitleCaseLocation(rec.Get("image_county_created"))
    ensures c.country == NormalizeCountry(rec.Get("image_Iso_country_created"))
    ensures ParseDate(config, rec.Get("image_date_created")) == Ok(c.publicationDate)
    ensures c.captureDate == c.publicationDate && TagNames(rec, c.publicationDate) == Ok(c.tags)
  {
    hide Title, Photographer, Keywords, SentenceCase, CleanText, TitleCaseLocation, NormalizeCountry, Resolve,
      ParseDate, TagNames, Prefix, Or, Record.Get;
  }

  // ----- one key at a time -----

  /** Two records that send the same under every key but one. */
  ghost predicate DifferOnlyIn(a: Record, b: Record, key: string) {
    && (forall k | k != key :: a.Get(k) == b.Get(k) && (k in a.fields <==> k in b.fields))
    && a.thumbnails == b.thumbnails && a.imageThumbnails == b.imageThumbnails
  }

  predicate Same(a: Record, b: Record, key: string) { a.Get(key) == b.Get(key) }

  lemma TitleKeys(a: Record, b: Record)
    requires a.Get("image_description") == b.Get("image_description")
    requires a.Get("image_headline") == b.Get("image_headline")
    requires a.Get("image_refno") == b.Get("image_refno") && ("image_refno" in a.fields <==> "image_refno" in b.fields)
    ensures Title(a) == Title(b)
  {
    hide SentenceCase, Prefix, Or;
  }

  lemma TextKeys(a: Record, b: Record)
    ensures Same(a, b, "image_creator") && Same(a, b, "image_creator_jobtitle") ==> Photographer(a) == Photographer(b)
    ensures Same(a, b, "image_refno") && Same(a, b, "image_keywords") ==> Keywords(a) == Keywords(b)
    ensures Same(a, b, "image_keywords") ==> forall published :: TagNames(a, published) == TagNames(b, published)
  {
    hide SentenceCase, CleanText, Or, KeywordTags, EraTags, Record.Get;
  }

  /** The key may be the source of a title, a credit, a keyword line, or tags. */
  predicate FeedsTitle(key: string) { key == "image_description" || key == "image_headline" || key == "image_refno" }

  predicate FeedsCredit(key: string) { key == "image_creator" || key == "image_creator_jobtitle" }

  predicate FeedsKeywords(key: string) { key == "image_refno" || key == "image_keywords" }

  predicate FeedsTags(key: string) { key == "image_keywords" || key == "image_date_created" }

  lemma OtherKeys(a: Record, b: Record, key: string, other: string)
    requires DifferOnlyIn(a, b, key) && key != other
    ensures Same(a, b, other) && (other in a.fields <==> other in b.fields)
  {}

  lemma OneKeyTexts(config: Config, a: Record, b: Record, key: string, x: Content, y: Content)
    requires DifferOnlyIn(a, b, key)
    requires ContentOf(config, a) == Ok(x) && ContentOf(config, b) == Ok(y)
    ensures !FeedsTitle(key) ==> x.title == y.title
    ensures !FeedsCredit(key) ==> x.photographer == y.photographer
    ensures !FeedsKeywords(key) ==> x.keywords == y.keywords
    ensures !FeedsTags(key) ==> x.tags == y.tags
  {
    hide Title, Photographer, Keywords, TagNames, ParseDate, DifferOnlyIn, ContentOf, Record.Get, SentenceCase,
      CleanText, TitleCaseLocation, NormalizeCountry, Resolve, Prefix, Or;
    Shown(config, a, x);
    Shown(config, b, y);
    TextKeys(a, b);
    if !FeedsTitle(key) {
      OtherKeys(a, b, key, "image_description");
      OtherKeys(a, b, key, "image_headline");
      OtherKeys(a, b, key, "image_refno");
      TitleKeys(a, b);
    }
    if !FeedsCredit(key) {
      OtherKeys(a, b, key, "image_creator");
      OtherKeys(a, b, key, "image_creator_jobtitle");
    }
    if !FeedsKeywords(key) {
      OtherKeys(a, b, key, "image_refno");
      OtherKeys(a, b, key, "image_keywords");
    }
    if !FeedsTags(key) {
      OtherKeys(a, b, key, "image_keywords");
      OtherKeys(a, b, key, "image_date_created");
    }
  }

  lemma OneKeyRest(config: Config, a: Record, b: Record, key: string, x: Content, y: Content)
    requires DifferOnlyIn(a, b, key)
    requires ContentOf(config, a) == Ok(x) && ContentOf(config, b) == Ok(y)
    ensures key != "image_description" ==> x.description == y.description
    ensures key != "image_caption" ==> x.caption == y.caption
    ensures key != "image_headline" ==> x.headline == y.headline
    ensures key != "image_source" ==> x.source == y.source
    ensures key != "image_date_created" ==> x.publicationDate == y.publicationDate && x.captureDate == y.captureDate
    ensures key != "sub_category" ==> x.category == y.category
    ensures key != "main_category" ==> x.collection == y.collection
    ensures key != "image_scene_location" ==> x.location == y.location
    ensures key != "image_county_created" ==> x.county == y.county
    ensures key != "image_Iso_country_created" ==> x.country == y.country
  {
    hide Title, Photographer, Keywords, TagNames, ParseDate, DifferOnlyIn, ContentOf, Record.Get, SentenceCase,
      CleanText, TitleCaseLocation, NormalizeCountry, Resolve, Prefix, Or;
    Shown(config, a, x);
    Shown(config, b, y);
    if key != "image_description" { OtherKeys(a, b, key, "image_description"); }
    if key != "image_caption" { OtherKeys(a, b, key, "image_caption"); }
    if key != "image_headline" { OtherKeys(a, b, key, "image_headline"); }
    if key != "image_source" { OtherKeys(a, b, key, "image_source"); }
    if key != "image_date_created" { OtherKeys(a, b, key, "image_date_created"); }
    if key != "sub_category" { OtherKeys(a, b, key, "sub_category"); }
    if key != "main_category" { OtherKeys(a, b, key, "main_category"); }
    if key != "image_scene_location" { OtherKeys(a, b, key, "image_scene_location"); }
    if key != "image_county_created" { OtherKeys(a, b, key, "image_county_created"); }
    if key != "image_Iso_country_created" { OtherKeys(a, b, key, "image_Iso_country_created"); }
  }

  /** Only the date and the keywords can make a record fail to map. */
  lemma OneKeyRaises(config: Config, a: Record, b: Record, key: string)
    requires DifferOnlyIn(a, b, key) && !FeedsTags(key)
    ensures ContentOf(config, a).Ok? <==> ContentOf(config, b).Ok?
  {
    hide ParseDate, TagNames, Assemble, Photographer, Keywords, Record.Get;
    TextKeys(a, b);
  }

  // ----- blank keys -----

  /** The cleaned text has no word: the key is absent, null, empty, zero or only spaces and stray characters. */
  predicate Blank(v: Value) {
    v in {Null, Str(""), Num(0)} || Words(FixMojibake(v.Text())) == []
  }

  lemma BlankExact(v: Value)
    ensures Blank(v) <==> CleanText(v) == ""
    ensures Blank(v) <==> SentenceCase(v) == ""
    ensures Blank(v) <==> TitleCaseLocation(v) == ""
  {
    hide FixMojibake, Words, SentenceText, CleanText, TitleCase;
    CleanTextWords(v);
    if v.Truthy() {
      var text := FixMojibake(v.Text());
      WordsAreWords(text);
      NoWords(Words(text));
    }
    SentenceTextEmpty(CleanText(v));
    TitleEmpty(CleanText(v));
  }

  lemma TitleEmpty(text: string)
    ensures TitleCase(text) == "" <==> text == ""
  {}

  lemma NoWords(words: seq<string>)
    requires forall word | word in words :: IsWord(word)
    ensures Join(words, " ") == "" <==> words == []
  {
    if words != [] { assert words[0] in words; }
  }

  lemma SentenceTextEmpty(text: string)
    ensures SentenceText(ARCHIVE_STYLE, text) == "" <==> text == ""
  {
    hide SentenceText;
    SentenceTextLower(ARCHIVE_STYLE, text);
    assert |Lower(SentenceText(ARCHIVE_STYLE, text))| == |SentenceText(ARCHIVE_STYLE, text)|;
    assert |Lower(text)| == |text|;
  }

  /** The first credit that is not blank: the creator, the job title, the house. */
  lemma PhotographerShown(config: Config, rec: Record, c: Content)
    requires ContentOf(config, rec) == Ok(c)
    ensures !Blank(rec.Get("image_creator")) ==> c.photographer == CleanText(rec.Get("image_creator"))
    ensures Blank(rec.Get("image_creator")) && !Blank(rec.Get("image_creator_jobtitle")) ==>
      c.photographer == SentenceCase(rec.Get("image_creator_jobtitle"))
    ensures Blank(rec.Get("image_creator")) && Blank(rec.Get("image_creator_jobtitle")) ==>
      c.photographer == "Staff Photographer"
  {
    hide Blank, CleanText, SentenceCase, Record.Get, ContentOf;
    Shown(config, rec, c);
    BlankExact(rec.Get("image_creator"));
    BlankExact(rec.Get("image_creator_jobtitle"));
  }

  /** The description, else the headline, else the reference as it is sent. */
  lemma TitleShown(config: Config, rec: Record, c: Content)
    requires ContentOf(config, rec) == Ok(c)
    ensures !Blank(rec.Get("image_description")) ==> c.title == Prefix(c.description, 255)
    ensures Blank(rec.Get("image_description")) && !Blank(rec.Get("image_headline")) ==> c.title == c.headline
    ensures Blank(rec.Get("image_description")) && Blank(rec.Get("image_headline")) ==>
      c.title == FallbackTitle(rec)
  {
    hide Blank, SentenceCase, Record.Get, ContentOf, FallbackTitle;
    Shown(config, rec, c);
    BlankExact(rec.Get("image_description"));
    BlankExact(rec.Get("image_headline"));
  }

  lemma ReferenceTitle(rec: Record)
    ensures "image_refno" !in rec.fields ==> FallbackTitle(rec) == "KNA archive image "
    ensures "image_refno" in rec.fields && rec.Get("image_refno") == Null ==>
      FallbackTitle(rec) == "KNA archive image " + "None"
    ensures forall refno :: rec.Get("image_refno") == Str(refno) ==> FallbackTitle(rec) == "KNA archive image " + refno
  {}

  /** The agency stands in for a blank source, and the reference goes before the keywords. */
  lemma SourceShown(config: Config, rec: Record, c: Content)
    requires ContentOf(config, rec) == Ok(c)
    ensures c.source == if Blank(rec.Get("image_source")) then "KNA" else CleanText(rec.Get("image_source"))
    ensures Blank(rec.Get("image_refno")) ==> c.keywords == CleanText(rec.Get("image_keywords"))
    ensures Blank(rec.Get("image_keywords")) ==> c.keywords == CleanText(rec.Get("image_refno"))
    ensures !Blank(rec.Get("image_refno")) && !Blank(rec.Get("image_keywords")) ==>
      c.keywords == CleanText(rec.Get("image_refno")) + " " + CleanText(rec.Get("image_keywords"))
  {
    hide Blank, CleanText, SentenceCase, Record.Get, ContentOf;
    Shown(config, rec, c);
    BlankExact(rec.Get("image_source"));
    BlankExact(rec.Get("image_refno"));
    BlankExact(rec.Get("image_keywords"));
  }

  /** Three codes in any case; whatever else is sent is Kenya. */
  lemma CountryShown(config: Config, rec: Record, c: Content)
    requires ContentOf(config, rec) == Ok(c)
    ensures var iso := Upper(CleanText(rec.Get("image_Iso_country_created")));
      && (iso == "UGA" ==> c.country == "Uganda")
      && (iso == "TZA" ==> c.country == "Tanzania")
      && (iso != "UGA" && iso != "TZA" ==> c.country == "Kenya")
  {
    hide CleanText, Upper, Record.Get, ContentOf;
    Shown(config, rec, c);
  }

  /** The code a value denotes in the code tables, if any. */
  function CodeOf(config: Config, v: Value): Option<int> {
    match v
    case Null => None
    case Num(n) => if n == 0 then None else Some(n)
    case Str(s) => if s == "" then None else config.parseInt(s)
  }

  predicate Target(config: Config, kind: ItemType, v: Value, target: nat) {
    match CodeOf(config, v)
    case Some(n) => (kind, n) in config.codes && config.codes[(kind, n)] == Some(target)
    case None => false
  }

  lemma ResolveExact(config: Config, kind: ItemType, v: Value)
    ensures forall n: nat :: Resolve(config, kind, v) == Some(n) <==> Target(config, kind, v, n)
  {}

  /** A category is the target of the sub-category code, a collection that of the main-category code. */
  lemma CodesShown(config: Config, rec: Record, c: Content)
    requires ContentOf(config, rec) == Ok(c)
    ensures forall n: nat :: c.category == Some(n) <==> Target(config, SubCategory, rec.Get("sub_category"), n)
    ensures forall n: nat :: c.collection == Some(n) <==> Target(config, MainCategory, rec.Get("main_category"), n)
  {
    hide Record.Get, ContentOf, Resolve, Target;
    Shown(config, rec, c);
    ResolveExact(config, SubCategory, rec.Get("sub_category"));
    ResolveExact(config, MainCategory, rec.Get("main_category"));
  }

  predicate IsEraTag(published: Option<Date>, t: string) {
    published.Some? && (t == Digits(published.value.year) || t == Digits(DecadeOf(published.value.year)) + "s")
  }

  lemma EraTagsExact(published: Option<Date>)
    ensures forall t :: t in EraTags(published) <==> IsEraTag(published, t)
  {
    if published.Some? { Decade(published.value.year); }
    hide Digits;
  }

  lemma KeywordTagsExact(v: Value)
    ensures KeywordTags(v).Raised? <==> v.Num? && v != Num(0)
    ensures KeywordTags(v).Ok? ==> forall t :: t in KeywordTags(v).value <==> v.Str? && t in ParseTags(v.s)
  {
    NoTags();
    hide ParseTags;
  }

  /** The tags are those of the keywords, and the year and the decade of a known publication date. */
  lemma TagsShown(config: Config, rec: Record, c: Content)
    requires ContentOf(config, rec) == Ok(c)
    ensures forall t :: t in c.tags <==>
      (rec.Get("image_keywords").Str? && t in ParseTags(rec.Get("image_keywords").s)) || IsEraTag(c.publicationDate, t)
  {
    hide Record.Get, ContentOf, ParseTags, IsEraTag, EraTags, KeywordTags;
    Shown(config, rec, c);
    KeywordTagsExact(rec.Get("image_keywords"));
    EraTagsExact(c.publicationDate);
  }

  lemma NoTags()
    ensures ParseTags("") == []
  {}

  /** The year with its last digit put to zero. */
  function DecadeOf(year: nat): nat { year - year % 10 }

  lemma Decade(year: nat)
    ensures year / 10 * 10 == DecadeOf(year)
  {}

  /** The first of the four notations that parses decides, and the first of January 1970 is no date. */
  lemma DateShown(config: Config, rec: Record, c: Content, text: string, d: Date)
    requires ContentOf(config, rec) == Ok(c)
    requires rec.Get("image_date_created") == Str(text)
    ensures c.publicationDate == c.captureDate
    ensures c.publicationDate == Some(d) <==>
      text != "" && d != Date(1970, 1, 1) &&
      FirstParse(config, Trim(text, IsSpace), ["%Y-%m-%d", "%d/%m/%Y", "%Y/%m/%d", "%d-%m-%Y"], d)
  {
    hide Record.Get, ContentOf, Trim, TryFormats, FirstParse;
    Shown(config, rec, c);
    FirstFormat(config, Trim(text, IsSpace), d);
  }

  lemma FirstFormat(config: Config, text: string, d: Date)
    ensures TryFormats(config, text, DATE_FORMATS) == Some(d) <==>
      d != Date(1970, 1, 1) && FirstParse(config, text, ["%Y-%m-%d", "%d/%m/%Y", "%Y/%m/%d", "%d-%m-%Y"], d)
  {
    TryFormatsExact(config, text, DATE_FORMATS);
    hide TryFormats;
  }

  // ----- what is written outside the checksum, and when nothing is -----

  /** A number other than zero where a text is expected. */
  predicate IsBadNumber(v: Value) { v.Num? && v != Num(0) }

  lemma ParseDateRaises(config: Config, v: Value)
    ensures ParseDate(config, v).Raised? <==> IsBadNumber(v)
  {}

  /** A record fails to map exactly when it sends a number other than zero for a date or for the keywords. */
  lemma MapsExactly(config: Config, rec: Record)
    ensures MapRecord(config, rec).Raised? <==>
      || IsBadNumber(rec.Get("image_date_created"))
      || IsBadNumber(rec.Get("image_keywords"))
      || IsBadNumber(rec.Get("date_image_injested"))
  {
    hide ParseDate, KeywordTags, EraTags, IsBadNumber, Assemble, Record.Get, HasPreview;
    ParseDateRaises(config, rec.Get("image_date_created"));
    ParseDateRaises(config, rec.Get("date_image_injested"));
    KeywordTagsRaise(rec.Get("image_keywords"));
  }

  lemma KeywordTagsRaise(v: Value)
    ensures KeywordTags(v).Raised? <==> IsBadNumber(v)
  {
    KeywordTagsExact(v);
    hide KeywordTags;
  }

  predicate HasUrl(urls: seq<string>) {
    exists i | 0 <= i < |urls| :: !AllBlank(urls[i])
  }

  predicate AllBlank(s: string) { forall i | 0 <= i < |s| :: IsSpace(s[i]) }

  lemma TrimBlank(s: string)
    ensures Trim(s, IsSpace) == "" <==> AllBlank(s)
  {
    hide IsSpace;
    var left := TrimLeft(s, IsSpace);
    assert left == s[|s| - |left|..];
    if left != "" { assert left[0] == s[|s| - |left|]; }
  }

  /** The asset is published exactly when the live list has a URL, or is empty and the dump's list has one. */
  lemma ExtraShown(config: Config, rec: Record, m: Mapping)
    requires MapRecord(config, rec) == Ok(m)
    ensures ContentOf(config, rec) == Ok(m.content)
    ensures ParseDate(config, rec.Get("date_image_injested")) == Ok(m.extra.dateDigitized)
    ensures m.extra.status == Published || m.extra.status == Draft
    ensures m.extra.status == Published <==>
      || HasUrl(rec.thumbnails)
      || (rec.thumbnails == [] && rec.imageThumbnails.Some? && HasUrl(rec.imageThumbnails.value))
  {
    hide HasUrl, ContentOf, ParseDate, Record.Get;
    PreviewExact(rec);
    hide HasPreview;
  }

  lemma PreviewExact(rec: Record)
    ensures HasPreview(rec) <==>
      || HasUrl(rec.thumbnails)
      || (rec.thumbnails == [] && rec.imageThumbnails.Some? && HasUrl(rec.imageThumbnails.value))
  {
    UrlIn(rec.thumbnails);
    if rec.imageThumbnails.Some? { UrlIn(rec.imageThumbnails.value); }
    hide Trim;
    assert !HasUrl([]);
    hide HasUrl;
  }

  lemma UrlIn(urls: seq<string>)
    ensures HasUrl(urls) <==> exists url | url in urls :: Trim(url, IsSpace) != ""
  {
    hide Trim, AllBlank;
    forall url
      ensures Trim(url, IsSpace) == "" <==> AllBlank(url)
    {
      TrimBlank(url);
    }
    if url :| url in urls && Trim(url, IsSpace) != "" {
      var i :| 0 <= i < |urls| && urls[i] == url;
      assert !AllBlank(urls[i]);
    }
  }

  /** The source's own price if it is a positive number, else the house price. */
  lemma PriceShown(config: Config, rec: Record, cents: int)
    ensures rec.Get("image_cost") in {Null, Str("")} ==> Price(config, rec) == config.defaultPrice
    ensures rec.Get("image_cost") !in {Null, Str("")} && config.decimal(rec.Get("image_cost")) == Some(cents) ==>
      Price(config, rec) == if cents > 0 then cents else config.defaultPrice
    ensures config.decimal(rec.Get("image_cost")) == None ==> Price(config, rec) == config.defaultPrice
  {
    hide Record.Get;
  }

  // ----- a legible record shows itself -----

  /** The texts of a record, by what they are about. */
  datatype Card = Card(
    reference: string, account: string, heading: string, legend: string, author: string, origin: string,
    subjects: string, place: string, district: string, nation: string, day: string, subCode: string, mainCode: string
  )

  ghost predicate Sends(rec: Record, card: Card) {
    && rec.Get("image_refno") == Str(card.reference)
    && rec.Get("image_description") == Str(card.account)
    && rec.Get("image_headline") == Str(card.heading)
    && rec.Get("image_caption") == Str(card.legend)
    && rec.Get("image_creator") == Str(card.author)
    && rec.Get("image_source") == Str(card.origin)
    && rec.Get("image_keywords") == Str(card.subjects)
    && rec.Get("image_scene_location") == Str(card.place)
    && rec.Get("image_county_created") == Str(card.district)
    && rec.Get("image_Iso_country_created") == Str(card.nation)
    && rec.Get("image_date_created") == Str(card.day)
    && rec.Get("sub_category") == Str(card.subCode)
    && rec.Get("main_category") == Str(card.mainCode)
  }

  /** Clean text: nothing to repair, nothing to squeeze. */
  predicate Clean(t: string) { t != "" && Tidy(t) && !Garbled(t) }

  /** Clean, and not written in capitals. */
  predicate Readable(t: string) { Clean(t) && MixedCase(t) }

  predicate Legible(card: Card) {
    && Clean(card.reference) && Readable(card.account) && Readable(card.heading) && Readable(card.legend)
    && Clean(card.author) && Clean(card.origin) && Clean(card.subjects)
    && Clean(card.place) && Clean(card.district) && Clean(card.nation)
    && |card.account| <= 255 && |card.heading| <= 255 && card.nation == "TZA"
  }

  lemma CleanShown(t: string)
    requires Clean(t)
    ensures CleanText(Str(t)) == t && !Blank(Str(t)) && TitleCaseLocation(Str(t)) == TitleCase(t)
    ensures Readable(t) ==> SentenceCase(Str(t)) == t
  {
    hide Tidy, Garbled, FixMojibake, MixedCase, TitleCase, Blank;
    CleanTextFixpoint(t);
    BlankExact(Str(t));
    hide CleanText;
  }

  lemma CardTexts(config: Config, rec: Record, card: Card, c: Content)
    requires Sends(rec, card) && Legible(card) && ContentOf(config, rec) == Ok(c)
    ensures c.title == card.account && c.description == card.account
    ensures c.headline == card.heading && c.caption == card.legend
    ensures c.photographer == card.author && c.source == card.origin
  {
    hide Clean, MixedCase, Record.Get, ContentOf, Blank, SentenceCase, CleanText;
    Shown(config, rec, c);
    TitleShown(config, rec, c);
    PhotographerShown(config, rec, c);
    SourceShown(config, rec, c);
    CleanShown(card.account);
    CleanShown(card.heading);
    CleanShown(card.legend);
    CleanShown(card.author);
    CleanShown(card.origin);
  }

  lemma CardPlaces(config: Config, rec: Record, card: Card, c: Content)
    requires Sends(rec, card) && Legible(card) && ContentOf(config, rec) == Ok(c)
    ensures c.keywords == card.reference + " " + card.subjects
    ensures c.location == TitleCase(card.place) && c.county == TitleCase(card.district) && c.country == "Tanzania"
  {
    hide Clean, MixedCase, Record.Get, ContentOf, Blank, TitleCaseLocation, CleanText, TitleCase, Upper;
    Shown(config, rec, c);
    SourceShown(config, rec, c);
    CountryShown(config, rec, c);
    CleanShown(card.reference);
    CleanShown(card.subjects);
    CleanShown(card.place);
    CleanShown(card.district);
    CleanShown(card.nation);
    UpperCode();
  }

  lemma UpperCode()
    ensures Upper("TZA") == "TZA"
  {}

  /** `code` has this target under this kind. */
  predicate Coded(config: Config, kind: ItemType, code: string, target: Option<nat>) {
    match config.parseInt(code)
    case Some(n) => code != "" && (kind, n) in config.codes && config.codes[(kind, n)] == target
    case None => false
  }

  /** An ISO day other than the unknown one. */
  predicate Dated(config: Config, day: string, d: Date) {
    && day != "" && !IsSpace(day[0]) && !IsSpace(day[|day| - 1])
    && config.strptime(day, "%Y-%m-%d") == Some(d) && d != Date(1970, 1, 1)
  }

  lemma CardMaps(config: Config, rec: Record, card: Card, d: Date)
    requires Sends(rec, card) && Dated(config, card.day, d)
    ensures ContentOf(config, rec).Ok? && ContentOf(config, rec).value.publicationDate == Some(d)
    ensures ContentOf(config, rec).value.captureDate == Some(d)
  {
    hide Record.Get, TryFormats, Title, Photographer, Keywords, Resolve, SentenceCase, CleanText, EraTags,
      ParseTags, TitleCaseLocation, NormalizeCountry;
    IsoDate(config, card.day, d);
    hide ParseDate;
  }

  lemma CardTags(config: Config, rec: Record, card: Card, d: Date, c: Content)
    requires Sends(rec, card) && ContentOf(config, rec) == Ok(c) && c.publicationDate == Some(d)
    ensures c.tags == (set t | t in ParseTags(card.subjects)) + {Digits(d.year), Digits(DecadeOf(d.year)) + "s"}
  {
    hide Record.Get, ContentOf, ParseTags, Digits;
    TagsShown(config, rec, c);
  }

  /** Each text of a legible record turns up in its own field, places in title case, and nowhere else. */
  lemma LegibleShown(config: Config, rec: Record, card: Card, d: Date, category: Option<nat>, collection: Option<nat>)
    requires Sends(rec, card) && Legible(card) && Dated(config, card.day, d)
    requires Coded(config, SubCategory, card.subCode, category)
    requires Coded(config, MainCategory, card.mainCode, collection)
    ensures ContentOf(config, rec) == Ok(Content(
      title := card.account,
      description := card.account,
      caption := card.legend,
      photographer := card.author,
      source := card.origin,
      publicationDate := Some(d),
      captureDate := Some(d),
      category := category,
      collection := collection,
      keywords := card.reference + " " + card.subjects,
      location := TitleCase(card.place),
      county := TitleCase(card.district),
      country := "Tanzania",
      headline := card.heading,
      tags := (set t | t in ParseTags(card.subjects)) + {Digits(d.year), Digits(DecadeOf(d.year)) + "s"}))
  {
    hide Legible, Dated, Record.Get, ContentOf, TitleCase, ParseTags, Digits, Title, Photographer, Keywords,
      SentenceCase, CleanText, TitleCaseLocation, NormalizeCountry, ParseDate, TagNames, Or, Prefix;
    CardMaps(config, rec, card, d);
    var c := ContentOf(config, rec).value;
    Shown(config, rec, c);
    CardTexts(config, rec, card, c);
    CardPlaces(config, rec, card, c);
    CardTags(config, rec, card, d, c);
  }
}
