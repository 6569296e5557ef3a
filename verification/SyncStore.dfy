/** The archive tables and the incremental, checksum-driven upsert of one feed record. */
module SyncStore {
  import opened Sequences
  import opened Strings
  import opened Normalizers
  import opened FeedMapping
  import opened Numbering

  type AssetId = nat

  datatype Asset = Asset(number: string, content: Content, extra: Volatile, price: Option<int>)

  datatype SyncRow = SyncRow(refno: string, asset: AssetId, checksum: Checksum, payload: Record, locked: bool)

  /** Sync rows are keyed by their unique external id; `nextId` stands for fresh UUIDs. */
  datatype Store = Store(rows: map<Uuid, SyncRow>, assets: map<AssetId, Asset>, nextId: AssetId) {
    /** Foreign keys resolve, and the one-to-one link from rows to assets holds. */
    ghost predicate Valid() {
      && (forall x | x in rows :: rows[x].asset in assets)
      && (forall x, y | x in rows && y in rows && x != y :: rows[x].asset != rows[y].asset)
      && (forall a | a in assets :: a < nextId)
    }
  }

  const EMPTY := Store(map[], map[], 0)

  function NumbersBelow(assets: map<AssetId, Asset>, n: nat): seq<string> {
    if n == 0 then []
    else NumbersBelow(assets, n - 1) + if n - 1 in assets then [assets[n - 1].number] else []
  }

  /** The asset numbers in the table. */
  function Numbers(s: Store): seq<string> {
    NumbersBelow(s.assets, s.nextId)
  }

  datatype Outcome = Created | Updated | Skipped | Conflict

  datatype Synced = Synced(store: Store, outcome: Outcome)

  /** `uuid.UUID(rec["image_id"])`, which raises unless the key holds a parseable string. */
  function ExternalId(config: Config, rec: Record): Option<Uuid> {
    match rec.Get("image_id")
    case Str(s) => config.uuid(s)
    case _ => None
  }

  function NewAsset(config: Config, s: Store, rec: Record, m: Mapping): Asset {
    Asset(NextAssetNumber(Numbers(s)), m.content, m.extra, Some(Price(config, rec)))
  }

  /** A remap keeps the number, and keeps a price that is already set. */
  function Remapped(config: Config, previous: Asset, rec: Record, m: Mapping): Asset {
    Asset(previous.number, m.content, m.extra,
          if previous.price.Some? then previous.price else Some(Price(config, rec)))
  }

  function Refno(rec: Record): string {
    CleanText(rec.Get("image_refno"))
  }

  /**
   * `_sync_one` inside its transaction. `io` tells whether the database and mirror calls
   * of this attempt succeed.
   */
  function SyncOne(config: Config, s: Store, rec: Record, io: bool): Result<Synced> {
    match ExternalId(config, rec)
    case None => Raised
    case Some(x) =>
      if !io then Raised
      else if x !in s.rows then
        var m :- MapRecord(config, rec);
        Ok(Synced(
          Store(
            s.rows[x := SyncRow(Refno(rec), s.nextId, ChecksumOf(rec), rec, false)],
            s.assets[s.nextId := NewAsset(config, s, rec, m)],
            s.nextId + 1),
          Created))
      else
        var row := s.rows[x];
        if row.checksum == ChecksumOf(rec) then
          Ok(Synced(s.(rows := s.rows[x := row.(payload := rec)]), Skipped))
        else if row.locked then
          Ok(Synced(s.(rows := s.rows[x := row.(payload := rec)]), Conflict))
        else if row.asset !in s.assets then Raised
        else
          var m :- MapRecord(config, rec);
          Ok(Synced(
            s.(rows := s.rows[x := SyncRow(Refno(rec), row.asset, ChecksumOf(rec), rec, false)],
               assets := s.assets[row.asset := Remapped(config, s.assets[row.asset], rec, m)]),
            Updated))
  }

  // ----- runs of deliveries -----

  /** One delivery of a record, and whether its I/O succeeds. */
  datatype Delivery = Delivery(rec: Record, io: bool)

  /** A raised exception is caught after the rollback. */
  function Deliver(config: Config, s: Store, d: Delivery): Store {
    match SyncOne(config, s, d.rec, d.io)
    case Ok(synced) => synced.store
    case Raised => s
  }

  function SyncAll(config: Config, s: Store, ds: seq<Delivery>): Store {
    if ds == [] then s
    else Deliver(config, SyncAll(config, s, ds[..|ds| - 1]), ds[|ds| - 1])
  }

  /** The committed deliveries of external id x, in order. */
  ghost function StoredHistory(config: Config, s: Store, ds: seq<Delivery>, x: Uuid): seq<Record> {
    if ds == [] then []
    else
      var front, d := ds[..|ds| - 1], ds[|ds| - 1];
      var earlier := StoredHistory(config, s, front, x);
      if ExternalId(config, d.rec) == Some(x) && SyncOne(config, SyncAll(config, s, front), d.rec, d.io).Ok?
      then earlier + [d.rec] else earlier
  }

  /** The first delivery of the last stretch of equal checksums: the one that was really mapped. */
  ghost function MappedBy(h: seq<Record>): Record
    requires h != []
  {
    if |h| == 1 || ChecksumOf(h[|h| - 2]) != ChecksumOf(Last(h)) then Last(h)
    else MappedBy(h[..|h| - 1])
  }

  lemma {:induction false} MappedByChecksum(h: seq<Record>)
    requires h != []
    ensures ChecksumOf(MappedBy(h)) == ChecksumOf(Last(h)) && MappedBy(h) in h
  {
    hide ChecksumOf;
    if |h| > 1 && ChecksumOf(h[|h| - 2]) == ChecksumOf(Last(h)) {
      MappedByChecksum(h[..|h| - 1]);
    }
  }

  /** Each delivery keeps foreign keys and the one-to-one link. */
  lemma DeliverValid(config: Config, s: Store, d: Delivery)
    requires s.Valid()
    ensures Deliver(config, s, d).Valid()
  {
    hide MapRecord, ChecksumOf, Refno, NewAsset, Remapped, ExternalId;
  }

  lemma {:induction false} SyncAllValid(config: Config, s: Store, ds: seq<Delivery>)
    requires s.Valid()
    ensures SyncAll(config, s, ds).Valid()
  {
    if ds == [] {
    } else {
      SyncAllValid(config, s, ds[..|ds| - 1]);
      DeliverValid(config, SyncAll(config, s, ds[..|ds| - 1]), ds[|ds| - 1]);
    }
  }

  /** A delivery touches one row and the asset linked to it. */
  lemma DeliverFrame(config: Config, s: Store, d: Delivery, x: Uuid)
    requires s.Valid() && x in s.rows && ExternalId(config, d.rec) != Some(x)
    ensures var t := Deliver(config, s, d);
      x in t.rows && t.rows[x] == s.rows[x] &&
      s.rows[x].asset in t.assets && t.assets[s.rows[x].asset] == s.assets[s.rows[x].asset]
  {
    hide MapRecord, ChecksumOf, Refno, NewAsset, Remapped, ExternalId;
  }

  /** What row x and its asset hold after the committed deliveries h of a never-locked record. */
  ghost predicate RowMatches(config: Config, s: Store, x: Uuid, h: seq<Record>) {
    if h == [] then x !in s.rows
    else
      var head := MappedBy(h);
      && MapRecord(config, head).Ok?
      && x in s.rows && s.rows[x].asset in s.assets
      && s.rows[x] == SyncRow(Refno(head), s.rows[x].asset, ChecksumOf(Last(h)), Last(h), false)
      && var asset := s.assets[s.rows[x].asset];
         && asset.content == MapRecord(config, head).value.content
         && asset.extra == MapRecord(config, head).value.extra
         && asset.price == Some(Price(config, h[0]))
  }

  lemma RowMatchesStep(config: Config, s: Store, d: Delivery, x: Uuid, h: seq<Record>)
    requires s.Valid() && RowMatches(config, s, x, h)
    ensures var stored := ExternalId(config, d.rec) == Some(x) && SyncOne(config, s, d.rec, d.io).Ok?;
      RowMatches(config, Deliver(config, s, d), x, if stored then h + [d.rec] else h)
  {
    hide MapRecord, ChecksumOf, Refno, Numbers, ExternalId, Price;
    if ExternalId(config, d.rec) != Some(x) {
      if h != [] {
        DeliverFrame(config, s, d, x);
      }
    } else if SyncOne(config, s, d.rec, d.io).Ok? {
      var more := h + [d.rec];
      assert more[..|more| - 1] == h;
    }
  }

  lemma {:induction false} RunMatches(config: Config, ds: seq<Delivery>, x: Uuid)
    ensures RowMatches(config, SyncAll(config, EMPTY, ds), x, StoredHistory(config, EMPTY, ds, x))
  {
    hide SyncOne, ExternalId, MapRecord, ChecksumOf, Refno, Price;
    if ds == [] {
    } else {
      var front := ds[..|ds| - 1];
      RunMatches(config, front, x);
      SyncAllValid(config, EMPTY, front);
      RowMatchesStep(config, SyncAll(config, EMPTY, front), Last(ds), x, StoredHistory(config, EMPTY, front, x));
    }
  }

  /**
   * Incremental sync refines remapping everything. After any run, an asset holds the mapping of its
   * last stored delivery, although deliveries with an unchanged checksum are never mapped; only the
   * title may lag, and exactly when the fallback title drifts. Checksum and payload are those of the
   * last stored delivery, and the price is that of the first.
   */
  lemma IncrementalRefinesRemap(config: Config, ds: seq<Delivery>, x: Uuid)
    ensures var s, h := SyncAll(config, EMPTY, ds), StoredHistory(config, EMPTY, ds, x);
      && (x in s.rows <==> h != [])
      && (h != [] ==>
        && s.rows[x].asset in s.assets
        && ContentOf(config, Last(h)).Ok?
        && var asset, remap := s.assets[s.rows[x].asset], ContentOf(config, Last(h)).value;
           && asset.content.(title := remap.title) == remap
           && (asset.content == remap <==> !TitleDrift(MappedBy(h), Last(h)))
           && asset.price == Some(Price(config, h[0]))
           && s.rows[x].payload == Last(h)
           && s.rows[x].checksum == ChecksumOf(Last(h))
           && s.rows[x].refno == Refno(Last(h)))
  {
    var h := StoredHistory(config, EMPTY, ds, x);
    RunMatches(config, ds, x);
    if h != [] {
      MappedByChecksum(h);
      ChecksumCoversMapping(config, MappedBy(h), Last(h));
      SameField(MappedBy(h), Last(h), "image_refno");
      assert MapRecord(config, MappedBy(h)).value.content == ContentOf(config, MappedBy(h)).value;
    }
    hide ContentOf, ChecksumOf, TitleDrift, SyncAll, StoredHistory, MappedBy, Price, CleanText, Record.Get;
  }

  /** A second delivery with an unchanged checksum: the payload follows, the asset does not. */
  lemma SecondIsSkipped(config: Config, a: Record, b: Record, x: Uuid)
    requires ExternalId(config, a) == Some(x) == ExternalId(config, b)
    requires ChecksumOf(a) == ChecksumOf(b) && MapRecord(config, a).Ok?
    ensures var s := SyncAll(config, EMPTY, [Delivery(a, true), Delivery(b, true)]);
      && x in s.rows && s.rows[x].payload == b && s.rows[x].asset in s.assets
      && s.assets[s.rows[x].asset] == NewAsset(config, EMPTY, a, MapRecord(config, a).value)
  {
    hide MapRecord, ChecksumOf, NewAsset, ExternalId, Refno;
    var ds := [Delivery(a, true), Delivery(b, true)];
    assert ds[..1] == [Delivery(a, true)] && ds[..1][..0] == [];
    assert SyncAll(config, EMPTY, ds[..1]) == Deliver(config, EMPTY, ds[0]);
  }

  /** After two deliveries the title differs from that of the stored payload. */
  lemma TitleLags(config: Config, x: Uuid)
    requires config.uuid(IMAGE_ID) == Some(x)
    ensures var s := SyncAll(config, EMPTY, [Delivery(NO_REFNO, true), Delivery(NULL_REFNO, true)]);
      && x in s.rows && s.rows[x].payload == NULL_REFNO && s.rows[x].asset in s.assets
      && s.assets[s.rows[x].asset].content.title != Title(NULL_REFNO)
  {
    TitleDriftExample();
    BareMaps(config, NO_REFNO);
    hide ChecksumOf, MapRecord, Title, SyncAll;
    SecondIsSkipped(config, NO_REFNO, NULL_REFNO, x);
  }

  /** After two deliveries status, scan date and price differ from those of the stored payload. */
  lemma VolatileLags(config: Config, x: Uuid)
    requires config.uuid(IMAGE_ID) == Some(x)
    requires config.decimal(Str("100.00")) == Some(10000) && config.decimal(Str("200.00")) == Some(20000)
    requires config.strptime("2001-02-03", "%Y-%m-%d") == Some(Date(2001, 2, 3))
    ensures var s := SyncAll(config, EMPTY, [Delivery(FIRST_SCAN, true), Delivery(LATER_SCAN, true)]);
      && x in s.rows && s.rows[x].payload == LATER_SCAN && s.rows[x].asset in s.assets
      && MapRecord(config, LATER_SCAN).Ok?
      && var asset, extra := s.assets[s.rows[x].asset], MapRecord(config, LATER_SCAN).value.extra;
         && asset.extra.status != extra.status && asset.extra.dateDigitized != extra.dateDigitized
         && asset.price != Some(Price(config, LATER_SCAN))
  {
    VolatileExample(config);
    hide ChecksumOf, MapRecord, Price, SyncAll;
    SecondIsSkipped(config, FIRST_SCAN, LATER_SCAN, x);
  }

  // ----- exactly-once effect -----

  lemma SameEntry<K, V>(m: map<K, V>, k: K)
    requires k in m
    ensures m[k := m[k]] == m
  {}

  /** A second delivery of the same record changes nothing, whatever branch the first one took. */
  lemma Redelivery(config: Config, s: Store, d: Delivery)
    ensures Deliver(config, Deliver(config, s, d), d) == Deliver(config, s, d)
  {
    hide MapRecord, ChecksumOf, Refno, NewAsset, Remapped, ExternalId;
    var t := Deliver(config, s, d);
    var id := ExternalId(config, d.rec);
    if id.Some? && id.value in t.rows {
      SameEntry(t.rows, id.value);
    }
  }

  lemma FailedAttempt(config: Config, s: Store, rec: Record)
    ensures Deliver(config, s, Delivery(rec, false)) == s
  {
    hide MapRecord, ChecksumOf, Refno, NewAsset, Remapped, ExternalId;
  }

  /** Any number of attempts at one record, failed ones in between, are its delivery once - if any could succeed. */
  lemma {:induction false} ReplayIsOnce(config: Config, s: Store, rec: Record, ds: seq<Delivery>)
    requires forall d | d in ds :: d.rec == rec
    ensures SyncAll(config, s, ds) == if exists d | d in ds :: d.io then Deliver(config, s, Delivery(rec, true)) else s
  {
    hide Deliver;
    if ds == [] {
    } else {
      var front, d := ds[..|ds| - 1], Last(ds);
      ReplayIsOnce(config, s, rec, front);
      assert ds == front + [d] && d == Delivery(rec, d.io);
      FailedAttempt(config, SyncAll(config, s, front), rec);
      Redelivery(config, s, Delivery(rec, true));
    }
  }

  /** The record has been taken in: its row shows it, and its checksum, unless a lock holds that back. */
  ghost predicate Absorbed(s: Store, x: Uuid, rec: Record) {
    x in s.rows && s.rows[x].payload == rec && (s.rows[x].checksum == ChecksumOf(rec) || s.rows[x].locked)
  }

  lemma CommitAbsorbs(config: Config, s: Store, d: Delivery, x: Uuid)
    requires ExternalId(config, d.rec) == Some(x) && SyncOne(config, s, d.rec, d.io).Ok?
    ensures Absorbed(Deliver(config, s, d), x, d.rec)
  {
    hide MapRecord, ChecksumOf, Refno, NewAsset, Remapped, ExternalId;
  }

  lemma AbsorbedIsIdle(config: Config, s: Store, d: Delivery, x: Uuid)
    requires ExternalId(config, d.rec) == Some(x) && Absorbed(s, x, d.rec)
    ensures Deliver(config, s, d) == s
  {
    hide MapRecord, ChecksumOf, Refno, NewAsset, Remapped, ExternalId;
    SameEntry(s.rows, x);
  }

  lemma {:induction false} AbsorbedStays(config: Config, s: Store, others: seq<Delivery>, rec: Record, x: Uuid)
    requires s.Valid() && ExternalId(config, rec) == Some(x) && Absorbed(s, x, rec)
    requires forall d | d in others :: d.rec == rec || ExternalId(config, d.rec) != Some(x)
    ensures SyncAll(config, s, others).Valid() && Absorbed(SyncAll(config, s, others), x, rec)
  {
    hide Deliver, ExternalId, ChecksumOf, Store.Valid;
    if others == [] {
    } else {
      var front, d := others[..|others| - 1], Last(others);
      AbsorbedStays(config, s, front, rec, x);
      var t := SyncAll(config, s, front);
      DeliverValid(config, t, d);
      if d.rec == rec {
        AbsorbedIsIdle(config, t, d, x);
      } else {
        DeliverFrame(config, t, d, x);
      }
    }
  }

  /**
   * Redelivery at any later time: once a record is committed, and whatever other records were delivered
   * since, another delivery of it - the retry after a lost acknowledgement - changes nothing.
   */
  lemma RedeliveryLater(config: Config, s: Store, d: Delivery, others: seq<Delivery>, again: Delivery)
    requires s.Valid() && SyncOne(config, s, d.rec, d.io).Ok? && again.rec == d.rec
    requires forall o | o in others :: o.rec == d.rec || ExternalId(config, o.rec) != ExternalId(config, d.rec)
    ensures var t := SyncAll(config, Deliver(config, s, d), others); Deliver(config, t, again) == t
  {
    CommittedHasId(config, s, d);
    hide Deliver, ExternalId, Absorbed, SyncOne, Store.Valid;
    var x := ExternalId(config, d.rec).value;
    DeliverValid(config, s, d);
    CommitAbsorbs(config, s, d, x);
    AbsorbedStays(config, Deliver(config, s, d), others, d.rec, x);
    AbsorbedIsIdle(config, SyncAll(config, Deliver(config, s, d), others), again, x);
  }

  lemma CommittedHasId(config: Config, s: Store, d: Delivery)
    requires SyncOne(config, s, d.rec, d.io).Ok?
    ensures ExternalId(config, d.rec).Some?
  {}

  datatype Counts = Counts(created: nat, updated: nat, skipped: nat, conflicts: nat, failed: nat) {
    function Add(r: Result<Outcome>): Counts {
      match r
      case Ok(Created) => this.(created := created + 1)
      case Ok(Updated) => this.(updated := updated + 1)
      case Ok(Skipped) => this.(skipped := skipped + 1)
      case Ok(Conflict) => this.(conflicts := conflicts + 1)
      case Raised => this.(failed := failed + 1)
    }

    function Sum(): nat { created + updated + skipped + conflicts + failed }
  }

  const NO_COUNTS := Counts(0, 0, 0, 0, 0)

  function OutcomeOf(config: Config, s: Store, d: Delivery): Result<Outcome> {
    match SyncOne(config, s, d.rec, d.io)
    case Ok(synced) => Ok(synced.outcome)
    case Raised => Raised
  }

  function Tally(config: Config, s: Store, ds: seq<Delivery>): Counts {
    if ds == [] then NO_COUNTS
    else
      Tally(config, s, ds[..|ds| - 1])
        .Add(OutcomeOf(config, SyncAll(config, s, ds[..|ds| - 1]), ds[|ds| - 1]))
  }

  lemma NewKeyGrows<K, V>(m: map<K, V>, k: K, v: V)
    ensures |m[k := v]| == if k in m then |m| else |m| + 1
  {
    assert m[k := v].Keys == m.Keys + {k};
    assert |m| == |m.Keys| && |m[k := v]| == |m[k := v].Keys|;
  }

  lemma DeliverCounts(config: Config, s: Store, d: Delivery)
    requires s.Valid()
    ensures var t, added := Deliver(config, s, d), if OutcomeOf(config, s, d) == Ok(Created) then 1 else 0;
      |t.rows| == |s.rows| + added && |t.assets| == |s.assets| + added && s.rows.Keys <= t.rows.Keys
  {
    hide MapRecord, ChecksumOf, Refno, NewAsset, Remapped, ExternalId;
    var t := Deliver(config, s, d);
    var id := ExternalId(config, d.rec);
    if id.Some? && SyncOne(config, s, d.rec, d.io).Ok? {
      NewKeyGrows(s.rows, id.value, t.rows[id.value]);
      NewKeyGrows(s.assets, t.rows[id.value].asset, t.assets[t.rows[id.value].asset]);
      if t.assets != s.assets {
        assert t.assets == s.assets[t.rows[id.value].asset := t.assets[t.rows[id.value].asset]];
      }
    }
  }

  lemma AddCounts(c: Counts, r: Result<Outcome>)
    ensures c.Add(r).Sum() == c.Sum() + 1
    ensures c.Add(r).created == c.created + if r == Ok(Created) then 1 else 0
  {}

  /** Every delivery is counted exactly once. */
  lemma {:induction false} TallyComplete(config: Config, s: Store, ds: seq<Delivery>)
    ensures Tally(config, s, ds).Sum() == |ds|
  {
    if ds == [] {
    } else {
      hide OutcomeOf, Counts.Add, Counts.Sum;
      var front := ds[..|ds| - 1];
      TallyComplete(config, s, front);
      AddCounts(Tally(config, s, front), OutcomeOf(config, SyncAll(config, s, front), Last(ds)));
    }
  }

  /** Deliveries never remove a row. */
  lemma {:induction false} RowsKept(config: Config, s: Store, ds: seq<Delivery>)
    requires s.Valid()
    ensures s.rows.Keys <= SyncAll(config, s, ds).rows.Keys
  {
    if ds == [] {
    } else {
      hide Deliver, OutcomeOf;
      var front := ds[..|ds| - 1];
      RowsKept(config, s, front);
      SyncAllValid(config, s, front);
      DeliverCounts(config, SyncAll(config, s, front), Last(ds));
    }
  }

  /** No delivery relinks a row, or renumbers or removes an asset. */
  ghost predicate IdentityKept(s: Store, t: Store) {
    && (forall x | x in s.rows :: x in t.rows && t.rows[x].asset == s.rows[x].asset)
    && (forall a | a in s.assets :: a in t.assets && t.assets[a].number == s.assets[a].number)
  }

  lemma DeliverKeepsIdentity(config: Config, s: Store, d: Delivery)
    requires s.Valid()
    ensures IdentityKept(s, Deliver(config, s, d))
  {
    hide MapRecord, ChecksumOf, Refno, NewAsset, ExternalId, Price;
  }

  /** The catalogue number is the asset's identity: whatever the source changes, it stays. */
  lemma {:induction false} RunKeepsIdentity(config: Config, s: Store, ds: seq<Delivery>)
    requires s.Valid()
    ensures IdentityKept(s, SyncAll(config, s, ds))
  {
    if ds == [] {
    } else {
      hide Deliver;
      var front := ds[..|ds| - 1];
      RunKeepsIdentity(config, s, front);
      SyncAllValid(config, s, front);
      DeliverKeepsIdentity(config, SyncAll(config, s, front), Last(ds));
    }
  }

  /**
   * The created outcomes are exactly the new rows and the new assets: however often records are
   * replayed or duplicated, no id gets a second row or asset.
   */
  lemma {:induction false} ExactlyOnce(config: Config, s: Store, ds: seq<Delivery>)
    requires s.Valid()
    ensures |SyncAll(config, s, ds).rows| == |s.rows| + Tally(config, s, ds).created
    ensures |SyncAll(config, s, ds).assets| == |s.assets| + Tally(config, s, ds).created
  {
    if ds == [] {
    } else {
      hide Deliver, OutcomeOf, Counts.Add, Counts.Sum;
      var front := ds[..|ds| - 1];
      ExactlyOnce(config, s, front);
      SyncAllValid(config, s, front);
      DeliverCounts(config, SyncAll(config, s, front), Last(ds));
      AddCounts(Tally(config, s, front), OutcomeOf(config, SyncAll(config, s, front), Last(ds)));
    }
  }

  // ----- which outcome, and what it writes -----

  /** Two digests are equal exactly when the records agree under sixteen keys and on the dump's thumbnails. */
  lemma ChecksumExact(a: Record, b: Record)
    ensures ChecksumOf(a) == ChecksumOf(b) <==>
      && a.imageThumbnails == b.imageThumbnails
      && forall key | key in [
           "image_refno", "image_description", "image_headline", "image_caption", "image_keywords",
           "image_scene_location", "image_county_created", "image_Iso_country_created", "image_source",
           "image_creator", "image_creator_jobtitle", "image_date_created", "main_category", "sub_category",
           "intellectual_genre", "iptc_scene"] :: a.Get(key) == b.Get(key)
  {
    hide Record.Get;
    if ChecksumOf(a) == ChecksumOf(b) {
      forall key | key in CHECKSUM_FIELDS
        ensures a.Get(key) == b.Get(key)
      {
        SameField(a, b, key);
      }
    }
    if a.imageThumbnails == b.imageThumbnails && forall key | key in CHECKSUM_FIELDS :: a.Get(key) == b.Get(key) {
      SameChecksum(a, b);
    }
  }

  /** When a record is created, updated, skipped, or held back as a conflict; otherwise it fails. */
  lemma OutcomeExact(config: Config, s: Store, d: Delivery, x: Uuid)
    requires s.Valid() && ExternalId(config, d.rec) == Some(x)
    ensures var known, same := x in s.rows, x in s.rows && s.rows[x].checksum == ChecksumOf(d.rec);
      var r, maps := OutcomeOf(config, s, d), MapRecord(config, d.rec).Ok?;
      && (r == Ok(Created) <==> d.io && !known && maps)
      && (r == Ok(Skipped) <==> d.io && known && same)
      && (r == Ok(Conflict) <==> d.io && known && !same && s.rows[x].locked)
      && (r == Ok(Updated) <==> d.io && known && !same && !s.rows[x].locked && maps)
  {
    hide MapRecord, ChecksumOf, Refno, NewAsset, Remapped, ExternalId;
  }

  /** An id is what the library reads in the text under "image_id". */
  lemma ExternalIdExact(config: Config, rec: Record, x: Uuid)
    ensures ExternalId(config, rec) == Some(x) <==>
      rec.Get("image_id").Str? && config.uuid(rec.Get("image_id").s) == Some(x)
  {
    hide Record.Get;
  }

  /** The row written by a creation or an update, and the asset it links to. */
  lemma WritesRow(config: Config, s: Store, d: Delivery, x: Uuid)
    requires s.Valid() && ExternalId(config, d.rec) == Some(x)
    requires OutcomeOf(config, s, d) in {Ok(Created), Ok(Updated)}
    ensures var t := Deliver(config, s, d);
      && x in t.rows && t.rows[x].payload == d.rec && t.rows[x].checksum == ChecksumOf(d.rec) && !t.rows[x].locked
      && t.rows[x].refno == CleanText(d.rec.Get("image_refno"))
      && t.rows[x].asset in t.assets && MapRecord(config, d.rec).Ok?
      && t.assets[t.rows[x].asset].content == MapRecord(config, d.rec).value.content
      && t.assets[t.rows[x].asset].extra == MapRecord(config, d.rec).value.extra
      && forall y | y in s.rows && y != x :: y in t.rows && t.rows[y] == s.rows[y]
  {
    hide MapRecord, ChecksumOf, ExternalId, Price, Numbers, NextAssetNumber, CleanText, Record.Get;
  }

  /** A price that an asset has is left to the editors; a new asset, or one without, gets the source's. */
  lemma WritesPrice(config: Config, s: Store, d: Delivery, x: Uuid)
    requires s.Valid() && ExternalId(config, d.rec) == Some(x)
    ensures OutcomeOf(config, s, d) == Ok(Created) ==>
      s.nextId in Deliver(config, s, d).assets &&
      Deliver(config, s, d).assets[s.nextId].price == Some(Price(config, d.rec))
    ensures OutcomeOf(config, s, d) == Ok(Updated) ==>
      var a := s.rows[x].asset;
      a in Deliver(config, s, d).assets &&
      Deliver(config, s, d).assets[a].price ==
        if s.assets[a].price.Some? then s.assets[a].price else Some(Price(config, d.rec))
  {
    hide MapRecord, ChecksumOf, ExternalId, Price, Numbers, NextAssetNumber, Refno;
  }

  /** An unchanged or a locked record only has its payload replaced. */
  lemma WritesPayload(config: Config, s: Store, d: Delivery, x: Uuid)
    requires s.Valid() && ExternalId(config, d.rec) == Some(x)
    requires OutcomeOf(config, s, d) in {Ok(Skipped), Ok(Conflict)}
    ensures x in s.rows && Deliver(config, s, d) == s.(rows := s.rows[x := s.rows[x].(payload := d.rec)])
  {
    hide MapRecord, ChecksumOf, ExternalId, Refno, NewAsset, Remapped;
  }

  /** The deliveries of the run that end in r. */
  function EndingIn(config: Config, s: Store, ds: seq<Delivery>, r: Result<Outcome>): set<nat> {
    set i | 0 <= i < |ds| && OutcomeOf(config, SyncAll(config, s, ds[..i]), ds[i]) == r
  }

  lemma EndingStep(config: Config, s: Store, ds: seq<Delivery>, r: Result<Outcome>)
    requires ds != []
    ensures var front := ds[..|ds| - 1];
      |EndingIn(config, s, ds, r)| == |EndingIn(config, s, front, r)| +
        if OutcomeOf(config, SyncAll(config, s, front), Last(ds)) == r then 1 else 0
  {
    hide OutcomeOf, SyncAll;
    var front := ds[..|ds| - 1];
    assert forall i | 0 <= i < |front| :: front[..i] == ds[..i];
    if OutcomeOf(config, SyncAll(config, s, front), Last(ds)) == r {
      assert EndingIn(config, s, ds, r) == EndingIn(config, s, front, r) + {|front|};
    } else {
      assert EndingIn(config, s, ds, r) == EndingIn(config, s, front, r);
    }
  }

  function CountOf(c: Counts, r: Result<Outcome>): nat {
    match r
    case Ok(Created) => c.created
    case Ok(Updated) => c.updated
    case Ok(Skipped) => c.skipped
    case Ok(Conflict) => c.conflicts
    case Raised => c.failed
  }

  lemma AddOne(c: Counts, added: Result<Outcome>, r: Result<Outcome>)
    ensures CountOf(c.Add(added), r) == CountOf(c, r) + if added == r then 1 else 0
  {}

  lemma {:induction false} TallyOf(config: Config, s: Store, ds: seq<Delivery>, r: Result<Outcome>)
    ensures CountOf(Tally(config, s, ds), r) == |EndingIn(config, s, ds, r)|
  {
    hide OutcomeOf, SyncAll, CountOf, Counts.Add;
    if ds == [] {
      assert EndingIn(config, s, ds, r) == {};
      assert CountOf(NO_COUNTS, r) == 0 by { NothingCounted(r); }
    } else {
      var front := ds[..|ds| - 1];
      TallyOf(config, s, front, r);
      EndingStep(config, s, ds, r);
      hide EndingIn;
      AddOne(Tally(config, s, front), OutcomeOf(config, SyncAll(config, s, front), Last(ds)), r);
    }
  }

  lemma NothingCounted(r: Result<Outcome>)
    ensures CountOf(NO_COUNTS, r) == 0
  {}

  /** Each counter is the number of deliveries with its outcome. */
  lemma TallyExact(config: Config, s: Store, ds: seq<Delivery>)
    ensures Tally(config, s, ds).created == |EndingIn(config, s, ds, Ok(Created))|
    ensures Tally(config, s, ds).updated == |EndingIn(config, s, ds, Ok(Updated))|
    ensures Tally(config, s, ds).skipped == |EndingIn(config, s, ds, Ok(Skipped))|
    ensures Tally(config, s, ds).conflicts == |EndingIn(config, s, ds, Ok(Conflict))|
    ensures Tally(config, s, ds).failed == |EndingIn(config, s, ds, Raised)|
  {
    hide EndingIn, Tally;
    TallyOf(config, s, ds, Ok(Created));
    TallyOf(config, s, ds, Ok(Updated));
    TallyOf(config, s, ds, Ok(Skipped));
    TallyOf(config, s, ds, Ok(Conflict));
    TallyOf(config, s, ds, Raised);
  }

  // ----- asset numbers in the table -----

  ghost predicate DistinctNumbers(s: Store) {
    forall a, b | a in s.assets && b in s.assets && a != b :: s.assets[a].number != s.assets[b].number
  }

  lemma {:induction false} NumbersMember(assets: map<AssetId, Asset>, n: nat, number: string)
    ensures number in NumbersBelow(assets, n) <==> exists a | a in assets :: a < n && assets[a].number == number
  {
    if n == 0 {
    } else {
      NumbersMember(assets, n - 1, number);
    }
  }

  /** A delivery keeps the numbers distinct, except a creation after the six digits ran out twice. */
  lemma NumbersStayDistinct(config: Config, s: Store, d: Delivery)
    requires s.Valid() && DistinctNumbers(s)
    ensures DistinctNumbers(Deliver(config, s, d)) <==>
      (OutcomeOf(config, s, d) == Ok(Created) ==>
        MaxSerial(Numbers(s)) < LAST_SERIAL || Format(LAST_SERIAL + 1) !in Numbers(s))
  {
    hide MapRecord, ChecksumOf, Refno, Price, ExternalId, Format, MaxSerial, Numbers, NextAssetNumber;
    var t, number := Deliver(config, s, d), NextAssetNumber(Numbers(s));
    NextIsFresh(Numbers(s));
    if OutcomeOf(config, s, d) == Ok(Created) {
      NumbersInTable(s, number);
      assert t.assets[s.nextId].number == number;
      assert forall a | a in s.assets :: t.assets[a] == s.assets[a] && a != s.nextId;
    } else {
      assert forall a | a in t.assets :: a in s.assets && t.assets[a].number == s.assets[a].number;
    }
  }

  lemma NumbersInTable(s: Store, number: string)
    requires s.Valid()
    ensures number in Numbers(s) <==> exists a | a in s.assets :: s.assets[a].number == number
  {
    NumbersMember(s.assets, s.nextId, number);
  }

  /** At most one asset is new in t, and it has the next number; the others kept theirs. */
  ghost predicate AtMostOneNew(s: Store, t: Store) {
    forall a | a in t.assets ::
      || (a in s.assets && t.assets[a].number == s.assets[a].number)
      || (a == s.nextId && t.assets[a].number == NextAssetNumber(Numbers(s)))
  }

  lemma DeliverAddsOne(config: Config, s: Store, d: Delivery)
    ensures AtMostOneNew(s, Deliver(config, s, d))
  {
    hide MapRecord, ChecksumOf, Refno, Price, ExternalId, Numbers, NextAssetNumber;
  }

  /** The step took a new number. */
  function Taken(s: Store, t: Store): nat {
    if t.nextId > s.nextId then 1 else 0
  }

  /** With a serial left for a new asset, such a step keeps the numbers distinct and uses up no other serial. */
  lemma NumbersStep(s: Store, t: Store)
    requires s.Valid() && t.Valid() && AtMostOneNew(s, t) && DistinctNumbers(s)
    requires MaxSerial(Numbers(s)) + Taken(s, t) <= LAST_SERIAL
    ensures DistinctNumbers(t) && MaxSerial(Numbers(t)) <= MaxSerial(Numbers(s)) + Taken(s, t)
  {
    NextIsFresh(Numbers(s));
    SerialStep(s, t);
    hide Numbers, NextAssetNumber, Format, MaxSerial;
    forall a | a in s.assets
      ensures s.assets[a].number in Numbers(s) && a != s.nextId
    {
      NumbersInTable(s, s.assets[a].number);
    }
    assert forall a | a in t.assets :: a < t.nextId;
    hide Store.Valid;
  }

  lemma SerialBound(numbers: seq<string>, number: string)
    requires number in numbers || number == NextAssetNumber(numbers)
    ensures IsAssetNumber(number) ==>
      Serial(number) <= if number in numbers then MaxSerial(numbers) else MaxSerial(numbers) + 1
  {
    MaxSerialIsMax(numbers);
    NextIsFresh(numbers);
    FormatInverse(MaxSerial(numbers) + 1);
    hide Format, MaxSerial, NextAssetNumber;
  }

  lemma MaxSerialShown(numbers: seq<string>)
    ensures MaxSerial(numbers) == 0 ||
      exists number | number in numbers :: IsAssetNumber(number) && Serial(number) == MaxSerial(numbers)
  {
    hide IsAssetNumber, Serial;
  }

  lemma SerialStep(s: Store, t: Store)
    requires s.Valid() && t.Valid() && AtMostOneNew(s, t)
    ensures MaxSerial(Numbers(t)) <= MaxSerial(Numbers(s)) + Taken(s, t)
  {
    assert forall a | a in t.assets :: a < t.nextId;
    hide Numbers, NextAssetNumber, MaxSerial, IsAssetNumber, Serial, Store.Valid;
    MaxSerialShown(Numbers(t));
    if MaxSerial(Numbers(t)) != 0 {
      var number :| number in Numbers(t) && IsAssetNumber(number) && Serial(number) == MaxSerial(Numbers(t));
      NumbersInTable(t, number);
      NumbersInTable(s, number);
      SerialBound(Numbers(s), number);
    }
  }

  // ----- the tables as mutable state -----

  datatype RunError = FetchFailed | NotStored(record: Value) | NotAcked(imageId: string)

  /** The counters of one run. */
  class SyncRun {
    var total: nat
    var created: nat
    var updated: nat
    var skipped: nat
    var conflicts: nat
    var errors: seq<RunError>

    constructor (total: nat)
      ensures this.total == total && created == updated == skipped == conflicts == 0 && errors == []
    {
      this.total := total;
      created, updated, skipped, conflicts, errors := 0, 0, 0, 0, [];
    }

    function Stored(): nat
      reads this
    {
      created + updated + skipped + conflicts
    }

    /** `setattr(run, result, getattr(run, result) + 1)` */
    method Count(outcome: Outcome)
      modifies this`created, this`updated, this`skipped, this`conflicts
      ensures Counts(created, updated, skipped, conflicts, 0) ==
        Counts(old(created), old(updated), old(skipped), old(conflicts), 0).Add(Ok(outcome))
    {
      match outcome {
        case Created => created := created + 1;
        case Updated => updated := updated + 1;
        case Skipped => skipped := skipped + 1;
        case Conflict => conflicts := conflicts + 1;
      }
    }
  }

  class Archive {
    var rows: map<Uuid, SyncRow>
    var assets: map<AssetId, Asset>
    var nextId: AssetId

    constructor ()
      ensures View() == EMPTY
    {
      rows, assets, nextId := map[], map[], 0;
    }

    function View(): Store
      reads this
    {
      Store(rows, assets, nextId)
    }

    /**
     * The statements of `_sync_one` in order. An exception can leave the asset saved without
     * its sync row, so only a normal return promises anything about the tables.
     */
    method Upsert(config: Config, rec: Record, io: bool) returns (r: Result<Outcome>)
      modifies this
      ensures r == OutcomeOf(config, old(View()), Delivery(rec, io))
      ensures r.Ok? ==> View() == Deliver(config, old(View()), Delivery(rec, io))
    {
      hide MapRecord, ChecksumOf, ExternalId, Price, NextAssetNumber, Numbers, CleanText;
      var id := ExternalId(config, rec);
      if id == None {
        return Raised;
      }
      var x := id.value;
      var refno, checksum := Refno(rec), ChecksumOf(rec);
      if x !in rows {
        var number, asset := NextAssetNumber(Numbers(View())), nextId;
        var m := MapRecord(config, rec);
        if m == Raised {
          return Raised;
        }
        assets := assets[asset := Asset(number, m.value.content, m.value.extra, Some(Price(config, rec)))];
        nextId := nextId + 1;
        if !io {
          return Raised;
        }
        rows := rows[x := SyncRow(refno, asset, checksum, rec, false)];
        return Ok(Created);
      }
      var row := rows[x];
      if row.checksum == checksum {
        if !io { return Raised; }
        rows := rows[x := row.(payload := rec)];
        return Ok(Skipped);
      }
      if row.locked {
        if !io { return Raised; }
        rows := rows[x := row.(payload := rec)];
        return Ok(Conflict);
      }
      if row.asset !in assets {
        return Raised;
      }
      var m := MapRecord(config, rec);
      if m == Raised {
        return Raised;
      }
      assets := assets[row.asset := Remapped(config, assets[row.asset], rec, m.value)];
      if !io {
        return Raised;
      }
      rows := rows[x := row.(checksum := checksum, payload := rec, refno := refno)];
      r := Ok(Updated);
    }

    /** `with transaction.atomic()`: an exception restores the tables. */
    method SyncAtomic(config: Config, rec: Record, io: bool) returns (r: Result<Outcome>)
      modifies this
      ensures r == OutcomeOf(config, old(View()), Delivery(rec, io))
      ensures View() == Deliver(config, old(View()), Delivery(rec, io))
    {
      var savedRows, savedAssets, savedNext := rows, assets, nextId;
      r := Upsert(config, rec, io);
      if r == Raised {
        rows, assets, nextId := savedRows, savedAssets, savedNext;
      }
      hide SyncOne;
    }

    /** `sync_images` */
    method SyncImages(config: Config, ds: seq<Delivery>) returns (run: SyncRun)
      modifies this
      ensures fresh(run)
      ensures View() == SyncAll(config, old(View()), ds)
      ensures Counts(run.created, run.updated, run.skipped, run.conflicts, |run.errors|) ==
        Tally(config, old(View()), ds)
      ensures run.total == |ds|
    {
      hide SyncOne, Deliver, OutcomeOf;
      run := new SyncRun(|ds|);
      for i := 0 to |ds|
        invariant fresh(run) && run.total == |ds|
        invariant View() == SyncAll(config, old(View()), ds[..i])
        invariant Counts(run.created, run.updated, run.skipped, run.conflicts, |run.errors|) ==
          Tally(config, old(View()), ds[..i])
      {
        assert ds[..i + 1][..i] == ds[..i];
        var r := SyncAtomic(config, ds[i].rec, ds[i].io);
        match r {
          case Ok(outcome) => run.Count(outcome);
          case Raised => run.errors := run.errors + [NotStored(ds[i].rec.Get("image_id"))];
        }
      }
      assert ds[..|ds|] == ds;
    }
  }
}
