/** Rebuilding the catalogue from stored payloads, and what an editor's lock protects it from. */
module Reseed {
  import opened Sequences
  import opened Strings
  import opened Normalizers
  import opened FeedMapping
  import opened Numbering
  import opened SyncStore

  // ----- deletion with cascade and protection -----

  /**
   * `asset.delete(hard=True)`: the sync row cascades with its asset; an asset referenced by an
   * order item or a download raises ProtectedError instead.
   */
  function HardDelete(s: Store, a: AssetId, protected: set<AssetId>): Result<Store> {
    if a in protected then Raised
    else Ok(Store(map x | x in s.rows && s.rows[x].asset != a :: s.rows[x], s.assets - {a}, s.nextId))
  }

  function Linked(s: Store): set<AssetId> {
    set x | x in s.rows :: s.rows[x].asset
  }

  /** `junk.delete()`: one protected asset among the unlinked ones keeps them all. */
  function DropJunk(s: Store, protected: set<AssetId>): Store {
    var junk := s.assets.Keys - Linked(s);
    if junk !! protected then s.(assets := s.assets - junk) else s
  }

  // ----- one row of the reseed loop -----

  function RemapRow(config: Config, s: Store, x: Uuid, io: bool): Result<Store> {
    if x !in s.rows || s.rows[x].asset !in s.assets || !io then Raised
    else
      var row := s.rows[x];
      var m :- MapRecord(config, row.payload);
      Ok(s.(assets := s.assets[row.asset := Remapped(config, s.assets[row.asset], row.payload, m)]))
  }

  /** Build the new asset, relink the row, then delete the old asset. */
  function RecreateRow(config: Config, s: Store, x: Uuid, io: bool, protected: set<AssetId>): Result<Store> {
    if x !in s.rows || !io then Raised
    else
      var row := s.rows[x];
      var m :- MapRecord(config, row.payload);
      var relinked := Store(
        s.rows[x := row.(asset := s.nextId)],
        s.assets[s.nextId := NewAsset(config, s, row.payload, m)],
        s.nextId + 1);
      HardDelete(relinked, row.asset, protected)
  }

  datatype Mode = Remap | Recreate

  datatype RowResult = RowSkipped | RowRemapped | RowFailed

  function AttemptRow(config: Config, s: Store, x: Uuid, mode: Mode, io: bool, protected: set<AssetId>): Result<Store> {
    match mode
    case Remap => RemapRow(config, s, x, io)
    case Recreate => RecreateRow(config, s, x, io, protected)
  }

  function ReseedRow(
    config: Config, s: Store, x: Uuid, mode: Mode, io: bool, protected: set<AssetId>): (Store, RowResult)
  {
    if x in s.rows && s.rows[x].locked then (s, RowSkipped)
    else match AttemptRow(config, s, x, mode, io, protected)
      case Ok(t) => (t, RowRemapped)
      case Raised => (s, RowFailed)
  }

  /** The row read by the loop, and whether the I/O of its transaction succeeds. */
  datatype Visit = Visit(row: Uuid, io: bool)

  function ReseedRows(config: Config, s: Store, visits: seq<Visit>, mode: Mode, protected: set<AssetId>): Store {
    if visits == [] then s
    else
      var v := visits[|visits| - 1];
      ReseedRow(config, ReseedRows(config, s, visits[..|visits| - 1], mode, protected), v.row, mode, v.io, protected).0
  }

  // ----- recreate conserves the archive -----

  predicate SameRecord(a: SyncRow, b: SyncRow) {
    a.refno == b.refno && a.checksum == b.checksum && a.payload == b.payload && a.locked == b.locked
  }

  /** Every external id, reference, payload, checksum and lock is still there; locked rows are the same rows. */
  ghost predicate RowsConserved(s: Store, t: Store) {
    && t.rows.Keys == s.rows.Keys
    && (forall x | x in s.rows :: SameRecord(s.rows[x], t.rows[x]))
    && (forall x | x in s.rows && s.rows[x].locked :: t.rows[x] == s.rows[x])
  }

  /** A row either kept its asset as it was, or moved to one made since. */
  ghost predicate LinksConserved(s: Store, t: Store) {
    forall x | x in s.rows && x in t.rows ::
      t.rows[x].asset < s.nextId ==>
        && t.rows[x] == s.rows[x]
        && s.rows[x].asset in s.assets && s.rows[x].asset in t.assets
        && t.assets[s.rows[x].asset] == s.assets[s.rows[x].asset]
  }

  /** Protected assets, and assets no row links to, are intact; none is lost without a replacement. */
  ghost predicate AssetsConserved(s: Store, t: Store, protected: set<AssetId>) {
    && (forall a | a in s.assets && (a in protected || a !in Linked(s)) :: a in t.assets && t.assets[a] == s.assets[a])
    && |t.assets| == |s.assets|
  }

  ghost predicate Conserves(s: Store, t: Store, protected: set<AssetId>) {
    && t.Valid() && s.nextId <= t.nextId
    && RowsConserved(s, t) && LinksConserved(s, t) && AssetsConserved(s, t, protected)
  }

  lemma SwapKeepsSize(m: map<AssetId, Asset>, newId: AssetId, a: AssetId, v: Asset)
    requires a in m && newId !in m
    ensures |m[newId := v] - {a}| == |m|
  {
    var n := m[newId := v] - {a};
    assert n.Keys == m.Keys + {newId} - {a};
    assert |n| == |n.Keys| && |m| == |m.Keys|;
  }

  /** A recreated row is relinked, so the cascade of the deletion finds no row to remove. */
  lemma RecreateRowRows(config: Config, s: Store, x: Uuid, io: bool, protected: set<AssetId>)
    requires s.Valid() && x in s.rows && RecreateRow(config, s, x, io, protected).Ok?
    ensures var t, row := RecreateRow(config, s, x, io, protected).value, s.rows[x];
      && t.rows == s.rows[x := row.(asset := s.nextId)]
      && MapRecord(config, row.payload).Ok?
      && t.assets ==
        s.assets[s.nextId := NewAsset(config, s, row.payload, MapRecord(config, row.payload).value)] - {row.asset}
      && t.nextId == s.nextId + 1
      && row.asset !in protected
  {
    hide MapRecord, NewAsset;
    var t := RecreateRow(config, s, x, io, protected).value;
    var relinked := s.rows[x := s.rows[x].(asset := s.nextId)];
    assert forall y | y in relinked :: relinked[y].asset != s.rows[x].asset;
    assert t.rows == relinked;
  }

  /** Row x moved to a new asset and its old one is gone. */
  ghost predicate Swapped(s: Store, t: Store, x: Uuid, asset: Asset) {
    && x in s.rows && !s.rows[x].locked
    && t.rows == s.rows[x := s.rows[x].(asset := s.nextId)]
    && t.assets == s.assets[s.nextId := asset] - {s.rows[x].asset}
    && t.nextId == s.nextId + 1
  }

  lemma SwapValid(s: Store, t: Store, x: Uuid, asset: Asset)
    requires s.Valid() && Swapped(s, t, x, asset)
    ensures t.Valid()
  {}

  lemma SwapLinks(s: Store, t: Store, x: Uuid, asset: Asset)
    requires s.Valid() && Swapped(s, t, x, asset)
    ensures LinksConserved(s, t)
  {}

  lemma SwapAssets(s: Store, t: Store, x: Uuid, asset: Asset, protected: set<AssetId>)
    requires s.Valid() && Swapped(s, t, x, asset) && s.rows[x].asset !in protected
    ensures AssetsConserved(s, t, protected)
  {
    assert s.nextId !in s.assets && s.rows[x].asset in s.assets;
    hide Store.Valid;
    SwapKeepsSize(s.assets, s.nextId, s.rows[x].asset, asset);
    assert s.rows[x].asset in Linked(s);
  }

  lemma SwapConserves(s: Store, t: Store, x: Uuid, asset: Asset, protected: set<AssetId>)
    requires s.Valid() && Swapped(s, t, x, asset) && s.rows[x].asset !in protected
    ensures Conserves(s, t, protected)
  {
    hide Store.Valid, LinksConserved, AssetsConserved;
    SwapValid(s, t, x, asset);
    SwapLinks(s, t, x, asset);
    SwapAssets(s, t, x, asset, protected);
  }

  lemma ConservesSelf(s: Store, protected: set<AssetId>)
    requires s.Valid()
    ensures Conserves(s, s, protected)
  {}

  /** One recreation: exactly the rows that can be rebuilt are rebuilt, with the mapping of their payload. */
  lemma RecreateRowConserves(config: Config, s: Store, x: Uuid, io: bool, protected: set<AssetId>)
    requires s.Valid()
    ensures var (t, r) := ReseedRow(config, s, x, Recreate, io, protected);
      && Conserves(s, t, protected)
      && (r == RowRemapped <==>
          x in s.rows && !s.rows[x].locked && io && MapRecord(config, s.rows[x].payload).Ok? &&
            s.rows[x].asset !in protected)
      && (r == RowRemapped ==>
          x in t.rows && t.rows[x].asset == s.nextId && s.nextId in t.assets &&
          t.assets[s.nextId] == NewAsset(config, s, s.rows[x].payload, MapRecord(config, s.rows[x].payload).value))
  {
    hide MapRecord, NewAsset, Conserves;
    if x in s.rows && !s.rows[x].locked && RecreateRow(config, s, x, io, protected).Ok? {
      var m := MapRecord(config, s.rows[x].payload).value;
      var t := RecreateRow(config, s, x, io, protected).value;
      RecreateRowRows(config, s, x, io, protected);
      SwapConserves(s, t, x, NewAsset(config, s, s.rows[x].payload, m), protected);
    } else {
      ConservesSelf(s, protected);
    }
  }

  /** A recreation keeps the price of the old asset exactly when the payload asks for that price. */
  lemma RecreatePrice(config: Config, s: Store, x: Uuid, io: bool, protected: set<AssetId>)
    requires s.Valid() && ReseedRow(config, s, x, Recreate, io, protected).1 == RowRemapped
    ensures var t := ReseedRow(config, s, x, Recreate, io, protected).0;
      && x in s.rows && s.nextId in t.assets
      && (t.assets[s.nextId].price == s.assets[s.rows[x].asset].price <==>
          s.assets[s.rows[x].asset].price == Some(Price(config, s.rows[x].payload)))
  {
    RecreateRowConserves(config, s, x, io, protected);
    hide ReseedRow, MapRecord, Price, Conserves;
  }

  /** An editor raises the price of a stored record; the next recreation puts the feed's price back. */
  lemma EditorPriceLost(config: Config, x: Uuid)
    requires config.uuid(IMAGE_ID) == Some(x) && config.decimal(Str("100.00")) == Some(10000)
    ensures var s := Deliver(config, EMPTY, Delivery(FIRST_SCAN, true));
      && x in s.rows && s.rows[x].asset in s.assets
      && var edited := s.(assets := s.assets[s.rows[x].asset := s.assets[s.rows[x].asset].(price := Some(99900))]);
         var (t, r) := ReseedRow(config, edited, x, Recreate, true, {});
         && r == RowRemapped && x in t.rows && t.rows[x].asset in t.assets
         && t.assets[t.rows[x].asset].price == Some(10000)
  {
    FirstScanStored(config, x);
    DeliverValid(config, EMPTY, Delivery(FIRST_SCAN, true));
    hide Deliver, MapRecord, FIRST_SCAN, EMPTY;
    var s := Deliver(config, EMPTY, Delivery(FIRST_SCAN, true));
    var edited := s.(assets := s.assets[s.rows[x].asset := s.assets[s.rows[x].asset].(price := Some(99900))]);
    assert edited.Valid();
    hide Conserves, ReseedRow;
    RecreateRowConserves(config, edited, x, true, {});
  }

  lemma StoredOnce(config: Config, rec: Record, x: Uuid)
    requires ExternalId(config, rec) == Some(x) && MapRecord(config, rec).Ok?
    ensures var s := Deliver(config, EMPTY, Delivery(rec, true));
      x in s.rows && !s.rows[x].locked && s.rows[x].payload == rec && s.rows[x].asset in s.assets
  {
    hide MapRecord, ChecksumOf, Refno, NewAsset, ExternalId;
  }

  lemma FirstScanMaps(config: Config, x: Uuid)
    requires config.uuid(IMAGE_ID) == Some(x) && config.decimal(Str("100.00")) == Some(10000)
    ensures ExternalId(config, FIRST_SCAN) == Some(x) && Price(config, FIRST_SCAN) == 10000
    ensures FIRST_SCAN.Get("date_image_injested") == Null
  {}

  lemma FirstScanStored(config: Config, x: Uuid)
    requires config.uuid(IMAGE_ID) == Some(x) && config.decimal(Str("100.00")) == Some(10000)
    ensures var s := Deliver(config, EMPTY, Delivery(FIRST_SCAN, true));
      && x in s.rows && !s.rows[x].locked && s.rows[x].payload == FIRST_SCAN && s.rows[x].asset in s.assets
      && MapRecord(config, FIRST_SCAN).Ok? && Price(config, FIRST_SCAN) == 10000
    ensures EMPTY.Valid()
  {
    hide ParseDate, MapRecord, FIRST_SCAN, Deliver, ExternalId, Price;
    NoDate(config);
    ScanChecksums();
    FirstScanMaps(config, x);
    BareMaps(config, FIRST_SCAN);
    StoredOnce(config, FIRST_SCAN, x);
  }

  // ----- why the row is relinked first -----

  /**
   * The other order: delete the old asset, build the new one, then relink. Saving named fields of a sync
   * row that the cascade has taken raises.
   */
  function DeleteFirst(config: Config, s: Store, x: Uuid, io: bool, protected: set<AssetId>): Result<Store> {
    if x !in s.rows || !io then Raised
    else
      var row := s.rows[x];
      var deleted :- HardDelete(s, row.asset, protected);
      var m :- MapRecord(config, row.payload);
      if x !in deleted.rows then Raised
      else
        Ok(Store(
          deleted.rows[x := row.(asset := s.nextId)],
          deleted.assets[s.nextId := NewAsset(config, deleted, row.payload, m)],
          s.nextId + 1))
  }

  /** In that order no row could ever be rebuilt; relinking first rebuilds each one whose asset may go. */
  lemma DeleteFirstNeverRebuilds(config: Config, s: Store, x: Uuid, io: bool, protected: set<AssetId>)
    ensures DeleteFirst(config, s, x, io, protected) == Raised
    ensures RecreateRow(config, s, x, io, protected).Ok? <==>
      x in s.rows && io && MapRecord(config, s.rows[x].payload).Ok? && s.rows[x].asset !in protected
  {
    hide MapRecord, NewAsset;
  }

  lemma LinksTransitive(s: Store, t: Store, u: Store)
    requires s.Valid() && t.Valid() && s.nextId <= t.nextId
    requires RowsConserved(s, t) && LinksConserved(s, t) && RowsConserved(t, u) && LinksConserved(t, u)
    ensures LinksConserved(s, u)
  {
    hide SameRecord;
  }

  lemma AssetsTransitive(s: Store, t: Store, u: Store, protected: set<AssetId>)
    requires s.Valid() && RowsConserved(s, t) && LinksConserved(s, t)
    requires AssetsConserved(s, t, protected) && AssetsConserved(t, u, protected)
    ensures AssetsConserved(s, u, protected)
  {
    forall a | a in s.assets && (a in protected || a !in Linked(s))
      ensures a in u.assets && u.assets[a] == s.assets[a]
    {
      if a in Linked(t) {
        var x :| x in t.rows && t.rows[x].asset == a;
        assert t.rows[x] == s.rows[x];
      }
    }
  }

  lemma ConservesTransitive(s: Store, t: Store, u: Store, protected: set<AssetId>)
    requires s.Valid() && Conserves(s, t, protected) && Conserves(t, u, protected)
    ensures Conserves(s, u, protected)
  {
    hide LinksConserved, AssetsConserved, Store.Valid, SameRecord;
    LinksTransitive(s, t, u);
    AssetsTransitive(s, t, u, protected);
    RowsTransitive(s, t, u);
    hide RowsConserved;
  }

  lemma RowsTransitive(s: Store, t: Store, u: Store)
    requires RowsConserved(s, t) && RowsConserved(t, u)
    ensures RowsConserved(s, u)
  {}

  /**
   * `reseed_assets --recreate` conserves the archive, for every order of the rows and every set of
   * failures and protected assets.
   */
  lemma {:induction false} RecreateConserves(config: Config, s: Store, visits: seq<Visit>, protected: set<AssetId>)
    requires s.Valid()
    ensures Conserves(s, ReseedRows(config, s, visits, Recreate, protected), protected)
  {
    if visits != [] {
      var front, v := visits[..|visits| - 1], Last(visits);
      var t := ReseedRows(config, s, front, Recreate, protected);
      RecreateConserves(config, s, front, protected);
      assert t.Valid();
      RecreateRowConserves(config, t, v.row, v.io, protected);
      hide Conserves, ReseedRow;
      ConservesTransitive(s, t, ReseedRows(config, s, visits, Recreate, protected), protected);
    } else {
      ConservesSelf(s, protected);
    }
  }

  /** The junk sweep is all or nothing: either every unlinked asset goes, or one protected asset keeps them all. */
  lemma JunkAllOrNothing(s: Store, protected: set<AssetId>)
    requires s.Valid()
    ensures var t := DropJunk(s, protected);
      && t.Valid() && t.rows == s.rows
      && (forall a | a in s.assets && a in protected :: a in t.assets && t.assets[a] == s.assets[a])
      && (t.assets.Keys == Linked(s) <==> forall a | a in s.assets && a in protected :: a in Linked(s))
      && (t.assets.Keys != Linked(s) ==> t == s)
  {
    var junk := s.assets.Keys - Linked(s);
    forall a | a in Linked(s)
      ensures a in s.assets
    {
      var x :| x in s.rows && s.rows[x].asset == a;
    }
    if junk !! protected {
      assert DropJunk(s, protected).assets.Keys == Linked(s);
    }
  }

  // ----- remap rebuilds from payloads -----

  /** The asset of row x shows the mapping of the stored payload. */
  ghost predicate Rebuilt(config: Config, s: Store, x: Uuid) {
    && x in s.rows && s.rows[x].asset in s.assets && MapRecord(config, s.rows[x].payload).Ok?
    && s.assets[s.rows[x].asset].content == MapRecord(config, s.rows[x].payload).value.content
    && s.assets[s.rows[x].asset].extra == MapRecord(config, s.rows[x].payload).value.extra
  }

  ghost predicate RemapKeeps(s: Store, t: Store) {
    && t.Valid() && t.rows == s.rows && t.nextId == s.nextId && t.assets.Keys == s.assets.Keys
    && forall a | a in s.assets ::
         && t.assets[a].number == s.assets[a].number
         && (s.assets[a].price.Some? ==> t.assets[a].price == s.assets[a].price)
         && (a !in Linked(s) ==> t.assets[a] == s.assets[a])
  }

  lemma RemapRowKeeps(config: Config, s: Store, v: Visit, x: Uuid)
    requires s.Valid()
    ensures var t := ReseedRow(config, s, v.row, Remap, v.io, {}).0;
      && RemapKeeps(s, t)
      && (Rebuilt(config, s, x) ==> Rebuilt(config, t, x))
      && (v == Visit(x, true) && x in s.rows && !s.rows[x].locked && MapRecord(config, s.rows[x].payload).Ok? ==>
          Rebuilt(config, t, x))
  {
    hide MapRecord, Price;
    if v.row in s.rows { assert s.rows[v.row].asset in Linked(s); }
  }

  lemma RemapIgnoresProtection(config: Config, s: Store, v: Visit, protected: set<AssetId>)
    ensures ReseedRow(config, s, v.row, Remap, v.io, protected) == ReseedRow(config, s, v.row, Remap, v.io, {})
  {
    hide RemapRow, RecreateRow;
  }

  /**
   * A plain reseed touches no row, number, set price or unlinked asset, and brings every unlocked
   * asset it reached back to the full mapping of its payload - the drifting title included.
   */
  lemma {:induction false} RemapRebuilds(
    config: Config, s: Store, visits: seq<Visit>, protected: set<AssetId>, x: Uuid)
    requires s.Valid() && x in s.rows && !s.rows[x].locked && MapRecord(config, s.rows[x].payload).Ok?
    ensures var t := ReseedRows(config, s, visits, Remap, protected);
      RemapKeeps(s, t) && (Visit(x, true) in visits ==> Rebuilt(config, t, x))
  {
    hide ReseedRow, Rebuilt, MapRecord, RemapKeeps, Store.Valid;
    if visits == [] {
      RemapKeepsSelf(s);
    } else {
      var front, v := visits[..|visits| - 1], Last(visits);
      var t := ReseedRows(config, s, front, Remap, protected);
      RemapRebuilds(config, s, front, protected, x);
      RemapKeepsRows(s, t);
      RemapIgnoresProtection(config, t, v, protected);
      RemapRowKeeps(config, t, v, x);
      RemapKeepsTransitive(s, t, ReseedRows(config, s, visits, Remap, protected));
      assert visits == front + [v];
      hide ReseedRows;
    }
  }

  lemma RemapKeepsSelf(s: Store)
    requires s.Valid()
    ensures RemapKeeps(s, s)
  {}

  lemma RemapKeepsRows(s: Store, t: Store)
    requires RemapKeeps(s, t)
    ensures t.Valid() && t.rows == s.rows
  {}

  lemma RemapKeepsTransitive(s: Store, t: Store, u: Store)
    requires RemapKeeps(s, t) && RemapKeeps(t, u)
    ensures RemapKeeps(s, u)
  {
    assert Linked(s) == Linked(t);
    hide Store.Valid, Linked;
  }

  /** A plain reseed of a row: the mapping of its payload, its number, and a price only where there was none. */
  lemma RemapRowExact(config: Config, s: Store, x: Uuid, io: bool, protected: set<AssetId>)
    requires s.Valid()
    ensures var (t, r) := ReseedRow(config, s, x, Remap, io, protected);
      && (r == RowRemapped <==> x in s.rows && !s.rows[x].locked && io && MapRecord(config, s.rows[x].payload).Ok?)
      && (r == RowRemapped ==>
          var a, rec := s.rows[x].asset, s.rows[x].payload;
          && t.rows == s.rows && t.nextId == s.nextId
          && t.assets == s.assets[a := Asset(
               s.assets[a].number,
               MapRecord(config, rec).value.content,
               MapRecord(config, rec).value.extra,
               if s.assets[a].price == None then Some(Price(config, rec)) else s.assets[a].price)])
  {
    hide MapRecord, Price;
  }

  // ----- the counters of a reseed -----

  function CountResults(
    config: Config, s: Store, visits: seq<Visit>, mode: Mode, protected: set<AssetId>, r: RowResult): nat
  {
    if visits == [] then 0
    else
      var front, v := visits[..|visits| - 1], visits[|visits| - 1];
      var result := ReseedRow(config, ReseedRows(config, s, front, mode, protected), v.row, mode, v.io, protected).1;
      CountResults(config, s, front, mode, protected, r) + if result == r then 1 else 0
  }

  /** A row is skipped exactly when it is locked, and neither a skipped nor a failed row changes anything. */
  lemma RowResultExact(config: Config, s: Store, v: Visit, mode: Mode, protected: set<AssetId>)
    ensures var (t, r) := ReseedRow(config, s, v.row, mode, v.io, protected);
      && (r == RowSkipped <==> v.row in s.rows && s.rows[v.row].locked)
      && (r != RowRemapped ==> t == s)
  {
    hide AttemptRow;
  }

  predicate SameLocks(s: Store, t: Store) {
    t.rows.Keys == s.rows.Keys && forall x | x in s.rows :: t.rows[x].locked == s.rows[x].locked
  }

  lemma RemapLocks(config: Config, s: Store, v: Visit, protected: set<AssetId>)
    requires s.Valid()
    ensures SameLocks(s, ReseedRow(config, s, v.row, Remap, v.io, protected).0)
  {
    RemapRowExact(config, s, v.row, v.io, protected);
    RowResultExact(config, s, v, Remap, protected);
    hide ReseedRow, MapRecord, Price, Store.Valid;
  }

  lemma RecreateLocks(config: Config, s: Store, v: Visit, protected: set<AssetId>)
    requires s.Valid()
    ensures SameLocks(s, ReseedRow(config, s, v.row, Recreate, v.io, protected).0)
  {
    RecreateRowConserves(config, s, v.row, v.io, protected);
    hide ReseedRow, LinksConserved, AssetsConserved, Store.Valid, MapRecord, NewAsset;
  }

  lemma ReseedRowLocks(config: Config, s: Store, v: Visit, mode: Mode, protected: set<AssetId>)
    requires s.Valid()
    ensures var t := ReseedRow(config, s, v.row, mode, v.io, protected).0; t.Valid() && SameLocks(s, t)
  {
    hide ReseedRow, SameLocks, Store.Valid;
    ReseedRowKeeps(config, s, v, mode, protected);
    match mode
    case Recreate => RecreateLocks(config, s, v, protected);
    case Remap => RemapLocks(config, s, v, protected);
  }

  lemma {:induction false} ReseedRowsLocks(
    config: Config, s: Store, visits: seq<Visit>, mode: Mode, protected: set<AssetId>)
    requires s.Valid()
    ensures var t := ReseedRows(config, s, visits, mode, protected); t.Valid() && SameLocks(s, t)
  {
    if visits == [] {
    } else {
      hide ReseedRow;
      var front := visits[..|visits| - 1];
      ReseedRowsLocks(config, s, front, mode, protected);
      ReseedRowLocks(config, ReseedRows(config, s, front, mode, protected), Last(visits), mode, protected);
    }
  }

  /** The visits of the command that fall on a locked row. */
  function LockedVisits(s: Store, visits: seq<Visit>): set<nat> {
    set i | 0 <= i < |visits| && visits[i].row in s.rows && s.rows[visits[i].row].locked
  }

  lemma LockedVisitsStep(s: Store, visits: seq<Visit>)
    requires visits != []
    ensures var v, front := Last(visits), visits[..|visits| - 1];
      |LockedVisits(s, visits)| ==
        |LockedVisits(s, front)| + if v.row in s.rows && s.rows[v.row].locked then 1 else 0
  {
    var v, front := Last(visits), visits[..|visits| - 1];
    if v.row in s.rows && s.rows[v.row].locked {
      assert LockedVisits(s, visits) == LockedVisits(s, front) + {|front|};
    } else {
      assert LockedVisits(s, visits) == LockedVisits(s, front);
    }
  }

  /** Every visit is counted once, and the skipped ones are those of the rows that were locked at the start. */
  lemma {:induction false} CountsExact(
    config: Config, s: Store, visits: seq<Visit>, mode: Mode, protected: set<AssetId>)
    requires s.Valid()
    ensures CountResults(config, s, visits, mode, protected, RowSkipped) == |LockedVisits(s, visits)|
    ensures
      CountResults(config, s, visits, mode, protected, RowRemapped) +
      CountResults(config, s, visits, mode, protected, RowSkipped) +
      CountResults(config, s, visits, mode, protected, RowFailed) == |visits|
  {
    hide ReseedRow, ReseedRows, LockedVisits, Store.Valid;
    if visits == [] {
      assert LockedVisits(s, []) == {} by { NoVisits(s); }
    } else {
      var front := visits[..|visits| - 1];
      CountsExact(config, s, front, mode, protected);
      LockedVisitsStep(s, visits);
      ReseedRowsLocks(config, s, front, mode, protected);
      RowResultExact(config, ReseedRows(config, s, front, mode, protected), Last(visits), mode, protected);
    }
  }

  lemma NoVisits(s: Store)
    ensures LockedVisits(s, []) == {}
  {}

  // ----- what a lock protects -----

  function Fill(current: Option<nat>, resolved: Option<nat>): Option<nat> {
    if current == None then resolved else current
  }

  /** `backfill_categories` on one candidate row. */
  function BackfillRow(config: Config, s: Store, x: Uuid): Store {
    if x !in s.rows || s.rows[x].locked || s.rows[x].asset !in s.assets then s
    else
      var row := s.rows[x];
      var asset := s.assets[row.asset];
      var filled := asset.content.(
        category := Fill(asset.content.category, Resolve(config, SubCategory, row.payload.Get("sub_category"))),
        collection := Fill(asset.content.collection, Resolve(config, MainCategory, row.payload.Get("main_category"))));
      s.(assets := s.assets[row.asset := asset.(content := filled)])
  }

  /** The backfill touches unlocked rows only, and there fills a missing category or collection from its own code. */
  lemma BackfillExact(config: Config, s: Store, x: Uuid)
    requires s.Valid()
    ensures x !in s.rows || s.rows[x].locked ==> BackfillRow(config, s, x) == s
    ensures x in s.rows && !s.rows[x].locked ==>
      var t, a, rec := BackfillRow(config, s, x), s.rows[x].asset, s.rows[x].payload;
      && t.rows == s.rows && t.nextId == s.nextId && a in t.assets && t.assets - {a} == s.assets - {a}
      && (var before, after := s.assets[a].content, t.assets[a].content;
        && t.assets[a] == s.assets[a].(content := before.(category := after.category, collection := after.collection))
        && (before.category.Some? ==> after.category == before.category)
        && (before.category == None ==> after.category == Resolve(config, SubCategory, rec.Get("sub_category")))
        && (before.collection.Some? ==> after.collection == before.collection)
        && (before.collection == None ==> after.collection == Resolve(config, MainCategory, rec.Get("main_category"))))
  {
    hide Resolve, Record.Get;
  }

  /** The code table gained targets and lost none. */
  ghost predicate CodesExtended(before: Config, after: Config) {
    && after == before.(codes := after.codes)
    && forall k | k in before.codes && before.codes[k].Some? :: k in after.codes && after.codes[k] == before.codes[k]
  }

  lemma ResolveExtended(before: Config, after: Config, itemType: ItemType, code: Value)
    requires CodesExtended(before, after)
    ensures Fill(Resolve(before, itemType, code), Resolve(after, itemType, code)) == Resolve(after, itemType, code)
  {}

  /** Only category and collection depend on the code table. */
  lemma ContentExtended(before: Config, after: Config, rec: Record)
    requires CodesExtended(before, after) && ContentOf(before, rec).Ok?
    ensures ContentOf(after, rec) == Ok(ContentOf(before, rec).value.(
      category := Resolve(after, SubCategory, rec.Get("sub_category")),
      collection := Resolve(after, MainCategory, rec.Get("main_category"))))
  {
    SameDates(before, after, rec.Get("image_date_created"));
    hide CodesExtended, Resolve, Title, Photographer, Keywords, SentenceCase, CleanText,
      TitleCaseLocation, NormalizeCountry, TagNames, ParseDate, Record.Get;
  }

  /**
   * The backfill refines a remap: on an asset that shows the mapping of its payload, it yields the
   * mapping under a code table extended since.
   */
  lemma BackfillRefinesRemap(before: Config, after: Config, s: Store, x: Uuid)
    requires s.Valid() && x in s.rows && !s.rows[x].locked && CodesExtended(before, after)
    requires ContentOf(before, s.rows[x].payload) == Ok(s.assets[s.rows[x].asset].content)
    ensures var t := BackfillRow(after, s, x);
      && t.rows == s.rows && s.rows[x].asset in t.assets
      && Ok(t.assets[s.rows[x].asset].content) == ContentOf(after, s.rows[x].payload)
  {
    hide Resolve, Fill, CodesExtended, ContentOf, Record.Get;
    var rec := s.rows[x].payload;
    ContentExtended(before, after, rec);
    CodesResolved(before, rec);
    ResolveExtended(before, after, SubCategory, rec.Get("sub_category"));
    ResolveExtended(before, after, MainCategory, rec.Get("main_category"));
  }

  lemma CodesResolved(config: Config, rec: Record)
    requires ContentOf(config, rec).Ok?
    ensures ContentOf(config, rec).value.category == Resolve(config, SubCategory, rec.Get("sub_category"))
    ensures ContentOf(config, rec).value.collection == Resolve(config, MainCategory, rec.Get("main_category"))
  {
    hide Resolve, Title, Photographer, Keywords, SentenceCase, CleanText,
      TitleCaseLocation, NormalizeCountry, TagNames, ParseDate, Record.Get;
  }

  lemma SameDates(before: Config, after: Config, v: Value)
    requires CodesExtended(before, after)
    ensures ParseDate(before, v) == ParseDate(after, v)
  {
    match v
    case Str(text) => SameFormats(before, after, Trim(text, IsSpace), DATE_FORMATS);
    case _ =>
  }

  lemma {:induction false} SameFormats(before: Config, after: Config, text: string, formats: seq<string>)
    requires CodesExtended(before, after)
    ensures TryFormats(before, text, formats) == TryFormats(after, text, formats)
    decreases |formats|
  {
    if formats == [] {
    } else {
      SameFormats(before, after, text, formats[1..]);
    }
  }

  datatype Step =
    | Delivered(delivery: Delivery)
    | Reseeded(visit: Visit, mode: Mode, protected: set<AssetId>)
    | JunkDropped(protected: set<AssetId>)
    | Backfilled(row: Uuid)
    | LockSet(row: Uuid, locked: bool)

  /** A step of any command, under the code tables of its time. */
  datatype Event = Event(config: Config, step: Step)

  function Apply(s: Store, e: Event): Store {
    match e.step
    case Delivered(d) => Deliver(e.config, s, d)
    case Reseeded(v, mode, protected) => ReseedRow(e.config, s, v.row, mode, v.io, protected).0
    case JunkDropped(protected) => DropJunk(s, protected)
    case Backfilled(x) => BackfillRow(e.config, s, x)
    case LockSet(x, b) => if x in s.rows then s.(rows := s.rows[x := s.rows[x].(locked := b)]) else s
  }

  function Run(s: Store, events: seq<Event>): Store {
    if events == [] then s
    else Apply(Run(s, events[..|events| - 1]), events[|events| - 1])
  }

  lemma RemapRowFrame(config: Config, s: Store, x: Uuid, y: Uuid, io: bool)
    requires s.Valid() && RemapRow(config, s, y, io).Ok?
    ensures var t := RemapRow(config, s, y, io).value;
      && t.Valid() && t.rows == s.rows
      && (x in s.rows && x != y ==> t.assets[s.rows[x].asset] == s.assets[s.rows[x].asset])
  {
    hide MapRecord, Remapped;
  }

  lemma ReseedRowKeeps(config: Config, s: Store, v: Visit, mode: Mode, protected: set<AssetId>)
    requires s.Valid()
    ensures ReseedRow(config, s, v.row, mode, v.io, protected).0.Valid()
    ensures ReseedRow(config, s, v.row, mode, v.io, protected).0.rows.Keys == s.rows.Keys
  {
    match mode
    case Recreate =>
      RecreateRowConserves(config, s, v.row, v.io, protected);
      hide ReseedRow, LinksConserved, AssetsConserved;
    case Remap =>
      if RemapRow(config, s, v.row, v.io).Ok? { RemapRowFrame(config, s, 0, v.row, v.io); }
      hide RemapRow;
  }

  lemma BackfillValid(config: Config, s: Store, x: Uuid)
    requires s.Valid()
    ensures BackfillRow(config, s, x).Valid()
  {
    hide Resolve;
  }

  lemma ApplyValid(s: Store, e: Event)
    requires s.Valid()
    ensures Apply(s, e).Valid()
  {
    hide Deliver, ReseedRow, DropJunk, BackfillRow;
    match e.step
    case Delivered(d) => DeliverValid(e.config, s, d);
    case Reseeded(v, mode, protected) => ReseedRowKeeps(e.config, s, v, mode, protected);
    case JunkDropped(protected) => JunkAllOrNothing(s, protected);
    case Backfilled(x) => BackfillValid(e.config, s, x);
    case LockSet(_, _) =>
  }

  /** Row x and its asset are as they were, the payload apart. */
  ghost predicate Untouched(s: Store, t: Store, x: Uuid) {
    && x in s.rows && x in t.rows
    && t.rows[x].(payload := s.rows[x].payload) == s.rows[x]
    && s.rows[x].asset in s.assets && s.rows[x].asset in t.assets
    && t.assets[s.rows[x].asset] == s.assets[s.rows[x].asset]
  }

  /** The delivery that the row's payload now shows, if this event committed one for x. */
  ghost predicate CommitsTo(s: Store, e: Event, x: Uuid) {
    e.step.Delivered? && ExternalId(e.config, e.step.delivery.rec) == Some(x) &&
    SyncOne(e.config, s, e.step.delivery.rec, e.step.delivery.io).Ok?
  }

  lemma DeliverToLocked(config: Config, s: Store, d: Delivery, x: Uuid)
    requires s.Valid() && x in s.rows && s.rows[x].locked
    ensures Untouched(s, Deliver(config, s, d), x)
    ensures Deliver(config, s, d).rows[x].payload ==
      if ExternalId(config, d.rec) == Some(x) && SyncOne(config, s, d.rec, d.io).Ok? then d.rec else s.rows[x].payload
  {
    hide MapRecord, ChecksumOf, Refno, NewAsset, Remapped, ExternalId;
    if ExternalId(config, d.rec) != Some(x) { DeliverFrame(config, s, d, x); }
  }

  lemma LockedStep(s: Store, e: Event, x: Uuid)
    requires s.Valid() && x in s.rows && s.rows[x].locked && e.step != LockSet(x, false)
    ensures Untouched(s, Apply(s, e), x)
    ensures Apply(s, e).rows[x].payload == if CommitsTo(s, e, x) then e.step.delivery.rec else s.rows[x].payload
  {
    match e.step
    case Delivered(d) =>
      DeliverToLocked(e.config, s, d, x);
      hide Deliver;
    case Reseeded(v, Remap, protected) =>
      if RemapRow(e.config, s, v.row, v.io).Ok? { RemapRowFrame(e.config, s, x, v.row, v.io); }
      hide RemapRow;
    case Reseeded(v, Recreate, protected) =>
      RecreateRowConserves(e.config, s, v.row, v.io, protected);
      hide ReseedRow;
    case JunkDropped(protected) =>
      assert s.rows[x].asset in Linked(s);
    case Backfilled(_) => hide Resolve;
    case LockSet(_, _) =>
  }

  /** The payload the last committed delivery for x left, or the initial one. */
  ghost function LastPayload(s: Store, events: seq<Event>, x: Uuid): Record
    requires x in s.rows
  {
    if events == [] then s.rows[x].payload
    else
      var front, e := events[..|events| - 1], events[|events| - 1];
      if CommitsTo(Run(s, front), e, x) then e.step.delivery.rec else LastPayload(s, front, x)
  }

  /**
   * While a record stays locked, no delivery, reseed, junk sweep or backfill changes its asset, its
   * checksum or its link; only the payload follows the last committed delivery.
   */
  lemma {:induction false} LockPreserves(s: Store, events: seq<Event>, x: Uuid)
    requires s.Valid() && x in s.rows && s.rows[x].locked
    requires forall e | e in events :: e.step != LockSet(x, false)
    ensures Run(s, events).Valid() && Untouched(s, Run(s, events), x)
    ensures Run(s, events).rows[x].payload == LastPayload(s, events, x)
  {
    if events == [] {
    } else {
      hide Apply, CommitsTo;
      var front := events[..|events| - 1];
      LockPreserves(s, front, x);
      ApplyValid(Run(s, front), Last(events));
      LockedStep(Run(s, front), Last(events), x);
    }
  }

  lemma ConflictHoldsBack(config: Config, s: Store, x: Uuid, rec: Record)
    requires x in s.rows && s.rows[x].locked
    requires ExternalId(config, rec) == Some(x) && ChecksumOf(rec) != s.rows[x].checksum
    ensures Deliver(config, s, Delivery(rec, true)) == s.(rows := s.rows[x := s.rows[x].(payload := rec)])
  {
    hide ChecksumOf, ExternalId;
  }

  lemma ChangedIsApplied(config: Config, s: Store, x: Uuid, rec: Record)
    requires x in s.rows && !s.rows[x].locked && s.rows[x].asset in s.assets
    requires ExternalId(config, rec) == Some(x) && ChecksumOf(rec) != s.rows[x].checksum
    requires MapRecord(config, rec).Ok?
    ensures OutcomeOf(config, s, Delivery(rec, true)) == Ok(Updated)
    ensures var t := Deliver(config, s, Delivery(rec, true));
      s.rows[x].asset in t.assets && t.assets[s.rows[x].asset].content == MapRecord(config, rec).value.content
  {
    hide ChecksumOf, ExternalId, MapRecord, Refno, Price;
  }

  /** The checksum kept by a conflict makes the held-back version apply once the lock is lifted. */
  lemma UnlockThenRedeliver(config: Config, s: Store, x: Uuid, rec: Record)
    requires s.Valid() && x in s.rows && s.rows[x].locked
    requires ExternalId(config, rec) == Some(x) && ChecksumOf(rec) != s.rows[x].checksum
    requires MapRecord(config, rec).Ok?
    ensures var d := Delivery(rec, true);
      var t := Apply(Apply(s, Event(config, Delivered(d))), Event(config, LockSet(x, false)));
      var u := Deliver(config, t, d);
      && OutcomeOf(config, t, d) == Ok(Updated)
      && s.rows[x].asset in u.assets
      && u.assets[s.rows[x].asset].content == MapRecord(config, rec).value.content
  {
    hide MapRecord, ChecksumOf, ExternalId, Deliver, OutcomeOf;
    ConflictHoldsBack(config, s, x, rec);
    var t := Apply(Apply(s, Event(config, Delivered(Delivery(rec, true)))), Event(config, LockSet(x, false)));
    ChangedIsApplied(config, t, x, rec);
  }

  // ----- asset numbers over time -----

  /** A recreation keeps the numbers distinct exactly when serials remain or no other asset has the overflowing one. */
  lemma RecreateKeepsDistinct(config: Config, s: Store, x: Uuid, io: bool, protected: set<AssetId>)
    requires s.Valid() && DistinctNumbers(s)
    requires ReseedRow(config, s, x, Recreate, io, protected).1 == RowRemapped
    ensures x in s.rows
    ensures DistinctNumbers(ReseedRow(config, s, x, Recreate, io, protected).0) <==>
      MaxSerial(Numbers(s)) < LAST_SERIAL ||
      forall a | a in s.assets && a != s.rows[x].asset :: s.assets[a].number != Format(LAST_SERIAL + 1)
  {
    RecreateRowConserves(config, s, x, io, protected);
    RecreateRowRows(config, s, x, io, protected);
    var t := RecreateRow(config, s, x, io, protected).value;
    assert t == ReseedRow(config, s, x, Recreate, io, protected).0;
    hide RecreateRow, ReseedRow, MapRecord, Conserves;
    SwapKeepsDistinct(s, t, x);
  }

  lemma SwapKeepsDistinct(s: Store, t: Store, x: Uuid)
    requires s.Valid() && DistinctNumbers(s) && x in s.rows && s.nextId in t.assets
    requires t.assets == s.assets[s.nextId := t.assets[s.nextId]] - {s.rows[x].asset}
    requires t.assets[s.nextId].number == NextAssetNumber(Numbers(s))
    ensures DistinctNumbers(t) <==>
      MaxSerial(Numbers(s)) < LAST_SERIAL ||
      forall a | a in s.assets && a != s.rows[x].asset :: s.assets[a].number != Format(LAST_SERIAL + 1)
  {
    hide Numbers, NextAssetNumber, Format, MaxSerial;
    var number := NextAssetNumber(Numbers(s));
    NextIsFresh(Numbers(s));
    MaxSerialIsMax(Numbers(s));
    NumbersInTable(s, number);
    assert s.nextId !in s.assets;
    assert forall a | a in s.assets && a != s.rows[x].asset :: a in t.assets && t.assets[a] == s.assets[a];
    assert DistinctNumbers(t) <==> forall a | a in s.assets && a != s.rows[x].asset :: s.assets[a].number != number;
    hide Store.Valid, DistinctNumbers;
  }

  lemma RecreateAddsOne(config: Config, s: Store, x: Uuid, io: bool, protected: set<AssetId>)
    requires s.Valid()
    ensures AtMostOneNew(s, ReseedRow(config, s, x, Recreate, io, protected).0)
  {
    if x in s.rows && !s.rows[x].locked && RecreateRow(config, s, x, io, protected).Ok? {
      RecreateRowRows(config, s, x, io, protected);
    }
    hide RecreateRow, MapRecord, NextAssetNumber, Numbers, Price;
  }

  lemma RemapAddsNone(config: Config, s: Store, v: Visit, protected: set<AssetId>)
    requires s.Valid()
    ensures AtMostOneNew(s, ReseedRow(config, s, v.row, Remap, v.io, protected).0)
  {
    RemapIgnoresProtection(config, s, v, protected);
    RemapRowKeeps(config, s, v, v.row);
    hide ReseedRow, Rebuilt, Store.Valid, NextAssetNumber, Numbers;
  }

  lemma ApplyAddsOne(s: Store, e: Event)
    requires s.Valid()
    ensures AtMostOneNew(s, Apply(s, e))
  {
    hide NextAssetNumber, Numbers;
    match e.step
    case Delivered(d) => DeliverAddsOne(e.config, s, d); hide Deliver, AtMostOneNew;
    case Reseeded(v, Remap, protected) => RemapAddsNone(e.config, s, v, protected); hide ReseedRow, AtMostOneNew;
    case Reseeded(v, Recreate, protected) =>
      RecreateAddsOne(e.config, s, v.row, v.io, protected);
      hide ReseedRow, AtMostOneNew;
    case JunkDropped(protected) =>
    case Backfilled(x) => hide Resolve;
    case LockSet(_, _) =>
  }

  /** The assets created in the course of a run. */
  function Creations(s: Store, events: seq<Event>): nat {
    if events == [] then 0
    else
      var front := events[..|events| - 1];
      Creations(s, front) + Taken(Run(s, front), Run(s, events))
  }

  /**
   * Over any run of deliveries, reseeds, sweeps and backfills the asset numbers stay distinct as long as
   * there is a serial for every asset created.
   */
  lemma {:induction false} RunKeepsDistinct(s: Store, events: seq<Event>)
    requires s.Valid() && DistinctNumbers(s) && MaxSerial(Numbers(s)) + Creations(s, events) <= LAST_SERIAL
    ensures Run(s, events).Valid() && DistinctNumbers(Run(s, events))
    ensures MaxSerial(Numbers(Run(s, events))) <= MaxSerial(Numbers(s)) + Creations(s, events)
  {
    hide Apply, AtMostOneNew, DistinctNumbers, Store.Valid, MaxSerial, Numbers, Taken;
    if events == [] {
    } else {
      var front, e := events[..|events| - 1], Last(events);
      RunKeepsDistinct(s, front);
      var t := Run(s, front);
      ApplyValid(t, e);
      ApplyAddsOne(t, e);
      NumbersStep(t, Apply(t, e));
    }
  }

  // ----- the command -----

  /** The transaction body of one row; an exception may come after the new asset was saved. */
  method AttemptOnArchive(archive: Archive, config: Config, x: Uuid, mode: Mode, io: bool, protected: set<AssetId>)
    returns (ok: bool)
    requires x in archive.rows
    modifies archive
    ensures var r := AttemptRow(config, old(archive.View()), x, mode, io, protected);
      ok == r.Ok? && (ok ==> archive.View() == r.value)
  {
    hide MapRecord, Price, NextAssetNumber, Numbers;
    var row := archive.rows[x];
    var m := MapRecord(config, row.payload);
    if m == Raised {
      return false;
    }
    match mode {
      case Recreate =>
        var number, asset := NextAssetNumber(Numbers(archive.View())), archive.nextId;
        archive.assets := archive.assets[
          asset := Asset(number, m.value.content, m.value.extra, Some(Price(config, row.payload)))];
        archive.nextId := archive.nextId + 1;
        if !io {
          return false;
        }
        archive.rows := archive.rows[x := row.(asset := asset)];
        var deleted := HardDelete(archive.View(), row.asset, protected);
        if deleted == Raised {
          return false;
        }
        archive.rows, archive.assets := deleted.value.rows, deleted.value.assets;
        return true;
      case Remap =>
        if row.asset !in archive.assets {
          return false;
        }
        archive.assets := archive.assets[
          row.asset := Remapped(config, archive.assets[row.asset], row.payload, m.value)];
        return io;
    }
  }

  /** One turn of the loop: skip a locked row, otherwise try, and restore the tables on an exception. */
  method ReseedOne(archive: Archive, config: Config, v: Visit, mode: Mode, protected: set<AssetId>)
    returns (r: RowResult)
    requires v.row in archive.rows
    modifies archive
    ensures (archive.View(), r) == ReseedRow(config, old(archive.View()), v.row, mode, v.io, protected)
  {
    hide AttemptRow;
    if archive.rows[v.row].locked {
      return RowSkipped;
    }
    var savedRows, savedAssets, savedNext := archive.rows, archive.assets, archive.nextId;
    var ok := AttemptOnArchive(archive, config, v.row, mode, v.io, protected);
    if ok {
      return RowRemapped;
    }
    archive.rows, archive.assets, archive.nextId := savedRows, savedAssets, savedNext;
    r := RowFailed;
  }

  /** The loop of `Command.handle` over the rows it read. */
  method ReseedLoop(archive: Archive, config: Config, visits: seq<Visit>, mode: Mode, protected: set<AssetId>)
    returns (remapped: nat, skipped: nat, failed: nat)
    requires archive.View().Valid() && forall v | v in visits :: v.row in archive.rows
    modifies archive
    ensures var s := old(archive.View());
      && archive.View() == ReseedRows(config, s, visits, mode, protected)
      && remapped == CountResults(config, s, visits, mode, protected, RowRemapped)
      && skipped == CountResults(config, s, visits, mode, protected, RowSkipped)
      && failed == CountResults(config, s, visits, mode, protected, RowFailed)
    ensures archive.View().Valid() && archive.rows.Keys == old(archive.rows.Keys)
  {
    hide ReseedRow, Store.Valid;
    ghost var s := archive.View();
    remapped, skipped, failed := 0, 0, 0;
    for i := 0 to |visits|
      invariant archive.View().Valid() && archive.rows.Keys == s.rows.Keys
      invariant archive.View() == ReseedRows(config, s, visits[..i], mode, protected)
      invariant remapped == CountResults(config, s, visits[..i], mode, protected, RowRemapped)
      invariant skipped == CountResults(config, s, visits[..i], mode, protected, RowSkipped)
      invariant failed == CountResults(config, s, visits[..i], mode, protected, RowFailed)
    {
      assert visits[..i + 1][..i] == visits[..i];
      ReseedRowKeeps(config, archive.View(), visits[i], mode, protected);
      var r := ReseedOne(archive, config, visits[i], mode, protected);
      match r {
        case RowSkipped => skipped := skipped + 1;
        case RowRemapped => remapped := remapped + 1;
        case RowFailed => failed := failed + 1;
      }
    }
    assert visits[..|visits|] == visits;
  }

  /** `reseed_assets`: the junk sweep unless it is kept, then the loop. */
  method ReseedAssets(
    archive: Archive, config: Config, visits: seq<Visit>, mode: Mode, protected: set<AssetId>, keepUnsynced: bool)
    returns (remapped: nat, skipped: nat, failed: nat)
    requires archive.View().Valid() && forall v | v in visits :: v.row in archive.rows
    modifies archive
    ensures var s := if keepUnsynced then old(archive.View()) else DropJunk(old(archive.View()), protected);
      && archive.View() == ReseedRows(config, s, visits, mode, protected)
      && (mode == Recreate ==> Conserves(s, archive.View(), protected))
      && remapped == CountResults(config, s, visits, mode, protected, RowRemapped)
      && skipped == |LockedVisits(s, visits)|
    ensures remapped + skipped + failed == |visits|
    ensures archive.View().Valid() && archive.rows.Keys == old(archive.rows.Keys)
  {
    hide ReseedRows, Conserves, CountResults, LockedVisits;
    if !keepUnsynced {
      JunkAllOrNothing(archive.View(), protected);
      archive.assets := DropJunk(archive.View(), protected).assets;
    }
    if mode == Recreate {
      RecreateConserves(config, archive.View(), visits, protected);
    }
    CountsExact(config, archive.View(), visits, mode, protected);
    remapped, skipped, failed := ReseedLoop(archive, config, visits, mode, protected);
  }
}
