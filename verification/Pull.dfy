/** The live-feed pull loop: fetch, store each record in its own transaction, acknowledge after the commit. */
module Pull {
  import opened Strings
  import opened FeedMapping
  import opened Numbering
  import opened SyncStore
  import opened Reseed

  /** `str(rec.get("image_id") or "")` */
  function ImageId(rec: Record): string {
    var v := rec.Get("image_id");
    if v.Truthy() then v.Text() else ""
  }

  lemma ImageIdParses(config: Config, rec: Record)
    requires ExternalId(config, rec).Some?
    ensures config.uuid(ImageId(rec)) == ExternalId(config, rec)
  {}

  function Without(pending: map<nat, Record>, imageId: string): map<nat, Record> {
    map k | k in pending && ImageId(pending[k]) != imageId :: pending[k]
  }

  function IdsOf(pending: map<nat, Record>): set<string> {
    set k | k in pending :: ImageId(pending[k])
  }

  ghost predicate FromPending(batch: seq<Record>, pending: map<nat, Record>) {
    forall rec | rec in batch :: exists k | k in pending :: pending[k] == rec
  }

  /** The record is committed: its row exists and shows this very payload. */
  ghost predicate Durable(config: Config, s: Store, rec: Record) {
    match ExternalId(config, rec)
    case Some(x) => x in s.rows && s.rows[x].payload == rec
    case None => false
  }

  /** Every id the server holds as acknowledged has its committed row. */
  ghost predicate Safe(config: Config, s: Store, acked: map<string, Uuid>) {
    forall id | id in acked :: config.uuid(id) == Some(acked[id]) && acked[id] in s.rows
  }

  /**
   * The remote server, which tracks acknowledgements. The ghost fields record its side of a run: fetches
   * served, the last reply, and the acknowledgements that came through or failed for the caller; and the
   * image ids it ever had to offer.
   */
  class Feed {
    var pending: map<nat, Record>
    var acked: map<string, Uuid>
    ghost var fetches: nat
    ghost var reply: Result<seq<Record>>
    ghost var confirmed: nat
    ghost var failedAcks: nat
    ghost var offered: set<string>

    constructor ()
      ensures pending == map[] && acked == map[] && offered == {}
    {
      pending, acked := map[], map[];
      fetches, reply, confirmed, failedAcks, offered := 0, Raised, 0, 0, {};
    }

    /** Every image id the server has offered so far. */
    function Known(): set<string>
      reads this`pending, this`acked
    {
      IdsOf(pending) + acked.Keys
    }

    /** Some pending records in any order and multiplicity, none only when none is pending; or an error. */
    method FetchBatch() returns (r: Result<seq<Record>>)
      modifies this`fetches, this`reply, this`confirmed
      ensures r.Ok? ==> FromPending(r.value, pending) && (r.value == [] ==> pending == map[])
      ensures fetches == old(fetches) + 1 && reply == r && confirmed == 0
    {
      var batch: seq<Record> := *;
      var answered: bool := *;
      r := Raised;
      if answered && (forall i | 0 <= i < |batch| :: batch[i] in pending.Values) && (batch == [] ==> pending == map[]) {
        r := Ok(batch);
      }
      fetches, reply, confirmed := fetches + 1, r, 0;
    }

    /**
     * One acknowledgement. The caller must have stored the record durably. The request can be lost
     * (nothing happens) and so can the response (the server has noted it, the caller sees an error).
     */
    method Ack(imageId: string, response: Uuid, ghost config: Config, ghost archive: Archive, ghost rec: Record)
      returns (ok: bool)
      requires imageId == ImageId(rec) && Durable(config, archive.View(), rec) &&
        ExternalId(config, rec) == Some(response)
      modifies this`pending, this`acked, this`confirmed, this`failedAcks
      ensures (acked == old(acked)[imageId := response] && pending == Without(old(pending), imageId))
        || (!ok && acked == old(acked) && pending == old(pending))
      ensures confirmed == old(confirmed) + (if ok then 1 else 0)
      ensures failedAcks == old(failedAcks) + (if ok then 0 else 1)
    {
      ok := false;
      var requestLost: bool := *;
      if !requestLost {
        acked := acked[imageId := response];
        pending := Without(pending, imageId);
        ok := *;
      }
      if ok {
        confirmed := confirmed + 1;
      } else {
        failedAcks := failedAcks + 1;
      }
    }

    /** A new or edited record becomes pending. */
    method Offer(key: nat, rec: Record)
      requires key !in pending
      modifies this`pending, this`offered
      ensures pending == old(pending)[key := rec] && offered == old(offered) + {ImageId(rec)}
    {
      pending := pending[key := rec];
      offered := offered + {ImageId(rec)};
    }
  }

  lemma WithoutIds(pending: map<nat, Record>, acked: map<string, Uuid>, id: string, response: Uuid)
    requires id in IdsOf(pending) + acked.Keys
    ensures IdsOf(Without(pending, id)) + acked[id := response].Keys == IdsOf(pending) + acked.Keys
  {
    hide ImageId;
    var p := Without(pending, id);
    forall i
      ensures i in IdsOf(p) <==> i in IdsOf(pending) && i != id
    {
      if i in IdsOf(pending) && i != id {
        var k :| k in pending && ImageId(pending[k]) == i;
        assert k in p;
      }
    }
  }

  lemma Shrinks(small: map<nat, Record>, big: map<nat, Record>, k: nat)
    requires small.Keys <= big.Keys && k in big && k !in small
    ensures |small| < |big|
  {
    assert |small| == |small.Keys| && |big| == |big.Keys|;
    SubsetSize(small.Keys, big.Keys - {k});
  }

  lemma NotLarger(small: map<nat, Record>, big: map<nat, Record>)
    requires small.Keys <= big.Keys
    ensures |small| <= |big|
  {
    assert |small| == |small.Keys| && |big| == |big.Keys|;
    SubsetSize(small.Keys, big.Keys);
  }

  /** A committed delivery is durable, keeps every row, and so keeps every acknowledgement safe. */
  lemma DeliveryDurable(config: Config, s: Store, d: Delivery, acked: map<string, Uuid>)
    requires s.Valid() && Safe(config, s, acked)
    ensures var t := Deliver(config, s, d);
      t.Valid() && Safe(config, t, acked) && (OutcomeOf(config, s, d).Ok? ==> Durable(config, t, d.rec))
  {
    DeliverValid(config, s, d);
    DeliverCounts(config, s, d);
    hide MapRecord, ChecksumOf, Refno, NewAsset, Remapped, ExternalId;
  }

  /** The counters agree with the deliveries made. */
  ghost predicate Accounts(run: SyncRun, c: Counts)
    reads run`created, run`updated, run`skipped, run`conflicts
  {
    run.created == c.created && run.updated == c.updated && run.skipped == c.skipped && run.conflicts == c.conflicts
  }

  lemma TallySnoc(config: Config, s: Store, ds: seq<Delivery>, d: Delivery)
    ensures SyncAll(config, s, ds + [d]) == Deliver(config, SyncAll(config, s, ds), d)
    ensures Tally(config, s, ds + [d]) == Tally(config, s, ds).Add(OutcomeOf(config, SyncAll(config, s, ds), d))
  {
    assert (ds + [d])[..|ds|] == ds;
  }

  ghost predicate Within(small: map<nat, Record>, big: map<nat, Record>) {
    forall k | k in small :: k in big && small[k] == big[k]
  }

  // ----- what became of each record -----

  /** Delivery i committed, and was of a pending record with the image id of record k. */
  ghost predicate ServedAt(config: Config, start: Store, ds: seq<Delivery>, i: nat, offered: map<nat, Record>, k: nat)
    requires i < |ds| && k in offered
  {
    && (exists j | j in offered :: offered[j] == ds[i].rec)
    && ImageId(ds[i].rec) == ImageId(offered[k])
    && OutcomeOf(config, SyncAll(config, start, ds[..i]), ds[i]).Ok?
  }

  ghost predicate Served(config: Config, start: Store, ds: seq<Delivery>, offered: map<nat, Record>, k: nat)
    requires k in offered
  {
    exists i | 0 <= i < |ds| :: ServedAt(config, start, ds, i, offered, k)
  }

  /** Every record that left the pending ones was acknowledged for a committed record with its image id. */
  ghost predicate Accounted(
    config: Config, start: Store, ds: seq<Delivery>, offered: map<nat, Record>, pending: map<nat, Record>)
  {
    forall k | k in offered && k !in pending :: Served(config, start, ds, offered, k)
  }

  /** A delivery of this very record committed. */
  ghost predicate CommittedIn(config: Config, start: Store, ds: seq<Delivery>, rec: Record) {
    exists i | 0 <= i < |ds| :: ds[i].rec == rec && OutcomeOf(config, SyncAll(config, start, ds[..i]), ds[i]).Ok?
  }

  /** No two different pending records share an image id. */
  ghost predicate Unambiguous(pending: map<nat, Record>) {
    forall j, k | j in pending && k in pending && ImageId(pending[j]) == ImageId(pending[k]) :: pending[j] == pending[k]
  }

  /** Every record of `offered` is still pending or was stored. */
  ghost predicate NoneLost(
    config: Config, start: Store, ds: seq<Delivery>, offered: map<nat, Record>, pending: map<nat, Record>)
  {
    forall k | k in offered :: (k in pending && pending[k] == offered[k]) || CommittedIn(config, start, ds, offered[k])
  }

  /**
   * An acknowledgement drops just the acknowledged record, for every pending record, exactly when none
   * is ambiguous.
   */
  lemma AckDropsOne(pending: map<nat, Record>)
    ensures Unambiguous(pending) <==>
      forall j, k | j in pending && k in pending && k !in Without(pending, ImageId(pending[j])) ::
        pending[k] == pending[j]
  {
    hide ImageId;
    if !Unambiguous(pending) {
      var j, k :| j in pending && k in pending && ImageId(pending[j]) == ImageId(pending[k]) &&
        pending[j] != pending[k];
      assert k !in Without(pending, ImageId(pending[j]));
    }
  }

  /** An original and its edit pending side by side: acknowledging the original loses the edit, which was never sent. */
  lemma EditLost(config: Config, start: Store)
    ensures var pending := map[1 := NO_REFNO, 2 := EDITED];
      && FromPending([NO_REFNO], pending)
      && Without(pending, ImageId(NO_REFNO)) == map[]
      && !CommittedIn(config, start, [Delivery(NO_REFNO, true)], EDITED)
  {
    var pending := map[1 := NO_REFNO, 2 := EDITED];
    assert pending[1] == NO_REFNO;
    assert "image_caption" !in NO_REFNO.fields && "image_caption" in EDITED.fields;
  }

  lemma ServedLonger(config: Config, start: Store, ds: seq<Delivery>, d: Delivery, offered: map<nat, Record>, k: nat)
    requires k in offered && Served(config, start, ds, offered, k)
    ensures Served(config, start, ds + [d], offered, k)
  {
    hide ImageId, OutcomeOf, SyncAll;
    var i :| 0 <= i < |ds| && ServedAt(config, start, ds, i, offered, k);
    assert (ds + [d])[..i] == ds[..i] && (ds + [d])[i] == ds[i];
    assert ServedAt(config, start, ds + [d], i, offered, k);
  }

  lemma ServedNow(config: Config, start: Store, ds: seq<Delivery>, d: Delivery, offered: map<nat, Record>, k: nat)
    requires k in offered && ImageId(offered[k]) == ImageId(d.rec) && exists j | j in offered :: offered[j] == d.rec
    requires OutcomeOf(config, SyncAll(config, start, ds), d).Ok?
    ensures Served(config, start, ds + [d], offered, k)
  {
    hide ImageId, OutcomeOf, SyncAll;
    assert (ds + [d])[..|ds|] == ds && (ds + [d])[|ds|] == d;
    assert ServedAt(config, start, ds + [d], |ds|, offered, k);
  }

  /** One more delivery and at most its acknowledgement keep the account. */
  lemma AccountedStep(
    config: Config, start: Store, ds: seq<Delivery>, d: Delivery,
    offered: map<nat, Record>, pending: map<nat, Record>, after: map<nat, Record>)
    requires Accounted(config, start, ds, offered, pending) && Within(pending, offered)
    requires exists j | j in offered :: offered[j] == d.rec
    requires after == pending ||
      (after == Without(pending, ImageId(d.rec)) && OutcomeOf(config, SyncAll(config, start, ds), d).Ok?)
    ensures Accounted(config, start, ds + [d], offered, after)
  {
    hide ImageId, OutcomeOf, SyncAll, Served;
    forall k | k in offered && k !in after
      ensures Served(config, start, ds + [d], offered, k)
    {
      if k in pending {
        ServedNow(config, start, ds, d, offered, k);
      } else {
        ServedLonger(config, start, ds, d, offered, k);
      }
    }
  }

  // ----- the loop -----

  /** Acknowledge one stored record and note a failure. */
  method AckStored(config: Config, archive: Archive, feed: Feed, run: SyncRun, rec: Record) returns (ok: bool)
    requires Durable(config, archive.View(), rec) && Safe(config, archive.View(), feed.acked)
    requires ImageId(rec) in feed.Known()
    modifies feed`pending, feed`acked, feed`confirmed, feed`failedAcks, run`errors
    ensures Safe(config, archive.View(), feed.acked)
    ensures feed.Known() == old(feed.Known())
    ensures feed.pending == old(feed.pending) || feed.pending == Without(old(feed.pending), ImageId(rec))
    ensures ok ==> ImageId(rec) !in IdsOf(feed.pending)
    ensures feed.confirmed == old(feed.confirmed) + if ok then 1 else 0
    ensures feed.failedAcks == old(feed.failedAcks) + if ok then 0 else 1
    ensures |run.errors| == |old(run.errors)| + if ok then 0 else 1
  {
    ImageIdParses(config, rec);
    hide ImageId, ExternalId;
    var imageId, response := ImageId(rec), ExternalId(config, rec).value;
    WithoutIds(feed.pending, feed.acked, imageId, response);
    ok := feed.Ack(imageId, response, config, archive, rec);
    if !ok {
      run.errors := run.errors + [NotAcked(imageId)];
    }
  }

  /**
   * What a run keeps, also the part of one that a crash cut off: `known` are the image ids and `offered`
   * the pending records at its start, `ds` its deliveries so far.
   */
  ghost predicate Progress(
    config: Config, archive: Archive, feed: Feed,
    start: Store, known: set<string>, offered: map<nat, Record>, ds: seq<Delivery>)
    reads archive, feed
  {
    && archive.View().Valid() && Safe(config, archive.View(), feed.acked)
    && feed.Known() == known && Within(feed.pending, offered)
    && Accounted(config, start, ds, offered, feed.pending)
    && archive.View() == SyncAll(config, start, ds)
  }

  /**
   * One record of a batch: transaction, counters, acknowledgement. A crash can follow each of them; without
   * one, a committed record gets exactly one acknowledgement, whatever its outcome, and no other record does.
   */
  method ProcessRecord(
    config: Config, archive: Archive, feed: Feed, run: SyncRun, rec: Record, io: bool, ghost c: Counts)
    returns (acked: bool, crashed: bool)
    requires archive.View().Valid() && Safe(config, archive.View(), feed.acked)
    requires ImageId(rec) in feed.Known() && Accounts(run, c)
    modifies archive, feed`pending, feed`acked, feed`confirmed, feed`failedAcks, run
    ensures archive.View() == Deliver(config, old(archive.View()), Delivery(rec, io))
    ensures archive.View().Valid() && Safe(config, archive.View(), feed.acked)
    ensures feed.Known() == old(feed.Known())
    ensures feed.pending == old(feed.pending) ||
      (feed.pending == Without(old(feed.pending), ImageId(rec)) &&
       OutcomeOf(config, old(archive.View()), Delivery(rec, io)).Ok?)
    ensures acked ==> ImageId(rec) !in IdsOf(feed.pending)
    ensures feed.confirmed == old(feed.confirmed) + if acked then 1 else 0
    ensures run.total == old(run.total) && feed.failedAcks >= old(feed.failedAcks)
    ensures var r := OutcomeOf(config, old(archive.View()), Delivery(rec, io));
      !crashed ==>
        && Accounts(run, c.Add(r))
        && (if acked then 1 else 0) + feed.failedAcks - old(feed.failedAcks) == (if r.Ok? then 1 else 0)
        && |run.errors| == |old(run.errors)| + (if r.Raised? then 1 else 0) + feed.failedAcks - old(feed.failedAcks)
  {
    hide Deliver, OutcomeOf, ImageId, Store.Valid, Safe, ExternalId, Durable, IdsOf, Without;
    acked, crashed := false, false;
    DeliveryDurable(config, archive.View(), Delivery(rec, io), feed.acked);
    var r := archive.SyncAtomic(config, rec, io);
    if r.Raised? {
      run.errors := run.errors + [NotStored(rec.Get("image_id"))];
      return;
    }
    crashed := *;
    if crashed {
      return;
    }
    run.Count(r.value);
    acked := AckStored(config, archive, feed, run, rec);
    crashed := *;
  }

  lemma WithinSelf(p: map<nat, Record>)
    ensures Within(p, p)
  {}

  /** The deliveries that committed. */
  ghost function Committed(config: Config, start: Store, ds: seq<Delivery>): int {
    |ds| - Tally(config, start, ds).failed
  }

  /** The batch loop. `ds` lists the deliveries of the run so far; `crashed` marks a run cut off here. */
  method StoreAndAck(
    config: Config, archive: Archive, feed: Feed, run: SyncRun, batch: seq<Record>,
    ghost start: Store, ghost known: set<string>, ghost offered: map<nat, Record>, ghost before: seq<Delivery>)
    returns (acked: nat, crashed: bool, ghost ds: seq<Delivery>)
    requires Progress(config, archive, feed, start, known, offered, before)
    requires FromPending(batch, feed.pending) && Accounts(run, Tally(config, start, before))
    modifies archive, feed`pending, feed`acked, feed`confirmed, feed`failedAcks, run
    ensures Progress(config, archive, feed, start, known, offered, ds)
    ensures |feed.pending| + (if acked > 0 then 1 else 0) <= |old(feed.pending)|
    ensures feed.confirmed == old(feed.confirmed) + acked
    ensures run.total == old(run.total) && feed.failedAcks >= old(feed.failedAcks)
    ensures !crashed ==>
      && |ds| == |before| + |batch|
      && Accounts(run, Tally(config, start, ds))
      && acked + feed.failedAcks - old(feed.failedAcks) ==
        Committed(config, start, ds) - Committed(config, start, before)
      && |run.errors| - Tally(config, start, ds).failed - feed.failedAcks ==
        |old(run.errors)| - Tally(config, start, before).failed - old(feed.failedAcks)
  {
    hide Deliver, OutcomeOf, SyncAll, Tally, ImageId, Store.Valid, Safe, ExternalId, Durable, IdsOf, Accounts,
      FromPending, Without, Accounted, Within;
    acked, crashed, ds := 0, false, before;
    ghost var pending := feed.pending;
    WithinSelf(pending);
    for i := 0 to |batch|
      invariant archive.View().Valid() && Safe(config, archive.View(), feed.acked)
      invariant feed.Known() == known && Within(feed.pending, pending) && Within(feed.pending, offered)
      invariant Accounted(config, start, ds, offered, feed.pending)
      invariant archive.View() == SyncAll(config, start, ds)
      invariant |ds| == |before| + i
      invariant |feed.pending| + (if acked > 0 then 1 else 0) <= |pending|
      invariant feed.confirmed == old(feed.confirmed) + acked
      invariant run.total == old(run.total) && Accounts(run, Tally(config, start, ds))
      invariant feed.failedAcks >= old(feed.failedAcks)
      invariant acked + feed.failedAcks - old(feed.failedAcks) ==
        Committed(config, start, ds) - Committed(config, start, before)
      invariant |run.errors| - Tally(config, start, ds).failed - feed.failedAcks ==
        |old(run.errors)| - Tally(config, start, before).failed - old(feed.failedAcks)
    {
      var io: bool := *;
      ghost var d := Delivery(batch[i], io);
      TallySnoc(config, start, ds, d);
      ghost var k := OfferedUnder(batch, i, pending);
      KnownStays(pending, k, old(feed.acked));
      OfferedBefore(pending, offered, k);
      ghost var last, c := feed.pending, Tally(config, start, ds);
      var ok;
      ok, crashed := ProcessRecord(config, archive, feed, run, batch[i], io, c);
      FailedStep(c, OutcomeOf(config, SyncAll(config, start, ds), d));
      AccountedStep(config, start, ds, d, offered, last, feed.pending);
      WithoutWithin(last, ImageId(batch[i]));
      WithinSteps(feed.pending, last, pending);
      WithinSteps(feed.pending, last, offered);
      ds := ds + [d];
      if ok {
        acked := acked + 1;
        GoneFrom(feed.pending, pending, k);
      }
      if crashed {
        return;
      }
    }
  }

  lemma OfferedBefore(pending: map<nat, Record>, offered: map<nat, Record>, k: nat)
    requires Within(pending, offered) && k in pending
    ensures k in offered && offered[k] == pending[k]
  {}

  lemma WithoutWithin(pending: map<nat, Record>, imageId: string)
    ensures Within(Without(pending, imageId), pending) && Within(pending, pending)
  {
    hide ImageId;
  }

  lemma FailedStep(c: Counts, r: Result<Outcome>)
    ensures c.Add(r).failed == c.failed + if r.Raised? then 1 else 0
  {}

  lemma OfferedUnder(batch: seq<Record>, i: nat, offered: map<nat, Record>) returns (k: nat)
    requires FromPending(batch, offered) && i < |batch|
    ensures k in offered && offered[k] == batch[i]
  {
    assert batch[i] in batch;
    k :| k in offered && offered[k] == batch[i];
  }

  lemma KnownStays(offered: map<nat, Record>, k: nat, acked: map<string, Uuid>)
    requires k in offered
    ensures ImageId(offered[k]) in IdsOf(offered) + acked.Keys
  {
    hide ImageId;
  }

  lemma GoneFrom(pending: map<nat, Record>, offered: map<nat, Record>, k: nat)
    requires Within(pending, offered) && k in offered && ImageId(offered[k]) !in IdsOf(pending)
    ensures |pending| < |offered|
  {
    hide ImageId;
    assert k !in pending;
    Shrinks(pending, offered, k);
  }

  /** Every record of the run is counted, and every failure has its error entry. */
  ghost predicate Balanced(
    config: Config, start: Store, run: SyncRun, ds: seq<Delivery>, failedAcks: int, fetchFailed: bool)
    reads run
  {
    && run.total == |ds|
    && Accounts(run, Tally(config, start, ds))
    && |run.errors| == Tally(config, start, ds).failed + failedAcks + if fetchFailed then 1 else 0
  }

  /** Why a run ended: a crash, the cap, a failed fetch, an empty one, or a batch without an acknowledgement. */
  ghost predicate Ended(feed: Feed, crashed: bool, capped: bool)
    reads feed
  {
    crashed || capped || feed.reply.Raised? || feed.reply == Ok([]) || feed.confirmed == 0
  }

  lemma EndedOrCapped(feed: Feed, crashed: bool, capped: bool)
    requires capped || Ended(feed, crashed, false)
    ensures Ended(feed, crashed, capped)
  {}

  /** One turn of the pull loop; `more` tells whether it goes on. */
  method PullBatch(
    config: Config, archive: Archive, feed: Feed, run: SyncRun,
    ghost start: Store, ghost known: set<string>, ghost offered: map<nat, Record>,
    ghost before: seq<Delivery>, ghost acksBefore: nat)
    returns (more: bool, crashed: bool, ghost ds: seq<Delivery>)
    requires Progress(config, archive, feed, start, known, offered, before)
    requires Balanced(config, start, run, before, feed.failedAcks - acksBefore, false)
    modifies archive, feed`pending, feed`acked, feed`fetches, feed`reply, feed`confirmed, feed`failedAcks, run
    ensures Progress(config, archive, feed, start, known, offered, ds)
    ensures feed.fetches == old(feed.fetches) + 1
    ensures !crashed ==> Balanced(config, start, run, ds, feed.failedAcks - acksBefore, feed.reply.Raised?)
    ensures |feed.pending| + (if more then 1 else 0) <= |old(feed.pending)|
    ensures more ==> feed.reply.Ok? && !crashed
    ensures more || Ended(feed, crashed, false)
    ensures !crashed && feed.reply.Ok? ==>
      feed.confirmed + |run.errors| - |old(run.errors)| == |feed.reply.value|
    ensures crashed || more || feed.reply == Ok([]) || run.errors != []
    ensures feed.reply == Ok([]) ==> feed.pending == map[] && !crashed
  {
    hide SyncAll, Tally, Store.Valid, Safe, Accounts, IdsOf, Within, Accounted, FromPending, Feed.Known, Archive.View;
    more, crashed, ds := false, false, before;
    var fetched := feed.FetchBatch();
    if fetched.Raised? {
      run.errors := run.errors + [FetchFailed];
      return;
    }
    if fetched.value == [] {
      return;
    }
    run.total := run.total + |fetched.value|;
    var acked;
    acked, crashed, ds := StoreAndAck(config, archive, feed, run, fetched.value, start, known, offered, before);
    more := !crashed && acked > 0;
  }

  /** The loop of `pull_urithi_batches`. */
  method PullLoop(
    config: Config, archive: Archive, feed: Feed, run: SyncRun, maxBatches: Option<nat>,
    ghost start: Store, ghost known: set<string>, ghost offered: map<nat, Record>)
    returns (crashed: bool, ghost ds: seq<Delivery>)
    requires Progress(config, archive, feed, start, known, offered, []) && Balanced(config, start, run, [], 0, false)
    modifies archive, feed`pending, feed`acked, feed`fetches, feed`reply, feed`confirmed, feed`failedAcks, run
    ensures Progress(config, archive, feed, start, known, offered, ds)
    ensures old(feed.fetches) <= feed.fetches <= old(feed.fetches) + |old(feed.pending)| + 1
    ensures maxBatches.Some? ==> feed.fetches <= old(feed.fetches) + maxBatches.value
    ensures !crashed ==>
      Balanced(config, start, run, ds, feed.failedAcks - old(feed.failedAcks),
        feed.fetches > old(feed.fetches) && feed.reply.Raised?)
    ensures Ended(feed, crashed, maxBatches.Some? && feed.fetches == old(feed.fetches) + maxBatches.value)
    ensures feed.fetches > old(feed.fetches) && feed.reply == Ok([]) ==> feed.pending == map[]
    ensures !crashed && run.errors == [] && maxBatches != Some(feed.fetches - old(feed.fetches)) ==>
      feed.fetches > old(feed.fetches) && feed.reply == Ok([])
  {
    hide Progress, Balanced, Ended;
    ghost var fetchesBefore, acksBefore := feed.fetches, feed.failedAcks;
    crashed, ds := false, [];
    var batches, more := 0, true;
    while more && (maxBatches == None || batches < maxBatches.value)
      invariant Progress(config, archive, feed, start, known, offered, ds)
      invariant feed.fetches == fetchesBefore + batches
      invariant batches + |feed.pending| <= |old(feed.pending)| + if more then 0 else 1
      invariant maxBatches.Some? ==> batches <= maxBatches.value
      invariant more ==> !crashed && (batches > 0 ==> feed.reply.Ok?)
      invariant more || Ended(feed, crashed, false)
      invariant crashed || more || (batches > 0 && feed.reply == Ok([])) || run.errors != []
      invariant !crashed ==>
        Balanced(config, start, run, ds, feed.failedAcks - acksBefore, batches > 0 && feed.reply.Raised?)
      invariant batches > 0 && feed.reply == Ok([]) ==> feed.pending == map[]
      decreases |feed.pending|, more
    {
      more, crashed, ds := PullBatch(config, archive, feed, run, start, known, offered, ds, acksBefore);
      batches := batches + 1;
    }
    EndedOrCapped(feed, crashed, maxBatches == Some(batches));
  }

  /** The counters of a finished run account for every delivery, every new row and every error. */
  ghost predicate Totals(
    config: Config, archive: Archive, run: SyncRun, start: Store, ds: seq<Delivery>, failedAcks: int, fetchFailed: bool)
    reads archive, run
  {
    var c := Tally(config, start, ds);
    && run.total == |ds| == run.Stored() + c.failed
    && run.created == |archive.rows| - |start.rows|
    && |run.errors| == c.failed + failedAcks + if fetchFailed then 1 else 0
  }

  /** Everything the server has offered is acknowledged and has its row. */
  ghost predicate AllStored(archive: Archive, feed: Feed)
    reads archive, feed
  {
    forall id | id in feed.Known() :: id in feed.acked && feed.acked[id] in archive.rows
  }

  lemma AccountedNoneLost(
    config: Config, archive: Archive, feed: Feed,
    start: Store, known: set<string>, offered: map<nat, Record>, ds: seq<Delivery>)
    requires Progress(config, archive, feed, start, known, offered, ds) && Unambiguous(offered)
    ensures NoneLost(config, start, ds, offered, feed.pending)
  {
    hide ImageId, OutcomeOf, SyncAll, Store.Valid, Safe, IdsOf;
    forall k | k in offered && k !in feed.pending
      ensures CommittedIn(config, start, ds, offered[k])
    {
      assert Served(config, start, ds, offered, k);
      var i :| 0 <= i < |ds| && ServedAt(config, start, ds, i, offered, k);
    }
  }

  lemma RunTotals(
    config: Config, archive: Archive, feed: Feed, run: SyncRun,
    start: Store, known: set<string>, offered: map<nat, Record>, ds: seq<Delivery>, failedAcks: int, fetchFailed: bool)
    requires start.Valid() && Progress(config, archive, feed, start, known, offered, ds)
    requires Balanced(config, start, run, ds, failedAcks, fetchFailed)
    ensures Totals(config, archive, run, start, ds, failedAcks, fetchFailed)
  {
    hide Tally, SyncAll, Store.Valid, Safe, Accounted, Within, Feed.Known;
    TallyComplete(config, start, ds);
    ExactlyOnce(config, start, ds);
  }

  lemma NothingPending(
    config: Config, archive: Archive, feed: Feed,
    start: Store, known: set<string>, offered: map<nat, Record>, ds: seq<Delivery>)
    requires Progress(config, archive, feed, start, known, offered, ds) && feed.pending == map[]
    ensures AllStored(archive, feed)
  {
    hide SyncAll, Store.Valid, Accounted;
  }

  /** What the kept facts say about the outcome of a run. */
  lemma RunResults(
    config: Config, archive: Archive, feed: Feed, run: SyncRun,
    start: Store, known: set<string>, offered: map<nat, Record>, ds: seq<Delivery>,
    crashed: bool, failedAcks: int, fetchFailed: bool)
    requires start.Valid() && Progress(config, archive, feed, start, known, offered, ds)
    requires crashed || Balanced(config, start, run, ds, failedAcks, fetchFailed)
    ensures crashed || Totals(config, archive, run, start, ds, failedAcks, fetchFailed)
    ensures Unambiguous(offered) ==> NoneLost(config, start, ds, offered, feed.pending)
    ensures feed.pending == map[] ==> AllStored(archive, feed)
  {
    hide *;
    if !crashed {
      RunTotals(config, archive, feed, run, start, known, offered, ds, failedAcks, fetchFailed);
    }
    if Unambiguous(offered) {
      AccountedNoneLost(config, archive, feed, start, known, offered, ds);
    }
    if feed.pending == map[] {
      NothingPending(config, archive, feed, start, known, offered, ds);
    }
  }

  /**
   * `pull_urithi_batches`. However it ends, no known id is lost, every acknowledged id has its row, the
   * tables are those of a run of deliveries, and - unless two pending records shared an image id - every
   * record is still pending or was stored. Without a crash the counters account for every record and
   * every error. At most one fetch more than there were pending records is made; a run that is not cut
   * off by a crash or the cap ends with a failed fetch, an empty one, or a batch of which nothing could
   * be acknowledged; and after an empty fetch everything known is stored. A run without crash, cap and
   * errors drains the feed.
   */
  method PullBatches(config: Config, archive: Archive, feed: Feed, maxBatches: Option<nat>)
    returns (run: SyncRun, crashed: bool, ghost ds: seq<Delivery>)
    requires archive.View().Valid() && Safe(config, archive.View(), feed.acked)
    modifies archive, feed`pending, feed`acked, feed`fetches, feed`reply, feed`confirmed, feed`failedAcks
    ensures fresh(run)
    ensures Progress(config, archive, feed, old(archive.View()), old(feed.Known()), old(feed.pending), ds)
    ensures Unambiguous(old(feed.pending)) ==>
      NoneLost(config, old(archive.View()), ds, old(feed.pending), feed.pending)
    ensures old(feed.fetches) <= feed.fetches <= old(feed.fetches) + |old(feed.pending)| + 1
    ensures maxBatches.Some? ==> feed.fetches <= old(feed.fetches) + maxBatches.value
    ensures !crashed ==>
      Totals(config, archive, run, old(archive.View()), ds, feed.failedAcks - old(feed.failedAcks),
        feed.fetches > old(feed.fetches) && feed.reply.Raised?)
    ensures Ended(feed, crashed, maxBatches.Some? && feed.fetches == old(feed.fetches) + maxBatches.value)
    ensures feed.fetches > old(feed.fetches) && feed.reply == Ok([]) ==> AllStored(archive, feed)
    ensures !crashed && run.errors == [] && maxBatches != Some(feed.fetches - old(feed.fetches)) ==>
      feed.pending == map[] && AllStored(archive, feed)
  {
    hide *;
    ghost var start, known, offered := archive.View(), feed.Known(), feed.pending;
    run := new SyncRun(0);
    EmptyRun(config, start, run);
    StartOfRun(config, archive, feed);
    crashed, ds := PullLoop(config, archive, feed, run, maxBatches, start, known, offered);
    RunResults(config, archive, feed, run, start, known, offered, ds, crashed, feed.failedAcks - old(feed.failedAcks),
      feed.fetches > old(feed.fetches) && feed.reply.Raised?);
  }

  lemma EmptyRun(config: Config, s: Store, run: SyncRun)
    requires run.total == run.created == run.updated == run.skipped == run.conflicts == 0 && run.errors == []
    ensures Balanced(config, s, run, [], 0, false)
  {}

  lemma WithinSteps(a: map<nat, Record>, b: map<nat, Record>, c: map<nat, Record>)
    requires Within(a, b) && Within(b, c)
    ensures Within(a, c) && |a| <= |b|
  {
    NotLarger(a, b);
  }

  lemma StartOfRun(config: Config, archive: Archive, feed: Feed)
    requires archive.View().Valid() && Safe(config, archive.View(), feed.acked)
    ensures Progress(config, archive, feed, archive.View(), feed.Known(), feed.pending, [])
  {
    hide Store.Valid, Safe, IdsOf, Archive.View;
  }

  // ----- operation over time -----

  /**
   * Any sequence of pulls - capped, failing or crashing - with records arriving, imports from files,
   * reseeds and lock changes in between, keeps every acknowledged id stored, and leaves every image id
   * that ever was on offer pending, or acknowledged with its row.
   */
  method Operate(config: Config, archive: Archive, feed: Feed, steps: nat)
    requires archive.View() == EMPTY && feed.acked == map[] && feed.pending == map[] && feed.offered == {}
    modifies archive, feed
    ensures archive.View().Valid() && Safe(config, archive.View(), feed.acked)
    ensures forall id | id in feed.offered ::
      id in IdsOf(feed.pending) || (id in feed.acked && feed.acked[id] in archive.rows)
  {
    hide Store.Valid, SyncAll, Run, Apply;
    ValidAtStart();
    for i := 0 to steps
      invariant archive.View().Valid() && Safe(config, archive.View(), feed.acked)
      invariant feed.offered <= feed.Known()
    {
      if {
        case true =>
          var cap: Option<nat> := *;
          var _, _, _ := PullBatches(config, archive, feed, cap);
        case true =>
          var key: nat, rec: Record := *, *;
          if key !in feed.pending {
            OfferKnown(feed.pending, feed.acked, key, rec);
            feed.Offer(key, rec);
          }
        case true =>
          var ds: seq<Delivery> := *;
          SyncAllValid(config, archive.View(), ds);
          RowsKept(config, archive.View(), ds);
          var _ := archive.SyncImages(config, ds);
        case true =>
          var x: Uuid, mode: Mode, io: bool, protected: set<AssetId> := *, *, *, *;
          if x in archive.rows {
            ReseedRowKeeps(config, archive.View(), Visit(x, io), mode, protected);
            var _ := ReseedOne(archive, config, Visit(x, io), mode, protected);
          }
        case true =>
          var x: Uuid, locked: bool := *, *;
          if x in archive.rows {
            SetLockValid(archive.View(), x, locked);
            archive.rows := archive.rows[x := archive.rows[x].(locked := locked)];
          }
      }
    }
  }

  lemma OfferKnown(pending: map<nat, Record>, acked: map<string, Uuid>, key: nat, rec: Record)
    requires key !in pending
    ensures IdsOf(pending[key := rec]) + acked.Keys == IdsOf(pending) + acked.Keys + {ImageId(rec)}
  {
    hide ImageId;
    var p := pending[key := rec];
    assert p[key] == rec;
    forall id | id in IdsOf(pending)
      ensures id in IdsOf(p)
    {
      var k :| k in pending && ImageId(pending[k]) == id;
      assert p[k] == pending[k];
    }
  }

  lemma ValidAtStart()
    ensures EMPTY.Valid()
  {}

  lemma SetLockValid(s: Store, x: Uuid, locked: bool)
    requires s.Valid() && x in s.rows
    ensures s.(rows := s.rows[x := s.rows[x].(locked := locked)]).Valid()
  {}
}
