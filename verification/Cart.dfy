/** Shopping carts as physical rows with a unique slot, soft and hard deletion, and checkout. */
module Cart {
  import opened Sequences
  import opened Strings

  type UserId = nat
  type AssetId = nat
  type LicenseId = nat

  /** One physical row; `deleted` stands for a set `deleted_at`. */
  datatype CartRow = CartRow(user: UserId, asset: AssetId, license: LicenseId, deleted: bool)

  type Pair = (AssetId, LicenseId)

  datatype Carts = Carts(rows: map<nat, CartRow>, nextRow: nat) {
    /** Some physical row, live or soft-deleted, holds the unique slot. */
    ghost predicate Taken(user: UserId, pair: Pair) {
      exists r | r in rows :: rows[r].user == user && (rows[r].asset, rows[r].license) == pair
    }

    /** The slot as the default manager sees it: live rows only. */
    ghost predicate InCart(user: UserId, pair: Pair) {
      exists r | r in rows ::
        rows[r].user == user && !rows[r].deleted && (rows[r].asset, rows[r].license) == pair
    }

    /** The database's unique constraint. */
    ghost predicate Valid() {
      && (forall r | r in rows :: r < nextRow)
      && (forall q, r | q in rows && r in rows && q != r ::
            !(rows[q].user == rows[r].user && rows[q].asset == rows[r].asset && rows[q].license == rows[r].license))
    }

    predicate Holds(user: UserId, pair: Pair, liveOnly: bool) {
      exists r | r in rows ::
        rows[r].user == user && (liveOnly ==> !rows[r].deleted) && rows[r].asset == pair.0 && rows[r].license == pair.1
    }
  }

  const NO_CARTS := Carts(map[], 0)

  /** Prices of all assets, the assets a buyer can see, and the licenses. */
  datatype Catalogue = Catalogue(prices: map<AssetId, Option<int>>, live: set<AssetId>, licenses: set<LicenseId>) {
    function PriceOf(a: AssetId): Option<int> {
      if a in prices then prices[a] else None
    }

    predicate Accepts(pair: Pair) {
      pair.0 in live && PriceOf(pair.0).Some? && pair.1 in licenses
    }
  }

  datatype Reply = Done | Invalid | NotFound | Duplicate | IntegrityError

  function Insert(c: Carts, user: UserId, pair: Pair): Option<Carts> {
    if c.Holds(user, pair, false) then None
    else Some(Carts(c.rows[c.nextRow := CartRow(user, pair.0, pair.1, false)], c.nextRow + 1))
  }

  function Add(c: Carts, catalogue: Catalogue, user: UserId, pair: Pair): (Carts, Reply) {
    if !catalogue.Accepts(pair) then (c, Invalid)
    else if c.Holds(user, pair, true) then (c, Duplicate)
    else match Insert(c, user, pair)
      case Some(t) => (t, Done)
      case None => (c, IntegrityError)
  }

  /** Removing an item deletes its row for good. */
  function Remove(c: Carts, user: UserId, r: nat): (Carts, Reply) {
    if r in c.rows && c.rows[r].user == user && !c.rows[r].deleted then (c.(rows := c.rows - {r}), Done)
    else (c, NotFound)
  }

  function LiveIds(c: Carts, user: UserId): set<nat> {
    set r | r in c.rows && c.rows[r].user == user && !c.rows[r].deleted
  }

  /** `cart.items.all().hard_delete()` reaches the rows the default manager shows. */
  function Clear(c: Carts, user: UserId): Carts {
    c.(rows := c.rows - LiveIds(c, user))
  }

  /** `cart.items.all().delete()` is a soft delete. */
  function SoftDelete(c: Carts, user: UserId): Carts {
    c.(rows := map r | r in c.rows ::
         if c.rows[r].user == user then c.rows[r].(deleted := true) else c.rows[r])
  }

  function InsertAll(c: Carts, user: UserId, items: seq<Pair>): Option<Carts>
    decreases |items|
  {
    if items == [] then Some(c)
    else match Insert(c, user, items[0])
      case Some(t) => InsertAll(t, user, items[1..])
      case None => None
  }

  /** Replace the cart in one transaction. */
  function Sync(c: Carts, catalogue: Catalogue, user: UserId, items: seq<Pair>): (Carts, Reply) {
    if !(forall p | p in items :: catalogue.Accepts(p)) || !NoDuplicates(items) then (c, Invalid)
    else match InsertAll(SoftDelete(c, user), user, items)
      case Some(t) => (t, Done)
      case None => (c, IntegrityError)
  }

  // ----- checkout -----

  datatype OrderItem = OrderItem(asset: AssetId, license: LicenseId, price: int)

  datatype Draft = Draft(user: UserId, items: seq<OrderItem>, subtotal: int, tax: int, total: int)

  datatype CheckoutResult = EmptyCart | Unpriced | Placed(draft: Draft, carts: Carts)

  function LiveBelow(c: Carts, user: UserId, n: nat): seq<nat> {
    if n == 0 then []
    else LiveBelow(c, user, n - 1) + if n - 1 in LiveIds(c, user) then [n - 1] else []
  }

  /** The rows the checkout reads, in order of creation. */
  function LiveRows(c: Carts, user: UserId): seq<nat> {
    LiveBelow(c, user, c.nextRow)
  }

  /** `item.asset.price or 0` */
  function LinePrice(catalogue: Catalogue, row: CartRow): int {
    match catalogue.PriceOf(row.asset)
    case Some(p) => p
    case None => 0
  }

  function Subtotal(catalogue: Catalogue, rows: seq<CartRow>): int {
    if rows == [] then 0 else Subtotal(catalogue, rows[..|rows| - 1]) + LinePrice(catalogue, rows[|rows| - 1])
  }

  /** The frozen items; a missing price violates the column's NOT NULL. */
  function Freeze(catalogue: Catalogue, rows: seq<CartRow>): Option<seq<OrderItem>> {
    if rows == [] then Some([])
    else
      var row := rows[|rows| - 1];
      match (Freeze(catalogue, rows[..|rows| - 1]), catalogue.PriceOf(row.asset))
      case (Some(items), Some(p)) => Some(items + [OrderItem(row.asset, row.license, p)])
      case _ => None
  }

  const TAX := 0

  function RowsOf(c: Carts, ids: seq<nat>): seq<CartRow>
    requires forall r | r in ids :: r in c.rows
  {
    seq(|ids|, i requires 0 <= i < |ids| => c.rows[ids[i]])
  }

  lemma {:induction false} LiveBelowExact(c: Carts, user: UserId, n: nat)
    ensures forall r :: r in LiveBelow(c, user, n) <==> r < n && r in LiveIds(c, user)
    ensures NoDuplicates(LiveBelow(c, user, n))
  {
    if n == 0 {
    } else {
      LiveBelowExact(c, user, n - 1);
    }
  }

  function CartLines(c: Carts, user: UserId): seq<CartRow> {
    LiveBelowExact(c, user, c.nextRow);
    RowsOf(c, LiveRows(c, user))
  }

  function Checkout(c: Carts, catalogue: Catalogue, user: UserId): CheckoutResult {
    var lines := CartLines(c, user);
    if lines == [] then EmptyCart
    else match Freeze(catalogue, lines)
      case None => Unpriced
      case Some(items) =>
        var subtotal := Subtotal(catalogue, lines);
        Placed(Draft(user, items, subtotal, TAX, subtotal + TAX), Clear(c, user))
  }

  function Sum(items: seq<OrderItem>): int {
    if items == [] then 0 else Sum(items[..|items| - 1]) + items[|items| - 1].price
  }

  /** The sum of an order's items: nothing for none, the price for one, and the parts add up. */
  lemma {:induction false} SumLaws(a: seq<OrderItem>, b: seq<OrderItem>, item: OrderItem)
    ensures Sum([]) == 0 && Sum([item]) == item.price && Sum(a + b) == Sum(a) + Sum(b)
  {
    assert [item][..0] == [];
    if b == [] {
      assert a + b == a;
    } else {
      SumLaws(a, b[..|b| - 1], item);
      assert (a + b)[..|a + b| - 1] == a + b[..|b| - 1];
    }
  }

  lemma {:induction false} FreezeExact(catalogue: Catalogue, rows: seq<CartRow>)
    ensures Freeze(catalogue, rows).Some? <==> forall r | r in rows :: catalogue.PriceOf(r.asset).Some?
    ensures var f := Freeze(catalogue, rows);
      f.Some? ==>
        && |f.value| == |rows|
        && (forall i | 0 <= i < |rows| ::
              f.value[i].asset == rows[i].asset && f.value[i].license == rows[i].license &&
              Some(f.value[i].price) == catalogue.PriceOf(rows[i].asset))
        && Sum(f.value) == Subtotal(catalogue, rows)
  {
    if rows == [] {
    } else {
      var front, row := rows[..|rows| - 1], rows[|rows| - 1];
      FreezeExact(catalogue, front);
      assert rows == front + [row];
      if Freeze(catalogue, rows).Some? {
        assert Freeze(catalogue, rows).value[..|front|] == Freeze(catalogue, front).value;
      }
    }
  }

  predicate Lists(items: seq<OrderItem>, pair: Pair) {
    exists i | 0 <= i < |items| :: (items[i].asset, items[i].license) == pair
  }

  lemma CartLinesExact(c: Carts, user: UserId)
    requires c.Valid()
    ensures forall pair ::
      c.InCart(user, pair) <==> exists i | 0 <= i < |CartLines(c, user)| ::
        (CartLines(c, user)[i].asset, CartLines(c, user)[i].license) == pair
    ensures forall i, j | 0 <= i < j < |CartLines(c, user)| ::
      (CartLines(c, user)[i].asset, CartLines(c, user)[i].license) !=
      (CartLines(c, user)[j].asset, CartLines(c, user)[j].license)
  {
    var ids, lines := LiveRows(c, user), CartLines(c, user);
    LiveBelowExact(c, user, c.nextRow);
    forall pair
      ensures c.InCart(user, pair) <==> exists i | 0 <= i < |lines| :: (lines[i].asset, lines[i].license) == pair
    {
      if c.InCart(user, pair) {
        var r :| r in c.rows && c.rows[r].user == user && !c.rows[r].deleted &&
          (c.rows[r].asset, c.rows[r].license) == pair;
        assert r in ids;
        var i :| 0 <= i < |ids| && ids[i] == r;
        assert lines[i] == c.rows[r];
      }
      if i :| 0 <= i < |lines| && (lines[i].asset, lines[i].license) == pair {
        assert ids[i] in ids && lines[i] == c.rows[ids[i]];
      }
    }
    forall i, j | 0 <= i < j < |lines|
      ensures (lines[i].asset, lines[i].license) != (lines[j].asset, lines[j].license)
    {
      assert ids[i] in ids && ids[j] in ids;
    }
  }

  lemma ClearEmpties(c: Carts, user: UserId)
    ensures forall pair :: !Clear(c, user).InCart(user, pair)
    ensures forall r | r in c.rows && (c.rows[r].user != user || c.rows[r].deleted) ::
      r in Clear(c, user).rows && Clear(c, user).rows[r] == c.rows[r]
    ensures Clear(c, user).rows.Keys <= c.rows.Keys
    ensures c.Valid() ==> Clear(c, user).Valid()
  {}

  /**
   * Checkout conserves the cart. It succeeds exactly for a non-empty, fully priced cart; the order
   * then lists each pair of the live cart once, at its current price, the totals are the sum of the
   * frozen prices, the live cart is empty, and every other row is as it was.
   */
  lemma CheckoutConserves(c: Carts, catalogue: Catalogue, user: UserId)
    requires c.Valid()
    ensures var r := Checkout(c, catalogue, user);
      && (r.EmptyCart? <==> forall pair :: !c.InCart(user, pair))
      && (r.Unpriced? <==> exists pair :: c.InCart(user, pair) && catalogue.PriceOf(pair.0) == None)
      && (r.Placed? ==>
        && (forall pair :: Lists(r.draft.items, pair) <==> c.InCart(user, pair))
        && (forall i, j | 0 <= i < j < |r.draft.items| ::
              (r.draft.items[i].asset, r.draft.items[i].license) != (r.draft.items[j].asset, r.draft.items[j].license))
        && (forall i | 0 <= i < |r.draft.items| ::
          Some(r.draft.items[i].price) == catalogue.PriceOf(r.draft.items[i].asset))
        && r.draft.user == user
        && r.draft.tax == 0 && r.draft.subtotal == Sum(r.draft.items) && r.draft.total == Sum(r.draft.items)
        && (forall pair :: !r.carts.InCart(user, pair))
        && r.carts.Valid()
        && (forall q | q in c.rows && (c.rows[q].user != user || c.rows[q].deleted) ::
          q in r.carts.rows && r.carts.rows[q] == c.rows[q]))
  {
    hide CartLines, Freeze, Clear, Carts.InCart, Carts.Valid, Subtotal, Sum, LiveIds;
    var lines := CartLines(c, user);
    CartLinesExact(c, user);
    FreezeExact(catalogue, lines);
    ClearEmpties(c, user);
    CheckoutLines(c, catalogue, user, lines);
  }

  lemma CheckoutLines(c: Carts, catalogue: Catalogue, user: UserId, lines: seq<CartRow>)
    requires forall pair :: c.InCart(user, pair) <==> exists i | 0 <= i < |lines| ::
      (lines[i].asset, lines[i].license) == pair
    ensures lines == [] <==> forall pair :: !c.InCart(user, pair)
    ensures (forall r | r in lines :: catalogue.PriceOf(r.asset).Some?) <==>
      !exists pair :: c.InCart(user, pair) && catalogue.PriceOf(pair.0) == None
  {
    hide Carts.InCart;
    if lines != [] { assert c.InCart(user, (lines[0].asset, lines[0].license)); }
    if r :| r in lines && catalogue.PriceOf(r.asset) == None {
      var i :| 0 <= i < |lines| && lines[i] == r;
      assert c.InCart(user, (lines[i].asset, lines[i].license));
    }
  }

  // ----- cart sync -----

  lemma HoldsTaken(c: Carts, user: UserId, pair: Pair)
    ensures c.Holds(user, pair, false) == c.Taken(user, pair)
    ensures c.Holds(user, pair, true) == c.InCart(user, pair)
  {}

  lemma SoftDeleteSlots(c: Carts, user: UserId)
    ensures forall u, pair :: SoftDelete(c, user).Taken(u, pair) == c.Taken(u, pair)
    ensures forall u, pair :: SoftDelete(c, user).InCart(u, pair) == (u != user && c.InCart(u, pair))
    ensures c.Valid() ==> SoftDelete(c, user).Valid()
  {
    var t := SoftDelete(c, user);
    forall u, pair
      ensures t.Taken(u, pair) == c.Taken(u, pair)
      ensures t.InCart(u, pair) == (u != user && c.InCart(u, pair))
    {
      if c.Taken(u, pair) {
        var r :| r in c.rows && c.rows[r].user == u && (c.rows[r].asset, c.rows[r].license) == pair;
        assert t.rows[r].user == u;
      }
      if c.InCart(u, pair) && u != user {
        var r :| r in c.rows && c.rows[r].user == u && !c.rows[r].deleted &&
          (c.rows[r].asset, c.rows[r].license) == pair;
        assert t.rows[r] == c.rows[r];
      }
    }
  }

  lemma InsertSlots(c: Carts, user: UserId, pair: Pair)
    requires c.Valid()
    ensures Insert(c, user, pair).Some? <==> !c.Taken(user, pair)
    ensures var r := Insert(c, user, pair);
      r.Some? ==>
        && r.value.Valid()
        && (forall u, p :: r.value.Taken(u, p) <==> c.Taken(u, p) || (u == user && p == pair))
        && (forall u, p :: r.value.InCart(u, p) <==> c.InCart(u, p) || (u == user && p == pair))
  {
    HoldsTaken(c, user, pair);
    if Insert(c, user, pair).Some? {
      var t := Insert(c, user, pair).value;
      assert t.rows[c.nextRow] == CartRow(user, pair.0, pair.1, false);
      forall u, p
        ensures t.Taken(u, p) <==> c.Taken(u, p) || (u == user && p == pair)
        ensures t.InCart(u, p) <==> c.InCart(u, p) || (u == user && p == pair)
      {
        assert forall r | r in c.rows :: t.rows[r] == c.rows[r];
      }
    }
  }

  lemma {:induction false} InsertAllSlots(c: Carts, user: UserId, items: seq<Pair>)
    requires c.Valid() && NoDuplicates(items)
    ensures InsertAll(c, user, items).Some? <==> forall p | p in items :: !c.Taken(user, p)
    ensures var r := InsertAll(c, user, items);
      r.Some? ==>
        && r.value.Valid()
        && (forall u, p :: r.value.InCart(u, p) <==> c.InCart(u, p) || (u == user && p in items))
    decreases |items|
  {
    hide Carts.Taken, Carts.InCart, Carts.Valid, Insert;
    if items == [] {
    } else {
      InsertSlots(c, user, items[0]);
      assert items == [items[0]] + items[1..];
      if Insert(c, user, items[0]).Some? {
        InsertAllSlots(Insert(c, user, items[0]).value, user, items[1..]);
        assert forall p | p in items[1..] :: p != items[0];
      }
    }
  }

  /** An add goes through exactly for a valid pair with no physical row, and then only adds that pair. */
  lemma AddExact(c: Carts, catalogue: Catalogue, user: UserId, pair: Pair)
    requires c.Valid()
    ensures var (t, reply) := Add(c, catalogue, user, pair);
      && (reply == Invalid <==> !catalogue.Accepts(pair))
      && (reply == Done <==> catalogue.Accepts(pair) && !c.Taken(user, pair))
      && (reply == Duplicate <==> catalogue.Accepts(pair) && c.InCart(user, pair))
      && (reply == Done ==> forall u, p :: t.InCart(u, p) <==> c.InCart(u, p) || (u == user && p == pair))
      && (reply != Done ==> t == c)
      && t.Valid()
  {
    HoldsTaken(c, user, pair);
    InsertSlots(c, user, pair);
    assert c.InCart(user, pair) ==> c.Taken(user, pair);
    hide Carts.Taken, Carts.InCart, Carts.Valid, Carts.Holds, Insert, Catalogue.Accepts;
  }

  /** A removal works exactly on one's own live rows; it takes that pair out, and frees its slot. */
  lemma RemoveExact(c: Carts, user: UserId, r: nat)
    requires c.Valid()
    ensures var (t, reply) := Remove(c, user, r);
      && (reply == Done <==> r in c.rows && c.rows[r].user == user && !c.rows[r].deleted)
      && (reply == Done ==>
        var pair := (c.rows[r].asset, c.rows[r].license);
        && !t.Taken(user, pair)
        && forall u, p :: t.InCart(u, p) <==> c.InCart(u, p) && !(u == user && p == pair))
      && (reply != Done ==> t == c)
      && t.Valid()
  {
    var t := Remove(c, user, r).0;
    if r in LiveIds(c, user) {
      var pair := (c.rows[r].asset, c.rows[r].license);
      assert forall q | q in c.rows && q != r :: q in t.rows && t.rows[q] == c.rows[q];
      forall u, p
        ensures t.InCart(u, p) <==> c.InCart(u, p) && !(u == user && p == pair)
      {
        if c.InCart(u, p) && !(u == user && p == pair) {
          var q :| q in c.rows && c.rows[q].user == u && !c.rows[q].deleted &&
            (c.rows[q].asset, c.rows[q].license) == p;
          assert t.rows[q] == c.rows[q];
        }
      }
    }
  }

  /** Unlike a pair dropped by a sync, a removed pair can be added again, which restores the live cart. */
  lemma RemoveThenAdd(c: Carts, catalogue: Catalogue, user: UserId, r: nat)
    requires c.Valid() && r in LiveIds(c, user)
    requires catalogue.Accepts((c.rows[r].asset, c.rows[r].license))
    ensures var pair := (c.rows[r].asset, c.rows[r].license);
      var (t, reply) := Add(Remove(c, user, r).0, catalogue, user, pair);
      reply == Done && forall u, p :: t.InCart(u, p) <==> c.InCart(u, p)
  {
    var pair := (c.rows[r].asset, c.rows[r].license);
    assert c.InCart(user, pair);
    RemoveExact(c, user, r);
    hide Remove, Carts.InCart, Carts.Taken, Carts.Valid;
    AddExact(Remove(c, user, r).0, catalogue, user, pair);
    hide Add;
  }

  /**
   * Cart sync replaces the cart exactly for distinct valid pairs of which none has a physical row
   * there, live or soft-deleted; otherwise the unique constraint rolls it back. On success the live
   * cart is the request and no other cart changes.
   */
  lemma SyncReplaces(c: Carts, catalogue: Catalogue, user: UserId, items: seq<Pair>)
    requires c.Valid()
    ensures var (t, reply) := Sync(c, catalogue, user, items);
      && (reply == Invalid <==> !NoDuplicates(items) || exists p | p in items :: !catalogue.Accepts(p))
      && (reply == Done <==>
          NoDuplicates(items) && forall p | p in items :: catalogue.Accepts(p) && !c.Taken(user, p))
      && (reply == Done ==> forall u, p :: t.InCart(u, p) <==> if u == user then p in items else c.InCart(u, p))
      && (reply != Done ==> t == c)
      && t.Valid()
  {
    hide Carts.Taken, Carts.InCart, Carts.Valid, SoftDelete, InsertAll, Catalogue.Accepts, NoDuplicates;
    if NoDuplicates(items) && forall p | p in items :: catalogue.Accepts(p) {
      var soft := SoftDelete(c, user);
      SoftDeleteSlots(c, user);
      InsertAllSlots(soft, user, items);
    }
  }

  /** Keeping an item while syncing is enough to be refused, whatever else is asked for. */
  lemma SyncRefusesKeptItem(c: Carts, catalogue: Catalogue, user: UserId, items: seq<Pair>, pair: Pair)
    requires c.Valid() && c.InCart(user, pair) && pair in items
    ensures Sync(c, catalogue, user, items).0 == c
    ensures Sync(c, catalogue, user, items).1 ==
      if NoDuplicates(items) && forall p | p in items :: catalogue.Accepts(p) then IntegrityError else Invalid
  {
    assert c.Taken(user, pair) by {
      var r :| r in c.rows && c.rows[r].user == user && !c.rows[r].deleted &&
        (c.rows[r].asset, c.rows[r].license) == pair;
    }
    SyncReplaces(c, catalogue, user, items);
    hide Carts.Taken, Carts.InCart, Catalogue.Accepts, NoDuplicates, InsertAll;
  }

  // ----- every run of cart requests -----

  datatype Request =
    | AddRequest(user: UserId, pair: Pair)
    | RemoveRequest(user: UserId, row: nat)
    | ClearRequest(user: UserId)
    | SyncRequest(user: UserId, items: seq<Pair>)
    | CheckoutRequest(user: UserId)

  /** A request under the catalogue of its time. */
  function Serve(c: Carts, catalogue: Catalogue, request: Request): Carts {
    match request
    case AddRequest(user, pair) => Add(c, catalogue, user, pair).0
    case RemoveRequest(user, r) => Remove(c, user, r).0
    case ClearRequest(user) => Clear(c, user)
    case SyncRequest(user, items) => Sync(c, catalogue, user, items).0
    case CheckoutRequest(user) =>
      match Checkout(c, catalogue, user)
      case Placed(_, t) => t
      case _ => c
  }

  function ServeAll(c: Carts, requests: seq<(Catalogue, Request)>): Carts {
    if requests == [] then c
    else
      var (catalogue, request) := requests[|requests| - 1];
      Serve(ServeAll(c, requests[..|requests| - 1]), catalogue, request)
  }

  lemma ServeValid(c: Carts, catalogue: Catalogue, request: Request)
    requires c.Valid()
    ensures Serve(c, catalogue, request).Valid()
  {
    match request
    case AddRequest(user, pair) => AddExact(c, catalogue, user, pair); hide Add;
    case RemoveRequest(user, r) =>
    case ClearRequest(user) => ClearEmpties(c, user);
    case SyncRequest(user, items) => SyncReplaces(c, catalogue, user, items); hide Sync;
    case CheckoutRequest(user) => ClearEmpties(c, user); hide Freeze, CartLines;
  }

  /** Requests that are not syncs leave no soft-deleted row behind. */
  ghost predicate NoneDeleted(c: Carts) {
    forall r | r in c.rows :: !c.rows[r].deleted
  }

  lemma ServeNoneDeleted(c: Carts, catalogue: Catalogue, request: Request)
    requires NoneDeleted(c) && !request.SyncRequest?
    ensures NoneDeleted(Serve(c, catalogue, request))
  {
    hide Freeze, CartLines;
  }

  lemma {:induction false} RunsKeepSlots(requests: seq<(Catalogue, Request)>)
    ensures ServeAll(NO_CARTS, requests).Valid()
    ensures (forall i | 0 <= i < |requests| :: !requests[i].1.SyncRequest?) ==>
      NoneDeleted(ServeAll(NO_CARTS, requests))
  {
    if requests == [] {
    } else {
      hide Serve, Carts.Valid, NoneDeleted;
      var front := requests[..|requests| - 1];
      var (catalogue, request) := requests[|requests| - 1];
      var c := ServeAll(NO_CARTS, front);
      RunsKeepSlots(front);
      ServeValid(c, catalogue, request);
      if forall i | 0 <= i < |requests| :: !requests[i].1.SyncRequest? {
        ServeNoneDeleted(c, catalogue, request);
      }
    }
  }

  /** Without syncs, a valid pair can be added exactly when it is not in the live cart. */
  lemma AddSucceedsUnlessInCart(requests: seq<(Catalogue, Request)>, catalogue: Catalogue, user: UserId, pair: Pair)
    requires forall i | 0 <= i < |requests| :: !requests[i].1.SyncRequest?
    requires catalogue.Accepts(pair)
    ensures var c := ServeAll(NO_CARTS, requests);
      Add(c, catalogue, user, pair).1 == (if c.InCart(user, pair) then Duplicate else Done)
  {
    var c := ServeAll(NO_CARTS, requests);
    RunsKeepSlots(requests);
    HoldsTaken(c, user, pair);
    assert c.Taken(user, pair) == c.InCart(user, pair);
    hide ServeAll;
  }

  /** Every live row is for an asset that the buyers see, with a price, and for a known license. */
  ghost predicate Buyable(c: Carts, catalogue: Catalogue) {
    forall r | r in c.rows && !c.rows[r].deleted ::
      var row := c.rows[r];
      && row.asset in catalogue.live && row.license in catalogue.licenses
      && row.asset in catalogue.prices && catalogue.prices[row.asset].Some?
  }

  lemma InsertBuyable(c: Carts, catalogue: Catalogue, user: UserId, pair: Pair)
    requires Buyable(c, catalogue) && catalogue.Accepts(pair)
    ensures Insert(c, user, pair).Some? ==> Buyable(Insert(c, user, pair).value, catalogue)
  {}

  lemma {:induction false} InsertAllBuyable(c: Carts, catalogue: Catalogue, user: UserId, items: seq<Pair>)
    requires Buyable(c, catalogue) && forall p | p in items :: catalogue.Accepts(p)
    ensures InsertAll(c, user, items).Some? ==> Buyable(InsertAll(c, user, items).value, catalogue)
    decreases |items|
  {
    hide Insert, Buyable, Catalogue.Accepts;
    if items != [] && Insert(c, user, items[0]).Some? {
      InsertBuyable(c, catalogue, user, items[0]);
      InsertAllBuyable(Insert(c, user, items[0]).value, catalogue, user, items[1..]);
    }
  }

  lemma ServeBuyable(c: Carts, catalogue: Catalogue, request: Request)
    requires Buyable(c, catalogue)
    ensures Buyable(Serve(c, catalogue, request), catalogue)
  {
    hide Freeze, CartLines;
    match request
    case AddRequest(user, pair) =>
    case RemoveRequest(_, _) =>
    case ClearRequest(_) =>
    case SyncRequest(user, items) =>
      var soft := SoftDelete(c, user);
      assert Buyable(soft, catalogue);
      hide SoftDelete, InsertAll, Buyable;
      if forall p | p in items :: catalogue.Accepts(p) { InsertAllBuyable(soft, catalogue, user, items); }
    case CheckoutRequest(_) =>
  }

  /**
   * As long as the catalogue stays as it is, nothing gets into a cart that cannot be bought, and no
   * checkout finds a price missing.
   */
  lemma {:induction false} RunsKeepBuyable(requests: seq<(Catalogue, Request)>, catalogue: Catalogue, user: UserId)
    requires forall i | 0 <= i < |requests| :: requests[i].0 == catalogue
    ensures Buyable(ServeAll(NO_CARTS, requests), catalogue)
    ensures !Checkout(ServeAll(NO_CARTS, requests), catalogue, user).Unpriced?
  {
    hide Serve, Checkout, Carts.Valid;
    if requests == [] {
    } else {
      var front := requests[..|requests| - 1];
      RunsKeepBuyable(front, catalogue, user);
      ServeBuyable(ServeAll(NO_CARTS, front), catalogue, requests[|requests| - 1].1);
      hide Buyable;
    }
    RunsKeepSlots(requests);
    NeverUnpriced(ServeAll(NO_CARTS, requests), catalogue, user);
  }

  lemma NeverUnpriced(c: Carts, catalogue: Catalogue, user: UserId)
    requires c.Valid() && Buyable(c, catalogue)
    ensures !Checkout(c, catalogue, user).Unpriced?
  {
    CheckoutConserves(c, catalogue, user);
    hide Checkout;
  }

  /** No request ever frees the slot of a soft-deleted row. */
  lemma DeadRowStays(c: Carts, catalogue: Catalogue, request: Request, r: nat)
    requires c.Valid() && r in c.rows && c.rows[r].deleted
    ensures var t := Serve(c, catalogue, request); r in t.rows && t.rows[r] == c.rows[r]
  {
    hide Freeze, CartLines;
    match request
    case AddRequest(_, _) =>
    case RemoveRequest(_, _) =>
    case ClearRequest(_) =>
    case SyncRequest(user, items) => InsertAllFrame(SoftDelete(c, user), user, items, r);
    case CheckoutRequest(_) =>
  }

  lemma {:induction false} InsertAllFrame(c: Carts, user: UserId, items: seq<Pair>, r: nat)
    requires (forall q | q in c.rows :: q < c.nextRow) && r in c.rows
    ensures InsertAll(c, user, items).Some? ==>
      r in InsertAll(c, user, items).value.rows && InsertAll(c, user, items).value.rows[r] == c.rows[r]
    decreases |items|
  {
    if items != [] && Insert(c, user, items[0]).Some? {
      InsertAllFrame(Insert(c, user, items[0]).value, user, items[1..], r);
    }
  }

  lemma {:induction false} DeadRowStaysForever(c: Carts, requests: seq<(Catalogue, Request)>, r: nat)
    requires c.Valid() && r in c.rows && c.rows[r].deleted
    ensures ServeAll(c, requests).Valid()
    ensures r in ServeAll(c, requests).rows && ServeAll(c, requests).rows[r] == c.rows[r]
  {
    if requests == [] {
    } else {
      hide Serve, Carts.Valid;
      var front := requests[..|requests| - 1];
      var (catalogue, request) := requests[|requests| - 1];
      DeadRowStaysForever(c, front, r);
      ServeValid(ServeAll(c, front), catalogue, request);
      DeadRowStays(ServeAll(c, front), catalogue, request, r);
    }
  }

  lemma DeadSlotEmpty(c: Carts, user: UserId, pair: Pair, r: nat)
    requires c.Valid() && r in c.rows && c.rows[r].deleted
    requires c.rows[r].user == user && (c.rows[r].asset, c.rows[r].license) == pair
    ensures c.Taken(user, pair) && !c.InCart(user, pair)
  {}

  /** A pair that a sync dropped from the cart never comes back, by an add, a sync or any other request. */
  lemma DroppedPairBlocked(
    c: Carts, catalogue: Catalogue, user: UserId, items: seq<Pair>, pair: Pair,
    later: seq<(Catalogue, Request)>, now: Catalogue)
    requires c.Valid() && c.InCart(user, pair) && pair !in items
    requires Sync(c, catalogue, user, items).1 == Done
    ensures var t := ServeAll(Sync(c, catalogue, user, items).0, later);
      && !t.InCart(user, pair)
      && Add(t, now, user, pair) == (t, if now.Accepts(pair) then IntegrityError else Invalid)
  {
    var r :| r in c.rows && c.rows[r].user == user && !c.rows[r].deleted &&
      (c.rows[r].asset, c.rows[r].license) == pair;
    SyncReplaces(c, catalogue, user, items);
    InsertAllFrame(SoftDelete(c, user), user, items, r);
    var s := Sync(c, catalogue, user, items).0;
    assert s.rows[r].deleted;
    DeadRowStaysForever(s, later, r);
    var t := ServeAll(s, later);
    DeadSlotEmpty(t, user, pair, r);
    hide ServeAll, Sync, Carts.Taken, Carts.InCart, Carts.Valid, Catalogue.Accepts;
    AddExact(t, now, user, pair);
  }
}
