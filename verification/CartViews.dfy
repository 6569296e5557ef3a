/** The cart and checkout handlers on the mutable table. */
module CartViews {
  import opened Sequences
  import opened Strings
  import opened Cart

  /** `validate_items`: no pair twice. */
  method ValidateItems(items: seq<Pair>) returns (ok: bool)
    ensures ok == NoDuplicates(items)
  {
    var seen: set<Pair> := {};
    for i := 0 to |items|
      invariant NoDuplicates(items[..i])
      invariant forall p :: p in seen <==> p in items[..i]
    {
      if items[i] in seen {
        ghost var j :| 0 <= j < i && items[j] == items[i];
        return false;
      }
      seen := seen + {items[i]};
      assert items[..i + 1] == items[..i] + [items[i]];
    }
    assert items[..|items|] == items;
    return true;
  }

  class CartTable {
    var rows: map<nat, CartRow>
    var nextRow: nat

    constructor ()
      ensures View() == NO_CARTS
    {
      rows, nextRow := map[], 0;
    }

    function View(): Carts
      reads this
    {
      Carts(rows, nextRow)
    }

    /** INSERT under the unique constraint. */
    method InsertRow(user: UserId, pair: Pair) returns (ok: bool)
      modifies this
      ensures ok == Insert(old(View()), user, pair).Some?
      ensures View() == if ok then Insert(old(View()), user, pair).value else old(View())
    {
      if View().Holds(user, pair, false) {
        return false;
      }
      rows := rows[nextRow := CartRow(user, pair.0, pair.1, false)];
      nextRow := nextRow + 1;
      ok := true;
    }

    /** `CartView.post` */
    method Post(catalogue: Catalogue, user: UserId, pair: Pair) returns (reply: Reply)
      modifies this
      ensures (View(), reply) == Add(old(View()), catalogue, user, pair)
    {
      if !catalogue.Accepts(pair) {
        return Invalid;
      }
      if View().Holds(user, pair, true) {
        return Duplicate;
      }
      var ok := InsertRow(user, pair);
      reply := if ok then Done else IntegrityError;
    }

    /** `CartItemDeleteView.destroy` */
    method Destroy(user: UserId, row: nat) returns (reply: Reply)
      modifies this
      ensures (View(), reply) == Remove(old(View()), user, row)
    {
      if row !in rows || rows[row].user != user || rows[row].deleted {
        return NotFound;
      }
      rows := rows - {row};
      reply := Done;
    }

    /** `bulk_create`; it stops at the first row the constraint refuses. */
    method BulkCreate(user: UserId, items: seq<Pair>) returns (ok: bool)
      modifies this
      ensures ok == InsertAll(old(View()), user, items).Some?
      ensures ok ==> View() == InsertAll(old(View()), user, items).value
    {
      hide Insert;
      ghost var all := InsertAll(View(), user, items);
      var i := 0;
      assert items[0..] == items;
      while i < |items|
        invariant i <= |items|
        invariant InsertAll(View(), user, items[i..]) == all
      {
        assert items[i..][1..] == items[i + 1..];
        ok := InsertRow(user, items[i]);
        if !ok {
          return false;
        }
        i := i + 1;
      }
      assert items[i..] == [];
      ok := true;
    }

    /** `CartSyncView.post`: soft-delete and re-create in one transaction. */
    method Replace(catalogue: Catalogue, user: UserId, items: seq<Pair>) returns (reply: Reply)
      modifies this
      ensures (View(), reply) == Sync(old(View()), catalogue, user, items)
    {
      hide InsertAll, Catalogue.Accepts, NoDuplicates;
      if exists p | p in items :: !catalogue.Accepts(p) {
        return Invalid;
      }
      var distinct := ValidateItems(items);
      if !distinct {
        return Invalid;
      }
      var savedRows, savedNext := rows, nextRow;
      rows := SoftDelete(View(), user).rows;
      var ok := BulkCreate(user, items);
      if !ok {
        rows, nextRow := savedRows, savedNext;
        return IntegrityError;
      }
      reply := Done;
    }

    /** `CheckoutSerializer.create`: totals first, then order, items and hard deletion in one transaction. */
    method PlaceOrder(catalogue: Catalogue, user: UserId) returns (r: CheckoutResult)
      modifies this
      ensures r == Checkout(old(View()), catalogue, user)
      ensures View() == if r.Placed? then r.carts else old(View())
    {
      hide CartLines, Clear, LinePrice;
      var lines := CartLines(View(), user);
      if lines == [] {
        return EmptyCart;
      }
      var subtotal := 0;
      for i := 0 to |lines|
        invariant subtotal == Subtotal(catalogue, lines[..i])
      {
        assert lines[..i + 1][..i] == lines[..i];
        subtotal := subtotal + LinePrice(catalogue, lines[i]);
      }
      var items: seq<OrderItem> := [];
      for i := 0 to |lines|
        invariant Freeze(catalogue, lines[..i]) == Some(items)
      {
        assert lines[..i + 1][..i] == lines[..i];
        var price := catalogue.PriceOf(lines[i].asset);
        if price == None {
          FreezeStuck(catalogue, lines, i);
          return Unpriced;
        }
        items := items + [OrderItem(lines[i].asset, lines[i].license, price.value)];
      }
      assert lines[..|lines|] == lines;
      var cleared := Clear(View(), user);
      ClearKeepsNext(View(), user);
      rows := cleared.rows;
      r := Placed(Draft(user, items, subtotal, TAX, subtotal + TAX), cleared);
    }
  }

  lemma FreezeStuck(catalogue: Catalogue, lines: seq<CartRow>, i: nat)
    requires i < |lines| && catalogue.PriceOf(lines[i].asset) == None
    ensures Freeze(catalogue, lines) == None
  {
    FreezeExact(catalogue, lines);
    assert lines[i] in lines;
  }

  lemma ClearKeepsNext(c: Carts, user: UserId)
    ensures Clear(c, user).nextRow == c.nextRow
  {}
}
