/** The payment service and the payment and download handlers on the mutable tables. */
module ShopViews {
  import opened Cart
  import opened Shop

  function ItemKeys(user: UserId, items: seq<OrderItem>): set<Key> {
    set i | 0 <= i < |items| :: (user, items[i].asset, items[i].license)
  }

  datatype WebhookReply = UnknownPayment | Conflict | Processed

  datatype LinkReply = NoDownload | LimitReached | ExternalLink | NoFile | LocalLink

  class ShopDb {
    var carts: Carts
    var orders: map<OrderId, Order>
    var payments: map<PaymentId, Payment>
    var downloads: map<Key, Download>
    var handlers: map<HandlerId, Handler>
    var nextOrder: OrderId
    var nextPayment: PaymentId

    constructor ()
      ensures View() == START
    {
      carts, orders, payments, downloads, handlers := NO_CARTS, map[], map[], map[], map[];
      nextOrder, nextPayment := 0, 0;
    }

    function View(): State
      reads this
    {
      State(carts, orders, payments, downloads, handlers, nextOrder, nextPayment)
    }

    /** The loop of `get_or_create` over the items of an order. */
    method GrantItems(id: OrderId, user: UserId, items: seq<OrderItem>)
      modifies this`downloads
      ensures downloads.Keys == old(downloads.Keys) + ItemKeys(user, items)
      ensures forall k | k in old(downloads) :: downloads[k] == old(downloads)[k]
      ensures forall k | k in downloads && k !in old(downloads) ::
        downloads[k] == Download(id, 0, DEFAULT_LIMIT, false, false)
    {
      for i := 0 to |items|
        invariant downloads.Keys == old(downloads.Keys) + ItemKeys(user, items[..i])
        invariant forall k | k in old(downloads) :: downloads[k] == old(downloads)[k]
        invariant forall k | k in downloads && k !in old(downloads) ::
          downloads[k] == Download(id, 0, DEFAULT_LIMIT, false, false)
      {
        var key := (user, items[i].asset, items[i].license);
        ItemKeysSnoc(user, items, i);
        if key !in downloads {
          downloads := downloads[key := Download(id, 0, DEFAULT_LIMIT, false, false)];
        }
      }
      assert items[..|items|] == items;
    }

    /** `complete_payment`: `seen` is the status of the instance the caller loaded. */
    method CompletePayment(p: PaymentId, seen: PaymentStatus)
      requires p in payments && payments[p].order in orders
      modifies this
      ensures View() == Complete(old(View()), p, seen)
    {
      if seen == Completed {
        return;
      }
      var id := payments[p].order;
      ghost var before := downloads;
      payments := payments[p := payments[p].(status := Completed, paid := true)];
      orders := orders[id := orders[id].(status := Paid)];
      GrantItems(id, orders[id].draft.user, orders[id].draft.items);
      assert downloads == Grant(before, id, orders[id]);
      SameGrant(before, id, orders[id], old(orders)[id]);
    }

    /** `fail_payment` */
    method FailPayment(p: PaymentId)
      requires p in payments
      modifies this`payments
      ensures View() == Fail(old(View()), p)
    {
      payments := payments[p := payments[p].(status := Failed)];
    }

    /** The first half of a webhook: find the payment and read its status. */
    method LoadWebhook(h: HandlerId, p: PaymentId, success: bool, simulated: bool) returns (reply: WebhookReply)
      requires h !in handlers
      modifies this`handlers
      ensures View() == LoadHandler(old(View()), h, p, success, simulated)
      ensures reply == Processed <==> h in handlers
      ensures reply == UnknownPayment <==> p !in payments
    {
      if p !in payments {
        return UnknownPayment;
      }
      var seen := payments[p].status;
      if simulated && seen != Initiated && seen != Pending {
        return Conflict;
      }
      handlers := handlers[h := Handler(p, success, seen)];
      reply := Processed;
    }

    /** The second half: whatever happened in between, act on the status read then. */
    method CommitWebhook(h: HandlerId)
      requires h in handlers && Inv(View())
      modifies this
      ensures View() == CommitHandler(old(View()), h) && Inv(View())
    {
      CommitInv(View(), h);
      var handler := handlers[h];
      handlers := handlers - {h};
      if handler.success {
        CompletePayment(handler.payment, handler.seen);
      } else {
        FailPayment(handler.payment);
      }
      hide Inv, Complete;
    }

    /** `DownloadLinkView.get` */
    method GetLink(k: Key, hasVariant: bool) returns (reply: LinkReply, remaining: nat)
      modifies this`downloads
      ensures View() == Link(old(View()), k, hasVariant)
      ensures reply == NoDownload <==> k !in old(downloads)
      ensures reply == LimitReached <==> k in old(downloads) && !old(downloads)[k].CanDownload()
      ensures reply == NoFile <==>
        k in old(downloads) && old(downloads)[k].CanDownload() && !old(downloads)[k].externalLink && !hasVariant
      ensures reply == LocalLink <==> Issues(old(View()), k, hasVariant)
      ensures reply == ExternalLink <==>
        k in old(downloads) && old(downloads)[k].CanDownload() && old(downloads)[k].externalLink
      ensures reply == ExternalLink ==> remaining == old(downloads)[k].limit - old(downloads)[k].count
      ensures reply == LocalLink ==>
        k in downloads && downloads[k].count <= downloads[k].limit &&
        remaining == downloads[k].limit - downloads[k].count
    {
      remaining := 0;
      if k !in downloads {
        return NoDownload, 0;
      }
      var d := downloads[k];
      if !d.CanDownload() {
        return LimitReached, 0;
      }
      if d.externalLink {
        return ExternalLink, d.Remaining();
      }
      if !hasVariant {
        return NoFile, 0;
      }
      downloads := downloads[k := d.(count := d.count + 1)];
      reply := LocalLink;
      remaining := downloads[k].Remaining();
    }
  }

  lemma ItemKeysSnoc(user: UserId, items: seq<OrderItem>, i: nat)
    requires i < |items|
    ensures ItemKeys(user, items[..i + 1]) == ItemKeys(user, items[..i]) + {(user, items[i].asset, items[i].license)}
  {
    var a, b := items[..i], items[..i + 1];
    forall k
      ensures k in ItemKeys(user, b) <==> k in ItemKeys(user, a) || k == (user, items[i].asset, items[i].license)
    {
      if k in ItemKeys(user, a) {
        var j :| 0 <= j < |a| && k == (user, a[j].asset, a[j].license);
        assert b[j] == a[j];
      }
      assert b[i] == items[i];
    }
  }

  lemma SameGrant(downloads: map<Key, Download>, id: OrderId, a: Order, b: Order)
    requires a.draft == b.draft
    ensures Grant(downloads, id, a) == Grant(downloads, id, b)
  {
    SameKeys(a, b);
    hide KeysOf;
  }
}
