/** Orders, payments and download entitlements as one state machine over interleaved requests. */
module Shop {
  import opened Strings
  import opened Cart

  type OrderId = nat
  type PaymentId = nat
  type HandlerId = nat
  type Key = (UserId, AssetId, LicenseId)

  datatype OrderStatus = AwaitingPayment | Paid

  datatype Order = Order(draft: Draft, status: OrderStatus)

  datatype PaymentStatus = Initiated | Pending | Completed | Failed

  /** `paid` stands for a set `paid_at`. */
  datatype Payment = Payment(order: OrderId, amount: int, status: PaymentStatus, paid: bool)

  /** The entitlement to one asset under one license; `order` is the order that created the row. */
  datatype Download = Download(order: OrderId, count: nat, limit: nat, externalLink: bool, limitExceeded: bool) {
    predicate CanDownload() {
      !limitExceeded && count < limit
    }

    function Remaining(): nat {
      if count < limit then limit - count else 0
    }
  }

  /** A webhook in progress: it has read its payment and has yet to write. */
  datatype Handler = Handler(payment: PaymentId, success: bool, seen: PaymentStatus)

  datatype State = State(
    carts: Carts,
    orders: map<OrderId, Order>,
    payments: map<PaymentId, Payment>,
    downloads: map<Key, Download>,
    handlers: map<HandlerId, Handler>,
    nextOrder: OrderId,
    nextPayment: PaymentId)

  const START := State(NO_CARTS, map[], map[], map[], map[], 0, 0)

  const DEFAULT_LIMIT: nat := 5

  function KeysOf(o: Order): set<Key> {
    set i | 0 <= i < |o.draft.items| :: (o.draft.user, o.draft.items[i].asset, o.draft.items[i].license)
  }

  /** An order entitles its buyer to each asset it lists, under the license listed with it. */
  lemma KeysExact(o: Order, k: Key)
    ensures k in KeysOf(o) <==> k.0 == o.draft.user && Lists(o.draft.items, (k.1, k.2))
  {
    if k.0 == o.draft.user && Lists(o.draft.items, (k.1, k.2)) {
      var i :| 0 <= i < |o.draft.items| && (o.draft.items[i].asset, o.draft.items[i].license) == (k.1, k.2);
      assert k == (o.draft.user, o.draft.items[i].asset, o.draft.items[i].license);
    }
  }

  // ----- complete_payment, fail_payment -----

  /** `get_or_create` for every item: a row that exists is left as it is. */
  function Grant(downloads: map<Key, Download>, id: OrderId, o: Order): map<Key, Download> {
    map k | k in downloads.Keys + KeysOf(o) ::
      if k in downloads then downloads[k] else Download(id, 0, DEFAULT_LIMIT, false, false)
  }

  /** The transaction of `complete_payment`; `seen` is the status read before it started. */
  function Complete(s: State, p: PaymentId, seen: PaymentStatus): State {
    if p !in s.payments || s.payments[p].order !in s.orders || seen == Completed then s
    else
      var payment := s.payments[p];
      var o := s.orders[payment.order];
      s.(payments := s.payments[p := payment.(status := Completed, paid := true)],
         orders := s.orders[payment.order := o.(status := Paid)],
         downloads := Grant(s.downloads, payment.order, o))
  }

  function SetStatus(s: State, p: PaymentId, status: PaymentStatus): State {
    if p !in s.payments then s else s.(payments := s.payments[p := s.payments[p].(status := status)])
  }

  /** `fail_payment` has no guard. */
  function Fail(s: State, p: PaymentId): State {
    SetStatus(s, p, Failed)
  }

  // ----- the steps -----

  datatype Step =
    | CartStep(catalogue: Catalogue, request: Request)
    | Initiate(user: UserId, order: OrderId)
    | InvoiceReply(payment: PaymentId, created: bool)
    | Load(handler: HandlerId, payment: PaymentId, success: bool, simulated: bool)
    | Commit(handler: HandlerId)
    | IssueLink(key: Key, hasVariant: bool)
    | ExternalSync(key: Key, limit: Option<nat>, link: bool, exceeded: bool)

  function WithOrder(s: State, draft: Draft, carts: Carts): State {
    s.(carts := carts,
       orders := s.orders[s.nextOrder := Order(draft, AwaitingPayment)],
       nextOrder := s.nextOrder + 1)
  }

  function ServeCart(s: State, catalogue: Catalogue, request: Request): State {
    if request.CheckoutRequest? then
      match Checkout(s.carts, catalogue, request.user)
      case Placed(draft, carts) => WithOrder(s, draft, carts)
      case _ => s
    else s.(carts := Serve(s.carts, catalogue, request))
  }

  function StartPayment(s: State, user: UserId, o: OrderId): State {
    if o !in s.orders || s.orders[o].draft.user != user then s
    else
      s.(payments := s.payments[s.nextPayment := Payment(o, s.orders[o].draft.total, Initiated, false)],
         nextPayment := s.nextPayment + 1)
  }

  /** The simulation endpoint refuses a payment that is neither initiated nor pending. */
  function LoadHandler(s: State, h: HandlerId, p: PaymentId, success: bool, simulated: bool): State {
    if h in s.handlers || p !in s.payments then s
    else
      var seen := s.payments[p].status;
      if simulated && seen != Initiated && seen != Pending then s
      else s.(handlers := s.handlers[h := Handler(p, success, seen)])
  }

  function CommitHandler(s: State, h: HandlerId): State {
    if h !in s.handlers then s
    else
      var handler := s.handlers[h];
      var done := s.(handlers := s.handlers - {h});
      if handler.success then Complete(done, handler.payment, handler.seen) else Fail(done, handler.payment)
  }

  predicate Issues(s: State, k: Key, hasVariant: bool) {
    k in s.downloads && s.downloads[k].CanDownload() && !s.downloads[k].externalLink && hasVariant
  }

  /** A local link is counted; an external one is handed on without counting. */
  function Link(s: State, k: Key, hasVariant: bool): State {
    if Issues(s, k, hasVariant)
    then s.(downloads := s.downloads[k := s.downloads[k].(count := s.downloads[k].count + 1)])
    else s
  }

  function SyncExternal(s: State, k: Key, limit: Option<nat>, link: bool, exceeded: bool): State {
    if k !in s.downloads then s
    else
      var d := s.downloads[k].(externalLink := link, limitExceeded := exceeded);
      s.(downloads := s.downloads[k := match limit case Some(n) => d.(limit := n) case None => d])
  }

  function Take(s: State, step: Step): State {
    match step
    case CartStep(catalogue, request) => ServeCart(s, catalogue, request)
    case Initiate(user, o) => StartPayment(s, user, o)
    case InvoiceReply(p, created) => SetStatus(s, p, if created then Pending else Failed)
    case Load(h, p, success, simulated) => LoadHandler(s, h, p, success, simulated)
    case Commit(h) => CommitHandler(s, h)
    case IssueLink(k, hasVariant) => Link(s, k, hasVariant)
    case ExternalSync(k, limit, link, exceeded) => SyncExternal(s, k, limit, link, exceeded)
  }

  function Run(s: State, steps: seq<Step>): State {
    if steps == [] then s else Take(Run(s, steps[..|steps| - 1]), steps[|steps| - 1])
  }

  // ----- the entitlement invariant -----

  ghost predicate PaidFor(s: State, o: OrderId) {
    exists p | p in s.payments :: s.payments[p].order == o && s.payments[p].paid
  }

  ghost predicate Entitled(s: State, k: Key) {
    exists o | o in s.orders :: s.orders[o].status == Paid && k in KeysOf(s.orders[o])
  }

  ghost predicate PaymentsValid(s: State) {
    && (forall o | o in s.orders :: o < s.nextOrder)
    && (forall p | p in s.payments ::
          && p < s.nextPayment && s.payments[p].order in s.orders
          && (s.payments[p].status == Completed ==> s.payments[p].paid))
    && (forall h | h in s.handlers ::
          && s.handlers[h].payment in s.payments
          && (s.handlers[h].seen == Completed ==> s.payments[s.handlers[h].payment].paid))
  }

  /** No tax, and both sums are the sum of the frozen prices. */
  predicate FrozenTotals(d: Draft) {
    d.tax == 0 && d.subtotal == Sum(d.items) && d.total == Sum(d.items)
  }

  /** A payment's amount is the total of its order, and that is the sum of the frozen prices. */
  ghost predicate AmountsFrozen(s: State) {
    && (forall o | o in s.orders :: FrozenTotals(s.orders[o].draft))
    && (forall p | p in s.payments ::
          s.payments[p].order in s.orders && s.payments[p].amount == s.orders[s.payments[p].order].draft.total)
  }

  ghost predicate OrdersPaid(s: State) {
    forall o | o in s.orders :: s.orders[o].status == Paid <==> PaidFor(s, o)
  }

  ghost predicate DownloadsEntitled(s: State) {
    forall k :: k in s.downloads <==> Entitled(s, k)
  }

  ghost predicate Inv(s: State) {
    s.carts.Valid() && PaymentsValid(s) && AmountsFrozen(s) && OrdersPaid(s) && DownloadsEntitled(s)
  }

  lemma SameOrders(s: State, t: State)
    requires s.orders == t.orders
    ensures forall k :: Entitled(s, k) == Entitled(t, k)
  {}

  lemma SameEntitlements(s: State, t: State)
    requires DownloadsEntitled(s) && s.orders == t.orders && s.downloads.Keys == t.downloads.Keys
    ensures DownloadsEntitled(t)
  {
    SameOrders(s, t);
    hide Entitled;
  }

  lemma SameAmounts(s: State, t: State)
    requires AmountsFrozen(s) && s.orders == t.orders && t.payments.Keys == s.payments.Keys
    requires forall p | p in s.payments ::
      t.payments[p].order == s.payments[p].order && t.payments[p].amount == s.payments[p].amount
    ensures AmountsFrozen(t)
  {
    hide Sum;
  }

  lemma SamePaid(s: State, t: State)
    requires OrdersPaid(s) && s.orders == t.orders && s.payments == t.payments
    ensures OrdersPaid(t)
  {
    assert forall o :: PaidFor(t, o) == PaidFor(s, o);
    hide PaidFor;
  }

  lemma NewOrderPaid(s: State, draft: Draft, carts: Carts)
    requires PaymentsValid(s) && OrdersPaid(s)
    ensures OrdersPaid(WithOrder(s, draft, carts))
  {
    var t := WithOrder(s, draft, carts);
    assert forall o :: PaidFor(t, o) == PaidFor(s, o);
  }

  lemma NewOrderEntitled(s: State, draft: Draft, carts: Carts)
    requires PaymentsValid(s) && DownloadsEntitled(s)
    ensures DownloadsEntitled(WithOrder(s, draft, carts))
  {
    var t := WithOrder(s, draft, carts);
    forall k
      ensures Entitled(t, k) == Entitled(s, k)
    {
      assert forall o | o in s.orders :: t.orders[o] == s.orders[o];
      hide KeysOf;
    }
    hide Entitled;
  }

  lemma NewOrderInv(s: State, draft: Draft, carts: Carts)
    requires Inv(s) && carts.Valid() && FrozenTotals(draft)
    ensures Inv(WithOrder(s, draft, carts))
  {
    NewOrderPaid(s, draft, carts);
    NewOrderEntitled(s, draft, carts);
    hide Carts.Valid, Sum, OrdersPaid, DownloadsEntitled;
  }

  lemma CheckoutInv(s: State, catalogue: Catalogue, user: UserId)
    requires Inv(s)
    ensures Inv(ServeCart(s, catalogue, CheckoutRequest(user)))
  {
    hide Checkout, PaymentsValid, AmountsFrozen, OrdersPaid, DownloadsEntitled, Sum, WithOrder;
    match Checkout(s.carts, catalogue, user)
    case Placed(draft, carts) =>
      assert carts.Valid() && FrozenTotals(draft) by { CheckoutConserves(s.carts, catalogue, user); }
      NewOrderInv(s, draft, carts);
    case _ =>
  }

  lemma CartInv(s: State, catalogue: Catalogue, request: Request)
    requires Inv(s)
    ensures Inv(ServeCart(s, catalogue, request))
  {
    if request.CheckoutRequest? {
      CheckoutInv(s, catalogue, request.user);
    } else {
      ServeValid(s.carts, catalogue, request);
      SameOrders(s, ServeCart(s, catalogue, request));
      hide Serve, Carts.Valid, Entitled;
    }
  }

  lemma StartPaymentPaid(s: State, user: UserId, o: OrderId)
    requires PaymentsValid(s) && OrdersPaid(s)
    ensures OrdersPaid(StartPayment(s, user, o))
  {
    var t := StartPayment(s, user, o);
    forall q
      ensures PaidFor(t, q) == PaidFor(s, q)
    {
      assert forall p | p in s.payments :: t.payments[p] == s.payments[p];
      assert t != s ==> !t.payments[s.nextPayment].paid;
    }
    hide PaidFor, PaymentsValid;
  }

  lemma StartPaymentValid(s: State, user: UserId, o: OrderId)
    requires PaymentsValid(s) && AmountsFrozen(s)
    ensures PaymentsValid(StartPayment(s, user, o)) && AmountsFrozen(StartPayment(s, user, o))
  {
    hide Sum;
  }

  lemma StartPaymentInv(s: State, user: UserId, o: OrderId)
    requires Inv(s)
    ensures Inv(StartPayment(s, user, o))
  {
    hide Carts.Valid, PaymentsValid, AmountsFrozen, OrdersPaid, DownloadsEntitled;
    StartPaymentValid(s, user, o);
    StartPaymentPaid(s, user, o);
    SameEntitlements(s, StartPayment(s, user, o));
  }

  lemma StatusPaidFor(s: State, p: PaymentId, status: PaymentStatus, o: OrderId)
    ensures PaidFor(SetStatus(s, p, status), o) == PaidFor(s, o)
  {
    var t := SetStatus(s, p, status);
    if q :| q in s.payments && s.payments[q].order == o && s.payments[q].paid {
      assert t.payments[q].order == o && t.payments[q].paid;
    }
  }

  lemma StatusOrdersPaid(s: State, p: PaymentId, status: PaymentStatus)
    requires OrdersPaid(s)
    ensures OrdersPaid(SetStatus(s, p, status))
  {
    forall o { StatusPaidFor(s, p, status, o); }
    hide PaidFor;
  }

  lemma StatusPaymentsValid(s: State, p: PaymentId, status: PaymentStatus)
    requires PaymentsValid(s) && AmountsFrozen(s) && status != Completed
    ensures PaymentsValid(SetStatus(s, p, status)) && AmountsFrozen(SetStatus(s, p, status))
  {
    SameAmounts(s, SetStatus(s, p, status));
    hide AmountsFrozen;
  }

  /** A status write that does not complete a payment. */
  lemma SetStatusInv(s: State, p: PaymentId, status: PaymentStatus)
    requires Inv(s) && status != Completed
    ensures Inv(SetStatus(s, p, status))
  {
    hide Carts.Valid, PaymentsValid, AmountsFrozen, OrdersPaid, DownloadsEntitled;
    SameEntitlements(s, SetStatus(s, p, status));
    StatusOrdersPaid(s, p, status);
    StatusPaymentsValid(s, p, status);
  }

  lemma CompletePaidFor(s: State, p: PaymentId, seen: PaymentStatus, o: OrderId)
    requires PaymentsValid(s) && p in s.payments && seen != Completed
    ensures PaidFor(Complete(s, p, seen), o) <==> PaidFor(s, o) || o == s.payments[p].order
  {
    var t := Complete(s, p, seen);
    assert t.payments[p].paid && t.payments[p].order == s.payments[p].order;
    if q :| q in s.payments && s.payments[q].order == o && s.payments[q].paid {
      assert t.payments[q].order == o && t.payments[q].paid;
    }
  }

  lemma CompleteEntitled(s: State, p: PaymentId, seen: PaymentStatus, k: Key)
    requires PaymentsValid(s) && p in s.payments && seen != Completed
    ensures Entitled(Complete(s, p, seen), k) <==> Entitled(s, k) || k in KeysOf(s.orders[s.payments[p].order])
  {
    var t := Complete(s, p, seen);
    var o := s.payments[p].order;
    assert t.orders[o].status == Paid && KeysOf(t.orders[o]) == KeysOf(s.orders[o]);
    if q :| q in s.orders && s.orders[q].status == Paid && k in KeysOf(s.orders[q]) {
      assert t.orders[q].status == Paid && k in KeysOf(t.orders[q]);
    }
  }

  lemma CompletePayments(s: State, p: PaymentId, seen: PaymentStatus)
    requires PaymentsValid(s) && AmountsFrozen(s)
    ensures PaymentsValid(Complete(s, p, seen)) && AmountsFrozen(Complete(s, p, seen))
  {
    hide Grant, Sum;
  }

  lemma CompleteOrders(s: State, p: PaymentId, seen: PaymentStatus)
    requires PaymentsValid(s) && OrdersPaid(s) && p in s.payments && seen != Completed
    ensures OrdersPaid(Complete(s, p, seen))
  {
    forall o { CompletePaidFor(s, p, seen, o); }
    hide PaidFor, Grant;
  }

  lemma CompleteDownloads(s: State, p: PaymentId, seen: PaymentStatus)
    requires PaymentsValid(s) && DownloadsEntitled(s) && p in s.payments && seen != Completed
    ensures DownloadsEntitled(Complete(s, p, seen))
  {
    forall k { CompleteEntitled(s, p, seen, k); }
    assert Complete(s, p, seen).downloads.Keys == s.downloads.Keys + KeysOf(s.orders[s.payments[p].order]);
    hide Entitled, KeysOf, Complete;
  }

  lemma CompleteInv(s: State, p: PaymentId, seen: PaymentStatus)
    requires Inv(s)
    ensures Inv(Complete(s, p, seen))
  {
    if p in s.payments && seen != Completed {
      CompletePayments(s, p, seen);
      CompleteOrders(s, p, seen);
      CompleteDownloads(s, p, seen);
      hide Carts.Valid, PaymentsValid, AmountsFrozen, OrdersPaid, DownloadsEntitled, Grant;
    }
  }

  lemma DoneInv(s: State, h: HandlerId)
    requires Inv(s)
    ensures Inv(s.(handlers := s.handlers - {h}))
  {
    var done := s.(handlers := s.handlers - {h});
    SameEntitlements(s, done);
    SamePaid(s, done);
    SameAmounts(s, done);
    hide Carts.Valid, AmountsFrozen, OrdersPaid, DownloadsEntitled;
  }

  lemma CommitInv(s: State, h: HandlerId)
    requires Inv(s)
    ensures Inv(CommitHandler(s, h))
  {
    if h in s.handlers {
      var handler := s.handlers[h];
      var done := s.(handlers := s.handlers - {h});
      DoneInv(s, h);
      if handler.success {
        CompleteInv(done, handler.payment, handler.seen);
      } else {
        SetStatusInv(done, handler.payment, Failed);
      }
    }
    hide Inv, Complete, SetStatus;
  }

  lemma DownloadFieldsInv(s: State, t: State)
    requires Inv(s) && t == s.(downloads := t.downloads) && t.downloads.Keys == s.downloads.Keys
    ensures Inv(t)
  {
    hide Carts.Valid, AmountsFrozen, OrdersPaid, DownloadsEntitled;
    SameEntitlements(s, t);
    SamePaid(s, t);
    SameAmounts(s, t);
  }

  lemma LoadInv(s: State, h: HandlerId, p: PaymentId, success: bool, simulated: bool)
    requires Inv(s)
    ensures Inv(LoadHandler(s, h, p, success, simulated))
  {
    hide Carts.Valid, AmountsFrozen, OrdersPaid, DownloadsEntitled;
    var t := LoadHandler(s, h, p, success, simulated);
    SameEntitlements(s, t);
    SamePaid(s, t);
    SameAmounts(s, t);
  }

  lemma TakeInv(s: State, step: Step)
    requires Inv(s)
    ensures Inv(Take(s, step))
  {
    match step
    case CartStep(catalogue, request) => CartInv(s, catalogue, request); hide Inv, ServeCart;
    case Initiate(user, o) => StartPaymentInv(s, user, o); hide Inv, StartPayment;
    case InvoiceReply(p, created) => SetStatusInv(s, p, if created then Pending else Failed); hide Inv, SetStatus;
    case Load(h, p, success, simulated) => LoadInv(s, h, p, success, simulated); hide Inv, LoadHandler;
    case Commit(h) => CommitInv(s, h); hide Inv, CommitHandler;
    case IssueLink(k, hasVariant) => DownloadFieldsInv(s, Link(s, k, hasVariant)); hide Inv;
    case ExternalSync(k, limit, link, exceeded) =>
      DownloadFieldsInv(s, SyncExternal(s, k, limit, link, exceeded));
      hide Inv;
  }

  lemma {:induction false} RunInv(s: State, steps: seq<Step>)
    requires Inv(s)
    ensures Inv(Run(s, steps))
  {
    hide Inv, Take;
    if steps == [] {
    } else {
      RunInv(s, steps[..|steps| - 1]);
      TakeInv(Run(s, steps[..|steps| - 1]), steps[|steps| - 1]);
    }
  }

  lemma StartInv()
    ensures Inv(START)
  {
    hide Carts.InCart;
  }

  /**
   * In every reachable state, under any interleaving of webhooks, retries, late failures and other
   * requests: an order is paid exactly when one of its payments was, a download exists exactly for
   * the items of paid orders, and every payment asks for its order's frozen total.
   */
  lemma Entitlement(steps: seq<Step>)
    ensures var s := Run(START, steps);
      && (forall o | o in s.orders :: s.orders[o].status == Paid <==> PaidFor(s, o))
      && (forall k :: k in s.downloads <==> Entitled(s, k))
      && (forall o | o in s.orders ::
            s.orders[o].draft.tax == 0 && s.orders[o].draft.subtotal == Sum(s.orders[o].draft.items))
      && (forall p | p in s.payments ::
            s.payments[p].order in s.orders &&
            s.payments[p].amount == s.orders[s.payments[p].order].draft.total ==
              Sum(s.orders[s.payments[p].order].draft.items))
  {
    StartInv();
    RunInv(START, steps);
    hide Run, Entitled, PaidFor, Carts.Valid;
  }

  // ----- what one request does -----

  lemma RunOne(s: State, step: Step)
    ensures Run(s, [step]) == Take(s, step)
  {
    assert [step][..0] == [];
    assert Run(s, []) == s;
    hide Take;
  }

  lemma RunTwo(s: State, first: Step, second: Step)
    ensures Run(s, [first, second]) == Take(Take(s, first), second)
  {
    RunOne(s, first);
    assert [first, second][..1] == [first];
    hide Take;
  }

  /** A handler opens for a known payment, and in the simulation only while that is initiated or pending. */
  lemma LoadOpens(s: State, h: HandlerId, p: PaymentId, success: bool, simulated: bool)
    requires h !in s.handlers
    ensures var t := Run(s, [Load(h, p, success, simulated)]);
      && (h in t.handlers <==>
          p in s.payments && !(simulated && (s.payments[p].status == Completed || s.payments[p].status == Failed)))
      && (h in t.handlers ==> t.handlers[h].payment == p && t.handlers[h].success == success)
      && t == s.(handlers := t.handlers) && t.handlers - {h} == s.handlers
  {
    RunOne(s, Load(h, p, success, simulated));
  }

  lemma SuccessRuns(s: State, h: HandlerId, p: PaymentId)
    requires h !in s.handlers && p in s.payments
    ensures Run(s, [Load(h, p, true, false), Commit(h)]) == Complete(s, p, s.payments[p].status)
  {
    hide Complete;
    RunTwo(s, Load(h, p, true, false), Commit(h));
    var u := Take(s, Load(h, p, true, false));
    assert u.handlers[h] == Handler(p, true, s.payments[p].status) && u.handlers - {h} == s.handlers;
    assert u.(handlers := u.handlers - {h}) == s;
  }

  /** The tables after a success was processed. */
  ghost predicate PaidNow(s: State, p: PaymentId, t: State) {
    p in s.payments && s.payments[p].order in s.orders &&
    var o := s.payments[p].order;
    && t.payments == s.payments[p := s.payments[p].(status := Completed, paid := true)]
    && t.orders == s.orders[o := s.orders[o].(status := Paid)]
    && t.downloads.Keys == s.downloads.Keys + KeysOf(s.orders[o])
    && (forall k | k in s.downloads :: t.downloads[k] == s.downloads[k])
    && (forall k | k in t.downloads && k !in s.downloads :: t.downloads[k] == Download(o, 0, 5, false, false))
    && t.handlers == s.handlers && t.carts == s.carts
  }

  lemma FirstSuccess(s: State, p: PaymentId, seen: PaymentStatus)
    requires PaymentsValid(s) && p in s.payments && seen != Completed
    ensures PaidNow(s, p, Complete(s, p, seen))
  {
    CompleteDownloadRows(s, p, seen);
    hide KeysOf, Grant;
  }

  lemma SecondSuccess(s: State, p: PaymentId)
    requires Inv(s) && p in s.payments && s.payments[p].status == Completed
    ensures PaidNow(s, p, s)
  {
    InvPayments(s);
    CompletedPaid(s, p);
    PaidOrderDelivered(s, p);
    hide Inv, KeysOf, PaymentsValid;
    SameEntry(s.payments, p);
    SameEntry(s.orders, s.payments[p].order);
  }

  /**
   * A success reported for a payment completes it, pays its order and grants the order's items: what the
   * buyer lacked comes with five downloads, what was there stays as it was.
   */
  lemma SuccessPays(s: State, h: HandlerId, p: PaymentId)
    requires Inv(s) && h !in s.handlers && p in s.payments
    ensures PaidNow(s, p, Run(s, [Load(h, p, true, false), Commit(h)]))
  {
    hide Inv, PaidNow, Run;
    SuccessRuns(s, h, p);
    InvPayments(s);
    if s.payments[p].status == Completed {
      SecondSuccess(s, p);
    } else {
      FirstSuccess(s, p, s.payments[p].status);
    }
    CompleteIdle(s, p);
  }

  lemma SameEntry<K, V>(m: map<K, V>, k: K)
    requires k in m
    ensures m[k := m[k]] == m
  {}

  lemma CompletedPaid(s: State, p: PaymentId)
    requires PaymentsValid(s) && p in s.payments && s.payments[p].status == Completed
    ensures s.payments[p].paid
  {}

  /** A reported failure fails the payment and touches nothing else. */
  lemma FailureFails(s: State, h: HandlerId, p: PaymentId)
    requires h !in s.handlers && p in s.payments
    ensures Run(s, [Load(h, p, false, false), Commit(h)]) ==
      s.(payments := s.payments[p := s.payments[p].(status := Failed)])
  {
    RunTwo(s, Load(h, p, false, false), Commit(h));
    var u := Take(s, Load(h, p, false, false));
    assert u.handlers - {h} == s.handlers;
  }

  /** A payment starts for the buyer's own order only, at the frozen total, and touches nothing else. */
  lemma InitiateExact(s: State, user: UserId, o: OrderId)
    requires Inv(s)
    ensures var t := Run(s, [Initiate(user, o)]);
      if o in s.orders && s.orders[o].draft.user == user then
        && s.nextPayment !in s.payments && t.nextPayment == s.nextPayment + 1
        && t.payments == s.payments[s.nextPayment := Payment(o, Sum(s.orders[o].draft.items), Initiated, false)]
        && t == s.(payments := t.payments, nextPayment := t.nextPayment)
      else t == s
  {
    RunOne(s, Initiate(user, o));
    hide Carts.Valid, OrdersPaid, DownloadsEntitled, Sum;
  }

  /** The gateway's reply to the invoice opens the payment or fails it, and touches nothing else. */
  lemma InvoiceReplyExact(s: State, p: PaymentId, created: bool)
    requires p in s.payments
    ensures Run(s, [InvoiceReply(p, created)]) ==
      s.(payments := s.payments[p := s.payments[p].(status := if created then Pending else Failed)])
  {
    RunOne(s, InvoiceReply(p, created));
  }

  /** A placed order is recorded, unpaid, together with the emptied cart; a refused checkout changes nothing. */
  lemma CheckoutRecorded(s: State, catalogue: Catalogue, user: UserId)
    requires Inv(s)
    ensures var t, r := Run(s, [CartStep(catalogue, CheckoutRequest(user))]), Checkout(s.carts, catalogue, user);
      if r.Placed? then
        && s.nextOrder !in s.orders && t.nextOrder == s.nextOrder + 1
        && t.orders == s.orders[s.nextOrder := Order(r.draft, AwaitingPayment)]
        && t == s.(carts := r.carts, orders := t.orders, nextOrder := t.nextOrder)
      else t == s
  {
    RunOne(s, CartStep(catalogue, CheckoutRequest(user)));
    hide Carts.Valid, AmountsFrozen, OrdersPaid, DownloadsEntitled, Checkout;
  }

  // ----- orders are frozen -----

  ghost predicate OrderKept(s: State, o: OrderId, t: State) {
    o in s.orders ==>
      o in t.orders && t.orders[o].draft == s.orders[o].draft &&
        (s.orders[o].status == Paid ==> t.orders[o].status == Paid)
  }

  lemma CartKeepsOrders(s: State, catalogue: Catalogue, request: Request, o: OrderId)
    requires PaymentsValid(s)
    ensures OrderKept(s, o, ServeCart(s, catalogue, request))
  {
    hide Checkout, Serve;
  }

  lemma CommitKeepsOrders(s: State, h: HandlerId, o: OrderId)
    ensures OrderKept(s, o, CommitHandler(s, h))
  {
    hide Grant;
  }

  lemma TakeKeepsOrders(s: State, step: Step, o: OrderId)
    requires Inv(s) && o in s.orders
    ensures OrderKept(s, o, Take(s, step))
  {
    match step
    case CartStep(catalogue, request) => CartKeepsOrders(s, catalogue, request, o); hide ServeCart, Inv;
    case Commit(h) => CommitKeepsOrders(s, h, o); hide CommitHandler, Inv;
    case _ => hide Inv;
  }

  /** Whatever happens to prices, carts or payments, an order keeps its items and totals, and stays paid. */
  lemma {:induction false} OrdersFrozen(s: State, steps: seq<Step>, o: OrderId)
    requires Inv(s) && o in s.orders
    ensures OrderKept(s, o, Run(s, steps))
  {
    hide Inv, Take;
    if steps == [] {
    } else {
      var front := steps[..|steps| - 1];
      OrdersFrozen(s, front, o);
      RunInv(s, front);
      TakeKeepsOrders(Run(s, front), steps[|steps| - 1], o);
    }
  }

  // ----- confluence of webhooks -----

  predicate IsWebhook(step: Step) {
    step.Load? || step.Commit? || step.InvoiceReply?
  }

  /** What a webhook in progress was told: its payment, and whether that succeeded. */
  type Call = (PaymentId, bool)

  /** A webhook with a known payment opens a handler; the simulation only while the payment is open. */
  predicate Opens(s: State, h: HandlerId, p: PaymentId, simulated: bool) {
    && h !in s.handlers && p in s.payments
    && (simulated ==> s.payments[p].status == Initiated || s.payments[p].status == Pending)
  }

  /** The calls in progress after the steps, as the requests themselves reported them. */
  ghost function Calls(s: State, steps: seq<Step>): map<HandlerId, Call> {
    if steps == [] then map h | h in s.handlers :: (s.handlers[h].payment, s.handlers[h].success)
    else
      var front, step := steps[..|steps| - 1], steps[|steps| - 1];
      var calls := Calls(s, front);
      match step
      case Load(h, p, success, simulated) =>
        if Opens(Run(s, front), h, p, simulated) then calls[h := (p, success)] else calls
      case Commit(h) => calls - {h}
      case _ => calls
  }

  /** The payments for which a reported success was processed. */
  ghost function Winners(s: State, steps: seq<Step>): set<PaymentId> {
    if steps == [] then {}
    else
      var front, step := steps[..|steps| - 1], steps[|steps| - 1];
      var calls := Calls(s, front);
      Winners(s, front) +
      if step.Commit? && step.handler in calls && calls[step.handler].1 then {calls[step.handler].0} else {}
  }

  /** Every handler holds what its request reported. */
  ghost predicate CallsKept(s: State, calls: map<HandlerId, Call>) {
    && s.handlers.Keys == calls.Keys
    && forall h | h in calls :: (s.handlers[h].payment, s.handlers[h].success) == calls[h]
  }

  lemma HandlersKept(s: State, step: Step)
    requires !step.Load? && !step.Commit?
    ensures Take(s, step).handlers == s.handlers
  {
    hide Checkout, Serve;
  }

  lemma CommitHandlers(s: State, h: HandlerId)
    ensures CommitHandler(s, h).handlers == s.handlers - {h}
  {
    hide Grant;
  }

  lemma {:induction false} CallsMatch(s: State, steps: seq<Step>)
    ensures CallsKept(Run(s, steps), Calls(s, steps))
  {
    if steps == [] {
    } else {
      var front, step := steps[..|steps| - 1], steps[|steps| - 1];
      var t := Run(s, front);
      CallsMatch(s, front);
      match step
      case Load(h, p, success, simulated) =>
      case Commit(h) => CommitHandlers(t, h); hide CommitHandler;
      case _ => HandlersKept(t, step); hide Take;
    }
  }

  /** The orders that the successful payments pay. */
  ghost predicate PaysOrder(s: State, wins: set<PaymentId>, o: OrderId) {
    exists p | p in wins :: p in s.payments && s.payments[p].order == o
  }

  ghost predicate PaysKey(s: State, wins: set<PaymentId>, k: Key) {
    exists p | p in wins ::
      p in s.payments && s.payments[p].order in s.orders && k in KeysOf(s.orders[s.payments[p].order])
  }

  ghost predicate PaymentsKept(s: State, t: State) {
    && t.payments.Keys == s.payments.Keys
    && (forall p | p in s.payments ::
      t.payments[p].order == s.payments[p].order && t.payments[p].amount == s.payments[p].amount)
  }

  ghost predicate OrdersSettled(s: State, wins: set<PaymentId>, t: State) {
    && t.orders.Keys == s.orders.Keys
    && (forall o | o in s.orders ::
          && t.orders[o].draft == s.orders[o].draft
          && (t.orders[o].status == Paid <==> s.orders[o].status == Paid || PaysOrder(s, wins, o)))
  }

  ghost predicate DownloadsSettled(s: State, wins: set<PaymentId>, t: State) {
    && (forall k :: k in t.downloads <==> k in s.downloads || PaysKey(s, wins, k))
    && (forall k | k in s.downloads :: k in t.downloads && t.downloads[k] == s.downloads[k])
    && (forall k | k in t.downloads && k !in s.downloads ::
          t.downloads[k].(order := 0) == Download(0, 0, DEFAULT_LIMIT, false, false))
  }

  /** Between s and t, exactly the orders and entitlements paid for by `wins` were added. */
  ghost predicate Settled(s: State, wins: set<PaymentId>, t: State) {
    PaymentsKept(s, t) && OrdersSettled(s, wins, t) && DownloadsSettled(s, wins, t)
  }

  lemma SettledSame(s: State, wins: set<PaymentId>, t: State, u: State)
    requires Settled(s, wins, t) && u.orders == t.orders && u.downloads == t.downloads
    requires u.payments.Keys == t.payments.Keys
    requires forall p | p in t.payments ::
      u.payments[p].order == t.payments[p].order && u.payments[p].amount == t.payments[p].amount
    ensures Settled(s, wins, u)
  {
    hide PaysOrder, PaysKey;
  }

  /** One more winner adds its order and the entitlements of that order. */
  lemma OneMoreWinner(s: State, wins: set<PaymentId>, p: PaymentId)
    requires p in s.payments && s.payments[p].order in s.orders
    ensures forall q :: PaysOrder(s, wins + {p}, q) <==> PaysOrder(s, wins, q) || q == s.payments[p].order
    ensures forall k :: PaysKey(s, wins + {p}, k) <==> PaysKey(s, wins, k) || k in KeysOf(s.orders[s.payments[p].order])
  {
    hide KeysOf;
    var o := s.payments[p].order;
    forall q
      ensures PaysOrder(s, wins + {p}, q) <==> PaysOrder(s, wins, q) || q == o
    {
      assert p in wins + {p};
    }
    forall k
      ensures PaysKey(s, wins + {p}, k) <==> PaysKey(s, wins, k) || k in KeysOf(s.orders[o])
    {
      assert p in wins + {p};
    }
  }

  /** A success that saw a completed payment had nothing left to do. */
  lemma SettledIdle(s: State, wins: set<PaymentId>, t: State, p: PaymentId)
    requires Inv(t) && Settled(s, wins, t) && p in t.payments && t.payments[p].paid
    ensures Settled(s, wins + {p}, t)
  {
    hide Inv, KeysOf, PaysOrder, PaysKey;
    var o := t.payments[p].order;
    PaidOrderDelivered(t, p);
    SameKeys(t.orders[o], s.orders[o]);
    OneMoreWinner(s, wins, p);
  }

  lemma PaidOrderDelivered(s: State, p: PaymentId)
    requires Inv(s) && p in s.payments && s.payments[p].paid
    ensures var o := s.payments[p].order;
      o in s.orders && s.orders[o].status == Paid && KeysOf(s.orders[o]) <= s.downloads.Keys
  {
    var o := s.payments[p].order;
    assert PaidFor(s, o);
    hide KeysOf;
    forall k | k in KeysOf(s.orders[o])
      ensures k in s.downloads
    {
      assert Entitled(s, k);
    }
  }

  lemma SettledComplete(s: State, wins: set<PaymentId>, t: State, p: PaymentId, seen: PaymentStatus)
    requires PaymentsValid(t) && Settled(s, wins, t) && p in t.payments && seen != Completed
    ensures Settled(s, wins + {p}, Complete(t, p, seen))
  {
    hide PaymentsKept, OrdersSettled, DownloadsSettled, Complete;
    OrdersSettledComplete(s, wins, t, p, seen);
    DownloadsSettledComplete(s, wins, t, p, seen);
    PaymentsKeptComplete(s, t, p, seen);
  }

  lemma PaymentsKeptComplete(s: State, t: State, p: PaymentId, seen: PaymentStatus)
    requires PaymentsKept(s, t)
    ensures PaymentsKept(s, Complete(t, p, seen))
  {
    hide Grant;
  }

  lemma OrdersSettledComplete(s: State, wins: set<PaymentId>, t: State, p: PaymentId, seen: PaymentStatus)
    requires PaymentsValid(t) && PaymentsKept(s, t) && OrdersSettled(s, wins, t) && p in t.payments && seen != Completed
    ensures OrdersSettled(s, wins + {p}, Complete(t, p, seen))
  {
    OneMoreWinner(s, wins, p);
    hide PaysOrder, PaysKey, KeysOf, Grant;
  }

  lemma DownloadsSettledComplete(s: State, wins: set<PaymentId>, t: State, p: PaymentId, seen: PaymentStatus)
    requires PaymentsValid(t) && Settled(s, wins, t) && p in t.payments && seen != Completed
    ensures DownloadsSettled(s, wins + {p}, Complete(t, p, seen))
  {
    hide PaysOrder, PaysKey, KeysOf, Complete;
    var o := t.payments[p].order;
    assert o in s.orders && o == s.payments[p].order &&
      t.orders[o].draft == s.orders[o].draft by { hide DownloadsSettled; }
    assert DownloadsSettled(s, wins, t);
    hide PaymentsKept, OrdersSettled;
    OneMoreWinner(s, wins, p);
    CompleteDownloadRows(t, p, seen);
    SameKeys(t.orders[o], s.orders[o]);
  }

  lemma SameKeys(a: Order, b: Order)
    requires a.draft == b.draft
    ensures KeysOf(a) == KeysOf(b)
  {}

  lemma CompleteDownloadRows(s: State, p: PaymentId, seen: PaymentStatus)
    requires PaymentsValid(s) && p in s.payments && seen != Completed
    ensures var t := Complete(s, p, seen);
      && t.downloads.Keys == s.downloads.Keys + KeysOf(s.orders[s.payments[p].order])
      && (forall k | k in s.downloads :: t.downloads[k] == s.downloads[k])
      && (forall k | k in t.downloads && k !in s.downloads ::
            t.downloads[k] == Download(s.payments[p].order, 0, DEFAULT_LIMIT, false, false))
  {
    hide KeysOf;
  }

  lemma SettledFail(s: State, wins: set<PaymentId>, t: State, p: PaymentId)
    requires Settled(s, wins, t)
    ensures Settled(s, wins, Fail(t, p))
  {
    hide Settled;
    SettledSame(s, wins, t, Fail(t, p));
  }

  lemma SettledCommit(s: State, wins: set<PaymentId>, t: State, h: HandlerId)
    requires Inv(t) && Settled(s, wins, t) && h in t.handlers
    ensures var won := if t.handlers[h].success then {t.handlers[h].payment} else {};
      Settled(s, wins + won, CommitHandler(t, h))
  {
    hide Inv, Settled, Complete, Fail, PaymentsValid;
    var handler, p := t.handlers[h], t.handlers[h].payment;
    var done := t.(handlers := t.handlers - {h});
    HandlerSaw(t, h);
    DoneInv(t, h);
    SettledSame(s, wins, t, done);
    if !handler.success {
      assert wins + {} == wins;
      SettledFail(s, wins, done, p);
    } else if handler.seen == Completed {
      CompleteIdle(done, p);
      SettledIdle(s, wins, done, p);
    } else {
      InvPayments(done);
      SettledComplete(s, wins, done, p, handler.seen);
    }
  }

  lemma HandlerSaw(s: State, h: HandlerId)
    requires Inv(s) && h in s.handlers
    ensures s.handlers[h].payment in s.payments
    ensures s.handlers[h].seen == Completed ==> s.payments[s.handlers[h].payment].paid
  {
    hide AmountsFrozen, OrdersPaid, DownloadsEntitled, Carts.Valid;
  }

  lemma InvPayments(s: State)
    requires Inv(s)
    ensures PaymentsValid(s)
  {
    hide PaymentsValid, AmountsFrozen, OrdersPaid, DownloadsEntitled, Carts.Valid;
  }

  lemma CompleteIdle(s: State, p: PaymentId)
    ensures Complete(s, p, Completed) == s
  {}

  lemma SettledStep(s: State, wins: set<PaymentId>, t: State, step: Step)
    requires Inv(t) && Settled(s, wins, t) && IsWebhook(step)
    ensures var more := if step.Commit? && step.handler in t.handlers && t.handlers[step.handler].success
                        then {t.handlers[step.handler].payment} else {};
      Settled(s, wins + more, Take(t, step))
  {
    hide Settled, Inv;
    assert wins + {} == wins;
    match step
    case Load(h, p, success, simulated) => SettledSame(s, wins, t, Take(t, step));
    case InvoiceReply(p, created) => SettledSame(s, wins, t, Take(t, step));
    case Commit(h) => if h in t.handlers { SettledCommit(s, wins, t, h); hide CommitHandler; }
  }

  lemma SettledAtStart(s: State)
    ensures Settled(s, {}, s)
  {}

  /** The effect of any webhook traffic is decided by the payments for which a success was reported. */
  lemma {:induction false} WebhooksSettle(s: State, steps: seq<Step>)
    requires Inv(s) && forall step | step in steps :: IsWebhook(step)
    ensures Settled(s, Winners(s, steps), Run(s, steps))
  {
    if steps == [] {
      SettledAtStart(s);
    } else {
      var front, step := steps[..|steps| - 1], steps[|steps| - 1];
      WebhooksSettle(s, front);
      RunInv(s, front);
      CallsMatch(s, front);
      SettledStep(s, Winners(s, front), Run(s, front), step);
    }
    hide Settled, Take, Inv;
  }

  lemma SettledUnique(s: State, wins: set<PaymentId>, t: State, u: State)
    requires Settled(s, wins, t) && Settled(s, wins, u)
    ensures t.orders == u.orders && t.downloads.Keys == u.downloads.Keys
    ensures forall k | k in t.downloads :: t.downloads[k].(order := 0) == u.downloads[k].(order := 0)
  {
    hide PaysOrder, PaysKey;
    forall o | o in t.orders
      ensures t.orders[o] == u.orders[o]
    {
      assert t.orders[o].status == Paid <==> u.orders[o].status == Paid;
    }
  }

  /**
   * Webhook confluence: two schedules with the same successful payments end with the same orders,
   * the same downloads and the same counters, whatever their order, retries and interleaved failures.
   */
  lemma WebhooksConfluent(s: State, steps: seq<Step>, others: seq<Step>)
    requires Inv(s)
    requires forall step | step in steps :: IsWebhook(step)
    requires forall step | step in others :: IsWebhook(step)
    requires Winners(s, steps) == Winners(s, others)
    ensures var t, u := Run(s, steps), Run(s, others);
      && t.orders == u.orders && t.downloads.Keys == u.downloads.Keys
      && forall k | k in t.downloads :: t.downloads[k].(order := 0) == u.downloads[k].(order := 0)
  {
    WebhooksSettle(s, steps);
    WebhooksSettle(s, others);
    SettledUnique(s, Winners(s, steps), Run(s, steps), Run(s, others));
    hide Settled, Run, Winners, Inv;
  }

  /** The order recorded on a shared entitlement is the exception: the first success decides it. */
  lemma GrantingOrderIsFirst(s: State, p: PaymentId, q: PaymentId, k: Key)
    requires Inv(s) && p in s.payments && q in s.payments && k !in s.downloads
    requires k in KeysOf(s.orders[s.payments[p].order]) && k in KeysOf(s.orders[s.payments[q].order])
    ensures var pq := Complete(Complete(s, p, Initiated), q, Initiated);
      var qp := Complete(Complete(s, q, Initiated), p, Initiated);
      && k in pq.downloads && k in qp.downloads
      && (pq.downloads[k].order == qp.downloads[k].order <==> s.payments[p].order == s.payments[q].order)
  {
    hide Carts.Valid, KeysOf, Entitled, PaidFor;
  }

  /** A failure reported after the success changes the payment's status and nothing else. */
  lemma LateFailure(s: State, h: HandlerId)
    requires Inv(s) && h in s.handlers && !s.handlers[h].success && s.payments[s.handlers[h].payment].paid
    ensures var t, p := CommitHandler(s, h), s.handlers[h].payment;
      && t.payments[p] == s.payments[p].(status := Failed)
      && t.orders == s.orders && t.orders[t.payments[p].order].status == Paid
      && t.downloads == s.downloads
  {
    assert PaidFor(s, s.payments[s.handlers[h].payment].order);
    hide Carts.Valid, Entitled;
  }

  /** A failed payment leaves its order pending exactly when no payment of that order was ever completed. */
  lemma FailureKeepsPending(s: State, p: PaymentId)
    requires Inv(s) && p in s.payments
    ensures var o := s.payments[p].order;
      && o in s.orders && Fail(s, p).orders == s.orders && Fail(s, p).payments[p].status == Failed
      && (Fail(s, p).orders[o].status == AwaitingPayment <==> !PaidFor(s, o))
  {
    hide Carts.Valid, DownloadsEntitled, AmountsFrozen, PaidFor;
  }

  /** The failing case is reached: one payment succeeds, and the provider then reports a failure for it. */
  lemma FailureAfterSuccess(s: State, p: PaymentId)
    requires Inv(s) && p in s.payments && s.payments[p].status != Completed
    ensures var t := Fail(Complete(s, p, s.payments[p].status), p);
      t.payments[p].status == Failed && t.payments[p].order in t.orders && t.orders[t.payments[p].order].status == Paid
  {
    hide Carts.Valid, DownloadsEntitled, AmountsFrozen, OrdersPaid, Grant;
  }

  // ----- the link quota -----

  /** The local links issued for k in the course of a run. */
  function LinksIssued(s: State, steps: seq<Step>, k: Key): nat {
    if steps == [] then 0
    else
      var front, step := steps[..|steps| - 1], steps[|steps| - 1];
      LinksIssued(s, front, k) +
      if step.IssueLink? && step.key == k && Issues(Run(s, front), k, step.hasVariant) then 1 else 0
  }

  /** The highest limit ever in force for k. */
  function PeakLimit(steps: seq<Step>, k: Key): nat {
    if steps == [] then DEFAULT_LIMIT
    else
      var before, step := PeakLimit(steps[..|steps| - 1], k), steps[|steps| - 1];
      if step.ExternalSync? && step.key == k && step.limit.Some? && step.limit.value > before
      then step.limit.value else before
  }

  ghost predicate QuotaKept(s: State, k: Key, issued: nat, peak: nat) {
    && (k !in s.downloads ==> issued == 0)
    && (k in s.downloads ==> s.downloads[k].count == issued && issued <= peak && s.downloads[k].limit <= peak)
    && DEFAULT_LIMIT <= peak
  }

  lemma QuotaStep(s: State, step: Step, k: Key, issued: nat, peak: nat)
    requires QuotaKept(s, k, issued, peak)
    ensures var more := if step.IssueLink? && step.key == k && Issues(s, k, step.hasVariant) then 1 else 0;
      var limit := if step.ExternalSync? && step.key == k && step.limit.Some? && step.limit.value > peak
                   then step.limit.value else peak;
      QuotaKept(Take(s, step), k, issued + more, limit)
  {
    hide Checkout, Serve, KeysOf;
  }

  lemma {:induction false} QuotaRun(steps: seq<Step>, k: Key)
    ensures QuotaKept(Run(START, steps), k, LinksIssued(START, steps, k), PeakLimit(steps, k))
  {
    if steps == [] {
    } else {
      var front := steps[..|steps| - 1];
      QuotaRun(front, k);
      QuotaStep(Run(START, front), steps[|steps| - 1], k, LinksIssued(START, front, k), PeakLimit(front, k));
      hide QuotaKept, Take, Issues;
    }
  }

  lemma {:induction false} PeakIsDefault(steps: seq<Step>, k: Key)
    requires forall step | step in steps :: step.ExternalSync? && step.key == k ==> step.limit == None
    ensures PeakLimit(steps, k) == DEFAULT_LIMIT
  {
    if steps == [] {
    } else {
      PeakIsDefault(steps[..|steps| - 1], k);
    }
  }

  /**
   * Over any run, the links issued for an entitlement equal its counter and never exceed the highest
   * limit set; without an external limit they are at most five, however often the asset is bought
   * again and its webhooks are retried.
   */
  lemma LinkQuota(steps: seq<Step>, k: Key)
    ensures var s, n := Run(START, steps), LinksIssued(START, steps, k);
      && n <= PeakLimit(steps, k)
      && (k in s.downloads ==> s.downloads[k].count == n)
    ensures (forall step | step in steps :: step.ExternalSync? && step.key == k ==> step.limit == None) ==>
      LinksIssued(START, steps, k) <= 5
  {
    QuotaRun(steps, k);
    if forall step | step in steps :: step.ExternalSync? && step.key == k ==> step.limit == None {
      PeakIsDefault(steps, k);
    }
    hide Run, LinksIssued, PeakLimit;
  }

  function Repeat(step: Step, n: nat): seq<Step> {
    seq(n, _ => step)
  }

  /**
   * Nothing short of the limit stops a buyer: of n requests for a local link as many are served as
   * downloads remain - five for a fresh entitlement - and none once the provider reports the limit.
   */
  lemma {:induction false} LinksGiven(s: State, k: Key, n: nat)
    requires k in s.downloads && !s.downloads[k].externalLink && s.downloads[k].count <= s.downloads[k].limit
    ensures LinksIssued(s, Repeat(IssueLink(k, true), n), k) == Given(s.downloads[k], n)
    ensures Run(s, Repeat(IssueLink(k, true), n)) == WithCount(s, k, s.downloads[k].count + Given(s.downloads[k], n))
  {
    hide Run, LinksIssued, Issues, Link, WithCount, Repeat;
    if n == 0 {
      NoLinks(s, k);
    } else {
      LinksGiven(s, k, n - 1);
      RepeatSnoc(IssueLink(k, true), n);
      LinkOnce(s, k, Given(s.downloads[k], n - 1));
      LinkSnoc(s, Repeat(IssueLink(k, true), n - 1), k);
    }
  }

  lemma NoLinks(s: State, k: Key)
    requires k in s.downloads
    ensures LinksIssued(s, Repeat(IssueLink(k, true), 0), k) == 0
    ensures Run(s, Repeat(IssueLink(k, true), 0)) == WithCount(s, k, s.downloads[k].count)
  {
    SameEntry(s.downloads, k);
  }

  lemma RepeatSnoc(step: Step, n: nat)
    requires n > 0
    ensures Repeat(step, n) == Repeat(step, n - 1) + [step]
  {}

  lemma LinkSnoc(s: State, steps: seq<Step>, k: Key)
    ensures Run(s, steps + [IssueLink(k, true)]) == Link(Run(s, steps), k, true)
    ensures LinksIssued(s, steps + [IssueLink(k, true)], k) ==
      LinksIssued(s, steps, k) + if Issues(Run(s, steps), k, true) then 1 else 0
  {
    assert (steps + [IssueLink(k, true)])[..|steps|] == steps;
    hide Link, Issues;
  }

  /**
   * What the provider reports decides the next request: none is served once it says that the limit is
   * exceeded, and with a link of its own it is asked instead of the local files. Nothing else is touched.
   */
  lemma ExternalSyncExact(s: State, k: Key, limit: Option<nat>, link: bool, exceeded: bool)
    requires k in s.downloads
    ensures var t := Run(s, [ExternalSync(k, limit, link, exceeded)]);
      var most := if limit.Some? then limit.value else s.downloads[k].limit;
      && k in t.downloads && t.downloads[k].limit == most
      && t.downloads[k].order == s.downloads[k].order && t.downloads[k].count == s.downloads[k].count
      && (t.downloads[k].CanDownload() <==> !exceeded && s.downloads[k].count < most)
      && (Issues(t, k, true) <==> !exceeded && !link && s.downloads[k].count < most)
      && t.downloads - {k} == s.downloads - {k}
      && t == s.(downloads := t.downloads)
  {
    RunOne(s, ExternalSync(k, limit, link, exceeded));
  }

  /** The links that n requests get. */
  function Given(d: Download, n: nat): nat {
    if d.limitExceeded || d.limit < d.count then 0 else if n < d.limit - d.count then n else d.limit - d.count
  }

  function WithCount(s: State, k: Key, count: nat): State
    requires k in s.downloads
  {
    s.(downloads := s.downloads[k := s.downloads[k].(count := count)])
  }

  lemma LinkOnce(s: State, k: Key, given: nat)
    requires k in s.downloads && !s.downloads[k].externalLink
    requires s.downloads[k].count + given <= s.downloads[k].limit
    ensures var d, t := s.downloads[k], WithCount(s, k, s.downloads[k].count + given);
      var more := if !d.limitExceeded && d.count + given < d.limit then 1 else 0;
      && Issues(t, k, true) == (more == 1)
      && Link(t, k, true) == WithCount(s, k, d.count + given + more)
  {}
}
