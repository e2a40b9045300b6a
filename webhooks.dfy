/**
 * Stripe webhook handling (checkout/webhooks.py).
 *
 * Each event names an order in its metadata; the handlers move that order
 * between pending, paid and failed, record the Stripe ids and grant access
 * for paid orders. A paid order is never moved back, and the consistency
 * pass for an already paid order only fills ids that are still empty.
 * Signature verification is an input: the result of constructing the event.
 */
module StripeWebhooks {
  import opened Wrappers
  import opened Text
  import opened OrderModels
  import opened OrderServices

  /**
   * The session (or payment intent) object of an event. A string field that
   * is absent, null or empty is "": the code only tests these for truthiness.
   */
  datatype SessionData = SessionData(
    orderIdMeta: string,
    orderNumberMeta: string,
    id: string,
    paymentIntent: string,
    paymentStatus: string)

  /** The order the metadata names, no order, or the ValueError a non-numeric order_id raises. */
  datatype Lookup = Found(index: nat) | NotFound | Raises

  /** The orders table and the entitlements table. */
  datatype State = State(orders: seq<Order>, ents: Entitlements)

  datatype Outcome = Done(state: State) | Raised

  /** The event types the dispatcher distinguishes. */
  datatype EventKind = CheckoutCompleted | AsyncPaymentSucceeded | CheckoutExpired | PaymentFailed | Ignored

  function KindOf(eventType: string): EventKind {
    if eventType == "checkout.session.completed" then CheckoutCompleted
    else if eventType == "checkout.session.async_payment_succeeded" then AsyncPaymentSucceeded
    else if eventType == "checkout.session.expired" then CheckoutExpired
    else if eventType == "payment_intent.payment_failed" || eventType == "checkout.session.async_payment_failed" then PaymentFailed
    else Ignored
  }

  // ---------------------------------------------------------------------
  // Finding the order
  // ---------------------------------------------------------------------

  /** _get_order_from_metadata: the primary key when order_id is given, else the order number. */
  function OrderFromMetadata(orders: seq<Order>, data: SessionData): (r: Lookup)
    ensures r.Found? ==> r.index < |orders|
    ensures data.orderIdMeta != "" ==>
      && (r.Raises? <==> ParseInt(data.orderIdMeta).None?)
      && (r.Found? ==> ParseInt(data.orderIdMeta) == Some(orders[r.index].id))
      && (r.NotFound? ==> forall i :: 0 <= i < |orders| ==> ParseInt(data.orderIdMeta) != Some(orders[i].id))
    ensures data.orderIdMeta == "" ==>
      && !r.Raises?
      && (r.Found? ==> orders[r.index].orderNumber == data.orderNumberMeta != "")
      && (r.NotFound? ==> data.orderNumberMeta == "" || forall i :: 0 <= i < |orders| ==> orders[i].orderNumber != data.orderNumberMeta)
  {
    if data.orderIdMeta != "" then
      match ParseInt(data.orderIdMeta)
      case None => Raises
      case Some(n) =>
        if n < 0 then NotFound
        else match IndexOfId(orders, n)
          case Some(i) => Found(i)
          case None => NotFound
    else if data.orderNumberMeta != "" then
      match IndexOfNumber(orders, data.orderNumberMeta)
      case Some(i) => Found(i)
      case None => NotFound
    else NotFound
  }

  /** order_id takes precedence: with it present, the order number plays no part. */
  lemma OrderIdFirst(orders: seq<Order>, data: SessionData, otherNumber: string)
    requires data.orderIdMeta != ""
    ensures OrderFromMetadata(orders, data) == OrderFromMetadata(orders, data.(orderNumberMeta := otherNumber))
  {
  }

  // ---------------------------------------------------------------------
  // What a handler does to the order it found
  // ---------------------------------------------------------------------

  /** _mark_order_paid: paid, and the ids the event carries replace the stored ones. */
  function MarkedPaid(o: Order, data: SessionData): Order {
    o.(status := Paid,
       stripePaymentIntentId := if data.paymentIntent != "" then data.paymentIntent else o.stripePaymentIntentId,
       stripeSessionId := if data.id != "" then data.id else o.stripeSessionId)
  }

  /** _ensure_paid_order_consistency: an id is written only where none is stored yet. */
  function FilledIds(o: Order, data: SessionData): (r: Order)
    ensures o.stripePaymentIntentId != "" ==> r.stripePaymentIntentId == o.stripePaymentIntentId
    ensures o.stripeSessionId != "" ==> r.stripeSessionId == o.stripeSessionId
    ensures r.stripePaymentIntentId != "" <==> o.stripePaymentIntentId != "" || data.paymentIntent != ""
    ensures r.stripeSessionId != "" <==> o.stripeSessionId != "" || data.id != ""
    ensures r == o.(stripePaymentIntentId := r.stripePaymentIntentId, stripeSessionId := r.stripeSessionId)
  {
    o.(stripePaymentIntentId := if data.paymentIntent != "" && o.stripePaymentIntentId == "" then data.paymentIntent else o.stripePaymentIntentId,
       stripeSessionId := if data.id != "" && o.stripeSessionId == "" then data.id else o.stripeSessionId)
  }

  /** Completed but not yet paid: only a missing session id is recorded. */
  function SessionFilled(o: Order, sessionId: string): (r: Order)
    ensures r == o.(stripeSessionId := r.stripeSessionId)
    ensures o.stripeSessionId != "" ==> r == o
    ensures r.stripeSessionId != "" <==> o.stripeSessionId != "" || sessionId != ""
  {
    if sessionId != "" && o.stripeSessionId == "" then o.(stripeSessionId := sessionId) else o
  }

  /** _handle_checkout_expired: a paid order is left alone; any other becomes failed. */
  function Expired(o: Order, sessionId: string): (r: Order)
    ensures o.status == Paid ==> r == o
    ensures o.status != Paid ==> r == SessionFilled(o, sessionId).(status := Failed)
  {
    if o.status == Paid then o
    else o.(status := Failed, stripeSessionId := if sessionId != "" && o.stripeSessionId == "" then sessionId else o.stripeSessionId)
  }

  /** _handle_payment_failed: a paid order is left alone; any other becomes failed. */
  function PaymentFailedOrder(o: Order): (r: Order)
    ensures o.status == Paid ==> r == o
    ensures o.status != Paid ==> r == o.(status := Failed)
  {
    if o.status == Paid then o else o.(status := Failed)
  }

  /** The entitlements after grant_entitlements_for_order(order) with the order's own user. */
  function Granted(ents: Entitlements, o: Order): Entitlements {
    if o.user.Some? then GrantAll(ents, o.user.value, o.id, LineProducts(o.lines)) else ents
  }

  /** The order a handler writes back for the order it found, and whether it grants access. */
  function OnOrder(kind: EventKind, o: Order, data: SessionData): (Order, bool) {
    match kind
    case CheckoutCompleted =>
      if o.status == Paid then (FilledIds(o, data), true)
      else if data.paymentStatus != "paid" then (SessionFilled(o, data.id), false)
      else (MarkedPaid(o, data), true)
    case AsyncPaymentSucceeded =>
      if o.status == Paid then (FilledIds(o, data), true)
      else if data.paymentStatus == "paid" then (MarkedPaid(o, data), true)
      else (o, false)
    case CheckoutExpired => (Expired(o, data.id), false)
    case PaymentFailed => (PaymentFailedOrder(o), false)
    case Ignored => (o, false)
  }

  /** The effect of one event on the tables: unknown types and unknown orders change nothing. */
  function Apply(kind: EventKind, s: State, data: SessionData): Outcome {
    if kind == Ignored then Done(s)
    else
      match OrderFromMetadata(s.orders, data)
      case Raises => Raised
      case NotFound => Done(s)
      case Found(i) =>
        var (o, grant) := OnOrder(kind, s.orders[i], data);
        Done(State(s.orders[i := o], if grant then Granted(s.ents, o) else s.ents))
  }

  // ---------------------------------------------------------------------
  // Properties of the handlers
  // ---------------------------------------------------------------------

  /** A handler keeps the order's key, number, owner and line items. */
  lemma OnOrderKeepsIdentity(kind: EventKind, o: Order, data: SessionData)
    ensures var r := OnOrder(kind, o, data).0;
      r.id == o.id && r.orderNumber == o.orderNumber && r.user == o.user && r.lines == o.lines
      && r.totalCents == o.totalCents && r.createdAt == o.createdAt
  {
  }

  /** No event moves a paid order out of paid, or overwrites a Stripe id it has stored. */
  lemma PaidNeverDowngraded(kind: EventKind, s: State, data: SessionData, j: nat)
    requires Apply(kind, s, data).Done? && j < |s.orders| && s.orders[j].status == Paid
    ensures var s2 := Apply(kind, s, data).state;
      && |s2.orders| == |s.orders| && s2.orders[j].status == Paid
      && (s.orders[j].stripeSessionId != "" ==> s2.orders[j].stripeSessionId == s.orders[j].stripeSessionId)
      && (s.orders[j].stripePaymentIntentId != "" ==> s2.orders[j].stripePaymentIntentId == s.orders[j].stripePaymentIntentId)
  {
  }

  /** Expiry and payment failure leave every table unchanged when the order is already paid. */
  lemma FailureEventsIgnorePaid(kind: EventKind, s: State, data: SessionData)
    requires kind == CheckoutExpired || kind == PaymentFailed
    requires OrderFromMetadata(s.orders, data).Found?
    requires s.orders[OrderFromMetadata(s.orders, data).index].status == Paid
    ensures Apply(kind, s, data) == Done(s)
  {
    var i := OrderFromMetadata(s.orders, data).index;
    assert s.orders[i := s.orders[i]] == s.orders;
  }

  /**
   * checkout.session.completed for an unpaid order: it becomes paid exactly
   * when payment_status is "paid"; otherwise only a missing session id is
   * filled and no access is granted.
   */
  lemma CompletedNeedsPayment(s: State, data: SessionData)
    requires OrderFromMetadata(s.orders, data).Found?
    requires s.orders[OrderFromMetadata(s.orders, data).index].status != Paid
    ensures var i := OrderFromMetadata(s.orders, data).index;
      var s2 := Apply(CheckoutCompleted, s, data).state;
      && Apply(CheckoutCompleted, s, data).Done?
      && (s2.orders[i].status == Paid <==> data.paymentStatus == "paid")
      && (data.paymentStatus != "paid" ==>
            s2.ents == s.ents && s2.orders == s.orders[i := SessionFilled(s.orders[i], data.id)])
  {
  }

  /** Expiry of an unpaid order: failed, with the session id filled only if it was missing. */
  lemma ExpiryFails(s: State, data: SessionData)
    requires OrderFromMetadata(s.orders, data).Found?
    requires s.orders[OrderFromMetadata(s.orders, data).index].status != Paid
    ensures var i := OrderFromMetadata(s.orders, data).index;
      var o := s.orders[i];
      var s2 := Apply(CheckoutExpired, s, data).state;
      && Apply(CheckoutExpired, s, data).Done?
      && s2.ents == s.ents
      && s2.orders[i].status == Failed
      && s2.orders[i].stripeSessionId == (if o.stripeSessionId == "" then data.id else o.stripeSessionId)
      && s2.orders == s.orders[i := s2.orders[i]]
  {
  }

  /** Granting twice for the same order is granting once. */
  lemma GrantedIdempotent(ents: Entitlements, o: Order)
    ensures Granted(Granted(ents, o), o) == Granted(ents, o)
  {
    if o.user.Some? {
      GrantIdempotent(ents, o.user.value, o.id, LineProducts(o.lines));
    }
  }

  /** Replaying a handler on the order it produced writes the same order and grants nothing new. */
  lemma OnOrderReplay(kind: EventKind, o: Order, data: SessionData)
    ensures var (o2, g) := OnOrder(kind, o, data);
      OnOrder(kind, o2, data).0 == o2 && (OnOrder(kind, o2, data).1 ==> g)
  {
  }

  /**
   * Delivering the same event twice has the effect of delivering it once:
   * in particular a replayed completed event leaves a paid order paid and
   * adds no entitlement.
   */
  lemma ReplayIsNoop(kind: EventKind, s: State, data: SessionData)
    requires Apply(kind, s, data).Done?
    ensures Apply(kind, Apply(kind, s, data).state, data) == Apply(kind, s, data)
  {
    if kind != Ignored && OrderFromMetadata(s.orders, data).Found? {
      var i := OrderFromMetadata(s.orders, data).index;
      var (o2, g) := OnOrder(kind, s.orders[i], data);
      var s1 := Apply(kind, s, data).state;
      OnOrderKeepsIdentity(kind, s.orders[i], data);
      var n := ParseInt(data.orderIdMeta);
      LookupsAfterReplace(s.orders, i, o2, if n.Some? && n.value >= 0 then n.value else 0, data.orderNumberMeta);
      assert OrderFromMetadata(s1.orders, data) == Found(i);
      OnOrderReplay(kind, s.orders[i], data);
      assert s1.orders[i := o2] == s1.orders;
      if g {
        GrantedIdempotent(s.ents, o2);
      }
    }
  }

  /** Entitlements are never removed, and one already linked to an order keeps its link. */
  lemma EntitlementsOnlyGrow(kind: EventKind, s: State, data: SessionData)
    requires Apply(kind, s, data).Done?
    ensures var e2 := Apply(kind, s, data).state.ents;
      forall k :: k in s.ents ==> k in e2 && (s.ents[k].Some? ==> e2[k] == s.ents[k])
  {
    if kind != Ignored && OrderFromMetadata(s.orders, data).Found? {
      var i := OrderFromMetadata(s.orders, data).index;
      var o2 := OnOrder(kind, s.orders[i], data).0;
      if o2.user.Some? {
        GrantAllSpec(s.ents, o2.user.value, o2.id, LineProducts(o2.lines));
      }
    }
  }

  // ---------------------------------------------------------------------
  // The endpoint
  // ---------------------------------------------------------------------

  /** stripe.Webhook.construct_event: the event, or the error it raised. */
  datatype Construct = Parsed(eventType: string, data: SessionData) | InvalidPayload | InvalidSignature

  /** stripe_webhook: the status code and the tables afterwards. */
  function WebhookResponse(httpMethod: string, secretKey: string, webhookSecret: string,
                           signature: string, event: Construct, s: State): (r: (int, State))
    ensures r.0 in {200, 400, 405, 500}
    ensures r.0 != 200 ==> r.1 == s
    ensures httpMethod != "POST" ==> r.0 == 405
    ensures httpMethod == "POST" && (secretKey == "" || webhookSecret == "") ==> r.0 == 500
    ensures r.0 == 400 <==> httpMethod == "POST" && secretKey != "" && webhookSecret != ""
                            && (signature == "" || !event.Parsed?)
    ensures r.0 == 200 ==> event.Parsed? && Apply(KindOf(event.eventType), s, event.data) == Done(r.1)
  {
    if httpMethod != "POST" then (405, s)
    else if secretKey == "" then (500, s)
    else if webhookSecret == "" then (500, s)
    else if signature == "" then (400, s)
    else match event
      case InvalidPayload => (400, s)
      case InvalidSignature => (400, s)
      case Parsed(eventType, data) =>
        match Apply(KindOf(eventType), s, data)
        case Raised => (500, s)
        case Done(s2) => (200, s2)
  }

  /** An event of a type the endpoint does not handle is acknowledged and changes nothing. */
  lemma UnknownEventAcknowledged(secretKey: string, webhookSecret: string, signature: string,
                                 eventType: string, data: SessionData, s: State)
    requires secretKey != "" && webhookSecret != "" && signature != "" && KindOf(eventType) == Ignored
    ensures WebhookResponse("POST", secretKey, webhookSecret, signature, Parsed(eventType, data), s) == (200, s)
  {
  }

  /** An event naming no known order is acknowledged and changes nothing. */
  lemma UnknownOrderAcknowledged(secretKey: string, webhookSecret: string, signature: string,
                                 eventType: string, data: SessionData, s: State)
    requires secretKey != "" && webhookSecret != "" && signature != ""
    requires OrderFromMetadata(s.orders, data).NotFound?
    ensures WebhookResponse("POST", secretKey, webhookSecret, signature, Parsed(eventType, data), s) == (200, s)
  {
  }

  // ---------------------------------------------------------------------
  // The handlers, on the store
  // ---------------------------------------------------------------------

  /** _mark_order_paid on the order at position i. */
  method MarkOrderPaid(store: OrderStore, i: nat, data: SessionData)
    requires store.Valid() && i < |store.orders|
    modifies store`orders, store`entitlements
    ensures store.Valid()
    ensures var o := MarkedPaid(old(store.orders[i]), data);
      store.orders == old(store.orders)[i := o] && store.entitlements == Granted(old(store.entitlements), o)
  {
    var order := store.orders[i];
    order := order.(status := Paid);
    if data.paymentIntent != "" {
      order := order.(stripePaymentIntentId := data.paymentIntent);
    }
    if data.id != "" {
      order := order.(stripeSessionId := data.id);
    }
    store.SaveOrderAt(i, order);
    var _ := GrantEntitlementsForOrder(store, i, None);
  }

  /** _ensure_paid_order_consistency on the order at position i. */
  method EnsurePaidOrderConsistency(store: OrderStore, i: nat, data: SessionData)
    requires store.Valid() && i < |store.orders|
    modifies store`orders, store`entitlements
    ensures store.Valid()
    ensures var o := FilledIds(old(store.orders[i]), data);
      store.orders == old(store.orders)[i := o] && store.entitlements == Granted(old(store.entitlements), o)
  {
    var order := store.orders[i];
    var updatedFields: seq<string> := [];
    if data.paymentIntent != "" && order.stripePaymentIntentId == "" {
      order := order.(stripePaymentIntentId := data.paymentIntent);
      updatedFields := updatedFields + ["stripe_payment_intent_id"];
    }
    if data.id != "" && order.stripeSessionId == "" {
      order := order.(stripeSessionId := data.id);
      updatedFields := updatedFields + ["stripe_session_id"];
    }
    if updatedFields != [] {
      updatedFields := updatedFields + ["updated_at"];
      store.SaveOrderAt(i, order);
    } else {
      assert store.orders[i := order] == store.orders;
    }
    var _ := GrantEntitlementsForOrder(store, i, None);
  }

  /** Completed, not yet paid: record a missing session id. */
  method FillSessionId(store: OrderStore, i: nat, sessionId: string)
    requires store.Valid() && i < |store.orders|
    modifies store`orders
    ensures store.Valid()
    ensures store.orders == old(store.orders)[i := SessionFilled(old(store.orders[i]), sessionId)]
  {
    if sessionId != "" {
      var locked := store.orders[i];
      if locked.stripeSessionId == "" {
        store.SaveOrderAt(i, locked.(stripeSessionId := sessionId));
        return;
      }
    }
    assert store.orders[i := store.orders[i]] == store.orders;
  }

  /** The handler for `kind` on the store; `raised` reports the exception the lookup raised. */
  method HandleEvent(store: OrderStore, kind: EventKind, data: SessionData) returns (raised: bool)
    requires store.Valid()
    modifies store`orders, store`entitlements
    ensures store.Valid()
    ensures var out := Apply(kind, old(State(store.orders, store.entitlements)), data);
      && (raised <==> out.Raised?)
      && (raised ==> store.orders == old(store.orders) && store.entitlements == old(store.entitlements))
      && (!raised ==> State(store.orders, store.entitlements) == out.state)
  {
    if kind == Ignored {
      return false;
    }
    var lookup := OrderFromMetadata(store.orders, data);
    match lookup {
      case Raises => return true;
      case NotFound => return false;
      case Found(i) =>
        var order := store.orders[i];
        raised := false;
        match kind {
          case CheckoutCompleted =>
            if order.status == Paid {
              EnsurePaidOrderConsistency(store, i, data);
            } else if data.paymentStatus != "paid" {
              FillSessionId(store, i, data.id);
            } else {
              MarkOrderPaid(store, i, data);
            }
          case AsyncPaymentSucceeded =>
            if order.status == Paid {
              EnsurePaidOrderConsistency(store, i, data);
            } else if data.paymentStatus == "paid" {
              MarkOrderPaid(store, i, data);
            } else {
              assert store.orders[i := order] == store.orders;
            }
          case CheckoutExpired =>
            if order.status == Paid {
              assert store.orders[i := order] == store.orders;
            } else {
              var locked := order.(status := Failed);
              if data.id != "" && locked.stripeSessionId == "" {
                locked := locked.(stripeSessionId := data.id);
              }
              store.SaveOrderAt(i, locked);
            }
          case PaymentFailed =>
            if order.status == Paid {
              assert store.orders[i := order] == store.orders;
            } else {
              store.SaveOrderAt(i, order.(status := Failed));
            }
        }
    }
  }

  /** stripe_webhook on the store: the status code of WebhookResponse and its new tables. */
  method StripeWebhook(store: OrderStore, httpMethod: string, secretKey: string, webhookSecret: string,
                       signature: string, event: Construct) returns (status: int)
    requires store.Valid()
    modifies store`orders, store`entitlements
    ensures store.Valid()
    ensures var r := WebhookResponse(httpMethod, secretKey, webhookSecret, signature, event,
                                     old(State(store.orders, store.entitlements)));
      status == r.0 && State(store.orders, store.entitlements) == r.1
  {
    if httpMethod != "POST" {
      return 405;
    }
    if secretKey == "" {
      return 500;
    }
    if webhookSecret == "" {
      return 500;
    }
    if signature == "" {
      return 400;
    }
    match event {
      case InvalidPayload => return 400;
      case InvalidSignature => return 400;
      case Parsed(eventType, data) =>
        var raised := HandleEvent(store, KindOf(eventType), data);
        if raised {
          // The lookup raises before any write, so nothing has changed.
          return 500;
        }
        return 200;
    }
  }
}
