/**
 * Checkout views (checkout/views.py): pruning purchased products from the
 * session cart, reusing or failing a recent pending order, building the
 * order and the Stripe line items, and the success and cancel pages.
 *
 * Stripe calls are inputs: the session Stripe returns when asked to
 * retrieve one, and the session (or failure) it returns when asked to
 * create one. Flash messages and rendering are reduced to a response tag.
 * Times are seconds.
 */
module CheckoutViews {
  import opened Wrappers
  import opened Text
  import opened ProductModels
  import opened SessionCart
  import opened OrderModels
  import StripeWebhooks
  import OrderServices

  /** What stripe.checkout.Session.retrieve gave: a StripeError, or the session's fields. */
  datatype RetrievedSession = RetrieveFailed | Retrieved(status: string, paymentStatus: string, url: string, paymentIntent: string)

  /** What stripe.checkout.Session.create gave: an exception, or the new session's id and url. */
  datatype CreatedSession = CreateFailed | Created(id: string, url: string)

  /** One entry of the line_items sent to Stripe. */
  datatype StripeLine = StripeLine(currency: string, name: string, unitAmount: int, quantity: int)

  /** The responses of the checkout views. */
  datatype Response =
    | MethodNotAllowed
    | RedirectCart
    | RedirectTo(url: string)
    | RedirectSuccess(orderNumber: string)
    | ServerError
    | RenderSuccess(orderIndex: nat)
    | RedirectProductList
    | RenderCancel

  const ReuseWindowMinutes: int := 15
  const CancelWindowMinutes: int := 30

  // ---------------------------------------------------------------------
  // _remove_purchased_from_session_cart
  // ---------------------------------------------------------------------

  /** The cart keys str(pid) of the given product ids. */
  function KeysOf(productIds: seq<int>): (r: set<string>)
    ensures forall pid :: pid in productIds ==> CartKey(pid) in r
  {
    if productIds == [] then {}
    else KeysOf(productIds[..|productIds| - 1]) + {CartKey(productIds[|productIds| - 1])}
  }

  lemma KeysOfSnoc(productIds: seq<int>, i: nat)
    requires i < |productIds|
    ensures KeysOf(productIds[..i + 1]) == KeysOf(productIds[..i]) + {CartKey(productIds[i])}
  {
    assert productIds[..i + 1][..i] == productIds[..i];
  }

  /** The loop of the pruning on the cart dict: pop str(pid) for each id, counting the pops that found a key. */
  method PruneKeys(d: Dict, productIds: seq<int>) returns (kept: Dict, removed: nat)
    requires DistinctKeys(d)
    ensures kept == FilterOutKeys(d, KeysOf(productIds))
    ensures removed + |kept| == |d|
  {
    kept := d;
    FilterOutNothing(d);
    assert KeysOf(productIds[..0]) == {};
    removed := 0;
    var i := 0;
    while i < |productIds|
      invariant 0 <= i <= |productIds|
      invariant kept == FilterOutKeys(d, KeysOf(productIds[..i]))
      invariant removed + |kept| == |d|
    {
      var key := CartKey(productIds[i]);
      ghost var gone := KeysOf(productIds[..i]);
      DelItemFilterOut(d, gone, key);
      KeysOfSnoc(productIds, i);
      ghost var next := FilterOutKeys(d, gone + {key});
      if key in Keys(kept) {
        DelItemPresentLength(kept, key);
        kept := DelItem(kept, key);
        removed := removed + 1;
      } else {
        DelAbsent(kept, key);
      }
      assert kept == next;
      i := i + 1;
    }
    assert productIds[..|productIds|] == productIds;
  }

  /**
   * Pops str(pid) for each purchased id present in the session cart and
   * returns how many entries went; the session is marked modified only when
   * something was removed. An absent or empty cart returns 0.
   */
  method RemovePurchasedFromSessionCart(session: Session, productIds: seq<int>) returns (removed: nat)
    requires DistinctKeys(session.CartOrEmpty())
    modifies session
    ensures var d := old(session.CartOrEmpty());
      && (d == [] ==> removed == 0 && session.cart == old(session.cart) && session.modified == old(session.modified))
      && (d != [] ==> var kept := FilterOutKeys(d, KeysOf(productIds));
            && session.cart == Some(kept)
            && removed + |kept| == |d|
            && session.modified == (old(session.modified) || removed > 0))
  {
    if session.cart.None? || session.cart.value == [] {
      return 0;
    }
    var kept;
    kept, removed := PruneKeys(session.cart.value, productIds);
    // The pops changed the session's own dict.
    session.cart := Some(kept);
    if removed > 0 {
      session.modified := true;
    }
  }

  // ---------------------------------------------------------------------
  // Recent pending orders
  // ---------------------------------------------------------------------

  /** The filter of _get_recent_pending_order / _fail_recent_pending_order. */
  predicate Eligible(o: Order, user: nat, cutoff: int) {
    o.user == Some(user) && o.status == Pending && o.stripeSessionId != "" && o.createdAt >= cutoff
  }

  /** ... .order_by("-created_at").first(): an eligible order created no earlier than any other. */
  function RecentPending(orders: seq<Order>, user: nat, cutoff: int): (r: Option<nat>)
    ensures r.Some? ==> r.value < |orders| && Eligible(orders[r.value], user, cutoff)
    ensures r.Some? ==> forall j :: 0 <= j < |orders| && Eligible(orders[j], user, cutoff) ==>
      orders[j].createdAt <= orders[r.value].createdAt
    ensures r.None? <==> forall j :: 0 <= j < |orders| ==> !Eligible(orders[j], user, cutoff)
  {
    if orders == [] then None
    else
      var n := |orders| - 1;
      var rest := RecentPending(orders[..n], user, cutoff);
      assert forall j :: 0 <= j < n ==> orders[..n][j] == orders[j];
      if Eligible(orders[n], user, cutoff) && (rest.None? || orders[rest.value].createdAt <= orders[n].createdAt)
      then Some(n)
      else rest
  }

  /** The cutoff of a window of `minutes` ending now. */
  function Cutoff(now: int, minutes: int): int { now - minutes * 60 }

  /** An order created before the cutoff is never picked, whatever its state. */
  lemma OldOrdersNeverPicked(orders: seq<Order>, user: nat, now: int, minutes: int, j: nat)
    requires j < |orders| && orders[j].createdAt < Cutoff(now, minutes)
    ensures RecentPending(orders, user, Cutoff(now, minutes)) != Some(j)
  {
  }

  // ---------------------------------------------------------------------
  // _try_reuse_stripe_session and _fail_recent_pending_order
  // ---------------------------------------------------------------------

  /**
   * The response (if the session can be reused) and the order afterwards:
   * paid goes to the success page, an open session with a url is reused,
   * an expired or complete one fails the order.
   */
  function ReuseDecision(o: Order, s: RetrievedSession): (r: (Option<Response>, Order))
    ensures r.0.Some? ==> r.1 == o
    ensures r.1 != o ==> r.1 == o.(status := Failed) && r.0.None?
    ensures s.RetrieveFailed? ==> r == (None, o)
  {
    match s
    case RetrieveFailed => (None, o)
    case Retrieved(status, paymentStatus, url, _) =>
      if paymentStatus == "paid" then (Some(RedirectSuccess(o.orderNumber)), o)
      else if status == "open" && url != "" then (Some(RedirectTo(url)), o)
      else if status == "expired" || status == "complete" then (None, o.(status := Failed))
      else (None, o)
  }

  /** A session Stripe reports paid is never failed, and never reused as open. */
  lemma PaidSessionGoesToSuccess(o: Order, status: string, url: string, pi: string)
    ensures ReuseDecision(o, Retrieved(status, "paid", url, pi)) == (Some(RedirectSuccess(o.orderNumber)), o)
  {
  }

  /** An expired or completed, unpaid session fails the order and checkout goes on. */
  lemma DeadSessionFailsOrder(o: Order, status: string, paymentStatus: string, url: string, pi: string)
    requires status == "expired" || status == "complete"
    requires paymentStatus != "paid"
    ensures ReuseDecision(o, Retrieved(status, paymentStatus, url, pi)) == (None, o.(status := Failed))
  {
  }

  method TryReuseStripeSession(store: OrderStore, i: nat, s: RetrievedSession) returns (resp: Option<Response>)
    requires store.Valid() && i < |store.orders|
    modifies store`orders
    ensures store.Valid()
    ensures var r := ReuseDecision(old(store.orders[i]), s);
      resp == r.0 && store.orders == old(store.orders)[i := r.1]
  {
    var order := store.orders[i];
    match s {
      case RetrieveFailed =>
        assert store.orders[i := order] == store.orders;
        return None;
      case Retrieved(status, paymentStatus, url, _) =>
        if paymentStatus == "paid" {
          assert store.orders[i := order] == store.orders;
          return Some(RedirectSuccess(order.orderNumber));
        }
        if status == "open" && url != "" {
          assert store.orders[i := order] == store.orders;
          return Some(RedirectTo(url));
        }
        if status == "expired" || status == "complete" {
          store.SaveOrderAt(i, order.(status := Failed));
        } else {
          assert store.orders[i := order] == store.orders;
        }
        return None;
    }
  }

  /** Whether the reuse step answers the request itself: the recent pending order's session is paid or still open. */
  predicate Reuses(orders: seq<Order>, user: nat, now: int, s: RetrievedSession) {
    match RecentPending(orders, user, Cutoff(now, ReuseWindowMinutes))
    case None => false
    case Some(i) => i < |orders| && ReuseDecision(orders[i], s).0.Some?
  }

  /** The reuse step of checkout: the recent pending order (15 minutes), if any, and what Stripe says of it. */
  method ReuseRecentSession(store: OrderStore, user: nat, now: int, s: RetrievedSession) returns (resp: Option<Response>)
    requires store.Valid()
    modifies store`orders
    ensures store.Valid()
    ensures resp.Some? <==> Reuses(old(store.orders), user, now, s)
    ensures match RecentPending(old(store.orders), user, Cutoff(now, ReuseWindowMinutes))
      case None => resp.None? && store.orders == old(store.orders)
      case Some(i) =>
        var r := ReuseDecision(old(store.orders[i]), s);
        resp == r.0 && store.orders == old(store.orders)[i := r.1]
  {
    var recent := RecentPending(store.orders, user, Cutoff(now, ReuseWindowMinutes));
    if recent.None? {
      return None;
    }
    resp := TryReuseStripeSession(store, recent.value, s);
  }

  /** _fail_recent_pending_order: the recent pending order (30 minutes), if any, becomes failed. */
  method FailRecentPendingOrder(store: OrderStore, user: nat, now: int) returns (failed: Option<nat>)
    requires store.Valid()
    modifies store`orders
    ensures store.Valid()
    ensures failed == RecentPending(old(store.orders), user, Cutoff(now, CancelWindowMinutes))
    ensures failed.None? ==> store.orders == old(store.orders)
    ensures failed.Some? ==> store.orders == old(store.orders)[failed.value := old(store.orders[failed.value]).(status := Failed)]
  {
    failed := RecentPending(store.orders, user, Cutoff(now, CancelWindowMinutes));
    if failed.Some? {
      var order := store.orders[failed.value];
      store.SaveOrderAt(failed.value, order.(status := Failed));
    }
  }

  // ---------------------------------------------------------------------
  // Which products checkout orders
  // ---------------------------------------------------------------------

  /** The product ids of the cart lines, in cart order. */
  function CartPks(lines: seq<CartLine>): (r: seq<nat>)
    ensures |r| == |lines| && forall i :: 0 <= i < |lines| ==> r[i] == lines[i].product.pk
  {
    if lines == [] then [] else [lines[0].product.pk] + CartPks(lines[1..])
  }

  /** purchased_ids: the listed products the user already has an entitlement for. */
  function OwnedPks(ents: Entitlements, user: nat, pks: seq<nat>): (r: seq<nat>)
    ensures forall pk :: pk in r <==> pk in pks && (user, pk) in ents
  {
    if pks == [] then []
    else (if (user, pks[0]) in ents then [pks[0]] else []) + OwnedPks(ents, user, pks[1..])
  }

  /** cart_products with the purchased ones dropped. */
  function UnownedPks(ents: Entitlements, user: nat, pks: seq<nat>): (r: seq<nat>)
    ensures forall pk :: pk in r <==> pk in pks && (user, pk) !in ents
  {
    if pks == [] then []
    else (if (user, pks[0]) !in ents then [pks[0]] else []) + UnownedPks(ents, user, pks[1..])
  }

  /** Product's Meta.ordering ["-created_at"]: the listed products newest first. */
  predicate NewestFirst(products: map<nat, Product>, pks: seq<nat>)
    requires forall x :: x in pks ==> x in products
  {
    forall i, j :: 0 <= i < j < |pks| ==> products[pks[i]].createdAt >= products[pks[j]].createdAt
  }

  /** `pk` placed among `pks` at its newest-first position. */
  function InsertNewest(products: map<nat, Product>, pks: seq<nat>, pk: nat): (r: seq<nat>)
    requires pk in products && forall x :: x in pks ==> x in products
    ensures multiset(r) == multiset(pks) + multiset{pk}
  {
    if pks == [] || products[pk].createdAt >= products[pks[0]].createdAt then [pk] + pks
    else
      assert pks == [pks[0]] + pks[1..];
      [pks[0]] + InsertNewest(products, pks[1..], pk)
  }

  /** A pk listed before every pk of a newest-first, repetition-free list may head it. */
  lemma ConsNewest(products: map<nat, Product>, h: nat, t: seq<nat>)
    requires h in products && forall x :: x in t ==> x in products
    requires NewestFirst(products, t) && Distinct(t) && h !in t
    requires forall x :: x in t ==> products[h].createdAt >= products[x].createdAt
    ensures NewestFirst(products, [h] + t) && Distinct([h] + t)
  {
    var r := [h] + t;
    forall i, j | 0 <= i < j < |r|
      ensures products[r[i]].createdAt >= products[r[j]].createdAt && r[i] != r[j]
    {
      assert r[j] == t[j - 1];
      if i > 0 {
        assert r[i] == t[i - 1];
      }
    }
  }

  /** The inserted list holds the list's pks and `pk`, and nothing else. */
  lemma InsertNewestMembers(products: map<nat, Product>, pks: seq<nat>, pk: nat)
    requires pk in products && forall x :: x in pks ==> x in products
    ensures forall x :: x in InsertNewest(products, pks, pk) <==> x in pks || x == pk
  {
    var r := InsertNewest(products, pks, pk);
    assert forall x :: x in r <==> x in multiset(r);
    assert forall x :: x in pks <==> x in multiset(pks);
  }

  /** The head of a newest-first, repetition-free list is newer than, and differs from, every later pk, and the rest keeps both properties. */
  lemma NewestHead(products: map<nat, Product>, pks: seq<nat>)
    requires pks != [] && forall x :: x in pks ==> x in products
    requires NewestFirst(products, pks) && Distinct(pks)
    ensures forall x :: x in pks[1..] ==> products[pks[0]].createdAt >= products[x].createdAt && x != pks[0]
    ensures NewestFirst(products, pks[1..]) && Distinct(pks[1..])
  {
    var tail := pks[1..];
    forall x | x in tail
      ensures products[pks[0]].createdAt >= products[x].createdAt && x != pks[0]
    {
      var j :| 0 <= j < |tail| && tail[j] == x;
      assert pks[j + 1] == x;
    }
    forall i, j | 0 <= i < j < |tail|
      ensures products[tail[i]].createdAt >= products[tail[j]].createdAt && tail[i] != tail[j]
    {
      assert tail[i] == pks[i + 1] && tail[j] == pks[j + 1];
    }
  }

  /** A pk at least as new as the head of a newest-first list may head it. */
  lemma NewestAhead(products: map<nat, Product>, pk: nat, pks: seq<nat>)
    requires pk in products && forall x :: x in pks ==> x in products
    requires NewestFirst(products, pks) && Distinct(pks) && pk !in pks
    requires pks != [] ==> products[pk].createdAt >= products[pks[0]].createdAt
    ensures NewestFirst(products, [pk] + pks) && Distinct([pk] + pks)
  {
    forall x | x in pks
      ensures products[pk].createdAt >= products[x].createdAt
    {
      var j :| 0 <= j < |pks| && pks[j] == x;
      assert products[pks[0]].createdAt >= products[pks[j]].createdAt;
    }
    ConsNewest(products, pk, pks);
  }

  /** Inserting a new pk keeps a list newest first and free of repetitions, and adds exactly that pk. */
  lemma {:induction false} InsertNewestSpec(products: map<nat, Product>, pks: seq<nat>, pk: nat)
    requires pk in products && forall x :: x in pks ==> x in products
    requires NewestFirst(products, pks) && Distinct(pks) && pk !in pks
    ensures var r := InsertNewest(products, pks, pk);
      && (forall x :: x in r <==> x in pks || x == pk)
      && NewestFirst(products, r) && Distinct(r)
  {
    InsertNewestMembers(products, pks, pk);
    if pks == [] || products[pk].createdAt >= products[pks[0]].createdAt {
      NewestAhead(products, pk, pks);
    } else {
      NewestHead(products, pks);
      var rest := InsertNewest(products, pks[1..], pk);
      InsertNewestSpec(products, pks[1..], pk);
      forall x | x in rest
        ensures x in products && products[pks[0]].createdAt >= products[x].createdAt && x != pks[0]
      {
        if x != pk {
          assert x in pks[1..];
        }
      }
      ConsNewest(products, pks[0], rest);
    }
  }

  /**
   * Product.objects.filter(pk__in=..., is_active=True): each existing active
   * product once, newest first by the model's default ordering (products
   * created at the same instant come in an order the database leaves open).
   */
  function ValidPks(products: map<nat, Product>, pks: seq<nat>): (r: seq<nat>)
    ensures forall pk :: pk in r <==> pk in pks && pk in products && products[pk].isActive
    ensures forall i, j :: 0 <= i < j < |r| ==> r[i] != r[j]
    ensures (forall pk :: pk in r ==> pk in products) && NewestFirst(products, r)
  {
    if pks == [] then []
    else
      var n := |pks| - 1;
      var rest := ValidPks(products, pks[..n]);
      assert forall pk :: pk in pks <==> pk in pks[..n] || pk == pks[n] by {
        assert pks == pks[..n] + [pks[n]];
      }
      if pks[n] in products && products[pks[n]].isActive && pks[n] !in rest then
        InsertNewestSpec(products, rest, pks[n]);
        InsertNewest(products, rest, pks[n])
      else rest
  }

  /** Where checkout's cart checks end: before any order exists, or with the products to order. */
  datatype Plan = CartCrash | EmptyCart | AllOwned | NoneValid | Proceed(valid: seq<nat>)

  /** The checks on the cart lines get_cart_items returned. */
  function PlanFromLines(lines: seq<CartLine>, products: map<nat, Product>, ents: Entitlements, user: nat): Plan {
    if lines == [] then EmptyCart
    else
      var rest := UnownedPks(ents, user, CartPks(lines));
      if rest == [] then AllOwned
      else
        var valid := ValidPks(products, rest);
        if valid == [] then NoneValid else Proceed(valid)
  }

  /** checkout/views.py:131-164 on the cart dict. */
  function PlanCheckout(d: Dict, products: map<nat, Product>, ents: Entitlements, user: nat): Plan {
    match CartLines(d, products)
    case None => CartCrash
    case Some(lines) => PlanFromLines(lines, products, ents, user)
  }

  /** The session cart after the checks on `lines`, the cart lines of the dict `d`. */
  function CartAfterLines(d: Dict, lines: seq<CartLine>, products: map<nat, Product>, ents: Entitlements, user: nat): Dict {
    match PlanFromLines(lines, products, ents, user)
    case AllOwned => []
    case NoneValid => []
    case Proceed(_) => FilterOutKeys(d, KeysOf(OwnedPks(ents, user, CartPks(lines))))
    case _ => d
  }

  /** The session cart after checkout's cart checks: purchased entries pruned, or emptied when nothing is orderable. */
  function CartAfterPlan(d: Dict, products: map<nat, Product>, ents: Entitlements, user: nat): Dict {
    match CartLines(d, products)
    case None => d
    case Some(lines) => CartAfterLines(d, lines, products, ents, user)
  }

  /**
   * Checkout never orders a product that is missing, inactive or already
   * owned, nor one that is not in the cart; and it orders every cart
   * product that is active and not owned, each once.
   */
  lemma PlanSafeAndComplete(d: Dict, products: map<nat, Product>, ents: Entitlements, user: nat)
    requires PlanCheckout(d, products, ents, user).Proceed?
    ensures var valid := PlanCheckout(d, products, ents, user).valid;
      var lines := CartLines(d, products).value;
      && (forall pk :: pk in valid <==>
            (exists i :: 0 <= i < |lines| && lines[i].product.pk == pk)
            && pk in products && products[pk].isActive && (user, pk) !in ents)
      && (forall i, j :: 0 <= i < j < |valid| ==> valid[i] != valid[j])
  {
    var lines := CartLines(d, products).value;
    var pks := CartPks(lines);
    forall pk
      ensures pk in pks <==> exists i :: 0 <= i < |lines| && lines[i].product.pk == pk
    {
      if pk in pks {
        var i :| 0 <= i < |pks| && pks[i] == pk;
        assert lines[i].product.pk == pk;
      }
    }
  }

  /** Checkout orders its products newest first, as Product's default ordering lists them. */
  lemma PlanNewestFirst(d: Dict, products: map<nat, Product>, ents: Entitlements, user: nat)
    ensures PlanCheckout(d, products, ents, user).Proceed? ==>
      var valid := PlanCheckout(d, products, ents, user).valid;
      && (forall pk :: pk in valid ==> pk in products)
      && forall i, j :: 0 <= i < j < |valid| ==> products[valid[i]].createdAt >= products[valid[j]].createdAt
  {
    if PlanCheckout(d, products, ents, user).Proceed? {
      var lines := CartLines(d, products).value;
      var valid := ValidPks(products, UnownedPks(ents, user, CartPks(lines)));
      assert NewestFirst(products, valid);
    }
  }

  /** When the checks stop before ordering, nothing in the cart was orderable. */
  lemma PlanStopsOnlyWhenNothingOrderable(d: Dict, products: map<nat, Product>, ents: Entitlements, user: nat)
    requires PlanCheckout(d, products, ents, user) == AllOwned || PlanCheckout(d, products, ents, user) == NoneValid
    ensures var lines := CartLines(d, products).value;
      forall i :: 0 <= i < |lines| ==>
        var pk := lines[i].product.pk;
        (user, pk) in ents || pk !in products || !products[pk].isActive
    ensures CartAfterPlan(d, products, ents, user) == []
  {
    var lines := CartLines(d, products).value;
    var pks := CartPks(lines);
    forall i | 0 <= i < |lines|
      ensures var pk := lines[i].product.pk; (user, pk) in ents || pk !in products || !products[pk].isActive
    {
      assert pks[i] in pks;
    }
  }

  /** Whether the checks on `lines` mark the session modified (besides creating the cart entry). */
  predicate PlanTouchesLines(d: Dict, lines: seq<CartLine>, products: map<nat, Product>, ents: Entitlements, user: nat) {
    var plan := PlanFromLines(lines, products, ents, user);
    plan == AllOwned || plan == NoneValid
    || (plan.Proceed? && |FilterOutKeys(d, KeysOf(OwnedPks(ents, user, CartPks(lines))))| < |d|)
  }

  /** Whether the cart checks mark the session modified (besides creating the cart entry). */
  predicate PlanTouchesSession(d: Dict, products: map<nat, Product>, ents: Entitlements, user: nat) {
    match CartLines(d, products)
    case None => false
    case Some(lines) => PlanTouchesLines(d, lines, products, ents, user)
  }

  /** The pruning step of the cart checks: the entries of the owned cart products go. */
  method PrunePurchasedLines(session: Session, lines: seq<CartLine>, ents: Entitlements, user: nat)
    requires session.cart.Some? && DistinctKeys(session.cart.value)
    modifies session
    ensures var d := old(session.cart.value);
      var kept := FilterOutKeys(d, KeysOf(OwnedPks(ents, user, CartPks(lines))));
      session.cart == Some(kept) && session.modified == (old(session.modified) || |kept| < |d|)
  {
    ghost var d := session.cart.value;
    var purchased := OwnedPks(ents, user, CartPks(lines));
    if purchased != [] {
      var _ := RemovePurchasedFromSessionCart(session, purchased);
    } else {
      FilterOutNothing(d);
    }
  }

  /** The checks on the cart lines, with the session cart holding the dict they came from. */
  method PlanLines(session: Session, lines: seq<CartLine>, products: map<nat, Product>, ents: Entitlements, user: nat)
    returns (plan: Plan)
    requires session.cart.Some? && DistinctKeys(session.cart.value)
    modifies session
    ensures plan == PlanFromLines(lines, products, ents, user)
    ensures session.cart == Some(CartAfterLines(old(session.cart.value), lines, products, ents, user))
    ensures session.modified == (old(session.modified) || PlanTouchesLines(old(session.cart.value), lines, products, ents, user))
  {
    if lines == [] {
      return EmptyCart;
    }
    ghost var d := session.cart.value;
    PrunePurchasedLines(session, lines, ents, user);
    plan := PlanOrClear(session, lines, products, ents, user);
    AfterLinesCases(d, lines, products, ents, user);
  }

  /** CartAfterLines and PlanTouchesLines for a non-empty cart, plan by plan. */
  lemma AfterLinesCases(d: Dict, lines: seq<CartLine>, products: map<nat, Product>, ents: Entitlements, user: nat)
    requires lines != []
    ensures var plan := PlanFromLines(lines, products, ents, user);
      var kept := FilterOutKeys(d, KeysOf(OwnedPks(ents, user, CartPks(lines))));
      && (plan.Proceed? ==>
            CartAfterLines(d, lines, products, ents, user) == kept
            && (PlanTouchesLines(d, lines, products, ents, user) <==> |kept| < |d|))
      && (plan == AllOwned || plan == NoneValid ==>
            CartAfterLines(d, lines, products, ents, user) == [] && PlanTouchesLines(d, lines, products, ents, user))
      && (plan == AllOwned || plan == NoneValid || plan.Proceed?)
  {
  }

  /**
   * The checks after pruning: nothing left unowned, or nothing of it
   * orderable, empties the cart; otherwise the orderable products go on.
   */
  method PlanOrClear(session: Session, lines: seq<CartLine>, products: map<nat, Product>, ents: Entitlements, user: nat)
    returns (plan: Plan)
    requires lines != []
    modifies session
    ensures plan == PlanFromLines(lines, products, ents, user)
    ensures plan == AllOwned || plan == NoneValid ==> session.cart == Some([]) && session.modified
    ensures plan.Proceed? ==> session.cart == old(session.cart) && session.modified == old(session.modified)
  {
    var rest := UnownedPks(ents, user, CartPks(lines));
    if rest == [] {
      session.ClearCart();
      return AllOwned;
    }
    var valid := ValidPks(products, rest);
    if valid == [] {
      session.ClearCart();
      return NoneValid;
    }
    return Proceed(valid);
  }

  /** The cart checks of checkout on the session. */
  method PlanCart(session: Session, products: map<nat, Product>, ents: Entitlements, user: nat) returns (plan: Plan)
    requires DistinctKeys(session.CartOrEmpty())
    modifies session
    ensures var d := old(session.CartOrEmpty());
      && plan == PlanCheckout(d, products, ents, user)
      && session.cart == Some(CartAfterPlan(d, products, ents, user))
      && session.modified == (old(session.modified) || old(session.cart).None? || PlanTouchesSession(d, products, ents, user))
  {
    var items := session.GetCartItems(products);
    if items.None? {
      return CartCrash;
    }
    plan := PlanLines(session, items.value, products, ents, user);
  }

  // ---------------------------------------------------------------------
  // The order checkout builds
  // ---------------------------------------------------------------------

  /** The line item created for a product: quantity 1, line total = price. */
  function LineFor(products: map<nat, Product>, pk: nat): LineItem
    requires pk in products
  {
    SavedLine(LineItem(Some(pk), products[pk].title, products[pk].priceCents, 1, products[pk].priceCents))
  }

  function LinesFor(products: map<nat, Product>, pks: seq<nat>): (r: seq<LineItem>)
    requires forall pk :: pk in pks ==> pk in products
    ensures |r| == |pks|
  {
    if pks == [] then [] else LinesFor(products, pks[..|pks| - 1]) + [LineFor(products, pks[|pks| - 1])]
  }

  /** The Stripe price data: unit_amount is int(price * 100), which for a two-place price is its cents. */
  function StripeLinesFor(products: map<nat, Product>, pks: seq<nat>): (r: seq<StripeLine>)
    requires forall pk :: pk in pks ==> pk in products
    ensures |r| == |pks|
    ensures forall i :: 0 <= i < |pks| ==>
      r[i] == StripeLine("eur", products[pks[i]].title, products[pks[i]].priceCents, 1)
  {
    if pks == [] then []
    else
      var n := |pks| - 1;
      StripeLinesFor(products, pks[..n]) + [StripeLine("eur", products[pks[n]].title, products[pks[n]].priceCents, 1)]
  }

  /** The sum of the products' prices: the total the order is meant to carry. */
  function PriceSum(products: map<nat, Product>, pks: seq<nat>): int
    requires forall pk :: pk in pks ==> pk in products
  {
    if pks == [] then 0 else PriceSum(products, pks[..|pks| - 1]) + products[pks[|pks| - 1]].priceCents
  }

  /** The order created for `valid`, before Stripe answers. */
  function PlacedOrder(id: nat, user: nat, products: map<nat, Product>, valid: seq<nat>, now: int, uuid: nat): Order
    requires forall pk :: pk in valid ==> pk in products
  {
    NumberedOnSave(NewOrder(id, Some(user), now).(totalCents := PriceSum(products, valid)), uuid)
      .(lines := LinesFor(products, valid))
  }

  /**
   * The order is pending, belongs to the user and carries an order number;
   * each line has quantity 1 and its line total equals the price; the lines
   * name exactly the ordered products, in order; and the total is the sum of
   * the line totals.
   */
  lemma {:induction false} PlacedOrderSpec(id: nat, user: nat, products: map<nat, Product>, valid: seq<nat>, now: int, uuid: nat)
    requires forall pk :: pk in valid ==> pk in products
    ensures var o := PlacedOrder(id, user, products, valid, now, uuid);
      && o.status == Pending && o.user == Some(user) && o.id == id && IsOrderNumber(o.orderNumber)
      && o.stripeSessionId == ""
      && (forall i :: 0 <= i < |o.lines| ==> o.lines[i].quantity == 1 && o.lines[i].lineTotalCents == o.lines[i].productPriceCents)
      && LineProducts(o.lines) == valid
      && o.totalCents == LineTotalSum(o.lines)
  {
    LinesForSpec(products, valid);
  }

  lemma LinesForSpec(products: map<nat, Product>, pks: seq<nat>)
    requires forall pk :: pk in pks ==> pk in products
    ensures var lines := LinesFor(products, pks);
      && (forall i :: 0 <= i < |lines| ==> lines[i] == LineFor(products, pks[i]))
      && LineProducts(lines) == pks
      && LineTotalSum(lines) == PriceSum(products, pks)
  {
    LinesForAt(products, pks);
    LinesForProducts(products, pks);
    LinesForTotal(products, pks);
  }

  lemma {:induction false} LinesForAt(products: map<nat, Product>, pks: seq<nat>)
    requires forall pk :: pk in pks ==> pk in products
    ensures forall i :: 0 <= i < |pks| ==> LinesFor(products, pks)[i] == LineFor(products, pks[i])
  {
    if pks != [] {
      var n := |pks| - 1;
      assert forall pk :: pk in pks[..n] ==> pk in pks;
      LinesForAt(products, pks[..n]);
    }
  }

  lemma {:induction false} LinesForProducts(products: map<nat, Product>, pks: seq<nat>)
    requires forall pk :: pk in pks ==> pk in products
    ensures LineProducts(LinesFor(products, pks)) == pks
  {
    if pks != [] {
      var n := |pks| - 1;
      assert forall pk :: pk in pks[..n] ==> pk in pks;
      LinesForProducts(products, pks[..n]);
      var prev := LinesFor(products, pks[..n]);
      var last := LineFor(products, pks[n]);
      assert LinesFor(products, pks) == prev + [last];
      assert last.productPk == Some(pks[n]);
      LineProductsSnoc(prev, last);
      assert pks == pks[..n] + [pks[n]];
    }
  }

  /** A line item that references a product adds that product at the end. */
  lemma LineProductsSnoc(prev: seq<LineItem>, last: LineItem)
    requires last.productPk.Some?
    ensures LineProducts(prev + [last]) == LineProducts(prev) + [last.productPk.value]
  {
    assert (prev + [last])[..|prev|] == prev;
  }

  lemma {:induction false} LinesForTotal(products: map<nat, Product>, pks: seq<nat>)
    requires forall pk :: pk in pks ==> pk in products
    ensures LineTotalSum(LinesFor(products, pks)) == PriceSum(products, pks)
  {
    if pks != [] {
      var n := |pks| - 1;
      assert forall pk :: pk in pks[..n] ==> pk in pks;
      LinesForTotal(products, pks[..n]);
      var lines := LinesFor(products, pks);
      assert lines[..n] == LinesFor(products, pks[..n]);
    }
  }

  /**
   * The Stripe metadata of the new session (order_id = str(order.id)) leads
   * the webhook back to exactly this order.
   */
  lemma MetadataFindsOrder(orders: seq<Order>, o: Order, data: StripeWebhooks.SessionData)
    requires data.orderIdMeta == IntToString(o.id)
    ensures StripeWebhooks.OrderFromMetadata(orders + [o], data) == StripeWebhooks.Found(|orders|)
  {
    ParseIntOfIntToString(o.id);
    assert (orders + [o])[..|orders|] == orders;
  }

  /**
   * What checkout promises of the order it leaves behind: pending, the
   * user's, the total the sum of the line totals, and every line one unit
   * of an existing, active product the user does not own yet.
   */
  predicate Orderable(o: Order, products: map<nat, Product>, ents: Entitlements, user: nat) {
    && o.user == Some(user) && o.status == Pending
    && o.totalCents == LineTotalSum(o.lines)
    && forall i :: 0 <= i < |o.lines| ==>
         && o.lines[i].quantity == 1
         && o.lines[i].productPk.Some?
         && var pk := o.lines[i].productPk.value;
            pk in products && products[pk].isActive && (user, pk) !in ents
  }

  /** The order placed for the products the cart checks let through is orderable, whatever Stripe then stores in it. */
  lemma PlacedOrderOrderable(d: Dict, products: map<nat, Product>, ents: Entitlements, user: nat, id: nat, now: int, uuid: nat)
    requires PlanCheckout(d, products, ents, user).Proceed?
    ensures var valid := PlanCheckout(d, products, ents, user).valid;
      && (forall pk :: pk in valid ==> pk in products)
      && forall sid :: Orderable(PlacedOrder(id, user, products, valid, now, uuid).(stripeSessionId := sid), products, ents, user)
  {
    var valid := PlanCheckout(d, products, ents, user).valid;
    PlanSafeAndComplete(d, products, ents, user);
    var o := PlacedOrder(id, user, products, valid, now, uuid);
    PlacedOrderSpec(id, user, products, valid, now, uuid);
    LinesForAt(products, valid);
    forall i | 0 <= i < |o.lines|
      ensures o.lines[i].quantity == 1 && o.lines[i].productPk == Some(valid[i])
    {
      assert o.lines[i] == LineFor(products, valid[i]);
    }
    assert Orderable(o, products, ents, user);
    forall sid
      ensures Orderable(o.(stripeSessionId := sid), products, ents, user)
    {
      OrderableIgnoresSession(o, sid, products, ents, user);
    }
  }

  /** Whether an order may be paid for does not depend on its Stripe session id. */
  lemma OrderableIgnoresSession(o: Order, sid: string, products: map<nat, Product>, ents: Entitlements, user: nat)
    requires Orderable(o, products, ents, user)
    ensures Orderable(o.(stripeSessionId := sid), products, ents, user)
  {
    assert o.(stripeSessionId := sid).lines == o.lines;
  }

  /**
   * Creates the order and its line items, asks Stripe for a session, and on
   * success stores the session id and redirects to Stripe. A failure, or a
   * session without url, deletes the order again.
   */
  method CreateOrderAndSession(store: OrderStore, products: map<nat, Product>, user: nat, valid: seq<nat>,
                               now: int, uuid: nat, created: CreatedSession)
    returns (resp: Response, stripeLines: seq<StripeLine>)
    requires store.Valid() && NumberFree(store.orders, OrderNumberFromUuid(uuid), None)
    requires forall pk :: pk in valid ==> pk in products
    modifies store`orders, store`nextId
    ensures store.Valid()
    ensures store.nextId == old(store.nextId) + 1
    ensures stripeLines == StripeLinesFor(products, valid)
    ensures var o := PlacedOrder(old(store.nextId), user, products, valid, now, uuid);
      if created.Created? && created.url != "" then
        resp == RedirectTo(created.url) && store.orders == old(store.orders) + [o.(stripeSessionId := created.id)]
      else
        resp == RedirectCart && store.orders == old(store.orders)
  {
    var total := PriceSum(products, valid);
    var id := store.CreateOrder(Some(user), total, now, uuid);
    var index := |store.orders| - 1;
    stripeLines := AddCheckoutLines(store, index, products, valid);
    match created {
      case CreateFailed =>
        store.DeleteOrderAt(index);
        return RedirectCart, stripeLines;
      case Created(sessionId, url) =>
        var order := store.orders[index];
        store.SaveOrderAt(index, order.(stripeSessionId := sessionId));
        if url != "" {
          return RedirectTo(url), stripeLines;
        }
        // ValueError("Stripe session URL is missing."), caught: the order goes.
        store.DeleteOrderAt(index);
        return RedirectCart, stripeLines;
    }
  }

  /**
   * The loop over valid_products: an OrderLineItem with quantity 1 on the
   * order at `index` and the matching Stripe line item for each product.
   */
  method AddCheckoutLines(store: OrderStore, index: nat, products: map<nat, Product>, valid: seq<nat>)
    returns (stripeLines: seq<StripeLine>)
    requires store.Valid() && index < |store.orders| && store.orders[index].lines == []
    requires forall pk :: pk in valid ==> pk in products
    modifies store`orders
    ensures store.Valid()
    ensures store.orders == old(store.orders)[index := old(store.orders)[index].(lines := LinesFor(products, valid))]
    ensures stripeLines == StripeLinesFor(products, valid)
  {
    ghost var base := store.orders;
    ghost var order0 := store.orders[index];
    stripeLines := [];
    var i := 0;
    assert valid[..0] == [];
    assert order0.(lines := LinesFor(products, [])) == order0;
    assert base[index := order0] == base;
    while i < |valid|
      invariant 0 <= i <= |valid| && |store.orders| == |base|
      invariant store.Valid()
      invariant store.orders == base[index := order0.(lines := LinesFor(products, valid[..i]))]
      invariant stripeLines == StripeLinesFor(products, valid[..i])
    {
      var pk := valid[i];
      var product := products[pk];
      store.AddLineItem(index, LineItem(Some(pk), product.title, product.priceCents, 1, product.priceCents));
      stripeLines := stripeLines + [StripeLine("eur", product.title, product.priceCents, 1)];
      assert valid[..i + 1][..i] == valid[..i];
      i := i + 1;
    }
    assert valid[..|valid|] == valid;
  }

  // ---------------------------------------------------------------------
  // checkout
  // ---------------------------------------------------------------------

  /**
   * Everything checkout does before the order is built: the method guard,
   * the Stripe key, the reuse of a recent session and the cart checks.
   * `early` is the response when checkout stops there.
   */
  method PrepareCheckout(store: OrderStore, session: Session, products: map<nat, Product>, user: nat,
                         httpMethod: string, secretKey: string, now: int, recent: RetrievedSession)
    returns (early: Option<Response>, valid: seq<nat>)
    requires store.Valid() && DistinctKeys(session.CartOrEmpty())
    modifies store`orders, session
    ensures store.Valid()
    ensures httpMethod != "POST" ==>
      && early == Some(MethodNotAllowed) && store.orders == old(store.orders)
      && session.cart == old(session.cart) && session.modified == old(session.modified)
    ensures httpMethod == "POST" && secretKey == "" ==>
      && early == Some(RedirectCart) && store.orders == old(store.orders)
      && session.cart == old(session.cart) && session.modified == old(session.modified)
    ensures |store.orders| == |old(store.orders)|
    ensures forall i :: 0 <= i < |store.orders| ==>
      store.orders[i] == old(store.orders[i]) || store.orders[i] == old(store.orders[i]).(status := Failed)
    ensures httpMethod == "POST" && secretKey != ""
      && RecentPending(old(store.orders), user, Cutoff(now, ReuseWindowMinutes)).None?
      && PlanCheckout(old(session.CartOrEmpty()), products, store.entitlements, user).Proceed?
      ==> early.None?
    ensures early.None? <==>
      && httpMethod == "POST" && secretKey != "" && !Reuses(old(store.orders), user, now, recent)
      && PlanCheckout(old(session.CartOrEmpty()), products, store.entitlements, user).Proceed?
    ensures early.None? ==> PlanCheckout(old(session.CartOrEmpty()), products, store.entitlements, user) == Proceed(valid)
    ensures early.None? ==> session.cart == Some(CartAfterPlan(old(session.CartOrEmpty()), products, store.entitlements, user))
  {
    if httpMethod != "POST" {
      return Some(MethodNotAllowed), [];
    }
    if secretKey == "" {
      return Some(RedirectCart), [];
    }
    var reused := ReuseRecentSession(store, user, now, recent);
    if reused.Some? {
      return reused, [];
    }
    early, valid := CheckCart(session, products, store.entitlements, user);
  }

  /**
   * The cart checks of checkout: a cart that get_cart_items cannot read is a
   * server error, one with nothing left to order sends the user back to the
   * cart, and otherwise checkout goes on with the products to order.
   */
  method CheckCart(session: Session, products: map<nat, Product>, ents: Entitlements, user: nat)
    returns (early: Option<Response>, valid: seq<nat>)
    requires DistinctKeys(session.CartOrEmpty())
    modifies session
    ensures var plan := PlanCheckout(old(session.CartOrEmpty()), products, ents, user);
      && (early.None? <==> plan.Proceed?)
      && (early.None? ==> plan == Proceed(valid))
      && (plan == CartCrash ==> early == Some(ServerError))
      && (early.Some? && plan != CartCrash ==> early == Some(RedirectCart))
    ensures session.cart == Some(CartAfterPlan(old(session.CartOrEmpty()), products, ents, user))
  {
    var plan := PlanCart(session, products, ents, user);
    match plan {
      case CartCrash => return Some(ServerError), [];
      case EmptyCart => return Some(RedirectCart), [];
      case AllOwned => return Some(RedirectCart), [];
      case NoneValid => return Some(RedirectCart), [];
      case Proceed(v) => return None, v;
    }
  }

  /**
   * checkout as the repository has it: once the cart checks pass, line 166
   * calls get_cart_total with two arguments, which raises TypeError, so the
   * request fails with a server error and no order is ever created. No
   * session is saved after a 500, so the cart pruning is lost on that path.
   */
  method CheckoutAsWritten(store: OrderStore, session: Session, products: map<nat, Product>, user: nat,
                           httpMethod: string, secretKey: string, now: int, recent: RetrievedSession)
    returns (resp: Response)
    requires store.Valid() && DistinctKeys(session.CartOrEmpty())
    modifies store`orders, session
    ensures store.Valid()
    ensures |store.orders| == |old(store.orders)|
    ensures httpMethod == "POST" && secretKey != ""
      && RecentPending(old(store.orders), user, Cutoff(now, ReuseWindowMinutes)).None?
      && PlanCheckout(old(session.CartOrEmpty()), products, store.entitlements, user).Proceed?
      ==> resp == ServerError
    ensures resp == ServerError ==> session.cart == old(session.cart) && session.modified == old(session.modified)
  {
    var startCart, startModified := session.cart, session.modified;
    var early, valid := PrepareCheckout(store, session, products, user, httpMethod, secretKey, now, recent);
    if early.Some? && early.value != ServerError {
      return early.value;
    }
    // Either get_cart_items raised, or get_cart_total(request.session, [...])
    // raises TypeError, before any order exists.
    session.DiscardUnsaved(startCart, startModified);
    return ServerError;
  }

  /** A cart holding one active product the user does not own passes every check before line 166. */
  lemma CheckoutAsWrittenReachesTotal(p: Product, ents: Entitlements, user: nat)
    requires p.isActive && (user, p.pk) !in ents
    ensures PlanCheckout([(CartKey(p.pk), 1)], map[p.pk := p], ents, user) == Proceed([p.pk])
  {
    ParseIntOfIntToString(p.pk);
    var d := [(CartKey(p.pk), 1)];
    var products := map[p.pk := p];
    assert ParseInt(d[0].0) == Some(p.pk as int);
    assert d[..0] == [];
    assert CartLines(d[..0], products) == Some([]);
    var lines := CartLines(d, products).value;
    assert lines == [CartLine(p, 1, p.priceCents * 1)];
    assert CartPks(lines) == [p.pk];
    assert UnownedPks(ents, user, [p.pk]) == [p.pk];
    assert ValidPks(products, [p.pk]) == [p.pk];
  }

  /**
   * checkout with the total computed from the products it orders: the new
   * order holds exactly the active, unowned cart products with quantity 1,
   * its total is the sum of their prices, and it is deleted again if Stripe
   * does not give a usable session.
   */
  method Checkout(store: OrderStore, session: Session, products: map<nat, Product>, user: nat,
                  httpMethod: string, secretKey: string, now: int, uuid: nat,
                  recent: RetrievedSession, created: CreatedSession)
    returns (resp: Response, stripeLines: seq<StripeLine>)
    requires store.Valid() && DistinctKeys(session.CartOrEmpty())
    requires NumberFree(store.orders, OrderNumberFromUuid(uuid), None)
    modifies store`orders, store`nextId, session
    ensures store.Valid()
    ensures httpMethod != "POST" ==> resp == MethodNotAllowed && store.orders == old(store.orders)
    ensures httpMethod == "POST" && secretKey == "" ==> resp == RedirectCart && store.orders == old(store.orders)
    ensures var n := |old(store.orders)|;
      && n <= |store.orders| <= n + 1
      && (forall i :: 0 <= i < n ==>
            store.orders[i] == old(store.orders[i]) || store.orders[i] == old(store.orders[i]).(status := Failed))
      && (|store.orders| == n + 1 ==>
            && created.Created? && resp == RedirectTo(created.url)
            && store.orders[n].stripeSessionId == created.id
            && Orderable(store.orders[n], products, store.entitlements, user))
    ensures var plan := PlanCheckout(old(session.CartOrEmpty()), products, store.entitlements, user);
      var proceeds := httpMethod == "POST" && secretKey != "" && !Reuses(old(store.orders), user, now, recent) && plan.Proceed?;
      && (!proceeds ==> |store.orders| == |old(store.orders)|)
      && (proceeds ==> session.cart == Some(CartAfterPlan(old(session.CartOrEmpty()), products, store.entitlements, user)))
      && (proceeds && created.Created? && created.url != "" ==>
            && resp == RedirectTo(created.url)
            && |store.orders| == |old(store.orders)| + 1
            && store.orders[|old(store.orders)|]
               == PlacedOrder(old(store.nextId), user, products, plan.valid, now, uuid).(stripeSessionId := created.id))
      && (proceeds && !(created.Created? && created.url != "") ==>
            resp == RedirectCart && |store.orders| == |old(store.orders)|)
    ensures resp == ServerError ==> session.cart == old(session.cart) && session.modified == old(session.modified)
  {
    var startCart, startModified := session.cart, session.modified;
    var early, valid := PrepareCheckout(store, session, products, user, httpMethod, secretKey, now, recent);
    if early.Some? {
      if early.value == ServerError {
        session.DiscardUnsaved(startCart, startModified);
      }
      return early.value, [];
    }
    ghost var checked := store.orders;
    assert |checked| == |old(store.orders)|;
    assert NumberFree(checked, OrderNumberFromUuid(uuid), None) by {
      forall j | 0 <= j < |checked|
        ensures checked[j].orderNumber == old(store.orders[j]).orderNumber
      {
      }
    }
    PlacedOrderOrderable(old(session.CartOrEmpty()), products, store.entitlements, user, store.nextId, now, uuid);
    resp, stripeLines := CreateOrderAndSession(store, products, user, valid, now, uuid, created);
    assert store.orders[..|checked|] == checked;
  }

  // ---------------------------------------------------------------------
  // checkout_success and checkout_cancel
  // ---------------------------------------------------------------------

  /** One get_or_create(user, product, defaults={"order": order}): an existing entitlement is left as it is. */
  function GetOrCreate(ents: Entitlements, user: nat, orderId: nat, pk: nat): Entitlements {
    if (user, pk) in ents then ents else ents[(user, pk) := Some(orderId)]
  }

  function GetOrCreateAll(ents: Entitlements, user: nat, orderId: nat, pks: seq<nat>): Entitlements {
    if pks == [] then ents
    else GetOrCreate(GetOrCreateAll(ents, user, orderId, pks[..|pks| - 1]), user, orderId, pks[|pks| - 1])
  }

  /**
   * Afterwards every listed product has an entitlement for the user; new
   * ones are linked to the order; existing ones, with or without an order,
   * are unchanged (unlike grant_entitlements_for_order, which links the
   * order-less ones).
   */
  lemma {:induction false} GetOrCreateAllSpec(ents: Entitlements, user: nat, orderId: nat, pks: seq<nat>)
    ensures var r := GetOrCreateAll(ents, user, orderId, pks);
      && r.Keys == ents.Keys + (set pk | pk in pks :: (user, pk))
      && (forall k :: k in ents ==> r[k] == ents[k])
      && (forall k :: k in r && k !in ents ==> r[k] == Some(orderId))
  {
    if pks != [] {
      var n := |pks| - 1;
      GetOrCreateAllSpec(ents, user, orderId, pks[..n]);
      assert pks == pks[..n] + [pks[n]];
    }
  }

  /** The entitlement loop of checkout_success over an order's line items. */
  method EnsureEntitlements(store: OrderStore, user: nat, o: Order)
    modifies store`entitlements
    ensures store.entitlements == GetOrCreateAll(old(store.entitlements), user, o.id, LineProducts(o.lines))
  {
    ghost var ents0 := store.entitlements;
    var i := 0;
    while i < |o.lines|
      invariant 0 <= i <= |o.lines|
      invariant store.entitlements == GetOrCreateAll(ents0, user, o.id, LineProducts(o.lines[..i]))
    {
      assert o.lines[..i + 1][..i] == o.lines[..i];
      if o.lines[i].productPk.Some? {
        var pk := o.lines[i].productPk.value;
        ghost var ps := LineProducts(o.lines[..i + 1]);
        assert ps == LineProducts(o.lines[..i]) + [pk];
        assert ps[..|ps| - 1] == LineProducts(o.lines[..i]);
        if (user, pk) !in store.entitlements {
          store.entitlements := store.entitlements[(user, pk) := Some(o.id)];
        }
      } else {
        assert LineProducts(o.lines[..i + 1]) == LineProducts(o.lines[..i]);
      }
      i := i + 1;
    }
    assert o.lines[..|o.lines|] == o.lines;
  }

  /** Order.objects.get(order_number=..., user=request.user). */
  function OwnOrder(orders: seq<Order>, orderNumber: string, user: nat): (r: Option<nat>)
    ensures r.Some? ==> r.value < |orders| && orders[r.value].orderNumber == orderNumber && orders[r.value].user == Some(user)
  {
    match IndexOfNumber(orders, orderNumber)
    case Some(i) => if orders[i].user == Some(user) then Some(i) else None
    case None => None
  }

  /** Whether checkout_success confirms the payment itself: pending, with a session, Stripe configured and reporting paid. */
  predicate ConfirmsViaStripe(o: Order, secretKey: string, s: RetrievedSession) {
    o.status == Pending && o.stripeSessionId != "" && secretKey != ""
    && s.Retrieved? && s.paymentStatus == "paid"
  }

  /**
   * checkout_success: another user's (or an unknown) order redirects with
   * no change; a paid order, or a pending one Stripe reports paid, gets an
   * entitlement per line-item product and the cart is emptied; otherwise the
   * page renders with nothing changed.
   */
  method CheckoutSuccess(store: OrderStore, session: Session, user: nat, orderNumber: string,
                         secretKey: string, s: RetrievedSession) returns (resp: Response)
    requires store.Valid()
    modifies store`orders, store`entitlements, session
    ensures store.Valid()
    ensures match OwnOrder(old(store.orders), orderNumber, user)
      case None =>
        && resp == RedirectProductList
        && store.orders == old(store.orders) && store.entitlements == old(store.entitlements)
        && session.cart == old(session.cart) && session.modified == old(session.modified)
      case Some(i) =>
        var o := old(store.orders[i]);
        && resp == RenderSuccess(i)
        && (o.status == Paid ==>
              && store.orders == old(store.orders)
              && store.entitlements == GetOrCreateAll(old(store.entitlements), user, o.id, LineProducts(o.lines))
              && session.cart == Some([]) && session.modified)
        && (ConfirmsViaStripe(o, secretKey, s) ==>
              && store.orders == old(store.orders)[i := o.(status := Paid, stripePaymentIntentId := s.paymentIntent)]
              && store.entitlements == GetOrCreateAll(old(store.entitlements), user, o.id, LineProducts(o.lines))
              && session.cart == Some([]) && session.modified)
        && (o.status != Paid && !ConfirmsViaStripe(o, secretKey, s) ==>
              && store.orders == old(store.orders) && store.entitlements == old(store.entitlements)
              && session.cart == old(session.cart) && session.modified == old(session.modified))
  {
    var found := OwnOrder(store.orders, orderNumber, user);
    if found.None? {
      return RedirectProductList;
    }
    var i := found.value;
    var order := store.orders[i];
    if order.status == Paid {
      EnsureEntitlements(store, user, order);
      session.ClearCart();
      return RenderSuccess(i);
    }
    if order.status == Pending && order.stripeSessionId != "" && secretKey != "" {
      match s {
        case RetrieveFailed =>
        case Retrieved(_, paymentStatus, _, paymentIntent) =>
          if paymentStatus == "paid" {
            order := order.(status := Paid, stripePaymentIntentId := paymentIntent);
            store.SaveOrderAt(i, order);
            EnsureEntitlements(store, user, order);
            session.ClearCart();
          }
      }
    }
    return RenderSuccess(i);
  }

  /** An order-less entitlement stays order-less on the success page but is linked by the grant service. */
  lemma SuccessPageDoesNotLink(ents: Entitlements, user: nat, orderId: nat, pk: nat)
    requires (user, pk) in ents && ents[(user, pk)].None?
    ensures GetOrCreateAll(ents, user, orderId, [pk])[(user, pk)] == None
    ensures OrderServices.GrantAll(ents, user, orderId, [pk])[(user, pk)] == Some(orderId)
  {
    assert [pk][..0] == [];
  }

  /** checkout_cancel: the recent pending order (30 minutes) is failed and the cancel page renders. */
  method CheckoutCancel(store: OrderStore, user: nat, now: int) returns (resp: Response)
    requires store.Valid()
    modifies store`orders
    ensures store.Valid() && resp == RenderCancel
    ensures var r := RecentPending(old(store.orders), user, Cutoff(now, CancelWindowMinutes));
      store.orders == if r.None? then old(store.orders) else old(store.orders)[r.value := old(store.orders[r.value]).(status := Failed)]
  {
    var _ := FailRecentPendingOrder(store, user, now);
    return RenderCancel;
  }
}
