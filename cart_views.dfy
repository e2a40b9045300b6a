/**
 * Cart views (cart/views.py): the integer parsing of form input, the pruning
 * of already purchased products from the session cart, and the guards of the
 * add, remove and cart-page views.
 *
 * The three views call the cart helpers with arguments those helpers do not
 * take (a `user` keyword, a second argument to get_cart_total), which raises
 * TypeError once the guards let a request through. Each view is modelled as
 * written and, beside it, with the helpers called as they are declared.
 * The verified-email decorator is modelled in AccessDecorators; flash
 * messages are left out.
 */
module CartViews {
  import opened Wrappers
  import opened Text
  import opened ProductModels
  import opened SessionCart
  import opened OrderModels

  /** The responses of the cart views. */
  datatype Response =
    | RedirectArchive
    | RedirectProduct(slug: string)
    | RedirectCart
    | NotFound
    | ServerError
    | RenderCart(lines: seq<CartLine>, totalCents: int)

  // ---------------------------------------------------------------------
  // _parse_int
  // ---------------------------------------------------------------------

  /** _parse_int: int(value), or the default when value is None (TypeError) or int() rejects it (ValueError). */
  function ParseIntOr(value: Option<string>, default: Option<int>): (r: Option<int>)
    ensures r != default ==> value.Some? && r == ParseInt(value.value) && r.Some?
    ensures value.None? ==> r == default
    ensures value.Some? && ParseInt(value.value).Some? ==> r == ParseInt(value.value)
    ensures value.Some? && ParseInt(value.value).None? ==> r == default
  {
    match value
    case None => default
    case Some(s) => if ParseInt(s).Some? then ParseInt(s) else default
  }

  /** Any integer the form renders with str() comes back unchanged, whatever the default. */
  lemma ParseIntOrRoundTrip(n: int, default: Option<int>)
    ensures ParseIntOr(Some(IntToString(n)), default) == Some(n)
  {
    ParseIntOfIntToString(n);
  }

  // ---------------------------------------------------------------------
  // _remove_purchased_items_from_cart
  // ---------------------------------------------------------------------

  /** The cart key names a product id int() accepts and the user has an entitlement for. */
  predicate OwnedKey(k: string, ents: Entitlements, user: nat) {
    match ParseInt(k)
    case None => false
    case Some(id) => id >= 0 && (user, id as nat) in ents
  }

  /** The keys among `ks` that name an owned product. */
  function OwnedKeysOf(ks: seq<string>, ents: Entitlements, user: nat): set<string> {
    if ks == [] then {}
    else
      var n := |ks| - 1;
      OwnedKeysOf(ks[..n], ents, user) + (if OwnedKey(ks[n], ents, user) then {ks[n]} else {})
  }

  lemma {:induction false} OwnedKeysOfMembers(ks: seq<string>, ents: Entitlements, user: nat)
    ensures forall k :: k in OwnedKeysOf(ks, ents, user) <==> k in ks && OwnedKey(k, ents, user)
  {
    if ks != [] {
      var n := |ks| - 1;
      OwnedKeysOfMembers(ks[..n], ents, user);
      assert ks == ks[..n] + [ks[n]];
    }
  }

  /** [int(pid) for pid in cart.keys()]: None when int() rejects some key. */
  function ParseAll(ks: seq<string>): (r: Option<seq<int>>)
    ensures r.Some? ==> |r.value| == |ks| && forall i :: 0 <= i < |ks| ==> ParseInt(ks[i]) == Some(r.value[i])
  {
    if ks == [] then Some([])
    else
      var n := |ks| - 1;
      assert forall i :: 0 <= i < n ==> ks[..n][i] == ks[i];
      match ParseAll(ks[..n])
      case None => None
      case Some(ids) =>
        match ParseInt(ks[n])
        case None => None
        case Some(id) => Some(ids + [id])
  }

  /** The conversion fails exactly when int() rejects some key. */
  lemma {:induction false} ParseAllFails(ks: seq<string>)
    ensures ParseAll(ks).None? <==> exists i :: 0 <= i < |ks| && ParseInt(ks[i]).None?
  {
    if ks != [] {
      var n := |ks| - 1;
      ParseAllFails(ks[..n]);
      assert forall i :: 0 <= i < n ==> ks[..n][i] == ks[i];
    }
  }

  /** purchased_ids: the listed ids the user holds an entitlement for. */
  function PurchasedIds(ents: Entitlements, user: nat, ids: seq<int>): set<int> {
    set id | id in ids && id >= 0 && (user, id as nat) in ents
  }

  /** A dict never holds a key twice, stated by position. */
  lemma {:induction false} DistinctKeysAt(d: Dict)
    requires DistinctKeys(d)
    ensures forall i, j :: 0 <= i < j < |d| ==> d[i].0 != d[j].0
  {
    if d != [] {
      DistinctKeysAt(d[1..]);
      forall i, j | 0 <= i < j < |d|
        ensures d[i].0 != d[j].0
      {
        if i == 0 {
          assert d[j].0 == Keys(d[1..])[j - 1];
        } else {
          assert d[i] == d[1..][i - 1] && d[j] == d[1..][j - 1];
        }
      }
    }
  }

  /**
   * One step of the loop: the i-th key, if owned, is still in the dict the
   * earlier steps left, and popping it filters out one more key.
   */
  lemma PopStep(d: Dict, ents: Entitlements, user: nat, i: nat)
    requires DistinctKeys(d) && i < |d|
    ensures var keys := Keys(d);
      var kept := FilterOutKeys(d, OwnedKeysOf(keys[..i], ents, user));
      var next := OwnedKeysOf(keys[..i + 1], ents, user);
      if OwnedKey(keys[i], ents, user) then
        && keys[i] in Keys(kept)
        && DelItem(kept, keys[i]) == FilterOutKeys(d, next)
        && |DelItem(kept, keys[i])| == |kept| - 1
      else next == OwnedKeysOf(keys[..i], ents, user)
  {
    var keys := Keys(d);
    var key := keys[i];
    var gone := OwnedKeysOf(keys[..i], ents, user);
    assert keys[..i + 1][..i] == keys[..i];
    if OwnedKey(key, ents, user) {
      DistinctKeysAt(d);
      assert key !in gone by {
        OwnedKeysOfMembers(keys[..i], ents, user);
        assert forall j :: 0 <= j < i ==> keys[..i][j] != key;
      }
      var kept := FilterOutKeys(d, gone);
      FilterOutKeysKeys(d, gone);
      assert key in Keys(kept);
      DelItemFilterOut(d, gone, key);
      DelItemPresentLength(kept, key);
    }
  }

  /**
   * The loop over the snapshot of the keys: each key whose id is purchased
   * is popped and counted. Every such key is still present when it is
   * popped, so the count is the number of entries that went.
   */
  method PopPurchased(d: Dict, ids: seq<int>, purchased: set<int>, ents: Entitlements, user: nat)
    returns (kept: Dict, removed: nat)
    requires DistinctKeys(d) && |ids| == |d|
    requires forall i :: 0 <= i < |d| ==> ParseInt(d[i].0) == Some(ids[i])
    requires purchased == PurchasedIds(ents, user, ids)
    ensures kept == FilterOutKeys(d, OwnedKeysOf(Keys(d), ents, user))
    ensures removed + |kept| == |d|
  {
    var keys := Keys(d);
    kept := d;
    FilterOutNothing(d);
    assert OwnedKeysOf(keys[..0], ents, user) == {};
    removed := 0;
    var i := 0;
    while i < |keys|
      invariant 0 <= i <= |keys|
      invariant kept == FilterOutKeys(d, OwnedKeysOf(keys[..i], ents, user))
      invariant removed + |kept| == |d|
    {
      assert ParseInt(keys[i]) == Some(ids[i]);
      kept, removed := PopIfPurchased(d, ents, user, i, ids[i] in purchased, kept, removed);
      i := i + 1;
    }
    assert keys[..|keys|] == keys;
  }

  /** One pass of the loop: pop the i-th key when its id is purchased, counting the pop. */
  method PopIfPurchased(d: Dict, ents: Entitlements, user: nat, i: nat, owned: bool, kept: Dict, removed: nat)
    returns (kept': Dict, removed': nat)
    requires DistinctKeys(d) && i < |d| && owned == OwnedKey(Keys(d)[i], ents, user)
    requires kept == FilterOutKeys(d, OwnedKeysOf(Keys(d)[..i], ents, user)) && removed + |kept| == |d|
    ensures kept' == FilterOutKeys(d, OwnedKeysOf(Keys(d)[..i + 1], ents, user)) && removed' + |kept'| == |d|
  {
    PopStep(d, ents, user, i);
    if owned {
      kept' := DelItem(kept, Keys(d)[i]);
      removed' := removed + 1;
    } else {
      kept', removed' := kept, removed;
    }
  }

  /**
   * _remove_purchased_items_from_cart: an absent or empty cart, or one with
   * a key int() rejects, is left alone and 0 is returned; otherwise the keys
   * naming an owned product are popped from the session's dict, their
   * number is returned, and the session is marked modified when it is not 0.
   */
  method RemovePurchasedItemsFromCart(session: Session, ents: Entitlements, user: nat) returns (removed: nat)
    requires DistinctKeys(session.CartOrEmpty())
    modifies session
    ensures var d := old(session.CartOrEmpty());
      && (d == [] || ParseAll(Keys(d)).None? ==>
            removed == 0 && session.cart == old(session.cart) && session.modified == old(session.modified))
      && (d != [] && ParseAll(Keys(d)).Some? ==>
            var kept := FilterOutKeys(d, OwnedKeysOf(Keys(d), ents, user));
            && session.cart == Some(kept)
            && removed + |kept| == |d|
            && session.modified == (old(session.modified) || removed > 0))
  {
    if session.cart.None? || session.cart.value == [] {
      return 0;
    }
    var d := session.cart.value;
    var ids := ParseAll(Keys(d));
    if ids.None? {
      return 0;
    }
    var purchased := PurchasedIds(ents, user, ids.value);
    var kept;
    kept, removed := PopPurchased(d, ids.value, purchased, ents, user);
    // The pops changed the session's own dict.
    session.cart := Some(kept);
    if removed > 0 {
      session.modified := true;
    }
  }

  /**
   * After the pruning, no entry names an owned product and every other
   * entry is kept, with its quantity.
   */
  lemma PrunedCartKeepsUnowned(d: Dict, ents: Entitlements, user: nat)
    ensures var kept := FilterOutKeys(d, OwnedKeysOf(Keys(d), ents, user));
      forall e :: e in kept <==> e in d && !OwnedKey(e.0, ents, user)
  {
    OwnedKeysOfMembers(Keys(d), ents, user);
    FilterOutKeysMembers(d, OwnedKeysOf(Keys(d), ents, user));
    forall e | e in d
      ensures e.0 in Keys(d)
    {
      var i :| 0 <= i < |d| && d[i] == e;
      assert Keys(d)[i] == e.0;
    }
  }

  /** The lines of a cart holding no owned key show no owned product. */
  lemma {:induction false} UnownedCartShowsNoOwned(d: Dict, products: map<nat, Product>, ents: Entitlements, user: nat)
    requires KeyedByPk(products)
    requires forall e :: e in d ==> !OwnedKey(e.0, ents, user)
    requires CartLines(d, products).Some?
    ensures var lines := CartLines(d, products).value;
      forall i :: 0 <= i < |lines| ==> (user, lines[i].product.pk) !in ents
  {
    if d != [] {
      var n := |d| - 1;
      assert forall e :: e in d[..n] ==> e in d;
      UnownedCartShowsNoOwned(d[..n], products, ents, user);
      assert d[n] in d;
    }
  }

  // ---------------------------------------------------------------------
  // add_to_cart
  // ---------------------------------------------------------------------

  /**
   * Where add_to_cart stops before calling the cart helper: a non-POST
   * request or an unparsable id redirects to the archive, an id with no
   * active product is a 404, an owned product redirects to its page.
   */
  function AddGuard(products: map<nat, Product>, ents: Entitlements, user: nat,
                    httpMethod: string, productIdParam: Option<string>): (r: Option<Response>)
    ensures r.None? <==>
      && httpMethod == "POST"
      && ParseIntOr(productIdParam, None).Some?
      && IsAvailable(products, ParseIntOr(productIdParam, None).value)
      && (user, ParseIntOr(productIdParam, None).value as nat) !in ents
    ensures httpMethod != "POST" ==> r == Some(RedirectArchive)
  {
    if httpMethod != "POST" then Some(RedirectArchive)
    else match ParseIntOr(productIdParam, None)
      case None => Some(RedirectArchive)
      case Some(id) =>
        if !IsAvailable(products, id) then Some(NotFound)
        else if (user, id as nat) in ents then Some(RedirectProduct(products[id].slug))
        else None
  }

  /**
   * add_to_cart as the repository has it: line 77 passes user= to a helper
   * without that parameter, so every request the guards let through fails
   * with TypeError, and the cart never changes.
   */
  method AddToCartViewAsWritten(session: Session, products: map<nat, Product>, ents: Entitlements, user: nat,
                                httpMethod: string, productIdParam: Option<string>) returns (resp: Response)
    modifies session
    ensures session.cart == old(session.cart) && session.modified == old(session.modified)
    ensures var g := AddGuard(products, ents, user, httpMethod, productIdParam);
      resp == if g.Some? then g.value else ServerError
  {
    var guard := AddGuard(products, ents, user, httpMethod, productIdParam);
    if guard.Some? {
      return guard.value;
    }
    // add_product_to_cart(request.session, product_id, user=request.user): TypeError.
    return ServerError;
  }

  /** A POST for an active product the user does not own passes the guards of add_to_cart. */
  lemma AddGuardLetsThrough(p: Product, ents: Entitlements, user: nat)
    requires p.isActive && (user, p.pk) !in ents
    ensures AddGuard(map[p.pk := p], ents, user, "POST", Some(CartKey(p.pk))) == None
  {
    ParseIntOrRoundTrip(p.pk, None);
  }

  /**
   * add_to_cart with the helper called as declared: past the guards the
   * product is added with quantity 1 and the view redirects to its page.
   */
  method AddToCartView(session: Session, products: map<nat, Product>, ents: Entitlements, user: nat,
                       httpMethod: string, productIdParam: Option<string>) returns (resp: Response)
    modifies session
    ensures var g := AddGuard(products, ents, user, httpMethod, productIdParam);
      && (g.Some? ==> resp == g.value && session.cart == old(session.cart) && session.modified == old(session.modified))
      && (g.None? ==>
            var id := ParseIntOr(productIdParam, None).value;
            && resp == RedirectProduct(products[id].slug)
            && session.cart == Some(Added(old(session.CartOrEmpty()), CartKey(id), 1))
            && session.modified)
  {
    var guard := AddGuard(products, ents, user, httpMethod, productIdParam);
    if guard.Some? {
      return guard.value;
    }
    var id := ParseIntOr(productIdParam, None).value;
    var _ := session.AddToCart(products, id, 1);
    return RedirectProduct(products[id].slug);
  }

  // ---------------------------------------------------------------------
  // remove_from_cart
  // ---------------------------------------------------------------------

  /**
   * Where remove_from_cart stops before calling the cart helper: a non-POST
   * request or an unparsable id redirects to the cart, an id with no product
   * (active or not) is a 404.
   */
  function RemoveGuard(products: map<nat, Product>, httpMethod: string, productIdParam: Option<string>): (r: Option<Response>)
    ensures r.None? <==>
      && httpMethod == "POST"
      && ParseIntOr(productIdParam, None).Some?
      && ParseIntOr(productIdParam, None).value >= 0
      && ParseIntOr(productIdParam, None).value in products
    ensures r.Some? ==> r.value == RedirectCart || r.value == NotFound
  {
    if httpMethod != "POST" then Some(RedirectCart)
    else match ParseIntOr(productIdParam, None)
      case None => Some(RedirectCart)
      case Some(id) => if id >= 0 && id in products then None else Some(NotFound)
  }

  /** remove_from_cart as the repository has it: line 120 passes user= too, so past the guards it fails. */
  method RemoveFromCartViewAsWritten(session: Session, products: map<nat, Product>,
                                     httpMethod: string, productIdParam: Option<string>) returns (resp: Response)
    modifies session
    ensures session.cart == old(session.cart) && session.modified == old(session.modified)
    ensures var g := RemoveGuard(products, httpMethod, productIdParam);
      resp == if g.Some? then g.value else ServerError
  {
    var guard := RemoveGuard(products, httpMethod, productIdParam);
    if guard.Some? {
      return guard.value;
    }
    // remove_product_from_cart(request.session, product_id, user=request.user): TypeError.
    return ServerError;
  }

  /** A POST naming any existing product, even one not in the cart, passes the guards of remove_from_cart. */
  lemma RemoveGuardLetsThrough(p: Product)
    ensures RemoveGuard(map[p.pk := p], "POST", Some(CartKey(p.pk))) == None
  {
    ParseIntOrRoundTrip(p.pk, None);
  }

  /** remove_from_cart with the helper called as declared: the entry goes if present, and the view redirects to the cart. */
  method RemoveFromCartView(session: Session, products: map<nat, Product>,
                            httpMethod: string, productIdParam: Option<string>) returns (resp: Response)
    modifies session
    ensures resp == RedirectCart || resp == NotFound
    ensures var g := RemoveGuard(products, httpMethod, productIdParam);
      && (g.Some? ==> session.cart == old(session.cart) && session.modified == old(session.modified))
      && (g.None? ==>
            session.cart == Some(DelItem(old(session.CartOrEmpty()), CartKey(ParseIntOr(productIdParam, None).value))))
  {
    var guard := RemoveGuard(products, httpMethod, productIdParam);
    if guard.Some? {
      return guard.value;
    }
    var id := ParseIntOr(productIdParam, None).value;
    var _ := session.RemoveFromCart(id);
    return RedirectCart;
  }

  // ---------------------------------------------------------------------
  // cart_view
  // ---------------------------------------------------------------------

  /**
   * cart_view as the repository has it: after the pruning, line 99 passes
   * user= to get_cart_items and fails. The 500 response is not followed by a
   * session save, so the pruning is lost and the stored cart is the old one.
   */
  method CartViewAsWritten(session: Session, ents: Entitlements, user: nat) returns (resp: Response)
    requires DistinctKeys(session.CartOrEmpty())
    modifies session
    ensures resp == ServerError
    ensures session.cart == old(session.cart) && session.modified == old(session.modified)
  {
    var startCart, startModified := session.cart, session.modified;
    var _ := RemovePurchasedItemsFromCart(session, ents, user);
    // get_cart_items(request.session, user=request.user): TypeError.
    session.DiscardUnsaved(startCart, startModified);
    return ServerError;
  }

  /**
   * cart_view with the helpers called as declared: the purchased entries
   * are pruned, then the page shows the cart lines and their total. A key
   * int() rejects makes get_cart_items raise.
   */
  method CartView(session: Session, products: map<nat, Product>, ents: Entitlements, user: nat) returns (resp: Response)
    requires DistinctKeys(session.CartOrEmpty())
    modifies session
    ensures var d := old(session.CartOrEmpty());
      && (ParseAll(Keys(d)).None? ==>
            resp == ServerError && session.cart == old(session.cart) && session.modified == old(session.modified))
      && (ParseAll(Keys(d)).Some? ==>
            var kept := FilterOutKeys(d, OwnedKeysOf(Keys(d), ents, user));
            && CartLines(kept, products).Some?
            && resp == RenderCart(CartLines(kept, products).value, SumLines(CartLines(kept, products).value))
            && session.cart == Some(kept))
  {
    ghost var d := session.CartOrEmpty();
    var startCart, startModified := session.cart, session.modified;
    var _ := RemovePurchasedItemsFromCart(session, ents, user);
    if d == [] {
      assert FilterOutKeys(d, OwnedKeysOf(Keys(d), ents, user)) == [];
    }
    ghost var kept := session.CartOrEmpty();
    ParseAllFails(Keys(d));
    if ParseAll(Keys(d)).Some? {
      FilterOutKeysMembers(d, OwnedKeysOf(Keys(d), ents, user));
      forall e | e in kept
        ensures ParseInt(e.0).Some?
      {
        var i :| 0 <= i < |d| && d[i] == e;
      }
    }
    var lines := session.GetCartItems(products);
    if lines.None? {
      session.DiscardUnsaved(startCart, startModified);
      return ServerError;
    }
    var total := SumLines(lines.value);
    return RenderCart(lines.value, total);
  }

  /** With the products stored under their keys, the cart page never lists a product the user owns. */
  lemma CartPageShowsNoOwned(d: Dict, products: map<nat, Product>, ents: Entitlements, user: nat)
    requires KeyedByPk(products) && ParseAll(Keys(d)).Some?
    ensures var kept := FilterOutKeys(d, OwnedKeysOf(Keys(d), ents, user));
      && CartLines(kept, products).Some?
      && forall i :: 0 <= i < |CartLines(kept, products).value| ==>
           (user, CartLines(kept, products).value[i].product.pk) !in ents
  {
    var kept := FilterOutKeys(d, OwnedKeysOf(Keys(d), ents, user));
    PrunedCartKeepsUnowned(d, ents, user);
    forall e | e in kept
      ensures ParseInt(e.0).Some?
    {
      var i :| 0 <= i < |d| && d[i] == e;
      assert Keys(d)[i] == e.0;
    }
    UnownedCartShowsNoOwned(kept, products, ents, user);
  }
}
