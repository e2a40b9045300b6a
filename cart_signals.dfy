/**
 * Restoring the persistent cart on login (cart/signals.py). The persistent
 * carts are a table from user to the cart's items; each item names a
 * product (at most once per cart) and a stored quantity.
 */
module CartSignals {
  import opened Wrappers
  import opened Text
  import opened ProductModels
  import opened SessionCart

  datatype CartItem = CartItem(productPk: nat, quantity: nat)

  /** The persistent Cart rows (one per user) with their items. */
  class PersistentCarts {
    var carts: map<nat, seq<CartItem>>

    constructor ()
      ensures carts == map[]
    {
      carts := map[];
    }

    /** Cart.objects.get_or_create(user=user): a missing cart is created empty; an existing one is kept. */
    method GetOrCreate(user: nat) returns (items: seq<CartItem>)
      modifies this
      ensures user in old(carts) ==> carts == old(carts) && items == old(carts)[user]
      ensures user !in old(carts) ==> carts == old(carts)[user := []] && items == []
    {
      if user !in carts {
        carts := carts[user := []];
      }
      items := carts[user];
    }
  }

  /** The item's product exists and is active: the join and filter of the items query. */
  predicate Restorable(item: CartItem, products: map<nat, Product>) {
    item.productPk in products && products[item.productPk].isActive
  }

  /** {str(item.product.pk): 1 for item in items}, over the items whose product is active. */
  function RestoredCart(items: seq<CartItem>, products: map<nat, Product>): Dict {
    if items == [] then []
    else
      var n := |items| - 1;
      var rest := RestoredCart(items[..n], products);
      if Restorable(items[n], products) then SetItem(rest, CartKey(items[n].productPk), 1) else rest
  }

  /**
   * The restored cart has one entry per active product of the persistent
   * cart, each with quantity 1 whatever was stored, and no other entry.
   */
  lemma {:induction false} RestoredCartSpec(items: seq<CartItem>, products: map<nat, Product>)
    ensures var r := RestoredCart(items, products);
      && DistinctKeys(r)
      && (forall k :: k in AsMap(r) <==>
            exists i :: 0 <= i < |items| && Restorable(items[i], products) && k == CartKey(items[i].productPk))
      && (forall k :: k in AsMap(r) ==> AsMap(r)[k] == 1)
  {
    if items != [] {
      var n := |items| - 1;
      var rest := RestoredCart(items[..n], products);
      RestoredCartSpec(items[..n], products);
      assert forall i :: 0 <= i < n ==> items[..n][i] == items[i];
      if Restorable(items[n], products) {
        SetItemDistinct(rest, CartKey(items[n].productPk), 1);
        SetItemSpec(rest, CartKey(items[n].productPk), 1);
      }
    }
  }

  /** A product that is not active is never restored, whatever the persistent cart holds. */
  lemma InactiveNeverRestored(items: seq<CartItem>, products: map<nat, Product>, pk: nat)
    requires KeyedByPk(products) && pk in products && !products[pk].isActive
    ensures CartKey(pk) !in AsMap(RestoredCart(items, products))
  {
    RestoredCartSpec(items, products);
    if CartKey(pk) in AsMap(RestoredCart(items, products)) {
      var i :| 0 <= i < |items| && Restorable(items[i], products) && CartKey(pk) == CartKey(items[i].productPk);
      IntToStringInjective(pk, items[i].productPk);
    }
  }

  /**
   * restore_cart_to_session: a session cart with entries is left as it is;
   * otherwise the user's persistent cart is fetched (created if missing) and
   * the session cart becomes its restored form, marking the session modified.
   */
  method RestoreCartToSession(session: Session, store: PersistentCarts, products: map<nat, Product>, user: nat)
    modifies session, store
    ensures old(session.CartOrEmpty()) != [] ==>
      && session.cart == old(session.cart) && session.modified == old(session.modified)
      && store.carts == old(store.carts)
    ensures old(session.CartOrEmpty()) == [] ==>
      && user in store.carts
      && store.carts == (if user in old(store.carts) then old(store.carts) else old(store.carts)[user := []])
      && session.cart == Some(RestoredCart(store.carts[user], products))
      && session.modified
  {
    if session.CartOrEmpty() != [] {
      return;
    }
    var items := store.GetOrCreate(user);
    var restored := RestoredCart(items, products);
    session.cart := Some(restored);
    session.modified := true;
  }
}
