/**
 * Granting access for a paid order (orders/services.py).
 *
 * For each line item that still references a product, the entitlement for
 * (user, product) is created linked to the order, or, when it exists without
 * an order, linked to this one; an entitlement already linked to an order is
 * left alone. The returned count is the number of entitlements created or
 * linked. The row lock and the transaction are left out: the model runs the
 * loop sequentially against the store.
 */
module OrderServices {
  import opened Wrappers
  import opened OrderModels

  /** The entitlement for (user, product) exists and is linked to some order. */
  predicate Linked(ents: Entitlements, user: nat, product: nat) {
    (user, product) in ents && ents[(user, product)].Some?
  }

  /** One step of the loop: get_or_create, then link an order-less entitlement. */
  function GrantOne(ents: Entitlements, user: nat, orderId: nat, product: nat): Entitlements {
    if Linked(ents, user, product) then ents else ents[(user, product) := Some(orderId)]
  }

  /** The entitlements after the loop over the line items' products, in order. */
  function GrantAll(ents: Entitlements, user: nat, orderId: nat, products: seq<nat>): Entitlements {
    if products == [] then ents
    else GrantOne(GrantAll(ents, user, orderId, products[..|products| - 1]), user, orderId, products[|products| - 1])
  }

  /** The number the loop returns: one for each step that created or linked. */
  function GrantCount(ents: Entitlements, user: nat, orderId: nat, products: seq<nat>): nat {
    if products == [] then 0
    else
      var init := products[..|products| - 1];
      GrantCount(ents, user, orderId, init)
        + (if Linked(GrantAll(ents, user, orderId, init), user, products[|products| - 1]) then 0 else 1)
  }

  /**
   * After granting, every listed product is linked for the user; a product
   * that was not linked before is linked to this order; every other entry
   * (other users, other products, entitlements already linked) is as before,
   * and no entitlement is removed.
   */
  lemma GrantAllSpec(ents: Entitlements, user: nat, orderId: nat, products: seq<nat>)
    ensures var r := GrantAll(ents, user, orderId, products);
      && r.Keys == ents.Keys + (set pk | pk in products :: (user, pk))
      && (forall pk :: pk in products ==> Linked(r, user, pk))
      && (forall pk :: pk in products && !Linked(ents, user, pk) ==> r[(user, pk)] == Some(orderId))
      && (forall k :: k in ents && (k.0 != user || k.1 !in products || Linked(ents, user, k.1)) ==> r[k] == ents[k])
  {
    GrantAllKeys(ents, user, orderId, products);
    GrantAllEntries(ents, user, orderId, products);
  }

  /** Granting adds exactly the (user, product) keys of the listed products. */
  lemma {:induction false} GrantAllKeys(ents: Entitlements, user: nat, orderId: nat, products: seq<nat>)
    ensures GrantAll(ents, user, orderId, products).Keys == ents.Keys + (set pk | pk in products :: (user, pk))
  {
    if products != [] {
      var init := products[..|products| - 1];
      var last := products[|products| - 1];
      GrantAllKeys(ents, user, orderId, init);
      assert products == init + [last];
      assert (set pk | pk in products :: (user, pk)) == (set pk | pk in init :: (user, pk)) + {(user, last)};
    }
  }

  /** The listed products end up linked, the unlinked ones to this order; other entries are kept. */
  lemma {:induction false} GrantAllEntries(ents: Entitlements, user: nat, orderId: nat, products: seq<nat>)
    ensures var r := GrantAll(ents, user, orderId, products);
      && (forall k :: k in ents ==> k in r)
      && (forall pk :: pk in products ==> (user, pk) in r && Linked(r, user, pk))
      && (forall pk :: pk in products && !Linked(ents, user, pk) ==> r[(user, pk)] == Some(orderId))
      && (forall k :: k in ents && (k.0 != user || k.1 !in products || Linked(ents, user, k.1)) ==> r[k] == ents[k])
  {
    if products != [] {
      var init := products[..|products| - 1];
      var last := products[|products| - 1];
      GrantAllEntries(ents, user, orderId, init);
      assert products == init + [last];
      assert forall pk :: pk in products <==> pk in init || pk == last;
      var mid := GrantAll(ents, user, orderId, init);
      var r := GrantAll(ents, user, orderId, products);
      forall pk | pk in products && !Linked(ents, user, pk)
        ensures r[(user, pk)] == Some(orderId)
      {
        if pk != last || last in init {
          assert mid[(user, pk)] == Some(orderId);
        } else {
          GrantAllKeys(ents, user, orderId, init);
          assert (user, pk) in ents ==> mid[(user, pk)] == ents[(user, pk)];
        }
      }
    }
  }

  /** Linked after granting exactly when listed or linked before. */
  lemma GrantAllLinked(ents: Entitlements, user: nat, orderId: nat, products: seq<nat>, pk: nat)
    ensures Linked(GrantAll(ents, user, orderId, products), user, pk) <==> pk in products || Linked(ents, user, pk)
  {
    GrantAllSpec(ents, user, orderId, products);
  }

  /** The set of listed products that were not yet linked: the ones the grant changes. */
  function Unlinked(ents: Entitlements, user: nat, products: seq<nat>): set<nat> {
    set pk | pk in products && !Linked(ents, user, pk)
  }

  /** The count is the number of distinct listed products that were not linked before. */
  lemma {:induction false} GrantCountSpec(ents: Entitlements, user: nat, orderId: nat, products: seq<nat>)
    ensures GrantCount(ents, user, orderId, products) == |Unlinked(ents, user, products)|
  {
    if products == [] {
      assert Unlinked(ents, user, products) == {};
    } else {
      var init := products[..|products| - 1];
      var last := products[|products| - 1];
      assert products == init + [last];
      GrantCountSpec(ents, user, orderId, init);
      GrantAllLinked(ents, user, orderId, init, last);
      var before := Unlinked(ents, user, init);
      if last in init || Linked(ents, user, last) {
        assert Unlinked(ents, user, products) == before;
      } else {
        assert Unlinked(ents, user, products) == before + {last};
        assert last !in before;
      }
    }
  }

  /** When every listed product is already linked, granting changes nothing and counts 0. */
  lemma {:induction false} GrantAllNoop(ents: Entitlements, user: nat, orderId: nat, products: seq<nat>)
    requires forall pk :: pk in products ==> Linked(ents, user, pk)
    ensures GrantAll(ents, user, orderId, products) == ents
    ensures GrantCount(ents, user, orderId, products) == 0
  {
    if products != [] {
      var init := products[..|products| - 1];
      assert forall pk :: pk in init ==> pk in products;
      GrantAllNoop(ents, user, orderId, init);
    }
  }

  /** A second grant for the same order returns 0 and changes nothing. */
  lemma GrantIdempotent(ents: Entitlements, user: nat, orderId: nat, products: seq<nat>)
    ensures var r := GrantAll(ents, user, orderId, products);
      GrantAll(r, user, orderId, products) == r && GrantCount(r, user, orderId, products) == 0
  {
    GrantAllSpec(ents, user, orderId, products);
    GrantAllNoop(GrantAll(ents, user, orderId, products), user, orderId, products);
  }

  /** One more line item adds its product, if it still has one. */
  lemma LineProductsStep(lines: seq<LineItem>, i: nat)
    requires i < |lines|
    ensures LineProducts(lines[..i + 1])
      == LineProducts(lines[..i]) + (if lines[i].productPk.Some? then [lines[i].productPk.value] else [])
  {
    assert lines[..i + 1][..i] == lines[..i];
  }

  /** One more listed product: one more GrantOne step, counted when it was not linked. */
  lemma GrantStep(ents: Entitlements, user: nat, orderId: nat, init: seq<nat>, pk: nat)
    ensures var ps := init + [pk];
      && GrantAll(ents, user, orderId, ps) == GrantOne(GrantAll(ents, user, orderId, init), user, orderId, pk)
      && GrantCount(ents, user, orderId, ps)
           == GrantCount(ents, user, orderId, init) + (if Linked(GrantAll(ents, user, orderId, init), user, pk) then 0 else 1)
  {
    var ps := init + [pk];
    assert ps[..|ps| - 1] == init;
  }

  /** The user the grant is for: the one passed in, else the order's owner. */
  function GrantUser(o: Order, user: Option<nat>): Option<nat> {
    if user.Some? then user else o.user
  }

  /**
   * grant_entitlements_for_order: without a user nothing happens and 0 is
   * returned; otherwise the loop over the order's line items runs.
   */
  method GrantEntitlementsForOrder(store: OrderStore, index: nat, user: Option<nat>) returns (changed: nat)
    requires index < |store.orders|
    modifies store`entitlements
    ensures var o := store.orders[index];
      var u := GrantUser(o, user);
      && (u.None? ==> changed == 0 && store.entitlements == old(store.entitlements))
      && (u.Some? ==> store.entitlements == GrantAll(old(store.entitlements), u.value, o.id, LineProducts(o.lines)))
      && (u.Some? ==> changed == GrantCount(old(store.entitlements), u.value, o.id, LineProducts(o.lines)))
  {
    var order := store.orders[index];
    var u := GrantUser(order, user);
    if u.None? {
      return 0;
    }
    var who := u.value;
    ghost var ents0 := store.entitlements;
    changed := 0;
    var lines := order.lines;
    var i := 0;
    while i < |lines|
      invariant 0 <= i <= |lines|
      invariant store.entitlements == GrantAll(ents0, who, order.id, LineProducts(lines[..i]))
      invariant changed == GrantCount(ents0, who, order.id, LineProducts(lines[..i]))
    {
      LineProductsStep(lines, i);
      if lines[i].productPk.Some? {
        var pk := lines[i].productPk.value;
        GrantStep(ents0, who, order.id, LineProducts(lines[..i]), pk);
        var granted := GrantProduct(store, who, order.id, pk);
        if granted {
          changed := changed + 1;
        }
        assert LineProducts(lines[..i + 1]) == LineProducts(lines[..i]) + [pk];
      } else {
        assert LineProducts(lines[..i + 1]) == LineProducts(lines[..i]);
      }
      i := i + 1;
    }
    assert lines[..|lines|] == lines;
  }

  /**
   * The loop body for a product: Entitlement.objects.get_or_create for
   * (user, product) with this order, then linking an order-less one;
   * whether it created or linked.
   */
  method GrantProduct(store: OrderStore, user: nat, orderId: nat, pk: nat) returns (granted: bool)
    modifies store`entitlements
    ensures store.entitlements == GrantOne(old(store.entitlements), user, orderId, pk)
    ensures granted == !Linked(old(store.entitlements), user, pk)
  {
    var key := (user, pk);
    granted := false;
    if key !in store.entitlements {
      store.entitlements := store.entitlements[key := Some(orderId)];
      granted := true;
    } else if store.entitlements[key].None? {
      store.entitlements := store.entitlements[key := Some(orderId)];
      granted := true;
    }
  }
}
