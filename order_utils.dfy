/**
 * Building an order from the session cart (orders/order_utils.py): one line
 * item per cart line with quantity 1, the order total the sum of the saved
 * line totals, and the cart emptied afterwards.
 */
module OrderUtils {
  import opened Wrappers
  import opened ProductModels
  import opened SessionCart
  import opened OrderModels

  /** What create_order_from_cart gives: the ValueError of get_cart_items, no order, or the new order's position. */
  datatype Outcome = Raised | NoOrder | Created(index: nat)

  /** The line item created for one cart line: the product, its title and price, quantity 1, saved. */
  function LineForCartLine(line: CartLine): LineItem {
    SavedLine(LineItem(Some(line.product.pk), line.product.title, line.product.priceCents, 1, 0))
  }

  function LinesForCart(lines: seq<CartLine>): (r: seq<LineItem>)
    ensures |r| == |lines|
  {
    if lines == [] then [] else LinesForCart(lines[..|lines| - 1]) + [LineForCartLine(lines[|lines| - 1])]
  }

  /** The sum of the prices of the cart lines' products: one unit of each. */
  function UnitPriceSum(lines: seq<CartLine>): int {
    if lines == [] then 0 else UnitPriceSum(lines[..|lines| - 1]) + lines[|lines| - 1].product.priceCents
  }

  /** The order create_order_from_cart leaves: numbered on creation, then given its lines and total. */
  function OrderFromCart(id: nat, user: Option<nat>, lines: seq<CartLine>, now: int, uuid: nat): Order {
    var items := LinesForCart(lines);
    NumberedOnSave(NewOrder(id, user, now), uuid).(lines := items, totalCents := LineTotalSum(items))
  }

  /**
   * Each line item is one unit of its cart line's product at the product's
   * price; the lines follow the cart; and the total is the sum of the prices,
   * whatever quantities the cart holds.
   */
  lemma {:induction false} LinesForCartSpec(lines: seq<CartLine>)
    ensures var items := LinesForCart(lines);
      && (forall i :: 0 <= i < |items| ==>
            && items[i].productPk == Some(lines[i].product.pk)
            && items[i].productTitle == lines[i].product.title
            && items[i].quantity == 1
            && items[i].lineTotalCents == items[i].productPriceCents == lines[i].product.priceCents)
      && LineTotalSum(items) == UnitPriceSum(lines)
  {
    if lines != [] {
      var n := |lines| - 1;
      LinesForCartSpec(lines[..n]);
      assert LinesForCart(lines)[..n] == LinesForCart(lines[..n]);
    }
  }

  /** When every cart quantity is 1, the order total is the cart total get_cart_total reports. */
  lemma {:induction false} UnitCartTotal(lines: seq<CartLine>)
    requires forall i :: 0 <= i < |lines| ==> lines[i].quantity == 1
    requires forall i :: 0 <= i < |lines| ==> lines[i].lineTotalCents == lines[i].product.priceCents * lines[i].quantity
    ensures UnitPriceSum(lines) == SumLines(lines)
  {
    if lines != [] {
      var n := |lines| - 1;
      UnitCartTotal(lines[..n]);
      SumLinesAppend(lines[..n], [lines[n]]);
      assert lines == lines[..n] + [lines[n]];
    }
  }

  /**
   * create_order_from_cart: a cart key int() rejects raises (the cart entry
   * still gets created); an empty item list gives no order; otherwise one
   * order with a line per cart line is added, its total is set, and the cart
   * is emptied.
   */
  method CreateOrderFromCart(store: OrderStore, session: Session, products: map<nat, Product>,
                             user: Option<nat>, now: int, uuid: nat) returns (r: Outcome)
    requires store.Valid() && NumberFree(store.orders, OrderNumberFromUuid(uuid), None)
    modifies store`orders, store`nextId, session
    ensures store.Valid()
    ensures var lines := CartLines(old(session.CartOrEmpty()), products);
      && (lines.None? || lines == Some([]) ==>
            && r == (if lines.None? then Raised else NoOrder)
            && store.orders == old(store.orders) && store.nextId == old(store.nextId)
            && session.cart == Some(old(session.CartOrEmpty())))
      && (lines.Some? && lines.value != [] ==>
            && r == Created(|old(store.orders)|)
            && store.orders == old(store.orders) + [OrderFromCart(old(store.nextId), user, lines.value, now, uuid)]
            && session.cart == Some([]) && session.modified)
  {
    var items := session.GetCartItems(products);
    if items.None? {
      return Raised;
    }
    var lines := items.value;
    if lines == [] {
      return NoOrder;
    }
    var index := BuildCartOrder(store, user, lines, now, uuid);
    session.ClearCart();
    return Created(index);
  }

  /**
   * The order create_order_from_cart saves: a new pending order, a line
   * item per cart line, then the summed total saved on it.
   */
  method BuildCartOrder(store: OrderStore, user: Option<nat>, lines: seq<CartLine>, now: int, uuid: nat)
    returns (index: nat)
    requires store.Valid() && NumberFree(store.orders, OrderNumberFromUuid(uuid), None)
    modifies store`orders, store`nextId
    ensures store.Valid()
    ensures index == |old(store.orders)|
    ensures store.orders == old(store.orders) + [OrderFromCart(old(store.nextId), user, lines, now, uuid)]
  {
    ghost var orders0 := store.orders;
    var id := store.CreateOrder(user, 0, now, uuid);
    index := |store.orders| - 1;
    ghost var created := NumberedOnSave(NewOrder(id, user, now), uuid);
    assert NewOrder(id, user, now).(totalCents := 0) == NewOrder(id, user, now);
    var total := AddCartLines(store, index, lines);
    var order := store.orders[index];
    assert order == created.(lines := LinesForCart(lines));
    SavedCartOrder(id, user, lines, now, uuid, total);
    store.SaveOrderAt(index, NumberedOnSave(order.(totalCents := total), uuid));
  }

  /** Saving the order with its lines and summed total gives OrderFromCart, its number unchanged. */
  lemma SavedCartOrder(id: nat, user: Option<nat>, lines: seq<CartLine>, now: int, uuid: nat, total: int)
    requires total == LineTotalSum(LinesForCart(lines))
    ensures var created := NumberedOnSave(NewOrder(id, user, now), uuid);
      NumberedOnSave(created.(lines := LinesForCart(lines)).(totalCents := total), uuid) == OrderFromCart(id, user, lines, now, uuid)
  {
    NumberedOnSaveStable(NewOrder(id, user, now), uuid, uuid);
  }

  /** The loop of create_order_from_cart: a line item per cart line, with the line totals summed from 0.00. */
  method AddCartLines(store: OrderStore, index: nat, lines: seq<CartLine>) returns (total: int)
    requires store.Valid() && index < |store.orders| && store.orders[index].lines == []
    modifies store`orders
    ensures store.Valid()
    ensures store.orders == old(store.orders)[index := old(store.orders[index]).(lines := LinesForCart(lines))]
    ensures total == LineTotalSum(LinesForCart(lines))
  {
    ghost var base := store.orders;
    ghost var o := store.orders[index];
    total := 0;
    var i := 0;
    assert lines[..0] == [];
    assert o.(lines := []) == o;
    while i < |lines|
      invariant 0 <= i <= |lines| && index < |store.orders|
      invariant store.Valid()
      invariant store.orders == base[index := o.(lines := LinesForCart(lines[..i]))]
      invariant total == LineTotalSum(LinesForCart(lines[..i]))
    {
      var p := lines[i].product;
      store.AddLineItem(index, LineItem(Some(p.pk), p.title, p.priceCents, 1, 0));
      total := total + SavedLine(LineItem(Some(p.pk), p.title, p.priceCents, 1, 0)).lineTotalCents;
      assert lines[..i + 1][..i] == lines[..i];
      i := i + 1;
    }
    assert lines[..|lines|] == lines;
  }
}
