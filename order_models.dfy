/**
 * Orders, their line items and access entitlements (orders/models.py).
 *
 * The orders table is a sequence of records in primary-key order; an order
 * owns its line items (they are deleted with it). An access entitlement is
 * keyed by (user id, product id), of which there is at most one, and records
 * the order it is linked to, if any. Money is in integer cents.
 */
module OrderModels {
  import opened Wrappers

  /** The status strings the code writes: the three declared choices and "paid". */
  datatype Status = Pending | Completed | Failed | Paid

  datatype LineItem = LineItem(
    productPk: Option<nat>,
    productTitle: string,
    productPriceCents: int,
    quantity: int,
    lineTotalCents: int)

  datatype Order = Order(
    id: nat,
    user: Option<nat>,
    orderNumber: string,
    status: Status,
    totalCents: int,
    stripeSessionId: string,
    stripePaymentIntentId: string,
    createdAt: int,
    lines: seq<LineItem>)

  /** (user id, product id) to the linked order's id, or None for an entitlement without order. */
  type Entitlements = map<(nat, nat), Option<nat>>

  // ---------------------------------------------------------------------
  // Order numbers
  // ---------------------------------------------------------------------

  const OrderNumberLength: nat := 16
  /** A uuid4 is a 128-bit number: 32 hexadecimal digits. */
  const UuidDigits: nat := 32

  predicate IsUpperHex(c: char) { '0' <= c <= '9' || 'A' <= c <= 'F' }

  function HexDigit(d: nat): (c: char)
    requires d < 16
    ensures IsUpperHex(c)
  {
    ['0', '1', '2', '3', '4', '5', '6', '7', '8', '9', 'A', 'B', 'C', 'D', 'E', 'F'][d]
  }

  /** The `width` low hexadecimal digits of n, zero-padded, most significant first, upper case. */
  function HexUpper(n: nat, width: nat): (s: string)
    ensures |s| == width && forall i :: 0 <= i < width ==> IsUpperHex(s[i])
  {
    if width == 0 then [] else HexUpper(n / 16, width - 1) + [HexDigit(n % 16)]
  }

  /** A generated order number: 16 upper-case hexadecimal characters. */
  predicate IsOrderNumber(s: string) {
    |s| == OrderNumberLength && forall i :: 0 <= i < |s| ==> IsUpperHex(s[i])
  }

  /** uuid.uuid4().hex.upper()[:16] for the uuid whose 128-bit value is `uuid`. */
  function OrderNumberFromUuid(uuid: nat): (s: string)
    ensures IsOrderNumber(s)
  {
    HexUpper(uuid, UuidDigits)[..OrderNumberLength]
  }

  // ---------------------------------------------------------------------
  // Saving orders and line items
  // ---------------------------------------------------------------------

  /** A new order with the field defaults: pending, total 0.00, no Stripe ids, no line items. */
  function NewOrder(id: nat, user: Option<nat>, now: int): (o: Order)
    ensures o.status == Pending && o.totalCents == 0 && o.totalCents >= 0
    ensures o.stripeSessionId == "" && o.stripePaymentIntentId == "" && o.lines == []
  {
    Order(id, user, "", Pending, 0, "", "", now, [])
  }

  /** Order.save: an order without number gets one from the uuid; an existing number is kept. */
  function NumberedOnSave(o: Order, uuid: nat): (r: Order)
    ensures o.orderNumber != "" ==> r == o
    ensures o.orderNumber == "" ==> r == o.(orderNumber := OrderNumberFromUuid(uuid))
    ensures IsOrderNumber(o.orderNumber) || o.orderNumber == "" ==> IsOrderNumber(r.orderNumber)
  {
    if o.orderNumber == "" then o.(orderNumber := OrderNumberFromUuid(uuid)) else o
  }

  /** Saving twice assigns the number once: the second save keeps it whatever uuid it draws. */
  lemma NumberedOnSaveStable(o: Order, u1: nat, u2: nat)
    ensures NumberedOnSave(NumberedOnSave(o, u1), u2) == NumberedOnSave(o, u1)
  {
  }

  /** OrderLineItem.save: line_total is recomputed as product_price * quantity. */
  function SavedLine(li: LineItem): (r: LineItem)
    ensures r.lineTotalCents == li.productPriceCents * li.quantity
    ensures r == li.(lineTotalCents := r.lineTotalCents)
  {
    li.(lineTotalCents := li.productPriceCents * li.quantity)
  }

  /** Whatever line_total was supplied, the saved one is the same. */
  lemma SavedLineOverrides(li: LineItem, supplied: int)
    ensures SavedLine(li.(lineTotalCents := supplied)) == SavedLine(li)
    ensures li.quantity >= 1 && li.productPriceCents >= 0 ==> SavedLine(li).lineTotalCents >= li.productPriceCents
  {
    if li.quantity >= 1 && li.productPriceCents >= 0 {
      assert li.productPriceCents * li.quantity >= li.productPriceCents * 1;
    }
  }

  /** The validators on the quantity and money fields. */
  predicate LineItemValid(li: LineItem) {
    li.quantity >= 1 && li.productPriceCents >= 0 && li.lineTotalCents >= 0
  }

  /** The sum of the line totals. */
  function LineTotalSum(lines: seq<LineItem>): int {
    if lines == [] then 0 else LineTotalSum(lines[..|lines| - 1]) + lines[|lines| - 1].lineTotalCents
  }

  // ---------------------------------------------------------------------
  // Table lookups
  // ---------------------------------------------------------------------

  /** The position of the order with primary key `id`. */
  function IndexOfId(orders: seq<Order>, id: nat): (r: Option<nat>)
    ensures r.Some? ==> r.value < |orders| && orders[r.value].id == id
    ensures r.None? ==> forall i :: 0 <= i < |orders| ==> orders[i].id != id
  {
    if orders == [] then None
    else if orders[|orders| - 1].id == id then Some(|orders| - 1)
    else IndexOfId(orders[..|orders| - 1], id)
  }

  /** The position of the order with the given order number. */
  function IndexOfNumber(orders: seq<Order>, number: string): (r: Option<nat>)
    ensures r.Some? ==> r.value < |orders| && orders[r.value].orderNumber == number
    ensures r.None? ==> forall i :: 0 <= i < |orders| ==> orders[i].orderNumber != number
  {
    if orders == [] then None
    else if orders[|orders| - 1].orderNumber == number then Some(|orders| - 1)
    else IndexOfNumber(orders[..|orders| - 1], number)
  }

  /** Primary keys are unique. */
  predicate DistinctIds(orders: seq<Order>) {
    forall i, j :: 0 <= i < j < |orders| ==> orders[i].id != orders[j].id
  }

  /** Order numbers are unique (order_number is declared unique=True). */
  predicate DistinctNumbers(orders: seq<Order>) {
    forall i, j :: 0 <= i < j < |orders| ==> orders[i].orderNumber != orders[j].orderNumber
  }

  /** No stored order carries the number, apart from the one at position `except`, if any. */
  predicate NumberFree(orders: seq<Order>, number: string, except: Option<nat>) {
    forall j :: 0 <= j < |orders| && Some(j) != except ==> orders[j].orderNumber != number
  }

  /** With unique numbers, an order's own number is held by no other order. */
  lemma OwnNumberFree(orders: seq<Order>, i: nat)
    requires DistinctNumbers(orders) && i < |orders|
    ensures NumberFree(orders, orders[i].orderNumber, Some(i))
  {
    forall j | 0 <= j < |orders| && Some(j) != Some(i)
      ensures orders[j].orderNumber != orders[i].orderNumber
    {
      if j < i {
        assert orders[j].orderNumber != orders[i].orderNumber;
      }
    }
  }

  /** With unique numbers, the lookup by an order's number finds that very order. */
  lemma {:induction false} IndexOfNumberUnique(orders: seq<Order>, i: nat)
    requires DistinctNumbers(orders) && i < |orders|
    ensures IndexOfNumber(orders, orders[i].orderNumber) == Some(i)
  {
    var n := |orders| - 1;
    if i < n {
      assert orders[n].orderNumber != orders[i].orderNumber;
      assert orders[..n][i] == orders[i];
      IndexOfNumberUnique(orders[..n], i);
    }
  }

  /** Only the record at position i changes, and it keeps its primary key. */
  lemma ReplaceKeepsIds(orders: seq<Order>, i: nat, o: Order)
    requires DistinctIds(orders) && i < |orders| && o.id == orders[i].id
    ensures DistinctIds(orders[i := o])
  {
  }

  /** Rewriting one record under its own key and number leaves both lookups as they were. */
  lemma {:induction false} LookupsAfterReplace(orders: seq<Order>, i: nat, o: Order, id: nat, number: string)
    requires i < |orders| && o.id == orders[i].id && o.orderNumber == orders[i].orderNumber
    ensures IndexOfId(orders[i := o], id) == IndexOfId(orders, id)
    ensures IndexOfNumber(orders[i := o], number) == IndexOfNumber(orders, number)
  {
    var n := |orders| - 1;
    if i < n {
      assert orders[i := o][..n] == orders[..n][i := o];
      LookupsAfterReplace(orders[..n], i, o, id, number);
    } else {
      assert orders[i := o][..n] == orders[..n];
    }
  }

  /** The entitlement for (user, product) exists. */
  predicate HasEntitlement(ents: Entitlements, user: nat, product: nat) {
    (user, product) in ents
  }

  /** The product ids of an order's line items that still reference a product. */
  function LineProducts(lines: seq<LineItem>): seq<nat> {
    if lines == [] then []
    else
      var rest := LineProducts(lines[..|lines| - 1]);
      match lines[|lines| - 1].productPk
      case Some(pk) => rest + [pk]
      case None => rest
  }

  /** The listed products are exactly those of the line items that still reference one. */
  lemma {:induction false} LineProductsMembers(lines: seq<LineItem>)
    ensures forall pk :: pk in LineProducts(lines) <==> exists i :: 0 <= i < |lines| && lines[i].productPk == Some(pk)
  {
    if lines != [] {
      var n := |lines| - 1;
      LineProductsMembers(lines[..n]);
      assert forall i :: 0 <= i < n ==> lines[..n][i] == lines[i];
    }
  }

  // ---------------------------------------------------------------------
  // The store
  // ---------------------------------------------------------------------

  /** The orders table (with line items), the entitlements table and the next primary key. */
  class OrderStore {
    var orders: seq<Order>
    var entitlements: Entitlements
    var nextId: nat

    predicate Valid()
      reads this
    {
      && DistinctIds(orders) && DistinctNumbers(orders)
      && forall i :: 0 <= i < |orders| ==> orders[i].id < nextId
    }

    constructor ()
      ensures Valid() && orders == [] && entitlements == map[] && nextId == 0
    {
      orders := [];
      entitlements := map[];
      nextId := 0;
    }

    /**
     * Order.objects.create(user=..., total=..., status="pending"): a fresh
     * primary key, the field defaults, and an order number from the uuid.
     */
    method CreateOrder(user: Option<nat>, totalCents: int, now: int, uuid: nat) returns (id: nat)
      requires Valid() && NumberFree(orders, OrderNumberFromUuid(uuid), None)
      modifies this`orders, this`nextId
      ensures Valid()
      ensures id == old(nextId) && nextId == old(nextId) + 1 && IndexOfId(old(orders), id).None?
      ensures orders == old(orders) + [NumberedOnSave(NewOrder(id, user, now).(totalCents := totalCents), uuid)]
      ensures IsOrderNumber(orders[|orders| - 1].orderNumber)
    {
      id := nextId;
      var o := NewOrder(id, user, now).(totalCents := totalCents);
      o := NumberedOnSave(o, uuid);
      orders := orders + [o];
      nextId := nextId + 1;
    }

    /** OrderLineItem.objects.create for an existing order: the line is saved with its total. */
    method AddLineItem(index: nat, li: LineItem)
      requires Valid() && index < |orders|
      modifies this`orders
      ensures Valid()
      ensures orders == old(orders)[index := old(orders)[index].(lines := old(orders)[index].lines + [SavedLine(li)])]
    {
      var o := orders[index];
      orders := orders[index := o.(lines := o.lines + [SavedLine(li)])];
    }

    /** order.save(): write back a record under its own primary key. */
    method SaveOrderAt(index: nat, o: Order)
      requires Valid() && index < |orders| && o.id == orders[index].id
      requires NumberFree(orders, o.orderNumber, Some(index))
      modifies this`orders
      ensures Valid() && orders == old(orders)[index := o]
    {
      ReplaceKeepsIds(orders, index, o);
      orders := orders[index := o];
    }

    /** order.delete(): the order and, by cascade, its line items go. */
    method DeleteOrderAt(index: nat)
      requires Valid() && index < |orders|
      modifies this`orders
      ensures Valid() && orders == old(orders)[..index] + old(orders)[index + 1..]
    {
      orders := orders[..index] + orders[index + 1..];
    }
  }
}
