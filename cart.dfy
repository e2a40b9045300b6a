/**
 * The session cart (cart/cart.py). The session's "cart" entry is a Python
 * dict from str(product id) to quantity; dicts keep insertion order, so the
 * model keeps it as a sequence of (key, quantity) entries with distinct keys,
 * and AsMap gives its dictionary view. A session either has no "cart" entry
 * yet (None) or has one.
 *
 * Assigning a session key marks the session modified (Django's
 * SessionBase.__setitem__ does so); changing the dict in place does not, which
 * is why the helpers set `modified` themselves.
 */
module SessionCart {
  import opened Wrappers
  import opened Text
  import opened ProductModels

  type Dict = seq<(string, int)>

  function Keys(d: Dict): (ks: seq<string>)
    ensures |ks| == |d| && forall i :: 0 <= i < |d| ==> ks[i] == d[i].0
  {
    if d == [] then [] else [d[0].0] + Keys(d[1..])
  }

  /** A dict never holds a key twice. */
  predicate DistinctKeys(d: Dict) {
    d == [] || (d[0].0 !in Keys(d[1..]) && DistinctKeys(d[1..]))
  }

  /** The dictionary view: key to quantity. */
  function AsMap(d: Dict): map<string, int> {
    if d == [] then map[] else AsMap(d[1..])[d[0].0 := d[0].1]
  }

  lemma {:induction false} AsMapKeys(d: Dict, k: string)
    ensures k in AsMap(d) <==> k in Keys(d)
  {
    if d != [] {
      AsMapKeys(d[1..], k);
      assert Keys(d) == [d[0].0] + Keys(d[1..]);
    }
  }

  /** d[k] for a key that is present. */
  function Get(d: Dict, k: string): int
    requires k in Keys(d)
  {
    if d[0].0 == k then d[0].1 else Get(d[1..], k)
  }

  lemma {:induction false} GetAsMap(d: Dict, k: string)
    requires k in Keys(d)
    ensures k in AsMap(d) && AsMap(d)[k] == Get(d, k)
  {
    AsMapKeys(d, k);
    if d[0].0 != k {
      GetAsMap(d[1..], k);
    }
  }

  /** d[k] = v: an existing key keeps its place, a new key goes last. */
  function SetItem(d: Dict, k: string, v: int): (r: Dict)
    ensures Keys(r) == if k in Keys(d) then Keys(d) else Keys(d) + [k]
  {
    if d == [] then [(k, v)]
    else if d[0].0 == k then [(k, v)] + d[1..]
    else [d[0]] + SetItem(d[1..], k, v)
  }

  /** del d[k]: the entry with key k goes, the others keep their order. */
  function DelItem(d: Dict, k: string): (r: Dict)
    ensures |r| <= |d|
  {
    if d == [] then []
    else if d[0].0 == k then d[1..]
    else [d[0]] + DelItem(d[1..], k)
  }

  lemma {:induction false} SetItemDistinct(d: Dict, k: string, v: int)
    requires DistinctKeys(d)
    ensures DistinctKeys(SetItem(d, k, v))
  {
    if d != [] {
      var r := SetItem(d, k, v);
      if d[0].0 == k {
        assert r[1..] == d[1..];
      } else {
        SetItemDistinct(d[1..], k, v);
        assert r[1..] == SetItem(d[1..], k, v);
      }
    }
  }

  /** Setting a key updates the dictionary view at that key only. */
  lemma {:induction false} SetItemSpec(d: Dict, k: string, v: int)
    ensures AsMap(SetItem(d, k, v)) == AsMap(d)[k := v]
  {
    if d != [] {
      var r := SetItem(d, k, v);
      var m := AsMap(d[1..]);
      if d[0].0 == k {
        assert r[1..] == d[1..];
        UpdateTwice(m, k, d[0].1, v);
      } else {
        SetItemSpec(d[1..], k, v);
        assert r[1..] == SetItem(d[1..], k, v);
        UpdateCommute(m, k, v, d[0].0, d[0].1);
      }
    }
  }

  lemma UpdateTwice(m: map<string, int>, k: string, a: int, b: int)
    ensures m[k := a][k := b] == m[k := b]
  {
  }

  lemma UpdateCommute(m: map<string, int>, k1: string, v1: int, k2: string, v2: int)
    requires k1 != k2
    ensures m[k1 := v1][k2 := v2] == m[k2 := v2][k1 := v1]
  {
  }

  lemma {:induction false} KeysDelItem(d: Dict, k: string)
    ensures forall x :: x in Keys(DelItem(d, k)) ==> x in Keys(d)
  {
    if d != [] && d[0].0 != k {
      KeysDelItem(d[1..], k);
      assert DelItem(d, k)[1..] == DelItem(d[1..], k);
    }
  }

  lemma {:induction false} DelItemDistinct(d: Dict, k: string)
    requires DistinctKeys(d)
    ensures DistinctKeys(DelItem(d, k))
  {
    if d != [] && d[0].0 != k {
      DelItemDistinct(d[1..], k);
      KeysDelItem(d[1..], k);
      var r := DelItem(d, k);
      assert r[1..] == DelItem(d[1..], k);
    }
  }

  /** Deleting a key drops exactly that key from the dictionary view. */
  lemma {:induction false} DelItemSpec(d: Dict, k: string)
    requires DistinctKeys(d)
    ensures AsMap(DelItem(d, k)) == AsMap(d) - {k}
  {
    if d != [] {
      var m := AsMap(d[1..]);
      if d[0].0 != k {
        DelItemSpec(d[1..], k);
        var r := DelItem(d, k);
        assert r[1..] == DelItem(d[1..], k);
        assert AsMap(r) == (m - {k})[d[0].0 := d[0].1];
      } else {
        AsMapKeys(d[1..], k);
        assert AsMap(d) - {k} == m;
      }
    }
  }

  lemma {:induction false} DelAbsent(d: Dict, k: string)
    requires k !in Keys(d)
    ensures DelItem(d, k) == d
  {
    if d != [] {
      DelAbsent(d[1..], k);
    }
  }

  /** Removing a key that was just added as new gives back the dict as it was. */
  lemma {:induction false} DelSetNew(d: Dict, k: string, v: int)
    requires k !in Keys(d)
    ensures DelItem(SetItem(d, k, v), k) == d
  {
    if d != [] {
      assert k !in Keys(d[1..]);
      DelSetNew(d[1..], k, v);
    }
  }

  // ---------------------------------------------------------------------
  // Cart operations on the dict
  // ---------------------------------------------------------------------

  /** The session key of a product: str(product_id). */
  function CartKey(productId: int): string { IntToString(productId) }

  /** `Product.objects.get(id=product_id, is_active=True)` finds a product. */
  predicate IsAvailable(products: map<nat, Product>, productId: int) {
    productId >= 0 && productId in products && products[productId].isActive
  }

  /** The quantity add_to_cart leaves under the key: old + quantity, or quantity for a new key. */
  function Added(d: Dict, k: string, quantity: int): Dict {
    SetItem(d, k, if k in Keys(d) then Get(d, k) + quantity else quantity)
  }

  /** The cart after add_to_cart: only that key's quantity changes. */
  lemma AddedSpec(d: Dict, k: string, quantity: int)
    requires DistinctKeys(d)
    ensures DistinctKeys(Added(d, k, quantity))
    ensures var m := AsMap(d);
      AsMap(Added(d, k, quantity)) == m[k := if k in m then m[k] + quantity else quantity]
  {
    var v := if k in Keys(d) then Get(d, k) + quantity else quantity;
    AsMapKeys(d, k);
    if k in Keys(d) {
      GetAsMap(d, k);
    }
    SetItemDistinct(d, k, v);
    SetItemSpec(d, k, v);
  }

  /** The dict with the entries whose key is in `gone` dropped, the others in their order. */
  function FilterOutKeys(d: Dict, gone: set<string>): (r: Dict)
    ensures |r| <= |d|
  {
    if d == [] then []
    else if d[0].0 in gone then FilterOutKeys(d[1..], gone)
    else [d[0]] + FilterOutKeys(d[1..], gone)
  }

  /** The kept entries are exactly those whose key is not dropped. */
  lemma {:induction false} FilterOutKeysMembers(d: Dict, gone: set<string>)
    ensures forall e :: e in FilterOutKeys(d, gone) <==> e in d && e.0 !in gone
  {
    if d != [] {
      FilterOutKeysMembers(d[1..], gone);
      assert forall e :: e in d <==> e == d[0] || e in d[1..];
    }
  }

  lemma {:induction false} FilterOutKeysKeys(d: Dict, gone: set<string>)
    ensures forall x :: x in Keys(FilterOutKeys(d, gone)) <==> x in Keys(d) && x !in gone
  {
    if d != [] {
      FilterOutKeysKeys(d[1..], gone);
      assert Keys(d) == [d[0].0] + Keys(d[1..]);
      if d[0].0 !in gone {
        assert Keys(FilterOutKeys(d, gone)) == [d[0].0] + Keys(FilterOutKeys(d[1..], gone));
      }
    }
  }

  lemma {:induction false} FilterOutAbsentKey(d: Dict, gone: set<string>, k: string)
    requires k !in Keys(d)
    ensures FilterOutKeys(d, gone + {k}) == FilterOutKeys(d, gone)
  {
    if d != [] {
      assert Keys(d) == [d[0].0] + Keys(d[1..]);
      FilterOutAbsentKey(d[1..], gone, k);
    }
  }

  lemma {:induction false} FilterOutNothing(d: Dict)
    ensures FilterOutKeys(d, {}) == d
  {
    if d != [] {
      FilterOutNothing(d[1..]);
    }
  }

  /** Popping one more key from the filtered dict is filtering by one more key. */
  lemma {:induction false} DelItemFilterOut(d: Dict, gone: set<string>, k: string)
    requires DistinctKeys(d)
    ensures DelItem(FilterOutKeys(d, gone), k) == FilterOutKeys(d, gone + {k})
  {
    if d == [] {
    } else if d[0].0 == k {
      FilterOutAbsentKey(d[1..], gone, k);
      if k in gone {
        assert gone + {k} == gone;
        FilterOutKeysKeys(d[1..], gone);
        DelAbsent(FilterOutKeys(d[1..], gone), k);
      }
    } else {
      DelItemFilterOut(d[1..], gone, k);
    }
  }

  /** del removes exactly one entry when the key is present. */
  lemma {:induction false} DelItemPresentLength(d: Dict, k: string)
    requires k in Keys(d)
    ensures |DelItem(d, k)| == |d| - 1
  {
    assert Keys(d) == [d[0].0] + Keys(d[1..]);
    if d[0].0 != k {
      DelItemPresentLength(d[1..], k);
    }
  }

  /** Adding a product that was not in the cart and removing it again restores the cart. */
  lemma AddThenRemove(d: Dict, k: string, quantity: int)
    requires k !in Keys(d)
    ensures DelItem(Added(d, k, quantity), k) == d
  {
    DelSetNew(d, k, quantity);
  }

  /** One line of get_cart_items. */
  datatype CartLine = CartLine(product: Product, quantity: int, lineTotalCents: int)

  /**
   * get_cart_items over a dict: keys whose product no longer exists are
   * skipped; a key that int() rejects raises ValueError, which nothing
   * catches (None). The lookup does not filter on is_active.
   */
  function CartLines(d: Dict, products: map<nat, Product>): (r: Option<seq<CartLine>>)
    ensures r.Some? ==> |r.value| <= |d|
    ensures r.Some? ==> forall i :: 0 <= i < |r.value| ==>
      r.value[i].lineTotalCents == r.value[i].product.priceCents * r.value[i].quantity
    ensures r.Some? ==> forall i :: 0 <= i < |r.value| ==> r.value[i].product in products.Values
    ensures r.None? <==> exists i :: 0 <= i < |d| && ParseInt(d[i].0).None?
  {
    if d == [] then Some([])
    else
      var last := d[|d| - 1];
      var init := d[..|d| - 1];
      assert forall i :: 0 <= i < |init| ==> init[i] == d[i];
      match CartLines(init, products)
      case None => None
      case Some(lines) =>
        match ParseInt(last.0)
        case None => None
        case Some(id) =>
          if id >= 0 && id in products then
            var p := products[id];
            Some(lines + [CartLine(p, last.1, p.priceCents * last.1)])
          else Some(lines)
  }

  /** Whether a cart entry's key names a product that still exists. */
  predicate Listed(e: (string, int), products: map<nat, Product>) {
    var id := ParseInt(e.0);
    id.Some? && id.value >= 0 && id.value in products
  }

  /** The line get_cart_items builds for an entry whose product exists. */
  function LineOf(e: (string, int), products: map<nat, Product>): CartLine
    requires Listed(e, products)
  {
    var p := products[ParseInt(e.0).value];
    CartLine(p, e.1, p.priceCents * e.1)
  }

  /** The lines of a cart whose keys all parse, entry by entry from the front. */
  function KeptLines(d: Dict, products: map<nat, Product>): seq<CartLine> {
    if d == [] then []
    else (if Listed(d[0], products) then [LineOf(d[0], products)] else []) + KeptLines(d[1..], products)
  }

  lemma {:induction false} KeptLinesAppend(a: Dict, b: Dict, products: map<nat, Product>)
    ensures KeptLines(a + b, products) == KeptLines(a, products) + KeptLines(b, products)
  {
    if a == [] {
      assert a + b == b;
    } else {
      assert (a + b)[0] == a[0] && (a + b)[1..] == a[1..] + b;
      KeptLinesAppend(a[1..], b, products);
    }
  }

  /**
   * get_cart_items keeps, in cart order, one line per entry whose product
   * exists and none for the others, whenever every key parses.
   */
  lemma {:induction false} CartLinesKept(d: Dict, products: map<nat, Product>)
    ensures (forall i :: 0 <= i < |d| ==> ParseInt(d[i].0).Some?) ==>
      CartLines(d, products) == Some(KeptLines(d, products))
  {
    if d != [] && forall i :: 0 <= i < |d| ==> ParseInt(d[i].0).Some? {
      var init := d[..|d| - 1];
      var last := d[|d| - 1];
      assert forall i :: 0 <= i < |init| ==> init[i] == d[i];
      CartLinesKept(init, products);
      assert d == init + [last];
      KeptLinesAppend(init, [last], products);
      var kept := (if Listed(last, products) then [LineOf(last, products)] else []);
      assert KeptLines([last], products) == kept by {
        assert [last][1..] == [];
      }
      assert CartLines(init, products) == Some(KeptLines(init, products));
      var id := ParseInt(last.0).value;
      assert d[|d| - 1] == last && d[..|d| - 1] == init;
      if id >= 0 && id in products {
        var p := products[id];
        assert LineOf(last, products) == CartLine(p, last.1, p.priceCents * last.1);
        assert CartLines(d, products) == Some(KeptLines(init, products) + [CartLine(p, last.1, p.priceCents * last.1)]);
      } else {
        assert CartLines(d, products) == Some(KeptLines(init, products));
        assert kept == [] && KeptLines(init, products) + kept == KeptLines(init, products);
      }
    }
  }

  /** A line is kept exactly when some entry with an existing product gives it. */
  lemma {:induction false} KeptLinesMembers(d: Dict, products: map<nat, Product>)
    ensures forall line :: line in KeptLines(d, products) <==>
      exists i :: 0 <= i < |d| && Listed(d[i], products) && line == LineOf(d[i], products)
  {
    if d != [] {
      KeptLinesMembers(d[1..], products);
      forall line
        ensures line in KeptLines(d, products) <==>
          exists i :: 0 <= i < |d| && Listed(d[i], products) && line == LineOf(d[i], products)
      {
        if exists i :: 0 <= i < |d| && Listed(d[i], products) && line == LineOf(d[i], products) {
          var i :| 0 <= i < |d| && Listed(d[i], products) && line == LineOf(d[i], products);
          if i > 0 {
            assert d[1..][i - 1] == d[i];
          }
        }
        if line in KeptLines(d[1..], products) {
          var i :| 0 <= i < |d[1..]| && Listed(d[1..][i], products) && line == LineOf(d[1..][i], products);
          assert d[i + 1] == d[1..][i];
        }
      }
    }
  }

  /** Each entry with an existing product gives one line, so a cart of such entries keeps them all. */
  lemma {:induction false} KeptLinesLength(d: Dict, products: map<nat, Product>)
    ensures |KeptLines(d, products)| <= |d|
    ensures |KeptLines(d, products)| == |d| <==> forall i :: 0 <= i < |d| ==> Listed(d[i], products)
  {
    if d != [] {
      KeptLinesLength(d[1..], products);
      if forall i :: 0 <= i < |d[1..]| ==> Listed(d[1..][i], products) {
        assert forall i :: 1 <= i < |d| ==> d[i] == d[1..][i - 1];
      } else {
        var i :| 0 <= i < |d[1..]| && !Listed(d[1..][i], products);
        assert d[i + 1] == d[1..][i];
      }
    }
  }

  /** The sum of the line totals. */
  function SumLines(lines: seq<CartLine>): int {
    if lines == [] then 0 else lines[0].lineTotalCents + SumLines(lines[1..])
  }

  lemma {:induction false} SumLinesAppend(a: seq<CartLine>, b: seq<CartLine>)
    ensures SumLines(a + b) == SumLines(a) + SumLines(b)
  {
    if a == [] {
      assert a + b == b;
    } else {
      assert (a + b)[1..] == a[1..] + b;
      SumLinesAppend(a[1..], b);
    }
  }

  /** An empty cart totals 0.00; a cart of existing products totals the sum of price * quantity. */
  lemma {:induction false} CartTotalSpec(d: Dict, products: map<nat, Product>)
    requires forall i :: 0 <= i < |d| ==> ParseInt(d[i].0).Some?
    ensures CartLines(d, products).Some?
    ensures d == [] ==> SumLines(CartLines(d, products).value) == 0
    ensures SumLines(CartLines(d, products).value) == SumPrices(d, products)
  {
    if d != [] {
      var init := d[..|d| - 1];
      CartTotalSpec(init, products);
      var lines := CartLines(init, products).value;
      var id := ParseInt(d[|d| - 1].0).value;
      if id >= 0 && id in products {
        var p := products[id];
        SumLinesAppend(lines, [CartLine(p, d[|d| - 1].1, p.priceCents * d[|d| - 1].1)]);
      }
    }
  }

  /** Reference total: price * quantity summed over the keys naming an existing product. */
  function SumPrices(d: Dict, products: map<nat, Product>): int {
    if d == [] then 0
    else
      var last := d[|d| - 1];
      var here := match ParseInt(last.0)
        case Some(id) => if id >= 0 && id in products then products[id].priceCents * last.1 else 0
        case None => 0;
      SumPrices(d[..|d| - 1], products) + here
  }

  // ---------------------------------------------------------------------
  // The session
  // ---------------------------------------------------------------------

  /**
   * The parts of the Django session the cart helpers touch. After a view
   * returns, the object stands for what SessionMiddleware stores.
   */
  class Session {
    var cart: Option<Dict>
    var modified: bool

    constructor ()
      ensures cart == None && !modified
    {
      cart := None;
      modified := false;
    }

    /** The cart dict, or {} when there is no "cart" entry yet. */
    function CartOrEmpty(): Dict
      reads this
    {
      if cart.Some? then cart.value else []
    }

    /** get_cart: create an empty "cart" entry when there is none, and return the entry. */
    method GetCart() returns (d: Dict)
      modifies this
      ensures d == old(CartOrEmpty()) && cart == Some(d)
      ensures modified == (old(modified) || old(cart).None?)
    {
      if cart.None? {
        cart := Some([]);
        modified := true;
      }
      d := cart.value;
    }

    /**
     * add_to_cart: a missing or inactive product is refused with no change
     * at all; otherwise the quantity is added to the product's entry (or the
     * entry is created) and the session is marked modified.
     */
    method AddToCart(products: map<nat, Product>, productId: int, quantity: int) returns (ok: bool)
      modifies this
      ensures ok <==> IsAvailable(products, productId)
      ensures !ok ==> cart == old(cart) && modified == old(modified)
      ensures ok ==> cart == Some(Added(old(CartOrEmpty()), CartKey(productId), quantity)) && modified
    {
      if !IsAvailable(products, productId) {
        return false;
      }
      var d := GetCart();
      var key := CartKey(productId);
      if key in Keys(d) {
        d := SetItem(d, key, Get(d, key) + quantity);
      } else {
        d := SetItem(d, key, quantity);
      }
      cart := Some(d);
      modified := true;
      ok := true;
    }

    /** remove_from_cart: True and the entry deleted iff the product was in the cart. */
    method RemoveFromCart(productId: int) returns (removed: bool)
      modifies this
      ensures removed <==> CartKey(productId) in Keys(old(CartOrEmpty()))
      ensures cart == Some(DelItem(old(CartOrEmpty()), CartKey(productId)))
      ensures modified == (old(modified) || old(cart).None? || removed)
    {
      var d := GetCart();
      var key := CartKey(productId);
      if key in Keys(d) {
        cart := Some(DelItem(d, key));
        modified := true;
        removed := true;
      } else {
        removed := false;
        assert DelItem(d, key) == d by {
          DelAbsent(d, key);
        }
      }
    }

    /** get_cart_items: one line per key whose product exists, in cart order. */
    method GetCartItems(products: map<nat, Product>) returns (lines: Option<seq<CartLine>>)
      modifies this
      ensures cart == Some(old(CartOrEmpty()))
      ensures modified == (old(modified) || old(cart).None?)
      ensures lines == CartLines(old(CartOrEmpty()), products)
    {
      var d := GetCart();
      var items: seq<CartLine> := [];
      var i := 0;
      while i < |d|
        invariant 0 <= i <= |d|
        invariant CartLines(d[..i], products) == Some(items)
      {
        assert d[..i + 1][..i] == d[..i];
        match ParseInt(d[i].0)
        case None =>
          assert CartLines(d, products).None?;
          return None;
        case Some(id) =>
          if id >= 0 && id in products {
            var p := products[id];
            items := items + [CartLine(p, d[i].1, p.priceCents * d[i].1)];
          }
        i := i + 1;
      }
      assert d[..|d|] == d;
      lines := Some(items);
    }

    /** get_cart_total: the line totals summed in a loop from 0.00. */
    method GetCartTotal(products: map<nat, Product>) returns (total: Option<int>)
      modifies this
      ensures cart == Some(old(CartOrEmpty()))
      ensures modified == (old(modified) || old(cart).None?)
      ensures var lines := CartLines(old(CartOrEmpty()), products);
        total == if lines.None? then None else Some(SumLines(lines.value))
    {
      var lines := GetCartItems(products);
      if lines.None? {
        return None;
      }
      var items := lines.value;
      var sum := 0;
      var i := 0;
      while i < |items|
        invariant 0 <= i <= |items|
        invariant sum == SumLines(items[..i])
        modifies {}
      {
        SumLinesAppend(items[..i], [items[i]]);
        assert items[..i + 1] == items[..i] + [items[i]];
        sum := sum + items[i].lineTotalCents;
        i := i + 1;
      }
      assert items[..|items|] == items;
      total := Some(sum);
    }

    /**
     * SessionMiddleware.process_response does not save the session for a
     * response of status 500 or more, so what later requests see is the
     * session the failed request started from.
     */
    method DiscardUnsaved(startCart: Option<Dict>, startModified: bool)
      modifies this
      ensures cart == startCart && modified == startModified
    {
      cart := startCart;
      modified := startModified;
    }

    /** clear_cart: the "cart" entry becomes an empty dict. */
    method ClearCart()
      modifies this
      ensures cart == Some([]) && modified
    {
      cart := Some([]);
      modified := true;
    }
  }
}
