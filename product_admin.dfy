/**
 * The product, category and deal-banner admin (products/admin.py): deletion
 * turned into unpublishing, the featured toggles, permanent removal that
 * keeps purchased products, and the list-column values.
 *
 * The HTML markup around each column value is left out: a column is modelled
 * by the values format_html fills in. A save with update_fields writes only
 * the listed columns, so the admin's saves are modelled as writes of those
 * columns (updated_at being set to `now`).
 */
module ProductAdmin {
  import opened Wrappers
  import opened Text
  import opened ProductModels
  import opened OrderModels

  // ---------------------------------------------------------------------
  // Delete turned into unpublish
  // ---------------------------------------------------------------------

  /** The changelist's bulk update: is_active cleared on every selected row. */
  function Unpublished(products: map<nat, Product>, selection: set<nat>): (r: map<nat, Product>)
  {
    map k | k in products :: if k in selection then products[k].(isActive := false) else products[k]
  }

  /**
   * No product is deleted: the table keeps its keys, selected products are
   * inactive with every other field as before, the rest are untouched.
   */
  lemma UnpublishedSpec(products: map<nat, Product>, selection: set<nat>)
    ensures var r := Unpublished(products, selection);
      && r.Keys == products.Keys
      && (forall k :: k in selection && k in products ==> !r[k].isActive && r[k] == products[k].(isActive := false))
      && (forall k :: k in products && k !in selection ==> r[k] == products[k])
  {
  }

  const DeleteModelMessage: string := "Product removed from catalog (unpublished)."

  /** delete_model: the product is unpublished (is_active and updated_at saved), not deleted. */
  method DeleteModel(cat: Catalog, pk: nat, now: int) returns (message: string)
    requires pk in cat.products
    modifies cat`products
    ensures cat.products == old(cat.products)[pk := old(cat.products)[pk].(isActive := false, updatedAt := now)]
    ensures cat.products.Keys == old(cat.products.Keys) && !cat.products[pk].isActive
    ensures message == DeleteModelMessage
  {
    var product := cat.products[pk];
    product := product.(isActive := false, updatedAt := now);
    cat.products := cat.products[pk := product];
    message := DeleteModelMessage;
  }

  /** The message of delete_queryset for `updated` rows. */
  function DeleteQuerysetMessage(updated: nat): string {
    IntToString(updated) + " product(s) removed from catalog (unpublished)."
  }

  /**
   * delete_queryset: one bulk update of is_active (which does not touch
   * updated_at); the count is the number of selected rows.
   */
  method DeleteQueryset(cat: Catalog, selection: set<nat>) returns (updated: nat, message: string)
    requires selection <= cat.products.Keys
    modifies cat`products
    ensures cat.products == Unpublished(old(cat.products), selection)
    ensures updated == |selection| && message == DeleteQuerysetMessage(updated)
  {
    cat.products := Unpublished(cat.products, selection);
    updated := |selection|;
    message := DeleteQuerysetMessage(updated);
  }

  const DeleteSelected: string := "delete_selected"

  /** The actions the admin declares. */
  const DeclaredActions: set<string> :=
    {"publish_products", "unpublish_products", "mark_as_featured", "unmark_as_featured", "remove_products_permanently"}

  /** get_actions: the inherited actions without the built-in bulk delete. */
  function GetActions(actions: set<string>): (r: set<string>)
    ensures DeleteSelected !in r
    ensures forall a :: a in r <==> a in actions && a != DeleteSelected
  {
    if DeleteSelected in actions then actions - {DeleteSelected} else actions
  }

  /** Every declared action is still offered, whatever the inherited ones. */
  lemma DeclaredActionsOffered(inherited: set<string>)
    ensures DeclaredActions <= GetActions(inherited + DeclaredActions)
  {
    assert DeleteSelected !in DeclaredActions;
  }

  // ---------------------------------------------------------------------
  // Featured toggles
  // ---------------------------------------------------------------------

  /** One step of the loop: a product whose flag differs gets the flag and updated_at. */
  function FeaturedStep(products: map<nat, Product>, pk: nat, flag: bool, now: int): map<nat, Product> {
    if pk in products && products[pk].isFeatured != flag
    then products[pk := products[pk].(isFeatured := flag, updatedAt := now)]
    else products
  }

  /** The table after the loop over the selected products, in queryset order. */
  function FeaturedAfter(products: map<nat, Product>, pks: seq<nat>, flag: bool, now: int): map<nat, Product> {
    if pks == [] then products
    else FeaturedStep(FeaturedAfter(products, pks[..|pks| - 1], flag, now), pks[|pks| - 1], flag, now)
  }

  /** How many of the listed products had a flag different from `flag`. */
  function ChangedCount(products: map<nat, Product>, pks: seq<nat>, flag: bool): nat {
    if pks == [] then 0
    else
      var pk := pks[|pks| - 1];
      ChangedCount(products, pks[..|pks| - 1], flag) + (if pk in products && products[pk].isFeatured != flag then 1 else 0)
  }

  /**
   * After the loop every listed product carries the flag; exactly those
   * whose flag differed got a new updated_at; nothing else changes and no
   * product is added or removed.
   */
  lemma {:induction false} FeaturedAfterSpec(products: map<nat, Product>, pks: seq<nat>, flag: bool, now: int)
    ensures var r := FeaturedAfter(products, pks, flag, now);
      && r.Keys == products.Keys
      && (forall k :: k in products && k in pks && products[k].isFeatured != flag ==>
            r[k] == products[k].(isFeatured := flag, updatedAt := now))
      && (forall k :: k in products && (k !in pks || products[k].isFeatured == flag) ==> r[k] == products[k])
  {
    if pks != [] {
      var init := pks[..|pks| - 1];
      FeaturedAfterSpec(products, init, flag, now);
      assert forall k :: k in pks <==> k in init || k == pks[|pks| - 1];
    }
  }

  /** The listed products whose flag differs from `flag`. */
  function ToChange(products: map<nat, Product>, pks: seq<nat>, flag: bool): set<nat> {
    set k | k in pks && k in products && products[k].isFeatured != flag
  }

  /** For a queryset (no repeated rows) the count is the number of products whose flag changes. */
  lemma {:induction false} ChangedCountSpec(products: map<nat, Product>, pks: seq<nat>, flag: bool)
    requires Distinct(pks)
    ensures ChangedCount(products, pks, flag) == |ToChange(products, pks, flag)|
  {
    if pks == [] {
      assert ToChange(products, pks, flag) == {};
    } else {
      var init := pks[..|pks| - 1];
      var pk := pks[|pks| - 1];
      assert Distinct(init) by {
        forall i, j | 0 <= i < j < |init| ensures init[i] != init[j] {
          assert init[i] == pks[i] && init[j] == pks[j];
        }
      }
      assert pk !in init by {
        forall i | 0 <= i < |init| ensures init[i] != pk {
          assert init[i] == pks[i];
        }
      }
      ChangedCountSpec(products, init, flag);
      assert pks == init + [pk];
      ToChangeSnoc(products, init, pk, flag);
    }
  }

  /** One more listed product adds itself to the set when its flag differs. */
  lemma ToChangeSnoc(products: map<nat, Product>, init: seq<nat>, pk: nat, flag: bool)
    ensures ToChange(products, init + [pk], flag)
      == ToChange(products, init, flag) + (if pk in products && products[pk].isFeatured != flag then {pk} else {})
  {
    assert forall k :: k in init + [pk] <==> k in init || k == pk;
  }

  /** Running the toggle again straight away changes nothing and counts 0. */
  lemma FeaturedRerun(products: map<nat, Product>, pks: seq<nat>, flag: bool, now: int, later: int)
    ensures var r := FeaturedAfter(products, pks, flag, now);
      FeaturedAfter(r, pks, flag, later) == r && ChangedCount(r, pks, flag) == 0
  {
    var r := FeaturedAfter(products, pks, flag, now);
    FeaturedAfterSpec(products, pks, flag, now);
    FeaturedNoop(r, pks, flag, later);
  }

  /** When every listed product already has the flag, the loop is a no-op. */
  lemma {:induction false} FeaturedNoop(products: map<nat, Product>, pks: seq<nat>, flag: bool, now: int)
    requires forall k :: k in pks && k in products ==> products[k].isFeatured == flag
    ensures FeaturedAfter(products, pks, flag, now) == products && ChangedCount(products, pks, flag) == 0
  {
    if pks != [] {
      var init := pks[..|pks| - 1];
      assert forall k :: k in init ==> k in pks;
      FeaturedNoop(products, init, flag, now);
    }
  }

  /** A listed product not yet visited keeps its record through the first steps. */
  lemma {:induction false} FeaturedAfterUnvisited(products: map<nat, Product>, pks: seq<nat>, flag: bool, now: int, k: nat)
    requires k !in pks
    ensures k in FeaturedAfter(products, pks, flag, now) <==> k in products
    ensures k in products ==> FeaturedAfter(products, pks, flag, now)[k] == products[k]
  {
    if pks != [] {
      FeaturedAfterUnvisited(products, pks[..|pks| - 1], flag, now, k);
    }
  }

  /**
   * The loop shared by mark_as_featured and unmark_as_featured: each listed
   * product whose flag differs is saved with the new flag and counted.
   */
  method SetFeatured(cat: Catalog, pks: seq<nat>, flag: bool, now: int) returns (count: nat)
    requires Distinct(pks)
    modifies cat`products
    ensures cat.products == FeaturedAfter(old(cat.products), pks, flag, now)
    ensures count == ChangedCount(old(cat.products), pks, flag)
  {
    ghost var p0 := cat.products;
    count := 0;
    var i := 0;
    while i < |pks|
      invariant 0 <= i <= |pks|
      invariant cat.products == FeaturedAfter(p0, pks[..i], flag, now)
      invariant count == ChangedCount(p0, pks[..i], flag)
    {
      var pk := pks[i];
      assert pks[..i + 1][..i] == pks[..i] && pks[..i + 1][i] == pk;
      assert pk !in pks[..i];
      FeaturedAfterUnvisited(p0, pks[..i], flag, now, pk);
      if pk in cat.products && cat.products[pk].isFeatured != flag {
        var product := cat.products[pk].(isFeatured := flag, updatedAt := now);
        cat.products := cat.products[pk := product];
        count := count + 1;
      }
      i := i + 1;
    }
    assert pks[..|pks|] == pks;
  }

  function MarkedMessage(count: nat): string {
    IntToString(count) + " product(s) marked as featured."
  }

  function UnmarkedMessage(count: nat): string {
    IntToString(count) + " product(s) unmarked as featured."
  }

  /** mark_as_featured: the loop with the flag set, and its message. */
  method MarkAsFeatured(cat: Catalog, pks: seq<nat>, now: int) returns (count: nat, message: string)
    requires Distinct(pks)
    modifies cat`products
    ensures cat.products == FeaturedAfter(old(cat.products), pks, true, now)
    ensures count == |ToChange(old(cat.products), pks, true)| && message == MarkedMessage(count)
  {
    ChangedCountSpec(cat.products, pks, true);
    count := SetFeatured(cat, pks, true, now);
    message := MarkedMessage(count);
  }

  /** unmark_as_featured: the loop with the flag cleared, and its message. */
  method UnmarkAsFeatured(cat: Catalog, pks: seq<nat>, now: int) returns (count: nat, message: string)
    requires Distinct(pks)
    modifies cat`products
    ensures cat.products == FeaturedAfter(old(cat.products), pks, false, now)
    ensures count == |ToChange(old(cat.products), pks, false)| && message == UnmarkedMessage(count)
  {
    ChangedCountSpec(cat.products, pks, false);
    count := SetFeatured(cat, pks, false, now);
    message := UnmarkedMessage(count);
  }

  // ---------------------------------------------------------------------
  // Permanent removal
  // ---------------------------------------------------------------------

  /** Some user holds an access entitlement to the product. */
  predicate Purchased(ents: Entitlements, pk: nat) {
    exists key :: key in ents && key.1 == pk
  }

  /** The selected products that are soft-removed: those with an entitlement. */
  function SoftGroup(ents: Entitlements, selection: set<nat>): set<nat> {
    set pk | pk in selection && Purchased(ents, pk)
  }

  /** The selected products that are deleted: those without one. */
  function HardGroup(ents: Entitlements, selection: set<nat>): set<nat> {
    set pk | pk in selection && !Purchased(ents, pk)
  }

  /** A soft-removed product: removed, unpublished and no longer featured. */
  function SoftRemoved(p: Product, now: int): Product {
    p.(isRemoved := true, isActive := false, isFeatured := false, updatedAt := now)
  }

  /** The table after the soft update, before anything is deleted. */
  function Flagged(products: map<nat, Product>, ents: Entitlements, selection: set<nat>, now: int): map<nat, Product> {
    map k | k in products :: if k in SoftGroup(ents, selection) then SoftRemoved(products[k], now) else products[k]
  }

  /**
   * The table after the soft update and the hard delete, whose cascade
   * removes the banners linking a deleted product and resyncs what those
   * banners' signals select.
   */
  function AfterRemoval(products: map<nat, Product>, banners: seq<DealBanner>, ents: Entitlements,
                        selection: set<nat>, now: int): map<nat, Product>
  {
    AfterDelete(Flagged(products, ents, selection, now), banners, HardGroup(ents, selection), now)
  }

  /** The two groups are disjoint and together make up the selection. */
  lemma RemovalGroups(ents: Entitlements, selection: set<nat>)
    ensures var soft := SoftGroup(ents, selection);
      var hard := HardGroup(ents, selection);
      && soft * hard == {} && soft + hard == selection && |soft| + |hard| == |selection|
  {
    var soft := SoftGroup(ents, selection);
    var hard := HardGroup(ents, selection);
    assert soft + hard == selection;
    assert soft * hard == {};
    assert |soft + hard| + |soft * hard| == |soft| + |hard|;
  }

  /**
   * One product after the removal: a product someone has an entitlement to
   * is never deleted, only flagged; the others selected are gone; a kept
   * product differs from its flagged (or untouched) self at most in is_deal
   * and updated_at, and does so only when a cascaded banner's signal
   * selects it, which gives it its deal status under the remaining banners.
   */
  lemma RemovalAt(products: map<nat, Product>, banners: seq<DealBanner>, ents: Entitlements,
                  selection: set<nat>, now: int, k: nat)
    requires k in products
    ensures var hard := HardGroup(ents, selection);
      var r := AfterRemoval(products, banners, ents, selection, now);
      var cascaded := LinkingBanners(banners, hard);
      var before := if k in selection && Purchased(ents, k) then SoftRemoved(products[k], now) else products[k];
      && (k in r <==> !(k in selection && !Purchased(ents, k)))
      && (k in r ==>
            && SameBut(r[k], before)
            && (Touched(products[k], cascaded) ==> r[k].isDeal == EffectiveDeal(products[k], UnlinkedBanners(banners, hard)))
            && (!Touched(products[k], cascaded) ==> r[k] == before))
  {
    var hard := HardGroup(ents, selection);
    var f := Flagged(products, ents, selection, now);
    var cascaded := LinkingBanners(banners, hard);
    var remaining := UnlinkedBanners(banners, hard);
    ResyncEachSpec(f, remaining, cascaded, now, k);
    assert f[k].pk == products[k].pk && f[k].categoryPk == products[k].categoryPk;
    assert f[k].dealManual == products[k].dealManual && f[k].dealExclude == products[k].dealExclude;
    assert Touched(f[k], cascaded) == Touched(products[k], cascaded);
    assert EffectiveDeal(f[k], remaining) == EffectiveDeal(products[k], remaining);
  }

  /**
   * Over the whole table: purchased products survive flagged removed,
   * inactive and not featured; unpurchased selected ones are deleted; an
   * unselected product keeps every field but is_deal and updated_at, and
   * all of them when no cascaded banner selects it.
   */
  lemma RemovalSpec(products: map<nat, Product>, banners: seq<DealBanner>, ents: Entitlements, selection: set<nat>, now: int)
    ensures var r := AfterRemoval(products, banners, ents, selection, now);
      var cascaded := LinkingBanners(banners, HardGroup(ents, selection));
      && (forall k :: k in products && Purchased(ents, k) ==> k in r)
      && (forall k :: k in selection && k in products && Purchased(ents, k) ==>
            SameBut(r[k], SoftRemoved(products[k], now)) && r[k].isRemoved && !r[k].isActive && !r[k].isFeatured)
      && (forall k :: k in selection && !Purchased(ents, k) ==> k !in r)
      && (forall k :: k in products && k !in selection ==> k in r && SameBut(r[k], products[k]))
      && (forall k :: k in products && k !in selection && !Touched(products[k], cascaded) ==> r[k] == products[k])
  {
    var r := AfterRemoval(products, banners, ents, selection, now);
    forall k | k in products
      ensures k in r <==> !(k in selection && !Purchased(ents, k))
      ensures k in r && k in selection ==> SameBut(r[k], SoftRemoved(products[k], now))
      ensures k in r && k !in selection ==> SameBut(r[k], products[k])
      ensures k in r && k !in selection && !Touched(products[k], LinkingBanners(banners, HardGroup(ents, selection))) ==> r[k] == products[k]
    {
      RemovalAt(products, banners, ents, selection, now, k);
    }
    ResyncEachKeys(Flagged(products, ents, selection, now), UnlinkedBanners(banners, HardGroup(ents, selection)),
      LinkingBanners(banners, HardGroup(ents, selection)), now);
  }

  function SoftMessage(soft: nat): string {
    IntToString(soft) + " removed from public site (buyers kept)."
  }

  function HardMessage(hard: nat): string {
    IntToString(hard) + " permanently deleted."
  }

  const NoChangeMessage: string := "No products were changed."
  const NoSelectionMessage: string := "No products selected."

  /** The message, chosen by which of the two counts are nonzero. */
  function RemovalMessage(soft: nat, hard: nat): string {
    if soft > 0 && hard > 0 then SoftMessage(soft) + " " + HardMessage(hard)
    else if soft > 0 then SoftMessage(soft)
    else if hard > 0 then HardMessage(hard)
    else NoChangeMessage
  }

  predicate EndsWith(s: string, suffix: string) {
    |suffix| <= |s| && s[|s| - |suffix|..] == suffix
  }

  /**
   * The message reports deletions exactly when some product was deleted, it
   * begins with the soft count exactly when some product was kept, and it
   * says nothing changed exactly when neither happened.
   */
  lemma RemovalMessageSpec(soft: nat, hard: nat)
    ensures var m := RemovalMessage(soft, hard);
      && (hard > 0 <==> EndsWith(m, " permanently deleted."))
      && (soft > 0 ==> m[..|SoftMessage(soft)|] == SoftMessage(soft))
      && (soft == 0 && hard == 0 <==> m == NoChangeMessage)
  {
    var m := RemovalMessage(soft, hard);
    var tail := " permanently deleted.";
    if hard > 0 {
      assert m[|m| - |tail|..] == tail;
    }
    if soft > 0 {
      var s := SoftMessage(soft);
      assert m[..|s|] == s;
      var kept := " removed from public site (buyers kept).";
      if hard == 0 {
        var n := IntToString(soft);
        assert m == n + kept;
        assert m[|m| - 6] == kept[|kept| - 6] == 'k';
        assert tail[|tail| - 6] == 'l';
      }
      assert m != NoChangeMessage by {
        assert IsDigit(m[0]);
      }
    } else if hard > 0 {
      assert m != NoChangeMessage by {
        assert IsDigit(m[0]);
      }
    } else {
      assert NoChangeMessage[|NoChangeMessage| - 4] == 'g' && tail[|tail| - 4] == 't';
    }
  }

  /** The soft update of remove_products_permanently, returning how many rows it touched. */
  method FlagSoftRemoved(cat: Catalog, ents: Entitlements, selection: set<nat>, toSoftRemove: set<nat>, now: int)
    returns (softCount: nat)
    requires toSoftRemove == SoftGroup(ents, selection)
    modifies cat`products
    ensures cat.products == Flagged(old(cat.products), ents, selection, now)
    ensures softCount == |toSoftRemove|
  {
    softCount := 0;
    if toSoftRemove != {} {
      cat.products := map k | k in cat.products ::
        if k in toSoftRemove then SoftRemoved(cat.products[k], now) else cat.products[k];
      softCount := |toSoftRemove|;
    }
  }

  /**
   * remove_products_permanently: an empty selection only reports so;
   * otherwise the purchased products are soft-removed in one update and the
   * rest deleted, and the message reports both counts.
   */
  method RemoveProductsPermanently(cat: Catalog, ents: Entitlements, selection: set<nat>, now: int)
    returns (softCount: nat, hardCount: nat, message: string)
    requires selection <= cat.products.Keys
    modifies cat`products, cat`banners
    ensures selection == {} ==>
      cat.products == old(cat.products) && cat.banners == old(cat.banners) && message == NoSelectionMessage
    ensures selection != {} ==>
      && cat.products == AfterRemoval(old(cat.products), old(cat.banners), ents, selection, now)
      && cat.banners == UnlinkedBanners(old(cat.banners), HardGroup(ents, selection))
      && softCount == |SoftGroup(ents, selection)| && hardCount == |HardGroup(ents, selection)|
      && message == RemovalMessage(softCount, hardCount)
  {
    if selection == {} {
      return 0, 0, NoSelectionMessage;
    }
    var entitled := set pk | pk in selection && Purchased(ents, pk);
    var toSoftRemove := set pk | pk in selection && pk in entitled;
    var toHardDelete := set pk | pk in selection && pk !in entitled;
    assert toSoftRemove == SoftGroup(ents, selection) && toHardDelete == HardGroup(ents, selection);
    softCount := FlagSoftRemoved(cat, ents, selection, toSoftRemove, now);
    hardCount := |toHardDelete|;
    if hardCount > 0 {
      cat.DeleteProducts(toHardDelete, now);
    } else {
      NothingLinked(cat.banners);
      assert cat.products == AfterDelete(cat.products, cat.banners, toHardDelete, now);
    }
    message := RemovalMessage(softCount, hardCount);
  }

  // ---------------------------------------------------------------------
  // Column values
  // ---------------------------------------------------------------------

  /** A status badge: its CSS class and its label. */
  datatype Badge = Badge(cssClass: string, labelText: string)

  /** ProductAdmin.status_badges, in display order. */
  function StatusBadges(p: Product): seq<Badge> {
    var state :=
      if p.isRemoved then Badge("removed", "\U{1F5D1} Removed")
      else if p.isActive then Badge("active", "\U{2713} Active")
      else Badge("inactive", "\U{2717} Unpublished");
    [state]
      + (if p.isFeatured then [Badge("featured", "\U{2B50} Featured")] else [])
      + (if p.isDeal then [Badge("deal", "\U{1F4B0} DEAL")] else [])
  }

  /**
   * Exactly one state badge comes first (removed before active before
   * unpublished); a featured badge appears iff the product is featured, a
   * deal badge iff it is a deal, featured before deal.
   */
  lemma StatusBadgesSpec(p: Product)
    ensures var b := StatusBadges(p);
      && |b| == 1 + (if p.isFeatured then 1 else 0) + (if p.isDeal then 1 else 0)
      && b[0].cssClass == (if p.isRemoved then "removed" else if p.isActive then "active" else "inactive")
      && (forall i :: 1 <= i < |b| ==> b[i].cssClass in {"featured", "deal"})
      && (p.isFeatured <==> exists i :: 0 <= i < |b| && b[i].cssClass == "featured")
      && (p.isDeal <==> exists i :: 0 <= i < |b| && b[i].cssClass == "deal")
      && (p.isFeatured && p.isDeal ==> b[1].cssClass == "featured" && b[2].cssClass == "deal")
  {
    var b := StatusBadges(p);
    if p.isFeatured {
      assert b[1].cssClass == "featured";
    }
    if p.isDeal {
      assert b[|b| - 1].cssClass == "deal";
    }
  }

  /** A column value: the CSS class of its span and its text. */
  datatype Cell = Cell(cssClass: string, text: string)

  const ProductCountClass: string := "category-product-count"
  const ProductCountZeroClass: string := " category-product-count-zero"

  /** CategoryAdmin.product_count: "<n> product" with "s" unless n is 1; a zero class for 0. */
  function ProductCount(count: nat): Cell {
    var cssClass := if count == 0 then ProductCountClass + ProductCountZeroClass else ProductCountClass;
    Cell(cssClass, IntToString(count) + " product" + (if count != 1 then "s" else ""))
  }

  /** The label ends in "s" iff the count is not 1, and carries the zero class iff the count is 0. */
  lemma ProductCountSpec(count: nat)
    ensures var c := ProductCount(count);
      && (c.text[|c.text| - 1] == 's' <==> count != 1)
      && (c.cssClass == ProductCountClass + ProductCountZeroClass <==> count == 0)
      && (c.cssClass == ProductCountClass <==> count != 0)
      && c.text[..|IntToString(count)|] == IntToString(count)
  {
    var c := ProductCount(count);
    var n := IntToString(count);
    if count == 1 {
      assert c.text == n + " product";
    } else {
      assert c.text == n + " product" + "s";
    }
    assert c.text[..|n|] == n;
    assert |ProductCountClass + ProductCountZeroClass| != |ProductCountClass|;
  }

  /** f"{d}" for a two-place Decimal given in hundredths: "<int>.<two digits>". */
  function DecimalText(hundredths: nat): string {
    NatToString(hundredths / 100) + "." + [DigitChar(hundredths % 100 / 10), DigitChar(hundredths % 10)]
  }

  /** str.rstrip(c) for one character. */
  function RStrip(s: string, c: char): (r: string)
    ensures |r| <= |s| && r == s[..|r|]
    ensures r == [] || r[|r| - 1] != c
    ensures forall i :: |r| <= i < |s| ==> s[i] == c
  {
    if s == [] || s[|s| - 1] != c then s else RStrip(s[..|s| - 1], c)
  }

  /** The percentage text of DealBannerAdmin.discount_display: trailing zeros, then a trailing dot, stripped. */
  function DiscountText(hundredths: nat): string {
    RStrip(RStrip(DecimalText(hundredths), '0'), '.')
  }

  /** Stripping a character that a text does not end with leaves it as it is. */
  lemma RStripNoop(s: string, c: char)
    requires s == [] || s[|s| - 1] != c
    ensures RStrip(s, c) == s
  {
  }

  /**
   * The text is the whole percentage for a whole number, the one-place form
   * when the second decimal is 0, and the full two-place form otherwise: the
   * trailing-zero stripping never reaches into the integer part.
   */
  lemma DiscountTextSpec(hundredths: nat)
    ensures var whole := NatToString(hundredths / 100);
      var d1 := DigitChar(hundredths % 100 / 10);
      var d2 := DigitChar(hundredths % 10);
      && (hundredths % 100 == 0 ==> DiscountText(hundredths) == whole)
      && (hundredths % 100 != 0 && hundredths % 10 == 0 ==> DiscountText(hundredths) == whole + "." + [d1])
      && (hundredths % 10 != 0 ==> DiscountText(hundredths) == whole + "." + [d1, d2])
  {
    var whole := NatToString(hundredths / 100);
    var d1 := DigitChar(hundredths % 100 / 10);
    var d2 := DigitChar(hundredths % 10);
    var s := DecimalText(hundredths);
    assert s == whole + "." + [d1, d2];
    if hundredths % 10 != 0 {
      assert d2 != '0';
      RStripNoop(s, '0');
      RStripNoop(s, '.');
    } else if hundredths % 100 != 0 {
      assert d2 == '0' && d1 != '0';
      assert s[..|s| - 1] == whole + "." + [d1];
      RStripNoop(whole + "." + [d1], '0');
      RStripNoop(whole + "." + [d1], '.');
    } else {
      assert d1 == '0' && d2 == '0';
      assert s[..|s| - 1] == whole + "." + [d1];
      assert (whole + "." + [d1])[..|whole| + 1] == whole + ".";
      assert (whole + ".")[..|whole|] == whole;
      RStripNoop(whole + ".", '0');
      assert RStrip(s, '0') == whole + ".";
      RStripNoop(whole, '.');
    }
  }

  /** A discount badge with its text, or the muted dash. */
  datatype DiscountCell = DiscountBadge(text: string) | NoDiscount

  /** DealBannerAdmin.discount_display: "-<text>%" for a positive percentage, else "-". */
  function DiscountDisplay(b: DealBanner): (r: DiscountCell)
    ensures r.DiscountBadge? <==> b.discountHundredths > 0
  {
    if b.discountHundredths > 0 then DiscountBadge(DiscountText(b.discountHundredths)) else NoDiscount
  }

  /** The destination column: the type class, the label, the value and the banner's URL. */
  datatype Destination = Destination(typeClass: string, labelText: string, value: string, url: string)

  /**
   * DealBannerAdmin.destination_display for a banner whose linked product
   * and category (if any) are given; the URL is DealBanner.get_url.
   */
  function DestinationDisplay(b: DealBanner, product: Option<Product>, category: Option<Category>,
                              archiveUrl: string, productUrl: string -> string): Destination
  {
    var url := BannerUrl(product, b.url, category, archiveUrl, productUrl);
    if product.Some? then Destination("type-product", "Product", product.value.title, url)
    else if category.Some? then Destination("type-category", "Category", category.value.name, url)
    else if b.url != [] then Destination("type-custom", "Custom URL", "External link", url)
    else Destination("type-default", "Deals page", "Deals archive", url)
  }

  /**
   * The label follows product > category > custom url > default by presence
   * alone: an inactive linked product is still labelled "Product", although
   * the link then skips it exactly as if no product were linked.
   */
  lemma DestinationByPresence(b: DealBanner, product: Option<Product>, category: Option<Category>,
                              archiveUrl: string, productUrl: string -> string)
    ensures var d := DestinationDisplay(b, product, category, archiveUrl, productUrl);
      && (d.labelText == "Product" <==> product.Some?)
      && (d.labelText == "Category" <==> product.None? && category.Some?)
      && (d.labelText == "Custom URL" <==> product.None? && category.None? && b.url != [])
      && (d.labelText == "Deals page" <==> product.None? && category.None? && b.url == [])
      && (product.Some? && !product.value.isActive ==>
            d.url == BannerUrl(None, b.url, category, archiveUrl, productUrl))
  {
    if product.Some? && !product.value.isActive {
      BannerUrlInactiveProduct(product.value, b.url, category, archiveUrl, productUrl);
    }
  }
}
