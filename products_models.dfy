/**
 * Products, categories and deal banners (products/models.py): the deal-status
 * synchronisation, the discount lookup and discounted price, the banner link,
 * and the decisions Product.save and Category.save take before persisting.
 *
 * Money is in integer cents (the price field has two decimal places); a
 * banner's discount_percentage, also a two-place decimal, is in hundredths of
 * a percent. The table of products is a map from primary key to record that
 * the Catalog methods reassign, as the ORM's bulk updates do.
 */
module ProductModels {
  import opened Wrappers

  datatype Category = Category(pk: nat, name: string, slug: string)

  datatype Product = Product(
    pk: nat,
    title: string,
    slug: string,
    categoryPk: Option<nat>,
    priceCents: nat,
    imageAlt: string,
    isActive: bool,
    isFeatured: bool,
    isRemoved: bool,
    isDeal: bool,
    dealManual: bool,
    dealExclude: bool,
    createdAt: int,
    updatedAt: int)

  datatype DealBanner = DealBanner(
    id: nat,
    productPk: Option<nat>,
    categoryPk: Option<nat>,
    url: string,
    discountHundredths: nat,
    isActive: bool,
    order: int,
    createdAt: int)

  /** The products table: each record is stored under its own primary key. */
  predicate KeyedByPk(products: map<nat, Product>) {
    forall id :: id in products ==> products[id].pk == id
  }

  /** A list of primary keys naming each product at most once. */
  predicate Distinct(pks: seq<nat>) {
    forall i, j :: 0 <= i < j < |pks| ==> pks[i] != pks[j]
  }

  /** The largest discount the field's validators allow: 100.00 percent. */
  const MaxDiscountHundredths: nat := 10000

  // ---------------------------------------------------------------------
  // Slugs and the save-time decisions
  // ---------------------------------------------------------------------

  /** Category.save and Product.save: an empty slug is replaced by slugify(name or title). */
  function FillSlug(slug: string, source: string, slugify: string -> string): (r: string)
    ensures slug != [] ==> r == slug
    ensures slug == [] ==> r == slugify(source)
  {
    if slug == [] then slugify(source) else slug
  }

  /** update_fields as Product.save reads it: an absent or empty list means a full save. */
  function UpdateFieldSet(updateFields: Option<seq<string>>): (r: Option<set<string>>)
    ensures r.None? <==> (updateFields.None? || updateFields.value == [])
    ensures r.Some? ==> r.value == set f | f in updateFields.value
  {
    if updateFields.None? || updateFields.value == [] then None
    else Some(set f | f in updateFields.value)
  }

  const ValidateFields: set<string> := {"image_alt", "title", "slug"}
  const DealFields: set<string> := {"deal_manual", "deal_exclude", "category", "category_id"}

  /** Whether a save touching `fields` (None for a full save) must run `trigger`'s follow-up. */
  predicate SaveTouches(isCreate: bool, fields: Option<set<string>>, trigger: set<string>) {
    isCreate || fields.None? || fields.value * trigger != {}
  }

  /** full_clean runs on creation, on a full save, or when image_alt, title or slug is written. */
  predicate ShouldValidate(isCreate: bool, updateFields: Option<seq<string>>) {
    SaveTouches(isCreate, UpdateFieldSet(updateFields), ValidateFields)
  }

  /** The deal status is resynced on creation, a full save, or a write to a deal-related field. */
  predicate ShouldSyncDeals(isCreate: bool, updateFields: Option<seq<string>>) {
    SaveTouches(isCreate, UpdateFieldSet(updateFields), DealFields)
  }

  /** The save-time decisions, stated field by field. */
  lemma SaveDecisions(isCreate: bool, updateFields: Option<seq<string>>)
    ensures ShouldValidate(isCreate, updateFields) <==>
      (isCreate || updateFields.None? || updateFields.value == []
       || exists f :: f in updateFields.value && f in ValidateFields)
    ensures ShouldSyncDeals(isCreate, updateFields) <==>
      (isCreate || updateFields.None? || updateFields.value == []
       || exists f :: f in updateFields.value && f in DealFields)
  {
    var fs := UpdateFieldSet(updateFields);
    if fs.Some? {
      forall f | f in updateFields.value && f in ValidateFields
        ensures f in fs.value * ValidateFields
      {
      }
      forall f | f in updateFields.value && f in DealFields
        ensures f in fs.value * DealFields
      {
      }
      if fs.value * ValidateFields != {} {
        var f :| f in fs.value * ValidateFields;
        assert f in updateFields.value;
      }
      if fs.value * DealFields != {} {
        var f :| f in fs.value * DealFields;
        assert f in updateFields.value;
      }
    }
  }

  /** A save of only the price, say, neither validates nor resyncs an existing product. */
  lemma PriceOnlySave()
    ensures !ShouldValidate(false, Some(["price"]))
    ensures !ShouldSyncDeals(false, Some(["price"]))
  {
    var fs := UpdateFieldSet(Some(["price"])).value;
    assert forall x :: x in fs ==> x == "price";
    assert "price" !in ValidateFields && "price" !in DealFields;
    assert fs * ValidateFields == {} && fs * DealFields == {};
  }

  /**
   * The row a save with update_fields leaves: each listed column takes the
   * instance's value (updated_at is stamped by auto_now), every other column
   * keeps the stored one.
   */
  function WriteListed(stored: Product, q: Product, fields: set<string>, now: int): Product {
    stored.(
      title := if "title" in fields then q.title else stored.title,
      slug := if "slug" in fields then q.slug else stored.slug,
      categoryPk := if "category" in fields || "category_id" in fields then q.categoryPk else stored.categoryPk,
      priceCents := if "price" in fields then q.priceCents else stored.priceCents,
      imageAlt := if "image_alt" in fields then q.imageAlt else stored.imageAlt,
      isActive := if "is_active" in fields then q.isActive else stored.isActive,
      isFeatured := if "is_featured" in fields then q.isFeatured else stored.isFeatured,
      isDeal := if "is_deal" in fields then q.isDeal else stored.isDeal,
      dealManual := if "deal_manual" in fields then q.dealManual else stored.dealManual,
      dealExclude := if "deal_exclude" in fields then q.dealExclude else stored.dealExclude,
      createdAt := if "created_at" in fields then q.createdAt else stored.createdAt,
      updatedAt := if "updated_at" in fields then now else stored.updatedAt)
  }

  /**
   * The row Model.save writes for the instance `q`: on a full save the whole
   * instance, with updated_at stamped and, on creation, created_at too; with
   * update_fields only the listed columns over the stored row.
   */
  function SavedRow(products: map<nat, Product>, q: Product, isCreate: bool, fields: Option<set<string>>, now: int): Product
    requires fields.Some? ==> q.pk in products
  {
    if fields.Some? then WriteListed(products[q.pk], q, fields.value, now)
    else if isCreate then q.(createdAt := now, updatedAt := now)
    else q.(updatedAt := now)
  }

  /**
   * The product table after Model.save's write, before the resync. Django's
   * Model.save returns at once for an empty update_fields list: no row is
   * written and no row is inserted. Otherwise SavedRow is stored under the pk.
   */
  function WrittenTable(products: map<nat, Product>, q: Product, isCreate: bool,
                        updateFields: Option<seq<string>>, now: int): map<nat, Product>
    requires UpdateFieldSet(updateFields).Some? ==> q.pk in products
  {
    if updateFields == Some([]) then products
    else products[q.pk := SavedRow(products, q, isCreate, UpdateFieldSet(updateFields), now)]
  }

  /**
   * The pks Product.save hands to sync_products_deal_status: [self.pk]. An
   * instance that an empty update_fields left unsaved still has pk None,
   * which selects no product.
   */
  function SyncSelection(q: Product, isCreate: bool, updateFields: Option<seq<string>>): seq<nat> {
    if isCreate && updateFields == Some([]) then [] else [q.pk]
  }

  /** A save of only the price changes the stored row's price and nothing else. */
  lemma PriceOnlyRow(products: map<nat, Product>, q: Product, now: int)
    requires q.pk in products
    ensures SavedRow(products, q, false, Some({"price"}), now) == products[q.pk].(priceCents := q.priceCents)
  {
    var fs: set<string> := {"price"};
    assert "title" !in fs && "slug" !in fs && "category" !in fs && "category_id" !in fs;
    assert "image_alt" !in fs && "is_active" !in fs && "is_featured" !in fs && "is_deal" !in fs;
    assert "deal_manual" !in fs && "deal_exclude" !in fs && "created_at" !in fs && "updated_at" !in fs;
  }

  /** A full save writes the instance as it is apart from its timestamps. */
  lemma FullSaveRow(products: map<nat, Product>, q: Product, isCreate: bool, now: int)
    ensures var r := SavedRow(products, q, isCreate, None, now);
      && r.(createdAt := q.createdAt, updatedAt := q.updatedAt) == q
      && r.updatedAt == now
      && r.createdAt == (if isCreate then now else q.createdAt)
  {
  }

  /** Columns that are not listed keep their stored values, whatever the instance holds. */
  lemma WriteListedKeeps(stored: Product, q: Product, fields: set<string>, now: int)
    requires fields * (ValidateFields + DealFields) == {}
    ensures var r := WriteListed(stored, q, fields, now);
      && r.title == stored.title && r.slug == stored.slug && r.imageAlt == stored.imageAlt
      && r.categoryPk == stored.categoryPk && r.dealManual == stored.dealManual
      && r.dealExclude == stored.dealExclude && r.pk == stored.pk
  {
    assert "title" !in fields && "slug" !in fields && "image_alt" !in fields;
    assert "category" !in fields && "category_id" !in fields;
    assert "deal_manual" !in fields && "deal_exclude" !in fields;
  }

  // ---------------------------------------------------------------------
  // Effective deal status
  // ---------------------------------------------------------------------

  /** The product pks that some active banner links to. */
  function BannerProductPks(banners: seq<DealBanner>): (r: set<nat>)
    ensures forall pk :: pk in r <==>
      exists i :: 0 <= i < |banners| && banners[i].isActive && banners[i].productPk == Some(pk)
  {
    set i | 0 <= i < |banners| && banners[i].isActive && banners[i].productPk.Some? :: banners[i].productPk.value
  }

  /** The category pks that some active banner links to. */
  function BannerCategoryPks(banners: seq<DealBanner>): (r: set<nat>)
    ensures forall pk :: pk in r <==>
      exists i :: 0 <= i < |banners| && banners[i].isActive && banners[i].categoryPk == Some(pk)
  {
    set i | 0 <= i < |banners| && banners[i].isActive && banners[i].categoryPk.Some? :: banners[i].categoryPk.value
  }

  /**
   * The deal status a product should have: forced by deal_manual, or linked
   * by an active product banner, or in a category with an active category
   * banner unless the product opts out with deal_exclude.
   */
  predicate EffectiveDeal(p: Product, banners: seq<DealBanner>) {
    || p.dealManual
    || p.pk in BannerProductPks(banners)
    || (p.categoryPk.Some? && p.categoryPk.value in BannerCategoryPks(banners) && !p.dealExclude)
  }

  /** Products chosen by pk or by category pk (a product without category matches no category). */
  predicate Selected(p: Product, productPks: seq<nat>, categoryPks: seq<nat>) {
    p.pk in productPks || (p.categoryPk.Some? && p.categoryPk.value in categoryPks)
  }

  /** The pks the sync moves to is_deal=True. */
  function ToTrue(products: map<nat, Product>, banners: seq<DealBanner>,
                  productPks: seq<nat>, categoryPks: seq<nat>): set<nat> {
    set k | k in products && Selected(products[k], productPks, categoryPks)
      && !products[k].isDeal && EffectiveDeal(products[k], banners)
  }

  /** The pks the sync moves to is_deal=False. */
  function ToFalse(products: map<nat, Product>, banners: seq<DealBanner>,
                   productPks: seq<nat>, categoryPks: seq<nat>): set<nat> {
    set k | k in products && Selected(products[k], productPks, categoryPks)
      && products[k].isDeal && !EffectiveDeal(products[k], banners)
  }

  /** The two bulk updates: set is_deal and stamp updated_at on the listed pks only. */
  function BulkSetDeal(products: map<nat, Product>, truePks: set<nat>, falsePks: set<nat>, now: int):
    map<nat, Product>
  {
    map k | k in products ::
      if k in truePks then products[k].(isDeal := true, updatedAt := now)
      else if k in falsePks then products[k].(isDeal := false, updatedAt := now)
      else products[k]
  }

  /** The product table after sync_products_deal_status. */
  function Synced(products: map<nat, Product>, banners: seq<DealBanner>,
                  productPks: seq<nat>, categoryPks: seq<nat>, now: int): map<nat, Product>
  {
    BulkSetDeal(products, ToTrue(products, banners, productPks, categoryPks),
      ToFalse(products, banners, productPks, categoryPks), now)
  }

  /**
   * After a sync every selected product carries its effective deal status;
   * a product is rewritten (is_deal and updated_at) only when its status
   * was wrong, and everything else is left as it was.
   */
  lemma SyncedSpec(products: map<nat, Product>, banners: seq<DealBanner>,
                   productPks: seq<nat>, categoryPks: seq<nat>, now: int, k: nat)
    requires k in products
    ensures var s := Synced(products, banners, productPks, categoryPks, now);
      var p := products[k];
      && k in s
      && (Selected(p, productPks, categoryPks) ==> s[k].isDeal == EffectiveDeal(p, banners))
      && (!Selected(p, productPks, categoryPks) || p.isDeal == EffectiveDeal(p, banners) ==> s[k] == p)
      && (s[k] != p ==> s[k] == p.(isDeal := !p.isDeal, updatedAt := now))
  {
  }

  /** The sync touches no product outside the table and adds none. */
  lemma SyncedKeys(products: map<nat, Product>, banners: seq<DealBanner>,
                   productPks: seq<nat>, categoryPks: seq<nat>, now: int)
    ensures Synced(products, banners, productPks, categoryPks, now).Keys == products.Keys
  {
  }

  /** With both pk lists empty the sync changes nothing. */
  lemma SyncNothingSelected(products: map<nat, Product>, banners: seq<DealBanner>, now: int)
    ensures Synced(products, banners, [], [], now) == products
  {
    var s := Synced(products, banners, [], [], now);
    forall k | k in products
      ensures s[k] == products[k]
    {
      SyncedSpec(products, banners, [], [], now, k);
    }
  }

  /** A second sync with the same selection and banners changes nothing. */
  lemma SyncIdempotent(products: map<nat, Product>, banners: seq<DealBanner>,
                       productPks: seq<nat>, categoryPks: seq<nat>, now: int, later: int)
    ensures var s := Synced(products, banners, productPks, categoryPks, now);
      Synced(s, banners, productPks, categoryPks, later) == s
  {
    var s := Synced(products, banners, productPks, categoryPks, now);
    var s2 := Synced(s, banners, productPks, categoryPks, later);
    forall k | k in s
      ensures s2[k] == s[k]
    {
      SyncedSpec(products, banners, productPks, categoryPks, now, k);
      var p := products[k];
      assert s[k].pk == p.pk && s[k].categoryPk == p.categoryPk;
      assert s[k].dealManual == p.dealManual && s[k].dealExclude == p.dealExclude;
      assert Selected(s[k], productPks, categoryPks) == Selected(p, productPks, categoryPks);
      assert EffectiveDeal(s[k], banners) == EffectiveDeal(p, banners);
      SyncedSpec(s, banners, productPks, categoryPks, later, k);
    }
  }

  // ---------------------------------------------------------------------
  // Discounts
  // ---------------------------------------------------------------------

  /** What a banner lookup filters on: a product pk or a category pk. */
  datatype Link = ToProduct(pk: nat) | ToCategory(pk: nat)

  predicate Matches(b: DealBanner, link: Link) {
    match link
    case ToProduct(pk) => b.productPk == Some(pk)
    case ToCategory(pk) => b.categoryPk == Some(pk)
  }

  /** The position of the first active banner with the given link. */
  function FirstActiveIndex(banners: seq<DealBanner>, link: Link): (r: Option<nat>)
    ensures r.Some? ==> r.value < |banners| && banners[r.value].isActive && Matches(banners[r.value], link)
    ensures r.Some? ==> forall j :: 0 <= j < r.value ==> !(banners[j].isActive && Matches(banners[j], link))
    ensures r.None? ==> forall i :: 0 <= i < |banners| ==> !(banners[i].isActive && Matches(banners[i], link))
  {
    if banners == [] then None
    else if banners[0].isActive && Matches(banners[0], link) then Some(0)
    else
      match FirstActiveIndex(banners[1..], link)
      case None => None
      case Some(k) => Some(k + 1)
  }

  /** `.filter(is_active=True, ...).first()`: the first active banner with the given link. */
  function FirstActive(banners: seq<DealBanner>, link: Link): (r: Option<DealBanner>)
    ensures r.Some? ==> r.value in banners && r.value.isActive && Matches(r.value, link)
    ensures r.None? ==> forall i :: 0 <= i < |banners| ==> !(banners[i].isActive && Matches(banners[i], link))
  {
    var k := FirstActiveIndex(banners, link);
    if k.Some? then Some(banners[k.value]) else None
  }

  /**
   * On a table in display order, the banner `.first()` returns comes no later
   * under Meta.ordering than any other active banner with the same link: it
   * has the lowest `order`, and among those the latest `created_at`.
   */
  lemma FirstActiveEarliest(banners: seq<DealBanner>, link: Link)
    requires DisplayOrdered(banners)
    ensures var r := FirstActive(banners, link);
      r.Some? ==> forall i :: 0 <= i < |banners| && banners[i].isActive && Matches(banners[i], link) ==>
        ListedBefore(r.value, banners[i])
  {
    var k := FirstActiveIndex(banners, link);
    if k.Some? {
      forall i | 0 <= i < |banners| && banners[i].isActive && Matches(banners[i], link)
        ensures ListedBefore(banners[k.value], banners[i])
      {
        if i != k.value {
          assert k.value < i;
        }
      }
    }
  }

  /**
   * get_discount_percentage: 0 for a product that is not a deal; else the
   * first active product banner's percentage when positive; else the first
   * active category banner's when positive; else 0. int() truncates the
   * two-place decimal to whole percent.
   */
  function DiscountPercentage(p: Product, banners: seq<DealBanner>): int {
    if !p.isDeal then 0
    else
      var pb := FirstActive(banners, ToProduct(p.pk));
      if pb.Some? && pb.value.discountHundredths > 0 then pb.value.discountHundredths / 100
      else if p.categoryPk.None? then 0
      else
        var cb := FirstActive(banners, ToCategory(p.categoryPk.value));
        if cb.Some? && cb.value.discountHundredths > 0 then cb.value.discountHundredths / 100
        else 0
  }

  /** Every active banner's discount stays within the field's 0-100 validators. */
  predicate DiscountsInRange(banners: seq<DealBanner>) {
    forall i :: 0 <= i < |banners| ==> banners[i].discountHundredths <= MaxDiscountHundredths
  }

  /**
   * The percentage is 0 for a non-deal product, never negative, at most 100
   * under the field's validators, and taken from a product banner whenever
   * the first active one has a positive discount; otherwise from the first
   * active banner of the product's category when that one's is positive;
   * otherwise it is 0.
   */
  lemma DiscountPercentageSpec(p: Product, banners: seq<DealBanner>)
    ensures !p.isDeal ==> DiscountPercentage(p, banners) == 0
    ensures DiscountPercentage(p, banners) >= 0
    ensures DiscountsInRange(banners) ==> DiscountPercentage(p, banners) <= 100
    ensures var pb := FirstActive(banners, ToProduct(p.pk));
      p.isDeal && pb.Some? && pb.value.discountHundredths > 0 ==>
        DiscountPercentage(p, banners) == pb.value.discountHundredths / 100
    ensures var pb := FirstActive(banners, ToProduct(p.pk));
      p.isDeal && !(pb.Some? && pb.value.discountHundredths > 0) && p.categoryPk.Some? ==>
        var cb := FirstActive(banners, ToCategory(p.categoryPk.value));
        DiscountPercentage(p, banners) == (if cb.Some? && cb.value.discountHundredths > 0 then cb.value.discountHundredths / 100 else 0)
    ensures var pb := FirstActive(banners, ToProduct(p.pk));
      p.isDeal && !(pb.Some? && pb.value.discountHundredths > 0) && p.categoryPk.None? ==>
        DiscountPercentage(p, banners) == 0
    ensures DiscountPercentage(p, banners) > 0 ==>
      exists i :: 0 <= i < |banners| && banners[i].isActive
        && (banners[i].productPk == Some(p.pk) || (p.categoryPk.Some? && banners[i].categoryPk == p.categoryPk))
        && DiscountPercentage(p, banners) == banners[i].discountHundredths / 100
  {
    if p.isDeal {
      var pb := FirstActive(banners, ToProduct(p.pk));
      if pb.Some? && pb.value.discountHundredths > 0 {
        var i :| 0 <= i < |banners| && banners[i] == pb.value;
      } else if p.categoryPk.Some? {
        var cb := FirstActive(banners, ToCategory(p.categoryPk.value));
        if cb.Some? && cb.value.discountHundredths > 0 {
          var i :| 0 <= i < |banners| && banners[i] == cb.value;
        }
      }
    }
  }

  /** Decimal.quantize(Decimal('0.01')) under the default ROUND_HALF_EVEN, on hundredths of a cent. */
  function RoundHalfEvenHundredths(x: nat): (r: nat)
    ensures 100 * r <= x + 50 && x <= 100 * r + 50
  {
    var q := x / 100;
    var rem := x % 100;
    if rem > 50 || (rem == 50 && q % 2 == 1) then q + 1 else q
  }

  /**
   * get_discounted_price in cents: the price unchanged when the discount is
   * not positive, else price * (1 - d/100) rounded half-even to the cent.
   */
  function DiscountedPriceCents(priceCents: nat, percent: int): int {
    if percent <= 0 then priceCents
    else if percent >= 100 then 0 - RoundHalfEvenHundredths(priceCents * (percent - 100))
    else RoundHalfEvenHundredths(priceCents * (100 - percent))
  }

  /**
   * A discount between 0 and 100 percent gives a price between 0 and the
   * original, within half a cent of the exact value; no discount keeps the
   * price and a full discount gives 0.
   */
  lemma DiscountedPriceSpec(priceCents: nat, percent: int)
    requires 0 <= percent <= 100
    ensures var r := DiscountedPriceCents(priceCents, percent);
      && 0 <= r <= priceCents
      && 100 * r <= priceCents * (100 - percent) + 50
      && priceCents * (100 - percent) <= 100 * r + 50
      && (percent == 0 ==> r == priceCents)
      && (percent == 100 ==> r == 0)
  {
    var r := DiscountedPriceCents(priceCents, percent);
    var x := priceCents * (100 - percent);
    if percent == 0 {
      assert x == 100 * priceCents;
    } else if percent == 100 {
      assert x == 0;
    } else {
      ScaledAtMost(priceCents, 100 - percent);
      assert 100 * r <= 100 * priceCents + 50;
    }
  }

  /** Scaling a price by at most 100 hundredths never exceeds 100 times it. */
  lemma ScaledAtMost(priceCents: nat, d: nat)
    requires d <= 100
    ensures priceCents * d <= 100 * priceCents
  {
  }

  // ---------------------------------------------------------------------
  // Banner link
  // ---------------------------------------------------------------------

  /**
   * DealBanner.get_url: the linked product's page when that product is
   * active; else the custom url when set; else the archive filtered to
   * deals, by the banner's category slug when it has one. The URL resolver
   * is a parameter: `productUrl` maps a slug to the product page and
   * `archiveUrl` is the archive's path.
   */
  function BannerUrl(linked: Option<Product>, url: string, category: Option<Category>,
                     archiveUrl: string, productUrl: string -> string): string
  {
    if linked.Some? && linked.value.isActive then productUrl(linked.value.slug)
    else if url != [] then url
    else if category.Some? then archiveUrl + "?cat=" + category.value.slug + "&deals=true"
    else archiveUrl + "?deals=true"
  }

  /** An inactive linked product is passed over exactly as if no product were linked. */
  lemma BannerUrlInactiveProduct(p: Product, url: string, category: Option<Category>,
                                 archiveUrl: string, productUrl: string -> string)
    requires !p.isActive
    ensures BannerUrl(Some(p), url, category, archiveUrl, productUrl)
         == BannerUrl(None, url, category, archiveUrl, productUrl)
  {
  }

  /** Without an active product or custom url the link is the archive with the deals filter. */
  lemma BannerUrlFallback(linked: Option<Product>, category: Option<Category>,
                          archiveUrl: string, productUrl: string -> string)
    requires !(linked.Some? && linked.value.isActive)
    ensures var r := BannerUrl(linked, "", category, archiveUrl, productUrl);
      && r[..|archiveUrl|] == archiveUrl
      && r[|r| - 10..] == "deals=true"
      && (category.None? <==> r == archiveUrl + "?deals=true")
  {
    var r := BannerUrl(linked, "", category, archiveUrl, productUrl);
    if category.Some? {
      var tail := "?cat=" + category.value.slug + "&deals=true";
      assert r == archiveUrl + tail;
      assert |r| > |archiveUrl + "?deals=true"|;
    }
  }

  // ---------------------------------------------------------------------
  // The catalog
  // ---------------------------------------------------------------------

  /** The image_alt validator: at most 150 characters. */
  const MaxImageAltLength: nat := 150

  /**
   * full_clean as far as the model sees it: the image_alt length limit, and
   * the outcome of every other field validator, given as `othersValid`.
   */
  predicate FullCleanPasses(p: Product, othersValid: bool) {
    |p.imageAlt| <= MaxImageAltLength && othersValid
  }

  /** The products deal_banner_post_save / _post_delete resync: the banner's product, if any. */
  function SignalProductPks(b: DealBanner): (r: seq<nat>)
    ensures |r| <= 1 && (r == [] <==> b.productPk.None?)
  {
    if b.productPk.Some? then [b.productPk.value] else []
  }

  /** The categories the banner signals resync: the banner's category, if any. */
  function SignalCategoryPks(b: DealBanner): (r: seq<nat>)
    ensures |r| <= 1 && (r == [] <==> b.categoryPk.None?)
  {
    if b.categoryPk.Some? then [b.categoryPk.value] else []
  }

  /** Meta.ordering ["order", "-created_at"]: `a` may be listed before `b`. */
  predicate ListedBefore(a: DealBanner, b: DealBanner) {
    a.order < b.order || (a.order == b.order && a.createdAt >= b.createdAt)
  }

  /** The banner table as the default manager lists it. */
  predicate DisplayOrdered(banners: seq<DealBanner>) {
    forall i, j :: 0 <= i < j < |banners| ==> ListedBefore(banners[i], banners[j])
  }

  /** `b` placed in the table at its display position. */
  function InsertBanner(banners: seq<DealBanner>, b: DealBanner): (r: seq<DealBanner>)
    ensures multiset(r) == multiset(banners) + multiset{b}
  {
    if banners == [] then [b]
    else if ListedBefore(b, banners[0]) then [b] + banners
    else
      assert banners == [banners[0]] + banners[1..];
      [banners[0]] + InsertBanner(banners[1..], b)
  }

  /** Every banner of the inserted table is `b` or one of the table's. */
  lemma InsertBannerMembers(banners: seq<DealBanner>, b: DealBanner)
    ensures forall x :: x in InsertBanner(banners, b) <==> x in banners || x == b
  {
    var r := InsertBanner(banners, b);
    assert forall x :: x in r <==> x in multiset(r);
    assert forall x :: x in banners <==> x in multiset(banners);
  }

  /** In a table in display order the first banner is listed before every later one. */
  lemma HeadListedFirst(banners: seq<DealBanner>)
    requires banners != [] && DisplayOrdered(banners)
    ensures forall x :: x in banners[1..] ==> ListedBefore(banners[0], x)
  {
    forall x | x in banners[1..]
      ensures ListedBefore(banners[0], x)
    {
      var j :| 0 <= j < |banners[1..]| && banners[1..][j] == x;
      assert banners[j + 1] == x;
    }
  }

  /** A banner listed before every banner of an ordered table may head it. */
  lemma ConsOrdered(h: DealBanner, t: seq<DealBanner>)
    requires DisplayOrdered(t)
    requires forall x :: x in t ==> ListedBefore(h, x)
    ensures DisplayOrdered([h] + t)
  {
    var r := [h] + t;
    forall i, j | 0 <= i < j < |r|
      ensures ListedBefore(r[i], r[j])
    {
      if i == 0 {
        assert r[j] == t[j - 1];
      } else {
        assert r[i] == t[i - 1] && r[j] == t[j - 1];
      }
    }
  }

  /** Inserting at the display position keeps the table in display order. */
  lemma {:induction false} InsertBannerOrdered(banners: seq<DealBanner>, b: DealBanner)
    requires DisplayOrdered(banners)
    ensures DisplayOrdered(InsertBanner(banners, b))
  {
    if banners == [] {
    } else if ListedBefore(b, banners[0]) {
      HeadListedFirst(banners);
      assert banners == [banners[0]] + banners[1..];
      forall x | x in banners
        ensures ListedBefore(b, x)
      {
        if x != banners[0] {
          assert x in banners[1..];
        }
      }
      ConsOrdered(b, banners);
    } else {
      var rest := InsertBanner(banners[1..], b);
      InsertBannerOrdered(banners[1..], b);
      InsertBannerMembers(banners[1..], b);
      HeadListedFirst(banners);
      ConsOrdered(banners[0], rest);
    }
  }

  /** The banner table after saving `b`: an existing row with its id is replaced, and `b` takes its display position. */
  function UpsertBanner(banners: seq<DealBanner>, b: DealBanner): (r: seq<DealBanner>)
    ensures b in r
    ensures forall x :: x in r ==> x == b || (x in banners && x.id != b.id)
    ensures forall x :: x in banners && x.id != b.id ==> x in r
    ensures DisplayOrdered(banners) ==> DisplayOrdered(r)
  {
    var kept := RemoveBanner(banners, b.id);
    var r := InsertBanner(kept, b);
    assert DisplayOrdered(kept) ==> DisplayOrdered(r) by {
      if DisplayOrdered(kept) { InsertBannerOrdered(kept, b); }
    }
    assert forall x :: x in r <==> x in multiset(r);
    assert forall x :: x in kept <==> x in multiset(kept);
    r
  }

  /** The banner table after deleting the row with the given id. */
  function RemoveBanner(banners: seq<DealBanner>, id: nat): (r: seq<DealBanner>)
    ensures forall x :: x in r <==> x in banners && x.id != id
    ensures DisplayOrdered(banners) ==> DisplayOrdered(r)
  {
    if banners == [] then []
    else
      var rest := RemoveBanner(banners[1..], id);
      if banners[0].id == id then rest
      else
        assert DisplayOrdered(banners) ==> DisplayOrdered([banners[0]] + rest) by {
          if DisplayOrdered(banners) {
            HeadListedFirst(banners);
            ConsOrdered(banners[0], rest);
          }
        }
        [banners[0]] + rest
  }

  /**
   * After a banner is saved, a product it links (or any product of the
   * category it links) has its effective status under the new banner table.
   */
  lemma BannerSignalTargets(products: map<nat, Product>, banners: seq<DealBanner>, b: DealBanner,
                            now: int, k: nat)
    requires k in products
    requires b.productPk == Some(products[k].pk)
      || (b.categoryPk.Some? && products[k].categoryPk == b.categoryPk)
    ensures var s := Synced(products, banners, SignalProductPks(b), SignalCategoryPks(b), now);
      s[k].isDeal == EffectiveDeal(products[k], banners)
  {
    SyncedSpec(products, banners, SignalProductPks(b), SignalCategoryPks(b), now, k);
  }

  /** An active banner linking a product makes it a deal on save. */
  lemma ActiveProductBannerMakesDeal(products: map<nat, Product>, banners: seq<DealBanner>,
                                     b: DealBanner, now: int, k: nat)
    requires k in products && b.isActive && b.productPk == Some(products[k].pk)
    ensures Synced(products, UpsertBanner(banners, b), SignalProductPks(b), SignalCategoryPks(b), now)[k].isDeal
  {
    var nb := UpsertBanner(banners, b);
    var i :| 0 <= i < |nb| && nb[i] == b;
    assert products[k].pk in BannerProductPks(nb);
    BannerSignalTargets(products, nb, b, now, k);
  }

  // ---------------------------------------------------------------------
  // Deleting products
  // ---------------------------------------------------------------------

  /** Whether the banner links one of the products `pks`. */
  predicate LinksAny(b: DealBanner, pks: set<nat>) {
    b.productPk.Some? && b.productPk.value in pks
  }

  /** The banners a deletion of the products `pks` cascades to (DealBanner.product is CASCADE), in table order. */
  function LinkingBanners(banners: seq<DealBanner>, pks: set<nat>): (r: seq<DealBanner>)
    ensures forall x :: x in r <==> x in banners && LinksAny(x, pks)
  {
    if banners == [] then []
    else (if LinksAny(banners[0], pks) then [banners[0]] else []) + LinkingBanners(banners[1..], pks)
  }

  /** The banner table once the cascade has removed the banners linking `pks`. */
  function UnlinkedBanners(banners: seq<DealBanner>, pks: set<nat>): (r: seq<DealBanner>)
    ensures forall x :: x in r <==> x in banners && !LinksAny(x, pks)
    ensures DisplayOrdered(banners) ==> DisplayOrdered(r)
  {
    if banners == [] then []
    else
      var rest := UnlinkedBanners(banners[1..], pks);
      if LinksAny(banners[0], pks) then rest
      else
        assert DisplayOrdered(banners) ==> DisplayOrdered([banners[0]] + rest) by {
          if DisplayOrdered(banners) {
            HeadListedFirst(banners);
            ConsOrdered(banners[0], rest);
          }
        }
        [banners[0]] + rest
  }

  /** Deleting no products cascades to no banner. */
  lemma {:induction false} NothingLinked(banners: seq<DealBanner>)
    ensures LinkingBanners(banners, {}) == [] && UnlinkedBanners(banners, {}) == banners
  {
    if banners != [] {
      NothingLinked(banners[1..]);
      assert !LinksAny(banners[0], {});
      assert LinkingBanners(banners, {}) == [] + LinkingBanners(banners[1..], {});
      assert UnlinkedBanners(banners, {}) == [banners[0]] + UnlinkedBanners(banners[1..], {});
      assert banners == [banners[0]] + banners[1..];
    }
  }

  /** deal_banner_post_delete for each deleted banner in turn, all against the remaining banner table. */
  function ResyncEach(products: map<nat, Product>, banners: seq<DealBanner>, deleted: seq<DealBanner>, now: int):
    map<nat, Product>
  {
    if deleted == [] then products
    else
      var b := deleted[|deleted| - 1];
      Synced(ResyncEach(products, banners, deleted[..|deleted| - 1], now), banners,
        SignalProductPks(b), SignalCategoryPks(b), now)
  }

  /** Whether one of the deleted banners' signals selects the product for a resync. */
  predicate Touched(p: Product, deleted: seq<DealBanner>) {
    exists i :: 0 <= i < |deleted| && Selected(p, SignalProductPks(deleted[i]), SignalCategoryPks(deleted[i]))
  }

  /** A resync may change only the deal status and the update stamp of a product. */
  predicate SameBut(r: Product, p: Product) {
    r.(isDeal := p.isDeal, updatedAt := p.updatedAt) == p
  }

  /**
   * After the deleted banners' resyncs every product is still there and
   * differs at most in is_deal and updated_at; one that some signal selects
   * carries its effective status under the remaining banners, and any other
   * is left exactly as it was.
   */
  lemma {:induction false} ResyncEachSpec(products: map<nat, Product>, banners: seq<DealBanner>,
                                          deleted: seq<DealBanner>, now: int, k: nat)
    requires k in products
    ensures var r := ResyncEach(products, banners, deleted, now);
      && k in r && SameBut(r[k], products[k])
      && (Touched(products[k], deleted) ==> r[k].isDeal == EffectiveDeal(products[k], banners))
      && (!Touched(products[k], deleted) ==> r[k] == products[k])
  {
    if deleted != [] {
      var n := |deleted| - 1;
      var b := deleted[n];
      var prev := ResyncEach(products, banners, deleted[..n], now);
      assert ResyncEach(products, banners, deleted, now)
          == Synced(prev, banners, SignalProductPks(b), SignalCategoryPks(b), now);
      ResyncEachSpec(products, banners, deleted[..n], now, k);
      TouchedSnoc(products[k], deleted);
      ResyncStep(prev, banners, b, now, k, products[k]);
    }
  }

  /** A banner list selects a product when its front does or its last banner does. */
  lemma TouchedSnoc(p: Product, deleted: seq<DealBanner>)
    requires deleted != []
    ensures var n := |deleted| - 1;
      Touched(p, deleted) <==> Touched(p, deleted[..n]) || Selected(p, SignalProductPks(deleted[n]), SignalCategoryPks(deleted[n]))
  {
    var n := |deleted| - 1;
    var init := deleted[..n];
    if Touched(p, deleted) && !Selected(p, SignalProductPks(deleted[n]), SignalCategoryPks(deleted[n])) {
      var i :| 0 <= i < |deleted| && Selected(p, SignalProductPks(deleted[i]), SignalCategoryPks(deleted[i]));
      assert i < n && init[i] == deleted[i];
    }
    if Touched(p, init) {
      var i :| 0 <= i < |init| && Selected(p, SignalProductPks(init[i]), SignalCategoryPks(init[i]));
      assert deleted[i] == init[i];
    }
  }

  /** One banner's resync keeps a product's identity and deal flags, and fixes its status when it selects it. */
  lemma ResyncStep(prev: map<nat, Product>, banners: seq<DealBanner>, b: DealBanner, now: int, k: nat, p: Product)
    requires k in prev && SameBut(prev[k], p)
    ensures var s := Synced(prev, banners, SignalProductPks(b), SignalCategoryPks(b), now);
      && k in s && SameBut(s[k], p)
      && (Selected(p, SignalProductPks(b), SignalCategoryPks(b)) ==> s[k].isDeal == EffectiveDeal(p, banners))
      && (!Selected(p, SignalProductPks(b), SignalCategoryPks(b)) ==> s[k] == prev[k])
  {
    var q := prev[k];
    SyncedSpec(prev, banners, SignalProductPks(b), SignalCategoryPks(b), now, k);
    assert q.pk == p.pk && q.categoryPk == p.categoryPk;
    assert q.dealManual == p.dealManual && q.dealExclude == p.dealExclude;
    assert EffectiveDeal(q, banners) == EffectiveDeal(p, banners);
  }

  /** The resyncs neither add nor drop products. */
  lemma {:induction false} ResyncEachKeys(products: map<nat, Product>, banners: seq<DealBanner>,
                                          deleted: seq<DealBanner>, now: int)
    ensures ResyncEach(products, banners, deleted, now).Keys == products.Keys
  {
    if deleted != [] {
      var n := |deleted| - 1;
      ResyncEachKeys(products, banners, deleted[..n], now);
      SyncedKeys(ResyncEach(products, banners, deleted[..n], now), banners,
        SignalProductPks(deleted[n]), SignalCategoryPks(deleted[n]), now);
    }
  }

  /** A signal selects a product exactly when the banner links it or its category. */
  lemma TouchedIff(p: Product, deleted: seq<DealBanner>)
    ensures Touched(p, deleted) <==>
      (exists i :: 0 <= i < |deleted| &&
         (deleted[i].productPk == Some(p.pk) || (deleted[i].categoryPk.Some? && p.categoryPk == deleted[i].categoryPk)))
  {
  }

  /**
   * QuerySet.delete() on the products `pks`: the banners linking them are
   * deleted by the cascade, each one's post_delete signal resyncs its
   * product and category against the remaining banners, and the products
   * are deleted last.
   */
  function AfterDelete(products: map<nat, Product>, banners: seq<DealBanner>, pks: set<nat>, now: int): map<nat, Product> {
    var resynced := ResyncEach(products, UnlinkedBanners(banners, pks), LinkingBanners(banners, pks), now);
    map k | k in resynced && k !in pks :: resynced[k]
  }

  /** The product, category and deal-banner tables; SaveBanner and DeleteBanner keep the banners in display order. */
  class Catalog {
    var products: map<nat, Product>
    var categories: map<nat, Category>
    var banners: seq<DealBanner>

    constructor ()
      ensures products == map[] && categories == map[] && banners == []
    {
      products := map[];
      categories := map[];
      banners := [];
    }

    /**
     * sync_products_deal_status: collect the selected products whose status
     * differs from the effective one into two lists, then bulk-update each
     * list's is_deal and updated_at.
     */
    method SyncDealStatus(productPks: seq<nat>, categoryPks: seq<nat>, now: int)
      modifies this`products
      ensures products == Synced(old(products), banners, productPks, categoryPks, now)
    {
      if productPks == [] && categoryPks == [] {
        SyncNothingSelected(products, banners, now);
        return;
      }
      var truePks: set<nat> := {};
      var falsePks: set<nat> := {};
      var remaining := products.Keys;
      while remaining != {}
        invariant remaining <= products.Keys
        invariant truePks == ToTrue(products, banners, productPks, categoryPks) - remaining
        invariant falsePks == ToFalse(products, banners, productPks, categoryPks) - remaining
        decreases remaining
      {
        var key :| key in remaining;
        var product := products[key];
        var selected := product.pk in productPks
          || (product.categoryPk.Some? && product.categoryPk.value in categoryPks);
        if selected {
          var fromProductBanner := product.pk in BannerProductPks(banners);
          var fromCategoryBanner := product.categoryPk.Some?
            && product.categoryPk.value in BannerCategoryPks(banners) && !product.dealExclude;
          var effective := product.dealManual || fromProductBanner || fromCategoryBanner;
          if product.isDeal && !effective {
            falsePks := falsePks + {key};
          } else if !product.isDeal && effective {
            truePks := truePks + {key};
          }
        }
        remaining := remaining - {key};
      }
      products := BulkSetDeal(products, truePks, falsePks, now);
    }
    /**
     * Product.save: fill an empty slug, run full_clean when the save touches
     * a validated field (a failure raises and nothing is written), write the
     * row, then resync its deal status when a deal-related field was
     * touched. `isCreate` is an instance without a pk, which the insert
     * gives the unused pk `p.pk`. A non-empty update_fields on a new
     * instance, or on a row that no longer exists, raises after validation
     * and writes nothing; an empty one makes Model.save return without a
     * write, so only the resync of the stored row remains.
     */
    method SaveProduct(p: Product, isCreate: bool, updateFields: Option<seq<string>>,
                       slugify: string -> string, othersValid: bool, now: int)
      returns (saved: bool)
      requires isCreate ==> p.pk !in products
      modifies this`products
      ensures var q := p.(slug := FillSlug(p.slug, p.title, slugify));
        var fields := UpdateFieldSet(updateFields);
        && (saved <==> (!ShouldValidate(isCreate, updateFields) || FullCleanPasses(q, othersValid))
                       && (fields.Some? ==> !isCreate && q.pk in old(products)))
        && (!saved ==> products == old(products))
        && (saved ==>
              var written := WrittenTable(old(products), q, isCreate, updateFields, now);
              products == if ShouldSyncDeals(isCreate, updateFields)
                          then Synced(written, banners, SyncSelection(q, isCreate, updateFields), [], now)
                          else written)
        && (saved && updateFields == Some([]) ==>
              products == if isCreate then old(products) else Synced(old(products), banners, [q.pk], [], now))
    {
      var q := p.(slug := FillSlug(p.slug, p.title, slugify));
      var cleanPasses := !ShouldValidate(isCreate, updateFields) || FullCleanPasses(q, othersValid);
      if !cleanPasses {
        return false;
      }
      var fields := UpdateFieldSet(updateFields);
      var rowFound := fields.Some? ==> !isCreate && q.pk in products;
      if !rowFound {
        return false;
      }
      WriteAndSync(q, isCreate, updateFields, now);
      saved := true;
    }

    /** The write of Product.save followed by its conditional resync of the product's deal status. */
    method WriteAndSync(q: Product, isCreate: bool, updateFields: Option<seq<string>>, now: int)
      requires UpdateFieldSet(updateFields).Some? ==> q.pk in products
      modifies this`products
      ensures var written := WrittenTable(old(products), q, isCreate, updateFields, now);
        products == if ShouldSyncDeals(isCreate, updateFields)
                    then Synced(written, banners, SyncSelection(q, isCreate, updateFields), [], now)
                    else written
      ensures updateFields == Some([]) ==>
        products == if isCreate then old(products) else Synced(old(products), banners, [q.pk], [], now)
    {
      if updateFields != Some([]) {
        var row := SavedRow(products, q, isCreate, UpdateFieldSet(updateFields), now);
        products := products[q.pk := row];
      }
      if ShouldSyncDeals(isCreate, updateFields) {
        if isCreate && updateFields == Some([]) {
          SyncNothingSelected(products, banners, now);
        } else {
          SyncDealStatus([q.pk], [], now);
        }
      }
    }

    /** Category.save: fill an empty slug from the name, then write the category. */
    method SaveCategory(c: Category, slugify: string -> string)
      modifies this`categories
      ensures categories == old(categories)[c.pk := c.(slug := FillSlug(c.slug, c.name, slugify))]
    {
      var slug := c.slug;
      if slug == [] {
        slug := slugify(c.name);
      }
      categories := categories[c.pk := c.(slug := slug)];
    }

    /** DealBanner.save followed by deal_banner_post_save. */
    method SaveBanner(b: DealBanner, now: int)
      modifies this`banners, this`products
      ensures banners == UpsertBanner(old(banners), b)
      ensures products == Synced(old(products), banners, SignalProductPks(b), SignalCategoryPks(b), now)
    {
      banners := UpsertBanner(banners, b);
      var productPks := SignalProductPks(b);
      var categoryPks := SignalCategoryPks(b);
      if productPks != [] || categoryPks != [] {
        SyncDealStatus(productPks, categoryPks, now);
      } else {
        SyncNothingSelected(products, banners, now);
      }
    }

    /** QuerySet.delete() on the products `pks`, with the banner cascade and its signals. */
    method DeleteProducts(pks: set<nat>, now: int)
      modifies this`banners, this`products
      ensures banners == UnlinkedBanners(old(banners), pks)
      ensures products == AfterDelete(old(products), old(banners), pks, now)
    {
      var cascaded := LinkingBanners(banners, pks);
      banners := UnlinkedBanners(banners, pks);
      ResyncDeleted(cascaded, now);
      products := map k | k in products && k !in pks :: products[k];
    }

    /** The post_delete signal of each banner in `deleted`, in turn, against the current banner table. */
    method ResyncDeleted(deleted: seq<DealBanner>, now: int)
      modifies this`products
      ensures products == ResyncEach(old(products), banners, deleted, now)
    {
      var i := 0;
      while i < |deleted|
        invariant 0 <= i <= |deleted|
        invariant products == ResyncEach(old(products), banners, deleted[..i], now)
      {
        var b := deleted[i];
        assert deleted[..i + 1][..i] == deleted[..i];
        SyncDealStatus(SignalProductPks(b), SignalCategoryPks(b), now);
        i := i + 1;
      }
      assert deleted[..i] == deleted;
    }

    /** DealBanner.delete followed by deal_banner_post_delete, for a stored banner `b`. */
    method DeleteBanner(b: DealBanner, now: int)
      modifies this`banners, this`products
      ensures banners == RemoveBanner(old(banners), b.id)
      ensures products == Synced(old(products), banners, SignalProductPks(b), SignalCategoryPks(b), now)
    {
      banners := RemoveBanner(banners, b.id);
      var productPks := SignalProductPks(b);
      var categoryPks := SignalCategoryPks(b);
      if productPks != [] || categoryPks != [] {
        SyncDealStatus(productPks, categoryPks, now);
      } else {
        SyncNothingSelected(products, banners, now);
      }
    }
  }
}
