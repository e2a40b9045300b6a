# The Elysium Archive, modelled in Dafny

The Elysium Archive is a small Django shop that sells access to digital
"archive entries". A visitor fills a session cart and pays through Stripe
Checkout. A Stripe webhook (or the success page) marks the order paid. Paying
grants one access entitlement per purchased product. Buyers may then read the
archive content and review what they bought. Staff manage products, deal
banners and users in the Django admin. A few browser scripts drive the deal
marquee, the review-form counters, the dashboard tabs, the reduced-effects
toggle, the cart quantity feedback and the admin's image-alt counter.

This project models the shop's core and proves properties of the model:

- **Products and deals** (`ProductModels`, `ProductAdmin`): deal-status
  synchronisation, discount lookup, discounted prices, banner links, the save
  decisions, and the admin actions and list columns.
- **Session cart** (`SessionCart`, `CartSignals`, `CartViews`, `CartUpdate`):
  the insertion-ordered session dict, restoring the persistent cart on login,
  the cart views with their guards, and the quantity feedback script.
- **Orders and payment** (`OrderModels`, `OrderUtils`, `OrderServices`,
  `StripeWebhooks`, `CheckoutViews`): orders, line items and entitlements; the
  order built from a cart; access granting; the webhook state machine; and the
  checkout, success and cancel views.
- **Access control** (`Accounts`, `AuthBackend`, `AccessDecorators`,
  `AccessHelpers`, `AccountAdmin`, `Settings`): case-sensitive sign-in, the
  verified-email gate, the access check, the user admin and the
  environment-driven settings.
- **Reviews** (`ReviewViews`, `ReviewForm`): the create, edit and delete views
  and the character counters.
- **Front-end state** (`DealBannerCarousel`, `Dashboard`, `EffectsToggle`,
  `ImageTags`, `ImageAltCounter`): the marquee fill and speed, tab switching,
  the effects toggle, Cloudinary URLs and srcsets, and the alt-text counter.

Code that changes state in place is modelled as a class or a method with
`modifies`. Examples are the session, the order store, the catalog, the
review table and the DOM elements the scripts touch. Decisions and formats
are modelled as functions. Each method is specified by functions of its
inputs and old state, and lemmas prove the properties the source promises
about those functions.

Conventions:
- Money is integer cents. A discount percentage is in hundredths of a percent.
- Python and JavaScript strings are `seq<char>`.
- Database tables are sequences in primary-key order, or maps keyed by primary key.
- Whatever lies outside the code (Stripe, allauth, the clock, uuid, slugify,
  form validation, the password check) is a parameter of the member that uses it.

Where the source files disagree, the model follows the code:
- The order status choices list no "paid", yet the webhooks set it, so
  `OrderModels.Status` includes `Paid`.
- The views call cart helpers with arguments those helpers do not take.
  See "## Findings".
- Product declares no `is_removed` field (products/models.py:37-85), yet
  products/admin.py:138,157,244,330, reviews/views.py:25,56,82 and the tests
  read and write one. The model assumes a boolean `is_removed` column on
  Product, False unless set (`ProductModels.Product.isRemoved`). The soft
  removal, `ReviewViews.LiveProductBySlug` and the admin badges rest on that
  assumption. As the model class is written, those lookups and the bulk
  update would raise FieldError.
- orders/models.py declares only Order and OrderLineItem. Order has no
  `stripe_session_id` or `stripe_payment_intent_id` field, and there is no
  AccessEntitlement class. Yet orders/services.py:7, cart/views.py:7,
  reviews/views.py:9 and checkout/views.py:16 import AccessEntitlement.
  checkout/views.py and checkout/webhooks.py read, filter and save the two
  Stripe fields. The model assumes both Order columns, empty until set
  (`OrderModels.NewOrder`, the StripeWebhooks and CheckoutViews modules),
  and an entitlement table keyed by user and product with an optional
  order. As the model classes are written, those imports raise ImportError.
  The `stripe_session_id` lookups and the saves naming the Stripe fields in
  `update_fields` would fail too.
- Some behaviours are only claimed by tests and are not in the code: an
  active-only deal rule, a "Custom URL" label for an inactive banner product,
  and deal-banner bulk actions. The model has the code's behaviour.

The AccessEntitlement model class is not in orders/models.py (see above). Its shape (one
row per user and product, with an optional order) comes from its uses in
orders/services.py, checkout/webhooks.py and the views.

## Model

| member | source | states |
|---|---|---|
| Text.ParseIntOfIntToString | cart/cart.py:34 | int(str(i)) gives i back, so a cart key always names the product it was made from |
| Text.IntToStringInjective | cart/cart.py:34 | distinct product ids give distinct cart keys |
| Text.JsParseIntOfIntToString | static/js/cart-update.js:15 | parseInt reads back what String(n) writes |
| DealBannerCarousel.Visible | static/js/deal-banner-carousel.js:34-36 | getVisibleItems keeps only items that are not aria-hidden, and never more items than the track has |
| DealBannerCarousel.CloneRound | static/js/deal-banner-carousel.js:49-54 | one forEach pass appends one clone per visible item, in order, each clone copying its original's width |
| DealBannerCarousel.RoundsFacts | static/js/deal-banner-carousel.js:48-56 | the rounds of clones fillTrack appends are all aria-hidden and add exactly `r` times the visible items' width |
| DealBannerCarousel.RoundsAt | static/js/deal-banner-carousel.js:48-56 | position `k*n+i` of the appended clones is the clone of original `i`: each round copies the originals in order |
| DealBannerCarousel.RoundsToFillStops | static/js/deal-banner-carousel.js:48 | the fill loop stops at the 8-round cap or at the first round count whose width reaches 2.2 times the viewport |
| DealBannerCarousel.RoundsToFillMinimal | static/js/deal-banner-carousel.js:48 | every round count before the stopping one was still below the target, so the loop never overshoots by a round |
| DealBannerCarousel.FillNoop | static/js/deal-banner-carousel.js:39-43 | fillTrack leaves the track alone when the marquee has no width or no visible items |
| DealBannerCarousel.FilledShape | static/js/deal-banner-carousel.js:38-57 | the filled track is the old track followed by whole rounds of clones; its visible items are unchanged and its width grows by a multiple of theirs |
| DealBannerCarousel.FilledSpec | static/js/deal-banner-carousel.js:38-57 | after fillTrack the old track is a prefix, the visible items are the originals, and the width reaches 2.2 times the viewport unless exactly eight rounds were appended |
| DealBannerCarousel.Filled | static/js/deal-banner-carousel.js:38-57 | reference definition of the track fillTrack leaves; FilledShape, FilledSpec and FillIdempotent state its properties (no contract of its own) |
| DealBannerCarousel.FillIdempotent | static/js/deal-banner-carousel.js:74-80 | a re-fill on resize at an unchanged width appends nothing once the target was met |
| DealBannerCarousel.Clamp | static/js/deal-banner-carousel.js:67 | the duration is clamped to 10..40 seconds and a duration already inside is unchanged |
| DealBannerCarousel.StepIncreasing | static/js/deal-banner-carousel.js:11 | the speed steps are strictly increasing |
| DealBannerCarousel.ScanFromSpec | static/js/deal-banner-carousel.js:19-32 | the forEach scan with a strict `<` ends at a step no other step is nearer to, with every earlier step strictly farther |
| DealBannerCarousel.ClosestAtUnique | static/js/deal-banner-carousel.js:19-32 | only one step is closest in that sense, so pickClosestStep's choice is determined |
| DealBannerCarousel.ClosestStepSpec | static/js/deal-banner-carousel.js:19-32 | pickClosestStep returns the step nearest to the duration, the earlier step on a tie |
| DealBannerCarousel.ClosestStep | static/js/deal-banner-carousel.js:19-32 | reference definition of pickClosestStep as a function; ClosestStepSpec and ClosestStepMonotone state its properties (no contract of its own) |
| DealBannerCarousel.ClosestIndexMonotone | static/js/deal-banner-carousel.js:19-32 | a longer duration never picks an earlier step index |
| DealBannerCarousel.ClosestStepMonotone | static/js/deal-banner-carousel.js:19-32 | a longer duration never picks a shorter step |
| DealBannerCarousel.SpeedIsStep | static/js/deal-banner-carousel.js:59-71 | updateSpeed always selects one of the eleven speed steps |
| DealBannerCarousel.SpeedFor | static/js/deal-banner-carousel.js:59-71 | reference definition of the step updateSpeed selects; SpeedIsStep, MobileNotSlower and ClampedEnds state its properties (no contract of its own) |
| DealBannerCarousel.MobileNotSlower | static/js/deal-banner-carousel.js:12-13 | for the same track, a mobile viewport (140 px/s) never gets a longer step than a desktop one (110 px/s) |
| DealBannerCarousel.ClampedEnds | static/js/deal-banner-carousel.js:62-69 | raw durations above 40 s select the 40 step and below 10 s the 10 step |
| DealBannerCarousel.PickClosestStep | static/js/deal-banner-carousel.js:19-32 | the scan loop returns the nearest step as ClosestStepSpec characterises it |
| DealBannerCarousel.Marquee.constructor | static/js/deal-banner-carousel.js:6-7 | the marquee starts with its originals as the track and no speed class |
| DealBannerCarousel.Marquee.ClearSpeedClasses | static/js/deal-banner-carousel.js:15-17 | every speed-step class is removed and every other class stays |
| DealBannerCarousel.Marquee.AppendRound | static/js/deal-banner-carousel.js:49-54 | one pass appends exactly one round of clones to the track |
| DealBannerCarousel.Marquee.FillTrack | static/js/deal-banner-carousel.js:38-57 | the track becomes the filled track of FilledSpec, with no rounds when there is no width or no visible item |
| DealBannerCarousel.GrowByRound | static/js/deal-banner-carousel.js:48-55 | one more clone round after r rounds is r + 1 rounds, and the track grows by the width of the visible items |
| DealBannerCarousel.Marquee.UpdateSpeed | static/js/deal-banner-carousel.js:59-71 | afterwards the marquee carries exactly one speed class, the step selected for its width and viewport; other classes stay |
| DealBannerCarousel.FillExample | static/js/deal-banner-carousel.js:45-56 | example (one concrete input; FilledSpec is the all-inputs property): a 1000 px marquee with five 100 px originals stops after four rounds, at 2500 px |
| DealBannerCarousel.SpeedExample | static/js/deal-banner-carousel.js:62-70 | example (one concrete input; ClosestStepSpec is the all-inputs property): a 2500 px track on a desktop viewport runs at the 12-second step |
| ProductModels.FillSlug | products/models.py:30-34 | an empty slug is replaced by slugify of the name or title, and a slug already set is kept |
| ProductModels.UpdateFieldSet | products/models.py:91-92 | the field set Product.save consults for its full_clean and resync decisions: None for a missing or empty update_fields (both then act as on a full save), otherwise exactly the listed fields; whether a row is written is decided from the raw argument, see Catalog.WriteAndSync |
| ProductModels.SaveDecisions | products/models.py:93-108 | full_clean runs on create, on a full save or when image_alt, title or slug is written; the deal resync on create, on a full save or when a deal-related field is written |
| ProductModels.PriceOnlySave | products/models.py:98-108 | saving only the price of an existing product neither validates nor resyncs |
| ProductModels.BannerProductPks | products/models.py:244-246 | a pk is in the set exactly when some active banner links to that product |
| ProductModels.BannerCategoryPks | products/models.py:248-250 | a pk is in the set exactly when some active banner links to that category |
| ProductModels.SyncedSpec | products/models.py:230-272 | after a sync every selected product has its effective deal status (manual, product banner, or category banner without exclusion); a product is rewritten (is_deal and updated_at) only when its status was wrong; nothing else changes |
| ProductModels.SyncedKeys | products/models.py:269-272 | the bulk updates add and remove no product |
| ProductModels.SyncNothingSelected | products/models.py:235-236 | with both pk lists empty the sync changes nothing |
| ProductModels.SyncIdempotent | products/models.py:230-272 | a second sync with the same selection and banners changes nothing |
| ProductModels.Synced | products/models.py:230-272 | reference definition of sync_products_deal_status (no contract of its own); SyncedSpec, SyncedKeys and SyncIdempotent state its properties |
| ProductModels.FirstActive | products/models.py:122-131 | `.first()` over the active banners with a link: the banner at FirstActiveIndex, so an active banner with that link, or None exactly when no banner qualifies |
| ProductModels.FirstActiveIndex | products/models.py:122-125 | the position of the first active banner with the link in table order: every earlier banner is inactive or links elsewhere; None exactly when no banner qualifies |
| ProductModels.FirstActiveEarliest | products/models.py:122-131 | over a table in display order, the banner `.first()` returns is listed before every other active banner with that link (lowest `order`, then newest) |
| ProductModels.DiscountPercentage | products/models.py:114-135 | reference definition of get_discount_percentage (no contract of its own); DiscountPercentageSpec states its properties |
| ProductModels.DiscountPercentageSpec | products/models.py:114-135 | 0 for a non-deal product, never negative, at most 100 under the validators; the first active product banner's truncated percentage when positive; otherwise the first active category banner's truncated percentage when positive and 0 when it is not, and 0 for a product without a category; any positive percentage comes from an active banner of the product or its category |
| ProductModels.RoundHalfEvenHundredths | products/models.py:146 | quantize to the cent lands within half a cent of the exact value |
| ProductModels.DiscountedPriceSpec | products/models.py:137-147 | a 0..100 percent discount gives a price between 0 and the original, within half a cent of price*(100-d)/100; 0 percent keeps the price and 100 percent gives 0 |
| ProductModels.DiscountedPriceCents | products/models.py:137-147 | reference definition of get_discounted_price in cents (no contract of its own); DiscountedPriceSpec states its bounds and rounding |
| ProductModels.BannerUrlInactiveProduct | products/models.py:214-217 | an inactive linked product is passed over exactly as if no product were linked |
| ProductModels.BannerUrlFallback | products/models.py:219-227 | without an active product or custom url the link is the archive path ending in deals=true, with the category filter exactly when the banner has a category |
| ProductModels.BannerUrl | products/models.py:214-227 | reference definition of DealBanner.get_url (no contract of its own); BannerUrlInactiveProduct and BannerUrlFallback state its properties |
| ProductModels.SignalProductPks | products/models.py:281 | the banner signals resync the banner's product, if it has one |
| ProductModels.SignalCategoryPks | products/models.py:282 | the banner signals resync the banner's category, if it has one |
| ProductModels.UpsertBanner | products/models.py:198-208 | saving a banner puts it in the table, replacing the row with its id and keeping every other row; a table in display order (`order`, then newer `created_at` first) stays in display order |
| ProductModels.RemoveBanner | products/models.py:210-212 | deleting removes exactly the rows with that id and keeps the others in display order |
| ProductModels.InsertBanner | products/models.py:198-199 | the table with the new banner added at its display position: exactly one more copy of that banner and nothing else |
| ProductModels.InsertBannerOrdered | products/models.py:198-199 | inserting into a table in display order gives a table in display order |
| ProductModels.ConsOrdered | products/models.py:198-199 | a banner listed before every row of an ordered table can head it |
| ProductModels.HeadListedFirst | products/models.py:198-199 | the first row of an ordered table is listed before every other row |
| ProductModels.InsertBannerMembers | products/models.py:198-199 | the inserted table holds the old rows and the new banner, and nothing else |
| ProductModels.LinkingBanners | products/models.py:161-166 | the banners a deletion of some products cascades to are exactly those linking one of them |
| ProductModels.UnlinkedBanners | products/models.py:161-166 | the banners surviving the cascade are exactly those not linking a deleted product, still in display order |
| ProductModels.NothingLinked | products/models.py:161-166 | deleting no product cascades to no banner |
| ProductModels.ResyncEachSpec | products/models.py:286-292 | after the post_delete resyncs of the cascaded banners every product is still there and differs at most in is_deal and updated_at; one a signal selects carries its effective status under the surviving banners; every other product is unchanged |
| ProductModels.ResyncStep | products/models.py:286-292 | one banner's post_delete resync gives a product its effective status when its signal selects it and leaves it alone otherwise |
| ProductModels.ResyncEachKeys | products/models.py:286-292 | the resyncs add and remove no product |
| ProductModels.TouchedSnoc | products/models.py:290-291 | a product is selected by the signals of a run of banners exactly when it is selected by the earlier ones or by the last |
| ProductModels.TouchedIff | products/models.py:290-291 | a product is resynced exactly when some cascaded banner links it or links its category |
| ProductModels.BannerSignalTargets | products/models.py:278-284 | after a banner is saved, the product it links and every product of its category carry their effective status |
| ProductModels.ActiveProductBannerMakesDeal | products/models.py:278-284 | saving an active banner that links a product makes that product a deal |
| ProductModels.Catalog.constructor | products/models.py:14-25 | the tables start empty |
| ProductModels.Catalog.SyncDealStatus | products/models.py:230-272 | the collect-then-bulk-update loop leaves the product table as SyncedSpec describes |
| ProductModels.Catalog.SaveProduct | products/models.py:89-108 | the slug is filled; the save goes through exactly when full_clean is skipped or passes and, with update_fields, the row exists (otherwise Django refuses); a refused save changes nothing; a full save writes the whole instance with updated_at (and created_at on create) stamped, an update_fields save only the listed columns over the stored row, and an empty update_fields list writes and inserts nothing (Django's Model.save returns at once); the product is resynced exactly when SaveDecisions says so, so an empty list on a stored product only resyncs the stored row and on a new instance (pk still None) changes nothing |
| ProductModels.Catalog.WriteAndSync | products/models.py:103-108 | the table becomes WrittenTable (no write for an empty update_fields list, else SavedRow under the pk), then is resynced exactly when ShouldSyncDeals says so, selecting no product for an unsaved new instance; for an empty list the result is the old table, or its resync of the stored row |
| ProductModels.PriceOnlyRow | products/models.py:103 | save(update_fields=["price"]) changes the stored row's price and nothing else |
| ProductModels.FullSaveRow | products/models.py:103 | a full save writes every column of the instance, stamps updated_at, and stamps created_at only on create |
| ProductModels.WriteListedKeeps | products/models.py:98-106 | an update_fields save naming no validated and no deal field leaves title, slug, alt text, category and the deal flags as stored |
| ProductModels.Catalog.SaveCategory | products/models.py:30-34 | the category is written with its slug filled from the name when empty |
| ProductModels.Catalog.SaveBanner | products/models.py:206-208 | the banner is upserted, then its product and category are resynced against the new banner table |
| ProductModels.Catalog.DeleteBanner | products/models.py:210-212 | the banner is removed, then its product and category are resynced against the remaining banners |
| ProductModels.Catalog.DeleteProducts | products/models.py:161-166 | deleting products removes them and, by CASCADE, the banners linking them; each such banner's post_delete resync runs against the surviving banners |
| ProductModels.Catalog.ResyncDeleted | products/models.py:286-292 | the loop over the cascaded banners leaves the products as ResyncEach says |
| SessionCart.SetItemSpec | cart/cart.py:37-40 | `d[k] = v` changes the dictionary at `k` only; an existing key keeps its place and a new key goes last |
| SessionCart.DelItemSpec | cart/cart.py:61 | `del d[k]` drops exactly `k` from the dictionary and keeps the keys distinct |
| SessionCart.DelSetNew | cart/cart.py:37-40 | removing a key just added as new gives back the dict as it was |
| SessionCart.AddedSpec | cart/cart.py:37-40 | after adding, only that key's quantity changes: the old quantity plus the added one, or the added one for a new key |
| SessionCart.Added | cart/cart.py:37-40 | reference definition of the dict after add_to_cart's update; AddedSpec and AddThenRemove state its properties (no contract of its own) |
| SessionCart.AddThenRemove | cart/cart.py:15-65 | adding a product that was not in the cart and then removing it restores the cart |
| SessionCart.FilterOutKeysMembers | cart/views.py:44-51 | the kept entries are exactly those whose key is not dropped |
| SessionCart.DelItemFilterOut | cart/views.py:45-49 | popping one more key from the filtered cart is filtering by one more key |
| SessionCart.CartLines | cart/cart.py:68-93 | at most one line per key, each in the product table with line total price times quantity; the result is a ValueError (None) exactly when some key is not an integer |
| SessionCart.CartLinesKept | cart/cart.py:78-93 | with integer keys the lines are exactly those of the entries whose product exists, one each, in cart order |
| SessionCart.KeptLinesMembers | cart/cart.py:78-93 | a line is produced exactly when some entry names an existing product, and it is that entry's line |
| SessionCart.KeptLinesLength | cart/cart.py:78-93 | there are never more lines than entries, and as many exactly when every entry names an existing product |
| SessionCart.KeptLinesAppend | cart/cart.py:78 | the loop over two runs of entries yields the lines of the first run, then those of the second |
| SessionCart.SumLinesAppend | cart/cart.py:108-109 | the running total of two runs of lines is the sum of their totals |
| SessionCart.CartTotalSpec | cart/cart.py:96-111 | with integer keys the total exists; an empty cart totals 0.00 and otherwise the total is price times quantity summed over the keys naming an existing product |
| SessionCart.Session.constructor | cart/cart.py:8-12 | a new session has no cart entry and is not modified |
| SessionCart.Session.GetCart | cart/cart.py:8-12 | returns the cart, creating an empty one (and marking the session modified) when missing |
| SessionCart.Session.AddToCart | cart/cart.py:15-43 | true exactly when the product exists and is active; false changes nothing; true adds the quantity under str(id) and marks the session modified |
| SessionCart.Session.RemoveFromCart | cart/cart.py:46-65 | true exactly when the product was in the cart; its entry is deleted and the session marked modified only then |
| SessionCart.Session.GetCartItems | cart/cart.py:68-93 | the loop yields CartLines of the cart, in cart order |
| SessionCart.Session.GetCartTotal | cart/cart.py:96-111 | the loop sums the line totals from 0.00, or raises where get_cart_items does |
| SessionCart.Session.ClearCart | cart/cart.py:114-117 | the cart becomes empty and the session is marked modified |
| SessionCart.Session.DiscardUnsaved | elysium_archive/settings.py:91 | after a response of status 500 or more, SessionMiddleware saves nothing: the stored session is the one the request started from |
| CartSignals.PersistentCarts.constructor | cart/models.py:8-16 | there are no persistent carts yet |
| CartSignals.PersistentCarts.GetOrCreate | cart/signals.py:16 | an existing cart is returned unchanged; a missing one is created empty |
| CartSignals.RestoredCartSpec | cart/signals.py:18-24 | the restored cart has one entry per active product of the persistent cart, each with quantity 1 whatever was stored, and no other entry |
| CartSignals.RestoredCart | cart/signals.py:18-24 | reference definition of the restored session cart; RestoredCartSpec and InactiveNeverRestored state its properties (no contract of its own) |
| CartSignals.InactiveNeverRestored | cart/signals.py:21 | a product that is not active is never restored |
| CartSignals.RestoreCartToSession | cart/signals.py:9-25 | a session cart with entries is left untouched; an empty one is replaced by the restored persistent cart (created if missing) and the session is marked modified |
| CartViews.ParseIntOr | cart/views.py:18-23 | a value int() accepts gives int(value), whatever it is ("+5", "007"); a missing value or one int() rejects gives the default |
| CartViews.ParseIntOrRoundTrip | cart/views.py:18-23 | an id rendered with str() parses back unchanged, whatever the default |
| CartViews.OwnedKeysOfMembers | cart/views.py:37-47 | a key is popped exactly when it is in the cart, int() accepts it and the user holds an entitlement for that product |
| CartViews.ParseAll | cart/views.py:33 | the converted list has one id per key, each int() of its key |
| CartViews.ParseAllFails | cart/views.py:32-35 | the conversion fails exactly when int() rejects some key |
| CartViews.PopStep | cart/views.py:45-49 | a key due to be popped is still in the dict the earlier pops left, and popping it filters one more key out |
| CartViews.PopPurchased | cart/views.py:44-51 | the loop pops exactly the owned keys, and the count is the number of entries that went |
| CartViews.PopIfPurchased | cart/views.py:46-49 | one pass pops and counts the key exactly when its id is purchased |
| CartViews.RemovePurchasedItemsFromCart | cart/views.py:26-57 | an absent or empty cart, or one with a key int() rejects, is left alone with 0; otherwise the owned keys are popped, their number returned, and the session marked modified only when it is not 0 |
| CartViews.PrunedCartKeepsUnowned | cart/views.py:44-51 | after pruning no entry names an owned product and every other entry stays, with its quantity |
| CartViews.UnownedCartShowsNoOwned | cart/cart.py:78-91 | the lines of a cart without owned keys show no owned product |
| CartViews.AddGuard | cart/views.py:63-75 | the guards let a request through exactly when it is a POST with an integer id of an active product the user does not own; a non-POST redirects to the archive |
| CartViews.AddToCartViewAsWritten | cart/views.py:60-86 | as written, every request past the guards fails with TypeError and the cart never changes |
| CartViews.AddGuardLetsThrough | cart/views.py:63-75 | a POST for an active product the user does not own passes the guards |
| CartViews.AddToCartView | cart/views.py:60-86 | past the guards the product is added with quantity 1, the session marked modified, and the view redirects to the product page; otherwise nothing changes |
| CartViews.RemoveGuard | cart/views.py:110-118 | the guards let a request through exactly when it is a POST with an integer id of an existing product, active or not; otherwise a redirect to the cart or a 404 |
| CartViews.RemoveFromCartViewAsWritten | cart/views.py:107-125 | as written, every request past the guards fails with TypeError and the cart never changes |
| CartViews.RemoveGuardLetsThrough | cart/views.py:110-118 | a POST naming any existing product, even one not in the cart, passes the guards |
| CartViews.RemoveFromCartView | cart/views.py:107-125 | past the guards the product's entry is deleted if present and the view redirects to the cart |
| CartViews.CartViewAsWritten | cart/views.py:89-104 | as written, the page always fails with TypeError; the pruning done before the failure is not saved after the 500, so the stored cart and its modified flag are the old ones |
| CartViews.CartView | cart/views.py:89-104 | the purchased entries are pruned, then the page shows the remaining lines and their total; a key int() rejects makes it fail with a 500, after which the stored session is unchanged |
| CartViews.CartPageShowsNoOwned | cart/views.py:89-104 | the cart page never lists a product the user owns |
| OrderModels.HexUpper | orders/models.py:52 | the rendering has exactly the requested width, all upper-case hexadecimal digits |
| OrderModels.OrderNumberFromUuid | orders/models.py:52 | uuid4().hex.upper()[:16] is 16 upper-case hexadecimal characters |
| OrderModels.NewOrder | orders/models.py:29-36 | a new order is pending, totals 0.00 and has no Stripe ids and no line items |
| OrderModels.NumberedOnSave | orders/models.py:47-53 | an order without a number gets one from the uuid; an existing number is kept; either way the number is well formed |
| OrderModels.NumberedOnSaveStable | orders/models.py:47-53 | saving twice assigns the number once, whatever uuid the second save draws |
| OrderModels.SavedLine | orders/models.py:91-94 | line_total becomes product_price times quantity and nothing else changes |
| OrderModels.SavedLineOverrides | orders/models.py:91-94 | a supplied line_total is ignored; with quantity at least 1 and a non-negative price the total is at least the price |
| OrderModels.IndexOfId | orders/models.py:12-53 | finds the order with a primary key, or there is none |
| OrderModels.IndexOfNumber | orders/models.py:28 | finds the order with an order number, or there is none |
| OrderModels.IndexOfNumberUnique | orders/models.py:28 | with unique order numbers the lookup by an order's number finds that order |
| OrderModels.OwnNumberFree | orders/models.py:28 | with unique order numbers no other order holds an order's number |
| OrderModels.ReplaceKeepsIds | orders/models.py:47-53 | writing back a record under its own key keeps primary keys unique |
| OrderModels.LookupsAfterReplace | orders/models.py:47-53 | rewriting a record under its own key and number leaves both lookups unchanged |
| OrderModels.LineProductsMembers | orders/models.py:64-69 | the listed products are exactly those of the line items that still reference a product |
| OrderModels.OrderStore.constructor | orders/models.py:12-94 | the store starts with no orders and no entitlements |
| OrderModels.OrderStore.CreateOrder | orders/models.py:12-53 | given a uuid whose number no stored order holds, a new order under a fresh key with the field defaults, the given total and a well-formed number is appended, and primary keys and order numbers stay unique |
| OrderModels.OrderStore.AddLineItem | orders/models.py:56-94 | the order gains the line item with its total recomputed |
| OrderModels.OrderStore.SaveOrderAt | orders/models.py:47-53 | only the record at that position changes; a number unused by the other orders keeps order numbers unique |
| OrderModels.OrderStore.DeleteOrderAt | orders/models.py:59-63 | the order goes and its line items with it; the other orders keep their order |
| OrderServices.GrantAllSpec | orders/services.py:23-43 | after the loop every listed product is linked for the user; one not linked before is linked to this order; every other entitlement is unchanged and none is removed |
| OrderServices.GrantOne | orders/services.py:29-33 | reference definition of one get-or-create-and-link step; GrantProduct states it (no contract of its own) |
| OrderServices.GrantAll | orders/services.py:23-43 | reference definition of the entitlement table after the grant loop; GrantAllSpec, GrantAllKeys, GrantAllEntries and GrantAllLinked state its properties (no contract of its own) |
| OrderServices.GrantCount | orders/services.py:35-43 | reference definition of the count the grant loop returns; GrantCountSpec states it (no contract of its own) |
| OrderServices.GrantUser | orders/services.py:12-13 | reference definition of the given user, else the order's owner; GrantEntitlementsForOrder states what follows (no contract of its own) |
| OrderServices.GrantAllKeys | orders/services.py:29-33 | granting adds exactly the (user, product) entries of the listed products and removes none |
| OrderServices.GrantAllEntries | orders/services.py:29-43 | every listed product ends linked, the ones not linked before to this order; every other entitlement is unchanged |
| OrderServices.GrantAllLinked | orders/services.py:23-43 | a product is linked afterwards exactly when it was listed or already linked |
| OrderServices.GrantCountSpec | orders/services.py:35-43 | the count is the number of distinct listed products not linked before: created ones plus order-less ones now linked |
| OrderServices.GrantAllNoop | orders/services.py:39-43 | when every listed product is already linked, nothing changes and the count is 0 |
| OrderServices.GrantIdempotent | orders/services.py:10-45 | a second grant for the same order returns 0 and changes nothing |
| OrderServices.LineProductsStep | orders/services.py:26-27 | each further line item adds its product, unless its product is gone |
| OrderServices.GrantEntitlementsForOrder | orders/services.py:10-45 | without a user (given or the order's owner) nothing changes and 0 is returned; otherwise the loop leaves the entitlements and count of GrantAllSpec and GrantCountSpec |
| OrderServices.GrantStep | orders/services.py:23-43 | one more listed product is one more get-or-create-and-link step, counted exactly when the product was not linked yet |
| OrderServices.GrantProduct | orders/services.py:29-43 | the entitlement for (user, product) is created, or linked to this order, exactly when it was not linked, and the result says whether that happened; otherwise nothing changes |
| OrderUtils.LinesForCart | orders/order_utils.py:21-29 | one line item per cart line |
| OrderUtils.LinesForCartSpec | orders/order_utils.py:21-31 | each line item is one unit of its cart line's product at its price and title, in cart order, and the order total is the sum of those prices whatever quantities the cart holds |
| OrderUtils.OrderFromCart | orders/order_utils.py:16-31 | reference definition of the order create_order_from_cart builds; LinesForCartSpec, UnitCartTotal and BuildCartOrder state its properties (no contract of its own) |
| OrderUtils.UnitCartTotal | orders/order_utils.py:21-31 | when every cart quantity is 1 the order total equals the cart total |
| OrderUtils.CreateOrderFromCart | orders/order_utils.py:10-36 | a cart key int() rejects raises with no order; an empty cart gives no order; otherwise one order with a line per cart line and the unit-price total is added and the cart is emptied |
| OrderUtils.BuildCartOrder | orders/order_utils.py:16-31 | exactly one order is appended, under the next primary key, with a unit-quantity line per cart line and the sum of their line totals as its total |
| OrderUtils.AddCartLines | orders/order_utils.py:21-29 | the loop gives the order its line items and returns the sum of their totals |
| StripeWebhooks.OrderFromMetadata | checkout/webhooks.py:27-46 | with an order_id the order with that key, none, or the ValueError of a non-numeric id; without one the order with the given order number, or none |
| StripeWebhooks.OrderIdFirst | checkout/webhooks.py:31-36 | with an order_id present the order number plays no part |
| StripeWebhooks.FilledIds | checkout/webhooks.py:83-91 | a stored Stripe id is never overwritten; a missing one is filled when the event carries it; nothing else changes |
| StripeWebhooks.SessionFilled | checkout/webhooks.py:119-125 | only a missing session id is recorded; an order with one is unchanged |
| StripeWebhooks.Expired | checkout/webhooks.py:148-169 | a paid order is left alone; any other becomes failed, with a missing session id filled |
| StripeWebhooks.PaymentFailedOrder | checkout/webhooks.py:172-185 | a paid order is left alone; any other becomes failed |
| StripeWebhooks.MarkedPaid | checkout/webhooks.py:49-72 | reference definition of the order _mark_order_paid writes: paid, with the event's payment intent and session id where given; MarkOrderPaid and PaidNeverDowngraded state its properties (no contract of its own) |
| StripeWebhooks.OnOrder | checkout/webhooks.py:100-185 | reference definition of what each handler does to the order it finds and whether it grants access; OnOrderKeepsIdentity, OnOrderReplay and PaidNeverDowngraded state its properties (no contract of its own) |
| StripeWebhooks.Apply | checkout/webhooks.py:100-185 | reference definition of an event's effect on the order and entitlement tables; PaidNeverDowngraded, ReplayIsNoop and EntitlementsOnlyGrow state its properties (no contract of its own) |
| StripeWebhooks.KindOf | checkout/webhooks.py:219-233 | reference definition of the dispatch on the event type; WebhookResponse and UnknownEventAcknowledged state what follows from it (no contract of its own) |
| StripeWebhooks.OnOrderKeepsIdentity | checkout/webhooks.py:49-185 | no handler changes an order's key, number, owner, line items, total or creation time |
| StripeWebhooks.PaidNeverDowngraded | checkout/webhooks.py:100-185 | no event moves a paid order out of paid or overwrites a Stripe id it has stored |
| StripeWebhooks.FailureEventsIgnorePaid | checkout/webhooks.py:155-163 | expiry and payment failure change nothing for a paid order |
| StripeWebhooks.CompletedNeedsPayment | checkout/webhooks.py:112-128 | a completed event makes an unpaid order paid exactly when payment_status is "paid"; otherwise only a missing session id is filled and no access is granted |
| StripeWebhooks.ExpiryFails | checkout/webhooks.py:158-169 | expiry makes an unpaid order failed, fills its session id only when missing and changes nothing else |
| StripeWebhooks.GrantedIdempotent | checkout/webhooks.py:72 | granting twice for the same order is granting once |
| StripeWebhooks.OnOrderReplay | checkout/webhooks.py:100-185 | replaying a handler on the order it produced writes the same order and grants nothing new |
| StripeWebhooks.ReplayIsNoop | checkout/webhooks.py:100-185 | delivering the same event twice has the effect of delivering it once; a replayed completed event leaves a paid order paid and adds no entitlement |
| StripeWebhooks.EntitlementsOnlyGrow | checkout/webhooks.py:49-97 | entitlements are never removed, and one linked to an order keeps its link |
| StripeWebhooks.WebhookResponse | checkout/webhooks.py:188-238 | 405 for a non-POST, 500 without the secret key or webhook secret, 400 exactly for a missing signature or an event that fails construction, 200 only with the tables the handler leaves; nothing changes unless 200 |
| StripeWebhooks.UnknownEventAcknowledged | checkout/webhooks.py:222-238 | an event of an unhandled type is acknowledged with 200 and changes nothing |
| StripeWebhooks.UnknownOrderAcknowledged | checkout/webhooks.py:102-105 | an event naming no known order is acknowledged with 200 and changes nothing |
| StripeWebhooks.MarkOrderPaid | checkout/webhooks.py:49-72 | the order becomes paid with the event's ids, and access is granted for it |
| StripeWebhooks.EnsurePaidOrderConsistency | checkout/webhooks.py:75-97 | only missing ids are filled, and access is granted for the order |
| StripeWebhooks.FillSessionId | checkout/webhooks.py:119-125 | records the session id only when the order has none |
| StripeWebhooks.HandleEvent | checkout/webhooks.py:100-185 | the handler leaves exactly the tables the event's effect describes, or raises and changes nothing |
| StripeWebhooks.StripeWebhook | checkout/webhooks.py:188-238 | the endpoint answers WebhookResponse's status and leaves its tables |
| CheckoutViews.KeysOf | checkout/views.py:35-36 | every purchased id's key str(pid) is among the keys popped |
| CheckoutViews.PruneKeys | checkout/views.py:34-39 | the loop pops the purchased ids' keys and counts exactly the pops that found a key |
| CheckoutViews.RemovePurchasedFromSessionCart | checkout/views.py:28-45 | an absent or empty cart returns 0 unchanged; otherwise the purchased keys go, their number is returned, and the session is marked modified only when it is not 0 |
| CheckoutViews.RecentPending | checkout/views.py:48-61 | the chosen order is the user's, pending, has a session id and is inside the window, and no other such order is newer; none is chosen exactly when no order qualifies |
| CheckoutViews.OldOrdersNeverPicked | checkout/views.py:50-56 | an order created before the cutoff is never picked |
| CheckoutViews.ReuseDecision | checkout/views.py:64-91 | a Stripe error changes nothing; a reused session leaves the order as it is; the only change ever made is failing the order, and then checkout goes on |
| CheckoutViews.PaidSessionGoesToSuccess | checkout/views.py:75-79 | a session Stripe reports paid redirects to the success page and is never failed |
| CheckoutViews.DeadSessionFailsOrder | checkout/views.py:86-91 | an expired or complete, unpaid session fails the order and checkout goes on |
| CheckoutViews.TryReuseStripeSession | checkout/views.py:64-91 | the response and the order afterwards are ReuseDecision's |
| CheckoutViews.ReuseRecentSession | checkout/views.py:124-129 | a response is returned exactly when a recent pending order (15 minutes) exists and ReuseDecision on it gives one; without a recent order nothing changes; otherwise that order becomes what ReuseDecision gives |
| CheckoutViews.FailRecentPendingOrder | checkout/views.py:94-113 | the recent pending order (30 minutes) is returned and becomes failed; without one nothing changes |
| CheckoutViews.CartPks | checkout/views.py:136-137 | the products' pks in cart order |
| CheckoutViews.OwnedPks | checkout/views.py:139-144 | exactly the cart products the user has an entitlement for |
| CheckoutViews.UnownedPks | checkout/views.py:152 | exactly the cart products the user has no entitlement for |
| CheckoutViews.ValidPks | checkout/views.py:160 | each existing active product among them, once, in Product's default order (newest `created_at` first) |
| CheckoutViews.InsertNewest | products/models.py:83-84 | a product placed in a newest-first list: exactly one more copy of it and nothing else |
| CheckoutViews.InsertNewestSpec | products/models.py:83-84 | inserting a product not in a distinct newest-first list gives a distinct newest-first list of the old members and it |
| CheckoutViews.ConsNewest | products/models.py:83-84 | a product no older than every member of a distinct newest-first list, and not in it, can head it |
| CheckoutViews.NewestHead | products/models.py:83-84 | the head of a distinct newest-first list is no older than the rest, and the rest is still distinct and newest first |
| CheckoutViews.NewestAhead | products/models.py:83-84 | a product no older than the head of a distinct newest-first list, and not in it, can head it |
| CheckoutViews.InsertNewestMembers | products/models.py:83-84 | the inserted list holds the old members and the new product, and nothing else |
| CheckoutViews.PlanNewestFirst | checkout/views.py:159-160 | the products checkout orders come newest `created_at` first, so line items and Stripe lines follow that order |
| CheckoutViews.PlanSafeAndComplete | checkout/views.py:131-164 | checkout orders exactly the cart's products that exist, are active and are not owned, each once |
| CheckoutViews.PlanCheckout | checkout/views.py:131-164 | reference definition of the checks checkout runs on the cart; PlanSafeAndComplete, PlanNewestFirst and PlanStopsOnlyWhenNothingOrderable state its properties (no contract of its own) |
| CheckoutViews.PlanStopsOnlyWhenNothingOrderable | checkout/views.py:154-164 | checkout stops with "already own everything" or "cart is empty" only when no cart product is orderable, and then the cart is emptied |
| CheckoutViews.PrunePurchasedLines | checkout/views.py:146-152 | the entries of the owned cart products go, and the session is marked modified exactly when one went |
| CheckoutViews.PlanLines | checkout/views.py:136-164 | the checks on the cart lines give PlanFromLines and leave its cart |
| CheckoutViews.PlanOrClear | checkout/views.py:154-164 | with no unowned product, or none of them an existing active product, the cart is emptied and the view stops; otherwise the orderable products go on and the cart is untouched |
| CheckoutViews.PlanCart | checkout/views.py:131-164 | the cart checks give PlanCheckout's outcome and leave CartAfterPlan in the session |
| CheckoutViews.LinesFor | checkout/views.py:174-182 | one line item per ordered product |
| CheckoutViews.StripeLinesFor | checkout/views.py:184-196 | one Stripe line per ordered product: eur, its title, its price in cents, quantity 1 |
| CheckoutViews.PlacedOrderSpec | checkout/views.py:166-182 | the new order is pending, the user's, numbered and without session id; each line is one unit at its price; the lines name exactly the ordered products in order; the total is the sum of the line totals |
| CheckoutViews.PlacedOrder | checkout/views.py:166-182 | reference definition of the order checkout creates for the valid products; PlacedOrderSpec and PlacedOrderOrderable state its properties (no contract of its own) |
| CheckoutViews.LinesForSpec | checkout/views.py:174-182 | each line is the product's line; the lines name the products in order; their totals sum to the prices' sum |
| CheckoutViews.LinesForAt | checkout/views.py:174-182 | line `i` is the line item for product `i` |
| CheckoutViews.LinesForProducts | checkout/views.py:174-182 | the lines name exactly the ordered products, in order |
| CheckoutViews.LinesForTotal | checkout/views.py:174-182 | the line totals sum to the sum of the products' prices |
| CheckoutViews.MetadataFindsOrder | checkout/views.py:207-210 | the session metadata order_id = str(order.id) leads the webhook back to exactly this order |
| CheckoutViews.PlacedOrderOrderable | checkout/views.py:131-182 | the order placed for the products the checks let through is pending, the user's, correctly totalled and holds only active products the user does not own |
| CheckoutViews.CreateOrderAndSession | checkout/views.py:166-226 | the order is created under the next key with a number no other order holds, with its lines, and the Stripe lines built; with a session url the order is kept as PlacedOrder with the session id stored and the user redirected to Stripe; otherwise the order is deleted again and the user sent to the cart |
| CheckoutViews.AddCheckoutLines | checkout/views.py:173-196 | the loop gives the order one unit line item per product and builds the matching Stripe lines, in order; nothing else changes |
| CheckoutViews.PrepareCheckout | checkout/views.py:116-164 | non-POST is refused and a missing key redirects to the cart, both with no change; at most recent orders are failed; checkout gets past the checks exactly when the method is POST, the key is set, no recent session is reused and PlanCheckout proceeds, and then with exactly its products and the cart PlanCheckout leaves |
| CheckoutViews.CheckCart | checkout/views.py:131-164 | checkout continues exactly when PlanCheckout proceeds, and then with its products; a crashing cart is a server error and every other stop a redirect to the cart; the session cart becomes what the plan leaves |
| CheckoutViews.CheckoutAsWritten | checkout/views.py:116-226 | as written, every request that passes the cart checks fails with TypeError and no order is created; after any 500 the stored session is the one the request started from |
| CheckoutViews.CheckoutAsWrittenReachesTotal | checkout/views.py:131-166 | a cart holding one active product the user does not own reaches line 166 |
| CheckoutViews.Checkout | checkout/views.py:116-226 | non-POST and a missing key change nothing; earlier orders change at most by failing; an order is added only when checkout proceeds past the reuse and cart checks and Stripe returns a session url, and then exactly one, equal to PlacedOrder of the planned products with the session id, and the user is redirected to Stripe; a proceeding checkout without a url adds none and returns to the cart; the session cart is what PlanCheckout leaves; after a 500 (a cart get_cart_items cannot read) the stored session is unchanged |
| CheckoutViews.GetOrCreateAllSpec | checkout/views.py:247-253 | every listed product gets an entitlement; new ones link the order; existing ones are unchanged |
| CheckoutViews.GetOrCreateAll | checkout/views.py:247-253 | reference definition of the success page's get_or_create loop over the order's products; GetOrCreateAllSpec states its result (no contract of its own) |
| CheckoutViews.EnsureEntitlements | checkout/views.py:247-253 | the loop over the order's line items leaves GetOrCreateAll |
| CheckoutViews.OwnOrder | checkout/views.py:239 | the found order has the number and belongs to the user |
| CheckoutViews.CheckoutSuccess | checkout/views.py:229-286 | another user's or unknown order redirects with no change; a paid order, or a pending one Stripe reports paid, gets an entitlement per line-item product and the cart emptied; otherwise nothing changes |
| CheckoutViews.SuccessPageDoesNotLink | checkout/views.py:249-253 | an order-less entitlement stays order-less on the success page, where the grant service would link it |
| CheckoutViews.ConfirmsViaStripe | checkout/views.py:259-262 | reference definition of when the success page confirms a pending order through Stripe; CheckoutSuccess states what follows (no contract of its own) |
| CheckoutViews.CheckoutCancel | checkout/views.py:289-294 | the recent pending order (30 minutes) is failed and the cancel page renders |
| ImageTags.FillUrlUnchanged | products/templatetags/elysium_images.py:24-36 | a falsy image gives "" and a URL without "/upload/" is returned as it is |
| ImageTags.FillUrlInserts | products/templatetags/elysium_images.py:31-34 | with one "/upload/", the fill transformation and a "/" are inserted right after it |
| ImageTags.FillUrlRoundTrip | products/templatetags/elysium_images.py:31-34 | with one "/upload/", cutting the inserted segment out of the result gives back the URL |
| ImageTags.FillUrlDropsAfterSecond | products/templatetags/elysium_images.py:32-34 | with a second "/upload/", everything from it onwards is dropped |
| ImageTags.FillUrl | products/templatetags/elysium_images.py:24-36 | reference definition of cloudinary_fill_url; FillUrlUnchanged, FillUrlInserts, FillUrlRoundTrip and FillUrlDropsAfterSecond state its properties (no contract of its own) |
| ImageTags.MapPairsSpec | products/templatetags/elysium_images.py:81-83 | the loop reads the dimensions two at a time: one entry per pair, in order |
| ImageTags.CandidatesSpec | products/templatetags/elysium_images.py:80-85 | one candidate per (width, height) pair, the j-th built from the j-th pair |
| ImageTags.Candidates | products/templatetags/elysium_images.py:80-85 | reference definition of the srcset candidates of the dimension pairs; CandidatesSpec states them (no contract of its own) |
| ImageTags.CandidateDescriptor | products/templatetags/elysium_images.py:85 | every candidate ends with a space and its width descriptor `<width>w`, whose digits read back as the width |
| ImageTags.CandidateString | products/templatetags/elysium_images.py:84-85 | the loop body builds the fill URL and the candidate for one pair |
| ImageTags.CandidatesSnoc | products/templatetags/elysium_images.py:81-85 | one more pass appends the candidate of the next pair |
| ImageTags.FillCandidates | products/templatetags/elysium_images.py:80-85 | the loop builds the candidates of all pairs, in order |
| ImageTags.FillSrcset | products/templatetags/elysium_images.py:59-87 | "" for a falsy image or an odd number of dimensions; otherwise the candidates of all pairs joined by ", " |
| ProductAdmin.UnpublishedSpec | products/admin.py:201-203 | no product is deleted: selected products become inactive with every other field as before, and the rest are untouched |
| ProductAdmin.DeleteModel | products/admin.py:192-199 | the product is unpublished (is_active cleared, updated_at set), not deleted, and the unpublish message is given |
| ProductAdmin.DeleteQueryset | products/admin.py:201-207 | one bulk update unpublishes every selected product, and the message counts them |
| ProductAdmin.GetActions | products/admin.py:209-214 | the built-in bulk delete is never offered; every other action is |
| ProductAdmin.DeclaredActionsOffered | products/admin.py:180-186 | every action the admin declares is still offered |
| ProductAdmin.FeaturedAfterSpec | products/admin.py:284-304 | afterwards every listed product has the flag; exactly those whose flag differed get a new updated_at; nothing else changes and no product is added or removed |
| ProductAdmin.ChangedCountSpec | products/admin.py:286-291 | the count is the number of selected products whose flag changes |
| ProductAdmin.FeaturedRerun | products/admin.py:284-304 | running the toggle again straight away changes nothing and counts 0 |
| ProductAdmin.FeaturedNoop | products/admin.py:288 | when every listed product already has the flag, nothing changes and the count is 0 |
| ProductAdmin.FeaturedAfterUnvisited | products/admin.py:287-290 | a product the loop does not visit keeps its record |
| ProductAdmin.SetFeatured | products/admin.py:284-304 | the loop saves each listed product whose flag differs with the new flag, and counts them |
| ProductAdmin.MarkAsFeatured | products/admin.py:284-295 | every selected product ends featured; the count is the number that were not |
| ProductAdmin.UnmarkAsFeatured | products/admin.py:297-308 | every selected product ends not featured; the count is the number that were |
| ProductAdmin.RemovalSpec | products/admin.py:317-338 | a product someone has an entitlement to is never deleted; a selected one is only marked removed, inactive and not featured; the other selected products are deleted; an unselected product differs at most in is_deal and updated_at, and only when a cascaded banner's signal selects it |
| ProductAdmin.RemovalAt | products/admin.py:317-338 | per product: it survives exactly when it is unselected or entitled; a survivor differs from its soft-removed or untouched self at most in is_deal and updated_at, carries its effective status when a cascaded banner's signal selects it, and is otherwise unchanged |
| ProductAdmin.RemovalGroups | products/admin.py:317-324 | the soft and hard groups are disjoint, make up the selection, and their counts add up to its size |
| ProductAdmin.RemovalMessageSpec | products/admin.py:340-350 | the message reports deletions exactly when some product was deleted, begins with the soft count when some were kept, and says nothing changed exactly when neither happened |
| ProductAdmin.RemoveProductsPermanently | products/admin.py:310-352 | an empty selection only reports so; otherwise the products end as AfterRemoval says, the banners linking a deleted product are gone (CASCADE), and the counts and message match |
| ProductAdmin.FlagSoftRemoved | products/admin.py:326-334 | the bulk update marks every entitled selected product removed, inactive and not featured with updated_at set, and counts them |
| ProductAdmin.StatusBadgesSpec | products/admin.py:240-266 | exactly one state badge comes first (removed before active before unpublished); a featured badge appears iff featured and a deal badge iff a deal, featured before deal |
| ProductAdmin.ProductCountSpec | products/admin.py:90-103 | the label starts with the count, ends in "s" exactly when the count is not 1, and carries the zero class exactly when the count is 0 |
| ProductAdmin.RStrip | products/admin.py:388-390 | rstrip removes exactly the trailing run of that character |
| ProductAdmin.RStripNoop | products/admin.py:388-390 | stripping a character a text does not end with leaves it as it is |
| ProductAdmin.DiscountTextSpec | products/admin.py:388-390 | a whole percentage shows without decimals, a second decimal of 0 is dropped, otherwise both decimals show; the stripping never reaches the integer part |
| ProductAdmin.DiscountDisplay | products/admin.py:384-395 | a discount badge exactly when the percentage is positive, else the muted dash |
| ProductAdmin.DestinationByPresence | products/admin.py:397-428 | the label follows product, category, custom url, deals page by presence alone; for an inactive linked product the URL still skips it |
| AccountAdmin.UsersWith | accounts/admin.py:28-34 | the filtered list is never longer than the user list |
| AccountAdmin.UsersWithMembers | accounts/admin.py:28-34 | a user is kept exactly when listed and in the wanted purchase state |
| AccountAdmin.UsersWithPartition | accounts/admin.py:28-34 | every user lands in exactly one of the two filtered lists |
| AccountAdmin.HasPurchasesFilter | accounts/admin.py:28-34 | any value other than "yes" or "no" leaves the user list as it is |
| AccountAdmin.HasPurchasesFilterSpec | accounts/admin.py:28-34 | "yes" keeps exactly the users with an entitlement, "no" exactly those without, and together they hold every user once |
| AccountAdmin.HasPurchases | accounts/admin.py:31-33 | reference definition of a user with at least one entitlement; HasPurchasesFilterSpec states the filter over it (no contract of its own) |
| AccountAdmin.EntitlementTotalZero | accounts/admin.py:66-69 | the annotated entitlement count is 0 exactly when the user has no purchases |
| AccountAdmin.PurchaseCountSpec | accounts/admin.py:124-133 | "No purchases" exactly for a zero or missing count; otherwise the text starts with the count and ends in "s" exactly when the count is not 1 |
| AccountAdmin.PurchaseCount | accounts/admin.py:124-133 | reference definition of the purchase-count column; PurchaseCountSpec states it (no contract of its own) |
| AccountAdmin.RoleBadgeSpec | accounts/admin.py:136-148 | "User" exactly when neither superuser nor staff; superuser wins over staff; the staff badge only for staff who are not superusers |
| AccountAdmin.RoleBadge | accounts/admin.py:136-148 | reference definition of the role column; RoleBadgeSpec states it (no contract of its own) |
| AccountAdmin.AvatarInitial | accounts/admin.py:93 | the placeholder is one character |
| AccountAdmin.AvatarInitialSpec | accounts/admin.py:93 | a lower-case first letter shows upper-cased, an upper-case one as is, and "?" only for an empty username |
| AccountAdmin.EmailVerifiedBadge | accounts/admin.py:108-121 | the success badge exactly when the lookup finds a verified address; a failing lookup shows Unverified |
| AuthBackend.LookupsSpec | accounts/backends.py:34-46 | every enabled login method is tried once and nothing else; e-mail comes first exactly when the login has "@" and e-mail is enabled, or e-mail is the only method |
| AuthBackend.FirstWith | accounts/backends.py:49-54 | a found user is the earliest with that exact field value; None means no user has it |
| AuthBackend.FirstHitSpec | accounts/backends.py:48-59 | the first lookup that finds a user wins; None exactly when no lookup finds one |
| AuthBackend.FirstHit | accounts/backends.py:48-59 | reference definition of the tries of _get_user_by_login in order; FirstHitSpec and FirstLookupWins state its properties (no contract of its own) |
| AuthBackend.Lookups | accounts/backends.py:34-46 | reference definition of the order in which the enabled login methods are tried; LookupsSpec states it (no contract of its own) |
| AuthBackend.UserByLogin | accounts/backends.py:31-59 | reference definition of _get_user_by_login; EmailFirstForAddresses, UsernameFirstOtherwise and DefaultIsUsernameOnly state its properties (no contract of its own) |
| AuthBackend.FirstLookupWins | accounts/backends.py:48-57 | when the first lookup finds a user, that user is returned |
| AuthBackend.EmailFirstForAddresses | accounts/backends.py:38-41 | with "@" in the login and e-mail enabled, the earliest user with that exact e-mail wins over username matches |
| AuthBackend.UsernameFirstOtherwise | accounts/backends.py:42-46 | otherwise, with usernames enabled, the earliest user with that exact username wins |
| AuthBackend.DefaultIsUsernameOnly | accounts/backends.py:34 | without the setting only usernames are looked up |
| AuthBackend.GetUserByLogin | accounts/backends.py:31-59 | the loop returns the user of the first successful lookup, as UserByLogin defines |
| AuthBackend.Authenticate | accounts/backends.py:13-29 | a user is returned exactly when a login and password are given, a user is found, is active and passes the password check; it is the user found |
| AuthBackend.LoginOf | accounts/backends.py:15 | reference definition of the login taken from username, email or login, first non-empty; Authenticate states where it is used (no contract of its own) |
| AuthBackend.AuthenticateSound | accounts/backends.py:13-29 | a signed-in user is in the table, active, passed the password check and matched exactly on an enabled field; the username argument takes precedence |
| AccessDecorators.VerifiedEmailRequiredSpec | accounts/decorators.py:16-26 | anonymous visitors go to sign-in with next set to the path; signed-in unverified users to the e-mail page; only verified users get the view's result, and the view plays no part in the redirects |
| AccessDecorators.VerifiedEmailRequired | accounts/decorators.py:14-26 | reference definition of verified_email_required's wrapper; VerifiedEmailRequiredSpec states its three outcomes (no contract of its own) |
| AccessDecorators.LoginUrl | accounts/decorators.py:18 | reference definition of the sign-in URL with next set to the request path; VerifiedEmailRequiredSpec states where it is used (no contract of its own) |
| AccessHelpers.UserHasAccess | elysium_archive/helpers.py:6-19 | never for anonymous visitors, always for superusers, otherwise exactly when an entitlement for that user and product exists |
| AccessHelpers.AccessIsPerUserAndProduct | elysium_archive/helpers.py:6-19 | an ordinary user's access changes only with their own entitlement to that product |
| Settings.EnvBool | elysium_archive/settings.py:18-22 | an unset variable gives the default; a set one is true exactly when its trimmed, lower-cased text is one of the five true words |
| Settings.EnvBoolIgnoresDefault | elysium_archive/settings.py:18-22 | a set variable decides alone: the default plays no part; examples: " Yes\n" and "ON" are true and "" is false (EnvBoolNormalised is the all-inputs statement) |
| Settings.EnvBoolNormalised | elysium_archive/settings.py:18-22 | for every value: it reads as its stripped, lower-cased form; two values equal up to letter case agree; white space around a value does not matter |
| Settings.DebugDefault | elysium_archive/settings.py:27 | DEBUG is on when the variable is unset and off for "0" and "false" |
| Settings.Debug | elysium_archive/settings.py:27 | reference definition of DEBUG; DebugDefault states its default and its off spellings (no contract of its own) |
| Settings.NonEmptyStripped | elysium_archive/settings.py:31 | the host list is never longer than the list of parts |
| Settings.NonEmptyStrippedMembers | elysium_archive/settings.py:31 | the entries are exactly the non-empty stripped parts |
| Settings.NonEmptyStrippedShape | elysium_archive/settings.py:31 | every entry is non-empty, without a comma, and without white space at either end |
| Settings.ParseHostsSpec | elysium_archive/settings.py:30-31 | the parsed hosts are exactly the non-empty stripped comma-separated parts of the variable, each a clean host name |
| Settings.ParseHosts | elysium_archive/settings.py:30-31 | reference definition of the ALLOWED_HOSTS parsing; ParseHostsSpec states it (no contract of its own) |
| Settings.AllowedHosts | elysium_archive/settings.py:30-37 | without DEBUG the parsed list; with DEBUG the parsed list followed by localhost and 127.0.0.1, each added only when absent, so each then occurs, with no duplicate introduced |
| Settings.AppendIfAbsent | elysium_archive/settings.py:34-37 | the host is present afterwards and the old list is a prefix; it is appended, one occurrence more, exactly when it was absent, and no other host's count changes |
| ReviewViews.EntitlementVersusAccess | reviews/views.py:16-18 | reviewing needs a purchase: for an ordinary user this is the same as access, but a superuser who bought nothing has access without being allowed to review |
| ReviewViews.LiveProductBySlug | reviews/views.py:25 | the product found carries the slug and is not removed; a 404 means no product that is not removed carries it |
| ReviewViews.RemovedProductNotFound | reviews/views.py:25 | a removed product is never found by its slug |
| ReviewViews.ReviewOf | reviews/views.py:31 | a found review belongs to that user and product; None means the user has not reviewed it |
| ReviewViews.OwnReview | reviews/views.py:57 | a found review has that id and belongs to the requester and that product; a 404 means no such review |
| ReviewViews.OwnReviewByIdOnly | reviews/views.py:57 | a review id names one review: another user's review, or one of another product, is a 404 |
| ReviewViews.WithoutAtSpec | reviews/views.py:85 | deleting one row removes exactly the review with that id and keeps distinct ids and one review per user and product |
| ReviewViews.ReviewStore.Insert | reviews/models.py:62-66 | the insert succeeds under a fresh id exactly when the user has no review of that product; otherwise the unique constraint leaves the table as it was |
| ReviewViews.ReviewStore.CreateReview | reviews/views.py:21-49 | stopped requests get the wrapper's redirect; only POST; a 404 for a missing or removed product; without a purchase, with an existing review or with an invalid form nothing is written; otherwise exactly one review owned by the requester is added |
| ReviewViews.ReviewStore.EditReview | reviews/views.py:52-75 | only GET and POST; a 404 unless the review is the requester's own for a live product; a valid POST rewrites only that review's rating, title and body; a GET or an invalid form renders the edit page and changes nothing; no other review ever changes |
| ReviewViews.ReviewStore.DeleteReview | reviews/views.py:78-87 | only POST; a 404 unless the review is the requester's own for a live product; then exactly that review is deleted; another user's review is never deleted |
| ReviewViews.DeniedIsWrapper | accounts/decorators.py:16-26 | a request the wrapper stops gets its redirect whatever the view would do; an admitted one reaches the view |
| ReviewForm.MaxLengthOf | static/js/review-form.js:12 | an attribute parseInt reads as a non-zero number gives that number (" 50px" gives 50); a missing attribute, NaN or 0 gives the default |
| ReviewForm.MaxLengthOfSpec | static/js/review-form.js:12 | a limit written as a number is read back as that number, except 0, which falls back to the default like a missing attribute |
| ReviewForm.MaxLengthOfText | static/js/review-form.js:12 | example (two concrete inputs; MaxLengthOfSpec is the all-inputs property): " 50px" reads as 50, since leading white space and trailing text are ignored, and "none", without digits, gives the default |
| ReviewForm.TruncatedSpec | static/js/review-form.js:14-21 | the value is cut to its prefix of length min(length, limit), and the counter shows that length |
| ReviewForm.Truncated | static/js/review-form.js:14-21 | reference definition of the value cut to the limit; TruncatedSpec states it (no contract of its own) |
| ReviewForm.Updated | static/js/review-form.js:14-32 | reference definition of the input handler's new value, counter text and classes; TruncatedSpec, UpdatedClassesSpec and UpdatedIdempotent state its properties (no contract of its own) |
| ReviewForm.UpdatedClassesSpec | static/js/review-form.js:23-31 | 'error' exactly at or over the limit, 'warning' exactly from nine tenths of it below the limit, never both; other classes are kept |
| ReviewForm.UpdatedIdempotent | static/js/review-form.js:14-32 | running the update handler again changes nothing |
| ReviewForm.KeyBlockedSpec | static/js/review-form.js:36-49 | a key is blocked exactly at the limit when it is not a control key or a Ctrl/Meta chord; the body additionally lets the vertical arrows through, so ArrowUp is blocked at the limit in the title only |
| ReviewForm.KeyBlocked | static/js/review-form.js:36-49 | reference definition of the keydown guard; KeyBlockedSpec states it (no contract of its own) |
| ReviewForm.CounterField.constructor | static/js/review-form.js:11-12 | the limit is read from data-max-length or the default, and the counter is updated once |
| ReviewForm.CounterField.Update | static/js/review-form.js:14-32 | the new value, counter text and classes are what Updated gives for the old state |
| ReviewForm.CounterField.OnKeydown | static/js/review-form.js:36-49 | the key's default is prevented exactly as KeyBlocked says |
| Dashboard.NormalizeTab | static/js/dashboard.js:13-29 | a recognised name is always one of the three tabs |
| Dashboard.TabOf | static/js/dashboard.js:20-28 | the result, when there is one, is one of the three tabs |
| Dashboard.UrlSpelling | static/js/dashboard.js:51 | every tab but archive is written as is |
| Dashboard.NormalizeTabFixedPoints | static/js/dashboard.js:13-29 | each tab name normalises to itself, and its URL spelling normalises back to it |
| Dashboard.NormalizeTabIdempotent | static/js/dashboard.js:13-29 | normalising a normalised tab changes nothing |
| Dashboard.NormalizeTabIgnoresCaseAndSpace | static/js/dashboard.js:18-21 | example (concrete inputs; NormalizeTabRejects and NormalizeTabIdempotent are the all-inputs properties): case and surrounding white space do not matter, and the underscore spelling is accepted |
| Dashboard.NormalizeTabRejects | static/js/dashboard.js:14-28 | a missing or empty name gives null, and any name gives null exactly when its lower-cased, trimmed form is not one of the accepted spellings |
| Dashboard.PaneIndex | static/js/dashboard.js:32 | the pane found is the first with that id; None means no pane has it |
| Dashboard.SetActiveSpec | static/js/dashboard.js:37-46 | exactly the target pane carries active and show, panes keep their other classes, and a button is active with aria-selected "true" exactly when it names the tab |
| Dashboard.Dashboard.SetActive | static/js/dashboard.js:31-47 | without a pane of that id nothing changes; otherwise panes and buttons become what ActivatePanes and SelectButtons give |
| Dashboard.Dashboard.SetUrlTab | static/js/dashboard.js:49-53 | the URL's tab parameter becomes the tab's URL spelling |
| Dashboard.Dashboard.OnClick | static/js/dashboard.js:55-66 | an unrecognised tab changes nothing and is not prevented; a recognised one is prevented and written to the URL; its pane, when it exists, is activated with the buttons selected, and otherwise panes and buttons stay as they were |
| Dashboard.Dashboard.ApplyUrlTab | static/js/dashboard.js:6-11 | without the container or buttons, or with no recognised tab in the URL, nothing changes; otherwise the tab is written back; its pane, when it exists, is activated with the buttons selected, and otherwise panes and buttons stay as they were |
| EffectsToggle.ToggleClass | static/js/effects-toggle.js:61-62 | the class is present exactly when forced on; other classes stay |
| EffectsToggle.SafeGet | static/js/effects-toggle.js:11-17 | the stored value when storage works, null when access throws |
| EffectsToggle.InitialReduced | static/js/effects-toggle.js:85-99 | a stored '1' or '0' decides; otherwise reduced exactly when the media query exists and matches |
| EffectsToggle.StoredChoicePersists | static/js/effects-toggle.js:85-103 | a stored choice survives a reload whatever the system setting, as long as storage works; otherwise the system setting decides |
| EffectsToggle.EffectsPage.constructor | static/js/effects-toggle.js:125 | the page shows the initial state: stored choice, else system setting |
| EffectsToggle.EffectsPage.SafeGetItem | static/js/effects-toggle.js:11-17 | returns what SafeGet says |
| EffectsToggle.EffectsPage.SafeSetItem | static/js/effects-toggle.js:19-23 | stores the value, or changes nothing when storage throws |
| EffectsToggle.EffectsPage.GetInitialReducedState | static/js/effects-toggle.js:85-99 | returns what InitialReduced says for the stored value and the media query |
| EffectsToggle.EffectsPage.ApplyState | static/js/effects-toggle.js:60-83 | the reduced class on body and html, the toggle's aria-pressed, title, class, icon and tooltip, and the video paused (autoplay removed) or played all show the state; nothing absent is touched and other classes stay |
| EffectsToggle.EffectsPage.HandleClick | static/js/effects-toggle.js:105-109 | the shown state flips, is stored when storage works, and everything shows the new state; body, html and toggle keep their other classes, and fields of absent elements (toggle, icon, tooltip, video) stay as they were |
| EffectsToggle.EffectsPage.HandleSystemChange | static/js/effects-toggle.js:111-119 | a stored '1' or '0' wins and nothing changes; otherwise the new system setting is shown, other classes on body, html and toggle are kept, and fields of absent elements stay as they were |
| CartUpdate.QuantityChanged | static/js/cart-update.js:21 | two numbers differ exactly when unequal, and NaN differs from everything |
| CartUpdate.QuantityChangedSpec | static/js/cart-update.js:15-30 | typing back the rendered quantity clears the highlight; a rendered value with no number makes every input a change |
| CartUpdate.CartRowForm.constructor | static/js/cart-update.js:15 | the original quantity is parseInt of the rendered value |
| CartUpdate.CartRowForm.OnInput | static/js/cart-update.js:18-30 | the row is highlighted exactly when the typed quantity differs from the rendered one and plain otherwise; other classes stay |
| CartUpdate.CartRowForm.OnSubmit | static/js/cart-update.js:33-37 | the button is disabled and shows the spinner, and the row is dimmed to 0.6 |
| ImageAltCounter.CounterText | static/js/admin/image-alt-counter.js:14 | the text is the length followed by "/150" |
| ImageAltCounter.CounterTextInjective | static/js/admin/image-alt-counter.js:23 | the counter text names the length it was made from |
| ImageAltCounter.AltInput.Setup | static/js/admin/image-alt-counter.js:5-19 | maxlength becomes 150 and a counter with the char-counter class shows the current length |
| ImageAltCounter.AltInput.Update | static/js/admin/image-alt-counter.js:21-29 | the counter shows the current length and carries 'is-max' exactly at or over 150; other classes stay |
| SessionCart.Keys | cart/views.py:45 | the key list has one key per entry, in insertion order |
| SessionCart.AsMapKeys | cart/cart.py:37 | a key is in the dictionary view exactly when it is one of the dict's keys |
| SessionCart.GetAsMap | cart/cart.py:38 | reading a present key gives its quantity in the dictionary view |
| SessionCart.SetItem | cart/cart.py:37-40 | an existing key keeps its place and a new key goes last |
| SessionCart.SetItemDistinct | cart/cart.py:37-40 | setting a key never makes a key appear twice |
| SessionCart.DelItem | cart/cart.py:61 | deleting never lengthens the dict |
| SessionCart.KeysDelItem | cart/cart.py:61 | deleting adds no key |
| SessionCart.DelItemDistinct | cart/cart.py:61 | deleting keeps keys distinct |
| SessionCart.DelAbsent | cart/views.py:48 | popping an absent key changes nothing |
| SessionCart.DelItemPresentLength | cart/cart.py:60-61 | deleting a present key removes exactly one entry |
| SessionCart.FilterOutKeys | cart/views.py:44-51 | the pruned dict is never longer than the original |
| SessionCart.FilterOutKeysKeys | cart/views.py:44-51 | the pruned dict's keys are exactly the original keys that are not dropped |
| SessionCart.FilterOutAbsentKey | cart/views.py:48 | dropping a key the dict does not hold changes nothing |
| SessionCart.FilterOutNothing | cart/views.py:44 | dropping no key leaves the dict as it is |
| DealBannerCarousel.Rounds | static/js/deal-banner-carousel.js:48-56 | r rounds append r copies of the visible items |
| DealBannerCarousel.CloneRoundFacts | static/js/deal-banner-carousel.js:49-54 | a round of clones is all hidden and as wide as the items it copies |
| DealBannerCarousel.RoundsToFill | static/js/deal-banner-carousel.js:46-56 | the round count never exceeds the cap of 8 |
| DealBannerCarousel.RoundsToFillStep | static/js/deal-banner-carousel.js:48 | below the target and under the cap the loop runs another round |
| DealBannerCarousel.RoundsToFillDone | static/js/deal-banner-carousel.js:48 | at the cap or once the target is reached the loop stops |
| DealBannerCarousel.ScanFrom | static/js/deal-banner-carousel.js:23-29 | the scan always ends on one of the speed steps |
| DealBannerCarousel.StepIsSpeedStep | static/js/deal-banner-carousel.js:11 | the model's step k is the k-th entry of the steps list |
| Dashboard.ActivatePanes | static/js/dashboard.js:37-40 | every pane is the original with active and show cleared, and set again on the target only |
| Dashboard.SelectButtons | static/js/dashboard.js:42-46 | every button is updated for the tab, in place and in order |
| Dashboard.Dashboard.constructor | static/js/dashboard.js:6-8 | the page holds the given panes, buttons and URL tab parameter |
| ImageAltCounter.AltInput.constructor | static/js/admin/image-alt-counter.js:2-3 | the input has its value and maxlength attribute and no counter yet |
| ReviewViews.ReviewStore.constructor | reviews/models.py:62-66 | an empty review table satisfies its constraints |
| OrderModels.HexDigit | orders/models.py:52 | every digit is an upper-case hexadecimal character |
| Text.JsParseIntOfNat | static/js/cart-update.js:15 | parseInt reads a written natural number back |
| Text.JsParseIntOfNegative | static/js/cart-update.js:15 | parseInt reads a written negative number back |

## Left out

- The marquee's resize handler and its debounce timer (static/js/deal-banner-carousel.js:73-84). They are timers around `FillTrack` and `UpdateSpeed`.
- static/js/checkout-status.js and static/js/messages.js. They are a network polling loop and timed dismissal of Bootstrap alerts.
- Stripe's SDK. Session creation and retrieval, and webhook signature checking, are inputs: the result Stripe would return.
- `transaction.atomic` and `select_for_update`. The handlers are modelled running one after another against an in-memory store.
- Database ordering other than primary-key order, the deal banners' display order (`order`, then newer `created_at` first), Product's newest-first order where checkout reads products, and the order creation times the recent-order lookup compares. Of the other timestamps, only `created_at` and `updated_at` on products written by saves are modelled.
- ProductModels.InsertBanner, ProductModels.UpsertBanner, CheckoutViews.InsertNewest, CheckoutViews.ValidPks: rows whose sort keys tie (same `order` and `created_at`, or same `created_at`) come in an order the database leaves open; the model places them in one fixed way, and the contracts state only the order the sort keys fix.
- ProductModels.Catalog.DeleteProducts, ProductAdmin.RemoveProductsPermanently: only the cascade inside the catalog (deal banners linking a deleted product, and their post_delete resyncs) is modelled; the review, saved-cart and order-line rows that reference a deleted product are outside the catalog and are not modelled.
- ProductModels.Catalog.SaveProduct: update_fields naming a column outside the modelled record (tagline, description, content, image) writes nothing in the model, and Django's ValueError for a name that is no field is not modelled; creating requires a primary key no stored product has, standing for the database's fresh key.
- OrderModels.OrderStore.CreateOrder, OrderUtils.BuildCartOrder, OrderUtils.CreateOrderFromCart, CheckoutViews.CreateOrderAndSession, CheckoutViews.Checkout: the uuid4 draw is assumed to give an order number no stored order holds; the IntegrityError of the unique constraint on a collision is not modelled.
- AccountAdmin.AvatarInitial, AccountAdmin.AvatarInitialSpec, Text.UpperChar: upper-casing is ASCII only, so the placeholder is always one character; Python's Unicode `str.upper` (é to É, ß to "SS", other multi-character results) is not modelled.
- ProductModels.Product.isRemoved: products/models.py declares no `is_removed` field; the model assumes the boolean column that the admin, the review views and the tests use, and does not model the FieldError those uses raise against the class as written.
- CheckoutViews.StripeLinesFor: each Stripe line's `product_data.description` (the product's tagline, or "") is not modelled, since the tagline is outside the modelled product record.
- AccountAdmin.PurchaseCount, AccountAdmin.PurchaseCountSpec: the count is the number of the user's entitlements. Under the "yes" filter, the `annotate(Count("entitlements"))` of get_queryset is combined with `filter(entitlements__isnull=False)` on the same relation, and Django may then join the relation twice and report a larger count; that query-level effect is not modelled.
- Review timestamps and the reviews' `-created_at` ordering. No property depends on them.
- uuid generation. The uuid is a parameter, and only the 16 upper-case hexadecimal characters taken from it are modelled.
- Decimal arithmetic beyond two places. Prices are cents and discounts hundredths of a percent; `quantize` is half-even rounding on those.
- Flash messages, where a view's result does not depend on them. HTML markup and templates: a column or a page is modelled by the values it shows.
- Images are URL strings; Cloudinary's storage and `cloudinary_fill` (a pass-through of the fill-URL builder) are not modelled separately.
- `publish_products` and `unpublish_products` (products/admin.py:268-282), `image_thumbnail`, ProductAdmin's own `discount_display` (a badge over the discount lookup, products/admin.py:228-238), CategoryAdmin's `name_display` and `slug_display`, `has_delete_permission` (a pass-through), DealBannerAdmin's `status_badges` and `preview_banner`, and `ProductAdminForm` (a 150-character limit and a placeholder). They are plain field writes or markup, outside the modelled admin core.
- Forms, URL configuration, migrations, the profile model, the accounts and home views, and the tests. They are declarative or wrappers over Django.
- Text.Strip, Text.Lower: ASCII white space and letters only; Python's and JavaScript's Unicode tables are not modelled.
- ImageAltCounter.AltInput.Setup, ImageAltCounter.AltInput.Update, ReviewForm.CounterField.Update: lengths count characters, while JavaScript's `length` counts UTF-16 code units (different only outside the Basic Multilingual Plane).
- ReviewForm.UpdatedClassesSpec: the warning threshold `len >= max * 0.9` is taken exactly as 10·len ≥ 9·max; floating-point rounding of `max * 0.9` is not modelled.
- DealBannerCarousel.Filled: widths and the 2.2 target factor are exact reals, not IEEE doubles; layout (`scrollWidth`, `clientWidth`) is the sum of item widths and a given number.
- Text.ParseInt: Python's `int()` is modelled for an optional sign and ASCII digits; surrounding white space, underscores and other Unicode digits are not accepted.
- Text.JsParseInt: JavaScript's `parseInt` is modelled for leading white space, a sign and a decimal digit prefix; "0x" prefixes are not modelled.
- AccessDecorators.LoginUrl: the `next` parameter is the raw path; its percent-encoding is not modelled.
- AuthBackend.Authenticate: `check_password` and the enabled login methods are parameters; `user_can_authenticate` is the `is_active` test of Django's ModelBackend.
- AccessDecorators.VerifiedEmailRequiredSpec: allauth's `has_verified_email` is a parameter.
- ReviewViews.ReviewStore.EditReview: an invalid POST renders the stored review; the submitted values that Django's form copies onto the instance before rendering are not modelled.
- Dashboard.PaneIndex: `getElementById` is looked up among the tab panes only, not the whole document.
- EffectsToggle.EffectsPage.ApplyState: the tooltip is its text, and `play()`'s promise is not modelled; only the last call made on the video is kept.
- Settings.AllowedHosts: "localhost" and "127.0.0.1" occur exactly once only when the variable does not already list them twice; the contract states the code's count, which keeps duplicates from the variable.
- Settings: only `_env_bool`, DEBUG and ALLOWED_HOSTS are modelled; the other settings are constants.

## Findings

| source | as written | input that shows it | evidently intended | confidence | as-written member | corrected member |
|---|---|---|---|---|---|---|
| checkout/views.py:166 | `get_cart_total(request.session, [...])` passes two arguments to a helper that takes only the session (cart/cart.py:96), so every checkout that reaches it raises TypeError and no order is created | a verified user whose cart holds one active product they do not own | the order total is the sum of the ordered products' prices | not executed | CheckoutViews.CheckoutAsWritten, CheckoutViews.CheckoutAsWrittenReachesTotal | CheckoutViews.Checkout |
| cart/views.py:77 | `add_product_to_cart(..., user=request.user)` passes a keyword `add_to_cart` does not take (cart/cart.py:15), so every add past the guards raises TypeError | a POST naming an active product the user does not own | the product is added to the session cart and the user is sent to its page | not executed | CartViews.AddToCartViewAsWritten, CartViews.AddGuardLetsThrough | CartViews.AddToCartView |
| cart/views.py:99-102 | `get_cart_items(request.session, user=...)` and `get_cart_total(request.session, cart_items)` pass arguments the helpers do not take (cart/cart.py:68, 96), so the cart page always raises TypeError; the pruning done before it is not saved, since SessionMiddleware skips the save on a 500 | any request of a verified user | the page shows the cart lines and their total | not executed | CartViews.CartViewAsWritten | CartViews.CartView |
| cart/views.py:120 | `remove_product_from_cart(..., user=request.user)` passes a keyword `remove_from_cart` does not take (cart/cart.py:46), so every removal past the guards raises TypeError | a POST naming an existing product | the entry is removed if present and the user is sent back to the cart | not executed | CartViews.RemoveFromCartViewAsWritten, CartViews.RemoveGuardLetsThrough | CartViews.RemoveFromCartView |
