/**
 * Review views (reviews/views.py): the purchase check, and the create,
 * edit and delete views with their guards. Every view sits behind the
 * verified-email wrapper (AccessDecorators) and then an HTTP-method
 * filter; the product is looked up by slug among products that are not
 * removed, and a review only among the requester's own reviews of that
 * product. Form validation (reviews/forms.py) is a parameter: the cleaned
 * input, or None when the form is invalid.
 */
module ReviewViews {
  import opened Wrappers
  import opened Accounts
  import opened AccessDecorators
  import opened ProductModels
  import opened OrderModels
  import opened AccessHelpers

  /** A stored review: its primary key, author, product and the fields the form edits. */
  datatype Review = Review(id: nat, userPk: nat, productPk: nat, rating: nat, title: string, body: string)

  /** The cleaned data of a valid ReviewForm. */
  datatype ReviewInput = ReviewInput(rating: nat, title: string, body: string)

  datatype Level = Success | Info | Failure

  /** The views' answers once the wrapper lets the request through. */
  datatype Response =
    | RedirectProduct(slug: string, level: Level, flash: string)
    | RenderEdit(review: Review, formErrors: bool)
    | MethodNotAllowed
    | NotFound

  const NotPurchasedFlash: string := "You must purchase this archive to leave a review."
  const AlreadyReviewedFlash: string := "You have already reviewed this archive entry."
  const SubmittedFlash: string := "Your review has been submitted."
  const CorrectErrorsFlash: string := "Please correct the errors in your review."
  const UpdatedFlash: string := "Your review has been updated."
  const DeletedFlash: string := "Your review has been deleted."

  // ---------------------------------------------------------------------
  // Lookups
  // ---------------------------------------------------------------------

  /** _user_has_entitlement: an AccessEntitlement row exists for (user, product). */
  function UserHasEntitlement(ents: Entitlements, user: nat, productPk: nat): bool {
    (user, productPk) in ents
  }

  /**
   * Reviewing asks for a purchase, not for access: for an ordinary user the
   * two agree, but a superuser may read every product yet review only the
   * ones they bought.
   */
  lemma EntitlementVersusAccess(u: User, productPk: nat, ents: Entitlements)
    ensures !u.isSuperuser ==> (UserHasEntitlement(ents, u.pk, productPk) <==> UserHasAccess(SignedIn(u), productPk, ents))
    ensures u.isSuperuser ==> UserHasAccess(SignedIn(u), productPk, ents)
    ensures u.isSuperuser && (u.pk, productPk) !in ents ==> !UserHasEntitlement(ents, u.pk, productPk)
  {
  }

  /** Product.slug is unique=True: no two products share a slug. */
  predicate SlugsUnique(products: map<nat, Product>) {
    forall a, b :: a in products && b in products && products[a].slug == products[b].slug ==> a == b
  }

  /** The product of a page that is not removed and carries this slug. */
  predicate LiveWithSlug(products: map<nat, Product>, slug: string, pk: nat) {
    pk in products && products[pk].slug == slug && !products[pk].isRemoved
  }

  /** get_object_or_404(Product, slug=slug, is_removed=False): the key of that product, or None for 404. */
  function LiveProductBySlug(products: map<nat, Product>, slug: string): (r: Option<nat>)
    requires SlugsUnique(products)
    ensures r.Some? ==> LiveWithSlug(products, slug, r.value)
    ensures r.None? ==> forall pk :: pk in products ==> !LiveWithSlug(products, slug, pk)
  {
    if exists pk :: pk in products && LiveWithSlug(products, slug, pk) then
      var pk :| pk in products && LiveWithSlug(products, slug, pk);
      Some(pk)
    else
      None
  }

  /** A removed product is never found, whatever its slug. */
  lemma RemovedProductNotFound(products: map<nat, Product>, pk: nat)
    requires SlugsUnique(products)
    requires pk in products && products[pk].isRemoved
    ensures LiveProductBySlug(products, products[pk].slug).None?
  {
  }

  /** The first index of a review satisfying `p`, or None when none does. */
  function FirstWhere(reviews: seq<Review>, p: Review -> bool): (r: Option<nat>)
    ensures r.Some? ==> r.value < |reviews| && p(reviews[r.value]) && forall j :: 0 <= j < r.value ==> !p(reviews[j])
    ensures r.None? ==> forall j :: 0 <= j < |reviews| ==> !p(reviews[j])
  {
    if reviews == [] then None
    else if p(reviews[0]) then Some(0)
    else
      match FirstWhere(reviews[1..], p)
      case None => None
      case Some(i) => Some(i + 1)
  }

  /** Review.objects.filter(user=user, product=product).first(). */
  function ReviewOf(reviews: seq<Review>, user: nat, productPk: nat): (r: Option<nat>)
    ensures r.Some? ==> r.value < |reviews| && reviews[r.value].userPk == user && reviews[r.value].productPk == productPk
    ensures r.None? ==> forall j :: 0 <= j < |reviews| ==> !(reviews[j].userPk == user && reviews[j].productPk == productPk)
  {
    FirstWhere(reviews, (v: Review) => v.userPk == user && v.productPk == productPk)
  }

  /** get_object_or_404(Review, id=review_id, product=product, user=request.user), as an index. */
  function OwnReview(reviews: seq<Review>, reviewId: nat, user: nat, productPk: nat): (r: Option<nat>)
    ensures r.Some? ==> (r.value < |reviews| && reviews[r.value].id == reviewId
      && reviews[r.value].userPk == user && reviews[r.value].productPk == productPk)
    ensures r.None? ==> forall j :: 0 <= j < |reviews| ==>
      !(reviews[j].id == reviewId && reviews[j].userPk == user && reviews[j].productPk == productPk)
  {
    FirstWhere(reviews, (v: Review) => v.id == reviewId && v.userPk == user && v.productPk == productPk)
  }

  // ---------------------------------------------------------------------
  // The reviews table
  // ---------------------------------------------------------------------

  /** Primary keys are distinct and below the next one to be handed out. */
  predicate IdsFresh(reviews: seq<Review>, nextId: nat) {
    (forall i, j :: 0 <= i < j < |reviews| ==> reviews[i].id != reviews[j].id)
    && (forall i :: 0 <= i < |reviews| ==> reviews[i].id < nextId)
  }

  /** unique_review_per_user_product: no two reviews share (user, product). */
  predicate OnePerUserProduct(reviews: seq<Review>) {
    forall i, j :: 0 <= i < j < |reviews| ==>
      (reviews[i].userPk != reviews[j].userPk || reviews[i].productPk != reviews[j].productPk)
  }

  /**
   * Review ids are distinct, so a review id names one review: when that
   * review belongs to another user or another product, the lookup is a
   * 404, and otherwise it finds exactly that review.
   */
  lemma OwnReviewByIdOnly(reviews: seq<Review>, nextId: nat, j: nat, user: nat, productPk: nat)
    requires IdsFresh(reviews, nextId) && j < |reviews|
    ensures var found := OwnReview(reviews, reviews[j].id, user, productPk);
      && (found.None? <==> reviews[j].userPk != user || reviews[j].productPk != productPk)
      && (found.Some? ==> found.value == j)
  {
  }

  /** The table without the row at index i. */
  function WithoutAt(reviews: seq<Review>, i: nat): (r: seq<Review>)
    requires i < |reviews|
    ensures |r| == |reviews| - 1
    ensures forall j :: 0 <= j < i ==> r[j] == reviews[j]
    ensures forall j :: i <= j < |r| ==> r[j] == reviews[j + 1]
  {
    reviews[..i] + reviews[i + 1..]
  }

  /**
   * Deleting one row of a table with distinct keys removes exactly the
   * review with that key: every other review stays, and the table's two
   * constraints still hold.
   */
  lemma WithoutAtSpec(reviews: seq<Review>, nextId: nat, i: nat)
    requires i < |reviews| && IdsFresh(reviews, nextId) && OnePerUserProduct(reviews)
    ensures var r := WithoutAt(reviews, i);
      && (forall v :: v in r <==> v in reviews && v.id != reviews[i].id)
      && IdsFresh(r, nextId) && OnePerUserProduct(r)
  {
    var r := WithoutAt(reviews, i);
    forall v | v in r
      ensures v in reviews && v.id != reviews[i].id
    {
      var j :| 0 <= j < |r| && r[j] == v;
      if j < i {
        assert v == reviews[j];
      } else {
        assert v == reviews[j + 1];
      }
    }
    forall v | v in reviews && v.id != reviews[i].id
      ensures v in r
    {
      var j :| 0 <= j < |reviews| && reviews[j] == v;
      if j < i {
        assert r[j] == v;
      } else {
        assert j != i;
        assert r[j - 1] == v;
      }
    }
    forall a, b | 0 <= a < b < |r|
      ensures r[a].id != r[b].id
      ensures r[a].userPk != r[b].userPk || r[a].productPk != r[b].productPk
    {
      var a' := if a < i then a else a + 1;
      var b' := if b < i then b else b + 1;
      assert r[a] == reviews[a'] && r[b] == reviews[b'] && a' < b';
    }
  }

  class ReviewStore {
    var reviews: seq<Review>
    var nextId: nat

    predicate Valid()
      reads this
    {
      IdsFresh(reviews, nextId) && OnePerUserProduct(reviews)
    }

    constructor ()
      ensures Valid() && reviews == [] && nextId == 0
    {
      reviews := [];
      nextId := 0;
    }

    /**
     * review.save() for a new review: the insert succeeds under a fresh key,
     * or the unique constraint on (user, product) raises IntegrityError and
     * nothing is written.
     */
    method Insert(user: nat, productPk: nat, input: ReviewInput) returns (saved: bool)
      requires Valid()
      modifies this`reviews, this`nextId
      ensures Valid()
      ensures saved <==> ReviewOf(old(reviews), user, productPk).None?
      ensures saved ==> (reviews == old(reviews) + [Review(old(nextId), user, productPk, input.rating, input.title, input.body)]
        && nextId == old(nextId) + 1)
      ensures !saved ==> reviews == old(reviews) && nextId == old(nextId)
    {
      if ReviewOf(reviews, user, productPk).Some? {
        return false;
      }
      reviews := reviews + [Review(nextId, user, productPk, input.rating, input.title, input.body)];
      nextId := nextId + 1;
      saved := true;
    }

    /**
     * create_review behind its wrappers. POST only; the product must exist
     * and not be removed; the requester must have bought it and not have
     * reviewed it; then a valid form inserts one review owned by the
     * requester for that product.
     */
    method CreateReview(request: Request, hasVerifiedEmail: User -> bool, loginPath: string,
                        products: map<nat, Product>, ents: Entitlements, slug: string,
                        form: Option<ReviewInput>) returns (g: Gated<Response>)
      requires Valid() && SlugsUnique(products)
      modifies this`reviews, this`nextId
      ensures Valid()
      ensures !Admitted(request, hasVerifiedEmail) ==>
        g == Denied(request, hasVerifiedEmail, loginPath) && reviews == old(reviews)
      ensures Admitted(request, hasVerifiedEmail) ==> g.ViewResult?
      ensures Admitted(request, hasVerifiedEmail) && request.httpMethod != "POST" ==>
        g == ViewResult(MethodNotAllowed) && reviews == old(reviews)
      ensures Admitted(request, hasVerifiedEmail) && request.httpMethod == "POST" ==>
        var user := request.visitor.user;
        match LiveProductBySlug(products, slug)
        case None => g == ViewResult(NotFound) && reviews == old(reviews)
        case Some(pk) =>
          if !UserHasEntitlement(ents, user.pk, pk) then
            g == ViewResult(RedirectProduct(slug, Failure, NotPurchasedFlash)) && reviews == old(reviews)
          else if ReviewOf(old(reviews), user.pk, pk).Some? then
            g == ViewResult(RedirectProduct(slug, Info, AlreadyReviewedFlash)) && reviews == old(reviews)
          else if form.None? then
            g == ViewResult(RedirectProduct(slug, Failure, CorrectErrorsFlash)) && reviews == old(reviews)
          else
            && reviews == old(reviews) + [Review(old(nextId), user.pk, pk, form.value.rating, form.value.title, form.value.body)]
            && g == ViewResult(RedirectProduct(slug, Success, SubmittedFlash))
    {
      if !Admitted(request, hasVerifiedEmail) {
        return Denied(request, hasVerifiedEmail, loginPath);
      }
      if request.httpMethod != "POST" {
        return ViewResult(MethodNotAllowed);
      }
      var pk := LiveProductBySlug(products, slug);
      if pk.None? {
        return ViewResult(NotFound);
      }
      var user := request.visitor.user;
      if !UserHasEntitlement(ents, user.pk, pk.value) {
        return ViewResult(RedirectProduct(slug, Failure, NotPurchasedFlash));
      }
      if ReviewOf(reviews, user.pk, pk.value).Some? {
        return ViewResult(RedirectProduct(slug, Info, AlreadyReviewedFlash));
      }
      if form.None? {
        return ViewResult(RedirectProduct(slug, Failure, CorrectErrorsFlash));
      }
      var saved := Insert(user.pk, pk.value, form.value);
      if saved {
        g := ViewResult(RedirectProduct(slug, Success, SubmittedFlash));
      } else {
        g := ViewResult(RedirectProduct(slug, Info, AlreadyReviewedFlash));
      }
    }

    /**
     * edit_review behind its wrappers. GET or POST; the product must exist
     * and not be removed, and the review must be the requester's own for
     * that product. A POST with a valid form rewrites that review's rating,
     * title and body and nothing else; a GET or an invalid form renders the
     * edit page.
     */
    method EditReview(request: Request, hasVerifiedEmail: User -> bool, loginPath: string,
                      products: map<nat, Product>, slug: string, reviewId: nat,
                      form: Option<ReviewInput>) returns (g: Gated<Response>)
      requires Valid() && SlugsUnique(products)
      modifies this`reviews
      ensures Valid()
      ensures !Admitted(request, hasVerifiedEmail) ==>
        g == Denied(request, hasVerifiedEmail, loginPath) && reviews == old(reviews)
      ensures Admitted(request, hasVerifiedEmail) ==> g.ViewResult?
      ensures Admitted(request, hasVerifiedEmail) && request.httpMethod != "GET" && request.httpMethod != "POST" ==>
        g == ViewResult(MethodNotAllowed) && reviews == old(reviews)
      ensures |reviews| == |old(reviews)|
      ensures forall j :: 0 <= j < |reviews| && reviews[j] != old(reviews)[j] ==>
        && Admitted(request, hasVerifiedEmail) && request.httpMethod == "POST" && form.Some?
        && reviews[j] == old(reviews)[j].(rating := form.value.rating, title := form.value.title, body := form.value.body)
        && old(reviews)[j].id == reviewId && old(reviews)[j].userPk == request.visitor.user.pk
        && LiveProductBySlug(products, slug) == Some(old(reviews)[j].productPk)
      ensures Admitted(request, hasVerifiedEmail) && (request.httpMethod == "GET" || request.httpMethod == "POST") ==>
        var user := request.visitor.user;
        match LiveProductBySlug(products, slug)
        case None => g == ViewResult(NotFound) && reviews == old(reviews)
        case Some(pk) =>
          match OwnReview(old(reviews), reviewId, user.pk, pk)
          case None => g == ViewResult(NotFound) && reviews == old(reviews)
          case Some(i) =>
            if request.httpMethod == "POST" && form.Some? then
              && reviews == old(reviews)[i := old(reviews)[i].(rating := form.value.rating, title := form.value.title, body := form.value.body)]
              && g == ViewResult(RedirectProduct(slug, Success, UpdatedFlash))
            else
              reviews == old(reviews) && g == ViewResult(RenderEdit(old(reviews)[i], request.httpMethod == "POST"))
    {
      if !Admitted(request, hasVerifiedEmail) {
        return Denied(request, hasVerifiedEmail, loginPath);
      }
      if request.httpMethod != "GET" && request.httpMethod != "POST" {
        return ViewResult(MethodNotAllowed);
      }
      var pk := LiveProductBySlug(products, slug);
      if pk.None? {
        return ViewResult(NotFound);
      }
      var found := OwnReview(reviews, reviewId, request.visitor.user.pk, pk.value);
      if found.None? {
        return ViewResult(NotFound);
      }
      var i := found.value;
      if request.httpMethod == "POST" {
        if form.Some? {
          var input := form.value;
          reviews := reviews[i := reviews[i].(rating := input.rating, title := input.title, body := input.body)];
          return ViewResult(RedirectProduct(slug, Success, UpdatedFlash));
        }
        return ViewResult(RenderEdit(reviews[i], true));
      }
      g := ViewResult(RenderEdit(reviews[i], false));
    }

    /**
     * delete_review behind its wrappers. POST only; the product must exist
     * and not be removed, and the review must be the requester's own for
     * that product; then exactly that review is deleted.
     */
    method DeleteReview(request: Request, hasVerifiedEmail: User -> bool, loginPath: string,
                        products: map<nat, Product>, slug: string, reviewId: nat) returns (g: Gated<Response>)
      requires Valid() && SlugsUnique(products)
      modifies this`reviews
      ensures Valid()
      ensures !Admitted(request, hasVerifiedEmail) ==>
        g == Denied(request, hasVerifiedEmail, loginPath) && reviews == old(reviews)
      ensures Admitted(request, hasVerifiedEmail) ==> g.ViewResult?
      ensures Admitted(request, hasVerifiedEmail) && request.httpMethod != "POST" ==>
        g == ViewResult(MethodNotAllowed) && reviews == old(reviews)
      ensures Admitted(request, hasVerifiedEmail) && request.httpMethod == "POST" ==>
        var user := request.visitor.user;
        match LiveProductBySlug(products, slug)
        case None => g == ViewResult(NotFound) && reviews == old(reviews)
        case Some(pk) =>
          match OwnReview(old(reviews), reviewId, user.pk, pk)
          case None => g == ViewResult(NotFound) && reviews == old(reviews)
          case Some(i) =>
            && (forall v :: v in reviews <==> v in old(reviews) && v.id != reviewId)
            && |reviews| == |old(reviews)| - 1
            && g == ViewResult(RedirectProduct(slug, Success, DeletedFlash))
      ensures forall v :: v in old(reviews) && !(request.visitor.SignedIn? && v.userPk == request.visitor.user.pk) ==> v in reviews
    {
      if !Admitted(request, hasVerifiedEmail) {
        return Denied(request, hasVerifiedEmail, loginPath);
      }
      if request.httpMethod != "POST" {
        return ViewResult(MethodNotAllowed);
      }
      var pk := LiveProductBySlug(products, slug);
      if pk.None? {
        return ViewResult(NotFound);
      }
      var found := OwnReview(reviews, reviewId, request.visitor.user.pk, pk.value);
      if found.None? {
        return ViewResult(NotFound);
      }
      WithoutAtSpec(reviews, nextId, found.value);
      reviews := WithoutAt(reviews, found.value);
      g := ViewResult(RedirectProduct(slug, Success, DeletedFlash));
    }
  }

  // ---------------------------------------------------------------------
  // The wrapper in front of every view
  // ---------------------------------------------------------------------

  /** The verified-email wrapper lets the request through: a signed-in user with a verified address. */
  predicate Admitted(request: Request, hasVerifiedEmail: User -> bool) {
    request.visitor.SignedIn? && hasVerifiedEmail(request.visitor.user)
  }

  /** The wrapper's redirect for a request it stops (any view gives the same one). */
  function Denied(request: Request, hasVerifiedEmail: User -> bool, loginPath: string): Gated<Response> {
    VerifiedEmailRequired(request, hasVerifiedEmail, loginPath, (r: Request) => NotFound)
  }

  /**
   * The views' gate is the wrapper: a request it stops gets the wrapper's
   * redirect whatever the view would have answered, and one it admits
   * reaches the view.
   */
  lemma DeniedIsWrapper(request: Request, hasVerifiedEmail: User -> bool, loginPath: string, view: Request -> Response)
    ensures !Admitted(request, hasVerifiedEmail) ==>
      VerifiedEmailRequired(request, hasVerifiedEmail, loginPath, view) == Denied(request, hasVerifiedEmail, loginPath)
      && !Denied(request, hasVerifiedEmail, loginPath).ViewResult?
    ensures Admitted(request, hasVerifiedEmail) ==>
      VerifiedEmailRequired(request, hasVerifiedEmail, loginPath, view) == ViewResult(view(request))
  {
    VerifiedEmailRequiredSpec(request, hasVerifiedEmail, loginPath, view, (r: Request) => NotFound);
  }
}
