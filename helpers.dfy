/**
 * user_has_access (elysium_archive/helpers.py): whether a visitor may read a
 * product's archive content. The function only reads the entitlements table.
 */
module AccessHelpers {
  import opened Wrappers
  import opened Accounts
  import opened OrderModels

  /**
   * False for an anonymous visitor; true for a superuser; otherwise whether
   * an entitlement for exactly (user, product) exists.
   */
  function UserHasAccess(v: Visitor, productPk: nat, ents: Entitlements): (r: bool)
    ensures !IsAuthenticated(v) ==> !r
    ensures v.SignedIn? && v.user.isSuperuser ==> r
    ensures v.SignedIn? && !v.user.isSuperuser ==> (r <==> HasEntitlement(ents, v.user.pk, productPk))
  {
    if !IsAuthenticated(v) then false
    else if v.user.isSuperuser then true
    else (v.user.pk, productPk) in ents
  }

  /**
   * An ordinary user's access depends only on their own entitlement to that
   * product: another user's entitlement, or their own to another product,
   * changes nothing; adding their own grants it.
   */
  lemma AccessIsPerUserAndProduct(u: User, productPk: nat, ents: Entitlements, key: (nat, nat), order: Option<nat>)
    requires !u.isSuperuser
    ensures key != (u.pk, productPk) ==>
      UserHasAccess(SignedIn(u), productPk, ents[key := order]) == UserHasAccess(SignedIn(u), productPk, ents)
    ensures key == (u.pk, productPk) ==> UserHasAccess(SignedIn(u), productPk, ents[key := order])
    ensures !UserHasAccess(Anonymous, productPk, ents[key := order])
  {
  }
}
