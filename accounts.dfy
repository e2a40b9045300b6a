/**
 * The user records the access-control code reads (Django's auth user,
 * accounts/models.py being only the profile). A request's user is either
 * anonymous or a signed-in user.
 */
module Accounts {
  datatype User = User(
    pk: nat,
    username: string,
    email: string,
    isActive: bool,
    isStaff: bool,
    isSuperuser: bool)

  /** request.user: AnonymousUser, or an authenticated user. */
  datatype Visitor = Anonymous | SignedIn(user: User)

  predicate IsAuthenticated(v: Visitor) {
    v.SignedIn?
  }
}
