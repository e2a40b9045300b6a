/**
 * The user admin's filter and list columns (accounts/admin.py). A column is
 * modelled by the values its markup shows; the markup itself is left out.
 * The purchase column shows the number of entitlements the user has, which
 * is what the get_queryset annotation counts on the unfiltered list.
 */
module AccountAdmin {
  import opened Wrappers
  import opened Text
  import opened Accounts
  import opened OrderModels

  /** The user holds at least one access entitlement. */
  predicate HasPurchases(ents: Entitlements, userPk: nat) {
    exists key :: key in ents && key.0 == userPk
  }

  /** The users (in queryset order) whose purchase state is `wanted`. */
  function UsersWith(users: seq<User>, ents: Entitlements, wanted: bool): (r: seq<User>)
    ensures |r| <= |users|
  {
    if users == [] then []
    else
      var rest := UsersWith(users[1..], ents, wanted);
      if HasPurchases(ents, users[0].pk) == wanted then [users[0]] + rest else rest
  }

  /** The kept users are exactly the listed ones in the wanted state. */
  lemma {:induction false} UsersWithMembers(users: seq<User>, ents: Entitlements, wanted: bool)
    ensures forall u :: u in UsersWith(users, ents, wanted) <==> u in users && HasPurchases(ents, u.pk) == wanted
  {
    if users != [] {
      UsersWithMembers(users[1..], ents, wanted);
      assert forall u :: u in users <==> u == users[0] || u in users[1..];
    }
  }

  /** Every user lands in exactly one of the two filtered lists. */
  lemma {:induction false} UsersWithPartition(users: seq<User>, ents: Entitlements)
    ensures |UsersWith(users, ents, true)| + |UsersWith(users, ents, false)| == |users|
  {
    if users != [] {
      UsersWithPartition(users[1..], ents);
    }
  }

  /**
   * HasPurchasesFilter.queryset: "yes" keeps users with an entitlement (each
   * once), "no" keeps users without one, any other value (or none, given as
   * "") leaves the list as it is.
   */
  function HasPurchasesFilter(value: string, users: seq<User>, ents: Entitlements): (r: seq<User>)
    ensures value != "yes" && value != "no" ==> r == users
  {
    if value == "yes" then UsersWith(users, ents, true)
    else if value == "no" then UsersWith(users, ents, false)
    else users
  }

  /**
   * "yes" and "no" list, in order, exactly the users with and without an
   * entitlement (a user whose annotated count is nonzero, resp. zero), and
   * between them every user once.
   */
  lemma HasPurchasesFilterSpec(users: seq<User>, ents: Entitlements)
    ensures forall u :: u in HasPurchasesFilter("yes", users, ents) <==> u in users && HasPurchases(ents, u.pk)
    ensures forall u :: u in HasPurchasesFilter("no", users, ents) <==> u in users && !HasPurchases(ents, u.pk)
    ensures |HasPurchasesFilter("yes", users, ents)| + |HasPurchasesFilter("no", users, ents)| == |users|
  {
    UsersWithMembers(users, ents, true);
    UsersWithMembers(users, ents, false);
    UsersWithPartition(users, ents);
  }

  /** Count("entitlements"): the number of entitlement rows of the user. */
  function EntitlementTotal(ents: Entitlements, userPk: nat): nat {
    |set key | key in ents && key.0 == userPk|
  }

  /** A count of 0 is exactly the "no purchases" state of the filter. */
  lemma EntitlementTotalZero(ents: Entitlements, userPk: nat)
    ensures EntitlementTotal(ents, userPk) == 0 <==> !HasPurchases(ents, userPk)
  {
    var s := set key | key in ents && key.0 == userPk;
    if HasPurchases(ents, userPk) {
      var key :| key in ents && key.0 == userPk;
      assert key in s;
    } else {
      assert s == {};
    }
  }

  /** A column value: the CSS class and the text shown. */
  datatype Cell = Cell(cssClass: string, text: string)

  const NoPurchases: Cell := Cell("badge-muted", "No purchases")

  /** purchase_count: a missing annotation counts as 0; "No purchases" for 0, else "n purchase(s)". */
  function PurchaseCount(annotation: Option<nat>): Cell {
    var count := if annotation.Some? then annotation.value else 0;
    if count > 0 then Cell("badge-gold", IntToString(count) + " purchase" + (if count != 1 then "s" else ""))
    else NoPurchases
  }

  /**
   * "No purchases" exactly for a zero or missing count; otherwise the text
   * starts with the count and ends in "s" exactly when the count is not 1.
   */
  lemma PurchaseCountSpec(annotation: Option<nat>)
    ensures var c := PurchaseCount(annotation);
      var count := if annotation.Some? then annotation.value else 0;
      && (c == NoPurchases <==> count == 0)
      && (count > 0 ==>
            (c.text[..|IntToString(count)|] == IntToString(count) && (c.text[|c.text| - 1] == 's' <==> count != 1)))
  {
    var count := if annotation.Some? then annotation.value else 0;
    var c := PurchaseCount(annotation);
    if count > 0 {
      var n := IntToString(count);
      assert c.text[..|n|] == n;
      assert c.cssClass != NoPurchases.cssClass;
      if count == 1 {
        assert c.text == n + " purchase";
      }
    }
  }

  /** role_badges: the superuser badge, else the staff badge, else the muted "User". */
  function RoleBadge(u: User): Cell {
    if u.isSuperuser then Cell("user-role-badge superuser", "\U{1F451} SUPERUSER")
    else if u.isStaff then Cell("user-role-badge staff", "\U{1F6E1}\U{FE0F} STAFF")
    else Cell("badge-muted", "User")
  }

  /** One badge per user: superuser wins over staff, "User" when neither applies. */
  lemma RoleBadgeSpec(u: User)
    ensures RoleBadge(u).text == "User" <==> !u.isSuperuser && !u.isStaff
    ensures u.isSuperuser ==> RoleBadge(u) == RoleBadge(u.(isStaff := !u.isStaff))
    ensures RoleBadge(u).cssClass == "user-role-badge staff" <==> u.isStaff && !u.isSuperuser
  {
    assert "\U{1F451} SUPERUSER"[0] != 'U';
    assert "\U{1F6E1}\U{FE0F} STAFF"[0] != 'U';
  }

  /** The avatar placeholder: the first character of the username upper-cased, or "?" for none. */
  function AvatarInitial(username: string): (r: string)
    ensures |r| == 1
  {
    if username != "" then [UpperChar(username[0])] else "?"
  }

  /** A username starting with a lower-case letter shows that letter in upper case; "?" only for none. */
  lemma AvatarInitialSpec(username: string)
    ensures username != "" && 'a' <= username[0] <= 'z' ==>
      'A' <= AvatarInitial(username)[0] <= 'Z' && AvatarInitial(username)[0] as int == username[0] as int - 32
    ensures username != "" && 'A' <= username[0] <= 'Z' ==> AvatarInitial(username) == username[..1]
    ensures username == "" ==> AvatarInitial(username) == "?"
  {
  }

  /**
   * email_verified_badge: Verified when the lookup finds a verified address;
   * Unverified when it finds none or raises (None).
   */
  function EmailVerifiedBadge(verifiedLookup: Option<bool>): (r: Cell)
    ensures r.cssClass == "badge-success" <==> verifiedLookup == Some(true)
  {
    var verified := if verifiedLookup.Some? then verifiedLookup.value else false;
    if verified then Cell("badge-success", "\U{2713} Verified")
    else Cell("badge-warning", "\U{26A0} Unverified")
  }
}
