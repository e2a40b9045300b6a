/**
 * CaseSensitiveAuthenticationBackend (accounts/backends.py): sign-in by an
 * exact, case-sensitive match on username or e-mail. The users table is a
 * sequence in primary-key order, so "the first record" of several matches
 * is the earliest one in it. The enabled login methods (the
 * ACCOUNT_LOGIN_METHODS setting, {"username"} when unset) and the password
 * check are parameters; user_can_authenticate is ModelBackend's is_active
 * test. A missing keyword argument is the empty string.
 */
module AuthBackend {
  import opened Wrappers
  import opened Accounts

  datatype LoginField = ByUsername | ByEmail

  /** The setting's value when it is not defined. */
  const DefaultLoginMethods: set<string> := {"username"}

  function FieldOf(u: User, f: LoginField): string {
    match f
    case ByUsername => u.username
    case ByEmail => u.email
  }

  /** The lookups _get_user_by_login tries, in order. */
  function Lookups(login: string, methods: set<string>): seq<LoginField> {
    if '@' in login && "email" in methods then
      [ByEmail] + (if "username" in methods then [ByUsername] else [])
    else
      (if "username" in methods then [ByUsername] else []) + (if "email" in methods then [ByEmail] else [])
  }

  /**
   * Every enabled method is tried exactly once and nothing else is; e-mail
   * comes first exactly when the login contains "@" and e-mail is enabled.
   */
  lemma LookupsSpec(login: string, methods: set<string>)
    ensures var l := Lookups(login, methods);
      && (ByUsername in l <==> "username" in methods)
      && (ByEmail in l <==> "email" in methods)
      && (forall i, j :: 0 <= i < j < |l| ==> l[i] != l[j])
      && (|l| > 0 && l[0] == ByEmail <==>
            (('@' in login && "email" in methods) || ("email" in methods && "username" !in methods)))
  {
  }

  /** objects.get(field=login), falling back to filter(...).first() on several matches. */
  function FirstWith(users: seq<User>, f: LoginField, login: string): (r: Option<User>)
    ensures r.Some? ==> exists i :: (0 <= i < |users| && users[i] == r.value && FieldOf(users[i], f) == login
      && forall j :: 0 <= j < i ==> FieldOf(users[j], f) != login)
    ensures r.None? ==> forall i :: 0 <= i < |users| ==> FieldOf(users[i], f) != login
  {
    if users == [] then None
    else if FieldOf(users[0], f) == login then Some(users[0])
    else
      var r := FirstWith(users[1..], f, login);
      assert forall i :: 1 <= i < |users| ==> users[1..][i - 1] == users[i];
      r
  }

  /** The user the first successful lookup finds. */
  function FirstHit(users: seq<User>, lookups: seq<LoginField>, login: string): Option<User> {
    if lookups == [] then None
    else
      var hit := FirstWith(users, lookups[0], login);
      if hit.Some? then hit else FirstHit(users, lookups[1..], login)
  }

  /** The user _get_user_by_login returns. */
  function UserByLogin(users: seq<User>, login: string, methods: set<string>): Option<User> {
    FirstHit(users, Lookups(login, methods), login)
  }

  /** The first lookup that finds a user wins; none finding one gives None. */
  lemma {:induction false} FirstHitSpec(users: seq<User>, lookups: seq<LoginField>, login: string)
    ensures var r := FirstHit(users, lookups, login);
      && (r.None? <==> forall k :: 0 <= k < |lookups| ==> FirstWith(users, lookups[k], login).None?)
      && (r.Some? ==> exists k :: (0 <= k < |lookups| && FirstWith(users, lookups[k], login) == r
            && forall k' :: 0 <= k' < k ==> FirstWith(users, lookups[k'], login).None?))
  {
    if lookups != [] {
      var tail := lookups[1..];
      FirstHitSpec(users, tail, login);
      var r := FirstHit(users, lookups, login);
      var first := FirstWith(users, lookups[0], login);
      if first.Some? {
        assert r == first;
      } else {
        assert r == FirstHit(users, tail, login);
        assert forall k :: 1 <= k < |lookups| ==> lookups[k] == tail[k - 1];
        if r.Some? {
          var k :| 0 <= k < |tail| && FirstWith(users, tail[k], login) == r
            && forall k' :: 0 <= k' < k ==> FirstWith(users, tail[k'], login).None?;
          assert FirstWith(users, lookups[k + 1], login) == r;
        }
      }
    }
  }

  /** When the first lookup finds a user, that user is the result. */
  lemma FirstLookupWins(users: seq<User>, lookups: seq<LoginField>, login: string, i: nat)
    requires |lookups| > 0 && i < |users| && FieldOf(users[i], lookups[0]) == login
    ensures FirstWith(users, lookups[0], login).Some?
    ensures FirstHit(users, lookups, login) == FirstWith(users, lookups[0], login)
  {
  }

  /**
   * With "@" in the login and e-mail enabled, a user with that exact e-mail
   * wins (the earliest such), whatever usernames match.
   */
  lemma EmailFirstForAddresses(users: seq<User>, login: string, methods: set<string>, i: nat)
    requires i < |users| && '@' in login && "email" in methods && users[i].email == login
    ensures UserByLogin(users, login, methods) == FirstWith(users, ByEmail, login)
    ensures FirstWith(users, ByEmail, login).Some?
  {
    FirstLookupWins(users, Lookups(login, methods), login, i);
  }

  /** Otherwise, with usernames enabled, a user with that exact username wins. */
  lemma UsernameFirstOtherwise(users: seq<User>, login: string, methods: set<string>, i: nat)
    requires i < |users| && !('@' in login && "email" in methods) && "username" in methods
    requires users[i].username == login
    ensures UserByLogin(users, login, methods) == FirstWith(users, ByUsername, login)
    ensures FirstWith(users, ByUsername, login).Some?
  {
    FirstLookupWins(users, Lookups(login, methods), login, i);
  }

  /** Without the setting only usernames are looked up, even for a login with "@". */
  lemma DefaultIsUsernameOnly(users: seq<User>, login: string)
    ensures UserByLogin(users, login, DefaultLoginMethods) == FirstWith(users, ByUsername, login)
  {
    assert "email" !in DefaultLoginMethods;
    assert Lookups(login, DefaultLoginMethods) == [ByUsername];
    var l := [ByUsername];
    assert l[1..] == [] && FirstHit(users, [], login).None?;
    assert FirstHit(users, l, login) == FirstWith(users, ByUsername, login);
  }

  /** _get_user_by_login: build the lookup list, then try each lookup in turn. */
  method GetUserByLogin(users: seq<User>, login: string, methods: set<string>) returns (user: Option<User>)
    ensures user == UserByLogin(users, login, methods)
  {
    var lookups: seq<LoginField> := [];
    if '@' in login && "email" in methods {
      lookups := lookups + [ByEmail];
      if "username" in methods {
        lookups := lookups + [ByUsername];
      }
    } else {
      if "username" in methods {
        lookups := lookups + [ByUsername];
      }
      if "email" in methods {
        lookups := lookups + [ByEmail];
      }
    }
    assert lookups == Lookups(login, methods);
    var k := 0;
    while k < |lookups|
      invariant 0 <= k <= |lookups|
      invariant FirstHit(users, lookups, login) == FirstHit(users, lookups[k..], login)
    {
      var found := FirstWith(users, lookups[k], login);
      if found.Some? {
        return found;
      }
      assert lookups[k..][1..] == lookups[k + 1..];
      k := k + 1;
    }
    return None;
  }

  /** username or email or login: the first non-empty one. */
  function LoginOf(username: string, emailArg: string, loginArg: string): string {
    if username != "" then username else if emailArg != "" then emailArg else loginArg
  }

  /**
   * authenticate: None without a login or a password, when no user is found,
   * when the user is inactive, or when the password does not check;
   * otherwise the user found.
   */
  function Authenticate(users: seq<User>, methods: set<string>, checkPassword: (User, string) -> bool,
                        username: string, password: string, emailArg: string, loginArg: string): (r: Option<User>)
    ensures var login := LoginOf(username, emailArg, loginArg);
      var found := UserByLogin(users, login, methods);
      && (r.Some? <==> login != "" && password != "" && found.Some? && found.value.isActive
                       && checkPassword(found.value, password))
      && (r.Some? ==> r == found)
  {
    var login := LoginOf(username, emailArg, loginArg);
    if login == "" || password == "" then None
    else
      var user := UserByLogin(users, login, methods);
      if user.None? then None
      else if !user.value.isActive then None
      else if !checkPassword(user.value, password) then None
      else user
  }

  /**
   * A signed-in user was found by an exact match on an enabled field, is
   * active and passed the password check; the username argument takes
   * precedence over the e-mail and login arguments.
   */
  lemma AuthenticateSound(users: seq<User>, methods: set<string>, checkPassword: (User, string) -> bool,
                          username: string, password: string, emailArg: string, loginArg: string)
    ensures var r := Authenticate(users, methods, checkPassword, username, password, emailArg, loginArg);
      var login := LoginOf(username, emailArg, loginArg);
      && (r.Some? ==>
            (r.value in users && r.value.isActive && checkPassword(r.value, password)
             && ((r.value.username == login && "username" in methods) || (r.value.email == login && "email" in methods))))
      && (username != "" ==> login == username)
  {
    var login := LoginOf(username, emailArg, loginArg);
    var r := Authenticate(users, methods, checkPassword, username, password, emailArg, loginArg);
    if r.Some? {
      var lookups := Lookups(login, methods);
      FirstHitSpec(users, lookups, login);
      LookupsSpec(login, methods);
      var k :| 0 <= k < |lookups| && FirstWith(users, lookups[k], login) == r
        && forall k' :: 0 <= k' < k ==> FirstWith(users, lookups[k'], login).None?;
      assert lookups[k] in lookups;
    }
  }
}
