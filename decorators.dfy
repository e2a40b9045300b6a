/**
 * verified_email_required (accounts/decorators.py): a view wrapper that
 * sends anonymous visitors to the sign-in page and unverified users to the
 * e-mail management page, and otherwise calls the view unchanged. The URL
 * resolver's result for the sign-in page is the parameter `loginPath`, and
 * allauth's has_verified_email is the parameter `hasVerifiedEmail`.
 */
module AccessDecorators {
  import opened Accounts

  /** The parts of a request the wrapped views read. */
  datatype Request = Request(visitor: Visitor, path: string, httpMethod: string)

  /** The wrapper's answer: one of its two redirects, or what the view returned. */
  datatype Gated<R> =
    | RedirectToLogin(url: string, flash: string)
    | RedirectToEmail(flash: string)
    | ViewResult(result: R)

  const SignInFlash: string := "Please sign in to continue."
  const VerifyFlash: string := "Please verify your email before continuing."

  /** The sign-in URL with the requested path as `next` (not percent-encoded). */
  function LoginUrl(loginPath: string, path: string): string {
    loginPath + "?next=" + path
  }

  /** The wrapped view: the authentication check, then the verification check, then the view. */
  function VerifiedEmailRequired<R>(request: Request, hasVerifiedEmail: User -> bool, loginPath: string,
                                    view: Request -> R): Gated<R>
  {
    if !IsAuthenticated(request.visitor) then RedirectToLogin(LoginUrl(loginPath, request.path), SignInFlash)
    else if !hasVerifiedEmail(request.visitor.user) then RedirectToEmail(VerifyFlash)
    else ViewResult(view(request))
  }

  /**
   * Anonymous visitors go to sign-in with `next` set to the path, whatever
   * the verification check would say; signed-in unverified users go to the
   * e-mail page; only a verified user gets the view's result for the same
   * request. In the two redirect cases the view's result plays no part.
   */
  lemma VerifiedEmailRequiredSpec<R>(request: Request, hasVerifiedEmail: User -> bool, loginPath: string,
                                     view: Request -> R, other: Request -> R)
    ensures var g := VerifiedEmailRequired(request, hasVerifiedEmail, loginPath, view);
      && (request.visitor.Anonymous? <==> g.RedirectToLogin?)
      && (g.RedirectToLogin? ==> g.url[..|loginPath|] == loginPath && g.url[|loginPath| + 6..] == request.path)
      && (g.RedirectToEmail? <==> request.visitor.SignedIn? && !hasVerifiedEmail(request.visitor.user))
      && (g.ViewResult? <==> request.visitor.SignedIn? && hasVerifiedEmail(request.visitor.user))
      && (g.ViewResult? ==> g.result == view(request))
      && (!g.ViewResult? ==> g == VerifiedEmailRequired(request, hasVerifiedEmail, loginPath, other))
  {
    var g := VerifiedEmailRequired(request, hasVerifiedEmail, loginPath, view);
    if g.RedirectToLogin? {
      assert g.url == loginPath + "?next=" + request.path;
      assert g.url[..|loginPath|] == loginPath;
      assert g.url[|loginPath| + 6..] == request.path;
    }
  }
}
