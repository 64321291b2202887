/**
 * The request middleware: public paths pass, every other path needs an
 * `auth_token` cookie that the token verifier accepts, or it is redirected
 * to the login page.
 */
module Middleware {
  import opened Wrappers
  import opened Text

  datatype Decision = Next | RedirectToLogin

  /** The paths served without a session (lines 9-17). */
  predicate Exempt(path: string) {
    StartsWith(path, "/api/auth") || StartsWith(path, "/_next") || StartsWith(path, "/public")
    || path == "/login" || path == "/favicon.ico"
  }

  /**
   * A session exists: the cookie is present and non-empty, and the verifier
   * returns a payload for it (`verify` stands for `verifyToken(token) !== null`).
   */
  predicate Verified(token: Option<string>, verify: string -> bool) {
    token.Some? && token.value != "" && verify(token.value)
  }

  /** `middleware(request)` for a request to `path` carrying the cookie `token`. */
  function Decide(path: string, token: Option<string>, verify: string -> bool): (d: Decision)
    ensures d == Next <==> Exempt(path) || Verified(token, verify)
  {
    if Exempt(path) then Next
    else
      var verified := if token.Some? && token.value != "" then verify(token.value) else false;
      if !verified then RedirectToLogin else Next
  }

  /** Without a cookie, or with an empty one, only exempt paths pass; the verifier is not consulted. */
  lemma NoTokenRedirects(path: string, verify: string -> bool, other: string -> bool)
    requires !Exempt(path)
    ensures Decide(path, None, verify) == RedirectToLogin
    ensures Decide(path, Some(""), verify) == RedirectToLogin
    ensures Decide(path, None, verify) == Decide(path, None, other)
  {
  }

  /** Exempt paths pass whatever the cookie and the verifier say. */
  lemma ExemptIgnoresToken(path: string, token: Option<string>, verify: string -> bool)
    requires Exempt(path)
    ensures Decide(path, token, verify) == Next
  {
  }

  /** The prefixes have no `/` boundary: `/api/authz` is exempt as well. */
  lemma PrefixWithoutBoundary()
    ensures Exempt("/api/authz")
    ensures Exempt("/publicity")
  {
    assert StartsWith("/api/authz", "/api/auth");
    assert StartsWith("/publicity", "/public");
  }

  /** `/login` is exempt only as itself. */
  lemma LoginExactOnly()
    ensures Exempt("/login")
    ensures !Exempt("/login/x")
  {
    var p := "/login/x";
    assert !StartsWith(p, "/api/auth") by { assert p[1] != "/api/auth"[1]; }
    assert !StartsWith(p, "/_next") by { assert p[1] != "/_next"[1]; }
    assert !StartsWith(p, "/public") by { assert p[1] != "/public"[1]; }
    assert p != "/favicon.ico" by { assert p[1] != "/favicon.ico"[1]; }
    assert p != "/login" by { assert |p| != |"/login"|; }
  }

  /**
   * A request the middleware passes to a non-exempt route carries a session
   * that the route's own `isAuthenticated` check (same cookie, same
   * verifier) accepts.
   */
  lemma PassedRequestIsAuthenticated(path: string, token: Option<string>, verify: string -> bool)
    requires !Exempt(path) && Decide(path, token, verify) == Next
    ensures Verified(token, verify)
  {
  }
}
