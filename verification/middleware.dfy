/** The edge middleware: a redirect decision made from the request path and
    the caller's signed token alone, before any page or route runs. */
module Middleware {
  import opened Common
  import opened Strings

  const LoginPage: string := "/login"
  const SignupPage: string := "/signup"
  const DashboardPage: string := "/dashboard"
  const AdminPrefix: string := "/admin"
  const AdminLoginPage: string := "/admin/login"

  /** The prefixes a player must be signed in to visit. */
  const UserProtectedPaths: seq<string> := ["/dashboard", "/predictions", "/matches"]

  datatype Decision = PassThrough | RedirectTo(target: string)

  /** The path starts with one of the player-only prefixes. */
  predicate IsUserProtected(pathname: string) {
    exists i | 0 <= i < |UserProtectedPaths| :: StartsWith(pathname, UserProtectedPaths[i])
  }

  /** Under `/admin`, but not the admin sign-in page (or anything below it). */
  predicate IsAdminPath(pathname: string) {
    StartsWith(pathname, AdminPrefix) && !StartsWith(pathname, AdminLoginPage)
  }

  predicate IsAuthPage(pathname: string) {
    pathname == LoginPage || pathname == SignupPage
  }

  /** The `middleware` function's decision for a request it is given.  The
      rules are tried in order: a
      player-only path without a token goes to the sign-in page; an admin
      path without an admin token goes to the admin sign-in page; a signed-in
      non-admin on the sign-in or sign-up page goes to the dashboard;
      everything else passes. */
  function Decide(pathname: string, token: Option<Session>): (d: Decision)
    ensures d == RedirectTo(LoginPage) <==> IsUserProtected(pathname) && token.None?
    ensures d == RedirectTo(AdminLoginPage) <==>
              !(IsUserProtected(pathname) && token.None?) && IsAdminPath(pathname) && !IsAdmin(token)
    ensures d == RedirectTo(DashboardPage) <==>
              !(IsUserProtected(pathname) && token.None?) && !(IsAdminPath(pathname) && !IsAdmin(token))
              && IsAuthPage(pathname) && token.Some? && !token.value.isAdmin
    ensures d.RedirectTo? ==> d.target in {LoginPage, AdminLoginPage, DashboardPage}
  {
    if IsUserProtected(pathname) && token.None? then RedirectTo(LoginPage)
    else if IsAdminPath(pathname) && !IsAdmin(token) then RedirectTo(AdminLoginPage)
    else if IsAuthPage(pathname) && token.Some? && !token.value.isAdmin then RedirectTo(DashboardPage)
    else PassThrough
  }

  /** The path-prefix entries of `config.matcher`: each `/x/:path*` covers
      `/x` itself and everything below `/x/`. */
  const MatcherPrefixes: seq<string> := ["/dashboard", "/predictions", "/matches", "/admin"]

  /** The request reaches the middleware at all: its path is one the
      matcher lists (a `/x/:path*` entry, or the sign-in or sign-up page). */
  predicate Matched(pathname: string) {
    || (exists i | 0 <= i < |MatcherPrefixes| ::
          pathname == MatcherPrefixes[i] || StartsWith(pathname, MatcherPrefixes[i] + "/"))
    || IsAuthPage(pathname)
  }

  /** What a request meets: a path the matcher does not list is served
      untouched; a listed one gets the middleware's decision.  So a path that
      merely begins with a protected word (`/matchesfoo`) is never redirected. */
  function Route(pathname: string, token: Option<Session>): (d: Decision)
    ensures !Matched(pathname) ==> d == PassThrough
    ensures d == RedirectTo(LoginPage) <==> Matched(pathname) && IsUserProtected(pathname) && token.None?
    ensures d == RedirectTo(AdminLoginPage) <==>
              && Matched(pathname) && !(IsUserProtected(pathname) && token.None?)
              && IsAdminPath(pathname) && !IsAdmin(token)
    ensures d == RedirectTo(DashboardPage) <==>
              && !(IsUserProtected(pathname) && token.None?) && !(IsAdminPath(pathname) && !IsAdmin(token))
              && IsAuthPage(pathname) && token.Some? && !token.value.isAdmin
  {
    if Matched(pathname) then Decide(pathname, token) else PassThrough
  }

  /** None of the three redirect targets is itself protected in a way that
      sends the same caller on: the sign-in pages are neither player-only nor
      admin paths, and the dashboard is player-only. */
  lemma TargetsClassified()
    ensures !IsUserProtected(LoginPage) && !IsAdminPath(LoginPage) && IsAuthPage(LoginPage)
    ensures !IsUserProtected(AdminLoginPage) && !IsAdminPath(AdminLoginPage) && !IsAuthPage(AdminLoginPage)
    ensures IsUserProtected(DashboardPage) && !IsAdminPath(DashboardPage) && !IsAuthPage(DashboardPage)
  {
    assert StartsWith(DashboardPage, UserProtectedPaths[0]);
    forall i | 0 <= i < |UserProtectedPaths|
      ensures !StartsWith(LoginPage, UserProtectedPaths[i]) && !StartsWith(AdminLoginPage, UserProtectedPaths[i])
    {
      DiffersAt(LoginPage, UserProtectedPaths[i], 1);
      DiffersAt(AdminLoginPage, UserProtectedPaths[i], 1);
    }
    DiffersAt(LoginPage, AdminPrefix, 1);
    DiffersAt(DashboardPage, AdminPrefix, 1);
    assert StartsWith(AdminLoginPage, AdminLoginPage);
  }

  /** A string does not start with a prefix it disagrees with somewhere. */
  lemma DiffersAt(s: string, p: string, k: nat)
    requires k < |p| && (k >= |s| || s[k] != p[k])
    ensures !StartsWith(s, p)
  {
    if |p| <= |s| {
      assert s[..|p|][k] == s[k];
    }
  }

  /** Following redirects never loops: the page a redirect names is served
      to the same caller after at most one further redirect. */
  lemma RedirectsSettle(pathname: string, token: Option<Session>)
    ensures var d := Route(pathname, token);
            d.RedirectTo? ==>
              var d' := Route(d.target, token);
              d'.PassThrough? || (d'.RedirectTo? && Route(d'.target, token).PassThrough?)
  {
    TargetsClassified();
  }

  /** A caller without a token never reaches a player-only or admin path. */
  lemma AnonymousKeptOut(pathname: string)
    requires IsUserProtected(pathname) || IsAdminPath(pathname)
    ensures Decide(pathname, None).RedirectTo?
  {
  }

  /** Every path the matcher lists under `/dashboard`, `/predictions`,
      `/matches` or `/admin` (other than the admin sign-in page) turns a
      caller without a token away. */
  lemma MatchedAnonymousKeptOut(pathname: string)
    requires exists i | 0 <= i < |MatcherPrefixes| ::
               pathname == MatcherPrefixes[i] || StartsWith(pathname, MatcherPrefixes[i] + "/")
    requires !StartsWith(pathname, AdminLoginPage)
    ensures Route(pathname, None).RedirectTo?
  {
    var i :| 0 <= i < |MatcherPrefixes| &&
             (pathname == MatcherPrefixes[i] || StartsWith(pathname, MatcherPrefixes[i] + "/"));
    assert StartsWith(pathname, MatcherPrefixes[i]) by {
      if pathname != MatcherPrefixes[i] {
        assert pathname[..|MatcherPrefixes[i]|] == (MatcherPrefixes[i] + "/")[..|MatcherPrefixes[i]|];
      }
    }
    if i < 3 {
      assert MatcherPrefixes[i] == UserProtectedPaths[i];
    }
  }

  /** The matcher matters: a look-alike path that the middleware function
      would turn away is never handed to it. */
  lemma MatcherSkipsLookalike()
    ensures Decide("/matchesfoo", None) == RedirectTo(LoginPage)
    ensures Route("/matchesfoo", None) == PassThrough
  {
    assert StartsWith("/matchesfoo", UserProtectedPaths[2]);
    forall i | 0 <= i < |MatcherPrefixes|
      ensures "/matchesfoo" != MatcherPrefixes[i] && !StartsWith("/matchesfoo", MatcherPrefixes[i] + "/")
    {
      if i == 2 {
        DiffersAt("/matchesfoo", MatcherPrefixes[i] + "/", 8);
      } else {
        DiffersAt("/matchesfoo", MatcherPrefixes[i] + "/", 1);
      }
    }
  }

  /** A player-only path is never an admin path, so any token at all, an
      admin's or a player's, opens it. */
  lemma TokenOpensUserPaths(pathname: string, token: Option<Session>)
    requires IsUserProtected(pathname) && token.Some?
    ensures Route(pathname, token) == PassThrough
  {
    var i :| 0 <= i < |UserProtectedPaths| && StartsWith(pathname, UserProtectedPaths[i]);
    assert pathname[1] == UserProtectedPaths[i][1];
    DiffersAt(pathname, AdminPrefix, 1);
  }

  /** An admin token is never redirected, whatever the path. */
  lemma AdminNeverRedirected(pathname: string, token: Option<Session>)
    requires IsAdmin(token)
    ensures Route(pathname, token) == PassThrough
  {
  }

  /** The admin sign-in page is open to every caller. */
  lemma AdminLoginAlwaysOpen(token: Option<Session>)
    ensures Route(AdminLoginPage, token) == PassThrough
  {
    TargetsClassified();
  }
}
