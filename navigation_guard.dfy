/** The client-side navigation guard: given the authentication state and the
    current path, whether the page effect replaces the route, and whether
    the page's children are rendered. `router.replace` is the only effect
    and is returned as a value. */
module NavigationGuard {
  import opened Wrappers
  import opened JsText
  import opened Users

  /** The fields of the signed-in user the guard reads. */
  datatype ClientUser = ClientUser(role: Role, status: Status)

  /** What the auth context exposes: readiness, the loading flag and the
      user (null when signed out). */
  datatype AuthState = AuthState(isReady: bool, loading: bool, user: Option<ClientUser>)

  /** The effect's outcome: leave the route alone or replace it. */
  datatype Redirect = Stay | ReplaceWith(target: string)

  predicate Settled(a: AuthState)
  {
    a.isReady && !a.loading
  }

  /** `/admin` itself or any path below it. */
  predicate IsAdminPath(path: string)
  {
    path == "/admin" || StartsWith(path, "/admin/")
  }

  predicate IsBlocked(s: Status)
  {
    s == Rejected || s == Archived
  }

  /** The effect: rules 1 to 5 in order, the first that applies decides. */
  function RedirectFor(a: AuthState, path: string): (r: Redirect)
    ensures !Settled(a) ==> r == Stay
    ensures r.ReplaceWith? ==> r.target == "/login" || r.target == "/pending" || r.target == "/"
    ensures r.ReplaceWith? ==> r.target != path
  {
    if !Settled(a) then Stay
    else match a.user
      case None =>
        if path != "/login" && path != "/register" then ReplaceWith("/login") else Stay
      case Some(u) =>
        if IsBlocked(u.status) then
          if path != "/login" then ReplaceWith("/login") else Stay
        else if u.status != Approved then
          if path != "/pending" then ReplaceWith("/pending") else Stay
        else if path == "/pending" || path == "/login" || path == "/register" then ReplaceWith("/")
        else if IsAdminPath(path) then
          if u.role != RoleAdmin then ReplaceWith("/") else Stay
        else Stay
  }

  /** The render gate: nothing while auth is settling; otherwise the
      children, except for a signed-out, blocked or pending user on a page
      they may not see. */
  function RendersChildren(a: AuthState, path: string): (render: bool)
    ensures !Settled(a) ==> !render
  {
    if !Settled(a) then false
    else match a.user
      case None => path == "/login" || path == "/register"
      case Some(u) =>
        if IsBlocked(u.status) then path == "/login"
        else if u.status != Approved then path == "/pending"
        else true
  }

  /** Signed out: only the login and registration pages are allowed. */
  lemma SignedOutRule(a: AuthState, path: string)
    requires Settled(a) && a.user.None?
    ensures RedirectFor(a, path) == Stay <==> path == "/login" || path == "/register"
    ensures RedirectFor(a, path) != Stay ==> RedirectFor(a, path) == ReplaceWith("/login")
  {
  }

  /** A rejected or archived user is sent to the login page, a user with
      any other non-approved status to the pending page. */
  lemma NotApprovedRules(a: AuthState, path: string)
    requires Settled(a) && a.user.Some? && a.user.value.status != Approved
    ensures IsBlocked(a.user.value.status) ==>
      RedirectFor(a, path) == (if path == "/login" then Stay else ReplaceWith("/login"))
    ensures !IsBlocked(a.user.value.status) ==>
      RedirectFor(a, path) == (if path == "/pending" then Stay else ReplaceWith("/pending"))
  {
  }

  /** An approved user is sent home from the pending, login and
      registration pages; a non-admin also from `/admin` and everything
      below it, and nowhere else. */
  lemma ApprovedRules(a: AuthState, path: string)
    requires Settled(a) && a.user.Some? && a.user.value.status == Approved
    ensures RedirectFor(a, path) != Stay ==> RedirectFor(a, path) == ReplaceWith("/")
    ensures RedirectFor(a, path) != Stay <==>
      || path == "/pending" || path == "/login" || path == "/register"
      || (IsAdminPath(path) && a.user.value.role != RoleAdmin)
  {
  }

  /** The admin rule matches path segments, not a bare prefix. */
  lemma AdminPathIsSegmentPrefix(rest: string)
    ensures IsAdminPath("/admin") && IsAdminPath("/admin/" + rest)
    ensures !IsAdminPath("/administrator")
  {
    assert ("/admin/" + rest)[..7] == "/admin/";
    assert "/administrator"[..7] != "/admin/" by { assert "/administrator"[6] == 'i'; }
  }

  /** Following a redirect ends there: at the target the guard leaves the
      route alone, so the effect never bounces between pages. */
  lemma RedirectTargetIsStable(a: AuthState, path: string)
    requires RedirectFor(a, path).ReplaceWith?
    ensures RedirectFor(a, RedirectFor(a, path).target) == Stay
  {
    var t := RedirectFor(a, path).target;
    assert !IsAdminPath("/") by { assert |"/"| < 7; }
  }

  /** For signed-out, blocked and pending users the children appear
      exactly when no redirect is issued; an approved user always gets
      them, even on a path being redirected away from. */
  lemma RenderMatchesRedirect(a: AuthState, path: string)
    requires Settled(a)
    ensures a.user.None? || a.user.value.status != Approved ==>
      (RendersChildren(a, path) <==> RedirectFor(a, path) == Stay)
    ensures a.user.Some? && a.user.value.status == Approved ==> RendersChildren(a, path)
  {
  }
}
