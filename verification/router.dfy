/**
 * The navigation guard run before every route change, as a decision
 * function. The awaited `loadUser` call is a parameter: whether it
 * succeeded and whether the session is admin after it.
 */
module Router {
  import opened Wrappers
  import opened Entities
  import opened Auth

  /** A route's meta flags; an absent flag counts as false. */
  datatype Meta = Meta(authRequired: Option<bool>, adminRequired: Option<bool>)

  datatype Route = Route(name: string, meta: Meta)

  /** Where a redirect goes: a route by name, or back to the origin route. */
  datatype Target = Named(name: string) | Back(route: Route)

  datatype Decision = Allow | Redirect(target: Target)

  /** The outcome of the awaited `loadUser` and the admin flag read after it. */
  datatype LoadResult = LoadResult(loaded: bool, adminAfter: bool)

  /** The guard's decision, and whether it consulted `loadUser` on the way. */
  datatype GuardRun = GuardRun(decision: Decision, calledLoadUser: bool)

  predicate Flag(f: Option<bool>) {
    f == Some(true)
  }

  function RequiresAuth(to: Route): bool { Flag(to.meta.authRequired) }
  function RequiresAdmin(to: Route): bool { Flag(to.meta.adminRequired) }

  /** The redirect of the last branch: the origin route, or `home` when there is none. */
  function BackOrHome(from: Option<Route>): Target {
    match from
    case Some(r) => Back(r)
    case None => Named("home")
  }

  /**
   * The guard callback. Its contract is the decision table read case by
   * case, each case stated on the session rather than on the order of the
   * early returns.
   */
  function Guard(to: Route, from: Option<Route>, user: Option<User>, load: LoadResult): (r: GuardRun)
    // a route that does not require authentication is always entered, without loadUser
    ensures !RequiresAuth(to) ==> r == GuardRun(Allow, false)
    // an admin session enters every route, admin-only or not
    ensures IsAdmin(user) ==> r == GuardRun(Allow, false)
    // an authenticated session enters every route that does not need admin
    ensures IsAuthenticated(user) && !RequiresAdmin(to) ==> r == GuardRun(Allow, false)
    // an unauthenticated session on a protected route is decided by loadUser
    ensures RequiresAuth(to) && !IsAuthenticated(user) ==>
      r.calledLoadUser &&
      (!load.loaded ==> r.decision == Redirect(Named("login"))) &&
      (load.loaded && RequiresAdmin(to) && !load.adminAfter ==> r.decision == Redirect(Named("home"))) &&
      (load.loaded && (!RequiresAdmin(to) || load.adminAfter) ==> r.decision == Allow)
    // an authenticated non-admin session on an admin route goes back, without loadUser
    ensures RequiresAuth(to) && RequiresAdmin(to) && IsAuthenticated(user) && !IsAdmin(user) ==>
      r == GuardRun(Redirect(BackOrHome(from)), false)
  {
    var isAuthRequired := RequiresAuth(to);
    var isAdminRequired := RequiresAdmin(to);
    if !isAuthRequired then GuardRun(Allow, false)
    else if isAdminRequired && IsAdmin(user) then GuardRun(Allow, false)
    else if isAuthRequired && IsAuthenticated(user) && !isAdminRequired then GuardRun(Allow, false)
    else if isAuthRequired && !IsAuthenticated(user) then
      if !load.loaded then GuardRun(Redirect(Named("login")), true)
      else if isAdminRequired && !load.adminAfter then GuardRun(Redirect(Named("home")), true)
      else GuardRun(Allow, true)
    else GuardRun(Redirect(BackOrHome(from)), false)
  }

  /** `loadUser` is awaited exactly when the route is protected and the session is not authenticated. */
  lemma LoadUserOnlyWhenUnauthenticated(to: Route, from: Option<Route>, user: Option<User>, load: LoadResult)
    ensures Guard(to, from, user, load).calledLoadUser <==> RequiresAuth(to) && !IsAuthenticated(user)
  {
  }

  /** The guard sends to `login` exactly when a protected route meets a failed `loadUser`. */
  lemma LoginExactlyOnFailedLoad(to: Route, from: Option<Route>, user: Option<User>, load: LoadResult)
    ensures Guard(to, from, user, load).decision == Redirect(Named("login")) <==>
      RequiresAuth(to) && !IsAuthenticated(user) && !load.loaded
  {
  }

  /**
   * A route is never entered by a session that lacks what it requires:
   * an allowed admin route has an admin session, before or after loadUser.
   */
  lemma AllowedAdminRouteHasAdmin(to: Route, from: Option<Route>, user: Option<User>, load: LoadResult)
    requires RequiresAuth(to) && RequiresAdmin(to)
    requires Guard(to, from, user, load).decision == Allow
    ensures IsAdmin(user) || (!IsAuthenticated(user) && load.loaded && load.adminAfter)
  {
  }

  /**
   * The admin flag is read only after the authentication flag: a route
   * flagged admin-only but not authentication-required is entered by
   * every session, even one with no user, and `loadUser` is not consulted.
   */
  lemma AdminFlagAloneDoesNotProtect(to: Route, from: Option<Route>, user: Option<User>, load: LoadResult)
    requires RequiresAdmin(to) && !RequiresAuth(to)
    ensures Guard(to, from, user, load) == GuardRun(Allow, false)
    ensures Guard(to, from, None, load).decision == Allow
  {
  }

  /** The `loadUser` outcome of the stub in this version: failure, session untouched. */
  function StubLoad(user: Option<User>): LoadResult {
    LoadResult(false, IsAdmin(user))
  }

  /** With the stub, every protected navigation of an unauthenticated session ends at `login`. */
  lemma StubSendsGuestsToLogin(to: Route, from: Option<Route>, user: Option<User>)
    requires RequiresAuth(to) && !IsAuthenticated(user)
    ensures Guard(to, from, user, StubLoad(user)) == GuardRun(Redirect(Named("login")), true)
  {
  }

  /** The route table's meta flags. */
  const Home := Route("home", Meta(Some(true), Some(false)))
  const Login := Route("login", Meta(Some(false), Some(false)))
  const NotFound := Route("not-found", Meta(Some(false), Some(false)))

  /** On the route table's meta flags: the guard sends a guest from `home` to `login` and allows the flags of `login` and `not-found`. */
  lemma GuestOnRouteTable(from: Option<Route>)
    ensures Guard(Home, from, None, StubLoad(None)).decision == Redirect(Named("login"))
    ensures Guard(Login, from, None, StubLoad(None)).decision == Allow
    ensures Guard(NotFound, from, None, StubLoad(None)).decision == Allow
  {
  }

  /**
   * The guard callback run against the session store: it awaits the
   * store's `loadUser` only when the decision table reaches that step and
   * reads the admin flag again after it.
   */
  method BeforeEach(store: AuthStore, to: Route, from: Option<Route>) returns (d: Decision)
    ensures d == Guard(to, from, store.user, StubLoad(store.user)).decision
    ensures RequiresAuth(to) && !IsAuthenticated(store.user) ==> d == Redirect(Named("login"))
    ensures !RequiresAuth(to) || IsAdmin(store.user) ==> d == Allow
  {
    var load := LoadResult(false, IsAdmin(store.user));
    if RequiresAuth(to) && !IsAuthenticated(store.user) {
      var userLoaded := store.LoadUser();
      load := LoadResult(userLoaded, IsAdmin(store.user));
    }
    d := Guard(to, from, store.user, load).decision;
  }
}
