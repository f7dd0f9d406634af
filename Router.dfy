/**
 * The router's static route table and its `beforeEach` navigation guard: a
 * navigation to a route other than `login` whose meta says `requiresAuth`,
 * made while no non-empty `authToken` is stored, is redirected to the `login`
 * route with the requested path kept in the `redirect` query parameter; every
 * other navigation proceeds.
 */
module Router {
  import opened Wrappers
  import Js

  /** A record of the route table: its path, its name, and `meta.requiresAuth` (false when it has no meta). */
  datatype RouteRecord = RouteRecord(path: string, name: string, requiresAuth: bool)

  const LoginName := "login"

  /**
   * The routes the application declares. Their names are distinct, and the
   * route the guard redirects to is among them and open to everyone.
   */
  function Routes(): (r: seq<RouteRecord>)
    ensures forall i, j :: 0 <= i < j < |r| ==> r[i].name != r[j].name
    ensures exists i :: 0 <= i < |r| && r[i].name == LoginName && !r[i].requiresAuth
  {
    var routes := [
      RouteRecord("/", "home", true),
      RouteRecord("/about", "about", false),
      RouteRecord("/login", LoginName, false)
    ];
    assert routes[2].name == LoginName;
    routes
  }

  /**
   * The `to` of a navigation: its name (absent when no named record matched),
   * its full path, and whether its meta requires authentication.
   */
  datatype Target = Target(name: Option<string>, fullPath: string, requiresAuth: bool)

  /** The argument of the one `next` call: `next()`, or `next({name, query: {redirect}})`. */
  datatype Decision = Proceed | Redirect(name: string, redirect: string)

  /** `localStorage.getItem('authToken')`: `null` or the stored string. */
  function StoredToken(item: Option<string>): Js.Value {
    match item
    case None => Js.Null
    case Some(s) => Js.Str(s)
  }

  /** `!!localStorage.getItem('authToken')` */
  predicate IsAuthenticated(item: Option<string>) {
    Js.Truthy(StoredToken(item))
  }

  /** The decision the guard takes for a navigation to `to` with `item` stored under `authToken`. */
  function Decide(to: Target, item: Option<string>): (d: Decision)
    ensures d.Redirect? ==> d.name == LoginName && d.redirect == to.fullPath
  {
    if to.requiresAuth && !IsAuthenticated(item) then
      if to.name == Some(LoginName) then Proceed
      else Redirect(LoginName, to.fullPath)
    else Proceed
  }

  /**
   * The guard callback, statement by statement, recording every call it makes
   * to `next`; the early `return` keeps the redirect from following `next()`.
   */
  method BeforeEach(to: Target, item: Option<string>) returns (nextCalls: seq<Decision>)
    ensures nextCalls == [Decide(to, item)]
  {
    var isAuthenticated := IsAuthenticated(item);
    nextCalls := [];
    if to.requiresAuth && !isAuthenticated {
      if to.name == Some(LoginName) {
        nextCalls := nextCalls + [Proceed];
        return;
      }
      nextCalls := nextCalls + [Redirect(LoginName, to.fullPath)];
    } else {
      nextCalls := nextCalls + [Proceed];
    }
  }

  /** The record of `table` that carries `name`. */
  function Lookup(table: seq<RouteRecord>, name: string): (r: Option<RouteRecord>)
    ensures r.Some? ==> r.value in table && r.value.name == name
    ensures r.None? ==> forall i :: 0 <= i < |table| ==> table[i].name != name
  {
    if table == [] then None
    else if table[0].name == name then Some(table[0])
    else Lookup(table[1..], name)
  }

  /** The target of a navigation to the record `r` at `fullPath`. */
  function TargetOf(r: RouteRecord, fullPath: string): Target {
    Target(Some(r.name), fullPath, r.requiresAuth)
  }

  /** The target the router makes of a navigation by name; `None` when no record has that name. */
  function ResolveNamed(table: seq<RouteRecord>, name: string, fullPath: string): (t: Option<Target>)
    ensures t.Some? ==> t.value.name == Some(name)
  {
    match Lookup(table, name)
    case None => None
    case Some(r) => Some(TargetOf(r, fullPath))
  }

  // The stored token

  /** The user counts as authenticated exactly when a non-empty token is stored. */
  lemma AuthenticatedIff(item: Option<string>)
    ensures IsAuthenticated(item) <==> item.Some? && item.value != ""
  {
  }

  // The decision

  /** A protected target is redirected exactly when nobody is signed in and it is not the login route. */
  lemma RedirectIff(to: Target, item: Option<string>)
    ensures Decide(to, item).Redirect?
        <==> to.requiresAuth && !IsAuthenticated(item) && to.name != Some(LoginName)
  {
  }

  /** A protected target other than login, without a token, goes to login and keeps its full path. */
  lemma ProtectedRouteRedirects(to: Target, item: Option<string>)
    requires to.requiresAuth && !IsAuthenticated(item) && to.name != Some(LoginName)
    ensures Decide(to, item) == Redirect(LoginName, to.fullPath)
  {
  }

  /** A navigation to the login route is never redirected, whatever its meta says. */
  lemma LoginNeverRedirected(fullPath: string, requiresAuth: bool, item: Option<string>)
    ensures Decide(Target(Some(LoginName), fullPath, requiresAuth), item) == Proceed
  {
  }

  /** A target that does not require authentication proceeds, whatever is stored. */
  lemma PublicRouteProceeds(to: Target, item: Option<string>)
    requires !to.requiresAuth
    ensures Decide(to, item) == Proceed
  {
  }

  /** An authenticated user proceeds everywhere. */
  lemma AuthenticatedProceeds(to: Target, item: Option<string>)
    requires IsAuthenticated(item)
    ensures Decide(to, item) == Proceed
  {
  }

  // The route table

  /** Only `home`, at `/`, requires authentication, and no two records share a name. */
  lemma OnlyHomeProtected()
    ensures forall i :: 0 <= i < |Routes()| ==> (Routes()[i].requiresAuth <==> Routes()[i].name == "home")
    ensures forall i, j :: 0 <= i < j < |Routes()| ==> Routes()[i].name != Routes()[j].name
    ensures Lookup(Routes(), "home") == Some(RouteRecord("/", "home", true))
  {
  }

  /** On the declared routes the guard redirects only a navigation to `home` without a token. */
  lemma TableDecisions(i: nat, fullPath: string, item: Option<string>)
    requires i < |Routes()|
    ensures Decide(TargetOf(Routes()[i], fullPath), item).Redirect?
        <==> Routes()[i].name == "home" && !IsAuthenticated(item)
  {
  }

  /**
   * A redirect never chains: the route it names exists in the table, and the
   * navigation to it, whatever its full path, proceeds.
   */
  lemma NoRedirectChain(to: Target, item: Option<string>, nextPath: string)
    requires Decide(to, item).Redirect?
    ensures var next := ResolveNamed(Routes(), Decide(to, item).name, nextPath);
      next.Some? && next.value.name == Some(LoginName) && !next.value.requiresAuth
      && Decide(next.value, item) == Proceed
  {
    assert Lookup(Routes(), LoginName) == Some(Routes()[2]);
  }

  /**
   * With any route table, however it marks the login route, a redirected
   * navigation that resolves proceeds.
   */
  lemma NoRedirectChainAnyTable(table: seq<RouteRecord>, to: Target, item: Option<string>, nextPath: string)
    requires Decide(to, item).Redirect?
    requires ResolveNamed(table, Decide(to, item).name, nextPath).Some?
    ensures Decide(ResolveNamed(table, Decide(to, item).name, nextPath).value, item) == Proceed
  {
  }

  /** The navigations the guard is usually described by. */
  lemma Examples(fullPath: string, item: Option<string>)
    ensures Decide(Target(Some("home"), "/", true), None) == Redirect(LoginName, "/")
    ensures Decide(Target(Some("home"), "/", true), Some("")) == Redirect(LoginName, "/")
    ensures Decide(Target(Some("home"), "/", true), Some("abc")) == Proceed
    ensures Decide(Target(Some(LoginName), "/login", true), None) == Proceed
    ensures Decide(Target(None, fullPath, false), item) == Proceed
  {
  }
}
