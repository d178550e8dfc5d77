/** The application shell in `src/App.tsx`: the authentication flag that
    the session check and the auth listener update, and the screen and
    route table rendered from it and from the access checks. The session
    service is an input. */
module App {
  import opened Wrappers
  import Rbac
  import Text

  /** What `getSession()` produced. */
  datatype SessionCheck = SessionError | CheckThrew | SessionResult(hasSession: bool)

  /** The component's authentication state. */
  class Shell {
    /** `isAuthenticated`: `None` until the first answer. */
    var isAuthenticated: Option<bool>
    /** Whether the auth-change listener is subscribed. */
    var listening: bool
    /** The number of `signOut()` calls made. */
    var signOuts: nat

    constructor()
      ensures isAuthenticated.None? && !listening && signOuts == 0
    {
      isAuthenticated := None;
      listening := false;
      signOuts := 0;
    }

    /** The mount effect: without configuration the flag becomes false and
        no listener is set up; otherwise the listener is subscribed. */
    method Mount(configured: bool)
      modifies this
      ensures !configured ==> isAuthenticated == Some(false) && listening == old(listening)
      ensures configured ==> isAuthenticated == old(isAuthenticated) && listening
      ensures signOuts == old(signOuts)
    {
      if !configured {
        isAuthenticated := Some(false);
        return;
      }
      listening := true;
    }

    /** `checkSession` once the session read has settled. */
    method CheckSession(result: SessionCheck)
      modifies this
      ensures isAuthenticated == Some(result.SessionResult? && result.hasSession)
      ensures signOuts == old(signOuts) + (if result.SessionError? then 1 else 0)
      ensures listening == old(listening)
    {
      match result {
        case SessionError =>
          signOuts := signOuts + 1;
          isAuthenticated := Some(false);
        case CheckThrew =>
          isAuthenticated := Some(false);
        case SessionResult(hasSession) =>
          isAuthenticated := Some(hasSession);
      }
    }

    /** The auth-change listener: the flag follows the session. */
    method OnAuthStateChange(hasSession: bool)
      requires listening
      modifies this
      ensures isAuthenticated == Some(hasSession)
      ensures listening && signOuts == old(signOuts)
    {
      isAuthenticated := Some(hasSession);
    }
  }

  datatype Page =
    | LoginPage | SignUpPage | ForgotPasswordPage | ResetPasswordPage
    | DashboardPage | PropertiesPage | ListingsPage
    | AdminPage | LeadsPage | TransactionsPage | WhatsAppPage
    | CalendarPage | InlineCalendarPage | AccountingPage | AnalyticsPage | HelpPage

  datatype Access = Public | Protected

  datatype Route = Route(path: string, page: Page, access: Access)

  /** The routes for signed-out users. */
  const PublicRoutes: seq<Route> := [
    Route("/login", LoginPage, Public), Route("/signup", SignUpPage, Public),
    Route("/forgot-password", ForgotPasswordPage, Public), Route("/reset-password", ResetPasswordPage, Public)]

  const OwnerRoutes: seq<Route> := [Route("/properties", PropertiesPage, Protected), Route("/listings", ListingsPage, Protected)]

  const AdminRoutes: seq<Route> := [
    Route("/admin", AdminPage, Protected), Route("/leads", LeadsPage, Protected),
    Route("/transactions", TransactionsPage, Protected), Route("/whatsapp", WhatsAppPage, Protected)]

  const CommonRoutes: seq<Route> := [
    Route("/calendar", CalendarPage, Protected), Route("/inline-calendar", InlineCalendarPage, Protected),
    Route("/accounting", AccountingPage, Protected), Route("/analytics", AnalyticsPage, Protected),
    Route("/help", HelpPage, Protected)]

  /** The routes registered for the given access checks. */
  function RouteTable(isOwner: bool, isAdmin: bool): seq<Route> {
    RoleRoutes(isOwner, isAdmin) + CommonRoutes
  }

  /** The routes before the common pages: the sign-in pages, the
      dashboard, and the pages the access checks allow. */
  function RoleRoutes(isOwner: bool, isAdmin: bool): seq<Route> {
    PublicRoutes + [Route("/", DashboardPage, Protected)]
    + (if isOwner || isAdmin then OwnerRoutes else [])
    + (if isAdmin then AdminRoutes else [])
  }

  /** Drops the slashes at the end of `s`. */
  function TrimSlashes(s: string): (r: string)
    ensures |r| <= |s| && r == s[..|r|]
    ensures r == [] || r[|r| - 1] != '/'
    ensures forall i :: |r| <= i < |s| ==> s[i] == '/'
    decreases |s|
  {
    if s != [] && s[|s| - 1] == '/' then TrimSlashes(s[..|s| - 1]) else s
  }

  /** The path React Router compares with a route's: letter case is
      ignored, since no route sets `caseSensitive`, and any trailing
      slashes are dropped; what is left of the root is the root. */
  function RoutePath(path: string): (r: string)
    ensures r != [] && (r == "/" || r[|r| - 1] != '/')
    ensures forall i :: 0 <= i < |r| ==> !Text.IsAsciiUpper(r[i])
  {
    var q := TrimSlashes(Text.ToLower(path));
    if q == [] then "/" else q
  }

  /** A path written in lower case without a trailing slash is its own
      route path. */
  lemma RoutePathOfRoute(p: string)
    requires p != [] && (p == "/" || p[|p| - 1] != '/')
    requires forall i :: 0 <= i < |p| ==> !Text.IsAsciiUpper(p[i])
    ensures RoutePath(p) == p
  {
    assert Text.ToLower(p) == p;
  }

  /** Whether a route is matched by the path in the address bar. */
  predicate Matches(route: Route, path: string) {
    RoutePath(path) == route.path
  }

  /** The first route whose path is exactly `key`, if any. */
  function FindPath(routes: seq<Route>, key: string): (r: Option<Route>)
    ensures r.Some? ==> r.value in routes && r.value.path == key
    ensures r.None? ==> forall i :: 0 <= i < |routes| ==> routes[i].path != key
  {
    if routes == [] then None
    else if routes[0].path == key then Some(routes[0])
    else FindPath(routes[1..], key)
  }

  /** The registered route `<Routes>` renders for a path, if any. */
  function FindRoute(routes: seq<Route>, path: string): (r: Option<Route>)
    ensures r.Some? ==> r.value in routes && Matches(r.value, path)
    ensures r.None? ==> forall i :: 0 <= i < |routes| ==> !Matches(routes[i], path)
  {
    FindPath(routes, RoutePath(path))
  }

  /** Changing the letter case of a path, or adding a slash at its end,
      leaves its route path as it is. */
  lemma RoutePathIgnoresCaseAndSlash(path: string)
    ensures RoutePath(Text.ToLower(path)) == RoutePath(path)
    ensures RoutePath(path + "/") == RoutePath(path)
  {
    var l := Text.ToLower(path);
    assert Text.ToLower(l) == l;
    var ls := Text.ToLower(path + "/");
    assert ls == l + "/";
    assert TrimSlashes(ls) == TrimSlashes(l);
  }

  /** The route found for a path does not depend on the letter case of the
      path nor on a slash added at its end. */
  lemma FindRouteIgnoresCaseAndSlash(routes: seq<Route>, path: string)
    ensures FindRoute(routes, Text.ToLower(path)) == FindRoute(routes, path)
    ensures FindRoute(routes, path + "/") == FindRoute(routes, path)
  {
    RoutePathIgnoresCaseAndSlash(path);
  }

  datatype Outcome = LoadingScreen | ConfigurationError | Render(page: Page) | Redirect(to: string) | NoMatch

  /** What the component renders for `path`. */
  function Screen(isAuthenticated: Option<bool>, configured: bool, v: Rbac.AccessView, path: string): Outcome {
    if isAuthenticated.None? || v.loading then LoadingScreen
    else if !configured then ConfigurationError
    else
      match FindRoute(RouteTable(Rbac.IsOwner(v), Rbac.IsAdmin(v)), path)
      case None => NoMatch
      case Some(route) =>
        var signedIn := isAuthenticated.value;
        match route.access
        case Public => if signedIn then Redirect("/") else Render(route.page)
        case Protected => if signedIn then Render(route.page) else Redirect("/login")
  }

  /** The loading screen wins over everything else. */
  lemma LoadingFirst(isAuthenticated: Option<bool>, configured: bool, v: Rbac.AccessView, path: string)
    requires isAuthenticated.None? || v.loading
    ensures Screen(isAuthenticated, configured, v, path) == LoadingScreen
  {
  }

  /** A signed-in user asking for a sign-in page is sent home. */
  lemma PublicRedirectsSignedIn(configured: bool, v: Rbac.AccessView, i: nat)
    requires configured && !v.loading && i < |PublicRoutes|
    ensures Screen(Some(true), configured, v, PublicRoutes[i].path) == Redirect("/")
  {
    PublicRoutePath(i);
    PublicFound(configured, v, i);
  }

  /** The sign-in pages' paths are their own route paths. */
  lemma PublicRoutePath(i: nat)
    requires i < |PublicRoutes|
    ensures RoutePath(PublicRoutes[i].path) == PublicRoutes[i].path
  {
    if i == 0 {
      RoutePathOfRoute("/login");
    } else if i == 1 {
      RoutePathOfRoute("/signup");
    } else if i == 2 {
      RoutePathOfRoute("/forgot-password");
    } else {
      RoutePathOfRoute("/reset-password");
    }
  }

  lemma PublicFound(configured: bool, v: Rbac.AccessView, i: nat)
    requires configured && !v.loading && i < |PublicRoutes|
    requires RoutePath(PublicRoutes[i].path) == PublicRoutes[i].path
    ensures Screen(Some(true), configured, v, PublicRoutes[i].path) == Redirect("/")
  {
    PublicInTable(Rbac.IsOwner(v), Rbac.IsAdmin(v), i);
    assert FindRoute(RouteTable(Rbac.IsOwner(v), Rbac.IsAdmin(v)), PublicRoutes[i].path) == Some(PublicRoutes[i]);
    assert PublicRoutes[i].access == Public;
  }

  /** The sign-in pages come first in the table, each with its own path. */
  lemma PublicInTable(isOwner: bool, isAdmin: bool, i: nat)
    requires i < |PublicRoutes|
    ensures FindPath(RouteTable(isOwner, isAdmin), PublicRoutes[i].path) == Some(PublicRoutes[i])
  {
    var t := RouteTable(isOwner, isAdmin);
    assert t[..4] == PublicRoutes;
    FindPathAt(t, i);
  }

  /** The login page is found whatever the letter case of its path and
      with a slash at its end: a signed-out user on `/LOGIN` or `/login/`
      sees the login page. */
  lemma LoginIgnoresCaseAndSlash(v: Rbac.AccessView)
    requires !v.loading
    ensures Screen(Some(false), true, v, "/LOGIN") == Render(LoginPage)
    ensures Screen(Some(false), true, v, "/login/") == Render(LoginPage)
  {
    LoginPathVariants();
    LoginFound(v, "/LOGIN");
    LoginFound(v, "/login/");
  }

  lemma LoginPathVariants()
    ensures RoutePath("/LOGIN") == "/login" && RoutePath("/login/") == "/login"
  {
    LoginPathIsRoutePath();
    RoutePathIgnoresCaseAndSlash("/login");
    RoutePathIgnoresCaseAndSlash("/LOGIN");
    LowerLogin();
    assert "/login" + "/" == "/login/";
  }

  lemma LoginPathIsRoutePath()
    ensures RoutePath("/login") == "/login"
  {
    RoutePathOfRoute("/login");
  }

  lemma LowerLogin()
    ensures Text.ToLower("/LOGIN") == "/login"
  {
    assert Text.ToLower("/LOGIN") == "/login";
  }

  /** A signed-out user on a path whose route path is `/login` sees the
      login page. */
  lemma LoginFound(v: Rbac.AccessView, path: string)
    requires !v.loading && RoutePath(path) == "/login"
    ensures Screen(Some(false), true, v, path) == Render(LoginPage)
  {
    var t := RouteTable(Rbac.IsOwner(v), Rbac.IsAdmin(v));
    assert t[0] == PublicRoutes[0];
    FindPathAt(t, 0);
  }

  /** A page other than the four sign-in pages is only rendered for a
      signed-in user; a signed-out user on a registered path is sent to
      `/login`. */
  lemma ProtectedNeedsSession(isAuthenticated: Option<bool>, configured: bool, v: Rbac.AccessView, path: string)
    requires isAuthenticated == Some(false)
    ensures var o := Screen(isAuthenticated, configured, v, path);
      (o.Render? ==> o.page in {LoginPage, SignUpPage, ForgotPasswordPage, ResetPasswordPage})
      && (o.Redirect? ==> o.to == "/login")
  {
  }

  /** The four administration pages render only for an approved admin. */
  lemma AdminPagesNeedAdmin(isAuthenticated: Option<bool>, configured: bool, v: Rbac.AccessView, path: string)
    requires Screen(isAuthenticated, configured, v, path).Render?
    requires Screen(isAuthenticated, configured, v, path).page in {AdminPage, LeadsPage, TransactionsPage, WhatsAppPage}
    ensures Rbac.IsAdmin(v) && v.approved
  {
    TablePages(Rbac.IsOwner(v), Rbac.IsAdmin(v), FindRoute(RouteTable(Rbac.IsOwner(v), Rbac.IsAdmin(v)), path).value);
  }

  /** Properties and listings render only for an owner or an admin. */
  lemma OwnerPagesNeedRole(isAuthenticated: Option<bool>, configured: bool, v: Rbac.AccessView, path: string)
    requires Screen(isAuthenticated, configured, v, path).Render?
    requires Screen(isAuthenticated, configured, v, path).page in {PropertiesPage, ListingsPage}
    ensures Rbac.IsOwner(v) || Rbac.IsAdmin(v)
  {
    TablePages(Rbac.IsOwner(v), Rbac.IsAdmin(v), FindRoute(RouteTable(Rbac.IsOwner(v), Rbac.IsAdmin(v)), path).value);
  }

  /** The administration pages are registered only for an admin, and the
      properties and listings pages only for an owner or an admin. */
  lemma TablePages(isOwner: bool, isAdmin: bool, route: Route)
    requires route in RouteTable(isOwner, isAdmin)
    ensures route.page in {AdminPage, LeadsPage, TransactionsPage, WhatsAppPage} ==> isAdmin
    ensures route.page in {PropertiesPage, ListingsPage} ==> isOwner || isAdmin
  {
  }

  /** The common pages are registered whatever the role. */
  lemma CommonPagesAlwaysRegistered(v: Rbac.AccessView, i: nat)
    requires !v.loading && i < |CommonRoutes|
    ensures Screen(Some(true), true, v, CommonRoutes[i].path) == Render(CommonRoutes[i].page)
  {
    var prefix := RoleRoutes(Rbac.IsOwner(v), Rbac.IsAdmin(v));
    RolePaths(Rbac.IsOwner(v), Rbac.IsAdmin(v));
    CommonPaths(i);
    RoutePathOfRoute(CommonRoutes[i].path);
    FindPathAfter(prefix, CommonRoutes, i);
  }

  /** Every route before the common pages has one of the other paths. */
  lemma RolePaths(isOwner: bool, isAdmin: bool)
    ensures forall j :: 0 <= j < |RoleRoutes(isOwner, isAdmin)| ==> RoleRoutes(isOwner, isAdmin)[j].path in OtherPaths
  {
  }

  /** A common page's path is none of the other paths and is not repeated
      before it; the page is protected. */
  lemma CommonPaths(i: nat)
    requires i < |CommonRoutes|
    ensures CommonRoutes[i].path !in OtherPaths && CommonRoutes[i].access == Protected
    ensures forall j :: 0 <= j < i ==> CommonRoutes[j].path != CommonRoutes[i].path
  {
  }

  /** The paths of the routes other than the common pages. */
  const OtherPaths: set<string> := {
    "/login", "/signup", "/forgot-password", "/reset-password", "/",
    "/properties", "/listings", "/admin", "/leads", "/transactions", "/whatsapp"}

  /** A route of the second part whose path the first part and the routes
      before it do not have is the one found. */
  lemma {:induction false} FindPathAfter(prefix: seq<Route>, routes: seq<Route>, i: nat)
    requires i < |routes|
    requires forall j :: 0 <= j < |prefix| ==> prefix[j].path != routes[i].path
    requires forall j :: 0 <= j < i ==> routes[j].path != routes[i].path
    ensures FindPath(prefix + routes, routes[i].path) == Some(routes[i])
  {
    if prefix == [] {
      assert prefix + routes == routes;
      FindPathAt(routes, i);
    } else {
      assert (prefix + routes)[1..] == prefix[1..] + routes;
      FindPathAfter(prefix[1..], routes, i);
    }
  }

  /** The route found is the first one with the path. */
  lemma FindPathAt(routes: seq<Route>, k: nat)
    requires k < |routes|
    requires forall j :: 0 <= j < k ==> routes[j].path != routes[k].path
    ensures FindPath(routes, routes[k].path) == Some(routes[k])
  {
    if k > 0 {
      FindPathAt(routes[1..], k - 1);
    }
  }
}
