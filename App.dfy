/**
 * The router: which paths exist, which are behind the session guard, and what the
 * guard shows for each authentication state.
 */
module App {
  import opened Wrappers
  import opened Text

  /** What `ProtectedRoute` renders. */
  datatype GuardOutcome = ShowLoading | Redirect(to: string, replace: bool) | RenderChildren

  /** `ProtectedRoute`: loading first, then no session, then the protected page. */
  function ProtectedRoute(loading: bool, hasSession: bool): (r: GuardOutcome)
    ensures r.ShowLoading? <==> loading
    ensures r.RenderChildren? <==> !loading && hasSession
    ensures r.Redirect? <==> !loading && !hasSession
    ensures r.Redirect? ==> r == Redirect("/login", true)
  {
    if loading then ShowLoading
    else if !hasSession then Redirect("/login", true)
    else RenderChildren
  }

  datatype Page = LoginPage | DashboardPage | GifteeDetailPage(id: string)

  datatype Route = Route(page: Page, guarded: bool)

  /** The non-empty `/`-separated segments of a path. */
  function Segments(path: string): seq<string> {
    NonEmptySegments(Split(path, '/'))
  }

  function NonEmptySegments(parts: seq<string>): (r: seq<string>)
    ensures forall k | 0 <= k < |r| :: r[k] != [] && r[k] in parts
  {
    if parts == [] then []
    else if parts[0] == [] then NonEmptySegments(parts[1..])
    else [parts[0]] + NonEmptySegments(parts[1..])
  }

  /** The route table: `/login`, `/` and `/giftee/:id`; the last two are guarded. */
  function MatchRoute(path: string): Option<Route> {
    var segs := Segments(path);
    if segs == [] then Some(Route(DashboardPage, true))
    else if segs == ["login"] then Some(Route(LoginPage, false))
    else if |segs| == 2 && segs[0] == "giftee" then Some(Route(GifteeDetailPage(segs[1]), true))
    else None
  }

  datatype Screen = NotFound | Loading | Navigate(to: string, replace: bool) | Show(page: Page)

  /** What the application shows at `path` in a given authentication state. */
  function Render(path: string, loading: bool, hasSession: bool): Screen {
    match MatchRoute(path)
    case None => NotFound
    case Some(route) =>
      if !route.guarded then Show(route.page)
      else
        match ProtectedRoute(loading, hasSession)
        case ShowLoading => Loading
        case Redirect(to, replace) => Navigate(to, replace)
        case RenderChildren => Show(route.page)
  }

  /** The root path is the guarded dashboard. */
  lemma RootRoute()
    ensures MatchRoute("/") == Some(Route(DashboardPage, true))
  {
    assert "/" == [] + ['/'] + [];
    SplitAtSeparator([], '/', []);
    SplitNoSeparator([], '/');
    assert Segments("/") == [];
  }

  /** A path of one segment matches on that segment alone. */
  lemma OneSegment(x: string)
    requires x != [] && '/' !in x
    ensures Segments("/" + x) == [x]
  {
    assert "/" + x == [] + ['/'] + x;
    SplitAtSeparator([], '/', x);
    SplitNoSeparator(x, '/');
    var parts := Split("/" + x, '/');
    assert parts == [[], x];
    assert parts[1..][1..] == [];
    assert NonEmptySegments(parts[1..]) == [x] + NonEmptySegments([]);
  }

  /** The login path is not guarded. */
  lemma LoginRoute()
    ensures MatchRoute("/login") == Some(Route(LoginPage, false))
  {
    OneSegment("login");
  }

  /** Every `/giftee/<id>` path is a guarded detail page for that id. */
  lemma GifteeRoute(id: string)
    requires id != [] && '/' !in id
    ensures MatchRoute("/giftee/" + id) == Some(Route(GifteeDetailPage(id), true))
  {
    var rest := "giftee" + ['/'] + id;
    assert "/giftee/" + id == [] + ['/'] + rest;
    SplitAtSeparator([], '/', rest);
    SplitAtSeparator("giftee", '/', id);
    SplitNoSeparator(id, '/');
    assert Split(rest, '/') == ["giftee", id];
    var parts := Split("/giftee/" + id, '/');
    assert parts == [[], "giftee", id];
    assert NonEmptySegments(parts[2..]) == [id] by {
      assert parts[2..][1..] == [];
    }
    assert NonEmptySegments(parts[1..]) == ["giftee", id] by {
      assert parts[1..][1..] == parts[2..];
    }
    assert Segments("/giftee/" + id) == ["giftee", id];
  }

  /** No page other than the login page is ever shown without a loaded session. */
  lemma GuardSafety(path: string, loading: bool, hasSession: bool)
    ensures Render(path, loading, hasSession).Show? && Render(path, loading, hasSession).page != LoginPage
      ==> !loading && hasSession
    ensures MatchRoute(path).Some? && MatchRoute(path).value.guarded && !loading && !hasSession
      ==> Render(path, loading, hasSession) == Navigate("/login", true)
    ensures MatchRoute(path).Some? && !MatchRoute(path).value.guarded
      ==> Render(path, loading, hasSession) == Show(LoginPage)
  {
  }
}
