/**
 * A wrapper meant to send a signed-in user onward. No route in App.tsx mounts it
 * (`/login` renders the login page bare), so this is what the redirect would do if used.
 */
module AuthRedirect {
  import opened Wrappers
  import App

  datatype Navigation = Navigation(to: string, replace: bool)

  /** The effect: once loading is over and a session exists, navigate to `/dashboard`, replacing. */
  function RedirectEffect(loading: bool, hasSession: bool): (r: Option<Navigation>)
    ensures r.Some? <==> !loading && hasSession
    ensures r.Some? ==> r.value == Navigation("/dashboard", true)
  {
    if !loading && hasSession then Some(Navigation("/dashboard", true)) else None
  }

  /** Were the wrapper used, its target is not one of the router's paths: it reaches no page. */
  lemma DashboardPathUnrouted(loading: bool)
    ensures App.MatchRoute("/dashboard") == None
    ensures App.Render("/dashboard", loading, true) == App.NotFound
  {
    App.OneSegment("dashboard");
    assert "dashboard" != "login";
  }
}
