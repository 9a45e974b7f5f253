/** The route guard for `/admin` paths: a signed-in visitor on the login
    page is sent to the dashboard, a visitor who is not signed in is sent
    from the dashboard to the login page, and everything else passes. The
    session lookup is the boolean `isAuth`. */
module AdminGuard {

  const LoginPath: string := "/admin"
  const DashboardPath: string := "/admin/dashboard"

  datatype Decision = Redirect(target: string) | Next

  /** The login page itself: shorter than the dashboard prefix, so never a
      dashboard path. */
  function IsLoginPage(path: string): (r: bool)
    ensures r ==> |path| < |DashboardPath|
  {
    path == LoginPath
  }

  /** `startsWith("/admin/dashboard")`. */
  function IsDashboard(path: string): (r: bool)
    ensures r <==> |path| >= |DashboardPath| && path[..|DashboardPath|] == DashboardPath
  {
    DashboardPath <= path
  }

  function Middleware(path: string, isAuth: bool): (d: Decision)
    ensures d == Redirect(DashboardPath) <==> IsLoginPage(path) && isAuth
    ensures d == Redirect(LoginPath) <==> IsDashboard(path) && !isAuth
    ensures d == Next <==> !(IsLoginPage(path) && isAuth) && !(IsDashboard(path) && !isAuth)
  {
    if IsLoginPage(path) && isAuth then Redirect(DashboardPath)
    else if IsDashboard(path) && !isAuth then Redirect(LoginPath)
    else Next
  }

  /** The login page is not a dashboard path, so at most one redirect
      condition holds for any request. */
  lemma LoginPageIsNotDashboard(path: string)
    ensures !(IsLoginPage(path) && IsDashboard(path))
  {
    if IsLoginPage(path) {
      assert |path| < |DashboardPath|;
    }
  }

  /** No redirect loop: the page a request is sent to passes the guard
      with the same session. */
  lemma NoRedirectLoop(path: string, isAuth: bool)
    ensures Middleware(path, isAuth).Redirect? ==> Middleware(Middleware(path, isAuth).target, isAuth) == Next
  {
    LoginPageIsNotDashboard(LoginPath);
  }

  /** Every path under the dashboard is closed to visitors who are not
      signed in, and open to those who are. */
  lemma DashboardSubpathsGuarded(suffix: string, isAuth: bool)
    ensures Middleware(DashboardPath + suffix, isAuth) == (if isAuth then Next else Redirect(LoginPath))
  {
    assert DashboardPath <= DashboardPath + suffix;
    LoginPageIsNotDashboard(DashboardPath + suffix);
  }
}
