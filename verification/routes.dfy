/**
 The route table of the application shell and the `ProtectedRoutes` guard:
 a pure decision from the session flag and the requested pathname to either
 a rendered view or a redirect, plus the chasing of redirects through the
 browser history.
 */
module Routes {
  import opened Wrappers

  const HomePath: string := "/"
  const LoginPath: string := "/login"
  const SignupPath: string := "/signup"

  /** The terminal views: the Main layout with Home as its child, the Login page, the "Invalid path" text. */
  datatype View = MainHome | LoginPage | InvalidPath

  /**
   Render a view, or a `<Navigate>` to `target`; `replace` says whether the
   current history entry is replaced instead of pushed, and `from` is the
   location state carried along.
   */
  datatype Outcome = Render(view: View) | Redirect(target: string, replace: bool, from: Option<string>)

  /**
   `ProtectedRoutes`: logged in, the nested outlet renders unchanged; logged
   out, a replacing redirect to the login page that remembers the requested
   pathname.
   */
  function Guard(isLoggedIn: bool, pathname: string, outlet: View): (o: Outcome)
    ensures o.Render? <==> isLoggedIn
    ensures o.Render? ==> o.view == outlet
    ensures o.Redirect? ==> o.target == LoginPath && o.replace && o.from == Some(pathname)
  {
    if isLoggedIn then Render(outlet) else Redirect(LoginPath, true, Some(pathname))
  }

  /**
   The route table. The pathless layout route around "/" mounts the guard
   only when logged in and otherwise navigates (pushing, no state) to the
   login page; "/login" is the Login page unless logged in; "/signup" always
   goes to the login page; everything else is the "Invalid path" view.
   */
  function Route(isLoggedIn: bool, path: string): Outcome {
    if path == HomePath then
      if isLoggedIn then Guard(isLoggedIn, path, MainHome) else Redirect(LoginPath, false, None)
    else if path == LoginPath then
      if !isLoggedIn then Render(LoginPage) else Redirect(HomePath, false, None)
    else if path == SignupPath then
      Redirect(LoginPath, false, None)
    else
      Render(InvalidPath)
  }

  /** The route table, path by path, with the guard composed away. */
  lemma RouteTable(isLoggedIn: bool, path: string)
    ensures path == "/" && !isLoggedIn ==> Route(isLoggedIn, path) == Redirect("/login", false, None)
    ensures path == "/" && isLoggedIn ==> Route(isLoggedIn, path) == Render(MainHome)
    ensures path == "/login" && !isLoggedIn ==> Route(isLoggedIn, path) == Render(LoginPage)
    ensures path == "/login" && isLoggedIn ==> Route(isLoggedIn, path) == Redirect("/", false, None)
    ensures path == "/signup" ==> Route(isLoggedIn, path) == Redirect("/login", false, None)
    ensures path !in {"/", "/login", "/signup"} ==> Route(isLoggedIn, path) == Render(InvalidPath)
  {
  }

  /**
   The guard is only mounted under a true flag, so its redirect branch is
   unreachable: no route produces a replacing redirect or carries a `from`
   state, and on "/" the route equals the outer decision alone.
   */
  lemma GuardRedirectUnreachable(isLoggedIn: bool, path: string)
    ensures Route(isLoggedIn, path).Redirect? ==> !Route(isLoggedIn, path).replace
    ensures Route(isLoggedIn, path).Redirect? ==> Route(isLoggedIn, path).from.None?
    ensures path == HomePath ==>
      Route(isLoggedIn, path) == (if isLoggedIn then Render(MainHome) else Redirect(LoginPath, false, None))
  {
  }

  /** Following a redirect: a replacing one overwrites the current entry, any other pushes. */
  function Follow(history: seq<string>, target: string, replace: bool): (h: seq<string>)
    requires |history| > 0
    ensures |h| > 0 && h[|h| - 1] == target
    ensures replace ==> |h| == |history| && h[..|h| - 1] == history[..|history| - 1]
    ensures !replace ==> h[..|h| - 1] == history
  {
    if replace then history[..|history| - 1] + [target] else history + [target]
  }

  datatype Resolution = Resolved(view: View, hops: nat, history: seq<string>) | Unresolved

  /**
   Chase redirects from the current (last) history entry, following at most
   `fuel` of them.
   */
  function Chase(isLoggedIn: bool, history: seq<string>, fuel: nat): (r: Resolution)
    requires |history| > 0
    ensures r.Resolved? ==> r.hops <= fuel && |r.history| > 0
    ensures r.Resolved? ==> Route(isLoggedIn, r.history[|r.history| - 1]) == Render(r.view)
    decreases fuel
  {
    match Route(isLoggedIn, history[|history| - 1])
    case Render(v) => Resolved(v, 0, history)
    case Redirect(target, replace, _) =>
      if fuel == 0 then Unresolved
      else
        match Chase(isLoggedIn, Follow(history, target, replace), fuel - 1)
        case Resolved(v, n, h) => Resolved(v, n + 1, h)
        case Unresolved => Unresolved
  }

  /**
   Every request settles on a rendered view within two redirects; it is never
   the Login page when logged in and never Main/Home when logged out; the
   history grows by at most one entry per redirect.
   */
  lemma ChaseSettlesWithinTwoHops(isLoggedIn: bool, history: seq<string>)
    requires |history| > 0
    ensures Chase(isLoggedIn, history, 2).Resolved?
    ensures isLoggedIn ==> Chase(isLoggedIn, history, 2).view != LoginPage
    ensures !isLoggedIn ==> Chase(isLoggedIn, history, 2).view != MainHome
    ensures |Chase(isLoggedIn, history, 2).history| <= |history| + Chase(isLoggedIn, history, 2).hops
  {
  }

  /** The bound is tight: a logged-in request for "/signup" needs both redirects. */
  lemma SignupWhenLoggedInNeedsTwoHops()
    ensures Chase(true, [SignupPath], 1).Unresolved?
    ensures Chase(true, [SignupPath], 2) == Resolved(MainHome, 2, [SignupPath, LoginPath, HomePath])
  {
  }

}
