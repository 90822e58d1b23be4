/**
 The whole page: the browser's storage and pending navigations, the current
 location, and the session monitor of the loaded document. A full-page
 navigation (assigning `window.location`) reloads the document: pending
 timers die with it and the provider mounts again from what storage holds.
 Events run with either poll tick: the one written or the corrected one.
 */
module App {
  import opened Wrappers
  import opened Storage
  import Session
  import Routes
  import Logout
  import LoginForm

  datatype Page = Page(browser: Logout.Browser, path: string, monitor: Session.Monitor)

  /** The refresh-token read of the monitor's mount check and poll. */
  function StoredRefresh(b: Logout.Browser): Option<string> {
    GetItem(b.local, RefreshTokenKey)
  }

  /**
   A document load at `path`: storage survives, the old document's timers
   do not, and the monitor is logged in exactly when storage holds a truthy
   refresh token.
   */
  function Load(b: Logout.Browser, path: string): (p: Page)
    ensures p.browser.local == b.local && p.browser.session == b.session
    ensures p.browser.pending == []
    ensures p.path == path
    ensures p.monitor.isLoggedIn <==> HasRefreshToken(b.local)
    ensures p.monitor.interval.Some?
  {
    Page(b.(pending := []), path, Session.Mount(StoredRefresh(b)))
  }

  /**
   What the user sees at the current location of a mounted document, after
   the router has chased its redirects with the current flag.
   */
  function Screen(p: Page): (r: Routes.Resolution)
    ensures r.Resolved?
    ensures p.monitor.isLoggedIn ==> r.view != Routes.LoginPage
    ensures !p.monitor.isLoggedIn ==> r.view != Routes.MainHome
  {
    Routes.ChaseSettlesWithinTwoHops(p.monitor.isLoggedIn, [p.path]);
    Routes.Chase(p.monitor.isLoggedIn, [p.path], 2)
  }

  /**
   The first commit of a loaded document: the flag still holds the value
   `useState` starts with, because the mount check is an effect that runs
   only after this commit. A redirect rendered here is pushed by its own
   effect in the same commit.
   */
  function FirstCommit(path: string): (o: Routes.Outcome)
    ensures o.Redirect? <==> path == Routes.HomePath || path == Routes.SignupPath
    ensures o.Redirect? ==> o == Routes.Redirect(Routes.LoginPath, false, None)
    ensures path == Routes.LoginPath ==> o == Routes.Render(Routes.LoginPage)
  {
    Routes.Route(Session.Initial.isLoggedIn, path)
  }

  /** The history after the first commit: the loaded path, plus the location its redirect pushed. */
  function FirstHistory(path: string): (h: seq<string>)
    ensures |h| > 0 && h[0] == path
  {
    match FirstCommit(path)
    case Render(_) => [path]
    case Redirect(target, replace, _) => Routes.Follow([path], target, replace)
  }

  /**
   What a document load at `path` ends on: the first commit's redirect, then
   the router chasing from that history with the mounted flag. The final
   view is the one `Screen` gives the loaded page; only the route taken and
   the history differ.
   */
  function LoadScreen(b: Logout.Browser, path: string): (r: Routes.Resolution)
    ensures r.Resolved? && |r.history| > 0 && r.history[0] == path
    ensures r.view == Screen(Load(b, path)).view
    ensures r.hops <= 3
  {
    var history := FirstHistory(path);
    var flag := Load(b, path).monitor.isLoggedIn;
    Routes.ChaseSettlesWithinTwoHops(flag, history);
    Routes.ChaseSettlesWithinTwoHops(flag, [path]);
    match Routes.Chase(flag, history, 2)
    case Resolved(v, n, h) => Routes.Resolved(v, n + |history| - 1, h)
    case Unresolved => Routes.Unresolved
  }

  /**
   A logged-in load of "/" detours through "/login": the first commit
   redirects with the flag still false, and once mounted "/login" redirects
   back. A logged-in load of "/login" shows the Login page for one commit.
   */
  lemma LoggedInLoadDetours(b: Logout.Browser)
    requires HasRefreshToken(b.local)
    ensures LoadScreen(b, Routes.HomePath) == Routes.Resolved(Routes.MainHome, 2, [Routes.HomePath, Routes.LoginPath, Routes.HomePath])
    ensures FirstCommit(Routes.LoginPath) == Routes.Render(Routes.LoginPage)
    ensures LoadScreen(b, Routes.LoginPath) == Routes.Resolved(Routes.MainHome, 1, [Routes.LoginPath, Routes.HomePath])
  {
  }

  /** Which poll tick the page runs: the one written, or the corrected one, which reads the current flag. */
  datatype Tick = AsWritten | Corrected

  function PollWith(tick: Tick, m: Session.Monitor, stored: Option<string>): Session.Monitor {
    match tick
    case AsWritten => Session.PollAsWritten(m, stored)
    case Corrected => Session.Poll(m, stored)
  }

  /**
   ExternalWrite is a write to the shared local area that this document did
   not make: another tab's login or logout, or the developer tools.
   */
  datatype Event =
    | PollTick
    | LogoutRequested
    | NavigationFires
    | LoginReplied(form: LoginForm.Form, reply: LoginForm.LoginReply)
    | Visit(path: string)
    | ExternalWrite(local: Area)

  /**
   One event. A poll tick re-checks storage with the chosen tick; logout
   (from the navbar button or a failed ping) clears storage and schedules
   the navigation; the earliest pending navigation loads its target; a login
   reply may write the tokens and load "/"; visiting a path is client-side
   and reloads nothing; an outside write replaces the local area and nothing
   in the document reacts to it until the next tick.
   */
  function Next(tick: Tick, p: Page, e: Event): (r: Page)
    ensures e.Visit? ==> r.monitor == p.monitor && r.browser == p.browser
    ensures e.LogoutRequested? ==> !HasRefreshToken(r.browser.local) && |r.browser.pending| > 0
    ensures e.ExternalWrite? ==> r.monitor == p.monitor && r.browser.pending == p.browser.pending
    ensures e.PollTick? ==> r.browser == p.browser && r.path == p.path
    ensures e.PollTick? ==> r.monitor.captured == p.monitor.captured && r.monitor.interval == p.monitor.interval
    ensures e.PollTick? ==> (r.monitor.isLoggedIn ==> p.monitor.isLoggedIn)
  {
    match e
    case PollTick =>
      p.(monitor := PollWith(tick, p.monitor, StoredRefresh(p.browser)))
    case LogoutRequested =>
      p.(browser := Logout.Logout(p.browser))
    case NavigationFires =>
      if |p.browser.pending| == 0 then p
      else Load(p.browser, p.browser.pending[0].target)
    case LoginReplied(form, reply) =>
      var o := LoginForm.OnLoginReply(form, p.browser.local, reply);
      var b := p.browser.(local := o.local);
      if o.navigate.Some? then Load(b, o.navigate.value) else p.(browser := b)
    case Visit(path) =>
      p.(path := path)
    case ExternalWrite(local) =>
      p.(browser := p.browser.(local := local))
  }

  function Run(tick: Tick, p: Page, events: seq<Event>): Page
    decreases |events|
  {
    if |events| == 0 then p else Run(tick, Next(tick, p, events[0]), events[1..])
  }

  /**
   The page invariant: the poll is live, every pending navigation is the
   logout navigation, and a logged-in page whose refresh token is gone
   has that navigation pending.
   */
  predicate Recovering(p: Page) {
    && p.monitor.interval.Some?
    && (forall i :: 0 <= i < |p.browser.pending| ==>
          p.browser.pending[i] == Logout.Navigation(Logout.LogoutDelayMs, Routes.LoginPath))
    && (p.monitor.isLoggedIn && !HasRefreshToken(p.browser.local) ==> |p.browser.pending| > 0)
  }

  /** Every document load establishes the invariant. */
  lemma LoadEstablishesRecovering(b: Logout.Browser, path: string)
    ensures Recovering(Load(b, path))
  {
  }

  /**
   With either tick, every event of the document itself preserves the
   invariant: as long as storage is written only by this document, a stale
   logged-in flag is always followed by the logout navigation.
   */
  lemma {:induction false} RunKeepsRecovering(tick: Tick, p: Page, events: seq<Event>)
    requires Recovering(p)
    requires forall i :: 0 <= i < |events| ==> !events[i].ExternalWrite?
    ensures Recovering(Run(tick, p, events))
    decreases |events|
  {
    if |events| > 0 {
      var q := Next(tick, p, events[0]);
      assert Recovering(q);
      RunKeepsRecovering(tick, q, events[1..]);
    }
  }

  /** From any document load, any run of the document's own events keeps the invariant, with either tick. */
  lemma {:induction false} LoadedRunKeepsRecovering(tick: Tick, b: Logout.Browser, path: string, events: seq<Event>)
    requires forall i :: 0 <= i < |events| ==> !events[i].ExternalWrite?
    ensures Recovering(Run(tick, Load(b, path), events))
  {
    LoadEstablishesRecovering(b, path);
    RunKeepsRecovering(tick, Load(b, path), events);
  }

  /**
   An outside clear of a logged-in document breaks the invariant: nothing is
   pending, the as-written tick keeps the document logged in through any
   number of ticks, and the corrected tick logs it out at the first one.
   */
  lemma {:induction false} OutsideClearLeavesStaleSession(b: Logout.Browser, path: string, ticks: seq<Event>)
    requires HasRefreshToken(b.local)
    requires forall i :: 0 <= i < |ticks| ==> ticks[i] == PollTick
    ensures var q := Next(AsWritten, Load(b, path), ExternalWrite(map[]));
      && q.monitor.isLoggedIn && q.browser.pending == [] && !Recovering(q)
      && Run(AsWritten, q, ticks) == q
      && !Next(Corrected, q, PollTick).monitor.isLoggedIn
  {
    var q := Next(AsWritten, Load(b, path), ExternalWrite(map[]));
    AsWrittenTicksChangeNothing(q, ticks);
  }

  lemma {:induction false} AsWrittenTicksChangeNothing(p: Page, ticks: seq<Event>)
    requires !p.monitor.captured
    requires forall i :: 0 <= i < |ticks| ==> ticks[i] == PollTick
    ensures Run(AsWritten, p, ticks) == p
    decreases |ticks|
  {
    if |ticks| > 0 {
      assert Next(AsWritten, p, ticks[0]) == p;
      AsWrittenTicksChangeNothing(p, ticks[1..]);
    }
  }

  /** No refresh token: the session starts logged out and "/" sends the user to the Login page. */
  lemma EmptyStorageShowsLogin(b: Logout.Browser)
    requires b.local == map[]
    ensures !Load(b, "/").monitor.isLoggedIn
    ensures Routes.Route(false, "/") == Routes.Redirect("/login", false, None)
    ensures Screen(Load(b, "/")).view == Routes.LoginPage
  {
  }

  /**
   A 200 login with tokens "a" and "r": storage holds both, the reloaded
   document is logged in and stays so at the next tick of either kind, and
   "/login" now redirects to "/".
   */
  lemma LoginThenLoggedIn(tick: Tick, p: Page, form: LoginForm.Form)
    ensures var q := Next(tick, p, LoginReplied(form, LoginForm.LoginResponse(200, "a", "r")));
      && GetItem(q.browser.local, AccessTokenKey) == Some("a")
      && GetItem(q.browser.local, RefreshTokenKey) == Some("r")
      && q.path == "/"
      && q.monitor.isLoggedIn
      && Next(tick, q, PollTick).monitor.isLoggedIn
      && Routes.Route(q.monitor.isLoggedIn, "/login") == Routes.Redirect("/", false, None)
      && Screen(q).view == Routes.MainHome
      && LoadScreen(q.browser, "/") == Routes.Resolved(Routes.MainHome, 2, ["/", "/login", "/"])
  {
  }

  /**
   Logout from a logged-in document with no earlier navigation pending: the
   corrected tick reports logged out at once, the as-written tick keeps the
   stale flag; with either tick, when the navigation fires the document
   reloads at "/login", logged out, with storage empty, showing the Login page.
   */
  lemma LogoutEndsOnLoginPage(tick: Tick, p: Page)
    requires p.monitor.interval.Some? && p.monitor.isLoggedIn && !p.monitor.captured
    requires p.browser.pending == []
    ensures tick == Corrected ==> !Next(tick, Next(tick, p, LogoutRequested), PollTick).monitor.isLoggedIn
    ensures tick == AsWritten ==> Next(tick, Next(tick, p, LogoutRequested), PollTick).monitor.isLoggedIn
    ensures var q := Next(tick, Next(tick, p, LogoutRequested), NavigationFires);
      && q.path == "/login"
      && !q.monitor.isLoggedIn
      && q.browser.local == map[] && q.browser.session == map[]
      && Screen(q).view == Routes.LoginPage
  {
  }
}
