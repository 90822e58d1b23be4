# LJOSC Discuss client: session, routing, login form and thread view

A Dafny model of the decision rules and small state machines inside the
React client of the LJOSC discussion forum:

- the **credential store** (`localStorage` / `sessionStorage` as maps from key to string) and **logout**;
- the **session monitor** of `AuthProvider`: the mount check and the 500 ms poll, including the value the poll's closure captured;
- the **route table** of the application shell and the `ProtectedRoutes` guard, with redirect chasing through the history;
- the **login/signup form**: both validators as character-class predicates, the submit rule of each mode, the mode-switch reset, field edits, the username derivation, and the login and signup reply handling;
- the **thread view**: the reply panel and its draft, the reply, like and fetch workflows, the message auto-clear timer and the "(author)" marks;
- the **page** as a whole (`App` module): document loads, including the first commit, which routes with the flag still false before the mount check runs (`App.LoadScreen`), poll ticks, logout, login replies and client-side visits, and writes to the shared local storage made outside the document (another tab, the developer tools). Every page event runs with either poll tick, the one written or the corrected one (`App.Tick`).

Everything is immutable data and pure functions. The environment enters as
inputs: what `getItem` returns, how a request ended (a status code reaching
the success handler, or a rejection), a 1 ms timer tick, a click. Requests the
views send are outputs of a step, and their results come back later as events.
In the thread view time is counted in 1 ms ticks. In the page model (`App`) a poll tick is one firing of the 500 ms interval and the logout navigation fires as a separate event, in any order relative to the ticks: the race between the two 500 ms timers is not modelled, every interleaving is allowed.

Modules, one per source file: `Wrappers` (Option), `Storage`, `Logout`
(`src/utils/logout.js`), `Session` (`src/hooks/useAuth.js`), `Routes`
(`src/App.js` and `src/middleware/auth.jsx`), `Validation` and `LoginForm`
(`src/pages/Login/Login.jsx`), `Thread` (`src/components/Thread/Thread.jsx`), `App`
(composition).

Behaviour worth knowing, where the code differs from what its names and comments suggest:

- The poll never logs out, because of a stale closure. This is under Findings.
- A failed reply shows no message. `sendReply` has no rejection handler, so the draft is kept and nothing is shown.
- The outer redirect from "/" to "/login" carries no `from` state. The guard that would carry it is mounted only when logged in.

## Model

| member | source | states |
|---|---|---|
| Storage.StoreTokens | src/pages/Login/Login.jsx:25-26 | the two `Storage.SetItem` writes: both tokens read back under `refreshToken` and `accessToken`, every other key is untouched, and the session signal holds iff the refresh token is non-empty |
| Logout.Logout | src/utils/logout.js:1-9 | after `Storage.Clear` on both areas no key of either area reads back (both tokens absent), both areas are empty, and exactly one navigation, to `/login` after 500 ms, is added to the pending ones |
| Logout.ClearedBeforeScheduled | src/utils/logout.js:2-8 | the scheduling statement is the last and only one; the statements before it already leave both areas empty and schedule nothing |
| Session.Mount | src/hooks/useAuth.js:12-28 | the flag is true iff the stored refresh token is present and non-empty (an empty string leaves it false); the closure captures `false`; a 500 ms interval starts |
| Session.PollAsWritten | src/hooks/useAuth.js:23-31 | a tick never sets the flag; it clears it iff the interval is live, the flag is true, the captured value is true and the token is not truthy |
| Session.Poll | src/hooks/useAuth.js:23-28 | corrected tick: on a live interval the flag afterwards is true iff it was true and the token is truthy; it never moves LoggedOut to LoggedIn; a cleared interval changes nothing |
| Session.Unmount | src/hooks/useAuth.js:30 | cleanup clears the interval and keeps the flag |
| Session.StalePollNeverFires | src/hooks/useAuth.js:12-31 | after mount, no run of as-written ticks changes the monitor, whatever storage holds |
| Session.StaleTokenRemovalMissed | src/hooks/useAuth.js:19-27 | mounted with token "r" and then the token removed: the as-written tick keeps LoggedIn, the corrected tick gives LoggedOut |
| Session.PollsNeverLogIn | src/hooks/useAuth.js:23-27 | after any run of corrected ticks the flag is true only if it was true before |
| Session.PollsTrackLatestTick | src/hooks/useAuth.js:23-28 | after a non-empty run of corrected ticks the flag is true iff it was true and every tick saw a truthy token; so only if the latest did |
| Session.NoPollAfterUnmount | src/hooks/useAuth.js:23-30 | after unmount no run of ticks, as written or corrected, changes the monitor |
| Routes.Guard | src/middleware/auth.jsx:5-13 | renders the outlet unchanged iff logged in; otherwise a replacing redirect to `/login` whose `from` is the requested pathname |
| Routes.RouteTable | src/App.js:21-34 | `Routes.Route`, the route table: "/" redirects to `/login` logged out and renders Main/Home logged in; `/login` renders Login logged out and redirects to "/" logged in; `/signup` always redirects to `/login`; any other path renders "Invalid path" |
| Routes.GuardRedirectUnreachable | src/App.js:22-28 | no route yields a replacing redirect or a `from` state, and on "/" the route equals the outer decision alone |
| Routes.Follow | src/middleware/auth.jsx:12 | the target becomes the current entry; a replacing redirect keeps the history length and earlier entries, a pushing one keeps the whole history before it |
| Routes.Chase | src/App.js:21-34 | a resolution uses at most the given number of redirects and ends at an entry whose route renders the resolved view |
| Routes.ChaseSettlesWithinTwoHops | src/App.js:22-34 | every (flag, history) resolves within two redirects, never to Login when logged in and never to Main/Home when logged out |
| Routes.SignupWhenLoggedInNeedsTwoHops | src/App.js:29-33 | the bound is tight: logged in, `/signup` is unresolved with one redirect and reaches Main/Home via `/login` and "/" with two |
| Validation.PasswordClassIsVisibleAsciiButNine | src/pages/Login/Login.jsx:5 | the password class is exactly visible ASCII except double and single quote, both parentheses, backtick, both braces, vertical bar and tilde, because `*-_` is the range 0x2A to 0x5F |
| Validation.LocalClassIsVisibleAsciiButEleven | src/pages/Login/Login.jsx:6-7 | the local-part class is exactly visible ASCII except double quote, both parentheses, colon, semicolon, angle brackets, '@', square brackets and backslash, because `+-/` is a range; it excludes '@' |
| Validation.TestPassword | src/pages/Login/Login.jsx:5 | the scan, like `Validation.IsValidPassword`, accepts iff the password has at least 8 characters, all in the password class; an accepted password is visible ASCII |
| Validation.ValidEmailIffRegexMatches | src/pages/Login/Login.jsx:6-7 | the first-'@' / last-'.' test `Validation.IsValidEmail` accepts exactly the texts for which some split into local part, '@', 2+ domain characters, '.', 2+ letters exists |
| Validation.ValidEmailHasOneAt | src/pages/Login/Login.jsx:6-7 | an accepted email contains '@' and every '@' in it is at the first '@' position, so there is exactly one |
| Validation.Username | src/pages/Login/Login.jsx:48 | the result is a prefix of the email without '@', followed in the email by '@' unless it is the whole email |
| Validation.UsernameOfValidEmail | src/pages/Login/Login.jsx:48 | for an accepted email the username is non-empty, has no '@', and the email is username, '@', and a valid domain |
| LoginForm.SwitchMode | src/pages/Login/Login.jsx:76-83 | choosing the current mode changes nothing; choosing the other mode empties every field, with `confirmPassword` present iff Signup, and clears the message |
| LoginForm.Edit | src/pages/Login/Login.jsx:85-88 | the named field reads back the new value; every other field, the mode and the message are unchanged |
| LoginForm.Dismiss | src/pages/Login/Login.jsx:161 | the message is cleared; mode and payload are kept |
| LoginForm.SubmitEnabledIff | src/pages/Login/Login.jsx:230-244 | `LoginForm.SubmitEnabled`, in Login mode: enabled iff the email is valid and the password non-empty; Signup: enabled iff the email and the password are valid and the confirmation equals the password |
| LoginForm.LoginIgnoresPasswordRule | src/pages/Login/Login.jsx:238-242 | in Login mode the password rule is not applied: the one-character password "x" is submittable |
| LoginForm.Submit | src/pages/Login/Login.jsx:90-96 | a request is sent iff submit is enabled; it carries the form's email and password; it is a login request iff in Login mode; a signup request's username is non-empty, has no '@' and precedes the email's '@' |
| LoginForm.OnLoginReply | src/pages/Login/Login.jsx:22-41 | on 200 both tokens are stored, the success message is set and the page goes to "/"; otherwise storage is untouched and there is no navigation; a rejection sets only the failure message; other statuses change nothing |
| LoginForm.OnSignupReply | src/pages/Login/Login.jsx:52-66 | 201 sets "Registration successful", a rejection sets "Account already registered!", other statuses change nothing; the mode and payload are kept |
| LoginForm.RunKeepsShape | src/pages/Login/Login.jsx:76-88 | from the first render, through any mode choices, typing into rendered inputs, closes and replies, the payload has a confirmation exactly in Signup mode |
| Thread.Mount | src/components/Thread/Thread.jsx:10-83 | the view carries the mounted id and the cleared `{}` message; nothing loaded, panel closed, empty draft, the reset timer armed at 2000 ms, and the thread requested |
| Thread.SetMessage | src/components/Thread/Thread.jsx:21-30 | a new message restarts the single timer at 2000 ms and changes nothing else |
| Thread.ToggleResetsDraft | src/components/Thread/Thread.jsx:15-18 | every toggle, opening or closing, flips the panel and empties the draft; nothing else changes |
| Thread.ReopenedPanelIsEmpty | src/components/Thread/Thread.jsx:143 | shown, typed into, hidden, shown again: the draft is empty |
| Thread.LikeSendsNegation | src/components/Thread/Thread.jsx:66-69 | a like click sends `like = !liked` for this thread and changes no state |
| Thread.LikeReplyOutcome | src/components/Thread/Thread.jsx:70-77 | a 201 like reply sends exactly one refetch; any other outcome sends nothing; the state is unchanged either way |
| Thread.SendReplyOutcome | src/components/Thread/Thread.jsx:200-204 | a reply is posted iff the panel is open on a loaded thread and the draft is present and non-empty; it carries the draft; no state changes |
| Thread.ReplyResultOutcome | src/components/Thread/Thread.jsx:48-62 | 201 sets "success", restarts the timer, clears the draft, keeps the thread and refetches; any other outcome, rejection included, changes nothing |
| Thread.FetchOutcome | src/components/Thread/Thread.jsx:33-45 | the thread is replaced iff the fetch ends with status 200; otherwise the view is unchanged |
| Thread.RefetchOnlyAfterSuccess | src/components/Thread/Thread.jsx:48-77 | a refetch is requested only by a 201 reply or a 201 like result |
| Thread.ThreadChangesOnlyOnFetch | src/components/Thread/Thread.jsx:33-45 | a run of events without a 200 fetch ends with the thread it started with |
| Thread.RunKeepsValid | src/components/Thread/Thread.jsx:10-30 | from mount, through any events of the view step `Thread.Next`: one timer is always live with 1 to 2000 ms left, the panel is open only on a loaded thread, and a draft exists only while the panel is open |
| Thread.MessageClearedWhenTimerRunsOut | src/components/Thread/Thread.jsx:21-30 | with n ms left, fewer than n quiet 1 ms ticks (`Thread.TickOnce`) only count down; exactly n ticks reset the message and re-arm a 2000 ms timer |
| Thread.ReplyMessageLastsTwoSeconds | src/components/Thread/Thread.jsx:53-60 | after a successful reply the message state is "success" through 1999 quiet ticks and cleared at 2000; it is shown only while the reply panel is open |
| Thread.Headings | src/components/Thread/Thread.jsx:222-238 | one heading per reply in server order, each with its author's username, marked "(author)" iff the reply's author id equals the thread author's |
| App.Load | src/hooks/useAuth.js:18-22 | a document load keeps storage, drops the old document's timers, and is logged in iff storage holds a truthy refresh token |
| App.Screen | src/App.js:21-34 | in a mounted document the current location always settles on a view: never Login when logged in, never Main/Home when logged out |
| App.FirstCommit | src/App.js:21-34 | the first commit routes with the flag `useState(false)` starts with: "/" and `/signup` push a redirect to `/login`, `/login` renders the Login page, any other path renders |
| App.LoadScreen | src/hooks/useAuth.js:12-22 | a load's first commit follows its redirect, then the mounted flag chases from that history: it always resolves, within three redirects, to the same view `App.Screen` gives the loaded page |
| App.LoggedInLoadDetours | src/App.js:23-31 | logged in, a load of "/" ends on Main/Home with history "/", `/login`, "/" after two redirects, and a load of `/login` shows the Login page for one commit before it redirects to "/" |
| App.Next | src/hooks/useAuth.js:23-28 | a poll tick writes no storage, keeps the location, the captured flag and the interval, and never logs in; a visit changes neither storage nor the monitor; after logout no refresh token is stored and a navigation is pending; an outside write changes neither the monitor nor the pending navigations |
| App.LoadEstablishesRecovering | src/hooks/useAuth.js:18-22 | every document load starts with a live poll, nothing pending, and a logged-in flag only when a refresh token is stored |
| App.RunKeepsRecovering | src/utils/logout.js:5-8 | with either poll tick, through any events of the document itself, every pending navigation is the logout one, and a logged-in page without a refresh token has it pending |
| App.LoadedRunKeepsRecovering | src/hooks/useAuth.js:18-28 | from any document load, with either poll tick, every run of the document's own events keeps that invariant |
| App.OutsideClearLeavesStaleSession | src/hooks/useAuth.js:23-28 | after an outside clear of a logged-in document nothing is pending and the invariant fails; the as-written tick leaves the page logged in through any number of ticks, the corrected tick logs it out at the first |
| App.AsWrittenTicksChangeNothing | src/hooks/useAuth.js:25 | with the captured flag false, any number of as-written ticks leave the page exactly as it was |
| App.EmptyStorageShowsLogin | src/App.js:22-27 | with empty storage the session starts logged out and "/" ends on the Login page |
| App.LoginThenLoggedIn | src/pages/Login/Login.jsx:23-32 | after a 200 login with tokens "a"/"r" storage holds both, the reload at "/" detours through `/login` (history "/", `/login`, "/") and is logged in and stays so at the next tick of either kind, and `/login` redirects to "/" |
| App.LogoutEndsOnLoginPage | src/utils/logout.js:1-9 | after logout the next corrected tick reports logged out while the as-written tick keeps the stale flag; with either tick, when the navigation fires the page reloads at `/login`, logged out, storage empty, on the Login page |

## Left out

- Markup, CSS classes and the Tailwind configuration: presentation only.
- The Markdown editor and renderer and the sanitizer: library code. Draft and reply content are opaque strings.
- The HTTP client: library code. Each request ends as an input: a status code that reached the success handler, or a rejection. Which statuses the client rejects is decided by that client.
- Console logging: no observable effect.
- `setProfile(user)` on a successful login: the profile provider only holds a value.
- `localStorage.setItem` turns a missing token into the string "undefined". Tokens are modelled as strings, so this coercion is not modelled.
- Route matching is exact string equality. The router's case-insensitive and trailing-slash matching is library behaviour.
- Routes.Chase takes a redirect budget (fuel). Routes.ChaseSettlesWithinTwoHops shows a budget of two resolves every input, so the budget leaves nothing out.
- The Home page is a single fetch-and-replace. Its filter and "New Thread" buttons have no handlers.
- The Main page's only logic is "ping failure, then logout". It appears as the `LogoutRequested` event of `App.Next`.
- The Navbar only wires its button to logout.
- `setIsLoggedIn` is exposed through the auth context, but no code calls it. Login reaches the logged-in state only through the full reload to "/".
- In-flight requests are never cancelled. A result arriving later is applied as an event to whatever state the view then has, which matches the code.
- Thread fields the view does not read (views, reach, reply count) are not modelled.

## Findings

| source | as written | input that shows it | evidently intended | confidence | as-written member | corrected member |
|---|---|---|---|---|---|---|
| src/hooks/useAuth.js:25 | the poll tests the `isLoggedIn` captured by the mount-only effect (empty dependency list, line 31), which is always the initial `false`, so it never clears the flag | mount with refreshToken "r", then clear storage (logout): every later tick leaves the flag true until the document reloads | a tick clears the flag once the token is gone while logged in (the 500 ms logout delay relies on it) | high; not executed | Session.PollAsWritten (Session.StalePollNeverFires, Session.StaleTokenRemovalMissed) | Session.Poll (Session.PollsTrackLatestTick; App.Next runs either tick) |
