/**
 The logout utility: both storage areas are cleared synchronously, then a
 navigation to the login page is scheduled after a fixed delay.
 */
module Logout {
  import opened Storage
  import Routes

  const LogoutDelayMs: nat := 500

  /** A pending `setTimeout` whose callback assigns `window.location`. */
  datatype Navigation = Navigation(delayMs: nat, target: string)

  /** The browser state logout touches: both storage areas and the page's pending navigations. */
  datatype Browser = Browser(local: Area, session: Area, pending: seq<Navigation>)

  /** One statement of the logout body. */
  datatype Effect = ClearLocal | ClearSession | Schedule(nav: Navigation)

  /** The logout body, statement by statement, in source order. */
  const LogoutSteps: seq<Effect> :=
    [ClearLocal, ClearSession, Schedule(Navigation(LogoutDelayMs, Routes.LoginPath))]

  function Perform(b: Browser, e: Effect): Browser {
    match e
    case ClearLocal => b.(local := Clear(b.local))
    case ClearSession => b.(session := Clear(b.session))
    case Schedule(nav) => b.(pending := b.pending + [nav])
  }

  function PerformAll(b: Browser, steps: seq<Effect>): Browser
    decreases |steps|
  {
    if |steps| == 0 then b else PerformAll(Perform(b, steps[0]), steps[1..])
  }

  /**
   Logout: every key of both areas is gone (in particular both tokens), and
   exactly one navigation is added, to the login page after 500 ms.
   */
  function Logout(b: Browser): (r: Browser)
    ensures forall k :: GetItem(r.local, k).None?
    ensures GetItem(r.local, RefreshTokenKey).None? && GetItem(r.local, AccessTokenKey).None?
    ensures !HasRefreshToken(r.local)
    ensures forall k :: GetItem(r.session, k).None?
    ensures r.local == map[] && r.session == map[]
    ensures r.pending == b.pending + [Navigation(500, "/login")]
  {
    LogoutStepsEffect(b);
    PerformAll(b, LogoutSteps)
  }

  /** Running the three statements in order empties both areas and appends the one navigation. */
  lemma {:induction false} LogoutStepsEffect(b: Browser)
    ensures PerformAll(b, LogoutSteps)
         == Browser(map[], map[], b.pending + [Navigation(LogoutDelayMs, Routes.LoginPath)])
  {
    var nav := Navigation(LogoutDelayMs, Routes.LoginPath);
    var b1 := Perform(b, ClearLocal);
    var b2 := Perform(b1, ClearSession);
    var b3 := Perform(b2, Schedule(nav));
    assert LogoutSteps[1..] == [ClearSession, Schedule(nav)];
    assert LogoutSteps[1..][1..] == [Schedule(nav)];
    assert LogoutSteps[1..][1..][1..] == [];
    calc {
      PerformAll(b, LogoutSteps);
      PerformAll(b1, [ClearSession, Schedule(nav)]);
      PerformAll(b2, [Schedule(nav)]);
      PerformAll(b3, []);
    }
  }

  /**
   Storage is cleared before the navigation is scheduled: the statements that
   precede the only scheduling statement already leave both areas empty and
   schedule nothing, and the scheduled navigation is the only one the body adds.
   */
  lemma {:induction false} ClearedBeforeScheduled(b: Browser)
    ensures LogoutSteps[|LogoutSteps| - 1] == Schedule(Navigation(LogoutDelayMs, Routes.LoginPath))
    ensures forall i :: 0 <= i < |LogoutSteps| - 1 ==> !LogoutSteps[i].Schedule?
    ensures var before := PerformAll(b, LogoutSteps[..|LogoutSteps| - 1]);
      before.local == map[] && before.session == map[] && before.pending == b.pending
  {
    var prefix := LogoutSteps[..|LogoutSteps| - 1];
    assert prefix == [ClearLocal, ClearSession];
    assert prefix[1..] == [ClearSession];
    var b1 := Perform(b, ClearLocal);
    assert PerformAll(b, prefix) == PerformAll(b1, [ClearSession]);
    assert [ClearSession][1..] == [];
  }
}
