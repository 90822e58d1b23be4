/**
 The session monitor (`AuthProvider`): a two-state `isLoggedIn` flag set once
 from storage when the provider mounts, then re-checked by a 500 ms poll
 until the provider unmounts.

 The poll callback is created once, by an effect with no dependencies, so the
 `isLoggedIn` it reads is the value of the first render. The monitor keeps
 that captured value in its own field, `captured`, so that the as-written
 poll can be compared with the evidently intended one.
 */
module Session {
  import opened Wrappers
  import opened Storage

  const PollPeriodMs: nat := 500

  /**
   isLoggedIn: the state the provider broadcasts.
   captured:   the `isLoggedIn` the poll callback closed over.
   interval:   the period of the live `setInterval`, or None once cleared.
   */
  datatype Monitor = Monitor(isLoggedIn: bool, captured: bool, interval: Option<nat>)

  /** The first render, before any effect has run: the flag starts false and no timer exists. */
  const Initial: Monitor := Monitor(false, false, None)

  /**
   The mount effect, given what `getItem("refreshToken")` returned: the flag
   becomes true exactly when that value is truthy (an empty string leaves it
   false), the poll closes over the first render's `false`, and a 500 ms
   interval is started.
   */
  function Mount(stored: Option<string>): (m: Monitor)
    ensures m.isLoggedIn <==> stored.Some? && stored.value != ""
    ensures stored == Some("") ==> !m.isLoggedIn
    ensures !m.captured
    ensures m.interval == Some(500)
  {
    Monitor(Initial.isLoggedIn || Truthy(stored), Initial.isLoggedIn, Some(PollPeriodMs))
  }

  /**
   The poll tick as written: it clears the flag only when the token is not
   truthy AND the captured value is true; it never sets the flag, and it
   does nothing once the interval has been cleared.
   */
  function PollAsWritten(m: Monitor, stored: Option<string>): (r: Monitor)
    ensures r.captured == m.captured && r.interval == m.interval
    ensures r.isLoggedIn ==> m.isLoggedIn
    ensures r.isLoggedIn != m.isLoggedIn
        <==> m.interval.Some? && m.isLoggedIn && m.captured && !Truthy(stored)
  {
    if m.interval.Some? && !Truthy(stored) && m.captured then m.(isLoggedIn := false) else m
  }

  /**
   The poll tick as evidently intended: it reads the current flag, so after a
   tick of a live interval the flag is true exactly when it was true before
   and the token is still truthy. It never moves LoggedOut to LoggedIn.
   */
  function Poll(m: Monitor, stored: Option<string>): (r: Monitor)
    ensures r.captured == m.captured && r.interval == m.interval
    ensures r.isLoggedIn ==> m.isLoggedIn
    ensures m.interval.Some? ==> (r.isLoggedIn <==> m.isLoggedIn && Truthy(stored))
    ensures m.interval.None? ==> r == m
  {
    if m.interval.Some? && !Truthy(stored) && m.isLoggedIn then m.(isLoggedIn := false) else m
  }

  /** Unmount: the effect's cleanup clears the interval; nothing else changes. */
  function Unmount(m: Monitor): (r: Monitor)
    ensures r.interval.None?
    ensures r.isLoggedIn == m.isLoggedIn && r.captured == m.captured
  {
    m.(interval := None)
  }

  /** A run of as-written poll ticks, one per observed `getItem` result. */
  function PollsAsWritten(m: Monitor, observed: seq<Option<string>>): Monitor
    decreases |observed|
  {
    if |observed| == 0 then m else PollsAsWritten(PollAsWritten(m, observed[0]), observed[1..])
  }

  /** A run of intended poll ticks, one per observed `getItem` result. */
  function Polls(m: Monitor, observed: seq<Option<string>>): Monitor
    decreases |observed|
  {
    if |observed| == 0 then m else Polls(Poll(m, observed[0]), observed[1..])
  }

  /**
   The stale closure: once mounted, no run of as-written poll ticks changes
   the monitor, whatever storage holds at each tick.
   */
  lemma {:induction false} StalePollNeverFires(stored: Option<string>, observed: seq<Option<string>>)
    ensures PollsAsWritten(Mount(stored), observed) == Mount(stored)
  {
    CapturedFalseIsFixed(Mount(stored), observed);
  }

  lemma {:induction false} CapturedFalseIsFixed(m: Monitor, observed: seq<Option<string>>)
    requires !m.captured
    ensures PollsAsWritten(m, observed) == m
    decreases |observed|
  {
    if |observed| > 0 {
      CapturedFalseIsFixed(m, observed[1..]);
    }
  }

  /**
   The discrepancy on a concrete input: mounted with a token, then the token
   is removed. The as-written tick keeps the flag true; the intended tick
   clears it.
   */
  lemma StaleTokenRemovalMissed()
    ensures Mount(Some("r")).isLoggedIn
    ensures PollAsWritten(Mount(Some("r")), None).isLoggedIn
    ensures !Poll(Mount(Some("r")), None).isLoggedIn
  {
  }

  /**
   The intended poll never logs in: after any run of ticks the flag is true
   only if it was true before.
   */
  lemma {:induction false} PollsNeverLogIn(m: Monitor, observed: seq<Option<string>>)
    ensures Polls(m, observed).isLoggedIn ==> m.isLoggedIn
    ensures Polls(m, observed).interval == m.interval
    decreases |observed|
  {
    if |observed| > 0 {
      PollsNeverLogIn(Poll(m, observed[0]), observed[1..]);
    }
  }

  /**
   Session derivation: while the interval is live, after a non-empty run of
   intended ticks the flag is true only if the token was truthy at the most
   recent tick, and a logged-in monitor stays logged in exactly as long as
   every tick saw a truthy token.
   */
  lemma {:induction false} PollsTrackLatestTick(m: Monitor, observed: seq<Option<string>>)
    requires m.interval.Some?
    requires |observed| > 0
    ensures Polls(m, observed).isLoggedIn ==> Truthy(observed[|observed| - 1])
    ensures Polls(m, observed).isLoggedIn
        <==> m.isLoggedIn && forall i :: 0 <= i < |observed| ==> Truthy(observed[i])
    decreases |observed|
  {
    var m1 := Poll(m, observed[0]);
    if |observed| == 1 {
      assert Polls(m1, observed[1..]) == m1;
    } else {
      PollsTrackLatestTick(m1, observed[1..]);
      assert observed[1..][|observed[1..]| - 1] == observed[|observed| - 1];
      assert forall i :: 1 <= i < |observed| ==> observed[i] == observed[1..][i - 1];
    }
  }

  /** No timer outlives the provider: after unmount, ticks of either poll change nothing. */
  lemma {:induction false} NoPollAfterUnmount(m: Monitor, observed: seq<Option<string>>)
    ensures Polls(Unmount(m), observed) == Unmount(m)
    ensures PollsAsWritten(Unmount(m), observed) == Unmount(m)
    decreases |observed|
  {
    if |observed| > 0 {
      NoPollAfterUnmount(m, observed[1..]);
    }
  }
}
