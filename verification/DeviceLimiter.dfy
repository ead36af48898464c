/** The gatehouse devices' limiter (src/dispositivos.ts, lines 175-222): at most twenty attempts
    in any sixty seconds, with a wait that doubles while the device keeps hitting the limit. */
module DeviceLimiter {
  import opened Optional

  const LIMIT: nat := 20
  const WINDOW_MS: int := 60_000
  const INITIAL_BACKOFF_SECONDS: nat := 15
  const MAX_BACKOFF_SECONDS: nat := 300
  const MAX_LEVEL: nat := 5

  datatype State = State(attempts: seq<int>, blockedUntil: Option<int>, level: nat)

  datatype Result = Allowed(remaining: int) | Refused(retryAfterSeconds: int)

  datatype Decision = Decision(result: Result, next: State)

  const IDLE: State := State([], None, 0)

  function Min(a: int, b: int): int {
    if a <= b then a else b
  }

  function Power2(n: nat): (p: nat)
    ensures p >= 1
  {
    if n == 0 then 1 else 2 * Power2(n - 1)
  }

  function Backoff(level: nat): (seconds: int)
    ensures INITIAL_BACKOFF_SECONDS <= seconds <= MAX_BACKOFF_SECONDS
  {
    Min(INITIAL_BACKOFF_SECONDS * Power2(level), MAX_BACKOFF_SECONDS)
  }

  /** The attempts of the last minute, in order. */
  function Recent(attempts: seq<int>, now: int): seq<int> {
    if attempts == [] then []
    else
      var init := Recent(attempts[..|attempts| - 1], now);
      if attempts[|attempts| - 1] > now - WINDOW_MS then init + [attempts[|attempts| - 1]] else init
  }

  /** Whole seconds until `until`, rounded up, at least one. */
  function SecondsUntil(until: int, now: int): int {
    var seconds := (until - now + 999) / 1000;
    if seconds < 1 then 1 else seconds
  }

  function Decide(s: State, now: int): Decision {
    if s.blockedUntil.Some? && s.blockedUntil.value > now then
      Decision(Refused(SecondsUntil(s.blockedUntil.value, now)), s)
    else
      var recent := Recent(s.attempts, now);
      if |recent| >= LIMIT then
        Decision(Refused(Backoff(s.level)),
                 State(recent, Some(now + Backoff(s.level) * 1000), Min(s.level + 1, MAX_LEVEL)))
      else
        Decision(Allowed(LIMIT - |recent| - 1), State(recent + [now], None, if recent == [] then 0 else s.level))
  }

  class DeviceRateLimiter {
    var states: map<string, State>

    constructor ()
      ensures states == map[]
    {
      states := map[];
    }

    method Consume(device: string, now: int) returns (result: Result)
      modifies this
      ensures var s := if device in old(states) then old(states)[device] else IDLE;
              result == Decide(s, now).result && states == old(states)[device := Decide(s, now).next]
    {
      var s := IDLE;
      if device in states { s := states[device]; }
      var decision := Decide(s, now);
      states := states[device := decision.next];
      result := decision.result;
    }
  }

  // ----- One device's run -----

  datatype Run = Run(state: State, allowed: seq<int>)

  /** The state and the allowed attempts after attempts at these times. */
  function After(times: seq<int>): Run {
    if times == [] then Run(IDLE, [])
    else
      var before, now := After(times[..|times| - 1]), times[|times| - 1];
      var decision := Decide(before.state, now);
      Run(decision.next, if decision.result.Allowed? then before.allowed + [now] else before.allowed)
  }

  ghost predicate Ascending(times: seq<int>) {
    forall i, j | 0 <= i < j < |times| :: times[i] <= times[j]
  }

  /** How many of the times are in [from, to). */
  function Within(times: seq<int>, from: int, to: int): nat {
    if times == [] then 0
    else Within(times[..|times| - 1], from, to) + if from <= times[|times| - 1] < to then 1 else 0
  }

  lemma {:induction false} RecentCounts(attempts: seq<int>, now: int, to: int)
    requires forall i | 0 <= i < |attempts| :: attempts[i] < to
    ensures |Recent(attempts, now)| == Within(attempts, now - WINDOW_MS + 1, to)
  {
    if attempts != [] { RecentCounts(attempts[..|attempts| - 1], now, to); }
  }

  lemma {:induction false} RecentMembers(attempts: seq<int>, now: int)
    ensures forall i | 0 <= i < |Recent(attempts, now)| :: Recent(attempts, now)[i] in attempts
    ensures forall i | 0 <= i < |Recent(attempts, now)| :: Recent(attempts, now)[i] > now - WINDOW_MS
  {
    if attempts != [] {
      var init := attempts[..|attempts| - 1];
      RecentMembers(init, now);
      forall i | 0 <= i < |Recent(init, now)| ensures Recent(init, now)[i] in attempts {
        assert Recent(init, now)[i] in init;
      }
    }
  }

  /** Filtering loses nothing that a later minute could still count. */
  lemma {:induction false} WithinRecent(attempts: seq<int>, now: int, from: int, to: int)
    requires from > now - WINDOW_MS
    ensures Within(Recent(attempts, now), from, to) == Within(attempts, from, to)
  {
    if attempts != [] {
      var init := attempts[..|attempts| - 1];
      WithinRecent(init, now, from, to);
      WithinAppend(Recent(init, now), attempts[|attempts| - 1], from, to);
    }
  }

  lemma WithinAppend(times: seq<int>, x: int, from: int, to: int)
    ensures Within(times + [x], from, to) == Within(times, from, to) + if from <= x < to then 1 else 0
  {
    assert (times + [x])[..|times|] == times;
  }

  lemma {:induction false} WithinBeyond(times: seq<int>, from: int, now: int, to: int)
    requires now < to && forall i | 0 <= i < |times| :: times[i] <= now
    ensures Within(times, from, to) == Within(times, from, now + 1)
  {
    if times != [] { WithinBeyond(times[..|times| - 1], from, now, to); }
  }

  lemma {:induction false} WithinLater(times: seq<int>, from: int, later: int, to: int)
    requires from <= later
    ensures Within(times, later, to) <= Within(times, from, to)
  {
    if times != [] { WithinLater(times[..|times| - 1], from, later, to); }
  }

  predicate UpTo(times: seq<int>, now: int) {
    forall i | 0 <= i < |times| :: times[i] <= now
  }

  function Span(times: seq<int>, from: int): nat {
    Within(times, from, from + WINDOW_MS)
  }

  ghost predicate SameMinute(attempts: seq<int>, allowed: seq<int>, now: int) {
    forall from, to | from > now - WINDOW_MS :: Within(attempts, from, to) == Within(allowed, from, to)
  }

  ghost predicate Budgeted(allowed: seq<int>) {
    forall from :: Span(allowed, from) <= LIMIT
  }

  /** The remembered attempts are the allowed ones as far as the last minute goes, and no minute
      holds more than twenty. */
  ghost predicate Tracks(r: Run, now: int) {
    && UpTo(r.allowed, now) && UpTo(r.state.attempts, now)
    && SameMinute(r.state.attempts, r.allowed, now) && Budgeted(r.allowed)
    && r.state.level <= MAX_LEVEL
    && (r.state.blockedUntil.Some? ==> r.state.blockedUntil.value <= now + MAX_BACKOFF_SECONDS * 1000)
  }

  lemma AllowedSpan(allowed: seq<int>, now: int, from: int)
    requires UpTo(allowed, now) && Within(allowed, now - WINDOW_MS + 1, now + 1) < LIMIT
    requires Span(allowed, from) <= LIMIT
    ensures Span(allowed + [now], from) <= LIMIT
  {
    WithinAppend(allowed, now, from, from + WINDOW_MS);
    if from <= now < from + WINDOW_MS {
      WithinBeyond(allowed, from, now, from + WINDOW_MS);
      WithinLater(allowed, now - WINDOW_MS + 1, from, now + 1);
    }
  }

  lemma RecentSame(attempts: seq<int>, allowed: seq<int>, before: int, now: int)
    requires SameMinute(attempts, allowed, before) && before <= now
    ensures SameMinute(Recent(attempts, now), allowed, now)
  {
    forall from, to | from > now - WINDOW_MS ensures Within(Recent(attempts, now), from, to) == Within(allowed, from, to) {
      WithinRecent(attempts, now, from, to);
    }
  }

  /** One more attempt allowed, remembered and counted. */
  lemma AppendSame(attempts: seq<int>, allowed: seq<int>, now: int)
    requires SameMinute(attempts, allowed, now)
    ensures SameMinute(attempts + [now], allowed + [now], now)
  {
    forall from, to | from > now - WINDOW_MS
      ensures Within(attempts + [now], from, to) == Within(allowed + [now], from, to)
    {
      WithinAppend(attempts, now, from, to);
      WithinAppend(allowed, now, from, to);
    }
  }

  lemma AppendBudgeted(allowed: seq<int>, now: int)
    requires Budgeted(allowed) && UpTo(allowed, now) && Within(allowed, now - WINDOW_MS + 1, now + 1) < LIMIT
    ensures Budgeted(allowed + [now])
  {
    forall from ensures Span(allowed + [now], from) <= LIMIT {
      assert Span(allowed, from) <= LIMIT;
      AllowedSpan(allowed, now, from);
    }
  }

  /** The attempts filtered, before the decision. */
  lemma FilteredTracks(r: Run, before: int, now: int, recent: seq<int>)
    requires Tracks(r, before) && before <= now && recent == Recent(r.state.attempts, now)
    ensures UpTo(recent, now) && UpTo(r.allowed, now) && SameMinute(recent, r.allowed, now)
    ensures |recent| == Within(r.allowed, now - WINDOW_MS + 1, now + 1)
  {
    RecentMembers(r.state.attempts, now);
    RecentSame(r.state.attempts, r.allowed, before, now);
    RecentCounts(r.state.attempts, now, now + 1);
  }

  lemma AllowTracks(r: Run, before: int, now: int, next: Run)
    requires Tracks(r, before) && before <= now
    requires var recent := Recent(r.state.attempts, now);
             |recent| < LIMIT && next.allowed == r.allowed + [now] && next.state.attempts == recent + [now]
    requires next.state.level <= MAX_LEVEL && next.state.blockedUntil.None?
    ensures Tracks(next, now)
  {
    var recent := Recent(r.state.attempts, now);
    FilteredTracks(r, before, now, recent);
    AppendBudgeted(r.allowed, now);
    AppendSame(recent, r.allowed, now);
  }

  lemma RefuseTracks(r: Run, before: int, now: int, next: Run)
    requires Tracks(r, before) && before <= now
    requires next.allowed == r.allowed
    requires next.state.attempts == Recent(r.state.attempts, now) || next.state.attempts == r.state.attempts
    requires next.state.level <= MAX_LEVEL
    requires next.state.blockedUntil.Some? ==> next.state.blockedUntil.value <= now + MAX_BACKOFF_SECONDS * 1000
    ensures Tracks(next, now)
  {
    FilteredTracks(r, before, now, Recent(r.state.attempts, now));
  }

  lemma StepTracks(r: Run, before: int, now: int)
    requires Tracks(r, before) && before <= now
    ensures var d := Decide(r.state, now);
            Tracks(Run(d.next, if d.result.Allowed? then r.allowed + [now] else r.allowed), now)
  {
    var d := Decide(r.state, now);
    if d.result.Allowed? {
      AllowTracks(r, before, now, Run(d.next, r.allowed + [now]));
    } else {
      RefuseTracks(r, before, now, Run(d.next, r.allowed));
    }
  }

  lemma {:induction false} RunTracks(times: seq<int>)
    requires Ascending(times) && times != []
    ensures Tracks(After(times), times[|times| - 1])
  {
    var init, now := times[..|times| - 1], times[|times| - 1];
    if init == [] {
      StepTracks(Run(IDLE, []), now, now);
    } else {
      RunTracks(init);
      StepTracks(After(init), init[|init| - 1], now);
    }
  }

  /** Over any run, no half-open minute holds more than twenty allowed attempts, the backoff
      level stays between 0 and 5, and no wait reaches beyond five minutes. */
  lemma DeviceBudget(times: seq<int>, from: int)
    requires Ascending(times)
    ensures Within(After(times).allowed, from, from + WINDOW_MS) <= LIMIT
    ensures After(times).state.level <= MAX_LEVEL
    ensures times != [] && After(times).state.blockedUntil.Some? ==>
              After(times).state.blockedUntil.value <= times[|times| - 1] + MAX_BACKOFF_SECONDS * 1000
  {
    if times != [] {
      RunTracks(times);
      assert Span(After(times).allowed, from) <= LIMIT;
    }
  }

  lemma {:induction false} RecentEmpty(attempts: seq<int>, now: int)
    requires UpTo(attempts, now - WINDOW_MS)
    ensures Recent(attempts, now) == []
  {
    if attempts != [] { RecentEmpty(attempts[..|attempts| - 1], now); }
  }

  lemma SilentState(s: State, before: int, now: int)
    requires UpTo(s.attempts, before) && before + MAX_BACKOFF_SECONDS * 1000 <= now
    requires s.blockedUntil.Some? ==> s.blockedUntil.value <= before + MAX_BACKOFF_SECONDS * 1000
    ensures Decide(s, now) == Decision(Allowed(LIMIT - 1), State([now], None, 0))
  {
    RecentEmpty(s.attempts, now);
  }

  /** Five minutes of silence forgive everything. */
  lemma SilenceForgives(times: seq<int>, now: int)
    requires Ascending(times) && (times == [] || times[|times| - 1] + MAX_BACKOFF_SECONDS * 1000 <= now)
    ensures Decide(After(times).state, now) == Decision(Allowed(LIMIT - 1), State([now], None, 0))
  {
    if times == [] {
      SilentState(IDLE, now - MAX_BACKOFF_SECONDS * 1000, now);
    } else {
      RunTracks(times);
      SilentState(After(times).state, times[|times| - 1], now);
    }
  }

  /** A refused device that waits as long as it is told is not refused for being blocked. */
  lemma WaitingUnblocks(s: State, now: int, later: int)
    requires Decide(s, now).result.Refused?
    requires later >= now + 1000 * Decide(s, now).result.retryAfterSeconds
    ensures var next := Decide(s, now).next;
            next.blockedUntil.Some? && next.blockedUntil.value <= later
            && (Decide(next, later).result.Refused? <==> |Recent(next.attempts, later)| >= LIMIT)
  {
  }

  /** And if it hits the limit again, the wait doubles, from fifteen seconds to at most five minutes. */
  lemma WaitsDouble(s: State, now: int, later: int)
    requires s.level <= MAX_LEVEL && !(s.blockedUntil.Some? && s.blockedUntil.value > now)
    requires Decide(s, now).result.Refused?
    requires later >= now + 1000 * Decide(s, now).result.retryAfterSeconds
    requires Decide(Decide(s, now).next, later).result.Refused?
    ensures s.level == 0 ==> Decide(s, now).result.retryAfterSeconds == INITIAL_BACKOFF_SECONDS
    ensures Decide(Decide(s, now).next, later).result.retryAfterSeconds
            == Min(2 * Decide(s, now).result.retryAfterSeconds, MAX_BACKOFF_SECONDS)
  {
    assert Power2(1) == 2 && Power2(2) == 4 && Power2(3) == 8 && Power2(4) == 16 && Power2(5) == 32;
    assert Power2(s.level + 1) == 2 * Power2(s.level);
  }
}
