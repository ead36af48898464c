/** What a gatehouse device is answered (src/dispositivos.ts, lines 175-222), by the attempts it was
    allowed in the last minute. */
module DeviceAnswers {
  import opened Optional
  import opened DeviceLimiter

  /** The wait in whole seconds, rounded up. */
  ghost predicate Seconds(wait: int, ms: int) {
    ms <= 1_000 * wait < ms + 1_000
  }

  /** Fifteen seconds, doubled with each level, and at most five minutes. */
  ghost predicate Doubled(wait: int, level: nat) {
    wait == match level
            case 0 => 15
            case 1 => 30
            case 2 => 60
            case 3 => 120
            case 4 => 240
            case _ => 300
  }

  lemma BackoffIs(level: nat)
    requires level <= 5
    ensures Doubled(Backoff(level), level)
  {
    assert Power2(1) == 2 && Power2(2) == 4 && Power2(3) == 8 && Power2(4) == 16 && Power2(5) == 32;
  }

  /** How many attempts the device was allowed in the last minute. */
  function LastMinute(allowed: seq<int>, now: int): nat {
    Within(allowed, now - 59_999, now + 1)
  }

  ghost predicate Answers(r: Run, now: int, d: Decision) {
    var n := LastMinute(r.allowed, now);
    if r.state.blockedUntil.Some? && now < r.state.blockedUntil.value then
      d.next == r.state && d.result.Refused? && Seconds(d.result.retryAfterSeconds, r.state.blockedUntil.value - now)
    else if n >= 20 then
      && d.result.Refused? && Doubled(d.result.retryAfterSeconds, r.state.level)
      && d.next.blockedUntil == Some(now + 1_000 * d.result.retryAfterSeconds)
      && d.next.level == (if r.state.level < 5 then r.state.level + 1 else 5)
    else
      && d.result == Allowed(19 - n) && d.next.blockedUntil.None?
      && d.next.level == (if n == 0 then 0 else r.state.level)
  }

  /** Whatever the device did before, a blocked one is told the rest of its block and changes nothing;
      twenty allowed attempts in the last minute block it, each time for twice as long up to five
      minutes; and otherwise it is allowed, told what the minute leaves, and forgiven its level when
      the minute was empty. */
  lemma DecidedExactly(times: seq<int>, now: int)
    requires Ascending(times) && (times != [] ==> times[|times| - 1] <= now)
    ensures Answers(After(times), now, Decide(After(times).state, now))
  {
    MinuteRemembered(times, now);
    AnsweredFrom(After(times), now, Recent(After(times).state.attempts, now));
  }

  /** What the device remembers of the last minute is what it was allowed in it. */
  lemma MinuteRemembered(times: seq<int>, now: int)
    requires Ascending(times) && (times != [] ==> times[|times| - 1] <= now)
    ensures |Recent(After(times).state.attempts, now)| == LastMinute(After(times).allowed, now)
    ensures After(times).state.level <= 5
  {
    if times != [] {
      RunTracks(times);
      TrackedMinute(After(times), times[|times| - 1], now);
    }
  }

  lemma TrackedMinute(r: Run, before: int, now: int)
    requires Tracks(r, before) && before <= now
    ensures |Recent(r.state.attempts, now)| == LastMinute(r.allowed, now) && r.state.level <= 5
  {
    FilteredTracks(r, before, now, Recent(r.state.attempts, now));
  }

  lemma AnsweredFrom(r: Run, now: int, recent: seq<int>)
    requires recent == Recent(r.state.attempts, now) && |recent| == LastMinute(r.allowed, now) && r.state.level <= 5
    ensures Answers(r, now, Decide(r.state, now))
  {
    BackoffIs(r.state.level);
    if r.state.blockedUntil.Some? && r.state.blockedUntil.value > now {
      SecondsRound(r.state.blockedUntil.value, now);
    }
  }

  lemma SecondsRound(until: int, now: int)
    requires now < until
    ensures Seconds(SecondsUntil(until, now), until - now)
  {
  }
}
