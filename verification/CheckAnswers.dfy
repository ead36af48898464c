/** What an immediate check counts and answers (check in src/auth-rate-limits.ts), window by window,
    stated on the rows and the clock readings. */
module CheckAnswers {
  import opened Optional
  import opened RateLimitPolicy
  import opened CheckLimits

  function Pow2(n: nat): nat {
    if n == 0 then 1 else 2 * Pow2(n - 1)
  }

  lemma DoublingIsPower(denied: nat)
    ensures Doubling(denied) == Pow2(if denied <= 4 then denied else 4)
  {
    assert Pow2(1) == 2 && Pow2(2) == 4 && Pow2(3) == 8 && Pow2(4) == 16;
  }

  /** The statement reads the clock before the window's end only, or from then on only. */
  predicate During(p: Policy, b: Bucket, c: Readings) {
    Ordered(c) && c.told < b.windowStartedAt + p.windowMs
  }

  predicate Beyond(p: Policy, b: Bucket, c: Readings) {
    Ordered(c) && b.windowStartedAt + p.windowMs <= c.inserted
  }

  /** A full row of an action with backoff is blocked from its block's end, or from now, by 1, 2, 4, 8
      and then always 16 times the backoff; and any other row only while its window lasts. */
  ghost predicate Blocks(p: Policy, b: Bucket, c: Readings, blockedUntil: Option<int>) {
    if p.backoffMs > 0 && p.limit <= b.count then
      blockedUntil.Some?
      && var from := blockedUntil.value - Pow2(if b.deniedCount <= 4 then b.deniedCount else 4) * p.backoffMs;
         from >= c.pushed && (match b.blockedUntil
                              case None => from == c.pushed
                              case Some(t) => from >= t && (from == t || from == c.pushed))
    else blockedUntil == if b.windowStartedAt + p.windowMs <= c.cleared then None else b.blockedUntil
  }

  /** Within its window every attempt counts, and one that finds it full counts as denied; after it
      the row starts again with this attempt. */
  lemma AttemptedExactly(p: Policy, b: Bucket, c: Readings)
    requires Ordered(c)
    ensures var after := Attempted(p, Some(b), c);
            && (During(p, b, c) ==>
                  after == b.(count := b.count + 1, deniedCount := b.deniedCount + (if p.limit <= b.count then 1 else 0),
                              blockedUntil := after.blockedUntil, updatedAt := c.updated))
            && (Beyond(p, b, c) ==>
                  after == Bucket(c.restarted, 1, 0, b.reservedCount, after.blockedUntil, c.updated))
            && Blocks(p, b, c, after.blockedUntil)
  {
    DoublingIsPower(b.deniedCount);
  }

  /** The last instant the row speaks of: its window's or its block's. */
  ghost predicate LastEnd(p: Policy, b: Bucket, c: Readings, until: int) {
    && b.windowStartedAt + p.windowMs <= until && (b.blockedUntil.Some? ==> b.blockedUntil.value <= until)
    && (b.blockedUntil.None? ==> c.coalesced <= until)
    && (until == b.windowStartedAt + p.windowMs
        || (match b.blockedUntil case None => until == c.coalesced case Some(t) => until == t))
  }

  /** The wait in whole seconds, rounded up, at least one and at most an hour. */
  ghost predicate Waits(until: int, now: int, seconds: int) {
    if until <= now then seconds == 1
    else if now + 3_600_000 < until then seconds == 3600
    else 1 <= seconds <= 3600 && until <= now + 1_000 * seconds < until + 1_000
  }

  lemma WaitsExactly(until: int, now: int)
    ensures Waits(until, now, RetryAfter(until, now))
  {
  }

  /** The answer to a counted attempt: yes while the row counts no more than the limit and is not
      blocked, with the wait to the last end the row speaks of, and repeated excess from its third
      denial on. */
  lemma DecidedExactly(p: Policy, after: Bucket, c: Readings, until: int)
    requires LastEnd(p, after, c, until)
    ensures var d := DecisionOf(p, after, c);
            && (d.allowed <==>
                after.count <= p.limit && (after.blockedUntil.None? || after.blockedUntil.value <= c.decided))
            && Waits(until, c.told, d.retryAfterSeconds)
            && (d.repeatedExcess <==> after.deniedCount >= 3)
  {
    WaitsExactly(until, c.told);
  }

  /** The answer to a check that does not count: yes, and no wait, without a row or after its window;
      else yes while a place is left and the row is not blocked. */
  lemma PeekedExactly(p: Policy, found: Option<Bucket>, c: Readings)
    ensures found.None? || found.value.windowStartedAt + p.windowMs <= c.tested ==>
              Peeked(p, found, c) == Decision(true, 0, false)
    ensures found.Some? && c.tested < found.value.windowStartedAt + p.windowMs ==>
              forall until | LastEnd(p, found.value, c, until) ::
                var d, b := Peeked(p, found, c), found.value;
                && (d.allowed <==> b.count < p.limit && (b.blockedUntil.None? || b.blockedUntil.value <= c.decided))
                && Waits(until, c.told, d.retryAfterSeconds) && (d.repeatedExcess <==> b.deniedCount >= 3)
  {
    if found.Some? && c.tested < found.value.windowStartedAt + p.windowMs {
      forall until | LastEnd(p, found.value, c, until)
        ensures var d, b := Peeked(p, found, c), found.value;
                && (d.allowed <==> b.count < p.limit && (b.blockedUntil.None? || b.blockedUntil.value <= c.decided))
                && Waits(until, c.told, d.retryAfterSeconds) && (d.repeatedExcess <==> b.deniedCount >= 3)
      {
        WaitsExactly(until, c.told);
      }
    }
  }

  // ----- One window from its start -----

  /** Attempts from no row at all, each after the other, all within the first window. */
  ghost predicate OneWindow(p: Policy, runs: seq<Readings>) {
    runs != [] && forall i | 0 <= i < |runs| :: Ordered(runs[i]) && runs[i].told < runs[0].inserted + p.windowMs
  }

  function Excess(n: nat, limit: nat): nat {
    if n <= limit then 0 else n - limit
  }

  lemma {:induction false} WindowRow(p: Policy, runs: seq<Readings>)
    requires p.limit >= 1 && OneWindow(p, runs)
    ensures var b := After(p, runs);
            && b.windowStartedAt == runs[0].inserted && b.count == |runs| && b.reservedCount == 0
            && b.deniedCount == Excess(|runs|, p.limit)
            && (b.blockedUntil.Some? <==> p.backoffMs > 0 && |runs| > p.limit)
  {
    if |runs| > 1 {
      var init, c := runs[..|runs| - 1], runs[|runs| - 1];
      WindowRow(p, init);
      assert During(p, After(p, init), c);
      AttemptedExactly(p, After(p, init), c);
    }
  }

  /** In one window the first `limit` attempts are allowed and the rest are not, repeated excess is
      told from the third refusal on, and each refusal lengthens the block. */
  lemma WindowAnswers(p: Policy, runs: seq<Readings>)
    requires p.limit >= 1 && OneWindow(p, runs) && Swift(p, runs[|runs| - 1])
    ensures var b, c := After(p, runs), runs[|runs| - 1];
            && b.count == |runs| && b.windowStartedAt == runs[0].inserted
            && (DecisionOf(p, b, c).allowed <==> |runs| <= p.limit)
            && (DecisionOf(p, b, c).repeatedExcess <==> |runs| >= p.limit + 3)
            && (p.backoffMs == 0 || |runs| <= p.limit ==>
                  Waits(runs[0].inserted + p.windowMs, c.told, DecisionOf(p, b, c).retryAfterSeconds))
    ensures p.backoffMs > 0 && |runs| > p.limit ==>
              Blocks(p, After(p, runs[..|runs| - 1]), runs[|runs| - 1], After(p, runs).blockedUntil)
  {
    var b, c := After(p, runs), runs[|runs| - 1];
    WindowRow(p, runs);
    if p.backoffMs == 0 || |runs| <= p.limit { DecidedExactly(p, b, c, runs[0].inserted + p.windowMs); }
    if |runs| > p.limit { LastAttempt(p, runs); }
  }

  lemma LastAttempt(p: Policy, runs: seq<Readings>)
    requires p.limit >= 1 && OneWindow(p, runs) && |runs| > p.limit
    ensures Blocks(p, After(p, runs[..|runs| - 1]), runs[|runs| - 1], After(p, runs).blockedUntil)
  {
    var init, c := runs[..|runs| - 1], runs[|runs| - 1];
    assert OneWindow(p, init);
    AttemptedExactly(p, After(p, init), c);
  }
}
