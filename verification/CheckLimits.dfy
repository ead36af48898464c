/** Immediate limits: `check` in src/auth-rate-limits.ts counts an attempt as it decides it,
    in windows that start with the first attempt after the last one ended. */
module CheckLimits {
  import opened Optional
  import opened RateLimitPolicy

  datatype Decision = Decision(allowed: bool, retryAfterSeconds: int, repeatedExcess: bool)

  // The clock as one statement reads it, expression after expression: for a new row; to test
  // whether the window ended and to restart it; to test it again for the count, the denials and
  // the block; and for the answer.
  datatype Readings = Readings(
    inserted: int, tested: int, restarted: int, counted: int, denied: int,
    floor: int, pushed: int, cleared: int, updated: int, decided: int, coalesced: int, told: int)

  predicate Ordered(c: Readings) {
    && c.inserted <= c.tested <= c.restarted <= c.counted <= c.denied <= c.floor <= c.pushed
    && c.floor <= c.cleared <= c.updated && c.pushed <= c.updated <= c.decided <= c.coalesced <= c.told
  }

  /** A statement within one tick of the clock. */
  function At(now: int): Readings {
    Readings(now, now, now, now, now, now, now, now, now, now, now, now)
  }

  predicate Elapsed(p: Policy, b: Bucket, now: int) {
    WindowEnd(p, b) <= now
  }

  /** Denials at the limit push the block out, even when they also start a new window. */
  function Blocking(p: Policy, b: Bucket, c: Readings): Option<int> {
    if p.backoffMs > 0 && b.count >= p.limit then
      Some(Max(match b.blockedUntil case None => c.floor case Some(t) => t, c.pushed) + Doubling(b.deniedCount) * p.backoffMs)
    else if Elapsed(p, b, c.cleared) then None
    else b.blockedUntil
  }

  /** The row after one attempt. */
  function Attempted(p: Policy, found: Option<Bucket>, c: Readings): Bucket {
    match found
    case None => Bucket(c.inserted, 1, 0, 0, None, c.inserted)
    case Some(b) =>
      b.(windowStartedAt := if Elapsed(p, b, c.tested) then c.restarted else b.windowStartedAt,
         count := if Elapsed(p, b, c.counted) then 1 else b.count + 1,
         deniedCount := if Elapsed(p, b, c.denied) then 0
                        else if b.count >= p.limit then b.deniedCount + 1 else b.deniedCount,
         blockedUntil := Blocking(p, b, c), updatedAt := c.updated)
  }

  predicate Allows(p: Policy, after: Bucket, c: Readings) {
    after.count <= p.limit && (after.blockedUntil.None? || after.blockedUntil.value <= c.decided)
  }

  function DecisionOf(p: Policy, after: Bucket, c: Readings): Decision {
    Decision(Allows(p, after, c),
             RetryAfter(Max(WindowEnd(p, after), match after.blockedUntil case None => c.coalesced case Some(t) => t), c.told),
             after.deniedCount >= 3)
  }

  /** The statement takes less time than the block it sets. */
  predicate Swift(p: Policy, c: Readings) {
    p.backoffMs > 0 ==> c.decided < c.pushed + p.backoffMs
  }

  predicate Unblocked(p: Policy, b: Bucket, c: Readings) {
    Elapsed(p, b, c.cleared) || b.blockedUntil.None? || b.blockedUntil.value <= c.decided
  }

  lemma BlockedFor(p: Policy, b: Bucket, c: Readings)
    requires Swift(p, c) && p.backoffMs > 0 && b.count >= p.limit
    ensures Blocking(p, b, c).Some? && Blocking(p, b, c).value > c.decided
  {
    var d := Doubling(b.deniedCount);
    assert d * p.backoffMs >= p.backoffMs by { assert (d - 1) * p.backoffMs >= 0; }
  }

  /** Exactly when an attempt is admitted, by the row it finds. */
  lemma AdmittedExactly(p: Policy, b: Bucket, c: Readings)
    requires p.limit >= 1 && Swift(p, c)
    ensures Allows(p, Attempted(p, Some(b), c), c) <==>
            (b.count < p.limit || (p.backoffMs == 0 && Elapsed(p, b, c.counted))) && Unblocked(p, b, c)
  {
    if p.backoffMs > 0 && b.count >= p.limit { BlockedFor(p, b, c); }
  }

  /** An ended window admits the next attempt exactly when the action has no backoff or the
      window was not full. */
  lemma ElapsedAdmits(p: Policy, b: Bucket, c: Readings)
    requires p.limit >= 1 && Swift(p, c) && Ordered(c) && Elapsed(p, b, c.tested)
    ensures Allows(p, Attempted(p, Some(b), c), c) <==> p.backoffMs == 0 || b.count < p.limit
  {
    AdmittedExactly(p, b, c);
  }

  /** A full window of session creations, left alone for a year, still refuses the next one. */
  lemma FullWindowStillRefuses()
    ensures var b := Bucket(0, 10, 0, 0, None, 0);
            var c := At(365 * DAY_MS);
            Elapsed(SESSION_CREATION_ACCOUNT, b, c.tested)
            && !Allows(SESSION_CREATION_ACCOUNT, Attempted(SESSION_CREATION_ACCOUNT, Some(b), c), c)
            && Attempted(SESSION_CREATION_ACCOUNT, Some(b), c).blockedUntil == Some(365 * DAY_MS + 900_000)
  {
  }

  /** Exactly when a counted attempt would break the reservation limiter's bound on a bucket that
      holds reservations: the two are used on different actions. */
  lemma CheckBreaksReservations(p: Policy, b: Bucket, c: Readings)
    ensures var after := Attempted(p, Some(b), c);
            after.count + after.reservedCount > p.limit
            <==> if Elapsed(p, b, c.counted) then b.reservedCount >= p.limit else b.count + b.reservedCount >= p.limit
  {
  }

  /** A window whose five places are all reserved, and the same bucket after the window ended. */
  lemma CheckBreaksFullBucket()
    ensures var b := Bucket(0, 0, 0, 5, None, 0);
            var during := Attempted(INVITATION_ACCEPTANCE_DIGEST, Some(b), At(1));
            var ended := Attempted(INVITATION_ACCEPTANCE_DIGEST, Some(b), At(HOUR_MS));
            during.count + during.reservedCount == ended.count + ended.reservedCount == 6
            && INVITATION_ACCEPTANCE_DIGEST.limit == 5
  {
  }

  /** What a check that does not count answers, from the row it finds. */
  function Peeked(p: Policy, found: Option<Bucket>, c: Readings): Decision {
    match found
    case None => Decision(true, 0, false)
    case Some(b) =>
      if Elapsed(p, b, c.tested) then Decision(true, 0, false)
      else Decision(b.count < p.limit && (b.blockedUntil.None? || b.blockedUntil.value <= c.decided),
                    RetryAfter(Max(WindowEnd(p, b), match b.blockedUntil case None => c.coalesced case Some(t) => t), c.told),
                    b.deniedCount >= 3)
  }

  /** The block or the window the row tells of ends between the two instants. */
  predicate FreedBetween(p: Policy, b: Bucket, from: int, to: int) {
    from < WindowEnd(p, b) <= to || (b.blockedUntil.Some? && from < b.blockedUntil.value <= to)
  }

  /** A peek that says yes is borne out by the next attempt, except after a full window of an action
      with backoff, which it refuses; a peek that says no is too, unless the window or the block
      ends in between. */
  lemma PeekForetells(p: Policy, b: Bucket, c: Readings, d: Readings)
    requires p.limit >= 1 && Ordered(c) && Ordered(d) && c.decided <= d.tested && Swift(p, d)
    ensures Peeked(p, Some(b), c).allowed ==>
              (Allows(p, Attempted(p, Some(b), d), d) <==> !(p.backoffMs > 0 && b.count >= p.limit))
    ensures !Peeked(p, Some(b), c).allowed && Allows(p, Attempted(p, Some(b), d), d) ==>
              FreedBetween(p, b, c.tested, d.decided)
  {
    AdmittedExactly(p, b, d);
  }

  /** Within one tick the two differ exactly after such a window. */
  lemma PeekForetellsAtOnce(p: Policy, found: Option<Bucket>, now: int)
    requires p.limit >= 1
    ensures Peeked(p, found, At(now)).allowed == DecisionOf(p, Attempted(p, found, At(now)), At(now)).allowed
            <==> !(p.backoffMs > 0 && found.Some? && Elapsed(p, found.value, now) && found.value.count >= p.limit)
  {
    if found.Some? { AdmittedExactly(p, found.value, At(now)); }
  }

  class WindowTable {
    var buckets: map<Key, Bucket>

    constructor ()
      ensures buckets == map[]
    {
      buckets := map[];
    }

    /** One upsert, or one read. */
    method Check(p: Policy, key: Key, consume: bool, c: Readings) returns (decision: Decision)
      modifies this
      ensures var found := if key in old(buckets) then Some(old(buckets)[key]) else None;
              if consume then
                buckets == old(buckets)[key := Attempted(p, found, c)]
                && decision == DecisionOf(p, Attempted(p, found, c), c)
              else buckets == old(buckets) && decision == Peeked(p, found, c)
    {
      if !consume {
        if key !in buckets || Elapsed(p, buckets[key], c.tested) { return Decision(true, 0, false); }
        return Peeked(p, Some(buckets[key]), c);
      }
      if key !in buckets {
        buckets := buckets[key := Bucket(c.inserted, 1, 0, 0, None, c.inserted)];
      } else {
        var b := buckets[key];
        var deniedCount := if Elapsed(p, b, c.denied) then 0 else if b.count >= p.limit then b.deniedCount + 1 else b.deniedCount;
        buckets := buckets[key := Bucket(if Elapsed(p, b, c.tested) then c.restarted else b.windowStartedAt,
                                         if Elapsed(p, b, c.counted) then 1 else b.count + 1,
                                         deniedCount, b.reservedCount, Blocking(p, b, c), c.updated)];
      }
      decision := DecisionOf(p, buckets[key], c);
    }
  }

  // ----- Runs -----

  /** The row after attempts at these readings, from no row at all. */
  function After(p: Policy, runs: seq<Readings>): Bucket
    requires runs != []
  {
    var init, c := runs[..|runs| - 1], runs[|runs| - 1];
    if init == [] then Attempted(p, None, c) else Attempted(p, Some(After(p, init)), c)
  }

  /** When attempts were admitted, in order. */
  function Admitted(p: Policy, runs: seq<Readings>): seq<int> {
    if runs == [] then []
    else
      var before, c := Admitted(p, runs[..|runs| - 1]), runs[|runs| - 1];
      if Allows(p, After(p, runs), c) then before + [c.decided] else before
  }

  /** Attempts on one row take turns. */
  ghost predicate Serial(runs: seq<Readings>) {
    && (forall i | 0 <= i < |runs| :: Ordered(runs[i]))
    && (forall i, j | 0 <= i < j < |runs| :: runs[i].decided <= runs[j].tested)
  }

  /** The window ends between the test for its start and the test for its count: it goes on, and
      its count starts again. */
  predicate Straddles(p: Policy, b: Bucket, c: Readings) {
    c.tested < WindowEnd(p, b) <= c.counted
  }

  /** No attempt of the run straddles the end of its window. */
  ghost predicate Unstraddled(p: Policy, runs: seq<Readings>) {
    forall k | 1 <= k < |runs| :: !Straddles(p, After(p, runs[..k]), runs[k])
  }

  /** How many of the times are in [from, to). */
  function Within(times: seq<int>, from: int, to: int): nat {
    if times == [] then 0
    else Within(times[..|times| - 1], from, to) + if from <= times[|times| - 1] < to then 1 else 0
  }

  /** How many are in [from, last]. */
  function Through(times: seq<int>, from: int, last: int): nat {
    Within(times, from, last + 1)
  }

  function Span(times: seq<int>, from: int, length: int): nat {
    Within(times, from, from + length)
  }

  lemma WithinAppend(times: seq<int>, x: int, from: int, to: int)
    ensures Within(times + [x], from, to) == Within(times, from, to) + if from <= x < to then 1 else 0
  {
    assert (times + [x])[..|times|] == times;
  }

  lemma {:induction false} WithinConcat(a: seq<int>, b: seq<int>, from: int, to: int)
    ensures Within(a + b, from, to) == Within(a, from, to) + Within(b, from, to)
  {
    if b == [] {
      assert a + b == a;
    } else {
      var init := b[..|b| - 1];
      assert (a + b)[..|a + b| - 1] == a + init;
      WithinConcat(a, init, from, to);
    }
  }

  lemma {:induction false} WithinLength(times: seq<int>, from: int, to: int)
    ensures Within(times, from, to) <= |times|
  {
    if times != [] { WithinLength(times[..|times| - 1], from, to); }
  }

  predicate UpTo(times: seq<int>, now: int) {
    forall i | 0 <= i < |times| :: times[i] <= now
  }

  predicate Since(times: seq<int>, start: int) {
    forall i | 0 <= i < |times| :: start <= times[i]
  }

  lemma {:induction false} NoneBefore(times: seq<int>, start: int, from: int, to: int)
    requires Since(times, start) && to <= start
    ensures Within(times, from, to) == 0
  {
    if times != [] { NoneBefore(times[..|times| - 1], start, from, to); }
  }

  lemma {:induction false} NoneAfter(times: seq<int>, now: int, from: int, to: int)
    requires UpTo(times, now) && now < from
    ensures Within(times, from, to) == 0
  {
    if times != [] { NoneAfter(times[..|times| - 1], now, from, to); }
  }

  predicate Positive(p: Policy) {
    p.limit >= 1 && p.windowMs >= 1
  }

  /** The attempt can be admitted beyond the limit of its window: it straddles the window's end, and
      no block stands in its way. */
  predicate Overcounts(p: Policy, b: Bucket, c: Readings) {
    Straddles(p, b, c) && (p.backoffMs == 0 || !Swift(p, c))
  }

  ghost predicate NoneOvercounts(p: Policy, runs: seq<Readings>) {
    forall k | 1 <= k < |runs| :: !Overcounts(p, After(p, runs[..k]), runs[k])
  }

  /** No more than the row counts and the limit, or, once the window has ended, `slack` more. */
  predicate Counted(p: Policy, n: nat, b: Bucket, now: int, slack: nat) {
    n <= Min(b.count, p.limit) || (Elapsed(p, b, now) && n <= p.limit + slack)
  }

  /** The times admitted in the current window: within the limit, and with `slack` one more
      once the window has ended. */
  ghost predicate CurrentOk(p: Policy, current: seq<int>, b: Bucket, now: int, slack: nat) {
    && Since(current, b.windowStartedAt) && UpTo(current, now)
    && Counted(p, |current|, b, now, slack)
    && Within(current, b.windowStartedAt, WindowEnd(p, b)) <= p.limit
  }

  /** The times of earlier windows: no more than one window's worth in the span before this one. */
  ghost predicate PastOk(p: Policy, past: seq<int>, start: int, slack: nat) {
    && UpTo(past, start)
    && (forall from | from > start - p.windowMs :: Through(past, from, start) <= p.limit + slack)
    && (forall from :: Span(past, from, p.windowMs) <= 2 * p.limit + slack)
  }

  ghost predicate Tracks(p: Policy, past: seq<int>, current: seq<int>, b: Bucket, now: int, slack: nat) {
    b.windowStartedAt <= now && CurrentOk(p, current, b, now, slack) && PastOk(p, past, b.windowStartedAt, slack)
  }

  /** Hence no span holds more than two windows' worth. */
  lemma TracksSpan(p: Policy, past: seq<int>, current: seq<int>, b: Bucket, now: int, slack: nat, from: int)
    requires Positive(p) && Tracks(p, past, current, b, now, slack)
    ensures Span(past + current, from, p.windowMs) <= 2 * p.limit + slack
  {
    var start, to := b.windowStartedAt, from + p.windowMs;
    WithinConcat(past, current, from, to);
    WithinLength(current, from, to);
    if from > start {
      NoneAfter(past, start, from, to);
    } else if to <= start {
      NoneBefore(current, start, from, to);
      assert Span(past, from, p.windowMs) <= 2 * p.limit + slack;
    } else {
      PastBeyond(past, start, from, to);
      assert Through(past, from, start) <= p.limit + slack;
      CurrentOnTime(p, current, b, from, to);
    }
  }

  lemma {:induction false} PastBeyond(past: seq<int>, start: int, from: int, to: int)
    requires UpTo(past, start) && start < to
    ensures Within(past, from, to) == Within(past, from, start + 1)
  {
    if past != [] { PastBeyond(past[..|past| - 1], start, from, to); }
  }

  lemma {:induction false} CurrentOnTime(p: Policy, current: seq<int>, b: Bucket, from: int, to: int)
    requires Since(current, b.windowStartedAt) && from <= b.windowStartedAt && to <= WindowEnd(p, b)
    ensures Within(current, from, to) <= Within(current, b.windowStartedAt, WindowEnd(p, b))
  {
    if current != [] { CurrentOnTime(p, current[..|current| - 1], b, from, to); }
  }

  lemma RestartPast(p: Policy, past: seq<int>, current: seq<int>, b: Bucket, now: int, slack: nat, start: int)
    requires Positive(p) && Tracks(p, past, current, b, now, slack)
    requires now <= start && WindowEnd(p, b) <= start
    ensures PastOk(p, past + current, start, slack)
  {
    forall from | from > start - p.windowMs ensures Through(past + current, from, start) <= p.limit + slack {
      WithinConcat(past, current, from, start + 1);
      NoneAfter(past, b.windowStartedAt, from, start + 1);
      WithinLength(current, from, start + 1);
    }
    forall from ensures Span(past + current, from, p.windowMs) <= 2 * p.limit + slack {
      TracksSpan(p, past, current, b, now, slack, from);
    }
  }

  function Listed(admitted: bool, time: int): seq<int> {
    if admitted then [time] else []
  }

  /** An attempt after the window ended starts a new one. */
  lemma NewWindow(p: Policy, past: seq<int>, current: seq<int>, b: Bucket, now: int, slack: nat, c: Readings)
    requires Positive(p) && Tracks(p, past, current, b, now, slack) && Ordered(c) && now <= c.tested && Elapsed(p, b, c.tested)
    ensures var after := Attempted(p, Some(b), c);
            Tracks(p, past + current, Listed(Allows(p, after, c), c.decided), after, c.decided, slack)
  {
    var first := Listed(Allows(p, Attempted(p, Some(b), c), c), c.decided);
    RestartPast(p, past, current, b, now, slack, c.restarted);
    WithinLength(first, c.restarted, c.restarted + p.windowMs);
  }

  lemma CountsOne(p: Policy, n: nat, b: Bucket, slack: nat, c: Readings)
    requires Positive(p) && Ordered(c) && !Elapsed(p, b, c.tested) && n <= Min(b.count, p.limit)
    requires slack == 0 ==> !Overcounts(p, b, c)
    ensures var after := Attempted(p, Some(b), c);
            Counted(p, if Allows(p, after, c) then n + 1 else n, after, c.decided, slack)
  {
    if Elapsed(p, b, c.counted) && slack == 0 { AdmittedExactly(p, b, c); }
  }

  /** An attempt in the window is counted in it, or straddles its end. */
  lemma SameWindow(p: Policy, past: seq<int>, current: seq<int>, b: Bucket, now: int, slack: nat, c: Readings)
    requires Positive(p) && Tracks(p, past, current, b, now, slack) && Ordered(c) && now <= c.tested && !Elapsed(p, b, c.tested)
    requires slack == 0 ==> !Overcounts(p, b, c)
    ensures var after := Attempted(p, Some(b), c);
            Tracks(p, past, current + Listed(Allows(p, after, c), c.decided), after, c.decided, slack)
  {
    var start, end := b.windowStartedAt, WindowEnd(p, b);
    assert current + [] == current;
    CountsOne(p, |current|, b, slack, c);
    WithinAppend(current, c.decided, start, end);
    WithinLength(current, start, end);
    WithinLength(current + [c.decided], start, end);
    if Allows(p, Attempted(p, Some(b), c), c) && c.decided < end { assert |current| + 1 <= p.limit; }
  }

  lemma FirstWindow(p: Policy, c: Readings, slack: nat)
    requires Positive(p) && Ordered(c)
    ensures Allows(p, Attempted(p, None, c), c)
    ensures Tracks(p, [], [c.decided], Attempted(p, None, c), c.decided, slack)
  {
    WithinLength([c.decided], c.inserted, c.inserted + p.windowMs);
  }

  lemma SerialPrefix(p: Policy, runs: seq<Readings>, slack: nat)
    requires |runs| >= 2 && Serial(runs) && (slack == 0 ==> NoneOvercounts(p, runs))
    ensures var init := runs[..|runs| - 1];
            Serial(init) && (slack == 0 ==> NoneOvercounts(p, init) && !Overcounts(p, After(p, init), runs[|runs| - 1]))
  {
    var init := runs[..|runs| - 1];
    if slack == 0 {
      forall k | 1 <= k < |init| ensures !Overcounts(p, After(p, init[..k]), init[k]) {
        assert init[..k] == runs[..k];
      }
    }
  }

  lemma {:induction false} RunTracks(p: Policy, runs: seq<Readings>, slack: nat) returns (past: seq<int>, current: seq<int>)
    requires Positive(p) && runs != [] && Serial(runs) && (slack == 0 ==> NoneOvercounts(p, runs))
    ensures Admitted(p, runs) == past + current
    ensures Tracks(p, past, current, After(p, runs), runs[|runs| - 1].decided, slack)
  {
    var init, c := runs[..|runs| - 1], runs[|runs| - 1];
    if init == [] {
      FirstWindow(p, c, slack);
      past, current := [], [c.decided];
    } else {
      SerialPrefix(p, runs, slack);
      past, current := RunTracks(p, init, slack);
      var b, now := After(p, init), init[|init| - 1].decided;
      assert init[|init| - 1] == runs[|runs| - 2];
      var admitted := Listed(Allows(p, After(p, runs), c), c.decided);
      if Elapsed(p, b, c.tested) {
        NewWindow(p, past, current, b, now, slack, c);
        past, current := past + current, admitted;
      } else {
        SameWindow(p, past, current, b, now, slack, c);
        current := current + admitted;
      }
    }
  }

  /** Whatever the callers do and however the clock runs inside a statement, no span as long as the
      window admits more than twice the limit and one. */
  lemma SpanBudget(p: Policy, runs: seq<Readings>, from: int)
    requires Positive(p) && Serial(runs)
    ensures Span(Admitted(p, runs), from, p.windowMs) <= 2 * p.limit + 1
  {
    SpanBounded(p, runs, from, 1);
  }

  lemma SpanBounded(p: Policy, runs: seq<Readings>, from: int, slack: nat)
    requires Positive(p) && Serial(runs) && (slack == 0 ==> NoneOvercounts(p, runs))
    ensures Span(Admitted(p, runs), from, p.windowMs) <= 2 * p.limit + slack
  {
    if runs != [] {
      var past, current := RunTracks(p, runs, slack);
      TracksSpan(p, past, current, After(p, runs), runs[|runs| - 1].decided, slack, from);
    }
  }

  /** Nor more than twice the limit, unless some attempt straddles the end of its window. */
  lemma SpanBudgetUnstraddled(p: Policy, runs: seq<Readings>, from: int)
    requires Positive(p) && Serial(runs) && Unstraddled(p, runs)
    ensures Span(Admitted(p, runs), from, p.windowMs) <= 2 * p.limit
  {
    SpanBounded(p, runs, from, 0);
  }

  /** Actions with backoff stay within twice the limit even then: an attempt that straddles the end
      of a full window is blocked. */
  lemma SpanBudgetWithBackoff(p: Policy, runs: seq<Readings>, from: int)
    requires Positive(p) && p.backoffMs > 0 && Serial(runs) && forall k | 0 <= k < |runs| :: Swift(p, runs[k])
    ensures Span(Admitted(p, runs), from, p.windowMs) <= 2 * p.limit
  {
    SpanBounded(p, runs, from, 0);
  }

  // ----- The one more -----

  /** A statement that starts at one instant and decides at another. */
  function Slow(now: int, decided: int): Readings {
    At(now).(decided := decided, coalesced := decided, told := decided)
  }

  /** Tested just before the window ends, and counted as it ends. */
  function Straddling(end: int): Readings {
    At(end).(inserted := end - 1, tested := end - 1, restarted := end - 1)
  }

  /** A limit of one attempt a second: three are admitted within a second. */
  lemma StraddlingAdmitsOneMore()
    ensures var p, runs := Policy(1, 1000, 0), [Slow(0, 5), Straddling(1000), At(1000)];
            Serial(runs) && Admitted(p, runs) == [5, 1000, 1000] && Span(Admitted(p, runs), 5, p.windowMs) == 2 * p.limit + 1
  {
    var p, a, b, c := Policy(1, 1000, 0), Slow(0, 5), Straddling(1000), At(1000);
    assert [a, b, c][..2] == [a, b] && [a, b][..1] == [a] && [a][..0] == [];
    ThreeAttempts(p, a, b, c);
    ThreeTimes(5, 1000, 1000, 5, 1005);
  }

  lemma OneAttempt(p: Policy, a: Readings)
    requires Allows(p, Attempted(p, None, a), a)
    ensures After(p, [a]) == Attempted(p, None, a) && Admitted(p, [a]) == [a.decided]
  {
    assert [a][..0] == [];
  }

  lemma NextAttempt(p: Policy, init: seq<Readings>, c: Readings)
    requires init != [] && Allows(p, Attempted(p, Some(After(p, init)), c), c)
    ensures After(p, init + [c]) == Attempted(p, Some(After(p, init)), c)
    ensures Admitted(p, init + [c]) == Admitted(p, init) + [c.decided]
  {
    assert (init + [c])[..|init|] == init;
  }

  lemma ThreeAttempts(p: Policy, a: Readings, b: Readings, c: Readings)
    requires p == Policy(1, 1000, 0) && a == Slow(0, 5) && b == Straddling(1000) && c == At(1000)
    ensures Admitted(p, [a, b, c]) == [5, 1000, 1000]
  {
    OneAttempt(p, a);
    NextAttempt(p, [a], b);
    assert [a] + [b] == [a, b] && [a, b] + [c] == [a, b, c];
    NextAttempt(p, [a, b], c);
  }

  lemma ThreeTimes(x: int, y: int, z: int, from: int, to: int)
    requires from <= x < to && from <= y < to && from <= z < to
    ensures Within([x, y, z], from, to) == 3
  {
    assert [] + [x] == [x] && [x] + [y] == [x, y] && [x, y] + [z] == [x, y, z];
    WithinAppend([], x, from, to);
    WithinAppend([x], y, from, to);
    WithinAppend([x, y], z, from, to);
  }
}
