/** What a reserved attempt is answered and what each call leaves behind (reserve, finalize and
    cleanup in src/auth-rate-limits.ts), stated on the rows, the charges and the open
    reservations. */
module ReservationDecisions {
  import opened Optional
  import opened RateLimitPolicy
  import opened ReservationLimiter

  // ----- Who is admitted -----

  /** The bucket is missing, or its window has ended, or it is not blocked and the window's charges
      and its open reservations number fewer than the limit. */
  predicate HasRoom(p: Policy, s: Limiter, key: Key, now: int) {
    || key !in s.buckets
    || s.buckets[key].windowStartedAt + p.windowMs <= now
    || (key in s.current
        && (s.buckets[key].blockedUntil.None? || s.buckets[key].blockedUntil.value <= now)
        && |Charges(s, s.current[key])| + |Held(s.reservations, key)| < p.limit)
  }

  /** An attempt is admitted exactly when there is room. */
  lemma DecisionExactly(policies: Policies, s: Limiter, key: Key, id: nat, createdAt: int, now: int, at: int)
    requires Kept(policies, s) && key.action in policies && Sound(policies[key.action])
    requires NotAfter(s, now) && createdAt <= now
    ensures key in s.buckets ==> key in s.current
    ensures var decision := Reserve(policies, s, key, id, createdAt, now, at).decision;
            && (decision == Allowed(id) <==> HasRoom(policies[key.action], s, key, now))
            && (decision.Denied? <==> !HasRoom(policies[key.action], s, key, now))
  {
    if key in s.buckets { assert BucketOk(policies, s, key); }
  }

  /** The bucket's window goes on, or a new one starts. */
  ghost predicate Starts(p: Policy, s: Limiter, key: Key, createdAt: int, now: int, b: Bucket) {
    if key in s.buckets && now < s.buckets[key].windowStartedAt + p.windowMs then
      b.windowStartedAt == s.buckets[key].windowStartedAt && b.count == s.buckets[key].count
      && b.deniedCount == s.buckets[key].deniedCount && b.blockedUntil == s.buckets[key].blockedUntil
      && b.reservedCount == s.buckets[key].reservedCount + 1
    else
      b.windowStartedAt == (if key in s.buckets || createdAt + p.windowMs <= now then now else createdAt)
      && b.count == 0 && b.deniedCount == 0 && b.blockedUntil.None? && b.reservedCount == 1
  }

  /** What a new window drops: everything the bucket held. */
  predicate Stays(p: Policy, s: Limiter, key: Key, now: int, id: nat) {
    && id in s.reservations
    && (s.reservations[id].key != key || (key in s.buckets && now < s.buckets[key].windowStartedAt + p.windowMs))
  }

  /** The bucket's row is there, with its window of now. */
  ghost predicate Prepares(p: Policy, s: Limiter, key: Key, createdAt: int, now: int, r: Limiter) {
    && r.buckets.Keys == s.buckets.Keys + {key} && key in r.current
    && Starts(p, s, key, createdAt, now, r.buckets[key].(reservedCount := r.buckets[key].reservedCount + 1))
    && (forall k | k in s.buckets && k != key :: r.buckets[k] == s.buckets[k])
    && (forall i :: i in r.reservations <==> Stays(p, s, key, now, i))
    && (forall i | i in r.reservations :: r.reservations[i] == s.reservations[i])
    && r.charged == s.charged
  }

  lemma PreparedRows(policies: Policies, s: Limiter, key: Key, createdAt: int, now: int)
    requires Kept(policies, s) && key.action in policies && Sound(policies[key.action])
    requires key in s.buckets ==> key in s.current
    ensures Prepares(policies[key.action], s, key, createdAt, now, Prepared(policies[key.action], s, key, createdAt, now))
  {
    var p := policies[key.action];
    if key in s.buckets && now < s.buckets[key].windowStartedAt + p.windowMs {
      assert Prepared(p, s, key, createdAt, now) == s;
    } else {
      NewWindow(p, s, key, createdAt, now);
      NewWindowPrepares(p, s, key, createdAt, now, Prepared(p, s, key, createdAt, now));
    }
  }

  function StartOf(p: Policy, s: Limiter, key: Key, createdAt: int, now: int): int {
    if key in s.buckets || createdAt + p.windowMs <= now then now else createdAt
  }

  lemma NewWindow(p: Policy, s: Limiter, key: Key, createdAt: int, now: int)
    requires key in s.buckets ==> key in s.current && s.buckets[key].windowStartedAt + p.windowMs <= now
    ensures var r := Prepared(p, s, key, createdAt, now);
            && r.buckets == s.buckets[key := Fresh(StartOf(p, s, key, createdAt, now))]
            && r.reservations == Without(s.reservations, key) && r.charged == s.charged && key in r.current
  {
  }

  lemma NewWindowPrepares(p: Policy, s: Limiter, key: Key, createdAt: int, now: int, r: Limiter)
    requires key in s.buckets ==> s.buckets[key].windowStartedAt + p.windowMs <= now
    requires r.buckets == s.buckets[key := Fresh(StartOf(p, s, key, createdAt, now))]
    requires r.reservations == Without(s.reservations, key) && r.charged == s.charged && key in r.current
    ensures Prepares(p, s, key, createdAt, now, r)
  {
  }

  /** An admitted attempt holds one place of its window until that ends; a new window drops what the
      last one held, and nothing else changes. */
  lemma AdmittedEffect(policies: Policies, s: Limiter, key: Key, id: nat, createdAt: int, now: int, at: int)
    requires Kept(policies, s) && key.action in policies && Sound(policies[key.action])
    requires NotAfter(s, now) && createdAt <= now && HasRoom(policies[key.action], s, key, now) && id !in s.admitted
    ensures key in s.buckets ==> key in s.current
    ensures Takes(policies[key.action], s, key, id, createdAt, now, at,
                  Reserve(policies, s, key, id, createdAt, now, at).state)
  {
    DecisionExactly(policies, s, key, id, createdAt, now, at);
    Unreserved(policies, s, id);
    PreparedRows(policies, s, key, createdAt, now);
    var p := policies[key.action];
    PreparedTakes(p, s, key, id, createdAt, now, at, Prepared(p, s, key, createdAt, now));
  }

  ghost predicate Takes(p: Policy, s: Limiter, key: Key, id: nat, createdAt: int, now: int, at: int, after: Limiter) {
    && after.buckets.Keys == s.buckets.Keys + {key}
    && Starts(p, s, key, createdAt, now, after.buckets[key]) && after.buckets[key].updatedAt == at
    && (forall k | k in s.buckets && k != key :: after.buckets[k] == s.buckets[k])
    && (forall i :: i in after.reservations <==> i == id || Stays(p, s, key, now, i))
    && after.reservations[id] == Reservation(key, after.buckets[key].windowStartedAt + p.windowMs)
    && (forall i | i in after.reservations && i != id :: after.reservations[i] == s.reservations[i])
    && after.charged == s.charged
  }

  lemma PreparedTakes(
    p: Policy, s: Limiter, key: Key, id: nat, createdAt: int, now: int, at: int, prepared: Limiter)
    requires Prepares(p, s, key, createdAt, now, prepared) && id !in s.reservations
    ensures Takes(p, s, key, id, createdAt, now, at, Admit(p, prepared, key, id, at))
  {
  }

  function Pow2(n: nat): nat {
    if n == 0 then 1 else 2 * Pow2(n - 1)
  }

  lemma DoublingIsPower(denied: nat)
    ensures Doubling(denied) == Pow2(if denied <= 4 then denied else 4)
  {
    assert Pow2(1) == 2 && Pow2(2) == 4 && Pow2(3) == 8 && Pow2(4) == 16;
  }

  /** With a backoff the block is 1, 2, 4, 8 and then always 16 times its length, cut off at the
      window's end. */
  ghost predicate Lengthens(p: Policy, b: Bucket, at: int, blockedUntil: Option<int>) {
    var end := b.windowStartedAt + p.windowMs;
    var until := at + Pow2(if b.deniedCount <= 4 then b.deniedCount else 4) * p.backoffMs;
    blockedUntil == if p.backoffMs == 0 then b.blockedUntil else if until <= end then Some(until) else Some(end)
  }

  /** A denied attempt counts one more denial and lengthens the block; it is told the whole seconds
      to the window's end, and of repeated excess from the third denial of the window on. */
  lemma DeniedEffect(policies: Policies, s: Limiter, key: Key, id: nat, createdAt: int, now: int, at: int)
    requires Kept(policies, s) && key.action in policies && Sound(policies[key.action])
    requires 0 <= now && NotAfter(s, now) && createdAt <= now <= at && !HasRoom(policies[key.action], s, key, now)
    ensures key in s.current
    ensures var x, p, b := Reserve(policies, s, key, id, createdAt, now, at), policies[key.action], s.buckets[key];
            && x.state == s.(buckets := x.state.buckets)
            && x.state.buckets.Keys == s.buckets.Keys
            && (forall k | k in s.buckets && k != key :: x.state.buckets[k] == s.buckets[k])
            && x.state.buckets[key] == b.(deniedCount := b.deniedCount + 1, updatedAt := at,
                                          blockedUntil := x.state.buckets[key].blockedUntil)
            && Lengthens(p, b, at, x.state.buckets[key].blockedUntil)
            && x.decision == Denied(x.decision.retryAfterSeconds, b.deniedCount >= 2)
            && b.windowStartedAt + p.windowMs <= now + 1_000 * x.decision.retryAfterSeconds
                                              < b.windowStartedAt + p.windowMs + 1_000
  {
    DecisionExactly(policies, s, key, id, createdAt, now, at);
    var p, b := policies[key.action], s.buckets[key];
    assert BucketOk(policies, s, key);
    assert Prepared(p, s, key, createdAt, now) == s;
    DoublingIsPower(b.deniedCount);
    ToldTheEnd(p, b, now, at);
  }

  lemma ToldTheEnd(p: Policy, b: Bucket, now: int, at: int)
    requires Sound(p) && 0 <= now < WindowEnd(p, b) && b.windowStartedAt <= now
    requires b.blockedUntil.Some? ==> b.blockedUntil.value <= WindowEnd(p, b)
    ensures DenialOf(p, b, Refused(p, b, at), now) == Denied(RetryAfter(WindowEnd(p, b), now), b.deniedCount >= 2)
    ensures WindowEnd(p, b) <= now + 1_000 * RetryAfter(WindowEnd(p, b), now) < WindowEnd(p, b) + 1_000
  {
  }

  // ----- A fresh window -----

  /** Attempts on one bucket, all before `end`. */
  ghost predicate Attempts(steps: seq<Step>, key: Key, end: int) {
    forall i | 0 <= i < |steps| :: steps[i].ReserveStep? && steps[i].key == key && steps[i].now < end
  }

  /** The answer to an attempt, which every feasible step of a kept limiter gets. */
  function Answer(policies: Policies, s: Limiter, step: Step): Option<Decision>
    requires step.ReserveStep?
  {
    if step.key.action in policies && (step.key in s.buckets ==> step.key in s.current)
    then Some(Reserve(policies, s, step.key, step.id, step.createdAt, step.now, step.at).decision)
    else None
  }

  /** The window reaches to `end` with `taken` places taken, and is not blocked unless it is full. */
  ghost predicate Open(policies: Policies, s: Limiter, key: Key, end: int, taken: nat) {
    && key.action in policies && Sound(policies[key.action]) && key in s.buckets
    && end <= WindowEnd(policies[key.action], s.buckets[key])
    && s.buckets[key].count + s.buckets[key].reservedCount == taken
    && (s.buckets[key].blockedUntil.None? || taken >= policies[key.action].limit)
  }

  ghost predicate AnsweredBy(policies: Policies, s: Limiter, step: Step, admits: bool)
    requires step.ReserveStep?
  {
    var answer := Answer(policies, s, step);
    && (admits <==> answer == Some(Allowed(step.id)))
    && (!admits <==> answer.Some? && answer.value.Denied?)
  }

  lemma OneMore(policies: Policies, s: Limiter, step: Step, key: Key, end: int, taken: nat)
    requires Kept(policies, s) && Open(policies, s, key, end, taken)
    requires Feasible(policies, step) && step.ReserveStep? && step.key == key && step.now < end
    requires step.id !in s.admitted && NotAfter(s, step.now)
    ensures AnsweredBy(policies, s, step, taken < policies[key.action].limit)
    ensures Kept(policies, Apply(policies, s, step))
    ensures Open(policies, Apply(policies, s, step), key, end, if taken < policies[key.action].limit then taken + 1 else taken)
  {
    assert BucketOk(policies, s, key);
    ReserveKeeps(policies, s, key, step.id, step.createdAt, step.now, step.at);
    assert Prepared(policies[key.action], s, key, step.createdAt, step.now) == s;
  }

  lemma FirstFeasible(policies: Policies, s: Limiter, steps: seq<Step>)
    requires FeasibleRun(policies, s, steps) && steps != [] && steps[0].ReserveStep?
    ensures Feasible(policies, steps[0]) && steps[0].id !in s.admitted && NotAfter(s, steps[0].now)
    ensures FeasibleRun(policies, Apply(policies, s, steps[0]), steps[1..])
  {
  }

  /** The first `room` attempts are admitted, and all after them denied. */
  ghost predicate AdmitsFirst(policies: Policies, s: Limiter, steps: seq<Step>, room: nat)
    requires forall i | 0 <= i < |steps| :: steps[i].ReserveStep?
    decreases |steps|
  {
    steps == []
    || (AnsweredBy(policies, s, steps[0], room > 0)
        && AdmitsFirst(policies, Apply(policies, s, steps[0]), steps[1..], if room > 0 then room - 1 else 0))
  }

  /** How many places are left. */
  function Left(p: Policy, taken: nat): nat {
    if taken < p.limit then p.limit - taken else 0
  }

  lemma StepOver(policies: Policies, s: Limiter, steps: seq<Step>, key: Key, end: int, taken: nat)
    returns (after: Limiter, rest: seq<Step>, next: nat)
    requires Kept(policies, s) && FeasibleRun(policies, s, steps) && Open(policies, s, key, end, taken)
    requires Attempts(steps, key, end) && steps != []
    ensures rest == steps[1..] && Attempts(rest, key, end)
    ensures Kept(policies, after) && FeasibleRun(policies, after, rest) && Open(policies, after, key, end, next)
    ensures AdmitsFirst(policies, after, rest, Left(policies[key.action], next)) ==>
              AdmitsFirst(policies, s, steps, Left(policies[key.action], taken))
  {
    FirstFeasible(policies, s, steps);
    OneMore(policies, s, steps[0], key, end, taken);
    after, rest := Apply(policies, s, steps[0]), steps[1..];
    next := if taken < policies[key.action].limit then taken + 1 else taken;
  }

  lemma {:induction false} InARow(policies: Policies, s: Limiter, steps: seq<Step>, key: Key, end: int, taken: nat)
    requires Kept(policies, s) && FeasibleRun(policies, s, steps) && Open(policies, s, key, end, taken)
    requires Attempts(steps, key, end)
    ensures AdmitsFirst(policies, s, steps, Left(policies[key.action], taken))
    decreases |steps|
  {
    if steps != [] {
      var after, rest, next := StepOver(policies, s, steps, key, end, taken);
      InARow(policies, after, rest, key, end, next);
    }
  }

  /** A new window admits exactly `limit` attempts in a row and refuses every further one in it. */
  lemma FreshWindowAdmits(policies: Policies, s: Limiter, steps: seq<Step>, key: Key)
    requires Kept(policies, s) && FeasibleRun(policies, s, steps) && steps != []
    requires key.action in policies && steps[0].ReserveStep?
    requires Attempts(steps, key, steps[0].createdAt + policies[key.action].windowMs)
    requires key in s.buckets ==> s.buckets[key].windowStartedAt + policies[key.action].windowMs <= steps[0].now
    ensures AdmitsFirst(policies, s, steps, policies[key.action].limit)
  {
    var step, p := steps[0], policies[key.action];
    FirstFeasible(policies, s, steps);
    FirstTakesOne(policies, s, step, key);
    InARow(policies, Apply(policies, s, step), steps[1..], key, step.createdAt + p.windowMs, 1);
  }

  lemma FirstTakesOne(policies: Policies, s: Limiter, step: Step, key: Key)
    requires Kept(policies, s) && step.ReserveStep? && step.key == key && Feasible(policies, step)
    requires step.id !in s.admitted && NotAfter(s, step.now)
    requires key in s.buckets ==> s.buckets[key].windowStartedAt + policies[key.action].windowMs <= step.now
    requires step.now < step.createdAt + policies[key.action].windowMs
    ensures Kept(policies, Apply(policies, s, step)) && AnsweredBy(policies, s, step, true)
    ensures Open(policies, Apply(policies, s, step), key, step.createdAt + policies[key.action].windowMs, 1)
  {
    DecisionExactly(policies, s, key, step.id, step.createdAt, step.now, step.at);
    ReserveKeeps(policies, s, key, step.id, step.createdAt, step.now, step.at);
    AdmittedEffect(policies, s, key, step.id, step.createdAt, step.now, step.at);
  }

  // ----- Finalizing and cleaning up -----

  /** A finished attempt gives its place back, and is charged exactly when it is consumed before its
      window ends; nothing else changes, and without the reservation nothing does. */
  lemma FinalizeEffect(policies: Policies, s: Limiter, id: nat, outcome: Outcome, now: int, at: int)
    requires Kept(policies, s)
    ensures var after := Finalize(policies, s, id, outcome, now, at);
            if id !in s.reservations then after == s
            else
              var key := s.reservations[id].key;
              && key in s.buckets && key.action in policies
              && var charge := outcome == Consume && now < s.buckets[key].windowStartedAt + policies[key.action].windowMs;
              && after == s.(buckets := after.buckets, reservations := after.reservations, charged := after.charged)
              && after.buckets.Keys == s.buckets.Keys
              && (forall k | k in s.buckets && k != key :: after.buckets[k] == s.buckets[k])
              && after.buckets[key].reservedCount + 1 == s.buckets[key].reservedCount
              && after.buckets[key].count == s.buckets[key].count + (if charge then 1 else 0)
              && after.buckets[key] == s.buckets[key].(reservedCount := after.buckets[key].reservedCount,
                                                       count := after.buckets[key].count, updatedAt := at)
              && after.reservations == s.reservations - {id}
              && after.charged == s.charged + (if charge then {id} else {})
  {
    if id in s.reservations { FinalizeExact(policies, s, id, outcome, now, at); }
  }

  /** The reservations of a bucket that have expired. */
  function Lapsed(s: Limiter, key: Key, now: int): set<nat> {
    set id | id in s.reservations && s.reservations[id].key == key && s.reservations[id].expiresAt <= now
  }

  /** Cleanup takes a bucket's expired reservations off its count, and deletes the buckets nothing
      has touched for a day, its own first statement included. */
  lemma CleanupEffect(policies: Policies, s: Limiter, expiredAt: int, touchedAt: int, idleAt: int, key: Key)
    requires Kept(policies, s) && NotAfter(s, touchedAt) && key in s.buckets
    ensures var after, n := Cleanup(s, expiredAt, touchedAt, idleAt), |Lapsed(s, key, expiredAt)|;
            && after.buckets.Keys <= s.buckets.Keys
            && (key in after.buckets <==>
                idleAt <= (if n > 0 then touchedAt else s.buckets[key].updatedAt) + 86_400_000)
            && (key in after.buckets ==>
                  && after.buckets[key].reservedCount + n == s.buckets[key].reservedCount
                  && after.buckets[key] == s.buckets[key].(reservedCount := after.buckets[key].reservedCount,
                                                           updatedAt := if n > 0 then touchedAt else s.buckets[key].updatedAt))
  {
    assert Lapsed(s, key, expiredAt) == Held(s.reservations, key) * Expired(s.reservations, expiredAt);
    DropExact(policies, s, expiredAt, key);
    assert DropExpired(s, expiredAt, touchedAt).buckets[key]
           == WithFewer(s.buckets[key], |Lapsed(s, key, expiredAt)|, touchedAt);
  }
}
