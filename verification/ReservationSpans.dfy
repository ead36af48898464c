/** What the reservation limiter admits in a span of time (reserve, finalize and cleanup in
    src/auth-rate-limits.ts). ReservationLimiter bounds each window; here windows have instants. */
module ReservationSpans {
  import opened Optional
  import opened RateLimitPolicy
  import opened ReservationLimiter

  // When each window started, when each attempt was admitted, and which attempts gave their place
  // back uncharged.
  datatype Log = Log(starts: seq<int>, at: map<nat, int>, returned: set<nat>)

  const NOTHING: Log := Log([], map[], {})

  // ----- The clock -----

  function First(step: Step): int {
    match step
    case ReserveStep(_, _, createdAt, _, _) => createdAt
    case FinalizeStep(_, _, now, _) => now
    case CleanupStep(expiredAt, _, _) => expiredAt
  }

  function Last(step: Step): int {
    match step
    case ReserveStep(_, _, _, _, at) => at
    case FinalizeStep(_, _, _, at) => at
    case CleanupStep(_, _, idleAt) => idleAt
  }

  predicate InOrder(step: Step) {
    match step
    case ReserveStep(_, _, createdAt, now, at) => createdAt <= now <= at
    case FinalizeStep(_, _, now, at) => now <= at
    case CleanupStep(expiredAt, touchedAt, idleAt) => expiredAt <= touchedAt <= idleAt
  }

  /** No reading is before an earlier one. */
  predicate Ticking(steps: seq<Step>, t: int)
    decreases |steps|
  {
    steps == [] || (InOrder(steps[0]) && t <= First(steps[0]) && Ticking(steps[1..], Last(steps[0])))
  }

  // ----- The log of a run -----

  function Started(p: Policy, s: Limiter, key: Key, createdAt: int, now: int): seq<int> {
    var created := if key in s.buckets then s else OpenWindow(s, key, createdAt);
    (if key in s.buckets then [] else [createdAt]) + if Ended(p, created.buckets[key], now) then [now] else []
  }

  function Logged(policies: Policies, s: Limiter, log: Log, step: Step): Log {
    match step
    case ReserveStep(key, id, createdAt, now, at) =>
      if key.action !in policies || (key in s.buckets && key !in s.current) then log
      else
        log.(starts := log.starts + Started(policies[key.action], s, key, createdAt, now),
             at := if Reserve(policies, s, key, id, createdAt, now, at).decision.Allowed? then log.at[id := now] else log.at)
    case FinalizeStep(id, outcome, now, _) =>
      if id in s.reservations && s.reservations[id].key in s.buckets && !Chargeable(policies, s, id, outcome, now)
      then log.(returned := log.returned + {id}) else log
    case CleanupStep(_, _, _) => log
  }

  function RunLog(policies: Policies, s: Limiter, log: Log, steps: seq<Step>): Log
    decreases |steps|
  {
    if steps == [] then log
    else RunLog(policies, Apply(policies, s, steps[0]), Logged(policies, s, log, steps[0]), steps[1..])
  }

  // ----- What is kept -----

  /** The attempts a window admitted that have not given their place back. */
  function Standing(s: Limiter, log: Log, window: nat): set<nat> {
    set id | id in s.admitted && s.admitted[id] == window && id !in log.returned
  }

  function LengthOf(policies: Policies, key: Key): int {
    if key.action in policies then policies[key.action].windowMs else 0
  }

  function LimitOf(policies: Policies, key: Key): int {
    if key.action in policies then policies[key.action].limit else 0
  }

  /** The window's end. */
  function EndOf(policies: Policies, s: Limiter, log: Log, window: nat): int
    requires window < |s.windows| == |log.starts|
  {
    log.starts[window] + LengthOf(policies, s.windows[window])
  }

  /** Each attempt was admitted while its window lasted. */
  predicate AdmittedInTime(policies: Policies, s: Limiter, log: Log, id: nat)
    requires id in s.admitted
  {
    && id in log.at && s.admitted[id] < |s.windows| == |log.starts|
    && log.starts[s.admitted[id]] <= log.at[id] < EndOf(policies, s, log, s.admitted[id])
  }

  /** One bucket's windows follow each other. */
  ghost predicate Apart(policies: Policies, s: Limiter, log: Log)
    requires |s.windows| == |log.starts|
  {
    forall i, j | 0 <= i < j < |s.windows| && s.windows[i] == s.windows[j] :: EndOf(policies, s, log, i) <= log.starts[j]
  }

  /** While its window lasts, a bucket's charges and reservations are the attempts that stand. */
  predicate BucketTraced(policies: Policies, s: Limiter, log: Log, t: int, key: Key)
    requires key in s.buckets && |s.windows| == |log.starts|
  {
    && key in s.current && s.current[key] < |s.windows| && s.windows[s.current[key]] == key
    && log.starts[s.current[key]] == s.buckets[key].windowStartedAt
    && (t < EndOf(policies, s, log, s.current[key]) ==>
          Standing(s, log, s.current[key]) == Charges(s, s.current[key]) + Held(s.reservations, key))
  }

  /** A window that is not a bucket's current one has ended. */
  predicate Over(policies: Policies, s: Limiter, log: Log, t: int, window: nat)
    requires window < |s.windows| == |log.starts|
  {
    var key := s.windows[window];
    if key in s.buckets then key in s.current && window <= s.current[key] else EndOf(policies, s, log, window) <= t
  }

  ghost predicate ReturnedOk(s: Limiter, log: Log) {
    log.returned <= s.admitted.Keys && log.returned !! s.reservations.Keys && log.returned !! s.charged
  }

  /** Windows have their starts, attempts their instants, and no window more standing attempts than
      its limit. */
  ghost predicate Times(policies: Policies, s: Limiter, log: Log) {
    && |s.windows| == |log.starts| && log.at.Keys == s.admitted.Keys && Apart(policies, s, log)
    && (forall id | id in s.admitted :: AdmittedInTime(policies, s, log, id))
    && (forall w | 0 <= w < |s.windows| :: |Standing(s, log, w)| <= LimitOf(policies, s.windows[w]))
  }

  ghost predicate Places(policies: Policies, s: Limiter, log: Log, t: int)
    requires |s.windows| == |log.starts|
  {
    && (forall key | key in s.buckets :: BucketTraced(policies, s, log, t, key))
    && (forall w | 0 <= w < |s.windows| :: Over(policies, s, log, t, w))
  }

  ghost predicate Traced(policies: Policies, s: Limiter, log: Log, t: int) {
    Times(policies, s, log) && ReturnedOk(s, log) && Places(policies, s, log, t)
  }

  // ----- What a step leaves alone -----

  lemma StandingFrame(s: Limiter, log: Log, after: Limiter, later: Log, w: nat)
    requires after.admitted == s.admitted && later.returned == log.returned
    ensures Standing(after, later, w) == Standing(s, log, w)
  {
  }

  lemma ChargesFrame(s: Limiter, after: Limiter, w: nat)
    requires after.admitted == s.admitted && after.charged == s.charged
    ensures Charges(after, w) == Charges(s, w)
  {
  }

  lemma StandingShrinks(s: Limiter, log: Log, after: Limiter, later: Log, w: nat)
    requires after.admitted == s.admitted && log.returned <= later.returned
    ensures |Standing(after, later, w)| <= |Standing(s, log, w)|
  {
    Subset(Standing(after, later, w), Standing(s, log, w));
  }

  lemma Subset(a: set<nat>, b: set<nat>)
    requires a <= b
    ensures |a| <= |b|
  {
    assert b == a + (b - a);
  }

  /** A step that opens no window and admits no attempt. */
  lemma TimesFrame(policies: Policies, s: Limiter, log: Log, after: Limiter, later: Log)
    requires Times(policies, s, log) && after.windows == s.windows && after.admitted == s.admitted
    requires later.starts == log.starts && later.at == log.at && log.returned <= later.returned
    ensures Times(policies, after, later)
  {
    forall id | id in after.admitted ensures AdmittedInTime(policies, after, later, id) {
      assert AdmittedInTime(policies, s, log, id);
    }
    forall w | 0 <= w < |after.windows| ensures |Standing(after, later, w)| <= LimitOf(policies, after.windows[w]) {
      StandingShrinks(s, log, after, later, w);
    }
  }

  /** A step that deletes no bucket either. */
  lemma OverFrame(policies: Policies, s: Limiter, log: Log, t: int, after: Limiter, later: Log, end: int, w: nat)
    requires w < |s.windows| == |log.starts| && Over(policies, s, log, t, w) && t <= end
    requires after.windows == s.windows && later.starts == log.starts && after.current == s.current
    requires after.buckets.Keys == s.buckets.Keys
    ensures Over(policies, after, later, end, w)
  {
  }

  /** A bucket whose window goes on, with the sets that a step leaves or makes of it. */
  lemma BucketFrame(policies: Policies, s: Limiter, log: Log, t: int, after: Limiter, later: Log, end: int, key: Key)
    requires |s.windows| == |log.starts| && key in s.buckets && BucketTraced(policies, s, log, t, key) && t <= end
    requires after.windows == s.windows && later.starts == log.starts && after.current == s.current
    requires key in after.buckets && after.buckets[key].windowStartedAt == s.buckets[key].windowStartedAt
    requires end < EndOf(policies, s, log, s.current[key]) ==>
               Standing(after, later, s.current[key]) == Charges(after, s.current[key]) + Held(after.reservations, key)
    ensures BucketTraced(policies, after, later, end, key)
  {
  }

  // ----- The parts of a step -----

  lemma Later(policies: Policies, s: Limiter, log: Log, t: int, later: int)
    requires Traced(policies, s, log, t) && t <= later
    ensures Traced(policies, s, log, later)
  {
    forall key | key in s.buckets ensures BucketTraced(policies, s, log, later, key) {
      assert BucketTraced(policies, s, log, t, key);
    }
    forall w | 0 <= w < |s.windows| ensures Over(policies, s, log, later, w) { assert Over(policies, s, log, t, w); }
  }

  /** All windows of the bucket have ended by then. */
  ghost predicate AllEnded(policies: Policies, s: Limiter, log: Log, key: Key, t: int)
    requires |s.windows| == |log.starts|
  {
    forall w | 0 <= w < |s.windows| && s.windows[w] == key :: EndOf(policies, s, log, w) <= t
  }

  lemma EndedBy(policies: Policies, s: Limiter, log: Log, t: int, key: Key, a: int)
    requires Traced(policies, s, log, t) && t <= a && key.action in policies
    requires key in s.buckets ==> WindowEnd(policies[key.action], s.buckets[key]) <= a
    ensures AllEnded(policies, s, log, key, a)
  {
    forall w | 0 <= w < |s.windows| && s.windows[w] == key ensures EndOf(policies, s, log, w) <= a {
      assert Over(policies, s, log, t, w);
      if key in s.buckets { EndedUpTo(policies, s, log, t, key, w); }
    }
  }

  /** The bucket's current window is its last, and none before it ends later. */
  lemma EndedUpTo(policies: Policies, s: Limiter, log: Log, t: int, key: Key, w: nat)
    requires |s.windows| == |log.starts| && Apart(policies, s, log) && key in s.buckets && BucketTraced(policies, s, log, t, key)
    requires w < |s.windows| && s.windows[w] == key && Over(policies, s, log, t, w) && key.action in policies
    ensures EndOf(policies, s, log, w) <= WindowEnd(policies[key.action], s.buckets[key])
  {
    if w < s.current[key] { assert EndOf(policies, s, log, w) <= log.starts[s.current[key]]; }
  }

  lemma OpenTraced(policies: Policies, s: Limiter, log: Log, t: int, key: Key, a: int)
    requires Kept(policies, s) && Traced(policies, s, log, t) && t <= a && key.action in policies
    requires AllEnded(policies, s, log, key, a)
    ensures Traced(policies, OpenWindow(s, key, a), log.(starts := log.starts + [a]), a)
  {
    var after, longer := OpenWindow(s, key, a), log.(starts := log.starts + [a]);
    OpenTimes(policies, s, log, key, a);
    forall k | k in after.buckets ensures BucketTraced(policies, after, longer, a, k) {
      if k == key {
        OpenedBucket(policies, s, log, key, a);
      } else {
        OtherBucket(policies, s, log, t, key, a, k);
      }
    }
    forall w | 0 <= w < |after.windows| ensures Over(policies, after, longer, a, w) {
      if w < |s.windows| { assert Over(policies, s, log, t, w); }
    }
  }

  lemma OpenTimes(policies: Policies, s: Limiter, log: Log, key: Key, a: int)
    requires Kept(policies, s) && Times(policies, s, log) && key.action in policies
    requires AllEnded(policies, s, log, key, a)
    ensures Times(policies, OpenWindow(s, key, a), log.(starts := log.starts + [a]))
  {
    var after, longer := OpenWindow(s, key, a), log.(starts := log.starts + [a]);
    forall id | id in after.admitted ensures AdmittedInTime(policies, after, longer, id) {
      assert AdmittedInTime(policies, s, log, id);
    }
    forall w | 0 <= w < |after.windows| ensures |Standing(after, longer, w)| <= LimitOf(policies, after.windows[w]) {
      StandingFrame(s, log, after, longer, w);
      if w == |s.windows| { NoneStanding(policies, s, log, w); }
    }
    OpenApart(policies, s, log, key, a);
  }

  lemma NoneStanding(policies: Policies, s: Limiter, log: Log, w: nat)
    requires Kept(policies, s) && w == |s.windows|
    ensures Standing(s, log, w) == {} && Charges(s, w) == {}
  {
  }

  lemma OpenApart(policies: Policies, s: Limiter, log: Log, key: Key, a: int)
    requires |s.windows| == |log.starts| && Apart(policies, s, log) && AllEnded(policies, s, log, key, a)
    ensures Apart(policies, OpenWindow(s, key, a), log.(starts := log.starts + [a]))
  {
  }

  lemma OpenedBucket(policies: Policies, s: Limiter, log: Log, key: Key, a: int)
    requires Kept(policies, s) && |s.windows| == |log.starts|
    ensures BucketTraced(policies, OpenWindow(s, key, a), log.(starts := log.starts + [a]), a, key)
  {
    var after, longer, w := OpenWindow(s, key, a), log.(starts := log.starts + [a]), |s.windows|;
    NoneStanding(policies, s, log, w);
    StandingFrame(s, log, after, longer, w);
    ChargesFrame(s, after, w);
    assert Held(after.reservations, key) == {};
  }

  lemma OtherBucket(policies: Policies, s: Limiter, log: Log, t: int, key: Key, a: int, k: Key)
    requires Traced(policies, s, log, t) && t <= a && k != key && k in s.buckets
    ensures BucketTraced(policies, OpenWindow(s, key, a), log.(starts := log.starts + [a]), a, k)
  {
    var after, longer := OpenWindow(s, key, a), log.(starts := log.starts + [a]);
    assert BucketTraced(policies, s, log, t, k);
    StandingFrame(s, log, after, longer, s.current[k]);
    ChargesFrame(s, after, s.current[k]);
    HeldWithout(s.reservations, key, k);
  }

  lemma HeldWithout(reservations: map<nat, Reservation>, key: Key, k: Key)
    requires k != key
    ensures Held(Without(reservations, key), k) == Held(reservations, k)
  {
  }

  lemma PreparedTraced(policies: Policies, s: Limiter, log: Log, t: int, key: Key, createdAt: int, now: int)
    requires Kept(policies, s) && Traced(policies, s, log, t) && NotAfter(s, t)
    requires key.action in policies && Sound(policies[key.action]) && t <= createdAt <= now
    requires key in s.buckets ==> key in s.current
    ensures var p := policies[key.action];
            Traced(policies, Prepared(p, s, key, createdAt, now), log.(starts := log.starts + Started(p, s, key, createdAt, now)), now)
  {
    if key in s.buckets {
      assert log.starts + [] == log.starts;
      assert log.starts + ([] + [now]) == log.starts + [now] && log.starts + ([] + []) == log.starts;
      RestartTraced(policies, s, log, t, key, now);
    } else {
      EndedBy(policies, s, log, t, key, createdAt);
      OpenTraced(policies, s, log, t, key, createdAt);
      OpenKeeps(policies, s, key, createdAt);
      var longer := log.(starts := log.starts + [createdAt]);
      assert log.starts + ([createdAt] + [now]) == longer.starts + [now] && log.starts + ([createdAt] + []) == longer.starts;
      RestartTraced(policies, OpenWindow(s, key, createdAt), longer, createdAt, key, now);
    }
  }

  lemma RestartTraced(policies: Policies, s: Limiter, log: Log, t: int, key: Key, now: int)
    requires Kept(policies, s) && Traced(policies, s, log, t) && key in s.buckets && key.action in policies && t <= now
    ensures if Ended(policies[key.action], s.buckets[key], now)
            then Traced(policies, OpenWindow(s, key, now), log.(starts := log.starts + [now]), now)
            else Traced(policies, s, log, now)
  {
    if Ended(policies[key.action], s.buckets[key], now) {
      EndedBy(policies, s, log, t, key, now);
      OpenTraced(policies, s, log, t, key, now);
    } else {
      Later(policies, s, log, t, now);
    }
  }

  // ----- Admitting and refusing -----

  /** There is a place, and the window lasts. */
  predicate Admissible(policies: Policies, s: Limiter, key: Key, id: nat, now: int) {
    && key in s.buckets && key in s.current && key.action in policies && id !in s.admitted
    && !Full(policies[key.action], s.buckets[key], now) && !Ended(policies[key.action], s.buckets[key], now)
  }

  lemma AdmitTraced(policies: Policies, s: Limiter, log: Log, key: Key, id: nat, now: int, at: int)
    requires Kept(policies, s) && Traced(policies, s, log, now) && NotAfter(s, now) && Admissible(policies, s, key, id, now)
    ensures Traced(policies, Admit(policies[key.action], s, key, id, at), log.(at := log.at[id := now]), now)
  {
    AdmitJoins(policies, s, log, key, id, now, at);
    JoinedTraced(policies, s, log, Admit(policies[key.action], s, key, id, at), log.(at := log.at[id := now]), key, id, now);
  }

  /** What admitting an attempt does, but for the counts of its bucket. */
  ghost predicate Joined(s: Limiter, log: Log, after: Limiter, later: Log, key: Key, id: nat, now: int) {
    && key in s.current && after.windows == s.windows && after.current == s.current && after.charged == s.charged
    && after.admitted == s.admitted[id := s.current[key]] && id in after.reservations && after.reservations[id].key == key
    && after.reservations == s.reservations[id := after.reservations[id]]
    && later == log.(at := log.at[id := now]) && after.buckets.Keys == s.buckets.Keys
    && forall k | k in s.buckets :: after.buckets[k].windowStartedAt == s.buckets[k].windowStartedAt
  }

  lemma AdmitJoins(policies: Policies, s: Limiter, log: Log, key: Key, id: nat, now: int, at: int)
    requires Admissible(policies, s, key, id, now)
    ensures Joined(s, log, Admit(policies[key.action], s, key, id, at), log.(at := log.at[id := now]), key, id, now)
  {
  }

  lemma JoinedTraced(policies: Policies, s: Limiter, log: Log, after: Limiter, later: Log, key: Key, id: nat, now: int)
    requires Kept(policies, s) && Traced(policies, s, log, now) && NotAfter(s, now) && Admissible(policies, s, key, id, now)
    requires Joined(s, log, after, later, key, id, now)
    ensures Traced(policies, after, later, now)
  {
    JoinedTimes(policies, s, log, after, later, key, id, now);
    Unreserved(policies, s, id);
    forall k | k in after.buckets ensures BucketTraced(policies, after, later, now, k) {
      JoinedBucket(policies, s, log, after, later, key, id, now, k);
    }
    forall w | 0 <= w < |after.windows| ensures Over(policies, after, later, now, w) {
      OverFrame(policies, s, log, now, after, later, now, w);
    }
    JoinedReturned(s, log, after, later, key, id, now);
  }

  lemma JoinedReturned(s: Limiter, log: Log, after: Limiter, later: Log, key: Key, id: nat, now: int)
    requires ReturnedOk(s, log) && id !in s.admitted && Joined(s, log, after, later, key, id, now)
    ensures ReturnedOk(after, later)
  {
  }

  lemma JoinedTimes(policies: Policies, s: Limiter, log: Log, after: Limiter, later: Log, key: Key, id: nat, now: int)
    requires Kept(policies, s) && Traced(policies, s, log, now) && NotAfter(s, now) && Admissible(policies, s, key, id, now)
    requires Joined(s, log, after, later, key, id, now)
    ensures Times(policies, after, later)
  {
    JoinedInTime(policies, s, log, after, later, key, id, now);
    SameApart(policies, s, log, after, later);
    forall w | 0 <= w < |after.windows| ensures |Standing(after, later, w)| <= LimitOf(policies, after.windows[w]) {
      JoinedStanding(policies, s, log, after, later, key, id, now, w);
    }
  }

  lemma SameApart(policies: Policies, s: Limiter, log: Log, after: Limiter, later: Log)
    requires |s.windows| == |log.starts| && Apart(policies, s, log) && after.windows == s.windows && later.starts == log.starts
    ensures Apart(policies, after, later)
  {
  }

  lemma JoinedInTime(policies: Policies, s: Limiter, log: Log, after: Limiter, later: Log, key: Key, id: nat, now: int)
    requires Kept(policies, s) && Traced(policies, s, log, now) && NotAfter(s, now) && Admissible(policies, s, key, id, now)
    requires Joined(s, log, after, later, key, id, now)
    ensures forall i | i in after.admitted :: AdmittedInTime(policies, after, later, i)
  {
    AdmitInstant(policies, s, log, key, now);
    forall i | i in after.admitted ensures AdmittedInTime(policies, after, later, i) {
      if i != id {
        assert AdmittedInTime(policies, s, log, i);
        StillInTime(policies, s, log, after, later, key, id, now, i);
      }
    }
  }

  lemma StillInTime(
    policies: Policies, s: Limiter, log: Log, after: Limiter, later: Log, key: Key, id: nat, now: int, i: nat)
    requires Joined(s, log, after, later, key, id, now) && i != id && i in s.admitted && AdmittedInTime(policies, s, log, i)
    ensures i in after.admitted && AdmittedInTime(policies, after, later, i)
  {
  }

  lemma AdmitInstant(policies: Policies, s: Limiter, log: Log, key: Key, now: int)
    requires Kept(policies, s) && Traced(policies, s, log, now) && NotAfter(s, now)
    requires key in s.buckets && key in s.current && key.action in policies && !Ended(policies[key.action], s.buckets[key], now)
    ensures s.current[key] < |s.windows| && log.starts[s.current[key]] <= now < EndOf(policies, s, log, s.current[key])
  {
    assert BucketTraced(policies, s, log, now, key) && BucketOk(policies, s, key);
  }

  lemma DisjointCount(policies: Policies, s: Limiter, key: Key)
    requires Kept(policies, s) && key in s.buckets
    ensures key in s.current
    ensures |Charges(s, s.current[key]) + Held(s.reservations, key)| == s.buckets[key].count + s.buckets[key].reservedCount
  {
    assert BucketOk(policies, s, key);
    var charges, held := Charges(s, s.current[key]), Held(s.reservations, key);
    forall id | id in held ensures id !in charges { assert ReservationOk(policies, s, id); }
    assert |charges + held| == |charges| + |held|;
  }

  lemma JoinedStanding(
    policies: Policies, s: Limiter, log: Log, after: Limiter, later: Log, key: Key, id: nat, now: int, w: nat)
    requires Kept(policies, s) && Traced(policies, s, log, now) && Admissible(policies, s, key, id, now) && w < |s.windows|
    requires Joined(s, log, after, later, key, id, now)
    ensures |Standing(after, later, w)| <= LimitOf(policies, s.windows[w])
  {
    StandingGrows(s, log, after, later, id, s.current[key], w);
    if w == s.current[key] { RoomLeft(policies, s, log, key, id, now); }
  }

  lemma StandingGrows(s: Limiter, log: Log, after: Limiter, later: Log, id: nat, current: nat, w: nat)
    requires after.admitted == s.admitted[id := current] && id !in s.admitted && id !in log.returned
    requires later.returned == log.returned
    ensures Standing(after, later, w) == Standing(s, log, w) + if w == current then {id} else {}
  {
  }

  lemma RoomLeft(policies: Policies, s: Limiter, log: Log, key: Key, id: nat, now: int)
    requires Kept(policies, s) && Traced(policies, s, log, now) && Admissible(policies, s, key, id, now)
    ensures s.current[key] < |s.windows| && s.windows[s.current[key]] == key
    ensures |Standing(s, log, s.current[key])| < LimitOf(policies, key)
  {
    assert BucketTraced(policies, s, log, now, key);
    DisjointCount(policies, s, key);
  }

  lemma JoinedBucket(
    policies: Policies, s: Limiter, log: Log, after: Limiter, later: Log, key: Key, id: nat, now: int, k: Key)
    requires Kept(policies, s) && Traced(policies, s, log, now) && Admissible(policies, s, key, id, now) && k in s.buckets
    requires Joined(s, log, after, later, key, id, now) && id !in s.reservations
    ensures BucketTraced(policies, after, later, now, k)
  {
    assert BucketTraced(policies, s, log, now, k) && BucketTraced(policies, s, log, now, key);
    assert k != key ==> s.current[k] != s.current[key];
    if now < EndOf(policies, s, log, s.current[k]) {
      TakesPlace(s, log, after, later, id, after.reservations[id], s.current[key], s.current[k], k);
    }
    BucketFrame(policies, s, log, now, after, later, now, k);
  }

  /** The attempt joins the reservations. */
  lemma TakesPlace(s: Limiter, log: Log, after: Limiter, later: Log, id: nat, r: Reservation, current: nat, w: nat, k: Key)
    requires id !in s.reservations && id !in s.admitted && id !in s.charged && id !in log.returned
    requires r.key == k <==> current == w
    requires after.admitted == s.admitted[id := current] && after.reservations == s.reservations[id := r]
    requires after.charged == s.charged && later.returned == log.returned
    requires Standing(s, log, w) == Charges(s, w) + Held(s.reservations, k)
    ensures Standing(after, later, w) == Charges(after, w) + Held(after.reservations, k)
  {
    forall i ensures i in Standing(after, later, w) <==> i in Charges(after, w) + Held(after.reservations, k) {
      assert i in Standing(s, log, w) <==> i in Charges(s, w) + Held(s.reservations, k);
    }
  }

  lemma RefuseTraced(policies: Policies, s: Limiter, log: Log, t: int, key: Key, at: int)
    requires Traced(policies, s, log, t) && key in s.buckets && key.action in policies
    ensures Traced(policies, PutBucket(s, key, Refused(policies[key.action], s.buckets[key], at)), log, t)
  {
    var after := PutBucket(s, key, Refused(policies[key.action], s.buckets[key], at));
    SameStanding(policies, s, log, t, after);
  }

  /** What only touches counts and blocks of buckets. */
  lemma SameStanding(policies: Policies, s: Limiter, log: Log, t: int, after: Limiter)
    requires Traced(policies, s, log, t)
    requires after == s.(buckets := after.buckets) && after.buckets.Keys == s.buckets.Keys
    requires forall k | k in s.buckets :: after.buckets[k].windowStartedAt == s.buckets[k].windowStartedAt
    ensures Traced(policies, after, log, t)
  {
    TimesFrame(policies, s, log, after, log);
    forall w | 0 <= w < |after.windows| ensures Over(policies, after, log, t, w) {
      OverFrame(policies, s, log, t, after, log, t, w);
    }
    forall k | k in after.buckets ensures BucketTraced(policies, after, log, t, k) {
      assert BucketTraced(policies, s, log, t, k);
      StandingFrame(s, log, after, log, s.current[k]);
      ChargesFrame(s, after, s.current[k]);
      BucketFrame(policies, s, log, t, after, log, t, k);
    }
  }

  lemma ReserveTraced(policies: Policies, s: Limiter, log: Log, t: int, key: Key, id: nat, createdAt: int, now: int, at: int)
    requires Kept(policies, s) && Traced(policies, s, log, t) && NotAfter(s, t)
    requires key.action in policies && Sound(policies[key.action]) && id !in s.admitted && t <= createdAt <= now <= at
    ensures key in s.buckets ==> key in s.current
    ensures var step := ReserveStep(key, id, createdAt, now, at);
            Traced(policies, Apply(policies, s, step), Logged(policies, s, log, step), at)
  {
    PreparedKeeps(policies, s, key, createdAt, now);
    PreparedTraced(policies, s, log, t, key, createdAt, now);
    var p := policies[key.action];
    var prepared, longer := Prepared(p, s, key, createdAt, now), log.(starts := log.starts + Started(p, s, key, createdAt, now));
    var step := ReserveStep(key, id, createdAt, now, at);
    PlacedTraced(policies, prepared, longer, key, id, now, at, Apply(policies, s, step), Logged(policies, s, log, step));
  }

  /** The bucket is prepared: the attempt gets a place or is refused. */
  lemma PlacedTraced(policies: Policies, s: Limiter, log: Log, key: Key, id: nat, now: int, at: int, after: Limiter, later: Log)
    requires Kept(policies, s) && Traced(policies, s, log, now) && NotAfter(s, now) && now <= at && id !in s.admitted
    requires key in s.buckets && key in s.current && key.action in policies
    requires !Ended(policies[key.action], s.buckets[key], now)
    requires if Full(policies[key.action], s.buckets[key], now)
             then after == PutBucket(s, key, Refused(policies[key.action], s.buckets[key], at)) && later == log
             else after == Admit(policies[key.action], s, key, id, at) && later == log.(at := log.at[id := now])
    ensures Traced(policies, after, later, at)
  {
    if Full(policies[key.action], s.buckets[key], now) {
      RefuseTraced(policies, s, log, now, key, at);
    } else {
      AdmitTraced(policies, s, log, key, id, now, at);
    }
    Later(policies, after, later, now, at);
  }

  // ----- Finalizing -----

  /** What finalizing a reservation does, but for the counts of its bucket. */
  ghost predicate Finished(s: Limiter, log: Log, after: Limiter, later: Log, id: nat, charge: bool) {
    && id in s.reservations && after.windows == s.windows && after.current == s.current && after.admitted == s.admitted
    && after.reservations == s.reservations - {id} && after.charged == s.charged + (if charge then {id} else {})
    && later.starts == log.starts && later.at == log.at && later.returned == log.returned + (if charge then {} else {id})
    && after.buckets.Keys == s.buckets.Keys
    && forall k | k in s.buckets :: after.buckets[k].windowStartedAt == s.buckets[k].windowStartedAt
  }

  lemma FinalizeFinishes(policies: Policies, s: Limiter, log: Log, id: nat, outcome: Outcome, now: int, at: int)
    requires Kept(policies, s) && id in s.reservations
    ensures s.reservations[id].key in s.buckets
    ensures var step := FinalizeStep(id, outcome, now, at);
            Finished(s, log, Apply(policies, s, step), Logged(policies, s, log, step), id, Chargeable(policies, s, id, outcome, now))
  {
    assert ReservationOk(policies, s, id);
  }

  lemma FinishedTraced(
    policies: Policies, s: Limiter, log: Log, t: int, after: Limiter, later: Log, id: nat, charge: bool, at: int)
    requires Kept(policies, s) && Traced(policies, s, log, t) && t <= at && Finished(s, log, after, later, id, charge)
    ensures Traced(policies, after, later, at)
  {
    TimesFrame(policies, s, log, after, later);
    FinishedReturned(policies, s, log, after, later, id, charge);
    forall k | k in after.buckets ensures BucketTraced(policies, after, later, at, k) {
      FinishedBucket(policies, s, log, t, after, later, id, charge, at, k);
    }
    forall w | 0 <= w < |after.windows| ensures Over(policies, after, later, at, w) {
      OverFrame(policies, s, log, t, after, later, at, w);
    }
  }

  lemma FinishedReturned(policies: Policies, s: Limiter, log: Log, after: Limiter, later: Log, id: nat, charge: bool)
    requires Kept(policies, s) && ReturnedOk(s, log) && Finished(s, log, after, later, id, charge)
    ensures ReturnedOk(after, later)
  {
    assert ReservationOk(policies, s, id);
  }

  lemma FinishedBucket(
    policies: Policies, s: Limiter, log: Log, t: int, after: Limiter, later: Log, id: nat, charge: bool, at: int, k: Key)
    requires Kept(policies, s) && Traced(policies, s, log, t) && t <= at && Finished(s, log, after, later, id, charge)
    requires k in s.buckets
    ensures BucketTraced(policies, after, later, at, k)
  {
    var key := s.reservations[id].key;
    assert ReservationOk(policies, s, id);
    assert BucketTraced(policies, s, log, t, k) && BucketTraced(policies, s, log, t, key);
    assert k != key ==> s.current[k] != s.current[key];
    if at < EndOf(policies, s, log, s.current[k]) {
      LeavesReservations(s, log, after, later, id, charge, s.current[k], k);
    }
    BucketFrame(policies, s, log, t, after, later, at, k);
  }

  /** The attempt leaves the reservations, for the charges or for those given back. */
  lemma LeavesReservations(s: Limiter, log: Log, after: Limiter, later: Log, id: nat, charge: bool, w: nat, k: Key)
    requires id in s.reservations && id in s.admitted && id !in s.charged && id !in log.returned
    requires s.reservations[id].key == k <==> s.admitted[id] == w
    requires after.admitted == s.admitted && after.reservations == s.reservations - {id}
    requires after.charged == s.charged + (if charge then {id} else {})
    requires later.returned == log.returned + (if charge then {} else {id})
    requires Standing(s, log, w) == Charges(s, w) + Held(s.reservations, k)
    ensures Standing(after, later, w) == Charges(after, w) + Held(after.reservations, k)
  {
    forall i ensures i in Standing(after, later, w) <==> i in Charges(after, w) + Held(after.reservations, k) {
      assert i in Standing(s, log, w) <==> i in Charges(s, w) + Held(s.reservations, k);
    }
  }

  // ----- Cleaning up -----

  lemma DropExpiredTraced(policies: Policies, s: Limiter, log: Log, t: int, now: int, at: int)
    requires Kept(policies, s) && Traced(policies, s, log, t) && t <= now <= at
    ensures Traced(policies, DropExpired(s, now, at), log, at)
  {
    var after := DropExpired(s, now, at);
    TimesFrame(policies, s, log, after, log);
    forall w | 0 <= w < |after.windows| ensures Over(policies, after, log, at, w) {
      OverFrame(policies, s, log, t, after, log, at, w);
    }
    forall k | k in after.buckets ensures BucketTraced(policies, after, log, at, k) {
      DropBucketTraced(policies, s, log, t, now, at, k);
    }
  }

  lemma DropBucketTraced(policies: Policies, s: Limiter, log: Log, t: int, now: int, at: int, k: Key)
    requires Kept(policies, s) && Traced(policies, s, log, t) && t <= now <= at && k in s.buckets
    ensures BucketTraced(policies, DropExpired(s, now, at), log, at, k)
  {
    var after := DropExpired(s, now, at);
    assert BucketTraced(policies, s, log, t, k);
    if at < EndOf(policies, s, log, s.current[k]) {
      LastingHeld(policies, s, log, t, now, k);
      ChargesFrame(s, after, s.current[k]);
      StandingFrame(s, log, after, log, s.current[k]);
    }
    BucketFrame(policies, s, log, t, after, log, at, k);
  }

  lemma LastingHeld(policies: Policies, s: Limiter, log: Log, t: int, now: int, k: Key)
    requires Kept(policies, s) && k in s.buckets && |s.windows| == |log.starts| && BucketTraced(policies, s, log, t, k)
    requires now < EndOf(policies, s, log, s.current[k])
    ensures Held(s.reservations - Expired(s.reservations, now), k) == Held(s.reservations, k)
  {
    assert BucketOk(policies, s, k);
    forall id | id in Held(s.reservations, k) ensures id !in Expired(s.reservations, now) {
      assert ReservationOk(policies, s, id);
    }
  }

  lemma DropIdleTraced(policies: Policies, s: Limiter, log: Log, t: int, idleAt: int)
    requires Kept(policies, s) && Traced(policies, s, log, t) && t <= idleAt
    ensures Traced(policies, DropIdle(s, idleAt), log, idleAt)
  {
    var after := DropIdle(s, idleAt);
    TimesFrame(policies, s, log, after, log);
    forall w | 0 <= w < |after.windows| ensures Over(policies, after, log, idleAt, w) {
      IdleOver(policies, s, log, t, idleAt, w);
    }
    forall k | k in after.buckets ensures BucketTraced(policies, after, log, idleAt, k) {
      assert BucketTraced(policies, s, log, t, k);
      IdleHeld(s, idleAt, k);
      ChargesFrame(s, after, s.current[k]);
      StandingFrame(s, log, after, log, s.current[k]);
      BucketFrame(policies, s, log, t, after, log, idleAt, k);
    }
  }

  lemma IdleHeld(s: Limiter, idleAt: int, k: Key)
    requires k in DropIdle(s, idleAt).buckets
    ensures Held(DropIdle(s, idleAt).reservations, k) == Held(s.reservations, k)
  {
  }

  /** A bucket untouched for a day has no window left: none lasts more than an hour. */
  lemma IdleOver(policies: Policies, s: Limiter, log: Log, t: int, idleAt: int, w: nat)
    requires Kept(policies, s) && Traced(policies, s, log, t) && t <= idleAt && w < |s.windows|
    ensures Over(policies, DropIdle(s, idleAt), log, idleAt, w)
  {
    var key := s.windows[w];
    assert Over(policies, s, log, t, w);
    if key in s.buckets && key !in DropIdle(s, idleAt).buckets {
      assert BucketOk(policies, s, key);
      Later(policies, s, log, t, idleAt);
      EndedBy(policies, s, log, idleAt, key, idleAt);
    }
  }

  lemma CleanupTraced(policies: Policies, s: Limiter, log: Log, t: int, expiredAt: int, touchedAt: int, idleAt: int)
    requires Kept(policies, s) && Traced(policies, s, log, t) && NotAfter(s, touchedAt)
    requires t <= expiredAt <= touchedAt <= idleAt
    ensures Traced(policies, Cleanup(s, expiredAt, touchedAt, idleAt), log, idleAt)
  {
    DropExpiredTraced(policies, s, log, t, expiredAt, touchedAt);
    DropExpiredKeeps(policies, s, expiredAt, touchedAt);
    DropIdleTraced(policies, DropExpired(s, expiredAt, touchedAt), log, touchedAt, idleAt);
  }

  // ----- Runs -----

  lemma FinalizeTraced(policies: Policies, s: Limiter, log: Log, t: int, id: nat, outcome: Outcome, now: int, at: int)
    requires Kept(policies, s) && Traced(policies, s, log, t) && t <= now <= at
    ensures var step := FinalizeStep(id, outcome, now, at);
            Traced(policies, Apply(policies, s, step), Logged(policies, s, log, step), at)
  {
    var step := FinalizeStep(id, outcome, now, at);
    if id in s.reservations {
      FinalizeFinishes(policies, s, log, id, outcome, now, at);
      FinishedTraced(policies, s, log, t, Apply(policies, s, step), Logged(policies, s, log, step), id,
                     Chargeable(policies, s, id, outcome, now), at);
    } else {
      Later(policies, s, log, t, at);
    }
  }

  lemma StepTraced(policies: Policies, s: Limiter, log: Log, t: int, step: Step)
    requires Kept(policies, s) && Traced(policies, s, log, t) && NotAfter(s, t)
    requires Feasible(policies, step) && (step.ReserveStep? ==> step.id !in s.admitted) && InOrder(step) && t <= First(step)
    ensures Traced(policies, Apply(policies, s, step), Logged(policies, s, log, step), Last(step))
  {
    match step
    case ReserveStep(key, id, createdAt, now, at) => ReserveTraced(policies, s, log, t, key, id, createdAt, now, at);
    case FinalizeStep(id, outcome, now, at) => FinalizeTraced(policies, s, log, t, id, outcome, now, at);
    case CleanupStep(expiredAt, touchedAt, idleAt) => CleanupTraced(policies, s, log, t, expiredAt, touchedAt, idleAt);
  }

  lemma StepKeeps(policies: Policies, s: Limiter, t: int, step: Step)
    requires Kept(policies, s) && NotAfter(s, t)
    requires Feasible(policies, step) && (step.ReserveStep? ==> step.id !in s.admitted) && InOrder(step) && t <= First(step)
    ensures Kept(policies, Apply(policies, s, step))
  {
    match step
    case ReserveStep(key, id, createdAt, now, at) => ReserveKeeps(policies, s, key, id, createdAt, now, at);
    case FinalizeStep(id, outcome, now, at) => FinalizeKeeps(policies, s, id, outcome, now, at);
    case CleanupStep(expiredAt, touchedAt, idleAt) => CleanupKeeps(policies, s, expiredAt, touchedAt, idleAt);
  }

  lemma StepTouches(policies: Policies, s: Limiter, t: int, step: Step)
    requires NotAfter(s, t) && InOrder(step) && t <= First(step)
    ensures NotAfter(Apply(policies, s, step), Last(step))
  {
  }

  lemma {:induction false} RunTraced(policies: Policies, s: Limiter, log: Log, t: int, steps: seq<Step>) returns (end: int)
    requires Kept(policies, s) && Traced(policies, s, log, t) && NotAfter(s, t)
    requires FeasibleRun(policies, s, steps) && Ticking(steps, t)
    ensures Traced(policies, Run(policies, s, steps), RunLog(policies, s, log, steps), end)
    decreases |steps|
  {
    if steps == [] {
      end := t;
    } else {
      StepTraced(policies, s, log, t, steps[0]);
      StepKeeps(policies, s, t, steps[0]);
      StepTouches(policies, s, t, steps[0]);
      end := RunTraced(policies, Apply(policies, s, steps[0]), Logged(policies, s, log, steps[0]), Last(steps[0]), steps[1..]);
    }
  }

  // ----- The budget of a span -----

  /** The attempts on a bucket admitted in [from, from + length) that have not given their place
      back. */
  function Taken(s: Limiter, log: Log, key: Key, from: int, length: int): set<nat> {
    set id | id in s.admitted && s.admitted[id] < |s.windows| && s.windows[s.admitted[id]] == key
             && id in log.at && from <= log.at[id] < from + length && id !in log.returned
  }

  /** Three windows of one bucket do not meet one span as long as the window. */
  lemma ThreeApart(policies: Policies, s: Limiter, log: Log, t: int, key: Key, from: int, x: nat, y: nat, z: nat)
    requires Traced(policies, s, log, t)
    requires var taken := Taken(s, log, key, from, LengthOf(policies, key)); x in taken && y in taken && z in taken
    ensures !(s.admitted[x] < s.admitted[y] < s.admitted[z])
  {
    assert AdmittedInTime(policies, s, log, x) && AdmittedInTime(policies, s, log, y) && AdmittedInTime(policies, s, log, z);
  }

  lemma TwoWindows(policies: Policies, s: Limiter, log: Log, t: int, key: Key, from: int) returns (a: nat, b: nat)
    requires Traced(policies, s, log, t) && Taken(s, log, key, from, LengthOf(policies, key)) != {}
    ensures a < |s.windows| && b < |s.windows| && s.windows[a] == s.windows[b] == key
    ensures Taken(s, log, key, from, LengthOf(policies, key)) <= Standing(s, log, a) + Standing(s, log, b)
  {
    var taken := Taken(s, log, key, from, LengthOf(policies, key));
    var x :| x in taken;
    a, b := s.admitted[x], s.admitted[x];
    if y :| y in taken && s.admitted[y] != a {
      b := s.admitted[y];
      forall z | z in taken ensures s.admitted[z] == a || s.admitted[z] == b {
        ThreeApart(policies, s, log, t, key, from, x, y, z);
        ThreeApart(policies, s, log, t, key, from, x, z, y);
        ThreeApart(policies, s, log, t, key, from, y, x, z);
        ThreeApart(policies, s, log, t, key, from, y, z, x);
        ThreeApart(policies, s, log, t, key, from, z, x, y);
        ThreeApart(policies, s, log, t, key, from, z, y, x);
      }
    }
  }

  lemma TracedSpan(policies: Policies, s: Limiter, log: Log, t: int, key: Key, from: int)
    requires Traced(policies, s, log, t)
    ensures |Taken(s, log, key, from, LengthOf(policies, key))| <= 2 * LimitOf(policies, key)
            || Taken(s, log, key, from, LengthOf(policies, key)) == {}
  {
    var taken := Taken(s, log, key, from, LengthOf(policies, key));
    if taken != {} {
      var a, b := TwoWindows(policies, s, log, t, key, from);
      Subset(taken, Standing(s, log, a) + Standing(s, log, b));
      assert |Standing(s, log, a) + Standing(s, log, b)| <= |Standing(s, log, a)| + |Standing(s, log, b)|;
    }
  }

  /** Under any interleaving of reserve, finalize and cleanup: of the attempts on one bucket that
      were admitted in a span as long as its window, at most twice the limit have not given their
      place back. */
  lemma ReserveBudget(policies: Policies, steps: seq<Step>, t: int, key: Key, from: int)
    requires FeasibleRun(policies, EMPTY, steps) && Ticking(steps, t) && key.action in policies
    ensures |Taken(Run(policies, EMPTY, steps), RunLog(policies, EMPTY, NOTHING, steps), key, from, policies[key.action].windowMs)|
            <= 2 * policies[key.action].limit
  {
    var end := RunTraced(policies, EMPTY, NOTHING, t, steps);
    TracedSpan(policies, Run(policies, EMPTY, steps), RunLog(policies, EMPTY, NOTHING, steps), end, key, from);
  }

  // ----- Places given back -----

  const POLICIES: Policies := map["invitation" := INVITATION_ACCEPTANCE_DIGEST]
  const SUBJECT: Key := Key("invitation", "subject")

  /** One attempt after another, each given back at once. */
  function Rounds(id: nat, n: nat): seq<Step>
    decreases n
  {
    if n == 0 then []
    else [ReserveStep(SUBJECT, id, 0, 0, 0)] + ([FinalizeStep(id, Release, 0, 0)] + Rounds(id + 1, n - 1))
  }

  /** Before a round: nothing is there yet, or one window is, with every place free. */
  ghost predicate Idle(s: Limiter, log: Log, id: nat) {
    && (s.buckets == map[] || (s.buckets == map[SUBJECT := Fresh(0)] && SUBJECT in s.current))
    && s.reservations == map[] && log.at.Keys == s.admitted.Keys && (forall i | i in s.admitted :: i < id && log.at[i] == 0)
  }

  ghost predicate Runs(s: Limiter, log: Log, steps: seq<Step>, after: Limiter, later: Log) {
    && FeasibleRun(POLICIES, s, steps) && Ticking(steps, 0)
    && after == Run(POLICIES, s, steps) && later == RunLog(POLICIES, s, log, steps)
  }

  lemma RunsOn(s: Limiter, log: Log, step: Step, held: Limiter, noted: Log, rest: seq<Step>, after: Limiter, later: Log)
    requires FeasibleRun(POLICIES, s, [step]) && InOrder(step) && First(step) == Last(step) == 0
    requires held == Apply(POLICIES, s, step) && noted == Logged(POLICIES, s, log, step) && Runs(held, noted, rest, after, later)
    ensures Runs(s, log, [step] + rest, after, later)
  {
    assert ([step] + rest)[1..] == rest;
  }

  ghost predicate Reserves(s: Limiter, log: Log, id: nat, held: Limiter, noted: Log) {
    var step := ReserveStep(SUBJECT, id, 0, 0, 0);
    FeasibleRun(POLICIES, s, [step]) && held == Apply(POLICIES, s, step) && noted == Logged(POLICIES, s, log, step)
  }

  ghost predicate Releases(s: Limiter, log: Log, id: nat, after: Limiter, later: Log) {
    var step := FinalizeStep(id, Release, 0, 0);
    FeasibleRun(POLICIES, s, [step]) && after == Apply(POLICIES, s, step) && later == Logged(POLICIES, s, log, step)
  }

  lemma Reserving(s: Limiter, log: Log, id: nat) returns (held: Limiter, noted: Log)
    requires Idle(s, log, id)
    ensures Reserves(s, log, id, held, noted)
    ensures held.buckets == map[SUBJECT := Bucket(0, 0, 0, 1, None, 0)] && SUBJECT in held.current
    ensures held.reservations == map[id := Reservation(SUBJECT, HOUR_MS)]
    ensures held.admitted.Keys == s.admitted.Keys + {id} && noted.at == log.at[id := 0]
  {
    var step := ReserveStep(SUBJECT, id, 0, 0, 0);
    var prepared := Prepared(INVITATION_ACCEPTANCE_DIGEST, s, SUBJECT, 0, 0);
    assert prepared.buckets == map[SUBJECT := Fresh(0)] && prepared.reservations == map[];
    held, noted := Apply(POLICIES, s, step), Logged(POLICIES, s, log, step);
    assert [step][1..] == [];
  }

  lemma Releasing(s: Limiter, log: Log, id: nat) returns (after: Limiter, later: Log)
    requires s.buckets == map[SUBJECT := Bucket(0, 0, 0, 1, None, 0)] && SUBJECT in s.current
    requires s.reservations == map[id := Reservation(SUBJECT, HOUR_MS)]
    ensures Releases(s, log, id, after, later)
    ensures after.buckets == map[SUBJECT := Fresh(0)] && SUBJECT in after.current && after.reservations == map[]
    ensures after.admitted == s.admitted && later.at == log.at
  {
    var step := FinalizeStep(id, Release, 0, 0);
    after, later := Apply(POLICIES, s, step), Logged(POLICIES, s, log, step);
    assert [step][1..] == [];
  }

  lemma IdleNext(s: Limiter, log: Log, after: Limiter, later: Log, id: nat)
    requires Idle(s, log, id) && after.admitted.Keys == s.admitted.Keys + {id} && later.at == log.at[id := 0]
    requires after.buckets == map[SUBJECT := Fresh(0)] && SUBJECT in after.current && after.reservations == map[]
    ensures Idle(after, later, id + 1) && |after.admitted| == |s.admitted| + 1
  {
    assert id !in s.admitted;
    assert |after.admitted| == |after.admitted.Keys| && |s.admitted| == |s.admitted.Keys|;
  }

  lemma RoundOn(s: Limiter, log: Log, id: nat, held: Limiter, noted: Log, freed: Limiter, known: Log,
                rest: seq<Step>, after: Limiter, later: Log)
    requires Reserves(s, log, id, held, noted) && Releases(held, noted, id, freed, known)
    requires Runs(freed, known, rest, after, later)
    ensures Runs(s, log, [ReserveStep(SUBJECT, id, 0, 0, 0)] + ([FinalizeStep(id, Release, 0, 0)] + rest), after, later)
  {
    RunsOn(held, noted, FinalizeStep(id, Release, 0, 0), freed, known, rest, after, later);
    RunsOn(s, log, ReserveStep(SUBJECT, id, 0, 0, 0), held, noted, [FinalizeStep(id, Release, 0, 0)] + rest, after, later);
  }

  /** Round by round, and the end. */
  ghost predicate Admits(s: Limiter, log: Log, id: nat, n: nat, rounds: seq<Step>, after: Limiter, later: Log) {
    Runs(s, log, rounds, after, later) && |after.admitted| == |s.admitted| + n && Idle(after, later, id + n)
  }

  ghost predicate Reach(s: Limiter, log: Log, id: nat, n: nat, rounds: seq<Step>) {
    exists after, later :: Admits(s, log, id, n, rounds, after, later)
  }

  lemma NoRounds(s: Limiter, log: Log, id: nat)
    requires Idle(s, log, id)
    ensures Reach(s, log, id, 0, Rounds(id, 0))
  {
    assert Admits(s, log, id, 0, [], s, log);
  }

  /** A round leads to where the others can begin. */
  lemma OneRound(s: Limiter, log: Log, id: nat, n: nat) returns (freed: Limiter, known: Log)
    requires Idle(s, log, id) && n > 0
    ensures Idle(freed, known, id + 1)
    ensures Reach(freed, known, id + 1, n - 1, Rounds(id + 1, n - 1)) ==> Reach(s, log, id, n, Rounds(id, n))
  {
    var held, noted := Reserving(s, log, id);
    freed, known := Releasing(held, noted, id);
    IdleNext(s, log, freed, known, id);
    if Reach(freed, known, id + 1, n - 1, Rounds(id + 1, n - 1)) { RoundsOn(s, log, id, n, held, noted, freed, known); }
  }

  lemma RoundsOn(s: Limiter, log: Log, id: nat, n: nat, held: Limiter, noted: Log, freed: Limiter, known: Log)
    requires Reserves(s, log, id, held, noted) && Releases(held, noted, id, freed, known) && |freed.admitted| == |s.admitted| + 1
    requires n > 0 && Reach(freed, known, id + 1, n - 1, Rounds(id + 1, n - 1))
    ensures Reach(s, log, id, n, Rounds(id, n))
  {
    var after, later :| Admits(freed, known, id + 1, n - 1, Rounds(id + 1, n - 1), after, later);
    RoundOn(s, log, id, held, noted, freed, known, Rounds(id + 1, n - 1), after, later);
    assert Admits(s, log, id, n, Rounds(id, n), after, later);
  }

  lemma {:induction false} RoundsAdmit(s: Limiter, log: Log, id: nat, n: nat)
    requires Idle(s, log, id)
    ensures Reach(s, log, id, n, Rounds(id, n))
    decreases n
  {
    if n == 0 {
      NoRounds(s, log, id);
    } else {
      var freed, known := OneRound(s, log, id, n);
      RoundsAdmit(freed, known, id + 1, n - 1);
    }
  }

  /** A place given back can be taken again: at one instant any number of attempts is admitted, one
      after another, in a window of five. */
  lemma AnyNumberAdmitted(n: nat)
    ensures FeasibleRun(POLICIES, EMPTY, Rounds(0, n)) && Ticking(Rounds(0, n), 0)
    ensures |Run(POLICIES, EMPTY, Rounds(0, n)).admitted| == n
    ensures forall id | id in Run(POLICIES, EMPTY, Rounds(0, n)).admitted ::
              id in RunLog(POLICIES, EMPTY, NOTHING, Rounds(0, n)).at && RunLog(POLICIES, EMPTY, NOTHING, Rounds(0, n)).at[id] == 0
  {
    RoundsAdmit(EMPTY, NOTHING, 0, n);
    var after, later :| Admits(EMPTY, NOTHING, 0, n, Rounds(0, n), after, later);
  }
}
