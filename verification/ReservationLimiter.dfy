/** Reserved attempts: reserve, finalize and cleanup in src/auth-rate-limits.ts. An attempt takes
    a place in its window before it is made, and is charged or given back afterwards. */
module ReservationLimiter {
  import opened Optional
  import opened RateLimitPolicy

  datatype Reservation = Reservation(key: Key, expiresAt: int)

  datatype Outcome = Consume | Release

  datatype Decision = Allowed(reservation: nat) | Denied(retryAfterSeconds: int, repeatedExcess: bool)

  type Policies = map<string, Policy>

  // The two tables, and their history: every window ever opened, in order, by its bucket; which
  // window a bucket is in; which window admitted a reservation; and which were charged.
  datatype Limiter = Limiter(
    buckets: map<Key, Bucket>, reservations: map<nat, Reservation>,
    windows: seq<Key>, current: map<Key, nat>, admitted: map<nat, nat>, charged: set<nat>)

  const EMPTY: Limiter := Limiter(map[], map[], [], map[], map[], {})

  // ----- What is kept -----

  function Held(reservations: map<nat, Reservation>, key: Key): set<nat> {
    set id | id in reservations && reservations[id].key == key
  }

  /** The charged reservations that a window admitted. */
  function Charges(s: Limiter, window: nat): set<nat> {
    set id | id in s.charged && id in s.admitted && s.admitted[id] == window
  }

  predicate BucketOk(policies: Policies, s: Limiter, key: Key)
    requires key in s.buckets
  {
    var b := s.buckets[key];
    && key.action in policies && Sound(policies[key.action])
    && b.reservedCount == |Held(s.reservations, key)|
    && b.count + b.reservedCount <= policies[key.action].limit
    && b.windowStartedAt <= b.updatedAt
    && (b.blockedUntil.Some? ==> b.blockedUntil.value <= WindowEnd(policies[key.action], b))
    && key in s.current && s.current[key] < |s.windows| && s.windows[s.current[key]] == key
    && b.count == |Charges(s, s.current[key])|
  }

  /** A reservation belongs to its bucket's current window and ends with it. */
  predicate ReservationOk(policies: Policies, s: Limiter, id: nat)
    requires id in s.reservations
  {
    var r := s.reservations[id];
    && r.key in s.buckets && r.key.action in policies
    && r.expiresAt == WindowEnd(policies[r.key.action], s.buckets[r.key])
    && r.key in s.current && id in s.admitted && s.admitted[id] == s.current[r.key]
    && id !in s.charged
  }

  /** No window, past or current, is charged beyond its limit. */
  predicate WindowOk(policies: Policies, s: Limiter, window: nat)
    requires window < |s.windows|
  {
    s.windows[window].action in policies && |Charges(s, window)| <= policies[s.windows[window].action].limit
  }

  ghost predicate Kept(policies: Policies, s: Limiter) {
    && (forall key | key in s.buckets :: BucketOk(policies, s, key))
    && (forall id | id in s.reservations :: ReservationOk(policies, s, id))
    && (forall w | 0 <= w < |s.windows| :: WindowOk(policies, s, w))
    && (forall id | id in s.admitted :: s.admitted[id] < |s.windows|)
    && s.charged <= s.admitted.Keys
  }

  // ----- Reserving -----

  predicate Ended(p: Policy, b: Bucket, now: int) {
    WindowEnd(p, b) <= now
  }

  predicate Blocked(b: Bucket, now: int) {
    b.blockedUntil.Some? && b.blockedUntil.value > now
  }

  predicate Full(p: Policy, b: Bucket, now: int) {
    Blocked(b, now) || b.count + b.reservedCount >= p.limit
  }

  function Fresh(at: int): Bucket {
    Bucket(at, 0, 0, 0, None, at)
  }

  /** A denial lengthens the block, but not beyond the window. */
  function Refused(p: Policy, b: Bucket, at: int): Bucket {
    b.(deniedCount := b.deniedCount + 1,
       blockedUntil := if p.backoffMs > 0 then Some(Min(WindowEnd(p, b), at + Doubling(b.deniedCount) * p.backoffMs))
                       else b.blockedUntil,
       updatedAt := at)
  }

  function Without(reservations: map<nat, Reservation>, key: Key): map<nat, Reservation> {
    map id | id in reservations && reservations[id].key != key :: reservations[id]
  }

  /** A bucket starts a window: its reservations of the last one are dropped. */
  function OpenWindow(s: Limiter, key: Key, at: int): Limiter {
    s.(buckets := s.buckets[key := Fresh(at)], reservations := Without(s.reservations, key),
       windows := s.windows + [key], current := s.current[key := |s.windows|])
  }

  /** The row is created if it is missing, and restarted when its window has ended. */
  function Prepared(p: Policy, s: Limiter, key: Key, createdAt: int, now: int): (r: Limiter)
    requires key in s.buckets ==> key in s.current
    ensures key in r.buckets && key in r.current
  {
    var created := if key in s.buckets then s else OpenWindow(s, key, createdAt);
    if Ended(p, created.buckets[key], now) then OpenWindow(created, key, now) else created
  }

  function Admit(p: Policy, s: Limiter, key: Key, id: nat, at: int): Limiter
    requires key in s.buckets && key in s.current
  {
    var b := s.buckets[key];
    s.(buckets := s.buckets[key := b.(reservedCount := b.reservedCount + 1, updatedAt := at)],
       reservations := s.reservations[id := Reservation(key, WindowEnd(p, b))],
       admitted := s.admitted[id := s.current[key]])
  }

  function PutBucket(s: Limiter, key: Key, b: Bucket): Limiter {
    s.(buckets := s.buckets[key := b])
  }

  datatype Reserved = Reserved(state: Limiter, decision: Decision)

  function DenialOf(p: Policy, b: Bucket, refused: Bucket, now: int): Decision {
    Denied(RetryAfter(Max(WindowEnd(p, b), match refused.blockedUntil case None => 0 case Some(t) => t), now),
           refused.deniedCount >= 3)
  }

  /** reserve: `createdAt`, `now` and `at` are its clock readings, in order. */
  function Reserve(policies: Policies, s: Limiter, key: Key, id: nat, createdAt: int, now: int, at: int): Reserved
    requires key.action in policies && (key in s.buckets ==> key in s.current)
  {
    var p := policies[key.action];
    var prepared := Prepared(p, s, key, createdAt, now);
    var b := prepared.buckets[key];
    if Full(p, b, now) then Reserved(PutBucket(prepared, key, Refused(p, b, at)), DenialOf(p, b, Refused(p, b, at), now))
    else Reserved(Admit(p, prepared, key, id, at), Allowed(id))
  }

  // ----- Finalizing -----

  /** Whether a consumed reservation is charged to the window it finds. */
  predicate Chargeable(policies: Policies, s: Limiter, id: nat, outcome: Outcome, now: int)
    requires id in s.reservations && s.reservations[id].key in s.buckets
  {
    var r := s.reservations[id];
    && r.key.action in policies && outcome == Consume
    && now < r.expiresAt && now < WindowEnd(policies[r.key.action], s.buckets[r.key])
  }

  /** GREATEST(0, n). */
  function Clamped(n: int): nat {
    if n < 0 then 0 else n
  }

  function Finalize(policies: Policies, s: Limiter, id: nat, outcome: Outcome, now: int, at: int): Limiter {
    if id !in s.reservations || s.reservations[id].key !in s.buckets then s
    else
      var key := s.reservations[id].key;
      var b := s.buckets[key];
      var charge := Chargeable(policies, s, id, outcome, now);
      s.(buckets := s.buckets[key := b.(reservedCount := Clamped(b.reservedCount - 1),
                                        count := b.count + if charge then 1 else 0, updatedAt := at)],
         reservations := s.reservations - {id},
         charged := s.charged + if charge then {id} else {})
  }

  // ----- Cleaning up -----

  function Expired(reservations: map<nat, Reservation>, now: int): set<nat> {
    set id | id in reservations && reservations[id].expiresAt <= now
  }

  /** The first statement: expired reservations go, and their buckets' counts with them. */
  function DropExpired(s: Limiter, now: int, at: int): Limiter {
    var expired := Expired(s.reservations, now);
    s.(reservations := s.reservations - expired,
       buckets := map key | key in s.buckets ::
         WithFewer(s.buckets[key], |Held(s.reservations, key) * expired|, at))
  }

  function WithFewer(b: Bucket, n: nat, at: int): Bucket {
    if n == 0 then b else b.(reservedCount := Clamped(b.reservedCount - n), updatedAt := at)
  }

  /** The second: buckets untouched for a day go, and by cascade any reservation left in them. */
  function DropIdle(s: Limiter, now: int): Limiter {
    var idle := set key | key in s.buckets && s.buckets[key].updatedAt < now - DAY_MS;
    s.(buckets := s.buckets - idle,
       reservations := map id | id in s.reservations && s.reservations[id].key !in idle :: s.reservations[id])
  }

  function Cleanup(s: Limiter, expiredAt: int, touchedAt: int, idleAt: int): Limiter {
    DropIdle(DropExpired(s, expiredAt, touchedAt), idleAt)
  }

  // ----- Every step keeps it -----

  /** No bucket was touched after `t`. */
  ghost predicate NotAfter(s: Limiter, t: int) {
    forall key | key in s.buckets :: s.buckets[key].updatedAt <= t
  }

  lemma OpenKeeps(policies: Policies, s: Limiter, key: Key, at: int)
    requires Kept(policies, s) && key.action in policies && Sound(policies[key.action])
    ensures Kept(policies, OpenWindow(s, key, at))
  {
    var after := OpenWindow(s, key, at);
    assert Held(after.reservations, key) == {};
    assert Charges(after, |s.windows|) == {};
    forall k | k in after.buckets ensures BucketOk(policies, after, k) {
      if k != key {
        assert BucketOk(policies, s, k);
        assert Held(after.reservations, k) == Held(s.reservations, k);
        assert Charges(after, s.current[k]) == Charges(s, s.current[k]);
      }
    }
    forall id | id in after.reservations ensures ReservationOk(policies, after, id) {
      assert ReservationOk(policies, s, id);
    }
    forall w | 0 <= w < |after.windows| ensures WindowOk(policies, after, w) {
      if w < |s.windows| {
        assert WindowOk(policies, s, w);
        assert Charges(after, w) == Charges(s, w);
      }
    }
  }

  lemma PreparedKeeps(policies: Policies, s: Limiter, key: Key, createdAt: int, now: int)
    requires Kept(policies, s) && key.action in policies && Sound(policies[key.action])
    requires NotAfter(s, now) && createdAt <= now
    ensures key in s.buckets ==> key in s.current
    ensures var after := Prepared(policies[key.action], s, key, createdAt, now);
            Kept(policies, after) && NotAfter(after, now) && after.admitted == s.admitted
            && BucketOk(policies, after, key) && !Ended(policies[key.action], after.buckets[key], now)
  {
    if key in s.buckets {
      assert BucketOk(policies, s, key);
      RestartKeeps(policies, s, key, now);
    } else {
      OpenKeeps(policies, s, key, createdAt);
      RestartKeeps(policies, OpenWindow(s, key, createdAt), key, now);
    }
  }

  lemma RestartKeeps(policies: Policies, s: Limiter, key: Key, now: int)
    requires Kept(policies, s) && key in s.buckets && key.action in policies && Sound(policies[key.action]) && NotAfter(s, now)
    ensures var after := if Ended(policies[key.action], s.buckets[key], now) then OpenWindow(s, key, now) else s;
            Kept(policies, after) && NotAfter(after, now) && after.admitted == s.admitted
            && BucketOk(policies, after, key) && !Ended(policies[key.action], after.buckets[key], now)
  {
    if Ended(policies[key.action], s.buckets[key], now) { OpenKeeps(policies, s, key, now); }
    assert BucketOk(policies, s, key);
  }

  /** A change of one bucket's denials and block. */
  lemma RefuseKeeps(policies: Policies, s: Limiter, key: Key, now: int)
    requires Kept(policies, s) && key in s.buckets && key.action in policies && NotAfter(s, now)
    ensures Kept(policies, PutBucket(s, key, Refused(policies[key.action], s.buckets[key], now)))
  {
    var after := PutBucket(s, key, Refused(policies[key.action], s.buckets[key], now));
    forall k | k in after.buckets ensures BucketOk(policies, after, k) {
      assert BucketOk(policies, s, k);
      assert Charges(after, s.current[k]) == Charges(s, s.current[k]);
    }
    forall id | id in after.reservations ensures ReservationOk(policies, after, id) {
      assert ReservationOk(policies, s, id);
    }
    forall w | 0 <= w < |after.windows| ensures WindowOk(policies, after, w) {
      assert WindowOk(policies, s, w);
      assert Charges(after, w) == Charges(s, w);
    }
  }

  lemma AdmitBucket(policies: Policies, s: Limiter, key: Key, id: nat, at: int, k: Key)
    requires Kept(policies, s) && key in s.buckets && key.action in policies && key in s.current
    requires id !in s.admitted && NotAfter(s, at) && k in s.buckets
    requires s.buckets[key].count + s.buckets[key].reservedCount < policies[key.action].limit
    ensures BucketOk(policies, Admit(policies[key.action], s, key, id, at), k)
  {
    var after := Admit(policies[key.action], s, key, id, at);
    assert BucketOk(policies, s, k);
    Unreserved(policies, s, id);
    HeldInsert(s.reservations, id, after.reservations[id], k);
    AdmitCharges(policies[key.action], s, key, id, at, s.current[k]);
  }

  lemma Unreserved(policies: Policies, s: Limiter, id: nat)
    requires Kept(policies, s) && id !in s.admitted
    ensures id !in s.reservations
  {
    forall i | i in s.reservations ensures i != id { assert ReservationOk(policies, s, i); }
  }

  lemma AdmitCharges(p: Policy, s: Limiter, key: Key, id: nat, at: int, w: nat)
    requires key in s.buckets && key in s.current && id !in s.admitted && s.charged <= s.admitted.Keys
    ensures Charges(Admit(p, s, key, id, at), w) == Charges(s, w)
  {
  }

  lemma HeldInsert(reservations: map<nat, Reservation>, id: nat, r: Reservation, key: Key)
    requires id !in reservations
    ensures |Held(reservations[id := r], key)| == |Held(reservations, key)| + if r.key == key then 1 else 0
  {
    assert Held(reservations[id := r], key) == Held(reservations, key) + if r.key == key then {id} else {};
  }

  lemma AdmitKeeps(policies: Policies, s: Limiter, key: Key, id: nat, at: int)
    requires Kept(policies, s) && key in s.buckets && key.action in policies && key in s.current
    requires id !in s.admitted && NotAfter(s, at)
    requires s.buckets[key].count + s.buckets[key].reservedCount < policies[key.action].limit
    ensures Kept(policies, Admit(policies[key.action], s, key, id, at))
  {
    var after := Admit(policies[key.action], s, key, id, at);
    forall k | k in after.buckets ensures BucketOk(policies, after, k) {
      AdmitBucket(policies, s, key, id, at, k);
    }
    forall i | i in after.reservations ensures ReservationOk(policies, after, i) {
      AdmitReservation(policies, s, key, id, at, i);
    }
    forall w | 0 <= w < |after.windows| ensures WindowOk(policies, after, w) {
      AdmitWindow(policies, s, key, id, at, w);
    }
    AdmitHistory(policies, s, key, id, at);
  }

  lemma AdmitHistory(policies: Policies, s: Limiter, key: Key, id: nat, at: int)
    requires Kept(policies, s) && key in s.buckets && key.action in policies && key in s.current
    ensures var after := Admit(policies[key.action], s, key, id, at);
            (forall i | i in after.admitted :: after.admitted[i] < |after.windows|) && after.charged <= after.admitted.Keys
  {
    assert BucketOk(policies, s, key);
  }

  lemma AdmitReservation(policies: Policies, s: Limiter, key: Key, id: nat, at: int, i: nat)
    requires Kept(policies, s) && key in s.buckets && key.action in policies && key in s.current && id !in s.admitted
    requires i == id || i in s.reservations
    ensures ReservationOk(policies, Admit(policies[key.action], s, key, id, at), i)
  {
    if i != id { assert ReservationOk(policies, s, i); }
  }

  lemma AdmitWindow(policies: Policies, s: Limiter, key: Key, id: nat, at: int, w: nat)
    requires Kept(policies, s) && key in s.buckets && key.action in policies && key in s.current && id !in s.admitted
    requires w < |s.windows|
    ensures WindowOk(policies, Admit(policies[key.action], s, key, id, at), w)
  {
    assert WindowOk(policies, s, w);
    AdmitCharges(policies[key.action], s, key, id, at, w);
  }

  lemma ReserveKeeps(policies: Policies, s: Limiter, key: Key, id: nat, createdAt: int, now: int, at: int)
    requires Kept(policies, s) && key.action in policies && Sound(policies[key.action])
    requires id !in s.admitted && NotAfter(s, now) && createdAt <= now <= at
    ensures (key in s.buckets ==> key in s.current)
            && Kept(policies, Reserve(policies, s, key, id, createdAt, now, at).state)
  {
    PreparedKeeps(policies, s, key, createdAt, now);
    var p := policies[key.action];
    var prepared := Prepared(p, s, key, createdAt, now);
    if Full(p, prepared.buckets[key], now) {
      RefuseKeeps(policies, prepared, key, at);
    } else {
      AdmitKeeps(policies, prepared, key, id, at);
    }
  }

  /** A finished reservation was in its bucket's current window, so the clamp never acts, the
      charge goes to the window that admitted it, and both time conditions are one. */
  lemma FinalizeExact(policies: Policies, s: Limiter, id: nat, outcome: Outcome, now: int, at: int)
    requires Kept(policies, s) && id in s.reservations
    ensures var key := s.reservations[id].key;
            && key in s.buckets && key.action in policies && s.buckets[key].reservedCount >= 1
            && s.current[key] == s.admitted[id] && id !in s.charged
            && (Chargeable(policies, s, id, outcome, now)
                <==> outcome == Consume && now < WindowEnd(policies[key.action], s.buckets[key]))
  {
    assert ReservationOk(policies, s, id);
    assert BucketOk(policies, s, s.reservations[id].key);
    assert id in Held(s.reservations, s.reservations[id].key);
  }

  lemma HeldRemove(reservations: map<nat, Reservation>, id: nat, key: Key)
    requires id in reservations
    ensures |Held(reservations - {id}, key)| == |Held(reservations, key)| - if reservations[id].key == key then 1 else 0
  {
    assert Held(reservations - {id}, key) == Held(reservations, key) - {id};
    assert id in Held(reservations, key) <==> reservations[id].key == key;
  }

  lemma ChargesMore(s: Limiter, after: Limiter, id: nat, charge: bool, w: nat)
    requires after.admitted == s.admitted && after.charged == s.charged + if charge then {id} else {}
    requires id in s.admitted && id !in s.charged
    ensures |Charges(after, w)| == |Charges(s, w)| + if charge && s.admitted[id] == w then 1 else 0
  {
    assert Charges(after, w) == Charges(s, w) + if charge && s.admitted[id] == w then {id} else {};
    assert id !in Charges(s, w);
  }

  lemma ChargesAfter(policies: Policies, s: Limiter, id: nat, outcome: Outcome, now: int, at: int, w: nat)
    requires Kept(policies, s) && id in s.reservations
    ensures |Charges(Finalize(policies, s, id, outcome, now, at), w)| ==
            |Charges(s, w)| + (if s.reservations[id].key in s.buckets && Chargeable(policies, s, id, outcome, now)
                                  && s.admitted[id] == w then 1 else 0)
  {
    assert ReservationOk(policies, s, id);
    ChargesMore(s, Finalize(policies, s, id, outcome, now, at), id, Chargeable(policies, s, id, outcome, now), w);
  }

  lemma FinalizeBucket(policies: Policies, s: Limiter, id: nat, outcome: Outcome, now: int, at: int, k: Key)
    requires Kept(policies, s) && NotAfter(s, at) && id in s.reservations && k in s.buckets
    ensures BucketOk(policies, Finalize(policies, s, id, outcome, now, at), k)
  {
    assert BucketOk(policies, s, k);
    FinalizeExact(policies, s, id, outcome, now, at);
    HeldRemove(s.reservations, id, k);
    ChargesAfter(policies, s, id, outcome, now, at, s.current[k]);
    assert BucketOk(policies, s, s.reservations[id].key);
  }

  lemma FinalizeWindow(policies: Policies, s: Limiter, id: nat, outcome: Outcome, now: int, at: int, w: nat)
    requires Kept(policies, s) && NotAfter(s, at) && id in s.reservations && w < |s.windows|
    ensures WindowOk(policies, Finalize(policies, s, id, outcome, now, at), w)
  {
    assert WindowOk(policies, s, w);
    FinalizeExact(policies, s, id, outcome, now, at);
    ChargesAfter(policies, s, id, outcome, now, at, w);
    FinalizeBucket(policies, s, id, outcome, now, at, s.reservations[id].key);
  }

  lemma FinalizeKeeps(policies: Policies, s: Limiter, id: nat, outcome: Outcome, now: int, at: int)
    requires Kept(policies, s) && NotAfter(s, at)
    ensures Kept(policies, Finalize(policies, s, id, outcome, now, at))
  {
    if id in s.reservations {
      var after := Finalize(policies, s, id, outcome, now, at);
      FinalizeExact(policies, s, id, outcome, now, at);
      forall k | k in after.buckets ensures BucketOk(policies, after, k) {
        FinalizeBucket(policies, s, id, outcome, now, at, k);
      }
      forall i | i in after.reservations ensures ReservationOk(policies, after, i) {
        assert ReservationOk(policies, s, i);
      }
      forall w | 0 <= w < |after.windows| ensures WindowOk(policies, after, w) {
        FinalizeWindow(policies, s, id, outcome, now, at, w);
      }
    }
  }

  // ----- Cleanup -----

  lemma HeldDrop(reservations: map<nat, Reservation>, ids: set<nat>, key: Key)
    ensures Held(reservations - ids, key) == Held(reservations, key) - ids
    ensures |Held(reservations - ids, key)| == |Held(reservations, key)| - |Held(reservations, key) * ids|
  {
    var held := Held(reservations, key);
    assert Held(reservations - ids, key) == held - ids;
    assert held == (held - ids) + (held * ids);
  }

  /** Dropping expired reservations never meets the clamp. */
  lemma DropExact(policies: Policies, s: Limiter, now: int, key: Key)
    requires Kept(policies, s) && key in s.buckets
    ensures |Held(s.reservations, key) * Expired(s.reservations, now)| <= s.buckets[key].reservedCount
  {
    assert BucketOk(policies, s, key);
    HeldDrop(s.reservations, Expired(s.reservations, now), key);
  }

  lemma DropBucket(policies: Policies, s: Limiter, now: int, at: int, k: Key)
    requires Kept(policies, s) && NotAfter(s, at) && k in s.buckets
    ensures BucketOk(policies, DropExpired(s, now, at), k)
  {
    var after := DropExpired(s, now, at);
    assert BucketOk(policies, s, k);
    DropExact(policies, s, now, k);
    HeldDrop(s.reservations, Expired(s.reservations, now), k);
    assert Charges(after, s.current[k]) == Charges(s, s.current[k]);
    assert after.buckets[k] == WithFewer(s.buckets[k], |Held(s.reservations, k) * Expired(s.reservations, now)|, at);
  }

  lemma DropReservation(policies: Policies, s: Limiter, now: int, at: int, i: nat)
    requires Kept(policies, s) && i in DropExpired(s, now, at).reservations
    ensures ReservationOk(policies, DropExpired(s, now, at), i)
  {
    assert ReservationOk(policies, s, i);
  }

  lemma DropWindow(policies: Policies, s: Limiter, now: int, at: int, w: nat)
    requires Kept(policies, s) && w < |s.windows|
    ensures w < |DropExpired(s, now, at).windows| && WindowOk(policies, DropExpired(s, now, at), w)
  {
    assert WindowOk(policies, s, w);
    assert Charges(DropExpired(s, now, at), w) == Charges(s, w);
  }

  lemma DropExpiredKeeps(policies: Policies, s: Limiter, now: int, at: int)
    requires Kept(policies, s) && NotAfter(s, at)
    ensures Kept(policies, DropExpired(s, now, at))
  {
    var after := DropExpired(s, now, at);
    forall k | k in after.buckets ensures BucketOk(policies, after, k) {
      DropBucket(policies, s, now, at, k);
    }
    forall i | i in after.reservations ensures ReservationOk(policies, after, i) {
      DropReservation(policies, s, now, at, i);
    }
    forall w | 0 <= w < |after.windows| ensures WindowOk(policies, after, w) {
      DropWindow(policies, s, now, at, w);
    }
  }

  /** Whether every bucket that holds a reservation was touched in the last day. */
  predicate HoldersTouched(s: Limiter, idleAt: int) {
    forall id | id in s.reservations ::
      s.reservations[id].key in s.buckets ==> s.buckets[s.reservations[id].key].updatedAt >= idleAt - DAY_MS
  }

  /** Deleting idle buckets keeps the counts: what a bucket still holds goes with it. */
  lemma DropIdleKeeps(policies: Policies, s: Limiter, idleAt: int)
    requires Kept(policies, s)
    ensures Kept(policies, DropIdle(s, idleAt))
  {
    var after := DropIdle(s, idleAt);
    forall k | k in after.buckets ensures BucketOk(policies, after, k) {
      assert BucketOk(policies, s, k);
      assert Charges(after, s.current[k]) == Charges(s, s.current[k]);
      assert Held(after.reservations, k) == Held(s.reservations, k);
    }
    forall i | i in after.reservations ensures ReservationOk(policies, after, i) {
      assert ReservationOk(policies, s, i);
    }
    forall w | 0 <= w < |after.windows| ensures WindowOk(policies, after, w) {
      assert WindowOk(policies, s, w);
      assert Charges(after, w) == Charges(s, w);
    }
  }

  /** Whenever its statements run, cleanup keeps every count. */
  lemma CleanupKeeps(policies: Policies, s: Limiter, expiredAt: int, touchedAt: int, idleAt: int)
    requires Kept(policies, s) && NotAfter(s, touchedAt)
    ensures Kept(policies, Cleanup(s, expiredAt, touchedAt, idleAt))
  {
    DropExpiredKeeps(policies, s, expiredAt, touchedAt);
    DropIdleKeeps(policies, DropExpired(s, expiredAt, touchedAt), idleAt);
  }

  /** Cleanup removes the expired reservations and no other, and no bucket that still holds one,
      exactly if each of those buckets was touched in the day before the second statement. */
  lemma CleanupExact(policies: Policies, s: Limiter, expiredAt: int, touchedAt: int, idleAt: int)
    requires Kept(policies, s) && NotAfter(s, touchedAt)
    ensures var after := Cleanup(s, expiredAt, touchedAt, idleAt);
            && (after.reservations == s.reservations - Expired(s.reservations, expiredAt)
                <==> HoldersTouched(DropExpired(s, expiredAt, touchedAt), idleAt))
            && ((forall id | id in s.reservations - Expired(s.reservations, expiredAt) ::
                  s.reservations[id].key in after.buckets)
                <==> HoldersTouched(DropExpired(s, expiredAt, touchedAt), idleAt))
  {
    DropExpiredKeeps(policies, s, expiredAt, touchedAt);
    IdleExact(policies, DropExpired(s, expiredAt, touchedAt), idleAt);
  }

  lemma IdleExact(policies: Policies, s: Limiter, idleAt: int)
    requires Kept(policies, s)
    ensures DropIdle(s, idleAt).reservations == s.reservations <==> HoldersTouched(s, idleAt)
    ensures (forall id | id in s.reservations :: s.reservations[id].key in DropIdle(s, idleAt).buckets)
            <==> HoldersTouched(s, idleAt)
  {
    var after := DropIdle(s, idleAt);
    forall id | id in s.reservations
      ensures s.reservations[id].key in s.buckets
      ensures id in after.reservations <==> s.buckets[s.reservations[id].key].updatedAt >= idleAt - DAY_MS
      ensures s.reservations[id].key in after.buckets <==> id in after.reservations
    {
      assert ReservationOk(policies, s, id);
    }
    if HoldersTouched(s, idleAt) {
      assert after.reservations == s.reservations;
    } else {
      var id :| id in s.reservations && s.buckets[s.reservations[id].key].updatedAt < idleAt - DAY_MS;
      assert id !in after.reservations;
    }
  }

  /** A reservation ends within the hour after its bucket was last touched, so statements at most
      23 hours and a millisecond apart lose nothing. */
  lemma PromptCleanup(policies: Policies, s: Limiter, expiredAt: int, touchedAt: int, idleAt: int)
    requires Kept(policies, s) && NotAfter(s, touchedAt) && idleAt - expiredAt <= DAY_MS - HOUR_MS + 1
    ensures HoldersTouched(DropExpired(s, expiredAt, touchedAt), idleAt)
    ensures Cleanup(s, expiredAt, touchedAt, idleAt).reservations
            == s.reservations - Expired(s.reservations, expiredAt)
  {
    var d := DropExpired(s, expiredAt, touchedAt);
    DropExpiredKeeps(policies, s, expiredAt, touchedAt);
    forall id | id in d.reservations ensures d.buckets[d.reservations[id].key].updatedAt >= idleAt - DAY_MS {
      assert ReservationOk(policies, d, id);
      assert BucketOk(policies, d, d.reservations[id].key);
    }
    CleanupExact(policies, s, expiredAt, touchedAt, idleAt);
  }

  /** Any longer is too long: one attempt reserved in an hour's window, left alone, is lost
      unexpired with its bucket. */
  lemma LateCleanupLoses(expiredAt: int, idleAt: int) returns (policies: Policies, key: Key, at: int)
    requires idleAt - expiredAt > DAY_MS - HOUR_MS + 1
    ensures key.action in policies && Sound(policies[key.action]) && at <= expiredAt
    ensures var s := Reserve(policies, EMPTY, key, 7, at, at, at).state;
            var after := Cleanup(s, expiredAt, expiredAt, idleAt);
            && Kept(policies, s) && NotAfter(s, expiredAt)
            && 7 in s.reservations && s.reservations[7].expiresAt > expiredAt
            && 7 !in after.reservations && key !in after.buckets
  {
    policies, key := map["login" := INVITATION_ACCEPTANCE_IP], Key("login", "subject");
    at := expiredAt + 1 - HOUR_MS;
    ReserveKeeps(policies, EMPTY, key, 7, at, at, at);
    var s := Reserve(policies, EMPTY, key, 7, at, at, at).state;
    assert s.reservations == map[7 := Reservation(key, expiredAt + 1)];
    assert Expired(s.reservations, expiredAt) == {};
    assert DropExpired(s, expiredAt, expiredAt).buckets[key] == s.buckets[key];
  }

  // ----- Runs -----

  datatype Step =
    | ReserveStep(key: Key, id: nat, createdAt: int, now: int, at: int)
    | FinalizeStep(id: nat, outcome: Outcome, now: int, at: int)
    | CleanupStep(expiredAt: int, touchedAt: int, idleAt: int)

  predicate Feasible(policies: Policies, step: Step) {
    match step
    case ReserveStep(key, _, createdAt, now, at) =>
      key.action in policies && Sound(policies[key.action]) && createdAt <= now <= at
    case FinalizeStep(_, _, _, _) => true
    case CleanupStep(_, _, _) => true
  }

  function Apply(policies: Policies, s: Limiter, step: Step): Limiter {
    match step
    case ReserveStep(key, id, createdAt, now, at) =>
      if key.action in policies && (key in s.buckets ==> key in s.current)
      then Reserve(policies, s, key, id, createdAt, now, at).state else s
    case FinalizeStep(id, outcome, now, at) => Finalize(policies, s, id, outcome, now, at)
    case CleanupStep(expiredAt, touchedAt, idleAt) => Cleanup(s, expiredAt, touchedAt, idleAt)
  }

  /** Reservation ids are new and the clock does not run backwards. */
  ghost predicate FeasibleRun(policies: Policies, s: Limiter, steps: seq<Step>)
    decreases |steps|
  {
    steps == []
    || (Feasible(policies, steps[0])
        && (match steps[0]
            case ReserveStep(_, id, _, now, _) => id !in s.admitted && NotAfter(s, now)
            case FinalizeStep(_, _, _, at) => NotAfter(s, at)
            case CleanupStep(_, touchedAt, _) => NotAfter(s, touchedAt))
        && FeasibleRun(policies, Apply(policies, s, steps[0]), steps[1..]))
  }

  function Run(policies: Policies, s: Limiter, steps: seq<Step>): Limiter
    decreases |steps|
  {
    if steps == [] then s else Run(policies, Apply(policies, s, steps[0]), steps[1..])
  }

  /** Under any interleaving of reserve, finalize and cleanup: a bucket's reserved count is the
      number of its reservations, charges and reservations stay within the limit, and no window
      that was ever opened is charged more often than its limit. */
  lemma {:induction false} RunKeeps(policies: Policies, s: Limiter, steps: seq<Step>)
    requires Kept(policies, s) && FeasibleRun(policies, s, steps)
    ensures Kept(policies, Run(policies, s, steps))
    decreases |steps|
  {
    if steps != [] {
      match steps[0] {
        case ReserveStep(key, id, createdAt, now, at) => ReserveKeeps(policies, s, key, id, createdAt, now, at);
        case FinalizeStep(id, outcome, now, at) => FinalizeKeeps(policies, s, id, outcome, now, at);
        case CleanupStep(expiredAt, touchedAt, idleAt) => CleanupKeeps(policies, s, expiredAt, touchedAt, idleAt);
      }
      RunKeeps(policies, Apply(policies, s, steps[0]), steps[1..]);
    }
  }

  /** Nothing is ever charged twice, or uncharged: a finished reservation stays finished. */
  lemma {:induction false} FinishedForever(policies: Policies, s: Limiter, steps: seq<Step>, id: nat)
    requires FeasibleRun(policies, s, steps) && id in s.admitted && id !in s.reservations
    ensures var later := Run(policies, s, steps);
            && id !in later.reservations && (id in later.charged <==> id in s.charged)
            && (forall outcome, now, at :: Finalize(policies, later, id, outcome, now, at) == later)
    decreases |steps|
  {
    if steps != [] { FinishedForever(policies, Apply(policies, s, steps[0]), steps[1..], id); }
  }

  // ----- What a denied caller is told -----

  /** A denial is told to wait until the window ends, to the second; and waiting that long is
      enough: with nothing in between, the next attempt is admitted. */
  lemma RetryIsHonest(policies: Policies, s: Limiter, key: Key, id: nat, createdAt: int, now: int, at: int, again: nat, later: int)
    requires Kept(policies, s) && key.action in policies && Sound(policies[key.action])
    requires NotAfter(s, now) && 0 <= now && createdAt <= now <= at && (key in s.buckets ==> key in s.current)
    requires Reserve(policies, s, key, id, createdAt, now, at).decision.Denied?
    requires later >= now + 1000 * Reserve(policies, s, key, id, createdAt, now, at).decision.retryAfterSeconds
    ensures var denied := Reserve(policies, s, key, id, createdAt, now, at);
            var end := WindowEnd(policies[key.action], denied.state.buckets[key]);
            && key in denied.state.current
            && end <= now + 1000 * denied.decision.retryAfterSeconds < end + 1000
            && Reserve(policies, denied.state, key, again, later, later, later).decision == Allowed(again)
  {
    PreparedKeeps(policies, s, key, createdAt, now);
    var p := policies[key.action];
    var b := Prepared(p, s, key, createdAt, now).buckets[key];
    assert 0 < WindowEnd(p, b) - now <= HOUR_MS;
    var refused := Refused(p, b, at);
    assert refused.blockedUntil.Some? ==> refused.blockedUntil.value <= WindowEnd(p, b);
    DenialTime(p, b, refused, now);
  }

  lemma DenialTime(p: Policy, b: Bucket, refused: Bucket, now: int)
    requires 0 <= WindowEnd(p, b)
    requires refused.blockedUntil.Some? ==> refused.blockedUntil.value <= WindowEnd(p, b)
    ensures DenialOf(p, b, refused, now).retryAfterSeconds == RetryAfter(WindowEnd(p, b), now)
  {
  }
}
