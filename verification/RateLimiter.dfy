/** reserve, finalize and cleanup over their two tables (src/auth-rate-limits.ts), proved to be
    the steps of ReservationLimiter. */
module RateLimiter {
  import opened RateLimitPolicy
  import opened ReservationLimiter

  lemma CleanedUp(policies: Policies, before: Limiter, after: Limiter, expiredAt: int, touchedAt: int, idleAt: int)
    requires Kept(policies, before) && NotAfter(before, touchedAt)
    requires after == Cleanup(before, expiredAt, touchedAt, idleAt)
    ensures Kept(policies, after)
    ensures after.reservations == before.reservations - Expired(before.reservations, expiredAt)
            <==> HoldersTouched(DropExpired(before, expiredAt, touchedAt), idleAt)
  {
    CleanupKeeps(policies, before, expiredAt, touchedAt, idleAt);
    CleanupExact(policies, before, expiredAt, touchedAt, idleAt);
  }

  class ReservationTables {
    const policies: Policies
    var buckets: map<Key, Bucket>
    var reservations: map<nat, Reservation>
    ghost var windows: seq<Key>
    ghost var current: map<Key, nat>
    ghost var admitted: map<nat, nat>
    ghost var charged: set<nat>

    ghost function State(): Limiter
      reads this
    {
      Limiter(buckets, reservations, windows, current, admitted, charged)
    }

    ghost predicate Valid()
      reads this
    {
      Kept(policies, State())
    }

    constructor (policies: Policies)
      ensures Valid() && this.policies == policies
      ensures State() == EMPTY
    {
      this.policies := policies;
      buckets, reservations := map[], map[];
      windows, current, admitted, charged := [], map[], map[], {};
    }

    method StartWindow(key: Key, at: int)
      modifies `buckets, `reservations, `windows, `current
      ensures State() == OpenWindow(old(State()), key, at)
    {
      reservations := Without(reservations, key);
      buckets := buckets[key := Fresh(at)];
      windows, current := windows + [key], current[key := |windows|];
    }

    method PrepareBucket(key: Key, createdAt: int, now: int)
      requires key.action in policies && (key in buckets ==> key in current)
      modifies `buckets, `reservations, `windows, `current
      ensures State() == Prepared(policies[key.action], old(State()), key, createdAt, now)
    {
      if key !in buckets { StartWindow(key, createdAt); }
      if Ended(policies[key.action], buckets[key], now) { StartWindow(key, now); }
    }

    method ReserveAttempt(key: Key, id: nat, createdAt: int, now: int, at: int) returns (decision: Decision)
      requires Valid() && key.action in policies && Sound(policies[key.action])
      requires id !in admitted && createdAt <= now <= at && NotAfter(State(), now)
      modifies this
      ensures Valid()
      ensures key in old(buckets) ==> key in old(current)
      ensures Reserved(State(), decision) == Reserve(policies, old(State()), key, id, createdAt, now, at)
    {
      ReserveKeeps(policies, State(), key, id, createdAt, now, at);
      ghost var goal := Reserve(policies, State(), key, id, createdAt, now, at);
      PrepareBucket(key, createdAt, now);
      decision := PlaceAttempt(key, id, now, at);
      assert State() == goal.state;
    }

    method PlaceAttempt(key: Key, id: nat, now: int, at: int) returns (decision: Decision)
      requires key.action in policies && key in buckets && key in current
      modifies `buckets, `reservations, `admitted
      ensures var p, b := policies[key.action], old(buckets)[key];
              if Full(p, b, now) then
                State() == PutBucket(old(State()), key, Refused(p, b, at))
                && decision == DenialOf(p, b, Refused(p, b, at), now)
              else State() == Admit(p, old(State()), key, id, at) && decision == Allowed(id)
    {
      var p, b := policies[key.action], buckets[key];
      if Full(p, b, now) {
        var refused := Refused(p, b, at);
        buckets := buckets[key := refused];
        return DenialOf(p, b, refused, now);
      }
      reservations := reservations[id := Reservation(key, WindowEnd(p, b))];
      buckets := buckets[key := b.(reservedCount := b.reservedCount + 1, updatedAt := at)];
      admitted := admitted[id := current[key]];
      decision := Allowed(id);
    }

    method FinalizeAttempt(id: nat, outcome: Outcome, now: int, at: int)
      requires Valid() && NotAfter(State(), at)
      modifies `buckets, `reservations, `charged
      ensures Valid() && State() == Finalize(policies, old(State()), id, outcome, now, at)
    {
      FinalizeKeeps(policies, State(), id, outcome, now, at);
      if id !in reservations { return; }
      var r := reservations[id];
      if r.key !in buckets { return; }
      var b := buckets[r.key];
      reservations := reservations - {id};
      var charge := r.key.action in policies && outcome == Consume
        && now < r.expiresAt && now < WindowEnd(policies[r.key.action], b);
      buckets := buckets[r.key := b.(reservedCount := Clamped(b.reservedCount - 1),
                                     count := b.count + if charge then 1 else 0, updatedAt := at)];
      charged := charged + if charge then {id} else {};
      assert State() == Finalize(policies, old(State()), id, outcome, now, at);
    }

    method DeleteExpired(expiredAt: int, touchedAt: int)
      modifies `buckets, `reservations
      ensures State() == DropExpired(old(State()), expiredAt, touchedAt)
    {
      var expired := Expired(reservations, expiredAt);
      buckets, reservations :=
        map key | key in buckets :: WithFewer(buckets[key], |Held(reservations, key) * expired|, touchedAt),
        reservations - expired;
    }

    method DeleteIdle(idleAt: int) returns (deleted: nat)
      modifies `buckets, `reservations
      ensures State() == DropIdle(old(State()), idleAt)
      ensures deleted == |old(buckets).Keys - buckets.Keys|
    {
      var idle := set key | key in buckets && buckets[key].updatedAt < idleAt - DAY_MS;
      assert buckets.Keys - (buckets - idle).Keys == idle;
      deleted := |idle|;
      buckets := buckets - idle;
      reservations := map id | id in reservations && reservations[id].key !in idle :: reservations[id];
    }

    /** How many idle buckets were deleted. */
    method CleanUp(expiredAt: int, touchedAt: int, idleAt: int) returns (deleted: nat)
      requires Valid() && NotAfter(State(), touchedAt)
      modifies `buckets, `reservations
      ensures Valid() && State() == Cleanup(old(State()), expiredAt, touchedAt, idleAt)
      ensures reservations == old(reservations) - Expired(old(reservations), expiredAt)
              <==> HoldersTouched(DropExpired(old(State()), expiredAt, touchedAt), idleAt)
      ensures deleted == |old(buckets).Keys - buckets.Keys|
    {
      ghost var before := State();
      DeleteExpired(expiredAt, touchedAt);
      assert buckets.Keys == before.buckets.Keys;
      deleted := DeleteIdle(idleAt);
      CleanedUp(policies, before, State(), expiredAt, touchedAt, idleAt);
    }
  }
}
