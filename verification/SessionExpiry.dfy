/** How long a used session stays alive: touchSession in src/sessions.ts, whose UPDATE reads
    the clock anew for each condition and column. */
module SessionExpiry {
  import opened Optional
  import opened SessionModel
  import opened SessionTransactions

  /** The row's idle end is exactly thirty minutes after its last use, or its absolute end. */
  predicate Punctual(s: Session) {
    s.idleExpiresAt == Min(s.lastSeenAt + IDLE_TTL_MS, s.absoluteExpiresAt)
  }

  predicate Recent(s: Session, c: TouchClock) {
    s.lastSeenAt > c.loaded - TOUCH_INTERVAL_MS
  }

  /** Whether the UPDATE finds the row still alive. */
  predicate Updates(s: Session, c: TouchClock) {
    s.idleExpiresAt > c.idleCheck && s.absoluteExpiresAt > c.absoluteCheck
  }

  /** The session was alive when it was read. */
  predicate Usable(id: Id, s: Session, c: TouchClock) {
    Live(s) && SessionOk(id, s) && Ordered(c) && c.loaded < s.idleExpiresAt && c.loaded < s.absoluteExpiresAt
  }

  /** A new row is punctual; an updated one is exactly when its two clock readings agree or the
      absolute end comes first. */
  lemma TouchedPunctual(id: Id, s: Session, c: TouchClock)
    requires Usable(id, s, c) && !Recent(s, c) && Updates(s, c)
    ensures Punctual(Touched(s, c)) <==> c.seen == c.base || s.absoluteExpiresAt <= c.seen + IDLE_TTL_MS
  {
  }

  /** A use that extends keeps the session alive for 25 minutes, or to its absolute end. */
  lemma ExtendingUse(id: Id, s: Session, c: TouchClock)
    requires Usable(id, s, c) && (Recent(s, c) || Updates(s, c))
    ensures Touched(s, c).idleExpiresAt
            >= Min(c.loaded + IDLE_TTL_MS - TOUCH_INTERVAL_MS, s.absoluteExpiresAt)
  {
  }

  /** The row alone reaches as far as a use should carry it. */
  predicate FarEnough(s: Session, c: TouchClock) {
    s.idleExpiresAt >= Min(c.loaded + IDLE_TTL_MS - TOUCH_INTERVAL_MS, s.absoluteExpiresAt)
  }

  /** Exactly when that holds, for every row: the row can expire between the read that accepts the
      use and the UPDATE that should extend it, and then the use is answered but nothing is
      extended. */
  lemma ExtendingUseExact(id: Id, s: Session, c: TouchClock)
    requires Usable(id, s, c)
    ensures Touched(s, c).idleExpiresAt
            >= Min(c.loaded + IDLE_TTL_MS - TOUCH_INTERVAL_MS, s.absoluteExpiresAt)
            <==> Recent(s, c) || Updates(s, c) || FarEnough(s, c)
    ensures Punctual(s) && !Recent(s, c) ==>
              (FarEnough(s, c) <==> s.lastSeenAt == c.loaded - TOUCH_INTERVAL_MS || s.idleExpiresAt == s.absoluteExpiresAt)
  {
  }

  /** Read one millisecond before its idle end and updated one after it, a session is answered
      as alive and then expires. */
  lemma LapsedBetweenReads()
    ensures var s := Session(0, 0, 0, 0, 0, IDLE_TTL_MS, ABSOLUTE_TTL_MS, 0, None, Seal(0, 1, 0, 0));
            var c := TouchClock(IDLE_TTL_MS - 1, IDLE_TTL_MS + 1, IDLE_TTL_MS + 1, IDLE_TTL_MS + 1,
                                IDLE_TTL_MS + 1, IDLE_TTL_MS + 1);
            Usable(0, s, c) && Punctual(s) && Touched(s, c) == s
            && s.idleExpiresAt < Min(c.loaded + IDLE_TTL_MS - TOUCH_INTERVAL_MS, s.absoluteExpiresAt)
  {
  }

  /** A second UPDATE reading a millisecond after the first puts the idle end more than thirty
      minutes after the last use. */
  lemma UnpunctualTouch()
    ensures var s := Session(0, 0, 0, 0, 0, IDLE_TTL_MS, ABSOLUTE_TTL_MS, 0, None, Seal(0, 1, 0, 0));
            var c := TouchClock(600_000, 600_000, 600_000, 600_000, 600_000, 600_001);
            Usable(0, s, c) && Punctual(s) && Touched(s, c).lastSeenAt == 600_000
            && Touched(s, c).idleExpiresAt == 600_001 + IDLE_TTL_MS
  {
  }

  /** No use ever shortens a session, whose idle end was set by an earlier reading, or carries it
      past its absolute end. */
  lemma TouchBounds(id: Id, s: Session, c: TouchClock)
    requires Usable(id, s, c) && SetBy(s, c.loaded)
    ensures s.lastSeenAt <= Touched(s, c).lastSeenAt
    ensures s.idleExpiresAt <= Touched(s, c).idleExpiresAt <= s.absoluteExpiresAt
    ensures SetBy(Touched(s, c), c.base)
    ensures SessionOk(id, Touched(s, c))
  {
  }
}
