/** The shared shape of the authentication rate limits (src/auth-rate-limits.ts): policies,
    buckets and the seconds a caller is told to wait. */
module RateLimitPolicy {
  import opened Optional

  const HOUR_MS: int := 3_600_000
  const DAY_MS: int := 86_400_000

  /** A backoff of zero means the action has none. */
  datatype Policy = Policy(limit: nat, windowMs: nat, backoffMs: nat)

  datatype Bucket = Bucket(
    windowStartedAt: int, count: nat, deniedCount: nat, reservedCount: nat, blockedUntil: Option<int>, updatedAt: int)

  // One bucket per action and subject.
  datatype Key = Key(action: string, subject: string)

  predicate Sound(p: Policy) {
    p.limit >= 1 && 1 <= p.windowMs <= HOUR_MS
  }

  const INVITATION_ACCEPTANCE_IP: Policy := Policy(10, 3_600_000, 60_000)
  const INVITATION_ACCEPTANCE_DIGEST: Policy := Policy(5, 3_600_000, 60_000)
  const SESSION_CREATION_ACCOUNT: Policy := Policy(10, 900_000, 900_000)

  function WindowEnd(p: Policy, b: Bucket): int {
    b.windowStartedAt + p.windowMs
  }

  function Max(a: int, b: int): int {
    if a >= b then a else b
  }

  function Min(a: int, b: int): int {
    if a <= b then a else b
  }

  /** 2 to the number of denials, up to 16. */
  function Doubling(denied: nat): (f: nat)
    ensures 1 <= f <= 16
  {
    if denied == 0 then 1 else if denied == 1 then 2 else if denied == 2 then 4 else if denied == 3 then 8 else 16
  }

  /** Whole seconds until `at`, rounded up, between one and an hour. */
  function RetryAfter(at: int, now: int): (seconds: int)
    ensures 1 <= seconds <= 3600
    ensures 0 < at - now <= HOUR_MS ==> at <= now + 1000 * seconds < at + 1000
  {
    Min(3600, Max(1, (at - now + 999) / 1000))
  }
}
