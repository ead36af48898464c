/** The recovery worker over its table and the session store
    (src/jobs/process-recovery-revocations.ts), proved to be the row changes of RecoveryInbox. */
module RecoveryWorker {
  import opened Optional
  import opened Sorting
  import opened SessionModel
  import opened SessionTransactions
  import opened SessionStore
  import opened RecoveryInbox
  import opened RecoveryBatch

  /** What became of the adapter call. */
  datatype AdapterOutcome = Acked | Nacked | TimedOut | Errored

  datatype ClaimResult = AcknowledgedClaim | LostLease | RetryClaim | FailedClaim

  class RecoveryQueue {
    const store: BrowserSessionStore
    var events: map<Id, Event>
    ghost var claims: seq<Id>
    ghost var effects: seq<Id>
    ghost var tokens: set<nat>

    ghost function State(): Inbox
      reads this, store
    {
      Inbox(events, store.State(), claims, effects, tokens)
    }

    ghost predicate Valid(max: nat)
      reads this, store
    {
      InboxKept(State(), max)
    }

    constructor (store: BrowserSessionStore, ghost max: nat)
      requires store.Valid()
      ensures this.store == store && Valid(max) && events == map[] && claims == [] && effects == []
    {
      this.store := store;
      events, claims, effects, tokens := map[], [], [], {};
    }

    /** Inserts the event unless its id or digest is taken. */
    method ReceiveWebhook(w: Webhook, ghost max: nat) returns (receipt: Receipt)
      requires Valid(max) && FeasibleStep(State(), Received(w))
      modifies `events
      ensures Valid(max) && State() == Receive(old(State()), w)
      ensures receipt == old(ReceiptFor(State(), w))
    {
      ReceiveKeeps(State(), w, max);
      if !w.signed { return Receipt(false, false); }
      var conflict := exists i | i in events :: Conflicts(events[i], w);
      if !conflict {
        events := events[w.row := NewEvent(w)];
        return Receipt(true, false);
      }
      var same := exists i | i in events :: SameKey(events[i], w) && events[i].digest == w.digest;
      return Receipt(same, true);
    }

    method ExpireRowNow(p: Pick, ghost config: Config)
      requires Valid(config.maxAttempts)
      modifies `events
      ensures Valid(config.maxAttempts) && State() == Expire(old(State()), p.id, p.at)
    {
      InboxStepKeeps(State(), ExpireRow(p.id, p.at), config);
      if p.id in events && Expirable(events[p.id], p.at) {
        events := events[p.id := events[p.id].(status := Expired, lease := None)];
      }
    }

    /** The first statement: whatever is overdue among the rows picked expires. */
    method ExpireOverdue(picks: seq<Pick>, ghost config: Config)
      requires Valid(config.maxAttempts)
      modifies `events
      ensures Valid(config.maxAttempts) && State() == RunInbox(old(State()), Map(picks, ToExpire()), config)
    {
      ghost var before, steps := State(), Map(picks, ToExpire());
      assert steps[0..] == steps;
      for k := 0 to |picks|
        invariant Valid(config.maxAttempts)
        invariant RunInbox(State(), steps[k..], config) == RunInbox(before, steps, config)
      {
        RunNext(State(), steps, k, config);
        ExpireRowNow(picks[k], config);
      }
    }

    method ExhaustRowNow(p: Pick, config: Config)
      requires Valid(config.maxAttempts)
      modifies `events
      ensures Valid(config.maxAttempts) && State() == Exhaust(old(State()), p.id, config.maxAttempts, p.at)
    {
      InboxStepKeeps(State(), ExhaustRow(p.id, p.at), config);
      if p.id in events && Exhausted(events[p.id], config.maxAttempts, p.at) {
        events := events[p.id := events[p.id].(status := Failed, lease := None)];
      }
    }

    /** The second: whatever has used up its attempts fails. */
    method FailExhausted(picks: seq<Pick>, config: Config)
      requires Valid(config.maxAttempts)
      modifies `events
      ensures Valid(config.maxAttempts) && State() == RunInbox(old(State()), Map(picks, ToExhaust()), config)
    {
      ghost var before, steps := State(), Map(picks, ToExhaust());
      assert steps[0..] == steps;
      for k := 0 to |picks|
        invariant Valid(config.maxAttempts)
        invariant RunInbox(State(), steps[k..], config) == RunInbox(before, steps, config)
      {
        RunNext(State(), steps, k, config);
        ExhaustRowNow(picks[k], config);
      }
    }

    method LeaseRow(p: Pick, owner: string, config: Config) returns (claim: Option<Claim>)
      requires Valid(config.maxAttempts) && p.token !in tokens
      modifies `events, `claims, `tokens
      ensures Valid(config.maxAttempts) && tokens <= old(tokens) + {p.token}
      ensures State() == TakeClaim(old(State()), p.id, owner, p.token, config, p.at)
      ensures claim == Taken(old(State()), p, owner, config)
    {
      ghost var before := State();
      if p.id !in events || !Claimable(events[p.id], config.maxAttempts, p.at) { return None; }
      var leased := Leased(events[p.id], owner, p.token, p.at + config.leaseMs);
      events, claims, tokens := events[p.id := leased], claims + [p.id], tokens + {p.token};
      ClaimKept(before, p.id, owner, p.token, config, p.at, State());
      claim := Some(Claim(p.id, leased.account, leased.attempts, owner, p.token));
    }

    /** The third: whatever is due is leased under a token of its own. */
    method LeaseDue(picks: seq<Pick>, owner: string, config: Config) returns (taken: seq<Claim>)
      requires Valid(config.maxAttempts) && Drawn(picks, tokens)
      modifies `events, `claims, `tokens
      ensures Valid(config.maxAttempts) && State() == RunInbox(old(State()), Map(picks, ToClaim(owner)), config)
      ensures taken == ClaimsOf(old(State()), picks, owner, config)
    {
      ghost var before := State();
      taken := [];
      LeaseFirst(before, picks, owner, config);
      for k := 0 to |picks|
        invariant Valid(config.maxAttempts)
        invariant LeaseRest(before, State(), picks, owner, config, k, taken)
      {
        ghost var inbox := State();
        LeaseNext(before, inbox, picks, owner, config, k, taken);
        var claim := LeaseRow(picks[k], owner, config);
        taken := taken + Listed(claim);
      }
    }

    /** One claim transaction, whichever rows its three statements pick: overdue ones expire,
        exhausted ones fail, due ones are leased, and every claim returned holds its row. */
    method ClaimRevocations(overdue: seq<Pick>, exhausted: seq<Pick>, due: seq<Pick>, owner: string, config: Config)
      returns (taken: seq<Claim>)
      requires Valid(config.maxAttempts) && Drawn(due, tokens)
      modifies `events, `claims, `tokens
      ensures Valid(config.maxAttempts)
      ensures FeasibleSteps(old(State()), ClaimSteps(overdue, exhausted, due, owner), config)
      ensures State() == RunInbox(old(State()), ClaimSteps(overdue, exhausted, due, owner), config)
      ensures forall c | c in taken :: HeldAfter(State(), c)
    {
      ghost var before := State();
      BatchFeasible(before, overdue, exhausted, due, owner, config);
      ExpireOverdue(overdue, config);
      FailExhausted(exhausted, config);
      ghost var ready := State();
      taken := LeaseDue(due, owner, config);
      forall c | c in taken ensures HeldAfter(State(), c) { ReturnedHold(ready, due, owner, config, c); }
      RunConcat(before, Map(overdue, ToExpire()), Map(exhausted, ToExhaust()), config);
      RunConcat(before, Map(overdue, ToExpire()) + Map(exhausted, ToExhaust()), Map(due, ToClaim(owner)), config);
    }

    /** Gives a claim back after a failed attempt; the answer goes by the claim alone, whether
        or not the lease was still held. */
    method FailRevocation(c: Claim, config: Config, delayMs: nat, now: int) returns (terminal: bool)
      requires Valid(config.maxAttempts) && Genuine(State(), c)
      modifies `events
      ensures Valid(config.maxAttempts) && State() == Fail(old(State()), c, config, delayMs, now)
      ensures terminal <==> c.attempts >= config.maxAttempts
    {
      InboxStepKeeps(State(), FailClaim(c, delayMs, now), config);
      terminal := c.attempts >= config.maxAttempts;
      if c.event in events && Holds(events[c.event], c) {
        var status := if terminal then Failed else Retry;
        events := events[c.event := events[c.event].(status := status, nextAttemptAt := now + delayMs, lease := None)];
      }
    }

    /** Processes one claim. Without the lease nothing happens; an acknowledged adapter call and
        the row's acknowledgement commit together; any other outcome leaves no effect and gives
        the claim back. */
    method ProcessClaim(
      c: Claim, config: Config, adapter: AdapterOutcome, delayMs: nat,
      now: int, bumpedAt: int, revokedAt: int, failedAt: int) returns (result: ClaimResult)
      requires Valid(config.maxAttempts) && Genuine(State(), c) && NotAfter(store.accounts, bumpedAt)
      modifies this, store
      ensures Valid(config.maxAttempts)
      ensures State() == (
                if !MayAcknowledge(old(events), c, now) then old(State())
                else if adapter == Acked then Acknowledge(old(State()), c, now, bumpedAt, revokedAt)
                else Fail(old(State()), c, config, delayMs, failedAt))
      ensures result == LostLease <==> !MayAcknowledge(old(events), c, now)
      ensures result == AcknowledgedClaim <==> effects == old(effects) + [c.event]
    {
      if !MayAcknowledge(events, c, now) { return LostLease; }
      if adapter == Acked {
        AcknowledgeKeeps(State(), c, now, bumpedAt, revokedAt, config.maxAttempts);
        if c.account.Some? && c.account.value in store.accounts {
          var a := c.account.value;
          store.RevokeAccount(a, store.accounts[a].status, bumpedAt, revokedAt, None);
        }
        events := events[c.event := events[c.event].(status := Acknowledged, lease := None)];
        effects := effects + [c.event];
        return AcknowledgedClaim;
      }
      var terminal := FailRevocation(c, config, delayMs, failedAt);
      result := if terminal then FailedClaim else RetryClaim;
    }
  }
}
