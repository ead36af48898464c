/** Which rows a claim transaction of src/jobs/deliver-invitations.ts takes, which calls of a
    worker take effect, and how long a claim holds its row: stated on the rows and readings. */
module DeliveryClaims {
  import opened Optional
  import opened DeliveryLeases

  // ----- Claiming -----

  /** Attempts are left, and the next one is due or the lease has run out. */
  predicate Due(e: Intent, max: nat, now: int) {
    && e.attempts < max
    && ((e.status in {Pending, Retry} && e.nextAttemptAt <= now)
        || (e.status == Processing && e.lease.Some? && e.lease.value.expiresAt <= now))
  }

  /** A claim transaction leases exactly the picked rows that are due, under its own tokens and to
      its own end; no other row changes, and the worker gets each with the attempts it has. */
  lemma ClaimedExactly(o: Outbox, step: Step, max: nat, id: Id)
    requires Kept(o, max) && step.ClaimBatch? && id in o.intents
    ensures var claims := Returned(o.intents, step.batch, step.owner, max, step.claimedAt);
            && (id in claims <==> id in step.batch && Due(o.intents[id], max, step.claimedAt))
            && (id in claims ==> claims[id] == Claim(id, o.intents[id].attempts, step.owner, step.batch[id]))
    ensures var after := Apply(o, step, max);
            && after.intents.Keys == o.intents.Keys
            && after.outcomes == o.outcomes && after.deliveries == o.deliveries
            && after.intents[id] ==
               if id in step.batch && Due(o.intents[id], max, step.claimedAt)
               then o.intents[id].(status := Processing,
                                   lease := Some(Lease(step.owner, step.batch[id], step.claimedAt + step.leaseMs)))
               else o.intents[id]
  {
    SweepUnreachable(o, max, step.sweptAt);
  }

  /** A running lease keeps every other worker off. */
  lemma RunningLeaseStands(o: Outbox, step: Step, max: nat, id: Id)
    requires Kept(o, max) && step.ClaimBatch? && id in o.intents && o.intents[id].lease.Some?
    requires step.claimedAt < o.intents[id].lease.value.expiresAt
    ensures Apply(o, step, max).intents[id] == o.intents[id]
    ensures id !in Returned(o.intents, step.batch, step.owner, max, step.claimedAt)
  {
    assert IntentOk(o, id, max);
    ClaimedExactly(o, step, max, id);
  }

  // ----- Renewing, completing and failing -----

  /** The row is in progress under the claim's owner and token. */
  predicate Under(o: Outbox, c: Claim) {
    && c.intent in o.intents
    && var e := o.intents[c.intent];
    && e.status == Processing && e.lease.Some? && e.lease.value.owner == c.owner && e.lease.value.token == c.token
  }

  /** A worker's call on a row it no longer holds changes nothing. On one it does: a renewal moves
      the lease's end, a completion delivers, and a failure waits for another attempt, or ends the
      row when it was permanent or the last one. */
  lemma CallExactly(o: Outbox, step: Step, max: nat)
    requires Kept(o, max) && Feasible(o, step) && (step.Renew? || step.Complete? || step.Fail?)
    ensures !Under(o, step.claim) ==> Apply(o, step, max) == o
    ensures Under(o, step.claim) ==>
              var after, id, e := Apply(o, step, max), step.claim.intent, o.intents[step.claim.intent];
              && after == o.(intents := after.intents, outcomes := after.outcomes, deliveries := after.deliveries)
              && after.intents.Keys == o.intents.Keys
              && (forall i | i in o.intents && i != id :: after.intents[i] == o.intents[i])
              && after.outcomes == (if step.Renew? then o.outcomes else o.outcomes + [id])
              && after.deliveries == (if step.Complete? then o.deliveries + [id] else o.deliveries)
              && match step
                 case Renew(c, leaseMs, at) =>
                   after.intents[id] == e.(lease := Some(Lease(c.owner, c.token, at + leaseMs)))
                 case Complete(_) =>
                   after.intents[id] == Intent(Delivered, e.attempts + 1, e.nextAttemptAt, None)
                 case Fail(_, permanent, delayMs, at) =>
                   after.intents[id] == Intent(if permanent || e.attempts + 1 >= max then DeadLetter else Retry,
                                               e.attempts + 1, at + delayMs, None)
  {
  }

  // ----- How long a claim holds -----

  /** The claim's own holder reports an outcome. */
  predicate Settles(step: Step, c: Claim) {
    (step.Complete? || step.Fail?) && step.claim.intent == c.intent
    && step.claim.owner == c.owner && step.claim.token == c.token
  }

  /** Another claim picks the row after its lease has run out. */
  predicate TakesOver(o: Outbox, step: Step, c: Claim) {
    && step.ClaimBatch? && c.intent in step.batch && c.intent in o.intents && o.intents[c.intent].lease.Some?
    && o.intents[c.intent].lease.value.expiresAt <= step.claimedAt
  }

  /** A claim loses its row exactly by its holder's own outcome or by a claim after its lease's end,
      and nothing but its holder's renewal moves that end. */
  lemma HeldExactly(o: Outbox, step: Step, max: nat, c: Claim)
    requires Kept(o, max) && Feasible(o, step) && Under(o, c)
    ensures var after := Apply(o, step, max);
            && (Under(after, c) <==> !Settles(step, c) && !TakesOver(o, step, c))
            && (Under(after, c) ==>
                  after.intents[c.intent].lease.value.expiresAt ==
                  if step.Renew? && step.claim.intent == c.intent && step.claim.owner == c.owner && step.claim.token == c.token
                  then step.at + step.leaseMs else o.intents[c.intent].lease.value.expiresAt)
  {
    assert IntentOk(o, c.intent, max);
    if step.ClaimBatch? {
      ClaimedExactly(o, step, max, c.intent);
      if c.intent in step.batch { assert step.batch[c.intent] in step.batch.Values; }
    }
  }

  lemma LostStays(o: Outbox, step: Step, max: nat, c: Claim)
    requires Kept(o, max) && Feasible(o, step) && c.intent in o.intents && c.token in o.tokens && !Under(o, c)
    ensures var after := Apply(o, step, max); c.intent in after.intents && c.token in after.tokens && !Under(after, c)
  {
    if step.ClaimBatch? {
      ClaimedExactly(o, step, max, c.intent);
      if c.intent in step.batch { assert step.batch[c.intent] in step.batch.Values; }
    }
  }

  /** Somewhere in the run the claim's holder reports an outcome, or another claim finds its lease
      run out. */
  ghost predicate Interrupted(o: Outbox, steps: seq<Step>, max: nat, c: Claim)
    decreases |steps|
  {
    steps != []
    && (Settles(steps[0], c) || TakesOver(o, steps[0], c) || Interrupted(Apply(o, steps[0], max), steps[1..], max, c))
  }

  lemma {:induction false} LostForever(o: Outbox, steps: seq<Step>, max: nat, c: Claim)
    requires Kept(o, max) && FeasibleRun(o, steps, max) && max >= 1
    requires c.intent in o.intents && c.token in o.tokens && !Under(o, c)
    ensures !Under(Run(o, steps, max), c)
    decreases |steps|
  {
    if steps != [] {
      LostStays(o, steps[0], max, c);
      StepKeeps(o, steps[0], max);
      LostForever(Apply(o, steps[0], max), steps[1..], max, c);
    }
  }

  /** Over every run a claim holds its row exactly until its holder reports an outcome or another
      claim finds its latest lease run out. */
  lemma {:induction false} HeldUntil(o: Outbox, steps: seq<Step>, max: nat, c: Claim)
    requires Kept(o, max) && FeasibleRun(o, steps, max) && max >= 1 && Under(o, c)
    ensures Under(Run(o, steps, max), c) <==> !Interrupted(o, steps, max, c)
    decreases |steps|
  {
    if steps != [] {
      var after := Apply(o, steps[0], max);
      HeldExactly(o, steps[0], max, c);
      StepKeeps(o, steps[0], max);
      if Under(after, c) {
        HeldUntil(after, steps[1..], max, c);
      } else {
        TokenKnown(o, steps[0], max, c);
        LostForever(after, steps[1..], max, c);
      }
    }
  }

  lemma TokenKnown(o: Outbox, step: Step, max: nat, c: Claim)
    requires Kept(o, max) && Under(o, c)
    ensures c.intent in Apply(o, step, max).intents && c.token in Apply(o, step, max).tokens
  {
    assert IntentOk(o, c.intent, max);
  }

  /** No claim in the run reads the clock at `end` or later, the holder reports no outcome, and none
      of its renewals ends before that. */
  predicate Spares(step: Step, c: Claim, end: int) {
    && !Settles(step, c) && (step.ClaimBatch? ==> step.claimedAt < end)
    && (step.Renew? ==> end <= step.at + step.leaseMs)
  }

  /** Whatever other workers do before its lease's end, the claim still holds the row. */
  lemma {:induction false} HeldToItsEnd(o: Outbox, steps: seq<Step>, max: nat, c: Claim, end: int)
    requires Kept(o, max) && FeasibleRun(o, steps, max) && max >= 1 && Under(o, c)
    requires end <= o.intents[c.intent].lease.value.expiresAt && forall s | s in steps :: Spares(s, c, end)
    ensures Under(Run(o, steps, max), c) && end <= Run(o, steps, max).intents[c.intent].lease.value.expiresAt
    decreases |steps|
  {
    if steps != [] {
      assert Spares(steps[0], c, end);
      HeldExactly(o, steps[0], max, c);
      StepKeeps(o, steps[0], max);
      HeldToItsEnd(Apply(o, steps[0], max), steps[1..], max, c, end);
    }
  }
}
