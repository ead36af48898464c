/** Invitation deliveries claimed under leases (src/jobs/deliver-invitations.ts): an attempt is
    counted when its outcome is recorded, and only under the lease token it was claimed with. */
module DeliveryLeases {
  import opened Optional
  import opened Sequences

  type Id = nat

  datatype Status = Pending | Retry | Processing | Delivered | DeadLetter

  datatype Lease = Lease(owner: string, token: nat, expiresAt: int)

  datatype Intent = Intent(status: Status, attempts: nat, nextAttemptAt: int, lease: Option<Lease>)

  /** What a worker got when it claimed the row. */
  datatype Claim = Claim(intent: Id, attempts: nat, owner: string, token: nat)

  // The table, and its history: every outcome recorded, every delivery, every token drawn.
  datatype Outbox = Outbox(intents: map<Id, Intent>, outcomes: seq<Id>, deliveries: seq<Id>, tokens: set<nat>)

  predicate Open(e: Intent) {
    e.status == Pending || e.status == Retry || e.status == Processing
  }

  // ----- Row changes -----

  /** The exhaustion sweep of the claim transaction. */
  predicate Exhausted(e: Intent, max: nat, now: int) {
    e.status == Processing && e.lease.Some? && e.lease.value.expiresAt <= now && e.attempts >= max
  }

  function Swept(intents: map<Id, Intent>, max: nat, now: int): map<Id, Intent> {
    map id | id in intents ::
      if Exhausted(intents[id], max, now) then intents[id].(status := DeadLetter, lease := None) else intents[id]
  }

  predicate Claimable(e: Intent, max: nat, now: int) {
    && e.attempts < max
    && (((e.status == Pending || e.status == Retry) && e.nextAttemptAt <= now)
        || (e.status == Processing && e.lease.Some? && e.lease.value.expiresAt <= now))
  }

  /** The batch picked, less what is not claimable. */
  function Claimed(intents: map<Id, Intent>, batch: map<Id, nat>, max: nat, now: int): set<Id> {
    set id | id in batch && id in intents && Claimable(intents[id], max, now)
  }

  /** Each claimed row is leased under its own new token; its attempts do not change. */
  function Leased(
    intents: map<Id, Intent>, batch: map<Id, nat>, owner: string, max: nat, now: int, expiresAt: int): map<Id, Intent> {
    map id | id in intents ::
      if id in batch && Claimable(intents[id], max, now)
      then intents[id].(status := Processing, lease := Some(Lease(owner, batch[id], expiresAt)))
      else intents[id]
  }

  /** RETURNING: the claims as the worker gets them. */
  function Returned(
    intents: map<Id, Intent>, batch: map<Id, nat>, owner: string, max: nat, now: int): (claims: map<Id, Claim>)
    ensures claims.Keys == Claimed(intents, batch, max, now)
  {
    map id | id in Claimed(intents, batch, max, now) :: Claim(id, intents[id].attempts, owner, batch[id])
  }

  predicate Holds(e: Intent, c: Claim) {
    e.status == Processing && e.lease.Some? && e.lease.value.owner == c.owner && e.lease.value.token == c.token
  }

  predicate HoldsIn(intents: map<Id, Intent>, c: Claim) {
    c.intent in intents && Holds(intents[c.intent], c)
  }

  function Renewed(e: Intent, expiresAt: int): Intent
    requires e.lease.Some?
  {
    e.(lease := Some(e.lease.value.(expiresAt := expiresAt)))
  }

  predicate Terminal(c: Claim, permanent: bool, max: nat) {
    permanent || c.attempts + 1 >= max
  }

  function Failed(e: Intent, c: Claim, permanent: bool, max: nat, next: int): Intent {
    e.(status := if Terminal(c, permanent, max) then DeadLetter else Retry,
       attempts := e.attempts + 1, nextAttemptAt := next, lease := None)
  }

  // ----- Steps -----

  datatype Step =
    | Enqueue(id: Id, at: int)
    | ClaimBatch(batch: map<Id, nat>, owner: string, leaseMs: nat, sweptAt: int, claimedAt: int)
    | Renew(claim: Claim, leaseMs: nat, at: int)
    | Complete(claim: Claim)
    | Fail(claim: Claim, permanent: bool, delayMs: nat, at: int)

  function Put(o: Outbox, id: Id, e: Intent): Outbox {
    o.(intents := o.intents[id := e])
  }

  function Apply(o: Outbox, step: Step, max: nat): Outbox {
    match step
    case Enqueue(id, at) => if id in o.intents then o else Put(o, id, Intent(Pending, 0, at, None))
    case ClaimBatch(batch, owner, leaseMs, sweptAt, claimedAt) =>
      var swept := Swept(o.intents, max, sweptAt);
      o.(intents := Leased(swept, batch, owner, max, claimedAt, claimedAt + leaseMs), tokens := o.tokens + batch.Values)
    case Renew(c, leaseMs, at) =>
      if HoldsIn(o.intents, c) then Put(o, c.intent, Renewed(o.intents[c.intent], at + leaseMs)) else o
    case Complete(c) =>
      if HoldsIn(o.intents, c) then
        var e := o.intents[c.intent];
        Put(o, c.intent, e.(status := Delivered, attempts := e.attempts + 1, lease := None))
          .(outcomes := o.outcomes + [c.intent], deliveries := o.deliveries + [c.intent])
      else o
    case Fail(c, permanent, delayMs, at) =>
      if HoldsIn(o.intents, c) then
        Put(o, c.intent, Failed(o.intents[c.intent], c, permanent, max, at + delayMs))
          .(outcomes := o.outcomes + [c.intent])
      else o
  }

  predicate Injective(batch: map<Id, nat>) {
    forall i, j | i in batch && j in batch && i != j :: batch[i] != batch[j]
  }

  /** Tokens are new and distinct; claims are ones a claim transaction returned. */
  ghost predicate Genuine(o: Outbox, c: Claim) {
    c.token in o.tokens && (HoldsIn(o.intents, c) ==> c.attempts == o.intents[c.intent].attempts)
  }

  ghost predicate Feasible(o: Outbox, step: Step) {
    match step
    case Enqueue(_, _) => true
    case ClaimBatch(batch, _, _, _, _) => Injective(batch) && batch.Values !! o.tokens
    case Renew(c, _, _) => Genuine(o, c)
    case Complete(c) => Genuine(o, c)
    case Fail(c, _, _, _) => Genuine(o, c)
  }

  // ----- The invariant -----

  function Is(id: Id): Id -> int {
    (x: Id) => if x == id then 1 else 0
  }

  predicate IntentOk(o: Outbox, id: Id, max: nat)
    requires id in o.intents
  {
    var e := o.intents[id];
    && e.attempts == SumOver(o.outcomes, Is(id)) && e.attempts <= max
    && (Open(e) ==> e.attempts < max)
    && SumOver(o.deliveries, Is(id)) == (if e.status == Delivered then 1 else 0)
    && (e.status == Processing <==> e.lease.Some?)
    && (e.status == Pending ==> e.attempts == 0) && (e.status == Retry ==> e.attempts > 0)
    && (!Open(e) ==> e.attempts > 0)
    && (e.lease.Some? ==> e.lease.value.token in o.tokens)
  }

  ghost predicate Kept(o: Outbox, max: nat) {
    && (forall id | id in o.intents :: IntentOk(o, id, max))
    && (forall i, j | i in o.intents && j in o.intents && i != j && o.intents[i].lease.Some? && o.intents[j].lease.Some? ::
          o.intents[i].lease.value.token != o.intents[j].lease.value.token)
    && (forall x | x in o.outcomes :: x in o.intents) && (forall x | x in o.deliveries :: x in o.intents)
  }

  lemma {:induction false} Absent(s: seq<Id>, id: Id)
    requires id !in s
    ensures SumOver(s, Is(id)) == 0
  {
    if s != [] {
      assert s[|s| - 1] in s;
      assert forall x | x in s[..|s| - 1] :: x in s;
      Absent(s[..|s| - 1], id);
    }
  }

  lemma Appended(s: seq<Id>, x: Id, id: Id)
    ensures SumOver(s + [x], Is(id)) == SumOver(s, Is(id)) + if x == id then 1 else 0
  {
    assert (s + [x])[..|s|] == s;
  }

  /** The sweep has nothing to do: a leased row always has an attempt left. */
  lemma SweepUnreachable(o: Outbox, max: nat, now: int)
    requires Kept(o, max)
    ensures Swept(o.intents, max, now) == o.intents
  {
    forall id | id in o.intents ensures !Exhausted(o.intents[id], max, now) { assert IntentOk(o, id, max); }
  }

  lemma EnqueueKeeps(o: Outbox, id: Id, at: int, max: nat)
    requires Kept(o, max) && max >= 1
    ensures Kept(Apply(o, Enqueue(id, at), max), max)
  {
    var after := Apply(o, Enqueue(id, at), max);
    if id !in o.intents {
      Absent(o.outcomes, id);
      Absent(o.deliveries, id);
    }
    forall i | i in after.intents ensures IntentOk(after, i, max) {
      if i in o.intents { assert IntentOk(o, i, max); }
    }
  }

  lemma ClaimKeeps(o: Outbox, step: Step, max: nat)
    requires Kept(o, max) && step.ClaimBatch? && Feasible(o, step)
    ensures Kept(Apply(o, step, max), max)
  {
    var after := Apply(o, step, max);
    SweepUnreachable(o, max, step.sweptAt);
    forall i | i in after.intents ensures IntentOk(after, i, max) {
      assert IntentOk(o, i, max);
      if i in step.batch { assert step.batch[i] in step.batch.Values; }
    }
    forall i, j | i in after.intents && j in after.intents && i != j
                  && after.intents[i].lease.Some? && after.intents[j].lease.Some?
      ensures after.intents[i].lease.value.token != after.intents[j].lease.value.token
    {
      assert IntentOk(o, i, max) && IntentOk(o, j, max);
    }
  }

  lemma RenewKeeps(o: Outbox, c: Claim, leaseMs: nat, at: int, max: nat)
    requires Kept(o, max)
    ensures Kept(Apply(o, Renew(c, leaseMs, at), max), max)
  {
    var after := Apply(o, Renew(c, leaseMs, at), max);
    forall i | i in after.intents ensures IntentOk(after, i, max) { assert IntentOk(o, i, max); }
  }

  lemma CompleteRow(o: Outbox, c: Claim, max: nat, i: Id)
    requires Kept(o, max) && HoldsIn(o.intents, c) && i in o.intents
    ensures IntentOk(Apply(o, Complete(c), max), i, max)
  {
    var after := Apply(o, Complete(c), max);
    assert IntentOk(o, i, max);
    Appended(o.outcomes, c.intent, i);
    Appended(o.deliveries, c.intent, i);
    if i != c.intent { assert after.intents[i] == o.intents[i]; }
  }

  lemma FailRow(o: Outbox, step: Step, max: nat, i: Id)
    requires Kept(o, max) && step.Fail? && Genuine(o, step.claim) && HoldsIn(o.intents, step.claim) && i in o.intents
    ensures IntentOk(Apply(o, step, max), i, max)
  {
    var after := Apply(o, step, max);
    assert IntentOk(o, i, max);
    Appended(o.outcomes, step.claim.intent, i);
    assert i != step.claim.intent ==> after.intents[i] == o.intents[i];
  }

  lemma OutcomeKeeps(o: Outbox, step: Step, max: nat)
    requires Kept(o, max) && Feasible(o, step) && (step.Complete? || step.Fail?)
    ensures Kept(Apply(o, step, max), max)
  {
    var after := Apply(o, step, max);
    if HoldsIn(o.intents, step.claim) {
      forall i | i in after.intents ensures IntentOk(after, i, max) {
        if step.Complete? { CompleteRow(o, step.claim, max, i); } else { FailRow(o, step, max, i); }
      }
    }
  }

  lemma StepKeeps(o: Outbox, step: Step, max: nat)
    requires Kept(o, max) && Feasible(o, step) && max >= 1
    ensures Kept(Apply(o, step, max), max)
  {
    match step
    case Enqueue(id, at) => EnqueueKeeps(o, id, at, max);
    case ClaimBatch(_, _, _, _, _) => ClaimKeeps(o, step, max);
    case Renew(c, leaseMs, at) => RenewKeeps(o, c, leaseMs, at, max);
    case Complete(_) => OutcomeKeeps(o, step, max);
    case Fail(_, _, _, _) => OutcomeKeeps(o, step, max);
  }

  lemma StepKept(o: Outbox, step: Step, max: nat, after: Outbox)
    requires Kept(o, max) && Feasible(o, step) && max >= 1 && after == Apply(o, step, max)
    ensures Kept(after, max)
  {
    StepKeeps(o, step, max);
  }

  lemma RenewKept(o: Outbox, c: Claim, leaseMs: nat, at: int, max: nat, after: Outbox)
    requires Kept(o, max) && after == Apply(o, Renew(c, leaseMs, at), max)
    ensures Kept(after, max)
  {
    RenewKeeps(o, c, leaseMs, at, max);
  }

  lemma OutcomeKept(o: Outbox, step: Step, max: nat, after: Outbox)
    requires Kept(o, max) && Feasible(o, step) && (step.Complete? || step.Fail?) && after == Apply(o, step, max)
    ensures Kept(after, max)
  {
    OutcomeKeeps(o, step, max);
  }

  // ----- Runs -----

  ghost predicate FeasibleRun(o: Outbox, steps: seq<Step>, max: nat)
    decreases |steps|
  {
    steps == [] || (Feasible(o, steps[0]) && FeasibleRun(Apply(o, steps[0], max), steps[1..], max))
  }

  function Run(o: Outbox, steps: seq<Step>, max: nat): Outbox
    decreases |steps|
  {
    if steps == [] then o else Run(Apply(o, steps[0], max), steps[1..], max)
  }

  /** Over every run: a row's attempts are exactly its recorded outcomes and at most maxAttempts,
      an open row has one left, and a delivery is recorded at most once. */
  lemma {:induction false} RunKeeps(o: Outbox, steps: seq<Step>, max: nat)
    requires Kept(o, max) && FeasibleRun(o, steps, max) && max >= 1
    ensures Kept(Run(o, steps, max), max)
    decreases |steps|
  {
    if steps != [] {
      StepKeeps(o, steps[0], max);
      RunKeeps(Apply(o, steps[0], max), steps[1..], max);
    }
  }

  lemma ClosedStays(o: Outbox, step: Step, max: nat, id: Id)
    requires id in o.intents
    ensures id in Apply(o, step, max).intents
    ensures !Open(o.intents[id]) ==> Apply(o, step, max).intents[id] == o.intents[id]
    ensures o.intents[id].attempts <= Apply(o, step, max).intents[id].attempts
  {
  }

  /** Delivered and dead rows never change; and maxAttempts less the attempts never grows, so a
      row can be tried again only finitely often. */
  lemma {:induction false} ClosedForever(o: Outbox, steps: seq<Step>, max: nat, id: Id)
    requires id in o.intents
    ensures id in Run(o, steps, max).intents
    ensures !Open(o.intents[id]) ==> Run(o, steps, max).intents[id] == o.intents[id]
    ensures max - Run(o, steps, max).intents[id].attempts <= max - o.intents[id].attempts
    decreases |steps|
  {
    if steps != [] {
      ClosedStays(o, steps[0], max, id);
      ClosedForever(Apply(o, steps[0], max), steps[1..], max, id);
    }
  }

  predicate NotUnder(o: Outbox, id: Id, token: nat) {
    id in o.intents && (o.intents[id].lease.Some? ==> o.intents[id].lease.value.token != token)
  }

  lemma SupersededStays(o: Outbox, step: Step, max: nat, id: Id, token: nat)
    requires Feasible(o, step) && token in o.tokens && NotUnder(o, id, token)
    ensures token in Apply(o, step, max).tokens && NotUnder(Apply(o, step, max), id, token)
  {
    if step.ClaimBatch? && id in step.batch { assert step.batch[id] in step.batch.Values; }
  }

  /** A token that no longer holds its row never holds it again: whatever a superseded worker
      tries, now or later, changes nothing. */
  lemma {:induction false} SupersededForever(o: Outbox, steps: seq<Step>, max: nat, c: Claim, permanent: bool, ms: nat, at: int)
    requires FeasibleRun(o, steps, max) && c.token in o.tokens && NotUnder(o, c.intent, c.token)
    ensures var later := Run(o, steps, max);
            && Apply(later, Renew(c, ms, at), max) == later
            && Apply(later, Complete(c), max) == later
            && Apply(later, Fail(c, permanent, ms, at), max) == later
    decreases |steps|
  {
    if steps != [] {
      SupersededStays(o, steps[0], max, c.intent, c.token);
      SupersededForever(Apply(o, steps[0], max), steps[1..], max, c, permanent, ms, at);
    }
  }

  /** A genuine claim stays genuine while anything happens: its token never comes back to the row,
      and the row's attempts do not move under it. */
  lemma GenuineStays(o: Outbox, step: Step, max: nat, c: Claim)
    requires Kept(o, max) && Feasible(o, step) && Genuine(o, c) && c.intent in o.intents
    ensures c.intent in Apply(o, step, max).intents && Genuine(Apply(o, step, max), c)
  {
    if step.ClaimBatch? {
      SweepUnreachable(o, max, step.sweptAt);
      if c.intent in step.batch { assert step.batch[c.intent] in step.batch.Values; }
    }
  }

  /** Over every run a claim is an account of the row for as long as it holds it, so that the
      attempts it brings to complete and fail are the row's own. */
  lemma {:induction false} GenuineForever(o: Outbox, steps: seq<Step>, max: nat, c: Claim)
    requires Kept(o, max) && FeasibleRun(o, steps, max) && max >= 1 && Genuine(o, c) && c.intent in o.intents
    ensures Genuine(Run(o, steps, max), c)
    decreases |steps|
  {
    if steps != [] {
      GenuineStays(o, steps[0], max, c);
      StepKeeps(o, steps[0], max);
      GenuineForever(Apply(o, steps[0], max), steps[1..], max, c);
    }
  }

  /** What ClaimBatch returns is genuine to begin with. */
  lemma ClaimsAreGenuine(o: Outbox, step: Step, max: nat, id: Id)
    requires Kept(o, max) && step.ClaimBatch? && Feasible(o, step)
    requires id in Claimed(o.intents, step.batch, max, step.claimedAt)
    ensures var c, after := Claim(id, o.intents[id].attempts, step.owner, step.batch[id]), Apply(o, step, max);
            Genuine(after, c) && HoldsIn(after.intents, c)
  {
    SweepUnreachable(o, max, step.sweptAt);
    assert step.batch[id] in step.batch.Values;
  }

  /** Every open row is claimable once the clock passes its next attempt or its lease. */
  lemma OpenBecomesClaimable(o: Outbox, max: nat, id: Id, now: int)
    requires Kept(o, max) && id in o.intents && Open(o.intents[id])
    requires now >= match o.intents[id].lease case None => o.intents[id].nextAttemptAt case Some(l) => l.expiresAt
    ensures Claimable(o.intents[id], max, now)
  {
    assert IntentOk(o, id, max);
  }

  /** Each recorded outcome uses up one of the row's attempts, and every other step none. */
  lemma OutcomesAreAttempts(o: Outbox, step: Step, max: nat, id: Id)
    requires Kept(o, max) && Feasible(o, step) && id in o.intents
    ensures var after := Apply(o, step, max);
            id in after.intents
            && after.intents[id].attempts - o.intents[id].attempts
               == (if (step.Complete? || step.Fail?) && step.claim.intent == id && HoldsIn(o.intents, step.claim) then 1 else 0)
  {
    SweepUnreachable(o, max, if step.ClaimBatch? then step.sweptAt else 0);
  }

  // ----- The table -----

  class DeliveryTable {
    var intents: map<Id, Intent>
    ghost var outcomes: seq<Id>
    ghost var deliveries: seq<Id>
    ghost var tokens: set<nat>

    ghost function State(): Outbox
      reads this
    {
      Outbox(intents, outcomes, deliveries, tokens)
    }

    constructor ()
      ensures State() == Outbox(map[], [], [], {})
    {
      intents, outcomes, deliveries, tokens := map[], [], [], {};
    }

    /** The claim transaction: sweep, then lease the picked rows that are due. */
    method ClaimDeliveries(batch: map<Id, nat>, owner: string, leaseMs: nat, max: nat, sweptAt: int, claimedAt: int)
      returns (claims: map<Id, Claim>)
      requires Kept(State(), max) && max >= 1 && Feasible(State(), ClaimBatch(batch, owner, leaseMs, sweptAt, claimedAt))
      modifies this
      ensures Kept(State(), max)
      ensures State() == Apply(old(State()), ClaimBatch(batch, owner, leaseMs, sweptAt, claimedAt), max)
      ensures claims.Keys == Claimed(old(intents), batch, max, claimedAt)
      ensures forall id | id in claims :: claims[id] == Claim(id, old(intents)[id].attempts, owner, batch[id])
                                          && Genuine(State(), claims[id]) && HoldsIn(intents, claims[id])
    {
      ghost var before, step := State(), ClaimBatch(batch, owner, leaseMs, sweptAt, claimedAt);
      SweepUnreachable(before, max, sweptAt);
      intents := Swept(intents, max, sweptAt);
      claims := Returned(intents, batch, owner, max, claimedAt);
      intents := Leased(intents, batch, owner, max, claimedAt, claimedAt + leaseMs);
      tokens := tokens + batch.Values;
      StepKept(before, step, max, State());
      forall id | id in claims
        ensures claims[id].intent == id && Genuine(State(), claims[id]) && HoldsIn(intents, claims[id])
      {
        ClaimsAreGenuine(before, step, max, id);
      }
    }

    method RenewLease(c: Claim, leaseMs: nat, at: int, ghost max: nat) returns (updated: bool)
      requires Kept(State(), max) && Genuine(State(), c)
      modifies `intents
      ensures Kept(State(), max) && State() == Apply(old(State()), Renew(c, leaseMs, at), max)
      ensures updated <==> HoldsIn(old(intents), c)
    {
      ghost var before := State();
      updated := HoldsIn(intents, c);
      if updated { intents := intents[c.intent := Renewed(intents[c.intent], at + leaseMs)]; }
      RenewKept(before, c, leaseMs, at, max, State());
    }

    method CompleteDelivery(c: Claim, ghost max: nat) returns (updated: bool)
      requires Kept(State(), max) && Genuine(State(), c)
      modifies this
      ensures Kept(State(), max) && State() == Apply(old(State()), Complete(c), max)
      ensures updated <==> HoldsIn(old(intents), c)
    {
      ghost var before := State();
      updated := HoldsIn(intents, c);
      if updated {
        var e := intents[c.intent];
        intents := intents[c.intent := e.(status := Delivered, attempts := e.attempts + 1, lease := None)];
        outcomes, deliveries := outcomes + [c.intent], deliveries + [c.intent];
      }
      OutcomeKept(before, Complete(c), max, State());
    }

    /** Whether the row was still held, and whether the claim's attempts are used up. */
    method FailDelivery(c: Claim, permanent: bool, max: nat, delayMs: nat, at: int) returns (updated: bool, terminal: bool)
      requires Kept(State(), max) && Genuine(State(), c)
      modifies this
      ensures Kept(State(), max) && State() == Apply(old(State()), Fail(c, permanent, delayMs, at), max)
      ensures updated <==> HoldsIn(old(intents), c)
      ensures updated ==> (terminal <==> intents[c.intent].status == DeadLetter)
      ensures updated ==> (terminal <==> permanent || intents[c.intent].attempts >= max)
    {
      ghost var before := State();
      terminal := Terminal(c, permanent, max);
      updated := HoldsIn(intents, c);
      if updated {
        var e := intents[c.intent];
        intents := intents[c.intent := Failed(e, c, permanent, max, at + delayMs)];
        outcomes := outcomes + [c.intent];
      }
      OutcomeKept(before, Fail(c, permanent, delayMs, at), max, State());
    }
  }
}
