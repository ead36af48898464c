/** Which steps of the recovery worker take effect (src/jobs/process-recovery-revocations.ts and the
    webhook of src/human-administration.ts), and how long a claim holds its event: stated on the
    rows and the clock readings. */
module RecoveryClaims {
  import opened Optional
  import opened Sequences
  import opened SessionModel
  import opened SessionTransactions
  import opened RecoveryInbox

  // ----- The webhook -----

  /** An event is stored, for fifteen minutes, exactly when the call is in order and neither its key
      nor its digest is there; a redelivery is accepted, as one, when its key is there with its own
      digest, and nothing else is. */
  lemma ReceivedExactly(inbox: Inbox, w: Webhook)
    ensures var receipt, after := ReceiptFor(inbox, w), Receive(inbox, w);
            var unseen := forall i | i in inbox.events ::
                         !(inbox.events[i].issuer == w.issuer && inbox.events[i].eventId == w.eventId)
                         && inbox.events[i].digest != w.digest;
            && (receipt == Receipt(true, false) <==> w.signed && unseen)
            && (receipt == Receipt(true, true) <==>
                w.signed && exists i | i in inbox.events ::
                  inbox.events[i].issuer == w.issuer && inbox.events[i].eventId == w.eventId
                  && inbox.events[i].digest == w.digest)
            && (receipt == Receipt(false, false) <==> !w.signed)
            && after == (if w.signed && unseen
                         then inbox.(events := inbox.events[w.row := Event(w.issuer, w.eventId, w.digest, w.account,
                                       w.now + 900_000, Pending, 0, w.now, None)])
                         else inbox)
  {
    if i :| i in inbox.events && inbox.events[i].issuer == w.issuer && inbox.events[i].eventId == w.eventId
            && inbox.events[i].digest == w.digest {
      assert Conflicts(inbox.events[i], w);
    }
  }

  // ----- Claiming -----

  /** Unexpired, with an attempt left, and the next one due or the lease run out. */
  predicate Due(e: Event, max: nat, now: int) {
    && e.attempts < max && now < e.expiresAt
    && ((e.status in {EventStatus.Pending, EventStatus.Retry} && e.nextAttemptAt <= now)
        || (e.status == Processing && e.lease.Some? && e.lease.value.expiresAt <= now))
  }

  /** A claim counts its attempt and leases the row exactly when it is due, and else changes nothing. */
  lemma ClaimedExactly(inbox: Inbox, id: Id, owner: string, token: nat, config: Config, now: int)
    ensures TakeClaim(inbox, id, owner, token, config, now) ==
            if id in inbox.events && Due(inbox.events[id], config.maxAttempts, now)
            then inbox.(events := inbox.events[id := inbox.events[id].(
                          status := Processing, attempts := inbox.events[id].attempts + 1,
                          lease := Some(Lease(owner, token, now + config.leaseMs)))],
                        claims := inbox.claims + [id], tokens := inbox.tokens + {token})
            else inbox
  {
  }

  /** An overdue event is expired whatever its open state, and one whose last attempt's lease has run
      out has failed; both only then, and nothing else of the inbox changes. */
  lemma SweptExactly(inbox: Inbox, id: Id, max: nat, now: int)
    ensures Expire(inbox, id, now) ==
            if id in inbox.events && inbox.events[id].status in {EventStatus.Pending, EventStatus.Retry, Processing}
               && inbox.events[id].expiresAt <= now
            then inbox.(events := inbox.events[id := inbox.events[id].(status := Expired, lease := None)]) else inbox
    ensures Exhaust(inbox, id, max, now) ==
            if id in inbox.events && inbox.events[id].status == Processing && inbox.events[id].lease.Some?
               && inbox.events[id].lease.value.expiresAt <= now < inbox.events[id].expiresAt && max <= inbox.events[id].attempts
            then inbox.(events := inbox.events[id := inbox.events[id].(status := Failed, lease := None)]) else inbox
  {
  }

  // ----- Acknowledging and failing -----

  /** The event is in progress under the claim's owner and token. */
  predicate Under(inbox: Inbox, c: Claim) {
    && c.event in inbox.events
    && var e := inbox.events[c.event];
    && e.status == Processing && e.lease.Some? && e.lease.value.owner == c.owner && e.lease.value.token == c.token
  }

  /** An acknowledgement takes effect exactly under a running lease of an unexpired event: the
      account the event was matched to is bumped, and the event is closed. */
  lemma AcknowledgedExactly(inbox: Inbox, c: Claim, now: int, bumpedAt: int, revokedAt: int)
    requires Genuine(inbox, c)
    ensures var after := Acknowledge(inbox, c, now, bumpedAt, revokedAt);
            if Under(inbox, c) && now < inbox.events[c.event].lease.value.expiresAt && now < inbox.events[c.event].expiresAt
            then
              && after.events == inbox.events[c.event := inbox.events[c.event].(status := Acknowledged, lease := None)]
              && after.effects == inbox.effects + [c.event]
              && after == inbox.(events := after.events, effects := after.effects, db := after.db)
              && after.db == match inbox.events[c.event].account
                             case None => inbox.db
                             case Some(a) => Apply(inbox.db, RecoveryEvent(a, bumpedAt, revokedAt))
            else after == inbox
  {
  }

  /** A failure takes effect exactly while the claim holds the event, its lease run out or not: it is
      tried again later, or has failed after the last attempt. */
  lemma FailedExactly(inbox: Inbox, c: Claim, config: Config, delayMs: nat, now: int)
    requires Genuine(inbox, c)
    ensures Fail(inbox, c, config, delayMs, now) ==
            if Under(inbox, c)
            then inbox.(events := inbox.events[c.event := inbox.events[c.event].(
                          status := if config.maxAttempts <= inbox.events[c.event].attempts then Failed else EventStatus.Retry,
                          nextAttemptAt := now + delayMs, lease := None)])
            else inbox
  {
  }

  // ----- How long a claim holds -----

  /** The step ends the claim's hold: its own outcome under a lease that still runs, or its own
      failure; another claim, or the last attempt's end, once its lease has run out; or the event's
      own end. */
  predicate Ends(inbox: Inbox, step: InboxStep, config: Config, c: Claim)
    requires Under(inbox, c)
  {
    var e := inbox.events[c.event];
    var end := e.lease.value.expiresAt;
    match step
    case AcknowledgeClaim(d, now, _, _) =>
      d.event == c.event && d.owner == c.owner && d.token == c.token && now < end && now < e.expiresAt
    case FailClaim(d, _, _) => d.event == c.event && d.owner == c.owner && d.token == c.token
    case ClaimRow(id, _, _, at) => id == c.event && end <= at < e.expiresAt && e.attempts < config.maxAttempts
    case ExhaustRow(id, at) => id == c.event && end <= at < e.expiresAt && config.maxAttempts <= e.attempts
    case ExpireRow(id, at) => id == c.event && e.expiresAt <= at
    case _ => false
  }

  lemma HeldExactly(inbox: Inbox, step: InboxStep, config: Config, c: Claim)
    requires InboxKept(inbox, config.maxAttempts) && FeasibleStep(inbox, step) && Under(inbox, c)
    ensures Under(ApplyInbox(inbox, step, config), c) <==> !Ends(inbox, step, config, c)
  {
    assert EventOk(inbox, c.event, config.maxAttempts);
  }

  lemma LostStays(inbox: Inbox, step: InboxStep, config: Config, c: Claim)
    requires FeasibleStep(inbox, step) && c.event in inbox.events && c.token in inbox.tokens && !Under(inbox, c)
    ensures var after := ApplyInbox(inbox, step, config);
            c.event in after.events && c.token in after.tokens && !Under(after, c)
  {
  }

  lemma {:induction false} LostForever(inbox: Inbox, steps: seq<InboxStep>, config: Config, c: Claim)
    requires FeasibleSteps(inbox, steps, config) && c.event in inbox.events && c.token in inbox.tokens && !Under(inbox, c)
    ensures !Under(RunInbox(inbox, steps, config), c)
    decreases |steps|
  {
    if steps != [] {
      LostStays(inbox, steps[0], config, c);
      LostForever(ApplyInbox(inbox, steps[0], config), steps[1..], config, c);
    }
  }

  ghost predicate Ended(inbox: Inbox, steps: seq<InboxStep>, config: Config, c: Claim)
    requires Under(inbox, c)
    decreases |steps|
  {
    steps != []
    && (Ends(inbox, steps[0], config, c)
        || (Under(ApplyInbox(inbox, steps[0], config), c) && Ended(ApplyInbox(inbox, steps[0], config), steps[1..], config, c)))
  }

  lemma TokenKnown(inbox: Inbox, step: InboxStep, config: Config, c: Claim)
    requires InboxKept(inbox, config.maxAttempts) && Under(inbox, c)
    ensures var after := ApplyInbox(inbox, step, config); c.event in after.events && c.token in after.tokens
  {
    assert EventOk(inbox, c.event, config.maxAttempts);
  }

  /** Over every run a claim holds its event exactly until one of these steps; no other worker gets
      it while the lease runs. */
  lemma {:induction false} HeldUntil(inbox: Inbox, steps: seq<InboxStep>, config: Config, c: Claim)
    requires InboxKept(inbox, config.maxAttempts) && FeasibleSteps(inbox, steps, config) && Under(inbox, c)
    ensures Under(RunInbox(inbox, steps, config), c) <==> !Ended(inbox, steps, config, c)
    decreases |steps|
  {
    if steps != [] {
      var after := ApplyInbox(inbox, steps[0], config);
      HeldExactly(inbox, steps[0], config, c);
      InboxStepKeeps(inbox, steps[0], config);
      if Under(after, c) {
        HeldUntil(after, steps[1..], config, c);
      } else {
        TokenKnown(inbox, steps[0], config, c);
        LostForever(after, steps[1..], config, c);
      }
    }
  }

  // ----- An expired event -----

  /** If the step claims or acknowledges the event, it reads the clock at `t` or later. */
  predicate ReadFrom(step: InboxStep, id: Id, t: int) {
    match step
    case ClaimRow(i, _, _, at) => i == id ==> t <= at
    case AcknowledgeClaim(c, now, _, _) => c.event == id ==> t <= now
    case _ => true
  }

  ghost predicate Untaken(inbox: Inbox, after: Inbox, id: Id)
    requires id in inbox.events
  {
    && id in after.events && after.events[id].expiresAt == inbox.events[id].expiresAt
    && SumOver(after.effects, Is(id)) == SumOver(inbox.effects, Is(id))
    && SumOver(after.claims, Is(id)) == SumOver(inbox.claims, Is(id))
  }

  lemma OverdueAcknowledge(inbox: Inbox, c: Claim, now: int, bumpedAt: int, revokedAt: int, id: Id)
    requires Genuine(inbox, c) && id in inbox.events && (c.event == id ==> inbox.events[id].expiresAt <= now)
    ensures Untaken(inbox, Acknowledge(inbox, c, now, bumpedAt, revokedAt), id)
    ensures c.event == id ==> Acknowledge(inbox, c, now, bumpedAt, revokedAt) == inbox
  {
    AcknowledgedExactly(inbox, c, now, bumpedAt, revokedAt);
    Appended(inbox.effects, c.event, id);
  }

  lemma OverdueClaim(inbox: Inbox, i: Id, owner: string, token: nat, config: Config, at: int, id: Id)
    requires id in inbox.events && (i == id ==> inbox.events[id].expiresAt <= at)
    ensures Untaken(inbox, TakeClaim(inbox, i, owner, token, config, at), id)
    ensures i == id ==> TakeClaim(inbox, i, owner, token, config, at) == inbox
  {
    ClaimedExactly(inbox, i, owner, token, config, at);
    Appended(inbox.claims, i, id);
  }

  lemma OverdueStep(inbox: Inbox, step: InboxStep, config: Config, id: Id, t: int)
    requires FeasibleStep(inbox, step) && ReadFrom(step, id, t)
    requires id in inbox.events && inbox.events[id].expiresAt <= t
    ensures Untaken(inbox, ApplyInbox(inbox, step, config), id)
  {
    match step
    case AcknowledgeClaim(c, now, bumpedAt, revokedAt) => OverdueAcknowledge(inbox, c, now, bumpedAt, revokedAt, id);
    case ClaimRow(i, owner, token, at) => OverdueClaim(inbox, i, owner, token, config, at, id);
    case _ =>
  }

  /** Once the event is overdue it is never claimed or acknowledged again, and takes no effect. */
  lemma {:induction false} OverdueForGood(inbox: Inbox, steps: seq<InboxStep>, config: Config, id: Id, t: int)
    requires FeasibleSteps(inbox, steps, config) && (forall s | s in steps :: ReadFrom(s, id, t))
    requires id in inbox.events && inbox.events[id].expiresAt <= t
    ensures var later := RunInbox(inbox, steps, config);
            && SumOver(later.effects, Is(id)) == SumOver(inbox.effects, Is(id))
            && SumOver(later.claims, Is(id)) == SumOver(inbox.claims, Is(id))
    decreases |steps|
  {
    if steps != [] {
      OverdueStep(inbox, steps[0], config, id, t);
      OverdueForGood(ApplyInbox(inbox, steps[0], config), steps[1..], config, id, t);
    }
  }
}
