/** The invitation store over its tables (src/convites.ts): the loops of persistBatch, the retries
    after a token collision, the gate and the revocation, proved to be the functions of
    Invitations and IdempotentIssuance. */
module InvitationStore {
  import opened Optional
  import opened Invitations
  import opened IdempotentIssuance

  const MAX_TOKEN_ATTEMPTS: nat := 32

  lemma {:induction false} InsertedPrefix(invites: map<Id, Invite>, b: Batch, allocations: seq<Allocation>, at: int, k: nat)
    requires k <= |allocations| && Inserted(invites, b, allocations[..k], at).None?
    ensures Inserted(invites, b, allocations, at).None?
    decreases |allocations| - k
  {
    if k < |allocations| {
      assert allocations[..k + 1][..k] == allocations[..k];
      InsertedPrefix(invites, b, allocations, at, k + 1);
    } else {
      assert allocations[..k] == allocations;
    }
  }

  /** Clears the wanted digests, checks guests, time zone, expiry and the day's limit, then
      inserts the rows one by one. */
  method PersistBatch(invites: map<Id, Invite>, b: Batch, site: Site, clearedAt: int, at: int) returns (p: Persisted)
    ensures p == Persist(invites, b, site, clearedAt, at)
  {
    var rows := ClearDigests(invites, b.allocations, clearedAt);
    if |Guests(b.allocations) * site.guests| != |b.allocations| { return Missing(rows); }
    if !site.zoneValid { return Failed(InvalidZone); }
    if !AllAfter(b.allocations, at) { return Failed(Expired); }
    if !WithinLimit(rows, b, site, at) { return Failed(DailyLimit); }
    var inserted := InsertRows(rows, b, at);
    return if inserted.None? then Failed(Collision) else Created(inserted.value);
  }

  method ClearDigests(invites: map<Id, Invite>, allocations: seq<Allocation>, clearedAt: int) returns (rows: map<Id, Invite>)
    ensures rows == Cleared(invites, allocations, clearedAt)
  {
    rows := invites;
    for i := 0 to |allocations|
      invariant rows == Cleared(invites, allocations[..i], clearedAt)
    {
      assert allocations[..i + 1][..i] == allocations[..i];
      rows := ClearedOf(rows, allocations[i].token, clearedAt);
    }
    assert allocations[..|allocations|] == allocations;
  }

  /** The inserts, up to the first digest that is taken. */
  method InsertRows(cleared: map<Id, Invite>, b: Batch, at: int) returns (inserted: Option<map<Id, Invite>>)
    ensures inserted == Inserted(cleared, b, b.allocations, at)
  {
    var n, rows := |b.allocations|, cleared;
    for i := 0 to n
      invariant Inserted(cleared, b, b.allocations[..i], at) == Some(rows)
    {
      var a := b.allocations[i];
      assert b.allocations[..i + 1][..i] == b.allocations[..i];
      if DigestTaken(rows, a.token) {
        InsertedPrefix(cleared, b, b.allocations, at, i + 1);
        return None;
      }
      rows := rows[a.id := NewInvite(b, a, at)];
    }
    assert b.allocations[..n] == b.allocations;
    return Some(rows);
  }

  // ----- Retries -----

  predicate Collided(o: Outcome) {
    o.Rejected? && o.refusal.Collision?
  }

  /** The first attempt that does not end in a token collision. */
  ghost function FirstSettled(l: Ledger, requests: seq<Request>): (k: nat)
    ensures k <= |requests|
    ensures forall i | 0 <= i < k :: Collided(Try(l, requests[i]).outcome)
    ensures k < |requests| ==> !Collided(Try(l, requests[k]).outcome)
  {
    if requests == [] then 0
    else if !Collided(Try(l, requests[0]).outcome) then 0
    else 1 + FirstSettled(l, requests[1..])
  }

  lemma {:induction false} SettledAt(l: Ledger, requests: seq<Request>, k: nat)
    requires k <= |requests| && forall i | 0 <= i < k :: Collided(Try(l, requests[i]).outcome)
    requires k < |requests| ==> !Collided(Try(l, requests[k]).outcome)
    ensures FirstSettled(l, requests) == k
  {
    var f := FirstSettled(l, requests);
  }

  lemma PresentedOnce(invites: map<Id, Invite>, a: Access, i: Id, j: Id)
    requires InvitesOk(invites) && Presented(invites, a, i) && Presented(invites, a, j)
    ensures i == j
  {
  }

  class InvitationTables {
    var invites: map<Id, Invite>
    var audits: seq<Audit>
    var notifications: seq<Id>
    var records: map<RequestKey, Record>
    var intents: set<Intent>
    ghost var batches: map<nat, set<Id>>
    ghost var contacts: map<Id, set<Channel>>

    ghost function State(): Ledger
      reads this
    {
      Ledger(Gate(invites, audits, notifications), records, intents, batches, contacts)
    }

    ghost predicate Valid()
      reads this
    {
      LedgerKept(State())
    }

    constructor ()
      ensures Valid() && invites == map[] && audits == [] && notifications == [] && records == map[] && intents == {}
    {
      invites, audits, notifications, records, intents := map[], [], [], map[], {};
      batches, contacts := map[], map[];
    }

    method ConfirmBatch(q: Request, rows: map<Id, Invite>)
      modifies this
      ensures State() == Confirm(old(State()), q, rows)
    {
      invites := rows;
      intents := intents + NewIntents(q);
      records := Purged(records, q.key, q.purgedAt)[q.key := Record(q.record, q.hash, q.confirmedAt + q.ttlMs, q.text)];
      batches := batches[q.record := NewIds(q.batch.allocations)];
      contacts := contacts + ContactsOf(q, q.batch.allocations);
    }

    /** What an existing record answers, if there is one that has not expired. */
    method LookUp(q: Request) returns (answer: Option<Outcome>)
      ensures var kept := Purged(records, q.key, q.purgedAt);
              answer == if q.key !in kept then None
                        else if kept[q.key].requestHash != q.hash then Some(Conflict)
                        else Some(Replayed(kept[q.key].text))
    {
      if q.key !in records || records[q.key].expiresAt <= q.purgedAt { return None; }
      var record := records[q.key];
      return Some(if record.requestHash != q.hash then Conflict else Replayed(record.text));
    }

    method Transact(q: Request) returns (outcome: Outcome)
      modifies this
      ensures Attempt(State(), outcome) == Try(old(State()), q)
    {
      if !q.keyed { return SecretMismatch; }
      if q.batch.allocations == [] { return Empty; }
      if !AllAfter(q.batch.allocations, q.askedAt) { return Rejected(Expired); }
      if !q.configured { return SecretMismatch; }
      var answer := LookUp(q);
      if answer.Some? { return answer.value; }
      var p := PersistBatch(invites, q.batch, q.site, q.clearedAt, q.issuedAt);
      match p {
        case Missing(rows) =>
          invites, records := rows, Purged(records, q.key, q.purgedAt);
          return Nothing;
        case Failed(refusal) => return Rejected(refusal);
        case Created(rows) =>
          ConfirmBatch(q, rows);
          return Issued(q.text);
      }
    }

    /** One transaction of an idempotent request. */
    method TryOnce(q: Request) returns (outcome: Outcome)
      requires Valid() && FreshRequest(State(), q)
      modifies this
      ensures Valid() && Attempt(State(), outcome) == Try(old(State()), q)
    {
      TryKeeps(State(), q);
      outcome := Transact(q);
    }

    /** Up to 32 transactions, each with new tokens: the first that does not collide decides,
        and the ones before it leave no trace. */
    method IssueIdempotent(requests: seq<Request>) returns (outcome: Option<Outcome>)
      requires Valid() && |requests| == MAX_TOKEN_ATTEMPTS
      requires forall i | 0 <= i < |requests| :: FreshRequest(State(), requests[i])
      modifies this
      ensures Valid()
      ensures var k := FirstSettled(old(State()), requests);
              if k < |requests| then
                outcome.Some? && Attempt(State(), outcome.value) == Try(old(State()), requests[k])
              else outcome.None? && State() == old(State())
    {
      ghost var before := State();
      for attempt := 0 to |requests|
        invariant State() == before && Valid()
        invariant forall i | 0 <= i < attempt :: Collided(Try(before, requests[i]).outcome)
      {
        var result := TryOnce(requests[attempt]);
        if !Collided(result) {
          SettledAt(before, requests, attempt);
          return Some(result);
        }
        FailureLeavesNothing(before, requests[attempt]);
      }
      SettledAt(before, requests, |requests|);
      return None;
    }

    /** The invitation that the token and the condominium lead to. */
    method FindPresented(a: Access) returns (found: Option<Id>)
      requires InvitesOk(invites)
      ensures found.None? <==> !exists id :: Presented(invites, a, id)
      ensures found.Some? ==> Presented(invites, a, found.value)
      ensures found.Some? ==> forall id | Presented(invites, a, id) :: id == found.value
    {
      if !(exists id | id in invites :: Presented(invites, a, id)) { return None; }
      var id :| id in invites && Presented(invites, a, id);
      forall j | Presented(invites, a, j) ensures j == id { PresentedOnce(invites, a, id, j); }
      return Some(id);
    }

    method Settle(verdict: Verdict, usedAt: int)
      requires verdict.Allowed? ==> verdict.invite in invites
      modifies `invites, `audits, `notifications
      ensures State() == old(State()).(gate := if verdict.Allowed? then Used(old(State()).gate, verdict.invite, usedAt)
                                               else Invitations.Refused(old(State()).gate, verdict))
    {
      match verdict {
        case Allowed(id) =>
          invites := invites[id := invites[id].(usedAt := Some(usedAt), digest := None)];
          audits := audits + [Audit(true, Some(id))];
          notifications := notifications + [id];
        case Denied(audited, candidate) =>
          if audited { audits := audits + [Audit(false, candidate)]; }
      }
    }

    method Decide(a: Access) returns (verdict: Verdict)
      requires InvitesOk(invites)
      ensures verdict == Judge(invites, a)
      ensures verdict.Allowed? ==> verdict.invite in invites
    {
      if !a.identityOk { return Denied(true, None); }
      if a.needsDevice && !a.deviceActive { return Denied(false, None); }
      if a.token.None? { return Denied(true, None); }
      var found := FindPresented(a);
      if found.None? { return Denied(true, None); }
      return if Usable(invites, a, found.value) then Allowed(found.value) else Denied(true, found);
    }

    /** One attempt at the gate: an allowed one uses the invitation up, is audited as permitted
        and notifies the resident, in one transaction. */
    method ValidateAccess(a: Access) returns (verdict: Verdict)
      requires Valid()
      modifies `invites, `audits, `notifications
      ensures Valid() && verdict == Judge(old(invites), a)
      ensures State() == old(State()).(gate := Validate(old(State()).gate, a))
    {
      ApplyKeeps(State(), AccessStep(a));
      verdict := Decide(a);
      Settle(verdict, a.usedAt);
    }

    method RevokeActive(r: Revocation) returns (answer: RevokeAnswer)
      requires Valid()
      modifies `invites
      ensures Valid() && answer == AnswerTo(old(invites), r)
      ensures State() == old(State()).(gate := Revoke(old(State()).gate, r))
    {
      ApplyKeeps(State(), RevokeStep(r));
      if !Owned(invites, r) { return Unavailable; }
      var i := invites[r.id];
      if Unspent(i, r.at) {
        invites := invites[r.id := i.(revokedAt := Some(r.at), digest := None)];
        return Revoked;
      }
      return if i.deletedAt.None? && i.revokedAt.Some? then AlreadyRevoked else Unavailable;
    }
  }
}
