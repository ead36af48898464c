/** Whom the gate lets in, what an issue is refused for, and what a revocation answers
    (src/convites.ts), stated on the rows and the clock readings; and until when. */
module InvitationAccess {
  import opened Optional
  import opened Invitations
  import opened IdempotentIssuance

  // ----- The gate -----

  /** Identity and device are in order, where one is needed. */
  predicate InOrder(a: Access) {
    a.identityOk && (a.needsDevice ==> a.deviceActive)
  }

  /** The row has the presented digest, in the condominium of the gate. */
  predicate Named(invites: map<Id, Invite>, a: Access, id: Id) {
    && id in invites && a.token.Some?
    && invites[id].digest.Some? && invites[id].digest.value == a.token.value && invites[id].condominium == a.condominium
  }

  /** The row is good at the check and when it is used up. */
  predicate Good(i: Invite, a: Access) {
    i.deletedAt.None? && i.usedAt.None? && i.revokedAt.None? && a.checkedAt < i.expiresAt && a.updatedAt < i.expiresAt
  }

  /** The gate opens for an invitation exactly when identity and device are in order, and it is the
      one presented, live in every respect and unexpired at both readings. A refusal is audited
      unless it is the device that is not in order, and names the invitation that was presented. */
  lemma JudgedExactly(invites: map<Id, Invite>, a: Access, id: Id)
    requires InvitesOk(invites)
    ensures Judge(invites, a) == Allowed(id) <==>
            InOrder(a) && Named(invites, a, id) && Good(invites[id], a) && id in a.related
    ensures Judge(invites, a) == Denied(true, Some(id)) <==>
            InOrder(a) && Named(invites, a, id) && !(Good(invites[id], a) && id in a.related)
    ensures Judge(invites, a) == Denied(false, None) <==> a.identityOk && !InOrder(a)
    ensures Judge(invites, a) == Denied(true, None) <==>
            !a.identityOk || (InOrder(a) && forall i :: !Named(invites, a, i))
  {
    forall i ensures Presented(invites, a, i) <==> Named(invites, a, i) {}
    if Named(invites, a, id) {
      forall j | Presented(invites, a, j) ensures j == id {}
    }
  }

  /** An allowed access uses the row up at its own stamp, takes its digest, is audited as permitted
      and notifies once; a refused one leaves the rows and the notifications alone. */
  lemma AccessEffect(g: Gate, a: Access)
    requires Kept(g)
    ensures var v, after := Judge(g.invites, a), Validate(g, a);
            match v
            case Allowed(id) =>
              && id in g.invites
              && after.invites == g.invites[id := g.invites[id].(usedAt := Some(a.usedAt), digest := None)]
              && after.audits == g.audits + [Audit(true, Some(id))] && after.notifications == g.notifications + [id]
            case Denied(audited, candidate) =>
              && after.invites == g.invites && after.notifications == g.notifications
              && after.audits == g.audits + if audited then [Audit(false, candidate)] else []
  {
  }

  // ----- Revoking -----

  predicate Own(invites: map<Id, Invite>, r: Revocation) {
    && r.id in invites && r.related
    && invites[r.id].condominium == r.condominium && invites[r.id].resident == r.resident
  }

  /** A resident revokes an own live invitation; one revoked before, and not deleted since, is
      answered as such, whenever it expired. */
  lemma RevokedExactly(g: Gate, r: Revocation)
    requires Kept(g)
    ensures AnswerTo(g.invites, r) == Revoked <==>
            && Own(g.invites, r)
            && var i := g.invites[r.id];
            && i.deletedAt.None? && i.usedAt.None? && i.revokedAt.None? && r.at < i.expiresAt
    ensures AnswerTo(g.invites, r) == AlreadyRevoked <==>
            Own(g.invites, r) && g.invites[r.id].deletedAt.None? && g.invites[r.id].revokedAt.Some?
    ensures Revoke(g, r) == if AnswerTo(g.invites, r) == Revoked
                            then g.(invites := g.invites[r.id := g.invites[r.id].(revokedAt := Some(r.at), digest := None)])
                            else g
  {
  }

  // ----- Issuing -----

  /** Every guest is the resident's, and none is asked for twice. */
  ghost predicate AllThere(b: Batch, site: Site) {
    && (forall k | 0 <= k < |b.allocations| :: b.allocations[k].guest in site.guests)
    && (forall j, k | 0 <= j < k < |b.allocations| :: b.allocations[j].guest != b.allocations[k].guest)
  }

  lemma {:induction false} GuestsCounted(allocations: seq<Allocation>, guests: set<Id>)
    ensures |Guests(allocations) * guests| <= |allocations|
    ensures |Guests(allocations) * guests| == |allocations| <==>
            && (forall k | 0 <= k < |allocations| :: allocations[k].guest in guests)
            && (forall j, k | 0 <= j < k < |allocations| :: allocations[j].guest != allocations[k].guest)
  {
    if allocations != [] {
      var init, last := allocations[..|allocations| - 1], allocations[|allocations| - 1];
      GuestsCounted(init, guests);
      GuestsLast(allocations, guests);
      if last.guest in Guests(init) {
        var x :| x in init && x.guest == last.guest;
        var k :| 0 <= k < |init| && init[k] == x;
        assert allocations[k].guest == allocations[|init|].guest;
      }
      forall k | 0 <= k < |init| ensures allocations[k] == init[k] && init[k].guest in Guests(init) { assert init[k] in init; }
    } else {
      assert Guests(allocations) * guests == {};
    }
  }

  lemma GuestsLast(allocations: seq<Allocation>, guests: set<Id>)
    requires allocations != []
    ensures var init, last := allocations[..|allocations| - 1], allocations[|allocations| - 1];
            |Guests(allocations) * guests| ==
            |Guests(init) * guests| + if last.guest in guests && last.guest !in Guests(init) then 1 else 0
  {
    var init, last := allocations[..|allocations| - 1], allocations[|allocations| - 1];
    assert allocations == init + [last];
    var before, after := Guests(init) * guests, Guests(allocations) * guests;
    assert Guests(allocations) == Guests(init) + {last.guest};
    if last.guest in guests && last.guest !in Guests(init) {
      assert after == before + {last.guest};
    } else {
      assert after == before;
    }
  }

  /** Some wanted digest is wanted twice, or belongs to an invitation that can still be used. */
  ghost predicate TokenHeld(invites: map<Id, Invite>, allocations: seq<Allocation>, now: int) {
    || (exists j, k | 0 <= j < k < |allocations| :: allocations[j].token == allocations[k].token)
    || (exists k, id | 0 <= k < |allocations| && id in invites ::
          Unspent(invites[id], now) && invites[id].digest == Some(allocations[k].token))
  }

  lemma {:induction false} ClearedDigest(invites: map<Id, Invite>, allocations: seq<Allocation>, now: int, id: Id)
    requires id in invites
    ensures var i := Cleared(invites, allocations, now);
            && id in i && Unspent(i[id], now) == Unspent(invites[id], now)
            && i[id] == invites[id].(digest := i[id].digest)
            && i[id].digest == if !Unspent(invites[id], now) && exists k | 0 <= k < |allocations| :: invites[id].digest == Some(allocations[k].token)
                               then None else invites[id].digest
  {
    if allocations != [] {
      var init := allocations[..|allocations| - 1];
      ClearedDigest(invites, init, now, id);
      assert forall k | 0 <= k < |init| :: init[k] == allocations[k];
      assert (exists k | 0 <= k < |allocations| :: invites[id].digest == Some(allocations[k].token)) <==>
             (exists k | 0 <= k < |init| :: invites[id].digest == Some(init[k].token))
             || invites[id].digest == Some(allocations[|init|].token);
    }
  }

  ghost predicate Clash(cleared: map<Id, Invite>, allocations: seq<Allocation>) {
    || (exists j, k | 0 <= j < k < |allocations| :: allocations[j].token == allocations[k].token)
    || (exists k | 0 <= k < |allocations| :: DigestTaken(cleared, allocations[k].token))
  }

  lemma {:induction false} InsertedDigests(invites: map<Id, Invite>, b: Batch, allocations: seq<Allocation>, at: int, token: Token)
    requires FreshIds(invites, allocations) && Inserted(invites, b, allocations, at).Some?
    ensures DigestTaken(Inserted(invites, b, allocations, at).value, token) <==>
            DigestTaken(invites, token) || exists k | 0 <= k < |allocations| :: allocations[k].token == token
  {
    var after := Inserted(invites, b, allocations, at).value;
    InsertedKeys(invites, b, allocations, at);
    forall k: nat | k < |allocations| ensures allocations[k].id in after && after[allocations[k].id] == NewInvite(b, allocations[k], at) {
      InsertedRow(invites, b, allocations, at, k);
    }
    if id :| id in after && after[id].digest == Some(token) && id !in invites {
      var a :| a in allocations && a.id == id;
      var k :| 0 <= k < |allocations| && allocations[k] == a;
      assert allocations[k].token == token;
    }
    if id :| id in invites && invites[id].digest == Some(token) { assert after[id] == invites[id]; }
  }

  lemma {:induction false} InsertedUnless(cleared: map<Id, Invite>, b: Batch, allocations: seq<Allocation>, at: int)
    requires FreshIds(cleared, allocations)
    ensures Inserted(cleared, b, allocations, at).None? <==> Clash(cleared, allocations)
  {
    if allocations != [] {
      var init, n := allocations[..|allocations| - 1], |allocations| - 1;
      FreshLast(cleared, allocations);
      InsertedUnless(cleared, b, init, at);
      assert forall k | 0 <= k < n :: init[k] == allocations[k];
      if Inserted(cleared, b, init, at).Some? { InsertedDigests(cleared, b, init, at, allocations[n].token); }
      ClashLast(cleared, allocations);
    }
  }

  lemma ClashLast(cleared: map<Id, Invite>, allocations: seq<Allocation>)
    requires allocations != []
    ensures var init, n := allocations[..|allocations| - 1], |allocations| - 1;
            Clash(cleared, allocations) <==>
            Clash(cleared, init) || DigestTaken(cleared, allocations[n].token)
            || exists k | 0 <= k < n :: allocations[k].token == allocations[n].token
  {
    var init, n := allocations[..|allocations| - 1], |allocations| - 1;
    assert forall k | 0 <= k < n :: init[k] == allocations[k];
    if j, k :| 0 <= j < k < n && allocations[j].token == allocations[k].token { assert init[j].token == init[k].token; }
    if k :| 0 <= k < n && DigestTaken(cleared, allocations[k].token) { assert DigestTaken(cleared, init[k].token); }
  }

  lemma ClashIsHeld(invites: map<Id, Invite>, allocations: seq<Allocation>, now: int)
    ensures Clash(Cleared(invites, allocations, now), allocations) <==> TokenHeld(invites, allocations, now)
  {
    var cleared := Cleared(invites, allocations, now);
    ClearingOnly(invites, allocations, now);
    forall k | 0 <= k < |allocations|
      ensures DigestTaken(cleared, allocations[k].token) <==>
              exists id | id in invites :: Unspent(invites[id], now) && invites[id].digest == Some(allocations[k].token)
    {
      forall id | id in invites
        ensures cleared[id].digest == Some(allocations[k].token) <==>
                Unspent(invites[id], now) && invites[id].digest == Some(allocations[k].token)
      {
        ClearedDigest(invites, allocations, now, id);
      }
    }
  }

  /** The resident's own limit goes before the condominium's. */
  predicate OverLimit(issued: nat, wanted: nat, site: Site) {
    match site.residentLimit
    case Some(limit) => issued + wanted > limit
    case None => site.condominiumLimit.Some? && issued + wanted > site.condominiumLimit.value
  }

  /** The resident's invitations of the civil day of `at`, deleted ones not counted. */
  function Today(invites: map<Id, Invite>, b: Batch, site: Site, at: int): set<Id> {
    set id | id in invites && invites[id].condominium == b.condominium && invites[id].resident == b.resident
             && invites[id].deletedAt.None? && site.day(invites[id].createdAt) == site.day(at)
  }

  predicate BornExpired(b: Batch, at: int) {
    exists k | 0 <= k < |b.allocations| :: b.allocations[k].expiresAt <= at
  }

  /** When a batch is created, and what is answered otherwise, the first that applies: a guest is
      missing, the time zone is unknown, an invitation would already have expired, the day's limit
      would be passed, or a drawn digest is in use. */
  lemma PersistExactly(invites: map<Id, Invite>, b: Batch, site: Site, clearedAt: int, at: int)
    requires InvitesOk(invites) && FreshIds(invites, b.allocations)
    ensures var p := Persist(invites, b, site, clearedAt, at);
            if !AllThere(b, site) then p == Missing(Cleared(invites, b.allocations, clearedAt))
            else if !site.zoneValid then p == Failed(InvalidZone)
            else if BornExpired(b, at) then p == Failed(Expired)
            else if OverLimit(|Today(invites, b, site, at)|, |b.allocations|, site) then p == Failed(DailyLimit)
            else if TokenHeld(invites, b.allocations, clearedAt) then p == Failed(Collision)
            else p.Created?
  {
    ThereIff(b, site);
    LimitIff(invites, b, site, clearedAt, at);
    CollisionIff(invites, b, clearedAt, at);
  }

  lemma ThereIff(b: Batch, site: Site)
    ensures |Guests(b.allocations) * site.guests| == |b.allocations| <==> AllThere(b, site)
  {
    GuestsCounted(b.allocations, site.guests);
  }

  lemma CollisionIff(invites: map<Id, Invite>, b: Batch, clearedAt: int, at: int)
    requires FreshIds(invites, b.allocations)
    ensures Inserted(Cleared(invites, b.allocations, clearedAt), b, b.allocations, at).None?
            <==> TokenHeld(invites, b.allocations, clearedAt)
  {
    ClearingOnly(invites, b.allocations, clearedAt);
    ClashIsHeld(invites, b.allocations, clearedAt);
    InsertedUnless(Cleared(invites, b.allocations, clearedAt), b, b.allocations, at);
  }

  lemma LimitIff(invites: map<Id, Invite>, b: Batch, site: Site, clearedAt: int, at: int)
    ensures !WithinLimit(Cleared(invites, b.allocations, clearedAt), b, site, at) <==>
            OverLimit(|Today(invites, b, site, at)|, |b.allocations|, site)
  {
    ClearedDay(invites, b, site, clearedAt, at);
  }

  lemma ClearedDay(invites: map<Id, Invite>, b: Batch, site: Site, clearedAt: int, at: int)
    ensures IssuedOn(Cleared(invites, b.allocations, clearedAt), b.condominium, b.resident, site.day, at)
            == Today(invites, b, site, at)
  {
    ClearingOnly(invites, b.allocations, clearedAt);
    forall id | id in invites ensures OnlyCleared(invites[id], Cleared(invites, b.allocations, clearedAt)[id], clearedAt) {}
  }

  /** The request is well formed, its process has its secrets, and the database knows them. */
  predicate Admissible(q: Request) {
    q.keyed && q.batch.allocations != [] && !BornExpired(q.batch, q.askedAt) && q.configured
  }

  /** The key has a record that has not expired. */
  predicate Answered(l: Ledger, q: Request) {
    q.key in l.records && q.purgedAt < l.records[q.key].expiresAt
  }

  ghost predicate Issuable(l: Ledger, q: Request) {
    && AllThere(q.batch, q.site) && q.site.zoneValid && !BornExpired(q.batch, q.issuedAt)
    && !OverLimit(|Today(l.gate.invites, q.batch, q.site, q.issuedAt)|, |q.batch.allocations|, q.site)
    && !TokenHeld(l.gate.invites, q.batch.allocations, q.clearedAt)
  }

  ghost predicate Answers(l: Ledger, q: Request, outcome: IdempotentIssuance.Outcome) {
    && (outcome == SecretMismatch <==>
        !q.keyed || (q.batch.allocations != [] && !BornExpired(q.batch, q.askedAt) && !q.configured))
    && (outcome == Empty <==> q.keyed && q.batch.allocations == [])
    && (outcome.Replayed? <==> Admissible(q) && Answered(l, q) && l.records[q.key].requestHash == q.hash)
    && (outcome.Replayed? ==> outcome.text == l.records[q.key].text)
    && (outcome == Conflict <==> Admissible(q) && Answered(l, q) && l.records[q.key].requestHash != q.hash)
    && (outcome == Nothing <==> Admissible(q) && !Answered(l, q) && !AllThere(q.batch, q.site))
    && (outcome.Issued? <==> Admissible(q) && !Answered(l, q) && Issuable(l, q))
    && (outcome.Issued? ==> outcome.text == q.text)
  }

  /** A request is answered from its key's unexpired record alone, by its text or as a conflict, and
      is issued exactly when there is none and the batch can be created; only then does its record
      come to be. */
  lemma AttemptExactly(l: Ledger, q: Request)
    requires LedgerKept(l) && FreshRequest(l, q)
    ensures Answers(l, q, Try(l, q).outcome)
    ensures Try(l, q).outcome.Issued? ==>
              Try(l, q).ledger.records == l.records[q.key := Record(q.record, q.hash, q.confirmedAt + q.ttlMs, q.text)]
  {
    PersistAnswers(l, q, Persist(l.gate.invites, q.batch, q.site, q.clearedAt, q.issuedAt));
    AttemptIs(l, q, Persist(l.gate.invites, q.batch, q.site, q.clearedAt, q.issuedAt));
    RecordReplaced(l.records, q.key, q.purgedAt, Record(q.record, q.hash, q.confirmedAt + q.ttlMs, q.text));
  }

  lemma RecordReplaced(records: map<RequestKey, Record>, key: RequestKey, now: int, r: Record)
    ensures Purged(records, key, now)[key := r] == records[key := r]
  {
  }

  lemma PersistAnswers(l: Ledger, q: Request, p: Persisted)
    requires InvitesOk(l.gate.invites) && FreshIds(l.gate.invites, q.batch.allocations)
    requires p == Persist(l.gate.invites, q.batch, q.site, q.clearedAt, q.issuedAt)
    ensures p.Missing? <==> !AllThere(q.batch, q.site)
    ensures p.Created? <==> Issuable(l, q)
  {
    PersistExactly(l.gate.invites, q.batch, q.site, q.clearedAt, q.issuedAt);
  }

  lemma AttemptIs(l: Ledger, q: Request, p: Persisted)
    requires p == Persist(l.gate.invites, q.batch, q.site, q.clearedAt, q.issuedAt)
    requires (p.Missing? <==> !AllThere(q.batch, q.site)) && (p.Created? <==> Issuable(l, q))
    ensures Answers(l, q, Try(l, q).outcome)
  {
    assert BornExpired(q.batch, q.askedAt) <==> !AllAfter(q.batch.allocations, q.askedAt);
  }

  lemma IssuedIntents(l: Ledger, q: Request)
    requires Try(l, q).outcome.Issued?
    ensures Try(l, q).ledger.intents == l.intents + NewIntents(q)
  {
  }

  lemma NewIntentsOf(q: Request)
    ensures forall i | i in NewIntents(q) :: i.invite in NewIds(q.batch.allocations)
  {
  }

  lemma OldIntents(l: Ledger, q: Request, id: Id, c: Channel)
    requires LedgerKept(l) && FreshRequest(l, q) && id in NewIds(q.batch.allocations)
    ensures Intent(id, c) !in l.intents
  {
    NewIdsFresh(l.gate.invites, q.batch.allocations);
  }

  /** With an issued batch come exactly the delivery intents of its guests' channels, and every
      older intent stays. */
  lemma IntentsExactly(l: Ledger, q: Request, k: nat, c: Channel)
    requires LedgerKept(l) && FreshRequest(l, q) && Try(l, q).outcome.Issued? && k < |q.batch.allocations|
    ensures var after, a := Try(l, q).ledger.intents, q.batch.allocations[k];
            && (Intent(a.id, c) in after <==> a.guest in q.contacts && c in q.contacts[a.guest])
            && l.intents <= after
            && (forall i | i in after - l.intents :: i.invite in NewIds(q.batch.allocations))
  {
    var a := q.batch.allocations[k];
    assert a in q.batch.allocations;
    IssuedIntents(l, q);
    NewIntentsOf(q);
    OldIntents(l, q, a.id, c);
    ChannelIntents(l.gate.invites, q, k, c);
  }

  lemma ChannelIntents(invites: map<Id, Invite>, q: Request, k: nat, c: Channel)
    requires FreshIds(invites, q.batch.allocations) && k < |q.batch.allocations|
    ensures var a := q.batch.allocations[k];
            Intent(a.id, c) in NewIntents(q) <==> a.guest in q.contacts && c in q.contacts[a.guest]
  {
    var a := q.batch.allocations[k];
    assert a in q.batch.allocations;
    forall b | b in q.batch.allocations && b.id == a.id ensures b == a {
      var j :| 0 <= j < |q.batch.allocations| && q.batch.allocations[j] == b;
    }
  }

  // ----- Over runs -----

  /** What may happen to a row: it is used, revoked or deleted, and its digest goes. */
  predicate Ages(before: Invite, after: Invite) {
    && after.condominium == before.condominium && after.resident == before.resident && after.guest == before.guest
    && after.createdAt == before.createdAt && after.expiresAt == before.expiresAt
    && (before.deletedAt.Some? ==> after.deletedAt.Some?)
    && (before.usedAt.Some? ==> after.usedAt == before.usedAt)
    && (before.revokedAt.Some? ==> after.revokedAt == before.revokedAt)
  }

  ghost predicate AllAge(before: map<Id, Invite>, after: map<Id, Invite>) {
    forall id | id in before :: id in after && Ages(before[id], after[id])
  }

  /** Only a gate decision uses an invitation. */
  ghost predicate NoneUsed(before: map<Id, Invite>, after: map<Id, Invite>) {
    forall id | id in after :: after[id].usedAt == if id in before then before[id].usedAt else None
  }

  lemma PersistAges(invites: map<Id, Invite>, b: Batch, site: Site, clearedAt: int, at: int)
    requires InvitesOk(invites) && FreshIds(invites, b.allocations)
    ensures var after := Rows(Persist(invites, b, site, clearedAt, at), invites);
            AllAge(invites, after) && NoneUsed(invites, after)
  {
    var p := Persist(invites, b, site, clearedAt, at);
    if p.Created? {
      CreatedExactly(invites, b, site, clearedAt, at);
      NewAreUnused(invites, b, p.invites, at);
    } else {
      ClearingOnly(invites, b.allocations, clearedAt);
    }
  }

  lemma TryAges(l: Ledger, q: Request)
    requires InvitesOk(l.gate.invites) && FreshIds(l.gate.invites, q.batch.allocations)
    ensures var after := Try(l, q).ledger.gate.invites; AllAge(l.gate.invites, after) && NoneUsed(l.gate.invites, after)
  {
    PersistAges(l.gate.invites, q.batch, q.site, q.clearedAt, q.issuedAt);
    ReachedPersist(l, q);
  }

  lemma StepAges(l: Ledger, step: Step)
    requires LedgerKept(l) && Feasible(l, step)
    ensures AllAge(l.gate.invites, Apply(l, step).gate.invites)
    ensures !step.AccessStep? ==> NoneUsed(l.gate.invites, Apply(l, step).gate.invites)
  {
    match step
    case TryStep(q) => TryAges(l, q);
    case PlainBatch(b, site, clearedAt, at) => PersistAges(l.gate.invites, b, site, clearedAt, at);
    case AccessStep(a) => AccessAges(l.gate, a);
    case RevokeStep(r) => RevokeAges(l.gate, r);
    case DeleteInvite(id, at) => if id in l.gate.invites { DeleteAges(l.gate.invites, id, at); }
    case CleanRecords(_, _) =>
  }

  lemma RevokeAges(g: Gate, r: Revocation)
    requires Kept(g)
    ensures AllAge(g.invites, Revoke(g, r).invites) && NoneUsed(g.invites, Revoke(g, r).invites)
  {
    RevokedExactly(g, r);
  }

  lemma DeleteAges(invites: map<Id, Invite>, id: Id, at: int)
    requires id in invites
    ensures var after := invites[id := invites[id].(deletedAt := Some(at))]; AllAge(invites, after) && NoneUsed(invites, after)
  {
  }

  lemma AccessAges(g: Gate, a: Access)
    requires Kept(g)
    ensures AllAge(g.invites, Validate(g, a).invites)
  {
    AccessEffect(g, a);
    var v := Judge(g.invites, a);
    if v.Allowed? { JudgedExactly(g.invites, a, v.invite); }
  }

  /** Deleted, used, revoked, or expired at `t`. */
  predicate Shut(invites: map<Id, Invite>, id: Id, t: int) {
    && id in invites
    && (invites[id].deletedAt.Some? || invites[id].usedAt.Some? || invites[id].revokedAt.Some? || invites[id].expiresAt <= t)
  }

  lemma {:induction false} ShutStays(l: Ledger, steps: seq<Step>, id: Id, t: int)
    requires LedgerKept(l) && FeasibleRun(l, steps) && Shut(l.gate.invites, id, t)
    ensures Shut(Run(l, steps).gate.invites, id, t) && LedgerKept(Run(l, steps))
    decreases |steps|
  {
    if steps != [] {
      StepAges(l, steps[0]);
      ApplyKeeps(l, steps[0]);
      ShutStays(Apply(l, steps[0]), steps[1..], id, t);
    }
  }

  /** Once an invitation is deleted, used, revoked or past its end, no later access of any run is
      allowed by it. */
  lemma ShutForGood(l: Ledger, steps: seq<Step>, id: Id, t: int, a: Access)
    requires LedgerKept(l) && FeasibleRun(l, steps) && Shut(l.gate.invites, id, t) && t <= a.checkedAt
    ensures Judge(Run(l, steps).gate.invites, a) != Allowed(id)
  {
    ShutStays(l, steps, id, t);
    JudgedExactly(Run(l, steps).gate.invites, a, id);
  }

  /** No invitation is stamped used `slack` or more past its end. */
  ghost predicate InTime(invites: map<Id, Invite>, slack: int) {
    forall id | id in invites && invites[id].usedAt.Some? :: invites[id].usedAt.value < invites[id].expiresAt + slack
  }

  lemma InTimeStays(l: Ledger, step: Step, slack: int)
    requires LedgerKept(l) && Feasible(l, step) && InTime(l.gate.invites, slack)
    requires step.AccessStep? ==> step.access.usedAt <= step.access.updatedAt + slack
    ensures InTime(Apply(l, step).gate.invites, slack)
  {
    StepAges(l, step);
    if step.AccessStep? {
      AccessEffect(l.gate, step.access);
      var v := Judge(l.gate.invites, step.access);
      if v.Allowed? { JudgedExactly(l.gate.invites, step.access, v.invite); }
    }
  }

  /** Over every run, a used invitation's stamp is before its end by all but the longest time an
      UPDATE takes from its condition to its stamp: strictly before it when that is no time. */
  lemma {:induction false} UsedInTime(l: Ledger, steps: seq<Step>, slack: int)
    requires LedgerKept(l) && FeasibleRun(l, steps) && InTime(l.gate.invites, slack)
    requires forall s | s in steps && s.AccessStep? :: s.access.usedAt <= s.access.updatedAt + slack
    ensures InTime(Run(l, steps).gate.invites, slack)
    decreases |steps|
  {
    if steps != [] {
      InTimeStays(l, steps[0], slack);
      ApplyKeeps(l, steps[0]);
      UsedInTime(Apply(l, steps[0]), steps[1..], slack);
    }
  }

  /** That bound is met: for any such time a good invitation can be stamped that far past its last
      instant. */
  lemma StampedLate(slack: nat) returns (g: Gate, a: Access)
    ensures Kept(g) && a.checkedAt <= a.updatedAt <= a.usedAt == a.updatedAt + slack
    ensures 5 in g.invites && Judge(g.invites, a) == Allowed(5)
    ensures 5 in Validate(g, a).invites
            && Validate(g, a).invites[5].usedAt == Some(g.invites[5].expiresAt - 1 + slack)
  {
    g := Gate(map[5 := Invite(1, 2, 3, 0, 1000, None, None, None, Some(9))], [], []);
    a := Access(Some(9), 1, true, false, false, {5}, 999, 999, 999 + slack);
    assert InviteOk(g.invites[5]) && Entered(g, 5);
    assert Named(g.invites, a, 5);
    JudgedExactly(g.invites, a, 5);
  }
}
