/** Idempotent issuing (src/convites.ts, issueIdempotent; src/jobs/cleanup-idempotency.ts): a
    request key maps to one confirmed response until it expires. */
module IdempotentIssuance {
  import opened Optional
  import opened Invitations

  datatype Channel = Email | Sms

  // The actor, condominium, method and route, with the digest of the caller's key.
  datatype RequestKey = RequestKey(actor: string, condominium: Id, route: string, key: nat)

  /** A confirmed record. Unconfirmed ones never outlive their transaction. The response is
      encrypted under the record's own identifier; `text` is its plaintext. */
  datatype Record = Record(id: nat, requestHash: nat, expiresAt: int, text: nat)

  datatype Intent = Intent(invite: Id, channel: Channel)

  // The rows, and their history: the batch each record ever confirmed, and each of its
  // invitations' contact channels at that time.
  datatype Ledger = Ledger(
    gate: Gate, records: map<RequestKey, Record>, intents: set<Intent>,
    batches: map<nat, set<Id>>, contacts: map<Id, set<Channel>>)

  /** One attempt of a request: what was asked, whether the process has its secrets (`keyed`) and
      they are those the database knows (`configured`), what the transaction draws, and its clock
      readings in order. */
  datatype Request = Request(
    key: RequestKey, hash: nat, batch: Batch, site: Site, contacts: map<Id, set<Channel>>, keyed: bool, configured: bool,
    text: nat, record: nat, ttlMs: nat, askedAt: int, purgedAt: int, clearedAt: int, issuedAt: int, confirmedAt: int)

  datatype Outcome =
    | Issued(text: nat) | Replayed(text: nat) | Nothing | Conflict | SecretMismatch | Rejected(refusal: Refusal) | Empty

  datatype Attempt = Attempt(ledger: Ledger, outcome: Outcome)

  function ChannelsOf(q: Request, guest: Id): set<Channel> {
    if guest in q.contacts then q.contacts[guest] else {}
  }

  function NewIntents(q: Request): set<Intent> {
    set a, c | a in q.batch.allocations && c in ChannelsOf(q, a.guest) :: Intent(a.id, c)
  }

  function ContactsOf(q: Request, allocations: seq<Allocation>): map<Id, set<Channel>> {
    if allocations == [] then map[]
    else
      var a := allocations[|allocations| - 1];
      ContactsOf(q, allocations[..|allocations| - 1])[a.id := ChannelsOf(q, a.guest)]
  }

  /** An expired record of the key goes before the key is tried. */
  function Purged(records: map<RequestKey, Record>, key: RequestKey, now: int): map<RequestKey, Record> {
    if key in records && records[key].expiresAt <= now then records - {key} else records
  }

  function Confirm(l: Ledger, q: Request, invites: map<Id, Invite>): Ledger {
    Ledger(l.gate.(invites := invites),
           Purged(l.records, q.key, q.purgedAt)[q.key := Record(q.record, q.hash, q.confirmedAt + q.ttlMs, q.text)],
           l.intents + NewIntents(q),
           l.batches[q.record := NewIds(q.batch.allocations)],
           l.contacts + ContactsOf(q, q.batch.allocations))
  }

  function Try(l: Ledger, q: Request): Attempt {
    if !q.keyed then Attempt(l, SecretMismatch)
    else if q.batch.allocations == [] then Attempt(l, Empty)
    else if !AllAfter(q.batch.allocations, q.askedAt) then Attempt(l, Rejected(Expired))
    else if !q.configured then Attempt(l, SecretMismatch)
    else
      var records := Purged(l.records, q.key, q.purgedAt);
      if q.key in records then
        if records[q.key].requestHash != q.hash then Attempt(l, Conflict)
        else Attempt(l, Replayed(records[q.key].text))
      else
        match Persist(l.gate.invites, q.batch, q.site, q.clearedAt, q.issuedAt)
        case Missing(invites) => Attempt(l.(gate := l.gate.(invites := invites), records := records), Nothing)
        case Failed(refusal) => Attempt(l, Rejected(refusal))
        case Created(invites) => Attempt(Confirm(l, q, invites), Issued(q.text))
  }

  // ----- What is kept -----

  ghost predicate Accounted(l: Ledger) {
    && (forall key | key in l.records :: l.records[key].id in l.batches)
    && (forall j, k | j in l.records && k in l.records && j != k :: l.records[j].id != l.records[k].id)
    && (forall r | r in l.batches :: l.batches[r] <= l.contacts.Keys)
    && (forall r, s | r in l.batches && s in l.batches && r != s :: l.batches[r] !! l.batches[s])
    && l.contacts.Keys <= l.gate.invites.Keys
  }

  /** One delivery intent for each invitation of a confirmed batch and each of its channels. */
  ghost predicate OneIntentEach(l: Ledger) {
    forall i, c :: Intent(i, c) in l.intents <==> i in l.contacts && c in l.contacts[i]
  }

  ghost predicate LedgerKept(l: Ledger) {
    Kept(l.gate) && Accounted(l) && OneIntentEach(l)
  }

  ghost predicate FreshRequest(l: Ledger, q: Request) {
    && FreshIds(l.gate.invites, q.batch.allocations)
    && q.record !in l.batches
  }

  lemma NewIdsLast(allocations: seq<Allocation>)
    requires allocations != []
    ensures NewIds(allocations) == NewIds(allocations[..|allocations| - 1]) + {allocations[|allocations| - 1].id}
  {
    assert allocations == allocations[..|allocations| - 1] + [allocations[|allocations| - 1]];
  }

  lemma {:induction false} ContactsKeys(q: Request, allocations: seq<Allocation>)
    ensures ContactsOf(q, allocations).Keys == NewIds(allocations)
  {
    if allocations == [] {
      assert NewIds(allocations) == {};
    } else {
      ContactsKeys(q, allocations[..|allocations| - 1]);
      NewIdsLast(allocations);
    }
  }

  lemma {:induction false} ContactsRow(l: Ledger, q: Request, allocations: seq<Allocation>, k: nat)
    requires FreshIds(l.gate.invites, allocations) && k < |allocations|
    ensures allocations[k].id in ContactsOf(q, allocations)
            && ContactsOf(q, allocations)[allocations[k].id] == ChannelsOf(q, allocations[k].guest)
  {
    var init := allocations[..|allocations| - 1];
    if k < |init| {
      FreshLast(l.gate.invites, allocations);
      ContactsRow(l, q, init, k);
      assert init[k] == allocations[k];
    }
  }

  lemma NewIntentsExactly(l: Ledger, q: Request, i: Id, c: Channel)
    requires FreshIds(l.gate.invites, q.batch.allocations)
    ensures var contacts := ContactsOf(q, q.batch.allocations);
            Intent(i, c) in NewIntents(q) <==> i in contacts && c in contacts[i]
  {
    var allocations := q.batch.allocations;
    ContactsKeys(q, allocations);
    if i in NewIds(allocations) {
      var a :| a in allocations && a.id == i;
      var k :| 0 <= k < |allocations| && allocations[k] == a;
      ContactsRow(l, q, allocations, k);
      forall b | b in allocations && b.id == i ensures b == a {
        var j :| 0 <= j < |allocations| && allocations[j] == b;
      }
    }
  }

  lemma NewIdsFresh(invites: map<Id, Invite>, allocations: seq<Allocation>)
    requires FreshIds(invites, allocations)
    ensures NewIds(allocations) !! invites.Keys
  {
    forall id | id in NewIds(allocations) ensures id !in invites {
      var a :| a in allocations && a.id == id;
      var k :| 0 <= k < |allocations| && allocations[k] == a;
    }
  }

  lemma ConfirmAccounted(l: Ledger, q: Request, invites: map<Id, Invite>)
    requires Accounted(l) && FreshRequest(l, q)
    requires invites.Keys == l.gate.invites.Keys + NewIds(q.batch.allocations)
    ensures Accounted(Confirm(l, q, invites))
  {
    var after, ids := Confirm(l, q, invites), NewIds(q.batch.allocations);
    ContactsKeys(q, q.batch.allocations);
    NewIdsFresh(l.gate.invites, q.batch.allocations);
    forall r | r in l.batches ensures l.batches[r] !! ids {}
  }

  lemma ConfirmIntents(l: Ledger, q: Request, invites: map<Id, Invite>)
    requires Accounted(l) && OneIntentEach(l) && FreshRequest(l, q)
    ensures OneIntentEach(Confirm(l, q, invites))
  {
    var after := Confirm(l, q, invites);
    ContactsKeys(q, q.batch.allocations);
    NewIdsFresh(l.gate.invites, q.batch.allocations);
    forall i, c ensures Intent(i, c) in after.intents <==> i in after.contacts && c in after.contacts[i] {
      NewIntentsExactly(l, q, i, c);
    }
  }

  /** Rows may come and go around it as long as invitations stay and records only go. */
  lemma AroundKeeps(l: Ledger, gate: Gate, records: map<RequestKey, Record>)
    requires LedgerKept(l) && Kept(gate) && l.gate.invites.Keys <= gate.invites.Keys
    requires forall key | key in records :: key in l.records && records[key] == l.records[key]
    ensures LedgerKept(l.(gate := gate, records := records))
  {
  }

  lemma IssuedKeeps(l: Ledger, q: Request)
    requires LedgerKept(l) && FreshRequest(l, q)
    requires Persist(l.gate.invites, q.batch, q.site, q.clearedAt, q.issuedAt).Created?
    ensures LedgerKept(Confirm(l, q, Persist(l.gate.invites, q.batch, q.site, q.clearedAt, q.issuedAt).invites))
  {
    var invites := Persist(l.gate.invites, q.batch, q.site, q.clearedAt, q.issuedAt).invites;
    PersistKeeps(l.gate, q.batch, q.site, q.clearedAt, q.issuedAt);
    CreatedKeys(l.gate.invites, q.batch, q.site, q.clearedAt, q.issuedAt);
    ConfirmAccounted(l, q, invites);
    ConfirmIntents(l, q, invites);
    assert Confirm(l, q, invites).gate == l.gate.(invites := invites);
  }

  lemma MissingKeys(invites: map<Id, Invite>, b: Batch, site: Site, clearedAt: int, at: int)
    requires Persist(invites, b, site, clearedAt, at).Missing?
    ensures Persist(invites, b, site, clearedAt, at).invites.Keys == invites.Keys
  {
    ClearingOnly(invites, b.allocations, clearedAt);
  }

  lemma NothingKeeps(l: Ledger, q: Request, invites: map<Id, Invite>)
    requires LedgerKept(l) && FreshRequest(l, q)
    requires Persist(l.gate.invites, q.batch, q.site, q.clearedAt, q.issuedAt) == Missing(invites)
    ensures LedgerKept(l.(gate := l.gate.(invites := invites), records := Purged(l.records, q.key, q.purgedAt)))
  {
    PersistKeeps(l.gate, q.batch, q.site, q.clearedAt, q.issuedAt);
    MissingKeys(l.gate.invites, q.batch, q.site, q.clearedAt, q.issuedAt);
    AroundKeeps(l, l.gate.(invites := invites), Purged(l.records, q.key, q.purgedAt));
  }

  lemma ReachedPersist(l: Ledger, q: Request)
    ensures var p := Persist(l.gate.invites, q.batch, q.site, q.clearedAt, q.issuedAt);
            || Try(l, q).ledger == l
            || (p.Created? && Try(l, q).ledger == Confirm(l, q, p.invites))
            || (p.Missing? && Try(l, q).ledger
                              == l.(gate := l.gate.(invites := p.invites), records := Purged(l.records, q.key, q.purgedAt)))
  {
  }

  lemma TryKeeps(l: Ledger, q: Request)
    requires LedgerKept(l) && FreshRequest(l, q)
    ensures LedgerKept(Try(l, q).ledger)
  {
    ReachedPersist(l, q);
    match Persist(l.gate.invites, q.batch, q.site, q.clearedAt, q.issuedAt)
    case Created(_) => IssuedKeeps(l, q);
    case Missing(invites) => NothingKeeps(l, q, invites);
    case Failed(_) =>
  }

  // ----- Other steps -----

  datatype Step =
    | TryStep(request: Request)
    | PlainBatch(batch: Batch, site: Site, clearedAt: int, at: int)
    | AccessStep(access: Access)
    | RevokeStep(revocation: Revocation)
    | DeleteInvite(id: Id, at: int)
    | CleanRecords(picked: set<RequestKey>, now: int)

  /** cleanupExpiredIdempotencyRecords, whichever rows its batch picks. */
  function Cleaned(records: map<RequestKey, Record>, picked: set<RequestKey>, now: int): map<RequestKey, Record> {
    map key | key in records && !(key in picked && records[key].expiresAt <= now) :: records[key]
  }

  ghost function Apply(l: Ledger, step: Step): Ledger {
    match step
    case TryStep(q) => Try(l, q).ledger
    case PlainBatch(b, site, clearedAt, at) =>
      l.(gate := l.gate.(invites := Rows(Persist(l.gate.invites, b, site, clearedAt, at), l.gate.invites)))
    case AccessStep(a) => l.(gate := Validate(l.gate, a))
    case RevokeStep(r) => l.(gate := Revoke(l.gate, r))
    case DeleteInvite(id, at) =>
      if id !in l.gate.invites then l
      else l.(gate := l.gate.(invites := l.gate.invites[id := l.gate.invites[id].(deletedAt := Some(at))]))
    case CleanRecords(picked, now) => l.(records := Cleaned(l.records, picked, now))
  }

  ghost predicate Feasible(l: Ledger, step: Step) {
    match step
    case TryStep(q) => FreshRequest(l, q)
    case PlainBatch(b, _, _, _) => FreshIds(l.gate.invites, b.allocations)
    case _ => true
  }

  lemma PersistKeys(invites: map<Id, Invite>, b: Batch, site: Site, clearedAt: int, at: int)
    requires InvitesOk(invites) && FreshIds(invites, b.allocations)
    ensures invites.Keys <= Rows(Persist(invites, b, site, clearedAt, at), invites).Keys
  {
    ClearingOnly(invites, b.allocations, clearedAt);
    if Persist(invites, b, site, clearedAt, at).Created? { CreatedKeys(invites, b, site, clearedAt, at); }
  }

  lemma DeleteKeeps(g: Gate, id: Id, at: int)
    requires Kept(g) && id in g.invites
    ensures Kept(g.(invites := g.invites[id := g.invites[id].(deletedAt := Some(at))]))
  {
    var invites := g.invites[id := g.invites[id].(deletedAt := Some(at))];
    forall i | i in invites ensures InviteOk(invites[i]) { assert InviteOk(g.invites[i]); }
    RowsKeep(g, invites);
  }

  lemma ApplyKeeps(l: Ledger, step: Step)
    requires LedgerKept(l) && Feasible(l, step)
    ensures LedgerKept(Apply(l, step))
  {
    match step
    case TryStep(q) => TryKeeps(l, q);
    case PlainBatch(b, site, clearedAt, at) =>
      PersistKeeps(l.gate, b, site, clearedAt, at);
      PersistKeys(l.gate.invites, b, site, clearedAt, at);
      AroundKeeps(l, l.gate.(invites := Rows(Persist(l.gate.invites, b, site, clearedAt, at), l.gate.invites)), l.records);
    case AccessStep(a) =>
      ValidateKeeps(l.gate, a);
      AroundKeeps(l, Validate(l.gate, a), l.records);
    case RevokeStep(r) =>
      RevokeKeeps(l.gate, r);
      AroundKeeps(l, Revoke(l.gate, r), l.records);
    case DeleteInvite(id, at) =>
      if id in l.gate.invites {
        DeleteKeeps(l.gate, id, at);
        AroundKeeps(l, Apply(l, step).gate, l.records);
      }
    case CleanRecords(picked, now) => AroundKeeps(l, l.gate, Cleaned(l.records, picked, now));
  }

  // ----- Runs -----

  ghost predicate FeasibleRun(l: Ledger, steps: seq<Step>)
    decreases |steps|
  {
    steps == [] || (Feasible(l, steps[0]) && FeasibleRun(Apply(l, steps[0]), steps[1..]))
  }

  ghost function Run(l: Ledger, steps: seq<Step>): Ledger
    decreases |steps|
  {
    if steps == [] then l else Run(Apply(l, steps[0]), steps[1..])
  }

  /** Over every run: used and revoked exclude each other and leave no digest, live digests are
      unique, used invitations are permitted audits are notifications, and each confirmed record
      has one batch of its own with one delivery intent per invitation and contact channel. */
  lemma {:induction false} RunKeeps(l: Ledger, steps: seq<Step>)
    requires LedgerKept(l) && FeasibleRun(l, steps)
    ensures LedgerKept(Run(l, steps))
    decreases |steps|
  {
    if steps != [] {
      ApplyKeeps(l, steps[0]);
      RunKeeps(Apply(l, steps[0]), steps[1..]);
    }
  }

  // ----- One key, one answer -----

  /** No step of the run deletes expired records at or after `t`. */
  predicate Before(step: Step, t: int) {
    match step
    case TryStep(q) => q.purgedAt < t
    case CleanRecords(_, now) => now < t
    case _ => true
  }

  lemma RecordStays(l: Ledger, step: Step, key: RequestKey)
    requires key in l.records && Before(step, l.records[key].expiresAt)
    ensures key in Apply(l, step).records && Apply(l, step).records[key] == l.records[key]
  {
  }

  lemma {:induction false} RecordStaysInRun(l: Ledger, steps: seq<Step>, key: RequestKey)
    requires key in l.records && forall i | 0 <= i < |steps| :: Before(steps[i], l.records[key].expiresAt)
    ensures key in Run(l, steps).records && Run(l, steps).records[key] == l.records[key]
    decreases |steps|
  {
    if steps != [] {
      RecordStays(l, steps[0], key);
      forall i | 0 <= i < |steps[1..]| ensures Before(steps[1..][i], l.records[key].expiresAt) {
        assert steps[1..][i] == steps[i + 1];
      }
      RecordStaysInRun(Apply(l, steps[0]), steps[1..], key);
    }
  }

  /** A well-formed attempt, up to the point where its key is looked up. */
  predicate Heard(q: Request) {
    q.keyed && q.batch.allocations != [] && AllAfter(q.batch.allocations, q.askedAt) && q.configured
  }

  lemma IssuedRecord(l: Ledger, q: Request)
    requires Try(l, q).outcome.Issued?
    ensures var records := Try(l, q).ledger.records;
            q.key in records && records[q.key] == Record(q.record, q.hash, q.confirmedAt + q.ttlMs, q.text)
  {
  }

  lemma RecordAnswers(l: Ledger, q: Request)
    requires Heard(q) && q.key in l.records && q.purgedAt < l.records[q.key].expiresAt
    ensures Try(l, q) == Attempt(l, if q.hash == l.records[q.key].requestHash then Replayed(l.records[q.key].text) else Conflict)
  {
  }

  /** Once a request was answered, and until its record expires, whatever else happens: the same
      request gets the identical text and creates nothing, and another request under the same
      key is a conflict and changes nothing. */
  lemma OneAnswer(l: Ledger, q: Request, steps: seq<Step>, again: Request)
    requires Try(l, q).outcome.Issued?
    requires forall i | 0 <= i < |steps| :: Before(steps[i], q.confirmedAt + q.ttlMs)
    requires Heard(again) && again.key == q.key && again.purgedAt < q.confirmedAt + q.ttlMs
    ensures var later := Run(Try(l, q).ledger, steps);
            Try(later, again) == Attempt(later, if again.hash == q.hash then Replayed(q.text) else Conflict)
  {
    IssuedRecord(l, q);
    RecordStaysInRun(Try(l, q).ledger, steps, q.key);
    RecordAnswers(Run(Try(l, q).ledger, steps), again);
  }

  /** A refused, conflicting or replayed attempt leaves everything as it was. */
  lemma FailureLeavesNothing(l: Ledger, q: Request)
    ensures var attempt := Try(l, q);
            !attempt.outcome.Issued? && !attempt.outcome.Nothing? ==> attempt.ledger == l
  {
  }

  /** One that misses a guest leaves no record, no invitation and no intent of its own. */
  lemma MissingLeavesNothing(l: Ledger, q: Request)
    requires Try(l, q).outcome.Nothing?
    ensures var after := Try(l, q).ledger;
            && after == l.(gate := after.gate, records := Purged(l.records, q.key, q.purgedAt))
            && after.gate == l.gate.(invites := after.gate.invites)
            && after.gate.invites.Keys == l.gate.invites.Keys
            && (forall id | id in l.gate.invites :: OnlyCleared(l.gate.invites[id], after.gate.invites[id], q.clearedAt))
            && q.key !in after.records
  {
    ClearingOnly(l.gate.invites, q.batch.allocations, q.clearedAt);
  }

  /** An issued request has a record of its own for one new batch, whole. */
  lemma IssuedExactly(l: Ledger, q: Request)
    requires LedgerKept(l) && FreshRequest(l, q) && Try(l, q).outcome.Issued?
    ensures var after := Try(l, q).ledger;
            && q.key in after.records && after.records[q.key].id == q.record
            && after.batches == l.batches[q.record := NewIds(q.batch.allocations)]
            && after.gate.invites.Keys == l.gate.invites.Keys + NewIds(q.batch.allocations)
            && |NewIds(q.batch.allocations)| == |q.batch.allocations|
            && (forall i, c | i in NewIds(q.batch.allocations) ::
                  Intent(i, c) in after.intents <==> Intent(i, c) in NewIntents(q))
  {
    CreatedKeys(l.gate.invites, q.batch, q.site, q.clearedAt, q.issuedAt);
    NewIdsCount(l.gate.invites, q.batch.allocations);
    NewIdsFresh(l.gate.invites, q.batch.allocations);
    forall i, c | i in NewIds(q.batch.allocations) ensures Intent(i, c) !in l.intents {
      assert i !in l.contacts;
    }
  }

  lemma {:induction false} NewIdsCount(invites: map<Id, Invite>, allocations: seq<Allocation>)
    requires FreshIds(invites, allocations)
    ensures |NewIds(allocations)| == |allocations|
  {
    if allocations == [] {
      assert NewIds(allocations) == {};
    } else {
      FreshLast(invites, allocations);
      NewIdsCount(invites, allocations[..|allocations| - 1]);
    }
  }

  // ----- Used and revoked are final -----

  /** The use and the revocation a row has are what it keeps. */
  predicate Spent(before: Invite, after: Invite) {
    && (before.usedAt.Some? ==> after.usedAt == before.usedAt && after.revokedAt.None?)
    && (before.revokedAt.Some? ==> after.revokedAt == before.revokedAt && after.usedAt.None?)
  }

  lemma AccessSpent(g: Gate, a: Access, id: Id)
    requires Kept(g) && id in g.invites
    ensures id in Validate(g, a).invites && Spent(g.invites[id], Validate(g, a).invites[id])
  {
    assert InviteOk(g.invites[id]);
    var v := Judge(g.invites, a);
    if v.Allowed? { assert Usable(g.invites, a, v.invite); }
  }

  lemma RevokeSpent(g: Gate, r: Revocation, id: Id)
    requires Kept(g) && id in g.invites
    ensures id in Revoke(g, r).invites && Spent(g.invites[id], Revoke(g, r).invites[id])
  {
    assert InviteOk(g.invites[id]);
  }

  lemma SpentStays(l: Ledger, step: Step, id: Id)
    requires LedgerKept(l) && Feasible(l, step) && id in l.gate.invites
    ensures id in Apply(l, step).gate.invites && Spent(l.gate.invites[id], Apply(l, step).gate.invites[id])
  {
    match step
    case TryStep(q) => TrySpent(l, q, id);
    case PlainBatch(b, site, clearedAt, at) => PersistSpent(l.gate.invites, b, site, clearedAt, at, id);
    case AccessStep(a) => AccessSpent(l.gate, a, id);
    case RevokeStep(r) => RevokeSpent(l.gate, r, id);
    case DeleteInvite(_, _) => assert InviteOk(l.gate.invites[id]);
    case CleanRecords(_, _) => assert InviteOk(l.gate.invites[id]);
  }

  lemma TrySpent(l: Ledger, q: Request, id: Id)
    requires LedgerKept(l) && FreshRequest(l, q) && id in l.gate.invites
    ensures id in Try(l, q).ledger.gate.invites
    ensures Spent(l.gate.invites[id], Try(l, q).ledger.gate.invites[id])
  {
    PersistSpent(l.gate.invites, q.batch, q.site, q.clearedAt, q.issuedAt, id);
    assert InviteOk(l.gate.invites[id]);
    var gate := Try(l, q).ledger.gate;
    assert gate == l.gate
           || gate.invites == Rows(Persist(l.gate.invites, q.batch, q.site, q.clearedAt, q.issuedAt), l.gate.invites);
  }

  lemma PersistSpent(invites: map<Id, Invite>, b: Batch, site: Site, clearedAt: int, at: int, id: Id)
    requires InvitesOk(invites) && FreshIds(invites, b.allocations) && id in invites
    ensures var after := Rows(Persist(invites, b, site, clearedAt, at), invites);
            id in after && Spent(invites[id], after[id])
  {
    assert InviteOk(invites[id]);
    var p := Persist(invites, b, site, clearedAt, at);
    if p.Created? {
      CreatedExactly(invites, b, site, clearedAt, at);
      OnlyClearedSpent(invites[id], p.invites[id], clearedAt);
    } else {
      ClearedSpent(invites, b.allocations, clearedAt, id);
    }
  }

  lemma ClearedSpent(invites: map<Id, Invite>, allocations: seq<Allocation>, clearedAt: int, id: Id)
    requires InvitesOk(invites) && id in invites
    ensures id in Cleared(invites, allocations, clearedAt)
    ensures Spent(invites[id], Cleared(invites, allocations, clearedAt)[id]) && Spent(invites[id], invites[id])
  {
    assert InviteOk(invites[id]);
    ClearingOnly(invites, allocations, clearedAt);
    OnlyClearedSpent(invites[id], Cleared(invites, allocations, clearedAt)[id], clearedAt);
  }

  lemma OnlyClearedSpent(before: Invite, after: Invite, clearedAt: int)
    requires InviteOk(before) && OnlyCleared(before, after, clearedAt)
    ensures Spent(before, after)
  {
  }

  lemma SpentTwice(a: Invite, b: Invite, c: Invite)
    requires Spent(a, b) && Spent(b, c)
    ensures Spent(a, c)
  {
  }

  /** A used invitation stays used and is never revoked, a revoked one never used. */
  lemma {:induction false} SpentForever(l: Ledger, steps: seq<Step>, id: Id)
    requires LedgerKept(l) && FeasibleRun(l, steps) && id in l.gate.invites
    ensures id in Run(l, steps).gate.invites && Spent(l.gate.invites[id], Run(l, steps).gate.invites[id])
    decreases |steps|
  {
    if steps == [] {
      assert InviteOk(l.gate.invites[id]);
    } else {
      SpentStays(l, steps[0], id);
      ApplyKeeps(l, steps[0]);
      SpentForever(Apply(l, steps[0]), steps[1..], id);
      SpentTwice(l.gate.invites[id], Apply(l, steps[0]).gate.invites[id], Run(l, steps).gate.invites[id]);
    }
  }
}
