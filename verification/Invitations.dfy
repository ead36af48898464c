/** Invitations from issue to use (src/convites.ts): persistBatch, validateAccess and
    revokeActive as functions of the rows, and what every run of them keeps. */
module Invitations {
  import opened Optional
  import opened Sequences

  type Id = nat
  // A token by its keyed digest, which is injective.
  type Token = nat

  datatype Invite = Invite(
    condominium: Id, resident: Id, guest: Id, createdAt: int, expiresAt: int,
    usedAt: Option<int>, revokedAt: Option<int>, deletedAt: Option<int>, digest: Option<Token>)

  /** One access decision: permitted or not, and the invitation it was about, if known. */
  datatype Audit = Audit(permitted: bool, invite: Option<Id>)

  datatype Gate = Gate(invites: map<Id, Invite>, audits: seq<Audit>, notifications: seq<Id>)

  /** Neither deleted, used, revoked nor expired. */
  predicate Unspent(i: Invite, now: int) {
    i.deletedAt.None? && i.usedAt.None? && i.revokedAt.None? && now < i.expiresAt
  }

  // ----- What is kept -----

  predicate InviteOk(i: Invite) {
    && !(i.usedAt.Some? && i.revokedAt.Some?)
    && (i.usedAt.Some? || i.revokedAt.Some? ==> i.digest.None?)
  }

  ghost predicate InvitesOk(invites: map<Id, Invite>) {
    && (forall id | id in invites :: InviteOk(invites[id]))
    && (forall i, j | i in invites && j in invites && i != j && invites[i].digest.Some? ::
          invites[i].digest != invites[j].digest)
  }

  function Permits(id: Id): Audit -> int {
    (a: Audit) => if a == Audit(true, Some(id)) then 1 else 0
  }

  function Is(id: Id): Id -> int {
    (x: Id) => if x == id then 1 else 0
  }

  /** Used invitations, permitted audits and entry notifications are one to one. */
  predicate Entered(g: Gate, id: Id)
    requires id in g.invites
  {
    var used := if g.invites[id].usedAt.Some? then 1 else 0;
    SumOver(g.audits, Permits(id)) == used && SumOver(g.notifications, Is(id)) == used
  }

  ghost predicate HistoryOk(g: Gate) {
    && (forall a | a in g.audits && a.permitted :: a.invite.Some? && a.invite.value in g.invites)
    && (forall n | n in g.notifications :: n in g.invites)
  }

  ghost predicate Kept(g: Gate) {
    && InvitesOk(g.invites) && HistoryOk(g) && (forall id | id in g.invites :: Entered(g, id))
  }

  // ----- Issuing a batch -----

  datatype Allocation = Allocation(id: Id, guest: Id, expiresAt: int, token: Token)

  datatype Batch = Batch(condominium: Id, resident: Id, allocations: seq<Allocation>)

  /** What the transaction finds about the resident and the condominium, all rows locked: the
      resident's live guests, the daily limit in force, and the civil calendar. */
  datatype Site = Site(guests: set<Id>, residentLimit: Option<nat>, condominiumLimit: Option<nat>, zoneValid: bool,
                       day: int -> int)

  datatype Refusal = InvalidZone | Expired | DailyLimit | Collision

  /** Missing is the source's null: some guest is not there. It commits, like success; a refusal
      is an exception and rolls the transaction back. */
  datatype Persisted = Missing(invites: map<Id, Invite>) | Failed(refusal: Refusal) | Created(invites: map<Id, Invite>)

  function NewIds(allocations: seq<Allocation>): set<Id> {
    set a | a in allocations :: a.id
  }

  function Guests(allocations: seq<Allocation>): set<Id> {
    set a | a in allocations :: a.guest
  }

  /** A row that is expired, used, revoked or deleted gives up a digest that is wanted. */
  function ClearedInvite(i: Invite, token: Token, now: int): Invite {
    if i.digest == Some(token) && !Unspent(i, now) then i.(digest := None) else i
  }

  function ClearedOf(invites: map<Id, Invite>, token: Token, now: int): map<Id, Invite> {
    map id | id in invites :: ClearedInvite(invites[id], token, now)
  }

  function Cleared(invites: map<Id, Invite>, allocations: seq<Allocation>, now: int): map<Id, Invite> {
    if allocations == [] then invites
    else ClearedOf(Cleared(invites, allocations[..|allocations| - 1], now), allocations[|allocations| - 1].token, now)
  }

  predicate DigestTaken(invites: map<Id, Invite>, token: Token) {
    exists id | id in invites :: invites[id].digest == Some(token)
  }

  function NewInvite(b: Batch, a: Allocation, at: int): Invite {
    Invite(b.condominium, b.resident, a.guest, at, a.expiresAt, None, None, None, Some(a.token))
  }

  /** The inserts, in order, up to a collision with the unique digest index. */
  function Inserted(invites: map<Id, Invite>, b: Batch, allocations: seq<Allocation>, at: int): Option<map<Id, Invite>> {
    if allocations == [] then Some(invites)
    else
      var a := allocations[|allocations| - 1];
      match Inserted(invites, b, allocations[..|allocations| - 1], at)
      case None => None
      case Some(before) =>
        if DigestTaken(before, a.token) then None else Some(before[a.id := NewInvite(b, a, at)])
  }

  /** The resident's invitations of the civil day of `at`, deleted ones not counted. */
  function IssuedOn(invites: map<Id, Invite>, condominium: Id, resident: Id, day: int -> int, at: int): set<Id> {
    set id | id in invites && invites[id].condominium == condominium && invites[id].resident == resident
             && invites[id].deletedAt.None? && day(invites[id].createdAt) == day(at)
  }

  function Limit(site: Site): Option<nat> {
    if site.residentLimit.Some? then site.residentLimit else site.condominiumLimit
  }

  predicate AllAfter(allocations: seq<Allocation>, at: int) {
    forall i | 0 <= i < |allocations| :: at < allocations[i].expiresAt
  }

  predicate WithinLimit(invites: map<Id, Invite>, b: Batch, site: Site, at: int) {
    Limit(site).None?
    || |IssuedOn(invites, b.condominium, b.resident, site.day, at)| + |b.allocations| <= Limit(site).value
  }

  /** persistBatch: guests are counted once, so a repeated guest makes the batch missing. */
  function Persist(invites: map<Id, Invite>, b: Batch, site: Site, clearedAt: int, at: int): Persisted {
    var cleared := Cleared(invites, b.allocations, clearedAt);
    if |Guests(b.allocations) * site.guests| != |b.allocations| then Missing(cleared)
    else if !site.zoneValid then Failed(InvalidZone)
    else if !AllAfter(b.allocations, at) then Failed(Expired)
    else if !WithinLimit(cleared, b, site, at) then Failed(DailyLimit)
    else
      match Inserted(cleared, b, b.allocations, at)
      case None => Failed(Collision)
      case Some(after) => Created(after)
  }

  /** New rows get identifiers of their own. */
  ghost predicate FreshIds(invites: map<Id, Invite>, allocations: seq<Allocation>) {
    && (forall i | 0 <= i < |allocations| :: allocations[i].id !in invites)
    && (forall i, j | 0 <= i < j < |allocations| :: allocations[i].id != allocations[j].id)
  }

  // ----- Clearing is harmless -----

  /** What clearing may do to a row: take the digest of one that is no longer unspent. */
  predicate OnlyCleared(before: Invite, after: Invite, now: int) {
    after == before || (after == before.(digest := None) && !Unspent(before, now))
  }

  lemma {:induction false} ClearingOnly(invites: map<Id, Invite>, allocations: seq<Allocation>, now: int)
    ensures Cleared(invites, allocations, now).Keys == invites.Keys
    ensures forall id | id in invites :: OnlyCleared(invites[id], Cleared(invites, allocations, now)[id], now)
    ensures InvitesOk(invites) ==> InvitesOk(Cleared(invites, allocations, now))
  {
    if allocations != [] {
      var init, token := allocations[..|allocations| - 1], allocations[|allocations| - 1].token;
      ClearingOnly(invites, init, now);
      ClearedKeeps(Cleared(invites, init, now), token, now);
    }
  }

  lemma ClearedKeeps(invites: map<Id, Invite>, token: Token, now: int)
    ensures InvitesOk(invites) ==> InvitesOk(ClearedOf(invites, token, now))
  {
    var after := ClearedOf(invites, token, now);
    if InvitesOk(invites) {
      forall id | id in after ensures InviteOk(after[id]) { assert InviteOk(invites[id]); }
    }
  }

  /** Clearing never disables an invitation that could still be used. */
  lemma ClearingHarmless(invites: map<Id, Invite>, allocations: seq<Allocation>, clearedAt: int, id: Id, now: int)
    requires id in invites && clearedAt <= now
    ensures var after := Cleared(invites, allocations, clearedAt);
            id in after && Unspent(after[id], now) == Unspent(invites[id], now)
            && (Unspent(invites[id], now) ==> after[id] == invites[id])
  {
    ClearingOnly(invites, allocations, clearedAt);
    assert OnlyCleared(invites[id], Cleared(invites, allocations, clearedAt)[id], clearedAt);
  }

  // ----- A batch is all or nothing -----

  ghost predicate SameElsewhere(before: map<Id, Invite>, after: map<Id, Invite>) {
    forall id | id in before :: id in after && after[id] == before[id]
  }

  lemma FreshLast(invites: map<Id, Invite>, allocations: seq<Allocation>)
    requires FreshIds(invites, allocations) && allocations != []
    ensures var init, last := allocations[..|allocations| - 1], allocations[|allocations| - 1];
            FreshIds(invites, init) && last.id !in NewIds(init) && last.id !in invites
            && NewIds(allocations) == NewIds(init) + {last.id}
  {
    var init, last := allocations[..|allocations| - 1], allocations[|allocations| - 1];
    assert allocations == init + [last];
    forall x | x in init ensures x.id != last.id {
      var k :| 0 <= k < |init| && init[k] == x;
      assert allocations[k].id != allocations[|allocations| - 1].id;
    }
  }

  lemma {:induction false} InsertedKeys(invites: map<Id, Invite>, b: Batch, allocations: seq<Allocation>, at: int)
    requires FreshIds(invites, allocations) && Inserted(invites, b, allocations, at).Some?
    ensures var after := Inserted(invites, b, allocations, at).value;
            SameElsewhere(invites, after) && after.Keys == invites.Keys + NewIds(allocations)
    ensures |NewIds(allocations)| == |allocations|
  {
    if allocations == [] {
      assert NewIds(allocations) == {};
    } else {
      var init, last := allocations[..|allocations| - 1], allocations[|allocations| - 1];
      FreshLast(invites, allocations);
      InsertedKeys(invites, b, init, at);
      OneMore(invites, Inserted(invites, b, init, at).value, NewIds(init), last.id, NewInvite(b, last, at));
    }
  }

  lemma OneMore(invites: map<Id, Invite>, before: map<Id, Invite>, ids: set<Id>, id: Id, i: Invite)
    requires SameElsewhere(invites, before) && before.Keys == invites.Keys + ids && id !in invites
    ensures SameElsewhere(invites, before[id := i]) && before[id := i].Keys == invites.Keys + (ids + {id})
  {
  }

  lemma {:induction false} InsertedRow(invites: map<Id, Invite>, b: Batch, allocations: seq<Allocation>, at: int, k: nat)
    requires FreshIds(invites, allocations) && Inserted(invites, b, allocations, at).Some? && k < |allocations|
    ensures var after := Inserted(invites, b, allocations, at).value;
            allocations[k].id in after && after[allocations[k].id] == NewInvite(b, allocations[k], at)
  {
    var init := allocations[..|allocations| - 1];
    if k < |init| {
      FreshLast(invites, allocations);
      InsertedRow(invites, b, init, at, k);
      assert init[k] == allocations[k];
      assert init[k] in init;
    }
  }

  lemma {:induction false} InsertedKeeps(invites: map<Id, Invite>, b: Batch, allocations: seq<Allocation>, at: int)
    requires FreshIds(invites, allocations) && Inserted(invites, b, allocations, at).Some? && InvitesOk(invites)
    ensures InvitesOk(Inserted(invites, b, allocations, at).value)
  {
    if allocations != [] {
      var init, last := allocations[..|allocations| - 1], allocations[|allocations| - 1];
      FreshLast(invites, allocations);
      InsertedKeeps(invites, b, init, at);
      InsertedKeys(invites, b, init, at);
      InsertKeeps(Inserted(invites, b, init, at).value, last.id, NewInvite(b, last, at), last.token);
    }
  }

  lemma InsertKeeps(invites: map<Id, Invite>, id: Id, i: Invite, token: Token)
    requires InvitesOk(invites) && id !in invites && InviteOk(i) && i.digest == Some(token) && !DigestTaken(invites, token)
    ensures InvitesOk(invites[id := i])
  {
    forall k | k in invites ensures invites[k].digest != Some(token) {}
  }

  lemma CreatedKeys(invites: map<Id, Invite>, b: Batch, site: Site, clearedAt: int, at: int)
    requires InvitesOk(invites) && FreshIds(invites, b.allocations) && Persist(invites, b, site, clearedAt, at).Created?
    ensures var cleared, after := Cleared(invites, b.allocations, clearedAt), Persist(invites, b, site, clearedAt, at).invites;
            && InvitesOk(after) && after.Keys == invites.Keys + NewIds(b.allocations)
            && cleared.Keys == invites.Keys && SameElsewhere(cleared, after) && |NewIds(b.allocations)| == |b.allocations|
  {
    var cleared := Cleared(invites, b.allocations, clearedAt);
    ClearingOnly(invites, b.allocations, clearedAt);
    InsertedKeys(cleared, b, b.allocations, at);
    InsertedKeeps(cleared, b, b.allocations, at);
  }

  lemma CreatedRow(invites: map<Id, Invite>, b: Batch, site: Site, clearedAt: int, at: int, k: nat)
    requires FreshIds(invites, b.allocations) && Persist(invites, b, site, clearedAt, at).Created?
    requires k < |b.allocations|
    ensures var after := Persist(invites, b, site, clearedAt, at).invites;
            b.allocations[k].id in after && after[b.allocations[k].id] == NewInvite(b, b.allocations[k], at)
            && Unspent(after[b.allocations[k].id], at)
  {
    ClearingOnly(invites, b.allocations, clearedAt);
    InsertedRow(Cleared(invites, b.allocations, clearedAt), b, b.allocations, at, k);
  }

  /** A created batch is whole: its rows and no others are new, each as allocated, every old row
      is as before but for digests nobody could use, and the resident's day is within the limit
      in force. */
  lemma CreatedExactly(invites: map<Id, Invite>, b: Batch, site: Site, clearedAt: int, at: int)
    requires InvitesOk(invites) && FreshIds(invites, b.allocations) && Persist(invites, b, site, clearedAt, at).Created?
    ensures var after := Persist(invites, b, site, clearedAt, at).invites;
            && InvitesOk(after)
            && after.Keys == invites.Keys + NewIds(b.allocations)
            && (forall id | id in invites :: OnlyCleared(invites[id], after[id], clearedAt))
            && (forall k | 0 <= k < |b.allocations| ::
                  b.allocations[k].id in after && after[b.allocations[k].id] == NewInvite(b, b.allocations[k], at)
                  && Unspent(after[b.allocations[k].id], at))
            && (Limit(site).Some? ==> |IssuedOn(after, b.condominium, b.resident, site.day, at)| <= Limit(site).value)
  {
    var cleared, after := Cleared(invites, b.allocations, clearedAt), Persist(invites, b, site, clearedAt, at).invites;
    CreatedKeys(invites, b, site, clearedAt, at);
    forall id | id in invites ensures OnlyCleared(invites[id], after[id], clearedAt) {
      ClearingOnly(invites, b.allocations, clearedAt);
    }
    forall k | 0 <= k < |b.allocations|
      ensures b.allocations[k].id in after && after[b.allocations[k].id] == NewInvite(b, b.allocations[k], at)
              && Unspent(after[b.allocations[k].id], at)
    {
      CreatedRow(invites, b, site, clearedAt, at, k);
    }
    DayCount(cleared, after, b, site, at);
  }

  lemma DayCount(before: map<Id, Invite>, after: map<Id, Invite>, b: Batch, site: Site, at: int)
    requires SameElsewhere(before, after) && after.Keys == before.Keys + NewIds(b.allocations)
    requires |NewIds(b.allocations)| == |b.allocations|
    ensures |IssuedOn(after, b.condominium, b.resident, site.day, at)|
            <= |IssuedOn(before, b.condominium, b.resident, site.day, at)| + |b.allocations|
  {
    var x := IssuedOn(after, b.condominium, b.resident, site.day, at);
    var y := IssuedOn(before, b.condominium, b.resident, site.day, at);
    assert x <= y + NewIds(b.allocations);
    SubsetSize(x, y + NewIds(b.allocations));
    assert |y + NewIds(b.allocations)| <= |y| + |NewIds(b.allocations)|;
  }

  lemma {:induction false} SubsetSize(x: set<Id>, y: set<Id>)
    requires x <= y
    ensures |x| <= |y|
    decreases |x|
  {
    if x != {} {
      var e :| e in x;
      SubsetSize(x - {e}, y - {e});
    }
  }

  // ----- Access -----

  /** One attempt at the gate: what the caller gave, what other tables say, and the clock readings
      of the check, of the UPDATE's condition and of the stamp it sets. */
  datatype Access = Access(
    token: Option<Token>, condominium: Id, identityOk: bool, needsDevice: bool, deviceActive: bool,
    related: set<Id>, checkedAt: int, updatedAt: int, usedAt: int)

  /** Denials are audited, except where the device itself is not in order. */
  datatype Verdict = Allowed(invite: Id) | Denied(audited: bool, candidate: Option<Id>)

  predicate Presented(invites: map<Id, Invite>, a: Access, id: Id) {
    id in invites && a.token.Some? && invites[id].digest == a.token && invites[id].condominium == a.condominium
  }

  /** `related` holds the invitations whose guest, resident and condominium are live. */
  predicate Usable(invites: map<Id, Invite>, a: Access, id: Id)
    requires id in invites
  {
    Unspent(invites[id], a.checkedAt) && id in a.related && a.updatedAt < invites[id].expiresAt
  }

  ghost function Judge(invites: map<Id, Invite>, a: Access): Verdict {
    if !a.identityOk then Denied(true, None)
    else if a.needsDevice && !a.deviceActive then Denied(false, None)
    else if a.token.None? then Denied(true, None)
    else if !(exists id :: Presented(invites, a, id)) then Denied(true, None)
    else
      var id :| Presented(invites, a, id);
      if Usable(invites, a, id) then Allowed(id) else Denied(true, Some(id))
  }

  function Used(g: Gate, id: Id, at: int): Gate
    requires id in g.invites
  {
    g.(invites := g.invites[id := g.invites[id].(usedAt := Some(at), digest := None)],
       audits := g.audits + [Audit(true, Some(id))], notifications := g.notifications + [id])
  }

  function Refused(g: Gate, v: Verdict): Gate
    requires v.Denied?
  {
    if v.audited then g.(audits := g.audits + [Audit(false, v.candidate)]) else g
  }

  ghost function Validate(g: Gate, a: Access): Gate {
    match Judge(g.invites, a)
    case Allowed(id) => if id in g.invites then Used(g, id, a.usedAt) else g
    case Denied(audited, candidate) => Refused(g, Denied(audited, candidate))
  }

  // ----- Revoking -----

  datatype Revocation = Revocation(id: Id, condominium: Id, resident: Id, related: bool, at: int)

  datatype RevokeAnswer = Revoked | AlreadyRevoked | Unavailable

  predicate Owned(invites: map<Id, Invite>, r: Revocation) {
    && r.id in invites && invites[r.id].condominium == r.condominium && invites[r.id].resident == r.resident && r.related
  }

  function AnswerTo(invites: map<Id, Invite>, r: Revocation): RevokeAnswer {
    if !Owned(invites, r) then Unavailable
    else if Unspent(invites[r.id], r.at) then Revoked
    else if invites[r.id].deletedAt.None? && invites[r.id].revokedAt.Some? then AlreadyRevoked
    else Unavailable
  }

  function Revoke(g: Gate, r: Revocation): Gate {
    if AnswerTo(g.invites, r).Revoked? && r.id in g.invites then
      g.(invites := g.invites[r.id := g.invites[r.id].(revokedAt := Some(r.at), digest := None)])
    else g
  }

  // ----- Every step keeps it -----

  lemma Noted(audits: seq<Audit>, a: Audit, id: Id)
    ensures SumOver(audits + [a], Permits(id)) == SumOver(audits, Permits(id)) + if a == Audit(true, Some(id)) then 1 else 0
  {
    assert (audits + [a])[..|audits|] == audits;
  }

  lemma Notified(notifications: seq<Id>, n: Id, id: Id)
    ensures SumOver(notifications + [n], Is(id)) == SumOver(notifications, Is(id)) + if n == id then 1 else 0
  {
    assert (notifications + [n])[..|notifications|] == notifications;
  }

  lemma UsedKeeps(g: Gate, id: Id, at: int)
    requires Kept(g) && id in g.invites && g.invites[id].usedAt.None? && g.invites[id].revokedAt.None?
    ensures Kept(Used(g, id, at))
  {
    var after := Used(g, id, at);
    forall i | i in after.invites ensures InviteOk(after.invites[i]) && Entered(after, i) {
      assert InviteOk(g.invites[i]) && Entered(g, i);
      Noted(g.audits, Audit(true, Some(id)), i);
      Notified(g.notifications, id, i);
    }
  }

  lemma RefusedKeeps(g: Gate, v: Verdict)
    requires Kept(g) && v.Denied?
    ensures Kept(Refused(g, v))
  {
    var after := Refused(g, v);
    forall i | i in after.invites ensures Entered(after, i) {
      assert Entered(g, i);
      Noted(g.audits, Audit(false, v.candidate), i);
    }
  }

  lemma ValidateKeeps(g: Gate, a: Access)
    requires Kept(g)
    ensures Kept(Validate(g, a))
  {
    var v := Judge(g.invites, a);
    if v.Allowed? {
      assert Presented(g.invites, a, v.invite) && Usable(g.invites, a, v.invite);
      UsedKeeps(g, v.invite, a.usedAt);
    } else {
      RefusedKeeps(g, v);
    }
  }

  lemma RevokeKeeps(g: Gate, r: Revocation)
    requires Kept(g)
    ensures Kept(Revoke(g, r))
  {
    var after := Revoke(g, r);
    forall i | i in after.invites ensures InviteOk(after.invites[i]) && Entered(after, i) {
      assert InviteOk(g.invites[i]) && Entered(g, i);
    }
  }

  lemma {:induction false} NoHistory(audits: seq<Audit>, notifications: seq<Id>, id: Id)
    requires forall a | a in audits && a.permitted :: a.invite != Some(id)
    requires id !in notifications
    ensures SumOver(audits, Permits(id)) == 0 && SumOver(notifications, Is(id)) == 0
    decreases |audits| + |notifications|
  {
    if audits != [] {
      assert audits[|audits| - 1] in audits;
      assert forall a | a in audits[..|audits| - 1] :: a in audits;
      NoHistory(audits[..|audits| - 1], notifications, id);
    } else if notifications != [] {
      assert notifications[|notifications| - 1] in notifications;
      assert forall n | n in notifications[..|notifications| - 1] :: n in notifications;
      NoHistory(audits, notifications[..|notifications| - 1], id);
    }
  }

  /** Any change of the rows that keeps their shape, uses none, and adds only unused ones. */
  lemma RowsKeep(g: Gate, invites: map<Id, Invite>)
    requires Kept(g) && InvitesOk(invites)
    requires forall id | id in g.invites :: id in invites && invites[id].usedAt == g.invites[id].usedAt
    requires forall id | id in invites && id !in g.invites :: invites[id].usedAt.None?
    ensures Kept(g.(invites := invites))
  {
    var after := g.(invites := invites);
    forall i | i in invites ensures Entered(after, i) {
      if i in g.invites {
        assert Entered(g, i);
      } else {
        NoHistory(g.audits, g.notifications, i);
      }
    }
  }

  function Rows(p: Persisted, before: map<Id, Invite>): map<Id, Invite> {
    match p
    case Missing(invites) => invites
    case Failed(_) => before
    case Created(invites) => invites
  }

  lemma PersistKeeps(g: Gate, b: Batch, site: Site, clearedAt: int, at: int)
    requires Kept(g) && FreshIds(g.invites, b.allocations)
    ensures Kept(g.(invites := Rows(Persist(g.invites, b, site, clearedAt, at), g.invites)))
  {
    var p := Persist(g.invites, b, site, clearedAt, at);
    if p.Missing? {
      MissingKeeps(g, b, p.invites, clearedAt);
    } else if p.Created? {
      CreatedExactly(g.invites, b, site, clearedAt, at);
      CreatedKeeps(g, b, p.invites, clearedAt, at);
    } else {
      assert g.(invites := g.invites) == g;
    }
  }

  lemma MissingKeeps(g: Gate, b: Batch, after: map<Id, Invite>, clearedAt: int)
    requires Kept(g) && after == Cleared(g.invites, b.allocations, clearedAt)
    ensures Kept(g.(invites := after))
  {
    ClearingOnly(g.invites, b.allocations, clearedAt);
    OnlyClearedKeeps(g, after, clearedAt);
  }

  lemma OnlyClearedKeeps(g: Gate, after: map<Id, Invite>, clearedAt: int)
    requires Kept(g) && InvitesOk(after) && after.Keys == g.invites.Keys
    requires forall id | id in g.invites :: OnlyCleared(g.invites[id], after[id], clearedAt)
    ensures Kept(g.(invites := after))
  {
    RowsKeep(g, after);
  }

  lemma CreatedKeeps(g: Gate, b: Batch, after: map<Id, Invite>, clearedAt: int, at: int)
    requires Kept(g) && InvitesOk(after) && after.Keys == g.invites.Keys + NewIds(b.allocations)
    requires forall id | id in g.invites :: OnlyCleared(g.invites[id], after[id], clearedAt)
    requires forall k | 0 <= k < |b.allocations| ::
               b.allocations[k].id in after && after[b.allocations[k].id] == NewInvite(b, b.allocations[k], at)
    ensures Kept(g.(invites := after))
  {
    NewAreUnused(g.invites, b, after, at);
    RowsKeep(g, after);
  }

  lemma NewAreUnused(before: map<Id, Invite>, b: Batch, after: map<Id, Invite>, at: int)
    requires after.Keys == before.Keys + NewIds(b.allocations)
    requires forall k | 0 <= k < |b.allocations| ::
               b.allocations[k].id in after && after[b.allocations[k].id] == NewInvite(b, b.allocations[k], at)
    ensures forall id | id in after && id !in before :: after[id].usedAt.None?
  {
    forall id | id in after && id !in before ensures after[id].usedAt.None? {
      var a :| a in b.allocations && a.id == id;
      var k :| 0 <= k < |b.allocations| && b.allocations[k] == a;
    }
  }
}
