/** Which transactions of src/sessions.ts accept a session, why the others refuse it, what an
    accepted one does to the rows, and until when: stated on the rows and the clock readings. */
module SessionAccess {
  import opened Optional
  import opened SessionModel
  import opened SessionTransactions
  import opened SessionTheorems

  // ----- The reason -----

  /** Unrevoked, within both ends, of an active account's current version, and in a live scope. */
  predicate InForce(a: Account, s: Session, scope: Scope, now: int) {
    && s.revokedAt.None? && now < s.idleExpiresAt && now < s.absoluteExpiresAt
    && a.status == Active && s.version == a.version
    && scope.membershipActive && scope.condominiumLive && scope.residentLive
  }

  predicate Holds(d: Denial, a: Account, s: Session, scope: Scope, now: int) {
    match d
    case SessionRevoked => s.revokedAt.Some?
    case AbsoluteExpired => now >= s.absoluteExpiresAt
    case IdleExpired => now >= s.idleExpiresAt
    case AccountInactive => a.status != Active
    case VersionMismatch => s.version != a.version
    case MembershipInactive => !scope.membershipActive
    case CondominiumInactive => !scope.condominiumLive
    case ResidentInactive => !scope.residentLive
  }

  function Rank(d: Denial): nat {
    match d
    case SessionRevoked => 0
    case AbsoluteExpired => 1
    case IdleExpired => 2
    case AccountInactive => 3
    case VersionMismatch => 4
    case MembershipInactive => 5
    case CondominiumInactive => 6
    case ResidentInactive => 7
  }

  /** The reason given is the first that holds, and none is given exactly to a session in force. */
  lemma ReasonExactly(a: Account, s: Session, scope: Scope, now: int)
    ensures DenialReason(a, s, scope, now).None? <==> InForce(a, s, scope, now)
    ensures forall d :: DenialReason(a, s, scope, now) == Some(d) <==>
                        Holds(d, a, s, scope, now)
                        && forall e :: Rank(e) < Rank(d) ==> !Holds(e, a, s, scope, now)
  {
    forall d, e
      ensures DenialReason(a, s, scope, now) == Some(d) && Rank(e) < Rank(d) ==> !Holds(e, a, s, scope, now)
      ensures Holds(d, a, s, scope, now) && DenialReason(a, s, scope, now) == Some(e) ==> Rank(e) <= Rank(d)
      ensures Rank(d) == Rank(e) ==> d == e
    {
    }
    forall d
      ensures DenialReason(a, s, scope, now) == Some(d) ==> Holds(d, a, s, scope, now)
      ensures Holds(d, a, s, scope, now) ==> DenialReason(a, s, scope, now).Some?
    {
    }
  }

  /** The seal is this row's, under a key that is there. */
  predicate Opens(id: Id, s: Session, keys: Keys) {
    s.seal.keyVersion in keys.available && s.seal.session == id && s.seal.account == s.account
  }

  // ----- A use -----

  /** A use is accepted exactly for a session in force, within the rollout and with enough
      assurance; inspect also needs the row's CSRF secret. */
  lemma UseExactly(db: Db, u: Use)
    ensures MayUse(db.accounts, db.sessions, u) <==>
            && u.session in db.sessions && db.sessions[u.session].account in db.accounts
            && var s := db.sessions[u.session];
            && InForce(db.accounts[s.account], s, u.scope, u.clock.loaded) && u.rollout && u.assurance
            && (u.reseal ==> Opens(u.session, s, u.keys))
  {
  }

  /** The use carries the row on: five minutes have passed by both readings, and the UPDATE still
      finds the row alive. */
  predicate Carries(s: Session, u: Use) {
    && u.extend
    && s.lastSeenAt + 300_000 <= u.clock.loaded && s.lastSeenAt + 300_000 <= u.clock.seenCheck
    && u.clock.idleCheck < s.idleExpiresAt && u.clock.absoluteCheck < s.absoluteExpiresAt
  }

  ghost predicate Earlier(x: int, a: int, b: int) {
    x <= a && x <= b && (x == a || x == b)
  }

  /** An accepted use changes its own row alone, and of that only the last use, the idle end and
      an outdated seal; a refused one changes nothing. */
  lemma UseEffect(db: Db, u: Use)
    ensures !MayUse(db.accounts, db.sessions, u) ==> UseSession(db, u) == db
    ensures MayUse(db.accounts, db.sessions, u) ==>
              var s, after := db.sessions[u.session], UseSession(db, u);
              && after == db.(sessions := after.sessions) && after.sessions.Keys == db.sessions.Keys
              && (forall id | id in db.sessions && id != u.session :: after.sessions[id] == db.sessions[id])
              && var t := after.sessions[u.session];
              && t == s.(lastSeenAt := t.lastSeenAt, idleExpiresAt := t.idleExpiresAt, seal := t.seal)
              && (if Carries(s, u)
                  then t.lastSeenAt == u.clock.seen && Earlier(t.idleExpiresAt, u.clock.base + 1_800_000, s.absoluteExpiresAt)
                  else t.lastSeenAt == s.lastSeenAt && t.idleExpiresAt == s.idleExpiresAt)
              && t.seal == (if u.reseal && s.seal.keyVersion < u.keys.current
                            then Seal(s.seal.secret, u.keys.current, u.session, s.account) else s.seal)
  {
  }

  // ----- A new row -----

  /** What an issued row looks like. */
  ghost predicate Fresh(
    s: Session, id: Id, family: Id, account: Id, version: nat, at: int, absolute: int, authenticatedAt: int,
    secret: nat, key: nat)
  {
    && s.family == family && s.account == account && s.version == version
    && s.createdAt == at && s.lastSeenAt == at
    && Earlier(s.idleExpiresAt, at + 1_800_000, absolute) && s.absoluteExpiresAt == absolute
    && Earlier(s.authenticatedAt, authenticatedAt, at) && s.revokedAt.None?
    && s.seal == Seal(secret, key, id, account)
  }

  /** Newest of the row's key version and the current one. */
  ghost predicate Newest(key: nat, current: nat, stored: nat) {
    key >= current && key >= stored && (key == current || key == stored)
  }

  /** Exactly the unrevoked rows of `gone` are revoked, at `at`, and no other row is touched. */
  ghost predicate OnlyRevokes(sessions: map<Id, Session>, after: map<Id, Session>, gone: set<Id>, at: int) {
    forall id | id in sessions ::
      && id in after
      && after[id] == if id in gone && sessions[id].revokedAt.None? then sessions[id].(revokedAt := Some(at)) else sessions[id]
  }

  ghost predicate Adds(sessions: map<Id, Session>, after: map<Id, Session>, id: Id) {
    after.Keys == sessions.Keys + {id}
  }

  // ----- A rotation -----

  predicate MayRotate(db: Db, r: Rotation) {
    && r.session in db.sessions && db.sessions[r.session].account in db.accounts && r.targetWellFormed
    && var s := db.sessions[r.session];
    && InForce(db.accounts[s.account], s, r.scope, r.loadedAt)
    && r.membership && r.rollout && r.scopeLive && r.assurance && r.underLimit && Opens(r.session, s, r.keys)
  }

  /** A rotation goes through exactly for a session in force and a live, admitted target
      membership; a revoked session is stale, one that lacks only assurance, or assurance and what is
      checked after it, has to authenticate again, and every other is denied. */
  lemma RotationExactly(db: Db, r: Rotation)
    ensures var refusal := RotationRefusal(db.accounts, db.sessions, r);
            var found := r.session in db.sessions && db.sessions[r.session].account in db.accounts && r.targetWellFormed;
            && (refusal.None? <==> MayRotate(db, r))
            && (refusal == Some(Stale) <==> found && db.sessions[r.session].revokedAt.Some?)
            && (refusal == Some(ReauthenticationRequired) <==>
                found && !r.assurance && r.membership && r.rollout && r.scopeLive
                && InForce(db.accounts[db.sessions[r.session].account], db.sessions[r.session], r.scope, r.loadedAt))
            && (refusal.Some? ==> refusal.value != Unavailable)
  {
  }

  /** The row is replaced by one that continues its family to the same ends, unless its absolute
      end passes before that; then, as after a refusal, nothing has changed. */
  lemma RotationEffect(db: Db, r: Rotation)
    requires Kept(db) && r.next !in db.sessions
    ensures var x := RotateSession(db, r);
            if !MayRotate(db, r) then x == Exchanged(db, Refused)
            else if db.sessions[r.session].absoluteExpiresAt <= r.insertedAt then x == Exchanged(db, Aborted)
            else
              var s := db.sessions[r.session];
              && x.outcome == Issued(r.next)
              && x.db == db.(sessions := x.db.sessions, origins := x.db.origins)
              && Adds(db.sessions, x.db.sessions, r.next)
              && OnlyRevokes(db.sessions, x.db.sessions, {r.session}, r.revokedAt)
              && x.db.origins == db.origins[r.next := db.origins[r.session]]
              && var key := x.db.sessions[r.next].seal.keyVersion;
              && Newest(key, r.keys.current, s.seal.keyVersion)
              && Fresh(x.db.sessions[r.next], r.next, s.family, s.account, s.version, r.insertedAt, s.absoluteExpiresAt,
                       s.authenticatedAt, s.seal.secret, key)
  {
    RotationExactly(db, r);
    if r.session in db.sessions { assert RootedSession(db, r.session); }
  }

  // ----- Exchanging a login -----

  /** The login is there, unused and unexpired, of an active account and begun after its last bump. */
  predicate Honoured(db: Db, l: Login) {
    && !l.malformed && l.handoff in db.handoffs
    && var h := db.handoffs[l.handoff];
    && !h.consumed && l.consumedAt < h.expiresAt
    && h.account in db.accounts && db.accounts[h.account].status == Active
    && (db.accounts[h.account].version == 0
        || (db.accounts[h.account].updatedAt < h.createdAt && db.accounts[h.account].updatedAt < h.authenticatedAt))
  }

  /** A reauthentication names a session in force of its own account and family. */
  predicate MayContinue(db: Db, l: Login)
    requires Honoured(db, l)
  {
    var h := db.handoffs[l.handoff];
    && l.previous.Some? && l.previous.value in db.sessions
    && var s := db.sessions[l.previous.value];
    && s.account == h.account && h.family == Some(s.family)
    && InForce(db.accounts[h.account], s, l.scope, l.loadedAt) && Opens(l.previous.value, s, l.keys)
    && l.membership && l.scopeLive && l.rollout && l.assurance && l.underLimit
  }

  /** When a login becomes a session. */
  lemma ExchangeExactly(db: Db, l: Login)
    requires l.session !in db.sessions
    ensures var outcome := ExchangeLogin(db, l).outcome;
            && (outcome == Refused || outcome == Aborted || outcome == Issued(l.session))
            && (outcome.Issued? <==>
                && Honoured(db, l)
                && if db.handoffs[l.handoff].reauthentication
                   then MayContinue(db, l) && l.insertedAt < db.sessions[l.previous.value].absoluteExpiresAt
                   else l.membership && l.scopeLive && l.rollout && l.assurance && l.underLimit)
            && (outcome.Aborted? <==>
                Honoured(db, l) && db.handoffs[l.handoff].reauthentication && MayContinue(db, l)
                && db.sessions[l.previous.value].absoluteExpiresAt <= l.insertedAt)
  {
    if Redeemable(db.handoffs, l) { assert ConsumeHandoff(db, l.handoff).sessions == db.sessions; }
  }

  /** A login found unused and in time is used up by every outcome but an abort, which leaves
      everything as it was; no other login is. */
  lemma LoginUsedUp(db: Db, l: Login)
    ensures var x := ExchangeLogin(db, l);
            && (x.outcome.Aborted? ==> x.db == db)
            && (!x.outcome.Aborted? ==>
                  if !l.malformed && l.handoff in db.handoffs && !db.handoffs[l.handoff].consumed
                     && l.consumedAt < db.handoffs[l.handoff].expiresAt
                  then x.db.handoffs == db.handoffs[l.handoff := db.handoffs[l.handoff].(consumed := true)]
                  else x.db == db)
  {
  }

  /** A reauthentication replaces the one session it names by one that continues its family. */
  lemma ContinueEffect(db: Db, l: Login)
    requires l.session !in db.sessions && Honoured(db, l) && db.handoffs[l.handoff].reauthentication
    ensures var x, h := ExchangeLogin(db, l), db.handoffs[l.handoff];
            && x.db.accounts == db.accounts && x.db.bumps == db.bumps
            && (x.outcome.Refused? ==> x.db.sessions == db.sessions && x.db.origins == db.origins)
            && (x.outcome.Issued? ==>
                  && MayContinue(db, l)
                  && var s := db.sessions[l.previous.value];
                  && Adds(db.sessions, x.db.sessions, l.session)
                  && OnlyRevokes(db.sessions, x.db.sessions, {l.previous.value}, l.revokedAt)
                  && x.db.origins == db.origins[l.session := l.handoff]
                  && var key := x.db.sessions[l.session].seal.keyVersion;
                  && Newest(key, l.keys.current, s.seal.keyVersion)
                  && Fresh(x.db.sessions[l.session], l.session, s.family, s.account, s.version, l.insertedAt,
                           s.absoluteExpiresAt, h.authenticatedAt, s.seal.secret, key))
  {
    ExchangeExactly(db, l);
    var consumed := ConsumeHandoff(db, l.handoff);
    assert ExchangeLogin(db, l) == Reauthenticate(db, consumed, l);
  }

  /** The sessions an ordinary login replaces: those of the presented session's family and account. */
  ghost predicate Replaces(db: Db, l: Login, gone: set<Id>) {
    forall id | id in db.sessions ::
      id in gone <==> && l.previous.Some? && l.previous.value in db.sessions
                      && db.sessions[id].family == db.sessions[l.previous.value].family
                      && db.sessions[id].account == db.sessions[l.previous.value].account
  }

  /** An ordinary login opens a family of its own, of 30 idle minutes and 12 hours, and closes the
      family of the session it was presented with; refused, it leaves the sessions alone. */
  lemma OpenEffect(db: Db, l: Login, gone: set<Id>)
    requires l.session !in db.sessions && Honoured(db, l) && Replaces(db, l, gone)
    requires !db.handoffs[l.handoff].reauthentication && !db.handoffs[l.handoff].recovery
    ensures var x, h := ExchangeLogin(db, l), db.handoffs[l.handoff];
            && x.db.accounts == db.accounts && x.db.bumps == db.bumps
            && (x.outcome.Refused? ==> x.db.sessions == db.sessions && x.db.origins == db.origins)
            && (x.outcome.Issued? ==>
                  && Adds(db.sessions, x.db.sessions, l.session)
                  && OnlyRevokes(db.sessions, x.db.sessions, gone, l.revokedAt)
                  && x.db.origins == db.origins[l.session := l.handoff]
                  && Fresh(x.db.sessions[l.session], l.session, l.family, h.account, db.accounts[h.account].version,
                           l.insertedAt, l.insertedAt + 43_200_000, h.authenticatedAt, l.secret, l.keys.current))
  {
    ExchangeExactly(db, l);
    var consumed := ConsumeHandoff(db, l.handoff);
    assert ExchangeLogin(db, l) == OpenFamily(consumed, l);
    assert Recover(consumed, l) == consumed;
  }

  /** The account's version is one higher, and exactly its unrevoked sessions are revoked. */
  ghost predicate Bumps(db: Db, after: Db, account: Id, status: Status, at: int, revokedAt: int, login: Option<Id>)
    requires account in db.accounts
  {
    && after.accounts == db.accounts[account := Account(db.accounts[account].version + 1, status, at)]
    && after.bumps == db.bumps + [Bump(account, at, login)]
    && OnlyRevokes(db.sessions, after.sessions, (set id | id in db.sessions && db.sessions[id].account == account), revokedAt)
  }

  /** A recovery login raises the version and revokes the account's sessions once its membership is
      in order, and opens a family only under the creation limit. */
  lemma RecoveryEffect(db: Db, l: Login)
    requires l.session !in db.sessions && Honoured(db, l)
    requires !db.handoffs[l.handoff].reauthentication && db.handoffs[l.handoff].recovery
    ensures var x, h := ExchangeLogin(db, l), db.handoffs[l.handoff];
            if !(l.membership && l.scopeLive && l.rollout && l.assurance) then
              x.db.accounts == db.accounts && x.db.bumps == db.bumps && x.db.sessions == db.sessions && x.db.origins == db.origins
            else
              && Bumps(db, x.db, h.account, Active, l.bumpedAt, l.revokedAt, Some(l.handoff))
              && if !l.underLimit then x.db.sessions.Keys == db.sessions.Keys && x.db.origins == db.origins
                 else
                   && Adds(db.sessions, x.db.sessions, l.session) && x.db.origins == db.origins[l.session := l.handoff]
                   && Fresh(x.db.sessions[l.session], l.session, l.family, h.account, db.accounts[h.account].version + 1,
                            l.insertedAt, l.insertedAt + 43_200_000, h.authenticatedAt, l.secret, l.keys.current)
  {
    var consumed := ConsumeHandoff(db, l.handoff);
    assert ExchangeLogin(db, l) == OpenFamily(consumed, l);
    if l.underLimit { assert ReplacePrevious(Recover(consumed, l), l) == Recover(consumed, l); }
  }

  // ----- Logging out -----

  /** A logout leaves no session of the family unrevoked, whatever its state was, and touches no
      other; without the row it does nothing. */
  lemma LogoutEffect(db: Db, session: Id, at: int)
    ensures var after := RevokeFamily(db, session, at);
            if session !in db.sessions then after == db
            else
              && after == db.(sessions := after.sessions) && after.sessions.Keys == db.sessions.Keys
              && (forall id | id in db.sessions && db.sessions[id].family == db.sessions[session].family ::
                    after.sessions[id].revokedAt.Some?)
              && OnlyRevokes(db.sessions, after.sessions,
                             (set id | id in db.sessions && db.sessions[id].family == db.sessions[session].family), at)
  {
  }

  /** Whether the session may log out everywhere: it is already revoked, or in force. */
  predicate Speaks(db: Db, e: Everywhere) {
    && e.session in db.sessions && db.sessions[e.session].account in db.accounts
    && var s := db.sessions[e.session];
    && (s.revokedAt.Some? || InForce(db.accounts[s.account], s, e.scope, e.loadedAt))
  }

  /** Logging out everywhere takes a session in force, or an already revoked one, that logged in
      within the last ten minutes. */
  lemma EverywhereExactly(db: Db, e: Everywhere)
    ensures var refusal := RevokeAllRefusal(db.accounts, db.sessions, e);
            && (refusal.None? <==> Speaks(db, e) && e.loadedAt <= db.sessions[e.session].authenticatedAt + 600_000)
            && (refusal == Some(ReauthenticationRequired) <==>
                Speaks(db, e) && db.sessions[e.session].authenticatedAt + 600_000 < e.loadedAt)
            && (refusal == Some(Unavailable) <==> !Speaks(db, e))
  {
  }

  /** The version rises and every session of the account is revoked, or nothing changes. */
  lemma EverywhereEffect(db: Db, e: Everywhere)
    ensures var after := RevokeEverywhere(db, e);
            if Speaks(db, e) && e.loadedAt <= db.sessions[e.session].authenticatedAt + 600_000 then
              var account := db.sessions[e.session].account;
              && Bumps(db, after, account, db.accounts[account].status, e.bumpedAt, e.revokedAt, None)
              && after.handoffs == db.handoffs && after.origins == db.origins && after.sessions.Keys == db.sessions.Keys
            else after == db
  {
    EverywhereExactly(db, e);
  }

  /** A status change does the same with the new status, for every account that is not disabled; a
      recovery event of the provider does it with the status the account has. */
  lemma AdministrationEffect(db: Db, account: Id, status: Status, at: int, revokedAt: int)
    ensures var after := SetStatus(db, account, status, at, revokedAt);
            if account in db.accounts && db.accounts[account].status != Disabled then
              Bumps(db, after, account, status, at, revokedAt, None)
              && after.handoffs == db.handoffs && after.origins == db.origins && after.sessions.Keys == db.sessions.Keys
            else after == db
    ensures var after := ProviderRecovery(db, account, at, revokedAt);
            if account in db.accounts then
              Bumps(db, after, account, db.accounts[account].status, at, revokedAt, None)
              && after.handoffs == db.handoffs && after.origins == db.origins && after.sessions.Keys == db.sessions.Keys
            else after == db
  {
  }

  // ----- Over runs -----

  /** The session is revoked, or past its idle or absolute end at `t`. */
  predicate Over(db: Db, id: Id, t: int) {
    && id in db.sessions
    && (db.sessions[id].revokedAt.Some? || db.sessions[id].idleExpiresAt <= t || db.sessions[id].absoluteExpiresAt <= t)
  }

  /** If the step is one with the session, it reads the row at `t` or later. */
  predicate ReadFrom(step: Step, id: Id, t: int) {
    match step
    case UseOf(u) => u.session == id ==> t <= u.clock.loaded
    case Rotate(r) => r.session == id ==> t <= r.loadedAt
    case LogoutEverywhere(e) => e.session == id ==> t <= e.loadedAt
    case Exchange(l) => l.previous == Some(id) ==> t <= l.loadedAt
    case _ => true
  }

  /** The step answers for the session: it is used, rotated, reauthenticated, or logs out everywhere. */
  predicate Accepts(db: Db, step: Step, id: Id) {
    match step
    case UseOf(u) => u.session == id && MayUse(db.accounts, db.sessions, u)
    case Rotate(r) => r.session == id && RotateSession(db, r).outcome.Issued?
    case Exchange(l) =>
      l.previous == Some(id) && l.handoff in db.handoffs && db.handoffs[l.handoff].reauthentication
      && ExchangeLogin(db, l).outcome.Issued?
    case LogoutEverywhere(e) => e.session == id && RevokeAllRefusal(db.accounts, db.sessions, e).None?
    case _ => false
  }

  lemma OverDenied(db: Db, step: Step, id: Id, t: int)
    requires Kept(db) && Feasible(db, step) && Over(db, id, t) && ReadFrom(step, id, t)
    ensures Accepts(db, step, id) ==> step.LogoutEverywhere? && db.sessions[id].revokedAt.Some?
  {
    match step
    case UseOf(u) => UseExactly(db, u);
    case Rotate(r) => RotationEffect(db, r);
    case Exchange(l) => ExchangeExactly(db, l);
    case LogoutEverywhere(e) => EverywhereExactly(db, e);
    case _ =>
  }

  ghost predicate IdleEndsStay(sessions: map<Id, Session>, after: map<Id, Session>) {
    forall id | id in sessions :: id in after && after[id].idleExpiresAt == sessions[id].idleExpiresAt
  }

  lemma LoginIdleEnds(db: Db, l: Login)
    requires l.session !in db.sessions
    ensures IdleEndsStay(db.sessions, ExchangeLogin(db, l).db.sessions)
  {
    ExchangeExactly(db, l);
    LoginUsedUp(db, l);
    if Honoured(db, l) {
      if db.handoffs[l.handoff].reauthentication {
        ContinueEffect(db, l);
      } else if db.handoffs[l.handoff].recovery {
        RecoveryEffect(db, l);
      } else {
        OpenEffect(db, l, Replaced(db, l));
      }
    } else {
      assert ExchangeLogin(db, l).db.sessions == db.sessions;
    }
  }

  ghost function Replaced(db: Db, l: Login): (gone: set<Id>)
    ensures Replaces(db, l, gone)
  {
    set id | id in db.sessions && l.previous.Some? && l.previous.value in db.sessions
             && db.sessions[id].family == db.sessions[l.previous.value].family
             && db.sessions[id].account == db.sessions[l.previous.value].account
  }

  /** Nothing but an accepted use moves a session's idle end. */
  lemma IdleEndStays(db: Db, step: Step, id: Id)
    requires Kept(db) && Feasible(db, step) && id in db.sessions
    requires step.UseOf? && step.use.session == id ==> !Accepts(db, step, id)
    ensures id in Apply(db, step).sessions
    ensures Apply(db, step).sessions[id].idleExpiresAt == db.sessions[id].idleExpiresAt
  {
    match step
    case Exchange(l) => LoginIdleEnds(db, l);
    case Rotate(r) => RotationEffect(db, r);
    case Logout(session, at) => LogoutEffect(db, session, at);
    case LogoutEverywhere(e) => EverywhereEffect(db, e);
    case SetAccountStatus(account, status, at, revokedAt) => AdministrationEffect(db, account, status, at, revokedAt);
    case RecoveryEvent(account, at, revokedAt) => AdministrationEffect(db, account, Active, at, revokedAt);
    case UseOf(u) => UseEffect(db, u);
    case _ =>
  }

  lemma OverStays(db: Db, step: Step, id: Id, t: int)
    requires Kept(db) && Feasible(db, step) && Over(db, id, t) && ReadFrom(step, id, t)
    ensures Over(Apply(db, step), id, t)
  {
    OverDenied(db, step, id, t);
    IdleEndStays(db, step, id);
    ApplyExtends(db, step);
  }

  lemma {:induction false} OverForever(db: Db, steps: seq<Step>, id: Id, t: int)
    requires Kept(db) && FeasibleRun(db, steps) && Over(db, id, t) && forall s | s in steps :: ReadFrom(s, id, t)
    ensures Over(Run(db, steps), id, t) && Kept(Run(db, steps))
    decreases |steps|
  {
    if steps != [] {
      OverStays(db, steps[0], id, t);
      ApplyKeeps(db, steps[0]);
      OverForever(Apply(db, steps[0]), steps[1..], id, t);
    }
  }

  /** Once a session is revoked or past its idle or absolute end, no later step of any run accepts
      it, except that an already revoked one may still log its account out everywhere. */
  lemma DeniedForGood(db: Db, steps: seq<Step>, step: Step, id: Id, t: int)
    requires Kept(db) && FeasibleRun(db, steps) && Over(db, id, t) && forall s | s in steps :: ReadFrom(s, id, t)
    requires Feasible(Run(db, steps), step) && ReadFrom(step, id, t)
    ensures Accepts(Run(db, steps), step, id) ==> step.LogoutEverywhere? && Run(db, steps).sessions[id].revokedAt.Some?
  {
    OverForever(db, steps, id, t);
    OverDenied(Run(db, steps), step, id, t);
  }

  /** The family has sessions, and all are revoked. */
  ghost predicate Closed(db: Db, family: Id) {
    && (exists id :: id in db.sessions && db.sessions[id].family == family)
    && forall id | id in db.sessions && db.sessions[id].family == family :: db.sessions[id].revokedAt.Some?
  }

  lemma ClosedStays(db: Db, step: Step, family: Id)
    requires Kept(db) && Feasible(db, step) && Closed(db, family)
    ensures Closed(Apply(db, step), family)
  {
    ApplyExtends(db, step);
    NoneReopens(db, step, family);
    RowsFollow(db, Apply(db, step), family);
  }

  lemma RowsFollow(db: Db, after: Db, family: Id)
    requires Closed(db, family) && Extends(db, after)
    requires forall id | id in after.sessions && id !in db.sessions :: after.sessions[id].family != family
    ensures Closed(after, family)
  {
    forall id | id in db.sessions
      ensures id in after.sessions && after.sessions[id].family == db.sessions[id].family
      ensures db.sessions[id].revokedAt.Some? ==> after.sessions[id] == db.sessions[id]
    {
      assert Follows(db.sessions[id], after.sessions[id]);
    }
  }

  lemma NoneReopens(db: Db, step: Step, family: Id)
    requires Kept(db) && Feasible(db, step) && Closed(db, family)
    ensures forall id | id in Apply(db, step).sessions && id !in db.sessions :: Apply(db, step).sessions[id].family != family
  {
    match step
    case Exchange(l) => ClosedAfterLogin(db, l, family);
    case Rotate(r) => RotationEffect(db, r);
    case _ =>
  }

  lemma ClosedAfterLogin(db: Db, l: Login, family: Id)
    requires Kept(db) && Feasible(db, Exchange(l)) && Closed(db, family)
    ensures var after := ExchangeLogin(db, l).db;
            forall id | id in after.sessions && id !in db.sessions :: after.sessions[id].family != family
  {
    ExchangeExactly(db, l);
    LoginUsedUp(db, l);
    if Honoured(db, l) {
      if db.handoffs[l.handoff].reauthentication {
        ContinueEffect(db, l);
      } else if db.handoffs[l.handoff].recovery {
        RecoveryEffect(db, l);
      } else {
        OpenEffect(db, l, Replaced(db, l));
      }
    }
  }

  /** After a logout the family never has an unrevoked session again, whatever is done with its
      tokens: neither a rotation nor a reauthentication nor a use brings it back. */
  lemma {:induction false} LoggedOutForGood(db: Db, steps: seq<Step>, family: Id)
    requires Kept(db) && FeasibleRun(db, steps) && Closed(db, family)
    ensures Closed(Run(db, steps), family)
    decreases |steps|
  {
    if steps != [] {
      ClosedStays(db, steps[0], family);
      ApplyKeeps(db, steps[0]);
      LoggedOutForGood(Apply(db, steps[0]), steps[1..], family);
    }
  }

  lemma LogoutCloses(db: Db, session: Id, at: int, steps: seq<Step>)
    requires Kept(db) && session in db.sessions && FeasibleRun(RevokeFamily(db, session, at), steps)
    ensures Closed(Run(RevokeFamily(db, session, at), steps), db.sessions[session].family)
  {
    LogoutEffect(db, session, at);
    ApplyKeeps(db, Logout(session, at));
    LoggedOutForGood(RevokeFamily(db, session, at), steps, db.sessions[session].family);
  }
}
