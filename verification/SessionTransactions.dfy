/** The transactions of src/sessions.ts, and those of the recovery worker and the account
    administration that touch the same rows, as functions of the database; and what holds
    after every run of them. */
module SessionTransactions {
  import opened Optional
  import opened SessionModel

  // ----- Refusals -----

  /** What the session's active membership says: rows of other tables. */
  datatype Scope = Scope(membershipActive: bool, condominiumLive: bool, residentLive: bool)

  datatype Denial =
    | SessionRevoked | AbsoluteExpired | IdleExpired | AccountInactive | VersionMismatch
    | MembershipInactive | CondominiumInactive | ResidentInactive

  function DenialReason(a: Account, s: Session, scope: Scope, now: int): Option<Denial> {
    if s.revokedAt.Some? then Some(SessionRevoked)
    else if s.absoluteExpiresAt <= now then Some(AbsoluteExpired)
    else if s.idleExpiresAt <= now then Some(IdleExpired)
    else if a.status != Active then Some(AccountInactive)
    else if s.version != a.version then Some(VersionMismatch)
    else if !scope.membershipActive then Some(MembershipInactive)
    else if !scope.condominiumLive then Some(CondominiumInactive)
    else if !scope.residentLive then Some(ResidentInactive)
    else None
  }

  /** Authenticated decryption: the key must be there, and the seal must be this row's. */
  predicate Decrypts(id: Id, s: Session, keys: Keys) {
    s.seal.keyVersion in keys.available && s.seal.session == id && s.seal.account == s.account
  }

  /** A row the table's checks accept when it is inserted now. */
  function NewSession(
    family: Id, account: Id, version: nat, now: int, absolute: int, authenticatedAt: int, seal: Seal): Session {
    Session(family, account, version, now, now, Min(now + IDLE_TTL_MS, absolute), absolute,
            Min(authenticatedAt, now), None, seal)
  }

  // ----- Exchanging a login for a session -----

  /** What the transaction is given, finds in other tables, draws at random and reads from the
      clock, in order. */
  datatype Login = Login(
    handoff: Id, previous: Option<Id>, malformed: bool,
    membership: bool, scopeLive: bool, rollout: bool, assurance: bool, underLimit: bool, scope: Scope,
    keys: Keys, session: Id, family: Id, secret: nat,
    consumedAt: int, loadedAt: int, bumpedAt: int, revokedAt: int, insertedAt: int)

  datatype Outcome = Issued(session: Id) | Refused | Aborted
  datatype Exchanged = Exchanged(db: Db, outcome: Outcome)

  predicate Redeemable(handoffs: map<Id, Handoff>, l: Login) {
    !l.malformed && l.handoff in handoffs
    && !handoffs[l.handoff].consumed && l.consumedAt < handoffs[l.handoff].expiresAt
  }

  predicate StaleLogin(a: Account, h: Handoff) {
    a.version > 0 && (h.createdAt <= a.updatedAt || h.authenticatedAt <= a.updatedAt)
  }

  /** issueFromHandoff: the handoff is consumed even when no session comes of it. */
  function ExchangeLogin(db: Db, l: Login): Exchanged {
    if !Redeemable(db.handoffs, l) then Exchanged(db, Refused)
    else
      var h := db.handoffs[l.handoff];
      var consumed := ConsumeHandoff(db, l.handoff);
      if h.account !in db.accounts || db.accounts[h.account].status != Active || StaleLogin(db.accounts[h.account], h)
      then Exchanged(consumed, Refused)
      else if h.reauthentication then Reauthenticate(db, consumed, l)
      else OpenFamily(consumed, l)
  }

  predicate MayReauthenticate(a: Account, sessions: map<Id, Session>, h: Handoff, l: Login) {
    && l.previous.Some? && l.previous.value in sessions
    && var s := sessions[l.previous.value];
    && s.account == h.account && h.family == Some(s.family)
    && l.membership && l.scopeLive && l.rollout && l.assurance && l.underLimit
    && DenialReason(a, s, l.scope, l.loadedAt).None?
    && Decrypts(l.previous.value, s, l.keys)
  }

  /** A fresh login of the same account continues the session's family. */
  function Reauthenticate(before: Db, db: Db, l: Login): Exchanged
    requires l.handoff in db.handoffs && db.handoffs[l.handoff].account in db.accounts
  {
    var h := db.handoffs[l.handoff];
    if !MayReauthenticate(db.accounts[h.account], db.sessions, h, l) then Exchanged(db, Refused)
    else
      var s := db.sessions[l.previous.value];
      if s.absoluteExpiresAt <= l.insertedAt then Exchanged(before, Aborted)
      else
        var seal := Seal(s.seal.secret, Max(l.keys.current, s.seal.keyVersion), l.session, s.account);
        var next := NewSession(s.family, s.account, s.version, l.insertedAt, s.absoluteExpiresAt,
                               h.authenticatedAt, seal);
        Exchanged(AddSession(RevokeRows(db, {l.previous.value}, l.revokedAt), l.session, next, l.handoff),
                  Issued(l.session))
  }

  function Recover(db: Db, l: Login): Db
    requires l.handoff in db.handoffs && db.handoffs[l.handoff].account in db.accounts
  {
    var h := db.handoffs[l.handoff];
    if h.recovery then
      BumpAccount(db, h.account, db.accounts[h.account].status, l.bumpedAt, l.revokedAt, Some(l.handoff))
    else db
  }

  function ReplacePrevious(db: Db, l: Login): Db {
    if l.handoff in db.handoffs && !db.handoffs[l.handoff].recovery
       && l.previous.Some? && l.previous.value in db.sessions
    then
      var s := db.sessions[l.previous.value];
      RevokeRows(db, FamilySessions(db.sessions, s.family) * AccountSessions(db.sessions, s.account), l.revokedAt)
    else db
  }

  /** A login opens a new family. A recovery login first raises the version and revokes every
      session of the account, and that stands even when the session itself is refused. */
  function OpenFamily(db: Db, l: Login): Exchanged
    requires l.handoff in db.handoffs && db.handoffs[l.handoff].account in db.accounts
  {
    var h := db.handoffs[l.handoff];
    if !(l.membership && l.scopeLive && l.rollout && l.assurance) then Exchanged(db, Refused)
    else
      var recovered := Recover(db, l);
      if !l.underLimit then Exchanged(recovered, Refused)
      else
        var replaced := ReplacePrevious(recovered, l);
        var next := NewSession(l.family, h.account, recovered.accounts[h.account].version, l.insertedAt,
                               l.insertedAt + ABSOLUTE_TTL_MS, h.authenticatedAt,
                               Seal(l.secret, l.keys.current, l.session, h.account));
        Exchanged(AddSession(replaced, l.session, next, l.handoff), Issued(l.session))
  }

  // ----- Rotation -----

  datatype Rotation = Rotation(
    session: Id, targetWellFormed: bool, membership: bool, scopeLive: bool, rollout: bool, assurance: bool,
    underLimit: bool, scope: Scope, keys: Keys, next: Id, loadedAt: int, revokedAt: int, insertedAt: int)

  datatype Refusal = Stale | Denied | ReauthenticationRequired | Unavailable

  /** Why a rotation is refused, in the order the checks are made. */
  function RotationRefusal(accounts: map<Id, Account>, sessions: map<Id, Session>, r: Rotation): Option<Refusal> {
    if r.session !in sessions || sessions[r.session].account !in accounts then Some(Denied)
    else
      var s := sessions[r.session];
      if !r.targetWellFormed then Some(Denied)
      else if s.revokedAt.Some? then Some(Stale)
      else if DenialReason(accounts[s.account], s, r.scope, r.loadedAt).Some? then Some(Denied)
      else if !r.membership || !r.rollout || !r.scopeLive then Some(Denied)
      else if !r.assurance then Some(ReauthenticationRequired)
      else if !r.underLimit || !Decrypts(r.session, s, r.keys) then Some(Denied)
      else None
  }

  function RotateSession(db: Db, r: Rotation): Exchanged {
    if RotationRefusal(db.accounts, db.sessions, r).Some? || r.session !in db.origins then Exchanged(db, Refused)
    else
      var s := db.sessions[r.session];
      if s.absoluteExpiresAt <= r.insertedAt then Exchanged(db, Aborted)
      else
        var seal := Seal(s.seal.secret, Max(r.keys.current, s.seal.keyVersion), r.next, s.account);
        var next := NewSession(s.family, s.account, s.version, r.insertedAt, s.absoluteExpiresAt,
                               s.authenticatedAt, seal);
        Exchanged(AddSession(RevokeRows(db, {r.session}, r.revokedAt), r.next, next, db.origins[r.session]),
                  Issued(r.next))
  }

  // ----- Revocation -----

  /** Logout revokes the whole family. */
  function RevokeFamily(db: Db, session: Id, at: int): Db {
    if session !in db.sessions then db
    else RevokeRows(db, FamilySessions(db.sessions, db.sessions[session].family), at)
  }

  datatype Everywhere = Everywhere(session: Id, scope: Scope, loadedAt: int, bumpedAt: int, revokedAt: int)

  /** The holder must have logged in within ten minutes; an already revoked session still serves. */
  function RevokeAllRefusal(accounts: map<Id, Account>, sessions: map<Id, Session>, e: Everywhere): Option<Refusal> {
    if e.session !in sessions || sessions[e.session].account !in accounts then Some(Unavailable)
    else
      var s := sessions[e.session];
      var reason := DenialReason(accounts[s.account], s, e.scope, e.loadedAt);
      if reason.Some? && reason.value != SessionRevoked then Some(Unavailable)
      else if s.authenticatedAt < e.loadedAt - RECENT_AUTHENTICATION_MS then Some(ReauthenticationRequired)
      else None
  }

  function RevokeEverywhere(db: Db, e: Everywhere): Db {
    if RevokeAllRefusal(db.accounts, db.sessions, e).Some? then db
    else
      var a := db.sessions[e.session].account;
      BumpAccount(db, a, db.accounts[a].status, e.bumpedAt, e.revokedAt, None)
  }

  /** setAccountStatus: a disabled account stays as it is. */
  function SetStatus(db: Db, account: Id, status: Status, at: int, revokedAt: int): Db {
    if account !in db.accounts || db.accounts[account].status == Disabled then db
    else BumpAccount(db, account, status, at, revokedAt, None)
  }

  /** The recovery worker's adapter, for an account the event was matched to. */
  function ProviderRecovery(db: Db, account: Id, at: int, revokedAt: int): Db {
    if account !in db.accounts then db
    else BumpAccount(db, account, db.accounts[account].status, at, revokedAt, None)
  }

  // ----- Use -----

  /** Every clock reading of one use: when the row was read, when the UPDATE's conditions were
      evaluated, and when its two columns were. */
  datatype TouchClock = TouchClock(
    loaded: int, seenCheck: int, idleCheck: int, absoluteCheck: int, seen: int, base: int)

  predicate Ordered(c: TouchClock) {
    && c.loaded <= c.seenCheck && c.loaded <= c.idleCheck && c.loaded <= c.absoluteCheck
    && c.seenCheck <= c.seen && c.idleCheck <= c.seen && c.absoluteCheck <= c.seen <= c.base
  }

  function Touched(s: Session, c: TouchClock): Session {
    if s.lastSeenAt > c.loaded - TOUCH_INTERVAL_MS then s
    else if Live(s) && s.lastSeenAt <= c.seenCheck - TOUCH_INTERVAL_MS
            && s.idleExpiresAt > c.idleCheck && s.absoluteExpiresAt > c.absoluteCheck
    then s.(lastSeenAt := c.seen, idleExpiresAt := Min(c.base + IDLE_TTL_MS, s.absoluteExpiresAt))
    else s
  }

  /** The row's idle end was set by a clock reading not after `t`. */
  predicate SetBy(s: Session, t: int) {
    s.idleExpiresAt <= t + IDLE_TTL_MS
  }

  /** inspect re-encrypts an old seal under the current key. */
  function Resealed(id: Id, s: Session, keys: Keys): Session {
    if s.seal.keyVersion < keys.current then s.(seal := Seal(s.seal.secret, keys.current, id, s.account)) else s
  }

  datatype Use = Use(
    session: Id, scope: Scope, rollout: bool, assurance: bool, extend: bool, reseal: bool, keys: Keys,
    clock: TouchClock)

  predicate MayUse(accounts: map<Id, Account>, sessions: map<Id, Session>, u: Use) {
    && u.session in sessions && sessions[u.session].account in accounts && u.rollout && u.assurance
    && DenialReason(accounts[sessions[u.session].account], sessions[u.session], u.scope, u.clock.loaded).None?
    && (u.reseal ==> Decrypts(u.session, sessions[u.session], u.keys))
  }

  /** authenticate, and with `reseal` inspect. */
  function UseSession(db: Db, u: Use): Db {
    if !MayUse(db.accounts, db.sessions, u) then db
    else
      var s := db.sessions[u.session];
      var sealed := if u.reseal then Resealed(u.session, s, u.keys) else s;
      PutSession(db, u.session, if u.extend then Touched(sealed, u.clock) else sealed)
  }

  // ----- Runs -----

  datatype Step =
    | Exchange(login: Login)
    | Rotate(rotation: Rotation)
    | Logout(session: Id, at: int)
    | LogoutEverywhere(everywhere: Everywhere)
    | SetAccountStatus(account: Id, status: Status, at: int, revokedAt: int)
    | RecoveryEvent(account: Id, at: int, revokedAt: int)
    | UseOf(use: Use)
    | RevokeSome(ids: set<Id>, at: int)
    | CreateAccount(account: Id, status: Status, at: int)
    | ActivateAccount(account: Id, at: int)
    | RecordHandoff(handoff: Id, row: Handoff)

  function Apply(db: Db, step: Step): Db {
    match step
    case Exchange(l) => ExchangeLogin(db, l).db
    case Rotate(r) => RotateSession(db, r).db
    case Logout(session, at) => RevokeFamily(db, session, at)
    case LogoutEverywhere(e) => RevokeEverywhere(db, e)
    case SetAccountStatus(account, status, at, revokedAt) => SetStatus(db, account, status, at, revokedAt)
    case RecoveryEvent(account, at, revokedAt) => ProviderRecovery(db, account, at, revokedAt)
    case UseOf(u) => UseSession(db, u)
    case RevokeSome(ids, at) => RevokeRows(db, ids, at)
    case CreateAccount(account, status, at) =>
      if account in db.accounts then db else PutAccount(db, account, Account(0, status, at))
    case ActivateAccount(account, at) =>
      if account !in db.accounts then db
      else PutAccount(db, account, db.accounts[account].(status := Active, updatedAt := at))
    case RecordHandoff(handoff, row) =>
      if handoff in db.handoffs then db else AddHandoff(db, handoff, row)
  }

  /** No account was updated after `now`. */
  ghost predicate NotAfter(accounts: map<Id, Account>, now: int) {
    forall a | a in accounts :: accounts[a].updatedAt <= now
  }

  /** Identifiers are fresh and the clock does not run backwards. */
  ghost predicate Feasible(db: Db, step: Step) {
    match step
    case Exchange(l) =>
      && NotAfter(db.accounts, l.bumpedAt) && l.session !in db.sessions
      && forall i | i in db.sessions :: db.sessions[i].family != l.family
    case Rotate(r) => r.next !in db.sessions
    case LogoutEverywhere(e) => NotAfter(db.accounts, e.bumpedAt)
    case SetAccountStatus(_, _, at, _) => NotAfter(db.accounts, at)
    case RecoveryEvent(_, at, _) => NotAfter(db.accounts, at)
    case UseOf(u) => Ordered(u.clock) && (u.session in db.sessions ==> SetBy(db.sessions[u.session], u.clock.loaded))
    case ActivateAccount(_, at) => NotAfter(db.accounts, at)
    case _ => true
  }

  ghost predicate FeasibleRun(db: Db, steps: seq<Step>)
    decreases |steps|
  {
    steps == [] || (Feasible(db, steps[0]) && FeasibleRun(Apply(db, steps[0]), steps[1..]))
  }

  function Run(db: Db, steps: seq<Step>): Db
    decreases |steps|
  {
    if steps == [] then db else Run(Apply(db, steps[0]), steps[1..])
  }
}
