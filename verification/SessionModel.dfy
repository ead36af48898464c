/** Accounts, login handoffs and browser sessions (src/sessions.ts), as rows; the row changes
    its transactions are made of; and what every one of them keeps. */
module SessionModel {
  import opened Optional
  import opened Sequences

  const IDLE_TTL_MS: int := 1_800_000
  const ABSOLUTE_TTL_MS: int := 43_200_000
  const TOUCH_INTERVAL_MS: int := 300_000
  const RECENT_AUTHENTICATION_MS: int := 600_000

  // Row identifiers. A session's token is named by its row: digests are injective and unique.
  type Id = nat

  datatype Status = Invited | Active | Suspended | Disabled

  datatype Account = Account(version: nat, status: Status, updatedAt: int)

  /** A validated login waiting to be exchanged for a session. */
  datatype Handoff = Handoff(
    account: Id, createdAt: int, authenticatedAt: int, expiresAt: int, consumed: bool,
    recovery: bool, reauthentication: bool, family: Option<Id>)

  /** The session's CSRF secret, encrypted under a versioned key and bound to the session and
      account it was encrypted for. */
  datatype Seal = Seal(secret: nat, keyVersion: nat, session: Id, account: Id)

  datatype Session = Session(
    family: Id, account: Id, version: nat, createdAt: int, lastSeenAt: int, idleExpiresAt: int,
    absoluteExpiresAt: int, authenticatedAt: int, revokedAt: Option<int>, seal: Seal)

  datatype Keys = Keys(current: nat, available: set<nat>)

  /** The account's session version was raised at `at`; a recovery login names its handoff. */
  datatype Bump = Bump(account: Id, at: int, login: Option<Id>)

  // The rows, and their history: the handoff each session descends from, and every bump.
  datatype Db = Db(
    accounts: map<Id, Account>, handoffs: map<Id, Handoff>, sessions: map<Id, Session>,
    origins: map<Id, Id>, bumps: seq<Bump>)

  predicate Live(s: Session) {
    s.revokedAt.None?
  }

  function Min(a: int, b: int): int {
    if a <= b then a else b
  }

  function Max(a: int, b: int): int {
    if a >= b then a else b
  }

  // ----- What is kept -----

  ghost predicate Rooted(db: Db) {
    forall id | id in db.sessions :: RootedSession(db, id)
  }

  predicate RootedSession(db: Db, id: Id)
    requires id in db.sessions
  {
    && db.sessions[id].account in db.accounts
    && id in db.origins && db.origins[id] in db.handoffs
    && db.handoffs[db.origins[id]].consumed
    && db.handoffs[db.origins[id]].account == db.sessions[id].account
  }

  /** An unrevoked session carries its account's current version. */
  ghost predicate Current(db: Db)
    requires Rooted(db)
  {
    forall id | id in db.sessions && Live(db.sessions[id]) ::
      RootedSession(db, id) && db.sessions[id].version == db.accounts[db.sessions[id].account].version
  }

  /** A family belongs to one account, has one end and one CSRF secret, at most one unrevoked
      session, and that one is sealed under the newest key the family has seen. */
  ghost predicate FamiliesOk(sessions: map<Id, Session>) {
    forall i, j | i in sessions && j in sessions && sessions[i].family == sessions[j].family ::
      && sessions[i].account == sessions[j].account
      && sessions[i].absoluteExpiresAt == sessions[j].absoluteExpiresAt
      && sessions[i].seal.secret == sessions[j].seal.secret
      && (Live(sessions[i]) && Live(sessions[j]) ==> i == j)
      && (Live(sessions[i]) ==> sessions[j].seal.keyVersion <= sessions[i].seal.keyVersion)
  }

  predicate SessionOk(id: Id, s: Session) {
    && s.seal.session == id && s.seal.account == s.account
    && s.createdAt <= s.lastSeenAt
    && Min(s.lastSeenAt + IDLE_TTL_MS, s.absoluteExpiresAt) <= s.idleExpiresAt <= s.absoluteExpiresAt
  }

  ghost predicate SessionsOk(sessions: map<Id, Session>) {
    forall id | id in sessions :: SessionOk(id, sessions[id])
  }

  predicate After(b: Bump, h: Handoff) {
    b.at < h.createdAt && b.at < h.authenticatedAt
  }

  /** Every unrevoked session descends from a login begun after each bump of its account, or
      from the recovery login that made the bump. */
  ghost predicate Descent(db: Db)
    requires Rooted(db)
  {
    forall b, id | b in db.bumps && id in db.sessions && Live(db.sessions[id]) && db.sessions[id].account == b.account ::
      RootedSession(db, id) && (After(b, db.handoffs[db.origins[id]]) || b.login == Some(db.origins[id]))
  }

  function Of(account: Id): Bump -> int {
    (b: Bump) => if b.account == account then 1 else 0
  }

  /** The version counts the bumps, and `updatedAt` is not before any of them. */
  ghost predicate BumpsOk(accounts: map<Id, Account>, bumps: seq<Bump>) {
    && (forall a | a in accounts :: accounts[a].version == SumOver(bumps, Of(a)))
    && (forall b | b in bumps :: b.account in accounts && b.at <= accounts[b.account].updatedAt)
  }

  /** One login, one family. */
  ghost predicate OneFamily(db: Db)
    requires Rooted(db)
  {
    forall i, j | i in db.sessions && j in db.sessions && RootedSession(db, i) && RootedSession(db, j)
                  && db.origins[i] == db.origins[j] ::
      db.sessions[i].family == db.sessions[j].family
  }

  ghost predicate Kept(db: Db) {
    && Rooted(db) && Current(db) && FamiliesOk(db.sessions) && SessionsOk(db.sessions)
    && Descent(db) && BumpsOk(db.accounts, db.bumps) && OneFamily(db)
  }

  // ----- Row changes -----

  /** UPDATE ... SET "revokedAt" = at WHERE id in `ids` AND "revokedAt" IS NULL. */
  function Revoked(sessions: map<Id, Session>, ids: set<Id>, at: int): map<Id, Session> {
    map id | id in sessions ::
      if id in ids && Live(sessions[id]) then sessions[id].(revokedAt := Some(at)) else sessions[id]
  }

  function AccountSessions(sessions: map<Id, Session>, account: Id): set<Id> {
    set id | id in sessions && sessions[id].account == account
  }

  function FamilySessions(sessions: map<Id, Session>, family: Id): set<Id> {
    set id | id in sessions && sessions[id].family == family
  }

  function RevokeRows(db: Db, ids: set<Id>, at: int): Db {
    db.(sessions := Revoked(db.sessions, ids, at))
  }

  function ConsumeHandoff(db: Db, h: Id): Db
    requires h in db.handoffs
  {
    db.(handoffs := db.handoffs[h := db.handoffs[h].(consumed := true)])
  }

  function RaiseVersion(db: Db, account: Id, status: Status, at: int, login: Option<Id>): Db
    requires account in db.accounts
  {
    db.(accounts := db.accounts[account := Account(db.accounts[account].version + 1, status, at)],
        bumps := db.bumps + [Bump(account, at, login)])
  }

  /** Raises the version, and with it revokes every session of the account. */
  function BumpAccount(db: Db, account: Id, status: Status, at: int, revokedAt: int, login: Option<Id>): Db
    requires account in db.accounts
  {
    RaiseVersion(RevokeRows(db, AccountSessions(db.sessions, account), revokedAt), account, status, at, login)
  }

  function AddSession(db: Db, id: Id, s: Session, origin: Id): Db {
    db.(sessions := db.sessions[id := s], origins := db.origins[id := origin])
  }

  function PutSession(db: Db, id: Id, s: Session): Db {
    db.(sessions := db.sessions[id := s])
  }

  // ----- Each row change keeps it -----

  lemma RevokeFamilies(sessions: map<Id, Session>, ids: set<Id>, at: int)
    requires FamiliesOk(sessions) && SessionsOk(sessions)
    ensures FamiliesOk(Revoked(sessions, ids, at)) && SessionsOk(Revoked(sessions, ids, at))
  {
    var after := Revoked(sessions, ids, at);
    forall id | id in after ensures SessionOk(id, after[id]) {
      assert SessionOk(id, sessions[id]);
    }
  }

  lemma RevokeKeeps(db: Db, ids: set<Id>, at: int)
    requires Kept(db)
    ensures Kept(RevokeRows(db, ids, at))
  {
    var after := RevokeRows(db, ids, at);
    RevokeFamilies(db.sessions, ids, at);
    assert forall id | id in after.sessions :: RootedSession(db, id) && RootedSession(after, id);
  }

  lemma ConsumeKeeps(db: Db, h: Id)
    requires Kept(db) && h in db.handoffs
    ensures Kept(ConsumeHandoff(db, h))
  {
    var after := ConsumeHandoff(db, h);
    assert forall id | id in after.sessions :: RootedSession(db, id) && RootedSession(after, id);
  }

  lemma NewBumpCounted(accounts: map<Id, Account>, bumps: seq<Bump>, account: Id, status: Status, at: int, login: Option<Id>)
    requires BumpsOk(accounts, bumps) && account in accounts && accounts[account].updatedAt <= at
    ensures BumpsOk(accounts[account := Account(accounts[account].version + 1, status, at)],
                    bumps + [Bump(account, at, login)])
  {
    var after := bumps + [Bump(account, at, login)];
    assert after[..|bumps|] == bumps;
  }

  lemma RaiseKeeps(db: Db, account: Id, status: Status, at: int, login: Option<Id>)
    requires Kept(db) && account in db.accounts && db.accounts[account].updatedAt <= at
    requires forall id | id in db.sessions && db.sessions[id].account == account :: !Live(db.sessions[id])
    ensures Kept(RaiseVersion(db, account, status, at, login))
  {
    NewBumpCounted(db.accounts, db.bumps, account, status, at, login);
    RaisedRows(db, account, status, at, login);
    RaisedDescent(db, account, status, at, login);
    RaisedFamilies(db, account, status, at, login);
  }

  lemma RaisedRows(db: Db, account: Id, status: Status, at: int, login: Option<Id>)
    requires Rooted(db) && Current(db) && account in db.accounts
    requires forall id | id in db.sessions && db.sessions[id].account == account :: !Live(db.sessions[id])
    ensures Rooted(RaiseVersion(db, account, status, at, login)) && Current(RaiseVersion(db, account, status, at, login))
  {
    var after := RaiseVersion(db, account, status, at, login);
    forall id | id in after.sessions ensures RootedSession(after, id) { assert RootedSession(db, id); }
  }

  lemma RaisedDescent(db: Db, account: Id, status: Status, at: int, login: Option<Id>)
    requires Rooted(db) && Descent(db) && account in db.accounts
    requires forall id | id in db.sessions && db.sessions[id].account == account :: !Live(db.sessions[id])
    requires Rooted(RaiseVersion(db, account, status, at, login))
    ensures Descent(RaiseVersion(db, account, status, at, login))
  {
    var after := RaiseVersion(db, account, status, at, login);
    forall b, id | b in after.bumps && id in after.sessions && Live(after.sessions[id]) && after.sessions[id].account == b.account
      ensures RootedSession(after, id) && (After(b, after.handoffs[after.origins[id]]) || b.login == Some(after.origins[id]))
    {
      assert RootedSession(after, id) && (b in db.bumps || b == Bump(account, at, login));
    }
  }

  lemma RaisedFamilies(db: Db, account: Id, status: Status, at: int, login: Option<Id>)
    requires Rooted(db) && OneFamily(db) && account in db.accounts
    requires Rooted(RaiseVersion(db, account, status, at, login))
    ensures OneFamily(RaiseVersion(db, account, status, at, login))
  {
    assert forall id | id in db.sessions :: RootedSession(db, id);
  }

  lemma BumpKeeps(db: Db, account: Id, status: Status, at: int, revokedAt: int, login: Option<Id>)
    requires Kept(db) && account in db.accounts && db.accounts[account].updatedAt <= at
    ensures Kept(BumpAccount(db, account, status, at, revokedAt, login))
    ensures var after := BumpAccount(db, account, status, at, revokedAt, login);
            forall id | id in after.sessions && after.sessions[id].account == account :: !Live(after.sessions[id])
  {
    RevokeKeeps(db, AccountSessions(db.sessions, account), revokedAt);
    RaiseKeeps(RevokeRows(db, AccountSessions(db.sessions, account), revokedAt), account, status, at, login);
  }

  ghost predicate Unused(db: Db, h: Id) {
    forall id | id in db.sessions && id in db.origins :: db.origins[id] != h
  }

  /** The login answers for every bump of the account: begun after it, or the cause of it. */
  ghost predicate Answers(db: Db, account: Id, h: Id)
    requires h in db.handoffs
  {
    forall b | b in db.bumps && b.account == account :: After(b, db.handoffs[h]) || b.login == Some(h)
  }

  ghost predicate GoodOrigin(db: Db, account: Id, h: Id) {
    && account in db.accounts && h in db.handoffs
    && db.handoffs[h].consumed && db.handoffs[h].account == account && Answers(db, account, h)
  }

  lemma AddRoots(db: Db, id: Id, s: Session, origin: Id)
    requires Kept(db) && id !in db.sessions && GoodOrigin(db, s.account, origin)
    requires s.version == db.accounts[s.account].version
    requires forall i | i in db.sessions && db.origins[i] == origin :: db.sessions[i].family == s.family
    ensures var after := AddSession(db, id, s, origin);
            Rooted(after) && Current(after) && Descent(after) && OneFamily(after)
  {
    var after := AddSession(db, id, s, origin);
    forall i | i in after.sessions ensures RootedSession(after, i) {
      if i != id { assert RootedSession(db, i); }
    }
    forall i | i in db.sessions ensures after.sessions[i] == db.sessions[i] && RootedSession(db, i) {}
  }

  lemma AddFamily(sessions: map<Id, Session>, id: Id, s: Session)
    requires FamiliesOk(sessions) && SessionsOk(sessions) && id !in sessions && SessionOk(id, s)
    requires forall i | i in sessions && sessions[i].family == s.family ::
               !Live(sessions[i]) && sessions[i].account == s.account
               && sessions[i].absoluteExpiresAt == s.absoluteExpiresAt
               && sessions[i].seal.secret == s.seal.secret
               && sessions[i].seal.keyVersion <= s.seal.keyVersion
    ensures FamiliesOk(sessions[id := s]) && SessionsOk(sessions[id := s])
  {
  }

  /** A login opens a family of its own. */
  lemma OpenKeeps(db: Db, id: Id, s: Session, h: Id)
    requires Kept(db) && id !in db.sessions && SessionOk(id, s)
    requires forall i | i in db.sessions :: db.sessions[i].family != s.family
    requires GoodOrigin(db, s.account, h) && Unused(db, h) && s.version == db.accounts[s.account].version
    ensures Kept(AddSession(db, id, s, h))
  {
    assert forall i | i in db.sessions :: RootedSession(db, i);
    AddRoots(db, id, s, h);
    AddFamily(db.sessions, id, s);
  }

  /** Continues the family of `before`, which it replaces. */
  predicate Continues(before: Session, s: Session) {
    && s.family == before.family && s.account == before.account && s.version == before.version
    && s.absoluteExpiresAt == before.absoluteExpiresAt
    && s.seal.secret == before.seal.secret && before.seal.keyVersion <= s.seal.keyVersion
  }

  lemma ReplaceKeeps(db: Db, before: Id, at: int, id: Id, s: Session, origin: Id)
    requires Kept(db) && before in db.sessions && Live(db.sessions[before])
    requires id !in db.sessions && SessionOk(id, s) && Continues(db.sessions[before], s)
    requires origin == db.origins[before] || (GoodOrigin(db, s.account, origin) && Unused(db, origin))
    ensures Kept(AddSession(RevokeRows(db, {before}, at), id, s, origin))
  {
    assert RootedSession(db, before);
    var revoked := RevokeRows(db, {before}, at);
    RevokeKeeps(db, {before}, at);
    assert forall i | i in db.sessions :: RootedSession(db, i);
    if origin == db.origins[before] {
      assert Answers(db, s.account, origin);
    }
    AddRoots(revoked, id, s, origin);
    AddFamily(revoked.sessions, id, s);
  }

  /** A change within one row that leaves its place in the family and account alone. */
  predicate SamePlace(before: Session, s: Session) {
    Continues(before, s) && s.revokedAt == before.revokedAt && (s.seal.keyVersion == before.seal.keyVersion || Live(s))
  }

  lemma UpdateKeeps(db: Db, id: Id, s: Session)
    requires Kept(db) && id in db.sessions && SamePlace(db.sessions[id], s) && SessionOk(id, s)
    ensures Kept(PutSession(db, id, s))
  {
    var after := PutSession(db, id, s);
    UpdateFamilies(db.sessions, id, s);
    forall i | i in after.sessions ensures RootedSession(db, i) && RootedSession(after, i) {}
  }

  lemma UpdateFamilies(sessions: map<Id, Session>, id: Id, s: Session)
    requires FamiliesOk(sessions) && SessionsOk(sessions)
    requires id in sessions && SamePlace(sessions[id], s) && SessionOk(id, s)
    ensures FamiliesOk(sessions[id := s]) && SessionsOk(sessions[id := s])
  {
  }

  // ----- Accounts and logins from elsewhere -----

  function PutAccount(db: Db, id: Id, a: Account): Db {
    db.(accounts := db.accounts[id := a])
  }

  lemma {:induction false} NoBumps(bumps: seq<Bump>, account: Id)
    requires forall b | b in bumps :: b.account != account
    ensures SumOver(bumps, Of(account)) == 0
  {
    if bumps != [] {
      assert forall b | b in bumps[..|bumps| - 1] :: b in bumps;
      NoBumps(bumps[..|bumps| - 1], account);
      assert bumps[|bumps| - 1] in bumps;
    }
  }

  /** A new account, or a change of status that leaves the version and does not go back in time. */
  lemma AccountKeeps(db: Db, id: Id, a: Account)
    requires Kept(db)
    requires if id in db.accounts then
               a.version == db.accounts[id].version && db.accounts[id].updatedAt <= a.updatedAt
             else a.version == 0
    ensures Kept(PutAccount(db, id, a))
  {
    var after := PutAccount(db, id, a);
    forall i | i in after.sessions ensures RootedSession(db, i) && RootedSession(after, i) {}
    if id !in db.accounts { NoBumps(db.bumps, id); }
  }

  function AddHandoff(db: Db, id: Id, h: Handoff): Db {
    db.(handoffs := db.handoffs[id := h])
  }

  lemma HandoffKeeps(db: Db, id: Id, h: Handoff)
    requires Kept(db) && id !in db.handoffs
    ensures Kept(AddHandoff(db, id, h))
  {
    var after := AddHandoff(db, id, h);
    forall i | i in after.sessions ensures RootedSession(db, i) && RootedSession(after, i) {}
  }
}
