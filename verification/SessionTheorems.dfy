/** What the session transactions guarantee over whole runs. */
module SessionTheorems {
  import opened Optional
  import opened Sequences
  import opened SessionModel
  import opened SessionExpiry
  import opened SessionTransactions

  // ----- Every transaction keeps the invariant -----

  lemma {:induction false} BumpedPositive(bumps: seq<Bump>, b: Bump)
    requires b in bumps
    ensures SumOver(bumps, Of(b.account)) > 0
  {
    var init := bumps[..|bumps| - 1];
    SumPrefix(bumps, |init|, Of(b.account));
    if b in init { BumpedPositive(init, b); }
  }

  /** A login that passes the staleness check was begun after every bump of its account. */
  lemma FreshAnswers(db: Db, h: Id)
    requires Kept(db) && h in db.handoffs && db.handoffs[h].account in db.accounts
    requires !StaleLogin(db.accounts[db.handoffs[h].account], db.handoffs[h])
    ensures Answers(db, db.handoffs[h].account, h)
  {
    forall b | b in db.bumps && b.account == db.handoffs[h].account ensures After(b, db.handoffs[h]) {
      BumpedPositive(db.bumps, b);
    }
  }

  lemma UnredeemedUnused(db: Db, h: Id)
    requires Kept(db) && h in db.handoffs && !db.handoffs[h].consumed
    ensures Unused(db, h)
  {
    forall id | id in db.sessions ensures db.origins[id] != h {
      assert RootedSession(db, id);
    }
  }

  lemma NewSessionOk(
    id: Id, family: Id, account: Id, version: nat, now: int, absolute: int, authenticatedAt: int, seal: Seal)
    requires now < absolute && seal.session == id && seal.account == account
    ensures SessionOk(id, NewSession(family, account, version, now, absolute, authenticatedAt, seal))
  {
  }

  lemma ReauthenticateKeeps(before: Db, db: Db, l: Login)
    requires Kept(before) && Kept(db) && l.handoff in db.handoffs && l.session !in db.sessions
    requires Unused(db, l.handoff) && db.handoffs[l.handoff].consumed
    requires db.handoffs[l.handoff].account in db.accounts && Answers(db, db.handoffs[l.handoff].account, l.handoff)
    ensures Kept(Reauthenticate(before, db, l).db)
  {
    var h := db.handoffs[l.handoff];
    if MayReauthenticate(db.accounts[h.account], db.sessions, h, l) && l.insertedAt < db.sessions[l.previous.value].absoluteExpiresAt {
      var s := db.sessions[l.previous.value];
      var seal := Seal(s.seal.secret, Max(l.keys.current, s.seal.keyVersion), l.session, s.account);
      NewSessionOk(l.session, s.family, s.account, s.version, l.insertedAt, s.absoluteExpiresAt,
                   db.handoffs[l.handoff].authenticatedAt, seal);
      var next := NewSession(s.family, s.account, s.version, l.insertedAt, s.absoluteExpiresAt,
                             db.handoffs[l.handoff].authenticatedAt, seal);
      ReplaceKeeps(db, l.previous.value, l.revokedAt, l.session, next, l.handoff);
    }
  }

  lemma RecoverKeeps(db: Db, l: Login)
    requires Kept(db) && l.handoff in db.handoffs && NotAfter(db.accounts, l.bumpedAt)
    requires Unused(db, l.handoff) && db.handoffs[l.handoff].account in db.accounts
    requires db.handoffs[l.handoff].consumed && Answers(db, db.handoffs[l.handoff].account, l.handoff)
    ensures var after := Recover(db, l);
            Kept(after) && Unused(after, l.handoff) && after.handoffs == db.handoffs
            && after.sessions.Keys == db.sessions.Keys
            && (forall i | i in after.sessions :: after.sessions[i].family == db.sessions[i].family)
            && GoodOrigin(after, db.handoffs[l.handoff].account, l.handoff)
  {
    var h := db.handoffs[l.handoff];
    if h.recovery {
      BumpKeeps(db, h.account, db.accounts[h.account].status, l.bumpedAt, l.revokedAt, Some(l.handoff));
    }
  }

  lemma OpenFamilyKeeps(db: Db, l: Login)
    requires Kept(db) && l.handoff in db.handoffs && NotAfter(db.accounts, l.bumpedAt)
    requires Unused(db, l.handoff) && db.handoffs[l.handoff].account in db.accounts
    requires db.handoffs[l.handoff].consumed && Answers(db, db.handoffs[l.handoff].account, l.handoff)
    requires l.session !in db.sessions && forall i | i in db.sessions :: db.sessions[i].family != l.family
    ensures Kept(OpenFamily(db, l).db)
  {
    RecoverKeeps(db, l);
    if l.membership && l.scopeLive && l.rollout && l.assurance && l.underLimit {
      var h := db.handoffs[l.handoff];
      var recovered := Recover(db, l);
      var replaced := ReplacePrevious(recovered, l);
      ReplacePreviousKeeps(recovered, l);
      var seal := Seal(l.secret, l.keys.current, l.session, h.account);
      NewSessionOk(l.session, l.family, h.account, recovered.accounts[h.account].version, l.insertedAt,
                   l.insertedAt + ABSOLUTE_TTL_MS, h.authenticatedAt, seal);
      var next := NewSession(l.family, h.account, recovered.accounts[h.account].version, l.insertedAt,
                             l.insertedAt + ABSOLUTE_TTL_MS, h.authenticatedAt, seal);
      OpenKeeps(replaced, l.session, next, l.handoff);
    }
  }

  lemma ReplacePreviousKeeps(db: Db, l: Login)
    requires Kept(db)
    ensures var after := ReplacePrevious(db, l);
            Kept(after) && after == db.(sessions := after.sessions)
            && after.sessions.Keys == db.sessions.Keys
            && forall i | i in after.sessions :: after.sessions[i].family == db.sessions[i].family
  {
    if l.previous.Some? && l.previous.value in db.sessions {
      var s := db.sessions[l.previous.value];
      RevokeKeeps(db, FamilySessions(db.sessions, s.family) * AccountSessions(db.sessions, s.account), l.revokedAt);
    }
  }

  lemma ExchangeKeeps(db: Db, l: Login)
    requires Kept(db) && Feasible(db, Exchange(l))
    ensures Kept(ExchangeLogin(db, l).db)
  {
    if Redeemable(db.handoffs, l) {
      var h := db.handoffs[l.handoff];
      var consumed := ConsumeHandoff(db, l.handoff);
      ConsumeKeeps(db, l.handoff);
      UnredeemedUnused(db, l.handoff);
      if h.account in db.accounts && db.accounts[h.account].status == Active && !StaleLogin(db.accounts[h.account], h) {
        FreshAnswers(consumed, l.handoff);
        if h.reauthentication {
          ReauthenticateKeeps(db, consumed, l);
        } else {
          OpenFamilyKeeps(consumed, l);
        }
      }
    }
  }

  lemma RotateKeeps(db: Db, r: Rotation)
    requires Kept(db) && r.next !in db.sessions
    ensures Kept(RotateSession(db, r).db)
  {
    if RotationRefusal(db.accounts, db.sessions, r).None? && r.session in db.origins && r.insertedAt < db.sessions[r.session].absoluteExpiresAt {
      var s := db.sessions[r.session];
      var seal := Seal(s.seal.secret, Max(r.keys.current, s.seal.keyVersion), r.next, s.account);
      NewSessionOk(r.next, s.family, s.account, s.version, r.insertedAt, s.absoluteExpiresAt, s.authenticatedAt, seal);
      var next := NewSession(s.family, s.account, s.version, r.insertedAt, s.absoluteExpiresAt, s.authenticatedAt, seal);
      ReplaceKeeps(db, r.session, r.revokedAt, r.next, next, db.origins[r.session]);
    }
  }

  lemma UseKeeps(db: Db, u: Use)
    requires Kept(db) && Ordered(u.clock)
    ensures Kept(UseSession(db, u))
  {
    if MayUse(db.accounts, db.sessions, u) {
      var s := db.sessions[u.session];
      var sealed := if u.reseal then Resealed(u.session, s, u.keys) else s;
      var used := if u.extend then Touched(sealed, u.clock) else sealed;
      UsedPlace(u.session, s, u);
      UpdateKeeps(db, u.session, used);
    }
  }

  lemma UsedPlace(id: Id, s: Session, u: Use)
    requires SessionOk(id, s) && Ordered(u.clock) && (u.reseal ==> Live(s) && Decrypts(id, s, u.keys))
    ensures var sealed := if u.reseal then Resealed(id, s, u.keys) else s;
            var used := if u.extend then Touched(sealed, u.clock) else sealed;
            SamePlace(s, used) && SessionOk(id, used)
  {
  }

  lemma ApplyKeeps(db: Db, step: Step)
    requires Kept(db) && Feasible(db, step)
    ensures Kept(Apply(db, step))
  {
    match step
    case Exchange(l) => ExchangeKeeps(db, l);
    case Rotate(r) => RotateKeeps(db, r);
    case Logout(session, at) =>
      if session in db.sessions { RevokeKeeps(db, FamilySessions(db.sessions, db.sessions[session].family), at); }
    case LogoutEverywhere(e) =>
      if RevokeAllRefusal(db.accounts, db.sessions, e).None? {
        var a := db.sessions[e.session].account;
        BumpKeeps(db, a, db.accounts[a].status, e.bumpedAt, e.revokedAt, None);
      }
    case SetAccountStatus(account, status, at, revokedAt) =>
      if account in db.accounts { BumpKeeps(db, account, status, at, revokedAt, None); }
    case RecoveryEvent(account, at, revokedAt) =>
      if account in db.accounts { BumpKeeps(db, account, db.accounts[account].status, at, revokedAt, None); }
    case UseOf(u) => UseKeeps(db, u);
    case RevokeSome(ids, at) => RevokeKeeps(db, ids, at);
    case CreateAccount(account, status, at) =>
      if account !in db.accounts { AccountKeeps(db, account, Account(0, status, at)); }
    case ActivateAccount(account, at) =>
      if account in db.accounts { AccountKeeps(db, account, db.accounts[account].(status := Active, updatedAt := at)); }
    case RecordHandoff(handoff, row) =>
      if handoff !in db.handoffs { HandoffKeeps(db, handoff, row); }
  }

  lemma {:induction false} RunKeeps(db: Db, steps: seq<Step>)
    requires Kept(db) && FeasibleRun(db, steps)
    ensures Kept(Run(db, steps))
    decreases |steps|
  {
    if steps != [] {
      ApplyKeeps(db, steps[0]);
      RunKeeps(Apply(db, steps[0]), steps[1..]);
    }
  }

  // ----- What no transaction undoes -----

  /** A row's place is fixed, a revocation is never taken back, its seal's key only grows, and
      neither its last use nor its idle end goes back. */
  predicate Follows(s: Session, later: Session) {
    && later.family == s.family && later.account == s.account && later.version == s.version
    && later.createdAt == s.createdAt && later.absoluteExpiresAt == s.absoluteExpiresAt
    && later.authenticatedAt == s.authenticatedAt && later.seal.secret == s.seal.secret
    && s.seal.keyVersion <= later.seal.keyVersion
    && s.lastSeenAt <= later.lastSeenAt && s.idleExpiresAt <= later.idleExpiresAt
    && (!Live(s) ==> later == s)
  }

  ghost predicate Extends(db: Db, later: Db) {
    && |db.bumps| <= |later.bumps| && later.bumps[..|db.bumps|] == db.bumps
    && (forall a | a in db.accounts :: a in later.accounts && db.accounts[a].version <= later.accounts[a].version)
    && (forall id | id in db.sessions ::
          id in later.sessions && Follows(db.sessions[id], later.sessions[id])
          && id in db.origins && id in later.origins && later.origins[id] == db.origins[id])
    && (forall h | h in db.handoffs ::
          h in later.handoffs && (later.handoffs[h] == db.handoffs[h] || later.handoffs[h] == db.handoffs[h].(consumed := true)))
  }

  lemma ExtendsTrans(a: Db, b: Db, c: Db)
    requires Extends(a, b) && Extends(b, c)
    ensures Extends(a, c)
  {
    assert c.bumps[..|a.bumps|] == c.bumps[..|b.bumps|][..|a.bumps|];
    forall id | id in a.sessions ensures Follows(a.sessions[id], c.sessions[id]) {
      assert Follows(a.sessions[id], b.sessions[id]) && Follows(b.sessions[id], c.sessions[id]);
    }
  }

  lemma ExtendsSelf(db: Db)
    requires Rooted(db)
    ensures Extends(db, db)
  {
    forall id | id in db.sessions ensures id in db.origins { assert RootedSession(db, id); }
  }

  lemma RevokeExtends(db: Db, ids: set<Id>, at: int)
    requires Rooted(db)
    ensures Extends(db, RevokeRows(db, ids, at)) && Rooted(RevokeRows(db, ids, at))
  {
    var after := RevokeRows(db, ids, at);
    forall id | id in db.sessions ensures id in db.origins && RootedSession(after, id) { assert RootedSession(db, id); }
  }

  lemma BumpExtends(db: Db, account: Id, status: Status, at: int, revokedAt: int, login: Option<Id>)
    requires Rooted(db) && account in db.accounts
    ensures Extends(db, BumpAccount(db, account, status, at, revokedAt, login))
    ensures Rooted(BumpAccount(db, account, status, at, revokedAt, login))
  {
    var after := BumpAccount(db, account, status, at, revokedAt, login);
    forall id | id in db.sessions ensures id in db.origins && RootedSession(after, id) { assert RootedSession(db, id); }
  }

  lemma AddExtends(db: Db, id: Id, s: Session, origin: Id)
    requires Rooted(db) && id !in db.sessions
    ensures Extends(db, AddSession(db, id, s, origin))
  {
    forall i | i in db.sessions ensures i in db.origins { assert RootedSession(db, i); }
  }

  lemma ConsumeExtends(db: Db, h: Id)
    requires Rooted(db) && h in db.handoffs
    ensures Extends(db, ConsumeHandoff(db, h)) && Rooted(ConsumeHandoff(db, h))
  {
    var after := ConsumeHandoff(db, h);
    forall id | id in db.sessions ensures id in db.origins && RootedSession(after, id) { assert RootedSession(db, id); }
  }

  lemma ReplaceExtends(db: Db, ids: set<Id>, at: int, id: Id, s: Session, origin: Id)
    requires Rooted(db) && id !in db.sessions
    ensures Extends(db, AddSession(RevokeRows(db, ids, at), id, s, origin))
  {
    RevokeExtends(db, ids, at);
    AddExtends(RevokeRows(db, ids, at), id, s, origin);
    ExtendsTrans(db, RevokeRows(db, ids, at), AddSession(RevokeRows(db, ids, at), id, s, origin));
  }

  lemma OpenFamilyExtends(db: Db, l: Login)
    requires Rooted(db) && l.handoff in db.handoffs && db.handoffs[l.handoff].account in db.accounts
    requires l.session !in db.sessions
    ensures Extends(db, OpenFamily(db, l).db)
  {
    var h := db.handoffs[l.handoff];
    var recovered, after := Recover(db, l), OpenFamily(db, l).db;
    ExtendsSelf(db);
    if h.recovery {
      BumpExtends(db, h.account, db.accounts[h.account].status, l.bumpedAt, l.revokedAt, Some(l.handoff));
    }
    if l.membership && l.scopeLive && l.rollout && l.assurance && l.underLimit {
      var next := after.sessions[l.session];
      if !h.recovery && l.previous.Some? && l.previous.value in db.sessions {
        var s := db.sessions[l.previous.value];
        ReplaceExtends(recovered, FamilySessions(db.sessions, s.family) * AccountSessions(db.sessions, s.account),
                       l.revokedAt, l.session, next, l.handoff);
      } else {
        AddExtends(recovered, l.session, next, l.handoff);
      }
      ExtendsTrans(db, recovered, after);
    }
  }

  lemma ExchangeExtends(db: Db, l: Login)
    requires Rooted(db) && l.session !in db.sessions
    ensures Extends(db, ExchangeLogin(db, l).db)
  {
    ExtendsSelf(db);
    if Redeemable(db.handoffs, l) {
      var h := db.handoffs[l.handoff];
      var consumed, after := ConsumeHandoff(db, l.handoff), ExchangeLogin(db, l).db;
      ConsumeExtends(db, l.handoff);
      ExtendsSelf(consumed);
      if h.account in db.accounts && db.accounts[h.account].status == Active && !StaleLogin(db.accounts[h.account], h) {
        if !h.reauthentication {
          OpenFamilyExtends(consumed, l);
        } else if ExchangeLogin(db, l).outcome.Issued? {
          ReplaceExtends(consumed, {l.previous.value}, l.revokedAt, l.session, after.sessions[l.session], l.handoff);
        }
      }
      if after != db { ExtendsTrans(db, consumed, after); }
    }
  }

  lemma UsedRow(id: Id, s: Session, u: Use)
    requires Live(s) && SessionOk(id, s) && Ordered(u.clock) && SetBy(s, u.clock.loaded)
    ensures var sealed := if u.reseal then Resealed(id, s, u.keys) else s;
            Follows(s, if u.extend then Touched(sealed, u.clock) else sealed)
  {
  }

  lemma UseExtends(db: Db, u: Use)
    requires Rooted(db) && SessionsOk(db.sessions) && Feasible(db, UseOf(u))
    ensures Extends(db, UseSession(db, u))
  {
    ExtendsSelf(db);
    if MayUse(db.accounts, db.sessions, u) {
      assert Live(db.sessions[u.session]);
      UsedRow(u.session, db.sessions[u.session], u);
    }
  }

  lemma ApplyExtends(db: Db, step: Step)
    requires Rooted(db) && SessionsOk(db.sessions) && Feasible(db, step)
    ensures Extends(db, Apply(db, step))
  {
    ExtendsSelf(db);
    match step
    case Exchange(l) => ExchangeExtends(db, l);
    case Rotate(r) =>
      var result := RotateSession(db, r);
      if result.outcome.Issued? {
        ReplaceExtends(db, {r.session}, r.revokedAt, r.next, result.db.sessions[r.next], db.origins[r.session]);
      }
    case Logout(session, at) =>
      if session in db.sessions { RevokeExtends(db, FamilySessions(db.sessions, db.sessions[session].family), at); }
    case LogoutEverywhere(e) =>
      if RevokeAllRefusal(db.accounts, db.sessions, e).None? {
        var a := db.sessions[e.session].account;
        BumpExtends(db, a, db.accounts[a].status, e.bumpedAt, e.revokedAt, None);
      }
    case SetAccountStatus(account, status, at, revokedAt) =>
      if account in db.accounts { BumpExtends(db, account, status, at, revokedAt, None); }
    case RecoveryEvent(account, at, revokedAt) =>
      if account in db.accounts { BumpExtends(db, account, db.accounts[account].status, at, revokedAt, None); }
    case UseOf(u) => UseExtends(db, u);
    case RevokeSome(ids, at) => RevokeExtends(db, ids, at);
    case CreateAccount(account, status, at) =>
    case ActivateAccount(account, at) =>
    case RecordHandoff(handoff, row) =>
  }

  /** Over every run: rows are never lost, a family's end and CSRF secret never change, its key
      version never decreases, no idle end goes back, and a revoked session never changes again. */
  lemma {:induction false} RunExtends(db: Db, steps: seq<Step>)
    requires Kept(db) && FeasibleRun(db, steps)
    ensures Extends(db, Run(db, steps))
    decreases |steps|
  {
    if steps == [] {
      ExtendsSelf(db);
    } else {
      ApplyKeeps(db, steps[0]);
      ApplyExtends(db, steps[0]);
      RunExtends(Apply(db, steps[0]), steps[1..]);
      ExtendsTrans(db, Apply(db, steps[0]), Run(db, steps));
    }
  }

  /** An accepted use that extends keeps the session un-idle for 25 minutes, or to its absolute
      end, whatever else happens to it: in no later state is it refused as idle before that. */
  lemma UnidleForLong(db: Db, u: Use, steps: seq<Step>)
    requires Kept(db) && Feasible(db, UseOf(u)) && MayUse(db.accounts, db.sessions, u) && u.extend
    requires Recent(db.sessions[u.session], u.clock) || Updates(db.sessions[u.session], u.clock)
    requires FeasibleRun(UseSession(db, u), steps)
    ensures var later := Run(UseSession(db, u), steps);
            && u.session in later.sessions
            && later.sessions[u.session].idleExpiresAt
               >= Min(u.clock.loaded + IDLE_TTL_MS - TOUCH_INTERVAL_MS, db.sessions[u.session].absoluteExpiresAt)
  {
    UseKeeps(db, u);
    UsedUnidle(db, u);
    StaysUnidle(UseSession(db, u), steps, u.session);
  }

  lemma UsedUnidle(db: Db, u: Use)
    requires Kept(db) && Feasible(db, UseOf(u)) && MayUse(db.accounts, db.sessions, u) && u.extend
    requires Recent(db.sessions[u.session], u.clock) || Updates(db.sessions[u.session], u.clock)
    ensures var after := UseSession(db, u);
            && u.session in after.sessions
            && after.sessions[u.session].idleExpiresAt
               >= Min(u.clock.loaded + IDLE_TTL_MS - TOUCH_INTERVAL_MS, db.sessions[u.session].absoluteExpiresAt)
  {
    var s := db.sessions[u.session];
    var sealed := if u.reseal then Resealed(u.session, s, u.keys) else s;
    ExtendingUse(u.session, sealed, u.clock);
  }

  lemma StaysUnidle(db: Db, steps: seq<Step>, id: Id)
    requires Kept(db) && FeasibleRun(db, steps) && id in db.sessions
    ensures id in Run(db, steps).sessions && Run(db, steps).sessions[id].idleExpiresAt >= db.sessions[id].idleExpiresAt
  {
    RunExtends(db, steps);
  }

  // ----- Revocation is complete -----

  ghost predicate NoneLive(db: Db, account: Id) {
    forall id | id in db.sessions && db.sessions[id].account == account :: !Live(db.sessions[id])
  }

  /** Once the account's version was raised, every session of it that is unrevoked in any later
      state descends from a login begun after that, the recovery login that raised it excepted. */
  lemma RevokedForGood(db: Db, b: Bump, steps: seq<Step>, id: Id)
    requires Kept(db) && FeasibleRun(db, steps) && b in db.bumps
    requires var later := Run(db, steps);
             id in later.sessions && Live(later.sessions[id]) && later.sessions[id].account == b.account
    ensures var later := Run(db, steps);
            && id in later.origins && later.origins[id] in later.handoffs
            && (After(b, later.handoffs[later.origins[id]]) || b.login == Some(later.origins[id]))
            && b.account in later.accounts
            && later.sessions[id].version == later.accounts[b.account].version
  {
    var later := Run(db, steps);
    RunKeeps(db, steps);
    RunExtends(db, steps);
    assert b in later.bumps[..|db.bumps|];
    assert RootedSession(later, id);
  }

  /** Logging out everywhere, a status change and an acknowledged provider event raise the
      version at their own time and leave no session of the account unrevoked. */
  lemma BumpIsRecorded(db: Db, step: Step)
    requires Rooted(db)
    ensures step.LogoutEverywhere? && RevokeAllRefusal(db.accounts, db.sessions, step.everywhere).None? ==>
              var a := db.sessions[step.everywhere.session].account;
              Bump(a, step.everywhere.bumpedAt, None) in Apply(db, step).bumps && NoneLive(Apply(db, step), a)
    ensures step.SetAccountStatus? && step.account in db.accounts && db.accounts[step.account].status != Disabled ==>
              Bump(step.account, step.at, None) in Apply(db, step).bumps && NoneLive(Apply(db, step), step.account)
              && Apply(db, step).accounts[step.account].status == step.status
    ensures step.RecoveryEvent? && step.account in db.accounts ==>
              Bump(step.account, step.at, None) in Apply(db, step).bumps && NoneLive(Apply(db, step), step.account)
  {
  }

  /** Whether the login is exchanged up to the point where a new session is limited. */
  predicate Admitted(db: Db, l: Login) {
    && Redeemable(db.handoffs, l)
    && var h := db.handoffs[l.handoff];
       && h.account in db.accounts && db.accounts[h.account].status == Active
       && !StaleLogin(db.accounts[h.account], h) && !h.reauthentication
       && l.membership && l.scopeLive && l.rollout && l.assurance
  }

  /** A recovery login raises the version and revokes every older session, even when the new
      session is then refused by the creation limit. */
  lemma RecoveryRevokes(db: Db, l: Login)
    requires Kept(db) && Feasible(db, Exchange(l)) && Admitted(db, l) && db.handoffs[l.handoff].recovery
    ensures var after, account := ExchangeLogin(db, l).db, db.handoffs[l.handoff].account;
            && Bump(account, l.bumpedAt, Some(l.handoff)) in after.bumps
            && (forall id | id in after.sessions && after.sessions[id].account == account && Live(after.sessions[id]) ::
                  l.underLimit && id == l.session)
    ensures ExchangeLogin(db, l).outcome == if l.underLimit then Issued(l.session) else Refused
  {
    var account := db.handoffs[l.handoff].account;
    var consumed := ConsumeHandoff(db, l.handoff);
    var recovered := Recover(consumed, l);
    assert NoneLive(recovered, account);
    assert ReplacePrevious(recovered, l) == recovered;
  }

  lemma Consumed(db: Db, l: Login)
    requires Redeemable(db.handoffs, l) && ExchangeLogin(db, l).outcome != Aborted
    ensures var after := ExchangeLogin(db, l).db;
            l.handoff in after.handoffs && after.handoffs[l.handoff].consumed
  {
  }

  /** A login can be exchanged once: afterwards it is refused and changes nothing. */
  lemma ExchangedOnce(db: Db, l: Login, steps: seq<Step>, again: Login)
    requires Kept(db) && Feasible(db, Exchange(l)) && Redeemable(db.handoffs, l)
    requires ExchangeLogin(db, l).outcome != Aborted && again.handoff == l.handoff
    requires FeasibleRun(ExchangeLogin(db, l).db, steps)
    ensures var later := Run(ExchangeLogin(db, l).db, steps);
            ExchangeLogin(later, again) == Exchanged(later, Refused)
  {
    ExchangeKeeps(db, l);
    Consumed(db, l);
    RunExtends(ExchangeLogin(db, l).db, steps);
  }
}
