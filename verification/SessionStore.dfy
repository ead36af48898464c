/** The session store of src/sessions.ts over its tables: each transaction updates the rows step
    by step, and is proved to be the transaction function of SessionTransactions. */
module SessionStore {
  import opened Optional
  import opened SessionModel
  import opened SessionTransactions
  import opened SessionTheorems

  datatype Revocation = NotFound | AlreadyRevoked | FamilyRevoked

  class BrowserSessionStore {
    var accounts: map<Id, Account>
    var handoffs: map<Id, Handoff>
    var sessions: map<Id, Session>
    ghost var origins: map<Id, Id>
    ghost var bumps: seq<Bump>

    ghost function State(): Db
      reads this
    {
      Db(accounts, handoffs, sessions, origins, bumps)
    }

    ghost predicate Valid()
      reads this
    {
      Kept(State())
    }

    constructor ()
      ensures Valid() && State() == Db(map[], map[], map[], map[], [])
    {
      accounts, handoffs, sessions, origins, bumps := map[], map[], map[], map[], [];
    }

    // ----- Row updates -----

    method Revoke(ids: set<Id>, at: int)
      modifies `sessions
      ensures State() == RevokeRows(old(State()), ids, at)
    {
      sessions := Revoked(sessions, ids, at);
    }

    /** The version rises and every session of the account is revoked. */
    method RevokeAccount(account: Id, status: Status, at: int, revokedAt: int, ghost login: Option<Id>)
      requires account in accounts
      modifies `accounts, `sessions, `bumps
      ensures State() == BumpAccount(old(State()), account, status, at, revokedAt, login)
    {
      accounts := accounts[account := Account(accounts[account].version + 1, status, at)];
      bumps := bumps + [Bump(account, at, login)];
      Revoke(AccountSessions(sessions, account), revokedAt);
    }

    method Insert(id: Id, s: Session, ghost origin: Id)
      modifies `sessions, `origins
      ensures State() == AddSession(old(State()), id, s, origin)
    {
      sessions, origins := sessions[id := s], origins[id := origin];
    }

    // ----- Transactions -----

    method IssueFromHandoff(l: Login) returns (outcome: Outcome)
      requires Valid() && Feasible(State(), Exchange(l))
      modifies this
      ensures Valid() && Exchanged(State(), outcome) == ExchangeLogin(old(State()), l)
    {
      ExchangeKeeps(State(), l);
      if !Redeemable(handoffs, l) { return Refused; }
      var saved := handoffs;
      var h := handoffs[l.handoff];
      handoffs := handoffs[l.handoff := h.(consumed := true)];
      if h.account !in accounts { return Refused; }
      var account := accounts[h.account];
      if account.status != Active || StaleLogin(account, h) { return Refused; }
      if h.reauthentication {
        outcome := ContinueFamily(h, l);
        if outcome == Aborted { handoffs := saved; }
      } else {
        outcome := StartFamily(h, l);
      }
    }

    method ContinueFamily(h: Handoff, l: Login) returns (outcome: Outcome)
      requires l.handoff in handoffs && h == handoffs[l.handoff].(consumed := h.consumed) && h.account in accounts
      modifies `sessions, `origins
      ensures outcome != Aborted ==>
                Exchanged(State(), outcome) == Reauthenticate(old(State()), old(State()), l)
      ensures outcome == Aborted ==>
                State() == old(State()) && Reauthenticate(old(State()), old(State()), l).outcome == Aborted
    {
      if !MayReauthenticate(accounts[h.account], sessions, h, l) { return Refused; }
      var s := sessions[l.previous.value];
      if s.absoluteExpiresAt <= l.insertedAt { return Aborted; }
      Revoke({l.previous.value}, l.revokedAt);
      var seal := Seal(s.seal.secret, Max(l.keys.current, s.seal.keyVersion), l.session, s.account);
      Insert(l.session,
             NewSession(s.family, s.account, s.version, l.insertedAt, s.absoluteExpiresAt, h.authenticatedAt, seal),
             l.handoff);
      outcome := Issued(l.session);
    }

    method StartFamily(h: Handoff, l: Login) returns (outcome: Outcome)
      requires l.handoff in handoffs && h == handoffs[l.handoff].(consumed := h.consumed) && h.account in accounts
      modifies `accounts, `sessions, `origins, `bumps
      ensures Exchanged(State(), outcome) == OpenFamily(old(State()), l)
    {
      if !l.membership || !l.scopeLive || !l.rollout || !l.assurance { return Refused; }
      if h.recovery {
        RevokeAccount(h.account, accounts[h.account].status, l.bumpedAt, l.revokedAt, Some(l.handoff));
      }
      var version := accounts[h.account].version;
      if !l.underLimit { return Refused; }
      if !h.recovery && l.previous.Some? && l.previous.value in sessions {
        var s := sessions[l.previous.value];
        Revoke(FamilySessions(sessions, s.family) * AccountSessions(sessions, s.account), l.revokedAt);
      }
      Insert(l.session,
             NewSession(l.family, h.account, version, l.insertedAt, l.insertedAt + ABSOLUTE_TTL_MS,
                        h.authenticatedAt, Seal(l.secret, l.keys.current, l.session, h.account)),
             l.handoff);
      outcome := Issued(l.session);
    }

    method RotateCurrent(r: Rotation) returns (outcome: Outcome, refusal: Option<Refusal>)
      requires Valid() && Feasible(State(), Rotate(r))
      modifies this
      ensures Valid() && Exchanged(State(), outcome) == RotateSession(old(State()), r)
      ensures refusal == RotationRefusal(old(accounts), old(sessions), r)
      ensures refusal.Some? <==> outcome == Refused
    {
      RotateKeeps(State(), r);
      refusal := RotationRefusal(accounts, sessions, r);
      if refusal.Some? { return Refused, refusal; }
      assert RootedSession(State(), r.session);
      var s := sessions[r.session];
      if s.absoluteExpiresAt <= r.insertedAt { return Aborted, None; }
      Revoke({r.session}, r.revokedAt);
      var seal := Seal(s.seal.secret, Max(r.keys.current, s.seal.keyVersion), r.next, s.account);
      Insert(r.next,
             NewSession(s.family, s.account, s.version, r.insertedAt, s.absoluteExpiresAt, s.authenticatedAt, seal),
             origins[r.session]);
      outcome := Issued(r.next);
    }

    /** The family is revoked, and the answer says whether anything of it was left to revoke. */
    method Logout(session: Id, at: int) returns (answer: Revocation)
      requires Valid()
      modifies `sessions
      ensures Valid() && State() == RevokeFamily(old(State()), session, at)
      ensures answer == NotFound <==> session !in old(sessions)
      ensures answer == FamilyRevoked <==>
              session in old(sessions)
              && exists id :: id in old(sessions) && old(sessions)[id].family == old(sessions)[session].family
                              && old(sessions)[id].revokedAt.None?
    {
      if session !in sessions { return NotFound; }
      var family := FamilySessions(sessions, sessions[session].family);
      RevokeKeeps(State(), family, at);
      answer := if exists id | id in family :: Live(sessions[id]) then FamilyRevoked else AlreadyRevoked;
      Revoke(family, at);
    }

    method RevokeAll(e: Everywhere) returns (refusal: Option<Refusal>)
      requires Valid() && Feasible(State(), LogoutEverywhere(e))
      modifies `accounts, `sessions, `bumps
      ensures Valid() && State() == RevokeEverywhere(old(State()), e)
      ensures refusal == RevokeAllRefusal(old(accounts), old(sessions), e)
    {
      ApplyKeeps(State(), LogoutEverywhere(e));
      refusal := RevokeAllRefusal(accounts, sessions, e);
      if refusal.Some? { return; }
      var account := sessions[e.session].account;
      RevokeAccount(account, accounts[account].status, e.bumpedAt, e.revokedAt, None);
    }

    /** authenticate, and with `reseal` inspect; both answer only for a usable session. */
    method Authenticate(u: Use) returns (accepted: bool)
      requires Valid() && Feasible(State(), UseOf(u))
      modifies `sessions
      ensures Valid() && State() == UseSession(old(State()), u)
      ensures accepted <==> MayUse(old(accounts), old(sessions), u)
    {
      UseKeeps(State(), u);
      accepted := MayUse(accounts, sessions, u);
      if !accepted { return; }
      var s := sessions[u.session];
      if u.reseal { s := Resealed(u.session, s, u.keys); }
      if u.extend { s := Touched(s, u.clock); }
      sessions := sessions[u.session := s];
    }

    /** setAccountStatus in src/human-administration.ts. */
    method SetAccountStatus(account: Id, status: Status, at: int, revokedAt: int) returns (updated: bool)
      requires Valid() && Feasible(State(), Step.SetAccountStatus(account, status, at, revokedAt))
      modifies `accounts, `sessions, `bumps
      ensures Valid() && State() == SetStatus(old(State()), account, status, at, revokedAt)
      ensures updated <==> account in old(accounts) && old(accounts)[account].status != Disabled
    {
      ApplyKeeps(State(), Step.SetAccountStatus(account, status, at, revokedAt));
      updated := account in accounts && accounts[account].status != Disabled;
      if updated { RevokeAccount(account, status, at, revokedAt, None); }
    }
  }
}
