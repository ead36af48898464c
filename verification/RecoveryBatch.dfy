/** One claim transaction of the recovery worker for a whole batch
    (src/jobs/process-recovery-revocations.ts, lines 107-156): its three statements as runs of
    row changes, and the claims it returns. */
module RecoveryBatch {
  import opened Optional
  import opened Sorting
  import opened SessionModel
  import opened RecoveryInbox

  /** A row a statement picked, the token drawn for it, and the clock when it is changed. */
  datatype Pick = Pick(id: Id, token: nat, at: int)

  function ToExpire(): Pick -> InboxStep {
    (p: Pick) => ExpireRow(p.id, p.at)
  }

  function ToExhaust(): Pick -> InboxStep {
    (p: Pick) => ExhaustRow(p.id, p.at)
  }

  function ToClaim(owner: string): Pick -> InboxStep {
    (p: Pick) => ClaimRow(p.id, owner, p.token, p.at)
  }

  /** The transaction as a run. */
  function ClaimSteps(overdue: seq<Pick>, exhausted: seq<Pick>, due: seq<Pick>, owner: string): seq<InboxStep> {
    Map(overdue, ToExpire()) + Map(exhausted, ToExhaust()) + Map(due, ToClaim(owner))
  }

  /** Rows are picked once each; tokens are drawn once. */
  ghost predicate Drawn(picks: seq<Pick>, tokens: set<nat>) {
    && (forall i, j | 0 <= i < j < |picks| :: picks[i].id != picks[j].id && picks[i].token != picks[j].token)
    && (forall i | 0 <= i < |picks| :: picks[i].token !in tokens)
  }

  lemma DrawnNext(picks: seq<Pick>, k: nat, tokens: set<nat>, later: set<nat>)
    requires k < |picks| && Drawn(picks[k..], tokens) && later <= tokens + {picks[k].token}
    ensures picks[k].token !in tokens && Drawn(picks[k + 1..], later)
  {
    var rest, next := picks[k..], picks[k + 1..];
    assert rest[0] == picks[k] && rest[1..] == next;
    forall i | 0 <= i < |next| ensures next[i].token !in later { assert next[i] == rest[i + 1]; }
    forall i, j | 0 <= i < j < |next| ensures next[i].id != next[j].id && next[i].token != next[j].token {
      assert next[i] == rest[i + 1] && next[j] == rest[j + 1];
    }
  }

  lemma {:induction false} RunConcat(inbox: Inbox, a: seq<InboxStep>, b: seq<InboxStep>, config: Config)
    ensures RunInbox(inbox, a + b, config) == RunInbox(RunInbox(inbox, a, config), b, config)
    decreases |a|
  {
    if a == [] {
      assert a + b == b;
    } else {
      assert (a + b)[0] == a[0] && (a + b)[1..] == a[1..] + b;
      RunConcat(ApplyInbox(inbox, a[0], config), a[1..], b, config);
    }
  }

  lemma RunNext(inbox: Inbox, steps: seq<InboxStep>, k: nat, config: Config)
    requires k < |steps|
    ensures RunInbox(inbox, steps[k..], config) == RunInbox(ApplyInbox(inbox, steps[k], config), steps[k + 1..], config)
  {
    assert steps[k..][0] == steps[k] && steps[k..][1..] == steps[k + 1..];
  }

  // ----- What it returns -----

  function Taken(inbox: Inbox, p: Pick, owner: string, config: Config): Option<Claim> {
    if p.id in inbox.events && Claimable(inbox.events[p.id], config.maxAttempts, p.at)
    then Some(Claim(p.id, inbox.events[p.id].account, inbox.events[p.id].attempts + 1, owner, p.token))
    else None
  }

  function Listed(claim: Option<Claim>): seq<Claim> {
    if claim.Some? then [claim.value] else []
  }

  /** RETURNING, row by row. */
  ghost function ClaimsOf(inbox: Inbox, picks: seq<Pick>, owner: string, config: Config): seq<Claim>
    decreases |picks|
  {
    if picks == [] then []
    else Listed(Taken(inbox, picks[0], owner, config))
         + ClaimsOf(TakeClaim(inbox, picks[0].id, owner, picks[0].token, config, picks[0].at), picks[1..], owner, config)
  }

  lemma ClaimsNext(inbox: Inbox, picks: seq<Pick>, k: nat, owner: string, config: Config)
    requires k < |picks|
    ensures ClaimsOf(inbox, picks[k..], owner, config)
            == Listed(Taken(inbox, picks[k], owner, config))
               + ClaimsOf(TakeClaim(inbox, picks[k].id, owner, picks[k].token, config, picks[k].at), picks[k + 1..], owner, config)
  {
    assert picks[k..][0] == picks[k] && picks[k..][1..] == picks[k + 1..];
  }

  /** The rows from `k` on are still to be leased. */
  ghost predicate LeaseRest(
    before: Inbox, inbox: Inbox, picks: seq<Pick>, owner: string, config: Config, k: nat, taken: seq<Claim>)
  {
    var steps := Map(picks, ToClaim(owner));
    && k <= |picks| && Drawn(picks[k..], inbox.tokens)
    && RunInbox(inbox, steps[k..], config) == RunInbox(before, steps, config)
    && taken + ClaimsOf(inbox, picks[k..], owner, config) == ClaimsOf(before, picks, owner, config)
  }

  lemma LeaseFirst(before: Inbox, picks: seq<Pick>, owner: string, config: Config)
    requires Drawn(picks, before.tokens)
    ensures LeaseRest(before, before, picks, owner, config, 0, [])
  {
    assert picks[0..] == picks && Map(picks, ToClaim(owner))[0..] == Map(picks, ToClaim(owner));
  }

  lemma LeaseNext(before: Inbox, inbox: Inbox, picks: seq<Pick>, owner: string, config: Config, k: nat, taken: seq<Claim>)
    requires k < |picks| && LeaseRest(before, inbox, picks, owner, config, k, taken)
    ensures picks[k].token !in inbox.tokens
    ensures LeaseRest(before, TakeClaim(inbox, picks[k].id, owner, picks[k].token, config, picks[k].at), picks, owner, config,
                      k + 1, taken + Listed(Taken(inbox, picks[k], owner, config)))
  {
    var p := picks[k];
    var after := TakeClaim(inbox, p.id, owner, p.token, config, p.at);
    RunNext(inbox, Map(picks, ToClaim(owner)), k, config);
    ClaimsNext(inbox, picks, k, owner, config);
    DrawnNext(picks, k, inbox.tokens, after.tokens);
    Regroup(taken, Listed(Taken(inbox, p, owner, config)), ClaimsOf(after, picks[k + 1..], owner, config));
  }

  lemma Regroup(a: seq<Claim>, b: seq<Claim>, c: seq<Claim>)
    ensures a + (b + c) == a + b + c
  {
  }

  ghost predicate Elsewhere(picks: seq<Pick>, id: Id) {
    forall i | 0 <= i < |picks| :: picks[i].id != id
  }

  /** Claiming leaves every other row alone, and forgets no token. */
  lemma {:induction false} OthersUnclaimed(inbox: Inbox, picks: seq<Pick>, owner: string, config: Config, id: Id)
    requires id in inbox.events && Elsewhere(picks, id)
    ensures var later := RunInbox(inbox, Map(picks, ToClaim(owner)), config);
            id in later.events && later.events[id] == inbox.events[id] && inbox.tokens <= later.tokens
    decreases |picks|
  {
    if picks != [] {
      FirstClaim(inbox, picks, owner, config);
      OthersUnclaimed(TakeClaim(inbox, picks[0].id, owner, picks[0].token, config, picks[0].at), picks[1..], owner, config, id);
    }
  }

  lemma FirstClaim(inbox: Inbox, picks: seq<Pick>, owner: string, config: Config)
    requires picks != []
    ensures RunInbox(inbox, Map(picks, ToClaim(owner)), config)
            == RunInbox(TakeClaim(inbox, picks[0].id, owner, picks[0].token, config, picks[0].at),
                        Map(picks[1..], ToClaim(owner)), config)
  {
    var steps := Map(picks, ToClaim(owner));
    assert steps[1..] == Map(picks[1..], ToClaim(owner));
  }

  ghost predicate HeldAfter(inbox: Inbox, c: Claim) {
    c.event in inbox.events && Genuine(inbox, c) && Holds(inbox.events[c.event], c)
  }

  lemma TakenHeld(inbox: Inbox, p: Pick, rest: seq<Pick>, owner: string, config: Config)
    requires Taken(inbox, p, owner, config).Some? && Elsewhere(rest, p.id)
    ensures var taken := TakeClaim(inbox, p.id, owner, p.token, config, p.at);
            HeldAfter(RunInbox(taken, Map(rest, ToClaim(owner)), config), Taken(inbox, p, owner, config).value)
  {
    OthersUnclaimed(TakeClaim(inbox, p.id, owner, p.token, config, p.at), rest, owner, config, p.id);
  }

  /** Every claim returned holds its row when the transaction commits, and tells its account and
      attempts truly. */
  lemma {:induction false} ReturnedHold(inbox: Inbox, picks: seq<Pick>, owner: string, config: Config, c: Claim)
    requires Drawn(picks, inbox.tokens) && c in ClaimsOf(inbox, picks, owner, config)
    ensures HeldAfter(RunInbox(inbox, Map(picks, ToClaim(owner)), config), c)
    decreases |picks|
  {
    if picks != [] {
      var p, rest := picks[0], picks[1..];
      FirstClaim(inbox, picks, owner, config);
      if c in Listed(Taken(inbox, p, owner, config)) {
        TakenHeld(inbox, p, rest, owner, config);
      } else {
        ReturnedHold(TakeClaim(inbox, p.id, owner, p.token, config, p.at), rest, owner, config, c);
      }
    }
  }

  /** And exactly the rows that could be claimed are. */
  lemma {:induction false} ReturnedExactly(inbox: Inbox, picks: seq<Pick>, owner: string, config: Config, id: Id)
    requires Drawn(picks, inbox.tokens)
    ensures (exists c | c in ClaimsOf(inbox, picks, owner, config) :: c.event == id)
            <==> exists p | p in picks && p.id == id :: Taken(inbox, p, owner, config).Some?
    decreases |picks|
  {
    if picks != [] {
      var p, rest := picks[0], picks[1..];
      var next := TakeClaim(inbox, p.id, owner, p.token, config, p.at);
      ReturnedExactly(next, rest, owner, config, id);
      ReturnedFirst(inbox, picks, next, owner, config, id);
    }
  }

  lemma ReturnedFirst(inbox: Inbox, picks: seq<Pick>, next: Inbox, owner: string, config: Config, id: Id)
    requires Drawn(picks, inbox.tokens) && picks != []
    requires next == TakeClaim(inbox, picks[0].id, owner, picks[0].token, config, picks[0].at)
    ensures (exists p | p in picks && p.id == id :: Taken(inbox, p, owner, config).Some?)
            <==> (picks[0].id == id && Taken(inbox, picks[0], owner, config).Some?)
                 || exists p | p in picks[1..] && p.id == id :: Taken(next, p, owner, config).Some?
  {
    forall p | p in picks[1..] ensures Taken(next, p, owner, config) == Taken(inbox, p, owner, config) {
      assert p.id != picks[0].id;
    }
    assert picks == [picks[0]] + picks[1..];
  }

  // ----- It keeps the inbox -----

  lemma {:induction false} ClaimsFeasible(inbox: Inbox, picks: seq<Pick>, owner: string, config: Config)
    requires Drawn(picks, inbox.tokens)
    ensures FeasibleSteps(inbox, Map(picks, ToClaim(owner)), config)
    decreases |picks|
  {
    if picks != [] {
      var p := picks[0];
      assert Map(picks, ToClaim(owner))[1..] == Map(picks[1..], ToClaim(owner));
      ClaimsFeasible(TakeClaim(inbox, p.id, owner, p.token, config, p.at), picks[1..], owner, config);
    }
  }

  ghost predicate Sweeps(steps: seq<InboxStep>) {
    forall i | 0 <= i < |steps| :: steps[i].ExpireRow? || steps[i].ExhaustRow?
  }

  /** Sweeping comes before any claiming, and draws no token. */
  lemma {:induction false} SweepsFeasible(inbox: Inbox, sweeps: seq<InboxStep>, picks: seq<Pick>, owner: string, config: Config)
    requires Sweeps(sweeps) && Drawn(picks, inbox.tokens)
    ensures FeasibleSteps(inbox, sweeps + Map(picks, ToClaim(owner)), config)
    decreases |sweeps|
  {
    var claims := Map(picks, ToClaim(owner));
    if sweeps == [] {
      assert sweeps + claims == claims;
      ClaimsFeasible(inbox, picks, owner, config);
    } else {
      assert (sweeps + claims)[0] == sweeps[0] && (sweeps + claims)[1..] == sweeps[1..] + claims;
      SweepsFeasible(ApplyInbox(inbox, sweeps[0], config), sweeps[1..], picks, owner, config);
    }
  }

  /** The transaction is a run that RecoveryInbox's theorems are about. */
  lemma BatchFeasible(inbox: Inbox, overdue: seq<Pick>, exhausted: seq<Pick>, due: seq<Pick>, owner: string, config: Config)
    requires Drawn(due, inbox.tokens)
    ensures FeasibleSteps(inbox, ClaimSteps(overdue, exhausted, due, owner), config)
  {
    SweepsFeasible(inbox, Map(overdue, ToExpire()) + Map(exhausted, ToExhaust()), due, owner, config);
  }
}
