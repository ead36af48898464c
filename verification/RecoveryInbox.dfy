/** Recovery events: the webhook inbox (src/human-administration.ts, processRecoveryWebhook) and
    the worker that claims events under leases and revokes sessions for them
    (src/jobs/process-recovery-revocations.ts). */
module RecoveryInbox {
  import opened Optional
  import opened Sequences
  import opened SessionModel
  import opened SessionTransactions
  import opened SessionTheorems

  const EVENT_TTL_MS: int := 900_000

  datatype EventStatus = Pending | Retry | Processing | Acknowledged | Failed | Expired

  datatype Lease = Lease(owner: string, token: nat, expiresAt: int)

  datatype Event = Event(
    issuer: string, eventId: string, digest: nat, account: Option<Id>, expiresAt: int,
    status: EventStatus, attempts: nat, nextAttemptAt: int, lease: Option<Lease>)

  /** What a claim returned to the worker, which may act on it much later or never. */
  datatype Claim = Claim(event: Id, account: Option<Id>, attempts: nat, owner: string, token: nat)

  // The rows, the session tables, and the history: every claim made, every acknowledgement, and
  // every lease token ever drawn.
  datatype Inbox = Inbox(events: map<Id, Event>, db: Db, claims: seq<Id>, effects: seq<Id>, tokens: set<nat>)

  datatype Config = Config(maxAttempts: nat, leaseMs: nat)

  predicate Open(e: Event) {
    e.status == Pending || e.status == Retry || e.status == Processing
  }

  // ----- The webhook -----

  /** `signed` stands for signature, clock skew, lengths and issuer all in order. */
  datatype Webhook = Webhook(
    signed: bool, issuer: string, eventId: string, digest: nat, account: Option<Id>, row: Id, now: int)

  datatype Receipt = Receipt(accepted: bool, replayed: bool)

  predicate SameKey(e: Event, w: Webhook) {
    e.issuer == w.issuer && e.eventId == w.eventId
  }

  predicate Conflicts(e: Event, w: Webhook) {
    SameKey(e, w) || e.digest == w.digest
  }

  ghost predicate AnyConflict(events: map<Id, Event>, w: Webhook) {
    exists i | i in events :: Conflicts(events[i], w)
  }

  function NewEvent(w: Webhook): Event {
    Event(w.issuer, w.eventId, w.digest, w.account, w.now + EVENT_TTL_MS, Pending, 0, w.now, None)
  }

  ghost function Receive(inbox: Inbox, w: Webhook): Inbox {
    if !w.signed || AnyConflict(inbox.events, w) then inbox
    else inbox.(events := inbox.events[w.row := NewEvent(w)])
  }

  /** A redelivery is accepted again when it is the same event, and refused when another event
      already has its id or digest. */
  ghost function ReceiptFor(inbox: Inbox, w: Webhook): Receipt {
    if !w.signed then Receipt(false, false)
    else if !AnyConflict(inbox.events, w) then Receipt(true, false)
    else Receipt(exists i | i in inbox.events :: SameKey(inbox.events[i], w) && inbox.events[i].digest == w.digest, true)
  }

  // ----- The worker's row changes -----

  predicate Expirable(e: Event, now: int) {
    Open(e) && e.expiresAt <= now
  }

  predicate Exhausted(e: Event, max: nat, now: int) {
    e.status == Processing && e.lease.Some? && e.lease.value.expiresAt <= now && e.attempts >= max && e.expiresAt > now
  }

  predicate Claimable(e: Event, max: nat, now: int) {
    && e.attempts < max && e.expiresAt > now
    && (((e.status == Pending || e.status == Retry) && e.nextAttemptAt <= now)
        || (e.status == Processing && e.lease.Some? && e.lease.value.expiresAt <= now))
  }

  predicate Holds(e: Event, c: Claim) {
    e.status == Processing && e.lease.Some? && e.lease.value.owner == c.owner && e.lease.value.token == c.token
  }

  function PutEvent(inbox: Inbox, id: Id, e: Event): Inbox {
    inbox.(events := inbox.events[id := e])
  }

  function Expire(inbox: Inbox, id: Id, now: int): Inbox {
    if id !in inbox.events || !Expirable(inbox.events[id], now) then inbox
    else PutEvent(inbox, id, inbox.events[id].(status := Expired, lease := None))
  }

  function Exhaust(inbox: Inbox, id: Id, max: nat, now: int): Inbox {
    if id !in inbox.events || !Exhausted(inbox.events[id], max, now) then inbox
    else PutEvent(inbox, id, inbox.events[id].(status := Failed, lease := None))
  }

  function Leased(e: Event, owner: string, token: nat, expiresAt: int): Event {
    e.(status := Processing, attempts := e.attempts + 1, lease := Some(Lease(owner, token, expiresAt)))
  }

  function TakeClaim(inbox: Inbox, id: Id, owner: string, token: nat, config: Config, now: int): Inbox {
    if id !in inbox.events || !Claimable(inbox.events[id], config.maxAttempts, now) then inbox
    else inbox.(events := inbox.events[id := Leased(inbox.events[id], owner, token, now + config.leaseMs)],
                claims := inbox.claims + [id], tokens := inbox.tokens + {token})
  }

  predicate MayAcknowledge(events: map<Id, Event>, c: Claim, now: int) {
    && c.event in events && Holds(events[c.event], c)
    && events[c.event].lease.value.expiresAt > now && events[c.event].expiresAt > now
  }

  /** The adapter; an event matched to no account has nothing to revoke. */
  function Effect(db: Db, account: Option<Id>, bumpedAt: int, revokedAt: int): Db {
    match account
    case None => db
    case Some(a) => ProviderRecovery(db, a, bumpedAt, revokedAt)
  }

  /** Effect and acknowledgement are one transaction: a timeout, a refusal or an error of the
      adapter rolls back both. */
  function Acknowledge(inbox: Inbox, c: Claim, now: int, bumpedAt: int, revokedAt: int): Inbox {
    if !MayAcknowledge(inbox.events, c, now) then inbox
    else
      inbox.(events := inbox.events[c.event := inbox.events[c.event].(status := Acknowledged, lease := None)],
             db := Effect(inbox.db, c.account, bumpedAt, revokedAt), effects := inbox.effects + [c.event])
  }

  function Fail(inbox: Inbox, c: Claim, config: Config, delayMs: nat, now: int): Inbox {
    if c.event !in inbox.events || !Holds(inbox.events[c.event], c) then inbox
    else PutEvent(inbox, c.event, inbox.events[c.event].(
        status := if c.attempts >= config.maxAttempts then Failed else Retry,
        nextAttemptAt := now + delayMs, lease := None))
  }

  // ----- Steps -----

  datatype InboxStep =
    | Received(webhook: Webhook)
    | ExpireRow(id: Id, at: int)
    | ExhaustRow(id: Id, at: int)
    | ClaimRow(id: Id, owner: string, token: nat, at: int)
    | AcknowledgeClaim(claim: Claim, now: int, bumpedAt: int, revokedAt: int)
    | FailClaim(claim: Claim, delayMs: nat, at: int)
    | Site(step: Step)

  ghost function ApplyInbox(inbox: Inbox, step: InboxStep, config: Config): Inbox {
    match step
    case Received(w) => Receive(inbox, w)
    case ExpireRow(id, at) => Expire(inbox, id, at)
    case ExhaustRow(id, at) => Exhaust(inbox, id, config.maxAttempts, at)
    case ClaimRow(id, owner, token, at) => TakeClaim(inbox, id, owner, token, config, at)
    case AcknowledgeClaim(c, now, bumpedAt, revokedAt) => Acknowledge(inbox, c, now, bumpedAt, revokedAt)
    case FailClaim(c, delayMs, at) => Fail(inbox, c, config, delayMs, at)
    case Site(s) => inbox.(db := Apply(inbox.db, s))
  }

  /** A claim as TakeClaim made it: workers hold no others. */
  ghost predicate Genuine(inbox: Inbox, c: Claim) {
    c.token in inbox.tokens
    && (c.event in inbox.events && Holds(inbox.events[c.event], c) ==>
          c.attempts == inbox.events[c.event].attempts && c.account == inbox.events[c.event].account)
  }

  ghost predicate FeasibleStep(inbox: Inbox, step: InboxStep) {
    match step
    case Received(w) => w.row !in inbox.events && (w.account.Some? ==> w.account.value in inbox.db.accounts)
    case ClaimRow(_, _, token, _) => token !in inbox.tokens
    case AcknowledgeClaim(c, _, bumpedAt, _) => Genuine(inbox, c) && NotAfter(inbox.db.accounts, bumpedAt)
    case FailClaim(c, _, _) => Genuine(inbox, c)
    case Site(s) => Feasible(inbox.db, s)
    case _ => true
  }

  // ----- The invariant -----

  function Is(id: Id): Id -> int {
    (x: Id) => if x == id then 1 else 0
  }

  predicate EventOk(inbox: Inbox, id: Id, max: nat)
    requires id in inbox.events
  {
    var e := inbox.events[id];
    && e.attempts == SumOver(inbox.claims, Is(id)) && e.attempts <= max
    && SumOver(inbox.effects, Is(id)) == (if e.status == Acknowledged then 1 else 0)
    && (e.status == Processing <==> e.lease.Some?)
    && (e.lease.Some? ==> e.lease.value.token in inbox.tokens && e.attempts >= 1)
    && (e.account.Some? ==> e.account.value in inbox.db.accounts)
  }

  ghost predicate KeysUnique(events: map<Id, Event>) {
    forall i, j | i in events && j in events && i != j ::
      !(events[i].issuer == events[j].issuer && events[i].eventId == events[j].eventId)
      && events[i].digest != events[j].digest
  }

  ghost predicate TokensUnique(events: map<Id, Event>) {
    forall i, j | i in events && j in events && i != j && events[i].lease.Some? && events[j].lease.Some? ::
      events[i].lease.value.token != events[j].lease.value.token
  }

  ghost predicate HistoryOk(inbox: Inbox) {
    (forall x | x in inbox.claims :: x in inbox.events) && (forall x | x in inbox.effects :: x in inbox.events)
  }

  ghost predicate InboxKept(inbox: Inbox, max: nat) {
    && Kept(inbox.db) && HistoryOk(inbox)
    && (forall id | id in inbox.events :: EventOk(inbox, id, max))
    && KeysUnique(inbox.events) && TokensUnique(inbox.events)
  }

  lemma {:induction false} Absent(s: seq<Id>, id: Id)
    requires id !in s
    ensures SumOver(s, Is(id)) == 0
  {
    if s != [] {
      assert s[|s| - 1] in s;
      assert forall x | x in s[..|s| - 1] :: x in s;
      Absent(s[..|s| - 1], id);
    }
  }

  lemma Appended(s: seq<Id>, x: Id, id: Id)
    ensures SumOver(s + [x], Is(id)) == SumOver(s, Is(id)) + if x == id then 1 else 0
  {
    assert (s + [x])[..|s|] == s;
  }

  lemma ReceiveKeeps(inbox: Inbox, w: Webhook, max: nat)
    requires InboxKept(inbox, max) && FeasibleStep(inbox, Received(w))
    ensures InboxKept(Receive(inbox, w), max)
  {
    var after := Receive(inbox, w);
    Absent(inbox.claims, w.row);
    Absent(inbox.effects, w.row);
    forall id | id in after.events ensures EventOk(after, id, max) {
      if id in inbox.events { assert EventOk(inbox, id, max); }
    }
  }

  /** A row change that makes no claim and no acknowledgement. */
  lemma PutKeeps(inbox: Inbox, id: Id, e: Event, max: nat)
    requires InboxKept(inbox, max) && id in inbox.events
    requires var b := inbox.events[id];
             Open(b) && e == b.(status := e.status, nextAttemptAt := e.nextAttemptAt, lease := None)
             && e.status != Processing && e.status != Acknowledged
    ensures InboxKept(PutEvent(inbox, id, e), max)
  {
    var after := PutEvent(inbox, id, e);
    forall i | i in after.events ensures EventOk(after, i, max) { assert EventOk(inbox, i, max); }
  }

  lemma ClaimKeeps(inbox: Inbox, id: Id, owner: string, token: nat, config: Config, now: int)
    requires InboxKept(inbox, config.maxAttempts) && token !in inbox.tokens
    ensures InboxKept(TakeClaim(inbox, id, owner, token, config, now), config.maxAttempts)
  {
    var after := TakeClaim(inbox, id, owner, token, config, now);
    if after != inbox {
      forall i | i in after.events ensures EventOk(after, i, config.maxAttempts) {
        assert EventOk(inbox, i, config.maxAttempts);
        Appended(inbox.claims, id, i);
      }
      assert forall i | i in inbox.events :: EventOk(inbox, i, config.maxAttempts);
    }
  }

  lemma ClaimKept(inbox: Inbox, id: Id, owner: string, token: nat, config: Config, now: int, after: Inbox)
    requires InboxKept(inbox, config.maxAttempts) && token !in inbox.tokens
    requires after == TakeClaim(inbox, id, owner, token, config, now)
    ensures InboxKept(after, config.maxAttempts)
  {
    ClaimKeeps(inbox, id, owner, token, config, now);
  }

  lemma EffectKeeps(db: Db, account: Option<Id>, bumpedAt: int, revokedAt: int)
    requires Kept(db) && NotAfter(db.accounts, bumpedAt)
    ensures Kept(Effect(db, account, bumpedAt, revokedAt))
    ensures Effect(db, account, bumpedAt, revokedAt).accounts.Keys == db.accounts.Keys
  {
    if account.Some? { ApplyKeeps(db, RecoveryEvent(account.value, bumpedAt, revokedAt)); }
  }

  lemma AcknowledgeKeeps(inbox: Inbox, c: Claim, now: int, bumpedAt: int, revokedAt: int, max: nat)
    requires InboxKept(inbox, max) && NotAfter(inbox.db.accounts, bumpedAt)
    ensures InboxKept(Acknowledge(inbox, c, now, bumpedAt, revokedAt), max)
  {
    var after := Acknowledge(inbox, c, now, bumpedAt, revokedAt);
    if MayAcknowledge(inbox.events, c, now) {
      EffectKeeps(inbox.db, c.account, bumpedAt, revokedAt);
      forall i | i in after.events ensures EventOk(after, i, max) {
        assert EventOk(inbox, i, max);
        Appended(inbox.effects, c.event, i);
      }
    }
  }

  lemma SiteKeeps(inbox: Inbox, step: Step, max: nat)
    requires InboxKept(inbox, max) && Feasible(inbox.db, step)
    ensures InboxKept(inbox.(db := Apply(inbox.db, step)), max)
  {
    ApplyKeeps(inbox.db, step);
    ApplyExtends(inbox.db, step);
    var after := inbox.(db := Apply(inbox.db, step));
    forall i | i in after.events ensures EventOk(after, i, max) { assert EventOk(inbox, i, max); }
  }

  lemma InboxStepKeeps(inbox: Inbox, step: InboxStep, config: Config)
    requires InboxKept(inbox, config.maxAttempts) && FeasibleStep(inbox, step)
    ensures InboxKept(ApplyInbox(inbox, step, config), config.maxAttempts)
  {
    match step
    case Received(w) => ReceiveKeeps(inbox, w, config.maxAttempts);
    case ExpireRow(id, at) =>
      if id in inbox.events && Expirable(inbox.events[id], at) {
        PutKeeps(inbox, id, inbox.events[id].(status := Expired, lease := None), config.maxAttempts);
      }
    case ExhaustRow(id, at) =>
      if id in inbox.events && Exhausted(inbox.events[id], config.maxAttempts, at) {
        PutKeeps(inbox, id, inbox.events[id].(status := Failed, lease := None), config.maxAttempts);
      }
    case ClaimRow(id, owner, token, at) => ClaimKeeps(inbox, id, owner, token, config, at);
    case AcknowledgeClaim(c, now, bumpedAt, revokedAt) =>
      AcknowledgeKeeps(inbox, c, now, bumpedAt, revokedAt, config.maxAttempts);
    case FailClaim(c, delayMs, at) =>
      if c.event in inbox.events && Holds(inbox.events[c.event], c) {
        PutKeeps(inbox, c.event, Fail(inbox, c, config, delayMs, at).events[c.event], config.maxAttempts);
      }
    case Site(s) => SiteKeeps(inbox, s, config.maxAttempts);
  }

  // ----- Runs -----

  ghost predicate FeasibleSteps(inbox: Inbox, steps: seq<InboxStep>, config: Config)
    decreases |steps|
  {
    steps == []
    || (FeasibleStep(inbox, steps[0]) && FeasibleSteps(ApplyInbox(inbox, steps[0], config), steps[1..], config))
  }

  ghost function RunInbox(inbox: Inbox, steps: seq<InboxStep>, config: Config): Inbox
    decreases |steps|
  {
    if steps == [] then inbox else RunInbox(ApplyInbox(inbox, steps[0], config), steps[1..], config)
  }

  /** Over every run: an event is claimed at most maxAttempts times, counting claims whose worker
      died, takes effect at most once, and exactly when it is acknowledged. */
  lemma {:induction false} RunInboxKeeps(inbox: Inbox, steps: seq<InboxStep>, config: Config)
    requires InboxKept(inbox, config.maxAttempts) && FeasibleSteps(inbox, steps, config)
    ensures InboxKept(RunInbox(inbox, steps, config), config.maxAttempts)
    decreases |steps|
  {
    if steps != [] {
      InboxStepKeeps(inbox, steps[0], config);
      RunInboxKeeps(ApplyInbox(inbox, steps[0], config), steps[1..], config);
    }
  }

  /** Rows are never lost, and acknowledged, failed and expired rows never change again. */
  lemma {:induction false} TerminalForever(inbox: Inbox, steps: seq<InboxStep>, config: Config, id: Id)
    requires FeasibleSteps(inbox, steps, config) && id in inbox.events
    ensures id in RunInbox(inbox, steps, config).events
    ensures !Open(inbox.events[id]) ==> RunInbox(inbox, steps, config).events[id] == inbox.events[id]
    decreases |steps|
  {
    if steps != [] { TerminalForever(ApplyInbox(inbox, steps[0], config), steps[1..], config, id); }
  }

  /** Once a row is not held under a token, that token never holds it again: a superseded worker
      can change nothing, however late it comes back. */
  lemma {:induction false} SupersededForever(inbox: Inbox, steps: seq<InboxStep>, config: Config, id: Id, token: nat)
    requires FeasibleSteps(inbox, steps, config) && token in inbox.tokens
    requires id in inbox.events && (inbox.events[id].lease.Some? ==> inbox.events[id].lease.value.token != token)
    ensures var later := RunInbox(inbox, steps, config);
            && id in later.events
            && (forall c: Claim | c.event == id && c.token == token :: !Holds(later.events[id], c))
            && (forall c: Claim, now, a, b | c.event == id && c.token == token :: Acknowledge(later, c, now, a, b) == later)
            && (forall c: Claim, d, now | c.event == id && c.token == token :: Fail(later, c, config, d, now) == later)
    decreases |steps|
  {
    if steps != [] { SupersededForever(ApplyInbox(inbox, steps[0], config), steps[1..], config, id, token); }
  }

  /** What TakeClaim returns stays a faithful account of the row for as long as it holds it. */
  lemma {:induction false} GenuineForever(inbox: Inbox, steps: seq<InboxStep>, config: Config, c: Claim)
    requires FeasibleSteps(inbox, steps, config) && Genuine(inbox, c)
    requires c.event in inbox.events
    ensures Genuine(RunInbox(inbox, steps, config), c)
    decreases |steps|
  {
    if steps != [] { GenuineForever(ApplyInbox(inbox, steps[0], config), steps[1..], config, c); }
  }

  // ----- Versions and acknowledgements -----

  function VersionOf(db: Db, account: Id): nat {
    if account in db.accounts then db.accounts[account].version else 0
  }

  /** Acknowledged events matched to the account, by the history of acknowledgements. */
  function EffectsOn(events: map<Id, Event>, account: Id): Id -> int {
    (x: Id) => if x in events && events[x].account == Some(account) then 1 else 0
  }

  function AcknowledgedFor(inbox: Inbox, account: Id): int {
    SumOver(inbox.effects, EffectsOn(inbox.events, account))
  }

  /** How much the run's other transactions raised the account's version. */
  ghost function SiteBumps(inbox: Inbox, steps: seq<InboxStep>, config: Config, account: Id): int
    decreases |steps|
  {
    if steps == [] then 0
    else
      var after := ApplyInbox(inbox, steps[0], config);
      (if steps[0].Site? then VersionOf(after.db, account) - VersionOf(inbox.db, account) else 0)
      + SiteBumps(after, steps[1..], config, account)
  }

  lemma {:induction false} SameEffects(effects: seq<Id>, a: map<Id, Event>, b: map<Id, Event>, account: Id)
    requires forall x | x in effects :: x in a && x in b && a[x].account == b[x].account
    ensures SumOver(effects, EffectsOn(a, account)) == SumOver(effects, EffectsOn(b, account))
  {
    if effects != [] {
      var init := effects[..|effects| - 1];
      assert forall x | x in init :: x in effects;
      SameEffects(init, a, b, account);
      assert effects[|effects| - 1] in effects;
    }
  }

  lemma AccountsStay(inbox: Inbox, step: InboxStep, config: Config)
    requires FeasibleStep(inbox, step)
    ensures var after := ApplyInbox(inbox, step, config);
            forall x | x in inbox.events :: x in after.events && after.events[x].account == inbox.events[x].account
  {
  }

  lemma AcknowledgeVersion(inbox: Inbox, c: Claim, now: int, bumpedAt: int, revokedAt: int, max: nat, account: Id)
    requires InboxKept(inbox, max) && Genuine(inbox, c)
    ensures var after := Acknowledge(inbox, c, now, bumpedAt, revokedAt);
            VersionOf(after.db, account) - VersionOf(inbox.db, account)
            == SumOver(after.effects, EffectsOn(inbox.events, account)) - AcknowledgedFor(inbox, account)
  {
    if MayAcknowledge(inbox.events, c, now) {
      assert EventOk(inbox, c.event, max);
      assert (inbox.effects + [c.event])[..|inbox.effects|] == inbox.effects;
    }
  }

  lemma StepVersions(inbox: Inbox, step: InboxStep, config: Config, account: Id)
    requires InboxKept(inbox, config.maxAttempts) && FeasibleStep(inbox, step) && !step.Site?
    ensures var after := ApplyInbox(inbox, step, config);
            VersionOf(after.db, account) - VersionOf(inbox.db, account)
            == AcknowledgedFor(after, account) - AcknowledgedFor(inbox, account)
  {
    var after := ApplyInbox(inbox, step, config);
    AccountsStay(inbox, step, config);
    if step.AcknowledgeClaim? {
      AcknowledgeVersion(inbox, step.claim, step.now, step.bumpedAt, step.revokedAt, config.maxAttempts, account);
      InboxStepKeeps(inbox, step, config);
    }
    SameEffects(after.effects, inbox.events, after.events, account);
  }

  /** Over any run, whatever else raises it, the worker raises an account's version exactly once
      for each of its events that was acknowledged in the run. */
  lemma {:induction false} WorkerBumpsAreAcknowledgements(inbox: Inbox, steps: seq<InboxStep>, config: Config, account: Id)
    requires InboxKept(inbox, config.maxAttempts) && FeasibleSteps(inbox, steps, config)
    ensures var later := RunInbox(inbox, steps, config);
            VersionOf(later.db, account) - VersionOf(inbox.db, account) - SiteBumps(inbox, steps, config, account)
            == AcknowledgedFor(later, account) - AcknowledgedFor(inbox, account)
    decreases |steps|
  {
    if steps != [] {
      var after := ApplyInbox(inbox, steps[0], config);
      InboxStepKeeps(inbox, steps[0], config);
      WorkerBumpsAreAcknowledgements(after, steps[1..], config, account);
      if !steps[0].Site? { StepVersions(inbox, steps[0], config, account); }
    }
  }

  /** The inbox keeps one row per issuer and event id however often the webhook is redelivered:
      a redelivery changes nothing and is accepted exactly when its digest is the stored one. */
  lemma Redelivered(inbox: Inbox, again: Webhook, max: nat, id: Id)
    requires InboxKept(inbox, max) && id in inbox.events && SameKey(inbox.events[id], again) && again.signed
    ensures Receive(inbox, again) == inbox
    ensures ReceiptFor(inbox, again) == Receipt(inbox.events[id].digest == again.digest, true)
  {
    assert Conflicts(inbox.events[id], again);
    forall i | i in inbox.events && SameKey(inbox.events[i], again) ensures i == id {}
  }
}
