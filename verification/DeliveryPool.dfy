/** The pool of runDeliveryBatch (src/jobs/deliver-invitations.ts, lines 341-405): workers that
    take claims from a shared cursor between awaits, in whatever order the awaits resume. */
module DeliveryPool {
  import opened Sequences

  datatype Channel = Email | Sms

  datatype Outcome = Delivered | Retried | DeadLettered | Deferred | Stale

  /** A worker looks at the cursor, awaits the outcome of a claim, or has left the loop. */
  datatype Worker = Looking | Busy(claim: nat) | Left

  datatype Outcomes = Outcomes(delivered: nat, retry: nat, deadLetter: nat, deferred: nat, stale: nat, email: nat, sms: nat)

  const NONE: Outcomes := Outcomes(0, 0, 0, 0, 0, 0, 0)

  function WithChannel(o: Outcomes, channel: Channel): Outcomes {
    match channel
    case Email => o.(email := o.email + 1)
    case Sms => o.(sms := o.sms + 1)
  }

  function WithOutcome(o: Outcomes, outcome: Outcome): Outcomes {
    match outcome
    case Delivered => o.(delivered := o.delivered + 1)
    case Retried => o.(retry := o.retry + 1)
    case DeadLettered => o.(deadLetter := o.deadLetter + 1)
    case Deferred => o.(deferred := o.deferred + 1)
    case Stale => o.(stale := o.stale + 1)
  }

  /** The claims not yet settled are those that workers are busy with. */
  ghost predicate Accounted(workers: seq<Worker>, cursor: nat, settled: map<nat, Outcome>) {
    && (forall c | c in settled :: c < cursor)
    && (forall w | 0 <= w < |workers| && workers[w].Busy? :: workers[w].claim < cursor && workers[w].claim !in settled)
    && (forall v, w | 0 <= v < w < |workers| && workers[v].Busy? && workers[w].Busy? :: workers[v].claim != workers[w].claim)
    && (forall c | 0 <= c < cursor && c !in settled :: HasWorker(workers, c))
  }

  ghost predicate HasWorker(workers: seq<Worker>, c: nat) {
    exists w | 0 <= w < |workers| :: workers[w] == Busy(c)
  }

  function CountOf(settled: map<nat, Outcome>, outcome: Outcome): set<nat> {
    set c | c in settled && settled[c] == outcome
  }

  ghost predicate Counted(o: Outcomes, settled: map<nat, Outcome>) {
    && o.delivered == |CountOf(settled, Delivered)| && o.retry == |CountOf(settled, Retried)|
    && o.deadLetter == |CountOf(settled, DeadLettered)| && o.deferred == |CountOf(settled, Deferred)|
    && o.stale == |CountOf(settled, Stale)|
  }

  function OnChannel(channel: Channel): Channel -> int {
    (c: Channel) => if c == channel then 1 else 0
  }

  lemma CountSettled(settled: map<nat, Outcome>, c: nat, outcome: Outcome, other: Outcome)
    requires c !in settled
    ensures |CountOf(settled[c := outcome], other)| == |CountOf(settled, other)| + if other == outcome then 1 else 0
  {
    assert CountOf(settled[c := outcome], other) == CountOf(settled, other) + if other == outcome then {c} else {};
  }

  lemma SettleCounts(o: Outcomes, settled: map<nat, Outcome>, c: nat, outcome: Outcome)
    requires c !in settled && Counted(o, settled)
    ensures Counted(WithOutcome(o, outcome), settled[c := outcome])
  {
    CountSettled(settled, c, outcome, Delivered);
    CountSettled(settled, c, outcome, Retried);
    CountSettled(settled, c, outcome, DeadLettered);
    CountSettled(settled, c, outcome, Deferred);
    CountSettled(settled, c, outcome, Stale);
  }

  /** Whatever a worker that was not busy turns to, the others keep their claims. */
  lemma StillBusy(workers: seq<Worker>, w: nat, next: Worker, cursor: nat, settled: map<nat, Outcome>)
    requires w < |workers| && !workers[w].Busy? && Accounted(workers, cursor, settled)
    ensures forall c | 0 <= c < cursor && c !in settled :: HasWorker(workers[w := next], c)
  {
    forall c | 0 <= c < cursor && c !in settled ensures HasWorker(workers[w := next], c) {
      assert HasWorker(workers, c);
      var v :| 0 <= v < |workers| && workers[v] == Busy(c);
      assert workers[w := next][v] == Busy(c);
    }
  }

  lemma NewlyBusy(workers: seq<Worker>, w: nat, claim: nat, settled: map<nat, Outcome>)
    requires w < |workers| && !workers[w].Busy? && Accounted(workers, claim, settled)
    ensures Accounted(workers[w := Busy(claim)], claim + 1, settled)
  {
    StillBusy(workers, w, Busy(claim), claim, settled);
    assert workers[w := Busy(claim)][w] == Busy(claim);
  }

  lemma NextChannel(claims: seq<Channel>, cursor: nat)
    requires cursor < |claims|
    ensures forall c :: SumOver(claims[..cursor + 1], OnChannel(c)) ==
                        SumOver(claims[..cursor], OnChannel(c)) + if claims[cursor] == c then 1 else 0
  {
    assert claims[..cursor + 1][..cursor] == claims[..cursor];
  }

  class Pool {
    const claims: seq<Channel>
    var cursor: nat
    var workers: seq<Worker>
    var outcomes: Outcomes
    // How each claim was settled.
    ghost var settled: map<nat, Outcome>

    ghost predicate Valid()
      reads this
    {
      && cursor <= |claims|
      && Accounted(workers, cursor, settled)
      && Counted(outcomes, settled)
      && outcomes.email == SumOver(claims[..cursor], OnChannel(Email))
      && outcomes.sms == SumOver(claims[..cursor], OnChannel(Sms))
      && (|workers| == 0 ==> |claims| == 0)
      && (forall w | 0 <= w < |workers| && workers[w].Left? :: cursor == |claims|)
    }

    constructor (claims: seq<Channel>, concurrency: nat)
      requires concurrency >= 1
      ensures Valid() && this.claims == claims && cursor == 0 && outcomes == NONE && settled == map[]
      ensures workers == seq(if concurrency <= |claims| then concurrency else |claims|, _ => Looking)
    {
      this.claims := claims;
      cursor, outcomes, settled := 0, NONE, map[];
      workers := seq(if concurrency <= |claims| then concurrency else |claims|, _ => Looking);
    }

    /** A worker finds the cursor at the end. */
    method Leave(w: nat)
      requires Valid() && w < |workers| && workers[w].Looking? && cursor == |claims|
      modifies `workers
      ensures Valid() && workers == old(workers)[w := Left]
    {
      StillBusy(workers, w, Left, cursor, settled);
      workers := workers[w := Left];
    }

    /** A worker takes the claim at the cursor and goes on to await its outcome. */
    method Take(w: nat)
      requires Valid() && w < |workers| && workers[w].Looking? && cursor < |claims|
      modifies `workers, `cursor, `outcomes
      ensures Valid() && cursor == old(cursor) + 1 && old(cursor) !in settled
      ensures workers == old(workers)[w := Busy(old(cursor))]
      ensures outcomes == WithChannel(old(outcomes), claims[old(cursor)])
    {
      NewlyBusy(workers, w, cursor, settled);
      NextChannel(claims, cursor);
      workers := workers[w := Busy(cursor)];
      outcomes := WithChannel(outcomes, claims[cursor]);
      cursor := cursor + 1;
    }

    /** A worker takes a claim whose lease is already lost, and settles it at once. */
    method TakeLost(w: nat)
      requires Valid() && w < |workers| && workers[w].Looking? && cursor < |claims|
      modifies `cursor, `outcomes, `settled
      ensures Valid() && cursor == old(cursor) + 1 && old(cursor) !in old(settled)
      ensures settled == old(settled)[old(cursor) := Stale]
      ensures outcomes == WithOutcome(WithChannel(old(outcomes), claims[old(cursor)]), Stale)
    {
      NextChannel(claims, cursor);
      outcomes := WithChannel(outcomes, claims[cursor]);
      Settled(cursor, Stale);
      cursor := cursor + 1;
    }

    /** One turn of a worker's loop up to its first await. */
    method Turn(w: nat, lost: bool)
      requires Valid() && w < |workers| && workers[w].Looking?
      modifies this
      ensures Valid()
      ensures cursor == if old(cursor) == |claims| then |claims| else old(cursor) + 1
      ensures workers == old(workers)[w := if old(cursor) == |claims| then Left
                                           else if lost then Looking else Busy(old(cursor))]
    {
      if cursor == |claims| {
        Leave(w);
      } else if lost {
        TakeLost(w);
      } else {
        Take(w);
      }
    }

    method Settled(claim: nat, outcome: Outcome)
      requires claim !in settled && Counted(outcomes, settled)
      modifies `outcomes, `settled
      ensures outcomes == WithOutcome(old(outcomes), outcome) && settled == old(settled)[claim := outcome]
      ensures Counted(outcomes, settled)
    {
      SettleCounts(outcomes, settled, claim, outcome);
      outcomes := WithOutcome(outcomes, outcome);
      settled := settled[claim := outcome];
    }

    /** A worker's awaits are over: its claim has an outcome, and it looks for the next. */
    method Finish(w: nat, outcome: Outcome)
      requires Valid() && w < |workers| && workers[w].Busy?
      modifies this
      ensures Valid() && cursor == old(cursor)
      ensures old(workers[w].claim) !in old(settled)
      ensures settled == old(settled)[old(workers[w].claim) := outcome]
      ensures workers == old(workers)[w := Looking] && outcomes == WithOutcome(old(outcomes), outcome)
    {
      var claim := workers[w].claim;
      Settled(claim, outcome);
      forall c | 0 <= c < cursor && c !in settled ensures HasWorker(workers[w := Looking], c) {
        assert HasWorker(workers, c);
        var v :| 0 <= v < |workers| && workers[v] == Busy(c);
        assert workers[w := Looking][v] == Busy(c);
      }
      workers := workers[w := Looking];
    }
  }

  lemma {:induction false} ChannelsAdd(claims: seq<Channel>)
    ensures SumOver(claims, OnChannel(Email)) + SumOver(claims, OnChannel(Sms)) == |claims|
  {
    if claims != [] { ChannelsAdd(claims[..|claims| - 1]); }
  }

  ghost predicate AllSettled(settled: map<nat, Outcome>, n: nat) {
    forall c :: c in settled <==> 0 <= c < n
  }

  function First(n: nat): (s: set<nat>)
    ensures |s| == n && forall c :: c in s <==> 0 <= c < n
  {
    if n == 0 then {} else First(n - 1) + {n - 1}
  }

  lemma Partition(settled: map<nat, Outcome>)
    ensures |settled.Keys| == |CountOf(settled, Delivered)| + |CountOf(settled, Retried)| + |CountOf(settled, DeadLettered)|
                              + |CountOf(settled, Deferred)| + |CountOf(settled, Stale)|
  {
    var a, b, c, d, e := CountOf(settled, Delivered), CountOf(settled, Retried), CountOf(settled, DeadLettered),
                         CountOf(settled, Deferred), CountOf(settled, Stale);
    forall k | k in settled.Keys ensures k in a + b + c + d + e {
      match settled[k] case Delivered => case Retried => case DeadLettered => case Deferred => case Stale =>
    }
    assert settled.Keys == a + b + c + d + e;
    DisjointSizes(a, b, c, d, e);
  }

  lemma DisjointSizes(a: set<nat>, b: set<nat>, c: set<nat>, d: set<nat>, e: set<nat>)
    requires a !! b !! c !! d !! e
    ensures |a + b + c + d + e| == |a| + |b| + |c| + |d| + |e|
  {
    assert |a + b| == |a| + |b|;
    assert |a + b + c| == |a + b| + |c|;
    assert |a + b + c + d| == |a + b + c| + |d|;
  }

  lemma OutcomesAdd(settled: map<nat, Outcome>, o: Outcomes, n: nat)
    requires Counted(o, settled) && AllSettled(settled, n)
    ensures o.delivered + o.retry + o.deadLetter + o.deferred + o.stale == n
  {
    assert settled.Keys == First(n);
    Partition(settled);
  }

  /** Whatever the schedule was: when every worker has left, every claim was settled, exactly
      once, and the reported counts add up to the claims, by outcome and by channel. */
  lemma PoolDone(p: Pool)
    requires p.Valid() && forall w | 0 <= w < |p.workers| :: p.workers[w].Left?
    ensures AllSettled(p.settled, |p.claims|)
    ensures var o := p.outcomes;
            && o.delivered + o.retry + o.deadLetter + o.deferred + o.stale == |p.claims|
            && o.email + o.sms == |p.claims|
  {
    if |p.workers| > 0 { assert p.workers[0].Left?; }
    assert p.cursor == |p.claims|;
    forall c: nat ensures !HasWorker(p.workers, c) {}
    OutcomesAdd(p.settled, p.outcomes, |p.claims|);
    ChannelsAdd(p.claims);
    assert p.claims[..p.cursor] == p.claims;
  }

  /** Until then some worker can move: the pool never waits on itself. */
  lemma PoolMoves(p: Pool)
    requires p.Valid() && !AllSettled(p.settled, |p.claims|)
    ensures exists w :: 0 <= w < |p.workers| && !p.workers[w].Left?
  {
    if forall w | 0 <= w < |p.workers| :: p.workers[w].Left? { PoolDone(p); }
  }
}
