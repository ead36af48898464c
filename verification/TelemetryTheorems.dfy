/** What the telemetry producer's snapshots are worth (src/auth-observability.ts, lines 555-632). */
module TelemetryTheorems {
  import opened Optional
  import opened Sequences
  import opened Sorting
  import opened OrderedMaps
  import opened LatencyHistogram
  import opened RolloutContract
  import opened Aggregates
  import opened ClockChain
  import opened GapMarks
  import opened FlushSums
  import opened TelemetryModel

  // ----- The numbers -----

  /** The alert counts with those that flush raises itself. */
  function TrueAlerts(p: Producer): Alerts {
    WithSlos(false, p.history.truth.alerts, RaisedBy(p.sums))
  }

  /** The snapshot's sums are the true sums exactly when each true sum is a safe integer. */
  lemma SnapshotExactly(p: Producer, wall: Reading, monotonic: Reading)
    requires Kept(p)
    ensures var s, t, alerts := SnapshotOf(p, wall, monotonic), p.history.truth, TrueAlerts(p);
            && (s.counters == Map(t.counters, ToCounter()) <==> AllAtMost(t.counters))
            && (s.histograms == Map(t.histograms, ToHistogram()) <==> AllObservedAtMost(t.histograms))
            && (s.alerts == Map(alerts, ToAlertCount()) <==> AllAtMost(alerts))
            && (s.criticalIncidents == SumOver(alerts, CriticalShare()) <==> SumOver(alerts, CriticalShare()) <= MAX_SAFE)
  {
    var cell := Cell(p.instanceId, p.stageId, p.sequence + 1, p.intervalStart, NextClocks(p, wall, monotonic).intervalStart);
    ReportExactly(cell, p.history.truth, p.history.samples, p.history.misfiled, MarkedForFlush(p, wall, monotonic).gaps);
  }

  /** The alerts flush raises are those of evaluateAuthAggregates on the true counts and the raw
      samples, as long as these are safe integers. */
  lemma AlertsExactly(p: Producer)
    requires Kept(p) && p.history.truth.success <= MAX_SAFE && p.history.truth.failure <= MAX_SAFE
    requires |p.history.samples| <= MAX_SAFE
    ensures p.history.truth.success >= 0 && p.history.truth.failure >= 0
    ensures RaisedBy(p.sums)
            == EvaluateAggregates(p.history.truth.success, p.history.truth.failure, p.history.samples)
  {
    CapNonNegative(p.history.truth, p.history.samples, p.history.misfiled);
    RaisedExactly(p.history.truth.success, p.history.truth.failure, p.history.samples);
  }

  /** A healthy snapshot is exact, unless marks left on a snapshot that had waited meanwhile. */
  lemma HealthyIsExact(p: Producer, wall: Reading, monotonic: Reading)
    requires Kept(p) && SnapshotOf(p, wall, monotonic).healthy && !p.history.moved
    ensures AllRepresentable(p.history.truth, p.history.samples)
  {
    MarkedForFlushKeeps(p, wall, monotonic);
    FlushCutsShow(p.history.truth, p.history.samples, p.history.misfiled);
  }

  /** The judge admits it if nothing was cut off or recorded as the wrong kind and its interval does
      not print as empty; FlushSums.ReportAdmitted says exactly when. */
  lemma SnapshotAdmitted(p: Producer, wall: Reading, monotonic: Reading)
    requires Kept(p) && AllRepresentable(p.history.truth, p.history.samples) && !p.history.misfiled
    requires p.sequence < MAX_SAFE && Printed(p.intervalStart) < Printed(NextClocks(p, wall, monotonic).intervalStart)
    ensures ValidSnapshot(SnapshotOf(p, wall, monotonic))
  {
    var cell := Cell(p.instanceId, p.stageId, p.sequence + 1, p.intervalStart, NextClocks(p, wall, monotonic).intervalStart);
    MarkedForFlushKeeps(p, wall, monotonic);
    RepresentableAdmitted(cell, p.history.truth, p.history.samples, MarkedForFlush(p, wall, monotonic).gaps);
  }

  // ----- The gaps -----

  /** The marks flush makes before it takes the snapshot. */
  function FlushMarks(p: Producer, wall: Reading, monotonic: Reading): multiset<GapCode> {
    Whether(Anomalous(ClocksOf(p), wall, monotonic), ClockAnomaly)
    + Whether(Drifted(ClocksOf(p), wall, monotonic, p.maxClockDriftMs), ClockDrift)
    + Times(NumericSaturation, FlushCuts(p.sums))
  }

  function Whether(condition: bool, code: GapCode): multiset<GapCode> {
    if condition then multiset{code} else multiset{}
  }

  lemma MarkIfBag(p: Producer, condition: bool, code: GapCode)
    requires GapsOk(p.gaps) && (condition ==> |Bag(p.gaps)| < MAX_SAFE)
    ensures var q := MarkIf(p, condition, code);
            && GapsOk(q.gaps) && Bag(q.gaps) == Bag(p.gaps) + Whether(condition, code)
            && |Bag(q.gaps)| == |Bag(p.gaps)| + |Whether(condition, code)|
            && q.history.made == p.history.made + Whether(condition, code)
  {
    if condition {
      MarkedOk(p.gaps, code);
      MarkedBag(p.gaps, code);
    } else {
      assert Bag(p.gaps) + multiset{} == Bag(p.gaps) && p.history.made + multiset{} == p.history.made;
    }
  }

  lemma CutBag(p: Producer, n: nat)
    requires GapsOk(p.gaps) && |Bag(p.gaps)| + n <= MAX_SAFE
    ensures Bag(CutIn(p, n).gaps) == Bag(p.gaps) + Times(NumericSaturation, n)
  {
    MarkedTimesOk(p.gaps, NumericSaturation, n);
  }

  lemma FlushMarksSize(p: Producer, wall: Reading, monotonic: Reading)
    ensures |FlushMarks(p, wall, monotonic)|
            == |Whether(Anomalous(ClocksOf(p), wall, monotonic), ClockAnomaly)|
               + |Whether(Drifted(ClocksOf(p), wall, monotonic, p.maxClockDriftMs), ClockDrift)| + FlushCuts(p.sums)
  {
    TimesSize(NumericSaturation, FlushCuts(p.sums));
  }

  /** Code by code, the snapshot carries the gaps of the map, the clock marks, and a saturation mark
      for each sum that flush itself cut off. */
  lemma SnapshotGaps(p: Producer, wall: Reading, monotonic: Reading)
    requires Kept(p) && |Bag(p.gaps)| + |FlushMarks(p, wall, monotonic)| <= MAX_SAFE
    ensures GapBag(SnapshotOf(p, wall, monotonic)) == Bag(p.gaps) + FlushMarks(p, wall, monotonic)
    ensures CutInterval(p, wall, monotonic).history.made == p.history.made + FlushMarks(p, wall, monotonic)
  {
    var anomalous, drifted := Anomalous(ClocksOf(p), wall, monotonic),
                              Drifted(ClocksOf(p), wall, monotonic, p.maxClockDriftMs);
    FlushMarksSize(p, wall, monotonic);
    MarkIfBag(p, anomalous, ClockAnomaly);
    var one := MarkIf(p, anomalous, ClockAnomaly);
    MarkIfBag(one, drifted, ClockDrift);
    var two := MarkIf(one, drifted, ClockDrift);
    CutBag(two, FlushCuts(p.sums));
    FromMapped(MarkedForFlush(p, wall, monotonic).gaps);
    ThreeParts(Bag(p.gaps), Whether(anomalous, ClockAnomaly), Whether(drifted, ClockDrift), Times(NumericSaturation, FlushCuts(p.sums)));
    ThreeParts(p.history.made, Whether(anomalous, ClockAnomaly), Whether(drifted, ClockDrift), Times(NumericSaturation, FlushCuts(p.sums)));
  }

  lemma ThreeParts(g: multiset<GapCode>, a: multiset<GapCode>, b: multiset<GapCode>, c: multiset<GapCode>)
    ensures g + a + b + c == g + (a + b + c)
  {
  }

  // ----- Every mark has its incident -----

  function One(condition: bool): nat {
    if condition then 1 else 0
  }

  /** How many incidents of this kind one step is. */
  function Incidents(p: Producer, e: Event, code: GapCode): nat {
    match e
    case Record(_) => 0
    case Mark(marked) => One(code == marked)
    case Timeout => One(code == GapCode.SinkTimeout && p.active.Some? && !p.active.value.timedOut)
    case Settle(resolved, next) =>
      One(code == SinkRejected && p.active.Some? && !resolved)
      + One(code == SinkThrow && p.active.Some? && p.pending.Some? && next.Threw?)
    case Flush(wall, monotonic, result) =>
      ClockIncidents(p, wall, monotonic, code) + DeliveryIncidents(p.active.None?, p.pending.None?, result, code)
  }

  function ClockIncidents(p: Producer, wall: Reading, monotonic: Reading, code: GapCode): nat {
    One(code == ClockAnomaly && Anomalous(ClocksOf(p), wall, monotonic))
    + One(code == ClockDrift && Drifted(ClocksOf(p), wall, monotonic, p.maxClockDriftMs))
  }

  /** A throw from a free sink, a drop from behind a snapshot that waits. */
  function DeliveryIncidents(free: bool, room: bool, result: SinkResult, code: GapCode): nat {
    One(code == SinkThrow && free && result.Threw?) + One(code == SinkBackpressure && !free && !room)
  }

  function RunIncidents(p: Producer, events: seq<Event>, code: GapCode): nat
    decreases |events|
  {
    if events == [] then 0 else Incidents(p, events[0], code) + RunIncidents(Apply(p, events[0]), events[1..], code)
  }

  lemma DispatchMarks(p: Producer, s: Snapshot, result: SinkResult, q: Producer, code: GapCode)
    requires code != NumericSaturation && q == DispatchIn(p, s, result)
    ensures q.history.made[code] == p.history.made[code] + One(code == SinkThrow && result.Threw?)
  {
  }

  lemma ReleaseMarks(p: Producer, resolved: bool, q: Producer, code: GapCode)
    requires code != NumericSaturation && p.active.Some? && q == ReleaseIn(p, resolved)
    ensures q.history.made[code] == p.history.made[code] + One(code == SinkRejected && !resolved)
  {
  }

  lemma AttachMarks(p: Producer, q: Producer, code: GapCode)
    requires code != NumericSaturation && p.pending.Some? && q == AttachIn(p)
    ensures q.history.made[code] == p.history.made[code]
  {
  }

  lemma PromoteMarks(p: Producer, next: SinkResult, q: Producer, code: GapCode)
    requires code != NumericSaturation && p.pending.Some? && q == PromoteIn(p, next)
    ensures q.history.made[code] == p.history.made[code] + One(code == SinkThrow && next.Threw?)
  {
    AttachMarks(p, AttachIn(p), code);
    DispatchMarks(AttachIn(p), Attached(p.pending.value, p.gaps), next, q, code);
  }

  /** How a settlement is made of its two parts. */
  lemma SettleParts(p: Producer, resolved: bool, next: SinkResult)
    requires p.active.Some?
    ensures var r := ReleaseIn(p, resolved);
            && r.pending == p.pending && r.history.dropped == p.history.dropped
            && SettleIn(p, resolved, next) == if r.pending.None? then r else PromoteIn(r, next)
  {
  }

  lemma SettleMarks(p: Producer, e: Event, q: Producer, code: GapCode)
    requires code != NumericSaturation && e.Settle? && q == SettleIn(p, e.resolved, e.next)
    ensures q.history.made[code] == p.history.made[code] + Incidents(p, e, code)
  {
    if p.active.Some? {
      var released := ReleaseIn(p, e.resolved);
      SettleParts(p, e.resolved, e.next);
      ReleaseMarks(p, e.resolved, released, code);
      if released.pending.Some? { PromoteMarks(released, e.next, q, code); }
    }
  }

  lemma CutMarks(p: Producer, wall: Reading, monotonic: Reading, q: Producer, code: GapCode)
    requires code != NumericSaturation && q == CutInterval(p, wall, monotonic)
    ensures q.history.made[code] == p.history.made[code] + ClockIncidents(p, wall, monotonic, code)
  {
    var one := MarkIf(p, Anomalous(ClocksOf(p), wall, monotonic), ClockAnomaly);
    var two := MarkIf(one, Drifted(ClocksOf(p), wall, monotonic, p.maxClockDriftMs), ClockDrift);
    ClockMarks(p, Anomalous(ClocksOf(p), wall, monotonic), ClockAnomaly, one, code);
    ClockMarks(one, Drifted(ClocksOf(p), wall, monotonic, p.maxClockDriftMs), ClockDrift, two, code);
    SaturationMarks(two, FlushCuts(p.sums), CutIn(two, FlushCuts(p.sums)), code);
  }

  lemma ClockMarks(p: Producer, condition: bool, mark: GapCode, q: Producer, code: GapCode)
    requires q == MarkIf(p, condition, mark)
    ensures q.history.made[code] == p.history.made[code] + One(code == mark && condition)
  {
  }

  lemma SaturationMarks(p: Producer, n: nat, q: Producer, code: GapCode)
    requires code != NumericSaturation && q == CutIn(p, n)
    ensures q.history.made[code] == p.history.made[code]
  {
  }

  lemma DeliverMarks(p: Producer, s: Snapshot, result: SinkResult, q: Producer, code: GapCode)
    requires code != NumericSaturation && q == DeliverIn(p, s, result)
    ensures q.history.made[code]
            == p.history.made[code] + DeliveryIncidents(p.active.None?, p.pending.None?, result, code)
  {
    if p.active.None? { DispatchMarks(p, s, result, q, code); }
  }

  lemma CutSlot(p: Producer, wall: Reading, monotonic: Reading, q: Producer)
    requires q == CutInterval(p, wall, monotonic)
    ensures q.active.None? == p.active.None? && q.pending.None? == p.pending.None?
  {
  }

  lemma FlushMakes(p: Producer, e: Event, cut: Producer, s: Snapshot, q: Producer, code: GapCode)
    requires code != NumericSaturation && e.Flush?
    requires cut == CutInterval(p, e.wall, e.monotonic) && q == DeliverIn(cut, s, e.result)
    ensures q.history.made[code] == p.history.made[code] + Incidents(p, e, code)
  {
    CutSlot(p, e.wall, e.monotonic, cut);
    CutMarks(p, e.wall, e.monotonic, cut, code);
    DeliverMarks(cut, s, e.result, q, code);
  }

  lemma StepMarks(p: Producer, e: Event, q: Producer, code: GapCode)
    requires code != NumericSaturation && q == Apply(p, e)
    ensures q.history.made[code] == p.history.made[code] + Incidents(p, e, code)
  {
    if e.Settle? {
      SettleMarks(p, e, q, code);
    } else if e.Flush? {
      FlushApplied(p, e);
      FlushMakes(p, e, CutInterval(p, e.wall, e.monotonic), SnapshotOf(p, e.wall, e.monotonic), q, code);
    }
  }

  /** Over every run each overdue, rejected, thrown or dropped snapshot and each clock anomaly or
      drift makes exactly one mark, and nothing else does: with RunKeeps, the marks in the map, in
      flight, waiting and delivered are exactly the incidents. */
  lemma {:induction false} RunMarks(p: Producer, events: seq<Event>, code: GapCode)
    requires code != NumericSaturation
    ensures TelemetryModel.Run(p, events).history.made[code] == p.history.made[code] + RunIncidents(p, events, code)
    decreases |events|
  {
    if events != [] {
      StepMarks(p, events[0], Apply(p, events[0]), code);
      RunMarks(Apply(p, events[0]), events[1..], code);
    }
  }

  /** Flushed while one snapshot is in flight and one waits. */
  predicate Drops(p: Producer, e: Event) {
    e.Flush? && p.active.Some? && p.pending.Some?
  }

  lemma DispatchDrops(p: Producer, s: Snapshot, result: SinkResult, q: Producer)
    requires q == DispatchIn(p, s, result)
    ensures q.history.dropped == p.history.dropped
  {
  }

  lemma PromoteDrops(p: Producer, next: SinkResult, q: Producer)
    requires p.pending.Some? && q == PromoteIn(p, next)
    ensures q.history.dropped == p.history.dropped
  {
    DispatchDrops(AttachIn(p), Attached(p.pending.value, p.gaps), next, q);
  }

  lemma SettleDrops(p: Producer, resolved: bool, next: SinkResult, q: Producer)
    requires q == SettleIn(p, resolved, next)
    ensures q.history.dropped == p.history.dropped
  {
    if p.active.Some? {
      SettleParts(p, resolved, next);
      var released := ReleaseIn(p, resolved);
      if released.pending.Some? { PromoteDrops(released, next, q); }
    }
  }

  lemma DeliverDrops(p: Producer, s: Snapshot, result: SinkResult, q: Producer)
    requires q == DeliverIn(p, s, result)
    ensures q.history.dropped == p.history.dropped + if p.active.Some? && p.pending.Some? then {s.sequence} else {}
  {
    if p.active.None? { DispatchDrops(p, s, result, q); }
  }

  lemma FlushDrops(p: Producer, e: Event, q: Producer)
    requires e.Flush? && q == FlushIn(p, e.wall, e.monotonic, e.result)
    ensures q.history.dropped == p.history.dropped + if Drops(p, e) then {p.sequence + 1} else {}
  {
    CutFrame(p, e.wall, e.monotonic);
    DeliverDrops(CutInterval(p, e.wall, e.monotonic), SnapshotOf(p, e.wall, e.monotonic), e.result, q);
  }

  lemma StepDrops(p: Producer, e: Event, q: Producer)
    requires q == Apply(p, e)
    ensures q.history.dropped == p.history.dropped + if Drops(p, e) then {p.sequence + 1} else {}
  {
    match e
    case Settle(resolved, next) => SettleDrops(p, resolved, next, q);
    case Flush(wall, monotonic, result) => FlushDrops(p, e, q);
    case _ =>
  }

  lemma NotYetDropped(p: Producer)
    requires Kept(p)
    ensures p.sequence + 1 !in p.history.dropped
  {
  }

  lemma DropIncidents(p: Producer, e: Event)
    ensures Incidents(p, e, SinkBackpressure) == One(e == Mark(SinkBackpressure)) + One(Drops(p, e))
  {
  }

  lemma OneDropped(dropped: set<int>, n: int, drops: bool)
    requires n !in dropped
    ensures |dropped + if drops then {n} else {}| == |dropped| + One(drops)
  {
    assert dropped + {} == dropped;
  }

  /** How often the code was reported from outside. */
  function Reported(events: seq<Event>, code: GapCode): nat {
    if events == [] then 0 else One(events[0] == Mark(code)) + Reported(events[1..], code)
  }

  lemma StepDropMarks(p: Producer, e: Event, q: Producer)
    requires p.sequence + 1 !in p.history.dropped && q == Apply(p, e)
    ensures q.history.made[SinkBackpressure] + |p.history.dropped|
            == p.history.made[SinkBackpressure] + |q.history.dropped| + One(e == Mark(SinkBackpressure))
  {
    StepMarks(p, e, q, SinkBackpressure);
    DropIncidents(p, e);
    StepDrops(p, e, q);
    OneDropped(p.history.dropped, p.sequence + 1, Drops(p, e));
  }

  /** Over every run the backpressure marks are as many as the numbers dropped, but for those
      reported from outside. */
  lemma {:induction false} RunDrops(p: Producer, events: seq<Event>)
    requires Kept(p) && forall i | 0 <= i < |events| :: Feasible(events[i])
    ensures var q := TelemetryModel.Run(p, events);
            q.history.made[SinkBackpressure] + |p.history.dropped|
            == p.history.made[SinkBackpressure] + |q.history.dropped| + Reported(events, SinkBackpressure)
    decreases |events|
  {
    if events != [] {
      NotYetDropped(p);
      StepDropMarks(p, events[0], Apply(p, events[0]));
      ApplyKeeps(p, events[0]);
      RunDrops(Apply(p, events[0]), events[1..]);
    }
  }

  // ----- The clocks -----

  /** The clock readings of the flushes in a run. */
  function TicksOf(events: seq<Event>): seq<Tick> {
    if events == [] then []
    else if events[0].Flush? then [Tick(events[0].wall, events[0].monotonic)] + TicksOf(events[1..])
    else TicksOf(events[1..])
  }

  lemma {:induction false} TickedOn(c: Clocks, first: Tick, ticks: seq<Tick>, maxDrift: real)
    ensures Ticked(c, [first] + ticks, maxDrift) == Ticked(Advance(c, first.wall, first.monotonic, maxDrift), ticks, maxDrift)
  {
    var all := [first] + ticks;
    if ticks == [] {
      assert all[..|all| - 1] == [];
    } else {
      assert all[..|all| - 1] == [first] + ticks[..|ticks| - 1];
      TickedOn(c, first, ticks[..|ticks| - 1], maxDrift);
    }
  }

  lemma StepClocks(p: Producer, e: Event)
    ensures Apply(p, e).maxClockDriftMs == p.maxClockDriftMs
    ensures ClocksOf(Apply(p, e)) == if e.Flush? then NextClocks(p, e.wall, e.monotonic) else ClocksOf(p)
  {
    match e
    case Flush(wall, monotonic, result) =>
      DeliverClocks(CutInterval(p, wall, monotonic), SnapshotOf(p, wall, monotonic), result);
    case Settle(resolved, next) => SettleClocks(p, resolved, next);
    case _ =>
  }

  lemma DispatchClocks(p: Producer, s: Snapshot, result: SinkResult)
    ensures var q := DispatchIn(p, s, result); q.maxClockDriftMs == p.maxClockDriftMs && ClocksOf(q) == ClocksOf(p)
  {
  }

  lemma DeliverClocks(p: Producer, s: Snapshot, result: SinkResult)
    ensures var q := DeliverIn(p, s, result); q.maxClockDriftMs == p.maxClockDriftMs && ClocksOf(q) == ClocksOf(p)
  {
    DispatchClocks(p, s, result);
  }

  lemma SettleClocks(p: Producer, resolved: bool, next: SinkResult)
    ensures var q := SettleIn(p, resolved, next); q.maxClockDriftMs == p.maxClockDriftMs && ClocksOf(q) == ClocksOf(p)
  {
    if p.active.Some? {
      var released := ReleaseIn(p, resolved);
      if released.pending.Some? {
        DispatchClocks(AttachIn(released), Attached(released.pending.value, released.gaps), next);
      }
    }
  }

  /** Over a whole run the interval chain is moved by the flushes' readings alone, so that
      ClockChain.ChainDeviation bounds its drift. */
  lemma {:induction false} RunClocks(p: Producer, events: seq<Event>)
    ensures TelemetryModel.Run(p, events).maxClockDriftMs == p.maxClockDriftMs
    ensures ClocksOf(TelemetryModel.Run(p, events)) == Ticked(ClocksOf(p), TicksOf(events), p.maxClockDriftMs)
    decreases |events|
  {
    if events != [] {
      var e := events[0];
      StepClocks(p, e);
      RunClocks(Apply(p, e), events[1..]);
      if e.Flush? { TickedOn(ClocksOf(p), Tick(e.wall, e.monotonic), TicksOf(events[1..]), p.maxClockDriftMs); }
    }
  }

  // ----- A healthy snapshot that is not exact -----

  const AT: string := "7"

  lemma NothingRaised(s: Sums)
    requires s.histograms == [] && s.alerts == [] && s.success == 0 && s.failure == 0
    ensures RaisedBy(s) == {} && FlushCuts(s) == 0
  {
    ZeroTotal();
  }

  /** Nothing but some counter recorded, both clocks a second on: no mark is made. */
  lemma QuietFlush(p: Producer, seconds: real)
    requires p.sums.histograms == [] && p.sums.alerts == [] && p.sums.success == 0 && p.sums.failure == 0
    requires p.intervalStart == p.monotonicStart && p.maxClockDriftMs == 5000.0 && seconds == p.intervalStart + 1000.0
    ensures MarkedForFlush(p, Finite(seconds), Finite(seconds)).gaps == p.gaps
    ensures NextClocks(p, Finite(seconds), Finite(seconds)) == Clocks(seconds, seconds)
  {
    NothingRaised(p.sums);
  }

  function Fill(value: int): Event {
    Record(Increments(LookupTotal, map[], value))
  }

  /** A producer with nothing recorded, both clocks at `t`. */
  predicate Quiet(p: Producer, t: real) {
    && p.sums == NOTHING && p.gaps == [] && p.history.truth == NOTHING
    && p.intervalStart == p.monotonicStart == t && p.maxClockDriftMs == 5000.0
  }

  function After(t: real): Event {
    Flush(Finite(t), Finite(t), Started)
  }

  lemma CutQuiet(p: Producer, t: real)
    requires Quiet(p, t)
    ensures Quiet(CutInterval(p, Finite(t + 1000.0), Finite(t + 1000.0)), t + 1000.0)
    ensures SnapshotOf(p, Finite(t + 1000.0), Finite(t + 1000.0)).gaps == []
  {
    QuietFlush(p, t + 1000.0);
  }

  lemma StartedFlush(p: Producer, t: real, q: Producer)
    requires Quiet(p, t) && p.active.None? && p.pending.None? && q == Apply(p, After(t + 1000.0))
    ensures Quiet(q, t + 1000.0) && q.active.Some? && q.pending.None?
  {
    CutQuiet(p, t);
    CutFrame(p, Finite(t + 1000.0), Finite(t + 1000.0));
  }

  lemma WaitingFlush(p: Producer, t: real, q: Producer)
    requires Quiet(p, t) && p.active.Some? && p.pending.None? && q == Apply(p, After(t + 1000.0))
    ensures Quiet(q, t + 1000.0) && q.active.Some? && q.pending.Some?
  {
    CutQuiet(p, t);
    CutFrame(p, Finite(t + 1000.0), Finite(t + 1000.0));
  }

  lemma Filled(p: Producer)
    requires p.sums == NOTHING && p.gaps == [] && p.history.truth == NOTHING
    ensures var q, key := Apply(p, Fill(MAX_SAFE)), KeyOf(LookupTotal, map[]);
            && q.sums == NOTHING.(counters := [(key, MAX_SAFE)]) && q.history.truth == q.sums
            && q == p.(sums := q.sums, history := q.history) && q.history.moved == p.history.moved
  {
    assert Get(NOTHING.counters, KeyOf(LookupTotal, map[]), 0) == 0;
  }

  /** A counter filled up and incremented once more: cut off, and marked. */
  lemma Overfilled(p: Producer)
    requires p.sums == NOTHING.(counters := [(KeyOf(LookupTotal, map[]), MAX_SAFE)])
    requires p.history.truth == p.sums && p.gaps == []
    ensures var q, key := Apply(p, Fill(1)), KeyOf(LookupTotal, map[]);
            && q.sums == p.sums && q.history.truth == NOTHING.(counters := [(key, MAX_SAFE + 1)])
            && q == p.(gaps := [(NumericSaturation, 1)], history := q.history)
  {
    var key := KeyOf(LookupTotal, map[]);
    var full := [(key, MAX_SAFE)];
    assert Find(full, key) == 0 by { assert full[..0] == []; }
    assert Put(full, key, MAX_SAFE + 1) == [(key, MAX_SAFE + 1)] && Put(full, key, MAX_SAFE) == full;
    assert RecordingCuts(p.sums, Increments(LookupTotal, map[], 1)) == 1;
    assert MarkedTimes([], NumericSaturation, 1) == Marked([], NumericSaturation) == [(NumericSaturation, 1)];
  }

  /** Settled well, and the waiting snapshot taken at once: the marks leave with it. */
  lemma MarksLeave(p: Producer)
    requires p.active.Some? && p.pending.Some?
    ensures var q := Apply(p, Settle(true, Took));
            q == p.(gaps := [], active := None, pending := None, history := q.history)
            && q.history.truth == p.history.truth
  {
  }

  /** The mark of a cut leaves on the snapshot that had waited, and the next one is healthy and
      reports less than was counted. */
  lemma HealthyButCut()
    ensures var p := TelemetryModel.Run(Start(AT, "staging:a", 5000.0, 0.0, 0.0),
                                        [After(1000.0), After(2000.0), Fill(MAX_SAFE), Fill(1), Settle(true, Took)]);
            var s := SnapshotOf(p, Finite(3000.0), Finite(3000.0));
            && s.healthy
            && s.counters == [Counter(LookupTotal, BoundedDimensions(LookupTotal, map[]), MAX_SAFE)]
            && p.history.truth.counters == [(KeyOf(LookupTotal, map[]), MAX_SAFE + 1)]
  {
    var p := Start(AT, "staging:a", 5000.0, 0.0, 0.0);
    var waiting := Apply(Apply(p, After(1000.0)), After(2000.0));
    OneWaits(p, Apply(p, After(1000.0)), waiting);
    var cut := CutOff(waiting);
    MarksLeave(cut);
    FiveEvents(p, After(1000.0), After(2000.0), Fill(MAX_SAFE), Fill(1), Settle(true, Took));
    HealthyThen(Apply(cut, Settle(true, Took)));
  }

  lemma OneWaits(p: Producer, q: Producer, r: Producer)
    requires Quiet(p, 0.0) && p.active.None? && p.pending.None?
    requires q == Apply(p, After(1000.0)) && r == Apply(q, After(2000.0))
    ensures Quiet(r, 2000.0) && r.active.Some? && r.pending.Some?
  {
    StartedFlush(p, 0.0, q);
    WaitingFlush(q, 1000.0, r);
  }

  lemma CutOff(p: Producer) returns (q: Producer)
    requires Quiet(p, 2000.0) && p.active.Some? && p.pending.Some?
    ensures q == Apply(Apply(p, Fill(MAX_SAFE)), Fill(1))
    ensures q.sums == NOTHING.(counters := [(KeyOf(LookupTotal, map[]), MAX_SAFE)])
    ensures q.history.truth.counters == [(KeyOf(LookupTotal, map[]), MAX_SAFE + 1)]
    ensures q == p.(sums := q.sums, gaps := q.gaps, history := q.history)
  {
    Filled(p);
    q := Apply(p, Fill(MAX_SAFE));
    Overfilled(q);
    q := Apply(q, Fill(1));
  }

  lemma HealthyThen(p: Producer)
    requires p.sums == NOTHING.(counters := [(KeyOf(LookupTotal, map[]), MAX_SAFE)]) && p.gaps == []
    requires p.intervalStart == p.monotonicStart == 2000.0 && p.maxClockDriftMs == 5000.0
    ensures var s := SnapshotOf(p, Finite(3000.0), Finite(3000.0));
            s.healthy && s.counters == [Counter(LookupTotal, BoundedDimensions(LookupTotal, map[]), MAX_SAFE)]
  {
    QuietFlush(p, 3000.0);
    assert Map(p.sums.counters, ToCounter()) == [Counter(LookupTotal, BoundedDimensions(LookupTotal, map[]), MAX_SAFE)];
  }

  lemma OneEvent(p: Producer, e: Event, rest: seq<Event>)
    ensures TelemetryModel.Run(p, [e] + rest) == TelemetryModel.Run(Apply(p, e), rest)
  {
    assert ([e] + rest)[1..] == rest;
  }

  lemma FiveList(a: Event, b: Event, c: Event, d: Event, e: Event)
    ensures [a, b, c, d, e] == [a] + [b, c, d, e] && [b, c, d, e] == [b] + [c, d, e]
    ensures [c, d, e] == [c] + [d, e] && [d, e] == [d] + [e]
  {
  }

  lemma LastEvent(p: Producer, e: Event)
    ensures TelemetryModel.Run(p, [e]) == Apply(p, e)
  {
  }

  lemma FiveEvents(p: Producer, a: Event, b: Event, c: Event, d: Event, e: Event)
    ensures TelemetryModel.Run(p, [a, b, c, d, e]) == Apply(Apply(Apply(Apply(Apply(p, a), b), c), d), e)
  {
    var p1 := Apply(p, a);
    var p2 := Apply(p1, b);
    var p3 := Apply(p2, c);
    FiveList(a, b, c, d, e);
    OneEvent(p, a, [b, c, d, e]);
    OneEvent(p1, b, [c, d, e]);
    OneEvent(p2, c, [d, e]);
    OneEvent(p3, d, [e]);
    LastEvent(Apply(p3, d), e);
  }
}
