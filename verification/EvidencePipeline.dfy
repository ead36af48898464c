/** Producer and judge together: what the judge makes of snapshots that telemetry producers
    flushed (src/auth-observability.ts and src/auth-rollout.ts). */
module EvidencePipeline {
  import opened Optional
  import opened OrderedMaps
  import opened Sequences
  import opened Sorting
  import opened LatencyHistogram
  import opened RolloutContract
  import opened RolloutEvaluator
  import opened RolloutVerdict
  import opened RolloutPass
  import opened Aggregates
  import opened ClockChain
  import opened FlushSums
  import opened GapMarks
  import opened TelemetryModel

  // ----- One snapshot's counts -----

  lemma OneMoreValue(values: seq<int>, value: int)
    ensures SumOver(values + [value], Itself()) == SumOver(values, Itself()) + value
  {
    assert (values + [value])[..|values|] == values;
  }

  /** The judge reads the callback counts the producer kept. */
  lemma {:induction false} ReportedCallbacks(counters: Counters, outcome: Label)
    ensures SumOver(CallbackValues(Map(counters, ToCounter()), outcome), Itself())
            == SumOver(counters, CallbackWeight(outcome))
  {
    if counters != [] {
      var init, last := counters[..|counters| - 1], counters[|counters| - 1];
      ReportedCallbacks(init, outcome);
      LastCallback(Map(counters, ToCounter()), Map(init, ToCounter()), ToCounter()(last), outcome);
      assert SumOver(counters, CallbackWeight(outcome)) == SumOver(init, CallbackWeight(outcome)) + CallbackWeight(outcome)(last);
    }
  }

  lemma LastCallback(all: seq<Counter>, init: seq<Counter>, last: Counter, outcome: Label)
    requires all == init + [last]
    ensures SumOver(CallbackValues(all, outcome), Itself())
            == SumOver(CallbackValues(init, outcome), Itself())
               + if last.metric == CallbackTotal && Says(last.dimensions, outcome) then last.value else 0
  {
    assert all[..|all| - 1] == init;
    OneMoreValue(CallbackValues(init, outcome), last.value);
  }

  /** The judge reads the session buckets the producer kept. */
  lemma {:induction false} ReportedBuckets(histograms: Histograms, i: nat)
    requires i < BUCKETS && FullBuckets(Map(histograms, ToHistogram()))
    ensures SumOver(BucketValues(Map(histograms, ToHistogram()), i), Itself())
            == SumOver(histograms, SessionWeight(i))
  {
    if histograms != [] {
      var init := histograms[..|histograms| - 1];
      var records := Map(histograms, ToHistogram());
      assert records[..|histograms| - 1] == Map(init, ToHistogram());
      ReportedBuckets(init, i);
      assert |records[|records| - 1].bucketCounts| == BUCKETS;
      OneMoreValue(BucketValues(Map(init, ToHistogram()), i), records[|records| - 1].bucketCounts[i]);
    }
  }

  /** The snapshot's session buckets are the histogram of these samples. */
  ghost predicate Summarizes(s: Snapshot, samples: seq<real>) {
    WellShaped(s) && forall i | 0 <= i < BUCKETS :: BucketSum(i)(s) == Histogram(samples)[i]
  }

  /** Values that are unchanged as long as they are safe add up to the same safe sum. */
  lemma {:induction false} UncutSum<T>(s: seq<T>, t: seq<T>, weight: T -> int)
    requires |s| == |t| && SumOver(s, weight) <= MAX_SAFE
    requires forall i | 0 <= i < |s| :: weight(s[i]) >= 0 && (weight(s[i]) <= MAX_SAFE ==> weight(t[i]) == weight(s[i]))
    ensures SumOver(t, weight) == SumOver(s, weight) >= 0
  {
    if s != [] {
      var n := |s| - 1;
      SumNonNegative(s[..n], weight);
      UncutSum(s[..n], t[..n], weight);
    }
  }

  lemma {:induction false} SumNonNegative<T>(s: seq<T>, weight: T -> int)
    requires forall i | 0 <= i < |s| :: weight(s[i]) >= 0
    ensures SumOver(s, weight) >= 0
  {
    if s != [] { SumNonNegative(s[..|s| - 1], weight); }
  }

  lemma UncutCallbacks(counters: Counters, outcome: Label)
    requires NonNegative(counters) && SumOver(counters, CallbackWeight(outcome)) <= MAX_SAFE
    ensures SumOver(WithValues(counters, Capping()), CallbackWeight(outcome)) == SumOver(counters, CallbackWeight(outcome))
  {
    UncutSum(counters, WithValues(counters, Capping()), CallbackWeight(outcome));
  }

  lemma UncutBuckets(histograms: Histograms, i: nat)
    requires i < BUCKETS && SumOver(histograms, SessionWeight(i)) <= MAX_SAFE
    ensures SumOver(WithValues(histograms, CapObserved()), SessionWeight(i)) == SumOver(histograms, SessionWeight(i))
  {
    UncutSum(histograms, WithValues(histograms, CapObserved()), SessionWeight(i));
  }

  /** A flush's snapshot summarizes the interval's samples, and carries its callback counts, as
      long as these are safe numbers; gaps attached on the way do not matter. */
  lemma ReportSummarizes(
    s: Snapshot, flushed: Snapshot, cell: Cell, t: Sums, samples: seq<real>, misfiled: bool, gaps: Gaps)
    requires Truthful(t, samples, misfiled) && flushed == Report(cell, CapSums(t), gaps) && SameButGaps(s, flushed)
    ensures |samples| <= MAX_SAFE ==> Summarizes(s, samples)
    ensures t.success <= MAX_SAFE ==> CallbackSum(Success)(s) == t.success
    ensures t.failure <= MAX_SAFE ==> CallbackSum(Failure)(s) == t.failure
  {
    var stored := CapSums(t);
    ReportedCallbacks(stored.counters, Success);
    ReportedCallbacks(stored.counters, Failure);
    if t.success <= MAX_SAFE { UncutCallbacks(t.counters, Success); }
    if t.failure <= MAX_SAFE { UncutCallbacks(t.counters, Failure); }
    if |samples| <= MAX_SAFE { ReportedSamples(s, stored.histograms, t.histograms, samples); }
  }

  lemma ReportedSamples(s: Snapshot, stored: Histograms, histograms: Histograms, samples: seq<real>)
    requires s.histograms == Map(stored, ToHistogram()) && stored == WithValues(histograms, CapObserved())
    requires HistogramsExact(histograms, samples) && |samples| <= MAX_SAFE
    ensures Summarizes(s, samples)
  {
    HistogramTotal(samples);
    forall i | 0 <= i < BUCKETS ensures BucketSum(i)(s) == Histogram(samples)[i] {
      BucketWithin(Histogram(samples), i);
      ReportedBuckets(stored, i);
      UncutBuckets(histograms, i);
    }
  }

  // ----- The percentile of all samples -----

  ghost predicate AllSummarize(snapshots: seq<Snapshot>, parts: seq<seq<real>>) {
    |snapshots| == |parts| && forall k | 0 <= k < |snapshots| :: Summarizes(snapshots[k], parts[k])
  }

  lemma {:induction false} SummedBuckets(snapshots: seq<Snapshot>, parts: seq<seq<real>>, i: nat)
    requires i < BUCKETS && AllSummarize(snapshots, parts)
    ensures SumOver(snapshots, BucketSum(i)) == Histogram(Flatten(parts))[i]
  {
    if snapshots != [] {
      var n := |snapshots| - 1;
      var init, last := Flatten(parts[..n]), parts[n];
      SummedBuckets(snapshots[..n], parts[..n], i);
      assert Summarizes(snapshots[n], last);
      assert Flatten(parts) == init + last;
      HistogramConcat(init, last);
    }
  }

  lemma ExactTotals(input: seq<Input>, inventory: InventoryInput, inputFindings: set<Finding>, e: Evaluation)
    requires IsEvaluation(input, inventory, inputFindings, e) && NumericOverflow !in e.findings
    ensures TrueTotals(Judged(input, inventory), e.totals) && IsP95(e.totals, e.p95Bucket)
  {
    var snapshots := Judged(input, inventory);
    JudgedShape(input, inventory);
    assert When(Overflowed(AdditionsOf(snapshots)), NumericOverflow) <= e.findings;
    OverflowExact(snapshots, e.totals);
  }

  lemma P95Finding(t: Totals, p95Bucket: Option<nat>)
    ensures P95Above in FailureFindings(t, p95Bucket) <==>
            Samples(t) >= MINIMUM_SAMPLES && p95Bucket.Some? && p95Bucket.value > SLO_BOUND
  {
  }

  lemma PercentileOf(snapshots: seq<Snapshot>, parts: seq<seq<real>>, t: Totals, p95Bucket: Option<nat>)
    requires AllSummarize(snapshots, parts) && TrueTotals(snapshots, t) && IsP95(t, p95Bucket)
    ensures Samples(t) == |Flatten(parts)|
    ensures Samples(t) >= MINIMUM_SAMPLES && p95Bucket.Some? && p95Bucket.value > SLO_BOUND
            <==> SlowSamples(Flatten(parts))
  {
    var all := Flatten(parts);
    forall i | 0 <= i < BUCKETS ensures t.sessionBuckets[i] == Histogram(all)[i] {
      SummedBuckets(snapshots, parts, i);
    }
    assert t.sessionBuckets == Histogram(all);
    HistogramTotal(all);
    if |all| >= MINIMUM_SAMPLES { BucketedTest(all, p95Bucket.value); }
  }

  /** However many instances and intervals the samples are spread over, and in whatever order
      the snapshots reach it, the judge reports a p95 above 20 ms exactly when the sorted p95
      of all the samples together is above 20 ms. */
  lemma JudgedPercentile(
    input: seq<Input>, inventory: InventoryInput, inputFindings: set<Finding>, e: Evaluation,
    parts: seq<seq<real>>)
    requires IsEvaluation(input, inventory, inputFindings, e) && NumericOverflow !in e.findings
    requires AllSummarize(Judged(input, inventory), parts)
    ensures Samples(e.totals) == |Flatten(parts)|
    ensures P95Above in FailureFindings(e.totals, e.p95Bucket) <==> SlowSamples(Flatten(parts))
  {
    ExactTotals(input, inventory, inputFindings, e);
    PercentileOf(Judged(input, inventory), parts, e.totals, e.p95Bucket);
    P95Finding(e.totals, e.p95Bucket);
  }

  // ----- Runs of producers -----

  /** One instance's life up to now. */
  datatype Life = Life(
    instanceId: string, stageId: string, maxClockDriftMs: real, now: real, monotonicNow: real, events: seq<Event>)

  function ProducerOf(l: Life): Producer {
    TelemetryModel.Run(Start(l.instanceId, l.stageId, l.maxClockDriftMs, l.now, l.monotonicNow), l.events)
  }

  ghost predicate Possible(l: Life) {
    l.maxClockDriftMs >= 0.0 && forall i | 0 <= i < |l.events| :: Feasible(l.events[i])
  }

  /** The sink of some life was handed this snapshot. */
  ghost predicate HandedBy(lives: map<string, Life>, s: Snapshot) {
    s.instanceId in lives && Possible(lives[s.instanceId]) && s in ProducerOf(lives[s.instanceId]).history.handed
  }

  /** The samples of the interval a snapshot was flushed for. */
  ghost function PartOf(lives: map<string, Life>, s: Snapshot): seq<real> {
    if s.instanceId in lives then SamplesFor(ProducerOf(lives[s.instanceId]), s.sequence) else []
  }

  ghost function SamplesFor(p: Producer, n: int): seq<real> {
    if 1 <= n <= |p.history.intervals| then p.history.intervals[n - 1].samples else []
  }

  ghost function PartsOf(lives: map<string, Life>, snapshots: seq<Snapshot>): (parts: seq<seq<real>>)
    ensures |parts| == |snapshots|
    ensures forall k | 0 <= k < |parts| :: parts[k] == PartOf(lives, snapshots[k])
  {
    seq(|snapshots|, k requires 0 <= k < |snapshots| => PartOf(lives, snapshots[k]))
  }

  lemma LifeKept(l: Life)
    requires Possible(l)
    ensures Kept(ProducerOf(l))
  {
    StartKept(l.instanceId, l.stageId, l.maxClockDriftMs, l.now, l.monotonicNow);
    RunKeeps(Start(l.instanceId, l.stageId, l.maxClockDriftMs, l.now, l.monotonicNow), l.events);
  }

  lemma HandedGenuine(p: Producer, s: Snapshot)
    requires Kept(p) && s in p.history.handed
    ensures Genuine(SourceOf(p), s) && IntervalsOk(p.history.intervals)
  {
  }

  /** What a producer handed to its sink summarizes the samples of the interval. */
  lemma HandedSummarizes(p: Producer, s: Snapshot)
    requires Kept(p) && s in p.history.handed && |SamplesFor(p, s.sequence)| <= MAX_SAFE
    ensures Summarizes(s, SamplesFor(p, s.sequence))
  {
    HandedGenuine(p, s);
    var flushed, cell, i := FlushedFor(SourceOf(p), s);
    TruthfulAt(p.history.intervals, s.sequence - 1);
    ReportSummarizes(s, flushed, cell, i.truth, i.samples, i.misfiled, i.gaps);
  }

  lemma FlushedFor(c: Source, s: Snapshot) returns (flushed: Snapshot, cell: Cell, i: Interval)
    requires Genuine(c, s)
    ensures 1 <= s.sequence <= |c.intervals| && i == c.intervals[s.sequence - 1]
    ensures flushed == Report(cell, CapSums(i.truth), i.gaps) && SameButGaps(s, flushed)
  {
    i := c.intervals[s.sequence - 1];
    flushed, cell := Flushed(c, s.sequence), Cell(c.instanceId, c.stageId, s.sequence, i.start, i.end);
    FlushedIs(c, s.sequence);
  }

  lemma FlushedIs(c: Source, n: int)
    requires 1 <= n <= |c.intervals|
    ensures var i := c.intervals[n - 1];
            Flushed(c, n) == Report(Cell(c.instanceId, c.stageId, n, i.start, i.end), CapSums(i.truth), i.gaps)
  {
  }

  lemma TruthfulAt(intervals: seq<Interval>, k: nat)
    requires IntervalsOk(intervals) && k < |intervals|
    ensures Truthful(intervals[k].truth, intervals[k].samples, intervals[k].misfiled)
  {
    assert IntervalOk(intervals[k]);
  }

  lemma LifeSummarizes(lives: map<string, Life>, s: Snapshot)
    requires HandedBy(lives, s) && |PartOf(lives, s)| <= MAX_SAFE
    ensures Summarizes(s, PartOf(lives, s))
  {
    LifeKept(lives[s.instanceId]);
    HandedSummarizes(ProducerOf(lives[s.instanceId]), s);
  }

  /** Over any runs of any instances, whatever their clocks and sinks did and whatever was dropped
      on the way: the judge reports a p95 above 20 ms exactly when the sorted p95 of the samples
      behind the snapshots that reached it is above 20 ms. */
  lemma PercentileOfRuns(
    input: seq<Input>, inventory: InventoryInput, inputFindings: set<Finding>, e: Evaluation, lives: map<string, Life>)
    requires IsEvaluation(input, inventory, inputFindings, e) && NumericOverflow !in e.findings
    requires forall s | s in Judged(input, inventory) :: HandedBy(lives, s) && |PartOf(lives, s)| <= MAX_SAFE
    ensures Samples(e.totals) == |Flatten(PartsOf(lives, Judged(input, inventory)))|
    ensures P95Above in FailureFindings(e.totals, e.p95Bucket)
            <==> SlowSamples(Flatten(PartsOf(lives, Judged(input, inventory))))
  {
    var judged := Judged(input, inventory);
    forall k | 0 <= k < |judged| ensures Summarizes(judged[k], PartsOf(lives, judged)[k]) {
      LifeSummarizes(lives, judged[k]);
    }
    JudgedPercentile(input, inventory, inputFindings, e, PartsOf(lives, judged));
  }

  // ----- The other service levels -----

  /** The true sums of the interval a snapshot was flushed for. */
  ghost function TruthOf(lives: map<string, Life>, s: Snapshot): Sums {
    if s.instanceId in lives then TruthFor(ProducerOf(lives[s.instanceId]), s.sequence) else NOTHING
  }

  ghost function TruthFor(p: Producer, n: int): Sums {
    TruthAt(p.history.intervals, n)
  }

  function TruthAt(intervals: seq<Interval>, n: int): Sums {
    if 1 <= n <= |intervals| then intervals[n - 1].truth else NOTHING
  }

  ghost function Successes(lives: map<string, Life>): Snapshot -> int {
    (s: Snapshot) => TruthOf(lives, s).success
  }

  ghost function Failures(lives: map<string, Life>): Snapshot -> int {
    (s: Snapshot) => TruthOf(lives, s).failure
  }

  lemma {:induction false} SumAlike<T>(s: seq<T>, f: T -> int, g: T -> int)
    requires forall x | x in s :: f(x) == g(x) >= 0
    ensures SumOver(s, f) == SumOver(s, g) >= 0
  {
    if s != [] {
      var init, last := s[..|s| - 1], s[|s| - 1];
      assert last in s;
      assert forall x | x in init :: x in s;
      SumAlike(init, f, g);
    }
  }

  /** The snapshot's callback counts are the true ones, as long as these are safe integers. */
  ghost predicate CarriesCallbacks(s: Snapshot, t: Sums) {
    && t.success >= 0 && t.failure >= 0
    && (t.success <= MAX_SAFE ==> CallbackSum(Success)(s) == t.success)
    && (t.failure <= MAX_SAFE ==> CallbackSum(Failure)(s) == t.failure)
  }

  lemma FlushedCallbacks(s: Snapshot, flushed: Snapshot, cell: Cell, i: Interval)
    requires Truthful(i.truth, i.samples, i.misfiled)
    requires flushed == Report(cell, CapSums(i.truth), i.gaps) && SameButGaps(s, flushed)
    ensures CarriesCallbacks(s, i.truth)
  {
    CapNonNegative(i.truth, i.samples, i.misfiled);
    ReportSummarizes(s, flushed, cell, i.truth, i.samples, i.misfiled, i.gaps);
  }

  lemma GenuineCallbacks(c: Source, s: Snapshot)
    requires Genuine(c, s) && IntervalsOk(c.intervals)
    ensures CarriesCallbacks(s, TruthAt(c.intervals, s.sequence))
  {
    var flushed, cell, i := FlushedFor(c, s);
    TruthfulAt(c.intervals, s.sequence - 1);
    assert TruthAt(c.intervals, s.sequence) == i.truth;
    FlushedCallbacks(s, flushed, cell, i);
  }

  /** What a producer handed to its sink carries the callback counts of the interval. */
  lemma HandedCallbacks(p: Producer, s: Snapshot)
    requires Kept(p) && s in p.history.handed
    ensures CarriesCallbacks(s, TruthFor(p, s.sequence))
  {
    HandedGenuine(p, s);
    GenuineCallbacks(SourceOf(p), s);
  }

  lemma LifeCallbacks(lives: map<string, Life>, s: Snapshot)
    requires HandedBy(lives, s) && TruthOf(lives, s).success <= MAX_SAFE && TruthOf(lives, s).failure <= MAX_SAFE
    ensures CallbackSum(Success)(s) == Successes(lives)(s) >= 0 && CallbackSum(Failure)(s) == Failures(lives)(s) >= 0
  {
    LifeKept(lives[s.instanceId]);
    HandedCallbacks(ProducerOf(lives[s.instanceId]), s);
  }

  /** At least 100 callbacks, less than 99.5 per cent of them successful. */
  predicate Failing(success: int, failure: int) {
    success >= 0 && failure >= 0 && success + failure >= MINIMUM_CALLBACKS
    && success as real / (success + failure) as real < 0.995
  }

  lemma CallbackFinding(t: Totals, p95Bucket: Option<nat>, success: nat, failure: nat)
    requires t.callbackSuccess == success && t.callbackFailure == failure
    ensures CallbackBelow in FailureFindings(t, p95Bucket) <==> Failing(success, failure)
  {
    if success + failure > 0 { Ratio(success, success + failure); }
  }

  /** Over the same runs: the judge reports a callback success ratio below 99.5 per cent exactly
      when the callbacks behind the snapshots that reached it were 100 or more and fewer of them
      succeeded. */
  lemma CallbacksOfRuns(
    input: seq<Input>, inventory: InventoryInput, inputFindings: set<Finding>, e: Evaluation, lives: map<string, Life>)
    requires IsEvaluation(input, inventory, inputFindings, e) && NumericOverflow !in e.findings
    requires forall s | s in Judged(input, inventory) ::
               HandedBy(lives, s) && TruthOf(lives, s).success <= MAX_SAFE && TruthOf(lives, s).failure <= MAX_SAFE
    ensures var success, failure := SumOver(Judged(input, inventory), Successes(lives)), SumOver(Judged(input, inventory), Failures(lives));
            CallbackBelow in FailureFindings(e.totals, e.p95Bucket) <==> Failing(success, failure)
  {
    ExactTotals(input, inventory, inputFindings, e);
    LivesCallbacks(Judged(input, inventory), lives);
    CallbackFinding(e.totals, e.p95Bucket, SumOver(Judged(input, inventory), Successes(lives)),
                    SumOver(Judged(input, inventory), Failures(lives)));
  }

  lemma LivesCallbacks(snapshots: seq<Snapshot>, lives: map<string, Life>)
    requires forall s | s in snapshots ::
               HandedBy(lives, s) && TruthOf(lives, s).success <= MAX_SAFE && TruthOf(lives, s).failure <= MAX_SAFE
    ensures SumOver(snapshots, CallbackSum(Success)) == SumOver(snapshots, Successes(lives)) >= 0
    ensures SumOver(snapshots, CallbackSum(Failure)) == SumOver(snapshots, Failures(lives)) >= 0
  {
    forall s | s in snapshots
      ensures CallbackSum(Success)(s) == Successes(lives)(s) >= 0 && CallbackSum(Failure)(s) == Failures(lives)(s) >= 0
    {
      LifeCallbacks(lives, s);
    }
    SumAlike(snapshots, CallbackSum(Success), Successes(lives));
    SumAlike(snapshots, CallbackSum(Failure), Failures(lives));
  }

  /** The service level alerts that flush raises itself are not critical. */
  lemma SlosUncritical(alerts: Alerts, raised: set<AlertType>)
    ensures SumOver(WithSlos(false, alerts, raised), CriticalShare()) == SumOver(alerts, CriticalShare())
  {
    var first := if OidcCallbackSuccessSlo in raised then Emitted(false, alerts, OidcCallbackSuccessSlo) else alerts;
    EmittedUncritical(alerts, OidcCallbackSuccessSlo);
    EmittedUncritical(first, SessionLookupLatencySlo);
  }

  lemma EmittedUncritical(alerts: Alerts, alert: AlertType)
    requires !Critical(alert)
    ensures SumOver(Emitted(false, alerts, alert), CriticalShare()) == SumOver(alerts, CriticalShare())
  {
    PutSum(alerts, alert, Get(alerts, alert, 0) + 1, CriticalShare());
  }

  ghost function CriticalIn(lives: map<string, Life>, s: Snapshot): int {
    SumOver(TruthOf(lives, s).alerts, CriticalShare())
  }

  /** The snapshot carries the true number of critical alerts, cut off. */
  ghost predicate CarriesCritical(s: Snapshot, t: Sums) {
    s.criticalIncidents == Cap(SumOver(t.alerts, CriticalShare()))
  }

  lemma SameCritical(s: Snapshot, flushed: Snapshot)
    requires SameButGaps(s, flushed)
    ensures s.criticalIncidents == flushed.criticalIncidents
  {
  }

  lemma FlushedCritical(s: Snapshot, flushed: Snapshot, cell: Cell, i: Interval)
    requires Truthful(i.truth, i.samples, i.misfiled)
    requires flushed == Report(cell, CapSums(i.truth), i.gaps) && SameButGaps(s, flushed)
    ensures CarriesCritical(s, i.truth)
  {
    SameCritical(s, flushed);
    ReportCapped(cell, i.truth, i.samples, i.misfiled, i.gaps);
    SlosUncritical(i.truth.alerts, RaisedBy(CapSums(i.truth)));
  }

  lemma GenuineCritical(c: Source, s: Snapshot)
    requires Genuine(c, s) && IntervalsOk(c.intervals)
    ensures CarriesCritical(s, TruthAt(c.intervals, s.sequence))
  {
    var flushed, cell, i := FlushedFor(c, s);
    TruthfulAt(c.intervals, s.sequence - 1);
    assert TruthAt(c.intervals, s.sequence) == i.truth;
    FlushedCritical(s, flushed, cell, i);
  }

  /** What a producer handed to its sink does. */
  lemma HandedCritical(p: Producer, s: Snapshot)
    requires Kept(p) && s in p.history.handed
    ensures CarriesCritical(s, TruthFor(p, s.sequence))
  {
    HandedGenuine(p, s);
    GenuineCritical(SourceOf(p), s);
  }

  lemma LifeCritical(lives: map<string, Life>, s: Snapshot)
    requires HandedBy(lives, s)
    ensures s.criticalIncidents > 0 <==> CriticalIn(lives, s) > 0
  {
    LifeKept(lives[s.instanceId]);
    HandedCritical(ProducerOf(lives[s.instanceId]), s);
  }

  /** Refused additions or not, an accumulator is above zero exactly when some value is. */
  lemma {:induction false} AccumulatesSome(values: seq<int>)
    requires forall v | v in values :: SafeInteger(v)
    ensures Accumulate(values).total > 0 <==> exists v | v in values :: v > 0
  {
    if values != [] {
      var init, last := values[..|values| - 1], values[|values| - 1];
      assert values == init + [last] && last in values;
      forall v | v in init ensures v in values {}
      AccumulatesSome(init);
      if last <= 0 {
        forall v | v in values && v > 0 ensures v in init {}
      }
    }
  }

  lemma CriticalTotal(input: seq<Input>, inventory: InventoryInput, inputFindings: set<Finding>, e: Evaluation)
    requires IsEvaluation(input, inventory, inputFindings, e)
    ensures e.totals.criticalIncidents == Accumulate(Map(Judged(input, inventory), ToCritical())).total
    ensures CriticalIncident in FailureFindings(e.totals, e.p95Bucket) <==> e.totals.criticalIncidents > 0
  {
    assert CriticalIncident in When(e.totals.criticalIncidents > 0, CriticalIncident) <==> e.totals.criticalIncidents > 0;
  }

  lemma CriticalSome(snapshots: seq<Snapshot>)
    requires forall s | s in snapshots :: SafeInteger(s.criticalIncidents)
    ensures Accumulate(Map(snapshots, ToCritical())).total > 0 <==> exists s | s in snapshots :: s.criticalIncidents > 0
  {
    var values := Map(snapshots, ToCritical());
    forall k | 0 <= k < |values| ensures snapshots[k] in snapshots && values[k] == snapshots[k].criticalIncidents {}
    AccumulatesSome(values);
    if s :| s in snapshots && s.criticalIncidents > 0 {
      var k :| 0 <= k < |snapshots| && snapshots[k] == s;
      assert values[k] in values;
    }
    if v :| v in values && v > 0 {
      var k :| 0 <= k < |values| && values[k] == v;
      assert snapshots[k] in snapshots;
    }
  }

  /** Over the same runs, however large the counts: the judge reports a critical incident exactly
      when a critical alert was raised in an interval whose snapshot reached it. */
  lemma CriticalOfRuns(
    input: seq<Input>, inventory: InventoryInput, inputFindings: set<Finding>, e: Evaluation, lives: map<string, Life>)
    requires IsEvaluation(input, inventory, inputFindings, e)
    requires forall s | s in Judged(input, inventory) :: HandedBy(lives, s)
    ensures CriticalIncident in FailureFindings(e.totals, e.p95Bucket)
            <==> exists s | s in Judged(input, inventory) :: CriticalIn(lives, s) > 0
  {
    CriticalTotal(input, inventory, inputFindings, e);
    JudgedShape(input, inventory);
    CriticalSome(Judged(input, inventory));
    forall s | s in Judged(input, inventory) ensures s.criticalIncidents > 0 <==> CriticalIn(lives, s) > 0 {
      LifeCritical(lives, s);
    }
  }

  // ----- The chain -----

  /** Nothing was dropped: the sink was handed 1, 2, 3, … */
  lemma {:induction false} CountedUp(numbers: seq<int>, n: nat)
    requires Increasing(numbers) && (forall m :: m in numbers <==> 1 <= m <= n)
    ensures |numbers| == n && forall k | 0 <= k < n :: numbers[k] == k + 1
  {
    if n == 0 {
      FirstOf(numbers);
    } else {
      var last := LastIs(numbers, n);
      var init := numbers[..last];
      forall m ensures m in init <==> 1 <= m <= n - 1 {
        if m in init { assert m in numbers && m < numbers[last]; }
        if 1 <= m <= n - 1 { assert m in numbers; }
      }
      CountedUp(init, n - 1);
      assert forall k | 0 <= k < n - 1 :: numbers[k] == init[k];
    }
  }

  lemma FirstOf(numbers: seq<int>)
    ensures numbers == [] || numbers[0] in numbers
  {
  }

  lemma LastIs(numbers: seq<int>, n: nat) returns (last: nat)
    requires n >= 1 && Increasing(numbers) && (forall m :: m in numbers <==> 1 <= m <= n)
    ensures last == |numbers| - 1 && numbers[last] == n
  {
    assert n in numbers;
    last := |numbers| - 1;
    assert numbers[last] in numbers;
  }

  /** Every number up to the last one handed over, when none was dropped. */
  lemma HandedUpTo(sequence: nat, pending: Option<Snapshot>, numbers: seq<int>) returns (n: nat)
    requires Accounted(sequence, pending, numbers, {})
    ensures forall m :: m in numbers <==> 1 <= m <= n
  {
    n := sequence;
    if pending.Some? {
      assert Waiting(pending, pending.value.sequence);
      n := pending.value.sequence - 1;
      if numbers != [] { BelowLast(numbers); }
    }
    forall m: int ensures Waiting(pending, m) <==> pending.Some? && m == n + 1 {}
  }

  lemma BelowLast(numbers: seq<int>)
    requires numbers != [] && Increasing(numbers)
    ensures forall m | m in numbers :: m <= numbers[|numbers| - 1]
  {
  }

  lemma SpanOfHanded(p: Producer, k: nat)
    requires Kept(p) && k < |p.history.handed| && p.history.handed[k].sequence == k + 1
    ensures k < |p.history.intervals|
    ensures var i := p.history.intervals[k];
            ToSpan()(p.history.handed[k]) == Span(Printed(i.start), Printed(i.end), k + 1)
  {
    assert Genuine(SourceOf(p), p.history.handed[k]);
  }

  ghost predicate Chained(spans: seq<Span>) {
    forall i, j | 0 <= i < j < |spans| && j == i + 1 ::
      spans[j].start == spans[i].end && spans[j].sequence == spans[i].sequence + 1
  }

  lemma {:induction false} StartsIncrease(spans: seq<Span>, i: nat, j: nat)
    requires Chained(spans) && i < j < |spans| && forall k | 0 <= k < |spans| :: spans[k].start < spans[k].end
    ensures spans[i].start < spans[j].start
    decreases j
  {
    assert spans[j].start == spans[j - 1].end;
    if i < j - 1 { StartsIncrease(spans, i, j - 1); }
  }

  lemma ChainSorted(spans: seq<Span>)
    requires Chained(spans) && forall k | 0 <= k < |spans| :: spans[k].start < spans[k].end
    ensures SortedBy(spans, SpanOrder)
  {
    forall i, j | 0 <= i < j < |spans| ensures SpanOrder(spans[i], spans[j]) {
      StartsIncrease(spans, i, j);
    }
  }

  lemma {:induction false} ChainedSpansPass(spans: seq<Span>)
    requires Chained(spans)
    ensures ChainFindings(spans) == {}
  {
    if |spans| >= 2 {
      ChainedSpansPass(spans[..|spans| - 1]);
      assert PairFindings(spans[|spans| - 2], spans[|spans| - 1]) == {};
    }
  }

  lemma HandedInOrder(p: Producer)
    requires Kept(p) && p.history.dropped == {}
    ensures forall k | 0 <= k < |p.history.handed| :: p.history.handed[k].sequence == k + 1
  {
    var handed := p.history.handed;
    var n := HandedUpTo(p.sequence, p.pending, Numbers(handed));
    CountedUp(Numbers(handed), n);
    forall k | 0 <= k < |handed| ensures handed[k].sequence == k + 1 {
      assert Numbers(handed)[k] == handed[k].sequence;
    }
  }

  lemma HandedChain(p: Producer)
    requires Kept(p) && p.history.dropped == {}
    ensures Chained(Map(p.history.handed, ToSpan()))
    ensures forall k | 0 <= k < |p.history.handed| :: p.history.handed[k].sequence == k + 1
  {
    var handed := p.history.handed;
    HandedInOrder(p);
    forall i, j | 0 <= i < j < |handed| && j == i + 1
      ensures ToSpan()(handed[j]).start == ToSpan()(handed[i]).end && ToSpan()(handed[j]).sequence == ToSpan()(handed[i]).sequence + 1
    {
      SpanOfHanded(p, i);
      SpanOfHanded(p, j);
    }
  }

  /** When nothing was dropped and everything handed to the sink reaches the judge, in whatever
      order and with whatever gaps attached, the judge finds nothing wrong with the chain. */
  lemma DeliveredChainPasses(p: Producer, judged: seq<Snapshot>)
    requires Kept(p) && p.history.dropped == {}
    requires forall s | s in p.history.handed :: s.start < s.end
    requires multiset(p.history.handed) == multiset(Filter(judged, OfInstance(p.instanceId)))
    ensures ChainFindings(InstanceSpans(judged, p.instanceId)) == {}
  {
    HandedChain(p);
    ChainPasses(p.history.handed, judged, p.instanceId);
  }

  lemma ChainPasses(delivered: seq<Snapshot>, judged: seq<Snapshot>, id: string)
    requires Chained(Map(delivered, ToSpan())) && forall s | s in delivered :: s.start < s.end
    requires multiset(delivered) == multiset(Filter(judged, OfInstance(id)))
    ensures ChainFindings(InstanceSpans(judged, id)) == {}
  {
    ChainSorted(Map(delivered, ToSpan()));
    InstanceSpansUnique(judged, id, delivered);
    ChainedSpansPass(Map(delivered, ToSpan()));
  }

  /** A snapshot dropped under backpressure between two that reached the judge is noticed:
      the dropped number was never handed to the sink, so no snapshot with it can exist. */
  lemma DroppedIsReported(
    p: Producer, input: seq<Input>, inventory: InventoryInput, inputFindings: set<Finding>, e: Evaluation,
    first: Snapshot, missing: int, last: Snapshot)
    requires Kept(p) && missing in p.history.dropped
    requires IsEvaluation(input, inventory, inputFindings, e)
    requires forall s | s in Judged(input, inventory) && s.instanceId == p.instanceId :: s in p.history.handed
    requires first in Judged(input, inventory) && last in Judged(input, inventory)
    requires first.instanceId == last.instanceId == p.instanceId && first.sequence < missing < last.sequence
    ensures SequenceInvalid in e.findings
  {
    forall s | s in Judged(input, inventory) && s.instanceId == p.instanceId ensures s.sequence != missing {
      NumberOfHanded(p.history.handed, s);
    }
    MissingSequenceIsReported(input, inventory, inputFindings, e, first, missing, last);
  }

  lemma NumberOfHanded(handed: seq<Snapshot>, s: Snapshot)
    requires s in handed
    ensures s.sequence in Numbers(handed)
  {
    var k :| 0 <= k < |handed| && handed[k] == s;
    assert Numbers(handed)[k] == s.sequence;
  }
}
