/** What the telemetry producer aggregates between two flushes (src/auth-observability.ts):
    labelled counters, fixed-bound histograms and alert counts, with additions cut off at the
    greatest safe integer; and that each stored sum is the true sum, cut off there. */
module Aggregates {
  import opened Sequences
  import opened Sorting
  import opened OrderedMaps
  import opened LatencyHistogram
  import opened RolloutContract
  import opened ClockChain

  datatype Key = Key(metric: Metric, dimensions: Dimensions)
  datatype Observed = Observed(bucketCounts: Buckets, count: nat)

  type Counters = OrderedMap<Key, int>
  type Histograms = OrderedMap<Key, Observed>
  type Alerts = OrderedMap<AlertType, int>

  /** Everything that is summed, and the two running callback counts. */
  datatype Sums = Sums(counters: Counters, histograms: Histograms, alerts: Alerts, success: int, failure: int)

  const NOTHING: Sums := Sums([], [], [], 0, 0)

  datatype Recording =
    | Increments(metric: Metric, labels: Dimensions, value: int)
    | Observes(metric: Metric, sample: Reading, labels: Dimensions)
    | Raises(alert: AlertType)

  // ----- Bounded additions -----

  function Cap(n: int): (c: int)
    ensures c <= MAX_SAFE && (n >= 0 ==> c >= 0)
  {
    if n > MAX_SAFE then MAX_SAFE else n
  }

  /** addBounded, and the addition it stands for. */
  function Add(bounded: bool, left: int, right: int): (sum: int)
    ensures left >= 0 && right >= 0 ==> sum >= 0
  {
    if bounded && left + right > MAX_SAFE then MAX_SAFE else left + right
  }

  function Cut(left: int, right: int): nat {
    if left + right > MAX_SAFE then 1 else 0
  }

  // ----- Metric dimensions -----

  /** A missing or unknown value becomes `other`; any further label is dropped. */
  function BoundedDimensions(metric: Metric, labels: Dimensions): (d: Dimensions)
    ensures ValidDimensions(d, metric)
    ensures metric.CallbackTotal? ==>
              (Says(d, Success) <==> Says(labels, Success)) && (Says(d, Failure) <==> Says(labels, Failure))
  {
    map key | key in KeysOf(metric) ::
      if key in labels && Named(metric, key, labels[key]) then labels[key] else Other
  }

  /** Nothing else happens to a label set: a listed value of the metric's dimension is kept, and what
      is admissible as it stands is not touched. */
  lemma BoundedExactly(metric: Metric, labels: Dimensions, key: Dimension)
    requires key in BoundedDimensions(metric, labels)
    ensures key in labels && (labels[key].Other? || Named(metric, key, labels[key])) ==>
              BoundedDimensions(metric, labels)[key] == labels[key]
    ensures key !in labels || !Named(metric, key, labels[key]) ==> BoundedDimensions(metric, labels)[key] == Other
    ensures ValidDimensions(labels, metric) ==> BoundedDimensions(metric, labels) == labels
  {
  }

  predicate Says(labels: Dimensions, outcome: Label) {
    Outcome in labels && labels[Outcome] == outcome
  }

  // ----- Recording -----

  function KeyOf(metric: Metric, labels: Dimensions): Key {
    Key(metric, BoundedDimensions(metric, labels))
  }

  function CallbackShare(metric: Metric, labels: Dimensions, outcome: Label, value: int): int {
    if metric == CallbackTotal && Says(labels, outcome) then value else 0
  }

  function Incremented(bounded: bool, counters: Counters, key: Key, value: int): Counters {
    Put(counters, key, Add(bounded, Get(counters, key, 0), value))
  }

  function Empty(): Observed {
    Observed(Zero(), 0)
  }

  function Bumped(bounded: bool, o: Observed, i: nat): Observed
    requires i < BUCKETS
  {
    Observed(o.bucketCounts[i := Add(bounded, o.bucketCounts[i], 1)], Add(bounded, o.count, 1))
  }

  function Observing(bounded: bool, histograms: Histograms, key: Key, value: real): Histograms {
    Put(histograms, key, Bumped(bounded, Get(histograms, key, Empty()), BucketIndex(value)))
  }

  function Emitted(bounded: bool, alerts: Alerts, alert: AlertType): Alerts {
    Put(alerts, alert, Add(bounded, Get(alerts, alert, 0), 1))
  }

  /** A value that is not a nonnegative safe integer, or a sample that is not finite and
      nonnegative, is ignored. */
  predicate Ignored(r: Recording) {
    match r
    case Increments(_, _, value) => !SafeInteger(value)
    case Observes(_, value, _) => value.NonFinite? || value.ms < 0.0
    case Raises(_) => false
  }

  /** The sums after one recording; bounded as the producer stores them, or as they truly are. */
  function Recorded(bounded: bool, s: Sums, r: Recording): Sums {
    if Ignored(r) then s
    else
      match r
      case Increments(metric, labels, value) =>
        s.(counters := Incremented(bounded, s.counters, KeyOf(metric, labels), value),
           success := Add(bounded, s.success, CallbackShare(metric, labels, Success, value)),
           failure := Add(bounded, s.failure, CallbackShare(metric, labels, Failure, value)))
      case Observes(metric, value, labels) =>
        s.(histograms := Observing(bounded, s.histograms, KeyOf(metric, labels), value.ms))
      case Raises(alert) => s.(alerts := Emitted(bounded, s.alerts, alert))
  }

  /** How many of its additions are cut off. */
  function RecordingCuts(s: Sums, r: Recording): nat {
    if Ignored(r) then 0
    else
      match r
      case Increments(metric, labels, value) =>
        Cut(Get(s.counters, KeyOf(metric, labels), 0), value)
        + Cut(s.success, CallbackShare(metric, labels, Success, value))
        + Cut(s.failure, CallbackShare(metric, labels, Failure, value))
      case Observes(metric, value, labels) =>
        var o := Get(s.histograms, KeyOf(metric, labels), Empty());
        Cut(o.bucketCounts[BucketIndex(value.ms)], 1) + Cut(o.count, 1)
      case Raises(alert) => Cut(Get(s.alerts, alert, 0), 1)
  }

  // ----- Stored sums are true sums, cut off -----

  function Capping(): int -> int {
    (n: int) => Cap(n)
  }

  function CapBuckets(b: Buckets): Buckets {
    seq(BUCKETS, i requires 0 <= i < BUCKETS => Cap(b[i]))
  }

  function CapObserved(): Observed -> Observed {
    (o: Observed) => Observed(CapBuckets(o.bucketCounts), Cap(o.count))
  }

  function CapSums(t: Sums): Sums {
    Sums(WithValues(t.counters, Capping()), WithValues(t.histograms, CapObserved()), WithValues(t.alerts, Capping()),
         Cap(t.success), Cap(t.failure))
  }

  lemma CapIncremented(counters: Counters, key: Key, value: nat)
    ensures Incremented(true, WithValues(counters, Capping()), key, value)
            == WithValues(Incremented(false, counters, key, value), Capping())
    ensures Get(WithValues(counters, Capping()), key, 0) == Cap(Get(counters, key, 0))
  {
    PutWithValues(counters, Capping(), key, Get(counters, key, 0) + value, 0);
    assert Capping()(0) == 0;
  }

  lemma CapBumped(o: Observed, i: nat)
    requires i < BUCKETS
    ensures Bumped(true, CapObserved()(o), i) == CapObserved()(Bumped(false, o, i))
  {
    assert CapBuckets(o.bucketCounts)[i := Add(true, Cap(o.bucketCounts[i]), 1)]
        == CapBuckets(o.bucketCounts[i := o.bucketCounts[i] + 1]);
  }

  lemma CapEmpty()
    ensures CapObserved()(Empty()) == Empty()
  {
    assert CapBuckets(Zero()) == Zero();
  }

  lemma CapObserving(histograms: Histograms, key: Key, value: real)
    ensures Observing(true, WithValues(histograms, CapObserved()), key, value)
            == WithValues(Observing(false, histograms, key, value), CapObserved())
    ensures Get(WithValues(histograms, CapObserved()), key, Empty()) == CapObserved()(Get(histograms, key, Empty()))
  {
    CapEmpty();
    var o := Get(histograms, key, Empty());
    PutWithValues(histograms, CapObserved(), key, Bumped(false, o, BucketIndex(value)), Empty());
    CapBumped(o, BucketIndex(value));
  }

  lemma CapEmitted(alerts: Alerts, alert: AlertType)
    ensures Emitted(true, WithValues(alerts, Capping()), alert) == WithValues(Emitted(false, alerts, alert), Capping())
    ensures Get(WithValues(alerts, Capping()), alert, 0) == Cap(Get(alerts, alert, 0))
  {
    PutWithValues(alerts, Capping(), alert, Get(alerts, alert, 0) + 1, 0);
    assert Capping()(0) == 0;
  }

  /** Whatever is recorded, what the producer stores is what it should, cut off. */
  lemma RecordedCapped(t: Sums, r: Recording)
    ensures Recorded(true, CapSums(t), r) == CapSums(Recorded(false, t, r))
  {
    if !Ignored(r) {
      match r
      case Increments(metric, labels, value) => CapIncremented(t.counters, KeyOf(metric, labels), value);
      case Observes(metric, value, labels) => CapObserving(t.histograms, KeyOf(metric, labels), value.ms);
      case Raises(alert) => CapEmitted(t.alerts, alert);
    }
  }

  // ----- When nothing is cut off -----

  predicate AllAtMost<K>(m: OrderedMap<K, int>) {
    forall i | 0 <= i < |m| :: m[i].1 <= MAX_SAFE
  }

  predicate ObservedAtMost(o: Observed) {
    o.count <= MAX_SAFE && forall i | 0 <= i < BUCKETS :: o.bucketCounts[i] <= MAX_SAFE
  }

  predicate AllObservedAtMost(histograms: Histograms) {
    forall i | 0 <= i < |histograms| :: ObservedAtMost(histograms[i].1)
  }

  /** Every true sum is a safe integer. */
  predicate Representable(t: Sums) {
    AllAtMost(t.counters) && AllObservedAtMost(t.histograms) && AllAtMost(t.alerts)
    && t.success <= MAX_SAFE && t.failure <= MAX_SAFE
  }

  lemma CappedAtMost<K>(m: OrderedMap<K, int>)
    ensures WithValues(m, Capping()) == m <==> AllAtMost(m)
  {
    if i :| 0 <= i < |m| && m[i].1 > MAX_SAFE { assert WithValues(m, Capping())[i] != m[i]; }
  }

  lemma CappedObserved(o: Observed)
    ensures CapObserved()(o) == o <==> ObservedAtMost(o)
  {
    if i :| 0 <= i < BUCKETS && o.bucketCounts[i] > MAX_SAFE { assert CapBuckets(o.bucketCounts)[i] != o.bucketCounts[i]; }
    if ObservedAtMost(o) { assert CapBuckets(o.bucketCounts) == o.bucketCounts; }
  }

  lemma CappedHistograms(histograms: Histograms)
    ensures WithValues(histograms, CapObserved()) == histograms <==> AllObservedAtMost(histograms)
  {
    forall i | 0 <= i < |histograms|
      ensures WithValues(histograms, CapObserved())[i] == histograms[i] <==> ObservedAtMost(histograms[i].1)
    {
      CappedObserved(histograms[i].1);
    }
    if i :| 0 <= i < |histograms| && !ObservedAtMost(histograms[i].1) {
      assert WithValues(histograms, CapObserved())[i] != histograms[i];
    }
  }

  /** The stored sums are the true sums exactly when each true sum is a safe integer. */
  lemma StoredExactly(t: Sums)
    ensures CapSums(t) == t <==> Representable(t)
  {
    CappedAtMost(t.counters);
    CappedHistograms(t.histograms);
    CappedAtMost(t.alerts);
  }

  lemma PutAtMost<K>(m: OrderedMap<K, int>, key: K, value: int)
    requires AllAtMost(m) && value <= MAX_SAFE
    ensures AllAtMost(Put(m, key, value))
  {
  }

  lemma PutObservedAtMost(histograms: Histograms, key: Key, o: Observed)
    requires AllObservedAtMost(histograms) && ObservedAtMost(o)
    ensures AllObservedAtMost(Put(histograms, key, o))
  {
  }

  /** A recording that takes a true sum out of the safe integers is cut off where it does. */
  lemma CutsShow(t: Sums, r: Recording)
    requires Representable(t) && RecordingCuts(CapSums(t), r) == 0
    ensures Representable(Recorded(false, t, r))
  {
    StoredExactly(t);
    if !Ignored(r) {
      match r
      case Increments(metric, labels, value) =>
        var key := KeyOf(metric, labels);
        PutAtMost(t.counters, key, Get(t.counters, key, 0) + value);
      case Observes(metric, value, labels) =>
        var key := KeyOf(metric, labels);
        var o := Get(t.histograms, key, Empty());
        PutObservedAtMost(t.histograms, key, Bumped(false, o, BucketIndex(value.ms)));
      case Raises(alert) => PutAtMost(t.alerts, alert, Get(t.alerts, alert, 0) + 1);
    }
  }

  // ----- What the true sums are -----

  function CallbackWeight(outcome: Label): ((Key, int)) -> int {
    (p: (Key, int)) =>
      if p.0.metric.CallbackTotal? && Says(p.0.dimensions, outcome) then p.1 else 0
  }

  function SessionWeight(i: nat): ((Key, Observed)) -> int {
    (p: (Key, Observed)) =>
      if p.0.metric == LookupSeconds && i < |p.1.bucketCounts| then p.1.bucketCounts[i] else 0
  }

  ghost predicate CountersFiled(counters: Counters) {
    forall i | 0 <= i < |counters| ::
      CounterMetric(counters[i].0.metric) && ValidDimensions(counters[i].0.dimensions, counters[i].0.metric)
  }

  ghost predicate HistogramsFiled(histograms: Histograms) {
    forall i | 0 <= i < |histograms| ::
      HistogramMetric(histograms[i].0.metric) && ValidDimensions(histograms[i].0.dimensions, histograms[i].0.metric)
  }

  predicate NonNegative<K>(m: OrderedMap<K, int>) {
    forall i | 0 <= i < |m| :: m[i].1 >= 0
  }

  ghost predicate AlertsListed(alerts: Alerts) {
    forall i | 0 <= i < |alerts| :: !alerts[i].0.UnlistedAlert?
  }

  /** The running callback counts are the labelled counters' sums. */
  ghost predicate CountersExact(counters: Counters, success: int, failure: int) {
    && SumOver(counters, CallbackWeight(Success)) == success
    && SumOver(counters, CallbackWeight(Failure)) == failure
  }

  /** The session buckets, over all label combinations, are the histogram of the samples;
      and each histogram's count is the sum of its buckets. */
  ghost predicate HistogramsExact(histograms: Histograms, samples: seq<real>) {
    && (forall i | 0 <= i < BUCKETS :: SumOver(histograms, SessionWeight(i)) == Histogram(samples)[i])
    && (forall k | 0 <= k < |histograms| :: Total(histograms[k].1.bucketCounts) == histograms[k].1.count)
  }

  lemma IncrementExact(counters: Counters, metric: Metric, labels: Dimensions, value: nat, outcome: Label)
    requires outcome.Success? || outcome.Failure?
    ensures SumOver(Incremented(false, counters, KeyOf(metric, labels), value), CallbackWeight(outcome)) ==
            SumOver(counters, CallbackWeight(outcome)) + CallbackShare(metric, labels, outcome, value)
  {
    var key := KeyOf(metric, labels);
    PutSum(counters, key, Get(counters, key, 0) + value, CallbackWeight(outcome));
  }

  lemma BucketMoves(histograms: Histograms, key: Key, index: nat, i: nat)
    requires index < BUCKETS && i < BUCKETS
    ensures SumOver(Put(histograms, key, Bumped(false, Get(histograms, key, Empty()), index)), SessionWeight(i)) ==
            SumOver(histograms, SessionWeight(i)) + if key.metric == LookupSeconds && i == index then 1 else 0
  {
    var o := Get(histograms, key, Empty());
    PutSum(histograms, key, Bumped(false, o, index), SessionWeight(i));
    BumpedWeight(key, o, index, i);
    if Find(histograms, key) == |histograms| { NoWeight(key, i); }
  }

  lemma BumpedWeight(key: Key, o: Observed, index: nat, i: nat)
    requires index < BUCKETS && i < BUCKETS
    ensures SessionWeight(i)((key, Bumped(false, o, index)))
            == SessionWeight(i)((key, o)) + if key.metric == LookupSeconds && i == index then 1 else 0
  {
  }

  lemma NoWeight(key: Key, i: nat)
    ensures SessionWeight(i)((key, Empty())) == 0
  {
  }

  lemma BumpedExact(o: Observed, index: nat)
    requires index < BUCKETS && Total(o.bucketCounts) == o.count
    ensures Total(Bumped(false, o, index).bucketCounts) == Bumped(false, o, index).count
  {
    assert o.bucketCounts[index := o.bucketCounts[index] + 1] == Bump(o.bucketCounts, index);
    BumpedTotal(o.bucketCounts, index);
  }

  lemma ObserveExact(histograms: Histograms, samples: seq<real>, key: Key, value: real)
    requires HistogramsExact(histograms, samples)
    ensures HistogramsExact(Observing(false, histograms, key, value),
                            if key.metric == LookupSeconds then samples + [value] else samples)
  {
    var o, index := Get(histograms, key, Empty()), BucketIndex(value);
    var after := Observing(false, histograms, key, value);
    var later := if key.metric == LookupSeconds then samples + [value] else samples;
    assert (samples + [value])[..|samples|] == samples;
    forall i | 0 <= i < BUCKETS ensures SumOver(after, SessionWeight(i)) == Histogram(later)[i] {
      BucketMoves(histograms, key, index, i);
    }
    ZeroTotal();
    BumpedExact(o, index);
    forall k | 0 <= k < |after| ensures Total(after[k].1.bucketCounts) == after[k].1.count {
      assert after[k].1 == Bumped(false, o, index) || (k < |histograms| && after[k] == histograms[k]);
    }
  }

  /** The session samples of a recording. */
  function SamplesOf(r: Recording): seq<real> {
    if r.Observes? && !Ignored(r) && r.metric == LookupSeconds then [r.sample.ms] else []
  }

  /** Whether the metric was recorded as the wrong kind. */
  predicate Misfiles(r: Recording) {
    !Ignored(r) && match r
                   case Increments(metric, _, _) => !CounterMetric(metric)
                   case Observes(metric, _, _) => !HistogramMetric(metric)
                   case Raises(_) => false
  }

  predicate Listed(r: Recording) {
    match r
    case Increments(metric, _, _) => !metric.UnlistedMetric?
    case Observes(metric, _, _) => !metric.UnlistedMetric?
    case Raises(alert) => !alert.UnlistedAlert?
  }

  ghost predicate CountersShaped(counters: Counters, misfiled: bool) {
    Unique(counters) && NonNegative(counters) && (!misfiled ==> CountersFiled(counters))
  }

  ghost predicate CountersTruthful(counters: Counters, success: int, failure: int, misfiled: bool) {
    CountersShaped(counters, misfiled) && success >= 0 && failure >= 0 && CountersExact(counters, success, failure)
  }

  ghost predicate HistogramsTruthful(histograms: Histograms, samples: seq<real>, misfiled: bool) {
    Unique(histograms) && (!misfiled ==> HistogramsFiled(histograms)) && HistogramsExact(histograms, samples)
  }

  ghost predicate AlertsTruthful(alerts: Alerts) {
    Unique(alerts) && NonNegative(alerts) && AlertsListed(alerts)
  }

  /** What is kept about the true sums: unlike the stored ones they add up whatever happens. */
  ghost predicate Truthful(t: Sums, samples: seq<real>, misfiled: bool) {
    && CountersTruthful(t.counters, t.success, t.failure, misfiled)
    && HistogramsTruthful(t.histograms, samples, misfiled)
    && AlertsTruthful(t.alerts)
  }

  lemma CounterRecorded(
    counters: Counters, success: int, failure: int, misfiled: bool, metric: Metric, labels: Dimensions, value: nat)
    requires CountersTruthful(counters, success, failure, misfiled)
    ensures CountersTruthful(Incremented(false, counters, KeyOf(metric, labels), value),
                             success + CallbackShare(metric, labels, Success, value),
                             failure + CallbackShare(metric, labels, Failure, value),
                             misfiled || !CounterMetric(metric))
  {
    ShapeRecorded(counters, misfiled, metric, labels, value);
    CallbacksRecorded(counters, success, failure, metric, labels, value);
  }

  lemma ShapeRecorded(counters: Counters, misfiled: bool, metric: Metric, labels: Dimensions, value: nat)
    requires CountersShaped(counters, misfiled)
    ensures CountersShaped(Incremented(false, counters, KeyOf(metric, labels), value), misfiled || !CounterMetric(metric))
  {
    var key := KeyOf(metric, labels);
    GetNonNegative(counters, key);
    CounterStored(counters, misfiled, key, Get(counters, key, 0) + value);
  }

  lemma CallbacksRecorded(counters: Counters, success: int, failure: int, metric: Metric, labels: Dimensions, value: nat)
    requires CountersExact(counters, success, failure)
    ensures CountersExact(Incremented(false, counters, KeyOf(metric, labels), value),
                          success + CallbackShare(metric, labels, Success, value),
                          failure + CallbackShare(metric, labels, Failure, value))
  {
    IncrementExact(counters, metric, labels, value, Success);
    IncrementExact(counters, metric, labels, value, Failure);
  }

  lemma CounterStored(counters: Counters, misfiled: bool, key: Key, value: nat)
    requires CountersShaped(counters, misfiled) && ValidDimensions(key.dimensions, key.metric)
    ensures CountersShaped(Put(counters, key, value), misfiled || !CounterMetric(key.metric))
  {
    PutUnique(counters, key, value);
    PutNonNegative(counters, key, value);
    if !misfiled && CounterMetric(key.metric) { PutCounterFiled(counters, key, value); }
  }

  lemma PutNonNegative<K>(m: OrderedMap<K, int>, key: K, value: nat)
    requires NonNegative(m)
    ensures NonNegative(Put(m, key, value))
  {
  }

  lemma PutCounterFiled(counters: Counters, key: Key, value: int)
    requires CountersFiled(counters) && CounterMetric(key.metric) && ValidDimensions(key.dimensions, key.metric)
    ensures CountersFiled(Put(counters, key, value))
  {
  }

  lemma GetNonNegative<K>(m: OrderedMap<K, int>, key: K)
    requires NonNegative(m)
    ensures Get(m, key, 0) >= 0
  {
  }

  lemma SampleRecorded(histograms: Histograms, samples: seq<real>, misfiled: bool, metric: Metric, labels: Dimensions, value: real)
    requires HistogramsTruthful(histograms, samples, misfiled)
    ensures HistogramsTruthful(Observing(false, histograms, KeyOf(metric, labels), value),
                               if metric == LookupSeconds then samples + [value] else samples,
                               misfiled || !HistogramMetric(metric))
  {
    var key := KeyOf(metric, labels);
    PutUnique(histograms, key, Bumped(false, Get(histograms, key, Empty()), BucketIndex(value)));
    ObserveExact(histograms, samples, key, value);
  }

  lemma AlertRecorded(alerts: Alerts, alert: AlertType)
    requires AlertsTruthful(alerts) && !alert.UnlistedAlert?
    ensures AlertsTruthful(Emitted(false, alerts, alert))
  {
    GetNonNegative(alerts, alert);
    PutUnique(alerts, alert, Get(alerts, alert, 0) + 1);
  }

  lemma RecordedTruthful(t: Sums, samples: seq<real>, misfiled: bool, r: Recording)
    requires Truthful(t, samples, misfiled) && Listed(r)
    ensures Truthful(Recorded(false, t, r), samples + SamplesOf(r), misfiled || Misfiles(r))
  {
    NoSamples(samples);
    if !Ignored(r) {
      match r
      case Increments(metric, labels, value) => IncrementTruthful(t, samples, misfiled, metric, labels, value);
      case Observes(metric, value, labels) =>
        SampleRecorded(t.histograms, samples, misfiled, metric, labels, value.ms);
      case Raises(alert) => AlertRecorded(t.alerts, alert);
    }
  }

  lemma NoSamples(samples: seq<real>)
    ensures samples + [] == samples
  {
  }

  lemma IncrementTruthful(t: Sums, samples: seq<real>, misfiled: bool, metric: Metric, labels: Dimensions, value: nat)
    requires Truthful(t, samples, misfiled) && SafeInteger(value) && !metric.UnlistedMetric?
    ensures var r := Increments(metric, labels, value);
            Truthful(Recorded(false, t, r), samples, misfiled || Misfiles(r))
  {
    CounterRecorded(t.counters, t.success, t.failure, misfiled, metric, labels, value);
  }

  // ----- The sample-based evaluation -----

  predicate Ascending(x: real, y: real) {
    x <= y
  }

  /** evaluateAuthAggregates: the callback ratio and the nearest-rank p95 of the sorted samples. */
  function EvaluateAggregates(success: nat, failure: nat, samples: seq<real>): set<AlertType> {
    (if success + failure >= 100 && success as real / (success + failure) as real < 0.995
     then {OidcCallbackSuccessSlo} else {})
    + (if SlowSamples(samples) then {SessionLookupLatencySlo} else {})
  }

  predicate SlowSamples(samples: seq<real>) {
    |samples| >= MINIMUM_SAMPLES && Ordered(samples)[Rank(|samples|) - 1] > SLO_SECONDS
  }

  function Ordered(samples: seq<real>): (ordered: seq<real>)
    ensures |ordered| == |samples|
    ensures multiset(ordered) == multiset(samples)
  {
    SortPermutes(samples, Ascending);
    PermutationLength(samples, StableSort(samples, Ascending));
    StableSort(samples, Ascending)
  }

  lemma Scaled(a: real, b: real, n: real)
    requires a < b && n > 0.0
    ensures a * n < b * n
  {
    assert (b - a) * n > 0.0;
  }

  lemma Quotient(q: real, s: real, n: real)
    requires n > 0.0 && q * n == s
    ensures q < 0.995 <==> s < 0.995 * n
  {
    if q < 0.995 { Scaled(q, 0.995, n); }
    if q > 0.995 { Scaled(0.995, q, n); }
  }

  lemma Divides(q: real, s: real, n: real)
    requires n > 0.0 && q == s / n
    ensures q * n == s
  {
  }

  lemma Thousandths(s: int, n: int)
    ensures s as real < 0.995 * n as real <==> s * 1_000 < n * 995
  {
    assert (s * 1_000) as real == s as real * 1000.0;
    assert (n * 995) as real == n as real * 995.0;
  }

  lemma Ratio(success: nat, callbacks: nat)
    requires callbacks > 0
    ensures success as real / callbacks as real < 0.995 <==> success * 1_000 < callbacks * 995
  {
    var s, n := success as real, callbacks as real;
    Divides(s / n, s, n);
    Quotient(s / n, s, n);
    Thousandths(success, callbacks);
  }

  /** The bucketed test, run on the exact histogram, is the sample-based one. */
  lemma BucketedTest(samples: seq<real>, bucket: int)
    requires |samples| >= MINIMUM_SAMPLES
    requires bucket >= 0 ==> HoldsRank(Histogram(samples), Rank(|samples|), bucket)
    requires bucket == -1 ==> Total(Histogram(samples)) < Rank(|samples|)
    requires bucket >= -1
    ensures bucket >= SLO_BOUND + 1 <==> SlowSamples(samples)
  {
    var ordered := Ordered(samples);
    SortSorts(samples, Ascending);
    HistogramTotal(samples);
    assert Sorted(ordered) by {
      forall i, j | 0 <= i < j < |ordered| ensures ordered[i] <= ordered[j] {
        assert Ascending(ordered[i], ordered[j]);
      }
    }
    BucketedTestIsExact(samples, ordered, bucket);
  }
}
