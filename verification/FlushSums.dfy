/** What `flush` computes from the stored sums (src/auth-observability.ts, lines 568-614): the session
    buckets over all label sets, the two service level tests, the critical count and the
    snapshot; and what these are of the true sums. */
module FlushSums {
  import opened Sequences
  import opened Sorting
  import opened OrderedMaps
  import opened LatencyHistogram
  import opened RolloutContract
  import opened Aggregates
  import opened ClockChain
  import opened GapMarks

  // ----- Capped sums -----

  lemma AddCapped(x: int, y: int)
    requires y >= 0
    ensures Add(true, Cap(x), y) == Cap(x + y)
  {
  }

  lemma CapSum(a: int, b: int, c: int, d: int)
    requires a >= 0 && b >= 0 && c >= 0 && d >= 0 && Cap(a) == Cap(c) && Cap(b) == Cap(d)
    ensures Cap(a + b) == Cap(c + d)
  {
  }

  // ----- Session buckets -----

  function ShareOf(p: (Key, Observed)): Buckets {
    if p.0.metric == LookupSeconds then p.1.bucketCounts else Zero()
  }

  /** The sums over the histograms of session lookups. */
  function SessionPrefix(histograms: Histograms): Buckets {
    if histograms == [] then Zero()
    else Plus(SessionPrefix(histograms[..|histograms| - 1]), ShareOf(histograms[|histograms| - 1]))
  }

  /** The same as the loop adds them up. */
  function SessionBuckets(histograms: Histograms): Buckets {
    CapBuckets(SessionPrefix(histograms))
  }

  function SessionCount(histograms: Histograms): nat {
    Cap(Total(SessionPrefix(histograms)))
  }

  /** Cut-off additions among the first `upTo` buckets of one histogram, and to the running count. */
  function BucketCuts(buckets: Buckets, count: nat, added: Buckets, upTo: nat): nat
    requires upTo <= BUCKETS
  {
    if upTo == 0 then 0
    else
      var i := upTo - 1;
      BucketCuts(buckets, count, added, i) + Cut(buckets[i], added[i]) + Cut(Cap(count + Total(added[..i])), added[i])
  }

  function SessionCuts(histograms: Histograms): nat {
    if histograms == [] then 0
    else
      var init, last := histograms[..|histograms| - 1], histograms[|histograms| - 1];
      SessionCuts(init)
      + if last.0.metric == LookupSeconds then
          BucketCuts(SessionBuckets(init), SessionCount(init), last.1.bucketCounts, BUCKETS) else 0
  }

  lemma PlusTotal(a: Buckets, b: Buckets)
    ensures Total(Plus(a, b)) == Total(a) + Total(b)
  {
    TotalOfPlus(a, b, BUCKETS);
    assert a[..BUCKETS] == a && b[..BUCKETS] == b && Plus(a, b)[..BUCKETS] == Plus(a, b);
  }

  lemma {:induction false} PrefixIsSum(histograms: Histograms, i: nat)
    requires i < BUCKETS
    ensures SessionPrefix(histograms)[i] == SumOver(histograms, SessionWeight(i))
  {
    if histograms != [] { PrefixIsSum(histograms[..|histograms| - 1], i); }
  }

  lemma {:induction false} CapTotal(b: seq<nat>, c: seq<nat>)
    requires |b| == |c| && forall i | 0 <= i < |b| :: c[i] == Cap(b[i])
    ensures Cap(Total(c)) == Cap(Total(b))
  {
    if b != [] {
      CapTotal(b[..|b| - 1], c[..|c| - 1]);
      CapSum(Total(b[..|b| - 1]), b[|b| - 1], Total(c[..|c| - 1]), c[|c| - 1]);
    }
  }

  /** Capping every histogram first changes neither the capped buckets nor the capped count. */
  lemma {:induction false} CappedPrefix(histograms: Histograms)
    ensures var stored := WithValues(histograms, CapObserved());
            && CapBuckets(SessionPrefix(stored)) == CapBuckets(SessionPrefix(histograms))
            && Cap(Total(SessionPrefix(stored))) == Cap(Total(SessionPrefix(histograms)))
  {
    var stored := WithValues(histograms, CapObserved());
    if histograms != [] {
      var n := |histograms| - 1;
      var init, last := histograms[..n], histograms[n];
      CappedPrefix(init);
      assert stored[..n] == WithValues(init, CapObserved());
      CappedShare(last);
      PlusCapped(SessionPrefix(stored[..n]), ShareOf(stored[n]), SessionPrefix(init), ShareOf(last));
    }
  }

  lemma CappedShare(p: (Key, Observed))
    ensures CapBuckets(ShareOf((p.0, CapObserved()(p.1)))) == CapBuckets(ShareOf(p))
    ensures Cap(Total(ShareOf((p.0, CapObserved()(p.1))))) == Cap(Total(ShareOf(p)))
  {
    if p.0.metric == LookupSeconds { CapTotal(p.1.bucketCounts, CapBuckets(p.1.bucketCounts)); }
  }

  lemma PlusCappedBuckets(a: Buckets, b: Buckets, c: Buckets, d: Buckets)
    requires CapBuckets(a) == CapBuckets(c) && CapBuckets(b) == CapBuckets(d)
    ensures CapBuckets(Plus(a, b)) == CapBuckets(Plus(c, d))
  {
    forall i | 0 <= i < BUCKETS ensures CapBuckets(Plus(a, b))[i] == CapBuckets(Plus(c, d))[i] {
      assert CapBuckets(a)[i] == CapBuckets(c)[i] && CapBuckets(b)[i] == CapBuckets(d)[i];
      CapSum(a[i], b[i], c[i], d[i]);
    }
  }

  lemma PlusCapped(a: Buckets, b: Buckets, c: Buckets, d: Buckets)
    requires CapBuckets(a) == CapBuckets(c) && CapBuckets(b) == CapBuckets(d)
    requires Cap(Total(a)) == Cap(Total(c)) && Cap(Total(b)) == Cap(Total(d))
    ensures CapBuckets(Plus(a, b)) == CapBuckets(Plus(c, d))
    ensures Cap(Total(Plus(a, b))) == Cap(Total(Plus(c, d)))
  {
    PlusCappedBuckets(a, b, c, d);
    PlusTotal(a, b);
    PlusTotal(c, d);
    CapSum(Total(a), Total(b), Total(c), Total(d));
  }

  /** What flush sums is the histogram of the samples and their number, each cut off. */
  lemma FlushedSessions(histograms: Histograms, samples: seq<real>)
    requires HistogramsExact(histograms, samples)
    ensures SessionPrefix(histograms) == Histogram(samples)
    ensures SessionBuckets(WithValues(histograms, CapObserved())) == CapBuckets(Histogram(samples))
    ensures SessionCount(WithValues(histograms, CapObserved())) == Cap(|samples|)
  {
    forall i | 0 <= i < BUCKETS ensures SessionPrefix(histograms)[i] == Histogram(samples)[i] {
      PrefixIsSum(histograms, i);
    }
    HistogramTotal(samples);
    CappedPrefix(histograms);
  }

  lemma {:induction false} NoBucketCut(buckets: Buckets, count: nat, added: Buckets, upTo: nat)
    requires upTo <= BUCKETS && BucketCuts(buckets, count, added, upTo) == 0 && count <= MAX_SAFE
    ensures count + Total(added[..upTo]) <= MAX_SAFE
  {
    if upTo > 0 {
      NoBucketCut(buckets, count, added, upTo - 1);
      assert added[..upTo][..upTo - 1] == added[..upTo - 1];
    }
  }

  /** If nothing was cut off while the buckets were summed, their number is a safe integer. */
  lemma {:induction false} SessionCutsShow(histograms: Histograms)
    requires SessionCuts(histograms) == 0
    ensures Total(SessionPrefix(histograms)) <= MAX_SAFE
  {
    if histograms == [] {
      ZeroTotal();
    } else {
      var init, last := histograms[..|histograms| - 1], histograms[|histograms| - 1];
      SessionCutsShow(init);
      PlusTotal(SessionPrefix(init), ShareOf(last));
      if last.0.metric == LookupSeconds {
        NoBucketCut(SessionBuckets(init), SessionCount(init), last.1.bucketCounts, BUCKETS);
        assert last.1.bucketCounts[..BUCKETS] == last.1.bucketCounts;
      } else {
        ZeroTotal();
      }
    }
  }

  // ----- Service levels -----

  /** The bucket holding the rank lies above 20 ms. */
  predicate SlowBuckets(b: Buckets, count: nat) {
    count >= MINIMUM_SAMPLES && Total(b[..SLO_BOUND + 1]) < Rank(count) <= Total(b)
  }

  lemma {:induction false} FirstReaching(b: seq<nat>, rank: nat) returns (bucket: nat)
    requires 0 < rank <= Total(b)
    ensures HoldsRank(b, rank, bucket)
  {
    var n := |b| - 1;
    if rank <= Total(b[..n]) {
      bucket := FirstReaching(b[..n], rank);
      assert b[..n][..bucket] == b[..bucket] && b[..n][..bucket + 1] == b[..bucket + 1];
    } else {
      bucket := n;
      assert b[..n + 1] == b;
    }
  }

  lemma SlowByBucket(b: Buckets, count: nat, bucket: int)
    requires count >= MINIMUM_SAMPLES && -1 <= bucket < BUCKETS
    requires bucket >= 0 ==> HoldsRank(b, Rank(count), bucket)
    requires bucket == -1 ==> Total(b) < Rank(count)
    ensures bucket >= SLO_BOUND + 1 <==> SlowBuckets(b, count)
  {
    if bucket >= 0 {
      if bucket >= SLO_BOUND + 1 {
        TotalMonotone(b, SLO_BOUND + 1, bucket);
      } else {
        TotalMonotone(b, bucket + 1, SLO_BOUND + 1);
      }
      TotalMonotone(b, bucket + 1, BUCKETS);
      assert b[..BUCKETS] == b;
    }
  }

  /** On the samples' own histogram the test is the sample-based one. */
  lemma SlowExactly(samples: seq<real>)
    ensures SlowBuckets(Histogram(samples), |samples|) <==> SlowSamples(samples)
  {
    if |samples| >= MINIMUM_SAMPLES {
      HistogramTotal(samples);
      var bucket := FirstReaching(Histogram(samples), Rank(|samples|));
      BucketedTest(samples, bucket);
      SlowByBucket(Histogram(samples), |samples|, bucket);
    }
  }

  lemma BucketWithin(b: Buckets, i: nat)
    requires i < BUCKETS
    ensures b[i] <= Total(b)
  {
    TotalMonotone(b, i + 1, BUCKETS);
    assert b[..BUCKETS] == b && b[..i + 1][..i] == b[..i] && b[..i + 1][i] == b[i];
  }

  lemma UncutHistogram(samples: seq<real>)
    requires |samples| <= MAX_SAFE
    ensures CapBuckets(Histogram(samples)) == Histogram(samples)
  {
    HistogramTotal(samples);
    forall i | 0 <= i < BUCKETS ensures Histogram(samples)[i] <= MAX_SAFE { BucketWithin(Histogram(samples), i); }
  }

  function Raised(success: int, failure: int, b: Buckets, count: nat): set<AlertType> {
    (if success + failure >= 100 && success * 1_000 < (success + failure) * 995 then {OidcCallbackSuccessSlo} else {})
    + (if SlowBuckets(b, count) then {SessionLookupLatencySlo} else {})
  }

  /** The alerts flush raises are those evaluateAuthAggregates raises on the true counts and the
      raw samples, as long as these are safe integers. */
  lemma RaisedExactly(success: nat, failure: nat, samples: seq<real>)
    requires |samples| <= MAX_SAFE
    ensures Raised(success, failure, CapBuckets(Histogram(samples)), Cap(|samples|))
            == EvaluateAggregates(success, failure, samples)
  {
    UncutHistogram(samples);
    SlowExactly(samples);
    RatioTest(success, failure);
  }

  lemma RatioTest(success: nat, failure: nat)
    ensures success + failure >= 100 && success * 1_000 < (success + failure) * 995
            <==> success + failure >= 100 && success as real / (success + failure) as real < 0.995
  {
    if success + failure > 0 { Ratio(success, success + failure); }
  }

  function WithSlos(bounded: bool, alerts: Alerts, raised: set<AlertType>): Alerts {
    var first := if OidcCallbackSuccessSlo in raised then Emitted(bounded, alerts, OidcCallbackSuccessSlo) else alerts;
    if SessionLookupLatencySlo in raised then Emitted(bounded, first, SessionLookupLatencySlo) else first
  }

  function SloCuts(alerts: Alerts, raised: set<AlertType>): nat {
    var first := if OidcCallbackSuccessSlo in raised then Emitted(true, alerts, OidcCallbackSuccessSlo) else alerts;
    (if OidcCallbackSuccessSlo in raised then Cut(Get(alerts, OidcCallbackSuccessSlo, 0), 1) else 0)
    + if SessionLookupLatencySlo in raised then Cut(Get(first, SessionLookupLatencySlo, 0), 1) else 0
  }

  lemma CapWithSlos(alerts: Alerts, raised: set<AlertType>)
    ensures WithSlos(true, WithValues(alerts, Capping()), raised) == WithValues(WithSlos(false, alerts, raised), Capping())
  {
    CapEmitted(alerts, OidcCallbackSuccessSlo);
    var first := if OidcCallbackSuccessSlo in raised then Emitted(false, alerts, OidcCallbackSuccessSlo) else alerts;
    CapEmitted(first, SessionLookupLatencySlo);
  }

  lemma SlosTruthful(alerts: Alerts, raised: set<AlertType>)
    requires AlertsTruthful(alerts)
    ensures AlertsTruthful(WithSlos(false, alerts, raised))
  {
    AlertRecorded(alerts, OidcCallbackSuccessSlo);
    var first := if OidcCallbackSuccessSlo in raised then Emitted(false, alerts, OidcCallbackSuccessSlo) else alerts;
    AlertRecorded(first, SessionLookupLatencySlo);
  }

  lemma SloCutsShow(alerts: Alerts, raised: set<AlertType>)
    requires AllAtMost(alerts) && SloCuts(alerts, raised) == 0
    ensures AllAtMost(WithSlos(false, alerts, raised))
  {
    var first := if OidcCallbackSuccessSlo in raised then Emitted(false, alerts, OidcCallbackSuccessSlo) else alerts;
    if OidcCallbackSuccessSlo in raised { PutAtMost(alerts, OidcCallbackSuccessSlo, Get(alerts, OidcCallbackSuccessSlo, 0) + 1); }
    if SessionLookupLatencySlo in raised { PutAtMost(first, SessionLookupLatencySlo, Get(first, SessionLookupLatencySlo, 0) + 1); }
  }

  // ----- Critical incidents -----

  function CriticalShare(): ((AlertType, int)) -> int {
    (p: (AlertType, int)) => if Critical(p.0) then p.1 else 0
  }

  function CriticalCount(alerts: Alerts): int {
    Cap(SumOver(alerts, CriticalShare()))
  }

  function CriticalCuts(alerts: Alerts): nat {
    if alerts == [] then 0
    else
      var init, last := alerts[..|alerts| - 1], alerts[|alerts| - 1];
      CriticalCuts(init) + if Critical(last.0) then Cut(CriticalCount(init), last.1) else 0
  }

  lemma {:induction false} CriticalNonNegative(alerts: Alerts)
    requires NonNegative(alerts)
    ensures SumOver(alerts, CriticalShare()) >= 0
  {
    if alerts != [] { CriticalNonNegative(alerts[..|alerts| - 1]); }
  }

  lemma {:induction false} CappedCritical(alerts: Alerts)
    requires NonNegative(alerts)
    ensures CriticalCount(WithValues(alerts, Capping())) == CriticalCount(alerts)
  {
    if alerts != [] {
      var n := |alerts| - 1;
      var stored := WithValues(alerts, Capping());
      assert stored[..n] == WithValues(alerts[..n], Capping());
      CappedCritical(alerts[..n]);
      CriticalNonNegative(alerts[..n]);
      CriticalNonNegative(stored[..n]);
      CapSum(SumOver(stored[..n], CriticalShare()), CriticalShare()(stored[n]),
             SumOver(alerts[..n], CriticalShare()), CriticalShare()(alerts[n]));
    }
  }

  lemma {:induction false} CriticalCutsShow(alerts: Alerts)
    requires CriticalCuts(alerts) == 0
    ensures SumOver(alerts, CriticalShare()) <= MAX_SAFE
  {
    if alerts != [] { CriticalCutsShow(alerts[..|alerts| - 1]); }
  }

  // ----- The snapshot -----

  function ToCounter(): ((Key, int)) -> Counter {
    (p: (Key, int)) => Counter(p.0.metric, p.0.dimensions, p.1)
  }

  function ToHistogram(): ((Key, Observed)) -> HistogramRecord {
    (p: (Key, Observed)) => HistogramRecord(p.0.metric, p.0.dimensions, BOUNDS, p.1.bucketCounts, p.1.count)
  }

  function ToAlertCount(): ((AlertType, int)) -> AlertCount {
    (p: (AlertType, int)) => AlertCount(p.0, p.1)
  }

  /** The interval's identity and place. */
  datatype Cell = Cell(instanceId: string, stageId: string, sequence: int, start: real, end: real)

  function RaisedBy(s: Sums): set<AlertType> {
    Raised(s.success, s.failure, SessionBuckets(s.histograms), SessionCount(s.histograms))
  }

  function AlertsWithSlos(s: Sums): Alerts {
    WithSlos(true, s.alerts, RaisedBy(s))
  }

  /** The cut-off additions of the loops of flush. */
  function FlushCuts(s: Sums): nat {
    SessionCuts(s.histograms) + SloCuts(s.alerts, RaisedBy(s)) + CriticalCuts(AlertsWithSlos(s))
  }

  /** The snapshot of the stored sums with these gaps. */
  function Report(cell: Cell, s: Sums, gaps: Gaps): Snapshot {
    var alerts := AlertsWithSlos(s);
    Snapshot(cell.instanceId, cell.stageId, cell.sequence, Printed(cell.start), Printed(cell.end),
             Map(s.counters, ToCounter()), Map(s.histograms, ToHistogram()), Map(alerts, ToAlertCount()),
             CriticalCount(alerts), gaps == [], Map(gaps, ToGap()))
  }

  // ----- What it is of the true sums -----

  lemma CapNonNegative(t: Sums, samples: seq<real>, misfiled: bool)
    requires Truthful(t, samples, misfiled)
    ensures RaisedBy(CapSums(t)) == Raised(Cap(t.success), Cap(t.failure), CapBuckets(Histogram(samples)), Cap(|samples|))
    ensures AlertsWithSlos(CapSums(t)) == WithValues(WithSlos(false, t.alerts, RaisedBy(CapSums(t))), Capping())
    ensures CriticalCount(AlertsWithSlos(CapSums(t)))
            == CriticalCount(WithSlos(false, t.alerts, RaisedBy(CapSums(t))))
  {
    FlushedSessions(t.histograms, samples);
    CapWithSlos(t.alerts, RaisedBy(CapSums(t)));
    SlosTruthful(t.alerts, RaisedBy(CapSums(t)));
    CappedCritical(WithSlos(false, t.alerts, RaisedBy(CapSums(t))));
  }

  /** The true sums of a flush: those recorded, the alerts it raises itself, and the totals it
      forms of both. */
  ghost predicate AllRepresentable(t: Sums, samples: seq<real>) {
    var alerts := WithSlos(false, t.alerts, RaisedBy(CapSums(t)));
    && Representable(t) && |samples| <= MAX_SAFE
    && AllAtMost(alerts) && SumOver(alerts, CriticalShare()) <= MAX_SAFE
  }

  /** If neither recording nor flushing cut anything off, all the true sums are safe. */
  lemma FlushCutsShow(t: Sums, samples: seq<real>, misfiled: bool)
    requires Truthful(t, samples, misfiled) && Representable(t) && FlushCuts(CapSums(t)) == 0
    ensures AllRepresentable(t, samples)
  {
    StoredExactly(t);
    SessionsShown(t.histograms, samples);
    AlertsShown(t.alerts, RaisedBy(t));
  }

  lemma SessionsShown(histograms: Histograms, samples: seq<real>)
    requires HistogramsExact(histograms, samples) && SessionCuts(histograms) == 0
    ensures |samples| <= MAX_SAFE
  {
    FlushedSessions(histograms, samples);
    SessionCutsShow(histograms);
    HistogramTotal(samples);
  }

  lemma AlertsShown(alerts: Alerts, raised: set<AlertType>)
    requires AllAtMost(alerts) && SloCuts(alerts, raised) == 0 && CriticalCuts(WithSlos(true, alerts, raised)) == 0
    ensures var after := WithSlos(false, alerts, raised); AllAtMost(after) && SumOver(after, CriticalShare()) <= MAX_SAFE
  {
    var after := WithSlos(false, alerts, raised);
    SloCutsShow(alerts, raised);
    CapWithSlos(alerts, raised);
    CappedAtMost(alerts);
    CappedAtMost(after);
    CriticalCutsShow(after);
  }

  /** Every number in the snapshot is the true one, cut off. */
  lemma ReportCapped(cell: Cell, t: Sums, samples: seq<real>, misfiled: bool, gaps: Gaps)
    requires Truthful(t, samples, misfiled)
    ensures var s, alerts := Report(cell, CapSums(t), gaps), WithSlos(false, t.alerts, RaisedBy(CapSums(t)));
            && s.counters == Map(WithValues(t.counters, Capping()), ToCounter())
            && s.histograms == Map(WithValues(t.histograms, CapObserved()), ToHistogram())
            && s.alerts == Map(WithValues(alerts, Capping()), ToAlertCount())
            && s.criticalIncidents == Cap(SumOver(alerts, CriticalShare()))
  {
    CapNonNegative(t, samples, misfiled);
  }

  lemma MapInjective<T, U>(a: seq<T>, b: seq<T>, f: T -> U)
    requires forall x, y | f(x) == f(y) :: x == y
    ensures Map(a, f) == Map(b, f) <==> a == b
  {
    if Map(a, f) == Map(b, f) {
      forall i | 0 <= i < |a| ensures a[i] == b[i] { assert Map(a, f)[i] == Map(b, f)[i]; }
    }
  }

  /** The snapshot's sums are the true sums exactly when each true sum is a safe integer. */
  lemma ReportExactly(cell: Cell, t: Sums, samples: seq<real>, misfiled: bool, gaps: Gaps)
    requires Truthful(t, samples, misfiled)
    ensures var s, alerts := Report(cell, CapSums(t), gaps), WithSlos(false, t.alerts, RaisedBy(CapSums(t)));
            && (s.counters == Map(t.counters, ToCounter()) <==> AllAtMost(t.counters))
            && (s.histograms == Map(t.histograms, ToHistogram()) <==> AllObservedAtMost(t.histograms))
            && (s.alerts == Map(alerts, ToAlertCount()) <==> AllAtMost(alerts))
            && (s.criticalIncidents == SumOver(alerts, CriticalShare()) <==> SumOver(alerts, CriticalShare()) <= MAX_SAFE)
  {
    var alerts := WithSlos(false, t.alerts, RaisedBy(CapSums(t)));
    ReportCapped(cell, t, samples, misfiled, gaps);
    CappedAtMost(t.counters);
    CappedHistograms(t.histograms);
    CappedAtMost(alerts);
    MapInjective(WithValues(t.counters, Capping()), t.counters, ToCounter());
    MapInjective(WithValues(t.histograms, CapObserved()), t.histograms, ToHistogram());
    MapInjective(WithValues(alerts, Capping()), alerts, ToAlertCount());
  }

  // ----- What the judge admits -----

  ghost predicate Stored(s: Sums) {
    && (forall i | 0 <= i < |s.counters| :: SafeInteger(s.counters[i].1))
    && AllObservedAtMost(s.histograms)
    && AlertsSafe(s.alerts)
  }

  ghost predicate AlertsSafe(alerts: Alerts) {
    forall i | 0 <= i < |alerts| :: SafeInteger(alerts[i].1) && !alerts[i].0.UnlistedAlert?
  }

  ghost predicate CountsAddUp(histograms: Histograms) {
    forall k | 0 <= k < |histograms| :: Total(histograms[k].1.bucketCounts) == histograms[k].1.count
  }

  lemma SlosSafe(alerts: Alerts, raised: set<AlertType>)
    requires AlertsSafe(alerts)
    ensures AlertsSafe(WithSlos(true, alerts, raised))
  {
    EmittedSafe(alerts, OidcCallbackSuccessSlo);
    var first := if OidcCallbackSuccessSlo in raised then Emitted(true, alerts, OidcCallbackSuccessSlo) else alerts;
    EmittedSafe(first, SessionLookupLatencySlo);
  }

  lemma EmittedSafe(alerts: Alerts, alert: AlertType)
    requires AlertsSafe(alerts) && !alert.UnlistedAlert?
    ensures AlertsSafe(Emitted(true, alerts, alert))
  {
  }

  lemma {:induction false} CriticalWeights(alerts: Alerts)
    requires AlertsSafe(alerts)
    ensures SumOver(Map(alerts, ToAlertCount()), CriticalWeight()) == SumOver(alerts, CriticalShare())
  {
    if alerts != [] {
      CriticalWeights(alerts[..|alerts| - 1]);
      assert Map(alerts, ToAlertCount())[..|alerts| - 1] == Map(alerts[..|alerts| - 1], ToAlertCount());
    }
  }

  lemma {:induction false} TotalIsSum(b: seq<nat>, c: seq<int>)
    requires b == c
    ensures SumOver(c, Itself()) == Total(b)
  {
    if b != [] { TotalIsSum(b[..|b| - 1], c[..|c| - 1]); }
  }

  /** What the judge admits of the producer's snapshots, exactly: a numbered interval that does not
      print as empty, metrics recorded as their own kind, and counts that were not cut apart. */
  lemma ReportAdmitted(cell: Cell, s: Sums, gaps: Gaps)
    requires Stored(s) && GapsOk(gaps)
    ensures ValidSnapshot(Report(cell, s, gaps)) <==>
            && 1 <= cell.sequence <= MAX_SAFE && Printed(cell.start) < Printed(cell.end)
            && CountersFiled(s.counters) && HistogramsFiled(s.histograms) && CountsAddUp(s.histograms)
            && SumOver(AlertsWithSlos(s), CriticalShare()) <= MAX_SAFE
  {
    var r := Report(cell, s, gaps);
    var alerts := AlertsWithSlos(s);
    SlosSafe(s.alerts, RaisedBy(s));
    CriticalWeights(alerts);
    CriticalSafe(alerts);
    CountersAdmitted(s.counters);
    HistogramsAdmitted(s.histograms);
  }

  lemma CriticalSafe(alerts: Alerts)
    requires AlertsSafe(alerts)
    ensures SafeInteger(CriticalCount(alerts))
  {
    CriticalNonNegative(alerts);
  }

  lemma CountersAdmitted(counters: Counters)
    requires forall i | 0 <= i < |counters| :: SafeInteger(counters[i].1)
    ensures var cs := Map(counters, ToCounter());
            (forall i | 0 <= i < |cs| ::
               SafeInteger(cs[i].value) && CounterMetric(cs[i].metric) && ValidDimensions(cs[i].dimensions, cs[i].metric))
            <==> CountersFiled(counters)
  {
    var cs := Map(counters, ToCounter());
    assert forall i | 0 <= i < |cs| :: cs[i].metric == counters[i].0.metric && cs[i].dimensions == counters[i].0.dimensions;
  }

  lemma HistogramsAdmitted(histograms: Histograms)
    requires AllObservedAtMost(histograms)
    ensures var hs := Map(histograms, ToHistogram());
            (forall i | 0 <= i < |hs| :: ValidHistogram(hs[i]))
            <==> HistogramsFiled(histograms) && CountsAddUp(histograms)
  {
    var hs := Map(histograms, ToHistogram());
    forall i | 0 <= i < |hs|
      ensures ValidHistogram(hs[i]) <==>
              HistogramMetric(histograms[i].0.metric) && ValidDimensions(histograms[i].0.dimensions, histograms[i].0.metric)
              && Total(histograms[i].1.bucketCounts) == histograms[i].1.count
    {
      HistogramAdmitted(histograms[i]);
    }
  }

  lemma HistogramAdmitted(p: (Key, Observed))
    requires ObservedAtMost(p.1)
    ensures ValidHistogram(ToHistogram()(p)) <==>
            HistogramMetric(p.0.metric) && ValidDimensions(p.0.dimensions, p.0.metric)
            && Total(p.1.bucketCounts) == p.1.count
  {
    TotalIsSum(p.1.bucketCounts, ToHistogram()(p).bucketCounts);
  }

  lemma CappedStored(t: Sums, samples: seq<real>, misfiled: bool)
    requires Truthful(t, samples, misfiled)
    ensures Stored(CapSums(t))
  {
  }

  /** In particular every representable flush is admitted. */
  lemma RepresentableAdmitted(cell: Cell, t: Sums, samples: seq<real>, gaps: Gaps)
    requires Truthful(t, samples, false) && AllRepresentable(t, samples) && GapsOk(gaps)
    requires 1 <= cell.sequence <= MAX_SAFE && Printed(cell.start) < Printed(cell.end)
    ensures ValidSnapshot(Report(cell, CapSums(t), gaps))
  {
    StoredExactly(t);
    CappedStored(t, samples, false);
    CapNonNegative(t, samples, false);
    CappedAtMost(WithSlos(false, t.alerts, RaisedBy(CapSums(t))));
    ReportAdmitted(cell, CapSums(t), gaps);
  }
}
