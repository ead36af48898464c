/** The admission checks of src/auth-rollout.ts, loop by loop over the metrics' tables: they admit
    exactly the snapshots and inventories of the contract. */
module RolloutAdmission {
  import opened Optional
  import opened Sequences
  import opened LatencyHistogram
  import opened RolloutContract

  // The values of each dimension of a metric.
  type Policy = map<Dimension, set<Label>>

  const CALLBACK: Policy :=
    map[Outcome := {Success, Failure, Other}, Reason := {NoReason, State, Issuer, Crypto, Account, Validation, Other}]

  const LOOKUP: Policy := map[Operation := {Authenticate, Inspect, Other}, Outcome := {Hit, Miss, Failure, Other}]

  const WRITES: Policy :=
    map[Operation := {Recovery, SessionIssue, SessionRotate, SessionRevoke, Other}, Outcome := {Success, Failure, Other}]

  const DECISIONS: Policy :=
    map[Operation := {LoginIp, CallbackFailureIp, SessionCreationAccount, RecoveryIp, ReauthenticationAccount,
                      InvitationAcceptanceIp, InvitationAcceptanceDigest, HumanValidationAccount,
                      AuthenticationFailureIp, Other},
        Outcome := {Allowed, Denied, Other}]

  const REVOCATION: Policy := map[Operation := {Current, Other}, Outcome := {Revoked, AlreadyRevoked, Unavailable, Other}]

  const CRITICAL_ALERTS: set<AlertType> :=
    {CryptoIntegrityFailure, CryptoKeyFailure, OidcReplayOrStateMiss, OidcIssuerMixup, CrossTenantAccessDenied,
     ProviderConfigurationDrift, SessionRevocationSlo, UnusualSessionCreation, RecoveryRevocationSloBreach}

  const ALERTS: set<AlertType> :=
    CRITICAL_ALERTS + {RateLimitRepeatedExcess, OidcCallbackSuccessSlo, SessionLookupLatencySlo}

  function CounterPolicy(metric: Metric): Option<Policy> {
    match metric
    case CallbackTotal => Some(CALLBACK)
    case LookupTotal => Some(LOOKUP)
    case DatabaseWrites => Some(WRITES)
    case RateLimitDecisions => Some(DECISIONS)
    case _ => None
  }

  function HistogramPolicy(metric: Metric): Option<Policy> {
    match metric
    case LookupSeconds => Some(LOOKUP)
    case DatabaseSeconds => Some(LOOKUP)
    case RevocationSeconds => Some(REVOCATION)
    case _ => None
  }

  /** As many dimensions as the table, each there with a listed value. */
  predicate Fits(d: Dimensions, policy: Option<Policy>) {
    && policy.Some? && |d| == |policy.value|
    && forall key | key in d :: key in policy.value && d[key] in policy.value[key]
  }

  lemma AllOf<T>(x: set<T>, y: set<T>)
    requires x <= y && |x| == |y|
    ensures x == y
  {
    assert y == (y - x) + x;
    assert |y| == |y - x| + |x|;
  }

  lemma TwoKeys(policy: Policy, a: Dimension, b: Dimension)
    requires policy.Keys == {a, b} && a != b
    ensures |policy| == 2
  {
    assert |policy| == |policy.Keys|;
  }

  lemma PolicyKeys(metric: Metric)
    ensures CounterMetric(metric) <==> CounterPolicy(metric).Some?
    ensures HistogramMetric(metric) <==> HistogramPolicy(metric).Some?
    ensures CounterMetric(metric) ==>
              CounterPolicy(metric).value.Keys == KeysOf(metric) && |CounterPolicy(metric).value| == |KeysOf(metric)|
    ensures HistogramMetric(metric) ==>
              HistogramPolicy(metric).value.Keys == KeysOf(metric) && |HistogramPolicy(metric).value| == |KeysOf(metric)|
  {
    TwoKeys(CALLBACK, Outcome, Reason);
    TwoKeys(LOOKUP, Operation, Outcome);
    TwoKeys(WRITES, Operation, Outcome);
    TwoKeys(DECISIONS, Operation, Outcome);
    TwoKeys(REVOCATION, Operation, Outcome);
  }

  /** The table lists the values that are named, and `other`. */
  ghost predicate Lists(policy: Policy, metric: Metric) {
    forall key, value | key in policy :: value in policy[key] <==> value.Other? || Named(metric, key, value)
  }

  lemma CounterLists(metric: Metric)
    requires CounterMetric(metric)
    ensures Lists(CounterPolicy(metric).value, metric)
  {
    match metric
    case CallbackTotal => CallbackLists();
    case LookupTotal => LookupLists(metric);
    case DatabaseWrites => WritesLists();
    case RateLimitDecisions => DecisionsLists();
  }

  lemma HistogramLists(metric: Metric)
    requires HistogramMetric(metric)
    ensures Lists(HistogramPolicy(metric).value, metric)
  {
    match metric
    case RevocationSeconds => RevocationLists();
    case _ => LookupLists(metric);
  }

  lemma CallbackLists()
    ensures Lists(CALLBACK, CallbackTotal)
  {
  }

  lemma LookupLists(metric: Metric)
    requires metric.LookupTotal? || metric.LookupSeconds? || metric.DatabaseSeconds?
    ensures Lists(LOOKUP, metric)
  {
  }

  lemma WritesLists()
    ensures Lists(WRITES, DatabaseWrites)
  {
  }

  lemma DecisionsLists()
    ensures Lists(DECISIONS, RateLimitDecisions)
  {
  }

  lemma RevocationLists()
    ensures Lists(REVOCATION, RevocationSeconds)
  {
  }

  /** The dimensions fit a table with these keys and values exactly if they are valid. */
  lemma FitsTable(d: Dimensions, policy: Policy, metric: Metric)
    requires policy.Keys == KeysOf(metric) && |policy| == |KeysOf(metric)|
    requires Lists(policy, metric)
    ensures Fits(d, Some(policy)) <==> ValidDimensions(d, metric)
  {
    assert |d| == |d.Keys|;
    if Fits(d, Some(policy)) { AllOf(d.Keys, KeysOf(metric)); }
  }

  lemma FitsExactly(d: Dimensions, metric: Metric)
    ensures Fits(d, CounterPolicy(metric)) <==> CounterMetric(metric) && ValidDimensions(d, metric)
    ensures Fits(d, HistogramPolicy(metric)) <==> HistogramMetric(metric) && ValidDimensions(d, metric)
  {
    PolicyKeys(metric);
    if CounterMetric(metric) {
      CounterLists(metric);
      FitsTable(d, CounterPolicy(metric).value, metric);
    }
    if HistogramMetric(metric) {
      HistogramLists(metric);
      FitsTable(d, HistogramPolicy(metric).value, metric);
    }
  }

  method SumBuckets(counts: seq<int>) returns (safe: bool, sum: int)
    ensures safe <==> forall i | 0 <= i < |counts| :: SafeInteger(counts[i])
    ensures safe ==> sum == SumOver(counts, Itself())
  {
    sum := 0;
    for i := 0 to |counts|
      invariant forall k | 0 <= k < i :: SafeInteger(counts[k])
      invariant sum == SumOver(counts[..i], Itself())
    {
      if !SafeInteger(counts[i]) { return false, sum; }
      assert counts[..i + 1][..i] == counts[..i];
      sum := sum + counts[i];
    }
    assert counts[..|counts|] == counts;
    safe := true;
  }

  method SameBounds(bounds: seq<real>) returns (same: bool)
    ensures same <==> bounds == BOUNDS
  {
    if |bounds| != |BOUNDS| { return false; }
    for i := 0 to |bounds|
      invariant bounds[..i] == BOUNDS[..i]
    {
      if bounds[i] != BOUNDS[i] { return false; }
    }
    assert bounds[..|bounds|] == bounds && BOUNDS[..|bounds|] == BOUNDS;
    same := true;
  }

  method AdmitHistogram(h: HistogramRecord) returns (ok: bool)
    ensures ok <==> ValidHistogram(h)
  {
    var listed := AdmitDimensions(h.dimensions, HistogramPolicy(h.metric), h.metric);
    if !listed || !SafeInteger(h.count) { return false; }
    var same := SameBounds(h.bounds);
    if !same || |h.bucketCounts| != |h.bounds| + 1 { return false; }
    var safe, sum := SumBuckets(h.bucketCounts);
    ok := safe && sum == h.count;
  }

  /** validDimensions, with the table of the metric's kind. */
  method AdmitDimensions(d: Dimensions, policy: Option<Policy>, metric: Metric) returns (ok: bool)
    ensures policy == CounterPolicy(metric) ==> (ok <==> CounterMetric(metric) && ValidDimensions(d, metric))
    ensures policy == HistogramPolicy(metric) ==> (ok <==> HistogramMetric(metric) && ValidDimensions(d, metric))
  {
    FitsExactly(d, metric);
    ok := Fits(d, policy);
  }

  /** The critical alerts of the record, counts that are not safe integers left out. */
  method CountCritical(alerts: seq<AlertCount>) returns (critical: int)
    ensures critical == SumOver(alerts, CriticalWeight())
  {
    critical := 0;
    for i := 0 to |alerts|
      invariant critical == SumOver(alerts[..i], CriticalWeight())
    {
      assert alerts[..i + 1][..i] == alerts[..i];
      if alerts[i].alert in CRITICAL_ALERTS && SafeInteger(alerts[i].count) { critical := critical + alerts[i].count; }
    }
    assert alerts[..|alerts|] == alerts;
  }

  method AdmitCounters(counters: seq<Counter>) returns (ok: bool)
    ensures ok <==> forall i | 0 <= i < |counters| ::
                      SafeInteger(counters[i].value) && CounterMetric(counters[i].metric)
                      && ValidDimensions(counters[i].dimensions, counters[i].metric)
  {
    for i := 0 to |counters|
      invariant forall k | 0 <= k < i ::
                  SafeInteger(counters[k].value) && CounterMetric(counters[k].metric)
                  && ValidDimensions(counters[k].dimensions, counters[k].metric)
    {
      var listed := AdmitDimensions(counters[i].dimensions, CounterPolicy(counters[i].metric), counters[i].metric);
      if !SafeInteger(counters[i].value) || !listed { return false; }
    }
    ok := true;
  }

  method AdmitHistograms(histograms: seq<HistogramRecord>) returns (ok: bool)
    ensures ok <==> forall i | 0 <= i < |histograms| :: ValidHistogram(histograms[i])
  {
    for i := 0 to |histograms|
      invariant forall k | 0 <= k < i :: ValidHistogram(histograms[k])
    {
      var valid := AdmitHistogram(histograms[i]);
      if !valid { return false; }
    }
    ok := true;
  }

  method AdmitAlerts(alerts: seq<AlertCount>) returns (ok: bool)
    ensures ok <==> forall i | 0 <= i < |alerts| :: !alerts[i].alert.UnlistedAlert? && SafeInteger(alerts[i].count)
  {
    for i := 0 to |alerts|
      invariant forall k | 0 <= k < i :: !alerts[k].alert.UnlistedAlert? && SafeInteger(alerts[k].count)
    {
      if alerts[i].alert !in ALERTS || !SafeInteger(alerts[i].count) { return false; }
    }
    ok := true;
  }

  method AdmitGaps(gaps: seq<Gap>) returns (ok: bool)
    ensures ok <==> forall i | 0 <= i < |gaps| :: SafeInteger(gaps[i].count) && gaps[i].count > 0
  {
    for i := 0 to |gaps|
      invariant forall k | 0 <= k < i :: SafeInteger(gaps[k].count) && gaps[k].count > 0
    {
      if !SafeInteger(gaps[i].count) || gaps[i].count <= 0 { return false; }
    }
    ok := true;
  }

  /** The snapshot is admitted exactly when it is one of the contract. */
  method AdmitSnapshot(s: Snapshot) returns (ok: bool)
    ensures ok <==> ValidSnapshot(s)
  {
    if !SafeInteger(s.sequence) || s.sequence < 1 || s.end <= s.start || !SafeInteger(s.criticalIncidents) { return false; }
    var critical := CountCritical(s.alerts);
    var counters := AdmitCounters(s.counters);
    var histograms := AdmitHistograms(s.histograms);
    var alerts := AdmitAlerts(s.alerts);
    var gaps := AdmitGaps(s.gaps);
    ok := counters && histograms && alerts && critical == s.criticalIncidents && gaps && (!s.healthy <==> |s.gaps| > 0);
  }

  /** An inventory is admitted exactly when it is one of the contract: between one and a thousand
      lifecycles, each instance once. */
  method AdmitInventory(inventory: Inventory) returns (ok: bool)
    ensures ok <==> ValidInventory(inventory)
  {
    var serving := inventory.serving;
    if |serving| == 0 || |serving| > 1_000 { return false; }
    var identifiers := {};
    for i := 0 to |serving|
      invariant identifiers == set k | 0 <= k < i :: serving[k].instanceId
      invariant forall j, k | 0 <= j < k < i :: serving[j].instanceId != serving[k].instanceId
      invariant forall k | 0 <= k < i ::
                  serving[k].expectedStart < serving[k].expectedEnd && 1_000 <= serving[k].cadenceMs <= 86_400_000
    {
      var v := serving[i];
      if v.instanceId in identifiers || v.expectedEnd <= v.expectedStart || !SafeInteger(v.cadenceMs)
         || v.cadenceMs < 1_000 || v.cadenceMs > 24 * 60 * 60_000 {
        return false;
      }
      identifiers := identifiers + {v.instanceId};
    }
    ok := true;
  }
}
