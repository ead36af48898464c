/** The snapshot and inventory records exchanged between the telemetry producer and the
    rollout judge, and the judge's admission checks (src/auth-rollout.ts). */
module RolloutContract {
  import opened Sequences
  import opened LatencyHistogram

  const MAX_SAFE: int := 9_007_199_254_740_991

  datatype Metric =
    | CallbackTotal | LookupTotal | DatabaseWrites | RateLimitDecisions
    | LookupSeconds | DatabaseSeconds | RevocationSeconds
    | UnlistedMetric(name: string)

  datatype Dimension = Outcome | Reason | Operation | UnlistedDimension(key: string)

  datatype Label =
    | Other
    | Success | Failure | NoReason | State | Issuer | Crypto | Account | Validation
    | Authenticate | Inspect | Hit | Miss
    | Recovery | SessionIssue | SessionRotate | SessionRevoke
    | LoginIp | CallbackFailureIp | SessionCreationAccount | RecoveryIp | ReauthenticationAccount
    | InvitationAcceptanceIp | InvitationAcceptanceDigest | HumanValidationAccount | AuthenticationFailureIp
    | Allowed | Denied | Current | Revoked | AlreadyRevoked | Unavailable
    | UnlistedLabel(text: string)

  datatype AlertType =
    | RateLimitRepeatedExcess | CryptoIntegrityFailure | CryptoKeyFailure | OidcReplayOrStateMiss
    | OidcIssuerMixup | OidcCallbackSuccessSlo | SessionLookupLatencySlo | CrossTenantAccessDenied
    | ProviderConfigurationDrift | SessionRevocationSlo | UnusualSessionCreation
    | RecoveryRevocationSloBreach | UnlistedAlert(text: string)

  datatype GapCode =
    | SinkThrow | SinkRejected | SinkTimeout | SinkBackpressure | NumericSaturation
    | ClockAnomaly | ClockDrift | AlertRouteThrow | AlertRouteRejected | AlertRouteTimeout
    | AlertRouteBackpressure | AlertRouteUnacknowledged

  type Dimensions = map<Dimension, Label>

  datatype Counter = Counter(metric: Metric, dimensions: Dimensions, value: int)
  datatype HistogramRecord = HistogramRecord(
    metric: Metric, dimensions: Dimensions, bounds: seq<real>, bucketCounts: seq<int>, count: int)
  datatype Gap = Gap(code: GapCode, count: int)
  datatype AlertCount = AlertCount(alert: AlertType, count: int)

  /** Times are milliseconds since the epoch; the interval is [start, end). */
  datatype Snapshot = Snapshot(
    instanceId: string, stageId: string, sequence: int, start: int, end: int,
    counters: seq<Counter>, histograms: seq<HistogramRecord>, alerts: seq<AlertCount>,
    criticalIncidents: int, healthy: bool, gaps: seq<Gap>)

  /** One element of the untrusted input. Malformed stands for everything refused by shape
      alone: a foreign contract tag, an identifier or stage off its pattern, an instant that
      is not in canonical form, an unknown gap code or status, a missing member. */
  datatype Input = Malformed | Parsed(snapshot: Snapshot)

  datatype Serving = Serving(instanceId: string, expectedStart: int, expectedEnd: int, cadenceMs: int)
  datatype Inventory = Inventory(stageId: string, serving: seq<Serving>)
  datatype InventoryInput = NoInventory | MalformedInventory | Given(inventory: Inventory)

  predicate SafeInteger(value: int) {
    0 <= value <= MAX_SAFE
  }

  predicate CounterMetric(metric: Metric) {
    metric.CallbackTotal? || metric.LookupTotal? || metric.DatabaseWrites? || metric.RateLimitDecisions?
  }

  predicate HistogramMetric(metric: Metric) {
    metric.LookupSeconds? || metric.DatabaseSeconds? || metric.RevocationSeconds?
  }

  function KeysOf(metric: Metric): set<Dimension> {
    if metric.CallbackTotal? then {Outcome, Reason} else {Operation, Outcome}
  }

  predicate LookupLabel(key: Dimension, value: Label) {
    match key
    case Operation => value.Authenticate? || value.Inspect?
    case _ => value.Hit? || value.Miss? || value.Failure?
  }

  predicate RateLimitOperation(value: Label) {
    value.LoginIp? || value.CallbackFailureIp? || value.SessionCreationAccount? || value.RecoveryIp?
    || value.ReauthenticationAccount? || value.InvitationAcceptanceIp? || value.InvitationAcceptanceDigest?
    || value.HumanValidationAccount? || value.AuthenticationFailureIp?
  }

  /** The values of the metric's dimensions, apart from `other`, which every one admits. */
  predicate Named(metric: Metric, key: Dimension, value: Label) {
    match metric
    case CallbackTotal =>
      if key.Outcome? then value.Success? || value.Failure?
      else value.NoReason? || value.State? || value.Issuer? || value.Crypto? || value.Account? || value.Validation?
    case DatabaseWrites =>
      if key.Outcome? then value.Success? || value.Failure?
      else value.Recovery? || value.SessionIssue? || value.SessionRotate? || value.SessionRevoke?
    case RateLimitDecisions =>
      if key.Outcome? then value.Allowed? || value.Denied? else RateLimitOperation(value)
    case RevocationSeconds =>
      if key.Outcome? then value.Revoked? || value.AlreadyRevoked? || value.Unavailable? else value.Current?
    case _ => LookupLabel(key, value)
  }

  /** Exactly the metric's dimensions, each with a value of its table. An unlisted metric has
      no table and is refused before this is asked. */
  predicate ValidDimensions(d: Dimensions, metric: Metric) {
    d.Keys == KeysOf(metric) && forall key | key in d :: d[key].Other? || Named(metric, key, d[key])
  }

  predicate Critical(alert: AlertType) {
    alert.CryptoIntegrityFailure? || alert.CryptoKeyFailure? || alert.OidcReplayOrStateMiss?
    || alert.OidcIssuerMixup? || alert.CrossTenantAccessDenied? || alert.ProviderConfigurationDrift?
    || alert.SessionRevocationSlo? || alert.UnusualSessionCreation? || alert.RecoveryRevocationSloBreach?
  }

  function CriticalWeight(): AlertCount -> int {
    (a: AlertCount) => if Critical(a.alert) && SafeInteger(a.count) then a.count else 0
  }

  function Itself(): int -> int {
    x => x
  }

  predicate ValidHistogram(h: HistogramRecord) {
    && HistogramMetric(h.metric) && ValidDimensions(h.dimensions, h.metric)
    && SafeInteger(h.count)
    && h.bounds == BOUNDS
    && |h.bucketCounts| == |h.bounds| + 1
    && (forall i | 0 <= i < |h.bucketCounts| :: SafeInteger(h.bucketCounts[i]))
    && SumOver(h.bucketCounts, Itself()) == h.count
  }

  predicate ValidSnapshot(s: Snapshot) {
    && SafeInteger(s.sequence) && s.sequence >= 1
    && s.start < s.end
    && SafeInteger(s.criticalIncidents)
    && (forall i | 0 <= i < |s.counters| ::
          SafeInteger(s.counters[i].value)
          && CounterMetric(s.counters[i].metric)
          && ValidDimensions(s.counters[i].dimensions, s.counters[i].metric))
    && (forall i | 0 <= i < |s.histograms| :: ValidHistogram(s.histograms[i]))
    && (forall i | 0 <= i < |s.alerts| :: !s.alerts[i].alert.UnlistedAlert? && SafeInteger(s.alerts[i].count))
    && SumOver(s.alerts, CriticalWeight()) == s.criticalIncidents
    && (forall i | 0 <= i < |s.gaps| :: SafeInteger(s.gaps[i].count) && s.gaps[i].count > 0)
    && (s.healthy <==> s.gaps == [])
  }

  predicate ValidInventory(inventory: Inventory) {
    && 1 <= |inventory.serving| <= 1_000
    && (forall i, j | 0 <= i < j < |inventory.serving| ::
          inventory.serving[i].instanceId != inventory.serving[j].instanceId)
    && (forall i | 0 <= i < |inventory.serving| ::
          var v := inventory.serving[i];
          v.expectedStart < v.expectedEnd && 1_000 <= v.cadenceMs <= 86_400_000)
  }
}
