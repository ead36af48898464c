/** The rollout judge, src/auth-rollout.ts: the loops of evaluateAuthRolloutSnapshots, each
    proved against a function of its inputs. What the functions mean is in RolloutVerdict.dfy. */
module RolloutEvaluator {
  import opened Optional
  import opened Sequences
  import opened Sorting
  import opened LatencyHistogram
  import opened RolloutContract
  import opened RolloutAdmission

  const MINIMUM_WINDOW_MS: int := 86_400_000
  const MINIMUM_CALLBACKS: int := 100

  datatype Finding =
    | InvalidSnapshot | InventoryMissing | InventoryInvalid | StageMismatch
    | SequenceInvalid | IntervalOverlap | IntervalGap
    | UnexpectedInstance | OutsideLifecycle | CadenceExceeded | IntervalMissing
    | WindowGap | WindowBelow24h
    | ObservabilityGap | UnexpectedDimension | NumericOverflow
    | CallbackVolume | SessionVolume
    | CriticalIncident | CallbackBelow | P95Above
    | InputFinding(code: string)

  // The three findings that make a verdict `fail` rather than `inconclusive`.
  const FAILURES: set<Finding> := {CriticalIncident, CallbackBelow, P95Above}

  datatype Verdict = Pass | Fail | Inconclusive

  datatype Totals = Totals(
    callbackSuccess: int, callbackFailure: int, sessionBuckets: Buckets, criticalIncidents: int)

  datatype Evaluation = Evaluation(
    stageId: Option<string>, verdict: Verdict,
    window: Option<Window>, durationMs: int,
    totals: Totals, callbackSuccessMicro: Option<int>, p95Bucket: Option<nat>, findings: set<Finding>)

  /** A half-open time range. */
  datatype Window = Window(start: int, end: int)

  /** What the interval checks look at. */
  datatype Span = Span(start: int, end: int, sequence: int)

  function When(condition: bool, finding: Finding): set<Finding> {
    if condition then {finding} else {}
  }

  // ----- Admission -----

  predicate Admissible(i: Input) {
    i.Parsed? && ValidSnapshot(i.snapshot)
  }

  function ValidSnapshots(input: seq<Input>): seq<Snapshot> {
    if input == [] then []
    else
      var init := ValidSnapshots(input[..|input| - 1]);
      var last := input[|input| - 1];
      if Admissible(last) then init + [last.snapshot] else init
  }

  function Accepted(inventory: InventoryInput): Option<Inventory> {
    if inventory.Given? && ValidInventory(inventory.inventory) then Some(inventory.inventory) else None
  }

  function OfStage(stageId: string): Snapshot -> bool {
    (s: Snapshot) => s.stageId == stageId
  }

  /** The snapshots that are judged: valid ones, of the inventory's stage when there is one. */
  function Judged(input: seq<Input>, inventory: InventoryInput): seq<Snapshot> {
    match Accepted(inventory)
    case None => ValidSnapshots(input)
    case Some(inv) => Filter(ValidSnapshots(input), OfStage(inv.stageId))
  }

  predicate AnyInadmissible(input: seq<Input>) {
    exists i | 0 <= i < |input| :: !Admissible(input[i])
  }

  predicate AnyOffStage(snapshots: seq<Snapshot>, stageId: string) {
    exists s | s in snapshots :: s.stageId != stageId
  }

  function AdmissionFindings(input: seq<Input>, inventory: InventoryInput): set<Finding> {
    When(AnyInadmissible(input), InvalidSnapshot)
    + When(inventory.NoInventory?, InventoryMissing)
    + When(!inventory.NoInventory? && Accepted(inventory).None?, InventoryInvalid)
    + When(Accepted(inventory).Some? && AnyOffStage(ValidSnapshots(input), Accepted(inventory).value.stageId),
           StageMismatch)
  }

  // ----- Ordering and grouping -----

  predicate ByStart(a: Snapshot, b: Snapshot) {
    a.start < b.start || (a.start == b.start && a.end <= b.end)
  }

  predicate BySequence(a: Snapshot, b: Snapshot) {
    a.start < b.start || (a.start == b.start && a.sequence <= b.sequence)
  }

  predicate ServingByStart(a: Serving, b: Serving) {
    a.expectedStart < b.expectedStart
    || (a.expectedStart == b.expectedStart && a.expectedEnd <= b.expectedEnd)
  }

  function OfInstance(id: string): Snapshot -> bool {
    (s: Snapshot) => s.instanceId == id
  }

  /** One instance's snapshots as the judge walks them: sorted once with everything else,
      then again within the instance. */
  function InstanceList(snapshots: seq<Snapshot>, id: string): seq<Snapshot> {
    StableSort(Filter(StableSort(snapshots, ByStart), OfInstance(id)), BySequence)
  }

  function ToSpan(): Snapshot -> Span {
    (s: Snapshot) => Span(s.start, s.end, s.sequence)
  }

  function InstanceSpans(snapshots: seq<Snapshot>, id: string): seq<Span> {
    Map(InstanceList(snapshots, id), ToSpan())
  }

  function InstanceIds(snapshots: seq<Snapshot>): set<string> {
    set s | s in snapshots :: s.instanceId
  }

  // ----- Per-instance continuity -----

  function PairFindings(previous: Span, next: Span): set<Finding> {
    When(next.sequence != previous.sequence + 1, SequenceInvalid)
    + When(next.start < previous.end, IntervalOverlap)
    + When(next.start > previous.end, IntervalGap)
  }

  function ChainFindings(spans: seq<Span>): set<Finding> {
    if |spans| < 2 then {}
    else ChainFindings(spans[..|spans| - 1]) + PairFindings(spans[|spans| - 2], spans[|spans| - 1])
  }

  function FindingsOf(snapshots: seq<Snapshot>, ids: set<string>): set<Finding> {
    set id, f | id in ids && f in ChainFindings(InstanceSpans(snapshots, id)) :: f
  }

  function ContinuityFindings(snapshots: seq<Snapshot>): set<Finding> {
    FindingsOf(snapshots, InstanceIds(snapshots))
  }

  // ----- Expected lifecycles -----

  datatype Scan = Scan(cursor: int, findings: set<Finding>)

  predicate Outside(v: Serving, s: Span) {
    s.start < v.expectedStart || s.end > v.expectedEnd
  }

  function ScanLifecycle(v: Serving, spans: seq<Span>): Scan {
    if spans == [] then Scan(v.expectedStart, {})
    else
      var before := ScanLifecycle(v, spans[..|spans| - 1]);
      var s := spans[|spans| - 1];
      if Outside(v, s) then Scan(before.cursor, before.findings + {OutsideLifecycle})
      else Scan(
          if s.end > before.cursor then s.end else before.cursor,
          before.findings
          + When(s.end - s.start > v.cadenceMs, CadenceExceeded)
          + When(s.start > before.cursor, IntervalMissing))
  }

  function LifecycleFindings(v: Serving, spans: seq<Span>): set<Finding> {
    var scan := ScanLifecycle(v, spans);
    scan.findings + When(scan.cursor < v.expectedEnd, IntervalMissing)
  }

  function ServingIds(inv: Inventory): set<string> {
    set v | v in inv.serving :: v.instanceId
  }

  function LifecyclesFindings(snapshots: seq<Snapshot>, serving: seq<Serving>): set<Finding> {
    if serving == [] then {}
    else
      var v := serving[|serving| - 1];
      LifecyclesFindings(snapshots, serving[..|serving| - 1])
      + LifecycleFindings(v, InstanceSpans(snapshots, v.instanceId))
  }

  predicate AnyUnexpected(snapshots: seq<Snapshot>, expected: set<string>) {
    exists s | s in snapshots :: s.instanceId !in expected
  }

  function ServingFindings(snapshots: seq<Snapshot>, inv: Inventory): set<Finding> {
    When(AnyUnexpected(snapshots, ServingIds(inv)), UnexpectedInstance)
    + LifecyclesFindings(snapshots, inv.serving)
  }

  // ----- Window coverage -----

  datatype Sweep = Sweep(covered: Option<Window>, gap: bool)

  function SweepWindows(windows: seq<Window>): Sweep {
    if windows == [] then Sweep(None, false)
    else
      var before := SweepWindows(windows[..|windows| - 1]);
      var w := windows[|windows| - 1];
      match before.covered
      case None => Sweep(Some(w), before.gap)
      case Some(c) =>
        if w.start > c.end then Sweep(Some(Window(c.start, w.end)), true)
        else Sweep(Some(Window(c.start, if w.end > c.end then w.end else c.end)), before.gap)
  }

  function ServingWindow(): Serving -> Window {
    (v: Serving) => Window(v.expectedStart, v.expectedEnd)
  }

  function SnapshotWindow(): Snapshot -> Window {
    (s: Snapshot) => Window(s.start, s.end)
  }

  /** The lifecycles when there is an inventory, the snapshots' own intervals when not. */
  function CoverageWindows(snapshots: seq<Snapshot>, inventory: Option<Inventory>): seq<Window> {
    match inventory
    case Some(inv) => Map(StableSort(inv.serving, ServingByStart), ServingWindow())
    case None => Map(StableSort(snapshots, ByStart), SnapshotWindow())
  }

  function Duration(covered: Option<Window>): int {
    match covered
    case None => 0
    case Some(c) => c.end - c.start
  }

  function CoverageFindings(windows: seq<Window>): set<Finding> {
    var sweep := SweepWindows(windows);
    When(sweep.gap, WindowGap) + When(Duration(sweep.covered) < MINIMUM_WINDOW_MS, WindowBelow24h)
  }

  // ----- Totals -----

  /** An accumulator that refuses an addition leaving the safe integers. */
  datatype Bounded = Bounded(total: int, overflow: bool)

  function AddSafe(left: int, right: int): Option<int> {
    if SafeInteger(left + right) then Some(left + right) else None
  }

  function Accumulate(values: seq<int>): (b: Bounded)
    ensures SafeInteger(b.total)
  {
    if values == [] then Bounded(0, false)
    else
      var before := Accumulate(values[..|values| - 1]);
      match AddSafe(before.total, values[|values| - 1])
      case None => Bounded(before.total, true)
      case Some(t) => Bounded(t, before.overflow)
  }

  function CallbackValues(counters: seq<Counter>, outcome: Label): seq<int> {
    if counters == [] then []
    else
      var init := CallbackValues(counters[..|counters| - 1], outcome);
      var c := counters[|counters| - 1];
      if c.metric == CallbackTotal && Outcome in c.dimensions && c.dimensions[Outcome] == outcome
      then init + [c.value] else init
  }

  function AllCallbackValues(snapshots: seq<Snapshot>, outcome: Label): seq<int> {
    if snapshots == [] then []
    else AllCallbackValues(snapshots[..|snapshots| - 1], outcome)
         + CallbackValues(snapshots[|snapshots| - 1].counters, outcome)
  }

  predicate FullBuckets(histograms: seq<HistogramRecord>) {
    forall k | 0 <= k < |histograms| :: |histograms[k].bucketCounts| == BUCKETS
  }

  predicate WellShaped(s: Snapshot) {
    FullBuckets(s.histograms)
  }

  predicate AllWellShaped(snapshots: seq<Snapshot>) {
    forall k | 0 <= k < |snapshots| :: WellShaped(snapshots[k])
  }

  function BucketValues(histograms: seq<HistogramRecord>, i: nat): seq<int>
    requires i < BUCKETS && FullBuckets(histograms)
  {
    if histograms == [] then []
    else
      var init := BucketValues(histograms[..|histograms| - 1], i);
      var h := histograms[|histograms| - 1];
      if h.metric == LookupSeconds then init + [h.bucketCounts[i]] else init
  }

  function AllBucketValues(snapshots: seq<Snapshot>, i: nat): seq<int>
    requires i < BUCKETS && AllWellShaped(snapshots)
  {
    if snapshots == [] then []
    else
      assert WellShaped(snapshots[|snapshots| - 1]);
      AllBucketValues(snapshots[..|snapshots| - 1], i)
         + BucketValues(snapshots[|snapshots| - 1].histograms, i)
  }

  function ToCritical(): Snapshot -> int {
    (s: Snapshot) => s.criticalIncidents
  }

  predicate HasOtherLabel(s: Snapshot) {
    (exists i | 0 <= i < |s.counters| :: Other in s.counters[i].dimensions.Values)
    || (exists i | 0 <= i < |s.histograms| :: Other in s.histograms[i].dimensions.Values)
  }

  predicate Degraded(s: Snapshot) {
    !s.healthy || s.gaps != []
  }

  /** Every addition the totals loop attempts, per accumulator, in order. */
  datatype Additions = Additions(
    success: seq<int>, failure: seq<int>, critical: seq<int>, buckets: seq<seq<int>>)

  ghost predicate BucketOverflowed(buckets: seq<seq<int>>) {
    exists i | 0 <= i < |buckets| :: Accumulate(buckets[i]).overflow
  }

  ghost predicate Overflowed(a: Additions) {
    Accumulate(a.success).overflow || Accumulate(a.failure).overflow || Accumulate(a.critical).overflow
    || BucketOverflowed(a.buckets)
  }

  /** The accumulators after those additions, and whether any addition was refused. */
  ghost predicate Records(a: Additions, t: Totals, overflow: bool)
    requires |a.buckets| == BUCKETS
  {
    && t.callbackSuccess == Accumulate(a.success).total
    && t.callbackFailure == Accumulate(a.failure).total
    && t.criticalIncidents == Accumulate(a.critical).total
    && (forall i | 0 <= i < BUCKETS :: t.sessionBuckets[i] == Accumulate(a.buckets[i]).total)
    && overflow == Overflowed(a)
  }

  /** The first `upTo` buckets' lists, each with its count appended. */
  function Appended(buckets: seq<seq<int>>, counts: seq<int>, upTo: nat): (r: seq<seq<int>>)
    requires upTo <= BUCKETS == |buckets| == |counts|
    ensures |r| == BUCKETS
  {
    seq(BUCKETS, i requires 0 <= i < BUCKETS => if i < upTo then buckets[i] + [counts[i]] else buckets[i])
  }

  function WithBuckets(buckets: seq<seq<int>>, histograms: seq<HistogramRecord>): (r: seq<seq<int>>)
    requires |buckets| == BUCKETS && FullBuckets(histograms)
    ensures |r| == BUCKETS
  {
    seq(BUCKETS, i requires 0 <= i < BUCKETS => buckets[i] + BucketValues(histograms, i))
  }

  function AdditionsOf(snapshots: seq<Snapshot>): (a: Additions)
    requires AllWellShaped(snapshots)
    ensures |a.buckets| == BUCKETS
  {
    Additions(
      AllCallbackValues(snapshots, Success), AllCallbackValues(snapshots, Failure),
      Map(snapshots, ToCritical()),
      seq(BUCKETS, i requires 0 <= i < BUCKETS => AllBucketValues(snapshots, i)))
  }

  predicate AnyDegraded(snapshots: seq<Snapshot>) {
    snapshots != [] && (AnyDegraded(snapshots[..|snapshots| - 1]) || Degraded(snapshots[|snapshots| - 1]))
  }

  predicate AnyOtherLabel(snapshots: seq<Snapshot>) {
    snapshots != [] && (AnyOtherLabel(snapshots[..|snapshots| - 1]) || HasOtherLabel(snapshots[|snapshots| - 1]))
  }

  function QualityFindings(snapshots: seq<Snapshot>): set<Finding> {
    When(AnyDegraded(snapshots), ObservabilityGap) + When(AnyOtherLabel(snapshots), UnexpectedDimension)
  }

  function Callbacks(t: Totals): int {
    t.callbackSuccess + t.callbackFailure
  }

  function Samples(t: Totals): int {
    Total(t.sessionBuckets)
  }

  function VolumeFindings(t: Totals): set<Finding> {
    When(Callbacks(t) > MAX_SAFE || Samples(t) > MAX_SAFE, NumericOverflow)
    + When(Callbacks(t) < MINIMUM_CALLBACKS, CallbackVolume)
    + When(Samples(t) < MINIMUM_SAMPLES, SessionVolume)
  }

  function FailureFindings(t: Totals, p95Bucket: Option<nat>): set<Finding> {
    When(t.criticalIncidents > 0, CriticalIncident)
    + When(Callbacks(t) >= MINIMUM_CALLBACKS && t.callbackSuccess * 1_000 < Callbacks(t) * 995, CallbackBelow)
    + When(Samples(t) >= MINIMUM_SAMPLES && p95Bucket.Some? && p95Bucket.value > SLO_BOUND, P95Above)
  }

  function VerdictOf(failures: set<Finding>, findings: set<Finding>): Verdict {
    if failures != {} then Fail
    else if findings - FAILURES != {} then Inconclusive
    else Pass
  }

  /** The p95 cell of the report: no cell without samples, else the bucket holding the rank. */
  ghost predicate IsP95(t: Totals, p95Bucket: Option<nat>) {
    match p95Bucket
    case None => Samples(t) == 0
    case Some(b) => Samples(t) > 0 && HoldsRank(t.sessionBuckets, Rank(Samples(t)), b)
  }

  function InventoryFindings(snapshots: seq<Snapshot>, inventory: Option<Inventory>): set<Finding> {
    if inventory.Some? then ServingFindings(snapshots, inventory.value) else {}
  }

  /** Everything the judge reports about the snapshots it admitted. */
  ghost predicate Reports(
    snapshots: seq<Snapshot>, inventory: Option<Inventory>, before: set<Finding>, e: Evaluation)
    requires AllWellShaped(snapshots)
  {
    var windows := CoverageWindows(snapshots, inventory);
    var covered := SweepWindows(windows).covered;
    var failures := FailureFindings(e.totals, e.p95Bucket);
    var overflow := Overflowed(AdditionsOf(snapshots));
    && Records(AdditionsOf(snapshots), e.totals, overflow)
    && IsP95(e.totals, e.p95Bucket)
    && e.stageId == (if inventory.Some? then Some(inventory.value.stageId) else None)
    && e.window == covered
    && e.durationMs == Duration(covered)
    && e.callbackSuccessMicro ==
         (if Callbacks(e.totals) == 0 then None
          else Some(e.totals.callbackSuccess * 1_000_000 / Callbacks(e.totals)))
    && e.findings == before + ContinuityFindings(snapshots) + InventoryFindings(snapshots, inventory)
                     + CoverageFindings(windows) + QualityFindings(snapshots) + When(overflow, NumericOverflow)
                     + VolumeFindings(e.totals) + failures
    && e.verdict == VerdictOf(failures, e.findings)
  }

  /** The judge's answer, as a relation to its whole input. */
  ghost predicate IsEvaluation(
    input: seq<Input>, inventory: InventoryInput, inputFindings: set<Finding>, e: Evaluation)
  {
    var snapshots := Judged(input, inventory);
    AllWellShaped(snapshots)
    && Reports(snapshots, Accepted(inventory), inputFindings + AdmissionFindings(input, inventory), e)
  }

  // ----- The loops -----

  method CollectValid(input: seq<Input>) returns (snapshots: seq<Snapshot>, inadmissible: bool)
    ensures snapshots == ValidSnapshots(input)
    ensures inadmissible == AnyInadmissible(input)
  {
    snapshots, inadmissible := [], false;
    for i := 0 to |input|
      invariant snapshots == ValidSnapshots(input[..i])
      invariant inadmissible <==> exists k | 0 <= k < i :: !Admissible(input[k])
    {
      assert input[..i + 1][..i] == input[..i];
      var admitted := false;
      if input[i].Parsed? { admitted := AdmitSnapshot(input[i].snapshot); }
      if admitted {
        snapshots := snapshots + [input[i].snapshot];
      } else {
        inadmissible := true;
      }
    }
    assert input[..|input|] == input;
  }

  method Admit(input: seq<Input>, inventory: InventoryInput)
    returns (snapshots: seq<Snapshot>, findings: set<Finding>)
    ensures snapshots == Judged(input, inventory)
    ensures findings == AdmissionFindings(input, inventory)
  {
    var inadmissible: bool;
    snapshots, inadmissible := CollectValid(input);
    findings := When(inadmissible, InvalidSnapshot);
    var admitted := false;
    if inventory.Given? { admitted := AdmitInventory(inventory.inventory); }
    var accepted := if admitted then Some(inventory.inventory) else None;
    if inventory.NoInventory? {
      findings := findings + {InventoryMissing};
    } else if accepted.None? {
      findings := findings + {InventoryInvalid};
    }
    if accepted.Some? {
      var stageId := accepted.value.stageId;
      if AnyOffStage(snapshots, stageId) {
        findings := findings + {StageMismatch};
        snapshots := Filter(snapshots, OfStage(stageId));
      } else {
        FilterAll(snapshots, OfStage(stageId));
      }
    }
  }

  ghost predicate Grouped(byInstance: map<string, seq<Snapshot>>, intervals: seq<Snapshot>) {
    byInstance.Keys == InstanceIds(intervals)
    && forall id | id in byInstance :: byInstance[id] == Filter(intervals, OfInstance(id))
  }

  lemma NoneOfInstance(snapshots: seq<Snapshot>, id: string)
    ensures id !in InstanceIds(snapshots) ==> Filter(snapshots, OfInstance(id)) == []
  {
    var kept := Filter(snapshots, OfInstance(id));
    if kept != [] {
      FilterMembers(snapshots, OfInstance(id), kept[0]);
      assert kept[0] in snapshots;
    }
  }

  lemma GroupStep(byInstance: map<string, seq<Snapshot>>, seen: seq<Snapshot>, s: Snapshot)
    requires Grouped(byInstance, seen)
    ensures Grouped(byInstance[s.instanceId :=
                      (if s.instanceId in byInstance then byInstance[s.instanceId] else []) + [s]], seen + [s])
  {
    var id := s.instanceId;
    NoneOfInstance(seen, id);
    assert (seen + [s])[..|seen|] == seen;
    assert InstanceIds(seen + [s]) == InstanceIds(seen) + {id};
  }

  ghost predicate Distinct(ids: seq<string>) {
    forall i, j | 0 <= i < j < |ids| :: ids[i] != ids[j]
  }

  /** byInstance: a list per identifier, and the identifiers in order of first appearance. */
  method Group(intervals: seq<Snapshot>) returns (ids: seq<string>, byInstance: map<string, seq<Snapshot>>)
    ensures Lists(ids, byInstance)
    ensures Grouped(byInstance, intervals)
  {
    ids, byInstance := [], map[];
    for i := 0 to |intervals|
      invariant Lists(ids, byInstance)
      invariant Grouped(byInstance, intervals[..i])
    {
      var s := intervals[i];
      GroupStep(byInstance, intervals[..i], s);
      assert intervals[..i + 1] == intervals[..i] + [s];
      var list := if s.instanceId in byInstance then byInstance[s.instanceId] else [];
      if s.instanceId !in byInstance {
        assert s.instanceId !in ids;
        ids := ids + [s.instanceId];
      }
      byInstance := byInstance[s.instanceId := list + [s]];
    }
    assert intervals[..|intervals|] == intervals;
  }

  /** Compares neighbours of one instance's sorted list. */
  method CheckChain(list: seq<Snapshot>) returns (findings: set<Finding>)
    ensures findings == ChainFindings(Map(list, ToSpan()))
  {
    findings := {};
    ghost var spans := Map(list, ToSpan());
    var index := 1;
    while index < |list|
      invariant 1 <= index && (index <= |list| || list == [])
      invariant findings == ChainFindings(if list == [] then [] else spans[..index])
    {
      assert spans[..index + 1][..index] == spans[..index];
      if list[index].sequence != list[index - 1].sequence + 1 { findings := findings + {SequenceInvalid}; }
      if list[index].start < list[index - 1].end { findings := findings + {IntervalOverlap}; }
      if list[index].start > list[index - 1].end { findings := findings + {IntervalGap}; }
      index := index + 1;
    }
    assert spans[..|spans|] == spans;
  }

  ghost predicate Resorted(byInstance: map<string, seq<Snapshot>>, snapshots: seq<Snapshot>) {
    byInstance.Keys == InstanceIds(snapshots)
    && forall id | id in byInstance :: byInstance[id] == InstanceList(snapshots, id)
  }

  ghost predicate Lists(ids: seq<string>, lists: map<string, seq<Snapshot>>) {
    Distinct(ids) && forall id :: id in ids <==> id in lists
  }

  function SortedList(list: seq<Snapshot>): seq<Snapshot> {
    StableSort(list, BySequence)
  }

  function ListFindings(list: seq<Snapshot>): set<Finding> {
    ChainFindings(Map(SortedList(list), ToSpan()))
  }

  /** The first lists are sorted, the others as they were. */
  ghost predicate SortedUpTo(
    lists: map<string, seq<Snapshot>>, grouped: map<string, seq<Snapshot>>, ids: seq<string>, k: nat)
    requires k <= |ids| && Lists(ids, grouped)
  {
    && lists.Keys == grouped.Keys
    && (forall j | 0 <= j < k :: lists[ids[j]] == SortedList(grouped[ids[j]]))
    && (forall j | k <= j < |ids| :: lists[ids[j]] == grouped[ids[j]])
  }

  lemma SortStep(lists: map<string, seq<Snapshot>>, grouped: map<string, seq<Snapshot>>, ids: seq<string>, k: nat)
    requires k < |ids| && Lists(ids, grouped) && SortedUpTo(lists, grouped, ids, k)
    ensures lists[ids[k]] == grouped[ids[k]]
    ensures SortedUpTo(lists[ids[k] := SortedList(grouped[ids[k]])], grouped, ids, k + 1)
  {
    assert forall j | 0 <= j < |ids| && j != k :: ids[j] != ids[k];
  }

  function Gathered(lists: map<string, seq<Snapshot>>, ids: seq<string>): set<Finding>
    requires forall id | id in ids :: id in lists
  {
    if ids == [] then {}
    else Gathered(lists, ids[..|ids| - 1]) + ListFindings(lists[ids[|ids| - 1]])
  }

  lemma {:induction false} GatheredMembers(lists: map<string, seq<Snapshot>>, ids: seq<string>, f: Finding)
    requires forall id | id in ids :: id in lists
    ensures f in Gathered(lists, ids) <==> exists id :: id in ids && f in ListFindings(lists[id])
  {
    if ids != [] {
      var init, last := ids[..|ids| - 1], ids[|ids| - 1];
      assert ids == init + [last];
      GatheredMembers(lists, init, f);
    }
  }

  /** Sorts every list in place, then compares its neighbours. */
  method CheckContinuity(ids: seq<string>, grouped: map<string, seq<Snapshot>>)
    returns (byInstance: map<string, seq<Snapshot>>, findings: set<Finding>)
    requires Lists(ids, grouped)
    ensures byInstance.Keys == grouped.Keys
    ensures forall id | id in grouped :: byInstance[id] == SortedList(grouped[id])
    ensures findings == Gathered(grouped, ids)
  {
    byInstance, findings := grouped, {};
    for k := 0 to |ids|
      invariant SortedUpTo(byInstance, grouped, ids, k)
      invariant findings == Gathered(grouped, ids[..k])
    {
      SortStep(byInstance, grouped, ids, k);
      GatherStep(grouped, ids, k);
      var list := SortedList(byInstance[ids[k]]);
      byInstance := byInstance[ids[k] := list];
      var chain := CheckChain(list);
      findings := findings + chain;
    }
    assert ids[..|ids|] == ids;
    AllSorted(byInstance, grouped, ids);
  }

  lemma GatherStep(grouped: map<string, seq<Snapshot>>, ids: seq<string>, k: nat)
    requires k < |ids| && Lists(ids, grouped)
    ensures Gathered(grouped, ids[..k + 1]) == Gathered(grouped, ids[..k]) + ListFindings(grouped[ids[k]])
  {
    assert ids[..k + 1][..k] == ids[..k];
  }

  lemma AllSorted(byInstance: map<string, seq<Snapshot>>, grouped: map<string, seq<Snapshot>>, ids: seq<string>)
    requires Lists(ids, grouped) && SortedUpTo(byInstance, grouped, ids, |ids|)
    ensures forall id | id in grouped :: byInstance[id] == SortedList(grouped[id])
  {
    forall id | id in grouped ensures byInstance[id] == SortedList(grouped[id]) {
      var j :| 0 <= j < |ids| && ids[j] == id;
    }
  }

  lemma ContinuityCovers(snapshots: seq<Snapshot>, ids: seq<string>, grouped: map<string, seq<Snapshot>>)
    requires Lists(ids, grouped) && Grouped(grouped, StableSort(snapshots, ByStart))
    ensures grouped.Keys == InstanceIds(snapshots)
    ensures forall id | id in grouped :: SortedList(grouped[id]) == InstanceList(snapshots, id)
    ensures ContinuityFindings(snapshots) == Gathered(grouped, ids)
  {
    var sorted := StableSort(snapshots, ByStart);
    SortPermutes(snapshots, ByStart);
    PermutationMembers(sorted, snapshots);
    assert InstanceIds(sorted) == InstanceIds(snapshots);
    assert forall id | id in grouped :: ListFindings(grouped[id]) == ChainFindings(InstanceSpans(snapshots, id));
    forall f ensures f in Gathered(grouped, ids) <==> f in ContinuityFindings(snapshots) {
      GatheredMembers(grouped, ids, f);
    }
  }

  function ListOf(lists: map<string, seq<Snapshot>>, id: string): seq<Snapshot> {
    if id in lists then lists[id] else []
  }

  function LifecyclesAlong(lists: map<string, seq<Snapshot>>, serving: seq<Serving>): set<Finding> {
    if serving == [] then {}
    else
      var v := serving[|serving| - 1];
      LifecyclesAlong(lists, serving[..|serving| - 1])
      + LifecycleFindings(v, Map(ListOf(lists, v.instanceId), ToSpan()))
  }

  lemma {:induction false} LifecyclesCover(
    snapshots: seq<Snapshot>, lists: map<string, seq<Snapshot>>, serving: seq<Serving>)
    requires Resorted(lists, snapshots)
    ensures LifecyclesAlong(lists, serving) == LifecyclesFindings(snapshots, serving)
  {
    if serving != [] {
      LifecyclesCover(snapshots, lists, serving[..|serving| - 1]);
      AbsentInstance(snapshots, serving[|serving| - 1].instanceId);
    }
  }

  method CheckServing(serving: seq<Serving>, byInstance: map<string, seq<Snapshot>>)
    returns (findings: set<Finding>)
    ensures findings == LifecyclesAlong(byInstance, serving)
  {
    findings := {};
    for k := 0 to |serving|
      invariant findings == LifecyclesAlong(byInstance, serving[..k])
    {
      assert serving[..k + 1][..k] == serving[..k];
      var list := ListOf(byInstance, serving[k].instanceId);
      var lifecycle := ScanList(serving[k], list);
      findings := findings + lifecycle;
    }
    assert serving[..|serving|] == serving;
  }

  lemma AbsentInstance(snapshots: seq<Snapshot>, id: string)
    ensures id !in InstanceIds(snapshots) ==> InstanceList(snapshots, id) == []
  {
    var sorted := StableSort(snapshots, ByStart);
    SortPermutes(snapshots, ByStart);
    PermutationMembers(sorted, snapshots);
    assert InstanceIds(sorted) == InstanceIds(snapshots);
    NoneOfInstance(sorted, id);
  }

  method ScanList(v: Serving, list: seq<Snapshot>) returns (findings: set<Finding>)
    ensures findings == LifecycleFindings(v, Map(list, ToSpan()))
  {
    findings := {};
    var cursor := v.expectedStart;
    ghost var spans := Map(list, ToSpan());
    for i := 0 to |list|
      invariant ScanLifecycle(v, spans[..i]) == Scan(cursor, findings)
    {
      assert spans[..i + 1][..i] == spans[..i];
      if list[i].start < v.expectedStart || list[i].end > v.expectedEnd {
        findings := findings + {OutsideLifecycle};
        continue;
      }
      if list[i].end - list[i].start > v.cadenceMs { findings := findings + {CadenceExceeded}; }
      if list[i].start > cursor { findings := findings + {IntervalMissing}; }
      cursor := if list[i].end > cursor then list[i].end else cursor;
    }
    assert spans[..|list|] == spans;
    if cursor < v.expectedEnd { findings := findings + {IntervalMissing}; }
  }

  method SweepCoverage(windows: seq<Window>) returns (covered: Option<Window>, findings: set<Finding>)
    ensures covered == SweepWindows(windows).covered
    ensures findings == CoverageFindings(windows)
  {
    covered, findings := None, {};
    for i := 0 to |windows|
      invariant SweepWindows(windows[..i]).covered == covered
      invariant findings == if SweepWindows(windows[..i]).gap then {WindowGap} else {}
    {
      assert windows[..i + 1][..i] == windows[..i];
      var w := windows[i];
      if covered.None? {
        covered := Some(w);
      } else if w.start > covered.value.end {
        findings := findings + {WindowGap};
        covered := Some(Window(covered.value.start, w.end));
      } else {
        covered := Some(Window(covered.value.start, if w.end > covered.value.end then w.end else covered.value.end));
      }
    }
    assert windows[..|windows|] == windows;
    if Duration(covered) < MINIMUM_WINDOW_MS { findings := findings + {WindowBelow24h}; }
  }

  lemma AccumulateStep(values: seq<int>, v: int)
    ensures Accumulate(values + [v]) ==
            match AddSafe(Accumulate(values).total, v)
            case None => Bounded(Accumulate(values).total, true)
            case Some(t) => Bounded(t, Accumulate(values).overflow)
  {
    assert (values + [v])[..|values|] == values;
  }

  lemma CallbackAdded(a: Additions, t: Totals, overflow: bool, v: int)
    requires |a.buckets| == BUCKETS && Records(a, t, overflow)
    ensures match AddSafe(t.callbackSuccess, v)
            case None => Records(a.(success := a.success + [v]), t, true)
            case Some(total) => Records(a.(success := a.success + [v]), t.(callbackSuccess := total), overflow)
    ensures match AddSafe(t.callbackFailure, v)
            case None => Records(a.(failure := a.failure + [v]), t, true)
            case Some(total) => Records(a.(failure := a.failure + [v]), t.(callbackFailure := total), overflow)
  {
    AccumulateStep(a.success, v);
    AccumulateStep(a.failure, v);
  }

  function WithCallbacks(a: Additions, counters: seq<Counter>): Additions {
    a.(success := a.success + CallbackValues(counters, Success), failure := a.failure + CallbackValues(counters, Failure))
  }

  function WithCounter(a: Additions, c: Counter): Additions {
    if c.metric != CallbackTotal || Outcome !in c.dimensions then a
    else if c.dimensions[Outcome] == Success then a.(success := a.success + [c.value])
    else if c.dimensions[Outcome] == Failure then a.(failure := a.failure + [c.value])
    else a
  }

  lemma CounterStep(a: Additions, counters: seq<Counter>, i: nat)
    requires i < |counters|
    ensures WithCallbacks(a, counters[..i + 1]) == WithCounter(WithCallbacks(a, counters[..i]), counters[i])
  {
    assert counters[..i + 1][..i] == counters[..i];
  }

  /** Adds one snapshot's callback counters. */
  method AddCallbacks(counters: seq<Counter>, before: Totals, refused: bool, ghost a: Additions)
    returns (t: Totals, overflow: bool)
    requires |a.buckets| == BUCKETS && Records(a, before, refused)
    ensures Records(WithCallbacks(a, counters), t, overflow)
  {
    t, overflow := before, refused;
    assert WithCallbacks(a, []) == a;
    for i := 0 to |counters|
      invariant Records(WithCallbacks(a, counters[..i]), t, overflow)
    {
      CounterStep(a, counters, i);
      var c := counters[i];
      if c.metric != CallbackTotal || Outcome !in c.dimensions { continue; }
      CallbackAdded(WithCallbacks(a, counters[..i]), t, overflow, c.value);
      if c.dimensions[Outcome] == Success {
        match AddSafe(t.callbackSuccess, c.value) {
          case None => overflow := true;
          case Some(total) => t := t.(callbackSuccess := total);
        }
      } else if c.dimensions[Outcome] == Failure {
        match AddSafe(t.callbackFailure, c.value) {
          case None => overflow := true;
          case Some(total) => t := t.(callbackFailure := total);
        }
      }
    }
    assert counters[..|counters|] == counters;
  }

  lemma BucketAdded(a: Additions, t: Totals, overflow: bool, i: nat, v: int)
    requires |a.buckets| == BUCKETS && i < BUCKETS && Records(a, t, overflow)
    ensures var a' := a.(buckets := a.buckets[i := a.buckets[i] + [v]]);
            match AddSafe(t.sessionBuckets[i], v)
            case None => Records(a', t, true)
            case Some(total) => Records(a', t.(sessionBuckets := t.sessionBuckets[i := total]), overflow)
  {
    AccumulateStep(a.buckets[i], v);
    var b' := a.buckets[i := a.buckets[i] + [v]];
    assert forall k | 0 <= k < BUCKETS && k != i :: b'[k] == a.buckets[k];
    assert b'[i] == a.buckets[i] + [v];
    if k :| 0 <= k < BUCKETS && Accumulate(a.buckets[k]).overflow {
      assert Accumulate(b'[k]).overflow;
    }
  }

  /** Adds one histogram's buckets, bucket by bucket. */
  method AddBuckets(counts: seq<int>, before: Totals, refused: bool, ghost a: Additions)
    returns (t: Totals, overflow: bool)
    requires |counts| == BUCKETS == |a.buckets| && Records(a, before, refused)
    ensures Records(a.(buckets := Appended(a.buckets, counts, BUCKETS)), t, overflow)
  {
    t, overflow := before, refused;
    ghost var b := a;
    for index := 0 to BUCKETS
      invariant b == a.(buckets := Appended(a.buckets, counts, index))
      invariant Records(b, t, overflow)
    {
      ghost var t0, overflow0 := t, overflow;
      match AddSafe(t.sessionBuckets[index], counts[index]) {
        case None => overflow := true;
        case Some(total) => t := t.(sessionBuckets := t.sessionBuckets[index := total]);
      }
      BucketAdded(b, t0, overflow0, index, counts[index]);
      b := b.(buckets := b.buckets[index := b.buckets[index] + [counts[index]]]);
      assert b.buckets == Appended(a.buckets, counts, index + 1);
    }
  }

  lemma WithNoBuckets(buckets: seq<seq<int>>, histograms: seq<HistogramRecord>)
    requires |buckets| == BUCKETS && histograms == []
    ensures WithBuckets(buckets, histograms) == buckets
  {
    forall i | 0 <= i < BUCKETS ensures WithBuckets(buckets, histograms)[i] == buckets[i] {
      assert BucketValues(histograms, i) == [];
      assert buckets[i] + [] == buckets[i];
    }
  }

  lemma WithBucketsStep(buckets: seq<seq<int>>, histograms: seq<HistogramRecord>, k: nat)
    requires |buckets| == BUCKETS && FullBuckets(histograms)
    requires k < |histograms| && histograms[k].metric == LookupSeconds
    ensures WithBuckets(buckets, histograms[..k + 1]) ==
            Appended(WithBuckets(buckets, histograms[..k]), histograms[k].bucketCounts, BUCKETS)
  {
    assert histograms[..k + 1][..k] == histograms[..k];
    forall i | 0 <= i < BUCKETS
      ensures WithBuckets(buckets, histograms[..k + 1])[i] ==
              Appended(WithBuckets(buckets, histograms[..k]), histograms[k].bucketCounts, BUCKETS)[i]
    {
      var c := histograms[k].bucketCounts[i];
      assert buckets[i] + (BucketValues(histograms[..k], i) + [c]) == buckets[i] + BucketValues(histograms[..k], i) + [c];
    }
  }

  method AddHistograms(histograms: seq<HistogramRecord>, before: Totals, refused: bool, ghost a: Additions)
    returns (t: Totals, overflow: bool)
    requires FullBuckets(histograms) && |a.buckets| == BUCKETS && Records(a, before, refused)
    ensures Records(a.(buckets := WithBuckets(a.buckets, histograms)), t, overflow)
  {
    t, overflow := before, refused;
    WithNoBuckets(a.buckets, []);
    for i := 0 to |histograms|
      invariant Records(a.(buckets := WithBuckets(a.buckets, histograms[..i])), t, overflow)
    {
      assert histograms[..i + 1][..i] == histograms[..i];
      ghost var b := WithBuckets(a.buckets, histograms[..i]);
      if histograms[i].metric != LookupSeconds {
        assert WithBuckets(a.buckets, histograms[..i + 1]) == b;
        continue;
      }
      t, overflow := AddBuckets(histograms[i].bucketCounts, t, overflow, a.(buckets := b));
      WithBucketsStep(a.buckets, histograms, i);
    }
    assert histograms[..|histograms|] == histograms;
  }

  function AfterSnapshot(a: Additions, s: Snapshot): (b: Additions)
    requires |a.buckets| == BUCKETS && WellShaped(s)
    ensures |b.buckets| == BUCKETS
  {
    Additions(a.success + CallbackValues(s.counters, Success),
              a.failure + CallbackValues(s.counters, Failure),
              a.critical + [s.criticalIncidents],
              WithBuckets(a.buckets, s.histograms))
  }

  method AddSnapshot(s: Snapshot, before: Totals, refused: bool, ghost a: Additions)
    returns (t: Totals, overflow: bool)
    requires |a.buckets| == BUCKETS && WellShaped(s) && Records(a, before, refused)
    ensures Records(AfterSnapshot(a, s), t, overflow)
  {
    t, overflow := before, refused;
    AccumulateStep(a.critical, s.criticalIncidents);
    match AddSafe(t.criticalIncidents, s.criticalIncidents) {
      case None => overflow := true;
      case Some(total) => t := t.(criticalIncidents := total);
    }
    ghost var b := a.(critical := a.critical + [s.criticalIncidents]);
    t, overflow := AddCallbacks(s.counters, t, overflow, b);
    t, overflow := AddHistograms(s.histograms, t, overflow, WithCallbacks(b, s.counters));
  }

  method NoTotals() returns (t: Totals, overflow: bool)
    ensures Records(AdditionsOf([]), t, overflow)
  {
    t, overflow := Totals(0, 0, Zero(), 0), false;
    assert forall i | 0 <= i < BUCKETS :: AllBucketValues([], i) == [];
  }

  method Tally(snapshots: seq<Snapshot>) returns (t: Totals, overflow: bool, quality: set<Finding>)
    requires AllWellShaped(snapshots)
    ensures Records(AdditionsOf(snapshots), t, overflow)
    ensures quality == QualityFindings(snapshots)
  {
    var degraded, other := false, false;
    t, overflow := NoTotals();
    ghost var a := AdditionsOf([]);
    for k := 0 to |snapshots|
      invariant |a.buckets| == BUCKETS && a == AdditionsOf(snapshots[..k])
      invariant Records(a, t, overflow)
      invariant degraded == AnyDegraded(snapshots[..k])
      invariant other == AnyOtherLabel(snapshots[..k])
    {
      assert snapshots[..k + 1][..k] == snapshots[..k];
      degraded := degraded || Degraded(snapshots[k]);
      other := other || HasOtherLabel(snapshots[k]);
      AdditionsStep(snapshots, k);
      t, overflow := AddSnapshot(snapshots[k], t, overflow, a);
      a := AfterSnapshot(a, snapshots[k]);
    }
    assert snapshots[..|snapshots|] == snapshots;
    quality := When(degraded, ObservabilityGap) + When(other, UnexpectedDimension);
  }

  lemma AdditionsStep(snapshots: seq<Snapshot>, k: nat)
    requires k < |snapshots| && AllWellShaped(snapshots)
    ensures WellShaped(snapshots[k])
    ensures AdditionsOf(snapshots[..k + 1]) == AfterSnapshot(AdditionsOf(snapshots[..k]), snapshots[k])
  {
    assert WellShaped(snapshots[k]);
    assert snapshots[..k + 1][..k] == snapshots[..k];
    var a, b := AdditionsOf(snapshots[..k]), AdditionsOf(snapshots[..k + 1]);
    assert b.critical == a.critical + [snapshots[k].criticalIncidents];
    assert b.buckets == WithBuckets(a.buckets, snapshots[k].histograms);
  }

  /** Findings about the admitted snapshots' intervals. */
  method CheckIntervals(snapshots: seq<Snapshot>, inventory: Option<Inventory>)
    returns (continuity: set<Finding>, serving: set<Finding>)
    ensures continuity == ContinuityFindings(snapshots)
    ensures serving == InventoryFindings(snapshots, inventory)
  {
    var intervals := StableSort(snapshots, ByStart);
    var ids, grouped := Group(intervals);
    var byInstance: map<string, seq<Snapshot>>;
    byInstance, continuity := CheckContinuity(ids, grouped);
    ContinuityCovers(snapshots, ids, grouped);
    serving := {};
    if inventory.Some? {
      var inv := inventory.value;
      if AnyUnexpected(snapshots, ServingIds(inv)) {
        serving := {UnexpectedInstance};
      }
      var lifecycles := CheckServing(inv.serving, byInstance);
      LifecyclesCover(snapshots, byInstance, inv.serving);
      serving := serving + lifecycles;
    }
  }

  method Evaluate(input: seq<Input>, inventory: InventoryInput, inputFindings: set<Finding>)
    returns (e: Evaluation)
    ensures IsEvaluation(input, inventory, inputFindings, e)
  {
    var snapshots, admission := Admit(input, inventory);
    JudgedShape(input, inventory);
    e := EvaluateAdmitted(snapshots, Accepted(inventory), inputFindings + admission);
  }

  method EvaluateAdmitted(snapshots: seq<Snapshot>, inventory: Option<Inventory>, before: set<Finding>)
    returns (e: Evaluation)
    requires AllWellShaped(snapshots)
    ensures Reports(snapshots, inventory, before, e)
  {
    var continuity, serving := CheckIntervals(snapshots, inventory);
    var covered, coverage := SweepCoverage(CoverageWindows(snapshots, inventory));
    var t, overflow, quality := Tally(snapshots);
    var p95Bucket := ReportP95(t);
    var failures := FailureFindings(t, p95Bucket);
    var findings := before + continuity + serving + coverage + quality
      + When(overflow, NumericOverflow) + VolumeFindings(t) + failures;
    e := Evaluation(
      if inventory.Some? then Some(inventory.value.stageId) else None,
      VerdictOf(failures, findings), covered, Duration(covered), t,
      if Callbacks(t) == 0 then None else Some(t.callbackSuccess * 1_000_000 / Callbacks(t)),
      p95Bucket, findings);
  }

  method ReportP95(t: Totals) returns (p95Bucket: Option<nat>)
    ensures IsP95(t, p95Bucket)
  {
    p95Bucket := None;
    if Samples(t) > 0 {
      var bucket := FindRankBucket(t.sessionBuckets, Rank(Samples(t)));
      p95Bucket := Some(bucket);
    }
  }

  lemma {:induction false} ValidMembers(input: seq<Input>, s: Snapshot)
    ensures s in ValidSnapshots(input) <==> exists i | 0 <= i < |input| :: Admissible(input[i]) && input[i].snapshot == s
  {
    if input != [] {
      var init := input[..|input| - 1];
      ValidMembers(init, s);
      assert forall i | 0 <= i < |init| :: init[i] == input[i];
    }
  }

  lemma JudgedShape(input: seq<Input>, inventory: InventoryInput)
    ensures forall s | s in Judged(input, inventory) :: ValidSnapshot(s)
    ensures AllWellShaped(Judged(input, inventory))
  {
    forall s | s in Judged(input, inventory) ensures ValidSnapshot(s) && WellShaped(s) {
      var inv := Accepted(inventory);
      if inv.Some? {
        FilterMembers(ValidSnapshots(input), OfStage(inv.value.stageId), s);
      }
      ValidMembers(input, s);
      forall k | 0 <= k < |s.histograms| ensures |s.histograms[k].bucketCounts| == BUCKETS {
        assert ValidHistogram(s.histograms[k]);
      }
    }
  }
}
