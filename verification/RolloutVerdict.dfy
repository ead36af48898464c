/** What the rollout judge's answers mean: when sums overflow, that the order of the evidence
    does not matter, and exactly what a `pass` says about the serving instances. */
module RolloutVerdict {
  import opened Optional
  import opened Sequences
  import opened Sorting
  import opened LatencyHistogram
  import opened RolloutContract
  import opened RolloutEvaluator

  // ----- Guarded sums -----

  /** An accumulator refuses an addition exactly when the true sum leaves the safe integers,
      and otherwise holds the true sum: the order of additions decides neither. */
  lemma {:induction false} AccumulateExact(values: seq<int>)
    requires forall v | v in values :: v >= 0
    ensures Accumulate(values).overflow <==> SumOver(values, Itself()) > MAX_SAFE
    ensures !Accumulate(values).overflow ==> Accumulate(values).total == SumOver(values, Itself())
    ensures Accumulate(values).total <= SumOver(values, Itself())
  {
    if values != [] {
      var init, last := values[..|values| - 1], values[|values| - 1];
      assert last in values;
      assert forall v | v in init :: v in values;
      AccumulateExact(init);
      SumPrefix(values, |values| - 1, Itself());
    }
  }

  function CallbackSum(outcome: Label): Snapshot -> int {
    (s: Snapshot) => SumOver(CallbackValues(s.counters, outcome), Itself())
  }

  function BucketSum(i: nat): Snapshot -> int
    requires i < BUCKETS
  {
    (s: Snapshot) => if WellShaped(s) then SumOver(BucketValues(s.histograms, i), Itself()) else 0
  }

  lemma {:induction false} AllCallbackSum(snapshots: seq<Snapshot>, outcome: Label)
    ensures SumOver(AllCallbackValues(snapshots, outcome), Itself()) == SumOver(snapshots, CallbackSum(outcome))
  {
    if snapshots != [] {
      var init, last := snapshots[..|snapshots| - 1], snapshots[|snapshots| - 1];
      AllCallbackSum(init, outcome);
      SumConcat(AllCallbackValues(init, outcome), CallbackValues(last.counters, outcome), Itself());
    }
  }

  lemma {:induction false} AllBucketSum(snapshots: seq<Snapshot>, i: nat)
    requires i < BUCKETS && AllWellShaped(snapshots)
    ensures SumOver(AllBucketValues(snapshots, i), Itself()) == SumOver(snapshots, BucketSum(i))
  {
    if snapshots != [] {
      var init, last := snapshots[..|snapshots| - 1], snapshots[|snapshots| - 1];
      assert WellShaped(last);
      AllBucketSum(init, i);
      SumConcat(AllBucketValues(init, i), BucketValues(last.histograms, i), Itself());
    }
  }

  lemma {:induction false} CriticalSum(snapshots: seq<Snapshot>)
    ensures SumOver(Map(snapshots, ToCritical()), Itself()) == SumOver(snapshots, ToCritical())
  {
    if snapshots != [] {
      var init := snapshots[..|snapshots| - 1];
      CriticalSum(init);
      assert Map(snapshots, ToCritical())[..|snapshots| - 1] == Map(init, ToCritical());
    }
  }

  lemma {:induction false} CallbackValuesSafe(counters: seq<Counter>, outcome: Label)
    requires forall i | 0 <= i < |counters| :: counters[i].value >= 0
    ensures forall v | v in CallbackValues(counters, outcome) :: v >= 0
  {
    if counters != [] { CallbackValuesSafe(counters[..|counters| - 1], outcome); }
  }

  lemma {:induction false} BucketValuesSafe(histograms: seq<HistogramRecord>, i: nat)
    requires i < BUCKETS && FullBuckets(histograms)
    requires forall k | 0 <= k < |histograms| :: histograms[k].bucketCounts[i] >= 0
    ensures forall v | v in BucketValues(histograms, i) :: v >= 0
  {
    if histograms != [] { BucketValuesSafe(histograms[..|histograms| - 1], i); }
  }

  ghost predicate AllValid(snapshots: seq<Snapshot>) {
    AllWellShaped(snapshots) && forall s | s in snapshots :: ValidSnapshot(s)
  }

  lemma {:induction false} AllCallbackValuesSafe(snapshots: seq<Snapshot>, outcome: Label)
    requires AllValid(snapshots)
    ensures forall v | v in AllCallbackValues(snapshots, outcome) :: v >= 0
  {
    if snapshots != [] {
      var init, last := snapshots[..|snapshots| - 1], snapshots[|snapshots| - 1];
      assert forall s | s in init :: s in snapshots;
      AllCallbackValuesSafe(init, outcome);
      assert last in snapshots;
      CallbackValuesSafe(last.counters, outcome);
    }
  }

  lemma {:induction false} AllBucketValuesSafe(snapshots: seq<Snapshot>, i: nat)
    requires i < BUCKETS && AllValid(snapshots)
    ensures forall v | v in AllBucketValues(snapshots, i) :: v >= 0
  {
    if snapshots != [] {
      var init, last := snapshots[..|snapshots| - 1], snapshots[|snapshots| - 1];
      assert forall s | s in init :: s in snapshots;
      AllBucketValuesSafe(init, i);
      assert last in snapshots && WellShaped(last);
      forall k | 0 <= k < |last.histograms| ensures last.histograms[k].bucketCounts[i] >= 0 {
        assert ValidHistogram(last.histograms[k]);
      }
      BucketValuesSafe(last.histograms, i);
    }
  }

  /** The sums the report is about, with no arithmetic limit. */
  ghost predicate TrueTotals(snapshots: seq<Snapshot>, t: Totals) {
    && t.callbackSuccess == SumOver(snapshots, CallbackSum(Success))
    && t.callbackFailure == SumOver(snapshots, CallbackSum(Failure))
    && t.criticalIncidents == SumOver(snapshots, ToCritical())
    && forall i | 0 <= i < BUCKETS :: t.sessionBuckets[i] == SumOver(snapshots, BucketSum(i))
  }

  ghost predicate Unrepresentable(snapshots: seq<Snapshot>) {
    SumOver(snapshots, CallbackSum(Success)) > MAX_SAFE
    || SumOver(snapshots, CallbackSum(Failure)) > MAX_SAFE
    || SumOver(snapshots, ToCritical()) > MAX_SAFE
    || exists i | 0 <= i < BUCKETS :: SumOver(snapshots, BucketSum(i)) > MAX_SAFE
  }

  /** The loop's overflow flag says exactly that some true sum is unrepresentable. */
  lemma OverflowExact(snapshots: seq<Snapshot>, t: Totals)
    requires AllValid(snapshots) && Records(AdditionsOf(snapshots), t, Overflowed(AdditionsOf(snapshots)))
    ensures Overflowed(AdditionsOf(snapshots)) <==> Unrepresentable(snapshots)
    ensures !Unrepresentable(snapshots) ==> TrueTotals(snapshots, t)
  {
    var a := AdditionsOf(snapshots);
    AllCallbackValuesSafe(snapshots, Success);
    AllCallbackValuesSafe(snapshots, Failure);
    AllCallbackSum(snapshots, Success);
    AllCallbackSum(snapshots, Failure);
    AccumulateExact(a.success);
    AccumulateExact(a.failure);
    CriticalSum(snapshots);
    forall v | v in a.critical ensures v >= 0 {
      var k :| 0 <= k < |a.critical| && a.critical[k] == v;
      assert snapshots[k] in snapshots;
    }
    AccumulateExact(a.critical);
    forall i | 0 <= i < BUCKETS
      ensures Accumulate(a.buckets[i]).overflow <==> SumOver(snapshots, BucketSum(i)) > MAX_SAFE
      ensures !Accumulate(a.buckets[i]).overflow ==> t.sessionBuckets[i] == SumOver(snapshots, BucketSum(i))
    {
      AllBucketValuesSafe(snapshots, i);
      AllBucketSum(snapshots, i);
      AccumulateExact(a.buckets[i]);
    }
  }

  lemma TrueTotalsUnique(a: seq<Snapshot>, b: seq<Snapshot>, t: Totals, u: Totals)
    requires multiset(a) == multiset(b) && TrueTotals(a, t) && TrueTotals(b, u)
    ensures t == u
  {
    SumPermutation(a, b, CallbackSum(Success));
    SumPermutation(a, b, CallbackSum(Failure));
    SumPermutation(a, b, ToCritical());
    forall i | 0 <= i < BUCKETS ensures t.sessionBuckets[i] == u.sessionBuckets[i] {
      SumPermutation(a, b, BucketSum(i));
    }
    assert t.sessionBuckets == u.sessionBuckets;
  }

  lemma UnrepresentablePermutation(a: seq<Snapshot>, b: seq<Snapshot>)
    requires multiset(a) == multiset(b)
    ensures Unrepresentable(a) <==> Unrepresentable(b)
  {
    SumPermutation(a, b, CallbackSum(Success));
    SumPermutation(a, b, CallbackSum(Failure));
    SumPermutation(a, b, ToCritical());
    forall i | 0 <= i < BUCKETS ensures SumOver(a, BucketSum(i)) == SumOver(b, BucketSum(i)) {
      SumPermutation(a, b, BucketSum(i));
    }
  }

  // ----- The order of one instance's spans -----

  predicate SpanOrder(a: Span, b: Span) {
    a.start < b.start
    || (a.start == b.start && (a.sequence < b.sequence || (a.sequence == b.sequence && a.end <= b.end)))
  }

  predicate FineOrder(a: Snapshot, b: Snapshot) {
    SpanOrder(ToSpan()(a), ToSpan()(b))
  }

  lemma InstanceListSorted(snapshots: seq<Snapshot>, id: string)
    ensures SortedBy(InstanceList(snapshots, id), FineOrder)
    ensures multiset(InstanceList(snapshots, id)) == multiset(Filter(snapshots, OfInstance(id)))
  {
    var sorted := StableSort(snapshots, ByStart);
    SortSorts(snapshots, ByStart);
    SortPermutes(snapshots, ByStart);
    FilterSorted(sorted, OfInstance(id), ByStart);
    FilterPermutation(sorted, snapshots, OfInstance(id));
    SortStable(Filter(sorted, OfInstance(id)), ByStart, BySequence, FineOrder);
    SortPermutes(Filter(sorted, OfInstance(id)), BySequence);
  }

  lemma InstanceSpansSorted(snapshots: seq<Snapshot>, id: string)
    ensures SortedBy(InstanceSpans(snapshots, id), SpanOrder)
  {
    InstanceListSorted(snapshots, id);
  }

  /** Any ordering of the instance's snapshots that is sorted is the one the judge walks. */
  lemma InstanceSpansUnique(snapshots: seq<Snapshot>, id: string, t: seq<Snapshot>)
    requires multiset(t) == multiset(Filter(snapshots, OfInstance(id)))
    requires SortedBy(Map(t, ToSpan()), SpanOrder)
    ensures Map(t, ToSpan()) == InstanceSpans(snapshots, id)
  {
    InstanceListSorted(snapshots, id);
    InstanceSpansSorted(snapshots, id);
    MapPermutation(t, InstanceList(snapshots, id), ToSpan());
    SortedUnique(Map(t, ToSpan()), InstanceSpans(snapshots, id), SpanOrder);
  }

  lemma InstanceSpansPermutation(a: seq<Snapshot>, b: seq<Snapshot>, id: string)
    requires multiset(a) == multiset(b)
    ensures InstanceSpans(a, id) == InstanceSpans(b, id)
  {
    FilterPermutation(a, b, OfInstance(id));
    InstanceListSorted(a, id);
    InstanceSpansSorted(a, id);
    InstanceSpansUnique(b, id, InstanceList(a, id));
  }

  // ----- The order of the evidence does not matter -----

  lemma {:induction false} ValidSnapshotsConcat(a: seq<Input>, b: seq<Input>)
    ensures ValidSnapshots(a + b) == ValidSnapshots(a) + ValidSnapshots(b)
  {
    if b == [] {
      assert a + b == a;
    } else {
      ValidSnapshotsConcat(a, b[..|b| - 1]);
      assert (a + b)[..|a + b| - 1] == a + b[..|b| - 1];
    }
  }

  lemma ValidSnapshotsWithout(s: seq<Input>, i: nat)
    requires i < |s|
    ensures multiset(ValidSnapshots(s)) ==
            multiset(ValidSnapshots(s[..i] + s[i + 1..])) + multiset(ValidSnapshots([s[i]]))
  {
    var left, right := s[..i], s[i + 1..];
    ValidSnapshotsConcat(left, right);
    ValidSnapshotsConcat(left, [s[i]]);
    ValidSnapshotsConcat(left + [s[i]], right);
    assert s == left + [s[i]] + right;
  }

  lemma {:induction false} ValidSnapshotsPermutation(a: seq<Input>, b: seq<Input>)
    requires multiset(a) == multiset(b)
    ensures multiset(ValidSnapshots(a)) == multiset(ValidSnapshots(b))
    decreases |a|
  {
    PermutationLength(a, b);
    if a != [] {
      var i := PermutationWithoutLast(a, b);
      ValidSnapshotsPermutation(a[..|a| - 1], b[..i] + b[i + 1..]);
      ValidSnapshotsWithout(a, |a| - 1);
      ValidSnapshotsWithout(b, i);
      assert a[..|a| - 1] + a[|a|..] == a[..|a| - 1];
    }
  }

  lemma JudgedPermutation(a: seq<Input>, b: seq<Input>, inventory: InventoryInput)
    requires multiset(a) == multiset(b)
    ensures multiset(Judged(a, inventory)) == multiset(Judged(b, inventory))
  {
    ValidSnapshotsPermutation(a, b);
    var inv := Accepted(inventory);
    if inv.Some? {
      FilterPermutation(ValidSnapshots(a), ValidSnapshots(b), OfStage(inv.value.stageId));
    }
  }

  lemma AdmissionPermutation(a: seq<Input>, b: seq<Input>, inventory: InventoryInput)
    requires multiset(a) == multiset(b)
    ensures AdmissionFindings(a, inventory) == AdmissionFindings(b, inventory)
  {
    ValidSnapshotsPermutation(a, b);
    PermutationMembers(a, b);
    PermutationMembers(ValidSnapshots(a), ValidSnapshots(b));
    assert AnyInadmissible(a) <==> exists x :: x in a && !Admissible(x);
    assert AnyInadmissible(b) <==> exists x :: x in b && !Admissible(x);
  }

  lemma {:induction false} AnyDegradedMeans(snapshots: seq<Snapshot>)
    ensures AnyDegraded(snapshots) <==> exists s :: s in snapshots && Degraded(s)
    ensures AnyOtherLabel(snapshots) <==> exists s :: s in snapshots && HasOtherLabel(s)
  {
    if snapshots != [] {
      var init, last := snapshots[..|snapshots| - 1], snapshots[|snapshots| - 1];
      AnyDegradedMeans(init);
      assert forall s :: s in snapshots <==> s in init || s == last;
    }
  }

  lemma {:induction false} LifecyclesPermutation(a: seq<Snapshot>, b: seq<Snapshot>, serving: seq<Serving>)
    requires multiset(a) == multiset(b)
    ensures LifecyclesFindings(a, serving) == LifecyclesFindings(b, serving)
  {
    if serving != [] {
      LifecyclesPermutation(a, b, serving[..|serving| - 1]);
      InstanceSpansPermutation(a, b, serving[|serving| - 1].instanceId);
    }
  }

  lemma IntervalsPermutation(a: seq<Snapshot>, b: seq<Snapshot>, inventory: Option<Inventory>)
    requires multiset(a) == multiset(b)
    ensures ContinuityFindings(a) == ContinuityFindings(b)
    ensures InventoryFindings(a, inventory) == InventoryFindings(b, inventory)
    ensures QualityFindings(a) == QualityFindings(b)
  {
    PermutationMembers(a, b);
    assert InstanceIds(a) == InstanceIds(b);
    forall id ensures InstanceSpans(a, id) == InstanceSpans(b, id) {
      InstanceSpansPermutation(a, b, id);
    }
    assert FindingsOf(a, InstanceIds(a)) == FindingsOf(b, InstanceIds(b));
    if inventory.Some? {
      LifecyclesPermutation(a, b, inventory.value.serving);
    }
    AnyDegradedMeans(a);
    AnyDegradedMeans(b);
  }

  predicate WindowOrder(a: Window, b: Window) {
    a.start < b.start || (a.start == b.start && a.end <= b.end)
  }

  function SnapshotWindows(snapshots: seq<Snapshot>): seq<Window> {
    Map(StableSort(snapshots, ByStart), SnapshotWindow())
  }

  lemma SnapshotWindowsSorted(snapshots: seq<Snapshot>)
    ensures SortedBy(SnapshotWindows(snapshots), WindowOrder)
    ensures multiset(SnapshotWindows(snapshots)) == multiset(Map(snapshots, SnapshotWindow()))
  {
    SortSorts(snapshots, ByStart);
    SortPermutes(snapshots, ByStart);
    MapPermutation(StableSort(snapshots, ByStart), snapshots, SnapshotWindow());
  }

  lemma CoveragePermutation(a: seq<Snapshot>, b: seq<Snapshot>, inventory: Option<Inventory>)
    requires multiset(a) == multiset(b)
    ensures CoverageWindows(a, inventory) == CoverageWindows(b, inventory)
  {
    SnapshotWindowsSorted(a);
    SnapshotWindowsSorted(b);
    MapPermutation(a, b, SnapshotWindow());
    SortedUnique(SnapshotWindows(a), SnapshotWindows(b), WindowOrder);
  }

  lemma P95Unique(t: Totals, p: Option<nat>, q: Option<nat>)
    requires IsP95(t, p) && IsP95(t, q)
    ensures p == q
  {
    if p.Some? && q.Some? {
      RankBucketUnique(t.sessionBuckets, Rank(Samples(t)), p.value, q.value);
    }
  }

  /** What two reports on reordered snapshots share, and that everything agrees unless a sum
      left the safe integers. */
  lemma ReportsPermutation(
    a: seq<Snapshot>, b: seq<Snapshot>, inventory: Option<Inventory>, before: set<Finding>,
    e: Evaluation, f: Evaluation)
    requires multiset(a) == multiset(b) && AllValid(a) && AllValid(b)
    requires Reports(a, inventory, before, e) && Reports(b, inventory, before, f)
    ensures Unrepresentable(a) ==> NumericOverflow in e.findings && NumericOverflow in f.findings
    ensures !Unrepresentable(a) ==> e == f
  {
    UnrepresentablePermutation(a, b);
    OverflowExact(a, e.totals);
    OverflowExact(b, f.totals);
    if !Unrepresentable(a) {
      TrueTotalsUnique(a, b, e.totals, f.totals);
      P95Unique(e.totals, e.p95Bucket, f.p95Bucket);
      IntervalsPermutation(a, b, inventory);
      CoveragePermutation(a, b, inventory);
    }
  }

  // ----- Once an addition was refused -----

  function Labelled(outcome: Label, value: int): Counter {
    Counter(CallbackTotal, map[Outcome := outcome, Reason := NoReason], value)
  }

  /** A healthy snapshot of so many callbacks. */
  function Counted(sequence: int, success: int, failure: int): Snapshot {
    Snapshot("7", "staging:a", sequence, sequence, sequence + 1,
             [Labelled(Success, success), Labelled(Failure, failure)], [], [], 0, true, [])
  }

  lemma CountedValid(sequence: int, success: int, failure: int)
    requires 1 <= sequence <= MAX_SAFE && SafeInteger(success) && SafeInteger(failure)
    ensures ValidSnapshot(Counted(sequence, success, failure))
  {
    assert forall d: Dimensions | d == map[Outcome := Success, Reason := NoReason] :: d.Keys == KeysOf(CallbackTotal);
    assert forall d: Dimensions | d == map[Outcome := Failure, Reason := NoReason] :: d.Keys == KeysOf(CallbackTotal);
  }

  lemma OneMoreValue(counters: seq<Counter>, c: Counter, outcome: Label)
    requires c.metric == CallbackTotal && Outcome in c.dimensions
    ensures CallbackValues(counters + [c], outcome)
            == CallbackValues(counters, outcome) + if c.dimensions[Outcome] == outcome then [c.value] else []
  {
    assert (counters + [c])[..|counters|] == counters;
  }

  lemma CountedValues(sequence: int, success: int, failure: int)
    ensures CallbackValues(Counted(sequence, success, failure).counters, Success) == [success]
    ensures CallbackValues(Counted(sequence, success, failure).counters, Failure) == [failure]
  {
    OneMoreValue([], Labelled(Success, success), Success);
    OneMoreValue([], Labelled(Success, success), Failure);
    OneMoreValue([Labelled(Success, success)], Labelled(Failure, failure), Success);
    OneMoreValue([Labelled(Success, success)], Labelled(Failure, failure), Failure);
    assert [] + [Labelled(Success, success)] == [Labelled(Success, success)];
    assert [Labelled(Success, success)] + [Labelled(Failure, failure)] == [Labelled(Success, success), Labelled(Failure, failure)];
  }

  lemma TwoAccumulated(x: int, y: int)
    requires SafeInteger(x) && SafeInteger(y)
    ensures Accumulate([x, y]) == if x + y <= MAX_SAFE then Bounded(x + y, false) else Bounded(x, true)
  {
    assert [x, y][..1] == [x] && [x][..0] == [];
    assert Accumulate([x]) == Bounded(x, false);
  }

  /** What the judge makes of two such snapshots. */
  lemma TwoCounted(p: int, a: int, b: int, q: int, c: int, d: int, e: Evaluation)
    requires 1 <= p <= MAX_SAFE && 1 <= q <= MAX_SAFE
    requires SafeInteger(a) && SafeInteger(b) && SafeInteger(c) && SafeInteger(d)
    requires IsEvaluation([Parsed(Counted(p, a, b)), Parsed(Counted(q, c, d))], NoInventory, {}, e)
    ensures e.totals.callbackSuccess == if a + c <= MAX_SAFE then a + c else a
    ensures e.totals.callbackFailure == if b + d <= MAX_SAFE then b + d else b
    ensures e.totals.criticalIncidents == 0 && Samples(e.totals) == 0
    ensures a + c > MAX_SAFE ==> NumericOverflow in e.findings
  {
    var s, t := Counted(p, a, b), Counted(q, c, d);
    CountedValid(p, a, b);
    CountedValid(q, c, d);
    TwoJudged(s, t);
    TwoAdditions(p, a, b, q, c, d);
    TwoAccumulated(a, c);
    TwoAccumulated(b, d);
    TwoAccumulated(0, 0);
    ZeroTotal();
    assert e.totals.sessionBuckets == Zero();
  }

  lemma OnlyCallbacksFail(input: seq<Input>, e: Evaluation)
    requires IsEvaluation(input, NoInventory, {}, e) && e.totals.criticalIncidents == 0 && Samples(e.totals) == 0
    ensures e.verdict == Fail <==>
            Callbacks(e.totals) >= MINIMUM_CALLBACKS && e.totals.callbackSuccess * 1_000 < Callbacks(e.totals) * 995
  {
    var below := Callbacks(e.totals) >= MINIMUM_CALLBACKS && e.totals.callbackSuccess * 1_000 < Callbacks(e.totals) * 995;
    assert FailureFindings(e.totals, e.p95Bucket) == When(below, CallbackBelow);
  }

  lemma TwoJudged(s: Snapshot, t: Snapshot)
    requires ValidSnapshot(s) && ValidSnapshot(t)
    ensures Judged([Parsed(s), Parsed(t)], NoInventory) == [s, t]
  {
    var input := [Parsed(s), Parsed(t)];
    assert input[..1] == [Parsed(s)] && input[..1][..0] == [];
    assert ValidSnapshots(input[..1]) == [s];
  }

  lemma TwoAdditions(p: int, a: int, b: int, q: int, c: int, d: int)
    requires AllWellShaped([Counted(p, a, b), Counted(q, c, d)])
    ensures var added := AdditionsOf([Counted(p, a, b), Counted(q, c, d)]);
            added.success == [a, c] && added.failure == [b, d] && added.critical == [0, 0]
            && forall i | 0 <= i < BUCKETS :: added.buckets[i] == []
  {
    var s, t := Counted(p, a, b), Counted(q, c, d);
    CountedValues(p, a, b);
    CountedValues(q, c, d);
    TwoValues(s, t, Success);
    TwoValues(s, t, Failure);
    forall i | 0 <= i < BUCKETS ensures AllBucketValues([s, t], i) == [] { NoBucketValues(s, t, i); }
  }

  lemma TwoValues(s: Snapshot, t: Snapshot, outcome: Label)
    ensures AllCallbackValues([s, t], outcome) == CallbackValues(s.counters, outcome) + CallbackValues(t.counters, outcome)
  {
    assert [s, t][..1] == [s] && [s][..0] == [];
    assert AllCallbackValues([s], outcome) == [] + CallbackValues(s.counters, outcome) == CallbackValues(s.counters, outcome);
  }

  lemma NoBucketValues(s: Snapshot, t: Snapshot, i: nat)
    requires i < BUCKETS && s.histograms == [] && t.histograms == [] && AllWellShaped([s, t])
    ensures AllBucketValues([s, t], i) == []
  {
    assert [s, t][..1] == [s] && [s][..0] == [];
    assert AllBucketValues([s], i) == [];
  }

  /** Once an addition was refused the order does matter: two snapshots whose reversal turns an
      inconclusive report into a failed one. */
  lemma RefusedTotalsDependOnOrder(e: Evaluation, f: Evaluation)
    requires IsEvaluation([Parsed(Counted(1, MAX_SAFE, 0)), Parsed(Counted(2, 100, 100))], NoInventory, {}, e)
    requires IsEvaluation([Parsed(Counted(2, 100, 100)), Parsed(Counted(1, MAX_SAFE, 0))], NoInventory, {}, f)
    ensures NumericOverflow in e.findings && NumericOverflow in f.findings
    ensures e.totals.callbackSuccess == MAX_SAFE && f.totals.callbackSuccess == 100
    ensures e.verdict != Fail && f.verdict == Fail
  {
    TwoCounted(1, MAX_SAFE, 0, 2, 100, 100, e);
    OnlyCallbacksFail([Parsed(Counted(1, MAX_SAFE, 0)), Parsed(Counted(2, 100, 100))], e);
    TwoCounted(2, 100, 100, 1, MAX_SAFE, 0, f);
    OnlyCallbacksFail([Parsed(Counted(2, 100, 100)), Parsed(Counted(1, MAX_SAFE, 0))], f);
  }

  /** Permuting the input changes nothing in the report, whenever it does not report
      numeric_overflow. */
  lemma OrderIndependence(
    a: seq<Input>, b: seq<Input>, inventory: InventoryInput, inputFindings: set<Finding>,
    e: Evaluation, f: Evaluation)
    requires multiset(a) == multiset(b)
    requires IsEvaluation(a, inventory, inputFindings, e) && IsEvaluation(b, inventory, inputFindings, f)
    ensures NumericOverflow !in e.findings ==> e == f
  {
    JudgedPermutation(a, b, inventory);
    AdmissionPermutation(a, b, inventory);
    JudgedShape(a, inventory);
    JudgedShape(b, inventory);
    ReportsPermutation(Judged(a, inventory), Judged(b, inventory), Accepted(inventory),
                       inputFindings + AdmissionFindings(a, inventory), e, f);
  }
}
