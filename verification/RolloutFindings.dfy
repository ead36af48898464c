/** What every finding of the rollout judge says about the evidence, and when its verdict is
    `fail` or `inconclusive` (src/auth-rollout.ts, lines 215-375). */
module RolloutFindings {
  import opened Optional
  import opened Sequences
  import opened Sorting
  import opened LatencyHistogram
  import opened RolloutContract
  import opened RolloutEvaluator
  import opened RolloutVerdict
  import opened RolloutPass

  // ----- The verdict -----

  /** At least 100 callbacks, fewer than 995 in a thousand of them successful. */
  predicate CallbacksMissed(success: int, failure: int) {
    success + failure >= 100 && success * 1_000 < (success + failure) * 995
  }

  /** At least 100 samples, and the bucket of the ceil(0.95 n)-th has a bound above 20 ms, or none. */
  ghost predicate LatencyMissed(b: Buckets) {
    var n := Total(b);
    n >= 100 && exists i | 0 <= i < |b| :: Total(b[..i]) < (95 * n + 99) / 100 <= Total(b[..i + 1])
                                           && (i >= |BOUNDS| || BOUNDS[i] > 0.02)
  }

  ghost predicate Missed(t: Totals) {
    t.criticalIncidents > 0 || CallbacksMissed(t.callbackSuccess, t.callbackFailure) || LatencyMissed(t.sessionBuckets)
  }

  lemma LatencyExact(t: Totals, p95Bucket: Option<nat>)
    requires IsP95(t, p95Bucket)
    ensures LatencyMissed(t.sessionBuckets) <==> P95Above in FailureFindings(t, p95Bucket)
    ensures LatencyMissed(t.sessionBuckets) <==>
            Total(t.sessionBuckets) >= 100 && 100 * Total(t.sessionBuckets[..5]) < 95 * Total(t.sessionBuckets)
  {
    var b := t.sessionBuckets;
    var n := Total(b);
    if n >= 100 {
      P95Exact(t, p95Bucket);
      forall i | 0 <= i < |b| && Total(b[..i]) < Rank(n) <= Total(b[..i + 1]) ensures i == p95Bucket.value {
        RankBucketUnique(b, Rank(n), i, p95Bucket.value);
      }
      assert Total(b[..p95Bucket.value]) < Rank(n) <= Total(b[..p95Bucket.value + 1]);
    }
  }

  lemma FailuresMean(t: Totals, p95Bucket: Option<nat>)
    requires IsP95(t, p95Bucket)
    ensures CriticalIncident in FailureFindings(t, p95Bucket) <==> t.criticalIncidents > 0
    ensures CallbackBelow in FailureFindings(t, p95Bucket) <==> CallbacksMissed(t.callbackSuccess, t.callbackFailure)
    ensures P95Above in FailureFindings(t, p95Bucket) <==> LatencyMissed(t.sessionBuckets)
  {
    LatencyExact(t, p95Bucket);
  }

  /** The verdict is `fail` exactly when a service level is missed, whatever else is found, and
      `inconclusive` exactly when none is and there is some other finding. */
  lemma VerdictExactly(input: seq<Input>, inventory: InventoryInput, inputFindings: set<Finding>, e: Evaluation)
    requires IsEvaluation(input, inventory, inputFindings, e)
    ensures e.verdict == Fail <==> Missed(e.totals)
    ensures e.verdict == Inconclusive <==>
            !Missed(e.totals)
            && exists f | f in e.findings :: f != CriticalIncident && f != CallbackBelow && f != P95Above
  {
    VerdictReported(input, inventory, inputFindings, e);
    FailuresMean(e.totals, e.p95Bucket);
    FailuresAreFailures(e.totals, e.p95Bucket);
    VerdictMeans(FailureFindings(e.totals, e.p95Bucket), e.findings);
  }

  lemma VerdictReported(input: seq<Input>, inventory: InventoryInput, inputFindings: set<Finding>, e: Evaluation)
    requires IsEvaluation(input, inventory, inputFindings, e)
    ensures IsP95(e.totals, e.p95Bucket)
    ensures e.verdict == VerdictOf(FailureFindings(e.totals, e.p95Bucket), e.findings)
  {
  }

  lemma VerdictMeans(failures: set<Finding>, findings: set<Finding>)
    requires failures <= FAILURES
    ensures VerdictOf(failures, findings) == Fail <==>
            CriticalIncident in failures || CallbackBelow in failures || P95Above in failures
    ensures VerdictOf(failures, findings) == Inconclusive <==>
            !(CriticalIncident in failures || CallbackBelow in failures || P95Above in failures)
            && exists f | f in findings :: f != CriticalIncident && f != CallbackBelow && f != P95Above
  {
    if f :| f in failures { assert f in FAILURES; }
    if f :| f in findings - FAILURES {}
    if f :| f in findings && f != CriticalIncident && f != CallbackBelow && f != P95Above {
      assert f in findings - FAILURES;
    }
  }

  // ----- Chains -----

  lemma {:induction false} ChainMember(spans: seq<Span>, f: Finding)
    ensures f in ChainFindings(spans) <==> exists k | 0 < k < |spans| :: f in PairFindings(spans[k - 1], spans[k])
  {
    if |spans| >= 2 {
      var init, n := spans[..|spans| - 1], |spans| - 1;
      ChainMember(init, f);
      if f in ChainFindings(init) {
        var k :| 0 < k < |init| && f in PairFindings(init[k - 1], init[k]);
        assert f in PairFindings(spans[k - 1], spans[k]);
      }
      if k :| 0 < k < |spans| && f in PairFindings(spans[k - 1], spans[k]) {
        if k < n { assert f in PairFindings(init[k - 1], init[k]); }
      }
    }
  }

  /** One instance's snapshots in the order of their starts, ties by sequence number. */
  ghost predicate Arranged(snapshots: seq<Snapshot>, id: string, t: seq<Snapshot>) {
    multiset(t) == multiset(Filter(snapshots, OfInstance(id))) && SortedBy(t, FineOrder)
  }

  ghost predicate SkipsNumber(t: seq<Snapshot>) {
    exists k | 0 < k < |t| :: t[k].sequence != t[k - 1].sequence + 1
  }

  ghost predicate LeavesGap(t: seq<Snapshot>) {
    exists k | 0 < k < |t| :: t[k].start > t[k - 1].end
  }

  predicate SharesInstant(a: Snapshot, b: Snapshot) {
    a.instanceId == b.instanceId && a.start < b.end && b.start < a.end
  }

  ghost predicate Overlaps(t: seq<Snapshot>) {
    exists i, j | 0 <= i < j < |t| :: SharesInstant(t[i], t[j])
  }

  lemma ArrangedIs(snapshots: seq<Snapshot>, id: string, t: seq<Snapshot>)
    requires Arranged(snapshots, id, t)
    ensures Map(t, ToSpan()) == InstanceSpans(snapshots, id)
  {
    InstanceSpansUnique(snapshots, id, t);
  }

  lemma NeighboursMean(list: seq<Snapshot>, k: nat)
    requires 0 < k < |list|
    ensures var spans := Map(list, ToSpan());
            && (SequenceInvalid in PairFindings(spans[k - 1], spans[k]) <==> list[k].sequence != list[k - 1].sequence + 1)
            && (IntervalOverlap in PairFindings(spans[k - 1], spans[k]) <==> list[k].start < list[k - 1].end)
            && (IntervalGap in PairFindings(spans[k - 1], spans[k]) <==> list[k].start > list[k - 1].end)
            && PairFindings(spans[k - 1], spans[k]) <= {SequenceInvalid, IntervalOverlap, IntervalGap}
  {
  }

  /** Two of one instance's snapshots overlap exactly when two neighbours in that order do. */
  lemma OverlapOfNeighbours(t: seq<Snapshot>)
    requires SortedBy(t, FineOrder) && forall s | s in t :: s.start < s.end
    requires forall i, j | 0 <= i < |t| && 0 <= j < |t| :: t[i].instanceId == t[j].instanceId
    ensures Overlaps(t) <==> exists k | 0 < k < |t| :: t[k].start < t[k - 1].end
  {
    if i, j :| 0 <= i < j < |t| && SharesInstant(t[i], t[j]) {
      assert i + 1 == j || FineOrder(t[i + 1], t[j]);
      assert t[i + 1].start < t[i + 1 - 1].end;
    }
    if k :| 0 < k < |t| && t[k].start < t[k - 1].end {
      assert FineOrder(t[k - 1], t[k]) && t[k] in t;
      assert SharesInstant(t[k - 1], t[k]);
    }
  }

  lemma InstanceChain(snapshots: seq<Snapshot>, id: string, t: seq<Snapshot>)
    requires AllValid(snapshots) && Arranged(snapshots, id, t)
    ensures SequenceInvalid in ChainFindings(InstanceSpans(snapshots, id)) <==> SkipsNumber(t)
    ensures IntervalGap in ChainFindings(InstanceSpans(snapshots, id)) <==> LeavesGap(t)
    ensures IntervalOverlap in ChainFindings(InstanceSpans(snapshots, id)) <==> Overlaps(t)
    ensures ChainFindings(InstanceSpans(snapshots, id)) <= {SequenceInvalid, IntervalOverlap, IntervalGap}
  {
    ArrangedIs(snapshots, id, t);
    ArrangedMembers(snapshots, id, t);
    OverlapOfNeighbours(t);
    NeighboursFound(t, ChainFindings(Map(t, ToSpan())));
  }

  lemma NeighboursFound(t: seq<Snapshot>, found: set<Finding>)
    requires found == ChainFindings(Map(t, ToSpan()))
    ensures SequenceInvalid in found <==> SkipsNumber(t)
    ensures IntervalGap in found <==> LeavesGap(t)
    ensures IntervalOverlap in found <==> exists k | 0 < k < |t| :: t[k].start < t[k - 1].end
    ensures found <= {SequenceInvalid, IntervalOverlap, IntervalGap}
  {
    forall f ensures f in found <==> NeighbourFinding(t, f) { ChainMember(Map(t, ToSpan()), f); }
    NeighbourFindingMeans(t);
  }

  lemma ArrangedMembers(snapshots: seq<Snapshot>, id: string, t: seq<Snapshot>)
    requires AllValid(snapshots) && Arranged(snapshots, id, t)
    ensures forall s | s in t :: s.start < s.end && s.instanceId == id
    ensures forall i, j | 0 <= i < |t| && 0 <= j < |t| :: t[i].instanceId == t[j].instanceId
  {
    PermutationMembers(t, Filter(snapshots, OfInstance(id)));
    forall s | s in t ensures s.start < s.end && s.instanceId == id && ValidSnapshot(s) {
      FilterMembers(snapshots, OfInstance(id), s);
    }
    forall i, j | 0 <= i < |t| && 0 <= j < |t| ensures t[i].instanceId == t[j].instanceId {
      assert t[i] in t && t[j] in t;
    }
  }

  ghost predicate NeighbourFinding(t: seq<Snapshot>, f: Finding) {
    exists k | 0 < k < |t| :: f in PairFindings(Map(t, ToSpan())[k - 1], Map(t, ToSpan())[k])
  }

  lemma NeighbourFindingMeans(t: seq<Snapshot>)
    ensures NeighbourFinding(t, SequenceInvalid) <==> SkipsNumber(t)
    ensures NeighbourFinding(t, IntervalGap) <==> LeavesGap(t)
    ensures NeighbourFinding(t, IntervalOverlap) <==> exists k | 0 < k < |t| :: t[k].start < t[k - 1].end
    ensures forall f | NeighbourFinding(t, f) :: f in {SequenceInvalid, IntervalOverlap, IntervalGap}
  {
    forall k: nat | 0 < k < |t|
      ensures var spans := Map(t, ToSpan());
              && (SequenceInvalid in PairFindings(spans[k - 1], spans[k]) <==> t[k].sequence != t[k - 1].sequence + 1)
              && (IntervalOverlap in PairFindings(spans[k - 1], spans[k]) <==> t[k].start < t[k - 1].end)
              && (IntervalGap in PairFindings(spans[k - 1], spans[k]) <==> t[k].start > t[k - 1].end)
              && PairFindings(spans[k - 1], spans[k]) <= {SequenceInvalid, IntervalOverlap, IntervalGap}
    {
      NeighboursMean(t, k);
    }
  }

  // ----- Overlaps, whatever the order -----

  /** The element is in two places. */
  lemma {:induction false} TwicePlaced<T>(s: seq<T>, i: nat, j: nat)
    requires i < j < |s| && s[i] == s[j]
    ensures multiset(s)[s[i]] >= 2
  {
    OneApart(s, j);
    assert (s[..j] + s[j + 1..])[i] == s[i];
  }

  lemma TwoPlaces<T>(s: seq<T>, x: T) returns (i: nat, j: nat)
    requires multiset(s)[x] >= 2
    ensures i < j < |s| && s[i] == x && s[j] == x
  {
    assert x in multiset(s);
    var a :| 0 <= a < |s| && s[a] == x;
    OneApart(s, a);
    var rest := s[..a] + s[a + 1..];
    assert x in multiset(rest);
    var b :| 0 <= b < |rest| && rest[b] == x;
    if b < a { i, j := b, a; } else { i, j := a, b + 1; }
  }

  /** Two snapshots, or one delivered twice. */
  ghost predicate OverlapAmong(m: multiset<Snapshot>) {
    exists x, y | x in m && y in m :: SharesInstant(x, y) && (x != y || m[x] >= 2)
  }

  lemma OverlapsAmong(t: seq<Snapshot>)
    ensures Overlaps(t) <==> OverlapAmong(multiset(t))
  {
    if i, j :| 0 <= i < j < |t| && SharesInstant(t[i], t[j]) {
      if t[i] == t[j] { TwicePlaced(t, i, j); }
      assert t[i] in multiset(t) && t[j] in multiset(t);
    }
    if x, y :| x in multiset(t) && y in multiset(t) && SharesInstant(x, y) && (x != y || multiset(t)[x] >= 2) {
      if x == y {
        var i, j := TwoPlaces(t, x);
        assert SharesInstant(t[i], t[j]);
      } else {
        var i :| 0 <= i < |t| && t[i] == x;
        var j :| 0 <= j < |t| && t[j] == y;
        if i < j { assert SharesInstant(t[i], t[j]); } else { assert SharesInstant(t[j], t[i]); }
      }
    }
  }

  lemma OverlapsOfInstance(snapshots: seq<Snapshot>, id: string, t: seq<Snapshot>)
    requires multiset(t) == multiset(Filter(snapshots, OfInstance(id)))
    ensures Overlaps(t) <==>
            exists x, y | x in multiset(snapshots) && y in multiset(snapshots) ::
              SharesInstant(x, y) && x.instanceId == id && (x != y || multiset(snapshots)[x] >= 2)
  {
    OverlapsAmong(t);
    forall x ensures multiset(t)[x] == if x.instanceId == id then multiset(snapshots)[x] else 0 {
      FilterCounts(snapshots, OfInstance(id), x);
    }
  }

  // ----- What the chain findings say -----

  lemma ArrangementOf(snapshots: seq<Snapshot>, id: string)
    ensures Arranged(snapshots, id, InstanceList(snapshots, id))
  {
    InstanceListSorted(snapshots, id);
  }

  lemma EmptyArrangement(snapshots: seq<Snapshot>, id: string, t: seq<Snapshot>)
    requires Arranged(snapshots, id, t) && id !in InstanceIds(snapshots)
    ensures t == []
  {
    NoneOfInstance(snapshots, id);
    PermutationLength(t, Filter(snapshots, OfInstance(id)));
  }

  ghost predicate SomeInstance(snapshots: seq<Snapshot>, holds: seq<Snapshot> -> bool) {
    exists id, t :: Arranged(snapshots, id, t) && holds(t)
  }

  lemma ContinuityMeans(snapshots: seq<Snapshot>)
    requires AllValid(snapshots)
    ensures SequenceInvalid in ContinuityFindings(snapshots) <==> SomeInstance(snapshots, t => SkipsNumber(t))
    ensures IntervalGap in ContinuityFindings(snapshots) <==> SomeInstance(snapshots, t => LeavesGap(t))
    ensures IntervalOverlap in ContinuityFindings(snapshots) <==> Overlaps(snapshots)
    ensures ContinuityFindings(snapshots) <= {SequenceInvalid, IntervalOverlap, IntervalGap}
  {
    forall id, t | Arranged(snapshots, id, t)
      ensures SequenceInvalid in ChainFindings(InstanceSpans(snapshots, id)) <==> SkipsNumber(t)
      ensures IntervalGap in ChainFindings(InstanceSpans(snapshots, id)) <==> LeavesGap(t)
      ensures IntervalOverlap in ChainFindings(InstanceSpans(snapshots, id)) <==> Overlaps(t)
      ensures ChainFindings(InstanceSpans(snapshots, id)) <= {SequenceInvalid, IntervalOverlap, IntervalGap}
      ensures id !in InstanceIds(snapshots) ==> t == []
    {
      InstanceChain(snapshots, id, t);
      if id !in InstanceIds(snapshots) { EmptyArrangement(snapshots, id, t); }
    }
    forall id ensures Arranged(snapshots, id, InstanceList(snapshots, id)) { ArrangementOf(snapshots, id); }
    assert IntervalOverlap in ContinuityFindings(snapshots) <==> SomeInstance(snapshots, t => Overlaps(t));
    OverlapsSomewhere(snapshots);
  }

  lemma OverlapsSomewhere(snapshots: seq<Snapshot>)
    ensures SomeInstance(snapshots, t => Overlaps(t)) <==> Overlaps(snapshots)
  {
    OverlapsAmong(snapshots);
    if id, t :| Arranged(snapshots, id, t) && Overlaps(t) { OverlapsOfInstance(snapshots, id, t); }
    if Overlaps(snapshots) {
      var x, y :| x in multiset(snapshots) && y in multiset(snapshots) && SharesInstant(x, y)
                  && (x != y || multiset(snapshots)[x] >= 2);
      var id := x.instanceId;
      ArrangementOf(snapshots, id);
      OverlapsOfInstance(snapshots, id, InstanceList(snapshots, id));
    }
  }

  // ----- Expected lifecycles -----

  predicate Within(v: Serving, s: Span) {
    v.expectedStart <= s.start && s.end <= v.expectedEnd
  }

  ghost predicate CoveredIn(v: Serving, spans: seq<Span>, x: int) {
    exists k | 0 <= k < |spans| :: Within(v, spans[k]) && spans[k].start <= x < spans[k].end
  }

  /** How far the scan came: over everything it kept, and not further. */
  ghost predicate Reached(v: Serving, spans: seq<Span>, cursor: int) {
    && v.expectedStart <= cursor
    && (forall k | 0 <= k < |spans| && Within(v, spans[k]) :: spans[k].end <= cursor)
    && (cursor == v.expectedStart || exists k | 0 <= k < |spans| :: Within(v, spans[k]) && spans[k].end == cursor)
  }

  /** An instant of the lifecycle before some kept span that none of the spans covers. */
  ghost predicate Hole(v: Serving, spans: seq<Span>, x: int) {
    && v.expectedStart <= x && !CoveredIn(v, spans, x)
    && exists k | 0 <= k < |spans| :: Within(v, spans[k]) && x < spans[k].start
  }

  ghost predicate StartsSorted(spans: seq<Span>) {
    forall i, j | 0 <= i < j < |spans| :: spans[i].start <= spans[j].start
  }

  lemma CoveredNext(v: Serving, spans: seq<Span>, x: int)
    requires spans != []
    ensures var init, last := spans[..|spans| - 1], spans[|spans| - 1];
            CoveredIn(v, spans, x) <==> CoveredIn(v, init, x) || (Within(v, last) && last.start <= x < last.end)
  {
    var init := spans[..|spans| - 1];
    if CoveredIn(v, init, x) {
      var k :| 0 <= k < |init| && Within(v, init[k]) && init[k].start <= x < init[k].end;
      assert Within(v, spans[k]);
    }
    if k :| 0 <= k < |spans| && Within(v, spans[k]) && spans[k].start <= x < spans[k].end {
      if k < |init| { assert Within(v, init[k]); }
    }
  }

  lemma ReachedNext(v: Serving, spans: seq<Span>, before: int)
    requires spans != [] && Reached(v, spans[..|spans| - 1], before)
    ensures var last := spans[|spans| - 1];
            Reached(v, spans, if Within(v, last) && last.end > before then last.end else before)
  {
    var init, last := spans[..|spans| - 1], spans[|spans| - 1];
    forall k | 0 <= k < |spans| - 1 ensures init[k] == spans[k] {}
    if before != v.expectedStart {
      var k :| 0 <= k < |init| && Within(v, init[k]) && init[k].end == before;
      assert Within(v, spans[k]) && spans[k].end == before;
    }
  }

  lemma HoleNext(v: Serving, spans: seq<Span>, x: int)
    requires spans != [] && StartsSorted(spans) && Hole(v, spans[..|spans| - 1], x)
    ensures Hole(v, spans, x)
  {
    var init, last := spans[..|spans| - 1], spans[|spans| - 1];
    var k :| 0 <= k < |init| && Within(v, init[k]) && x < init[k].start;
    assert spans[k].start <= last.start && Within(v, spans[k]) && x < spans[k].start;
    CoveredNext(v, spans, x);
  }

  /** Where the scan found the next span beyond its cursor, the cursor is a hole. */
  lemma NewHole(v: Serving, spans: seq<Span>, before: int)
    requires spans != [] && Reached(v, spans[..|spans| - 1], before)
    requires Within(v, spans[|spans| - 1]) && before < spans[|spans| - 1].start
    ensures Hole(v, spans, before)
  {
    var init := spans[..|spans| - 1];
    assert !CoveredIn(v, init, before);
    CoveredNext(v, spans, before);
    assert Within(v, spans[|spans| - 1]) && before < spans[|spans| - 1].start;
  }

  ghost predicate AnyOutside(v: Serving, spans: seq<Span>) {
    exists k | 0 <= k < |spans| :: !Within(v, spans[k])
  }

  ghost predicate AnyTooLong(v: Serving, spans: seq<Span>) {
    exists k | 0 <= k < |spans| :: Within(v, spans[k]) && spans[k].end - spans[k].start > v.cadenceMs
  }

  lemma {:induction false} ScanFlags(v: Serving, spans: seq<Span>)
    ensures var found := ScanLifecycle(v, spans).findings;
            && (OutsideLifecycle in found <==> AnyOutside(v, spans))
            && (CadenceExceeded in found <==> AnyTooLong(v, spans))
            && found <= {OutsideLifecycle, CadenceExceeded, IntervalMissing}
  {
    if spans != [] {
      var init, last := spans[..|spans| - 1], spans[|spans| - 1];
      ScanFlags(v, init);
      assert AnyOutside(v, spans) <==> AnyOutside(v, init) || !Within(v, last) by {
        forall k | 0 <= k < |init| ensures init[k] == spans[k] {}
        if k :| 0 <= k < |init| && !Within(v, init[k]) { assert !Within(v, spans[k]); }
      }
      assert AnyTooLong(v, spans) <==> AnyTooLong(v, init) || (Within(v, last) && last.end - last.start > v.cadenceMs) by {
        forall k | 0 <= k < |init| ensures init[k] == spans[k] {}
        if k :| 0 <= k < |init| && Within(v, init[k]) && init[k].end - init[k].start > v.cadenceMs {
          assert Within(v, spans[k]);
        }
      }
    }
  }

  /** The scan: either nothing is missing up to its cursor, or there is a hole. */
  lemma {:induction false} ScanHoles(v: Serving, spans: seq<Span>)
    requires StartsSorted(spans)
    ensures var scan := ScanLifecycle(v, spans);
            && Reached(v, spans, scan.cursor)
            && (IntervalMissing !in scan.findings ==> forall x | v.expectedStart <= x < scan.cursor :: CoveredIn(v, spans, x))
            && (IntervalMissing in scan.findings ==> exists x :: Hole(v, spans, x))
  {
    if spans != [] {
      var init, last := spans[..|spans| - 1], spans[|spans| - 1];
      ScanHoles(v, init);
      var before := ScanLifecycle(v, init);
      ReachedNext(v, spans, before.cursor);
      if IntervalMissing in before.findings {
        var x :| Hole(v, init, x);
        HoleNext(v, spans, x);
      } else if Within(v, last) && last.start > before.cursor {
        NewHole(v, spans, before.cursor);
      } else {
        forall x | v.expectedStart <= x < ScanLifecycle(v, spans).cursor ensures CoveredIn(v, spans, x) {
          CoveredNext(v, spans, x);
        }
      }
    }
  }

  ghost predicate AnyUncovered(v: Serving, spans: seq<Span>) {
    exists x | v.expectedStart <= x < v.expectedEnd :: !CoveredIn(v, spans, x)
  }

  /** What is found about one expected lifecycle, span by span and instant by instant. */
  lemma LifecycleMeans(v: Serving, spans: seq<Span>)
    requires StartsSorted(spans) && Positive(spans)
    ensures var found := LifecycleFindings(v, spans);
            && (OutsideLifecycle in found <==> AnyOutside(v, spans))
            && (CadenceExceeded in found <==> AnyTooLong(v, spans))
            && (IntervalMissing in found <==> AnyUncovered(v, spans))
            && found <= {OutsideLifecycle, CadenceExceeded, IntervalMissing}
  {
    ScanFlags(v, spans);
    ScanHoles(v, spans);
    var scan := ScanLifecycle(v, spans);
    if IntervalMissing in scan.findings {
      var x :| Hole(v, spans, x);
      assert v.expectedStart <= x < v.expectedEnd && !CoveredIn(v, spans, x);
    } else if scan.cursor < v.expectedEnd {
      assert !CoveredIn(v, spans, scan.cursor);
    }
  }

  // ----- All lifecycles, in terms of the snapshots -----

  predicate Serves(v: Serving, s: Snapshot) {
    s.instanceId == v.instanceId
  }

  predicate InLife(v: Serving, s: Snapshot) {
    v.expectedStart <= s.start && s.end <= v.expectedEnd
  }

  /** A snapshot of the instance, within its lifecycle, holds the instant. */
  ghost predicate Witnessed(snapshots: seq<Snapshot>, v: Serving, x: int) {
    exists s | s in snapshots :: Serves(v, s) && InLife(v, s) && s.start <= x < s.end
  }

  lemma SpansOf(snapshots: seq<Snapshot>, v: Serving)
    requires AllValid(snapshots)
    ensures var spans := InstanceSpans(snapshots, v.instanceId);
            && StartsSorted(spans) && Positive(spans)
            && (AnyOutside(v, spans) <==> exists s | s in snapshots :: Serves(v, s) && !InLife(v, s))
            && (AnyTooLong(v, spans) <==>
                  exists s | s in snapshots :: Serves(v, s) && InLife(v, s) && s.end - s.start > v.cadenceMs)
            && (forall x :: CoveredIn(v, spans, x) <==> Witnessed(snapshots, v, x))
  {
    var list, spans := InstanceList(snapshots, v.instanceId), InstanceSpans(snapshots, v.instanceId);
    InstanceSpansSorted(snapshots, v.instanceId);
    PositiveSpans(snapshots, v.instanceId);
    forall i, j | 0 <= i < j < |spans| ensures spans[i].start <= spans[j].start {
      assert SpanOrder(spans[i], spans[j]);
    }
    SpansAreSnapshots(snapshots, v.instanceId, list);
    forall k | 0 <= k < |list| ensures spans[k] == ToSpan()(list[k]) && (Within(v, spans[k]) <==> InLife(v, list[k])) {}
    SpansAnyOutside(snapshots, v, list, spans);
    SpansAnyTooLong(snapshots, v, list, spans);
    forall x ensures CoveredIn(v, spans, x) <==> Witnessed(snapshots, v, x) {
      SpansCovered(snapshots, v, list, spans, x);
    }
  }

  ghost predicate ListOf(snapshots: seq<Snapshot>, id: string, list: seq<Snapshot>) {
    && (forall k | 0 <= k < |list| :: list[k] in snapshots && list[k].instanceId == id)
    && (forall s | s in snapshots && s.instanceId == id :: exists k | 0 <= k < |list| :: list[k] == s)
  }

  lemma SpansAreSnapshots(snapshots: seq<Snapshot>, id: string, list: seq<Snapshot>)
    requires list == InstanceList(snapshots, id)
    ensures ListOf(snapshots, id, list)
  {
    InstanceListSorted(snapshots, id);
    PermutationMembers(list, Filter(snapshots, OfInstance(id)));
    forall s ensures s in list <==> s in snapshots && s.instanceId == id { FilterMembers(snapshots, OfInstance(id), s); }
  }

  lemma SpansAnyOutside(snapshots: seq<Snapshot>, v: Serving, list: seq<Snapshot>, spans: seq<Span>)
    requires ListOf(snapshots, v.instanceId, list) && spans == Map(list, ToSpan())
    ensures AnyOutside(v, spans) <==> exists s | s in snapshots :: Serves(v, s) && !InLife(v, s)
  {
    if k :| 0 <= k < |spans| && !Within(v, spans[k]) { assert Serves(v, list[k]) && !InLife(v, list[k]); }
    if s :| s in snapshots && Serves(v, s) && !InLife(v, s) {
      var k :| 0 <= k < |list| && list[k] == s;
      assert !Within(v, spans[k]);
    }
  }

  lemma SpansAnyTooLong(snapshots: seq<Snapshot>, v: Serving, list: seq<Snapshot>, spans: seq<Span>)
    requires ListOf(snapshots, v.instanceId, list) && spans == Map(list, ToSpan())
    ensures AnyTooLong(v, spans) <==>
            exists s | s in snapshots :: Serves(v, s) && InLife(v, s) && s.end - s.start > v.cadenceMs
  {
    if k :| 0 <= k < |spans| && Within(v, spans[k]) && spans[k].end - spans[k].start > v.cadenceMs {
      assert Serves(v, list[k]) && InLife(v, list[k]);
    }
    if s :| s in snapshots && Serves(v, s) && InLife(v, s) && s.end - s.start > v.cadenceMs {
      var k :| 0 <= k < |list| && list[k] == s;
      assert Within(v, spans[k]);
    }
  }

  lemma SpansCovered(snapshots: seq<Snapshot>, v: Serving, list: seq<Snapshot>, spans: seq<Span>, x: int)
    requires ListOf(snapshots, v.instanceId, list) && spans == Map(list, ToSpan())
    ensures CoveredIn(v, spans, x) <==> Witnessed(snapshots, v, x)
  {
    if k :| 0 <= k < |spans| && Within(v, spans[k]) && spans[k].start <= x < spans[k].end {
      assert Serves(v, list[k]) && InLife(v, list[k]);
    }
    if s :| s in snapshots && Serves(v, s) && InLife(v, s) && s.start <= x < s.end {
      var k :| 0 <= k < |list| && list[k] == s;
      assert Within(v, spans[k]);
    }
  }

  lemma {:induction false} LifecyclesMember(snapshots: seq<Snapshot>, serving: seq<Serving>, f: Finding)
    ensures f in LifecyclesFindings(snapshots, serving) <==>
            exists v | v in serving :: f in LifecycleFindings(v, InstanceSpans(snapshots, v.instanceId))
  {
    if serving != [] {
      var init, last := serving[..|serving| - 1], serving[|serving| - 1];
      LifecyclesMember(snapshots, init, f);
      assert forall v :: v in serving <==> v in init || v == last;
    }
  }

  ghost predicate Strays(snapshots: seq<Snapshot>, v: Serving) {
    exists s | s in snapshots :: Serves(v, s) && !InLife(v, s)
  }

  ghost predicate Dawdles(snapshots: seq<Snapshot>, v: Serving) {
    exists s | s in snapshots :: Serves(v, s) && InLife(v, s) && s.end - s.start > v.cadenceMs
  }

  ghost predicate Unwitnessed(snapshots: seq<Snapshot>, v: Serving) {
    exists x | v.expectedStart <= x < v.expectedEnd :: !Witnessed(snapshots, v, x)
  }

  lemma OneLifecycle(snapshots: seq<Snapshot>, v: Serving)
    requires AllValid(snapshots)
    ensures var found := LifecycleFindings(v, InstanceSpans(snapshots, v.instanceId));
            && (OutsideLifecycle in found <==> Strays(snapshots, v))
            && (CadenceExceeded in found <==> Dawdles(snapshots, v))
            && (IntervalMissing in found <==> Unwitnessed(snapshots, v))
            && found <= {OutsideLifecycle, CadenceExceeded, IntervalMissing}
  {
    SpansOf(snapshots, v);
    LifecycleMeans(v, InstanceSpans(snapshots, v.instanceId));
  }

  ghost predicate LifeTells(f: Finding, snapshots: seq<Snapshot>, v: Serving) {
    || (f == OutsideLifecycle && Strays(snapshots, v))
    || (f == CadenceExceeded && Dawdles(snapshots, v))
    || (f == IntervalMissing && Unwitnessed(snapshots, v))
  }

  lemma LifeFound(snapshots: seq<Snapshot>, v: Serving, f: Finding)
    requires AllValid(snapshots)
    ensures f in LifecycleFindings(v, InstanceSpans(snapshots, v.instanceId)) <==> LifeTells(f, snapshots, v)
  {
    OneLifecycle(snapshots, v);
  }

  lemma SomeLife(snapshots: seq<Snapshot>, serving: seq<Serving>, f: Finding)
    requires AllValid(snapshots)
    ensures f in LifecyclesFindings(snapshots, serving) <==> exists v | v in serving :: LifeTells(f, snapshots, v)
  {
    LifecyclesMember(snapshots, serving, f);
    forall v: Serving
      ensures f in LifecycleFindings(v, InstanceSpans(snapshots, v.instanceId)) <==> LifeTells(f, snapshots, v)
    {
      LifeFound(snapshots, v, f);
    }
  }

  lemma SomeLifeTells(snapshots: seq<Snapshot>, inv: Inventory, f: Finding)
    ensures (exists v | v in inv.serving :: LifeTells(f, snapshots, v)) <==>
            f != UnexpectedInstance && LivesTell(f, snapshots, inv)
  {
    if v :| v in inv.serving && LifeTells(f, snapshots, v) {}
  }

  lemma ServingMeans(snapshots: seq<Snapshot>, inv: Inventory, f: Finding)
    requires AllValid(snapshots)
    ensures f in ServingFindings(snapshots, inv) <==> LivesTell(f, snapshots, inv)
  {
    SomeLife(snapshots, inv.serving, f);
    SomeLifeTells(snapshots, inv, f);
    UnexpectedMeans(snapshots, inv);
    assert f in ServingFindings(snapshots, inv) <==>
           (f == UnexpectedInstance && AnyUnexpected(snapshots, ServingIds(inv))) || f in LifecyclesFindings(snapshots, inv.serving);
  }

  lemma UnexpectedMeans(snapshots: seq<Snapshot>, inv: Inventory)
    ensures AnyUnexpected(snapshots, ServingIds(inv)) <==>
            exists s | s in snapshots :: forall v | v in inv.serving :: s.instanceId != v.instanceId
  {
  }

  // ----- The window -----

  /** From the earliest start to the latest end. */
  ghost predicate Hull(windows: seq<Window>, w: Window) {
    && (exists i | 0 <= i < |windows| :: windows[i].start == w.start)
    && (exists i | 0 <= i < |windows| :: windows[i].end == w.end)
    && (forall i | 0 <= i < |windows| :: w.start <= windows[i].start && windows[i].end <= w.end)
  }

  /** An uncovered instant with covered ones on both sides. */
  ghost predicate Interrupted(windows: seq<Window>) {
    exists u, x, w | u < x < w :: CoveredBy(windows, u) && !CoveredBy(windows, x) && CoveredBy(windows, w)
  }

  lemma {:induction false} SweepHull(windows: seq<Window>)
    requires Proper(windows) && windows != []
    ensures SweepWindows(windows).covered.Some? && Hull(windows, SweepWindows(windows).covered.value)
  {
    var init, last := windows[..|windows| - 1], windows[|windows| - 1];
    if init == [] {
      assert SweepWindows(init) == Sweep(None, false);
    } else {
      SweepHull(init);
      var c := SweepWindows(init).covered.value;
      HullNext(windows, c, SweepWindows(windows).covered.value);
    }
  }

  lemma HullNext(windows: seq<Window>, c: Window, w: Window)
    requires |windows| >= 2 && Proper(windows) && Hull(windows[..|windows| - 1], c)
    requires var last := windows[|windows| - 1];
             w.start == c.start && w.end == if last.start > c.end || last.end > c.end then last.end else c.end
    ensures Hull(windows, w)
  {
    var init, last := windows[..|windows| - 1], windows[|windows| - 1];
    var i :| 0 <= i < |init| && init[i].start == c.start;
    var j :| 0 <= j < |init| && init[j].end == c.end;
    assert windows[i].start == c.start && windows[j].end == c.end && WindowOrder(windows[i], last);
    forall k | 0 <= k < |windows| ensures w.start <= windows[k].start && windows[k].end <= w.end {
      if k < |init| { assert init[k] == windows[k]; }
    }
  }

  lemma GapInterrupts(windows: seq<Window>)
    requires Proper(windows) && windows != []
    ensures SweepWindows(windows).gap <==> Interrupted(windows)
  {
    if SweepWindows(windows).gap {
      var k := FirstGap(windows);
      GapIsHole(windows, k);
    } else {
      NoGapNoHole(windows);
    }
  }

  lemma NoGapNoHole(windows: seq<Window>)
    requires Proper(windows) && windows != [] && !SweepWindows(windows).gap
    ensures !Interrupted(windows)
  {
    SweepUnion(windows);
    var c := SweepWindows(windows).covered.value;
    forall u, x, w | u < x < w && CoveredBy(windows, u) && CoveredBy(windows, w) ensures CoveredBy(windows, x) {
      assert Inside(c, x);
    }
  }

  lemma GapIsHole(windows: seq<Window>, k: nat)
    requires Proper(windows) && 0 < k < |windows| && !SweepWindows(windows[..k]).gap
    requires SweepWindows(windows[..k]).covered.Some?
    requires windows[k].start > SweepWindows(windows[..k]).covered.value.end
    ensures Interrupted(windows)
  {
    var before := windows[..k];
    SweepUnion(before);
    var c := SweepWindows(before).covered.value;
    forall i | 0 <= i < |windows| ensures !Inside(windows[i], c.end) {
      if i < k {
        assert before[i] == windows[i];
        assert !CoveredBy(before, c.end);
      } else {
        assert i == k || WindowOrder(windows[k], windows[i]);
      }
    }
    assert before[0] == windows[0] && !CoveredBy(windows, c.end);
    assert CoveredBy(windows, windows[0].start) by { assert Inside(windows[0], windows[0].start); }
    assert CoveredBy(windows, windows[k].start) by { assert Inside(windows[k], windows[k].start); }
    assert windows[0].start < c.end < windows[k].start;
  }

  /** The intervals whose union is the window, in no particular order. */
  function Intervals(snapshots: seq<Snapshot>, inventory: Option<Inventory>): seq<Window> {
    match inventory
    case Some(inv) => Map(inv.serving, ServingWindow())
    case None => Map(snapshots, SnapshotWindow())
  }

  lemma ServingProper(inv: Inventory)
    requires ValidInventory(inv)
    ensures Proper(CoverageWindows([], Some(inv)))
  {
    ServingWindows(inv);
  }

  lemma CoverageSorted(snapshots: seq<Snapshot>, inventory: Option<Inventory>)
    requires AllValid(snapshots) && (inventory.Some? ==> ValidInventory(inventory.value))
    ensures Proper(CoverageWindows(snapshots, inventory))
    ensures multiset(CoverageWindows(snapshots, inventory)) == multiset(Intervals(snapshots, inventory))
  {
    match inventory
    case Some(inv) =>
      ServingProper(inv);
      SortPermutes(inv.serving, ServingByStart);
      MapPermutation(StableSort(inv.serving, ServingByStart), inv.serving, ServingWindow());
      assert CoverageWindows(snapshots, inventory) == CoverageWindows([], inventory);
    case None =>
      SnapshotWindowsSorted(snapshots);
      PermutationMembers(SnapshotWindows(snapshots), Map(snapshots, SnapshotWindow()));
      SnapshotsProper(snapshots, SnapshotWindows(snapshots));
  }

  lemma SnapshotsProper(snapshots: seq<Snapshot>, windows: seq<Window>)
    requires AllValid(snapshots) && forall w | w in windows :: w in Map(snapshots, SnapshotWindow())
    ensures forall i | 0 <= i < |windows| :: windows[i].start < windows[i].end
  {
    forall i | 0 <= i < |windows| ensures windows[i].start < windows[i].end {
      assert windows[i] in windows;
      var k :| 0 <= k < |snapshots| && Map(snapshots, SnapshotWindow())[k] == windows[i];
      assert snapshots[k] in snapshots;
    }
  }

  lemma CoveredMember(windows: seq<Window>, x: int)
    ensures CoveredBy(windows, x) <==> exists w | w in windows :: Inside(w, x)
  {
    if w :| w in windows && Inside(w, x) {
      var i :| 0 <= i < |windows| && windows[i] == w;
      assert Inside(windows[i], x);
    }
  }

  lemma SameHull(a: seq<Window>, b: seq<Window>, w: Window)
    requires multiset(a) == multiset(b) && Hull(a, w)
    ensures Hull(b, w)
  {
    PermutationMembers(a, b);
    var i :| 0 <= i < |a| && a[i].start == w.start;
    var j :| 0 <= j < |a| && a[j].end == w.end;
    assert a[i] in b && a[j] in b;
    forall k | 0 <= k < |b| ensures w.start <= b[k].start && b[k].end <= w.end { assert b[k] in a; }
  }

  lemma SameInterruption(a: seq<Window>, b: seq<Window>)
    requires multiset(a) == multiset(b)
    ensures Interrupted(a) <==> Interrupted(b)
  {
    PermutationMembers(a, b);
    forall x ensures CoveredBy(a, x) <==> CoveredBy(b, x) {
      CoveredMember(a, x);
      CoveredMember(b, x);
    }
  }

  /** The reported window reaches from the earliest start to the latest end, and has a gap exactly
      if some instant between them lies in none of the intervals. */
  lemma CoverageMeans(snapshots: seq<Snapshot>, inventory: Option<Inventory>)
    requires AllValid(snapshots) && (inventory.Some? ==> ValidInventory(inventory.value))
    ensures var windows, intervals := CoverageWindows(snapshots, inventory), Intervals(snapshots, inventory);
            var covered := SweepWindows(windows).covered;
            && (covered.None? <==> intervals == [])
            && (covered.Some? ==> Hull(intervals, covered.value))
            && (WindowGap in CoverageFindings(windows) <==> Interrupted(intervals))
            && (WindowBelow24h in CoverageFindings(windows) <==>
                  covered.None? || covered.value.end - covered.value.start < 86_400_000)
            && CoverageFindings(windows) <= {WindowGap, WindowBelow24h}
  {
    var windows, intervals := CoverageWindows(snapshots, inventory), Intervals(snapshots, inventory);
    CoverageSorted(snapshots, inventory);
    PermutationLength(windows, intervals);
    SameInterruption(windows, intervals);
    if windows != [] {
      SweepHull(windows);
      SameHull(windows, intervals, SweepWindows(windows).covered.value);
      GapInterrupts(windows);
    }
  }

  // ----- The report -----

  ghost predicate AnyLabelOther(s: Snapshot) {
    (exists c, d | c in s.counters && d in c.dimensions :: c.dimensions[d] == Other)
    || (exists h, d | h in s.histograms && d in h.dimensions :: h.dimensions[d] == Other)
  }

  lemma OtherMeans(s: Snapshot)
    ensures HasOtherLabel(s) <==> AnyLabelOther(s)
  {
    if i :| 0 <= i < |s.counters| && Other in s.counters[i].dimensions.Values {
      assert s.counters[i] in s.counters;
    }
    if c, d :| c in s.counters && d in c.dimensions && c.dimensions[d] == Other {
      var i :| 0 <= i < |s.counters| && s.counters[i] == c;
      assert Other in s.counters[i].dimensions.Values;
    }
    if i :| 0 <= i < |s.histograms| && Other in s.histograms[i].dimensions.Values {
      assert s.histograms[i] in s.histograms;
    }
    if h, d :| h in s.histograms && d in h.dimensions && h.dimensions[d] == Other {
      var i :| 0 <= i < |s.histograms| && s.histograms[i] == h;
      assert Other in s.histograms[i].dimensions.Values;
    }
  }

  lemma QualityMeans(snapshots: seq<Snapshot>)
    ensures ObservabilityGap in QualityFindings(snapshots) <==> exists s | s in snapshots :: !s.healthy || s.gaps != []
    ensures UnexpectedDimension in QualityFindings(snapshots) <==> exists s | s in snapshots :: AnyLabelOther(s)
    ensures QualityFindings(snapshots) <= {ObservabilityGap, UnexpectedDimension}
  {
    AnyDegradedMeans(snapshots);
    forall s ensures HasOtherLabel(s) <==> AnyLabelOther(s) { OtherMeans(s); }
  }

  // What the evidence must be like for each finding, group by group.

  ghost predicate InputTells(f: Finding, input: seq<Input>, inventory: InventoryInput) {
    match f
    case InvalidSnapshot => exists i | 0 <= i < |input| :: !(input[i].Parsed? && ValidSnapshot(input[i].snapshot))
    case InventoryMissing => inventory.NoInventory?
    case InventoryInvalid =>
      inventory.MalformedInventory? || (inventory.Given? && !ValidInventory(inventory.inventory))
    case StageMismatch =>
      inventory.Given? && ValidInventory(inventory.inventory)
      && exists i | 0 <= i < |input| ::
           input[i].Parsed? && ValidSnapshot(input[i].snapshot) && input[i].snapshot.stageId != inventory.inventory.stageId
    case _ => false
  }

  ghost predicate ChainsTell(f: Finding, snapshots: seq<Snapshot>) {
    match f
    case SequenceInvalid => SomeInstance(snapshots, t => SkipsNumber(t))
    case IntervalOverlap => Overlaps(snapshots)
    case IntervalGap => SomeInstance(snapshots, t => LeavesGap(t))
    case _ => false
  }

  ghost predicate LivesTell(f: Finding, snapshots: seq<Snapshot>, inv: Inventory) {
    match f
    case UnexpectedInstance => exists s | s in snapshots :: forall v | v in inv.serving :: s.instanceId != v.instanceId
    case OutsideLifecycle => exists v | v in inv.serving :: Strays(snapshots, v)
    case CadenceExceeded => exists v | v in inv.serving :: Dawdles(snapshots, v)
    case IntervalMissing => exists v | v in inv.serving :: Unwitnessed(snapshots, v)
    case _ => false
  }

  ghost predicate WindowTells(f: Finding, intervals: seq<Window>) {
    match f
    case WindowGap => Interrupted(intervals)
    case WindowBelow24h => forall w | Hull(intervals, w) :: w.end - w.start < 86_400_000
    case _ => false
  }

  ghost predicate QualityTells(f: Finding, snapshots: seq<Snapshot>) {
    match f
    case ObservabilityGap => exists s | s in snapshots :: !s.healthy || s.gaps != []
    case UnexpectedDimension => exists s | s in snapshots :: AnyLabelOther(s)
    case _ => false
  }

  ghost predicate VolumeTells(f: Finding, snapshots: seq<Snapshot>, t: Totals) {
    match f
    case NumericOverflow =>
      Unrepresentable(snapshots)
      || t.callbackSuccess + t.callbackFailure > MAX_SAFE || Total(t.sessionBuckets) > MAX_SAFE
    case CallbackVolume => t.callbackSuccess + t.callbackFailure < 100
    case SessionVolume => Total(t.sessionBuckets) < 100
    case _ => false
  }

  ghost predicate LevelsTell(f: Finding, t: Totals) {
    match f
    case CriticalIncident => t.criticalIncidents > 0
    case CallbackBelow => CallbacksMissed(t.callbackSuccess, t.callbackFailure)
    case P95Above => LatencyMissed(t.sessionBuckets)
    case _ => false
  }

  ghost predicate Found(
    f: Finding, input: seq<Input>, inventory: InventoryInput, snapshots: seq<Snapshot>, t: Totals)
  {
    || InputTells(f, input, inventory)
    || ChainsTell(f, snapshots)
    || (Accepted(inventory).Some? && LivesTell(f, snapshots, Accepted(inventory).value))
    || WindowTells(f, Intervals(snapshots, Accepted(inventory)))
    || QualityTells(f, snapshots)
    || VolumeTells(f, snapshots, t)
    || LevelsTell(f, t)
  }

  lemma InputFound(input: seq<Input>, inventory: InventoryInput, f: Finding)
    ensures f in AdmissionFindings(input, inventory) <==> InputTells(f, input, inventory)
  {
    if inventory.Given? && ValidInventory(inventory.inventory) {
      OffStageMeans(input, inventory.inventory.stageId);
    }
  }

  lemma OffStageMeans(input: seq<Input>, stageId: string)
    ensures AnyOffStage(ValidSnapshots(input), stageId) <==>
            exists i | 0 <= i < |input| ::
              input[i].Parsed? && ValidSnapshot(input[i].snapshot) && input[i].snapshot.stageId != stageId
  {
    if s :| s in ValidSnapshots(input) && s.stageId != stageId {
      ValidMembers(input, s);
      var i :| 0 <= i < |input| && Admissible(input[i]) && input[i].snapshot == s;
      assert input[i].Parsed?;
    }
    if i :| 0 <= i < |input| && input[i].Parsed? && ValidSnapshot(input[i].snapshot) && input[i].snapshot.stageId != stageId {
      ValidMembers(input, input[i].snapshot);
      assert Admissible(input[i]);
    }
  }

  lemma ChainsFound(snapshots: seq<Snapshot>, f: Finding)
    requires AllValid(snapshots)
    ensures f in ContinuityFindings(snapshots) <==> ChainsTell(f, snapshots)
  {
    ContinuityMeans(snapshots);
  }

  lemma LivesFound(snapshots: seq<Snapshot>, inventory: Option<Inventory>, f: Finding)
    requires AllValid(snapshots)
    ensures f in InventoryFindings(snapshots, inventory) <==>
            inventory.Some? && LivesTell(f, snapshots, inventory.value)
  {
    if inventory.Some? { ServingMeans(snapshots, inventory.value, f); }
  }

  lemma HullUnique(windows: seq<Window>, v: Window, w: Window)
    requires Hull(windows, v) && Hull(windows, w)
    ensures v == w
  {
  }

  lemma WindowFound(snapshots: seq<Snapshot>, inventory: Option<Inventory>, f: Finding)
    requires AllValid(snapshots) && (inventory.Some? ==> ValidInventory(inventory.value))
    ensures f in CoverageFindings(CoverageWindows(snapshots, inventory)) <==>
            WindowTells(f, Intervals(snapshots, inventory))
  {
    CoverageMeans(snapshots, inventory);
    var covered := SweepWindows(CoverageWindows(snapshots, inventory)).covered;
    forall w | Hull(Intervals(snapshots, inventory), w) ensures covered == Some(w) {
      if covered.Some? { HullUnique(Intervals(snapshots, inventory), covered.value, w); }
    }
  }

  lemma QualityFound(snapshots: seq<Snapshot>, f: Finding)
    ensures f in QualityFindings(snapshots) <==> QualityTells(f, snapshots)
  {
    QualityMeans(snapshots);
  }

  lemma VolumeFound(snapshots: seq<Snapshot>, t: Totals, overflow: bool, f: Finding)
    requires overflow <==> Unrepresentable(snapshots)
    ensures f in When(overflow, NumericOverflow) + VolumeFindings(t) <==> VolumeTells(f, snapshots, t)
  {
  }

  lemma LevelsFound(t: Totals, p95Bucket: Option<nat>, f: Finding)
    requires IsP95(t, p95Bucket)
    ensures f in FailureFindings(t, p95Bucket) <==> LevelsTell(f, t)
  {
    FailuresMean(t, p95Bucket);
    FailuresAreFailures(t, p95Bucket);
  }

  /** Everything the report consists of. */
  ghost predicate Consists(
    input: seq<Input>, inventory: InventoryInput, inputFindings: set<Finding>, snapshots: seq<Snapshot>, e: Evaluation)
    requires AllWellShaped(snapshots)
  {
    && Records(AdditionsOf(snapshots), e.totals, Overflowed(AdditionsOf(snapshots)))
    && IsP95(e.totals, e.p95Bucket)
    && e.findings == inputFindings + AdmissionFindings(input, inventory) + ContinuityFindings(snapshots)
                     + InventoryFindings(snapshots, Accepted(inventory))
                     + CoverageFindings(CoverageWindows(snapshots, Accepted(inventory))) + QualityFindings(snapshots)
                     + (When(Overflowed(AdditionsOf(snapshots)), NumericOverflow) + VolumeFindings(e.totals))
                     + FailureFindings(e.totals, e.p95Bucket)
  }

  lemma ReportConsists(input: seq<Input>, inventory: InventoryInput, inputFindings: set<Finding>, e: Evaluation)
    requires IsEvaluation(input, inventory, inputFindings, e)
    ensures AllValid(Judged(input, inventory))
    ensures Consists(input, inventory, inputFindings, Judged(input, inventory), e)
  {
    JudgedShape(input, inventory);
  }

  /** A finding is reported exactly when it is true of the evidence, or was brought along. */
  lemma FindingsExactly(
    input: seq<Input>, inventory: InventoryInput, inputFindings: set<Finding>, e: Evaluation, f: Finding)
    requires IsEvaluation(input, inventory, inputFindings, e)
    ensures f in e.findings <==> f in inputFindings || Found(f, input, inventory, Judged(input, inventory), e.totals)
  {
    ReportConsists(input, inventory, inputFindings, e);
    ConsistsOfFound(input, inventory, inputFindings, Judged(input, inventory), e, f);
  }

  lemma ConsistsOfFound(
    input: seq<Input>, inventory: InventoryInput, inputFindings: set<Finding>, snapshots: seq<Snapshot>, e: Evaluation,
    f: Finding)
    requires AllValid(snapshots) && Consists(input, inventory, inputFindings, snapshots, e)
    ensures f in e.findings <==> f in inputFindings || Found(f, input, inventory, snapshots, e.totals)
  {
    InputFound(input, inventory, f);
    ChainsFound(snapshots, f);
    LivesFound(snapshots, Accepted(inventory), f);
    WindowFound(snapshots, Accepted(inventory), f);
    QualityFound(snapshots, f);
    OverflowExact(snapshots, e.totals);
    VolumeFound(snapshots, e.totals, Overflowed(AdditionsOf(snapshots)), f);
    LevelsFound(e.totals, e.p95Bucket, f);
    InUnion(inputFindings, AdmissionFindings(input, inventory), ContinuityFindings(snapshots),
            InventoryFindings(snapshots, Accepted(inventory)),
            CoverageFindings(CoverageWindows(snapshots, Accepted(inventory))), QualityFindings(snapshots),
            When(Overflowed(AdditionsOf(snapshots)), NumericOverflow) + VolumeFindings(e.totals),
            FailureFindings(e.totals, e.p95Bucket), f);
  }

  lemma InUnion(
    a: set<Finding>, b: set<Finding>, c: set<Finding>, d: set<Finding>, g: set<Finding>, h: set<Finding>,
    i: set<Finding>, j: set<Finding>, f: Finding)
    ensures f in a + b + c + d + g + h + i + j <==>
            f in a || f in b || f in c || f in d || f in g || f in h || f in i || f in j
  {
  }

  /** The judged snapshots are the admitted ones of the inventory's stage, each as often as it was
      given. */
  lemma JudgedExactly(input: seq<Input>, inventory: InventoryInput, s: Snapshot)
    ensures multiset(Judged(input, inventory))[s]
            == if ValidSnapshot(s) && (inventory.Given? && ValidInventory(inventory.inventory) ==>
                                         s.stageId == inventory.inventory.stageId)
               then multiset(input)[Parsed(s)] else 0
  {
    ValidCount(input, s);
    if Accepted(inventory).Some? {
      FilterCounts(ValidSnapshots(input), OfStage(inventory.inventory.stageId), s);
    }
  }

  lemma {:induction false} ValidCount(input: seq<Input>, s: Snapshot)
    ensures multiset(ValidSnapshots(input))[s] == if ValidSnapshot(s) then multiset(input)[Parsed(s)] else 0
  {
    if input != [] {
      ValidCount(input[..|input| - 1], s);
      LastApart(input);
    }
  }

  lemma ReportParts(input: seq<Input>, inventory: InventoryInput, inputFindings: set<Finding>, e: Evaluation)
    requires IsEvaluation(input, inventory, inputFindings, e)
    ensures var covered := SweepWindows(CoverageWindows(Judged(input, inventory), Accepted(inventory))).covered;
            && e.window == covered && e.durationMs == Duration(covered)
    ensures e.stageId == if Accepted(inventory).Some? then Some(Accepted(inventory).value.stageId) else None
    ensures e.callbackSuccessMicro == if Callbacks(e.totals) == 0 then None
                                      else Some(e.totals.callbackSuccess * 1_000_000 / Callbacks(e.totals))
    ensures e.totals.callbackSuccess >= 0 && e.totals.callbackFailure >= 0
  {
  }

  /** The stage is the inventory's, and the totals are the true sums as long as these are safe. */
  lemma TotalsExactly(input: seq<Input>, inventory: InventoryInput, inputFindings: set<Finding>, e: Evaluation)
    requires IsEvaluation(input, inventory, inputFindings, e)
    ensures e.stageId == if inventory.Given? && ValidInventory(inventory.inventory) then Some(inventory.inventory.stageId) else None
    ensures !Unrepresentable(Judged(input, inventory)) ==> TrueTotals(Judged(input, inventory), e.totals)
  {
    ReportConsists(input, inventory, inputFindings, e);
    ReportParts(input, inventory, inputFindings, e);
    OverflowExact(Judged(input, inventory), e.totals);
  }

  /** The window reaches from the earliest start to the latest end, of the expected lifecycles when
      there is an inventory and else of the judged snapshots. */
  lemma WindowExactly(input: seq<Input>, inventory: InventoryInput, inputFindings: set<Finding>, e: Evaluation)
    requires IsEvaluation(input, inventory, inputFindings, e)
    ensures var intervals := Intervals(Judged(input, inventory), Accepted(inventory));
            && (e.window.None? <==> intervals == []) && (e.window.Some? ==> Hull(intervals, e.window.value))
    ensures e.durationMs == match e.window case None => 0 case Some(w) => w.end - w.start
  {
    ReportConsists(input, inventory, inputFindings, e);
    ReportParts(input, inventory, inputFindings, e);
    WindowIs(Judged(input, inventory), Accepted(inventory), e.window, e.durationMs);
  }

  lemma WindowIs(snapshots: seq<Snapshot>, inventory: Option<Inventory>, window: Option<Window>, durationMs: int)
    requires AllValid(snapshots) && (inventory.Some? ==> ValidInventory(inventory.value))
    requires window == SweepWindows(CoverageWindows(snapshots, inventory)).covered && durationMs == Duration(window)
    ensures var intervals := Intervals(snapshots, inventory);
            && (window.None? <==> intervals == []) && (window.Some? ==> Hull(intervals, window.value))
    ensures durationMs == match window case None => 0 case Some(w) => w.end - w.start
  {
    CoverageMeans(snapshots, inventory);
  }

  lemma Divided(x: int, n: int, q: int)
    requires n > 0 && q == x / n
    ensures q * n <= x < q * n + n
  {
  }

  /** The callback success ratio is in millionths, rounded down, and there is none without callbacks. */
  lemma RatioExactly(input: seq<Input>, inventory: InventoryInput, inputFindings: set<Finding>, e: Evaluation)
    requires IsEvaluation(input, inventory, inputFindings, e)
    ensures var n := e.totals.callbackSuccess + e.totals.callbackFailure;
            && n >= 0 && (e.callbackSuccessMicro.None? <==> n == 0)
            && (n > 0 ==> e.callbackSuccessMicro.value * n <= e.totals.callbackSuccess * 1_000_000
                                                           < e.callbackSuccessMicro.value * n + n)
  {
    ReportParts(input, inventory, inputFindings, e);
    if Callbacks(e.totals) > 0 {
      Divided(e.totals.callbackSuccess * 1_000_000, Callbacks(e.totals), e.callbackSuccessMicro.value);
    }
  }
}
