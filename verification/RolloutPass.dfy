/** Exactly when the rollout judge answers `pass`, in terms of the evidence rather than of the
    checks: the judge's scans are shown equivalent to tilings and a contiguous window. */
module RolloutPass {
  import opened Optional
  import opened Sequences
  import opened Sorting
  import opened LatencyHistogram
  import opened RolloutContract
  import opened RolloutEvaluator
  import opened RolloutVerdict

  // ----- One instance: snapshots tile the expected lifecycle -----

  /** `t` covers the lifecycle end to end: no gap, no overlap, consecutive sequences, and no
      interval longer than the promised cadence. */
  ghost predicate SpansTile(t: seq<Span>, v: Serving) {
    && t != []
    && t[0].start == v.expectedStart && t[|t| - 1].end == v.expectedEnd
    && (forall i | 0 < i < |t| :: t[i].start == t[i - 1].end && t[i].sequence == t[i - 1].sequence + 1)
    && (forall i | 0 <= i < |t| :: t[i].end - t[i].start <= v.cadenceMs)
  }

  /** Some ordering of the instance's snapshots tiles its lifecycle. */
  ghost predicate Tiled(snapshots: seq<Snapshot>, v: Serving) {
    exists t: seq<Snapshot> ::
      multiset(t) == multiset(Filter(snapshots, OfInstance(v.instanceId))) && SpansTile(Map(t, ToSpan()), v)
  }

  ghost predicate Positive(spans: seq<Span>) {
    forall i | 0 <= i < |spans| :: spans[i].start < spans[i].end
  }

  ghost predicate Chained(spans: seq<Span>) {
    forall i | 0 < i < |spans| ::
      spans[i].start == spans[i - 1].end && spans[i].sequence == spans[i - 1].sequence + 1
  }

  lemma {:induction false} ChainFindingsExact(spans: seq<Span>)
    ensures ChainFindings(spans) == {} <==> Chained(spans)
  {
    if |spans| >= 2 {
      var init := spans[..|spans| - 1];
      ChainFindingsExact(init);
      assert PairFindings(spans[|spans| - 2], spans[|spans| - 1]) == {} <==>
             spans[|spans| - 1].start == spans[|spans| - 2].end
             && spans[|spans| - 1].sequence == spans[|spans| - 2].sequence + 1;
      if Chained(init) && PairFindings(spans[|spans| - 2], spans[|spans| - 1]) == {} {
        forall i | 0 < i < |spans|
          ensures spans[i].start == spans[i - 1].end && spans[i].sequence == spans[i - 1].sequence + 1
        {
          if i < |init| { assert init[i] == spans[i] && init[i - 1] == spans[i - 1]; }
        }
      }
      if Chained(spans) {
        forall i | 0 < i < |init|
          ensures init[i].start == init[i - 1].end && init[i].sequence == init[i - 1].sequence + 1
        {
          assert init[i] == spans[i] && init[i - 1] == spans[i - 1];
        }
      }
    }
  }

  /** Progress of the lifecycle scan over a chained prefix. */
  ghost predicate ScanFits(v: Serving, spans: seq<Span>) {
    && (forall i | 0 <= i < |spans| ::
          !Outside(v, spans[i]) && spans[i].end - spans[i].start <= v.cadenceMs)
    && (spans != [] ==> spans[0].start == v.expectedStart)
  }

  lemma {:induction false} ScanExact(v: Serving, spans: seq<Span>)
    requires Positive(spans) && Chained(spans)
    ensures ScanLifecycle(v, spans).findings == {} <==> ScanFits(v, spans)
    ensures ScanFits(v, spans) ==>
            ScanLifecycle(v, spans).cursor == if spans == [] then v.expectedStart else spans[|spans| - 1].end
  {
    if spans != [] {
      var init, last := spans[..|spans| - 1], spans[|spans| - 1];
      assert forall i | 0 <= i < |init| :: init[i] == spans[i];
      ScanExact(v, init);
      var before := ScanLifecycle(v, init);
      if ScanFits(v, spans) {
        assert ScanFits(v, init);
        assert init != [] ==> last.start == init[|init| - 1].end;
      }
      if ScanFits(v, init) && !Outside(v, last) {
        assert before.cursor == if init == [] then v.expectedStart else init[|init| - 1].end;
      }
    }
  }

  /** For spans of positive length, the judge finds nothing wrong with an instance exactly
      when its spans, in the order walked, tile the lifecycle. */
  lemma InstanceClean(v: Serving, spans: seq<Span>)
    requires Positive(spans) && v.expectedStart < v.expectedEnd
    ensures ChainFindings(spans) == {} && LifecycleFindings(v, spans) == {} <==> SpansTile(spans, v)
  {
    ChainFindingsExact(spans);
    if Chained(spans) {
      ScanExact(v, spans);
      if SpansTile(spans, v) {
        TileBounds(spans, v);
      }
    }
  }

  /** Inside a tile every interval stays within the lifecycle. */
  lemma TileBounds(t: seq<Span>, v: Serving)
    requires SpansTile(t, v) && Positive(t)
    ensures forall i | 0 <= i < |t| :: v.expectedStart <= t[i].start && t[i].end <= v.expectedEnd
  {
    forall i | 0 <= i < |t| ensures v.expectedStart <= t[i].start && t[i].end <= v.expectedEnd {
      ChainGrows(t, 0, i);
      ChainGrows(t, i, |t| - 1);
    }
  }

  lemma {:induction false} ChainGrows(t: seq<Span>, i: nat, j: nat)
    requires Chained(t) && Positive(t) && i <= j < |t|
    ensures t[i].start <= t[j].start && t[i].end <= t[j].end
    ensures i < j ==> t[i].end <= t[j].start
    decreases j
  {
    if i < j { ChainGrows(t, i, j - 1); }
  }

  /** Every instant of a tiled lifecycle is inside one of the tiles. */
  lemma {:induction false} TileCovers(t: seq<Span>, v: Serving, x: int) returns (i: nat)
    requires SpansTile(t, v) && v.expectedStart <= x < v.expectedEnd
    ensures i < |t| && t[i].start <= x < t[i].end
  {
    i := 0;
    while t[i].end <= x
      invariant i < |t| && t[i].start <= x
      decreases |t| - i
    {
      i := i + 1;
    }
  }

  lemma PositiveSpans(snapshots: seq<Snapshot>, id: string)
    requires AllValid(snapshots)
    ensures Positive(InstanceSpans(snapshots, id))
  {
    InstanceListSorted(snapshots, id);
    var list := InstanceList(snapshots, id);
    PermutationMembers(list, Filter(snapshots, OfInstance(id)));
    forall i | 0 <= i < |list| ensures list[i].start < list[i].end {
      assert list[i] in list;
      FilterMembers(snapshots, OfInstance(id), list[i]);
    }
  }

  /** Tiling by some ordering is the same as tiling by the order the judge walks. */
  lemma TiledExact(snapshots: seq<Snapshot>, v: Serving)
    requires AllValid(snapshots)
    ensures Tiled(snapshots, v) <==> SpansTile(InstanceSpans(snapshots, v.instanceId), v)
  {
    var id := v.instanceId;
    InstanceListSorted(snapshots, id);
    if Tiled(snapshots, v) {
      var t :| multiset(t) == multiset(Filter(snapshots, OfInstance(id))) && SpansTile(Map(t, ToSpan()), v);
      var spans := Map(t, ToSpan());
      PermutationMembers(t, Filter(snapshots, OfInstance(id)));
      forall i | 0 <= i < |t| ensures spans[i].start < spans[i].end {
        assert t[i] in t;
        FilterMembers(snapshots, OfInstance(id), t[i]);
      }
      forall i, j | 0 <= i < j < |spans| ensures SpanOrder(spans[i], spans[j]) {
        ChainGrows(spans, i, j);
      }
      InstanceSpansUnique(snapshots, id, t);
    }
  }

  // ----- All instances -----

  lemma {:induction false} LifecyclesEmpty(snapshots: seq<Snapshot>, serving: seq<Serving>)
    ensures LifecyclesFindings(snapshots, serving) == {} <==>
            forall v | v in serving :: LifecycleFindings(v, InstanceSpans(snapshots, v.instanceId)) == {}
  {
    if serving != [] {
      var init, last := serving[..|serving| - 1], serving[|serving| - 1];
      LifecyclesEmpty(snapshots, init);
      assert forall v :: v in serving <==> v in init || v == last;
    }
  }

  lemma ContinuityEmpty(snapshots: seq<Snapshot>)
    ensures ContinuityFindings(snapshots) == {} <==>
            forall id | id in InstanceIds(snapshots) :: ChainFindings(InstanceSpans(snapshots, id)) == {}
  {
    forall id | id in InstanceIds(snapshots) && ChainFindings(InstanceSpans(snapshots, id)) != {}
      ensures ContinuityFindings(snapshots) != {}
    {
      var f :| f in ChainFindings(InstanceSpans(snapshots, id));
      assert f in ContinuityFindings(snapshots);
    }
  }

  ghost predicate Expected(snapshots: seq<Snapshot>, inv: Inventory) {
    && (forall s | s in snapshots :: s.instanceId in ServingIds(inv))
    && (forall v | v in inv.serving :: Tiled(snapshots, v))
  }

  lemma AbsentSpans(snapshots: seq<Snapshot>, id: string)
    requires id !in InstanceIds(snapshots)
    ensures ChainFindings(InstanceSpans(snapshots, id)) == {}
  {
    AbsentInstance(snapshots, id);
  }

  lemma IntervalsClean(snapshots: seq<Snapshot>, inv: Inventory)
    requires AllValid(snapshots) && ValidInventory(inv)
    ensures ContinuityFindings(snapshots) == {} && ServingFindings(snapshots, inv) == {} <==>
            Expected(snapshots, inv)
  {
    LifecyclesEmpty(snapshots, inv.serving);
    ContinuityEmpty(snapshots);
    forall v | v in inv.serving
      ensures (ChainFindings(InstanceSpans(snapshots, v.instanceId)) == {}
               && LifecycleFindings(v, InstanceSpans(snapshots, v.instanceId)) == {}) <==> Tiled(snapshots, v)
      ensures v.instanceId !in InstanceIds(snapshots) ==> ChainFindings(InstanceSpans(snapshots, v.instanceId)) == {}
    {
      PositiveSpans(snapshots, v.instanceId);
      TiledExact(snapshots, v);
      InstanceClean(v, InstanceSpans(snapshots, v.instanceId));
      if v.instanceId !in InstanceIds(snapshots) { AbsentSpans(snapshots, v.instanceId); }
    }
  }

  // ----- Coverage -----

  ghost predicate Inside(w: Window, x: int) {
    w.start <= x < w.end
  }

  ghost predicate CoveredBy(windows: seq<Window>, x: int) {
    exists i | 0 <= i < |windows| :: Inside(windows[i], x)
  }

  /** The windows together are exactly one window. */
  ghost predicate Contiguous(windows: seq<Window>, w: Window) {
    w.start < w.end && forall x :: CoveredBy(windows, x) <==> Inside(w, x)
  }

  ghost predicate Proper(windows: seq<Window>) {
    SortedBy(windows, WindowOrder) && forall i | 0 <= i < |windows| :: windows[i].start < windows[i].end
  }

  /** Without a gap so far, the swept window is the union so far. */
  lemma {:induction false} SweepUnion(windows: seq<Window>)
    requires Proper(windows) && windows != []
    ensures SweepWindows(windows).covered.Some?
    ensures SweepWindows(windows).covered.value.start == windows[0].start
    ensures !SweepWindows(windows).gap ==> Contiguous(windows, SweepWindows(windows).covered.value)
  {
    var init, last := windows[..|windows| - 1], windows[|windows| - 1];
    if init == [] {
      assert SweepWindows(init) == Sweep(None, false);
      assert forall x :: CoveredBy(windows, x) <==> Inside(windows[0], x);
    } else {
      SweepUnion(init);
      var c := SweepWindows(init).covered.value;
      assert WindowOrder(windows[0], last);
      forall x ensures CoveredBy(windows, x) <==> CoveredBy(init, x) || Inside(last, x) {
        if CoveredBy(init, x) {
          var i :| 0 <= i < |init| && Inside(init[i], x);
          assert Inside(windows[i], x);
        }
      }
    }
  }

  /** A gap leaves the union in two pieces, so no single window equals it. */
  lemma {:induction false} GapSplits(windows: seq<Window>, w: Window)
    requires Proper(windows) && SweepWindows(windows).gap
    ensures !Contiguous(windows, w)
  {
    var k := FirstGap(windows);
    var before := windows[..k];
    SweepUnion(before);
    var c := SweepWindows(before).covered.value;
    var x := c.end;
    forall i | 0 <= i < |windows| ensures !Inside(windows[i], x) {
      if i < k {
        assert before[i] == windows[i];
        assert !CoveredBy(before, x);
      } else {
        assert i == k || WindowOrder(windows[k], windows[i]);
      }
    }
    assert CoveredBy(windows, windows[k].start) by { assert Inside(windows[k], windows[k].start); }
    assert CoveredBy(windows, windows[0].start) by { assert Inside(windows[0], windows[0].start); }
    assert Inside(w, windows[0].start) && Inside(w, windows[k].start) ==> Inside(w, x);
  }

  lemma {:induction false} FirstGap(windows: seq<Window>) returns (k: nat)
    requires SweepWindows(windows).gap
    ensures 0 < k < |windows| && !SweepWindows(windows[..k]).gap
    ensures SweepWindows(windows[..k]).covered.Some?
    ensures windows[k].start > SweepWindows(windows[..k]).covered.value.end
  {
    var init := windows[..|windows| - 1];
    if SweepWindows(init).gap {
      k := FirstGap(init);
      assert init[..k] == windows[..k];
    } else {
      k := |init|;
    }
  }

  lemma ContiguousUnique(windows: seq<Window>, v: Window, w: Window)
    requires Contiguous(windows, v) && Contiguous(windows, w)
    ensures v == w
  {
    assert Inside(v, v.start) && Inside(v, v.end - 1);
    assert Inside(w, w.start) && Inside(w, w.end - 1);
    assert Inside(w, v.start) && Inside(w, v.end - 1);
    assert Inside(v, w.start) && Inside(v, w.end - 1);
  }

  lemma CoverageExact(windows: seq<Window>)
    requires Proper(windows) && windows != []
    ensures CoverageFindings(windows) == {} <==>
            exists w :: Contiguous(windows, w) && w.end - w.start >= MINIMUM_WINDOW_MS
    ensures CoverageFindings(windows) == {} ==>
            Contiguous(windows, SweepWindows(windows).covered.value)
            && Duration(SweepWindows(windows).covered) >= MINIMUM_WINDOW_MS
  {
    SweepUnion(windows);
    var sweep := SweepWindows(windows);
    forall w | Contiguous(windows, w) ensures !sweep.gap && w == sweep.covered.value {
      if sweep.gap { GapSplits(windows, w); }
      ContiguousUnique(windows, w, sweep.covered.value);
    }
  }

  /** At least 24 hours, every instant of it inside some expected lifecycle and no lifecycle
      outside it. */
  ghost predicate OneWindow(inv: Inventory, w: Window) {
    && w.end - w.start >= MINIMUM_WINDOW_MS
    && forall x :: Inside(w, x) <==> exists v :: v in inv.serving && v.expectedStart <= x < v.expectedEnd
  }

  /** Some expected lifecycle goes on at that instant. */
  ghost predicate ServedAt(lives: seq<Serving>, x: int) {
    exists v :: v in lives && v.expectedStart <= x < v.expectedEnd
  }

  lemma ServingWindows(inv: Inventory)
    requires ValidInventory(inv)
    ensures Proper(CoverageWindows([], Some(inv))) && CoverageWindows([], Some(inv)) != []
    ensures forall x :: CoveredBy(CoverageWindows([], Some(inv)), x) <==>
                        exists v :: v in inv.serving && v.expectedStart <= x < v.expectedEnd
  {
    var sorted := StableSort(inv.serving, ServingByStart);
    SortSorts(inv.serving, ServingByStart);
    SortPermutes(inv.serving, ServingByStart);
    PermutationLength(sorted, inv.serving);
    PermutationMembers(sorted, inv.serving);
    var windows := CoverageWindows([], Some(inv));
    forall i | 0 <= i < |windows| ensures windows[i].start < windows[i].end {
      assert sorted[i] in inv.serving;
    }
    forall x ensures CoveredBy(windows, x) <==> ServedAt(inv.serving, x) {
      WindowsOfLives(sorted, windows, x);
      SameLives(sorted, inv.serving, x);
    }
  }

  lemma WindowsOfLives(lives: seq<Serving>, windows: seq<Window>, x: int)
    requires windows == Map(lives, ServingWindow())
    ensures CoveredBy(windows, x) <==> ServedAt(lives, x)
  {
    if CoveredBy(windows, x) {
      var i :| 0 <= i < |windows| && Inside(windows[i], x);
      assert lives[i] in lives;
    }
    if v :| v in lives && v.expectedStart <= x < v.expectedEnd {
      var i :| 0 <= i < |lives| && lives[i] == v;
      assert Inside(windows[i], x);
    }
  }

  lemma SameLives(a: seq<Serving>, b: seq<Serving>, x: int)
    requires (forall v | v in a :: v in b) && (forall v | v in b :: v in a)
    ensures ServedAt(a, x) <==> ServedAt(b, x)
  {
  }

  // ----- The verdict -----

  /** A sum of each session bucket over all snapshots. */
  ghost predicate SessionSums(snapshots: seq<Snapshot>, b: Buckets) {
    forall i | 0 <= i < BUCKETS :: b[i] == SumOver(snapshots, BucketSum(i))
  }

  /** The service levels: at least 100 callbacks of which 99.5% succeeded, at least 100 session
      lookups of which 95% took at most 20 ms, no critical incident, and every sum exact. */
  ghost predicate LevelsMet(snapshots: seq<Snapshot>) {
    var success := SumOver(snapshots, CallbackSum(Success));
    var callbacks := success + SumOver(snapshots, CallbackSum(Failure));
    && MINIMUM_CALLBACKS <= callbacks <= MAX_SAFE
    && success * 1_000 >= callbacks * 995
    && SumOver(snapshots, ToCritical()) == 0
    && exists b: Buckets :: SessionSums(snapshots, b)
         && MINIMUM_SAMPLES <= Total(b) <= MAX_SAFE
         && 95 * Total(b) <= 100 * Total(b[..SLO_BOUND + 1])
  }

  /** What a `pass` is evidence of. */
  ghost predicate Evidence(input: seq<Input>, inventory: InventoryInput, inputFindings: set<Finding>) {
    var snapshots := ValidSnapshots(input);
    && inputFindings <= FAILURES
    && (forall i | 0 <= i < |input| :: Admissible(input[i]))
    && inventory.Given? && ValidInventory(inventory.inventory)
    && (forall s | s in snapshots ::
          s.stageId == inventory.inventory.stageId && !Degraded(s) && !HasOtherLabel(s))
    && Expected(snapshots, inventory.inventory)
    && (exists w :: OneWindow(inventory.inventory, w))
    && LevelsMet(snapshots)
  }

  lemma ServingCoverage(snapshots: seq<Snapshot>, inv: Inventory)
    requires ValidInventory(inv)
    ensures CoverageFindings(CoverageWindows(snapshots, Some(inv))) == {} <==> exists w :: OneWindow(inv, w)
    ensures CoverageFindings(CoverageWindows(snapshots, Some(inv))) == {} ==>
            SweepWindows(CoverageWindows(snapshots, Some(inv))).covered.Some?
            && OneWindow(inv, SweepWindows(CoverageWindows(snapshots, Some(inv))).covered.value)
  {
    var windows := CoverageWindows(snapshots, Some(inv));
    assert windows == CoverageWindows([], Some(inv));
    ServingWindows(inv);
    CoverageExact(windows);
    SweepUnion(windows);
    forall w ensures OneWindow(inv, w) <==> Contiguous(windows, w) && w.end - w.start >= MINIMUM_WINDOW_MS {
    }
  }

  /** The reported p95 is within the objective exactly when 95% of the samples are. */
  lemma P95Exact(t: Totals, p95Bucket: Option<nat>)
    requires IsP95(t, p95Bucket) && Samples(t) > 0
    ensures p95Bucket.value <= SLO_BOUND <==> 95 * Samples(t) <= 100 * Total(t.sessionBuckets[..SLO_BOUND + 1])
  {
    var b := t.sessionBuckets;
    if p95Bucket.value <= SLO_BOUND {
      TotalMonotone(b, p95Bucket.value + 1, SLO_BOUND + 1);
    } else {
      TotalMonotone(b, SLO_BOUND + 1, p95Bucket.value);
    }
  }

  lemma BucketsWithinTotal(b: Buckets)
    ensures forall i | 0 <= i < BUCKETS :: b[i] <= Total(b)
  {
    forall i | 0 <= i < BUCKETS ensures b[i] <= Total(b) {
      TotalMonotone(b, i + 1, BUCKETS);
      assert b[..i + 1][..i] == b[..i] && b[..BUCKETS] == b;
    }
  }

  lemma SumsNonNegative(snapshots: seq<Snapshot>)
    requires AllValid(snapshots)
    ensures SumOver(snapshots, CallbackSum(Success)) >= 0 && SumOver(snapshots, CallbackSum(Failure)) >= 0
    ensures SumOver(snapshots, ToCritical()) >= 0
  {
    AllCallbackValuesSafe(snapshots, Success);
    AllCallbackValuesSafe(snapshots, Failure);
    AllCallbackSum(snapshots, Success);
    AllCallbackSum(snapshots, Failure);
    SumPrefix(AllCallbackValues(snapshots, Success), 0, Itself());
    SumPrefix(AllCallbackValues(snapshots, Failure), 0, Itself());
    SumPrefix(snapshots, 0, ToCritical());
  }

  ghost predicate TotalsPass(snapshots: seq<Snapshot>, e: Evaluation)
    requires AllWellShaped(snapshots)
  {
    && !Overflowed(AdditionsOf(snapshots))
    && VolumeFindings(e.totals) == {}
    && FailureFindings(e.totals, e.p95Bucket) == {}
  }

  lemma TotalsExact(snapshots: seq<Snapshot>, e: Evaluation)
    requires AllValid(snapshots)
    requires Records(AdditionsOf(snapshots), e.totals, Overflowed(AdditionsOf(snapshots)))
    requires IsP95(e.totals, e.p95Bucket)
    ensures TotalsPass(snapshots, e) <==> LevelsMet(snapshots)
  {
    if TotalsPass(snapshots, e) { PassMeetsLevels(snapshots, e); }
    if LevelsMet(snapshots) { LevelsPass(snapshots, e); }
  }

  lemma PassMeetsLevels(snapshots: seq<Snapshot>, e: Evaluation)
    requires AllValid(snapshots)
    requires Records(AdditionsOf(snapshots), e.totals, Overflowed(AdditionsOf(snapshots)))
    requires IsP95(e.totals, e.p95Bucket) && TotalsPass(snapshots, e)
    ensures LevelsMet(snapshots)
  {
    var t := e.totals;
    OverflowExact(snapshots, t);
    SumsNonNegative(snapshots);
    assert When(Callbacks(t) > MAX_SAFE || Samples(t) > MAX_SAFE, NumericOverflow) == {};
    assert When(Callbacks(t) < MINIMUM_CALLBACKS, CallbackVolume) == {};
    assert When(Samples(t) < MINIMUM_SAMPLES, SessionVolume) == {};
    P95Exact(t, e.p95Bucket);
    assert SessionSums(snapshots, t.sessionBuckets);
  }

  lemma LevelsPass(snapshots: seq<Snapshot>, e: Evaluation)
    requires AllValid(snapshots)
    requires Records(AdditionsOf(snapshots), e.totals, Overflowed(AdditionsOf(snapshots)))
    requires IsP95(e.totals, e.p95Bucket) && LevelsMet(snapshots)
    ensures TotalsPass(snapshots, e)
  {
    var t := e.totals;
    OverflowExact(snapshots, t);
    SumsNonNegative(snapshots);
    LevelsRepresentable(snapshots);
    var b: Buckets :| SessionSums(snapshots, b)
      && MINIMUM_SAMPLES <= Total(b) <= MAX_SAFE && 95 * Total(b) <= 100 * Total(b[..SLO_BOUND + 1]);
    assert b == t.sessionBuckets;
    P95Exact(t, e.p95Bucket);
  }

  lemma LevelsRepresentable(snapshots: seq<Snapshot>)
    requires AllValid(snapshots) && LevelsMet(snapshots)
    ensures !Unrepresentable(snapshots)
  {
    SumsNonNegative(snapshots);
    var b: Buckets :| SessionSums(snapshots, b) && Total(b) <= MAX_SAFE;
    BucketsWithinTotal(b);
    assert forall i | 0 <= i < BUCKETS :: SumOver(snapshots, BucketSum(i)) == b[i];
  }

  lemma {:induction false} AllAdmitted(input: seq<Input>, stageId: string)
    requires forall s | s in ValidSnapshots(input) :: s.stageId == stageId
    ensures Filter(ValidSnapshots(input), OfStage(stageId)) == ValidSnapshots(input)
  {
    FilterAll(ValidSnapshots(input), OfStage(stageId));
  }

  lemma VerdictPass(failures: set<Finding>, findings: set<Finding>)
    requires failures <= FAILURES
    ensures VerdictOf(failures, findings) == Pass <==> failures == {} && findings <= FAILURES
  {
  }

  lemma FailuresAreFailures(t: Totals, p: Option<nat>)
    ensures FailureFindings(t, p) <= FAILURES
  {
  }

  /** None of these checks ever reports one of the three failure findings. */
  lemma {:induction false} ScanAvoidsFailures(v: Serving, spans: seq<Span>)
    ensures ScanLifecycle(v, spans).findings !! FAILURES
  {
    if spans != [] { ScanAvoidsFailures(v, spans[..|spans| - 1]); }
  }

  lemma {:induction false} LifecyclesAvoidFailures(snapshots: seq<Snapshot>, serving: seq<Serving>)
    ensures LifecyclesFindings(snapshots, serving) !! FAILURES
  {
    if serving != [] {
      var v := serving[|serving| - 1];
      LifecyclesAvoidFailures(snapshots, serving[..|serving| - 1]);
      ScanAvoidsFailures(v, InstanceSpans(snapshots, v.instanceId));
    }
  }

  lemma {:induction false} ChainAvoidsFailures(spans: seq<Span>)
    ensures ChainFindings(spans) !! FAILURES
  {
    if |spans| >= 2 { ChainAvoidsFailures(spans[..|spans| - 1]); }
  }

  lemma ContinuityAvoidsFailures(snapshots: seq<Snapshot>)
    ensures ContinuityFindings(snapshots) !! FAILURES
  {
    forall f | f in ContinuityFindings(snapshots) ensures f !in FAILURES {
      var id :| id in InstanceIds(snapshots) && f in ChainFindings(InstanceSpans(snapshots, id));
      ChainAvoidsFailures(InstanceSpans(snapshots, id));
    }
  }

  /** Everything that must be absent from a passing report. */
  ghost predicate NothingElse(
    snapshots: seq<Snapshot>, inventory: Option<Inventory>, before: set<Finding>, e: Evaluation)
    requires AllWellShaped(snapshots)
  {
    && before <= FAILURES
    && ContinuityFindings(snapshots) == {}
    && InventoryFindings(snapshots, inventory) == {}
    && CoverageFindings(CoverageWindows(snapshots, inventory)) == {}
    && QualityFindings(snapshots) == {}
    && TotalsPass(snapshots, e)
  }

  lemma OnlyFailures(
    before: set<Finding>, a: set<Finding>, b: set<Finding>, c: set<Finding>, d: set<Finding>,
    o: set<Finding>, v: set<Finding>, failures: set<Finding>)
    requires a !! FAILURES && b !! FAILURES && c !! FAILURES && d !! FAILURES && o !! FAILURES && v !! FAILURES
    ensures before + a + b + c + d + o + v + failures <= FAILURES <==>
            before <= FAILURES && a == {} && b == {} && c == {} && d == {} && o == {} && v == {}
            && failures <= FAILURES
  {
    var all := before + a + b + c + d + o + v + failures;
    if all <= FAILURES {
      assert a <= all && b <= all && c <= all && d <= all && o <= all && v <= all;
    }
  }

  lemma PassIsNothingElse(
    snapshots: seq<Snapshot>, inventory: Option<Inventory>, before: set<Finding>, e: Evaluation)
    requires AllWellShaped(snapshots) && Reports(snapshots, inventory, before, e)
    ensures e.verdict == Pass <==> NothingElse(snapshots, inventory, before, e)
  {
    var failures := FailureFindings(e.totals, e.p95Bucket);
    var coverage := CoverageFindings(CoverageWindows(snapshots, inventory));
    var overflow := When(Overflowed(AdditionsOf(snapshots)), NumericOverflow);
    FailuresAreFailures(e.totals, e.p95Bucket);
    VerdictPass(failures, e.findings);
    ContinuityAvoidsFailures(snapshots);
    InventoryAvoidsFailures(snapshots, inventory);
    OthersAvoidFailures(snapshots, CoverageWindows(snapshots, inventory), e.totals);
    OnlyFailures(before, ContinuityFindings(snapshots), InventoryFindings(snapshots, inventory), coverage,
                 QualityFindings(snapshots), overflow, VolumeFindings(e.totals), failures);
    assert overflow == {} <==> !Overflowed(AdditionsOf(snapshots));
  }

  lemma InventoryAvoidsFailures(snapshots: seq<Snapshot>, inventory: Option<Inventory>)
    ensures InventoryFindings(snapshots, inventory) !! FAILURES
  {
    if inventory.Some? { LifecyclesAvoidFailures(snapshots, inventory.value.serving); }
  }

  lemma OthersAvoidFailures(snapshots: seq<Snapshot>, windows: seq<Window>, t: Totals)
    ensures CoverageFindings(windows) !! FAILURES
    ensures QualityFindings(snapshots) !! FAILURES
    ensures VolumeFindings(t) !! FAILURES
  {
  }

  /** The judge answers `pass` exactly on complete evidence. */
  lemma PassIffEvidence(
    input: seq<Input>, inventory: InventoryInput, inputFindings: set<Finding>, e: Evaluation)
    requires IsEvaluation(input, inventory, inputFindings, e)
    ensures e.verdict == Pass <==> Evidence(input, inventory, inputFindings)
  {
    var snapshots := Judged(input, inventory);
    JudgedShape(input, inventory);
    PassIsNothingElse(snapshots, Accepted(inventory), inputFindings + AdmissionFindings(input, inventory), e);
    AdmissionExact(input, inventory, inputFindings);
    if Accepted(inventory).Some? {
      var inv := Accepted(inventory).value;
      if !AnyOffStage(ValidSnapshots(input), inv.stageId) {
        AllAdmitted(input, inv.stageId);
        AnyDegradedMeans(snapshots);
        IntervalsClean(snapshots, inv);
        ServingCoverage(snapshots, inv);
        TotalsExact(snapshots, e);
      }
    }
  }

  lemma AdmissionExact(input: seq<Input>, inventory: InventoryInput, inputFindings: set<Finding>)
    ensures inputFindings + AdmissionFindings(input, inventory) <= FAILURES <==>
            inputFindings <= FAILURES && !AnyInadmissible(input) && Accepted(inventory).Some?
            && !AnyOffStage(ValidSnapshots(input), Accepted(inventory).value.stageId)
  {
    assert AdmissionFindings(input, inventory) !! FAILURES;
    assert AdmissionFindings(input, inventory) == {} <==>
           !AnyInadmissible(input) && Accepted(inventory).Some?
           && !AnyOffStage(ValidSnapshots(input), Accepted(inventory).value.stageId);
  }

  /** A pass covers time itself: the reported window spans at least 24 hours and each of its
      instants lies inside an admitted snapshot of an instance expected to be serving then. */
  lemma PassCoversEveryInstant(
    input: seq<Input>, inventory: InventoryInput, inputFindings: set<Finding>, e: Evaluation, x: int)
    requires IsEvaluation(input, inventory, inputFindings, e) && e.verdict == Pass
    ensures e.window.Some? && e.durationMs == e.window.value.end - e.window.value.start >= MINIMUM_WINDOW_MS
    ensures e.window.value.start <= x < e.window.value.end ==>
              exists s, v :: s in ValidSnapshots(input) && v in inventory.inventory.serving
                && s.instanceId == v.instanceId && s.start <= x < s.end
  {
    PassIffEvidence(input, inventory, inputFindings, e);
    var inv := inventory.inventory;
    var snapshots := ValidSnapshots(input);
    AllAdmitted(input, inv.stageId);
    JudgedShape(input, inventory);
    PassIsNothingElse(snapshots, Some(inv), inputFindings + AdmissionFindings(input, inventory), e);
    ServingCoverage(snapshots, inv);
    if e.window.value.start <= x < e.window.value.end {
      InstantCovered(snapshots, inv, e.window.value, x);
    }
  }

  lemma InstantCovered(snapshots: seq<Snapshot>, inv: Inventory, w: Window, x: int)
    requires Expected(snapshots, inv) && OneWindow(inv, w) && Inside(w, x)
    ensures exists s, v :: s in snapshots && v in inv.serving
                           && s.instanceId == v.instanceId && s.start <= x < s.end
  {
    var v :| v in inv.serving && v.expectedStart <= x < v.expectedEnd;
    assert Tiled(snapshots, v);
    var t: seq<Snapshot> :| multiset(t) == multiset(Filter(snapshots, OfInstance(v.instanceId)))
                            && SpansTile(Map(t, ToSpan()), v);
    var i := TileCovers(Map(t, ToSpan()), v, x);
    PermutationMembers(t, Filter(snapshots, OfInstance(v.instanceId)));
    FilterMembers(snapshots, OfInstance(v.instanceId), t[i]);
    assert t[i] in t;
  }

  /** A snapshot missing from between two that were delivered is always noticed. */
  lemma MissingSequenceIsReported(
    input: seq<Input>, inventory: InventoryInput, inputFindings: set<Finding>, e: Evaluation,
    first: Snapshot, missing: int, last: Snapshot)
    requires IsEvaluation(input, inventory, inputFindings, e)
    requires first in Judged(input, inventory) && last in Judged(input, inventory)
    requires first.instanceId == last.instanceId && first.sequence < missing < last.sequence
    requires forall s | s in Judged(input, inventory) && s.instanceId == first.instanceId :: s.sequence != missing
    ensures SequenceInvalid in ContinuityFindings(Judged(input, inventory))
    ensures SequenceInvalid in e.findings
  {
    var snapshots := Judged(input, inventory);
    var id := first.instanceId;
    var i := SpanOf(snapshots, first);
    var j := SpanOf(snapshots, last);
    SequenceGap(InstanceSpans(snapshots, id), i, j, missing);
    if k :| 0 <= k < |InstanceSpans(snapshots, id)| && InstanceSpans(snapshots, id)[k].sequence == missing {
      var s := SpanSource(snapshots, id, k);
    }
    assert id in InstanceIds(snapshots);
  }

  lemma SpanOf(snapshots: seq<Snapshot>, s: Snapshot) returns (i: nat)
    requires s in snapshots
    ensures i < |InstanceSpans(snapshots, s.instanceId)|
    ensures InstanceSpans(snapshots, s.instanceId)[i].sequence == s.sequence
  {
    var list := InstanceList(snapshots, s.instanceId);
    InstanceListSorted(snapshots, s.instanceId);
    FilterMembers(snapshots, OfInstance(s.instanceId), s);
    PermutationMembers(list, Filter(snapshots, OfInstance(s.instanceId)));
    i :| 0 <= i < |list| && list[i] == s;
  }

  lemma SpanSource(snapshots: seq<Snapshot>, id: string, k: nat) returns (s: Snapshot)
    requires k < |InstanceSpans(snapshots, id)|
    ensures s in snapshots && s.instanceId == id && s.sequence == InstanceSpans(snapshots, id)[k].sequence
  {
    var list := InstanceList(snapshots, id);
    InstanceListSorted(snapshots, id);
    s := list[k];
    PermutationMembers(list, Filter(snapshots, OfInstance(id)));
    FilterMembers(snapshots, OfInstance(id), s);
  }

  /** Steps of one cannot jump over a value. */
  lemma SequenceGap(spans: seq<Span>, i: nat, j: nat, missing: int)
    requires i < |spans| && j < |spans| && spans[i].sequence < missing < spans[j].sequence
    ensures SequenceInvalid in ChainFindings(spans) || exists k :: 0 <= k < |spans| && spans[k].sequence == missing
  {
    if SequenceInvalid !in ChainFindings(spans) {
      ConsecutiveSequences(spans);
      assert spans[i].sequence == spans[0].sequence + i && spans[j].sequence == spans[0].sequence + j;
      assert spans[missing - spans[0].sequence].sequence == missing;
    }
  }

  lemma {:induction false} ConsecutiveSequences(spans: seq<Span>)
    requires SequenceInvalid !in ChainFindings(spans)
    ensures forall k | 0 <= k < |spans| :: spans[k].sequence == spans[0].sequence + k
  {
    if |spans| >= 2 {
      var init := spans[..|spans| - 1];
      ConsecutiveSequences(init);
      assert forall k | 0 <= k < |init| :: init[k] == spans[k];
      assert SequenceInvalid !in PairFindings(spans[|spans| - 2], spans[|spans| - 1]);
    }
  }
}
