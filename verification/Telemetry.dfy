/** The telemetry producer over its maps and its slot (src/auth-observability.ts, lines 413-634),
    proved to be the state machine of TelemetryModel. */
module Telemetry {
  import opened Optional
  import opened Sequences
  import opened Sorting
  import opened OrderedMaps
  import opened LatencyHistogram
  import opened RolloutContract
  import opened Aggregates
  import opened ClockChain
  import opened GapMarks
  import opened FlushSums
  import opened TelemetryModel

  // ----- Cuts one after another -----

  lemma {:induction false} MoreTimes(g: Gaps, code: GapCode, m: nat, n: nat)
    ensures MarkedTimes(MarkedTimes(g, code, m), code, n) == MarkedTimes(g, code, m + n)
  {
    if n > 0 { MoreTimes(g, code, m, n - 1); }
  }

  lemma MoreCuts(made: multiset<GapCode>, m: nat, n: nat)
    ensures made + Times(NumericSaturation, m) + Times(NumericSaturation, n) == made + Times(NumericSaturation, m + n)
    ensures made + Times(NumericSaturation, 0) == made
  {
  }

  lemma MarkedOnce(g: Gaps)
    ensures MarkedTimes(g, NumericSaturation, 1) == Marked(g, NumericSaturation)
  {
    assert MarkedTimes(g, NumericSaturation, 0) == g;
  }

  /** So many sums were cut off, and nothing else was marked. */
  ghost predicate CutTimes(g: Gaps, h: History, after: Gaps, later: History, n: nat) {
    after == MarkedTimes(g, NumericSaturation, n) && later == h.(made := h.made + Times(NumericSaturation, n))
  }

  lemma NoCuts(g: Gaps, h: History)
    ensures CutTimes(g, h, g, h, 0)
  {
    MoreCuts(h.made, 0, 0);
  }

  lemma CutsAdd(g: Gaps, h: History, g1: Gaps, h1: History, g2: Gaps, h2: History, m: nat, n: nat)
    requires CutTimes(g, h, g1, h1, m) && CutTimes(g1, h1, g2, h2, n)
    ensures CutTimes(g, h, g2, h2, m + n)
  {
    MoreTimes(g, NumericSaturation, m, n);
    MoreCuts(h.made, m, n);
  }

  function OneRestored(p: Producer, code: GapCode, count: int): Producer {
    CutIn(p, Cut(Get(p.gaps, code, 0), count)).(gaps := AddedGap(p.gaps, code, count))
  }

  lemma RestoredNone(p: Producer)
    ensures RestoreIn(p, []) == p
  {
    assert p.history.made + Times(NumericSaturation, 0) == p.history.made;
  }

  lemma RestoredOne(p: Producer, list: seq<Gap>, i: nat)
    requires i < |list|
    ensures RestoreIn(p, list[..i + 1]) == OneRestored(RestoreIn(p, list[..i]), list[i].code, list[i].count)
  {
    var q := RestoreIn(p, list[..i]);
    assert list[..i + 1][..i] == list[..i];
    MoreCuts(p.history.made, RestoreCuts(p.gaps, list[..i]), Cut(Get(q.gaps, list[i].code, 0), list[i].count));
  }

  /** What is left of the merge, with so many sums cut off before. */
  ghost predicate MergeRest(whole: Merge, g: Gaps, merged: Gaps, i: nat, cuts: nat) {
    i <= |g| && whole == Merge(Merging(g, merged, i).merged, Merging(g, merged, i).cuts + cuts)
  }

  lemma NextMerged(whole: Merge, g: Gaps, merged: Gaps, i: nat, cuts: nat, after: Gaps, sum: int)
    requires i < |g| && MergeRest(whole, g, merged, i, cuts)
    requires sum == Add(true, Get(merged, g[i].0, 0), g[i].1)
    requires after == MarkedTimes(g, NumericSaturation, Cut(Get(merged, g[i].0, 0), g[i].1))
    ensures |after| >= |g| && Room(after) == Room(g)
    ensures MergeRest(whole, after, Put(merged, g[i].0, sum), i + 1, cuts + Cut(Get(merged, g[i].0, 0), g[i].1))
  {
    MarkedOnce(g);
    if Over(Get(merged, g[i].0, 0), g[i].1) {
      CutMerge(g, merged, i);
    } else {
      UncutMerge(g, merged, i);
    }
  }

  class AuthTelemetry {
    const instanceId: string
    const stageId: string
    const maxClockDriftMs: real

    var counters: Counters
    var histograms: Histograms
    var alertCounts: Alerts
    var gaps: Gaps
    var callbackSuccess: int
    var callbackFailure: int
    var intervalStart: real
    var monotonicStart: real
    var sequence: nat
    var active: Option<SinkOperation>
    var pending: Option<Snapshot>
    ghost var history: History

    ghost function State(): Producer
      reads this
    {
      Producer(instanceId, stageId, maxClockDriftMs, Sums(counters, histograms, alertCounts, callbackSuccess, callbackFailure),
               gaps, intervalStart, monotonicStart, sequence, active, pending, history)
    }

    ghost predicate Valid()
      reads this
    {
      Kept(State())
    }

    constructor (instanceId: string, stageId: string, maxClockDriftMs: real, now: real, monotonicNow: real)
      requires maxClockDriftMs >= 0.0
      ensures Valid() && State() == Start(instanceId, stageId, maxClockDriftMs, now, monotonicNow)
    {
      this.instanceId, this.stageId, this.maxClockDriftMs := instanceId, stageId, maxClockDriftMs;
      counters, histograms, alertCounts, gaps, callbackSuccess, callbackFailure := [], [], [], [], 0, 0;
      intervalStart, monotonicStart, sequence := now, monotonicNow, 0;
      active, pending := None, None;
      history := History(NOTHING, [], false, false, multiset{}, multiset{}, [], {}, []);
      new;
      StartKept(instanceId, stageId, maxClockDriftMs, now, monotonicNow);
    }

    // ----- Marking gaps and adding -----

    method MarkGap(code: GapCode)
      modifies `gaps, `history
      ensures State() == MarkIn(old(State()), code)
    {
      var count := Get(gaps, code, 0);
      gaps := Put(gaps, code, if count == MAX_SAFE then count else count + 1);
      history := history.(made := history.made + multiset{code});
    }

    method MarkGapIf(condition: bool, code: GapCode)
      modifies `gaps, `history
      ensures State() == MarkIf(old(State()), condition, code)
    {
      if condition { MarkGap(code); }
    }

    method AddBounded(left: int, right: int) returns (sum: int)
      modifies `gaps, `history
      ensures sum == Add(true, left, right) && CutTimes(old(gaps), old(history), gaps, history, Cut(left, right))
    {
      NoCuts(gaps, history);
      Once(NumericSaturation);
      MarkedOnce(gaps);
      if right > MAX_SAFE - left {
        MarkGap(NumericSaturation);
        return MAX_SAFE;
      }
      return left + right;
    }

    // ----- Recording -----

    /** A value that is not a nonnegative safe integer is ignored. */
    method Increment(metric: Metric, labels: Dimensions, value: int)
      requires Valid() && !metric.UnlistedMetric?
      modifies `gaps, `history, `counters, `callbackSuccess, `callbackFailure
      ensures Valid() && State() == RecordIn(old(State()), Increments(metric, labels, value))
    {
      ghost var before, r := State(), Increments(metric, labels, value);
      RecordKeeps(before, r);
      if !SafeInteger(value) {
        IgnoredRecording(before, r);
        return;
      }
      Accumulate(metric, labels, value);
      RecordHistory(before, r);
    }

    /** The labelled counter, then the two callback counts. */
    method Accumulate(metric: Metric, labels: Dimensions, value: int)
      requires SafeInteger(value) && callbackSuccess <= MAX_SAFE && callbackFailure <= MAX_SAFE
      modifies `gaps, `history, `counters, `callbackSuccess, `callbackFailure
      ensures counters == Incremented(true, old(counters), KeyOf(metric, labels), value)
      ensures callbackSuccess == Add(true, old(callbackSuccess), CallbackShare(metric, labels, Success, value))
      ensures callbackFailure == Add(true, old(callbackFailure), CallbackShare(metric, labels, Failure, value))
      ensures CutTimes(old(gaps), old(history), gaps, history,
                       RecordingCuts(old(State()).sums, Increments(metric, labels, value)))
    {
      var key := KeyOf(metric, labels);
      var previous := Get(counters, key, 0);
      var sum := AddBounded(previous, value);
      counters := Put(counters, key, sum);
      ghost var g, h := gaps, history;
      var cuts := CountCallback(metric, labels, value);
      CutsAdd(old(gaps), old(history), g, h, gaps, history, Cut(previous, value), cuts);
    }

    method CountCallback(metric: Metric, labels: Dimensions, value: int) returns (ghost cuts: nat)
      requires callbackSuccess <= MAX_SAFE && callbackFailure <= MAX_SAFE && value >= 0
      modifies `gaps, `history, `callbackSuccess, `callbackFailure
      ensures var success, failure := CallbackShare(metric, labels, Success, value), CallbackShare(metric, labels, Failure, value);
              && callbackSuccess == Add(true, old(callbackSuccess), success)
              && callbackFailure == Add(true, old(callbackFailure), failure)
              && cuts == Cut(old(callbackSuccess), success) + Cut(old(callbackFailure), failure)
      ensures CutTimes(old(gaps), old(history), gaps, history, cuts)
    {
      NoCuts(gaps, history);
      cuts := 0;
      if metric == CallbackTotal {
        if Says(labels, Success) {
          cuts := Cut(callbackSuccess, value);
          callbackSuccess := AddBounded(callbackSuccess, value);
        }
        if Says(labels, Failure) {
          cuts := Cut(callbackFailure, value);
          callbackFailure := AddBounded(callbackFailure, value);
        }
      }
    }

    /** What recording adds to the history. */
    ghost method RecordHistory(before: Producer, r: Recording)
      requires !Ignored(r)
      requires CutTimes(before.gaps, before.history, gaps, history, RecordingCuts(before.sums, r))
      requires State() == before.(sums := Recorded(true, before.sums, r), gaps := gaps, history := history)
      modifies `history
      ensures State() == RecordIn(before, r)
    {
      var h := before.history;
      history := history.(truth := Recorded(false, h.truth, r), samples := h.samples + SamplesOf(r),
                          misfiled := h.misfiled || Misfiles(r));
    }

    lemma IgnoredRecording(p: Producer, r: Recording)
      requires Ignored(r)
      ensures RecordIn(p, r) == p
    {
      NoCuts(p.gaps, p.history);
      assert p.history.samples + [] == p.history.samples;
    }

    /** A sample that is not finite and nonnegative is ignored. */
    method Observe(metric: Metric, sample: Reading, labels: Dimensions)
      requires Valid() && !metric.UnlistedMetric?
      modifies `gaps, `history, `histograms
      ensures Valid() && State() == RecordIn(old(State()), Observes(metric, sample, labels))
    {
      ghost var before, r := State(), Observes(metric, sample, labels);
      RecordKeeps(before, r);
      if sample.NonFinite? || sample.ms < 0.0 {
        IgnoredRecording(before, r);
        return;
      }
      Collect(KeyOf(metric, labels), sample.ms);
      RecordHistory(before, r);
    }

    method Collect(key: Key, value: real)
      modifies `gaps, `history, `histograms
      ensures histograms == Observing(true, old(histograms), key, value)
      ensures var o, i := Get(old(histograms), key, Empty()), BucketIndex(value);
              CutTimes(old(gaps), old(history), gaps, history, Cut(o.bucketCounts[i], 1) + Cut(o.count, 1))
    {
      var o, index := Get(histograms, key, Empty()), BucketIndex(value);
      var bucket, count := AddPair(o.bucketCounts[index], 1, o.count, 1);
      histograms := Put(histograms, key, Observed(o.bucketCounts[index := bucket], count));
    }

    /** Two additions one after the other. */
    method AddPair(left: int, right: int, count: int, more: int) returns (sum: int, total: int)
      modifies `gaps, `history
      ensures sum == Add(true, left, right) && total == Add(true, count, more)
      ensures CutTimes(old(gaps), old(history), gaps, history, Cut(left, right) + Cut(count, more))
    {
      sum := AddBounded(left, right);
      ghost var g, h := gaps, history;
      total := AddBounded(count, more);
      CutsAdd(old(gaps), old(history), g, h, gaps, history, Cut(left, right), Cut(count, more));
    }

    method EmitAlert(alert: AlertType)
      requires Valid() && !alert.UnlistedAlert?
      modifies `gaps, `history, `alertCounts
      ensures Valid() && State() == RecordIn(old(State()), Raises(alert))
    {
      ghost var before := State();
      RecordKeeps(before, Raises(alert));
      CountAlert(alert);
      RecordHistory(before, Raises(alert));
    }

    method CountAlert(alert: AlertType)
      modifies `gaps, `history, `alertCounts
      ensures alertCounts == Emitted(true, old(alertCounts), alert)
      ensures CutTimes(old(gaps), old(history), gaps, history, Cut(Get(old(alertCounts), alert, 0), 1))
    {
      var sum := AddBounded(Get(alertCounts, alert, 0), 1);
      alertCounts := Put(alertCounts, alert, sum);
    }

    // ----- The snapshot slot -----

    method RestoreSnapshotGaps(s: Snapshot)
      modifies `gaps, `history
      ensures State() == RestoreIn(old(State()), s.gaps)
    {
      RestoredNone(State());
      for i := 0 to |s.gaps|
        invariant State() == RestoreIn(old(State()), s.gaps[..i])
      {
        RestoredOne(old(State()), s.gaps, i);
        RestoreGap(s.gaps[i].code, s.gaps[i].count);
      }
      assert s.gaps[..|s.gaps|] == s.gaps;
    }

    method RestoreGap(code: GapCode, count: int)
      modifies `gaps, `history
      ensures State() == OneRestored(old(State()), code, count)
    {
      MarkedOnce(gaps);
      var sum := AddBounded(Get(gaps, code, 0), count);
      gaps := Put(gaps, code, sum);
    }

    /** Moves the marks made since onto a snapshot that is about to leave. Iterating `gaps` while a
        sum that is cut off appends to it follows the live map. */
    method AttachCurrentGaps(s: Snapshot) returns (r: Snapshot)
      modifies `gaps, `history
      ensures r == Attached(s, old(gaps)) && gaps == []
      ensures history == old(history).(made := old(history).made + Times(NumericSaturation, AttachCuts(s, old(gaps))))
    {
      ghost var before, h := gaps, history;
      NoCuts(gaps, history);
      if |gaps| == 0 {
        assert AttachCuts(s, before) == 0;
        return s;
      }
      var merged := FromGaps(s.gaps);
      var i := 0;
      ghost var cuts: nat := 0;
      ghost var whole := Merging(gaps, merged, 0);
      while i < |gaps|
        invariant i <= |gaps| && history == h.(made := h.made + Times(NumericSaturation, cuts))
        invariant MergeRest(whole, gaps, merged, i, cuts)
        decreases Room(gaps) - i
      {
        var (code, count) := gaps[i];
        ghost var g, cut := gaps, Cut(Get(merged, code, 0), count);
        var sum := AddBounded(Get(merged, code, 0), count);
        NextMerged(whole, g, merged, i, cuts, gaps, sum);
        merged := Put(merged, code, sum);
        MoreCuts(h.made, cuts, cut);
        cuts := cuts + cut;
        i := i + 1;
      }
      assert whole == Merge(merged, cuts);
      gaps := [];
      return WithGaps(s, merged);
    }

    /** Passes one snapshot to the sink. */
    method Dispatch(s: Snapshot, result: SinkResult)
      requires active.None?
      modifies `gaps, `history, `active
      ensures State() == DispatchIn(old(State()), s, result)
    {
      history := history.(handed := history.handed + [s]);
      match result {
        case Took => history := history.(settled := history.settled + GapBag(s));
        case Started => active := Some(SinkOperation(s, false));
        case Threw =>
          RestoreSnapshotGaps(s);
          MarkGap(SinkThrow);
      }
    }

    /** The sink's deadline passes while its operation is still in flight. */
    method SinkTimeout()
      requires Valid()
      modifies `gaps, `history, `active
      ensures Valid() && State() == TimeoutIn(old(State()))
    {
      ghost var before := State();
      if active.Some? && !active.value.timedOut {
        active := Some(active.value.(timedOut := true));
        MarkGap(GapCode.SinkTimeout);
      }
      TimedOutKept(before, State());
    }

    /** The operation in flight settles; a waiting snapshot then takes its place, carrying
        every mark made meanwhile. */
    method SinkSettled(resolved: bool, next: SinkResult)
      requires Valid() && active.Some?
      modifies `gaps, `history, `active, `pending
      ensures Valid() && State() == SettleIn(old(State()), resolved, next)
    {
      SettleKeeps(State(), resolved, next);
      Release(resolved);
      if pending.Some? { Promote(next); }
    }

    method Release(resolved: bool)
      requires active.Some?
      modifies `gaps, `history, `active
      ensures State() == ReleaseIn(old(State()), resolved)
    {
      var operation := active.value;
      active := None;
      if resolved {
        history := history.(settled := history.settled + GapBag(operation.snapshot));
      } else {
        RestoreSnapshotGaps(operation.snapshot);
        MarkGap(SinkRejected);
      }
    }

    method Promote(next: SinkResult)
      requires active.None? && pending.Some?
      modifies `gaps, `history, `active, `pending
      ensures State() == PromoteIn(old(State()), next)
    {
      ghost var moved := history.moved || gaps != [];
      var waiting := AttachCurrentGaps(pending.value);
      pending := None;
      history := history.(moved := moved);
      Dispatch(waiting, next);
    }

    // ----- Flushing -----

    method AdvanceClocks(wall: Reading, monotonic: Reading) returns (end: real, monotonicEnd: real)
      modifies `gaps, `history
      ensures Clocks(end, monotonicEnd) == NextClocks(old(State()), wall, monotonic)
      ensures State() == Clocked(old(State()), wall, monotonic)
    {
      MarkGapIf(!wall.Finite? || !monotonic.Finite? || monotonic.ms - monotonicStart <= 0.0, ClockAnomaly);
      var elapsed :=
        if monotonic.Finite? && monotonic.ms - monotonicStart > 0.0 then monotonic.ms - monotonicStart else 1.0;
      var drifted := wall.Finite? && Abs(wall.ms - intervalStart - elapsed) > maxClockDriftMs;
      MarkGapIf(drifted, ClockDrift);
      end := if wall.Finite? && wall.ms - intervalStart > 0.0 && !drifted then wall.ms else intervalStart + elapsed;
      monotonicEnd := if monotonic.Finite? then monotonic.ms else monotonicStart + elapsed;
    }

    method SumSessions() returns (buckets: Buckets, count: nat)
      modifies `gaps, `history
      ensures buckets == SessionBuckets(histograms) && count == SessionCount(histograms)
      ensures CutTimes(old(gaps), old(history), gaps, history, SessionCuts(histograms))
    {
      var all := histograms;
      buckets, count := Zero(), 0;
      ghost var g, h := gaps, history;
      NoCuts(g, h);
      ZeroTotal();
      for k := 0 to |all|
        invariant buckets == SessionBuckets(all[..k]) && count == SessionCount(all[..k])
        invariant CutTimes(g, h, gaps, history, SessionCuts(all[..k]))
      {
        buckets, count := AddNext(all, k, buckets, count, g, h);
      }
      assert all[..|all|] == all;
    }

    method AddNext(all: Histograms, k: nat, buckets: Buckets, count: nat, ghost g: Gaps, ghost h: History)
      returns (sums: Buckets, total: nat)
      requires k < |all| && buckets == SessionBuckets(all[..k]) && count == SessionCount(all[..k])
      requires CutTimes(g, h, gaps, history, SessionCuts(all[..k]))
      modifies `gaps, `history
      ensures sums == SessionBuckets(all[..k + 1]) && total == SessionCount(all[..k + 1])
      ensures CutTimes(g, h, gaps, history, SessionCuts(all[..k + 1]))
    {
      ghost var g1, h1, a, b := gaps, history, SessionCuts(all[..k]), HistogramCuts(buckets, count, all[k]);
      sums, total := AddHistogram(all[k], buckets, count);
      CutsAdd(g, h, g1, h1, gaps, history, a, b);
      NextHistogram(all, k, buckets, count, sums, total);
    }

    method AddHistogram(p: (Key, Observed), buckets: Buckets, count: nat) returns (sums: Buckets, total: nat)
      requires count <= MAX_SAFE
      modifies `gaps, `history
      ensures AddsHistogram(buckets, count, p, sums, total)
      ensures CutTimes(old(gaps), old(history), gaps, history, HistogramCuts(buckets, count, p))
    {
      sums, total := buckets, count;
      NoCuts(gaps, history);
      if p.0.metric == LookupSeconds { sums, total := AddBuckets(p.1.bucketCounts, buckets, count); }
    }

    /** One histogram's buckets, added to the buckets and to the count. */
    method AddBuckets(added: Buckets, buckets: Buckets, count: nat) returns (sums: Buckets, total: nat)
      requires count <= MAX_SAFE
      modifies `gaps, `history
      ensures sums == AddedAll(buckets, added) && total == Cap(count + Total(added))
      ensures CutTimes(old(gaps), old(history), gaps, history, BucketCuts(buckets, count, added, BUCKETS))
    {
      sums, total := buckets, count;
      ghost var g, h := gaps, history;
      NoCuts(g, h);
      for i := 0 to BUCKETS
        invariant SomeAdded(buckets, count, added, i, sums, total)
        invariant CutTimes(g, h, gaps, history, BucketCuts(buckets, count, added, i))
      {
        ghost var g1, h1 := gaps, history;
        ghost var cuts, cut := BucketCuts(buckets, count, added, i), Cut(sums[i], added[i]) + Cut(total, added[i]);
        ghost var before := sums;
        NextBucket(buckets, count, added, i, before, total);
        var sum;
        sum, total := AddPair(sums[i], added[i], total, added[i]);
        CutsAdd(g, h, g1, h1, gaps, history, cuts, cut);
        sums := sums[i := sum];
      }
      AllAdded(buckets, count, added, sums, total);
    }

    /** The latency test, on the summed buckets. */
    method SlowSessions(buckets: Buckets, count: nat) returns (slow: bool)
      ensures slow <==> SlowBuckets(buckets, count)
    {
      if count < MINIMUM_SAMPLES { return false; }
      var bucket := FindRankBucket(buckets, Rank(count));
      SlowByBucket(buckets, count, bucket);
      return bucket >= SLO_BOUND + 1;
    }

    /** The two service level tests. */
    method RaiseSlos(buckets: Buckets, count: nat) returns (raised: set<AlertType>, ghost cuts: nat)
      modifies `gaps, `history, `alertCounts
      ensures raised == Raised(callbackSuccess, callbackFailure, buckets, count)
      ensures alertCounts == WithSlos(true, old(alertCounts), raised) && cuts == SloCuts(old(alertCounts), raised)
      ensures CutTimes(old(gaps), old(history), gaps, history, cuts)
    {
      NoCuts(gaps, history);
      raised, cuts := {}, 0;
      var callbacks := callbackSuccess + callbackFailure;
      if callbacks >= 100 && callbackSuccess * 1_000 < callbacks * 995 {
        cuts := Cut(Get(alertCounts, OidcCallbackSuccessSlo, 0), 1);
        CountAlert(OidcCallbackSuccessSlo);
        raised := {OidcCallbackSuccessSlo};
      }
      var slow := SlowSessions(buckets, count);
      if slow {
        ghost var g, h, cut := gaps, history, Cut(Get(alertCounts, SessionLookupLatencySlo, 0), 1);
        CountAlert(SessionLookupLatencySlo);
        raised := raised + {SessionLookupLatencySlo};
        CutsAdd(old(gaps), old(history), g, h, gaps, history, cuts, cut);
        cuts := cuts + cut;
      }
    }

    method CountCritical() returns (critical: int)
      requires NonNegative(alertCounts)
      modifies `gaps, `history
      ensures critical == CriticalCount(alertCounts)
      ensures CutTimes(old(gaps), old(history), gaps, history, CriticalCuts(alertCounts))
    {
      var all := alertCounts;
      critical := 0;
      ghost var g, h := gaps, history;
      NoCuts(g, h);
      for i := 0 to |all|
        invariant critical == CriticalCount(all[..i])
        invariant CutTimes(g, h, gaps, history, CriticalCuts(all[..i]))
      {
        critical := AddCritical(all, i, critical, g, h);
      }
      assert all[..|all|] == all;
    }

    method AddCritical(all: Alerts, i: nat, critical: int, ghost g: Gaps, ghost h: History) returns (sum: int)
      requires i < |all| && NonNegative(all) && critical == CriticalCount(all[..i])
      requires CutTimes(g, h, gaps, history, CriticalCuts(all[..i]))
      modifies `gaps, `history
      ensures sum == CriticalCount(all[..i + 1])
      ensures CutTimes(g, h, gaps, history, CriticalCuts(all[..i + 1]))
    {
      NextCritical(all, i);
      sum := critical;
      if Critical(all[i].0) {
        ghost var g1, h1, a, b := gaps, history, CriticalCuts(all[..i]), Cut(critical, all[i].1);
        sum := AddBounded(critical, all[i].1);
        CutsAdd(g, h, g1, h1, gaps, history, a, b);
      }
    }

    /** The alert counts with the service levels, and the critical ones among them. */
    method CountAlerts(buckets: Buckets, count: nat)
      returns (raised: set<AlertType>, critical: int, ghost cuts: nat)
      requires NonNegative(alertCounts)
      modifies `gaps, `history, `alertCounts
      ensures AlertsCounted(callbackSuccess, callbackFailure, buckets, count, old(alertCounts), raised, alertCounts, critical, cuts)
      ensures CutTimes(old(gaps), old(history), gaps, history, cuts)
    {
      ghost var g, h, before := gaps, history, alertCounts;
      ghost var b: nat;
      raised, b := RaiseSlos(buckets, count);
      ghost var g1, h1, alerts := gaps, history, alertCounts;
      SlosNonNegative(before, raised, alerts);
      critical := CountCritical();
      cuts := b + CriticalCuts(alerts);
      CutsAdd(g, h, g1, h1, gaps, history, b, CriticalCuts(alerts));
    }

    /** The interval's counts, tested and summed. */
    method Assess() returns (raised: set<AlertType>, critical: int, ghost cuts: nat)
      requires NonNegative(alertCounts)
      modifies `gaps, `history, `alertCounts
      ensures Assessed(old(State()).sums, raised, alertCounts, critical, cuts)
      ensures CutTimes(old(gaps), old(history), gaps, history, cuts)
    {
      ghost var s := Sums(counters, histograms, alertCounts, callbackSuccess, callbackFailure);
      ghost var a, g, h := SessionCuts(s.histograms), gaps, history;
      var buckets, count := SumSessions();
      ghost var g1, h1 := gaps, history;
      ghost var b: nat;
      raised, critical, b := CountAlerts(buckets, count);
      ghost var g2, h2, alerts := gaps, history, alertCounts;
      cuts := a + b;
      AssessedBy(s, buckets, count, raised, alerts, critical, a, b);
      CutsAdd(g, h, g1, h1, g2, h2, a, b);
    }

    /** Where a fresh snapshot goes: to the sink, behind the one in flight, or nowhere. */
    method Deliver(s: Snapshot, result: SinkResult)
      modifies `gaps, `history, `active, `pending
      ensures State() == DeliverIn(old(State()), s, result)
    {
      if active.None? {
        Dispatch(s, result);
      } else if pending.None? {
        pending := Some(s);
      } else {
        history := history.(dropped := history.dropped + {s.sequence});
        RestoreSnapshotGaps(s);
        MarkGap(SinkBackpressure);
      }
    }

    /** Everything flush does before it delivers: the snapshot is taken, everything is cleared. */
    method CutInto(wall: Reading, monotonic: Reading) returns (s: Snapshot, raised: set<AlertType>)
      requires NonNegative(alertCounts)
      modifies this
      ensures State() == CutInterval(old(State()), wall, monotonic)
      ensures s == SnapshotOf(old(State()), wall, monotonic) && raised == RaisedBy(old(State()).sums)
    {
      ghost var p := State();
      var end, monotonicEnd := AdvanceClocks(wall, monotonic);
      ghost var clocked := State();
      s, raised := CutAt(end, monotonicEnd);
      CutClocked(p, wall, monotonic, clocked, s, raised, State());
    }

    /** The same with the clocks read and marked. */
    method CutAt(end: real, monotonicEnd: real) returns (s: Snapshot, raised: set<AlertType>)
      requires NonNegative(alertCounts)
      modifies this
      ensures IntervalCut(old(State()), Clocks(end, monotonicEnd), s, raised, State())
    {
      ghost var p := State();
      var critical;
      ghost var cuts: nat;
      raised, critical, cuts := Assess();
      ghost var q := State();
      s := TakeSnapshot(end, critical);
      Clear(end, monotonicEnd);
      CutAfter(p, q, critical, cuts, Clocks(end, monotonicEnd), s, raised, State());
    }

    method TakeSnapshot(end: real, critical: int) returns (s: Snapshot)
      modifies `sequence
      ensures sequence == old(sequence) + 1 && s == Taken(old(State()), end, critical)
    {
      sequence := sequence + 1;
      s := Snapshot(instanceId, stageId, sequence, Printed(intervalStart), Printed(end),
                    Map(counters, ToCounter()), Map(histograms, ToHistogram()), Map(alertCounts, ToAlertCount()),
                    critical, gaps == [], Map(gaps, ToGap()));
    }

    method Clear(end: real, monotonicEnd: real)
      modifies `counters, `histograms, `alertCounts, `gaps, `callbackSuccess, `callbackFailure,
               `intervalStart, `monotonicStart, `history
      ensures State().sums == NOTHING && gaps == [] && intervalStart == end && monotonicStart == monotonicEnd
      ensures history == Closed(old(history), old(intervalStart), end, old(gaps))
    {
      history := Closed(history, intervalStart, end, gaps);
      intervalStart, monotonicStart := end, monotonicEnd;
      counters, histograms, alertCounts, gaps, callbackSuccess, callbackFailure := [], [], [], [], 0, 0;
    }

    /** One interval: read the clocks, test the counts, snapshot and clear everything, and hand
        the snapshot on. */
    method Flush(wall: Reading, monotonic: Reading, result: SinkResult)
      returns (s: Snapshot, raised: set<AlertType>)
      requires Valid()
      modifies this
      ensures Valid() && State() == FlushIn(old(State()), wall, monotonic, result)
      ensures s == SnapshotOf(old(State()), wall, monotonic) && raised == RaisedBy(old(State()).sums)
    {
      FlushKeeps(State(), wall, monotonic, result);
      StoredAlerts(State());
      s, raised := CutInto(wall, monotonic);
      Deliver(s, result);
    }
  }

  function AddedAll(buckets: Buckets, added: Buckets): Buckets {
    seq(BUCKETS, i requires 0 <= i < BUCKETS => Add(true, buckets[i], added[i]))
  }

  ghost predicate AddsHistogram(buckets: Buckets, count: nat, p: (Key, Observed), sums: Buckets, total: nat) {
    && sums == (if p.0.metric == LookupSeconds then AddedAll(buckets, p.1.bucketCounts) else buckets)
    && total == if p.0.metric == LookupSeconds then Cap(count + Total(p.1.bucketCounts)) else count
  }

  function HistogramCuts(buckets: Buckets, count: nat, p: (Key, Observed)): nat {
    if p.0.metric == LookupSeconds then BucketCuts(buckets, count, p.1.bucketCounts, BUCKETS) else 0
  }

  /** The buckets before `i` have been added. */
  ghost predicate SomeAdded(buckets: Buckets, count: nat, added: Buckets, i: nat, sums: Buckets, total: nat)
    requires i <= BUCKETS
  {
    && (forall j | 0 <= j < BUCKETS :: sums[j] == if j < i then Add(true, buckets[j], added[j]) else buckets[j])
    && total == Cap(count + Total(added[..i]))
  }

  lemma NextBucket(buckets: Buckets, count: nat, added: Buckets, i: nat, sums: Buckets, total: nat)
    requires i < BUCKETS && SomeAdded(buckets, count, added, i, sums, total)
    ensures SomeAdded(buckets, count, added, i + 1, sums[i := Add(true, sums[i], added[i])], Add(true, total, added[i]))
    ensures BucketCuts(buckets, count, added, i + 1)
            == BucketCuts(buckets, count, added, i) + (Cut(sums[i], added[i]) + Cut(total, added[i]))
  {
    assert added[..i + 1][..i] == added[..i];
    AddCapped(count + Total(added[..i]), added[i]);
  }

  lemma AllAdded(buckets: Buckets, count: nat, added: Buckets, sums: Buckets, total: nat)
    requires SomeAdded(buckets, count, added, BUCKETS, sums, total)
    ensures sums == AddedAll(buckets, added) && total == Cap(count + Total(added))
  {
    assert added[..BUCKETS] == added;
  }

  lemma NextHistogram(histograms: Histograms, k: nat, buckets: Buckets, count: nat, sums: Buckets, total: nat)
    requires k < |histograms| && buckets == SessionBuckets(histograms[..k]) && count == SessionCount(histograms[..k])
    requires AddsHistogram(buckets, count, histograms[k], sums, total)
    ensures sums == SessionBuckets(histograms[..k + 1]) && total == SessionCount(histograms[..k + 1])
    ensures SessionCuts(histograms[..k + 1]) == SessionCuts(histograms[..k]) + HistogramCuts(buckets, count, histograms[k])
  {
    assert histograms[..k + 1][..k] == histograms[..k];
    NextPrefix(SessionPrefix(histograms[..k]), histograms[k], sums, total, SessionPrefix(histograms[..k + 1]));
  }

  lemma NextPrefix(before: Buckets, p: (Key, Observed), sums: Buckets, total: nat, after: Buckets)
    requires AddsHistogram(CapBuckets(before), Cap(Total(before)), p, sums, total) && after == Plus(before, ShareOf(p))
    ensures sums == CapBuckets(after) && total == Cap(Total(after))
  {
    PlusTotal(before, ShareOf(p));
    if p.0.metric == LookupSeconds {
      AddedCapped(before, ShareOf(p));
    } else {
      ZeroTotal();
      assert Plus(before, Zero()) == before;
    }
  }

  lemma AddedCapped(before: Buckets, share: Buckets)
    ensures CapBuckets(Plus(before, share)) == AddedAll(CapBuckets(before), share)
  {
    forall i | 0 <= i < BUCKETS ensures Cap(Plus(before, share)[i]) == Add(true, Cap(before[i]), share[i]) {
      AddCapped(before[i], share[i]);
    }
  }

  lemma NextCritical(alerts: Alerts, i: nat)
    requires i < |alerts| && NonNegative(alerts)
    ensures var before, after := alerts[..i], alerts[..i + 1];
            && CriticalCount(after)
               == (if Critical(alerts[i].0) then Add(true, CriticalCount(before), alerts[i].1) else CriticalCount(before))
            && CriticalCuts(after)
               == CriticalCuts(before) + if Critical(alerts[i].0) then Cut(CriticalCount(before), alerts[i].1) else 0
  {
    assert alerts[..i + 1][..i] == alerts[..i];
    if Critical(alerts[i].0) { AddCapped(SumOver(alerts[..i], CriticalShare()), alerts[i].1); }
  }

  lemma TimedOutKept(p: Producer, q: Producer)
    requires Kept(p) && q == TimeoutIn(p)
    ensures Kept(q)
  {
    TimeoutKeeps(p);
  }

  lemma SlosNonNegative(alerts: Alerts, raised: set<AlertType>, after: Alerts)
    requires NonNegative(alerts) && after == WithSlos(true, alerts, raised)
    ensures NonNegative(after)
  {
  }

  /** What flush finds in the stored sums, and how many of its additions are cut off. */
  ghost predicate Assessed(s: Sums, raised: set<AlertType>, alerts: Alerts, critical: int, cuts: nat) {
    raised == RaisedBy(s) && alerts == AlertsWithSlos(s) && critical == CriticalCount(alerts) && cuts == FlushCuts(s)
  }

  ghost predicate AlertsCounted(
    success: int, failure: int, buckets: Buckets, count: nat, before: Alerts,
    raised: set<AlertType>, after: Alerts, critical: int, cuts: nat)
  {
    && raised == Raised(success, failure, buckets, count) && after == WithSlos(true, before, raised)
    && critical == CriticalCount(after) && cuts == SloCuts(before, raised) + CriticalCuts(after)
  }

  lemma AssessedBy(s: Sums, buckets: Buckets, count: nat, raised: set<AlertType>, alerts: Alerts, critical: int,
                   a: nat, b: nat)
    requires buckets == SessionBuckets(s.histograms) && count == SessionCount(s.histograms)
    requires a == SessionCuts(s.histograms)
    requires AlertsCounted(s.success, s.failure, buckets, count, s.alerts, raised, alerts, critical, b)
    ensures Assessed(s, raised, alerts, critical, a + b)
  {
  }

  /** One interval cut, its snapshot and the alerts raised. */
  ghost predicate IntervalCut(p: Producer, next: Clocks, s: Snapshot, raised: set<AlertType>, after: Producer) {
    var marked := CutIn(p, FlushCuts(p.sums));
    && raised == RaisedBy(p.sums) && after == Cleared(marked, next)
    && s == Report(Cell(p.instanceId, p.stageId, p.sequence + 1, p.intervalStart, next.intervalStart), p.sums, marked.gaps)
  }

  function Taken(q: Producer, end: real, critical: int): Snapshot {
    Snapshot(q.instanceId, q.stageId, q.sequence + 1, Printed(q.intervalStart), Printed(end),
             Map(q.sums.counters, ToCounter()), Map(q.sums.histograms, ToHistogram()),
             Map(q.sums.alerts, ToAlertCount()), critical, q.gaps == [], Map(q.gaps, ToGap()))
  }

  lemma CutClocked(p: Producer, wall: Reading, monotonic: Reading, clocked: Producer,
                   s: Snapshot, raised: set<AlertType>, after: Producer)
    requires clocked == Clocked(p, wall, monotonic)
    requires IntervalCut(clocked, NextClocks(p, wall, monotonic), s, raised, after)
    ensures after == CutInterval(p, wall, monotonic) && s == SnapshotOf(p, wall, monotonic) && raised == RaisedBy(p.sums)
  {
  }

  lemma CutAfter(p: Producer, q: Producer, critical: int, cuts: nat, next: Clocks,
                 s: Snapshot, raised: set<AlertType>, after: Producer)
    requires Assessed(p.sums, raised, q.sums.alerts, critical, cuts) && CutTimes(p.gaps, p.history, q.gaps, q.history, cuts)
    requires q == p.(sums := p.sums.(alerts := q.sums.alerts), gaps := q.gaps, history := q.history)
    requires after == Cleared(q, next)
    requires s == Taken(q, next.intervalStart, critical)
    ensures IntervalCut(p, next, s, raised, after)
  {
    assert CutIn(p, cuts) == q.(sums := p.sums);
  }

  lemma StoredAlerts(p: Producer)
    requires Kept(p)
    ensures NonNegative(p.sums.alerts)
  {
    CappedStored(p.history.truth, p.history.samples, p.history.misfiled);
  }
}
