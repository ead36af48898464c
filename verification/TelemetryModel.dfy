/** The telemetry producer, createStructuredAuthTelemetry in src/auth-observability.ts, as a state
    machine: recording, the interval chain, and the one-active/one-pending snapshot slot with its
    accounting of observability gaps. What every run of it keeps. */
module TelemetryModel {
  import opened Optional
  import opened Sorting
  import opened RolloutContract
  import opened Aggregates
  import opened ClockChain
  import opened GapMarks
  import opened FlushSums

  /** What calling the snapshot sink did: returned nothing, returned an operation still to
      settle, or threw (or returned something that is not an operation). */
  datatype SinkResult = Took | Started | Threw

  datatype SinkOperation = SinkOperation(snapshot: Snapshot, timedOut: bool)

  /** One flushed interval: its real limits, the true sums in it and the gaps it was flushed with. */
  datatype Interval = Interval(
    start: real, end: real, truth: Sums, samples: seq<real>, misfiled: bool, gaps: Gaps)

  // Since the last flush: the true sums, the session samples, whether some metric was recorded as
  // the wrong kind, and whether marks left on a snapshot that had waited. Ever: every mark made,
  // those on snapshots the sink has taken for good, the snapshots handed over in order, the
  // numbers of those dropped, and the intervals flushed.
  datatype History = History(
    truth: Sums, samples: seq<real>, misfiled: bool, moved: bool,
    made: multiset<GapCode>, settled: multiset<GapCode>,
    handed: seq<Snapshot>, dropped: set<int>, intervals: seq<Interval>)

  datatype Producer = Producer(
    instanceId: string, stageId: string, maxClockDriftMs: real,
    sums: Sums, gaps: Gaps, intervalStart: real, monotonicStart: real, sequence: nat,
    active: Option<SinkOperation>, pending: Option<Snapshot>, history: History)

  datatype Event =
    | Record(recording: Recording)
    | Mark(code: GapCode)
    | Timeout
    | Settle(resolved: bool, next: SinkResult)
    | Flush(wall: Reading, monotonic: Reading, result: SinkResult)

  // ----- Steps -----

  function Start(instanceId: string, stageId: string, maxClockDriftMs: real, now: real, monotonicNow: real): Producer {
    Producer(instanceId, stageId, maxClockDriftMs, NOTHING, [], now, monotonicNow, 0, None, None,
             History(NOTHING, [], false, false, multiset{}, multiset{}, [], {}, []))
  }

  function MarkIn(p: Producer, code: GapCode): Producer {
    p.(gaps := Marked(p.gaps, code), history := p.history.(made := p.history.made + multiset{code}))
  }

  function MarkIf(p: Producer, condition: bool, code: GapCode): Producer {
    if condition then MarkIn(p, code) else p
  }

  /** So many sums were cut off. */
  function CutIn(p: Producer, n: nat): Producer {
    p.(gaps := MarkedTimes(p.gaps, NumericSaturation, n),
       history := p.history.(made := p.history.made + Times(NumericSaturation, n)))
  }

  function RecordIn(p: Producer, r: Recording): Producer {
    var h := p.history;
    CutIn(p, RecordingCuts(p.sums, r))
      .(sums := Recorded(true, p.sums, r),
        history := h.(truth := Recorded(false, h.truth, r), samples := h.samples + SamplesOf(r),
                      misfiled := h.misfiled || Misfiles(r),
                      made := h.made + Times(NumericSaturation, RecordingCuts(p.sums, r))))
  }

  /** restoreSnapshotGaps. */
  function RestoreIn(p: Producer, gaps: seq<Gap>): Producer {
    p.(gaps := Restored(p.gaps, gaps),
       history := p.history.(made := p.history.made + Times(NumericSaturation, RestoreCuts(p.gaps, gaps))))
  }

  /** dispatch, while nothing is in flight. */
  function DispatchIn(p: Producer, s: Snapshot, result: SinkResult): Producer {
    var h := p.history.(handed := p.history.handed + [s]);
    match result
    case Took => p.(history := h.(settled := h.settled + GapBag(s)))
    case Started => p.(active := Some(SinkOperation(s, false)), history := h)
    case Threw => MarkIn(RestoreIn(p.(history := h), s.gaps), SinkThrow)
  }

  function TimeoutIn(p: Producer): Producer {
    if p.active.None? || p.active.value.timedOut then p
    else MarkIn(p.(active := Some(p.active.value.(timedOut := true))), GapCode.SinkTimeout)
  }

  /** The operation in flight settles; a rejected one gives back its marks and adds one. */
  function ReleaseIn(p: Producer, resolved: bool): Producer
    requires p.active.Some?
  {
    var s, freed := p.active.value.snapshot, p.(active := None);
    if resolved then freed.(history := p.history.(settled := p.history.settled + GapBag(s)))
    else MarkIn(RestoreIn(freed, s.gaps), SinkRejected)
  }

  /** The waiting snapshot takes every mark made meanwhile along to the sink. */
  function AttachIn(p: Producer): Producer
    requires p.pending.Some?
  {
    var h := p.history;
    p.(gaps := [], pending := None,
       history := h.(moved := h.moved || p.gaps != [],
                     made := h.made + Times(NumericSaturation, AttachCuts(p.pending.value, p.gaps))))
  }

  function PromoteIn(p: Producer, next: SinkResult): Producer
    requires p.pending.Some?
  {
    DispatchIn(AttachIn(p), Attached(p.pending.value, p.gaps), next)
  }

  function SettleIn(p: Producer, resolved: bool, next: SinkResult): Producer {
    if p.active.None? then p
    else
      var released := ReleaseIn(p, resolved);
      if released.pending.None? then released else PromoteIn(released, next)
  }

  // ----- Flushing -----

  function ClocksOf(p: Producer): Clocks {
    Clocks(p.intervalStart, p.monotonicStart)
  }

  function Clocked(p: Producer, wall: Reading, monotonic: Reading): Producer {
    MarkIf(MarkIf(p, Anomalous(ClocksOf(p), wall, monotonic), ClockAnomaly),
           Drifted(ClocksOf(p), wall, monotonic, p.maxClockDriftMs), ClockDrift)
  }

  /** The clock marks, then one saturation mark for each sum that flush cuts off. */
  function MarkedForFlush(p: Producer, wall: Reading, monotonic: Reading): Producer {
    CutIn(Clocked(p, wall, monotonic), FlushCuts(p.sums))
  }

  function NextClocks(p: Producer, wall: Reading, monotonic: Reading): Clocks {
    Advance(ClocksOf(p), wall, monotonic, p.maxClockDriftMs)
  }

  /** The snapshot flush takes. */
  function SnapshotOf(p: Producer, wall: Reading, monotonic: Reading): Snapshot {
    Report(Cell(p.instanceId, p.stageId, p.sequence + 1, p.intervalStart, NextClocks(p, wall, monotonic).intervalStart),
           p.sums, MarkedForFlush(p, wall, monotonic).gaps)
  }

  function Closed(h: History, start: real, end: real, gaps: Gaps): History {
    h.(truth := NOTHING, samples := [], misfiled := false, moved := false,
       intervals := h.intervals + [Interval(start, end, h.truth, h.samples, h.misfiled, gaps)])
  }

  /** Everything is cleared for the next interval. */
  function Cleared(p: Producer, next: Clocks): Producer {
    p.(sums := NOTHING, gaps := [], intervalStart := next.intervalStart, monotonicStart := next.monotonicStart,
       sequence := p.sequence + 1, history := Closed(p.history, p.intervalStart, next.intervalStart, p.gaps))
  }

  function CutInterval(p: Producer, wall: Reading, monotonic: Reading): Producer {
    Cleared(MarkedForFlush(p, wall, monotonic), NextClocks(p, wall, monotonic))
  }

  /** To a free sink, else to the waiting place, else nowhere, its marks given back with one more. */
  function DeliverIn(p: Producer, s: Snapshot, result: SinkResult): Producer {
    if p.active.None? then DispatchIn(p, s, result)
    else if p.pending.None? then p.(pending := Some(s))
    else
      MarkIn(RestoreIn(p.(history := p.history.(dropped := p.history.dropped + {s.sequence})), s.gaps), SinkBackpressure)
  }

  function FlushIn(p: Producer, wall: Reading, monotonic: Reading, result: SinkResult): Producer {
    DeliverIn(CutInterval(p, wall, monotonic), SnapshotOf(p, wall, monotonic), result)
  }

  function Apply(p: Producer, e: Event): Producer {
    match e
    case Record(r) => RecordIn(p, r)
    case Mark(code) => MarkIn(p, code)
    case Timeout => TimeoutIn(p)
    case Settle(resolved, next) => SettleIn(p, resolved, next)
    case Flush(wall, monotonic, result) => FlushIn(p, wall, monotonic, result)
  }

  /** Metrics and alerts are those the source's types list. */
  predicate Feasible(e: Event) {
    e.Record? ==> Listed(e.recording)
  }

  function Run(p: Producer, events: seq<Event>): Producer
    decreases |events|
  {
    if events == [] then p else Run(Apply(p, events[0]), events[1..])
  }

  // ----- Turns at the sink -----

  function NumberOf(): Snapshot -> int {
    (s: Snapshot) => s.sequence
  }

  function Numbers(handed: seq<Snapshot>): seq<int> {
    Map(handed, NumberOf())
  }

  predicate Waiting(pending: Option<Snapshot>, n: int) {
    pending.Some? && pending.value.sequence == n
  }

  ghost predicate Increasing(s: seq<int>) {
    forall i, j | 0 <= i < j < |s| :: s[i] < s[j]
  }

  /** Each of the snapshots flushed so far is exactly one of handed over, in turn, waiting or
      dropped. */
  ghost predicate Accounted(sequence: nat, pending: Option<Snapshot>, handed: seq<int>, dropped: set<int>) {
    && Increasing(handed)
    && (pending.Some? && handed != [] ==> handed[|handed| - 1] < pending.value.sequence)
    && (forall n :: 1 <= n <= sequence <==> n in handed || n in dropped || Waiting(pending, n))
    && (forall n | n in dropped :: n !in handed && !Waiting(pending, n))
  }

  lemma SameTurn(sequence: nat, s: Snapshot, r: Snapshot, handed: seq<int>, dropped: set<int>)
    requires Accounted(sequence, Some(s), handed, dropped) && s.sequence == r.sequence
    ensures Accounted(sequence, Some(r), handed, dropped)
  {
    forall n: int ensures Waiting(Some(s), n) <==> Waiting(Some(r), n) {}
  }

  lemma HandOver(sequence: nat, s: Snapshot, handed: seq<int>, dropped: set<int>)
    requires Accounted(sequence, Some(s), handed, dropped)
    ensures Accounted(sequence, None, handed + [s.sequence], dropped)
  {
    var after := handed + [s.sequence];
    forall n ensures n in after <==> n in handed || Waiting(Some(s), n) {
      if n == s.sequence { assert after[|handed|] == n; }
    }
    assert Waiting(Some(s), s.sequence);
  }

  /** A new snapshot takes its turn, or is dropped while another waits. */
  lemma NewTurn(s: Snapshot, handed: seq<int>, dropped: set<int>)
    requires s.sequence >= 1 && Accounted(s.sequence - 1, None, handed, dropped)
    ensures Accounted(s.sequence, Some(s), handed, dropped)
  {
    assert handed != [] ==> handed[|handed| - 1] in handed;
    forall n: int ensures Waiting(Some(s), n) <==> n == s.sequence {}
  }

  lemma Drop(sequence: nat, pending: Option<Snapshot>, handed: seq<int>, dropped: set<int>)
    requires sequence >= 1 && Accounted(sequence - 1, pending, handed, dropped)
    ensures Accounted(sequence, pending, handed, dropped + {sequence})
  {
    assert sequence !in handed && !Waiting(pending, sequence);
  }

  // ----- What is kept -----

  ghost predicate SumsKept(sums: Sums, truth: Sums, samples: seq<real>, misfiled: bool) {
    Truthful(truth, samples, misfiled) && sums == CapSums(truth)
  }

  /** A sum that was cut off since the last flush has left a mark, unless the marks left. */
  ghost predicate Noted(moved: bool, gaps: Gaps, truth: Sums) {
    moved || gaps != [] || Representable(truth)
  }

  ghost predicate PendingCarries(pending: Option<Snapshot>) {
    pending.Some? ==> CarriesGaps(pending.value)
  }

  ghost predicate ActiveCarries(active: Option<SinkOperation>) {
    active.Some? ==> CarriesGaps(active.value.snapshot)
  }

  function PendingBag(pending: Option<Snapshot>): multiset<GapCode> {
    if pending.Some? then GapBag(pending.value) else multiset{}
  }

  function ActiveBag(active: Option<SinkOperation>): multiset<GapCode> {
    if active.Some? then GapBag(active.value.snapshot) else multiset{}
  }

  /** As long as the marks ever made are a safe number, they are these, code by code. */
  ghost predicate Balance(made: multiset<GapCode>, held: multiset<GapCode>) {
    |made| <= MAX_SAFE ==> made == held
  }

  /** Every mark ever made is in the map, on the waiting snapshot, on the one in flight, or on
      one the sink accepted. */
  ghost predicate Conserved(p: Producer) {
    Balance(p.history.made, Bag(p.gaps) + PendingBag(p.pending) + ActiveBag(p.active) + p.history.settled)
  }

  /** The snapshot in flight is the last the sink was handed. */
  predicate ActiveLast(active: Option<SinkOperation>, handed: seq<Snapshot>) {
    active.Some? ==> handed != [] && handed[|handed| - 1] == active.value.snapshot
  }

  /** Each interval starts where the one before ended. */
  ghost predicate ChainKept(intervals: seq<Interval>, sequence: nat, intervalStart: real) {
    && |intervals| == sequence
    && (forall i, j | 0 <= i < j < |intervals| && j == i + 1 :: intervals[j].start == intervals[i].end)
    && (intervals != [] ==> intervals[|intervals| - 1].end == intervalStart)
  }

  /** The instance, and what it flushed. */
  datatype Source = Source(instanceId: string, stageId: string, intervals: seq<Interval>)

  /** The snapshot flushed for the n-th interval. */
  function Flushed(c: Source, n: int): Snapshot
    requires 1 <= n <= |c.intervals|
  {
    var i := c.intervals[n - 1];
    Report(Cell(c.instanceId, c.stageId, n, i.start, i.end), CapSums(i.truth), i.gaps)
  }

  /** The same but for the gaps attached while it waited. */
  predicate SameButGaps(s: Snapshot, flushed: Snapshot) {
    s == flushed.(gaps := s.gaps, healthy := s.healthy)
  }

  ghost predicate Genuine(c: Source, s: Snapshot) {
    1 <= s.sequence <= |c.intervals| && SameButGaps(s, Flushed(c, s.sequence))
  }

  ghost predicate AllGenuine(c: Source, handed: seq<Snapshot>) {
    forall k | 0 <= k < |handed| :: Genuine(c, handed[k])
  }

  ghost predicate PendingGenuine(c: Source, pending: Option<Snapshot>) {
    pending.Some? ==> Genuine(c, pending.value)
  }

  ghost predicate IntervalOk(i: Interval) {
    Truthful(i.truth, i.samples, i.misfiled) && GapsOk(i.gaps)
  }

  ghost predicate IntervalsOk(intervals: seq<Interval>) {
    forall k | 0 <= k < |intervals| :: IntervalOk(intervals[k])
  }

  function SourceOf(p: Producer): Source {
    Source(p.instanceId, p.stageId, p.history.intervals)
  }

  /** What was recorded, and the chain. */
  ghost predicate Recording(p: Producer) {
    && p.maxClockDriftMs >= 0.0 && GapsOk(p.gaps)
    && SumsKept(p.sums, p.history.truth, p.history.samples, p.history.misfiled)
    && Noted(p.history.moved, p.gaps, p.history.truth)
    && ChainKept(p.history.intervals, p.sequence, p.intervalStart) && IntervalsOk(p.history.intervals)
  }

  /** What was handed over or waits is what was flushed, each in its turn. */
  ghost predicate Delivering(p: Producer) {
    && PendingCarries(p.pending) && ActiveCarries(p.active) && ActiveLast(p.active, p.history.handed)
    && Accounted(p.sequence, p.pending, Numbers(p.history.handed), p.history.dropped)
    && AllGenuine(SourceOf(p), p.history.handed) && PendingGenuine(SourceOf(p), p.pending)
  }

  /** What also holds between settling one operation and starting the next. */
  ghost predicate Between(p: Producer) {
    Recording(p) && Delivering(p) && Conserved(p)
  }

  /** A snapshot waits only behind one in flight. */
  ghost predicate Kept(p: Producer) {
    Between(p) && (p.pending.Some? ==> p.active.Some?)
  }

  // ----- Marks -----

  lemma MarkBalance(g: Gaps, code: GapCode, made: multiset<GapCode>, rest: multiset<GapCode>)
    requires GapsOk(g) && Balance(made, Bag(g) + rest)
    ensures Balance(made + multiset{code}, Bag(Marked(g, code)) + rest)
  {
    if |made + multiset{code}| <= MAX_SAFE { MarkedBag(g, code); }
  }

  lemma CutBalance(g: Gaps, n: nat, made: multiset<GapCode>, rest: multiset<GapCode>)
    requires GapsOk(g) && Balance(made, Bag(g) + rest)
    ensures Balance(made + Times(NumericSaturation, n), Bag(MarkedTimes(g, NumericSaturation, n)) + rest)
  {
    TimesSize(NumericSaturation, n);
    MarkedTimesOk(g, NumericSaturation, n);
  }

  lemma TimesSize(code: GapCode, n: nat)
    ensures |Times(code, n)| == n
  {
  }

  lemma RestoreBalance(g: Gaps, gaps: seq<Gap>, made: multiset<GapCode>, rest: multiset<GapCode>)
    requires GapsOk(g) && GapsOk(FromGaps(gaps)) && Balance(made, Bag(g) + Bag(FromGaps(gaps)) + rest)
    ensures Balance(made + Times(NumericSaturation, RestoreCuts(g, gaps)), Bag(Restored(g, gaps)) + rest)
  {
    RestoredExact(g, gaps);
    TimesSize(NumericSaturation, RestoreCuts(g, gaps));
  }

  lemma AttachBalance(s: Snapshot, g: Gaps, made: multiset<GapCode>, rest: multiset<GapCode>)
    requires GapsOk(g) && CarriesGaps(s) && Balance(made, Bag(g) + GapBag(s) + rest)
    ensures Balance(made + Times(NumericSaturation, AttachCuts(s, g)), GapBag(Attached(s, g)) + rest)
  {
    AttachedExact(s, g);
    TimesSize(NumericSaturation, AttachCuts(s, g));
  }

  // ----- Steps that only mark gaps -----

  predicate OnlyGaps(p: Producer, q: Producer) {
    q == p.(gaps := q.gaps, history := p.history.(made := q.history.made))
  }

  /** The marks outside the map, and the snapshot at hand. */
  function Outside(p: Producer): multiset<GapCode> {
    PendingBag(p.pending) + ActiveBag(p.active) + p.history.settled
  }

  lemma ConservedOutside(p: Producer)
    ensures Conserved(p) <==> Balance(p.history.made, Bag(p.gaps) + Outside(p))
  {
    assert Bag(p.gaps) + PendingBag(p.pending) + ActiveBag(p.active) + p.history.settled == Bag(p.gaps) + Outside(p);
  }

  lemma RecordingStep(p: Producer, q: Producer)
    requires Recording(p) && OnlyGaps(p, q) && GapsOk(q.gaps) && (p.gaps != [] ==> q.gaps != [])
    ensures Recording(q)
  {
  }

  /** Nothing about the slot matters to recording. */
  lemma RecordingFrame(p: Producer, q: Producer)
    requires Recording(p)
    requires q == p.(active := q.active, pending := q.pending,
                     history := p.history.(made := q.history.made, settled := q.history.settled,
                                           handed := q.history.handed, dropped := q.history.dropped))
    ensures Recording(q)
  {
  }

  lemma MarkKeeps(p: Producer, code: GapCode)
    requires Between(p)
    ensures Between(MarkIn(p, code))
  {
    var q := MarkIn(p, code);
    MarkedOk(p.gaps, code);
    ConservedOutside(p);
    MarkBalance(p.gaps, code, p.history.made, Outside(p));
    ConservedOutside(q);
    RecordingStep(p, q);
  }

  lemma CutKeeps(p: Producer, n: nat)
    requires Between(p)
    ensures Between(CutIn(p, n)) && (n > 0 || p.gaps != [] ==> CutIn(p, n).gaps != [])
  {
    var q := CutIn(p, n);
    MarkedTimesOk(p.gaps, NumericSaturation, n);
    ConservedOutside(p);
    CutBalance(p.gaps, n, p.history.made, Outside(p));
    ConservedOutside(q);
    RecordingStep(p, q);
  }

  lemma RecordKeeps(p: Producer, r: Recording)
    requires Between(p) && Listed(r)
    ensures Between(RecordIn(p, r))
  {
    var n, h, q := RecordingCuts(p.sums, r), p.history, RecordIn(p, r);
    CutKeeps(p, n);
    SumsRecorded(p.sums, h.truth, h.samples, h.misfiled, r);
    if Representable(h.truth) && n == 0 { CutsShow(h.truth, r); }
    assert Noted(h.moved, q.gaps, q.history.truth);
    assert Conserved(q) by { assert Conserved(CutIn(p, n)); }
  }

  lemma SumsRecorded(sums: Sums, truth: Sums, samples: seq<real>, misfiled: bool, r: Recording)
    requires SumsKept(sums, truth, samples, misfiled) && Listed(r)
    ensures SumsKept(Recorded(true, sums, r), Recorded(false, truth, r), samples + SamplesOf(r), misfiled || Misfiles(r))
  {
    RecordedTruthful(truth, samples, misfiled, r);
    RecordedCapped(truth, r);
  }

  lemma Overdue(p: Producer, q: Producer)
    requires Kept(p) && p.active.Some? && q == p.(active := Some(p.active.value.(timedOut := true)))
    ensures Kept(q)
  {
    RecordingFrame(p, q);
    assert ActiveBag(q.active) == ActiveBag(p.active);
    assert SourceOf(q) == SourceOf(p);
  }

  lemma TimeoutKeeps(p: Producer)
    requires Kept(p)
    ensures Kept(TimeoutIn(p))
  {
    if p.active.Some? && !p.active.value.timedOut {
      var q := p.(active := Some(p.active.value.(timedOut := true)));
      Overdue(p, q);
      MarkedKept(q, GapCode.SinkTimeout);
    }
  }

  lemma MarkedKept(p: Producer, code: GapCode)
    requires Kept(p)
    ensures Kept(MarkIn(p, code))
  {
    MarkKeeps(p, code);
  }

  lemma RecordedKept(p: Producer, r: Recording)
    requires Kept(p) && Listed(r)
    ensures Kept(RecordIn(p, r))
  {
    RecordKeeps(p, r);
  }

  // ----- Handing over -----

  /** The snapshot has left its place and is about to be handed over. */
  ghost predicate InHand(p: Producer, s: Snapshot) {
    && p.active.None? && p.pending.None? && Recording(p) && CarriesGaps(s)
    && Balance(p.history.made, Bag(p.gaps) + GapBag(s) + p.history.settled)
    && Accounted(p.sequence, Some(s), Numbers(p.history.handed), p.history.dropped)
    && AllGenuine(SourceOf(p), p.history.handed) && Genuine(SourceOf(p), s)
  }

  lemma Handed(c: Source, sequence: nat, s: Snapshot, handed: seq<Snapshot>, dropped: set<int>)
    requires Accounted(sequence, Some(s), Numbers(handed), dropped) && AllGenuine(c, handed) && Genuine(c, s)
    ensures Accounted(sequence, None, Numbers(handed + [s]), dropped) && AllGenuine(c, handed + [s])
  {
    HandOver(sequence, s, Numbers(handed), dropped);
    NumbersAppend(handed, s);
    GenuineAppend(c, handed, s);
  }

  lemma NumbersAppend(handed: seq<Snapshot>, s: Snapshot)
    ensures Numbers(handed + [s]) == Numbers(handed) + [s.sequence]
  {
  }

  lemma GenuineAppend(c: Source, handed: seq<Snapshot>, s: Snapshot)
    requires AllGenuine(c, handed) && Genuine(c, s)
    ensures AllGenuine(c, handed + [s])
  {
  }

  /** A snapshot's marks go back to the map, with one more. */
  lemma GivenBack(p: Producer, s: Snapshot, code: GapCode)
    requires Recording(p) && Delivering(p) && CarriesGaps(s)
    requires Balance(p.history.made, Bag(p.gaps) + GapBag(s) + Outside(p))
    ensures Between(MarkIn(RestoreIn(p, s.gaps), code))
  {
    var q := RestoreIn(p, s.gaps);
    RestoredExact(p.gaps, s.gaps);
    RestoreBalance(p.gaps, s.gaps, p.history.made, Outside(p));
    ConservedOutside(q);
    RecordingStep(p, q);
    MarkKeeps(q, code);
  }

  function GivenTo(p: Producer, s: Snapshot): Producer {
    p.(history := p.history.(handed := p.history.handed + [s]))
  }

  lemma GivenKeeps(p: Producer, s: Snapshot)
    requires InHand(p, s)
    ensures Recording(GivenTo(p, s)) && Delivering(GivenTo(p, s)) && Outside(GivenTo(p, s)) == p.history.settled
  {
    RecordingFrame(p, GivenTo(p, s));
    Handed(SourceOf(p), p.sequence, s, p.history.handed, p.history.dropped);
    assert SourceOf(GivenTo(p, s)) == SourceOf(p);
    EmptyPlaces(p.history.settled);
  }

  lemma EmptyPlaces(settled: multiset<GapCode>)
    ensures multiset{} + multiset{} + settled == settled
  {
  }

  lemma TakenMarks(g: multiset<GapCode>, s: multiset<GapCode>, settled: multiset<GapCode>)
    ensures g + s + settled == g + multiset{} + multiset{} + (settled + s)
    ensures g + s + settled == g + multiset{} + s + settled
  {
  }

  /** Marks, and what was settled, do not matter to delivering. */
  lemma DeliveringFrame(p: Producer, q: Producer)
    requires Delivering(p)
    requires q == p.(history := p.history.(settled := q.history.settled))
    ensures Delivering(q)
  {
    assert SourceOf(q) == SourceOf(p);
  }

  lemma StartedDelivers(q: Producer)
    requires q.active.Some? && ActiveCarries(q.active) && ActiveLast(q.active, q.history.handed)
    requires Delivering(q.(active := None))
    ensures Delivering(q)
  {
    assert SourceOf(q) == SourceOf(q.(active := None));
  }

  lemma TakenKeeps(p: Producer, s: Snapshot)
    requires InHand(p, s)
    ensures Kept(DispatchIn(p, s, Took))
  {
    var q := DispatchIn(p, s, Took);
    GivenKeeps(p, s);
    RecordingFrame(p, q);
    DeliveringFrame(GivenTo(p, s), q);
    TakenMarks(Bag(p.gaps), GapBag(s), p.history.settled);
  }

  lemma StartedKeeps(p: Producer, s: Snapshot)
    requires InHand(p, s)
    ensures Kept(DispatchIn(p, s, Started))
  {
    var q := DispatchIn(p, s, Started);
    GivenKeeps(p, s);
    RecordingFrame(p, q);
    DeliveringFrame(GivenTo(p, s), q.(active := None));
    StartedDelivers(q);
    TakenMarks(Bag(p.gaps), GapBag(s), p.history.settled);
  }

  lemma DispatchKeeps(p: Producer, s: Snapshot, result: SinkResult)
    requires InHand(p, s)
    ensures Kept(DispatchIn(p, s, result))
  {
    match result
    case Took => TakenKeeps(p, s);
    case Started => StartedKeeps(p, s);
    case Threw =>
      GivenKeeps(p, s);
      GivenBack(GivenTo(p, s), s, SinkThrow);
  }

  lemma FreedKeeps(p: Producer)
    requires Between(p) && p.active.Some?
    ensures var freed := p.(active := None);
            && Recording(freed) && Delivering(freed)
            && Balance(p.history.made, Bag(p.gaps) + GapBag(p.active.value.snapshot) + Outside(freed))
  {
    var s, freed := p.active.value.snapshot, p.(active := None);
    RecordingFrame(p, freed);
    assert SourceOf(freed) == SourceOf(p);
    FreedMarks(Bag(p.gaps), PendingBag(p.pending), GapBag(s), p.history.settled);
  }

  lemma FreedMarks(g: multiset<GapCode>, w: multiset<GapCode>, s: multiset<GapCode>, settled: multiset<GapCode>)
    ensures g + w + s + settled == g + s + (w + multiset{} + settled)
    ensures g + w + s + settled == g + w + multiset{} + (settled + s)
  {
  }

  lemma ResolvedKeeps(p: Producer)
    requires Between(p) && p.active.Some?
    ensures Between(ReleaseIn(p, true))
  {
    var r := ReleaseIn(p, true);
    RecordingFrame(p, r);
    assert SourceOf(r) == SourceOf(p);
    FreedMarks(Bag(p.gaps), PendingBag(p.pending), GapBag(p.active.value.snapshot), p.history.settled);
  }

  lemma ReleaseKeeps(p: Producer, resolved: bool)
    requires Between(p) && p.active.Some?
    ensures Between(ReleaseIn(p, resolved)) && ReleaseIn(p, resolved).active.None?
    ensures ReleaseIn(p, resolved).pending == p.pending
  {
    if resolved {
      ResolvedKeeps(p);
    } else {
      FreedKeeps(p);
      GivenBack(p.(active := None), p.active.value.snapshot, SinkRejected);
    }
  }

  lemma AttachKeeps(p: Producer)
    requires Between(p) && p.active.None? && p.pending.Some?
    ensures InHand(AttachIn(p), Attached(p.pending.value, p.gaps))
  {
    var w, q := p.pending.value, AttachIn(p);
    var s := Attached(w, p.gaps);
    AttachedExact(w, p.gaps);
    AttachedMarks(w, p.gaps, p.history.made, p.history.settled);
    SameTurn(p.sequence, w, s, Numbers(p.history.handed), p.history.dropped);
    assert Recording(q);
  }

  lemma AttachedMarks(w: Snapshot, g: Gaps, made: multiset<GapCode>, settled: multiset<GapCode>)
    requires GapsOk(g) && CarriesGaps(w) && Balance(made, Bag(g) + GapBag(w) + multiset{} + settled)
    ensures Balance(made + Times(NumericSaturation, AttachCuts(w, g)), Bag([]) + GapBag(Attached(w, g)) + settled)
  {
    assert Bag(g) + GapBag(w) + multiset{} + settled == Bag(g) + GapBag(w) + settled;
    AttachBalance(w, g, made, settled);
    assert Bag([]) + GapBag(Attached(w, g)) + settled == GapBag(Attached(w, g)) + settled;
  }

  lemma SettleKeeps(p: Producer, resolved: bool, next: SinkResult)
    requires Kept(p)
    ensures Kept(SettleIn(p, resolved, next))
  {
    if p.active.Some? {
      var released := ReleaseIn(p, resolved);
      ReleaseKeeps(p, resolved);
      if released.pending.Some? {
        AttachKeeps(released);
        DispatchKeeps(AttachIn(released), Attached(released.pending.value, released.gaps), next);
      }
    }
  }

  // ----- Flushing -----

  lemma MarkIfKeeps(p: Producer, condition: bool, code: GapCode)
    requires Between(p)
    ensures Between(MarkIf(p, condition, code)) && OnlyGaps(p, MarkIf(p, condition, code))
    ensures p.gaps != [] ==> MarkIf(p, condition, code).gaps != []
  {
    if condition {
      MarkKeeps(p, code);
      MarkedOk(p.gaps, code);
    }
  }

  lemma MarkedForFlushKeeps(p: Producer, wall: Reading, monotonic: Reading)
    requires Between(p)
    ensures Between(MarkedForFlush(p, wall, monotonic)) && OnlyGaps(p, MarkedForFlush(p, wall, monotonic))
    ensures FlushCuts(p.sums) > 0 || p.gaps != [] ==> MarkedForFlush(p, wall, monotonic).gaps != []
  {
    var one := MarkIf(p, Anomalous(ClocksOf(p), wall, monotonic), ClockAnomaly);
    var drifted := Drifted(ClocksOf(p), wall, monotonic, p.maxClockDriftMs);
    MarkIfKeeps(p, Anomalous(ClocksOf(p), wall, monotonic), ClockAnomaly);
    MarkIfKeeps(one, drifted, ClockDrift);
    CutKeeps(MarkIf(one, drifted, ClockDrift), FlushCuts(p.sums));
  }

  lemma NothingKept()
    ensures SumsKept(NOTHING, NOTHING, [], false) && Representable(NOTHING)
  {
    StoredExactly(NOTHING);
  }

  lemma OneMore(c: Source, i: Interval, handed: seq<Snapshot>, pending: Option<Snapshot>)
    requires AllGenuine(c, handed) && PendingGenuine(c, pending)
    ensures var d := c.(intervals := c.intervals + [i]);
            AllGenuine(d, handed) && PendingGenuine(d, pending)
  {
    var d := c.(intervals := c.intervals + [i]);
    forall s | Genuine(c, s) ensures Genuine(d, s) {
      assert d.intervals[s.sequence - 1] == c.intervals[s.sequence - 1];
      assert Flushed(d, s.sequence) == Flushed(c, s.sequence);
    }
  }

  lemma LongerChain(intervals: seq<Interval>, i: Interval, sequence: nat)
    requires ChainKept(intervals, sequence, i.start) && IntervalsOk(intervals) && IntervalOk(i)
    ensures ChainKept(intervals + [i], sequence + 1, i.end) && IntervalsOk(intervals + [i])
  {
    var longer := intervals + [i];
    forall m, n | 0 <= m < n < |longer| && n == m + 1 ensures longer[n].start == longer[m].end {
      if n < |intervals| { assert longer[m] == intervals[m] && longer[n] == intervals[n]; }
    }
    forall k | 0 <= k < |longer| ensures IntervalOk(longer[k]) {
      if k < |intervals| { assert longer[k] == intervals[k]; }
    }
  }

  /** The interval is closed: its snapshot is what the chain says was flushed. */
  lemma CutKept(p: Producer, wall: Reading, monotonic: Reading)
    requires Between(p)
    ensures var q, s := CutInterval(p, wall, monotonic), SnapshotOf(p, wall, monotonic);
            && Recording(q) && q.gaps == [] && Genuine(SourceOf(q), s) && CarriesGaps(s)
            && AllGenuine(SourceOf(q), p.history.handed) && PendingGenuine(SourceOf(q), p.pending)
            && Balance(q.history.made, Bag(q.gaps) + GapBag(s) + Outside(q))
  {
    var marked, next := MarkedForFlush(p, wall, monotonic), NextClocks(p, wall, monotonic);
    var q, s := CutInterval(p, wall, monotonic), SnapshotOf(p, wall, monotonic);
    MarkedForFlushKeeps(p, wall, monotonic);
    ClearedRecording(marked, next);
    ClearedMarks(marked, next, q, s);
    ClearedGenuine(p, marked, next);
    assert Flushed(SourceOf(q), p.sequence + 1) == s;
  }

  /** The map's marks are the snapshot's now. */
  lemma ClearedMarks(p: Producer, next: Clocks, q: Producer, s: Snapshot)
    requires Recording(p) && Conserved(p) && q == Cleared(p, next)
    requires s.gaps == Map(p.gaps, ToGap()) && (s.healthy <==> p.gaps == [])
    ensures CarriesGaps(s) && Balance(q.history.made, Bag(q.gaps) + GapBag(s) + Outside(q))
  {
    ConservedOutside(p);
    FreshMarks(p.gaps, p.history.made, Outside(p));
  }

  lemma ClearedRecording(p: Producer, next: Clocks)
    requires Recording(p)
    ensures Recording(Cleared(p, next))
  {
    var h := p.history;
    NothingKept();
    LongerChain(h.intervals, Interval(p.intervalStart, next.intervalStart, h.truth, h.samples, h.misfiled, p.gaps), p.sequence);
  }

  lemma ClearedGenuine(p: Producer, marked: Producer, next: Clocks)
    requires Delivering(p) && OnlyGaps(p, marked)
    ensures var c := SourceOf(Cleared(marked, next)); AllGenuine(c, p.history.handed) && PendingGenuine(c, p.pending)
  {
    var h := marked.history;
    var i := Interval(p.intervalStart, next.intervalStart, h.truth, h.samples, h.misfiled, marked.gaps);
    OneMore(SourceOf(p), i, p.history.handed, p.pending);
    assert SourceOf(Cleared(marked, next)) == SourceOf(p).(intervals := p.history.intervals + [i]);
  }

  lemma FreshMarks(g: Gaps, made: multiset<GapCode>, outside: multiset<GapCode>)
    requires Balance(made, Bag(g) + outside)
    ensures FromGaps(Map(g, ToGap())) == g && Balance(made, Bag([]) + Bag(FromGaps(Map(g, ToGap()))) + outside)
  {
    FromMapped(g);
    assert Bag([]) + Bag(g) + outside == Bag(g) + outside;
  }

  /** What flush changes of the slot before it delivers: nothing. */
  lemma CutFrame(p: Producer, wall: Reading, monotonic: Reading)
    ensures var q := CutInterval(p, wall, monotonic);
            && q.active == p.active && q.pending == p.pending && q.sequence == p.sequence + 1
            && q.history.handed == p.history.handed && q.history.dropped == p.history.dropped
            && q.history.settled == p.history.settled && SnapshotOf(p, wall, monotonic).sequence == q.sequence
  {
  }

  lemma FlushKeeps(p: Producer, wall: Reading, monotonic: Reading, result: SinkResult)
    requires Kept(p)
    ensures Kept(FlushIn(p, wall, monotonic, result))
  {
    var q, s := CutInterval(p, wall, monotonic), SnapshotOf(p, wall, monotonic);
    CutFrame(p, wall, monotonic);
    CutKept(p, wall, monotonic);
    DeliverKeeps(q, s, result);
  }

  lemma DeliverKeeps(p: Producer, s: Snapshot, result: SinkResult)
    requires Recording(p) && CarriesGaps(s) && Balance(p.history.made, Bag(p.gaps) + GapBag(s) + Outside(p))
    requires (p.pending.Some? ==> p.active.Some?) && ActiveCarries(p.active) && ActiveLast(p.active, p.history.handed)
    requires PendingCarries(p.pending) && s.sequence == p.sequence >= 1
    requires Accounted(p.sequence - 1, p.pending, Numbers(p.history.handed), p.history.dropped)
    requires AllGenuine(SourceOf(p), p.history.handed) && PendingGenuine(SourceOf(p), p.pending) && Genuine(SourceOf(p), s)
    ensures Kept(DeliverIn(p, s, result))
  {
    if p.active.None? {
      NewTurn(s, Numbers(p.history.handed), p.history.dropped);
      EmptyPlaces(p.history.settled);
      DispatchKeeps(p, s, result);
    } else if p.pending.None? {
      WaitKeeps(p, s);
    } else {
      DropKeeps(p, s);
    }
  }

  lemma WaitKeeps(p: Producer, s: Snapshot)
    requires Recording(p) && CarriesGaps(s) && Balance(p.history.made, Bag(p.gaps) + GapBag(s) + Outside(p))
    requires p.active.Some? && ActiveCarries(p.active) && ActiveLast(p.active, p.history.handed)
    requires p.pending.None? && s.sequence == p.sequence >= 1
    requires Accounted(p.sequence - 1, None, Numbers(p.history.handed), p.history.dropped)
    requires AllGenuine(SourceOf(p), p.history.handed) && Genuine(SourceOf(p), s)
    ensures Kept(p.(pending := Some(s)))
  {
    var q := p.(pending := Some(s));
    NewTurn(s, Numbers(p.history.handed), p.history.dropped);
    RecordingFrame(p, q);
    assert SourceOf(q) == SourceOf(p);
    WaitMarks(Bag(p.gaps), GapBag(s), ActiveBag(p.active), p.history.settled);
  }

  lemma WaitMarks(g: multiset<GapCode>, s: multiset<GapCode>, a: multiset<GapCode>, settled: multiset<GapCode>)
    ensures g + s + (multiset{} + a + settled) == g + s + a + settled
  {
  }

  lemma DropKeeps(p: Producer, s: Snapshot)
    requires Recording(p) && CarriesGaps(s) && Balance(p.history.made, Bag(p.gaps) + GapBag(s) + Outside(p))
    requires p.active.Some? && ActiveCarries(p.active) && ActiveLast(p.active, p.history.handed)
    requires PendingCarries(p.pending) && s.sequence == p.sequence >= 1
    requires Accounted(p.sequence - 1, p.pending, Numbers(p.history.handed), p.history.dropped)
    requires AllGenuine(SourceOf(p), p.history.handed) && PendingGenuine(SourceOf(p), p.pending)
    ensures Kept(MarkIn(RestoreIn(p.(history := p.history.(dropped := p.history.dropped + {s.sequence})), s.gaps), SinkBackpressure))
  {
    var q := p.(history := p.history.(dropped := p.history.dropped + {s.sequence}));
    Drop(p.sequence, p.pending, Numbers(p.history.handed), p.history.dropped);
    RecordingFrame(p, q);
    GivenBack(q, s, SinkBackpressure);
  }

  // ----- Runs -----

  lemma StartKept(instanceId: string, stageId: string, maxClockDriftMs: real, now: real, monotonicNow: real)
    requires maxClockDriftMs >= 0.0
    ensures Kept(Start(instanceId, stageId, maxClockDriftMs, now, monotonicNow))
  {
    NothingKept();
  }

  lemma ApplyKeeps(p: Producer, e: Event)
    requires Kept(p) && Feasible(e)
    ensures Kept(Apply(p, e))
  {
    if e.Settle? {
      SettleEventKeeps(p, e);
    } else if e.Flush? {
      FlushEventKeeps(p, e);
    } else {
      RecordingEventKeeps(p, e);
    }
  }

  lemma SettleEventKeeps(p: Producer, e: Event)
    requires Kept(p) && e.Settle?
    ensures Kept(Apply(p, e))
  {
    SettleKeeps(p, e.resolved, e.next);
  }

  lemma FlushEventKeeps(p: Producer, e: Event)
    requires Kept(p) && e.Flush?
    ensures Kept(Apply(p, e))
  {
    FlushApplied(p, e);
    FlushedKept(p, e.wall, e.monotonic, e.result, Apply(p, e));
  }

  lemma FlushApplied(p: Producer, e: Event)
    requires e.Flush?
    ensures Apply(p, e) == FlushIn(p, e.wall, e.monotonic, e.result)
  {
  }

  lemma FlushedKept(p: Producer, wall: Reading, monotonic: Reading, result: SinkResult, q: Producer)
    requires Kept(p) && q == FlushIn(p, wall, monotonic, result)
    ensures Kept(q)
  {
    FlushKeeps(p, wall, monotonic, result);
  }

  lemma RecordingEventKeeps(p: Producer, e: Event)
    requires Kept(p) && Feasible(e) && (e.Record? || e.Mark? || e.Timeout?)
    ensures Kept(Apply(p, e))
  {
    match e
    case Record(r) => RecordedKept(p, r);
    case Mark(code) => MarkedKept(p, code);
    case Timeout => TimeoutKeeps(p);
  }

  /** Over every run of recordings, timeouts, settlements and flushes, whatever the clocks read and
      the sink does: the stored sums are the true sums, cut off; no mark is lost; every flushed
      snapshot is handed over in turn, waiting or dropped; and the intervals form one chain. */
  lemma {:induction false} RunKeeps(p: Producer, events: seq<Event>)
    requires Kept(p) && forall i | 0 <= i < |events| :: Feasible(events[i])
    ensures Kept(Run(p, events))
    decreases |events|
  {
    if events != [] {
      ApplyKeeps(p, events[0]);
      RunKeeps(Apply(p, events[0]), events[1..]);
    }
  }
}
