/** The alert slot of createRoutedAuthAlertSink (src/auth-observability.ts, lines 133-246): one
    delivery in flight, one behind it, and a gap report for everything that goes wrong. */
module AlertRouting {
  import opened Optional

  datatype Gap = RouteThrow | RouteTimeout | RouteRejected | RouteUnacknowledged | RouteBackpressure

  // What the adapter does when it is handed a delivery; Threw covers an invalid operation.
  datatype Reply = Started | Threw

  datatype Settlement = Acknowledged | Unacknowledged | Rejected

  /** A delivery in flight, by its place among the emitted alerts. */
  datatype Flight = Flight(alert: nat, timedOut: bool)

  /** The slot, and what happened so far: alerts emitted, those handed to the adapter in order,
      those refused, those acknowledged, and the gaps reported. */
  datatype Slot = Slot(
    active: Option<Flight>, pending: Option<nat>,
    emitted: nat, handed: seq<nat>, refused: set<nat>, acknowledged: nat, gaps: multiset<Gap>)

  datatype Step = Emit(reply: Reply) | Timeout | Settle(settlement: Settlement, next: Reply)

  const EMPTY: Slot := Slot(None, None, 0, [], {}, 0, multiset{})

  // ----- Steps -----

  function Report(s: Slot, gap: Gap): Slot {
    s.(gaps := s.gaps + multiset{gap})
  }

  /** dispatch. */
  function Dispatched(s: Slot, alert: nat, reply: Reply): Slot {
    var handed := s.(handed := s.handed + [alert]);
    match reply
    case Started => handed.(active := Some(Flight(alert, false)))
    case Threw => Report(handed, RouteThrow)
  }

  function Freed(s: Slot, settlement: Settlement): Slot {
    var freed := s.(active := None);
    match settlement
    case Acknowledged => freed.(acknowledged := s.acknowledged + 1)
    case Unacknowledged => Report(freed, RouteUnacknowledged)
    case Rejected => Report(freed, RouteRejected)
  }

  function Apply(s: Slot, step: Step): Slot {
    match step
    case Emit(reply) =>
      var next := s.(emitted := s.emitted + 1);
      if s.active.None? then Dispatched(next, s.emitted, reply)
      else if s.pending.None? then next.(pending := Some(s.emitted))
      else Report(next.(refused := s.refused + {s.emitted}), RouteBackpressure)
    case Timeout =>
      if s.active.None? || s.active.value.timedOut then s
      else Report(s.(active := Some(s.active.value.(timedOut := true))), RouteTimeout)
    case Settle(settlement, reply) =>
      if s.active.None? then s
      else
        var freed := Freed(s, settlement);
        match s.pending
        case None => freed
        case Some(alert) => Dispatched(freed.(pending := None), alert, reply)
  }

  function Run(s: Slot, steps: seq<Step>): Slot
    decreases |steps|
  {
    if steps == [] then s else Run(Apply(s, steps[0]), steps[1..])
  }

  // ----- What is kept -----

  ghost predicate Increasing(s: seq<nat>) {
    forall i, j | 0 <= i < j < |s| :: s[i] < s[j]
  }

  /** The alert is where exactly one of the three holds it. */
  ghost predicate OnePlace(s: Slot, k: nat) {
    && (k in s.handed || s.pending == Some(k) || k in s.refused)
    && !(k in s.handed && s.pending == Some(k)) && !(k in s.handed && k in s.refused)
    && !(s.pending == Some(k) && k in s.refused)
  }

  /** Alerts are handed over in the order they were emitted. */
  ghost predicate InOrder(s: Slot) {
    && Increasing(s.handed)
    && (forall k | k in s.handed :: k < s.emitted)
    && (s.pending.Some? ==> s.pending.value < s.emitted && forall k | k in s.handed :: k < s.pending.value)
    && (forall k | k in s.refused :: k < s.emitted)
  }

  ghost predicate SlotOk(s: Slot) {
    && (s.pending.Some? ==> s.active.Some?)
    && (s.active.Some? ==> s.handed != [] && s.active.value.alert == s.handed[|s.handed| - 1])
  }

  /** Every refusal is reported once, and every alert handed over is in flight, acknowledged or
      reported once as thrown, rejected or unacknowledged. */
  ghost predicate Reported(s: Slot) {
    && s.gaps[RouteBackpressure] == |s.refused|
    && |s.handed| == s.acknowledged + s.gaps[RouteThrow] + s.gaps[RouteRejected]
                     + s.gaps[RouteUnacknowledged] + if s.active.Some? then 1 else 0
  }

  ghost predicate Kept(s: Slot) {
    SlotOk(s) && InOrder(s) && Reported(s) && forall k: nat | k < s.emitted :: OnePlace(s, k)
  }

  lemma DispatchedOrdered(s: Slot, alert: nat, reply: Reply)
    requires s.active.None? && s.pending.None? && InOrder(s) && alert < s.emitted
    requires forall k | k in s.handed :: k < alert
    ensures SlotOk(Dispatched(s, alert, reply)) && InOrder(Dispatched(s, alert, reply))
  {
    var handed := s.handed + [alert];
    assert handed[|handed| - 1] == alert;
    forall i | 0 <= i < |s.handed| ensures handed[i] < alert { assert s.handed[i] in s.handed; }
  }

  lemma ApplyOrdered(s: Slot, step: Step)
    requires Kept(s)
    ensures SlotOk(Apply(s, step)) && InOrder(Apply(s, step))
  {
    match step
    case Emit(reply) =>
      if s.active.None? { DispatchedOrdered(s.(emitted := s.emitted + 1), s.emitted, reply); }
    case Timeout =>
    case Settle(settlement, reply) =>
      if s.active.Some? && s.pending.Some? {
        DispatchedOrdered(Freed(s, settlement).(pending := None), s.pending.value, reply);
      }
  }

  lemma ApplyPlaces(s: Slot, step: Step, k: nat)
    requires Kept(s) && k < Apply(s, step).emitted
    ensures OnePlace(Apply(s, step), k)
  {
    if k < s.emitted { assert OnePlace(s, k); }
    match step
    case Emit(reply) =>
      if s.active.None? { DispatchedPlace(s.(emitted := s.emitted + 1), s.emitted, reply, k); }
    case Timeout =>
    case Settle(settlement, reply) =>
      if s.active.Some? && s.pending.Some? {
        assert OnePlace(s, s.pending.value);
        DispatchedPlace(Freed(s, settlement).(pending := None), s.pending.value, reply, k);
      }
  }

  lemma DispatchedPlace(s: Slot, alert: nat, reply: Reply, k: nat)
    requires s.pending.None? && alert !in s.handed && alert !in s.refused
    requires k != alert ==> OnePlace(s, k)
    ensures OnePlace(Dispatched(s, alert, reply), k)
  {
    var handed := s.handed + [alert];
    assert handed[|s.handed|] == alert;
    assert k in handed <==> k in s.handed || k == alert;
  }

  lemma DispatchedReported(s: Slot, alert: nat, reply: Reply)
    requires s.active.None? && Reported(s)
    ensures Reported(Dispatched(s, alert, reply))
  {
  }

  lemma FreedReported(s: Slot, settlement: Settlement)
    requires s.active.Some? && Reported(s)
    ensures Reported(Freed(s, settlement))
  {
  }

  lemma ApplyReported(s: Slot, step: Step)
    requires Kept(s)
    ensures Reported(Apply(s, step))
  {
    match step
    case Emit(reply) =>
      if s.active.None? { DispatchedReported(s.(emitted := s.emitted + 1), s.emitted, reply); }
    case Timeout =>
    case Settle(settlement, reply) =>
      if s.active.Some? {
        FreedReported(s, settlement);
        if s.pending.Some? { DispatchedReported(Freed(s, settlement).(pending := None), s.pending.value, reply); }
      }
  }

  lemma ApplyKeeps(s: Slot, step: Step)
    requires Kept(s)
    ensures Kept(Apply(s, step))
  {
    ApplyOrdered(s, step);
    ApplyReported(s, step);
    forall k: nat | k < Apply(s, step).emitted ensures OnePlace(Apply(s, step), k) { ApplyPlaces(s, step, k); }
  }

  lemma AppliedKept(s: Slot, step: Step, after: Slot)
    requires Kept(s) && after == Apply(s, step)
    ensures Kept(after)
  {
    ApplyKeeps(s, step);
  }

  /** Over every run of emissions, timeouts and settlements, whatever the adapter does. */
  lemma {:induction false} RunKeeps(s: Slot, steps: seq<Step>)
    requires Kept(s)
    ensures Kept(Run(s, steps))
    decreases |steps|
  {
    if steps != [] {
      ApplyKeeps(s, steps[0]);
      RunKeeps(Apply(s, steps[0]), steps[1..]);
    }
  }

  /** A timeout frees nothing: until the operation in flight settles no other alert is handed
      over, one waits, and every later one is refused. */
  lemma {:induction false} NothingPassesAnUnsettledDelivery(s: Slot, steps: seq<Step>)
    requires Kept(s) && s.active.Some? && forall i | 0 <= i < |steps| :: !steps[i].Settle?
    ensures var after := Run(s, steps);
            && after.handed == s.handed && after.active.Some? && after.active.value.alert == s.active.value.alert
            && (s.pending.Some? ==> after.pending == s.pending)
            && |after.refused| == |s.refused| + (after.emitted - s.emitted)
                                  - if s.pending.None? && after.pending.Some? then 1 else 0
    decreases |steps|
  {
    if steps != [] {
      var next := Apply(s, steps[0]);
      ApplyKeeps(s, steps[0]);
      assert forall i | 0 <= i < |steps[1..]| :: steps[1..][i] == steps[i + 1];
      NothingPassesAnUnsettledDelivery(next, steps[1..]);
    }
  }

  // ----- The sink -----

  class AlertSlot {
    var active: Option<Flight>
    var pending: Option<nat>
    var emitted: nat
    ghost var handed: seq<nat>
    ghost var refused: set<nat>
    ghost var acknowledged: nat
    ghost var gaps: multiset<Gap>

    ghost function State(): Slot
      reads this
    {
      Slot(active, pending, emitted, handed, refused, acknowledged, gaps)
    }

    constructor ()
      ensures State() == EMPTY && Kept(State())
    {
      active, pending, emitted := None, None, 0;
      handed, refused, acknowledged, gaps := [], {}, 0, multiset{};
    }

    method Emit(reply: Reply)
      requires Kept(State())
      modifies this
      ensures State() == Apply(old(State()), Step.Emit(reply)) && Kept(State())
    {
      ghost var before := State();
      ApplyKeeps(before, Step.Emit(reply));
      var alert := emitted;
      emitted := emitted + 1;
      if active.None? {
        Dispatch(alert, reply);
      } else if pending.None? {
        pending := Some(alert);
      } else {
        refused, gaps := refused + {alert}, gaps + multiset{RouteBackpressure};
      }
      assert State() == Apply(before, Step.Emit(reply));
    }

    method Dispatch(alert: nat, reply: Reply)
      requires active.None?
      modifies this
      ensures State() == Dispatched(old(State()), alert, reply)
    {
      handed := handed + [alert];
      match reply {
        case Started => active := Some(Flight(alert, false));
        case Threw => gaps := gaps + multiset{RouteThrow};
      }
    }

    method TimedOut()
      requires Kept(State())
      modifies this
      ensures State() == Apply(old(State()), Timeout) && Kept(State())
    {
      ApplyKeeps(State(), Timeout);
      if active.None? || active.value.timedOut { return; }
      active, gaps := Some(active.value.(timedOut := true)), gaps + multiset{RouteTimeout};
    }

    method Free(settlement: Settlement)
      modifies this
      ensures State() == Freed(old(State()), settlement)
    {
      match settlement {
        case Acknowledged => acknowledged := acknowledged + 1;
        case Unacknowledged => gaps := gaps + multiset{RouteUnacknowledged};
        case Rejected => gaps := gaps + multiset{RouteRejected};
      }
      active := None;
    }

    method Settled(settlement: Settlement, next: Reply)
      requires Kept(State())
      modifies this
      ensures State() == Apply(old(State()), Settle(settlement, next)) && Kept(State())
    {
      ghost var before := State();
      if active.None? { return; }
      Free(settlement);
      if pending.Some? {
        var alert := pending.value;
        pending := None;
        Dispatch(alert, next);
      }
      AppliedKept(before, Settle(settlement, next), State());
    }
  }
}
