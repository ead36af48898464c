/** How `flush` turns two untrusted clocks into a chain of intervals
    (src/auth-observability.ts, lines 555-567 and 598-601). */
module ClockChain {

  /** A clock reading; NonFinite is NaN or an infinity. Milliseconds, possibly fractional. */
  datatype Reading = Finite(ms: real) | NonFinite

  datatype Clocks = Clocks(intervalStart: real, monotonicStart: real)

  predicate Anomalous(c: Clocks, wall: Reading, monotonic: Reading) {
    wall.NonFinite? || monotonic.NonFinite? || monotonic.ms - c.monotonicStart <= 0.0
  }

  function SafeElapsed(c: Clocks, monotonic: Reading): (elapsed: real)
    ensures elapsed > 0.0
  {
    if monotonic.Finite? && monotonic.ms - c.monotonicStart > 0.0 then monotonic.ms - c.monotonicStart else 1.0
  }

  function Abs(x: real): real {
    if x < 0.0 then -x else x
  }

  predicate Drifted(c: Clocks, wall: Reading, monotonic: Reading, maxDrift: real) {
    wall.Finite? && Abs(wall.ms - c.intervalStart - SafeElapsed(c, monotonic)) > maxDrift
  }

  /** The wall clock is believed only when it moved forward and agrees with the monotonic one. */
  predicate WallTrusted(c: Clocks, wall: Reading, monotonic: Reading, maxDrift: real) {
    wall.Finite? && wall.ms - c.intervalStart > 0.0 && !Drifted(c, wall, monotonic, maxDrift)
  }

  function Advance(c: Clocks, wall: Reading, monotonic: Reading, maxDrift: real): Clocks {
    Clocks(
      if WallTrusted(c, wall, monotonic, maxDrift) then wall.ms
      else c.intervalStart + SafeElapsed(c, monotonic),
      if monotonic.Finite? then monotonic.ms else c.monotonicStart + SafeElapsed(c, monotonic))
  }

  /** Whatever the clocks read, an interval has positive length and stays within the drift
      bound of the monotonic clock. */
  lemma IntervalBounds(c: Clocks, wall: Reading, monotonic: Reading, maxDrift: real)
    requires maxDrift >= 0.0
    ensures var length := Advance(c, wall, monotonic, maxDrift).intervalStart - c.intervalStart;
            length > 0.0 && Abs(length - SafeElapsed(c, monotonic)) <= maxDrift
  {
  }

  datatype Tick = Tick(wall: Reading, monotonic: Reading)

  function Ticked(c: Clocks, ticks: seq<Tick>, maxDrift: real): Clocks {
    if ticks == [] then c
    else
      var before := Ticked(c, ticks[..|ticks| - 1], maxDrift);
      Advance(before, ticks[|ticks| - 1].wall, ticks[|ticks| - 1].monotonic, maxDrift)
  }

  function Elapsed(c: Clocks, ticks: seq<Tick>, maxDrift: real): real {
    if ticks == [] then 0.0
    else Elapsed(c, ticks[..|ticks| - 1], maxDrift)
         + SafeElapsed(Ticked(c, ticks[..|ticks| - 1], maxDrift), ticks[|ticks| - 1].monotonic)
  }

  /** The sum of n times the same. */
  function Repeated(n: nat, d: real): (r: real)
    ensures r == n as real * d
  {
    if n == 0 then 0.0 else Repeated(n - 1, d) + d
  }

  lemma Triangle(x: real, a: real, y: real, b: real)
    requires Abs(x) <= a && Abs(y) <= b
    ensures Abs(x + y) <= a + b
  {
  }

  /** Over any run of n flushes the interval chain deviates from safe monotonic time by at
      most n drift bounds, and it only moves forward. */
  lemma {:induction false} ChainDeviation(c: Clocks, ticks: seq<Tick>, maxDrift: real)
    requires maxDrift >= 0.0
    ensures Abs(Ticked(c, ticks, maxDrift).intervalStart - c.intervalStart - Elapsed(c, ticks, maxDrift))
            <= Repeated(|ticks|, maxDrift)
    ensures ticks != [] ==> Ticked(c, ticks, maxDrift).intervalStart > c.intervalStart
  {
    if ticks != [] {
      var init, last := ticks[..|ticks| - 1], ticks[|ticks| - 1];
      ChainDeviation(c, init, maxDrift);
      var before := Ticked(c, init, maxDrift);
      IntervalBounds(before, last.wall, last.monotonic, maxDrift);
      Triangle(before.intervalStart - c.intervalStart - Elapsed(c, init, maxDrift), Repeated(|init|, maxDrift),
               Ticked(c, ticks, maxDrift).intervalStart - before.intervalStart - SafeElapsed(before, last.monotonic),
               maxDrift);
    }
  }

  /** Instants are printed with whole milliseconds; the fraction is cut off. */
  function Printed(t: real): int {
    if t >= 0.0 then t.Floor else -((-t).Floor)
  }

  /** The printed interval, unlike the real one, can be empty. When the wall clock is not
      believed that happens exactly if less than the rest of the current millisecond has
      elapsed; in particular never with whole-millisecond clocks. */
  lemma PrintedLength(c: Clocks, wall: Reading, monotonic: Reading, maxDrift: real)
    requires c.intervalStart >= 0.0 && maxDrift >= 0.0
    requires !WallTrusted(c, wall, monotonic, maxDrift)
    ensures Printed(c.intervalStart) == Printed(Advance(c, wall, monotonic, maxDrift).intervalStart) <==>
            SafeElapsed(c, monotonic) < 1.0 - (c.intervalStart - c.intervalStart.Floor as real)
  {
    var elapsed := SafeElapsed(c, monotonic);
    var end := c.intervalStart + elapsed;
    assert Advance(c, wall, monotonic, maxDrift).intervalStart == end;
  }

  lemma PrintedLengthTrusted(c: Clocks, wall: Reading, monotonic: Reading, maxDrift: real)
    requires c.intervalStart >= 0.0 && maxDrift >= 0.0
    requires WallTrusted(c, wall, monotonic, maxDrift)
    ensures Printed(c.intervalStart) == Printed(Advance(c, wall, monotonic, maxDrift).intervalStart) <==>
            wall.ms < c.intervalStart.Floor as real + 1.0
  {
  }

  lemma WholeMilliseconds(c: Clocks, wall: Reading, monotonic: Reading, maxDrift: real)
    requires c.intervalStart >= 0.0 && maxDrift >= 0.0
    requires c.intervalStart == c.intervalStart.Floor as real
    requires wall.Finite? ==> wall.ms == wall.ms.Floor as real
    requires SafeElapsed(c, monotonic) == SafeElapsed(c, monotonic).Floor as real
    ensures Printed(c.intervalStart) < Printed(Advance(c, wall, monotonic, maxDrift).intervalStart)
  {
  }

  /** Half a millisecond after the last flush, with the wall clock unmoved, the printed
      interval is empty although the interval itself is not. */
  lemma EmptyPrintedInterval()
    ensures var c := Clocks(1000.0, 0.0);
            var next := Advance(c, Finite(1000.0), Finite(0.5), 5000.0).intervalStart;
            next > c.intervalStart && Printed(next) == Printed(c.intervalStart)
  {
    assert (1000.5).Floor == 1000;
  }
}
