/** The session latency histogram shared by the telemetry producer and the rollout judge
    (src/auth-rollout.ts, src/auth-observability.ts), and why its bucketed percentile
    answers the same question as sorting the raw samples. */
module LatencyHistogram {
  import opened Sequences

  // Upper bounds in seconds; one overflow bucket follows the last bound.
  const BOUNDS: seq<real> := [0.001, 0.0025, 0.005, 0.01, 0.02, 0.05, 0.1, 0.25, 0.5, 1.0]
  const BUCKETS: nat := 11
  const SLO_SECONDS: real := 0.02
  // Position of SLO_SECONDS among the bounds.
  const SLO_BOUND: nat := 4
  const MINIMUM_SAMPLES: nat := 100

  type Buckets = b: seq<nat> | |b| == BUCKETS witness seq(BUCKETS, _ => 0)

  /** The bucket an observation lands in. */
  function BucketIndex(value: real): (index: nat)
    ensures index <= |BOUNDS|
    ensures forall i | 0 <= i < index :: BOUNDS[i] < value
    ensures forall i | index <= i < |BOUNDS| :: value <= BOUNDS[i]
  {
    FirstBoundFrom(value, 0)
  }

  function FirstBoundFrom(value: real, from: nat): (index: nat)
    requires from <= |BOUNDS|
    requires forall i | 0 <= i < from :: BOUNDS[i] < value
    ensures from <= index <= |BOUNDS|
    ensures forall i | 0 <= i < index :: BOUNDS[i] < value
    ensures forall i | index <= i < |BOUNDS| :: value <= BOUNDS[i]
    decreases |BOUNDS| - from
  {
    if from == |BOUNDS| || value <= BOUNDS[from] then from else FirstBoundFrom(value, from + 1)
  }

  function Zero(): Buckets {
    seq(BUCKETS, _ => 0)
  }

  function Bump(b: Buckets, i: nat): Buckets
    requires i < BUCKETS
  {
    b[i := b[i] + 1]
  }

  /** What the producer holds after observing `samples` in order. */
  function Histogram(samples: seq<real>): Buckets {
    if samples == [] then Zero()
    else Bump(Histogram(samples[..|samples| - 1]), BucketIndex(samples[|samples| - 1]))
  }

  function Total(b: seq<nat>): nat {
    if b == [] then 0 else Total(b[..|b| - 1]) + b[|b| - 1]
  }

  function Plus(a: Buckets, b: Buckets): Buckets {
    seq(BUCKETS, i requires 0 <= i < BUCKETS => a[i] + b[i])
  }

  function AtMost(bound: real): real -> int {
    x => if x <= bound then 1 else 0
  }

  /** How many samples are at most `bound`. */
  function CountAtMost(samples: seq<real>, bound: real): int {
    SumOver(samples, AtMost(bound))
  }

  /** ceil(0.95 n), in the integer form both files use. */
  function Rank(n: nat): (r: nat)
    ensures 100 * (r - 1) < 95 * n <= 100 * r
    ensures n > 0 ==> 1 <= r <= n
  {
    (n * 95 + 99) / 100
  }

  ghost predicate Sorted(s: seq<real>) {
    forall i, j | 0 <= i < j < |s| :: s[i] <= s[j]
  }

  /** The bucket holding the `rank`-th smallest observation. */
  ghost predicate HoldsRank(b: seq<nat>, rank: nat, bucket: nat) {
    bucket < |b| && Total(b[..bucket]) < rank <= Total(b[..bucket + 1])
  }

  // ----- Totals -----

  lemma {:induction false} TotalAfterUpdate(b: seq<nat>, i: nat, x: nat, k: nat)
    requires i < |b| && k <= |b|
    ensures Total(b[i := x][..k]) == Total(b[..k]) + if i < k then x - b[i] else 0
  {
    var c := b[i := x];
    if k > 0 {
      TotalAfterUpdate(b, i, x, k - 1);
      assert c[..k][..k - 1] == c[..k - 1] && b[..k][..k - 1] == b[..k - 1];
    }
  }

  lemma TotalAfterBump(b: seq<nat>, i: nat, k: nat)
    requires i < |b| && k <= |b|
    ensures Total(b[i := b[i] + 1][..k]) == Total(b[..k]) + if i < k then 1 else 0
  {
    TotalAfterUpdate(b, i, b[i] + 1, k);
  }

  lemma {:induction false} TotalMonotone(b: seq<nat>, i: nat, j: nat)
    requires i <= j <= |b|
    ensures Total(b[..i]) <= Total(b[..j])
  {
    if i < j {
      TotalMonotone(b, i, j - 1);
      assert b[..j][..j - 1] == b[..j - 1];
    }
  }

  lemma {:induction false} TotalOfPlus(a: Buckets, b: Buckets, k: nat)
    requires k <= BUCKETS
    ensures Total(Plus(a, b)[..k]) == Total(a[..k]) + Total(b[..k])
  {
    var c := Plus(a, b);
    if k > 0 {
      TotalOfPlus(a, b, k - 1);
      assert c[..k][..k - 1] == c[..k - 1] && a[..k][..k - 1] == a[..k - 1] && b[..k][..k - 1] == b[..k - 1];
    }
  }

  lemma TotalOfZero(k: nat)
    requires k <= BUCKETS
    ensures Total(Zero()[..k]) == 0
  {
    if k > 0 {
      TotalOfZero(k - 1);
      assert Zero()[..k][..k - 1] == Zero()[..k - 1];
    }
  }

  lemma ZeroTotal()
    ensures Total(Zero()) == 0
  {
    TotalOfZero(BUCKETS);
    assert Zero()[..BUCKETS] == Zero();
  }

  /** HoldsRank names at most one bucket, so every scan that meets it agrees. */
  lemma RankBucketUnique(b: seq<nat>, rank: nat, p: nat, q: nat)
    requires HoldsRank(b, rank, p) && HoldsRank(b, rank, q)
    ensures p == q
  {
    if p < q { TotalMonotone(b, p + 1, q); }
    if q < p { TotalMonotone(b, q + 1, p); }
  }

  // ----- From buckets to samples -----

  lemma {:induction false} HistogramCounts(samples: seq<real>, k: nat)
    requires k < |BOUNDS|
    ensures Total(Histogram(samples)[..k + 1]) == CountAtMost(samples, BOUNDS[k])
  {
    if samples == [] {
      TotalOfZero(k + 1);
    } else {
      var init, last := samples[..|samples| - 1], samples[|samples| - 1];
      HistogramCounts(init, k);
      TotalAfterBump(Histogram(init), BucketIndex(last), k + 1);
    }
  }

  lemma BumpedTotal(b: Buckets, i: nat)
    requires i < BUCKETS
    ensures Total(Bump(b, i)) == Total(b) + 1
  {
    TotalAfterBump(b, i, BUCKETS);
    assert b[..BUCKETS] == b && Bump(b, i)[..BUCKETS] == Bump(b, i);
  }

  lemma {:induction false} HistogramTotal(samples: seq<real>)
    ensures Total(Histogram(samples)) == |samples|
  {
    if samples == [] {
      ZeroTotal();
    } else {
      HistogramTotal(samples[..|samples| - 1]);
      BumpedTotal(Histogram(samples[..|samples| - 1]), BucketIndex(samples[|samples| - 1]));
    }
  }

  lemma {:induction false} CountBounds(s: seq<real>, bound: real)
    ensures 0 <= CountAtMost(s, bound) <= |s|
    ensures (forall i | 0 <= i < |s| :: s[i] <= bound) ==> CountAtMost(s, bound) == |s|
    ensures (forall i | 0 <= i < |s| :: s[i] > bound) ==> CountAtMost(s, bound) == 0
  {
    if s != [] { CountBounds(s[..|s| - 1], bound); }
  }

  lemma CountAround(s: seq<real>, cut: nat, bound: real)
    requires cut <= |s|
    requires (forall i | 0 <= i < cut :: s[i] <= bound) || (forall i | cut <= i < |s| :: s[i] > bound)
    ensures (forall i | 0 <= i < cut :: s[i] <= bound) ==> CountAtMost(s, bound) >= cut
    ensures (forall i | cut <= i < |s| :: s[i] > bound) ==> CountAtMost(s, bound) <= cut
  {
    var low, high := s[..cut], s[cut..];
    SumConcat(low, high, AtMost(bound));
    assert s == low + high;
    CountBounds(low, bound);
    CountBounds(high, bound);
  }

  lemma CountInSorted(s: seq<real>, rank: nat, bound: real)
    requires Sorted(s) && 1 <= rank <= |s|
    ensures rank <= CountAtMost(s, bound) <==> s[rank - 1] <= bound
  {
    CountAround(s, if s[rank - 1] <= bound then rank else rank - 1, bound);
  }

  /** Whatever order the samples came in, the buckets up to `bound` hold `rank` of them
      exactly when the sample of that rank is at most `bound`. */
  lemma PrefixReachesRank(samples: seq<real>, ordered: seq<real>, rank: nat, k: nat)
    requires multiset(samples) == multiset(ordered) && Sorted(ordered)
    requires 1 <= rank <= |ordered| && k < |BOUNDS|
    ensures rank <= Total(Histogram(samples)[..k + 1]) <==> ordered[rank - 1] <= BOUNDS[k]
  {
    HistogramCounts(samples, k);
    SumPermutation(samples, ordered, AtMost(BOUNDS[k]));
    CountInSorted(ordered, rank, BOUNDS[k]);
  }

  /** The bucket that holds a rank is the bucket of the sample of that rank, whatever
      order the samples arrived in. */
  lemma BucketOfRank(samples: seq<real>, ordered: seq<real>, rank: nat)
    requires multiset(samples) == multiset(ordered) && Sorted(ordered)
    requires 1 <= rank <= |ordered|
    ensures HoldsRank(Histogram(samples), rank, BucketIndex(ordered[rank - 1]))
  {
    var bucket := BucketIndex(ordered[rank - 1]);
    RankReached(samples, ordered, rank, bucket);
    RankNotReached(samples, ordered, rank, bucket);
  }

  lemma RankReached(samples: seq<real>, ordered: seq<real>, rank: nat, bucket: nat)
    requires multiset(samples) == multiset(ordered) && Sorted(ordered)
    requires 1 <= rank <= |ordered|
    requires bucket == |BOUNDS| || (bucket < |BOUNDS| && ordered[rank - 1] <= BOUNDS[bucket])
    ensures rank <= Total(Histogram(samples)[..bucket + 1])
  {
    if bucket < |BOUNDS| {
      PrefixReachesRank(samples, ordered, rank, bucket);
    } else {
      PermutationLength(samples, ordered);
      HistogramTotal(samples);
      assert Histogram(samples)[..bucket + 1] == Histogram(samples);
    }
  }

  lemma RankNotReached(samples: seq<real>, ordered: seq<real>, rank: nat, bucket: nat)
    requires multiset(samples) == multiset(ordered) && Sorted(ordered)
    requires 1 <= rank <= |ordered| && bucket <= |BOUNDS|
    requires bucket > 0 ==> BOUNDS[bucket - 1] < ordered[rank - 1]
    ensures Total(Histogram(samples)[..bucket]) < rank
  {
    if bucket > 0 {
      PrefixReachesRank(samples, ordered, rank, bucket - 1);
    }
  }

  /** The scan both files run over the summed buckets: the first bucket whose cumulative
      count reaches the rank, or -1. */
  method FindRankBucket(b: seq<nat>, rank: nat) returns (bucket: int)
    requires rank > 0
    ensures -1 <= bucket < |b|
    ensures bucket >= 0 ==> HoldsRank(b, rank, bucket)
    ensures bucket == -1 <==> Total(b) < rank
  {
    var cumulative := 0;
    bucket := 0;
    while bucket < |b|
      invariant 0 <= bucket <= |b|
      invariant cumulative == Total(b[..bucket]) < rank
    {
      assert b[..bucket + 1][..bucket] == b[..bucket];
      cumulative := cumulative + b[bucket];
      if cumulative >= rank {
        TotalMonotone(b, bucket + 1, |b|);
        assert b[..|b|] == b;
        return;
      }
      bucket := bucket + 1;
    }
    assert b[..|b|] == b;
    bucket := -1;
  }

  lemma AboveSlo(value: real)
    ensures BucketIndex(value) >= SLO_BOUND + 1 <==> value > SLO_SECONDS
  {
    assert BOUNDS[SLO_BOUND] == SLO_SECONDS;
  }

  /** The bucketed latency test fires exactly when the nearest-rank p95 of the sorted
      samples is above 20 ms, because 20 ms is itself a bound. */
  lemma BucketedTestIsExact(samples: seq<real>, ordered: seq<real>, bucket: nat)
    requires multiset(samples) == multiset(ordered) && Sorted(ordered)
    requires 1 <= |ordered| == |samples|
    requires HoldsRank(Histogram(samples), Rank(|samples|), bucket)
    ensures bucket == BucketIndex(ordered[Rank(|samples|) - 1])
    ensures bucket >= SLO_BOUND + 1 <==> ordered[Rank(|samples|) - 1] > SLO_SECONDS
  {
    SameBucket(samples, ordered, Rank(|samples|), bucket);
    AboveSlo(ordered[Rank(|samples|) - 1]);
  }

  lemma SameBucket(samples: seq<real>, ordered: seq<real>, rank: nat, bucket: nat)
    requires multiset(samples) == multiset(ordered) && Sorted(ordered)
    requires 1 <= rank <= |ordered|
    requires HoldsRank(Histogram(samples), rank, bucket)
    ensures bucket == BucketIndex(ordered[rank - 1])
  {
    BucketOfRank(samples, ordered, rank);
    RankBucketUnique(Histogram(samples), rank, bucket, BucketIndex(ordered[rank - 1]));
  }

  // ----- Splitting and merging -----

  lemma {:induction false} HistogramConcat(a: seq<real>, b: seq<real>)
    ensures Histogram(a + b) == Plus(Histogram(a), Histogram(b))
  {
    if b == [] {
      assert a + b == a;
    } else {
      var init, i := b[..|b| - 1], BucketIndex(b[|b| - 1]);
      HistogramConcat(a, init);
      assert (a + b)[..|a + b| - 1] == a + init;
      assert Histogram(a + b) == Bump(Histogram(a + init), i);
      PlusBump(Histogram(a), Histogram(init), i);
    }
  }

  lemma PlusBump(a: Buckets, b: Buckets, i: nat)
    requires i < BUCKETS
    ensures Plus(a, Bump(b, i)) == Bump(Plus(a, b), i)
  {
  }

  function Flatten(parts: seq<seq<real>>): seq<real> {
    if parts == [] then [] else Flatten(parts[..|parts| - 1]) + parts[|parts| - 1]
  }

  function Sum(parts: seq<Buckets>): Buckets {
    if parts == [] then Zero() else Plus(Sum(parts[..|parts| - 1]), parts[|parts| - 1])
  }

  function Histograms(parts: seq<seq<real>>): (hs: seq<Buckets>)
    ensures |hs| == |parts|
  {
    seq(|parts|, i requires 0 <= i < |parts| => Histogram(parts[i]))
  }

  /** However the samples are divided over snapshots and instances, summing the parts'
      buckets gives the histogram of all samples together. */
  lemma {:induction false} SplitInvariance(parts: seq<seq<real>>)
    ensures Sum(Histograms(parts)) == Histogram(Flatten(parts))
  {
    if parts != [] {
      var init := parts[..|parts| - 1];
      SplitInvariance(init);
      assert Histograms(parts)[..|parts| - 1] == Histograms(init);
      HistogramConcat(Flatten(init), parts[|parts| - 1]);
    }
  }

  /** Hence the judge's p95 bucket over any division is the bucket of the
      ceil(0.95 n)-th smallest of all samples. */
  lemma SplitPercentile(parts: seq<seq<real>>, ordered: seq<real>, bucket: nat)
    requires multiset(Flatten(parts)) == multiset(ordered) && Sorted(ordered) && |ordered| >= 1
    requires HoldsRank(Sum(Histograms(parts)), Rank(|ordered|), bucket)
    ensures bucket == BucketIndex(ordered[Rank(|ordered|) - 1])
  {
    SplitInvariance(parts);
    PermutationLength(Flatten(parts), ordered);
    BucketedTestIsExact(Flatten(parts), ordered, bucket);
  }
}
