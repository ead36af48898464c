/** Sums over sequences and the facts about permutations that the models share. */
module Sequences {

  function SumOver<T>(s: seq<T>, weight: T -> int): int {
    if s == [] then 0 else SumOver(s[..|s| - 1], weight) + weight(s[|s| - 1])
  }

  lemma {:induction false} SumConcat<T>(a: seq<T>, b: seq<T>, weight: T -> int)
    ensures SumOver(a + b, weight) == SumOver(a, weight) + SumOver(b, weight)
  {
    if b == [] {
      assert a + b == a;
    } else {
      SumConcat(a, b[..|b| - 1], weight);
      assert (a + b)[..|a + b| - 1] == a + b[..|b| - 1];
    }
  }

  /** Taking one element out of the middle takes its weight off the sum. */
  lemma SumWithout<T>(s: seq<T>, i: nat, weight: T -> int)
    requires i < |s|
    ensures SumOver(s, weight) == SumOver(s[..i] + s[i + 1..], weight) + weight(s[i])
  {
    SumConcat(s[..i], s[i + 1..], weight);
    SumConcat(s[..i + 1], s[i + 1..], weight);
    assert s == s[..i + 1] + s[i + 1..];
    SumNext(s, i, weight);
  }

  lemma SumNext<T>(s: seq<T>, i: nat, weight: T -> int)
    requires i < |s|
    ensures SumOver(s[..i + 1], weight) == SumOver(s[..i], weight) + weight(s[i])
  {
    assert s[..i + 1][..i] == s[..i];
  }

  lemma LastApart<T>(a: seq<T>)
    requires a != []
    ensures multiset(a) == multiset(a[..|a| - 1]) + multiset{a[|a| - 1]}
  {
    assert a == a[..|a| - 1] + [a[|a| - 1]];
  }

  lemma OneApart<T>(b: seq<T>, i: nat)
    requires i < |b|
    ensures multiset(b) == multiset(b[..i] + b[i + 1..]) + multiset{b[i]}
  {
    assert b == b[..i] + [b[i]] + b[i + 1..];
  }

  lemma CancelOne<T>(p: multiset<T>, q: multiset<T>, x: T)
    requires p + multiset{x} == q + multiset{x}
    ensures p == q
  {
    forall y ensures p[y] == q[y] {
      assert (p + multiset{x})[y] == (q + multiset{x})[y];
    }
  }

  lemma PermutationWithoutLast<T>(a: seq<T>, b: seq<T>) returns (i: nat)
    requires a != [] && multiset(a) == multiset(b)
    ensures i < |b| && b[i] == a[|a| - 1]
    ensures multiset(a[..|a| - 1]) == multiset(b[..i] + b[i + 1..])
  {
    var init, x := a[..|a| - 1], a[|a| - 1];
    assert x in multiset(a);
    i :| 0 <= i < |b| && b[i] == x;
    LastApart(a);
    OneApart(b, i);
    CancelOne(multiset(init), multiset(b[..i] + b[i + 1..]), x);
  }

  lemma {:induction false} SumPermutation<T>(a: seq<T>, b: seq<T>, weight: T -> int)
    requires multiset(a) == multiset(b)
    ensures SumOver(a, weight) == SumOver(b, weight)
    decreases |a|
  {
    if a == [] {
      assert |b| == |multiset(b)| == 0;
    } else {
      var i := PermutationWithoutLast(a, b);
      SumPermutation(a[..|a| - 1], b[..i] + b[i + 1..], weight);
      SumWithout(b, i, weight);
    }
  }

  lemma PermutationLength<T>(a: seq<T>, b: seq<T>)
    requires multiset(a) == multiset(b)
    ensures |a| == |b|
  {
    assert |multiset(a)| == |a| && |multiset(b)| == |b|;
  }

  lemma PermutationMembers<T>(a: seq<T>, b: seq<T>)
    requires multiset(a) == multiset(b)
    ensures forall x | x in a :: x in b
    ensures forall x | x in b :: x in a
  {
    forall x | x in a ensures x in b { assert x in multiset(a); }
    forall x | x in b ensures x in a { assert x in multiset(b); }
  }

  /** A nonnegative weight keeps every prefix below the whole. */
  lemma {:induction false} SumPrefix<T>(s: seq<T>, k: nat, weight: T -> int)
    requires k <= |s| && forall x | x in s :: weight(x) >= 0
    ensures 0 <= SumOver(s[..k], weight) <= SumOver(s, weight)
  {
    if s == [] {
    } else if k == |s| {
      SumPrefix(s[..|s| - 1], |s| - 1, weight);
      assert s[..k] == s && s[..|s| - 1][..|s| - 1] == s[..|s| - 1];
    } else {
      SumPrefix(s[..|s| - 1], k, weight);
      assert s[..|s| - 1][..k] == s[..k];
      assert s[|s| - 1] in s;
    }
  }
}

/** The stable sort and order-preserving filter of the source language's arrays, as functions. */
module Sorting {
  import opened Sequences

  ghost predicate SortedBy<T(!new)>(s: seq<T>, leq: (T, T) -> bool) {
    forall i, j | 0 <= i < j < |s| :: leq(s[i], s[j])
  }

  ghost predicate TotalPreorder<T(!new)>(leq: (T, T) -> bool) {
    && (forall x, y :: leq(x, y) || leq(y, x))
    && (forall x, y, z :: leq(x, y) && leq(y, z) ==> leq(x, z))
  }

  ghost predicate TotalOrder<T(!new)>(leq: (T, T) -> bool) {
    && TotalPreorder(leq)
    && (forall x, y :: leq(x, y) && leq(y, x) ==> x == y)
  }

  /** Puts `x`, which came last, behind everything not greater than it. */
  function Insert<T>(s: seq<T>, x: T, leq: (T, T) -> bool): seq<T> {
    if s == [] || leq(s[|s| - 1], x) then s + [x]
    else Insert(s[..|s| - 1], x, leq) + [s[|s| - 1]]
  }

  function StableSort<T>(s: seq<T>, leq: (T, T) -> bool): seq<T> {
    if s == [] then [] else Insert(StableSort(s[..|s| - 1], leq), s[|s| - 1], leq)
  }

  function Filter<T>(s: seq<T>, keep: T -> bool): seq<T> {
    if s == [] then []
    else if keep(s[|s| - 1]) then Filter(s[..|s| - 1], keep) + [s[|s| - 1]]
    else Filter(s[..|s| - 1], keep)
  }

  function Map<T, U>(s: seq<T>, f: T -> U): (r: seq<U>)
    ensures |r| == |s|
    ensures forall i | 0 <= i < |s| :: r[i] == f(s[i])
  {
    seq(|s|, i requires 0 <= i < |s| => f(s[i]))
  }

  // ----- Insertion and sorting -----

  lemma {:induction false} InsertPermutes<T>(s: seq<T>, x: T, leq: (T, T) -> bool)
    ensures multiset(Insert(s, x, leq)) == multiset(s) + multiset{x}
  {
    if s == [] || leq(s[|s| - 1], x) {
    } else {
      InsertPermutes(s[..|s| - 1], x, leq);
      assert s == s[..|s| - 1] + [s[|s| - 1]];
    }
  }

  lemma {:induction false} SortPermutes<T>(s: seq<T>, leq: (T, T) -> bool)
    ensures multiset(StableSort(s, leq)) == multiset(s)
  {
    if s != [] {
      SortPermutes(s[..|s| - 1], leq);
      InsertPermutes(StableSort(s[..|s| - 1], leq), s[|s| - 1], leq);
      assert s == s[..|s| - 1] + [s[|s| - 1]];
    }
  }

  lemma {:induction false} InsertSorted<T(!new)>(s: seq<T>, x: T, leq: (T, T) -> bool)
    requires TotalPreorder(leq) && SortedBy(s, leq)
    ensures SortedBy(Insert(s, x, leq), leq)
  {
    if s == [] || leq(s[|s| - 1], x) {
    } else {
      var init, last := s[..|s| - 1], s[|s| - 1];
      InsertSorted(init, x, leq);
      InsertPermutes(init, x, leq);
      var r := Insert(init, x, leq);
      forall i | 0 <= i < |r| ensures leq(r[i], last) {
        assert r[i] in multiset(r);
        assert r[i] == x || r[i] in init;
      }
    }
  }

  lemma {:induction false} SortSorts<T(!new)>(s: seq<T>, leq: (T, T) -> bool)
    requires TotalPreorder(leq)
    ensures SortedBy(StableSort(s, leq), leq)
  {
    if s != [] {
      SortSorts(s[..|s| - 1], leq);
      InsertSorted(StableSort(s[..|s| - 1], leq), s[|s| - 1], leq);
    }
  }

  /** Stability: inserting an element that comes after everything in `s` under `first`
      keeps `s` sorted by `fine`, when `fine` is `leq` with ties broken by `first`. */
  lemma {:induction false} InsertStable<T(!new)>(s: seq<T>, x: T, first: (T, T) -> bool, leq: (T, T) -> bool, fine: (T, T) -> bool)
    requires TotalPreorder(leq) && TotalPreorder(fine) && SortedBy(s, fine)
    requires forall a, b :: leq(a, b) && first(a, b) ==> fine(a, b)
    requires forall a, b :: !leq(a, b) ==> fine(b, a)
    requires forall i | 0 <= i < |s| :: first(s[i], x)
    requires forall a, b :: fine(a, b) ==> leq(a, b)
    ensures SortedBy(Insert(s, x, leq), fine)
  {
    if s == [] {
    } else if leq(s[|s| - 1], x) {
      forall i | 0 <= i < |s| ensures fine(s[i], x) {
        assert fine(s[|s| - 1], x);
        assert i < |s| - 1 ==> fine(s[i], s[|s| - 1]);
      }
    } else {
      var init, last := s[..|s| - 1], s[|s| - 1];
      InsertStable(init, x, first, leq, fine);
      InsertPermutes(init, x, leq);
      var r := Insert(init, x, leq);
      forall i | 0 <= i < |r| ensures fine(r[i], last) {
        assert r[i] in multiset(r);
        assert r[i] == x || r[i] in init;
      }
    }
  }

  lemma {:induction false} SortStable<T(!new)>(s: seq<T>, first: (T, T) -> bool, leq: (T, T) -> bool, fine: (T, T) -> bool)
    requires TotalPreorder(leq) && TotalPreorder(fine) && SortedBy(s, first)
    requires forall a, b :: leq(a, b) && first(a, b) ==> fine(a, b)
    requires forall a, b :: !leq(a, b) ==> fine(b, a)
    requires forall a, b :: fine(a, b) ==> leq(a, b)
    ensures SortedBy(StableSort(s, leq), fine)
  {
    if s != [] {
      var init, last := s[..|s| - 1], s[|s| - 1];
      SortStable(init, first, leq, fine);
      SortPermutes(init, leq);
      var r := StableSort(init, leq);
      forall i | 0 <= i < |r| ensures first(r[i], last) {
        assert r[i] in multiset(r);
        assert r[i] in init;
      }
      InsertStable(r, last, first, leq, fine);
    }
  }

  lemma GreatestLast<T(!new)>(a: seq<T>, b: seq<T>, leq: (T, T) -> bool)
    requires TotalOrder(leq) && SortedBy(a, leq) && SortedBy(b, leq)
    requires |a| == |b| > 0 && multiset(a) == multiset(b)
    ensures a[|a| - 1] == b[|b| - 1]
  {
    var x, y := a[|a| - 1], b[|b| - 1];
    PermutationMembers(a, b);
    assert x in b by { assert x in a; }
    assert y in a by { assert y in b; }
    assert leq(x, y) && leq(y, x);
  }

  /** A total order leaves no choice: sorted permutations of each other are equal. */
  lemma {:induction false} SortedUnique<T(!new)>(a: seq<T>, b: seq<T>, leq: (T, T) -> bool)
    requires TotalOrder(leq) && SortedBy(a, leq) && SortedBy(b, leq)
    requires multiset(a) == multiset(b)
    ensures a == b
    decreases |a|
  {
    PermutationLength(a, b);
    if a != [] {
      GreatestLast(a, b, leq);
      DropLast(a, b);
      SortedUnique(a[..|a| - 1], b[..|b| - 1], leq);
    }
  }

  lemma DropLast<T>(a: seq<T>, b: seq<T>)
    requires |a| == |b| > 0 && multiset(a) == multiset(b) && a[|a| - 1] == b[|b| - 1]
    ensures multiset(a[..|a| - 1]) == multiset(b[..|b| - 1])
  {
    assert a == a[..|a| - 1] + [a[|a| - 1]] && b == b[..|b| - 1] + [b[|b| - 1]];
    assert multiset(a[..|a| - 1]) == multiset(a) - multiset{a[|a| - 1]};
    assert multiset(b[..|b| - 1]) == multiset(b) - multiset{b[|b| - 1]};
  }

  // ----- Filters and maps -----

  lemma {:induction false} FilterCounts<T>(s: seq<T>, keep: T -> bool, x: T)
    ensures multiset(Filter(s, keep))[x] == if keep(x) then multiset(s)[x] else 0
  {
    if s != [] {
      FilterCounts(s[..|s| - 1], keep, x);
      assert s == s[..|s| - 1] + [s[|s| - 1]];
    }
  }

  lemma FilterMembers<T>(s: seq<T>, keep: T -> bool, x: T)
    ensures x in Filter(s, keep) <==> x in s && keep(x)
  {
    FilterCounts(s, keep, x);
    assert x in Filter(s, keep) <==> x in multiset(Filter(s, keep));
    assert x in s <==> x in multiset(s);
  }

  lemma FilterPermutation<T(!new)>(a: seq<T>, b: seq<T>, keep: T -> bool)
    requires multiset(a) == multiset(b)
    ensures multiset(Filter(a, keep)) == multiset(Filter(b, keep))
  {
    forall x ensures multiset(Filter(a, keep))[x] == multiset(Filter(b, keep))[x] {
      FilterCounts(a, keep, x);
      FilterCounts(b, keep, x);
    }
  }

  lemma {:induction false} FilterSorted<T(!new)>(s: seq<T>, keep: T -> bool, leq: (T, T) -> bool)
    requires SortedBy(s, leq)
    ensures SortedBy(Filter(s, keep), leq)
  {
    if s != [] {
      var init, last := s[..|s| - 1], s[|s| - 1];
      FilterSorted(init, keep, leq);
      var r := Filter(init, keep);
      forall i | 0 <= i < |r| ensures leq(r[i], last) {
        FilterMembers(init, keep, r[i]);
      }
    }
  }

  lemma {:induction false} FilterAll<T>(s: seq<T>, keep: T -> bool)
    requires forall x | x in s :: keep(x)
    ensures Filter(s, keep) == s
  {
    if s != [] {
      assert forall x | x in s[..|s| - 1] :: x in s;
      FilterAll(s[..|s| - 1], keep);
      assert s[|s| - 1] in s;
    }
  }

  lemma {:induction false} MapPermutation<T, U>(a: seq<T>, b: seq<T>, f: T -> U)
    requires multiset(a) == multiset(b)
    ensures multiset(Map(a, f)) == multiset(Map(b, f))
    decreases |a|
  {
    PermutationLength(a, b);
    if a == [] {
      assert Map(a, f) == Map(b, f) == [];
    } else {
      var i := PermutationWithoutLast(a, b);
      MapPermutation(a[..|a| - 1], b[..i] + b[i + 1..], f);
      assert Map(a, f) == Map(a[..|a| - 1], f) + [f(a[|a| - 1])];
      assert Map(b[..i] + b[i + 1..], f) == Map(b[..i], f) + Map(b[i + 1..], f);
      assert Map(b, f) == Map(b[..i], f) + [f(b[i])] + Map(b[i + 1..], f);
    }
  }
}
