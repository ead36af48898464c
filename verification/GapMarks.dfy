/** The gap counts of the telemetry producer (src/auth-observability.ts, lines 450-475): what marking,
    restoring and attaching do to them, code by code. */
module GapMarks {
  import opened OrderedMaps
  import opened RolloutContract
  import opened Sorting

  type Gaps = OrderedMap<GapCode, int>

  ghost predicate GapsOk(g: Gaps) {
    Unique(g) && forall i | 0 <= i < |g| :: 0 < g[i].1 <= MAX_SAFE
  }

  predicate Over(left: int, right: int) {
    left + right > MAX_SAFE
  }

  // ----- Marking -----

  /** markGap. */
  function Marked(g: Gaps, code: GapCode): Gaps {
    var n := Get(g, code, 0);
    Put(g, code, if n == MAX_SAFE then n else n + 1)
  }

  function MarkedTimes(g: Gaps, code: GapCode, n: nat): Gaps {
    if n == 0 then g else Marked(MarkedTimes(g, code, n - 1), code)
  }

  // ----- Restoring -----

  /** One count added to the map; a sum that is cut off is marked before it is stored. */
  function AddedGap(g: Gaps, code: GapCode, count: int): Gaps {
    if Over(Get(g, code, 0), count) then Put(Marked(g, NumericSaturation), code, MAX_SAFE)
    else Put(g, code, Get(g, code, 0) + count)
  }

  /** restoreSnapshotGaps. */
  function Restored(g: Gaps, gaps: seq<Gap>): Gaps {
    if gaps == [] then g
    else
      var last := gaps[|gaps| - 1];
      AddedGap(Restored(g, gaps[..|gaps| - 1]), last.code, last.count)
  }

  /** How many of its sums were cut off. */
  function RestoreCuts(g: Gaps, gaps: seq<Gap>): nat {
    if gaps == [] then 0
    else
      var init, last := gaps[..|gaps| - 1], gaps[|gaps| - 1];
      RestoreCuts(g, init) + if Over(Get(Restored(g, init), last.code, 0), last.count) then 1 else 0
  }

  // ----- Attaching -----

  function FromGaps(gaps: seq<Gap>): Gaps {
    Map(gaps, (g: Gap) => (g.code, g.count))
  }

  function ToGap(): ((GapCode, int)) -> Gap {
    (p: (GapCode, int)) => Gap(p.0, p.1)
  }

  datatype Merge = Merge(merged: Gaps, cuts: nat)

  /** How long the map can get when only saturation is marked. */
  function Room(g: Gaps): nat {
    |g| + if Find(g, NumericSaturation) == |g| then 1 else 0
  }

  lemma MarkingKeepsRoom(g: Gaps)
    ensures Room(Marked(g, NumericSaturation)) == Room(g) && |Marked(g, NumericSaturation)| >= |g|
  {
    var n := Get(g, NumericSaturation, 0);
    PutFound(g, NumericSaturation, if n == MAX_SAFE then n else n + 1);
  }

  /** The loop of attachCurrentGaps from entry `i` on: it follows the live map, to which a sum that
      is cut off adds a mark. */
  function Merging(g: Gaps, merged: Gaps, i: nat): Merge
    requires i <= |g|
    decreases Room(g) - i
  {
    if i == |g| then Merge(merged, 0)
    else
      var (code, count) := g[i];
      if Over(Get(merged, code, 0), count) then
        MarkingKeepsRoom(g);
        var rest := Merging(Marked(g, NumericSaturation), Put(merged, code, MAX_SAFE), i + 1);
        Merge(rest.merged, rest.cuts + 1)
      else Merging(g, Put(merged, code, Get(merged, code, 0) + count), i + 1)
  }

  /** A snapshot with its gaps replaced. */
  function WithGaps(s: Snapshot, g: Gaps): Snapshot {
    s.(gaps := Map(g, ToGap()), healthy := g == [])
  }

  /** attachCurrentGaps. */
  function Attached(s: Snapshot, g: Gaps): Snapshot {
    if g == [] then s else WithGaps(s, Merging(g, FromGaps(s.gaps), 0).merged)
  }

  function AttachCuts(s: Snapshot, g: Gaps): nat {
    if g == [] then 0 else Merging(g, FromGaps(s.gaps), 0).cuts
  }

  // ----- Counting by code -----

  function Times(code: GapCode, n: nat): multiset<GapCode> {
    multiset{}[code := n]
  }

  /** The map as a bag of marks. */
  function Bag(g: Gaps): multiset<GapCode> {
    if g == [] then multiset{}
    else
      var (code, n) := g[|g| - 1];
      Bag(g[..|g| - 1])[code := if n < 0 then 0 else n]
  }

  lemma {:induction false} BagCounts(g: Gaps, code: GapCode)
    requires GapsOk(g)
    ensures Bag(g)[code] == Get(g, code, 0)
  {
    if g != [] { BagCounts(g[..|g| - 1], code); }
  }

  lemma WithinBag(g: Gaps, code: GapCode)
    requires GapsOk(g)
    ensures 0 <= Get(g, code, 0) <= |Bag(g)|
  {
    BagCounts(g, code);
    var rest := Bag(g)[code := 0];
    assert Bag(g) == rest + Times(code, Bag(g)[code]);
  }

  /** One count raised is so many marks more. */
  lemma PutBag(g: Gaps, code: GapCode, n: nat)
    requires GapsOk(g) && 0 < Get(g, code, 0) + n <= MAX_SAFE
    ensures GapsOk(Put(g, code, Get(g, code, 0) + n))
    ensures Bag(Put(g, code, Get(g, code, 0) + n)) == Bag(g) + Times(code, n)
    ensures |Bag(Put(g, code, Get(g, code, 0) + n))| == |Bag(g)| + n
  {
    var after := Put(g, code, Get(g, code, 0) + n);
    PutOk(g, code, Get(g, code, 0) + n);
    forall c ensures Bag(after)[c] == (Bag(g) + Times(code, n))[c] {
      BagCounts(g, c);
      BagCounts(after, c);
      GetPut(g, code, Get(g, code, 0) + n, c, 0);
    }
  }

  lemma PutOk(g: Gaps, code: GapCode, n: int)
    requires GapsOk(g) && 0 < n <= MAX_SAFE
    ensures GapsOk(Put(g, code, n))
  {
    PutUnique(g, code, n);
  }

  lemma MarkedOk(g: Gaps, code: GapCode)
    requires GapsOk(g)
    ensures GapsOk(Marked(g, code)) && Marked(g, code) != []
  {
    GetInRange(g, code);
    var n := Get(g, code, 0);
    PutOk(g, code, if n == MAX_SAFE then n else n + 1);
  }

  lemma MarkedBag(g: Gaps, code: GapCode)
    requires GapsOk(g) && |Bag(g)| < MAX_SAFE
    ensures Bag(Marked(g, code)) == Bag(g) + multiset{code}
  {
    WithinBag(g, code);
    RoomToMark(g, code);
    PutBag(g, code, 1);
    Once(code);
  }

  lemma RoomToMark(g: Gaps, code: GapCode)
    requires Get(g, code, 0) != MAX_SAFE
    ensures Marked(g, code) == Put(g, code, Get(g, code, 0) + 1)
  {
  }

  lemma Once(code: GapCode)
    ensures Times(code, 1) == multiset{code}
  {
  }

  lemma Cancel(x: multiset<GapCode>, y: multiset<GapCode>, z: multiset<GapCode>, w: multiset<GapCode>, t: multiset<GapCode>)
    requires x + (y + t) == z + t + w
    ensures x + y == z + w
  {
    forall c ensures (x + y)[c] == (z + w)[c] {
      assert (x + (y + t))[c] == (z + t + w)[c];
    }
  }

  lemma GetInRange(g: Gaps, code: GapCode)
    requires GapsOk(g)
    ensures 0 <= Get(g, code, 0) <= MAX_SAFE
  {
  }

  lemma {:induction false} MarkedTimesOk(g: Gaps, code: GapCode, n: nat)
    requires GapsOk(g)
    ensures GapsOk(MarkedTimes(g, code, n)) && (n > 0 || g != [] ==> MarkedTimes(g, code, n) != [])
    ensures |Bag(g)| + n <= MAX_SAFE ==> Bag(MarkedTimes(g, code, n)) == Bag(g) + Times(code, n)
  {
    if n > 0 {
      MarkedTimesOk(g, code, n - 1);
      MarkedOk(MarkedTimes(g, code, n - 1), code);
      assert Times(code, n - 1) + multiset{code} == Times(code, n);
      if |Bag(g)| + n <= MAX_SAFE {
        assert |Bag(g) + Times(code, n - 1)| < MAX_SAFE;
        MarkedBag(MarkedTimes(g, code, n - 1), code);
      }
    }
  }

  lemma AddedOk(g: Gaps, code: GapCode, count: int)
    requires GapsOk(g) && 0 < count <= MAX_SAFE
    ensures GapsOk(AddedGap(g, code, count)) && AddedGap(g, code, count) != []
    ensures |Bag(g)| + count <= MAX_SAFE ==>
              !Over(Get(g, code, 0), count) && Bag(AddedGap(g, code, count)) == Bag(g) + Times(code, count)
  {
    WithinBag(g, code);
    if Over(Get(g, code, 0), count) {
      MarkedOk(g, NumericSaturation);
      PutOk(Marked(g, NumericSaturation), code, MAX_SAFE);
    } else {
      PutBag(g, code, count);
    }
  }

  ghost predicate CarriesGaps(s: Snapshot) {
    GapsOk(FromGaps(s.gaps)) && (s.healthy <==> s.gaps == [])
  }

  lemma BagPrefix(g: Gaps, k: nat)
    requires GapsOk(g) && k < |g|
    ensures GapsOk(g[..k]) && Bag(g[..k + 1]) == Bag(g[..k]) + Times(g[k].0, g[k].1)
    ensures |Bag(g[..k + 1])| == |Bag(g[..k])| + g[k].1
  {
    assert g[..k + 1][..k] == g[..k];
    BagCounts(g[..k], g[k].0);
    assert Find(g[..k], g[k].0) == k;
    assert Bag(g[..k + 1]) == Bag(g[..k]) + Times(g[k].0, g[k].1);
  }

  lemma {:induction false} BagGrows(g: Gaps, k: nat)
    requires GapsOk(g) && k <= |g|
    ensures |Bag(g[..k])| <= |Bag(g)|
    decreases |g| - k
  {
    if k < |g| {
      BagPrefix(g, k);
      BagGrows(g, k + 1);
    } else {
      assert g[..k] == g;
    }
  }

  /** Restoring gives back every mark, code by code; nothing is cut off as long as the marks
      together are a safe integer. */
  lemma {:induction false} RestoredExact(g: Gaps, gaps: seq<Gap>)
    requires GapsOk(g) && GapsOk(FromGaps(gaps))
    ensures GapsOk(Restored(g, gaps)) && (g != [] || gaps != [] ==> Restored(g, gaps) != [])
    ensures |Bag(g)| + |Bag(FromGaps(gaps))| <= MAX_SAFE ==>
              RestoreCuts(g, gaps) == 0 && Bag(Restored(g, gaps)) == Bag(g) + Bag(FromGaps(gaps))
  {
    if gaps != [] {
      var k := |gaps| - 1;
      var all := FromGaps(gaps);
      assert FromGaps(gaps[..k]) == all[..k];
      BagPrefix(all, k);
      assert all[..k + 1] == all;
      RestoredExact(g, gaps[..k]);
      AddedOk(Restored(g, gaps[..k]), gaps[k].code, gaps[k].count);
    }
  }

  lemma {:induction false} MergingOk(g: Gaps, merged: Gaps, i: nat)
    requires GapsOk(g) && GapsOk(merged) && i <= |g|
    ensures GapsOk(Merging(g, merged, i).merged)
    ensures i < |g| || merged != [] ==> Merging(g, merged, i).merged != []
    decreases Room(g) - i
  {
    if i < |g| {
      var (code, count) := g[i];
      GetInRange(merged, code);
      if Over(Get(merged, code, 0), count) {
        MarkingKeepsRoom(g);
        MarkedOk(g, NumericSaturation);
        PutOk(merged, code, MAX_SAFE);
        MergingOk(Marked(g, NumericSaturation), Put(merged, code, MAX_SAFE), i + 1);
      } else {
        PutOk(merged, code, Get(merged, code, 0) + count);
        MergingOk(g, Put(merged, code, Get(merged, code, 0) + count), i + 1);
      }
    }
  }

  lemma UncutMerge(g: Gaps, merged: Gaps, i: nat)
    requires i < |g| && !Over(Get(merged, g[i].0, 0), g[i].1)
    ensures Merging(g, merged, i) == Merging(g, Put(merged, g[i].0, Get(merged, g[i].0, 0) + g[i].1), i + 1)
  {
  }

  lemma CutMerge(g: Gaps, merged: Gaps, i: nat)
    requires i < |g| && Over(Get(merged, g[i].0, 0), g[i].1)
    ensures Room(Marked(g, NumericSaturation)) == Room(g) && |Marked(g, NumericSaturation)| >= |g|
    ensures var rest := Merging(Marked(g, NumericSaturation), Put(merged, g[i].0, MAX_SAFE), i + 1);
            Merging(g, merged, i) == Merge(rest.merged, rest.cuts + 1)
  {
    MarkingKeepsRoom(g);
  }

  /** The next entry merges without a cut while all marks together are a safe number. */
  lemma MergedWithin(g: Gaps, merged: Gaps, i: nat)
    requires GapsOk(g) && GapsOk(merged) && i < |g|
    requires |Bag(merged)| + |Bag(g)| - |Bag(g[..i])| <= MAX_SAFE
    ensures var next := Put(merged, g[i].0, Get(merged, g[i].0, 0) + g[i].1);
            && !Over(Get(merged, g[i].0, 0), g[i].1) && GapsOk(next)
            && Bag(next) == Bag(merged) + Times(g[i].0, g[i].1) && Bag(g[..i + 1]) == Bag(g[..i]) + Times(g[i].0, g[i].1)
            && |Bag(next)| + |Bag(g)| - |Bag(g[..i + 1])| <= MAX_SAFE
  {
    BagPrefix(g, i);
    BagGrows(g, i + 1);
    WithinBag(merged, g[i].0);
    PutBag(merged, g[i].0, g[i].1);
  }

  /** The merge from entry `i` on loses nothing. */
  ghost predicate MergesAll(g: Gaps, merged: Gaps, i: nat)
    requires i <= |g|
  {
    var r := Merging(g, merged, i);
    r.cuts == 0 && Bag(r.merged) + Bag(g[..i]) == Bag(merged) + Bag(g)
  }

  lemma MergeLast(g: Gaps, merged: Gaps)
    ensures MergesAll(g, merged, |g|)
  {
    assert g[..|g|] == g;
  }

  lemma MergeNext(g: Gaps, merged: Gaps, i: nat, next: Gaps)
    requires i < |g| && g[i].1 >= 0 && !Over(Get(merged, g[i].0, 0), g[i].1)
    requires next == Put(merged, g[i].0, Get(merged, g[i].0, 0) + g[i].1) && MergesAll(g, next, i + 1)
    requires Bag(next) == Bag(merged) + Times(g[i].0, g[i].1) && Bag(g[..i + 1]) == Bag(g[..i]) + Times(g[i].0, g[i].1)
    ensures MergesAll(g, merged, i)
  {
    UncutMerge(g, merged, i);
    Cancel(Bag(Merging(g, next, i + 1).merged), Bag(g[..i]), Bag(merged), Bag(g), Times(g[i].0, g[i].1));
  }

  /** So does attaching. */
  lemma {:induction false} MergingExact(g: Gaps, merged: Gaps, i: nat)
    requires GapsOk(g) && GapsOk(merged) && i <= |g|
    requires |Bag(merged)| + |Bag(g)| - |Bag(g[..i])| <= MAX_SAFE
    ensures MergesAll(g, merged, i)
    decreases |g| - i
  {
    if i == |g| {
      MergeLast(g, merged);
    } else {
      var next := Put(merged, g[i].0, Get(merged, g[i].0, 0) + g[i].1);
      MergedWithin(g, merged, i);
      MergingExact(g, next, i + 1);
      MergeNext(g, merged, i, next);
    }
  }

  lemma FromMapped(g: Gaps)
    ensures FromGaps(Map(g, ToGap())) == g
  {
  }

  function GapBag(s: Snapshot): multiset<GapCode> {
    Bag(FromGaps(s.gaps))
  }

  lemma AttachedExact(s: Snapshot, g: Gaps)
    requires CarriesGaps(s) && GapsOk(g)
    ensures CarriesGaps(Attached(s, g)) && (g != [] ==> !Attached(s, g).healthy)
    ensures |GapBag(s)| + |Bag(g)| <= MAX_SAFE ==> AttachCuts(s, g) == 0 && GapBag(Attached(s, g)) == GapBag(s) + Bag(g)
  {
    if g != [] {
      MergingOk(g, FromGaps(s.gaps), 0);
      if |GapBag(s)| + |Bag(g)| <= MAX_SAFE { MergingExact(g, FromGaps(s.gaps), 0); }
      FromMapped(Merging(g, FromGaps(s.gaps), 0).merged);
    }
  }
}
