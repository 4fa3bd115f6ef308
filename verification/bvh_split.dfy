/** The in-place steps `recursive_build` uses to split a range of primitives
  * (rustracer-core/src/bvh/mod.rs:170-278, src/bvh/mod.rs:102-117): the
  * two-index partition, the fallback sort by centroid, the surface area
  * heuristic's buckets, costs and cheapest split, and the middle split's
  * choice of `mid`. The primitive-info array holds primitive numbers; a
  * primitive's bounds and centroid are looked up from them. */
module BvhSplit {
  import opened Util
  import opened Bounds
  import opened BvhTree

  // ---------------------------------------------------------------------------
  // Partition and sort
  // ---------------------------------------------------------------------------

  /** Frame: only positions in [start, end) may differ. */
  ghost predicate SameOutside(a: seq<nat>, b: seq<nat>, start: nat, end: nat)
  {
    |a| == |b| && forall i :: 0 <= i < |a| && !(start <= i < end) ==> a[i] == b[i]
  }

  /** Exchanges two entries of the range [start, end). */
  method Swap(a: array<nat>, start: nat, end: nat, i: nat, j: nat)
    requires start <= i < end && start <= j < end && end <= a.Length
    modifies a
    ensures a[..] == old(a[..])[i := old(a[..])[j]][j := old(a[..])[i]]
    ensures SameOutside(a[..], old(a[..]), start, end)
    ensures multiset(a[start..end]) == multiset(old(a[start..end]))
  {
    ghost var before := a[..];
    a[i], a[j] := a[j], a[i];
    assert a[..] == before[i := before[j]][j := before[i]];
    SwapInRange(before, a[..], start, end, i, j);
  }

  /** Exchanging two entries of [start, end) changes nothing outside it and
    * keeps the elements of the range. */
  lemma SwapInRange(s: seq<nat>, t: seq<nat>, start: nat, end: nat, i: nat, j: nat)
    requires start <= i < end && start <= j < end && end <= |s|
    requires t == s[i := s[j]][j := s[i]]
    ensures SameOutside(t, s, start, end)
    ensures multiset(t[start..end]) == multiset(s[start..end])
  {
    var r := s[start..end];
    assert t[start..end] == r[i - start := r[j - start]][j - start := r[i - start]];
  }

  /** The partition used by both builders (the `itertools` algorithm): walk
    * from the front; when an element fails `pass`, take elements from the
    * back until one passes and swap the two. Returns how many elements pass. */
  method Partition(a: array<nat>, start: nat, end: nat, pass: nat -> bool) returns (count: nat)
    requires start <= end <= a.Length
    modifies a
    ensures start + count <= end
    ensures forall k :: start <= k < start + count ==> pass(a[k])
    ensures forall k :: start + count <= k < end ==> !pass(a[k])
    ensures SameOutside(a[..], old(a[..]), start, end)
    ensures multiset(a[start..end]) == multiset(old(a[start..end]))
  {
    var i, j := start, end;
    count := 0;
    while i < j
      invariant start <= i <= j <= end
      invariant count == i - start
      invariant forall k :: start <= k < i ==> pass(a[k])
      invariant forall k :: j <= k < end ==> !pass(a[k])
      invariant SameOutside(a[..], old(a[..]), start, end)
      invariant multiset(a[start..end]) == multiset(old(a[start..end]))
      decreases j - i
    {
      var front := i;
      i := i + 1;
      if !pass(a[front]) {
        var found, back := TakeFromBack(a, start, end, front, j, pass);
        if !found {
          count := front - start;
          return;
        }
        j := back;
      }
      count := count + 1;
    }
  }

  /** The step for a failing `front`: find the last passing element before
    * `j` and swap the two, or report that everything from `front` on fails. */
  method TakeFromBack(a: array<nat>, start: nat, end: nat, front: nat, j: nat, pass: nat -> bool)
    returns (found: bool, back: nat)
    requires start <= front < j <= end <= a.Length
    requires !pass(a[front]) && forall k :: j <= k < end ==> !pass(a[k])
    modifies a
    ensures !found ==> a[..] == old(a[..]) && forall k :: front <= k < end ==> !pass(a[k])
    ensures found ==> front < back < j && pass(a[front])
    ensures found ==> forall k :: back <= k < end ==> !pass(a[k])
    ensures forall k :: 0 <= k < front ==> a[k] == old(a[k])
    ensures SameOutside(a[..], old(a[..]), start, end)
    ensures multiset(a[start..end]) == multiset(old(a[start..end]))
  {
    found, back := RFind(a, front + 1, j, pass);
    if found {
      Swap(a, start, end, front, back);
    }
  }

  /** `rfind` on the window [lo, hi): the last position holding an element
    * that passes, with every element after it failing; when none passes,
    * `found` is false and the whole window fails. */
  method RFind(a: array<nat>, lo: nat, hi: nat, pass: nat -> bool) returns (found: bool, back: nat)
    requires lo <= hi <= a.Length
    ensures lo <= back <= hi
    ensures found ==> back < hi && pass(a[back])
    ensures found ==> forall k :: back < k < hi ==> !pass(a[k])
    ensures !found ==> forall k :: lo <= k < hi ==> !pass(a[k])
  {
    back := hi;
    while lo < back
      invariant lo <= back <= hi
      invariant forall k :: back <= k < hi ==> !pass(a[k])
    {
      back := back - 1;
      if pass(a[back]) {
        return true, back;
      }
    }
    return false, back;
  }

  /** `s` is ordered by `key`. */
  ghost predicate SortedBy(s: seq<nat>, key: nat -> real)
  {
    forall i, j :: 0 <= i < j < |s| ==> key(s[i]) <= key(s[j])
  }

  /** `sort_by` on a range of the array by a real key (a stable insertion sort). */
  method SortByKey(a: array<nat>, start: nat, end: nat, key: nat -> real)
    requires start <= end <= a.Length
    modifies a
    ensures SortedBy(a[start..end], key)
    ensures SameOutside(a[..], old(a[..]), start, end)
    ensures multiset(a[start..end]) == multiset(old(a[start..end]))
  {
    if end - start < 2 {
      return;
    }
    var i := start + 1;
    while i < end
      invariant start + 1 <= i <= end
      invariant forall p, q :: start <= p < q < i ==> key(a[p]) <= key(a[q])
      invariant SameOutside(a[..], old(a[..]), start, end)
      invariant multiset(a[start..end]) == multiset(old(a[start..end]))
    {
      Insert(a, start, end, i, key);
      i := i + 1;
    }
  }

  /** One round of the insertion sort: move `a[i]` left past every larger key,
    * so that the sorted prefix [start, i) becomes [start, i + 1). */
  method Insert(a: array<nat>, start: nat, end: nat, i: nat, key: nat -> real)
    requires start < i < end <= a.Length
    requires forall p, q :: start <= p < q < i ==> key(a[p]) <= key(a[q])
    modifies a
    ensures a[..] == Sink(old(a[..]), start, i, key)
    ensures forall p, q :: start <= p < q <= i ==> key(a[p]) <= key(a[q])
    ensures SameOutside(a[..], old(a[..]), start, end)
    ensures multiset(a[start..end]) == multiset(old(a[start..end]))
  {
    ghost var orig := a[..];
    SinkLoop(a, start, end, i, key);
    SinkSorted(orig, start, i, i, key);
    SinkRearranged(orig, start, end, i, key);
    assert a[start..end] == a[..][start..end] && orig[start..end] == old(a[start..end]);
  }

  /** The loop of an insertion round: swap `a[j]` with its left neighbour
    * while that holds a larger key. */
  method SinkLoop(a: array<nat>, start: nat, end: nat, i: nat, key: nat -> real)
    requires start < i < end <= a.Length
    modifies a
    ensures a[..] == Sink(old(a[..]), start, i, key)
  {
    var j := i;
    while j > start && key(a[j]) < key(a[j - 1])
      invariant start <= j <= i && Sink(a[..], start, j, key) == Sink(old(a[..]), start, i, key)
    {
      Swap(a, start, end, j - 1, j);
      j := j - 1;
    }
  }

  /** The entry at `j` moved left past every larger key before it: the
    * array an insertion round leaves. */
  ghost function Sink(s: seq<nat>, start: nat, j: nat, key: nat -> real): (t: seq<nat>)
    requires j < |s|
    ensures |t| == |s|
    decreases j
  {
    if j > start && key(s[j]) < key(s[j - 1]) then Sink(s[j - 1 := s[j]][j := s[j - 1]], start, j - 1, key)
    else s
  }

  /** The insertion loop's invariant: the entries of [start, i] other than
    * the one at `j` are in order, and that one is below every entry after
    * it. */
  ghost predicate Inserting(s: seq<nat>, start: nat, i: nat, j: nat, key: nat -> real)
  {
    i < |s| &&
    (forall p, q :: start <= p < q <= i && p != j && q != j ==> key(s[p]) <= key(s[q])) &&
    (forall q :: j < q <= i ==> key(s[j]) < key(s[q]))
  }

  /** Moving the entry at `j` one place left, past a larger key, keeps the
    * invariant. */
  lemma InsertStep(s: seq<nat>, t: seq<nat>, start: nat, i: nat, j: nat, key: nat -> real)
    requires start < j <= i && Inserting(s, start, i, j, key) && key(s[j]) < key(s[j - 1])
    requires t == s[j - 1 := s[j]][j := s[j - 1]]
    ensures Inserting(t, start, i, j - 1, key)
  {
  }

  /** When the entry at `j` has stopped, [start, i] is in order. */
  lemma InsertDone(s: seq<nat>, start: nat, i: nat, j: nat, key: nat -> real)
    requires start <= j <= i && Inserting(s, start, i, j, key)
    requires j == start || key(s[j - 1]) <= key(s[j])
    ensures forall p, q :: start <= p < q <= i ==> key(s[p]) <= key(s[q])
  {
  }

  /** Sinking the entry at `j` into an otherwise ordered [start, i] orders
    * the whole of it. */
  lemma {:induction false} SinkSorted(s: seq<nat>, start: nat, i: nat, j: nat, key: nat -> real)
    requires start <= j <= i && Inserting(s, start, i, j, key)
    ensures forall p, q :: start <= p < q <= i ==> key(Sink(s, start, j, key)[p]) <= key(Sink(s, start, j, key)[q])
    decreases j
  {
    if j > start && key(s[j]) < key(s[j - 1]) {
      var t := s[j - 1 := s[j]][j := s[j - 1]];
      InsertStep(s, t, start, i, j, key);
      SinkSorted(t, start, i, j - 1, key);
    } else {
      InsertDone(s, start, i, j, key);
    }
  }

  /** `t` holds the entries of `s` with only [start, end) rearranged. */
  ghost predicate Rearranged(t: seq<nat>, s: seq<nat>, start: nat, end: nat)
  {
    SameOutside(t, s, start, end) && start <= end <= |s| && multiset(t[start..end]) == multiset(s[start..end])
  }

  /** Sinking only exchanges entries of [start, end). */
  lemma {:induction false} SinkRearranged(s: seq<nat>, start: nat, end: nat, j: nat, key: nat -> real)
    requires start <= j < end <= |s|
    ensures Rearranged(Sink(s, start, j, key), s, start, end)
    decreases j
  {
    if j > start && key(s[j]) < key(s[j - 1]) {
      var t := s[j - 1 := s[j]][j := s[j - 1]];
      SwapInRange(s, t, start, end, j - 1, j);
      SinkRearranged(t, start, end, j - 1, key);
    }
  }


  // ---------------------------------------------------------------------------
  // Middle split
  // ---------------------------------------------------------------------------

  /** rustracer-core/src/bvh/mod.rs:176-189 as written: `start` is added both
    * before and after the partition count. Returns `mid` and whether the
    * sorting fallback ran. */
  function MiddleMidAsWritten(start: nat, end: nat, count: nat): (r: (nat, bool))
    ensures r.1 ==> r.0 == (start + end) / 2
    ensures !r.1 ==> r.0 == 2 * start + count
  {
    var mid := start + count + start;
    if mid == start || mid == end then ((start + end) / 2, true) else (mid, false)
  }

  /** Four primitives whose centroids lie at x = 0, 1, 10 and 11: the root
    * range [0, 4) splits at 5.5 with count 2, so mid = 2; the right child
    * [2, 4) splits at 10.5 with count 1, and the as-written `mid` is 5,
    * beyond `end` = 4, so the following `recursive_build(5, 4)` slices out of
    * range. */
  lemma MiddleMidAsWrittenOverruns()
    ensures MiddleMidAsWritten(0, 4, 2) == (2, false)
    ensures MiddleMidAsWritten(2, 4, 1) == (5, false) && MiddleMidAsWritten(2, 4, 1).0 > 4
  {
  }

  /** The middle split's `mid` as intended (and as src/bvh/mod.rs:106-117
    * computes it): the partition point, or the halfway index after the
    * sorting fallback when the partition is one-sided. */
  function MiddleMid(start: nat, end: nat, count: nat): (r: (nat, bool))
    requires start + 2 <= end && count <= end - start
    ensures start < r.0 < end
    ensures r.1 <==> count == 0 || count == end - start
    ensures !r.1 ==> r.0 == start + count
  {
    var mid := start + count;
    if mid == start || mid == end then ((start + end) / 2, true) else (mid, false)
  }

  // ---------------------------------------------------------------------------
  // Surface area heuristic
  // ---------------------------------------------------------------------------

  const N_BUCKETS: nat := 12

  /** The bucket of centroid `c`: 12 times its offset in the centroid bounds
    * along `dim`, converted with `as usize` (negative values saturate to 0),
    * with 12 folded into 11. */
  function BucketOf(cb: Bounds3, dim: nat, c: Vec3): (b: nat)
    requires dim < 3
    ensures cb.pMin.Get(dim) < cb.pMax.Get(dim) && cb.pMin.Get(dim) <= c.Get(dim) <= cb.pMax.Get(dim)
            ==> b < N_BUCKETS
    ensures cb.pMin.Get(dim) < cb.pMax.Get(dim) && c.Get(dim) == cb.pMin.Get(dim) ==> b == 0
    ensures cb.pMin.Get(dim) < cb.pMax.Get(dim) && c.Get(dim) == cb.pMax.Get(dim) ==> b == N_BUCKETS - 1
  {
    var f := N_BUCKETS as real * Offset3(cb, c).Get(dim);
    var raw: nat := if f < 0.0 then 0 else f.Floor;
    if raw == N_BUCKETS then N_BUCKETS - 1 else raw
  }

  /** Bucket of primitive `p` in the centroid bounds `cb`. */
  function PrimBucket(pb: seq<Bounds3>, cb: Bounds3, dim: nat, p: nat): nat
    requires dim < 3
  {
    if p < |pb| then BucketOf(cb, dim, Centroid(pb[p])) else 0
  }

  /** Number of the primitives in `s` that fall in bucket `b`. */
  function BucketCount(pb: seq<Bounds3>, cb: Bounds3, dim: nat, s: seq<nat>, b: nat): nat
    requires dim < 3
  {
    if |s| == 0 then 0
    else BucketCount(pb, cb, dim, s[..|s| - 1], b) + (if PrimBucket(pb, cb, dim, s[|s| - 1]) == b then 1 else 0)
  }

  /** Union of the bounds of the primitives in `s` that fall in bucket `b`,
    * from `Bounds3::default()` (the empty box). */
  function BucketBounds(pb: seq<Bounds3>, cb: Bounds3, dim: nat, s: seq<nat>, b: nat): Bounds3
    requires dim < 3 && AllBelow(s, |pb|)
  {
    if |s| == 0 then New3()
    else
      var prev := BucketBounds(pb, cb, dim, s[..|s| - 1], b);
      if PrimBucket(pb, cb, dim, s[|s| - 1]) == b then Union3(prev, pb[s[|s| - 1]]) else prev
  }

  function SumNat(s: seq<nat>): nat
  {
    if |s| == 0 then 0 else SumNat(s[..|s| - 1]) + s[|s| - 1]
  }

  /** The bucket-filling loop (rustracer-core/src/bvh/mod.rs:205-220): each
    * primitive of the range lands in bucket `b < 12` (the assertion at 216),
    * whose count and bounds it updates. */
  method FillBuckets(pb: seq<Bounds3>, info: array<nat>, start: nat, end: nat, cb: Bounds3, dim: nat)
    returns (counts: seq<nat>, boxes: seq<Bounds3>)
    requires start <= end <= info.Length && dim < 3
    requires cb.pMin.Get(dim) < cb.pMax.Get(dim)
    requires forall k :: start <= k < end ==> info[k] < |pb| && Inside3(cb, Centroid(pb[info[k]]))
    ensures |counts| == N_BUCKETS && |boxes| == N_BUCKETS
    ensures AllBelow(info[start..end], |pb|)
    ensures forall b :: 0 <= b < N_BUCKETS ==>
              counts[b] == BucketCount(pb, cb, dim, info[start..end], b) &&
              boxes[b] == BucketBounds(pb, cb, dim, info[start..end], b)
  {
    counts := seq(N_BUCKETS, _ => 0);
    boxes := seq(N_BUCKETS, _ => New3());
    var i := start;
    while i < end
      invariant start <= i <= end
      invariant |counts| == N_BUCKETS && |boxes| == N_BUCKETS
      invariant AllBelow(info[start..i], |pb|)
      invariant forall b :: 0 <= b < N_BUCKETS ==>
                  counts[b] == BucketCount(pb, cb, dim, info[start..i], b) &&
                  boxes[b] == BucketBounds(pb, cb, dim, info[start..i], b)
    {
      assert info[start..i + 1][..i - start] == info[start..i];
      var b := BucketOf(cb, dim, Centroid(pb[info[i]]));
      assert b < N_BUCKETS;
      counts := counts[b := counts[b] + 1];
      boxes := boxes[b := Union3(boxes[b], pb[info[i]])];
      i := i + 1;
    }
  }

  /** An `f32` cost: a real number, or NaN when the node's surface area is 0. */
  datatype Cost = Finite(v: real) | NaN

  /** `<` on costs: false whenever either side is NaN. */
  predicate CostLess(a: Cost, b: Cost)
  {
    a.Finite? && b.Finite? && a.v < b.v
  }

  function UnionBoxes(bs: seq<Bounds3>): Bounds3
  {
    if |bs| == 0 then New3() else Union3(UnionBoxes(bs[..|bs| - 1]), bs[|bs| - 1])
  }

  /** The cost of splitting after bucket `i`: 1 + (count0 * SA(b0) + count1 * SA(b1)) / SA(bounds),
    * where side 0 holds buckets [0, i] and side 1 holds buckets (i, 12). */
  function SplitCost(counts: seq<nat>, boxes: seq<Bounds3>, i: nat, area: real): (c: Cost)
    requires |counts| == N_BUCKETS && |boxes| == N_BUCKETS && i < N_BUCKETS - 1
    ensures c.NaN? <==> area == 0.0
  {
    SahCost(SumNat(counts[0..i + 1]), UnionBoxes(boxes[0..i + 1]),
            SumNat(counts[i + 1..N_BUCKETS]), UnionBoxes(boxes[i + 1..N_BUCKETS]), area)
  }

  /** 1 + (count0 * SA(b0) + count1 * SA(b1)) / area, NaN when `area` is 0. */
  function SahCost(count0: nat, b0: Bounds3, count1: nat, b1: Bounds3, area: real): (c: Cost)
    ensures c.NaN? <==> area == 0.0
  {
    if area == 0.0 then NaN
    else Finite(1.0 + (count0 as real * SurfaceArea(b0) + count1 as real * SurfaceArea(b1)) / area)
  }

  /** One pass of the cost loop (rustracer-core/src/bvh/mod.rs:225-240): fold
    * buckets [0, i] into `b0`/`count0` and (i, 12) into `b1`/`count1`. */
  method CostAt(counts: seq<nat>, boxes: seq<Bounds3>, i: nat, area: real) returns (c: Cost)
    requires |counts| == N_BUCKETS && |boxes| == N_BUCKETS && i < N_BUCKETS - 1
    ensures c == SplitCost(counts, boxes, i, area)
  {
    var b0, count0 := FoldBuckets(counts, boxes, 0, i + 1);
    var b1, count1 := FoldBuckets(counts, boxes, i + 1, N_BUCKETS);
    c := SahCost(count0, b0, count1, b1, area);
  }

  /** One of the two inner loops of the cost pass: the union of the boxes and
    * the sum of the counts of buckets [lo, hi), from the empty box and 0. */
  method FoldBuckets(counts: seq<nat>, boxes: seq<Bounds3>, lo: nat, hi: nat) returns (b: Bounds3, count: nat)
    requires lo <= hi <= |counts| && hi <= |boxes|
    ensures b == UnionBoxes(boxes[lo..hi]) && count == SumNat(counts[lo..hi])
  {
    b, count := New3(), 0;
    var j := lo;
    while j < hi
      invariant lo <= j <= hi
      invariant b == UnionBoxes(boxes[lo..j]) && count == SumNat(counts[lo..j])
    {
      assert boxes[lo..j + 1][..j - lo] == boxes[lo..j];
      assert counts[lo..j + 1][..j - lo] == counts[lo..j];
      b := Union3(b, boxes[j]);
      count := count + counts[j];
      j := j + 1;
    }
  }

  /** The cost loop (rustracer-core/src/bvh/mod.rs:222-241): one cost per split position. */
  method SplitCosts(counts: seq<nat>, boxes: seq<Bounds3>, area: real) returns (cost: seq<Cost>)
    requires |counts| == N_BUCKETS && |boxes| == N_BUCKETS
    ensures |cost| == N_BUCKETS - 1
    ensures forall i :: 0 <= i < N_BUCKETS - 1 ==> cost[i] == SplitCost(counts, boxes, i, area)
  {
    cost := [];
    var i := 0;
    while i < N_BUCKETS - 1
      invariant i <= N_BUCKETS - 1 && |cost| == i
      invariant forall k :: 0 <= k < i ==> cost[k] == SplitCost(counts, boxes, k, area)
    {
      var c := CostAt(counts, boxes, i, area);
      cost := cost + [c];
      i := i + 1;
    }
  }

  /** The search for the cheapest split (rustracer-core/src/bvh/mod.rs:243-251):
    * starting from bucket 0, keep the first strictly cheaper cost. The
    * chosen bucket is at most 10, so bucket 11 always lies above the split. */
  method MinCostBucket(cost: seq<Cost>) returns (split: nat, minCost: Cost)
    requires |cost| == N_BUCKETS - 1
    ensures split < N_BUCKETS - 1 && minCost == cost[split]
    ensures cost[0].NaN? ==> split == 0
    ensures (forall i :: 0 <= i < |cost| ==> cost[i].Finite?) ==>
              (forall i :: 0 <= i < |cost| ==> minCost.v <= cost[i].v) &&
              (forall i :: 0 <= i < split ==> minCost.v < cost[i].v)
  {
    minCost := cost[0];
    split := 0;
    var i := 1;
    while i < N_BUCKETS - 1
      invariant 1 <= i <= N_BUCKETS - 1
      invariant split < i && minCost == cost[split]
      invariant cost[0].NaN? ==> split == 0
      invariant (forall k :: 0 <= k < |cost| ==> cost[k].Finite?) ==>
                  (forall k :: 0 <= k < i ==> minCost.v <= cost[k].v) &&
                  (forall k :: 0 <= k < split ==> minCost.v < cost[k].v)
    {
      if CostLess(cost[i], minCost) {
        minCost := cost[i];
        split := i;
      }
      i := i + 1;
    }
  }
}
