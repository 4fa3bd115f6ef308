/** `BVH::new`, `BVH::create` and `recursive_build` of the core BVH
  * (rustracer-core/src/bvh/mod.rs:62-298). The builder works on an array of
  * primitive numbers standing for `primitive_info`; `pb[p]` is the world
  * bounds of primitive `p`, from which its `BVHPrimitiveInfo` bounds and
  * centroid are read. `ordered_prims` is modelled by the primitive number of
  * each primitive it holds. */
module Bvh {
  import opened Util
  import opened Wrappers
  import opened Bounds
  import opened BvhTree
  import opened BvhSplit

  /** The implemented split methods (`EqualCounts` is `unimplemented!()`). */
  datatype SplitMethod = Middle | Sah

  /** `BVH::create`'s choice of split method from the "splitmethod" parameter
    * (default "sah"): "middle" selects Middle, anything else SAH. */
  function SplitMethodFromName(name: string): (m: SplitMethod)
    ensures m == Middle <==> name == "middle"
  {
    if name == "sah" then Sah else if name == "middle" then Middle else Sah
  }

  /** `max_prims_per_node as usize` for the i32 "maxnodeprims" parameter
    * (default 4): negative values wrap around to 2^64 + v. */
  function MaxPrimsFromParam(v: int): (r: nat)
    requires I32_MIN <= v <= I32_MAX
    ensures v >= 0 ==> r == v
    ensures v < 0 ==> r == v + 0x1_0000_0000_0000_0000 && r > USIZE_MAX - 0x8000_0000
  {
    if v < 0 then v + 0x1_0000_0000_0000_0000 else v
  }

  /** A flattened BVH: `max_prims_per_node`, the reordered primitives and the nodes. */
  datatype BvhData<T> = BvhData(maxPrimsPerNode: nat, primitives: seq<T>, nodes: seq<LinearNode>)

  lemma MultisetKeepsBound(a: seq<nat>, b: seq<nat>, n: nat)
    requires multiset(a) == multiset(b) && AllBelow(b, n)
    ensures AllBelow(a, n)
  {
    forall k | 0 <= k < |a|
      ensures a[k] < n
    {
      assert a[k] in multiset(a);
    }
  }

  /** The primitive with the lowest centroid falls in bucket 0 and the one
    * with the highest in bucket 11. */
  lemma ExtremeBuckets(pb: seq<Bounds3>, seg: seq<nat>, cb: Bounds3, dim: nat) returns (lo: nat, hi: nat)
    requires AllBelow(seg, |pb|) && PrimsFinite(pb) && |seg| >= 1 && dim < 3
    requires cb == CentroidBounds(pb, seg) && cb.pMin.Get(dim) < cb.pMax.Get(dim)
    ensures lo in seg && hi in seg
    ensures PrimBucket(pb, cb, dim, lo) == 0 && PrimBucket(pb, cb, dim, hi) == N_BUCKETS - 1
  {
    var kMin, kMax := CentroidBoundsAttained(pb, seg, dim);
    lo, hi := seg[kMin], seg[kMax];
  }

  /** The SAH partition of the range `seg` into `after` puts the primitive
    * with the lowest centroid on the low side and the one with the highest
    * on the high side, so neither side is empty. */
  lemma SahSides(pb: seq<Bounds3>, cb: Bounds3, dim: nat, split: nat, seg: seq<nat>, after: seq<nat>,
                 pass: nat -> bool, count: nat)
    requires AllBelow(seg, |pb|) && PrimsFinite(pb) && |seg| >= 1 && dim < 3 && split < N_BUCKETS - 1
    requires cb == CentroidBounds(pb, seg) && cb.pMin.Get(dim) < cb.pMax.Get(dim)
    requires forall p :: pass(p) == (PrimBucket(pb, cb, dim, p) <= split)
    requires multiset(after) == multiset(seg) && count <= |after|
    requires forall k :: 0 <= k < count ==> pass(after[k])
    requires forall k :: count <= k < |after| ==> !pass(after[k])
    ensures 0 < count < |after|
    ensures AllBelow(after, |pb|)
  {
    var lo, hi := ExtremeBuckets(pb, seg, cb, dim);
    SplitHasBothSides(after, seg, pass, lo, hi, count);
    MultisetKeepsBound(after, seg, |pb|);
  }

  /** A partition of a rearrangement of `b` at `count` whose passing side
    * holds `lo` and whose failing side holds `hi` has both sides non-empty. */
  lemma SplitHasBothSides(a: seq<nat>, b: seq<nat>, pass: nat -> bool, lo: nat, hi: nat, count: nat)
    requires multiset(a) == multiset(b) && lo in b && hi in b && pass(lo) && !pass(hi)
    requires count <= |a|
    requires forall k :: 0 <= k < count ==> pass(a[k])
    requires forall k :: count <= k < |a| ==> !pass(a[k])
    ensures 0 < count < |a|
  {
    assert lo in multiset(a) && hi in multiset(a);
    var i :| 0 <= i < |a| && a[i] == lo;
    var j :| 0 <= j < |a| && a[j] == hi;
    assert i < count <= j;
  }

  /** The leaf loops (rustracer-core/src/bvh/mod.rs:147-152, 163-168,
    * 269-274): push the primitive of every entry of [start, end) to the
    * ordered list, then make a leaf over the pushed slice with the given bounds. */
  method MakeLeaf(pb: seq<Bounds3>, info: array<nat>, start: nat, end: nat, ordered: seq<nat>, bounds: Bounds3)
    returns (node: BuildNode, ordered': seq<nat>)
    requires start < end <= info.Length
    requires forall k :: start <= k < end ==> info[k] < |pb|
    requires bounds == UnionAll(pb, info[start..end])
    ensures ordered' == ordered + info[start..end]
    ensures node == Leaf(bounds, |ordered|, end - start)
    ensures BoundsOk(node, pb, ordered') && Tiles(node, |ordered|, true) && Tiles(node, |ordered|, false)
    ensures NodeCount(node) == 1 && PrimCount(node) == end - start
  {
    var firstPrimOffset := |ordered|;
    ordered' := ordered;
    var i := start;
    while i < end
      invariant start <= i <= end
      invariant ordered' == ordered + info[start..i]
    {
      assert info[start..i + 1] == info[start..i] + [info[i]];
      ordered' := ordered' + [info[i]];
      i := i + 1;
    }
    node := Leaf(bounds, firstPrimOffset, end - start);
    assert AllBelow(info[start..end], |pb|);
    assert ordered'[firstPrimOffset..firstPrimOffset + (end - start)] == info[start..end];
  }

  /** The middle split (rustracer-core/src/bvh/mod.rs:173-190, with `mid`
    * corrected to `start + count`): partition around the midpoint of the
    * centroid bounds along `dim`; when one side is empty, sort by centroid
    * and split at the halfway index. */
  method MiddleSplit(pb: seq<Bounds3>, info: array<nat>, start: nat, end: nat, cb: Bounds3, dim: nat)
    returns (mid: nat, fallback: bool)
    requires start + 2 <= end <= info.Length && dim < 3
    requires forall k :: start <= k < end ==> info[k] < |pb|
    modifies info
    ensures start < mid < end
    ensures SameOutside(info[..], old(info[..]), start, end)
    ensures multiset(info[start..end]) == multiset(old(info[start..end]))
    ensures forall k :: start <= k < end ==> info[k] < |pb|
    ensures var pmid := 0.5 * (cb.pMin.Get(dim) + cb.pMax.Get(dim));
            !fallback ==> (forall k :: start <= k < mid ==> Centroid(pb[info[k]]).Get(dim) < pmid) &&
                          (forall k :: mid <= k < end ==> Centroid(pb[info[k]]).Get(dim) >= pmid)
    ensures fallback ==> mid == (start + end) / 2 &&
                         forall p, q :: start <= p < q < end ==>
                           Centroid(pb[info[p]]).Get(dim) <= Centroid(pb[info[q]]).Get(dim)
  {
    ghost var seg := info[start..end];
    var pmid := 0.5 * (cb.pMin.Get(dim) + cb.pMax.Get(dim));
    assert AllBelow(seg, |pb|);
    var count := Partition(info, start, end, (p: nat) => p < |pb| && Centroid(pb[p]).Get(dim) < pmid);
    MultisetKeepsBound(info[start..end], seg, |pb|);
    forall k | start <= k < end
      ensures info[k] < |pb|
    {
      assert info[start..end][k - start] == info[k];
    }
    var r := MiddleMid(start, end, count);
    mid, fallback := r.0, r.1;
    if fallback {
      ghost var seg2 := info[start..end];
      assert AllBelow(seg2, |pb|);
      SortByKey(info, start, end, (p: nat) => if p < |pb| then Centroid(pb[p]).Get(dim) else 0.0);
      MultisetKeepsBound(info[start..end], seg2, |pb|);
      forall k | start <= k < end
        ensures info[k] < |pb|
      {
        assert info[start..end][k - start] == info[k];
      }
      forall p, q | start <= p < q < end
        ensures Centroid(pb[info[p]]).Get(dim) <= Centroid(pb[info[q]]).Get(dim)
      {
        assert info[start..end][p - start] == info[p] && info[start..end][q - start] == info[q];
      }
    }
  }

  /** The bucket choice of the SAH split (rustracer-core/src/bvh/mod.rs:203-251):
    * bucket the range's centroids, cost every split position and keep the
    * cheapest. */
  method SahBucket(pb: seq<Bounds3>, info: array<nat>, start: nat, end: nat, bounds: Bounds3, cb: Bounds3, dim: nat)
    returns (split: nat, minCost: Cost)
    requires start <= end <= info.Length && dim < 3
    requires forall k :: start <= k < end ==> info[k] < |pb| && Inside3(cb, Centroid(pb[info[k]]))
    requires cb.pMin.Get(dim) < cb.pMax.Get(dim)
    ensures split < N_BUCKETS - 1
    ensures SurfaceArea(bounds) == 0.0 ==> split == 0 && minCost.NaN?
    ensures SurfaceArea(bounds) != 0.0 ==> minCost.Finite?
  {
    var counts, boxes := FillBuckets(pb, info, start, end, cb, dim);
    var cost := SplitCosts(counts, boxes, SurfaceArea(bounds));
    split, minCost := MinCostBucket(cost);
  }

  /** The SAH partition (rustracer-core/src/bvh/mod.rs:256-266): primitives
    * whose bucket is at most `split` go first. Because the lowest centroid
    * lies in bucket 0 and the highest in bucket 11 while `split` is at most
    * 10, both sides are non-empty. */
  method SahPartition(pb: seq<Bounds3>, info: array<nat>, start: nat, end: nat, cb: Bounds3, dim: nat, split: nat)
    returns (mid: nat)
    requires start < end <= info.Length && dim < 3 && split < N_BUCKETS - 1
    requires forall k :: start <= k < end ==> info[k] < |pb|
    requires PrimsFinite(pb)
    requires cb == CentroidBounds(pb, info[start..end]) && cb.pMin.Get(dim) < cb.pMax.Get(dim)
    modifies info
    ensures start < mid < end
    ensures forall k :: start <= k < mid ==> PrimBucket(pb, cb, dim, info[k]) <= split
    ensures forall k :: mid <= k < end ==> PrimBucket(pb, cb, dim, info[k]) > split
    ensures SameOutside(info[..], old(info[..]), start, end)
    ensures multiset(info[start..end]) == multiset(old(info[start..end]))
    ensures forall k :: start <= k < end ==> info[k] < |pb|
  {
    ghost var seg := info[start..end];
    var pass := (p: nat) => PrimBucket(pb, cb, dim, p) <= split;
    var count := Partition(info, start, end, pass);
    SahSides(pb, cb, dim, split, seg, info[start..end], pass, count);
    mid := start + count;
  }

  /** The SAH split (rustracer-core/src/bvh/mod.rs:192-276). Two primitives
    * are put in centroid order and split in half. Otherwise the range is
    * partitioned at the cheapest bucket when it holds more than
    * `max_prims_per_node` primitives or the split costs less than a leaf;
    * else `leaf` is reported and nothing moves. */
  method SahSplit(pb: seq<Bounds3>, info: array<nat>, start: nat, end: nat, maxPrims: nat,
                  bounds: Bounds3, cb: Bounds3, dim: nat)
    returns (mid: nat, leaf: bool, split: nat)
    requires start + 2 <= end <= info.Length && dim < 3
    requires forall k :: start <= k < end ==> info[k] < |pb|
    requires PrimsFinite(pb)
    requires cb == CentroidBounds(pb, info[start..end]) && cb.pMin.Get(dim) < cb.pMax.Get(dim)
    modifies info
    ensures !leaf ==> start < mid < end
    ensures leaf ==> end - start > 2 && end - start <= maxPrims && info[..] == old(info[..])
    ensures end - start > 2 && SurfaceArea(bounds) == 0.0 ==> (leaf <==> end - start <= maxPrims)
    ensures SameOutside(info[..], old(info[..]), start, end)
    ensures multiset(info[start..end]) == multiset(old(info[start..end]))
    ensures forall k :: start <= k < end ==> info[k] < |pb|
    ensures end - start == 2 ==>
              !leaf && mid == start + 1 &&
              Centroid(pb[info[start]]).Get(dim) <= Centroid(pb[info[start + 1]]).Get(dim)
    ensures !leaf && end - start > 2 ==>
              split < N_BUCKETS - 1 &&
              (forall k :: start <= k < mid ==> PrimBucket(pb, cb, dim, info[k]) <= split) &&
              (forall k :: mid <= k < end ==> PrimBucket(pb, cb, dim, info[k]) > split)
  {
    split := 0;
    if end - start <= 2 {
      mid := (start + end) / 2;
      leaf := false;
      if start != end - 1 && Centroid(pb[info[end - 1]]).Get(dim) < Centroid(pb[info[start]]).Get(dim) {
        Swap(info, start, end, start, end - 1);
      }
      return;
    }
    ghost var seg := info[start..end];
    assert AllBelow(seg, |pb|);
    ghost var kMin, kMax := CentroidBoundsAttained(pb, seg, dim);
    assert forall k :: start <= k < end ==> info[k] == seg[k - start];
    var minCost;
    split, minCost := SahBucket(pb, info, start, end, bounds, cb, dim);
    var leafCost := Finite((end - start) as real);
    if end - start > maxPrims || CostLess(minCost, leafCost) {
      mid := SahPartition(pb, info, start, end, cb, dim, split);
      leaf := false;
    } else {
      mid := start;
      leaf := true;
    }
  }

  /** The choice between the two split methods (rustracer-core/src/bvh/mod.rs:171-277). */
  method SplitRange(pb: seq<Bounds3>, info: array<nat>, start: nat, end: nat, maxPrims: nat,
                    splitMethod: SplitMethod, bounds: Bounds3, cb: Bounds3, dim: nat)
    returns (mid: nat, leaf: bool)
    requires start + 2 <= end <= info.Length && dim < 3
    requires forall k :: start <= k < end ==> info[k] < |pb|
    requires PrimsFinite(pb)
    requires cb == CentroidBounds(pb, info[start..end]) && cb.pMin.Get(dim) < cb.pMax.Get(dim)
    modifies info
    ensures !leaf ==> start < mid < end
    ensures leaf ==> splitMethod == Sah && info[..] == old(info[..])
    ensures SameOutside(info[..], old(info[..]), start, end)
    ensures multiset(info[start..end]) == multiset(old(info[start..end]))
    ensures forall k :: start <= k < end ==> info[k] < |pb|
  {
    match splitMethod {
      case Middle =>
        var fallback;
        mid, fallback := MiddleSplit(pb, info, start, end, cb, dim);
        leaf := false;
      case Sah =>
        var split;
        mid, leaf, split := SahSplit(pb, info, start, end, maxPrims, bounds, cb, dim);
    }
  }

  /** The info array through the two child builds: the first build permutes
    * one half of [start, end) and the second build the other half, the right
    * half [mid, end) first when `rightFirst`. */
  lemma ChildrenCompose(s1: seq<nat>, s2: seq<nat>, s3: seq<nat>, start: nat, mid: nat, end: nat, rightFirst: bool)
    requires start <= mid <= end <= |s1|
    requires var (a, b) := if rightFirst then (mid, end) else (start, mid);
             SameOutside(s2, s1, a, b) && multiset(s2[a..b]) == multiset(s1[a..b])
    requires var (c, d) := if rightFirst then (start, mid) else (mid, end);
             SameOutside(s3, s2, c, d) && multiset(s3[c..d]) == multiset(s2[c..d])
    ensures SameOutside(s3, s1, start, end)
    ensures multiset(s3[start..end]) == multiset(s1[start..end])
    ensures rightFirst ==> multiset(s1[mid..end]) + multiset(s2[start..mid]) == multiset(s1[start..end])
    ensures !rightFirst ==> multiset(s1[start..mid]) + multiset(s2[mid..end]) == multiset(s1[start..end])
  {
    assert s3[start..end] == s3[start..mid] + s3[mid..end];
    assert s1[start..end] == s1[start..mid] + s1[mid..end];
    if rightFirst {
      assert s3[mid..end] == s2[mid..end];
      assert s2[start..mid] == s1[start..mid];
    } else {
      assert s3[start..mid] == s2[start..mid];
      assert s2[mid..end] == s1[mid..end];
    }
  }

  /** Two appends to the ordered list, one per child. */
  lemma OrderedAppends(ordered: seq<nat>, ord1: seq<nat>, ord2: seq<nat>)
    requires |ordered| <= |ord1| <= |ord2|
    requires ord1[..|ordered|] == ordered && ord2[..|ord1|] == ord1
    ensures ord2[..|ordered|] == ordered
    ensures ord2[|ordered|..] == ord1[|ordered|..] + ord2[|ord1|..]
    ensures ord1 + ord2[|ord1|..] == ord2
  {
  }

  /** `recursive_build` over [start, end), which must be non-empty (the
    * `assert_ne!` at 140). It counts one node per call, appends the range's
    * primitives to `ordered` (right subtree first), and permutes only
    * [start, end) of the info array. */
  method RecursiveBuild(pb: seq<Bounds3>, info: array<nat>, start: nat, end: nat, maxPrims: nat,
                        splitMethod: SplitMethod, totalNodes: nat, ordered: seq<nat>)
    returns (node: BuildNode, totalNodes': nat, ordered': seq<nat>)
    requires start < end <= info.Length
    requires PrimsFinite(pb)
    requires forall k :: start <= k < end ==> info[k] < |pb|
    modifies info
    ensures SameOutside(info[..], old(info[..]), start, end)
    ensures multiset(info[start..end]) == multiset(old(info[start..end]))
    ensures forall k :: start <= k < end ==> info[k] < |pb|
    ensures totalNodes' == totalNodes + NodeCount(node)
    ensures |ordered'| == |ordered| + (end - start) && ordered'[..|ordered|] == ordered
    ensures multiset(ordered'[|ordered|..]) == multiset(old(info[start..end]))
    ensures PrimCount(node) == end - start
    ensures Tiles(node, |ordered|, true)
    ensures BoundsOk(node, pb, ordered')
    decreases end - start, 1
  {
    var bounds := UnionAll(pb, info[start..end]);
    if end - start == 1 {
      node, ordered' := MakeLeaf(pb, info, start, end, ordered, bounds);
      totalNodes' := totalNodes + 1;
      return;
    }
    var cb := CentroidBounds(pb, info[start..end]);
    var axis := MaximumExtent(cb);
    var dim := axis.Index();
    if cb.pMin.Get(dim) == cb.pMax.Get(dim) {
      node, ordered' := MakeLeaf(pb, info, start, end, ordered, bounds);
      totalNodes' := totalNodes + 1;
      return;
    }
    var mid, leaf := SplitRange(pb, info, start, end, maxPrims, splitMethod, bounds, cb, dim);
    if leaf {
      node, ordered' := MakeLeaf(pb, info, start, end, ordered, bounds);
      totalNodes' := totalNodes + 1;
      return;
    }
    node, totalNodes', ordered' := BuildChildren(pb, info, start, mid, end, axis, maxPrims, splitMethod, totalNodes + 1, ordered);
  }

  /** The interior-node half of `recursive_build` (rustracer-core/src/bvh/mod.rs:280-295):
    * build the right child over [mid, end), then the left over [start, mid),
    * and join them. `totalNodes` already counts the interior node. */
  method BuildChildren(pb: seq<Bounds3>, info: array<nat>, start: nat, mid: nat, end: nat, axis: Axis,
                       maxPrims: nat, splitMethod: SplitMethod, totalNodes: nat, ordered: seq<nat>)
    returns (node: BuildNode, totalNodes': nat, ordered': seq<nat>)
    requires start < mid < end <= info.Length
    requires PrimsFinite(pb)
    requires forall k :: start <= k < end ==> info[k] < |pb|
    modifies info
    ensures SameOutside(info[..], old(info[..]), start, end)
    ensures multiset(info[start..end]) == multiset(old(info[start..end]))
    ensures forall k :: start <= k < end ==> info[k] < |pb|
    ensures node.Interior? && node.splitAxis == axis
    ensures totalNodes' + 1 == totalNodes + NodeCount(node)
    ensures |ordered'| == |ordered| + (end - start) && ordered'[..|ordered|] == ordered
    ensures multiset(ordered'[|ordered|..]) == multiset(old(info[start..end]))
    ensures PrimCount(node) == end - start
    ensures Tiles(node, |ordered|, true)
    ensures BoundsOk(node, pb, ordered')
    decreases end - start, 0
  {
    ghost var s1 := info[..];
    var right, tn1, ord1 := RecursiveBuild(pb, info, mid, end, maxPrims, splitMethod, totalNodes, ordered);
    ghost var s2 := info[..];
    var left, tn2, ord2 := RecursiveBuild(pb, info, start, mid, maxPrims, splitMethod, tn1, ord1);
    assert |ord1| == |ordered| + PrimCount(right);
    InteriorTiles(axis, left, right, |ordered|, true);
    node := MakeInterior(axis, left, right);
    totalNodes', ordered' := tn2, ord2;
    ChildrenCompose(s1, s2, info[..], start, mid, end, true);
    forall k | start <= k < end
      ensures info[k] < |pb|
    {
      if mid <= k {
        assert info[k] == s2[k];
      }
    }
    OrderedAppends(ordered, ord1, ord2);
    BoundsOkExtend(right, pb, ord1, ord2[|ord1|..]);
  }

  /** `BVH::new`: number the primitives, build the tree over all of them,
    * flatten it and cap `max_prims_per_node` at 255. An empty primitive list
    * fails the builder's non-empty assertion; that is the `None` result. */
  method New(maxPrims: nat, pb: seq<Bounds3>, splitMethod: SplitMethod)
    returns (bvh: Option<BvhData<nat>>, ghost root: BuildNode)
    requires PrimsFinite(pb)
    ensures bvh.None? <==> |pb| == 0
    ensures bvh.Some? ==>
              var b := bvh.value;
              b.maxPrimsPerNode == MinI(maxPrims, 255) &&
              multiset(b.primitives) == multiset(Range(|pb|)) &&
              b.nodes == Linearize(root, 0) && |b.nodes| == NodeCount(root) &&
              Tiles(root, 0, true) && PrimCount(root) == |pb| && BoundsOk(root, pb, b.primitives)
  {
    root := Leaf(New3(), 0, 0);
    if |pb| == 0 {
      return None, root;
    }
    var info := new nat[|pb|](i requires 0 <= i => i);
    assert info[0..|pb|] == Range(|pb|);
    var tree, totalNodes, ordered := RecursiveBuild(pb, info, 0, |pb|, maxPrims, splitMethod, 0, []);
    root := tree;
    var nodes, _ := Flatten(tree, []);
    assert ordered[0..] == ordered;
    assert |nodes| == totalNodes;
    bvh := Some(BvhData(MinI(maxPrims, 255), ordered, nodes));
  }
}
