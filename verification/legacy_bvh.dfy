/** The BVH of the original renderer (src/bvh/mod.rs). It builds with the
  * middle split only, recurses into the left child first, collects
  * primitive numbers and reorders the primitives afterwards with two sorts.
  * Its boxes are the same axis-aligned bounds as the core's. */
module LegacyBvh {
  import opened Util
  import opened Wrappers
  import opened Bounds
  import opened BvhTree
  import opened BvhSplit
  import opened Bvh
  import opened BvhTraversal

  /** `recursive_build` (src/bvh/mod.rs:66-135) over the non-empty range
    * [start, end): a leaf for one primitive or coincident centroids,
    * otherwise a middle split and two children, left first. */
  method RecursiveBuild(pb: seq<Bounds3>, info: array<nat>, start: nat, end: nat,
                        totalNodes: nat, ordered: seq<nat>)
    returns (node: BuildNode, totalNodes': nat, ordered': seq<nat>)
    requires start < end <= info.Length
    requires forall k :: start <= k < end ==> info[k] < |pb|
    modifies info
    ensures SameOutside(info[..], old(info[..]), start, end)
    ensures multiset(info[start..end]) == multiset(old(info[start..end]))
    ensures forall k :: start <= k < end ==> info[k] < |pb|
    ensures totalNodes' == totalNodes + NodeCount(node)
    ensures |ordered'| == |ordered| + (end - start) && ordered'[..|ordered|] == ordered
    ensures multiset(ordered'[|ordered|..]) == multiset(old(info[start..end]))
    ensures PrimCount(node) == end - start
    ensures Tiles(node, |ordered|, false)
    ensures BoundsOk(node, pb, ordered')
    decreases end - start, 1
  {
    var bounds := UnionAll(pb, info[start..end]);
    if end - start == 1 {
      node, ordered' := MakeLeaf(pb, info, start, end, ordered, bounds);
      totalNodes' := totalNodes + 1;
      return;
    }
    var cb := CentroidBounds(pb, info[start..end]);
    var axis := MaximumExtent(cb);
    var dim := axis.Index();
    if cb.pMin.Get(dim) == cb.pMax.Get(dim) {
      node, ordered' := MakeLeaf(pb, info, start, end, ordered, bounds);
      totalNodes' := totalNodes + 1;
      return;
    }
    var mid, fallback := MiddleSplit(pb, info, start, end, cb, dim);
    node, totalNodes', ordered' := BuildChildren(pb, info, start, mid, end, axis, totalNodes + 1, ordered);
  }

  /** The two recursive calls of `recursive_build` (src/bvh/mod.rs:119-131):
    * the left child over [start, mid), then the right over [mid, end).
    * `totalNodes` already counts the interior node. */
  method BuildChildren(pb: seq<Bounds3>, info: array<nat>, start: nat, mid: nat, end: nat, axis: Axis,
                       totalNodes: nat, ordered: seq<nat>)
    returns (node: BuildNode, totalNodes': nat, ordered': seq<nat>)
    requires start < mid < end <= info.Length
    requires forall k :: start <= k < end ==> info[k] < |pb|
    modifies info
    ensures SameOutside(info[..], old(info[..]), start, end)
    ensures multiset(info[start..end]) == multiset(old(info[start..end]))
    ensures forall k :: start <= k < end ==> info[k] < |pb|
    ensures node.Interior? && node.splitAxis == axis
    ensures totalNodes' + 1 == totalNodes + NodeCount(node)
    ensures |ordered'| == |ordered| + (end - start) && ordered'[..|ordered|] == ordered
    ensures multiset(ordered'[|ordered|..]) == multiset(old(info[start..end]))
    ensures PrimCount(node) == end - start
    ensures Tiles(node, |ordered|, false)
    ensures BoundsOk(node, pb, ordered')
    decreases end - start, 0
  {
    ghost var s1 := info[..];
    var left, tn1, ord1 := RecursiveBuild(pb, info, start, mid, totalNodes, ordered);
    ghost var s2 := info[..];
    var right, tn2, ord2 := RecursiveBuild(pb, info, mid, end, tn1, ord1);
    node := MakeInterior(axis, left, right);
    totalNodes', ordered' := tn2, ord2;
    InteriorTiles(axis, left, right, |ordered|, false);
    ChildrenCompose(s1, s2, info[..], start, mid, end, false);
    forall k | start <= k < end
      ensures info[k] < |pb|
    {
      if k < mid {
        assert info[k] == s2[k];
      }
    }
    OrderedAppends(ordered, ord1, ord2);
    BoundsOkExtend(left, pb, ord1, ord2[|ord1|..]);
  }

  /** The reordering in `BVH::new` (src/bvh/mod.rs:42-48). Sorting the pairs
    * (position, primitive number) by primitive number yields, for every
    * primitive, its position in `ordered`; sorting the primitives by that
    * position puts primitive `ordered[k]` at `k`. The keys of both sorts are
    * distinct, so each sort's result is the scatter written here. */
  method Reorder<T>(prims: seq<T>, ordered: seq<nat>) returns (out: seq<T>)
    requires multiset(ordered) == multiset(Range(|prims|))
    ensures |out| == |prims| == |ordered|
    ensures forall k :: 0 <= k < |out| ==> ordered[k] < |prims| && out[k] == prims[ordered[k]]
  {
    PermutationOfRange(ordered, |prims|);
    var n := |prims|;
    var position := new nat[n];
    var k := 0;
    while k < n
      invariant k <= n
      invariant forall j :: 0 <= j < k ==> position[ordered[j]] == j
    {
      position[ordered[k]] := k;
      k := k + 1;
    }
    forall i | 0 <= i < n
      ensures position[i] < n && ordered[position[i]] == i
    {
      assert i in ordered;
      var j :| 0 <= j < n && ordered[j] == i;
    }
    var arr := new T[n](i requires 0 <= i < n => prims[i]);
    var i := 0;
    while i < n
      invariant i <= n
      invariant forall j :: 0 <= j < n ==> position[j] < n && ordered[position[j]] == j
      invariant forall j :: 0 <= j < i ==> arr[position[j]] == prims[j]
    {
      arr[position[i]] := prims[i];
      i := i + 1;
    }
    out := arr[..];
    forall k | 0 <= k < n
      ensures out[k] == prims[ordered[k]]
    {
      assert position[ordered[k]] == k;
    }
  }

  /** `BVH::new` (src/bvh/mod.rs:16-64): number the primitives, build, reorder
    * the primitives by the build's order, flatten, and cap
    * `max_prims_per_node` at 255. An empty list fails the builder's
    * `assert!(start != end)`; that is the `None` result. */
  method New<T>(maxPrims: nat, prims: seq<T>, pb: seq<Bounds3>)
    returns (bvh: Option<BvhData<T>>, ghost root: BuildNode, ghost ordered: seq<nat>)
    requires |pb| == |prims|
    ensures bvh.None? <==> |prims| == 0
    ensures bvh.Some? ==>
              var b := bvh.value;
              b.maxPrimsPerNode == MinI(maxPrims, 255) &&
              multiset(ordered) == multiset(Range(|prims|)) &&
              |b.primitives| == |prims| == |ordered| &&
              (forall k :: 0 <= k < |prims| ==> ordered[k] < |prims| && b.primitives[k] == prims[ordered[k]]) &&
              b.nodes == Linearize(root, 0) &&
              Tiles(root, 0, false) && PrimCount(root) == |prims| && BoundsOk(root, pb, ordered)
  {
    root, ordered := Leaf(New3(), 0, 0), [];
    if |prims| == 0 {
      return None, root, ordered;
    }
    var info := new nat[|pb|](i requires 0 <= i => i);
    assert info[0..|pb|] == Range(|pb|);
    var tree, totalNodes, order := RecursiveBuild(pb, info, 0, |pb|, 0, []);
    root, ordered := tree, order;
    assert order[0..] == order;
    var primitives := Reorder(prims, order);
    var nodes, _ := Flatten(tree, []);
    assert |nodes| == totalNodes;
    bvh := Some(BvhData(MinI(maxPrims, 255), primitives, nodes));
  }

  /** `BVH::intersect` (src/bvh/mod.rs:173-231): the same stack traversal as
    * the core's, with the closure `f` as the primitive test. */
  method Intersect<T, R>(bvh: BvhData<T>, ghost root: BuildNode, q: Probe<T, R>, tMax0: real)
    returns (result: Option<R>, tMax: real)
    requires |q.dirIsNeg| == 3
    requires |bvh.nodes| == 0 ||
             (bvh.nodes == Linearize(root, 0) && Height(root) <= 64 && LeavesWithin(root, |bvh.primitives|))
    ensures |bvh.nodes| == 0 ==> result == None && tMax == tMax0
    ensures |bvh.nodes| > 0 ==> Search(result, tMax) == Visit(q, bvh.primitives, root, Search(None, tMax0))
  {
    result, tMax := BvhTraversal.Intersect(q, bvh.primitives, bvh.nodes, root, tMax0);
  }
}
