/** The bounding volume hierarchy's tree shapes (rustracer-core/src/bvh/mod.rs:498-573
  * and src/bvh/mod.rs:235-306): the linked tree the builder returns, the
  * depth-first array `flatten_bvh` produces from it, and the invariants that
  * tie leaves to slices of the reordered primitive list. Primitives are
  * identified by their index into the builder's input; `pb[i]` stands for
  * `prims[i].world_bounds()`. */
module BvhTree {
  import opened Util
  import opened Bounds

  /** `BVHPrimitiveInfo::new`: the centroid is the midpoint 0.5 * p_min + 0.5 * p_max. */
  function Centroid(b: Bounds3): (c: Vec3)
    ensures Valid3(b) ==> Inside3(b, c)
    ensures InF32Range(b) ==> Inside3(Bounds3(Vec3(-F32_MAX, -F32_MAX, -F32_MAX), Vec3(F32_MAX, F32_MAX, F32_MAX)), c)
  {
    Vec3(0.5 * b.pMin.x + 0.5 * b.pMax.x, 0.5 * b.pMin.y + 0.5 * b.pMax.y, 0.5 * b.pMin.z + 0.5 * b.pMax.z)
  }

  /** Every primitive bound is a finite `f32` box. */
  predicate PrimsFinite(pb: seq<Bounds3>)
  {
    forall i :: 0 <= i < |pb| ==> InF32Range(pb[i])
  }

  /** Every entry of `s` names a primitive. */
  predicate AllBelow(s: seq<nat>, n: nat)
  {
    forall k :: 0 <= k < |s| ==> s[k] < n
  }

  /** The fold `union(b, bounds)` from `Bounds3::new()` over the primitives `s`. */
  function UnionAll(pb: seq<Bounds3>, s: seq<nat>): (r: Bounds3)
    requires AllBelow(s, |pb|)
  {
    if |s| == 0 then New3() else Union3(UnionAll(pb, s[..|s| - 1]), pb[s[|s| - 1]])
  }

  /** The fold `union_point(b, centroid)` from `Bounds3::new()` over the primitives `s`. */
  function CentroidBounds(pb: seq<Bounds3>, s: seq<nat>): (r: Bounds3)
    requires AllBelow(s, |pb|)
  {
    if |s| == 0 then New3() else UnionPoint3(CentroidBounds(pb, s[..|s| - 1]), Centroid(pb[s[|s| - 1]]))
  }

  /** The union of a list of boxes encloses each of them. */
  lemma {:induction false} UnionAllEncloses(pb: seq<Bounds3>, s: seq<nat>, k: nat)
    requires AllBelow(s, |pb|) && k < |s|
    ensures Encloses3(UnionAll(pb, s), pb[s[k]])
    decreases |s|
  {
    if k < |s| - 1 {
      UnionAllEncloses(pb, s[..|s| - 1], k);
    }
  }

  /** The centroid bounds contain every centroid, and for finite boxes each side
    * is attained by some centroid: `kMin` on the low side of `dim`, `kMax` on the high side. */
  lemma {:induction false} CentroidBoundsAttained(pb: seq<Bounds3>, s: seq<nat>, dim: nat) returns (kMin: nat, kMax: nat)
    requires AllBelow(s, |pb|) && PrimsFinite(pb) && |s| >= 1 && dim < 3
    ensures kMin < |s| && kMax < |s|
    ensures Centroid(pb[s[kMin]]).Get(dim) == CentroidBounds(pb, s).pMin.Get(dim)
    ensures Centroid(pb[s[kMax]]).Get(dim) == CentroidBounds(pb, s).pMax.Get(dim)
    ensures forall k :: 0 <= k < |s| ==> Inside3(CentroidBounds(pb, s), Centroid(pb[s[k]]))
    decreases |s|
  {
    var last := |s| - 1;
    var c := Centroid(pb[s[last]]);
    assert InF32Range(pb[s[last]]);
    if |s| == 1 {
      kMin, kMax := 0, 0;
    } else {
      var init := s[..last];
      var k0, k1 := CentroidBoundsAttained(pb, init, dim);
      var prev := CentroidBounds(pb, init);
      kMin := if c.Get(dim) < prev.pMin.Get(dim) then last else k0;
      kMax := if c.Get(dim) > prev.pMax.Get(dim) then last else k1;
      forall k | 0 <= k < |s|
        ensures Inside3(CentroidBounds(pb, s), Centroid(pb[s[k]]))
      {
        if k < last {
          assert s[k] == init[k];
        }
      }
    }
  }

  // ---------------------------------------------------------------------------
  // Build nodes
  // ---------------------------------------------------------------------------

  /** `BVHBuildNode`. */
  datatype BuildNode =
    | Leaf(bounds: Bounds3, firstPrimOffset: nat, nPrims: nat)
    | Interior(bounds: Bounds3, splitAxis: Axis, left: BuildNode, right: BuildNode)

  /** `BVHBuildNode::interior`: the bounds are the union of the children's. */
  function MakeInterior(axis: Axis, left: BuildNode, right: BuildNode): (n: BuildNode)
    ensures n.Interior? && n.splitAxis == axis && n.left == left && n.right == right
    ensures Encloses3(n.bounds, left.bounds) && Encloses3(n.bounds, right.bounds)
    ensures forall o :: Encloses3(o, left.bounds) && Encloses3(o, right.bounds) ==> Encloses3(o, n.bounds)
  {
    Interior(Union3(left.bounds, right.bounds), axis, left, right)
  }

  function NodeCount(n: BuildNode): (c: nat)
    ensures c >= 1
  {
    match n
    case Leaf(_, _, _) => 1
    case Interior(_, _, l, r) => 1 + NodeCount(l) + NodeCount(r)
  }

  /** Number of primitives referenced by the leaves of `n`. */
  function PrimCount(n: BuildNode): nat
  {
    match n
    case Leaf(_, _, cnt) => cnt
    case Interior(_, _, l, r) => PrimCount(l) + PrimCount(r)
  }

  /** Interior levels above the deepest leaf: a leaf has height 0. */
  function Height(n: BuildNode): nat
  {
    match n
    case Leaf(_, _, _) => 0
    case Interior(_, _, l, r) => 1 + MaxI(Height(l), Height(r))
  }

  /** The leaves of `n` own consecutive, non-empty slices of the ordered
    * primitive list starting at `lo`, in the order the builder appended them:
    * the right child first in the core builder, the left child first in the
    * legacy one. */
  predicate Tiles(n: BuildNode, lo: nat, rightFirst: bool)
  {
    match n
    case Leaf(_, first, cnt) => first == lo && cnt >= 1
    case Interior(_, _, l, r) =>
      if rightFirst then Tiles(r, lo, true) && Tiles(l, lo + PrimCount(r), true)
      else Tiles(l, lo, false) && Tiles(r, lo + PrimCount(l), false)
  }

  /** An interior node over two children that tile consecutive ranges
    * tiles their union. */
  lemma InteriorTiles(axis: Axis, left: BuildNode, right: BuildNode, lo: nat, rightFirst: bool)
    requires rightFirst ==> Tiles(right, lo, true) && Tiles(left, lo + PrimCount(right), true)
    requires !rightFirst ==> Tiles(left, lo, false) && Tiles(right, lo + PrimCount(left), false)
    ensures Tiles(MakeInterior(axis, left, right), lo, rightFirst)
  {
  }

  /** How many leaves of `n` own position `j` of the ordered primitive list. */
  function Owners(n: BuildNode, j: nat): nat
  {
    match n
    case Leaf(_, first, cnt) => if first <= j < first + cnt then 1 else 0
    case Interior(_, _, l, r) => Owners(l, j) + Owners(r, j)
  }

  /** Leaf slices are pairwise disjoint and tile [lo, lo + PrimCount(n)): each
    * position inside is owned by exactly one leaf, each position outside by none. */
  lemma {:induction false} TilesOwnOnce(n: BuildNode, lo: nat, rightFirst: bool, j: nat)
    requires Tiles(n, lo, rightFirst)
    ensures Owners(n, j) == if lo <= j < lo + PrimCount(n) then 1 else 0
  {
    match n
    case Leaf(_, _, _) =>
    case Interior(_, _, l, r) =>
      if rightFirst {
        TilesOwnOnce(r, lo, true, j);
        TilesOwnOnce(l, lo + PrimCount(r), true, j);
      } else {
        TilesOwnOnce(l, lo, false, j);
        TilesOwnOnce(r, lo + PrimCount(l), false, j);
      }
  }

  /** Every leaf slice of a tiled tree lies inside [lo, lo + PrimCount(n)). */
  predicate LeavesWithin(n: BuildNode, size: nat)
  {
    match n
    case Leaf(_, first, cnt) => first + cnt <= size
    case Interior(_, _, l, r) => LeavesWithin(l, size) && LeavesWithin(r, size)
  }

  lemma {:induction false} TilesWithin(n: BuildNode, lo: nat, rightFirst: bool, size: nat)
    requires Tiles(n, lo, rightFirst) && lo + PrimCount(n) <= size
    ensures LeavesWithin(n, size)
  {
    match n
    case Leaf(_, _, _) =>
    case Interior(_, _, l, r) =>
      if rightFirst {
        TilesWithin(r, lo, true, size);
        TilesWithin(l, lo + PrimCount(r), true, size);
      } else {
        TilesWithin(l, lo, false, size);
        TilesWithin(r, lo + PrimCount(l), false, size);
      }
  }

  /** Leaf bounds are the union of their primitives' bounds, read through the
    * ordered list; interior bounds are the union of the children's. */
  predicate BoundsOk(n: BuildNode, pb: seq<Bounds3>, ordered: seq<nat>)
  {
    match n
    case Leaf(b, first, cnt) =>
      first + cnt <= |ordered| && AllBelow(ordered[first..first + cnt], |pb|) &&
      b == UnionAll(pb, ordered[first..first + cnt])
    case Interior(b, _, l, r) =>
      b == Union3(l.bounds, r.bounds) && BoundsOk(l, pb, ordered) && BoundsOk(r, pb, ordered)
  }

  /** Appending to the ordered list keeps the bounds of an existing subtree valid. */
  lemma {:induction false} BoundsOkExtend(n: BuildNode, pb: seq<Bounds3>, ordered: seq<nat>, more: seq<nat>)
    requires BoundsOk(n, pb, ordered)
    ensures BoundsOk(n, pb, ordered + more)
  {
    match n
    case Leaf(_, first, cnt) =>
      assert (ordered + more)[first..first + cnt] == ordered[first..first + cnt];
    case Interior(_, _, l, r) =>
      BoundsOkExtend(l, pb, ordered, more);
      BoundsOkExtend(r, pb, ordered, more);
  }

  /** Bounds containment: a node's box encloses the box of every primitive in
    * its slice of the ordered list. */
  lemma {:induction false} BoundsContainPrims(n: BuildNode, pb: seq<Bounds3>, ordered: seq<nat>,
                                              lo: nat, rightFirst: bool, k: nat)
    requires BoundsOk(n, pb, ordered) && Tiles(n, lo, rightFirst)
    requires lo <= k < lo + PrimCount(n)
    ensures k < |ordered| && ordered[k] < |pb| && Encloses3(n.bounds, pb[ordered[k]])
  {
    match n
    case Leaf(_, first, cnt) =>
      var s := ordered[first..first + cnt];
      assert s[k - first] == ordered[k];
      UnionAllEncloses(pb, s, k - first);
    case Interior(_, _, l, r) =>
      var (a, b) := if rightFirst then (r, l) else (l, r);
      if k < lo + PrimCount(a) {
        BoundsContainPrims(a, pb, ordered, lo, rightFirst, k);
      } else {
        BoundsContainPrims(b, pb, ordered, lo + PrimCount(a), rightFirst, k);
      }
  }

  // ---------------------------------------------------------------------------
  // Linear nodes
  // ---------------------------------------------------------------------------

  /** `LinearBVHNodeData`. */
  datatype LinearData =
    | LinearLeaf(primitivesOffset: nat, nPrims: nat)
    | LinearInterior(secondChildOffset: nat, axis: Axis)

  /** `LinearBVHNode`. */
  datatype LinearNode = LinearNode(bounds: Bounds3, data: LinearData)

  /** The depth-first layout of `n` when its root lands at index `base`: the
    * node itself, then its first child's subtree, then its second child's. */
  function Linearize(n: BuildNode, base: nat): (s: seq<LinearNode>)
    ensures |s| == NodeCount(n)
  {
    match n
    case Leaf(b, first, cnt) => [LinearNode(b, LinearLeaf(first, cnt))]
    case Interior(b, axis, l, r) =>
      [LinearNode(b, LinearInterior(base + 1 + NodeCount(l), axis))]
        + Linearize(l, base + 1) + Linearize(r, base + 1 + NodeCount(l))
  }

  /** `flatten_bvh`: pushes a placeholder for an interior node, flattens both
    * children, then patches `second_child_offset` with the second child's
    * offset. Returns the offset of the node it flattened. */
  method Flatten(node: BuildNode, nodes: seq<LinearNode>) returns (nodes': seq<LinearNode>, offset: nat)
    ensures offset == |nodes|
    ensures nodes' == nodes + Linearize(node, |nodes|)
    decreases node
  {
    offset := |nodes|;
    match node
    case Leaf(b, first, cnt) =>
      nodes' := nodes + [LinearNode(b, LinearLeaf(first, cnt))];
    case Interior(b, axis, l, r) =>
      nodes' := nodes + [LinearNode(b, LinearInterior(0, axis))];
      var firstOffset, secondOffset;
      nodes', firstOffset := Flatten(l, nodes');
      nodes', secondOffset := Flatten(r, nodes');
      nodes' := nodes'[offset := LinearNode(b, LinearInterior(secondOffset, axis))];
      assert nodes' == nodes + Linearize(node, offset);
  }

  /** `n` is laid out in `nodes` with its root at index `base`: a leaf's
    * entry keeps its slice; an interior node's first child sits right after
    * it and its second child at `second_child_offset`. */
  predicate Layout(nodes: seq<LinearNode>, n: BuildNode, base: nat)
    decreases n
  {
    base < |nodes| &&
    match n
    case Leaf(b, first, cnt) => nodes[base] == LinearNode(b, LinearLeaf(first, cnt))
    case Interior(b, axis, l, r) =>
      nodes[base] == LinearNode(b, LinearInterior(base + 1 + NodeCount(l), axis)) &&
      Layout(nodes, l, base + 1) && Layout(nodes, r, base + 1 + NodeCount(l))
  }

  /** The depth-first layout of `n`, placed after `pre` and followed by
    * anything, is read back as `n`. */
  lemma {:induction false} LayoutInContext(pre: seq<LinearNode>, n: BuildNode, post: seq<LinearNode>)
    ensures Layout(pre + Linearize(n, |pre|) + post, n, |pre|)
    decreases n
  {
    var nodes := pre + Linearize(n, |pre|) + post;
    match n
    case Leaf(b, first, cnt) =>
      assert nodes == pre + [LinearNode(b, LinearLeaf(first, cnt))] + post;
    case Interior(b, axis, l, r) =>
      var head := LinearNode(b, LinearInterior(|pre| + 1 + NodeCount(l), axis));
      var ls, rs := Linearize(l, |pre| + 1), Linearize(r, |pre| + 1 + NodeCount(l));
      assert nodes == pre + [head] + ls + rs + post;
      assert nodes[|pre|] == head;
      assert nodes == (pre + [head]) + ls + (rs + post);
      assert nodes == (pre + [head] + ls) + rs + post;
      LayoutInContext(pre + [head], l, rs + post);
      LayoutInContext(pre + [head] + ls, r, post);
  }

  /** The flattened array of `n` is read back as `n`, rooted at index 0. */
  lemma LinearizeIsLayout(n: BuildNode)
    ensures Layout(Linearize(n, 0), n, 0)
  {
    LayoutInContext([], n, []);
    assert [] + Linearize(n, 0) + [] == Linearize(n, 0);
  }
}
