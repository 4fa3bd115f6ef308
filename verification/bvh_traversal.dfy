// Ray traversal of the flattened BVH (rustracer-core/src/bvh/mod.rs:350-479).
//
// The ray is seen through a `Probe`: which axes its direction is negative on,
// the slab test of a node's box at the ray's current `t_max`, and the
// primitive intersection, which on a hit reports the interaction and the new
// `t_max` it writes back into the ray.

module BvhTraversal {
  import opened Util
  import opened Wrappers
  import opened Bounds
  import opened BvhTree

  datatype Probe<!T, H> = Probe(dirIsNeg: seq<bool>,
                               boxHit: (Bounds3, real) -> bool,
                               hit: (T, real) -> Option<(H, real)>)

  /** What the traversal carries: the interaction found so far and the ray's `t_max`. */
  datatype Search<H> = Search(result: Option<H>, tMax: real)

  /** One primitive test: `result = prim.intersect(ray).or(result)`, with the
    * ray's `t_max` moved to the hit. */
  function ScanStep<T, H>(q: Probe<T, H>, p: T, st: Search<H>): Search<H>
  {
    var h := q.hit(p, st.tMax);
    if h.Some? then Search(Some(h.value.0).Or(st.result), h.value.1) else st
  }

  /** The first `count` primitives of a leaf starting at `first`, tried in order. */
  function LeafScan<T, H>(q: Probe<T, H>, prims: seq<T>, first: nat, count: nat, st: Search<H>): Search<H>
    requires first + count <= |prims|
  {
    if count == 0 then st else ScanStep(q, prims[first + count - 1], LeafScan(q, prims, first, count - 1, st))
  }

  /** The traversal of the subtree `n` as the loop performs it: a node whose box
    * the ray misses is skipped; an interior node visits its second child first
    * when the ray runs backwards along the split axis. */
  function Visit<T, H>(q: Probe<T, H>, prims: seq<T>, n: BuildNode, st: Search<H>): Search<H>
    requires |q.dirIsNeg| == 3 && LeavesWithin(n, |prims|)
    decreases n
  {
    if !q.boxHit(n.bounds, st.tMax) then st
    else match n
      case Leaf(_, first, cnt) => LeafScan(q, prims, first, cnt, st)
      case Interior(_, axis, l, r) =>
        if q.dirIsNeg[axis.Index()] then Visit(q, prims, l, Visit(q, prims, r, st))
        else Visit(q, prims, r, Visit(q, prims, l, st))
  }

  predicate AllWithin(todo: seq<BuildNode>, size: nat)
  {
    |todo| > 0 ==> AllWithin(todo[..|todo| - 1], size) && LeavesWithin(todo[|todo| - 1], size)
  }

  /** The pending nodes of the `nodes_to_visit` stack, visited from the top down. */
  function RunStack<T, H>(q: Probe<T, H>, prims: seq<T>, todo: seq<BuildNode>, st: Search<H>): Search<H>
    requires |q.dirIsNeg| == 3 && AllWithin(todo, |prims|)
  {
    if |todo| == 0 then st
    else RunStack(q, prims, todo[..|todo| - 1], Visit(q, prims, todo[|todo| - 1], st))
  }

  /** How many nodes the traversal may still visit from the stack. */
  function StackNodes(todo: seq<BuildNode>): nat
  {
    if |todo| == 0 then 0 else StackNodes(todo[..|todo| - 1]) + NodeCount(todo[|todo| - 1])
  }

  /** The stack `nodes_to_visit[..|todo|]` holds the indices of the pending
    * subtrees `todo`; the entry at depth `i` roots a subtree low enough for
    * the stack never to grow past 64 entries. */
  ghost predicate StackOk(nodes: seq<LinearNode>, todo: seq<BuildNode>, idx: seq<nat>, size: nat)
  {
    |todo| == |idx| <= 64 &&
    (|todo| > 0 ==>
      var m := |todo| - 1;
      StackOk(nodes, todo[..m], idx[..m], size) &&
      Layout(nodes, todo[m], idx[m]) && LeavesWithin(todo[m], size) && m + Height(todo[m]) <= 64)
  }

  lemma StackOkWithin(nodes: seq<LinearNode>, todo: seq<BuildNode>, idx: seq<nat>, size: nat)
    requires StackOk(nodes, todo, idx, size)
    ensures AllWithin(todo, size)
  {
    if |todo| > 0 {
      StackOkWithin(nodes, todo[..|todo| - 1], idx[..|idx| - 1], size);
    }
  }

  lemma StackPush(nodes: seq<LinearNode>, todo: seq<BuildNode>, idx: seq<nat>, size: nat, n: BuildNode, base: nat)
    requires StackOk(nodes, todo, idx, size)
    requires Layout(nodes, n, base) && LeavesWithin(n, size) && |todo| + Height(n) <= 63
    ensures StackOk(nodes, todo + [n], idx + [base], size)
    ensures AllWithin(todo + [n], size)
    ensures StackNodes(todo + [n]) == StackNodes(todo) + NodeCount(n)
  {
    StackOkWithin(nodes, todo, idx, size);
    assert (todo + [n])[..|todo|] == todo;
    assert (idx + [base])[..|idx|] == idx;
  }

  /** Popping the top of the stack yields a laid-out subtree low enough to descend into. */
  lemma StackPop(nodes: seq<LinearNode>, todo: seq<BuildNode>, idx: seq<nat>, size: nat)
    requires StackOk(nodes, todo, idx, size) && |todo| > 0
    ensures var m := |todo| - 1;
            StackOk(nodes, todo[..m], idx[..m], size) && AllWithin(todo[..m], size) &&
            Layout(nodes, todo[m], idx[m]) && LeavesWithin(todo[m], size) && m + Height(todo[m]) <= 64 &&
            StackNodes(todo) == StackNodes(todo[..m]) + NodeCount(todo[m])
  {
    StackOkWithin(nodes, todo[..|todo| - 1], idx[..|idx| - 1], size);
  }

  /** The children of a laid-out interior node are laid out where the loop looks for them. */
  lemma LayoutChildren(nodes: seq<LinearNode>, n: BuildNode, base: nat, size: nat)
    requires Layout(nodes, n, base) && LeavesWithin(n, size) && n.Interior?
    ensures nodes[base].data == LinearInterior(base + 1 + NodeCount(n.left), n.splitAxis)
    ensures Layout(nodes, n.left, base + 1) && Layout(nodes, n.right, base + 1 + NodeCount(n.left))
    ensures LeavesWithin(n.left, size) && LeavesWithin(n.right, size)
    ensures Height(n.left) < Height(n) && Height(n.right) < Height(n)
    ensures NodeCount(n) == 1 + NodeCount(n.left) + NodeCount(n.right)
  {
  }

  /** Descending into an interior node whose box is hit: the near child is
    * visited now and the far child waits on top of the stack. */
  lemma RunStackDescend<T, H>(q: Probe<T, H>, prims: seq<T>, todo: seq<BuildNode>, n: BuildNode, st: Search<H>)
    requires |q.dirIsNeg| == 3 && AllWithin(todo, |prims|) && LeavesWithin(n, |prims|)
    requires n.Interior? && q.boxHit(n.bounds, st.tMax)
    ensures var neg := q.dirIsNeg[n.splitAxis.Index()];
            var near := if neg then n.right else n.left;
            var far := if neg then n.left else n.right;
            AllWithin(todo + [far], |prims|) &&
            RunStack(q, prims, todo + [far], Visit(q, prims, near, st)) == RunStack(q, prims, todo, Visit(q, prims, n, st))
  {
    var neg := q.dirIsNeg[n.splitAxis.Index()];
    var far := if neg then n.left else n.right;
    assert (todo + [far])[..|todo|] == todo;
  }

  /** Where the loop stands: the current subtree `node` at index `current`,
    * the pending subtrees `todo` at the stack's indices `idx`, all laid out in
    * `nodes`, with leaves inside the primitive list and room on the stack for
    * every level still to descend. */
  ghost predicate Frontier(nodes: seq<LinearNode>, size: nat, todo: seq<BuildNode>, idx: seq<nat>,
                           node: BuildNode, current: nat)
  {
    StackOk(nodes, todo, idx, size) && AllWithin(todo, size) &&
    Layout(nodes, node, current) && LeavesWithin(node, size) && |todo| + Height(node) <= 64
  }

  /** Popping `nodes_to_visit`: the next subtree comes off the top of the stack. */
  method Pop(nodes: seq<LinearNode>, stack: array<nat>, toVisit: nat, ghost size: nat, ghost todo: seq<BuildNode>)
    returns (toVisit': nat, current: nat, ghost node: BuildNode, ghost todo': seq<BuildNode>)
    requires 0 < toVisit <= stack.Length && StackOk(nodes, todo, stack[..toVisit], size)
    ensures toVisit' == toVisit - 1 && todo' == todo[..toVisit'] && node == todo[toVisit']
    ensures Frontier(nodes, size, todo', stack[..toVisit'], node, current)
    ensures StackNodes(todo) == StackNodes(todo') + NodeCount(node)
  {
    StackPop(nodes, todo, stack[..toVisit], size);
    toVisit' := toVisit - 1;
    assert stack[..toVisit'] == stack[..toVisit][..toVisit'];
    current := stack[toVisit'];
    node, todo' := todo[toVisit'], todo[..toVisit'];
  }

  /** Descending into an interior node: with `dirNeg` the second child is
    * visited first and the first child (right after the node) is pushed;
    * otherwise the first child is visited and the second pushed. */
  method Descend(nodes: seq<LinearNode>, stack: array<nat>, toVisit: nat, current: nat, dirNeg: bool,
                 ghost size: nat, ghost todo: seq<BuildNode>, ghost node: BuildNode)
    returns (toVisit': nat, current': nat, ghost node': BuildNode, ghost todo': seq<BuildNode>)
    requires stack.Length == 64 && |todo| == toVisit <= 64
    requires Frontier(nodes, size, todo, stack[..toVisit], node, current) && nodes[current].data.LinearInterior?
    modifies stack
    ensures node.Interior?
    ensures toVisit' == toVisit + 1 && todo' == todo + [if dirNeg then node.left else node.right]
    ensures node' == if dirNeg then node.right else node.left
    ensures Frontier(nodes, size, todo', stack[..toVisit'], node', current')
    ensures StackNodes(todo') + NodeCount(node') < StackNodes(todo) + NodeCount(node)
  {
    assert node.Interior?;
    LayoutChildren(nodes, node, current, size);
    ghost var idx := stack[..toVisit];
    var second := nodes[current].data.secondChildOffset;
    var farIdx := if dirNeg then current + 1 else second;
    current' := if dirNeg then second else current + 1;
    ghost var far := if dirNeg then node.left else node.right;
    node' := if dirNeg then node.right else node.left;
    StackPush(nodes, todo, idx, size, far, farIdx);
    stack[toVisit] := farIdx;
    assert stack[..toVisit + 1] == idx + [farIdx];
    todo' := todo + [far];
    toVisit' := toVisit + 1;
  }

  /** `BVH::intersect`: an empty BVH finds nothing; otherwise the loop with its
    * 64-entry stack computes exactly `Visit` of the whole tree. The stack
    * holds at most one entry per level above the current node, so trees of
    * height at most 64 never overflow it. */
  method Intersect<T, H>(q: Probe<T, H>, prims: seq<T>, nodes: seq<LinearNode>, ghost root: BuildNode, tMax0: real)
    returns (result: Option<H>, tMax: real)
    requires |q.dirIsNeg| == 3
    requires |nodes| == 0 || (nodes == Linearize(root, 0) && Height(root) <= 64 && LeavesWithin(root, |prims|))
    ensures |nodes| == 0 ==> result == None && tMax == tMax0
    ensures |nodes| > 0 ==> Search(result, tMax) == Visit(q, prims, root, Search(None, tMax0))
  {
    result, tMax := None, tMax0;
    if |nodes| == 0 {
      return;
    }
    ghost var final := Visit(q, prims, root, Search(None, tMax0));
    var stack := new nat[64];
    var toVisit: nat := 0;
    var current: nat := 0;
    ghost var node := root;
    ghost var todo: seq<BuildNode> := [];
    LinearizeIsLayout(root);
    while true
      invariant |todo| == toVisit <= 64 && Frontier(nodes, |prims|, todo, stack[..toVisit], node, current)
      invariant RunStack(q, prims, todo, Visit(q, prims, node, Search(result, tMax))) == final
      decreases NodeCount(node) + StackNodes(todo)
    {
      var linear := nodes[current];
      if q.boxHit(linear.bounds, tMax) && linear.data.LinearInterior? {
        RunStackDescend(q, prims, todo, node, Search(result, tMax));
        toVisit, current, node, todo := Descend(nodes, stack, toVisit, current, q.dirIsNeg[linear.data.axis.Index()], |prims|, todo, node);
      } else {
        var done;
        done, result, tMax, toVisit, current, node, todo := LeafThenPop(q, prims, nodes, stack, toVisit, current, node, todo, result, tMax);
        if done {
          break;
        }
      }
    }
  }

  /** The rest of a pass of `intersect`'s loop once it does not descend:
    * scan the leaf when its box is hit, then pop the next node, or stop
    * when the stack is empty. Either way the search still ends where the
    * whole traversal does. */
  method LeafThenPop<T, H>(q: Probe<T, H>, prims: seq<T>, nodes: seq<LinearNode>, stack: array<nat>,
                           toVisit: nat, current: nat, ghost node: BuildNode, ghost todo: seq<BuildNode>,
                           result: Option<H>, tMax: real)
    returns (done: bool, result': Option<H>, tMax': real, toVisit': nat, current': nat,
             ghost node': BuildNode, ghost todo': seq<BuildNode>)
    requires |q.dirIsNeg| == 3 && |todo| == toVisit <= stack.Length
    requires Frontier(nodes, |prims|, todo, stack[..toVisit], node, current)
    requires !(q.boxHit(nodes[current].bounds, tMax) && nodes[current].data.LinearInterior?)
    ensures done ==> todo == [] && Search(result', tMax') == Visit(q, prims, node, Search(result, tMax))
    ensures !done ==> |todo'| == toVisit' < toVisit && Frontier(nodes, |prims|, todo', stack[..toVisit'], node', current')
    ensures !done ==> NodeCount(node') + StackNodes(todo') < NodeCount(node) + StackNodes(todo)
    ensures !done ==> RunStack(q, prims, todo', Visit(q, prims, node', Search(result', tMax'))) ==
                      RunStack(q, prims, todo, Visit(q, prims, node, Search(result, tMax)))
  {
    VisitFlat(q, prims, nodes, node, current, Search(result, tMax));
    result', tMax' := result, tMax;
    var linear := nodes[current];
    if q.boxHit(linear.bounds, tMax) {
      result', tMax' := ScanLeaf(q, prims, linear.data.primitivesOffset, linear.data.nPrims, result, tMax);
    }
    toVisit', current', node', todo' := toVisit, current, node, todo;
    if toVisit == 0 {
      return true, result', tMax', toVisit', current', node', todo';
    }
    done := false;
    toVisit', current', node', todo' := Pop(nodes, stack, toVisit, |prims|, todo);
  }

  /** A laid-out node the loop does not descend into is visited by scanning
    * its leaf when the box is hit, and not at all otherwise. */
  lemma VisitFlat<T, H>(q: Probe<T, H>, prims: seq<T>, nodes: seq<LinearNode>, n: BuildNode, base: nat, st: Search<H>)
    requires |q.dirIsNeg| == 3 && Layout(nodes, n, base) && LeavesWithin(n, |prims|)
    requires !(q.boxHit(nodes[base].bounds, st.tMax) && nodes[base].data.LinearInterior?)
    ensures q.boxHit(nodes[base].bounds, st.tMax) ==>
              nodes[base].data.primitivesOffset + nodes[base].data.nPrims <= |prims| &&
              Visit(q, prims, n, st) == LeafScan(q, prims, nodes[base].data.primitivesOffset, nodes[base].data.nPrims, st)
    ensures !q.boxHit(nodes[base].bounds, st.tMax) ==> Visit(q, prims, n, st) == st
  {
  }

  /** The leaf loop of `intersect`: each of the leaf's primitives in turn. */
  method ScanLeaf<T, H>(q: Probe<T, H>, prims: seq<T>, offset: nat, count: nat, result: Option<H>, tMax: real)
    returns (result': Option<H>, tMax': real)
    requires offset + count <= |prims|
    ensures Search(result', tMax') == LeafScan(q, prims, offset, count, Search(result, tMax))
  {
    result', tMax' := result, tMax;
    var i := 0;
    while i < count
      invariant i <= count
      invariant Search(result', tMax') == LeafScan(q, prims, offset, i, Search(result, tMax))
    {
      var h := q.hit(prims[offset + i], tMax');
      if h.Some? {
        result', tMax' := Some(h.value.0).Or(result'), h.value.1;
      }
      i := i + 1;
    }
  }

  /** The shadow-ray query: does any primitive whose enclosing boxes all pass
    * the box test report an intersection? */
  function AnyHit<T>(prims: seq<T>, n: BuildNode, boxHitP: Bounds3 -> bool, hitP: T -> bool): bool
    requires LeavesWithin(n, |prims|)
  {
    boxHitP(n.bounds) &&
    match n
    case Leaf(_, first, cnt) => exists i :: first <= i < first + cnt && hitP(prims[i])
    case Interior(_, _, l, r) => AnyHit(prims, l, boxHitP, hitP) || AnyHit(prims, r, boxHitP, hitP)
  }

  /** Some pending subtree on the stack holds a hit. */
  predicate AnyPending<T>(prims: seq<T>, todo: seq<BuildNode>, boxHitP: Bounds3 -> bool, hitP: T -> bool)
    requires AllWithin(todo, |prims|)
  {
    |todo| > 0 &&
    (AnyPending(prims, todo[..|todo| - 1], boxHitP, hitP) || AnyHit(prims, todo[|todo| - 1], boxHitP, hitP))
  }

  /** `BVH::intersect_p`: stops at the first primitive that reports a hit. */
  method IntersectP<T>(prims: seq<T>, nodes: seq<LinearNode>, ghost root: BuildNode, dirIsNeg: seq<bool>,
                       boxHitP: Bounds3 -> bool, hitP: T -> bool)
    returns (found: bool)
    requires |dirIsNeg| == 3
    requires |nodes| == 0 || (nodes == Linearize(root, 0) && Height(root) <= 64 && LeavesWithin(root, |prims|))
    ensures |nodes| == 0 ==> !found
    ensures |nodes| > 0 ==> found == AnyHit(prims, root, boxHitP, hitP)
  {
    if |nodes| == 0 {
      return false;
    }
    var stack := new nat[64];
    var toVisit: nat := 0;
    var current: nat := 0;
    ghost var node := root;
    ghost var todo: seq<BuildNode> := [];
    LinearizeIsLayout(root);
    while true
      invariant |todo| == toVisit <= 64 && Frontier(nodes, |prims|, todo, stack[..toVisit], node, current)
      invariant AnyHit(prims, root, boxHitP, hitP) ==
                  (AnyHit(prims, node, boxHitP, hitP) || AnyPending(prims, todo, boxHitP, hitP))
      decreases NodeCount(node) + StackNodes(todo)
    {
      var linear := nodes[current];
      if boxHitP(linear.bounds) && linear.data.LinearInterior? {
        AnyHitDescend(prims, todo, node, dirIsNeg[linear.data.axis.Index()], boxHitP, hitP);
        toVisit, current, node, todo := Descend(nodes, stack, toVisit, current, dirIsNeg[linear.data.axis.Index()], |prims|, todo, node);
      } else {
        var done;
        done, found, toVisit, current, node, todo := LeafThenPopP(prims, nodes, stack, toVisit, current, node, todo, boxHitP, hitP);
        if done {
          return;
        }
      }
    }
  }

  /** The rest of a pass of `intersect_p`'s loop once it does not descend:
    * stop with `true` on a hit in the leaf, stop with `false` on an empty
    * stack, or pop the next node with "some hit is still reachable"
    * unchanged. */
  method LeafThenPopP<T>(prims: seq<T>, nodes: seq<LinearNode>, stack: array<nat>, toVisit: nat, current: nat,
                         ghost node: BuildNode, ghost todo: seq<BuildNode>, boxHitP: Bounds3 -> bool, hitP: T -> bool)
    returns (done: bool, found: bool, toVisit': nat, current': nat, ghost node': BuildNode, ghost todo': seq<BuildNode>)
    requires |todo| == toVisit <= stack.Length && Frontier(nodes, |prims|, todo, stack[..toVisit], node, current)
    requires !(boxHitP(nodes[current].bounds) && nodes[current].data.LinearInterior?)
    ensures done ==> found == (AnyHit(prims, node, boxHitP, hitP) || AnyPending(prims, todo, boxHitP, hitP))
    ensures !done ==> |todo'| == toVisit' < toVisit && Frontier(nodes, |prims|, todo', stack[..toVisit'], node', current')
    ensures !done ==> NodeCount(node') + StackNodes(todo') < NodeCount(node) + StackNodes(todo)
    ensures !done ==> (AnyHit(prims, node', boxHitP, hitP) || AnyPending(prims, todo', boxHitP, hitP)) ==
                      (AnyHit(prims, node, boxHitP, hitP) || AnyPending(prims, todo, boxHitP, hitP))
  {
    toVisit', current', node', todo' := toVisit, current, node, todo;
    var linear := nodes[current];
    if boxHitP(linear.bounds) {
      var hitHere := AnyInLeaf(prims, linear.data.primitivesOffset, linear.data.nPrims, hitP);
      if hitHere {
        return true, true, toVisit', current', node', todo';
      }
    }
    if toVisit == 0 {
      return true, false, toVisit', current', node', todo';
    }
    done, found := false, false;
    toVisit', current', node', todo' := Pop(nodes, stack, toVisit, |prims|, todo);
  }

  /** Descending into an interior node whose box passes keeps "some hit is
    * still reachable" unchanged, whichever child is pushed. */
  lemma AnyHitDescend<T>(prims: seq<T>, todo: seq<BuildNode>, n: BuildNode, neg: bool,
                         boxHitP: Bounds3 -> bool, hitP: T -> bool)
    requires AllWithin(todo, |prims|) && LeavesWithin(n, |prims|)
    requires n.Interior? && boxHitP(n.bounds)
    ensures var near := if neg then n.right else n.left;
            var far := if neg then n.left else n.right;
            AllWithin(todo + [far], |prims|) &&
            ((AnyHit(prims, n, boxHitP, hitP) || AnyPending(prims, todo, boxHitP, hitP)) ==
             (AnyHit(prims, near, boxHitP, hitP) || AnyPending(prims, todo + [far], boxHitP, hitP)))
  {
    var far := if neg then n.left else n.right;
    assert (todo + [far])[..|todo|] == todo;
  }

  /** The leaf loop of `intersect_p`. */
  method AnyInLeaf<T>(prims: seq<T>, offset: nat, count: nat, hitP: T -> bool) returns (found: bool)
    requires offset + count <= |prims|
    ensures found <==> exists k :: offset <= k < offset + count && hitP(prims[k])
  {
    var i := 0;
    while i < count
      invariant i <= count
      invariant forall k :: offset <= k < offset + i ==> !hitP(prims[k])
    {
      if hitP(prims[offset + i]) {
        return true;
      }
      i := i + 1;
    }
    return false;
  }


  // ---------------------------------------------------------------------
  // What the traversal finds

  /** Primitive intersection as the integrator relies on it: a primitive at
    * parametric distance `tp(p)` along the ray is reported, with interaction
    * `hv(p)`, exactly when it lies before the current `t_max`. */
  ghost predicate ClosestHits<T, H>(q: Probe<T, H>, prims: seq<T>, tp: T -> real, hv: T -> H)
  {
    forall j: nat, t: real :: 0 <= j < |prims| ==>
      q.hit(prims[j], t) == (if tp(prims[j]) < t then Some((hv(prims[j]), tp(prims[j]))) else None)
  }

  /** The box test of every node of `n` passes at `t` whenever some primitive
    * below that node lies before `t`. */
  ghost predicate Conservative<T, H>(q: Probe<T, H>, prims: seq<T>, n: BuildNode, tp: T -> real)
    decreases n
  {
    (forall j: nat, t: real :: Owners(n, j) > 0 && j < |prims| && tp(prims[j]) < t ==> q.boxHit(n.bounds, t)) &&
    (n.Interior? ==> Conservative(q, prims, n.left, tp) && Conservative(q, prims, n.right, tp))
  }

  /** A leaf scan moves `t_max` down to the nearest of its primitives and
    * reports that primitive, or changes nothing. */
  lemma {:induction false} LeafScanNearest<T, H>(q: Probe<T, H>, prims: seq<T>, first: nat, count: nat,
                                                 tp: T -> real, hv: T -> H, st: Search<H>)
    requires ClosestHits(q, prims, tp, hv) && first + count <= |prims|
    ensures var out := LeafScan(q, prims, first, count, st);
            out.tMax <= st.tMax &&
            (forall i :: first <= i < first + count ==> out.tMax <= tp(prims[i])) &&
            (out == st ||
             (out.tMax < st.tMax &&
              exists i :: first <= i < first + count && out.tMax == tp(prims[i]) && out.result == Some(hv(prims[i]))))
  {
    if count > 0 {
      LeafScanNearest(q, prims, first, count - 1, tp, hv, st);
    }
  }

  /** Visiting a subtree whose box tests are conservative moves `t_max` down to
    * the nearest primitive below it, reporting that primitive, or changes
    * nothing when no primitive lies before `t_max`. */
  lemma {:induction false} VisitNearest<T, H>(q: Probe<T, H>, prims: seq<T>, n: BuildNode,
                                              tp: T -> real, hv: T -> H, st: Search<H>)
    requires |q.dirIsNeg| == 3 && LeavesWithin(n, |prims|)
    requires ClosestHits(q, prims, tp, hv) && Conservative(q, prims, n, tp)
    ensures var out := Visit(q, prims, n, st);
            out.tMax <= st.tMax &&
            (forall j: nat :: Owners(n, j) > 0 && j < |prims| ==> out.tMax <= tp(prims[j])) &&
            (out == st ||
             (out.tMax < st.tMax &&
              exists j: nat :: Owners(n, j) > 0 && j < |prims| && out.tMax == tp(prims[j]) && out.result == Some(hv(prims[j]))))
    decreases n
  {
    if !q.boxHit(n.bounds, st.tMax) {
      return;
    }
    match n
    case Leaf(_, first, cnt) =>
      LeafScanNearest(q, prims, first, cnt, tp, hv, st);
    case Interior(_, axis, l, r) =>
      var a, b := if q.dirIsNeg[axis.Index()] then r else l, if q.dirIsNeg[axis.Index()] then l else r;
      var mid := Visit(q, prims, a, st);
      VisitNearest(q, prims, a, tp, hv, st);
      VisitNearest(q, prims, b, tp, hv, mid);
      assert Visit(q, prims, n, st) == Visit(q, prims, b, mid);
  }

  /** With exact primitive tests and conservative box tests, `intersect` from
    * a fresh ray reports nothing exactly when no primitive lies before
    * `t_max`, and otherwise the nearest primitive, with `t_max` at its distance. */
  lemma IntersectFindsNearest<T, H>(q: Probe<T, H>, prims: seq<T>, root: BuildNode,
                                    tp: T -> real, hv: T -> H, tMax0: real)
    requires |q.dirIsNeg| == 3 && LeavesWithin(root, |prims|)
    requires ClosestHits(q, prims, tp, hv) && Conservative(q, prims, root, tp)
    ensures var out := Visit(q, prims, root, Search(None, tMax0));
            (out.result.None? <==> forall j: nat :: Owners(root, j) > 0 && j < |prims| ==> tMax0 <= tp(prims[j])) &&
            (out.result.Some? ==>
               exists j: nat :: Owners(root, j) > 0 && j < |prims| && out.result == Some(hv(prims[j])) &&
                 out.tMax == tp(prims[j]) &&
                 forall k: nat :: Owners(root, k) > 0 && k < |prims| ==> tp(prims[j]) <= tp(prims[k]))
  {
    VisitNearest(q, prims, root, tp, hv, Search(None, tMax0));
  }

  /** The box test grows with the box, and a primitive is hit only inside its
    * own bounds: then the bounds the builder stores make every box test of
    * its tree conservative (the primitive list here is the builder's ordered
    * list of primitive numbers, with bounds `pb`). */
  lemma {:induction false} BoundsAreConservative<H>(q: Probe<nat, H>, pb: seq<Bounds3>, ordered: seq<nat>,
                                                    n: BuildNode, lo: nat, rightFirst: bool, tp: nat -> real)
    requires BoundsOk(n, pb, ordered) && Tiles(n, lo, rightFirst)
    requires forall b1, b2, t :: Encloses3(b1, b2) && q.boxHit(b2, t) ==> q.boxHit(b1, t)
    requires forall p: nat, t: real :: p < |pb| && tp(p) < t ==> q.boxHit(pb[p], t)
    ensures Conservative(q, ordered, n, tp)
    decreases n
  {
    forall j: nat, t: real | Owners(n, j) > 0 && j < |ordered| && tp(ordered[j]) < t
      ensures q.boxHit(n.bounds, t)
    {
      TilesOwnOnce(n, lo, rightFirst, j);
      BoundsContainPrims(n, pb, ordered, lo, rightFirst, j);
      var p := ordered[j];
      assert q.boxHit(pb[p], t);
      assert Encloses3(n.bounds, pb[p]);
    }
    match n
    case Leaf(_, _, _) =>
    case Interior(_, _, l, r) =>
      if rightFirst {
        BoundsAreConservative(q, pb, ordered, r, lo, true, tp);
        BoundsAreConservative(q, pb, ordered, l, lo + PrimCount(r), true, tp);
      } else {
        BoundsAreConservative(q, pb, ordered, l, lo, false, tp);
        BoundsAreConservative(q, pb, ordered, r, lo + PrimCount(l), false, tp);
      }
  }

  /** The shadow-ray box test of every node of `n` passes whenever some
    * primitive below that node is hit. */
  ghost predicate ConservativeP<T>(prims: seq<T>, n: BuildNode, boxHitP: Bounds3 -> bool, hitP: T -> bool)
    decreases n
  {
    (forall j: nat :: Owners(n, j) > 0 && j < |prims| && hitP(prims[j]) ==> boxHitP(n.bounds)) &&
    (n.Interior? ==> ConservativeP(prims, n.left, boxHitP, hitP) && ConservativeP(prims, n.right, boxHitP, hitP))
  }

  /** `intersect_p` answers exactly whether some primitive of the tree is hit,
    * provided the box tests are conservative (without that, it can only miss
    * hits, never invent one). */
  lemma {:induction false} AnyHitExact<T>(prims: seq<T>, n: BuildNode, boxHitP: Bounds3 -> bool, hitP: T -> bool)
    requires LeavesWithin(n, |prims|)
    ensures AnyHit(prims, n, boxHitP, hitP) ==> exists j: nat :: Owners(n, j) > 0 && j < |prims| && hitP(prims[j])
    ensures ConservativeP(prims, n, boxHitP, hitP) && (exists j: nat :: Owners(n, j) > 0 && j < |prims| && hitP(prims[j])) ==>
              AnyHit(prims, n, boxHitP, hitP)
    decreases n
  {
    match n
    case Leaf(_, first, cnt) =>
      if AnyHit(prims, n, boxHitP, hitP) {
        var i :| first <= i < first + cnt && hitP(prims[i]);
        assert Owners(n, i) > 0;
      }
    case Interior(_, _, l, r) =>
      AnyHitExact(prims, l, boxHitP, hitP);
      AnyHitExact(prims, r, boxHitP, hitP);
      if ConservativeP(prims, n, boxHitP, hitP) && exists j: nat :: Owners(n, j) > 0 && j < |prims| && hitP(prims[j]) {
        var j: nat :| Owners(n, j) > 0 && j < |prims| && hitP(prims[j]);
        assert Owners(l, j) > 0 || Owners(r, j) > 0;
      }
  }
}
