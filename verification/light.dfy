/** The discrete parts of the light interface (rustracer-core/src/light/mod.rs):
  * the light flag bits, the delta-light test, the global id counter and the
  * shadow-ray visibility test. */
module Light {
  import opened Util
  import opened BvhTree
  import opened BvhTraversal
  import opened Bounds

  const DELTA_POSITION: bv32 := 1
  const DELTA_DIRECTION: bv32 := 2
  const AREA: bv32 := 4
  const INFINITE: bv32 := 8

  const LIGHT_FLAGS: seq<bv32> := [DELTA_POSITION, DELTA_DIRECTION, AREA, INFINITE]

  /** The four flags are single bits, pairwise disjoint. */
  lemma FlagsAreDistinctBits()
    ensures forall i :: 0 <= i < |LIGHT_FLAGS| ==> IsPowerOf2(LIGHT_FLAGS[i])
    ensures forall i, j :: 0 <= i < j < |LIGHT_FLAGS| ==> LIGHT_FLAGS[i] & LIGHT_FLAGS[j] == 0
  {
  }

  /** `flags.contains(f)`: every bit of `f` is set in `flags`. */
  predicate Contains(flags: bv32, f: bv32)
  {
    flags & f == f
  }

  /** `is_delta_light`: a point-like or direction-like light, i.e. one whose
    * flags share a bit with DELTA_POSITION | DELTA_DIRECTION. */
  function IsDeltaLight(flags: bv32): (r: bool)
    ensures r <==> flags & (DELTA_POSITION | DELTA_DIRECTION) != 0
  {
    Contains(flags, DELTA_POSITION) || Contains(flags, DELTA_DIRECTION)
  }

  /** Area and infinite lights alone are not delta lights, and adding either
    * of them to a delta light keeps it one. */
  lemma DeltaLightExamples(flags: bv32)
    ensures !IsDeltaLight(AREA) && !IsDeltaLight(INFINITE) && !IsDeltaLight(AREA | INFINITE)
    ensures IsDeltaLight(flags) ==> IsDeltaLight(flags | AREA) && IsDeltaLight(flags | INFINITE)
  {
  }

  const U32_MAX: nat := 0xFFFF_FFFF

  /** The process-wide light id counter (`COUNTER` in light/mod.rs). */
  class IdCounter {
    var next: nat

    constructor ()
      ensures next == 0
    {
      next := 0;
    }

    /** `get_next_id`: hand out the counter, then increment it. The `u32`
      * increment overflows once the counter reaches `u32::MAX`. */
    method GetNextId() returns (id: nat)
      requires next < U32_MAX
      modifies this
      ensures id == old(next) && next == old(next) + 1
    {
      id := next;
      next := next + 1;
    }
  }

  /** Ids handed out by a fresh counter are 0, 1, 2, ... in call order. */
  method FirstIds(n: nat) returns (ids: seq<nat>)
    requires n <= U32_MAX
    ensures |ids| == n
    ensures forall k :: 0 <= k < n ==> ids[k] == k
  {
    var counter := new IdCounter();
    ids := [];
    while |ids| < n
      invariant |ids| <= n && counter.next == |ids|
      invariant forall k :: 0 <= k < |ids| ==> ids[k] == k
    {
      var id := counter.GetNextId();
      ids := ids + [id];
    }
  }

  /** `VisibilityTester::unoccluded`: the negation of the scene's shadow-ray
    * query, the aggregate's `intersect_p` on the ray between the two points.
    * The ray is represented by its box test and primitive test. */
  method Unoccluded<T>(prims: seq<T>, nodes: seq<LinearNode>, ghost root: BuildNode, dirIsNeg: seq<bool>,
                       boxHitP: Bounds3 -> bool, hitP: T -> bool)
    returns (visible: bool)
    requires |dirIsNeg| == 3
    requires |nodes| == 0 || (nodes == Linearize(root, 0) && Height(root) <= 64 && LeavesWithin(root, |prims|))
    ensures |nodes| == 0 ==> visible
    ensures |nodes| > 0 ==> visible == !AnyHit(prims, root, boxHitP, hitP)
    ensures |nodes| > 0 && !visible ==> exists j: nat :: Owners(root, j) > 0 && j < |prims| && hitP(prims[j])
  {
    var blocked := IntersectP(prims, nodes, root, dirIsNeg, boxHitP, hitP);
    visible := !blocked;
    if |nodes| > 0 {
      AnyHitExact(prims, root, boxHitP, hitP);
    }
  }
}
