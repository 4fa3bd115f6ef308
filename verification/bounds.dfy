/** Axis-aligned boxes (rustracer-core/src/bounds.rs): `Bounds3f` over reals
  * standing for `f32`, `Bounds2i` over integers standing for `i32`, and the
  * row-major point iterator of `Bounds2i`. */
module Bounds {
  import opened Util
  import opened Wrappers

  // ---------------------------------------------------------------------------
  // Bounds3
  // ---------------------------------------------------------------------------

  /** Largest finite `f32`; `Bounds3::new` starts from +/- this value. */
  const F32_MAX: real := 340282346638528859811704183484516925440.0

  datatype Axis = X | Y | Z
  {
    function Index(): (i: nat)
      ensures i < 3
    {
      match this
      case X => 0
      case Y => 1
      case Z => 2
    }
  }

  function AxisOf(i: nat): (a: Axis)
    requires i < 3
    ensures a.Index() == i
  {
    if i == 0 then X else if i == 1 then Y else Z
  }

  datatype Bounds3 = Bounds3(pMin: Vec3, pMax: Vec3)

  /** `Bounds3::new`: the inverted box, minimum at +F32_MAX and maximum at -F32_MAX. */
  function New3(): Bounds3
  {
    Bounds3(Vec3(F32_MAX, F32_MAX, F32_MAX), Vec3(-F32_MAX, -F32_MAX, -F32_MAX))
  }

  function FromPoint3(p: Vec3): (b: Bounds3)
    ensures Inside3(b, p)
  {
    Bounds3(p, p)
  }

  function FromPoints3(p1: Vec3, p2: Vec3): (b: Bounds3)
    ensures Inside3(b, p1) && Inside3(b, p2)
  {
    Bounds3(Vec3(MinR(p1.x, p2.x), MinR(p1.y, p2.y), MinR(p1.z, p2.z)),
            Vec3(MaxR(p1.x, p2.x), MaxR(p1.y, p2.y), MaxR(p1.z, p2.z)))
  }

  /** Componentwise `p_min <= p_max`. */
  predicate Valid3(b: Bounds3)
  {
    b.pMin.x <= b.pMax.x && b.pMin.y <= b.pMax.y && b.pMin.z <= b.pMax.z
  }

  /** `inside`: closed containment of a point. */
  predicate Inside3(b: Bounds3, p: Vec3)
  {
    b.pMin.x <= p.x <= b.pMax.x && b.pMin.y <= p.y <= b.pMax.y && b.pMin.z <= p.z <= b.pMax.z
  }

  /** `outer` reaches at least as far as `inner` on every side. */
  predicate Encloses3(outer: Bounds3, inner: Bounds3)
  {
    outer.pMin.x <= inner.pMin.x && outer.pMin.y <= inner.pMin.y && outer.pMin.z <= inner.pMin.z &&
    inner.pMax.x <= outer.pMax.x && inner.pMax.y <= outer.pMax.y && inner.pMax.z <= outer.pMax.z
  }

  /** `corner(i)`: x, y and z come from `p_max` when bit 0, 1, 2 of `i` is set. */
  function Corner(b: Bounds3, corner: nat): (p: Vec3)
    ensures p.x == (if corner % 2 == 1 then b.pMax.x else b.pMin.x)
    ensures p.y == (if (corner / 2) % 2 == 1 then b.pMax.y else b.pMin.y)
    ensures p.z == (if (corner / 4) % 2 == 1 then b.pMax.z else b.pMin.z)
  {
    var cx := if corner % 2 == 1 then b.pMax else b.pMin;
    var cy := if (corner / 2) % 2 == 1 then b.pMax else b.pMin;
    var cz := if (corner / 4) % 2 == 1 then b.pMax else b.pMin;
    Vec3(cx.x, cy.y, cz.z)
  }

  lemma CornersOfValidBox(b: Bounds3, i: nat)
    requires Valid3(b)
    ensures Inside3(b, Corner(b, i))
    ensures Corner(b, 0) == b.pMin && Corner(b, 7) == b.pMax
  {
  }

  /** `extend(p)`: grow each side that `p` lies beyond (strict comparisons). */
  function Extend3(b: Bounds3, p: Vec3): (r: Bounds3)
    ensures Inside3(r, p)
    ensures Encloses3(r, b)
    ensures Inside3(b, p) ==> r == b
  {
    Bounds3(Vec3(if p.x < b.pMin.x then p.x else b.pMin.x,
                 if p.y < b.pMin.y then p.y else b.pMin.y,
                 if p.z < b.pMin.z then p.z else b.pMin.z),
            Vec3(if p.x > b.pMax.x then p.x else b.pMax.x,
                 if p.y > b.pMax.y then p.y else b.pMax.y,
                 if p.z > b.pMax.z then p.z else b.pMax.z))
  }

  /** `union_point`: a copy of the box, extended by `p`. */
  function UnionPoint3(b: Bounds3, p: Vec3): (r: Bounds3)
    ensures Inside3(r, p) && Encloses3(r, b)
  {
    Extend3(b, p)
  }

  /** `union`: componentwise minimum of the minima and maximum of the maxima. */
  function Union3(a: Bounds3, b: Bounds3): (r: Bounds3)
    ensures Encloses3(r, a) && Encloses3(r, b)
    ensures forall o :: Encloses3(o, a) && Encloses3(o, b) ==> Encloses3(o, r)
  {
    Bounds3(Vec3(MinR(a.pMin.x, b.pMin.x), MinR(a.pMin.y, b.pMin.y), MinR(a.pMin.z, b.pMin.z)),
            Vec3(MaxR(a.pMax.x, b.pMax.x), MaxR(a.pMax.y, b.pMax.y), MaxR(a.pMax.z, b.pMax.z)))
  }

  lemma Union3Commutes(a: Bounds3, b: Bounds3)
    ensures Union3(a, b) == Union3(b, a)
  {
  }

  lemma Union3Associates(a: Bounds3, b: Bounds3, c: Bounds3)
    ensures Union3(Union3(a, b), c) == Union3(a, Union3(b, c))
  {
  }

  /** All six coordinates lie in the finite `f32` range. */
  predicate InF32Range(b: Bounds3)
  {
    -F32_MAX <= b.pMin.x <= F32_MAX && -F32_MAX <= b.pMin.y <= F32_MAX && -F32_MAX <= b.pMin.z <= F32_MAX &&
    -F32_MAX <= b.pMax.x <= F32_MAX && -F32_MAX <= b.pMax.y <= F32_MAX && -F32_MAX <= b.pMax.z <= F32_MAX
  }

  /** The empty box is a unit of `union` for boxes inside the `f32` range. */
  lemma Union3WithNew(a: Bounds3)
    requires InF32Range(a)
    ensures Union3(a, New3()) == a && Union3(New3(), a) == a
  {
  }

  function Diagonal3(b: Bounds3): (d: Vec3)
    ensures Valid3(b) ==> d.x >= 0.0 && d.y >= 0.0 && d.z >= 0.0
  {
    Vec3(b.pMax.x - b.pMin.x, b.pMax.y - b.pMin.y, b.pMax.z - b.pMin.z)
  }

  /** `maximum_extent`: the axis along which the diagonal is longest. */
  function MaximumExtent(b: Bounds3): (a: Axis)
    ensures forall i :: 0 <= i < 3 ==> Diagonal3(b).Get(i) <= Diagonal3(b).Get(a.Index())
  {
    AxisOf(MaxDimension(Diagonal3(b)))
  }

  function SurfaceArea(b: Bounds3): (s: real)
    ensures Valid3(b) ==> s >= 0.0
  {
    var d := Diagonal3(b);
    2.0 * (d.x * d.y + d.x * d.z + d.y * d.z)
  }

  /** One component of `offset`: relative position along an axis, divided by
    * the extent when the extent is positive. */
  function OffsetComponent(lo: real, hi: real, v: real): (o: real)
    ensures lo < hi && lo <= v <= hi ==> 0.0 <= o <= 1.0
    ensures lo < hi ==> (v == lo <==> o == 0.0) && (v == hi <==> o == 1.0)
  {
    if hi > lo then
      DivideBySpan(v - lo, hi - lo);
      (v - lo) / (hi - lo)
    else v - lo
  }

  lemma DivideBySpan(a: real, d: real)
    requires d > 0.0
    ensures 0.0 <= a <= d ==> 0.0 <= a / d <= 1.0
    ensures a == 0.0 <==> a / d == 0.0
    ensures a == d <==> a / d == 1.0
  {
    var q := a / d;
    assert q * d == a;
    ScaleBySpan(q, d);
  }

  lemma ScaleBySpan(q: real, d: real)
    requires d > 0.0
    ensures q < 0.0 ==> q * d < 0.0
    ensures q > 1.0 ==> q * d > d
  {
  }

  /** `offset(p)`: where `p` lies inside the box, 0 at `p_min` and 1 at `p_max`. */
  function Offset3(b: Bounds3, p: Vec3): (o: Vec3)
    ensures forall i :: (0 <= i < 3 && b.pMin.Get(i) < b.pMax.Get(i) && b.pMin.Get(i) <= p.Get(i) <= b.pMax.Get(i))
                        ==> 0.0 <= o.Get(i) <= 1.0
  {
    Vec3(OffsetComponent(b.pMin.x, b.pMax.x, p.x),
         OffsetComponent(b.pMin.y, b.pMax.y, p.y),
         OffsetComponent(b.pMin.z, b.pMax.z, p.z))
  }

  // ---------------------------------------------------------------------------
  // Bounds2 over i32
  // ---------------------------------------------------------------------------

  datatype Point2i = Point2i(x: int, y: int)

  datatype Bounds2i = Bounds2i(pMin: Point2i, pMax: Point2i)

  /** `Bounds2::new`: minimum at (i32::MAX, i32::MAX), maximum at (i32::MIN, i32::MIN). */
  function New2(): Bounds2i
  {
    Bounds2i(Point2i(I32_MAX, I32_MAX), Point2i(I32_MIN, I32_MIN))
  }

  function FromElements2(x1: int, y1: int, x2: int, y2: int): Bounds2i
  {
    Bounds2i(Point2i(x1, y1), Point2i(x2, y2))
  }

  function FromPoint2(p: Point2i): (b: Bounds2i)
    ensures Inside2(b, p)
  {
    Bounds2i(p, p)
  }

  function FromPoints2(p1: Point2i, p2: Point2i): (b: Bounds2i)
    ensures Inside2(b, p1) && Inside2(b, p2)
  {
    Bounds2i(Point2i(MinI(p1.x, p2.x), MinI(p1.y, p2.y)), Point2i(MaxI(p1.x, p2.x), MaxI(p1.y, p2.y)))
  }

  predicate InI32(v: int) { I32_MIN <= v <= I32_MAX }

  predicate BoxInI32(b: Bounds2i)
  {
    InI32(b.pMin.x) && InI32(b.pMin.y) && InI32(b.pMax.x) && InI32(b.pMax.y)
  }

  predicate Inside2(b: Bounds2i, p: Point2i)
  {
    b.pMin.x <= p.x <= b.pMax.x && b.pMin.y <= p.y <= b.pMax.y
  }

  /** `inside_exclusive`: half-open containment, as used for pixel addressing. */
  predicate InsideExclusive2(b: Bounds2i, p: Point2i)
  {
    b.pMin.x <= p.x < b.pMax.x && b.pMin.y <= p.y < b.pMax.y
  }

  predicate Encloses2(outer: Bounds2i, inner: Bounds2i)
  {
    outer.pMin.x <= inner.pMin.x && outer.pMin.y <= inner.pMin.y &&
    inner.pMax.x <= outer.pMax.x && inner.pMax.y <= outer.pMax.y
  }

  /** Fewer than one column or row: the iterator yields nothing. */
  predicate Degenerate2(b: Bounds2i)
  {
    b.pMax.x <= b.pMin.x || b.pMax.y <= b.pMin.y
  }

  /** `area`: the product of the two side lengths (negative sides allowed). */
  function Area2(b: Bounds2i): (a: int)
    ensures !Degenerate2(b) ==> a > 0
  {
    (b.pMax.x - b.pMin.x) * (b.pMax.y - b.pMin.y)
  }

  function Extend2(b: Bounds2i, p: Point2i): (r: Bounds2i)
    ensures Inside2(r, p) && Encloses2(r, b)
    ensures Inside2(b, p) ==> r == b
  {
    Bounds2i(Point2i(if p.x < b.pMin.x then p.x else b.pMin.x, if p.y < b.pMin.y then p.y else b.pMin.y),
             Point2i(if p.x > b.pMax.x then p.x else b.pMax.x, if p.y > b.pMax.y then p.y else b.pMax.y))
  }

  function UnionPoint2(b: Bounds2i, p: Point2i): (r: Bounds2i)
    ensures Inside2(r, p) && Encloses2(r, b)
  {
    Extend2(b, p)
  }

  /** `union`: the least box enclosing both arguments. */
  function Union2(a: Bounds2i, b: Bounds2i): (r: Bounds2i)
    ensures Encloses2(r, a) && Encloses2(r, b)
    ensures forall o :: Encloses2(o, a) && Encloses2(o, b) ==> Encloses2(o, r)
  {
    Bounds2i(Point2i(MinI(a.pMin.x, b.pMin.x), MinI(a.pMin.y, b.pMin.y)),
             Point2i(MaxI(a.pMax.x, b.pMax.x), MaxI(a.pMax.y, b.pMax.y)))
  }

  /** `intersect`: maxima of the minima and minima of the maxima; every pixel of
    * the result lies in both arguments and every pixel in both lies in it. */
  function Intersect2(a: Bounds2i, b: Bounds2i): (r: Bounds2i)
    ensures forall p :: InsideExclusive2(r, p) <==> InsideExclusive2(a, p) && InsideExclusive2(b, p)
    ensures forall p :: Inside2(r, p) <==> Inside2(a, p) && Inside2(b, p)
  {
    Bounds2i(Point2i(MaxI(a.pMin.x, b.pMin.x), MaxI(a.pMin.y, b.pMin.y)),
             Point2i(MinI(a.pMax.x, b.pMax.x), MinI(a.pMax.y, b.pMax.y)))
  }

  /** `new()` is a unit of `union` for boxes in the i32 range, and `union` is
    * idempotent. */
  lemma Union2WithNew(a: Bounds2i, b: Bounds2i)
    requires BoxInI32(a)
    ensures Union2(a, New2()) == a && Union2(New2(), a) == a
    ensures Union2(b, b) == b
  {
  }

  lemma Union2Commutes(a: Bounds2i, b: Bounds2i)
    ensures Union2(a, b) == Union2(b, a)
  {
  }

  /** The union test: extending (-10, -10)-(0, 20) by the point (-15, 10). */
  lemma Union2Example()
    ensures Union2(FromElements2(-10, -10, 0, 20), FromPoint2(Point2i(-15, 10))) == FromElements2(-15, -10, 0, 20)
    ensures Union2(FromElements2(-10, -10, 0, 20), New2()) == FromElements2(-10, -10, 0, 20)
  {
  }

  // ---------------------------------------------------------------------------
  // Row-major iteration over a Bounds2i
  // ---------------------------------------------------------------------------

  /** The k-th point in row-major order, x fastest. */
  function RowMajorPoint(b: Bounds2i, k: nat): (p: Point2i)
    requires !Degenerate2(b)
  {
    var w := b.pMax.x - b.pMin.x;
    Point2i(b.pMin.x + k % w, b.pMin.y + k / w)
  }

  /** The first k row-major points are exactly the half-open box's points. */
  lemma RowMajorPointInside(b: Bounds2i, k: nat)
    requires !Degenerate2(b)
    ensures InsideExclusive2(b, RowMajorPoint(b, k)) <==> k < Area2(b)
  {
    var w := b.pMax.x - b.pMin.x;
    var h := b.pMax.y - b.pMin.y;
    if k < Area2(b) {
      DivBelow(k, w, h);
    } else {
      DivAtLeast(k, w, h);
    }
  }

  lemma DivBelow(k: nat, w: int, h: int)
    requires w > 0 && h > 0 && k < w * h
    ensures k / w < h
  {
  }

  lemma DivAtLeast(k: nat, w: int, h: int)
    requires w > 0 && h > 0 && k >= w * h
    ensures k / w >= h
  {
    var q := k / w;
    assert k == q * w + k % w;
    MulAwayFromZero(h - q, w);
    assert (h - q) * w == h * w - q * w;
  }

  /** Distinct positions give distinct points. */
  lemma RowMajorInjective(b: Bounds2i, k1: nat, k2: nat)
    requires !Degenerate2(b) && k1 != k2
    ensures RowMajorPoint(b, k1) != RowMajorPoint(b, k2)
  {
  }

  /** Row-major order: the successor is one step right, or the start of the next row. */
  lemma RowMajorStep(b: Bounds2i, k: nat)
    requires !Degenerate2(b)
    ensures var p, q := RowMajorPoint(b, k), RowMajorPoint(b, k + 1);
      (p.x + 1 < b.pMax.x ==> q == Point2i(p.x + 1, p.y)) &&
      (p.x + 1 == b.pMax.x ==> q == Point2i(b.pMin.x, p.y + 1))
  {
    var w := b.pMax.x - b.pMin.x;
    var q, rem := k / w, k % w;
    assert k == q * w + rem;
    if rem + 1 < w {
      DivModUnique(k + 1, w, q, rem + 1);
    } else {
      assert k + 1 == (q + 1) * w + 0;
      DivModUnique(k + 1, w, q + 1, 0);
    }
  }

  /** The list of points the iterator yields: all of them for a proper box,
    * none for a degenerate one. */
  function RowMajorSeq(b: Bounds2i): (s: seq<Point2i>)
    ensures Degenerate2(b) ==> s == []
    ensures !Degenerate2(b) ==> |s| == Area2(b)
    ensures !Degenerate2(b) ==> forall k :: 0 <= k < |s| ==> s[k] == RowMajorPoint(b, k)
  {
    if Degenerate2(b) then [] else seq(Area2(b), k requires 0 <= k => RowMajorPoint(b, k))
  }

  /** `Bounds2Iterator`: the current point `p` over a fixed box. It starts one
    * step before `p_min` (at x = p_min.x - 1) because `next` advances first. */
  class Bounds2Iterator {
    var p: Point2i
    const bounds: Bounds2i

    ghost predicate Valid()
      reads this
    {
      !Degenerate2(bounds) ==> bounds.pMin.x - 1 <= p.x < bounds.pMax.x && bounds.pMin.y <= p.y
    }

    /** How many points `next` has produced or skipped past so far. */
    ghost function Yielded(): int
      reads this
    {
      (p.y - bounds.pMin.y) * (bounds.pMax.x - bounds.pMin.x) + (p.x - bounds.pMin.x) + 1
    }

    /** `into_iter` on a `&Bounds2i`. */
    constructor (b: Bounds2i)
      ensures Valid() && bounds == b && p == Point2i(b.pMin.x - 1, b.pMin.y)
      ensures Yielded() == 0
    {
      bounds := b;
      p := Point2i(b.pMin.x - 1, b.pMin.y);
    }

    /** `next`: None for degenerate bounds; otherwise advance x, wrapping to the
      * next row at `p_max.x`, and yield while y is below `p_max.y`. */
    method Next() returns (r: Option<Point2i>)
      requires Valid()
      modifies this
      ensures Valid()
      ensures Degenerate2(bounds) ==> r == None && p == old(p)
      ensures !Degenerate2(bounds) ==> Yielded() == old(Yielded()) + 1 && old(Yielded()) >= 0
      ensures !Degenerate2(bounds) ==>
        r == if old(Yielded()) < Area2(bounds) then Some(RowMajorPoint(bounds, old(Yielded()))) else None
    {
      if bounds.pMax.x <= bounds.pMin.x || bounds.pMax.y <= bounds.pMin.y {
        return None;
      }
      ghost var k: int := Yielded();
      ghost var w := bounds.pMax.x - bounds.pMin.x;
      assert k >= 0 by {
        assert (p.y - bounds.pMin.y) * w >= 0;
      }
      var x := p.x + 1;
      var y := p.y;
      if x == bounds.pMax.x {
        x := bounds.pMin.x;
        y := y + 1;
      }
      p := Point2i(x, y);
      assert Yielded() == k + 1 by {
        if x == bounds.pMin.x && y == old(p.y) + 1 {
          assert (y - bounds.pMin.y) * w == (old(p.y) - bounds.pMin.y) * w + w;
        }
      }
      KthPointAt(bounds, k, p);
      if p.y >= bounds.pMax.y {
        r := None;
      } else {
        r := Some(p);
      }
    }
  }

  /** Position k is the point reached after k + 1 advances from the start. */
  lemma KthPointAt(b: Bounds2i, k: nat, p: Point2i)
    requires !Degenerate2(b)
    requires b.pMin.x <= p.x < b.pMax.x && b.pMin.y <= p.y
    requires k == (p.y - b.pMin.y) * (b.pMax.x - b.pMin.x) + (p.x - b.pMin.x)
    ensures RowMajorPoint(b, k) == p
    ensures p.y < b.pMax.y <==> k < Area2(b)
  {
    var w := b.pMax.x - b.pMin.x;
    var q := p.y - b.pMin.y;
    var rem := p.x - b.pMin.x;
    assert k == q * w + rem && 0 <= rem < w;
    assert k / w == q && k % w == rem by {
      DivModUnique(k, w, q, rem);
    }
    RowMajorPointInside(b, k);
  }

  lemma DivModUnique(k: int, w: int, q: int, rem: int)
    requires w > 0 && 0 <= rem < w && k == q * w + rem
    ensures k / w == q && k % w == rem
  {
    var q', rem' := k / w, k % w;
    assert k == q' * w + rem' && 0 <= rem' < w;
    var d := q' - q;
    assert d * w == rem - rem' by {
      assert q' * w - q * w == rem - rem';
    }
    MulAwayFromZero(d, w);
  }

  lemma MulAwayFromZero(d: int, w: int)
    requires w > 0
    ensures d >= 1 ==> d * w >= w
    ensures d <= -1 ==> d * w <= -w
  {
  }

  /** `bounds.into_iter().collect()`: calls `next` until it returns None. */
  method CollectPoints(b: Bounds2i) returns (pts: seq<Point2i>)
    ensures pts == RowMajorSeq(b)
  {
    var it := new Bounds2Iterator(b);
    pts := [];
    ghost var n := if Degenerate2(b) then 0 else Area2(b);
    while true
      invariant it.Valid() && it.bounds == b
      invariant !Degenerate2(b) ==> it.Yielded() == |pts| && |pts| <= n
      invariant Degenerate2(b) ==> pts == []
      invariant forall k :: 0 <= k < |pts| ==> !Degenerate2(b) && pts[k] == RowMajorPoint(b, k)
      decreases n - |pts|
    {
      var next := it.Next();
      if next.None? {
        break;
      }
      pts := pts + [next.value];
    }
  }

  /** The iterator test: (0, 1)-(2, 3) yields (0,1), (1,1), (0,2), (1,2). */
  lemma RowMajorExample()
    ensures RowMajorSeq(FromPoints2(Point2i(0, 1), Point2i(2, 3)))
         == [Point2i(0, 1), Point2i(1, 1), Point2i(0, 2), Point2i(1, 2)]
  {
    var b := Bounds2i(Point2i(0, 1), Point2i(2, 3));
    assert FromPoints2(Point2i(0, 1), Point2i(2, 3)) == b;
    assert !Degenerate2(b) && Area2(b) == 4;
    var s := RowMajorSeq(b);
    assert RowMajorPoint(b, 0) == Point2i(0, 1) && RowMajorPoint(b, 1) == Point2i(1, 1);
    assert RowMajorPoint(b, 2) == Point2i(0, 2) && RowMajorPoint(b, 3) == Point2i(1, 2);
    assert s[0] == Point2i(0, 1) && s[1] == Point2i(1, 1) && s[2] == Point2i(0, 2) && s[3] == Point2i(1, 2);
  }

  /** The degenerate-bounds tests, including `new()`, yield nothing. */
  lemma DegenerateExamples()
    ensures RowMajorSeq(FromElements2(0, 0, 0, 10)) == []
    ensures RowMajorSeq(FromElements2(0, 0, 4, 0)) == []
    ensures RowMajorSeq(New2()) == []
  {
  }
}
