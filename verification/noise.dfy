/** Perlin noise of rustracer-core/src/noise.rs, the discrete part: the
  * cell coordinates masked into the permutation table, the nested table
  * lookups and gradient selection of `grad`, and `smooth_step`. */
module Noise {
  import opened Util

  /** A table entry: every value of the permutation table is below 256. */
  type Byte = x: nat | x < 256

  const NOISE_PERM_SIZE: nat := 256

  /** The first 256 entries of `NOISE_PERM`. */
  const PERM_LOW: seq<Byte> := [
      151, 160, 137, 91, 90, 15, 131, 13, 201, 95, 96, 53, 194, 233, 7, 225,
      140, 36, 103, 30, 69, 142, 8, 99, 37, 240, 21, 10, 23, 190, 6, 148,
      247, 120, 234, 75, 0, 26, 197, 62, 94, 252, 219, 203, 117, 35, 11, 32,
      57, 177, 33, 88, 237, 149, 56, 87, 174, 20, 125, 136, 171, 168, 68, 175,
      74, 165, 71, 134, 139, 48, 27, 166, 77, 146, 158, 231, 83, 111, 229, 122,
      60, 211, 133, 230, 220, 105, 92, 41, 55, 46, 245, 40, 244, 102, 143, 54,
      65, 25, 63, 161, 1, 216, 80, 73, 209, 76, 132, 187, 208, 89, 18, 169,
      200, 196, 135, 130, 116, 188, 159, 86, 164, 100, 109, 198, 173, 186, 3, 64,
      52, 217, 226, 250, 124, 123, 5, 202, 38, 147, 118, 126, 255, 82, 85, 212,
      207, 206, 59, 227, 47, 16, 58, 17, 182, 189, 28, 42, 223, 183, 170, 213,
      119, 248, 152, 2, 44, 154, 163, 70, 221, 153, 101, 155, 167, 43, 172, 9,
      129, 22, 39, 253, 19, 98, 108, 110, 79, 113, 224, 232, 178, 185, 112, 104,
      218, 246, 97, 228, 251, 34, 242, 193, 238, 210, 144, 12, 191, 179, 162, 241,
      81, 51, 145, 235, 249, 14, 239, 107, 49, 192, 214, 31, 181, 199, 106, 157,
      184, 84, 204, 176, 115, 121, 50, 45, 127, 4, 150, 254, 138, 236, 205, 93,
      222, 114, 67, 29, 24, 72, 243, 141, 128, 195, 78, 66, 215, 61, 156, 180
    ]

  /** The last 256 entries of `NOISE_PERM`, as the table spells them out. */
  const PERM_HIGH: seq<Byte> := [
      151, 160, 137, 91, 90, 15, 131, 13, 201, 95, 96, 53, 194, 233, 7, 225,
      140, 36, 103, 30, 69, 142, 8, 99, 37, 240, 21, 10, 23, 190, 6, 148,
      247, 120, 234, 75, 0, 26, 197, 62, 94, 252, 219, 203, 117, 35, 11, 32,
      57, 177, 33, 88, 237, 149, 56, 87, 174, 20, 125, 136, 171, 168, 68, 175,
      74, 165, 71, 134, 139, 48, 27, 166, 77, 146, 158, 231, 83, 111, 229, 122,
      60, 211, 133, 230, 220, 105, 92, 41, 55, 46, 245, 40, 244, 102, 143, 54,
      65, 25, 63, 161, 1, 216, 80, 73, 209, 76, 132, 187, 208, 89, 18, 169,
      200, 196, 135, 130, 116, 188, 159, 86, 164, 100, 109, 198, 173, 186, 3, 64,
      52, 217, 226, 250, 124, 123, 5, 202, 38, 147, 118, 126, 255, 82, 85, 212,
      207, 206, 59, 227, 47, 16, 58, 17, 182, 189, 28, 42, 223, 183, 170, 213,
      119, 248, 152, 2, 44, 154, 163, 70, 221, 153, 101, 155, 167, 43, 172, 9,
      129, 22, 39, 253, 19, 98, 108, 110, 79, 113, 224, 232, 178, 185, 112, 104,
      218, 246, 97, 228, 251, 34, 242, 193, 238, 210, 144, 12, 191, 179, 162, 241,
      81, 51, 145, 235, 249, 14, 239, 107, 49, 192, 214, 31, 181, 199, 106, 157,
      184, 84, 204, 176, 115, 121, 50, 45, 127, 4, 150, 254, 138, 236, 205, 93,
      222, 114, 67, 29, 24, 72, 243, 141, 128, 195, 78, 66, 215, 61, 156, 180
    ]

  /** `NOISE_PERM`: 512 entries. */
  const NOISE_PERM: seq<Byte> := PERM_LOW + PERM_HIGH

  /** The table has 512 entries and its second half repeats the first, so
    * an index i and i + 256 read the same value. */
  lemma PermRepeats()
    ensures |NOISE_PERM| == 2 * NOISE_PERM_SIZE
    ensures forall i :: 0 <= i < NOISE_PERM_SIZE ==> NOISE_PERM[i + NOISE_PERM_SIZE] == NOISE_PERM[i]
  {
    assert PERM_HIGH == PERM_LOW;
    assert |PERM_LOW| == NOISE_PERM_SIZE;
    Doubled(PERM_LOW, NOISE_PERM, NOISE_PERM_SIZE);
  }

  /** In d == s + s, index i + |s| reads s[i]. */
  lemma Doubled(s: seq<Byte>, d: seq<Byte>, n: nat)
    requires |s| == n && d == s + s
    ensures |d| == 2 * n
    ensures forall i :: 0 <= i < n ==> d[i + n] == d[i]
  {
  }

  // ---------------------------------------------------------------------------
  // Cell coordinates (noise.rs:10-20)
  // ---------------------------------------------------------------------------

  /** `i & (NOISE_PERM_SIZE - 1)` on an `i32`: in two's complement, masking
    * with 255 keeps the remainder modulo 256. */
  function Mask(i: int): Byte
  {
    i % NOISE_PERM_SIZE
  }

  /** Masking leaves a coordinate already in [0, 256) alone and does not see
    * whole multiples of 256. */
  lemma MaskProperties(i: int, k: int)
    ensures 0 <= i < NOISE_PERM_SIZE ==> Mask(i) == i
    ensures Mask(i + k * NOISE_PERM_SIZE) == Mask(i)
  {
    var q, r := i / 256, i % 256;
    assert i + k * 256 == (q + k) * 256 + r;
    ModUnique(i + k * 256, q + k, r);
  }

  /** A decomposition a = q·256 + r with 0 <= r < 256 fixes r as a % 256. */
  lemma ModUnique(a: int, q: int, r: int)
    requires a == q * 256 + r && 0 <= r < 256
    ensures a % 256 == r
  {
    var q', r' := a / 256, a % 256;
    assert (q - q') * 256 == r' - r;
  }

  /** The cell of a coordinate: its floor, cast to `i32` (saturating), then
    * masked. */
  function Cell(x: real): Byte
  {
    Mask(SatI32(x.Floor as real))
  }

  // ---------------------------------------------------------------------------
  // grad (noise.rs:66-75)
  // ---------------------------------------------------------------------------

  /** The nested lookup of `grad`, reduced to its low four bits. Arguments
    * are at most 256 (a masked cell plus one), so with entries below 256
    * every index stays below 512. */
  function GradHash(x: nat, y: nat, z: nat): (h: nat)
    requires x <= NOISE_PERM_SIZE && y <= NOISE_PERM_SIZE && z <= NOISE_PERM_SIZE
    ensures h < 16
  {
    NOISE_PERM[NOISE_PERM[NOISE_PERM[x] + y] + z] % 16
  }

  /** The selection of `grad` for a hash h: u is dx or dy, v is dy or dz,
    * and bits 0 and 1 of h negate u and v. */
  function GradOf(h: nat, dx: real, dy: real, dz: real): real
  {
    var u := if h < 8 || h == 12 || h == 13 then dx else dy;
    var v := if h < 4 || h == 12 || h == 13 then dy else dz;
    (if h % 2 != 0 then -u else u) + (if (h / 2) % 2 != 0 then -v else v)
  }

  /** `grad(x, y, z, dx, dy, dz)`. */
  function Grad(x: nat, y: nat, z: nat, dx: real, dy: real, dz: real): real
    requires x <= NOISE_PERM_SIZE && y <= NOISE_PERM_SIZE && z <= NOISE_PERM_SIZE
  {
    GradOf(GradHash(x, y, z), dx, dy, dz)
  }

  /** The gradient direction selected by each h, as integer components. */
  datatype Gradient = Gradient(gx: int, gy: int, gz: int)

  const GRADIENTS: seq<Gradient> := [
    Gradient(1, 1, 0), Gradient(-1, 1, 0), Gradient(1, -1, 0), Gradient(-1, -1, 0),
    Gradient(1, 0, 1), Gradient(-1, 0, 1), Gradient(1, 0, -1), Gradient(-1, 0, -1),
    Gradient(0, 1, 1), Gradient(0, -1, 1), Gradient(0, 1, -1), Gradient(0, -1, -1),
    Gradient(1, 1, 0), Gradient(-1, 1, 0), Gradient(0, 1, -1), Gradient(0, -1, -1)
  ]

  function Dot(g: Gradient, dx: real, dy: real, dz: real): real
  {
    g.gx as real * dx + g.gy as real * dy + g.gz as real * dz
  }

  /** `grad` is the dot product of the offset with one of twelve edge
    * directions of the cube (four of them repeated). */
  lemma GradIsDot(x: nat, y: nat, z: nat, dx: real, dy: real, dz: real)
    requires x <= NOISE_PERM_SIZE && y <= NOISE_PERM_SIZE && z <= NOISE_PERM_SIZE
    ensures Grad(x, y, z, dx, dy, dz) == Dot(GRADIENTS[GradHash(x, y, z)], dx, dy, dz)
  {
    GradOfIsDot(GradHash(x, y, z), dx, dy, dz);
  }

  /** The selection of `GradOf` for each of the sixteen hashes. */
  lemma GradOfIsDot(h: nat, dx: real, dy: real, dz: real)
    requires h < 16
    ensures GradOf(h, dx, dy, dz) == Dot(GRADIENTS[h], dx, dy, dz)
  {
    if h < 4 {
      assert h == 0 || h == 1 || h == 2 || h == 3;
    } else if h < 8 {
      assert h == 4 || h == 5 || h == 6 || h == 7;
    } else if h < 12 {
      assert h == 8 || h == 9 || h == 10 || h == 11;
    } else {
      assert h == 12 || h == 13 || h == 14 || h == 15;
    }
  }

  /** Every direction has exactly one zero component and two of magnitude
    * one. */
  lemma GradientShape(h: nat)
    requires h < 16
    ensures var g := GRADIENTS[h];
            -1 <= g.gx <= 1 && -1 <= g.gy <= 1 && -1 <= g.gz <= 1 &&
            (if g.gx == 0 then 1 else 0) + (if g.gy == 0 then 1 else 0) + (if g.gz == 0 then 1 else 0) == 1
  {
  }

  /** The offset of a coordinate from its cell corner, `x - ix as f32`,
    * where `ix` is the floor cast to `i32`. */
  function Offset(x: real): real
  {
    x - SatI32(x.Floor as real) as real
  }

  /** The eight corner weights of `noise` (noise.rs:21-28): every `grad`
    * call reads the table in range, since masked cells are below 256. */
  function CornerWeights(x: real, y: real, z: real): (w: seq<real>)
    ensures |w| == 8
    ensures w[0] == Dot(GRADIENTS[GradHash(Cell(x), Cell(y), Cell(z))], Offset(x), Offset(y), Offset(z))
  {
    var ix, iy, iz := Cell(x), Cell(y), Cell(z);
    var dx, dy, dz := Offset(x), Offset(y), Offset(z);
    GradIsDot(ix, iy, iz, dx, dy, dz);
    [Grad(ix, iy, iz, dx, dy, dz), Grad(ix + 1, iy, iz, dx - 1.0, dy, dz),
     Grad(ix, iy + 1, iz, dx, dy - 1.0, dz), Grad(ix + 1, iy + 1, iz, dx - 1.0, dy - 1.0, dz),
     Grad(ix, iy, iz + 1, dx, dy, dz - 1.0), Grad(ix + 1, iy, iz + 1, dx - 1.0, dy, dz - 1.0),
     Grad(ix, iy + 1, iz + 1, dx, dy - 1.0, dz - 1.0), Grad(ix + 1, iy + 1, iz + 1, dx - 1.0, dy - 1.0, dz - 1.0)]
  }

  /** `noise_weight(t)` (noise.rs:77-82): 6t⁵ - 15t⁴ + 10t³. */
  function NoiseWeight(t: real): (r: real)
    ensures t == 0.0 ==> r == 0.0
    ensures t == 1.0 ==> r == 1.0
  {
    var t3 := t * t * t;
    var t4 := t3 * t;
    6.0 * t4 * t - 15.0 * t4 + 10.0 * t3
  }

  /** `noise(x, y, z)` (noise.rs:8-42): trilinear interpolation of the eight
    * corner weights, with the offsets eased by `noise_weight`. */
  function NoiseAt(x: real, y: real, z: real): real
  {
    var w := CornerWeights(x, y, z);
    var wx, wy, wz := NoiseWeight(Offset(x)), NoiseWeight(Offset(y)), NoiseWeight(Offset(z));
    var x00, x10 := Lerp(wx, w[0], w[1]), Lerp(wx, w[2], w[3]);
    var x01, x11 := Lerp(wx, w[4], w[5]), Lerp(wx, w[6], w[7]);
    Lerp(wz, Lerp(wy, x00, x10), Lerp(wy, x01, x11))
  }

  /** Perlin noise vanishes on the integer lattice: at a whole-number point
    * within `i32` range every offset is 0, every weight is 0, and the
    * interpolation returns the first corner's `grad`, a dot product with
    * the zero offset. */
  lemma NoiseAtLattice(i: int, j: int, k: int)
    requires I32_MIN <= i <= I32_MAX && I32_MIN <= j <= I32_MAX && I32_MIN <= k <= I32_MAX
    ensures NoiseAt(i as real, j as real, k as real) == 0.0
  {
    OffsetOfInteger(i);
    OffsetOfInteger(j);
    OffsetOfInteger(k);
  }

  /** An integer within `i32` range sits on its own cell corner. */
  lemma OffsetOfInteger(i: int)
    requires I32_MIN <= i <= I32_MAX
    ensures Offset(i as real) == 0.0
  {
    var x := i as real;
    assert x.Floor == i;
    if x < 0.0 {
      assert -x == (-i) as real;
      assert (-x).Floor == -i;
    }
    assert Trunc(x) == i;
    assert SatI32(x.Floor as real) == i;
  }

  // ---------------------------------------------------------------------------
  // smooth_step (noise.rs:84-89)
  // ---------------------------------------------------------------------------

  /** `smooth_step(min, max, value)`: the position of `value` in [min, max],
    * clamped into [0, 1], through v²(3 - 2v). */
  function SmoothStep(min: real, max: real, value: real): (r: real)
    requires min < max
    ensures 0.0 <= r <= 1.0
  {
    var v := ClampR((value - min) / (max - min), 0.0, 1.0);
    SmoothBounds(v);
    v * v * (-2.0 * v + 3.0)
  }

  /** v²(3 - 2v) and 1 minus it, (1 - v)²(1 + 2v), are nonnegative on [0, 1]. */
  lemma SmoothBounds(v: real)
    requires 0.0 <= v <= 1.0
    ensures 0.0 <= v * v * (-2.0 * v + 3.0) <= 1.0
  {
    var e := 1.0 - v;
    NonNegProduct(v, v, -2.0 * v + 3.0);
    NonNegProduct(e, e, 1.0 + 2.0 * v);
    assert 1.0 - v * v * (-2.0 * v + 3.0) == e * e * (1.0 + 2.0 * v);
  }

  /** Below `min` the step is 0, above `max` it is 1, and at the midpoint it
    * is one half. */
  lemma SmoothStepEnds(min: real, max: real, value: real)
    requires min < max
    ensures value <= min ==> SmoothStep(min, max, value) == 0.0
    ensures value >= max ==> SmoothStep(min, max, value) == 1.0
    ensures SmoothStep(min, max, (min + max) / 2.0) == 0.5
  {
    if value <= min {
      SmoothStepBelow(min, max, value);
    }
    if value >= max {
      SmoothStepAbove(min, max, value);
    }
    SmoothStepMid(min, max);
  }

  lemma SmoothStepBelow(min: real, max: real, value: real)
    requires min < max && value <= min
    ensures SmoothStep(min, max, value) == 0.0
  {
    DivMono(value - min, 0.0, max - min);
    assert ClampR((value - min) / (max - min), 0.0, 1.0) == 0.0;
  }

  lemma SmoothStepAbove(min: real, max: real, value: real)
    requires min < max && value >= max
    ensures SmoothStep(min, max, value) == 1.0
  {
    var d := max - min;
    assert d / d == 1.0;
    DivMono(d, value - min, d);
    assert ClampR((value - min) / d, 0.0, 1.0) == 1.0;
  }

  lemma SmoothStepMid(min: real, max: real)
    requires min < max
    ensures SmoothStep(min, max, (min + max) / 2.0) == 0.5
  {
    var d := max - min;
    assert (min + max) / 2.0 - min == 0.5 * d;
    assert (0.5 * d) / d == 0.5;
    assert ClampR(((min + max) / 2.0 - min) / d, 0.0, 1.0) == 0.5;
  }

}
