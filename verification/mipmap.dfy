/** The MIP map of rustracer-core/src/mipmap.rs over single-channel real
  * texels: wrap-mode texel addressing, the resampling weights for
  * non-power-of-two images, the pyramid of halved levels, and the level
  * clamp of the triangle filter. A level is held as rows: texel (s, t) is
  * `rows[t][s]`. */
module MipMap {
  import opened Util
  import opened Wrappers

  datatype WrapMode = Repeat | Black | Clamp

  /** One pyramid level of `uSize` columns and `vSize` rows. */
  datatype Level = Level(uSize: nat, vSize: nat, rows: seq<seq<real>>)

  /** `ResampleWeight`: the first of four taps and their weights. */
  datatype ResampleWeight = ResampleWeight(firstTexel: int, weights: seq<real>)

  datatype MIPMap = MIPMap(doTrilinear: bool, maxAnisotropy: real, wrapMode: WrapMode,
                           resX: nat, resY: nat, pyramid: seq<Level>, black: real)

  ghost predicate WellFormed(l: Level)
  {
    l.uSize >= 1 && l.vSize >= 1 && |l.rows| == l.vSize &&
    forall t :: 0 <= t < l.vSize ==> |l.rows[t]| == l.uSize
  }

  // ---------------------------------------------------------------------------
  // modulo (mipmap.rs:428-435)
  // ---------------------------------------------------------------------------

  /** Rust's `a % b` on integers: the remainder of division truncated toward
    * zero, with the sign of `a`. */
  function TruncRem(a: int, b: int): (r: int)
    requires b != 0
    ensures a >= 0 ==> 0 <= r < Abs(b)
    ensures a < 0 ==> r <= 0 && r + Abs(b) > 0
  {
    if a >= 0 then a % Abs(b) else -((-a) % Abs(b))
  }

  function Abs(b: int): nat
  {
    if b < 0 then -b else b
  }

  /** `modulo`: the remainder, lifted by `b` when negative. */
  function Modulo(a: int, b: int): (r: int)
    requires b != 0
  {
    var result := TruncRem(a, b);
    if result < 0 then result + b else result
  }

  /** For a positive modulus, `modulo` is the mathematical remainder: it lies
    * in [0, b) and differs from `a` by a multiple of `b`. */
  lemma ModuloIsRemainder(a: int, b: int)
    requires b > 0
    ensures 0 <= Modulo(a, b) < b
    ensures Modulo(a, b) == a % b
  {
    if a < 0 {
      var q, m := (-a) / b, (-a) % b;
      assert -a == q * b + m;
      if m == 0 {
        assert a == (-q) * b;
        RemainderUnique(a, b, -q, 0);
      } else {
        assert a == (-q - 1) * b + (b - m);
        RemainderUnique(a, b, -q - 1, b - m);
      }
    }
  }

  /** A decomposition a = q·b + r with 0 <= r < b fixes r as a % b. */
  lemma RemainderUnique(a: int, b: int, q: int, r: int)
    requires b > 0 && a == q * b + r && 0 <= r < b
    ensures a % b == r
  {
    var q', r' := a / b, a % b;
    assert a == q' * b + r';
    assert (q - q') * b == r' - r;
    if q > q' {
      MulAtLeast(q - q', b);
    } else if q < q' {
      MulAtLeast(q' - q, b);
    }
  }

  lemma MulAtLeast(k: int, b: int)
    requires k >= 1 && b > 0
    ensures k * b >= b
  {
  }

  // ---------------------------------------------------------------------------
  // texel (mipmap.rs:208-225)
  // ---------------------------------------------------------------------------

  /** `texel(level, s, t)` on a level: Repeat reduces both coordinates
    * modulo the size, Clamp clamps them into range, Black answers `black`
    * outside the level. */
  function Texel(l: Level, wrap: WrapMode, black: real, s: int, t: int): real
    requires WellFormed(l)
  {
    var u, v := l.uSize, l.vSize;
    match wrap
    case Repeat =>
      ModuloIsRemainder(s, u);
      ModuloIsRemainder(t, v);
      l.rows[Modulo(t, v)][Modulo(s, u)]
    case Clamp => l.rows[Util.Clamp(t, 0, v - 1)][Util.Clamp(s, 0, u - 1)]
    case Black =>
      if s < 0 || s >= u || t < 0 || t >= v then black else l.rows[t][s]
  }

  /** Inside the level every mode reads the stored texel. */
  lemma TexelInRange(l: Level, wrap: WrapMode, black: real, s: int, t: int)
    requires WellFormed(l) && 0 <= s < l.uSize && 0 <= t < l.vSize
    ensures Texel(l, wrap, black, s, t) == l.rows[t][s]
  {
    if wrap == Repeat {
      ModuloSmall(s, l.uSize);
      ModuloSmall(t, l.vSize);
    }
  }

  /** An index already in [0, b) is its own `modulo`. */
  lemma ModuloSmall(a: int, b: int)
    requires 0 <= a < b
    ensures Modulo(a, b) == a
  {
    RemainderUnique(a, b, 0, a);
  }

  /** Repeat reads texel (s mod u, t mod v) for any s and t, so shifting by
    * whole level sizes reads the same texel. */
  lemma TexelRepeat(l: Level, black: real, s: int, t: int, i: int, j: int)
    requires WellFormed(l)
    ensures Texel(l, Repeat, black, s, t) == l.rows[t % l.vSize][s % l.uSize]
    ensures Texel(l, Repeat, black, s + i * l.uSize, t + j * l.vSize) == Texel(l, Repeat, black, s, t)
  {
    var u, v := l.uSize, l.vSize;
    ModuloIsRemainder(s, u);
    ModuloIsRemainder(t, v);
    ModuloIsRemainder(s + i * u, u);
    ModuloIsRemainder(t + j * v, v);
    ShiftRemainder(s, i, u);
    ShiftRemainder(t, j, v);
  }

  lemma ShiftRemainder(s: int, i: int, u: nat)
    requires u > 0
    ensures (s + i * u) % u == s % u
  {
    var q, r := s / u, s % u;
    assert s + i * u == (q + i) * u + r;
    RemainderUnique(s + i * u, u, q + i, r);
  }

  /** Clamp reads the nearest texel in range: the edge column or row for
    * coordinates beyond it. */
  lemma TexelClamp(l: Level, black: real, s: int, t: int)
    requires WellFormed(l)
    ensures var s' := if s < 0 then 0 else if s >= l.uSize then l.uSize - 1 else s;
            var t' := if t < 0 then 0 else if t >= l.vSize then l.vSize - 1 else t;
            Texel(l, Clamp, black, s, t) == l.rows[t'][s']
  {
  }

  /** Black answers `black` exactly outside the level; inside it reads the
    * stored texel. */
  lemma TexelBlack(l: Level, black: real, s: int, t: int)
    requires WellFormed(l)
    ensures !(0 <= s < l.uSize && 0 <= t < l.vSize) ==> Texel(l, Black, black, s, t) == black
    ensures 0 <= s < l.uSize && 0 <= t < l.vSize ==> Texel(l, Black, black, s, t) == l.rows[t][s]
  {
  }

  // ---------------------------------------------------------------------------
  // resample_weights (mipmap.rs:362-393)
  // ---------------------------------------------------------------------------

  /** The continuous position of new texel `i` in the old resolution. */
  function Center(i: nat, oldRes: nat, newRes: nat): real
    requires newRes > 0
  {
    (i as real + 0.5) * oldRes as real / newRes as real
  }

  /** The first of the four taps: the texel under `center - 2 + 0.5`. */
  function FirstTap(i: nat, oldRes: nat, newRes: nat): int
    requires newRes > 0
  {
    ((Center(i, oldRes, newRes) - 2.0) + 0.5).Floor
  }

  /** The four weights and first tap for new texel `i`: the taps around the
    * center `(i + 0.5) · old / new`, weighted by `lanczos` of their distance
    * over the filter width 2 and normalised. The normalised weights must not
    * exceed 1 (the source asserts it); a zero sum makes them non-finite and
    * fails that assertion too. Both failures are `None`. */
  function WeightFor(i: nat, oldRes: nat, newRes: nat, lanczos: real -> real): (r: Option<ResampleWeight>)
    requires newRes > 0
    ensures r.Some? ==> |r.value.weights| == 4 && r.value.firstTexel == FirstTap(i, oldRes, newRes)
  {
    var center := Center(i, oldRes, newRes);
    var first := FirstTap(i, oldRes, newRes);
    var w := seq(4, j requires 0 <= j < 4 => lanczos((first as real + j as real + 0.5 - center) / 2.0));
    var sum := w[0] + w[1] + w[2] + w[3];
    if sum == 0.0 then None
    else
      var n := seq(4, j requires 0 <= j < 4 => w[j] * (1.0 / sum));
      if n[0] > 1.0 || n[1] > 1.0 || n[2] > 1.0 || n[3] > 1.0 then None
      else Some(ResampleWeight(first, n))
  }

  /** The normalised weights sum to 1 and none exceeds 1. */
  lemma WeightsNormalised(i: nat, oldRes: nat, newRes: nat, lanczos: real -> real)
    requires newRes > 0 && WeightFor(i, oldRes, newRes, lanczos).Some?
    ensures var w := WeightFor(i, oldRes, newRes, lanczos).value.weights;
            w[0] + w[1] + w[2] + w[3] == 1.0 && forall j :: 0 <= j < 4 ==> w[j] <= 1.0
  {
    var center := Center(i, oldRes, newRes);
    var first := FirstTap(i, oldRes, newRes);
    var w := seq(4, j requires 0 <= j < 4 => lanczos((first as real + j as real + 0.5 - center) / 2.0));
    var sum := w[0] + w[1] + w[2] + w[3];
    var inv := 1.0 / sum;
    assert (w[0] + w[1] + w[2] + w[3]) * inv == 1.0;
  }

  /** When enlarging, the first tap of every new texel lies in [-2, old - 2],
    * so the four taps stay within two texels of the old row. */
  lemma FirstTexelRange(i: nat, oldRes: nat, newRes: nat)
    requires 1 <= oldRes <= newRes && i < newRes
    ensures -2 <= FirstTap(i, oldRes, newRes) <= oldRes - 2
  {
    CenterInside(i, oldRes, newRes);
  }

  lemma CenterInside(i: nat, oldRes: nat, newRes: nat)
    requires 1 <= oldRes <= newRes && i < newRes
    ensures 0.0 < Center(i, oldRes, newRes) < oldRes as real
  {
    var o, n := oldRes as real, newRes as real;
    var a := i as real + 0.5;
    assert 0.0 < a < n;
    ScaleStrict(a, n, o);
    QuotientInside(a * o, n, o);
  }

  /** A positive amount below n·o, divided by n, lies strictly between 0
    * and o. */
  lemma QuotientInside(x: real, n: real, o: real)
    requires 0.0 < x < n * o && n > 0.0
    ensures 0.0 < x / n < o
  {
    DivStrict(0.0, x, n);
    DivStrict(x, n * o, n);
    assert n * o / n == o;
  }

  /** `resample_weights`: one entry per new texel, in order. `None` is a
    * failed assertion: a shrinking resolution or a weight above 1. */
  method ResampleWeights(oldRes: nat, newRes: nat, lanczos: real -> real)
    returns (r: Option<seq<ResampleWeight>>)
    ensures r.Some? <==> oldRes <= newRes && forall i :: 0 <= i < newRes ==> WeightFor(i, oldRes, newRes, lanczos).Some?
    ensures r.Some? ==>
              |r.value| == newRes &&
              forall i :: 0 <= i < newRes ==> r.value[i] == WeightFor(i, oldRes, newRes, lanczos).value
  {
    if newRes < oldRes {
      return None;
    }
    var wt: seq<ResampleWeight> := [];
    var i := 0;
    while i < newRes
      invariant i <= newRes && WeightsUpTo(wt, i, oldRes, newRes, lanczos)
    {
      var w := WeightFor(i, oldRes, newRes, lanczos);
      if w.None? {
        return None;
      }
      WeightsStep(wt, i, oldRes, newRes, lanczos);
      wt := wt + [w.value];
      i := i + 1;
    }
    return Some(wt);
  }

  /** `wt` holds the weights of the first `i` new texels, all of which
    * passed the assertion. */
  ghost predicate WeightsUpTo(wt: seq<ResampleWeight>, i: nat, oldRes: nat, newRes: nat, lanczos: real -> real)
  {
    |wt| == i && (i > 0 ==> newRes > 0) &&
    forall k :: 0 <= k < i ==> WeightFor(k, oldRes, newRes, lanczos).Some? && wt[k] == WeightFor(k, oldRes, newRes, lanczos).value
  }

  /** Appending the weights of texel `i` extends the invariant to `i + 1`. */
  lemma WeightsStep(wt: seq<ResampleWeight>, i: nat, oldRes: nat, newRes: nat, lanczos: real -> real)
    requires newRes > 0 && WeightsUpTo(wt, i, oldRes, newRes, lanczos) && WeightFor(i, oldRes, newRes, lanczos).Some?
    ensures WeightsUpTo(wt + [WeightFor(i, oldRes, newRes, lanczos).value], i + 1, oldRes, newRes, lanczos)
  {
  }

  // ---------------------------------------------------------------------------
  // Resampling a non-power-of-two image (mipmap.rs:83-139)
  // ---------------------------------------------------------------------------

  /** A tap's index after the wrap mode; Black leaves it as it is. */
  function WrapIndex(o: int, wrap: WrapMode, n: nat): int
    requires n >= 1
  {
    match wrap
    case Repeat => Modulo(o, n)
    case Clamp => Util.Clamp(o, 0, n - 1)
    case Black => o
  }

  /** One tap: the weighted source texel when the wrapped index is in range,
    * and nothing otherwise. */
  function Tap(line: seq<real>, first: int, j: nat, w: seq<real>, wrap: WrapMode): real
    requires |line| >= 1 && j < 4 && |w| == 4
  {
    var o := WrapIndex(first + j, wrap, |line|);
    if 0 <= o < |line| then line[o] * w[j] else 0.0
  }

  /** The four taps of one weight entry over a line of the image. */
  function Filtered(line: seq<real>, rw: ResampleWeight, wrap: WrapMode): real
    requires |line| >= 1 && |rw.weights| == 4
  {
    Tap(line, rw.firstTexel, 0, rw.weights, wrap) + Tap(line, rw.firstTexel, 1, rw.weights, wrap) +
    Tap(line, rw.firstTexel, 2, rw.weights, wrap) + Tap(line, rw.firstTexel, 3, rw.weights, wrap)
  }

  ghost predicate WeightsShaped(ws: seq<ResampleWeight>)
  {
    forall i :: 0 <= i < |ws| ==> |ws[i].weights| == 4
  }

  /** Zoom in s (mipmap.rs:86-110): the first `|img|` rows are filtered to
    * `|sw|` texels each; the remaining rows stay zero. */
  function ZoomS(img: seq<seq<real>>, sw: seq<ResampleWeight>, wrap: WrapMode, newY: nat): (z: seq<seq<real>>)
    requires WeightsShaped(sw) && |img| <= newY
    requires forall t :: 0 <= t < |img| ==> |img[t]| >= 1
    ensures |z| == newY && forall t :: 0 <= t < newY ==> |z[t]| == |sw|
  {
    seq(newY, t requires 0 <= t < newY =>
      if t < |img| then seq(|sw|, s requires 0 <= s < |sw| => Filtered(img[t], sw[s], wrap))
      else seq(|sw|, s => 0.0))
  }

  /** Zoom in t (mipmap.rs:112-137): each column's first `oldY` texels are
    * filtered to `|tw|` texels, then clamped below at 0. */
  function ZoomT(z: seq<seq<real>>, tw: seq<ResampleWeight>, wrap: WrapMode, oldY: nat, newX: nat): (r: seq<seq<real>>)
    requires WeightsShaped(tw) && 1 <= oldY <= |z|
    requires forall t :: 0 <= t < |z| ==> |z[t]| == newX
    ensures |r| == |tw| && forall t :: 0 <= t < |tw| ==> |r[t]| == newX
    ensures forall t, s :: 0 <= t < |tw| && 0 <= s < newX ==> r[t][s] >= 0.0
  {
    seq(|tw|, t requires 0 <= t < |tw| =>
      seq(newX, s requires 0 <= s < newX =>
        MaxR(Filtered(seq(oldY, k requires 0 <= k < oldY => z[k][s]), tw[t], wrap), 0.0)))
  }

  // ---------------------------------------------------------------------------
  // The pyramid (mipmap.rs:149-194)
  // ---------------------------------------------------------------------------

  /** Level i from level i - 1 (mipmap.rs:168-187): half the size, at least
    * 1, each texel the mean of the 2×2 texels below it, read through the
    * wrap mode. */
  function Downsample(prev: Level, wrap: WrapMode, black: real): (l: Level)
    requires WellFormed(prev)
    ensures WellFormed(l)
    ensures l.uSize == MaxI(1, prev.uSize / 2) && l.vSize == MaxI(1, prev.vSize / 2)
  {
    var u, v := MaxI(1, prev.uSize / 2), MaxI(1, prev.vSize / 2);
    Level(u, v, seq(v, t requires 0 <= t < v => seq(u, s requires 0 <= s < u =>
      (Texel(prev, wrap, black, 2 * s, 2 * t) + Texel(prev, wrap, black, 2 * s + 1, 2 * t) +
       Texel(prev, wrap, black, 2 * s, 2 * t + 1) + Texel(prev, wrap, black, 2 * s + 1, 2 * t + 1)) * 0.25)))
  }

  /** ⌊log2 n⌋. */
  function Log2(n: nat): nat
    requires n >= 1
  {
    if n < 2 then 0 else 1 + Log2(n / 2)
  }

  function Pow2(k: nat): (p: nat)
    ensures p >= 1
  {
    if k == 0 then 1 else 2 * Pow2(k - 1)
  }

  lemma {:induction false} Log2Bounds(n: nat)
    requires n >= 1
    ensures Pow2(Log2(n)) <= n < 2 * Pow2(Log2(n))
  {
    if n >= 2 {
      Log2Bounds(n / 2);
    }
  }

  /** The number of levels: 1 + ⌊log2 max(x, y)⌋ (exact in f32 for the
    * powers of two the resolution is by then). */
  function LevelCount(x: nat, y: nat): nat
    requires x >= 1 && y >= 1
  {
    1 + Log2(MaxI(x, y))
  }

  /** A size after `i` halvings with floor 1. */
  function Halvings(x: nat, i: nat): (r: nat)
    requires x >= 1
    ensures r >= 1
  {
    if i == 0 then x else Halvings(MaxI(1, x / 2), i - 1)
  }

  /** Below 2^(k+1), k halvings reach 1. */
  lemma {:induction false} HalvingsReachOne(x: nat, k: nat)
    requires 1 <= x < 2 * Pow2(k)
    ensures Halvings(x, k) == 1
  {
    if k > 0 {
      HalvingsReachOne(MaxI(1, x / 2), k - 1);
    }
  }

  /** The pyramid over a level-0 image: level i is level i - 1 downsampled. */
  ghost predicate IsPyramid(p: seq<Level>, wrap: WrapMode, black: real)
  {
    |p| >= 1 && (forall i :: 0 <= i < |p| ==> WellFormed(p[i])) &&
    forall i :: 1 <= i < |p| ==> DownsampledAt(p, i, wrap, black)
  }

  /** Level i is level i - 1 downsampled. */
  ghost predicate DownsampledAt(p: seq<Level>, i: nat, wrap: WrapMode, black: real)
    requires 1 <= i < |p| && WellFormed(p[i - 1])
  {
    p[i] == Downsample(p[i - 1], wrap, black)
  }

  /** Level i of a pyramid has the level-0 sizes halved i times. */
  lemma {:induction false} PyramidSizes(p: seq<Level>, wrap: WrapMode, black: real, i: nat)
    requires IsPyramid(p, wrap, black) && i < |p|
    ensures p[i].uSize == Halvings(p[0].uSize, i) && p[i].vSize == Halvings(p[0].vSize, i)
  {
    if i > 0 {
      assert DownsampledAt(p, i, wrap, black);
      PyramidSizes(p, wrap, black, i - 1);
      HalvingsStep(p[0].uSize, i);
      HalvingsStep(p[0].vSize, i);
    }
  }

  /** One more halving at the end. */
  lemma {:induction false} HalvingsStep(x: nat, i: nat)
    requires x >= 1 && i >= 1
    ensures Halvings(x, i) == MaxI(1, Halvings(x, i - 1) / 2)
  {
    if i > 1 {
      HalvingsStep(MaxI(1, x / 2), i - 1);
    }
  }

  /** With `LevelCount` levels the coarsest is a single texel. */
  lemma LastLevelIsOneTexel(p: seq<Level>, wrap: WrapMode, black: real)
    requires IsPyramid(p, wrap, black) && |p| == LevelCount(p[0].uSize, p[0].vSize)
    ensures p[|p| - 1].uSize == 1 && p[|p| - 1].vSize == 1
  {
    var m := MaxI(p[0].uSize, p[0].vSize);
    var k := Log2(m);
    Log2Bounds(m);
    PyramidSizes(p, wrap, black, k);
    HalvingsReachOne(p[0].uSize, k);
    HalvingsReachOne(p[0].vSize, k);
  }

  /** Pushing the downsampled last level keeps a pyramid. */
  lemma PyramidExtend(p: seq<Level>, wrap: WrapMode, black: real)
    requires IsPyramid(p, wrap, black)
    ensures IsPyramid(p + [Downsample(p[|p| - 1], wrap, black)], wrap, black)
  {
    var q := p + [Downsample(p[|p| - 1], wrap, black)];
    forall i | 1 <= i < |q|
      ensures DownsampledAt(q, i, wrap, black)
    {
      if i < |p| {
        assert DownsampledAt(p, i, wrap, black);
      }
    }
  }

  /** The levels of `new`, pushed one by one (mipmap.rs:163-187). */
  method BuildPyramid(base: Level, n: nat, wrap: WrapMode, black: real) returns (p: seq<Level>)
    requires WellFormed(base) && n >= 1
    ensures |p| == n && p[0] == base && IsPyramid(p, wrap, black)
  {
    p := [base];
    var i := 1;
    while i < n
      invariant 1 <= i <= n && |p| == i && p[0] == base && IsPyramid(p, wrap, black)
    {
      PyramidExtend(p, wrap, black);
      p := p + [Downsample(p[i - 1], wrap, black)];
      i := i + 1;
    }
  }

  /** `is_power_of_2` on a positive resolution, by its arithmetic meaning. */
  predicate IsPowerOfTwo(x: nat)
  {
    x == 1 || (x >= 2 && x % 2 == 0 && IsPowerOfTwo(x / 2))
  }

  /** `round_up_pow_2` on a positive resolution, by its arithmetic meaning:
    * the least power of two that is at least `x`. */
  function RoundUpPowerOfTwo(x: nat): (r: nat)
    requires x >= 1
  {
    if x == 1 then 1 else 2 * RoundUpPowerOfTwo((x + 1) / 2)
  }

  /** The rounded-up value is a power of two, at least `x` and below `2x`,
    * and it is `x` itself exactly when `x` is a power of two. */
  lemma {:induction false} RoundUpBounds(x: nat)
    requires x >= 1
    ensures IsPowerOfTwo(RoundUpPowerOfTwo(x))
    ensures x <= RoundUpPowerOfTwo(x) < 2 * x
    ensures IsPowerOfTwo(x) <==> RoundUpPowerOfTwo(x) == x
  {
    if x > 1 {
      var h := (x + 1) / 2;
      RoundUpBounds(h);
      var r' := RoundUpPowerOfTwo(h);
      if x % 2 == 1 {
        PowerOfTwoParity(r');
        assert !IsPowerOfTwo(x);
      } else {
        assert h == x / 2;
      }
    }
  }

  /** A power of two other than 1 is even. */
  lemma PowerOfTwoParity(x: nat)
    requires IsPowerOfTwo(x) && x != 1
    ensures x % 2 == 0
  {
  }

  /** The resampling branch of `new` (mipmap.rs:75-147): the image zoomed
    * to the rounded-up powers of two, every texel clamped below at 0.
    * `None` is a failed assertion in `resample_weights`. */
  method Resample(resX: nat, resY: nat, img: seq<seq<real>>, wrap: WrapMode, lanczos: real -> real)
    returns (r: Option<Level>)
    requires 1 <= resX <= 0x4000_0000 && 1 <= resY <= 0x4000_0000
    requires |img| == resY && forall t :: 0 <= t < resY ==> |img[t]| == resX
    ensures r.Some? ==>
              WellFormed(r.value) &&
              resX <= r.value.uSize < 2 * resX && IsPowerOfTwo(r.value.uSize) &&
              resY <= r.value.vSize < 2 * resY && IsPowerOfTwo(r.value.vSize) &&
              forall t, s :: 0 <= t < r.value.vSize && 0 <= s < r.value.uSize ==> r.value.rows[t][s] >= 0.0
  {
    var rx, ry := RoundUpPowerOfTwo(resX), RoundUpPowerOfTwo(resY);
    RoundUpBounds(resX);
    RoundUpBounds(resY);
    var sw := ResampleWeights(resX, rx, lanczos);
    var tw := ResampleWeights(resY, ry, lanczos);
    if sw.None? || tw.None? {
      return None;
    }
    assert WeightsShaped(sw.value) && WeightsShaped(tw.value);
    var z := ZoomS(img, sw.value, wrap, ry);
    var rows := ZoomT(z, tw.value, wrap, resY, rx);
    r := Some(Level(rx, ry, rows));
  }

  /** `MIPMap::new` (mipmap.rs:67-194) on an image of `resX × resY` texels
    * given as rows: a non-power-of-two image is first resampled to the
    * rounded-up powers of two, then the pyramid is built with black 0.
    * `None` is a failed assertion in `resample_weights`, which a
    * power-of-two image never reaches. */
  method New(resX: nat, resY: nat, img: seq<seq<real>>, doTrilinear: bool, maxAnisotropy: real,
             wrap: WrapMode, lanczos: real -> real)
    returns (m: Option<MIPMap>)
    requires 1 <= resX <= 0x4000_0000 && 1 <= resY <= 0x4000_0000
    requires |img| == resY && forall t :: 0 <= t < resY ==> |img[t]| == resX
    ensures IsPowerOfTwo(resX) && IsPowerOfTwo(resY) ==> m.Some?
    ensures m.Some? ==>
              var mm := m.value;
              mm.wrapMode == wrap && mm.black == 0.0 &&
              mm.doTrilinear == doTrilinear && mm.maxAnisotropy == maxAnisotropy &&
              resX <= mm.resX < 2 * resX && IsPowerOfTwo(mm.resX) &&
              resY <= mm.resY < 2 * resY && IsPowerOfTwo(mm.resY) &&
              IsPyramid(mm.pyramid, wrap, 0.0) &&
              mm.pyramid[0].uSize == mm.resX && mm.pyramid[0].vSize == mm.resY &&
              |mm.pyramid| == LevelCount(mm.resX, mm.resY)
    ensures m.Some? && IsPowerOfTwo(resX) && IsPowerOfTwo(resY) ==>
              m.value.resX == resX && m.value.resY == resY && m.value.pyramid[0].rows == img
  {
    var base: Level;
    if !IsPowerOfTwo(resX) || !IsPowerOfTwo(resY) {
      var rs := Resample(resX, resY, img, wrap, lanczos);
      if rs.None? {
        return None;
      }
      base := rs.value;
    } else {
      base := Level(resX, resY, img);
      RoundUpBounds(resX);
      RoundUpBounds(resY);
    }
    var pyramid := BuildPyramid(base, LevelCount(base.uSize, base.vSize), wrap, 0.0);
    m := Some(MIPMap(doTrilinear, maxAnisotropy, wrap, base.uSize, base.vSize, pyramid, 0.0));
  }

  // ---------------------------------------------------------------------------
  // triangle (mipmap.rs:285-308)
  // ---------------------------------------------------------------------------

  /** The level `triangle` filters: the requested one clamped into
    * [0, levels - 1]. */
  function TriangleLevel(level: nat, levels: nat): (l: nat)
    requires levels >= 1
    ensures l < levels
    ensures level < levels ==> l == level
    ensures level >= levels ==> l == levels - 1
  {
    Util.Clamp(level, 0, levels - 1)
  }

  /** Bilinear weighting of four texels by the fractions `ds`, `dt`. */
  function Bilerp(a: real, b: real, c: real, d: real, ds: real, dt: real): real
  {
    a * (1.0 - ds) * (1.0 - dt) + b * (1.0 - ds) * dt + c * ds * (1.0 - dt) + d * ds * dt
  }

  /** `triangle`: the four texels around (s·u - 0.5, t·v - 0.5) on the
    * clamped level, weighted bilinearly. */
  function Triangle(mm: MIPMap, level: nat, stx: real, sty: real): real
    requires |mm.pyramid| >= 1 && forall i :: 0 <= i < |mm.pyramid| ==> WellFormed(mm.pyramid[i])
  {
    var l := mm.pyramid[TriangleLevel(level, |mm.pyramid|)];
    BilerpAt(l, mm.wrapMode, mm.black, TexelPosition(stx, l.uSize), TexelPosition(sty, l.vSize))
  }

  /** A texture coordinate in [0, 1] as a continuous texel position on a
    * level `size` texels wide, texel centers at half-integers. */
  function TexelPosition(st: real, size: nat): real
  {
    st * size as real - 0.5
  }

  /** The bilinear interpolation of a level at the continuous texel
    * position (s, t). */
  function BilerpAt(l: Level, wrap: WrapMode, black: real, s: real, t: real): real
    requires WellFormed(l)
  {
    var s0, t0 := s.Floor, t.Floor;
    Bilerp(Texel(l, wrap, black, s0, t0), Texel(l, wrap, black, s0, t0 + 1),
           Texel(l, wrap, black, s0 + 1, t0), Texel(l, wrap, black, s0 + 1, t0 + 1),
           s - s0 as real, t - t0 as real)
  }

  /** With fractions in [0, 1) the bilinear weights form a convex
    * combination: the result lies between the least and the greatest texel. */
  lemma BilerpBetween(a: real, b: real, c: real, d: real, ds: real, dt: real, lo: real, hi: real)
    requires 0.0 <= ds < 1.0 && 0.0 <= dt < 1.0
    requires lo <= a <= hi && lo <= b <= hi && lo <= c <= hi && lo <= d <= hi
    ensures lo <= Bilerp(a, b, c, d, ds, dt) <= hi
  {
    BilerpShift(a, b, c, d, ds, dt, lo);
    BilerpNonNegative(a - lo, b - lo, c - lo, d - lo, ds, dt);
    BilerpShift(a, b, c, d, ds, dt, hi);
    BilerpNegate(a - hi, b - hi, c - hi, d - hi, ds, dt);
    BilerpNonNegative(hi - a, hi - b, hi - c, hi - d, ds, dt);
  }

  /** The weights sum to 1, so shifting every texel shifts the result. */
  lemma BilerpShift(a: real, b: real, c: real, d: real, ds: real, dt: real, k: real)
    ensures Bilerp(a, b, c, d, ds, dt) - k == Bilerp(a - k, b - k, c - k, d - k, ds, dt)
  {
  }

  lemma BilerpNegate(a: real, b: real, c: real, d: real, ds: real, dt: real)
    ensures Bilerp(-a, -b, -c, -d, ds, dt) == -Bilerp(a, b, c, d, ds, dt)
  {
  }

  /** Nonnegative texels and fractions in [0, 1] give a nonnegative result. */
  lemma BilerpNonNegative(a: real, b: real, c: real, d: real, ds: real, dt: real)
    requires 0.0 <= ds <= 1.0 && 0.0 <= dt <= 1.0
    requires a >= 0.0 && b >= 0.0 && c >= 0.0 && d >= 0.0
    ensures Bilerp(a, b, c, d, ds, dt) >= 0.0
  {
    NonNegProduct(a, 1.0 - ds, 1.0 - dt);
    NonNegProduct(b, 1.0 - ds, dt);
    NonNegProduct(c, ds, 1.0 - dt);
    NonNegProduct(d, ds, dt);
  }

  /** Every texel of a well-formed level lies in [lo, hi]. */
  ghost predicate Bounded(l: Level, lo: real, hi: real)
  {
    WellFormed(l) && forall t, s :: 0 <= t < l.vSize && 0 <= s < l.uSize ==> lo <= l.rows[t][s] <= hi
  }

  /** A triangle lookup in a Clamp- or Repeat-mode map lies between the least
    * and the greatest texel of the level it reads. */
  lemma TriangleBetween(mm: MIPMap, level: nat, stx: real, sty: real, lo: real, hi: real)
    requires |mm.pyramid| >= 1 && forall i :: 0 <= i < |mm.pyramid| ==> WellFormed(mm.pyramid[i])
    requires mm.wrapMode != Black
    requires Bounded(mm.pyramid[TriangleLevel(level, |mm.pyramid|)], lo, hi)
    ensures lo <= Triangle(mm, level, stx, sty) <= hi
  {
    var l := mm.pyramid[TriangleLevel(level, |mm.pyramid|)];
    BilerpAtBetween(l, mm.wrapMode, mm.black, TexelPosition(stx, l.uSize), TexelPosition(sty, l.vSize), lo, hi);
  }

  /** Bilinear interpolation outside Black mode stays within the texel bounds. */
  lemma BilerpAtBetween(l: Level, wrap: WrapMode, black: real, s: real, t: real, lo: real, hi: real)
    requires Bounded(l, lo, hi) && wrap != Black
    ensures lo <= BilerpAt(l, wrap, black, s, t) <= hi
  {
    var s0, t0 := s.Floor, t.Floor;
    TexelBounded(l, wrap, black, s0, t0, lo, hi);
    TexelBounded(l, wrap, black, s0, t0 + 1, lo, hi);
    TexelBounded(l, wrap, black, s0 + 1, t0, lo, hi);
    TexelBounded(l, wrap, black, s0 + 1, t0 + 1, lo, hi);
    BilerpBetween(Texel(l, wrap, black, s0, t0), Texel(l, wrap, black, s0, t0 + 1),
                  Texel(l, wrap, black, s0 + 1, t0), Texel(l, wrap, black, s0 + 1, t0 + 1),
                  s - s0 as real, t - t0 as real, lo, hi);
  }

  /** Outside Black mode every texel read is a stored texel. */
  lemma TexelBounded(l: Level, wrap: WrapMode, black: real, s: int, t: int, lo: real, hi: real)
    requires Bounded(l, lo, hi) && wrap != Black
    ensures lo <= Texel(l, wrap, black, s, t) <= hi
  {
    ModuloIsRemainder(s, l.uSize);
    ModuloIsRemainder(t, l.vSize);
  }
}
