/** Gray-code generation of (0,2)-sequence points
  * (rustracer-core/src/sampler/lowdiscrepancy.rs:94-163). */
module GrayCode {
  import opened Util
  import opened Rng

  /** The van der Corput generator matrix: column k is bit 31 - k. */
  const CVAN_DER_CORPUT: seq<bv32> := [
    0x80000000, 0x40000000, 0x20000000, 0x10000000, 0x8000000, 0x4000000, 0x2000000, 0x1000000,
    0x800000, 0x400000, 0x200000, 0x100000, 0x80000, 0x40000, 0x20000, 0x10000,
    0x8000, 0x4000, 0x2000, 0x1000, 0x800, 0x400, 0x200, 0x100,
    0x80, 0x40, 0x20, 0x10, 0x8, 0x4, 0x2, 0x1]

  /** The second Sobol generator matrix (the first equals CVAN_DER_CORPUT). */
  const CSOBOL_1: seq<bv32> := [
    0x80000000, 0xc0000000, 0xa0000000, 0xf0000000, 0x88000000, 0xcc000000, 0xaa000000, 0xff000000,
    0x80800000, 0xc0c00000, 0xa0a00000, 0xf0f00000, 0x88880000, 0xcccc0000, 0xaaaa0000, 0xffff0000,
    0x80008000, 0xc000c000, 0xa000a000, 0xf000f000, 0x88008800, 0xcc00cc00, 0xaa00aa00, 0xff00ff00,
    0x80808080, 0xc0c0c0c0, 0xa0a0a0a0, 0xf0f0f0f0, 0x88888888, 0xcccccccc, 0xaaaaaaaa, 0xffffffff]

  /** The number of trailing zero bits of a positive number. */
  function TrailingZeros(k: nat): nat
    requires k > 0
    decreases k
  {
    if k % 2 == 1 then 0 else 1 + TrailingZeros(k / 2)
  }

  function Pow2(m: nat): (p: nat)
    ensures p >= 1
  {
    if m == 0 then 1 else 2 * Pow2(m - 1)
  }

  /** The part of `k` left after removing its trailing zeros. */
  function OddPart(k: nat): nat
    requires k > 0
    decreases k
  {
    if k % 2 == 1 then k else OddPart(k / 2)
  }

  /** `k` is `2^TrailingZeros(k)` times an odd number. */
  lemma {:induction false} TrailingZerosSplit(k: nat)
    requires k > 0
    ensures k == Pow2(TrailingZeros(k)) * OddPart(k) && OddPart(k) % 2 == 1
    decreases k
  {
    if k % 2 == 0 {
      TrailingZerosSplit(k / 2);
      var p := Pow2(TrailingZeros(k / 2));
      var o := OddPart(k / 2);
      assert Pow2(TrailingZeros(k)) == 2 * p && OddPart(k) == o;
      assert k == 2 * (p * o);
      assert 2 * (p * o) == (2 * p) * o;
    }
  }

  /** A number below `2^m` has fewer than `m` trailing zeros, so
    * `trailing_zeros(i + 1)` indexes a 32-column matrix. */
  lemma {:induction false} TrailingZerosBelow(k: nat, m: nat)
    requires 0 < k < Pow2(m)
    ensures TrailingZeros(k) < m
    decreases k
  {
    if k % 2 == 0 {
      TrailingZerosBelow(k / 2, m - 1);
    }
  }

  lemma TrailingZerosU32(k: nat)
    requires 0 < k < U32_RANGE
    ensures TrailingZeros(k) < 32
  {
    assert Pow2(4) == 16;
    assert Pow2(8) == 256;
    assert Pow2(12) == 4096;
    assert Pow2(16) == 65536;
    assert Pow2(20) == 1048576;
    assert Pow2(24) == 16777216;
    assert Pow2(28) == 268435456;
    TrailingZerosBelow(k, 32);
  }

  /** The running value `v` of `gray_code_sample` at step `i`: the scramble
    * XORed with the columns `c[trailing_zeros(k + 1)]` for every `k < i`. */
  function GrayValue(c: seq<bv32>, scramble: bv32, i: nat): bv32
    requires |c| == 32 && i < U32_RANGE
  {
    if i == 0 then scramble else GrayValue(c, scramble, i - 1) ^ Column(c, i)
  }

  /** The generator column `c[trailing_zeros(k)]` folded in at step `k`. */
  function Column(c: seq<bv32>, k: nat): bv32
    requires |c| == 32 && 0 < k < U32_RANGE
  {
    TrailingZerosU32(k);
    c[TrailingZeros(k)]
  }

  /** Scrambling XORs the same word into every point. */
  lemma {:induction false} GrayValueScramble(c: seq<bv32>, scramble: bv32, i: nat)
    requires |c| == 32 && i < U32_RANGE
    ensures GrayValue(c, scramble, i) == scramble ^ GrayValue(c, 0, i)
  {
    if i > 0 {
      GrayValueScramble(c, scramble, i - 1);
      var g := GrayValue(c, 0, i - 1);
      var col := Column(c, i);
      assert (scramble ^ g) ^ col == scramble ^ (g ^ col);
    }
  }

  /** A word scaled by 2^-32 and capped at ONE_MINUS_EPSILON. */
  function SampleOf(v: bv32): (r: real)
    ensures 0.0 <= r < 1.0
  {
    MinR(v as int as real / 4294967296.0, ONE_MINUS_EPSILON)
  }

  /** The first `n` points of the sequence, as `gray_code_sample` writes them. */
  function GraySamples(c: seq<bv32>, scramble: bv32, n: nat): (ps: seq<real>)
    requires |c| == 32 && n < U32_RANGE
    ensures |ps| == n
  {
    if n == 0 then [] else GraySamples(c, scramble, n - 1) + [SampleOf(GrayValue(c, scramble, n - 1))]
  }

  /** Point `k` of `GraySamples` is the scaled word at step `k`. */
  lemma {:induction false} GraySamplesAt(c: seq<bv32>, scramble: bv32, n: nat, k: nat)
    requires |c| == 32 && n < U32_RANGE && k < n
    ensures GraySamples(c, scramble, n)[k] == SampleOf(GrayValue(c, scramble, k))
  {
    if k < n - 1 {
      GraySamplesAt(c, scramble, n - 1, k);
    }
  }

  /** `gray_code_sample`: write the first `n` points into `p`. */
  method GrayCodeSample(c: seq<bv32>, n: nat, scramble: bv32, p: array<real>)
    requires |c| == 32 && n < U32_RANGE && n <= p.Length
    modifies p
    ensures p[..n] == GraySamples(c, scramble, n)
    ensures p[n..] == old(p[n..])
  {
    var v := scramble;
    for i := 0 to n
      invariant v == GrayValue(c, scramble, i)
      invariant p[..i] == GraySamples(c, scramble, i)
      invariant p[n..] == old(p[n..])
    {
      ghost var prev := p[..i];
      var x := SampleOf(v);
      p[i] := x;
      assert p[..i + 1] == prev + [x];
      GrayStep(c, scramble, i, v);
      v := v ^ Column(c, i + 1);
    }
  }

  datatype Point2f = Point2f(x: real, y: real)

  /** The first `n` points of `gray_code_sample_2d`. */
  function GrayPoints(c0: seq<bv32>, c1: seq<bv32>, sx: bv32, sy: bv32, n: nat): (ps: seq<Point2f>)
    requires |c0| == 32 && |c1| == 32 && n < U32_RANGE
    ensures |ps| == n
  {
    if n == 0 then []
    else
      GrayPoints(c0, c1, sx, sy, n - 1) +
      [Point2f(SampleOf(GrayValue(c0, sx, n - 1)), SampleOf(GrayValue(c1, sy, n - 1)))]
  }

  /** Each axis of the 2D points is the 1D sequence of its own matrix and
    * scramble. */
  lemma {:induction false} GrayPointsAxes(c0: seq<bv32>, c1: seq<bv32>, sx: bv32, sy: bv32, n: nat, k: nat)
    requires |c0| == 32 && |c1| == 32 && n < U32_RANGE && k < n
    ensures GrayPoints(c0, c1, sx, sy, n)[k].x == GraySamples(c0, sx, n)[k]
    ensures GrayPoints(c0, c1, sx, sy, n)[k].y == GraySamples(c1, sy, n)[k]
  {
    if k < n - 1 {
      GrayPointsAxes(c0, c1, sx, sy, n - 1, k);
    }
  }

  /** Step `i` of the loop: XORing column `trailing_zeros(i + 1)` into the
    * running word gives the next one. */
  lemma GrayStep(c: seq<bv32>, s: bv32, i: nat, v: bv32)
    requires |c| == 32 && i + 1 < U32_RANGE && v == GrayValue(c, s, i)
    ensures v ^ Column(c, i + 1) == GrayValue(c, s, i + 1)
  {
  }

  /** `gray_code_sample_2d`: the same with one matrix and scramble per axis. */
  method GrayCodeSample2D(c0: seq<bv32>, c1: seq<bv32>, n: nat, sx: bv32, sy: bv32, p: array<Point2f>)
    requires |c0| == 32 && |c1| == 32 && n < U32_RANGE && n <= p.Length
    modifies p
    ensures p[..n] == GrayPoints(c0, c1, sx, sy, n)
    ensures p[n..] == old(p[n..])
  {
    var v0, v1 := sx, sy;
    for i := 0 to n
      invariant v0 == GrayValue(c0, sx, i) && v1 == GrayValue(c1, sy, i)
      invariant p[..i] == GrayPoints(c0, c1, sx, sy, i)
      invariant p[n..] == old(p[n..])
    {
      ghost var prev := p[..i];
      var x := SampleOf(v0);
      var y := SampleOf(v1);
      p[i] := Point2f(x, y);
      assert p[..i + 1] == prev + [Point2f(x, y)];
      GrayStep(c0, sx, i, v0);
      GrayStep(c1, sy, i, v1);
      v0 := v0 ^ Column(c0, i + 1);
      v1 := v1 ^ Column(c1, i + 1);
    }
  }
}
