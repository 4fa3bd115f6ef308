/** Small numeric helpers shared by the whole renderer
  * (rustracer-core/src/lib.rs): interval search, clamping, power-of-two
  * tests and component permutation. */
module Util {

  /** A three-component vector or point; `f32` components are modelled as reals. */
  datatype Vec3 = Vec3(x: real, y: real, z: real)
  {
    /** Indexing `v[i]`; the source panics for `i > 2`. */
    function Get(i: nat): real
      requires i < 3
    {
      if i == 0 then x else if i == 1 then y else z
    }
  }

  const USIZE_MAX: nat := 0xFFFF_FFFF_FFFF_FFFF

  // ---------------------------------------------------------------------------
  // min / max / clamp
  // ---------------------------------------------------------------------------

  /** `min` on ints: the first argument when it is strictly smaller. */
  function MinI(a: int, b: int): (r: int)
    ensures r <= a && r <= b && (r == a || r == b)
  {
    if a < b then a else b
  }

  /** `max` on ints: the first argument when it is strictly larger. */
  function MaxI(a: int, b: int): (r: int)
    ensures r >= a && r >= b && (r == a || r == b)
  {
    if a > b then a else b
  }

  /** `ONE_MINUS_EPSILON` (lib.rs:95): the largest `f32` below 1. */
  const ONE_MINUS_EPSILON: real := 16777215.0 / 16777216.0

  function MinR(a: real, b: real): (r: real)
    ensures r <= a && r <= b && (r == a || r == b)
  {
    if a < b then a else b
  }

  function MaxR(a: real, b: real): (r: real)
    ensures r >= a && r >= b && (r == a || r == b)
  {
    if a > b then a else b
  }

  /** `clamp(val, low, high)` over integers. */
  function Clamp(val: int, low: int, high: int): (r: int)
    ensures low <= high ==> low <= r <= high
    ensures low <= val <= high ==> r == val
    ensures val < low ==> r == low
  {
    if val < low then low else if val > high then high else val
  }

  /** `clamp(val, low, high)` over `f32`, modelled as reals. */
  function ClampR(val: real, low: real, high: real): (r: real)
    ensures low <= high ==> low <= r <= high
    ensures low <= val <= high ==> r == val
    ensures val < low ==> r == low
  {
    if val < low then low else if val > high then high else val
  }

  /** `lerp(t, a, b)` (lib.rs:107-117): a at t = 0, b at t = 1, and between
    * the two for t in [0, 1]. */
  function Lerp(t: real, a: real, b: real): (r: real)
    ensures t == 0.0 ==> r == a
    ensures t == 1.0 ==> r == b
    ensures 0.0 <= t <= 1.0 ==> MinR(a, b) <= r <= MaxR(a, b)
  {
    LerpBetween(t, a, b);
    a * (1.0 - t) + b * t
  }

  lemma LerpBetween(t: real, a: real, b: real)
    ensures 0.0 <= t <= 1.0 ==> MinR(a, b) <= a * (1.0 - t) + b * t <= MaxR(a, b)
  {
    if 0.0 <= t <= 1.0 {
      var s := (b - a) * t;
      assert a * (1.0 - t) + b * t == a + s;
      if a <= b {
        ScaleBelow(b - a, t);
        assert MinR(a, b) == a && MaxR(a, b) == b;
      } else {
        ScaleBelow(a - b, t);
        assert (a - b) * t == -s;
        assert MinR(a, b) == b && MaxR(a, b) == a;
      }
    }
  }

  /** A fraction t in [0, 1] of a nonnegative c lies in [0, c]. */
  lemma ScaleBelow(c: real, t: real)
    requires c >= 0.0 && 0.0 <= t <= 1.0
    ensures 0.0 <= c * t <= c
  {
    assert c - c * t == c * (1.0 - t);
    assert c * (1.0 - t) >= 0.0;
  }

  const U32_LIMIT: nat := 0x1_0000_0000
  const I32_MIN: int := -0x8000_0000
  const I32_MAX: int := 0x7fff_ffff

  // ---------------------------------------------------------------------------
  // Float-to-integer conversions (Rust `as` casts)
  // ---------------------------------------------------------------------------

  /** Rounding half away from zero, as `f32::round`. */
  function Round(x: real): (r: int)
    ensures x >= 0.0 ==> x - 0.5 < r as real <= x + 0.5
    ensures x < 0.0 ==> x - 0.5 <= r as real < x + 0.5
  {
    if x >= 0.0 then (x + 0.5).Floor else -((-x + 0.5).Floor)
  }

  /** Truncation toward zero, as a Rust float-to-integer cast does. */
  function Trunc(x: real): (r: int)
    ensures x >= 0.0 ==> 0 <= r && r as real <= x < r as real + 1.0
    ensures x < 0.0 ==> r <= 0 && r as real - 1.0 < x <= r as real
  {
    if x >= 0.0 then x.Floor else -((-x).Floor)
  }

  /** `as u32` on a float: truncation saturated into [0, 2^32 - 1]. */
  function SatU32(x: real): (r: nat)
    ensures r < U32_LIMIT
    ensures 0 <= Trunc(x) < U32_LIMIT ==> r == Trunc(x)
  {
    Clamp(Trunc(x), 0, U32_LIMIT - 1)
  }

  /** `as i32` on a float: truncation saturated into the i32 range. */
  function SatI32(x: real): (r: int)
    ensures I32_MIN <= r <= I32_MAX
    ensures I32_MIN <= Trunc(x) <= I32_MAX ==> r == Trunc(x)
  {
    Clamp(Trunc(x), I32_MIN, I32_MAX)
  }

  // ---------------------------------------------------------------------------
  // max_dimension / permute
  // ---------------------------------------------------------------------------

  /** Index of the largest component; ties go to the later axis. */
  function MaxDimension(v: Vec3): (d: nat)
    ensures d < 3
    ensures forall i :: 0 <= i < 3 ==> v.Get(i) <= v.Get(d)
  {
    if v.x > v.y then (if v.x > v.z then 0 else 2)
    else if v.y > v.z then 1 else 2
  }

  /** `permute_v` / `permute_p`: component `k` of the result is component
    * `[x, y, z][k]` of the argument. */
  function Permute(v: Vec3, x: nat, y: nat, z: nat): (r: Vec3)
    requires x < 3 && y < 3 && z < 3
  {
    Vec3(v.Get(x), v.Get(y), v.Get(z))
  }

  lemma PermuteIdentity(v: Vec3)
    ensures Permute(v, 0, 1, 2) == v
  {
  }

  /** Two permutations compose: permuting by (x, y, z) after (a, b, c) picks
    * component `[a, b, c][x]` and so on. */
  lemma PermuteCompose(v: Vec3, a: nat, b: nat, c: nat, x: nat, y: nat, z: nat)
    requires a < 3 && b < 3 && c < 3 && x < 3 && y < 3 && z < 3
    ensures var idx := [a, b, c];
      Permute(Permute(v, a, b, c), x, y, z) == Permute(v, idx[x], idx[y], idx[z])
  {
  }

  /** Multiplying by a positive number keeps a strict order. */
  lemma ScaleStrict(x: real, y: real, c: real)
    requires x < y && c > 0.0
    ensures x * c < y * c
  {
  }

  /** A product of three nonnegative reals is nonnegative. */
  lemma NonNegProduct(x: real, y: real, z: real)
    requires x >= 0.0 && y >= 0.0 && z >= 0.0
    ensures x * y * z >= 0.0
  {
    assert x * y >= 0.0;
  }

  /** Dividing by a positive number keeps the order. */
  lemma DivMono(a: real, b: real, c: real)
    requires a <= b && c > 0.0
    ensures a / c <= b / c
  {
  }

  /** Dividing by a positive number keeps a strict order. */
  lemma DivStrict(a: real, b: real, c: real)
    requires a < b && c > 0.0
    ensures a / c < b / c
  {
    DivMono(a, b, c);
  }

  /** A part of a positive whole divided by the whole lies in [0, 1). */
  lemma FractionBelowOne(a: real, b: real)
    requires 0.0 <= a < b
    ensures 0.0 <= a / b < 1.0
  {
    DivMono(0.0, a, b);
    DivStrict(a, b, b);
  }

  // ---------------------------------------------------------------------------
  // find_interval
  // ---------------------------------------------------------------------------

  /** The bisection of `find_interval` on the window [first, first + len),
    * written as a recursion: the value `first` takes when `len` reaches 0. */
  function Bisect(pred: nat -> bool, first: nat, len: nat): (r: nat)
    decreases len
  {
    if len == 0 then first
    else
      var half := len / 2;
      var middle := first + half;
      if pred(middle) then Bisect(pred, middle + 1, len - (half + 1))
      else Bisect(pred, first, half)
  }

  /** Reinterpretation of a non-negative or -1 `isize` as `usize`. */
  function UsizeOfIsize(v: int): (r: nat)
    requires -1 <= v
    ensures v >= 0 ==> r == v
    ensures v == -1 ==> r == USIZE_MAX
  {
    if v < 0 then USIZE_MAX else v
  }

  /** `find_interval(size, pred)`: clamp(first - 1, 0, size - 2) cast to usize. */
  function FindInterval(size: nat, pred: nat -> bool): (r: nat)
    ensures size >= 2 ==> r <= size - 2
  {
    var first := Bisect(pred, 0, size);
    var c := Clamp(first - 1, 0, size - 2);
    assert c >= -1;
    UsizeOfIsize(c)
  }

  /** The loop of `find_interval`, over `first` and `len`. */
  method FindIntervalLoop(size: nat, pred: nat -> bool) returns (r: nat)
    ensures r == FindInterval(size, pred)
    ensures size >= 2 ==> r <= size - 2
  {
    var first: nat := 0;
    var len: nat := size;
    while len > 0
      invariant Bisect(pred, first, len) == Bisect(pred, 0, size)
      decreases len
    {
      var half := len / 2;
      var middle := first + half;
      BisectStep(pred, first, len, half, middle);
      if pred(middle) {
        first := middle + 1;
        len := len - (half + 1);
      } else {
        len := half;
      }
    }
    var c := Clamp(first - 1, 0, size - 2);
    r := UsizeOfIsize(c);
  }

  /** One halving of the window: the test at `middle` keeps one half. */
  lemma BisectStep(pred: nat -> bool, first: nat, len: nat, half: nat, middle: nat)
    requires len > 0 && half == len / 2 && middle == first + half
    ensures half < len
    ensures pred(middle) ==> Bisect(pred, first, len) == Bisect(pred, middle + 1, len - (half + 1))
    ensures !pred(middle) ==> Bisect(pred, first, len) == Bisect(pred, first, half)
  {
    BisectUnfold(pred, first, len);
  }

  lemma BisectUnfold(pred: nat -> bool, first: nat, len: nat)
    requires len > 0
    ensures len / 2 < len
    ensures Bisect(pred, first, len) ==
      if pred(first + len / 2) then Bisect(pred, first + len / 2 + 1, len - (len / 2 + 1))
      else Bisect(pred, first, len / 2)
  {
  }

  /** `pred` holds on a prefix of [0, size) and fails on the rest. */
  ghost predicate PrefixTrue(pred: nat -> bool, size: nat)
  {
    forall i: nat, j: nat :: i <= j < size && pred(j) ==> pred(i)
  }

  /** On a prefix-true predicate, bisection stops exactly at the first index
    * where the predicate fails. */
  lemma {:induction false} BisectSplits(pred: nat -> bool, size: nat, first: nat, len: nat)
    requires PrefixTrue(pred, size) && first + len <= size
    ensures forall i: nat :: first <= i < Bisect(pred, first, len) ==> pred(i)
    ensures forall i: nat :: Bisect(pred, first, len) <= i < first + len ==> !pred(i)
    decreases len
  {
    if len > 0 {
      var half := len / 2;
      var middle := first + half;
      if pred(middle) {
        BisectSplits(pred, size, middle + 1, len - (half + 1));
      } else {
        BisectSplits(pred, size, first, half);
      }
    }
  }

  /** For a prefix-true predicate, `find_interval` returns the last index where
    * the predicate holds, clamped into [0, size - 2]. */
  lemma FindIntervalLastTrue(size: nat, pred: nat -> bool, k: nat)
    requires size >= 2 && PrefixTrue(pred, size) && k <= size
    requires forall i: nat :: i < k ==> pred(i)
    requires forall i: nat :: k <= i < size ==> !pred(i)
    ensures FindInterval(size, pred) == Clamp(k - 1, 0, size - 2)
  {
    BisectSplits(pred, size, 0, size);
    var first := Bisect(pred, 0, size);
    assert first < size ==> !pred(first);
    assert k < first ==> pred(k);
  }

  /** All-false gives 0 and all-true gives size - 2. */
  lemma FindIntervalExtremes(size: nat, pred: nat -> bool)
    requires size >= 2
    ensures (forall i: nat :: i < size ==> !pred(i)) ==> FindInterval(size, pred) == 0
    ensures (forall i: nat :: i < size ==> pred(i)) ==> FindInterval(size, pred) == size - 2
  {
    if forall i: nat :: i < size ==> !pred(i) {
      FindIntervalLastTrue(size, pred, 0);
    }
    if forall i: nat :: i < size ==> pred(i) {
      FindIntervalLastTrue(size, pred, size);
    }
  }

  // ---------------------------------------------------------------------------
  // is_power_of_2 / round_up_pow_2 (i32 held as its 32-bit pattern)
  // ---------------------------------------------------------------------------

  /** The 32 single-bit patterns. */
  const SINGLE_BITS: set<bv32> := {
    0x1, 0x2, 0x4, 0x8, 0x10, 0x20, 0x40, 0x80,
    0x100, 0x200, 0x400, 0x800, 0x1000, 0x2000, 0x4000, 0x8000,
    0x1_0000, 0x2_0000, 0x4_0000, 0x8_0000, 0x10_0000, 0x20_0000, 0x40_0000, 0x80_0000,
    0x100_0000, 0x200_0000, 0x400_0000, 0x800_0000,
    0x1000_0000, 0x2000_0000, 0x4000_0000, 0x8000_0000 }

  /** `is_power_of_2(v)`: v != 0 and v & (v - 1) == 0 (wrapping subtraction). */
  function IsPowerOf2(v: bv32): (r: bool)
    ensures r <==> v in SINGLE_BITS
  {
    v != 0 && v & (v - 1) == 0
  }

  /** Arithmetic shift right of an `i32` bit pattern. */
  function Asr(v: bv32, k: nat): (r: bv32)
    requires k < 32
    ensures v & 0x8000_0000 == 0 ==> r == v >> k
  {
    if v & 0x8000_0000 == 0 then v >> k else !((!v) >> k)
  }

  /** `round_up_pow_2`: decrement, smear the highest set bit downwards, increment.
    * For 1 <= v <= 2^30 the result is the least power of two that is >= v. */
  method RoundUpPow2(v0: bv32) returns (r: bv32)
    ensures 1 <= v0 <= 0x4000_0000 ==> r in SINGLE_BITS && v0 <= r && r >> 1 < v0
    ensures v0 == 0 ==> r == 0
  {
    var v := v0;
    v := v - 1;
    v := v | Asr(v, 1);
    v := v | Asr(v, 2);
    v := v | Asr(v, 4);
    v := v | Asr(v, 8);
    v := v | Asr(v, 16);
    r := v + 1;
  }

  // ---------------------------------------------------------------------------
  // Permutations of 0, 1, ..., n-1
  // ---------------------------------------------------------------------------

  /** The numbers 0, 1, ..., n-1 in order. */
  function Range(n: nat): (s: seq<nat>)
    ensures |s| == n && forall i :: 0 <= i < n ==> s[i] == i
  {
    seq(n, i requires 0 <= i => i)
  }

  /** How often `x` occurs among the numbers below `n`. */
  lemma {:induction false} RangeCount(n: nat, x: nat)
    ensures multiset(Range(n))[x] == if x < n then 1 else 0
  {
    if n > 0 {
      assert Range(n) == Range(n - 1) + [n - 1];
      RangeCount(n - 1, x);
    }
  }

  /** A sequence with the same elements as 0, 1, ..., n-1 is a permutation of
    * them: n long, in range, without repeats, and hitting every number. */
  lemma PermutationOfRange(s: seq<nat>, n: nat)
    requires multiset(s) == multiset(Range(n))
    ensures |s| == n
    ensures forall k :: 0 <= k < |s| ==> s[k] < n
    ensures forall a, b :: 0 <= a < b < |s| ==> s[a] != s[b]
    ensures forall i :: 0 <= i < n ==> i in s
  {
    assert |s| == |multiset(s)| == |multiset(Range(n))| == n;
    forall k | 0 <= k < |s|
      ensures s[k] < n
    {
      assert s[k] in multiset(s);
      RangeCount(n, s[k]);
    }
    forall a, b | 0 <= a < b < |s|
      ensures s[a] != s[b]
    {
      if s[a] == s[b] {
        var x := s[a];
        assert s == s[..a] + [x] + s[a + 1..b] + [x] + s[b + 1..];
        assert multiset(s)[x] >= 2;
        RangeCount(n, x);
      }
    }
    forall i | 0 <= i < n
      ensures i in s
    {
      RangeCount(n, i);
      assert i in multiset(s);
    }
  }
}
