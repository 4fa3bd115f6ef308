/** The radical inverse (rustracer-core/src/sampler/lowdiscrepancy.rs:50-92):
  * the digits of an integer mirrored about the radix point. */
module RadicalInverse {
  import opened Util
  import opened Wrappers
  import opened BitReverse

  /** The base-`b` digits of `a`, least significant first. */
  function Digits(a: nat, b: nat): (ds: seq<nat>)
    requires b >= 2
    ensures forall k :: 0 <= k < |ds| ==> ds[k] < b
    decreases a
  {
    if a == 0 then [] else [a % b] + Digits(a / b, b)
  }

  /** The number whose digits, least significant first, are `ds`. */
  function ValueLsbFirst(ds: seq<nat>, b: nat): nat
  {
    if |ds| == 0 then 0 else ds[0] + b * ValueLsbFirst(ds[1..], b)
  }

  /** The number whose digits, most significant first, are `ds`. */
  function ValueMsbFirst(ds: seq<nat>, b: nat): nat
  {
    if |ds| == 0 then 0 else ValueMsbFirst(ds[..|ds| - 1], b) * b + ds[|ds| - 1]
  }

  function Pow(b: nat, k: nat): nat
  {
    if k == 0 then 1 else Pow(b, k - 1) * b
  }

  /** Dividing a positive number by a base of at least 2 makes it smaller. */
  lemma QuotientSmaller(a: nat, b: nat)
    requires a > 0 && b >= 2
    ensures a / b < a
  {
    var q := a / b;
    assert q * b + a % b == a;
    if q >= a {
      MulMono(a, q, b);
      assert false;
    }
  }

  /** The digits represent `a`. */
  lemma {:induction false} DigitsRoundTrip(a: nat, b: nat)
    requires b >= 2
    ensures ValueLsbFirst(Digits(a, b), b) == a
    decreases a
  {
    if a > 0 {
      var ds := Digits(a, b);
      var q, r := a / b, a % b;
      assert a == q * b + r;
      assert ds[0] == r && ds[1..] == Digits(q, b);
      QuotientSmaller(a, b);
      DigitsRoundTrip(q, b);
      assert ValueLsbFirst(ds, b) == r + b * ValueLsbFirst(ds[1..], b);
    }
  }

  /** A number read from `k` digits below `b` is below `b^k`. */
  lemma {:induction false} MsbValueBound(ds: seq<nat>, b: nat)
    requires b >= 2 && forall k :: 0 <= k < |ds| ==> ds[k] < b
    ensures ValueMsbFirst(ds, b) < Pow(b, |ds|)
    decreases |ds|
  {
    if |ds| > 0 {
      var init := ds[..|ds| - 1];
      MsbValueBound(init, b);
      var v := ValueMsbFirst(init, b);
      var p := Pow(b, |init|);
      DigitStepBound(v, ds[|ds| - 1], p, b);
    }
  }

  /** One more digit below b keeps the value below the next power. */
  lemma DigitStepBound(v: nat, d: nat, p: nat, b: nat)
    requires v < p && d < b
    ensures v * b + d < p * b
  {
    MulMono(v + 1, p, b);
    assert (v + 1) * b == v * b + b;
  }

  lemma MulMono(x: nat, y: nat, z: nat)
    requires x <= y
    ensures x * z <= y * z
  {
  }

  /** `b^k` computed over the reals. */
  function PowR(b: real, k: nat): real
  {
    if k == 0 then 1.0 else PowR(b, k - 1) * b
  }

  lemma {:induction false} PowAsReal(b: nat, k: nat)
    ensures Pow(b, k) as real == PowR(b as real, k)
  {
    if k > 0 {
      PowAsReal(b, k - 1);
      var p := Pow(b, k - 1);
      assert (p * b) as real == p as real * b as real;
    }
  }

  /** `1 / b^k`, built up by repeated multiplication with `1 / b` as the
    * loop does with `inv_base_n`. */
  function InvPow(b: nat, k: nat): real
    requires b >= 2
  {
    if k == 0 then 1.0 else InvPow(b, k - 1) * (1.0 / b as real)
  }

  lemma {:induction false} InvPowIsInverse(b: nat, k: nat)
    requires b >= 2
    ensures PowR(b as real, k) * InvPow(b, k) == 1.0 && InvPow(b, k) > 0.0
  {
    if k > 0 {
      InvPowIsInverse(b, k - 1);
      var i := InvPow(b, k - 1);
      var p := PowR(b as real, k - 1);
      var br := b as real;
      assert (p * br) * (i * (1.0 / br)) == (p * i) * (br * (1.0 / br));
    }
  }

  /** `v * inv` as a value of its own. */
  function Scaled(v: real, inv: real): real
  {
    v * inv
  }

  /** `v / p` lies in [0, 1) for `0 <= v < p`. */
  lemma BelowOne(v: real, p: real, inv: real)
    requires 0.0 <= v < p && inv > 0.0 && p * inv == 1.0
    ensures 0.0 <= Scaled(v, inv) < 1.0
  {
    var x := v * inv;
    var y := p * inv;
    assert 0.0 <= x < y;
    assert y == 1.0;
  }

  /** The radical inverse of `a` in base `b`: the digits of `a` mirrored about
    * the radix point, i.e. `reversed_digits / b^k` for `k` digits, capped at
    * ONE_MINUS_EPSILON. */
  function RadicalInverseValue(b: nat, a: nat): real
    requires b >= 2
  {
    var ds := Digits(a, b);
    MinR(Scaled(ValueMsbFirst(ds, b) as real, InvPow(b, |ds|)), ONE_MINUS_EPSILON)
  }

  /** The radical inverse lies in [0, 1), and before the cap it is below
    * 1 already, so the source's `assert!(... < 1.00001)` holds. */
  lemma RadicalInverseInUnit(b: nat, a: nat)
    requires b >= 2
    ensures var ds := Digits(a, b); 0.0 <= Scaled(ValueMsbFirst(ds, b) as real, InvPow(b, |ds|)) < 1.0
    ensures 0.0 <= RadicalInverseValue(b, a) <= ONE_MINUS_EPSILON
  {
    var ds := Digits(a, b);
    var v := ValueMsbFirst(ds, b);
    MsbValueBound(ds, b);
    PowAsReal(b, |ds|);
    InvPowIsInverse(b, |ds|);
    var vr := v as real;
    var pr := PowR(b as real, |ds|);
    assert vr < pr;
    BelowOne(vr, pr, InvPow(b, |ds|));
  }

  /** `radical_inverse_specialized`: the loop peels off the digits of `a`, least
    * significant first, and appends each to `reversed_digits`; it stops
    * because `a` strictly decreases to 0. */
  method RadicalInverseSpecialized(base: nat, a0: nat) returns (r: real, ghost reversed: nat)
    requires base >= 2
    ensures reversed == ValueMsbFirst(Digits(a0, base), base)
    ensures r == RadicalInverseValue(base, a0)
  {
    var a: nat := a0;
    var invBase := 1.0 / base as real;
    var reversedDigits: nat := 0;
    var invBaseN := 1.0;
    ghost var done: seq<nat> := [];
    while a != 0
      invariant Digits(a0, base) == done + Digits(a, base)
      invariant reversedDigits == ValueMsbFirst(done, base)
      invariant invBaseN == InvPow(base, |done|)
      decreases a
    {
      var next := a / base;
      var digit := a - next * base;
      DigitStep(a, base);
      AppendDigitValue(done, base, a % base);
      InvPowStep(base, |done|, invBaseN, invBase);
      done := done + [digit];
      reversedDigits := reversedDigits * base + digit;
      invBaseN := invBaseN * invBase;
      a := next;
    }
    assert done == Digits(a0, base);
    reversed := reversedDigits;
    r := MinR(Scaled(reversedDigits as real, invBaseN), ONE_MINUS_EPSILON);
  }

  /** One round of the digit loop: the quotient is smaller, `a - (a / b) * b`
    * is the lowest digit, and the remaining digits are those of the quotient. */
  lemma DigitStep(a: nat, b: nat)
    requires b >= 2 && a > 0
    ensures a / b < a && a - (a / b) * b == a % b
    ensures Digits(a, b) == [a % b] + Digits(a / b, b)
  {
    QuotientSmaller(a, b);
  }

  /** One more digit multiplies `1 / b^k` by `1 / b`. */
  lemma InvPowStep(b: nat, k: nat, inv: real, invBase: real)
    requires b >= 2 && inv == InvPow(b, k) && invBase == 1.0 / b as real
    ensures inv * invBase == InvPow(b, k + 1)
  {
  }

  /** Appending a digit multiplies the value read so far by the base. */
  lemma AppendDigitValue(done: seq<nat>, b: nat, digit: nat)
    ensures ValueMsbFirst(done + [digit], b) == ValueMsbFirst(done, b) * b + digit
  {
    assert (done + [digit])[..|done|] == done;
  }

  /** The bases of `radical_inverse`'s dimensions 1 to 5. */
  const PRIME_BASES: seq<nat> := [2, 3, 5, 7, 11, 13]

  /** `radical_inverse(base, a)`, where `base` is really a dimension: 0 is
    * base 2 through 64-bit reversal scaled by 2^-64, 1 to 5 are the prime
    * bases 3 to 13, and any other dimension is `unimplemented!()` (`None`). */
  method RadicalInverse(dim: nat, a: bv64) returns (r: Option<real>)
    ensures r.None? <==> dim >= |PRIME_BASES|
    ensures dim == 0 ==> r == Some(ReverseBits64(a) as int as real / 18446744073709551616.0)
    ensures 0 < dim < |PRIME_BASES| ==> r == Some(RadicalInverseValue(PRIME_BASES[dim], a as int))
    ensures r.Some? ==> 0.0 <= r.value < 1.0
  {
    if dim == 0 {
      return Some(ReverseBits64(a) as int as real / 18446744073709551616.0);
    } else if dim < |PRIME_BASES| {
      var v, _ := RadicalInverseSpecialized(PRIME_BASES[dim], a as int);
      RadicalInverseInUnit(PRIME_BASES[dim], a as int);
      return Some(v);
    }
    return None;
  }
}
