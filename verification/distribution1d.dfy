/** The piecewise-constant 1D distribution
  * (rustracer-core/src/sampling/distribution1d.rs), over reals: the cdf of a
  * step function and its inversion by binary search. */
module Distribution1D {
  import opened Util

  /** `func`, its normalised cdf (one entry longer) and its integral. */
  datatype Distribution = Distribution(func: seq<real>, cdf: seq<real>, funcInt: real)

  /** The running integral of the step function up to x = i / n, accumulated
    * left to right as `cdf[i - 1] + func[i - 1] / n`. */
  function Integral(f: seq<real>, i: nat): real
    requires i <= |f|
  {
    if i == 0 then 0.0 else Integral(f, i - 1) + f[i - 1] / |f| as real
  }

  /** The cdf `new` leaves: the running integral divided by the total, or
    * the uniform ramp i / n when the total is 0. */
  function CdfOf(f: seq<real>): (cdf: seq<real>)
    ensures |cdf| == |f| + 1 && cdf[0] == 0.0
    ensures forall i :: 0 <= i <= |f| ==> cdf[i] == CdfEntry(f, i)
  {
    seq(|f| + 1, i requires 0 <= i <= |f| => CdfEntry(f, i))
  }

  /** Entry `i` of that cdf. */
  function CdfEntry(f: seq<real>, i: nat): real
    requires i <= |f|
  {
    var total := Integral(f, |f|);
    if i == 0 then 0.0
    else if total == 0.0 then i as real / |f| as real
    else Integral(f, i) / total
  }

  /** The distribution `new(f)` returns. */
  function Make(f: seq<real>): Distribution
  {
    Distribution(f, CdfOf(f), Integral(f, |f|))
  }

  /** `Distribution1D::new` (distribution1d.rs:11-42): fill the running
    * integral, take its last entry as `func_int`, then overwrite entries
    * 1..n with the ramp (total 0) or divide them by the total. */
  method New(f: seq<real>) returns (d: Distribution)
    ensures d == Make(f)
  {
    var cdf := RunningIntegral(f);
    var funcInt := cdf[|f|];
    if funcInt == 0.0 {
      Ramp(cdf, f);
    } else {
      Normalise(cdf, f, funcInt);
    }
    d := Distribution(f, cdf[..], funcInt);
  }

  /** The first loop of `new`: cdf[i] = cdf[i - 1] + func[i - 1] / n. */
  method RunningIntegral(f: seq<real>) returns (cdf: array<real>)
    ensures fresh(cdf) && cdf.Length == |f| + 1
    ensures forall k :: 0 <= k <= |f| ==> cdf[k] == Integral(f, k)
  {
    var n := |f|;
    cdf := new real[n + 1];
    cdf[0] := 0.0;
    var i := 1;
    while i < n + 1
      invariant 1 <= i <= n + 1
      invariant forall k :: 0 <= k < i ==> cdf[k] == Integral(f, k)
    {
      cdf[i] := cdf[i - 1] + f[i - 1] / n as real;
      i := i + 1;
    }
  }

  /** A zero total: entries 1..n become i / n. */
  method Ramp(cdf: array<real>, ghost f: seq<real>)
    requires cdf.Length == |f| + 1 && Integral(f, |f|) == 0.0
    requires cdf[0] == 0.0
    modifies cdf
    ensures cdf[..] == CdfOf(f)
  {
    var n := cdf.Length - 1;
    var j := 1;
    while j < n + 1
      invariant 1 <= j <= n + 1 && cdf[0] == 0.0
      invariant forall k :: 1 <= k < j ==> cdf[k] == k as real / n as real
    {
      cdf[j] := j as real / n as real;
      j := j + 1;
    }
    assert forall k :: 0 <= k <= n ==> cdf[k] == CdfEntry(f, k);
  }

  /** A non-zero total: entries 1..n are divided by it. */
  method Normalise(cdf: array<real>, ghost f: seq<real>, total: real)
    requires cdf.Length == |f| + 1 && total == Integral(f, |f|) != 0.0
    requires forall k :: 0 <= k <= |f| ==> cdf[k] == Integral(f, k)
    modifies cdf
    ensures cdf[..] == CdfOf(f)
  {
    var n := cdf.Length - 1;
    var j := 1;
    while j < n + 1
      invariant 1 <= j <= n + 1 && cdf[0] == 0.0
      invariant forall k :: 1 <= k < j ==> cdf[k] == Integral(f, k) / total
      invariant forall k :: j <= k <= n ==> cdf[k] == Integral(f, k)
    {
      cdf[j] := cdf[j] / total;
      j := j + 1;
    }
    assert forall k :: 0 <= k <= n ==> cdf[k] == CdfEntry(f, k);
  }

  /** `count`: the number of steps. */
  function Count(d: Distribution): nat
  {
    |d.func|
  }

  ghost predicate NonNegative(f: seq<real>)
  {
    forall i :: 0 <= i < |f| ==> f[i] >= 0.0
  }

  ghost predicate Nondecreasing(c: seq<real>)
  {
    forall i, j :: 0 <= i <= j < |c| ==> c[i] <= c[j]
  }

  /** For a non-negative function the running integral never decreases. */
  lemma {:induction false} IntegralMonotone(f: seq<real>, i: nat, j: nat)
    requires NonNegative(f) && i <= j <= |f|
    ensures Integral(f, i) <= Integral(f, j)
    decreases j
  {
    if i < j {
      IntegralMonotone(f, i, j - 1);
      DivMono(0.0, f[j - 1], |f| as real);
    }
  }

  /** With a non-zero total the cdf ends at exactly 1; with a zero total it
    * is the ramp i / n. */
  lemma CdfEnds(f: seq<real>)
    ensures Integral(f, |f|) != 0.0 ==> CdfOf(f)[|f|] == 1.0
    ensures Integral(f, |f|) == 0.0 ==>
              forall i :: 1 <= i <= |f| ==> CdfOf(f)[i] == i as real / |f| as real
  {
    var total := Integral(f, |f|);
    if total != 0.0 {
      assert |f| > 0;
      assert CdfOf(f)[|f|] == total / total;
    }
  }

  /** For a non-negative function the cdf is non-decreasing, from 0 to 1
    * when the total is positive. */
  lemma CdfMonotone(f: seq<real>)
    requires NonNegative(f)
    ensures Integral(f, |f|) >= 0.0
    ensures Nondecreasing(CdfOf(f))
  {
    var c := CdfOf(f);
    IntegralMonotone(f, 0, |f|);
    forall i, j | 0 <= i <= j < |c|
      ensures c[i] <= c[j]
    {
      CdfEntryMonotone(f, i, j);
    }
  }

  lemma CdfEntryMonotone(f: seq<real>, i: nat, j: nat)
    requires NonNegative(f) && i <= j <= |f|
    ensures CdfEntry(f, i) <= CdfEntry(f, j)
  {
    var total := Integral(f, |f|);
    IntegralMonotone(f, 0, |f|);
    if 0 < i {
      if total == 0.0 {
        DivMono(i as real, j as real, |f| as real);
      } else {
        IntegralMonotone(f, i, j);
        DivMono(Integral(f, i), Integral(f, j), total);
      }
    } else if 0 < j && total != 0.0 {
      IntegralMonotone(f, 0, j);
      DivMono(0.0, Integral(f, j), total);
    }
  }

  /** The binary search of both samplers: `find_interval` over the cdf with
    * the test `cdf[i] <= u`. */
  function CdfOffset(cdf: seq<real>, u: real): (o: nat)
    ensures |cdf| >= 2 ==> o <= |cdf| - 2
  {
    FindInterval(|cdf|, AtMost(cdf, u))
  }

  /** The search's test `cdf[i] <= u`. */
  function AtMost(cdf: seq<real>, u: real): nat -> bool
  {
    (i: nat) => i < |cdf| && cdf[i] <= u
  }

  /** On a non-decreasing cdf, `u` in [cdf[0], cdf[last]) lands in the
    * segment that contains it: cdf[o] <= u < cdf[o + 1]. */
  lemma CdfOffsetBrackets(cdf: seq<real>, u: real)
    requires |cdf| >= 2 && Nondecreasing(cdf) && cdf[0] <= u < cdf[|cdf| - 1]
    ensures var o := CdfOffset(cdf, u); o < |cdf| - 1 && cdf[o] <= u < cdf[o + 1]
  {
    var pred := AtMost(cdf, u);
    var size := |cdf|;
    assert PrefixTrue(pred, size);
    BisectSplits(pred, size, 0, size);
    var first := Bisect(pred, 0, size);
    assert pred(0);
    assert !pred(size - 1);
    assert 1 <= first <= size - 1;
    FindIntervalLastTrue(size, pred, first);
    assert CdfOffset(cdf, u) == first - 1;
    assert pred(first - 1) && !pred(first);
  }

  /** Below the cdf's first entry the search returns 0; at or above its last
    * entry it returns n - 1. */
  lemma CdfOffsetOutside(cdf: seq<real>, u: real)
    requires |cdf| >= 2 && Nondecreasing(cdf)
    ensures u < cdf[0] ==> CdfOffset(cdf, u) == 0
    ensures cdf[|cdf| - 1] <= u ==> CdfOffset(cdf, u) == |cdf| - 2
  {
    var pred := AtMost(cdf, u);
    FindIntervalExtremes(|cdf|, pred);
  }

  /** `sample_discrete` (distribution1d.rs:70-79): the segment and its
    * probability `func[o] / (func_int · n)`, or 0 when `func_int` is not
    * positive. With no steps the search returns `usize::MAX` or 0 and no
    * step is read. */
  function SampleDiscrete(d: Distribution, u: real): (r: (nat, real))
    requires |d.cdf| == |d.func| + 1
    ensures |d.func| >= 1 ==> r.0 < |d.func|
    ensures d.funcInt <= 0.0 ==> r.1 == 0.0
  {
    var o := CdfOffset(d.cdf, u);
    (o, DiscretePdf(d, o))
  }

  /** The probability of step `o`: `func[o] / (func_int · n)`, or 0 when
    * `func_int` is not positive. */
  function DiscretePdf(d: Distribution, o: nat): real
  {
    if d.funcInt > 0.0 && o < |d.func| then d.func[o] / (d.funcInt * |d.func| as real) else 0.0
  }

  /** A step of positive weight has positive probability. */
  lemma DiscretePdfPositive(d: Distribution, o: nat)
    requires d.funcInt > 0.0 && o < |d.func| && d.func[o] > 0.0
    ensures DiscretePdf(d, o) > 0.0
  {
    var w := d.funcInt * |d.func| as real;
    assert w > 0.0;
    DivStrict(0.0, d.func[o], w);
  }

  /** For a non-negative function with positive total and `u` in [0, 1), the
    * chosen step has positive weight, so its probability is positive, and
    * `u` lies in its cdf segment. */
  lemma SampleDiscreteHitsWeight(f: seq<real>, u: real)
    requires NonNegative(f) && |f| >= 1 && Integral(f, |f|) > 0.0 && 0.0 <= u < 1.0
    ensures var (o, pdf) := SampleDiscrete(Make(f), u);
            CdfOf(f)[o] <= u < CdfOf(f)[o + 1] && f[o] > 0.0 && pdf > 0.0
  {
    var o := SegmentOf(f, u);
    DiscretePdfPositive(Make(f), o);
  }

  /** The segment both samplers pick for such a function and `u`: the one
    * whose cdf interval holds `u`, of a step with positive weight. */
  lemma SegmentOf(f: seq<real>, u: real) returns (o: nat)
    requires NonNegative(f) && |f| >= 1 && Integral(f, |f|) > 0.0 && 0.0 <= u < 1.0
    ensures o == CdfOffset(CdfOf(f), u) && o < |f| && f[o] > 0.0
    ensures CdfOf(f)[o] <= u < CdfOf(f)[o + 1]
  {
    var c := CdfOf(f);
    CdfMonotone(f);
    CdfEnds(f);
    CdfOffsetBrackets(c, u);
    o := CdfOffset(c, u);
    StepPositive(f, o);
  }

  /** A cdf segment of positive width comes from a step of positive weight. */
  lemma StepPositive(f: seq<real>, o: nat)
    requires o < |f| && Integral(f, |f|) > 0.0
    requires CdfOf(f)[o] < CdfOf(f)[o + 1]
    ensures f[o] > 0.0
  {
    var total := Integral(f, |f|);
    var a, b := Integral(f, o), Integral(f, o + 1);
    assert CdfOf(f)[o + 1] == b / total;
    assert CdfOf(f)[o] == (if o == 0 then 0.0 else a / total);
    if b <= a {
      DivMono(b, a, total);
      assert false;
    }
    assert b == a + f[o] / |f| as real;
  }

  /** The example of distribution1d.rs:84-98: for the steps [0, 1, 0, 3],
    * `u` in [0, 0.25) gives step 1 with probability 0.25, and `u` from 0.25
    * on gives step 3 with probability 0.75. */
  lemma SampleDiscreteExample(u: real)
    ensures 0.0 <= u < 0.25 ==> SampleDiscrete(Make([0.0, 1.0, 0.0, 3.0]), u) == (1, 0.25)
    ensures 0.25 <= u ==> SampleDiscrete(Make([0.0, 1.0, 0.0, 3.0]), u) == (3, 0.75)
  {
    var f := [0.0, 1.0, 0.0, 3.0];
    var c := CdfOf(f);
    assert Integral(f, 1) == 0.0;
    assert Integral(f, 2) == 0.25;
    assert Integral(f, 3) == 0.25;
    assert Integral(f, 4) == 1.0;
    assert c == [0.0, 0.0, 0.25, 0.25, 1.0];
    var pred := AtMost(c, u);
    assert PrefixTrue(pred, 5);
    if 0.0 <= u < 0.25 {
      FindIntervalLastTrue(5, pred, 2);
    } else if 0.25 <= u < 1.0 {
      FindIntervalLastTrue(5, pred, 4);
    } else if 1.0 <= u {
      FindIntervalLastTrue(5, pred, 5);
    }
  }

  /** `sample_continuous` (distribution1d.rs:48-68): the segment `o`, the
    * offset `du` of `u` within it (divided by the segment's width when that
    * is positive, which is also what the source's assertion checks), the
    * point `(o + du) / n` and the density `func[o] / func_int`, or 0 when
    * `func_int` is not positive. The source reads `cdf[o + 1]`, so it needs
    * at least one step. */
  function SampleContinuous(d: Distribution, u: real): (r: (real, real, nat))
    requires |d.func| >= 1 && |d.cdf| == |d.func| + 1
    ensures r.2 < |d.func|
    ensures d.funcInt <= 0.0 ==> r.1 == 0.0
  {
    var o := CdfOffset(d.cdf, u);
    var width := d.cdf[o + 1] - d.cdf[o];
    var du := if width > 0.0 then (u - d.cdf[o]) / width else u - d.cdf[o];
    var pdf := if d.funcInt > 0.0 then d.func[o] / d.funcInt else 0.0;
    ((o as real + du) / |d.func| as real, pdf, o)
  }

  /** For a non-negative function with positive total and `u` in [0, 1),
    * the point lies in step `o`'s interval [o / n, (o + 1) / n) of [0, 1)
    * and its density is positive. */
  lemma SampleContinuousInStep(f: seq<real>, u: real)
    requires NonNegative(f) && |f| >= 1 && Integral(f, |f|) > 0.0 && 0.0 <= u < 1.0
    ensures var (x, pdf, o) := SampleContinuous(Make(f), u);
            var n := |f| as real;
            o as real / n <= x < (o + 1) as real / n && 0.0 <= x < 1.0 && pdf > 0.0
  {
    var o, du := SampleContinuousParts(f, u);
    PointInStep(o, du, |f|);
    DivStrict(0.0, f[o], Integral(f, |f|));
  }

  /** The segment and the in-segment offset `sample_continuous` computes for
    * such a function: `u` lies in a segment of positive width, so the offset
    * is a fraction in [0, 1). */
  lemma SampleContinuousParts(f: seq<real>, u: real) returns (o: nat, du: real)
    requires NonNegative(f) && |f| >= 1 && Integral(f, |f|) > 0.0 && 0.0 <= u < 1.0
    ensures o < |f| && f[o] > 0.0 && 0.0 <= du < 1.0
    ensures SampleContinuous(Make(f), u) == ((o as real + du) / |f| as real, f[o] / Integral(f, |f|), o)
  {
    var c := CdfOf(f);
    o := SegmentOf(f, u);
    var width := c[o + 1] - c[o];
    du := (u - c[o]) / width;
    FractionBelowOne(u - c[o], width);
  }

  /** (o + du) / n with du in [0, 1) lies in [o / n, (o + 1) / n), inside [0, 1). */
  lemma PointInStep(o: nat, du: real, n: nat)
    requires o < n && 0.0 <= du < 1.0
    ensures var x := (o as real + du) / n as real;
            o as real / n as real <= x < (o + 1) as real / n as real && 0.0 <= x < 1.0
  {
    var m := n as real;
    DivMono(o as real, o as real + du, m);
    DivStrict(o as real + du, (o + 1) as real, m);
    DivMono(0.0, o as real, m);
    DivMono((o + 1) as real, m, m);
  }
}
