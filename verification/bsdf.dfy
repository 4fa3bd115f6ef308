/** Scattering lobes and their combination into a BSDF
  * (rustracer-core/src/bsdf/bxdf.rs, rustracer-core/src/bsdf/mod.rs).
  * A lobe's own shading maths is a parameter of the model; what is modelled
  * is the flag logic, the default hemisphere behaviour, the 8-slot holder
  * and which lobes `f`, `pdf` and `sample_f` take into account. */
module Bsdf {
  import opened Util
  import opened Wrappers

  // ---------------------------------------------------------------------------
  // BxDFType flags
  // ---------------------------------------------------------------------------

  const REFLECTION: bv32 := 1
  const TRANSMISSION: bv32 := 2
  const DIFFUSE: bv32 := 4
  const GLOSSY: bv32 := 8
  const SPECULAR: bv32 := 16
  const EMPTY: bv32 := 0
  const FLAGS: seq<bv32> := [REFLECTION, TRANSMISSION, DIFFUSE, GLOSSY, SPECULAR]

  /** A value the `bitflags` type can hold: only the five declared bits. */
  predicate ValidType(t: bv32) { t & 31 == t }

  /** `BxDFType::contains`: every bit of `other` is set in `t`. */
  predicate Contains(t: bv32, other: bv32) { t & other == other }

  /** `BxDF::matches`: the lobe's type masked by `flags` is the lobe's type. */
  predicate Matches(t: bv32, flags: bv32) { t & flags == t }

  /** `matches` holds exactly when every flag bit set in the lobe's type is
    * also set in `flags`. */
  lemma MatchesIffSubset(t: bv32, flags: bv32)
    requires ValidType(t)
    ensures Matches(t, flags) <==>
            forall k :: 0 <= k < |FLAGS| ==> (t & FLAGS[k] != 0 ==> flags & FLAGS[k] != 0)
  {
    if !Matches(t, flags) {
      if t & 1 != 0 && flags & 1 == 0 {
        assert t & FLAGS[0] != 0 && flags & FLAGS[0] == 0;
      } else if t & 2 != 0 && flags & 2 == 0 {
        assert t & FLAGS[1] != 0 && flags & FLAGS[1] == 0;
      } else if t & 4 != 0 && flags & 4 == 0 {
        assert t & FLAGS[2] != 0 && flags & FLAGS[2] == 0;
      } else if t & 8 != 0 && flags & 8 == 0 {
        assert t & FLAGS[3] != 0 && flags & FLAGS[3] == 0;
      } else {
        assert t & FLAGS[4] != 0 && flags & FLAGS[4] == 0;
      }
    }
  }

  /** The flag test of mod.rs:242-249: a specular lobe that both reflects and
    * transmits contains the flags SPECULAR | REFLECTION. */
  lemma SpecularReflectionContained()
    ensures Contains(SPECULAR | REFLECTION | TRANSMISSION, SPECULAR | REFLECTION)
    ensures !Contains(SPECULAR | REFLECTION, SPECULAR | TRANSMISSION)
  {
  }

  // ---------------------------------------------------------------------------
  // Spectra and directions
  // ---------------------------------------------------------------------------

  /** An RGB spectrum. */
  datatype Spectrum = Spectrum(r: real, g: real, b: real)

  function Black(): Spectrum { Spectrum(0.0, 0.0, 0.0) }

  function Add(a: Spectrum, b: Spectrum): Spectrum
  {
    Spectrum(a.r + b.r, a.g + b.g, a.b + b.b)
  }

  function Mul(a: Spectrum, b: Spectrum): Spectrum
  {
    Spectrum(a.r * b.r, a.g * b.g, a.b * b.b)
  }

  function Dot(a: Vec3, b: Vec3): real
  {
    a.x * b.x + a.y * b.y + a.z * b.z
  }

  const ZERO: Vec3 := Vec3(0.0, 0.0, 0.0)

  /** `FRAC_1_PI` as an `f32`. */
  const INV_PI: real := 0.31830987

  /** `same_hemisphere`: both directions on the same side of the shading plane. */
  predicate SameHemisphere(w: Vec3, wp: Vec3) { w.z * wp.z > 0.0 }

  function AbsCosTheta(w: Vec3): real { if w.z < 0.0 then -w.z else w.z }

  /** The default `BxDF::pdf` (bxdf.rs:38-44): the cosine-weighted density on
    * the hemisphere of `wo`, and 0 on the other side. */
  function DefaultPdf(wo: Vec3, wi: Vec3): (p: real)
    ensures p >= 0.0
    ensures p > 0.0 <==> SameHemisphere(wo, wi)
  {
    if SameHemisphere(wo, wi) then AbsCosTheta(wi) * INV_PI else 0.0
  }

  // ---------------------------------------------------------------------------
  // Lobes
  // ---------------------------------------------------------------------------

  /** What a lobe's `sample_f` returns: value, incident direction, density
    * and the sampled lobe type. */
  datatype LobeSample = LobeSample(f: Spectrum, wi: Vec3, pdf: real, sampledType: bv32)

  /** A lobe: either a concrete BxDF, given by its type, its `f` and, where it
    * overrides the trait defaults, its `pdf` and `sample_f`; or a
    * `ScaledBxDF` wrapping another lobe. */
  datatype BxDF =
    | Lobe(ty: bv32, eval: (Vec3, Vec3) -> Spectrum,
           pdfFn: Option<(Vec3, Vec3) -> real>,
           sampleFn: Option<(Vec3, real, real) -> LobeSample>)
    | Scaled(inner: BxDF, scale: Spectrum)

  /** `get_type`; a scaled lobe reports the wrapped lobe's type. */
  function TypeOf(b: BxDF): bv32
  {
    match b
    case Lobe(t, _, _, _) => t
    case Scaled(i, _) => TypeOf(i)
  }

  /** `f`; a scaled lobe multiplies the wrapped value by its scale. */
  function EvalF(b: BxDF, wo: Vec3, wi: Vec3): Spectrum
  {
    match b
    case Lobe(_, e, _, _) => e(wo, wi)
    case Scaled(i, s) => Mul(EvalF(i, wo, wi), s)
  }

  /** `pdf`. `ScaledBxDF` does not override it, so a scaled lobe has the
    * trait's default density rather than the wrapped lobe's. */
  function PdfOf(b: BxDF, wo: Vec3, wi: Vec3): real
  {
    match b
    case Lobe(_, _, p, _) => if p.Some? then p.value(wo, wi) else DefaultPdf(wo, wi)
    case Scaled(_, _) => DefaultPdf(wo, wi)
  }

  /** The default `BxDF::sample_f` (bxdf.rs:18-25): take the cosine-weighted
    * direction for `u`, mirror it into the hemisphere of `wo`, and report the
    * lobe's value and density there with the empty type. */
  function DefaultSample(b: BxDF, cosine: (real, real) -> Vec3, wo: Vec3, u0: real, u1: real): LobeSample
  {
    var d := cosine(u0, u1);
    var wi := if wo.z < 0.0 then Vec3(d.x, d.y, -d.z) else d;
    LobeSample(EvalF(b, wo, wi), wi, PdfOf(b, wo, wi), EMPTY)
  }

  /** `sample_f`; a scaled lobe samples the wrapped lobe and scales the value. */
  function SampleOf(b: BxDF, cosine: (real, real) -> Vec3, wo: Vec3, u0: real, u1: real): LobeSample
  {
    match b
    case Lobe(_, _, _, s) => if s.Some? then s.value(wo, u0, u1) else DefaultSample(b, cosine, wo, u0, u1)
    case Scaled(i, sc) =>
      var r := SampleOf(i, cosine, wo, u0, u1);
      LobeSample(Mul(r.f, sc), r.wi, r.pdf, r.sampledType)
  }

  /** The default sampling puts `wi` on the side of `wo`, keeps the tangent
    * components of the cosine-weighted direction, and reports the empty type. */
  lemma DefaultSampleHemisphere(b: BxDF, cosine: (real, real) -> Vec3, wo: Vec3, u0: real, u1: real)
    requires cosine(u0, u1).z >= 0.0
    ensures var s := DefaultSample(b, cosine, wo, u0, u1);
            var d := cosine(u0, u1);
            s.sampledType == EMPTY && s.wi.x == d.x && s.wi.y == d.y &&
            (wo.z < 0.0 ==> s.wi.z <= 0.0) && (wo.z >= 0.0 ==> s.wi.z >= 0.0) &&
            AbsCosTheta(s.wi) == d.z
  {
  }

  /** `ScaledBxDF` (bxdf.rs:62-74) reports the wrapped lobe's type, sampled
    * direction, density and sampled type unchanged and scales only the value;
    * its `pdf` is the default density. */
  lemma ScaledKeepsSample(i: BxDF, sc: Spectrum, cosine: (real, real) -> Vec3, wo: Vec3, wi: Vec3, u0: real, u1: real)
    ensures TypeOf(Scaled(i, sc)) == TypeOf(i)
    ensures EvalF(Scaled(i, sc), wo, wi) == Mul(EvalF(i, wo, wi), sc)
    ensures var s := SampleOf(i, cosine, wo, u0, u1);
            var t := SampleOf(Scaled(i, sc), cosine, wo, u0, u1);
            t.wi == s.wi && t.pdf == s.pdf && t.sampledType == s.sampledType && t.f == Mul(s.f, sc)
    ensures PdfOf(Scaled(i, sc), wo, wi) == DefaultPdf(wo, wi)
  {
  }

  // ---------------------------------------------------------------------------
  // BxDFHolder
  // ---------------------------------------------------------------------------

  /** `BxDFHolder` (mod.rs:32-57): eight arena slots and a fill count. */
  class BxDFHolder {
    const b: array<BxDF>
    var n: nat
    /** The lobes added so far, in order. */
    ghost var added: seq<BxDF>

    ghost predicate Valid()
      reads this, b
    {
      b.Length == 8 && n <= 8 && n == |added| && b[..n] == added
    }

    /** `new`: eight slots, none used. The arena's initial slot contents are
      * the `filler`. */
    constructor (filler: BxDF)
      ensures Valid() && n == 0 && added == [] && fresh(b)
    {
      b := new BxDF[8](_ => filler);
      n := 0;
      added := [];
    }

    /** `add`: store at slot `n` and count it; a ninth lobe indexes past the
      * slice, which the source does not allow. */
    method Add(bxdf: BxDF)
      requires Valid() && n < 8
      modifies this, b
      ensures Valid() && n == old(n) + 1 && added == old(added) + [bxdf]
    {
      b[n] := bxdf;
      n := n + 1;
      added := added + [bxdf];
    }

    /** `into_slice`: the first `n` slots, which are the added lobes in order. */
    function IntoSlice(): (s: seq<BxDF>)
      requires Valid()
      reads this, b
      ensures s == added && |s| == n
    {
      b[..n]
    }
  }

  // ---------------------------------------------------------------------------
  // BSDF
  // ---------------------------------------------------------------------------

  /** The shading frame: tangents `ss`, `ts`, shading normal `ns` and
    * geometric normal `ng`. */
  datatype Frame = Frame(ss: Vec3, ts: Vec3, ns: Vec3, ng: Vec3)

  datatype BSDF = BSDF(eta: real, frame: Frame, bxdfs: seq<BxDF>)

  function ToLocal(fr: Frame, v: Vec3): Vec3
  {
    Vec3(Dot(v, fr.ss), Dot(v, fr.ts), Dot(v, fr.ns))
  }

  function ToWorld(fr: Frame, v: Vec3): Vec3
  {
    Vec3(fr.ss.x * v.x + fr.ts.x * v.y + fr.ns.x * v.z,
         fr.ss.y * v.x + fr.ts.y * v.y + fr.ns.y * v.z,
         fr.ss.z * v.x + fr.ts.z * v.y + fr.ns.z * v.z)
  }

  /** The lobes that match `flags`, in their order. */
  function Matching(s: seq<BxDF>, flags: bv32): (m: seq<BxDF>)
    ensures |m| <= |s|
    ensures forall k :: 0 <= k < |m| ==> Matches(TypeOf(m[k]), flags)
  {
    if |s| == 0 then []
    else if Matches(TypeOf(s[|s| - 1]), flags) then Matching(s[..|s| - 1], flags) + [s[|s| - 1]]
    else Matching(s[..|s| - 1], flags)
  }

  /** Every matching lobe of `s` is kept by `Matching`. */
  lemma {:induction false} MatchingComplete(s: seq<BxDF>, flags: bv32, k: nat)
    requires k < |s| && Matches(TypeOf(s[k]), flags)
    ensures exists j :: 0 <= j < |Matching(s, flags)| && Matching(s, flags)[j] == s[k]
    decreases |s|
  {
    var m := Matching(s, flags);
    if k == |s| - 1 {
      assert m[|m| - 1] == s[k];
    } else {
      MatchingComplete(s[..|s| - 1], flags, k);
      var j :| 0 <= j < |Matching(s[..|s| - 1], flags)| && Matching(s[..|s| - 1], flags)[j] == s[..|s| - 1][k];
      assert m[j] == s[k];
    }
  }

  /** `num_components` (mod.rs:237-239): the number of lobes matching `flags`. */
  function NumComponents(s: seq<BxDF>, flags: bv32): (c: nat)
    ensures c <= |s|
    ensures c == |Matching(s, flags)|
  {
    if |s| == 0 then 0
    else NumComponents(s[..|s| - 1], flags) + (if Matches(TypeOf(s[|s| - 1]), flags) then 1 else 0)
  }

  /** No lobe matches exactly when the count is zero. */
  lemma NoComponents(s: seq<BxDF>, flags: bv32)
    ensures NumComponents(s, flags) == 0 <==> forall k :: 0 <= k < |s| ==> !Matches(TypeOf(s[k]), flags)
  {
    if NumComponents(s, flags) == 0 {
      forall k | 0 <= k < |s|
        ensures !Matches(TypeOf(s[k]), flags)
      {
        if Matches(TypeOf(s[k]), flags) {
          MatchingComplete(s, flags, k);
        }
      }
    } else {
      var m := Matching(s, flags);
      MatchingSubset(s, flags, 0);
    }
  }

  /** Every lobe `Matching` keeps comes from `s`. */
  lemma {:induction false} MatchingSubset(s: seq<BxDF>, flags: bv32, j: nat)
    requires j < |Matching(s, flags)|
    ensures exists k :: 0 <= k < |s| && s[k] == Matching(s, flags)[j]
    decreases |s|
  {
    var pre := s[..|s| - 1];
    if Matches(TypeOf(s[|s| - 1]), flags) && j == |Matching(pre, flags)| {
      assert s[|s| - 1] == Matching(s, flags)[j];
    } else {
      MatchingSubset(pre, flags, j);
      var k :| 0 <= k < |pre| && pre[k] == Matching(pre, flags)[j];
      assert s[k] == Matching(s, flags)[j];
    }
  }

  /** The lobe filter of `BSDF::f` (mod.rs:96-102): the lobe matches `flags`
    * and carries REFLECTION for a reflected pair or TRANSMISSION otherwise. */
  predicate Selected(b: BxDF, flags: bv32, reflect: bool)
  {
    Matches(TypeOf(b), flags) &&
    ((reflect && Contains(TypeOf(b), REFLECTION)) || (!reflect && Contains(TypeOf(b), TRANSMISSION)))
  }

  /** The fold of mod.rs:103 over the selected lobes. */
  function SumSelected(s: seq<BxDF>, flags: bv32, reflect: bool, wo: Vec3, wi: Vec3): Spectrum
  {
    if |s| == 0 then Black()
    else
      var rest := SumSelected(s[..|s| - 1], flags, reflect, wo, wi);
      if Selected(s[|s| - 1], flags, reflect) then Add(rest, EvalF(s[|s| - 1], wo, wi)) else rest
  }

  /** Whether `wi` and `wo` lie on the same side of the geometric normal. */
  predicate Reflect(fr: Frame, woW: Vec3, wiW: Vec3)
  {
    Dot(wiW, fr.ng) * Dot(woW, fr.ng) > 0.0
  }

  /** `BSDF::f` (mod.rs:87-104). */
  function F(bsdf: BSDF, woW: Vec3, wiW: Vec3, flags: bv32): (r: Spectrum)
    ensures ToLocal(bsdf.frame, woW).z == 0.0 ==> r == Black()
  {
    var wi := ToLocal(bsdf.frame, wiW);
    var wo := ToLocal(bsdf.frame, woW);
    if wo.z == 0.0 then Black()
    else SumSelected(bsdf.bxdfs, flags, Reflect(bsdf.frame, woW, wiW), wo, wi)
  }

  /** A lobe that is not selected changes nothing when added, whichever flags
    * and side made it so; a selected one adds its value. */
  lemma FAddsOnlySelected(bsdf: BSDF, b: BxDF, woW: Vec3, wiW: Vec3, flags: bv32)
    ensures var fr := bsdf.frame;
            var wo := ToLocal(fr, woW);
            var wi := ToLocal(fr, wiW);
            var more := BSDF(bsdf.eta, fr, bsdf.bxdfs + [b]);
            F(more, woW, wiW, flags) ==
              if wo.z == 0.0 || !Selected(b, flags, Reflect(fr, woW, wiW)) then F(bsdf, woW, wiW, flags)
              else Add(F(bsdf, woW, wiW, flags), EvalF(b, wo, wi))
  {
    assert (bsdf.bxdfs + [b])[..|bsdf.bxdfs|] == bsdf.bxdfs;
  }

  /** A lobe that only reflects never contributes to a transmitted pair, and
    * one that only transmits never to a reflected pair. */
  lemma {:induction false} WrongSideIgnored(s: seq<BxDF>, flags: bv32, reflect: bool, wo: Vec3, wi: Vec3, b: BxDF)
    requires reflect ==> !Contains(TypeOf(b), REFLECTION)
    requires !reflect ==> !Contains(TypeOf(b), TRANSMISSION)
    ensures SumSelected(s + [b], flags, reflect, wo, wi) == SumSelected(s, flags, reflect, wo, wi)
  {
    assert (s + [b])[..|s|] == s;
  }

  /** The sum of the densities of the matching lobes in `s`. */
  function MatchedPdf(s: seq<BxDF>, flags: bv32, wo: Vec3, wi: Vec3): real
  {
    if |s| == 0 then 0.0
    else MatchedPdf(s[..|s| - 1], flags, wo, wi) +
         (if Matches(TypeOf(s[|s| - 1]), flags) then PdfOf(s[|s| - 1], wo, wi) else 0.0)
  }

  /** What `BSDF::pdf` computes (mod.rs:106-129): 0 without lobes, at a
    * grazing `wo` or without a matching lobe, and otherwise the mean density
    * of the matching lobes. */
  function PdfSpec(bsdf: BSDF, woW: Vec3, wiW: Vec3, flags: bv32): real
  {
    var wo := ToLocal(bsdf.frame, woW);
    var wi := ToLocal(bsdf.frame, wiW);
    var m := NumComponents(bsdf.bxdfs, flags);
    if |bsdf.bxdfs| == 0 || wo.z == 0.0 || m == 0 then 0.0
    else MatchedPdf(bsdf.bxdfs, flags, wo, wi) / m as real
  }

  /** One more lobe adds itself to the count and its density to the sum
    * exactly when it matches. */
  lemma MatchedStep(s: seq<BxDF>, i: nat, flags: bv32, wo: Vec3, wi: Vec3)
    requires i < |s|
    ensures var m := Matches(TypeOf(s[i]), flags);
            NumComponents(s[..i + 1], flags) == NumComponents(s[..i], flags) + (if m then 1 else 0) &&
            MatchedPdf(s[..i + 1], flags, wo, wi) == MatchedPdf(s[..i], flags, wo, wi) + (if m then PdfOf(s[i], wo, wi) else 0.0)
  {
    assert s[..i + 1][..i] == s[..i];
  }

  /** `BSDF::pdf`: the accumulation loop over the lobes. */
  method Pdf(bsdf: BSDF, woW: Vec3, wiW: Vec3, flags: bv32) returns (pdf: real)
    ensures pdf == PdfSpec(bsdf, woW, wiW, flags)
  {
    if |bsdf.bxdfs| == 0 {
      return 0.0;
    }
    var wo := ToLocal(bsdf.frame, woW);
    if wo.z == 0.0 {
      return 0.0;
    }
    var wi := ToLocal(bsdf.frame, wiW);
    var matchedComps := 0;
    pdf := 0.0;
    for i := 0 to |bsdf.bxdfs|
      invariant matchedComps == NumComponents(bsdf.bxdfs[..i], flags)
      invariant pdf == MatchedPdf(bsdf.bxdfs[..i], flags, wo, wi)
    {
      MatchedStep(bsdf.bxdfs, i, flags, wo, wi);
      if Matches(TypeOf(bsdf.bxdfs[i]), flags) {
        matchedComps := matchedComps + 1;
        pdf := pdf + PdfOf(bsdf.bxdfs[i], wo, wi);
      }
    }
    assert bsdf.bxdfs[..|bsdf.bxdfs|] == bsdf.bxdfs;
    if matchedComps == 0 {
      pdf := 0.0;
    } else {
      pdf := pdf / matchedComps as real;
    }
  }

  /** `n` copies of `x` added up. */
  function Times(n: nat, x: real): real
  {
    if n == 0 then 0.0 else Times(n - 1, x) + x
  }

  lemma {:induction false} TimesIsProduct(n: nat, x: real)
    ensures Times(n, x) == n as real * x
  {
    if n > 0 {
      TimesIsProduct(n - 1, x);
      assert n as real * x == (n - 1) as real * x + x;
    }
  }

  /** The matched sum lies between the match count times any lower and upper
    * bound on the matching densities. */
  lemma {:induction false} MatchedPdfBounds(s: seq<BxDF>, flags: bv32, wo: Vec3, wi: Vec3, lo: real, hi: real)
    requires forall k :: 0 <= k < |s| && Matches(TypeOf(s[k]), flags) ==> lo <= PdfOf(s[k], wo, wi) <= hi
    ensures Times(NumComponents(s, flags), lo) <= MatchedPdf(s, flags, wo, wi) <= Times(NumComponents(s, flags), hi)
  {
    if |s| > 0 {
      var pre := s[..|s| - 1];
      forall k | 0 <= k < |pre| && Matches(TypeOf(pre[k]), flags)
        ensures lo <= PdfOf(pre[k], wo, wi) <= hi
      {
        assert pre[k] == s[k];
      }
      MatchedPdfBounds(pre, flags, wo, wi, lo, hi);
    }
  }

  /** Dividing the bounds of the sum of `n` terms by `n`. */
  lemma DivideBounds(sum: real, n: nat, lo: real, hi: real)
    requires n > 0 && Times(n, lo) <= sum <= Times(n, hi)
    ensures lo <= sum / n as real <= hi
  {
    TimesIsProduct(n, lo);
    TimesIsProduct(n, hi);
    var nr := n as real;
    var q := sum / nr;
    assert q * nr == sum;
    if q < lo {
      ScaleStrict(q, lo, nr);
      assert false;
    }
    if hi < q {
      ScaleStrict(hi, q, nr);
      assert false;
    }
  }

  /** `pdf` is a mean: when every matching lobe's density lies in [lo, hi]
    * and some lobe matches, so does the BSDF's; it is 0 when none matches. */
  lemma PdfIsMean(bsdf: BSDF, woW: Vec3, wiW: Vec3, flags: bv32, lo: real, hi: real)
    requires ToLocal(bsdf.frame, woW).z != 0.0
    requires NumComponents(bsdf.bxdfs, flags) > 0
    requires forall k :: 0 <= k < |bsdf.bxdfs| && Matches(TypeOf(bsdf.bxdfs[k]), flags) ==>
               lo <= PdfOf(bsdf.bxdfs[k], ToLocal(bsdf.frame, woW), ToLocal(bsdf.frame, wiW)) <= hi
    ensures lo <= PdfSpec(bsdf, woW, wiW, flags) <= hi
  {
    var wo, wi := ToLocal(bsdf.frame, woW), ToLocal(bsdf.frame, wiW);
    MatchedPdfBounds(bsdf.bxdfs, flags, wo, wi, lo, hi);
    DivideBounds(MatchedPdf(bsdf.bxdfs, flags, wo, wi), NumComponents(bsdf.bxdfs, flags), lo, hi);
  }

  lemma PdfWithoutMatch(bsdf: BSDF, woW: Vec3, wiW: Vec3, flags: bv32)
    requires forall k :: 0 <= k < |bsdf.bxdfs| ==> !Matches(TypeOf(bsdf.bxdfs[k]), flags)
    ensures PdfSpec(bsdf, woW, wiW, flags) == 0.0
  {
    NoComponents(bsdf.bxdfs, flags);
  }

  // ---------------------------------------------------------------------------
  // BSDF::sample_f
  // ---------------------------------------------------------------------------

  /** `(x).floor() as usize` for a finite `f32`: negative values saturate to 0. */
  function FloorToUsize(x: real): (r: nat)
    ensures x >= 0.0 ==> r as real <= x < r as real + 1.0
    ensures x < 0.0 ==> r == 0
  {
    if x < 0.0 then 0 else x.Floor
  }

  /** The index of the matching lobe that `sample_f` samples (mod.rs:144-145). */
  function ChooseComponent(u0: real, m: nat): (c: nat)
    requires m > 0
    ensures c < m
  {
    MinI(FloorToUsize(u0 * m as real), m - 1)
  }

  /** For `u0` in [0, 1) the choice is the stratum containing `u0`, and the
    * remapped sample `u0·m - comp` is again in [0, 1). */
  lemma ChooseComponentStratum(u0: real, m: nat)
    requires m > 0 && 0.0 <= u0 < 1.0
    ensures var c := ChooseComponent(u0, m);
            c as real <= u0 * m as real < c as real + 1.0 &&
            0.0 <= u0 * m as real - c as real < 1.0
  {
    var mr := m as real;
    var x := u0 * mr;
    ScaleStrict(u0, 1.0, mr);
    assert x < mr;
    var f := FloorToUsize(x);
    assert f as real <= x < f as real + 1.0;
    assert f < m;
    assert ChooseComponent(u0, m) == f;
  }

  /** The loop of mod.rs:187-195 from index `i` on: add the density of every
    * other matching lobe, failing (the `panic!`) as soon as the running sum
    * is negative. */
  function AddOtherPdfs(comps: seq<BxDF>, comp: nat, wo: Vec3, wi: Vec3, pdf: real, i: nat): Option<real>
    requires i <= |comps|
    decreases |comps| - i
  {
    if i == |comps| then Some(pdf)
    else if i == comp then AddOtherPdfs(comps, comp, wo, wi, pdf, i + 1)
    else
      var p := pdf + PdfOf(comps[i], wo, wi);
      if p < 0.0 then None else AddOtherPdfs(comps, comp, wo, wi, p, i + 1)
  }

  /** The densities of `comps[i..]`. */
  function PdfsFrom(comps: seq<BxDF>, wo: Vec3, wi: Vec3, i: nat): real
    requires i <= |comps|
    decreases |comps| - i
  {
    if i == |comps| then 0.0 else PdfOf(comps[i], wo, wi) + PdfsFrom(comps, wo, wi, i + 1)
  }

  /** With non-negative densities the loop never panics and adds the densities
    * of all lobes but the sampled one. */
  lemma {:induction false} AddOtherPdfsSums(comps: seq<BxDF>, comp: nat, wo: Vec3, wi: Vec3, pdf: real, i: nat)
    requires i <= |comps| && comp < |comps| && pdf >= 0.0
    requires forall k :: 0 <= k < |comps| ==> PdfOf(comps[k], wo, wi) >= 0.0
    ensures AddOtherPdfs(comps, comp, wo, wi, pdf, i) ==
            Some(pdf + PdfsFrom(comps, wo, wi, i) - (if i <= comp then PdfOf(comps[comp], wo, wi) else 0.0))
    decreases |comps| - i
  {
    if i < |comps| {
      AddOtherPdfsSums(comps, comp, wo, wi, if i == comp then pdf else pdf + PdfOf(comps[i], wo, wi), i + 1);
    }
  }

  /** The result of `BSDF::sample_f`: value, world-space direction, density
    * and sampled type. */
  datatype BsdfSample = BsdfSample(f: Spectrum, wi: Vec3, pdf: real, sampledType: bv32)

  function NoSample(t: bv32): BsdfSample { BsdfSample(Black(), ZERO, 0.0, t) }

  /** The part of `BSDF::sample_f` after the chosen lobe was sampled
    * (mod.rs:180-223); `None` is the panic on a negative running density. */
  function Finish(bsdf: BSDF, matching: seq<BxDF>, comp: nat, woW: Vec3, wo: Vec3, s: LobeSample, flags: bv32): Option<BsdfSample>
    requires comp < |matching|
  {
    var m := |matching|;
    if s.pdf == 0.0 then Some(NoSample(EMPTY))
    else
      var wiW := ToWorld(bsdf.frame, s.wi);
      var combine := !Contains(TypeOf(matching[comp]), SPECULAR) && m > 1;
      var summed := if combine then AddOtherPdfs(matching, comp, wo, s.wi, s.pdf, 0) else Some(s.pdf);
      if summed.None? then None
      else
        var pdf := if m > 1 then summed.value / m as real else summed.value;
        var f := if combine then SumSelected(matching, flags, Reflect(bsdf.frame, woW, wiW), wo, s.wi) else s.f;
        Some(BsdfSample(f, wiW, pdf, s.sampledType))
  }

  /** The remapped first sample coordinate of mod.rs:158-160. */
  function Remap(u0: real, m: nat, comp: nat): real
  {
    MinR(u0 * m as real - comp as real, ONE_MINUS_EPSILON)
  }

  /** What `BSDF::sample_f` computes (mod.rs:131-224). */
  function SampleSpec(bsdf: BSDF, cosine: (real, real) -> Vec3, woW: Vec3, u0: real, u1: real, flags: bv32): Option<BsdfSample>
  {
    var matching := Matching(bsdf.bxdfs, flags);
    var m := |matching|;
    if m == 0 then Some(NoSample(EMPTY))
    else
      var comp := ChooseComponent(u0, m);
      var wo := ToLocal(bsdf.frame, woW);
      if wo.z == 0.0 then Some(NoSample(TypeOf(matching[comp])))
      else Finish(bsdf, matching, comp, woW, wo, SampleOf(matching[comp], cosine, wo, Remap(u0, m, comp), u1), flags)
  }

  /** The loop of mod.rs:187-195. */
  method AccumulatePdf(comps: seq<BxDF>, comp: nat, wo: Vec3, wi: Vec3, pdf0: real) returns (r: Option<real>)
    ensures r == AddOtherPdfs(comps, comp, wo, wi, pdf0, 0)
  {
    var pdf := pdf0;
    var i := 0;
    while i < |comps|
      invariant i <= |comps|
      invariant AddOtherPdfs(comps, comp, wo, wi, pdf, i) == AddOtherPdfs(comps, comp, wo, wi, pdf0, 0)
    {
      if i != comp {
        pdf := pdf + PdfOf(comps[i], wo, wi);
        if pdf < 0.0 {
          return None;
        }
      }
      i := i + 1;
    }
    return Some(pdf);
  }

  /** `BSDF::sample_f`. */
  method SampleF(bsdf: BSDF, cosine: (real, real) -> Vec3, woW: Vec3, u0: real, u1: real, flags: bv32)
    returns (r: Option<BsdfSample>)
    ensures r == SampleSpec(bsdf, cosine, woW, u0, u1, flags)
  {
    var matching := Matching(bsdf.bxdfs, flags);
    var m := |matching|;
    if m == 0 {
      return Some(NoSample(EMPTY));
    }
    var comp := ChooseComponent(u0, m);
    var bxdf := matching[comp];
    var wo := ToLocal(bsdf.frame, woW);
    if wo.z == 0.0 {
      return Some(NoSample(TypeOf(bxdf)));
    }
    var s := SampleOf(bxdf, cosine, wo, Remap(u0, m, comp), u1);
    if s.pdf == 0.0 {
      return Some(NoSample(EMPTY));
    }
    var wiW := ToWorld(bsdf.frame, s.wi);
    var combine := !Contains(TypeOf(bxdf), SPECULAR) && m > 1;
    var summed := Some(s.pdf);
    if combine {
      summed := AccumulatePdf(matching, comp, wo, s.wi, s.pdf);
      if summed.None? {
        return None;
      }
    }
    var pdf := summed.value;
    if m > 1 {
      pdf := pdf / m as real;
    }
    var f := s.f;
    if combine {
      f := SumSelected(matching, flags, Reflect(bsdf.frame, woW, wiW), wo, s.wi);
    }
    return Some(BsdfSample(f, wiW, pdf, s.sampledType));
  }

  /** The density `sample_f` reports once a lobe was sampled: 0 for a zero
    * lobe density; the lobe's density for a single match; divided by the
    * match count for a specular lobe among several; otherwise, with
    * non-negative densities, the mean over all matching lobes, the sampled
    * lobe's own density taken from its sample. */
  lemma FinishPdf(bsdf: BSDF, matching: seq<BxDF>, comp: nat, woW: Vec3, wo: Vec3, s: LobeSample, flags: bv32)
    requires comp < |matching|
    requires forall k :: 0 <= k < |matching| ==> PdfOf(matching[k], wo, s.wi) >= 0.0
    ensures var m := |matching|;
            var r := Finish(bsdf, matching, comp, woW, wo, s, flags);
            (s.pdf == 0.0 ==> r == Some(NoSample(EMPTY))) &&
            (s.pdf > 0.0 ==>
               r.Some? && r.value.sampledType == s.sampledType && r.value.wi == ToWorld(bsdf.frame, s.wi) &&
               (m == 1 ==> r.value.pdf == s.pdf && r.value.f == s.f) &&
               (m > 1 && Contains(TypeOf(matching[comp]), SPECULAR) ==> r.value.pdf == s.pdf / m as real) &&
               (m > 1 && !Contains(TypeOf(matching[comp]), SPECULAR) ==>
                  r.value.pdf == (s.pdf + PdfsFrom(matching, wo, s.wi, 0) - PdfOf(matching[comp], wo, s.wi)) / m as real))
  {
    if s.pdf > 0.0 {
      AddOtherPdfsSums(matching, comp, wo, s.wi, s.pdf, 0);
    }
  }

  /** The outcomes of `sample_f` before sampling: with no matching lobe the
    * empty type and density 0; at a grazing `wo` the chosen lobe's type and
    * density 0; otherwise the chosen lobe, below the match count, is sampled
    * and finished. */
  lemma SampleOutcomes(bsdf: BSDF, cosine: (real, real) -> Vec3, woW: Vec3, u0: real, u1: real, flags: bv32)
    ensures var matching := Matching(bsdf.bxdfs, flags);
            var m := |matching|;
            var r := SampleSpec(bsdf, cosine, woW, u0, u1, flags);
            var wo := ToLocal(bsdf.frame, woW);
            (m == 0 ==> r == Some(NoSample(EMPTY))) &&
            (m > 0 ==>
               var comp := ChooseComponent(u0, m);
               comp < m &&
               (wo.z == 0.0 ==> r == Some(NoSample(TypeOf(matching[comp])))) &&
               (wo.z != 0.0 ==> r == Finish(bsdf, matching, comp, woW, wo, SampleOf(matching[comp], cosine, wo, Remap(u0, m, comp), u1), flags)))
  {
  }
}
