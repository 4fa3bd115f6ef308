/** `f32` values with their special cases, and RGB colours over them
  * (rustracer-core/src/spectrum.rs). The film and the renderer test
  * colours for NaN and infinite luminance, so unlike the real-valued
  * spectra of the BSDF model these keep NaN and the two infinities.
  * Rounding and overflow to infinity are not modelled: a finite result is
  * the exact real one. */
module F32Colour {

  /** An `f32`: a finite value, NaN, or an infinity of either sign. */
  datatype F32 = Num(v: real) | NaN | Inf(negative: bool)

  /** IEEE addition: NaN absorbs, opposite infinities give NaN. */
  function Add(a: F32, b: F32): (r: F32)
    ensures r.Num? <==> a.Num? && b.Num?
    ensures r.NaN? <==> a.NaN? || b.NaN? || (a.Inf? && b.Inf? && a.negative != b.negative)
  {
    match (a, b)
    case (NaN, _) => NaN
    case (_, NaN) => NaN
    case (Inf(n1), Inf(n2)) => if n1 == n2 then a else NaN
    case (Inf(_), Num(_)) => a
    case (Num(_), Inf(_)) => b
    case (Num(x), Num(y)) => Num(x + y)
  }

  /** IEEE product with a finite factor w: an infinity times 0 is NaN, and a
    * negative factor flips the sign of an infinity. */
  function Scale(a: F32, w: real): (r: F32)
    ensures r.Num? <==> a.Num?
    ensures r.NaN? <==> a.NaN? || (a.Inf? && w == 0.0)
  {
    match a
    case Num(x) => Num(x * w)
    case NaN => NaN
    case Inf(n) => if w == 0.0 then NaN else Inf(n != (w < 0.0))
  }

  /** `x < t` for a finite t: false for NaN, true for -∞ only. */
  predicate Below(a: F32, t: real)
  {
    match a
    case Num(x) => x < t
    case NaN => false
    case Inf(n) => n
  }

  /** An RGB `Spectrum`. */
  datatype Colour = Colour(r: F32, g: F32, b: F32)

  function Black(): Colour
  {
    Colour(Num(0.0), Num(0.0), Num(0.0))
  }

  /** `has_nan`. */
  predicate HasNan(c: Colour)
  {
    c.r.NaN? || c.g.NaN? || c.b.NaN?
  }

  /** Every component is a finite number. */
  predicate Finite(c: Colour)
  {
    c.r.Num? && c.g.Num? && c.b.Num?
  }

  /** `spectrum * w`, componentwise. */
  function ScaleColour(c: Colour, w: real): (r: Colour)
    ensures HasNan(r) <==> HasNan(c) || (w == 0.0 && (c.r.Inf? || c.g.Inf? || c.b.Inf?))
    ensures Finite(r) <==> Finite(c)
  {
    Colour(Scale(c.r, w), Scale(c.g, w), Scale(c.b, w))
  }

  /** `+=` on spectra, componentwise. */
  function AddColour(a: Colour, b: Colour): (r: Colour)
    ensures Finite(r) <==> Finite(a) && Finite(b)
    ensures HasNan(a) || HasNan(b) ==> HasNan(r)
  {
    Colour(Add(a.r, b.r), Add(a.g, b.g), Add(a.b, b.b))
  }

  /** A weighted sum w0·a + w1·b + w2·c of three `f32`s, as written in
    * `y()` and `to_xyz()`. */
  function Weighted(a: F32, b: F32, c: F32, w0: real, w1: real, w2: real): (r: F32)
    requires w0 > 0.0 && w1 > 0.0 && w2 > 0.0
    ensures r.Num? <==> a.Num? && b.Num? && c.Num?
    ensures r.Num? ==> r.v == w0 * a.v + w1 * b.v + w2 * c.v
  {
    Add(Add(Scale(a, w0), Scale(b, w1)), Scale(c, w2))
  }

  /** `y()`: the luminance, 0.212671·r + 0.715160·g + 0.072169·b
    * (spectrum.rs:149-152). It is finite exactly when the colour is. */
  function Luminance(c: Colour): (y: F32)
    ensures y.Num? <==> Finite(c)
  {
    Weighted(c.r, c.g, c.b, 0.212671, 0.715160, 0.072169)
  }

  /** `to_xyz()` (spectrum.rs:98-106): the three rows of the RGB-to-XYZ
    * matrix; its middle row is the luminance. */
  function ToXyz(c: Colour): (xyz: Colour)
    ensures xyz.g == Luminance(c)
    ensures Finite(xyz) <==> Finite(c)
  {
    Colour(Weighted(c.r, c.g, c.b, 0.412453, 0.357580, 0.180423),
           Luminance(c),
           Weighted(c.r, c.g, c.b, 0.019334, 0.119193, 0.950227))
  }

  /** Opposite infinities in one colour carry no NaN component, yet their
    * luminance is NaN. */
  lemma MixedInfinityLuminance()
    ensures !HasNan(Colour(Inf(false), Inf(true), Num(0.0)))
    ensures Luminance(Colour(Inf(false), Inf(true), Num(0.0))).NaN?
  {
  }
}
