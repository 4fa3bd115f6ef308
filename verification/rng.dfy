/** The PCG32 random number generator (rustracer-core/src/rng.rs): a 64-bit
  * linear congruential state, advanced with wrapping arithmetic, whose
  * output is a permuted 32-bit word. */
module Rng {
  import opened Wrappers

  const PCG32_DEFAULT_STATE: bv64 := 0x853c49e6748fea9b
  const PCG32_DEFAULT_STREAM: bv64 := 0xda3e39cb94b95bdb
  const PCG32_MULT: bv64 := 0x5851f42d4c957f2d

  /** The state transition: `state * MULT + inc`, modulo 2^64. */
  function Step(state: bv64, inc: bv64): bv64
  {
    state * PCG32_MULT + inc
  }

  /** The xorshift of the old state, truncated to 32 bits. */
  function XorShifted(prev: bv64): bv32
  {
    ((((prev >> 18) ^ prev) >> 27) & 0xFFFF_FFFF) as bv32
  }

  /** The rotation amount: the top five bits of the old state. */
  function Rot(prev: bv64): (r: bv32)
    ensures r < 32
  {
    (prev >> 59) as bv32
  }

  /** The rotation `(xs >> rot) | (xs << ((!rot + 1) & 31))` of rng.rs:29. */
  function RotateWord(xs: bv32, rot: bv32): bv32
    requires rot < 32
  {
    (xs >> rot) | (xs << ((!rot + 1) & 31))
  }

  /** The output word of `uniform_u32` for the old state (rng.rs:26-29). */
  function Output(prev: bv64): bv32
  {
    RotateWord(XorShifted(prev), Rot(prev))
  }

  /** `(!rot + 1) & 31` is `32 - rot` modulo 32, so the word is rotated right
    * by `rot`: unchanged for 0, and otherwise its low `rot` bits move to the
    * top. */
  lemma RotateWordIsRotation(xs: bv32, rot: bv32)
    requires rot < 32
    ensures rot == 0 ==> RotateWord(xs, rot) == xs
    ensures rot > 0 ==> RotateWord(xs, rot) == (xs >> rot) | (xs << (32 - rot))
  {
  }

  /** The rejection threshold as written at rng.rs:33: `(!b + 1) & b`, the
    * lowest set bit of `b`. */
  function ThresholdAsWritten(b: bv32): bv32
  {
    (!b + 1) & b
  }

  const U32_RANGE: nat := 0x1_0000_0000

  /** The threshold `(!b + 1) % b` of PCG32, i.e. 2^32 mod b: for a `u32`
    * `b > 0`, `!b + 1` is `2^32 - b`. */
  function Threshold(b: nat): (t: nat)
    requires 0 < b < U32_RANGE
    ensures t < b
  {
    (U32_RANGE - b) % b
  }

  /** With the `%` threshold the number of accepted words, `2^32 - t`, is a
    * multiple of `b`, so every residue is drawn equally often. */
  lemma ThresholdUnbiased(b: nat)
    requires 0 < b < U32_RANGE
    ensures U32_RANGE - Threshold(b) == ((U32_RANGE - b) / b + 1) * b
  {
    var q := (U32_RANGE - b) / b;
    assert U32_RANGE - b == q * b + Threshold(b);
    assert (q + 1) * b == q * b + b;
  }

  /** With the threshold as written, `b = 6` accepts `2^32 - 2` words, which
    * is not a multiple of 6, so the residues are not equally likely; the
    * `%` threshold for 6 is 4. */
  lemma ThresholdAsWrittenBiased()
    ensures ThresholdAsWritten(6) == 2 && Threshold(6) == 4
    ensures (U32_RANGE - ThresholdAsWritten(6) as int) % 6 != 0
  {
  }

  /** One draw of the rejection loop: the residue of an accepted word. */
  function Accept(w: nat, b: nat): (r: Option<nat>)
    requires 0 < b < U32_RANGE
    ensures r.Some? <==> w >= Threshold(b)
    ensures r.Some? ==> r.value < b && r.value == w % b
  {
    if w >= Threshold(b) then Some(w % b) else None
  }

  /** The rejection loop of `uniform_u32_bounded` run from `state` for at most
    * `fuel` draws: the accepted residue and the state after it, or `None`
    * when every draw was rejected. */
  function BoundedDraw(state: bv64, inc: bv64, b: nat, fuel: nat): (r: Option<(nat, bv64)>)
    requires 0 < b < U32_RANGE
    ensures r.Some? ==> r.value.0 < b
    decreases fuel
  {
    if fuel == 0 then None
    else
      var a := Accept(Output(state) as int, b);
      var s := Step(state, inc);
      if a.Some? then Some((a.value, s)) else BoundedDraw(s, inc, b, fuel - 1)
  }

  /** For a `b` dividing 2^32 the threshold is 0, so every word is accepted
    * and the rejection loop ends after its first draw. */
  lemma DivisorAcceptsAll(b: nat, w: nat)
    requires 0 < b < U32_RANGE && U32_RANGE % b == 0
    ensures Threshold(b) == 0
    ensures Accept(w, b) == Some(w % b)
  {
    var big := U32_RANGE / b;
    var q := (U32_RANGE - b) / b;
    var t := Threshold(b);
    assert U32_RANGE == big * b;
    assert U32_RANGE - b == q * b + t;
    var k := big - 1 - q;
    assert k * b == t by {
      assert k * b == big * b - b - q * b;
    }
    if k >= 1 {
      assert false;
    } else if k <= -1 {
      assert false;
    }
  }

  /** The generator state. */
  class RNG {
    var state: bv64
    var inc: bv64

    /** `RNG::new`: the default state and stream. */
    constructor ()
      ensures state == PCG32_DEFAULT_STATE && inc == PCG32_DEFAULT_STREAM
    {
      state := PCG32_DEFAULT_STATE;
      inc := PCG32_DEFAULT_STREAM;
    }

    /** `uniform_u32` (rng.rs:23-30): advance the state and return the
      * output word of the old state; the stream is unchanged. */
    method UniformU32() returns (r: bv32)
      modifies this
      ensures state == Step(old(state), inc) && inc == old(inc)
      ensures r == Output(old(state))
    {
      var oldstate := state;
      state := Step(oldstate, inc);
      var xorshifted := XorShifted(oldstate);
      var rot := Rot(oldstate);
      r := RotateWord(xorshifted, rot);
    }

    /** `uniform_u32_bounded` (rng.rs:32-40) with the `%` threshold: draw until
      * a word at or above the threshold comes up and return it modulo `b`.
      * The loop has no bound in the source; here it gives up after `fuel`
      * draws. `b = 0` makes the source panic. */
    method UniformU32Bounded(b: nat, fuel: nat) returns (r: Option<nat>)
      requires 0 < b < U32_RANGE
      modifies this
      ensures inc == old(inc)
      ensures var d := BoundedDraw(old(state), inc, b, fuel);
              (d.Some? <==> r.Some?) && (d.Some? ==> r.value == d.value.0 && state == d.value.1)
      ensures r.Some? ==> r.value < b
    {
      var threshold := (U32_RANGE - b) % b;
      var n: nat := fuel;
      while n > 0
        invariant n <= fuel && inc == old(inc)
        invariant BoundedDraw(state, inc, b, n) == BoundedDraw(old(state), inc, b, fuel)
        decreases n
      {
        var w := UniformU32();
        if w as int >= threshold {
          return Some(w as int % b);
        }
        n := n - 1;
      }
      return None;
    }

    /** `set_sequence` (rng.rs:46-52): choose the odd stream `2·seed + 1` and
      * derive the state from it. */
    method SetSequence(seed: bv64)
      modifies this
      ensures inc == (seed << 1) | 1
      ensures state == SeededState(seed)
    {
      state := 0;
      inc := (seed << 1) | 1;
      var _ := UniformU32();
      ghost var s1 := state;
      assert s1 == Step(0, inc);
      state := state + PCG32_DEFAULT_STATE;
      ghost var s2 := state;
      var _ := UniformU32();
      assert state == Step(s2, inc);
    }
  }

  /** The state `set_sequence(seed)` leaves, which depends on the seed alone. */
  function SeededState(seed: bv64): bv64
  {
    var inc := (seed << 1) | 1;
    Step(Step(0, inc) + PCG32_DEFAULT_STATE, inc)
  }

  /** Every stream increment is odd, and seeds below 2^63 choose distinct
    * streams. */
  lemma StreamsOddAndDistinct(s1: bv64, s2: bv64)
    ensures ((s1 << 1) | 1) & 1 == 1
    ensures s1 < 0x8000_0000_0000_0000 && s2 < 0x8000_0000_0000_0000 && s1 != s2 ==>
            (s1 << 1) | 1 != (s2 << 1) | 1
  {
  }

  /** A freshly seeded generator's first word is a function of the seed. */
  method FirstAfterSeed(seed: bv64) returns (w: bv32)
    ensures w == Output(SeededState(seed))
  {
    var rng := new RNG();
    rng.SetSequence(seed);
    w := rng.UniformU32();
  }
}
