/** The spatial light distribution (rustracer-core/src/lightdistrib.rs): a
  * voxel grid over the scene bounds and an open-addressing hash table from
  * packed voxel coordinates to a light-sampling distribution, filled lazily
  * by `lookup`. The table's atomics are plain fields here. */
module LightDistrib {
  import opened Util
  import opened Wrappers
  import opened Distribution1D

  /** The key of a slot that no voxel has claimed. */
  const INVALID_PACKED_POS: bv64 := 0xffff_ffff_ffff_ffff

  /** One slot: the packed voxel it belongs to and that voxel's distribution
    * once computed. */
  datatype HashEntry = HashEntry(packedPos: bv64, distribution: Option<Distribution>)

  // ---------------------------------------------------------------------------
  // Sizing (`SpatialLightDistribution::new`, lightdistrib.rs:45-76)
  // ---------------------------------------------------------------------------

  /** The voxel count of one axis from `diag[i] / b_max * max_voxels`: the
    * rounded value cast to u32, and at least 1. */
  function VoxelCount(scaled: real): (n: nat)
    ensures 1 <= n < U32_LIMIT
    ensures 1.0 <= scaled <= (U32_LIMIT - 1) as real ==> n == Round(scaled)
    ensures scaled < 0.5 ==> n == 1
  {
    MaxI(1, SatU32(Round(scaled) as real))
  }

  /** The table size `4 · n0 · n1 · n2`, computed in u32. */
  function TableSize(nv: seq<nat>): nat
    requires |nv| == 3
  {
    4 * nv[0] * nv[1] * nv[2]
  }

  /** The voxel counts of all three axes. */
  function VoxelCounts(scaled: seq<real>): (nv: seq<nat>)
    requires |scaled| == 3
    ensures |nv| == 3 && forall i :: 0 <= i < 3 ==> nv[i] == VoxelCount(scaled[i]) >= 1
  {
    [VoxelCount(scaled[0]), VoxelCount(scaled[1]), VoxelCount(scaled[2])]
  }

  /** With every count at least 1 the table has at least four slots. */
  lemma TableSizeAtLeastFour(nv: seq<nat>)
    requires |nv| == 3 && forall i :: 0 <= i < 3 ==> nv[i] >= 1
    ensures TableSize(nv) >= 4
    ensures TableSize(nv) % 4 == 0
  {
    var p := nv[0] * nv[1];
    assert p >= 1 by { MulAtLeastOne(nv[0], nv[1]); }
    MulAtLeastOne(p, nv[2]);
    assert TableSize(nv) == 4 * (p * nv[2]);
  }

  lemma MulAtLeastOne(a: nat, b: nat)
    requires a >= 1 && b >= 1
    ensures a * b >= 1 && a * b >= a
  {
  }

  // ---------------------------------------------------------------------------
  // Voxel coordinates, packing and hashing (`lookup`, lightdistrib.rs:147-177)
  // ---------------------------------------------------------------------------

  /** Coordinate `i` of the voxel from `x = offset[i] · n`: `x as i32`,
    * clamped into [0, n - 1]. */
  function VoxelCoord(x: real, n: nat): (c: int)
    requires 1 <= n <= I32_MAX
    ensures 0 <= c <= n - 1
    ensures 0.0 <= x < n as real ==> c == Trunc(x)
    ensures x < 0.0 ==> c == 0
    ensures n as real <= x ==> c == n - 1
  {
    Clamp(SatI32(x), 0, n - 1)
  }

  /** The voxel of a point whose offset within the scene bounds is `offset`. */
  function VoxelOf(offset: seq<real>, nv: seq<nat>): (pi: seq<nat>)
    requires |offset| == 3 && |nv| == 3
    requires forall i :: 0 <= i < 3 ==> 1 <= nv[i] <= I32_MAX
    ensures |pi| == 3 && forall i :: 0 <= i < 3 ==> pi[i] < nv[i]
  {
    [VoxelCoord(offset[0] * nv[0] as real, nv[0]),
     VoxelCoord(offset[1] * nv[1] as real, nv[1]),
     VoxelCoord(offset[2] * nv[2] as real, nv[2])]
  }

  /** `(pi0 as u64) << 40 | (pi1 as u64) << 20 | (pi2 as u64)`. */
  function Pack(p0: bv64, p1: bv64, p2: bv64): bv64
  {
    (p0 << 40) | (p1 << 20) | p2
  }

  /** The key of a voxel: its non-negative coordinates, as u64, packed. */
  function PackVoxel(pi: seq<nat>): bv64
    requires |pi| == 3 && forall i :: 0 <= i < 3 ==> pi[i] < 0x8000_0000
  {
    Pack(pi[0] as bv64, pi[1] as bv64, pi[2] as bv64)
  }

  /** Coordinates below 2^20 occupy disjoint bit fields: each can be read
    * back from the packed value, and the top four bits stay clear. */
  lemma PackFields(p0: bv64, p1: bv64, p2: bv64)
    requires p0 < 0x10_0000 && p1 < 0x10_0000 && p2 < 0x10_0000
    ensures Pack(p0, p1, p2) >> 40 == p0
    ensures (Pack(p0, p1, p2) >> 20) & 0xF_FFFF == p1
    ensures Pack(p0, p1, p2) & 0xF_FFFF == p2
    ensures Pack(p0, p1, p2) >> 60 == 0
  {
  }

  /** Packing is injective for coordinates below 2^20 and never produces the
    * invalid key. */
  lemma PackInjective(p0: bv64, p1: bv64, p2: bv64, q0: bv64, q1: bv64, q2: bv64)
    requires p0 < 0x10_0000 && p1 < 0x10_0000 && p2 < 0x10_0000
    requires q0 < 0x10_0000 && q1 < 0x10_0000 && q2 < 0x10_0000
    ensures Pack(p0, p1, p2) != INVALID_PACKED_POS
    ensures Pack(p0, p1, p2) == Pack(q0, q1, q2) <==> p0 == q0 && p1 == q1 && p2 == q2
  {
    PackFields(p0, p1, p2);
    PackFields(q0, q1, q2);
  }

  /** The bit mixing of lightdistrib.rs:171-176 with wrapping u64 products. */
  function Mix(packed: bv64): bv64
  {
    var h1 := packed ^ (packed >> 31);
    var h2 := h1 * 0x7fb5d329728ea185;
    var h3 := h2 ^ (h2 >> 27);
    var h4 := h3 * 0x81dadef4bc2dd44d;
    h4 ^ (h4 >> 33)
  }

  /** The first slot probed: the mixed key modulo the table size. */
  function HashOf(packed: bv64, size: nat): (h: nat)
    requires size > 0
    ensures h < size
  {
    (Mix(packed) as int) % size
  }

  /** A u64 product `a · c` with `c > 0` exceeds u64::MAX exactly when `a`
    * exceeds ⌊u64::MAX / c⌋. */
  function MulOverflows(a: bv64, c: bv64): bool
    requires c != 0
  {
    a > INVALID_PACKED_POS / c
  }

  /** The same mixing with the products checked for overflow, as `*=` on u64
    * behaves when overflow checks are enabled: `None` is the panic. */
  function MixChecked(packed: bv64): Option<bv64>
  {
    var h1 := packed ^ (packed >> 31);
    if MulOverflows(h1, 0x7fb5d329728ea185) then None
    else
      var h2 := h1 * 0x7fb5d329728ea185;
      var h3 := h2 ^ (h2 >> 27);
      if MulOverflows(h3, 0x81dadef4bc2dd44d) then None
      else
        var h4 := h3 * 0x81dadef4bc2dd44d;
        Some(h4 ^ (h4 >> 33))
  }

  /** With checked products the voxel (0, 0, 1), key 1, already overflows
    * the second multiply. */
  lemma MixCheckedOverflows()
    ensures Pack(0, 0, 1) == 1
    ensures MixChecked(1) == None
  {
    var h2: bv64 := 0x7fb5d329728ea185;
    assert h2 ^ (h2 >> 27) == 0x7fb5d3268434c4ab;
  }

  // ---------------------------------------------------------------------------
  // Quadratic probing (lightdistrib.rs:182-251)
  // ---------------------------------------------------------------------------

  /** One probe step: add step², reduced modulo the size when it reaches it. */
  function NextProbe(h: nat, step: nat, size: nat): (r: nat)
    requires h < size
    ensures r < size
  {
    var x := h + step * step;
    if x >= size then x % size else x
  }

  /** The slot where the probe from `h` stops within `fuel` probes: the
    * first slot holding `key` or the invalid key. */
  function ProbeStop(t: seq<HashEntry>, key: bv64, h: nat, step: nat, fuel: nat): (r: Option<nat>)
    requires h < |t|
    ensures r.Some? ==>
              r.value < |t| && (t[r.value].packedPos == key || t[r.value].packedPos == INVALID_PACKED_POS)
    decreases fuel
  {
    if fuel == 0 then None
    else if t[h].packedPos == key || t[h].packedPos == INVALID_PACKED_POS then Some(h)
    else ProbeStop(t, key, NextProbe(h, step, |t|), step + 1, fuel - 1)
  }

  /** Filling the slot where a probe stopped with its key leaves that probe
    * stopping at the same slot: the slots before it are untouched and hold
    * other keys. */
  lemma {:induction false} ProbeAfterClaim(t: seq<HashEntry>, key: bv64, h: nat, step: nat, fuel: nat, e: HashEntry)
    requires h < |t| && e.packedPos == key
    requires ProbeStop(t, key, h, step, fuel).Some?
    ensures var k := ProbeStop(t, key, h, step, fuel).value;
            ProbeStop(t[k := e], key, h, step, fuel) == Some(k)
    decreases fuel
  {
    var k := ProbeStop(t, key, h, step, fuel).value;
    if !(t[h].packedPos == key || t[h].packedPos == INVALID_PACKED_POS) {
      assert h != k;
      ProbeAfterClaim(t, key, NextProbe(h, step, |t|), step + 1, fuel - 1, e);
    }
  }

  /** `compute_distribution`'s floor (lightdistrib.rs:127-136): no light is
    * left below 0.001 of the average contribution, or below 1 when the
    * average is not positive. An empty list stays empty. */
  function FloorContributions(c: seq<real>): (r: seq<real>)
    ensures |r| == |c|
    ensures forall i :: 0 <= i < |c| ==> r[i] >= c[i] && r[i] > 0.0
  {
    if |c| == 0 then []
    else
      var avg := Sum(c) / (128 * |c|) as real;
      var minContrib := if avg > 0.0 then 0.001 * avg else 1.0;
      seq(|c|, i requires 0 <= i < |c| => MaxR(c[i], minContrib))
  }

  function Sum(c: seq<real>): real
  {
    if |c| == 0 then 0.0 else Sum(c[..|c| - 1]) + c[|c| - 1]
  }

  /** The distribution a claimed voxel gets from its raw contributions. */
  function VoxelDistribution(contrib: seq<real>): (d: Distribution)
    ensures d.func == FloorContributions(contrib)
  {
    Make(FloorContributions(contrib))
  }

  /** Every light keeps a positive probability in a claimed voxel's
    * distribution. */
  lemma VoxelDistributionPositive(contrib: seq<real>, u: real)
    requires |contrib| >= 1 && 0.0 <= u < 1.0
    ensures var d := VoxelDistribution(contrib);
            d.funcInt > 0.0 && DiscretePdf(d, SampleDiscrete(d, u).0) > 0.0
  {
    var f := FloorContributions(contrib);
    assert NonNegative(f);
    assert Integral(f, |f|) > 0.0 by { IntegralPositive(f, |f|); }
    SampleDiscreteHitsWeight(f, u);
  }

  lemma {:induction false} IntegralPositive(f: seq<real>, i: nat)
    requires 1 <= i <= |f| && forall k :: 0 <= k < |f| ==> f[k] > 0.0
    ensures Integral(f, i) > 0.0
    decreases i
  {
    DivStrict(0.0, f[i - 1], |f| as real);
    if i > 1 {
      IntegralPositive(f, i - 1);
    } else {
      IntegralZero(f);
    }
  }

  lemma IntegralZero(f: seq<real>)
    ensures Integral(f, 0) == 0.0
  {
  }

  // ---------------------------------------------------------------------------
  // The table
  // ---------------------------------------------------------------------------

  class SpatialLightDistribution {
    const nVoxels: seq<nat>
    const hashTableSize: nat
    const hashTable: array<HashEntry>

    /** Counts of at least 1 that fit an i32, a table of at least four
      * slots, and a distribution exactly in the claimed slots. The size is
      * `4 · Π n` from construction on, as both are constants. */
    ghost predicate Valid()
      reads this, hashTable
    {
      |nVoxels| == 3 && (forall i :: 0 <= i < 3 ==> 1 <= nVoxels[i] <= I32_MAX) &&
      hashTableSize >= 4 && hashTable.Length == hashTableSize &&
      forall k :: 0 <= k < hashTable.Length ==>
        (hashTable[k].packedPos == INVALID_PACKED_POS <==> hashTable[k].distribution.None?)
    }

    /** `SpatialLightDistribution::new` (lightdistrib.rs:45-76) from the three
      * values `diag[i] / b_max · max_voxels`: the voxel counts and a table
      * of `4 · Π n` invalid slots. The size is computed in u32, so the source
      * demands that the product fits. */
    constructor (scaled: seq<real>)
      requires |scaled| == 3
      requires TableSize(VoxelCounts(scaled)) < U32_LIMIT
      ensures Valid()
      ensures nVoxels == VoxelCounts(scaled) && hashTableSize == TableSize(nVoxels)
      ensures hashTableSize >= 4
      ensures forall k :: 0 <= k < hashTable.Length ==> hashTable[k] == HashEntry(INVALID_PACKED_POS, None)
    {
      var nv := VoxelCounts(scaled);
      TableSizeAtLeastFour(nv);
      forall i | 0 <= i < 3
        ensures nv[i] <= I32_MAX
      {
        CountBelowTableSize(nv, i);
      }
      var size := TableSize(nv);
      nVoxels := nv;
      hashTableSize := size;
      hashTable := new HashEntry[size](_ => HashEntry(INVALID_PACKED_POS, None));
    }

    /** `lookup` (lightdistrib.rs:147-252): the voxel of `offset`, its key,
      * then quadratic probing from the key's hash, as `LookupOutcome`
      * describes, with `contrib(pi)` as the claimed voxel's raw
      * contributions. `None` is also the `assert_ne!` on the invalid key. */
    method Lookup(offset: seq<real>, contrib: seq<nat> -> seq<real>, fuel: nat)
      returns (r: Option<Distribution>)
      requires Valid() && |offset| == 3
      modifies hashTable
      ensures Valid()
      ensures var pi := VoxelOf(offset, nVoxels);
              var key := PackVoxel(pi);
              if key == INVALID_PACKED_POS then r == None && hashTable[..] == old(hashTable[..])
              else (r, hashTable[..]) ==
                   LookupOutcome(old(hashTable[..]), key, HashOf(key, hashTableSize), 1, fuel,
                                 VoxelDistribution(contrib(pi)))
    {
      var pi := VoxelOf(offset, nVoxels);
      var key := PackVoxel(pi);
      if key == INVALID_PACKED_POS {
        return None;
      }
      r := Probe(key, HashOf(key, hashTableSize), pi, contrib, fuel);
    }

    /** The probe loop of `lookup` (lightdistrib.rs:182-251) for the key of
      * voxel `pi`. */
    method Probe(key: bv64, h0: nat, pi: seq<nat>, contrib: seq<nat> -> seq<real>, fuel: nat)
      returns (r: Option<Distribution>)
      requires Valid() && key != INVALID_PACKED_POS && h0 < hashTableSize
      modifies hashTable
      ensures Valid()
      ensures (r, hashTable[..]) ==
              LookupOutcome(old(hashTable[..]), key, h0, 1, fuel, VoxelDistribution(contrib(pi)))
    {
      ghost var t := hashTable[..];
      ghost var d := VoxelDistribution(contrib(pi));
      var hash: nat := h0;
      var step: nat := 1;
      var nProbes: nat := 0;
      while nProbes < fuel
        invariant hashTable.Length == hashTableSize
        invariant hash < hashTableSize && nProbes <= fuel
        invariant hashTable[..] == t
        invariant LookupOutcome(t, key, hash, step, fuel - nProbes, d) ==
                  LookupOutcome(t, key, h0, 1, fuel, d)
      {
        nProbes := nProbes + 1;
        var entry := hashTable[hash];
        if entry.packedPos == key {
          return entry.distribution;
        } else if entry.packedPos != INVALID_PACKED_POS {
          hash := NextProbe(hash, step, hashTableSize);
          step := step + 1;
        } else {
          var dist := VoxelDistribution(contrib(pi));
          hashTable[hash] := HashEntry(key, Some(dist));
          LookupOutcomeConsistent(t, key, h0, 1, fuel, d);
          return Some(dist);
        }
      }
      return None;
    }
  }

  /** What a lookup of `key` does to the table `t` from slot `h` within
    * `fuel` probes: a slot holding the key yields its distribution, an
    * invalid slot is claimed and filled with `d`, any other slot sends the
    * probe on by step². */
  function LookupOutcome(t: seq<HashEntry>, key: bv64, h: nat, step: nat, fuel: nat, d: Distribution)
    : (Option<Distribution>, seq<HashEntry>)
    requires h < |t|
    decreases fuel
  {
    if fuel == 0 then (None, t)
    else if t[h].packedPos == key then (t[h].distribution, t)
    else if t[h].packedPos == INVALID_PACKED_POS then (Some(d), t[h := HashEntry(key, Some(d))])
    else LookupOutcome(t, key, NextProbe(h, step, |t|), step + 1, fuel - 1, d)
  }

  /** The outcome in terms of where the probe stops: nothing when it does
    * not stop, the stored distribution when it stops at the key, and
    * otherwise the claim of the invalid slot it stopped at, with every other
    * slot unchanged. */
  lemma {:induction false} LookupOutcomeAtStop(t: seq<HashEntry>, key: bv64, h: nat, step: nat, fuel: nat, d: Distribution)
    requires h < |t| && key != INVALID_PACKED_POS
    ensures var (r, t') := LookupOutcome(t, key, h, step, fuel, d);
            match ProbeStop(t, key, h, step, fuel)
            case None => r == None && t' == t
            case Some(k) =>
              if t[k].packedPos == key then r == t[k].distribution && t' == t
              else t[k].packedPos == INVALID_PACKED_POS && r == Some(d) && t' == t[k := HashEntry(key, Some(d))]
    decreases fuel
  {
    if fuel > 0 && t[h].packedPos != key && t[h].packedPos != INVALID_PACKED_POS {
      LookupOutcomeAtStop(t, key, NextProbe(h, step, |t|), step + 1, fuel - 1, d);
    }
  }

  /** A lookup keeps "a distribution exactly in the claimed slots", and
    * leaves the table's length alone. */
  lemma LookupOutcomeConsistent(t: seq<HashEntry>, key: bv64, h: nat, step: nat, fuel: nat, d: Distribution)
    requires h < |t| && key != INVALID_PACKED_POS
    requires forall k :: 0 <= k < |t| ==> (t[k].packedPos == INVALID_PACKED_POS <==> t[k].distribution.None?)
    ensures var (r, t') := LookupOutcome(t, key, h, step, fuel, d);
            |t'| == |t| &&
            (forall k :: 0 <= k < |t'| ==> (t'[k].packedPos == INVALID_PACKED_POS <==> t'[k].distribution.None?)) &&
            (ProbeStop(t, key, h, step, fuel).Some? ==> r.Some?)
  {
    LookupOutcomeAtStop(t, key, h, step, fuel, d);
  }

  /** Each count is at most the product of all three, so below the size. */
  lemma CountBelowTableSize(nv: seq<nat>, i: nat)
    requires |nv| == 3 && i < 3 && forall j :: 0 <= j < 3 ==> nv[j] >= 1
    requires TableSize(nv) < U32_LIMIT
    ensures nv[i] <= I32_MAX
  {
    var a, b, c := nv[0], nv[1], nv[2];
    var ab := a * b;
    MulAtLeastOne(a, b);
    MulAtLeastOne(b, a);
    MulAtLeastOne(ab, c);
    MulAtLeastOne(c, ab);
    assert b * a == ab && c * ab == ab * c;
    assert TableSize(nv) == 4 * (ab * c);
  }

  /** A second lookup of the same voxel finds the slot the first one
    * claimed. */
  lemma LookupAgainFinds(t: seq<HashEntry>, key: bv64, size: nat, fuel: nat, d: Distribution)
    requires |t| == size > 0
    requires ProbeStop(t, key, HashOf(key, size), 1, fuel).Some?
    ensures var k := ProbeStop(t, key, HashOf(key, size), 1, fuel).value;
            var t' := if t[k].packedPos == key then t else t[k := HashEntry(key, Some(d))];
            ProbeStop(t', key, HashOf(key, size), 1, fuel) == Some(k) && t'[k].packedPos == key
  {
    var k := ProbeStop(t, key, HashOf(key, size), 1, fuel).value;
    if t[k].packedPos != key {
      ProbeAfterClaim(t, key, HashOf(key, size), 1, fuel, HashEntry(key, Some(d)));
    }
  }
}
