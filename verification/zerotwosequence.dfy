/** The (0,2)-sequence sampler (src/sampler/zerotwosequence.rs) as a state
  * machine: per-pixel buffers of 1D and 2D samples, one per sampled
  * dimension, and requested arrays of samples, read through dimension
  * cursors and array offsets that each new sample resets. The values
  * `start_pixel` writes into the buffers are parameters here (their
  * generation is modelled in `LowDiscrepancy`); draws from the random
  * generator past the last dimension are a parameter too, counted in
  * `rngDraws`. */
module ZeroTwo {
  import opened Wrappers
  import opened GrayCode
  import opened ParamSets
  import MipMap

  /** `usize::next_power_of_two`: 1 for 0 and 1, else the least power of
    * two at least x. */
  function NextPowerOfTwo(x: nat): (r: nat)
    ensures r >= 1 && r >= x && MipMap.IsPowerOfTwo(r)
    ensures MipMap.IsPowerOfTwo(x) ==> r == x
    ensures x >= 1 ==> r < 2 * x
  {
    if x <= 1 then 1
    else
      MipMap.RoundUpBounds(x);
      MipMap.RoundUpPowerOfTwo(x)
  }

  /** A buffer of `count` entries per pixel sample for `spp` samples. */
  predicate Shaped<T>(bufs: seq<seq<T>>, sizes: seq<nat>, spp: nat)
  {
    |bufs| == |sizes| && forall i :: 0 <= i < |bufs| ==> |bufs[i]| == sizes[i] * spp
  }

  /** n buffers of spp entries each. */
  predicate Uniform<T>(bufs: seq<seq<T>>, n: nat, spp: nat)
  {
    |bufs| == n && forall i :: 0 <= i < n ==> |bufs[i]| == spp
  }

  /** The sample-array slice for pixel sample `index` of an array of
    * `n` entries per sample holds at least those n entries. */
  lemma SliceHoldsSample(index: nat, n: nat, spp: nat)
    requires index < spp
    ensures index * n + n <= n * spp
  {
    assert index * n + n == (index + 1) * n;
    assert (index + 1) * n <= spp * n by {
      MulMono(index + 1, spp, n);
    }
  }

  lemma MulMono(a: nat, b: nat, n: nat)
    requires a <= b
    ensures a * n <= b * n
  {
  }

  /** The buffer shapes of a sampler with spp samples per pixel: as many 2D
    * as 1D dimension buffers, spp entries in each, and each requested array
    * its size times spp. */
  predicate BuffersShaped(spp: nat, s1: seq<seq<real>>, s2: seq<seq<Point2f>>,
                          a1: seq<seq<real>>, z1: seq<nat>, a2: seq<seq<Point2f>>, z2: seq<nat>)
  {
    |s2| == |s1| && Uniform(s1, |s1|, spp) && Uniform(s2, |s2|, spp) && Shaped(a1, z1, spp) && Shaped(a2, z2, spp)
  }

  class ZeroTwoSequence {
    var spp: nat
    var currentPixel: (int, int)
    var currentPixelSampleIndex: nat
    var sample1DArraySizes: seq<nat>
    var sample2DArraySizes: seq<nat>
    var sampleArray1D: seq<seq<real>>
    var sampleArray2D: seq<seq<Point2f>>
    var array1DOffset: nat
    var array2DOffset: nat
    var samples1D: seq<seq<real>>
    var samples2D: seq<seq<Point2f>>
    var current1DDimension: nat
    var current2DDimension: nat
    var rngDraws: nat

    /** The shapes every call keeps: spp is a power of two, each dimension
      * buffer has spp entries, each requested array its size times spp,
      * and the cursors never pass the number of buffers. */
    predicate Valid()
      reads this
    {
      MipMap.IsPowerOfTwo(spp) &&
      BuffersShaped(spp, samples1D, samples2D, sampleArray1D, sample1DArraySizes, sampleArray2D, sample2DArraySizes) &&
      current1DDimension <= |samples1D| && current2DDimension <= |samples2D| &&
      array1DOffset <= |sampleArray1D| && array2DOffset <= |sampleArray2D|
    }

    /** `new`: spp rounded up to a power of two and one zeroed buffer of
      * spp entries per sampled dimension. */
    constructor (requestedSpp: nat, nSampledDimensions: nat)
      ensures Valid()
      ensures spp == NextPowerOfTwo(requestedSpp)
      ensures Uniform(samples1D, nSampledDimensions, spp) && Uniform(samples2D, nSampledDimensions, spp)
      ensures forall i, j :: 0 <= i < nSampledDimensions && 0 <= j < spp ==>
        samples1D[i][j] == 0.0 && samples2D[i][j] == Point2f(0.0, 0.0)
      ensures currentPixel == (0, 0) && currentPixelSampleIndex == 0 && rngDraws == 0
      ensures sample1DArraySizes == [] && sample2DArraySizes == [] && sampleArray1D == [] && sampleArray2D == []
      ensures array1DOffset == 0 && array2DOffset == 0 && current1DDimension == 0 && current2DDimension == 0
    {
      var n := NextPowerOfTwo(requestedSpp);
      var s1: seq<seq<real>> := [];
      var s2: seq<seq<Point2f>> := [];
      for i := 0 to nSampledDimensions
        invariant s1 == seq(i, _ => seq(n, _ => 0.0))
        invariant s2 == seq(i, _ => seq(n, _ => Point2f(0.0, 0.0)))
      {
        s1 := s1 + [seq(n, _ => 0.0)];
        s2 := s2 + [seq(n, _ => Point2f(0.0, 0.0))];
      }
      spp := n;
      currentPixel := (0, 0);
      currentPixelSampleIndex := 0;
      sample1DArraySizes, sample2DArraySizes := [], [];
      sampleArray1D, sampleArray2D := [], [];
      array1DOffset, array2DOffset := 0, 0;
      samples1D, samples2D := s1, s2;
      current1DDimension, current2DDimension := 0, 0;
      rngDraws := 0;
    }

    /** `start_pixel`: the buffers receive the new pixel's samples (of the
      * same shapes), the pixel is recorded and the sample index and array
      * offsets go back to 0. The dimension cursors are left as they are. */
    method StartPixel(p: (int, int), new1D: seq<seq<real>>, new2D: seq<seq<Point2f>>,
                      newArray1D: seq<seq<real>>, newArray2D: seq<seq<Point2f>>)
      requires Valid()
      requires Uniform(new1D, |samples1D|, spp) && Uniform(new2D, |samples2D|, spp)
      requires Shaped(newArray1D, sample1DArraySizes, spp) && Shaped(newArray2D, sample2DArraySizes, spp)
      modifies this
      ensures Valid()
      ensures samples1D == new1D && samples2D == new2D && sampleArray1D == newArray1D && sampleArray2D == newArray2D
      ensures currentPixel == p && currentPixelSampleIndex == 0 && array1DOffset == 0 && array2DOffset == 0
      ensures current1DDimension == old(current1DDimension) && current2DDimension == old(current2DDimension)
      ensures spp == old(spp) && rngDraws == old(rngDraws)
      ensures sample1DArraySizes == old(sample1DArraySizes) && sample2DArraySizes == old(sample2DArraySizes)
    {
      assert BuffersShaped(spp, new1D, new2D, newArray1D, sample1DArraySizes, newArray2D, sample2DArraySizes);
      samples1D, samples2D, sampleArray1D, sampleArray2D := new1D, new2D, newArray1D, newArray2D;
      currentPixel, currentPixelSampleIndex, array1DOffset, array2DOffset := p, 0, 0, 0;
    }

    /** `start_next_sample`: reset the cursors and offsets and move to the
      * next sample; true while that sample exists. */
    method StartNextSample() returns (more: bool)
      requires Valid()
      modifies this
      ensures Valid()
      ensures currentPixelSampleIndex == old(currentPixelSampleIndex) + 1
      ensures more <==> currentPixelSampleIndex < spp
      ensures array1DOffset == 0 && array2DOffset == 0 && current1DDimension == 0 && current2DDimension == 0
      ensures spp == old(spp) && currentPixel == old(currentPixel) && rngDraws == old(rngDraws)
      ensures samples1D == old(samples1D) && samples2D == old(samples2D)
      ensures sampleArray1D == old(sampleArray1D) && sampleArray2D == old(sampleArray2D)
      ensures sample1DArraySizes == old(sample1DArraySizes) && sample2DArraySizes == old(sample2DArraySizes)
    {
      array1DOffset, array2DOffset := 0, 0;
      current1DDimension, current2DDimension := 0, 0;
      currentPixelSampleIndex := currentPixelSampleIndex + 1;
      more := currentPixelSampleIndex < spp;
    }

    /** `request_1d_array`: a new array of n entries per pixel sample. */
    method Request1DArray(n: nat)
      requires Valid()
      modifies this
      ensures Valid()
      ensures sample1DArraySizes == old(sample1DArraySizes) + [n]
      ensures sampleArray1D == old(sampleArray1D) + [seq(n * spp, _ => 0.0)]
      ensures spp == old(spp) && array1DOffset == old(array1DOffset) && samples1D == old(samples1D)
      ensures samples2D == old(samples2D) && sampleArray2D == old(sampleArray2D)
      ensures sample2DArraySizes == old(sample2DArraySizes) && array2DOffset == old(array2DOffset)
      ensures currentPixel == old(currentPixel) && currentPixelSampleIndex == old(currentPixelSampleIndex)
      ensures current1DDimension == old(current1DDimension) && current2DDimension == old(current2DDimension)
      ensures rngDraws == old(rngDraws)
    {
      sample1DArraySizes := sample1DArraySizes + [n];
      sampleArray1D := sampleArray1D + [seq(n * spp, _ => 0.0)];
    }

    /** `request_2d_array`. */
    method Request2DArray(n: nat)
      requires Valid()
      modifies this
      ensures Valid()
      ensures sample2DArraySizes == old(sample2DArraySizes) + [n]
      ensures sampleArray2D == old(sampleArray2D) + [seq(n * spp, _ => Point2f(0.0, 0.0))]
      ensures spp == old(spp) && array2DOffset == old(array2DOffset) && samples2D == old(samples2D)
      ensures samples1D == old(samples1D) && sampleArray1D == old(sampleArray1D)
      ensures sample1DArraySizes == old(sample1DArraySizes) && array1DOffset == old(array1DOffset)
      ensures currentPixel == old(currentPixel) && currentPixelSampleIndex == old(currentPixelSampleIndex)
      ensures current1DDimension == old(current1DDimension) && current2DDimension == old(current2DDimension)
      ensures rngDraws == old(rngDraws)
    {
      sample2DArraySizes := sample2DArraySizes + [n];
      sampleArray2D := sampleArray2D + [seq(n * spp, _ => Point2f(0.0, 0.0))];
    }

    /** `get_1d_array`: None once every requested array has been handed out;
      * otherwise the size must match the request and the sample index be in
      * range (both are assertions in the source), and the result is the
      * current array from this sample's first entry on, which holds at
      * least its n entries. */
    method Get1DArray(n: nat) returns (r: Option<seq<real>>)
      requires Valid()
      requires array1DOffset < |sampleArray1D| ==>
        sample1DArraySizes[array1DOffset] == n && currentPixelSampleIndex < spp
      modifies this
      ensures Valid()
      ensures spp == old(spp) && samples1D == old(samples1D) && sampleArray1D == old(sampleArray1D)
      ensures samples2D == old(samples2D) && sampleArray2D == old(sampleArray2D)
      ensures sample1DArraySizes == old(sample1DArraySizes) && sample2DArraySizes == old(sample2DArraySizes)
      ensures array2DOffset == old(array2DOffset) && currentPixel == old(currentPixel)
      ensures currentPixelSampleIndex == old(currentPixelSampleIndex) && rngDraws == old(rngDraws)
      ensures current1DDimension == old(current1DDimension) && current2DDimension == old(current2DDimension)
      ensures r.None? <==> old(array1DOffset) == |sampleArray1D|
      ensures r.None? ==> array1DOffset == old(array1DOffset)
      ensures r.Some? ==>
        array1DOffset == old(array1DOffset) + 1 &&
        currentPixelSampleIndex * n + n <= |sampleArray1D[old(array1DOffset)]| &&
        r.value == sampleArray1D[old(array1DOffset)][currentPixelSampleIndex * n..]
    {
      if array1DOffset == |sampleArray1D| {
        return None;
      }
      SliceHoldsSample(currentPixelSampleIndex, n, spp);
      r := Some(sampleArray1D[array1DOffset][currentPixelSampleIndex * n..]);
      array1DOffset := array1DOffset + 1;
    }

    /** `get_2d_array`, the same over the 2D arrays. */
    method Get2DArray(n: nat) returns (r: Option<seq<Point2f>>)
      requires Valid()
      requires array2DOffset < |sampleArray2D| ==>
        sample2DArraySizes[array2DOffset] == n && currentPixelSampleIndex < spp
      modifies this
      ensures Valid()
      ensures spp == old(spp) && samples1D == old(samples1D) && sampleArray1D == old(sampleArray1D)
      ensures samples2D == old(samples2D) && sampleArray2D == old(sampleArray2D)
      ensures sample1DArraySizes == old(sample1DArraySizes) && sample2DArraySizes == old(sample2DArraySizes)
      ensures array1DOffset == old(array1DOffset) && currentPixel == old(currentPixel)
      ensures currentPixelSampleIndex == old(currentPixelSampleIndex) && rngDraws == old(rngDraws)
      ensures current1DDimension == old(current1DDimension) && current2DDimension == old(current2DDimension)
      ensures r.None? <==> old(array2DOffset) == |sampleArray2D|
      ensures r.None? ==> array2DOffset == old(array2DOffset)
      ensures r.Some? ==>
        array2DOffset == old(array2DOffset) + 1 &&
        currentPixelSampleIndex * n + n <= |sampleArray2D[old(array2DOffset)]| &&
        r.value == sampleArray2D[old(array2DOffset)][currentPixelSampleIndex * n..]
    {
      if array2DOffset == |sampleArray2D| {
        return None;
      }
      SliceHoldsSample(currentPixelSampleIndex, n, spp);
      r := Some(sampleArray2D[array2DOffset][currentPixelSampleIndex * n..]);
      array2DOffset := array2DOffset + 1;
    }

    /** `get_1d`: the current dimension's sample for this pixel sample,
      * moving to the next dimension; past the last dimension a draw from
      * the random generator (`fromRng`), without moving. */
    method Get1D(fromRng: real) returns (r: real)
      requires Valid()
      requires current1DDimension < |samples1D| ==> currentPixelSampleIndex < spp
      modifies this
      ensures Valid()
      ensures spp == old(spp) && samples1D == old(samples1D) && sampleArray1D == old(sampleArray1D)
      ensures samples2D == old(samples2D) && sampleArray2D == old(sampleArray2D)
      ensures sample1DArraySizes == old(sample1DArraySizes) && sample2DArraySizes == old(sample2DArraySizes)
      ensures array1DOffset == old(array1DOffset) && array2DOffset == old(array2DOffset)
      ensures currentPixel == old(currentPixel) && currentPixelSampleIndex == old(currentPixelSampleIndex)
      ensures current2DDimension == old(current2DDimension)
      ensures old(current1DDimension) < |samples1D| ==>
        r == samples1D[old(current1DDimension)][currentPixelSampleIndex] &&
        current1DDimension == old(current1DDimension) + 1 && rngDraws == old(rngDraws)
      ensures old(current1DDimension) == |samples1D| ==>
        r == fromRng && current1DDimension == old(current1DDimension) && rngDraws == old(rngDraws) + 1
    {
      if current1DDimension < |samples1D| {
        r := samples1D[current1DDimension][currentPixelSampleIndex];
        current1DDimension := current1DDimension + 1;
      } else {
        r := fromRng;
        rngDraws := rngDraws + 1;
      }
    }

    /** `get_2d`: the same over the 2D buffers; past the last dimension two
      * draws from the random generator. */
    method Get2D(fromRng: Point2f) returns (r: Point2f)
      requires Valid()
      requires current2DDimension < |samples2D| ==> currentPixelSampleIndex < spp
      modifies this
      ensures Valid()
      ensures spp == old(spp) && samples1D == old(samples1D) && sampleArray1D == old(sampleArray1D)
      ensures samples2D == old(samples2D) && sampleArray2D == old(sampleArray2D)
      ensures sample1DArraySizes == old(sample1DArraySizes) && sample2DArraySizes == old(sample2DArraySizes)
      ensures array1DOffset == old(array1DOffset) && array2DOffset == old(array2DOffset)
      ensures currentPixel == old(currentPixel) && currentPixelSampleIndex == old(currentPixelSampleIndex)
      ensures current1DDimension == old(current1DDimension)
      ensures old(current2DDimension) < |samples2D| ==>
        r == samples2D[old(current2DDimension)][currentPixelSampleIndex] &&
        current2DDimension == old(current2DDimension) + 1 && rngDraws == old(rngDraws)
      ensures old(current2DDimension) == |samples2D| ==>
        r == fromRng && current2DDimension == old(current2DDimension) && rngDraws == old(rngDraws) + 2
    {
      if current2DDimension < |samples2D| {
        r := samples2D[current2DDimension][currentPixelSampleIndex];
        current2DDimension := current2DDimension + 1;
      } else {
        r := fromRng;
        rngDraws := rngDraws + 2;
      }
    }

    /** `round_count`. */
    function RoundCount(count: nat): (r: nat)
      ensures r >= count && MipMap.IsPowerOfTwo(r)
      ensures MipMap.IsPowerOfTwo(count) ==> r == count
    {
      NextPowerOfTwo(count)
    }
  }

  /** `create`: "pixelsamples" (16 by default) samples over "dimensions" (4
    * by default) sampled dimensions. The `as usize` casts of negative
    * values would ask for impossibly large buffers, which the
    * precondition excludes. */
  method Create(ps: ParamSet) returns (s: ZeroTwoSequence)
    requires FindOneDefined(ps.lists.ints, "pixelsamples") && FindOneDefined(ps.lists.ints, "dimensions")
    requires FindOneValue(ps.lists.ints, "pixelsamples", 16) >= 0 && FindOneValue(ps.lists.ints, "dimensions", 4) >= 0
    modifies ps
    ensures fresh(s) && s.Valid()
    ensures s.spp == NextPowerOfTwo(FindOneValue(old(ps.lists).ints, "pixelsamples", 16))
    ensures |s.samples1D| == FindOneValue(old(ps.lists).ints, "dimensions", 4)
  {
    var nsamples := ps.FindOneInt("pixelsamples", 16);
    MarkPreservesFirstMatch(old(ps.lists).ints, "pixelsamples", "dimensions");
    var sd := ps.FindOneInt("dimensions", 4);
    s := new ZeroTwoSequence(nsamples, sd);
  }
}
