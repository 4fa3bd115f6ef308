# rustracer core bookkeeping, modelled in Dafny

rustracer is a Rust port of the pbrt-v3 physically based renderer. Most of
its code is `f32` shading and intersection maths. Around that maths sits a
large amount of exact, discrete bookkeeping. This project models that
bookkeeping and proves what the renderer relies on:

- **BVH** (`bvh_tree`, `bvh_split`, `bvh_build`, `bvh_traversal`,
  `legacy_bvh`). The recursive build with its Middle and SAH splits, the
  depth-first flattening into a node array, and the stack-based `intersect`
  and `intersect_p`. The proofs cover:
  - the ordered primitive list is a permutation of the input;
  - leaves tile that list with disjoint slices;
  - every split lies strictly inside its range;
  - node bounds contain their children;
  - the traversal finds the closest hit and pushes only valid node indices.
- **Integer geometry and tiling** (`bounds`, `renderer`, `film`,
  `block_queue`, `blockedarray`). Boxes, the row-major `Bounds2i` iterator,
  the render tile grid and tile seeds, film and tile pixel indexing, tile
  merging and the sample footprint, the legacy block queue, and the legacy
  blocked array.
- **Sample generation** (`rng`, `bit_reverse`, `radical_inverse`,
  `gray_code`, `lowdiscrepancy`, `legacy_sampling`, `zerotwosequence`).
  PCG32 over wrapping 64-bit state, bit reversal, radical inverse, Gray-code
  (0,2)-sequences, the in-place sample shuffles, the legacy bit-level van der
  Corput and Sobol generators, and the (0,2)-sequence sampler's cursors and
  array offsets.
- **Tables and lookups** (`util`, `distribution1d`, `lightdistrib`,
  `mipmap`, `imagemap`, `noise`). The `find_interval` bisection, the
  piecewise-constant CDF, the voxel-keyed open-addressing light-distribution
  cache, MIP pyramid sizing and wrap-mode texel addressing, the in-place
  image flip, and Perlin table indexing.
- **Scene description** (`api`, `paramset`, `mesh`, `plymesh`, `bsdf`,
  `light`, `stats`):
  - the API's Uninitialized/Options/World state machine, with its graphics
    and transform stacks and object instances;
  - parameter lookup precedence;
  - triangle-mesh index handling and PLY quad splitting;
  - BxDF flag tests and the eight-slot lobe holder;
  - light flags and ids;
  - the statistics accumulator.

Code that updates state in place is modelled as classes and methods, and the
methods are proved against specification functions. Code that only computes
is modelled as functions and lemmas. `f32` values that act only as keys,
weights or coordinates are `real`s. `f32` values whose NaN and infinity
behaviour matters (sample sanitising, the film's NaN guard) use an explicit
`F32` datatype with NaN and signed infinities (`f32colour`). Integer widths
are explicit: `bv32`/`bv64` for the bit-level code, and `% 2^64` or a
saturating cast where the source casts. Where this description and the
intended design differ from the code, the model follows the code:

- `ScaledBxDF` (rustracer-core/src/bsdf/bxdf.rs:62-74) does not override
  `pdf`, so its pdf is the default hemisphere pdf and not the wrapped
  lobe's.
- The defects listed under "## Findings" are modelled as written, beside the
  corrected definitions the rest of the model uses.

## Model

| member | source | states |
|---|---|---|
| Util.MinI | rustracer-core/src/lib.rs:192-198 | `min` returns one of its arguments and is below both |
| Util.MaxI | rustracer-core/src/lib.rs:201-207 | `max` returns one of its arguments and is above both |
| Util.Clamp | rustracer-core/src/lib.rs:264-275 | `clamp` lands in [low, high] when low <= high, keeps an in-range value, and sends values below low to low |
| Util.ClampR | rustracer-core/src/lib.rs:282-284 | the `f32` clamp has the same three properties over reals |
| Util.Lerp | rustracer-core/src/lib.rs:107-117 | `lerp` is a at t = 0, b at t = 1, and lies between a and b for t in [0, 1] |
| Util.MaxDimension | rustracer-core/src/lib.rs:120-135 | `max_dimension` names an axis whose component is the largest |
| Util.PermuteIdentity | rustracer-core/src/lib.rs:142-147 | permuting by (0, 1, 2) changes nothing |
| Util.PermuteCompose | rustracer-core/src/lib.rs:142-155 | two permutations compose into the permutation by the composed indices |
| Util.FindIntervalLoop | rustracer-core/src/lib.rs:171-189 | the bisection loop returns what the recursive definition of `find_interval` returns, which is at most size - 2 |
| Util.BisectSplits | rustracer-core/src/lib.rs:177-187 | on a predicate that is true on a prefix, the bisection stops exactly at the first index where the predicate fails |
| Util.FindIntervalLastTrue | rustracer-core/src/lib.rs:171-189 | `find_interval` is the last index where the predicate holds, clamped into [0, size - 2] |
| Util.FindIntervalExtremes | rustracer-core/src/lib.rs:171-189 | an all-false predicate gives 0 and an all-true one gives size - 2 |
| Util.IsPowerOf2 | rustracer-core/src/lib.rs:210-212 | `is_power_of_2` holds exactly for the 32-bit patterns with a single bit set |
| Util.RoundUpPow2 | rustracer-core/src/lib.rs:215-224 | for 1 <= v <= 2^30 the bit smearing yields the least power of two that is >= v; 0 gives 0 |
| Util.PermutationOfRange | rustracer-core/src/sampler/lowdiscrepancy.rs:112-120 | a sequence with the same multiset as 0..n-1 holds each of those numbers exactly once |
| F32Colour.AddColour | rustracer-core/src/spectrum.rs:238-244 | `+=` on spectra keeps a colour finite exactly when both operands are finite, and a NaN in either operand survives |
| F32Colour.ScaleColour | rustracer-core/src/spectrum.rs:286-292 | scaling by a finite weight keeps finiteness, and yields a NaN exactly when the colour has one or an infinity meets a zero weight |
| F32Colour.Luminance | rustracer-core/src/spectrum.rs:149-152 | `y()` is finite exactly when every component is finite |
| F32Colour.ToXyz | rustracer-core/src/spectrum.rs:98-106 | the middle row of `to_xyz()` is the luminance, and the result is finite exactly when the colour is |
| F32Colour.MixedInfinityLuminance | rustracer-core/src/spectrum.rs:134-136 | a colour with +inf and -inf components has no NaN component, yet its luminance is NaN |
| BitReverse.ReverseBits32Reverses | rustracer-core/src/sampler/lowdiscrepancy.rs:62-70 | bit i of `reverse_bits_32(n)` is bit 31 - i of n |
| BitReverse.ReverseBits32Involution | rustracer-core/src/sampler/lowdiscrepancy.rs:62-70 | reversing 32 bits twice gives the word back |
| BitReverse.ReverseBits64 | rustracer-core/src/sampler/lowdiscrepancy.rs:72-76 | the high half of `reverse_bits_64(n)` is the reversed low half of n and the low half the reversed high half |
| BitReverse.ReverseBits64Involution | rustracer-core/src/sampler/lowdiscrepancy.rs:72-76 | reversing 64 bits twice gives the word back |
| GrayCode.TrailingZerosU32 | rustracer-core/src/sampler/lowdiscrepancy.rs:98 | `trailing_zeros(i + 1)` of a nonzero `u32` is below 32, so it indexes the 32-column matrix |
| GrayCode.GrayValueScramble | rustracer-core/src/sampler/lowdiscrepancy.rs:94-99 | the scramble is XORed into every point of the sequence |
| GrayCode.SampleOf | rustracer-core/src/sampler/lowdiscrepancy.rs:97 | a word scaled by 2^-32 and capped at ONE_MINUS_EPSILON lies in [0, 1) |
| GrayCode.GrayStep | rustracer-core/src/sampler/lowdiscrepancy.rs:98 | XORing column `trailing_zeros(i + 1)` into the running word gives the next Gray-code point |
| GrayCode.GrayCodeSample | rustracer-core/src/sampler/lowdiscrepancy.rs:94-100 | `gray_code_sample` writes the first n points of the sequence into p and leaves the rest of p alone |
| GrayCode.GrayPointsAxes | rustracer-core/src/sampler/lowdiscrepancy.rs:102-110 | each axis of the 2D points is the 1D sequence of its own matrix and scramble |
| GrayCode.GrayCodeSample2D | rustracer-core/src/sampler/lowdiscrepancy.rs:102-110 | `gray_code_sample_2d` writes the first n 2D points into p and leaves the rest alone |
| RadicalInverse.DigitsRoundTrip | rustracer-core/src/sampler/lowdiscrepancy.rs:83-89 | the base-b digits the loop peels off represent a |
| RadicalInverse.DigitStep | rustracer-core/src/sampler/lowdiscrepancy.rs:84-88 | one round of the digit loop: the quotient is smaller, `a - next*base` is the lowest digit, and the remaining digits are those of the quotient |
| RadicalInverse.AppendDigitValue | rustracer-core/src/sampler/lowdiscrepancy.rs:86 | appending a digit multiplies the reversed value by the base and adds the digit |
| RadicalInverse.RadicalInverseInUnit | rustracer-core/src/sampler/lowdiscrepancy.rs:90-91 | the mirrored value lies in [0, 1) before the cap, so the `assert!` holds, and the result lies in [0, ONE_MINUS_EPSILON] |
| RadicalInverse.RadicalInverseSpecialized | rustracer-core/src/sampler/lowdiscrepancy.rs:78-92 | the loop's reversed digits are the digits of a read most-significant-first, and the result is the capped radical inverse |
| RadicalInverse.RadicalInverse | rustracer-core/src/sampler/lowdiscrepancy.rs:50-60 | dimension 0 is the 64-bit reversal scaled by 2^-64, dimensions 1 to 5 the prime bases 3 to 13, any other dimension fails; every result lies in [0, 1) |
| LowDiscrepancy.Exchange | rustracer-core/src/sampler/lowdiscrepancy.rs:116-117 | `samp.swap` exchanges two entries and changes nothing else |
| LowDiscrepancy.SwapBlocks | rustracer-core/src/sampler/lowdiscrepancy.rs:115-118 | the inner loop leaves the array as n position-by-position exchanges of the blocks at p and q |
| LowDiscrepancy.SwapPrefixSwaps | rustracer-core/src/sampler/lowdiscrepancy.rs:115-118 | for disjoint or equal blocks, after j passes the first j positions of the two blocks are exchanged and nothing else moves |
| LowDiscrepancy.SwapPrefixKeeps | rustracer-core/src/sampler/lowdiscrepancy.rs:115-118 | the inner loop only exchanges entries inside the range, so the range keeps its multiset of entries |
| LowDiscrepancy.SwapPrefixDone | rustracer-core/src/sampler/lowdiscrepancy.rs:115-118 | after all n passes the blocks are exchanged and the range keeps its entries |
| LowDiscrepancy.BlockMoved | rustracer-core/src/sampler/lowdiscrepancy.rs:115-118 | after the exchange block p holds what block q held, block q what p held, and every block clear of both is unchanged |
| LowDiscrepancy.GroupsOrdered | rustracer-core/src/sampler/lowdiscrepancy.rs:116-117 | group g of `n_dimensions` entries ends before group h starts when g < h, so the groups do not overlap |
| LowDiscrepancy.SwapGroupFirst | rustracer-core/src/sampler/lowdiscrepancy.rs:113-119 | exchanging the blocks of groups i and o moves group o to position i |
| LowDiscrepancy.SwapGroupSecond | rustracer-core/src/sampler/lowdiscrepancy.rs:113-119 | the same exchange moves group i to position o |
| LowDiscrepancy.SwapGroupOther | rustracer-core/src/sampler/lowdiscrepancy.rs:113-119 | the same exchange leaves every other group in place |
| LowDiscrepancy.PermStep | rustracer-core/src/sampler/lowdiscrepancy.rs:113-119 | after exchanging groups i and o, each group g holds original group perm'[g], where perm' is perm with i and o exchanged |
| LowDiscrepancy.ExchangeGroups | rustracer-core/src/sampler/lowdiscrepancy.rs:114-118 | one pass of the outer loop keeps the array outside the range, the range's entries, and the group permutation |
| LowDiscrepancy.GroupsExchanged | rustracer-core/src/sampler/lowdiscrepancy.rs:114-118 | the effect of one outer pass on the array's contents keeps the frame, the entries and the permutation of groups |
| LowDiscrepancy.Shuffle | rustracer-core/src/sampler/lowdiscrepancy.rs:112-120 | `shuffle` permutes whole groups: each group at the end is the group perm[g] held at the start, perm is a permutation of 0..count-1, and nothing outside the groups changes |
| LowDiscrepancy.PrefixKept | rustracer-core/src/sampler/lowdiscrepancy.rs:13-18 | a change confined to one pixel sample keeps the entries of every prefix covering it and everything beyond |
| LowDiscrepancy.InnerStep | rustracer-core/src/sampler/lowdiscrepancy.rs:13-18 | shuffling the entries of pixel sample i keeps every pixel sample's multiset of entries |
| LowDiscrepancy.OuterStep | rustracer-core/src/sampler/lowdiscrepancy.rs:19-22 | the shuffle of pixel samples composes with the shuffles inside them: group j at the end has the entries of group perm[j] at the start |
| LowDiscrepancy.ShufflePixelSample | rustracer-core/src/sampler/lowdiscrepancy.rs:14-17 | one pass of the first shuffle loop keeps every pixel sample's entries and the tail of the array |
| LowDiscrepancy.ShuffleWithin | rustracer-core/src/sampler/lowdiscrepancy.rs:13-18 | the first shuffle loop keeps every pixel sample's entries and the tail of the array |
| LowDiscrepancy.ShuffleBlocks | rustracer-core/src/sampler/lowdiscrepancy.rs:12-22 | both shuffles together: pixel sample j at the end holds the entries of pixel sample perm[j] at the start, for a permutation perm |
| LowDiscrepancy.VanDerCorput | rustracer-core/src/sampler/lowdiscrepancy.rs:5-23 | the samples are the scrambled Gray-code van der Corput points, with pixel sample j holding the points of pixel sample perm[j] in some order; the scramble is the generator's next output |
| LowDiscrepancy.Sobol2D | rustracer-core/src/sampler/lowdiscrepancy.rs:25-48 | the same for the two-dimensional Sobol' points, with the x scramble drawn before the y scramble |
| Rng.RNG.constructor | rustracer-core/src/rng.rs:16-21 | `RNG::new` starts from the default state and stream |
| Rng.RNG.UniformU32 | rustracer-core/src/rng.rs:23-30 | the state advances by one wrapping LCG step, the stream is unchanged, and the result is the permuted output word of the old state |
| Rng.Rot | rustracer-core/src/rng.rs:27 | the rotation amount, the top five bits of the old state, is below 32 |
| Rng.RotateWordIsRotation | rustracer-core/src/rng.rs:29 | `(!rot + 1) & 31` makes the output a right rotation by rot: the word itself for 0, its low rot bits moved to the top otherwise |
| Rng.Threshold | rustracer-core/src/rng.rs:33 | the rejection threshold 2^32 mod b is below b |
| Rng.ThresholdUnbiased | rustracer-core/src/rng.rs:33-39 | with the `%` threshold the number of accepted words is a multiple of b, so every residue is equally likely |
| Rng.ThresholdAsWrittenBiased | rustracer-core/src/rng.rs:33 | with the `&` written in the source, b = 6 accepts 2^32 - 2 words, not a multiple of 6 |
| Rng.Accept | rustracer-core/src/rng.rs:35-38 | a draw is accepted exactly when the word reaches the threshold, and then yields the word mod b, which is below b (corrected, see ## Findings: the threshold 2^32 mod b, where rng.rs:33 computes `(!b + 1) & b`) |
| Rng.DivisorAcceptsAll | rustracer-core/src/rng.rs:33-39 | for a b dividing 2^32 the threshold is 0 and the first draw is accepted (corrected, see ## Findings: the threshold 2^32 mod b, where rng.rs:33 computes `(!b + 1) & b`) |
| Rng.RNG.UniformU32Bounded | rustracer-core/src/rng.rs:32-40 | the result is the first accepted residue of the draws from the old state, below b, and the state is the one after that draw (corrected, see ## Findings: the threshold 2^32 mod b, where rng.rs:33 computes `(!b + 1) & b`) |
| Rng.RNG.SetSequence | rustracer-core/src/rng.rs:46-52 | the stream becomes the odd number 2·seed + 1 and the state the one derived from it by two steps and the default offset |
| Rng.StreamsOddAndDistinct | rustracer-core/src/rng.rs:48 | every stream increment is odd, and distinct seeds below 2^63 choose distinct streams |
| Rng.FirstAfterSeed | rustracer-core/src/rng.rs:46-52 | a freshly seeded generator's first word depends only on the seed |
| LegacySampling.Top24 | src/sampling/mod.rs:41 | the top 24 bits as a fraction of 2^24 lie in [0, 1) |
| LegacySampling.VanDerCorput | src/sampling/mod.rs:32-42 | the scrambled van der Corput coordinate lies in [0, 1) |
| LegacySampling.VanDerCorputBitsInverse | src/sampling/mod.rs:33-39 | XORing the scramble away and reversing the bits again gives the index back, so distinct indices give distinct words |
| LegacySampling.LoopIsSum | src/sampling/mod.rs:49-55 | the loop XORs into its accumulator exactly the words its one-digits pick |
| LegacySampling.SobolSumIsMatrixSum | src/sampling/mod.rs:49-55 | the words the loop walks from column k on are the generator matrix's columns from k on |
| LegacySampling.LoopIsMatrix | src/sampling/mod.rs:45-55 | from the first column and the scramble, the loop computes the scramble XOR the generator matrix times the index |
| LegacySampling.BitLengthBelow | src/sampling/mod.rs:49-55 | an index below 2^m has at most m binary digits, so the loop runs at most m times |
| LegacySampling.Sobol | src/sampling/mod.rs:44-58 | `sobol` is the top 24 bits of the scrambled matrix product, after one loop round per binary digit of the index and at most 32 rounds |
| LegacySampling.SobolColumnsAreSobolMatrix | src/sampling/mod.rs:54 | the columns `v ^= v >> 1` walks are those of the second Sobol' generator matrix of the newer sampler |
| LegacySampling.SobolScramble | src/sampling/mod.rs:47-51 | the scramble is XORed into every index's result |
| LegacySampling.ZeroTwoSequence | src/sampling/mod.rs:28-30 | `zero_two_sequence` pairs the van der Corput coordinate with the first scramble word and the Sobol' coordinate with the second; both lie in [0, 1) |
| LegacySampling.GetSamples | src/sampling/mod.rs:18-26 | sample i of pixel (x, y) is point i of the sequence offset by (x, y), inside the pixel, and entries past spp are unchanged |
| ZeroTwo.NextPowerOfTwo | src/sampler/zerotwosequence.rs:31 | `next_power_of_two` is the least power of two at least x (1 for 0): a power of two, at least x, below 2x, and x itself when x is one |
| ZeroTwo.SliceHoldsSample | src/sampler/zerotwosequence.rs:125-135 | the slice for pixel sample `index` of an n-per-sample array holds at least its n entries |
| ZeroTwo.ZeroTwoSequence.constructor | src/sampler/zerotwosequence.rs:30-55 | `new` rounds spp up to a power of two, zeroes one buffer of spp entries per sampled dimension, and starts every cursor and list empty |
| ZeroTwo.Create | src/sampler/zerotwosequence.rs:57-62 | `create` reads "pixelsamples" (default 16) and "dimensions" (default 4) into `new` |
| ZeroTwo.ZeroTwoSequence.StartPixel | src/sampler/zerotwosequence.rs:66-99 | `start_pixel` fills the buffers with the pixel's samples of the same shapes, records the pixel and resets the sample index and array offsets, leaving the dimension cursors as they were |
| ZeroTwo.ZeroTwoSequence.StartNextSample | src/sampler/zerotwosequence.rs:101-108 | `start_next_sample` resets the cursors and offsets, moves to the next sample and reports whether it exists |
| ZeroTwo.ZeroTwoSequence.Request1DArray | src/sampler/zerotwosequence.rs:110-115 | `request_1d_array` appends the size and a zeroed array of n·spp entries and changes nothing else |
| ZeroTwo.ZeroTwoSequence.Request2DArray | src/sampler/zerotwosequence.rs:117-123 | `request_2d_array` does the same for 2D arrays |
| ZeroTwo.ZeroTwoSequence.Get1DArray | src/sampler/zerotwosequence.rs:125-135 | `get_1d_array` returns None exactly when every requested array was handed out; otherwise the current array from this sample's first entry on, holding at least its n entries, and the offset moves on |
| ZeroTwo.ZeroTwoSequence.Get2DArray | src/sampler/zerotwosequence.rs:137-147 | `get_2d_array` does the same for 2D arrays |
| ZeroTwo.ZeroTwoSequence.Get1D | src/sampler/zerotwosequence.rs:149-157 | `get_1d` returns the current dimension's sample of this pixel sample and moves to the next dimension; past the last dimension it returns a generator draw without moving |
| ZeroTwo.ZeroTwoSequence.Get2D | src/sampler/zerotwosequence.rs:159-167 | `get_2d` does the same over the 2D buffers, with two draws past the last dimension |
| ZeroTwo.ZeroTwoSequence.RoundCount | src/sampler/zerotwosequence.rs:181-183 | `round_count` is a power of two at least count, and count itself when count is one |
| Distribution1D.RunningIntegral | rustracer-core/src/sampling/distribution1d.rs:14-19 | the first loop leaves cdf[k] as the running integral of the first k steps, each weighted 1/n |
| Distribution1D.Ramp | rustracer-core/src/sampling/distribution1d.rs:22-29 | with a zero total, entries 1..n become i/n, which is the cdf |
| Distribution1D.Normalise | rustracer-core/src/sampling/distribution1d.rs:30-35 | with a non-zero total, entries 1..n are divided by it, which is the cdf |
| Distribution1D.New | rustracer-core/src/sampling/distribution1d.rs:11-42 | `new` keeps the function, stores its cdf and takes the total integral as `func_int` |
| Distribution1D.CdfOf | rustracer-core/src/sampling/distribution1d.rs:11-42 | the cdf has n + 1 entries and starts at 0 |
| Distribution1D.CdfEnds | rustracer-core/src/sampling/distribution1d.rs:21-35 | with a non-zero total the cdf ends at exactly 1; with a zero total it is the ramp i/n |
| Distribution1D.IntegralMonotone | rustracer-core/src/sampling/distribution1d.rs:17-19 | for a non-negative function the running integral never decreases |
| Distribution1D.CdfMonotone | rustracer-core/src/sampling/distribution1d.rs:11-42 | for a non-negative function the cdf is non-decreasing |
| Distribution1D.CdfOffset | rustracer-core/src/sampling/distribution1d.rs:50 | the search over the cdf returns a segment index at most n - 1 |
| Distribution1D.CdfOffsetBrackets | rustracer-core/src/sampling/distribution1d.rs:50 | on a non-decreasing cdf, u in [cdf[0], cdf[n]) lands in the segment that holds it: cdf[o] <= u < cdf[o + 1] |
| Distribution1D.CdfOffsetOutside | rustracer-core/src/sampling/distribution1d.rs:50 | below the first entry the search returns 0; at or above the last it returns n - 1 |
| Distribution1D.SampleDiscrete | rustracer-core/src/sampling/distribution1d.rs:70-79 | `sample_discrete` returns a step index below n and probability 0 when `func_int` is not positive |
| Distribution1D.DiscretePdfPositive | rustracer-core/src/sampling/distribution1d.rs:72-73 | a step of positive weight has positive probability |
| Distribution1D.SampleDiscreteHitsWeight | rustracer-core/src/sampling/distribution1d.rs:70-79 | for a non-negative function with positive total and u in [0, 1), the chosen step has positive weight and probability, and u lies in its cdf segment |
| Distribution1D.SegmentOf | rustracer-core/src/sampling/distribution1d.rs:50 | for such a function and u, the segment holding u comes from a step of positive weight |
| Distribution1D.StepPositive | rustracer-core/src/sampling/distribution1d.rs:17-19 | a cdf segment of positive width comes from a step of positive weight |
| Distribution1D.SampleDiscreteExample | rustracer-core/src/sampling/distribution1d.rs:85-98 | for the steps [0, 1, 0, 3], u below 0.25 gives step 1 with probability 0.25 and u from 0.25 on gives step 3 with probability 0.75 |
| Distribution1D.SampleContinuous | rustracer-core/src/sampling/distribution1d.rs:48-68 | `sample_continuous` returns a step index below n and density 0 when `func_int` is not positive |
| Distribution1D.SampleContinuousInStep | rustracer-core/src/sampling/distribution1d.rs:48-68 | for a non-negative function with positive total and u in [0, 1), the point lies in step o's interval [o/n, (o+1)/n) of [0, 1) and its density is positive |
| Distribution1D.SampleContinuousParts | rustracer-core/src/sampling/distribution1d.rs:52-59 | u lies in a segment of positive width, so the in-segment offset is a fraction in [0, 1) and the density is func[o] / func_int |
| BlockQueue.Block.constructor | src/block_queue.rs:15-21 | `Block::new` puts the cursor at the start and the end corner size - 1 pixels further in each direction |
| BlockQueue.Block.Next | src/block_queue.rs:27-43 | while pixels remain `next` returns the pixel at the cursor in row-major order and advances; afterwards it returns None and the cursor stays put |
| BlockQueue.CollectBlock | src/block_queue.rs:27-43 | iterating a fresh block yields exactly its size² pixels in row-major order and then stops |
| BlockQueue.PixelAtInSquare | src/block_queue.rs:28-40 | the first size² positions of the row-major walk, and only they, fall inside the block's square |
| BlockQueue.PixelAtInjective | src/block_queue.rs:28-40 | distinct positions give distinct pixels, so no pixel is visited twice |
| BlockQueue.PixelAtCovers | src/block_queue.rs:28-40 | every pixel of the square is visited, at position (y - start.y)·size + (x - start.x) |
| BlockQueue.PixelAtStep | src/block_queue.rs:34-39 | the next pixel is the right neighbour, or the first pixel of the next row after the last column |
| BlockQueue.BlockQueue.constructor | src/block_queue.rs:54-61 | `BlockQueue::new` counts (w / bs)·(h / bs) whole blocks and starts the counter at 0 |
| BlockQueue.BlockQueue.Next | src/block_queue.rs:63-73 | every call takes one ticket; tickets below `num_blocks` yield the block at that row-major grid position, later tickets None |
| BlockQueue.BlockInsideImage | src/block_queue.rs:68-71 | every block handed out lies inside the image |
| BlockQueue.BlocksDisjoint | src/block_queue.rs:68-71 | distinct blocks share no pixel |
| BlockQueue.BlocksCover | src/block_queue.rs:59-71 | every pixel of the whole-block part of the image lies in block (y / bs)·nbw + x / bs, one of those handed out |
| BlockedArray.New | src/blockedarray.rs:23-35 | `new` allocates u_res·v_res zero cells and sets u_blocks to next_power_of_two(u_res) >> 3 |
| BlockedArray.BlockOffsetSplit | src/blockedarray.rs:41-47 | a coordinate is its block times 8 plus its offset, and the offset is below 8 |
| BlockedArray.Index | src/blockedarray.rs:56-65 | `index` reads the cell at 64·(u_blocks·bv + bu) + 8·ov + ou |
| BlockedArray.OffsetInGrid | src/blockedarray.rs:62-63 | inside a grid of whole blocks the offset stays below the grid's 64 cells per block |
| BlockedArray.IndexInRange | src/blockedarray.rs:23-65 | when both resolutions are whole blocks and u_res is a power of two, every in-range read stays inside the data |
| BlockedArray.OffsetInjective | src/blockedarray.rs:62-63 | two cells with u below 8·u_blocks have the same offset only if they are the same cell |
| BlockedArray.AsWrittenIndexOverruns | src/blockedarray.rs:25-30 | a 12×12 array has 144 cells but `index` sends (11, 11) to offset 219 |
| BlockedArray.AsWrittenCellsCollide | src/blockedarray.rs:30 | a 1×9 array has u_blocks 0, so (0, 0) and (0, 8) share a cell |
| BlockedArray.NewPadded | src/blockedarray.rs:23-35 | the corrected allocation rounds both resolutions up to whole blocks and sets u_blocks to the blocks across |
| BlockedArray.PaddedIndexSound | src/blockedarray.rs:56-65 | with the padded allocation every in-range (u, v) reads inside the data, and distinct coordinates read distinct cells |
| Bounds.FromPoint3 | rustracer-core/src/bounds.rs:34-39 | the box of one point contains that point |
| Bounds.FromPoints3 | rustracer-core/src/bounds.rs:41-46 | the box of two points contains both |
| Bounds.Corner | rustracer-core/src/bounds.rs:48-54 | bits 0, 1 and 2 of the corner number pick `p_max` for x, y and z respectively |
| Bounds.CornersOfValidBox | rustracer-core/src/bounds.rs:48-54 | every corner of a valid box lies in it; corner 0 is `p_min` and corner 7 is `p_max` |
| Bounds.Extend3 | rustracer-core/src/bounds.rs:56-75 | `extend` makes the box contain p and its old extent, and changes nothing when p was inside |
| Bounds.MaximumExtent | rustracer-core/src/bounds.rs:77-90 | `maximum_extent` names an axis along which the diagonal is longest |
| Bounds.Union3 | rustracer-core/src/bounds.rs:92-108 | `union` encloses both boxes and is enclosed by every box that encloses both |
| Bounds.Union3Commutes | rustracer-core/src/bounds.rs:92-108 | `union` is commutative |
| Bounds.Union3Associates | rustracer-core/src/bounds.rs:92-108 | `union` is associative |
| Bounds.Union3WithNew | rustracer-core/src/bounds.rs:25-32 | the empty box of `new` is a unit of `union` for boxes within the `f32` range |
| Bounds.UnionPoint3 | rustracer-core/src/bounds.rs:110-114 | `union_point` contains the point and the box |
| Bounds.OffsetComponent | rustracer-core/src/bounds.rs:177-190 | along an axis of positive extent, a coordinate inside the box maps into [0, 1], 0 exactly at `p_min` and 1 exactly at `p_max` |
| Bounds.Offset3 | rustracer-core/src/bounds.rs:177-190 | `offset` maps each axis of positive extent as above |
| Bounds.Diagonal3 | rustracer-core/src/bounds.rs:192-194 | the diagonal of a valid box is non-negative |
| Bounds.SurfaceArea | rustracer-core/src/bounds.rs:214-217 | the surface area of a valid box is non-negative |
| Bounds.FromPoint2 | rustracer-core/src/bounds.rs:258-263 | the 2D box of one point contains it |
| Bounds.FromPoints2 | rustracer-core/src/bounds.rs:265-270 | the 2D box of two points contains both |
| Bounds.Extend2 | rustracer-core/src/bounds.rs:272-285 | `extend` makes the 2D box contain p and its old extent, and changes nothing when p was inside |
| Bounds.Union2 | rustracer-core/src/bounds.rs:298-312 | the 2D `union` is the least box enclosing both arguments |
| Bounds.UnionPoint2 | rustracer-core/src/bounds.rs:314-318 | the 2D `union_point` contains the point and the box |
| Bounds.Union2WithNew | rustracer-core/src/bounds.rs:242-249 | `new()` is a unit of `union` for boxes in the i32 range, and `union` is idempotent |
| Bounds.Union2Commutes | rustracer-core/src/bounds.rs:298-312 | the 2D `union` is commutative |
| Bounds.Union2Example | rustracer-core/src/bounds.rs:546-557 | extending (-10, -10)-(0, 20) by (-15, 10) gives (-15, -10)-(0, 20), and a union with `new()` changes nothing |
| Bounds.Area2 | rustracer-core/src/bounds.rs:336-338 | the area of a non-degenerate box is positive |
| Bounds.Intersect2 | rustracer-core/src/bounds.rs:340-351 | a point lies in the intersection exactly when it lies in both boxes, for both the closed and the half-open test |
| Bounds.RowMajorPointInside | rustracer-core/src/bounds.rs:390-406 | the first `area` row-major positions, and only they, are points of the half-open box |
| Bounds.RowMajorInjective | rustracer-core/src/bounds.rs:390-406 | distinct row-major positions give distinct points |
| Bounds.RowMajorStep | rustracer-core/src/bounds.rs:390-406 | the next point is one step right, or the start of the next row |
| Bounds.RowMajorSeq | rustracer-core/src/bounds.rs:387-420 | the iterator yields every point of a proper box in row-major order and nothing for a degenerate one |
| Bounds.Bounds2Iterator.constructor | rustracer-core/src/bounds.rs:413-419 | `into_iter` starts just left of `p_min` |
| Bounds.Bounds2Iterator.Next | rustracer-core/src/bounds.rs:390-406 | `next` returns None for degenerate bounds; otherwise it yields the next row-major point while one remains |
| Bounds.KthPointAt | rustracer-core/src/bounds.rs:390-406 | the point reached after k + 1 advances is row-major point k, and it is inside exactly when k < area |
| Bounds.CollectPoints | rustracer-core/src/bounds.rs:387-420 | collecting the iterator gives the row-major list of the box's points |
| Bounds.RowMajorExample | rustracer-core/src/bounds.rs:494-506 | (0, 1)-(2, 3) yields (0, 1), (1, 1), (0, 2), (1, 2) |
| Bounds.DegenerateExamples | rustracer-core/src/bounds.rs:509-530 | degenerate boxes, including `new()`, yield nothing |
| BvhTree.Centroid | rustracer-core/src/bvh/mod.rs:505-511 | the centroid 0.5·p_min + 0.5·p_max of a valid box lies in the box, and stays within the `f32` range |
| BvhTree.UnionAllEncloses | rustracer-core/src/bvh/mod.rs:142-144 | the folded union of a range's boxes encloses each of them |
| BvhTree.CentroidBoundsAttained | rustracer-core/src/bvh/mod.rs:155-158 | the centroid bounds contain every centroid, and for finite boxes each side along the split axis is attained by some centroid |
| BvhTree.MakeInterior | rustracer-core/src/bvh/mod.rs:528-536 | an interior node keeps its axis and children, and its box is the least box enclosing both children's |
| BvhTree.TilesOwnOnce | rustracer-core/src/bvh/mod.rs:145-168 | the leaves' slices of the ordered primitive list tile the node's range: each position inside is owned by exactly one leaf, each outside by none |
| BvhTree.TilesWithin | rustracer-core/src/bvh/mod.rs:145-168 | every leaf slice of a tiled tree lies within the ordered list |
| BvhTree.BoundsOkExtend | rustracer-core/src/bvh/mod.rs:147-151 | appending more primitives to the ordered list keeps an existing subtree's bounds valid |
| BvhTree.BoundsContainPrims | rustracer-core/src/bvh/mod.rs:142-152 | a node's box encloses the box of every primitive in its slice of the ordered list |
| BvhTree.Linearize | rustracer-core/src/bvh/mod.rs:300-342 | the depth-first layout of a tree has one entry per node |
| BvhTree.Flatten | rustracer-core/src/bvh/mod.rs:300-342 | `flatten_bvh` appends the depth-first layout of the node, with every second-child offset patched, and returns the node's own offset |
| BvhTree.LayoutInContext | rustracer-core/src/bvh/mod.rs:300-342 | the layout of a subtree placed anywhere in the node array reads back as that subtree |
| BvhTree.LinearizeIsLayout | rustracer-core/src/bvh/mod.rs:106-110 | the flattened array reads back as the built tree from index 0, so traversal sees the tree the builder made |
| BvhSplit.Swap | rustracer-core/src/bvh/mod.rs:200 | `swap` exchanges two entries of the range and changes nothing else |
| BvhSplit.SwapInRange | rustracer-core/src/bvh/mod.rs:200 | exchanging two entries of the range keeps the range's entries and everything outside it |
| BvhSplit.Partition | rustracer-core/src/bvh/mod.rs:176-178 | the partition puts the entries that pass before those that fail, returns how many pass, and only rearranges the range |
| BvhSplit.TakeFromBack | rustracer-core/src/bvh/mod.rs:176-178 | for a failing front entry, either a passing entry from the back is swapped in or everything from the front on fails |
| BvhSplit.RFind | rustracer-core/src/bvh/mod.rs:176-178 | `rfind` returns the last passing position of the window with every later entry failing, or reports that none passes |
| BvhSplit.SortByKey | rustracer-core/src/bvh/mod.rs:182-187 | `sort_by` on the centroid coordinate orders the range and only rearranges it |
| BvhSplit.Insert | rustracer-core/src/bvh/mod.rs:182-187 | one insertion round moves a[i] left past every larger key, extending the ordered prefix by one |
| BvhSplit.InsertStep | rustracer-core/src/bvh/mod.rs:182-187 | moving the entry one place left past a larger key keeps the insertion invariant |
| BvhSplit.InsertDone | rustracer-core/src/bvh/mod.rs:182-187 | once the entry stops, the prefix up to i is ordered |
| BvhSplit.SinkSorted | rustracer-core/src/bvh/mod.rs:182-187 | sinking the entry into an otherwise ordered prefix orders all of it |
| BvhSplit.SinkRearranged | rustracer-core/src/bvh/mod.rs:182-187 | sinking only exchanges entries of the range |
| BvhSplit.MiddleMidAsWritten | rustracer-core/src/bvh/mod.rs:176-189 | as written, `mid` is the halfway index after the fallback sort and 2·start + count otherwise |
| BvhSplit.MiddleMidAsWrittenOverruns | rustracer-core/src/bvh/mod.rs:176-179 | for centroids at x = 0, 1, 10, 11 the right child [2, 4) gets `mid` = 5, beyond `end` |
| BvhSplit.MiddleMid | rustracer-core/src/bvh/mod.rs:176-189 | the intended `mid` lies strictly inside the range; the fallback runs exactly when the partition is one-sided, and otherwise `mid` is start + count |
| BvhSplit.BucketOf | rustracer-core/src/bvh/mod.rs:209-216 | a centroid's bucket is below 12, 0 at the low side of the centroid bounds and 11 at the high side |
| BvhSplit.FillBuckets | rustracer-core/src/bvh/mod.rs:205-220 | each bucket's count and box are those of the range's primitives whose centroids fall into it |
| BvhSplit.SahCost | rustracer-core/src/bvh/mod.rs:237-240 | the cost is NaN exactly when the node's surface area is 0 |
| BvhSplit.SplitCost | rustracer-core/src/bvh/mod.rs:237-240 | the cost of splitting after bucket i is NaN exactly when the node's surface area is 0 |
| BvhSplit.FoldBuckets | rustracer-core/src/bvh/mod.rs:229-236 | an inner loop folds the union of the boxes and the sum of the counts of its buckets |
| BvhSplit.CostAt | rustracer-core/src/bvh/mod.rs:225-240 | one pass of the cost loop computes the split cost after bucket i |
| BvhSplit.SplitCosts | rustracer-core/src/bvh/mod.rs:222-241 | the cost loop yields one cost per split position, each the split cost after that bucket |
| BvhSplit.MinCostBucket | rustracer-core/src/bvh/mod.rs:243-251 | the search returns a bucket at most 10 with its cost; with finite costs it is the first cheapest one, and a NaN first cost keeps bucket 0 |
| Bvh.SplitMethodFromName | rustracer-core/src/bvh/mod.rs:63-72 | the split method is Middle exactly for the name "middle"; "sah" and every unknown name select SAH |
| Bvh.MaxPrimsFromParam | rustracer-core/src/bvh/mod.rs:73-74 | `maxnodeprims as usize` keeps a non-negative value and wraps a negative one to 2^64 + v |
| Bvh.ExtremeBuckets | rustracer-core/src/bvh/mod.rs:209-216 | the primitive with the lowest centroid falls in bucket 0 and the one with the highest in bucket 11 |
| Bvh.SahSides | rustracer-core/src/bvh/mod.rs:256-266 | the SAH partition at a bucket of at most 10 leaves both sides non-empty |
| Bvh.SplitHasBothSides | rustracer-core/src/bvh/mod.rs:256-266 | a partition whose passing side holds one given element and whose failing side another has both sides non-empty |
| Bvh.MakeLeaf | rustracer-core/src/bvh/mod.rs:145-152 | a leaf appends the range's primitives to the ordered list and covers exactly that slice, with the range's bounds |
| Bvh.MiddleSplit | rustracer-core/src/bvh/mod.rs:173-190 | the middle split (with the corrected `mid`) partitions around the centroid midpoint, or sorts and halves when one side is empty; `mid` lies strictly inside the range and only the range is rearranged |
| Bvh.SahBucket | rustracer-core/src/bvh/mod.rs:203-251 | the chosen bucket is at most 10; a zero-area node keeps bucket 0 with a NaN cost, otherwise the minimum cost is finite |
| Bvh.SahPartition | rustracer-core/src/bvh/mod.rs:256-266 | primitives of buckets up to the split go first, the others after, both sides are non-empty, and only the range is rearranged |
| Bvh.SahSplit | rustracer-core/src/bvh/mod.rs:192-276 | two primitives are put in centroid order and halved; more are partitioned when they exceed `max_prims_per_node` or the split beats a leaf, else a leaf is reported and nothing moves |
| Bvh.SplitRange | rustracer-core/src/bvh/mod.rs:171-277 | a split lies strictly inside the range, only the SAH method can decline to split, and only the range is rearranged |
| Bvh.ChildrenCompose | rustracer-core/src/bvh/mod.rs:280-295 | the two child builds, each permuting its own half, together permute only [start, end) |
| Bvh.RecursiveBuild | rustracer-core/src/bvh/mod.rs:129-298 | `recursive_build` counts one node per call, appends a rearrangement of the range's primitives to the ordered list, builds leaves that tile that slice with bounds enclosing their primitives, and permutes only the range |
| Bvh.BuildChildren | rustracer-core/src/bvh/mod.rs:280-296 | the right child is built over [mid, end) before the left over [start, mid), and the joined node keeps the build invariants |
| Bvh.New | rustracer-core/src/bvh/mod.rs:77-127 | an empty primitive list fails; otherwise the flattened nodes are the layout of a tree whose leaves tile a permutation of all primitives and whose boxes enclose them, with the cap at 255 |
| BvhTraversal.StackPush | rustracer-core/src/bvh/mod.rs:394-402 | pushing a laid-out subtree keeps the stack well formed and adds its nodes to the pending count |
| BvhTraversal.StackPop | rustracer-core/src/bvh/mod.rs:409-410 | popping the stack yields a laid-out subtree low enough to descend into |
| BvhTraversal.LayoutChildren | rustracer-core/src/bvh/mod.rs:384-402 | an interior node's first child sits right after it and its second child at `second_child_offset` |
| BvhTraversal.RunStackDescend | rustracer-core/src/bvh/mod.rs:394-402 | descending into a hit interior node visits the near child now and the far child later, which visits the node |
| BvhTraversal.Pop | rustracer-core/src/bvh/mod.rs:381-382 | popping `nodes_to_visit` takes the next subtree off the top of the stack |
| BvhTraversal.Descend | rustracer-core/src/bvh/mod.rs:394-402 | with `dir_is_neg` on the split axis the second child is visited and the first pushed, otherwise the reverse; the pending work decreases |
| BvhTraversal.ScanLeaf | rustracer-core/src/bvh/mod.rs:373-377 | the leaf loop tests each of the leaf's primitives in turn, keeping a hit with `or` |
| BvhTraversal.LeafThenPop | rustracer-core/src/bvh/mod.rs:373-383 | after a leaf or a missed box, the loop either stops with the whole traversal's result or pops the next node with less work pending |
| BvhTraversal.VisitFlat | rustracer-core/src/bvh/mod.rs:365-411 | a node the loop does not descend into is visited by scanning its leaf when its box is hit and not at all otherwise |
| BvhTraversal.Intersect | rustracer-core/src/bvh/mod.rs:350-414 | an empty BVH finds nothing; otherwise the loop with its 64-entry stack computes exactly the recursive visit of the whole tree |
| BvhTraversal.AnyInLeaf | rustracer-core/src/bvh/mod.rs:438-442 | the leaf loop of `intersect_p` reports whether some primitive of the leaf is hit |
| BvhTraversal.LeafThenPopP | rustracer-core/src/bvh/mod.rs:438-447 | after a leaf or a missed box, `intersect_p` stops with the right answer or pops the next node with "some hit is still reachable" unchanged |
| BvhTraversal.AnyHitDescend | rustracer-core/src/bvh/mod.rs:459-467 | descending into a passing interior node keeps "some hit is still reachable" unchanged, whichever child is pushed |
| BvhTraversal.IntersectP | rustracer-core/src/bvh/mod.rs:416-479 | `intersect_p` is false for an empty BVH and otherwise true exactly when the recursive search finds a hit |
| BvhTraversal.LeafScanNearest | rustracer-core/src/bvh/mod.rs:373-377 | a leaf scan moves `t_max` down to the nearest of its primitives before `t_max` and reports it, or changes nothing |
| BvhTraversal.VisitNearest | rustracer-core/src/bvh/mod.rs:363-412 | with conservative box tests, visiting a subtree moves `t_max` to the nearest primitive below it and reports it, or changes nothing |
| BvhTraversal.IntersectFindsNearest | rustracer-core/src/bvh/mod.rs:350-414 | with exact primitive tests and conservative box tests, `intersect` reports nothing exactly when no primitive lies before `t_max`, and otherwise the nearest one |
| BvhTraversal.BoundsAreConservative | rustracer-core/src/bvh/mod.rs:142-152 | the bounds the builder stores make every box test of its tree conservative |
| BvhTraversal.AnyHitExact | rustracer-core/src/bvh/mod.rs:416-479 | `intersect_p` never invents a hit, and with conservative box tests it finds every one |
| LegacyBvh.RecursiveBuild | src/bvh/mod.rs:66-135 | the legacy build (middle split only, left child first) keeps the same invariants as the core build |
| LegacyBvh.BuildChildren | src/bvh/mod.rs:119-131 | the left child is built over [start, mid) before the right over [mid, end), and the joined node keeps the build invariants |
| LegacyBvh.Reorder | src/bvh/mod.rs:40-47 | the two `sort_by_key` passes put primitive `ordered[k]` at position k |
| LegacyBvh.New | src/bvh/mod.rs:16-64 | an empty list fails; otherwise the primitives are reordered by the build's order and the nodes are the layout of the built tree |
| LegacyBvh.Intersect | src/bvh/mod.rs:173-231 | the legacy traversal computes the recursive visit of the whole tree |
| Bsdf.MatchesIffSubset | rustracer-core/src/bsdf/bxdf.rs:29-31 | `matches` holds exactly when every flag bit of the lobe's type is also set in `flags` |
| Bsdf.SpecularReflectionContained | rustracer-core/src/bsdf/mod.rs:243-249 | a lobe that is specular, reflective and transmissive contains SPECULAR &#124; REFLECTION, while a specular reflective one does not contain SPECULAR &#124; TRANSMISSION |
| Bsdf.DefaultPdf | rustracer-core/src/bsdf/bxdf.rs:38-44 | the default density is non-negative, and positive exactly when `wo` and `wi` are on the same side |
| Bsdf.DefaultSampleHemisphere | rustracer-core/src/bsdf/bxdf.rs:18-25 | the default sampling puts `wi` on the side of `wo`, keeps the tangent components of the cosine-weighted direction and reports the empty type |
| Bsdf.ScaledKeepsSample | rustracer-core/src/bsdf/bxdf.rs:62-74 | `ScaledBxDF` keeps the wrapped lobe's type, sampled direction, density and sampled type, scales only the value, and uses the default `pdf` |
| Bsdf.BxDFHolder.constructor | rustracer-core/src/bsdf/mod.rs:38-43 | `new` starts with eight slots and none used |
| Bsdf.BxDFHolder.Add | rustracer-core/src/bsdf/mod.rs:45-49 | `add` stores the lobe at slot n and counts it |
| Bsdf.BxDFHolder.IntoSlice | rustracer-core/src/bsdf/mod.rs:51-56 | `into_slice` returns the added lobes in order |
| Bsdf.Matching | rustracer-core/src/bsdf/mod.rs:136-139 | the matching lobes are lobes of the BSDF that match `flags` |
| Bsdf.MatchingComplete | rustracer-core/src/bsdf/mod.rs:136-139 | every matching lobe of the BSDF is kept by the filter |
| Bsdf.MatchingSubset | rustracer-core/src/bsdf/mod.rs:136-139 | every lobe the filter keeps comes from the BSDF |
| Bsdf.NumComponents | rustracer-core/src/bsdf/mod.rs:237-239 | `num_components` is the number of matching lobes |
| Bsdf.NoComponents | rustracer-core/src/bsdf/mod.rs:237-239 | the count is zero exactly when no lobe matches |
| Bsdf.F | rustracer-core/src/bsdf/mod.rs:87-104 | `f` is black when `wo` is grazing in the local frame |
| Bsdf.FAddsOnlySelected | rustracer-core/src/bsdf/mod.rs:93-103 | a lobe that does not match or is on the wrong side adds nothing to `f`; a selected one adds its value |
| Bsdf.WrongSideIgnored | rustracer-core/src/bsdf/mod.rs:93-103 | a lobe that only reflects never contributes to a transmitted pair, and one that only transmits never to a reflected pair |
| Bsdf.MatchedStep | rustracer-core/src/bsdf/mod.rs:116-123 | one more lobe adds itself to the count and its density to the sum exactly when it matches |
| Bsdf.Pdf | rustracer-core/src/bsdf/mod.rs:106-129 | the accumulation loop computes the mean density of the matching lobes, 0 for a grazing `wo` or no match |
| Bsdf.MatchedPdfBounds | rustracer-core/src/bsdf/mod.rs:116-123 | the matched sum lies between the match count times any lower and any upper bound on the matching densities |
| Bsdf.PdfIsMean | rustracer-core/src/bsdf/mod.rs:106-129 | when some lobe matches and every matching density lies in [lo, hi], so does the BSDF's |
| Bsdf.PdfWithoutMatch | rustracer-core/src/bsdf/mod.rs:124-128 | with no matching lobe the density is 0 |
| Bsdf.FloorToUsize | rustracer-core/src/bsdf/mod.rs:144 | `floor() as usize` is the floor for non-negative values and saturates negative ones to 0 |
| Bsdf.ChooseComponent | rustracer-core/src/bsdf/mod.rs:144-145 | the chosen component is below the match count |
| Bsdf.ChooseComponentStratum | rustracer-core/src/bsdf/mod.rs:144-160 | for u0 in [0, 1) the choice is the stratum holding u0, and the remapped sample is again in [0, 1) |
| Bsdf.AddOtherPdfsSums | rustracer-core/src/bsdf/mod.rs:187-195 | with non-negative densities the loop never panics and adds the densities of all lobes but the sampled one |
| Bsdf.AccumulatePdf | rustracer-core/src/bsdf/mod.rs:187-195 | the loop computes the sum of the other lobes' densities, or the panic |
| Bsdf.SampleF | rustracer-core/src/bsdf/mod.rs:131-224 | `sample_f` returns the outcome its specification assigns to each branch |
| Bsdf.FinishPdf | rustracer-core/src/bsdf/mod.rs:180-211 | the reported density is 0 for a zero lobe density, the lobe's own for a single match, divided by the match count for a specular lobe, and otherwise the mean over all matching lobes |
| Bsdf.SampleOutcomes | rustracer-core/src/bsdf/mod.rs:136-167 | with no match the empty type and density 0; for a grazing `wo` the chosen lobe's type and density 0; otherwise the chosen lobe, below the match count, is sampled |
| Light.FlagsAreDistinctBits | rustracer-core/src/light/mod.rs:23-28 | the four light flags are single bits, pairwise disjoint |
| Light.IsDeltaLight | rustracer-core/src/light/mod.rs:34-36 | a light is a delta light exactly when its flags share a bit with DELTA_POSITION &#124; DELTA_DIRECTION |
| Light.DeltaLightExamples | rustracer-core/src/light/mod.rs:34-36 | area and infinite lights are not delta lights, and adding either flag to a delta light keeps it one |
| Light.IdCounter.GetNextId | rustracer-core/src/light/mod.rs:54-60 | `get_next_id` returns the counter and increments it |
| Light.FirstIds | rustracer-core/src/light/mod.rs:54-60 | a fresh counter hands out 0, 1, 2, ... in call order |
| Light.Unoccluded | rustracer-core/src/light/mod.rs:48-51 | `unoccluded` is true exactly when the aggregate's shadow query finds no hit, and a reported occlusion comes from a real hit |
| LightDistrib.VoxelCount | rustracer-core/src/lightdistrib.rs:54-56 | each axis gets at least one voxel and a count that fits a u32; an in-range scaled value gives its rounding, a value below one half gives 1 |
| LightDistrib.VoxelCounts | rustracer-core/src/lightdistrib.rs:53-56 | all three axes get their own count, each at least 1 |
| LightDistrib.TableSizeAtLeastFour | rustracer-core/src/lightdistrib.rs:57 | with counts of at least 1 the table has at least four slots, a multiple of four |
| LightDistrib.CountBelowTableSize | rustracer-core/src/lightdistrib.rs:155-159 | when the table size fits a u32, each count fits an i32, so the clamp bound `n - 1` is exact |
| LightDistrib.SpatialLightDistribution.constructor | rustracer-core/src/lightdistrib.rs:45-76 | `new` sets the voxel counts and a table of 4·Π n slots, all invalid and without a distribution |
| LightDistrib.VoxelCoord | rustracer-core/src/lightdistrib.rs:156-158 | the coordinate is clamped into [0, n - 1]: an in-range value gives its truncation, a negative one 0, one beyond n gives n - 1 |
| LightDistrib.VoxelOf | rustracer-core/src/lightdistrib.rs:150-159 | every coordinate of the voxel lies below its axis's count, whatever the offset |
| LightDistrib.PackFields | rustracer-core/src/lightdistrib.rs:162 | coordinates below 2^20 can each be read back from the packed key, and the top four bits stay clear |
| LightDistrib.PackInjective | rustracer-core/src/lightdistrib.rs:162-163 | for coordinates below 2^20 packing is injective and never yields INVALID_PACKED_POS, so the `assert_ne!` never fires |
| LightDistrib.HashOf | rustracer-core/src/lightdistrib.rs:171-177 | the first slot probed is inside the table |
| LightDistrib.MixCheckedOverflows | rustracer-core/src/lightdistrib.rs:173-175 | with overflow checks the multiply at line 175 overflows for the key of voxel (0, 0, 1) |
| LightDistrib.NextProbe | rustracer-core/src/lightdistrib.rs:219-222 | each quadratic probe step stays inside the table |
| LightDistrib.ProbeStop | rustracer-core/src/lightdistrib.rs:184-251 | a probe stops only at a slot in the table that holds the key or is invalid |
| LightDistrib.ProbeAfterClaim | rustracer-core/src/lightdistrib.rs:229-245 | filling the slot where a probe stopped leaves that probe stopping at the same slot |
| LightDistrib.SpatialLightDistribution.Lookup | rustracer-core/src/lightdistrib.rs:147-252 | `lookup` clamps, packs, hashes and probes: it returns the stored distribution of the key's slot, or claims the first invalid slot with the voxel's distribution, and changes no other slot |
| LightDistrib.SpatialLightDistribution.Probe | rustracer-core/src/lightdistrib.rs:182-251 | the probe loop keeps the table consistent and computes the lookup outcome from its start slot |
| LightDistrib.LookupOutcomeAtStop | rustracer-core/src/lightdistrib.rs:187-249 | a lookup returns the distribution of the slot already holding the key, or claims the invalid slot the probe stops at and changes no other slot |
| LightDistrib.LookupOutcomeConsistent | rustracer-core/src/lightdistrib.rs:184-251 | a lookup keeps a distribution exactly in the claimed slots and the table length, and returns a distribution whenever the probe stops |
| LightDistrib.LookupAgainFinds | rustracer-core/src/lightdistrib.rs:187-214 | a second lookup of a voxel stops at the slot the first one found or claimed, which now holds the key |
| LightDistrib.FloorContributions | rustracer-core/src/lightdistrib.rs:127-136 | the floor keeps one weight per light, never lowers a weight and leaves every weight positive |
| LightDistrib.VoxelDistribution | rustracer-core/src/lightdistrib.rs:142 | a claimed voxel's distribution is built over the floored contributions |
| LightDistrib.VoxelDistributionPositive | rustracer-core/src/lightdistrib.rs:122-142 | in a claimed voxel's distribution the total is positive and the sampled light has a positive probability |
| MipMap.TruncRem | rustracer-core/src/mipmap.rs:429 | Rust's `%` keeps the sign of `a`: in [0, &#124;b&#124;) for non-negative `a`, in (-&#124;b&#124;, 0] for negative `a` |
| MipMap.ModuloIsRemainder | rustracer-core/src/mipmap.rs:428-435 | for b > 0, `modulo(a, b)` lies in [0, b) and equals the Euclidean remainder of `a`, so it is congruent to `a` |
| MipMap.RemainderUnique | rustracer-core/src/mipmap.rs:428-435 | a decomposition a = q·b + r with 0 ≤ r < b determines the remainder |
| MipMap.ModuloSmall | rustracer-core/src/mipmap.rs:428-435 | an index already in [0, b) is left unchanged by `modulo` |
| MipMap.TexelInRange | rustracer-core/src/mipmap.rs:208-225 | in every wrap mode an in-range (s, t) reads the stored texel |
| MipMap.TexelRepeat | rustracer-core/src/mipmap.rs:211-212 | Repeat reads texel (s mod u, t mod v) for any s, t, so shifting by whole level sizes reads the same texel |
| MipMap.TexelClamp | rustracer-core/src/mipmap.rs:213-216 | Clamp reads the nearest in-range texel, the edge row or column beyond it |
| MipMap.TexelBlack | rustracer-core/src/mipmap.rs:217-222 | Black answers `black` exactly outside the level and the stored texel inside it |
| MipMap.WeightFor | rustracer-core/src/mipmap.rs:367-390 | each new texel gets four weights and the first tap at ⌊center - 2 + 0.5⌋; `None` is the failed `w[j] <= 1` assertion |
| MipMap.WeightsNormalised | rustracer-core/src/mipmap.rs:380-388 | the normalised weights sum to 1 and none exceeds 1 |
| MipMap.FirstTexelRange | rustracer-core/src/mipmap.rs:369-370 | when enlarging, every first tap lies in [-2, old - 2], so the four taps stay within two texels of the old row |
| MipMap.CenterInside | rustracer-core/src/mipmap.rs:369 | when enlarging, every filter center lies strictly inside the old row |
| MipMap.ResampleWeights | rustracer-core/src/mipmap.rs:362-393 | `resample_weights` succeeds exactly when the resolution does not shrink and every weight passes the assertion, and then returns one entry per new texel, in order |
| MipMap.WeightsStep | rustracer-core/src/mipmap.rs:368-391 | each pass of the loop extends the computed weights by the next texel's |
| MipMap.ZoomS | rustracer-core/src/mipmap.rs:86-110 | the s-zoom gives every row of the new height the new width |
| MipMap.ZoomT | rustracer-core/src/mipmap.rs:112-137 | the t-zoom gives the new height and keeps the width, and every texel is clamped to at least 0 |
| MipMap.Downsample | rustracer-core/src/mipmap.rs:168-187 | each coarser level is well formed with size max(1, prev/2) on each axis |
| MipMap.Log2Bounds | rustracer-core/src/mipmap.rs:159 | the integer log2 of n is the exponent of the largest power of two not above n |
| MipMap.HalvingsReachOne | rustracer-core/src/mipmap.rs:159-171 | k halvings with floor 1 bring any size below 2^(k+1) down to 1 |
| MipMap.PyramidSizes | rustracer-core/src/mipmap.rs:168-187 | level i has the level-0 sizes halved i times, each time with floor 1 |
| MipMap.HalvingsStep | rustracer-core/src/mipmap.rs:170-171 | halving i times is halving i - 1 times and then once more, with floor 1 |
| MipMap.LastLevelIsOneTexel | rustracer-core/src/mipmap.rs:159-187 | with 1 + ⌊log2 max(res)⌋ levels the coarsest level is a single texel |
| MipMap.PyramidExtend | rustracer-core/src/mipmap.rs:168-187 | pushing the downsampled last level keeps a pyramid |
| MipMap.BuildPyramid | rustracer-core/src/mipmap.rs:163-187 | the level loop yields n levels over the base, each the downsampling of the one before |
| MipMap.RoundUpBounds | rustracer-core/src/mipmap.rs:75-77 | rounding up gives a power of two in [x, 2x), equal to x exactly when x is a power of two |
| MipMap.PowerOfTwoParity | rustracer-core/src/mipmap.rs:75-77 | a power of two other than 1 is even |
| MipMap.Resample | rustracer-core/src/mipmap.rs:75-139 | the resampled image is well formed, has power-of-two sizes in [res, 2·res) and no negative texel |
| MipMap.New | rustracer-core/src/mipmap.rs:67-194 | `new` keeps the options, uses power-of-two resolutions in [res, 2·res), builds 1 + ⌊log2 max(res)⌋ levels of halving sizes, and stores a power-of-two image unchanged as level 0 |
| MipMap.TriangleLevel | rustracer-core/src/mipmap.rs:286 | `triangle` clamps the level into [0, levels - 1], keeping an in-range level |
| MipMap.BilerpBetween | rustracer-core/src/mipmap.rs:304-307 | with fractions in [0, 1) the bilinear weights are convex: the result lies between the least and greatest texel |
| MipMap.BilerpShift | rustracer-core/src/mipmap.rs:304-307 | the weights sum to 1, so shifting every texel shifts the result |
| MipMap.BilerpNegate | rustracer-core/src/mipmap.rs:304-307 | negating every texel negates the result |
| MipMap.BilerpNonNegative | rustracer-core/src/mipmap.rs:304-307 | non-negative texels and fractions in [0, 1] give a non-negative result |
| MipMap.TriangleBetween | rustracer-core/src/mipmap.rs:285-308 | outside Black mode a `triangle` lookup lies between the least and greatest texel of the level it reads |
| MipMap.BilerpAtBetween | rustracer-core/src/mipmap.rs:289-307 | outside Black mode bilinear interpolation stays within the texel bounds |
| MipMap.TexelBounded | rustracer-core/src/mipmap.rs:208-225 | outside Black mode every `texel` read is a stored texel, so it is within the level's bounds |
| ImageMap.IndexInside | rustracer-core/src/texture/imagemap.rs:56-57 | every texel (x, y) of a w × h buffer has its offset inside the buffer |
| ImageMap.DivModOf | rustracer-core/src/texture/imagemap.rs:56-57 | an offset y·w + x with x < w determines its row and column |
| ImageMap.RowBelow | rustracer-core/src/texture/imagemap.rs:56-57 | every offset of a w × h buffer lies in a row below h and a column below w |
| ImageMap.Mirror | rustracer-core/src/texture/imagemap.rs:56-57 | the mirrored offset (same column, row h - 1 - y) stays inside the buffer |
| ImageMap.Flipped | rustracer-core/src/texture/imagemap.rs:54-60 | the flipped image has the length of the original |
| ImageMap.FlippedPixel | rustracer-core/src/texture/imagemap.rs:54-60 | texel (x, y) of the flipped image is texel (x, h - 1 - y) of the original |
| ImageMap.MirrorTwice | rustracer-core/src/texture/imagemap.rs:56-57 | mirroring an offset twice returns it |
| ImageMap.FlippedTwice | rustracer-core/src/texture/imagemap.rs:54-60 | flipping twice restores the buffer |
| ImageMap.FlippedMiddleRow | rustracer-core/src/texture/imagemap.rs:54 | with an odd height the middle row, which the loop never visits, stays in place |
| ImageMap.InRow | rustracer-core/src/texture/imagemap.rs:56-57 | texel (x, r) lies in the row starting at y·w exactly when r = y |
| ImageMap.SwapRows | rustracer-core/src/texture/imagemap.rs:55-59 | the inner loop exchanges the w texels of two rows pair by pair, changes nothing else and keeps the multiset of texels |
| ImageMap.ExchangeStep | rustracer-core/src/texture/imagemap.rs:54-59 | exchanging rows y and h - 1 - y moves each texel of those rows to the other row, in its own column |
| ImageMap.FlipY | rustracer-core/src/texture/imagemap.rs:54-61 | the in-place flip leaves the buffer equal to the flipped image, a permutation of the original |
| ImageMap.FlipComplete | rustracer-core/src/texture/imagemap.rs:54-61 | once the first h / 2 rows have been exchanged with their mirrors, the buffer is the flipped image |
| ImageMap.LoadTexels | rustracer-core/src/texture/imagemap.rs:50-71 | a successful read yields the flipped image at its resolution; a failed read yields one grey(0.18) texel at 1 × 1 |
| ImageMap.WrapModeOf | rustracer-core/src/texture/imagemap.rs:114-121 | "black" selects Black and "clamp" Clamp, and no other string selects either |
| ImageMap.WrapModeRoundTrip | rustracer-core/src/texture/imagemap.rs:114-121 | each mode is selected by its own name, and "repeat" or any other unknown string selects Repeat |
| ImageMap.LastIndex | rustracer-core/src/fileutil.rs:49-55 | the result is the position of the last occurrence of the character, or none when it does not occur |
| ImageMap.Trimmed | rustracer-core/src/fileutil.rs:49-55 | the path with its trailing separators and "." components removed is a prefix of it that ends in neither |
| ImageMap.FileName | rustracer-core/src/fileutil.rs:49-55 | `Path::file_name`: a file name contains no '/' and is none of "", "." and ".."; the root, an empty path, "." and ".." have none |
| ImageMap.FileNameOfName | rustracer-core/src/fileutil.rs:49-55 | a name with no '/' other than "", "." and ".." is its own file name |
| ImageMap.FileNameBelow | rustracer-core/src/fileutil.rs:49-55 | the file name of `dir/name` is `name`, for any directory, when `name` has no '/' and is none of "", "." and ".." |
| ImageMap.FileNameIgnoresTrailing | rustracer-core/src/fileutil.rs:49-55 | a trailing separator or "." component does not change a path's file name |
| ImageMap.HasExtensionBySuffix | rustracer-core/src/fileutil.rs:49-55 | a path has extension `ext` exactly when it has a file name and that ends in "." + ext with something before that dot |
| ImageMap.SuffixGivesExtension | rustracer-core/src/fileutil.rs:49-55 | a name ending in "." + ext, with text before the dot, has extension ext |
| ImageMap.ExtensionGivesSuffix | rustracer-core/src/fileutil.rs:49-55 | a name with extension ext ends in "." + ext |
| ImageMap.LastIndexAt | rustracer-core/src/fileutil.rs:49-55 | a character that occurs at k and nowhere after k has its last occurrence at k |
| ImageMap.DefaultGammaByName | rustracer-core/src/texture/imagemap.rs:124-127 | a path whose file name ends in ".png" or ".tga", with something before the dot, gets gamma correction by default |
| ImageMap.DefaultGammaPng | rustracer-core/src/texture/imagemap.rs:124-127 | `dir/stem.png`, for any directory and any non-empty stem without '/', gets gamma correction by default, with or without a trailing separator |
| ImageMap.DefaultGammaJpg | rustracer-core/src/texture/imagemap.rs:124-127 | a path whose file name ends in ".jpg" does not get gamma correction by default |
| Noise.PermRepeats | rustracer-core/src/noise.rs:91-119 | the table has 512 entries and its second half repeats the first |
| Noise.MaskProperties | rustracer-core/src/noise.rs:18-20 | masking with 255 leaves a cell in [0, 256) alone and ignores whole multiples of 256, negative cells included |
| Noise.ModUnique | rustracer-core/src/noise.rs:18-20 | a decomposition a = q·256 + r with 0 ≤ r < 256 determines the masked value |
| Noise.GradHash | rustracer-core/src/noise.rs:69-70 | with arguments up to 256 every nested table index stays below 512, and the hash is below 16 |
| Noise.GradIsDot | rustracer-core/src/noise.rs:68-75 | `grad` is the dot product of the offset with the gradient direction its hash selects |
| Noise.GradOfIsDot | rustracer-core/src/noise.rs:71-74 | the component choice and the sign bits select, for each of the sixteen hashes, the dot product with one cube-edge direction |
| Noise.GradientShape | rustracer-core/src/noise.rs:71-74 | every gradient direction has exactly one zero component and two of magnitude one |
| Noise.CornerWeights | rustracer-core/src/noise.rs:18-28 | the eight corner weights read the table in range, the first being the `grad` of the masked cell at the offset |
| Noise.NoiseWeight | rustracer-core/src/noise.rs:77-82 | the fade curve is 0 at 0 and 1 at 1 |
| Noise.NoiseAtLattice | rustracer-core/src/noise.rs:8-42 | noise vanishes at every integer point within i32 range |
| Noise.OffsetOfInteger | rustracer-core/src/noise.rs:10-15 | an integer within i32 range has offset 0 from its cell |
| Noise.SmoothStep | rustracer-core/src/noise.rs:84-89 | `smooth_step` lies in [0, 1] |
| Noise.SmoothBounds | rustracer-core/src/noise.rs:88 | on [0, 1] the cubic v²(3 - 2v) stays within [0, 1] |
| Noise.SmoothStepEnds | rustracer-core/src/noise.rs:84-89 | `smooth_step` is 0 at or below min, 1 at or above max, and one half at the midpoint |
| Film.PixelOffset | rustracer-core/src/film.rs:224-230 | a pixel inside the bounds has an offset below their area |
| Film.RowOffsetBelow | rustracer-core/src/film.rs:226-228 | row r < h, column c < w of a w-wide grid has an offset in [0, w·h) |
| Film.OffsetInside | rustracer-core/src/film.rs:224-230 | a pixel inside the bounds makes them non-degenerate, has an offset below the area, and that offset is its place in the bounds iterator's row-major order |
| Film.OffsetOfRowMajor | rustracer-core/src/film.rs:150-156 | the k-th pixel of the row-major walk lies inside the bounds and has offset k: offsets and the iterator order are inverse |
| Film.OffsetDistinct | rustracer-core/src/film.rs:224-230 | distinct pixels inside the bounds have distinct offsets |
| Film.MergePixel | rustracer-core/src/film.rs:157-161 | merging adds the tile pixel's weight sum to the film pixel's, and keeps the XYZ finite exactly when both sums are finite |
| Film.Splat | rustracer-core/src/film.rs:307-308 | a splat adds the filter weight to the weight sum and keeps finite sums finite |
| Film.Ceil | rustracer-core/src/film.rs:334-336 | `ceil` is the least integer not below x |
| Film.Footprint | rustracer-core/src/film.rs:263-268 | a pixel is in the sample's footprint exactly when it lies within the filter radius of the sample's discrete position on both axes |
| Film.SampleBounds | rustracer-core/src/film.rs:270-272 | the visited pixels are exactly those of the footprint that are also in the tile |
| Film.SampleBoundsAsWritten | rustracer-core/src/film.rs:270-275 | the re-sorted bounds of the source always have ordered corners, so the assertion at line 275 cannot fail |
| Film.SampleBoundsAsWrittenLeavesTile | rustracer-core/src/film.rs:269-285 | for a footprint that misses a 5 × 5 tile, the source's bounds are not empty, lie outside the tile, and their first pixel (5, 2) is written to tile pixel (0, 3) |
| Film.FilterIndex | rustracer-core/src/film.rs:287-290 | the filter-table coordinate is below 16 |
| Film.FilterOffsets | rustracer-core/src/film.rs:284-298 | the precomputation gives one table coordinate per column (or row) of the visited range, in order |
| Film.FilmTile.constructor | rustracer-core/src/film.rs:242-254 | `FilmTile::new` keeps the bounds, radius and table copy, and allocates area() zeroed pixels |
| Film.FilmTile.GetPixelIndex | rustracer-core/src/film.rs:321-325 | for a pixel of the tile, the index is inside `pixels` and is that pixel's row-major position |
| Film.FilmTile.AddSample | rustracer-core/src/film.rs:256-311 | a colour with a NaN changes nothing; otherwise every tile pixel within the filter radius gains the colour times its table weight, and no other pixel changes |
| Film.FilmTile.SplatRow | rustracer-core/src/film.rs:302-309 | the inner loop adds the weighted colour to each pixel of one visited row and changes nothing else |
| Film.CroppedBounds | rustracer-core/src/film.rs:59-67 | the cropped bounds have sorted corners |
| Film.CroppedFullWindow | rustracer-core/src/film.rs:59-67 | the default crop window covers the full resolution |
| Film.CroppedInsideImage | rustracer-core/src/film.rs:59-67 | a crop window inside the unit square gives bounds inside the full image |
| Film.CropCoordBetween | rustracer-core/src/film.rs:60-67 | a corner coordinate for c in [0, 1] lies in [0, n], and is 0 for c = 0 and n for c = 1 |
| Film.CeilMono | rustracer-core/src/film.rs:60-67 | `ceil` is monotone |
| Film.FillFilterTable | rustracer-core/src/film.rs:75-85 | entry y·16 + x of the table is the filter at the centre of cell (x, y) |
| Film.Film.constructor | rustracer-core/src/film.rs:52-97 | `Film::new` stores the cropped bounds, area() zeroed pixels, the filter radius, the scale, the file name and the diagonal in metres |
| Film.Film.GetPixelIdx | rustracer-core/src/film.rs:224-230 | under the assertion that p is inside the cropped bounds, the index is inside `pixels` and is p's row-major position |
| Film.Film.MergeFilmTile | rustracer-core/src/film.rs:148-163 | every film pixel covered by the tile is merged with its tile pixel exactly once, and every other film pixel is unchanged |
| Film.Create | rustracer-core/src/film.rs:99-128 | the name defaults to "image.png" and is otherwise prefixed with "rt-"; the resolution defaults to 1280 × 720; a four-value crop window is ordered and clamped into [0, 1], any other length keeps the unit window; scale and diagonal default to 1 and 35 |
| Film.CropFromValues | rustracer-core/src/film.rs:110-114 | each crop axis is ordered and clamped into [0, 1]; ordered values inside [0, 1] are kept, and reversed ones are swapped |
| Renderer.TruncDiv | rustracer-core/src/renderer.rs:39-40 | i32 division truncates toward zero, so for a non-negative dividend it is floor division |
| Renderer.TileCount | rustracer-core/src/renderer.rs:38-41 | for a non-negative extent the tile count is the least number of blocks that reach it, 0 for an empty extent |
| Renderer.CeilDiv | rustracer-core/src/renderer.rs:39-40 | (e + b - 1) / b is the ceiling of e / b for e ≥ 0 |
| Renderer.AxisTile | rustracer-core/src/renderer.rs:87-90 | along one axis a tile's span is non-empty, and a coordinate is in it exactly when it is in [lo, hi) and its block is that tile |
| Renderer.TileContents | rustracer-core/src/renderer.rs:83-92 | every grid tile is a non-empty box inside the sample bounds, and holds exactly the sample-bounds pixels whose block is that tile |
| Renderer.TilesCover | rustracer-core/src/renderer.rs:38-92 | every pixel of the sample bounds lies in the tile of its block, which is a grid tile |
| Renderer.AxisInGrid | rustracer-core/src/renderer.rs:38-41 | a coordinate in [lo, hi) has a block below the tile count |
| Renderer.TilesDisjoint | rustracer-core/src/renderer.rs:87-92 | distinct grid tiles share no pixel |
| Renderer.SeedsDistinct | rustracer-core/src/renderer.rs:83-84 | distinct grid tiles reseed the sampler with distinct seeds |
| Renderer.TileOrderSeeds | rustracer-core/src/renderer.rs:43-83 | the tile iterator hands out n_tiles.x · n_tiles.y grid tiles, and the k-th one gets seed k |
| Renderer.SanitiseAsWritten | rustracer-core/src/renderer.rs:115-126 | the checks either keep the colour or replace it with black, and a colour with a NaN becomes black |
| Renderer.SanitiseAsWrittenPassesMixedInfinity | rustracer-core/src/renderer.rs:115-126 | a colour with +∞ and -∞ components passes all three checks unchanged although its luminance is NaN |
| Renderer.Sanitise | rustracer-core/src/renderer.rs:115-126 | the intended sanitising keeps the colour or gives black, always yields a finite colour with luminance at least -1e-5, and keeps every finite colour that passes the checks |
| Renderer.SanitiseDiffersOnlyOnNaN | rustracer-core/src/renderer.rs:115-126 | the intended and the as-written sanitising differ exactly on colours without NaN whose luminance is NaN |
| Renderer.SamplesPerPixel | rustracer-core/src/renderer.rs:107-131 | the loop tests after the first sample, so each pixel takes at least one sample and exactly spp when spp ≥ 1 |
| Renderer.PixelCalls | rustracer-core/src/renderer.rs:107-131 | a pixel's n samples produce n `add_sample` calls, the i-th carrying sample i's film position and its sanitised colour (corrected, see ## Findings: the sanitising that also rejects a NaN luminance) |
| Renderer.TileCallsInside | rustracer-core/src/renderer.rs:96-132 | every `add_sample` call of a tile is for a tile pixel inside `pixel_bounds` and carries a finite colour (corrected, see ## Findings: as written, the colour (+inf, -inf, 0) passes the checks unchanged) |
| Renderer.SamplePixel | rustracer-core/src/renderer.rs:107-131 | the sample loop makes exactly the pixel's calls, max(1, spp) of them, in order (corrected, see ## Findings: the sanitising that also rejects a NaN luminance) |
| Renderer.RenderTile | rustracer-core/src/renderer.rs:96-132 | `start_pixel` is called for every tile pixel in iterator order, and only pixels inside `pixel_bounds` are sampled (corrected, see ## Findings: the sanitising that also rejects a NaN luminance) |
| ParamSets.FirstMatch | rustracer-core/src/paramset.rs:22-36 | the search finds an item with the name and no earlier one has it, or finds none exactly when no item has the name |
| ParamSets.FindValues | rustracer-core/src/paramset.rs:33-45 | `find!` returns values exactly when some item has the name, and then the value list of the first such item |
| ParamSets.FindOneValue | rustracer-core/src/paramset.rs:19-31 | `find_one!` returns the default when no item has the name, and otherwise the first value of the first matching item |
| ParamSets.MarkLookedUp | rustracer-core/src/paramset.rs:24-40 | a search marks the first item with the name as looked up and changes nothing else |
| ParamSets.MarkPreservesFirstMatch | rustracer-core/src/paramset.rs:24-40 | marking changes no later search result, for any name |
| ParamSets.AppendShadowed | rustracer-core/src/paramset.rs:174-252 | `add_*` pushes a new item: a name already present keeps resolving to its earlier item, and a new name resolves to the pushed values |
| ParamSets.Chunks | rustracer-core/src/paramset.rs:93 | `chunks(k)` gives non-empty pieces of at most k values |
| ParamSets.FullChunks | rustracer-core/src/paramset.rs:93-94 | after the length filter every piece has exactly k values |
| ParamSets.FilterChunks | rustracer-core/src/paramset.rs:93-94 | filtering `chunks(k)` by length gives the consecutive full k-tuples |
| ParamSets.FilterFullAppend | rustracer-core/src/paramset.rs:94 | the length filter distributes over concatenation |
| ParamSets.FullChunksShape | rustracer-core/src/paramset.rs:93-94 | there are ⌊len / k⌋ full pieces, piece i being the k values from k·i; a trailing partial piece is dropped |
| ParamSets.FullChunkAt | rustracer-core/src/paramset.rs:93-94 | full piece i is the k values starting at k·i |
| ParamSets.Pairs | rustracer-core/src/paramset.rs:99-108 | a Point2 array gives one point per full pair of numbers |
| ParamSets.Triples | rustracer-core/src/paramset.rs:89-138 | an Rgb, Point3, Vector3 or Normal array gives one value per full triple of numbers |
| ParamSets.PairsShape | rustracer-core/src/paramset.rs:99-108 | a Point2 array of n numbers gives ⌊n / 2⌋ points, point i made of numbers 2i and 2i + 1 |
| ParamSets.TriplesShape | rustracer-core/src/paramset.rs:109-118 | a Point3 array of n numbers gives ⌊n / 3⌋ points, point i made of numbers 3i, 3i + 1 and 3i + 2 |
| ParamSets.Bools | rustracer-core/src/paramset.rs:65-73 | a bool entry keeps one value per string, true exactly for "true" |
| ParamSets.Ints | rustracer-core/src/paramset.rs:74-82 | an int entry keeps one value per number, each within i32 range |
| ParamSets.AddEntryExtends | rustracer-core/src/paramset.rs:63-161 | one entry pushes at most one item onto one list and changes nothing already there |
| ParamSets.AddEntriesExtends | rustracer-core/src/paramset.rs:62-163 | `init` only appends: items present before it stay at the front, so earlier entries keep shadowing later ones |
| ParamSets.AddPoint3Entry | rustracer-core/src/paramset.rs:222-228 | a Point3 entry adds one item of ⌊n / 3⌋ points under its name and touches no other list |
| ParamSets.ParamSet.constructor | rustracer-core/src/paramset.rs:47-59 | a default parameter set has every list empty |
| ParamSets.ParamSet.Init | rustracer-core/src/paramset.rs:62-163 | `init` pushes one item per entry, in order |
| ParamSets.ParamSet.FindOneInt | rustracer-core/src/paramset.rs:19-31 | `find_one_int` returns the first matching value or the default, and marks only the first match |
| ParamSets.ParamSet.FindOneBool | rustracer-core/src/paramset.rs:19-31 | `find_one_bool` returns the first matching value or the default, and marks only the first match |
| ParamSets.ParamSet.FindOneFloat | rustracer-core/src/paramset.rs:19-31 | `find_one_float` returns the first matching value or the default, and marks only the first match |
| ParamSets.ParamSet.FindOneString | rustracer-core/src/paramset.rs:19-31 | `find_one_string` returns the first matching value or the default, and marks only the first match |
| ParamSets.ParamSet.FindTexture | rustracer-core/src/paramset.rs:19-31 | `find_texture` returns the first matching texture name or the default, and marks only the first match |
| ParamSets.ParamSet.FindFloat | rustracer-core/src/paramset.rs:33-45 | `find_float` returns the first matching value list, if any, and marks only the first match |
| ParamSets.LayeredPrecedence | rustracer-core/src/paramset.rs:371-374 | a geometry value overrides the material's, which overrides the default |
| ParamSets.TextureName | rustracer-core/src/paramset.rs:428-431 | the texture name is the geometry's when not empty, and the material's otherwise; the material's item needs a value only when the geometry gives "" (ParamSets.TextureNameDefined) |
| ParamSets.TextureParams.constructor | rustracer-core/src/paramset.rs:357-369 | `new` keeps both parameter sets, which are distinct objects, and the float texture table |
| ParamSets.TextureParams.FindInt | rustracer-core/src/paramset.rs:371-374 | `find_int` gives the geometry's value over the material's over the default, and marks the first match of the name in each set's ints and nothing else |
| ParamSets.TextureParams.LookupTextureName | rustracer-core/src/paramset.rs:428-431 | the shared name lookup gives the layered texture name, marks the geometry's first texture match, and marks the material's only when the geometry gives no name; only the texture items actually read need a value |
| ParamSets.TextureParams.FirstFloat | rustracer-core/src/paramset.rs:459-461 | the float list is the geometry's when it has one, and the material's otherwise; the material's floats are searched, and marked, only when the geometry has none |
| ParamSets.TextureParams.GetFloatTexture | rustracer-core/src/paramset.rs:427-443 | a registered named texture is returned; otherwise (an unknown name only logs) a constant texture of the layered float lookup. The texture lookups are marked as in the name lookup, and both float lists are marked exactly when the constant is made; the float items need a value only on that constant path |
| ParamSets.TextureParams.GetFloatTextureOrNone | rustracer-core/src/paramset.rs:445-466 | `get_float_texture_or_none` returns `FloatTextureOrNone` of the lists before the call; the texture lookups are marked as in the name lookup, and the float lists only when no texture name is given, the material's only when the geometry has no float; only the first float list found without a texture name needs a value for `val[0]` (ParamSets.FloatTextureOrNoneDefined) |
| ParamSets.FloatTextureOrNoneCases | rustracer-core/src/paramset.rs:445-466 | an unregistered texture name gives None and a registered one its texture; without a name a constant exists exactly when either set has the float, and the geometry's first value wins |
| SceneApi.VerifyUninitialized | rustracer-core/src/api.rs:57-62 | `verify_uninitialized` succeeds exactly before `init` |
| SceneApi.VerifyInitialized | rustracer-core/src/api.rs:64-69 | the state test succeeds exactly after `init` |
| SceneApi.VerifyOptions | rustracer-core/src/api.rs:71-77 | the state test succeeds exactly in the options block, and before `init` it fails with the initialisation error |
| SceneApi.VerifyWorld | rustracer-core/src/api.rs:79-85 | the state test succeeds exactly in the world block, and before `init` it fails with the initialisation error |
| SceneApi.MakeMaterial | rustracer-core/src/api.rs:1141-1183 | a known kind gives that basic material, "mix" gives a mix whose two parts are each a named material or matte, and any other name gives matte |
| SceneApi.MakeMaterialKnown | rustracer-core/src/api.rs:1141-1183 | a known kind gives that material, an unknown name other than "mix" gives matte, and with known named materials the result is always a known material |
| SceneApi.CreateMaterial | rustracer-core/src/api.rs:318-340 | a defined current named material is used as is, an undefined one gives matte, and otherwise the current material is made; with known named materials the result is known |
| SceneApi.MakeMaterialKnownIf | rustracer-core/src/api.rs:1141-1183 | when every named material is known, `make_material` yields a known material |
| SceneApi.MakeAccelerator | rustracer-core/src/api.rs:263-276 | "bvh" and every other name except "kdtree" build a BVH over the given primitives |
| SceneApi.MakeLight | rustracer-core/src/api.rs:494-513 | a light is made exactly for "point", "distant" and "infinite", with the given transform and parameters, and is not an area light |
| SceneApi.MakeAreaLight | rustracer-core/src/api.rs:1185-1199 | an area light is made exactly for "area" and "diffuse", as a diffuse area light on the shape |
| SceneApi.ShapePrims | rustracer-core/src/api.rs:930-963 | each shape gives one primitive, and one area light when an area light is current; an unknown area light name fails the call; without an area light none is made |
| SceneApi.RenderSetup | rustracer-core/src/api.rs:181-246 | `world_end`'s construction succeeds exactly for a known filter, the "image" film, the "perspective" camera, a known integrator and a known sampler |
| SceneApi.DefaultSamplerRejected | rustracer-core/src/api.rs:205-287 | the default options, with sampler "halton", fail at `world_end`, and the same options with "lowdiscrepancy" succeed |
| SceneApi.RealApi.constructor | rustracer-core/src/api.rs:358-368 | a new API starts uninitialised with the default graphics state, transform and options |
| SceneApi.RealApi.Init | rustracer-core/src/api.rs:517-524 | `init` succeeds exactly before initialisation and enters the options block; on failure nothing changes |
| SceneApi.RealApi.IdentityCall | rustracer-core/src/api.rs:526-532 | `identity` resets the current transform after `init`; on failure nothing changes |
| SceneApi.RealApi.ApplyTransform | rustracer-core/src/api.rs:534-648 | `translate`, `rotate`, `scale`, `concat_transform` and `look_at` post-multiply the current transform after `init`; on failure nothing changes |
| SceneApi.RealApi.SetTransform | rustracer-core/src/api.rs:594-624 | `transform` replaces the current transform after `init`; on failure nothing changes |
| SceneApi.RealApi.CoordinateSystem | rustracer-core/src/api.rs:650-659 | `coordinate_system` records the current transform under the name |
| SceneApi.RealApi.CoordSysTransform | rustracer-core/src/api.rs:661-673 | `coord_sys_transform` restores a named transform; an unknown name changes nothing |
| SceneApi.RealApi.SetOption | rustracer-core/src/api.rs:675-718 | the five option setters record the name and parameters of their own component, only in the options block |
| SceneApi.RealApi.Camera | rustracer-core/src/api.rs:720-730 | `camera` records the camera choice and the inverse of the current transform as camera-to-world and as the "camera" system |
| SceneApi.RealApi.WorldBegin | rustracer-core/src/api.rs:732-743 | `world_begin` enters the world block, records the current transform as "world" and resets it |
| SceneApi.RealApi.AttributeBegin | rustracer-core/src/api.rs:745-753 | `attribute_begin` pushes the graphics state and the transform |
| SceneApi.RealApi.AttributeEnd | rustracer-core/src/api.rs:755-767 | `attribute_end` pops and restores both stacks; an unmatched call changes nothing |
| SceneApi.RealApi.TransformBegin | rustracer-core/src/api.rs:769-776 | `transform_begin` pushes the current transform |
| SceneApi.RealApi.TransformEnd | rustracer-core/src/api.rs:778-789 | `transform_end` pops and restores the transform; an unmatched call changes nothing |
| SceneApi.RealApi.Texture | rustracer-core/src/api.rs:791-847 | `texture` defines a float or colour texture of a known kind under the name; an unknown kind or type changes nothing; outside the world block it fails and changes nothing, whatever the kind |
| SceneApi.RealApi.MakeNamedMaterial | rustracer-core/src/api.rs:849-877 | `make_named_material` fails exactly when "type" is empty, and otherwise defines the made material under the name |
| SceneApi.RealApi.MaterialCall | rustracer-core/src/api.rs:879-886 | `material` sets the current material and its parameters and clears the current named material |
| SceneApi.RealApi.NamedMaterial | rustracer-core/src/api.rs:888-894 | `named_material` selects the named material in the world block |
| SceneApi.RealApi.LightSource | rustracer-core/src/api.rs:896-903 | `lightsource` succeeds exactly in the world block for a known light, and appends it made with the current transform |
| SceneApi.RealApi.AreaLightSource | rustracer-core/src/api.rs:905-911 | `arealightsource` sets the current area light and its parameters |
| SceneApi.RealApi.Shape | rustracer-core/src/api.rs:913-966 | in the world block `shape` succeeds exactly when every area light it needs can be made (always, with no area light current), and adds the primitives to the open instance, or else to the scene together with their area lights; outside the world block it fails and changes nothing, whatever the shape name |
| SceneApi.RealApi.ReverseOrientation | rustracer-core/src/api.rs:968-975 | `reverse_orientation` flips the orientation flag |
| SceneApi.RealApi.DrainStacks | rustracer-core/src/api.rs:981-989 | the drain empties both stacks and changes nothing else |
| SceneApi.RealApi.WorldEnd | rustracer-core/src/api.rs:977-1017 | `world_end` drains both stacks and reports the outcome of building the camera, integrator and sampler; only a call that gets past all three must not name the unimplemented "kdtree" accelerator |
| SceneApi.RealApi.ObjectBegin | rustracer-core/src/api.rs:1019-1034 | `object_begin` pushes the attributes, then opens a new empty instance, or fails inside an open instance |
| SceneApi.RealApi.ObjectEnd | rustracer-core/src/api.rs:1036-1051 | `object_end` closes the open instance and pops the attributes; with no instance open it fails and changes nothing |
| SceneApi.RealApi.ObjectInstance | rustracer-core/src/api.rs:1053-1090 | `object_instance` succeeds exactly outside an instance for a defined name, and adds the instance under the current transform, several primitives under one accelerator; only that last case reaches `make_accelerator`, so only it must not name "kdtree" |
| SceneApi.WithOption | rustracer-core/src/api.rs:675-718 | an option setter changes only its own component of the options |
| SceneApi.WithTexture | rustracer-core/src/api.rs:791-847 | `texture` changes only the table of its type, and only for a known kind |
| Stats.AddTo | rustracer-core/src/stats.rs:19-27 | after a report the name has a counter equal to its old value (0 when absent) plus the value, and every other counter is unchanged |
| Stats.AddFraction | rustracer-core/src/stats.rs:61-73 | a percentage or ratio report adds to the name's numerator and denominator, starting from (0, 0), and leaves other names alone |
| Stats.AccumulateSums | rustracer-core/src/stats.rs:19-22 | starting from no counters, a name has a counter exactly when it was reported, and the counter is the sum of its reports |
| Stats.MergeDist | rustracer-core/src/stats.rs:29-59 | the first report sets all four totals; later ones add sums and counts, and keep the least minimum and the greatest maximum |
| Stats.DistOf | rustracer-core/src/stats.rs:118-124 | a name has a distribution exactly when all four maps hold it |
| Stats.DistAfterBounds | rustracer-core/src/stats.rs:29-59 | after any sequence of reports, a name has a distribution exactly when it was reported, and its minimum and maximum are the least and greatest reported |
| Stats.FirstSlash | rustracer-core/src/stats.rs:179 | the result is the position of the first '/' |
| Stats.Split | rustracer-core/src/stats.rs:179 | `split('/')` gives at least one piece, no piece holds a '/', and joining the pieces with '/' restores the string |
| Stats.SplitJoin | rustracer-core/src/stats.rs:179 | splitting undoes joining pieces that hold no '/' |
| Stats.CategoryAndTitle | rustracer-core/src/stats.rs:178-181 | a name without '/' has no category and is its own title; otherwise the category is the text before the first '/' and the title the next piece |
| Stats.SplitHead | rustracer-core/src/stats.rs:179-180 | a name with a '/' splits into at least two pieces, the first being the text before the first '/' |
| Stats.UnitFor | rustracer-core/src/stats.rs:95-115 | a size is printed in kiB below 1024 kiB, in GiB from 1024 MiB on, and in MiB in between |
| Stats.StatAccumulator.constructor | rustracer-core/src/stats.rs:7-16 | a new accumulator has all eight maps empty |
| Stats.StatAccumulator.DistributionOf | rustracer-core/src/stats.rs:118-124 | a name has a recorded distribution exactly when it has a sum |
| Stats.StatAccumulator.ReportCounter | rustracer-core/src/stats.rs:19-22 | `report_counter` adds the value to the name's counter and changes no other map |
| Stats.StatAccumulator.ReportMemoryCounter | rustracer-core/src/stats.rs:24-27 | `report_memory_counter` adds the value to the name's memory counter and changes no other map |
| Stats.StatAccumulator.ReportIntDistribution | rustracer-core/src/stats.rs:29-59 | `report_int_distribution` merges the report into the name's distribution, and changes no other name and no other map |
| Stats.StatAccumulator.ReportPercentage | rustracer-core/src/stats.rs:61-67 | `report_percentage` adds to the name's fraction and changes no other map |
| Stats.StatAccumulator.ReportRatio | rustracer-core/src/stats.rs:69-73 | `report_ratio` adds to the name's fraction and changes no other map |
| Stats.CounterLines | rustracer-core/src/stats.rs:79-88 | every nonzero counter gets a line in its category, and every line comes from a nonzero counter |
| Stats.MemoryLines | rustracer-core/src/stats.rs:90-116 | every nonzero memory counter gets a line in its category, in the unit its size calls for, and only those |
| Stats.DistributionLines | rustracer-core/src/stats.rs:118-136 | every distribution with a nonzero count gets a line with its average and range, and only those |
| Stats.FractionLines | rustracer-core/src/stats.rs:138-168 | every percentage or ratio with a nonzero denominator gets a line, and only those |
| Mesh.NewMesh | rustracer-core/src/shapes/mesh.rs:36-53 | `TriangleMesh::new` takes every position to world space, one for one, and keeps the indices, normals, tangents and uvs as given |
| Mesh.NewTriangle | rustracer-core/src/shapes/mesh.rs:140-148 | triangle `tri` shares the mesh and starts at index 3·tri |
| Mesh.V | rustracer-core/src/shapes/mesh.rs:151-153 | `v(k)` is the index stored k slots after the triangle's start |
| Mesh.TriangleSlots | rustracer-core/src/shapes/mesh.rs:140-153 | triangle i reads index slots 3i, 3i + 1 and 3i + 2, so distinct triangles share no slot |
| Mesh.GetUvs | rustracer-core/src/shapes/mesh.rs:155-163 | without a uv array the uvs are (0, 0), (1, 0), (1, 1); otherwise they are the uvs of the triangle's three vertices |
| Mesh.WorldBounds | rustracer-core/src/shapes/mesh.rs:482-487 | the world bounds hold the three vertices, and every box that holds them encloses the bounds |
| Mesh.CreateTriangleMesh | rustracer-core/src/shapes/mesh.rs:524-543 | one triangle per complete group of three indices, triangle i starting at 3i, all sharing one mesh; trailing indices are ignored |
| Mesh.AsUsize | rustracer-core/src/shapes/mesh.rs:66 | `i as usize` keeps a non-negative index and wraps a negative i32 to 2^64 + i |
| Mesh.FindUvs | rustracer-core/src/shapes/mesh.rs:69-81 | "uv" points win over "st" points, which win over the floats; from the floats ("uv" over "st") uv i is the pair of floats 2i and 2i + 1, half as many uvs as floats; there are no uvs exactly when none of the four is present |
| Mesh.MatchingLength | rustracer-core/src/shapes/mesh.rs:98-114 | an "S" or "N" array is kept exactly when it has one entry per position |
| Mesh.MeshFromParams | rustracer-core/src/shapes/mesh.rs:62-125 | no mesh exactly when "indices" or "P" is missing or empty; otherwise index i is `indices[i] as usize`, position i is "P"[i] taken to world space, "N" and "S" are kept exactly when they have one entry per position, and the uvs are `FindUvs` |
| Mesh.Create | rustracer-core/src/shapes/mesh.rs:56-128 | `create` gives no shapes without indices or positions, and otherwise one triangle per three indices over the mesh built from the parameters |
| PlyMesh.FaceIndices | rustracer-core/src/shapes/plymesh.rs:106-125 | a triangle contributes its three indices, a quad [a, b, c, d] the triangles (a, b, c) and (d, a, c), and any other face nothing |
| PlyMesh.FlattenLength | rustracer-core/src/shapes/plymesh.rs:104-127 | the index list has three entries per triangle face and six per quad face |
| PlyMesh.FlattenAppend | rustracer-core/src/shapes/plymesh.rs:104-127 | faces contribute in order: flattening distributes over concatenation |
| PlyMesh.FlattenWholeTriangles | rustracer-core/src/shapes/plymesh.rs:104-127 | the index list is a whole number of triangles |
| PlyMesh.ScanHeader | rustracer-core/src/shapes/plymesh.rs:35-70 | the scan fails exactly when a vertex element lacks a coordinate; a set flag or a nonzero count comes from a vertex or face element that declares it |
| PlyMesh.ScanHeaderLoop | rustracer-core/src/shapes/plymesh.rs:35-70 | the header loop, with its early return, computes the scan |
| PlyMesh.ScanPrefixNone | rustracer-core/src/shapes/plymesh.rs:42-51 | once a prefix of the header fails, the whole header fails |
| PlyMesh.CollectAttributes | rustracer-core/src/shapes/plymesh.rs:129-141 | every position is collected, and the normals and uvs of all vertices exactly when the header declared them |
| PlyMesh.Create | rustracer-core/src/shapes/plymesh.rs:18-178 | no shapes when the header fails or has no vertices or faces; otherwise one triangle per three flattened face indices, all sharing one mesh whose position j is vertex j's position taken to world space, and whose normals and uvs, present exactly when declared, are those of the vertices |

## Left out

Across the model:
- Floating point. `real` stands for `f32` wherever a value is only a key, a weight or a coordinate. Rounding, `f32` overflow and `log2` are not modelled. Only the sample-sanitising and NaN-guard paths carry NaN and infinities, through the `F32` datatype.
- Concurrency. The worker threads, the tile-iterator Mutex, the film pixel Mutex, the light-id Mutex, the `AtomicFloat`s, and the atomics and spin-waiting of the light-distribution table all become sequential updates of plain fields.
- Loops without a decreases measure. The rejection loop of `uniform_u32_bounded` and the probe loop of `SpatialLightDistribution::lookup` take a `fuel` bound, and the shuffles pass fuel through to the bounded draw. Running out of fuel is reported as `None` or as no change; an unbounded run is not modelled.
- Panics the source would hit become preconditions: out-of-range indices, `assert!`s, `unimplemented!()` and `unwrap` on `None`.

By file:
- Legacy copies superseded by the rustracer-core versions are not modelled. Three divergences in them:
  - src/rng.rs:23 multiplies the state without wrapping, so a debug build panics on overflow.
  - src/mipmap.rs:112 takes `log2` twice when counting the levels.
  - src/bounds.rs:51 takes the z of `corner` from `.y`.
- src/sampling/distribution1d.rs and src/sampling/distribution2d.rs are not part of this model. The first indexes an empty `Vec` and the second pushes to immutable `Vec`s.
- lib.rs:
  - Util.IsPowerOf2 and Util.RoundUpPow2 are the bit-level forms of `is_power_of_2` and `round_up_pow_2`.
  - MipMap uses arithmetic forms of the same two functions, and the model does not prove the two forms equal.
  - Util.IsPowerOf2 computes `v - 1` with wrap-around, as a release build does: for `i32::MIN` it answers true, where a debug build panics on the overflow at lib.rs:211.
- bounds.rs:
  - Bounds.Area2 computes the area exactly: a difference or product beyond the `i32` range, which overflows at bounds.rs:336-338 (a panic in a debug build), is not modelled.
- bvh/mod.rs:
  - Primitive bounds and centroids are inputs, and the ray-box slab test is a parameter of the traversal.
  - `intersect` and `intersect_p` of the primitives are parameters.
  - The `stat_*` counters of the build are not modelled.
- Bsdf:
  - The shading maths of each lobe (its `f`, sampled direction and pdf) is a parameter. Only the flag, hemisphere, holder and averaging logic is modelled.
  - A ninth `add` to a `BxDFHolder` is a precondition.
- Light:
  - Light.IdCounter.GetNextId requires the counter to stay below 2^32, so it does not model the wrap of the `u32`.
  - `sample_li`, `pdf_li`, `power` and the `Light` implementations are not modelled.
- Rng:
  - `uniform_f32` and the float output are not modelled.
  - Rng.UniformU32Bounded takes b > 0 as a precondition. With b = 0 the source's `!b + 1` overflows.
- lowdiscrepancy.rs:
  - The RNG draws are an `RNG` object passed in, and the uniformity of the shuffle is not modelled.
  - LowDiscrepancy.SwapBlocks models swapping two groups position by position, as the loop over `n_dimensions` does.
  - The float conversion of `radical_inverse` is exact real arithmetic.
  - RadicalInverse.RadicalInverseSpecialized works on unbounded naturals: the `u64` overflow of `reversed_digits * base + digit` at lowdiscrepancy.rs:86, which an `a` close to 2^64 can reach, is not modelled.
- distribution1d.rs:
  - `count()`, `sample_continuous`'s `du` and the pdf's division are exact real arithmetic.
  - The float-equality test against 0 is a test on reals.
- lightdistrib.rs:
  - UniformLightDistribution is not modelled.
  - The scene bounds and the per-voxel light contributions of `compute_distribution` are parameters (`contrib`). The sampling of lights inside a voxel is left out.
- mipmap.rs:
  - `lookup`, `lookup_diff` and EWA filtering are not modelled.
  - The Lanczos kernel of `resample_weights` is a parameter.
  - The memory statistic is not modelled.
- imagemap.rs:
  - Reading the image is the `readOk` parameter with the decoded pixels.
  - Gamma correction and scaling are not modelled.
  - The texture mapping is not modelled, and the non-uv mappings are `unimplemented!()` in the source.
  - The float image texture's `create` mirrors the spectrum one and is not modelled.
  - `dump_mipmap` is not modelled.
  - ImageMap.FileName follows the Unix rules of `Path::file_name`; Windows separators and prefixes are not modelled.
- noise.rs:
  - `fbm` and `turbulence` are not modelled.
  - The `f32` floor-and-cast to `i32` is the exact floor.
- film.rs:
  - `get_film_tile` and `get_sample_bounds` are modelled through `SampleBounds` and the tile bounds only.
  - The filter's `evaluate` is a function parameter, and the filter table holds its values as reals.
  - `write_image` is I/O and is not modelled.
- renderer.rs:
  - The threads and the progress bar are not modelled.
  - Camera ray generation and the integrator are not modelled. The radiance of each sample is a parameter.
- paramset.rs:
  - The other `find_*` and `find_one_*` lookups and the other `TextureParams::find_*` have the same shape as the ones modelled.
  - `get_spectrum_texture` mirrors the float texture lookup.
  - `find_one_filename`, `resolve_filename` and SPD files are path and file I/O.
  - Blackbody spectra are not modelled.
  - Vector2 and Xyz entries only log in the source.
  - ParamSets.TextureParams.constructor requires its two parameter sets to be distinct objects, as they are at every construction site (api.rs:319, 799, 819, 855); the lookups rely on it.
  - ParamSets.FindOneDefined is a precondition that a found item has at least one value, where `values[0]` would panic. The `TextureParams` lookups demand it only of the items they read on the path taken (ParamSets.TextureNameDefined, ParamSets.FloatTextureOrNoneDefined); `find_int` reads both sets' items.
- api.rs:
  - Transforms are symbolic: a matrix product becomes a list of operations.
  - Shape, light, material and texture kinds and their parameters are kept as names and parameter lists. The objects are not constructed.
  - Rendering at the end of `world_end` is not modelled.
  - Log output is not modelled.
  - The `RefCell` around the state is not modelled.
  - The panics for the unimplemented kd-tree, the unimplemented colour textures ("bilerp", "dots", "wrinkled", "marble", "windy", "ptex") and the unimplemented shapes ("cone", "paraboloid", "hyperboloid", "curve") become preconditions, each only on the world-block path that reaches it: outside the world block `shape` (api.rs:916) and `texture` (api.rs:794) return Err first.
  - The parameter lookups made here are pure functions, so the `looked_up` marks they set are not modelled.
- stats.rs:
  - The `u64` counters are unbounded naturals, so overflow is not modelled.
  - The global and thread-local storage and the `stat_*` macros are not modelled.
  - Number formatting and the `f64` percentages are not modelled.
  - A `HashMap`'s iteration order is modelled as a set of lines.
- mesh.rs:
  - The object-to-world transform is a function parameter.
  - `intersect`, `intersect_p`, `area`, `sample` and `object_bounds` are floating point and are not modelled.
  - `world_to_object` and `transform_swaps_handedness` are not modelled.
  - The alpha masks are not modelled.
  - A vertex index beyond the positions, normals or uvs would panic in the source and is a precondition.
  - Mesh.MeshFromParams, Mesh.FindUvs and Mesh.Create read the parameter lists as pure values, so the `looked_up` marks that the `find_*` calls of `TriangleMesh::create` set (mesh.rs:62-114) are not modelled.
  - An odd number of "uv" or "st" floats, read only when there are no "uv" or "st" points, panics on `s[1]` and is a precondition (Mesh.UvsDefined).
- plymesh.rs:
  - Reading the file and decoding the payload through `ply_rs` is I/O: the header elements, the vertices and the faces are parameters.
  - The alpha and shadowalpha textures (plymesh.rs:143-165) are not modelled.
  - `create_triangle_mesh` is called with the alpha masks, which is a newer signature than mesh.rs has. The model calls the mesh.rs form.
  - An element other than vertex or face, which panics at plymesh.rs:100, is a precondition only once the header has passed the coordinate check (plymesh.rs:42-51) and has vertices and faces (plymesh.rs:72-77); a header failing either returns no shapes first.
  - The "filename" lookup (plymesh.rs:25) is outside this model, so the `looked_up` mark it sets is not modelled.
  - The header's elements are a sequence in file order.
- src/sampler/zerotwosequence.rs:
  - The precomputed sample values and the RNG draws for dimensions past the precomputed ones are parameters.
  - `get_camera_sample`, `reseed` and `box_clone` are not modelled.
  - Negative casts are a precondition.
- src/block_queue.rs:
  - The `usize` counter is unbounded, so its wrap is not modelled.
  - The atomic `fetch_add` is a sequential increment.
  - `report_progress` is not modelled.
  - Blocks of size 0 and `block_size` 0 are preconditions.
- src/blockedarray.rs:
  - The cell type `T` and its zero are parameters.
  - `block_size()` and `log_block_size` are the constants.
  - `>> 3` and `& 7` are `/ 8` and `% 8`.
- src/sampling/mod.rs:
  - The random scramble from `thread_rng` is a parameter.
  - The `f32` sum in `zero_two_sequence` is real addition.
  - The top 24 bits scaled by 2^-24 are exact.
  - `as u32` is reduction modulo 2^32.
  - Samples outside the array are a precondition.

## Findings

| source | as written | input that shows it | evidently intended | confidence | as-written member | corrected member |
|---|---|---|---|---|---|---|
| rustracer-core/src/bvh/mod.rs:176-179 | the Middle split sets `mid = start + count + start`, adding `start` twice | centroids at x = 0, 1, 10, 11: the right child [2, 4) partitions one primitive below the midpoint, so mid = 2 + 1 + 2 = 5 > end = 4 | `mid = start + count`, so that start <= mid <= end | high, not executed | BvhSplit.MiddleMidAsWritten (BvhSplit.MiddleMidAsWrittenOverruns) | BvhSplit.MiddleMid |
| rustracer-core/src/rng.rs:33 | the rejection threshold is `(!b + 1) & b`, the lowest set bit of b | b = 6: the threshold is 2, but 2^32 mod 6 = 4, so residues 0..3 are drawn more often | `(!b + 1) % b`, that is 2^32 mod b, as in PCG32 | high, not executed | Rng.ThresholdAsWritten (Rng.ThresholdAsWrittenBiased) | Rng.Threshold (Rng.ThresholdUnbiased) |
| rustracer-core/src/lightdistrib.rs:173-175 | the hash mixing uses plain `*=` on `u64` | voxel (0, 0, 1), packed key 1: the second product overflows, which panics in a debug build | `wrapping_mul`, as the mixing function needs | high, not executed | LightDistrib.MixChecked (LightDistrib.MixCheckedOverflows) | LightDistrib.Mix (LightDistrib.HashOf) |
| rustracer-core/src/film.rs:269-285 | the footprint's intersection with the tile is converted back with `Bounds2i::from`, which re-sorts the corners of an empty intersection into a non-empty box | pFilm (10.5, 2.5), radius 0.5, tile [0, 5) × [0, 5): the footprint [10, 11) × [2, 3) misses the tile, the bounds become [5, 10) × [2, 3), and pixel (5, 2) is added into tile pixel (0, 3) | an empty intersection stays empty, so a sample whose footprint misses the tile changes nothing | medium, not executed | Film.SampleBoundsAsWritten (Film.SampleBoundsAsWrittenLeavesTile) | Film.SampleBounds (Film.FilmTile.AddSample) |
| rustracer-core/src/renderer.rs:115-126 | the sample checks test NaN, a luminance below -1e-5 and an infinite luminance | the colour (+inf, -inf, 0) has no NaN component, and its luminance is NaN, which is neither below -1e-5 nor infinite, so it passes | a sample with a NaN luminance is replaced by black as well | medium, not executed | Renderer.SanitiseAsWritten (Renderer.SanitiseAsWrittenPassesMixedInfinity) | Renderer.Sanitise (Renderer.SanitiseDiffersOnlyOnNaN) |
| src/blockedarray.rs:25-30 | `new` allocates u_res · v_res cells, but `index` addresses whole 8 × 8 blocks, with u_blocks = next_power_of_two(u_res) >> 3 | 12 × 12: (11, 11) goes to offset 219 >= 144; 1 × 9: u_blocks is 0, so (0, 0) and (0, 8) share a cell | the resolutions rounded up to whole blocks, so that every in-range cell has its own slot | high, not executed | BlockedArray.New (BlockedArray.AsWrittenIndexOverruns, BlockedArray.AsWrittenCellsCollide) | BlockedArray.NewPadded (BlockedArray.PaddedIndexSound) |
