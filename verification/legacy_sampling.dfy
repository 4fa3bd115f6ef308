/** The legacy (0,2)-sequence sampler (src/sampling/mod.rs): the first
  * coordinate is the scrambled van der Corput radical inverse, computed by
  * bit reversal, and the second the scrambled Sobol' coordinate, computed
  * one bit of the index at a time. Both keep the top 24 bits of the word,
  * which an `f32` holds exactly, so the fractions below are exact. The
  * scramble words, drawn from the thread's RNG, are parameters. */
module LegacySampling {
  import opened BitReverse
  import GrayCode
  import Rng

  /** `(bits >> 8) as f32 / 0x1000000 as f32`: the top 24 bits as a fraction
    * of 2^24. */
  function Top24(bits: bv32): (r: real)
    ensures 0.0 <= r < 1.0
  {
    ((bits >> 8) as bv24) as int as real / 16777216.0
  }

  // ---------------------------------------------------------------------------
  // van der Corput
  // ---------------------------------------------------------------------------

  /** The word of `van_der_corput`: `n` bit-reversed, XOR the scramble. */
  function VanDerCorputBits(n: bv32, scramble: bv32): bv32
  {
    ReverseBits32(n) ^ scramble
  }

  /** XORing the same word twice cancels. */
  lemma XorCancel(a: bv32, b: bv32)
    ensures (a ^ b) ^ b == a
  {
  }

  /** The index comes back from the word: XOR the scramble away and reverse
    * the bits again. So distinct indices give distinct words under one
    * scramble. */
  lemma VanDerCorputBitsInverse(n: bv32, scramble: bv32)
    ensures ReverseBits32(VanDerCorputBits(n, scramble) ^ scramble) == n
  {
    XorCancel(ReverseBits32(n), scramble);
    ReverseBits32Involution(n);
  }

  /** `van_der_corput(n, scramble)`, for a `u32` index. */
  function VanDerCorput(n: nat, scramble: bv32): (r: real)
    requires n < Rng.U32_RANGE
    ensures 0.0 <= r < 1.0
  {
    Top24(VanDerCorputBits(n as bv32, scramble))
  }

  // ---------------------------------------------------------------------------
  // Sobol'
  // ---------------------------------------------------------------------------

  /** One update of the loop's word: `v ^= v >> 1`. */
  function Halve(v: bv32): bv32
  {
    v ^ (v >> 1)
  }

  /** The word `v` after `k` steps of the `sobol` loop: 1 << 31, then one
    * update per step. */
  function SobolColumn(k: nat): bv32
  {
    if k == 0 then 0x8000_0000 else Halve(SobolColumn(k - 1))
  }

  /** What the `sobol` loop returns from index `i`, word `v` and accumulator
    * `acc`: each step XORs the word in when the lowest digit is one, then
    * halves the index and updates the word. */
  function SobolLoop(i: nat, v: bv32, acc: bv32): bv32
    decreases i
  {
    if i == 0 then acc else SobolLoop(i / 2, Halve(v), if i % 2 == 1 then acc ^ v else acc)
  }

  /** The XOR of the words v, Halve(v), Halve(Halve(v)), … picked by the
    * binary digits of `i`, lowest digit first. */
  function SobolSum(i: nat, v: bv32): bv32
    decreases i
  {
    if i == 0 then 0
    else if i % 2 == 1 then v ^ SobolSum(i / 2, Halve(v))
    else SobolSum(i / 2, Halve(v))
  }

  /** The generator matrix applied to the index: the XOR of column k for
    * every one digit k of `i`, starting the count at `k`. */
  function MatrixSum(i: nat, k: nat): bv32
    decreases i
  {
    if i == 0 then 0
    else if i % 2 == 1 then SobolColumn(k) ^ MatrixSum(i / 2, k + 1)
    else MatrixSum(i / 2, k + 1)
  }

  /** The scrambled Sobol' word of index `i`: the scramble XOR the generator
    * matrix times the index. */
  function SobolBits(i: nat, scramble: bv32): bv32
  {
    scramble ^ MatrixSum(i, 0)
  }

  lemma XorAssoc(a: bv32, b: bv32, c: bv32)
    ensures (a ^ b) ^ c == a ^ (b ^ c)
  {
  }

  lemma XorZero(a: bv32)
    ensures a ^ 0 == a
  {
  }

  /** One odd digit off the bottom of the index, for the loop and the sum. */
  lemma OddUnfold(i: nat, v: bv32, acc: bv32, h: nat, w: bv32)
    requires i % 2 == 1 && h == i / 2 && w == Halve(v)
    ensures SobolLoop(i, v, acc) == SobolLoop(h, w, acc ^ v)
    ensures SobolSum(i, v) == v ^ SobolSum(h, w)
  {
  }

  /** One even digit off the bottom of a positive index. */
  lemma EvenUnfold(i: nat, v: bv32, acc: bv32, h: nat, w: bv32)
    requires i > 0 && i % 2 == 0 && h == i / 2 && w == Halve(v)
    ensures SobolLoop(i, v, acc) == SobolLoop(h, w, acc)
    ensures SobolSum(i, v) == SobolSum(h, w)
  {
  }

  /** The loop adds to its accumulator exactly the XOR of the words the
    * digits pick. */
  lemma {:induction false} LoopIsSum(i: nat, v: bv32, acc: bv32)
    ensures SobolLoop(i, v, acc) == acc ^ SobolSum(i, v)
    decreases i
  {
    if i == 0 {
      XorZero(acc);
    } else if i % 2 == 1 {
      OddUnfold(i, v, acc, i / 2, Halve(v));
      LoopIsSum(i / 2, Halve(v), acc ^ v);
      XorAssoc(acc, v, SobolSum(i / 2, Halve(v)));
    } else {
      EvenUnfold(i, v, acc, i / 2, Halve(v));
      LoopIsSum(i / 2, Halve(v), acc);
    }
  }

  lemma ColumnNext(k: nat)
    ensures SobolColumn(k + 1) == Halve(SobolColumn(k))
  {
  }

  /** One digit off the bottom of the index, for the matrix sum. */
  lemma MatrixUnfold(i: nat, k: nat, h: nat, k1: nat)
    requires i > 0 && h == i / 2 && k1 == k + 1
    ensures i % 2 == 1 ==> MatrixSum(i, k) == SobolColumn(k) ^ MatrixSum(h, k1)
    ensures i % 2 == 0 ==> MatrixSum(i, k) == MatrixSum(h, k1)
  {
  }

  /** Starting from column k, the words the loop walks are the matrix's
    * columns from k on. */
  lemma {:induction false} SobolSumIsMatrixSum(i: nat, k: nat)
    ensures SobolSum(i, SobolColumn(k)) == MatrixSum(i, k)
    decreases i
  {
    if i > 0 {
      SobolSumIsMatrixSum(i / 2, k + 1);
      MatrixStep(i, k, i / 2, k + 1);
    }
  }

  /** The induction step: agreement on the rest of the digits gives
    * agreement on the whole index. */
  lemma MatrixStep(i: nat, k: nat, h: nat, k1: nat)
    requires i > 0 && h == i / 2 && k1 == k + 1
    requires SobolSum(h, SobolColumn(k1)) == MatrixSum(h, k1)
    ensures SobolSum(i, SobolColumn(k)) == MatrixSum(i, k)
  {
    ColumnNext(k);
    MatrixUnfold(i, k, h, k1);
    if i % 2 == 1 {
      OddUnfold(i, SobolColumn(k), 0, h, SobolColumn(k1));
    } else {
      EvenUnfold(i, SobolColumn(k), 0, h, SobolColumn(k1));
    }
  }

  /** From the first column and the scramble, the loop computes the
    * scramble XOR the generator matrix times the index. */
  lemma LoopIsMatrix(i: nat, scramble: bv32)
    ensures SobolLoop(i, 0x8000_0000, scramble) == SobolBits(i, scramble)
  {
    LoopIsSum(i, 0x8000_0000, scramble);
    SobolSumIsMatrixSum(i, 0);
  }

  /** The number of binary digits of `i`. */
  function BitLength(i: nat): nat
    decreases i
  {
    if i == 0 then 0 else 1 + BitLength(i / 2)
  }

  /** A `u32` has at most 32 digits, so the loop reads at most the first 32
    * columns. */
  lemma {:induction false} BitLengthBelow(i: nat, m: nat)
    requires i < GrayCode.Pow2(m)
    ensures BitLength(i) <= m
    decreases i
  {
    if i > 0 {
      assert m > 0;
      BitLengthBelow(i / 2, m - 1);
    }
  }

  lemma Pow2Of32()
    ensures GrayCode.Pow2(32) == Rng.U32_RANGE
  {
    assert GrayCode.Pow2(8) == 256;
    assert GrayCode.Pow2(16) == 65536;
    assert GrayCode.Pow2(24) == 16777216;
  }

  /** `sobol(bits, scramble)`: the loop runs once per binary digit of the
    * index, XORing the current column into the scramble wherever the digit
    * is one; on a `u32`, `i & 1` and `i >>= 1` are `i % 2` and `i / 2`. */
  method Sobol(bits: nat, scramble: bv32) returns (r: real, ghost steps: nat)
    requires bits < Rng.U32_RANGE
    ensures r == Top24(SobolBits(bits, scramble))
    ensures steps == BitLength(bits) && steps <= 32
  {
    var v: bv32 := 0x8000_0000;
    var i := bits;
    var acc := scramble;
    steps := 0;
    while i > 0
      invariant SobolLoop(i, v, acc) == SobolLoop(bits, 0x8000_0000, scramble)
      invariant steps + BitLength(i) == BitLength(bits)
      decreases i
    {
      if i % 2 == 1 {
        acc := acc ^ v;
      }
      i := i / 2;
      v := Halve(v);
      steps := steps + 1;
    }
    LoopIsMatrix(bits, scramble);
    Pow2Of32();
    BitLengthBelow(bits, 32);
    r := Top24(acc);
  }

  /** The first 32 words of the loop. */
  lemma SobolColumnValues()
    ensures SobolColumn(0) == 0x80000000 && SobolColumn(1) == 0xc0000000
    ensures SobolColumn(2) == 0xa0000000 && SobolColumn(3) == 0xf0000000
    ensures SobolColumn(4) == 0x88000000 && SobolColumn(5) == 0xcc000000
    ensures SobolColumn(6) == 0xaa000000 && SobolColumn(7) == 0xff000000
    ensures SobolColumn(8) == 0x80800000 && SobolColumn(9) == 0xc0c00000
    ensures SobolColumn(10) == 0xa0a00000 && SobolColumn(11) == 0xf0f00000
    ensures SobolColumn(12) == 0x88880000 && SobolColumn(13) == 0xcccc0000
    ensures SobolColumn(14) == 0xaaaa0000 && SobolColumn(15) == 0xffff0000
    ensures SobolColumn(16) == 0x80008000 && SobolColumn(17) == 0xc000c000
    ensures SobolColumn(18) == 0xa000a000 && SobolColumn(19) == 0xf000f000
    ensures SobolColumn(20) == 0x88008800 && SobolColumn(21) == 0xcc00cc00
    ensures SobolColumn(22) == 0xaa00aa00 && SobolColumn(23) == 0xff00ff00
    ensures SobolColumn(24) == 0x80808080 && SobolColumn(25) == 0xc0c0c0c0
    ensures SobolColumn(26) == 0xa0a0a0a0 && SobolColumn(27) == 0xf0f0f0f0
    ensures SobolColumn(28) == 0x88888888 && SobolColumn(29) == 0xcccccccc
    ensures SobolColumn(30) == 0xaaaaaaaa && SobolColumn(31) == 0xffffffff
  {
    assert SobolColumn(1) == 0xc0000000;
    assert SobolColumn(2) == 0xa0000000;
    assert SobolColumn(3) == 0xf0000000;
    assert SobolColumn(4) == 0x88000000;
    assert SobolColumn(5) == 0xcc000000;
    assert SobolColumn(6) == 0xaa000000;
    assert SobolColumn(7) == 0xff000000;
    assert SobolColumn(8) == 0x80800000;
    assert SobolColumn(9) == 0xc0c00000;
    assert SobolColumn(10) == 0xa0a00000;
    assert SobolColumn(11) == 0xf0f00000;
    assert SobolColumn(12) == 0x88880000;
    assert SobolColumn(13) == 0xcccc0000;
    assert SobolColumn(14) == 0xaaaa0000;
    assert SobolColumn(15) == 0xffff0000;
    assert SobolColumn(16) == 0x80008000;
    assert SobolColumn(17) == 0xc000c000;
    assert SobolColumn(18) == 0xa000a000;
    assert SobolColumn(19) == 0xf000f000;
    assert SobolColumn(20) == 0x88008800;
    assert SobolColumn(21) == 0xcc00cc00;
    assert SobolColumn(22) == 0xaa00aa00;
    assert SobolColumn(23) == 0xff00ff00;
    assert SobolColumn(24) == 0x80808080;
    assert SobolColumn(25) == 0xc0c0c0c0;
    assert SobolColumn(26) == 0xa0a0a0a0;
    assert SobolColumn(27) == 0xf0f0f0f0;
    assert SobolColumn(28) == 0x88888888;
    assert SobolColumn(29) == 0xcccccccc;
    assert SobolColumn(30) == 0xaaaaaaaa;
  }

  /** The loop walks exactly the columns of the second Sobol' generator
    * matrix of the newer sampler. */
  lemma SobolColumnsAreSobolMatrix(k: nat)
    requires k < 32
    ensures SobolColumn(k) == GrayCode.CSOBOL_1[k]
  {
    SobolColumnValues();
    if k < 8 {
      MatrixColumns0(k);
    } else if k < 16 {
      MatrixColumns1(k);
    } else if k < 24 {
      MatrixColumns2(k);
    } else {
      MatrixColumns3(k);
    }
  }

  /** Columns 0 to 7 of the matrix, as the loop computes them. */
  lemma MatrixColumns0(k: nat)
    requires 0 <= k < 8
    requires
      SobolColumn(0) == 0x80000000 &&
      SobolColumn(1) == 0xc0000000 &&
      SobolColumn(2) == 0xa0000000 &&
      SobolColumn(3) == 0xf0000000 &&
      SobolColumn(4) == 0x88000000 &&
      SobolColumn(5) == 0xcc000000 &&
      SobolColumn(6) == 0xaa000000 &&
      SobolColumn(7) == 0xff000000 &&
      true
    ensures SobolColumn(k) == GrayCode.CSOBOL_1[k]
  {
    if k == 0 {
      assert GrayCode.CSOBOL_1[0] == SobolColumn(0);
    } else if k == 1 {
      assert GrayCode.CSOBOL_1[1] == SobolColumn(1);
    } else if k == 2 {
      assert GrayCode.CSOBOL_1[2] == SobolColumn(2);
    } else if k == 3 {
      assert GrayCode.CSOBOL_1[3] == SobolColumn(3);
    } else if k == 4 {
      assert GrayCode.CSOBOL_1[4] == SobolColumn(4);
    } else if k == 5 {
      assert GrayCode.CSOBOL_1[5] == SobolColumn(5);
    } else if k == 6 {
      assert GrayCode.CSOBOL_1[6] == SobolColumn(6);
    } else {
      assert GrayCode.CSOBOL_1[7] == SobolColumn(7);
    }
  }

  /** Columns 8 to 15 of the matrix, as the loop computes them. */
  lemma MatrixColumns1(k: nat)
    requires 8 <= k < 16
    requires
      SobolColumn(8) == 0x80800000 &&
      SobolColumn(9) == 0xc0c00000 &&
      SobolColumn(10) == 0xa0a00000 &&
      SobolColumn(11) == 0xf0f00000 &&
      SobolColumn(12) == 0x88880000 &&
      SobolColumn(13) == 0xcccc0000 &&
      SobolColumn(14) == 0xaaaa0000 &&
      SobolColumn(15) == 0xffff0000 &&
      true
    ensures SobolColumn(k) == GrayCode.CSOBOL_1[k]
  {
    if k == 8 {
      assert GrayCode.CSOBOL_1[8] == SobolColumn(8);
    } else if k == 9 {
      assert GrayCode.CSOBOL_1[9] == SobolColumn(9);
    } else if k == 10 {
      assert GrayCode.CSOBOL_1[10] == SobolColumn(10);
    } else if k == 11 {
      assert GrayCode.CSOBOL_1[11] == SobolColumn(11);
    } else if k == 12 {
      assert GrayCode.CSOBOL_1[12] == SobolColumn(12);
    } else if k == 13 {
      assert GrayCode.CSOBOL_1[13] == SobolColumn(13);
    } else if k == 14 {
      assert GrayCode.CSOBOL_1[14] == SobolColumn(14);
    } else {
      assert GrayCode.CSOBOL_1[15] == SobolColumn(15);
    }
  }

  /** Columns 16 to 23 of the matrix, as the loop computes them. */
  lemma MatrixColumns2(k: nat)
    requires 16 <= k < 24
    requires
      SobolColumn(16) == 0x80008000 &&
      SobolColumn(17) == 0xc000c000 &&
      SobolColumn(18) == 0xa000a000 &&
      SobolColumn(19) == 0xf000f000 &&
      SobolColumn(20) == 0x88008800 &&
      SobolColumn(21) == 0xcc00cc00 &&
      SobolColumn(22) == 0xaa00aa00 &&
      SobolColumn(23) == 0xff00ff00 &&
      true
    ensures SobolColumn(k) == GrayCode.CSOBOL_1[k]
  {
    if k == 16 {
      assert GrayCode.CSOBOL_1[16] == SobolColumn(16);
    } else if k == 17 {
      assert GrayCode.CSOBOL_1[17] == SobolColumn(17);
    } else if k == 18 {
      assert GrayCode.CSOBOL_1[18] == SobolColumn(18);
    } else if k == 19 {
      assert GrayCode.CSOBOL_1[19] == SobolColumn(19);
    } else if k == 20 {
      assert GrayCode.CSOBOL_1[20] == SobolColumn(20);
    } else if k == 21 {
      assert GrayCode.CSOBOL_1[21] == SobolColumn(21);
    } else if k == 22 {
      assert GrayCode.CSOBOL_1[22] == SobolColumn(22);
    } else {
      assert GrayCode.CSOBOL_1[23] == SobolColumn(23);
    }
  }

  /** Columns 24 to 31 of the matrix, as the loop computes them. */
  lemma MatrixColumns3(k: nat)
    requires 24 <= k < 32
    requires
      SobolColumn(24) == 0x80808080 &&
      SobolColumn(25) == 0xc0c0c0c0 &&
      SobolColumn(26) == 0xa0a0a0a0 &&
      SobolColumn(27) == 0xf0f0f0f0 &&
      SobolColumn(28) == 0x88888888 &&
      SobolColumn(29) == 0xcccccccc &&
      SobolColumn(30) == 0xaaaaaaaa &&
      SobolColumn(31) == 0xffffffff &&
      true
    ensures SobolColumn(k) == GrayCode.CSOBOL_1[k]
  {
    if k == 24 {
      assert GrayCode.CSOBOL_1[24] == SobolColumn(24);
    } else if k == 25 {
      assert GrayCode.CSOBOL_1[25] == SobolColumn(25);
    } else if k == 26 {
      assert GrayCode.CSOBOL_1[26] == SobolColumn(26);
    } else if k == 27 {
      assert GrayCode.CSOBOL_1[27] == SobolColumn(27);
    } else if k == 28 {
      assert GrayCode.CSOBOL_1[28] == SobolColumn(28);
    } else if k == 29 {
      assert GrayCode.CSOBOL_1[29] == SobolColumn(29);
    } else if k == 30 {
      assert GrayCode.CSOBOL_1[30] == SobolColumn(30);
    } else {
      assert GrayCode.CSOBOL_1[31] == SobolColumn(31);
    }
  }

  /** Scrambling XORs the same word into every index's result. */
  lemma SobolScramble(i: nat, scramble: bv32)
    ensures SobolBits(i, scramble) == scramble ^ SobolBits(i, 0)
  {
    assert scramble ^ (0 ^ MatrixSum(i, 0)) == scramble ^ MatrixSum(i, 0);
  }

  // ---------------------------------------------------------------------------
  // The (0,2) sequence and the sampler
  // ---------------------------------------------------------------------------

  /** Point `n` of the scrambled (0,2) sequence. */
  function ZeroTwoPoint(n: nat, scramble: (bv32, bv32)): (p: (real, real))
    requires n < Rng.U32_RANGE
    ensures 0.0 <= p.0 < 1.0 && 0.0 <= p.1 < 1.0
  {
    (VanDerCorput(n, scramble.0), Top24(SobolBits(n, scramble.1)))
  }

  /** `zero_two_sequence`: the van der Corput coordinate with the first
    * scramble word and the Sobol' one with the second. */
  method ZeroTwoSequence(n: nat, scramble: (bv32, bv32)) returns (p: (real, real))
    requires n < Rng.U32_RANGE
    ensures p == ZeroTwoPoint(n, scramble)
    ensures 0.0 <= p.0 < 1.0 && 0.0 <= p.1 < 1.0
  {
    var y, _ := Sobol(n, scramble.1);
    p := (VanDerCorput(n, scramble.0), y);
  }

  /** `LowDiscrepancy`: the number of samples per pixel. */
  datatype LowDiscrepancy = LowDiscrepancy(spp: nat)

  /** `get_samples`: sample i of the pixel at (x, y) is point `i as u32` of
    * the sequence, offset by (x, y); one scramble pair serves the whole
    * pixel. Writing past the end of `samples` panics. */
  method GetSamples(ld: LowDiscrepancy, x: real, y: real, scramble: (bv32, bv32),
                    samples: array<(real, real)>)
    requires ld.spp <= samples.Length
    modifies samples
    ensures forall i :: 0 <= i < ld.spp ==>
      var p := ZeroTwoPoint(i % Rng.U32_RANGE, scramble);
      samples[i] == (p.0 + x, p.1 + y)
    ensures forall i :: 0 <= i < ld.spp ==> x <= samples[i].0 < x + 1.0 && y <= samples[i].1 < y + 1.0
    ensures forall i :: ld.spp <= i < samples.Length ==> samples[i] == old(samples[i])
  {
    for i := 0 to ld.spp
      invariant forall j :: 0 <= j < i ==>
        var p := ZeroTwoPoint(j % Rng.U32_RANGE, scramble);
        samples[j] == (p.0 + x, p.1 + y)
      invariant forall j :: 0 <= j < i ==> x <= samples[j].0 < x + 1.0 && y <= samples[j].1 < y + 1.0
      invariant forall j :: i <= j < samples.Length ==> samples[j] == old(samples[j])
    {
      var s := ZeroTwoSequence(i % Rng.U32_RANGE, scramble);
      samples[i] := (s.0 + x, s.1 + y);
    }
  }
}
