/** The legacy blocked 2D array (src/blockedarray.rs): texels are stored in
  * 8×8 blocks so that neighbours share a cache line. The cell type `T` and
  * its zero are parameters. */
module BlockedArray {
  import ZeroTwo
  import MipMap

  /** `LOG_BLOCK_SIZE` and `BLOCK_SIZE` = 1 << LOG_BLOCK_SIZE. */
  const LOG_BLOCK_SIZE: nat := 3
  const BLOCK_SIZE: nat := 8

  datatype BlockedArray<T> = BlockedArray(uRes: nat, vRes: nat, uBlocks: nat, data: seq<T>)

  /** `new`: u_res·v_res zero cells, and u_blocks =
    * next_power_of_two(u_res) >> 3. */
  function New<T>(uRes: nat, vRes: nat, zero: T): (a: BlockedArray<T>)
    ensures a.uRes == uRes && a.vRes == vRes && |a.data| == uRes * vRes
    ensures forall i :: 0 <= i < |a.data| ==> a.data[i] == zero
    ensures 8 * a.uBlocks <= ZeroTwo.NextPowerOfTwo(uRes) < 8 * a.uBlocks + 8
  {
    BlockedArray(uRes, vRes, ZeroTwo.NextPowerOfTwo(uRes) / BLOCK_SIZE, seq(uRes * vRes, _ => zero))
  }

  /** `block(a)` = a >> 3: the block holding coordinate a. */
  function BlockOf(a: nat): nat
  {
    a / BLOCK_SIZE
  }

  /** `offset(a)` = a & 7: the position of coordinate a inside its block. */
  function OffsetOf(a: nat): nat
  {
    a % BLOCK_SIZE
  }

  /** A coordinate is its block times the block size plus its offset, and the
    * offset is inside the block. */
  lemma BlockOffsetSplit(a: nat)
    ensures BlockOf(a) * BLOCK_SIZE + OffsetOf(a) == a && OffsetOf(a) < BLOCK_SIZE
  {
  }

  /** The block and the offset determine the coordinate. */
  lemma BlockOffsetDetermine(a: nat, b: nat)
    requires BlockOf(a) == BlockOf(b) && OffsetOf(a) == OffsetOf(b)
    ensures a == b
  {
    BlockOffsetSplit(a);
    BlockOffsetSplit(b);
  }

  /** The flat position `index` computes for (u, v): 64 cells per block,
    * blocks stored row by row `u_blocks` to a row, and the cells of a block
    * row by row. */
  function Offset(uBlocks: nat, u: nat, v: nat): nat
  {
    BLOCK_SIZE * BLOCK_SIZE * (uBlocks * BlockOf(v) + BlockOf(u)) + BLOCK_SIZE * OffsetOf(v) + OffsetOf(u)
  }

  /** `index`: the cell at (u, v); `data[offset]` panics beyond the data. */
  function Index<T>(a: BlockedArray<T>, u: nat, v: nat): (r: T)
    requires Offset(a.uBlocks, u, v) < |a.data|
    ensures r == a.data[Offset(a.uBlocks, u, v)]
  {
    a.data[Offset(a.uBlocks, u, v)]
  }

  lemma MulMono(a: nat, b: nat, k: nat)
    requires a <= b
    ensures a * k <= b * k
  {
  }

  /** Inside a grid of uBlocks × vBlocks whole blocks the offset stays below
    * the grid's 64·uBlocks·vBlocks cells. */
  lemma OffsetInGrid(uBlocks: nat, vBlocks: nat, u: nat, v: nat)
    requires BlockOf(u) < uBlocks && BlockOf(v) < vBlocks
    ensures Offset(uBlocks, u, v) < BLOCK_SIZE * BLOCK_SIZE * (uBlocks * vBlocks)
  {
    var bu, bv := BlockOf(u), BlockOf(v);
    var inner := BLOCK_SIZE * OffsetOf(v) + OffsetOf(u);
    assert inner < 64;
    MulMono(bv + 1, vBlocks, uBlocks);
    var cell := uBlocks * bv + bu;
    assert cell + 1 <= uBlocks * vBlocks;
    MulMono(cell + 1, uBlocks * vBlocks, 64);
  }

  /** `index` stays inside `data` when the resolutions are whole blocks and
    * u_res is a power of two: then u_blocks·8 = u_res and every in-range
    * (u, v) lies in one of the allocated blocks. */
  lemma IndexInRange<T>(uRes: nat, vRes: nat, zero: T, u: nat, v: nat)
    requires uRes % BLOCK_SIZE == 0 && vRes % BLOCK_SIZE == 0 && uRes >= 1
    requires ZeroTwo.NextPowerOfTwo(uRes) == uRes
    requires u < uRes && v < vRes
    ensures Offset(New(uRes, vRes, zero).uBlocks, u, v) < |New(uRes, vRes, zero).data|
  {
    var a := New(uRes, vRes, zero);
    var vBlocks := vRes / BLOCK_SIZE;
    assert a.uBlocks * BLOCK_SIZE == uRes;
    assert vBlocks * BLOCK_SIZE == vRes;
    assert BlockOf(u) < a.uBlocks && BlockOf(v) < vBlocks;
    OffsetInGrid(a.uBlocks, vBlocks, u, v);
    BlockArea(uRes, vRes, a.uBlocks, vBlocks);
  }

  /** A grid of whole blocks holds 64 cells per block. */
  lemma BlockArea(w: nat, h: nat, uBlocks: nat, vBlocks: nat)
    requires uBlocks * BLOCK_SIZE == w && vBlocks * BLOCK_SIZE == h
    ensures w * h == BLOCK_SIZE * BLOCK_SIZE * (uBlocks * vBlocks)
  {
  }

  /** Two cells with u below 8·u_blocks share an offset only if they are the
    * same cell. */
  lemma OffsetInjective(uBlocks: nat, u1: nat, v1: nat, u2: nat, v2: nat)
    requires u1 < BLOCK_SIZE * uBlocks && u2 < BLOCK_SIZE * uBlocks
    requires Offset(uBlocks, u1, v1) == Offset(uBlocks, u2, v2)
    ensures u1 == u2 && v1 == v2
  {
    var inner1 := BLOCK_SIZE * OffsetOf(v1) + OffsetOf(u1);
    var inner2 := BLOCK_SIZE * OffsetOf(v2) + OffsetOf(u2);
    var cell1 := uBlocks * BlockOf(v1) + BlockOf(u1);
    var cell2 := uBlocks * BlockOf(v2) + BlockOf(u2);
    DivModPair(64, cell1, inner1, cell2, inner2);
    DivModPair(BLOCK_SIZE, OffsetOf(v1), OffsetOf(u1), OffsetOf(v2), OffsetOf(u2));
    assert BlockOf(u1) < uBlocks && BlockOf(u2) < uBlocks;
    DivModPair(uBlocks, BlockOf(v1), BlockOf(u1), BlockOf(v2), BlockOf(u2));
    BlockOffsetDetermine(u1, u2);
    BlockOffsetDetermine(v1, v2);
  }

  /** q·w + r with r < w determines q and r. */
  lemma DivModPair(w: nat, q1: nat, r1: nat, q2: nat, r2: nat)
    requires r1 < w && r2 < w && q1 * w + r1 == q2 * w + r2
    ensures q1 == q2 && r1 == r2
  {
    if q1 < q2 {
      MulMono(q1 + 1, q2, w);
    } else if q2 < q1 {
      MulMono(q2 + 1, q1, w);
    }
  }

  // ---------------------------------------------------------------------------
  // The allocation as written, and the padded one
  // ---------------------------------------------------------------------------

  /** A 12×12 array has 144 cells, but `index` sends (11, 11) to cell 219:
    * the in-range read panics. */
  lemma AsWrittenIndexOverruns()
    ensures var a := New(12, 12, 0.0);
      a.uBlocks == 2 && |a.data| == 144 && Offset(a.uBlocks, 11, 11) == 219
  {
    assert MipMap.RoundUpPowerOfTwo(2) == 2;
    assert MipMap.RoundUpPowerOfTwo(3) == 4;
    assert MipMap.RoundUpPowerOfTwo(6) == 8;
    assert ZeroTwo.NextPowerOfTwo(12) == MipMap.RoundUpPowerOfTwo(12) == 16;
  }

  /** Below eight columns u_blocks is 0, so a 1×9 array stores (0, 0) and
    * (0, 8) in the same cell. */
  lemma AsWrittenCellsCollide()
    ensures var a := New(1, 9, 0.0);
      a.uBlocks == 0 && Offset(a.uBlocks, 0, 0) == Offset(a.uBlocks, 0, 8) == 0 && |a.data| == 9
  {
  }

  /** A resolution rounded up to whole blocks. */
  function RoundUp(x: nat): (r: nat)
    ensures r % BLOCK_SIZE == 0 && x <= r < x + BLOCK_SIZE
  {
    (x + BLOCK_SIZE - 1) / BLOCK_SIZE * BLOCK_SIZE
  }

  /** The allocation `index` needs: both resolutions rounded up to whole
    * blocks, and u_blocks the number of blocks across. */
  function NewPadded<T>(uRes: nat, vRes: nat, zero: T): (a: BlockedArray<T>)
    ensures a.uRes == uRes && a.vRes == vRes && |a.data| == RoundUp(uRes) * RoundUp(vRes)
    ensures forall i :: 0 <= i < |a.data| ==> a.data[i] == zero
    ensures a.uBlocks * BLOCK_SIZE == RoundUp(uRes)
  {
    BlockedArray(uRes, vRes, RoundUp(uRes) / BLOCK_SIZE, seq(RoundUp(uRes) * RoundUp(vRes), _ => zero))
  }

  /** With the padded allocation every in-range (u, v) has its own cell
    * inside the data. */
  lemma PaddedIndexSound<T>(uRes: nat, vRes: nat, zero: T, u1: nat, v1: nat, u2: nat, v2: nat)
    requires u1 < uRes && v1 < vRes && u2 < uRes && v2 < vRes
    ensures var a := NewPadded(uRes, vRes, zero);
      Offset(a.uBlocks, u1, v1) < |a.data| &&
      (Offset(a.uBlocks, u1, v1) == Offset(a.uBlocks, u2, v2) ==> u1 == u2 && v1 == v2)
  {
    var a := NewPadded(uRes, vRes, zero);
    var vBlocks := RoundUp(vRes) / BLOCK_SIZE;
    assert vBlocks * BLOCK_SIZE == RoundUp(vRes);
    assert BlockOf(u1) < a.uBlocks && BlockOf(v1) < vBlocks;
    OffsetInGrid(a.uBlocks, vBlocks, u1, v1);
    BlockArea(RoundUp(uRes), RoundUp(vRes), a.uBlocks, vBlocks);
    if Offset(a.uBlocks, u1, v1) == Offset(a.uBlocks, u2, v2) {
      OffsetInjective(a.uBlocks, u1, v1, u2, v2);
    }
  }
}
