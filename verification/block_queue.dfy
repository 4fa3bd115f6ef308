/** The legacy renderer's work queue (src/block_queue.rs): the image is cut
  * into square blocks of `block_size` pixels, handed out one per call of
  * `BlockQueue::next` by an atomic counter, and each `Block` iterates its
  * pixels row by row. */
module BlockQueue {
  import opened Wrappers
  import Bounds

  /** A pixel position, `Point2<usize>`. */
  datatype Pixel = Pixel(x: nat, y: nat)

  // ---------------------------------------------------------------------------
  // The pixels of one block
  // ---------------------------------------------------------------------------

  /** Pixel `k` of the `size`×`size` square at `start`, counting row by row. */
  function PixelAt(start: Pixel, size: nat, k: nat): Pixel
    requires size >= 1
  {
    Pixel(start.x + k % size, start.y + k / size)
  }

  /** `p` lies in the `size`×`size` square whose top-left pixel is `start`. */
  predicate InSquare(start: Pixel, size: nat, p: Pixel)
  {
    start.x <= p.x < start.x + size && start.y <= p.y < start.y + size
  }

  /** The pixel `size`·q + rem places after `start` is column `rem` of row
    * `q`. */
  lemma PixelAtOf(start: Pixel, size: nat, q: nat, rem: nat)
    requires size >= 1 && rem < size
    ensures PixelAt(start, size, q * size + rem) == Pixel(start.x + rem, start.y + q)
  {
    Bounds.DivModUnique(q * size + rem, size, q, rem);
  }

  /** The first size² positions, and only they, fall inside the square. */
  lemma PixelAtInSquare(start: Pixel, size: nat, k: nat)
    requires size >= 1
    ensures InSquare(start, size, PixelAt(start, size, k)) <==> k < size * size
  {
    var q, rem := k / size, k % size;
    assert k == q * size + rem;
    RowBelow(q, rem, size);
  }

  /** Row q, column rem < size lies in the first size² positions exactly
    * when q < size. */
  lemma RowBelow(q: nat, rem: nat, size: nat)
    requires rem < size
    ensures q < size <==> q * size + rem < size * size
  {
    if q < size {
      MulMono(q + 1, size, size);
    } else {
      MulMono(size, q, size);
    }
  }

  /** Distinct positions give distinct pixels: no pixel is visited twice. */
  lemma PixelAtInjective(start: Pixel, size: nat, k1: nat, k2: nat)
    requires size >= 1 && k1 != k2
    ensures PixelAt(start, size, k1) != PixelAt(start, size, k2)
  {
    assert k1 == (k1 / size) * size + k1 % size;
    assert k2 == (k2 / size) * size + k2 % size;
  }

  /** Every pixel of the square is visited, at position
    * (y - start.y)·size + (x - start.x). */
  lemma PixelAtCovers(start: Pixel, size: nat, p: Pixel)
    requires size >= 1 && InSquare(start, size, p)
    ensures var k := (p.y - start.y) * size + (p.x - start.x);
      k < size * size && PixelAt(start, size, k) == p
  {
    var k := (p.y - start.y) * size + (p.x - start.x);
    PixelAtOf(start, size, p.y - start.y, p.x - start.x);
    PixelAtInSquare(start, size, k);
  }

  /** Row-major order: the next pixel is the right neighbour, or the first
    * pixel of the next row after the last column. */
  lemma PixelAtStep(start: Pixel, size: nat, k: nat)
    requires size >= 1
    ensures var p, q := PixelAt(start, size, k), PixelAt(start, size, k + 1);
      (p.x + 1 < start.x + size ==> q == Pixel(p.x + 1, p.y)) &&
      (p.x + 1 == start.x + size ==> q == Pixel(start.x, p.y + 1))
  {
    var q, rem := k / size, k % size;
    assert k == q * size + rem;
    if rem + 1 < size {
      PixelAtOf(start, size, q, rem + 1);
    } else {
      assert k + 1 == (q + 1) * size + 0;
      PixelAtOf(start, size, q + 1, 0);
    }
  }

  /** `Block`: the square from `start` to `end` = start + size - 1, and the
    * pixel `next` yields next. */
  class Block {
    const start: Pixel
    var current: Pixel
    const end: Pixel

    /** A square block whose cursor is inside it, or at the start of the row
      * just below it once every pixel has been yielded. */
    ghost predicate Valid()
      reads this
    {
      start.x <= end.x && start.y <= end.y && end.x - start.x == end.y - start.y &&
      start.x <= current.x <= end.x && start.y <= current.y <= end.y + 1 &&
      (current.y == end.y + 1 ==> current.x == start.x)
    }

    function Size(): nat
      reads this
      requires start.x <= end.x
    {
      end.x - start.x + 1
    }

    /** How many pixels `next` has yielded so far. */
    ghost function Taken(): nat
      reads this
      requires Valid()
    {
      var rows: nat, cols: nat := current.y - start.y, current.x - start.x;
      rows * Size() + cols
    }

    /** `Block::new`: the cursor starts at `start`. A block of size 0 would
      * underflow `start + size - 1`. */
    constructor (s: Pixel, size: nat)
      requires size >= 1
      ensures Valid() && start == s && end == Pixel(s.x + size - 1, s.y + size - 1)
      ensures Size() == size && current == s && Taken() == 0
    {
      start := s;
      current := s;
      end := Pixel(s.x + size - 1, s.y + size - 1);
    }

    /** `next`: the pixel at the cursor, in row-major order, while pixels
      * remain; after the last one, None and the cursor stays put. */
    method Next() returns (r: Option<Pixel>)
      requires Valid()
      modifies this
      ensures Valid()
      ensures old(Taken()) < Size() * Size() ==>
        r == Some(PixelAt(start, Size(), old(Taken()))) && Taken() == old(Taken()) + 1
      ensures old(Taken()) >= Size() * Size() ==> r == None && current == old(current)
      ensures Taken() <= Size() * Size()
    {
      ghost var n := Size();
      ghost var rows: nat, cols: nat := current.y - start.y, current.x - start.x;
      ghost var k := Taken();
      assert k == rows * n + cols;
      if current.x > end.x || current.y > end.y {
        assert rows == n && cols == 0;
        return None;
      }
      RowBelow(rows, cols, n);
      var cur := current;
      PixelAtOf(start, n, rows, cols);
      if current.x == end.x {
        current := Pixel(start.x, current.y + 1);
        RowStep(rows, n);
        assert Taken() == (rows + 1) * n + 0;
      } else {
        current := Pixel(current.x + 1, current.y);
        assert Taken() == rows * n + (cols + 1);
      }
      TakenBound();
      r := Some(cur);
    }

    lemma TakenBound()
      requires Valid()
      ensures Taken() <= Size() * Size()
    {
      var n := Size();
      var rows: nat, cols: nat := current.y - start.y, current.x - start.x;
      assert Taken() == rows * n + cols;
      if current.y <= end.y {
        RowBelow(rows, cols, n);
      } else {
        assert rows == n && cols == 0;
      }
    }
  }

  /** The next row starts `size` positions later. */
  lemma RowStep(rows: nat, size: nat)
    ensures (rows + 1) * size == rows * size + size
  {
  }

  /** `for p in block`: call `next` until it returns None. The block yields
    * its size² pixels in row-major order and then stops. */
  method CollectBlock(b: Block) returns (ps: seq<Pixel>)
    requires b.Valid() && b.Taken() == 0
    modifies b
    ensures |ps| == b.Size() * b.Size()
    ensures forall k :: 0 <= k < |ps| ==> ps[k] == PixelAt(b.start, b.Size(), k)
  {
    ps := [];
    b.TakenBound();
    while true
      invariant b.Valid() && b.Taken() == |ps| && |ps| <= b.Size() * b.Size()
      invariant forall k :: 0 <= k < |ps| ==> ps[k] == PixelAt(b.start, b.Size(), k)
      decreases b.Size() * b.Size() - |ps|
    {
      var r := b.Next();
      if r.None? {
        return;
      }
      ps := ps + [r.value];
    }
  }

  // ---------------------------------------------------------------------------
  // The queue of blocks
  // ---------------------------------------------------------------------------

  /** `(dims.0 / block_size) * (dims.1 / block_size)`: only whole blocks
    * are counted. */
  function NumBlocks(width: nat, height: nat, blockSize: nat): nat
    requires blockSize > 0
  {
    (width / blockSize) * (height / blockSize)
  }

  /** The top-left pixel of block `c`: column c mod nbw and row c div nbw of
    * the block grid, nbw = width / block_size. */
  function BlockStart(width: nat, height: nat, blockSize: nat, c: nat): Pixel
    requires blockSize > 0 && c < NumBlocks(width, height, blockSize)
  {
    NonEmptyGrid(width / blockSize, height / blockSize, c);
    GridStart(width / blockSize, blockSize, c)
  }

  /** Cell `c` of a grid `nbw` cells wide, with cells of `blockSize` pixels. */
  function GridStart(nbw: nat, blockSize: nat, c: nat): Pixel
    requires nbw > 0
  {
    Pixel(c % nbw * blockSize, c / nbw * blockSize)
  }

  lemma NonEmptyGrid(nbw: nat, nbh: nat, c: nat)
    requires c < nbw * nbh
    ensures nbw > 0 && nbh > 0
  {
  }

  lemma MulMono(a: nat, b: nat, k: nat)
    requires a <= b
    ensures a * k <= b * k
  {
  }

  /** Whole blocks fit: (w / bs)·bs <= w. */
  lemma WholeBlocks(w: nat, blockSize: nat)
    requires blockSize > 0
    ensures w / blockSize * blockSize <= w
  {
  }

  /** Cell `c` of an nbw×nbh grid lies inside the grid. */
  lemma GridInside(nbw: nat, nbh: nat, blockSize: nat, c: nat)
    requires nbw > 0 && c < nbw * nbh
    ensures var s := GridStart(nbw, blockSize, c);
      s.x + blockSize <= nbw * blockSize && s.y + blockSize <= nbh * blockSize
  {
    var col, row := c % nbw, c / nbw;
    assert c == row * nbw + col;
    assert row < nbh by {
      if row >= nbh {
        MulMono(nbh, row, nbw);
      }
    }
    BlockFits(col, nbw, blockSize);
    BlockFits(row, nbh, blockSize);
  }

  /** Block `i` of `n` ends inside the `n` blocks. */
  lemma BlockFits(i: nat, n: nat, blockSize: nat)
    requires i < n
    ensures i * blockSize + blockSize <= n * blockSize
  {
    MulMono(i + 1, n, blockSize);
    assert (i + 1) * blockSize == i * blockSize + blockSize;
  }

  /** Every block lies inside the image. */
  lemma BlockInsideImage(width: nat, height: nat, blockSize: nat, c: nat)
    requires blockSize > 0 && c < NumBlocks(width, height, blockSize)
    ensures var s := BlockStart(width, height, blockSize, c);
      s.x + blockSize <= width && s.y + blockSize <= height
  {
    var nbw, nbh := width / blockSize, height / blockSize;
    NonEmptyGrid(nbw, nbh, c);
    GridInside(nbw, nbh, blockSize, c);
    WholeBlocks(width, blockSize);
    WholeBlocks(height, blockSize);
  }

  /** A pixel in the square at (a·bs, b·bs) is in grid column a and row b. */
  lemma GridCell(blockSize: nat, a: nat, b: nat, p: Pixel)
    requires blockSize > 0 && InSquare(Pixel(a * blockSize, b * blockSize), blockSize, p)
    ensures p.x / blockSize == a && p.y / blockSize == b
  {
    Bounds.DivModUnique(p.x, blockSize, a, p.x - a * blockSize);
    Bounds.DivModUnique(p.y, blockSize, b, p.y - b * blockSize);
  }

  /** Distinct grid cells share no pixel. */
  lemma GridDisjoint(nbw: nat, blockSize: nat, c1: nat, c2: nat, p: Pixel)
    requires nbw > 0 && blockSize > 0
    requires InSquare(GridStart(nbw, blockSize, c1), blockSize, p)
    requires InSquare(GridStart(nbw, blockSize, c2), blockSize, p)
    ensures c1 == c2
  {
    GridCell(blockSize, c1 % nbw, c1 / nbw, p);
    GridCell(blockSize, c2 % nbw, c2 / nbw, p);
    assert c1 == c1 / nbw * nbw + c1 % nbw;
    assert c2 == c2 / nbw * nbw + c2 % nbw;
  }

  /** Distinct blocks share no pixel. */
  lemma BlocksDisjoint(width: nat, height: nat, blockSize: nat, c1: nat, c2: nat, p: Pixel)
    requires blockSize > 0
    requires c1 < NumBlocks(width, height, blockSize) && c2 < NumBlocks(width, height, blockSize)
    requires InSquare(BlockStart(width, height, blockSize, c1), blockSize, p)
    requires InSquare(BlockStart(width, height, blockSize, c2), blockSize, p)
    ensures c1 == c2
  {
    NonEmptyGrid(width / blockSize, height / blockSize, c1);
    GridDisjoint(width / blockSize, blockSize, c1, c2, p);
  }

  /** The grid cell, row-major in a grid `nbw` cells wide, holding pixel p. */
  function CellOf(nbw: nat, blockSize: nat, p: Pixel): nat
    requires blockSize > 0
  {
    var row: nat, col: nat := p.y / blockSize, p.x / blockSize;
    row * nbw + col
  }

  /** Pixel p of an nbw×nbh grid lies in cell (p.y / bs)·nbw + p.x / bs. */
  lemma GridCover(nbw: nat, nbh: nat, blockSize: nat, p: Pixel)
    requires nbw > 0 && blockSize > 0
    requires p.x < nbw * blockSize && p.y < nbh * blockSize
    ensures CellOf(nbw, blockSize, p) < nbw * nbh
    ensures InSquare(GridStart(nbw, blockSize, CellOf(nbw, blockSize, p)), blockSize, p)
  {
    var a, b := p.x / blockSize, p.y / blockSize;
    CoordInBlock(p.x, nbw, blockSize);
    CoordInBlock(p.y, nbh, blockSize);
    CellBelow(nbw, nbh, a, b);
    GridStartOf(nbw, blockSize, a, b);
  }

  /** Cell b·nbw + a of the grid starts at column a and row b of blocks. */
  lemma GridStartOf(nbw: nat, blockSize: nat, a: nat, b: nat)
    requires a < nbw
    ensures GridStart(nbw, blockSize, b * nbw + a) == Pixel(a * blockSize, b * blockSize)
  {
    Bounds.DivModUnique(b * nbw + a, nbw, b, a);
  }

  /** Column a < nbw of row b < nbh is a cell of the grid. */
  lemma CellBelow(nbw: nat, nbh: nat, a: nat, b: nat)
    requires a < nbw && b < nbh
    ensures b * nbw + a < nbw * nbh
  {
    MulMono(b, nbh - 1, nbw);
  }

  /** A coordinate below n blocks lies in block x / bs, one of the n. */
  lemma CoordInBlock(x: nat, n: nat, blockSize: nat)
    requires blockSize > 0 && x < n * blockSize
    ensures x / blockSize < n && x / blockSize * blockSize <= x < x / blockSize * blockSize + blockSize
  {
    var a := x / blockSize;
    assert x == a * blockSize + x % blockSize;
    if a >= n {
      MulMono(n, a, blockSize);
    }
  }

  /** The blocks cover the whole-block part of the image: pixel p lies in
    * block (p.y / bs)·nbw + p.x / bs. */
  lemma BlocksCover(width: nat, height: nat, blockSize: nat, p: Pixel)
    requires blockSize > 0
    requires p.x < width / blockSize * blockSize && p.y < height / blockSize * blockSize
    ensures CellOf(width / blockSize, blockSize, p) < NumBlocks(width, height, blockSize)
    ensures InSquare(BlockStart(width, height, blockSize, CellOf(width / blockSize, blockSize, p)), blockSize, p)
  {
    GridCover(width / blockSize, height / blockSize, blockSize, p);
  }

  /** `BlockQueue`: the image size, the block size, the shared counter of
    * blocks handed out and the number of whole blocks. */
  class BlockQueue {
    const width: nat
    const height: nat
    const blockSize: nat
    var counter: nat
    const numBlocks: nat

    ghost predicate Valid()
      reads this
    {
      blockSize > 0 && numBlocks == NumBlocks(width, height, blockSize)
    }

    /** `BlockQueue::new`; a block size of 0 would divide by zero. */
    constructor (dims: (nat, nat), size: nat)
      requires size > 0
      ensures Valid() && width == dims.0 && height == dims.1 && blockSize == size
      ensures numBlocks == (dims.0 / size) * (dims.1 / size) && counter == 0
    {
      width, height, blockSize := dims.0, dims.1, size;
      counter := 0;
      numBlocks := (dims.0 / size) * (dims.1 / size);
    }

    /** `next`: every call takes a ticket from the counter; tickets below
      * `num_blocks` become the block at that grid position, later ones
      * None. */
    method Next() returns (r: Option<Block>)
      requires Valid()
      modifies this
      ensures Valid() && counter == old(counter) + 1
      ensures r.None? <==> old(counter) >= numBlocks
      ensures r.Some? ==>
        fresh(r.value) && r.value.Valid() && r.value.Taken() == 0 && r.value.Size() == blockSize &&
        r.value.start == BlockStart(width, height, blockSize, old(counter))
    {
      var c := counter;
      counter := counter + 1;
      if c >= numBlocks {
        return None;
      }
      var nbw := width / blockSize;
      NonEmptyGrid(nbw, height / blockSize, c);
      var b := new Block(GridStart(nbw, blockSize, c), blockSize);
      r := Some(b);
    }
  }
}
