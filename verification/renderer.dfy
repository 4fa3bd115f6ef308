/** The discrete part of `render` in rustracer-core/src/renderer.rs: the
  * tile grid over the sample bounds, each tile's bounds and sampler seed,
  * the row-major order tiles are handed out in, the pixel loop of a tile
  * and the sanitising of radiance samples. Threads, the progress bar, the
  * camera, the integrator and the sampler are not modelled; their results
  * are parameters. */
module Renderer {
  import opened Util
  import opened Bounds
  import opened F32Colour
  import Film

  // ---------------------------------------------------------------------------
  // Tile grid (renderer.rs:38-47, 83-92)
  // ---------------------------------------------------------------------------

  /** `i32` division, which truncates toward zero. */
  function TruncDiv(a: int, b: int): (q: int)
    requires b > 0
    ensures a >= 0 ==> q == a / b
  {
    if a >= 0 then a / b else -((-a) / b)
  }

  /** Tiles along one axis, `(extent + block_size - 1) / block_size`: for a
    * non-negative extent the least count whose tiles reach the extent. */
  function TileCount(extent: int, blockSize: int): (n: int)
    requires blockSize > 0
    ensures extent >= 0 ==> n >= 0 && n * blockSize >= extent
    ensures extent > 0 ==> (n - 1) * blockSize < extent
    ensures extent == 0 ==> n == 0
  {
    var n := TruncDiv(extent + blockSize - 1, blockSize);
    if extent >= 0 then
      CeilDiv(extent, blockSize);
      n
    else n
  }

  /** The ceiling division (e + b - 1) / b for e >= 0. */
  lemma CeilDiv(e: int, b: int)
    requires e >= 0 && b > 0
    ensures var n := (e + b - 1) / b;
            n >= 0 && n * b >= e && (e > 0 ==> (n - 1) * b < e) && (e == 0 ==> n == 0)
  {
    var n := (e + b - 1) / b;
    var r := (e + b - 1) % b;
    assert e + b - 1 == n * b + r && 0 <= r < b;
    if e == 0 {
      DivModUnique(b - 1, b, 0, b - 1);
    } else {
      assert n * b >= e;
      assert (n - 1) * b == n * b - b;
    }
  }

  /** `n_tiles`: the tile count per axis of the sample bounds' diagonal. */
  function NTiles(sampleBounds: Bounds2i, blockSize: int): Point2i
    requires blockSize > 0
  {
    Point2i(TileCount(sampleBounds.pMax.x - sampleBounds.pMin.x, blockSize),
            TileCount(sampleBounds.pMax.y - sampleBounds.pMin.y, blockSize))
  }

  /** A tile coordinate of the grid [0, n_tiles). */
  predicate InGrid(t: Point2i, nTiles: Point2i)
  {
    0 <= t.x < nTiles.x && 0 <= t.y < nTiles.y
  }

  /** The tile bounds of renderer.rs:87-92: from the tile's corner in the
    * sample bounds, one block wide and high, cut at `p_max`. */
  function TileBounds(sampleBounds: Bounds2i, blockSize: int, t: Point2i): Bounds2i
  {
    var x0 := sampleBounds.pMin.x + t.x * blockSize;
    var y0 := sampleBounds.pMin.y + t.y * blockSize;
    FromPoints2(Point2i(x0, y0),
                Point2i(MinI(x0 + blockSize, sampleBounds.pMax.x), MinI(y0 + blockSize, sampleBounds.pMax.y)))
  }

  /** The tile holding pixel p: its offset from `p_min` divided by the block size. */
  function TileOf(sampleBounds: Bounds2i, blockSize: int, p: Point2i): Point2i
    requires blockSize > 0
  {
    Point2i((p.x - sampleBounds.pMin.x) / blockSize, (p.y - sampleBounds.pMin.y) / blockSize)
  }

  predicate Ordered(b: Bounds2i)
  {
    b.pMin.x <= b.pMax.x && b.pMin.y <= b.pMax.y
  }

  /** Along one axis: the tile starting at lo + t·bs, below hi, holds the
    * half-open span [lo + t·bs, min(lo + t·bs + bs, hi)), and a coordinate is
    * in it exactly when it lies in [lo, hi) and its block is t. */
  lemma AxisTile(lo: int, hi: int, bs: int, t: int, v: int)
    requires bs > 0 && lo <= hi && 0 <= t < TileCount(hi - lo, bs)
    ensures lo + t * bs < MinI(lo + t * bs + bs, hi)
    ensures lo + t * bs <= v < MinI(lo + t * bs + bs, hi) <==> lo <= v < hi && (v - lo) / bs == t
  {
    var n := TileCount(hi - lo, bs);
    MulLe(t, n - 1, bs);
    if lo <= v < hi && (v - lo) / bs == t {
      var r := (v - lo) % bs;
      assert v - lo == t * bs + r;
    }
    if lo + t * bs <= v < lo + t * bs + bs {
      assert v - lo == t * bs + (v - lo - t * bs);
      DivModUnique(v - lo, bs, t, v - lo - t * bs);
    }
  }

  lemma MulLe(a: int, b: int, c: int)
    requires a <= b && c >= 0
    ensures a * c <= b * c
  {
    assert b * c - a * c == (b - a) * c;
  }

  /** Every tile of the grid is a non-empty box inside the sample bounds, and
    * a pixel lies in tile t exactly when it is a sample-bounds pixel whose
    * block is t. */
  lemma TileContents(sampleBounds: Bounds2i, blockSize: int, t: Point2i, p: Point2i)
    requires blockSize > 0 && Ordered(sampleBounds)
    requires InGrid(t, NTiles(sampleBounds, blockSize))
    ensures !Degenerate2(TileBounds(sampleBounds, blockSize, t))
    ensures Encloses2(sampleBounds, TileBounds(sampleBounds, blockSize, t))
    ensures InsideExclusive2(TileBounds(sampleBounds, blockSize, t), p) <==>
      InsideExclusive2(sampleBounds, p) && TileOf(sampleBounds, blockSize, p) == t
  {
    var sb := sampleBounds;
    AxisTile(sb.pMin.x, sb.pMax.x, blockSize, t.x, p.x);
    AxisTile(sb.pMin.y, sb.pMax.y, blockSize, t.y, p.y);
    AxisTile(sb.pMin.x, sb.pMax.x, blockSize, t.x, sb.pMin.x + t.x * blockSize);
    AxisTile(sb.pMin.y, sb.pMax.y, blockSize, t.y, sb.pMin.y + t.y * blockSize);
  }

  /** The tiles cover the sample bounds: each pixel's block is a grid tile
    * whose bounds contain it. */
  lemma TilesCover(sampleBounds: Bounds2i, blockSize: int, p: Point2i)
    requires blockSize > 0 && Ordered(sampleBounds) && InsideExclusive2(sampleBounds, p)
    ensures InGrid(TileOf(sampleBounds, blockSize, p), NTiles(sampleBounds, blockSize))
    ensures InsideExclusive2(TileBounds(sampleBounds, blockSize, TileOf(sampleBounds, blockSize, p)), p)
  {
    var t := TileOf(sampleBounds, blockSize, p);
    AxisInGrid(sampleBounds.pMin.x, sampleBounds.pMax.x, blockSize, p.x);
    AxisInGrid(sampleBounds.pMin.y, sampleBounds.pMax.y, blockSize, p.y);
    TileContents(sampleBounds, blockSize, t, p);
  }

  /** A coordinate in [lo, hi) has a block below the tile count. */
  lemma AxisInGrid(lo: int, hi: int, bs: int, v: int)
    requires bs > 0 && lo <= v < hi
    ensures 0 <= (v - lo) / bs < TileCount(hi - lo, bs)
  {
    var n := TileCount(hi - lo, bs);
    var q := (v - lo) / bs;
    assert v - lo == q * bs + (v - lo) % bs;
    if q >= n {
      MulLe(n, q, bs);
    }
  }

  /** Distinct grid tiles share no pixel. */
  lemma TilesDisjoint(sampleBounds: Bounds2i, blockSize: int, t1: Point2i, t2: Point2i, p: Point2i)
    requires blockSize > 0 && Ordered(sampleBounds)
    requires InGrid(t1, NTiles(sampleBounds, blockSize)) && InGrid(t2, NTiles(sampleBounds, blockSize))
    requires t1 != t2
    ensures !(InsideExclusive2(TileBounds(sampleBounds, blockSize, t1), p) &&
              InsideExclusive2(TileBounds(sampleBounds, blockSize, t2), p))
  {
    TileContents(sampleBounds, blockSize, t1, p);
    TileContents(sampleBounds, blockSize, t2, p);
  }

  /** The sampler seed of a tile, `tile.y * n_tiles.x + tile.x`. */
  function Seed(t: Point2i, nTiles: Point2i): int
  {
    t.y * nTiles.x + t.x
  }

  /** Distinct grid tiles get distinct seeds. */
  lemma SeedsDistinct(t1: Point2i, t2: Point2i, nTiles: Point2i)
    requires InGrid(t1, nTiles) && InGrid(t2, nTiles) && t1 != t2
    ensures Seed(t1, nTiles) != Seed(t2, nTiles)
  {
    DivModUnique(Seed(t1, nTiles), nTiles.x, t1.y, t1.x);
    DivModUnique(Seed(t2, nTiles), nTiles.x, t2.y, t2.x);
  }

  /** The tile iterator: the grid [0, n_tiles) in row-major order. */
  function TileOrder(nTiles: Point2i): seq<Point2i>
  {
    RowMajorSeq(FromPoints2(Point2i(0, 0), nTiles))
  }

  /** For a non-empty grid, the k-th tile handed out is a grid tile whose
    * seed is k, and there are n_tiles.x · n_tiles.y of them. */
  lemma TileOrderSeeds(nTiles: Point2i, k: nat)
    requires nTiles.x > 0 && nTiles.y > 0
    ensures |TileOrder(nTiles)| == nTiles.x * nTiles.y
    ensures k < |TileOrder(nTiles)| ==>
      InGrid(TileOrder(nTiles)[k], nTiles) && Seed(TileOrder(nTiles)[k], nTiles) == k
  {
    var g := FromPoints2(Point2i(0, 0), nTiles);
    assert g == Bounds2i(Point2i(0, 0), nTiles);
    if k < |TileOrder(nTiles)| {
      RowMajorPointInside(g, k);
      var w := nTiles.x;
      assert k == (k / w) * w + k % w;
    }
  }

  // ---------------------------------------------------------------------------
  // Sample sanitising (renderer.rs:113-126)
  // ---------------------------------------------------------------------------

  /** The three checks as written, each applied to the result of the one
    * before: a colour with a NaN component, a luminance below -1e-5, or an
    * infinite luminance becomes black. Black passes every check, so a
    * colour is replaced as soon as one check fails. */
  function SanitiseAsWritten(c: Colour): (r: Colour)
    ensures r == c || r == Black()
    ensures HasNan(c) ==> r == Black()
  {
    if HasNan(c) then Black()
    else if Below(Luminance(c), -0.00001) then Black()
    else if Luminance(c).Inf? then Black()
    else c
  }

  /** Opposite infinite components pass all three checks: the colour has no
    * NaN component and its luminance is NaN, which is neither below -1e-5
    * nor infinite. */
  lemma SanitiseAsWrittenPassesMixedInfinity()
    ensures var c := Colour(Inf(false), Inf(true), Num(0.0));
            SanitiseAsWritten(c) == c && Luminance(SanitiseAsWritten(c)).NaN?
  {
    MixedInfinityLuminance();
  }

  /** The sanitising the checks evidently aim at: the three checks, with a
    * NaN luminance rejected as well. */
  function Sanitise(c: Colour): (r: Colour)
    ensures r == c || r == Black()
    ensures Finite(r) && !HasNan(r)
    ensures Luminance(r).Num? && Luminance(r).v >= -0.00001
    ensures Finite(c) && Luminance(c).v >= -0.00001 ==> r == c
  {
    var y := Luminance(c);
    if HasNan(c) || Below(y, -0.00001) || y.Inf? || y.NaN? then Black() else c
  }

  /** The two differ only on colours whose luminance is NaN. */
  lemma SanitiseDiffersOnlyOnNaN(c: Colour)
    ensures Sanitise(c) != SanitiseAsWritten(c) <==> !HasNan(c) && Luminance(c).NaN?
  {
    var y := Luminance(c);
    if !HasNan(c) && y.NaN? {
      assert !Finite(c) && Finite(Black());
      assert SanitiseAsWritten(c) == c;
    } else {
      assert y.NaN? ==> HasNan(c);
    }
  }

  // ---------------------------------------------------------------------------
  // The pixel loop of one tile (renderer.rs:96-131)
  // ---------------------------------------------------------------------------

  /** A radiance sample: the film position and the sanitised colour passed
    * to `add_sample`. */
  datatype SampleCall = SampleCall(pixel: Point2i, index: nat, pFilm: Film.Point2f, colour: Colour)

  /** The `loop { ...; if !start_next_sample() { break } }` runs its body
    * before testing, so a pixel takes max(1, spp) samples. */
  function SamplesPerPixel(spp: nat): (n: nat)
    ensures n >= 1 && (spp >= 1 ==> n == spp)
  {
    if spp == 0 then 1 else spp
  }

  /** The `add_sample` calls for one pixel, sample i taking `radiance(p, i)`. */
  function PixelCalls(p: Point2i, n: nat, radiance: (Point2i, nat) -> (Film.Point2f, Colour)): (s: seq<SampleCall>)
    ensures |s| == n
    ensures forall i :: 0 <= i < n ==>
      s[i] == SampleCall(p, i, radiance(p, i).0, Sanitise(radiance(p, i).1))
  {
    seq(n, i requires 0 <= i => SampleCall(p, i, radiance(p, i).0, Sanitise(radiance(p, i).1)))
  }

  /** The calls for a run of pixels: pixels outside `pixel_bounds` contribute
    * none. */
  function TileCalls(pts: seq<Point2i>, pixelBounds: Bounds2i, spp: nat,
                     radiance: (Point2i, nat) -> (Film.Point2f, Colour)): seq<SampleCall>
  {
    if |pts| == 0 then []
    else TileCalls(pts[..|pts| - 1], pixelBounds, spp, radiance) +
         (if InsideExclusive2(pixelBounds, pts[|pts| - 1])
          then PixelCalls(pts[|pts| - 1], SamplesPerPixel(spp), radiance) else [])
  }

  /** Every call of a run concerns one of its pixels inside `pixel_bounds`
    * and carries a sanitised colour. */
  lemma {:induction false} TileCallsInside(pts: seq<Point2i>, pixelBounds: Bounds2i, spp: nat,
                                          radiance: (Point2i, nat) -> (Film.Point2f, Colour))
    ensures forall c :: c in TileCalls(pts, pixelBounds, spp, radiance) ==>
      c.pixel in pts && InsideExclusive2(pixelBounds, c.pixel) && Finite(c.colour)
  {
    if |pts| > 0 {
      TileCallsInside(pts[..|pts| - 1], pixelBounds, spp, radiance);
    }
  }

  /** The sample loop of one pixel: it takes a sample, then asks
    * `start_next_sample` whether to go on. */
  method SamplePixel(p: Point2i, spp: nat, radiance: (Point2i, nat) -> (Film.Point2f, Colour))
    returns (calls: seq<SampleCall>)
    ensures calls == PixelCalls(p, SamplesPerPixel(spp), radiance)
  {
    var i := 0;
    calls := [];
    while true
      invariant 0 <= i < SamplesPerPixel(spp)
      invariant calls == PixelCalls(p, i, radiance)
      decreases SamplesPerPixel(spp) - i
    {
      var (pFilm, colour) := radiance(p, i);
      calls := calls + [SampleCall(p, i, pFilm, Sanitise(colour))];
      i := i + 1;
      if !(i < spp) {
        assert i == SamplesPerPixel(spp);
        break;
      }
    }
  }

  /** `render`'s loop over one tile: `start_pixel` for every pixel of the
    * tile in iterator order, then, for pixels inside `pixel_bounds` only,
    * max(1, spp) sanitised samples each. */
  method RenderTile(tileBounds: Bounds2i, pixelBounds: Bounds2i, spp: nat,
                    radiance: (Point2i, nat) -> (Film.Point2f, Colour))
    returns (started: seq<Point2i>, calls: seq<SampleCall>)
    ensures started == RowMajorSeq(tileBounds)
    ensures calls == TileCalls(started, pixelBounds, spp, radiance)
  {
    var it := new Bounds2Iterator(tileBounds);
    started := [];
    calls := [];
    ghost var n := if Degenerate2(tileBounds) then 0 else Area2(tileBounds);
    while true
      invariant it.Valid() && it.bounds == tileBounds
      invariant !Degenerate2(tileBounds) ==> it.Yielded() == |started| && |started| <= n
      invariant Degenerate2(tileBounds) ==> started == []
      invariant forall k :: 0 <= k < |started| ==> !Degenerate2(tileBounds) && started[k] == RowMajorPoint(tileBounds, k)
      invariant calls == TileCalls(started, pixelBounds, spp, radiance)
      decreases n - |started|
    {
      var next := it.Next();
      if next.None? {
        break;
      }
      var p := next.value;
      ghost var prev := started;
      started := started + [p];
      assert started[..|started| - 1] == prev;
      if !InsideExclusive2(pixelBounds, p) {
        assert TileCalls(started, pixelBounds, spp, radiance) == TileCalls(started[..|started| - 1], pixelBounds, spp, radiance);
        continue;
      }
      var pixelCalls := SamplePixel(p, spp, radiance);
      calls := calls + pixelCalls;
    }
  }
}
