/** The film of rustracer-core/src/film.rs: its pixel buffer over the
  * cropped pixel bounds, the per-tile buffers that samples are splatted
  * into, and the merge of a finished tile into the film. Colours keep NaN
  * and the infinities (F32Colour); pixel coordinates are the `i32` points
  * of Bounds. */
module Film {
  import opened Util
  import opened Wrappers
  import opened Bounds
  import opened F32Colour

  /** `FILTER_SIZE`: the filter table is 16 × 16. */
  const FILTER_SIZE: nat := 16
  const FILTER_TABLE_SIZE: nat := 256

  /** A `Point2f` or `Vector2f`. */
  datatype Point2f = Point2f(x: real, y: real)

  /** A `Bounds2f` crop window, in fractions of the full resolution. */
  datatype CropWindow = CropWindow(pMin: Point2f, pMax: Point2f)

  // ---------------------------------------------------------------------------
  // Pixel offsets (film.rs:224-230, 321-325)
  // ---------------------------------------------------------------------------

  /** The row-major offset of p within b, as `get_pixel_idx` and
    * `FilmTile::get_pixel_index` compute it. */
  function PixelOffset(b: Bounds2i, p: Point2i): (r: int)
    ensures InsideExclusive2(b, p) ==> 0 <= r < Area2(b)
  {
    RowOffsetBelow(p.y - b.pMin.y, b.pMax.y - b.pMin.y, b.pMax.x - b.pMin.x, p.x - b.pMin.x);
    (p.y - b.pMin.y) * (b.pMax.x - b.pMin.x) + (p.x - b.pMin.x)
  }

  /** Row r < h, column c < w of a w-wide grid lies below w·h. */
  lemma RowOffsetBelow(r: int, h: int, w: int, c: int)
    ensures 0 <= r < h && 0 <= c < w ==> 0 <= r * w + c < h * w
  {
    if 0 <= r < h && 0 <= c < w {
      assert r * w + c < (r + 1) * w;
      assert (r + 1) * w <= h * w;
    }
  }

  /** A pixel inside b has an offset below the area, and the offset is its
    * position in the row-major order of the bounds iterator. */
  lemma OffsetInside(b: Bounds2i, p: Point2i)
    requires InsideExclusive2(b, p)
    ensures !Degenerate2(b)
    ensures 0 <= PixelOffset(b, p) < Area2(b)
    ensures RowMajorPoint(b, PixelOffset(b, p)) == p
  {
    var k := PixelOffset(b, p);
    assert 0 <= k < Area2(b);
    KthPointAt(b, k, p);
  }

  /** The offset of the k-th row-major pixel is k: offsets and the iterator
    * order are inverse to each other. */
  lemma OffsetOfRowMajor(b: Bounds2i, k: nat)
    requires !Degenerate2(b) && k < Area2(b)
    ensures InsideExclusive2(b, RowMajorPoint(b, k))
    ensures PixelOffset(b, RowMajorPoint(b, k)) == k
  {
    var w := b.pMax.x - b.pMin.x;
    RowMajorPointInside(b, k);
    assert k == (k / w) * w + k % w;
  }

  /** Distinct pixels of b have distinct offsets. */
  lemma OffsetDistinct(b: Bounds2i, p: Point2i)
    requires InsideExclusive2(b, p)
    ensures forall q :: InsideExclusive2(b, q) && q != p ==> PixelOffset(b, q) != PixelOffset(b, p)
  {
    forall q | InsideExclusive2(b, q) && q != p
      ensures PixelOffset(b, q) != PixelOffset(b, p)
    {
      OffsetInside(b, p);
      OffsetInside(b, q);
    }
  }

  // ---------------------------------------------------------------------------
  // Pixels
  // ---------------------------------------------------------------------------

  /** A film `Pixel`: accumulated XYZ and filter weight (the splat
    * accumulators are not part of this model). */
  datatype Pixel = Pixel(xyz: Colour, filterWeightSum: real)

  /** A `FilmTilePixel`: accumulated RGB contribution and filter weight. */
  datatype TilePixel = TilePixel(contribSum: Colour, filterWeightSum: real)

  function ZeroPixel(): Pixel
  {
    Pixel(Black(), 0.0)
  }

  function ZeroTilePixel(): TilePixel
  {
    TilePixel(Black(), 0.0)
  }

  /** One step of `merge_film_tile`: the tile pixel's contribution, converted
    * to XYZ, and its weight are added into the film pixel. */
  function MergePixel(p: Pixel, t: TilePixel): (r: Pixel)
    ensures r.filterWeightSum == p.filterWeightSum + t.filterWeightSum
    ensures Finite(r.xyz) <==> Finite(p.xyz) && Finite(t.contribSum)
  {
    Pixel(AddColour(p.xyz, ToXyz(t.contribSum)), p.filterWeightSum + t.filterWeightSum)
  }

  /** One step of `add_sample`: the colour weighted by the filter value and
    * the filter value itself are added into the tile pixel. */
  function Splat(t: TilePixel, colour: Colour, w: real): (r: TilePixel)
    ensures r.filterWeightSum == t.filterWeightSum + w
    ensures Finite(t.contribSum) && Finite(colour) ==> Finite(r.contribSum)
  {
    TilePixel(AddColour(t.contribSum, ScaleColour(colour, w)), t.filterWeightSum + w)
  }

  // ---------------------------------------------------------------------------
  // Sample footprint and filter-table offsets (film.rs:256-299)
  // ---------------------------------------------------------------------------

  /** `x.ceil()` on an integer-valued result. */
  function Ceil(x: real): (r: int)
    ensures x <= r as real < x + 1.0
  {
    -((-x).Floor)
  }

  /** The pixels a sample at `pFilm` reaches: from `ceil(pd - radius)` to
    * `floor(pd + radius + 1)`, where pd is `pFilm` shifted by half a pixel
    * into discrete coordinates. A pixel is inside exactly when it lies
    * within the filter radius of pd on both axes. */
  function Footprint(pFilm: Point2f, radius: Point2f): (b: Bounds2i)
    requires radius.x >= 0.0 && radius.y >= 0.0
    ensures forall q :: InsideExclusive2(b, q) <==>
      pFilm.x - 0.5 - radius.x <= q.x as real <= pFilm.x - 0.5 + radius.x &&
      pFilm.y - 0.5 - radius.y <= q.y as real <= pFilm.y - 0.5 + radius.y
  {
    var pd := Point2f(pFilm.x - 0.5, pFilm.y - 0.5);
    FromPoints2(Point2i(Ceil(pd.x - radius.x), Ceil(pd.y - radius.y)),
                Point2i((pd.x + radius.x + 1.0).Floor, (pd.y + radius.y + 1.0).Floor))
  }

  /** The pixels `add_sample` visits: the footprint intersected with the
    * tile's pixel bounds, kept as the (possibly empty) intersection. */
  function SampleBounds(footprint: Bounds2i, pixelBounds: Bounds2i): (b: Bounds2i)
    ensures forall q :: InsideExclusive2(b, q) <==> InsideExclusive2(footprint, q) && InsideExclusive2(pixelBounds, q)
  {
    Intersect2(footprint, pixelBounds)
  }

  /** `add_sample` as written converts the intersection back to integers with
    * `Bounds2i::from`, which re-sorts the corners through `from_points`. */
  function SampleBoundsAsWritten(footprint: Bounds2i, pixelBounds: Bounds2i): (b: Bounds2i)
    ensures b.pMin.x <= b.pMax.x && b.pMin.y <= b.pMax.y
  {
    var i := Intersect2(footprint, pixelBounds);
    FromPoints2(i.pMin, i.pMax)
  }

  /** A footprint that misses the tile: the as-written bounds are not empty,
    * they lie outside the tile, and their first pixel (5, 2) lands on the
    * tile pixel (0, 3) of a 5 × 5 tile. The `assert!(p1 >= p0)` that follows
    * cannot fail. */
  lemma SampleBoundsAsWrittenLeavesTile()
    ensures var fp := Footprint(Point2f(10.5, 2.5), Point2f(0.5, 0.5));
            var tile := FromElements2(0, 0, 5, 5);
            fp == FromElements2(10, 2, 11, 3) &&
            Degenerate2(SampleBounds(fp, tile)) &&
            SampleBoundsAsWritten(fp, tile) == FromElements2(5, 2, 10, 3) &&
            InsideExclusive2(SampleBoundsAsWritten(fp, tile), Point2i(5, 2)) &&
            !InsideExclusive2(tile, Point2i(5, 2)) &&
            PixelOffset(tile, Point2i(5, 2)) == PixelOffset(tile, Point2i(0, 3))
  {
    assert Ceil(10.0 - 0.5) == 10;
    assert Ceil(2.0 - 0.5) == 2;
    assert (10.0 + 0.5 + 1.0).Floor == 11;
    assert (2.0 + 0.5 + 1.0).Floor == 3;
  }

  /** The filter-table coordinate of a pixel at signed distance d from the
    * sample: `|d · inv_radius · 16|` rounded down, at most 15. */
  function FilterIndex(d: real, invRadius: real): (i: nat)
    ensures i < FILTER_SIZE
  {
    var f := d * invRadius * (FILTER_SIZE as real);
    MinI((if f < 0.0 then -f else f).Floor, FILTER_SIZE - 1)
  }

  /** The filter weight `add_sample` reads for pixel q; the table offset is
    * always below 256. */
  function Weight(table: seq<real>, invRadius: Point2f, pFilm: Point2f, q: Point2i): real
    requires |table| == FILTER_TABLE_SIZE
  {
    var ix := FilterIndex(q.x as real - (pFilm.x - 0.5), invRadius.x);
    var iy := FilterIndex(q.y as real - (pFilm.y - 0.5), invRadius.y);
    table[iy * FILTER_SIZE + ix]
  }

  /** The `ifx`/`ify` precomputation: one table coordinate per pixel column
    * (or row) from lo up to hi. */
  method FilterOffsets(lo: int, hi: int, centre: real, invRadius: real) returns (offs: seq<nat>)
    ensures |offs| == if hi > lo then hi - lo else 0
    ensures forall j :: 0 <= j < |offs| ==> offs[j] == FilterIndex((lo + j) as real - centre, invRadius)
  {
    offs := [];
    var x := lo;
    while x < hi
      invariant lo <= x && (x <= hi || x == lo)
      invariant |offs| == x - lo
      invariant forall j :: 0 <= j < |offs| ==> offs[j] == FilterIndex((lo + j) as real - centre, invRadius)
    {
      offs := offs + [FilterIndex(x as real - centre, invRadius)];
      x := x + 1;
    }
  }

  // ---------------------------------------------------------------------------
  // FilmTile (film.rs:233-325)
  // ---------------------------------------------------------------------------

  class FilmTile {
    const pixelBounds: Bounds2i
    const filterRadius: Point2f
    const invFilterRadius: Point2f
    const filterTable: seq<real>
    var pixels: seq<TilePixel>

    ghost predicate Valid()
      reads this
    {
      pixelBounds.pMin.x <= pixelBounds.pMax.x && pixelBounds.pMin.y <= pixelBounds.pMax.y &&
      |pixels| == Area2(pixelBounds) &&
      filterRadius.x > 0.0 && filterRadius.y > 0.0 &&
      invFilterRadius == Point2f(1.0 / filterRadius.x, 1.0 / filterRadius.y) &&
      |filterTable| == FILTER_TABLE_SIZE
    }

    /** `FilmTile::new`: `area()` zeroed pixels, a copy of the filter table
      * and the inverse filter radius. */
    constructor (bounds: Bounds2i, radius: Point2f, table: seq<real>)
      requires bounds.pMin.x <= bounds.pMax.x && bounds.pMin.y <= bounds.pMax.y
      requires radius.x > 0.0 && radius.y > 0.0
      requires |table| == FILTER_TABLE_SIZE
      ensures Valid()
      ensures pixelBounds == bounds && filterRadius == radius && filterTable == table
      ensures pixels == seq(Area2(bounds), _ => ZeroTilePixel())
    {
      pixelBounds := bounds;
      filterRadius := radius;
      invFilterRadius := Point2f(1.0 / radius.x, 1.0 / radius.y);
      filterTable := table;
      pixels := seq(Area2(bounds), _ => ZeroTilePixel());
    }

    /** `get_pixel_index`: for a pixel of the tile, an index into `pixels`
      * whose row-major position is that pixel. */
    function GetPixelIndex(p: Point2i): (r: int)
      ensures InsideExclusive2(pixelBounds, p) ==>
        0 <= r < Area2(pixelBounds) && RowMajorPoint(pixelBounds, r) == p
    {
      if InsideExclusive2(pixelBounds, p) then OffsetInside(pixelBounds, p); PixelOffset(pixelBounds, p)
      else PixelOffset(pixelBounds, p)
    }

    /** `add_sample`: a colour with a NaN component is ignored; otherwise
      * every tile pixel within the filter radius of the sample gains the
      * colour times its filter weight, and no other pixel changes. */
    method AddSample(pFilm: Point2f, colour: Colour)
      requires Valid()
      modifies this
      ensures Valid()
      ensures HasNan(colour) ==> pixels == old(pixels)
      ensures !HasNan(colour) ==> forall q {:trigger PixelOffset(pixelBounds, q)} :: InsideExclusive2(pixelBounds, q) ==>
        pixels[PixelOffset(pixelBounds, q)] ==
          if InsideExclusive2(Footprint(pFilm, filterRadius), q)
          then Splat(old(pixels)[PixelOffset(pixelBounds, q)], colour, Weight(filterTable, invFilterRadius, pFilm, q))
          else old(pixels)[PixelOffset(pixelBounds, q)]
    {
      if HasNan(colour) {
        return;
      }
      var fp := Footprint(pFilm, filterRadius);
      var bounds := SampleBounds(fp, pixelBounds);
      var p0, p1 := bounds.pMin, bounds.pMax;
      var ifx := FilterOffsets(p0.x, p1.x, pFilm.x - 0.5, invFilterRadius.x);
      var ify := FilterOffsets(p0.y, p1.y, pFilm.y - 0.5, invFilterRadius.y);
      ghost var orig := pixels;
      var y := p0.y;
      while y < p1.y
        invariant p0.y <= y && (y <= p1.y || y == p0.y)
        invariant Valid()
        invariant forall q {:trigger PixelOffset(pixelBounds, q)} :: InsideExclusive2(pixelBounds, q) ==>
          pixels[PixelOffset(pixelBounds, q)] ==
            if InsideExclusive2(bounds, q) && q.y < y
            then Splat(orig[PixelOffset(pixelBounds, q)], colour, Weight(filterTable, invFilterRadius, pFilm, q))
            else orig[PixelOffset(pixelBounds, q)]
      {
        SplatRow(pFilm, colour, bounds, y, ifx, ify[y - p0.y]);
        y := y + 1;
      }
    }

    /** The inner loop of `add_sample` for row y of the visited bounds: each
      * pixel of the row gains the weighted colour; nothing else changes.
      * `ifx` holds the column filter coordinates, `iy` the row's. */
    method SplatRow(pFilm: Point2f, colour: Colour, bounds: Bounds2i, y: int, ifx: seq<nat>, iy: nat)
      requires Valid()
      requires forall q :: InsideExclusive2(bounds, q) ==> InsideExclusive2(pixelBounds, q)
      requires bounds.pMin.y <= y < bounds.pMax.y
      requires |ifx| == if bounds.pMax.x > bounds.pMin.x then bounds.pMax.x - bounds.pMin.x else 0
      requires forall j :: 0 <= j < |ifx| ==>
        ifx[j] == FilterIndex((bounds.pMin.x + j) as real - (pFilm.x - 0.5), invFilterRadius.x)
      requires iy == FilterIndex(y as real - (pFilm.y - 0.5), invFilterRadius.y)
      modifies this
      ensures Valid()
      ensures forall q {:trigger PixelOffset(pixelBounds, q)} :: InsideExclusive2(pixelBounds, q) ==>
        pixels[PixelOffset(pixelBounds, q)] ==
          if InsideExclusive2(bounds, q) && q.y == y
          then Splat(old(pixels)[PixelOffset(pixelBounds, q)], colour, Weight(filterTable, invFilterRadius, pFilm, q))
          else old(pixels)[PixelOffset(pixelBounds, q)]
    {
      var x := bounds.pMin.x;
      while x < bounds.pMax.x
        invariant bounds.pMin.x <= x && (x <= bounds.pMax.x || x == bounds.pMin.x)
        invariant Valid()
        invariant forall q {:trigger PixelOffset(pixelBounds, q)} :: InsideExclusive2(pixelBounds, q) ==>
          pixels[PixelOffset(pixelBounds, q)] ==
            if InsideExclusive2(bounds, q) && q.y == y && q.x < x
            then Splat(old(pixels)[PixelOffset(pixelBounds, q)], colour, Weight(filterTable, invFilterRadius, pFilm, q))
            else old(pixels)[PixelOffset(pixelBounds, q)]
      {
        var p := Point2i(x, y);
        var offset := iy * FILTER_SIZE + ifx[x - bounds.pMin.x];
        var w := filterTable[offset];
        assert w == Weight(filterTable, invFilterRadius, pFilm, p);
        var idx := PixelOffset(pixelBounds, p);
        OffsetDistinct(pixelBounds, p);
        pixels := pixels[idx := Splat(pixels[idx], colour, w)];
        x := x + 1;
      }
    }
  }

  // ---------------------------------------------------------------------------
  // Film (film.rs:40-231)
  // ---------------------------------------------------------------------------

  /** One corner coordinate of the cropped bounds: the resolution times
    * the window fraction, rounded up and cast to `i32`. */
  function CropCoord(res: int, c: real): int
  {
    SatI32(Ceil(CropScale(res, c)) as real)
  }

  /** The resolution times the window fraction, before rounding. */
  function CropScale(res: int, c: real): real
  {
    res as real * c
  }

  /** For c in [0, 1] the scaled coordinate lies in [0, res], and it is 0
    * for c = 0 and res for c = 1. */
  lemma CropScaleBetween(res: int, c: real)
    requires 0 <= res && 0.0 <= c <= 1.0
    ensures 0.0 <= CropScale(res, c) <= res as real
    ensures c == 0.0 ==> CropScale(res, c) == 0.0
    ensures c == 1.0 ==> CropScale(res, c) == res as real
  {
    ScaleBelow(res as real, c);
  }

  /** The cropped pixel bounds of `Film::new`: the crop window scaled by the
    * resolution, rounded up and cast to `i32`, corners sorted. */
  function CroppedBounds(resolution: Point2i, crop: CropWindow): (b: Bounds2i)
    ensures b.pMin.x <= b.pMax.x && b.pMin.y <= b.pMax.y
  {
    FromPoints2(Point2i(CropCoord(resolution.x, crop.pMin.x), CropCoord(resolution.y, crop.pMin.y)),
                Point2i(CropCoord(resolution.x, crop.pMax.x), CropCoord(resolution.y, crop.pMax.y)))
  }

  /** The whole-image window (0, 0)-(1, 1). */
  function UnitWindow(): CropWindow
  {
    CropWindow(Point2f(0.0, 0.0), Point2f(1.0, 1.0))
  }

  /** With the default window the film covers the full resolution. */
  lemma CroppedFullWindow(resolution: Point2i)
    requires 0 <= resolution.x <= I32_MAX && 0 <= resolution.y <= I32_MAX
    ensures CroppedBounds(resolution, UnitWindow()) == Bounds2i(Point2i(0, 0), resolution)
  {
    CropCoordBetween(resolution.x, 0.0);
    CropCoordBetween(resolution.x, 1.0);
    CropCoordBetween(resolution.y, 0.0);
    CropCoordBetween(resolution.y, 1.0);
  }

  /** A window inside (0, 0)-(1, 1) gives bounds inside the full image. */
  lemma CroppedInsideImage(resolution: Point2i, crop: CropWindow)
    requires 0 <= resolution.x <= I32_MAX && 0 <= resolution.y <= I32_MAX
    requires 0.0 <= crop.pMin.x <= 1.0 && 0.0 <= crop.pMax.x <= 1.0
    requires 0.0 <= crop.pMin.y <= 1.0 && 0.0 <= crop.pMax.y <= 1.0
    ensures Encloses2(Bounds2i(Point2i(0, 0), resolution), CroppedBounds(resolution, crop))
  {
    CropCoordBetween(resolution.x, crop.pMin.x);
    CropCoordBetween(resolution.x, crop.pMax.x);
    CropCoordBetween(resolution.y, crop.pMin.y);
    CropCoordBetween(resolution.y, crop.pMax.y);
  }

  /** For c in [0, 1] a corner coordinate lies in [0, n], and it is 0 for
    * c = 0 and n for c = 1. */
  lemma CropCoordBetween(n: int, c: real)
    requires 0 <= n <= I32_MAX && 0.0 <= c <= 1.0
    ensures 0 <= CropCoord(n, c) <= n
    ensures c == 0.0 ==> CropCoord(n, c) == 0
    ensures c == 1.0 ==> CropCoord(n, c) == n
  {
    CropScaleBetween(n, c);
    CeilBetween(CropScale(n, c), n);
    CropCoordOf(n, c);
  }

  /** The ceiling of a value in [0, n] lies in [0, n], and is 0 at 0 and n
    * at n. */
  lemma CeilBetween(p: real, n: int)
    requires 0.0 <= p <= n as real
    ensures 0 <= Ceil(p) <= n
    ensures p == 0.0 ==> Ceil(p) == 0
    ensures p == n as real ==> Ceil(p) == n
  {
    CeilMono(p, n as real);
    CeilMono(0.0, p);
    assert Ceil(n as real) == n;
    assert Ceil(0.0) == 0;
  }

  lemma CropCoordOf(n: int, c: real)
    requires 0 <= Ceil(CropScale(n, c)) <= I32_MAX
    ensures CropCoord(n, c) == Ceil(CropScale(n, c))
  {
    var k := Ceil(CropScale(n, c));
    assert Trunc(k as real) == k;
  }

  lemma CeilMono(a: real, b: real)
    requires a <= b
    ensures Ceil(a) <= Ceil(b)
  {
  }

  /** Film::new's filter table: entry y·16 + x is the filter evaluated at the
    * centre of cell (x, y), `((x + 0.5) · xwidth/16, (y + 0.5) · ywidth/16)`. */
  method FillFilterTable(xwidth: real, ywidth: real, evaluate: (real, real) -> real) returns (table: seq<real>)
    ensures |table| == FILTER_TABLE_SIZE
    ensures forall y, x :: 0 <= y < FILTER_SIZE && 0 <= x < FILTER_SIZE ==>
      table[y * FILTER_SIZE + x] == evaluate(FilterCellCentre(x, xwidth), FilterCellCentre(y, ywidth))
  {
    table := [];
    var y := 0;
    while y < FILTER_SIZE
      invariant 0 <= y <= FILTER_SIZE && |table| == y * FILTER_SIZE
      invariant forall yy, x :: 0 <= yy < y && 0 <= x < FILTER_SIZE ==>
        table[yy * FILTER_SIZE + x] == evaluate(FilterCellCentre(x, xwidth), FilterCellCentre(yy, ywidth))
    {
      var fy := FilterCellCentre(y, ywidth);
      var x := 0;
      while x < FILTER_SIZE
        invariant 0 <= x <= FILTER_SIZE && |table| == y * FILTER_SIZE + x
        invariant forall yy, xx :: 0 <= yy < y && 0 <= xx < FILTER_SIZE ==>
          table[yy * FILTER_SIZE + xx] == evaluate(FilterCellCentre(xx, xwidth), FilterCellCentre(yy, ywidth))
        invariant forall xx :: 0 <= xx < x ==> table[y * FILTER_SIZE + xx] == evaluate(FilterCellCentre(xx, xwidth), fy)
      {
        table := table + [evaluate(FilterCellCentre(x, xwidth), fy)];
        x := x + 1;
      }
      y := y + 1;
    }
  }

  /** The centre of filter-table cell i along an axis of the given width. */
  function FilterCellCentre(i: nat, width: real): real
  {
    (i as real + 0.5) * (width / FILTER_SIZE as real)
  }

  class Film {
    const fullResolution: Point2i
    const diagonal: real
    const filename: string
    const croppedPixelBounds: Bounds2i
    const filterTable: seq<real>
    const filterRadius: Point2f
    const scale: real
    var pixels: seq<Pixel>

    ghost predicate Valid()
      reads this
    {
      croppedPixelBounds.pMin.x <= croppedPixelBounds.pMax.x &&
      croppedPixelBounds.pMin.y <= croppedPixelBounds.pMax.y &&
      |pixels| == Area2(croppedPixelBounds) && |filterTable| == FILTER_TABLE_SIZE
    }

    /** `Film::new`: the cropped bounds, `area()` zeroed pixels, the filter
      * table and radius (the filter's widths), and the diagonal in metres. */
    constructor (resolution: Point2i, crop: CropWindow, xwidth: real, ywidth: real,
                 evaluate: (real, real) -> real, diag: real, name: string, sc: real)
      ensures Valid()
      ensures fullResolution == resolution && croppedPixelBounds == CroppedBounds(resolution, crop)
      ensures pixels == seq(Area2(CroppedBounds(resolution, crop)), _ => ZeroPixel())
      ensures filterRadius == Point2f(xwidth, ywidth) && filename == name && scale == sc
      ensures diagonal == diag * 0.001
    {
      var table := FillFilterTable(xwidth, ywidth, evaluate);
      var b := CroppedBounds(resolution, crop);
      var zeros := seq(Area2(b), _ => ZeroPixel());
      fullResolution, croppedPixelBounds, pixels, filterTable := resolution, b, zeros, table;
      filterRadius, scale, diagonal, filename := Point2f(xwidth, ywidth), sc, diag * 0.001, name;
    }

    /** `get_film_tile` needs the film's filter radius positive, as a tile
      * does. */
    ghost predicate TileReady()
      reads this
    {
      filterRadius.x > 0.0 && filterRadius.y > 0.0
    }

    /** `get_pixel_idx`: asserts that p is inside the cropped bounds; the
      * result indexes `pixels` and is p's row-major position. */
    function GetPixelIdx(p: Point2i): (r: nat)
      requires InsideExclusive2(croppedPixelBounds, p)
      ensures r < Area2(croppedPixelBounds)
      ensures RowMajorPoint(croppedPixelBounds, r) == p
    {
      OffsetInside(croppedPixelBounds, p);
      PixelOffset(croppedPixelBounds, p)
    }

    /** `merge_film_tile`: walks the tile's pixels with the bounds iterator
      * and adds each into the film pixel at the same coordinate. Every film
      * pixel covered by the tile is merged exactly once; every other is
      * unchanged. The tile must lie within the film's cropped bounds, which
      * `get_film_tile` ensures by intersecting with them. */
    method MergeFilmTile(tile: FilmTile)
      requires Valid() && tile.Valid()
      requires Encloses2(croppedPixelBounds, tile.pixelBounds)
      modifies this
      ensures Valid()
      ensures forall q {:trigger PixelOffset(croppedPixelBounds, q)} :: InsideExclusive2(croppedPixelBounds, q) ==>
        pixels[PixelOffset(croppedPixelBounds, q)] ==
          if InsideExclusive2(tile.pixelBounds, q)
          then MergePixel(old(pixels)[PixelOffset(croppedPixelBounds, q)], tile.pixels[PixelOffset(tile.pixelBounds, q)])
          else old(pixels)[PixelOffset(croppedPixelBounds, q)]
    {
      var tb := tile.pixelBounds;
      var it := new Bounds2Iterator(tb);
      ghost var orig := pixels;
      ghost var n := if Degenerate2(tb) then 0 else Area2(tb);
      ghost var k := 0;
      while true
        invariant it.Valid() && it.bounds == tb && fresh(it)
        invariant Valid()
        invariant 0 <= k <= n
        invariant !Degenerate2(tb) ==> it.Yielded() == k
        invariant forall q {:trigger PixelOffset(croppedPixelBounds, q)} :: InsideExclusive2(croppedPixelBounds, q) ==>
          pixels[PixelOffset(croppedPixelBounds, q)] ==
            if InsideExclusive2(tb, q) && PixelOffset(tb, q) < k
            then MergePixel(orig[PixelOffset(croppedPixelBounds, q)], tile.pixels[PixelOffset(tb, q)])
            else orig[PixelOffset(croppedPixelBounds, q)]
        decreases n - k
      {
        var next := it.Next();
        if next.None? {
          break;
        }
        var p := next.value;
        OffsetOfRowMajor(tb, k);
        assert InsideExclusive2(croppedPixelBounds, p);
        var tilePixel := tile.pixels[tile.GetPixelIndex(p)];
        var pidx := GetPixelIdx(p);
        OffsetDistinct(croppedPixelBounds, p);
        forall q | InsideExclusive2(tb, q) && PixelOffset(tb, q) == k
          ensures q == p
        {
          OffsetInside(tb, q);
        }
        pixels := pixels[pidx := MergePixel(pixels[pidx], tilePixel)];
        k := k + 1;
      }
      forall q | InsideExclusive2(tb, q)
        ensures PixelOffset(tb, q) < k
      {
        OffsetInside(tb, q);
      }
    }
  }

  // ---------------------------------------------------------------------------
  // Film::create (film.rs:97-127)
  // ---------------------------------------------------------------------------

  /** The settings `Film::create` passes to `Film::new`. */
  datatype FilmSettings = FilmSettings(filename: string, resolution: Point2i, crop: CropWindow,
                                       scale: real, diagonal: real)

  /** `Film::create` from the parameter lookups: the file name defaults to
    * "image.png" and is otherwise prefixed with "rt-"; the resolution
    * defaults to 1280 × 720; a four-value crop window is sorted per axis and
    * clamped to [0, 1], any other length is ignored; scale and diagonal
    * default to 1 and 35. */
  function Create(filename: string, xres: Option<int>, yres: Option<int>, cropwindow: Option<seq<real>>,
                  scale: Option<real>, diagonal: Option<real>): (s: FilmSettings)
    ensures filename == "" ==> s.filename == "image.png"
    ensures filename != "" ==> s.filename == "rt-" + filename
    ensures s.resolution == Point2i(xres.UnwrapOr(1280), yres.UnwrapOr(720))
    ensures 0.0 <= s.crop.pMin.x <= s.crop.pMax.x <= 1.0 && 0.0 <= s.crop.pMin.y <= s.crop.pMax.y <= 1.0
    ensures (cropwindow.None? || |cropwindow.value| != 4) ==> s.crop == UnitWindow()
    ensures s.scale == scale.UnwrapOr(1.0) && s.diagonal == diagonal.UnwrapOr(35.0)
  {
    var name := if filename == "" then "image.png" else "rt-" + filename;
    var crop :=
      if cropwindow.Some? && |cropwindow.value| == 4 then CropFromValues(cropwindow.value)
      else UnitWindow();
    FilmSettings(name, Point2i(xres.UnwrapOr(1280), yres.UnwrapOr(720)), crop,
                 scale.UnwrapOr(1.0), diagonal.UnwrapOr(35.0))
  }

  /** The four "cropwindow" values x0, x1, y0, y1: each axis is ordered
    * with `min`/`max` and clamped into [0, 1]; values already ordered and
    * inside [0, 1] are kept as given. */
  function CropFromValues(cr: seq<real>): (c: CropWindow)
    requires |cr| == 4
    ensures 0.0 <= c.pMin.x <= c.pMax.x <= 1.0 && 0.0 <= c.pMin.y <= c.pMax.y <= 1.0
    ensures 0.0 <= cr[0] <= cr[1] <= 1.0 && 0.0 <= cr[2] <= cr[3] <= 1.0 ==>
      c == CropWindow(Point2f(cr[0], cr[2]), Point2f(cr[1], cr[3]))
    ensures 0.0 <= cr[1] <= cr[0] <= 1.0 ==> c.pMin.x == cr[1] && c.pMax.x == cr[0]
  {
    CropWindow(Point2f(ClampR(MinR(cr[0], cr[1]), 0.0, 1.0), ClampR(MinR(cr[2], cr[3]), 0.0, 1.0)),
               Point2f(ClampR(MaxR(cr[0], cr[1]), 0.0, 1.0), ClampR(MaxR(cr[2], cr[3]), 0.0, 1.0)))
  }
}
