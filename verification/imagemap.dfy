/** The image texture of rustracer-core/src/texture/imagemap.rs: the
  * in-place vertical flip of the texel buffer read from disk, the grey
  * fallback when the read fails, and the option selection of `create`.
  * A buffer of `w × h` texels holds texel (x, y) at offset `y·w + x`. */
module ImageMap {
  import opened Wrappers
  import MipMap

  datatype Rgb = Rgb(r: real, g: real, b: real)

  /** `Spectrum::grey(v)`. */
  function Grey(v: real): Rgb
  {
    Rgb(v, v, v)
  }

  // ---------------------------------------------------------------------------
  // Offsets in a row-major buffer
  // ---------------------------------------------------------------------------

  /** The offset of texel (x, y) in a buffer `w` texels wide. */
  function Index(x: nat, y: nat, w: nat): nat
  {
    y * w + x
  }

  /** The offsets of a `w × h` buffer are exactly the `Index(x, y, w)` with
    * x < w and y < h: each has a row below h and a column below w. */
  lemma IndexInside(x: nat, y: nat, w: nat, h: nat)
    requires x < w && y < h
    ensures Index(x, y, w) < w * h
  {
    assert y * w + x < y * w + w == (y + 1) * w;
    assert (y + 1) * w <= h * w by {
      MulMono(y + 1, h, w);
    }
  }

  lemma MulMono(a: nat, b: nat, w: nat)
    requires a <= b
    ensures a * w <= b * w
  {
  }

  /** Division by `w` recovers row and column of an offset. */
  lemma DivModOf(i: nat, w: nat, q: nat, r: nat)
    requires w >= 1 && i == q * w + r && r < w
    ensures i / w == q && i % w == r
  {
    var q', r' := i / w, i % w;
    assert i == q' * w + r';
    if q' > q {
      assert (q' - q) * w == r - r';
      MulMono(1, q' - q, w);
    } else if q' < q {
      assert (q - q') * w == r' - r;
      MulMono(1, q - q', w);
    }
  }

  /** An offset inside a `w × h` buffer lies in a row below h. */
  lemma RowBelow(i: nat, w: nat, h: nat)
    requires w >= 1 && i < w * h
    ensures i / w < h && i % w < w
  {
    if i / w >= h {
      MulMono(h, i / w, w);
    }
  }

  // ---------------------------------------------------------------------------
  // The flip (imagemap.rs:54-61)
  // ---------------------------------------------------------------------------

  /** The offset whose texel lands at offset `i` after the flip: same
    * column, mirrored row. */
  function Mirror(i: nat, w: nat, h: nat): (j: nat)
    requires w >= 1 && i < w * h
    ensures j < w * h
  {
    RowBelow(i, w, h);
    IndexInside(i % w, h - 1 - i / w, w, h);
    Index(i % w, h - 1 - i / w, w)
  }

  /** The flipped buffer: texel (x, y) comes from (x, h - 1 - y). */
  function Flipped<T>(s: seq<T>, w: nat, h: nat): (f: seq<T>)
    requires |s| == w * h
    ensures |f| == |s|
  {
    seq(|s|, i requires 0 <= i < |s| => s[Mirror(i, w, h)])
  }

  /** The flip in pixel terms: (x, y) of the result is (x, h - 1 - y) of the
    * original. */
  lemma FlippedPixel<T>(s: seq<T>, w: nat, h: nat, x: nat, y: nat)
    requires |s| == w * h && x < w && y < h
    ensures Index(x, y, w) < |s| && Index(x, h - 1 - y, w) < |s|
    ensures Flipped(s, w, h)[Index(x, y, w)] == s[Index(x, h - 1 - y, w)]
  {
    IndexInside(x, y, w, h);
    IndexInside(x, h - 1 - y, w, h);
    DivModOf(Index(x, y, w), w, y, x);
  }

  /** Mirroring twice returns to the same offset. */
  lemma MirrorTwice(i: nat, w: nat, h: nat)
    requires w >= 1 && i < w * h
    ensures Mirror(Mirror(i, w, h), w, h) == i
  {
    RowBelow(i, w, h);
    var x, y := i % w, i / w;
    DivModOf(Mirror(i, w, h), w, h - 1 - y, x);
    assert i == Index(x, y, w);
  }

  /** Flipping twice restores the buffer. */
  lemma FlippedTwice<T>(s: seq<T>, w: nat, h: nat)
    requires |s| == w * h
    ensures Flipped(Flipped(s, w, h), w, h) == s
  {
    forall i | 0 <= i < |s|
      ensures Flipped(Flipped(s, w, h), w, h)[i] == s[i]
    {
      MirrorTwice(i, w, h);
    }
  }

  /** In an image of odd height the middle row stays where it is. */
  lemma FlippedMiddleRow<T>(s: seq<T>, w: nat, h: nat, x: nat)
    requires |s| == w * h && h % 2 == 1 && x < w
    ensures Index(x, h / 2, w) < |s|
    ensures Flipped(s, w, h)[Index(x, h / 2, w)] == s[Index(x, h / 2, w)]
  {
    FlippedPixel(s, w, h, x, h / 2);
  }

  /** The row whose texels row `r` holds after the rows y' < y have been
    * exchanged with their mirrors h - 1 - y'. */
  function SourceRow(r: nat, h: nat, y: nat): nat
    requires r < h
  {
    if r < y || r + y >= h then h - 1 - r else r
  }

  /** Every texel (x, r) of `s` is texel (x, SourceRow(r, h, y)) of `orig`. */
  ghost predicate RowsExchanged<T>(s: seq<T>, orig: seq<T>, w: nat, h: nat, y: nat)
    requires |s| == |orig| == w * h
  {
    IndexInsideAll(w, h);
    forall x, r :: 0 <= x < w && 0 <= r < h ==> s[Index(x, r, w)] == orig[Index(x, SourceRow(r, h, y), w)]
  }

  lemma IndexInsideAll(w: nat, h: nat)
    ensures forall x, y :: 0 <= x < w && 0 <= y < h ==> Index(x, y, w) < w * h
  {
    forall x, y | 0 <= x < w && 0 <= y < h
      ensures Index(x, y, w) < w * h
    {
      IndexInside(x, y, w, h);
    }
  }

  /** Texel (x, r) lies in the row starting at y·w exactly when r == y. */
  lemma InRow(x: nat, r: nat, y: nat, w: nat)
    requires x < w
    ensures y * w <= Index(x, r, w) < y * w + w <==> r == y
  {
    if r < y {
      MulMono(r + 1, y, w);
    } else if r > y {
      MulMono(y + 1, r, w);
    }
  }

  /** Where offset `i` has come from after the first `n` texels of the rows
    * starting at `b1` and `b2` have been exchanged. */
  function RowSwapSource(i: nat, b1: nat, b2: nat, n: nat): nat
  {
    if b1 <= i < b1 + n then i - b1 + b2
    else if b2 <= i < b2 + n then i - b2 + b1
    else i
  }

  /** Exchanges the `w` texels at `b1` with those at `b2`, one pair at a
    * time (the inner loop of the flip). */
  method SwapRows<T>(a: array<T>, b1: nat, b2: nat, w: nat)
    requires b1 + w <= b2 && b2 + w <= a.Length
    modifies a
    ensures forall i :: 0 <= i < a.Length ==> a[i] == old(a[RowSwapSource(i, b1, b2, w)])
    ensures multiset(a[..]) == multiset(old(a[..]))
  {
    var x := 0;
    while x < w
      invariant x <= w
      invariant forall i :: 0 <= i < a.Length ==> a[i] == old(a[RowSwapSource(i, b1, b2, x)])
      invariant multiset(a[..]) == multiset(old(a[..]))
    {
      a[b1 + x], a[b2 + x] := a[b2 + x], a[b1 + x];
      x := x + 1;
    }
  }

  /** Row r with rows y and h - 1 - y exchanged. */
  function Partner(r: nat, h: nat, y: nat): (r': nat)
    requires r < h && y < h / 2
    ensures r' < h
  {
    if r == y then h - 1 - y else if r == h - 1 - y then y else r
  }

  /** Exchanging row y with row h - 1 - y advances `SourceRow` by one row:
    * texel (x, r) of the result is read from texel (x, Partner(r, h, y)) of
    * the state before. */
  lemma ExchangeStep(x: nat, r: nat, w: nat, h: nat, y: nat)
    requires x < w && r < h && y < h / 2
    ensures RowSwapSource(Index(x, r, w), Index(0, y, w), Index(0, h - 1 - y, w), w) == Index(x, Partner(r, h, y), w)
    ensures SourceRow(Partner(r, h, y), h, y) == SourceRow(r, h, y + 1)
  {
    ExchangeIndex(x, r, w, y, h - 1 - y, Index(0, y, w), Index(0, h - 1 - y, w));
  }

  lemma ExchangeIndex(x: nat, r: nat, w: nat, y: nat, y2: nat, b1: nat, b2: nat)
    requires x < w && y < y2 && b1 == y * w && b2 == y2 * w
    ensures RowSwapSource(Index(x, r, w), b1, b2, w) == Index(x, if r == y then y2 else if r == y2 then y else r, w)
  {
    InRow(x, r, y, w);
    InRow(x, r, y2, w);
    if r == y {
      assert Index(x, r, w) == b1 + x;
      assert Index(x, y2, w) == b2 + x;
    } else if r == y2 {
      assert Index(x, r, w) == b2 + x;
      assert Index(x, y, w) == b1 + x;
    }
  }

  /** Rows y and h - 1 - y of the top half are disjoint and inside the
    * buffer. */
  lemma RowPairFits(w: nat, h: nat, y: nat)
    requires y < h / 2
    ensures Index(0, y, w) + w <= Index(0, h - 1 - y, w) && Index(0, h - 1 - y, w) + w <= w * h
  {
    MulMono(y + 1, h - 1 - y, w);
    MulMono(h - y, h, w);
    assert (y + 1) * w == y * w + w;
    assert (h - y) * w == (h - 1 - y) * w + w;
  }

  /** The flip of `ImageTexture::new` (imagemap.rs:54-61): row y is
    * exchanged with row h - 1 - y for every y < h / 2. The buffer becomes
    * its flipped image, a permutation of the original. */
  method FlipY<T>(a: array<T>, w: nat, h: nat)
    requires a.Length == w * h
    modifies a
    ensures a[..] == Flipped(old(a[..]), w, h)
    ensures multiset(a[..]) == multiset(old(a[..]))
  {
    ghost var orig := a[..];
    IndexInsideAll(w, h);
    var y := 0;
    while y < h / 2
      invariant y <= h / 2 && |orig| == a.Length
      invariant RowsExchanged(a[..], orig, w, h, y)
      invariant multiset(a[..]) == multiset(orig)
    {
      RowPairFits(w, h, y);
      ghost var before := a[..];
      SwapRows(a, Index(0, y, w), Index(0, h - 1 - y, w), w);
      forall x, r | 0 <= x < w && 0 <= r < h
        ensures a[..][Index(x, r, w)] == orig[Index(x, SourceRow(r, h, y + 1), w)]
      {
        ExchangeStep(x, r, w, h, y);
      }
      y := y + 1;
    }
    FlipComplete(a[..], orig, w, h);
  }

  /** Once every row pair has been exchanged the buffer is the flipped
    * image. */
  lemma FlipComplete<T>(s: seq<T>, orig: seq<T>, w: nat, h: nat)
    requires |s| == |orig| == w * h
    requires RowsExchanged(s, orig, w, h, h / 2)
    ensures s == Flipped(orig, w, h)
  {
    if w >= 1 {
      forall i | 0 <= i < |s|
        ensures s[i] == Flipped(orig, w, h)[i]
      {
        FlipCompleteAt(s, orig, w, h, i);
      }
    }
  }

  lemma FlipCompleteAt<T>(s: seq<T>, orig: seq<T>, w: nat, h: nat, i: nat)
    requires |s| == |orig| == w * h && w >= 1 && i < |s|
    requires RowsExchanged(s, orig, w, h, h / 2)
    ensures s[i] == Flipped(orig, w, h)[i]
  {
    RowBelow(i, w, h);
    var x, r := i % w, i / w;
    assert i == Index(x, r, w);
    SourceRowDone(r, h);
    assert s[Index(x, r, w)] == orig[Index(x, SourceRow(r, h, h / 2), w)];
  }

  /** After h / 2 exchanges every row holds its mirror. */
  lemma SourceRowDone(r: nat, h: nat)
    requires r < h
    ensures SourceRow(r, h, h / 2) == h - 1 - r
  {
  }

  // ---------------------------------------------------------------------------
  // Loading the texels (imagemap.rs:50-71)
  // ---------------------------------------------------------------------------

  /** The texels `new` hands on: the flipped image when the read succeeded,
    * and a single grey(0.18) texel of resolution 1 × 1 when it failed.
    * `readOk` stands for the outcome of `read_image`. */
  method LoadTexels(readOk: bool, pixels: array<Rgb>, resX: nat, resY: nat)
    returns (rx: nat, ry: nat, texels: seq<Rgb>)
    requires pixels.Length == resX * resY
    modifies pixels
    ensures readOk ==> rx == resX && ry == resY && texels == Flipped(old(pixels[..]), resX, resY)
    ensures !readOk ==> rx == 1 && ry == 1 && texels == [Grey(0.18)] && pixels[..] == old(pixels[..])
    ensures |texels| == rx * ry
  {
    if readOk {
      FlipY(pixels, resX, resY);
      rx, ry, texels := resX, resY, pixels[..];
    } else {
      rx, ry, texels := 1, 1, [Grey(0.18)];
    }
  }

  // ---------------------------------------------------------------------------
  // Options of `create` (imagemap.rs:98-139)
  // ---------------------------------------------------------------------------

  /** The "wrap" string: "black" and "clamp" name their modes, anything else
    * is Repeat. */
  function WrapModeOf(wrap: string): (m: MipMap.WrapMode)
    ensures wrap == "black" <==> m == MipMap.Black
    ensures wrap == "clamp" <==> m == MipMap.Clamp
  {
    if wrap == "black" then MipMap.Black
    else if wrap == "clamp" then MipMap.Clamp
    else MipMap.Repeat
  }

  /** The name a scene file uses for each wrap mode. */
  function WrapName(m: MipMap.WrapMode): string
  {
    match m
    case Repeat => "repeat"
    case Black => "black"
    case Clamp => "clamp"
  }

  /** Every mode is selected by its own name, and the default "repeat" as
    * well as an unknown name selects Repeat. */
  lemma WrapModeRoundTrip(m: MipMap.WrapMode, other: string)
    requires other != "black" && other != "clamp"
    ensures WrapModeOf(WrapName(m)) == m
    ensures WrapModeOf(other) == MipMap.Repeat
  {
  }

  /** The index of the last `c` in `s`. */
  function LastIndex(s: string, c: char): (r: Option<nat>)
    ensures r.Some? ==> r.value < |s| && s[r.value] == c && forall j :: r.value < j < |s| ==> s[j] != c
    ensures r.None? ==> forall j :: 0 <= j < |s| ==> s[j] != c
  {
    if |s| == 0 then None
    else if s[|s| - 1] == c then Some(|s| - 1)
    else LastIndex(s[..|s| - 1], c)
  }

  /** A path with its trailing separators and trailing "." components
    * removed: `Path::components` skips both. */
  function Trimmed(path: string): (t: string)
    ensures t <= path
    ensures |t| == 0 || t[|t| - 1] != '/'
    ensures !(|t| >= 2 && t[|t| - 2..] == "/.")
    decreases |path|
  {
    if |path| > 0 && path[|path| - 1] == '/' then Trimmed(path[..|path| - 1])
    else if |path| >= 2 && path[|path| - 2..] == "/." then Trimmed(path[..|path| - 2])
    else path
  }

  /** `Path::file_name`: the last component of the trimmed path, or none
    * when that is the root, empty, "." or "..". */
  function FileName(path: string): (name: Option<string>)
    ensures name.Some? ==> '/' !in name.value && name.value !in {"", ".", ".."}
  {
    var t := Trimmed(path);
    var last := match LastIndex(t, '/') case None => t case Some(i) => t[i + 1..];
    if last in {"", ".", ".."} then None else Some(last)
  }

  /** A trailing separator or "." component does not change the file name. */
  lemma FileNameIgnoresTrailing(path: string)
    ensures FileName(path + "/") == FileName(path)
    ensures FileName(path + "/.") == FileName(path)
  {
    TrimmedSlash(path);
    TrimmedDot(path);
  }

  lemma TrimmedSlash(path: string)
    ensures Trimmed(path + "/") == Trimmed(path)
  {
    var q := path + "/";
    assert q[|q| - 1] == '/' && q[..|q| - 1] == path;
  }

  lemma TrimmedDot(path: string)
    ensures Trimmed(path + "/.") == Trimmed(path)
  {
    var q := path + "/.";
    assert q[|q| - 1] == '.' && q[|q| - 2..] == "/." && q[..|q| - 2] == path;
  }

  /** `Path::extension` of a file name: the text after its last '.', except
    * for a name whose only '.' is its first character. */
  function Extension(name: string): Option<string>
  {
    match LastIndex(name, '.')
    case None => None
    case Some(i) => if i == 0 then None else Some(name[i + 1..])
  }

  /** `fileutil::has_extension`. */
  function HasExtension(path: string, ext: string): bool
  {
    FileName(path).Some? && Extension(FileName(path).value) == Some(ext)
  }

  /** The default of "gamma": true for .tga and .png files. */
  function DefaultGamma(filename: string): bool
  {
    HasExtension(filename, "tga") || HasExtension(filename, "png")
  }

  /** A path has extension `ext` (free of '.' and '/') exactly when it ends
    * in "." + ext and its file name has something before that dot. */
  lemma HasExtensionBySuffix(path: string, ext: string)
    requires '.' !in ext && '/' !in ext
    ensures HasExtension(path, ext) <==> FileName(path).Some? && DotSuffix(FileName(path).value, ext)
  {
    if FileName(path).Some? {
      var name := FileName(path).value;
      if DotSuffix(name, ext) {
        SuffixGivesExtension(name, ext);
      }
      if HasExtension(path, ext) {
        ExtensionGivesSuffix(name, ext);
      }
    }
  }

  /** `name` is longer than "." + ext and ends in it. */
  predicate DotSuffix(name: string, ext: string)
  {
    |name| > |ext| + 1 && name[|name| - |ext| - 1..] == "." + ext
  }

  lemma SuffixGivesExtension(name: string, ext: string)
    requires '.' !in ext && DotSuffix(name, ext)
    ensures Extension(name) == Some(ext)
  {
    var k := |name| - |ext| - 1;
    assert name[k] == (name[k..])[0] == '.';
    assert forall j :: k < j < |name| ==> name[j] == (name[k..])[j - k] == ext[j - k - 1];
    LastIndexAt(name, '.', k);
    assert name[k + 1..] == (name[k..])[1..];
  }

  lemma ExtensionGivesSuffix(name: string, ext: string)
    requires Extension(name) == Some(ext)
    ensures DotSuffix(name, ext)
  {
    var i := LastIndex(name, '.').value;
    assert name[i..] == [name[i]] + name[i + 1..];
  }

  /** When `s[k] == c` and no later character is `c`, the last `c` is at k. */
  lemma LastIndexAt(s: string, c: char, k: nat)
    requires k < |s| && s[k] == c && forall j :: k < j < |s| ==> s[j] != c
    ensures LastIndex(s, c) == Some(k)
  {
    if k < |s| - 1 {
      LastIndexAt(s[..|s| - 1], c, k);
    }
  }

  /** A plain name is its own file name. */
  lemma FileNameOfName(name: string)
    requires '/' !in name && name !in {"", ".", ".."}
    ensures FileName(name) == Some(name)
  {
    assert name[|name| - 1] != '/';
    assert |name| >= 2 ==> name[|name| - 2] != '/';
    assert !(|name| >= 2 && name[|name| - 2..] == "/.");
    assert Trimmed(name) == name;
  }

  /** The file name of `dir/name` is `name`. */
  lemma FileNameBelow(dir: string, name: string)
    requires '/' !in name && name !in {"", ".", ".."}
    ensures FileName(dir + "/" + name) == Some(name)
  {
    var p := dir + "/" + name;
    assert p[|p| - 1] == name[|name| - 1] != '/';
    assert |name| >= 2 ==> p[|p| - 2] == name[|name| - 2] != '/';
    if |name| == 1 {
      assert name == [name[0]];
      assert p[|p| - 1] == name[0] != '.';
    }
    assert !(|p| >= 2 && p[|p| - 2..] == "/.");
    assert Trimmed(p) == p;
    assert p[|dir|] == '/';
    assert forall j :: |dir| < j < |p| ==> p[j] == name[j - |dir| - 1];
    LastIndexAt(p, '/', |dir|);
    assert p[|dir| + 1..] == name;
  }

  /** A .png file below a directory defaults to gamma correction, with or
    * without a trailing separator. */
  lemma DefaultGammaPng(dir: string, stem: string)
    requires '/' !in stem && |stem| > 0
    ensures DefaultGamma(dir + "/" + stem + ".png")
    ensures DefaultGamma(dir + "/" + stem + ".png" + "/")
  {
    var name := stem + ".png";
    PngSuffix(stem);
    StemName(stem, ".png");
    var path := dir + "/" + name;
    assert dir + "/" + stem + ".png" == path;
    FileNameBelow(dir, name);
    FileNameIgnoresTrailing(path);
    DefaultGammaByName(path, "png");
    DefaultGammaByName(path + "/", "png");
  }

  lemma PngSuffix(stem: string)
    requires |stem| > 0
    ensures DotSuffix(stem + ".png", "png")
  {
    var name := stem + ".png";
    assert name[|stem|..] == ".png";
  }

  /** `stem + suffix` has no separator when neither part has one. */
  lemma StemName(stem: string, suffix: string)
    requires '/' !in stem && '/' !in suffix
    ensures '/' !in stem + suffix
  {
    var name := stem + suffix;
    assert forall j :: 0 <= j < |stem| ==> name[j] == stem[j];
    assert forall j :: |stem| <= j < |name| ==> name[j] == suffix[j - |stem|];
  }

  /** A file whose name ends in ".png" or ".tga" defaults to gamma correction. */
  lemma DefaultGammaByName(path: string, ext: string)
    requires ext == "png" || ext == "tga"
    requires FileName(path).Some? && DotSuffix(FileName(path).value, ext)
    ensures DefaultGamma(path)
  {
    HasExtensionBySuffix(path, ext);
  }

  /** A file whose name ends in ".jpg" does not. */
  lemma DefaultGammaJpg(path: string)
    requires FileName(path).Some? && DotSuffix(FileName(path).value, "jpg")
    ensures !DefaultGamma(path)
  {
    var name := FileName(path).value;
    assert name[|name| - 3] == 'j';
    HasExtensionBySuffix(path, "tga");
    HasExtensionBySuffix(path, "png");
  }
}
