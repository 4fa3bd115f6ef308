/** Named parameter lists of the scene description
  * (rustracer-core/src/paramset.rs). A `ParamSet` keeps one list of items
  * per value type; each item has a name, a list of values and a
  * `looked_up` flag that lookups set through a `Cell`. Lookups return the
  * first item with the wanted name, so an earlier entry shadows a later one.
  * Numbers are `f32` in the renderer and reals here. */
module ParamSets {
  import opened Wrappers
  import Util
  import Bounds

  // ---------------------------------------------------------------------------
  // Parameter-list entries as the parser produces them (api.rs:95-156)
  // ---------------------------------------------------------------------------

  datatype ParamType =
    | Int | Bool | Float | Point2 | Vector2 | Point3 | Vector3 | Normal
    | Rgb | Xyz | Blackbody | Spectrum | String | Texture

  datatype Array = NumArray(nums: seq<real>) | StrArray(strs: seq<string>)

  /** `as_num_array`: a string array reads as no numbers. */
  function AsNumArray(a: Array): seq<real>
  {
    if a.NumArray? then a.nums else []
  }

  /** `as_str_array`: a number array reads as no strings. */
  function AsStrArray(a: Array): seq<string>
  {
    if a.StrArray? then a.strs else []
  }

  datatype ParamListEntry = ParamListEntry(paramType: ParamType, paramName: string, values: Array)

  /** The `f32` triples and pairs stored for spectra, points, vectors and
    * normals. */
  datatype Triple = Triple(x: real, y: real, z: real)
  datatype Pair = Pair(x: real, y: real)

  // ---------------------------------------------------------------------------
  // Items and the find!/find_one! searches (paramset.rs:19-45)
  // ---------------------------------------------------------------------------

  datatype Item<T> = Item(name: string, values: seq<T>, lookedUp: bool)

  /** `iter().find(|e| e.name == name)`: the position of the first item with
    * that name. */
  function FirstMatch<T>(items: seq<Item<T>>, name: string): (r: Option<nat>)
    ensures r.Some? ==> r.value < |items| && items[r.value].name == name &&
                        forall j :: 0 <= j < r.value ==> items[j].name != name
    ensures r.None? <==> forall j :: 0 <= j < |items| ==> items[j].name != name
  {
    if |items| == 0 then None
    else if items[0].name == name then Some(0)
    else match FirstMatch(items[1..], name)
         case None => None
         case Some(i) => Some(i + 1)
  }

  /** `find!`: a copy of the first matching item's value list. */
  function FindValues<T>(items: seq<Item<T>>, name: string): (r: Option<seq<T>>)
    ensures r.Some? <==> exists j :: 0 <= j < |items| && items[j].name == name
    ensures r.Some? ==> exists j :: 0 <= j < |items| && items[j].name == name &&
                                   r.value == items[j].values &&
                                   forall k :: 0 <= k < j ==> items[k].name != name
  {
    match FirstMatch(items, name)
    case None => None
    case Some(i) => Some(items[i].values)
  }

  /** `find_one!` panics on `values[0]` when the first matching item has an
    * empty list. */
  predicate FindOneDefined<T>(items: seq<Item<T>>, name: string)
  {
    FirstMatch(items, name).Some? ==> |items[FirstMatch(items, name).value].values| > 0
  }

  /** `find_one!`: the first value of the first matching item, or the
    * default when no item has that name. */
  function FindOneValue<T>(items: seq<Item<T>>, name: string, d: T): (r: T)
    requires FindOneDefined(items, name)
    ensures FindValues(items, name).None? ==> r == d
    ensures FindValues(items, name).Some? ==> r == FindValues(items, name).value[0]
  {
    match FirstMatch(items, name)
    case None => d
    case Some(i) => items[i].values[0]
  }

  /** The `looked_up.set(true)` of a successful search: only the first item
    * with that name is marked. */
  function MarkLookedUp<T>(items: seq<Item<T>>, name: string): (r: seq<Item<T>>)
    ensures |r| == |items|
    ensures forall j :: 0 <= j < |items| ==>
      r[j].name == items[j].name && r[j].values == items[j].values &&
      r[j].lookedUp == (items[j].lookedUp || FirstMatch(items, name) == Some(j))
  {
    match FirstMatch(items, name)
    case None => items
    case Some(i) => items[i := items[i].(lookedUp := true)]
  }

  /** Marking changes no search result. */
  lemma MarkPreservesFirstMatch<T>(items: seq<Item<T>>, name: string, other: string)
    ensures FirstMatch(MarkLookedUp(items, name), other) == FirstMatch(items, other)
    ensures FindValues(MarkLookedUp(items, name), other) == FindValues(items, other)
  {
    var m := MarkLookedUp(items, name);
    assert forall j :: 0 <= j < |m| ==> m[j].name == items[j].name;
  }

  /** `add_*` pushes a fresh item: a name already present keeps resolving to
    * its earlier item, a new name resolves to the pushed values. */
  lemma AppendShadowed<T>(items: seq<Item<T>>, name: string, values: seq<T>, other: string)
    ensures var r := items + [Item(name, values, false)];
      FindValues(r, other) ==
        if FindValues(items, other).Some? then FindValues(items, other)
        else if other == name then Some(values)
        else None
  {
    var r := items + [Item(name, values, false)];
    assert forall j :: 0 <= j < |items| ==> r[j] == items[j];
    assert r[|items|].name == name;
  }

  // ---------------------------------------------------------------------------
  // init: chunking numeric arrays (paramset.rs:62-163)
  // ---------------------------------------------------------------------------

  /** `slice.chunks(k)`: consecutive pieces of length k, the last possibly
    * shorter. */
  function Chunks(xs: seq<real>, k: nat): (r: seq<seq<real>>)
    requires k > 0
    ensures forall i :: 0 <= i < |r| ==> 0 < |r[i]| <= k
    decreases |xs|
  {
    if |xs| == 0 then []
    else if |xs| <= k then [xs]
    else [xs[..k]] + Chunks(xs[k..], k)
  }

  /** `.chunks(k).filter(|s| s.len() == k)`. */
  function FullChunks(xs: seq<real>, k: nat): (r: seq<seq<real>>)
    requires k > 0
    ensures forall i :: 0 <= i < |r| ==> |r[i]| == k
    decreases |xs|
  {
    if |xs| < k then []
    else [xs[..k]] + FullChunks(xs[k..], k)
  }

  /** Filtering the chunks by length keeps the full ones: the filter of
    * `Chunks` is `FullChunks`. */
  lemma {:induction false} FilterChunks(xs: seq<real>, k: nat)
    requires k > 0
    ensures FilterFull(Chunks(xs, k), k) == FullChunks(xs, k)
    decreases |xs|
  {
    if |xs| == 0 {
    } else if |xs| <= k {
      assert [xs][1..] == [];
      if |xs| == k {
        assert xs[..k] == xs && xs[k..] == [];
      }
    } else {
      FilterChunks(xs[k..], k);
      assert Chunks(xs, k) == [xs[..k]] + Chunks(xs[k..], k);
      FilterFullAppend([xs[..k]], Chunks(xs[k..], k), k);
    }
  }

  function FilterFull(cs: seq<seq<real>>, k: nat): seq<seq<real>>
  {
    if |cs| == 0 then []
    else (if |cs[0]| == k then [cs[0]] else []) + FilterFull(cs[1..], k)
  }

  lemma {:induction false} FilterFullAppend(a: seq<seq<real>>, b: seq<seq<real>>, k: nat)
    ensures FilterFull(a + b, k) == FilterFull(a, k) + FilterFull(b, k)
    decreases |a|
  {
    if |a| == 0 {
      assert a + b == b;
    } else {
      FilterFullAppend(a[1..], b, k);
      var ab := a + b;
      assert ab[0] == a[0] && ab[1..] == a[1..] + b;
      var h := if |a[0]| == k then [a[0]] else [];
      var ra, rb := FilterFull(a[1..], k), FilterFull(b, k);
      assert FilterFull(ab, k) == h + (ra + rb);
      assert FilterFull(a, k) == h + ra;
      assert h + (ra + rb) == (h + ra) + rb;
    }
  }

  /** The full chunks are the ⌊len/k⌋ consecutive k-tuples; a trailing
    * partial chunk is dropped. */
  lemma FullChunksShape(xs: seq<real>, k: nat)
    requires k > 0
    ensures |FullChunks(xs, k)| == |xs| / k
    ensures forall i :: 0 <= i < |xs| / k ==>
      k * i + k <= |xs| && FullChunks(xs, k)[i] == xs[k * i..k * i + k]
  {
    FullChunksLength(xs, k);
    forall i | 0 <= i < |xs| / k
      ensures k * i + k <= |xs| && FullChunks(xs, k)[i] == xs[k * i..k * i + k]
    {
      FullChunkAt(xs, k, i);
    }
  }

  lemma {:induction false} FullChunksLength(xs: seq<real>, k: nat)
    requires k > 0
    ensures |FullChunks(xs, k)| == |xs| / k
    decreases |xs|
  {
    if |xs| >= k {
      FullChunksLength(xs[k..], k);
      DivStep(|xs[k..]|, k);
    }
  }

  /** Chunk i is the k-tuple starting at k·i. */
  lemma {:induction false} FullChunkAt(xs: seq<real>, k: nat, i: nat)
    requires k > 0 && i < |FullChunks(xs, k)|
    ensures k * i + k <= |xs| && FullChunks(xs, k)[i] == xs[k * i..k * i + k]
    decreases i
  {
    assert |xs| >= k;
    var rest := xs[k..];
    assert FullChunks(xs, k) == [xs[..k]] + FullChunks(rest, k);
    if i > 0 {
      var j := k * (i - 1);
      assert k * i == j + k;
      FullChunkAt(rest, k, i - 1);
      assert FullChunks(xs, k)[i] == FullChunks(rest, k)[i - 1];
      assert j + k + k <= |xs|;
      assert rest[j..j + k] == xs[j + k..j + k + k];
    }
  }

  lemma DivStep(n: nat, k: nat)
    requires k > 0
    ensures (n + k) / k == n / k + 1
  {
    var q, r := n / k, n % k;
    assert n == q * k + r;
    Bounds.DivModUnique(n + k, k, q + 1, r);
  }

  /** The pairs read from a Point2 array. */
  function Pairs(xs: seq<real>): (r: seq<Pair>)
    ensures |r| == |FullChunks(xs, 2)|
  {
    var cs := FullChunks(xs, 2);
    seq(|cs|, i requires 0 <= i < |cs| => Pair(cs[i][0], cs[i][1]))
  }

  /** A Point2 array of n numbers gives ⌊n/2⌋ points, point i made of
    * numbers 2i and 2i+1. */
  lemma PairsShape(xs: seq<real>)
    ensures |Pairs(xs)| == |xs| / 2
    ensures forall i :: 0 <= i < |xs| / 2 ==> Pairs(xs)[i] == Pair(xs[2 * i], xs[2 * i + 1])
  {
    FullChunksShape(xs, 2);
  }

  /** The triples read from an Rgb, Point3, Vector3 or Normal array. */
  function Triples(xs: seq<real>): (r: seq<Triple>)
    ensures |r| == |FullChunks(xs, 3)|
  {
    var cs := FullChunks(xs, 3);
    seq(|cs|, i requires 0 <= i < |cs| => Triple(cs[i][0], cs[i][1], cs[i][2]))
  }

  /** A Point3 array of n numbers gives ⌊n/3⌋ points, point i made of
    * numbers 3i, 3i+1 and 3i+2. */
  lemma TriplesShape(xs: seq<real>)
    ensures |Triples(xs)| == |xs| / 3
    ensures forall i :: 0 <= i < |xs| / 3 ==>
      Triples(xs)[i] == Triple(xs[3 * i], xs[3 * i + 1], xs[3 * i + 2])
  {
    FullChunksShape(xs, 3);
  }

  /** Bool entries: true exactly for the string "true". */
  function Bools(strs: seq<string>): (r: seq<bool>)
    ensures |r| == |strs|
    ensures forall i :: 0 <= i < |strs| ==> (r[i] <==> strs[i] == "true")
  {
    seq(|strs|, i requires 0 <= i < |strs| => strs[i] == "true")
  }

  /** Int entries: each number cast `as i32`. */
  function Ints(nums: seq<real>): (r: seq<int>)
    ensures |r| == |nums|
    ensures forall i :: 0 <= i < |nums| ==> Util.I32_MIN <= r[i] <= Util.I32_MAX
  {
    seq(|nums|, i requires 0 <= i < |nums| => Util.SatI32(nums[i]))
  }

  // ---------------------------------------------------------------------------
  // The parameter set
  // ---------------------------------------------------------------------------

  /** The ten item lists of a `ParamSet`. */
  datatype Lists = Lists(
    bools: seq<Item<bool>>,
    ints: seq<Item<int>>,
    floats: seq<Item<real>>,
    strings: seq<Item<string>>,
    spectra: seq<Item<Triple>>,
    point2fs: seq<Item<Pair>>,
    point3fs: seq<Item<Triple>>,
    vector3fs: seq<Item<Triple>>,
    normal3fs: seq<Item<Triple>>,
    textures: seq<Item<string>>)

  const EmptyLists := Lists([], [], [], [], [], [], [], [], [], [])

  /** What one entry of `init` pushes. Reading an SPD file and the
    * blackbody spectrum are float computations outside this model and are
    * parameters: `spd` returns None when a file cannot be read, which
    * `init` replaces by black. Vector2 and Xyz entries only log an error. */
  function AddEntry(l: Lists, e: ParamListEntry, spd: string -> Option<Triple>,
                    blackbody: (real, real) -> Triple): (r: Lists)
  {
    var name := e.paramName;
    var nums := AsNumArray(e.values);
    var strs := AsStrArray(e.values);
    match e.paramType
    case Bool => l.(bools := l.bools + [Item(name, Bools(strs), false)])
    case Int => l.(ints := l.ints + [Item(name, Ints(nums), false)])
    case Float => l.(floats := l.floats + [Item(name, nums, false)])
    case String => l.(strings := l.strings + [Item(name, strs, false)])
    case Rgb => l.(spectra := l.spectra + [Item(name, Triples(nums), false)])
    case Point2 => l.(point2fs := l.point2fs + [Item(name, Pairs(nums), false)])
    case Point3 => l.(point3fs := l.point3fs + [Item(name, Triples(nums), false)])
    case Vector3 => l.(vector3fs := l.vector3fs + [Item(name, Triples(nums), false)])
    case Normal => l.(normal3fs := l.normal3fs + [Item(name, Triples(nums), false)])
    case Texture => l.(textures := l.textures + [Item(name, strs, false)])
    case Spectrum =>
      var s := seq(|strs|, i requires 0 <= i < |strs| => spd(strs[i]).UnwrapOr(Triple(0.0, 0.0, 0.0)));
      l.(spectra := l.spectra + [Item(name, s, false)])
    case Blackbody =>
      var cs := FullChunks(nums, 2);
      var s := seq(|cs|, i requires 0 <= i < |cs| => blackbody(cs[i][0], cs[i][1]));
      l.(spectra := l.spectra + [Item(name, s, false)])
    case Vector2 => l
    case Xyz => l
  }

  /** The entries in order, each pushing at most one item. */
  function AddEntries(l: Lists, es: seq<ParamListEntry>, spd: string -> Option<Triple>,
                      blackbody: (real, real) -> Triple): Lists
    decreases |es|
  {
    if |es| == 0 then l
    else AddEntry(AddEntries(l, es[..|es| - 1], spd, blackbody), es[|es| - 1], spd, blackbody)
  }

  /** Every list of r starts with the corresponding list of l. */
  predicate Extends(l: Lists, r: Lists)
  {
    l.bools <= r.bools && l.ints <= r.ints && l.floats <= r.floats &&
    l.strings <= r.strings && l.spectra <= r.spectra && l.point2fs <= r.point2fs &&
    l.point3fs <= r.point3fs && l.vector3fs <= r.vector3fs &&
    l.normal3fs <= r.normal3fs && l.textures <= r.textures
  }

  /** One entry pushes at most one item onto one list. */
  lemma AddEntryExtends(l: Lists, e: ParamListEntry, spd: string -> Option<Triple>,
                        blackbody: (real, real) -> Triple)
    ensures Extends(l, AddEntry(l, e, spd, blackbody))
  {
  }

  /** Every list only grows: the items present before `init` stay at the
    * front, so earlier entries keep shadowing later ones. */
  lemma {:induction false} AddEntriesExtends(l: Lists, es: seq<ParamListEntry>, spd: string -> Option<Triple>,
                                             blackbody: (real, real) -> Triple)
    ensures Extends(l, AddEntries(l, es, spd, blackbody))
    decreases |es|
  {
    if |es| > 0 {
      var m := AddEntries(l, es[..|es| - 1], spd, blackbody);
      AddEntriesExtends(l, es[..|es| - 1], spd, blackbody);
      AddEntryExtends(m, es[|es| - 1], spd, blackbody);
    }
  }

  /** A Point3 entry of n numbers adds one item of ⌊n/3⌋ points under its
    * name and touches no other list. */
  lemma AddPoint3Entry(l: Lists, name: string, nums: seq<real>, spd: string -> Option<Triple>,
                       blackbody: (real, real) -> Triple)
    ensures var r := AddEntry(l, ParamListEntry(Point3, name, NumArray(nums)), spd, blackbody);
      r == l.(point3fs := r.point3fs) &&
      |r.point3fs| == |l.point3fs| + 1 &&
      r.point3fs[|l.point3fs|].name == name &&
      |r.point3fs[|l.point3fs|].values| == |nums| / 3
  {
    TriplesShape(nums);
  }

  class ParamSet {
    var lists: Lists

    /** `ParamSet::default()`. */
    constructor ()
      ensures lists == EmptyLists
    {
      lists := EmptyLists;
    }

    /** `init`: one item per entry, pushed in order. */
    method Init(entries: seq<ParamListEntry>, spd: string -> Option<Triple>,
                blackbody: (real, real) -> Triple)
      modifies this
      ensures lists == AddEntries(old(lists), entries, spd, blackbody)
    {
      var i := 0;
      while i < |entries|
        invariant 0 <= i <= |entries|
        invariant lists == AddEntries(old(lists), entries[..i], spd, blackbody)
      {
        assert entries[..i + 1][..i] == entries[..i];
        lists := AddEntry(lists, entries[i], spd, blackbody);
        i := i + 1;
      }
      assert entries[..i] == entries;
    }

    /** `find_one_int`. */
    method FindOneInt(name: string, d: int) returns (r: int)
      requires FindOneDefined(lists.ints, name)
      modifies this
      ensures r == FindOneValue(old(lists).ints, name, d)
      ensures lists == old(lists).(ints := MarkLookedUp(old(lists).ints, name))
    {
      r := FindOneValue(lists.ints, name, d);
      lists := lists.(ints := MarkLookedUp(lists.ints, name));
    }

    /** `find_one_bool`. */
    method FindOneBool(name: string, d: bool) returns (r: bool)
      requires FindOneDefined(lists.bools, name)
      modifies this
      ensures r == FindOneValue(old(lists).bools, name, d)
      ensures lists == old(lists).(bools := MarkLookedUp(old(lists).bools, name))
    {
      r := FindOneValue(lists.bools, name, d);
      lists := lists.(bools := MarkLookedUp(lists.bools, name));
    }

    /** `find_one_float`. */
    method FindOneFloat(name: string, d: real) returns (r: real)
      requires FindOneDefined(lists.floats, name)
      modifies this
      ensures r == FindOneValue(old(lists).floats, name, d)
      ensures lists == old(lists).(floats := MarkLookedUp(old(lists).floats, name))
    {
      r := FindOneValue(lists.floats, name, d);
      lists := lists.(floats := MarkLookedUp(lists.floats, name));
    }

    /** `find_one_string`. */
    method FindOneString(name: string, d: string) returns (r: string)
      requires FindOneDefined(lists.strings, name)
      modifies this
      ensures r == FindOneValue(old(lists).strings, name, d)
      ensures lists == old(lists).(strings := MarkLookedUp(old(lists).strings, name))
    {
      r := FindOneValue(lists.strings, name, d);
      lists := lists.(strings := MarkLookedUp(lists.strings, name));
    }

    /** `find_texture`, the `find_one!` over texture names. */
    method FindTexture(name: string, d: string) returns (r: string)
      requires FindOneDefined(lists.textures, name)
      modifies this
      ensures r == FindOneValue(old(lists).textures, name, d)
      ensures lists == old(lists).(textures := MarkLookedUp(old(lists).textures, name))
    {
      r := FindOneValue(lists.textures, name, d);
      lists := lists.(textures := MarkLookedUp(lists.textures, name));
    }

    /** `find_float`, the `find!` over floats. */
    method FindFloat(name: string) returns (r: Option<seq<real>>)
      modifies this
      ensures r == FindValues(old(lists).floats, name)
      ensures lists == old(lists).(floats := MarkLookedUp(old(lists).floats, name))
    {
      r := FindValues(lists.floats, name);
      lists := lists.(floats := MarkLookedUp(lists.floats, name));
    }
  }

  // ---------------------------------------------------------------------------
  // TextureParams (paramset.rs:349-467)
  // ---------------------------------------------------------------------------

  /** The `find_one` of `TextureParams`: the material's value, or the
    * default, is the default of the geometry's lookup. */
  function LayeredFindOne<T>(geom: seq<Item<T>>, mat: seq<Item<T>>, name: string, d: T): (r: T)
    requires FindOneDefined(geom, name) && FindOneDefined(mat, name)
  {
    FindOneValue(geom, name, FindOneValue(mat, name, d))
  }

  /** Geometry parameters override material parameters, which override the
    * default. */
  lemma LayeredPrecedence<T>(geom: seq<Item<T>>, mat: seq<Item<T>>, name: string, d: T)
    requires FindOneDefined(geom, name) && FindOneDefined(mat, name)
    ensures FindValues(geom, name).Some? ==>
      LayeredFindOne(geom, mat, name, d) == FindValues(geom, name).value[0]
    ensures FindValues(geom, name).None? && FindValues(mat, name).Some? ==>
      LayeredFindOne(geom, mat, name, d) == FindValues(mat, name).value[0]
    ensures FindValues(geom, name).None? && FindValues(mat, name).None? ==>
      LayeredFindOne(geom, mat, name, d) == d
  {
  }

  /** A float texture parameter: a texture registered under a name, or a
    * constant texture. */
  datatype FloatTexture = Shared(textureName: string) | Constant(value: real)

  /** The texture-name lookup does not panic: the geometry's item has a
    * value, and so has the material's when it is read, that is, when the
    * geometry gives "". */
  predicate TextureNameDefined(geom: seq<Item<string>>, mat: seq<Item<string>>, n: string)
  {
    FindOneDefined(geom, n) && (FindOneValue(geom, n, "") == "" ==> FindOneDefined(mat, n))
  }

  /** The texture name a parameter refers to: the geometry's `find_texture`
    * or, when that is empty, the material's. */
  function TextureName(geom: seq<Item<string>>, mat: seq<Item<string>>, n: string): (r: string)
    requires TextureNameDefined(geom, mat, n)
    ensures FindOneValue(geom, n, "") != "" ==> r == FindOneValue(geom, n, "")
    ensures FindOneValue(geom, n, "") == "" ==> r == FindOneValue(mat, n, "")
  {
    var g := FindOneValue(geom, n, "");
    if g == "" then FindOneValue(mat, n, "") else g
  }

  /** `l` after a texture-name lookup of `n` when `on`, else `l`. */
  function MarkTextures(l: Lists, n: string, on: bool): (r: Lists)
    ensures r == l.(textures := r.textures)
    ensures on ==> r.textures == MarkLookedUp(l.textures, n)
    ensures !on ==> r.textures == l.textures
  {
    if on then l.(textures := MarkLookedUp(l.textures, n)) else l
  }

  /** `l` after a float lookup of `n` when `on`, else `l`. */
  function MarkFloats(l: Lists, n: string, on: bool): (r: Lists)
    ensures r == l.(floats := r.floats)
    ensures on ==> r.floats == MarkLookedUp(l.floats, n)
    ensures !on ==> r.floats == l.floats
  {
    if on then l.(floats := MarkLookedUp(l.floats, n)) else l
  }

  /** The two parameter sets are distinct objects: every `TextureParams`
    * is built over a shape's (or texture's) parameters and a different
    * material parameter set. */
  class TextureParams {
    const geomParams: ParamSet
    const materialParams: ParamSet
    /** Names of the registered float textures. */
    const floatTextures: set<string>

    constructor (gp: ParamSet, mp: ParamSet, ft: set<string>)
      requires gp != mp
      ensures geomParams == gp && materialParams == mp && floatTextures == ft
    {
      geomParams := gp;
      materialParams := mp;
      floatTextures := ft;
    }

    /** `find_int`: geometry over material over default. */
    method FindInt(n: string, d: int) returns (r: int)
      requires geomParams != materialParams
      requires FindOneDefined(geomParams.lists.ints, n) && FindOneDefined(materialParams.lists.ints, n)
      modifies geomParams, materialParams
      ensures r == LayeredFindOne(old(geomParams.lists.ints), old(materialParams.lists.ints), n, d)
      ensures geomParams.lists == old(geomParams.lists).(ints := MarkLookedUp(old(geomParams.lists.ints), n))
      ensures materialParams.lists == old(materialParams.lists).(ints := MarkLookedUp(old(materialParams.lists.ints), n))
    {
      ghost var g0 := geomParams.lists.ints;
      var md := materialParams.FindOneInt(n, d);
      MarkPreservesFirstMatch(materialParams.lists.ints, n, n);
      MarkPreservesFirstMatch(old(materialParams.lists.ints), n, n);
      assert FirstMatch(geomParams.lists.ints, n) == FirstMatch(g0, n);
      r := geomParams.FindOneInt(n, md);
    }

    /** The texture-name lookup shared by the `get_*_texture` methods:
      * geometry first, material when the geometry has none. */
    method LookupTextureName(n: string) returns (name: string)
      requires geomParams != materialParams
      requires TextureNameDefined(geomParams.lists.textures, materialParams.lists.textures, n)
      modifies geomParams, materialParams
      ensures name == TextureName(old(geomParams.lists.textures), old(materialParams.lists.textures), n)
      ensures geomParams.lists == MarkTextures(old(geomParams.lists), n, true)
      ensures materialParams.lists ==
        MarkTextures(old(materialParams.lists), n, FindOneValue(old(geomParams.lists.textures), n, "") == "")
    {
      ghost var g0 := geomParams.lists.textures;
      name := geomParams.FindTexture(n, "");
      MarkPreservesFirstMatch(g0, n, n);
      if name == "" {
        name := materialParams.FindTexture(n, "");
      }
    }

    /** `geom_params.find_float(n).or_else(|| material_params.find_float(n))`. */
    method FirstFloat(n: string) returns (found: Option<seq<real>>)
      requires geomParams != materialParams
      modifies geomParams, materialParams
      ensures geomParams.lists == MarkFloats(old(geomParams.lists), n, true)
      ensures materialParams.lists == MarkFloats(old(materialParams.lists), n, FindValues(old(geomParams.lists.floats), n).None?)
      ensures found == FindValues(old(geomParams.lists.floats), n).Or(FindValues(old(materialParams.lists.floats), n))
    {
      ghost var g0, m0 := geomParams.lists.floats, materialParams.lists.floats;
      found := geomParams.FindFloat(n);
      if found.None? {
        MarkPreservesFirstMatch(g0, n, n);
        found := materialParams.FindFloat(n);
      }
    }

    /** `get_float_texture`: a registered named texture, or else (an
      * unregistered name only logs an error) a constant texture holding the
      * layered float lookup. */
    method GetFloatTexture(n: string, default: real) returns (r: FloatTexture)
      requires geomParams != materialParams
      requires TextureNameDefined(geomParams.lists.textures, materialParams.lists.textures, n)
      requires var name := TextureName(geomParams.lists.textures, materialParams.lists.textures, n);
               !(name != "" && name in floatTextures) ==>
                 FindOneDefined(geomParams.lists.floats, n) && FindOneDefined(materialParams.lists.floats, n)
      modifies geomParams, materialParams
      ensures var name := TextureName(old(geomParams.lists.textures), old(materialParams.lists.textures), n);
        if name != "" && name in floatTextures then r == Shared(name)
        else r == Constant(LayeredFindOne(old(geomParams.lists.floats), old(materialParams.lists.floats), n, default))
      ensures var name := TextureName(old(geomParams.lists.textures), old(materialParams.lists.textures), n);
        var constant := !(name != "" && name in floatTextures);
        geomParams.lists == MarkFloats(MarkTextures(old(geomParams.lists), n, true), n, constant) &&
        materialParams.lists == MarkFloats(MarkTextures(old(materialParams.lists), n,
          FindOneValue(old(geomParams.lists.textures), n, "") == ""), n, constant)
    {
      var name := LookupTextureName(n);
      if name != "" && name in floatTextures {
        return Shared(name);
      }
      ghost var g0 := geomParams.lists.floats;
      var md := materialParams.FindOneFloat(n, default);
      MarkPreservesFirstMatch(old(materialParams.lists.floats), n, n);
      assert FirstMatch(geomParams.lists.floats, n) == FirstMatch(g0, n);
      var v := geomParams.FindOneFloat(n, md);
      r := Constant(v);
    }

    /** `get_float_texture_or_none`: a named texture that is not registered
      * gives None; without a texture name, the first float found, geometry
      * first, becomes a constant texture. */
    method GetFloatTextureOrNone(n: string) returns (r: Option<FloatTexture>)
      requires geomParams != materialParams
      requires FloatTextureOrNoneDefined(geomParams.lists, materialParams.lists, n)
      modifies geomParams, materialParams
      ensures r == FloatTextureOrNone(old(geomParams.lists), old(materialParams.lists), floatTextures, n)
      ensures var unnamed := TextureName(old(geomParams.lists.textures), old(materialParams.lists.textures), n) == "";
        geomParams.lists == MarkFloats(MarkTextures(old(geomParams.lists), n, true), n, unnamed) &&
        materialParams.lists == MarkFloats(MarkTextures(old(materialParams.lists), n,
          FindOneValue(old(geomParams.lists.textures), n, "") == ""), n,
          unnamed && FindValues(old(geomParams.lists.floats), n).None?)
    {
      var name := LookupTextureName(n);
      if name != "" {
        if name in floatTextures {
          return Some(Shared(name));
        } else {
          return None;
        }
      }
      var found := FirstFloat(n);
      match found
      case Some(vals) => r := Some(Constant(vals[0]));
      case None => r := None;
    }
  }

  /** `get_float_texture_or_none` does not panic: the texture-name lookup
    * is defined and, when it gives no name, the first float list found
    * (geometry first) has a value for `val[0]`. */
  predicate FloatTextureOrNoneDefined(geom: Lists, mat: Lists, n: string)
  {
    TextureNameDefined(geom.textures, mat.textures, n) &&
    (TextureName(geom.textures, mat.textures, n) == "" ==>
       var found := FindValues(geom.floats, n).Or(FindValues(mat.floats, n));
       found.Some? ==> |found.value| > 0)
  }

  /** What `get_float_texture_or_none` returns, over the two parameter
    * sets' lists before the call. */
  function FloatTextureOrNone(geom: Lists, mat: Lists, registered: set<string>, n: string): (r: Option<FloatTexture>)
    requires FloatTextureOrNoneDefined(geom, mat, n)
  {
    var name := TextureName(geom.textures, mat.textures, n);
    if name != "" then
      (if name in registered then Some(Shared(name)) else None)
    else
      match FindValues(geom.floats, n).Or(FindValues(mat.floats, n))
      case Some(vals) => Some(Constant(vals[0]))
      case None => None
  }

  /** A texture name that is not registered gives None, a registered one
    * the shared texture; without a name, a constant exists exactly when
    * either set has the float, and the geometry's wins. */
  lemma FloatTextureOrNoneCases(geom: Lists, mat: Lists, registered: set<string>, n: string)
    requires FloatTextureOrNoneDefined(geom, mat, n)
    ensures var name := TextureName(geom.textures, mat.textures, n);
      var r := FloatTextureOrNone(geom, mat, registered, n);
      (name != "" ==> (r.Some? <==> name in registered) && (r.Some? ==> r.value == Shared(name))) &&
      (name == "" && FindValues(geom.floats, n).Some? ==>
         r == Some(Constant(FindValues(geom.floats, n).value[0]))) &&
      (name == "" && FindValues(geom.floats, n).None? && FindValues(mat.floats, n).Some? ==>
         r == Some(Constant(FindValues(mat.floats, n).value[0]))) &&
      (name == "" && FindValues(geom.floats, n).None? && FindValues(mat.floats, n).None? ==>
         r.None?)
  {
  }
}
