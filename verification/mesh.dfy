/** Triangle meshes (rustracer-core/src/shapes/mesh.rs): a mesh holds the
  * world-space vertex positions and a flat list of vertex indices, three per
  * triangle; each `Triangle` refers to the shared mesh by its triangle
  * number. The object-to-world transform is a function parameter. */
module Mesh {
  import opened Wrappers
  import opened Util
  import opened Bounds
  import opened ParamSets

  datatype TriangleMesh = TriangleMesh(
    vertexIndices: seq<nat>,
    p: seq<Vec3>,
    n: Option<seq<Triple>>,
    s: Option<seq<Triple>>,
    uv: Option<seq<Pair>>)

  function ToVec3(t: Triple): Vec3
  {
    Vec3(t.x, t.y, t.z)
  }

  /** `TriangleMesh::new`: the positions are taken to world space, the other
    * arrays are copied. */
  function NewMesh(toWorld: Vec3 -> Vec3, vi: seq<nat>, p: seq<Triple>, s: Option<seq<Triple>>,
                   n: Option<seq<Triple>>, uv: Option<seq<Pair>>): (m: TriangleMesh)
    ensures m.vertexIndices == vi && m.n == n && m.s == s && m.uv == uv
    ensures |m.p| == |p| && forall i :: 0 <= i < |p| ==> m.p[i] == toWorld(ToVec3(p[i]))
  {
    TriangleMesh(vi, seq(|p|, i requires 0 <= i < |p| => toWorld(ToVec3(p[i]))), n, s, uv)
  }

  datatype Triangle = Triangle(mesh: TriangleMesh, vStartIndex: nat, reverseOrientation: bool)

  /** `Triangle::new`: triangle `tri` starts at index 3·tri. */
  function NewTriangle(mesh: TriangleMesh, tri: nat, reverseOrientation: bool): (t: Triangle)
    ensures t.mesh == mesh && t.vStartIndex == 3 * tri && t.reverseOrientation == reverseOrientation
  {
    Triangle(mesh, tri * 3, reverseOrientation)
  }

  /** The triangle's three index slots lie inside the index list. */
  predicate HasIndices(t: Triangle)
  {
    t.vStartIndex + 3 <= |t.mesh.vertexIndices|
  }

  /** The triangle's vertices are valid positions. */
  predicate HasVertices(t: Triangle)
  {
    HasIndices(t) && forall k :: 0 <= k < 3 ==> V(t, k) < |t.mesh.p|
  }

  /** `v(k)`: the k-th vertex index of the triangle. */
  function V(t: Triangle, k: nat): (r: nat)
    requires HasIndices(t) && k < 3
    ensures r == t.mesh.vertexIndices[t.vStartIndex + k]
  {
    t.mesh.vertexIndices[t.vStartIndex + k]
  }

  /** Triangle i of a mesh reads exactly index slots 3i, 3i+1 and 3i+2, so
    * distinct triangles share no slot. */
  lemma TriangleSlots(mesh: TriangleMesh, i: nat, j: nat, k: nat, l: nat, ro: bool)
    requires 3 * i + 3 <= |mesh.vertexIndices| && 3 * j + 3 <= |mesh.vertexIndices|
    requires k < 3 && l < 3
    ensures V(NewTriangle(mesh, i, ro), k) == mesh.vertexIndices[3 * i + k]
    ensures i != j ==> NewTriangle(mesh, i, ro).vStartIndex + k != NewTriangle(mesh, j, ro).vStartIndex + l
  {
  }

  /** `get_uvs`: the default (0,0), (1,0), (1,1) without a uv array, else
    * the uvs of the three vertices. */
  function GetUvs(t: Triangle): (r: seq<Pair>)
    requires HasIndices(t)
    requires t.mesh.uv.Some? ==> forall k :: 0 <= k < 3 ==> V(t, k) < |t.mesh.uv.value|
    ensures |r| == 3
    ensures t.mesh.uv.None? ==> r == [Pair(0.0, 0.0), Pair(1.0, 0.0), Pair(1.0, 1.0)]
    ensures t.mesh.uv.Some? ==> forall k :: 0 <= k < 3 ==> r[k] == t.mesh.uv.value[V(t, k)]
  {
    match t.mesh.uv
    case None => [Pair(0.0, 0.0), Pair(1.0, 0.0), Pair(1.0, 1.0)]
    case Some(uv) => [uv[V(t, 0)], uv[V(t, 1)], uv[V(t, 2)]]
  }

  /** `world_bounds`: the smallest box holding the three world-space
    * vertices. */
  function WorldBounds(t: Triangle): (b: Bounds3)
    requires HasVertices(t)
    ensures forall k :: 0 <= k < 3 ==> Inside3(b, t.mesh.p[V(t, k)])
    ensures forall o :: (forall k :: 0 <= k < 3 ==> Inside3(o, t.mesh.p[V(t, k)])) ==> Encloses3(o, b)
  {
    var p0, p1, p2 := t.mesh.p[V(t, 0)], t.mesh.p[V(t, 1)], t.mesh.p[V(t, 2)];
    assert forall o :: Inside3(o, p0) && Inside3(o, p1) && Inside3(o, p2) ==>
      Encloses3(o, UnionPoint3(FromPoints3(p0, p1), p2));
    UnionPoint3(FromPoints3(p0, p1), p2)
  }

  /** `create_triangle_mesh`: one triangle per complete group of three
    * indices, all sharing the one mesh; trailing indices are ignored. */
  method CreateTriangleMesh(mesh: TriangleMesh, reverseOrientation: bool) returns (tris: seq<Triangle>)
    ensures |tris| == |mesh.vertexIndices| / 3
    ensures forall i :: 0 <= i < |tris| ==> tris[i] == NewTriangle(mesh, i, reverseOrientation)
    ensures forall i :: 0 <= i < |tris| ==> HasIndices(tris[i])
  {
    var nTriangles := |mesh.vertexIndices| / 3;
    tris := [];
    for i := 0 to nTriangles
      invariant |tris| == i
      invariant forall j :: 0 <= j < i ==> tris[j] == NewTriangle(mesh, j, reverseOrientation)
    {
      tris := tris + [NewTriangle(mesh, i, reverseOrientation)];
    }
    DivBound(|mesh.vertexIndices|);
  }

  lemma DivBound(n: nat)
    ensures 3 * (n / 3) <= n
  {
  }

  const USIZE_LIMIT: nat := 0x1_0000_0000_0000_0000

  /** `i as usize` for an `i32`: two's complement, so a negative index wraps
    * to a large one. */
  function AsUsize(i: int): (r: nat)
    ensures r < USIZE_LIMIT
    ensures 0 <= i < USIZE_LIMIT ==> r == i
    ensures -0x8000_0000 <= i < 0 ==> r == USIZE_LIMIT + i
  {
    i % USIZE_LIMIT
  }

  /** No "uv" or "st" points, so the uvs come from the floats. */
  predicate UvsFromFloats(params: Lists)
  {
    FindValues(params.point2fs, "uv").None? && FindValues(params.point2fs, "st").None?
  }

  /** The float array the uvs are read from: "uv" over "st". */
  function UvFloats(params: Lists): Option<seq<real>>
  {
    FindValues(params.floats, "uv").Or(FindValues(params.floats, "st"))
  }

  /** `chunks(2)` reads `s[1]` of every chunk, so an odd float count panics
    * when the floats are read. */
  predicate UvsDefined(params: Lists)
  {
    UvsFromFloats(params) && UvFloats(params).Some? ==> |UvFloats(params).value| % 2 == 0
  }

  /** The uvs of `create`: "uv" points over "st" points, else "uv" floats
    * over "st" floats, taken in pairs. */
  function FindUvs(params: Lists): (r: Option<seq<Pair>>)
    requires UvsDefined(params)
    ensures FindValues(params.point2fs, "uv").Some? ==> r == FindValues(params.point2fs, "uv")
    ensures FindValues(params.point2fs, "uv").None? && FindValues(params.point2fs, "st").Some? ==>
      r == FindValues(params.point2fs, "st")
    ensures UvsFromFloats(params) && UvFloats(params).Some? ==>
      var f := UvFloats(params).value;
      r.Some? && 2 * |r.value| == |f| &&
      forall i :: 0 <= i < |r.value| ==> r.value[i] == Pair(f[2 * i], f[2 * i + 1])
    ensures r.None? <==>
      (FindValues(params.point2fs, "uv").None? && FindValues(params.point2fs, "st").None? &&
       FindValues(params.floats, "uv").None? && FindValues(params.floats, "st").None?)
  {
    var pts := FindValues(params.point2fs, "uv").Or(FindValues(params.point2fs, "st"));
    if pts.Some? then pts
    else
      match UvFloats(params)
      case None => None
      case Some(fuv) => PairsShape(fuv); Some(Pairs(fuv))
  }

  /** An optional per-vertex array is kept only when it has one entry per
    * position. */
  function MatchingLength<T>(a: Option<seq<T>>, n: nat): (r: Option<seq<T>>)
    ensures r.Some? <==> a.Some? && |a.value| == n
    ensures r.Some? ==> r == a
  {
    if a.Some? && |a.value| == n then a else None
  }

  /** The mesh `TriangleMesh::create` builds from its parameters, or None
    * when "indices" or "P" is missing or empty. "N" and "S" arrays of the
    * wrong length are dropped. */
  function MeshFromParams(toWorld: Vec3 -> Vec3, params: Lists): (m: Option<TriangleMesh>)
    requires UvsDefined(params)
    ensures m.None? <==> FindValues(params.ints, "indices").UnwrapOr([]) == [] ||
                         FindValues(params.point3fs, "P").UnwrapOr([]) == []
    ensures m.Some? ==>
      var idx := FindValues(params.ints, "indices").value;
      var p := FindValues(params.point3fs, "P").value;
      var n := FindValues(params.normal3fs, "N");
      var s := FindValues(params.vector3fs, "S");
      |m.value.vertexIndices| == |idx| &&
      (forall i :: 0 <= i < |idx| ==> m.value.vertexIndices[i] == AsUsize(idx[i])) &&
      |m.value.p| == |p| && (forall i :: 0 <= i < |p| ==> m.value.p[i] == toWorld(ToVec3(p[i]))) &&
      (m.value.n.Some? <==> n.Some? && |n.value| == |p|) && (m.value.n.Some? ==> m.value.n == n) &&
      (m.value.s.Some? <==> s.Some? && |s.value| == |p|) && (m.value.s.Some? ==> m.value.s == s) &&
      m.value.uv == FindUvs(params)
  {
    var vi := seq(|FindValues(params.ints, "indices").UnwrapOr([])|,
                  i requires 0 <= i < |FindValues(params.ints, "indices").UnwrapOr([])| =>
                    AsUsize(FindValues(params.ints, "indices").UnwrapOr([])[i]));
    var p := FindValues(params.point3fs, "P").UnwrapOr([]);
    if vi == [] || p == [] then None
    else
      var s := MatchingLength(FindValues(params.vector3fs, "S"), |p|);
      var n := MatchingLength(FindValues(params.normal3fs, "N"), |p|);
      Some(NewMesh(toWorld, vi, p, s, n, FindUvs(params)))
  }

  /** `TriangleMesh::create`. */
  method Create(toWorld: Vec3 -> Vec3, reverseOrientation: bool, params: Lists) returns (shapes: seq<Triangle>)
    requires UvsDefined(params)
    ensures MeshFromParams(toWorld, params).None? ==> shapes == []
    ensures MeshFromParams(toWorld, params).Some? ==>
      var m := MeshFromParams(toWorld, params).value;
      |shapes| == |m.vertexIndices| / 3 &&
      forall i :: 0 <= i < |shapes| ==> shapes[i] == NewTriangle(m, i, reverseOrientation)
  {
    var m := MeshFromParams(toWorld, params);
    if m.None? {
      return [];
    }
    shapes := CreateTriangleMesh(m.value, reverseOrientation);
  }
}
