/** PLY meshes (rustracer-core/src/shapes/plymesh.rs): the header scan, the
  * flattening of triangle and quad faces into a vertex-index list, and the
  * per-vertex attribute collection. Reading and decoding the file are
  * outside this model: the header, the vertices and the faces are
  * parameters. */
module PlyMesh {
  import opened Wrappers
  import opened Util
  import opened ParamSets
  import Mesh
  import Bounds

  // ---------------------------------------------------------------------------
  // Faces
  // ---------------------------------------------------------------------------

  /** A face's `vertex_indices` list, as `i32`s. */
  datatype Face = Face(vertexIndices: seq<int>)

  /** The indices one face contributes: a triangle its three, a quad
    * [a, b, c, d] the two triangles (a, b, c) and (d, a, c), any other face
    * nothing. */
  function FaceIndices(f: Face): (r: seq<nat>)
    ensures |f.vertexIndices| == 3 ==> |r| == 3
    ensures |f.vertexIndices| == 4 ==> |r| == 6
    ensures |f.vertexIndices| != 3 && |f.vertexIndices| != 4 ==> r == []
    ensures |r| > 0 ==> forall k :: 0 <= k < 3 ==> r[k] == Mesh.AsUsize(f.vertexIndices[k])
    ensures |r| == 6 ==> r[3] == Mesh.AsUsize(f.vertexIndices[3]) && r[4] == r[0] && r[5] == r[2]
  {
    var vi := f.vertexIndices;
    if |vi| != 3 && |vi| != 4 then []
    else
      var tri := [Mesh.AsUsize(vi[0]), Mesh.AsUsize(vi[1]), Mesh.AsUsize(vi[2])];
      if |vi| == 4 then tri + [Mesh.AsUsize(vi[3]), Mesh.AsUsize(vi[0]), Mesh.AsUsize(vi[2])] else tri
  }

  /** The `flat_map` over the faces. */
  function FlattenFaces(faces: seq<Face>): seq<nat>
  {
    if faces == [] then [] else FlattenFaces(faces[..|faces| - 1]) + FaceIndices(faces[|faces| - 1])
  }

  function CountFaces(faces: seq<Face>, size: nat): nat
  {
    if faces == [] then 0
    else CountFaces(faces[..|faces| - 1], size) + (if |faces[|faces| - 1].vertexIndices| == size then 1 else 0)
  }

  /** The index list holds three entries per triangle and six per quad. */
  lemma {:induction false} FlattenLength(faces: seq<Face>)
    ensures |FlattenFaces(faces)| == 3 * CountFaces(faces, 3) + 6 * CountFaces(faces, 4)
  {
    if faces != [] {
      FlattenLength(faces[..|faces| - 1]);
    }
  }

  /** Faces contribute in order: flattening distributes over
    * concatenation. */
  lemma {:induction false} FlattenAppend(a: seq<Face>, b: seq<Face>)
    ensures FlattenFaces(a + b) == FlattenFaces(a) + FlattenFaces(b)
    decreases |b|
  {
    if b == [] {
      assert a + b == a;
    } else {
      var b', last := b[..|b| - 1], b[|b| - 1];
      assert b == b' + [last];
      assert a + b == (a + b') + [last];
      FlattenAppend(a, b');
      FlattenSnoc(a + b', last);
      FlattenSnoc(b', last);
      ConcatAssoc(FlattenFaces(a), FlattenFaces(b'), FaceIndices(last));
    }
  }

  lemma FlattenSnoc(faces: seq<Face>, f: Face)
    ensures FlattenFaces(faces + [f]) == FlattenFaces(faces) + FaceIndices(f)
  {
    assert (faces + [f])[..|faces|] == faces;
  }

  lemma ConcatAssoc(x: seq<nat>, y: seq<nat>, z: seq<nat>)
    ensures (x + y) + z == x + (y + z)
  {
  }

  /** The index list is a whole number of triangles. */
  lemma {:induction false} FlattenWholeTriangles(faces: seq<Face>)
    ensures |FlattenFaces(faces)| % 3 == 0
  {
    FlattenLength(faces);
    var m := CountFaces(faces, 3) + 2 * CountFaces(faces, 4);
    assert |FlattenFaces(faces)| == m * 3 + 0;
    Bounds.DivModUnique(|FlattenFaces(faces)|, 3, m, 0);
  }

  // ---------------------------------------------------------------------------
  // Header
  // ---------------------------------------------------------------------------

  /** A header element: its name, count and property names. */
  datatype Element = Element(name: string, count: nat, properties: set<string>)

  /** What the header scan finds. */
  datatype HeaderInfo = HeaderInfo(vertexCount: nat, faceCount: nat, hasNormals: bool, hasTexture: bool)

  predicate HasCoordinates(e: Element)
  {
    "x" in e.properties && "y" in e.properties && "z" in e.properties
  }

  predicate HasNormals(e: Element)
  {
    "nx" in e.properties && "ny" in e.properties && "nz" in e.properties
  }

  predicate HasTexture(e: Element)
  {
    ("u" in e.properties && "v" in e.properties) || ("s" in e.properties && "t" in e.properties) ||
    ("texture_u" in e.properties && "texture_v" in e.properties) ||
    ("texture_s" in e.properties && "texture_t" in e.properties)
  }

  /** The header scan: None once a vertex element lacks a coordinate, else
    * the last counts seen; the attribute flags only ever turn on. */
  function ScanHeader(es: seq<Element>): (r: Option<HeaderInfo>)
    ensures r.None? <==> exists i :: 0 <= i < |es| && es[i].name == "vertex" && !HasCoordinates(es[i])
    ensures r.Some? && r.value.hasNormals ==> exists i :: 0 <= i < |es| && es[i].name == "vertex" && HasNormals(es[i])
    ensures r.Some? && r.value.hasTexture ==> exists i :: 0 <= i < |es| && es[i].name == "vertex" && HasTexture(es[i])
    ensures r.Some? && r.value.vertexCount != 0 ==> exists i :: 0 <= i < |es| && es[i].name == "vertex"
    ensures r.Some? && r.value.faceCount != 0 ==> exists i :: 0 <= i < |es| && es[i].name == "face"
  {
    if es == [] then Some(HeaderInfo(0, 0, false, false))
    else
      var init := es[..|es| - 1];
      var e := es[|es| - 1];
      assert forall i :: 0 <= i < |init| ==> es[i] == init[i];
      match ScanHeader(init)
      case None => None
      case Some(h) =>
        if e.name == "vertex" then
          if !HasCoordinates(e) then None
          else Some(h.(vertexCount := e.count, hasNormals := h.hasNormals || HasNormals(e),
                       hasTexture := h.hasTexture || HasTexture(e)))
        else if e.name == "face" then Some(h.(faceCount := e.count))
        else Some(h)
  }

  /** The header loop of `create`, with its early return. */
  method ScanHeaderLoop(es: seq<Element>) returns (r: Option<HeaderInfo>)
    ensures r == ScanHeader(es)
  {
    var h := HeaderInfo(0, 0, false, false);
    for i := 0 to |es|
      invariant ScanHeader(es[..i]) == Some(h)
    {
      var e := es[i];
      assert es[..i + 1][..i] == es[..i];
      if e.name == "vertex" {
        if !HasCoordinates(e) {
          ScanPrefixNone(es, i + 1);
          return None;
        }
        h := h.(vertexCount := e.count, hasNormals := h.hasNormals || HasNormals(e),
                hasTexture := h.hasTexture || HasTexture(e));
      } else if e.name == "face" {
        h := h.(faceCount := e.count);
      }
    }
    assert es[..|es|] == es;
    r := Some(h);
  }

  /** Once a prefix fails the scan, the whole header does. */
  lemma ScanPrefixNone(es: seq<Element>, n: nat)
    requires n <= |es| && ScanHeader(es[..n]).None?
    ensures ScanHeader(es).None?
  {
    var i :| 0 <= i < n && es[..n][i].name == "vertex" && !HasCoordinates(es[..n][i]);
    assert es[i] == es[..n][i];
  }

  // ---------------------------------------------------------------------------
  // Vertices
  // ---------------------------------------------------------------------------

  /** A decoded vertex: position, normal and uv. */
  datatype Vertex = Vertex(p: Triple, n: Triple, uv: Pair)

  /** The vertex loop of `create`: every position, and the normals and uvs
    * only when the header declared them. */
  method CollectAttributes(vertices: seq<Vertex>, hasNormals: bool, hasTexture: bool)
    returns (p: seq<Triple>, n: seq<Triple>, uv: seq<Pair>)
    ensures |p| == |vertices| && forall i :: 0 <= i < |p| ==> p[i] == vertices[i].p
    ensures |n| == (if hasNormals then |vertices| else 0)
    ensures forall i :: 0 <= i < |n| ==> n[i] == vertices[i].n
    ensures |uv| == (if hasTexture then |vertices| else 0)
    ensures forall i :: 0 <= i < |uv| ==> uv[i] == vertices[i].uv
  {
    p, n, uv := [], [], [];
    for i := 0 to |vertices|
      invariant |p| == i && forall j :: 0 <= j < i ==> p[j] == vertices[j].p
      invariant |n| == (if hasNormals then i else 0) && forall j :: 0 <= j < |n| ==> n[j] == vertices[j].n
      invariant |uv| == (if hasTexture then i else 0) && forall j :: 0 <= j < |uv| ==> uv[j] == vertices[j].uv
    {
      p := p + [vertices[i].p];
      if hasNormals {
        n := n + [vertices[i].n];
      }
      if hasTexture {
        uv := uv + [vertices[i].uv];
      }
    }
  }

  // ---------------------------------------------------------------------------
  // create
  // ---------------------------------------------------------------------------

  /** The mesh holds the decoded vertices: every position taken to world
    * space, the normals and uvs exactly when the header declared them, and
    * no tangents. */
  predicate HoldsVertices(m: Mesh.TriangleMesh, toWorld: Vec3 -> Vec3, vertices: seq<Vertex>,
                          hasNormals: bool, hasTexture: bool)
  {
    |m.p| == |vertices| && (forall j :: 0 <= j < |vertices| ==> m.p[j] == toWorld(Mesh.ToVec3(vertices[j].p))) &&
    (m.n.Some? <==> hasNormals) &&
    (m.n.Some? ==> |m.n.value| == |vertices| && forall j :: 0 <= j < |vertices| ==> m.n.value[j] == vertices[j].n) &&
    (m.uv.Some? <==> hasTexture) &&
    (m.uv.Some? ==> |m.uv.value| == |vertices| && forall j :: 0 <= j < |vertices| ==> m.uv.value[j] == vertices[j].uv) &&
    m.s.None?
  }

  /** `create` from the decoded file: no shapes when a vertex element lacks
    * a coordinate or when there are no vertices or no faces; otherwise one
    * triangle per three flattened face indices over one mesh. Every element
    * is a vertex or a face element, as the payload reader demands. */
  method Create(toWorld: Vec3 -> Vec3, reverseOrientation: bool, header: seq<Element>,
                vertices: seq<Vertex>, faces: seq<Face>) returns (shapes: seq<Mesh.Triangle>)
    requires var h := ScanHeader(header);
             h.Some? && h.value.vertexCount != 0 && h.value.faceCount != 0 ==>
               forall i :: 0 <= i < |header| ==> header[i].name in {"vertex", "face"}
    ensures var h := ScanHeader(header);
      h.None? || h.value.vertexCount == 0 || h.value.faceCount == 0 ==> shapes == []
    ensures var h := ScanHeader(header);
      h.Some? && h.value.vertexCount != 0 && h.value.faceCount != 0 ==>
        |shapes| == |FlattenFaces(faces)| / 3 &&
        forall i :: 0 <= i < |shapes| ==>
          shapes[i].vStartIndex == 3 * i && shapes[i].reverseOrientation == reverseOrientation &&
          shapes[i].mesh == shapes[0].mesh && shapes[i].mesh.vertexIndices == FlattenFaces(faces) &&
          HoldsVertices(shapes[i].mesh, toWorld, vertices, h.value.hasNormals, h.value.hasTexture)
  {
    var h := ScanHeaderLoop(header);
    if h.None? || h.value.vertexCount == 0 || h.value.faceCount == 0 {
      return [];
    }
    var vertexIndices := FlattenFaces(faces);
    var p, n, uv := CollectAttributes(vertices, h.value.hasNormals, h.value.hasTexture);
    var mesh := Mesh.NewMesh(toWorld, vertexIndices, p, None,
                             if h.value.hasNormals then Some(n) else None,
                             if h.value.hasTexture then Some(uv) else None);
    assert HoldsVertices(mesh, toWorld, vertices, h.value.hasNormals, h.value.hasTexture);
    shapes := Mesh.CreateTriangleMesh(mesh, reverseOrientation);
  }
}
