/**
 * Loading a triangle mesh from an OBJ file (mesh.c) and building its kd-tree.
 * The OBJ reader is not part of this model: what it does is reduced to the
 * sequence of callbacks it makes, an `ObjEvent` each. The first pass counts the
 * vertices, normals, texture coordinates and faces; the second pass, fed the same
 * callbacks, stores them into arrays of exactly those sizes.
 */
module Meshes {
  import opened Geometry
  import opened KdTrees

  /** `struct TexCoord` of mesh.h. */
  datatype TexCoord = TexCoord(u: real, v: real)

  /** One callback of the OBJ reader, with its arguments; OBJ indices are 1-based. */
  datatype ObjEvent =
    | OnVertex(x: real, y: real, z: real, w: real)
    | OnTexel(u: real, v: real)
    | OnNormal(x: real, y: real, z: real)
    | OnStartFace
    | OnAddToFace(vIndex: nat, vtIndex: nat, vnIndex: nat)
      /** The callbacks both passes leave NULL: lines, objects, groups, materials, smoothing groups. */
    | OnOther

  /** The mesh sizes as the first pass records them. */
  datatype Header = Header(numVertices: int, hasNormals: bool, numNormals: int,
                           hasTexcoords: bool, numTexcoords: int, numTriangles: int)

  /** What calloc leaves in each array. */
  const Origin := Vec3(0.0, 0.0, 0.0)
  const NoTexCoord := TexCoord(0.0, 0.0)
  const Blank := Triangle([0, 0, 0], [0, 0, 0], [0, 0, 0])

  /** The three index arrays of a triangle have three entries each. */
  predicate Shaped(t: Triangle)
  {
    |t.vertexIndex| == 3 && |t.normalIndex| == 3 && |t.texcoordIndex| == 3
  }

  /** The vertex positions of the `v` lines, in order. */
  function Positions(events: seq<ObjEvent>): seq<Vec3>
  {
    if events == [] then []
    else
      var e := events[|events| - 1];
      Positions(events[..|events| - 1]) + (if e.OnVertex? then [Vec3(e.x, e.y, e.z)] else [])
  }

  /** The normals of the `vn` lines, in order. */
  function Normals(events: seq<ObjEvent>): seq<Vec3>
  {
    if events == [] then []
    else
      var e := events[|events| - 1];
      Normals(events[..|events| - 1]) + (if e.OnNormal? then [Vec3(e.x, e.y, e.z)] else [])
  }

  /** The texture coordinates of the `vt` lines, in order. */
  function Texcoords(events: seq<ObjEvent>): seq<TexCoord>
  {
    if events == [] then []
    else
      var e := events[|events| - 1];
      Texcoords(events[..|events| - 1]) + (if e.OnTexel? then [TexCoord(e.u, e.v)] else [])
  }

  /** How many indices the current face has received: the `cur_triangle_vertex` of MeshBuilder. */
  function Slot(events: seq<ObjEvent>): nat
  {
    if events == [] then 0
    else
      var e := events[|events| - 1];
      if e.OnStartFace? then 0
      else if e.OnAddToFace? then Slot(events[..|events| - 1]) + 1
      else Slot(events[..|events| - 1])
  }

  /** add_index's three stores into slot `slot` of a triangle. */
  function Assign(t: Triangle, slot: nat, vi: int, ti: int, ni: int): (r: Triangle)
    requires Shaped(t) && slot < 3
    ensures Shaped(r)
  {
    Triangle(t.vertexIndex[slot := vi], t.normalIndex[slot := ni], t.texcoordIndex[slot := ti])
  }

  /**
   * The faces, in order: each `f` line starts from calloc's zeroes, and index k of
   * the line stores its 1-based indices minus one into slot k. An index before
   * any face, or past the third of a face, is left out here; `Admissible` rules
   * both out.
   */
  function Faces(events: seq<ObjEvent>): (faces: seq<Triangle>)
    ensures forall k | 0 <= k < |faces| :: Shaped(faces[k])
  {
    if events == [] then []
    else
      var init := events[..|events| - 1];
      var e := events[|events| - 1];
      var faces := Faces(init);
      if e.OnStartFace? then faces + [Blank]
      else if e.OnAddToFace? && faces != [] && Slot(init) < 3 then
        faces[|faces| - 1 := Assign(faces[|faces| - 1], Slot(init), e.vIndex - 1, e.vtIndex - 1, e.vnIndex - 1)]
      else faces
  }

  /** The header the first pass computes: every count, and a `has_` flag for each optional kind. */
  function Tally(events: seq<ObjEvent>): Header
  {
    Header(|Positions(events)|, |Normals(events)| > 0, |Normals(events)|,
           |Texcoords(events)| > 0, |Texcoords(events)|, |Faces(events)|)
  }

  /**
   * Whether the callback that follows `init` passes the assertions of the
   * second pass, given the first pass's header: a new vertex, normal or texture
   * coordinate fits its array; an index belongs to a face that exists and has
   * fewer than three, and its three OBJ indices are within the counts.
   */
  predicate StepOk(init: seq<ObjEvent>, e: ObjEvent, h: Header)
  {
    match e
    case OnVertex(_, _, _, _) => |Positions(init)| < h.numVertices
    case OnTexel(_, _) => |Texcoords(init)| < h.numTexcoords
    case OnNormal(_, _, _) => |Normals(init)| < h.numNormals
    case OnAddToFace(v, vt, vn) =>
      0 < |Faces(init)| && |Faces(init)| - 1 < h.numTriangles && Slot(init) < 3 &&
      v < h.numVertices + 1 &&
      (!h.hasTexcoords || vt < h.numTexcoords + 1) &&
      (!h.hasNormals || vn < h.numNormals + 1)
    case OnStartFace => true
    case OnOther => true
  }

  /** Every callback of the second pass passes its assertions. */
  predicate Admissible(events: seq<ObjEvent>, h: Header)
  {
    if events == [] then true
    else
      var init := events[..|events| - 1];
      Admissible(init, h) && StepOk(init, events[|events| - 1], h)
  }

  /** What the specification functions say of one more callback. */
  lemma Extend(events: seq<ObjEvent>, e: ObjEvent, h: Header)
    ensures Positions(events + [e]) == Positions(events) + (if e.OnVertex? then [Vec3(e.x, e.y, e.z)] else [])
    ensures Normals(events + [e]) == Normals(events) + (if e.OnNormal? then [Vec3(e.x, e.y, e.z)] else [])
    ensures Texcoords(events + [e]) == Texcoords(events) + (if e.OnTexel? then [TexCoord(e.u, e.v)] else [])
    ensures Slot(events + [e]) == if e.OnStartFace? then 0 else if e.OnAddToFace? then Slot(events) + 1 else Slot(events)
    ensures e.OnStartFace? ==> Faces(events + [e]) == Faces(events) + [Blank]
    ensures e.OnAddToFace? && Faces(events) != [] && Slot(events) < 3 ==>
              var faces := Faces(events);
              Faces(events + [e]) == faces[|faces| - 1 := Assign(faces[|faces| - 1], Slot(events), e.vIndex - 1, e.vtIndex - 1, e.vnIndex - 1)]
    ensures !e.OnStartFace? && !e.OnAddToFace? ==> Faces(events + [e]) == Faces(events)
    ensures Admissible(events + [e], h) == (Admissible(events, h) && StepOk(events, e, h))
  {
    assert (events + [e])[..|events|] == events;
  }

  /** The counts only grow: a prefix has no more of anything than the whole. */
  lemma {:induction false} PrefixCounts(events: seq<ObjEvent>, i: nat)
    requires i <= |events|
    ensures |Positions(events[..i])| <= |Positions(events)|
    ensures |Normals(events[..i])| <= |Normals(events)|
    ensures |Texcoords(events[..i])| <= |Texcoords(events)|
    ensures |Faces(events[..i])| <= |Faces(events)|
  {
    if i < |events| {
      var init := events[..|events| - 1];
      assert init[..i] == events[..i];
      PrefixCounts(init, i);
      assert events == init + [events[|events| - 1]];
      Extend(init, events[|events| - 1], Tally(events));
    } else {
      assert events[..i] == events;
    }
  }

  /** A prefix of an admissible stream is admissible. */
  lemma {:induction false} PrefixAdmissible(events: seq<ObjEvent>, i: nat, h: Header)
    requires i <= |events| && Admissible(events, h)
    ensures Admissible(events[..i], h)
  {
    if i < |events| {
      var init := events[..|events| - 1];
      assert init[..i] == events[..i];
      PrefixAdmissible(init, i, h);
    } else {
      assert events[..i] == events;
    }
  }

  /** No face of an admissible stream receives more than three indices. */
  lemma {:induction false} SlotBound(events: seq<ObjEvent>, h: Header)
    requires Admissible(events, h)
    ensures Slot(events) <= 3
  {
    if events != [] {
      SlotBound(events[..|events| - 1], h);
    }
  }

  /**
   * When every OBJ vertex index is at least 1 and there is at least one vertex,
   * the assertions of add_index guarantee that every face names vertices that
   * exist, which is what the kd-tree builder relies on.
   */
  lemma {:induction false} FacesIndexed(events: seq<ObjEvent>, h: Header, vertices: seq<Vec3>)
    requires Admissible(events, h) && |vertices| == h.numVertices > 0
    requires forall k | 0 <= k < |events| && events[k].OnAddToFace? :: events[k].vIndex >= 1
    ensures Indexed(vertices, Faces(events))
  {
    if events != [] {
      var n := |events| - 1;
      var init, e := events[..n], events[n];
      assert events == init + [e];
      Extend(init, e, h);
      forall k | 0 <= k < n && init[k].OnAddToFace? ensures init[k].vIndex >= 1 {
        assert init[k] == events[k];
      }
      FacesIndexed(init, h, vertices);
      var faces := Faces(init);
      if e.OnAddToFace? && faces != [] && Slot(init) < 3 {
        var t := Assign(faces[|faces| - 1], Slot(init), e.vIndex - 1, e.vtIndex - 1, e.vnIndex - 1);
        assert IndexedTriangle(vertices, faces[|faces| - 1]);
        assert IndexedTriangle(vertices, t);
      } else if e.OnStartFace? {
        assert IndexedTriangle(vertices, Blank);
      }
    }
  }

  /** `struct Mesh` of mesh.h, without its name. */
  class Mesh {
    var numVertices: int
    var vertex: array<Vec3>
    var hasNormals: bool
    var numNormals: int
    var normal: array<Vec3>
    var hasTexcoords: bool
    var numTexcoords: int
    var texcoord: array<TexCoord>
    var numTriangles: int
    var triangle: array<Triangle>
    var kdTree: KdNode?

    /** The header fields. */
    function Counts(): Header
      reads this
    {
      Header(numVertices, hasNormals, numNormals, hasTexcoords, numTexcoords, numTriangles)
    }

    /** The arrays are as mesh_load allocates them: one per kind, sized by the header, zeroed. */
    ghost predicate Allocated()
      reads this, vertex, normal, texcoord, triangle
    {
      vertex != normal &&
      vertex.Length == numVertices && normal.Length == numNormals &&
      texcoord.Length == numTexcoords && triangle.Length == numTriangles &&
      (forall k | 0 <= k < vertex.Length :: vertex[k] == Origin) &&
      (forall k | 0 <= k < normal.Length :: normal[k] == Origin) &&
      (forall k | 0 <= k < texcoord.Length :: texcoord[k] == NoTexCoord) &&
      (forall k | 0 <= k < triangle.Length :: triangle[k] == Blank)
    }

    /**
     * The calloc calls of mesh_load, sized by the counts of the first pass; the
     * normal and texture coordinate arrays only when the mesh has them.
     */
    method Allocate()
      requires 0 <= numVertices && 0 <= numNormals && 0 <= numTexcoords && 0 <= numTriangles
      requires (hasNormals <==> numNormals > 0) && (hasTexcoords <==> numTexcoords > 0)
      requires normal.Length == 0 && texcoord.Length == 0
      modifies this
      ensures Counts() == old(Counts()) && kdTree == old(kdTree) && Allocated()
      ensures fresh(vertex) && fresh(triangle)
      ensures fresh(normal) || normal == old(normal)
      ensures fresh(texcoord) || texcoord == old(texcoord)
    {
      vertex := new Vec3[numVertices](_ => Origin);
      if hasNormals {
        normal := new Vec3[numNormals](_ => Origin);
      }
      if hasTexcoords {
        texcoord := new TexCoord[numTexcoords](_ => NoTexCoord);
      }
      triangle := new Triangle[numTriangles](_ => Blank);
    }

    /** The malloc of mesh_load: no arrays yet and no kd-tree. */
    constructor ()
      ensures kdTree == null && fresh(vertex) && fresh(normal) && fresh(texcoord) && fresh(triangle)
      ensures vertex.Length == 0 && normal.Length == 0 && texcoord.Length == 0 && triangle.Length == 0
    {
      numVertices, numNormals, numTexcoords, numTriangles := 0, 0, 0, 0;
      hasNormals, hasTexcoords := false, false;
      vertex := new Vec3[0];
      normal := new Vec3[0];
      texcoord := new TexCoord[0];
      triangle := new Triangle[0];
      kdTree := null;
    }

    /** count_vertex: one more vertex. */
    method CountVertex()
      modifies this
      ensures Counts() == old(Counts()).(numVertices := old(numVertices) + 1)
      ensures vertex == old(vertex) && normal == old(normal) && texcoord == old(texcoord) && triangle == old(triangle)
      ensures kdTree == old(kdTree)
    {
      numVertices := numVertices + 1;
    }

    /** count_normal: one more normal, and the mesh has normals. */
    method CountNormal()
      modifies this
      ensures Counts() == old(Counts()).(hasNormals := true, numNormals := old(numNormals) + 1)
      ensures vertex == old(vertex) && normal == old(normal) && texcoord == old(texcoord) && triangle == old(triangle)
      ensures kdTree == old(kdTree)
    {
      hasNormals := true;
      numNormals := numNormals + 1;
    }

    /** count_texcoord: one more texture coordinate, and the mesh has texture coordinates. */
    method CountTexcoord()
      modifies this
      ensures Counts() == old(Counts()).(hasTexcoords := true, numTexcoords := old(numTexcoords) + 1)
      ensures vertex == old(vertex) && normal == old(normal) && texcoord == old(texcoord) && triangle == old(triangle)
      ensures kdTree == old(kdTree)
    {
      hasTexcoords := true;
      numTexcoords := numTexcoords + 1;
    }

    /** count_triangle: one more face. */
    method CountTriangle()
      modifies this
      ensures Counts() == old(Counts()).(numTriangles := old(numTriangles) + 1)
      ensures vertex == old(vertex) && normal == old(normal) && texcoord == old(texcoord) && triangle == old(triangle)
      ensures kdTree == old(kdTree)
    {
      numTriangles := numTriangles + 1;
    }

    /**
     * mesh_build_kd_tree: the box of all triangle vertices, then a root from
     * kd_node_new holding a copy of all the triangles, built from depth 0 on the
     * X axis.
     */
    method BuildKdTree(huge: real)
      requires triangle.Length == numTriangles && Indexed(vertex[..], triangle[..])
      modifies this
      ensures kdTree != null && fresh(kdTree) && kdTree.Valid() && fresh(kdTree.Repr)
      ensures kdTree.Model == Blueprint(vertex[..], triangle[..], 0, X, Hull(Inverted(huge), Corners(vertex[..], triangle[..])))
      ensures Counts() == old(Counts())
      ensures vertex == old(vertex) && normal == old(normal) && texcoord == old(texcoord) && triangle == old(triangle)
    {
      var box := Bounds(huge);
      var root := new KdNode();
      kdTree := root;
      root.SetTriangles(triangle[..]);
      root.BuildSubtree(vertex[..], 0, X, box);
    }

    /**
     * The min/max loop of mesh_build_kd_tree over the three vertices of every
     * triangle, starting from the HUGE_VAL box.
     */
    method Bounds(huge: real) returns (box: BBox)
      requires triangle.Length == numTriangles && Indexed(vertex[..], triangle[..])
      ensures box == Hull(Inverted(huge), Corners(vertex[..], triangle[..]))
    {
      ghost var vs, tris := vertex[..], triangle[..];
      box := Inverted(huge);
      for i := 0 to numTriangles
        invariant box == Hull(Inverted(huge), Corners(vs, tris[..i]))
      {
        var tri := triangle[i];
        assert tri == tris[i] && IndexedTriangle(vs, tri);
        ghost var before := box;
        box := EncloseTriangle(vertex, box, tri);
        ghost var corners := [VertexAt(vs, tri, 0), VertexAt(vs, tri, 1), VertexAt(vs, tri, 2)];
        assert tris[..i + 1][..i] == tris[..i];
        assert Corners(vs, tris[..i + 1]) == Corners(vs, tris[..i]) + corners;
        HullAppend(Inverted(huge), Corners(vs, tris[..i]), corners);
      }
      assert tris[..numTriangles] == tris;
    }
  }

  /** The inner loop of mesh_build_kd_tree: the six comparisons for each vertex of one triangle. */
  method EncloseTriangle(vertex: array<Vec3>, box: BBox, tri: Triangle) returns (r: BBox)
    requires IndexedTriangle(vertex[..], tri)
    ensures r == Hull(box, [VertexAt(vertex[..], tri, 0), VertexAt(vertex[..], tri, 1), VertexAt(vertex[..], tri, 2)])
  {
    ghost var corners := [VertexAt(vertex[..], tri, 0), VertexAt(vertex[..], tri, 1), VertexAt(vertex[..], tri, 2)];
    r := box;
    for j := 0 to 3
      invariant r == Hull(box, corners[..j])
    {
      var v := vertex[tri.vertexIndex[j]];
      assert v == corners[j];
      ghost var before := r;
      if v.x < r.xmin { r := r.(xmin := v.x); }
      if v.x > r.xmax { r := r.(xmax := v.x); }
      if v.y < r.ymin { r := r.(ymin := v.y); }
      if v.y > r.ymax { r := r.(ymax := v.y); }
      if v.z < r.zmin { r := r.(zmin := v.z); }
      if v.z > r.zmax { r := r.(zmax := v.z); }
      assert r == Enclose(before, v);
      HullStep(box, corners[..j], v);
      assert corners[..j + 1] == corners[..j] + [v];
    }
    assert corners[..3] == corners;
  }

  /** The cursors of `struct MeshBuilder`. */
  datatype Cursors = Cursors(vertex: int, normal: int, texcoord: int, triangle: int, triangleVertex: int)

  /** `struct MeshBuilder`: where the second pass stores the next item of each kind. */
  class MeshBuilder {
    var curVertex: int
    var curNormal: int
    var curTexcoord: int
    var curTriangle: int
    var curTriangleVertex: int
    const mesh: Mesh

    function At(): Cursors
      reads this
    {
      Cursors(curVertex, curNormal, curTexcoord, curTriangle, curTriangleVertex)
    }

    /** obj_second_pass's set-up: nothing stored yet, and no face started. */
    constructor (mesh: Mesh)
      ensures this.mesh == mesh
      ensures At() == Cursors(0, 0, 0, -1, 0)
    {
      curTriangle := -1;
      curTriangleVertex := 0;
      curVertex, curNormal, curTexcoord := 0, 0, 0;
      this.mesh := mesh;
    }

    /** add_vertex: store the position in the next vertex slot (`w` is dropped). */
    method AddVertex(x: real, y: real, z: real, w: real)
      requires curVertex < mesh.numVertices
      requires 0 <= curVertex && mesh.vertex.Length == mesh.numVertices
      modifies this, mesh.vertex
      ensures mesh.vertex[..] == old(mesh.vertex[..])[old(curVertex) := Vec3(x, y, z)]
      ensures At() == old(At()).(vertex := old(curVertex) + 1)
    {
      mesh.vertex[curVertex] := Vec3(x, y, z);
      curVertex := curVertex + 1;
    }

    /** add_texcoord: store the pair in the next texture-coordinate slot. */
    method AddTexcoord(u: real, v: real)
      requires curTexcoord < mesh.numTexcoords
      requires 0 <= curTexcoord && mesh.texcoord.Length == mesh.numTexcoords
      modifies this, mesh.texcoord
      ensures mesh.texcoord[..] == old(mesh.texcoord[..])[old(curTexcoord) := TexCoord(u, v)]
      ensures At() == old(At()).(texcoord := old(curTexcoord) + 1)
    {
      mesh.texcoord[curTexcoord] := TexCoord(u, v);
      curTexcoord := curTexcoord + 1;
    }

    /** add_normal: store the vector in the next normal slot. */
    method AddNormal(x: real, y: real, z: real)
      requires curNormal < mesh.numNormals
      requires 0 <= curNormal && mesh.normal.Length == mesh.numNormals
      modifies this, mesh.normal
      ensures mesh.normal[..] == old(mesh.normal[..])[old(curNormal) := Vec3(x, y, z)]
      ensures At() == old(At()).(normal := old(curNormal) + 1)
    {
      mesh.normal[curNormal] := Vec3(x, y, z);
      curNormal := curNormal + 1;
    }

    /** add_triangle: move on to the next face and its first slot; nothing is stored. */
    method AddTriangle()
      modifies this
      ensures At() == old(At()).(triangle := old(curTriangle) + 1, triangleVertex := 0)
    {
      curTriangle := curTriangle + 1;
      curTriangleVertex := 0;
    }

    /**
     * add_index: store the 1-based OBJ indices minus one in the current slot of the
     * current face, then move to the next slot. The face must have been started
     * (the source would otherwise write before the array).
     */
    method AddIndex(v: nat, vt: nat, vn: nat)
      requires 0 <= curTriangle < mesh.triangle.Length
      requires curTriangle < mesh.numTriangles && 0 <= curTriangleVertex < 3
      requires v < mesh.numVertices + 1
      requires !mesh.hasTexcoords || vt < mesh.numTexcoords + 1
      requires !mesh.hasNormals || vn < mesh.numNormals + 1
      requires Shaped(mesh.triangle[curTriangle])
      modifies this, mesh.triangle
      ensures mesh.triangle[..] == old(mesh.triangle[..])[old(curTriangle) :=
                Assign(old(mesh.triangle[curTriangle]), old(curTriangleVertex), v - 1, vt - 1, vn - 1)]
      ensures At() == old(At()).(triangleVertex := old(curTriangleVertex) + 1)
    {
      var tri := mesh.triangle[curTriangle];
      tri := tri.(vertexIndex := tri.vertexIndex[curTriangleVertex := v - 1]);
      tri := tri.(texcoordIndex := tri.texcoordIndex[curTriangleVertex := vt - 1]);
      tri := tri.(normalIndex := tri.normalIndex[curTriangleVertex := vn - 1]);
      mesh.triangle[curTriangle] := tri;
      curTriangleVertex := curTriangleVertex + 1;
    }
  }

  /** The box mesh_build_kd_tree gives the root bounds every vertex of every triangle. */
  lemma RootBoxBounds(vertices: seq<Vec3>, tris: seq<Triangle>, huge: real)
    ensures forall i, j | 0 <= i < |tris| && 0 <= j < 3 ::
              Inside(VertexAt(vertices, tris[i], j), Hull(Inverted(huge), Corners(vertices, tris)))
  {
    forall i, j | 0 <= i < |tris| && 0 <= j < 3
      ensures Inside(VertexAt(vertices, tris[i], j), Hull(Inverted(huge), Corners(vertices, tris)))
    {
      CornerAt(vertices, tris, i, j);
    }
  }

  /**
   * obj_first_pass: zero the header, then count each callback of the kinds it
   * registers.
   */
  method FirstPass(events: seq<ObjEvent>, mesh: Mesh)
    modifies mesh
    ensures mesh.Counts() == Tally(events)
    ensures mesh.vertex == old(mesh.vertex) && mesh.normal == old(mesh.normal)
    ensures mesh.texcoord == old(mesh.texcoord) && mesh.triangle == old(mesh.triangle)
    ensures mesh.kdTree == old(mesh.kdTree)
  {
    mesh.numVertices, mesh.numNormals, mesh.numTexcoords := 0, 0, 0;
    mesh.numTriangles := 0;
    mesh.hasNormals, mesh.hasTexcoords := false, false;
    for i := 0 to |events|
      invariant mesh.Counts() == Tally(events[..i])
      invariant mesh.vertex == old(mesh.vertex) && mesh.normal == old(mesh.normal)
      invariant mesh.texcoord == old(mesh.texcoord) && mesh.triangle == old(mesh.triangle)
      invariant mesh.kdTree == old(mesh.kdTree)
    {
      assert events[..i + 1] == events[..i] + [events[i]];
      Extend(events[..i], events[i], mesh.Counts());
      match events[i]
      case OnVertex(_, _, _, _) => mesh.CountVertex();
      case OnTexel(_, _) => mesh.CountTexcoord();
      case OnNormal(_, _, _) => mesh.CountNormal();
      case OnStartFace => mesh.CountTriangle();
      case OnAddToFace(_, _, _) =>
      case OnOther =>
    }
    assert events[..|events|] == events;
  }

  /** The array contents `s` hold `items` followed by nothing but `zero`. */
  predicate Filled<T(==)>(s: seq<T>, items: seq<T>, zero: T)
  {
    |items| <= |s| && s[..|items|] == items && forall k | |items| <= k < |s| :: s[k] == zero
  }

  /** Storing the next item at the cursor keeps the contents filled. */
  lemma FilledPush<T>(s: seq<T>, items: seq<T>, zero: T, x: T)
    requires Filled(s, items, zero) && |items| < |s|
    ensures Filled(s[|items| := x], items + [x], zero)
  {
    assert s[|items| := x][..|items| + 1] == s[..|items|] + [x];
  }

  /** Starting a face stores nothing: the next slot already holds calloc's zeroes. */
  lemma FilledSkip<T>(s: seq<T>, items: seq<T>, zero: T)
    requires Filled(s, items, zero) && |items| < |s|
    ensures Filled(s, items + [zero], zero)
  {
    assert s[..|items| + 1] == s[..|items|] + [zero];
  }

  /** Rewriting the last item stored keeps the contents filled. */
  lemma FilledLast<T>(s: seq<T>, items: seq<T>, zero: T, x: T)
    requires Filled(s, items, zero) && 0 < |items|
    ensures Filled(s[|items| - 1 := x], items[|items| - 1 := x], zero)
  {
    assert s[|items| - 1 := x][..|items|] == s[..|items|][|items| - 1 := x];
  }

  /**
   * The builder and the mesh arrays after the callbacks `done`: each cursor counts
   * what has been stored, each array holds the items so far followed by calloc's
   * zeroes, and the current face is the last face started.
   */
  ghost predicate Mirrors(b: MeshBuilder, done: seq<ObjEvent>)
    reads b, b.mesh, b.mesh.vertex, b.mesh.normal, b.mesh.texcoord, b.mesh.triangle
  {
    var m := b.mesh;
    b.At() == Cursors(|Positions(done)|, |Normals(done)|, |Texcoords(done)|, |Faces(done)| - 1, Slot(done)) &&
    Filled(m.vertex[..], Positions(done), Origin) &&
    Filled(m.normal[..], Normals(done), Origin) &&
    Filled(m.texcoord[..], Texcoords(done), NoTexCoord) &&
    Filled(m.triangle[..], Faces(done), Blank)
  }

  /**
   * obj_second_pass: from the set-up cursors, hand each callback to add_vertex,
   * add_texcoord, add_normal, add_triangle or add_index. Fed the callbacks the
   * first pass counted, it fills every array exactly.
   */
  method SecondPass(events: seq<ObjEvent>, mesh: Mesh)
    requires mesh.Allocated() && mesh.Counts() == Tally(events) && Admissible(events, mesh.Counts())
    modifies mesh.vertex, mesh.normal, mesh.texcoord, mesh.triangle
    ensures mesh.vertex[..] == Positions(events) && mesh.normal[..] == Normals(events)
    ensures mesh.texcoord[..] == Texcoords(events) && mesh.triangle[..] == Faces(events)
  {
    var b := new MeshBuilder(mesh);
    assert Mirrors(b, events[..0]);
    for i := 0 to |events|
      invariant fresh(b) && b.mesh == mesh
      invariant Mirrors(b, events[..i])
    {
      Feed(b, events, i);
    }
    assert events[..|events|] == events;
  }

  /** Callback `i` of the second pass. */
  method Feed(b: MeshBuilder, events: seq<ObjEvent>, i: nat)
    requires i < |events|
    requires b.mesh.Counts() == Tally(events) && Admissible(events, b.mesh.Counts())
    requires b.mesh.vertex != b.mesh.normal
    requires b.mesh.vertex.Length == b.mesh.numVertices && b.mesh.normal.Length == b.mesh.numNormals
    requires b.mesh.texcoord.Length == b.mesh.numTexcoords && b.mesh.triangle.Length == b.mesh.numTriangles
    requires Mirrors(b, events[..i])
    modifies b, b.mesh.vertex, b.mesh.normal, b.mesh.texcoord, b.mesh.triangle
    ensures Mirrors(b, events[..i + 1])
  {
    PrefixCounts(events, i + 1);
    PrefixAdmissible(events, i + 1, b.mesh.Counts());
    assert events[..i + 1] == events[..i] + [events[i]];
    Extend(events[..i], events[i], b.mesh.Counts());
    Dispatch(b, events[..i], events[i]);
  }

  /** The callback table of obj_second_pass: each kind of callback goes to its add_ function. */
  method Dispatch(b: MeshBuilder, done: seq<ObjEvent>, e: ObjEvent)
    requires Mirrors(b, done) && StepOk(done, e, b.mesh.Counts())
    requires b.mesh.vertex != b.mesh.normal
    requires b.mesh.vertex.Length == b.mesh.numVertices && b.mesh.normal.Length == b.mesh.numNormals
    requires b.mesh.texcoord.Length == b.mesh.numTexcoords && b.mesh.triangle.Length == b.mesh.numTriangles
    requires |Faces(done + [e])| <= b.mesh.numTriangles
    modifies b, b.mesh.vertex, b.mesh.normal, b.mesh.texcoord, b.mesh.triangle
    ensures Mirrors(b, done + [e])
  {
    var m := b.mesh;
    Extend(done, e, m.Counts());
    match e
    case OnVertex(x, y, z, w) =>
      FilledPush(m.vertex[..], Positions(done), Origin, Vec3(x, y, z));
      b.AddVertex(x, y, z, w);
    case OnTexel(u, v) =>
      FilledPush(m.texcoord[..], Texcoords(done), NoTexCoord, TexCoord(u, v));
      b.AddTexcoord(u, v);
    case OnNormal(x, y, z) =>
      FilledPush(m.normal[..], Normals(done), Origin, Vec3(x, y, z));
      b.AddNormal(x, y, z);
    case OnStartFace =>
      FilledSkip(m.triangle[..], Faces(done), Blank);
      b.AddTriangle();
    case OnAddToFace(v, vt, vn) =>
      var faces := Faces(done);
      FilledLast(m.triangle[..], faces, Blank,
                 Assign(faces[|faces| - 1], Slot(done), v - 1, vt - 1, vn - 1));
      b.AddIndex(v, vt, vn);
    case OnOther =>
  }

  /**
   * mesh_load without the file: the first pass, arrays of the counted sizes
   * (normals and texture coordinates only when there are any), the second pass.
   */
  method Load(events: seq<ObjEvent>) returns (mesh: Mesh)
    requires Admissible(events, Tally(events))
    ensures fresh(mesh) && mesh.kdTree == null
    ensures mesh.Counts() == Tally(events)
    ensures mesh.vertex[..] == Positions(events) && mesh.normal[..] == Normals(events)
    ensures mesh.texcoord[..] == Texcoords(events) && mesh.triangle[..] == Faces(events)
  {
    mesh := new Mesh();
    FirstPass(events, mesh);
    mesh.Allocate();
    SecondPass(events, mesh);
  }
}
