/**
 * The bounding boxes build_bbox gives each kind of surface in scene.c, in world
 * coordinates: the model-to-world matrix carries the shape's own coordinates
 * there. `huge` stands for HUGE_VAL.
 */
module SceneBoxes {
  import opened Wrappers
  import opened Geometry
  import opened Matrices
  import opened SceneGraph

  /** The kinds of shape of `struct Shape`, with the fields build_bbox reads. */
  datatype Shape =
    | Plane(edge1: Vec3, edge2: Vec3)
    | Sphere(radius: real)
    | Cylinder
    | MeshShape(vertices: seq<Vec3>)
    | Unsupported

  /** The padding added on every side of a plane's box. */
  const PlanePadding: real := 0.001

  /** vec4_homogeneous_divide: the point a homogeneous 4-vector stands for. */
  function HomogeneousDivide(h: Vec4): Vec3
    requires h.w != 0.0
  {
    Vec3(h.x / h.w, h.y / h.w, h.z / h.w)
  }

  /**
   * The image of a point under the matrix (mat4_transform of (p, 1) followed by
   * the homogeneous divide; mat4_transform3_homo does the same). For an affine
   * matrix the divide is by 1.
   */
  function TransformPoint(m: Mat4, p: Vec3): (q: Vec3)
    requires Affine(m)
    ensures q == Vec3(RowTimes(m, 0, Vec4(p.x, p.y, p.z, 1.0)), RowTimes(m, 1, Vec4(p.x, p.y, p.z, 1.0)), RowTimes(m, 2, Vec4(p.x, p.y, p.z, 1.0)))
  {
    var h := Matrices.Transform(m, Vec4(p.x, p.y, p.z, 1.0));
    assert h.w == 1.0;
    HomogeneousDivide(h)
  }

  /** The C macros MIN and MAX. */
  function Smaller(a: real, b: real): real { if a < b then a else b }
  function Larger(a: real, b: real): real { if a > b then a else b }

  function Add(a: Vec3, b: Vec3): Vec3
  {
    Vec3(a.x + b.x, a.y + b.y, a.z + b.z)
  }

  /** The four corners of a plane, bottom-left, bottom-right, top-left and top-right, in world coordinates. */
  function PlaneCorners(edge1: Vec3, edge2: Vec3, m: Mat4): (c: seq<Vec3>)
    requires Affine(m)
    ensures |c| == 4
  {
    [TransformPoint(m, Vec3(0.0, 0.0, 0.0)), TransformPoint(m, edge1), TransformPoint(m, edge2), TransformPoint(m, Add(edge1, edge2))]
  }

  /** The smallest of four numbers, nested as the source nests MIN. */
  function Min4(a: real, b: real, c: real, d: real): (r: real)
    ensures r <= a && r <= b && r <= c && r <= d
    ensures r == a || r == b || r == c || r == d
  {
    Smaller(a, Smaller(b, Smaller(c, d)))
  }

  function Max4(a: real, b: real, c: real, d: real): (r: real)
    ensures r >= a && r >= b && r >= c && r >= d
    ensures r == a || r == b || r == c || r == d
  {
    Larger(a, Larger(b, Larger(c, d)))
  }

  /** build_bbox_plane: the corners' extent on each axis, padded by 1e-3. */
  function PlaneBox(edge1: Vec3, edge2: Vec3, m: Mat4): (b: BBox)
    requires Affine(m)
  {
    PaddedBox(PlaneCorners(edge1, edge2, m))
  }

  /** The extent of four points on each axis, widened by 1e-3 on every side. */
  function PaddedBox(c: seq<Vec3>): BBox
    requires |c| == 4
  {
    BBox(Min4(c[0].x, c[1].x, c[2].x, c[3].x) - PlanePadding,
         Min4(c[0].y, c[1].y, c[2].y, c[3].y) - PlanePadding,
         Min4(c[0].z, c[1].z, c[2].z, c[3].z) - PlanePadding,
         Max4(c[0].x, c[1].x, c[2].x, c[3].x) + PlanePadding,
         Max4(c[0].y, c[1].y, c[2].y, c[3].y) + PlanePadding,
         Max4(c[0].z, c[1].z, c[2].z, c[3].z) + PlanePadding)
  }

  /**
   * Every corner of the plane lies inside its box with 1e-3 to spare on every
   * side, and each face of the box is 1e-3 away from some corner.
   */
  lemma PlaneBoxPadded(edge1: Vec3, edge2: Vec3, m: Mat4)
    requires Affine(m)
    ensures var b := PlaneBox(edge1, edge2, m); var c := PlaneCorners(edge1, edge2, m);
      forall k, a: Axis | 0 <= k < 4 :: Min(b, a) + PlanePadding <= Coord(c[k], a) <= Max(b, a) - PlanePadding
    ensures var b := PlaneBox(edge1, edge2, m); var c := PlaneCorners(edge1, edge2, m);
      forall a: Axis :: (exists k | 0 <= k < 4 :: Coord(c[k], a) == Min(b, a) + PlanePadding) &&
                        (exists k | 0 <= k < 4 :: Coord(c[k], a) == Max(b, a) - PlanePadding)
  {
    var c := PlaneCorners(edge1, edge2, m);
    assert PlaneBox(edge1, edge2, m) == PaddedBox(c);
    PaddedBoxPadded(c);
  }

  /** The same for any four points and the box PaddedBox draws around them. */
  lemma PaddedBoxPadded(c: seq<Vec3>)
    requires |c| == 4
    ensures var b := PaddedBox(c);
      forall k, a: Axis | 0 <= k < 4 :: Min(b, a) + PlanePadding <= Coord(c[k], a) <= Max(b, a) - PlanePadding
    ensures var b := PaddedBox(c);
      forall a: Axis :: (exists k | 0 <= k < 4 :: Coord(c[k], a) == Min(b, a) + PlanePadding) &&
                        (exists k | 0 <= k < 4 :: Coord(c[k], a) == Max(b, a) - PlanePadding)
  {
    PaddedBoxAttained(c);
  }

  /** Each face of the padded box is 1e-3 away from one of the four points. */
  lemma PaddedBoxAttained(c: seq<Vec3>)
    requires |c| == 4
    ensures var b := PaddedBox(c);
      forall a: Axis :: (exists k | 0 <= k < 4 :: Coord(c[k], a) == Min(b, a) + PlanePadding) &&
                        (exists k | 0 <= k < 4 :: Coord(c[k], a) == Max(b, a) - PlanePadding)
  {
    var b := PaddedBox(c);
    forall a: Axis
      ensures (exists k | 0 <= k < 4 :: Coord(c[k], a) == Min(b, a) + PlanePadding) &&
              (exists k | 0 <= k < 4 :: Coord(c[k], a) == Max(b, a) - PlanePadding)
    {
      var lo := Min(b, a) + PlanePadding;
      var hi := Max(b, a) - PlanePadding;
      assert Coord(c[0], a) == lo || Coord(c[1], a) == lo || Coord(c[2], a) == lo || Coord(c[3], a) == lo;
      assert Coord(c[0], a) == hi || Coord(c[1], a) == hi || Coord(c[2], a) == hi || Coord(c[3], a) == hi;
    }
  }

  /** The world position of the model origin: where build_bbox centres a sphere. */
  function Centre(m: Mat4): Vec3
    requires Affine(m)
  {
    TransformPoint(m, Vec3(0.0, 0.0, 0.0))
  }

  /** The sphere case: the transformed centre plus and minus the radius on every axis. */
  function SphereBox(centre: Vec3, radius: real): BBox
  {
    BBox(centre.x - radius, centre.y - radius, centre.z - radius,
         centre.x + radius, centre.y + radius, centre.z + radius)
  }

  /** A product of two positive numbers is positive. */
  lemma PositiveProduct(a: real, b: real)
    requires a > 0.0 && b > 0.0
    ensures a * b > 0.0
  {
  }

  /** A coordinate difference whose square is at most r^2 is at most r in size. */
  lemma SquareBound(d: real, r: real, rest: real)
    requires r >= 0.0 && rest >= 0.0 && d * d + rest <= r * r
    ensures -r <= d <= r
  {
    assert d * d - r * r == (d - r) * (d + r) == (-d - r) * (-d + r);
    if d > r {
      PositiveProduct(d - r, d + r);
    } else if d < -r {
      PositiveProduct(-d - r, -d + r);
    }
  }

  /** Every point of the ball of the given radius about the centre lies inside the sphere's box. */
  lemma SphereBoxHoldsBall(centre: Vec3, radius: real, p: Vec3)
    requires radius >= 0.0
    requires (p.x - centre.x) * (p.x - centre.x) + (p.y - centre.y) * (p.y - centre.y) + (p.z - centre.z) * (p.z - centre.z) <= radius * radius
    ensures Inside(p, SphereBox(centre, radius))
  {
    var dx, dy, dz := p.x - centre.x, p.y - centre.y, p.z - centre.z;
    SquareBound(dx, radius, dy * dy + dz * dz);
    SquareBound(dy, radius, dx * dx + dz * dz);
    SquareBound(dz, radius, dx * dx + dy * dy);
  }

  /** The cylinder case: a box infinite on every axis. */
  function CylinderBox(huge: real): BBox
  {
    BBox(-huge, -huge, -huge, huge, huge, huge)
  }

  /** The cylinder's box holds every point whose coordinates are finite. */
  lemma CylinderBoxHoldsAll(huge: real, p: Vec3)
    requires -huge <= p.x <= huge && -huge <= p.y <= huge && -huge <= p.z <= huge
    ensures Inside(p, CylinderBox(huge))
  {
  }

  /** The vertices of a mesh in world coordinates. */
  function WorldVertices(m: Mat4, vertices: seq<Vec3>): (w: seq<Vec3>)
    requires Affine(m)
    ensures |w| == |vertices|
    ensures forall k | 0 <= k < |vertices| :: w[k] == TransformPoint(m, vertices[k])
  {
    seq(|vertices|, k requires 0 <= k < |vertices| => TransformPoint(m, vertices[k]))
  }

  /** The mesh case: the min/max loop over the world vertices, from the inverted box. */
  function MeshBox(m: Mat4, vertices: seq<Vec3>, huge: real): BBox
    requires Affine(m)
  {
    Hull(Inverted(huge), WorldVertices(m, vertices))
  }

  /**
   * The mesh's box holds every world vertex, and when the vertices are finite
   * each of its faces touches one of them.
   */
  lemma MeshBoxTight(m: Mat4, vertices: seq<Vec3>, huge: real, a: Axis)
    requires Affine(m) && |vertices| > 0 && Finite(WorldVertices(m, vertices), huge)
    ensures forall k | 0 <= k < |vertices| :: Inside(TransformPoint(m, vertices[k]), MeshBox(m, vertices, huge))
    ensures exists k | 0 <= k < |vertices| :: Coord(TransformPoint(m, vertices[k]), a) == Min(MeshBox(m, vertices, huge), a)
    ensures exists k | 0 <= k < |vertices| :: Coord(TransformPoint(m, vertices[k]), a) == Max(MeshBox(m, vertices, huge), a)
  {
    var w := WorldVertices(m, vertices);
    HullAttained(w, huge, a);
    var lo :| 0 <= lo < |w| && Coord(w[lo], a) == Min(Hull(Inverted(huge), w), a);
    var hi :| 0 <= hi < |w| && Coord(w[hi], a) == Max(Hull(Inverted(huge), w), a);
    assert Coord(TransformPoint(m, vertices[lo]), a) == Min(MeshBox(m, vertices, huge), a);
    assert Coord(TransformPoint(m, vertices[hi]), a) == Max(MeshBox(m, vertices, huge), a);
  }

  /**
   * build_bbox: the box of each kind of shape; None where the source prints
   * "Unimplemented" and exits.
   */
  function ShapeBox(shape: Shape, m: Mat4, huge: real): (r: Option<BBox>)
    requires Affine(m)
    ensures r.None? <==> shape.Unsupported?
    ensures shape.Sphere? ==> r == Some(SphereBox(Centre(m), shape.radius))
    ensures shape.Cylinder? ==> r == Some(CylinderBox(huge))
  {
    match shape
    case Plane(edge1, edge2) => Some(PlaneBox(edge1, edge2, m))
    case Sphere(radius) => Some(SphereBox(Centre(m), radius))
    case Cylinder => Some(CylinderBox(huge))
    case MeshShape(vertices) => Some(MeshBox(m, vertices, huge))
    case Unsupported => None
  }

  /**
   * build_bbox_mesh: the min/max loop over the mesh's vertex array, each vertex
   * carried into world coordinates first.
   */
  method BuildBboxMesh(vertex: array<Vec3>, m: Mat4, huge: real) returns (box: BBox)
    requires Affine(m)
    ensures box == MeshBox(m, vertex[..], huge)
  {
    box := Inverted(huge);
    for i := 0 to vertex.Length
      invariant box == Hull(Inverted(huge), WorldVertices(m, vertex[..i]))
    {
      var pos := TransformPoint(m, vertex[i]);
      ghost var before := box;
      if pos.x < box.xmin {
        box := box.(xmin := pos.x);
      }
      if pos.y < box.ymin {
        box := box.(ymin := pos.y);
      }
      if pos.z < box.zmin {
        box := box.(zmin := pos.z);
      }
      if pos.x > box.xmax {
        box := box.(xmax := pos.x);
      }
      if pos.y > box.ymax {
        box := box.(ymax := pos.y);
      }
      if pos.z > box.zmax {
        box := box.(zmax := pos.z);
      }
      assert box == Enclose(before, pos);
      assert WorldVertices(m, vertex[..i + 1]) == WorldVertices(m, vertex[..i]) + [pos];
      HullStep(Inverted(huge), WorldVertices(m, vertex[..i]), pos);
    }
    assert vertex[..vertex.Length] == vertex[..];
  }
}
