/**
 * Axis-aligned boxes and points (bbox.h, bbox.c, vector.h).
 * Coordinates are modelled as reals: the C code stores them as float/double.
 */
module Geometry {

  /** The split axes of the kd-tree, in the order of `enum AXIS`. */
  datatype Axis = X | Y | Z

  datatype Vec3 = Vec3(x: real, y: real, z: real)

  /** An axis-aligned box: the six fields of `BBox`. */
  datatype BBox = BBox(xmin: real, ymin: real, zmin: real,
                       xmax: real, ymax: real, zmax: real)

  /** The axis after `a` in the cycle X -> Y -> Z -> X used by the kd-tree builder. */
  function Next(a: Axis): (n: Axis)
    ensures n != a
  {
    match a
    case X => Y
    case Y => Z
    case Z => X
  }

  function Coord(v: Vec3, a: Axis): real
  {
    match a
    case X => v.x
    case Y => v.y
    case Z => v.z
  }

  function Min(b: BBox, a: Axis): real
  {
    match a
    case X => b.xmin
    case Y => b.ymin
    case Z => b.zmin
  }

  function Max(b: BBox, a: Axis): real
  {
    match a
    case X => b.xmax
    case Y => b.ymax
    case Z => b.zmax
  }

  /** The box has min <= max on every axis. */
  predicate Proper(b: BBox)
  {
    b.xmin <= b.xmax && b.ymin <= b.ymax && b.zmin <= b.zmax
  }

  /** Box `inner` lies inside box `outer`. */
  predicate Within(inner: BBox, outer: BBox)
  {
    outer.xmin <= inner.xmin && outer.ymin <= inner.ymin && outer.zmin <= inner.zmin &&
    inner.xmax <= outer.xmax && inner.ymax <= outer.ymax && inner.zmax <= outer.zmax
  }

  /** Point `p` lies inside box `b` (closed on every face). */
  predicate Inside(p: Vec3, b: BBox)
  {
    b.xmin <= p.x <= b.xmax && b.ymin <= p.y <= b.ymax && b.zmin <= p.z <= b.zmax
  }

  /**
   * bbox_split: the left half is the input with its maximum on `axis` moved to
   * `location`, the right half the input with its minimum moved there; the other
   * five fields of each half are those of the input.
   */
  function Split(b: BBox, axis: Axis, location: real): (halves: (BBox, BBox))
    ensures Max(halves.0, axis) == location && Min(halves.1, axis) == location
    ensures Min(halves.0, axis) == Min(b, axis) && Max(halves.1, axis) == Max(b, axis)
    ensures forall a: Axis :: a != axis ==>
              Min(halves.0, a) == Min(b, a) && Max(halves.0, a) == Max(b, a) &&
              Min(halves.1, a) == Min(b, a) && Max(halves.1, a) == Max(b, a)
  {
    match axis
    case X => (b.(xmax := location), b.(xmin := location))
    case Y => (b.(ymax := location), b.(ymin := location))
    case Z => (b.(zmax := location), b.(zmin := location))
  }

  /**
   * bbox_surface_area: twice the product of the three extents (that is, twice the
   * volume, not the sum of the face areas). A box that is flat on some axis gets 0.
   */
  function SurfaceArea(b: BBox): (area: real)
    ensures Proper(b) ==> area >= 0.0
    ensures (b.xmin == b.xmax || b.ymin == b.ymax || b.zmin == b.zmax) ==> area == 0.0
  {
    var dz, dy, dx := b.zmax - b.zmin, b.ymax - b.ymin, b.xmax - b.xmin;
    assert dz * dy * dx == dz * (dy * dx);
    assert dz >= 0.0 && dy >= 0.0 ==> dz * dy >= 0.0;
    2.0 * dz * dy * dx
  }

  /** Splitting a box at a location inside it gives two halves inside the box. */
  lemma SplitWithin(b: BBox, axis: Axis, location: real)
    requires Min(b, axis) <= location <= Max(b, axis)
    ensures Within(Split(b, axis, location).0, b) && Within(Split(b, axis, location).1, b)
  {
    var halves := Split(b, axis, location);
    forall a: Axis ensures Min(b, a) <= Min(halves.0, a) && Max(halves.0, a) <= Max(b, a)
    {
    }
    forall a: Axis ensures Min(b, a) <= Min(halves.1, a) && Max(halves.1, a) <= Max(b, a)
    {
    }
  }

  /**
   * Because the "surface area" is linear in each extent, the values of the two
   * halves of a split add up to the value of the whole box.
   */
  lemma SplitAreaAdds(b: BBox, axis: Axis, location: real)
    ensures SurfaceArea(Split(b, axis, location).0) + SurfaceArea(Split(b, axis, location).1)
            == SurfaceArea(b)
  {
    var dz, dy, dx := b.zmax - b.zmin, b.ymax - b.ymin, b.xmax - b.xmin;
    match axis
    case X =>
      assert 2.0 * dz * dy * (location - b.xmin) + 2.0 * dz * dy * (b.xmax - location)
             == 2.0 * dz * dy * dx;
    case Y =>
      assert 2.0 * dz * (location - b.ymin) * dx + 2.0 * dz * (b.ymax - location) * dx
             == 2.0 * dz * dy * dx;
    case Z =>
      assert 2.0 * (location - b.zmin) * dy * dx + 2.0 * (b.zmax - location) * dy * dx
             == 2.0 * dz * dy * dx;
  }

  /**
   * The six comparisons that the min/max loops of mesh_build_kd_tree and
   * build_bbox_mesh make for one point: each minimum moves down to the point and
   * each maximum up to it.
   */
  function Enclose(b: BBox, p: Vec3): (e: BBox)
    ensures Within(b, e) && Inside(p, e)
  {
    BBox(if p.x < b.xmin then p.x else b.xmin,
         if p.y < b.ymin then p.y else b.ymin,
         if p.z < b.zmin then p.z else b.zmin,
         if p.x > b.xmax then p.x else b.xmax,
         if p.y > b.ymax then p.y else b.ymax,
         if p.z > b.zmax then p.z else b.zmax)
  }

  /**
   * The box those loops start from: every minimum at `huge` and every maximum at
   * `-huge`, where `huge` stands for HUGE_VAL.
   */
  function Inverted(huge: real): BBox
  {
    BBox(huge, huge, huge, -huge, -huge, -huge)
  }

  /** Every coordinate of every point lies strictly between -huge and huge. */
  predicate Finite(points: seq<Vec3>, huge: real)
  {
    forall k, a: Axis | 0 <= k < |points| :: -huge < Coord(points[k], a) < huge
  }

  /** The box a min/max loop over `points`, in order, leaves when it starts from `start`. */
  function Hull(start: BBox, points: seq<Vec3>): (h: BBox)
    ensures Within(start, h)
    ensures forall k | 0 <= k < |points| :: Inside(points[k], h)
  {
    if points == [] then start
    else
      var h := Enclose(Hull(start, points[..|points| - 1]), points[|points| - 1]);
      assert forall k | 0 <= k < |points| - 1 :: points[..|points| - 1][k] == points[k];
      h
  }

  /** One more point: the loop encloses it in the box it has so far. */
  lemma HullStep(start: BBox, points: seq<Vec3>, p: Vec3)
    ensures Hull(start, points + [p]) == Enclose(Hull(start, points), p)
  {
    assert (points + [p])[..|points|] == points;
  }

  /** A min/max loop over two runs of points is the loop over the second started where the first ended. */
  lemma {:induction false} HullAppend(start: BBox, first: seq<Vec3>, second: seq<Vec3>)
    ensures Hull(start, first + second) == Hull(Hull(start, first), second)
  {
    if second == [] {
      assert first + second == first;
    } else {
      var n := |second| - 1;
      HullAppend(start, first, second[..n]);
      LastSplit(first, second);
      HullStep(start, first + second[..n], second[n]);
      HullStep(Hull(start, first), second[..n], second[n]);
    }
  }

  /** Taking the last point off the second of two runs. */
  lemma LastSplit(first: seq<Vec3>, second: seq<Vec3>)
    requires second != []
    ensures var n := |second| - 1;
      first + second == (first + second[..n]) + [second[n]] && second[..n] + [second[n]] == second
  {
  }

  /**
   * Started from the HUGE_VAL box, the hull of finitely many finite points is
   * tight: every face lies on some point.
   */
  lemma {:induction false} HullAttained(points: seq<Vec3>, huge: real, a: Axis)
    requires |points| > 0 && Finite(points, huge)
    ensures exists k | 0 <= k < |points| :: Coord(points[k], a) == Min(Hull(Inverted(huge), points), a)
    ensures exists k | 0 <= k < |points| :: Coord(points[k], a) == Max(Hull(Inverted(huge), points), a)
  {
    var n := |points| - 1;
    var init := points[..n];
    var h := Hull(Inverted(huge), init);
    var p := points[n];
    assert Coord(points[n], a) == Coord(p, a);
    if n == 0 {
      assert -huge < Coord(p, a) < huge;
      assert h == Inverted(huge);
    } else {
      assert Finite(init, huge) by {
        forall k, b: Axis | 0 <= k < |init| ensures -huge < Coord(init[k], b) < huge {
          assert init[k] == points[k];
        }
      }
      HullAttained(init, huge, a);
      var lo :| 0 <= lo < |init| && Coord(init[lo], a) == Min(h, a);
      var hi :| 0 <= hi < |init| && Coord(init[hi], a) == Max(h, a);
      assert init[lo] == points[lo] && init[hi] == points[hi];
      var e := Enclose(h, p);
      assert Min(e, a) == Coord(p, a) || Min(e, a) == Min(h, a) by {
        match a
        case X =>
        case Y =>
        case Z =>
      }
      assert Max(e, a) == Coord(p, a) || Max(e, a) == Max(h, a) by {
        match a
        case X =>
        case Y =>
        case Z =>
      }
    }
  }
}
