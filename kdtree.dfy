/**
 * The kd-tree builder of mesh.c. A node owns a list of triangles; splitting it at
 * a location on an axis hands every triangle with a vertex at or below the
 * location to the left child and every triangle with a vertex above it to the
 * right child, so triangles that straddle the plane go to both. The location is
 * chosen among the triangles' own vertex coordinates by the surface area
 * heuristic, the axis cycles X -> Y -> Z, and recursion stops at small nodes or
 * at a fixed depth.
 */
module KdTrees {
  import opened Wrappers
  import opened Geometry

  /**
   * `struct Triangle` of mesh.h: three 0-based indices into each of the vertex,
   * normal and texture-coordinate arrays.
   */
  datatype Triangle = Triangle(vertexIndex: seq<int>, normalIndex: seq<int>, texcoordIndex: seq<int>)

  /** A node with at most this many triangles becomes a leaf. */
  const LeafSize := 10

  /** Nodes at this depth become leaves. */
  const MaxDepth := 8

  /** The triangle names three vertices that exist. */
  predicate IndexedTriangle(vertices: seq<Vec3>, t: Triangle)
  {
    |t.vertexIndex| == 3 && forall j | 0 <= j < 3 :: 0 <= t.vertexIndex[j] < |vertices|
  }

  predicate Indexed(vertices: seq<Vec3>, tris: seq<Triangle>)
  {
    forall k | 0 <= k < |tris| :: IndexedTriangle(vertices, tris[k])
  }

  /**
   * Vertex j of the triangle. The specification functions are total: an index the
   * vertex array does not have reads as the origin. The methods, like the source,
   * are only ever given triangles whose indices exist.
   */
  function VertexAt(vertices: seq<Vec3>, t: Triangle, j: int): Vec3
  {
    if 0 <= j < |t.vertexIndex| && 0 <= t.vertexIndex[j] < |vertices| then vertices[t.vertexIndex[j]]
    else Vec3(0.0, 0.0, 0.0)
  }

  /** Coordinate `axis` of vertex j of the triangle. */
  function VertexCoord(vertices: seq<Vec3>, t: Triangle, j: int, axis: Axis): real
  {
    Coord(VertexAt(vertices, t, j), axis)
  }

  datatype Side = Left | Right

  /**
   * The classification shared by split_kd_tree and calculate_cost: a triangle goes
   * left when some vertex is at or below the location and right when some vertex
   * is above it.
   */
  predicate Goes(side: Side, vertices: seq<Vec3>, t: Triangle, axis: Axis, location: real)
  {
    match side
    case Left =>
      VertexCoord(vertices, t, 0, axis) <= location || VertexCoord(vertices, t, 1, axis) <= location ||
      VertexCoord(vertices, t, 2, axis) <= location
    case Right =>
      !(VertexCoord(vertices, t, 0, axis) <= location) || !(VertexCoord(vertices, t, 1, axis) <= location) ||
      !(VertexCoord(vertices, t, 2, axis) <= location)
  }

  /** The triangles of `tris` that go to `side`, in their order in `tris`. */
  function Part(side: Side, vertices: seq<Vec3>, tris: seq<Triangle>, axis: Axis, location: real): (part: seq<Triangle>)
    ensures |part| <= |tris|
  {
    if tris == [] then []
    else
      var last := tris[|tris| - 1];
      Part(side, vertices, tris[..|tris| - 1], axis, location) +
      (if Goes(side, vertices, last, axis, location) then [last] else [])
  }

  /** A triangle is in a side's part exactly when it is one of the node's triangles and goes to that side. */
  lemma {:induction false} PartMembership(side: Side, vertices: seq<Vec3>, tris: seq<Triangle>, axis: Axis, location: real, t: Triangle)
    ensures t in Part(side, vertices, tris, axis, location) <==>
            t in tris && Goes(side, vertices, t, axis, location)
  {
    if tris != [] {
      var init := tris[..|tris| - 1];
      PartMembership(side, vertices, init, axis, location, t);
      assert tris == init + [tris[|tris| - 1]];
    }
  }

  lemma {:induction false} PartIndexed(side: Side, vertices: seq<Vec3>, tris: seq<Triangle>, axis: Axis, location: real)
    requires Indexed(vertices, tris)
    ensures Indexed(vertices, Part(side, vertices, tris, axis, location))
  {
    if tris != [] {
      var init := tris[..|tris| - 1];
      assert Indexed(vertices, init) by {
        forall k | 0 <= k < |init| ensures IndexedTriangle(vertices, init[k]) {
          assert init[k] == tris[k];
        }
      }
      PartIndexed(side, vertices, init, axis, location);
    }
  }

  /**
   * Every triangle of a node lands in at least one child, and one that has vertices
   * on both sides of the plane lands in both.
   */
  lemma SplitCovers(vertices: seq<Vec3>, tris: seq<Triangle>, axis: Axis, location: real)
    ensures forall t | t in tris :: t in Part(Left, vertices, tris, axis, location) || t in Part(Right, vertices, tris, axis, location)
    ensures |Part(Left, vertices, tris, axis, location)| + |Part(Right, vertices, tris, axis, location)| >= |tris|
  {
    forall t | t in tris
      ensures t in Part(Left, vertices, tris, axis, location) || t in Part(Right, vertices, tris, axis, location)
    {
      PartMembership(Left, vertices, tris, axis, location, t);
      PartMembership(Right, vertices, tris, axis, location, t);
    }
    PartSizes(vertices, tris, axis, location);
  }

  lemma {:induction false} PartSizes(vertices: seq<Vec3>, tris: seq<Triangle>, axis: Axis, location: real)
    ensures |Part(Left, vertices, tris, axis, location)| + |Part(Right, vertices, tris, axis, location)| >= |tris|
  {
    if tris != [] {
      PartSizes(vertices, tris[..|tris| - 1], axis, location);
    }
  }

  /** The part of a prefix of the triangles is a prefix of the part: children keep the parent's order. */
  lemma {:induction false} PartOfPrefix(side: Side, vertices: seq<Vec3>, tris: seq<Triangle>, axis: Axis, location: real, i: nat)
    requires i <= |tris|
    ensures Part(side, vertices, tris[..i], axis, location) <= Part(side, vertices, tris, axis, location)
  {
    if i < |tris| {
      var init := tris[..|tris| - 1];
      assert init[..i] == tris[..i];
      PartOfPrefix(side, vertices, init, axis, location, i);
    } else {
      assert tris[..i] == tris;
    }
  }

  /** The vertex positions of the triangles, three per triangle, in triangle then vertex order. */
  function Corners(vertices: seq<Vec3>, tris: seq<Triangle>): (corners: seq<Vec3>)
    ensures |corners| == 3 * |tris|
  {
    if tris == [] then []
    else
      var t := tris[|tris| - 1];
      Corners(vertices, tris[..|tris| - 1]) + [VertexAt(vertices, t, 0), VertexAt(vertices, t, 1), VertexAt(vertices, t, 2)]
  }

  lemma {:induction false} CornerAt(vertices: seq<Vec3>, tris: seq<Triangle>, i: int, j: int)
    requires 0 <= i < |tris| && 0 <= j < 3
    ensures Corners(vertices, tris)[3 * i + j] == VertexAt(vertices, tris[i], j)
  {
    var init := tris[..|tris| - 1];
    if i < |tris| - 1 {
      CornerAt(vertices, init, i, j);
    }
  }

  /** The candidate split locations, in the order build_kd_subtree tries them. */
  function Candidates(vertices: seq<Vec3>, tris: seq<Triangle>, axis: Axis): (cands: seq<real>)
    ensures |cands| == 3 * |tris|
  {
    if tris == [] then []
    else
      var t := tris[|tris| - 1];
      Candidates(vertices, tris[..|tris| - 1], axis) +
      [VertexCoord(vertices, t, 0, axis), VertexCoord(vertices, t, 1, axis), VertexCoord(vertices, t, 2, axis)]
  }

  lemma {:induction false} CandidateOf(vertices: seq<Vec3>, tris: seq<Triangle>, axis: Axis, i: int, j: int)
    requires 0 <= i < |tris| && 0 <= j < 3
    ensures Candidates(vertices, tris, axis)[3 * i + j] == VertexCoord(vertices, tris[i], j, axis)
  {
    var init := tris[..|tris| - 1];
    if i < |tris| - 1 {
      CandidateOf(vertices, init, axis, i, j);
    }
  }

  /** Candidate 3 * i + j is coordinate `axis` of vertex j of triangle i. */
  lemma CandidateAt(vertices: seq<Vec3>, tris: seq<Triangle>, axis: Axis, i: int, j: int)
    requires Indexed(vertices, tris) && 0 <= i < |tris| && 0 <= j < 3
    ensures Candidates(vertices, tris, axis)[3 * i + j] == Coord(vertices[tris[i].vertexIndex[j]], axis)
  {
    CandidateOf(vertices, tris, axis, i, j);
    assert IndexedTriangle(vertices, tris[i]);
  }

  /**
   * The surface area heuristic of calculate_cost: each child's triangle count
   * times the "surface area" of its half of the node's box.
   */
  function Cost(vertices: seq<Vec3>, tris: seq<Triangle>, axis: Axis, location: real, box: BBox): real
  {
    Weigh(|Part(Left, vertices, tris, axis, location)|, |Part(Right, vertices, tris, axis, location)|, Split(box, axis, location))
  }

  /** The return expression of calculate_cost: each count times its half's "surface area". */
  function Weigh(leftCount: nat, rightCount: nat, halves: (BBox, BBox)): real
  {
    leftCount as real * SurfaceArea(halves.0) + rightCount as real * SurfaceArea(halves.1)
  }

  /** The cost of each candidate location, in the order of `Candidates`. */
  function Costs(vertices: seq<Vec3>, tris: seq<Triangle>, axis: Axis, box: BBox): (costs: seq<real>)
    ensures |costs| == 3 * |tris|
  {
    CostsAt(vertices, tris, axis, Candidates(vertices, tris, axis), box)
  }

  function CostsAt(vertices: seq<Vec3>, tris: seq<Triangle>, axis: Axis, locations: seq<real>, box: BBox): (costs: seq<real>)
    ensures |costs| == |locations|
  {
    if locations == [] then []
    else
      var n := |locations| - 1;
      CostsAt(vertices, tris, axis, locations[..n], box) + [Cost(vertices, tris, axis, locations[n], box)]
  }

  lemma {:induction false} CostOf(vertices: seq<Vec3>, tris: seq<Triangle>, axis: Axis, locations: seq<real>, box: BBox, k: int)
    requires 0 <= k < |locations|
    ensures CostsAt(vertices, tris, axis, locations, box)[k] == Cost(vertices, tris, axis, locations[k], box)
  {
    var n := |locations| - 1;
    if k < n {
      CostOf(vertices, tris, axis, locations[..n], box, k);
    }
  }

  /**
   * The index a left-to-right scan with a strict `<` settles on: a later value
   * replaces the best so far only when it is smaller.
   */
  function FirstMin(s: seq<real>): (k: nat)
    requires |s| > 0
    ensures k < |s|
  {
    if |s| == 1 then 0
    else
      var k := FirstMin(s[..|s| - 1]);
      if s[|s| - 1] < s[k] then |s| - 1 else k
  }

  /** One more step of the scan: the new value wins only when it is strictly smaller. */
  lemma FirstMinStep(s: seq<real>, n: nat)
    requires n < |s|
    ensures n == 0 ==> FirstMin(s[..n + 1]) == 0
    ensures n > 0 ==> FirstMin(s[..n + 1]) == if s[n] < s[FirstMin(s[..n])] then n else FirstMin(s[..n])
  {
    assert s[..n + 1][..n] == s[..n];
  }

  /** FirstMin finds a minimum, and the first one: every earlier value is larger. */
  lemma {:induction false} FirstMinIsFirstMinimum(s: seq<real>)
    requires |s| > 0
    ensures forall j | 0 <= j < |s| :: s[FirstMin(s)] <= s[j]
    ensures forall j | 0 <= j < FirstMin(s) :: s[j] > s[FirstMin(s)]
  {
    if |s| > 1 {
      var init := s[..|s| - 1];
      FirstMinIsFirstMinimum(init);
      assert forall j | 0 <= j < |init| :: init[j] == s[j];
    }
  }

  /** The location build_kd_subtree splits a node at. */
  function BestLocation(vertices: seq<Vec3>, tris: seq<Triangle>, axis: Axis, box: BBox): real
    requires |tris| > 0
  {
    Candidates(vertices, tris, axis)[FirstMin(Costs(vertices, tris, axis, box))]
  }

  /**
   * The chosen location is the coordinate of a vertex of one of the node's
   * triangles, no candidate costs less, and every candidate tried before it costs
   * more.
   */
  lemma BestLocationIsBest(vertices: seq<Vec3>, tris: seq<Triangle>, axis: Axis, box: BBox)
    requires |tris| > 0
    ensures exists i, j | 0 <= i < |tris| && 0 <= j < 3 ::
              BestLocation(vertices, tris, axis, box) == VertexCoord(vertices, tris[i], j, axis)
    ensures forall i, j | 0 <= i < |tris| && 0 <= j < 3 ::
              Cost(vertices, tris, axis, BestLocation(vertices, tris, axis, box), box)
              <= Cost(vertices, tris, axis, VertexCoord(vertices, tris[i], j, axis), box)
    ensures forall k | 0 <= k < FirstMin(Costs(vertices, tris, axis, box)) ::
              Cost(vertices, tris, axis, Candidates(vertices, tris, axis)[k], box)
              > Cost(vertices, tris, axis, BestLocation(vertices, tris, axis, box), box)
  {
    BestIsVertex(vertices, tris, axis, box);
    BestBeatsAll(vertices, tris, axis, box);
    BestBeatsEarlier(vertices, tris, axis, box);
  }

  lemma BestIsVertex(vertices: seq<Vec3>, tris: seq<Triangle>, axis: Axis, box: BBox)
    requires |tris| > 0
    ensures exists i, j | 0 <= i < |tris| && 0 <= j < 3 ::
              BestLocation(vertices, tris, axis, box) == VertexCoord(vertices, tris[i], j, axis)
  {
    var costs := Costs(vertices, tris, axis, box);
    var cands := Candidates(vertices, tris, axis);
    var best := FirstMin(costs);
    var loc := BestLocation(vertices, tris, axis, box);
    assert loc == cands[best];
    FirstMinIsFirstMinimum(costs);
    var i, j := best / 3, best % 3;
    assert 3 * i + j == best && 0 <= i < |tris| && 0 <= j < 3;
    CandidateOf(vertices, tris, axis, i, j);
    assert loc == VertexCoord(vertices, tris[i], j, axis);
  }

  lemma BestBeatsAll(vertices: seq<Vec3>, tris: seq<Triangle>, axis: Axis, box: BBox)
    requires |tris| > 0
    ensures forall i, j | 0 <= i < |tris| && 0 <= j < 3 ::
              Cost(vertices, tris, axis, BestLocation(vertices, tris, axis, box), box)
              <= Cost(vertices, tris, axis, VertexCoord(vertices, tris[i], j, axis), box)
  {
    var costs := Costs(vertices, tris, axis, box);
    var cands := Candidates(vertices, tris, axis);
    var best := FirstMin(costs);
    var loc := BestLocation(vertices, tris, axis, box);
    assert loc == cands[best];
    FirstMinIsFirstMinimum(costs);
    CostOf(vertices, tris, axis, cands, box, best);
    forall i', j' | 0 <= i' < |tris| && 0 <= j' < 3
      ensures Cost(vertices, tris, axis, loc, box) <= Cost(vertices, tris, axis, VertexCoord(vertices, tris[i'], j', axis), box)
    {
      CandidateOf(vertices, tris, axis, i', j');
      assert cands[3 * i' + j'] == VertexCoord(vertices, tris[i'], j', axis);
      CostOf(vertices, tris, axis, cands, box, 3 * i' + j');
    }
  }

  lemma BestBeatsEarlier(vertices: seq<Vec3>, tris: seq<Triangle>, axis: Axis, box: BBox)
    requires |tris| > 0
    ensures forall k | 0 <= k < FirstMin(Costs(vertices, tris, axis, box)) ::
              Cost(vertices, tris, axis, Candidates(vertices, tris, axis)[k], box)
              > Cost(vertices, tris, axis, BestLocation(vertices, tris, axis, box), box)
  {
    var costs := Costs(vertices, tris, axis, box);
    var cands := Candidates(vertices, tris, axis);
    var best := FirstMin(costs);
    var loc := BestLocation(vertices, tris, axis, box);
    assert loc == cands[best];
    FirstMinIsFirstMinimum(costs);
    CostOf(vertices, tris, axis, cands, box, best);
    forall k | 0 <= k < best
      ensures Cost(vertices, tris, axis, cands[k], box) > Cost(vertices, tris, axis, loc, box)
    {
      CostOf(vertices, tris, axis, cands, box, k);
    }
  }

  /** A snapshot of a node and everything below it: the fields of `struct KdNode`. */
  datatype KdTree = KdTree(leaf: bool, axis: Option<Axis>, location: Option<real>,
                           triangles: seq<Triangle>, left: Option<KdTree>, right: Option<KdTree>)

  /** The number of edges on the longest path from the node down to a leaf. */
  function Height(t: KdTree): nat
  {
    var l := if t.left.Some? then 1 + Height(t.left.value) else 0;
    var r := if t.right.Some? then 1 + Height(t.right.value) else 0;
    if l < r then r else l
  }

  /** Some leaf of the tree holds the triangle. */
  predicate InLeaf(t: KdTree, tri: Triangle)
  {
    (t.leaf && tri in t.triangles) ||
    (t.left.Some? && InLeaf(t.left.value, tri)) ||
    (t.right.Some? && InLeaf(t.right.value, tri))
  }

  /**
   * The tree build_kd_subtree makes of a node fresh from kd_node_new holding
   * `tris`, at depth `depth`, split on `axis`, with box `box`: a leaf at depth
   * MaxDepth, otherwise as `Grow` says. The definition is layered (Blueprint,
   * Grow, Interior, SplitNode) so that each unfolding exposes one decision.
   */
  function Blueprint(vertices: seq<Vec3>, tris: seq<Triangle>, depth: nat, axis: Axis, box: BBox): KdTree
    requires depth <= MaxDepth
    decreases MaxDepth - depth, 3
  {
    if depth == MaxDepth then KdTree(true, None, None, tris, None, None)
    else Grow(vertices, tris, depth, axis, box)
  }

  /** Above MaxDepth: a leaf when there are at most LeafSize triangles, an interior node otherwise. */
  function Grow(vertices: seq<Vec3>, tris: seq<Triangle>, depth: nat, axis: Axis, box: BBox): KdTree
    requires depth < MaxDepth
    decreases MaxDepth - depth, 2
  {
    if |tris| <= LeafSize then KdTree(true, None, None, tris, None, None)
    else Interior(vertices, tris, depth, axis, box)
  }

  /** An interior node is split at the surface area heuristic's location. */
  function Interior(vertices: seq<Vec3>, tris: seq<Triangle>, depth: nat, axis: Axis, box: BBox): KdTree
    requires depth < MaxDepth && |tris| > LeafSize
    decreases MaxDepth - depth, 1
  {
    SplitNode(vertices, tris, depth, axis, box, BestLocation(vertices, tris, axis, box))
  }

  /**
   * A node split at `loc`: no triangles of its own, and both halves built one
   * level deeper on the next axis.
   */
  function SplitNode(vertices: seq<Vec3>, tris: seq<Triangle>, depth: nat, axis: Axis, box: BBox, loc: real): KdTree
    requires depth < MaxDepth
    decreases MaxDepth - depth, 0
  {
    var halves := Split(box, axis, loc);
    KdTree(false, Some(axis), Some(loc), [],
           Some(Blueprint(vertices, Part(Left, vertices, tris, axis, loc), depth + 1, Next(axis), halves.0)),
           Some(Blueprint(vertices, Part(Right, vertices, tris, axis, loc), depth + 1, Next(axis), halves.1)))
  }

  /**
   * build_kd_subtree's leaf test: a leaf holding all of `tris` exactly when there
   * are at most LeafSize of them or the depth is MaxDepth, otherwise a node split
   * at the best location.
   */
  lemma BlueprintShape(vertices: seq<Vec3>, tris: seq<Triangle>, depth: nat, axis: Axis, box: BBox)
    requires depth <= MaxDepth
    ensures Blueprint(vertices, tris, depth, axis, box).leaf <==> |tris| <= LeafSize || depth == MaxDepth
    ensures |tris| <= LeafSize || depth == MaxDepth ==>
              Blueprint(vertices, tris, depth, axis, box) == KdTree(true, None, None, tris, None, None)
    ensures depth < MaxDepth && |tris| > LeafSize ==>
              Blueprint(vertices, tris, depth, axis, box) == SplitNode(vertices, tris, depth, axis, box, BestLocation(vertices, tris, axis, box))
  {
    if depth < MaxDepth {
      assert Blueprint(vertices, tris, depth, axis, box) == Grow(vertices, tris, depth, axis, box);
      if |tris| > LeafSize {
        assert Grow(vertices, tris, depth, axis, box) == Interior(vertices, tris, depth, axis, box);
      }
    }
  }

  /** No leaf of a tree built from depth `depth` lies more than MaxDepth - depth levels down. */
  lemma {:induction false} BlueprintHeight(vertices: seq<Vec3>, tris: seq<Triangle>, depth: nat, axis: Axis, box: BBox)
    requires depth <= MaxDepth
    ensures Height(Blueprint(vertices, tris, depth, axis, box)) <= MaxDepth - depth
    decreases MaxDepth - depth, 1
  {
    BlueprintShape(vertices, tris, depth, axis, box);
    if depth < MaxDepth && |tris| > LeafSize {
      SplitNodeHeight(vertices, tris, depth, axis, box, BestLocation(vertices, tris, axis, box));
    }
  }

  lemma {:induction false} SplitNodeHeight(vertices: seq<Vec3>, tris: seq<Triangle>, depth: nat, axis: Axis, box: BBox, loc: real)
    requires depth < MaxDepth
    ensures Height(SplitNode(vertices, tris, depth, axis, box, loc)) <= MaxDepth - depth
    decreases MaxDepth - depth, 0
  {
    var halves := Split(box, axis, loc);
    BlueprintHeight(vertices, Part(Left, vertices, tris, axis, loc), depth + 1, Next(axis), halves.0);
    BlueprintHeight(vertices, Part(Right, vertices, tris, axis, loc), depth + 1, Next(axis), halves.1);
  }

  /**
   * The leaves of the tree build_kd_subtree makes hold exactly the triangles it
   * was given: none is lost, and none appears that was not given.
   */
  lemma {:induction false} BlueprintLeaves(vertices: seq<Vec3>, tris: seq<Triangle>, depth: nat, axis: Axis, box: BBox, tri: Triangle)
    requires depth <= MaxDepth
    ensures InLeaf(Blueprint(vertices, tris, depth, axis, box), tri) <==> tri in tris
    decreases MaxDepth - depth, 1
  {
    BlueprintShape(vertices, tris, depth, axis, box);
    if depth < MaxDepth && |tris| > LeafSize {
      SplitNodeLeaves(vertices, tris, depth, axis, box, BestLocation(vertices, tris, axis, box), tri);
    }
  }

  lemma {:induction false} SplitNodeLeaves(vertices: seq<Vec3>, tris: seq<Triangle>, depth: nat, axis: Axis, box: BBox, loc: real, tri: Triangle)
    requires depth < MaxDepth
    ensures InLeaf(SplitNode(vertices, tris, depth, axis, box, loc), tri) <==> tri in tris
    decreases MaxDepth - depth, 0
  {
    var halves := Split(box, axis, loc);
    BlueprintLeaves(vertices, Part(Left, vertices, tris, axis, loc), depth + 1, Next(axis), halves.0, tri);
    BlueprintLeaves(vertices, Part(Right, vertices, tris, axis, loc), depth + 1, Next(axis), halves.1, tri);
    PartMembership(Left, vertices, tris, axis, loc, tri);
    PartMembership(Right, vertices, tris, axis, loc, tri);
  }

  /** `struct KdNode`. The triangle array and its length are the sequence `triangles`. */
  class KdNode {
    var leaf: bool
    /** None is the -1 of kd_node_new. */
    var axis: Option<Axis>
    /** None is the HUGE_VAL of kd_node_new. */
    var location: Option<real>
    var left: KdNode?
    var right: KdNode?
    var triangles: seq<Triangle>
    /** The node and everything below it, as a value. */
    ghost var Model: KdTree
    ghost var Repr: set<object>

    /**
     * The node and its children own disjoint parts of the heap, and `Model`
     * mirrors the fields of the node and the models of its children.
     */
    ghost predicate Valid()
      reads this, Repr
      decreases Repr
    {
      this in Repr &&
      (left != null ==> left in Repr && left.Repr <= Repr && this !in left.Repr && left.Valid()) &&
      (right != null ==> right in Repr && right.Repr <= Repr && this !in right.Repr && right.Valid()) &&
      (left != null && right != null ==> left.Repr !! right.Repr) &&
      Model == KdTree(leaf, axis, location, triangles,
                      if left == null then None else Some(left.Model),
                      if right == null then None else Some(right.Model))
    }

    /** Whether the node is as kd_node_new leaves it, apart from its triangles. */
    ghost predicate Unbuilt()
      reads this
    {
      !leaf && axis == None && location == None && left == null && right == null && Repr == {this} &&
      Model == KdTree(false, None, None, triangles, None, None)
    }

    /** kd_node_new: not a leaf, no axis, no location, no children, no triangles. */
    constructor ()
      ensures Unbuilt() && triangles == []
    {
      leaf := false;
      axis := None;
      location := None;
      left := null;
      right := null;
      triangles := [];
      Model := KdTree(false, None, None, [], None, None);
      Repr := {this};
    }

    /**
     * split_kd_tree: count each side, allocate the two child arrays, fill them in
     * a second pass, and empty the node.
     */
    method SplitKdTree(vertices: seq<Vec3>, splitAxis: Axis, splitLocation: real)
      requires Valid() && left == null && right == null && Repr == {this} && Indexed(vertices, triangles)
      modifies this
      ensures Valid()
      ensures location == Some(splitLocation) && triangles == [] && !leaf
      ensures axis == old(axis) && Repr == {this, left, right}
      ensures left != null && right != null && fresh(left) && fresh(right)
      ensures left.Unbuilt() && right.Unbuilt()
      ensures left.triangles == Part(Left, vertices, old(triangles), splitAxis, splitLocation)
      ensures right.triangles == Part(Right, vertices, old(triangles), splitAxis, splitLocation)
    {
      var leftTris, rightTris := Distribute(vertices, triangles, splitAxis, splitLocation);
      var l := Child(leftTris);
      var r := Child(rightTris);
      Attach(l, r, splitLocation);
    }

    /** The end of split_kd_tree: the node gives up its triangles and takes the two children. */
    method Attach(l: KdNode, r: KdNode, splitLocation: real)
      requires Valid() && Repr == {this} && l != r && l != this && r != this
      requires l.Unbuilt() && r.Unbuilt() && l.Valid() && r.Valid()
      modifies this
      ensures Valid()
      ensures location == Some(splitLocation) && triangles == [] && !leaf
      ensures axis == old(axis) && Repr == {this, l, r} && left == l && right == r
    {
      location, left, right, triangles, leaf := Some(splitLocation), l, r, [], false;
      Model, Repr := KdTree(false, axis, location, [], Some(l.Model), Some(r.Model)), {this, l, r};
    }

    /** A child of split_kd_tree: a node from kd_node_new handed its triangle array. */
    static method Child(ts: seq<Triangle>) returns (n: KdNode)
      ensures fresh(n) && n.Unbuilt() && n.Valid() && n.triangles == ts
    {
      n := new KdNode();
      n.SetTriangles(ts);
      n.UnbuiltValid();
    }

    /** A node as kd_node_new leaves it is well formed. */
    lemma UnbuiltValid()
      requires Unbuilt()
      ensures Valid()
    {
    }

    /** Hand a node fresh from kd_node_new its triangle array (and with it, its count). */
    method SetTriangles(ts: seq<Triangle>)
      requires Unbuilt()
      modifies this
      ensures Unbuilt() && triangles == ts
    {
      triangles := ts;
      Model := Model.(triangles := ts);
    }

    /**
     * build_kd_subtree on a node fresh from kd_node_new: a leaf when small or deep
     * enough; otherwise split at the location the surface area heuristic picks and
     * build both children one level deeper on the next axis.
     */
    method BuildSubtree(vertices: seq<Vec3>, depth: nat, splitAxis: Axis, box: BBox)
      requires Valid() && Unbuilt() && Indexed(vertices, triangles) && depth <= MaxDepth
      modifies this
      ensures Valid() && fresh(Repr - {this})
      ensures Model == Blueprint(vertices, old(triangles), depth, splitAxis, box)
      decreases MaxDepth - depth, 1
    {
      var tris := triangles;
      if |tris| <= LeafSize || depth == MaxDepth {
        leaf := true;
        left, right := null, null;
        Model := KdTree(true, None, None, tris, None, None);
        assert Model == Blueprint(vertices, tris, depth, splitAxis, box);
        return;
      }
      axis := Some(splitAxis);
      Model := Model.(axis := axis);
      var bestLocation := ChooseLocation(vertices, tris, splitAxis, box);
      SplitKdTree(vertices, splitAxis, bestLocation);
      PartIndexed(Left, vertices, tris, splitAxis, bestLocation);
      PartIndexed(Right, vertices, tris, splitAxis, bestLocation);
      var halves := Split(box, splitAxis, bestLocation);
      BuildChildren(vertices, depth, Next(splitAxis), halves.0, halves.1);
      assert Blueprint(vertices, tris, depth, splitAxis, box) == SplitNode(vertices, tris, depth, splitAxis, box, bestLocation) by {
        BlueprintShape(vertices, tris, depth, splitAxis, box);
      }
    }

    /** The two recursive calls that end build_kd_subtree, one level deeper on the next axis. */
    method BuildChildren(vertices: seq<Vec3>, depth: nat, nextAxis: Axis, leftBox: BBox, rightBox: BBox)
      requires Valid() && depth < MaxDepth && left != null && right != null && Repr == {this, left, right}
      requires left.Unbuilt() && right.Unbuilt()
      requires Indexed(vertices, left.triangles) && Indexed(vertices, right.triangles)
      modifies this, left, right
      ensures Valid() && fresh(Repr - old(Repr))
      ensures leaf == old(leaf) && axis == old(axis) && location == old(location) && triangles == old(triangles)
      ensures left == old(left) && right == old(right)
      ensures left.Model == Blueprint(vertices, old(left.triangles), depth + 1, nextAxis, leftBox)
      ensures right.Model == Blueprint(vertices, old(right.triangles), depth + 1, nextAxis, rightBox)
      decreases MaxDepth - depth, 0
    {
      var l, r := left, right;
      l.BuildSubtree(vertices, depth + 1, nextAxis, leftBox);
      assert this !in l.Repr && r !in l.Repr;
      ghost var leftRepr := l.Repr;
      r.BuildSubtree(vertices, depth + 1, nextAxis, rightBox);
      assert this !in r.Repr && leftRepr !! r.Repr;
      assert l.Repr == leftRepr && l.Valid();
      Model, Repr := KdTree(leaf, axis, location, triangles, Some(l.Model), Some(r.Model)), {this} + l.Repr + r.Repr;
    }
  }

  /**
   * The search loop of build_kd_subtree: try every vertex coordinate of every
   * triangle in order, computing its cost with calculate_cost, and keep a
   * candidate only when it is strictly cheaper than the best so far (whose cost
   * starts at HUGE_VAL, here None).
   */
  method ChooseLocation(vertices: seq<Vec3>, tris: seq<Triangle>, axis: Axis, box: BBox) returns (bestLocation: real)
    requires Indexed(vertices, tris) && |tris| > 0
    ensures bestLocation == BestLocation(vertices, tris, axis, box)
  {
    var bestCost: Option<real> := None;
    bestLocation := 0.0;
    for i := 0 to |tris|
      invariant Scanned(vertices, tris, axis, box, 3 * i, bestCost, bestLocation)
    {
      for j := 0 to 3
        invariant Scanned(vertices, tris, axis, box, 3 * i + j, bestCost, bestLocation)
      {
        bestCost, bestLocation := Consider(vertices, tris, axis, box, i, j, bestCost, bestLocation);
      }
    }
    assert Costs(vertices, tris, axis, box)[..3 * |tris|] == Costs(vertices, tris, axis, box);
  }

  /** After the first `n` candidates: the least cost so far (none yet when `n == 0`) and its location. */
  ghost predicate Scanned(vertices: seq<Vec3>, tris: seq<Triangle>, axis: Axis, box: BBox, n: nat, bestCost: Option<real>, bestLocation: real)
  {
    var costs := Costs(vertices, tris, axis, box);
    n <= |costs| &&
    (n == 0 ==> bestCost == None) &&
    (n > 0 ==> bestCost == Some(costs[FirstMin(costs[..n])]) &&
               bestLocation == Candidates(vertices, tris, axis)[FirstMin(costs[..n])])
  }

  /** One step of the search: vertex `j` of triangle `i` replaces the best so far when it is strictly cheaper. */
  method Consider(vertices: seq<Vec3>, tris: seq<Triangle>, axis: Axis, box: BBox, i: nat, j: nat,
                  bestCost: Option<real>, bestLocation: real) returns (newCost: Option<real>, newLocation: real)
    requires Indexed(vertices, tris) && i < |tris| && j < 3
    requires Scanned(vertices, tris, axis, box, 3 * i + j, bestCost, bestLocation)
    ensures Scanned(vertices, tris, axis, box, 3 * i + j + 1, newCost, newLocation)
  {
    ghost var costs := Costs(vertices, tris, axis, box);
    var loc := Coord(vertices[tris[i].vertexIndex[j]], axis);
    CandidateAt(vertices, tris, axis, i, j);
    var cost := CalculateCost(vertices, tris, axis, loc, box);
    CostOf(vertices, tris, axis, Candidates(vertices, tris, axis), box, 3 * i + j);
    FirstMinStep(costs, 3 * i + j);
    newCost, newLocation := bestCost, bestLocation;
    if bestCost.None? || cost < bestCost.value {
      newCost := Some(cost);
      newLocation := loc;
    }
  }

  /**
   * The first pass of split_kd_tree (and the loop of calculate_cost): how many
   * triangles go to each side.
   */
  method CountSides(vertices: seq<Vec3>, tris: seq<Triangle>, axis: Axis, location: real)
    returns (leftCount: nat, rightCount: nat)
    requires Indexed(vertices, tris)
    ensures leftCount == |Part(Left, vertices, tris, axis, location)|
    ensures rightCount == |Part(Right, vertices, tris, axis, location)|
  {
    leftCount, rightCount := 0, 0;
    for i := 0 to |tris|
      invariant leftCount == |Part(Left, vertices, tris[..i], axis, location)|
      invariant rightCount == |Part(Right, vertices, tris[..i], axis, location)|
    {
      assert tris[..i + 1][..i] == tris[..i];
      var vLeft := ClassifyVertices(vertices, tris[i], axis, location);
      if vLeft[0] || vLeft[1] || vLeft[2] {
        leftCount := leftCount + 1;
      }
      if !vLeft[0] || !vLeft[1] || !vLeft[2] {
        rightCount := rightCount + 1;
      }
    }
    assert tris[..|tris|] == tris;
  }

  /**
   * The two passes of split_kd_tree: count each side, allocate an array of that
   * size for each, and fill both in order.
   */
  method Distribute(vertices: seq<Vec3>, tris: seq<Triangle>, axis: Axis, location: real)
    returns (leftTris: seq<Triangle>, rightTris: seq<Triangle>)
    requires Indexed(vertices, tris)
    ensures leftTris == Part(Left, vertices, tris, axis, location)
    ensures rightTris == Part(Right, vertices, tris, axis, location)
  {
    var leftCount, rightCount := CountSides(vertices, tris, axis, location);
    var leftArray := new Triangle[leftCount];
    var rightArray := new Triangle[rightCount];
    FillSides(vertices, tris, axis, location, leftArray, rightArray);
    leftTris, rightTris := leftArray[..], rightArray[..];
  }

  /**
   * The second pass of split_kd_tree: copy each triangle to the next free slot of
   * every side it goes to, the cursors `lefti` and `righti` marking those slots.
   */
  method FillSides(vertices: seq<Vec3>, tris: seq<Triangle>, axis: Axis, location: real,
                   leftArray: array<Triangle>, rightArray: array<Triangle>)
    requires Indexed(vertices, tris) && leftArray != rightArray
    requires leftArray.Length == |Part(Left, vertices, tris, axis, location)|
    requires rightArray.Length == |Part(Right, vertices, tris, axis, location)|
    modifies leftArray, rightArray
    ensures leftArray[..] == Part(Left, vertices, tris, axis, location)
    ensures rightArray[..] == Part(Right, vertices, tris, axis, location)
  {
    var lefti: nat, righti: nat := 0, 0;
    for i := 0 to |tris|
      invariant lefti <= leftArray.Length && righti <= rightArray.Length
      invariant leftArray[..lefti] == Part(Left, vertices, tris[..i], axis, location)
      invariant rightArray[..righti] == Part(Right, vertices, tris[..i], axis, location)
    {
      lefti, righti := FillOne(vertices, tris, axis, location, leftArray, rightArray, i, lefti, righti);
    }
    assert tris[..|tris|] == tris;
    assert leftArray[..] == leftArray[..lefti] && rightArray[..] == rightArray[..righti];
  }

  /**
   * One turn of split_kd_tree's fill loop: triangle i goes to the next free slot
   * of each side it touches, and each cursor moves past what it wrote.
   */
  method FillOne(vertices: seq<Vec3>, tris: seq<Triangle>, axis: Axis, location: real,
                 leftArray: array<Triangle>, rightArray: array<Triangle>, i: nat, lefti: nat, righti: nat)
    returns (nextLefti: nat, nextRighti: nat)
    requires Indexed(vertices, tris) && leftArray != rightArray && i < |tris|
    requires leftArray.Length == |Part(Left, vertices, tris, axis, location)|
    requires rightArray.Length == |Part(Right, vertices, tris, axis, location)|
    requires lefti <= leftArray.Length && righti <= rightArray.Length
    requires leftArray[..lefti] == Part(Left, vertices, tris[..i], axis, location)
    requires rightArray[..righti] == Part(Right, vertices, tris[..i], axis, location)
    modifies leftArray, rightArray
    ensures nextLefti <= leftArray.Length && nextRighti <= rightArray.Length
    ensures leftArray[..nextLefti] == Part(Left, vertices, tris[..i + 1], axis, location)
    ensures rightArray[..nextRighti] == Part(Right, vertices, tris[..i + 1], axis, location)
  {
    assert tris[..i + 1][..i] == tris[..i];
    PartOfPrefix(Left, vertices, tris, axis, location, i + 1);
    PartOfPrefix(Right, vertices, tris, axis, location, i + 1);
    var vLeft := ClassifyVertices(vertices, tris[i], axis, location);
    nextLefti, nextRighti := lefti, righti;
    ghost var rightDone := rightArray[..righti];
    if vLeft[0] || vLeft[1] || vLeft[2] {
      leftArray[lefti] := tris[i];
      assert leftArray[..lefti + 1] == leftArray[..lefti] + [tris[i]];
      nextLefti := lefti + 1;
    }
    assert rightArray[..righti] == rightDone;
    ghost var leftDone := leftArray[..nextLefti];
    if !vLeft[0] || !vLeft[1] || !vLeft[2] {
      rightArray[righti] := tris[i];
      assert rightArray[..righti + 1] == rightArray[..righti] + [tris[i]];
      nextRighti := righti + 1;
    }
    assert leftArray[..nextLefti] == leftDone;
  }

  /** The `v_left` array of split_kd_tree and calculate_cost: is vertex j at or below the location? */
  method ClassifyVertices(vertices: seq<Vec3>, t: Triangle, axis: Axis, location: real) returns (vLeft: array<bool>)
    requires IndexedTriangle(vertices, t)
    ensures fresh(vLeft) && vLeft.Length == 3
    ensures forall j | 0 <= j < 3 :: vLeft[j] == (VertexCoord(vertices, t, j, axis) <= location)
    ensures (vLeft[0] || vLeft[1] || vLeft[2]) == Goes(Left, vertices, t, axis, location)
    ensures (!vLeft[0] || !vLeft[1] || !vLeft[2]) == Goes(Right, vertices, t, axis, location)
  {
    vLeft := new bool[3];
    for j := 0 to 3
      invariant forall j' | 0 <= j' < j :: vLeft[j'] == (VertexCoord(vertices, t, j', axis) <= location)
    {
      var v := vertices[t.vertexIndex[j]];
      vLeft[j] := Coord(v, axis) <= location;
    }
  }

  /**
   * calculate_cost, with both counters starting at zero: count the triangles of
   * each side as split_kd_tree would, then weigh each count by its half's area.
   */
  method CalculateCost(vertices: seq<Vec3>, tris: seq<Triangle>, axis: Axis, location: real, treeBox: BBox) returns (cost: real)
    requires Indexed(vertices, tris)
    ensures cost == Cost(vertices, tris, axis, location, treeBox)
  {
    var leftTris, rightTris := CountSides(vertices, tris, axis, location);
    cost := Weigh(leftTris, rightTris, Split(treeBox, axis, location));
  }

  /**
   * calculate_cost as written: `left_tris` and `right_tris` are never set before
   * being incremented, so each count starts from whatever the stack held, here
   * `leftStart` and `rightStart`. Every unit of garbage adds its half's area.
   */
  function CostAsWritten(vertices: seq<Vec3>, tris: seq<Triangle>, axis: Axis, location: real, box: BBox,
                         leftStart: int, rightStart: int): (c: real)
    ensures c == Cost(vertices, tris, axis, location, box) +
                 leftStart as real * SurfaceArea(Split(box, axis, location).0) +
                 rightStart as real * SurfaceArea(Split(box, axis, location).1)
  {
    var halves := Split(box, axis, location);
    CountsDistribute(leftStart, |Part(Left, vertices, tris, axis, location)|, SurfaceArea(halves.0));
    CountsDistribute(rightStart, |Part(Right, vertices, tris, axis, location)|, SurfaceArea(halves.1));
    (leftStart + |Part(Left, vertices, tris, axis, location)|) as real * SurfaceArea(halves.0) +
    (rightStart + |Part(Right, vertices, tris, axis, location)|) as real * SurfaceArea(halves.1)
  }

  lemma CountsDistribute(start: int, count: int, area: real)
    ensures (start + count) as real * area == start as real * area + count as real * area
  {
  }

  /**
   * A left counter that happens to start at 1 makes a node with no triangles cost
   * 1 instead of 0 when split at the middle of the unit cube.
   */
  lemma CostAsWrittenDiffers()
    ensures Cost([], [], X, 0.5, BBox(0.0, 0.0, 0.0, 1.0, 1.0, 1.0)) == 0.0
    ensures CostAsWritten([], [], X, 0.5, BBox(0.0, 0.0, 0.0, 1.0, 1.0, 1.0), 1, 0) == 1.0
  {
    var halves := Split(BBox(0.0, 0.0, 0.0, 1.0, 1.0, 1.0), X, 0.5);
    assert halves.0 == BBox(0.0, 0.0, 0.0, 0.5, 1.0, 1.0);
    assert SurfaceArea(halves.0) == 1.0;
  }
}
