/**
 * import_graph of scene.c: the walk over a scene's graph of transform and shape
 * nodes. Transform nodes compose their matrix into the top of the matrix stack
 * (and its inverse into the top inverse) while their children are imported;
 * shape nodes prepend a surface that records the top pair.
 */
module SceneGraph {
  import opened Wrappers
  import opened Geometry
  import opened Matrices
  import opened CStrings
  import MatrixOps
  import opened MatrixStacks

  /**
   * The three transforms. A rotation carries the matrices mat4_rotate builds for
   * the angle and for its negation; mat4_rotate is not part of this model.
   */
  datatype Transform =
    | Rotate(rotation: Mat4, unrotation: Mat4)
    | Translate(v: Vec3)
    | Scale(v: Vec3)

  /** An element of the scene graph, by tag name. */
  datatype Node =
    | ShapeNode(geometry: string, hasTexture: bool, material: string)
    | TransformNode(transform: Transform, children: seq<Node>)
    | OtherNode(name: string)

  /**
   * `struct Surface` as import_graph fills it: the shape and material it names
   * (NULL while not found) and its two matrices (zero, as calloc left them, when
   * the surface was given up on).
   */
  datatype Surface = Surface(shape: Option<nat>, material: Option<nat>, modelToWorld: Mat4, worldToModel: Mat4)

  function Zero(): Mat4
  {
    seq(16, _ => 0.0)
  }

  /** Every Scale node scales by non-zero factors, so that 1/v is a real number. */
  predicate Scalable(node: Node)
  {
    match node
    case TransformNode(t, children) =>
      (t.Scale? ==> t.v.x != 0.0 && t.v.y != 0.0 && t.v.z != 0.0) &&
      forall k | 0 <= k < |children| :: Scalable(children[k])
    case _ => true
  }

  /** The matrix a transform node multiplies in. */
  function Forward(t: Transform): Mat4
  {
    match t
    case Rotate(r, _) => r
    case Translate(v) => Translation(v.x, v.y, v.z)
    case Scale(v) => Scaling(v.x, v.y, v.z)
  }

  /** The matrix the node undoes it with: the negated rotation, -v, or 1/v. */
  function Backward(t: Transform): Mat4
    requires t.Scale? ==> t.v.x != 0.0 && t.v.y != 0.0 && t.v.z != 0.0
  {
    match t
    case Rotate(_, u) => u
    case Translate(v) => Translation(-v.x, -v.y, -v.z)
    case Scale(v) => Scaling(1.0 / v.x, 1.0 / v.y, 1.0 / v.z)
  }

  /** The index of the last name equal to `name`: the lookup loops have no break. */
  function LastNamed(names: seq<string>, name: string): (r: Option<nat>)
    ensures r.Some? ==> r.value < |names| && names[r.value] == name
    ensures r.Some? ==> forall k | r.value < k < |names| :: names[k] != name
    ensures r.None? ==> name !in names
  {
    if names == [] then None
    else if names[|names| - 1] == name then Some(|names| - 1)
    else LastNamed(names[..|names| - 1], name)
  }

  /**
   * What importing `node` does when the stack's top pair is `top` and the surface
   * list is `list`: whether it succeeds and the list it leaves.
   */
  function Walk(shapes: seq<string>, materials: seq<string>, node: Node, top: (Mat4, Mat4), list: seq<Surface>): (r: (bool, seq<Surface>))
    requires Scalable(node)
    ensures Extends(r.1, list)
    decreases node, 1
  {
    match node
    case ShapeNode(geometry, hasTexture, material) =>
      var shape := LastNamed(shapes, geometry);
      if shape.None? then (false, [Surface(None, None, Zero(), Zero())] + list)
      else if hasTexture then (false, [Surface(shape, None, Zero(), Zero())] + list)
      else
        var mat := LastNamed(materials, material);
        if mat.None? then (false, [Surface(shape, None, Zero(), Zero())] + list)
        else (true, [Surface(shape, mat, top.0, top.1)] + list)
    case TransformNode(t, children) =>
      WalkChildren(shapes, materials, children, 0, (Product(top.0, Forward(t)), Product(Backward(t), top.1)), list)
    case OtherNode(_) => (false, list)
  }

  /** The children from index k on, in order, stopping at the first failure. */
  function WalkChildren(shapes: seq<string>, materials: seq<string>, children: seq<Node>, k: nat, top: (Mat4, Mat4), list: seq<Surface>): (r: (bool, seq<Surface>))
    requires k <= |children| && forall j | 0 <= j < |children| :: Scalable(children[j])
    ensures Extends(r.1, list)
    decreases children, |children| - k
  {
    if k == |children| then (true, list)
    else
      var r := Walk(shapes, materials, children[k], top, list);
      if !r.0 then r
      else
        var r' := WalkChildren(shapes, materials, children, k + 1, top, r.1);
        ExtendsExtends(r'.1, r.1, list);
        r'
  }

  /** The surfaces of `list` are still at the end of `longer`: importing only prepends. */
  predicate Extends(longer: seq<Surface>, list: seq<Surface>)
  {
    |list| <= |longer| && longer[|longer| - |list|..] == list
  }

  lemma ExtendsExtends(a: seq<Surface>, b: seq<Surface>, c: seq<Surface>)
    requires Extends(a, b) && Extends(b, c)
    ensures Extends(a, c)
  {
    assert a[|a| - |c|..] == a[|a| - |b|..][|b| - |c|..];
  }

  /** The bottom row of the matrix is (0, 0, 0, 1): it maps points to points. */
  predicate Affine(m: Mat4)
  {
    At(m, 3, 0) == 0.0 && At(m, 3, 1) == 0.0 && At(m, 3, 2) == 0.0 && At(m, 3, 3) == 1.0
  }

  /** A transform whose two matrices undo each other and map points to points. */
  predicate Invertible(t: Transform)
  {
    (t.Scale? ==> t.v.x != 0.0 && t.v.y != 0.0 && t.v.z != 0.0) &&
    Product(Forward(t), Backward(t)) == Identity() && Affine(Forward(t))
  }

  /** Every transform of the graph is invertible; for Rotate this is what mat4_rotate provides. */
  predicate WellFormed(node: Node)
  {
    match node
    case TransformNode(t, children) =>
      Invertible(t) && forall k | 0 <= k < |children| :: WellFormed(children[k])
    case _ => true
  }

  lemma WellFormedScalable(node: Node)
    requires WellFormed(node)
    ensures Scalable(node)
  {
    match node
    case TransformNode(t, children) =>
      forall k | 0 <= k < |children| ensures Scalable(children[k]) {
        WellFormedScalable(children[k]);
      }
    case _ =>
  }

  /** Translations and scalings undo each other: the pairs Translate and Scale build are invertible. */
  lemma BuiltPairsInvertible(t: Transform)
    requires !t.Rotate? && (t.Scale? ==> t.v.x != 0.0 && t.v.y != 0.0 && t.v.z != 0.0)
    ensures Invertible(t)
  {
    match t
    case Translate(v) => TranslationInverse(v.x, v.y, v.z);
    case Scale(v) => ScalingInverse(v.x, v.y, v.z);
  }

  lemma AffineProduct(a: Mat4, b: Mat4)
    requires Affine(a) && Affine(b)
    ensures Affine(Product(a, b))
  {
  }

  /** A surface that was completed holds a matrix pair that undo each other, the first affine. */
  predicate Consistent(s: Surface)
  {
    s.material.Some? ==> Product(s.modelToWorld, s.worldToModel) == Identity() && Affine(s.modelToWorld)
  }

  predicate AllConsistent(surfaces: seq<Surface>)
  {
    forall k | 0 <= k < |surfaces| :: Consistent(surfaces[k])
  }

  predicate ConsistentTop(top: (Mat4, Mat4))
  {
    Product(top.0, top.1) == Identity() && Affine(top.0)
  }

  /** matrix * M and M^-1 * inverse still undo each other: (A M)(M^-1 B) = A (M M^-1) B = A B. */
  lemma ComposeKeepsInverse(a: Mat4, b: Mat4, m: Mat4, mInv: Mat4)
    requires Product(a, b) == Identity() && Product(m, mInv) == Identity()
    ensures Product(Product(a, m), Product(mInv, b)) == Identity()
  {
    Associative(a, m, Product(mInv, b));
    Associative(m, mInv, b);
    IdentityLeft(b);
  }

  /**
   * Walking a well-formed graph from a top pair that undo each other adds only
   * surfaces whose matrices undo each other.
   */
  lemma {:induction false} WalkConsistent(shapes: seq<string>, materials: seq<string>, node: Node, top: (Mat4, Mat4), list: seq<Surface>)
    requires WellFormed(node) && Scalable(node) && ConsistentTop(top)
    requires AllConsistent(list)
    ensures AllConsistent(Walk(shapes, materials, node, top, list).1)
    decreases node, 1
  {
    match node
    case ShapeNode(_, _, _) =>
      var r := Walk(shapes, materials, node, top, list).1;
      assert forall j | 1 <= j < |r| :: r[j] == list[j - 1];
    case TransformNode(t, children) =>
      var top' := (Product(top.0, Forward(t)), Product(Backward(t), top.1));
      DescendConsistent(top, t);
      WalkChildrenConsistent(shapes, materials, children, 0, top', list);
    case OtherNode(_) =>
  }

  /** The pair handed to the children of a transform node still undo each other. */
  lemma DescendConsistent(top: (Mat4, Mat4), t: Transform)
    requires ConsistentTop(top) && Invertible(t)
    ensures ConsistentTop((Product(top.0, Forward(t)), Product(Backward(t), top.1)))
  {
    ComposeKeepsInverse(top.0, top.1, Forward(t), Backward(t));
    AffineProduct(top.0, Forward(t));
  }

  lemma {:induction false} WalkChildrenConsistent(shapes: seq<string>, materials: seq<string>, children: seq<Node>, k: nat, top: (Mat4, Mat4), list: seq<Surface>)
    requires k <= |children| && forall j | 0 <= j < |children| :: WellFormed(children[j]) && Scalable(children[j])
    requires ConsistentTop(top)
    requires AllConsistent(list)
    ensures AllConsistent(WalkChildren(shapes, materials, children, k, top, list).1)
    decreases children, |children| - k
  {
    if k < |children| {
      var r := Walk(shapes, materials, children[k], top, list);
      WalkConsistent(shapes, materials, children[k], top, list);
      if r.0 {
        WalkChildrenConsistent(shapes, materials, children, k + 1, top, r.1);
      }
    }
  }

  /** The head of the surface list; `Surface **root` of the source. */
  class SurfaceList {
    var surfaces: seq<Surface>

    constructor ()
      ensures surfaces == []
    {
      surfaces := [];
    }
  }

  /** The lookup loops of the Shape branch: strcmp against every name, keeping the last match. */
  method FindNamed(names: seq<string>, name: string) returns (found: Option<nat>)
    ensures found == LastNamed(names, name)
  {
    found := None;
    for i := 0 to |names|
      invariant found == LastNamed(names[..i], name)
    {
      StrCmpZero(names[i], name);
      assert names[..i + 1][..i] == names[..i];
      if StrCmp(names[i], name) == 0 {
        found := Some(i);
      }
    }
    assert names[..|names|] == names;
  }

  /**
   * import_graph. On success the stack is as it was; on failure the walk stops
   * at once and the entries pushed on the way down stay on the stack, as in the
   * source.
   */
  method ImportGraph(shapes: seq<string>, materials: seq<string>, root: SurfaceList, node: Node, stack: MatrixStack) returns (ok: bool)
    requires stack.Valid() && stack.frames != [] && Scalable(node)
    requires root !in stack.Repr
    modifies root, stack, stack.Repr
    ensures stack.Valid() && fresh(stack.Repr - old(stack.Repr)) && root !in stack.Repr
    ensures (ok, root.surfaces) == Walk(shapes, materials, node, old(stack.Contents()[0]), old(root.surfaces))
    ensures ok ==> stack.Contents() == old(stack.Contents())
    ensures |stack.frames| >= |old(stack.frames)|
    decreases node, 1
  {
    match node
    case ShapeNode(geometry, hasTexture, material) =>
      var shape := FindNamed(shapes, geometry);
      if shape == None {
        root.surfaces := [Surface(None, None, Zero(), Zero())] + root.surfaces;
        return false;
      }
      if hasTexture {
        root.surfaces := [Surface(shape, None, Zero(), Zero())] + root.surfaces;
        return false;
      }
      var mat := FindNamed(materials, material);
      if mat == None {
        root.surfaces := [Surface(shape, None, Zero(), Zero())] + root.surfaces;
        return false;
      }
      var top := stack.frames[0];
      root.surfaces := [Surface(shape, mat, top.matrix[..], top.inverse[..])] + root.surfaces;
      return true;
    case TransformNode(t, children) =>
      ok := ImportTransform(shapes, materials, root, t, children, stack);
    case OtherNode(_) =>
      return false;
  }

  /** The transform branch: push, compose, import the children, pop. */
  method ImportTransform(shapes: seq<string>, materials: seq<string>, root: SurfaceList, t: Transform, children: seq<Node>, stack: MatrixStack) returns (ok: bool)
    requires stack.Valid() && stack.frames != [] && Scalable(TransformNode(t, children))
    requires root !in stack.Repr
    modifies root, stack, stack.Repr
    ensures stack.Valid() && fresh(stack.Repr - old(stack.Repr)) && root !in stack.Repr
    ensures (ok, root.surfaces) == Walk(shapes, materials, TransformNode(t, children), old(stack.Contents()[0]), old(root.surfaces))
    ensures ok ==> stack.Contents() == old(stack.Contents())
    ensures |stack.frames| >= |old(stack.frames)|
    decreases TransformNode(t, children), 0
  {
    ghost var before := stack.Contents();
    ghost var top' := (Product(before[0].0, Forward(t)), Product(Backward(t), before[0].1));
    PushComposed(stack, t);
    ok := ImportChildren(shapes, materials, root, children, top', stack);
    if ok {
      ghost var pushed := stack.Contents();
      stack.Pop();
      assert stack.Contents() == pushed[1..];
      assert pushed[1..] == before;
    }
  }

  /** matstack_push, then matrix := matrix * M and inverse := M^-1 * inverse on the new top. */
  method PushComposed(stack: MatrixStack, t: Transform)
    requires stack.Valid() && stack.frames != []
    requires t.Scale? ==> t.v.x != 0.0 && t.v.y != 0.0 && t.v.z != 0.0
    modifies stack, stack.Repr
    ensures stack.Valid() && fresh(stack.Repr - old(stack.Repr))
    ensures stack.Contents() == [(Product(old(stack.Contents())[0].0, Forward(t)), Product(Backward(t), old(stack.Contents())[0].1))] + old(stack.Contents())
  {
    var mat, inv := TransformPair(t);
    stack.Push();
    Compose(stack, mat, inv);
  }

  /** The loop over the children: the first failure ends the walk. */
  method ImportChildren(shapes: seq<string>, materials: seq<string>, root: SurfaceList, children: seq<Node>,
                        ghost top: (Mat4, Mat4), stack: MatrixStack) returns (ok: bool)
    requires forall j | 0 <= j < |children| :: Scalable(children[j])
    requires stack.Valid() && stack.frames != [] && root !in stack.Repr && stack.Contents()[0] == top
    modifies root, stack, stack.Repr
    ensures stack.Valid() && fresh(stack.Repr - old(stack.Repr)) && root !in stack.Repr
    ensures ok ==> stack.Contents() == old(stack.Contents())
    ensures |stack.frames| >= |old(stack.frames)|
    ensures (ok, root.surfaces) == WalkChildren(shapes, materials, children, 0, top, old(root.surfaces))
    decreases children, 3
  {
    ghost var entries := stack.Contents();
    var k := 0;
    while k < |children|
      invariant 0 <= k <= |children|
      invariant stack.Valid() && fresh(stack.Repr - old(stack.Repr)) && root !in stack.Repr
      invariant stack.Contents() == entries
      invariant WalkChildren(shapes, materials, children, 0, top, old(root.surfaces)) ==
                WalkChildren(shapes, materials, children, k, top, root.surfaces)
    {
      ok := ImportChild(shapes, materials, root, children, k, top, stack);
      if !ok {
        return false;
      }
      k := k + 1;
    }
    return true;
  }

  /** One child of a transform node, imported under the composed top pair. */
  method ImportChild(shapes: seq<string>, materials: seq<string>, root: SurfaceList, children: seq<Node>, k: nat,
                     ghost top: (Mat4, Mat4), stack: MatrixStack) returns (ok: bool)
    requires k < |children| && forall j | 0 <= j < |children| :: Scalable(children[j])
    requires stack.Valid() && stack.frames != [] && root !in stack.Repr && stack.Contents()[0] == top
    modifies root, stack, stack.Repr
    ensures stack.Valid() && fresh(stack.Repr - old(stack.Repr)) && root !in stack.Repr
    ensures ok ==> stack.Contents() == old(stack.Contents())
    ensures |stack.frames| >= |old(stack.frames)|
    ensures WalkChildren(shapes, materials, children, k, top, old(root.surfaces)) ==
            if ok then WalkChildren(shapes, materials, children, k + 1, top, root.surfaces) else (false, root.surfaces)
    decreases children[k], 2
  {
    ok := ImportGraph(shapes, materials, root, children[k], stack);
  }

  /** The node's matrix and its inverse, in two fresh arrays. */
  method TransformPair(t: Transform) returns (mat: array<real>, inv: array<real>)
    requires t.Scale? ==> t.v.x != 0.0 && t.v.y != 0.0 && t.v.z != 0.0
    ensures fresh(mat) && fresh(inv) && mat.Length == 16 && inv.Length == 16
    ensures mat[..] == Forward(t) && inv[..] == Backward(t)
  {
    mat := new real[16];
    inv := new real[16];
    match t
    case Rotate(r, u) =>
      forall k | 0 <= k < 16 {
        mat[k] := r[k];
      }
      forall k | 0 <= k < 16 {
        inv[k] := u[k];
      }
      assert mat[..] == r && inv[..] == u;
    case Translate(v) =>
      MatrixOps.LoadTranslate(mat, v.x, v.y, v.z);
      MatrixOps.LoadTranslate(inv, -v.x, -v.y, -v.z);
    case Scale(v) =>
      MatrixOps.LoadScale(mat, v.x, v.y, v.z);
      MatrixOps.LoadScale(inv, 1.0 / v.x, 1.0 / v.y, 1.0 / v.z);
  }

  /** mat4_rmul(top->matrix, mat) and mat4_lmul(inv, top->inverse). */
  method Compose(stack: MatrixStack, mat: array<real>, inv: array<real>)
    requires stack.Valid() && stack.frames != []
    requires mat.Length == 16 && inv.Length == 16 && mat !in stack.Repr && inv !in stack.Repr
    modifies stack.frames[0].matrix, stack.frames[0].inverse
    ensures stack.Valid()
    ensures stack.Contents() == [(Product(old(stack.Contents()[0].0), mat[..]), Product(inv[..], old(stack.Contents()[0].1)))] + old(stack.Contents()[1..])
  {
    var top := stack.frames[0];
    ghost var rest := stack.frames[1..];
    ghost var below := Entries(rest);
    MatrixOps.Rmul(top.matrix, mat);
    MatrixOps.Lmul(inv, top.inverse);
    assert stack.frames == [top] + rest;
    assert Entries(rest) == below;
  }
}
