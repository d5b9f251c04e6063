/**
 * The OpenGL-style matrix stack of glm.c. A stack is the caller's `Matrix *`
 * variable pointing at the top of a linked list of 16-entry matrices (glm.h); here
 * `GlmStack.nodes` is that list, top first. The operations on one entry take the
 * entry itself, as the source's `Matrix *` parameters do.
 */
module Glm {
  import opened Matrices
  import MatrixOps

  /** `struct Matrix` of glm.h without its `next` link. */
  class GlmMatrix {
    const m: array<real>

    constructor ()
      ensures fresh(m) && m.Length == 16
    {
      m := new real[16];
    }
  }

  class GlmStack {
    var nodes: seq<GlmMatrix>
    ghost var Repr: set<object>

    ghost predicate Valid()
      reads this, Repr
    {
      this in Repr &&
      (forall k | 0 <= k < |nodes| :: nodes[k].m in Repr && nodes[k].m.Length == 16) &&
      (forall k, l | 0 <= k < l < |nodes| :: nodes[k].m != nodes[l].m)
    }

    /** The matrices on the stack, top first. */
    ghost function Contents(): (ms: seq<Mat4>)
      requires Valid()
      reads this, Repr
      ensures |ms| == |nodes|
    {
      MatricesOf(nodes)
    }

    /** An empty stack: a `Matrix *` holding NULL. */
    constructor ()
      ensures Valid() && fresh(Repr)
      ensures Contents() == []
    {
      nodes := [];
      Repr := {this};
    }

    /**
     * glmPushMatrix. `mallocOk` is whether malloc succeeded; when it did not,
     * nothing changes. A new entry copies the old top; on an empty stack its
     * entries are left as they are.
     */
    method Push(mallocOk: bool)
      requires Valid()
      modifies this
      ensures Valid() && fresh(Repr - old(Repr))
      ensures !mallocOk ==> nodes == old(nodes) && Contents() == old(Contents())
      ensures mallocOk ==> |nodes| == |old(nodes)| + 1 && nodes[1..] == old(nodes)
      ensures mallocOk ==> Contents()[1..] == old(Contents())
      ensures mallocOk && old(nodes) != [] ==> Contents()[0] == old(Contents())[0]
    {
      if !mallocOk {
        return;
      }
      ghost var below := Contents();
      var top := new GlmMatrix();
      if nodes != [] {
        MatrixOps.Copy(top.m, nodes[0].m);
      }
      nodes := [top] + nodes;
      Repr := Repr + {top.m};
      assert nodes[1..] == old(nodes);
      assert MatricesOf(nodes[1..]) == below;
    }

    /** glmPopMatrix: the source dereferences the top, so the stack must not be empty. */
    method Pop()
      requires Valid() && nodes != []
      modifies this
      ensures Valid() && Repr == old(Repr)
      ensures nodes == old(nodes)[1..]
      ensures Contents() == old(Contents())[1..]
    {
      nodes := nodes[1..];
    }

    /** glmFreeMatrixStack: pop until the list is empty. */
    method Free()
      requires Valid()
      modifies this
      ensures Valid() && Repr == old(Repr)
      ensures Contents() == []
    {
      while nodes != []
        invariant Valid() && Repr == old(Repr)
        decreases |nodes|
      {
        Pop();
      }
    }
  }

  predicate Sized(nodes: seq<GlmMatrix>)
  {
    forall k | 0 <= k < |nodes| :: nodes[k].m.Length == 16
  }

  ghost function MatricesOf(nodes: seq<GlmMatrix>): (ms: seq<Mat4>)
    requires Sized(nodes)
    reads set k | 0 <= k < |nodes| :: nodes[k].m
    ensures |ms| == |nodes|
  {
    if nodes == [] then [] else [nodes[0].m[..]] + MatricesOf(nodes[1..])
  }

  /** glmNewMatrixStack: one entry holding the identity (allocation is taken to succeed). */
  method NewMatrixStack() returns (stack: GlmStack)
    ensures stack.Valid() && fresh(stack.Repr)
    ensures stack.Contents() == [Identity()]
  {
    stack := new GlmStack();
    stack.Push(true);
    LoadIdentity(stack.nodes[0]);
  }

  /** glmLoadIdentity: clear all 16 entries, then set the diagonal to 1. */
  method LoadIdentity(mat: GlmMatrix)
    requires mat.m.Length == 16
    modifies mat.m
    ensures mat.m[..] == Identity()
  {
    var m := mat.m;
    forall k | 0 <= k < 16 {
      m[k] := 0.0;
    }
    m[0] := 1.0;
    m[5] := 1.0;
    m[10] := 1.0;
    m[15] := 1.0;
    assert m[0] == 1.0 && m[1] == 0.0 && m[2] == 0.0 && m[3] == 0.0;
    assert m[4] == 0.0 && m[5] == 1.0 && m[6] == 0.0 && m[7] == 0.0;
    assert m[8] == 0.0 && m[9] == 0.0 && m[10] == 1.0 && m[11] == 0.0;
    assert m[12] == 0.0 && m[13] == 0.0 && m[14] == 0.0 && m[15] == 1.0;
  }

  /** glmLoadMatrix: copy 16 caller entries into the matrix. */
  method LoadMatrix(mat: GlmMatrix, source: array<real>)
    requires mat.m.Length == 16 && source.Length == 16
    modifies mat.m
    ensures mat.m[..] == old(source[..])
  {
    MatrixOps.Copy(mat.m, source);
  }

  /** glmSaveMatrix: copy the matrix out into 16 caller entries. */
  method SaveMatrix(mat: GlmMatrix, target: array<real>)
    requires mat.m.Length == 16 && target.Length == 16
    modifies target
    ensures target[..] == old(mat.m[..])
  {
    MatrixOps.Copy(target, mat.m);
  }

  /**
   * glmMultMatrix: m := m * b through matrix_mul_matrix(m, m, b), whose loop is
   * that of mat4_mult and is safe because the product's first operand may alias it.
   */
  method MultMatrix(mat: GlmMatrix, b: array<real>)
    requires mat.m.Length == 16 && b.Length == 16 && mat.m != b
    modifies mat.m
    ensures mat.m[..] == Product(old(mat.m[..]), b[..])
  {
    MatrixOps.Mult(mat.m, mat.m, b);
  }

  /** glmScale: scale the first three columns, which is m := m * diag(x, y, z, 1). */
  method Scale(mat: GlmMatrix, x: real, y: real, z: real)
    requires mat.m.Length == 16
    modifies mat.m
    ensures mat.m[..] == Product(old(mat.m[..]), Scaling(x, y, z))
  {
    var m := mat.m;
    ghost var before: Mat4 := m[..];
    m[0] := m[0] * x; m[4] := m[4] * y; m[8] := m[8] * z;
    m[1] := m[1] * x; m[5] := m[5] * y; m[9] := m[9] * z;
    m[2] := m[2] * x; m[6] := m[6] * y; m[10] := m[10] * z;
    m[3] := m[3] * x; m[7] := m[7] * y; m[11] := m[11] * z;
    ghost var after := m[..];
    assert after[0] == before[0] * x && after[1] == before[1] * x && after[2] == before[2] * x && after[3] == before[3] * x;
    assert after[4] == before[4] * y && after[5] == before[5] * y && after[6] == before[6] * y && after[7] == before[7] * y;
    assert after[8] == before[8] * z && after[9] == before[9] * z && after[10] == before[10] * z && after[11] == before[11] * z;
    assert after[12] == before[12] && after[13] == before[13] && after[14] == before[14] && after[15] == before[15];
    ScalingOnRight(before, x, y, z, after);
  }

  /** glmTranslate: the last column becomes m * (tx, ty, tz, 1), which is m := m * translate(tx, ty, tz). */
  method Translate(mat: GlmMatrix, tx: real, ty: real, tz: real)
    requires mat.m.Length == 16
    modifies mat.m
    ensures mat.m[..] == Product(old(mat.m[..]), Translation(tx, ty, tz))
  {
    var m := mat.m;
    ghost var before: Mat4 := m[..];
    m[12] := m[0] * tx + m[4] * ty + m[8] * tz + m[12];
    m[13] := m[1] * tx + m[5] * ty + m[9] * tz + m[13];
    m[14] := m[2] * tx + m[6] * ty + m[10] * tz + m[14];
    m[15] := m[3] * tx + m[7] * ty + m[11] * tz + m[15];
    assert m[..] == [before[0], before[1], before[2], before[3], before[4], before[5], before[6], before[7], before[8], before[9], before[10], before[11], before[0] * tx + before[4] * ty + before[8] * tz + before[12], before[1] * tx + before[5] * ty + before[9] * tz + before[13], before[2] * tx + before[6] * ty + before[10] * tz + before[14], before[3] * tx + before[7] * ty + before[11] * tz + before[15]] by {
      assert m[0] == before[0] && m[1] == before[1] && m[2] == before[2] && m[3] == before[3];
      assert m[4] == before[4] && m[5] == before[5] && m[6] == before[6] && m[7] == before[7];
      assert m[8] == before[8] && m[9] == before[9] && m[10] == before[10] && m[11] == before[11];
      assert m[12] == before[0] * tx + before[4] * ty + before[8] * tz + before[12] && m[13] == before[1] * tx + before[5] * ty + before[9] * tz + before[13] && m[14] == before[2] * tx + before[6] * ty + before[10] * tz + before[14] && m[15] == before[3] * tx + before[7] * ty + before[11] * tz + before[15];
    }
    TranslationOnRight(before, tx, ty, tz, m[..]);
  }
}
