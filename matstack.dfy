/**
 * The transformation stack of matrix.c. A `MatrixStack` points at the top of a
 * singly linked list of `Matrix` entries, each holding a model-to-world matrix and
 * its inverse; here the list is the sequence `frames`, top first, and each entry's
 * `next` link is its successor in that sequence.
 */
module MatrixStacks {
  import opened Matrices
  import MatrixOps

  /** One entry of the stack: the two matrices of `struct Matrix`. */
  class Frame {
    const matrix: array<real>
    const inverse: array<real>

    constructor ()
      ensures fresh(matrix) && fresh(inverse)
      ensures matrix.Length == 16 && inverse.Length == 16 && matrix != inverse
    {
      matrix := new real[16];
      inverse := new real[16];
    }
  }

  predicate Sized(frames: seq<Frame>)
  {
    forall k | 0 <= k < |frames| :: frames[k].matrix.Length == 16 && frames[k].inverse.Length == 16
  }

  /** The entries of each frame, top first, as (matrix, inverse) pairs. */
  ghost function Entries(frames: seq<Frame>): (entries: seq<(Mat4, Mat4)>)
    requires Sized(frames)
    reads set k | 0 <= k < |frames| :: frames[k].matrix
    reads set k | 0 <= k < |frames| :: frames[k].inverse
    ensures |entries| == |frames|
  {
    if frames == [] then []
    else [(frames[0].matrix[..], frames[0].inverse[..])] + Entries(frames[1..])
  }

  class MatrixStack {
    var frames: seq<Frame>
    ghost var Repr: set<object>

    /** Every array belongs to exactly one frame and to no other role in it. */
    ghost predicate Valid()
      reads this, Repr
    {
      this in Repr &&
      Sized(frames) &&
      (forall k | 0 <= k < |frames| ::
         frames[k].matrix in Repr && frames[k].inverse in Repr && frames[k].matrix != frames[k].inverse) &&
      (forall k, l | 0 <= k < l < |frames| ::
         frames[k].matrix != frames[l].matrix && frames[k].matrix != frames[l].inverse &&
         frames[k].inverse != frames[l].matrix && frames[k].inverse != frames[l].inverse)
    }

    /** The (matrix, inverse) pairs on the stack, top first. */
    ghost function Contents(): (entries: seq<(Mat4, Mat4)>)
      requires Valid()
      reads this, Repr
      ensures |entries| == |frames|
    {
      Entries(frames)
    }

    /** matstack_new: an empty stack. */
    constructor ()
      ensures Valid() && fresh(Repr)
      ensures Contents() == []
    {
      frames := [];
      Repr := {this};
    }

    /**
     * matstack_push: a new top that starts as a copy of the old top, or as the
     * identity (for both matrices) on an empty stack.
     */
    method Push()
      requires Valid()
      modifies this
      ensures Valid() && fresh(Repr - old(Repr))
      ensures |frames| == |old(frames)| + 1 && frames[1..] == old(frames)
      ensures Contents() == [if old(frames) == [] then (Identity(), Identity()) else old(Contents())[0]] + old(Contents())
    {
      ghost var below := Contents();
      var top := new Frame();
      frames := [top] + frames;
      Repr := Repr + {top.matrix, top.inverse};
      if |frames| == 1 {
        MatrixOps.LoadIdentity(top.matrix);
        MatrixOps.LoadIdentity(top.inverse);
      } else {
        MatrixOps.Copy(top.matrix, frames[1].matrix);
        MatrixOps.Copy(top.inverse, frames[1].inverse);
      }
      assert frames[1..] == old(frames);
      assert Entries(frames[1..]) == below;
    }

    /** matstack_pop: drop the top entry; the source requires a non-empty stack. */
    method Pop()
      requires Valid() && frames != []
      modifies this
      ensures Valid() && Repr == old(Repr)
      ensures frames == old(frames)[1..]
      ensures Contents() == old(Contents())[1..]
    {
      frames := frames[1..];
    }

    /** matstack_destroy: pop until empty. */
    method Destroy()
      requires Valid()
      modifies this
      ensures Valid() && Repr == old(Repr)
      ensures Contents() == []
    {
      while frames != []
        invariant Valid() && Repr == old(Repr)
        decreases |frames|
      {
        Pop();
      }
    }
  }
}
