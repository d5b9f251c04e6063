/**
 * The in-place matrix routines of matrix.c, over arrays of 16 reals laid out
 * column-major as `Matrices.At` describes. Each is proved to leave in its target
 * exactly the matrix the algebra of `Matrices` prescribes.
 */
module MatrixOps {
  import opened Matrices

  /** mat4_copy: a 16-entry memcpy. */
  method Copy(dst: array<real>, src: array<real>)
    requires dst.Length == 16 && src.Length == 16
    modifies dst
    ensures dst[..] == old(src[..])
  {
    forall k | 0 <= k < 16 {
      dst[k] := src[k];
    }
  }

  /**
   * mat4_mult: c := a * b. Row i of `a` is read into locals before row i of `c`
   * is written, so `c` may be the same array as `a`; it may not be `b`.
   */
  method Mult(c: array<real>, a: array<real>, b: array<real>)
    requires a.Length == 16 && b.Length == 16 && c.Length == 16
    requires c != b
    modifies c
    ensures c[..] == Product(old(a[..]), old(b[..]))
  {
    ghost var oa: Mat4, ob: Mat4 := a[..], b[..];
    for i := 0 to 4
      invariant b[..] == ob
      invariant forall r, j | i <= r < 4 && 0 <= j < 4 :: a[4 * j + r] == At(oa, r, j)
      invariant forall r, j | 0 <= r < i && 0 <= j < 4 :: c[4 * j + r] == RowCol(oa, ob, r, j)
    {
      var a0, a1, a2, a3 := a[i], a[4 + i], a[8 + i], a[12 + i];
      assert a0 == At(oa, i, 0) && a1 == At(oa, i, 1) && a2 == At(oa, i, 2) && a3 == At(oa, i, 3);
      for j := 0 to 4
        invariant b[..] == ob
        invariant forall r, j' | i < r < 4 && 0 <= j' < 4 :: a[4 * j' + r] == At(oa, r, j')
        invariant forall r, j' | 0 <= r < i && 0 <= j' < 4 :: c[4 * j' + r] == RowCol(oa, ob, r, j')
        invariant forall j' | 0 <= j' < j :: c[4 * j' + i] == RowCol(oa, ob, i, j')
      {
        c[4 * j + i] := Dot(a0, a1, a2, a3, b[4 * j], b[4 * j + 1], b[4 * j + 2], b[4 * j + 3]);
      }
    }
    Extensionality(c[..], Product(oa, ob));
  }

  /** mat4_rmul: a := a * b, caching row i of `a` while row i is rewritten. */
  method Rmul(a: array<real>, b: array<real>)
    requires a.Length == 16 && b.Length == 16
    requires a != b
    modifies a
    ensures a[..] == Product(old(a[..]), b[..])
  {
    ghost var oa: Mat4, ob: Mat4 := a[..], b[..];
    for i := 0 to 4
      invariant b[..] == ob
      invariant forall r, j | i <= r < 4 && 0 <= j < 4 :: a[4 * j + r] == At(oa, r, j)
      invariant forall r, j | 0 <= r < i && 0 <= j < 4 :: a[4 * j + r] == RowCol(oa, ob, r, j)
    {
      var a0, a1, a2, a3 := a[i], a[4 + i], a[8 + i], a[12 + i];
      assert a0 == At(oa, i, 0) && a1 == At(oa, i, 1) && a2 == At(oa, i, 2) && a3 == At(oa, i, 3);
      for j := 0 to 4
        invariant b[..] == ob
        invariant forall r, j' | i < r < 4 && 0 <= j' < 4 :: a[4 * j' + r] == At(oa, r, j')
        invariant forall r, j' | 0 <= r < i && 0 <= j' < 4 :: a[4 * j' + r] == RowCol(oa, ob, r, j')
        invariant forall j' | 0 <= j' < j :: a[4 * j' + i] == RowCol(oa, ob, i, j')
      {
        a[4 * j + i] := Dot(a0, a1, a2, a3, b[4 * j], b[4 * j + 1], b[4 * j + 2], b[4 * j + 3]);
      }
    }
    Extensionality(a[..], Product(oa, ob));
  }

  /** mat4_lmul: a := b * a, caching column j of `a` while column j is rewritten. */
  method Lmul(b: array<real>, a: array<real>)
    requires a.Length == 16 && b.Length == 16
    requires a != b
    modifies a
    ensures a[..] == Product(b[..], old(a[..]))
  {
    ghost var oa: Mat4, ob: Mat4 := a[..], b[..];
    for j := 0 to 4
      invariant b[..] == ob
      invariant forall k | 4 * j <= k < 16 :: a[k] == oa[k]
      invariant forall i, c | 0 <= i < 4 && 0 <= c < j :: a[4 * c + i] == RowCol(ob, oa, i, c)
    {
      var a0, a1, a2, a3 := a[4 * j], a[4 * j + 1], a[4 * j + 2], a[4 * j + 3];
      for i := 0 to 4
        invariant b[..] == ob
        invariant forall k | 4 * j + i <= k < 16 :: a[k] == oa[k]
        invariant forall i', c | 0 <= i' < 4 && 0 <= c < j :: a[4 * c + i'] == RowCol(ob, oa, i', c)
        invariant forall i' | 0 <= i' < i :: a[4 * j + i'] == RowCol(ob, oa, i', j)
      {
        a[4 * j + i] := Dot(b[i], b[4 + i], b[8 + i], b[12 + i], a0, a1, a2, a3);
      }
    }
    Extensionality(a[..], Product(ob, oa));
  }

  /** mat4_identity: sixteen independent constant stores, written as one forall statement. */
  method LoadIdentity(m: array<real>)
    requires m.Length == 16
    modifies m
    ensures m[..] == Identity()
  {
    forall k | 0 <= k < 16 {
      m[k] := if k % 5 == 0 then 1.0 else 0.0;
    }
    assert m[..] == [1.0, 0.0, 0.0, 0.0, 0.0, 1.0, 0.0, 0.0, 0.0, 0.0, 1.0, 0.0, 0.0, 0.0, 0.0, 1.0];
  }

  /** mat4_scale: the diagonal gets x, y, z and 1, every other entry 0. */
  method LoadScale(m: array<real>, x: real, y: real, z: real)
    requires m.Length == 16
    modifies m
    ensures m[..] == Scaling(x, y, z)
  {
    forall k | 0 <= k < 16 {
      m[k] := if k == 0 then x else if k == 5 then y else if k == 10 then z else if k == 15 then 1.0 else 0.0;
    }
    assert m[..] == [x, 0.0, 0.0, 0.0, 0.0, y, 0.0, 0.0, 0.0, 0.0, z, 0.0, 0.0, 0.0, 0.0, 1.0];
  }

  /**
   * mat4_translate: the identity with (x, y, z) in the last column;
   * mat4_translate_vector passes the components of a vector.
   */
  method LoadTranslate(m: array<real>, x: real, y: real, z: real)
    requires m.Length == 16
    modifies m
    ensures m[..] == Translation(x, y, z)
  {
    forall k | 0 <= k < 16 {
      m[k] := if k == 12 then x else if k == 13 then y else if k == 14 then z else if k % 5 == 0 then 1.0 else 0.0;
    }
    assert m[..] == [1.0, 0.0, 0.0, 0.0, 0.0, 1.0, 0.0, 0.0, 0.0, 0.0, 1.0, 0.0, x, y, z, 1.0];
  }
}
