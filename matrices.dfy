/**
 * The algebra of 4x4 matrices stored column-major in 16 doubles, as in matrix.h
 * (`typedef double Mat4[16]`) and glm.h (`double m[16]`): entry (i, j), row i and
 * column j, is element 4*j + i. These functions are the specification the
 * in-place array operations of matrix.c and glm.c are proved against.
 */
module Matrices {
  import opened Geometry

  type Mat4 = m: seq<real> | |m| == 16 witness seq(16, _ => 0.0)

  datatype Vec4 = Vec4(x: real, y: real, z: real, w: real)

  /** Entry (i, j): row i, column j. */
  function At(m: Mat4, i: int, j: int): real
    requires 0 <= i < 4 && 0 <= j < 4
  {
    m[4 * j + i]
  }

  /** The sum of four products: every entry of a matrix product is one of these. */
  function Dot(a0: real, a1: real, a2: real, a3: real, b0: real, b1: real, b2: real, b3: real): real
  {
    a0 * b0 + a1 * b1 + a2 * b2 + a3 * b3
  }

  /** Row i of `a` times column j of `b`. */
  function RowCol(a: Mat4, b: Mat4, i: int, j: int): real
    requires 0 <= i < 4 && 0 <= j < 4
  {
    Dot(At(a, i, 0), At(a, i, 1), At(a, i, 2), At(a, i, 3), At(b, 0, j), At(b, 1, j), At(b, 2, j), At(b, 3, j))
  }

  /** The first n columns of a * b. */
  function ProductColumns(a: Mat4, b: Mat4, n: nat): (cols: seq<real>)
    requires n <= 4
    ensures |cols| == 4 * n
    ensures forall i, j | 0 <= i < 4 && 0 <= j < n :: cols[4 * j + i] == RowCol(a, b, i, j)
  {
    if n == 0 then []
    else
      var j := n - 1;
      ProductColumns(a, b, j) + [RowCol(a, b, 0, j), RowCol(a, b, 1, j), RowCol(a, b, 2, j), RowCol(a, b, 3, j)]
  }

  /** The matrix product a * b. */
  function Product(a: Mat4, b: Mat4): (c: Mat4)
    ensures forall i, j | 0 <= i < 4 && 0 <= j < 4 :: At(c, i, j) == RowCol(a, b, i, j)
  {
    ProductColumns(a, b, 4)
  }

  /** Two matrices are equal when all their entries are. */
  lemma Extensionality(a: Mat4, b: Mat4)
    requires forall i, j | 0 <= i < 4 && 0 <= j < 4 :: At(a, i, j) == At(b, i, j)
    ensures a == b
  {
    forall k | 0 <= k < 16 ensures a[k] == b[k] {
      assert At(a, k % 4, k / 4) == At(b, k % 4, k / 4);
    }
  }

  function Identity(): (m: Mat4)
    ensures forall i, j | 0 <= i < 4 && 0 <= j < 4 :: At(m, i, j) == if i == j then 1.0 else 0.0
  {
    [1.0, 0.0, 0.0, 0.0,
     0.0, 1.0, 0.0, 0.0,
     0.0, 0.0, 1.0, 0.0,
     0.0, 0.0, 0.0, 1.0]
  }

  /** diag(x, y, z, 1) */
  function Scaling(x: real, y: real, z: real): (m: Mat4)
    ensures forall i, j | 0 <= i < 4 && 0 <= j < 4 && i != j :: At(m, i, j) == 0.0
    ensures At(m, 0, 0) == x && At(m, 1, 1) == y && At(m, 2, 2) == z && At(m, 3, 3) == 1.0
  {
    [x,   0.0, 0.0, 0.0,
     0.0, y,   0.0, 0.0,
     0.0, 0.0, z,   0.0,
     0.0, 0.0, 0.0, 1.0]
  }

  /** The identity with (x, y, z) in the last column. */
  function Translation(x: real, y: real, z: real): (m: Mat4)
    ensures forall i, j | 0 <= i < 4 && 0 <= j < 3 :: At(m, i, j) == if i == j then 1.0 else 0.0
    ensures At(m, 0, 3) == x && At(m, 1, 3) == y && At(m, 2, 3) == z && At(m, 3, 3) == 1.0
  {
    [1.0, 0.0, 0.0, 0.0,
     0.0, 1.0, 0.0, 0.0,
     0.0, 0.0, 1.0, 0.0,
     x,   y,   z,   1.0]
  }

  lemma IdentityLeft(m: Mat4)
    ensures Product(Identity(), m) == m
  {
    Extensionality(Product(Identity(), m), m);
  }

  lemma IdentityRight(m: Mat4)
    ensures Product(m, Identity()) == m
  {
    Extensionality(Product(m, Identity()), m);
  }

  /** translate(v) * translate(-v) = I */
  lemma TranslationInverse(x: real, y: real, z: real)
    ensures Product(Translation(x, y, z), Translation(-x, -y, -z)) == Identity()
    ensures Product(Translation(-x, -y, -z), Translation(x, y, z)) == Identity()
  {
    Extensionality(Product(Translation(x, y, z), Translation(-x, -y, -z)), Identity());
    Extensionality(Product(Translation(-x, -y, -z), Translation(x, y, z)), Identity());
  }

  /** scale(x, y, z) * scale(1/x, 1/y, 1/z) = I for non-zero factors */
  lemma ScalingInverse(x: real, y: real, z: real)
    requires x != 0.0 && y != 0.0 && z != 0.0
    ensures Product(Scaling(x, y, z), Scaling(1.0 / x, 1.0 / y, 1.0 / z)) == Identity()
    ensures Product(Scaling(1.0 / x, 1.0 / y, 1.0 / z), Scaling(x, y, z)) == Identity()
  {
    Extensionality(Product(Scaling(x, y, z), Scaling(1.0 / x, 1.0 / y, 1.0 / z)), Identity());
    Extensionality(Product(Scaling(1.0 / x, 1.0 / y, 1.0 / z), Scaling(x, y, z)), Identity());
  }

  /** Right-multiplying by diag(x, y, z, 1) scales columns 0, 1 and 2 of b by x, y and z. */
  lemma ScalingOnRight(b: Mat4, x: real, y: real, z: real, scaled: seq<real>)
    requires |scaled| == 16
    requires scaled[0] == b[0] * x && scaled[1] == b[1] * x && scaled[2] == b[2] * x && scaled[3] == b[3] * x
    requires scaled[4] == b[4] * y && scaled[5] == b[5] * y && scaled[6] == b[6] * y && scaled[7] == b[7] * y
    requires scaled[8] == b[8] * z && scaled[9] == b[9] * z && scaled[10] == b[10] * z && scaled[11] == b[11] * z
    requires scaled[12] == b[12] && scaled[13] == b[13] && scaled[14] == b[14] && scaled[15] == b[15]
    ensures scaled == Product(b, Scaling(x, y, z))
  {
    var p := Product(b, Scaling(x, y, z));
    assert p[0] == At(p, 0, 0) == b[0] * x;
    assert p[1] == At(p, 1, 0) == b[1] * x;
    assert p[2] == At(p, 2, 0) == b[2] * x;
    assert p[3] == At(p, 3, 0) == b[3] * x;
    assert p[4] == At(p, 0, 1) == b[4] * y;
    assert p[5] == At(p, 1, 1) == b[5] * y;
    assert p[6] == At(p, 2, 1) == b[6] * y;
    assert p[7] == At(p, 3, 1) == b[7] * y;
    assert p[8] == At(p, 0, 2) == b[8] * z;
    assert p[9] == At(p, 1, 2) == b[9] * z;
    assert p[10] == At(p, 2, 2) == b[10] * z;
    assert p[11] == At(p, 3, 2) == b[11] * z;
    assert p[12] == At(p, 0, 3) == b[12];
    assert p[13] == At(p, 1, 3) == b[13];
    assert p[14] == At(p, 2, 3) == b[14];
    assert p[15] == At(p, 3, 3) == b[15];
    assert forall k | 0 <= k < 16 :: scaled[k] == p[k];
  }

  /**
   * Right-multiplying by translate(tx, ty, tz) keeps columns 0 to 2 of b and makes
   * column 3 the image of the point (tx, ty, tz, 1).
   */
  lemma TranslationOnRight(b: Mat4, tx: real, ty: real, tz: real, translated: seq<real>)
    requires translated == [b[0], b[1], b[2], b[3], b[4], b[5], b[6], b[7], b[8], b[9], b[10], b[11], b[0] * tx + b[4] * ty + b[8] * tz + b[12], b[1] * tx + b[5] * ty + b[9] * tz + b[13], b[2] * tx + b[6] * ty + b[10] * tz + b[14], b[3] * tx + b[7] * ty + b[11] * tz + b[15]]
    ensures translated == Product(b, Translation(tx, ty, tz))
  {
    var p := Product(b, Translation(tx, ty, tz));
    assert p[0] == At(p, 0, 0) == b[0];
    assert p[1] == At(p, 1, 0) == b[1];
    assert p[2] == At(p, 2, 0) == b[2];
    assert p[3] == At(p, 3, 0) == b[3];
    assert p[4] == At(p, 0, 1) == b[4];
    assert p[5] == At(p, 1, 1) == b[5];
    assert p[6] == At(p, 2, 1) == b[6];
    assert p[7] == At(p, 3, 1) == b[7];
    assert p[8] == At(p, 0, 2) == b[8];
    assert p[9] == At(p, 1, 2) == b[9];
    assert p[10] == At(p, 2, 2) == b[10];
    assert p[11] == At(p, 3, 2) == b[11];
    assert p[12] == At(p, 0, 3) == b[0] * tx + b[4] * ty + b[8] * tz + b[12];
    assert p[13] == At(p, 1, 3) == b[1] * tx + b[5] * ty + b[9] * tz + b[13];
    assert p[14] == At(p, 2, 3) == b[2] * tx + b[6] * ty + b[10] * tz + b[14];
    assert p[15] == At(p, 3, 3) == b[3] * tx + b[7] * ty + b[11] * tz + b[15];
  }

  /** (a . b) * c, distributed over the four products. */
  lemma DistributeRight(a0: real, a1: real, a2: real, a3: real, b0: real, b1: real, b2: real, b3: real, c: real)
    ensures Dot(a0, a1, a2, a3, b0, b1, b2, b3) * c == a0 * (b0 * c) + a1 * (b1 * c) + a2 * (b2 * c) + a3 * (b3 * c)
  {
  }

  /** a * (b . c), distributed over the four products. */
  lemma DistributeLeft(a: real, b0: real, b1: real, b2: real, b3: real, c0: real, c1: real, c2: real, c3: real)
    ensures a * Dot(b0, b1, b2, b3, c0, c1, c2, c3) == a * (b0 * c0) + a * (b1 * c1) + a * (b2 * c2) + a * (b3 * c3)
  {
  }

  /**
   * The scalar identity behind associativity: a row a times a matrix B, dotted with
   * a column c, equals a dotted with B times c; both are the sum of a_m * B_mk * c_k
   * over all m and k.
   */
  lemma RegroupSums(a0: real, a1: real, a2: real, a3: real,
                    b00: real, b01: real, b02: real, b03: real,
                    b10: real, b11: real, b12: real, b13: real,
                    b20: real, b21: real, b22: real, b23: real,
                    b30: real, b31: real, b32: real, b33: real,
                    c0: real, c1: real, c2: real, c3: real)
    ensures Dot(Dot(a0, a1, a2, a3, b00, b10, b20, b30), Dot(a0, a1, a2, a3, b01, b11, b21, b31),
                Dot(a0, a1, a2, a3, b02, b12, b22, b32), Dot(a0, a1, a2, a3, b03, b13, b23, b33),
                c0, c1, c2, c3)
         == Dot(a0, a1, a2, a3,
                Dot(b00, b01, b02, b03, c0, c1, c2, c3), Dot(b10, b11, b12, b13, c0, c1, c2, c3),
                Dot(b20, b21, b22, b23, c0, c1, c2, c3), Dot(b30, b31, b32, b33, c0, c1, c2, c3))
  {
    DistributeRight(a0, a1, a2, a3, b00, b10, b20, b30, c0);
    DistributeRight(a0, a1, a2, a3, b01, b11, b21, b31, c1);
    DistributeRight(a0, a1, a2, a3, b02, b12, b22, b32, c2);
    DistributeRight(a0, a1, a2, a3, b03, b13, b23, b33, c3);
    DistributeLeft(a0, b00, b01, b02, b03, c0, c1, c2, c3);
    DistributeLeft(a1, b10, b11, b12, b13, c0, c1, c2, c3);
    DistributeLeft(a2, b20, b21, b22, b23, c0, c1, c2, c3);
    DistributeLeft(a3, b30, b31, b32, b33, c0, c1, c2, c3);
  }

  /** Entry (i, j) of (a * b) * c equals that of a * (b * c). */
  lemma AssociativeAt(a: Mat4, b: Mat4, c: Mat4, i: int, j: int)
    requires 0 <= i < 4 && 0 <= j < 4
    ensures At(Product(Product(a, b), c), i, j) == At(Product(a, Product(b, c)), i, j)
  {
    RegroupSums(At(a, i, 0), At(a, i, 1), At(a, i, 2), At(a, i, 3),
                At(b, 0, 0), At(b, 0, 1), At(b, 0, 2), At(b, 0, 3),
                At(b, 1, 0), At(b, 1, 1), At(b, 1, 2), At(b, 1, 3),
                At(b, 2, 0), At(b, 2, 1), At(b, 2, 2), At(b, 2, 3),
                At(b, 3, 0), At(b, 3, 1), At(b, 3, 2), At(b, 3, 3),
                At(c, 0, j), At(c, 1, j), At(c, 2, j), At(c, 3, j));
  }

  lemma Associative(a: Mat4, b: Mat4, c: Mat4)
    ensures Product(Product(a, b), c) == Product(a, Product(b, c))
  {
    forall i, j | 0 <= i < 4 && 0 <= j < 4
      ensures At(Product(Product(a, b), c), i, j) == At(Product(a, Product(b, c)), i, j)
    {
      AssociativeAt(a, b, c, i, j);
    }
    Extensionality(Product(Product(a, b), c), Product(a, Product(b, c)));
  }

  /** Row i of m times the column 4-vector v. */
  function RowTimes(m: Mat4, i: int, v: Vec4): real
    requires 0 <= i < 4
  {
    Dot(At(m, i, 0), At(m, i, 1), At(m, i, 2), At(m, i, 3), v.x, v.y, v.z, v.w)
  }

  /** mat4_transform: the product m * v of the matrix with a column 4-vector. */
  function Transform(m: Mat4, v: Vec4): Vec4
  {
    Vec4(RowTimes(m, 0, v), RowTimes(m, 1, v), RowTimes(m, 2, v), RowTimes(m, 3, v))
  }

  /**
   * mat4_transform3: the upper-left 3x3 block applied to v; the translation column
   * is multiplied by 0, so this is the first three components of m * (v, 0).
   */
  function Transform3(m: Mat4, v: Vec3): (r: Vec3)
    ensures var h := Transform(m, Vec4(v.x, v.y, v.z, 0.0)); r == Vec3(h.x, h.y, h.z)
  {
    Vec3(At(m, 0, 0) * v.x + At(m, 0, 1) * v.y + At(m, 0, 2) * v.z + At(m, 0, 3) * 0.0,
         At(m, 1, 0) * v.x + At(m, 1, 1) * v.y + At(m, 1, 2) * v.z + At(m, 1, 3) * 0.0,
         At(m, 2, 0) * v.x + At(m, 2, 1) * v.y + At(m, 2, 2) * v.z + At(m, 2, 3) * 0.0)
  }

  lemma TransformIdentity(v: Vec4)
    ensures Transform(Identity(), v) == v
  {
  }

  /** A translation does not move directions: transform3 drops the translation column. */
  lemma Transform3IgnoresTranslation(x: real, y: real, z: real, v: Vec3)
    ensures Transform3(Translation(x, y, z), v) == v
  {
  }

  /** Column 0 of a matrix, as a vector. */
  function Column0(m: Mat4): Vec4
  {
    Vec4(At(m, 0, 0), At(m, 1, 0), At(m, 2, 0), At(m, 3, 0))
  }

  /** Multiplying by a matrix transforms each of its columns; here column 0. */
  lemma TransformsColumn0(a: Mat4, w: Mat4)
    ensures Column0(Product(a, w)) == Transform(a, Column0(w))
  {
  }

  /** The matrix whose column 0 is v and whose other entries are 0. */
  function ColumnMatrix(v: Vec4): (c: Mat4)
    ensures Column0(c) == v
  {
    [v.x, v.y, v.z, v.w, 0.0, 0.0, 0.0, 0.0, 0.0, 0.0, 0.0, 0.0, 0.0, 0.0, 0.0, 0.0]
  }

  /** Transforming by a product is transforming by each factor in turn. */
  lemma TransformProduct(a: Mat4, b: Mat4, v: Vec4)
    ensures Transform(Product(a, b), v) == Transform(a, Transform(b, v))
  {
    var cv := ColumnMatrix(v);
    TransformsColumn0(Product(a, b), cv);
    Associative(a, b, cv);
    TransformsColumn0(a, Product(b, cv));
    TransformsColumn0(b, cv);
  }
}
