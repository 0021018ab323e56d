/** The viewer's 3x3 rotation matrices: nine entries in row-major order,
    composed by matrix multiplication and applied to a vertex as a row vector
    times the matrix. */
module Matrices {
  import opened Geometry

  /** Row-major entries: entry (row, col) is at index row * 3 + col. */
  type Matrix3 = s: seq<real> | |s| == 9 witness [1.0, 0.0, 0.0, 0.0, 1.0, 0.0, 0.0, 0.0, 1.0]

  const Identity: Matrix3 := [1.0, 0.0, 0.0,
                              0.0, 1.0, 0.0,
                              0.0, 0.0, 1.0]

  /** Rotation about the vertical axis, given the cosine and sine of the
      heading angle. */
  function Heading(c: real, s: real): Matrix3
  {
    [c,   0.0, s,
     0.0, 1.0, 0.0,
     -s,  0.0, c]
  }

  /** Rotation about the horizontal axis, given the cosine and sine of the
      pitch angle. */
  function Pitch(c: real, s: real): Matrix3
  {
    [1.0, 0.0, 0.0,
     0.0, c,   s,
     0.0, -s,  c]
  }

  /** The dot product of (x0, x1, x2) and (y0, y1, y2), added left to right.
      It takes six scalars rather than two vertices because a matrix row or
      column is not a vertex: `Product` and `Transform` both use it, so that
      the lemmas relating them match term for term. */
  function Dot3(x0: real, x1: real, x2: real, y0: real, y1: real, y2: real): real
  {
    x0 * y0 + x1 * y1 + x2 * y2
  }

  /** The matrix product a * b: entry (row, col) is row `row` of `a` dotted
      with column `col` of `b`. */
  function Product(a: Matrix3, b: Matrix3): Matrix3
  {
    [Dot3(a[0], a[1], a[2], b[0], b[3], b[6]),
     Dot3(a[0], a[1], a[2], b[1], b[4], b[7]),
     Dot3(a[0], a[1], a[2], b[2], b[5], b[8]),
     Dot3(a[3], a[4], a[5], b[0], b[3], b[6]),
     Dot3(a[3], a[4], a[5], b[1], b[4], b[7]),
     Dot3(a[3], a[4], a[5], b[2], b[5], b[8]),
     Dot3(a[6], a[7], a[8], b[0], b[3], b[6]),
     Dot3(a[6], a[7], a[8], b[1], b[4], b[7]),
     Dot3(a[6], a[7], a[8], b[2], b[5], b[8])]
  }

  function Transpose(m: Matrix3): Matrix3
  {
    [m[0], m[3], m[6],
     m[1], m[4], m[7],
     m[2], m[5], m[8]]
  }

  /** Applies `m` to `v` as the row vector v times m: the x coordinate is read
      from the first column (entries 0, 3, 6), and so on. */
  function Transform(m: Matrix3, v: Vertex): Vertex
  {
    Vertex(Dot3(v.x, v.y, v.z, m[0], m[3], m[6]),
           Dot3(v.x, v.y, v.z, m[1], m[4], m[7]),
           Dot3(v.x, v.y, v.z, m[2], m[5], m[8]))
  }

  /** The heading rotation turns x and z and leaves the vertical
      coordinate alone. */
  lemma HeadingKeepsHeight(c: real, s: real, v: Vertex)
    ensures Transform(Heading(c, s), v).y == v.y
    ensures Transform(Heading(c, s), v).x == v.x * c - v.z * s
    ensures Transform(Heading(c, s), v).z == v.x * s + v.z * c
  {
  }

  /** The pitch rotation turns y and z and leaves the horizontal coordinate
      alone. */
  lemma PitchKeepsX(c: real, s: real, v: Vertex)
    ensures Transform(Pitch(c, s), v).x == v.x
    ensures Transform(Pitch(c, s), v).y == v.y * c - v.z * s
    ensures Transform(Pitch(c, s), v).z == v.y * s + v.z * c
  {
  }

  /** The first n terms of row `row` of `a` times column `col` of `b`, added
      in the order the multiplication loop adds them to a zero entry. */
  function PartialSum(a: Matrix3, b: Matrix3, row: int, col: int, n: int): real
    requires 0 <= row < 3 && 0 <= col < 3 && 0 <= n <= 3
  {
    if n == 0 then 0.0
    else PartialSum(a, b, row, col, n - 1) + a[row * 3 + n - 1] * b[(n - 1) * 3 + col]
  }

  /** All three terms of the accumulation give the product's entry. */
  lemma {:induction false} PartialSumComplete(a: Matrix3, b: Matrix3, row: int, col: int)
    requires 0 <= row < 3 && 0 <= col < 3
    ensures PartialSum(a, b, row, col, 3) == Product(a, b)[row * 3 + col]
  {
    var i := row * 3;
    assert PartialSum(a, b, row, col, 1) == a[i] * b[col];
    assert PartialSum(a, b, row, col, 2) == a[i] * b[col] + a[i + 1] * b[3 + col];
    assert PartialSum(a, b, row, col, 3) == Dot3(a[i], a[i + 1], a[i + 2], b[col], b[3 + col], b[6 + col]);
    ProductEntry(a, b, row, col);
  }

  /** Entry (row, col) of the product, in terms of the row and column. */
  lemma ProductEntry(a: Matrix3, b: Matrix3, row: int, col: int)
    requires 0 <= row < 3 && 0 <= col < 3
    ensures Product(a, b)[row * 3 + col]
         == Dot3(a[row * 3], a[row * 3 + 1], a[row * 3 + 2], b[col], b[3 + col], b[6 + col])
  {
    assert row == 0 || row == 1 || row == 2;
    assert col == 0 || col == 1 || col == 2;
  }

  /** The multiplication loop: a fresh nine-entry buffer, zero as Java
      allocates it, to which each product term is added in turn. The operands
      are values and cannot change. */
  method Multiply(a: Matrix3, b: Matrix3) returns (r: Matrix3)
    ensures r == Product(a, b)
  {
    var result := new real[9](_ => 0.0);
    for row := 0 to 3
      invariant forall k :: 0 <= k < row * 3 ==> result[k] == PartialSum(a, b, k / 3, k % 3, 3)
      invariant forall k :: row * 3 <= k < 9 ==> result[k] == 0.0
    {
      for col := 0 to 3
        invariant forall k :: 0 <= k < row * 3 + col ==> result[k] == PartialSum(a, b, k / 3, k % 3, 3)
        invariant forall k :: row * 3 + col <= k < 9 ==> result[k] == 0.0
      {
        ghost var cell := row * 3 + col;
        assert cell / 3 == row && cell % 3 == col;
        for i := 0 to 3
          invariant result[cell] == PartialSum(a, b, row, col, i)
          invariant forall k :: 0 <= k < cell ==> result[k] == PartialSum(a, b, k / 3, k % 3, 3)
          invariant forall k :: cell < k < 9 ==> result[k] == 0.0
        {
          result[row * 3 + col] := result[row * 3 + col] + a[row * 3 + i] * b[i * 3 + col];
        }
      }
    }
    r := result[..];
    forall k | 0 <= k < 9
      ensures r[k] == Product(a, b)[k]
    {
      PartialSumComplete(a, b, k / 3, k % 3);
    }
  }

  /** Composition order: transforming by a * b transforms by `a` first and
      then by `b`. */
  lemma {:induction false} TransformProduct(a: Matrix3, b: Matrix3, v: Vertex)
    ensures Transform(Product(a, b), v) == Transform(b, Transform(a, v))
  {
    Reassociate(v.x, v.y, v.z, a[0], a[1], a[2], a[3], a[4], a[5], a[6], a[7], a[8], b[0], b[3], b[6]);
    Reassociate(v.x, v.y, v.z, a[0], a[1], a[2], a[3], a[4], a[5], a[6], a[7], a[8], b[1], b[4], b[7]);
    Reassociate(v.x, v.y, v.z, a[0], a[1], a[2], a[3], a[4], a[5], a[6], a[7], a[8], b[2], b[5], b[8]);
  }

  /** One coordinate of the composition law: the row vector x dotted with
      the column (a times b) equals (x times a) dotted with b. */
  lemma Reassociate(x0: real, x1: real, x2: real,
                    a0: real, a1: real, a2: real, a3: real, a4: real, a5: real, a6: real, a7: real, a8: real,
                    b0: real, b1: real, b2: real)
    ensures Dot3(x0, x1, x2, Dot3(a0, a1, a2, b0, b1, b2), Dot3(a3, a4, a5, b0, b1, b2), Dot3(a6, a7, a8, b0, b1, b2))
         == Dot3(Dot3(x0, x1, x2, a0, a3, a6), Dot3(x0, x1, x2, a1, a4, a7), Dot3(x0, x1, x2, a2, a5, a8), b0, b1, b2)
  {
    ReassociateScalar(x0, x1, x2, a0, a1, a2, a3, a4, a5, a6, a7, a8, b0, b1, b2,
                      Dot3(a0, a1, a2, b0, b1, b2), Dot3(a3, a4, a5, b0, b1, b2), Dot3(a6, a7, a8, b0, b1, b2),
                      Dot3(x0, x1, x2, a0, a3, a6), Dot3(x0, x1, x2, a1, a4, a7), Dot3(x0, x1, x2, a2, a5, a8));
  }

  /** Reassociate with the inner dot products named: x . s == w . b. */
  lemma ReassociateScalar(x0: real, x1: real, x2: real,
                          a0: real, a1: real, a2: real, a3: real, a4: real, a5: real, a6: real, a7: real, a8: real,
                          b0: real, b1: real, b2: real, s0: real, s1: real, s2: real, w0: real, w1: real, w2: real)
    requires s0 == a0 * b0 + a1 * b1 + a2 * b2
    requires s1 == a3 * b0 + a4 * b1 + a5 * b2
    requires s2 == a6 * b0 + a7 * b1 + a8 * b2
    requires w0 == x0 * a0 + x1 * a3 + x2 * a6
    requires w1 == x0 * a1 + x1 * a4 + x2 * a7
    requires w2 == x0 * a2 + x1 * a5 + x2 * a8
    ensures x0 * s0 + x1 * s1 + x2 * s2 == w0 * b0 + w1 * b1 + w2 * b2
  {
  }

  /** The viewer's composed rotation applies the heading rotation before the
      pitch rotation. */
  lemma HeadingThenPitch(hc: real, hs: real, pc: real, ps: real, v: Vertex)
    ensures Transform(Product(Heading(hc, hs), Pitch(pc, ps)), v)
         == Transform(Pitch(pc, ps), Transform(Heading(hc, hs), v))
  {
    TransformProduct(Heading(hc, hs), Pitch(pc, ps), v);
  }

  /** Row `r` of `m` as a vector. */
  function Row(m: Matrix3, r: int): Vertex
    requires 0 <= r < 3
  {
    Vertex(m[r * 3], m[r * 3 + 1], m[r * 3 + 2])
  }

  /** Row r of a * b is row r of `a` transformed by `b`. */
  lemma ProductRows(a: Matrix3, b: Matrix3)
    ensures forall r :: 0 <= r < 3 ==> Row(Product(a, b), r) == Transform(b, Row(a, r))
  {
    var p := Product(a, b);
    assert Row(p, 0) == Transform(b, Row(a, 0));
    assert Row(p, 1) == Transform(b, Row(a, 1));
    assert Row(p, 2) == Transform(b, Row(a, 2));
  }

  /** Two matrices with the same rows are equal. */
  lemma RowsDetermine(p: Matrix3, q: Matrix3)
    requires forall r :: 0 <= r < 3 ==> Row(p, r) == Row(q, r)
    ensures p == q
  {
    assert Row(p, 0) == Row(q, 0) && Row(p, 1) == Row(q, 1) && Row(p, 2) == Row(q, 2);
    assert forall k :: 0 <= k < 9 ==> p[k] == q[k];
  }

  lemma TransformIdentity(v: Vertex)
    ensures Transform(Identity, v) == v
  {
  }

  lemma {:induction false} ProductIdentity(a: Matrix3)
    ensures Product(a, Identity) == a
    ensures Product(Identity, a) == a
  {
    var p, q := Product(a, Identity), Product(Identity, a);
    assert forall k :: 0 <= k < 9 ==> p[k] == a[k];
    assert forall k :: 0 <= k < 9 ==> q[k] == a[k];
  }

  lemma {:induction false} ProductAssociative(a: Matrix3, b: Matrix3, c: Matrix3)
    ensures Product(Product(a, b), c) == Product(a, Product(b, c))
  {
    ProductRows(a, b);
    ProductRows(Product(a, b), c);
    ProductRows(a, Product(b, c));
    forall r | 0 <= r < 3
      ensures Row(Product(Product(a, b), c), r) == Row(Product(a, Product(b, c)), r)
    {
      TransformProduct(b, c, Row(a, r));
    }
    RowsDetermine(Product(Product(a, b), c), Product(a, Product(b, c)));
  }

  /** At angle 0 (cosine 1, sine 0) both rotations are the identity. */
  lemma ZeroAngleIsIdentity()
    ensures Heading(1.0, 0.0) == Identity
    ensures Pitch(1.0, 0.0) == Identity
  {
  }

  /** Composition is not commutative: a quarter heading turn and a quarter
      pitch turn give different products in the two orders. */
  lemma ProductNotCommutative()
    ensures Product(Heading(0.0, 1.0), Pitch(0.0, 1.0)) != Product(Pitch(0.0, 1.0), Heading(0.0, 1.0))
  {
    assert Product(Heading(0.0, 1.0), Pitch(0.0, 1.0))[1] == -1.0;
    assert Product(Pitch(0.0, 1.0), Heading(0.0, 1.0))[1] == 0.0;
  }

  /** The rows of `m` are orthonormal (m times its transpose is the
      identity): what makes `m` a rotation or a reflection. */
  ghost predicate Orthonormal(m: Matrix3)
  {
    Product(m, Transpose(m)) == Identity
  }

  lemma {:induction false} HeadingIsOrthonormal(c: real, s: real)
    requires c * c + s * s == 1.0
    ensures Orthonormal(Heading(c, s))
  {
    var p := Product(Heading(c, s), Transpose(Heading(c, s)));
    assert p[0] == 1.0 && p[1] == 0.0 && p[2] == 0.0;
    assert p[3] == 0.0 && p[4] == 1.0 && p[5] == 0.0;
    assert p[6] == 0.0 && p[7] == 0.0 && p[8] == 1.0;
  }

  lemma {:induction false} PitchIsOrthonormal(c: real, s: real)
    requires c * c + s * s == 1.0
    ensures Orthonormal(Pitch(c, s))
  {
    var p := Product(Pitch(c, s), Transpose(Pitch(c, s)));
    assert p[0] == 1.0 && p[1] == 0.0 && p[2] == 0.0;
    assert p[3] == 0.0 && p[4] == 1.0 && p[5] == 0.0;
    assert p[6] == 0.0 && p[7] == 0.0 && p[8] == 1.0;
  }

  lemma {:induction false} TransposeProduct(a: Matrix3, b: Matrix3)
    ensures Transpose(Product(a, b)) == Product(Transpose(b), Transpose(a))
  {
    var p, q := Transpose(Product(a, b)), Product(Transpose(b), Transpose(a));
    assert p[0] == q[0] && p[1] == q[1] && p[2] == q[2];
    assert p[3] == q[3] && p[4] == q[4] && p[5] == q[5];
    assert p[6] == q[6] && p[7] == q[7] && p[8] == q[8];
  }

  /** The product of two orthonormal matrices is orthonormal. */
  lemma {:induction false} OrthonormalProduct(a: Matrix3, b: Matrix3)
    requires Orthonormal(a) && Orthonormal(b)
    ensures Orthonormal(Product(a, b))
  {
    calc {
      Product(Product(a, b), Transpose(Product(a, b)));
      { TransposeProduct(a, b); }
      Product(Product(a, b), Product(Transpose(b), Transpose(a)));
      { ProductAssociative(a, b, Product(Transpose(b), Transpose(a))); }
      Product(a, Product(b, Product(Transpose(b), Transpose(a))));
      { ProductAssociative(b, Transpose(b), Transpose(a)); }
      Product(a, Product(Product(b, Transpose(b)), Transpose(a)));
      Product(a, Product(Identity, Transpose(a)));
      { ProductIdentity(Transpose(a)); }
      Product(a, Transpose(a));
      Identity;
    }
  }

  /** An orthonormal matrix preserves lengths. */
  lemma {:induction false} OrthonormalPreservesNorm(m: Matrix3, v: Vertex)
    requires Orthonormal(m)
    ensures NormSq(Transform(m, v)) == NormSq(v)
  {
    var p := Product(m, Transpose(m));
    assert p[0] == 1.0 && p[4] == 1.0 && p[8] == 1.0;
    assert p[1] == 0.0 && p[2] == 0.0 && p[5] == 0.0;
    QuadraticForm(v.x, v.y, v.z, m[0], m[1], m[2], m[3], m[4], m[5], m[6], m[7], m[8]);
  }

  /** The squared length of (x, y, z) times a matrix, expanded in terms of the
      dot products of the matrix's rows. */
  lemma QuadraticForm(x: real, y: real, z: real,
                      m0: real, m1: real, m2: real, m3: real, m4: real, m5: real, m6: real, m7: real, m8: real)
    ensures (x * m0 + y * m3 + z * m6) * (x * m0 + y * m3 + z * m6)
          + (x * m1 + y * m4 + z * m7) * (x * m1 + y * m4 + z * m7)
          + (x * m2 + y * m5 + z * m8) * (x * m2 + y * m5 + z * m8)
         == x * x * (m0 * m0 + m1 * m1 + m2 * m2)
          + y * y * (m3 * m3 + m4 * m4 + m5 * m5)
          + z * z * (m6 * m6 + m7 * m7 + m8 * m8)
          + 2.0 * x * y * (m0 * m3 + m1 * m4 + m2 * m5)
          + 2.0 * x * z * (m0 * m6 + m1 * m7 + m2 * m8)
          + 2.0 * y * z * (m3 * m6 + m4 * m7 + m5 * m8)
  {
  }

  /** The viewer's composed heading-and-pitch transform is a rotation: it
      never changes a vertex's distance from the origin. */
  lemma ViewTransformPreservesNorm(hc: real, hs: real, pc: real, ps: real, v: Vertex)
    requires hc * hc + hs * hs == 1.0 && pc * pc + ps * ps == 1.0
    ensures NormSq(Transform(Product(Heading(hc, hs), Pitch(pc, ps)), v)) == NormSq(v)
  {
    HeadingIsOrthonormal(hc, hs);
    PitchIsOrthonormal(pc, ps);
    OrthonormalProduct(Heading(hc, hs), Pitch(pc, ps));
    OrthonormalPreservesNorm(Product(Heading(hc, hs), Pitch(pc, ps)), v);
  }
}
