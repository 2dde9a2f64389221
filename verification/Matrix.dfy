/** 4x4 homogeneous transforms over the reals, with the multiplication and the
    inversion that calibration uses. */
module Matrix {

  datatype Row = Row(x: real, y: real, z: real, w: real)

  datatype Mat4 = Mat4(r0: Row, r1: Row, r2: Row, r3: Row)

  const HOMOGENEOUS := Row(0.0, 0.0, 0.0, 1.0)

  const IDENTITY := Mat4(Row(1.0, 0.0, 0.0, 0.0), Row(0.0, 1.0, 0.0, 0.0), Row(0.0, 0.0, 1.0, 0.0), HOMOGENEOUS)

  function Add(u: Row, v: Row): Row { Row(u.x + v.x, u.y + v.y, u.z + v.z, u.w + v.w) }

  function Scale(s: real, v: Row): Row { Row(s * v.x, s * v.y, s * v.z, s * v.w) }

  /** A row times a matrix: the combination of the rows of the matrix. */
  function RowMul(v: Row, m: Mat4): Row {
    Add(Add(Scale(v.x, m.r0), Scale(v.y, m.r1)), Add(Scale(v.z, m.r2), Scale(v.w, m.r3)))
  }

  function MatMul(a: Mat4, b: Mat4): Mat4 {
    Mat4(RowMul(a.r0, b), RowMul(a.r1, b), RowMul(a.r2, b), RowMul(a.r3, b))
  }

  // ----- associativity -----

  lemma ScaleSplits(s: real, t: real, u: Row)
    ensures Scale(s + t, u) == Add(Scale(s, u), Scale(t, u))
    ensures Scale(s * t, u) == Scale(s, Scale(t, u))
  {
  }

  lemma ScaleDistributes(s: real, u: Row, v: Row)
    ensures Scale(s, Add(u, v)) == Add(Scale(s, u), Scale(s, v))
  {
  }

  lemma AddSwaps(t: Row, u: Row, v: Row, w: Row)
    ensures Add(Add(t, u), Add(v, w)) == Add(Add(t, v), Add(u, w))
  {
  }

  lemma RowMulAdds(u: Row, v: Row, m: Mat4)
    ensures RowMul(Add(u, v), m) == Add(RowMul(u, m), RowMul(v, m))
  {
    ScaleSplits(u.x, v.x, m.r0);
    ScaleSplits(u.y, v.y, m.r1);
    ScaleSplits(u.z, v.z, m.r2);
    ScaleSplits(u.w, v.w, m.r3);
    hide Scale;
    AddSwaps(Scale(u.x, m.r0), Scale(v.x, m.r0), Scale(u.y, m.r1), Scale(v.y, m.r1));
    AddSwaps(Scale(u.z, m.r2), Scale(v.z, m.r2), Scale(u.w, m.r3), Scale(v.w, m.r3));
  }

  lemma RowMulScales(s: real, v: Row, m: Mat4)
    ensures RowMul(Scale(s, v), m) == Scale(s, RowMul(v, m))
  {
    var x, y, z, w := Scale(v.x, m.r0), Scale(v.y, m.r1), Scale(v.z, m.r2), Scale(v.w, m.r3);
    ScaleSplits(s, v.x, m.r0);
    ScaleSplits(s, v.y, m.r1);
    ScaleSplits(s, v.z, m.r2);
    ScaleSplits(s, v.w, m.r3);
    assert Scale(s, v) == Row(s * v.x, s * v.y, s * v.z, s * v.w);
    hide Scale, Add;
    ScaleDistributes(s, x, y);
    ScaleDistributes(s, z, w);
    ScaleDistributes(s, Add(x, y), Add(z, w));
  }

  lemma RowMulAssociates(v: Row, a: Mat4, b: Mat4)
    ensures RowMul(RowMul(v, a), b) == RowMul(v, MatMul(a, b))
  {
    var p, q := Add(Scale(v.x, a.r0), Scale(v.y, a.r1)), Add(Scale(v.z, a.r2), Scale(v.w, a.r3));
    assert RowMul(v, a) == Add(p, q);
    assert RowMul(v, MatMul(a, b)) ==
      Add(Add(Scale(v.x, RowMul(a.r0, b)), Scale(v.y, RowMul(a.r1, b))),
          Add(Scale(v.z, RowMul(a.r2, b)), Scale(v.w, RowMul(a.r3, b))));
    hide Add, Scale, RowMul;
    RowMulAdds(p, q, b);
    RowMulAdds(Scale(v.x, a.r0), Scale(v.y, a.r1), b);
    RowMulAdds(Scale(v.z, a.r2), Scale(v.w, a.r3), b);
    RowMulScales(v.x, a.r0, b);
    RowMulScales(v.y, a.r1, b);
    RowMulScales(v.z, a.r2, b);
    RowMulScales(v.w, a.r3, b);
  }

  lemma MatMulAssociates(a: Mat4, b: Mat4, c: Mat4)
    ensures MatMul(MatMul(a, b), c) == MatMul(a, MatMul(b, c))
  {
    hide RowMul;
    RowMulAssociates(a.r0, b, c);
    RowMulAssociates(a.r1, b, c);
    RowMulAssociates(a.r2, b, c);
    RowMulAssociates(a.r3, b, c);
  }

  lemma UnitRows(m: Mat4)
    ensures RowMul(Row(1.0, 0.0, 0.0, 0.0), m) == m.r0
    ensures RowMul(Row(0.0, 1.0, 0.0, 0.0), m) == m.r1
    ensures RowMul(Row(0.0, 0.0, 1.0, 0.0), m) == m.r2
    ensures RowMul(Row(0.0, 0.0, 0.0, 1.0), m) == m.r3
  {
    ScaleUnits(m.r0);
    ScaleUnits(m.r1);
    ScaleUnits(m.r2);
    ScaleUnits(m.r3);
    hide Scale;
  }

  lemma ScaleUnits(u: Row)
    ensures Scale(1.0, u) == u && Scale(0.0, u) == Row(0.0, 0.0, 0.0, 0.0)
  {
  }

  lemma RowMulIdentity(v: Row)
    ensures RowMul(v, IDENTITY) == v
  {
  }

  lemma IdentityIsNeutral(m: Mat4)
    ensures MatMul(IDENTITY, m) == m && MatMul(m, IDENTITY) == m
  {
    hide RowMul;
    UnitRows(m);
    RowMulIdentity(m.r0);
    RowMulIdentity(m.r1);
    RowMulIdentity(m.r2);
    RowMulIdentity(m.r3);
  }

  // ----- rigid transforms -----

  /** Transposes the rotation part R and turns the translation t into -R^T t. */
  function InvertSe3(m: Mat4): Mat4 {
    Mat4(Row(m.r0.x, m.r1.x, m.r2.x, -(m.r0.x * m.r0.w + m.r1.x * m.r1.w + m.r2.x * m.r2.w)),
         Row(m.r0.y, m.r1.y, m.r2.y, -(m.r0.y * m.r0.w + m.r1.y * m.r1.w + m.r2.y * m.r2.w)),
         Row(m.r0.z, m.r1.z, m.r2.z, -(m.r0.z * m.r0.w + m.r1.z * m.r1.w + m.r2.z * m.r2.w)),
         HOMOGENEOUS)
  }

  function Dot3(a: Row, b: Row): real { a.x * b.x + a.y * b.y + a.z * b.z }

  function Column(x: real, y: real, z: real): Row { Row(x, y, z, 0.0) }

  predicate OrthonormalTriple(a: Row, b: Row, c: Row) {
    && Dot3(a, a) == 1.0 && Dot3(b, b) == 1.0 && Dot3(c, c) == 1.0
    && Dot3(a, b) == 0.0 && Dot3(a, c) == 0.0 && Dot3(b, c) == 0.0
  }

  function ColumnX(m: Mat4): Row { Column(m.r0.x, m.r1.x, m.r2.x) }

  function ColumnY(m: Mat4): Row { Column(m.r0.y, m.r1.y, m.r2.y) }

  function ColumnZ(m: Mat4): Row { Column(m.r0.z, m.r1.z, m.r2.z) }

  function ColumnW(m: Mat4): Row { Column(m.r0.w, m.r1.w, m.r2.w) }

  /** A rotation with orthonormal rows and columns, a translation, and the
      homogeneous last row. */
  predicate Rigid(m: Mat4) {
    && m.r3 == HOMOGENEOUS
    && OrthonormalTriple(m.r0, m.r1, m.r2)
    && OrthonormalTriple(ColumnX(m), ColumnY(m), ColumnZ(m))
  }

  /** The product of a row with a matrix whose last row is homogeneous. */
  lemma AffineRow(v: Row, m: Mat4)
    requires m.r3 == HOMOGENEOUS
    ensures RowMul(v, m) == Row(Dot3(v, ColumnX(m)), Dot3(v, ColumnY(m)), Dot3(v, ColumnZ(m)),
              Dot3(v, ColumnW(m)) + v.w)
  {
  }

  lemma DotSymmetric(a: Row, b: Row)
    ensures Dot3(a, b) == Dot3(b, a)
  {
  }

  lemma InverseOnTheLeft(m: Mat4)
    requires Rigid(m)
    ensures MatMul(InvertSe3(m), m) == IDENTITY
  {
    hide RowMul, Dot3, InvertSe3, ColumnX, ColumnY, ColumnZ, ColumnW;
    var inv := InvertSe3(m);
    AffineRow(inv.r0, m);
    AffineRow(inv.r1, m);
    AffineRow(inv.r2, m);
    AffineRow(inv.r3, m);
    UnitRows(m);
    DotSymmetric(ColumnX(m), ColumnY(m));
    DotSymmetric(ColumnX(m), ColumnZ(m));
    DotSymmetric(ColumnY(m), ColumnZ(m));
    InvertedRows(m);
  }

  /** The rows of the inverse, in terms of the columns of the matrix. */
  lemma InvertedRows(m: Mat4)
    ensures var inv := InvertSe3(m);
            && inv.r0 == ColumnX(m).(w := -Dot3(ColumnX(m), ColumnW(m)))
            && inv.r1 == ColumnY(m).(w := -Dot3(ColumnY(m), ColumnW(m)))
            && inv.r2 == ColumnZ(m).(w := -Dot3(ColumnZ(m), ColumnW(m)))
            && inv.r3 == HOMOGENEOUS
    ensures forall v: Row, c: Row, w: real :: Dot3(v.(w := w), c) == Dot3(v, c)
  {
  }

  /** The rotation part of `x` is the transposed rotation part of `m`. */
  predicate Transposed(x: Mat4, m: Mat4) {
    && ColumnX(m) == x.r0.(w := 0.0) && ColumnY(m) == x.r1.(w := 0.0) && ColumnZ(m) == x.r2.(w := 0.0)
    && ColumnX(x) == m.r0.(w := 0.0) && ColumnY(x) == m.r1.(w := 0.0) && ColumnZ(x) == m.r2.(w := 0.0)
  }

  lemma DotIgnoresW(a: Row, b: Row)
    ensures Dot3(a.(w := 0.0), b) == Dot3(a, b) == Dot3(b, a)
  {
  }

  lemma DotsIgnoreW()
    ensures forall u: Row, v: Row :: Dot3(u.(w := 0.0), v) == Dot3(u, v) == Dot3(v, u)
  {
    forall u: Row, v: Row ensures Dot3(u.(w := 0.0), v) == Dot3(u, v) == Dot3(v, u) {
      DotIgnoresW(u, v);
    }
  }

  lemma InvertedIsTransposed(m: Mat4)
    ensures Transposed(InvertSe3(m), m)
  {
  }

  lemma ProductsTranspose(a: Mat4, b: Mat4)
    requires a.r3 == HOMOGENEOUS && b.r3 == HOMOGENEOUS
    ensures Transposed(MatMul(InvertSe3(b), InvertSe3(a)), MatMul(a, b))
    ensures MatMul(a, b).r3 == HOMOGENEOUS
  {
    hide RowMul, Dot3, InvertSe3, Rigid;
    var ia, ib := InvertSe3(a), InvertSe3(b);
    InvertedIsTransposed(a);
    InvertedIsTransposed(b);
    InvertedRows(a);
    InvertedRows(b);
    AffineRow(a.r0, b);
    AffineRow(a.r1, b);
    AffineRow(a.r2, b);
    AffineRow(ib.r0, ia);
    AffineRow(ib.r1, ia);
    AffineRow(ib.r2, ia);
    UnitRows(b);
    DotsAgree(a, b, ia, ib);
  }

  lemma DotsAgree(a: Mat4, b: Mat4, ia: Mat4, ib: Mat4)
    requires Transposed(ia, a) && Transposed(ib, b)
    ensures Dot3(ib.r0, ColumnX(ia)) == Dot3(a.r0, ColumnX(b)) && Dot3(ib.r0, ColumnY(ia)) == Dot3(a.r1, ColumnX(b))
            && Dot3(ib.r0, ColumnZ(ia)) == Dot3(a.r2, ColumnX(b))
    ensures Dot3(ib.r1, ColumnX(ia)) == Dot3(a.r0, ColumnY(b)) && Dot3(ib.r1, ColumnY(ia)) == Dot3(a.r1, ColumnY(b))
            && Dot3(ib.r1, ColumnZ(ia)) == Dot3(a.r2, ColumnY(b))
    ensures Dot3(ib.r2, ColumnX(ia)) == Dot3(a.r0, ColumnZ(b)) && Dot3(ib.r2, ColumnY(ia)) == Dot3(a.r1, ColumnZ(b))
            && Dot3(ib.r2, ColumnZ(ia)) == Dot3(a.r2, ColumnZ(b))
  {
    hide Dot3;
    DotsIgnoreW();
  }

  /** A matrix whose transposed rotation part belongs to its two-sided inverse
      is rigid. */
  lemma RigidByInverse(m: Mat4, x: Mat4)
    requires m.r3 == HOMOGENEOUS && x.r3 == HOMOGENEOUS && Transposed(x, m)
    requires MatMul(x, m) == IDENTITY && MatMul(m, x) == IDENTITY
    ensures Rigid(m)
  {
    hide RowMul, Dot3, ColumnX, ColumnY, ColumnZ, ColumnW;
    AffineRow(x.r0, m);
    AffineRow(x.r1, m);
    AffineRow(x.r2, m);
    AffineRow(m.r0, x);
    AffineRow(m.r1, x);
    AffineRow(m.r2, x);
    DotsIgnoreW();
  }

  lemma InverseIsRigid(m: Mat4)
    requires Rigid(m)
    ensures Rigid(InvertSe3(m))
  {
    hide Dot3, InvertSe3;
    InvertedIsTransposed(m);
    InvertedRows(m);
    DotsIgnoreW();
  }

  lemma InverseOnTheRight(m: Mat4)
    requires Rigid(m)
    ensures MatMul(m, InvertSe3(m)) == IDENTITY
  {
    hide MatMul, Rigid, InvertSe3;
    var n := InvertSe3(m);
    var k := InvertSe3(n);
    InverseIsRigid(m);
    InverseOnTheLeft(m);
    InverseOnTheLeft(n);
    IdentityIsNeutral(MatMul(m, n));
    IdentityIsNeutral(n);
    MatMulAssociates(k, n, MatMul(m, n));
    MatMulAssociates(n, m, n);
  }

  lemma ProductIsRigid(a: Mat4, b: Mat4)
    requires Rigid(a) && Rigid(b)
    ensures Rigid(MatMul(a, b))
  {
    var ia, ib := InvertSe3(a), InvertSe3(b);
    ProductsTranspose(a, b);
    ProductsTranspose(ib, ia);
    InverseOfProduct(a, b);
    RigidByInverse(MatMul(a, b), MatMul(ib, ia));
  }

  lemma InverseOfProduct(a: Mat4, b: Mat4)
    requires Rigid(a) && Rigid(b)
    ensures var x := MatMul(InvertSe3(b), InvertSe3(a));
            MatMul(x, MatMul(a, b)) == IDENTITY && MatMul(MatMul(a, b), x) == IDENTITY
  {
    hide MatMul, Rigid, InvertSe3;
    var ia, ib := InvertSe3(a), InvertSe3(b);
    InverseOnTheLeft(a);
    InverseOnTheLeft(b);
    InverseOnTheRight(a);
    InverseOnTheRight(b);
    MatMulAssociates(ib, ia, MatMul(a, b));
    MatMulAssociates(ia, a, b);
    MatMulAssociates(a, b, MatMul(ib, ia));
    MatMulAssociates(b, ib, ia);
    IdentityIsNeutral(b);
    IdentityIsNeutral(ia);
  }

  // ----- changing the unit of the translation -----

  function ScaleTranslation(m: Mat4, s: real): Mat4 {
    m.(r0 := ScaleW(m.r0, s), r1 := ScaleW(m.r1, s), r2 := ScaleW(m.r2, s))
  }

  function ScaleW(v: Row, s: real): Row { v.(w := v.w * s) }

  lemma DotScales(v: Row, c: Row, s: real)
    ensures Dot3(v, Scale(s, c)) == s * Dot3(v, c)
  {
  }

  lemma ScaledColumns(m: Mat4, s: real)
    ensures var n := ScaleTranslation(m, s);
            && ColumnX(n) == ColumnX(m) && ColumnY(n) == ColumnY(m) && ColumnZ(n) == ColumnZ(m)
            && forall v: Row, w: real :: Dot3(v.(w := w), ColumnW(n)) == s * Dot3(v, ColumnW(m))
  {
    forall v: Row, w: real ensures Dot3(v.(w := w), ColumnW(ScaleTranslation(m, s))) == s * Dot3(v, ColumnW(m)) {
      DotScales(v, ColumnW(m), s);
    }
  }

  lemma SumScales(d: real, w: real, s: real)
    ensures s * d + w * s == (d + w) * s
  {
  }

  lemma ScaledRow(v: Row, m: Mat4, s: real)
    requires m.r3 == HOMOGENEOUS
    ensures RowMul(ScaleW(v, s), ScaleTranslation(m, s)) == ScaleW(RowMul(v, m), s)
  {
    hide RowMul, Dot3, ColumnX, ColumnY, ColumnZ, ColumnW;
    AffineRow(v, m);
    AffineRow(ScaleW(v, s), ScaleTranslation(m, s));
    InvertedRows(m);
    ScaledColumns(m, s);
    SumScales(Dot3(v, ColumnW(m)), v.w, s);
  }

  lemma ScalingIsMultiplicative(a: Mat4, b: Mat4, s: real)
    requires a.r3 == HOMOGENEOUS && b.r3 == HOMOGENEOUS
    ensures ScaleTranslation(MatMul(a, b), s) == MatMul(ScaleTranslation(a, s), ScaleTranslation(b, s))
    ensures MatMul(a, b).r3 == HOMOGENEOUS
  {
    hide RowMul, ScaleW;
    ScaledRow(a.r0, b, s);
    ScaledRow(a.r1, b, s);
    ScaledRow(a.r2, b, s);
    UnitRows(b);
    UnitRows(ScaleTranslation(b, s));
  }

  lemma ScalingKeepsRigid(m: Mat4, s: real)
    requires Rigid(m)
    ensures Rigid(ScaleTranslation(m, s)) && ScaleTranslation(IDENTITY, s) == IDENTITY
  {
    var n := ScaleTranslation(m, s);
    assert ColumnX(n) == ColumnX(m) && ColumnY(n) == ColumnY(m) && ColumnZ(n) == ColumnZ(m);
    assert Dot3(n.r0, n.r0) == Dot3(m.r0, m.r0);
    assert 0.0 * s == 0.0;
  }

  /** Only the inverse of a transform composes with it to the identity. */
  lemma InverseIsUnique(m: Mat4, x: Mat4)
    requires Rigid(m) && MatMul(x, m) == IDENTITY
    ensures x == InvertSe3(m)
  {
    hide MatMul, Rigid, InvertSe3;
    InverseOnTheRight(m);
    MatMulAssociates(x, m, InvertSe3(m));
    IdentityIsNeutral(x);
    IdentityIsNeutral(InvertSe3(m));
  }

  lemma InverseOfInverse(m: Mat4)
    requires Rigid(m)
    ensures InvertSe3(InvertSe3(m)) == m
  {
    hide MatMul, Rigid, InvertSe3;
    InverseIsRigid(m);
    InverseOnTheRight(m);
    InverseIsUnique(InvertSe3(m), m);
  }
}
