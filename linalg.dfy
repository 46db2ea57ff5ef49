/** The small vectors and matrices of the transform stage (the parts of
    nalgebra-glm the renderer uses), over exact reals. Matrices are stored
    row by row; `ColumnMajorIndex` gives nalgebra's linear `m[k]` indexing,
    which walks columns. */
module LinAlg {
  import opened Numeric

  datatype Vec2 = Vec2(x: real, y: real)
  datatype Vec3 = Vec3(x: real, y: real, z: real)
  datatype Vec4 = Vec4(x: real, y: real, z: real, w: real)

  /** A 3x3 matrix given by its rows. */
  datatype Mat3 = Mat3(r0: Vec3, r1: Vec3, r2: Vec3)

  /** A 4x4 matrix given by its rows. */
  datatype Mat4 = Mat4(r0: Vec4, r1: Vec4, r2: Vec4, r3: Vec4)

  // ---- vectors ----

  function Add(a: Vec3, b: Vec3): Vec3 {
    Vec3(a.x + b.x, a.y + b.y, a.z + b.z)
  }

  function Scale(a: Vec3, s: real): Vec3 {
    Vec3(a.x * s, a.y * s, a.z * s)
  }

  function Dot(a: Vec3, b: Vec3): real {
    a.x * b.x + a.y * b.y + a.z * b.z
  }

  function Dot4(a: Vec4, b: Vec4): real {
    a.x * b.x + a.y * b.y + a.z * b.z + a.w * b.w
  }

  /** `Vec4::new(p.x, p.y, p.z, 1.0)`: a point in homogeneous coordinates. */
  function Homogeneous(p: Vec3): Vec4 {
    Vec4(p.x, p.y, p.z, 1.0)
  }

  // ---- 3x3 matrices ----

  const Identity3: Mat3 := Mat3(Vec3(1.0, 0.0, 0.0), Vec3(0.0, 1.0, 0.0), Vec3(0.0, 0.0, 1.0))

  /** `Mat3::new(a, b, c, d, e, f, g, h, i)` takes its arguments row by row. */
  function Mat3New(a: real, b: real, c: real, d: real, e: real, f: real, g: real, h: real, i: real): Mat3 {
    Mat3(Vec3(a, b, c), Vec3(d, e, f), Vec3(g, h, i))
  }

  function Col0(m: Mat3): Vec3 { Vec3(m.r0.x, m.r1.x, m.r2.x) }
  function Col1(m: Mat3): Vec3 { Vec3(m.r0.y, m.r1.y, m.r2.y) }
  function Col2(m: Mat3): Vec3 { Vec3(m.r0.z, m.r1.z, m.r2.z) }

  function Transpose(m: Mat3): Mat3 {
    Mat3(Col0(m), Col1(m), Col2(m))
  }

  lemma TransposeInvolutive(m: Mat3)
    ensures Transpose(Transpose(m)) == m
  {
  }

  function MulVec(m: Mat3, v: Vec3): Vec3 {
    Vec3(Dot(m.r0, v), Dot(m.r1, v), Dot(m.r2, v))
  }

  function Mul(a: Mat3, b: Mat3): Mat3 {
    Mat3(
      Vec3(Dot(a.r0, Col0(b)), Dot(a.r0, Col1(b)), Dot(a.r0, Col2(b))),
      Vec3(Dot(a.r1, Col0(b)), Dot(a.r1, Col1(b)), Dot(a.r1, Col2(b))),
      Vec3(Dot(a.r2, Col0(b)), Dot(a.r2, Col1(b)), Dot(a.r2, Col2(b))))
  }


  function Cross(u: Vec3, v: Vec3): Vec3 {
    Vec3(u.y * v.z - u.z * v.y, u.z * v.x - u.x * v.z, u.x * v.y - u.y * v.x)
  }

  /** The determinant, as the scalar triple product of the rows. */
  function Det(m: Mat3): real {
    Dot(m.r0, Cross(m.r1, m.r2))
  }

  /** The adjugate: its columns are the cross products of pairs of rows. */
  function Adjugate(m: Mat3): Mat3 {
    Transpose(Mat3(Cross(m.r1, m.r2), Cross(m.r2, m.r0), Cross(m.r0, m.r1)))
  }

  function ScaleMat(m: Mat3, s: real): Mat3 {
    Mat3(Scale(m.r0, s), Scale(m.r1, s), Scale(m.r2, s))
  }

  /** `Mat3::try_inverse`: None exactly when the determinant is zero,
      otherwise the two-sided inverse. */
  function TryInverse(m: Mat3): (r: Option<Mat3>)
    ensures r.None? <==> Det(m) == 0.0
    ensures r.Some? ==> Mul(m, r.value) == Identity3 && Mul(r.value, m) == Identity3
  {
    if Det(m) == 0.0 then None
    else
      var inv := ScaleMat(Adjugate(m), 1.0 / Det(m));
      InverseIsTwoSided(m);
      Some(inv)
  }

  lemma ScaleMatOne(a: Mat3)
    ensures ScaleMat(a, 1.0) == a
  {
  }

  /** With determinant 1 the inverse is the adjugate itself. */
  lemma {:induction false} TryInverseUnitDet(b: Mat3)
    requires Det(b) == 1.0
    ensures TryInverse(b) == Some(Adjugate(b))
  {
    assert 1.0 / Det(b) == 1.0;
    ScaleMatOne(Adjugate(b));
  }

  /** The scalar triple product is invariant under cyclic rotation, in
      coordinates. */
  lemma TripleCyclic(ux: real, uy: real, uz: real, vx: real, vy: real, vz: real, wx: real, wy: real, wz: real)
    ensures ux * (vy * wz - vz * wy) + uy * (vz * wx - vx * wz) + uz * (vx * wy - vy * wx)
         == vx * (wy * uz - wz * uy) + vy * (wz * ux - wx * uz) + vz * (wx * uy - wy * ux)
    ensures ux * (vy * wz - vz * wy) + uy * (vz * wx - vx * wz) + uz * (vx * wy - vy * wx)
         == wx * (uy * vz - uz * vy) + wy * (uz * vx - ux * vz) + wz * (ux * vy - uy * vx)
  {
  }

  /** The determinant is the scalar triple product of the rows, whichever
      row leads. */
  lemma TripleProduct(u: Vec3, v: Vec3, w: Vec3)
    ensures Dot(u, Cross(v, w)) == Det(Mat3(u, v, w))
    ensures Dot(v, Cross(w, u)) == Det(Mat3(u, v, w))
    ensures Dot(w, Cross(u, v)) == Det(Mat3(u, v, w))
  {
    TripleCyclic(u.x, u.y, u.z, v.x, v.y, v.z, w.x, w.y, w.z);
    DotCross(u, v, w);
    DotCross(v, w, u);
    DotCross(w, u, v);
  }

  /** Dot(u, Cross(v, w)) written out in coordinates. */
  lemma DotCross(u: Vec3, v: Vec3, w: Vec3)
    ensures Dot(u, Cross(v, w)) == u.x * (v.y * w.z - v.z * w.y) + u.y * (v.z * w.x - v.x * w.z) + u.z * (v.x * w.y - v.y * w.x)
  {
  }

  /** A triple product with a repeated vector vanishes. */
  lemma TripleRepeated(u: Vec3, v: Vec3)
    ensures Dot(u, Cross(u, v)) == 0.0
    ensures Dot(u, Cross(v, u)) == 0.0
  {
  }

  lemma DetTransposeScalar(a: real, b: real, c: real, d: real, e: real, f: real, g: real, h: real, i: real)
    ensures a * (e * i - h * f) + d * (h * c - b * i) + g * (b * f - e * c)
         == a * (e * i - f * h) + b * (f * g - d * i) + c * (d * h - e * g)
  {
  }

  lemma DetTranspose(m: Mat3)
    ensures Det(Transpose(m)) == Det(m)
  {
    DetTransposeScalar(m.r0.x, m.r0.y, m.r0.z, m.r1.x, m.r1.y, m.r1.z, m.r2.x, m.r2.y, m.r2.z);
  }

  /** The rows of the adjugate are the cross products of pairs of columns. */
  lemma AdjugateRows(m: Mat3)
    ensures Adjugate(m) == Mat3(Cross(Col1(m), Col2(m)), Cross(Col2(m), Col0(m)), Cross(Col0(m), Col1(m)))
  {
    AdjugateRow0(m);
    AdjugateRow1(m);
    AdjugateRow2(m);
  }

  lemma AdjugateRow0(m: Mat3)
    ensures Adjugate(m).r0 == Cross(Col1(m), Col2(m))
  {
    CrossComponents(m.r1, m.r2);
    CrossComponents(m.r2, m.r0);
    CrossComponents(m.r0, m.r1);
    CrossComponents(Col1(m), Col2(m));
  }

  lemma AdjugateRow1(m: Mat3)
    ensures Adjugate(m).r1 == Cross(Col2(m), Col0(m))
  {
    CrossComponents(m.r1, m.r2);
    CrossComponents(m.r2, m.r0);
    CrossComponents(m.r0, m.r1);
    CrossComponents(Col2(m), Col0(m));
  }

  lemma AdjugateRow2(m: Mat3)
    ensures Adjugate(m).r2 == Cross(Col0(m), Col1(m))
  {
    CrossComponents(m.r1, m.r2);
    CrossComponents(m.r2, m.r0);
    CrossComponents(m.r0, m.r1);
    CrossComponents(Col0(m), Col1(m));
  }

  /** The components of a cross product, with the second product of each
      written with its factors swapped. */
  lemma CrossComponents(u: Vec3, v: Vec3)
    ensures Cross(u, v).x == u.y * v.z - v.y * u.z
    ensures Cross(u, v).y == u.z * v.x - v.z * u.x
    ensures Cross(u, v).z == u.x * v.y - v.x * u.y
  {
  }

  /** m * adj(m) == det(m) * I. */
  lemma MulAdjugateRight(m: Mat3)
    ensures Mul(m, Adjugate(m)) == ScaleMat(Identity3, Det(m))
  {
    var A := Adjugate(m);
    assert Col0(A) == Cross(m.r1, m.r2) && Col1(A) == Cross(m.r2, m.r0) && Col2(A) == Cross(m.r0, m.r1);
    TripleProduct(m.r0, m.r1, m.r2);
    TripleRepeated(m.r0, m.r2);
    TripleRepeated(m.r0, m.r1);
    TripleRepeated(m.r1, m.r2);
    TripleRepeated(m.r1, m.r0);
    TripleRepeated(m.r2, m.r0);
    TripleRepeated(m.r2, m.r1);
  }

  /** adj(m) * m == det(m) * I. */
  lemma MulAdjugateLeft(m: Mat3)
    ensures Mul(Adjugate(m), m) == ScaleMat(Identity3, Det(m))
  {
    var A := Adjugate(m);
    var c0, c1, c2 := Col0(m), Col1(m), Col2(m);
    AdjugateRows(m);
    assert A.r0 == Cross(c1, c2) && A.r1 == Cross(c2, c0) && A.r2 == Cross(c0, c1);
    TripleProduct(c0, c1, c2);
    DetTranspose(m);
    assert Det(Mat3(c0, c1, c2)) == Det(m);
    TripleRepeated(c0, c2);
    TripleRepeated(c0, c1);
    TripleRepeated(c1, c2);
    TripleRepeated(c1, c0);
    TripleRepeated(c2, c0);
    TripleRepeated(c2, c1);
    assert Dot(A.r0, c0) == Det(m) && Dot(A.r1, c1) == Det(m) && Dot(A.r2, c2) == Det(m);
  }

  /** m * adj(m) == adj(m) * m == det(m) * I. */
  lemma AdjugateProducts(m: Mat3)
    ensures Mul(m, Adjugate(m)) == ScaleMat(Identity3, Det(m))
    ensures Mul(Adjugate(m), m) == ScaleMat(Identity3, Det(m))
  {
    MulAdjugateRight(m);
    MulAdjugateLeft(m);
  }

  lemma {:induction false} InverseIsTwoSided(m: Mat3)
    requires Det(m) != 0.0
    ensures Mul(m, ScaleMat(Adjugate(m), 1.0 / Det(m))) == Identity3
    ensures Mul(ScaleMat(Adjugate(m), 1.0 / Det(m)), m) == Identity3
  {
    var s := 1.0 / Det(m);
    AdjugateProducts(m);
    MulScaleRight(m, Adjugate(m), s);
    MulScaleLeft(Adjugate(m), m, s);
    assert Det(m) * s == 1.0;
    assert ScaleMat(ScaleMat(Identity3, Det(m)), s) == Identity3;
  }

  lemma DotScaleRight(u: Vec3, v: Vec3, s: real)
    ensures Dot(u, Scale(v, s)) == Dot(u, v) * s
  {
    calc {
      Dot(u, Scale(v, s));
      u.x * (v.x * s) + u.y * (v.y * s) + u.z * (v.z * s);
      { MulAssoc(u.x, v.x, s); MulAssoc(u.y, v.y, s); MulAssoc(u.z, v.z, s); }
      (u.x * v.x) * s + (u.y * v.y) * s + (u.z * v.z) * s;
      (u.x * v.x + u.y * v.y + u.z * v.z) * s;
    }
  }

  lemma DotScaleLeft(u: Vec3, v: Vec3, s: real)
    ensures Dot(Scale(u, s), v) == Dot(u, v) * s
  {
    calc {
      Dot(Scale(u, s), v);
      (u.x * s) * v.x + (u.y * s) * v.y + (u.z * s) * v.z;
      { MulSwap(u.x, s, v.x); MulSwap(u.y, s, v.y); MulSwap(u.z, s, v.z); }
      (u.x * v.x) * s + (u.y * v.y) * s + (u.z * v.z) * s;
      (u.x * v.x + u.y * v.y + u.z * v.z) * s;
    }
  }

  lemma MulAssoc(a: real, b: real, c: real)
    ensures a * (b * c) == (a * b) * c
  {
  }

  lemma MulSwap(a: real, b: real, c: real)
    ensures (a * b) * c == (a * c) * b
  {
  }

  /** One row of a product: the row times each column of b. */
  function RowTimes(r: Vec3, b: Mat3): Vec3 {
    Vec3(Dot(r, Col0(b)), Dot(r, Col1(b)), Dot(r, Col2(b)))
  }

  lemma MulRows(a: Mat3, b: Mat3)
    ensures Mul(a, b) == Mat3(RowTimes(a.r0, b), RowTimes(a.r1, b), RowTimes(a.r2, b))
  {
  }

  lemma Column0OfScaled(b: Mat3, s: real)
    ensures Col0(ScaleMat(b, s)) == Scale(Col0(b), s)
  {
  }

  lemma Column1OfScaled(b: Mat3, s: real)
    ensures Col1(ScaleMat(b, s)) == Scale(Col1(b), s)
  {
  }

  lemma Column2OfScaled(b: Mat3, s: real)
    ensures Col2(ScaleMat(b, s)) == Scale(Col2(b), s)
  {
  }

  lemma RowTimesScaleRight(r: Vec3, b: Mat3, s: real)
    ensures RowTimes(r, ScaleMat(b, s)) == Scale(RowTimes(r, b), s)
  {
    RowTimesOfScaled(r, b, s);
    ScaledRowTimes(r, b, s);
  }

  lemma RowTimesOfScaled(r: Vec3, b: Mat3, s: real)
    ensures RowTimes(r, ScaleMat(b, s)) == Vec3(Dot(r, Col0(b)) * s, Dot(r, Col1(b)) * s, Dot(r, Col2(b)) * s)
  {
    Column0OfScaled(b, s);
    Column1OfScaled(b, s);
    Column2OfScaled(b, s);
    DotScaleRight(r, Col0(b), s);
    DotScaleRight(r, Col1(b), s);
    DotScaleRight(r, Col2(b), s);
  }

  lemma ScaledRowTimes(r: Vec3, b: Mat3, s: real)
    ensures Scale(RowTimes(r, b), s) == Vec3(Dot(r, Col0(b)) * s, Dot(r, Col1(b)) * s, Dot(r, Col2(b)) * s)
  {
  }

  lemma RowTimesScaleLeft(r: Vec3, b: Mat3, s: real)
    ensures RowTimes(Scale(r, s), b) == Scale(RowTimes(r, b), s)
  {
    DotScaleLeft(r, Col0(b), s);
    DotScaleLeft(r, Col1(b), s);
    DotScaleLeft(r, Col2(b), s);
  }

  lemma MulScaleRight(a: Mat3, b: Mat3, s: real)
    ensures Mul(a, ScaleMat(b, s)) == ScaleMat(Mul(a, b), s)
  {
    MulRows(a, b);
    MulRows(a, ScaleMat(b, s));
    RowTimesScaleRight(a.r0, b, s);
    RowTimesScaleRight(a.r1, b, s);
    RowTimesScaleRight(a.r2, b, s);
  }

  lemma MulScaleLeft(a: Mat3, b: Mat3, s: real)
    ensures Mul(ScaleMat(a, s), b) == ScaleMat(Mul(a, b), s)
  {
    MulRows(a, b);
    MulRows(ScaleMat(a, s), b);
    RowTimesScaleLeft(a.r0, b, s);
    RowTimesScaleLeft(a.r1, b, s);
    RowTimesScaleLeft(a.r2, b, s);
  }

  // ---- 4x4 matrices ----

  const Identity4: Mat4 := Mat4(
    Vec4(1.0, 0.0, 0.0, 0.0), Vec4(0.0, 1.0, 0.0, 0.0),
    Vec4(0.0, 0.0, 1.0, 0.0), Vec4(0.0, 0.0, 0.0, 1.0))

  /** `Mat4::new(...)` takes its sixteen arguments row by row. */
  function Mat4New(
    a: real, b: real, c: real, d: real,
    e: real, f: real, g: real, h: real,
    i: real, j: real, k: real, l: real,
    m: real, n: real, o: real, p: real): Mat4
  {
    Mat4(Vec4(a, b, c, d), Vec4(e, f, g, h), Vec4(i, j, k, l), Vec4(m, n, o, p))
  }

  function Row4(m: Mat4, i: int): Vec4
    requires 0 <= i < 4
  {
    if i == 0 then m.r0 else if i == 1 then m.r1 else if i == 2 then m.r2 else m.r3
  }

  function Entry(v: Vec4, j: int): real
    requires 0 <= j < 4
  {
    if j == 0 then v.x else if j == 1 then v.y else if j == 2 then v.z else v.w
  }

  /** The entry at row i, column j. */
  function At(m: Mat4, i: int, j: int): real
    requires 0 <= i < 4 && 0 <= j < 4
  {
    Entry(Row4(m, i), j)
  }

  /** nalgebra's `Index<usize>`: linear indices run down each column. */
  function ColumnMajorIndex(m: Mat4, k: int): real
    requires 0 <= k < 16
  {
    At(m, k % 4, k / 4)
  }

  function Col4(m: Mat4, j: int): Vec4
    requires 0 <= j < 4
  {
    Vec4(Entry(m.r0, j), Entry(m.r1, j), Entry(m.r2, j), Entry(m.r3, j))
  }

  function MulVec4(m: Mat4, v: Vec4): Vec4 {
    Vec4(Dot4(m.r0, v), Dot4(m.r1, v), Dot4(m.r2, v), Dot4(m.r3, v))
  }

  function MulRow4(r: Vec4, b: Mat4): Vec4 {
    Vec4(Dot4(r, Col4(b, 0)), Dot4(r, Col4(b, 1)), Dot4(r, Col4(b, 2)), Dot4(r, Col4(b, 3)))
  }

  function Mul4(a: Mat4, b: Mat4): Mat4 {
    Mat4(MulRow4(a.r0, b), MulRow4(a.r1, b), MulRow4(a.r2, b), MulRow4(a.r3, b))
  }

  /** The bottom row of an affine transform. */
  const AffineBottom: Vec4 := Vec4(0.0, 0.0, 0.0, 1.0)

  predicate IsAffine(m: Mat4) {
    m.r3 == AffineBottom
  }

  /** The upper-left 3x3 block (the linear part), row by row. */
  function UpperLeft(m: Mat4): Mat3 {
    Mat3(Vec3(m.r0.x, m.r0.y, m.r0.z), Vec3(m.r1.x, m.r1.y, m.r1.z), Vec3(m.r2.x, m.r2.y, m.r2.z))
  }
}
