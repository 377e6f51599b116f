/** Rodrigues' formula for the rotation matrix about an axis,
        R = (1 - cos t) a a^T + cos t I + sin t [a]x,
    with cos t and sin t as the real parameters `c` and `s`. The axis is
    used as given: it is not normalised. */
module Rotations {
  import opened LinearAlgebra

  const ex: Vec3 := Vec3(1.0, 0.0, 0.0)
  const ey: Vec3 := Vec3(0.0, 1.0, 0.0)
  const ez: Vec3 := Vec3(0.0, 0.0, 1.0)

  /** Row by row cross product of the axis with -I, as numpy broadcasts it. */
  function CrossWithMinusIdentity(a: Vec3): Mat3
  {
    Mat3(Cross(a, Scale3(-1.0, ex)), Cross(a, Scale3(-1.0, ey)), Cross(a, Scale3(-1.0, ez)))
  }

  function RotationMatrix(a: Vec3, c: real, s: real): Mat3
  {
    MAdd(MAdd(MScale(1.0 - c, Outer(a, a)), MScale(c, Identity3)), MScale(s, CrossWithMinusIdentity(a)))
  }

  /** The cross-product part is the skew matrix [a]x, so [a]x v = a x v. */
  lemma CrossPartIsSkew(a: Vec3, v: Vec3)
    ensures CrossWithMinusIdentity(a) ==
      Mat3(Vec3(0.0, -a.z, a.y), Vec3(a.z, 0.0, -a.x), Vec3(-a.y, a.x, 0.0))
    ensures MatVec(CrossWithMinusIdentity(a), v) == Cross(a, v)
  {
  }

  /** a a^T entry by entry. */
  lemma OuterEntries(a: Vec3)
    ensures Outer(a, a) ==
      Mat3(Vec3(a.x * a.x, a.x * a.y, a.x * a.z),
           Vec3(a.y * a.x, a.y * a.y, a.y * a.z),
           Vec3(a.z * a.x, a.z * a.y, a.z * a.z))
  {
  }

  lemma ScaleEntries(k: real, p: real, q: real, r: real)
    ensures Scale3(k, Vec3(p, q, r)) == Vec3(k * p, k * q, k * r)
  {
  }

  /** The textbook form of Rodrigues' formula, entry by entry, for the axis
      (x, y, z), with t = 1 - cos. */
  function Rodrigues(x: real, y: real, z: real, c: real, s: real): Mat3
  {
    Mat3(Vec3((1.0 - c) * (x * x) + c, (1.0 - c) * (x * y) - s * z, (1.0 - c) * (x * z) + s * y),
         Vec3((1.0 - c) * (y * x) + s * z, (1.0 - c) * (y * y) + c, (1.0 - c) * (y * z) - s * x),
         Vec3((1.0 - c) * (z * x) - s * y, (1.0 - c) * (z * y) + s * x, (1.0 - c) * (z * z) + c))
  }

  /** Row by row, the matrix built from outer product, identity and cross
      product is the textbook formula. */
  lemma RotationRow0(a: Vec3, c: real, s: real)
    ensures RotationMatrix(a, c, s).r0 == Rodrigues(a.x, a.y, a.z, c, s).r0
  {
    OuterEntries(a);
    CrossPartIsSkew(a, a);
    ScaleEntries(1.0 - c, a.x * a.x, a.x * a.y, a.x * a.z);
    ScaleEntries(c, 1.0, 0.0, 0.0);
    ScaleEntries(s, 0.0, -a.z, a.y);
  }

  lemma RotationRow1(a: Vec3, c: real, s: real)
    ensures RotationMatrix(a, c, s).r1 == Rodrigues(a.x, a.y, a.z, c, s).r1
  {
    OuterEntries(a);
    CrossPartIsSkew(a, a);
    ScaleEntries(1.0 - c, a.y * a.x, a.y * a.y, a.y * a.z);
    ScaleEntries(c, 0.0, 1.0, 0.0);
    ScaleEntries(s, a.z, 0.0, -a.x);
  }

  lemma RotationRow2(a: Vec3, c: real, s: real)
    ensures RotationMatrix(a, c, s).r2 == Rodrigues(a.x, a.y, a.z, c, s).r2
  {
    OuterEntries(a);
    CrossPartIsSkew(a, a);
    ScaleEntries(1.0 - c, a.z * a.x, a.z * a.y, a.z * a.z);
    ScaleEntries(c, 0.0, 0.0, 1.0);
    ScaleEntries(s, -a.y, a.x, 0.0);
  }

  /** The matrix built from outer product, identity and cross product is the
      textbook formula. */
  lemma RotationEntries(a: Vec3, c: real, s: real)
    ensures RotationMatrix(a, c, s) == Rodrigues(a.x, a.y, a.z, c, s)
  {
    RotationRow0(a, c, s);
    RotationRow1(a, c, s);
    RotationRow2(a, c, s);
  }

  /** About the x axis the matrix is the familiar plane rotation of y and z. */
  lemma AxisX(c: real, s: real)
    ensures RotationMatrix(ex, c, s) == Mat3(Vec3(1.0, 0.0, 0.0), Vec3(0.0, c, -s), Vec3(0.0, s, c))
  {
    RotationEntries(ex, c, s);
    assert Rodrigues(1.0, 0.0, 0.0, c, s) == Mat3(Vec3(1.0, 0.0, 0.0), Vec3(0.0, c, -s), Vec3(0.0, s, c));
  }

  lemma AxisY(c: real, s: real)
    ensures RotationMatrix(ey, c, s) == Mat3(Vec3(c, 0.0, s), Vec3(0.0, 1.0, 0.0), Vec3(-s, 0.0, c))
  {
    RotationEntries(ey, c, s);
    assert Rodrigues(0.0, 1.0, 0.0, c, s) == Mat3(Vec3(c, 0.0, s), Vec3(0.0, 1.0, 0.0), Vec3(-s, 0.0, c));
  }

  lemma AxisZ(c: real, s: real)
    ensures RotationMatrix(ez, c, s) == Mat3(Vec3(c, -s, 0.0), Vec3(s, c, 0.0), Vec3(0.0, 0.0, 1.0))
  {
    RotationEntries(ez, c, s);
    assert Rodrigues(0.0, 0.0, 1.0, c, s) == Mat3(Vec3(c, -s, 0.0), Vec3(s, c, 0.0), Vec3(0.0, 0.0, 1.0));
  }

  lemma RodriguesZeroAngle(x: real, y: real, z: real)
    ensures Rodrigues(x, y, z, 1.0, 0.0) == Identity3
  {
    assert 0.0 * (x * x) == 0.0 && 0.0 * (y * y) == 0.0 && 0.0 * (z * z) == 0.0;
    assert 0.0 * (x * y) == 0.0 && 0.0 * (y * z) == 0.0 && 0.0 * (z * x) == 0.0;
    assert 0.0 * (y * x) == 0.0 && 0.0 * (z * y) == 0.0 && 0.0 * (x * z) == 0.0;
  }

  /** A zero angle (cos = 1, sin = 0) gives the identity for every axis. */
  lemma ZeroAngle(a: Vec3)
    ensures RotationMatrix(a, 1.0, 0.0) == Identity3
  {
    RotationEntries(a, 1.0, 0.0);
    RodriguesZeroAngle(a.x, a.y, a.z);
  }

  lemma RodriguesReverse(x: real, y: real, z: real, c: real, s: real)
    ensures Rodrigues(x, y, z, c, -s) == Transpose(Rodrigues(x, y, z, c, s))
  {
    assert (-s) * x == -(s * x) && (-s) * y == -(s * y) && (-s) * z == -(s * z);
    assert x * y == y * x && y * z == z * y && z * x == x * z;
  }

  /** Reversing the angle (sin -> -sin) transposes the matrix. */
  lemma ReverseIsTranspose(a: Vec3, c: real, s: real)
    ensures RotationMatrix(a, c, -s) == Transpose(RotationMatrix(a, c, s))
  {
    RotationEntries(a, c, s);
    RotationEntries(a, c, -s);
    RodriguesReverse(a.x, a.y, a.z, c, s);
  }

  // ---------------------------------------------------------------------
  // Orthogonality: R R^T = I for a unit axis and c^2 + s^2 = 1
  // ---------------------------------------------------------------------

  /** (1 - c)^2 + 2 (1 - c) c - s^2 = 1 - c^2 - s^2, which is 0 on the
      unit circle. */
  lemma CosineTerms(c: real, s: real)
    requires c * c + s * s == 1.0
    ensures (1.0 - c) * (1.0 - c) + 2.0 * ((1.0 - c) * c) - s * s == 0.0
  {
  }

  /** The squared length of row 0, multiplied out. */
  lemma RowNormExpand(x: real, y: real, z: real, c: real, s: real, t: real)
    ensures var u := Vec3(t * (x * x) + c, t * (x * y) - s * z, t * (x * z) + s * y);
      Dot3(u, u) == (t * t) * ((x * x) * (x * x + y * y + z * z)) + 2.0 * (t * c) * (x * x) + c * c + (s * s) * (y * y + z * z)
  {
    assert (t * (x * x) + c) * (t * (x * x) + c) == (t * t) * ((x * x) * (x * x)) + 2.0 * (t * c) * (x * x) + c * c;
    assert (t * (x * y) - s * z) * (t * (x * y) - s * z) == (t * t) * ((x * x) * (y * y)) - 2.0 * (t * s) * (x * y * z) + (s * s) * (z * z);
    assert (t * (x * z) + s * y) * (t * (x * z) + s * y) == (t * t) * ((x * x) * (z * z)) + 2.0 * (t * s) * (x * y * z) + (s * s) * (y * y);
  }

  /** The squared length once x^2 + y^2 + z^2 = 1 and the cosine terms
      cancel; the products are plain unknowns here. */
  lemma RowNormCombine(xx: real, n: real, yz: real, tt: real, tc: real, cc: real, ss: real)
    requires n == 1.0 && yz == 1.0 - xx && tt + 2.0 * tc - ss == 0.0 && cc + ss == 1.0
    ensures tt * (xx * n) + 2.0 * tc * xx + cc + ss * yz == 1.0
  {
    assert tt * (xx * n) == tt * xx;
    assert ss * yz == ss - ss * xx;
    assert tt * xx + 2.0 * tc * xx - ss * xx == (tt + 2.0 * tc - ss) * xx;
  }

  /** Row 0 of R has unit length: a polynomial identity. */
  lemma RowNormPoly(x: real, y: real, z: real, c: real, s: real)
    requires x * x + y * y + z * z == 1.0 && c * c + s * s == 1.0
    ensures var u := Vec3((1.0 - c) * (x * x) + c, (1.0 - c) * (x * y) - s * z, (1.0 - c) * (x * z) + s * y);
      Dot3(u, u) == 1.0
  {
    RowNormExpand(x, y, z, c, s, 1.0 - c);
    CosineTerms(c, s);
    RowNormCombine(x * x, x * x + y * y + z * z, y * y + z * z, (1.0 - c) * (1.0 - c), (1.0 - c) * c, c * c, s * s);
  }

  /** The dot product of rows 0 and 1, multiplied out. */
  lemma RowsOrthogonalExpand(x: real, y: real, z: real, c: real, s: real, t: real)
    ensures var u := Vec3(t * (x * x) + c, t * (x * y) - s * z, t * (x * z) + s * y);
      var v := Vec3(t * (y * x) + s * z, t * (y * y) + c, t * (y * z) - s * x);
      Dot3(u, v) == (t * t) * ((x * y) * (x * x + y * y + z * z)) + (2.0 * (t * c) - s * s) * (x * y)
  {
    assert (t * (x * x) + c) * (t * (y * x) + s * z)
      == (t * t) * ((x * y) * (x * x)) + (t * s) * (x * x * z) + (t * c) * (x * y) + c * (s * z);
    assert (t * (x * y) - s * z) * (t * (y * y) + c)
      == (t * t) * ((x * y) * (y * y)) + (t * c) * (x * y) - (t * s) * (y * y * z) - c * (s * z);
    assert (t * (x * z) + s * y) * (t * (y * z) - s * x)
      == (t * t) * ((x * y) * (z * z)) - (t * s) * (x * x * z) + (t * s) * (y * y * z) - (s * s) * (x * y);
  }

  /** The dot product once x^2 + y^2 + z^2 = 1 and the cosine terms cancel. */
  lemma RowsOrthogonalCombine(xy: real, n: real, tt: real, tc: real, ss: real)
    requires n == 1.0 && tt + 2.0 * tc - ss == 0.0
    ensures tt * (xy * n) + (2.0 * tc - ss) * xy == 0.0
  {
    assert tt * (xy * n) == tt * xy;
    assert tt * xy + (2.0 * tc - ss) * xy == (tt + 2.0 * tc - ss) * xy;
  }

  /** Rows 0 and 1 of R are orthogonal: a polynomial identity. */
  lemma RowsOrthogonalPoly(x: real, y: real, z: real, c: real, s: real)
    requires x * x + y * y + z * z == 1.0 && c * c + s * s == 1.0
    ensures var u := Vec3((1.0 - c) * (x * x) + c, (1.0 - c) * (x * y) - s * z, (1.0 - c) * (x * z) + s * y);
      var v := Vec3((1.0 - c) * (y * x) + s * z, (1.0 - c) * (y * y) + c, (1.0 - c) * (y * z) - s * x);
      Dot3(u, v) == 0.0
  {
    RowsOrthogonalExpand(x, y, z, c, s, 1.0 - c);
    CosineTerms(c, s);
    RowsOrthogonalCombine(x * y, x * x + y * y + z * z, (1.0 - c) * (1.0 - c), (1.0 - c) * c, s * s);
  }

  /** Row 0 of R has unit length. */
  lemma RowNorm(x: real, y: real, z: real, c: real, s: real)
    requires x * x + y * y + z * z == 1.0 && c * c + s * s == 1.0
    ensures var m := Rodrigues(x, y, z, c, s); Dot3(m.r0, m.r0) == 1.0
  {
    RowNormPoly(x, y, z, c, s);
  }

  /** Rows 0 and 1 of R are orthogonal. */
  lemma RowsOrthogonal(x: real, y: real, z: real, c: real, s: real)
    requires x * x + y * y + z * z == 1.0 && c * c + s * s == 1.0
    ensures var m := Rodrigues(x, y, z, c, s); Dot3(m.r0, m.r1) == 0.0
  {
    RowsOrthogonalPoly(x, y, z, c, s);
  }

  /** Relabelling the axes cyclically, x -> y -> z -> x, moves every row of
      R one place up and rotates its entries. */
  lemma Cyclic(x: real, y: real, z: real, c: real, s: real)
    ensures var m := Rodrigues(x, y, z, c, s); var p := Rodrigues(y, z, x, c, s);
      p.r0 == Vec3(m.r1.y, m.r1.z, m.r1.x) && p.r1 == Vec3(m.r2.y, m.r2.z, m.r2.x)
      && p.r2 == Vec3(m.r0.y, m.r0.z, m.r0.x)
  {
  }

  /** Dot products are unchanged when both vectors have their entries
      rotated cyclically, and are symmetric. */
  lemma DotRotated(u: Vec3, v: Vec3)
    ensures Dot3(Vec3(u.y, u.z, u.x), Vec3(v.y, v.z, v.x)) == Dot3(u, v)
    ensures Dot3(u, v) == Dot3(v, u)
  {
  }

  lemma RodriguesOrthogonal(x: real, y: real, z: real, c: real, s: real)
    requires x * x + y * y + z * z == 1.0 && c * c + s * s == 1.0
    ensures var m := Rodrigues(x, y, z, c, s); MMul(m, Transpose(m)) == Identity3
  {
    var m := Rodrigues(x, y, z, c, s);
    // relabelling the axes once and twice moves rows 1 and 2 into row 0
    var p := Rodrigues(y, z, x, c, s);
    var q := Rodrigues(z, x, y, c, s);
    Cyclic(x, y, z, c, s);
    Cyclic(y, z, x, c, s);
    RowNorm(x, y, z, c, s);
    RowNorm(y, z, x, c, s);
    RowNorm(z, x, y, c, s);
    RowsOrthogonal(x, y, z, c, s);
    RowsOrthogonal(y, z, x, c, s);
    RowsOrthogonal(z, x, y, c, s);
    DotRotated(m.r1, m.r1);
    DotRotated(m.r2, m.r2);
    DotRotated(m.r1, m.r2);
    DotRotated(m.r2, m.r0);
    DotRotated(Vec3(m.r2.y, m.r2.z, m.r2.x), Vec3(m.r2.y, m.r2.z, m.r2.x));
    DotRotated(Vec3(m.r2.y, m.r2.z, m.r2.x), Vec3(m.r0.y, m.r0.z, m.r0.x));
    DotRotated(m.r0, m.r1);
    DotRotated(m.r1, m.r2);
    var mt := Transpose(m);
    assert Col0(mt) == m.r0 && Col1(mt) == m.r1 && Col2(mt) == m.r2;
  }

  /** For a unit axis and cos^2 + sin^2 = 1 the matrix is orthogonal. */
  lemma Orthogonal(a: Vec3, c: real, s: real)
    requires Dot3(a, a) == 1.0 && c * c + s * s == 1.0
    ensures MMul(RotationMatrix(a, c, s), Transpose(RotationMatrix(a, c, s))) == Identity3
  {
    RodriguesOrthogonal(a.x, a.y, a.z, c, s);
    RotationEntries(a, c, s);
  }

  // ---------------------------------------------------------------------
  // The axis is fixed
  // ---------------------------------------------------------------------

  /** Row 0 of R applied to a unit axis gives its x component. */
  lemma FixedRow(x: real, y: real, z: real, c: real, s: real)
    requires x * x + y * y + z * z == 1.0
    ensures var u := Vec3((1.0 - c) * (x * x) + c, (1.0 - c) * (x * y) - s * z, (1.0 - c) * (x * z) + s * y);
      Dot3(u, Vec3(x, y, z)) == x
  {
    var t := 1.0 - c;
    var n := x * x + y * y + z * z;
    assert (t * (x * x) + c) * x + (t * (x * y) - s * z) * y + (t * (x * z) + s * y) * z
      == (t * x) * n + c * x;
    assert (t * x) * n == t * x;
  }

  lemma RodriguesFixesAxis(x: real, y: real, z: real, c: real, s: real)
    requires x * x + y * y + z * z == 1.0
    ensures MatVec(Rodrigues(x, y, z, c, s), Vec3(x, y, z)) == Vec3(x, y, z)
  {
    var m := Rodrigues(x, y, z, c, s);
    var v := Vec3(x, y, z);
    Cyclic(x, y, z, c, s);
    Cyclic(y, z, x, c, s);
    FixedRow(x, y, z, c, s);
    FixedRow(y, z, x, c, s);
    FixedRow(z, x, y, c, s);
    DotRotated(m.r1, v);
    DotRotated(m.r2, v);
    DotRotated(Vec3(m.r2.y, m.r2.z, m.r2.x), Vec3(y, z, x));
  }

  /** A unit axis is left fixed. */
  lemma FixesAxis(a: Vec3, c: real, s: real)
    requires Dot3(a, a) == 1.0
    ensures MatVec(RotationMatrix(a, c, s), a) == a
  {
    RodriguesFixesAxis(a.x, a.y, a.z, c, s);
    RotationEntries(a, c, s);
  }
}
