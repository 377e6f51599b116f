/** Exact real and complex linear algebra shared by the model: 3-vectors and
    3x3 matrices as records, general matrices as sequences of rows, and
    finite sums with the lemmas the other modules need about them. */
module LinearAlgebra {

  // ---------------------------------------------------------------------
  // Three-dimensional vectors and matrices
  // ---------------------------------------------------------------------

  datatype Vec3 = Vec3(x: real, y: real, z: real)

  /** A 3x3 matrix given by its three rows. */
  datatype Mat3 = Mat3(r0: Vec3, r1: Vec3, r2: Vec3)

  const Origin: Vec3 := Vec3(0.0, 0.0, 0.0)

  function Dot3(u: Vec3, v: Vec3): real
  {
    u.x * v.x + u.y * v.y + u.z * v.z
  }

  function Scale3(a: real, v: Vec3): Vec3
  {
    Vec3(a * v.x, a * v.y, a * v.z)
  }

  function Sub3(u: Vec3, v: Vec3): Vec3
  {
    Vec3(u.x - v.x, u.y - v.y, u.z - v.z)
  }

  function Cross(u: Vec3, v: Vec3): Vec3
  {
    Vec3(u.y * v.z - u.z * v.y, u.z * v.x - u.x * v.z, u.x * v.y - u.y * v.x)
  }

  /** Squared Euclidean distance between two points. */
  function Dist2(u: Vec3, v: Vec3): real
  {
    var r := Sub3(u, v);
    Dot3(r, r)
  }

  function Col0(m: Mat3): Vec3 { Vec3(m.r0.x, m.r1.x, m.r2.x) }
  function Col1(m: Mat3): Vec3 { Vec3(m.r0.y, m.r1.y, m.r2.y) }
  function Col2(m: Mat3): Vec3 { Vec3(m.r0.z, m.r1.z, m.r2.z) }

  const Identity3: Mat3 := Mat3(Vec3(1.0, 0.0, 0.0), Vec3(0.0, 1.0, 0.0), Vec3(0.0, 0.0, 1.0))

  function MAdd(a: Mat3, b: Mat3): Mat3
  {
    Mat3(Vec3(a.r0.x + b.r0.x, a.r0.y + b.r0.y, a.r0.z + b.r0.z),
         Vec3(a.r1.x + b.r1.x, a.r1.y + b.r1.y, a.r1.z + b.r1.z),
         Vec3(a.r2.x + b.r2.x, a.r2.y + b.r2.y, a.r2.z + b.r2.z))
  }

  function MScale(k: real, a: Mat3): Mat3
  {
    Mat3(Scale3(k, a.r0), Scale3(k, a.r1), Scale3(k, a.r2))
  }

  function MSub(a: Mat3, b: Mat3): Mat3
  {
    MAdd(a, MScale(-1.0, b))
  }

  function Transpose(a: Mat3): Mat3
  {
    Mat3(Col0(a), Col1(a), Col2(a))
  }

  /** The matrix product a . b. */
  function MMul(a: Mat3, b: Mat3): Mat3
  {
    Mat3(Vec3(Dot3(a.r0, Col0(b)), Dot3(a.r0, Col1(b)), Dot3(a.r0, Col2(b))),
         Vec3(Dot3(a.r1, Col0(b)), Dot3(a.r1, Col1(b)), Dot3(a.r1, Col2(b))),
         Vec3(Dot3(a.r2, Col0(b)), Dot3(a.r2, Col1(b)), Dot3(a.r2, Col2(b))))
  }

  /** The outer product u v^T. */
  function Outer(u: Vec3, v: Vec3): Mat3
  {
    Mat3(Scale3(u.x, v), Scale3(u.y, v), Scale3(u.z, v))
  }

  /** The column-vector product m . v. */
  function MatVec(m: Mat3, v: Vec3): Vec3
  {
    Vec3(Dot3(m.r0, v), Dot3(m.r1, v), Dot3(m.r2, v))
  }

  /** The row-vector product v . m (numpy's `positions @ M` row by row). */
  function VecMat(v: Vec3, m: Mat3): Vec3
  {
    Vec3(Dot3(v, Col0(m)), Dot3(v, Col1(m)), Dot3(v, Col2(m)))
  }

  // ---------------------------------------------------------------------
  // Complex numbers as pairs of reals
  // ---------------------------------------------------------------------

  datatype Complex = Complex(re: real, im: real)

  const CZero: Complex := Complex(0.0, 0.0)
  const COne: Complex := Complex(1.0, 0.0)

  function CAdd(a: Complex, b: Complex): Complex
  {
    Complex(a.re + b.re, a.im + b.im)
  }

  function CMul(a: Complex, b: Complex): Complex
  {
    Complex(a.re * b.re - a.im * b.im, a.re * b.im + a.im * b.re)
  }

  function CConj(a: Complex): Complex
  {
    Complex(a.re, -a.im)
  }

  function FromReal(x: real): Complex
  {
    Complex(x, 0.0)
  }

  // ---------------------------------------------------------------------
  // Matrices as sequences of rows
  // ---------------------------------------------------------------------

  /** `m` has `rows` rows of `cols` entries each. */
  ghost predicate IsMatrix<T>(m: seq<seq<T>>, rows: nat, cols: nat)
  {
    |m| == rows && forall i :: 0 <= i < rows ==> |m[i]| == cols
  }

  function RealIdentity(n: nat): (r: seq<seq<real>>)
    ensures IsMatrix(r, n, n)
  {
    seq(n, i => seq(n, j => if i == j then 1.0 else 0.0))
  }

  function ComplexIdentity(n: nat): (r: seq<seq<Complex>>)
    ensures IsMatrix(r, n, n)
  {
    seq(n, i => seq(n, j => if i == j then COne else CZero))
  }

  function SumC(s: seq<Complex>): Complex
  {
    if |s| == 0 then CZero else CAdd(SumC(s[..|s| - 1]), s[|s| - 1])
  }

  function SumR(s: seq<real>): real
  {
    if |s| == 0 then 0.0 else SumR(s[..|s| - 1]) + s[|s| - 1]
  }

  /** Entry (i, j) of the product a . b of complex matrices. */
  function RowColC(a: seq<seq<Complex>>, b: seq<seq<Complex>>, i: nat, j: nat): Complex
    requires i < |a| && |a[i]| <= |b| && forall k :: 0 <= k < |b| ==> j < |b[k]|
  {
    SumC(seq(|a[i]|, k requires 0 <= k < |a[i]| => CMul(a[i][k], b[k][j])))
  }

  /** The product of an r x n and an n x c complex matrix. */
  function MatMulC(a: seq<seq<Complex>>, b: seq<seq<Complex>>, r: nat, n: nat, c: nat): (p: seq<seq<Complex>>)
    requires IsMatrix(a, r, n) && IsMatrix(b, n, c)
    ensures IsMatrix(p, r, c)
  {
    seq(r, i requires 0 <= i < r => seq(c, j requires 0 <= j < c => RowColC(a, b, i, j)))
  }

  function ConjTranspose(a: seq<seq<Complex>>, r: nat, c: nat): (t: seq<seq<Complex>>)
    requires IsMatrix(a, r, c)
    ensures IsMatrix(t, c, r)
  {
    seq(c, i requires 0 <= i < c => seq(r, j requires 0 <= j < r => CConj(a[j][i])))
  }

  function RealPart(a: seq<seq<Complex>>, r: nat, c: nat): (t: seq<seq<real>>)
    requires IsMatrix(a, r, c)
    ensures IsMatrix(t, r, c)
  {
    seq(r, i requires 0 <= i < r => seq(c, j requires 0 <= j < c => a[i][j].re))
  }

  function ToComplex(a: seq<seq<real>>, r: nat, c: nat): (t: seq<seq<Complex>>)
    requires IsMatrix(a, r, c)
    ensures IsMatrix(t, r, c)
  {
    seq(r, i requires 0 <= i < r => seq(c, j requires 0 <= j < c => FromReal(a[i][j])))
  }

  function Diagonal(d: seq<Complex>): (m: seq<seq<Complex>>)
    ensures IsMatrix(m, |d|, |d|)
  {
    seq(|d|, i requires 0 <= i < |d| => seq(|d|, j requires 0 <= j < |d| => if i == j then d[i] else CZero))
  }

  // ---------------------------------------------------------------------
  // Sums with few nonzero terms
  // ---------------------------------------------------------------------

  /** A sum whose every term is zero is zero. */
  lemma {:induction false} SumCZeros(s: seq<Complex>)
    requires forall k :: 0 <= k < |s| ==> s[k] == CZero
    ensures SumC(s) == CZero
  {
    if |s| > 0 {
      SumCZeros(s[..|s| - 1]);
    }
  }

  /** A sum whose only nonzero term is at index a equals that term. */
  lemma {:induction false} SumCSingle(s: seq<Complex>, a: nat)
    requires a < |s|
    requires forall k :: 0 <= k < |s| && k != a ==> s[k] == CZero
    ensures SumC(s) == s[a]
  {
    var p := s[..|s| - 1];
    assert SumC(s) == CAdd(SumC(p), s[|s| - 1]);
    if a == |s| - 1 {
      SumCZeros(p);
      assert SumC(p) == CZero;
    } else {
      SumCSingle(p, a);
      assert SumC(p) == s[a];
      assert s[|s| - 1] == CZero;
    }
  }

  /** A sum whose only nonzero terms are at two distinct indices a and b. */
  lemma {:induction false} SumCPair(s: seq<Complex>, a: nat, b: nat)
    requires a < |s| && b < |s| && a != b
    requires forall k :: 0 <= k < |s| && k != a && k != b ==> s[k] == CZero
    ensures SumC(s) == CAdd(s[a], s[b])
  {
    var p := s[..|s| - 1];
    assert SumC(s) == CAdd(SumC(p), s[|s| - 1]);
    assert forall k :: 0 <= k < |p| ==> p[k] == s[k];
    if a == |s| - 1 {
      SumCSingle(p, b);
    } else if b == |s| - 1 {
      SumCSingle(p, a);
    } else {
      SumCPair(p, a, b);
    }
  }

  /** Multiplying by the identity on the right changes nothing. */
  lemma MatMulIdentityRight(a: seq<seq<Complex>>, r: nat, n: nat)
    requires IsMatrix(a, r, n)
    ensures MatMulC(a, ComplexIdentity(n), r, n, n) == a
  {
    var p := MatMulC(a, ComplexIdentity(n), r, n, n);
    forall i | 0 <= i < r
      ensures p[i] == a[i]
    {
      forall j | 0 <= j < n
        ensures p[i][j] == a[i][j]
      {
        var s := seq(|a[i]|, k requires 0 <= k < |a[i]| => CMul(a[i][k], ComplexIdentity(n)[k][j]));
        SumCSingle(s, j);
      }
    }
  }

  /** A diagonal factor on the left scales row i by d[i]. */
  lemma DiagonalLeft(d: seq<Complex>, a: seq<seq<Complex>>, c: nat, i: nat, j: nat)
    requires IsMatrix(a, |d|, c) && i < |d| && j < c
    ensures MatMulC(Diagonal(d), a, |d|, |d|, c)[i][j] == CMul(d[i], a[i][j])
  {
    var s := seq(|d|, k requires 0 <= k < |d| => CMul(Diagonal(d)[i][k], a[k][j]));
    SumCSingle(s, i);
  }

  /** A diagonal factor on the right scales column j by d[j]. */
  lemma DiagonalRight(a: seq<seq<Complex>>, d: seq<Complex>, r: nat, i: nat, j: nat)
    requires IsMatrix(a, r, |d|) && i < r && j < |d|
    ensures MatMulC(a, Diagonal(d), r, |d|, |d|)[i][j] == CMul(a[i][j], d[j])
  {
    var s := seq(|d|, k requires 0 <= k < |d| => CMul(a[i][k], Diagonal(d)[k][j]));
    SumCSingle(s, j);
  }

  /** The identity as a complex matrix and back. */
  lemma ToComplexIdentity(n: nat)
    ensures ToComplex(RealIdentity(n), n, n) == ComplexIdentity(n)
  {
    var a := ToComplex(RealIdentity(n), n, n);
    forall i | 0 <= i < n
      ensures a[i] == ComplexIdentity(n)[i]
    {
    }
  }

  lemma RealPartIdentity(n: nat)
    ensures RealPart(ComplexIdentity(n), n, n) == RealIdentity(n)
  {
    var a := RealPart(ComplexIdentity(n), n, n);
    forall i | 0 <= i < n
      ensures a[i] == RealIdentity(n)[i]
    {
    }
  }

  // ---------------------------------------------------------------------
  // Products of 3x3 matrices
  // ---------------------------------------------------------------------

  /** p . (a v) == (p a) . v */
  lemma DotMatVec(p: Vec3, a: Mat3, v: Vec3)
    ensures Dot3(p, MatVec(a, v)) == Dot3(VecMat(p, a), v)
  {
  }

  /** Row vectors see a product one factor at a time: p (a b) == (p a) b. */
  lemma VecMatMMul(p: Vec3, a: Mat3, b: Mat3)
    ensures VecMat(p, MMul(a, b)) == VecMat(VecMat(p, a), b)
  {
    var ab := MMul(a, b);
    assert Col0(ab) == MatVec(a, Col0(b)) && Col1(ab) == MatVec(a, Col1(b)) && Col2(ab) == MatVec(a, Col2(b));
    DotMatVec(p, a, Col0(b));
    DotMatVec(p, a, Col1(b));
    DotMatVec(p, a, Col2(b));
  }

  /** Row vectors act linearly. */
  lemma VecMatScale(k: real, p: Vec3, m: Mat3)
    ensures VecMat(Scale3(k, p), m) == Scale3(k, VecMat(p, m))
  {
    assert Dot3(Scale3(k, p), Col0(m)) == k * Dot3(p, Col0(m));
    assert Dot3(Scale3(k, p), Col1(m)) == k * Dot3(p, Col1(m));
    assert Dot3(Scale3(k, p), Col2(m)) == k * Dot3(p, Col2(m));
  }

  lemma VecMatTranspose(p: Vec3, m: Mat3)
    ensures VecMat(p, m) == MatVec(Transpose(m), p)
  {
  }

  lemma VecMatIdentity(p: Vec3)
    ensures VecMat(p, Identity3) == p
  {
  }
}
