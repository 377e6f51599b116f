/** The change of basis from complex to real (tesseral) spherical harmonics
    of order l, and the constant permutation from the (y, z, x) ordering of
    the l = 1 harmonics to Cartesian (x, y, z).

    The constant 1/sqrt(2) is a parameter `h`; every property that depends
    on its value assumes only h * h == 1/2. */
module Tesseral {
  import opened LinearAlgebra

  function Abs(m: int): nat
  {
    if m < 0 then -m else m
  }

  /** (-1)^m * x for any integer m, negative m included. */
  function Signed(m: int, x: real): real
  {
    if m % 2 == 0 then x else -x
  }

  /** `h` stands for 1/sqrt(2). */
  ghost predicate IsInvSqrt2(h: real)
  {
    h > 0.0 && h * h == 0.5
  }

  /** Entry (i, j) as the double loop leaves it, with m1 = i - l, m2 = j - l;
      the centre entry is set afterwards. */
  function LoopEntry(l: nat, h: real, i: int, j: int): Complex
  {
    var m1 := i - l;
    var m2 := j - l;
    if Abs(m1) != Abs(m2) then CZero
    else if m1 < 0 then
      (if m2 < 0 then Complex(0.0, h) else if m2 > 0 then Complex(0.0, -(Signed(m1, h))) else CZero)
    else if m1 > 0 then
      (if m2 < 0 then Complex(h, 0.0) else if m2 > 0 then Complex(Signed(m1, h), 0.0) else CZero)
    else CZero
  }

  /** Entry (i, j) of the finished transformation matrix. */
  function Entry(l: nat, h: real, i: int, j: int): Complex
  {
    if i == l && j == l then COne else LoopEntry(l, h, i, j)
  }

  /** The (2l+1) x (2l+1) tesseral transformation as a value. */
  function TesseralMatrix(l: nat, h: real): (t: seq<seq<Complex>>)
    ensures IsMatrix(t, 2 * l + 1, 2 * l + 1)
  {
    seq(2 * l + 1, i => seq(2 * l + 1, j => Entry(l, h, i, j)))
  }

  /** Builds the matrix the way the source does: a zero matrix, a double loop
      over (m1, m2) that fills the |m1| == |m2| entries, then the centre. */
  method TesseralTransformation(l: nat, h: real) returns (t: array2<Complex>)
    ensures fresh(t) && t.Length0 == 2 * l + 1 && t.Length1 == 2 * l + 1
    ensures forall i, j :: 0 <= i < 2 * l + 1 && 0 <= j < 2 * l + 1 ==> t[i, j] == Entry(l, h, i, j)
  {
    var n := 2 * l + 1;
    t := new Complex[n, n]((i, j) => CZero);
    for i := 0 to n
      invariant forall a, b :: 0 <= a < n && 0 <= b < n ==>
        t[a, b] == (if a < i then LoopEntry(l, h, a, b) else CZero)
    {
      for j := 0 to n
        invariant forall a, b :: 0 <= a < n && 0 <= b < n ==>
          t[a, b] == (if a < i || (a == i && b < j) then LoopEntry(l, h, a, b) else CZero)
      {
        var m1 := i - l;
        var m2 := j - l;
        if Abs(m1) != Abs(m2) {
          continue;
        }
        if m1 < 0 {
          if m2 < 0 {
            t[i, j] := Complex(0.0, h);
          } else if m2 > 0 {
            t[i, j] := Complex(0.0, -(Signed(m1, h)));
          }
        }
        if m1 > 0 {
          if m2 < 0 {
            t[i, j] := Complex(h, 0.0);
          } else if m2 > 0 {
            t[i, j] := Complex(Signed(m1, h), 0.0);
          }
        }
      }
    }
    t[l, l] := COne;
  }

  // ---------------------------------------------------------------------
  // The entry rule
  // ---------------------------------------------------------------------

  /** Entries with |m1| != |m2| vanish. */
  lemma SparsityPattern(l: nat, h: real, i: int, j: int)
    requires Abs(i - l) != Abs(j - l)
    ensures Entry(l, h, i, j) == CZero
  {
  }

  /** The middle row is the unit vector at the centre. */
  lemma CentreRow(l: nat, h: real, j: int)
    requires 0 <= j < 2 * l + 1
    ensures Entry(l, h, l, j) == (if j == l then COne else CZero)
  {
  }

  /** A row with m1 < 0 is purely imaginary: i h at m2 = m1 and
      -(-1)^m1 i h at m2 = -m1, zero elsewhere. */
  lemma NegativeRow(l: nat, h: real, i: int, j: int)
    requires 0 <= i < l && 0 <= j < 2 * l + 1
    ensures Entry(l, h, i, j).re == 0.0
    ensures j == i ==> Entry(l, h, i, j) == Complex(0.0, h)
    ensures j == 2 * l - i ==> Entry(l, h, i, j) == Complex(0.0, -(Signed(i - l, h)))
    ensures j != i && j != 2 * l - i ==> Entry(l, h, i, j) == CZero
  {
  }

  /** A row with m1 > 0 is purely real: h at m2 = -m1 and (-1)^m1 h at m2 = m1. */
  lemma PositiveRow(l: nat, h: real, i: int, j: int)
    requires l < i < 2 * l + 1 && 0 <= j < 2 * l + 1
    ensures Entry(l, h, i, j).im == 0.0
    ensures j == 2 * l - i ==> Entry(l, h, i, j) == Complex(h, 0.0)
    ensures j == i ==> Entry(l, h, i, j) == Complex(Signed(i - l, h), 0.0)
    ensures j != i && j != 2 * l - i ==> Entry(l, h, i, j) == CZero
  {
  }

  /** The literal l = 1 reference table. */
  lemma TableL1(h: real)
    ensures TesseralMatrix(1, h) ==
      [[Complex(0.0, h), CZero, Complex(0.0, h)],
       [CZero, COne, CZero],
       [Complex(h, 0.0), CZero, Complex(-h, 0.0)]]
  {
    var t := TesseralMatrix(1, h);
    assert t[0] == [Complex(0.0, h), CZero, Complex(0.0, h)];
    assert t[1] == [CZero, COne, CZero];
    assert t[2] == [Complex(h, 0.0), CZero, Complex(-h, 0.0)];
  }

  /** The literal l = 2 reference table. */
  lemma TableL2(h: real)
    ensures TesseralMatrix(2, h) ==
      [[Complex(0.0, h), CZero, CZero, CZero, Complex(0.0, -h)],
       [CZero, Complex(0.0, h), CZero, Complex(0.0, h), CZero],
       [CZero, CZero, COne, CZero, CZero],
       [CZero, Complex(h, 0.0), CZero, Complex(-h, 0.0), CZero],
       [Complex(h, 0.0), CZero, CZero, CZero, Complex(h, 0.0)]]
  {
    var t := TesseralMatrix(2, h);
    assert t[0] == [Complex(0.0, h), CZero, CZero, CZero, Complex(0.0, -h)];
    assert t[1] == [CZero, Complex(0.0, h), CZero, Complex(0.0, h), CZero];
    assert t[2] == [CZero, CZero, COne, CZero, CZero];
    assert t[3] == [CZero, Complex(h, 0.0), CZero, Complex(-h, 0.0), CZero];
    assert t[4] == [Complex(h, 0.0), CZero, CZero, CZero, Complex(h, 0.0)];
  }

  // ---------------------------------------------------------------------
  // Unitarity
  // ---------------------------------------------------------------------

  /** The terms T[i][j] * conj(T[k][j]) of entry (i, k) of T . T^H. */
  function GramTerms(l: nat, h: real, i: nat, k: nat): seq<Complex>
  {
    seq(2 * l + 1, j => CMul(Entry(l, h, i, j), CConj(Entry(l, h, k, j))))
  }

  /** Outside the columns i and 2l - i a row is zero. */
  lemma RowSupport(l: nat, h: real, i: nat, j: int)
    requires i < 2 * l + 1 && j != i && j != 2 * l - i
    ensures Entry(l, h, i, j) == CZero
  {
  }

  /** (-1)^m x is x or -x, and (-1)^(-m) = (-1)^m. */
  lemma SignedSymmetric(m: int, x: real)
    ensures Signed(m, x) == x || Signed(m, x) == -x
    ensures Signed(-m, x) == Signed(m, x)
  {
  }

  /** With q = +-h, q^2 = h^2. */
  lemma SignedSquare(q: real, h: real)
    requires q == h || q == -h
    ensures q * q == h * h && (-q) * (-q) == h * h && (-q) * q == -(h * h)
  {
    if q == h {
    } else {
      assert q * q == (-h) * (-h);
    }
  }

  // The four shapes of product a * conj(b) between purely real and purely
  // imaginary numbers.
  lemma ImIm(a: real, b: real)
    ensures CMul(Complex(0.0, a), CConj(Complex(0.0, b))) == Complex(a * b, 0.0)
  {
  }

  lemma ImRe(a: real, b: real)
    ensures CMul(Complex(0.0, a), CConj(Complex(b, 0.0))) == Complex(0.0, a * b)
  {
  }

  lemma ReIm(a: real, b: real)
    ensures CMul(Complex(a, 0.0), CConj(Complex(0.0, b))) == Complex(0.0, -(a * b))
  {
  }

  lemma ReRe(a: real, b: real)
    ensures CMul(Complex(a, 0.0), CConj(Complex(b, 0.0))) == Complex(a * b, 0.0)
  {
  }

  /** The arithmetic of a row with m1 < 0 against itself or against row -m1. */
  lemma NegativeRowGram(h: real, q: real, eii: Complex, eii': Complex, eki: Complex, eki': Complex, same: bool)
    requires h * h == 0.5 && (q == h || q == -h)
    requires eii == Complex(0.0, h) && eii' == Complex(0.0, -q)
    requires same ==> eki == eii && eki' == eii'
    requires !same ==> eki == Complex(h, 0.0) && eki' == Complex(q, 0.0)
    ensures CAdd(CMul(eii, CConj(eki)), CMul(eii', CConj(eki'))) == (if same then COne else CZero)
  {
    SignedSquare(q, h);
    if same {
      ImIm(h, h);
      ImIm(-q, -q);
      assert CMul(eii, CConj(eki)) == Complex(h * h, 0.0);
      assert CMul(eii', CConj(eki')) == Complex(h * h, 0.0);
    } else {
      ImRe(h, h);
      ImRe(-q, q);
      assert CMul(eii, CConj(eki)) == Complex(0.0, h * h);
      assert CMul(eii', CConj(eki')) == Complex(0.0, -(h * h));
    }
  }

  /** The arithmetic of a row with m1 > 0 against itself or against row -m1. */
  lemma PositiveRowGram(h: real, q: real, eii: Complex, eii': Complex, eki: Complex, eki': Complex, same: bool)
    requires h * h == 0.5 && (q == h || q == -h)
    requires eii == Complex(q, 0.0) && eii' == Complex(h, 0.0)
    requires same ==> eki == eii && eki' == eii'
    requires !same ==> eki == Complex(0.0, -q) && eki' == Complex(0.0, h)
    ensures CAdd(CMul(eii, CConj(eki)), CMul(eii', CConj(eki'))) == (if same then COne else CZero)
  {
    SignedSquare(q, h);
    if same {
      ReRe(q, q);
      ReRe(h, h);
      assert CMul(eii, CConj(eki)) == Complex(h * h, 0.0);
      assert CMul(eii', CConj(eki')) == Complex(h * h, 0.0);
    } else {
      ReIm(q, -q);
      ReIm(h, h);
      assert CMul(eii, CConj(eki)) == Complex(0.0, h * h);
      assert CMul(eii', CConj(eki')) == Complex(0.0, -(h * h));
    }
  }

  // In what follows r = 2l - i is the index of the mirrored order -m1; it is
  // passed as a variable of its own so that no index is an expression.

  /** The two nonzero terms of entry (i, k) for a row with m1 < 0. */
  lemma NegativeGramPair(l: nat, h: real, i: nat, r: nat, k: nat)
    requires IsInvSqrt2(h) && i < l && i + r == 2 * l && (k == i || k == r)
    ensures var s := GramTerms(l, h, i, k);
            CAdd(s[i], s[r]) == (if i == k then COne else CZero)
  {
    var q := Signed(i - l, h);
    SignedSymmetric(i - l, h);
    assert r - l == -(i - l);
    NegativeRow(l, h, i, i);
    NegativeRow(l, h, i, r);
    PositiveRow(l, h, r, i);
    PositiveRow(l, h, r, r);
    var eii, eir := Entry(l, h, i, i), Entry(l, h, i, r);
    var eki, ekr := Entry(l, h, k, i), Entry(l, h, k, r);
    NegativeRowGram(h, q, eii, eir, eki, ekr, k == i);
    var s := GramTerms(l, h, i, k);
    assert s[i] == CMul(eii, CConj(eki));
    assert s[r] == CMul(eir, CConj(ekr));
  }

  /** The two nonzero terms of entry (i, k) for a row with m1 > 0. */
  lemma PositiveGramPair(l: nat, h: real, i: nat, r: nat, k: nat)
    requires IsInvSqrt2(h) && l < i && i + r == 2 * l && (k == i || k == r)
    ensures var s := GramTerms(l, h, i, k);
            CAdd(s[i], s[r]) == (if i == k then COne else CZero)
  {
    var q := Signed(i - l, h);
    SignedSymmetric(i - l, h);
    assert r - l == -(i - l);
    PositiveRow(l, h, i, i);
    PositiveRow(l, h, i, r);
    NegativeRow(l, h, r, i);
    NegativeRow(l, h, r, r);
    var eii, eir := Entry(l, h, i, i), Entry(l, h, i, r);
    var eki, ekr := Entry(l, h, k, i), Entry(l, h, k, r);
    PositiveRowGram(h, q, eii, eir, eki, ekr, k == i);
    var s := GramTerms(l, h, i, k);
    assert s[i] == CMul(eii, CConj(eki));
    assert s[r] == CMul(eir, CConj(ekr));
  }

  /** Row i of T meets column k of T^H only at j = i and j = r. */
  lemma GramSupport(l: nat, h: real, i: nat, r: nat, k: nat)
    requires i + r == 2 * l
    ensures var s := GramTerms(l, h, i, k);
            forall j :: 0 <= j < |s| && j != i && j != r ==> s[j] == CZero
  {
    var s := GramTerms(l, h, i, k);
    forall j | 0 <= j < |s| && j != i && j != r
      ensures s[j] == CZero
    {
      RowSupport(l, h, i, j);
    }
  }

  /** A term with a zero factor is zero. */
  lemma ZeroTerm(a: Complex, b: Complex)
    requires b == CZero
    ensures CMul(a, CConj(b)) == CZero
  {
  }

  /** A row is orthogonal to every row it shares no column with. */
  lemma GramDisjoint(l: nat, h: real, i: nat, r: nat, k: nat)
    requires i + r == 2 * l && k < 2 * l + 1 && k != i && k != r
    ensures var s := GramTerms(l, h, i, k);
            s[i] == CZero && s[r] == CZero
  {
    RowSupport(l, h, k, i);
    RowSupport(l, h, k, r);
    ZeroTerm(Entry(l, h, i, i), Entry(l, h, k, i));
    ZeroTerm(Entry(l, h, i, r), Entry(l, h, k, r));
  }

  /** The centre row is orthonormal to every row. */
  lemma GramCentre(l: nat, h: real, k: nat)
    requires k < 2 * l + 1
    ensures SumC(GramTerms(l, h, l, k)) == (if l == k then COne else CZero)
  {
    var s := GramTerms(l, h, l, k);
    GramSupport(l, h, l, l, k);
    SumCSingle(s, l);
    if k != l {
      RowSupport(l, h, k, l);
      ZeroTerm(Entry(l, h, l, l), Entry(l, h, k, l));
    }
  }

  /** A row with m1 != 0 is orthonormal to every row. */
  lemma GramOffCentre(l: nat, h: real, i: nat, k: nat)
    requires IsInvSqrt2(h) && i < 2 * l + 1 && i != l && k < 2 * l + 1
    ensures SumC(GramTerms(l, h, i, k)) == (if i == k then COne else CZero)
  {
    var s := GramTerms(l, h, i, k);
    var r: nat := 2 * l - i;
    GramSupport(l, h, i, r, k);
    SumCPair(s, i, r);
    if k != i && k != r {
      GramDisjoint(l, h, i, r, k);
    } else if i < l {
      NegativeGramPair(l, h, i, r, k);
    } else {
      PositiveGramPair(l, h, i, r, k);
    }
  }

  /** Entry (i, k) of T . T^H is the Kronecker delta. */
  lemma GramEntry(l: nat, h: real, i: nat, k: nat)
    requires IsInvSqrt2(h) && i < 2 * l + 1 && k < 2 * l + 1
    ensures SumC(GramTerms(l, h, i, k)) == (if i == k then COne else CZero)
  {
    if i == l {
      GramCentre(l, h, k);
    } else {
      GramOffCentre(l, h, i, k);
    }
  }

  /** T . T^H = I: the tesseral transformation is unitary. */
  lemma Unitary(l: nat, h: real)
    requires IsInvSqrt2(h)
    ensures var t := TesseralMatrix(l, h);
            MatMulC(t, ConjTranspose(t, 2 * l + 1, 2 * l + 1), 2 * l + 1, 2 * l + 1, 2 * l + 1)
              == ComplexIdentity(2 * l + 1)
  {
    var n := 2 * l + 1;
    var t := TesseralMatrix(l, h);
    var th := ConjTranspose(t, n, n);
    var g := MatMulC(t, th, n, n, n);
    forall i | 0 <= i < n
      ensures g[i] == ComplexIdentity(n)[i]
    {
      forall k | 0 <= k < n
        ensures g[i][k] == ComplexIdentity(n)[i][k]
      {
        GramEntry(l, h, i, k);
        assert seq(n, j requires 0 <= j < n => CMul(t[i][j], th[j][k])) == GramTerms(l, h, i, k);
      }
    }
  }

  // ---------------------------------------------------------------------
  // The (y, z, x) -> (x, y, z) permutation
  // ---------------------------------------------------------------------

  /** The constant permutation matrix taking the l = 1 harmonic ordering to
      Cartesian axes. */
  const PermutationShCar: Mat3 :=
    Mat3(Vec3(0.0, 1.0, 0.0), Vec3(0.0, 0.0, 1.0), Vec3(1.0, 0.0, 0.0))

  /** P has exactly one 1 in each row and each column, all else 0, so P^T P = I. */
  lemma PermutationIsOrthogonal()
    ensures var p := PermutationShCar;
            p.r0.x + p.r0.y + p.r0.z == 1.0 && p.r1.x + p.r1.y + p.r1.z == 1.0 &&
            p.r2.x + p.r2.y + p.r2.z == 1.0
    ensures var p := PermutationShCar;
            p.r0.x + p.r1.x + p.r2.x == 1.0 && p.r0.y + p.r1.y + p.r2.y == 1.0 &&
            p.r0.z + p.r1.z + p.r2.z == 1.0
    ensures MMul(Transpose(PermutationShCar), PermutationShCar) == Identity3
    ensures MMul(PermutationShCar, Transpose(PermutationShCar)) == Identity3
  {
  }
}
