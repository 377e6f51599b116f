/** Wigner's small d-matrix by the explicit finite sum, the full D-matrix as
    diag(e^{i m gamma}) . d . diag(e^{i m alpha}), and its conjugation into
    the tesseral (real) basis.

    cos(beta/2) and sin(beta/2) are the real parameters `c` and `sn`; the
    square root of the factorial prefactor is a parameter `root` about which
    only root(n) >= 0 and root(n)^2 = n is known; e^{i theta} is a
    parameter `cis`. */
module WignerD {
  import opened LinearAlgebra
  import opened Tesseral

  function Fact(n: nat): (r: nat)
    ensures r >= 1
  {
    if n == 0 then 1 else n * Fact(n - 1)
  }

  /** x^n for a natural exponent; 0^0 = 1 as in numpy. */
  function Pow(x: real, n: nat): real
  {
    if n == 0 then 1.0 else x * Pow(x, n - 1)
  }

  lemma MulAtLeastOne(a: int, b: int)
    requires a >= 1 && b >= 1
    ensures a * b >= 1
  {
    assert a * b >= 1 * b;
  }

  /** a! b! c! d!, which is at least 1. */
  function Fact4(a: nat, b: nat, c: nat, d: nat): (r: nat)
    ensures r >= 1
  {
    MulAtLeastOne(Fact(a), Fact(b));
    MulAtLeastOne(Fact(a) * Fact(b), Fact(c));
    MulAtLeastOne(Fact(a) * Fact(b) * Fact(c), Fact(d));
    Fact(a) * Fact(b) * Fact(c) * Fact(d)
  }

  /** (-1)^n. */
  function Sign(n: nat): real
  {
    if n % 2 == 0 then 1.0 else -1.0
  }

  function Max(a: int, b: int): int { if a < b then b else a }
  function Min(a: int, b: int): int { if a < b then a else b }

  /** `root` is a square root on the naturals. */
  ghost predicate IsSquareRoot(root: nat -> real)
  {
    forall n: nat :: root(n) >= 0.0 && root(n) * root(n) == n as real
  }

  /** m1 and m2 are magnetic quantum numbers of order l. */
  predicate InShell(l: nat, m1: int, m2: int)
  {
    -(l as int) <= m1 <= l && -(l as int) <= m2 <= l
  }

  /** Lower and upper bound of the summation index s. */
  function SMin(m1: int, m2: int): int { Max(0, m2 - m1) }
  function SMax(l: nat, m1: int, m2: int): int { Min(l + m2, l - m1) }

  /** The product (l+m1)! (l-m1)! (l+m2)! (l-m2)! under the square root. */
  function Prefactor(l: nat, m1: int, m2: int): nat
    requires InShell(l, m1, m2)
  {
    Fact4(l + m1, l - m1, l + m2, l - m2)
  }

  /** Term s of Wigner's sum. */
  function Term(l: nat, m1: int, m2: int, c: real, sn: real, s: int): real
    requires InShell(l, m1, m2) && SMin(m1, m2) <= s <= SMax(l, m1, m2)
  {
    var num := Sign(m1 - m2 + s) * Pow(c, 2 * l + m2 - m1 - 2 * s) * Pow(sn, m1 - m2 + 2 * s);
    var den := Fact4(l + m2 - s, s, m1 - m2 + s, l - m1 - s);
    num / den as real
  }

  /** The terms with SMin <= s < hi, added in increasing s. */
  function TermSum(l: nat, m1: int, m2: int, c: real, sn: real, hi: int): real
    requires InShell(l, m1, m2) && SMin(m1, m2) <= hi <= SMax(l, m1, m2) + 1
    decreases hi - SMin(m1, m2)
  {
    if hi == SMin(m1, m2) then 0.0
    else TermSum(l, m1, m2, c, sn, hi - 1) + Term(l, m1, m2, c, sn, hi - 1)
  }

  /** The element d^l_{m1 m2}(beta). */
  function Element(l: nat, m1: int, m2: int, c: real, sn: real, root: nat -> real): real
    requires InShell(l, m1, m2)
  {
    ShellRange(l, m1, m2);
    root(Prefactor(l, m1, m2)) * TermSum(l, m1, m2, c, sn, SMax(l, m1, m2) + 1)
  }

  /** For |m1|, |m2| <= l the summation range is not empty. */
  lemma ShellRange(l: nat, m1: int, m2: int)
    requires InShell(l, m1, m2)
    ensures SMin(m1, m2) <= SMax(l, m1, m2)
  {
  }

  /** The four prefactor arguments are natural numbers. */
  lemma PrefactorArguments(l: nat, m1: int, m2: int)
    requires InShell(l, m1, m2)
    ensures l + m1 >= 0 && l - m1 >= 0 && l + m2 >= 0 && l - m2 >= 0
  {
  }

  /** Inside the range every factorial argument and both exponents are
      natural numbers, and the exponents add up to 2l. */
  lemma TermArguments(l: nat, m1: int, m2: int, s: int)
    requires InShell(l, m1, m2) && SMin(m1, m2) <= s <= SMax(l, m1, m2)
    ensures l + m2 - s >= 0 && s >= 0 && m1 - m2 + s >= 0 && l - m1 - s >= 0
    ensures 2 * l + m2 - m1 - 2 * s >= 0 && m1 - m2 + 2 * s >= 0
    ensures (2 * l + m2 - m1 - 2 * s) + (m1 - m2 + 2 * s) == 2 * l
  {
  }

  /** One element, accumulated over s in a loop as the source does. */
  method WignerDElement(l: nat, m1: int, m2: int, c: real, sn: real, root: nat -> real) returns (d: real)
    requires InShell(l, m1, m2)
    ensures d == Element(l, m1, m2, c, sn, root)
  {
    var smin := Max(0, m2 - m1);
    var smax := Min(l + m2, l - m1);
    ShellRange(l, m1, m2);
    assert smin == SMin(m1, m2) && smax == SMax(l, m1, m2);
    var v := 0.0;
    for s := smin to smax + 1
      invariant v == TermSum(l, m1, m2, c, sn, s)
    {
      TermSumNext(l, m1, m2, c, sn, s);
      v := v + Term(l, m1, m2, c, sn, s);
    }
    ScaledSum(l, m1, m2, c, sn, root, v);
    d := root(Prefactor(l, m1, m2)) * v;
  }

  /** The element is the square-rooted prefactor times the full sum. */
  lemma ScaledSum(l: nat, m1: int, m2: int, c: real, sn: real, root: nat -> real, v: real)
    requires InShell(l, m1, m2) && SMin(m1, m2) <= SMax(l, m1, m2)
    requires v == TermSum(l, m1, m2, c, sn, SMax(l, m1, m2) + 1)
    ensures root(Prefactor(l, m1, m2)) * v == Element(l, m1, m2, c, sn, root)
  {
    var t := TermSum(l, m1, m2, c, sn, SMax(l, m1, m2) + 1);
    EqualProducts(root(Prefactor(l, m1, m2)), root(Prefactor(l, m1, m2)), v, t);
  }

  /** Substitution of equals in a product. */
  lemma EqualProducts(a: real, a': real, b: real, b': real)
    requires a == a' && b == b'
    ensures a * b == a' * b'
  {
  }

  lemma TermSumNext(l: nat, m1: int, m2: int, c: real, sn: real, s: int)
    requires InShell(l, m1, m2) && SMin(m1, m2) <= s <= SMax(l, m1, m2)
    ensures TermSum(l, m1, m2, c, sn, s + 1) == TermSum(l, m1, m2, c, sn, s) + Term(l, m1, m2, c, sn, s)
  {
  }

  /** The whole small d-matrix as a value: entry (i, j) is the element for
      m1 = i - l, m2 = j - l. */
  function SmallD(l: nat, c: real, sn: real, root: nat -> real): (d: seq<seq<real>>)
    ensures IsMatrix(d, 2 * l + 1, 2 * l + 1)
  {
    seq(2 * l + 1, i => if 0 <= i < 2 * l + 1 then SmallDRow(l, i, c, sn, root) else [])
  }

  /** Row i of the small d-matrix (m1 = i - l). */
  function SmallDRow(l: nat, i: nat, c: real, sn: real, root: nat -> real): (r: seq<real>)
    requires i < 2 * l + 1
    ensures |r| == 2 * l + 1
  {
    seq(2 * l + 1, j => if 0 <= j < 2 * l + 1 then Element(l, i - l, j - l, c, sn, root) else 0.0)
  }

  /** Fills the (2l+1) x (2l+1) array element by element. */
  method WignerSmallD(l: nat, c: real, sn: real, root: nat -> real) returns (d: array2<real>)
    ensures fresh(d) && d.Length0 == 2 * l + 1 && d.Length1 == 2 * l + 1
    ensures forall i, j :: 0 <= i < 2 * l + 1 && 0 <= j < 2 * l + 1 ==>
      d[i, j] == Element(l, i - l, j - l, c, sn, root)
  {
    var n := 2 * l + 1;
    d := new real[n, n]((i, j) => 0.0);
    for i := 0 to n
      invariant forall a, b :: 0 <= a < i && 0 <= b < n ==> d[a, b] == Element(l, a - l, b - l, c, sn, root)
    {
      FillRow(d, l, i, c, sn, root);
    }
  }

  /** Fills row i (m1 = i - l) of the small d-matrix, leaving the other rows. */
  method FillRow(d: array2<real>, l: nat, i: nat, c: real, sn: real, root: nat -> real)
    requires d.Length0 == 2 * l + 1 && d.Length1 == 2 * l + 1 && i < 2 * l + 1
    modifies d
    ensures forall b :: 0 <= b < 2 * l + 1 ==> d[i, b] == Element(l, i - l, b - l, c, sn, root)
    ensures forall a, b :: 0 <= a < 2 * l + 1 && a != i && 0 <= b < 2 * l + 1 ==> d[a, b] == old(d[a, b])
  {
    for j := 0 to 2 * l + 1
      invariant forall b :: 0 <= b < j ==> d[i, b] == Element(l, i - l, b - l, c, sn, root)
      invariant forall a, b :: 0 <= a < 2 * l + 1 && a != i && 0 <= b < 2 * l + 1 ==> d[a, b] == old(d[a, b])
    {
      d[i, j] := WignerDElement(l, i - l, j - l, c, sn, root);
    }
  }

  // ---------------------------------------------------------------------
  // Powers, factorials and square roots
  // ---------------------------------------------------------------------

  lemma PowSmall(x: real)
    ensures Pow(x, 0) == 1.0 && Pow(x, 1) == x && Pow(x, 2) == x * x
  {
    assert Pow(x, 1) == x * Pow(x, 0);
    assert Pow(x, 2) == x * Pow(x, 1);
  }

  lemma PowOne(n: nat)
    ensures Pow(1.0, n) == 1.0
  {
  }

  lemma PowZero(n: nat)
    ensures Pow(0.0, n) == (if n == 0 then 1.0 else 0.0)
  {
  }

  /** The non-negative square root is unique. */
  lemma SquareRootUnique(r: real, f: real)
    requires r >= 0.0 && f > 0.0 && r * r == f * f
    ensures r == f
  {
    assert (r - f) * (r + f) == r * r - f * f;
    assert r + f > 0.0;
  }

  // ---------------------------------------------------------------------
  // beta = 0
  // ---------------------------------------------------------------------

  /** At beta = 0 every term with a positive power of sin(beta/2) vanishes. */
  lemma ZeroAngleTerm(l: nat, m1: int, m2: int, s: int)
    requires InShell(l, m1, m2) && SMin(m1, m2) <= s <= SMax(l, m1, m2)
    ensures Term(l, m1, m2, 1.0, 0.0, s) ==
      (if m1 - m2 + 2 * s == 0 then 1.0 / (Fact(l + m2) * Fact(l - m1)) as real else 0.0)
  {
    PowOne(2 * l + m2 - m1 - 2 * s);
    PowZero(m1 - m2 + 2 * s);
    if m1 - m2 + 2 * s == 0 {
      assert s == 0 && m1 == m2;
    }
  }

  /** Off the diagonal the sum vanishes at beta = 0. */
  lemma {:induction false} ZeroAngleSumOff(l: nat, m1: int, m2: int, hi: int)
    requires InShell(l, m1, m2) && m1 != m2 && SMin(m1, m2) <= hi <= SMax(l, m1, m2) + 1
    ensures TermSum(l, m1, m2, 1.0, 0.0, hi) == 0.0
    decreases hi - SMin(m1, m2)
  {
    if hi != SMin(m1, m2) {
      ZeroAngleSumOff(l, m1, m2, hi - 1);
      ZeroAngleTerm(l, m1, m2, hi - 1);
    }
  }

  /** On the diagonal only the s = 0 term survives at beta = 0. */
  lemma {:induction false} ZeroAngleSumOn(l: nat, m: int, hi: int)
    requires InShell(l, m, m) && 1 <= hi <= SMax(l, m, m) + 1
    ensures TermSum(l, m, m, 1.0, 0.0, hi) == 1.0 / (Fact(l + m) * Fact(l - m)) as real
    decreases hi
  {
    ZeroAngleTerm(l, m, m, hi - 1);
    if hi > 1 {
      ZeroAngleSumOn(l, m, hi - 1);
    }
  }

  /** On the diagonal the prefactor is a perfect square. */
  lemma PrefactorDiagonal(l: nat, m: int)
    requires InShell(l, m, m)
    ensures Prefactor(l, m, m) == (Fact(l + m) * Fact(l - m)) * (Fact(l + m) * Fact(l - m))
  {
    var x, y := Fact(l + m), Fact(l - m);
    assert Prefactor(l, m, m) == x * y * x * y;
    Regroup(x, y);
  }

  lemma Regroup(x: int, y: int)
    ensures x * y * x * y == (x * y) * (x * y)
  {
  }

  /** root(f^2) / f = 1. */
  lemma RootOfSquare(root: nat -> real, f: nat)
    requires IsSquareRoot(root) && f >= 1
    ensures root(f * f) * (1.0 / f as real) == 1.0
  {
    var r := root(f * f);
    assert r >= 0.0 && r * r == (f * f) as real;
    assert (f * f) as real == (f as real) * (f as real);
    SquareRootUnique(r, f as real);
  }

  /** At beta = 0 (cos = 1, sin = 0) the element is the Kronecker delta. */
  lemma ElementAtZeroAngle(l: nat, m1: int, m2: int, root: nat -> real)
    requires IsSquareRoot(root) && InShell(l, m1, m2)
    ensures Element(l, m1, m2, 1.0, 0.0, root) == (if m1 == m2 then 1.0 else 0.0)
  {
    ShellRange(l, m1, m2);
    var hi := SMax(l, m1, m2) + 1;
    if m1 != m2 {
      ZeroAngleSumOff(l, m1, m2, hi);
      ScaledSum(l, m1, m2, 1.0, 0.0, root, 0.0);
    } else {
      ElementOnDiagonal(l, m1, root);
    }
  }

  /** The diagonal case of ElementAtZeroAngle: root(f^2) * (1 / f) with
      f = (l+m)! (l-m)!. */
  lemma ElementOnDiagonal(l: nat, m: int, root: nat -> real)
    requires IsSquareRoot(root) && InShell(l, m, m)
    ensures Element(l, m, m, 1.0, 0.0, root) == 1.0
  {
    ShellRange(l, m, m);
    var hi := SMax(l, m, m) + 1;
    ZeroAngleSumOn(l, m, hi);
    MulAtLeastOne(Fact(l + m), Fact(l - m));
    var f: nat := Fact(l + m) * Fact(l - m);
    PrefactorDiagonal(l, m);
    var t := TermSum(l, m, m, 1.0, 0.0, hi);
    ScaledSum(l, m, m, 1.0, 0.0, root, t);
    EqualProducts(root(Prefactor(l, m, m)), root(f * f), t, 1.0 / f as real);
    RootOfSquare(root, f);
  }

  /** Entry (i, j) of the small d-matrix is the element for m1 = i - l,
      m2 = j - l. */
  lemma SmallDEntry(l: nat, c: real, sn: real, root: nat -> real, i: nat, j: nat)
    requires i < 2 * l + 1 && j < 2 * l + 1
    ensures SmallD(l, c, sn, root)[i][j] == Element(l, i - l, j - l, c, sn, root)
  {
  }

  /** At beta = 0 the small d-matrix is the identity. */
  lemma SmallDAtZeroAngle(l: nat, root: nat -> real)
    requires IsSquareRoot(root)
    ensures SmallD(l, 1.0, 0.0, root) == RealIdentity(2 * l + 1)
  {
    var n := 2 * l + 1;
    var d := SmallD(l, 1.0, 0.0, root);
    var e := RealIdentity(n);
    forall i | 0 <= i < n
      ensures d[i] == e[i]
    {
      forall j | 0 <= j < n
        ensures d[i][j] == e[i][j]
      {
        SmallDEntry(l, 1.0, 0.0, root, i, j);
        ElementAtZeroAngle(l, i - l, j - l, root);
        assert e[i][j] == if i == j then 1.0 else 0.0;
      }
    }
  }

  /** For l = 0 the matrix is [[1]] whatever the angle. */
  lemma SmallDOrderZero(c: real, sn: real, root: nat -> real)
    requires IsSquareRoot(root)
    ensures SmallD(0, c, sn, root) == [[1.0]]
  {
    RootOfSquare(root, 1);
    assert Fact4(0, 0, 0, 0) == 1;
    assert Pow(c, 0) == 1.0 && Pow(sn, 0) == 1.0;
    assert Term(0, 0, 0, c, sn, 0) == 1.0;
    assert TermSum(0, 0, 0, c, sn, 1) == 1.0;
    assert Element(0, 0, 0, c, sn, root) == root(1) * 1.0;
    SmallDEntry(0, c, sn, root, 0, 0);
    var d := SmallD(0, c, sn, root);
    assert d[0][0] == 1.0;
    assert d[0] == [1.0];
  }

  /** The square roots the l = 1 prefactors need: sqrt(1), sqrt(2), sqrt(4). */
  lemma OrderOneRoots(root: nat -> real, h: real)
    requires IsSquareRoot(root) && IsInvSqrt2(h)
    ensures root(1) == 1.0 && root(2) == 2.0 * h && root(4) == 2.0
  {
    RootOfSquare(root, 1);
    RootOfSquare(root, 2);
    var r := root(2);
    assert r >= 0.0 && r * r == 2.0;
    assert (2.0 * h) * (2.0 * h) == 4.0 * (h * h);
    SquareRootUnique(r, 2.0 * h);
  }

  // A quarter turn about y has cos(beta/2) = sin(beta/2) = 1/sqrt(2); for
  // l = 1 its small d-matrix is
  //   [[1/2, h, 1/2], [-h, 0, h], [1/2, -h, 1/2]]  with h = 1/sqrt(2).

  /** The corner entries of the quarter turn: cos^2 = sin^2 = 1/2. */
  lemma QuarterTurnCorners(root: nat -> real, h: real)
    requires IsSquareRoot(root) && IsInvSqrt2(h)
    ensures Element(1, -1, -1, h, h, root) == 0.5 && Element(1, 1, 1, h, h, root) == 0.5
    ensures Element(1, -1, 1, h, h, root) == 0.5 && Element(1, 1, -1, h, h, root) == 0.5
  {
    OrderOneRoots(root, h);
    assert Fact(2) == 2;
    PowSmall(h);
    assert Term(1, -1, 1, h, h, 2) == 0.25;
    assert TermSum(1, -1, 1, h, h, 3) == 0.25;
    assert Prefactor(1, -1, 1) == 4;
  }

  /** The edge entries of the quarter turn: +-sqrt(2) cos sin = +-1/sqrt(2). */
  lemma QuarterTurnEdges(root: nat -> real, h: real)
    requires IsSquareRoot(root) && IsInvSqrt2(h)
    ensures Element(1, -1, 0, h, h, root) == h && Element(1, 0, 1, h, h, root) == h
    ensures Element(1, 0, -1, h, h, root) == -h && Element(1, 1, 0, h, h, root) == -h
    ensures Element(1, 0, 0, h, h, root) == 0.0
  {
    OrderOneRoots(root, h);
    PowSmall(h);
  }

  // ---------------------------------------------------------------------
  // The full D-matrix and its tesseral form
  // ---------------------------------------------------------------------

  /** e^{i m angle}. */
  function Phase(m: int, angle: real, cis: real -> Complex): Complex
  {
    cis(m as real * angle)
  }

  /** The diagonal e^{i m angle} for m = -l .. l. */
  function Phases(l: nat, angle: real, cis: real -> Complex): (p: seq<Complex>)
    ensures |p| == 2 * l + 1
  {
    seq(2 * l + 1, i => Phase(i - l, angle, cis))
  }

  /** Entry k of the phase diagonal is e^{i (k - l) angle}. */
  lemma PhasesEntry(l: nat, angle: real, cis: real -> Complex, k: nat)
    requires k < 2 * l + 1
    ensures Phases(l, angle, cis)[k] == Phase(k - l, angle, cis)
  {
  }

  /** diag(e^{i m gamma}) . d . diag(e^{i m alpha}) for a real matrix d. */
  function EulerD(l: nat, alpha: real, gamma: real, d: seq<seq<real>>, cis: real -> Complex): (m: seq<seq<Complex>>)
    requires IsMatrix(d, 2 * l + 1, 2 * l + 1)
    ensures IsMatrix(m, 2 * l + 1, 2 * l + 1)
  {
    var n := 2 * l + 1;
    MatMulC(MatMulC(Diagonal(Phases(l, gamma, cis)), ToComplex(d, n, n), n, n, n), Diagonal(Phases(l, alpha, cis)), n, n, n)
  }

  /** The Wigner D-matrix for Euler angles alpha, beta, gamma (zyz). */
  function BigD(l: nat, alpha: real, gamma: real, c: real, sn: real, root: nat -> real,
                cis: real -> Complex): (m: seq<seq<Complex>>)
    ensures IsMatrix(m, 2 * l + 1, 2 * l + 1)
  {
    EulerD(l, alpha, gamma, SmallD(l, c, sn, root), cis)
  }

  /** Entry (i, j) of diag(e^{i m gamma}) . d . diag(e^{i m alpha}) is
      e^{i m1 gamma} d[i][j] e^{i m2 alpha}. */
  lemma EulerDEntry(l: nat, alpha: real, gamma: real, d: seq<seq<real>>, cis: real -> Complex, i: nat, j: nat)
    requires IsMatrix(d, 2 * l + 1, 2 * l + 1) && i < 2 * l + 1 && j < 2 * l + 1
    ensures EulerD(l, alpha, gamma, d, cis)[i][j] ==
      CMul(CMul(Phase(i - l, gamma, cis), FromReal(d[i][j])), Phase(j - l, alpha, cis))
  {
    var n := 2 * l + 1;
    var dc := ToComplex(d, n, n);
    var pg, pa := Phases(l, gamma, cis), Phases(l, alpha, cis);
    var left := MatMulC(Diagonal(pg), dc, n, n, n);
    DiagonalRight(left, pa, n, i, j);
    DiagonalLeft(pg, dc, n, i, j);
    assert EulerD(l, alpha, gamma, d, cis) == MatMulC(left, Diagonal(pa), n, n, n);
    assert dc[i][j] == FromReal(d[i][j]);
    PhasesEntry(l, gamma, cis, i);
    PhasesEntry(l, alpha, cis, j);
  }

  /** With both phase angles zero (and e^{i 0} = 1) the phases drop out. */
  lemma EulerDZeroPhases(l: nat, d: seq<seq<real>>, cis: real -> Complex)
    requires IsMatrix(d, 2 * l + 1, 2 * l + 1) && cis(0.0) == COne
    ensures EulerD(l, 0.0, 0.0, d, cis) == ToComplex(d, 2 * l + 1, 2 * l + 1)
  {
    var n := 2 * l + 1;
    var e := EulerD(l, 0.0, 0.0, d, cis);
    forall i | 0 <= i < n
      ensures e[i] == ToComplex(d, n, n)[i]
    {
      forall j | 0 <= j < n
        ensures e[i][j] == ToComplex(d, n, n)[i][j]
      {
        EulerDEntry(l, 0.0, 0.0, d, cis, i, j);
        assert (i - l) as real * 0.0 == 0.0 && (j - l) as real * 0.0 == 0.0;
      }
    }
  }

  /** A rotation about z alone (beta = 0) gives a diagonal D-matrix whose
      entry for m is e^{i m gamma} e^{i m alpha}. */
  lemma BigDAboutZ(l: nat, alpha: real, gamma: real, root: nat -> real, cis: real -> Complex, i: nat, j: nat)
    requires IsSquareRoot(root) && i < 2 * l + 1 && j < 2 * l + 1
    ensures BigD(l, alpha, gamma, 1.0, 0.0, root, cis)[i][j] ==
      if i == j then CMul(Phase(i - l, gamma, cis), Phase(i - l, alpha, cis)) else CZero
  {
    var d := SmallD(l, 1.0, 0.0, root);
    EulerDEntry(l, alpha, gamma, d, cis, i, j);
    SmallDEntry(l, 1.0, 0.0, root, i, j);
    ElementAtZeroAngle(l, i - l, j - l, root);
    ScaledProduct(Phase(i - l, gamma, cis), d[i][j], Phase(j - l, alpha, cis));
  }

  /** p x q is p q when x is 1 and 0 when x is 0. */
  lemma ScaledProduct(p: Complex, x: real, q: Complex)
    ensures x == 1.0 ==> CMul(CMul(p, FromReal(x)), q) == CMul(p, q)
    ensures x == 0.0 ==> CMul(CMul(p, FromReal(x)), q) == CZero
  {
  }

  /** The identity rotation (all angles zero) gives D = I. */
  lemma BigDAtZero(l: nat, root: nat -> real, cis: real -> Complex)
    requires IsSquareRoot(root) && cis(0.0) == COne
    ensures BigD(l, 0.0, 0.0, 1.0, 0.0, root, cis) == ComplexIdentity(2 * l + 1)
  {
    var n := 2 * l + 1;
    SmallDAtZeroAngle(l, root);
    EulerDZeroPhases(l, RealIdentity(n), cis);
    ToComplexIdentity(n);
  }

  /** Re(T . D . T^H): the D-matrix in the basis of real harmonics. */
  function TesseralD(l: nat, h: real, dm: seq<seq<Complex>>): (r: seq<seq<real>>)
    requires IsMatrix(dm, 2 * l + 1, 2 * l + 1)
    ensures IsMatrix(r, 2 * l + 1, 2 * l + 1)
  {
    var n := 2 * l + 1;
    var t := TesseralMatrix(l, h);
    RealPart(MatMulC(MatMulC(t, dm, n, n, n), ConjTranspose(t, n, n), n, n, n), n, n)
  }

  /** The identity rotation stays the identity in the tesseral basis; this
      rests on T being unitary. */
  lemma TesseralDOfIdentity(l: nat, h: real)
    requires IsInvSqrt2(h)
    ensures TesseralD(l, h, ComplexIdentity(2 * l + 1)) == RealIdentity(2 * l + 1)
  {
    var n := 2 * l + 1;
    var t := TesseralMatrix(l, h);
    MatMulIdentityRight(t, n, n);
    Unitary(l, h);
    assert MatMulC(t, ComplexIdentity(n), n, n, n) == t;
    assert MatMulC(t, ConjTranspose(t, n, n), n, n, n) == ComplexIdentity(n);
    RealPartIdentity(n);
  }

  /** The identity rotation gives the identity tesseral D-matrix. */
  lemma TesseralDAtZero(l: nat, h: real, root: nat -> real, cis: real -> Complex)
    requires IsInvSqrt2(h) && IsSquareRoot(root) && cis(0.0) == COne
    ensures TesseralD(l, h, BigD(l, 0.0, 0.0, 1.0, 0.0, root, cis)) == RealIdentity(2 * l + 1)
  {
    BigDAtZero(l, root, cis);
    TesseralDOfIdentity(l, h);
  }
}
