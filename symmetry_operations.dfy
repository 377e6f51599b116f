/** Symmetry operations of a molecule: the five operation kinds with their
    Cartesian matrices and per-shell transformation blocks, and the engine
    that turns a list of operations into atom permutations and dense
    basis-function transformation matrices. */
module Symmetry {
  import opened Wrappers
  import opened LinearAlgebra
  import opened BasisFunctions
  import opened Molecules
  import Rotations

  // -----------------------------------------------------------------------
  // Operation kinds
  // -----------------------------------------------------------------------

  /** The rotation matrix of a rotation (and the proper part of an improper
      rotation) and the blocks `blocks[l]` acting on the real spherical
      harmonics of shell l = 0, 1, 2 are given inputs. */
  datatype Operation =
    | Identity
    | Inversion
    | Rotation(suffix: string, axis: Vec3, angle: real, rot: Mat3, blocks: seq<seq<seq<real>>>)
    | Mirror(suffix: string, normal: Vec3, blocks: seq<seq<seq<real>>>)
    | Improper(suffix: string, axis: Vec3, angle: real, rot: Mat3, blocks: seq<seq<seq<real>>>)

  /** One square block per shell l = 0, 1, 2, of size 2l+1. */
  ghost predicate IsBlocks(blocks: seq<seq<seq<real>>>)
  {
    |blocks| == 3 && forall l | 0 <= l < 3 :: IsMatrix(blocks[l], 2 * l + 1, 2 * l + 1)
  }

  /** Rotation axes are unit vectors and every kind that carries blocks has
      them for all three shells. */
  ghost predicate WellFormed(op: Operation)
  {
    match op
    case Identity => true
    case Inversion => true
    case Rotation(_, axis, _, _, blocks) => Dot3(axis, axis) == 1.0 && IsBlocks(blocks)
    case Mirror(_, _, blocks) => IsBlocks(blocks)
    case Improper(_, axis, _, _, blocks) => Dot3(axis, axis) == 1.0 && IsBlocks(blocks)
  }

  function Name(op: Operation): string
  {
    match op
    case Identity => "E"
    case Inversion => "i"
    case Rotation(suffix, _, _, _, _) => "C" + suffix
    case Mirror(suffix, _, _) => "\U{03C3}" + suffix
    case Improper(suffix, _, _, _, _) => "S" + suffix
  }

  /** v / norm, for norm the Euclidean length of v. */
  function Normalise(v: Vec3, norm: real): Vec3
    requires norm > 0.0
  {
    Scale3(1.0 / norm, v)
  }

  /** Dividing by the length gives a unit vector. */
  lemma NormaliseUnit(v: Vec3, norm: real)
    requires norm > 0.0 && norm * norm == Dot3(v, v)
    ensures Dot3(Normalise(v, norm), Normalise(v, norm)) == 1.0
  {
    var k := 1.0 / norm;
    assert Dot3(Scale3(k, v), Scale3(k, v)) == (k * k) * Dot3(v, v);
    assert (k * k) * (norm * norm) == (k * norm) * (k * norm);
  }

  /** The reflection I - 2 n n^T through the plane with normal n; the normal
      is used as given. */
  function MirrorMatrix(n: Vec3): Mat3
  {
    MSub(Identity3, MScale(2.0, Outer(n, n)))
  }

  /** The improper rotation: the rotation followed by the reflection through
      the plane perpendicular to its axis. */
  function ImproperMatrix(axis: Vec3, rot: Mat3): Mat3
  {
    MMul(MirrorMatrix(axis), rot)
  }

  /** The negated identity, the matrix of the inversion. */
  const MinusIdentity3: Mat3 := Mat3(Vec3(-1.0, 0.0, 0.0), Vec3(0.0, -1.0, 0.0), Vec3(0.0, 0.0, -1.0))

  /** The Cartesian matrix of an operation. */
  function Matrix(op: Operation): Mat3
  {
    match op
    case Identity => Identity3
    case Inversion => MinusIdentity3
    case Rotation(_, _, _, rot, _) => rot
    case Mirror(_, _, _) => MirrorOpMatrix(op)
    case Improper(_, _, _, _, _) => ImproperOpMatrix(op)
  }

  /** The matrix of a mirror plane, built on demand from its normal. */
  function MirrorOpMatrix(op: Operation): Mat3
    requires op.Mirror?
  {
    MirrorMatrix(op.normal)
  }

  /** The matrix of an improper rotation: the mirror after the rotation. */
  function ImproperOpMatrix(op: Operation): Mat3
    requires op.Improper?
  {
    ImproperMatrix(op.axis, op.rot)
  }

  /** (-1)^l. */
  function Parity(l: nat): real
  {
    if l % 2 == 0 then 1.0 else -1.0
  }

  /** The transformation of the real spherical harmonics of shell l. */
  function WignerMatrix(op: Operation, l: nat): (w: seq<seq<real>>)
    requires WellFormed(op) && l < 3
    ensures IsMatrix(w, 2 * l + 1, 2 * l + 1)
  {
    match op
    case Identity => RealIdentity(2 * l + 1)
    case Inversion => ParityMatrix(l)
    case Rotation(_, _, _, _, blocks) => blocks[l]
    case Mirror(_, _, blocks) => blocks[l]
    case Improper(_, _, _, _, blocks) => blocks[l]
  }

  /** (-1)^l times the identity of size 2l+1. */
  function ParityMatrix(l: nat): (w: seq<seq<real>>)
    ensures IsMatrix(w, 2 * l + 1, 2 * l + 1)
  {
    seq(2 * l + 1, i => if 0 <= i < 2 * l + 1 then ParityRow(l, i) else [])
  }

  function ParityRow(l: nat, i: nat): (r: seq<real>)
    ensures |r| == 2 * l + 1
  {
    seq(2 * l + 1, j => if j == i then Parity(l) else 0.0)
  }

  /** The point matrices of the identity and of the inversion. */
  lemma MatrixKinds()
    ensures Matrix(Identity) == Identity3 && Matrix(Inversion) == MinusIdentity3
  {
  }

  /** The identity leaves every point unchanged; the inversion sends every
      point to its negative. */
  lemma IdentityAndInversionPoints(p: Vec3)
    ensures VecMat(p, Matrix(Identity)) == p
    ensures VecMat(p, Matrix(Inversion)) == Scale3(-1.0, p)
  {
    MatrixKinds();
    IdentityPoint(p);
    InversionPoint(p);
  }

  lemma IdentityPoint(p: Vec3)
    ensures VecMat(p, Identity3) == p
  {
  }

  lemma InversionPoint(p: Vec3)
    ensures VecMat(p, MinusIdentity3) == Scale3(-1.0, p)
  {
  }

  /** The identity leaves every shell unchanged; the inversion multiplies
      shell l by (-1)^l. */
  lemma IdentityAndInversionBlocks(l: nat, i: nat, j: nat)
    requires l < 3 && i < 2 * l + 1 && j < 2 * l + 1
    ensures WignerMatrix(Identity, l)[i][j] == (if i == j then 1.0 else 0.0)
    ensures WignerMatrix(Inversion, l)[i][j] == (if i != j then 0.0 else if l % 2 == 0 then 1.0 else -1.0)
  {
    assert WignerMatrix(Identity, l) == RealIdentity(2 * l + 1);
    assert WignerMatrix(Inversion, l)[i] == ParityRow(l, i);
  }

  /** The name of each kind. */
  lemma Names(suffix: string, axis: Vec3, angle: real, rot: Mat3, blocks: seq<seq<seq<real>>>)
    ensures Name(Identity) == "E" && Name(Inversion) == "i"
    ensures Name(Rotation(suffix, axis, angle, rot, blocks))[1..] == suffix
    ensures Name(Rotation(suffix, axis, angle, rot, blocks))[0] == 'C'
    ensures Name(Mirror(suffix, axis, blocks))[1..] == suffix
    ensures Name(Mirror(suffix, axis, blocks))[0] == '\U{03C3}'
    ensures Name(Improper(suffix, axis, angle, rot, blocks))[1..] == suffix
    ensures Name(Improper(suffix, axis, angle, rot, blocks))[0] == 'S'
  {
  }

  // -----------------------------------------------------------------------
  // Reflections
  // -----------------------------------------------------------------------

  /** The Householder matrix I - 2 n n^T entry by entry, for n = (x, y, z). */
  function Householder(x: real, y: real, z: real): Mat3
  {
    Mat3(Vec3(1.0 - 2.0 * (x * x), -2.0 * (x * y), -2.0 * (x * z)),
         Vec3(-2.0 * (y * x), 1.0 - 2.0 * (y * y), -2.0 * (y * z)),
         Vec3(-2.0 * (z * x), -2.0 * (z * y), 1.0 - 2.0 * (z * z)))
  }

  lemma MirrorEntries(n: Vec3)
    ensures MirrorMatrix(n) == Householder(n.x, n.y, n.z)
  {
  }

  /** The reflection matrix is symmetric, for any normal. */
  lemma MirrorSymmetric(n: Vec3)
    ensures Transpose(MirrorMatrix(n)) == MirrorMatrix(n)
  {
    MirrorEntries(n);
  }

  /** The reflected point coordinate by coordinate. */
  lemma MirrorCoordinates(p: Vec3, n: Vec3)
    ensures var h := Householder(n.x, n.y, n.z);
      && Dot3(p, Col0(h)) == p.x - (2.0 * Dot3(p, n)) * n.x
      && Dot3(p, Col1(h)) == p.y - (2.0 * Dot3(p, n)) * n.y
      && Dot3(p, Col2(h)) == p.z - (2.0 * Dot3(p, n)) * n.z
  {
    ReflectFirst(p.x, p.y, p.z, n.x, n.y, n.z);
    ReflectSecond(p.x, p.y, p.z, n.x, n.y, n.z);
    ReflectThird(p.x, p.y, p.z, n.x, n.y, n.z);
  }

  /** The three coordinates of p - 2 (p . n) n as polynomials in p and n. */
  lemma ReflectFirst(a: real, b: real, c: real, x: real, y: real, z: real)
    ensures a * (1.0 - 2.0 * (x * x)) + b * (-2.0 * (y * x)) + c * (-2.0 * (z * x))
         == a - (2.0 * (a * x + b * y + c * z)) * x
  {
  }

  lemma ReflectSecond(a: real, b: real, c: real, x: real, y: real, z: real)
    ensures a * (-2.0 * (x * y)) + b * (1.0 - 2.0 * (y * y)) + c * (-2.0 * (z * y))
         == b - (2.0 * (a * x + b * y + c * z)) * y
  {
  }

  lemma ReflectThird(a: real, b: real, c: real, x: real, y: real, z: real)
    ensures a * (-2.0 * (x * z)) + b * (-2.0 * (y * z)) + c * (1.0 - 2.0 * (z * z))
         == c - (2.0 * (a * x + b * y + c * z)) * z
  {
  }

  lemma HouseholderImage(p: Vec3, n: Vec3)
    ensures VecMat(p, Householder(n.x, n.y, n.z)) == Sub3(p, Scale3(2.0 * Dot3(p, n), n))
  {
    MirrorCoordinates(p, n);
  }

  /** Applied to a row vector p the reflection gives p - 2 (p . n) n. */
  lemma MirrorImage(p: Vec3, n: Vec3)
    ensures VecMat(p, MirrorMatrix(n)) == Sub3(p, Scale3(2.0 * Dot3(p, n), n))
  {
    MirrorEntries(n);
    HouseholderImage(p, n);
  }

  /** Hence, for a unit normal, n goes to -n and the plane n . p = 0 is
      fixed point by point. */
  lemma MirrorFlipsNormal(p: Vec3, n: Vec3)
    requires Dot3(n, n) == 1.0
    ensures VecMat(n, MirrorMatrix(n)) == Scale3(-1.0, n)
    ensures Dot3(p, n) == 0.0 ==> VecMat(p, MirrorMatrix(n)) == p
  {
    MirrorImage(n, n);
    MirrorImage(p, n);
  }

  /** Each row of I - 2 n n^T, dotted with a unit n = (x, y, z), gives
      minus that component of n. */
  lemma HouseholderRowPolynomials(x: real, y: real, z: real)
    requires x * x + y * y + z * z == 1.0
    ensures (1.0 - 2.0 * (x * x)) * x + (-2.0 * (x * y)) * y + (-2.0 * (x * z)) * z == -x
    ensures (-2.0 * (y * x)) * x + (1.0 - 2.0 * (y * y)) * y + (-2.0 * (y * z)) * z == -y
    ensures (-2.0 * (z * x)) * x + (-2.0 * (z * y)) * y + (1.0 - 2.0 * (z * z)) * z == -z
  {
    var d := x * x + y * y + z * z;
    assert x * d == x && y * d == y && z * d == z;
  }

  lemma HouseholderRowDots(n: Vec3)
    requires Dot3(n, n) == 1.0
    ensures var h := Householder(n.x, n.y, n.z);
      && Dot3(h.r0, n) == -n.x && Dot3(h.r1, n) == -n.y && Dot3(h.r2, n) == -n.z
  {
    HouseholderRowPolynomials(n.x, n.y, n.z);
  }

  /** Reflecting a row of the Householder matrix once more gives the unit row. */
  lemma HouseholderRow(n: Vec3, r: Vec3, e: Vec3, k: real)
    requires r == Sub3(e, Scale3(2.0 * k, n)) && Dot3(r, n) == -k
    ensures VecMat(r, Householder(n.x, n.y, n.z)) == e
  {
    HouseholderImage(r, n);
  }

  /** Row i of I - 2 n n^T is e_i - 2 n_i n. */
  lemma HouseholderRowForm(n: Vec3)
    ensures var h := Householder(n.x, n.y, n.z);
      && h.r0 == Sub3(Identity3.r0, Scale3(2.0 * n.x, n))
      && h.r1 == Sub3(Identity3.r1, Scale3(2.0 * n.y, n))
      && h.r2 == Sub3(Identity3.r2, Scale3(2.0 * n.z, n))
  {
  }

  /** For a unit normal, each row of I - 2 n n^T is reflected back to the
      corresponding unit row. */
  lemma HouseholderRowsBack(n: Vec3)
    requires Dot3(n, n) == 1.0
    ensures var h := Householder(n.x, n.y, n.z);
      && VecMat(h.r0, h) == Identity3.r0
      && VecMat(h.r1, h) == Identity3.r1
      && VecMat(h.r2, h) == Identity3.r2
  {
    var h := Householder(n.x, n.y, n.z);
    HouseholderRowDots(n);
    HouseholderRowForm(n);
    HouseholderRow(n, h.r0, Identity3.r0, n.x);
    HouseholderRow(n, h.r1, Identity3.r1, n.y);
    HouseholderRow(n, h.r2, Identity3.r2, n.z);
  }

  lemma HouseholderSquare(n: Vec3)
    requires Dot3(n, n) == 1.0
    ensures MMul(Householder(n.x, n.y, n.z), Householder(n.x, n.y, n.z)) == Identity3
  {
    var h := Householder(n.x, n.y, n.z);
    HouseholderRowsBack(n);
    assert MMul(h, h) == Mat3(VecMat(h.r0, h), VecMat(h.r1, h), VecMat(h.r2, h));
  }

  /** For a unit normal the reflection is its own inverse. */
  lemma MirrorInvolutive(n: Vec3)
    requires Dot3(n, n) == 1.0
    ensures MMul(MirrorMatrix(n), MirrorMatrix(n)) == Identity3
  {
    MirrorEntries(n);
    HouseholderSquare(n);
  }

  // -----------------------------------------------------------------------
  // Improper rotations
  // -----------------------------------------------------------------------

  /** When the proper part fixes the unit axis, the improper rotation sends
      the axis to its negative. */
  lemma ImproperFlipsAxis(a: Vec3, rot: Mat3)
    requires Dot3(a, a) == 1.0 && VecMat(a, rot) == a
    ensures VecMat(a, ImproperMatrix(a, rot)) == Scale3(-1.0, a)
  {
    VecMatMMul(a, MirrorMatrix(a), rot);
    MirrorFlipsNormal(a, a);
    VecMatScale(-1.0, a, rot);
  }

  /** In particular for the proper part given by Rodrigues' formula. */
  lemma ImproperRodriguesFlipsAxis(a: Vec3, c: real, s: real)
    requires Dot3(a, a) == 1.0
    ensures VecMat(a, ImproperMatrix(a, Rotations.RotationMatrix(a, c, s))) == Scale3(-1.0, a)
  {
    var r := Rotations.RotationMatrix(a, c, s);
    VecMatTranspose(a, r);
    Rotations.ReverseIsTranspose(a, c, s);
    Rotations.FixesAxis(a, c, -s);
    ImproperFlipsAxis(a, r);
  }

  // -----------------------------------------------------------------------
  // Creating operations by kind
  // -----------------------------------------------------------------------

  /** The operation `add` creates for a kind name, or None for an unknown
      kind. Rotation and improper axes are divided by their length `norm`. */
  function NewOperation(kind: string, suffix: string, vec: Vec3, angle: real, norm: real,
                        rot: Mat3, blocks: seq<seq<seq<real>>>): Option<Operation>
    requires (kind == "rotation" || kind == "improper") ==> norm > 0.0
  {
    if kind == "identity" then Some(Identity)
    else if kind == "rotation" then Some(Rotation(suffix, Normalise(vec, norm), angle, rot, blocks))
    else if kind == "mirror" then Some(Mirror(suffix, vec, blocks))
    else if kind == "improper" then Some(Improper(suffix, Normalise(vec, norm), angle, rot, blocks))
    else if kind == "inversion" then Some(Inversion)
    else None
  }

  /** The five kind names are accepted and nothing else; the operation
      created is well formed, of the named kind, and carries a unit axis. */
  lemma NewOperationKinds(kind: string, suffix: string, vec: Vec3, angle: real, norm: real,
                          rot: Mat3, blocks: seq<seq<seq<real>>>)
    requires (kind == "rotation" || kind == "improper") ==> norm > 0.0 && norm * norm == Dot3(vec, vec)
    requires (kind == "rotation" || kind == "mirror" || kind == "improper") ==> IsBlocks(blocks)
    ensures var op := NewOperation(kind, suffix, vec, angle, norm, rot, blocks);
      && (op.Some? <==> kind in {"identity", "rotation", "mirror", "improper", "inversion"})
      && (op.Some? ==> WellFormed(op.value))
      && (kind == "identity" ==> op == Some(Identity))
      && (kind == "inversion" ==> op == Some(Inversion))
      && (kind == "rotation" ==> op.value.Rotation? && op.value.suffix == suffix && Dot3(op.value.axis, op.value.axis) == 1.0)
      && (kind == "mirror" ==> op.value.Mirror? && op.value.normal == vec)
      && (kind == "improper" ==> op.value.Improper? && op.value.suffix == suffix && Dot3(op.value.axis, op.value.axis) == 1.0)
  {
    if kind == "rotation" || kind == "improper" {
      NormaliseUnit(vec, norm);
    }
  }

  // -----------------------------------------------------------------------
  // Atom matching
  // -----------------------------------------------------------------------

  /** Squared distance below which two points are taken to coincide. */
  const Tolerance: real := 0.00001

  /** Atom j, moved by the row-vector action of m, lands on atom i. */
  predicate Matches(positions: seq<Vec3>, m: Mat3, i: nat, j: nat)
    requires i < |positions| && j < |positions|
  {
    Dist2(VecMat(positions[j], m), positions[i]) < Tolerance
  }

  /** The last atom j < upto that lands on atom i, or 0 when none does. */
  function ImageUpTo(positions: seq<Vec3>, m: Mat3, i: nat, upto: nat): (j: nat)
    requires i < |positions| && upto <= |positions|
    ensures j < |positions|
  {
    if upto == 0 then 0
    else if Matches(positions, m, i, upto - 1) then upto - 1
    else ImageUpTo(positions, m, i, upto - 1)
  }

  function Image(positions: seq<Vec3>, m: Mat3, i: nat): (j: nat)
    requires i < |positions|
    ensures j < |positions|
  {
    ImageUpTo(positions, m, i, |positions|)
  }

  /** The image is the last matching atom when there is one, and 0 when no
      atom matches; it is always an atom index. */
  lemma {:induction false} ImageIsLastMatch(positions: seq<Vec3>, m: Mat3, i: nat, upto: nat)
    requires i < |positions| && upto <= |positions|
    ensures var j := ImageUpTo(positions, m, i, upto);
      && ((exists q :: 0 <= q < upto && Matches(positions, m, i, q)) ==>
            j < upto && Matches(positions, m, i, j)
            && forall q :: j < q < upto ==> !Matches(positions, m, i, q))
      && ((forall q :: 0 <= q < upto ==> !Matches(positions, m, i, q)) ==> j == 0)
  {
    if upto > 0 {
      ImageIsLastMatch(positions, m, i, upto - 1);
    }
  }

  /** Distinct atoms are farther apart than the tolerance. */
  ghost predicate Separated(positions: seq<Vec3>)
  {
    forall p, q | 0 <= p < |positions| && 0 <= q < |positions| && p != q ::
      Dist2(positions[p], positions[q]) >= Tolerance
  }

  /** An atom that lands on itself, and on which no other atom lands, is its
      own image. */
  lemma OnlySelfMatch(positions: seq<Vec3>, m: Mat3, i: nat)
    requires i < |positions| && Matches(positions, m, i, i)
    requires forall q | 0 <= q < |positions| && q != i :: !Matches(positions, m, i, q)
    ensures Image(positions, m, i) == i
  {
    ImageIsLastMatch(positions, m, i, |positions|);
  }

  /** Under the identity, separated atoms are each their own image. */
  lemma IdentityImage(positions: seq<Vec3>, i: nat)
    requires i < |positions| && Separated(positions)
    ensures Image(positions, Identity3, i) == i
  {
    forall q | 0 <= q < |positions|
      ensures VecMat(positions[q], Identity3) == positions[q]
    {
      VecMatIdentity(positions[q]);
    }
    OnlySelfMatch(positions, Identity3, i);
  }

  /** The position of atom i is the image of atom i's row: the loop over j
      keeps the last match. */
  method FindImage(positions: seq<Vec3>, m: Mat3, i: nat) returns (j: nat)
    requires i < |positions|
    ensures j == Image(positions, m, i)
  {
    j := 0;
    for q := 0 to |positions|
      invariant j == ImageUpTo(positions, m, i, q)
    {
      var t := VecMat(positions[q], m);
      var r := Sub3(t, positions[i]);
      if Dot3(r, r) < Tolerance {
        j := q;
      }
    }
  }

  // -----------------------------------------------------------------------
  // Basis-function lookup by (atom, n, l, m + l)
  // -----------------------------------------------------------------------

  /** The lookup table has room for atoms 0..N-1, n < 5, l < 3 and
      m + l < 7; a basis function outside it cannot be stored. */
  ghost predicate KeyInRange(bf: BasisFunction, atomCount: nat)
  {
    bf.atomid.Some? && bf.atomid.value < atomCount
    && 0 <= bf.n < 5 && 0 <= bf.l < 3 && 0 <= bf.m + bf.l < 7
  }

  predicate HasKey(bf: BasisFunction, a: nat, n: int, l: int, c: int)
  {
    bf.atomid == Some(a) && bf.n == n && bf.l == l && bf.m + bf.l == c
  }

  /** The index of the last of the first `upto` basis functions with key
      (a, n, l, c), or -1 when there is none. */
  function LookupUpTo(basis: seq<BasisFunction>, a: nat, n: int, l: int, c: int, upto: nat): (r: int)
    requires upto <= |basis|
    ensures -1 <= r < upto
  {
    if upto == 0 then -1
    else if HasKey(basis[upto - 1], a, n, l, c) then upto - 1
    else LookupUpTo(basis, a, n, l, c, upto - 1)
  }

  function Lookup(basis: seq<BasisFunction>, a: nat, n: int, l: int, c: int): (r: int)
    ensures -1 <= r < |basis|
  {
    LookupUpTo(basis, a, n, l, c, |basis|)
  }

  /** The lookup is -1 exactly when no basis function has the key, and
      otherwise the last one that has it. */
  lemma {:induction false} LookupIsLast(basis: seq<BasisFunction>, a: nat, n: int, l: int, c: int, upto: nat)
    requires upto <= |basis|
    ensures var r := LookupUpTo(basis, a, n, l, c, upto);
      && -1 <= r < upto
      && (r == -1 <==> forall q :: 0 <= q < upto ==> !HasKey(basis[q], a, n, l, c))
      && (r != -1 ==> HasKey(basis[r], a, n, l, c)
                      && forall q :: r < q < upto ==> !HasKey(basis[q], a, n, l, c))
  {
    if upto > 0 {
      LookupIsLast(basis, a, n, l, c, upto - 1);
    }
  }

  /** Different slots of one shell never resolve to the same basis function. */
  lemma LookupSlotsDistinct(basis: seq<BasisFunction>, a: nat, n: int, l: int, c1: int, c2: int)
    requires c1 != c2 && Lookup(basis, a, n, l, c1) != -1
    ensures Lookup(basis, a, n, l, c1) != Lookup(basis, a, n, l, c2)
  {
    LookupIsLast(basis, a, n, l, c1, |basis|);
    LookupIsLast(basis, a, n, l, c2, |basis|);
  }

  /** When keys are unique, every basis function is found under its own key. */
  lemma LookupOwnKey(basis: seq<BasisFunction>, i: nat)
    requires i < |basis| && basis[i].atomid.Some?
    requires forall p, q | 0 <= p < q < |basis| :: basis[p].atomid.Some? && basis[q].atomid.Some? ==>
      (basis[p].atomid, basis[p].n, basis[p].l, basis[p].m) != (basis[q].atomid, basis[q].n, basis[q].l, basis[q].m)
    ensures Lookup(basis, basis[i].atomid.value, basis[i].n, basis[i].l, basis[i].m + basis[i].l) == i
  {
    var bf := basis[i];
    var r := Lookup(basis, bf.atomid.value, bf.n, bf.l, bf.m + bf.l);
    LookupIsLast(basis, bf.atomid.value, bf.n, bf.l, bf.m + bf.l, |basis|);
    assert HasKey(basis[i], bf.atomid.value, bf.n, bf.l, bf.m + bf.l);
  }

  // -----------------------------------------------------------------------
  // Scattering one basis function's image into its matrix row
  // -----------------------------------------------------------------------

  /** Column c of a matrix: w . e_c, the image of the unit vector e_c. */
  function Column(w: seq<seq<real>>, c: nat): (col: seq<real>)
    requires forall r | 0 <= r < |w| :: c < |w[r]|
    ensures |col| == |w|
  {
    seq(|w|, r requires 0 <= r < |w| => w[r][c])
  }

  /** Entry j of the row after the coefficients col[0..upto) have been
      written to the columns the lookup gives for slots 0..upto of shell
      (dest, n, l): the last write to column j, or 0. */
  function RowEntry(basis: seq<BasisFunction>, dest: nat, n: int, l: int, col: seq<real>, j: int, upto: nat): real
    requires upto <= |col|
  {
    if upto == 0 then 0.0
    else if Lookup(basis, dest, n, l, upto - 1) == j then col[upto - 1]
    else RowEntry(basis, dest, n, l, col, j, upto - 1)
  }

  /** Slot c's coefficient lands in the column the lookup gives for slot c,
      and a column no slot resolves to stays 0. */
  lemma {:induction false} RowEntryScatter(basis: seq<BasisFunction>, dest: nat, n: int, l: int, col: seq<real>, j: int, upto: nat)
    requires upto <= |col|
    requires forall c | 0 <= c < upto :: Lookup(basis, dest, n, l, c) != -1
    ensures forall c | 0 <= c < upto :: Lookup(basis, dest, n, l, c) == j ==> RowEntry(basis, dest, n, l, col, j, upto) == col[c]
    ensures (forall c | 0 <= c < upto :: Lookup(basis, dest, n, l, c) != j) ==> RowEntry(basis, dest, n, l, col, j, upto) == 0.0
  {
    if upto > 0 {
      RowEntryScatter(basis, dest, n, l, col, j, upto - 1);
      forall c | 0 <= c < upto - 1
        ensures Lookup(basis, dest, n, l, c) != Lookup(basis, dest, n, l, upto - 1)
      {
        LookupSlotsDistinct(basis, dest, n, l, c, upto - 1);
      }
    }
  }

  // -----------------------------------------------------------------------
  // The operation matrices
  // -----------------------------------------------------------------------

  ghost predicate KeysInRange(basis: seq<BasisFunction>, atomCount: nat)
  {
    forall i | 0 <= i < |basis| :: KeyInRange(basis[i], atomCount)
  }

  /** Basis function bf can be carried by the point map m: its m lies in
      its shell, and every slot of its shell on the atom it is carried to
      exists. */
  ghost predicate ShellClosedUnder(positions: seq<Vec3>, basis: seq<BasisFunction>, m: Mat3, bf: BasisFunction)
    requires KeyInRange(bf, |positions|)
  {
    && bf.m <= bf.l
    && forall c | 0 <= c < 2 * bf.l + 1 ::
         Lookup(basis, Image(positions, m, bf.atomid.value), bf.n, bf.l, c) != -1
  }

  /** Basis function bf can be transformed by op. */
  ghost predicate ShellClosed(positions: seq<Vec3>, basis: seq<BasisFunction>, op: Operation, bf: BasisFunction)
    requires KeyInRange(bf, |positions|)
  {
    ShellClosedUnder(positions, basis, Matrix(op), bf)
  }

  /** `run` succeeds exactly when there is a basis, every key fits the
      lookup table and every shell image is complete. */
  ghost predicate RunSucceeds(positions: seq<Vec3>, basis: Option<seq<BasisFunction>>, ops: seq<Operation>)
  {
    && basis.Some?
    && KeysInRange(basis.value, |positions|)
    && forall k, i | 0 <= k < |ops| && 0 <= i < |basis.value| ::
         ShellClosed(positions, basis.value, ops[k], basis.value[i])
  }

  /** Entry (i, j) of the matrix of op: row i holds the image of basis
      function i, column (m+l) of its shell's block, scattered to the
      basis functions of the same shell on the image atom. */
  function OpEntry(positions: seq<Vec3>, basis: seq<BasisFunction>, op: Operation, i: nat, j: int): real
    requires i < |basis| && KeyInRange(basis[i], |positions|) && basis[i].m <= basis[i].l
    requires WellFormed(op)
  {
    EntryUnder(positions, basis, Matrix(op), op, i, j)
  }

  /** OpEntry with the point map m of op given separately: atoms move by m,
      coefficients come from op's blocks. */
  function EntryUnder(positions: seq<Vec3>, basis: seq<BasisFunction>, m: Mat3, op: Operation, i: nat, j: int): real
    requires i < |basis| && KeyInRange(basis[i], |positions|) && basis[i].m <= basis[i].l
    requires WellFormed(op)
  {
    var bf := basis[i];
    var w := WignerMatrix(op, bf.l);
    RowEntry(basis, Image(positions, m, bf.atomid.value), bf.n, bf.l, Column(w, bf.m + bf.l), j, 2 * bf.l + 1)
  }

  /** Each slot c of the image shell receives the block entry W[c][m+l] in
      the column of the basis function in that slot; every other column of
      the row is 0. */
  lemma OpEntryScatter(positions: seq<Vec3>, basis: seq<BasisFunction>, op: Operation, i: nat, j: int)
    requires i < |basis| && KeyInRange(basis[i], |positions|) && WellFormed(op)
    requires ShellClosed(positions, basis, op, basis[i])
    ensures var bf := basis[i];
      var dest := Image(positions, Matrix(op), bf.atomid.value);
      var w := WignerMatrix(op, bf.l);
      && (forall c | 0 <= c < 2 * bf.l + 1 :: Lookup(basis, dest, bf.n, bf.l, c) == j ==>
            OpEntry(positions, basis, op, i, j) == w[c][bf.m + bf.l])
      && ((forall c | 0 <= c < 2 * bf.l + 1 :: Lookup(basis, dest, bf.n, bf.l, c) != j) ==>
            OpEntry(positions, basis, op, i, j) == 0.0)
  {
    var bf := basis[i];
    var dest := Image(positions, Matrix(op), bf.atomid.value);
    var w := WignerMatrix(op, bf.l);
    RowEntryScatter(basis, dest, bf.n, bf.l, Column(w, bf.m + bf.l), j, 2 * bf.l + 1);
  }

  /** The identity operation gives the identity matrix when atoms are
      separated and no two basis functions share a key. */
  lemma IdentityOperationMatrix(positions: seq<Vec3>, basis: seq<BasisFunction>, i: nat, j: nat)
    requires Separated(positions) && KeysInRange(basis, |positions|)
    requires forall p, q | 0 <= p < q < |basis| ::
      (basis[p].atomid, basis[p].n, basis[p].l, basis[p].m) != (basis[q].atomid, basis[q].n, basis[q].l, basis[q].m)
    requires i < |basis| && j < |basis| && ShellClosed(positions, basis, Identity, basis[i])
    ensures OpEntry(positions, basis, Identity, i, j) == if i == j then 1.0 else 0.0
  {
    var bf := basis[i];
    var a := bf.atomid.value;
    IdentityImage(positions, a);
    LookupOwnKey(basis, i);
    OpEntryScatter(positions, basis, Identity, i, j);
    var w := WignerMatrix(Identity, bf.l);
    if i == j {
      assert Lookup(basis, a, bf.n, bf.l, bf.m + bf.l) == j;
    } else {
      forall c | 0 <= c < 2 * bf.l + 1 && Lookup(basis, a, bf.n, bf.l, c) == j
        ensures w[c][bf.m + bf.l] == 0.0
      {
        if c == bf.m + bf.l {
          assert false;
        }
      }
    }
  }

  /** The position of every atom of the molecule. */
  function Positions(atoms: seq<Atom>): (ps: seq<Vec3>)
    ensures |ps| == |atoms| && forall i | 0 <= i < |atoms| :: ps[i] == atoms[i].position
  {
    seq(|atoms|, i requires 0 <= i < |atoms| => atoms[i].position)
  }

  /** atomicTransformations[k][a]: where operation k sends atom a. */
  method MatchAtoms(positions: seq<Vec3>, ops: seq<Operation>) returns (at: array2<nat>)
    ensures fresh(at) && at.Length0 == |ops| && at.Length1 == |positions|
    ensures forall k, a | 0 <= k < |ops| && 0 <= a < |positions| :: at[k, a] == Image(positions, Matrix(ops[k]), a)
  {
    at := new nat[|ops|, |positions|]((_, _) => 0);
    for k := 0 to |ops|
      invariant forall k', a | 0 <= k' < k && 0 <= a < |positions| :: at[k', a] == Image(positions, Matrix(ops[k']), a)
    {
      var m := Matrix(ops[k]);
      for i := 0 to |positions|
        invariant forall k', a | 0 <= k' < k && 0 <= a < |positions| :: at[k', a] == Image(positions, Matrix(ops[k']), a)
        invariant forall a | 0 <= a < i :: at[k, a] == Image(positions, m, a)
      {
        var j := FindImage(positions, m, i);
        at[k, i] := j;
      }
    }
  }

  /** bfindices: the lookup table by (atom, n, l, m + l), -1 where empty; a
      key outside the table is an error. */
  method BuildLookup(basis: seq<BasisFunction>, atomCount: nat) returns (ok: bool, table: array4<int>)
    ensures fresh(table)
    ensures table.Length0 == atomCount && table.Length1 == 5 && table.Length2 == 3 && table.Length3 == 7
    ensures ok <==> KeysInRange(basis, atomCount)
    ensures ok ==> forall a, n, l, c | 0 <= a < atomCount && 0 <= n < 5 && 0 <= l < 3 && 0 <= c < 7 ::
      table[a, n, l, c] == Lookup(basis, a, n, l, c)
  {
    table := new int[atomCount, 5, 3, 7]((_, _, _, _) => -1);
    for i := 0 to |basis|
      invariant forall q | 0 <= q < i :: KeyInRange(basis[q], atomCount)
      invariant forall a, n, l, c | 0 <= a < atomCount && 0 <= n < 5 && 0 <= l < 3 && 0 <= c < 7 ::
        table[a, n, l, c] == LookupUpTo(basis, a, n, l, c, i)
    {
      var bf := basis[i];
      if !(bf.atomid.Some? && bf.atomid.value < atomCount && 0 <= bf.n < 5 && 0 <= bf.l < 3 && 0 <= bf.m + bf.l < 7) {
        return false, table;
      }
      table[bf.atomid.value, bf.n, bf.l, bf.m + bf.l] := i;
    }
    ok := true;
  }

  /** Writes the coefficients col[c] of basis function i's image into row i
      of matrix k, at the columns the lookup gives for slots c of shell
      (dest, n, l); a missing slot is an error. */
  method ScatterRow(om: array3<real>, k: nat, i: nat, table: array4<int>, basis: seq<BasisFunction>,
                    dest: nat, n: int, l: int, col: seq<real>) returns (ok: bool)
    requires k < om.Length0 && i < om.Length1 && om.Length2 == |basis|
    requires dest < table.Length0 && table.Length1 == 5 && table.Length2 == 3 && table.Length3 == 7
    requires 0 <= n < 5 && 0 <= l < 3 && |col| == 2 * l + 1
    requires forall c | 0 <= c < 7 :: table[dest, n, l, c] == Lookup(basis, dest, n, l, c)
    requires forall j | 0 <= j < |basis| :: om[k, i, j] == 0.0
    modifies om
    ensures forall k', i', j | 0 <= k' < om.Length0 && 0 <= i' < om.Length1 && 0 <= j < om.Length2 && (k' != k || i' != i) ::
      om[k', i', j] == old(om[k', i', j])
    ensures ok <==> forall c | 0 <= c < 2 * l + 1 :: Lookup(basis, dest, n, l, c) != -1
    ensures ok ==> forall j | 0 <= j < |basis| :: om[k, i, j] == RowEntry(basis, dest, n, l, col, j, 2 * l + 1)
  {
    for c := 0 to 2 * l + 1
      invariant forall k', i', j | 0 <= k' < om.Length0 && 0 <= i' < om.Length1 && 0 <= j < om.Length2 && (k' != k || i' != i) ::
        om[k', i', j] == old(om[k', i', j])
      invariant forall c' | 0 <= c' < c :: Lookup(basis, dest, n, l, c') != -1
      invariant forall j | 0 <= j < |basis| :: om[k, i, j] == RowEntry(basis, dest, n, l, col, j, c)
    {
      var idx := table[dest, n, l, c];
      if idx == -1 {
        return false;
      }
      om[k, i, idx] := col[c];
    }
    ok := true;
  }

  /** Fills matrix k of operation_matrices, row by row, for operation op
      whose point map is m. */
  method ScatterOperation(om: array3<real>, k: nat, positions: seq<Vec3>, basis: seq<BasisFunction>, op: Operation,
                          m: Mat3, at: array2<nat>, table: array4<int>) returns (ok: bool)
    requires WellFormed(op) && KeysInRange(basis, |positions|)
    requires k < om.Length0 && om.Length1 == |basis| && om.Length2 == |basis|
    requires k < at.Length0 && at.Length1 == |positions|
    requires forall a | 0 <= a < |positions| :: at[k, a] == Image(positions, m, a)
    requires table.Length0 == |positions| && table.Length1 == 5 && table.Length2 == 3 && table.Length3 == 7
    requires forall a, n, l, c | 0 <= a < |positions| && 0 <= n < 5 && 0 <= l < 3 && 0 <= c < 7 ::
      table[a, n, l, c] == Lookup(basis, a, n, l, c)
    requires forall i, j | 0 <= i < |basis| && 0 <= j < |basis| :: om[k, i, j] == 0.0
    modifies om
    ensures forall k', i, j | 0 <= k' < om.Length0 && k' != k && 0 <= i < |basis| && 0 <= j < |basis| ::
      om[k', i, j] == old(om[k', i, j])
    ensures ok <==> forall i | 0 <= i < |basis| :: ShellClosedUnder(positions, basis, m, basis[i])
    ensures ok ==> forall i, j | 0 <= i < |basis| && 0 <= j < |basis| :: om[k, i, j] == EntryUnder(positions, basis, m, op, i, j)
  {
    for i := 0 to |basis|
      invariant forall k', i', j | 0 <= k' < om.Length0 && k' != k && 0 <= i' < |basis| && 0 <= j < |basis| ::
        om[k', i', j] == old(om[k', i', j])
      invariant forall i' | 0 <= i' < i :: ShellClosedUnder(positions, basis, m, basis[i'])
      invariant forall i', j | 0 <= i' < |basis| && 0 <= j < |basis| ::
        om[k, i', j] == if i' < i then EntryUnder(positions, basis, m, op, i', j) else 0.0
    {
      assert KeyInRange(basis[i], |positions|);
      var dest := at[k, basis[i].atomid.value];
      ok := ScatterBasisFunction(om, k, i, positions, basis, op, m, dest, table);
      if !ok {
        return;
      }
    }
    ok := true;
  }

  /** Row i of matrix k: the image of basis function i, carried to atom
      dest, scattered over the slots of its shell there. */
  method ScatterBasisFunction(om: array3<real>, k: nat, i: nat, positions: seq<Vec3>, basis: seq<BasisFunction>,
                              op: Operation, m: Mat3, dest: nat, table: array4<int>) returns (ok: bool)
    requires WellFormed(op) && i < |basis| && KeyInRange(basis[i], |positions|)
    requires dest == Image(positions, m, basis[i].atomid.value)
    requires k < om.Length0 && om.Length1 == |basis| && om.Length2 == |basis|
    requires dest < table.Length0 && table.Length1 == 5 && table.Length2 == 3 && table.Length3 == 7
    requires forall c | 0 <= c < 7 :: table[dest, basis[i].n, basis[i].l, c] == Lookup(basis, dest, basis[i].n, basis[i].l, c)
    requires forall j | 0 <= j < |basis| :: om[k, i, j] == 0.0
    modifies om
    ensures forall k', i', j | 0 <= k' < om.Length0 && 0 <= i' < om.Length1 && 0 <= j < om.Length2 && (k' != k || i' != i) ::
      om[k', i', j] == old(om[k', i', j])
    ensures ok <==> ShellClosedUnder(positions, basis, m, basis[i])
    ensures ok ==> forall j | 0 <= j < |basis| :: om[k, i, j] == EntryUnder(positions, basis, m, op, i, j)
  {
    var bf := basis[i];
    var l := bf.l;
    if bf.m + l > 2 * l {
      return false;
    }
    var col := Column(WignerMatrix(op, l), bf.m + l);
    assert forall j :: EntryUnder(positions, basis, m, op, i, j) == RowEntry(basis, dest, bf.n, l, col, j, 2 * l + 1);
    ok := ScatterRow(om, k, i, table, basis, dest, bf.n, l, col);
  }

  /** operation_matrices: one dense matrix per operation. */
  method Scatter(positions: seq<Vec3>, basis: seq<BasisFunction>, ops: seq<Operation>,
                 at: array2<nat>, table: array4<int>) returns (ok: bool, om: array3<real>)
    requires forall k | 0 <= k < |ops| :: WellFormed(ops[k])
    requires KeysInRange(basis, |positions|)
    requires at.Length0 == |ops| && at.Length1 == |positions|
    requires forall k, a | 0 <= k < |ops| && 0 <= a < |positions| :: at[k, a] == Image(positions, Matrix(ops[k]), a)
    requires table.Length0 == |positions| && table.Length1 == 5 && table.Length2 == 3 && table.Length3 == 7
    requires forall a, n, l, c | 0 <= a < |positions| && 0 <= n < 5 && 0 <= l < 3 && 0 <= c < 7 ::
      table[a, n, l, c] == Lookup(basis, a, n, l, c)
    ensures fresh(om) && om.Length0 == |ops| && om.Length1 == |basis| && om.Length2 == |basis|
    ensures ok <==> forall k, i | 0 <= k < |ops| && 0 <= i < |basis| :: ShellClosed(positions, basis, ops[k], basis[i])
    ensures ok ==> forall k, i, j | 0 <= k < |ops| && 0 <= i < |basis| && 0 <= j < |basis| ::
      om[k, i, j] == OpEntry(positions, basis, ops[k], i, j)
  {
    om := new real[|ops|, |basis|, |basis|]((_, _, _) => 0.0);
    for k := 0 to |ops|
      invariant forall k', i | 0 <= k' < k && 0 <= i < |basis| :: ShellClosed(positions, basis, ops[k'], basis[i])
      invariant forall k', i, j | 0 <= k' < |ops| && 0 <= i < |basis| && 0 <= j < |basis| ::
        om[k', i, j] == if k' < k then OpEntry(positions, basis, ops[k'], i, j) else 0.0
    {
      ok := ScatterOperation(om, k, positions, basis, ops[k], Matrix(ops[k]), at, table);
      if !ok {
        return;
      }
    }
    ok := true;
  }

  // -----------------------------------------------------------------------
  // The engine
  // -----------------------------------------------------------------------

  class SymmetryOperations {
    const mol: Molecule
    /** The atom positions, read from the molecule when the engine is made. */
    const positions: seq<Vec3>
    var operations: seq<Operation>
    var atomicTransformations: array2<nat>
    var operationMatrices: array3<real>

    ghost predicate Valid()
      reads this
    {
      forall k | 0 <= k < |operations| :: WellFormed(operations[k])
    }

    constructor(mol: Molecule)
      ensures this.mol == mol && positions == Positions(mol.atoms)
      ensures operations == [] && Valid()
    {
      this.mol := mol;
      var ps: seq<Vec3> := [];
      for i := 0 to |mol.atoms|
        invariant ps == Positions(mol.atoms[..i])
      {
        ps := ps + [mol.atoms[i].position];
      }
      assert mol.atoms[..|mol.atoms|] == mol.atoms;
      positions := ps;
      operations := [];
      atomicTransformations := new nat[0, 0];
      operationMatrices := new real[0, 0, 0];
    }

    /** Appends one operation of the named kind; an unknown kind is an error
        and leaves the list unchanged. */
    method Add(kind: string, suffix: string, vec: Vec3, angle: real, norm: real,
               rot: Mat3, blocks: seq<seq<seq<real>>>) returns (ok: bool)
      requires Valid()
      requires (kind == "rotation" || kind == "improper") ==> norm > 0.0 && norm * norm == Dot3(vec, vec)
      requires (kind == "rotation" || kind == "mirror" || kind == "improper") ==> IsBlocks(blocks)
      modifies this
      ensures Valid()
      ensures ok <==> kind in {"identity", "rotation", "mirror", "improper", "inversion"}
      ensures ok ==> operations == old(operations) + [NewOperation(kind, suffix, vec, angle, norm, rot, blocks).value]
      ensures !ok ==> operations == old(operations)
      ensures atomicTransformations == old(atomicTransformations) && operationMatrices == old(operationMatrices)
    {
      NewOperationKinds(kind, suffix, vec, angle, norm, rot, blocks);
      var op := NewOperation(kind, suffix, vec, angle, norm, rot, blocks);
      if op.None? {
        return false;
      }
      operations := operations + [op.value];
      ok := true;
    }

    /** Matches atoms under every operation, then builds one dense matrix
        per operation acting on the molecule's basis. */
    method Run() returns (ok: bool)
      requires Valid() && |mol.atoms| == |positions|
      modifies this
      ensures Valid() && operations == old(operations)
      ensures ok <==> RunSucceeds(positions, mol.basis, operations)
      ensures mol.basis.Some? ==>
        && fresh(atomicTransformations)
        && atomicTransformations.Length0 == |operations| && atomicTransformations.Length1 == |positions|
        && forall k, a | 0 <= k < |operations| && 0 <= a < |positions| ::
             atomicTransformations[k, a] == Image(positions, Matrix(operations[k]), a)
      ensures ok ==>
        && fresh(operationMatrices)
        && operationMatrices.Length0 == |operations|
        && operationMatrices.Length1 == |mol.basis.value| && operationMatrices.Length2 == |mol.basis.value|
        && forall k, i, j | 0 <= k < |operations| && 0 <= i < |mol.basis.value| && 0 <= j < |mol.basis.value| ::
             operationMatrices[k, i, j] == OpEntry(positions, mol.basis.value, operations[k], i, j)
    {
      if mol.basis.None? {
        return false;
      }
      var basis := mol.basis.value;
      atomicTransformations := MatchAtoms(positions, operations);
      var table;
      ok, table := BuildLookup(basis, |mol.atoms|);
      if !ok {
        return;
      }
      var om;
      ok, om := Scatter(positions, basis, operations, atomicTransformations, table);
      operationMatrices := om;
    }
  }
}
