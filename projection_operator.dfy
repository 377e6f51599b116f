/** The projection operator: groups basis functions that the symmetry
    operations mix, decomposes each group into irreducible representations
    with the character table, and builds symmetry-adapted molecular orbitals
    by projecting seed basis functions onto each irrep. */
module ProjectionOperators {
  import opened Wrappers
  import opened CharacterTables

  /** Matrix entries at most this large in magnitude do not link two basis
      functions. */
  const ZeroTolerance: real := 0.000000001

  /** K operation matrices, each n by n. */
  predicate IsMatrices(mats: seq<seq<seq<real>>>, n: nat)
  {
    forall k | 0 <= k < |mats| :: |mats[k]| == n && forall i | 0 <= i < n :: |mats[k][i]| == n
  }

  /** Every row has n entries. */
  predicate Rect(rows: seq<seq<real>>, n: nat)
  {
    forall r | 0 <= r < |rows| :: |rows[r]| == n
  }

  // -----------------------------------------------------------------------
  // The group matrix
  // -----------------------------------------------------------------------

  /** Some operation among the first `upto` has a significant (i, j) entry. */
  function LinkedUpTo(mats: seq<seq<seq<real>>>, n: nat, i: nat, j: nat, upto: nat): bool
    requires IsMatrices(mats, n) && i < n && j < n && upto <= |mats|
  {
    if upto == 0 then false
    else LinkedUpTo(mats, n, i, j, upto - 1) || Abs(mats[upto - 1][i][j]) > ZeroTolerance
  }

  /** Entry (i, j) of the group matrix. */
  function Linked(mats: seq<seq<seq<real>>>, n: nat, i: nat, j: nat): bool
    requires IsMatrices(mats, n) && i < n && j < n
  {
    LinkedUpTo(mats, n, i, j, |mats|)
  }

  /** The or-accumulation is true exactly when some operation matrix has an
      entry above the tolerance at (i, j). */
  lemma {:induction false} LinkedUpToIff(mats: seq<seq<seq<real>>>, n: nat, i: nat, j: nat, upto: nat)
    requires IsMatrices(mats, n) && i < n && j < n && upto <= |mats|
    ensures LinkedUpTo(mats, n, i, j, upto) <==> exists k | 0 <= k < upto :: Abs(mats[k][i][j]) > ZeroTolerance
  {
    if upto > 0 {
      LinkedUpToIff(mats, n, i, j, upto - 1);
      if Abs(mats[upto - 1][i][j]) > ZeroTolerance {
        assert exists k | 0 <= k < upto :: Abs(mats[k][i][j]) > ZeroTolerance by {
          assert 0 <= upto - 1 < upto;
        }
      } else {
        assert forall k | 0 <= k < upto && Abs(mats[k][i][j]) > ZeroTolerance :: k < upto - 1;
      }
    }
  }

  /** Row i of the group matrix. */
  function GroupRow(mats: seq<seq<seq<real>>>, n: nat, i: nat): (row: seq<bool>)
    requires IsMatrices(mats, n) && i < n
    ensures |row| == n
  {
    seq(n, j requires 0 <= j < n => Linked(mats, n, i, j))
  }

  // -----------------------------------------------------------------------
  // Groups of basis functions
  // -----------------------------------------------------------------------

  /** The number of true entries. */
  function CountTrue(row: seq<bool>): nat
  {
    if |row| == 0 then 0 else CountTrue(row[..|row| - 1]) + if row[|row| - 1] then 1 else 0
  }

  /** The indices of the true entries, in increasing order. */
  function Where(row: seq<bool>): seq<nat>
  {
    if |row| == 0 then [] else Where(row[..|row| - 1]) + if row[|row| - 1] then [|row| - 1] else []
  }

  /** Where lists exactly the true positions, increasing, one per true entry. */
  lemma {:induction false} WhereSpec(row: seq<bool>)
    ensures forall x: nat :: x in Where(row) <==> x < |row| && row[x]
    ensures forall p, q | 0 <= p < q < |Where(row)| :: Where(row)[p] < Where(row)[q]
    ensures |Where(row)| == CountTrue(row)
  {
    if |row| > 0 {
      var init := row[..|row| - 1];
      WhereSpec(init);
      assert forall x | 0 <= x < |init| :: row[x] == init[x];
      var w := Where(init);
      forall p | 0 <= p < |w|
        ensures w[p] < |init|
      {
        assert w[p] in w;
      }
    }
  }

  /** The group of row i: its linked columns if there is more than one,
      otherwise i alone. */
  function RowGroup(row: seq<bool>, i: nat): seq<nat>
  {
    if CountTrue(row) > 1 then Where(row) else [i]
  }

  /** A row with several links groups exactly its linked columns, in
      increasing order; any other row is a group of its own. */
  lemma RowGroupMembers(row: seq<bool>, i: nat)
    ensures CountTrue(row) > 1 ==>
      && (forall x: nat :: x in RowGroup(row, i) <==> x < |row| && row[x])
      && (forall p, q | 0 <= p < q < |RowGroup(row, i)| :: RowGroup(row, i)[p] < RowGroup(row, i)[q])
    ensures CountTrue(row) <= 1 ==> RowGroup(row, i) == [i]
    ensures |RowGroup(row, i)| >= 1
  {
    WhereSpec(row);
  }

  /** The group of every basis function, one per row, before duplicates are
      removed. */
  function AllGroups(mats: seq<seq<seq<real>>>, n: nat): (gs: seq<seq<nat>>)
    requires IsMatrices(mats, n)
    ensures |gs| == n
  {
    seq(n, i requires 0 <= i < n => RowGroup(GroupRow(mats, n, i), i))
  }

  /** s without repeats, each element kept at its first occurrence. */
  function Dedupe<T(==)>(s: seq<T>): seq<T>
  {
    if |s| == 0 then []
    else
      var d := Dedupe(s[..|s| - 1]);
      if s[|s| - 1] in d then d else d + [s[|s| - 1]]
  }

  /** Where x first occurs in s. */
  function FirstIndex<T(==)>(s: seq<T>, x: T): (p: nat)
    requires x in s
    ensures p < |s| && s[p] == x && forall q | 0 <= q < p :: s[q] != x
  {
    var init := s[..|s| - 1];
    if x in init then FirstIndex(init, x) else |s| - 1
  }

  /** Dedupe keeps every element of s once, in first-occurrence order. */
  lemma {:induction false} DedupeSpec<T>(s: seq<T>)
    ensures forall x :: x in Dedupe(s) <==> x in s
    ensures forall p, q | 0 <= p < q < |Dedupe(s)| :: Dedupe(s)[p] != Dedupe(s)[q]
    ensures forall p, q | 0 <= p < q < |Dedupe(s)| ::
      FirstIndex(s, Dedupe(s)[p]) < FirstIndex(s, Dedupe(s)[q])
  {
    if |s| > 0 {
      var init := s[..|s| - 1];
      DedupeSpec(init);
      assert forall x :: x in s <==> x in init || x == s[|s| - 1];
      assert forall x | x in init :: FirstIndex(s, x) == FirstIndex(init, x);
    }
  }

  /** The groups collect keeps. */
  function CollectedGroups(mats: seq<seq<seq<real>>>, n: nat): seq<seq<nat>>
    requires IsMatrices(mats, n)
  {
    Dedupe(AllGroups(mats, n))
  }

  /** Every group holds valid basis-function indices. */
  predicate GroupsInRange(groups: seq<seq<nat>>, n: nat)
  {
    forall gi, t | 0 <= gi < |groups| && 0 <= t < |groups[gi]| :: groups[gi][t] < n
  }

  /** Every row's group holds valid basis-function indices. */
  lemma AllGroupsInRange(mats: seq<seq<seq<real>>>, n: nat)
    requires IsMatrices(mats, n)
    ensures GroupsInRange(AllGroups(mats, n), n)
  {
    var all := AllGroups(mats, n);
    forall i | 0 <= i < n
      ensures forall t | 0 <= t < |all[i]| :: all[i][t] < n
    {
      RowGroupMembers(GroupRow(mats, n, i), i);
      assert forall t | 0 <= t < |all[i]| :: all[i][t] in all[i];
    }
  }

  /** Every basis function's group is among the collected groups. */
  lemma CollectedGroupsCover(mats: seq<seq<seq<real>>>, n: nat)
    requires IsMatrices(mats, n)
    ensures forall i | 0 <= i < n :: RowGroup(GroupRow(mats, n, i), i) in CollectedGroups(mats, n)
  {
    var all := AllGroups(mats, n);
    DedupeSpec(all);
    assert forall i | 0 <= i < n :: all[i] == RowGroup(GroupRow(mats, n, i), i) && all[i] in all;
  }

  /** Every collected group is some basis function's group. */
  lemma CollectedGroupsOrigin(mats: seq<seq<seq<real>>>, n: nat)
    requires IsMatrices(mats, n)
    ensures forall g | g in CollectedGroups(mats, n) :: exists i | 0 <= i < n :: g == RowGroup(GroupRow(mats, n, i), i)
  {
    var all := AllGroups(mats, n);
    DedupeSpec(all);
    forall g | g in CollectedGroups(mats, n)
      ensures exists i | 0 <= i < n :: g == RowGroup(GroupRow(mats, n, i), i)
    {
      var i :| 0 <= i < n && all[i] == g;
    }
  }

  /** The collected groups are the rows' groups without repeats, so every
      basis function's group is among them, each of them is some basis
      function's group, and all are in range. */
  lemma CollectedGroupsSpec(mats: seq<seq<seq<real>>>, n: nat)
    requires IsMatrices(mats, n)
    ensures forall i | 0 <= i < n :: RowGroup(GroupRow(mats, n, i), i) in CollectedGroups(mats, n)
    ensures forall g | g in CollectedGroups(mats, n) :: exists i | 0 <= i < n :: g == RowGroup(GroupRow(mats, n, i), i)
    ensures GroupsInRange(CollectedGroups(mats, n), n)
  {
    CollectedGroupsCover(mats, n);
    CollectedGroupsOrigin(mats, n);
    AllGroupsInRange(mats, n);
    var all, groups := AllGroups(mats, n), CollectedGroups(mats, n);
    forall gi, t | 0 <= gi < |groups| && 0 <= t < |groups[gi]|
      ensures groups[gi][t] < n
    {
      assert groups[gi] in groups;
      var i :| 0 <= i < n && groups[gi] == RowGroup(GroupRow(mats, n, i), i);
      assert groups[gi] == all[i];
    }
  }

  // -----------------------------------------------------------------------
  // The irreps a group spans
  // -----------------------------------------------------------------------

  /** The sum of the diagonal entries of m at the group's indices. */
  function Trace(m: seq<seq<real>>, n: nat, g: seq<nat>): real
    requires |m| == n && (forall i | 0 <= i < n :: |m[i]| == n)
    requires forall t | 0 <= t < |g| :: g[t] < n
  {
    if |g| == 0 then 0.0 else Trace(m, n, g[..|g| - 1]) + m[g[|g| - 1]][g[|g| - 1]]
  }

  /** The group's character under every operation. */
  function GroupTraces(mats: seq<seq<seq<real>>>, n: nat, g: seq<nat>): (chi: seq<real>)
    requires IsMatrices(mats, n) && forall t | 0 <= t < |g| :: g[t] < n
    ensures |chi| == |mats|
  {
    seq(|mats|, k requires 0 <= k < |mats| => Trace(mats[k], n, g))
  }

  /** Under an operation that maps each basis function to itself, the
      character of a group is the number of functions in it. */
  lemma {:induction false} TraceOfIdentity(m: seq<seq<real>>, n: nat, g: seq<nat>)
    requires |m| == n && (forall i | 0 <= i < n :: |m[i]| == n && m[i][i] == 1.0)
    requires forall t | 0 <= t < |g| :: g[t] < n
    ensures Trace(m, n, g) == |g| as real
  {
    if |g| > 0 {
      TraceOfIdentity(m, n, g[..|g| - 1]);
    }
  }

  /** The irreps spanned by each group: lot of the group's characters. */
  function IrrepsOf(mats: seq<seq<seq<real>>>, n: nat, chars: seq<seq<real>>, groups: seq<seq<nat>>): (irs: seq<seq<int>>)
    requires IsMatrices(mats, n) && |mats| > 0 && GroupsInRange(groups, n)
    requires forall j | 0 <= j < |chars| :: |chars[j]| == |mats|
    ensures |irs| == |groups| && forall gi | 0 <= gi < |groups| :: |irs[gi]| == |chars|
  {
    seq(|groups|, gi requires 0 <= gi < |groups| => LotOf(chars, |mats|, GroupTraces(mats, n, groups[gi])))
  }

  // -----------------------------------------------------------------------
  // Projection onto an irrep
  // -----------------------------------------------------------------------

  /** The sum over the first `upto` operations of chi[k] times row bf of
      operation k. */
  function ProjectionUpTo(mats: seq<seq<seq<real>>>, n: nat, chi: seq<real>, bf: nat, upto: nat): (r: seq<real>)
    requires IsMatrices(mats, n) && bf < n && upto <= |mats| == |chi|
    ensures |r| == n
  {
    if upto == 0 then Zeros(n)
    else Add(ProjectionUpTo(mats, n, chi, bf, upto - 1), Scale(chi[upto - 1], mats[upto - 1][bf]))
  }

  /** The (bf, c) entries of the operation matrices. */
  function Column(mats: seq<seq<seq<real>>>, n: nat, bf: nat, c: nat): (col: seq<real>)
    requires IsMatrices(mats, n) && bf < n && c < n
    ensures |col| == |mats|
  {
    seq(|mats|, k requires 0 <= k < |mats| => mats[k][bf][c])
  }

  /** Entry c of the projection is the dot product of the irrep's characters
      with the operations' (bf, c) entries. */
  lemma {:induction false} ProjectionIsDot(mats: seq<seq<seq<real>>>, n: nat, chi: seq<real>, bf: nat, c: nat, upto: nat)
    requires IsMatrices(mats, n) && bf < n && c < n && upto <= |mats| == |chi|
    ensures ProjectionUpTo(mats, n, chi, bf, upto)[c] == DotUpTo(chi, Column(mats, n, bf, c), upto)
  {
    if upto > 0 {
      ProjectionIsDot(mats, n, chi, bf, c, upto - 1);
    }
  }

  /** A basis function that no operation maps onto function c has no
      component along c after projection. */
  lemma ProjectionOutside(mats: seq<seq<seq<real>>>, n: nat, chi: seq<real>, bf: nat, c: nat)
    requires IsMatrices(mats, n) && bf < n && c < n && |mats| == |chi|
    requires forall k | 0 <= k < |mats| :: mats[k][bf][c] == 0.0
    ensures ProjectionUpTo(mats, n, chi, bf, |mats|)[c] == 0.0
  {
    ProjectionIsDot(mats, n, chi, bf, c, |mats|);
    assert Column(mats, n, bf, c) == Zeros(|chi|);
    DotZeros(chi);
  }

  /** normalise keeps the length of a vector. */
  ghost predicate KeepsLength(normalise: seq<real> -> seq<real>)
  {
    forall v: seq<real> :: |normalise(v)| == |v|
  }

  /** `count` rows of n entries each. */
  predicate IsBlock(rows: seq<seq<real>>, count: nat, n: nat)
  {
    |rows| == count && forall r | 0 <= r < count :: |rows[r]| == n
  }

  /** orth maps a list of rows of length n to as many rows of length n. */
  ghost predicate KeepsRows(orth: seq<seq<real>> -> seq<seq<real>>, n: nat)
  {
    forall rows: seq<seq<real>> {:trigger Rect(rows, n)} | Rect(rows, n) :: IsBlock(orth(rows), |rows|, n)
  }

  /** The normalised projection of basis function bf onto the irrep with
      characters chi. */
  function Seed(mats: seq<seq<seq<real>>>, n: nat, chi: seq<real>, normalise: seq<real> -> seq<real>, bf: nat): (r: seq<real>)
    requires IsMatrices(mats, n) && bf < n && |mats| == |chi| && KeepsLength(normalise)
    ensures |r| == n
  {
    normalise(ProjectionUpTo(mats, n, chi, bf, |mats|))
  }

  // -----------------------------------------------------------------------
  // Molecular orbitals
  // -----------------------------------------------------------------------

  /** The normalised projections of the first `count` functions of g. */
  function Seeds(mats: seq<seq<seq<real>>>, n: nat, chi: seq<real>, normalise: seq<real> -> seq<real>, g: seq<nat>, count: nat): (s: seq<seq<real>>)
    requires IsMatrices(mats, n) && |mats| == |chi| && KeepsLength(normalise)
    requires count <= |g| && forall t | 0 <= t < |g| :: g[t] < n
    ensures |s| == count && Rect(s, n)
  {
    seq(count, k requires 0 <= k < count => Seed(mats, n, chi, normalise, g[k]))
  }

  /** int(x): truncation toward zero. */
  function TruncToInt(x: real): int
  {
    if x >= 0.0 then x.Floor else -((-x).Floor)
  }

  /** Truncation keeps the sign, drops less than one, and leaves integers. */
  lemma TruncToIntSpec(x: real)
    ensures x >= 0.0 ==> 0 <= TruncToInt(x) && TruncToInt(x) as real <= x < TruncToInt(x) as real + 1.0
    ensures x < 0.0 ==> TruncToInt(x) <= 0 && TruncToInt(x) as real - 1.0 < x <= TruncToInt(x) as real
  {
  }

  lemma TruncOfInteger(k: int)
    ensures TruncToInt(k as real) == k
  {
  }

  /** c times d, as c copies of d added up (or taken away when c is
      negative); kept recursive so that its callers reason about the
      product without nonlinear arithmetic. */
  function Times(c: int, d: real): real
    decreases if c < 0 then -c else c
  {
    if c == 0 then 0.0 else if c > 0 then Times(c - 1, d) + d else Times(c + 1, d) - d
  }

  /** Times is the product. */
  lemma {:induction false} TimesIsProduct(c: int, d: real)
    ensures Times(c, d) == c as real * d
    decreases if c < 0 then -c else c
  {
    if c > 0 {
      TimesIsProduct(c - 1, d);
    } else if c < 0 {
      TimesIsProduct(c + 1, d);
    }
  }

  /** How many seeds an irrep present c times with dimension d asks for:
      int(c * d). */
  function SeedCount(c: int, d: real): int
  {
    TruncToInt(Times(c, d))
  }

  /** The orbitals of irrep j, present c times, in group g: c times the
      dimension of j seeds, the first functions of g projected onto j, and
      orthonormalised together when there is more than one. */
  function Block(mats: seq<seq<seq<real>>>, n: nat, chi: seq<real>, normalise: seq<real> -> seq<real>,
                 orth: seq<seq<real>> -> seq<seq<real>>, g: seq<nat>, c: int): Result<seq<seq<real>>>
    requires IsMatrices(mats, n) && 0 < |mats| == |chi| && KeepsLength(normalise)
    requires forall t | 0 <= t < |g| :: g[t] < n
  {
    var count := SeedCount(c, chi[0]);
    if count < 0 then Failure("negative dimensions are not allowed")
    else if count > |g| then Failure("group index out of bounds")
    else if count == 0 then Failure("index 0 is out of bounds for an empty block")
    else
      var seeds := Seeds(mats, n, chi, normalise, g, count);
      if count > 1 then Success(orth(seeds)) else Success(seeds)
  }

  /** A block succeeds exactly when its count lies between one and the group
      size; it then has count rows of length n, a single seed is kept as it
      is, and several seeds are the first functions of the group. */
  lemma BlockShape(mats: seq<seq<seq<real>>>, n: nat, chi: seq<real>, normalise: seq<real> -> seq<real>,
                   orth: seq<seq<real>> -> seq<seq<real>>, g: seq<nat>, c: int)
    requires IsMatrices(mats, n) && 0 < |mats| == |chi| && KeepsLength(normalise) && KeepsRows(orth, n)
    requires forall t | 0 <= t < |g| :: g[t] < n
    ensures var count := SeedCount(c, chi[0]);
      && (Block(mats, n, chi, normalise, orth, g, c).Success? <==> 1 <= count <= |g|)
      && (Block(mats, n, chi, normalise, orth, g, c).Success? ==>
            && |Block(mats, n, chi, normalise, orth, g, c).value| == count
            && Rect(Block(mats, n, chi, normalise, orth, g, c).value, n))
      && (count == 1 <= |g| ==> Block(mats, n, chi, normalise, orth, g, c) == Success([Seed(mats, n, chi, normalise, g[0])]))
      && (1 < count <= |g| ==>
            Block(mats, n, chi, normalise, orth, g, c) ==
              Success(orth(Seeds(mats, n, chi, normalise, g, count))))
  {
    var count := SeedCount(c, chi[0]);
    if count == 1 <= |g| {
      assert Seeds(mats, n, chi, normalise, g, count) == [Seed(mats, n, chi, normalise, g[0])];
    }
  }

  /** n by n operation matrices, at least one, a character per operation
      in every irrep's row, and a normalisation that keeps lengths. */
  ghost predicate Fits(mats: seq<seq<seq<real>>>, n: nat, chars: seq<seq<real>>, normalise: seq<real> -> seq<real>)
  {
    && IsMatrices(mats, n) && |mats| > 0 && KeepsLength(normalise)
    && forall j | 0 <= j < |chars| :: |chars[j]| == |mats|
  }

  /** Appends the block of an irrep with characters chi, present c times in
      group g, to the rows already written: an absent irrep adds nothing,
      and a block that fails or that would run past the n rows of the
      orbital matrix is an error. */
  function PlaceStep(mats: seq<seq<seq<real>>>, n: nat, chi: seq<real>, normalise: seq<real> -> seq<real>,
                     orth: seq<seq<real>> -> seq<seq<real>>, a: seq<seq<real>>, g: seq<nat>, c: int): Result<seq<seq<real>>>
    requires IsMatrices(mats, n) && 0 < |mats| == |chi| && KeepsLength(normalise)
    requires forall t | 0 <= t < |g| :: g[t] < n
  {
    if c == 0 then Success(a)
    else
      match Block(mats, n, chi, normalise, orth, g, c)
      case Failure(e) => Failure(e)
      case Success(b) => if |a| + |b| > n then Failure("orbital index out of bounds") else Success(a + b)
  }

  /** Appends the blocks of the first `upto` irreps of group g to acc. */
  function GroupStep(mats: seq<seq<seq<real>>>, n: nat, chars: seq<seq<real>>, normalise: seq<real> -> seq<real>,
                     orth: seq<seq<real>> -> seq<seq<real>>, acc: seq<seq<real>>, g: seq<nat>, cs: seq<int>, upto: nat): Result<seq<seq<real>>>
    requires Fits(mats, n, chars, normalise)
    requires forall t | 0 <= t < |g| :: g[t] < n
    requires upto <= |cs| <= |chars|
  {
    if upto == 0 then Success(acc)
    else
      match GroupStep(mats, n, chars, normalise, orth, acc, g, cs, upto - 1)
      case Failure(e) => Failure(e)
      case Success(a) => PlaceStep(mats, n, chars[upto - 1], normalise, orth, a, g, cs[upto - 1])
  }

  /** One more irrep: an earlier error is kept, otherwise its block is placed. */
  lemma GroupStepNext(mats: seq<seq<seq<real>>>, n: nat, chars: seq<seq<real>>, normalise: seq<real> -> seq<real>,
                      orth: seq<seq<real>> -> seq<seq<real>>, acc: seq<seq<real>>, g: seq<nat>, cs: seq<int>, j: nat)
    requires Fits(mats, n, chars, normalise)
    requires forall t | 0 <= t < |g| :: g[t] < n
    requires j < |cs| <= |chars|
    ensures var prev := GroupStep(mats, n, chars, normalise, orth, acc, g, cs, j);
      GroupStep(mats, n, chars, normalise, orth, acc, g, cs, j + 1) ==
        if prev.Failure? then prev else PlaceStep(mats, n, chars[j], normalise, orth, prev.value, g, cs[j])
  {
  }

  /** The orbitals of the first `upto` groups, in order. */
  function MoRowsUpTo(mats: seq<seq<seq<real>>>, n: nat, chars: seq<seq<real>>, normalise: seq<real> -> seq<real>,
                      orth: seq<seq<real>> -> seq<seq<real>>, groups: seq<seq<nat>>, irreps: seq<seq<int>>, upto: nat): Result<seq<seq<real>>>
    requires Fits(mats, n, chars, normalise) && GroupsInRange(groups, n)
    requires |groups| == |irreps| && forall gi | 0 <= gi < |irreps| :: |irreps[gi]| <= |chars|
    requires upto <= |groups|
  {
    if upto == 0 then Success([])
    else
      match MoRowsUpTo(mats, n, chars, normalise, orth, groups, irreps, upto - 1)
      case Failure(e) => Failure(e)
      case Success(a) => GroupStep(mats, n, chars, normalise, orth, a, groups[upto - 1], irreps[upto - 1], |irreps[upto - 1]|)
  }

  /** All the orbitals fit in the n rows, n entries each. */
  lemma {:induction false} MoRowsLayout(mats: seq<seq<seq<real>>>, n: nat, chars: seq<seq<real>>, normalise: seq<real> -> seq<real>,
                                        orth: seq<seq<real>> -> seq<seq<real>>, groups: seq<seq<nat>>, irreps: seq<seq<int>>, upto: nat)
    requires Fits(mats, n, chars, normalise) && KeepsRows(orth, n) && GroupsInRange(groups, n)
    requires |groups| == |irreps| && forall gi | 0 <= gi < |irreps| :: |irreps[gi]| <= |chars|
    requires upto <= |groups|
    ensures MoRowsUpTo(mats, n, chars, normalise, orth, groups, irreps, upto).Success? ==>
      var r := MoRowsUpTo(mats, n, chars, normalise, orth, groups, irreps, upto).value;
      |r| <= n && Rect(r, n)
  {
    if upto > 0 {
      MoRowsLayout(mats, n, chars, normalise, orth, groups, irreps, upto - 1);
      var prev := MoRowsUpTo(mats, n, chars, normalise, orth, groups, irreps, upto - 1);
      if prev.Success? {
        var g := groups[upto - 1];
        assert forall t | 0 <= t < |g| :: g[t] < n;
        GroupStepLayout(mats, n, chars, normalise, orth, prev.value, g, irreps[upto - 1], |irreps[upto - 1]|);
      }
    }
  }

  /** The number of orbitals the irreps of a group ask for: the sum over
      the irreps present of count times dimension. */
  function RowsNeeded(chars: seq<seq<real>>, cs: seq<int>, upto: nat): int
    requires upto <= |cs| <= |chars| && forall j | 0 <= j < |chars| :: |chars[j]| > 0
  {
    if upto == 0 then 0
    else RowsNeeded(chars, cs, upto - 1) + if cs[upto - 1] == 0 then 0 else SeedCount(cs[upto - 1], chars[upto - 1][0])
  }

  /** Each irrep present writes its count times dimension rows after the
      ones already there: a successful group step extends acc by exactly
      RowsNeeded rows, all of length n, and stays within the n rows. */
  lemma {:induction false} GroupStepLayout(mats: seq<seq<seq<real>>>, n: nat, chars: seq<seq<real>>, normalise: seq<real> -> seq<real>,
                                           orth: seq<seq<real>> -> seq<seq<real>>, acc: seq<seq<real>>, g: seq<nat>, cs: seq<int>, upto: nat)
    requires Fits(mats, n, chars, normalise) && KeepsRows(orth, n)
    requires forall t | 0 <= t < |g| :: g[t] < n
    requires upto <= |cs| <= |chars|
    requires Rect(acc, n) && |acc| <= n
    ensures GroupStep(mats, n, chars, normalise, orth, acc, g, cs, upto).Success? ==>
      var r := GroupStep(mats, n, chars, normalise, orth, acc, g, cs, upto).value;
      && |acc| <= |r| && r[..|acc|] == acc
      && |r| == |acc| + RowsNeeded(chars, cs, upto) <= n
      && Rect(r, n)
  {
    if upto > 0 {
      GroupStepLayout(mats, n, chars, normalise, orth, acc, g, cs, upto - 1);
      if cs[upto - 1] != 0 {
        BlockShape(mats, n, chars[upto - 1], normalise, orth, g, cs[upto - 1]);
        var prev := GroupStep(mats, n, chars, normalise, orth, acc, g, cs, upto - 1);
        var blk := Block(mats, n, chars[upto - 1], normalise, orth, g, cs[upto - 1]);
        if prev.Success? && blk.Success? {
          var a, b := prev.value, blk.value;
          assert (a + b)[..|acc|] == a[..|acc|];
        }
      }
    }
  }

  /** A failure stays the same failure as more irreps are processed. */
  lemma {:induction false} GroupStepFails(mats: seq<seq<seq<real>>>, n: nat, chars: seq<seq<real>>, normalise: seq<real> -> seq<real>,
                                          orth: seq<seq<real>> -> seq<seq<real>>, acc: seq<seq<real>>, g: seq<nat>, cs: seq<int>, a: nat, b: nat)
    requires Fits(mats, n, chars, normalise)
    requires forall t | 0 <= t < |g| :: g[t] < n
    requires a <= b <= |cs| <= |chars|
    requires GroupStep(mats, n, chars, normalise, orth, acc, g, cs, a).Failure?
    ensures GroupStep(mats, n, chars, normalise, orth, acc, g, cs, b) == GroupStep(mats, n, chars, normalise, orth, acc, g, cs, a)
  {
    if a < b {
      GroupStepFails(mats, n, chars, normalise, orth, acc, g, cs, a, b - 1);
    }
  }

  /** A failure stays the same failure as more groups are processed. */
  lemma {:induction false} MoRowsFails(mats: seq<seq<seq<real>>>, n: nat, chars: seq<seq<real>>, normalise: seq<real> -> seq<real>,
                                       orth: seq<seq<real>> -> seq<seq<real>>, groups: seq<seq<nat>>, irreps: seq<seq<int>>, a: nat, b: nat)
    requires Fits(mats, n, chars, normalise) && GroupsInRange(groups, n)
    requires |groups| == |irreps| && forall gi | 0 <= gi < |irreps| :: |irreps[gi]| <= |chars|
    requires a <= b <= |groups|
    requires MoRowsUpTo(mats, n, chars, normalise, orth, groups, irreps, a).Failure?
    ensures MoRowsUpTo(mats, n, chars, normalise, orth, groups, irreps, b) == MoRowsUpTo(mats, n, chars, normalise, orth, groups, irreps, a)
  {
    if a < b {
      MoRowsFails(mats, n, chars, normalise, orth, groups, irreps, a, b - 1);
    }
  }

  // -----------------------------------------------------------------------
  // The imperative operator
  // -----------------------------------------------------------------------

  /** ORs into gm, entry by entry, whether m's entry is significant. */
  method OrMask(gm: array2<bool>, m: seq<seq<real>>, n: nat)
    requires gm.Length0 == n && gm.Length1 == n && |m| == n && forall i | 0 <= i < n :: |m[i]| == n
    modifies gm
    ensures forall i, j | 0 <= i < n && 0 <= j < n :: gm[i, j] == (old(gm[i, j]) || Abs(m[i][j]) > ZeroTolerance)
  {
    for i := 0 to n
      invariant forall i', j | 0 <= i' < n && 0 <= j < n ::
        gm[i', j] == if i' < i then old(gm[i', j]) || Abs(m[i'][j]) > ZeroTolerance else old(gm[i', j])
    {
      for j := 0 to n
        invariant forall i', j' | 0 <= i' < n && 0 <= j' < n ::
          gm[i', j'] == if i' < i || (i' == i && j' < j) then old(gm[i', j']) || Abs(m[i'][j']) > ZeroTolerance else old(gm[i', j'])
      {
        gm[i, j] := gm[i, j] || Abs(m[i][j]) > ZeroTolerance;
      }
    }
  }

  /** The group matrix, shaped like the first operation matrix. */
  method GroupMatrix(mats: seq<seq<seq<real>>>, n: nat) returns (gm: array2<bool>)
    requires IsMatrices(mats, n) && |mats| > 0
    ensures fresh(gm) && gm.Length0 == n && gm.Length1 == n
    ensures forall i, j | 0 <= i < n && 0 <= j < n :: gm[i, j] == Linked(mats, n, i, j)
  {
    gm := new bool[|mats[0]|, |mats[0]|]((_, _) => false);
    for k := 0 to |mats|
      invariant forall i, j | 0 <= i < n && 0 <= j < n :: gm[i, j] == LinkedUpTo(mats, n, i, j, k)
    {
      OrMask(gm, mats[k], n);
    }
  }

  /** Row i of a boolean matrix. */
  function RowOf(gm: array2<bool>, i: nat): (row: seq<bool>)
    reads gm
    requires i < gm.Length0
    ensures |row| == gm.Length1
  {
    seq(gm.Length1, j requires 0 <= j < gm.Length1 reads gm => gm[i, j])
  }

  /** Counts row i's links, then lists them if there is more than one. */
  method RowGroupOf(gm: array2<bool>, i: nat) returns (g: seq<nat>)
    requires i < gm.Length0
    ensures g == RowGroup(RowOf(gm, i), i)
  {
    ghost var row := RowOf(gm, i);
    var count := 0;
    for j := 0 to gm.Length1
      invariant count == CountTrue(row[..j])
    {
      assert row[..j + 1][..j] == row[..j];
      if gm[i, j] {
        count := count + 1;
      }
    }
    assert row[..gm.Length1] == row;
    if count > 1 {
      g := [];
      for j := 0 to gm.Length1
        invariant g == Where(row[..j])
      {
        assert row[..j + 1][..j] == row[..j];
        if gm[i, j] {
          g := g + [j];
        }
      }
    } else {
      g := [i];
    }
  }

  /** Keeps the first occurrence of every group. */
  method DedupeGroups(gs: seq<seq<nat>>) returns (r: seq<seq<nat>>)
    ensures r == Dedupe(gs)
  {
    r := [];
    for i := 0 to |gs|
      invariant r == Dedupe(gs[..i])
    {
      assert gs[..i + 1][..i] == gs[..i];
      if gs[i] !in r {
        r := r + [gs[i]];
      }
    }
    assert gs[..|gs|] == gs;
  }

  /** The group of basis function i, read off the group matrix. */
  method GroupOfRow(gm: array2<bool>, mats: seq<seq<seq<real>>>, n: nat, i: nat) returns (g: seq<nat>)
    requires IsMatrices(mats, n) && i < n && gm.Length0 == n && gm.Length1 == n
    requires forall i', j | 0 <= i' < n && 0 <= j < n :: gm[i', j] == Linked(mats, n, i', j)
    ensures g == RowGroup(GroupRow(mats, n, i), i)
  {
    assert RowOf(gm, i) == GroupRow(mats, n, i) by {
      assert forall j | 0 <= j < n :: RowOf(gm, i)[j] == GroupRow(mats, n, i)[j];
    }
    g := RowGroupOf(gm, i);
  }

  /** The group matrix, then every row's group, then the groups without
      repeats. */
  method GroupsOf(mats: seq<seq<seq<real>>>, n: nat) returns (groups: seq<seq<nat>>)
    requires IsMatrices(mats, n) && |mats| > 0
    ensures groups == CollectedGroups(mats, n)
  {
    var gm := GroupMatrix(mats, n);
    var gs: seq<seq<nat>> := [];
    for i := 0 to n
      modifies {}
      invariant gs == AllGroups(mats, n)[..i]
    {
      var g := GroupOfRow(gm, mats, n, i);
      gs := gs + [g];
    }
    assert gs == AllGroups(mats, n);
    groups := DedupeGroups(gs);
  }

  /** Copies rows into m from row `start` on. */
  method WriteRows(m: array2<real>, start: nat, rows: seq<seq<real>>)
    requires start + |rows| <= m.Length0 && Rect(rows, m.Length1)
    modifies m
    ensures forall r, c | 0 <= r < m.Length0 && 0 <= c < m.Length1 ::
      m[r, c] == if start <= r < start + |rows| then rows[r - start][c] else old(m[r, c])
  {
    for t := 0 to |rows|
      invariant forall r, c | 0 <= r < m.Length0 && 0 <= c < m.Length1 ::
        m[r, c] == if start <= r < start + t then rows[r - start][c] else old(m[r, c])
    {
      for c := 0 to m.Length1
        invariant forall r, c' | 0 <= r < m.Length0 && 0 <= c' < m.Length1 ::
          m[r, c'] == if start <= r < start + t || (r == start + t && c' < c) then rows[r - start][c'] else old(m[r, c'])
      {
        m[start + t, c] := rows[t][c];
      }
    }
  }

  /** A fresh n by n matrix holding rows in its first rows and zeros
      below. */
  method OrbitalMatrix(n: nat, rows: seq<seq<real>>) returns (m: array2<real>)
    requires |rows| <= n && Rect(rows, n)
    ensures fresh(m) && m.Length0 == n && m.Length1 == n
    ensures forall r, c | 0 <= r < n && 0 <= c < n :: m[r, c] == if r < |rows| then rows[r][c] else 0.0
  {
    m := new real[n, n]((_, _) => 0.0);
    WriteRows(m, 0, rows);
  }

  class ProjectionOperator {
    const ct: CharacterTable
    /** The symmetry operations' matrices, one n by n matrix per operation. */
    const mats: seq<seq<seq<real>>>
    /** The number of basis functions. */
    const n: nat
    var groups: Option<seq<seq<nat>>>
    var irreps: Option<seq<seq<int>>>
    var mos: array2<real>

    ghost predicate Valid()
      reads this`groups, this`irreps, ct, ct.table, ct.expandedTable
    {
      && ct.Valid() && IsMatrices(mats, n)
      && (groups.None? <==> irreps.None?)
      && (groups.Some? ==>
            && |mats| == ct.order > 0
            && groups.value == CollectedGroups(mats, n)
            && GroupsInRange(groups.value, n)
            && irreps.value == IrrepsOf(mats, n, ExpandedRows(ct.classes, ct.irreps), groups.value))
    }

    /** All orbitals build_mos writes, in order, or the error it stops at;
        they fit in the n rows of the orbital matrix. */
    ghost function Orbitals(normalise: seq<real> -> seq<real>, orth: seq<seq<real>> -> seq<seq<real>>): (o: Result<seq<seq<real>>>)
      reads this`groups, this`irreps, ct, ct.table, ct.expandedTable
      requires Valid() && groups.Some? && KeepsLength(normalise) && KeepsRows(orth, n)
      ensures o.Success? ==> |o.value| <= n && Rect(o.value, n)
    {
      var chars := ExpandedRows(ct.classes, ct.irreps);
      MoRowsLayout(mats, n, chars, normalise, orth, groups.value, irreps.value, |groups.value|);
      MoRowsUpTo(mats, n, chars, normalise, orth, groups.value, irreps.value, |groups.value|)
    }

    constructor(ct: CharacterTable, mats: seq<seq<seq<real>>>, n: nat)
      requires ct.Valid() && IsMatrices(mats, n)
      ensures this.ct == ct && this.mats == mats && this.n == n
      ensures groups == None && irreps == None && Valid()
    {
      this.ct := ct;
      this.mats := mats;
      this.n := n;
      groups := None;
      irreps := None;
      mos := new real[0, 0];
    }

    /** Groups the basis functions the operations mix and finds the irreps
        each group spans. */
    method Collect()
      requires Valid() && |mats| == ct.order > 0
      modifies this
      ensures Valid() && mos == old(mos)
      ensures groups == Some(CollectedGroups(mats, n))
      ensures irreps == Some(IrrepsOf(mats, n, ExpandedRows(ct.classes, ct.irreps), groups.value))
    {
      var unique := GroupsOf(mats, n);
      CollectedGroupsSpec(mats, n);
      ghost var chars := ExpandedRows(ct.classes, ct.irreps);
      var irs: seq<seq<int>> := [];
      for gi := 0 to |unique|
        invariant irs == IrrepsOf(mats, n, chars, unique)[..gi]
      {
        irs := irs + [ct.Lot(GroupTraces(mats, n, unique[gi]))];
      }
      groups := Some(unique);
      irreps := Some(irs);
    }

    /** The sum over all operations of the character of irrep j times row
        bf of the operation's matrix, then normalised. */
    method ApplyProjectionOperator(bf: nat, j: nat, normalise: seq<real> -> seq<real>) returns (r: seq<real>)
      requires ct.Valid() && IsMatrices(mats, n) && bf < n && j < |ct.irreps| && |mats| <= ct.order && KeepsLength(normalise)
      ensures r == Seed(mats, n, ExpandedRows(ct.classes, ct.irreps)[j][..|mats|], normalise, bf)
    {
      ghost var chi := ExpandedRows(ct.classes, ct.irreps)[j][..|mats|];
      var res := Zeros(n);
      for k := 0 to |mats|
        invariant res == ProjectionUpTo(mats, n, chi, bf, k)
      {
        res := Add(res, Scale(ct.GetCharacter(j, k), mats[k][bf]));
      }
      r := normalise(res);
    }

    /** The projections of the first `count` functions of g onto irrep j. */
    method ProjectSeeds(g: seq<nat>, j: nat, count: nat, normalise: seq<real> -> seq<real>) returns (irrepres: seq<seq<real>>)
      requires ct.Valid() && IsMatrices(mats, n) && |mats| == ct.order > 0 && j < |ct.irreps| && KeepsLength(normalise)
      requires count <= |g| && forall t | 0 <= t < |g| :: g[t] < n
      ensures irrepres == Seeds(mats, n, ExpandedRows(ct.classes, ct.irreps)[j], normalise, g, count)
    {
      ghost var chi := ExpandedRows(ct.classes, ct.irreps)[j];
      assert chi[..|mats|] == chi;
      irrepres := [];
      for k := 0 to count
        invariant irrepres == seq(k, k' requires 0 <= k' < k => Seed(mats, n, chi, normalise, g[k']))
      {
        var res := ApplyProjectionOperator(g[k], j, normalise);
        irrepres := irrepres + [res];
      }
    }

    /** The orbitals of irrep j, present c times, seeded from group g. */
    method ComputeBlock(g: seq<nat>, j: nat, c: int, normalise: seq<real> -> seq<real>,
                        orth: seq<seq<real>> -> seq<seq<real>>) returns (r: Result<seq<seq<real>>>)
      requires ct.Valid() && IsMatrices(mats, n) && |mats| == ct.order > 0 && j < |ct.irreps| && KeepsLength(normalise)
      requires forall t | 0 <= t < |g| :: g[t] < n
      ensures r == Block(mats, n, ExpandedRows(ct.classes, ct.irreps)[j], normalise, orth, g, c)
    {
      ghost var chi := ExpandedRows(ct.classes, ct.irreps)[j];
      var irrepE := ct.GetCharacter(j, 0);
      assert irrepE == chi[0] by {
        assert ct.expandedTable[j, 0] == ExpandedRows(ct.classes, ct.irreps)[j][0];
      }
      var count := SeedCount(c, irrepE);
      if count < 0 {
        return Failure("negative dimensions are not allowed");
      }
      if count > |g| {
        // the seed loop reaches g[|g|] and stops there
        return Failure("group index out of bounds");
      }
      var irrepres := ProjectSeeds(g, j, count, normalise);
      if |irrepres| > 1 {
        r := Success(orth(irrepres));
      } else if |irrepres| == 0 {
        r := Failure("index 0 is out of bounds for an empty block");
      } else {
        r := Success(irrepres);
      }
    }

    /** The orbitals of irrep j, present c times in group g, appended to
        rows: nothing when c is zero, an error when the block fails or
        would run past the n rows of the orbital matrix. */
    method IrrepOrbitals(g: seq<nat>, j: nat, c: int, rows: seq<seq<real>>, normalise: seq<real> -> seq<real>,
                         orth: seq<seq<real>> -> seq<seq<real>>, ghost chars: seq<seq<real>>) returns (r: Result<seq<seq<real>>>)
      requires ct.Valid() && |mats| == ct.order && chars == ExpandedRows(ct.classes, ct.irreps) && Fits(mats, n, chars, normalise)
      requires forall t | 0 <= t < |g| :: g[t] < n
      requires j < |chars|
      ensures r == PlaceStep(mats, n, chars[j], normalise, orth, rows, g, c)
    {
      if c == 0 {
        return Success(rows);
      }
      var blk := ComputeBlock(g, j, c, normalise, orth);
      if blk.Failure? {
        return Failure(blk.error);
      }
      if |rows| + |blk.value| > n {
        return Failure("orbital index out of bounds");
      }
      r := Success(rows + blk.value);
    }

    /** The orbitals of the irreps of group g, appended to rows, or the
        first error; once an irrep fails the rest are skipped, as the
        exception would end the loop. */
    method GroupOrbitals(g: seq<nat>, cs: seq<int>, rows: seq<seq<real>>, normalise: seq<real> -> seq<real>,
                         orth: seq<seq<real>> -> seq<seq<real>>, ghost chars: seq<seq<real>>) returns (r: Result<seq<seq<real>>>)
      requires ct.Valid() && |mats| == ct.order && chars == ExpandedRows(ct.classes, ct.irreps) && Fits(mats, n, chars, normalise)
      requires forall t | 0 <= t < |g| :: g[t] < n
      requires |cs| <= |chars|
      ensures r == GroupStep(mats, n, chars, normalise, orth, rows, g, cs, |cs|)
    {
      r := Success(rows);
      for j := 0 to |cs|
        invariant r == GroupStep(mats, n, chars, normalise, orth, rows, g, cs, j)
      {
        GroupStepNext(mats, n, chars, normalise, orth, rows, g, cs, j);
        if r.Success? {
          r := IrrepOrbitals(g, j, cs[j], r.value, normalise, orth, chars);
        }
      }
    }

    /** The orbitals of every group in order, or the first error. */
    method AllOrbitals(gs: seq<seq<nat>>, irs: seq<seq<int>>, normalise: seq<real> -> seq<real>,
                       orth: seq<seq<real>> -> seq<seq<real>>, ghost chars: seq<seq<real>>) returns (r: Result<seq<seq<real>>>)
      requires ct.Valid() && |mats| == ct.order && chars == ExpandedRows(ct.classes, ct.irreps) && Fits(mats, n, chars, normalise)
      requires GroupsInRange(gs, n) && |gs| == |irs| && forall gi | 0 <= gi < |irs| :: |irs[gi]| <= |chars|
      ensures r == MoRowsUpTo(mats, n, chars, normalise, orth, gs, irs, |gs|)
    {
      r := Success([]);
      for gi := 0 to |gs|
        invariant r == MoRowsUpTo(mats, n, chars, normalise, orth, gs, irs, gi)
      {
        if r.Success? {
          r := GroupOrbitals(gs[gi], irs[gi], r.value, normalise, orth, chars);
        }
      }
    }

    /** Collects the groups if that has not been done, then writes the
        orbitals of every group and irrep into consecutive rows of a fresh
        n by n matrix, zero elsewhere. */
    method BuildMos(normalise: seq<real> -> seq<real>, orth: seq<seq<real>> -> seq<seq<real>>) returns (ok: bool)
      requires Valid() && |mats| == ct.order > 0 && KeepsLength(normalise) && KeepsRows(orth, n)
      modifies this
      ensures Valid()
      ensures old(groups).Some? ==> groups == old(groups) && irreps == old(irreps)
      ensures groups == Some(CollectedGroups(mats, n))
      ensures fresh(mos) && mos.Length0 == n && mos.Length1 == n
      ensures ok <==> Orbitals(normalise, orth).Success?
      ensures ok ==>
        var rows := Orbitals(normalise, orth).value;
        forall r, c | 0 <= r < n && 0 <= c < n :: mos[r, c] == if r < |rows| then rows[r][c] else 0.0
    {
      if groups.None? {
        Collect();
      }
      ghost var chars := ExpandedRows(ct.classes, ct.irreps);
      assert Fits(mats, n, chars, normalise);
      var orbitals := AllOrbitals(groups.value, irreps.value, normalise, orth, chars);
      assert orbitals == Orbitals(normalise, orth);
      var m := OrbitalMatrix(n, if orbitals.Success? then orbitals.value else []);
      mos := m;
      assert Orbitals(normalise, orth) == orbitals;
      ok := orbitals.Success?;
    }
  }
}
