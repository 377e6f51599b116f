/** A point-group character table: the characters of every irreducible
    representation on every conjugacy class, expanded to one column per
    group operation, and the decomposition of a representation's traces
    into irreducible representations by the little orthogonality theorem. */
module CharacterTables {
  import opened Wrappers

  datatype ConjugacyClass = ConjugacyClass(symbol: string, multiplicity: nat)

  datatype Irrep = Irrep(symbol: string, characters: seq<real>)

  /** Every irrep lists a character for every class, and the condensed table
      (irreps by irreps) has a column for every class. */
  predicate WellShaped(classes: seq<ConjugacyClass>, irreps: seq<Irrep>)
  {
    && (|irreps| > 0 ==> |classes| <= |irreps|)
    && forall i | 0 <= i < |irreps| :: |classes| <= |irreps[i].characters|
  }

  /** The number of operations in the first `upto` classes. */
  function OrderUpTo(classes: seq<ConjugacyClass>, upto: nat): nat
    requires upto <= |classes|
  {
    if upto == 0 then 0 else OrderUpTo(classes, upto - 1) + classes[upto - 1].multiplicity
  }

  /** The order of the group: the sum of the class multiplicities. */
  function Order(classes: seq<ConjugacyClass>): nat
  {
    OrderUpTo(classes, |classes|)
  }

  /** Characters of the first `upto` classes, each repeated as often as its
      class has operations. */
  function ExpandedRowUpTo(classes: seq<ConjugacyClass>, chars: seq<real>, upto: nat): (row: seq<real>)
    requires upto <= |classes| <= |chars|
    ensures |row| == OrderUpTo(classes, upto)
  {
    if upto == 0 then []
    else ExpandedRowUpTo(classes, chars, upto - 1) + seq(classes[upto - 1].multiplicity, _ => chars[upto - 1])
  }

  function ExpandedRow(classes: seq<ConjugacyClass>, chars: seq<real>): (row: seq<real>)
    requires |classes| <= |chars|
    ensures |row| == Order(classes)
  {
    ExpandedRowUpTo(classes, chars, |classes|)
  }

  function ExpandedRows(classes: seq<ConjugacyClass>, irreps: seq<Irrep>): (rows: seq<seq<real>>)
    requires WellShaped(classes, irreps)
    ensures |rows| == |irreps| && forall i | 0 <= i < |irreps| :: |rows[i]| == Order(classes)
  {
    seq(|irreps|, i requires 0 <= i < |irreps| => ExpandedRow(classes, irreps[i].characters))
  }

  lemma {:induction false} OrderMonotone(classes: seq<ConjugacyClass>, a: nat, b: nat)
    requires a <= b <= |classes|
    ensures OrderUpTo(classes, a) <= OrderUpTo(classes, b)
  {
    if a < b {
      OrderMonotone(classes, a, b - 1);
    }
  }

  /** Operation k belongs to class j exactly when it lies in class j's
      block of columns, and its character is then class j's character. */
  lemma {:induction false} ExpandedRowEntry(classes: seq<ConjugacyClass>, chars: seq<real>, upto: nat, j: nat, k: nat)
    requires upto <= |classes| <= |chars| && j < upto
    requires OrderUpTo(classes, j) <= k < OrderUpTo(classes, j + 1)
    ensures k < |ExpandedRowUpTo(classes, chars, upto)|
    ensures ExpandedRowUpTo(classes, chars, upto)[k] == chars[j]
  {
    OrderMonotone(classes, j + 1, upto);
    if j < upto - 1 {
      ExpandedRowEntry(classes, chars, upto - 1, j, k);
    }
  }

  // -----------------------------------------------------------------------
  // Vectors of reals
  // -----------------------------------------------------------------------

  function Dot(a: seq<real>, b: seq<real>): real
    requires |a| == |b|
  {
    DotUpTo(a, b, |a|)
  }

  /** The sum of a[k] * b[k] over k < n. */
  function DotUpTo(a: seq<real>, b: seq<real>, n: nat): real
    requires n <= |a| == |b|
  {
    if n == 0 then 0.0 else DotUpTo(a, b, n - 1) + a[n - 1] * b[n - 1]
  }

  function Zeros(n: nat): (z: seq<real>)
    ensures |z| == n && forall k | 0 <= k < n :: z[k] == 0.0
  {
    seq(n, _ => 0.0)
  }

  function Add(a: seq<real>, b: seq<real>): (s: seq<real>)
    requires |a| == |b|
    ensures |s| == |a| && forall k | 0 <= k < |a| :: s[k] == a[k] + b[k]
  {
    seq(|a|, k requires 0 <= k < |a| => a[k] + b[k])
  }

  function Scale(c: real, a: seq<real>): (s: seq<real>)
    ensures |s| == |a| && forall k | 0 <= k < |a| :: s[k] == c * a[k]
  {
    seq(|a|, k requires 0 <= k < |a| => c * a[k])
  }

  /** The last step of DotUpToLinear, on scalars. */
  lemma Regroup(da: real, db: real, en: real, an: real, bn: real, c: real)
    ensures (da + c * db) + en * (an + c * bn) == (da + en * an) + c * (db + en * bn)
  {
  }

  /** The dot product is linear in its second argument. */
  lemma {:induction false} DotUpToLinear(e: seq<real>, a: seq<real>, b: seq<real>, c: real, n: nat)
    requires n <= |e| == |a| == |b|
    ensures DotUpTo(e, Add(a, Scale(c, b)), n) == DotUpTo(e, a, n) + c * DotUpTo(e, b, n)
  {
    if n > 0 {
      DotUpToLinear(e, a, b, c, n - 1);
      Regroup(DotUpTo(e, a, n - 1), DotUpTo(e, b, n - 1), e[n - 1], a[n - 1], b[n - 1], c);
    }
  }

  lemma DotLinear(e: seq<real>, a: seq<real>, b: seq<real>, c: real)
    requires |e| == |a| == |b|
    ensures Dot(e, Add(a, Scale(c, b))) == Dot(e, a) + c * Dot(e, b)
  {
    DotUpToLinear(e, a, b, c, |e|);
  }

  lemma {:induction false} DotUpToZeros(e: seq<real>, n: nat)
    requires n <= |e|
    ensures DotUpTo(e, Zeros(|e|), n) == 0.0
  {
    if n > 0 {
      DotUpToZeros(e, n - 1);
    }
  }

  lemma DotZeros(e: seq<real>)
    ensures Dot(e, Zeros(|e|)) == 0.0
  {
    DotUpToZeros(e, |e|);
  }

  // -----------------------------------------------------------------------
  // Round half to even, as numpy rounds
  // -----------------------------------------------------------------------

  function RoundHalfEven(x: real): int
  {
    var f := x.Floor;
    var d := x - f as real;
    if d < 0.5 then f
    else if d > 0.5 then f + 1
    else if f % 2 == 0 then f else f + 1
  }

  /** The rounded value is within one half of x. */
  lemma RoundHalfEvenNearest(x: real)
    ensures -0.5 <= RoundHalfEven(x) as real - x <= 0.5
  {
    var f := x.Floor;
    assert f as real <= x < f as real + 1.0;
  }

  /** An integer is left as it is. */
  lemma RoundHalfEvenInteger(n: int)
    ensures RoundHalfEven(n as real) == n
  {
    assert (n as real).Floor == n;
  }

  /** A tie goes to the even neighbour. */
  lemma RoundHalfEvenTie(n: int)
    ensures RoundHalfEven(n as real + 0.5) == if n % 2 == 0 then n else n + 1
    ensures RoundHalfEven(n as real + 0.5) % 2 == 0
  {
    assert (n as real + 0.5).Floor == n;
  }

  // -----------------------------------------------------------------------
  // Orthonormality and the little orthogonality theorem
  // -----------------------------------------------------------------------

  /** assert_almost_equal's default tolerance: 1.5 * 10^-7. */
  const Tolerance: real := 0.00000015

  function Abs(x: real): real { if x < 0.0 then -x else x }

  /** rows . rows^T / order equals the identity within the tolerance. */
  predicate AlmostOrthonormal(rows: seq<seq<real>>, order: nat)
    requires forall i | 0 <= i < |rows| :: |rows[i]| == order
  {
    forall i, j | 0 <= i < |rows| && 0 <= j < |rows| ::
      order > 0 && Abs(Dot(rows[i], rows[j]) / order as real - if i == j then 1.0 else 0.0) < Tolerance
  }

  /** rows . rows^T == order * I exactly, as for integer character tables. */
  ghost predicate Orthonormal(rows: seq<seq<real>>, order: nat)
    requires forall i | 0 <= i < |rows| :: |rows[i]| == order
  {
    forall i, j | 0 <= i < |rows| && 0 <= j < |rows| ::
      Dot(rows[i], rows[j]) == if i == j then order as real else 0.0
  }

  /** lot: round(rows . traces / order), one coefficient per irrep. */
  function LotOf(rows: seq<seq<real>>, order: nat, traces: seq<real>): (r: seq<int>)
    requires order > 0 && |traces| == order
    requires forall i | 0 <= i < |rows| :: |rows[i]| == order
    ensures |r| == |rows|
  {
    seq(|rows|, i requires 0 <= i < |rows| => RoundHalfEven(Dot(rows[i], traces) / order as real))
  }

  /** The traces of the representation containing irrep j c[j] times:
      sum over j < upto of c[j] * rows[j]. */
  function Combination(rows: seq<seq<real>>, order: nat, c: seq<int>, upto: nat): (t: seq<real>)
    requires upto <= |rows| == |c|
    requires forall i | 0 <= i < |rows| :: |rows[i]| == order
    ensures |t| == order
  {
    if upto == 0 then Zeros(order)
    else Add(Combination(rows, order, c, upto - 1), Scale(c[upto - 1] as real, rows[upto - 1]))
  }

  lemma {:induction false} DotCombination(rows: seq<seq<real>>, order: nat, c: seq<int>, upto: nat, i: nat)
    requires upto <= |rows| == |c| && i < |rows|
    requires forall q | 0 <= q < |rows| :: |rows[q]| == order
    requires Orthonormal(rows, order)
    ensures Dot(rows[i], Combination(rows, order, c, upto)) == if i < upto then c[i] as real * order as real else 0.0
  {
    if upto == 0 {
      DotZeros(rows[i]);
    } else {
      DotCombination(rows, order, c, upto - 1, i);
      DotCombinationStep(rows, order, c, upto, i);
    }
  }

  /** Adding c[upto - 1] copies of row upto - 1 to the combination changes
      its dot product with row i only when i is that row. */
  lemma DotCombinationStep(rows: seq<seq<real>>, order: nat, c: seq<int>, upto: nat, i: nat)
    requires 0 < upto <= |rows| == |c| && i < |rows|
    requires forall q | 0 <= q < |rows| :: |rows[q]| == order
    requires Dot(rows[i], Combination(rows, order, c, upto - 1)) == if i < upto - 1 then c[i] as real * order as real else 0.0
    requires Dot(rows[i], rows[upto - 1]) == if i == upto - 1 then order as real else 0.0
    ensures Dot(rows[i], Combination(rows, order, c, upto)) == if i < upto then c[i] as real * order as real else 0.0
  {
    var prev := Combination(rows, order, c, upto - 1);
    var k := c[upto - 1] as real;
    DotLinear(rows[i], prev, rows[upto - 1], k);
    CombinationStep(Dot(rows[i], Add(prev, Scale(k, rows[upto - 1]))), Dot(rows[i], prev), Dot(rows[i], rows[upto - 1]),
                    k, order as real, c[i] as real, i < upto - 1, i == upto - 1);
  }

  /** One step of DotCombination, on scalars: adding k copies of the last
      row adds k * order to entry i exactly when i is that row. */
  lemma CombinationStep(total: real, dp: real, dl: real, k: real, o: real, ci: real, before: bool, here: bool)
    requires total == dp + k * dl
    requires dp == (if before then ci * o else 0.0)
    requires dl == (if here then o else 0.0)
    requires here ==> ci == k && !before
    ensures total == if before || here then ci * o else 0.0
  {
    if here {
      assert k * dl == ci * o;
    }
  }

  /** Entry i of lot for the combination c. */
  lemma LotEntry(rows: seq<seq<real>>, order: nat, c: seq<int>, i: nat)
    requires order > 0 && |rows| == |c| && i < |rows|
    requires forall q | 0 <= q < |rows| :: |rows[q]| == order
    requires Orthonormal(rows, order)
    ensures RoundHalfEven(Dot(rows[i], Combination(rows, order, c, |rows|)) / order as real) == c[i]
  {
    DotCombination(rows, order, c, |rows|, i);
    RoundCancel(Dot(rows[i], Combination(rows, order, c, |rows|)), order as real, c[i]);
  }

  /** Dividing k * o by o and rounding gives k back. */
  lemma RoundCancel(d: real, o: real, k: int)
    requires o > 0.0 && d == k as real * o
    ensures RoundHalfEven(d / o) == k
  {
    assert d / o == k as real;
    RoundHalfEvenInteger(k);
  }

  /** The little orthogonality theorem: for an exactly orthonormal table, lot
      of the traces of a representation built from c[j] copies of each
      irrep j gives back c. */
  lemma LotRecoversMultiplicities(rows: seq<seq<real>>, order: nat, c: seq<int>)
    requires order > 0 && |rows| == |c|
    requires forall q | 0 <= q < |rows| :: |rows[q]| == order
    requires Orthonormal(rows, order)
    ensures LotOf(rows, order, Combination(rows, order, c, |rows|)) == c
  {
    forall i | 0 <= i < |rows|
      ensures LotOf(rows, order, Combination(rows, order, c, |rows|))[i] == c[i]
    {
      LotEntry(rows, order, c, i);
    }
  }

  /** An exactly orthonormal table passes the check. */
  lemma OrthonormalIsAlmost(rows: seq<seq<real>>, order: nat)
    requires order > 0 && forall q | 0 <= q < |rows| :: |rows[q]| == order
    requires Orthonormal(rows, order)
    ensures AlmostOrthonormal(rows, order)
  {
    var o := order as real;
    forall i, j | 0 <= i < |rows| && 0 <= j < |rows|
      ensures Abs(Dot(rows[i], rows[j]) / o - if i == j then 1.0 else 0.0) < Tolerance
    {
      ExactEntry(Dot(rows[i], rows[j]), o, if i == j then 1.0 else 0.0);
    }
  }

  /** An entry equal to e * o divided by o is e, well within the tolerance. */
  lemma ExactEntry(d: real, o: real, e: real)
    requires o > 0.0 && d == e * o
    ensures Abs(d / o - e) < Tolerance
  {
    assert d / o == e;
  }

  // -----------------------------------------------------------------------
  // The table object
  // -----------------------------------------------------------------------

  /** Fills row i of the condensed and the expanded table, the columns of
      the expanded table counted by idx. */
  method FillRow(table: array2<real>, expanded: array2<real>, i: nat, classes: seq<ConjugacyClass>, chars: seq<real>)
    requires table != expanded
    requires i < table.Length0 && |classes| <= table.Length1 && |classes| <= |chars|
    requires i < expanded.Length0 && expanded.Length1 == Order(classes)
    modifies table, expanded
    ensures forall j | 0 <= j < |classes| :: table[i, j] == chars[j]
    ensures forall k | 0 <= k < Order(classes) :: expanded[i, k] == ExpandedRow(classes, chars)[k]
    ensures forall i', j | 0 <= i' < table.Length0 && 0 <= j < table.Length1 && (i' != i || j >= |classes|) ::
      table[i', j] == old(table[i', j])
    ensures forall i', k | 0 <= i' < expanded.Length0 && i' != i && 0 <= k < expanded.Length1 ::
      expanded[i', k] == old(expanded[i', k])
  {
    var idx := 0;
    for j := 0 to |classes|
      invariant idx == OrderUpTo(classes, j) <= Order(classes)
      invariant forall j' | 0 <= j' < j :: table[i, j'] == chars[j']
      invariant forall k | 0 <= k < idx :: expanded[i, k] == ExpandedRowUpTo(classes, chars, j)[k]
      invariant forall i', j' | 0 <= i' < table.Length0 && 0 <= j' < table.Length1 && (i' != i || j' >= j) ::
        table[i', j'] == old(table[i', j'])
      invariant forall i', k | 0 <= i' < expanded.Length0 && i' != i && 0 <= k < expanded.Length1 ::
        expanded[i', k] == old(expanded[i', k])
    {
      table[i, j] := chars[j];
      OrderMonotone(classes, j + 1, |classes|);
      for k := 0 to classes[j].multiplicity
        invariant idx == OrderUpTo(classes, j) + k <= Order(classes)
        invariant forall j' | 0 <= j' <= j :: table[i, j'] == chars[j']
        invariant forall i', j' | 0 <= i' < table.Length0 && 0 <= j' < table.Length1 && (i' != i || j' > j) ::
          table[i', j'] == old(table[i', j'])
        invariant forall k' | 0 <= k' < OrderUpTo(classes, j) :: expanded[i, k'] == ExpandedRowUpTo(classes, chars, j)[k']
        invariant forall k' | OrderUpTo(classes, j) <= k' < idx :: expanded[i, k'] == chars[j]
        invariant forall i', k' | 0 <= i' < expanded.Length0 && i' != i && 0 <= k' < expanded.Length1 ::
          expanded[i', k'] == old(expanded[i', k'])
      {
        expanded[i, idx] := chars[j];
        idx := idx + 1;
      }
    }
  }

  class CharacterTable {
    const classes: seq<ConjugacyClass>
    const irreps: seq<Irrep>
    const order: nat
    /** Characters per irrep and class; irreps by irreps, zero past the classes. */
    const table: array2<real>
    /** Characters per irrep and operation. */
    const expandedTable: array2<real>

    ghost predicate Valid()
      reads this, table, expandedTable
    {
      && WellShaped(classes, irreps)
      && order == Order(classes)
      && table.Length0 == |irreps| && table.Length1 == |irreps|
      && expandedTable.Length0 == |irreps| && expandedTable.Length1 == order
      && (forall i, j | 0 <= i < |irreps| && 0 <= j < |irreps| ::
            table[i, j] == if j < |classes| then irreps[i].characters[j] else 0.0)
      && (forall i, k | 0 <= i < |irreps| && 0 <= k < order ::
            expandedTable[i, k] == ExpandedRows(classes, irreps)[i][k])
    }

    /** Builds both tables from the parsed classes and irreps. */
    constructor(classes: seq<ConjugacyClass>, irreps: seq<Irrep>)
      requires WellShaped(classes, irreps)
      ensures this.classes == classes && this.irreps == irreps && order == Order(classes)
      ensures Valid() && fresh(table) && fresh(expandedTable)
    {
      var t := new real[|irreps|, |irreps|]((_, _) => 0.0);
      var e := new real[|irreps|, Order(classes)]((_, _) => 0.0);
      for i := 0 to |irreps|
        invariant forall i', j | 0 <= i' < |irreps| && 0 <= j < |irreps| ::
          t[i', j] == if i' < i && j < |classes| then irreps[i'].characters[j] else 0.0
        invariant forall i', k | 0 <= i' < i && 0 <= k < Order(classes) ::
          e[i', k] == ExpandedRows(classes, irreps)[i'][k]
      {
        FillRow(t, e, i, classes, irreps[i].characters);
      }
      this.classes := classes;
      this.irreps := irreps;
      order := Order(classes);
      table := t;
      expandedTable := e;
    }

    /** The expanded table as rows. */
    function Rows(): (rows: seq<seq<real>>)
      reads this, table, expandedTable
      requires Valid()
      ensures rows == ExpandedRows(classes, irreps)
    {
      var rows := seq(|irreps|, i requires 0 <= i < |irreps| reads expandedTable =>
        seq(order, k requires 0 <= k < order reads expandedTable => expandedTable[i, k]));
      assert forall i | 0 <= i < |irreps| :: rows[i] == ExpandedRows(classes, irreps)[i];
      rows
    }

    /** The decomposition of a representation with the given traces, one per
        operation, into irreps. */
    function Lot(traces: seq<real>): (r: seq<int>)
      reads this, table, expandedTable
      requires Valid() && order > 0 && |traces| == order
      ensures |r| == |irreps|
      ensures r == LotOf(ExpandedRows(classes, irreps), order, traces)
    {
      LotOf(Rows(), order, traces)
    }

    function GetLabelIrrep(i: nat): (s: string)
      reads this
      requires i < |irreps|
      ensures s == irreps[i].symbol
    {
      irreps[i].symbol
    }

    /** The character of irrep i on operation k: that of k's class. */
    function GetCharacter(i: nat, k: nat): (x: real)
      reads this, table, expandedTable
      requires Valid() && i < |irreps| && k < order
      ensures forall j | 0 <= j < |classes| && OrderUpTo(classes, j) <= k < OrderUpTo(classes, j + 1) ::
        x == irreps[i].characters[j]
    {
      assert forall j | 0 <= j < |classes| && OrderUpTo(classes, j) <= k < OrderUpTo(classes, j + 1) ::
        ExpandedRow(classes, irreps[i].characters)[k] == irreps[i].characters[j] by {
        forall j | 0 <= j < |classes| && OrderUpTo(classes, j) <= k < OrderUpTo(classes, j + 1)
          ensures ExpandedRow(classes, irreps[i].characters)[k] == irreps[i].characters[j]
        {
          ExpandedRowEntry(classes, irreps[i].characters, |classes|, j, k);
        }
      }
      expandedTable[i, k]
    }
  }

  /** Builds the tables and keeps them only when the expanded table passes
      the orthonormality check. */
  method Build(classes: seq<ConjugacyClass>, irreps: seq<Irrep>) returns (r: Option<CharacterTable>)
    requires WellShaped(classes, irreps)
    ensures r.Some? <==> AlmostOrthonormal(ExpandedRows(classes, irreps), Order(classes))
    ensures r.Some? ==> fresh(r.value) && r.value.Valid() && r.value.classes == classes && r.value.irreps == irreps
  {
    var ct := new CharacterTable(classes, irreps);
    if AlmostOrthonormal(ct.Rows(), ct.order) {
      return Some(ct);
    }
    return None;
  }

  /** lot returns c whenever each dot product is exactly c[i] times the order. */
  lemma LotOfExact(rows: seq<seq<real>>, order: nat, traces: seq<real>, c: seq<int>)
    requires order > 0 && |traces| == order && |c| == |rows|
    requires forall i | 0 <= i < |rows| :: |rows[i]| == order
    requires forall i | 0 <= i < |rows| :: Dot(rows[i], traces) == c[i] as real * order as real
    ensures LotOf(rows, order, traces) == c
  {
    var o := order as real;
    forall i | 0 <= i < |rows|
      ensures LotOf(rows, order, traces)[i] == c[i]
    {
      var d := Dot(rows[i], traces);
      assert d == c[i] as real * o;
      RoundCancel(d, o, c[i]);
    }
  }
}
