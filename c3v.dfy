/** The C3v character table (the point group of ammonia), worked through
    the general definitions: its order, its exact orthonormality and the
    decomposition of three sample representations. */
module CharacterTableC3v {
  import opened CharacterTables

  function C3vClasses(): seq<ConjugacyClass>
  {
    [ConjugacyClass("E", 1), ConjugacyClass("2C3", 2), ConjugacyClass("3\U{03C3}v", 3)]
  }

  function C3vIrreps(): seq<Irrep>
  {
    [Irrep("A1", [1.0, 1.0, 1.0]), Irrep("A2", [1.0, 1.0, -1.0]), Irrep("E", [2.0, -1.0, 0.0])]
  }

  /** The expanded C3v table: A1, A2 and E on E, C3, C3^2 and the three mirrors. */
  function C3vRowValues(): seq<seq<real>>
  {
    [[1.0, 1.0, 1.0, 1.0, 1.0, 1.0], [1.0, 1.0, 1.0, -1.0, -1.0, -1.0], [2.0, -1.0, -1.0, 0.0, 0.0, 0.0]]
  }

  lemma C3vRows()
    ensures WellShaped(C3vClasses(), C3vIrreps()) && Order(C3vClasses()) == 6
    ensures ExpandedRows(C3vClasses(), C3vIrreps()) == C3vRowValues()
  {
    var rows := ExpandedRows(C3vClasses(), C3vIrreps());
    assert rows[0] == [1.0, 1.0, 1.0, 1.0, 1.0, 1.0];
    assert rows[1] == [1.0, 1.0, 1.0, -1.0, -1.0, -1.0];
    assert rows[2] == [2.0, -1.0, -1.0, 0.0, 0.0, 0.0];
  }

  /** The dot product of two vectors of length six, written out. */
  function DotOfSix(a: seq<real>, b: seq<real>): real
    requires |a| == |b| == 6
  {
    a[0] * b[0] + a[1] * b[1] + a[2] * b[2] + a[3] * b[3] + a[4] * b[4] + a[5] * b[5]
  }

  lemma DotSix(a: seq<real>, b: seq<real>)
    requires |a| == |b| == 6
    ensures Dot(a, b) == DotOfSix(a, b)
  {
    var p0, p1, p2, p3, p4, p5 := a[0] * b[0], a[1] * b[1], a[2] * b[2], a[3] * b[3], a[4] * b[4], a[5] * b[5];
    assert DotUpTo(a, b, 1) == p0;
    assert DotUpTo(a, b, 2) == p0 + p1;
    assert DotUpTo(a, b, 3) == p0 + p1 + p2;
    assert DotUpTo(a, b, 4) == p0 + p1 + p2 + p3;
    assert DotUpTo(a, b, 5) == p0 + p1 + p2 + p3 + p4;
  }

  /** Two rows of the expanded C3v table have dot product 6 or 0. */
  lemma C3vRowDot(i: nat, j: nat)
    requires i < 3 && j < 3
    ensures Dot(C3vRowValues()[i], C3vRowValues()[j]) == if i == j then 6.0 else 0.0
  {
    DotSix(C3vRowValues()[i], C3vRowValues()[j]);
  }

  /** The expanded C3v table is exactly orthonormal. */
  lemma C3vOrthonormal()
    ensures WellShaped(C3vClasses(), C3vIrreps()) && Order(C3vClasses()) == 6
    ensures Orthonormal(ExpandedRows(C3vClasses(), C3vIrreps()), 6)
  {
    C3vRows();
    forall i, j | 0 <= i < 3 && 0 <= j < 3
      ensures Dot(C3vRowValues()[i], C3vRowValues()[j]) == if i == j then 6.0 else 0.0
    {
      C3vRowDot(i, j);
    }
  }

  /** lot of the given traces over the C3v table is c. */
  lemma C3vLotOf(traces: seq<real>, c: seq<int>)
    requires |traces| == 6 && |c| == 3
    requires forall i | 0 <= i < 3 :: Dot(C3vRowValues()[i], traces) == c[i] as real * 6.0
    ensures WellShaped(C3vClasses(), C3vIrreps()) && Order(C3vClasses()) == 6
    ensures LotOf(ExpandedRows(C3vClasses(), C3vIrreps()), 6, traces) == c
  {
    C3vRows();
    LotOfExact(C3vRowValues(), 6, traces, c);
  }

  /** The totally symmetric representation is A1. */
  lemma C3vLotA1()
    ensures WellShaped(C3vClasses(), C3vIrreps()) && Order(C3vClasses()) == 6
    ensures LotOf(ExpandedRows(C3vClasses(), C3vIrreps()), 6, [1.0, 1.0, 1.0, 1.0, 1.0, 1.0]) == [1, 0, 0]
  {
    var t := [1.0, 1.0, 1.0, 1.0, 1.0, 1.0];
    DotSix(C3vRowValues()[0], t);
    DotSix(C3vRowValues()[1], t);
    DotSix(C3vRowValues()[2], t);
    C3vLotOf(t, [1, 0, 0]);
  }

  /** Characters +1 on the rotations and -1 on the mirrors give A2. */
  lemma C3vLotA2()
    ensures WellShaped(C3vClasses(), C3vIrreps()) && Order(C3vClasses()) == 6
    ensures LotOf(ExpandedRows(C3vClasses(), C3vIrreps()), 6, [1.0, 1.0, 1.0, -1.0, -1.0, -1.0]) == [0, 1, 0]
  {
    var t := [1.0, 1.0, 1.0, -1.0, -1.0, -1.0];
    DotSix(C3vRowValues()[0], t);
    DotSix(C3vRowValues()[1], t);
    DotSix(C3vRowValues()[2], t);
    C3vLotOf(t, [0, 1, 0]);
  }

  /** Twice the characters of E give two copies of E. */
  lemma C3vLotE()
    ensures WellShaped(C3vClasses(), C3vIrreps()) && Order(C3vClasses()) == 6
    ensures LotOf(ExpandedRows(C3vClasses(), C3vIrreps()), 6, [4.0, -2.0, -2.0, 0.0, 0.0, 0.0]) == [0, 0, 2]
  {
    var t := [4.0, -2.0, -2.0, 0.0, 0.0, 0.0];
    DotSix(C3vRowValues()[0], t);
    DotSix(C3vRowValues()[1], t);
    DotSix(C3vRowValues()[2], t);
    C3vLotOf(t, [0, 0, 2]);
  }
}
