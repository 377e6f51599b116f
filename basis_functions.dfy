/** The basis-function record of sphecerix: a centre, the quantum numbers
    n, l, m, and the index of the atom it sits on (unset until the
    molecule's basis is built). */
module BasisFunctions {
  import opened Wrappers
  import opened LinearAlgebra

  datatype BasisFunction = BasisFunction(r: Vec3, n: int, l: int, m: int, atomid: Option<nat>)

  /** A fresh template: centred at the origin and not yet attached to an atom. */
  function NewBasisFunction(n: int, l: int, m: int): (bf: BasisFunction)
    ensures bf.r == Origin && bf.atomid.None?
    ensures bf.n == n && bf.l == l && bf.m == m
  {
    BasisFunction(Origin, n, l, m, None)
  }

  /** The copy of template `bf` that is placed on atom `i` at position `r`:
      only the centre and the atom index change. */
  function Place(bf: BasisFunction, r: Vec3, i: nat): (p: BasisFunction)
    ensures p.r == r && p.atomid == Some(i)
    ensures p.n == bf.n && p.l == bf.l && p.m == bf.m
  {
    bf.(r := r, atomid := Some(i))
  }
}
