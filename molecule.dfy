/** A molecule: atoms with their positions in bohr, one charge per atom, and
    the basis built by placing each species' templates on its atoms. */
module Molecules {
  import opened Wrappers
  import opened LinearAlgebra
  import opened BasisFunctions

  /** Bohr per angstrom. */
  const Ang2Bohr: real := 1.8897259886

  datatype Atom = Atom(species: string, position: Vec3)

  /** Basis-function templates per chemical species. */
  type BasisSet = map<string, seq<BasisFunction>>

  /** The stored position of coordinates given in `unit`, or None when the
      unit is neither "bohr" nor "angstrom". */
  function ToBohr(x: real, y: real, z: real, unit: string): Option<Vec3>
  {
    if unit == "bohr" then Some(Vec3(x, y, z))
    else if unit == "angstrom" then Some(Vec3(x * Ang2Bohr, y * Ang2Bohr, z * Ang2Bohr))
    else None
  }

  /** Only the two named units are accepted; bohr coordinates are kept as
      given and angstrom coordinates are converted back exactly by dividing
      by the conversion factor. */
  lemma ToBohrUnits(x: real, y: real, z: real, unit: string)
    ensures ToBohr(x, y, z, unit).Some? <==> unit == "bohr" || unit == "angstrom"
    ensures unit == "bohr" ==> ToBohr(x, y, z, unit) == Some(Vec3(x, y, z))
    ensures unit == "angstrom" ==>
      ToBohr(x, y, z, unit).Some? && Scale3(1.0 / Ang2Bohr, ToBohr(x, y, z, unit).value) == Vec3(x, y, z)
  {
  }

  /** The basis functions atom `i` contributes: its species' templates, in
      order, each placed on the atom; nothing for a species without templates. */
  function AtomBasis(atoms: seq<Atom>, i: nat, basisSet: BasisSet): seq<BasisFunction>
    requires i < |atoms|
  {
    var a := atoms[i];
    if a.species in basisSet then
      var templates := basisSet[a.species];
      seq(|templates|, k requires 0 <= k < |templates| => Place(templates[k], a.position, i))
    else []
  }

  /** The basis of the first `upto` atoms: their contributions concatenated
      in atom order. */
  function Expand(atoms: seq<Atom>, basisSet: BasisSet, upto: nat): seq<BasisFunction>
    requires upto <= |atoms|
  {
    if upto == 0 then [] else Expand(atoms, basisSet, upto - 1) + AtomBasis(atoms, upto - 1, basisSet)
  }

  class Molecule {
    var atoms: seq<Atom>
    var charges: seq<int>
    var name: string
    var basis: Option<seq<BasisFunction>>

    /** One charge per atom, and every charge is zero. */
    ghost predicate Valid()
      reads this
    {
      |charges| == |atoms| && forall k | 0 <= k < |charges| :: charges[k] == 0
    }

    constructor(name: string)
      ensures Valid()
      ensures atoms == [] && charges == [] && this.name == name && basis == None
    {
      atoms := [];
      charges := [];
      this.name := name;
      basis := None;
    }

    /** Appends an atom with its position converted to bohr and a zero
        charge; an unknown unit is an error and changes nothing. */
    method AddAtom(species: string, x: real, y: real, z: real, unit: string) returns (ok: bool)
      requires Valid()
      modifies this
      ensures Valid()
      ensures ok <==> unit == "bohr" || unit == "angstrom"
      ensures ok ==> atoms == old(atoms) + [Atom(species, ToBohr(x, y, z, unit).value)]
      ensures ok ==> charges == old(charges) + [0]
      ensures !ok ==> atoms == old(atoms) && charges == old(charges)
      ensures name == old(name) && basis == old(basis)
    {
      if unit == "bohr" {
        atoms := atoms + [Atom(species, Vec3(x, y, z))];
      } else if unit == "angstrom" {
        atoms := atoms + [Atom(species, Vec3(x * Ang2Bohr, y * Ang2Bohr, z * Ang2Bohr))];
      } else {
        return false;
      }
      charges := charges + [0];
      ok := true;
    }

    /** Replaces the basis by the templates of every atom's species, placed on
        that atom, in atom order. */
    method BuildBasis(basisSet: BasisSet)
      modifies this
      ensures basis == Some(Expand(atoms, basisSet, |atoms|))
      ensures atoms == old(atoms) && charges == old(charges) && name == old(name)
    {
      var b: seq<BasisFunction> := [];
      for i := 0 to |atoms|
        invariant b == Expand(atoms, basisSet, i)
      {
        var atom := atoms[i];
        if atom.species in basisSet {
          var templates := basisSet[atom.species];
          for k := 0 to |templates|
            invariant b == Expand(atoms, basisSet, i) + AtomBasis(atoms, i, basisSet)[..k]
          {
            var abf := templates[k];
            abf := abf.(r := atom.position, atomid := Some(i));
            b := b + [abf];
          }
          assert AtomBasis(atoms, i, basisSet)[..|templates|] == AtomBasis(atoms, i, basisSet);
        }
      }
      basis := Some(b);
    }
  }

  // -----------------------------------------------------------------------
  // Properties of the built basis
  // -----------------------------------------------------------------------

  /** Number of functions the first `upto` atoms contribute. */
  function Offset(atoms: seq<Atom>, basisSet: BasisSet, upto: nat): nat
    requires upto <= |atoms|
  {
    if upto == 0 then 0
    else
      var a := atoms[upto - 1];
      Offset(atoms, basisSet, upto - 1) + (if a.species in basisSet then |basisSet[a.species]| else 0)
  }

  /** Template `k` of atom `i`'s species sits, placed on atom `i`, at
      position Offset(i) + k; the basis has exactly Offset(|atoms|) entries. */
  lemma {:induction false} ExpandPlacesTemplates(atoms: seq<Atom>, basisSet: BasisSet, upto: nat, i: nat, k: nat)
    requires i < upto <= |atoms|
    requires atoms[i].species in basisSet && k < |basisSet[atoms[i].species]|
    ensures |Expand(atoms, basisSet, upto)| == Offset(atoms, basisSet, upto)
    ensures Offset(atoms, basisSet, i) + k < Offset(atoms, basisSet, upto)
    ensures Expand(atoms, basisSet, upto)[Offset(atoms, basisSet, i) + k]
         == Place(basisSet[atoms[i].species][k], atoms[i].position, i)
  {
    ExpandLength(atoms, basisSet, upto);
    if i == upto - 1 {
      ExpandLength(atoms, basisSet, upto - 1);
    } else {
      ExpandPlacesTemplates(atoms, basisSet, upto - 1, i, k);
    }
  }

  lemma {:induction false} ExpandLength(atoms: seq<Atom>, basisSet: BasisSet, upto: nat)
    requires upto <= |atoms|
    ensures |Expand(atoms, basisSet, upto)| == Offset(atoms, basisSet, upto)
  {
    if upto > 0 {
      ExpandLength(atoms, basisSet, upto - 1);
    }
  }

  /** Conversely, every entry of the basis is some template of its atom's
      species placed on that atom; the atom index is below `upto`. */
  lemma {:induction false} ExpandEntryOrigin(atoms: seq<Atom>, basisSet: BasisSet, upto: nat, p: nat)
    requires upto <= |atoms| && p < |Expand(atoms, basisSet, upto)|
    ensures exists i, k ::
              && 0 <= i < upto && atoms[i].species in basisSet && 0 <= k < |basisSet[atoms[i].species]|
              && Expand(atoms, basisSet, upto)[p] == Place(basisSet[atoms[i].species][k], atoms[i].position, i)
  {
    var prefix := Expand(atoms, basisSet, upto - 1);
    if p < |prefix| {
      ExpandEntryOrigin(atoms, basisSet, upto - 1, p);
    } else {
      var i := upto - 1;
      var k := p - |prefix|;
      assert Expand(atoms, basisSet, upto)[p] == AtomBasis(atoms, i, basisSet)[k];
    }
  }

  /** Atom indices never decrease along the basis, and all of them are set. */
  lemma {:induction false} ExpandAtomIdsSorted(atoms: seq<Atom>, basisSet: BasisSet, upto: nat)
    requires upto <= |atoms|
    ensures forall p | 0 <= p < |Expand(atoms, basisSet, upto)| ::
      Expand(atoms, basisSet, upto)[p].atomid.Some? && Expand(atoms, basisSet, upto)[p].atomid.value < upto
    ensures forall p, q | 0 <= p <= q < |Expand(atoms, basisSet, upto)| ::
      Expand(atoms, basisSet, upto)[p].atomid.value <= Expand(atoms, basisSet, upto)[q].atomid.value
  {
    if upto > 0 {
      ExpandAtomIdsSorted(atoms, basisSet, upto - 1);
      var prefix := Expand(atoms, basisSet, upto - 1);
      var block := AtomBasis(atoms, upto - 1, basisSet);
      assert Expand(atoms, basisSet, upto) == prefix + block;
      assert forall p | 0 <= p < |block| :: block[p].atomid == Some(upto - 1);
    }
  }
}
