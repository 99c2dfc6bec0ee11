/** The small Option type used for "a match may or may not have been found". */
module Wrappers {
  datatype Option<+T> = None | Some(value: T)
}

/**
  The part of a CDK atom container that the polyketide assembler touches.

  Atoms live in an arena keyed by stable identifiers, so that removing an atom
  never renumbers the others and a bond can be re-pointed at an atom of another
  container (as `IBond.setAtom` does with object references). Bonds are kept in
  container order, because the assembler's searches are order-sensitive.
*/
module Molecules {

  type AtomId = nat

  /** An atom: whether it is an `IPseudoAtom`, its label (`getLabel()`), and its implicit hydrogen count
      (an `int`: CDK does not clamp it). */
  datatype Atom = Atom(isPseudo: bool, pseudoLabel: string, implicitHydrogens: int)

  /** A bond: `getAtom(0)`, `getAtom(1)` and `getOrder().ordinal()` (so a single bond is 0). */
  datatype Bond = Bond(a0: AtomId, a1: AtomId, order: nat)

  datatype Molecule = Molecule(atoms: map<AtomId, Atom>, bonds: seq<Bond>)

  const EmptyMolecule: Molecule := Molecule(map[], [])

  /** `IAtomContainer.getAtomCount()` */
  function AtomCount(mol: Molecule): nat {
    |mol.atoms|
  }

  /** `IBond.getAtom(k)` for k in {0, 1} */
  function End(b: Bond, k: nat): AtomId
    requires k < 2
  {
    if k == 0 then b.a0 else b.a1
  }

  /** `IBond.contains(x)` */
  predicate Contains(b: Bond, x: AtomId) {
    b.a0 == x || b.a1 == x
  }

  /** The bond links x and y, in either direction. */
  predicate Joins(b: Bond, x: AtomId, y: AtomId) {
    (b.a0 == x && b.a1 == y) || (b.a0 == y && b.a1 == x)
  }

  /** `x instanceof IPseudoAtom`, for an atom of this container. */
  predicate IsPseudo(mol: Molecule, x: AtomId) {
    x in mol.atoms && mol.atoms[x].isPseudo
  }

  /** `IAtomContainer.getConnectedBondsList(x)`: the bonds containing x, in container order. */
  function ConnectedBonds(bonds: seq<Bond>, x: AtomId): seq<Bond> {
    if bonds == [] then []
    else if Contains(bonds[0], x) then [bonds[0]] + ConnectedBonds(bonds[1..], x)
    else ConnectedBonds(bonds[1..], x)
  }

  /** The connected bonds are exactly the bonds of the container that contain x. */
  lemma {:induction false} ConnectedBondsMembers(bonds: seq<Bond>, x: AtomId)
    ensures forall b :: b in ConnectedBonds(bonds, x) <==> b in bonds && Contains(b, x)
  {
    if bonds != [] {
      ConnectedBondsMembers(bonds[1..], x);
      assert bonds == [bonds[0]] + bonds[1..];
    }
  }

  /** `IAtomContainer.getBond(x, y)`: the position of the first bond linking x and y. */
  function FirstBondBetween(bonds: seq<Bond>, x: AtomId, y: AtomId): (k: nat)
    requires exists b :: b in bonds && Joins(b, x, y)
    ensures k < |bonds| && Joins(bonds[k], x, y)
    ensures forall i :: 0 <= i < k ==> !Joins(bonds[i], x, y)
  {
    if Joins(bonds[0], x, y) then 0
    else
      assert exists b :: b in bonds[1..] && Joins(b, x, y) by {
        var b :| b in bonds && Joins(b, x, y);
        assert bonds == [bonds[0]] + bonds[1..];
      }
      1 + FirstBondBetween(bonds[1..], x, y)
  }

  /** Drops the bond at position k and keeps the order of the others. */
  function RemoveBondAt(mol: Molecule, k: nat): Molecule
    requires k < |mol.bonds|
  {
    Molecule(mol.atoms, mol.bonds[..k] + mol.bonds[k + 1..])
  }

  /** `IAtomContainer.removeAtom(IAtom)` with CDK 1.x meaning: the atom goes, its bonds stay. */
  function RemoveAtom(mol: Molecule, x: AtomId): Molecule {
    Molecule(mol.atoms - {x}, mol.bonds)
  }

  /** `IAtomContainer.add(IAtomContainer)`: the atoms and then the bonds of `other` are appended. */
  function Merge(into: Molecule, other: Molecule): Molecule {
    Molecule(into.atoms + other.atoms, into.bonds + other.bonds)
  }

  /** `getImplicitHydrogenCount()` of an atom of this container (0 for an atom it does not hold). */
  function ImplicitHydrogens(mol: Molecule, x: AtomId): int {
    if x in mol.atoms then mol.atoms[x].implicitHydrogens else 0
  }

  /** `setImplicitHydrogenCount(v)` on an atom of this container; a foreign atom leaves it unchanged. */
  function WithImplicitHydrogens(mol: Molecule, x: AtomId, v: int): Molecule {
    if x in mol.atoms then Molecule(mol.atoms[x := mol.atoms[x].(implicitHydrogens := v)], mol.bonds)
    else mol
  }

  /** The net effect the assembler intends on the connection atom: its count moved by d. */
  function WithHydrogenDelta(mol: Molecule, x: AtomId, d: int): Molecule {
    WithImplicitHydrogens(mol, x, ImplicitHydrogens(mol, x) + d)
  }

  /** Moving the count by d only touches atom x, and by exactly d, with no clamping at zero. */
  lemma HydrogenDeltaMeaning(mol: Molecule, x: AtomId, d: int)
    ensures var r := WithHydrogenDelta(mol, x, d);
      r.bonds == mol.bonds && r.atoms.Keys == mol.atoms.Keys &&
      (forall y :: y in mol.atoms && y != x ==> r.atoms[y] == mol.atoms[y]) &&
      (x in mol.atoms ==>
         r.atoms[x].implicitHydrogens == mol.atoms[x].implicitHydrogens + d &&
         r.atoms[x].isPseudo == mol.atoms[x].isPseudo && r.atoms[x].pseudoLabel == mol.atoms[x].pseudoLabel)
  {
  }
}
