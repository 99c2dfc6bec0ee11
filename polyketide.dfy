/**
  The values the assembler works on: monomers, sequence features, the growing
  polyketide structure, and the foreign code it calls (monomer processors,
  post-processors, `PKStructure.removeLastMonomer`, the connectivity checker).
*/
module Polyketide {
  import opened Wrappers
  import opened Molecules

  /**
    A `PKMonomer`: its fragment, its connection bond, whether it is
    non-elongating, and the atom that the structure records as its open end
    once the monomer has been added.

    The connection bond is an object of its own (`getConnectionBond()`), kept
    apart from the fragment: a processor may empty the fragment and leave the
    bond in place. `connectionPos` is where that same bond object sits in the
    fragment's bond list, if it sits there at all, so that re-pointing the bond
    also re-points the fragment's copy of it.
  */
  datatype Monomer = Monomer(mol: Molecule, connection: Option<Bond>, connectionPos: Option<nat>,
                             nonElongating: bool, openEnd: AtomId)

  /** `getConnectionBond()` is not null. */
  predicate HasConnectionBond(m: Monomer) {
    m.connection.Some?
  }

  function ConnectionBond(m: Monomer): Bond
    requires HasConnectionBond(m)
  {
    m.connection.value
  }

  /** The connection bond object is one of the fragment's bonds, at position `connectionPos`. */
  predicate ConnectionBondInFragment(m: Monomer) {
    m.connectionPos.Some? && m.connectionPos.value < |m.mol.bonds|
  }

  /** A feature is either a KS domain (it elongates the chain) or a tailoring domain. */
  datatype Kind = KSDomain | Tailoring

  /** A `SequenceFeature`: name, kind, monomer and whether `hasPostProcessor()`. */
  datatype Feature = Feature(name: string, kind: Kind, monomer: Monomer, hasPostProcessor: bool)

  /** `sequenceFeature instanceof KSDomainSeqFeature` */
  predicate IsKS(f: Feature) {
    f.kind == KSDomain
  }

  /** A `PKStructure`: the chain's graph, its monomer count and its connection atom. */
  datatype PKStructure = PKStructure(molecule: Molecule, monomerCount: nat, connectionAtom: AtomId)

  /** `new PKStructure()`: no atoms, no monomers; the connection atom is not read before a first add. */
  const EmptyStructure: PKStructure := PKStructure(EmptyMolecule, 0, 0)

  /**
    `PKStructure.add(monomer)`, whose body is not part of this model. Assumed
    contract: the monomer's fragment is merged into the chain graph, the
    monomer's open end becomes the connection atom, and the count becomes 1 on
    a graph with no atoms (a starter unit, or the replacement of a cleared
    chain) or grows by one otherwise. The count rule is an assumption: it is
    the one rule on the graph alone that gives both the starter count of 1 and
    the replacement count of 1 that the assembler's callers rely on.
  */
  function Add(st: PKStructure, m: Monomer): (r: PKStructure)
    ensures r.molecule == Merge(st.molecule, m.mol) && r.connectionAtom == m.openEnd
    ensures AtomCount(st.molecule) == 0 ==> r.monomerCount == 1
    ensures AtomCount(st.molecule) > 0 ==> r.monomerCount == st.monomerCount + 1
  {
    PKStructure(Merge(st.molecule, m.mol),
                if AtomCount(st.molecule) == 0 then 1 else st.monomerCount + 1,
                m.openEnd)
  }

  /** `structure.getMolecule().removeAllElements()`: the graph is emptied, nothing else changes. */
  function Cleared(st: PKStructure): PKStructure {
    st.(molecule := EmptyMolecule)
  }

  /**
    The code the assembler calls but that is not part of this model:
    - `applyProcessor(feat, m)`: the processor that `MonomerProcessorFactory` selects for
      the tailoring feature `feat`, applied to monomer `m`;
    - `applyPostProcessor(feat, st, m)`: `feat.getPostProcessor().process(st, m)`;
    - `removeLastMonomer(st)`: `PKStructure.removeLastMonomer()`;
    - `isConnected(mol)`: `ConnectivityChecker.isConnected(mol)`.
  */
  datatype Collaborators = Collaborators(
    applyProcessor: (Feature, Monomer) -> Monomer,
    applyPostProcessor: (Feature, PKStructure, Monomer) -> PKStructure,
    removeLastMonomer: PKStructure -> PKStructure,
    isConnected: Molecule -> bool)

  /** One invocation of foreign code on behalf of `feature`, with the state it was handed. */
  datatype Call<S> = Call(feature: Feature, input: S)

  /** Runs `step` once per feature of `fs`, front to back, each on the previous result. */
  function Fold<S>(step: (Feature, S) -> S, fs: seq<Feature>, s0: S): S
    decreases |fs|
  {
    if fs == [] then s0
    else step(fs[|fs| - 1], Fold(step, fs[..|fs| - 1], s0))
  }

  /** The calls `Fold` makes, in the order it makes them. */
  function Trace<S>(step: (Feature, S) -> S, fs: seq<Feature>, s0: S): seq<Call<S>>
    decreases |fs|
  {
    if fs == [] then []
    else Trace(step, fs[..|fs| - 1], s0) + [Call(fs[|fs| - 1], Fold(step, fs[..|fs| - 1], s0))]
  }

  /** The features on whose behalf the calls were made. */
  function CalledFeatures<S>(calls: seq<Call<S>>): seq<Feature> {
    seq(|calls|, i requires 0 <= i < |calls| => calls[i].feature)
  }

  /**
    Exactly one call per feature, in the features' order, and the i-th call is
    handed what the first i calls produced.
  */
  lemma {:induction false} TraceAt<S>(step: (Feature, S) -> S, fs: seq<Feature>, s0: S)
    ensures |Trace(step, fs, s0)| == |fs|
    ensures forall i :: 0 <= i < |fs| ==> Trace(step, fs, s0)[i] == Call(fs[i], Fold(step, fs[..i], s0))
    decreases |fs|
  {
    if fs != [] {
      var n := |fs| - 1;
      TraceAt(step, fs[..n], s0);
      forall i | 0 <= i < n
        ensures Trace(step, fs, s0)[i] == Call(fs[i], Fold(step, fs[..i], s0))
      {
        assert fs[..n][i] == fs[i] && fs[..n][..i] == fs[..i];
      }
    }
  }

  /** The calls of a trace are made on behalf of exactly the folded features. */
  lemma TraceFeatures<S>(step: (Feature, S) -> S, fs: seq<Feature>, s0: S)
    ensures CalledFeatures(Trace(step, fs, s0)) == fs
  {
    TraceAt(step, fs, s0);
  }
}
