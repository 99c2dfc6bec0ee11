/**
  What one `PKSAssembler.addMonomer` call, and a run of them, does to the
  assembler's state, written as functions over values. The imperative class in
  module Assembler is proved to follow these functions step by step.
*/
module AssemblySpec {
  import opened Wrappers
  import opened Molecules
  import opened Polyketide

  /**
    The assembler's fields (`structure`, `toBePostProcessed`,
    `subFeaturesForNextKS`) together with the call logs kept by the model: the
    monomer-processor calls, the post-processor calls, and the names of the
    features after which the connectivity check reported a disconnection.
  */
  datatype AssemblerState = AssemblerState(
    structure: PKStructure,
    toBePostProcessed: seq<Feature>,
    subFeaturesForNextKS: seq<Feature>,
    processorCalls: seq<Call<Monomer>>,
    postProcessorCalls: seq<Call<PKStructure>>,
    disconnections: seq<string>)

  /** The state right after `new PKSAssembler()`. */
  const InitialState: AssemblerState := AssemblerState(EmptyStructure, [], [], [], [], [])

  /** The label of the generic attachment point left open at the chain end. */
  const GenericLabel: string := "R2"

  /** `atom instanceof IPseudoAtom && ((IPseudoAtom) atom).getLabel().equals("R2")` */
  predicate IsGenericAttachment(mol: Molecule, x: AtomId) {
    IsPseudo(mol, x) && mol.atoms[x].pseudoLabel == GenericLabel
  }

  /**
    The inner search over `bond.atoms()`: the first end, in bond order, that is
    not the connection atom c and is a generic attachment point.
  */
  function GenericEnd(mol: Molecule, c: AtomId, b: Bond): (r: Option<AtomId>)
    ensures r.Some? ==> r.value != c && IsGenericAttachment(mol, r.value) && Contains(b, r.value)
    ensures r.None? ==> forall k :: 0 <= k < 2 && End(b, k) != c ==> !IsGenericAttachment(mol, End(b, k))
  {
    if b.a0 != c && IsGenericAttachment(mol, b.a0) then Some(b.a0)
    else if b.a1 != c && IsGenericAttachment(mol, b.a1) then Some(b.a1)
    else None
  }

  /**
    The outer search over the connected bonds `bs`: every matching bond
    overwrites the previous match (the inner `break` leaves only the inner loop).
  */
  ghost function LastGenericNeighbour(mol: Molecule, c: AtomId, bs: seq<Bond>): Option<AtomId>
    decreases |bs|
  {
    if bs == [] then None
    else
      var n := |bs| - 1;
      match GenericEnd(mol, c, bs[n])
      case Some(x) => Some(x)
      case None => LastGenericNeighbour(mol, c, bs[..n])
  }

  /**
    The search keeps the match of the LAST bond that has one, and finds nothing
    only when no bond has one.
  */
  lemma {:induction false} LastGenericNeighbourIsLastMatch(mol: Molecule, c: AtomId, bs: seq<Bond>)
    ensures var r := LastGenericNeighbour(mol, c, bs);
      (r.Some? ==>
         exists i :: 0 <= i < |bs| && GenericEnd(mol, c, bs[i]) == r &&
           forall j :: i < j < |bs| ==> GenericEnd(mol, c, bs[j]).None?) &&
      (r.None? ==> forall i :: 0 <= i < |bs| ==> GenericEnd(mol, c, bs[i]).None?)
    decreases |bs|
  {
    if bs != [] {
      var n := |bs| - 1;
      LastGenericNeighbourIsLastMatch(mol, c, bs[..n]);
      if GenericEnd(mol, c, bs[n]).None? {
        var r := LastGenericNeighbour(mol, c, bs[..n]);
        if r.Some? {
          var i :| 0 <= i < n && GenericEnd(mol, c, bs[..n][i]) == r &&
            forall j :: i < j < n ==> GenericEnd(mol, c, bs[..n][j]).None?;
          assert GenericEnd(mol, c, bs[i]) == r;
        }
      }
    }
  }

  /** No bond at the connection atom c leads to a generic attachment point. */
  ghost predicate NoGenericNeighbour(mol: Molecule, c: AtomId) {
    forall b :: b in mol.bonds && Contains(b, c) ==> GenericEnd(mol, c, b).None?
  }

  /** The generic attachment point the search settles on is bonded to c. */
  lemma GenericNeighbourIsBonded(mol: Molecule, c: AtomId)
    ensures var r := LastGenericNeighbour(mol, c, ConnectedBonds(mol.bonds, c));
      r.Some? ==> exists b :: b in mol.bonds && Joins(b, c, r.value)
  {
    var bs := ConnectedBonds(mol.bonds, c);
    var r := LastGenericNeighbour(mol, c, bs);
    LastGenericNeighbourIsLastMatch(mol, c, bs);
    ConnectedBondsMembers(mol.bonds, c);
    if r.Some? {
      var i :| 0 <= i < |bs| && GenericEnd(mol, c, bs[i]) == r;
      assert bs[i] in bs;
      assert Joins(bs[i], c, r.value);
    }
  }

  /** What opening the chain end yields: the removed bond's order ordinal and the remaining graph. */
  datatype Opening = Opening(order: nat, rest: Molecule)

  /**
    `removeGenericConnection(c, mol)`: the order ordinal of the bond to the chosen
    R2 atom and the graph without that bond and that atom; (0, mol) when no R2
    atom hangs off c.
  */
  ghost function GenericConnectionRemoved(mol: Molecule, c: AtomId): Opening
  {
    match LastGenericNeighbour(mol, c, ConnectedBonds(mol.bonds, c))
    case None => Opening(0, mol)
    case Some(x) =>
      GenericNeighbourIsBonded(mol, c);
      var k := FirstBondBetween(mol.bonds, c, x);
      Opening(mol.bonds[k].order, RemoveAtom(RemoveBondAt(mol, k), x))
  }

  /**
    Line 97: the end of the connection bond to drop, 0 when atom 0 is a
    pseudo-atom and 1 otherwise. The dropped end is the placeholder whenever the
    bond has one.
  */
  function RemovedEnd(m: Monomer): (e: nat)
    requires HasConnectionBond(m)
    ensures e < 2
    ensures IsPseudo(m.mol, ConnectionBond(m).a0) || IsPseudo(m.mol, ConnectionBond(m).a1) ==>
              IsPseudo(m.mol, End(ConnectionBond(m), e))
  {
    if IsPseudo(m.mol, ConnectionBond(m).a0) then 0 else 1
  }

  /**
    Lines 97-100: drop the pseudo end of the connection bond from the monomer
    and re-point that end of the bond at the chain atom c. The bond object is
    shared with the fragment, so its copy in the fragment's bond list (when it
    has one) is re-pointed too.
  */
  function Splice(m: Monomer, c: AtomId): Monomer
    requires HasConnectionBond(m)
  {
    var b := ConnectionBond(m);
    var e := RemovedEnd(m);
    var rebound := if e == 0 then b.(a0 := c) else b.(a1 := c);
    var bonds := if ConnectionBondInFragment(m) then m.mol.bonds[m.connectionPos.value := rebound] else m.mol.bonds;
    Monomer(Molecule(m.mol.atoms - {End(b, e)}, bonds), Some(rebound), m.connectionPos, m.nonElongating, m.openEnd)
  }

  /**
    After the splice the dropped end of the connection bond is the chain atom c,
    the other end and the order are as before, the fragment's copy of the bond
    (if any) is the re-pointed bond, the monomer has lost exactly the dropped
    atom, and no other bond or attribute has changed.
  */
  lemma SpliceRepoints(m: Monomer, c: AtomId)
    requires HasConnectionBond(m)
    ensures var r := Splice(m, c);
      var e := RemovedEnd(m);
      HasConnectionBond(r) && r.connectionPos == m.connectionPos &&
      End(ConnectionBond(r), e) == c &&
      End(ConnectionBond(r), 1 - e) == End(ConnectionBond(m), 1 - e) &&
      ConnectionBond(r).order == ConnectionBond(m).order &&
      r.mol.atoms == m.mol.atoms - {End(ConnectionBond(m), e)} &&
      (End(ConnectionBond(m), e) in m.mol.atoms ==> AtomCount(r.mol) == AtomCount(m.mol) - 1) &&
      |r.mol.bonds| == |m.mol.bonds| &&
      ConnectionBondInFragment(r) == ConnectionBondInFragment(m) &&
      (ConnectionBondInFragment(m) ==> r.mol.bonds[m.connectionPos.value] == ConnectionBond(r)) &&
      (forall i :: 0 <= i < |m.mol.bonds| && !(ConnectionBondInFragment(m) && i == m.connectionPos.value) ==>
         r.mol.bonds[i] == m.mol.bonds[i]) &&
      r.nonElongating == m.nonElongating && r.openEnd == m.openEnd
  {
    var x := End(ConnectionBond(m), RemovedEnd(m));
    assert (m.mol.atoms - {x}).Keys == m.mol.atoms.Keys - {x};
  }

  /**
    The edge of line 97: a connection bond with no pseudo-atom end loses its
    end 1, a real atom, to the splice.
  */
  lemma SpliceWithoutPlaceholderDropsRealAtom(m: Monomer, c: AtomId)
    requires HasConnectionBond(m)
    requires !IsPseudo(m.mol, ConnectionBond(m).a0) && !IsPseudo(m.mol, ConnectionBond(m).a1)
    ensures RemovedEnd(m) == 1
    ensures Splice(m, c).mol.atoms == m.mol.atoms - {ConnectionBond(m).a1}
  {
  }

  /** The new monomer fuses onto the chain (line 76 onwards) rather than starting or replacing it. */
  predicate Fuses(st: PKStructure, m: Monomer) {
    st.monomerCount != 0 && !(st.monomerCount == 1 && m.nonElongating)
  }

  /** Lines 81-83: a non-elongating monomer first takes the last monomer off the chain. */
  function ChainEnd(env: Collaborators, st: PKStructure, m: Monomer): PKStructure {
    if m.nonElongating then env.removeLastMonomer(st) else st
  }

  /** The structure after a fusion and the monomer as its feature then holds it. */
  datatype Fusion = Fusion(structure: PKStructure, monomer: Monomer)

  /**
    Lines 91-93: the implicit hydrogens the chain's connection atom gains, the
    order ordinal of the bond it lost minus that of the monomer's connection bond.
  */
  function HydrogensToAdd(opening: Opening, m: Monomer): int
    requires HasConnectionBond(m)
  {
    opening.order - ConnectionBond(m).order
  }

  /**
    Lines 90-109, once the generic connection of the chain end st0 has been
    removed (`opening`): the monomer's dropped end is re-pointed at the chain's
    connection atom, the monomer is added, and that atom's hydrogen count moves
    by the order lost minus the order gained. A monomer the processors left
    without atoms is neither spliced nor added.
  */
  function FuseOpened(st0: PKStructure, m: Monomer, opening: Opening): Fusion
    requires HasConnectionBond(m)
  {
    var c := st0.connectionAtom;
    if AtomCount(m.mol) > 0 then
      var spliced := Splice(m, c);
      var added := Add(st0.(molecule := opening.rest), spliced);
      Fusion(added.(molecule := WithHydrogenDelta(added.molecule, c, HydrogensToAdd(opening, m))), spliced)
    else
      Fusion(st0.(molecule := opening.rest), m)
  }

  /**
    Lines 81-109: the fused structure and the monomer as the feature holds it
    afterwards (spliced, or untouched when the processors left it without atoms).
  */
  ghost function Fuse(env: Collaborators, st: PKStructure, m: Monomer): Fusion
    requires HasConnectionBond(m)
  {
    var st0 := ChainEnd(env, st, m);
    FuseOpened(st0, m, GenericConnectionRemoved(st0.molecule, st0.connectionAtom))
  }

  /** `checkNumberOfConnectedComponents(f)`: only the report changes, never the structure. */
  function Checked(env: Collaborators, s: AssemblerState, f: Feature): (r: AssemblerState)
    ensures r.(disconnections := s.disconnections) == s
    ensures |r.disconnections| == |s.disconnections| + (if env.isConnected(s.structure.molecule) then 0 else 1)
  {
    if env.isConnected(s.structure.molecule) then s
    else s.(disconnections := s.disconnections + [f.name])
  }

  /** The monomer of f after every buffered tailoring feature's processor ran on it. */
  ghost function Processed(env: Collaborators, s: AssemblerState, f: Feature): Monomer {
    Fold(env.applyProcessor, s.subFeaturesForNextKS, f.monomer)
  }

  /** Line 91 reads the connection bond: it must be there whenever a fusion happens. */
  ghost predicate KSStepDefined(env: Collaborators, s: AssemblerState, f: Feature) {
    AtomCount(f.monomer.mol) > 0 && Fuses(s.structure, Processed(env, s, f)) ==>
      HasConnectionBond(Processed(env, s, f))
  }

  /**
    Lines 60-116, once the processors have turned f's monomer into m and the
    buffer has been emptied (state s): start the chain, replace its only
    monomer, or fuse m onto it and queue f for post-processing.
  */
  ghost function Incorporate(env: Collaborators, s: AssemblerState, f: Feature, m: Monomer): AssemblerState
    requires Fuses(s.structure, m) ==> HasConnectionBond(m)
  {
    if s.structure.monomerCount == 0 then
      Checked(env, s.(structure := Add(s.structure, m)), f)
    else if s.structure.monomerCount == 1 && m.nonElongating then
      Checked(env, s.(structure := Add(Cleared(s.structure), m)), f)
    else
      var fused := Fuse(env, s.structure, m);
      var s2 := Checked(env, s.(structure := fused.structure), f);
      if f.hasPostProcessor then s2.(toBePostProcessed := s2.toBePostProcessed + [f.(monomer := fused.monomer)])
      else s2
  }

  /** Line 58: the buffered processors run on f's monomer and the buffer is emptied. */
  ghost function Flushed(env: Collaborators, s: AssemblerState, f: Feature): AssemblerState {
    s.(subFeaturesForNextKS := [],
       processorCalls := s.processorCalls + Trace(env.applyProcessor, s.subFeaturesForNextKS, f.monomer))
  }

  /**
    `addMonomer(f)` where `ksPath` is the value of the line-47 test
    `sequenceFeature.getClass().isInstance(KSDomainSeqFeature.class)`: when it
    is false the feature is buffered, otherwise lines 51-116 run.
  */
  ghost function StepGuarded(env: Collaborators, s: AssemblerState, f: Feature, ksPath: bool): AssemblerState
    requires ksPath ==> KSStepDefined(env, s, f)
  {
    if !ksPath then s.(subFeaturesForNextKS := s.subFeaturesForNextKS + [f])
    else if AtomCount(f.monomer.mol) == 0 then s
    else Incorporate(env, Flushed(env, s, f), f, Processed(env, s, f))
  }

  /** `addMonomer(f)` with the KS test meaning what it is evidently meant to: f is a KS domain. */
  ghost function Step(env: Collaborators, s: AssemblerState, f: Feature): AssemblerState
    requires IsKS(f) ==> KSStepDefined(env, s, f)
  {
    StepGuarded(env, s, f, IsKS(f))
  }

  /**
    The line-47 test as written: it asks whether the class literal
    `KSDomainSeqFeature.class`, an object of type `java.lang.Class`, is an
    instance of the feature's own runtime class. That class implements
    `SequenceFeature`, which `java.lang.Class` does not, so the answer is false
    for every feature, KS domain or not.
  */
  predicate ClassLiteralIsInstanceOfFeatureClass(f: Feature) {
    false
  }

  /** `addMonomer(f)` exactly as written. */
  ghost function StepAsWritten(env: Collaborators, s: AssemblerState, f: Feature): AssemblerState {
    StepGuarded(env, s, f, ClassLiteralIsInstanceOfFeatureClass(f))
  }

  /** Every call of a run of `addMonomer` calls is defined. */
  ghost predicate RunDefined(env: Collaborators, s: AssemblerState, fs: seq<Feature>)
    decreases |fs|
  {
    fs != [] ==>
      (IsKS(fs[0]) ==> KSStepDefined(env, s, fs[0])) && RunDefined(env, Step(env, s, fs[0]), fs[1..])
  }

  /** `addMonomer` called on each feature of fs in turn. */
  ghost function Run(env: Collaborators, s: AssemblerState, fs: seq<Feature>): AssemblerState
    requires RunDefined(env, s, fs)
    decreases |fs|
  {
    if fs == [] then s else Run(env, Step(env, s, fs[0]), fs[1..])
  }

  /** The as-written `addMonomer` called on each feature of fs in turn. */
  ghost function RunAsWritten(env: Collaborators, s: AssemblerState, fs: seq<Feature>): AssemblerState
    decreases |fs|
  {
    if fs == [] then s else RunAsWritten(env, StepAsWritten(env, s, fs[0]), fs[1..])
  }

  /** The tailoring (non-KS) features of fs, in order. */
  function TailoringOf(fs: seq<Feature>): seq<Feature> {
    if fs == [] then [] else (if IsKS(fs[0]) then [] else [fs[0]]) + TailoringOf(fs[1..])
  }

  /** The post-processing step: `f.getPostProcessor().process(structure, f.getMonomer())`. */
  function PostStep(env: Collaborators): (Feature, PKStructure) -> PKStructure {
    (f: Feature, st: PKStructure) => env.applyPostProcessor(f, st, f.monomer)
  }
}
