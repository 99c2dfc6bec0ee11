/**
  Properties of the assembler model: what one `addMonomer` call does on each
  of its paths, what opening the chain end removes, how a run of calls treats
  tailoring features and the post-processing queue, and how the line-47 test
  as written differs from the intended one.
*/
module AssemblyLemmas {
  import opened Wrappers
  import opened Molecules
  import opened Polyketide
  import opened AssemblySpec

  // ---------------------------------------------------------------------------
  // One addMonomer call
  // ---------------------------------------------------------------------------

  /** A tailoring feature is appended to the buffer; nothing else changes. */
  lemma TailoringFeatureIsBuffered(env: Collaborators, s: AssemblerState, f: Feature)
    requires !IsKS(f)
    ensures var t := Step(env, s, f);
      t.subFeaturesForNextKS == s.subFeaturesForNextKS + [f] &&
      t.(subFeaturesForNextKS := s.subFeaturesForNextKS) == s
  {
  }

  /**
    A KS feature whose monomer has no atoms changes nothing: the buffer is not
    flushed, no processor runs, the structure and the queue stay as they are.
  */
  lemma EmptyMonomerOnlyAdvances(env: Collaborators, s: AssemblerState, f: Feature)
    requires IsKS(f) && AtomCount(f.monomer.mol) == 0
    ensures Step(env, s, f) == s
  {
  }

  /**
    On an empty chain the processed monomer becomes the starter unit: its graph
    is merged in, the count becomes 1, its open end is the connection atom, and
    no generic connection is removed, no hydrogen moved, nothing queued.
  */
  lemma StarterUnit(env: Collaborators, s: AssemblerState, f: Feature)
    requires IsKS(f) && AtomCount(f.monomer.mol) > 0 && s.structure.monomerCount == 0
    ensures KSStepDefined(env, s, f)
    ensures var t := Step(env, s, f);
      var m := Processed(env, s, f);
      t.structure.molecule == Merge(s.structure.molecule, m.mol) &&
      t.structure.monomerCount == 1 &&
      t.structure.connectionAtom == m.openEnd &&
      t.toBePostProcessed == s.toBePostProcessed &&
      t.subFeaturesForNextKS == [] &&
      t.processorCalls == s.processorCalls + Trace(env.applyProcessor, s.subFeaturesForNextKS, f.monomer) &&
      t.postProcessorCalls == s.postProcessorCalls
  {
  }

  /**
    With one monomer in the chain, a non-elongating monomer replaces it: the
    chain's graph becomes exactly the monomer's graph, the count stays 1, and
    nothing is queued.
  */
  lemma NonElongatingReplacesOnlyMonomer(env: Collaborators, s: AssemblerState, f: Feature)
    requires IsKS(f) && AtomCount(f.monomer.mol) > 0
    requires s.structure.monomerCount == 1 && Processed(env, s, f).nonElongating
    ensures KSStepDefined(env, s, f)
    ensures var t := Step(env, s, f);
      var m := Processed(env, s, f);
      t.structure == PKStructure(m.mol, 1, m.openEnd) &&
      t.toBePostProcessed == s.toBePostProcessed &&
      t.subFeaturesForNextKS == [] &&
      t.postProcessorCalls == s.postProcessorCalls
  {
    var m := Processed(env, s, f);
    assert Merge(EmptyMolecule, m.mol) == m.mol by {
      assert map[] + m.mol.atoms == m.mol.atoms;
      assert [] + m.mol.bonds == m.mol.bonds;
    }
  }

  /**
    The queue grows by one entry exactly when a KS feature with a post-processor
    is fused onto the chain; the entry is that feature holding its monomer as
    the fusion left it.
  */
  lemma QueueGrowsOnlyOnFusion(env: Collaborators, s: AssemblerState, f: Feature)
    requires IsKS(f) ==> KSStepDefined(env, s, f)
    ensures var t := Step(env, s, f);
      var m := Processed(env, s, f);
      var fused := IsKS(f) && AtomCount(f.monomer.mol) > 0 && Fuses(s.structure, m);
      t.toBePostProcessed ==
        s.toBePostProcessed + (if fused && f.hasPostProcessor then [f.(monomer := Fuse(env, s.structure, m).monomer)] else [])
  {
  }

  /**
    On the fusion path the chain end's generic connection is removed first; a
    monomer the processors emptied is then neither spliced nor added, so the
    chain is left open, with the R2 atom gone and nothing in its place.
  */
  lemma EmptiedMonomerOpensChainEnd(env: Collaborators, s: AssemblerState, f: Feature)
    requires IsKS(f) && AtomCount(f.monomer.mol) > 0 && KSStepDefined(env, s, f)
    requires Fuses(s.structure, Processed(env, s, f)) && AtomCount(Processed(env, s, f).mol) == 0
    ensures var m := Processed(env, s, f);
      var st0 := ChainEnd(env, s.structure, m);
      Step(env, s, f).structure == st0.(molecule := GenericConnectionRemoved(st0.molecule, st0.connectionAtom).rest)
  {
  }

  /**
    A buffered processor that empties the monomer's fragment but leaves its
    connection bond: with one elongating monomer in the chain the KS feature is
    still fused, so the chain's R2 connection is removed, nothing is added in
    its place, and a feature with a post-processor is still queued.
  */
  lemma EmptyingProcessorStillOpensChainEnd(env: Collaborators, s: AssemblerState, f: Feature, t: Feature)
    requires forall feat, m :: env.applyProcessor(feat, m) == m.(mol := EmptyMolecule)
    requires IsKS(f) && AtomCount(f.monomer.mol) > 0 && HasConnectionBond(f.monomer) && !f.monomer.nonElongating
    requires s.subFeaturesForNextKS == [t] && s.structure.monomerCount == 1
    ensures KSStepDefined(env, s, f)
    ensures var st := s.structure;
      var r := Step(env, s, f);
      r.structure == st.(molecule := GenericConnectionRemoved(st.molecule, st.connectionAtom).rest) &&
      r.toBePostProcessed ==
        s.toBePostProcessed + (if f.hasPostProcessor then [f.(monomer := f.monomer.(mol := EmptyMolecule))] else [])
  {
    assert [t][..0] == [];
    assert Fold(env.applyProcessor, [t], f.monomer) == env.applyProcessor(t, f.monomer);
  }

  /**
    On the fusion path with a monomer that still has atoms, the connection atom
    c of the chain end ends up with its implicit hydrogen count moved by the
    order ordinal of the removed R2 bond minus that of the monomer's connection
    bond (when c is in the chain graph and the monomer fragment does not hold
    an atom under the same identifier). The monomer's open end becomes the
    connection atom, the count grows by one on a chain graph that still has
    atoms, and the spliced monomer's connection bond ends on c.
  */
  lemma FusionBalancesHydrogens(env: Collaborators, s: AssemblerState, f: Feature)
    requires IsKS(f) && AtomCount(f.monomer.mol) > 0 && KSStepDefined(env, s, f)
    requires Fuses(s.structure, Processed(env, s, f)) && AtomCount(Processed(env, s, f).mol) > 0
    ensures var m := Processed(env, s, f);
      var st0 := ChainEnd(env, s.structure, m);
      var c := st0.connectionAtom;
      var opening := GenericConnectionRemoved(st0.molecule, c);
      var t := Step(env, s, f);
      var spliced := Fuse(env, s.structure, m).monomer;
      t.structure.connectionAtom == m.openEnd &&
      (AtomCount(opening.rest) > 0 ==> t.structure.monomerCount == st0.monomerCount + 1) &&
      HasConnectionBond(spliced) && End(ConnectionBond(spliced), RemovedEnd(m)) == c &&
      (c in st0.molecule.atoms && c !in m.mol.atoms ==>
         ImplicitHydrogens(t.structure.molecule, c) ==
           ImplicitHydrogens(st0.molecule, c) + opening.order - ConnectionBond(m).order)
  {
    var m := Processed(env, s, f);
    var st0 := ChainEnd(env, s.structure, m);
    var c := st0.connectionAtom;
    var opening := GenericConnectionRemoved(st0.molecule, c);
    OpeningKeepsOtherAtoms(st0.molecule, c);
    SpliceRepoints(m, c);
    var spliced := Splice(m, c);
    var added := Add(st0.(molecule := opening.rest), spliced);
    if c in st0.molecule.atoms && c !in m.mol.atoms {
      assert c !in spliced.mol.atoms;
      assert added.molecule.atoms[c] == opening.rest.atoms[c];
      HydrogenDeltaMeaning(added.molecule, c, HydrogensToAdd(opening, m));
    }
  }

  // ---------------------------------------------------------------------------
  // removeGenericConnection
  // ---------------------------------------------------------------------------

  /** With no R2 atom bonded to c the result is order 0 and the graph unchanged. */
  lemma NoGenericNeighbourKeepsGraph(mol: Molecule, c: AtomId)
    requires NoGenericNeighbour(mol, c)
    ensures GenericConnectionRemoved(mol, c) == Opening(0, mol)
  {
    var bs := ConnectedBonds(mol.bonds, c);
    ConnectedBondsMembers(mol.bonds, c);
    forall i | 0 <= i < |bs|
      ensures GenericEnd(mol, c, bs[i]).None?
    {
      assert bs[i] in bs;
    }
    LastGenericNeighbourIsLastMatch(mol, c, bs);
  }

  /**
    Otherwise exactly one bond joining c to an R2 pseudo-atom x is removed, its
    order ordinal is returned, x (and only x) leaves the atoms, and every other
    bond stays, in order.
  */
  lemma GenericNeighbourRemovesOneBondAndOneAtom(mol: Molecule, c: AtomId)
    requires !NoGenericNeighbour(mol, c)
    ensures var r := GenericConnectionRemoved(mol, c);
      exists x, k :: x != c && IsGenericAttachment(mol, x) &&
        0 <= k < |mol.bonds| && Joins(mol.bonds[k], c, x) &&
        r.order == mol.bonds[k].order &&
        r.rest.bonds == mol.bonds[..k] + mol.bonds[k + 1..] &&
        r.rest.atoms.Keys == mol.atoms.Keys - {x} &&
        |r.rest.atoms| == |mol.atoms| - 1
  {
    var bs := ConnectedBonds(mol.bonds, c);
    ConnectedBondsMembers(mol.bonds, c);
    LastGenericNeighbourIsLastMatch(mol, c, bs);
    var b :| b in mol.bonds && Contains(b, c) && GenericEnd(mol, c, b).Some?;
    assert b in bs;
    var found := LastGenericNeighbour(mol, c, bs);
    assert found.Some?;
    var x := found.value;
    var i :| 0 <= i < |bs| && GenericEnd(mol, c, bs[i]) == found;
    assert bs[i] in bs;
    GenericNeighbourIsBonded(mol, c);
    var k := FirstBondBetween(mol.bonds, c, x);
    var r := GenericConnectionRemoved(mol, c);
    assert r.rest.atoms == mol.atoms - {x};
    assert r.rest.atoms.Keys == mol.atoms.Keys - {x};
    assert x in mol.atoms;
  }

  /**
    Opening the chain end never changes an atom it keeps, and always keeps c:
    in particular the hydrogen count of c is left alone.
  */
  lemma OpeningKeepsOtherAtoms(mol: Molecule, c: AtomId)
    ensures var r := GenericConnectionRemoved(mol, c);
      (forall y :: y in r.rest.atoms ==> y in mol.atoms && r.rest.atoms[y] == mol.atoms[y]) &&
      (c in mol.atoms ==> c in r.rest.atoms) &&
      ImplicitHydrogens(r.rest, c) == ImplicitHydrogens(mol, c)
  {
    var bs := ConnectedBonds(mol.bonds, c);
    LastGenericNeighbourIsLastMatch(mol, c, bs);
    var found := LastGenericNeighbour(mol, c, bs);
    if found.Some? {
      var i :| 0 <= i < |bs| && GenericEnd(mol, c, bs[i]) == found;
      assert found.value != c;
    }
  }

  /**
    The search does not stop at the first R2 neighbour: with two, bonded to c
    in this order, the second one and its (double) bond are removed and the
    first one stays.
  */
  lemma LastGenericNeighbourWins()
    ensures var r2 := Atom(true, GenericLabel, 0);
      var carbon := Atom(false, "C", 1);
      var mol := Molecule(map[0 := carbon, 1 := r2, 2 := r2], [Bond(0, 1, 0), Bond(0, 2, 1)]);
      GenericConnectionRemoved(mol, 0) == Opening(1, Molecule(map[0 := carbon, 1 := r2], [Bond(0, 1, 0)]))
  {
    var r2 := Atom(true, GenericLabel, 0);
    var carbon := Atom(false, "C", 1);
    var mol := Molecule(map[0 := carbon, 1 := r2, 2 := r2], [Bond(0, 1, 0), Bond(0, 2, 1)]);
    var bs := ConnectedBonds(mol.bonds, 0);
    assert mol.bonds[1..][1..] == [];
    assert bs == mol.bonds;
    assert bs[..1] == [Bond(0, 1, 0)];
    assert GenericEnd(mol, 0, bs[1]) == Some(2);
    assert LastGenericNeighbour(mol, 0, bs) == Some(2);
    assert mol.bonds[1] in mol.bonds && Joins(mol.bonds[1], 0, 2);
    assert FirstBondBetween(mol.bonds, 0, 2) == 1 by {
      assert !Joins(mol.bonds[0], 0, 2);
      assert mol.bonds[1..] == [Bond(0, 2, 1)];
    }
    assert mol.bonds[..1] + mol.bonds[2..] == [Bond(0, 1, 0)];
    assert mol.atoms - {2} == map[0 := carbon, 1 := r2];
  }

  // ---------------------------------------------------------------------------
  // Implicit hydrogens
  // ---------------------------------------------------------------------------

  /**
    Nothing clamps the count: a chain carbon without implicit hydrogens whose
    R2 hangs on a single bond (ordinal 0) is fused with a monomer whose
    connection bond is double (ordinal 1), and is left with -1.
  */
  lemma HydrogenCountCanGoNegative()
    ensures var carbon := Atom(false, "C", 0);
      var mol := Molecule(map[7 := carbon, 8 := Atom(true, GenericLabel, 0)], [Bond(7, 8, 0)]);
      var m := Monomer(Molecule(map[0 := Atom(true, "R1", 0), 1 := carbon], [Bond(0, 1, 1)]),
                       Some(Bond(0, 1, 1)), Some(0), false, 1);
      var fused := FuseOpened(PKStructure(mol, 1, 7), m, GenericConnectionRemoved(mol, 7));
      ImplicitHydrogens(mol, 7) == 0 &&
      ImplicitHydrogens(fused.structure.molecule, 7) == -1
  {
    var carbon := Atom(false, "C", 0);
    var mol := Molecule(map[7 := carbon, 8 := Atom(true, GenericLabel, 0)], [Bond(7, 8, 0)]);
    var m := Monomer(Molecule(map[0 := Atom(true, "R1", 0), 1 := carbon], [Bond(0, 1, 1)]),
                     Some(Bond(0, 1, 1)), Some(0), false, 1);
    var bs := ConnectedBonds(mol.bonds, 7);
    assert mol.bonds[1..] == [];
    assert bs == [Bond(7, 8, 0)];
    assert GenericEnd(mol, 7, bs[0]) == Some(8);
    assert LastGenericNeighbour(mol, 7, bs) == Some(8);
    assert mol.bonds[0] in mol.bonds && Joins(mol.bonds[0], 7, 8);
    assert FirstBondBetween(mol.bonds, 7, 8) == 0;
    var rest := Molecule(map[7 := carbon], []);
    assert mol.bonds[..0] + mol.bonds[1..] == [];
    assert mol.atoms - {8} == map[7 := carbon];
    var opening := GenericConnectionRemoved(mol, 7);
    assert opening == Opening(0, rest);
    assert RemovedEnd(m) == 0;
    var spliced := Splice(m, 7);
    var added := Add(PKStructure(rest, 1, 7), spliced);
    assert 7 in added.molecule.atoms && added.molecule.atoms[7] == carbon;
    assert HydrogensToAdd(opening, m) == -1;
  }

  // ---------------------------------------------------------------------------
  // Runs of addMonomer calls
  // ---------------------------------------------------------------------------

  lemma CalledFeaturesAppend<S>(a: seq<Call<S>>, b: seq<Call<S>>)
    ensures CalledFeatures(a + b) == CalledFeatures(a) + CalledFeatures(b)
  {
  }

  /** One step: the tailoring features already handed to a processor, followed by the buffer, grow by f when f is not a KS domain. */
  lemma StepKeepsEveryTailoringFeature(env: Collaborators, s: AssemblerState, f: Feature)
    requires IsKS(f) ==> KSStepDefined(env, s, f)
    ensures var t := Step(env, s, f);
      CalledFeatures(t.processorCalls) + t.subFeaturesForNextKS ==
        CalledFeatures(s.processorCalls) + s.subFeaturesForNextKS + (if IsKS(f) then [] else [f])
  {
    if IsKS(f) && AtomCount(f.monomer.mol) > 0 {
      var trace := Trace(env.applyProcessor, s.subFeaturesForNextKS, f.monomer);
      CalledFeaturesAppend(s.processorCalls, trace);
      TraceFeatures(env.applyProcessor, s.subFeaturesForNextKS, f.monomer);
      var t := Step(env, s, f);
      assert t.processorCalls == s.processorCalls + trace && t.subFeaturesForNextKS == [];
    }
  }

  /**
    No tailoring feature is lost or reordered: over a run, the features whose
    processors ran, followed by the features still buffered, are the ones that
    were before, followed by the run's tailoring features in order.
  */
  lemma {:induction false} RunKeepsEveryTailoringFeature(env: Collaborators, s: AssemblerState, fs: seq<Feature>)
    requires RunDefined(env, s, fs)
    ensures var t := Run(env, s, fs);
      CalledFeatures(t.processorCalls) + t.subFeaturesForNextKS ==
        CalledFeatures(s.processorCalls) + s.subFeaturesForNextKS + TailoringOf(fs)
    decreases |fs|
  {
    if fs != [] {
      StepKeepsEveryTailoringFeature(env, s, fs[0]);
      RunKeepsEveryTailoringFeature(env, Step(env, s, fs[0]), fs[1..]);
    }
  }

  /** Every feature in the post-processing queue is a KS domain with a post-processor. */
  ghost predicate QueuedForPostProcessing(q: seq<Feature>) {
    forall i :: 0 <= i < |q| ==> IsKS(q[i]) && q[i].hasPostProcessor
  }

  /**
    Over a run the queue only grows at its end, every feature it gains is a KS
    domain with a post-processor, and no post-processor is run.
  */
  lemma {:induction false} RunQueueHoldsPostProcessors(env: Collaborators, s: AssemblerState, fs: seq<Feature>)
    requires RunDefined(env, s, fs)
    ensures var t := Run(env, s, fs);
      |s.toBePostProcessed| <= |t.toBePostProcessed| &&
      t.toBePostProcessed[..|s.toBePostProcessed|] == s.toBePostProcessed &&
      QueuedForPostProcessing(t.toBePostProcessed[|s.toBePostProcessed|..]) &&
      t.postProcessorCalls == s.postProcessorCalls
    decreases |fs|
  {
    if fs != [] {
      var f := fs[0];
      var s1 := Step(env, s, f);
      QueueGrowsOnlyOnFusion(env, s, f);
      RunQueueHoldsPostProcessors(env, s1, fs[1..]);
      var t := Run(env, s, fs);
      var n := |s.toBePostProcessed|;
      var n1 := |s1.toBePostProcessed|;
      assert t.toBePostProcessed[..n1][..n] == t.toBePostProcessed[..n];
      forall i | 0 <= i < |t.toBePostProcessed| - n
        ensures IsKS(t.toBePostProcessed[n..][i]) && t.toBePostProcessed[n..][i].hasPostProcessor
      {
        if n + i >= n1 {
          assert t.toBePostProcessed[n..][i] == t.toBePostProcessed[n1..][n + i - n1];
        } else {
          assert t.toBePostProcessed[n..][i] == s1.toBePostProcessed[n + i];
        }
      }
    }
  }

  // ---------------------------------------------------------------------------
  // The line-47 test as written
  // ---------------------------------------------------------------------------

  /** As written, every feature, KS domain or not, is only appended to the buffer. */
  lemma {:induction false} AsWrittenRunOnlyBuffers(env: Collaborators, s: AssemblerState, fs: seq<Feature>)
    ensures RunAsWritten(env, s, fs) == s.(subFeaturesForNextKS := s.subFeaturesForNextKS + fs)
    decreases |fs|
  {
    if fs != [] {
      var s1 := StepAsWritten(env, s, fs[0]);
      assert s1 == s.(subFeaturesForNextKS := s.subFeaturesForNextKS + [fs[0]]);
      AsWrittenRunOnlyBuffers(env, s1, fs[1..]);
      assert s.subFeaturesForNextKS + [fs[0]] + fs[1..] == s.subFeaturesForNextKS + fs;
    }
  }

  /**
    The consequence: a KS domain with a non-empty monomer, the first feature
    of an assembly, starts the chain as intended, but as written leaves the
    chain without a monomer.
  */
  lemma LiteralGuardNeverStartsChain(env: Collaborators, f: Feature)
    requires IsKS(f) && AtomCount(f.monomer.mol) > 0
    ensures KSStepDefined(env, InitialState, f)
    ensures Step(env, InitialState, f).structure.monomerCount == 1
    ensures StepAsWritten(env, InitialState, f).structure.monomerCount == 0
  {
  }
}
