/**
  `PKSAssembler`: the incremental polyketide chain assembler, as a class whose
  methods update its fields in place. Each method is proved against the
  functions of module AssemblySpec.
*/
module Assembler {
  import opened Wrappers
  import opened Molecules
  import opened Polyketide
  import opened AssemblySpec

  class PKSAssembler {
    var structure: PKStructure
    var toBePostProcessed: seq<Feature>
    var subFeaturesForNextKS: seq<Feature>

    // Logs of the foreign code invoked, in invocation order, and of the
    // features after which a disconnection was reported.
    ghost var processorCalls: seq<Call<Monomer>>
    ghost var postProcessorCalls: seq<Call<PKStructure>>
    ghost var disconnections: seq<string>

    ghost function State(): AssemblerState
      reads this
    {
      AssemblerState(structure, toBePostProcessed, subFeaturesForNextKS,
                     processorCalls, postProcessorCalls, disconnections)
    }

    constructor ()
      ensures State() == InitialState
    {
      structure := EmptyStructure;
      toBePostProcessed := [];
      subFeaturesForNextKS := [];
      processorCalls := [];
      postProcessorCalls := [];
      disconnections := [];
    }

    /**
      Adds the next sequence feature. A tailoring feature is buffered; a KS
      feature with an empty monomer only advances; otherwise the buffered
      processors run on the monomer, which then starts the chain, replaces its
      only monomer, or is fused onto its connection atom.
    */
    method AddMonomer(f: Feature, env: Collaborators)
      requires IsKS(f) ==> KSStepDefined(env, State(), f)
      modifies this
      ensures State() == Step(env, old(State()), f)
    {
      if !IsKS(f) {
        subFeaturesForNextKS := subFeaturesForNextKS + [f];
        return;
      }
      if AtomCount(f.monomer.mol) == 0 {
        // empty molecule: advancing only
        return;
      }
      ghost var s := State();
      var monomer := ProcessSubFeatures(f.monomer, env);
      ghost var s1 := State();
      assert s1 == Flushed(env, s, f) && monomer == Processed(env, s, f);
      assert Step(env, s, f) == Incorporate(env, s1, f, monomer);
      if structure.monomerCount == 0 {
        // starting the nascent polyketide
        structure := Add(structure, monomer);
        CheckNumberOfConnectedComponents(f, env);
      } else if structure.monomerCount == 1 && monomer.nonElongating {
        // the only monomer is replaced by the non-elongating one
        structure := Add(Cleared(structure), monomer);
        CheckNumberOfConnectedComponents(f, env);
      } else {
        ghost var processed := monomer;
        if monomer.nonElongating {
          structure := env.removeLastMonomer(structure);
        }
        assert structure == ChainEnd(env, s1.structure, processed);
        var fused := FuseOnto(structure, monomer);
        structure := fused.structure;
        monomer := fused.monomer;
        CheckNumberOfConnectedComponents(f, env);
        if f.hasPostProcessor {
          toBePostProcessed := toBePostProcessed + [f.(monomer := monomer)];
        }
      }
    }

    /**
      Lines 90-109 on the chain end st0: opens its connection atom, splices the
      monomer onto it, adds it and balances that atom's implicit hydrogens.
    */
    static method FuseOnto(st0: PKStructure, m: Monomer) returns (fused: Fusion)
      requires HasConnectionBond(m)
      ensures fused == FuseOpened(st0, m, GenericConnectionRemoved(st0.molecule, st0.connectionAtom))
    {
      var structure := st0;
      var monomer := m;
      var connectionAtomInChain := structure.connectionAtom;
      var connectionBondInMonomer := ConnectionBond(monomer);
      var order, unlinked := RemoveGenericConnection(connectionAtomInChain, structure.molecule);
      ghost var opening := Opening(order, unlinked);
      structure := structure.(molecule := unlinked);
      var orderNew := connectionBondInMonomer.order;
      var hydrogensToAdd := order as int - orderNew as int;
      assert hydrogensToAdd == HydrogensToAdd(opening, m);
      if AtomCount(monomer.mol) > 0 {
        monomer := Splice(monomer, connectionAtomInChain);
        structure := Add(structure, monomer);
        var adjusted := AdjustImplicitHydrogens(structure.molecule, connectionAtomInChain, hydrogensToAdd);
        structure := structure.(molecule := adjusted);
      }
      fused := Fusion(structure, monomer);
      assert fused == FuseOpened(st0, m, opening);
    }

    /**
      Runs the processor of every buffered tailoring feature, in buffer order,
      on the monomer, then empties the buffer.
    */
    method ProcessSubFeatures(monomer: Monomer, env: Collaborators) returns (processed: Monomer)
      modifies this
      ensures processed == Fold(env.applyProcessor, old(subFeaturesForNextKS), monomer)
      ensures processorCalls == old(processorCalls) + Trace(env.applyProcessor, old(subFeaturesForNextKS), monomer)
      ensures subFeaturesForNextKS == []
      ensures structure == old(structure) && toBePostProcessed == old(toBePostProcessed)
      ensures postProcessorCalls == old(postProcessorCalls) && disconnections == old(disconnections)
    {
      var buffer := subFeaturesForNextKS;
      processed := monomer;
      var i := 0;
      while i < |buffer|
        invariant 0 <= i <= |buffer|
        invariant processed == Fold(env.applyProcessor, buffer[..i], monomer)
        invariant processorCalls == old(processorCalls) + Trace(env.applyProcessor, buffer[..i], monomer)
        invariant structure == old(structure) && toBePostProcessed == old(toBePostProcessed)
        invariant postProcessorCalls == old(postProcessorCalls) && disconnections == old(disconnections)
        invariant subFeaturesForNextKS == buffer
      {
        var feat := buffer[i];
        assert buffer[..i + 1][..i] == buffer[..i];
        processorCalls := processorCalls + [Call(feat, processed)];
        processed := env.applyProcessor(feat, processed);
        i := i + 1;
      }
      assert buffer[..i] == buffer;
      subFeaturesForNextKS := [];
    }

    /** Records f when the chain graph is not connected; changes nothing else. */
    method CheckNumberOfConnectedComponents(f: Feature, env: Collaborators)
      modifies this
      ensures State() == Checked(env, old(State()), f)
    {
      if !env.isConnected(structure.molecule) {
        disconnections := disconnections + [f.name];
      }
    }

    /**
      Runs each queued feature's post-processor once, in queue order, on the
      current structure and that feature's monomer. The queue is left as it is.
    */
    method PostProcess(env: Collaborators)
      modifies this
      ensures structure == Fold(PostStep(env), old(toBePostProcessed), old(structure))
      ensures postProcessorCalls == old(postProcessorCalls) + Trace(PostStep(env), old(toBePostProcessed), old(structure))
      ensures toBePostProcessed == old(toBePostProcessed) && subFeaturesForNextKS == old(subFeaturesForNextKS)
      ensures processorCalls == old(processorCalls) && disconnections == old(disconnections)
    {
      var queue := toBePostProcessed;
      var i := 0;
      while i < |queue|
        invariant 0 <= i <= |queue|
        invariant structure == Fold(PostStep(env), queue[..i], old(structure))
        invariant postProcessorCalls == old(postProcessorCalls) + Trace(PostStep(env), queue[..i], old(structure))
        invariant toBePostProcessed == queue && subFeaturesForNextKS == old(subFeaturesForNextKS)
        invariant processorCalls == old(processorCalls) && disconnections == old(disconnections)
      {
        var toPP := queue[i];
        assert queue[..i + 1][..i] == queue[..i];
        postProcessorCalls := postProcessorCalls + [Call(toPP, structure)];
        structure := env.applyPostProcessor(toPP, structure, toPP.monomer);
        i := i + 1;
      }
      assert queue[..i] == queue;
    }

    /** `getStructure()`: the structure assembled so far. */
    method GetStructure() returns (st: PKStructure)
      ensures st == structure
    {
      st := structure;
    }

    /**
      Removes the R2 pseudo-atom bonded to the chain's connection atom c, and
      that bond, and returns the bond's order ordinal; returns 0 and leaves the
      graph alone when there is none.
    */
    static method RemoveGenericConnection(c: AtomId, mol: Molecule) returns (order: nat, result: Molecule)
      ensures Opening(order, result) == GenericConnectionRemoved(mol, c)
    {
      var connected := ConnectedBonds(mol.bonds, c);
      var toRemove: Option<AtomId> := None;
      var i := 0;
      while i < |connected|
        invariant 0 <= i <= |connected|
        invariant toRemove == LastGenericNeighbour(mol, c, connected[..i])
      {
        var bond := connected[i];
        ghost var before := toRemove;
        var k := 0;
        while k < 2
          invariant 0 <= k <= 2
          invariant toRemove == before
          invariant forall j :: 0 <= j < k && End(bond, j) != c ==> !IsGenericAttachment(mol, End(bond, j))
        {
          var atomCon := End(bond, k);
          if atomCon == c {
            k := k + 1;
            continue;
          }
          if IsGenericAttachment(mol, atomCon) {
            toRemove := Some(atomCon);
            break;
          }
          k := k + 1;
        }
        assert End(bond, 0) == bond.a0 && End(bond, 1) == bond.a1;
        assert toRemove == if GenericEnd(mol, c, bond).Some? then GenericEnd(mol, c, bond) else before;
        assert connected[..i + 1][..i] == connected[..i];
        i := i + 1;
      }
      assert connected[..i] == connected;
      order := 0;
      result := mol;
      if toRemove.Some? {
        GenericNeighbourIsBonded(mol, c);
        var x := toRemove.value;
        var k := FirstBondBetween(mol.bonds, c, x);
        order := mol.bonds[k].order;
        result := RemoveBondAt(result, k);
        result := RemoveAtom(result, x);
      }
    }

    /**
      Moves the implicit hydrogen count of atom c by h, one unit per step in the
      direction of h's sign, |h| steps in all.
    */
    static method AdjustImplicitHydrogens(mol: Molecule, c: AtomId, h: int) returns (result: Molecule)
      ensures result == WithHydrogenDelta(mol, c, h)
    {
      var steps := if h < 0 then -h else h;
      var sign := if h < 0 then -1 else if h == 0 then 0 else 1;
      result := mol;
      var i := 0;
      while i < steps
        invariant 0 <= i <= steps
        invariant result == WithHydrogenDelta(mol, c, i * sign)
      {
        var current := ImplicitHydrogens(result, c);
        result := WithImplicitHydrogens(result, c, current + 1 * sign);
        i := i + 1;
      }
    }
  }
}
