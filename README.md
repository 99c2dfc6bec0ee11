# PKSAssembler, modelled and verified in Dafny

This project models the incremental polyketide chain assembler of TransATor
(`PKSAssembler`). The assembler receives a domain architecture one sequence
feature at a time and grows a polyketide structure. Its state has three parts:

- a `PKStructure`: the chain's molecular graph, its monomer count and its
  connection atom;
- a buffer of tailoring features waiting for the next KS domain;
- a queue of KS features whose post-processors run once the chain is complete.

`addMonomer` takes one of these paths:

- it buffers a tailoring feature;
- it ignores a KS domain whose monomer has no atoms ("advance only");
- for any other KS domain it runs the buffered processors on the monomer,
  empties the buffer, and then starts the chain, replaces the chain's only
  monomer with a non-elongating one, or fuses the monomer onto the chain.

Fusion is graph surgery. It removes the `R2` pseudo-atom and its bond from the
chain's connection atom. It drops the pseudo end of the monomer's connection
bond and re-points that bond at the chain atom. It adds the monomer. Then it
moves the chain atom's implicit hydrogen count by the removed bond's order
minus the new bond's order, one unit per loop step.

The files, from the bottom up:

- `molecules.dfy`: module `Molecules`, the part of a CDK atom container the
  assembler touches. Atoms sit in an arena keyed by stable identifiers. Bonds
  are kept in container order, and a bond's order is `IBond.Order.ordinal()`.
  Also a small `Wrappers` module with `Option`.
- `polyketide.dfy`: module `Polyketide`, holding monomers, sequence features,
  the `PKStructure` value and the code the assembler calls but that is not
  modelled (processors, post-processors, `removeLastMonomer`, the connectivity
  checker). It also defines `Fold`/`Trace`, the sequential application of
  those calls and the log of what each call received.
- `assembly_spec.dfy`: module `AssemblySpec`, with what each operation does,
  written as functions over values. `Step` is one `addMonomer` call and `Run`
  is a sequence of them. `GenericConnectionRemoved`, `Splice` and `Fuse` are
  the fusion steps. `StepAsWritten` / `RunAsWritten` use the line-47 test
  exactly as written.
- `assembler.dfy`: module `Assembler`, class `PKSAssembler`, whose fields the
  methods update in place with the source's loops. Each method is proved
  against the functions above. Ghost fields log every processor and
  post-processor call and every reported disconnection.
- `assembly_lemmas.dfy`: module `AssemblyLemmas`, with properties of single
  calls, of `removeGenericConnection`, of runs, and of the line-47 test.

All source paths below are relative to the repository root; `PKSAssembler.java` stands for
`PKStructureGenerator/src/main/java/uk/ac/ebi/cheminformatics/pks/generator/PKSAssembler.java`
in the prose.

## Model

| member | source | states |
|---|---|---|
| `Assembler.PKSAssembler.constructor` | PKStructureGenerator/src/main/java/uk/ac/ebi/cheminformatics/pks/generator/PKSAssembler.java:34-38 | a new assembler has an empty structure (no atoms, count 0), an empty buffer and queue, and has made no calls |
| `Assembler.PKSAssembler.AddMonomer` | PKStructureGenerator/src/main/java/uk/ac/ebi/cheminformatics/pks/generator/PKSAssembler.java:46-117 | the new state, including the logs of foreign calls, is `Step` of the old one. The KS test is read as intended (see Findings). The caller must supply a connection bond whenever the monomer is fused |
| `Assembler.PKSAssembler.ProcessSubFeatures` | PKStructureGenerator/src/main/java/uk/ac/ebi/cheminformatics/pks/generator/PKSAssembler.java:123-129 | the result is the buffered processors applied to the monomer one after another in buffer order. Exactly those calls are logged, in that order, each on the previous call's result. The buffer is then empty and nothing else changes |
| `Assembler.PKSAssembler.CheckNumberOfConnectedComponents` | PKStructureGenerator/src/main/java/uk/ac/ebi/cheminformatics/pks/generator/PKSAssembler.java:131-136 | a disconnected graph adds the feature's name to the disconnection log. Nothing else changes, the structure included |
| `Assembler.PKSAssembler.PostProcess` | PKStructureGenerator/src/main/java/uk/ac/ebi/cheminformatics/pks/generator/PKSAssembler.java:138-143 | the structure is the queued post-processors applied in queue order, each to the structure so far and its feature's monomer. One call per queued feature is logged in that order. The queue, buffer and other logs are unchanged |
| `Assembler.PKSAssembler.GetStructure` | PKStructureGenerator/src/main/java/uk/ac/ebi/cheminformatics/pks/generator/PKSAssembler.java:175-177 | returns the structure assembled so far and changes nothing |
| `Assembler.PKSAssembler.FuseOnto` | PKStructureGenerator/src/main/java/uk/ac/ebi/cheminformatics/pks/generator/PKSAssembler.java:85-109 | fusing onto the chain end opens it first (`GenericConnectionRemoved`). A monomer with atoms is then spliced, added and balanced (`FuseOpened`); an emptied one leaves only the opened chain |
| `Assembler.PKSAssembler.RemoveGenericConnection` | PKStructureGenerator/src/main/java/uk/ac/ebi/cheminformatics/pks/generator/PKSAssembler.java:154-173 | the nested search with `continue`/`break` settles on the R2 neighbour of the last connected bond that has one. The result is that bond's order and the graph without the first bond joining the two atoms and without the R2 atom; with no R2 neighbour it is `(0, mol)` |
| `Assembler.PKSAssembler.AdjustImplicitHydrogens` | PKStructureGenerator/src/main/java/uk/ac/ebi/cheminformatics/pks/generator/PKSAssembler.java:105-108 | as many unit steps as the absolute value of h, in the direction of h's sign, leave the atom's count moved by exactly h |
| `Molecules.HydrogenDeltaMeaning` | PKStructureGenerator/src/main/java/uk/ac/ebi/cheminformatics/pks/generator/PKSAssembler.java:106-107 | moving the count by d changes only the connection atom, and only its count, by exactly d with no clamping; bonds and other atoms are untouched |
| `Molecules.ConnectedBondsMembers` | PKStructureGenerator/src/main/java/uk/ac/ebi/cheminformatics/pks/generator/PKSAssembler.java:156 | the bonds searched are exactly the container's bonds that contain the connection atom |
| `Molecules.FirstBondBetween` | PKStructureGenerator/src/main/java/uk/ac/ebi/cheminformatics/pks/generator/PKSAssembler.java:168-169 | `getBond`/`removeBond` act on a bond joining the two atoms, with no earlier bond joining them |
| `Polyketide.Add` | PKStructureGenerator/src/main/java/uk/ac/ebi/cheminformatics/pks/generator/PKSAssembler.java:62 | assumed contract of `PKStructure.add` (see Left out): the fragment is merged into the graph and the monomer's open end becomes the connection atom. The count is 1 on a graph without atoms and grows by one otherwise |
| `Polyketide.TraceAt` | PKStructureGenerator/src/main/java/uk/ac/ebi/cheminformatics/pks/generator/PKSAssembler.java:139-142 | a logged sequence of calls has one call per feature. The i-th call is made for the i-th feature, on what the first i calls produced |
| `Polyketide.TraceFeatures` | PKStructureGenerator/src/main/java/uk/ac/ebi/cheminformatics/pks/generator/PKSAssembler.java:124-127 | the logged calls are made for exactly the buffered features, in order, none skipped or repeated |
| `AssemblySpec.GenericEnd` | PKStructureGenerator/src/main/java/uk/ac/ebi/cheminformatics/pks/generator/PKSAssembler.java:157-163 | the inner loop finds an end of the bond that is not the connection atom and is an R2 pseudo-atom; when it finds none, no such end exists |
| `AssemblySpec.LastGenericNeighbourIsLastMatch` | PKStructureGenerator/src/main/java/uk/ac/ebi/cheminformatics/pks/generator/PKSAssembler.java:156-165 | because `break` leaves only the inner loop, the match kept is that of the last bond having one. Nothing is found only when no bond has a match |
| `AssemblySpec.GenericNeighbourIsBonded` | PKStructureGenerator/src/main/java/uk/ac/ebi/cheminformatics/pks/generator/PKSAssembler.java:167-168 | the R2 atom found is joined to the connection atom by a bond of the graph, so `getBond` at line 168 finds one |
| `AssemblySpec.RemovedEnd` | PKStructureGenerator/src/main/java/uk/ac/ebi/cheminformatics/pks/generator/PKSAssembler.java:97 | whenever the connection bond has a pseudo-atom end, the end chosen for removal is a pseudo-atom |
| `AssemblySpec.SpliceWithoutPlaceholderDropsRealAtom` | PKStructureGenerator/src/main/java/uk/ac/ebi/cheminformatics/pks/generator/PKSAssembler.java:97-99 | a connection bond with no pseudo-atom end has its end 1, a real atom, removed from the fragment |
| `AssemblySpec.SpliceRepoints` | PKStructureGenerator/src/main/java/uk/ac/ebi/cheminformatics/pks/generator/PKSAssembler.java:97-100 | after the splice the dropped end of the connection bond is the chain atom. The other end and the order are unchanged. The fragment's copy of the bond, when it has one, is the re-pointed bond. The monomer loses exactly the dropped atom (one fewer atom when it held it). No other bond changes |
| `AssemblySpec.Checked` | PKStructureGenerator/src/main/java/uk/ac/ebi/cheminformatics/pks/generator/PKSAssembler.java:131-136 | the connectivity check changes only the disconnection log, which grows by one entry exactly when the graph is not connected |
| `AssemblyLemmas.TailoringFeatureIsBuffered` | PKStructureGenerator/src/main/java/uk/ac/ebi/cheminformatics/pks/generator/PKSAssembler.java:46-50 | a tailoring feature is appended to the end of the buffer and nothing else changes |
| `AssemblyLemmas.EmptyMonomerOnlyAdvances` | PKStructureGenerator/src/main/java/uk/ac/ebi/cheminformatics/pks/generator/PKSAssembler.java:53-56 | a KS feature whose monomer has no atoms changes nothing: the buffer is not flushed, no processor runs, and the structure and queue are unchanged |
| `AssemblyLemmas.StarterUnit` | PKStructureGenerator/src/main/java/uk/ac/ebi/cheminformatics/pks/generator/PKSAssembler.java:60-64 | on a chain of count 0 the processed monomer's graph is merged in, the count is 1 and its open end is the connection atom. Nothing is queued, no R2 is removed and no hydrogen moves |
| `AssemblyLemmas.NonElongatingReplacesOnlyMonomer` | PKStructureGenerator/src/main/java/uk/ac/ebi/cheminformatics/pks/generator/PKSAssembler.java:65-75 | with one monomer in the chain, a non-elongating monomer's graph becomes the whole chain graph and the count stays 1. Nothing is queued and no generic connection is touched |
| `AssemblyLemmas.QueueGrowsOnlyOnFusion` | PKStructureGenerator/src/main/java/uk/ac/ebi/cheminformatics/pks/generator/PKSAssembler.java:113-115 | the queue gains one entry exactly when a KS feature with a post-processor is fused onto the chain. The entry is that feature holding its spliced monomer; otherwise the queue is unchanged |
| `AssemblyLemmas.EmptiedMonomerOpensChainEnd` | PKStructureGenerator/src/main/java/uk/ac/ebi/cheminformatics/pks/generator/PKSAssembler.java:90-96 | if the processors left the monomer without atoms, fusion still removes the chain's R2 connection, then adds nothing and moves no hydrogen |
| `AssemblyLemmas.EmptyingProcessorStillOpensChainEnd` | PKStructureGenerator/src/main/java/uk/ac/ebi/cheminformatics/pks/generator/PKSAssembler.java:58-115 | a buffered processor that empties the fragment but keeps the connection bond does not stop the fusion: with one elongating monomer in the chain, the R2 connection is removed, nothing is added, and a feature with a post-processor is still queued |
| `AssemblyLemmas.FusionBalancesHydrogens` | PKStructureGenerator/src/main/java/uk/ac/ebi/cheminformatics/pks/generator/PKSAssembler.java:85-108 | after a fusion of a monomer with atoms, the old connection atom's count has moved by (removed bond's order − monomer's connection-bond order) when that atom is in the chain graph and not also in the fragment. The monomer's open end is the new connection atom, the count grows by one on a chain graph that still has atoms, and the spliced bond ends on the old connection atom |
| `AssemblyLemmas.NoGenericNeighbourKeepsGraph` | PKStructureGenerator/src/main/java/uk/ac/ebi/cheminformatics/pks/generator/PKSAssembler.java:166-172 | with no R2 atom bonded to the connection atom the order is 0 and the graph is unchanged |
| `AssemblyLemmas.GenericNeighbourRemovesOneBondAndOneAtom` | PKStructureGenerator/src/main/java/uk/ac/ebi/cheminformatics/pks/generator/PKSAssembler.java:167-171 | otherwise exactly one bond joining the connection atom to an R2 pseudo-atom, and that atom, are removed; the order returned is that bond's. The other bonds keep their order |
| `AssemblyLemmas.OpeningKeepsOtherAtoms` | PKStructureGenerator/src/main/java/uk/ac/ebi/cheminformatics/pks/generator/PKSAssembler.java:146-148 | opening the chain end changes no atom it keeps and always keeps the connection atom, so its hydrogen count is unchanged |
| `AssemblyLemmas.LastGenericNeighbourWins` | PKStructureGenerator/src/main/java/uk/ac/ebi/cheminformatics/pks/generator/PKSAssembler.java:156-165 | with two R2 neighbours, the one on the later bond (and that bond) is removed and the earlier one stays |
| `AssemblyLemmas.HydrogenCountCanGoNegative` | PKStructureGenerator/src/main/java/uk/ac/ebi/cheminformatics/pks/generator/PKSAssembler.java:90-108 | fusing onto a chain carbon with no implicit hydrogens, whose R2 hangs on a single bond, a monomer whose connection bond is double leaves that carbon with −1: nothing clamps the count |
| `AssemblyLemmas.StepKeepsEveryTailoringFeature` | PKStructureGenerator/src/main/java/uk/ac/ebi/cheminformatics/pks/generator/PKSAssembler.java:47-58 | one call appends a tailoring feature to the sequence "features processed so far, then features still buffered" and leaves that sequence unchanged otherwise |
| `AssemblyLemmas.RunKeepsEveryTailoringFeature` | PKStructureGenerator/src/main/java/uk/ac/ebi/cheminformatics/pks/generator/PKSAssembler.java:46-129 | over any run, no tailoring feature is lost, repeated or reordered: those processed plus those still buffered are the earlier ones followed by the run's tailoring features in order |
| `AssemblyLemmas.RunQueueHoldsPostProcessors` | PKStructureGenerator/src/main/java/uk/ac/ebi/cheminformatics/pks/generator/PKSAssembler.java:112-115 | over any run the queue only grows at its end. Every entry it gains is a KS feature with a post-processor, and no post-processor runs before `postProcess` |
| `AssemblyLemmas.AsWrittenRunOnlyBuffers` | PKStructureGenerator/src/main/java/uk/ac/ebi/cheminformatics/pks/generator/PKSAssembler.java:47-50 | with the line-47 test as written, any run only appends every feature, KS domains included, to the buffer |
| `AssemblyLemmas.LiteralGuardNeverStartsChain` | PKStructureGenerator/src/main/java/uk/ac/ebi/cheminformatics/pks/generator/PKSAssembler.java:47-64 | on a new assembler, a KS feature with a non-empty monomer starts the chain (count 1) as intended, but leaves it with count 0 as written |

## Left out

- `PKStructure` internals (`add`, `removeLastMonomer`, how the connection atom and the count are kept) are not part of this model. `add` gets the assumed contract stated in `Polyketide.Add`; `removeLastMonomer` is an arbitrary function of the structure.
- Polyketide.Add: the count rule (1 when the chain graph has no atoms, one more otherwise) is assumed, not taken from `PKStructure`. It also applies on the fusion path: fusing onto a chain whose graph has no atoms (after `removeLastMonomer`, or after a starter the processors emptied) gives count 1 whatever the count was, which is why `FusionBalancesHydrogens` promises the count plus one only when the opened chain graph still has atoms.
- What processors and post-processors do chemically, and how `MonomerProcessorFactory` picks a processor, is foreign code. Each is an arbitrary total function of the feature and its inputs, and only the order and inputs of their calls are logged.
- Failures of that foreign code are not modelled. In the source, a factory that finds no processor (line 125), or a processor or post-processor that throws, ends `addMonomer` or `postProcess` midway: the earlier calls' changes stay and the buffer is not cleared (line 128). The model's calls always return.
- `ConnectivityChecker.isConnected` is an arbitrary predicate of the graph, and the log4j message becomes an entry in a ghost disconnection log.
- Object identity and aliasing: processors and the splice mutate the feature's `PKMonomer` in place, and `add` keeps its atoms. The model passes monomer values and queues the feature holding the monomer as fusion left it. The connection bond is held beside the fragment, with the position of its shared copy in the fragment's bond list. An atom is its identifier, and a fragment's identifiers are merged right-biased into the chain's arena.
- Atom attributes (pseudo-atom flag, label, hydrogen count) are read from the container holding the atom, not from the atom object. Two consequences:
  - the hydrogen loop on a connection atom that is not in the chain graph (for example after `removeLastMonomer`) leaves the graph unchanged and reads its count as 0;
  - a connection bond whose pseudo-atom end is no longer in the fragment (CDK 1.x `removeAtom` leaves such bonds) has that end read as a real atom, so `RemovedEnd` picks end 1 where the source, testing the atom object at line 97, would pick end 0.
- `Assembler.PKSAssembler.AdjustImplicitHydrogens`: does not model 32-bit `int` overflow, because the counts and bond ordinals involved are small; Java `Math.abs(Integer.MIN_VALUE)` is not reproduced.
- `removeAtom(IAtom)` is taken with its CDK 1.x meaning (the atom goes, its bonds stay), which the splice at lines 99-100 relies on; `getBond`/`removeBond` act on the first bond in container order joining the two atoms.
- A missing connection bond (a null pointer at line 91) is a precondition of `AddMonomer` (`KSStepDefined`), not modelled behaviour.
- Java reflection is not modelled: the line-47 test is the constant predicate `ClassLiteralIsInstanceOfFeatureClass` with the reasoning in its comment.
- The model follows the code where a reader might expect otherwise: bond orders are `Order.ordinal()` (a single bond is 0), not multiplicities; implicit hydrogen counts are not clamped at 0.
- An unset implicit hydrogen count (line 106) or a null bond order (lines 91, 168) throws in the source; the model's counts and orders are always set.

## Findings

| source | as written | input that shows it | evidently intended | confidence | as-written member | corrected member |
|---|---|---|---|---|---|---|
| PKStructureGenerator/src/main/java/uk/ac/ebi/cheminformatics/pks/generator/PKSAssembler.java:47 | `sequenceFeature.getClass().isInstance(KSDomainSeqFeature.class)` asks whether a `java.lang.Class` object is an instance of the feature's class, which is never true, so every feature is buffered and the chain is never built | a new assembler given a KS domain feature whose monomer has atoms: its structure keeps monomer count 0 | `sequenceFeature instanceof KSDomainSeqFeature`: only tailoring features are buffered | high; not executed | `AssemblyLemmas.AsWrittenRunOnlyBuffers` | `Assembler.PKSAssembler.AddMonomer` |
