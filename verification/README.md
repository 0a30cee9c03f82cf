# Verified model of the upgrade guard's decision core

TensorRT Upgrade Guard qualifies a new runtime against an old one. This project models the parts of it that decide
something and that later decisions rest on, and proves what they are relied on for:

- **The resume engine** (`Gates`, `GateProperties`, `Graphs`, `MemoizedSearch`, `StateTree`, `Markers`, `InventoryWalk`,
  `MerkleChain`, `Authority`, `Relocation`, `Reconcile`, `Frames`, `ReconcileProperties`, `StateEngine`,
  `RecordProperties`, `SecondPass`, `MarkerMeaning`, `MarkerCompleteness`, `RepositoryTables`, `StrandedState`). A run is
  a graph of steps. The state root is a map from paths to entries; a recorded marker binds the files of its own step, the
  markers of its direct dependencies, the matrix lock and the corpora. The hash, the JSON codec, the reader of disposition
  files and the corpus reader are parameters; only where a lemma says so is the hash taken to be free of collisions, and
  then only between the files of the two states compared.
- **The public validator** (`Corpora`, `CorporaMeaning`, `Publication`, `PublicationMeaning`, `PublicationProperties`,
  `RefusedInventory`), a second implementation of the same chain.
- **The reducers** (`Reduction`, `SequenceReducer`, `EnvironmentHistory`). The predicate is an oracle that may answer each
  trial differently; determinism is a hypothesis of the minimality results only. A ghost log keeps every trial.
- **The statistical and memory gates** (`OrderStatistics`, `Performance`, `WeightedGate`, `WeightedGateProperties`,
  `GateMeaning`, `MemoryGate`) and **the collection of paired blocks** that feeds them (`PairedBlocks`, `BenchmarkRun`).
  Arithmetic is over reals; the generator's draws are an arbitrary function of what a generator can depend on; sorting,
  percentiles and means are defined and proved, and only exponential and logarithm are abstract.
- **Image references and content-verified resolution** (`Text`, `Json`, `ImageReference`, `ReferenceGrammar`,
  `Resolution`, `ResolutionMeaning`, `ResolutionExample`), against an arbitrary registry.
- **The corpus store** (`CorpusStore`, `CorpusStoreProperties`, `CorpusPublisher`): any number of publishers, one lock,
  steps interleaved in any order, and a crash possible before every step.

The modules whose names end in `Meaning`, with `MarkerCompleteness` and `ReferenceGrammar`, say what the specification
functions of the others compute in terms of files, hashes, parsers, readings and draws alone, most of them as an exact
condition.

Run `dafny verify dfyconfig.toml` to check everything.

## What the proofs found

- **Reconciliation is not always a fixed point.** It keeps the set of valid steps, and a second pass is quiet (it neither
  moves nor raises anything, given that the first raised nothing), if and only if no public-failure step is *stranded*:
  valid while a step that feeds it is not, namely the matrix lock, the corpora, or the owner of the domain result its
  disposition names. The disposition validator opens that result and the matrix lock wherever the dependencies lead
  (`src/upgrade_guard/reduce/public_failure.py:449-463`), while the dependencies follow the markers
  (`scripts/qualification_state.py:963-982`). For dispositions that name the result of their own source step, as the
  program writes them (`src/upgrade_guard/reduce/public_failure.py:371-372`), a valid public failure is stranded exactly
  when that source step is not the one marked as failed (`SecondPass.StrandedMeansUnmarked`). It is lost together with
  every step that depends on it (`ReconcileProperties.LostWithStranded`).
- **A second reconciliation can raise where the first did not**: exactly in the *orphaned* states, in which the moves took
  the result the disposition names and a missing matrix lock, a caught error, is not met first
  (`SecondPass.SecondPassRaises`, `SecondPass.OrphanedMeansUnmarked`). `StrandedState.ReconcilingTwiceRaises` exhibits
  such a state on the repository's own ownership table: public-failure was recorded, core-qualification, the step it was
  made from, was not.
- **Verification has three outcomes.** An exception that `verify_marker` does not catch (several failed markers, or an
  infrastructure error from the disposition validator) leaves it, and `reconcile` with it, before anything is moved. The
  memo equals the recursive definition for all three.
- **The two binding searches differ on the terminal steps.** They agree on a step if and only if it is neither
  final-evidence nor terminal-cleanup. Neither of these is ever published, so the two implementations agree on every
  published step.
- **The validator refuses some chains the recorder accepts**, exactly those with a recorded path that holds a backslash, a
  NUL or a dot component; on all others it rebuilds the recorded markers. `RefusedInventory.BackslashRefused` exhibits one
  such inventory.
- **The sequence reducer makes at most 1 + 3n(n+1)/2 confirmation calls** for n items, below 1 + n(3n+1) for n >= 1.
- **Final-evidence depends on public-failure only through the state**, not in the static graph; the static order still
  puts it later, which is why the validity lookup of `reconcile` never misses.

## Model

| member | source | states |
|---|---|---|
| Graphs.DependsOn | scripts/qualification_state.py:1018-1028 | the worklist search ends on every finite graph and is true exactly when the target is reached by one or more edges |
| Graphs.IsBoundTo | src/upgrade_guard/gates.py:263-276 | the same for the validator's search, whose lookup may raise: it raises exactly when the start has no dependencies to look up |
| Graphs.TopologicalOrder | scripts/qualification_state.py:1031-1044 | no order exactly when there is a cycle; otherwise every node once, dependencies first, layer by layer, names ascending inside a layer |
| GateProperties.StaticGraphIsAcyclic | src/upgrade_guard/gates.py:147-228 | the dependency table of each mode has no cycle |
| GateProperties.ModeClosed | scripts/qualification_state.py:963-982 | the dependencies of a mode's step stay inside the mode |
| GateProperties.TopologicalSteps | scripts/qualification_state.py:1031-1044 | every mode has an order: exactly its steps, dependencies first |
| GateProperties.PublicFailureBeforeFinalEvidence | scripts/qualification_state.py:963-982 | any order of the static graph puts public-failure before final-evidence, though no static edge joins them |
| GateProperties.ResolvedDependenciesComeEarlier | scripts/qualification_state.py:314-328 | whatever step the state says failed, each state-dependent dependency stands earlier in the static order |
| GateProperties.StaticMatrixBinding | scripts/qualification_state.py:1010-1011 | in every mode the steps that reach the matrix lock are exactly the listed ones |
| GateProperties.StaticCorpusBinding | scripts/qualification_state.py:1014-1015 | in every mode the steps that reach the corpora are exactly the listed ones |
| GateProperties.PublishedBindings | src/upgrade_guard/gates.py:263-276 | the validator's bindings, whichever domain step failed: the same lists without the terminal steps |
| GateProperties.BindingsAgree | scripts/qualification_state.py:1010-1028 | recorder and validator agree on both bindings of a step if and only if it is not a terminal step |
| GateProperties.StepIsBoundTo | src/upgrade_guard/gates.py:263-276 | the search on the published tables decides reachability and raises exactly for a public failure without a named domain step |
| GateProperties.PublishedMembers | src/upgrade_guard/gates.py:233-247 | which steps a passed publication and a failed one retain |
| GateProperties.PublicationNames | src/upgrade_guard/gates.py:239-246 | a passed publication names no failed step, a failed one exactly one of the three domain steps |
| GateProperties.PublishedOrder | src/upgrade_guard/gates.py:238-247 | the retained steps stand in the order of the full mode |
| GateProperties.PublishedPrefixClosed | src/upgrade_guard/gates.py:250-260 | a published prefix contains every direct dependency its markers must name |
| MemoizedSearch.Memo.Search | scripts/qualification_state.py:197-247 | the memoized search that seeds False returns the recursive verdict on any acyclic graph and leaves only settled entries, old ones unchanged |
| MemoizedSearch.Memo.SearchAll | scripts/generate_remote_evidence.py:151-166 | one memo shared by many roots: all valid exactly when each root's recursive verdict is valid, and otherwise the first bad root decides |
| MemoizedSearch.ValidMeans | scripts/qualification_state.py:219-247 | a valid verdict means: admitted, dependencies resolved, all of them valid, and the node's own check valid |
| Markers.VerifiesMeans | scripts/qualification_state.py:197-247 | a marker verifies exactly when its step is in the mode, its dependencies verify and its own marker equals the recomputed payload |
| MarkerMeaning.MarkerMeans | scripts/qualification_state.py:250-298 | a verified marker describes the state field by field: run identity, exactly the regular files at recorded places with size and hash, the markers of its resolved dependencies, and for bound steps the matrix lock, the corpora and the specification lineage, each told of the files themselves |
| MarkerMeaning.SpecificationIsBound | scripts/qualification_state.py:645-700 | equal bytes of a matrix-bound marker verified in two runs and states bind one specification: found at the same resolved path with the same content and the same locked copy, unless contents collide |
| MarkerMeaning.EditedSpecificationIsNoticed | scripts/qualification_state.py:645-700 | once the authored specification hashes differently or is gone, no matrix-bound step verifies any more |
| MarkerMeaning.PublicFailureDependsOn | scripts/qualification_state.py:963-970 | public-failure depends on the one domain step whose marker says failed, on nothing without one, and cannot be resolved with several |
| MarkerMeaning.FinalEvidenceDependsOn | scripts/qualification_state.py:971-982 | final-evidence depends on every gate, or on the gates up to the failed one and public-failure, and cannot be resolved with several failed |
| MarkerCompleteness.InventorySucceeds | scripts/qualification_state.py:376-443 | an inventory can be taken exactly when every owned path is there as its kind asks, below no link, directories not empty, and some closed log is there |
| MarkerCompleteness.PublicFailureAccepted | src/upgrade_guard/reduce/public_failure.py:387-464 | the disposition validator accepts exactly when every failure stands, reduced ones against the matrix lock of the state, and the named domain result is the recorded file, failed, with the same failures |
| MarkerCompleteness.PublicFailureEscapes | src/upgrade_guard/reduce/public_failure.py:424-463 | it raises what the engine does not catch exactly when the first failure in question does so, or all stand and the named result is absent, another file, or does not say failed, or its comparison does so |
| MarkerCompleteness.DomainOutcome | scripts/qualification_state.py:482-568 | a domain step is recorded as passed exactly when its result says so, and as failed exactly when its result says failed and its contract holds |
| MarkerCompleteness.OrdinaryOutcome | scripts/qualification_state.py:487-498 | of the other steps only final-evidence can be recorded as failed |
| MarkerCompleteness.VerifiesExactly | scripts/qualification_state.py:197-298 | a step verifies if and only if it is in the mode and complete, its dependencies verify, and its marker describes state and outcome |
| MarkerCompleteness.PayloadBuilds | scripts/qualification_state.py:250-298 | a payload can be built if and only if the step is in the mode and complete, its outcome assessed, its dependencies have marker files, and the files it is bound to can be read |
| MarkerCompleteness.CheckRaises | scripts/qualification_state.py:219-247 | the check of a marker raises exactly when there is a marker to check and the outcome of a complete step escapes |
| InventoryWalk.WalkDirectory | scripts/qualification_state.py:411-426 | the walk of a directory adds exactly its regular files and refuses links, special files, repeated paths and empty directories |
| InventoryWalk.InventoryOwned | scripts/qualification_state.py:376-390 | the filled entries are the specified inventory, the error cases included |
| InventoryWalk.FindFailedStep | scripts/qualification_state.py:985-996 | the scan returns the one failed candidate, none, or raises when several markers say failed |
| MerkleChain.InventoryMeans | scripts/qualification_state.py:376-443 | an inventory lists a path exactly when it is a regular file at a recorded place, with that file's size and hash |
| MerkleChain.SameMarkerSameEdges | scripts/qualification_state.py:250-298 | equal marker bytes, verified in two states whose files do not collide, force equal files, equal resolved dependencies and equal dependency markers |
| MerkleChain.MarkerBindsCone | scripts/qualification_state.py:197-298 | the chain is a Merkle DAG: equal bytes of one verified marker force the same cone and the same marker, files and logs of every step in it |
| Authority.ValidateOwnership | scripts/qualification_state.py:1138-1155 | the ownership loop accepts a table exactly when all claims are safe and no two of them, of any steps, overlap |
| Authority.SafeClaimMeans | scripts/qualification_state.py:1141-1147 | a claim is safe exactly when it has components, none of them empty or a dot path, and does not start in one of the engine's own directories |
| RepositoryTables.RepositoryAccepted | src/upgrade_guard/gates.py:99-143 | the repository's own table passes that loop, its step names are distinct, and the bound files and the domain results belong to the steps they are read for |
| Relocation.KeptEntry | scripts/qualification_state.py:338-364 | what lies outside the moved sources and the stale directory is left as it was |
| Relocation.GoneEntry | scripts/qualification_state.py:338-364 | nothing stays at or below a moved source |
| Relocation.LandedEntry | scripts/qualification_state.py:338-364 | each entry below a moved source lands with its content at the matching place of its target |
| Relocation.MoveAllKeepsRooted | scripts/qualification_state.py:338-364 | after all moves every entry still has directories for parents |
| Reconcile.ShiftsApart | scripts/qualification_state.py:1047-1055 | sources and targets of any two moves do not overlap, from the disjointness of claims |
| Reconcile.ShiftsOrderly | scripts/qualification_state.py:338-364 | the moves of any list of distinct steps satisfy what the relocation lemmas ask |
| Frames.SameCheck | scripts/qualification_state.py:250-298 | the check of a marker reads only paths claimed in its cone, the markers of its dependencies and the bound files; that of public-failure also the matrix lock and the domain result its disposition names |
| ReconcileProperties.MovesClear | scripts/qualification_state.py:336-364 | the moves take exactly what lies at or below the claims and markers of the invalid steps; every other entry stays as it was |
| ReconcileProperties.BindingVerifies | scripts/qualification_state.py:263-280 | a valid bound step has a valid matrix lock or valid corpora behind it, except a public failure without dependencies |
| ReconcileProperties.ValidStaysValid | scripts/qualification_state.py:301-373 | a step valid before is valid after, unless a stranded public failure lies in its cone |
| ReconcileProperties.LostWithStranded | scripts/qualification_state.py:301-373 | every valid step with a stranded public failure in its cone is lost with it |
| ReconcileProperties.VerdictsAfter | scripts/qualification_state.py:301-373 | a step of the mode is valid after the moves if and only if it was valid before and no stranded public failure lies in its cone |
| ReconcileProperties.ValidSetKept | scripts/qualification_state.py:301-373 | the valid set is the same before and after if and only if no public failure is stranded |
| ReconcileProperties.MarkersLeft | scripts/qualification_state.py:350-364 | the mode's markers left in place are exactly those of the steps that were valid |
| ReconcileProperties.NothingLeftToMove | scripts/qualification_state.py:301-373 | a second pass finds nothing to move if and only if no public failure was stranded |
| SecondPass.SecondPassRaises | scripts/qualification_state.py:314-328 | after a first pass without exceptions some verification of the second raises if and only if the state was orphaned |
| SecondPass.SecondPassIsQuiet | scripts/qualification_state.py:301-373 | after such a first pass the second neither raises nor moves anything if and only if no public failure was stranded |
| SecondPass.StrandedMeansUnmarked | src/upgrade_guard/reduce/public_failure.py:455-463 | with a disposition that names the result of its source step, a valid public failure is stranded if and only if that step is not its one dependency, the step marked as failed |
| SecondPass.OrphanedMeansUnmarked | src/upgrade_guard/reduce/public_failure.py:449-463 | and orphaned if and only if, moreover, the matrix lock is valid or no reduced failure is compared with it |
| ReconcileProperties.EveryPathLands | scripts/qualification_state.py:336-364 | every path of an invalid step lands intact where nothing was and where no other moved path lands |
| StateEngine.UniqueStaleRoot | scripts/qualification_state.py:1076-1083 | the first unused name, with nothing at or below it; none exactly when every candidate is taken |
| StateEngine.StateRoot.VerifyMarker | scripts/qualification_state.py:197-247 | the verdict is the recursive one |
| StateEngine.StateRoot.RecordMarker | scripts/qualification_state.py:159-194 | a marker is written exactly when the step is in the mode, its dependencies resolve and verify, its payload can be built and its place can be written; every error with its own cause; an error changes nothing |
| StateEngine.WriteMeans | scripts/qualification_state.py:1111-1127 | writing a marker leaves its file, a directory for it, and everything else as it was |
| StateEngine.StateRoot.Classify | scripts/qualification_state.py:314-329 | the two lists are exactly the valid and invalid steps of the mode, both in one dependency order, although dependents of invalid steps are never searched; it raises exactly when some verification would |
| StateEngine.StateRoot.MoveAside | scripts/qualification_state.py:338-364 | one step's existing paths are moved, or in a dry run only listed |
| StateEngine.StateRoot.Reconcile | scripts/qualification_state.py:301-373 | each result has its exact condition on the old state: an exception out of a verification, no unused name, a `stale` that is no directory although something must be moved, and otherwise success; the report and the new state are exactly the existing paths of the invalid steps moved below a fresh directory; errors and dry runs change nothing |
| StrandedState.StrandedHappens | src/upgrade_guard/reduce/public_failure.py:387-464 | on the repository's table, an injective hash and a state with a verified public failure made from core-qualification, which has no marker: no verification raises, and it is stranded and orphaned |
| StrandedState.ReconcilingTwiceRaises | scripts/qualification_state.py:301-373 | whatever fresh directory the first reconciliation of that state moves to, a verification of the second raises |
| RecordProperties.LowerStepsUndisturbed | scripts/qualification_state.py:159-194 | writing a marker changes no verdict and no cone of a step of lower rank |
| RecordProperties.RecordedSpecificationIsUsed | scripts/qualification_state.py:664-700 | the specification found through a newly recorded matrix-lock marker is the one the recording used |
| RecordProperties.RecordedVerifies | scripts/qualification_state.py:159-194 | a marker just recorded verifies with its whole chain, the matrix lock included: the specification it names is the one used |
| Corpora.IdentitiesAgree | src/upgrade_guard/publication.py:516-565 | the validator reads the same corpus identities out of an index the recorder accepts |
| CorporaMeaning.RecordedMeans | scripts/qualification_state.py:703-817 | the recorder binds identities if and only if the index has its fields, schema, reference and exactly the kinds of the mode, and each entry its six nonempty texts, safe paths, the lock below the root, digests, the index's reference, and contents that hash as recorded when they are read again |
| CorporaMeaning.RetainedMeans | src/upgrade_guard/publication.py:516-565 | the validator reads identities if and only if index and entries say them |
| CorporaMeaning.SafeMeans | src/upgrade_guard/publication.py:555-556 | a safe path does not start at the root, has a piece that counts, and no piece that goes up |
| InventoryWalk.RetainedStepInventory | src/upgrade_guard/publication.py:423-492 | the validator's filled entries are its specified inventory |
| InventoryWalk.RetainedCorpusIdentities | src/upgrade_guard/publication.py:541-565 | the appended identities, or the error of the first bad entry, are as specified |
| Publication.InventoryAgrees | src/upgrade_guard/publication.py:423-492 | on a recorded inventory the validator computes the same one, or refuses exactly when a recorded path is not plain |
| RefusedInventory.BackslashRefused | src/upgrade_guard/publication.py:423-492 | whatever hash and readers a run has: a state whose inventory the recorder accepts and the validator refuses |
| Publication.ValidateMarkerChain | src/upgrade_guard/publication.py:374-420 | the walk accepts exactly when corpora and lineage are readable and every published marker equals the rebuilt one |
| PublicationMeaning.ChainAcceptedMeans | src/upgrade_guard/publication.py:374-565 | a chain is accepted if and only if source and device are named, the published index says some identities, the published matrix-lock marker names a lineage that stands, and each step is delivered and its marker says of it what the files and the decision say |
| PublicationMeaning.RetainedLineageMeans | src/upgrade_guard/publication.py:495-513 | the lineage read is that of the published matrix-lock marker, and it stands: an absolute path, a digest for the source, and for the locked copy the hash of the published file |
| PublicationMeaning.RetainedInventoryMeans | src/upgrade_guard/publication.py:423-492 | the validator takes an inventory exactly of a step all of whose paths are published, and it lists exactly the regular files at recorded places with size and hash |
| PublicationMeaning.MarkerAcceptedMeans | src/upgrade_guard/publication.py:384-420 | one published marker is accepted if and only if its step is delivered and the marker describes it field by field |
| Publication.CompareMarker | src/upgrade_guard/publication.py:384-420 | one marker is accepted exactly when its bytes decode to the rebuilt marker |
| PublicationProperties.SameDirectDependencies | src/upgrade_guard/gates.py:250-260 | the dependencies the validator derives from the decision are those the state resolves |
| PublicationProperties.RebuildAgrees | src/upgrade_guard/publication.py:384-420 | the rebuilt marker of each published step is the recorded payload, for any passed or failed chain |
| PublicationProperties.RecorderAndValidatorAgree | src/upgrade_guard/publication.py:374-420 | a chain whose steps all verify is accepted if and only if every recorded path is plain |
| Reduction.MakeLimits | src/upgrade_guard/reduce/general.py:28-42 | limits are made exactly when one confirmation fits into them and takes at least two trials |
| Reduction.ConfirmedEvaluator.constructor | src/upgrade_guard/reduce/general.py:66-78 | a fresh evaluator has run nothing |
| Reduction.ConfirmedEvaluator.TryOnce | src/upgrade_guard/reduce/general.py:83-91 | one trial right after a reading of the clock inside the limit; none exactly when the trials are used up or the reading is late, and then the budget is spent |
| Reduction.ConfirmedEvaluator.Confirms | src/upgrade_guard/reduce/general.py:80-97 | true only after the full count of reproduced trials of this candidate in a row; false only after a logged other outcome or a spent budget; every logged trial was started at a reading inside the limit, one reading for each, and a late reading spends the budget |
| SequenceReducer.WithoutIsSubsequence | src/upgrade_guard/reduce/general.py:121-122 | leaving out a chunk keeps the order of the rest |
| SequenceReducer.WithoutMeans | src/upgrade_guard/reduce/general.py:122 | what is left without a chunk, element by element |
| SequenceReducer.ChunkSizeMeans | src/upgrade_guard/reduce/general.py:118 | the chunk size is the smallest at which the granularity covers the sequence |
| SequenceReducer.ChunkCount | src/upgrade_guard/reduce/general.py:118-120 | a pass tries at most as many chunks as the granularity and the length allow |
| SequenceReducer.ShorterCostsLess | src/upgrade_guard/reduce/general.py:125-129 | a pass that shortens the sequence pays for its calls out of the quadratic budget |
| SequenceReducer.FinerCostsLess | src/upgrade_guard/reduce/general.py:134-136 | so does a pass that only refines the granularity |
| SequenceReducer.TriangleFormula | src/upgrade_guard/reduce/general.py:115-136 | the bound in closed form: three halves of n(n+1) |
| SequenceReducer.TriangleBelowQuadratic | src/upgrade_guard/reduce/general.py:115-136 | the bound is at most n(3n+1) |
| SequenceReducer.TryChunks | src/upgrade_guard/reduce/general.py:117-132 | one pass: the first chunk that was confirmed is left out and the log rejects all before it, or the budget is spent, or the log rejects every chunk |
| SequenceReducer.ReduceSequence | src/upgrade_guard/reduce/general.py:100-145 | a confirmed subsequence of at least the minimum; the passes follow the schedule of chunks and granularities, each step shown by the log, and end only when no single element could be left out; one-minimal in a deterministic world within the budget; call, trial and time bounds; when it refuses |
| SequenceReducer.OneMinimalIsMinimal | src/upgrade_guard/reduce/general.py:100-145 | if supersequences of failures fail, no proper subsequence of the result reproduces |
| EnvironmentHistory.AdjacentOrNever | src/upgrade_guard/reduce/general.py:252-261 | a passing environment precedes a failing one exactly when some adjacent pair does |
| EnvironmentHistory.FirstBoundary | src/upgrade_guard/reduce/general.py:252-261 | the scan finds the first adjacent change, and none exactly when no passing state precedes a failing one |
| EnvironmentHistory.ReduceEnvironmentHistory | src/upgrade_guard/reduce/general.py:234-261 | the errors and their causes; every trial started inside the time limit; in any world the states judged are those the log shows (failing: confirmed and never seen to pass; passing: seen to pass), a result is their first boundary, and "no boundary" comes exactly when no passing state precedes a failing one; in a deterministic world they are the true states |
| OrderStatistics.SortSorts | src/upgrade_guard/compare/performance.py:168 | the order statistics: ascending and the same samples |
| OrderStatistics.SortDominated | src/upgrade_guard/compare/performance.py:168 | order statistics respect pointwise order |
| OrderStatistics.PercentileRank | src/upgrade_guard/compare/performance.py:168 | a percentile by rank: how many samples can lie below it and above it |
| OrderStatistics.PercentileWithin | src/upgrade_guard/compare/performance.py:168 | an interpolated percentile lies between two samples |
| OrderStatistics.PercentileAscends | src/upgrade_guard/compare/performance.py:168 | a larger percentage never gives a smaller value |
| OrderStatistics.PercentileDominated | src/upgrade_guard/compare/performance.py:168 | raising samples never lowers a percentile |
| OrderStatistics.PercentileInterpolates | src/upgrade_guard/compare/performance.py:168 | the sorted samples stand at equal steps from 0% to 100%, and between two of them a percentile goes straight from one to the other |
| OrderStatistics.MeanIsMean | src/upgrade_guard/compare/performance.py:80 | the mean is the one number that, taken as often as there are values, is their sum |
| OrderStatistics.SumAdds | src/upgrade_guard/compare/performance.py:80 | the sum of one value is that value, and of two parts the sum of their sums |
| OrderStatistics.MeanPermuted | src/upgrade_guard/compare/performance.py:80 | reordering values leaves their mean as it is |
| Performance.PairedVerdictMonotone | src/upgrade_guard/compare/performance.py:54-81 | with the same seed, replicates and number of pairs, lowering ratios never worsens a shape's verdict |
| Performance.EstimateDecides | src/upgrade_guard/compare/performance.py:159-185 | the intervals are nested, the verdict follows the one-sided bounds, and fewer than 5% (2.5%) of the replicates, up to one, lie beyond each bound |
| Performance.PairedSound | src/upgrade_guard/compare/performance.py:54-81 | all ratios within the allowance: passed, with the point estimate within it, for every seed |
| Performance.PairedComplete | src/upgrade_guard/compare/performance.py:54-81 | all ratios beyond the allowance: regression, with the point estimate beyond it, for every seed |
| GateMeaning.PairedGateMeans | src/upgrade_guard/compare/performance.py:54-81 | a measured shape: the point is the exponential of the mean log of candidate over baseline, every replicate that of the mean of a full resample at the drawn places, bounds and verdict are percentiles of the replicates |
| GateMeaning.PairedGateErrors | src/upgrade_guard/compare/performance.py:64-76 | each error of a shape exactly for its cause, and what a short shape reports |
| GateMeaning.PointIgnoresOrder | src/upgrade_guard/compare/performance.py:54-81 | reordering the pairs of a shape leaves its point as it is |
| WeightedGate.AddScaled | src/upgrade_guard/compare/performance.py:128 | the in-place sum changes each replicate by its weighted mean |
| WeightedGate.AggregateGate | src/upgrade_guard/compare/performance.py:122-136 | the accumulating loop computes the specified aggregate |
| GateMeaning.AggregateMeans | src/upgrade_guard/compare/performance.py:122-136 | the aggregate point is the exponential of the weighted sum of the shapes' mean log ratios, each replicate that of the weighted sum of one replicate of every shape drawn in turn from one seed, and the pairs are counted over all shapes |
| GateMeaning.AcceptedWeights | src/upgrade_guard/compare/performance.py:97-99 | weights are accepted exactly when each is positive and they add up to one, give or take a billionth |
| WeightedGate.Overall | src/upgrade_guard/compare/performance.py:188-196 | the scan returns the worst of the outcomes |
| WeightedGate.WorstUnique | src/upgrade_guard/compare/performance.py:188-196 | there is only one worst outcome |
| WeightedGate.ShapeGates | src/upgrade_guard/compare/performance.py:100-109 | one gate for each shape with its own seed, or the error of the first shape that raises |
| WeightedGate.ShortShapes | src/upgrade_guard/compare/performance.py:110-120 | an infrastructure-invalid shape exists exactly when some shape is short of the minimum |
| WeightedGate.WeightedPerformanceGate | src/upgrade_guard/compare/performance.py:84-139 | every error and its cause; otherwise the shape estimates, the aggregate and the worst outcome |
| WeightedGateProperties.GateSound | src/upgrade_guard/compare/performance.py:84-139 | weights summing to one and all ratios within both allowances: every outcome is passed |
| WeightedGateProperties.GateComplete | src/upgrade_guard/compare/performance.py:84-139 | one shape with all ratios beyond its boundary is a regression and makes the run one |
| WeightedGateProperties.ShortShapeInvalidates | src/upgrade_guard/compare/performance.py:110-120 | a shape short of the minimum makes aggregate and run infrastructure-invalid |
| WeightedGateProperties.OverallMonotone | src/upgrade_guard/compare/performance.py:84-139 | lowering any ratios of any shapes never worsens the overall outcome |
| MemoryGate.RoundIsNearest | src/upgrade_guard/compare/memory.py:37-38 | rounding is to the nearest integer, ties to even |
| MemoryGate.NumbersMean | src/upgrade_guard/compare/memory.py:36-49 | every reported number: the baseline nearest to the mean, the allowance the larger of the fixed bytes and what is nearest to the share, the spread of the two baselines furthest apart |
| MemoryGate.GateErrors | src/upgrade_guard/compare/memory.py:33-35 | each error exactly for its cause |
| MemoryGate.VerdictMeans | src/upgrade_guard/compare/memory.py:39-49 | each verdict said of the builds: spread of any two baselines, excess of all or of no candidate |
| MemoryGate.RegressionSeparates | src/upgrade_guard/compare/memory.py:33-50 | a regression means every candidate build is larger than every baseline build |
| MemoryGate.NoLargerPasses | src/upgrade_guard/compare/memory.py:33-50 | with the spread accepted, candidates no larger than the largest baseline pass |
| MemoryGate.RaisingNeverImproves | src/upgrade_guard/compare/memory.py:43-49 | raising candidates never improves the verdict |
| MemoryGate.OrderIrrelevant | src/upgrade_guard/compare/memory.py:33-50 | reordering builds changes neither the verdict nor any number |
| PairedBlocks.BlockVariationReasons | src/upgrade_guard/qualification.py:1961-1990 | no reasons exactly for a steady block, and each reason exactly for its own cause: a missing reading, a reading that strays, a missing limit, a changed limit |
| PairedBlocks.SteadyMeans | src/upgrade_guard/qualification.py:1961-1990 | a block was steady exactly when clock and power were comparable and stayed in the band the allowed ratio spans, and a limit that must be stable did not change |
| PairedBlocks.Bench.AwaitIdle | src/upgrade_guard/qualification.py:651-670 | at most sixty consecutive readings, all but the last refused, shorter only when the last is clean |
| PairedBlocks.Bench.RunBlock | src/upgrade_guard/qualification.py:649-786 | the record holds the next readings of the hardware and the next measurement, none left out; it got as far as they allowed, and is accepted exactly when the device was idle, acceptable before and after, and steady in between |
| PairedBlocks.Bench.RefuseAll | src/upgrade_guard/qualification.py:801-805 | every record of a failed attempt ends refused, the accepted ones with their own reason and the others as they were |
| PairedBlocks.Bench.RunAttempt | src/upgrade_guard/qualification.py:641-807 | the order the coin picked; consecutive readings; two accepted records that make the next pair in (baseline, candidate) order whichever ran first, or only refused records, the last of them refused by its own readings |
| PairedBlocks.Bench.CollectShape | src/upgrade_guard/qualification.py:633-808 | at most three attempts for each pair wanted; fewer pairs than the minimum only when the attempts are spent; the records hold consecutive readings and measurements, none left out |
| PairedBlocks.TwoRecordsPerPair | src/upgrade_guard/qualification.py:791-800 | each pair number belongs to exactly two adjacent records, one of each environment, whose medians are the pair |
| PairedBlocks.OtherRecordsRefused | src/upgrade_guard/qualification.py:801-806 | every other record is unaccepted with a nonempty reason |
| BenchmarkRun.RunPerformance | src/upgrade_guard/qualification.py:605-817 | the gate is judged on collected pairs, the records of all shapes hold consecutive readings, and unless it is infrastructure-invalid every shape has exactly the minimum |
| ImageReference.RenderFormOf | src/upgrade_guard/matrix/digest.py:329-357 | taking a reference apart loses nothing |
| ImageReference.FormOfRender | src/upgrade_guard/matrix/digest.py:329-357 | a written form is taken apart into itself, so no two forms are written alike |
| ImageReference.ParseMeetsGrammar | src/upgrade_guard/matrix/digest.py:322-371 | the parser reads every well-formed reference as what it means and accepts nothing else |
| ReferenceGrammar.ComponentIsChain | src/upgrade_guard/matrix/digest.py:33 | a path component is exactly words of letters and digits with a dot, one or two underscores, or dashes between two of them |
| ReferenceGrammar.RegistryMeans | src/upgrade_guard/matrix/digest.py:32 | a registry is a host, or a host, a colon and one to five digits |
| ReferenceGrammar.MeaningIs | src/upgrade_guard/matrix/digest.py:338-371 | what the parts of a reference mean: the default registry, `library`, the default tag, and what selects |
| ReferenceGrammar.RenderIs | src/upgrade_guard/matrix/digest.py:329-357 | host, path, tag and digest are written in this order, each with its own mark |
| ImageReference.RenderPlain | src/upgrade_guard/matrix/digest.py:325-328 | no accepted reference has white space or a URL scheme |
| ImageReference.CanonicalFixedPoint | src/upgrade_guard/contracts/environment.py:39-43 | registry/repository@digest of an accepted reference reads back as the same registry and repository, that digest, no tag |
| ImageReference.ParseImageReference | src/upgrade_guard/matrix/digest.py:322-371 | the statement sequence with its reassigned name computes that reading |
| Resolution.SelectLinuxAmd64Descriptor | src/upgrade_guard/matrix/digest.py:374-392 | the collecting loop computes the specified selection |
| Resolution.SelectsOnlyMatch | src/upgrade_guard/matrix/digest.py:374-392 | a descriptor is selected exactly when all entries are objects and it is the only linux/amd64 one |
| ResolutionMeaning.HeaderMeans | src/upgrade_guard/matrix/digest.py:463-468 | the header found is the first of its name in any case, and none is found exactly when there is none |
| ResolutionMeaning.ContentTypeMeans | src/upgrade_guard/matrix/digest.py:409-413 | the content type is the text before the first semicolon without the white space around it |
| ResolutionMeaning.ManifestChecked | src/upgrade_guard/matrix/digest.py:395-420 | a response is accepted exactly when a digest announced or asked for is that of its bytes, and these are an object that declares one of the four types, the one sent with it |
| ResolutionMeaning.PlatformFound | src/upgrade_guard/matrix/digest.py:160-188 | a manifest is found exactly when the root is one, or the root is an index whose only linux/amd64 entry names by digest and length the manifest answered |
| ResolutionMeaning.ConfigFound | src/upgrade_guard/matrix/digest.py:190-214 | a configuration is found exactly when the manifest names it by digest, length and type, and the bytes answered are an object for linux/amd64 |
| Resolution.ResolvedIsVerified | src/upgrade_guard/matrix/digest.py:142-222 | every resolved image comes with bytes for manifest and configuration that hash to the reported digests, one naming the other by digest and length, and through an index as its only linux/amd64 entry |
| Resolution.SameDigestSameManifest | src/upgrade_guard/matrix/digest.py:395-420 | two checked responses of one digest, whose bodies do not collide, are one document of one type |
| Resolution.PinnedResolutionIsFixed | src/upgrade_guard/matrix/digest.py:142-222 | references pinned to one digest resolve to the same index, manifest, configuration digest and document, whatever registries answer, unless two of the answers received collide |
| Resolution.CanonicalResolution | src/upgrade_guard/contracts/environment.py:39-43 | resolving the canonical reference of a resolved image gives the same place, manifest and configuration, without an index |
| ResolutionExample.ResolutionHappens | src/upgrade_guard/matrix/digest.py:142-222 | a registry from which a pinned reference resolves through an index and again by its canonical form, no answers colliding |
| CorpusStore.TreeInventory | scripts/corpus_store.py:131-147 | the filled inventory is the specified one; links, special files and a missing sidecar are refused |
| CorpusStore.SoundMeans | scripts/corpus_store.py:120-147 | a tree passes sidecar and inventory exactly when it holds only directories and regular files and the expected document |
| CorpusStore.InventoriesMatch | scripts/corpus_store.py:131-147 | two inventories are equal exactly when the same paths hold regular files of the same size and hash |
| CorpusStore.SameInventorySameContent | scripts/corpus_store.py:163-168 | trees of one inventory that do not collide hold the same files |
| CorpusStore.CrashMeans | scripts/corpus_store.py:160-162 | whoever is not over may crash: the lock is free again and nothing else changed |
| CorpusStore.AcquireMeans | scripts/corpus_store.py:160-162 | the lock is taken exactly when it is free, by one that checked its tree |
| CorpusStore.SealMeans | scripts/corpus_store.py:224-229 | sealing makes one path read-only and raises at a link |
| CorpusStoreProperties.NextAppends | scripts/corpus_store.py:150-174 | no single step removes or changes anything outside the private staging places |
| CorpusStoreProperties.StepHolds | scripts/corpus_store.py:150-174 | every step of every publisher, crash included, keeps the invariant |
| CorpusStoreProperties.RunAppends | scripts/corpus_store.py:150-174 | over any interleaving a destination's content never changes once present |
| CorpusStoreProperties.ReturnedStaysDelivered | scripts/corpus_store.py:163-174 | from its return on, a publisher's destination holds its own staged inventory, read-only if it published |
| CorpusStoreProperties.StagedTreeHasOneHome | scripts/corpus_store.py:169-172 | each staged tree is at all times unchanged in exactly one of staging, its destination or stale |
| CorpusStoreProperties.LockExcludes | scripts/corpus_store.py:161-162 | no two publishers are in the locked section, and a crash returns the lock |
| CorpusStoreProperties.FreeDestinationIsPublished | scripts/corpus_store.py:163-172 | a publisher that saw its destination free can always move its tree there |
| CorpusPublisher.Store.PublishCorpus | scripts/corpus_store.py:150-174 | one undisturbed call is a chain of protocol steps that ends with the lock free: it publishes exactly when the staged tree is sound and the destination free, reuses exactly when a sound tree with the same regular files is there, and raises otherwise; where the tree ends, and that an error moves nothing |
| CorpusPublisher.Store.Compare | scripts/corpus_store.py:163-171 | so is the reuse branch, with the exact condition of its success |
| CorpusPublisher.Store.MakeReadOnly | scripts/corpus_store.py:224-229 | sealing path by path ends with every path and the root of the tree read-only |

## Left out

- Authority.ValidateOwnership: claims of one step are visited in table order rather than sorted; the decision does not depend on it.
- StateTree: symbolic links are entries without a target, so a path reached through a link to a directory, and a link that dangles, are only seen as a link; modes and timestamps are absent.
- Markers.VerifiesMeans: what a disposition's own files say, whether its failures are those of the named result, and the detailed contracts of the domain results are parameters; modelled are the files each check opens, the order it judges them in, and which exceptions it raises.
- Corpora.IdentitiesAgree: re-hashing the corpus on disk and reading its materializer sidecar are one arbitrary condition.
- StateEngine.StateRoot.Reconcile: the timestamped and numbered stale names are a list of candidate names, and a failure of the file system in the middle of a move is not modelled.
- RecordProperties.RecordedVerifies: asks that the disposition does not name the very marker being written, which `SourceResultIsNoMarker` shows of the program's dispositions, and that a resolved specification path resolves to itself.
- PublicationProperties.RecorderAndValidatorAgree: the evidence file around the chain (schemas, artifact references, provenance, failure codes) is not modelled; the decision is taken to repeat what the markers recorded.
- Markers that are JSON objects but not of the marker shape keep only their outcome field.
- `simplify_finite_input`: its region loop can turn zeros into ones, so no minimality holds; the evaluator it runs on is modelled.
- WeightedGate.WeightedPerformanceGate: the sorted order of shape names is a parameter, rounding of floating-point numbers is not modelled, and NaN bounds are an absent value.
- WeightedGateProperties.GateSound: asks for weights that sum to exactly one; the program accepts a deviation of 1e-9.
- MemoryGate.RoundIsNearest: the quotient and the proportion are exact reals before rounding.
- PairedBlocks.Bench.RunBlock: a record is a value that is replaced, not a shared dictionary; a benchmark worker that fails, and the evidence fields copied into a record, are not modelled.
- ImageReference.ParseImageReference: all errors are one; the last test, for an empty repository, cannot fire and is dropped.
- Resolution.PinnedResolutionIsFixed: the token exchange, status codes, URL building and size limits only decide whether a response arrives; header names are lowered as ASCII.
- CorpusStoreProperties.StepHolds: each check and each rename is one step, the lock file and the creation of directories are not modelled, and nobody but publishers writes below the store.
- CorpusStore: building the materializer document and the corpus index.
- Report and bill-of-materials rendering, command line, host and worker probes, profiler and sanitizer validators, exit codes and failure classification: straight-line checks.
- TensorRT plugin code, ONNX generators and corpus materializers: their behaviour lies in libraries.
