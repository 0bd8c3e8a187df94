# Glippy: models and proofs

Glippy is a Go linter.  This project models the parts of it where being right is hardest to see from reading one function,
and proves what they are for.  Every file is one Dafny module; `dafny verify dfyconfig.toml` checks them all.

* **Flow analyses.**  `ControlFlow` has paths and the worklist invariant shared by the searches.  `ManagedResults` decides
  all-paths properties.  `NoReturn` infers which functions never return, `ReturnStates` which results are nil under which
  error, and `ParameterEffects` what a call surely does to a parameter or receiver.  The three are memoised recursions over
  a call graph with cycles, kept as classes with mutable tables.  Their meaning is given by finite executions, indexed by
  depth, and by least fixpoints, indexed by level.  `EffectKinds` and `EffectPrograms` say what running code does to a
  tracked value, `EffectSummaries` and `EffectEquations` what one search concludes, `EffectGuarantees` and
  `EffectBorrows` when its guarantees, and its claims that a value is only borrowed, are so.
  `EffectLayers` is the order in which packages are analyzed, and `NoReturn`, `PublishedStates` and `PublishedEffects` show
  that what one analysis takes from those before it is right of the whole program.
* **Incremental reuse.**  `PackageSession` is the bounded store of typed packages and `SessionProtocol` its concurrent loaders
  and invalidators.  `DependencyReload` is the depth-first rebuild of changed dependencies.  `WorkspaceChanges` keeps file
  notifications for the editor, `WorkspaceEntries` bounds its retained results, `WorkspaceReuse` decides which of them are
  reused, and `WorkspaceFreshness` says when that equals analysing again.  `Bounding` is the greedy walk that both bounds use.
* **Persistent cache.**  `Encoding`, `CacheKey` and `CacheStore` are the byte formats, `CacheProtocol` is publication by several
  processes that may crash anywhere, `Prune` is eviction.
* **Canonical form and accounting.**  `Ordering`, `Sorting`, `Selecting`, `Sets` and `Wrappers` are shared.  `Diagnostics` is the
  total order, `TargetMerge` the merge over build targets, `Baseline` the adoption waivers, `ChangedLines` the ownership of
  changed lines, `SSAWaves` the batching of packages.  `EffectDigest` and `EffectMeet` are the table of effect facts,
  `FactSnapshots` and `FactEncoding` the stored facts of analyzers.

Some claims one would like to make are false of the code, and the models keep the code:

* A function marked as never returning returns if it recovers from its panic (`NoReturn.RecoveredPanicReturns`), and then
  the graphs of its callers lose executions.  `NoReturn.Analysis.RecordedNeverReturn` and `RecordedGraphsKeepExecutions`
  give the exact condition: no marked function, taking the others not to return, panics after deferring a recovering call.
* A guaranteed effect need not be performed: the deciding use may be skipped behind a short-circuit operator, be of another
  value that the parameter was set to, or not be reached because of a recovered panic
  (`EffectGuarantees.SkippedCloseIsGuaranteed`, `OtherCloseIsGuaranteed` and `UnreachedCloseIsGuaranteed`).  Since the
  search does not read on behind a deciding use, the guarantee may hold all the same (`CloseAnywayIsPerformed`); it follows
  from what the search read exactly if there is no such way around (`EffectGuarantees.GuaranteeFollowsExactly`).
* A value recorded as borrowed only may still be closed: by a callee that closes it on some paths, or by a method of which
  nothing is known (`EffectBorrows.ConditionalCloseIsABorrow` and `UnknownMethodIsABorrow`).  `BorrowFollowsExactly` gives
  the exact condition: the body has no such use.
* What a caller receives may contradict a recorded state if the function recovers from a panic, which leaves its unnamed
  results nil, or a recorded relation if deferred code changes a named result (`ReturnStates.RecoveredResultIsReceived` and
  `ChangedResultIsReceived`).  `ReceivedHoldsExactly` gives the exact condition on the definitions: no recovering call guards
  what may panic, and no result of a relation may change; `SafeExactly` gives it for each single state.
* The layers in which dependencies are analyzed follow the distance from the selected packages, not the imports, so a package
  can be analyzed before one that it imports and miss its facts (`PublishedStates.LateFactIsMissed`, and
  `EffectLayers.InTimeExactly` for exactly when).  Missing facts make answers unknown, never wrong.
* A result is reused although it is stale if a change to a file of its packages is missed: a document closed unsaved while
  its group has no retained entry, a document whose rules need no types, a document of a nested root, or a file that joins
  a package without being new or reported (`WorkspaceFreshness.ClosedWithoutEntryIsMissed`, `UntypedDocumentIsMissed`,
  `NestedRootIsMissed` and `JoiningFileIsMissed`).  `ReuseIsReanalysisExactly` gives the exact condition.
* A package rebuilt with an added import can be bound to the old version of it (`DependencyReload.AddedImportIsStale`).
  `BindsNothingStaleExactly` gives the exact condition on the inputs: every affected package that is newly imported comes
  first in the order in which a depth-first search over the old imports finishes packages.
* Across store handles a stale removal of a corrupt entry can delete a valid one
  (`CacheProtocol.StaleRemovalLosesAValue`, and `LostExactlyIfExposed` for exactly when); until the key is damaged it cannot
  (`ManyHandlesWriteOnce`), and within one handle it never can.
* A target that reports one diagnostic twice has both listed exactly if it comes first
  (`TargetMerge.RepeatsComeFromTheFirstRun`).
* Adding the variants of a function in two calls can bring back facts that a variant contradicted
  (`EffectMeet.ContradictedFactComesBack`, and `TwoCallsAgree` for exactly when).
* The comparison that numbers facts need not be transitive if only some of them have an order
  (`FactEncoding.ComparisonGoesInACircle`, and `ComparisonOrdersExactly` for exactly when).

Several inputs of the models stand for code outside them: control-flow graphs and the classification of their nodes (which
statements may panic, which deferred calls recover, which uses of a value may be skipped), the type
checker and package loader, SHA-256, the file system and clocks.  Where an answer may change from call to call, such as whether
a context is canceled, it is a function of the number of the question.

## Model

| member | source | states |
|---|---|---|
| ParameterEffects.RecordedGuaranteeHolds | internal/analysis/parameter_effects.go:139-341 | whatever was built in whatever order, if nothing gets around a deciding use then a recorded summary that guarantees an accepted effect means that every returning call with a finite call tree performs one, and performs every guaranteed kind |
| ParameterEffects.WrittenGuaranteeHolds | internal/analysis/parameter_effects.go:245-258 | together with the no-return inference: the same holds of every execution of the program as written, before graphs are cut, if besides no recorded no-return function recovers |
| EffectGuarantees.GuaranteeFollowsExactly | internal/analysis/parameter_effects.go:265-341 | the guarantee a finished search finds holds of every execution of every program that agrees with what the search read exactly if nothing gets around its deciding uses: none may be skipped, be of another value, or be preceded by a recovered panic |
| ParameterEffects.RecordedFollowsExactly | internal/analysis/parameter_effects.go:139-341 | the same of every guarantee recorded in a run without cancellation, whatever the order and the call cycles: it follows from what its search read and was told exactly if nothing gets around its deciding uses |
| ParameterEffects.RecordedIsTheSolution | internal/analysis/parameter_effects.go:139-243 | without call cycles and cancellation every recorded summary is the solution of the summary equations |
| EffectBorrows.RecordedMeans | internal/analysis/parameter_effects.go:265-341 | whatever the order and the call cycles, what a run without cancellation records says, in terms of paths and uses: it is known exactly if no path comes to a use that cannot be understood before one that has an effect; its kinds are those that first uses with an effect may have; it speaks of every returning call exactly if no path reaches a return past harmless uses; its guarantees are what every such first use surely has |
| EffectBorrows.EventMeans | internal/analysis/parameter_effects.go:343-534 | one use is found ambiguous exactly if it cannot be understood, and is found to have exactly the kinds that it has itself or that the summaries of the callees it is passed to name |
| EffectBorrows.KnownExactly | internal/analysis/parameter_effects.go:265-341 | a summary is known exactly if there is a body and no path leads past harmless uses to one that cannot be understood |
| EffectBorrows.KindsExactly | internal/analysis/parameter_effects.go:265-341 | a known summary names exactly the kinds of the first uses that are not harmless |
| EffectBorrows.AlwaysExactly | internal/analysis/parameter_effects.go:265-341 | a known summary speaks of every returning call exactly if some path has a use with an effect and none returns past harmless uses only; then it guarantees exactly what every first such use surely has |
| EffectBorrows.BorrowFollowsExactly | internal/rules/types.go:690-704 | that a summary is known and names no kinds means that no execution, in which a use that cannot be understood may do anything, does anything to the value, for all programs that agree with what the search was told, exactly if no use was overlooked: a method of which nothing is known, or a callee that has an effect on some paths only |
| EffectBorrows.RecordedBorrowHolds | internal/analysis/parameter_effects.go:139-341 | the same of everything recorded, through any chain of calls and call cycles, in runs without cancellation |
| EffectBorrows.ConditionalCloseIsABorrow | internal/analysis/parameter_effects.go:407-444 | a parameter handed to a function that closes it on some paths is recorded as borrowed, and can be closed |
| EffectBorrows.SometimesIsFound | internal/analysis/parameter_effects.go:319-341 | a body that closes on some paths has the summary that this example starts from |
| EffectBorrows.UnknownMethodIsABorrow | internal/analysis/parameter_effects.go:392-409 | a parameter on which a method is called of which nothing is known is recorded as borrowed, and anything can happen to it |
| EffectBorrows.AliasIsUnknown | internal/analysis/parameter_effects.go:483-499 | a parameter assigned to a local variable has no known summary |
| EffectGuarantees.SkippedCloseIsGuaranteed | internal/analysis/parameter_effects.go:343-534 | a close behind a short-circuit operator counts as guaranteed, and an execution skips it |
| EffectGuarantees.OtherCloseIsGuaranteed | internal/analysis/parameter_effects.go:459-467 | the close of another value assigned to the parameter counts as guaranteed |
| EffectGuarantees.UnreachedCloseIsGuaranteed | internal/analysis/parameter_effects.go:292-326 | a close behind a call whose panic the function recovers from counts as guaranteed |
| EffectGuarantees.CloseAnywayIsPerformed | internal/analysis/parameter_effects.go:292-318 | a guarantee can hold although its deciding use may be skipped, through a use the search does not read |
| EffectPrograms.CutPerformsTheSame | internal/analysis/parameter_effects.go:245-258 | whatever the program as written performs, it performs in the graphs cut after calls that never return |
| EffectEquations.FoundIsPromised | internal/analysis/parameter_effects.go:343-534 | if the answers about callees are right, an event that is found to have effects performs them whenever it happens |
| EffectEquations.NodesDecide | internal/analysis/parameter_effects.go:292-315 | the search reads a block up to its first use with an effect or ambiguity, and what it read before is idle |
| EffectSummaries.SummaryIsSound | internal/analysis/parameter_effects.go:265-341 | a summary computed by a search with firm decisions and verdicts that hold is sound for the slot: the step from all paths of a graph to all finite executions |
| EffectSummaries.FirstVerdict | internal/analysis/parameter_effects.go:265-341 | every path of the graph is decided by the verdict of its first block that is not open |
| ParameterEffects.OrderDoesNotMatter | internal/analysis/parameter_effects.go:139-243 | without call cycles and cancellation two complete runs record the same summaries, whatever their orders |
| ParameterEffects.RankDoesNotMatter | internal/analysis/parameter_effects.go:139-243 | the summary equations of an acyclic program have one solution, however its slots are ranked |
| EffectEquations.SolvedBy | internal/analysis/parameter_effects.go:265-341 | a finished search whose verdicts follow the equations gives the solution |
| EffectEquations.ExploredReaches | internal/analysis/parameter_effects.go:265-341 | the search visits exactly the blocks reached along paths that stop at their first effect or ambiguous use |
| ParameterEffects.Analysis.BuildAll | internal/analysis/parameter_effects.go:139-157 | over receivers and parameters in any order, every recorded summary is traced to a search and is sound if nothing gets around the deciding uses; without cancellation every slot has one |
| ParameterEffects.Analysis.Build | internal/analysis/parameter_effects.go:171-243 | the memoised recursion returns a summary that is sound if nothing gets around the deciding uses, and that is recorded unless the slot is being built already; it terminates because the started slots grow within a finite set |
| ParameterEffects.Analysis.Lookup | internal/analysis/parameter_effects.go:159-212 | a local definition is built, a foreign one looked up; the answer is sound in the same sense either way |
| ParameterEffects.Analysis.Summarize | internal/analysis/parameter_effects.go:265-341 | the worklist search ends having decided every reachable block, and its flags are exactly the path definition of the summary |
| ParameterEffects.Analysis.NodeEffect | internal/analysis/parameter_effects.go:343-534 | the walk stops at the first event with an effect or an ambiguous use; that event performs what the verdict says whenever it happens |
| ParameterEffects.Analysis.ArgumentsEffect | internal/analysis/parameter_effects.go:413-444 | the arguments are taken in order; the first that cannot be understood makes the event ambiguous |
| ParameterEffects.Analysis.EventEffect | internal/analysis/parameter_effects.go:343-534 | the kinds of one event are performed whenever the event happens, unless it is called ambiguous; without cancellation the outcome is the one the equations give for the answers of the callees, which `EffectBorrows.EventMeans` says in terms of uses |
| EffectKinds.GuaranteesAnyIsPerformed | internal/rules/types.go:724-730 | GuaranteesAny promises an accepted effect in every set of performed effects the summary admits |
| EffectKinds.GuaranteesAnyExactly | internal/rules/types.go:724-730 | and of a known summary that speaks of every returning call it holds exactly if every admitted set has an accepted effect |
| NoReturn.Analysis.RecordedNeverReturn | internal/analysis/no_return.go:85-122 | the recorded functions are in the least fixpoint, and none has a finite execution that returns exactly if none, taking the others not to return, can panic after deferring a recovering call; for any order, call cycles, over-long chains and cancellation |
| NoReturn.MarkedNeverReturn | internal/analysis/no_return.go:257-272 | the same of every set of functions that the rule supports |
| NoReturn.UnguardedNeverReturn | internal/analysis/no_return.go:257-272 | in particular if no marked function may panic behind a deferred recovering call, as its own graph shows |
| NoReturn.GuardsPanicExactly | internal/analysis/no_return.go:257-272 | some code with a given graph returns by recovering exactly if a live path of the graph leads, past no panic, to a node that may panic behind a deferred recovering call |
| NoReturn.PublishedNeverReturn | internal/analysis/effect_facts.go:418-429 | no facts need be trusted: over the analyses of all packages in their order, everything marked is in the least fixpoint of the whole program, and never returns there exactly if nothing marked recovers |
| NoReturn.FixpointIsClosed | internal/analysis/no_return.go:257-272 | the least fixpoint is a fixpoint: the rule leads from it to no further functions |
| NoReturn.Analysis.RecordedIsRun | internal/analysis/no_return.go:85-122 | what one analysis records, in whatever order and with whatever interruptions, is such a set of marks |
| NoReturn.RecoveredPanicReturns | internal/analysis/no_return.go:257-272 | a function that recovers from its own panic is in the least fixpoint, as is its caller, and both return |
| NoReturn.Analysis.RecordedExactly | internal/analysis/no_return.go:257-272 | without call cycles, over-long chains and cancellation the marked functions are exactly the least fixpoint |
| NoReturn.Analysis.MissedOnlyThroughCycles | internal/analysis/no_return.go:257-272 | whatever the order, with at most 4096 functions and no cancellation: a function that is not recorded has a path to a return on which every panic, fact and recorded function called belongs to a call cycle through it |
| NoReturn.Analysis.RecordedWithoutCycles | internal/analysis/no_return.go:257-272 | so a function from which no call cycle can be reached is recorded exactly if it is in the least fixpoint, whatever cycles there are elsewhere |
| NoReturn.Analysis.RecordedAtLeast | internal/analysis/no_return.go:257-272 | whatever the order, the call cycles and the interruptions: a built function is recorded if panics, facts and the functions recorded before its graph was begun close all its returns |
| NoReturn.Analysis.RecordedGraphsKeepExecutions | internal/analysis/no_return.go:94-107 | if no recorded function recovers, the graphs handed to other analyses keep every execution; and only then is pruning by the recorded functions safe for all that may call them |
| NoReturn.FixpointNeverReturns | internal/analysis/no_return.go:257-272 | the functions of the least fixpoint never return exactly if none of them recovers |
| NoReturn.LeastAmongClosedSets | internal/analysis/no_return.go:257-272 | every set closed under the rule contains the fixpoint the levels build |
| NoReturn.PruningKeepsExecutions | internal/analysis/no_return.go:94-107 | cutting blocks after the calls of some functions keeps the executions of every caller exactly if none of these functions returns |
| NoReturn.NoReturnPathMeansFixpoint | internal/analysis/no_return.go:257-272 | a pruned graph without a return path puts its function in the fixpoint |
| NoReturn.FixpointMeansNoReturnPath | internal/analysis/no_return.go:257-272 | conversely, if the graph was pruned by all answers of the fixpoint |
| NoReturn.Analysis.BuildAll | internal/analysis/no_return.go:85-92 | building in any order keeps the table sound and complete but for call cycles, and reaches every function if no limit interferes |
| NoReturn.Analysis.Build | internal/analysis/no_return.go:257-272 | a function is built at most once, the table stays below the fixpoint, and it stays complete but for call cycles |
| NoReturn.Analysis.NeverReturnsNow | internal/analysis/no_return.go:109-122 | a positive answer is in the fixpoint; a negative one is outside it in the ideal case |
| NoReturn.Analysis.CallStops | internal/analysis/no_return.go:348-359 | a call said not to return does not return; in the ideal case no call that never returns is missed |
| NoReturn.Analysis.NewGraph | internal/analysis/no_return.go:94-107 | the graph built with the current answers is the raw graph with some never-returning blocks cut: all that stop by a panic, a fact or a function recorded before, and, unless a limit interferes, all but those that stop only by functions calling back; in the ideal case all |
| NoReturn.ReachesReturn | internal/analysis/no_return.go:257-272 | the search of the graph answers whether some live path ends in a return |
| ReturnStates.StateTable.RecordedIsLeast | internal/analysis/return_states.go:210-298 | what is recorded for a built definition is exactly the least solution of the delegation equations, with Unknown as bottom |
| ReturnStates.FoundExactly | internal/analysis/return_states.go:667-771 | when a state is found, in terms of return statements: some return shows it and all others do or are for the other state of the error; a return shows it by an expression the classifiers recognize, or by a call of a function with the same result types of which it is found or published, for single results and for several handed over |
| ReturnStates.OrderDoesNotMatter | internal/analysis/return_states.go:196-259 | two runs over the same definitions record the same states, whatever the build orders |
| ReturnStates.StateTable.RecordedHolds | internal/analysis/return_states.go:196-298 | interrupted or not, a recorded state holds of everything that callers receive, in all executions without recovered panics and changed results, and in all executions at all if the states found are safe |
| ReturnStates.ReceivedHoldsExactly | internal/analysis/return_states.go:300-335 | whatever functions return and delegate to, all that is found, of single results and relations, holds of all that callers receive, exactly if in each definition with anything to summarize no recovering call guards what may panic and no result of a relation may change after a return |
| ReturnStates.SafeExactly | internal/analysis/return_states.go:300-335 | for each key and state by itself: if return statements keep to it, all that callers receive keeps to it exactly if no result of a relation may change and, where a recovering call guards what may panic, the zero values of unnamed results agree with it |
| ReturnStates.ChangedResultIsReceived | internal/analysis/return_states.go:581-648 | a relation is recorded although deferred code changes the value that a caller receives |
| ReturnStates.RecoveredResultIsReceived | internal/analysis/return_states.go:300-335 | a result, a relation and a delegated result are recorded as not nil although callers receive nil after a recovered panic |
| ReturnStates.CutIsUnknown | internal/analysis/return_states.go:210-247 | where the recursion meets a definition on its own stack, the key being answered is unknown in the least solution, so answering Unknown loses nothing |
| ReturnStates.AsksKeepsShape | internal/analysis/return_states.go:538-568 | a delegation goes to a single-result function or hands over all results under the same key |
| ReturnStates.ReturnHandsOver | internal/analysis/return_states.go:729-771 | a return that hands over all results for one key does so for every key, or answers Unknown |
| ReturnStates.DerivableUnfolds | internal/analysis/return_states.go:667-727 | the least solution satisfies the aggregation equation: some return bears on the key, and all that do yield the state |
| ReturnStates.KnownIsUnique | internal/analysis/return_states.go:667-727 | a key has at most one state in the least solution |
| ReturnStates.KnownHolds | internal/analysis/return_states.go:667-771 | every state of the least solution holds of all that callers receive, through any chain of delegations, if the states are safe or nobody recovers or changes results |
| PublishedStates.PublishedHolds | internal/analysis/effect_facts.go:605-629 | published facts need not be trusted: a state found in any package, in the order of the analyses, holds of all that callers receive in the whole program, on the same conditions |
| PublishedStates.PublishedIsWhole | internal/analysis/effect_facts.go:605-629 | if every analysis is told all it needs, analysing package by package finds exactly what one analysis of the whole program would |
| PublishedStates.LayersFindAll | internal/analysis/effect_facts.go:1190-1220 | so it is for the layers of the code if no import path from the selected packages to a package is shorter than all to one that imports it |
| PublishedStates.LateFactIsMissed | internal/analysis/effect_facts.go:1190-1220 | otherwise a package can be analyzed before one that it imports, and miss what is found there |
| EffectLayers.Layers | internal/analysis/effect_facts.go:1113-1189 | the layers hold every local package at its distance from the selected packages |
| EffectLayers.LocalImports | internal/analysis/effect_facts.go:1299-1327 | the next layer has what the last imports locally and was not seen |
| EffectLayers.InTimeExactly | internal/analysis/effect_facts.go:1113-1190 | an imported package is analyzed with or before its importer exactly if no import path to it is shorter than all to the importer |
| PublishedEffects.PublishedIsSound | internal/analysis/effect_facts.go:465-494 | published summaries need not be trusted: what the analyses of all packages record is right of every execution of the whole program if it is right as far as their facts are |
| PublishedEffects.PublishedGuaranteeHolds | internal/analysis/effect_facts.go:1190-1202 | with the no-return inference, package by package: a recorded guarantee holds of every execution of the program as written if no function marked as never returning recovers |
| PublishedEffects.SteadyIsRun | internal/analysis/parameter_effects.go:139-341 | what an analysis records is right as far as its facts are if nothing gets around the deciding uses |
| PublishedEffects.PartPerformsTheSame | internal/analysis/effect_facts.go:465-494 | if the facts of a part are right, whatever the whole program performs is performed in the part |
| ReturnStates.StateTable.BuildAll | internal/analysis/return_states.go:196-259 | after an uninterrupted run every definition is built |
| ReturnStates.StateTable.BuildDefinition | internal/analysis/return_states.go:210-298 | a definition asked for outside its own stack gets the complete least solution; the depth counter and started marks cut only what is unknown |
| ReturnStates.StateTable.Aggregate | internal/analysis/return_states.go:490-536 | all returns that bear on a key must agree; the answer is the derivable state, if there is one |
| ReturnStates.StateTable.Evaluate | internal/analysis/return_states.go:538-568 | one return contributes its own state, or the state of the definition it delegates to |
| ReturnStates.StateTable.SummarizeResults | internal/analysis/return_states.go:300-335 | every nil-capable result is answered |
| ReturnStates.StateTable.SummarizeRelations | internal/analysis/return_states.go:581-648 | every pair of a nil-capable and an error result is answered for both error states |
| ManagedResults.CleanupRegisteredBeforeEveryReturn | internal/analysis/managed_results.go:547-591 | true exactly when some return is reachable and every live path to a return registers cleanup first; cancellation can only lose a positive answer |
| ManagedResults.CallbackGuaranteesClose | internal/analysis/managed_results.go:681-723 | true exactly when some live path closes the object and every live path to a return does |
| ManagedResults.SearchDecidesManaged | internal/analysis/managed_results.go:552-591 | a finished search over pairs of block and state decides the path property |
| ManagedResults.PathIsSeen | internal/analysis/managed_results.go:552-591 | every live path is covered by a seen pair whose state is justified by that path |
| ManagedResults.NodeRegistersCleanup | internal/analysis/managed_results.go:593-625 | a node registers cleanup exactly if one of its calls does with a callback that closes the object |
| ManagedResults.NodeClosesObject | internal/analysis/managed_results.go:725-774 | a node closes the object exactly if one of its uses does, directly or through a callee |
| ManagedResults.ClosesExactly | internal/analysis/managed_results.go:775-820 | an object handed to a callee counts as closed exactly if the summary of the callee is known and promises that every returning call closes it |
| ControlFlow.OpenPathIsSeen | internal/analysis/managed_results.go:681-723 | the shared search invariant covers every path that has not passed a stopping block |
| SessionProtocol.RunKeepsInv | internal/analysis/package_session.go:127-266 | in every reachable state of concurrent loaders and invalidators every entry stems from work begun in the current generation, and the bounds hold |
| SessionProtocol.StepKeepsInv | internal/analysis/package_session.go:127-266 | every lock section keeps that invariant and the generation never goes back |
| SessionProtocol.IncrementalSawNoInvalidation | internal/analysis/package_session.go:127-220 | an incremental result is published only if nothing was invalidated since its loader took its snapshot |
| SessionProtocol.PublishedExactly | internal/analysis/package_session.go:127-220 | in every run, a load publishes its result, or drops the entry if it failed, exactly if nothing was invalidated since it last read the generation; otherwise it leaves the table alone, and an incremental one starts over |
| SessionProtocol.UndisturbedLoad | internal/analysis/package_session.go:127-190 | while nothing is invalidated a load stays with what its first section found: the retained entry, to be reloaded, or none |
| SessionProtocol.SnapshotOf | internal/analysis/package_session.go:127-220 | a loader that reloads or is about to commit took its snapshot in the generation it remembers |
| SessionProtocol.JustStoredSurvives | internal/analysis/package_session.go:222-266 | an entry just stored survives its own eviction round whenever it fits at all |
| PackageSession.BoundedHolds | internal/analysis/package_session.go:233-266 | at most eight entries and 128 MiB remain, each unchanged |
| Bounding.KeptIsWhatFits | internal/analysis/package_session.go:233-266 | exactly the candidates that fit beside the newer ones kept are kept |
| PackageSession.NewestSurvives | internal/analysis/package_session.go:233-266 | the most recently used entry is kept whenever it fits at all |
| PackageSession.NewerIsPreferred | internal/analysis/package_session.go:233-266 | an entry makes way only for newer ones and for older ones that are smaller |
| PackageSession.WithinBoundsIsKept | internal/analysis/package_session.go:233-266 | a table within the bounds stays as it is |
| PackageSession.StoreKeeps | internal/analysis/package_session.go:222-231 | what is stored counts as used last; the others stay if all fit, and no other value takes their place |
| PackageSession.StoreDrops | internal/analysis/package_session.go:222-225 | what is not to be retained is dropped, and nothing else is touched |
| Bounding.NewerIsKept | internal/analysis/package_session.go:233-266 | what is kept could be exchanged for anything newer that is no larger, so that is kept, too |
| PackageSession.RankedIsUnique | internal/analysis/package_session.go:233-266 | the order of eviction does not depend on the order the map is walked in |
| PackageSession.PackageSession.InvalidateAll | internal/analysis/package_session.go:117-125 | empties the table and opens a new generation |
| PackageSession.PackageSession.Store | internal/analysis/package_session.go:222-231 | replaces or drops the entry, then bounds the table |
| PackageSession.PackageSession.Bound | internal/analysis/package_session.go:233-266 | the table becomes the bounded table of the specification |
| PackageSession.PackageSession.CommitIncremental | internal/analysis/package_session.go:127-220 | publishes only in the generation the work began in |
| PackageSession.PackageSession.FinishFull | internal/analysis/package_session.go:127-220 | a full load publishes or drops its entry only in its own generation |
| DependencyReload.ReloadDependencies | internal/analysis/package_session.go:1841-1986 | success means exactly the affected packages are rebuilt, once each, in the order in which a depth-first search finishes them and so after all their affected old imports, and bind the current version of each old import; refusal means a cycle or an affected package that cannot be rebuilt; and what is bound is stale nowhere exactly if every affected added import finishes first |
| DependencyReload.BindsNothingStaleExactly | internal/analysis/package_session.go:1947-1986 | a rebuilt package binds nothing stale exactly if every affected package that it newly imports comes before it in the finishing order of the depth-first search over the old imports, a function of the inputs |
| DependencyReload.DependenciesFinishFirst | internal/analysis/package_session.go:1947-1986 | what a package imported already, directly or not, is finished before it, so an added import of that is never stale; what imports the package is not |
| DependencyReload.ReloadIsUnique | internal/analysis/package_session.go:1841-1986 | the inputs determine what a reload delivers |
| DependencyReload.RebuiltExactly | internal/analysis/package_session.go:1841-1986 | a reachable package is rebuilt exactly if its files changed, all that may change are to be refreshed, or it imports a rebuilt one; it compiles and binds exactly the imports it uses, those it had to the rebuilt version if there is one |
| DependencyReload.BlockedExactly | internal/analysis/package_session.go:1921-1986 | what stands in the way of a reload: a reachable package that is missing, lies on a cycle, or is affected but may not change or does not compile from the imports it had or has added |
| DependencyReload.AddedImportIsStale | internal/analysis/package_session.go:1867-1882 | two changed packages imported one after the other, of which the first newly imports the second: the one reload there is binds it to the old version of the second |
| DependencyReload.FinishedIsReload | internal/analysis/package_session.go:1841-1986 | a finished depth-first search without refusals is such a reload |
| DependencyReload.AffectedUnfolds | internal/analysis/package_session.go:1841-1986 | a package is affected exactly if it changed or imports an affected one |
| DependencyReload.PathDescends | internal/analysis/package_session.go:1841-1986 | import paths only descend in the finishing order |
| DependencyReload.FinishedIsAcyclic | internal/analysis/package_session.go:1841-1986 | finished packages lie on no import cycle |
| DependencyReload.CollectDirect | internal/analysis/package_session.go:1841-1986 | the first search finds exactly the reachable packages that changed themselves |
| DependencyReload.Reload.Refresh | internal/analysis/package_session.go:1841-1986 | the recursive visit settles a package with the right answer, or explains the refusal |
| DependencyReload.Reload.ActiveMeansCycle | internal/analysis/package_session.go:1841-1986 | meeting an active package means an import cycle |
| DependencyReload.Reload.Rebuild | internal/analysis/package_session.go:2068-2147 | a rebuilt package binds the current version of every old import it uses, and added imports to what was rebuilt by then |
| DependencyReload.Reload.Bind | internal/analysis/package_session.go:2323-2337 | every import resolves to the rebuilt package if there is one, else to the old one |
| CacheKey.StreamIsTheInput | internal/cache/key.go:77-133 | two valid inputs are hashed as the same bytes exactly when they agree, with tags as a set and rules and components as maps |
| CacheKey.CanonicalIsTheInput | internal/cache/key.go:77-133 | the sorted, compacted form forgets exactly the order and the repeated tags |
| CacheKey.StreamSplits | internal/cache/key.go:231-251 | equal streams have equal canonical parts |
| CacheKey.FlattenSplits | internal/cache/key.go:231-251 | length-prefixed pieces of the same shape are recovered from the stream, and so is what follows |
| CacheKey.Validate | internal/cache/key.go:135-213 | accepts exactly the valid inputs |
| CacheKey.BuildKey | internal/cache/key.go:77-133 | the key is the digest of the canonical stream; an invalid input has none |
| CacheKey.WriteStream | internal/cache/key.go:77-133 | the writes into the running hash make up the canonical stream |
| Encoding.StrSplits | internal/cache/key.go:238-241 | a length-prefixed string and what follows it are recovered |
| Encoding.BigEndianRoundTrip | internal/cache/key.go:247-251 | eight big-endian bytes determine the number |
| CacheStore.DecodeInvertsEncode | internal/cache/store.go:329-364 | decoding accepts exactly the encodings under that key of payloads within the limit, and gives the payload back |
| CacheStore.EncodeEntry | internal/cache/store.go:329-341 | the buffer filled at growing offsets holds the entry |
| CacheProtocol.GetYieldsOnlyWhatWasPut | internal/cache/store.go:178-298 | however puts, crashes, prunes and damage interleave, Get yields a payload only if some Put was issued with it under that key |
| CacheProtocol.RunKeepsInv | internal/cache/store.go:178-298 | every reachable state has genuine entries and every process in a consistent phase |
| CacheProtocol.StepKeepsInv | internal/cache/store.go:178-298 | one step of one process keeps the invariant |
| CacheProtocol.ValuesAreNotReplaced | internal/cache/store.go:208-298 | no step replaces a valid value by another |
| CacheProtocol.ReportsAreTrue | internal/cache/store.go:208-298 | stored and conflict are reported only when they are so |
| CacheProtocol.UndisturbedPut | internal/cache/store.go:208-298 | a put that nobody disturbs, in any reachable state: a valid value stays and the put reports whether it is the one given; otherwise the payload is the value from then on and is reported stored; no other key changes its value |
| CacheProtocol.ManyHandlesWriteOnce | internal/cache/store.go:208-298 | with any number of handles: while a key has not been damaged, a valid value of it survives every step but its own pruning |
| CacheProtocol.LostExactlyIfExposed | internal/cache/store.go:208-321 | from any reachable state, without damage and pruning of the key, a valid value of it can be lost exactly if its entry is corrupt or some handle is about to remove an entry it found corrupt |
| CacheProtocol.StaysCovered | internal/cache/store.go:208-321 | only damage to a key brings about such a state |
| CacheProtocol.OneHandleWritesOnce | internal/cache/store.go:208-298 | with one handle a valid value survives every step but the damage or the pruning of its own entry |
| CacheProtocol.OnlyCorruptIsRemoved | internal/cache/store.go:300-321 | with one handle only a corrupt entry is removed |
| CacheProtocol.StaleRemovalLosesAValue | internal/cache/store.go:208-298 | after one put and damage, two handles can lose a valid value to a stale removal |
| Prune.Prune | internal/cache/prune.go:49-117 | success evicts entries last modified before all that are kept, just as many as the two limits ask for: they are met, and would not be with one entry more; entries and bytes before are those removed, those gone meanwhile and those after; totals never overflow |
| Prune.OldestGoFirst | internal/cache/prune.go:79-86 | however many candidates go, those that go were last modified before all that stay, or at the same time and have the smaller key |
| Prune.CandidatesAreWhole | internal/cache/prune.go:119-216 | the candidates are the whole entries, each as often as it is listed |
| Prune.Evict | internal/cache/prune.go:49-117 | the eviction loop stops at the shortest sufficient prefix |
| Prune.Scan | internal/cache/prune.go:119-228 | every entry is counted, corrupt ones are removed, the others become candidates; it fails only on an overflow, an entry that cannot be read, or one that cannot be removed |
| Prune.Conservation | internal/cache/prune.go:49-117 | every entry is removed, gone, or left, in number and in bytes |
| Prune.CandidatesAccount | internal/cache/prune.go:119-216 | candidates and corrupt entries account for everything listed |
| SSAWaves.PackageWaves | internal/analysis/ssa.go:144-171 | the waves list the packages in order within the bounds, and no contiguous bounded partition has fewer |
| SSAWaves.FewestWaves | internal/analysis/ssa.go:144-171 | a greedy partition needs no more waves than any other |
| SSAWaves.GreedyGetsFurthest | internal/analysis/ssa.go:144-171 | no bounded partition gets further with the same number of waves |
| ChangedLines.MergeRanges | internal/changed/scope.go:574-609 | the merged ranges are sorted, disjoint, not adjacent, and cover exactly the hunks |
| ChangedLines.SeparateIsUnique | internal/changed/scope.go:574-609 | only one such sequence covers a given set of lines, so the unstable sort does not matter |
| ChangedLines.OwnedByOneRange | internal/changed/scope.go:376-427 | a span is owned exactly when one merged range contains it, and then it meets the change |
| ChangedLines.Owns | internal/changed/scope.go:399-427 | owned means that every line of the span is changed |
| ChangedLines.Intersects | internal/changed/scope.go:376-397 | intersecting means that some line of the span is changed |
| ChangedLines.PhysicalLineSpan | internal/changed/scope.go:453-480 | the span of lines is exactly the lines that the characters of the byte range stand on |
| ChangedLines.FilterDiagnostics | internal/changed/scope.go:235-284 | diagnostics split in order into those meeting a changed line and the others; the former keep exactly the fixes whose every edit is owned; nothing is shown in a file the scope does not know and everything in a new one; it fails exactly on a foreign, stale or unreadable diagnostic |
| ChangedLines.ShownByLines | internal/changed/scope.go:376-397 | in a file changed on some lines a diagnostic is shown exactly if one of its characters stands on such a line |
| ChangedLines.KeptByLines | internal/changed/scope.go:399-427 | a fix is offered exactly if all characters of all its edits stand on such lines |
| ChangedLines.LineCountsNewlines | internal/changed/scope.go:453-480 | a line number is one more than the number of newlines before |
| ChangedLines.KeepOwnedFixes | internal/changed/scope.go:235-284 | the fixes kept are, in order, those whose every edit is owned |
| Selecting.FilterSplits | internal/changed/scope.go:235-284 | the two parts together are all the diagnostics |
| WorkspaceChanges.NothingIsLost | internal/cli/lsp.go:468-540 | in every reachable state each accepted change is pending, in flight, or consumed by an analysis that started after it and completed; never more than 4096 paths are pending |
| WorkspaceChanges.CompletionConsumesAll | internal/cli/lsp.go:181-193 | a completed analysis leaves nothing behind that was accepted before it started |
| WorkspaceChanges.RunKeepsInv | internal/cli/lsp.go:468-540 | besides, everything is analysed again only on request or after more than 4096 paths |
| WorkspaceChanges.StepKeepsInv | internal/cli/lsp.go:468-540 | each notification, taking, restoring and completion keeps the invariant |
| WorkspaceChanges.Backend.WorkspaceFilesChanged | internal/cli/lsp.go:468-509 | a notification is recorded whole or not at all, in every order of cancellation; an acceptable one empties the package session |
| WorkspaceChanges.Backend.TakeWorkspaceFileChanges | internal/cli/lsp.go:511-519 | takes everything and leaves nothing |
| WorkspaceChanges.Backend.RestoreWorkspaceFileChanges | internal/cli/lsp.go:521-540 | puts back what was taken beside what came since, widening to everything beyond 4096 |
| WorkspaceEntries.BoundHolds | internal/cli/lsp.go:821-858 | at most eight entries and 128 MiB, or one larger entry; the most recently used entry is always kept |
| WorkspaceEntries.NewerIsPreferred | internal/cli/lsp.go:821-858 | an entry makes way only for newer ones and for older ones that are smaller |
| WorkspaceEntries.BoundIsUnique | internal/cli/lsp.go:821-858 | the same entries survive whatever order the map is walked in |
| WorkspaceEntries.Bound | internal/cli/lsp.go:821-858 | the loop computes that bound |
| WorkspaceEntries.KeyOrderIsLawful | internal/cli/lsp.go:880-906 | group keys are totally ordered and tie only on equals |
| WorkspaceReuse.Workspace.AnalyzeWorkspace | internal/cli/lsp.go:254-464 | each group gets its retained result if it may be reused, else a new one, and the next table retains exactly the complete results that could be captured, within the bound; a canceled call changes nothing |
| WorkspaceReuse.IsReused | internal/cli/lsp.go:373-380 | reused exactly if the document digests match, the root is not wholly invalidated, and no root or dependency package belongs to a group under the root that changed, closed, opened or went stale |
| WorkspaceReuse.TablesDecide | internal/cli/lsp.go:787-799 | the two invalidation tables decide that condition |
| WorkspaceReuse.InvalidateEntries | internal/cli/lsp.go:711-749 | marks exactly the entries that differ, went stale on disk or were closed |
| WorkspaceReuse.InvalidateWatched | internal/cli/lsp.go:751-785 | marks exactly the entries a watched change touches |
| WorkspaceReuse.InvalidateEverything | internal/cli/lsp.go:274-278 | an invalidate-all marks every open root |
| WorkspaceReuse.AttemptOpened | internal/cli/lsp.go:308-366 | groups without an entry are analysed first and mark what they turn out to be about, or their whole root |
| WorkspaceReuse.AnswerGroup | internal/cli/lsp.go:367-395 | the answer for one group is the retained result if it is reused, and the new analysis otherwise; `WorkspaceFreshness.RoundAnswersFresh` says what that means |
| WorkspaceReuse.SameDocumentsIsEquality | internal/cli/lsp.go:801-811 | the digest comparison is equality unless some digest is zero |
| WorkspaceReuse.IsCurrent | internal/cli/lsp.go:665-687 | current means every tracked file and directory is as captured |
| WorkspaceFreshness.ReuseIsReanalysisExactly | internal/cli/lsp.go:373-380 | reuse equals analysing again, whatever the analysis would find in the changed files, exactly if the round missed no change: each change of a relevant file is one of an open or retained group, or of a tracked file or directory on disk |
| WorkspaceFreshness.ReuseIsFresh | internal/cli/lsp.go:373-380 | if no change to them was missed, the files of a reused result are as they were |
| WorkspaceFreshness.DifferenceIsMissed | internal/cli/lsp.go:711-785 | file by file: under a reuse the relevant text differs exactly if the change is one the round does not notice |
| WorkspaceFreshness.ReuseIsReanalysis | internal/cli/lsp.go:373-380 | if no change was missed reuse equals analysing again, for every analysis that depends only on its packages and control files |
| WorkspaceFreshness.RoundAnswersFresh | internal/cli/lsp.go:368-410 | if no change is missed, every group of a round, reused or not, is answered with what analysing it now gives, and with an error exactly if no overlay can be prepared or the analysis fails |
| WorkspaceFreshness.QuietRoundReuses | internal/cli/lsp.go:373-380 | conversely, if nothing changed, nothing is analysed again |
| WorkspaceFreshness.RunReusesFreshResults | internal/cli/lsp.go:181-466 | over any run of rounds in which no change is missed, every reuse equals analysing again, and every group is answered with what analysing it then gives |
| WorkspaceFreshness.TableStaysSound | internal/cli/lsp.go:435-463 | a round leaves entries that equal analysing their groups under its own documents and disk |
| WorkspaceFreshness.LossIsImpossible | internal/cli/lsp.go:711-749 | no noticed disappearance or change of a file goes with a reuse |
| WorkspaceFreshness.GainIsImpossible | internal/cli/lsp.go:711-785 | no noticed new file goes with a reuse |
| WorkspaceFreshness.ClosedWithoutEntryIsMissed | internal/cli/lsp.go:743-747 | a concrete round reuses a stale result: a document whose group had no retained entry was closed unsaved |
| WorkspaceFreshness.UntypedDocumentIsMissed | internal/cli/lsp.go:222-227 | another: a document whose rules need no types was edited |
| WorkspaceFreshness.NestedRootIsMissed | internal/cli/lsp.go:711-749 | another: a document under a nested root was edited |
| WorkspaceFreshness.JoiningFileIsMissed | internal/cli/lsp.go:752-785 | another: a file on disk that was kept out of its package came to belong to it, unreported |
| Diagnostics.DiagnosticOrderIsLawful | internal/analysis/engine.go:440-487 | the fourteen-field comparison is a total order that ties only on equal diagnostics |
| Diagnostics.OrderIsCanonical | internal/analysis/engine.go:261-265 | ordering keeps the diagnostics and gives the same list exactly for permutations |
| Diagnostics.ListedByPosition | internal/analysis/engine.go:440-465 | diagnostics come file by file, in the order in which their ranges start, then end, and then by rule |
| Diagnostics.CompareLists | internal/analysis/engine.go:489-503 | the index loops compute the lexicographic order |
| Diagnostics.CompareFixes | internal/analysis/engine.go:505-560 | fixes are compared by name, safety, edits and required imports |
| TargetMerge.MergedSaysWhatWasFound | internal/cli/lint_targets.go:227-253 | folding over the targets lists each diagnostic once with exactly the ascending set of targets that reported it |
| TargetMerge.TargetOrderDoesNotMatter | internal/cli/lint_targets.go:227-253 | over two or more targets the merged list is the same for every order of the targets |
| TargetMerge.RepeatsComeFromTheFirstRun | internal/cli/lint_targets.go:227-253 | a diagnostic is listed twice exactly if the first target reports one twice |
| TargetMerge.MergeRuleDiagnostics | internal/cli/lint_targets.go:227-253 | the nested loops compute the ordered merge |
| TargetMerge.MergeTargets | internal/cli/lint_targets.go:75-96 | the matrix is folded target by target |
| TargetMerge.MergedNames | internal/cli/lint_targets.go:337-341 | merged target names are ascending, without repetition, and exactly those of either side |
| TargetMerge.IntersectValues | internal/cli/lint_targets.go:360-371 | keeps, in order, the left values the right also has |
| TargetMerge.MergeValues | internal/cli/lint_targets.go:343-358 | extends the left values by the new ones of the right |
| TargetMerge.UnusedForEveryTarget | internal/cli/lint_targets.go:216-219 | a suppression in a file is reported unused exactly if it is unused for every target that lists the file |
| Baseline.GeneratedHidesEverything | internal/baseline/baseline.go:142-257 | a document just generated from inputs with distinct paths is valid, hides every diagnostic and raises no problem, whatever the options |
| Baseline.HidesExactly | internal/baseline/baseline.go:206-229 | of each key as many diagnostics are hidden as the entry counts, or all of them; none of an expired or missing one |
| Baseline.ExpiredExactly | internal/baseline/baseline.go:187-196 | an entry has expired exactly if both dates are given and the cutoff is not before its own |
| Baseline.Apply | internal/baseline/baseline.go:168-257 | each file splits in order into hidden and visible diagnostics, problems follow the canonical entries, and it fails exactly on invalid documents, cutoffs, inputs or repeated paths |
| Baseline.ChosenSplits | internal/baseline/baseline.go:206-229 | every diagnostic is either hidden or visible |
| Baseline.Generate | internal/baseline/baseline.go:142-165 | one entry for each key with its number of diagnostics, in canonical order |
| Baseline.GeneratedIsUnique | internal/baseline/baseline.go:397-420 | the generated document depends only on how often each key occurs |
| Baseline.ValidateDocument | internal/baseline/baseline.go:271-326 | accepts exactly the valid documents |
| Baseline.ReportProblems | internal/baseline/baseline.go:231-255 | stale and expired entries of analysed files are reported, in canonical order |
| EffectDigest.StreamIsTheRecords | internal/analysis/effect_facts.go:715-1068 | two fact tables give the same bytes exactly when all thirteen tables hold the same records |
| EffectDigest.EncodeAllIsInjective | internal/analysis/effect_facts.go:715-1068 | a tagged stream determines its records |
| EffectDigest.WriteStream | internal/analysis/effect_facts.go:715-1068 | the loops over the tables write the sorted records of each |
| EffectDigest.Digest | internal/analysis/effect_facts.go:715-1068 | the digest is the hash of such a stream |
| EffectMeet.FactTable.Add | internal/analysis/effect_facts.go:556-677 | an identity ends up with what all its variants and the earlier entry agree on; an empty entry is dropped |
| EffectMeet.MeetIsAgreement | internal/analysis/effect_facts.go:631-655 | a fact is kept exactly if every variant states it |
| EffectMeet.VariantOrderDoesNotMatter | internal/analysis/effect_facts.go:631-655 | neither the order of the definitions nor repetition matters |
| EffectMeet.TwoCallsAgree | internal/analysis/effect_facts.go:656-677 | adding in two calls equals adding in one exactly unless the variants of the first call, with the earlier entry, agree on nothing and those of the second agree on something |
| EffectMeet.ContradictedFactComesBack | internal/analysis/effect_facts.go:656-677 | a fact that two variants of the first call contradicted is back after the second |
| FactEncoding.RestoreThenEncode | internal/analysis/fact_snapshot.go:89-359 | restoring a snapshot where nothing is known of the package and every object resolves, then encoding under either policy, gives the same snapshot |
| FactEncoding.NumberedAsBefore | internal/analysis/package_facts.go:480-517 | facts restored with an order are numbered in that order again |
| FactEncoding.ComparisonOrdersExactly | internal/analysis/package_facts.go:480-517 | the comparison of facts is a strict weak order exactly if no fact without an order lies, by the ties, between two whose orders contradict that |
| FactEncoding.ComparisonGoesInACircle | internal/analysis/package_facts.go:480-517 | three facts, two with orders, that the comparison puts in a circle |
| FactEncoding.Encode | internal/analysis/fact_snapshot.go:89-215 | encoding writes exactly the stored facts of the package and refuses only what cannot be encoded or is not in order |
| FactSnapshots.ValidateOrder | internal/analysis/fact_snapshot.go:454-485 | accepts exactly strictly ascending facts whose order fields are a permutation of the numbers below their count |
| FactSnapshots.OrdersArePermutation | internal/analysis/fact_snapshot.go:463-483 | the array of marks decides that |
| FactSnapshots.FactSet.Restore | internal/analysis/fact_snapshot.go:233-359 | success adds exactly the facts of the snapshot, contradicting none; a conflict means that one is contradicted; every failure leaves all stored facts as they were |
| FactSnapshots.ObjectFactsAreRestored | internal/analysis/fact_snapshot.go:233-359 | after a restore every object fact is held with its value and order under the object at its canonical path; a fact without such an object is skipped only where that is the policy |
| FactSnapshots.PackageFactsAreRestored | internal/analysis/fact_snapshot.go:233-359 | after a restore every package fact is held under its declared type |
| FactSnapshots.RestoringForgetsNothing | internal/analysis/fact_snapshot.go:233-359 | a restore leaves every fact that was there as it was |
| FactSnapshots.FactSet.BeginObjectFacts | internal/analysis/package_facts.go:322-386 | a new view holds exactly what the imports offer; it is refused exactly if one is missing or they disagree |
| FactSnapshots.InheritFrom | internal/analysis/package_facts.go:349-383 | one import is taken over, or contradicts the others |
| Ordering.CompareSeqLaws | internal/analysis/engine.go:489-503 | lexicographic comparison of lists is lawful if that of their elements is |
| Ordering.TextOrderIs | internal/analysis/engine.go:445-447 | text is compared as in a dictionary, byte by byte |
| Sorting.CompactedIsTheSet | internal/cache/key.go:77-100 | a sorted and compacted list shows exactly which elements there were |
| Sorting.SortIsCanonical | internal/analysis/engine.go:440-487 | sorting by an order that ties only on equals forgets the input order |

## Left out

- NoReturn.Analysis.RecordedExactly: speaks of programs without call cycles; with them `MissedOnlyThroughCycles` and `RecordedWithoutCycles` say what is recorded, for at most 4096 functions and without cancellation, and `RecordedAtLeast` in any case.  A function met again while it is being built counts as one that may return, so which members of a cycle are recorded depends on the order.
- ParameterEffects.OrderDoesNotMatter: states agreement only without call cycles and cancellation; a slot met again while it is being built has no summary yet.
- ParameterEffects.RecordedFollowsExactly: is stated for runs without cancellation; in a canceled run a recorded guarantee is shown to hold if nothing gets around the recorded deciding uses.
- EffectBorrows.RecordedBorrowHolds: is stated for runs without cancellation, and for facts that name some kind whenever they say that an effect is always performed, as searches give them.
- DependencyReload.ReloadDependencies: added imports are of packages already retained; the loading of packages that were not is an input.
- ReturnStates.StateTable.RecordedHolds: is unconditional only for executions without recovered panics and changed results; for all executions it needs the states found to be safe, since otherwise it is false (`ReturnStates.RecoveredResultIsReceived`).
- PublishedStates.PublishedHolds: facts are published under distinct functions; contracts about functions that are analyzed as well, and test variants of one function (`EffectMeet`), are not part of it.
- EffectLayers.Layers: the limits on packages, files and bytes, which end the loading with an error, are left out.
- WorkspaceFreshness.ReuseIsReanalysis: takes the disk as it is throughout a round, and group keys as the same function of path and text in every round; files that change while a round runs are not modelled.
- WorkspaceReuse.Workspace.AnalyzeWorkspace: starts from the grouped, sorted documents; per-document errors of an incomplete result, and the finding of control files, are inputs.
- FactEncoding.RestoreThenEncode: is about facts that all carry an order; where only some do, the order is left to the sort.
- FactEncoding.Encode: JSON itself is not modelled; a snapshot is its value, and whether it fits a cache entry is an input.
- CacheProtocol.GetYieldsOnlyWhatWasPut: temporary names are drawn without ever repeating, where the code draws them at random.
- SessionProtocol.RunKeepsInv: generation and clock are unbounded numbers; 64-bit wrap-around is not modelled.
- ChangedLines.MergeRanges: starts from parsed hunk headers; line numbers are unbounded.
- Baseline.Apply: portable paths, fingerprints and dates are inputs with the properties the code relies on; reading and writing JSON is not modelled.
- TargetMerge.MergedSaysWhatWasFound: a nil and an empty list are the same here, where the comparison in the code tells them apart.
- Delegation between functions that return managed results, and the testing-skip and testing-failure variants of no-return: the same memoised recursion as in `ReturnStates` and `NoReturn`, with easier meanings.
- Merging suppressed diagnostics, load diagnostics and source problems over targets: the same loop as for diagnostics, without the order.
- The ownership of whole-file transformations: it starts from a textual diff.
- Publishing facts about receivers, no-op closes and contracts: simple variants of `EffectMeet`.
- The scheduling of analyzers and facts over packages, loading and type checking.
- Configuration, reporters, the language server protocol, formatting and the rules themselves.
