# Verification of the Erg compiler and language server

This project models self-contained algorithms and protocols of the Erg compiler and its language server
in Dafny and proves what they are for. Every claim holds for all inputs, all runs or all reachable states of the model.

- **Building packages.** `Imports.dfy`, `Resolution.dfy`, `Outcome.dfy` and `Launching.dfy` hold the values, invariants
  and theorems; `BuildPackage.dfy` is the builder itself, a class whose methods update the module cache, the inline table
  and the shared graph. Resolution searches imports depth-first, refuses edges that would close a cycle, and inlines modules
  that lie on one. Launching rotates a worklist over the shrinking graph and recurses into inlined modules.
  `ModuleGraph.dfy` is the dependency graph (a vector of nodes with an index), `TopoSort.dfy` the topological sort with its
  in-place permutation, `Digraph.dfy` the graph theory under both.
- **Request scheduler.** `Scheduler.dfy` has the scheduler with atomic operations as a class, and the protocol with one step
  per lock region for any number of threads.
- **Edit distance.** `Levenshtein.dfy` proves the one-row program against edit scripts.
- **Optimizer and effect checker.** `Hir.dfy`, `Optimize.dfy` and `EffectCheck.dfy`: an expression language with a symbolic
  semantics of values and events, elimination of unused definitions, and the checker with its two stacks.
- **Editor buffers.** `Position.dfy` has positions, ranges and edits of a text, `FileCache.dfy` the file cache and the virtual file system.
- **Quick checks.** `Diff.dfy` has the one-edit difference of two chunk lists and the alignment of syntax tree and typed tree.
- **Byte code files.** `Serialize.dfy` writes and reads whole code objects with nested constants.
- **Semantic tokens.** `Semantic.dfy` has the traversal, its relative positions and their decoding, and what a name stands for.

## Where the code does not meet its purpose

Each point is a lemma with an input on which the code fails, or an if-and-only-if that names exactly when it does not.

- `Scheduler::acquire` looks up `executing` in an `if let` whose read guard, in the language edition of the workspace (2021),
  is alive in the `else` branch. There the same thread asks for the write lock, which its own guard blocks. So no task is
  ever admitted from `pending` (`SchedulerModel.HoldingNeverAdmits`), and meanwhile nobody else changes `executing`
  (`SchedulerModel.HoldingFreezes`). With the guard dropped the protocol admits (`SchedulerModel.ReleasingAdmits`).
- `acquire` removes by a position it found under an earlier lock. If in between a task that is not behind it is cancelled, or removed
  by another `acquire`, it takes another task or none. Exactly when, over any stretch of steps, is `SchedulerModel.StalePosition`;
  `SchedulerModel.WrongTaskTaken` is a run in which two calls suffice, and a request of the least urgent kind overtakes a completion.
- The task that was asked for had least priority value when the priorities were compared, but need not have it any more when it is
  removed. `SchedulerModel.RemovedWasLeast` says exactly when it has.
- The purity test of the optimizer looks at the type of a call's result, not of what is called. An unused definition whose body
  calls a procedure is dropped together with the effect (`Optimize.DroppedEffect`). Meaning is preserved exactly if no
  dropped definition contains a procedural call that would be evaluated (`Optimize.MeaningKeptIffSilent`). Public names are always kept then
  (`Optimize.PublicNamesKept`).
- The effect rule allows everything directly below two nested instant blocks, also in functions. A record attribute is such a
  place (`EffectCheck.EffectInRecord`). The exact difference to the documented rule is `EffectCheck.AllowedIffIntended`, exactly
  what is reported where is `EffectCheck.ReportedIff`, and what can happen in an accepted function is exactly counted by
  `EffectCheck.AcceptedFunction`.
- `ModuleGraph::sort` leaves an empty graph when it fails. `rename_path` leaves the path index stale unless there is nothing to
  rename, and renaming a path to itself drops the edges to it (`ModuleGraphs.RenamedIff`).
- Positions are counted by line feeds only, and one outside its line is taken as the end of the text, where the Language Server Protocol
  takes the end of the line and knows "\r\n" and "\r" as line ends too. `TextPositions.MeetsProtocolIff` says for which positions they agree,
  and `TextPositions.SpliceFailsIff` which edits panic. A change without a range, which replaces the whole text in the protocol, is
  passed over; `TextPositions.FoldMeetsProtocolIff` says for which notifications the text still follows the client's.
- `get_ranged` loses the carriage returns of line ends; it is the substring exactly if there are none in the range
  (`TextPositions.RangedIsSubstringIff`).
- Renaming a file panics in some run unless different URIs always have different paths (`EditorBuffers.RenamesNeverPanicIff`).
- `HIRDiff::fix` lowers chunks of the new version, not of the edited tree. If the new version is more than one edit away, this can break the
  alignment (`ChunkDiff.FixBreaksAlignment`); exactly when is `ChunkDiff.FixKeepsAlignedIff`.
- From version 3.11 on, cell variables are written with a kind that the reader does not expect, so that reading such a file panics
  (`Marshal.ReadsCode`).
- A semantic token whose location has no column moves the line but not the column that is remembered, and misplaces the next token of that
  line. Exactly when positions are found again is `SemanticTokens.DecodedIffInOrder`. A parameter whose pattern has no location of its own, but
  whose type specification has one, is such a token (`SemanticTokens.ParameterMisplacesNext`).

## Model

| member | source | states |
|---|---|---|
| Digraph.AddEdgeKeepsAcyclic | crates/erg_compiler/module/graph.rs:176-200 | A new edge keeps the graph acyclic exactly if its ends differ and the target does not already reach its source; this is why one refusal rule suffices |
| Digraph.SourceExists | crates/erg_compiler/build_package.rs:866-895 | In an acyclic graph every non-empty dependency-closed set has a member without dependencies, so the worklist never gets stuck |
| Digraph.TopologicalOrderAcyclic | crates/erg_common/tsort.rs:102-141 | A graph whose nodes can be listed in topological order has no cycle; this is why success of the sort rules cycles out |
| TopoSort.Dfs | crates/erg_common/tsort.rs:102-127 | For any visiting order, success extends a topological order by the node and all it needs; a cycle error proves a cycle and a key error a missing node |
| TopoSort.ReorderByKey | crates/erg_common/tsort.rs:97-100 | The nodes, a permutation of the input, come in the order of the given ids; no id is ever missing, so the unwrap cannot fail |
| TopoSort.Tsort | crates/erg_common/tsort.rs:129-141 | Succeeds exactly on acyclic graphs without dangling dependencies; the result is a permutation that represents the same graph with every node after its dependencies; each error kind occurs only with its cause |
| TopoSort.ReorderByIdx | crates/erg_common/tsort.rs:82-95 | For every permutation, position i in place ends up with the element that was at idx[i] |
| TopoSort.ChaseEnds | crates/erg_common/tsort.rs:88-90 | Following the swap table from an unplaced element climbs and ends outside the table, so the inner loop terminates |
| TopoSort.ChaseAfterMove | crates/erg_common/tsort.rs:91-92 | Recording a swap redirects exactly the chains that ended at the position just filled |
| TopoSort.TrackedAfterSwap | crates/erg_common/tsort.rs:84-93 | After each swap every element still to be placed is found at the end of its own chain, and no two chains share an end |
| TopoSort.TrackedAfterSkip | crates/erg_common/tsort.rs:85-87 | A round that is skipped keeps that tracking and its element is already in place |
| ModuleGraphs.ModuleGraph.GetNode | crates/erg_compiler/module/graph.rs:59-62 | Finds a node through the index exactly if the path is in the graph, with its dependencies |
| ModuleGraphs.ModuleGraph.Parents | crates/erg_compiler/module/graph.rs:123-127 | The remaining direct dependencies, or nothing for an unknown path |
| ModuleGraphs.ModuleGraph.DeepDependsOn | crates/erg_compiler/module/graph.rs:83-109 | True exactly if there is a path of dependencies, also on cyclic graphs, where the visited set makes the search terminate |
| ModuleGraphs.ModuleGraph.Ancestors | crates/erg_compiler/module/graph.rs:136-159 | Exactly the transitive dependencies |
| ModuleGraphs.ModuleGraph.AddNodeIfNone | crates/erg_compiler/module/graph.rs:161-170 | Adds a node without dependencies, unless it is there, and keeps index and vector consistent |
| ModuleGraphs.ModuleGraph.IncRef | crates/erg_compiler/module/graph.rs:176-200 | Fails exactly if the new edge would close a cycle between different modules, and then adds at most the referrer; a self-import adds no edge |
| ModuleGraphs.ModuleGraph.Remove | crates/erg_compiler/module/graph.rs:226-241 | Removes the node and every edge to it; the shifted index still locates every node |
| ModuleGraphs.ModuleGraph.Sort | crates/erg_compiler/module/graph.rs:219-224 | Succeeds exactly on acyclic closed graphs, with the same graph sorted and a fresh index; on failure the graph is lost |
| ModuleGraphs.ModuleGraph.RenamePath | crates/erg_compiler/module/graph.rs:243-253 | Renames nodes and edges; the index is right afterwards exactly if the old path was no node or is also the new one; names stay different exactly if the new path was no other node, and then the graph is the renamed one exactly if the paths differ or nothing depends on the old one |
| ModuleGraphs.RenamedIff | crates/erg_compiler/module/graph.rs:243-253 | The graph afterwards has the new name in place of the old one everywhere, and nothing else changed, exactly if the paths differ or nothing depended on the old one |
| Imports.AppendChunk | crates/erg_compiler/build_package.rs:433-445 | Imports, erased trees and inlined modules of a chunk list are those of its parts |
| Imports.TargetsIffOccurs | crates/erg_compiler/build_package.rs:447-579 | For every tree, the imports that are searched are exactly those at the end of some chain of parts from a chunk, however deep |
| Imports.Package.EdgeIffOccurs | crates/erg_compiler/build_package.rs:447-579 | One module imports another in the import graph exactly if such a chain in its file leads to it |
| Resolution.RefusedIffOpen | crates/erg_compiler/build_package.rs:752-767 | The graph refuses an edge from the module being searched exactly if it leads to a module in progress above it |
| Resolution.EdgeAnswer | crates/erg_compiler/build_package.rs:752-767 | The answer of the graph to a new edge tells in-progress modules from all others, and adds nothing for known ones |
| Resolution.AcceptFinished | crates/erg_compiler/build_package.rs:752-767 | An import of a finished module keeps the whole search invariant |
| Resolution.SelfImport | crates/erg_compiler/build_package.rs:752-763 | A self-import keeps the whole search invariant |
| Resolution.Refuse | crates/erg_compiler/build_package.rs:752-756 | A refused import becomes a cycle error and keeps the invariant: the error names a module in progress strictly above |
| Resolution.Push | crates/erg_compiler/build_package.rs:752-767 | Entering an unseen module keeps the invariant: modules in progress form a path in an acyclic graph |
| Resolution.PopClean | crates/erg_compiler/build_package.rs:769-785 | A module without cycle errors is finished with its source tree, in which exactly the modules inlined into it are inlined |
| Resolution.PopInline | crates/erg_compiler/build_package.rs:769-781 | A module with cycle errors is inlined into its importer, which takes over its errors but those that name itself |
| Resolution.ErrorMeansCycle | crates/erg_compiler/build_package.rs:769-781 | A module that reports a cycle error really imports, in some way, the module that imported it |
| Resolution.InlinedIntoUpdate | crates/erg_compiler/build_package.rs:769-781 | Recording one more inliner extends exactly the chains that end at the inlined module |
| Outcome.NoErrorAtRoot | crates/erg_compiler/build_package.rs:415-445 | No cycle error survives at the root: resolution succeeds for every import relation |
| Outcome.EveryImportSettled | crates/erg_compiler/build_package.rs:661-786 | Every import at any depth in every module that takes part is a graph edge, a self-import, or leads to a module the importer is inlined into, and its target takes part |
| Outcome.FinishedIffImported | crates/erg_compiler/build_package.rs:433-445 | Resolution enters exactly the modules that the root imports, directly or not |
| Outcome.ImportsAreDependencies | crates/erg_compiler/build_package.rs:661-786 | If nothing was inlined, imports between different modules are dependencies in the graph |
| Outcome.InlinedOnCycle | crates/erg_compiler/build_package.rs:769-781 | A module is inlined only into one it forms an import cycle with |
| Outcome.InlinesIffCycle | crates/erg_compiler/build_package.rs:769-781 | Something is inlined exactly if two modules that take part import each other |
| Outcome.HostExists | crates/erg_compiler/build_package.rs:903-914 | Every inlined module ends up in a module that is built |
| Outcome.InlinedOnce | crates/erg_compiler/build_package.rs:903-914 | ... and in only one, so its code is analysed once |
| Launching.ResolvedIsSound | crates/erg_compiler/build_package.rs:415-431 | What resolution leaves is all that launching relies on |
| Launching.HandleableExists | crates/erg_compiler/build_package.rs:866-895 | Some entry of the worklist has no dependency left in the graph |
| Launching.RotationCloser | crates/erg_compiler/build_package.rs:892-894 | Each rotation brings the next such entry one step closer, so the rotation terminates |
| Launching.NotYetAnalysed | crates/erg_compiler/build_package.rs:916-987 | Before a module is taken off the graph it has neither promise nor cache entry, so its launch is never skipped |
| Launching.TakeAst | crates/erg_compiler/build_package.rs:867-888 | Launching a ready module keeps the invariant: once each, after all its dependencies, also those through inlined modules |
| Launching.TakeInlined | crates/erg_compiler/build_package.rs:867-891 | Taking an inlined module keeps the invariant while its inliner's dependencies are handled |
| Launching.StaleEntry | crates/erg_compiler/build_package.rs:866-895 | An entry that a nested call already took changes nothing |
| Launching.EverythingLaunched | crates/erg_compiler/build_package.rs:827-848 | When all the root depends on is gone, no tree is left over, exactly the built modules were launched, dependencies first, and every dependency of the root has a promise |
| BuildPackage.EntryIsNew | crates/erg_compiler/build_package.rs:752-767 | A file is parsed only when it is entered for the first time, and each entry leaves strictly fewer unseen files: cyclic imports terminate |
| BuildPackage.ExitIsParsed | crates/erg_compiler/build_package.rs:769-785 | Finishing a module keeps the record that each entered file was parsed once |
| BuildPackage.RootDone | crates/erg_compiler/build_package.rs:415-431 | At the end there is no error, the parsed files are the finished modules, each once, and the main tree has exactly the modules inlined that belong into it |
| BuildPackage.PackageBuilder.Resolve | crates/erg_compiler/build_package.rs:433-445 | Searching all chunks keeps the invariant, collects exactly the cycle errors of its imports and changes the tree only by inlining |
| BuildPackage.PackageBuilder.CheckImport | crates/erg_compiler/build_package.rs:447-579 | The same for one expression, whose arguments are searched before its import; what is searched are all imports that occur in it, by Imports.TargetsIffOccurs |
| BuildPackage.PackageBuilder.Register | crates/erg_compiler/build_package.rs:661-786 | Each import is refused, found finished, or entered, with the invariant kept |
| BuildPackage.PackageBuilder.Enter | crates/erg_compiler/build_package.rs:764-767 | An unseen file is parsed once and searched with itself in progress |
| BuildPackage.PackageBuilder.Leave | crates/erg_compiler/build_package.rs:767-785 | The insertion into the module cache is always fresh; a module on a cycle is inlined instead |
| BuildPackage.PackageBuilder.Parse | crates/erg_compiler/build_package.rs:789-818 | Records the parsed file; an unreadable one is an empty module |
| BuildPackage.PackageBuilder.StartAnalysisProcess | crates/erg_compiler/build_package.rs:916-987 | Launches exactly if the module has neither promise nor cache entry |
| BuildPackage.PackageBuilder.BuildDepsAndModule | crates/erg_compiler/build_package.rs:850-900 | Terminates with everything the module depended on taken off the graph; it returns exactly the modules launched by this very call, not by those for inlined modules |
| BuildPackage.PackageBuilder.BuildInlinedModule | crates/erg_compiler/build_package.rs:903-914 | The mutual recursion terminates, keeps the invariant, and never reaches the branch for an unknown module |
| BuildPackage.PackageBuilder.Execute | crates/erg_compiler/build_package.rs:821-848 | On a sound plan every built module is launched exactly once with its own tree, dependencies first, and none is left over; the set returned is all of them exactly if none was launched for an inlined module, as when nothing is inlined |
| BuildPackage.PackageBuilder.BuildRoot | crates/erg_compiler/build_package.rs:415-431 | From empty caches, for every package: no error, every import at any depth settled, exactly the files parsed that the root imports directly or not and each once, everything launched in order, and the tables empty again |
| BuildPackage.PackageBuilder.Finalize | crates/erg_compiler/build_package.rs:343-348 | No table keeps anything of the last build |
| SchedulerModel.Scheduler.Register | crates/els/scheduler.rs:127-134 | With atomic operations, a task executes if there is a free place and waits otherwise; the limit holds |
| SchedulerModel.Scheduler.Acquire | crates/els/scheduler.rs:139-171 | One attempt admits a waiting task only into a free place and only if it has least priority value; nothing is lost; nothing is returned exactly for unknown ids |
| SchedulerModel.Scheduler.Cancel | crates/els/scheduler.rs:175-179 | Takes a task exactly if it is pending, and leaves executing tasks alone |
| SchedulerModel.Scheduler.Finish | crates/els/scheduler.rs:181-185 | Takes a task exactly if it is executing |
| SchedulerModel.StepConserves | crates/els/scheduler.rs:127-185 | No step of any thread loses or duplicates a task |
| SchedulerModel.StepKeepsBound | crates/els/scheduler.rs:127-171 | A thread is let past the length guard only while there is a place, whatever happens before it uses it |
| SchedulerModel.LocatedNotBehind | crates/els/scheduler.rs:163-168 | A located position is never before the task that was located, as long as that is pending |
| SchedulerModel.RunInv | crates/els/scheduler.rs:127-185 | The invariant holds after every run of any length with any number of threads |
| SchedulerModel.ExactlyOnePlace | crates/els/scheduler.rs:127-185 | In every run a registered task is in exactly one of pending, executing, one thread's hand, finished or cancelled |
| SchedulerModel.CancelledNeverRuns | crates/els/scheduler.rs:175-179 | A task whose cancellation succeeded is not executed, pending, finished or held, and was never admitted |
| SchedulerModel.ExecutingBounded | crates/els/scheduler.rs:127-171 | Executing tasks and threads past the guard are together at most the limit plus one less than the number of threads |
| SchedulerModel.HoldingNeverAdmits | crates/els/scheduler.rs:139-171 | With the guard of the first lookup alive, no run ever admits a pending task, and a thread that tries can only give up |
| SchedulerModel.HoldingFreezes | crates/els/scheduler.rs:139-171 | While a thread waits like this, no step of any thread changes what executes |
| SchedulerModel.ReleasingAdmits | crates/els/scheduler.rs:147-171 | With the guard dropped, a waiting task of least priority value passes both tests and gets a free place if undisturbed |
| SchedulerModel.PriorityFollowsUrgency | crates/els/scheduler.rs:67-88 | The kinds of requests are strictly ordered from completion to the rest, and every kind has its place |
| SchedulerModel.WaitsWhileOvertaken | crates/els/scheduler.rs:147-162 | Over any stretch of steps of any threads, as long as a more urgent task stays pending, a thread that waits goes on waiting |
| SchedulerModel.RemovedWasLeast | crates/els/scheduler.rs:147-168 | In every run, the task that is asked for and comes to be removed was of least priority value among the pending in a state in which its thread was waiting; it still is exactly if nothing more urgent was pushed since and is pending |
| SchedulerModel.StillLeastIff | crates/els/scheduler.rs:147-168 | Over any stretch of steps, nothing pending has become more urgent than a task of least priority value exactly if no more urgent task pushed in it is pending in the end |
| SchedulerModel.StaysRightIff | crates/els/scheduler.rs:163-168 | Any step of another thread or client leaves a located position right exactly if it was right and the step takes no pending task from up to that position |
| SchedulerModel.StalePosition | crates/els/scheduler.rs:163-168 | Over any stretch of steps of others between locating and removing, the task asked for is taken exactly if none of them takes out a pending task that is not behind it, by cancelling or by another acquire |
| SchedulerModel.WrongTaskTaken | crates/els/scheduler.rs:139-171 | From the start a run of two threads without any cancellation reaches a state in which one takes a task it was not asked for, of the least urgent kind, while a completion is pending from before anyone asked until after, whether or not the guard of the first lookup is alive |
| EditDistance.DistIsLowerBound | crates/erg_common/levenshtein.rs:6-41 | No edit script between two words costs less than the recursive distance |
| EditDistance.DistAttained | crates/erg_common/levenshtein.rs:6-41 | Some edit script costs exactly that |
| EditDistance.DistSymmetric | crates/erg_common/levenshtein.rs:6-41 | The distance is symmetric |
| EditDistance.DistAtLeastLengths | crates/erg_common/levenshtein.rs:13-20 | It is at least the difference in length, which makes the early exits right |
| EditDistance.EqualTakesDiagonal | crates/erg_common/levenshtein.rs:30-31 | After equal characters the diagonal is never worse than the other two ways |
| EditDistance.NextRow | crates/erg_common/levenshtein.rs:24-38 | One pass over the single row turns the distances of one prefix into those of the next, in place |
| EditDistance.Levenshtein | crates/erg_common/levenshtein.rs:6-41 | The distance if it is within the limit, and nothing exactly if it is not |
| EditDistance.GetSimilarName | crates/erg_common/levenshtein.rs:43-59 | A candidate is returned exactly if one is strictly below the limit, and it is the first nearest one |
| Optimize.EliminateChunks | crates/erg_compiler/optimize.rs:30-35 | In place, at every place of every chunk, a definition is there afterwards exactly if it must stay, and is a dummy otherwise; everything else keeps all but its parts |
| Optimize.TreatedEverywhere | crates/erg_compiler/optimize.rs:37-73 | The same for one tree: what must stay is what is public, discarded, star-imported, referenced or unknown to the index, or has something procedural in a tested part |
| Optimize.DropsIff | crates/erg_compiler/effectcheck.rs:519-593 | A definition is dropped exactly if none of these holds; impure means that a chain of tested parts leads to a call that returns a procedure, a procedural lambda or a procedural definition |
| Optimize.EffectsCount | crates/erg_compiler/optimize.rs:37-73 | In every environment an expression causes as many events as it has evaluated procedural calls |
| Optimize.RunAgrees | crates/erg_compiler/optimize.rs:44-52 | Environments that differ only in unused definitions give the same values and events |
| Optimize.SilentKeepsMeaning | crates/erg_compiler/optimize.rs:37-73 | If what is dropped causes no event, elimination keeps values, events and every name but those of dropped definitions |
| Optimize.SameMeaningIsSilent | crates/erg_compiler/optimize.rs:37-73 | If values and events are kept, nothing that was dropped causes an event |
| Optimize.MeaningKeptIffSilent | crates/erg_compiler/optimize.rs:30-73 | A module keeps chunk values, events and the final value of every name but those of dropped definitions exactly if no dropped definition has an evaluated procedural call |
| Optimize.PublicNamesKept | crates/erg_compiler/optimize.rs:39-52 | Then every public, discarded, star-imported or referenced name has its value in the end |
| Optimize.DroppedEffect | crates/erg_compiler/effectcheck.rs:519-593 | A private unused definition that calls a procedure is dropped, and its event is lost |
| Optimize.EliminatedTwice | crates/erg_compiler/optimize.rs:37-73 | A second pass finds nothing more to do |
| EffectCheck.SideEffectChecker.CheckExpr | crates/erg_compiler/effectcheck.rs:333-491 | Both stacks are as before, and exactly the errors of the expression, in traversal order, are added |
| EffectCheck.SideEffectChecker.CheckDef | crates/erg_compiler/effectcheck.rs:258-310 | The same for a definition, whose block and name are closed again; which errors these are, by its own flags, is EffectCheck.ReportedIff |
| EffectCheck.SideEffectChecker.CheckParams | crates/erg_compiler/effectcheck.rs:224-256 | The same for parameters: a procedure without its mark is an error, and defaults are checked |
| EffectCheck.SideEffectChecker.CheckCall | crates/erg_compiler/effectcheck.rs:407-433 | The same for a call, its constructor check, callee and arguments |
| EffectCheck.SideEffectChecker.CheckBinOp | crates/erg_compiler/effectcheck.rs:437-450 | The same for a binary operation; an identity test is an effect |
| EffectCheck.SideEffectChecker.CheckLambda | crates/erg_compiler/effectcheck.rs:451-466 | The same for a lambda, a block of its own |
| EffectCheck.SideEffectChecker.CheckRecord | crates/erg_compiler/effectcheck.rs:377-386 | The same for a record, an instant block around its attributes |
| EffectCheck.ReportsForbidden | crates/erg_compiler/effectcheck.rs:333-491 | The errors are, in order and each as often, the verdicts on the visited places, which follow from the enclosing expressions and not from the block stack |
| EffectCheck.ReportedIff | crates/erg_compiler/effectcheck.rs:224-515 | For every tree, from module level, an error of any kind is reported exactly if visited parts lead to its culprit: effects, foreign mutable variables and constructors if the nearest lambda, constant or subroutine around is not a procedure and fewer than two variables or records are in between; procedures under plain names anywhere |
| EffectCheck.ForbiddenIffInFunction | crates/erg_compiler/effectcheck.rs:68-87 | The rule on the two innermost blocks forbids effects exactly in functions in that sense, for every nesting |
| EffectCheck.AllowedIffIntended | crates/erg_compiler/effectcheck.rs:68-87 | The checked rule is the documented one, except that everything goes directly below two nested instant blocks |
| EffectCheck.AcceptedEffects | crates/erg_compiler/effectcheck.rs:333-491 | In a function an accepted expression has no evaluated procedural call but in unvisited parts and below two instant blocks |
| EffectCheck.AcceptedFunction | crates/erg_compiler/effectcheck.rs:258-310 | Running the body of an accepted function causes exactly those events, in every environment |
| EffectCheck.EffectInRecord | crates/erg_compiler/effectcheck.rs:377-386 | A procedural call in a record attribute in a function is accepted without any error, and happens |
| TextPositions.PosToByteIndex | crates/els/util.rs:143-162 | The index of a position, or the end of the text for a position outside it |
| TextPositions.IndexOfPosition | crates/els/util.rs:143-162 | Finding the index of a position undoes taking the position of an index |
| TextPositions.OrderedIndices | crates/els/util.rs:143-162 | Positions of the text are ordered exactly as their indices are |
| TextPositions.GetRanged | crates/els/file_cache.rs:239-272 | Collecting the range line by line gives the contributions of the lines, up to the first failure |
| TextPositions.RangedText | crates/els/file_cache.rs:239-272 | For ordered positions of the text: the text between their two indices without the carriage returns of line ends, or exactly which failure if a position is inside a line end |
| TextPositions.RangedIsSubstringIff | crates/els/file_cache.rs:239-272 | The two ways to cut a range agree exactly if no line end in it has a carriage return |
| TextPositions.ReplaceRange | crates/els/file_cache.rs:347-355 | The text between two indices is replaced, unless the end comes before the start |
| TextPositions.SpliceFailsIff | crates/els/file_cache.rs:314-316 | An edit panics exactly if its end is in the text and its start is later, or is outside the text |
| TextPositions.FoldChanges | crates/els/file_cache.rs:347-355 | The changes of a notification are applied one by one to the text so far; those without a range are passed over |
| TextPositions.MeetsProtocolIff | crates/els/util.rs:143-162 | For every line of every text, with all three line ends of the protocol, the index is the protocol's exactly if the position is in the text and only line feeds lead up to it, or is a column at or past the end of the last line |
| TextPositions.FoldMeetsProtocolIff | crates/els/file_cache.rs:347-355 | For every notification with valid ranges, the text is the client's after every change exactly if each change that replaces the whole text repeats it as it is |
| EditorBuffers.VirtualFileSystem.Update | crates/erg_common/vfs.rs:25-28 | Stores a text under a path and leaves the others alone |
| EditorBuffers.VirtualFileSystem.Rename | crates/erg_common/vfs.rs:43-48 | Moves a text that must be there |
| EditorBuffers.VirtualFileSystem.Read | crates/erg_common/vfs.rs:50-60 | A stored text wins over the disk; a file read from disk is stored |
| EditorBuffers.FileCache.Update | crates/els/file_cache.rs:274-307 | Replaces text, version and tokens in both places, unless a given version is not newer |
| EditorBuffers.FileCache.RangedUpdate | crates/els/file_cache.rs:309-329 | Edits text and tokens in both places and keeps the version; on a panic nothing has changed |
| EditorBuffers.FileCache.IncrementalUpdate | crates/els/file_cache.rs:331-367 | A newer notification edits text and tokens in both places and sets the version; an older one changes nothing |
| EditorBuffers.FileCache.LoadOnce | crates/els/file_cache.rs:93-100 | A file that is not open is read from disk once |
| EditorBuffers.FileCache.Remove | crates/els/file_cache.rs:370-373 | Forgets the file in both places |
| EditorBuffers.FileCache.RenameFiles | crates/els/file_cache.rs:375-396 | On coherent buffers every rename finds its text, so the unwrap never fails, and the buffers stay coherent |
| EditorBuffers.AppliedCoherent | crates/els/file_cache.rs:274-396 | Every operation keeps tokens, text and file system together |
| EditorBuffers.RunCoherent | crates/els/file_cache.rs:274-396 | So does every sequence of operations, and no rename in it panics |
| EditorBuffers.BuffersFollowHistory | crates/els/file_cache.rs:274-396 | After every run, a file is open under a URI exactly if the history of that URI says so, with the text, version and tokens it says, and the file system has the same text; the history follows opening, changes, closing and renames back operation by operation |
| EditorBuffers.HistoryFollowsProtocol | crates/els/file_cache.rs:331-367 | For a client whose ranges are of its text and whose whole-text changes repeat it, that text is the one the protocol gives, at any time and under every name |
| EditorBuffers.OldNameIsGone | crates/erg_common/vfs.rs:38-48 | After closing or renaming, neither the cache nor the file system knows the old name |
| EditorBuffers.ReadsEditedText | crates/erg_common/vfs.rs:50-60 | After any run, reading an open file gives its edited text, whatever is on disk |
| EditorBuffers.RenamesNeverPanicIff | crates/erg_common/vfs.rs:43-48 | No run makes a rename panic exactly if different URIs have different paths |
| EditorBuffers.VersionsNeverDecrease | crates/els/file_cache.rs:274-367 | Over any run without removals and renames, open files stay open and versions never go back |
| EditorBuffers.StaleChangesNothing | crates/els/file_cache.rs:276-282 | A version that is not newer changes nothing, and a newer one is the version afterwards |
| ChunkDiff.FirstMismatch | crates/els/diff.rs:46-49 | The first place where two lists differ, or one list begins the other |
| ChunkDiff.Chunks.Update | crates/els/diff.rs:72-93 | Applies an edit in place, ignoring or clipping an index out of range |
| ChunkDiff.OneEditIff | crates/els/diff.rs:40-66 | The edit leads to the new version exactly if some single edit does, however repeated the chunks are |
| ChunkDiff.EditAtMismatch | crates/els/diff.rs:40-93 | With a mismatch, whatever the lengths, the edited list agrees with the new one up to it, and with the chunk taken over unless one is removed; the rest is that of the old list |
| ChunkDiff.EditWithoutMismatch | crates/els/diff.rs:40-93 | If one list begins the other, the last chunk of the new list is put at the end or the last of the old one is removed |
| ChunkDiff.EditGetsCloser | crates/els/diff.rs:40-93 | Every edit brings the lists strictly closer |
| ChunkDiff.ReachesNewVersion | crates/els/diff.rs:40-93 | Repeated edits reach the new version within its length plus the difference in length, and then there is nothing to do |
| ChunkDiff.Fix | crates/els/diff.rs:168-186 | In place, a chunk is lowered again exactly if it has a failure and the new chunk at its place has its name and can be lowered; all others stay, and the replaced ones are counted |
| ChunkDiff.QuickCheck | crates/els/diagnostics.rs:285-306 | Either both trees are edited or none is, and then the typed tree is fixed |
| ChunkDiff.EditKeepsAligned | crates/els/diff.rs:116-166 | Editing the typed tree with the lowered edit keeps every typed chunk a lowering of its syntax chunk |
| ChunkDiff.FixKeepsAlignedIff | crates/els/diff.rs:168-186 | Fixing keeps this exactly if every chunk it replaces is the same in the new version and in the edited tree |
| ChunkDiff.FixFromOwnTree | crates/els/diff.rs:168-186 | With the chunks of the edited tree in place of the new version, fixing would always keep it |
| ChunkDiff.FixBreaksAlignment | crates/els/diagnostics.rs:298-302 | A version two edits away with a failed chunk of the same name breaks it |
| ChunkDiff.QuickCheckReaches | crates/els/diagnostics.rs:285-303 | A version one edit away whose changed chunk can be lowered is reached with both trees aligned |
| ChunkDiff.RunStaysAligned | crates/els/diagnostics.rs:285-303 | Over any run of such checks the syntax tree follows the text and the typed tree follows the syntax tree |
| Marshal.U32RoundTrip | crates/erg_compiler/ty/deserialize.rs:146-160 | Four bytes give back a number modulo their range |
| Marshal.StrsIntoBytes | crates/erg_common/serialize.rs:136-149 | The loop writes the header of the right width and all names in order |
| Marshal.ReadsStrValue | crates/erg_common/serialize.rs:151-166 | Reading a written string gives it back with exactly the bytes after it, for short and long, plain and other, interned and not |
| Marshal.StrReadsBackIff | crates/erg_common/serialize.rs:151-166 | A string comes back exactly if its length fits into 32 bits |
| Marshal.StrPrefixFree | crates/erg_common/serialize.rs:151-166 | No written string begins another: equal bytes mean equal strings and equal rests |
| Marshal.ReadsStrs | crates/erg_common/serialize.rs:136-149 | Reading a written list of names gives it back with the bytes after it |
| Marshal.StrsPrefixFree | crates/erg_common/serialize.rs:136-149 | The same uniqueness for lists of names, across both widths of count and length |
| Marshal.PartitionOf | crates/erg_compiler/ty/deserialize.rs:291-320 | Local and free variables are sorted back by kind; any cell variable stops the reader |
| Marshal.ReadsLocals | crates/erg_compiler/ty/codeobj.rs:432-458 | Local variables come back for every version, but panic from 3.11 on exactly if there are cell variables |
| Marshal.ReadsCode | crates/erg_compiler/ty/codeobj.rs:338-430 | Reading a written code object gives its normal form for the version, or panics exactly if the version is 3.11 or later and it has cell variables somewhere |
| Marshal.ReadsBack | crates/erg_compiler/ty/value.rs:1425-1460 | The same for every nesting of constants and code |
| Marshal.MagicRoundTripIff | crates/erg_common/serialize.rs:19-26 | A magic number comes back exactly if it has two bytes |
| Marshal.MagicNumIs | crates/erg_common/serialize.rs:19-22 | For every version number of two bytes, these come first and 0x0D, 0x0A after them |
| Marshal.PycRoundTrip | crates/erg_compiler/ty/codeobj.rs:325-336 | A written file is read with the version of its magic number, with the same exception |
| Marshal.CountsLayout | crates/erg_compiler/ty/codeobj.rs:395-406 | Found by their place in the bytes, the numbers of a code object are in the order of the version's format, five or six of them |
| Marshal.PycLayout | crates/erg_common/serialize.rs:8-15 | Found by their place, a file has its magic number, the time between two empty words, and the letter of a code object |
| SemanticTokens.DecodedIffInOrder | crates/els/semantic.rs:97-114 | For marks with locations of any kind, decoding gives back every known position exactly if no line goes back before a column, and in the same line no column goes back, or, if a location without a column has moved on to that line, one of the two columns is 0 |
| SemanticTokens.TokenKept | crates/els/semantic.rs:97-114 | A token has the type of its mark and covers the columns of its location |
| SemanticTokens.BelowForEver | crates/els/semantic.rs:97-114 | Once a location without a column has gone back a line, no column after it is found |
| SemanticTokens.ParameterMisplacesNext | crates/els/semantic.rs:261-284 | After a parameter whose pattern has no location but whose type has one, the next name of that line is misplaced exactly if neither it nor the last column before is at the start of its line |
| SemanticTokens.ASTSemanticState.GenToken | crates/els/semantic.rs:97-114 | A token is relative to the one before, and known coordinates are remembered |
| SemanticTokens.ASTSemanticState.GetVariableType | crates/els/semantic.rs:39-50 | The innermost namespace that has the name decides |
| SemanticTokens.ASTSemanticState.GenFromBlock | crates/els/semantic.rs:261-284 | Parameters and chunks are emitted in order, and the namespace of the block is gone afterwards |
| SemanticTokens.ASTSemanticState.GenFromDef | crates/els/semantic.rs:164-193 | The name is bound outside the block, then decorators, parameters and body are emitted |
| SemanticTokens.ASTSemanticState.GenFromExpr | crates/els/semantic.rs:140-162 | Exactly the marks of the expression are emitted, relative to each other, with the namespaces they leave behind |
| SemanticTokens.ASTSemanticState.EnumerateTokens | crates/els/semantic.rs:58-67 | From a fresh state, exactly the tokens of the text are emitted in order, every name with its last binding, and the namespace stack has its depth back |
| SemanticTokens.OuterNamesKept | crates/els/semantic.rs:140-284 | No traversal changes any namespace but the innermost |
| SemanticTokens.NamesByLastBinding | crates/els/semantic.rs:39-56 | For every module, a name has the type of its last binding before it, looked for backwards past blocks that have ended, and is a variable without any |
| SemanticTokens.TokenIffInTree | crates/els/semantic.rs:140-284 | A location has a token exactly if a chain of parts from a chunk leads to an expression that has it itself, however deep |
| SemanticTokens.MarksWithin | crates/els/semantic.rs:140-284 | A tree laid out from left to right emits its tokens in order and within its own stretch of text |
| SemanticTokens.ModuleDecoded | crates/els/semantic.rs:58-67 | All tokens of such a module are decoded to their own positions |

## Left out

Behaviour that is not modelled:

- Import of `foo` for `foo/bar`, declaration files generated for Python modules, and the lookup of import paths (`register`): they depend on directories and other processes. The file an import leads to is given.
- Parsing, lexing, type checking and lowering: files come parsed, the lexer is a function, and a lowerer is any course of results, which may differ for the same chunk from one lowering to the next.
- Real threads in building: a launch appends to a log, and finished analyses may add to the module cache at any point between.
- Module caches that are not empty at the start, progress output, and the list of cyclic modules, which nothing else reads.
- Graphs with two nodes of the same id in the topological sort.
- Time-outs of locks in the scheduler, other than the panic of a thread that can never get its lock; the yield between attempts of `acquire`.
- The square root in `get_similar_name`: the limit is given.
- Nested trees in the optimizer are rewritten as values; only one list of chunks is rewritten in place. A definition that the reference index does not know is kept, where the source panics. Parameter defaults have no events. Removal of discarded variables.
- The loop over top-level chunks in `check` of the effect checker, and the texts of its errors.
- Characters of more than one byte in positions, and URIs that are not files.
- Reading the disk, the outgoing messages of the language server, and missing syntax or typed trees in a quick check.
- Values that cannot be serialized, where the source panics; validity of UTF-8 when reading; the caches of the reader. Floats are their 64 bits.
- The underflow of the length of a token that ends in an earlier column than it begins; literals by token kind.

Contracts that say less than the source promises:

- SchedulerModel.Scheduler.Acquire: one attempt, without the loop that repeats it.
- ChunkDiff.QuickCheck: the two trees are different objects.
- Marshal.ReadsCode: bytes are taken as a value and the rest is returned, where the source consumes a vector in place.
