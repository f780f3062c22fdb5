# StrykerJS in Dafny

StrykerJS is a mutation testing tool.  It instruments a project once with all mutants, switches them on one at a
time, runs the tests that can find them, and reports which ones no test finds.  This project models the parts of it
whose correctness is not visible in any single function, and proves what they promise.

- **Mutant schemata** (`Ast`, `Semantics`, `Simulation`, `Placers`, `Instrumenter`, `Meaning`, `Schemata`, `Paths`,
  `Transformer`, `Placement`, `NearestPlaces`, `Collection`).  A small language of expressions, statements, loops,
  exceptions, switches and functions with a deterministic evaluator, the three placers, and the traversal.
  `Transformer.Traversal` is the traversal as the source runs it, with a tree that is rewritten in place and a
  placement map; it is proved to compute `Instrumenter.Visit`, about which the meaning preservation theorem of
  `Schemata` is stated.  Which expressions can carry a switch, what the mutators yield, what is ignored and what
  operators mean are arbitrary functions.  Everything that the mutators yield in the selected ranges is collected,
  and every mutant has one switch, on the nearest node that can carry it.
- **Coverage and test selection** (`Coverage`, `Planner`).  The counters of the runtime header, their inversion, and
  the planner.  The result ties the tests that are selected, from the counters of the header itself, to the program
  with the mutant made by hand.
- **Incremental mode** (`Locations`, `FileDiff`, `Drifts`, `Reuse`).  The walk over an edit script that relocates
  mutants and tests, the exact conditions under which its arithmetic is right, and when a result may be reused.
- **TypeScript checker** (`ImportGraph`, `CheckGroups`, `TypeChecker`).  Closures over an import graph with cycles, the
  greedy partition into groups, and blaming errors on mutants, over a compiler that is an arbitrary function of the
  file contents.
- **Lifecycle protocols** (`Environment`, `Pool`, `ChildProcess`, `Replies`, `Sandbox`, `Pipeline`).  Each is a state
  machine whose invariants and progress are proved over all runs, and classes with the fields of the source whose
  methods are proved to be its steps.
- **Text positions** (`PositionConverter`, `Svelte`).

`hide` statements in proofs only limit what the verifier unfolds.  `{:induction false}` marks lemmas whose proof is
their body.

Where the code does not do what its own documentation or the design suggests, the code is modelled, a lemma shows an
input for which it fails, and another one says exactly when it does not:

- relocation of an item over several lines when text is added on its first line
  (`FileDiff.MultiLineItemIsMisplaced`; `FileDiff.OneAdditionExactIff`, `FileDiff.OneRemovalExactIff`, and for any
  script `Drifts.RelocationIsExactIff`);
- reuse of results of static mutants (`Reuse.StaleStaticSurvivor`, `Reuse.StaleStaticKill`,
  `Reuse.ReusedKillIsRightIff`, `Reuse.ReusedSurvivorIsRightIff`, `Reuse.StaticSurvivorIsRightIff`);
- a dry run, and a retry with the same options object, after a static mutant
  (`Environment.DryRunAfterStaticIsUnsafe`, `Environment.RunsAreSafeIff`, `Environment.RetryIsConsistentIff`);
- a group result that names a mutant twice (`Pipeline.RepeatedIdIsReportedTwice`, `Pipeline.ExecuteSingleChecker`);
- a template expression that is named like a placeholder (`Svelte.CollidingExpressionIsMisplaced`,
  `Svelte.CollidingExpressionIsTypeScript`, `Svelte.RemapIsFaithfulIff`);
- a call in progress when a child process is disposed (`ChildProcess.KilledCallIsSettledIff`), an item that is
  scheduled on a disposed pool (`Pool.ScheduledTooLate`), and a file that is written after the backup was moved back
  (`Sandbox.WriteAfterDisposeIff`).

## Model

| member | source | states |
|---|---|---|
| `Placers.PlaceExpression` | packages/instrumenter/src/mutant-placers/expression-mutant-placer.ts:125-137 | The loop builds one conditional per mutant around the covered original, the last mutant outermost. |
| `Placers.PlaceStatement` | packages/instrumenter/src/mutant-placers/statement-mutant-placer.ts:18-27 | The loop builds one if statement per mutant around a block that covers first; a block statement stays a block. |
| `Placers.PlaceCase` | packages/instrumenter/src/mutant-placers/switch-case-mutant-placer.ts:22-31 | The same around the consequents of a case, whose test is kept. |
| `Placers.PlacedExpressionRuns` | packages/instrumenter/src/mutant-placers/expression-mutant-placer.ts:125-137 | Run with any mutant active, a placed expression has the effect of the copy of that mutant if it is placed there, and otherwise the effect of the original after exactly one count for every mutant placed there. |
| `Placers.PlacedStatementRuns` | packages/instrumenter/src/mutant-placers/statement-mutant-placer.ts:18-27 | The same for a placed statement, including break, continue, return and throw out of it. |
| `Placers.PlacedCaseRuns` | packages/instrumenter/src/mutant-placers/switch-case-mutant-placer.ts:22-31 | The same for the body of a placed switch case. |
| `Meaning.VisitMeans` | packages/instrumenter/src/transformers/babel-transformer.ts:67-146 | At every node of the walk: as long as the active mutant waits for an ancestor the rewritten node behaves like the original and the waiting copy like the mutated original; once it is placed the node itself behaves like the mutated original. |
| `Schemata.InstrumentedBehavesLikeMutant` | packages/instrumenter/src/transformers/babel-transformer.ts:67-146 | For every program, placeability predicate, set of mutators, set of ranges, driver, operator meaning, state and fuel: the instrumented program with a mutant active completes with the same value, exception and state as the program in which only the node of that mutant is replaced. |
| `Schemata.InstrumentedBehavesLikeOriginal` | packages/instrumenter/src/transformers/babel-transformer.ts:67-146 | With no mutant active it completes like the original. |
| `Schemata.UncoveredMutantHasNoEffect` | packages/instrumenter/src/util/syntax-helpers.ts:38-67 | If a run without an active mutant does not count mutant m, activating m changes nothing in that run. |
| `Schemata.UncoveredMutantSurvives` | packages/instrumenter/src/util/syntax-helpers.ts:38-67 | Such a run is also the same in the program into which mutant m is made by hand. |
| `Schemata.EveryMutantIsPlaced` | packages/instrumenter/src/transformers/babel-transformer.ts:94-112 | No mutant of a file is left without a place, so the exception for unplaced mutants is never thrown. |
| `Schemata.IdsAreDense` | packages/instrumenter/src/transformers/mutant-collector.ts:22-26 | The ids of all mutants of all files are 0, 1, 2, ... in the order of collection. |
| `Instrumenter.VisitNumbers` | packages/instrumenter/src/transformers/mutant-collector.ts:22-26 | Within a tree the ids are dense as well, and the mutants that wait on a node wait in the order of their ids. |
| `Instrumenter.PruningRefinesFullTraversal` | packages/instrumenter/src/transformers/babel-transformer.ts:117-131 | In a tree whose children lie within their parents, skipping the subtrees outside the ranges yields the same tree, mutants and numbers as visiting every node. |
| `Collection.CollectionIsComplete` | packages/instrumenter/src/transformers/babel-transformer.ts:117-158 | For every tree and every set of ranges: the walk collects, for each node that is included in a range and whose ancestors all are no type nodes and overlap a range, everything that the mutators yield for it, each as often as it is yielded, in the order of the walk, and nothing else. |
| `Collection.EveryMutableIsCollected` | packages/instrumenter/src/transformers/babel-transformer.ts:163-178 | In terms of one node on a path: each of its mutables has a mutant with that original, that replacement and that ignored flag. |
| `Collection.OnlyMutablesAreCollected` | packages/instrumenter/src/transformers/babel-transformer.ts:151-158 | Every collected mutant comes from such a node and one of its mutables. |
| `Locations.IncludedIff` | packages/instrumenter/src/util/syntax-helpers.ts:209-214 | A location is included in a range exactly when all its positions are. |
| `Locations.OverlapsIff` | packages/instrumenter/src/util/syntax-helpers.ts:219-223 | Two locations overlap exactly when some position lies in both. |
| `Placement.MutantsAreConserved` | packages/instrumenter/src/transformers/babel-transformer.ts:136-158 | The mutants of any subtree that are not ignored are those with a switch on the way to the original code in it and those handed to an ancestor, each as often as it was collected. |
| `Placement.EveryMutantHasOneSwitch` | packages/instrumenter/src/transformers/babel-transformer.ts:94-146 | In a whole file every mutant that is not ignored has exactly one such switch, and no other id has one. |
| `NearestPlaces.VisitBuilds` | packages/instrumenter/src/transformers/babel-transformer.ts:67-87 | The instrumented tree is the original with certain entries placed on each of its nodes, children first, and nothing else changed. |
| `NearestPlaces.SwitchIsOnNearestPlace` | packages/instrumenter/src/transformers/babel-transformer.ts:94-112 | For every mutant that is not ignored, mutated at a path: it is among the entries of a node if and only if that node is the nearest one, from the mutated node upwards, that can carry a switch (a statement, a switch case, or an expression that is valid for it or whose parent is no expression), and it waits above the tree if and only if no node on the way can. |
| `NearestPlaces.EveryMutantHasAPlace` | packages/instrumenter/src/transformers/babel-transformer.ts:94-112 | In a whole file there is always such a node, so each of these mutants is placed there and on no other node. |
| `Placement.MutatedIsApplied` | packages/instrumenter/src/mutant.ts:54-76 | With unique node keys, searching the mutated node by type and location and replacing it gives exactly the tree in which that node and nothing else is replaced; the search never fails. |
| `Placement.TransformFile` | packages/instrumenter/src/transformers/babel-transformer.ts:67-87 | Run on a whole file, the traversal with its placement map computes the tree and the mutants of the functional description that the theorems are about; what it collects is exactly what the mutators yield for all selected nodes of the file, in the order of the walk, with running ids, and exactly the mutants that are not ignored have one switch each. |
| `Paths.ApplyTo` | packages/instrumenter/src/mutant.ts:58-74 | The search with its `applied` flag replaces the first node, in source order, with the wanted key, and says whether there is one. |
| `Transformer.Traversal.CollectMutants` | packages/instrumenter/src/transformers/babel-transformer.ts:151-158 | Everything that the mutators yield for a node that is included in a range is collected, in order, with running ids; exactly those that are not ignored are handed on. |
| `Transformer.Traversal.FindPlacement` | packages/instrumenter/src/transformers/babel-transformer.ts:95-95 | The place of a mutant is the nearest ancestor-or-self in the placement map. |
| `Transformer.Traversal.ApplyMutant` | packages/instrumenter/src/mutant.ts:54-76 | In the partly instrumented tree the search by key meets the mutated node itself. |
| `Transformer.Traversal.RegisterInPlacementMap` | packages/instrumenter/src/transformers/babel-transformer.ts:94-102 | Only the entry of the nearest place grows, by the copies of the new mutants, in order. |
| `Transformer.Traversal.Traverse` | packages/instrumenter/src/transformers/babel-transformer.ts:67-87 | Entering, visiting and leaving a node rewrites the tree at that node only, appends to the collector, and leaves for an ancestor exactly the mutants that could not be placed below it. |
| `Coverage.RuntimeHeader.Count` | packages/instrumenter/src/util/syntax-helpers.ts:41-50 | Every argument adds one to its counter, in the slot of the current test or else in the static one; no other slot changes. |
| `Coverage.RuntimeHeader.IsMutantActive` | packages/instrumenter/src/util/syntax-helpers.ts:56-64 | Only the active mutant counts hits, and the hit beyond the limit throws. |
| `Coverage.TestCoverage.From` | packages/core/src/mutants/test-coverage.ts:67-101 | A mutant is covered by exactly the known tests that counted it, and its hits are the sum of all counters. |
| `Coverage.TestCoverage.AddCoverage` | packages/core/src/mutants/test-coverage.ts:51-58 | Exactly the known ones of the given tests are added. |
| `Coverage.RuntimeHeader.Replay` | packages/instrumenter/src/util/syntax-helpers.ts:38-53 | The cover calls of a run add to each counter of the current slot as often as the run covers the mutant, and change no other slot; a test with an empty id counts in the static slot. |
| `Planner.DryRun` | packages/instrumenter/src/util/syntax-helpers.ts:38-53 | The counters that the header holds after loading and all tests, each with its id set, are those of that dry run: every test in its own slot, loading and tests with an empty id in the static one. |
| `Planner.MutantTestPlanner.PlanMutant` | packages/core/src/mutants/mutant-test-planner.ts:66-168 | Which mutants get an early result, which tests are selected for the others, and when they are active: the activation is static, and the environment reloaded, exactly when no tests are selected.  The time-out is the factor times the total time of the tests that are run, plus the two constants, so that it is not below that time; the hit limit is a hundred times the hits. |
| `Planner.CalculateTotalTime` | packages/core/src/mutants/mutant-test-planner.ts:247-253 | The time of a set of tests does not depend on the order in which they are added up. |
| `Planner.TotalTimeIsSum` | packages/core/src/mutants/mutant-test-planner.ts:247-253 | No tests take no time, and every further test adds its own; the total is not below the time of any of them. |
| `Planner.SelectionIsSound` | packages/core/src/mutants/mutant-test-planner.ts:78-97 | For a mutant that is not static, running only the selected tests kills it exactly when running all tests does. |
| `Planner.VerdictIsReal` | packages/core/src/mutants/mutant-test-planner.ts:78-97 | The verdict of the instrumented project is that of the project with the mutant made by hand. |
| `Planner.PlannedRunFindsMutant` | packages/core/src/mutants/mutant-test-planner.ts:78-97 | Both together: the planned run kills exactly the mutants that some test, or loading, would find in the project with the mutant made by hand. |
| `Planner.FilterLosesNothing` | packages/core/src/mutants/mutant-test-planner.ts:78-97 | With the mutant switched on after loading, the selected tests find what all tests with an id find, also for a static mutant. |
| `Planner.PlanAndSelect` | packages/core/src/mutants/mutant-test-planner.ts:66-103 | From the counters that the runtime header collects in the dry run, through the inverted coverage and the planner, to the verdict: the planned run, which may also be that of a static mutant with a reload, kills exactly the mutants that the project with the mutant made by hand would be killed for; a static mutant under `ignoreStatic` is judged exactly by what the tests find once it is switched on after loading.  The time that the plan allows for is that of the tests that it runs. |
| `Planner.NoCoverageMeansSurvival` | packages/core/src/process/4-mutation-test-executor.ts:98-104 | Reporting a mutant without coverage as such is right: no test would find it. |
| `FileDiff.CalculateOffset` | packages/core/src/mutants/incremental-differ.ts:470-481 | The loop yields the number of line breaks and the number of characters behind the last one. |
| `FileDiff.OffsetMeans` | packages/core/src/mutants/incremental-differ.ts:470-481 | The position at the end of a text: the line is the number of line breaks, the column the number of characters behind the last one. |
| `FileDiff.VisitItem` | packages/core/src/mutants/incremental-differ.ts:388-423 | What one edit does to one item: drop it, finish it, or shift it. |
| `FileDiff.PerformFileDiff` | packages/core/src/mutants/incremental-differ.ts:372-428 | The walk over edits and items keeps the items that survive one by one; kept plus removed is the number of items. |
| `FileDiff.AddIsExactIff` | packages/core/src/mutants/incremental-differ.ts:493-502 | The exact condition under which shifting an item behind added text gives its place in the new text. |
| `FileDiff.RemoveIsExactIff` | packages/core/src/mutants/incremental-differ.ts:493-502 | The same for removed text. |
| `FileDiff.TouchedIff` | packages/core/src/mutants/incremental-differ.ts:391-395 | The step by step test for being touched agrees with a description by offsets into the old text. |
| `FileDiff.RelocationIsExact` | packages/core/src/mutants/incremental-differ.ts:372-428 | For whole-line edits, and for edits without a line break when the item is on one line: an item is dropped if and only if some edit touches it, and otherwise its new location slices the same text. |
| `FileDiff.ReportIsRelocated` | packages/core/src/mutants/incremental-differ.ts:372-428 | For all items of a report at once: the kept items are exactly the untouched ones, at their new locations, and as many are dropped as are touched. |
| `FileDiff.OneAdditionExactIff` | packages/core/src/mutants/incremental-differ.ts:388-399 | For any file with one addition, the relocation of an item behind it is right if and only if the condition holds. |
| `FileDiff.OneRemovalExactIff` | packages/core/src/mutants/incremental-differ.ts:400-412 | For any file with one removal, the relocation of an item behind it is right if and only if the condition holds. |
| `Drifts.RelocationIsExactIff` | packages/core/src/mutants/incremental-differ.ts:372-428 | For every edit script and every item that no edit touches: it gets the location of the same characters in the new text if and only if it is neither dropped nor finished before the walk has reached its end, and the column errors of its shifts, each of which depends only on the edit and on the lines of the item, add up to nothing. |
| `Drifts.OneReplacementExactIff` | packages/core/src/mutants/incremental-differ.ts:388-412 | Errors do cancel: where text without a line break is replaced by such text, an item behind it is right if and only if it starts on another line, or lies on one line, or both texts have the same length. |
| `FileDiff.MultiLineItemIsMisplaced` | packages/core/src/mutants/incremental-differ.ts:493-502 | Every item over several lines is misplaced when text without a line break is added before it on its first line. |
| `FileDiff.SomeItemIsMisplaced` | packages/core/src/mutants/incremental-differ.ts:493-502 | A concrete such item. |
| `Reuse.DiffTestCoverage` | packages/core/src/mutants/incremental-differ.ts:335-361 | Which tests are added, removed and the same, for every test of either run. |
| `Reuse.MutantCanBeReused` | packages/core/src/mutants/incremental-differ.ts:292-330 | Without coverage every result is reused; with it an ignored mutant never, a kill exactly when a killing test still covers the mutant or, for a static one, is still there, and any other result exactly when no covering test is new. |
| `Reuse.UnchangedIsReused` | packages/core/src/mutants/incremental-differ.ts:292-330 | With coverage every result but an ignored one, with a killing test if it is a kill, is reused when the tests of the mutant are unchanged. |
| `Reuse.KilledAgreesIff` | packages/core/src/mutants/incremental-differ.ts:311-321 | A reused kill agrees with a fresh run, whatever the outcomes of unknown tests, if and only if a killing test is among those a fresh run runs. |
| `Reuse.SurvivedAgreesIff` | packages/core/src/mutants/incremental-differ.ts:322-329 | A reused survivor agrees with a fresh run, whatever the outcomes of tests that were not run, if and only if the fresh run runs no test that was not run before. |
| `Reuse.ReusedKillIsRightIff` | packages/core/src/mutants/incremental-differ.ts:311-321 | With coverage a reused kill is right if and only if it is not that of a static mutant under `ignoreStatic` of which no killing test covers it while it runs. |
| `Reuse.ReusedSurvivorIsRightIff` | packages/core/src/mutants/incremental-differ.ts:322-329 | With coverage a reused survivor is right if and only if it is not a static mutant for which a fresh run runs all tests, or all of them were run for it before. |
| `Reuse.StaticSurvivorIsRightIff` | packages/core/src/mutants/mutant-test-planner.ts:78-97 | In terms of the previous run: a reused static survivor is right, without `ignoreStatic`, if and only if no test is new when it was static and not ignored before either; otherwise if and only if the tests that covered it then are all there are. |
| `Reuse.StaleStaticSurvivor` | packages/core/src/mutants/incremental-differ.ts:347-359 | A static survivor that is wrongly reused: the current run has a test that the previous run did not have. |
| `Reuse.StaleStaticKill` | packages/core/src/mutants/incremental-differ.ts:347-359 | A static kill that is reused although a fresh run would ignore the mutant. |
| `Reuse.Diff` | packages/core/src/mutants/incremental-differ.ts:121-180 | All current mutants are kept in place: a status that is set stays, with `force` nothing changes, and otherwise the old status is taken over exactly when it can be reused; every old mutant outside the mutated scope is remembered once. |
| `ImportGraph.TSFileNode.GetAllParentReferencesIncludingSelf` | packages/typescript-checker/src/grouping/ts-file-node.ts:14-22 | On any graph, also a cyclic one, the walk with a shared set terminates and returns exactly the nodes that reach the file by imports. |
| `ImportGraph.TSFileNode.GetMutantsWithReferenceToChildrenOrSelf` | packages/typescript-checker/src/grouping/ts-file-node.ts:34-44 | The walk with a shared list returns the mutants of exactly the files that are reached by imports, each as often as it is given. |
| `ImportGraph.InverseReaches` | packages/typescript-checker/src/typescript-compiler.ts:198-206 | Reaching upwards is the converse of reaching downwards. |
| `CheckGroups.BuildNodes` | packages/typescript-checker/src/typescript-compiler.ts:177-210 | Children are the known imported files, and parents are the files whose children contain the node, without repetition. |
| `CheckGroups.ParentsInvertChildren` | packages/typescript-checker/src/typescript-compiler.ts:198-206 | Parents are the exact inverse of children. |
| `TypeChecker.TypescriptChecker.constructor` | packages/typescript-checker/src/typescript-compiler.ts:177-210 | Over the graph that is built from the imports of the source files the checker is valid: what grouping and blaming require of the graph holds. |
| `CheckGroups.ParentsHaveOverlapWith` | packages/typescript-checker/src/grouping/create-groups.ts:81-89 | True exactly when a file of the group imports the file, directly or not. |
| `CheckGroups.CreateGroup` | packages/typescript-checker/src/grouping/create-groups.ts:48-61 | One round takes the first mutant, loses none, and leaves no file of the group importing another, directly or not; it is greedy: the file of every mutant that is left imports one of the group, or is imported by one. |
| `CheckGroups.CreateGroups` | packages/typescript-checker/src/grouping/create-groups.ts:43-65 | It terminates on any graph, the groups hold every mutant exactly as often as it is given, all are independent, every mutant conflicts with all groups before its own, and it fails exactly when a file is not in the graph. |
| `CheckGroups.GroupHasDistinctFiles` | packages/typescript-checker/src/grouping/create-groups.ts:43-65 | All files of a group are different. |
| `TypeChecker.ScriptFile.Mutate` | packages/typescript-checker/src/fs/script-file.ts:22-42 | The content is the original with this mutant, whatever was in the file before. |
| `TypeChecker.MutationSplices` | packages/typescript-checker/src/fs/script-file.ts:22-29 | The code that the mutant covers is replaced, and the text before and behind it stays. |
| `TypeChecker.TypescriptCompiler.Check` | packages/typescript-checker/src/typescript-compiler.ts:160-175 | The diagnostics are those of the project with exactly the given mutants, whichever were checked before; it fails exactly when a file is not watched. |
| `TypeChecker.TypescriptChecker.BlameErrors` | packages/typescript-checker/src/typescript-checker.ts:120-161 | Which errors are blamed on one mutant, which mutants must be checked alone, and that it fails exactly for an error outside the project. |
| `TypeChecker.TypescriptChecker.CheckErrors` | packages/typescript-checker/src/typescript-checker.ts:106-175 | The reported mutants are exactly those with a blamed error or, if they had to be checked alone, an error of their own. |
| `TypeChecker.TypescriptChecker.Check` | packages/typescript-checker/src/typescript-checker.ts:70-84 | The verdict of every mutant of a group; groups outside the project pass; when it throws. |
| `TypeChecker.TypescriptChecker.Group` | packages/typescript-checker/src/typescript-checker.ts:91-104 | Every mutant is in a group as often as it is given; every group is a single mutant, outside the project, or independent.  Without the performance option every mutant is alone; with it those outside the project are one group, and every other one conflicts with all groups of the project before its own. |
| `TypeChecker.GroupCheckIsExact` | packages/typescript-checker/src/typescript-checker.ts:106-175 | For a compiler that is clean without mutants, whose errors in a file depend only on what it imports, and in which errors are not masked: checked in a group of different files, a mutant is a compile error exactly when it is one alone. |
| `TypeChecker.EveryGroupIsExact` | packages/typescript-checker/src/typescript-checker.ts:70-104 | This holds for every group that grouping produces. |
| `TypeChecker.ErrorsAreRelated` | packages/typescript-checker/src/typescript-checker.ts:140-147 | Alone, a mutant has errors only in files that import its file, directly or not. |
| `Environment.RunsAreSafeIff` | packages/core/src/test-runner/reload-environment-decorator.ts:22-55 | Over every sequence of dry runs and mutant runs and all outcomes of their attempts, with time-outs, rejections and restarts anywhere: every attempt sees the right environment (a runtime mutant one that was loaded without a mutant, a static mutant one that was loaded in its own run, under it) if and only if a scan of the calls finds no runtime mutant that does not follow a static one in a process that still holds a static mutant and is not restarted first; and a pristine environment is really unloaded. |
| `Environment.EverySequenceIsSafeIff` | packages/core/src/test-runner/max-test-runner-reuse-decorator.ts:20-28 | All sequences are safe if and only if the process is restarted for every single mutant run. |
| `Environment.EveryRunIsSafe` | packages/core/src/test-runner/reload-environment-decorator.ts:22-55 | In particular every sequence without a rejected first attempt and without a dry run right after a static mutant is safe, and what the decorator believes stays right. |
| `Environment.DryRunsForgetIff` | packages/core/src/test-runner/reload-environment-decorator.ts:22-25 | Any number of dry runs after a static mutant make the next runtime mutant unsafe exactly if the static mutant is still loaded, no dry run has timed out and no restart intervenes. |
| `Environment.DryRunAfterStaticIsUnsafe` | packages/core/src/test-runner/reload-environment-decorator.ts:22-25 | Whatever the runner can do, unless it restarts for every run, there is an unsafe sequence in which every call completes. |
| `Environment.RetriesAreSafe` | packages/core/src/test-runner/retry-rejected-decorator.ts:30-64 | Every attempt of a retried run is itself safe, although the options object was changed by an earlier one. |
| `Environment.RetryIsConsistentIff` | packages/core/src/test-runner/retry-rejected-decorator.ts:42-64 | After a retried run the decorator is wrong about the environment exactly when the first attempt of a static mutant cleared the flag and was rejected, and the second one completed. |
| `Environment.AfterBadRetry` | packages/core/src/test-runner/retry-rejected-decorator.ts:42-64 | After such a retry the next runtime mutant is unsafe unless the process happens to be restarted. |
| `Environment.TimeoutDecorator.MutantRun` | packages/core/src/test-runner/timeout-decorator.ts:24-52 | A time-out replaces the process below. |
| `Environment.MaxTestRunnerReuseDecorator.MutantRun` | packages/core/src/test-runner/max-test-runner-reuse-decorator.ts:20-28 | The counter restarts the process in time: no process executes more mutant runs than allowed. |
| `Environment.ReloadEnvironmentDecorator.Prepare` | packages/core/src/test-runner/reload-environment-decorator.ts:27-51 | The new state, the flag for the layers below, and a fresh process when the runner cannot reload. |
| `Environment.ReloadEnvironmentDecorator.MutantRun` | packages/core/src/test-runner/reload-environment-decorator.ts:27-55 | The decorator over the real layers does what the state machine of the safety theorem does, including the changed flag of the options object. |
| `Environment.ReloadEnvironmentDecorator.DryRun` | packages/core/src/test-runner/reload-environment-decorator.ts:22-25 | The same for dry runs. |
| `Environment.RetryRejectedDecorator.Run` | packages/core/src/test-runner/retry-rejected-decorator.ts:42-64 | The same for retries, at most two attempts, each on new layers but with the same options object. |
| `Environment.RetryRejectedDecorator.DryRun` | packages/core/src/test-runner/retry-rejected-decorator.ts:18-28 | The same for retried dry runs. |
| `Pool.PoolIsSafe` | packages/core/src/concurrent/pool.ts:85-170 | After every interleaving of events: each created resource is in exactly one place, at most two initialise and tokens wait only while two do, items start in the order of scheduling, no item runs twice, no resource idles while an item waits, failure and disposal leave no item unsettled, disposal reaches every resource, and items scheduled after disposal are not settled. |
| `Pool.InvariantKept` | packages/core/src/concurrent/pool.ts:85-170 | Every step of the pool keeps the invariant behind that. |
| `Pool.EveryRunKeeps` | packages/core/src/concurrent/pool.ts:46-62 | No settlement is ever changed, and after disposal no resource is created and no item starts or settles. |
| `Pool.NothingIsStuck` | packages/core/src/concurrent/pool.ts:90-103 | With an idle resource and nothing in progress, every item is settled. |
| `Pool.SettledByFirst` | packages/core/src/concurrent/pool.ts:46-62 | In every run an item is settled exactly by the first event that can settle it: with the output or the error of its own task when that ends, rejected when a resource cannot be created or initialised or when it is scheduled after that, and empty on disposal. |
| `Pool.TokensAreUsed` | packages/core/src/concurrent/pool.ts:106-135 | In a pool that is in use every concurrency token has led to a resource or waits for one. |
| `Pool.PoolDoesItsWork` | packages/core/src/concurrent/pool.ts:85-135 | Once a pool in use has nothing in progress, it has one ready resource for every token, and every scheduled item is settled by its own task. |
| `Pool.ScheduledTooLate` | packages/core/src/concurrent/pool.ts:150-170 | An item that is scheduled after disposal is never settled. |
| `Pool.Pool.OnInitResolved` | packages/core/src/concurrent/pool.ts:106-135 | A resource becomes ready and the next waiting token is used, unless the pool has failed or is disposed. |
| `Pool.Pool.OnInitRejected` | packages/core/src/concurrent/pool.ts:99-103 | All items that are not settled, also those picked up, are rejected. |
| `Pool.Pool.Schedule` | packages/core/src/concurrent/pool.ts:150-158 | An item takes the resource that is ready longest, waits, is rejected, or is lost. |
| `Pool.Pool.OnFinish` | packages/core/src/concurrent/pool.ts:46-54 | The item of the resource gets its output or its error, unless it is settled already. |
| `Pool.Pool.OnRecycle` | packages/core/src/concurrent/pool.ts:92-95 | A resource that has finished takes the item that waits longest. |
| `Pool.Pool.Dispose` | packages/core/src/concurrent/pool.ts:163-170 | All items that are not settled complete empty, all created resources are disposed, and a second call does nothing. |
| `ChildProcess.ProtocolIsSafe` | packages/core/src/child-proxy/child-process-proxy.ts:139-201 | After every interleaving of calls, messages, errors, exits and disposal: every reply finds its task, a success carries the answer to its own request, no call is sent before initialisation, a call that is not settled is in flight in exactly one place, and after a fatal error none is pending. |
| `Replies.RepliesSettleCalls` | packages/core/src/child-proxy/child-process-proxy.ts:164-201 | After every run: a call that the worker has completed is settled as soon as its reply is delivered, with the value and the request of that call, or as failed if the worker failed, unless an error was reported first; every other failure comes from an error event, a close or a failed initialisation; and the init task is resolved as soon as the worker has said so, with the same exception. |
| `Replies.ReplySettles` | packages/core/src/child-proxy/child-process-proxy.ts:177-185 | At the moment at which a result or a rejection is delivered, its unsettled call is settled with exactly that. |
| `ChildProcess.InvariantKept` | packages/core/src/child-proxy/child-process-proxy.ts:139-270 | Every step of parent and worker keeps the invariant behind that. |
| `ChildProcess.EveryRunKeeps` | packages/core/src/child-proxy/child-process-proxy.ts:139-162 | A call settles at most once. |
| `ChildProcess.NothingPendsAfter` | packages/core/src/child-proxy/child-process-proxy.ts:229-270 | An unexpected exit, or a failed initialisation, leaves no call pending for ever after, and every later call is refused. |
| `ChildProcess.KilledCallIsSettledIff` | packages/core/src/child-proxy/child-process-proxy.ts:287-301 | Disposing settles nothing: a call without an answer when the disposed process ends (waiting to be sent, on its way, or being executed) is settled exactly if an error event follows. |
| `ChildProcess.ChildProcessProxy.Forward` | packages/core/src/child-proxy/child-process-proxy.ts:139-162 | A call gets a new id and a task, or is rejected at once after a fatal error. |
| `ChildProcess.ChildProcessProxy.HandleMessage` | packages/core/src/child-proxy/child-process-proxy.ts:164-201 | What every message does, and what is sent in return: a result resolves its task with the answer, a rejection rejects it, `Ready` is answered with the init message, `Initialized` resolves the init task, and a failed initialisation leaves no task unsettled and disposes the worker. |
| `ChildProcess.ChildProcessProxy.ReportError` | packages/core/src/child-proxy/child-process-proxy.ts:229-237 | Exactly the tasks that are not settled, and a pending init task, are rejected, with this error; a settled one keeps its settlement. |
| `ChildProcess.ChildProcessProxy.HandleUnexpectedExit` | packages/core/src/child-proxy/child-process-proxy.ts:239-257 | Afterwards the fatal error is set, no task is left unsettled, and those that were are rejected as crashed. |
| `ChildProcess.ChildProcessProxyWorker.HandleMessage` | packages/core/src/child-proxy/child-process-proxy-worker.ts:40-60 | A call is executed once the real subject exists, and is answered with a rejection otherwise, which the protocol never reaches; dispose is confirmed. |
| `Pipeline.Check` | packages/core/src/checker/checker-facade.ts:13-45 | Known ids and enough results force exactly one answer for every plan: it succeeds exactly if the checker gives that, and the plans then have different ids. |
| `Pipeline.Group` | packages/core/src/checker/checker-facade.ts:47-77 | It succeeds exactly if every plan is grouped and no other id occurs; every group holds the plans with its ids, in order, and the groups are a partition of the plans exactly if the checker repeats no id. |
| `Pipeline.RepeatedIdIsAccepted` | packages/core/src/checker/checker-facade.ts:56-76 | For every plan, naming it in two groups is accepted. |
| `Pipeline.RepeatedIdIsReportedTwice` | packages/core/src/process/4-mutation-test-executor.ts:161-179 | A mutant that a checker puts in two groups gets through, and has two results. |
| `Pipeline.ExecuteSingleChecker` | packages/core/src/process/4-mutation-test-executor.ts:161-179 | However the stream is buffered, it succeeds if and only if the checker groups every buffer and answers for every group; every plan then has as many results as it is in groups, which is one for every plan if and only if no id is repeated, and every verdict is an answer of the checker about a group with that plan. |
| `Pipeline.ChecksAllIff` | packages/core/src/checker/checker-facade.ts:13-77 | For plans with different ids a checker gets through a buffer if and only if it groups exactly these plans and answers for exactly the plans of each group. |
| `Pipeline.ExecuteCheck` | packages/core/src/process/4-mutation-test-executor.ts:125-153 | The plans that fail a checker and those that pass all of them are together the plans; a failure is an answer of one of the checkers, a plan that passes has an answer `Passed` from each; with different ids and cooperative checkers nothing throws. |
| `Pipeline.SortedMeans` | packages/core/src/process/4-mutation-test-executor.ts:187-198 | A sorted buffer holds the same plans, no plan that reloads the environment comes before one that does not, and plans that compare equal keep their order. |
| `Pipeline.ExecuteRunInTestRunner` | packages/core/src/process/4-mutation-test-executor.ts:106-115 | Every plan of every buffer is run once, buffer by buffer in the sorted order. |
| `Pipeline.Execute` | packages/core/src/process/4-mutation-test-executor.ts:69-119 | For any checkers that group every mutant once and any buffering, the results are exactly one per plan, each outcome fits its plan, and the answers of the checkers explain which plans failed a check and which went on; with different ids and cooperative checkers there are always results. |
| `Pipeline.OneResultPerId` | packages/core/src/process/4-mutation-test-executor.ts:80-90 | With unique ids, every id has exactly one result. |
| `Sandbox.InPlaceIsCrashSafe` | packages/core/src/sandbox/sandbox.ts:135-159 | From an untouched project: whenever filling the sandbox is stopped, in any interleaving of the files, and however often the disposal is interrupted, a disposal that completes restores the content of every file of the project. |
| `Sandbox.SandboxIsFilled` | packages/core/src/sandbox/sandbox.ts:135-148 | From an untouched project, in any interleaving: a file is finished after one operation if its content is not changed and after exactly three if it is, and then the working directory holds its current content and the backup its original; files without changes, and files of which the sandbox does not know, are neither backed up nor written. |
| `Sandbox.StepKeeps` | packages/core/src/sandbox/sandbox.ts:135-148 | At every step each file is unchanged on disk or has its original in the backup. |
| `Sandbox.DisposeRestores` | packages/core/src/sandbox/sandbox.ts:150-159 | An interrupted disposal keeps every original, a complete one restores all. |
| `Sandbox.DisposalCanComplete` | packages/core/src/sandbox/sandbox.ts:150-159 | Wherever the work has stopped, there is a disposal that completes. |
| `Sandbox.SecondDisposeIsNoOp` | packages/core/src/utils/file-utils.ts:47-50 | Disposing again changes nothing. |
| `Sandbox.WriteAfterDisposeIff` | packages/core/src/sandbox/sandbox.ts:137-141 | A file that is written only after the backup was moved back loses its original exactly if its content was changed. |
| `Sandbox.MoveDirectoryRecursiveSync` | packages/core/src/utils/file-utils.ts:47-66 | The recursive move, stopped after any operation, has moved some files of the backup and changed nothing else; it stops only when no operation is left, every operation does one piece of the remaining work, and if it completes, nothing of the directory is left. |
| `Sandbox.ProjectFile.ReadOriginal` | packages/core/src/fs/project-file.ts:55-67 | What is known as the original is what was read first, and it becomes the content only if there is none. |
| `Sandbox.ProjectFile.BackupTo` | packages/core/src/fs/project-file.ts:83-92 | The backup holds the original that was read, or else a copy of the file. |
| `Sandbox.ProjectFile.WriteToDisk` | packages/core/src/fs/project-file.ts:69-73 | Only a file with changes is written. |
| `Sandbox.InPlaceSandbox.SandboxFile` | packages/core/src/sandbox/sandbox.ts:135-148 | The next operation of one file is the step of the state machine: a file with changes gets its directory, then its backup, then its content; one without changes is finished at once. |
| `Sandbox.InPlaceSandbox.Dispose` | packages/core/src/sandbox/sandbox.ts:150-159 | It keeps every original safe, it completes if and only if there are operations for every file and directory of the backup, and then the project is as it was. |
| `Svelte.RemapIsExactIff` | packages/instrumenter/src/parsers/svelte-parser.ts:136-172 | The running offset puts every range at its place in the file if and only if no template expression reads like the placeholder of a script of another length. |
| `Svelte.RemapIsFaithfulIff` | packages/instrumenter/src/parsers/svelte-parser.ts:136-172 | Every script and expression is found with its range, kind and format if and only if no template expression reads like the placeholder of a script of another length or of a TypeScript script. |
| `Svelte.RemapScriptLocations` | packages/instrumenter/src/parsers/svelte-parser.ts:136-172 | Both for the ranges in any order, sorted and split into the module script and the others. |
| `Svelte.CollidingExpressionIsMisplaced` | packages/instrumenter/src/parsers/svelte-parser.ts:145-161 | In a file with one script, of any length but that of its placeholder, and an expression that is called like the placeholder, a range is misplaced. |
| `Svelte.CollidingExpressionIsTypeScript` | packages/instrumenter/src/parsers/svelte-parser.ts:149-161 | If the script is that long and TypeScript, the expression is found at its place, but as TypeScript. |
| `Svelte.SlicesAreContents` | packages/instrumenter/src/parsers/svelte-parser.ts:111-122 | Every remapped range slices exactly the text of its own script or expression. |
| `Svelte.OrderIsUnique` | packages/instrumenter/src/parsers/svelte-parser.ts:142-142 | Sorting by start restores the order of the file from any order. |
| `Svelte.SvelteAst.PlaceHeader` | packages/instrumenter/src/transformers/svelte-transformer.ts:25-47 | A module script is inserted only if there is none; then all other ranges move by its length and nothing else changes. |
| `Svelte.ShiftKeepsSlices` | packages/instrumenter/src/transformers/svelte-transformer.ts:40-44 | After the insertion every range slices the same text as before. |
| `Svelte.InsertionIsExact` | packages/instrumenter/src/transformers/svelte-transformer.ts:29-44 | The range of the new script, and the old ranges shifted by its length, are the ranges of the file with that script in front. |
| `Svelte.Print` | packages/instrumenter/src/printers/svelte-printer.ts:7-30 | The loop with its running index prints the scripts one after the other with the text between them. |
| `Svelte.PrintingSplices` | packages/instrumenter/src/printers/svelte-printer.ts:7-30 | With the ranges of the file, all text outside them is copied verbatim, once and in order, scripts are put on their own lines, and expressions are printed without the last character of their code, which is its semicolon. |
| `Svelte.InsertedScriptIsPrinted` | packages/instrumenter/src/printers/svelte-printer.ts:7-30 | Printing a file with an inserted module script gives that script with its header, followed by what the file would print as without it. |
| `PositionConverter.ComputeLineStarts` | packages/instrumenter/src/util/position-converter.ts:44-75 | The line starts are strictly increasing and are exactly 0 and the positions behind a line terminator, where CR LF is one. |
| `PositionConverter.LineStartsAreUnique` | packages/instrumenter/src/util/position-converter.ts:44-75 | No other list has that property. |
| `PositionConverter.BinarySearch` | packages/instrumenter/src/util/position-converter.ts:78-101 | The index of the value, or the complement of the index at which it belongs. |
| `PositionConverter.PositionConverter.PositionFromOffset` | packages/instrumenter/src/util/position-converter.ts:18-42 | For every offset from 0 on, the line is the last one that starts at or before it; a negative offset throws. |
| `PositionConverter.PositionsFollowOffsets` | packages/instrumenter/src/util/position-converter.ts:18-24 | Different offsets have different positions, in the same order. |
| `PositionConverter.SameLine` | packages/instrumenter/src/util/position-converter.ts:18-24 | Between the start of the line and the position there is no line terminator, except the carriage return before a line feed. |

## Left out

- JavaScript beyond the small language: nested functions and closures, block scoping and hoisting, labels, `this`, generators and async code.  Functions are top level and share one state.
- `nameIfAnonymous`, type annotations, comments and the directives in them; whether a mutant is ignored is an arbitrary part of what the mutators yield.
- Schemata.InstrumentedBehavesLikeMutant: requires of the mutators that a replacement is plain code of the same syntactic category, that the replacement of a switch case keeps its test, and that a whole program is not mutated; the placers rely on all three.
- Placement.TransformFile: requires that replacements contain no node that looks, by type and location, like a node outside the mutated one.
- The tables of the individual mutators, and the selection of operators by run level.
- The hit limit in the meaning theorems: `Coverage.RuntimeHeader.IsMutantActive` models it, the evaluator records hits without limiting them.
- Object identity of syntax nodes: a node in the placement map is identified by its path, and `eqNode` by type and location, which are required to be unique in the theorems about searching.
- Placing the header, and the plain JavaScript, TypeScript and HTML parsers and printers.
- Offsets of locations of scripts inside HTML and Svelte files when mutants are reported (`toApiLocation`).
- diff-match-patch: edit scripts are arbitrary.  Normalising line endings, and columns that count UTF-16 code units where `calculateOffset` counts code points.
- `closeLocations`, and locations that end at infinity.
- Results other than killed, survived and ignored are reused by the rule for survivors; agreement with a fresh run is about kills only.
- The side effects of the incremental differ on the test coverage, and file patterns of the mutated scope.
- Planner.PlanAndSelect: says of a static mutant under `ignoreStatic` what the tests find when it is switched on after loading; that is not the verdict of the project with the mutant made by hand.
- The TypeScript compiler: a function of the contents of all files.  Its watch mode, by which an unchanged file is not reported again, build mode, source maps, posix file names and the cache of the file system.
- The order of JavaScript sets and maps where only membership matters.
- TypeChecker.GroupCheckIsExact: assumes that an error of a mutant alone is not masked in the group, which no code checks.
- Environment.EveryRunIsSafe: is the special case of regular sequences; `Environment.RunsAreSafeIff` is about all of them.
- Sandbox.InPlaceIsCrashSafe: no file is written after the backup was moved back; `Sandbox.WriteAfterDisposeIff` says what happens then.
- FileDiff.RelocationIsExact: is about edits of the named shapes; for any other script `Drifts.RelocationIsExactIff` gives the exact condition for items that no edit touches.
- RxJS and promises: streams and microtasks are the atomic events of the state machines.  The `init` promise of the pool is not modelled.
- The contents of error messages, out of memory detection, standard output, logging, reporters, and killing processes.
- Time: a time-out is an arbitrary outcome of a run.
- The fields of a plan that only the report needs: `coveredBy` and `static` of a mutant that is run, the reason of a status, and the sandbox file name.
- Rejections by `init` or `dispose` of a test runner while a decorator recovers.
- Sandboxes that are not in place, build commands, symbolic links, and file operations that fail or stop half way.  The backup directory is modelled beside the working directory, not inside it.
- Reading a file again after it was written in place: `Sandbox.ProjectFile.ReadOriginal` models it, the steps of the sandbox do not include it.
- Checkers and test runners: arbitrary functions.  Errors of a test run in the pipeline are not modelled.
- Parsing Svelte: the ranges are those of a list of pieces.  Nested template ranges, and templates whose scripts the parser does not report.
- Test runner plugins, configuration, the initializer, the dashboard client and continuous integration.
