# netlistDB in Dafny

netlistDB keeps a circuit as a graph of nets, operator calls and statements, and rewrites it. This
project models the rewriting passes, the dead-logic removal with its concurrent parts, the printing
of expressions and literals, the construction of expressions and statements, and the two small
utilities they lean on, and proves what each of them keeps.

## Contents

**Statements.** `Statements` gives assignments and ifs a meaning: a statement reads the values all
nets hold now and yields a map of writes, so a branch never sees what a sibling writes (the
assignment operator of the library is non-blocking). Within one statement list a net has at most one
driver, which `QueryEnclosure` asserts. On this rest:

- `StructuralCmp` and `StructuralCompatible`, the two comparisons of statements, in two versions:
  `AsWritten` and `Intended`. Where they differ the exact condition under which the written one is
  right is proved as an if-and-only-if.
- `Merging`, `MergeLoop`, `Reduce`, `ReduceVerdict`, `ReduceRank`, `ReduceShape`, `ReduceLoop`,
  `SiblingGroup` and `SiblingMerge`, the reduction pass: sibling merging, dropping an if whose branches
  are all the same, else-if flattening, when the pass throws, the rank, and what is left.
- `Enclosure`, `FillEnclosure` and `FillLoop`: which nets are driven on every path, and completing
  those that are not.
- `Sensitivity`: the walk that collects what a statement depends on.
- `HwProcesses`, `GroupShape` and `ProcessReduction`: merging processes.

**Dead-logic removal.** `Traverse` and `TraverseRuns` are the concurrent traversal as a state
machine. One step is one atomic exchange of a visited flag, one pop, or one change of a task-group
counter, by any job that can step. `TraverseThreads` puts the jobs on a pool of threads, where a
waiting job has others run on top of it and only the top of a thread can step, and `TraverseQuery`
is the traversal as callers see it. `Netlists`, `BoundaryCut`, `RemoveByMask`
and `RemoveUseless` are the boundary cut by several workers, compaction and renumbering in place,
and the pass that keeps what an output depends on.

**Printing.** `Printing` is the bracket logic as a stream of tokens, `BracketRules` says where
brackets are, `Parsing` is a precedence-climbing reader that takes its table as a parameter,
`Readings` what such a reader makes of printed texts, `Literals` the based literals and their
reading by section 2.5.1 of IEEE 1364-2001.

**Construction.** `ExprBuilder` is the cache that shares calls, `Bookkeeping` the drivers, endpoints,
inputs, outputs, ranks and node-list entries while statements are built and nested.

**Utilities.** `OrderedSets`, `QueryPaths`, and `Lists` with grouping by a key.

## Where the code departs from its documentation

The model follows the code. Each entry names the member that shows the departure and, where there
is one, the condition under which the code is right.

- The mergeability test compares the branch taken on a true condition with itself
  (src/query/query_structural_compatible.cpp:28). `MergableAsWritten` gives the
  exact condition, `MergableAsWrittenFails` an instance.
- The size tests of the structural comparison are joined by "and", and one compares a vector with
  itself (src/query/query_structural_cmp.cpp:33, :87). `SameAsWritten` and `SameAsWrittenFails`; that
  the size tests never decide is `FirstOfChecks`, and what "same" comes to is `SameIsResembling`.
- Comparing two different constant nets throws (include/netlistDB/hw_type/ihw_type_value.h:12), where
  the header asks for a comparison by value. The comparison is given the constants with their values.
  `ThrowsExactly` and `PassThrows` say when a comparison and the pass throw, `ConstantsThrow` is an
  instance; the version `Intended` compares by value and never throws (`IntendedReduces`).
- Sibling merging pushes a survivor once for each comparison, and pushes statements it frees later
  (src/transform/reduce_statement.cpp:171). `PushedOnceExactly` and `FreedIsPushed` say exactly when.
  `Reduce` and `SiblingMerge` list every survivor once.
- Flattening copies the inner if's else list but not its else flag (line 213 of the same file), so
  the rank stays exact only as `FlattenRankExact` says; `FlattenRankFails`.
- Completion fills copies of the statement lists (src/transform/statement_to_hwprocess.cpp:290).
  `LeftAsItWas` and `FillAsWritten`; the other members describe the completion with the lists handed
  back. The nets are recorded as enclosed all the same (line 287 there).
- Process merging drops the merged list (line 415 there). `TakingInKeepsWrites` says exactly when
  that loses nothing for a pair, `GroupKeepsExactly` for a group; `IntendedKeepsWrites` is the group
  with the merged list kept.
- A complement directly over a complement or a concatenation dereferences a null neighbour while
  printing (src/serializer/serializer.cpp:104); `PrintsExactly`.
- The operator table differs from section 4.1.2 of IEEE 1364-2001. By the printer's own table every
  text reads back. `ReadsBackExactly` says for any table which texts read back, and
  `StandardReadsBack` which do by the standard's; `StandardMisreadsComplement`,
  `StandardMisreadsQuotient` and `StandardMisreadsRange` are texts that read as something else.
- The step of `parallel_for` divides only the first index, so there is always one batch.
- Without an output the traversal returns before it writes any visited flag, and removal then uses
  whatever the flags hold; nothing is promised for that case.
- Filling the first branch of an if is not asserted to be done on a top statement; `ThenNeedsTop` and
  `ThenNestedFails`.
- The event flag of a nested statement is not taken over with its sensitivity list
  (include/netlistDB/utils/sensitivity_ctx.h:25); `Sensitivity.Extend` is written that way.
- Erasing endpoints at the level of the vector leaves the hidden set of an ordered set stale;
  `VectorEraseKeeps` and `VectorEraseFails`.

## Conventions of the model

- Net and node addresses are natural numbers; equal numbers are the same object. In `Sensitivity` and
  `ExprBuilder` numbers also follow the order of creation, so operands come before results.
- Functions specify the passes on values; methods with the loops of the source are proved equal to
  them. Statement lists are sequences that the methods rebuild.
- No statement drives a constant net, which printing asserts (src/serializer/verilog_statements.cpp:9);
  an environment in which the constant nets hold their values is one with `Holds`.
- A netlist given to removal has no null entries in its node list, and edges are recorded at both
  ends: `Netlists.Valid`. A null entry, which a nested statement leaves behind, makes the collectors
  fault.
- Else lists are empty unless the else branch was given, as the building calls guarantee:
  `ElseGiven`.
- Exceptions, failed assertions and steps outside a vector are results, not preconditions.

## Model

| member | source | states |
|---|---|---|
| `Statements.WritesAreOutputs` | src/statement_assignment.cpp:8-20 | in every environment a statement writes nothing but the nets recorded as its outputs |
| `Statements.ExecConcat` | README.md:29-34 | running two lists one after the other is running their concatenation, with later writes in front |
| `StructuralCmp.CompareNets` | src/query/query_structural_cmp.cpp:85-95 | the loop over two index vectors gives the verdict of the comparison, including a step outside the shorter vector and a throw on two constants |
| `StructuralCmp.CompareLists` | src/query/query_structural_cmp.cpp:56-70 | the loop over two statement vectors gives the verdict of the comparison element by element |
| `StructuralCmp.CompareIfs` | src/query/query_structural_cmp.cpp:24-54 | the comparison of two ifs, size test and loop over the first one's else-ifs included, gives the verdict |
| `StructuralCmp.SameAsWritten` | src/query/query_structural_cmp.cpp:8-56 | as written, two statements are equal trees if and only if the answer is "same" and their vectors and else flags agree in size |
| `StructuralCmp.SameIsResembling` | src/query/query_structural_cmp.cpp:8-95 | as written, two statements are "same" if and only if they have the same nets, ranks and trees, except for else flags and for indexes and else-ifs that only the second has |
| `StructuralCmp.FirstOfChecks` | src/query/query_structural_cmp.cpp:24-95 | as written, the verdict is that of the first check that does not pass, in the order of the source without its size test, which never decides |
| `StructuralCmp.SameIntended` | include/netlistDB/query/query_structural_cmp.h:24-38 | as the header asks for it, the comparison always answers, and "same" is equality of trees up to constant nets of equal value |
| `StructuralCmp.AlikeMeaning` | include/netlistDB/query/query_structural_cmp.h:24-36 | statements that are the same in that sense and drive no constant make the same writes wherever the constant nets hold their values |
| `StructuralCmp.ConstDestinationsDiffer` | src/serializer/verilog_statements.cpp:9 | a concrete pair that shows why destinations must not be constants |
| `StructuralCmp.ThrowsExactly` | src/query/query_structural_cmp.cpp:80-83 | as written, a comparison throws if and only if it reaches two different constant nets with every check before it passed |
| `StructuralCmp.SameAsWrittenFails` | src/query/query_structural_cmp.cpp:33-38 | a concrete pair called "same" as written although the two write differently |
| `StructuralCompatible.MergableWithItself` | src/query/query_structural_compatible.cpp:26-47 | every statement is mergeable with itself, so comparing a branch with itself tests nothing |
| `StructuralCompatible.MergableMeansSkeleton` | src/query/query_structural_compatible.cpp:26-47 | two statements are mergeable if and only if both are assignments or both are ifs with one skeleton: the tree of conditions, else-if conditions and else flags, with the skeletons of the statements of positive rank in each branch, in order; as written the true branches are not part of it |
| `StructuralCompatible.ListMergableMeansForks` | src/query/query_structural_compatible.cpp:73-92 | two lists are mergeable if and only if their statements of positive rank have the same skeletons in order, whatever simple statements are between |
| `StructuralCompatible.MergableAsWritten` | src/query/query_structural_compatible.cpp:26-47 | the check as written is right about two statements, whose mergeability `MergableMeansSkeleton` describes, if and only if their true branches fit all the way down |
| `StructuralCompatible.ListMergableAsWritten` | src/query/query_structural_compatible.cpp:73-92 | the same for two statement lists |
| `Merging.MergableFits` | src/transform/reduce_statement.cpp:42-58 | mergeable ifs have equally many else-ifs in every pair that merging brings together, so its assertion never fails |
| `Merging.MergeIfMeaning` | src/transform/reduce_statement.cpp:42-67 | merging two mergeable ifs with disjoint outputs means the same as running one after the other, in every environment |
| `Merging.MergeListsMeaning` | src/transform/reduce_statement.cpp:69-133 | the same for two mergeable statement lists |
| `Merging.MergeIfKeeps` | src/transform/reduce_statement.cpp:324-326 | what the merged if drives is the outputs of the first extended by those of the second, each net still once per list, and it is well formed |
| `Merging.MergeIfInputs` | src/transform/reduce_statement.cpp:324-326 | what it reads is the inputs of the first extended by those of the second |
| `Merging.MergeListsKeeps` | src/transform/reduce_statement.cpp:69-133 | the same for lists |
| `Merging.MergeIfRank` | src/transform/reduce_statement.cpp:42-67 | the rank of the merged if, which merging never touches, is still its number of branches plus the ranks inside |
| `Merging.MergeIfSkeleton` | src/transform/reduce_statement.cpp:42-67 | merging changes no condition and no else flag at any depth: the merged if has the skeleton of both |
| `MergeLoop.MergeStatementsVector` | src/transform/reduce_statement.cpp:69-133 | the loop over two iterators computes the merge: simple statements of either side in turn, branching ones pairwise, ending when either list is exhausted |
| `MergeLoop.MergeOtherToThis` | src/transform/reduce_statement.cpp:42-67 | the branch-by-branch merge keeps condition, else flag and rank of the first if, and leaves the other without branches |
| `MergeLoop.OriginsHold` | src/transform/reduce_statement.cpp:81-129 | the k-th branching statement of one list is merged with the k-th of the other and everything else is carried over unchanged |
| `MergeLoop.OriginsOrdered` | src/transform/reduce_statement.cpp:81-129 | each list contributes an initial stretch, every position once and in order |
| `MergeLoop.NothingLost` | src/transform/reduce_statement.cpp:81-129 | every statement of both lists ends in the merge once and in order if and only if neither list has anything after the branching statement at which the other ran out |
| `MergeLoop.MergableCounts` | src/query/query_structural_compatible.cpp:73-92 | mergeable lists have equally many branching statements, as needed for nothing to be lost |
| `MergeLoop.MergableAsWrittenFails` | src/query/query_structural_compatible.cpp:28-29 | a concrete pair accepted by the check as written whose merge adds a write |
| `Reduce.AbsorbPreserves` | src/transform/reduce_statement.cpp:160-183 | taking later mergeable siblings into a statement leaves the writes of the list as they were |
| `Reduce.MergeStatementsPreserves` | src/transform/reduce_statement.cpp:135-192 | merging siblings keeps writes, outputs and the one-driver rule |
| `Reduce.FirstBranchPreserves` | src/query/query_structural_compatible.cpp:94-127 | when all branches are the same the first one stands for the whole if |
| `Reduce.FlattenPreserves` | src/transform/reduce_statement.cpp:208-214 | else-ifs in place of a lone if in the else branch mean the same (`ReduceShape.IfReduced` says what they are) |
| `ReduceShape.IfReduced` | src/transform/reduce_statement.cpp:267-322 | with the intended checks an if gives way to its first rewritten branch if and only if the else branch was given and all branches are alike; otherwise it stays, with its conditions and rewritten bodies in order, followed by those of a lone if in the else branch, whose else list it takes over, with its else flag, and with its rank less what merging took out |
| `ReduceShape.IfReducedAsWritten` | src/transform/reduce_statement.cpp:267-322 | as written, an if that is reduced at all gives way to its first branch or stays in just that form |
| `ReduceShape.SameMeansNoEffect` | src/query/query_structural_compatible.cpp:94-127 | as intended, a condition is found to have no effect if and only if the else branch was given and all branches are alike, position by position |
| `ReduceShape.ElifReduced` | src/transform/reduce_statement.cpp:280-290 | each else-if keeps its condition and its place and has its own body reduced |
| `ReduceShape.EachConcat` | src/transform/reduce_statement.cpp:194-202 | the statements of a list are reduced one after the other and independently; the first that fails ends it |
| `ReduceShape.ListReduced` | src/transform/reduce_statement.cpp:194-206 | of the reduced statements one is left for each rank and skeleton that occurs, the simple ones are as they were and in order, and the reported decrease is exactly the rank that is gone |
| `ReduceShape.NoTwins` | src/transform/reduce_statement.cpp:160-183 | in a reduced list no two statements have one positive rank and one skeleton: nothing that could be merged is left |
| `Reduce.ReducePreserves` | src/transform/reduce_statement.cpp:267-322 | reducing a statement that drives no constant leaves its outputs as they were, and its writes in every environment in which the constant nets hold their values, provided each answer it acts on is right |
| `Reduce.ReduceListPreserves` | src/transform/reduce_statement.cpp:194-206 | the same for a list of siblings, merging included |
| `Reduce.IntendedIsRight` | src/transform/reduce_statement.cpp:267-322 | with the intended checks every answer is right |
| `ReduceVerdict.ReduceSucceeds` | src/transform/reduce_statement.cpp:267-322 | with the intended checks the pass never throws and never leaves a vector |
| `ReduceVerdict.IntendedReduces` | src/transform/reduce_statement.cpp:267-322 | with the intended checks every statement is reduced, with its outputs kept, and its writes wherever the constant nets hold their values |
| `ReduceVerdict.IntendedReducesList` | src/transform/reduce_statement.cpp:194-206 | the same for a list of siblings, merging included |
| `ReduceVerdict.BranchesThrow` | src/query/query_structural_cmp.cpp:80-83 | as written, whether a condition has an effect cannot be told if and only if the branches, position by position, first differ in two constant nets |
| `ReduceVerdict.PassThrows` | include/netlistDB/hw_type/ihw_type_value.h:12-14 | as written, the pass throws if and only if it arrives at an if whose rewritten branches first differ in two constant nets |
| `ReduceVerdict.ConstantsThrow` | include/netlistDB/hw_type/ihw_type_value.h:12-14 | one net driven with two constants: as written the pass throws, as intended it keeps the if, or drops it when the values are equal |
| `Reduce.RightMeansMergable` | src/query/query_structural_compatible.cpp:26-47 | an answer of the check as written that passes the exact condition is the intended answer |
| `Reduce.RightMeansSame` | src/query/query_structural_cmp.cpp:24-54 | a "same" that passes the exact condition is equality up to constants of equal value |
| `ReduceRank.MergeStatementsRank` | src/transform/reduce_statement.cpp:171-176 | the decrease that sibling merging reports is exactly the rank it took out of the list, provided each answer is right, as the intended ones are |
| `ReduceRank.RankNeverUnderflows` | src/transform/reduce_statement.cpp:275-299 | subtracting the reported decreases never goes below zero and the ranks still cover the branches, provided each answer is right, as the intended ones are |
| `ReduceRank.FlattenRankExact` | src/transform/reduce_statement.cpp:208-214 | after flattening the rank is the branch count if and only if the inner if has no else branch |
| `ReduceRank.FlattenRankFails` | src/transform/reduce_statement.cpp:208-214 | a concrete if of rank four with three branches after flattening |
| `ReduceLoop.IfCondHasEffect` | src/query/query_structural_compatible.cpp:94-127 | the column-by-column loop answers whether all branches are the same |
| `ReduceLoop.ReduceStatement` | src/transform/reduce_statement.cpp:267-322 | the pass over one if, branch by branch, computes the specified reduction and fails exactly where that does |
| `ReduceLoop.ReduceElseIfs` | src/transform/reduce_statement.cpp:280-290 | the loop over else-ifs reduces each body and sums the rank decreases |
| `ReduceLoop.ReduceStatements` | src/transform/reduce_statement.cpp:194-206 | the loop over a list reduces each statement and then merges siblings, group by group |
| `SiblingGroup.CompareWithLater` | src/transform/reduce_statement.cpp:160-182 | the inner loop over later siblings merges, clears slots and pushes as specified, and counts the ranks of the statements it cleared |
| `SiblingGroup.GroupMerges` | src/transform/reduce_statement.cpp:160-183 | the slots left when the loops end hold the merged siblings, each once and in order |
| `SiblingGroup.PushedOnceExactly` | src/transform/reduce_statement.cpp:160-182 | every survivor of a group is pushed just once, and nothing freed is, if and only if the group has two statements |
| `SiblingGroup.FreedIsPushed` | src/transform/reduce_statement.cpp:171-180 | a statement that was freed is in the result all the same exactly when a row after the first one freed it |
| `SiblingGroup.FreedIsPushedExample` | src/transform/reduce_statement.cpp:160-182 | three concrete ifs of which the third is freed and still pushed |
| `SiblingMerge.RunLoops` | src/transform/reduce_statement.cpp:160-182 | the outer loop over a group runs a row for every slot not cleared, and the decrease is the rank the group lost |
| `SiblingMerge.AllGroupsDone` | src/transform/reduce_statement.cpp:147-184 | merging a list of any ranks succeeds if and only if the loops of every rank group do |
| `SiblingMerge.GroupsSorted` | src/transform/reduce_statement.cpp:135-191 | what is left of all groups, sorted by original position, is the list in which every statement took in the later ones of its rank |
| `SiblingMerge.MergeSiblings` | src/transform/reduce_statement.cpp:135-192 | grouping by rank, the loops of every group in ascending order of rank and the sort at the end, each survivor pushed once, compute the merged list and the rank decrease |
| `Enclosure.EncloseList` | src/query/query_enclosure.cpp:44-67 | the lookup of each output's single driver in a branch yields the nets enclosed by that branch |
| `Enclosure.EncloseIf` | src/query/query_enclosure.cpp:72-104 | the loops over branches and else-ifs yield the nets recorded as enclosed by the if |
| `Enclosure.EnclosedExactly` | src/query/query_enclosure.cpp:32-104 | an output is recorded as enclosed if and only if every combination of branch outcomes through the nested ifs drives it |
| `Enclosure.ListEnclosedExactly` | src/query/query_enclosure.cpp:44-67 | the same for a statement list |
| `Enclosure.ExecIsOutcome` | src/query/query_enclosure.cpp:32-104 | what a statement drives in an environment is one of these combinations |
| `Enclosure.EnclosedIsDriven` | src/query/query_enclosure.cpp:32-104 | an enclosed output is driven in every environment |
| `FillEnclosure.FillEncloses` | src/transform/statement_to_hwprocess.cpp:263-288 | completion keeps the driven nets and encloses exactly the selected ones on top of those enclosed before |
| `FillEnclosure.FillMeaning` | src/transform/statement_to_hwprocess.cpp:263-320 | after completion each selected net has the value it was driven with, or else its idle value; all other nets are unaffected |
| `FillEnclosure.FillListMeaning` | src/transform/statement_to_hwprocess.cpp:290-320 | the same for a statement list and the nets asked for |
| `FillEnclosure.LeftAsItWas` | src/transform/statement_to_hwprocess.cpp:290-293 | the lists being passed by value, at every depth what is added goes to copies: the statement is left as it was |
| `FillEnclosure.CopyMeaning` | src/transform/statement_to_hwprocess.cpp:290-320 | the copy that is filled, which nothing looks at again, has the statements of the list and the idle values of the nets they do not drive |
| `FillEnclosure.FillAsWritten` | src/transform/statement_to_hwprocess.cpp:263-293 | so as written every selected output ends up driven on all paths if and only if no net was missing, the guard of the early return |
| `FillEnclosure.FillAsWrittenFails` | src/transform/statement_to_hwprocess.cpp:290-293 | a concrete latch that stays undriven |
| `FillLoop.FillNet` | src/transform/statement_to_hwprocess.cpp:294-319 | one net of the list: skipped when enclosed, completed in its driver, or given an assignment, and the other statements are untouched |
| `FillLoop.FillStmList` | src/transform/statement_to_hwprocess.cpp:290-320 | the loop over the nets to enclose completes the list, with the list handed back to the caller |
| `FillLoop.FillStatement` | src/transform/statement_to_hwprocess.cpp:263-288 | the completion of an if goes through all its branches |
| `Sensitivity.ProbeNet` | src/query/expr_sensitivity_probe.cpp:27-44 | the walk from a net marks exactly what the net is made of as seen, and records every leaf and event call among it not seen before |
| `Sensitivity.ProbeCall` | src/query/expr_sensitivity_probe.cpp:8-25 | an event call is recorded and not walked through, any other call is walked |
| `Sensitivity.ProbeArgs` | src/query/expr_sensitivity_probe.cpp:17-24 | skipping operands already seen loses nothing |
| `Sensitivity.ProbeRoot` | src/query/expr_sensitivity_probe.cpp:46-54 | a condition lists its leaves, unless it has an event call not seen before; then it lists event calls only and sets the flag |
| `Sensitivity.OfAssignment` | src/query/query_sensitivity.cpp:34-45 | an assignment lists every leaf and event call of its source and indexes not seen before, and nothing else |
| `Sensitivity.OfList` | src/query/query_sensitivity.cpp:57-60 | the statements of a branch share what was seen, and their lists are taken over |
| `Sensitivity.OfElifs` | src/query/query_sensitivity.cpp:63-82 | else-ifs are walked in order until one has an event condition |
| `Sensitivity.OfIf` | src/query/query_sensitivity.cpp:47-93 | an if lists nothing foreign, and without an event call every leaf its conditions and branches read that was not seen before |
| `Sensitivity.ReachIsChain` | src/query/expr_sensitivity_probe.cpp:8-44 | an expression is made of exactly the nets that a chain of operands, through calls that are no events, leads to |
| `Sensitivity.ReadsExactly` | src/query/query_sensitivity.cpp:34-93 | what a statement reads is exactly what such a chain leads to from a condition, else-if condition, source or index at some position of the tree; destinations and else lists that were not given do not count |
| `Sensitivity.Query` | src/query/query_sensitivity.cpp:9-93 | what is listed for a top statement are leaf nets and event calls that it depends on, by chains of operands from positions in its tree; an event call is listed if and only if it depends on one; if it depends on none, and for an assignment always, all it depends on is listed; if the first condition has event calls, these are the list |
| `Sensitivity.LeavesDecide` | src/query/query_sensitivity.cpp:34-93 | environments that agree on every leaf a statement reads make it write the same |
| `Sensitivity.SensitivitySuffices` | src/query/query_sensitivity.cpp:34-93 | what the query lists for an event-free statement is all its writes depend on: environments that agree on it give the same writes |
| `HwProcesses.SweepHas` | src/transform/statement_to_hwprocess.cpp:364-380 | a process that took in others lists what it and they listed |
| `HwProcesses.EachEndsInOne` | src/transform/statement_to_hwprocess.cpp:364-384 | each process of a group ends in exactly one survivor, which lists precisely what the processes ending in it listed: outputs, inputs and sensitivities |
| `HwProcesses.SurvivorsHaveSource` | src/transform/statement_to_hwprocess.cpp:381-384 | no survivor comes from nowhere |
| `HwProcesses.ReduceLoopFree` | src/transform/statement_to_hwprocess.cpp:401-409 | if no process of a group is sensitive to its own output, no survivor is |
| `HwProcesses.TakenInMeaning` | src/transform/statement_to_hwprocess.cpp:415-416 | after a merge whose result is dropped the first process writes what it wrote and what the branching statements of the second wrote |
| `HwProcesses.TakingInKeepsWrites` | src/transform/statement_to_hwprocess.cpp:415-416 | taking in a process keeps the writes of both in every environment if and only if that process has no assignment at its top |
| `HwProcesses.TakingInLosesWrite` | src/transform/statement_to_hwprocess.cpp:415-416 | two concrete processes of which one write is lost |
| `HwProcesses.GroupWrites` | src/transform/statement_to_hwprocess.cpp:342-387 | the survivors of a group write and drive what its processes did, those taken away cut down to what a merge carries over of them |
| `HwProcesses.TakenAwayInto` | src/transform/statement_to_hwprocess.cpp:368-379 | a process is taken away if and only if one in front of it ends in the same survivor |
| `HwProcesses.GroupKeepsExactly` | src/transform/statement_to_hwprocess.cpp:342-387 | as written, a group keeps its writes in every environment if and only if no process that is taken away has an assignment at its top |
| `HwProcesses.IntendedKeepsWrites` | src/transform/statement_to_hwprocess.cpp:342-387 | with the merged list kept, a group of any one-driver processes writes and drives exactly what it did |
| `HwProcesses.GroupSucceeds` | src/transform/statement_to_hwprocess.cpp:342-387 | with the intended check the reduction of a group never leaves a vector |
| `GroupShape.MergedUnlessApart` | src/transform/statement_to_hwprocess.cpp:401-409 | a pair is merged if and only if neither is one assignment alone, no net is an output of one and in the sensitivity list of the other, and the condition trees are the same |
| `GroupShape.EachGrows` | src/transform/statement_to_hwprocess.cpp:364-384 | the survivor a process ends in has the same condition tree and all it listed, and is the process itself if that was one assignment |
| `GroupShape.LoneStaysAlone` | src/transform/statement_to_hwprocess.cpp:389-394 | a process that is one assignment neither takes in another nor is taken in: it survives unchanged, and no other ends with it |
| `GroupShape.SurvivorsApart` | src/transform/statement_to_hwprocess.cpp:364-380 | any two survivors are kept apart by a lone assignment, a net between them or different condition trees: nothing that could be merged is left |
| `GroupShape.OneSurvivor` | src/transform/statement_to_hwprocess.cpp:364-384 | a group of processes with an if at their top, one condition tree and no net between them is reduced to exactly one process |
| `ProcessReduction.MergeInPlace` | src/transform/statement_to_hwprocess.cpp:415-416 | after merge_statements_vector the first process's list holds its own statements with their partners merged in, and nothing else |
| `ProcessReduction.TryToMerge` | src/transform/statement_to_hwprocess.cpp:401-420 | a pair is refused exactly when it is incompatible, which `GroupShape.MergedUnlessApart` describes, and otherwise the first process becomes the merge in place |
| `ProcessReduction.TakeInLater` | src/transform/statement_to_hwprocess.cpp:369-379 | the inner loop over process objects performs a sweep; slots of processes taken in become null |
| `ProcessReduction.ReduceProcs` | src/transform/statement_to_hwprocess.cpp:349-385 | the outer loop reduces a group, and succeeds exactly when that is possible; the survivors are objects of the group |
| `Lists.GroupedBy` | include/netlistDB/utils/groupedby.h:13-29 | groups have exactly the keys that occur, and each group is the items of its key in order |
| `ProcessReduction.ReduceProcesses` | src/transform/statement_to_hwprocess.cpp:342-387 | succeeds if and only if the reduction of every rank group does, always so for the intended check; then the survivors of each rank are the reduction of that group, in ascending order of ranks, what they list is conserved and loop freedom is kept |
| `ProcessReduction.ReducedConserves` | src/transform/statement_to_hwprocess.cpp:342-387 | reducing every rank group on its own conserves the union of outputs, inputs and sensitivities |
| `ProcessReduction.ReducedLoopFree` | src/transform/statement_to_hwprocess.cpp:401-409 | and leaves no process sensitive to its own output if none was |
| `Traverse.StepKeepsInv` | src/query/query_traverse.cpp:53-78 | whatever job steps next, stacked nodes are visited and not yet called, counters match unfinished jobs, and the log has each visited node that is not stacked once |
| `TraverseRuns.StepFrame` | src/query/query_traverse.cpp:53-78 | a step visits only awaited nodes, and what was awaited is visited or still awaited |
| `TraverseRuns.RunKeeps` | src/query/query_traverse.cpp:35-78 | in every state of every interleaving the invariant and the coverage of reachable nodes hold |
| `TraverseRuns.CalledAtMostOnce` | src/query/query_traverse.cpp:35-78 | in no state of any run is the callback called twice on a node or on an unreachable one |
| `TraverseRuns.TraversalComplete` | src/query/query_traverse.cpp:35-78 | when the outer wait returns, the callback has been called exactly once on every reachable node, the flags up are exactly those, and every job has finished |
| `TraverseRuns.LoadBalanced` | src/query/query_traverse.cpp:55-77 | in every state of every run each traversal has posted a job for just those of the nodes it has found that are beyond its share, the load-balance limit less one, and no stack outgrows the limit |
| `TraverseRuns.LastFoundFirst` | src/query/query_traverse.cpp:59-66 | a node that was stacked is the next one called when the callback selects nothing more |
| `TraverseRuns.AllFinished` | src/utils/thread_pool.cpp:59-75 | once the outer counters agree no job, however deeply nested, is unfinished |
| `TraverseThreads.MoveKeeps` | src/utils/thread_pool.cpp:69-75 | on any number of threads, whichever moves next: every job taken and not finished lies on one thread, over jobs taken before it that all wait, and was taken after the job that posted it |
| `TraverseThreads.SomeThreadMoves` | src/utils/thread_pool.cpp:69-75 | while the outer wait has not returned some thread can take a queued job or go on with the job on top of it, although buried jobs cannot |
| `TraverseThreads.WhoTakes` | src/utils/thread_pool.cpp:69-75 | a queued job can be taken by every thread that has none and by every thread on whose top a job waits, and by no other |
| `TraverseThreads.PoolRunIsRun` | src/utils/thread_pool.cpp:59-75 | every run of the threads is an interleaving of job steps, so everything proved of those holds |
| `TraverseThreads.PoolTraversalComplete` | src/query/query_traverse.cpp:35-78 | for every number of threads and every run of them: when the outer wait returns each reachable node has been called exactly once, and no job is left on any thread |
| `TraverseThreads.PoolRunsEnd` | src/utils/thread_pool.cpp:69-75 | no run of the threads is longer than the measure it starts with |
| `TraverseRuns.StepDrops` | src/query/query_traverse.cpp:59-77 | every step makes a measure smaller |
| `TraverseRuns.RunsEnd` | src/query/query_traverse.cpp:53-78 | no schedule is longer than the measure it starts with: every run ends |
| `TraverseQuery.ParallelFor` | src/utils/thread_pool.cpp:38-58 | because the step divides only the first index there is always exactly one batch, for every pool size |
| `TraverseQuery.QueryTraverse.CleanVisitFlags` | src/query/query_traverse.cpp:26-33 | all flags are down afterwards |
| `TraverseQuery.QueryTraverse.Traverse` | src/query/query_traverse.cpp:35-51 | the flags end up exactly on what is reachable from the starts, with the callback log free of duplicates; without starts nothing is touched |
| `TraverseQuery.RunJobs` | src/utils/thread_pool.cpp:13-22 | a pool of threads in which some thread that can always moves reaches the end, with that result |
| `Netlists.KeepOrder` | include/netlistDB/utils/erase_if.h:91-94 | survivors of a removal keep their order |
| `Netlists.RemovedIndexed` | src/netlist.cpp:64-84 | after removal every node sits at its index and every net at its net index |
| `Netlists.RemovedMentions` | src/net.cpp:161-163 | the edges that are left are those between kept nodes |
| `Netlists.RemovedValid` | src/transform/remove_by_mask.cpp:127-191 | after removal indexes are right, edges are recorded at both ends and no list mentions a deleted node, if and only if the kept set is closed under backward |
| `BoundaryCut.CollectRow` | src/transform/remove_by_mask.cpp:44-64 | collector t finds exactly the kept drivers of deleted nodes at indexes t modulo the thread count, sorted by their own index modulo the thread count |
| `BoundaryCut.CutStepKeeps` | src/transform/remove_by_mask.cpp:73-98 | whichever worker goes next, each boundary net is in one worker's column or has been cut once, and the lists are those of a sequential cut so far |
| `BoundaryCut.WorkersApart` | src/transform/remove_by_mask.cpp:157-169 | two workers never touch the same net |
| `BoundaryCut.CutComplete` | src/transform/remove_by_mask.cpp:73-98 | for every thread count and interleaving each boundary net is disconnected exactly once and the graph equals that of the sequential cut |
| `RemoveByMask.ColumnHolds` | src/transform/remove_by_mask.cpp:76-81 | column r of the matrix is the boundary nets with index r modulo the thread count |
| `RemoveByMask.CutIsRemoved` | src/transform/remove_by_mask.cpp:83-97 | cutting the boundary removes every deleted endpoint of every kept node |
| `RemoveByMask.AnyDeleted` | src/transform/remove_by_mask.cpp:18-31 | the report of removed nodes is true exactly when some flag is down |
| `RemoveByMask.EraseIf` | include/netlistDB/utils/erase_if.h:91-94 | moving survivors down over removed items and truncating keeps exactly the survivors in order |
| `RemoveByMask.Renumber` | include/netlistDB/utils/erase_if.h:96-104 | each item gets its position |
| `RemoveByMask.RunWorkers` | src/transform/remove_by_mask.cpp:158-170 | any scheduling of the workers ends in the sequential cut |
| `RemoveByMask.Netlist.Apply` | src/transform/remove_by_mask.cpp:127-191 | removal yields the kept part of the netlist, changes nothing and says so when nothing is deleted, and stops exactly when a boundary node is not a net |
| `RemoveUseless.UsefulClosed` | src/transform/remove_useless.cpp:32-38 | what an output depends on is closed under backward |
| `RemoveUseless.ReachableIsUseful` | src/transform/remove_useless.cpp:29-38 | reachable in the traversed index graph is the same as useful in the netlist |
| `RemoveUseless.CollectOutputs` | src/transform/remove_useless.cpp:21-27 | the starts are exactly the output nets |
| `RemoveUseless.Apply` | src/transform/remove_useless.cpp:17-47 | with at least one output the pass keeps exactly what an output depends on, leaves a valid netlist, reports a change exactly when some node is useless, and stops exactly when a kept operation also drives a deleted net |
| `RemoveUseless.SingleResultsNeverStop` | src/transform/remove_by_mask.cpp:92-95 | operations that drive one net only, as calls and assignments do, never stop the removal |
| `RemoveUseless.BehaviourKept` | src/transform/remove_by_mask.cpp:127-191 | whatever the nodes compute, each from the values one step before, for every input sequence and every number of steps, each kept node has the value it had before the removal |
| `RemoveUseless.OutputsKept` | src/transform/remove_useless.cpp:17-47 | in particular every output net |
| `RemoveUseless.RunsKept` | src/transform/remove_by_mask.cpp:127-191 | when operators settle within a step, whichever nodes delay: every run of the netlist is a run of what is kept |
| `RemoveUseless.RunsAgree` | src/transform/remove_by_mask.cpp:127-191 | and without a loop past the delaying nodes runs before and after agree on every kept node at every step |
| `RemoveUseless.OutputsSettled` | src/transform/remove_useless.cpp:17-47 | in particular on every output net |
| `RemoveUseless.SecondRunIdle` | src/transform/remove_useless.cpp:17-47 | a run on what a run has left can only end by reporting that nothing was removed |
| `RemoveUseless.ApplyTwice` | src/transform/remove_useless.cpp:17-47 | of two runs in a row the second removes nothing and reports no change, unless the first stopped |
| `Printing.PrintsExactly` | src/serializer/serializer.cpp:56-126 | an expression prints if and only if it has no event operator, no unary minus, and no complement directly over a complement or a concatenation |
| `Printing.ComplementTwiceFails` | src/serializer/serializer.cpp:103-104 | the complement of a complement dereferences a right neighbour that does not exist |
| `BracketRules.BracketsExactly` | src/serializer/serializer.cpp:59-118 | the text of an operation is that of its operands with brackets around just these: the operand of a complement that binds weaker, a right operand that does not bind tighter, a left one that binds weaker or the same as both its parent and its right neighbour, and the base of a slice that is an expression |
| `BracketRules.StopsExactly` | src/serializer/serializer.cpp:41-118 | printing ends with an exception or a fault exactly when something stops it, and which one is decided by the first in the order in which operands are looked at and printed: an operator not in the table, one that is not printed, or a complement over a complement or a concatenation |
| `BracketRules.RightMeans` | src/serializer/serializer.cpp:79-83 | that an operand which is both the left and the right one is taken for the left one makes no difference |
| `BracketRules.TableOrder` | src/serializer/verilog_constants.cpp:29-51 | the numbers of the operator table say which of two operators binds tighter, and what that order is |
| `Printing.ResolveBrackets` | src/serializer/serializer.cpp:59-118 | the bracket decision, with left and right found by comparing nets |
| `Printing.Serializer.SerializeOperand` | src/serializer/serializer.cpp:56-126 | the operand is appended with its brackets, or printing ends with the exception or fault of the decision or of the operand |
| `Printing.Serializer.SerializeCall` | src/serializer/verilog_ops.cpp:63-93 | a call appends its text, operand by operand, or ends with its exception |
| `Printing.Serializer.SerializeConcat` | src/serializer/verilog_constants.cpp:80-87 | a concatenation prints in braces |
| `Printing.Serializer.SerializeSlice` | src/serializer/verilog_constants.cpp:88-94 | a slice prints its base bracketed when it is an expression and its index without brackets |
| `Parsing.Reads` | src/serializer/verilog_constants.cpp:29-51 | in front of anything that does not belong to it a printed expression reads as itself |
| `Parsing.ReadableReadsBack` | src/serializer/serializer.cpp:90-115 | any operator table that needs no brackets where the printer leaves them out reads the text back |
| `Parsing.CodeTableReadable` | src/serializer/verilog_constants.cpp:29-51 | the printer's own table is such a table for every expression that prints |
| `Parsing.RoundTrip` | src/serializer/serializer.cpp:56-126 | every expression that prints is read back as the same tree by the left-associative grammar of the printer's table, both operands being one net included |
| `Parsing.PrintInjective` | src/serializer/serializer.cpp:56-126 | two different expressions never print the same |
| `Parsing.StandardMisreadsComplement` | src/serializer/verilog_constants.cpp:31-36 | the complement of a product reads as a product by the table of the standard |
| `Parsing.StandardMisreadsQuotient` | src/serializer/verilog_constants.cpp:33-36 | a quotient by a product reads as a product by the table of the standard |
| `Parsing.StandardMisreadsRange` | src/serializer/verilog_constants.cpp:33-45 | the sum of a range and a net reads as a range by the table of the standard |
| `Readings.SoundExpr` | src/serializer/serializer.cpp:90-115 | whatever the reader takes off a text has a reading in which each operand binds as tight as the table demands or is bracketed |
| `Readings.OneReading` | src/serializer/serializer.cpp:90-115 | a text has at most one reading for an expression |
| `Readings.ReadsBackExactly` | src/serializer/serializer.cpp:90-115 | by any sane operator table, a printed text reads back if and only if the printer leaves out no brackets the table needs |
| `Readings.StandardReadsBack` | src/serializer/verilog_constants.cpp:29-51 | by the table of the standard, it reads back if and only if the expression has no complement over a product or range, no quotient with a product on the right, and no range as operand of another infix operator |
| `Literals.CanBeInHex` | src/serializer/verilog.cpp:128-154 | the downward scan over nibbles allows the hexadecimal base exactly when each mask nibble is full or empty, a partial top nibble counting as full when it equals its part of the full mask |
| `Literals.SerializeValue` | src/serializer/verilog.cpp:113-191 | the text is size, base and digits of that choice |
| `Literals.HexExactly` | src/serializer/verilog.cpp:128-154 | the base is hexadecimal if and only if every four mask bits are all set, all clear, or set exactly below the width; a single bit is printed in binary |
| `Literals.NibbleBits` | src/bit_utils.cpp:10-13 | the four bits of a selected nibble are those of the number |
| `Literals.DigitsMean` | src/serializer/verilog.cpp:158-185 | whatever the base, the digits mean the value on its defined bits and unknown on the others |
| `Literals.LiteralRoundTrip` | src/serializer/verilog.cpp:113-191 | for every value, mask and width but zero the printed literal reads back, by section 2.5.1 of IEEE 1364-2001, as the same four-state value; the literal of width zero is no literal of the standard |
| `ExprBuilder.ApplyKeeps` | src/net.cpp:9-35 | applying an operator keeps: every call in the cache of each operand and nothing else there, no two calls with one key, drivers and endpoints in agreement with calls |
| `ExprBuilder.CacheDecides` | include/netlistDB/usage_cache_key.h:32-45 | the cache of the first operand knows exactly whether the call was made |
| `ExprBuilder.SameTreeSameNet` | include/netlistDB/usage_cache_key.h:32-45 | two nets stand for structurally equal expressions over the same leaf nets if and only if they are the same net |
| `ExprBuilder.ApplyMeans` | src/net.cpp:9-35 | the net returned stands for the operator over the expressions of the operands |
| `ExprBuilder.RunKeeps` | src/net.cpp:9-35 | all of this holds after every run of expression building, and old nets keep their expressions |
| `ExprBuilder.SharedForever` | src/net.cpp:11-14 | whatever is built in between, the same operator on the same nets returns the same net and adds nothing |
| `ExprBuilder.Netlist.ApplyCall` | src/net.cpp:9-35 | the method with its lookup, new net, new call and cache entries performs the specified step |
| `ExprBuilder.Netlist.NewCall` | src/function_call.cpp:5-18 | the constructor links endpoints in operand order, then the driver of the result |
| `Bookkeeping.CreateKeeps` | src/statement_assignment.cpp:8-20 | creating an assignment or an if keeps all records in agreement |
| `Bookkeeping.AfterCreate` | src/statement_assignment.cpp:8-20 | a new statement is in none, has no branches and rank zero, is last in the node list and last among the endpoints of each net it reads and the drivers of the one it drives, each listed once; earlier statements are as they were |
| `Bookkeeping.AdoptKeeps` | src/istatement.cpp:40-71 | nesting one top statement in another keeps all records in agreement |
| `Bookkeeping.GiveElifKeeps` | src/statement_if.cpp:39-54 | so does an else-if with its condition |
| `Bookkeeping.AdoptEachKeeps` | src/istatement.cpp:73-81 | putting a list of different top statements into a branch keeps them and takes exactly these out of the top |
| `Bookkeeping.AdoptEachMoves` | src/istatement.cpp:73-81 | the statements of a list are put, in order, behind what one branch had; no other branch, condition or record of any other statement changes, except that the top statement has more inputs and outputs and the parent their rank |
| `Bookkeeping.HandedOver` | src/istatement.cpp:55-64 | a net that listed the nested statement lists the top one last instead, unless it was listed, and keeps the order of the others |
| `Bookkeeping.AfterThen` | src/statement_if.cpp:19-28 | after filling the first branch of an if, top or nested, that branch is exactly the list and there is no other branch |
| `Bookkeeping.AfterElif` | src/statement_if.cpp:39-54 | after an else-if the branches before it are as they were, the last else-if is exactly the list, and its condition is the last one |
| `Bookkeeping.AfterElse` | src/statement_if.cpp:64-72 | after the else its branch is exactly the list and the other branches are as they were |
| `Bookkeeping.NewCalls` | src/statement_if.cpp:5-12 | on a new if the first branch or the else can be filled but no else-if added, on an assignment none of these |
| `Bookkeeping.LaterCalls` | src/statement_if.cpp:19-72 | after the first branch or an else-if only further else-ifs and the else pass the assertions, after the else no call does |
| `Bookkeeping.StepKeeps` | src/statement_if.cpp:12-72 | each call on a top statement keeps all records in agreement |
| `Bookkeeping.RunKeeps` | src/statement_if.cpp:12-72 | so does every sequence of such calls |
| `Bookkeeping.ShownAreAll` | src/istatement.cpp:55-64 | the inputs of a statement are exactly what it and everything nested in it reads, its outputs exactly what they drive |
| `Bookkeeping.ListedExactly` | src/istatement.cpp:55-64 | a net lists as endpoints and drivers exactly the top statements that read and drive it, themselves or inside |
| `Bookkeeping.ChildRank` | src/istatement.cpp:70 | a nested statement has a smaller rank than the one it is in |
| `Bookkeeping.ThenNeedsTop` | src/statement_if.cpp:19-28 | filling the first branch, which is not asserted to be done on a top statement, keeps the records in agreement if and only if it is |
| `Bookkeeping.ThenNestedFails` | src/statement_if.cpp:19-28 | a concrete nested if whose first branch is filled late |
| `Bookkeeping.EveryClimb` | src/istatement.cpp:47-50 | while the records agree every statement is inside a top one, so the climb ends |
| `Bookkeeping.Netlist.NewStatement` | src/statement_assignment.cpp:8-20 | the constructors register, connect and collect as specified |
| `Bookkeeping.Netlist.SetParent` | src/istatement.cpp:40-71 | the record changes of nesting, in a top or a nested parent: inputs and outputs go to the statement at the end of the climb, the rank to the parent |
| `Bookkeeping.TopStatement` | src/istatement.cpp:47-50 | the climb ends at the one top statement the parent is in |
| `Bookkeeping.Netlist.RegisterStatements` | src/istatement.cpp:73-81 | the loop over the statements put into a branch of a top or a nested statement |
| `Bookkeeping.Netlist.FillTrue` | src/statement_if.cpp:19-28 | the call that fills the first branch, on a top or a nested if: afterwards that branch is the list and there is no other |
| `Bookkeeping.Netlist.AddElif` | src/statement_if.cpp:39-54 | the call that adds an else-if: afterwards the last else-if is the list, behind the ones before it |
| `Bookkeeping.Netlist.FillFalse` | src/statement_if.cpp:64-72 | the call that fills the else branch: afterwards that branch is the list, and the first branch and the else-ifs are as they were |
| `OrderedSets.OrderedSet.PushBack` | include/netlistDB/utils/ordered_set.h:28-49 | appends what is new, and the hidden set is the contents exactly from the limit on and empty below it |
| `OrderedSets.OrderedSet.Discard` | include/netlistDB/utils/ordered_set.h:55-72 | removes the item in order, and the hidden set is cleared when the size falls below the limit |
| `OrderedSets.OrderedSet.Contains` | include/netlistDB/utils/ordered_set.h:78-90 | agrees with membership in the vector |
| `OrderedSets.OrderedSet.Extend` | include/netlistDB/utils/ordered_set.h:92-97 | appends what is new of another sequence, in order |
| `OrderedSets.OrderedSet.DoesIntersect` | include/netlistDB/utils/ordered_set.h:111-129 | is true if and only if the two have an item in common |
| `OrderedSets.WithoutOne` | include/netlistDB/utils/ordered_set.h:55-72 | discarding removes one item of a set without duplicates |
| `OrderedSets.WithoutKeepsOrder` | include/netlistDB/utils/ordered_set.h:64-66 | discarding keeps the order of the rest |
| `OrderedSets.AfterNoDuplicates` | include/netlistDB/utils/ordered_set.h:28-97 | no run of operations brings in a duplicate |
| `OrderedSets.Perform` | include/netlistDB/utils/ordered_set.h:28-97 | over every run the object keeps to its specification |
| `OrderedSets.VectorEraseKeeps` | src/net.cpp:161-163 | erasing the items that match from the vector alone keeps the hidden set right if and only if none matched or the size is below the limit |
| `OrderedSets.VectorEraseFails` | src/net.cpp:161-163 | four concrete items of which one is erased and stays in the hidden set |
| `QueryPaths.FirstStep` | src/query/query_path.cpp:20-28 | a walk that leaves a node for good does so along one of its edges |
| `QueryPaths.QueryPath.FindPath` | src/query/query_path.cpp:14-33 | terminates on every graph, is true exactly when the target can be reached without meeting the path, extends the path to a simple walk, and restores it otherwise |
| `QueryPaths.FindFrom` | src/query/query_path.cpp:7-12 | from an empty path: true exactly when the target can be reached by forward edges |

## Left out

- Statement trees as mutable objects: `Reduce`, `Merging` and `FillEnclosure` work on values, so
  sharing of one statement by two lists, clearing of the statement merged away, and its deletion are
  not captured. `SiblingGroup` and `ProcessReduction` have the slots that are cleared.
- The update of drivers and endpoints after a reduction or a merge, and the registration of the
  statements a dropped if leaves behind (on_reduce, on_merge).
- Reduce.ReduceStm: lists every survivor of a sibling group once and in order; the repeated pushes of
  the source are in `SiblingGroup` only.
- Reduce.ReducePreserves: for the comparisons as written it is stated under the condition that every answer
  the pass acts on is right. That wrong answers change the meaning is shown by instances
  (`MergableAsWrittenFails`, `SameAsWrittenFails`), not for each of them, because two wrong answers can cancel.
- RemoveUseless.Apply: promises nothing when no net is an output, because the flags are then never written.
- HwProcesses.GroupWrites: stated for the intended check of mergeability; as written a pair can be merged whose
  branches do not fit, which `MergableAsWritten` describes for one pair.
- Sensitivity.Query: the order of a sensitivity list is not described; nor is exactly what it holds beside the
  event calls when one is met first in an else-if or a nested statement, or the two event flags a statement keeps.
- Enclosure as stored in fields, and the check that a net is not driven twice, which is the standing precondition `OneDriver`.
- Components, hierarchy, clocks of the thread pool beyond its counters, and the memory order of the atomic operations.
- The order in which processes of one rank are merged: the source sorts them, the results hold for any order.
- The cascade of indexes an assignment takes from its destination net is a parameter of `Bookkeeping`.
- Nets and calls in the node list of `Bookkeeping`: only the entries of statements are there.
- Cached calls after nodes are deleted, since the cache then keeps dangling results.
- Types of nets, names, scopes, comments, indentation, module headers and the layout of statements in printed Verilog; tokens are not spelled out as characters except in literals.
- Pattern matching of netlists (QueryMatch), cutting drivers to break combinational loops, and the transformations that only throw.
- Memory management.
