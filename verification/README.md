# rend: a verified model

rend is a transactional key-value store with a compiled contract language. This project models
its hard parts in Dafny and proves what they promise, for all inputs and all runs:

- **Compiler** (`Machine`, `Interp`, `CodeGen`, `Scoping`, `CompileCorrect`, `CompileFn`,
  `CondTypes`, `FnCompiler`, `CompileGaps`): lowering to register bytecode against the tree-walking interpreter.
- **Optimizer** (`Clusters`, `OptimizeCorrect`, `Optimizer`, `OptimizeTwice`, `OptimizeGaps`,
  `OptimizeRules`): read clustering and jump rewriting; `Pipeline` composes compiler and optimizer.
- **Persistent maps** (`Hamt`, `HamtOps`, `PMap`, `HashBits`, `HamtMerge`, `MergeGaps`): the 32-way
  trie and its three-way merge.
- **Sorted maps** (`BTree`, `BTreeSet`, `BTreeRemove`, `BTreeWalk`, `BTreeShape`, `PBTree`): the B+-tree.
- **Commit protocols** (`GroupCommit`, `CommitRules`, `Committer`, `CommitExamples`, `MergeCommit`,
  `Occ`, `OccTrace`, `OccExamples`, `Nonce`); `MergeCommit` puts the trie merge into group commit.
- **Garbage collection** (`Gc`, `GcRoutes`), **indexes** (`IndexKeys`, `EmitKey`, `Indexes`, `IndexStore`) and
  **effect classes** (`Effects`, `EffectAtoms`).
- **Codecs** (`Options`, `Bytes`, `Json`, `JsonRoundTrip`, `JsonSpaced`, `JsonParser`, `Wire`, `ArtifactTypes`,
  `ArtifactRoundTrip`, `ArtifactReader`, `Instrs`, `Artifact`).

Code that works step by step is a class or a method with loops, proved against a specification
function; the laws are then proved about that function. `dafny verify dfyconfig.toml` checks it all.

Where a promise is false of the code, the code is kept, a lemma gives an input that breaks it, and
another says when it holds:

- A body whose code ends in the return of one branch gets no return of its own, and a call that
  falls off its end fails there (`CompileGaps.MissingReturn`). `CompileFn.CallCorrect`,
  `CondTypes.WellTypedAgree`, `CondTypes.MachineIsLenient` and `Pipeline.PipelineCorrect` hold of
  every function and say that a call fails this way exactly when the interpreter falls off such a
  body. Seen before any call, it cannot happen when the body has a tail, leaves on every branch
  (a last `return`, or an `if` whose branches all return), or has code that does not end in a
  return (`CondTypes.NeverLost`).
- On a condition that is not a bool the interpreter stops and compiled code goes on
  (`CompileGaps.NonBoolCondition`); what it does then is what an interpreter does that takes every
  value but `false` as true (`CondTypes.MachineIsLenient`), and that differs from the interpreter in
  no other call (`CondTypes.CallLoosened`).
- Read clustering changes the answers of ordinary compiled programs in two ways: a deferred
  instruction names a register that a hoisted read fills (`OptimizeGaps.DeferredOverwrites`), or a
  loop header lies inside a cluster, so that every iteration reloads a local
  (`OptimizeGaps.LoopReloads`). Excluding both is enough: `OptimizeCorrect.SameMeaning` holds under
  `Safe`, which can be evaluated on the code before the pass (`OptimizeCorrect.BoundsDetermined`).
  The converse is proved for one instruction: a read may move across it, for all kernels and
  registers, if and only if it does not name the read's destination, apart from a move onto itself
  and an instruction that can only panic (`Clusters.CommutesExactly`). A whole function outside
  `Safe` can still mean the same, when what was changed is never looked at.
- Splitting a leaf whose keys share a slot loses a key (`PMap.SkippedLevelLosesKey`);
  `HamtOps.SetCorrect` is an if-and-only-if with the no-skip condition.
- Merging against a base of another shape brings a deleted key back (`MergeGaps.DeletedKeyIsBack`,
  on tries reached by sets and removes); `HamtMerge.MergeCorrect` is an if-and-only-if.
- The merge can decline although no key was changed two ways (`MergeGaps.DeclinesWithoutConflict`);
  `MergeGaps.DeclinesExactly` says when it declines.
- A transaction that reads a missing cell whose type's default is not among the recognised ones
  does not validate, even undisturbed; `Occ.UndisturbedValidates` is an if-and-only-if, and
  `OccExamples.MissingSortedMapConflicts` shows a one-read transaction on a missing sorted map.
- A stale unique link refuses a key that no record has (`Indexes.StaleLinkRefuses`,
  `Indexes.PutRefused`), and deleting an absent key differs between bytecode and interpreter
  (`Indexes.DeletesPart`) exactly when a stale link from the default's key remains
  (`Indexes.CompiledAgrees`).
- Two functions of one name can keep the effect analysis running forever
  (`Effects.TwinsNeverSettle`, `Effects.TwinsCycle`), and do no harm when they classify alike
  (`Effects.Classify`); the type checker rejects them before it runs.

Where code and documentation disagree, the code is modelled: the merge is a merge of values and
not byte-identical to a serial run, it declines for other reasons than a key written twice, routing
keys of the sorted map only bound their subtrees after removals (they need not be the smallest key
to their right), and the JSON reader accepts leading zeros, which section 6 of RFC 8259 does not
allow.

## Model

| member | source | states |
|---|---|---|
| Machine.RunCompose | crates/rend/src/vm.rs:286-345 | running m then n ticks is running m + n |
| Machine.RunPrefix | crates/rend/src/vm.rs:286-345 | a run still going after n ticks was going after every fewer |
| OptimizeRules.StepRules | crates/rend/src/vm.rs:345-352 | a call passes its argument registers and keeps the callee's state; increments and path reads and writes do what they say |
| OptimizeRules.BatchExactly | crates/rend/src/vm.rs:1187-1210 | a batch leaves in each register what the last of its reads into it fetched, and the others alone |
| CompileCorrect.ExprCorrect | crates/rend/src/compile.rs:2116-2252 | the code of any expression, run anywhere it is placed, leaves the interpreter's value in the target register and every other live register unchanged, or fails with the interpreter's error |
| CompileCorrect.AssignCorrect | crates/rend/src/compile.rs:1047-1065 | assignment to a local or a state slot gives the interpreter's variables and state |
| CompileCorrect.StmtCorrect | crates/rend/src/compile.rs:755-838 | the code of any statement ends as the interpreter does: fall through, break, continue, return, error or no end, with the same variables and state |
| CompileCorrect.StmtsCorrect | crates/rend/src/compile.rs:696-717 | the same for statement lists |
| CompileCorrect.BlockCorrect | crates/rend/src/compile.rs:696-717 | the same for blocks, whose registers are given back at the end |
| CompileCorrect.IfCorrect | crates/rend/src/compile.rs:2084-2114 | the same for if, else and else-if chains, with their patched jumps |
| CompileCorrect.WhileCorrect | crates/rend/src/compile.rs:1006-1045 | the same for loops with break and continue, by induction on iterations; a loop that never ends keeps the machine running |
| CompileFn.CallCorrect | crates/rend/src/compile.rs:314-383 | a whole call gives the interpreter's result, state or error, except exactly when the body falls off its end and the code already ends in a return: then it fails past the end of the code |
| CompileFn.HaltsTogether | crates/rend/src/compile.rs:719-734 | if the machine halts, the interpreter does, within as many loop levels as ticks |
| CompileFn.StmtsNoHoles | crates/rend/src/compile.rs:755-838 | outside loops no unpatched break or continue remains |
| Scoping.BindExactly | crates/rend/src/interp.rs:238-241 | every parameter is bound to its own argument, the later of two with one name, and nothing else is bound |
| Scoping.ParameterReturned | crates/rend/src/interp.rs:238-243 | a function that returns a parameter returns its argument, whatever state has that name |
| Scoping.CompilesExactly | crates/rend/src/compile.rs:755-838 | a function compiles if and only if every name is a parameter, a declared state or a let in scope, and every break and continue is inside a loop |
| CondTypes.CallTyped | crates/rend/src/interp.rs:795-810 | well-typed conditions never raise the interpreter's not-a-bool error |
| CondTypes.WellTypedAgree | crates/rend/src/interp.rs:183-252 | for every well-typed function, interpreter and machine reach exactly the same answers and errors, except that the machine fails past its code exactly when the interpreter falls off a body whose code ends in a return; no exception under the condition of `NeverLost` |
| CondTypes.StmtsNeverHandOn | crates/rend/src/interp.rs:183-252 | statements that leave on every branch never hand on to what follows them |
| CondTypes.NeverLost | crates/rend/src/compile.rs:366-374 | a body with a tail, or that leaves on every branch, or whose code does not end in a return, never runs past its code |
| CondTypes.IfLeavesExactly | crates/rend/src/compile.rs:2084-2114 | an if leaves exactly when it has an else and every branch leaves |
| CondTypes.ReturnCovers | crates/rend/src/compile.rs:366-374 | a body with a return of its own is within the condition of `NeverLost` |
| CondTypes.MachineIsLenient | crates/rend/src/vm.rs:286-345 | the same as `WellTypedAgree` for every function, typed or not, against the interpreter that tests conditions as the machine does |
| CondTypes.CallLoosened | crates/rend/src/interp.rs:795-810 | that interpreter differs from the real one only in calls the real one stops at a condition that is not a bool |
| FnCompiler.Compiler.AllocReg | crates/rend/src/compile.rs:465-472 | registers are handed out in stack order and the high-water mark kept |
| FnCompiler.Compiler.FreeReg | crates/rend/src/compile.rs:474-478 | only the topmost register is given back |
| FnCompiler.Compiler.ConstIdx | crates/rend/src/compile.rs:562-571 | equal constants share one index |
| FnCompiler.Compiler.LookupLocal | crates/rend/src/compile.rs:687-694 | the innermost binding wins |
| FnCompiler.Compiler.CompileExprInto | crates/rend/src/compile.rs:2116-2252 | the mutating compiler appends exactly the specified code |
| FnCompiler.Compiler.CompileStmt | crates/rend/src/compile.rs:755-838 | likewise for statements, recording placeholder jumps of the innermost loop |
| FnCompiler.Compiler.CompileBlock | crates/rend/src/compile.rs:696-717 | likewise for blocks |
| FnCompiler.Compiler.CompileWhile | crates/rend/src/compile.rs:1006-1045 | likewise for loops: back edge, exit test and placeholders patched in place |
| FnCompiler.Compiler.CompileIf | crates/rend/src/compile.rs:2084-2114 | likewise for conditionals |
| FnCompiler.PatchedLoop | crates/rend/src/compile.rs:1022-1043 | patching the recorded placeholders gives the loop with every hole aimed at its target |
| FnCompiler.CompileFunction | crates/rend/src/compile.rs:314-383 | the in-place compiler computes the specified function |
| CompileGaps.MissingReturn | crates/rend/src/compile.rs:366-374 | an early return in a branch leaves a path off the end of the code, where the interpreter returns unit; the body is outside the condition of `NeverLost` |
| CompileGaps.NonBoolCondition | crates/rend/src/interp.rs:795-803 | a call of `if 1 {}` is an error in the interpreter and returns unit compiled |
| OptimizeGaps.DeferredOverwrites | crates/rend/src/optimize.rs:158-162 | a compiled program that returns a state as compiled, and a discarded constant in every layout of the pass |
| OptimizeGaps.LoopReloads | crates/rend/src/optimize.rs:105-112 | a compiled loop that counts as compiled, and in every layout of the pass reloads its variable and returns the start value |
| OptimizeGaps.LoopReloadsFive | crates/rend/src/optimize.rs:105-112 | the same on one kernel and state: 6 as compiled, 5 optimized |
| Clusters.WriteCommutes | crates/rend/src/optimize.rs:203-334 | an instruction that does not name a register commutes with writing it |
| Clusters.CommutesExactly | crates/rend/src/optimize.rs:158-162 | for all kernels, registers and states a read commutes with an instruction if and only if the instruction does not name its destination, is a move of it onto itself, or can only panic |
| OptimizeRules.BlockEndsExactly | crates/rend/src/optimize.rs:203-370 | a cluster runs from a read to the first instruction that writes state, jumps, returns, calls what may write, or takes a register that a read of the cluster filled |
| Clusters.ReadsFirst | crates/rend/src/optimize.rs:79-120 | issuing a hazard-free cluster's reads first gives the same registers or the same error |
| OptimizeCorrect.ClusterSim | crates/rend/src/optimize.rs:79-120 | a clustered block steps to the same registers and state as the original |
| OptimizeCorrect.Forward | crates/rend/src/optimize.rs:60-198 | every halting run of the original is matched by the optimized code from the image of any block |
| OptimizeCorrect.Backward | crates/rend/src/optimize.rs:60-198 | and every halting run of the optimized code by the original |
| OptimizeCorrect.BoundsDetermined | crates/rend/src/optimize.rs:122-174 | the blocks of the pass are a function of the code and of the functions that write nothing |
| OptimizeCorrect.SameMeaning | crates/rend/src/optimize.rs:60-198 | from any registers and state, original and optimized code end in exactly the same results and errors, when clusters are hazard free and jumps land on block starts |
| OptimizeRules.SafeExactly | crates/rend/src/optimize.rs:122-195 | that condition spelled out on positions: no instruction before a read of its block uses the register the read fills, and jumps land on block starts or past the end |
| Optimizer.Pass.Visit | crates/rend/src/optimize.rs:122-174 | one instruction of the pass keeps the blocks emitted so far, the open cluster and the index map |
| Optimizer.Pass.Flush | crates/rend/src/optimize.rs:79-120 | closing a cluster emits its reads, alone or as one batch, then what was deferred |
| Optimizer.PatchJumps | crates/rend/src/optimize.rs:178-195 | every jump is re-aimed at the image of its old target |
| Optimizer.OptimizeFn | crates/rend/src/optimize.rs:60-198 | the pass lays out every block as its reads followed by the rest, and every jump goes to the image of its old target: the batch for any read of a cluster, its own place for a deferred instruction |
| OptimizeTwice.OutputSettled | crates/rend/src/optimize.rs:60-198 | whatever the pass makes has no two reads left in one cluster, and every jump stays within the code |
| OptimizeTwice.Idempotent | crates/rend/src/optimize.rs:50-58 | a second run changes nothing: code, constants and batches of any output of the pass are left as they are |
| Pipeline.CompiledInRange | crates/rend/src/compile.rs:465-472 | compiled code names no register outside the file it declares |
| Pipeline.PipelineCorrect | crates/rend/src/engine.rs:118-128 | compiled and then optimized, a function meeting the optimizer's condition ends every call as the interpreter does, with the one exception of the missing return stated exactly, and none under the condition of `NeverLost` |
| OptimizeRules.TwoReadsAgree | crates/rend/src/engine.rs:118-128 | a compiled program of two reads meets every condition, and optimized returns what the interpreter returns |
| OptimizeRules.CountWellTyped | crates/rend/src/interp.rs:795-810 | a program with a loop that is well typed |
| Hamt.GetIsValue | crates/rend/src/pmap.rs:149-187 | a lookup in a present trie is its value at the key |
| Hamt.InsertChild | crates/rend/src/pmap.rs:245-280 | inserting into the packed children changes exactly one slot |
| Hamt.RemoveChild | crates/rend/src/pmap.rs:335-389 | removing from the packed children empties exactly one slot |
| HamtOps.BuildSound | crates/rend/src/pmap.rs:284-319 | a built tree never yields anything that was not put in |
| HamtOps.BuildCorrect | crates/rend/src/pmap.rs:284-319 | a built tree finds all its entries if and only if no level is skipped |
| HamtOps.SetCorrect | crates/rend/src/pmap.rs:199-282 | set changes exactly one key and keeps alignment, if and only if it does not skip a level |
| HamtOps.RemoveCorrect | crates/rend/src/pmap.rs:321-389 | remove deletes exactly one key, keeps alignment, reports whether it was there and returns the same root if not |
| HamtOps.SkipLoses | crates/rend/src/pmap.rs:305-310 | a skipped level makes some entry unreachable |
| PMap.Tx.Buckets | crates/rend/src/pmap.rs:296-304 | grouping by slot, in any order |
| PMap.Tx.BuildFromEntries | crates/rend/src/pmap.rs:284-319 | the cell-writing build returns the specified tree, all of it stored, and drops no cell |
| PMap.Tx.SetAt | crates/rend/src/pmap.rs:211-282 | likewise for set |
| PMap.Tx.RemoveAt | crates/rend/src/pmap.rs:335-389 | likewise for remove |
| PMap.RunCorrect | crates/rend/src/pmap.rs:199-389 | any run of sets and removes that never skips is a finite map at every key, and the empty root exactly when the map is empty |
| PMap.SkippedLevelLosesKey | crates/rend/src/pmap.rs:305-310 | two keys in one slot that part one level down: one of them is lost |
| HashBits.DigitLaw | crates/rend/src/pmap.rs:751-753 | the slots of a key are the base-32 digits of its hash |
| HashBits.TwoKeysFound | crates/rend/src/pmap.rs:284-319 | two keys are both found if and only if their hashes differ modulo 32 or agree in the low fifty bits |
| HashBits.SpreadRun | crates/rend/src/pmap.rs:199-389 | a run over keys whose hashes differ modulo 32 finds exactly what a finite map holds |
| HamtMerge.MergeCorrect | crates/rend/src/pmap.rs:536-660 | a successful merge takes A's value where A changed and B's elsewhere, and never a key changed two ways, if and only if the base shape allows it |
| HamtMerge.MergeAligned | crates/rend/src/pmap.rs:536-660 | merging aligned tries gives an aligned or empty trie |
| HamtMerge.MergeConserves | crates/rend/src/pmap.rs:505-516 | when no key changed on both sides, total(merged) = total(A) + total(B) - total(base) |
| HamtMerge.DeletedKeyReturns | crates/rend/src/pmap.rs:615-618 | against a leaf base, two inner nodes bring back a key one side deleted |
| MergeGaps.DeletedKeyIsBack | crates/rend/src/pmap.rs:615-618 | three tries reached by sets and removes that skip no level, whose merge goes through and holds the deleted key |
| MergeGaps.DeclinesExactly | crates/rend/src/pmap.rs:536-660 | the merge declines if and only if at some compared position one side has nothing, the shapes differ or an entry was changed two ways |
| MergeGaps.DeclinesWithoutConflict | crates/rend/src/pmap.rs:549-550 | a merge that declines with no key changed on both sides |
| HamtMerge.MergeEntries | crates/rend/src/pmap.rs:553-600 | the leaf walk, in any order of keys |
| HamtMerge.MergeAt | crates/rend/src/pmap.rs:536-660 | the recursive merge with its output cells: every node of the result is stored or among them |
| HamtMerge.MergeNodes | crates/rend/src/pmap.rs:604-659 | the slot loop |
| BTree.DescendPos | crates/rend/src/pbtree.rs:104-111 | binary search finds the one child that can hold a key |
| BTree.GetCorrect | crates/rend/src/pbtree.rs:126-144 | a lookup finds exactly what the leaves hold |
| BTree.FlatSorted | crates/rend/src/pbtree.rs:46-59 | the leaves of a well-formed tree, read left to right, are strictly sorted |
| BTreeSet.PackInnerCorrect | crates/rend/src/pbtree.rs:237-254 | an inner split keeps bounds and contents, the middle key going up |
| BTreeSet.SetAtCorrect | crates/rend/src/pbtree.rs:189-258 | inserting below any node keeps bounds and performs the sorted insertion |
| BTreeSet.SetCorrect | crates/rend/src/pbtree.rs:165-187 | the same for any root, wrapping a split |
| BTreeRemove.DropChild | crates/rend/src/pbtree.rs:331-343 | dropping a child and one routing key keeps the bounds of the rest |
| BTreeRemove.RemoveAtCorrect | crates/rend/src/pbtree.rs:295-357 | removal deletes exactly one key; unchanged exactly when absent, gone exactly when nothing is left |
| BTreeRemove.RemoveCorrect | crates/rend/src/pbtree.rs:280-293 | an absent key returns the very same root, and EMPTY exactly when the map empties |
| BTreeWalk.CollectEntries | crates/rend/src/pbtree.rs:484-500 | the full walk appends exactly the contents in order |
| BTreeWalk.Entries | crates/rend/src/pbtree.rs:471-482 | all entries of a root |
| BTreeWalk.RangeLeaf | crates/rend/src/pbtree.rs:387-393 | the leaf scan that stops early misses nothing |
| BTreeWalk.RangeAt | crates/rend/src/pbtree.rs:376-406 | only overlapping children are visited and exactly the in-range values are appended, in order |
| BTreeWalk.Range | crates/rend/src/pbtree.rs:362-374 | range(lo, hi) of a root |
| BTreeWalk.SeekCorrect | crates/rend/src/pbtree.rs:426-468 | the directed descent finds the first entry after the target |
| BTreeWalk.CursorCorrect | crates/rend/src/pbtree.rs:408-468 | a cursor over arbitrary changing roots yields strictly increasing keys, each present when yielded, and at exhaustion every key present throughout |
| BTreeWalk.CursorStill | crates/rend/src/pbtree.rs:408-468 | with no changes a cursor yields exactly the entries |
| BTreeShape.SetKeepsPacked | crates/rend/src/pbtree.rs:189-258 | an insertion keeps every node below the root at least half full and the leaves level |
| BTreeShape.PackedSize | crates/rend/src/pbtree.rs:37 | a subtree of height h holds between 16 * 17^h and 32 * 33^h entries |
| BTreeShape.GrownPacked | crates/rend/src/pbtree.rs:178-258 | every tree grown by sets alone is level and packed, and with h inner levels holds at least 2 * 16 * 17^(h-1) entries |
| PBTree.Locate | crates/rend/src/pbtree.rs:205-208 | binary search in a leaf |
| PBTree.Tx.SetInner | crates/rend/src/pbtree.rs:189-258 | the cell-writing insert returns the specified result, fails exactly when a cell on the path is missing and then writes nothing |
| PBTree.Tx.Set | crates/rend/src/pbtree.rs:165-187 | the same for roots |
| PBTree.Tx.RemoveInner | crates/rend/src/pbtree.rs:295-357 | the cell-writing removal |
| PBTree.Tx.Remove | crates/rend/src/pbtree.rs:280-293 | the same for roots; an absent key writes nothing |
| PBTree.RunCorrect | crates/rend/src/pbtree.rs:165-357 | after any run of sets and removes the entries are exactly the map's pairs in key order |
| PBTree.Tx.Replay | crates/rend/src/pbtree.rs:102-357 | every root ever made stays readable and keeps its contents |
| GroupCommit.KeysApart | crates/rend-rocksdb/src/lib.rs:58-63 | namespaces and cells never share a key on disk |
| GroupCommit.KeyLayout | crates/rend-rocksdb/src/lib.rs:58-63 | a key is eight bytes of namespace and sixteen of cell, big-endian |
| GroupCommit.RocksKv.VisitRead | crates/rend-rocksdb/src/lib.rs:436-480 | one recorded read holds, is rescued by a merge, or conflicts |
| GroupCommit.RocksKv.ValidateAndApplyJob | crates/rend-rocksdb/src/lib.rs:425-495 | whatever order the reads are visited in, the verdict is that of an order-free specification, and so are the promoted cells unless two merged nodes of the job share a name and differ |
| CommitRules.VerdictExactly | crates/rend-rocksdb/src/lib.rs:436-480 | a job is committed if and only if each cell it read has the bytes it saw, or is missing where a default was seen, or holds a map the job read and rewrote and that merges; a refused job changes nothing |
| CommitRules.StaleReadRefused | crates/rend-rocksdb/src/lib.rs:446-466 | a stale read of anything else is a conflict |
| CommitRules.PlainJob | crates/rend-rocksdb/src/lib.rs:425-495 | a job that writes no map is committed if and only if every read holds, and leaves exactly its writes |
| CommitRules.LeavesExactly | crates/rend-rocksdb/src/lib.rs:482-493 | what a committed job leaves in every cell: merged nodes, merged roots, its writes, and the rest as it was |
| GroupCommit.RocksKv.Flush | crates/rend-rocksdb/src/lib.rs:262-272 | the overlay lands in its namespace and nowhere else |
| GroupCommit.RocksKv.CommitBatch | crates/rend-rocksdb/src/lib.rs:238-290 | outcomes and stored bytes of a batch are those of committing its jobs one at a time, when no accepted job merges two different nodes of one name |
| GroupCommit.EffectiveTwice | crates/rend-rocksdb/src/lib.rs:392-407 | promoting into the overlay is storing, as far as any later reader can see |
| GroupCommit.CutsDoNotMatter | crates/rend-rocksdb/src/lib.rs:219-232 | every cut of the jobs into batches gives the same outcomes and bytes |
| GroupCommit.ConflictsLeaveNoTrace | crates/rend-rocksdb/src/lib.rs:258-261 | dropping the conflicting jobs changes neither the bytes nor the other answers |
| GroupCommit.ContentNamesClean | crates/rend-rocksdb/src/lib.rs:481-490 | cells named by their bytes, with no collision among the bytes that occur, meet that condition |
| CommitExamples.TwoWritersMerge | crates/rend-rocksdb/src/lib.rs:425-495 | a run of two jobs, the second rescued by a merge that stores a node, which meets it |
| MergeCommit.CommittedMerge | crates/rend-rocksdb/src/lib.rs:436-480 | with the trie merge and cells named by the hash of their bytes, a rescued job leaves the root of the three-way merge in its cell, every node of it readable from the store, and the map lawful exactly when the base was usable |
| MergeCommit.BothKeysLand | crates/rend-rocksdb/src/lib.rs:436-480 | two writers of one map, different keys: the late one is rescued and both keys land |
| MergeCommit.SalvagedMerge | crates/rend/src/occ.rs:157-183 | the same for a transaction salvaged in memory: each merged cell holds the root of the three-way merge of what was written, what is there and what the snapshot had |
| MergeCommit.BothKeysSalvaged | crates/rend/src/occ.rs:130-203 | the late writer as a transaction: it can be salvaged and both keys land |
| Committer.Drain | crates/rend-server/src/committer.rs:53-72 | a batch is a non-empty prefix of the queue of at most 64 jobs |
| Committer.ProcessBatch | crates/rend-server/src/committer.rs:74-128 | each sender gets the answer to its own job; a failed write answers Conflict and stores nothing |
| Committer.Run | crates/rend-server/src/committer.rs:53-128 | for every schedule and any write failures the bytes are those of exactly the jobs answered Committed, each acceptable at its turn; with no failure, those of running one at a time; the bytes under the same condition on names |
| Occ.Replays | crates/rend/src/occ.rs:9-16 | a transaction whose recorded reads hold in another store does there exactly what it did |
| OccTrace.ReadsOwnWrites | crates/rend/src/tx.rs:421-427 | over a whole run, a read returns the transaction's own last write, else what it saw first, else the stored value at that type; the writes are the last ones and the recorded reads the first |
| OccTrace.TraceRuns | crates/rend/src/tx.rs:421-427 | every such trace that ends in a result is run to that result |
| Occ.InMemoryKv.Validate | crates/rend/src/occ.rs:223-233 | validation in any order of reads |
| Occ.InMemoryKv.TryMerge | crates/rend/src/occ.rs:130-203 | salvage succeeds exactly when every mismatch is a persistent map that was written and merges, and gives the writes with merged roots and nodes whatever the order of cells, unless names clash |
| CommitRules.SalvageExactly | crates/rend/src/occ.rs:130-183 | a speculation can be salvaged if and only if each cell it read is unchanged or holds a map it read and rewrote and that merges against the snapshot's |
| Occ.InMemoryKv.CommitBatch | crates/rend/src/occ.rs:86-121 | a successful batch leaves the store and results of taking the transactions in order, each run or salvaged at its turn, whatever the fuel; with none salvaged that is the sequential run; conflicts counts the re-executed and merged the salvaged; a failed speculation leaves the store alone |
| Occ.UndisturbedValidates | crates/rend/src/serialize.rs:512-536 | an undisturbed transaction validates if and only if each cell it first read is canonical, or missing with a recognised default |
| OccExamples.MissingSortedMapConflicts | crates/rend/src/serialize.rs:512-536 | a transaction that reads a missing sorted map fails validation against the store it ran on, in memory and in group commit |
| Occ.StoredDefaultIsMissing | crates/rend/src/occ.rs:223-233 | a stored default and a missing cell read the same and give the same verdict |
| Nonce.EveryRun | crates/rend-rocksdb/src/lib.rs:329-361 | in every interleaving accepted nonces of an address strictly increase, commits and winners correspond one to one, and too-low is answered only when a value at least as large was stored |
| Nonce.Undisturbed | crates/rend-rocksdb/src/lib.rs:349-358 | an attempt alone commits exactly when its nonce is above the stored one, and is otherwise turned away with the stored value |
| Nonce.FinishExactly | crates/rend-rocksdb/src/lib.rs:349-358 | how an attempt ends in any run: too low, committed, or back to the start |
| Nonce.VersionCounts | crates/rend-rocksdb/src/lib.rs:329-361 | a version is the number of commits to the address |
| Nonce.AddressesApart | crates/rend-rocksdb/src/lib.rs:329-361 | a step on one address leaves every other alone |
| Nonce.RetrySeesMore | crates/rend-rocksdb/src/lib.rs:352-358 | a justified retry means the stored nonce has grown since it was read |
| Gc.WalkReachable | crates/rend/src/pmap.rs:451-472 | the walk terminates on every store, marks only what it reaches and closes what it marks |
| Gc.ReachableCells | crates/rend/src/pmap.rs:440-449 | exactly the cells reachable from the root |
| Gc.InMemoryKv.Mark | crates/rend/src/gc.rs:70-91 | the live set is the state cells and what their maps and vectors reach |
| Gc.InMemoryKv.Sweep | crates/rend/src/gc.rs:65-101 | exactly the candidates outside the live set are removed; `swept` counts them and `kept` the live set |
| Gc.LiveMapsIntact | crates/rend/src/gc.rs:54-64 | every live map reads the same along every route from the root its cell decodes to |
| GcRoutes.SweptExactly | crates/rend/src/gc.rs:65-101 | a cell goes if and only if it is a candidate, no state's cell, and on no route from the root that a map or vector state holds |
| GcRoutes.RoutesKept | crates/rend/src/gc.rs:76-91 | every route from such a root leads over the same bytes before and after, and there are no new ones |
| Gc.SweepTwice | crates/rend/src/gc.rs:65-101 | a second sweep removes nothing |
| IndexKeys.ProjectIndexKey | crates/rend/src/interp.rs:2150-2174 | the projection loop computes the specified key or fails with the first bad field |
| IndexKeys.WalkFieldPath | crates/rend/src/interp.rs:2176-2207 | following a field path through nested structs |
| IndexKeys.LookupExactly | crates/rend/src/interp.rs:2176-2207 | field access gives the first field of that name |
| IndexKeys.ToBeOrder | crates/rend/src/ops.rs:362-378 | big-endian bytes order as the numbers do, i32 by signed order |
| IndexKeys.ToBeExactly | crates/rend/src/ops.rs:362-378 | an integer becomes its own bytes at its own width, a signed one shifted by 2^31 |
| IndexKeys.NotReverses | crates/rend/src/ops.rs:379-386 | inverting bytes reverses the order |
| IndexKeys.KeyOrder | crates/rend/src/interp.rs:2142-2149 | byte order of packed keys is field priority with DESC reversed, and packing is injective |
| IndexKeys.ColumnsCompare | crates/rend/src/interp.rs:2142-2149 | records with the same integer column meet the condition of that order |
| EmitKey.Emitter.EmitFieldPath | crates/rend/src/compile.rs:486-501 | the emitted field chain walks the path and spares every live register |
| EmitKey.Emitter.EmitIndexKey | crates/rend/src/compile.rs:508-560 | the emitted code computes the interpreter's key for every record, fails exactly when it fails, and spares every live register |
| Indexes.ApplyKeeps | crates/rend/src/interp.rs:906-1127 | a write or delete that goes through keeps every record linked under its current key, lists duplicate free |
| Indexes.RunCovered | crates/rend/src/interp.rs:821-1127 | over every run of transactions from empty: each record is linked in every index and unique keys are never shared |
| Indexes.RunRecords | crates/rend/src/interp.rs:821-1127 | the records of a run are those of its committed statements, as a plain map |
| Indexes.PutRefused | crates/rend/src/interp.rs:1086-1101 | a write is refused if and only if a unique index links its key to another record, present or not, or a key cannot be projected |
| Indexes.StaleLinkRefuses | crates/rend/src/interp.rs:1086-1101 | a key nobody has any more can be refused |
| Indexes.DeleteSucceeds | crates/rend/src/interp.rs:821-897 | deleting an indexed record never fails |
| Indexes.CompiledKeeps | crates/rend/src/compile.rs:1636-1746 | the compiled delete keeps the indexes covering the map |
| Indexes.CompiledAgrees | crates/rend/src/compile.rs:1628-1635 | it does what the interpreter does if and only if the record is there or no stale link from the default's key remains |
| Indexes.DeletesPart | crates/rend/src/compile.rs:1628-1635 | a run after which the two deletes differ, and with them the verdict on the next write |
| IndexStore.Store.MaintainIndexes | crates/rend/src/interp.rs:994-1127 | the in-place loop links the record in every index or reports the violation |
| IndexStore.Store.UnmaintainIndexes | crates/rend/src/interp.rs:906-992 | the in-place loop unlinks it |
| IndexStore.Store.Exec | crates/rend/src/interp.rs:1983-2002 | one write or delete statement |
| IndexStore.Store.Commit | crates/rend/src/interp.rs:821-1127 | a failed statement discards the whole transaction |
| Effects.StmtsMono | crates/rend/src/effects.rs:224-474 | classification is monotone in the classes of the callees and only raises its accumulator |
| Effects.UpdateKeeps | crates/rend/src/effects.rs:176-188 | an in-place update raises the table and keeps it under every solution |
| Effects.Classify | crates/rend/src/effects.rs:144-194 | the iteration terminates with the least solution of the call-graph equations, when functions of one name, if any, classify alike |
| Effects.OrderIndependent | crates/rend/src/effects.rs:165-194 | the order of the functions does not matter |
| Effects.SweepSettles | crates/rend/src/effects.rs:172-191 | a sweep changes nothing if and only if the table agrees with every body |
| Effects.TwinsSettleExactly | crates/rend/src/effects.rs:172-191 | two functions of one name that call nothing local settle if and only if they have one class |
| Effects.TwinsCycle | crates/rend/src/effects.rs:165-191 | functions with a repeated name for which a solution exists and the iteration still runs forever |
| Effects.TwinsNeverSettle | crates/rend/src/effects.rs:172-191 | with two functions of one name every sweep changes the table |
| EffectAtoms.ClassExactly | crates/rend/src/effects.rs:224-474 | a function reads, writes or is impure if and only if something in its statements is, collected with no order and no accumulator |
| EffectAtoms.WritersWrite | crates/rend/src/effects.rs:263-280 | a function that deletes, emits, reserves or assigns to a state is classed as writing |
| EffectAtoms.ReadersRead | crates/rend/src/effects.rs:224-474 | one that reads a state is classed as reading, one that calls a host or unknown function as impure |
| Json.Utf8RoundTrip | crates/rend/src/json.rs:283-297 | every scalar value decodes from its own UTF-8 bytes, whose length its first byte gives |
| JsonRoundTrip.StrParses | crates/rend/src/json.rs:132-148 | a printed string, escapes and all, parses back and consumes exactly its text |
| JsonRoundTrip.IntParses | crates/rend/src/json.rs:352-399 | a printed integer of any size parses back, unless what follows would extend it |
| JsonRoundTrip.ValueParses | crates/rend/src/json.rs:82-130 | the same for every float-free value with distinct object keys |
| JsonRoundTrip.DocumentRoundTrip | crates/rend/src/json.rs:174-187 | parsing the canonical text of a value returns the value |
| JsonRoundTrip.PrintableExactly | crates/rend/src/json.rs:82-130 | the values this holds for are those with no float and no repeated key anywhere inside |
| JsonSpaced.SpacedDocument | crates/rend/src/json.rs:174-350 | however it is spaced between tokens, and whatever escapes its strings use, a text is read as the value it spells |
| JsonSpaced.TrailingRefused | crates/rend/src/json.rs:174-187 | anything but white space after a document refuses it |
| JsonSpaced.ControlRefused | crates/rend/src/json.rs:280-282 | a control character inside a string refuses it |
| JsonSpaced.EscapeDenotes | crates/rend/src/json.rs:250-279 | what each escape denotes |
| JsonSpaced.IntTextParses | crates/rend/src/json.rs:352-399 | an integer literal is read as the number its digits make, leading zeros included |
| JsonSpaced.FloatTextParses | crates/rend/src/json.rs:352-399 | a literal with a point or an exponent is a float that keeps its text |
| JsonSpaced.RepeatedKey | crates/rend/src/json.rs:324-350 | a repeated key keeps its place and takes the new value |
| JsonRoundTrip.PrintInjective | crates/rend/src/json.rs:67-73 | different values print differently, and none is a proper prefix of another unless a number is extended |
| JsonParser.Parser.ParseString | crates/rend/src/json.rs:243-302 | the cursor's string loop agrees with the grammar |
| JsonParser.Parser.ParseNum | crates/rend/src/json.rs:352-399 | likewise for numbers |
| JsonParser.Parser.ParseAny | crates/rend/src/json.rs:219-232 | likewise for values |
| JsonParser.Parser.ParseArray | crates/rend/src/json.rs:304-322 | likewise for arrays |
| JsonParser.Parser.ParseObject | crates/rend/src/json.rs:324-350 | likewise for objects, a repeated key keeping its place |
| JsonParser.ParseDocument | crates/rend/src/json.rs:174-187 | likewise for whole documents |
| JsonParser.WriteString | crates/rend/src/json.rs:132-148 | the writer appends exactly the specified text |
| JsonParser.WriteValue | crates/rend/src/json.rs:82-130 | likewise for values |
| Wire.ReadStrWrite | crates/rend/src/artifact.rs:1395-1407 | a written string reads back, with exactly what followed |
| ArtifactRoundTrip.TypeRoundTrip | crates/rend/src/artifact.rs:602-797 | reading a written type returns its normal form and exactly what followed |
| ArtifactTypes.SmallTypesExactly | crates/rend/src/artifact.rs:602-797 | a list of types can be written exactly when each of them can |
| ArtifactRoundTrip.PrefixFree | crates/rend/src/artifact.rs:602-797 | no written type is a proper prefix of another, and equal bytes mean equal normal forms |
| ArtifactRoundTrip.NormalTwice | crates/rend/src/artifact.rs:719-737 | normalization is idempotent |
| ArtifactReader.Reader.TakeBytes | crates/rend/src/artifact.rs:1417-1428 | the cursor takes exactly n bytes or fails in place |
| ArtifactReader.Reader.ReadTy | crates/rend/src/artifact.rs:699-797 | the cursor-based type reader agrees with the format |
| ArtifactReader.Reader.ReadMemberList | crates/rend/src/artifact.rs:722-731 | likewise for struct fields and groups, collected side by side |
| Instrs.TagBack | crates/rend/src/artifact.rs:836-917 | every opcode byte reads back as its opcode |
| Instrs.LayoutsAgree | crates/rend/src/artifact.rs:919-1382 | writer and reader agree on the operands of every opcode: names, widths and order |
| Instrs.OperatorsBack | crates/rend/src/artifact.rs:801-836 | a byte stands for an operator if and only if the operator is written as that byte |
| Instrs.InstrRoundTrip | crates/rend/src/artifact.rs:919-1382 | reading a written instruction, its operators and operands, returns it and exactly what followed |
| Artifact.ConstRoundTrip | crates/rend/src/artifact.rs:488-543 | likewise for constants, integers of any size included |
| Artifact.ConstFitsExactly | crates/rend/src/artifact.rs:488-543 | which constants that holds for: the machine ranges, integers and strings of fewer than 2^32 bytes |
| Artifact.RoundTrip | crates/rend/src/artifact.rs:200-472 | likewise, up to normal form, for every value of every shape, functions and modules among them |
| Artifact.FitsExactly | crates/rend/src/artifact.rs:200-472 | what can be written: lists of fewer than 2^32 members that fit, records field by field, optional values |
| Artifact.PrefixFree | crates/rend/src/artifact.rs:200-472 | no encoding of a shape is a proper prefix of another |
| Artifact.DecodeEncode | crates/rend/src/artifact.rs:155-192 | decoding inverts encoding up to normal form |
| Artifact.TrailingRefused | crates/rend/src/artifact.rs:185-190 | bytes after the last module are refused |
| Artifact.SortKeys | crates/rend/src/artifact.rs:260-263 | sorting from any enumeration lists the same keys in ascending order |
| Artifact.HandlerOrderIrrelevant | crates/rend/src/artifact.rs:258-270 | the encoding of the handler table does not depend on the order of the map |
| Artifact.HandlersRoundTrip | crates/rend/src/artifact.rs:398-406 | writing and reading rebuilds the handler table |

## Left out

- Content hashing is ideal: a node reference is the node itself, so hash collisions are not modelled, and leaves with the same entries serialized in another order are one node.
- Keys and values of collections are integers; serialization enters as a function with stated laws.
- Register numbers, constant indices and jump offsets are unbounded in the compiler (16 and 32 bits in the source).
- The compiler fragment has literals, names, unary and binary operators, let, assign, if, while, break, continue, return and blocks; calls, collections, matches, `for` and block expressions are not in it.
- The interpreter is a function with a bound on loop iterations rather than an object with mutable scopes; `HaltsTogether` and `WellTypedAgree` remove the bound.
- Clusters.ReadsFirst: excludes clusters in which a deferred instruction names the destination of a later read, where it is false.
- OptimizeCorrect.ClusterSim: excludes the same clusters.
- OptimizeCorrect.Forward: excludes those clusters and jumps into a cluster, where it is false.
- OptimizeCorrect.Backward: excludes the same code.
- OptimizeCorrect.SameMeaning: excludes the same code; that such code does change meaning is shown by example and instruction by instruction, not for every function, because a changed register may never be read.
- Pipeline.PipelineCorrect: excludes the same code, through `OptimizeCorrect.SameMeaning`.
- CondTypes.NeverLost: one way; a body it does not cover may still never fall off, for example because a condition is always true, and for those `CondTypes.WellTypedAgree` states the failure by the interpreter's run.
- The walk instructions, whose end offsets the optimizer does not remap.
- Occ.InMemoryKv.CommitBatch: a salvaged transaction keeps the result it computed on the snapshot, so a batch with merges is not claimed equal to a serial run.
- GroupCommit.RocksKv.CommitBatch: the three-way merge is any function of the roots and the visible cells; `MergeCommit` puts the trie merge in its place, its nodes named by content without collision.
- Occ.InMemoryKv.TryMerge: the vector path is absent.
- Transactions read eagerly; lazy pending reads, prefetch, events, parallel blocks, fuel accounting and host calls are not modelled.
- Vectors (`pvec`) beyond their walk by the collector, their merge, and collection of live sorted-map states.
- Soundness of effect classes and affine moves; only the fixed point is proved.
- JSON floats keep the text of their literal; their numeric reading is not modelled.
- Artifact.RoundTrip: state defaults travel as bytes, and their deserialization at the declared type is not modelled; the derived name indexes are not either.
- Writing of artifacts is a function over byte strings; the in-place form is given for the type reader only.
- RocksDB internals, locks, durability, HTTP, signatures and the lexer, parser and type checker.
