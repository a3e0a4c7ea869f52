# CubeCL: models and proofs

This project models parts of CubeCL, a compiler and runtime for GPU kernels, in Dafny and proves
that they do what they are for. Its parts, hardest first:

- **The front half of the optimizer.** Structured kernels (if, if-else, switch, loop, range loop,
  break, return) are lowered to a control flow graph, critical edges are split, pruned phi nodes are
  placed and variables are renamed into static single-assignment form. Kernels have a big-step
  semantics (`Structured`), graphs a small-step machine (`Ir`) in which one opcode stands for every
  operation a kernel may perform; its result is any function of its arguments and of all that
  happened before, and the machine records it. The main theorem, `Pipeline.FrontHalfPreservesMeaning`,
  says that kernel and SSA program end together with the same record; unrolling a range loop is proved
  correct for the statements and for their graphs. Dominance, liveness and
  frontiers are specified by their textbook definitions and the analyses are proved to compute them.
- **Parallel reductions.** Tree reduction of shared memory, shared reduction of a slice, and the sum of a
  tensor by many cubes, under every schedule of their units' single loads and stores.
- **The persistent cache.** Its byte framing, one process's cache object, and any number of processes
  sharing one log under a lock, of which the object's methods are steps.
- **Index arithmetic and two small state machines.** Division by multiplication, line sizes, the lines
  random kernels write, the pool of reusable variables, and the reentrant profiling lock.

Code that works by updating state is modelled by classes and methods with loops, proved against
functions and predicates on values; the lemmas are about those.

Where the code does less than its purpose, the model follows the code and says exactly when it is right:

- The liveness analysis does not look at what terminators read, so a phi that only a branch needs may be
  missing. With textbook liveness every run of every program is preserved
  (`PhiDemand.TextbookLivenessPreservesRuns`). For the code as it is, `PhisSuffice` says of the graph that
  every truly live frontier of a write or phi has a phi; under it every run is preserved
  (`PhiDemand.TransformPreservesRuns`), and it is exact for the names: every use names the version defined
  last on every way to it iff the phis suffice (`SsaNaming.NamingIsRightIffPhisSuffice`). It holds for every
  kernel none of whose branches is decided by a mutable variable. `FlagKernel.FlagKernelGoesAstray` gives a
  kernel that every run of the front half gets wrong. A condition on the graph cannot be exact for runs:
  a missing phi behind a branch that is never taken changes none (`Limits.UntakenRunsAgree`), and which
  branches are ever taken is not decidable.
- The dominance-frontier analysis panics exactly on graphs with a join that is unreachable or has an
  unreachable predecessor. No kernel all of which control can reach has such a graph, and every other one
  does whose loops hold a jump out of them (`Pipeline.StopsIffStuck`), such as one whose branches both return.
  A `loop` that nothing leaves can make the whole rest of the kernel unreachable without such a join, which
  is why the second half has that condition.
- Splitting does not redirect the terminator of a range loop. It keeps a kernel's graph well formed iff
  no `break` leaves a range loop; if one does, phis after the loop have no entry for the header.
- The parser inserts a phi for the index of a range loop and placement inserts a second one. Both are
  modelled; the first is proved to stand where placement wants one, so it does no harm.
- Fast division is exact iff the dividend plus its high product fits a word.
- The paired Box-Muller loop writes all lines iff the number of lines per thread is even.

## Model

| member | source | states |
|---|---|---|
| `Lowering.ParseScope` | crates/cubecl-opt/src/lib.rs:351-406 | A scope is laid out in the graph from the current block on; its mutable variables are declared and no others; reserved blocks stay untouched; the result says whether a `break` is among its instructions. |
| `Lowering.ParseReturn` | crates/cubecl-opt/src/control_flow.rs:54-74 | A return ends the current block with an edge to the current return block and leaves no current block. |
| `Lowering.ParseBreak` | crates/cubecl-opt/src/control_flow.rs:54-74 | A break ends the current block with an edge to the innermost break target. |
| `Lowering.ParseIf` | crates/cubecl-opt/src/control_flow.rs:76-107 | An if is laid out: branch block, scope, joined to the next block, whatever returns or breaks it contains; the merge block, if any, is the one the code chooses and is marked. |
| `Lowering.ParseIfElse` | crates/cubecl-opt/src/control_flow.rs:109-150 | An if-else is laid out with both scopes joined to the next block and the merge block marked; if neither scope ends normally, no edge may ever lead to the next block. |
| `Lowering.ParseSwitch` | crates/cubecl-opt/src/control_flow.rs:152-216 | A switch is laid out with one block per case; its terminator names exactly the successors; the next block is marked as merge block if no case breaks or returns; if no case ends normally, no edge may ever lead to it. |
| `Lowering.ParseLoop` | crates/cubecl-opt/src/control_flow.rs:218-252 | A loop is laid out with header, body, continue target and break target; no edge may ever lead to the break target of a loop without `break`, nor to the continue target of one whose body does not end normally. |
| `Lowering.ParseForLoop` | crates/cubecl-opt/src/control_flow.rs:254-335 | A range loop is laid out: start value, header with a phi for the index, comparison and branch, body, advance by the step or else by one, and way back. |
| `Lowering.IndexIsDue` | crates/cubecl-opt/src/control_flow.rs:254-335 | The blocks made for a range loop are entered only at its header, so the phi the parser puts there belongs to a real loop. |
| `ParseSteps.Ret` | crates/cubecl-opt/src/lib.rs:416-426 | The current return block, or, once that is a merge block, a new empty block put in front of it with one edge to it; nothing else changes. |
| `OptimizerState.InsertPhi` | crates/cubecl-opt/src/phi_frontiers.rs:46-57 | One phi of version 0 with one entry for every predecessor is appended to the block and nothing else changes. |
| `LoweringCorrect.ParseGraph` | crates/cubecl-opt/src/lib.rs:231-244 | The finished graph holds the whole kernel, laid out from the root, and tracks exactly the variables its scopes declare and its range loops count with; if control can reach all of the kernel, every edge leaves a reachable block. |
| `LoweringCorrect.LoweredIsWellFormed` | crates/cubecl-opt/src/control_flow.rs:54-335 | Every lowered graph has terminators that match its edges, no self loop, no edge into the root, complete phis, and phis only at headers of range loops for their indices. |
| `Layout.RunsBody` | crates/cubecl-opt/src/lib.rs:351-406 | Running the laid-out blocks does what the statements do: same outcome at the same exit, or at least as many steps as fuel was spent. |
| `LoweringCorrect.LoweringPreservesMeaning` | crates/cubecl-opt/src/control_flow.rs:54-335 | For every kernel, kernel and graph end together, in states that differ only in temporaries of the parser, with the same operations performed; both directions. |
| `LoopRegions.HeaderIsInFrontier` | crates/cubecl-opt/src/control_flow.rs:305-306 | A reachable header of a range loop lies on the dominance frontier of the block that advances the index, where placement wants a phi anyway. |
| `RangeUnroll.RegisterUnrolled` | crates/cubecl-ir/src/branch.rs:200-227 | The registered statements are the body once for every index; a step of zero panics. |
| `RangeUnroll.IndicesAre` | crates/cubecl-ir/src/branch.rs:200-227 | The indices are the arithmetic progression from the start, exactly as far as it stays in range. |
| `RangeUnroll.BodyBeside` | crates/cubecl-ir/src/branch.rs:200-227 | A copy of the body with the index replaced by its value behaves like the body, for every body that leaves the index alone. |
| `RangeUnroll.BodyKeeps` | crates/cubecl-ir/src/branch.rs:200-227 | A variable no instruction of a body assigns has the same value after it, whatever the outcome. |
| `RangeUnroll.UnrollingPreservesMeaning` | crates/cubecl-opt/src/control_flow.rs:254-335 | For any start, end and step operands, constant or not, and a body that leaves the index, the end and the step alone and has no `break` of its own: unless the index overflows, the range loop and the copies of its body for the indices between the entry values end together and alike, but for the index variable; both directions. |
| `UnrollLowered.LoweredUnrollingAgrees` | crates/cubecl-opt/src/control_flow.rs:254-335 | Any graph the parser may build for the loop and any it may build for the unrolled form halt together with the same trace and the same variables, but for the index and temporaries; both directions. |
| `UnrollLowered.RegisterLoop` | crates/cubecl-ir/src/branch.rs:200-227 | What is registered for a loop with start s, end e and step t, or step 1 if there is none, ends together with the loop statement wherever its operands have those values, and so do their graphs; a step of zero is refused. |
| `SplitEdges.UpdatePhi` | crates/cubecl-opt/src/control_flow.rs:387-395 | Exactly the entries for the old predecessor are redirected, in every phi of the block. |
| `SplitEdges.UpdateControlFlow` | crates/cubecl-opt/src/control_flow.rs:362-385 | If-else and switch targets are redirected; every other terminator stays. |
| `SplitEdges.SplitKeepsDegrees` | crates/cubecl-opt/src/control_flow.rs:348-352 | Splitting an edge keeps the in- and out-degree of every old block. |
| `SplitEdges.SplitCriticality` | crates/cubecl-opt/src/control_flow.rs:348-352 | After a split the critical edges are the old ones but for the one split. |
| `SplitEdges.SplitRuns` | crates/cubecl-opt/src/control_flow.rs:337-359 | Every run of a program is a run of the program with one more edge split, up to the inserted block. |
| `SplitEdges.SplitKeepsDeadJoins` | crates/cubecl-opt/src/control_flow.rs:337-359 | Splitting neither makes nor removes a join that is unreachable or has an unreachable predecessor. |
| `SplitEdges.SplitCriticalEdges` | crates/cubecl-opt/src/control_flow.rs:337-359 | No critical edge is left; old blocks keep degrees, operations and phi arity; new blocks are empty and sit on critical edges; and if no critical edge left a range-loop header, every configuration of every run, halting or not, is reached after at least as many steps (`KeepsRuns`). |
| `SplitEdges.SplitIsWellFormedIff` | crates/cubecl-opt/src/control_flow.rs:369-384 | The result is well formed exactly if no critical edge left a range-loop header, and then keeps every run up to the inserted blocks and halts exactly as before. |
| `RangeBreaks.SplittingIsSoundIffNoRangeBreak` | crates/cubecl-opt/src/control_flow.rs:337-395 | For every kernel: splitting keeps the graph well formed iff no `break` leaves a range loop, and then keeps every run, halting or not, up to the inserted blocks. |
| `RangeBreaks.RangeBreakStarvesPhis` | crates/cubecl-opt/src/control_flow.rs:362-395 | For every kernel with such a `break`: some header still goes to the block after its loop although the edge now starts in an inserted block, so a phi placed there has no entry for the header and is skipped when control arrives from it. |
| `DeadJoins.FlowingHasNoDeadJoin` | crates/cubecl-opt/src/control_flow.rs:54-335 | If control can reach all of a kernel (after every branch some way goes on, loops are repeated and left), its graph has no join that is unreachable or has an unreachable predecessor. |
| `DeadJoins.DeadJoinIffStuck` | crates/cubecl-opt/src/control_flow.rs:54-335 | For kernels in which every `loop` holds a jump out of it, the graph has such a join iff control cannot reach all of the kernel. |
| `DomFrontiers.ComputeDomFrontiers` | crates/cubecl-opt/src/analyses/dominance.rs:62-80 | Walking up the dominator tree finds exactly the textbook dominance frontiers; it panics exactly if some join is unreachable or has an unreachable predecessor. |
| `Dominance.LastDefinitionIsUnique` | crates/cubecl-opt/src/phi_frontiers.rs:13-43 | Where a live variable has no phi, all paths into the block meet the same last definition of it. |
| `Liveness.CalculateBlockSets` | crates/cubecl-opt/src/analyses/liveness.rs:84-106 | The sets are the variables read before any write and the variables written. |
| `Liveness.AnalyzeLiveness` | crates/cubecl-opt/src/analyses/liveness.rs:52-77 | The worklist ends with the exact solution for reads by instructions. |
| `Liveness.LivenessIsTrueIffTerminatorsCovered` | crates/cubecl-opt/src/analyses/liveness.rs:84-106 | The result is true liveness iff every variable a reachable terminator reads is live on entry to its block or written in it. |
| `SsaTransform.CollectWrites` | crates/cubecl-opt/src/analyses/writes.rs:26-38 | The set of each block holds exactly the mutable variables its instructions write. |
| `PhiFrontiers.PlaceVariable` | crates/cubecl-opt/src/phi_frontiers.rs:19-42 | For one variable the worklist ends and has inserted one phi at each block of the least closed set. |
| `PhiFrontiers.PlacePhiNodes` | crates/cubecl-opt/src/phi_frontiers.rs:13-43 | For every variable the phis added are one at each block of the least set closed under live dominance frontiers of writers and members. |
| `Version.RenamePhiOuts` | crates/cubecl-opt/src/version.rs:136-151 | Each phi of a tracked variable defines the next version, in order. |
| `Version.RenameOps` | crates/cubecl-opt/src/version.rs:153-158 | Each instruction reads current versions and defines the next version of what it writes. |
| `Version.VersionBlockOps` | crates/cubecl-opt/src/version.rs:135-168 | A block is renamed from given names, phis first, then instructions, then the terminator. |
| `Version.VersionPhi` | crates/cubecl-opt/src/version.rs:117-132 | The entries for one edge get the versions at the end of its source. |
| `Renaming.VersionBlock` | crates/cubecl-opt/src/version.rs:85-114 | The walk below a block keeps the invariant: marked blocks renamed, visited edges named, counters of different blocks apart. |
| `Renaming.VersionProgram` | crates/cubecl-opt/src/version.rs:71-83 | The program ends in SSA form: every reachable block renamed from the names of a predecessor, every edge out of it named, and each counter equal to the number of definitions renamed, blocks with successors being renamed once. |
| `SsaForm.ReachableIsMarked` | crates/cubecl-opt/src/version.rs:85-114 | The walk reaches every reachable block. |
| `SsaForm.DefinitionsAreUnique` | crates/cubecl-opt/src/version.rs:85-194 | No version is defined twice in reachable blocks, even though blocks without successors are renamed several times, as long as the 16-bit counter does not overflow. |
| `SsaForm.EdgeKeepsVersion` | crates/cubecl-opt/src/version.rs:85-132 | Where a live variable has no phi, every edge into the block carries the version the block starts with. |
| `SsaCorrect.InstructionAgrees` | crates/cubecl-opt/src/version.rs:170-213 | An instruction and its renamed form do the same on agreeing states. |
| `SsaCorrect.PhisMoveVersions` | crates/cubecl-opt/src/version.rs:117-151 | Entering a block moves each variable from its version on the edge to its new version, all phis at once. |
| `SsaCorrect.SsaPreservesRuns` | crates/cubecl-opt/src/version.rs:71-213 | The renamed program runs step for step like the original, through the same blocks, and the current version of every live variable holds its value. |
| `SsaTransform.PlacementKeepsRuns` | crates/cubecl-opt/src/phi_frontiers.rs:13-57 | Before renaming, added phis change no run. |
| `PhiDemand.SitesAreFound` | crates/cubecl-opt/src/phi_frontiers.rs:13-43 | The sites chosen are the least set closed under the frontiers on which the variable is live for the reads of instructions, in terms of the graph alone. |
| `PhiDemand.CoverIsReady` | crates/cubecl-opt/src/phi_frontiers.rs:13-43 | Phis that cover every truly live frontier of a write or of a truly live phi support the renaming with the textbook live sets. |
| `SsaTransform.Transform` | crates/cubecl-opt/src/lib.rs:309-315 | The transform succeeds exactly on programs without a dead join and then leaves the evidence the theorems start from. |
| `PhiDemand.TransformPreservesRuns` | crates/cubecl-opt/src/version.rs:71-213 | If the phis the code places suffice (`PhisSuffice`, a condition on the graph: every truly live frontier of a write or phi has one), original and transformed program take the same block path in every run, truly live variables agreeing at each step. |
| `PhiDemand.TextbookLivenessPreservesRuns` | crates/cubecl-opt/src/version.rs:71-213 | With liveness that counts the reads of terminators, placement and renaming preserve every run of every program, without further condition. |
| `PhiDemand.CoveredTerminatorsSuffice` | crates/cubecl-opt/src/analyses/liveness.rs:84-106 | If every variable a terminator reads is live on entry to its block or written in it, the phis suffice. |
| `SsaNaming.NamingIsRightIffPhisSuffice` | crates/cubecl-opt/src/version.rs:71-213 | Every truly live variable without a phi is named by the version defined last on every way to its block if and only if the phis suffice, as long as the 16-bit counters do not overflow. |
| `PhiDemand.TransformPreservesHalting` | crates/cubecl-opt/src/version.rs:71-213 | Under the same condition they halt together, with the same operations performed and the same untracked variables; both directions. |
| `Pipeline.SplitIsReady` | crates/cubecl-opt/src/lib.rs:195-200 | Lowering and splitting give the transform all it needs, unless a `break` leaves a range loop. |
| `Pipeline.ParseAndSplit` | crates/cubecl-opt/src/lib.rs:195-197 | Parsing and splitting leave a program that is both a split and a lowering of the kernel. |
| `Pipeline.ToSsa` | crates/cubecl-opt/src/lib.rs:200 | After them the transform stops exactly on dead joins and else yields SSA form. |
| `Pipeline.FrontHalf` | crates/cubecl-opt/src/lib.rs:195-200 | Parsing, splitting and the transform together: SSA form is reached exactly if the split graph has no dead join. |
| `Pipeline.StopsIffStuck` | crates/cubecl-opt/src/analyses/dominance.rs:72-74 | SSA form is reached on every kernel all of which control can reach, and, if every `loop` holds a jump out of it, on no other. |
| `Pipeline.FrontHalfPreservesMeaning` | crates/cubecl-opt/src/lib.rs:195-200 | From kernel to SSA, if the phis suffice on the split graph: both end together, having performed the same operations with the same values in the same order; both directions. |
| `Pipeline.QuietKernelsArePreserved` | crates/cubecl-opt/src/lib.rs:195-200 | In terms of the kernel alone: if no `break` leaves a range loop, control can reach all of it and no branch is decided by a mutable variable, SSA form is reached and both end together; both directions. |
| `FlagKernel.FlagKernelGoesAstray` | crates/cubecl-opt/src/analyses/liveness.rs:84-106 | For the kernel that sets a flag under a condition and then branches on it, the front half always reaches SSA form, and whatever SSA form it reaches, on some input the kernel ends and the result does not end having performed the same operations. |
| `FlagKernel.KernelIsProper` | crates/cubecl-opt/src/lib.rs:351-406 | The parser accepts that kernel. |
| `Limits.UntakenRunsAgree` | crates/cubecl-opt/src/analyses/liveness.rs:84-106 | A graph on which the phis do not suffice and yet every run of every result stays as it was, because the missing phi lies behind a branch that is never taken. |
| `Limits.BothReturnMakesDeadJoin` | crates/cubecl-opt/src/analyses/dominance.rs:72-74 | Every graph the parser may build for a kernel whose branches both return has a dead join, on which the transform stops. |
| `SharedTree.UnitsAreApart` | crates/cubecl-reduce/src/primitives.rs:377-381 | In a round no active unit touches a slot another one writes. |
| `SharedTree.EveryTreeScheduleFolds` | crates/cubecl-reduce/src/primitives.rs:367-401 | However the loads, stores and barriers of all rounds are scheduled, a finished reduction holds the in-order fold in slot 0. |
| `SharedTree.TreeIsNeverStuck` | crates/cubecl-reduce/src/primitives.rs:367-401 | In every state a schedule can reach before the end, some step makes progress. |
| `SharedTree.RunRound` | crates/cubecl-reduce/src/primitives.rs:375-384 | A round in any order of units leaves the memory of the round, within bounds. |
| `SharedTree.RoundGoesOn` | crates/cubecl-reduce/src/primitives.rs:388-397 | A round halves the segments, rounding up, and each slot holds the in-order fold of its segment. |
| `SharedTree.TreePowerOfTwo` | crates/cubecl-reduce/src/primitives.rs:372-384 | For powers of two slot 0 gets the in-order fold; slots past the size stay. |
| `SharedTree.TreeAnySize` | crates/cubecl-reduce/src/primitives.rs:385-397 | The same for every other size. |
| `SharedTree.ReduceTree` | crates/cubecl-reduce/src/primitives.rs:367-401 | For every size of at least 1 and every associative operator the result is the in-order fold of the first slots. |
| `ReduceShared.ReduceSlice` | crates/cubecl-reduce/src/primitives.rs:123-155 | One unit reduces all lines of the axis in order, in both line modes. |
| `ReduceShared.UnitPosition` | crates/cubecl-reduce/src/primitives.rs:271-277 | Unit u looks in round t at line t * CUBE_DIM + u, and passes the bound check exactly if there is one. |
| `ReduceShared.ReadItem` | crates/cubecl-reduce/src/primitives.rs:279-293 | Masked and branching reads give the line or the null value, and stay in bounds. |
| `ReduceShared.ReduceSliceShared` | crates/cubecl-reduce/src/primitives.rs:242-319 | However the units interleave, each slot ends with the reduction of its unit's lines. |
| `ReduceShared.LineIsReadOnce` | crates/cubecl-reduce/src/primitives.rs:271-277 | Every line of the axis is read by exactly one unit in exactly one round. |
| `ReduceShared.UnitSumsAddUp` | crates/cubecl-reduce/src/primitives.rs:242-319 | The sums of the units make up the reduction of all lines; padding adds nothing. |
| `TensorReduce.ParallelLineIsAt` | crates/cubecl-reduce/src/primitives.rs:42-74 | In parallel mode the m-th line read starts at the address of coordinate m times the line size of the slice, computed from coordinates and strides alone. |
| `TensorReduce.PerpendicularLineIsAtIff` | crates/cubecl-reduce/src/primitives.rs:76-112 | In perpendicular mode it starts at the address of coordinate m iff the stride of the axis is a multiple of the line size. |
| `TensorReduce.ReductionReadsSlice` | crates/cubecl-reduce/src/primitives.rs:123-155 | The reduction is the in-order fold of exactly the lines of the slice. |
| `TensorReduce.LineElement` | crates/cubecl-reduce/src/primitives.rs:42-74 | Element j of a line along the axis is the element j coordinates further. |
| `TensorReduce.ReduceTensorSlice` | crates/cubecl-reduce/src/primitives.rs:123-155 | A unit combines the elements of the tensor at the coordinates of the slice, line by line in order. |
| `TensorReduce.ReduceTensorCube` | crates/cubecl-reduce/src/launch.rs:105-131 | A cube gives the same for every commutative monoid. |
| `ReduceShared.ReduceCube` | crates/cubecl-reduce/src/launch.rs:117-131 | Shared reduction, barrier and tree give what `reduce_slice` gives, for every axis length, cube size and line mode over a commutative monoid. |
| `Positions.AbsolutePosIsInjective` | crates/cubecl-spirv/src/globals.rs:128-149 | Different units of a grid have different absolute positions, all below the number of units. |
| `Positions.AbsolutePosIsSurjective` | crates/cubecl-spirv/src/globals.rs:128-149 | Every position below the number of units belongs to a unit. |
| `Positions.CubePosIsBijective` | crates/cubecl-spirv/src/globals.rs:110-126 | Cube positions number the cubes of any grid from 0 without gaps or repetitions. |
| `Positions.CubePosCounts` | crates/cubecl-spirv/src/globals.rs:110-126 | They count along x first, then y, then z. |
| `Positions.AbsolutePosCounts` | crates/cubecl-spirv/src/globals.rs:128-149 | Absolute positions count along x first, then y, then z, through all cubes. |
| `SharedSum.AddLine` | crates/cubecl-reduce/src/shared_sum.rs:115-130 | One step of a unit clears its slot or adds its next line to it; no other slot changes. |
| `SharedSum.AddBlocks` | crates/cubecl-reduce/src/shared_sum.rs:115-130 | However the units of a cube interleave line by line, each slot ends with the sum of its unit's block, cut off at the end of the input. |
| `SharedSum.RunCube` | crates/cubecl-reduce/src/shared_sum.rs:107-145 | A cube computes the sum of its units' blocks. |
| `SharedSum.LineIsReadOnce` | crates/cubecl-reduce/src/shared_sum.rs:118-125 | Every line of the input belongs to the block of exactly one unit of one cube, because absolute positions number the units without gaps or repetitions. |
| `SharedSum.CubesReadInput` | crates/cubecl-reduce/src/shared_sum.rs:115-130 | As every line has exactly one reader, the cubes' sums add up to the sum of the input. |
| `SharedSum.RunKernel` | crates/cubecl-reduce/src/shared_sum.rs:107-145 | In whatever order the cubes add, output[0] grows by the sum of the input. |
| `SharedSumRuns.EveryGridScheduleSums` | crates/cubecl-reduce/src/shared_sum.rs:107-145 | For every schedule of all steps of all units of all cubes, barriers and atomic additions included: once all cubes have finished, the output has grown by exactly the sum of the input. |
| `SharedSumRuns.GridIsNeverStuck` | crates/cubecl-reduce/src/shared_sum.rs:107-145 | As long as a cube has not finished, some step makes progress. |
| `SharedSum.TotalOfConcat` | crates/cubecl-reduce/src/shared_sum.rs:132-138 | The total of two lines one after the other is the sum of their totals; with `TotalIsFold` it is the fold of addition over the elements. |
| `SharedSum.TotalIsFold` | crates/cubecl-reduce/src/shared_sum.rs:132-138 | The total of a line is the fold of addition over all its elements. |
| `SharedSum.SumElements` | crates/cubecl-reduce/src/shared_sum.rs:132-138 | Adding the elements one after the other gives the total of the line. |
| `SharedSum.ChooseLineSize` | crates/cubecl-reduce/src/shared_sum.rs:76-82 | The largest supported line size that divides the number of elements, or 1. |
| `SharedSum.SharedSumOf` | crates/cubecl-reduce/src/shared_sum.rs:56-103 | For any elements, supported line sizes and number of cubes, output[0] grows by the fold of addition over the elements, however they are cut into lines. |
| `SharedSum.ComputeSharedSum` | crates/cubecl-reduce/src/shared_sum.rs:74-101 | For every input, line size and cube count of at least 1 the launch has enough units and output[0] grows by exactly the sum of all elements. |
| `CacheFraming.SingleByteEndsCleanly` | crates/cubecl-common/src/cache.rs:259-269 | For a one-byte separator the framing condition holds iff no encoding contains the byte (JSON escapes line breaks, section 7 of RFC 8259). |
| `CacheFraming.SplitUndoesFrame` | crates/cubecl-common/src/cache.rs:219-269 | Splitting undoes framing, whatever follows. |
| `CacheFraming.CorruptedIsSkipped` | crates/cubecl-common/src/cache.rs:219-257 | A piece that cannot be decoded is skipped and what follows is read. |
| `CacheFraming.LastEntryWins` | crates/cubecl-common/src/cache.rs:219-257 | For each key the last entry counts, in any log. |
| `CacheStore.FirstConflictIsFirst` | crates/cubecl-common/src/cache.rs:219-257 | The conflict reported is the first one. |
| `CacheFraming.PiecesMakeTheWhole` | crates/cubecl-common/src/cache.rs:219-257 | Splitting suffixes from successive cursors gives the map of the whole file. |
| `CacheFraming.MapHoldsEntries` | crates/cubecl-common/src/cache.rs:219-257 | The map of a consistent log holds exactly its entries. |
| `CacheStore.CacheFile.Lock` | crates/cubecl-common/src/cache_file.rs:45-59 | Takes the lock, returns what was written since the cursor and moves the cursor to the end. |
| `CacheStore.CacheFile.Unlock` | crates/cubecl-common/src/cache_file.rs:62-64 | Frees the lock if this process holds it. |
| `CacheStore.CacheFile.Write` | crates/cubecl-common/src/cache_file.rs:69-80 | Appends under the lock and advances the cursor by what was written. |
| `CacheStore.Cache.constructor` | crates/cubecl-common/src/cache.rs:131-152 | A new cache knows the whole log. |
| `CacheStore.Cache.SyncContent` | crates/cubecl-common/src/cache.rs:219-257 | All entries of the bytes go into the map in order, corrupted ones are skipped, and the first conflict with an insertion is reported. |
| `CacheStore.Cache.InsertUnchecked` | crates/cubecl-common/src/cache.rs:259-269 | The framed entry is appended and remembered. |
| `CacheStore.Cache.InsertEntry` | crates/cubecl-common/src/cache.rs:187-217 | Refused exactly if the log gives the key another value, with the error kind by where it was found; else the log holds the entry, appended exactly if the key was new. |
| `CacheStore.Cache.Snapshot` | crates/cubecl-common/src/cache.rs:155-167 | All entries of the log at that moment. |
| `CacheProtocol.StepKeeps` | crates/cubecl-common/src/cache.rs:131-270 | Every step of every process keeps the invariant. |
| `CacheProtocol.EveryStateIsOk` | crates/cubecl-common/src/cache.rs:131-270 | In every state of every run, started on any consistent log, the log never holds one key with two values, and each process's map is that of the log below its cursor. |
| `CacheProtocol.OneProcessInside` | crates/cubecl-common/src/cache_file.rs:45-64 | At most one process is in its critical section. |
| `CacheProtocol.VisibleNeverChanges` | crates/cubecl-common/src/cache.rs:155-217 | A key once visible to a process never changes its value there. |
| `CacheProtocol.ProcessesAgree` | crates/cubecl-common/src/cache.rs:155-217 | No two processes ever see different values of one key, at whatever moments they look. |
| `CacheProtocol.AcceptedIsLogged` | crates/cubecl-common/src/cache.rs:187-217 | A successful insertion is in the log from then on. |
| `CacheProtocol.RefusedIffOtherValue` | crates/cubecl-common/src/cache.rs:187-217 | An insertion is refused exactly if the log holds another value for its key. |
| `CacheSteps.InsertIsSteps` | crates/cubecl-common/src/cache.rs:187-217 | An insertion that does what `Cache.InsertEntry` promises is five steps of the protocol with the same result, log and memory. |
| `CacheSteps.ReadingIsSteps` | crates/cubecl-common/src/cache.rs:131-167 | So are opening a cache and iterating over it, which leave the log as it is. |
| `FastMath.FindLog2` | crates/cubecl-std/src/fast_math.rs:94-101 | The least exponent whose power of two reaches the argument, or 32. |
| `FastMath.MultiplierFits` | crates/cubecl-std/src/fast_math.rs:46 | The multiplier always fits in 32 bits. |
| `FastMath.NewFastDivmod` | crates/cubecl-std/src/fast_math.rs:28-53 | For every divisor but 0: which variant is chosen, and that its fields represent the divisor; the shift is 32 exactly above 2^31. |
| `FastMath.DivIsExactIff` | crates/cubecl-std/src/fast_math.rs:58-71 | For divisors up to 2^31, `div` is exact division iff the dividend plus its high product fits a word. |
| `FastMath.ModuloIsExactIff` | crates/cubecl-std/src/fast_math.rs:73-80 | `modulo` is the exact remainder iff the same holds. |
| `FastMath.DivModIsExactIff` | crates/cubecl-std/src/fast_math.rs:82-91 | `div_mod` gives exact quotient and remainder iff the same holds. |
| `FastMath.SmallDividendsAreExact` | crates/cubecl-std/src/fast_math.rs:58-91 | All dividends below 2^31 are divided exactly. |
| `FastMath.LargestDividendOverflows` | crates/cubecl-std/src/fast_math.rs:58-71 | Beyond that it can fail: the largest dividend divided by three. |
| `LineSize.TryLineSizeParallel` | crates/cubecl-core/src/lib.rs:102-127 | A result is a supported size that divides the axis and the next stride, with remainders written out, and no smaller than any other such size; the errors say which condition failed. |
| `LineSize.LargestUsableIsChosen` | crates/cubecl-core/src/lib.rs:102-127 | On an axis of stride 1 the largest supported size that divides the axis, and the least stride above 1 if there is one, is chosen; the choice fails iff there is no such size. |
| `LineSize.OffsetMoves` | crates/cubecl-reduce/src/primitives.rs:48-56 | Moving k coordinates along an axis moves the offset by k times its stride. |
| `LineSize.LargestFit` | crates/cubecl-core/src/lib.rs:121-126 | Among the candidates, the largest whose remainders with both numbers are 0, or none exactly if there is none. |
| `LineSize.LineStartsAreAligned` | crates/cubecl-core/src/lib.rs:102-127 | It divides the offset of every line start of a regular tensor of any rank, and whole lines make up the axis. |
| `LineSize.IndexStart` | crates/cubecl-reduce/src/primitives.rs:48-56 | The start index is the offset in lines, without loss for aligned offsets. |
| `Prng.IndexIsLinear` | crates/cubecl-random/src/base.rs:120-122 | The write index is the linear position of unit, iteration and cube. |
| `Prng.IndexCounts` | crates/cubecl-random/src/uniform.rs:44-68 | Lines are numbered by unit first, then by iteration, then by cube. |
| `Prng.UniformWritesOnce` | crates/cubecl-random/src/uniform.rs:44-68 | Different writes go to different lines below the number of lines. |
| `Prng.UniformWritesAll` | crates/cubecl-random/src/uniform.rs:44-68 | Every line is written. |
| `Prng.NormalWritesOnce` | crates/cubecl-random/src/normal.rs:42-84 | The paired loop writes no line twice. |
| `Prng.NormalWritesAllIff` | crates/cubecl-random/src/normal.rs:42-84 | It writes all lines iff the number of lines per thread is even. |
| `Prng.GridWritesOnce` | crates/cubecl-random/src/base.rs:120-122 | On a grid of cubes of units, both in three dimensions, different units, cubes or iterations write different lines. |
| `Prng.GridWritesAll` | crates/cubecl-random/src/base.rs:120-122 | And every line is written by some unit of some cube. |
| `Prng.GridNormalWritesOnce` | crates/cubecl-random/src/normal.rs:42-84 | On such a grid the paired loop writes no line twice. |
| `Prng.GridNormalWritesAllIff` | crates/cubecl-random/src/normal.rs:42-84 | And writes all lines iff the number of lines per thread is even. |
| `LocalAllocator.Allocator.CreateLocalMut` | crates/cubecl-ir/src/allocator.rs:56-63 | The variable returned has the type asked for and no other live handle refers to it; it is a pooled one exactly if one is unused. |
| `LocalAllocator.Allocator.FindUnused` | crates/cubecl-ir/src/allocator.rs:114-123 | The last pooled variable of the type with no live handle, if there is one. |
| `LocalAllocator.Allocator.AddLocalMut` | crates/cubecl-ir/src/allocator.rs:126-135 | A new variable is put at the end of the pool of its type, with one live handle; the other pools stay. |
| `LocalAllocator.Allocator.Clone` | crates/cubecl-ir/src/allocator.rs:161-167 | Counts stay one more than live handles when a handle is cloned. |
| `LocalAllocator.Allocator.Drop` | crates/cubecl-ir/src/allocator.rs:161-167 | And when one is dropped. |
| `LocalAllocator.Allocator.CanMut` | crates/cubecl-ir/src/allocator.rs:191-202 | A managed handle may be mutated exactly if it is the only live one. |
| `ProfileLock.Profiler.TryAcquire` | crates/cubecl-runtime/src/client.rs:540-575 | One round of an acquire: a token that names the stream if nobody profiles, a nested token at once if the stream itself does, and else nothing, to try again. |
| `ProfileLock.Profiler.Release` | crates/cubecl-runtime/src/client.rs:578-595 | Nested tokens release nothing; it fails where `profile_release` panics. |
| `ProfileLock.EveryStateIsOk` | crates/cubecl-runtime/src/client.rs:540-595 | In every interleaving of well-nested calls the lock is held exactly by the thread inside an outermost call, and no release panics. |
| `ProfileLock.OneThreadProfiles` | crates/cubecl-runtime/src/client.rs:540-595 | Two threads are never inside profile calls at the same time. |
| `ProfileLock.OnlyOutermostFrees` | crates/cubecl-runtime/src/client.rs:578-595 | Leaving a nested call keeps the lock, leaving the outermost one frees it. |
| `ProfileLock.EntersUnlessOtherInside` | crates/cubecl-runtime/src/client.rs:540-575 | In every state of every run a thread that tries to enter gets a token if it is inside already, a nested one, or if nobody is, one that names it; otherwise another thread is inside and nothing changes. |
| `ProfileLock.InsideMayLeave` | crates/cubecl-runtime/src/client.rs:578-595 | A thread inside can always leave its innermost call, without panic. |

## Left out

- Version counters: the 16-bit counter behind versions is unbounded in the model and wrapped at each use; uniqueness of definitions assumes no overflow, preservation of runs does not need it.
- Iteration orders: edges, predecessors and pools are visited in any order instead of the order of the graph and hash libraries.
- Graph library: the dominator tree and the post-order are taken by what the library promises.
- Parallel edges: the graph is a set of edges; the model's `AddEdge` shows that the parser adds none twice.
- Merge and continue-target annotations: the uses of blocks are kept and the ones the parser must make are proved; terminators do not repeat them, and that no others are made is not stated.
- Operand visitors: instructions have a list of read variables and at most one written variable; index assignments, atomics, barriers and matrices are not modelled, nor is the exemption of index-assigned locals from the transform.
- Kernels outside the parser's assumptions: code after a return or break in one scope, a `break` outside loops, and a range-loop body that cannot end normally are excluded, as the parser panics on them.
- Transformers, checked input and output, constant arrays, pre-SSA and post-SSA passes, value numbering.
- Pipeline.ToSsa: the passes between splitting and the transform, and the exemption of index-assigned locals, are not modelled; the transform is given the split graph.
- RangeUnroll.UnrollingPreservesMeaning: the index after the last round fits 32 bits; beyond that the loop's index wraps and the unrolled form's does not.
- DeadJoins.DeadJoinIffStuck: nothing is said of graphs of kernels with a `loop` that holds no jump out of it and parts that control cannot reach.
- Reductions with planes, with coordinates (argmin, argmax), without bound checks, and the writing of the output; 32-bit overflow of indices.
- Floating-point error: reductions are over an abstract monoid or integers.
- Cube counts computed with floats or by halving: the dispatched grid is taken as given.
- SharedSum.SharedSumOf: the feature checks that come before it are not modelled.
- Stale locks, timeouts, killed processes, partial writes and the race of creating the file: holders release the lock, writes are complete, and the file exists from the start.
- JSON itself: encoding and decoding are any functions that are inverse to each other and end cleanly.
- FastMath.DivIsExactIff: divisors above 2^31 that are no powers of two are set up with a shift by 32, whose result on a 32-bit word is not defined; their quotients are not considered.
- Random number streams: only the write indices are modelled, for line sizes that divide the values per thread.
- LocalAllocator.Allocator.CreateLocalMut: draining the pool and the 32-bit id counter's overflow are not modelled.
- Waiting: retry loops of the profiling lock and of the file lock are single rounds that may be repeated.
- Runtimes, code generation, macros, benchmarks and launch wrappers.
