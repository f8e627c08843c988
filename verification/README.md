# The LSM toolchain, modelled and proved

This project models the LSM compiler pipeline and its runtime, and proves that each part does what it is
for: the lexer and parser read back what is printed; the code generator's blocks, and after it the x86-64
bytes, return what the source program returns after the same calls; every optimisation pass leaves all runs
as they were; the register allocators never let two live values meet; the module loader merges in order of
imports; the region allocator never hands out memory twice; and the work-stealing deque gives every task to
one worker.

Each part has a specification in functions and predicates, theorems about it, and, where the original works
by changing things in place, classes and methods proved to compute that specification.

| files | part |
|---|---|
| Ssa, Names, Ast | the instruction set and its machine, names of temporaries and labels, the syntax and its documented meaning |
| Lowering, LoweringExprs, Division, LoweringBlocks, LoweringRuns, LoweringStmts, LoweringFunc, LoweringExact, LoweringAgreement, LoweringLimits, SsaBuilder | from syntax to basic blocks |
| Paths, Erasure, DeadCodeElim, ConstantProp, Licm, LicmPass, LicmPrograms, LicmRepeated, LicmDriver, PassScope | optimisation passes |
| Dominance, DominanceAnalyzer, PhiPlacement | dominators, frontiers, phis |
| X86, X86Machine, Encoding, EncodingLayout, EncodingOrder, EncodingSim, EncodingRuns, EncodingPrograms, EndToEnd, X86_64Encoder | from basic blocks to bytes |
| LinearScan, SpillOptimality, LinearScanAllocator, Liveness, AllocationRefinement, GraphColoring | register allocation |
| Deque, LockFreeTaskQueue, Scheduler | the runtime |
| Lexing, LexingLaws, Keywords, Tokens, Lexer, Parser, Precedence, ParserExpr, FrontEnd | the front end |
| ModuleLoader | imports |
| Region, RegionSteps, RegionSafety, RegionObject | memory |

How the main results fit together:

- `LoweringFunc.CompilerCorrect` relates the meaning of a source function to runs of its blocks,
  `PhiPlacement.InsertionIsInvisible` and `DeadCodeElim.OptimizedCorrect` relate blocks to blocks, and
  `EncodingPrograms.ProgramCorrect` relates blocks to runs of a machine that decodes the emitted bytes.
  `EndToEnd.SourceToBytes` composes them. All are equivalences over runs of any length, so they cover
  divergence too. What a run shows to the outside is the sequence of its calls, with arguments; what calls
  answer is an arbitrary function of the calls made so far (`World`).
- A pass is correct if the program it leaves stops exactly when and how the original does (`Ssa.StopsAlike`).
- What a function shared by a program and the statement about it does is said a second time, apart from it:
  source operators and instructions are defined separately (`LoweringExprs.OperatorRight`), quotients by the
  property that singles them out (`Division`), tokens by the text around them (`Keywords`, `Tokens`), the
  parser's grouping by the documented matrix (`Precedence`), the order of the code by what precedes what
  (`EncodingOrder`), and the reach of the passes by what running an instruction does (`PassScope`).
- The deque is a state machine in which every load, store, slot access and compare-and-swap is one step, any
  number of thieves act between any two steps of the owner, and a log records each operation at the step
  where it takes effect.
- The dominator tables are related to paths, not to other tables: `Dominance` defines dominance by paths in
  the graph, and the iteration is proved to end at it.

## Where the code and its documentation disagree

The models follow the code.

- Documentation.md (operator table, rows 11 and 12) promises short-circuit `&&` and `||`. The builder lowers
  them to multiplication and addition of both operands. `LoweringAgreement.ConditionExactly` says exactly when
  this is right for nested conditions over comparisons, `LogicExactly` for two of them, faults included;
  `LoweringLimits.AndIsStrict`, `OrIsAddition` and `TruthOverflowsExactly` give failing inputs.
- The same table promises `and` and `or` as operators. The parser has no case for them, so an expression ends
  before such a word (`FrontEnd.WordOperatorsEnd`).
- Unary operators have no case in the builder and become the constant 0 (`LoweringLimits.UnaryExactly`).
- Folding gives 0 for a division by zero where the instruction would fault, in the builder and in constant
  propagation (`LoweringExprs.FoldExactly`, `ConstantProp.FoldExactly`); programs that fault then may return
  (`LoweringAgreement.FoldedFaultReturns`, `ConstantProp.FaultExactly`, and the inputs
  `LoweringLimits.DivisionFoldsAway` and `ConstantProp.FoldedDivisionReturns`).
- `GraphColoring.hpp:113` takes colours from the floating-point list for both classes
  (`GraphColoring.ColorListExactly`, `GraphColoring.FirstIsNoGpr`).
- An allocation in the region class aligns by masking, which is right exactly for powers of two
  (`Regions.AlignsExactlyPowers`).
- The parser compares identifiers with the names of builtins such as `inb`, `halt` and `atomic_add`
  (ParserExpr.hpp:182-188), but the lexer makes these keywords, so such a call never gets there
  (`FrontEnd.KeywordBuiltinsNeverArise`).
- `spawn` returns the id of a task that a full queue has dropped (`Scheduler.SpawnsAccepted`).

## Model

| member | source | states |
|---|---|---|
| LoweringFunc.CompilerCorrect | src/middleend/ssa/SSABuilder.cpp:115-174 | For every function of the supported fragment that never divides by zero: the generated blocks return v after the calls `trace` if and only if the source function does, whose operators are defined on integers and not by instructions; over runs of any length, so one diverges exactly when the other does |
| LoweringFunc.FuncCorrect | src/middleend/ssa/SSABuilder.cpp:115-174 | The same run by run, with a source meaning cut off after any number of loop iterations |
| LoweringStmts.StmtCorrect | src/middleend/ssa/SSABuilder.cpp:427-635 | Each statement (assignment, if/else, while, range-for, return, print, blocks) takes the generated code from its first instruction to where control goes next, with the variables and calls of its meaning |
| LoweringStmts.WhileCorrect | src/middleend/ssa/SSABuilder.cpp:450-469 | A while loop: the header is tested before every iteration, the latch jumps back, a return in the body ends the loop |
| LoweringStmts.ForCorrect | src/middleend/ssa/SSABuilder.cpp:471-504 | A range loop: bounds evaluated once in order, the variable counts up with 64-bit wrap-around, inclusive and exclusive end |
| LoweringExprs.ValueExprCorrect | src/middleend/ssa/SSABuilder.cpp:232-425 | The code of an expression computes its value and makes its calls in order, folded or not, and leaves all other names alone |
| LoweringExprs.ConditionCorrect | src/middleend/ssa/SSABuilder.cpp:353-396 | A condition lowered to multiplications and additions is nonzero exactly when the short-circuit condition holds, within the truth bound |
| LoweringExprs.OperatorRight | src/middleend/ssa/SSABuilder.cpp:353-396 | The instruction chosen for each arithmetic operator and comparison computes what the operator is defined to mean on 64-bit integers |
| LoweringExprs.AssignmentRight | src/middleend/ssa/SSABuilder.cpp:326-342 | So does the one chosen for each compound assignment |
| Ssa.WrapExactly | src/middleend/ssa/SSAInstruction.hpp:32-134 | The result of a 64-bit operation is the one number of the signed range that differs from the exact one by a multiple of 2^64 |
| LoweringExprs.FoldExactly | src/middleend/ssa/SSABuilder.cpp:72-113 | Folding two constants at build time gives what the instruction computes exactly if the instruction does not fault; a division by zero is folded to 0 |
| Division.OneDivision | src/middleend/ssa/SSABuilder.cpp:84-85 | Only one quotient and remainder have a remainder smaller than the divisor and of the sign of the dividend |
| Division.DivisionTruncates | src/middleend/ssa/SSABuilder.cpp:84-85 | Source operators, the instructions and both constant folders give that quotient and remainder, which round toward zero |
| Division.MachineDivides | src/backend/x86_64/X86_64Encoder.cpp:144-166 | The machine that runs the bytes divides by the same property, and faults exactly if the quotient does not fit |
| Division.DividesTowardZero | src/middleend/opt/ConstantProp.hpp:20-20 | The input -7 / 2 is folded to -3 with remainder -1 in the builder, and to -3 in constant propagation |
| LoweringFunc.GlobalsSurvive | src/middleend/ssa/SSABuilder.cpp:308-342 | After a statement a literal global is still substituted exactly if the statement assigns it nowhere: the table is shared by all later functions |
| LoweringExact.CodeIsLowered | src/middleend/ssa/SSABuilder.cpp:232-425 | For every expression: its code faults exactly if an account that follows the code says so (both operands always run, `&&` multiplies, `\|\|` adds, unary operators are 0, divisions of constants do not fault), and else has the value and makes the calls that it says |
| LoweringAgreement.ValueExactly | src/middleend/ssa/SSABuilder.cpp:353-396 | The code of a value expression does what is meant, faults included, if and only if no fault is folded away in it or it faults all the same |
| LoweringAgreement.ConditionExactly | src/middleend/ssa/SSABuilder.cpp:353-396 | For every nested condition over comparisons that is meant to have a value: its code is right if and only if the code of what is to be skipped neither faults nor makes calls, and the count of its truth values (products and sums) is 0 or no multiple of 2^64 |
| LoweringAgreement.LoweredIsCount | src/middleend/ssa/SSABuilder.cpp:353-396 | The value of a condition's code is that count, wrapped around to 64 bits |
| LoweringAgreement.LogicExactly | src/middleend/ssa/SSABuilder.cpp:353-396 | `a && b` and `a \|\| b` on comparisons, faulting or not: the code faults if and only if a faults, or b after it; it is right, faults included, if and only if a faults, or b is not to be skipped, or b neither faults nor makes calls |
| LoweringAgreement.LogicDoes | src/middleend/ssa/SSABuilder.cpp:353-396 | The same where faults are folded away in a and b, in terms of what their codes do |
| LoweringAgreement.FoldedFaultReturns | src/middleend/ssa/SSABuilder.cpp:72-113 | A function that returns an expression in which a fault is folded away is meant to fault on every run; its code returns unless it faults elsewhere |
| LoweringLimits.DivisionFoldsAway | src/middleend/ssa/SSABuilder.cpp:72-113 | The failing input: `return 1 / 0` is compiled to code that returns 0 |
| LoweringLimits.AndIsStrict | src/middleend/ssa/SSABuilder.cpp:353-396 | The failing input: `x != 0 && 10 / x > 1` with x = 0 faults |
| LoweringLimits.OrIsAddition | src/middleend/ssa/SSABuilder.cpp:353-396 | The failing input: `1 == 1 \|\| 1 == 1` is compiled to 2 |
| LoweringLimits.TruthOverflowsExactly | src/middleend/ssa/SSABuilder.cpp:353-396 | The failing inputs of the bound: a conjunction of n + 1 true disjunctions is compiled to 0 exactly if n is at least 63 |
| LoweringLimits.UnaryExactly | src/middleend/ssa/SSABuilder.cpp:232-425 | A unary operator is compiled to the constant 0; this is its meaning exactly if the operand neither faults nor makes a call and the operator gives 0 |
| LoweringLimits.UnaryIsDropped | src/middleend/ssa/SSABuilder.cpp:232-425 | The failing input: `-5` is compiled to 0 |
| Names.TempsDiffer | src/middleend/ssa/SSABuilder.cpp:18-28 | Two temporaries have the same name only if they have the same number |
| SsaBuilders.SSABuilder.BuildFunction | src/middleend/ssa/SSABuilder.cpp:115-174 | The object with its counters, current block and growing instruction vectors builds exactly the specified blocks |
| SsaBuilders.SSABuilder.BuildStatement | src/middleend/ssa/SSABuilder.cpp:520-635 | One statement: blocks, counters and table as specified |
| SsaBuilders.SSABuilder.BuildFor | src/middleend/ssa/SSABuilder.cpp:471-504 | A range loop, likewise |
| SsaBuilders.SSABuilder.BuildExprNode | src/middleend/ssa/SSABuilder.cpp:232-425 | An expression: emitted code, value and counter as specified |
| Ssa.RunEnds | src/middleend/ssa/SSAInstruction.hpp:32-134 | A run of the instruction set that has ended stays ended with the same outcome: the meaning of a program is independent of how long it is watched |
| Erasure.ErasureCorrect | src/middleend/opt/DeadCodeElim.hpp:31-63 | Leaving out instructions whose results nothing kept reads changes neither whether a fault-free program stops nor with what calls and value |
| DeadCodeElim.OptimizedCorrect | src/middleend/opt/DeadCodeElim.hpp:31-63 | On every run that does not fault the optimised program makes the same calls and returns the same value, and stops exactly when the original does |
| DeadCodeElim.NothingDeadLeft | src/middleend/opt/DeadCodeElim.hpp:31-63 | At exit no side-effect-free instruction with an unused result is left |
| PassScope.SideEffectsExactly | src/middleend/opt/DeadCodeElim.hpp:10-29 | The operations that are never erased are exactly those whose running can jump, return, store in an array or call |
| PassScope.NothingUselessLeft | src/middleend/opt/DeadCodeElim.hpp:31-63 | At exit every instruction has no result, or does one of these, or has a result that some operand mentions |
| DeadCodeElim.OptimizedIsSubProgram | src/middleend/opt/DeadCodeElim.hpp:31-63 | The result has the same blocks with some instructions left out, in the same order |
| DeadCodeElim.KeptShrinks | src/middleend/opt/DeadCodeElim.hpp:31-63 | A round either changes nothing or leaves fewer instructions, so the loop ends |
| DeadCodeElim.Optimize | src/middleend/opt/DeadCodeElim.hpp:31-63 | The nested loops that erase from the vectors compute the specified program |
| ConstantProp.PropagationCorrect | src/middleend/opt/ConstantProp.hpp:28-66 | As long as no name is read before its assignment and nothing faults, the rewritten program is in the same state after every number of steps |
| ConstantProp.PropagationStopsAlike | src/middleend/opt/ConstantProp.hpp:28-66 | So it stops exactly when the original does, with the same calls and value |
| ConstantProp.EarlyReadDiffers | src/middleend/opt/ConstantProp.hpp:28-66 | The condition is needed: a program that reads a constant's name before its assignment returns another value after the pass |
| ConstantProp.FoldExactly | src/middleend/opt/ConstantProp.hpp:10-26 | Folding two constants gives what the instruction computes exactly if the instruction does not fault |
| PassScope.FoldScope | src/middleend/opt/ConstantProp.hpp:10-26 | Exactly sums, differences, products and quotients of two constants are folded |
| PassScope.TableScope | src/middleend/opt/ConstantProp.hpp:30-47 | The names substituted are exactly those whose one assignment copies a constant |
| PassScope.NothingToFold | src/middleend/opt/ConstantProp.hpp:49-64 | After the pass no operand is such a name and no such operation has two constants |
| ConstantProp.FaultExactly | src/middleend/opt/ConstantProp.hpp:28-66 | On a run that faults the rewritten program is in the same states up to the fault, and there faults too if and only if the instruction has not been folded |
| ConstantProp.FoldedDivisionReturns | src/middleend/opt/ConstantProp.hpp:10-26 | The failing input: a program that divides by zero faults, and returns 0 once the division is folded |
| ConstantProp.DominatedReadsAssigned | src/middleend/opt/ConstantProp.hpp:28-66 | In a function whose definitions dominate their uses no run reads a constant's name before its assignment |
| ConstantProp.PropagationCorrectInSsa | src/middleend/opt/ConstantProp.hpp:28-66 | So there the pass changes no run that does not fault |
| ConstantProp.Optimize | src/middleend/opt/ConstantProp.hpp:28-66 | Counting, collecting and rewriting in place compute the specified program |
| Dominance.FixpointIsDominators | src/middleend/opt/Dominance.hpp:41-78 | A fixpoint of the equations that lost no dominator is exactly: x in dom(n) if and only if x is on every path from the entry to n |
| Dominance.Comparable | src/middleend/opt/Dominance.hpp:85-100 | Dominators of a reachable node form a chain |
| Dominance.HasIdom | src/middleend/opt/Dominance.hpp:85-100 | Every reachable node but the entry has an immediate dominator |
| Dominance.IdomUnique | src/middleend/opt/Dominance.hpp:85-100 | It has only one |
| Dominance.NoneBelowIsIdom | src/middleend/opt/Dominance.hpp:85-100 | A strict dominator that dominates no other strict dominator is the immediate one: what the nested search tests |
| Dominance.WalkStep | src/middleend/opt/Dominance.hpp:102-114 | A node met by the runner below idom(b) has b in its frontier, and the runner goes on upward |
| Dominance.WalkEnd | src/middleend/opt/Dominance.hpp:102-114 | When the runner stops it has met every node, dominating the predecessor, that has b in its frontier |
| Dominance.SinglePred | src/middleend/opt/Dominance.hpp:102-114 | A block with one predecessor is in no frontier, as the code assumes |
| DominanceAnalyzers.EdgesAreJumps | src/middleend/opt/Dominance.hpp:17-39 | The graph's edges are exactly the jumps that runs can take |
| DominanceAnalyzers.DominanceAnalyzer.ComputeDominance | src/middleend/opt/Dominance.hpp:41-114 | The whole analysis: the dominator sets; with all blocks reachable and no edge into the entry also the immediate dominators, and the frontier of n is exactly the b such that n dominates a predecessor of b and does not strictly dominate b |
| DominanceAnalyzers.DominanceAnalyzer.ComputeDominators | src/middleend/opt/Dominance.hpp:41-78 | The in-place iteration ends, each set only shrinking, at the dominator sets |
| DominanceAnalyzers.DominanceAnalyzer.ComputeImmediateDominators | src/middleend/opt/Dominance.hpp:85-100 | The table is exactly the immediate dominators |
| DominanceAnalyzers.DominanceAnalyzer.ComputeDominanceFrontiers | src/middleend/opt/Dominance.hpp:102-114 | The table is exactly the frontiers, and every runner loop ends |
| DominanceAnalyzers.DominanceAnalyzer.BuildCFG | src/middleend/opt/Dominance.hpp:17-39 | Successors and predecessors of every block |
| PhiPlacement.IteratedFrontierUnique | src/middleend/ssa/SSABuilder.cpp:30-70 | The iterated frontier of a set of blocks is the only closed set all of whose members are forced |
| PhiPlacement.PhiBlocks | src/middleend/ssa/SSABuilder.cpp:30-70 | The work list ends with exactly the iterated frontier of the definition blocks, each block once |
| PhiPlacement.MeetingHasPhi | src/middleend/ssa/SSABuilder.cpp:30-70 | Any block where node-disjoint paths from two different definition blocks first meet has a phi |
| PhiPlacement.InsertPhiNodes | src/middleend/ssa/SSABuilder.cpp:30-70 | Over all variables, in any order: the head of each block gets exactly one phi per variable in whose iterated frontier it is |
| PhiPlacement.PhisExactly | src/middleend/ssa/SSABuilder.cpp:30-70 | Every block keeps its instructions, after one phi for each variable in whose iterated frontier it is and nothing else |
| PhiPlacement.InsertionIsInvisible | src/middleend/ssa/SSABuilder.cpp:30-70 | Inserting the phis, which have no operands, leaves every run as it was |
| Licm.HoistingCorrect | src/middleend/opt/LICM.hpp:27-125 | If definitions dominate uses, the program with the loop's invariant instructions moved into the block before it stops exactly when and how the original does |
| Licm.MotionCorrect | src/middleend/opt/LICM.hpp:27-125 | The same on any run that reads moved names only where they are fresh |
| LicmPasses.HoistLoopCorrect | src/middleend/opt/LICM.hpp:67-123 | What the fixpoint collects from one loop satisfies the conditions of the motion, so the loop's rewriting is correct |
| LicmPasses.HoistLoop | src/middleend/opt/LICM.hpp:67-123 | The fixpoint ends with a complete collection: each instruction collected is invariant, none that is left could be; all are erased and inserted, in the order found, before the jump of the preheader |
| LicmPasses.InvariantsUnique | src/middleend/opt/LICM.hpp:81-113 | Which instructions are invariant does not depend on the order in which they are found: any two complete collections are the same set |
| PassScope.MotionScope | src/middleend/opt/LICM.hpp:13-24 | The operations left in place are exactly those with an effect, those whose result depends on arrays, and phis |
| LicmDriver.LoopExactly | src/middleend/opt/LICM.hpp:39-66 | A block is treated as a header exactly if a block that it dominates jumps to it and one that it does not dominate does; the loop is the header and the former, the code goes to the first of the latter |
| LicmRepeated.PassCorrect | src/middleend/opt/LICM.hpp:27-125 | The whole pass, from the function alone, however many loops are treated: with single assignment, definitions that dominate uses, all blocks reachable, each loop found entered only from the block before it, and no faulting operator in a loop, the optimised function stops exactly when and how the original does |
| LicmRepeated.StillGood | src/middleend/opt/LICM.hpp:67-123 | A motion keeps what is asked of the function: single assignment, definitions that dominate uses, reachable blocks that end in their only jump |
| LicmRepeated.StillGoodLoop | src/middleend/opt/LICM.hpp:67-123 | And what is asked of every other loop |
| LicmRepeated.WayBack | src/middleend/opt/LICM.hpp:67-123 | Every way of control through the function after a motion goes back to one before it that defines no more names |
| LicmDriver.OptimizeFunction | src/middleend/opt/LICM.hpp:27-125 | The pass with its own dominance analysis: the loops are those of the function's graph and its dominators, and a good function keeps all its runs |
| LicmPasses.AfterSingle | src/middleend/opt/LICM.hpp:67-123 | The rewriting keeps the program in single assignment |
| LicmPasses.Optimize | src/middleend/opt/LICM.hpp:27-125 | For any predecessor lists and dominator sets: every block in order is tried as header; each loop found by its back edges and outside predecessor is treated, completely, and nothing else changes |
| LicmPasses.HoistedDivisionFaults | src/middleend/opt/LICM.hpp:13-25 | Total operators are needed: a division that a loop test protects faults after the motion |
| X86.RoundTrip | src/backend/x86_64/X86_64Encoder.cpp:20-90 | Every instruction the encoder emits decodes to itself whatever bytes follow |
| Encoding.PatchCorrect | src/backend/x86_64/X86_64Encoder.cpp:541-549 | Back-patching the jumps gives exactly the code that would have been emitted with all labels known: each rel32 field leads to its label, no other byte changes |
| Encoding.ProgramIsResolved | src/backend/x86_64/X86_64Encoder.cpp:523-551 | Hence for whole programs |
| EncodingLayout.AllocKeeps | src/backend/x86_64/X86_64Encoder.cpp:41-47 | Looking up names keeps all slots and array areas pairwise disjoint and inside the frame |
| EncodingLayout.CodeAtFinal | src/backend/x86_64/X86_64Encoder.cpp:41-90 | Code emitted while the frame still grew addresses the same places in the final frame |
| EncodingLayout.InstructionAt | src/backend/x86_64/X86_64Encoder.cpp:460-521 | The bytes of the instruction at any position are at its address and the next position follows them |
| EncodingLayout.BlockAddress | src/backend/x86_64/X86_64Encoder.cpp:513-520 | Without duplicate labels, a block's label is recorded at the block's address |
| EncodingSim.BinarySim | src/backend/x86_64/X86_64Encoder.cpp:144-166 | The bytes of an arithmetic instruction or comparison leave its result in its slot and change no other name, array or call |
| EncodingSim.ArrayLoadSim | src/backend/x86_64/X86_64Encoder.cpp:256-266 | An array load with an index in range reads that element |
| EncodingSim.ArrayStoreSim | src/backend/x86_64/X86_64Encoder.cpp:268-278 | An array store with an index in range changes that element and nothing else |
| EncodingSim.CallSim | src/backend/x86_64/X86_64Encoder.cpp:360-440 | A call of a native function passes its arguments, at most six, in the registers of section 3.2.3 of the System V ABI, with an aligned stack, and stores what comes back |
| EncodingSim.StraightSim | src/backend/x86_64/X86_64Encoder.cpp:142-440 | Every straight-line instruction |
| EncodingRuns.StepSim | src/backend/x86_64/X86_64Encoder.cpp:142-458 | One step of a function is some steps of the machine on its bytes, branches and return included |
| EncodingRuns.ReturnsAlike | src/backend/x86_64/X86_64Encoder.cpp:460-521 | The machine returns v after the calls `trace`, with stack and caller's frame pointer restored and no word above the return address changed, if and only if the function does |
| EncodingPrograms.EntrySim | src/backend/x86_64/X86_64Encoder.cpp:460-512 | The prologue leaves the arguments in the parameters' slots |
| EncodingPrograms.ProgramCorrect | src/backend/x86_64/X86_64Encoder.cpp:523-551 | In an encoded program whose labels are distinct every function has an address, called at which the bytes do what its instructions say; the address of `_start`, or else of `main`, or else of the first function, is 0 |
| EncodingOrder.OrderExactly | src/backend/x86_64/X86_64Encoder.cpp:528-540 | What is encoded before a function: `_start`, then `main`, then the others as listed; nothing before the entry |
| EncodingOrder.NamesAreDistinct | src/backend/x86_64/X86_64Encoder.cpp:528-540 | If no two functions or blocks of a program share a name, no label of its code is recorded twice |
| EndToEnd.SourceToBytes | src/middleend/ssa/SSABuilder.cpp:115-174 | From source to bytes: any function of a program that is a compiled one (with phis inserted, dead code eliminated or not), run as machine code, returns v after the calls `trace` if and only if the source function does; the entry does so from the first byte |
| EndToEnd.GeneratedReturns | src/middleend/ssa/SSABuilder.cpp:115-174 | The same for the generated blocks after phi insertion and elimination, which also never fault |
| X86_64Encoders.X86_64Encoder.EncodeProgram | src/backend/x86_64/X86_64Encoder.cpp:523-551 | The object that appends to `code`, fills the offset tables and overwrites the jump fields outputs exactly the specified bytes |
| X86_64Encoders.X86_64Encoder.EncodeFunctionInternal | src/backend/x86_64/X86_64Encoder.cpp:460-521 | One function: bytes, labels, jumps to patch and frame as specified |
| X86_64Encoders.X86_64Encoder.EncodeInstruction | src/backend/x86_64/X86_64Encoder.cpp:142-458 | One instruction, likewise |
| X86_64Encoders.X86_64Encoder.GetStackOffset | src/backend/x86_64/X86_64Encoder.cpp:41-47 | A known name keeps its offset, a new one gets the next eight bytes |
| X86_64Encoders.X86_64Encoder.PatchJumps | src/backend/x86_64/X86_64Encoder.cpp:541-549 | Overwrites exactly the four bytes of each jump with a known label |
| Deque.Linearizable | src/runtime/sched/LockFreeQueue.hpp:21-78 | In every interleaving of one owner and any number of thieves the operations, ordered by the step at which each takes effect, replay on a sequential deque that holds what the slots hold |
| Deque.TasksConserved | src/runtime/sched/LockFreeQueue.hpp:21-78 | Accepted tasks are those handed out, the one the owner is about to return, and those still queued; so none is handed out twice and none is lost |
| Deque.RefusalsAreJustified | src/runtime/sched/LockFreeQueue.hpp:21-60 | A push is refused only when the queue was full, a pop returns null only when it was empty |
| Deque.StoreKeeps | src/runtime/sched/LockFreeQueue.hpp:21-34 | Storing into the slot of a new index, although reused modulo the capacity, disturbs no queued task and no thief's claim |
| LockFreeTaskQueues.LockFreeTaskQueue.Push | src/runtime/sched/LockFreeQueue.hpp:21-34 | The object run alone takes the protocol's steps |
| LockFreeTaskQueues.LockFreeTaskQueue.Pop | src/runtime/sched/LockFreeQueue.hpp:36-60 | Likewise, with the race for the last task |
| LockFreeTaskQueues.LockFreeTaskQueue.Steal | src/runtime/sched/LockFreeQueue.hpp:62-78 | Likewise, with the compare-and-swap |
| Scheduler.RunAtMostOnce | src/runtime/sched/Scheduler.cpp:156-177 | Any number of workers popping and stealing in any interleaving after all spawns: no task is run twice, and only spawned tasks are run |
| Scheduler.NothingLost | src/runtime/sched/Scheduler.cpp:156-177 | When all queues are at rest and empty, every accepted task has been run exactly as often as it was accepted |
| Scheduler.SpawnsAccepted | src/runtime/sched/Scheduler.hpp:27-32 | A spawned task is accepted if and only if its queue's share of the earlier ids is below the capacity; the others are dropped silently |
| Scheduler.RunExactly | src/runtime/sched/Scheduler.cpp:156-177 | When all queues are at rest and empty, the tasks run are exactly those that found room when they were spawned, each once |
| Scheduler.PoolStepKeepsInv | src/runtime/sched/Scheduler.hpp:27-32 | Every spawn and every worker step keeps the invariant; spawns go round the queues |
| LinearScan.AllocationIsSafe | src/backend/regalloc/LinearScanAllocator.hpp:76-119 | However equal ends are sorted: every interval has a register of the pool or a slot; overlapping intervals have different registers, slots do not overlap and fit the reported area |
| LinearScan.OverlapIsSharedPoint | src/backend/regalloc/LivenessAnalyzer.hpp:19-25 | Closed intervals overlap exactly if they share a program point |
| SpillOptimality.AllocationIsOptimal | src/backend/regalloc/LinearScanAllocator.hpp:46-107 | For intervals of one class sorted by start, and however equal ends are sorted: no valid assignment of the same registers to a subset leaves fewer intervals out than the scan spills |
| LinearScanAllocators.LinearScanAllocator.Allocate | src/backend/regalloc/LinearScanAllocator.hpp:76-119 | The object with its pools, active list and spill offset computes that allocation, each name getting one location, with a smallest spill area |
| LinearScanAllocators.LinearScanAllocator.SpillAtInterval | src/backend/regalloc/LinearScanAllocator.hpp:46-74 | Eviction of the furthest end, or spilling the current interval |
| LinearScanAllocators.LinearScanAllocator.ExpireOldIntervals | src/backend/regalloc/LinearScanAllocator.hpp:23-44 | Ended intervals give their registers back |
| Liveness.SeeSpans | src/backend/regalloc/LivenessAnalyzer.hpp:30-84 | An interval runs from the name's first occurrence to its last use |
| Liveness.IntervalExactly | src/backend/regalloc/LivenessAnalyzer.hpp:30-77 | It begins at that occurrence, 0 for a parameter, and ends exactly at the last use, or where it begins if there is none |
| Liveness.ComputeIntervals | src/backend/regalloc/LivenessAnalyzer.hpp:30-84 | One interval per name, sorted by start, in any order of the table |
| AllocationRefinement.AllocationRefines | src/backend/regalloc/LivenessAnalyzer.hpp:30-84 | For functions with forward branches and single assignment: executing with the registers and slots chosen by computeIntervals and allocate is after every number of steps where executing with names is, with the same calls and result |
| AllocationRefinement.ParametersApart | src/backend/regalloc/LinearScanAllocator.hpp:76-119 | Parameters never share a location |
| AllocationRefinement.AllocationKeepsApart | src/backend/regalloc/LinearScanAllocator.hpp:76-119 | Names whose intervals overlap have different locations |
| GraphColoring.Allocate | src/backend/regalloc/GraphColoring.hpp:24-143 | Overlapping intervals never share a register, spilled ones have slots of their own, packed; a node removed while its degree was below the limit is never spilled; every choice of removal and colour is the greedy one |
| GraphColoring.Simplify | src/backend/regalloc/GraphColoring.hpp:57-102 | One node is removed per round until none is left: one with fewer remaining neighbours than its limit where there is one, else one of greatest degree |
| GraphColoring.Select | src/backend/regalloc/GraphColoring.hpp:104-142 | Every node popped gets the first colour of the pool that no neighbour coloured before has, and a new slot only if they hold all |
| GraphColoring.EnoughColors | src/backend/regalloc/GraphColoring.hpp:104-142 | With fewer coloured neighbours than colours a colour is free |
| GraphColoring.BuildGraph | src/backend/regalloc/GraphColoring.hpp:28-41 | Edges are exactly the overlapping pairs |
| GraphColoring.ColorListExactly | src/backend/regalloc/GraphColoring.hpp:113 | Taking the colours of integer nodes from the floating-point list is sound for a function without floating-point values exactly if there is nothing to allocate |
| GraphColoring.FirstIsNoGpr | src/backend/regalloc/GraphColoring.hpp:113 | The failing inputs: the node coloured first always gets a register that is none of the integer class |
| LexingLaws.RoundTrip | src/frontend/lexer/Lexer.cpp:50-286 | Printing the tokens of a source lexed without error, separated by one space, and lexing again gives the same types and texts; what the types are is said by `Tokens.ScanExactly` |
| Keywords.KeywordExactly | src/frontend/lexer/Lexer.cpp:64-163 | A word is a reserved word exactly if it is one of that word's spellings, listed by word, and an identifier exactly if it is no spelling and not `not` |
| Tokens.ScanExactly | src/frontend/lexer/Lexer.cpp:60-279 | The token found at a place is the only one that meets a description of the text there: a whole word with its type by spelling, a whole number with at most one point, a string up to the first quote after an even number of backslashes, or the longest operator |
| Tokens.TokensAreRead | src/frontend/lexer/Lexer.cpp:50-286 | Every token of a source, with errors or without, meets that description where it starts |
| Tokens.ErrorsExactly | src/frontend/lexer/Lexer.cpp:168-204 | An error is flagged exactly for a second decimal point, a string that is not closed, or a character that begins no token |
| Tokens.CharacterClasses | src/frontend/lexer/Lexer.cpp:61-168 | Letters, digits, hexadecimal digits and white space by character codes |
| LexingLaws.TokensTile | src/frontend/lexer/Lexer.cpp:50-286 | The tokens of a source lexed without error tile it as written, with only white space and comments in between |
| LexingLaws.TilesApart | src/frontend/lexer/Lexer.cpp:50-286 | Token spans are increasing and disjoint |
| LexingLaws.PositionsAreCounted | src/frontend/lexer/Lexer.cpp:10-16 | The line of every token is one more than the line feeds before it, its column one more than the characters since the last; also in sources with errors |
| LexingLaws.LongestOperator | src/frontend/lexer/Lexer.cpp:206-279 | The operator taken is the longest that the text starts with, and the error case arises only if there is none |
| LexingLaws.SkipIsBlank | src/frontend/lexer/Lexer.cpp:28-48 | What is skipped is white space and comments, each comment ending where it should |
| Lexers.Lexer.Tokenize | src/frontend/lexer/Lexer.cpp:50-286 | The object with its cursor and counters returns exactly the specified tokens, and flags an error exactly if there is one |
| Lexers.Lexer.ScanToken | src/frontend/lexer/Lexer.cpp:60-279 | One token: cursor, counters, flag and token as specified |
| Lexers.Lexer.SkipWhitespaceAndComments | src/frontend/lexer/Lexer.cpp:28-48 | Moves the cursor over blanks |
| Parser.RoundTrip | src/frontend/parser/modules/ParserExpr.hpp:10-21 | Any expression of the fragment, printed with only the parentheses its precedence needs, is parsed back, stopping at what follows it; what the precedences are is said by `Precedence.Groups` |
| Precedence.Groups | Documentation.md:388-397 | For operands a, b, c and operators p, q the tokens `a p b q c` are read as `a p (b q c)` if q is on a tighter level of the documented matrix, else as `(a p b) q c` |
| Precedence.UnaryBindsTighter | Documentation.md:387-397 | A unary operator takes the operand before any binary operator does |
| Precedence.PostfixBindsTighter | Documentation.md:386-387 | Calls, indexing and member access are taken before a unary operator |
| FrontEnd.MatrixIsFollowed | Documentation.md:384-401 | For spellings s and t of any rows but the unary one: the parser takes s to bind tighter than t exactly if its row comes first, alike exactly if it is the same row; assignments, channels, ranges and the ternary included |
| Precedence.GenericExactly | src/frontend/parser/modules/ParserCore.hpp:138-158 | The tokens after a `<` pass for type arguments exactly if, all of them names, commas, `ptr` and brackets, they close as many brackets as are open for the first time just before a `(` |
| Parser.LessTakenForGeneric | src/frontend/parser/modules/ParserCore.hpp:138-158 | Why the right operand of `<` is always printed in parentheses: `a < b > (` is taken for a call with type arguments |
| ParserExprs.ParserExpr.ParseExpression | src/frontend/parser/modules/ParserExpr.hpp:10-21 | The cursor-moving parser, with backtracking, ends and follows the specification for every token sequence |
| ParserExprs.ParserExpr.ParsePrefix | src/frontend/parser/modules/ParserExpr.hpp:142-324 | Prefix forms, likewise |
| ParserExprs.ParserExpr.ParseInfix | src/frontend/parser/modules/ParserExpr.hpp:326-427 | Infix and postfix forms, likewise |
| ParserExprs.ParserExpr.ParseGroup | src/frontend/parser/modules/ParserExpr.hpp:267-308 | Parenthesised forms parsed, rewound and parsed again, likewise |
| ParserExprs.ParserExpr.IsGenericInvocationLookahead | src/frontend/parser/modules/ParserCore.hpp:138-158 | The lookahead loop computes the specified predicate and leaves the cursor |
| ParserExprs.ParsePrinted | src/frontend/parser/modules/ParserExpr.hpp:10-21 | The object gives back any printed expression |
| FrontEnd.TextRoundTrip | src/frontend/parser/modules/ParserExpr.hpp:142-155 | Lexer and parser together: the text of any expression with names and literals of the language is read back as that expression |
| FrontEnd.DecimalIsRead | src/frontend/parser/modules/ParserExpr.hpp:146-152 | The decimal text of n is read as n below 2^63, and refused from there on |
| FrontEnd.HexIsRead | src/frontend/parser/modules/ParserExpr.hpp:146-152 | So is its hexadecimal text, in small or capital letters, after 0x or 0X, which is one integer token |
| FrontEnd.WordOperatorsEnd | src/frontend/parser/modules/ParserCore.hpp:112-136 | An expression ends before the words `and` and `or` |
| FrontEnd.KeywordBuiltinsNeverArise | src/frontend/parser/modules/ParserExpr.hpp:182-188 | No identifier token has the text of one of the builtins that the lexer makes keywords, so this branch is never taken for them |
| ModuleLoading.LoadingIsTopological | src/loader/ModuleLoader.hpp:59-111 | On success the modules merged are exactly those reachable from the root, each once and after every module it imports |
| ModuleLoading.CircularExactly | src/loader/ModuleLoader.hpp:59-111 | With all files present and parsing, loading fails exactly if a cycle is reachable, and then with the circular-import error |
| ModuleLoading.LoadCorrect | src/loader/ModuleLoader.hpp:59-111 | The walk from any module in any state of the two sets |
| ModuleLoading.ModuleLoader.LoadAndMerge | src/loader/ModuleLoader.hpp:59-111 | The recursive method ends on every import graph and leaves the sets, statements and error as specified |
| RegionSafety.RegionsAreSafe | src/core/Region.hpp:39-98 | After any sequence of operations clients may call, blocks held in any regions are aligned, inside their buffer, and disjoint from each other and from every chunk of a free list |
| RegionSafety.ReturnedIsHeld | src/core/Region.hpp:58-83 | Every address a client gets is a block it then holds, of at least the size asked for, and it still holds all it held; without room nothing changes |
| RegionSafety.EscapedSurvives | src/core/Region.hpp:78-97 | A value that escapes from a region with a parent is still held after the region is disposed of |
| RegionSafety.DisposeReclaims | src/core/Region.hpp:92-97 | After disposal any block that fits in the whole buffer can be allocated, at no higher address |
| Regions.SlabClass | src/core/Region.hpp:18-23 | The class of a size is the first that is large enough, none exactly above 512 |
| RegionSafety.ListsAreSound | src/core/Region.hpp:58-76 | After any such sequence every free list, followed through memory, is acyclic and links exactly the chunks of its class |
| RegionSafety.StepKeeps | src/core/Region.hpp:39-98 | Each operation, and anything clients store in their blocks, keeps the allocator invariant |
| RegionSafety.CreateKeeps | src/core/Region.hpp:39-54 | A child carved out of its parent, or supplied by malloc when the parent is full |
| RegionSafety.DisposeKeeps | src/core/Region.hpp:92-97 | Disposing of a region ends the regions carved out of it and disturbs no other |
| RegionSafety.AllocExactly | src/core/Arena.hpp:76-91 | alloc fails exactly if no aligned block of that size fits in the rest of the buffer, and otherwise gives the lowest |
| RegionSafety.FreeThenAlloc | src/core/Region.hpp:58-76 | A freed block is the next one returned for its class, and returning it restores the lists |
| Regions.AlignsExactlyPowers | src/core/Arena.hpp:79-81 | The mask aligns every address if and only if the alignment is a power of two |
| RegionObjects.RegionObject.SlabAlloc | src/core/Region.hpp:58-67 | The object pops the head of the list through memory, or bumps |
| RegionObjects.RegionObject.SlabFree | src/core/Region.hpp:69-76 | The object links the chunk in through memory |
| RegionObjects.RegionObject.Alloc | src/core/Arena.hpp:76-91 | The object moves its offset |
| RegionObjects.RegionObject.CreateChild | src/core/Region.hpp:39-54 | Both blocks are asked for in the parent, and the child is set up in one of three ways |
| RegionObjects.RegionObject.AllocEscaped | src/core/Region.hpp:78-83 | Allocates in the parent if there is one |
| RegionObjects.RegionObject.Dispose | src/core/Region.hpp:92-97 | Resets the offset and every list |

## Left out

What the model does not capture, by part.

- Runtime: weak memory effects and wrap-around of the 64-bit counters; the steps are sequentially consistent and the counters unbounded.
- Runtime: pushing from another thread than the owner while workers run; all spawns precede `start()`. Context switches, stacks and task states are not part of this model.
- Scheduler.RunAtMostOnce: the worker loop is represented by arbitrary interleavings of its pops and steals, so nothing is said about fairness, sleeping, or the random choice of the victim.
- LockFreeTaskQueues.LockFreeTaskQueue.Push: the object is one operation run without interruption; interleavings are the state machine of `Deque`.
- LockFreeTaskQueues.LockFreeTaskQueue.Pop: likewise.
- LockFreeTaskQueues.LockFreeTaskQueue.Steal: likewise.
- LinearScan.AllocationIsSafe: one register class, as eviction in the code ignores the class of the interval.
- SpillOptimality.AllocationIsOptimal: the number of spilled intervals, not how often they are used.
- LinearScanAllocators.LinearScanAllocator.Allocate: one register class; `std::sort` is any function that sorts by end points.
- LinearScanAllocators.LinearScanAllocator.SpillAtInterval: one register class, likewise.
- AllocationRefinement.AllocationRefines: branches go forward and names are assigned once, as live intervals are textual; loops are out.
- GraphColoring: the order in which hash tables are walked is left open everywhere.
- Lowering: floating point, strings, arrays, bit operations, shifts, casts, hardware access, tasks, break, continue and defer are not in the source syntax modelled. Calls are by name.
- LoweringFunc.CompilerCorrect: asks for sources that never divide by zero nor divide the least integer by -1, user names that are not those of temporaries, conditions whose truth value fits 64 bits, loop bounds that the loop does not assign, and globals that are not reassigned.
- LoweringFunc: `variableDefBlocks`, which the builder fills as it emits, is a parameter of `PhiPlacement`; its theorems hold for any such table.
- Ssa: addresses of string constants are a function of the string; instructions without operands or with unknown labels fault.
- ConstantProp.PropagationCorrect: for runs that read no name before its assignment; `EarlyReadDiffers` shows why. Folding the least integer by -1 is undefined in the original; the model wraps around.
- Licm.HoistingCorrect: for loops whose blocks are the header and its latches with one predecessor outside, and for instructions that cannot fault; `HoistedDivisionFaults` shows why the latter.
- LicmPasses.Optimize: the predecessor lists and dominator sets are parameters; `LicmDriver.OptimizeFunction` computes them from the function.
- DominanceAnalyzers.DominanceAnalyzer.ComputeDominance: asks that all blocks are reachable and none jumps to the entry; the dominator sets alone need neither.
- DominanceAnalyzers.DominanceAnalyzer.ComputeImmediateDominators: likewise; an unreachable block is dominated by all blocks, and what the search then finds depends on the order of a hash table.
- DominanceAnalyzers.DominanceAnalyzer.ComputeDominanceFrontiers: likewise.
- X86_64 encoder: the System V branch and the integer fragment; floating point, vectors, ports, registers by name, interrupts and volatile access are left out, as is the Windows branch.
- EncodingPrograms.ProgramCorrect: for programs in which no two functions or blocks share a name, as the table of labels is one for all, and with code below 2^31 bytes. Calls of native functions are executed, with arbitrary effects within the calling convention. Calls of one generated function from another are encoded and patched, but runs through them, recursion among them included, are not part of the theorem. That a callee leaves every word above its return address alone, which such calls rest on, is.
- EncodingSim.StraightSim: calls of native functions only, likewise.
- EncodingRuns.StepSim: calls of native functions only, likewise.
- EncodingRuns.ReturnsAlike: calls of native functions only, likewise.
- EndToEnd.SourceToBytes: calls of native functions only, distinct names and size, likewise.
- EncodingSim.CallSim: for calls with at most six arguments; the encoder drops the rest, and parameters beyond the sixth keep what their slots hold.
- EndToEnd: constant propagation and loop-invariant code motion are not in the composition, as their conditions are not ones the builder's output meets in general (names are assigned several times).
- Encoding: an array allocated twice under one name, and a return without operand, are excluded; the builder emits neither.
- Lexing: bytes above 127 count as unexpected characters.
- Parser.RoundTrip: assignment, ranges, ternaries, channels, lambdas, generic calls, and literals other than integers are recognised where the parser turns to them and reported as not modelled, so nothing is claimed about them.
- ParserExprs: exceptions are outcomes; the error list and error recovery are left out.
- ModuleLoading.ModuleLoader.LoadAndMerge: the file system is a map from paths to parsed modules; resolving paths and reading files are left out.
- Regions: addresses and sizes do not wrap around, freeing the memory that malloc supplied is left out, and an aligned word is the unit in which links are stored.
- RegionObjects.RegionObject.CreateChild: what malloc would supply is a parameter.
- Mem2Reg acts on an instruction that the builder never emits, and AutoVectorizer drops results it should keep; neither is modelled.
- Other encoders, image builders, the JIT, the language server, the build tool, type checking, monomorphisation and the operating system demo are left out: they repeat the chosen encoder or are input and output.
