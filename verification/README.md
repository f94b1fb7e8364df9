# The Aegis compiler path, verified

A Dafny model of the path a function takes through the Aegis compiler, and proofs that the path keeps its meaning:
expression parser, definite-assignment checker, lowering to a sea-of-nodes graph, the middle-end rewrites, instruction
selection, linear-scan register allocation, x86-64 encoding and linking, and the hash table the passes rely on.
Code that works by updating state is modelled by classes and loops over that state; pure tables are functions.

`dafny verify dfyconfig.toml` checks the project.

## How it fits together

| part | modules |
|---|---|
| words, bits, lists | `Wrappers`, `Words`, `BitLaws`, `WordLaws`, `Finite` |
| frontend | `Ast`, `Interpreter`, `ParserSpec`, `ParserProof`, `ParserGrouping`, `ParserLanguage`, `Parser`, `TypeChecker`, `AcceptedExactly`, `Lowering`, `LoweringShape`, `SeaSemantics`, `LoweringMeaning`, `LoweredFunctions`, `OneWalk`, `NestedAssignments`, `PlainLowering`, `Lowerer` |
| graph and passes | `IR`, `UseDef`, `Graph`, `Valuation`, `Rewriting`, `Lattice`, `ConstantPropagation`, `StrengthReduction`, `CopyPropagation`, `ValueNumbering`, `DeadCode`, `InductionVariables` |
| selection | `InstrSel`, `Scheduler`, `StraightLineCode`, `StructuredCode`, `LoopRegions`, `StructuredAcceptance`, `RegionWalk`, `LoweredBranches` |
| allocation and encoding | `MachineIR`, `LiveIntervals`, `LinearScan`, `Liveness`, `X86`, `X86Bytes`, `ParallelMove`, `EncoderSpec`, `EncoderAccepts`, `ExecEncoder`, `TwoOperand`, `ByteMachine`, `Simulation`, `StraightEncoding`, `Linker` |
| whole path | `SourceToBytes`, `LostParameter` |
| hash table | `ProbeSpec`, `SwissTable` |

The main results are: `SourceToBytes.CompileFunction` (source to bytes without branches),
`LoweredFunctions.FunctionMeans` and `OneWalk.FunctionMeansExactly` (lowering with branches and loops against an
interpreter, whose value is the only one the graph returns),
`StructuredCode.StructuredFunctionReturns` (any nest of emitted regions, down to bytes),
`Simulation.EncodedFunctionReturns` with `Liveness.IntervalsCover` and `LinearScan.LinearScanAllocator.Run` (the
backend for programs with labels and jumps and runs of any length), the round trip `ParserProof.ParsePrint` with the language `ParserLanguage.ReadExactly`,
`SwissTable.Table.Emplace` (a finite map, and exactly when probing runs off its end), and the equivalence theorems of
the passes over valuations in time, which cover cyclic graphs.

Words are 64-bit two's complement, modelled as integers modulo 2^64. Division by zero, `INT_MIN / -1` and shift counts
outside 0..63 have no value in the language; the folding pass is modelled as leaving them alone.
The encoder theorems assume an allocation without spills, as the encoder itself does
(`compiler/backend/include/aegis/backend/x86/ExecEncoder.hpp:42-45`). A valuation of a graph gives every node a value at
every moment; a phi takes the value one of its inputs had at an earlier one, chosen by its region alone, and calls,
memory and control are left to an arbitrary world.

## Where the code falls short

Each of these has a concrete input, and a theorem that says exactly when the code is right.

- Induction variables: the recurrence analysis never checks that the back value adds its constant to the phi, so a loop
  that assigns `s = x + 5` has `s * 2` rewritten into a running sum (`InductionVariables.AssignmentIsLost`; exact
  condition `InductionVariables.DerivedReflects`).
- Constant propagation: a call with one constant argument takes the argument as its own constant, against the comment
  that a call never computes a lattice value (`ConstantPropagation.CallIsLost`; exact condition
  `ConstantPropagation.ConstantsRightExactly`).
- Hash table: the load rule counts live keys only, so tombstones can use up every empty byte of a table with no keys in
  it (`SwissTable.ExhaustEmptyTable`; exact condition in `SwissTable.Table.Emplace`). Room reserved for fourteen keys
  grows at the fourteenth (`ProbeSpec.ReservedFourteenGrows`; exact condition `ProbeSpec.ReservedRoom`).
- Loop regions: sequential back-edge moves are wrong when one reads a phi an earlier one has updated
  (`LoopRegions.PreviousIsLost`; exact condition `LoopRegions.SequentialIsParallel`), and the body runs once more before
  the test (`LoopRegions.ZeroTripLoopTraps`; exact condition `LoopRegions.LateTestIsHarmless`).
- Lowering of assignments: inside an expression `-=`, `*=` and `/=` become an addition
  (`SourceToBytes.NestedDecrementReturnsSum`; exact conditions `NestedAssignments.OperatorRightExactly` and
  `NestedAssignments.UnchangedExactly`). As statements they are lowered with their own operator.
- Lowering of loops: the accumulator walk skips the ranges of inner loops (`LoweredFunctions.RangeAssignmentIsLost`;
  exact conditions `LoweredFunctions.ReboundExactly` and `LoweringMeaning.AccumulatorsCover`).
- Argument moves: the staged search breaks only cycles through the first move (`EncoderSpec.CallSwapsLateArguments`;
  exact condition `ParallelMove.ResolveExactly`).
- Parameter moves: the safety check exempts self-moves, so an unread parameter can be moved into the register the next
  one already sits in (`LostParameter.CompileUnread`; exact conditions `ParallelMove.ResolvedExactly` and
  `Simulation.ParamBlockExactly`).
- Parameter numbers: a dead parameter before a live one shifts the numbering (`StraightLineCode.SelectWithoutFirst`;
  exact condition `StraightLineCode.ParameterNumbering`).
- Merge lookup: an arm with more than thirty-two consecutive branches is too long for the walk, and the merge then finds
  no branch (`LoweredBranches.ThirtyThreeIfs`; exact condition `LoweredBranches.MergeOfBranch`).

Where comment and code disagree the code is followed: the encoder has thirteen homes including RBP, where its header
speaks of twelve with RBP reserved; the interpreter in `tests/perf/bench_runtime.cpp` keeps one flat environment and
ignores the operator of compound assignments, and the model uses scoped environments and applies it.

## Model

| member | source | states |
|---|---|---|
| LiveIntervals.ScanMentions | compiler/backend/src/RegAlloc/LinearScan.cpp:26-51 | first and last mention of every virtual register (one past its last use) and the class of its last mention, for any program |
| LiveIntervals.CollectSpans | compiler/backend/src/RegAlloc/LinearScan.cpp:61-77 | the loop spans are exactly the labels that a later `jmp` returns to, in head order |
| LiveIntervals.WidenOverLoops | compiler/backend/src/RegAlloc/LinearScan.cpp:78-89 | the loop over registers and spans computes the widened ends in place |
| LiveIntervals.LoopClosure | compiler/backend/src/RegAlloc/LinearScan.cpp:52-89 | one pass over the spans in head order reaches closure: a register defined before a loop head and still wanted inside the loop stays open to its back edge, however the loops nest |
| LiveIntervals.MarkCallSpans | compiler/backend/src/RegAlloc/LinearScan.cpp:90-112 | a register is marked exactly when some call lies strictly inside its widened interval |
| LiveIntervals.ComputeIntervals | compiler/backend/src/RegAlloc/LinearScan.cpp:26-118 | the computed list is the interval of every mentioned register and of no other |
| LiveIntervals.IntervalIsLeast | compiler/backend/src/RegAlloc/LinearScan.cpp:26-118 | an interval starts at the first mention and ends at the least point that encloses all mentions and is inside no loop entered since; it spans the calls strictly between, and its class is that of the last mention |
| LinearScan.LinearScanAllocator.FirstFree | compiler/backend/src/RegAlloc/LinearScan.cpp:146-162 | the lowest register of the class at or above the floor that no active interval holds; when none is free all of them are held |
| LinearScan.LinearScanAllocator.Evict | compiler/backend/src/RegAlloc/LinearScan.cpp:168-177 | spilling the furthest active interval hands its register on and keeps every invariant of the walk |
| LinearScan.LinearScanAllocator.PlaceNext | compiler/backend/src/RegAlloc/LinearScan.cpp:137-183 | expire, search, spill or evict: one interval placed and the invariant kept; a spill only when every permitted register is held by an overlapping interval, and then the one spilled ends no earlier than the current interval and all that held those registers, the current one on a tie |
| LinearScan.LinearScanAllocator.Run | compiler/backend/src/RegAlloc/LinearScan.cpp:120-185 | on every input: unspilled registers with overlapping intervals never share a home, the returned count is the number of spilled registers, zero spills homes every register (call-spanning ones at or above the callee-saved floor) in the lowest register free of overlapping earlier ones, a spill implies a register with as many overlapping rivals as there are homes it may take, and where all may take the same homes the converse: zero spills is a condition on the intervals; every spilled register ends no earlier than each that held a home it could have had when it was spilled |
| LinearScan.LinearScanAllocator.HomedIsNotOutnumbered | compiler/backend/src/RegAlloc/LinearScan.cpp:144-182 | registers in use together that all have homes in one range are at most as many as the range |
| LinearScan.LinearScanAllocator.PressedIsOutnumbered | compiler/backend/src/RegAlloc/LinearScan.cpp:144-182 | an interval placed by spilling starts where at least as many others are open as it has registers to choose from |
| Liveness.IntervalsCover | compiler/backend/src/RegAlloc/LinearScan.cpp:26-89 | for every program whose backward jumps close loop spans and whose reads are written on all paths, the widened interval covers semantic liveness along paths of any length |
| Liveness.LivePairApart | compiler/backend/src/RegAlloc/LinearScan.cpp:26-185 | two registers live at the same reachable instruction have different homes |
| Liveness.DefinitionApart | compiler/backend/src/RegAlloc/LinearScan.cpp:37-51 | a definition never takes the home of another register live before it, which is what makes the two-operand lowering safe |
| X86Bytes.DecodeEncode | compiler/backend/src/x86/ExecEncoder.cpp:158-224 | decoding the bytes of any emitted instruction, whatever follows, gives back the instruction, its registers 0..15 and its length (Intel SDM Vol. 2A sections 2.1.3 and 2.2.1) |
| X86.CompareDecides | compiler/backend/src/x86/ExecEncoder.cpp:482-509 | the condition codes selected after `cmp` decide the signed comparisons of the two operands |
| ParallelMove.IsSafe | compiler/backend/src/x86/ExecEncoder.cpp:336-352 | the pairwise check decides whether an order destroys a source before it is read |
| ParallelMove.ResolveMoves | compiler/backend/src/x86/ExecEncoder.cpp:318-372 | identity first, then all permutations, then the same with the first source staged in RAX |
| ParallelMove.OrderingsComplete | compiler/backend/src/x86/ExecEncoder.cpp:318-372 | the permutation search misses no ordering |
| ParallelMove.SafeOrderExactly | compiler/backend/src/x86/ExecEncoder.cpp:318-352 | the unstaged search succeeds exactly when the move graph has no cycle of length two or more |
| ParallelMove.ResolveExactly | compiler/backend/src/x86/ExecEncoder.cpp:318-372 | with the RAX stage the search succeeds exactly when every cycle passes through the first move |
| EncoderSpec.CallSwapsLateArguments | compiler/backend/src/x86/ExecEncoder.cpp:528-559 | a call with its second and fourth arguments in each other's registers is refused as a cycle, the staged search included |
| EncoderSpec.CalleeSavedHomes | compiler/backend/src/x86/ExecEncoder.cpp:105-125 | the homes from the first callee-saved one on are exactly RBX, RBP and R12 to R15 |
| EncoderAccepts.AcceptedExactly | compiler/backend/src/x86/ExecEncoder.cpp:228-656 | any program, jumps and calls included, is accepted exactly when each instruction has its operands in homes, its immediate, and a mapping, the cycles of parameter and argument moves pass through the first move, something returns, and every jump has a label within reach |
| EncoderAccepts.ShortReaches | compiler/backend/src/x86/ExecEncoder.cpp:633-655 | in programs of up to ten million instructions every label is within reach |
| ParallelMove.SafeOrderIsLeast | compiler/backend/src/x86/ExecEncoder.cpp:318-352 | the order the search settles on is the lexicographically least safe one |
| ParallelMove.SafeOrderKeepsList | compiler/backend/src/x86/ExecEncoder.cpp:318-352 | so moves into one register are emitted in list order |
| ParallelMove.ResolvedCarries | compiler/backend/src/x86/ExecEncoder.cpp:318-372 | for every successful sequence, staged or not, with or without repeated destinations, the exact final value of every register: that of the source of the last move into it, or its own |
| ParallelMove.ResolvedExactly | compiler/backend/src/x86/ExecEncoder.cpp:318-372 | every destination receives its last source, from every register file, exactly when no destination's last move is a self-move behind a move into it from another register: the exemption in the safety check |
| TwoOperand.BinComputes | compiler/backend/src/x86/ExecEncoder.cpp:391-440 | `mov dst,a; op dst,b`, the four divisions and the six comparisons leave the operation in `dst` and change nothing but scratch registers, provided `dst` is not the second operand |
| TwoOperand.ShiftComputes | compiler/backend/src/x86/ExecEncoder.cpp:441-462 | shifts by an immediate in 0..63 compute the shift |
| TwoOperand.UnComputes | compiler/backend/src/x86/ExecEncoder.cpp:463-481 | negation, complement and logical not compute their values |
| TwoOperand.SelectComputes | compiler/backend/src/x86/ExecEncoder.cpp:600-617 | test and conditional move compute the selection |
| TwoOperand.ValueCodeComputes | compiler/backend/src/x86/ExecEncoder.cpp:384-617 | the code of any value instruction puts its value into the home of its destination and leaves every other home alone |
| ExecEncoder.EmitBlock | compiler/backend/src/x86/ExecEncoder.cpp:126-225 | what one instruction adds to the buffer, the label table and the two fixup lists |
| ExecEncoder.ResolveJumps | compiler/backend/src/x86/ExecEncoder.cpp:633-655 | every recorded jump is patched to its label and no other byte changes; it fails exactly when a label is missing or out of reach |
| ExecEncoder.EncodeOne | compiler/backend/src/x86/ExecEncoder.cpp:276-656 | encoding a function in one pass with fixups gives the laid-out blocks with every displacement final, and fails with the first error in order |
| Linker.LinkedCallDecodes | compiler/backend/src/x86/ExecEncoder.cpp:686-717 | at every call site of the linked image a `call` decodes whose target is the entry of its callee |
| Linker.EveryCallLinked | compiler/backend/src/x86/ExecEncoder.cpp:686-717 | every call instruction of every function of the module stands in the linked image as a call of the callee of its symbol |
| Linker.EntryIsFirst | compiler/backend/src/x86/ExecEncoder.cpp:690-702 | that callee is the first function with the symbol, and there is none exactly when no function has it |
| Linker.EncodeModule | compiler/backend/src/x86/ExecEncoder.cpp:659-718 | every call of the linked image goes to the entry of the first function of its symbol, no byte outside the displacement fields changes, an empty list is refused, and failure has exactly the three causes the code has |
| ByteMachine.RunPlain | compiler/backend/src/x86/ExecEncoder.cpp:158-224 | a machine that decodes as it goes executes the encoded code |
| Simulation.RunSimulated | compiler/backend/src/x86/ExecEncoder.cpp:276-656 | after any number of steps of the virtual-register program the byte machine stands at the same instruction with every live register in its home |
| Simulation.EncodedFunctionReturns | compiler/backend/src/x86/ExecEncoder.cpp:276-656 | for runs of any length through any control flow: when the virtual-register program returns a value and the parameter block overwrites no wanted parameter, the encoded function returns it in RAX with the stack, RBX, RBP and R12 to R15 as they were |
| Simulation.ZeroSpillAllocation | compiler/backend/src/RegAlloc/LinearScan.cpp:120-185 | what the allocator guarantees without spills is what the encoder theorem needs |
| Simulation.LiveAcrossCall | compiler/backend/src/RegAlloc/LinearScan.cpp:90-112 | without spills, and with the homes from the first callee-saved one on set aside for them, a general register live across a call sits in a register the callee preserves |
| Simulation.ParamBlockExactly | compiler/backend/src/x86/ExecEncoder.cpp:289-372 | the parameter block puts every argument that is wanted after it in place, for all arguments, exactly when no wanted parameter's home is overwritten in that way |
| Simulation.ReadParamsArrive | compiler/backend/src/x86/ExecEncoder.cpp:289-372 | when every parameter is read none is overwritten |
| InstrSel.Collect | compiler/backend/src/x86/InstrSel_x86.cpp:145-372 | collection lists one instruction for every live value node and return, in id order, with shift counts folded |
| Scheduler.Schedule | compiler/backend/src/x86/InstrSel_x86.cpp:506-645 | on every acyclic graph the explicit-stack scheduler terminates, emits every collected instruction exactly once and every operand before its consumer, despite duplicate stack entries, and before each collected instruction nothing but what it and those collected earlier need |
| Scheduler.VisitTop | compiler/backend/src/x86/InstrSel_x86.cpp:522-644 | each turn of the loop emits, drops or opens the top frame and lowers the measure (unvisited nodes, stack height) |
| Scheduler.Sweep | compiler/backend/src/x86/InstrSel_x86.cpp:646-672 | the sweep keeps exactly the instructions that define nothing unread |
| StraightLineCode.ParameterNumbering | compiler/backend/src/x86/InstrSel_x86.cpp:329-343 | selection numbers live parameters by their signature position exactly when no dead parameter precedes a live one |
| StraightLineCode.SelectWithoutFirst | compiler/backend/src/x86/InstrSel_x86.cpp:329-343 | a graph that returns its second parameter, the first being dead, is selected to a program that returns the first argument |
| StraightLineCode.SweptExactly | compiler/backend/src/x86/InstrSel_x86.cpp:646-672 | the sweep leaves exactly the returns and the values some scheduled instruction reads |
| StraightLineCode.SupportedExactly | compiler/backend/src/x86/InstrSel_x86.cpp:145-372 | the selected program is one the encoder supports exactly when every parameter in it is among the first six live ones and every shift counts by a constant in 0..63 |
| StraightLineCode.ProgramReturns | compiler/backend/src/x86/InstrSel_x86.cpp:506-672 | the scheduled and swept program returns the value of the return node |
| StraightLineCode.Select | compiler/backend/src/x86/InstrSel_x86.cpp:145-672 | collection, schedule and sweep give a program that meets every demand of the byte-level theorem, of exactly the nodes that survive, whether or not every value is used |
| StraightEncoding.AssembleExactly | compiler/backend/src/x86/ExecEncoder.cpp:276-656 | straight-line code over homes is accepted exactly when its parameters are passed in registers, no shift takes its count from one, and all cycles of the parameter moves pass through the first |
| StraightEncoding.SpilledIsRefused | compiler/backend/src/x86/ExecEncoder.cpp:229-248 | code that mentions a spilled register is refused |
| StraightEncoding.ReadParamHome | compiler/backend/src/RegAlloc/LinearScan.cpp:144-162 | parameters that are all read get the homes in order |
| StraightEncoding.ReadEncodes | compiler/backend/src/x86/ExecEncoder.cpp:289-372 | so their moves never form a cycle the encoder refuses |
| StraightLineCode.Compile | compiler/backend/src/x86/InstrSel_x86.cpp:145-672 | graph to bytes: the program is the selected one, the allocation the first-fit one and the result their assembly; a spill is reported exactly when some register starts where as many others are in use as there are homes, the code is accepted exactly when none does and the encoder supports it, and unless a wanted parameter is overwritten, which cannot be when all are read, running the bytes on any arguments returns the graph value and restores the caller's registers |
| SourceToBytes.CompileFunction | compiler/backend/src/x86/ExecEncoder.cpp:276-656 | source to bytes: for every checked function without branches, unused parameters and values included, the code is accepted exactly under those conditions on what selection makes of it, and then the machine code returns what the interpreter returns, through lowering, selection, allocation and encoding, for all arguments; where a `-=`, `*=` or `/=` stands inside an expression, what it returns for the function with `+=` there |
| LostParameter.CompileUnread | compiler/backend/src/x86/ExecEncoder.cpp:318-372 | `fn f(a,b,c,d) { let x = -a; let y = -b; let z = -c; return d; }` passes every stage without report or spill, the interpreter returns its fourth argument and the bytes its third |
| PlainLowering.FunctionCompilable | compiler/frontend/src/Lowering.cpp:70-104 | the lowered graph of every checked function without branches meets all that selection asks of a graph |
| PlainLowering.FunctionEnds | compiler/frontend/src/Lowering.cpp:70-104 | up to its first return that graph has values, the interpreter's result there, whatever follows the return |
| PlainLowering.GraphHasValue | compiler/frontend/src/Lowering.cpp:70-104 | so it has a valuation of all that the return demands, with the interpreter's result at the return |
| StructuredCode.RegionEmitter.EmitSelectRegion | compiler/backend/src/x86/InstrSel_x86.cpp:878-953 | the emitted text of a branch region and the labels it takes |
| StructuredCode.RegionEmitter.EmitLoopRegion | compiler/backend/src/x86/InstrSel_x86.cpp:955-1076 | the emitted text of a loop region: entry moves, head label, body, `jz`, sequential updates, `jmp`, exit label |
| StructuredCode.TextUnique | compiler/backend/src/x86/InstrSel_x86.cpp:911-998 | in any nest of regions no label is defined twice, as long as the two label spaces have not met |
| StructuredCode.CodeFlows | compiler/backend/src/x86/InstrSel_x86.cpp:878-1076 | emitted code jumps backwards only from the end of a loop to its head and can all be reached going forward |
| StructuredCode.CodeRuns | compiler/backend/src/x86/InstrSel_x86.cpp:878-1076 | running the emitted text does what the nested regions mean, for loops of any number of turns |
| StructuredCode.FunctionExecutable | compiler/backend/src/x86/InstrSel_x86.cpp:955-1076 | emitted functions with any nest of loops and branches satisfy the hypotheses of the interval and byte theorems |
| StructuredAcceptance.EmittedAccepted | compiler/backend/src/x86/ExecEncoder.cpp:633-655 | every jump of an emitted function has its label, so the encoder accepts it exactly when each instruction can be encoded and the parameter moves resolve, as long as distances fit |
| StructuredCode.StructuredFunctionReturns | compiler/backend/src/x86/InstrSel_x86.cpp:878-1076 | such a function, encoded under a spill-free allocation, returns from its bytes the value its regions mean |
| LoopRegions.SequentialIsParallel | compiler/backend/src/x86/InstrSel_x86.cpp:1058-1065 | the sequential back-edge moves equal the simultaneous update exactly when no move reads a phi an earlier one has changed |
| LoopRegions.PreviousIsLost | compiler/backend/src/x86/InstrSel_x86.cpp:1058-1065 | a loop that keeps the previous value of a phi updated before: 5 in the loop of the source, 7 in the emitted one |
| LoopRegions.LateTestIsHarmless | compiler/backend/src/x86/InstrSel_x86.cpp:1025-1076 | evaluating a pure body once more before `jz` ends with the same phis exactly when that extra evaluation is defined |
| LoopRegions.ZeroTripLoopTraps | compiler/backend/src/x86/InstrSel_x86.cpp:1025-1076 | a loop that turns zero times and divides in its body traps once emitted, although the source loop ends at once |
| LoopRegions.CodeFrame | compiler/backend/src/x86/InstrSel_x86.cpp:955-1076 | registers a region does not write keep their values |
| RegionWalk.GoverningIf | compiler/backend/src/x86/InstrSel_x86.cpp:52-113 | the recursive walk with its depth bound and the intersection of the predecessor chains, as loops |
| RegionWalk.GoverningIsShared | compiler/backend/src/x86/InstrSel_x86.cpp:52-113 | on any graph, what governs a region is met on the way up from each predecessor that meets any branch; nothing governs it exactly when no branch is |
| RegionWalk.DepthLimit | compiler/backend/src/x86/InstrSel_x86.cpp:52-84 | a walk looks at the branch of a projection up to depth sixty-four and no further |
| RegionWalk.MergeFinds | compiler/backend/src/x86/InstrSel_x86.cpp:52-113 | on laid-out nested branches of any shape the merge finds its own branch exactly when neither arm is longer than the depth bound, and otherwise nothing |
| LoweredBranches.MergeOfBranch | compiler/backend/src/x86/InstrSel_x86.cpp:52-113 | for every lowered `if` without returns or loops in its arms: `governing_if` is the If whose projections opened the arms exactly when both arms fit the depth bound (two steps for each consecutive branch, the shorter arm counting), and otherwise none |
| LoweredBranches.ThirtyThreeIfs | compiler/backend/src/x86/InstrSel_x86.cpp:52-113 | with thirty-two consecutive branches in an arm the merge finds its branch, with thirty-three none |
| LoweredBranches.StmtDescends | compiler/frontend/src/Lowering.cpp:254-323 | lowering keeps every control edge leading to an older node |
| ParserSpec.IntValueOfDigits | compiler/frontend/src/Parser.cpp:410-418 | reading back the decimal digits of a 64-bit number gives the number |
| Parser.ExprParser.ParseExprFrom | compiler/frontend/src/Parser.cpp:358-390 | the climbing loop over the token position computes the grammar's result, rest and number of reports |
| Parser.ExprParser.ParseUnaryHere | compiler/frontend/src/Parser.cpp:392-405 | prefix operators bind tighter than any binary one and looser than postfixes |
| Parser.ExprParser.ParsePrimaryHere | compiler/frontend/src/Parser.cpp:407-483 | literals, names, paths and parentheses, with the error count of a missing token |
| Parser.ExprParser.ParsePostfixFrom | compiler/frontend/src/Parser.cpp:485-521 | calls, fields and indices apply to what stands before them |
| ParserProof.ParsePrint | compiler/frontend/src/Parser.cpp:358-521 | for every expression tree, parsing its minimal-parenthesis tokens followed by anything that cannot continue it returns that tree and exactly the rest, with no report |
| ParserProof.PrintInjective | compiler/frontend/src/Parser.cpp:358-521 | different trees have different tokens |
| ParserProof.ParsePrintable | compiler/frontend/src/Parser.cpp:358-521 | whatever the parser returns, on any tokens, is a tree the printer can print |
| ParserProof.Reparse | compiler/frontend/src/Parser.cpp:358-521 | printing the result of any parse and parsing it again gives the same tree |
| ParserGrouping.TwoOperators | compiler/frontend/src/Parser.cpp:33-57 | for any two operators: `x a y b z` groups to the left when `a` stands in a tighter group or both in one that is not the assignments', and to the right otherwise; the groups are a literal list |
| ParserGrouping.Atoms | compiler/frontend/src/Parser.cpp:407-462 | each literal, name and type word is one operand, with its value |
| ParserGrouping.Prefixed | compiler/frontend/src/Parser.cpp:392-405 | a sign and its operand are one operand |
| ParserGrouping.Bracketed | compiler/frontend/src/Parser.cpp:464-469 | parentheses make one operand of an expression that ends with them |
| ParserGrouping.DecimalDigits | compiler/frontend/src/Parser.cpp:410-418 | a digit behind others multiplies by ten and adds, modulo 2^64 |
| ParserLanguage.ReadExactly | compiler/frontend/src/Parser.cpp:358-521 | a list of tokens is read to its end without a report exactly when it is a sentence of the expression grammar, redundant parentheses and a comma after the last argument included, and what is read is a tree it can be a way to write |
| ParserLanguage.TakenIsSentence | compiler/frontend/src/Parser.cpp:358-521 | in the middle of other tokens, whatever is taken without a report is such a sentence |
| TypeChecker.Checker.CheckStmtNode | compiler/frontend/src/TypeChecker.cpp:141-228 | the statement checker reports nothing exactly when the statement is accepted, and leaves the frame of the specification |
| TypeChecker.Checker.CheckExprNode | compiler/frontend/src/TypeChecker.cpp:295-383 | the expression checker adds exactly the diagnostics of the names the expression reads that are not visible, of those it assigns that are not visible or not mutable, and of what is not lowered |
| AcceptedExactly.ExprAcceptedExactly | compiler/frontend/src/TypeChecker.cpp:295-383 | an expression is accepted exactly when every name it reads is visible, every name it assigns visible and mutable, and everything in it can be lowered |
| AcceptedExactly.StmtAcceptedExactly | compiler/frontend/src/TypeChecker.cpp:141-243 | a statement is accepted exactly when that holds of every expression where it stands, nothing binds a name already visible there, and no loop body holds what cannot be lowered in one |
| AcceptedExactly.FunctionAcceptedExactly | compiler/frontend/src/TypeChecker.cpp:126-139 | a function is accepted exactly when its parameters have different names and its body is fine in that sense |
| TypeChecker.AcceptedIsSafe | compiler/frontend/src/TypeChecker.cpp:141-383 | no run of an accepted function, for any branch outcomes and trip counts, reads or assigns an unbound name, and immutable parameters keep their arguments |
| TypeChecker.StmtSafe | compiler/frontend/src/TypeChecker.cpp:141-243 | the same for a statement: what is visible afterwards is bound, and immutable bindings visible before keep their values |
| Lowerer.AstLowerer.LowerStmtNode | compiler/frontend/src/Lowering.cpp:217-467 | the lowerer, updating graph, table and bindings in place, produces the specified graph and bindings |
| Lowerer.AstLowerer.LowerForNode | compiler/frontend/src/Lowering.cpp:333-438 | loops: header, open phis, test, body, back edges, exit |
| Lowerer.AstLowerer.CollectLoopAccumulators | compiler/frontend/src/Lowering.cpp:128-214 | the stack walk collects the specified names in its order |
| LoweringShape.AccumulatorsAre | compiler/frontend/src/Lowering.cpp:128-214 | the accumulators of a loop are exactly the outer names its body is seen to assign, each once |
| LoweringMeaning.ExecFrame | compiler/frontend/src/Lowering.cpp:128-214 | names a body is not seen to assign keep their values through it |
| LoweringMeaning.AccumulatorsCover | compiler/frontend/src/Lowering.cpp:128-214 | the accumulators of a loop are all the outer names its body assigns exactly when each of those an inner range assigns is also seen assigned elsewhere in the body |
| LoweringMeaning.AssignMeans | compiler/frontend/src/Lowering.cpp:439-462 | an assignment lowered with the operator it means binds the name to a node with its value |
| NestedAssignments.OperatorRightExactly | compiler/frontend/src/Lowering.cpp:544-571 | the node made for a compound assignment inside an expression has the meant value for all operands exactly for `=` and `+=`: the table sends the other operators to addition |
| NestedAssignments.UnchangedExactly | compiler/frontend/src/Lowering.cpp:544-571 | what a function is lowered as is the function itself exactly when no `-=`, `*=` or `/=` stands inside an expression |
| NestedAssignments.GraphMeansAsLowered | compiler/frontend/src/Lowering.cpp:544-571 | every other accepted function is lowered to a graph that returns what it would return with `+=` in those places, and nothing else |
| SourceToBytes.NestedDecrementReturnsSum | compiler/frontend/src/Lowering.cpp:544-571 | `var s = 10; return s -= 3;` is accepted, the interpreter returns 7, and its graph returns 13 and nothing else |
| LoweringMeaning.IfMeans | compiler/frontend/src/Lowering.cpp:254-323 | control takes the arm the condition decides and the merge phis give every name the value the interpreter has after the branch |
| LoweringMeaning.ForMeans | compiler/frontend/src/Lowering.cpp:333-438 | the header phis carry the interpreter's environment from turn to turn, zero-trip loops included |
| LoweringMeaning.StmtMeans | compiler/frontend/src/Lowering.cpp:217-467 | every accepted statement: if the interpreter goes on, control reaches the new control node with related bindings; if it returns, the graph returns the same value |
| LoweredFunctions.FunctionMeans | compiler/frontend/src/Lowering.cpp:70-104 | lowering preserves meaning: whenever the interpreter gives a call of an accepted function a value, the lowered graph returns it, provided the accumulators of its loops cover what the bodies assign and no `-=`, `*=` or `/=` stands inside an expression |
| OneWalk.StmtDraws | compiler/frontend/src/Lowering.cpp:217-467 | the nodes of every lowered statement take control from each other, from nowhere twice, and lead it from the control node before to the one after, or nowhere when it returns |
| OneWalk.FunctionOneWay | compiler/frontend/src/Lowering.cpp:70-104 | so control leaves every node of a lowered function by one way only |
| OneWalk.ReturnsOne | compiler/frontend/src/Lowering.cpp:70-104 | and from one entry it returns at most one value |
| OneWalk.FunctionMeansExactly | compiler/frontend/src/Lowering.cpp:70-104 | where the interpreter gives a value, the lowered graph returns it and nothing else, under the same two conditions |
| LoweredFunctions.ParametersAreDeclared | compiler/frontend/src/Lowering.cpp:488-495 | the unknown-identifier fallback is unreachable: the parameters of the graph are the declared ones in order |
| LoweredFunctions.RangeAssignmentIsLost | compiler/frontend/src/Lowering.cpp:177-184 | an accepted loop whose inner range assigns an outer name loses the assignment, because the walk skips ranges |
| LoweredFunctions.ReboundExactly | compiler/frontend/src/Lowering.cpp:333-438 | after any loop a name from outside it is bound to a new node exactly when the walk sees the body assign it |
| Interpreter.Scoped | tests/perf/bench_runtime.cpp:194-282 | what an inner scope binds does not outlive it, what it assigns does |
| ProbeSpec.MaskIsRemainder | compiler/support/include/aegis/support/SwissTable.hpp:85-91 | masking with capacity minus one is the remainder, for powers of two |
| ProbeSpec.LowBits | compiler/support/include/aegis/support/SwissTable.hpp:38-41 | a search starts at the low bits of the hash and its tag is the lowest seven, one in place of zero |
| ProbeSpec.GrownIsLeast | compiler/support/include/aegis/support/SwissTable.hpp:64-66 | a table grows to the least larger power of two, from sixteen on |
| SwissTable.Table.Find | compiler/support/include/aegis/support/SwissTable.hpp:81-94 | finds the slot of a key exactly when the table maps it |
| SwissTable.Table.Get | compiler/support/include/aegis/support/SwissTable.hpp:96-103 | the value the map has |
| SwissTable.Table.Erase | compiler/support/include/aegis/support/SwissTable.hpp:106-111 | removes the key from the map and leaves a tombstone, nothing else |
| SwissTable.Table.Clear | compiler/support/include/aegis/support/SwissTable.hpp:113-118 | the empty map |
| SwissTable.Table.Reserve | compiler/support/include/aegis/support/SwissTable.hpp:56-59 | the map is unchanged; the capacity is the least sufficient power of two or what it was |
| SwissTable.Table.Rehash | compiler/support/include/aegis/support/SwissTable.hpp:135-158 | every entry moves, none is lost or doubled, no tombstone remains; each reinsertion is of a new key |
| SwissTable.Table.FindOrInsert | compiler/support/include/aegis/support/SwissTable.hpp:163-188 | the key's place, or the first free place of its probe path with its control byte written; falls off the loop exactly when the key is absent and no `EMPTY` byte is left |
| SwissTable.Table.Emplace | compiler/support/include/aegis/support/SwissTable.hpp:62-76 | the map with the key set; the unreachable end is reached exactly when the load rule lets the table be, the key is new and no `EMPTY` byte is left, and never without erasures |
| SwissTable.ExhaustEmptyTable | compiler/support/include/aegis/support/SwissTable.hpp:62-76 | sixteen insertions each erased again, and the next insertion into the empty table reaches the unreachable end: the load rule ignores tombstones |
| ProbeSpec.StuckNeedsTombstones | compiler/support/include/aegis/support/SwissTable.hpp:64-66 | that takes more than one tombstone in eight bytes |
| ProbeSpec.NotFullHasEmpty | compiler/support/include/aegis/support/SwissTable.hpp:64-66 | without tombstones a table that is not full has an `EMPTY` byte, so probing ends |
| ProbeSpec.PlaceKeeps | compiler/support/include/aegis/support/SwissTable.hpp:169-186 | filling the first free place keeps every other key reachable from its home without crossing `EMPTY` |
| ProbeSpec.EraseKeeps | compiler/support/include/aegis/support/SwissTable.hpp:106-111 | a tombstone keeps every other key reachable |
| ProbeSpec.ReserveIsLeast | compiler/support/include/aegis/support/SwissTable.hpp:56-59 | what is reserved for `n` keys is the least power of two from sixteen on of which they fill at most seven eighths |
| ProbeSpec.ReservedRoom | compiler/support/include/aegis/support/SwissTable.hpp:56-66 | room reserved for `n` keys takes `n` without growing exactly when `n` is not seven eighths of it |
| UseDef.RemoveFirst | compiler/support/include/aegis/support/SmallVector.hpp:185-202 | removing by moving the last element into place takes exactly one occurrence away |
| Graph.SeaGraph.MakeNode | compiler/ir/src/Graph.cpp:9-26 | appends the node and one output entry for each of its edges; conservation holds |
| Graph.SeaGraph.SwapInput | compiler/ir/src/Graph.cpp:163-182 | turns every edge of the node, relinking once for each; conservation holds |
| Graph.SeaGraph.SetInput | compiler/ir/src/Graph.cpp:183-192 | replaces one input; conservation holds |
| Graph.SeaGraph.AppendInput | compiler/ir/src/Graph.cpp:193-203 | appends an input unless its target is missing; conservation holds |
| Graph.SeaGraph.ReplaceUses | compiler/ir/include/aegis/ir/Graph.hpp:66-79 | going through a snapshot of the users turns every edge in the graph and leaves none |
| Graph.SeaGraph.Verify | compiler/ir/src/Graph.cpp:210-285 | the edge checks decide: no live node uses a dead or missing one, effects are chained, listed users exist and have the edge; on a conserved graph the last always holds |
| Graph.ConservedIsListed | compiler/ir/src/Graph.cpp:261-282 | conservation implies the verifier's use-def check |
| UseDef.OutputsAreUsers | compiler/ir/include/aegis/ir/Graph.hpp:66-79 | the output list of a node holds exactly its users |
| Rewriting.KillEquivalent | compiler/passes/src/mid/StrengthReduction.cpp:124-133 | a node whose own equation forces the value of another may give way to it: the valuations of the two graphs are the same on the nodes that remain |
| Rewriting.KilledAlive | compiler/ir/src/Graph.cpp:211-228 | and no live node is left with an edge to it |
| WordLaws.SignedIs | compiler/passes/src/mid/SCCP.cpp:46-78 | the signed reading of a word is the one number in the two's complement range that wraps to it |
| WordLaws.Comparisons | compiler/passes/src/mid/SCCP.cpp:66-75 | every unsigned comparison by the strict one |
| WordLaws.SignedComparisons | compiler/passes/src/mid/SCCP.cpp:66-71 | signed ones compare words of one sign as unsigned, and otherwise say which is negative |
| WordLaws.Shifts | compiler/passes/src/mid/SCCP.cpp:62-65 | logical shifts multiply and divide by powers of two modulo 2^64; counts of 64 and more have no value |
| WordLaws.TruncatedDivision | compiler/passes/src/mid/SCCP.cpp:51-52 | quotient and remainder of signed division: dividend is divisor times quotient plus remainder, the remainder smaller than the divisor and of the dividend's sign |
| WordLaws.ArithShiftDivides | compiler/passes/src/mid/SCCP.cpp:63-63 | an arithmetic right shift divides the signed reading, rounding down |
| WordLaws.BitOfBits | compiler/passes/src/mid/SCCP.cpp:59-61 | each bit of a bitwise operation is the operation on the bits |
| WordLaws.OneBitTable | compiler/passes/src/mid/SCCP.cpp:59-61 | one bit of conjunction, disjunction and exclusive disjunction |
| WordLaws.Complements | compiler/passes/src/mid/SCCP.cpp:82-87 | negation and complement add up to zero and to all ones |
| ConstantPropagation.Fixpoint | compiler/passes/src/mid/SCCP.cpp:92-207 | on every graph the sweep terminates, by lattice height, in a fixpoint; with the operands in place all its constants are justified by earlier ones |
| Lattice.ConstStays | compiler/passes/src/mid/SCCP.cpp:24-40 | no cell moves from constant to bottom |
| Lattice.MergeFalls | compiler/passes/src/mid/SCCP.cpp:24-40 | a merge keeps a cell or lowers it |
| Lattice.NewConstJustified | compiler/passes/src/mid/SCCP.cpp:111-205 | a cell that becomes constant follows from cells that already were |
| ConstantPropagation.ConstantsAreConstant | compiler/passes/src/mid/SCCP.cpp:92-207 | then, on any cyclic graph, a node marked constant only ever takes that value, in any run, at any time |
| ConstantPropagation.ConstantsRightExactly | compiler/passes/src/mid/SCCP.cpp:175-205 | on graphs whose cycles go through back edges, calls or control: every constant holds in every run exactly when no live call, cast or projection has a constant as its single data input |
| ConstantPropagation.HarmlessExactly | compiler/passes/src/mid/SCCP.cpp:175-205 | no such node has a constant cell exactly when none has such an input |
| ConstantPropagation.FoldAllEquivalent | compiler/passes/src/mid/SCCP.cpp:209-238 | when none has, the rewrite changes the value of no remaining node, returned values included |
| ConstantPropagation.Run | compiler/passes/src/mid/SCCP.cpp:92-238 | the pass on the graph object: fixpoint, rewrite, conservation and live inputs |
| Lattice.SingleInputFolds | compiler/passes/src/mid/SCCP.cpp:175-205 | at the fixpoint a node of another kind is constant exactly when it has one data input in the graph and that is constant, and then with its value |
| Lattice.ArithmeticFolds | compiler/passes/src/mid/SCCP.cpp:111-205 | at the fixpoint arithmetic is constant exactly when its operands are and the operation has a value, and with that value; a phi of one constant is that constant |
| ConstantPropagation.FoldAllExactly | compiler/passes/src/mid/SCCP.cpp:209-238 | the rewrite removes exactly the live nodes without effects whose cell is constant and that are not constants already |
| ConstantPropagation.CallIsLost | compiler/passes/src/mid/SCCP.cpp:175-238 | so `return f(c)` is rewritten to return `c` |
| StrengthReduction.Pow2Words | compiler/passes/src/mid/StrengthReduction.cpp:31-36 | the bit test accepts exactly the powers of two and the loop returns their exponents |
| StrengthReduction.ShiftsRight | compiler/passes/src/mid/StrengthReduction.cpp:77-91 | multiplication and unsigned division by a power of two are shifts, for every operand and the factor 2^63 |
| StrengthReduction.ChooseBinRight | compiler/passes/src/mid/StrengthReduction.cpp:69-121 | every replacement the table picks has the value of the operation it replaces |
| StrengthReduction.ReduceEquivalent | compiler/passes/src/mid/StrengthReduction.cpp:39-134 | the whole pass, new nodes included, changes the value of no remaining node |
| StrengthReduction.ReduceSimplifies | compiler/passes/src/mid/StrengthReduction.cpp:69-134 | of the nodes before the pass, none is left alive that is a product with zero or a power of two on its right, an unsigned quotient by a power of two below 2^63, a sum, conjunction, disjunction or exclusive one with zero, a conjunction or disjunction with all ones, or a difference or exclusive disjunction of equal operands |
| StrengthReduction.Run | compiler/passes/src/mid/StrengthReduction.cpp:39-137 | the pass on the graph object, over a node list that grows while it runs, ends and does what the specification says; live inputs are kept |
| CopyPropagation.Run | compiler/passes/src/mid/CopyPropagation.cpp:28-102 | the pass on the graph object; conservation and live inputs are kept |
| CopyPropagation.CopyIsLower | compiler/passes/src/mid/CopyPropagation.cpp:33-89 | what replaces a copy came to be before it, so no node is a copy of itself |
| CopyPropagation.CopiesGo | compiler/passes/src/mid/CopyPropagation.cpp:33-89 | every identity cast, select between equal values and phi of one value is gone after the pass |
| CopyPropagation.PropagateKeeps | compiler/passes/src/mid/CopyPropagation.cpp:28-102 | the pass keeps every valuation as it is |
| CopyPropagation.PropagateReflects | compiler/passes/src/mid/CopyPropagation.cpp:28-102 | and adds none: whatever the remaining nodes do afterwards they could do before |
| ValueNumbering.Number | compiler/passes/src/mid/GVN.cpp:42-79 | with the hash table itself: a candidate maps to an earlier one of its key that maps nowhere, and to none only when there is none |
| ValueNumbering.Run | compiler/passes/src/mid/GVN.cpp:42-106 | every edge of the graph follows the map, exactly the mapped nodes die |
| ValueNumbering.KilledExactly | compiler/passes/src/mid/GVN.cpp:42-106 | a live node goes exactly when an earlier live pure node has its kind, type, payload and inputs, provided different input lists have different digests |
| ValueNumbering.NumberingEquivalent | compiler/passes/src/mid/GVN.cpp:42-106 | no remaining node changes its value, provided different input lists have different digests |
| ValueNumbering.NumberingAlive | compiler/passes/src/mid/GVN.cpp:83-102 | the rewrite map never points at a node the pass kills |
| DeadCode.Mark | compiler/passes/src/mid/EDCE.cpp:24-47 | the worklist marks exactly the nodes a walk from a root along inputs reaches |
| DeadCode.Run | compiler/passes/src/mid/EDCE.cpp:11-65 | exactly the unmarked nodes other than Start die |
| DeadCode.SurvivorsAreWanted | compiler/passes/src/mid/EDCE.cpp:49-61 | what survives is Start and the backward closure of the roots, and the sweep does not change what is wanted |
| DeadCode.ObservableStays | compiler/passes/src/mid/EDCE.cpp:24-32 | calls with effects, atomics, fences, guards, deoptimisations, returns and stops stay as they are |
| DeadCode.SurvivorsAreNeeded | compiler/passes/src/mid/EDCE.cpp:24-61 | a node survives exactly when it is Start or reached backwards along inputs from one of those |
| DeadCode.SweptTwice | compiler/passes/src/mid/EDCE.cpp:11-65 | a second run removes nothing |
| DeadCode.SweptAlive | compiler/passes/src/mid/EDCE.cpp:49-61 | no surviving node loses an input |
| DeadCode.SweptKeeps | compiler/passes/src/mid/EDCE.cpp:49-61 | returns stay with their inputs and every surviving equation still holds |
| DeadCode.SweptEquivalent | compiler/passes/src/mid/EDCE.cpp:11-65 | and no run is new: where the removed nodes are computable in order, phis from earlier moments, the graphs before and after have the same valuations on what remains |
| InductionVariables.Derive | compiler/passes/src/mid/InductionVarSimplification.cpp:114-139 | the nodes the rewrite builds, the back edge tied late, the product replaced |
| InductionVariables.CountingLoopApplies | compiler/passes/src/mid/SCEV.cpp:34-67 | the analysis accepts the loops it is meant for: a phi that starts at a constant and adds a constant to itself, in either order, multiplied by a constant |
| InductionVariables.TracksExactly | compiler/passes/src/mid/InductionVarSimplification.cpp:15-28 | the derived phi is `i * K` modulo 2^64 at every moment of every run exactly when the back value steps from the phi itself |
| InductionVariables.DerivedKeeps | compiler/passes/src/mid/InductionVarSimplification.cpp:61-149 | every run of the old graph that does is a run of the new one |
| InductionVariables.DerivedReflects | compiler/passes/src/mid/InductionVarSimplification.cpp:61-149 | a run of the new graph is one of the old, product included, exactly when it does |
| InductionVariables.DerivedRight | compiler/passes/src/mid/InductionVarSimplification.cpp:61-149 | so the rewrite is right when the phi is an operand of the back value, or the factor is zero |
| InductionVariables.AssigningLoopApplies | compiler/passes/src/mid/SCEV.cpp:52-67 | the analysis accepts a back value that adds its constant to something else |
| InductionVariables.AssignmentIsLost | compiler/passes/src/mid/SCEV.cpp:52-67 | on such a loop the rewritten graph returns 10 where the original returns 12 |

## Left out

- Select ownership and the sharing of values between branch regions (`compiler/backend/src/x86/InstrSel_x86.cpp:373-466`): a region's straight-line parts are given as blocks, so which pure nodes `emit_value_closure` puts where is not modelled.
- Structured emission from a lowered graph: `StructuredCode` starts from nested regions, not from the graph, so source to bytes is closed only for functions without branches.
- StructuredCode.RegionEmitter.EmitSelectRegion: which nodes the value closure puts into which arm is given with the region; the contract is about the text around them and its labels.
- StructuredCode.RegionEmitter.EmitLoopRegion: the same for the nodes of the loop body.
- SourceToBytes.CompileFunction: says nothing of what the bytes return where a wanted parameter is overwritten; the code is wrong there (`LostParameter.CompileUnread`).
- LoweredFunctions.FunctionMeans: says nothing about calls, floats and strings.
- StructuredCode.TextUnique: asks that fewer than a million loop labels are taken, where the label spaces of loops and branches meet.
- ConstantPropagation.ConstantsRightExactly: asks that arithmetic, returns and phi entries lead to nodes of lower rank, because a cycle of arithmetic alone may have no run at all.
- DeadCode.SweptEquivalent: asks that the removed nodes are computable in order, because a removed cycle of equations may have no solution.
- CopyPropagation.PropagateKeeps: asks that arriving at a region changes nothing that came to be before it (the dominance property of SSA form), and that casts to a value's own type give the value back.
- InductionVariables.Derive: one rewrite; the scan that picks loops, phis and users, and its budget, are not modelled. Every rewrite is covered by the same theorem.
- ValueNumbering.NumberingEquivalent: asks that different input lists have different digests; the table compares digests, not inputs.
- Interning in the lowerer compares input lists where the code compares their digests.
- Merge phis are made in the order of the binding list; the code follows the order of its hash table.
- Parser: statements, patterns, declarations, floating-point literals and blocks in expression position; the text of a punctuation token reported in place of a name is not represented.
- Graph.SeaGraph.Verify: the frame-state check of speculated guards, whose flags the model does not have.
- Memory operations, atomics, guards, frame states and casts have no meaning of their own; in valuations they are arbitrary functions of their inputs.
- Spill code, structs, enums, match, effects of calls (beyond the call-spanning rule and call linking), the other middle-end and research passes, ELF output, the JIT, telemetry and the drivers.
- Sizes are unbounded where the code has 32-bit node ids and 64-bit table sizes; graphs are required to stay below the id that marks an absent edge.
