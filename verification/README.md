# Separation analysis engine — a Dafny model

This project models the core of an LLVM-based difference ("separation") analysis.
The analysis walks the control-flow graph of every function named `main*` depth first.
It interprets each instruction against a store of tracked values, where NaN means "unknown".
It bounds loop exploration with a loop stack and an ON/OFF backedge switch.
It also holds a separation tracker for two named variables.

The model replaces the LLVM types with plain datatypes:

- **Value store** (`value_store.dfy`, module `ValueStore`): `Val = Unknown | Known(int)` and `Vars = map<string, Val>`.
  The four map access paths the source uses are modelled separately, because they behave differently:
  - `find`-then-read (`SelectVariable`)
  - `operator[]` assignment (`EditVariable`)
  - `operator[]` read, which inserts 0 for an absent key (`Subscript`)
  - `insert`, which never overwrites (`Insert`)
- **Integer literals** (`literals.dfy`, module `Literals`): a width and a bit pattern, read sign-extended (`SExt`) by the store handler and zero-extended (`ZExt`) by the arithmetic fold.
- **Instruction interpreter** (`interpreter.dfy`, module `Interpreter`): `Instr = Alloca | Store | Load | BinaryOp | Other`, each handled by a pure function of the store.
  - `ProcessNewEntry` dispatches on the instruction kind.
  - `AnalyzeBlock` runs a block's instructions in order and yields `None` if one of them would be undefined behaviour in the source.
  - Operands are `Named`, `Constant` or `Register`. A `Register` is an unnamed value, keyed by the text of its address.
  - A load keeps its value under the text of its own address. An operand that is that load's result therefore reads the load's key. Addresses are opaque strings.
- **Separation tracker** (`separation.dfy`, module `Separation`): the constructor's initial state and the unknown-propagation check of `calculateSeparation`.
- **Name predicates** (`block_names.dfy`, module `BlockNames`): `strncmp` is modelled as written. `IsMainFunction`, `IsBeginLoop` and `IsEndLoop` are prefix tests, proved equal to the `strncmp` calls of the source; `IsSameBlock` compares block names.
- **Traversal controller** (`difference_pass.dfy`, module `DifferencePass`): `Walk`/`WalkSuccessors` model `generateCFG` as a fuel-bounded mutual recursion.
  - The walk threads the store and carries a by-value `Context(stack, switch)`.
  - It returns a `Run(vars, trace, halt)`.
  - A `Visit(block, vars)` event is emitted when a label is printed; a `Close(block, vars)` event when a block's closing separation report is printed.
  - `halt` is `Finished`, `Undefined` (undefined behaviour, or the uncaught exception of an unsupported opcode, in the source) or `OutOfFuel`.
  - `AnalyzeModule` models the driver loop of `main`.
- **Scenarios** (`scenarios.dfy`, module `Scenarios`): lemmas that pin down the walk's exact result on the CFG of a single while loop (for any labels the name predicates classify as the compiler's), and one block-level example of a load feeding an add.

Behaviours of the source that the model keeps as written:

- `srem` returns the current operand and ignores the accumulator.
- `insert` keeps an existing key, so a load or binary operator never replaces a value that is already stored.
- `operator[]` reads insert 0 for an absent key.
- The store handler sign-extends a literal, while the arithmetic fold zero-extends it. A negative literal such as `-1` in an `add` therefore contributes `2^width - 1` (`NegativeLiteralStoredSignedAddedUnsigned`).
- A load keeps its value under the text of its own address, and arithmetic reads an unnamed register operand under the text of the operand's address. When the operand is the load's result, the two keys are the same and the loaded value reaches the arithmetic; a register operand at any other address that is absent reads 0 (`Scenarios.LoadThenAdd`).
- On a loop exit reached with the switch ON inside a loop, the exit is walked twice. The first walk is the replay; the second comes from the general rule (`ExitReplayedTwice`, `Scenarios.WhileLoopTrace`).
- On the single-loop CFG, the loop body is walked once and stops at the back edge.

Further behaviours kept as written, where the evident intent and the code may differ:

- Loops are recognised by the label prefixes `while.cond` and `while.end`, not by structural analysis.
- The entry context is an empty stack with the switch ON.
- An unsupported opcode with two or more operands calls an empty `std::function`, which throws and ends the program. The model states this as a precondition (`ArithmeticDefined`); it is not a no-op.
- `calculateSeparation` has no branch for the case where every entry is known, so no `|a - b|` is computed. That case returns `None`.

## Model

| member | source | states |
|---|---|---|
| ValueStore.SelectVariable | src/ValueTracker.cpp:21-23 | a present key reads as its stored value, an absent key reads as unknown |
| ValueStore.EditVariable | src/ValueTracker.cpp:25-27 | the key holds the written value afterwards; the key set grows by that key only; every other key keeps its value |
| ValueStore.Subscript | src/ValueTracker.cpp:68-70 | an `operator[]` read yields the stored value of a present key, or 0 for an absent key; the key is then present with the value read; existing keys are unchanged |
| ValueStore.Insert | src/ValueTracker.cpp:74-75 | `insert` never changes an existing key; it adds the key with the given value only when the key is absent |
| ValueStore.SelectAfterEdit | src/ValueTracker.cpp:21-27 | reading a key after `editVariable` yields the written value; other keys read as before |
| ValueStore.InsertKeepsEditReplaces | src/ValueTracker.cpp:25-27 | on a present key, `insert` leaves the map unchanged while `editVariable` replaces the value, so the two differ whenever the values differ |
| ValueStore.SubscriptOfPresentIsSelect | src/ValueTracker.cpp:21-22 | on a present key, an `operator[]` read agrees with `selectVariable` and leaves the map unchanged |
| Literals.ZExt | src/ValueTracker.cpp:108-109 | a zero-extended literal is a natural number below 2^width |
| Literals.SExt | src/ValueTracker.cpp:61-62 | a sign-extended literal lies in the two's-complement range, and is either the bit pattern or the bit pattern minus 2^width |
| Literals.SExtEncode | src/ValueTracker.cpp:61-62 | sign extension recovers every in-range value from its two's-complement encoding |
| Literals.ZExtEncode | src/ValueTracker.cpp:108-109 | zero extension recovers non-negative values; a negative value reads as value + 2^width |
| Literals.SExtIsZExtIffSignClear | src/ValueTracker.cpp:61-109 | the two readings of a literal agree exactly when its sign bit is clear |
| Interpreter.AddCallback | src/ValueTracker.cpp:124-132 | the result is known exactly when both sides are known, and is then their sum |
| Interpreter.SubCallback | src/ValueTracker.cpp:134-142 | the result is known exactly when both sides are known, and is then accumulator minus current |
| Interpreter.MulCallback | src/ValueTracker.cpp:144-152 | the result is known exactly when both sides are known, and is then their product |
| Interpreter.SRemCallback | src/ValueTracker.cpp:154-161 | the srem combinator's result is the current operand, unknown or known alike, whatever the accumulator |
| Interpreter.SRemIgnoresAccumulator | src/ValueTracker.cpp:154-161 | the srem combinator returns the current operand (unknown stays unknown), and its result is the same for every accumulator |
| Interpreter.Combine | src/ValueTracker.cpp:78-97 | the opcode selects its arithmetic: add gives the sum, sub the accumulator minus the current operand, mul the product, each unknown exactly when either side is unknown; srem gives the current operand |
| Interpreter.ReadOperand | src/ValueTracker.cpp:104-116 | reading one operand yields the reference value: 0 for an absent key, the zero-extended literal for a constant; the read only adds the operand's own key, holding 0 |
| Interpreter.OperandValueStable | src/ValueTracker.cpp:101-116 | the zero entries added by earlier operand reads do not change what a later operand reads |
| Interpreter.FoldOperands | src/ValueTracker.cpp:101-118 | the threaded read-and-combine loop equals the reference left fold over the operand values in the starting map; the map only gains the operands' keys, each holding 0 |
| Interpreter.CalculateArithmetic | src/ValueTracker.cpp:99-122 | existing keys keep their values; the new keys are the operand keys and the destination; operand keys that were absent hold 0, including a destination that is also an operand; a destination absent from the map and from the operands holds the left fold of the operand values |
| Interpreter.AllocateNewVariable | src/ValueTracker.cpp:44-52 | an unnamed alloca changes nothing; a named one adds the name as unknown only if the name is absent, and never changes an existing value |
| Interpreter.StoreValueIntoVariable | src/ValueTracker.cpp:54-66 | the destination takes the named source's current value or the sign-extended literal; no other key changes |
| Interpreter.LoadVariableIntoRegister | src/ValueTracker.cpp:68-76 | existing keys keep their values; an absent source is inserted as 0; a fresh register key receives the source's `operator[]` value |
| Interpreter.ProcessNewEntry | src/ValueTracker.cpp:29-42 | what each kind does: a named alloca leaves a fresh name unknown and an unnamed one changes nothing; a store writes the named source's value or the sign-extended literal at its destination; a load leaves a fresh key holding the `operator[]` read of its source; a binary operator leaves a fresh destination holding the fold of its operands; any other kind changes nothing. Keys are only added, only keys the instruction names, and only a store replaces an existing value |
| Interpreter.AnalyzeBlock | src/DifferencePass.cpp:135-143 | running a block's instructions never removes a key (that each instruction is interpreted, in order, is `AnalyzeBlockSnoc`) |
| Interpreter.AnalyzeBlockSnoc | src/DifferencePass.cpp:135-143 | a block with one more instruction is the block so far followed by that instruction's `ProcessNewEntry` on the resulting store, or `None` when it is undefined there: every instruction is interpreted, in order |
| Interpreter.AnalyzeBlockAppend | src/DifferencePass.cpp:138-141 | interpreting instructions in sequence composes: running a + b is running a and then b from the resulting store |
| Interpreter.AllocateIdempotent | src/ValueTracker.cpp:44-52 | allocating the same name twice has the same effect as allocating it once |
| Interpreter.ReallocationKeepsKnownValue | src/ValueTracker.cpp:50-51 | a second alloca of a variable that holds a known value leaves the value in place |
| Interpreter.LoadIsSnapshot | src/ValueTracker.cpp:68-76 | after a load into a fresh key, overwriting the source does not change the loaded copy |
| Interpreter.LoadKeepsExistingRegister | src/ValueTracker.cpp:74-75 | a load into an existing register key keeps that key's old value |
| Interpreter.LoadOfAbsentSourceInsertsZero | src/ValueTracker.cpp:70 | a load of an absent source reads 0, and leaves both the source and the register holding 0 |
| Interpreter.FoldUnknownIff | src/ValueTracker.cpp:117-152 | folding with add, sub or mul gives unknown exactly when the seed or some folded value is unknown |
| Interpreter.FoldSRemIsLast | src/ValueTracker.cpp:117 | the srem fold yields the last folded value, or the seed when there is none |
| Interpreter.FoldAddKnown | src/ValueTracker.cpp:117-131 | an add fold over known values is the seed plus the sum of the values |
| Interpreter.BinaryOpUnknownIff | src/ValueTracker.cpp:99-152 | for add, sub and mul, a fresh destination becomes unknown exactly when some operand value is unknown |
| Interpreter.BinaryOpValue | src/ValueTracker.cpp:99-122 | a fresh destination of a binary operator holds the reference left fold of its operand values in the starting map |
| Interpreter.ArithmeticUnknownIff | src/ValueTracker.cpp:117-152 | for add, sub and mul, the folded value is unknown exactly when some operand value is unknown |
| Interpreter.ArithmeticSRemIsLast | src/ValueTracker.cpp:117-161 | the srem fold over the operands is the last operand's value |
| Interpreter.SRemTakesLastOperand | src/ValueTracker.cpp:90-122 | an srem instruction stores the value of its last operand, whatever the earlier operands read |
| Interpreter.NegativeLiteralStoredSignedAddedUnsigned | src/ValueTracker.cpp:54-122 | a negative literal is stored as its value, but as an add operand it contributes value + 2^width |
| Separation.NewSeparationTracker | src/SeparationTracker.cpp:4-12 | the tracked entries are exactly the two names, all unknown; separation, min and max start unknown |
| Separation.CalculateSeparation | src/SeparationTracker.cpp:14-26 | in any iteration order: if some tracked entry is unknown, the separation is set to unknown and unknown is returned; otherwise no value is defined and nothing changes; the entries are never modified |
| Separation.FreshTrackerIsUnknown | src/SeparationTracker.cpp:4-22 | a freshly constructed tracker has an unknown entry, and its entries do not depend on the order of the two names |
| BlockNames.StrNCmpIsPrefixTest | src/DifferencePass.cpp:153-163 | `strncmp` over a terminator-free pattern's length returns 0 exactly when the pattern is a prefix of the name |
| BlockNames.StrNCmp | src/DifferencePass.cpp:153-163 | `strncmp` as the name predicates call it: equal strings compare 0, and a nonzero result means some position among the first n characters differs (past the end a string reads as the terminator) |
| BlockNames.NamePredicatesAreStrNCmp | src/DifferencePass.cpp:153-163 | `IsMainFunction`, `IsBeginLoop` and `IsEndLoop` (prefix tests against "main", "while.cond" and "while.end") hold exactly when the corresponding `strncmp` call returns 0 |
| BlockNames.IsSameBlock | src/DifferencePass.cpp:145-151 | false when either block is missing, otherwise whether the names are equal |
| BlockNames.HeaderIsNotExit | src/DifferencePass.cpp:34-36 | no name is both a loop header and a loop exit |
| BlockNames.NumberedLoopBlocks | src/DifferencePass.cpp:157-163 | numbered blocks such as "while.cond5" and "while.end12" are recognised; "while.body" is neither a header nor an exit |
| DifferencePass.EnterBlock | src/DifferencePass.cpp:83-96 | a header is pushed; an exit pops the top and turns the switch ON; any other block leaves the context as is; popping an empty stack is undefined |
| DifferencePass.EnterKeepsHeaderStack | src/DifferencePass.cpp:88-96 | only loop headers are ever pushed, so entering any block keeps a stack of headers a stack of headers |
| DifferencePass.Walk | src/DifferencePass.cpp:79-133 | with fuel, the walk first emits the block's visit with the incoming store; every block it visits belongs to the CFG |
| DifferencePass.WalkSuccessors | src/DifferencePass.cpp:101-130 | every block the successor loop visits or closes belongs to the CFG |
| DifferencePass.AnalyzeFunctions | src/DifferencePass.cpp:67-73 | only blocks of functions named "main*" are visited; with no such function nothing is walked and the store is unchanged; a leading main function is entered first, at its first block |
| DifferencePass.AnalyzeModule | src/DifferencePass.cpp:65-73 | from an empty store: with no main function nothing is walked; otherwise the first visit is the first block of the first main function |
| DifferencePass.SkipNonMain | src/DifferencePass.cpp:67-68 | a function whose name does not start with "main" leaves the store and the trace as they are |
| DifferencePass.MainWalkedThenRest | src/DifferencePass.cpp:67-72 | a main function is walked from its first block with an empty loop stack and the switch ON, from the current store; the remaining functions then continue from the store that walk left, and the traces concatenate |
| DifferencePass.SkipLeadingNonMain | src/DifferencePass.cpp:67-68 | the functions before the first main function are skipped: the analysis equals the analysis of the module from that function on |
| DifferencePass.FirstMainEnteredFirst | src/DifferencePass.cpp:67-72 | whatever non-main functions precede it, the first main function's first block is the first block visited, with the incoming store |
| DifferencePass.WalkFuelMonotone | src/DifferencePass.cpp:79-133 | a walk that did not run out of fuel gives the same result with any larger fuel |
| DifferencePass.WalkSuccessorsFuelMonotone | src/DifferencePass.cpp:104-128 | the same fuel independence for the successor loop |
| DifferencePass.ExitWhileOffReturns | src/DifferencePass.cpp:109-112 | a loop-exit successor met with the switch OFF ends the block at once: nothing more is visited and no closing report is emitted |
| DifferencePass.ReentryReturns | src/DifferencePass.cpp:106-125 | a successor equal to the innermost active header ends the block at once, without visiting it |
| DifferencePass.ExitReplayedTwice | src/DifferencePass.cpp:115-127 | a loop exit met with the switch ON inside a loop is visited first, and visited again later in the same successor step; the block's remaining successors then run with the switch OFF |
| DifferencePass.InstructionsBeforeSuccessors | src/DifferencePass.cpp:83-127 | for any block (loop headers and exits included) whose entry is defined, the first successor is entered with the store left by all of the block's instructions, unless it is a loop exit met with the switch OFF or the active header |
| DifferencePass.FirstSuccessorVisited | src/DifferencePass.cpp:104-127 | a first successor that is not the active header, and not a loop exit met with the switch OFF, is the first block the successor loop visits (walked, or replayed when it is an exit), with the block's resulting store |
| DifferencePass.OrdinarySuccessorThreadsStore | src/DifferencePass.cpp:104-127 | an ordinary successor (not an exit, not the active header) is walked from the current store; if that walk does not finish the loop ends with it, otherwise the next successor starts from the store it left and the traces concatenate |
| DifferencePass.LeafBlock | src/DifferencePass.cpp:79-133 | a block without successors is visited, interpreted and closed with the resulting store |
| DifferencePass.ExitWithEmptyStackIsUndefined | src/DifferencePass.cpp:92-93 | entering a loop exit with an empty loop stack is undefined (pop of an empty stack) |
| DifferencePass.SingleMainFunction | src/DifferencePass.cpp:67-71 | a module with one main function is one walk from its first block, with an empty store, an empty stack and the switch ON |
| Scenarios.SingleLoopTrace | src/DifferencePass.cpp:79-133 | on entry → header → {body → header, exit}, for any labels classified as a while loop's, the trace is: entry, header, body (not closed), exit twice, then the header and entry closes |
| Scenarios.WhileLoopTrace | src/DifferencePass.cpp:79-133 | the same trace for the labels entry, while.cond, while.body and while.end |
| Scenarios.EntrySuccessors | src/DifferencePass.cpp:104-130 | the entry's only successor, the header, is walked in full, then the entry is closed |
| Scenarios.HeaderWalk | src/DifferencePass.cpp:88-127 | the header is pushed, then the body and the exit (twice) are walked, and the header is closed |
| Scenarios.HeaderSuccessors | src/DifferencePass.cpp:104-130 | from the header, the body stops at the back edge, and the exit is replayed and then walked again |
| Scenarios.BodyWalk | src/DifferencePass.cpp:79-125 | the body is visited and stops at its back edge to the active header, without a closing report |
| Scenarios.ExitSuccessors | src/DifferencePass.cpp:113-130 | the exit met with the switch ON is walked twice, then the header is closed |
| Scenarios.NamesOfLoopBlocks | src/DifferencePass.cpp:157-163 | the labels entry, while.cond, while.body and while.end are classified as a single loop's |
| Scenarios.StartingAtExitIsUndefined | src/DifferencePass.cpp:92-93 | a walk that starts at a loop exit is undefined |
| Interpreter.AnalyzeTwo | src/DifferencePass.cpp:135-143 | a two-instruction block runs the first instruction, then the second on the store it leaves |
| Interpreter.AddRegisterToLiteral | src/ValueTracker.cpp:101-122 | `add` of a register and a literal into a fresh destination stores the register's `operator[]` read plus the zero-extended literal |
| Scenarios.LoadThenAdd | src/ValueTracker.cpp:68-122 | an add whose register operand is the load's result (same address key) sees the loaded value plus the literal; a register operand at another, absent address reads 0 |

## Left out

- Printing is not modelled: `printf`, `printTracker`, `printVars`, `printInsts`, `printLLVMValue`, the colour macros and `printSeparationReport`. Its place in the walk is marked by the `Visit`/`Close` trace events. The per-instruction report inside `analyzeDifference` is not traced.
- IR file loading, `argv` handling and the exit code of `main` (src/DifferencePass.cpp:55-63) are not modelled: they are I/O.
- The LLVM class hierarchy (`isa`/`dyn_cast`, `Instruction`, `Value`, `BasicBlock`) is replaced by the `Instr`, `Operand`, `Block` and `Function` datatypes.
- Floating point is not modelled: a `double` value becomes `Known(int)` and NaN becomes `Unknown`. Rounding above 2^53, overflow and NaN payloads are not modelled.
- The register keys are opaque strings. The source writes the address of the load instruction, and of an unnamed register operand, as text; the model does not derive those texts, so which operand is which load is given by equal keys.
- Undefined behaviour in the source is stated as preconditions (`StoreDefined`, `ArithmeticDefined`) or as a `Undefined` halt of the walk, not modelled further. It covers:
  - dereferencing `find()` for an absent named store source
  - the null `ConstantInt` cast for an unnamed non-literal store source
  - `pop()` on an empty loop stack
  - the missing return value of `calculateSeparation` when every entry is known
  - `F.begin()` on a `main*` function without a body (src/DifferencePass.cpp:69), which `Analysable` rules out by requiring a first block
- An unsupported opcode with two or more operands calls an empty `std::function` (src/ValueTracker.cpp:93-96, 117). That throws `std::bad_function_call`, which nothing catches, so the program terminates. The model does not represent the termination: `ArithmeticDefined` is a precondition, and a block containing such an instruction makes `AnalyzeBlock` return `None`, which the walk reports as its `Undefined` halt.
- Separation.CalculateSeparation: does not compute `|a - b|` when every entry is known, because that branch of the source is empty.
- The loop header of `calculateSeparation` (src/SeparationTracker.cpp:17) has a comma where its second semicolon belongs, so it does not compile as written. The model reads it as the evident loop over all tracked entries.
- `SeparationTracker::processNewEntry` has no definition in the source. The walk delegates each instruction to the value tracker's `processNewEntry`, as the `valueTracker` member suggests. The tracker's own entries are never updated by the walk.
- The constructor's names `variableNameOne`/`variableNameTwo` and the members `variablesTracker`, `min` and `max` are undeclared in the source. The model reads them as the constructor's two parameters and the tracker's own fields.
- `generateCFG` stores `blockName` as a pointer into a temporary string (src/DifferencePass.cpp:80). The model uses the block's name instead.
- DifferencePass.Walk: the recursion is bounded by fuel, and running out is reported as `OutOfFuel`. Termination on arbitrary CFGs is not proved. `WalkFuelMonotone` shows that the bound does not change any result that finishes within it.
- Literals.ZExt: integer literals wider than 64 bits are excluded by the `ConstantInt` subset type. This is a deliberate simplification: `getZExtValue`/`getSExtValue` assert only when the value itself needs more than 64 bits, so a wide literal with a small value (such as `i128 5`) is read normally by the source but is not representable here.
