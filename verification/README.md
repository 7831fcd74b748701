# CinC, verified

CinC is a small C11 compiler: lexer, Pratt parser, semantic analysis, three-address code, x86-64 assembly.
This project models its passes in Dafny and proves what they promise, from the characters of the program
text to the instructions of the machine. The main theorems: a call of a source function that returns also
returns in the compiled program, with the same result, the same static objects and the same calls of outside
functions, however deep the program's functions call each other; a call that goes on for ever, in a loop or by
recursion without end, is compiled to one that goes on for ever; and every outside call is made that the source
makes, whether the run returns or not. The front end is exact too: a text is accepted if and only if its tokens are a
translation unit of the grammar for which the rules of scope, linkage, conversion and the constraints give an analysed
program, and it is that program which is compiled.

## How the modules fit together

The program text goes through these modules in turn.

- `Lexing`, `Lexer`, `Spelling` (src/lexer.c): what the token stream of a text is, the lexer as a class, and
  lexing as the inverse of spelling tokens out.
- `Pratt`, `Grammar`, `Parser` (src/parser.c): precedence climbing and the reading of statements and declarations as
  functions, and the parser as a class with one current token and a panic flag. `ExprGrammar` and `UnitGrammar` are C's
  grammar, category by category; `Derivation` and `UnitDerivation` show that the parser accepts exactly that grammar.
  `ParseTrees`, `UnitTrees`, `Printing` and `StmtPrinting` are about the trees: what analysis may assume of them, and
  printing with the fewest parentheses.
- `Syntax`, `Analysis`, `Conversions`, `Folding` (src/sema.c, src/type.c): types, implicit conversions and the
  constant folder, with C's own conversion rules and constraints as an independent reference.
- `Declarations`, `Naming`, `StmtAnalysis`, `Resolution`, `Units`, `Ownership` (src/sema.c): linkage, tentative
  definitions, statements, jumps, whole translation units, and which function an automatic object belongs to.
  `Elaboration` says what it is for an analysed program to be the parsed one, with names resolved by scope,
  conversions written as casts and all constraints met; `ElaborationProof` shows that analysis makes nothing else,
  and `Acceptance` that it accepts every unit for which there is one.
- `Ast`, `Semantics`, `Sequencing`: the analysed tree and its meaning. Expressions evaluate from left to right;
  statements run as a small-step machine over a continuation, so that `goto` and `case` may enter any statement.
- `Ir`, `IrGen`, `IrBuilder`, `ExprProof`, `StmtParts`, `StmtProof`, `StmtSim`, `Labels`, `Targets`, `Program`,
  `Typing`, `Mentions`, `Watching`, `WatchedRuns` (src/ir.c): three-address code and its machine, the
  translation as a function, the class whose methods append the instructions, and the simulation, of runs that
  return and of runs that do not.
- `Memory`, `X86`, `AsmArith`, `Lower`, `Frames`, `LowerProof`, `CallProof`, `Slots`, `Placement`, `Fixup`,
  `Encoding`, `Backend`, `Execution`, `Callee`, `SharedSlots`, `X86Builder` (src/x86.c): a machine with
  byte-addressed memory, 64-bit registers and flags, the three rewriting phases and the simulation through all
  of them, and why one table of stack slots can serve all functions.
- `Compiler`, `Reactive`: the theorems about the back half, for calls that return and for whatever calls do
  before. `Pipeline` puts all passes together: `FrontEnd` takes a text to an analysed program, `BackEnd` takes
  that to machine code, and `AcceptedCompiles` shows that whatever the first accepts meets the premises of the
  theorems about the second.
- `HashMap` (src/base/hashmap.c): open addressing refines a mathematical map.

The passes that change state are classes with the fields of the original; each method is proved against a
specification function or predicate, and the theorems are about those. `Arith` holds the 32- and 64-bit
arithmetic: `Wrap` is two's complement reduction, `TruncDiv` truncates toward zero.

## What the theorems assume

- A source run that divides by zero, computes the quotient MIN / -1 or shifts by a count outside the width has
  no value and nothing is claimed of it. Signed overflow wraps, as the generated code does.
- `emit_expr` returns an operand, and an operand that is a variable is read when it is consumed. `Semantics.Eval`
  has both readings: `early` is C's left-to-right value semantics, the other one follows the code. The theorems hold
  of the second without restriction. Under `NoConflict` (no operand is an object that a later operand of the same
  operation changes) the two agree, so under `Program.InOrder` the theorems hold of both; `Program.ConflictMatters` is
  a program without that condition, which C leaves undefined, whose code and left-to-right value differ.
- Analysis does not check that conditions and cast operands are arithmetic (src/sema.c:452, src/sema.c:516,
  src/sema.c:594, src/sema.c:605). `UsesOk` and `StmtUses` are exactly that condition: `Analysis.AnalyzeSound` and
  `Units.UnitOk` are equivalences, and `Analysis.VoidCondition` is a program analysis accepts without it.
- The folder gives MIN / -1 and MIN % -1 a value, where run time has none (`Folding.FoldsOverflow`); by
  `Folding.FoldExact` these are the only cases, and otherwise it agrees with run time.
- A constant shift count is not checked (src/x86.c:696). The emitted code can be assembled if and only if every such
  count fits 8 bits and the frame fits 32 (`Encoding.FunctionLegal`); `Encoding.DeadShift` is a program whose only
  offending shift never runs.
- Functions outside the program are a parameter. They keep the calling convention, may change static objects and
  appear in the trace of calls.
- Calls are followed to any depth `d`, in runs of any length. A call "shows" what it is watched for if its body
  or a call one level down does. When going on for ever counts (`endless`), calls nested deeper than `d` are
  taken to be still running, so a recursion without end is one that shows at every `d`
  (`Reactive.RecursesForEver`).
- The stack has room for the nesting depth in question and lies above the static objects.

## Model

| member | source | states |
|---|---|---|
| Pipeline.FrontEnd | src/main.c:97-108 | Takes a text to its analysed program, and accepts it exactly when every token can be read and they are a translation unit of the grammar that has an elaboration. What it accepts is a translation unit of the grammar, the program is that unit elaborated, and its assembly names are all different, those with linkage as in the text |
| Pipeline.AcceptedIff | src/main.c:97-108 | Parsing and analysis accept a token stream if and only if it is a translation unit of the grammar that has an elaboration |
| Pipeline.AcceptedOk | src/main.c:97-108 | Of an accepted program it remains to be asked, exactly, that conditions and operands of casts to arithmetic types are arithmetic |
| Pipeline.AcceptedCompiles | src/main.c:97-115 | Every accepted program of that kind has an image, for which the compiler is correct |
| Pipeline.BackEnd | src/x86.c:1045-1076 | Translation of all functions, then each phase over all of them with the arrays of sizes and offsets that they share, make the machine code of the image |
| Compiler.CompilerCorrect | src/x86.c:1045-1076 | A call of a source function that returns, whatever uninitialised objects hold, under late reads of operands, or under C's left-to-right value semantics if no operands conflict, returns in the compiled program with the same result, static objects and outside calls, with %rsp, %rbp and the caller's memory as they were; any nesting of calls, mutual recursion included |
| Reactive.BehaviourKept | src/x86.c:1045-1076 | Whatever a source call does before it returns, if it ever does, the compiled call does: it comes to every outside call the source comes to, and goes on for ever where the source does, by a loop or by recursion without end, neither returning nor faulting as long as the stack lasts |
| Reactive.OutsideCallsKept | src/x86.c:398-441 | Every outside call of the source, in a run that returns, goes on for ever or goes wrong later, is made by the compiled program with the same arguments in place, the same static objects and the same outside calls before it |
| Reactive.ShowsHold | src/x86.c:398-530 | At every depth, what three-address code shows the machine code shows |
| Reactive.MachineExclusive | src/x86.c:443-530 | No compiled call both returns and goes on for ever |
| Reactive.RecursesForEver | src/ir.c:413-430 | `int f(void) { return f(); }` goes on for ever, at every depth |
| Compiler.AbiHolds | src/x86.c:398-441 | Every function of the compiled program keeps the calling convention, however deep the calls nest, given that outside functions do |
| Compiler.TablesExist | src/ir.c:657-675 | Every program that analysis accepts has an image: a type for each temporary of each function's code |
| Compiler.CallHolds | src/x86.c:513-530 | One compiled call meets its source call, given that the calls it makes keep the convention |
| Program.FunctionCorrect | src/ir.c:465-655 | For any nesting of loops, switch, break, continue and goto, a body that returns is matched by a run of its code from its first instruction with the same value, variables, statics and outside calls; running off the end returns 0 |
| Program.FunctionDiverges | src/ir.c:635-655 | A body that neither returns nor goes wrong has code that is still running after any number of steps |
| WatchedRuns.FunctionShows | src/ir.c:465-655 | A body that reaches a call that it is watched for, or goes on for ever by itself, has code that reaches the same call with the same arguments, statics and outside calls before it, or goes on for ever |
| WatchedRuns.StateReaches | src/ir.c:465-622 | The same for every kind of statement, from any point of its run |
| Watching.ExprReaches | src/ir.c:259-441 | The same for every expression: the call is reached past exactly the operands, tests and arguments evaluated before it |
| WatchedRuns.MeetAlike | src/ir.c:336-341 | Without operand conflicts, late reads reach the same calls that value semantics reaches |
| WatchedRuns.SourceExclusive | src/ir.c:465-655 | No source call both returns and goes on for ever |
| Reactive.ProgramShows | src/ir.c:657-675 | What a source call shows, its three-address code shows, mutual recursion included |
| Program.SourceReturns | src/ir.c:465-622 | All runs of one body that return, return the same |
| Program.ProgramCorrect | src/ir.c:657-675 | A translated program, mutual recursion included, returns whatever the source program returns |
| Program.StepsModes | src/ir.c:465-622 | Without operand conflicts, statements run alike under C's value semantics and under the generated code's late reads |
| Program.MachineReturns | src/ir.c:624-633 | All runs of one function's code that return, return the same |
| ExprProof.ExprSim | src/ir.c:259-441 | After the code of any expression runs, its operand reads as the source value; objects change only as the source says, no older temporary changes, and short-circuit and conditional operators run only the operands they need |
| ExprProof.ArgsSim | src/ir.c:413-430 | Arguments are evaluated in order, and at the call every operand still reads as its argument, for any number of them |
| ExprProof.ConvertSim | src/ir.c:239-257 | Conversion code yields an operand of the target type with the converted value, folds constants and leaves equal types alone |
| Sequencing.LateIsEarly | src/ir.c:336-341 | Without conflicts between operands, reading operands late gives the value and the effects that left-to-right evaluation gives |
| Sequencing.LateDiffers | src/ir.c:336-341 | `x + (x = 1)`, which C leaves undefined, differs between the two readings: 6 against 2 for x = 5 |
| Program.ConflictMatters | src/ir.c:336-341 | `return x + (x = 1);` started with x = 5: left-to-right evaluation returns 6, the emitted code, run, returns 2 |
| Sequencing.Frame | src/ir.c:259-441 | Evaluation changes no object but those its assignments name, and calls change only static objects |
| StmtSim.StepSim | src/ir.c:465-622 | Each step of the source machine is matched by the code, and steps that need no code make a measure decrease |
| StmtSim.StepsSim | src/ir.c:465-622 | Runs of any length keep source and code matched: same objects, and the code positioned where the continuation says |
| StmtSim.Progress | src/ir.c:465-622 | While the source goes on, the code can be driven through any number of steps |
| StmtSim.CasesFind | src/sema.c:643-694 | The case list answers for every value what searching the switch body answers, cases inside nested statements included |
| StmtSim.TestsSim | src/ir.c:583-595 | The comparison chain of a switch jumps to the first case of the value or falls through |
| StmtProof.FindPlaced | src/ir.c:600-620 | A statement reached by case, default or goto, however deep inside others, stands in the code followed by the code of the continuation found |
| StmtProof.BreakPlaced | src/ir.c:608-613 | The break label of the innermost loop or switch stands right before the code of the continuation that leaves it |
| Labels.FunctionLabels | src/ir.c:635-655 | Every label of a function's code is defined at most once |
| Labels.StmtLabels | src/ir.c:465-622 | A statement defines each temporary label it draws exactly once and each other label exactly as often as its statements own it |
| Targets.JumpsClosed | src/ir.c:465-655 | Every jump of a function's code, in dead code too, names a label the code defines exactly once |
| Targets.StmtJumps | src/ir.c:465-622 | A statement jumps to its own temporary labels, to labels of its own statements, to the enclosing break and continue targets or to a named label of the body, and to nothing else |
| Targets.ExprJumps | src/ir.c:259-441 | An expression jumps only to labels it draws itself |
| Targets.FileLabels | src/x86.c:892-904 | No label is defined twice in the whole file, across all functions |
| Typing.GenTyped | src/ir.c:259-441 | The code of a typed expression is typed as lowering needs: equal operand types, constants in range, and no arithmetic whose destination is its right operand |
| Typing.StmtSound | src/ir.c:465-622 | The same for every statement, each temporary having one type |
| Typing.FunctionTyped | src/ir.c:624-655 | The same for a whole function, the return for running off the end included |
| IrBuilder.Builder.EmitExpr | src/ir.c:259-441 | Appends exactly the specified code of the expression, advances both counters by what it used, and returns its operand |
| IrBuilder.Builder.EmitConvert | src/ir.c:239-257 | Appends the conversion the specification asks for |
| IrBuilder.Builder.EmitLogical | src/ir.c:280-334 | Appends the specified code of logical and and or |
| IrBuilder.Builder.EmitConditional | src/ir.c:382-412 | Appends the specified code of `?:`, with a destination only if the result has a value |
| IrBuilder.Builder.EmitCompound | src/ir.c:343-364 | Appends the specified code of a compound assignment |
| IrBuilder.Builder.EmitCall | src/ir.c:413-430 | Appends the code of the arguments in order, then the call |
| IrBuilder.Builder.EmitDeclarationList | src/ir.c:443-463 | Appends code for the initialisers of automatic objects only |
| IrBuilder.Builder.EmitStmt | src/ir.c:465-622 | Appends exactly the specified code of the statement |
| IrBuilder.Builder.EmitFor | src/ir.c:516-541 | Appends the specified code of a for loop, each optional part present or not |
| IrBuilder.Builder.EmitSwitch | src/ir.c:577-598 | Appends the condition, the chain of tests over the case list, the jump to default or the end, and the body |
| IrBuilder.Builder.EmitFunction | src/ir.c:635-655 | Translates one body into a fresh list, with the return of 0 at its end |
| IrBuilder.Build | src/ir.c:657-675 | Translates every function, the counters running on from one to the next: a pseudo that two functions use is an automatic object that one of them names, so temporaries are never shared |
| Mentions.FunctionUses | src/ir.c:465-655 | The code of a function uses the automatic objects its body names and the temporaries drawn for it, and no other pseudo |
| Mentions.ExprUses | src/ir.c:259-441 | The same for every expression, its result included |
| Compiler.PseudosApart | src/x86.c:538-563 | No pseudo is used by two functions of an analysed program, parameters included |
| Ownership.UnitApart | src/sema.c:104-123 | Automatic objects that two functions of an analysed unit name are never the same |
| Ownership.FunctionOwned | src/sema.c:1044-1073 | A function names no automatic object declared before or after it was analysed |
| Ownership.StmtOwned | src/sema.c:554-729 | A statement names, of the automatic objects declared before it, only those in scope, whatever scopes it opens and leaves |
| Backend.PlainBlock | src/x86.c:443-493 | Through lowering, slot assignment and legalisation, the block of any instruction but a call leaves exactly the values and the control transfer the instruction asks for |
| Backend.CallBlock | src/x86.c:398-441 | The same for calls: %rsp is 16-byte aligned at the call, the arguments are in %rdi, %rsi, %rdx, %rcx, %r8, %r9 and on the stack in that order whatever legalisation put into scratch registers, and %rsp is restored after it |
| Backend.LookupBlocks | src/x86.c:256-261 | Labels survive the phases in order: a jump lands at the start of the block its three-address label begins |
| Execution.StepTracks | src/x86.c:443-530 | One three-address step is at least one machine step, with all pseudos and statics equal and %rsp at %rbp minus the frame size at both ends |
| Execution.StepsTrack | src/x86.c:443-530 | Every run of the three-address code is followed by the machine code in at least as many steps |
| Execution.PrologueSim | src/x86.c:1006-1010 | The prologue saves %rbp and sets up a frame in which slots hold whatever memory held |
| Execution.ParamsSim | src/x86.c:495-511 | After the parameter moves, every parameter holds its argument, for any number of them |
| Execution.ArgumentArrives | src/x86.c:495-511 | An argument that the caller put in a register or on the stack is where the callee reads it after call and prologue |
| Execution.EnterSim | src/x86.c:495-530 | From the call instruction to the first instruction of the body: parameters equal arguments, all else is as found |
| Callee.UnitBuilt | src/x86.c:513-530 | Every invariant of the back end holds of every typed function when the stack has room |
| Callee.CalleeReturns | src/x86.c:984-987 | When the three-address code returns, the machine code returns to the address its call pushed, with the same result, statics and outside calls and with all its caller relies on |
| Callee.CalleeDiverges | src/x86.c:513-530 | When the three-address code runs on for ever, so does the machine code |
| Callee.FrameLaid | src/x86.c:574-613 | The slots handed out, which are those of the shared table by SharedSlots.SharedIsOwn, make a frame: aligned, disjoint, inside it, clear of the saved %rbp, incoming arguments and static objects |
| CallProof.SetUpSim | src/x86.c:399-421 | Padding, reverse pushes and register moves leave the first six arguments in %rdi, %rsi, %rdx, %rcx, %r8 and %r9, the others on the stack from %rsp up, and %rsp 16-byte aligned, for any number of arguments |
| CallProof.ArgsInPlace | src/x86.c:410-421 | Register and stack words together are the argument list: the first six in the registers that the convention names, argument i beyond them in stack word i - 6 |
| CallProof.ArgRegIs | src/x86.c:19-21 | The table of argument registers is the convention's (section 3.2.3 of the System V AMD64 ABI) |
| CallProof.PushedWord | src/x86.c:752-763 | A pushed operand of 4 bytes carries its value in the low part of the word, whatever the upper 4 bytes hold |
| CallProof.RegMovesSim | src/x86.c:417-421 | Register moves touch neither memory nor %rsp, and no move spoils an earlier argument |
| CallProof.AfterCall | src/x86.c:423-440 | A callee that keeps the convention leaves the caller's frame as it was |
| LowerProof.TruthSim | src/x86.c:292-294 | `mov $0, dst; setCC dst` stores the truth of the flags, the mov leaving them alone |
| LowerProof.QuotientSim | src/x86.c:316-331 | `mov; cdq; idiv` leaves C's truncated quotient in %ax and the remainder in %dx |
| LowerProof.CountSim | src/x86.c:362-369 | A shift count inside the width reaches %cx intact, whatever the count's own width |
| LowerProof.LowWord | src/x86.c:383-396 | The low half of a long operand is its value truncated to int |
| Arith.DivisionTruncates | src/x86.c:316-333 | Quotient and remainder are the numbers of section 6.5.5, and there are no others: the remainder is smaller than the divisor and has the sign of the dividend |
| Arith.BitwiseBits | src/x86.c:42-66 | And, or and exclusive or work bit by bit on two's complement numbers |
| AsmArith.BinaryMatches | src/x86.c:372-379 | Two-operand machine arithmetic on raw words computes the value of the source operator at both widths |
| AsmArith.FlagsDecide | src/x86.c:332-347 | Zero flag, sign and overflow of `d - s` decide equality and signed order |
| AsmArith.CompareMatches | src/x86.c:67-86 | The condition code chosen for each comparison holds exactly when the source comparison is true |
| AsmArith.DivideMatches | src/x86.c:316-331 | Machine division after sign extension has a result exactly when the source division has one, and then the same quotient and remainder |
| Slots.PlaceAllOk | src/x86.c:553-613 | After the walk every pseudo in the code has one slot, aligned to its size, inside the frame and byte-disjoint from every other; slots once given never move |
| Slots.ReplaceExec | src/x86.c:574-613 | Replacing pseudos by their slots changes nothing about what an instruction does |
| Placement.LayoutSound | src/x86.c:495-613 | The layout of a whole function, parameters included, is sound, and every pseudo in it is placed; by SharedSlots.SharedIsOwn it is also the one that the shared table yields |
| Fixup.FixLegal | src/x86.c:633-808 | No legalised instruction has two memory operands, an immediate that does not fit, an immediate divisor or comparison destination, or a memory destination of imul or movsx |
| Fixup.FixSim | src/x86.c:765-792 | The replacement of one instruction has its effect on everything but %r10 and %r11, flags included |
| Fixup.FixAllSim | src/x86.c:794-808 | The same for any stretch of code |
| Encoding.FunctionLegal | src/x86.c:619-808 | Everything handed to the assembler for a function, prologue and parameter moves included, exists if and only if the frame fits 32 bits and every constant shift count, in dead code too, fits 8 |
| Encoding.BlocksLegal | src/x86.c:679-710 | All of a function's blocks are legal if and only if its constant shift counts fit 8 bits |
| Encoding.DeadShift | src/x86.c:690-710 | `if (0) return x << 5000000000;` is typed and translated and cannot be assembled |
| Encoding.LargeCountIllegal | src/x86.c:696-710 | A shift count that does not fit stays an immediate no shift has, or is legalised into %r10, which no shift accepts |
| Memory.LoadPutSame | src/x86.c:869-890 | What was stored little-endian reads back, reduced to its width |
| Memory.LoadPutOther | src/x86.c:574-613 | A store leaves loads from disjoint bytes alone |
| Frames.SetVal | src/x86.c:137-152 | Writing an operand's cell changes that object in the source sense and no other pseudo or static |
| X86Builder.Builder.OperandFromValue | src/x86.c:137-152 | The operand of a value, its size recorded once for each pseudo |
| X86Builder.Builder.LowerUnary | src/x86.c:282-305 | Appends the specified two-address code |
| X86Builder.Builder.LowerBinary | src/x86.c:307-381 | Appends the specified two-address code, with division through %ax and %dx and counts through %cx |
| X86Builder.Builder.LowerCall | src/x86.c:398-441 | Appends padding, pushes from the last argument, register moves, the call, the release of the stack and the result |
| X86Builder.Builder.LowerInstr | src/x86.c:443-493 | Appends the specified code of any instruction |
| X86Builder.Builder.LowerFunction | src/x86.c:495-530 | Phase 1 for a whole function, parameter moves first |
| X86Builder.Builder.ReplacePseudo | src/x86.c:553-572 | Gives a pseudo without a slot the next aligned one and any other the slot it has |
| X86Builder.Builder.AssignStackSlots | src/x86.c:574-613 | Phase 2 of one function in place, from an empty frame and a table that keeps the slots of the functions before: every pseudo replaced by its slot, the frame rounded up to 16 bytes |
| X86Builder.Builder.FixupFunction | src/x86.c:794-808 | Phase 3 of one function: the list rebuilt as the legalised one |
| X86Builder.Builder.LowerProgram | src/x86.c:532-547 | Phase 1 of all functions; the sizes of all pseudos end up recorded in one array |
| X86Builder.Builder.AssignProgram | src/x86.c:1055-1058 | Phase 2 of all functions in order, the table of slots never reset |
| X86Builder.Builder.FixupProgram | src/x86.c:1060-1063 | Phase 3 of all functions |
| X86Builder.Builder.CompileProgram | src/x86.c:1051-1063 | All three phases over the whole program leave, for each function, exactly the machine code the theorems speak of |
| SharedSlots.SharedIsOwn | src/x86.c:553-613 | The frame a function gets from the shared table is the one it would get from an empty one, and its operands are replaced alike |
| SharedSlots.SharedPseudo | src/x86.c:553-572 | If two functions shared a pseudo, the second would find a slot outside its frame |
| Folding.FoldAgrees | src/sema.c:129-287 | A folded value lies in the range of its type and is what evaluation gives wherever that has a value, at both widths |
| Folding.FoldComplete | src/sema.c:138-287 | The folder succeeds on every constant expression that has a value |
| Folding.FoldInRange | src/sema.c:129-136 | Whatever is folded fits its type |
| Folding.FoldExact | src/sema.c:138-287 | Where the folder has a value, run time has one if and only if no division or remainder that is evaluated takes the smallest value of its type by -1 |
| Folding.FoldsOverflow | src/sema.c:228-236 | The folder gives MIN / -1 and MIN % -1 values that run time does not have |
| Analysis.AnalyzeSound | src/sema.c:310-523 | The tree with conversions inserted is well typed if and only if conditions and cast operands in it are arithmetic; names, signatures and argument lists then match |
| Analysis.LvalueIsName | src/sema.c:310-523 | Every lvalue after analysis is the name of an object |
| Analysis.AnalyzeFoldable | src/sema.c:310-523 | Analysed trees are typed as the folder needs |
| Analysis.CompatibleIsSame | src/type.c:121-163 | Types are compatible exactly when they are equal, in both directions |
| Analysis.VoidCondition | src/sema.c:451-471 | Analysis accepts a conditional whose condition is void |
| Conversions.CommonIsUsual | src/type.c:165-172 | The common type of two arithmetic types is the one of higher rank, one of the two, and holds every value of either |
| Conversions.LegalAccepted | src/sema.c:289-523 | An expression is accepted exactly if it meets the constraints of section 6.5, stated on the tree before analysis by its static types |
| Conversions.AnalyzeMeans | src/sema.c:289-523 | The tree with its casts evaluates to what C's conversion rules, stated on the tree before analysis, give it |
| Declarations.Table.MergeRedeclaration | src/sema.c:926-963 | Keeps the table sound and moves the symbol's initial value only forward; an error exactly when linkage or type differ or a function gets a second body |
| Declarations.Table.BindDeclaration | src/sema.c:965-1007 | At most one symbol with linkage per name, visible bindings and the linked table agreeing; an error exactly when the specification has no result, else that result: the name is bound to a symbol of its type and duration, a parameter to a new one |
| Declarations.Table.NewSymbol | src/sema.c:104-123 | A new symbol, with linkage only if its name had none |
| Declarations.Table.AnalyzeInitializer | src/sema.c:1009-1042 | The converted initialiser; for static objects the folded value is recorded, at most once; an error exactly when there is none |
| Declarations.Table.Declare | src/sema.c:1075-1086 | One declaration: validated, bound and initialised; the log gains exactly this declaration and, for a static object, its initial value, which is the folded initialiser |
| Declarations.Table.FinishTentativeDeclarations | src/sema.c:1095-1104 | Without error every object ends at its only initialiser, at 0 if it was only defined tentatively, or undefined |
| Declarations.Table.ValidateParams | src/sema.c:748-778 | An error exactly unless parameters are objects of arithmetic type, without or with register storage, of different names |
| Declarations.Finished | src/sema.c:1095-1104 | Over every sequence of declarations an object ends defined if and only if some declaration defined it, at its only initialiser, else at 0 |
| Declarations.LinkageIsStatic | src/sema.c:849-894 | Whatever has linkage has static duration |
| Declarations.FindInnermost | src/sema.c:70-87 | A name is found exactly in the innermost scope that declares it, and not found exactly if no scope does |
| Declarations.ScopeFine | src/sema.c:70-87 | Every name of an expression stands for the symbol of that name, type and duration that the innermost scope declaring it binds; a name that no scope declares stands for nothing |
| Declarations.TentativeIs | src/sema.c:896-920 | An accepted declaration is tentative exactly if it declares an object without initialiser, at file scope with static or no storage class, or in a block with static |
| Elaboration.ExprMeans | src/sema.c:289-523 | An elaborated expression evaluates to what its source means by the rules of conversion and of scope |
| Elaboration.ConvertedMeans | src/sema.c:289-310 | A returned value, an initialiser or a case evaluates to what its source means, converted to the type wanted |
| ElaborationProof.DeclaredBinds | src/sema.c:922-1042 | A declaration is allowed by the constraints of sections 6.7 and 6.9, has the linkage of section 6.2.2 and the storage duration of section 6.2.4, binds its name in the innermost scope to a symbol of its own unless it has linkage, and has its initialiser, folded if static |
| Elaboration.OwnSymbols | src/sema.c:896-920 | No two declarations of an elaborated unit share a symbol without linkage |
| ElaborationProof.StmtElaborated | src/sema.c:554-729 | Every analysed statement is the parsed one: each part in its place under its own number, names as scope resolves them, values converted as return, case and initialiser want, break and continue with the statement they leave, each switch with the cases of its body, new in it, and one default at most, labels new in the function |
| ElaborationProof.ResolveFrom | src/sema.c:533-552 | Goto resolution moves no part of a statement |
| ElaborationProof.FunctionElaborated | src/sema.c:1044-1073 | The same for a function definition: its name is in scope of its parameters and these of its body, no label stands twice, and each goto goes to the statement of its label |
| ElaborationProof.UnitSound | src/sema.c:1106-1132 | The same for every accepted unit: its functions in source order, each name standing for what the declarations before it made of it, functions defined and objects initialised once, one symbol for a name with linkage |
| Acceptance.DeclaredAccepted | src/sema.c:922-1042 | Conversely a declaration that the rules of sections 6.2 and 6.7 allow is accepted and binds the symbol they say |
| Acceptance.StmtAccepted | src/sema.c:554-729 | Conversely a statement for which there is an elaboration, and which repeats no case, default or label of those around it, is accepted and becomes that elaboration, its gotos still open |
| Acceptance.FunctionAccepted | src/sema.c:1044-1073 | A function definition for which there is an elaboration is accepted and becomes it |
| Acceptance.AcceptedExactly | src/sema.c:1106-1132 | Analysis accepts a unit if and only if it has an elaboration, and then makes that of it; so there is no other |
| Naming.LabelNames | src/x86.c:892-904 | Printed labels are injective across the whole file |
| Naming.SymbolNames | src/x86.c:860-867 | Distinct symbols of one unit have distinct assembly names, their names being identifiers as the lexer makes them |
| Naming.AllNames | src/x86.c:860-904 | So no two symbols of a file are spelled alike, and none like a label; one with linkage is spelled as in the program |
| Naming.LabelIsNoSymbol | src/x86.c:860-904 | No label is the name of a symbol |
| StmtAnalysis.Analyzer.AnalyzeStmt | src/sema.c:554-729 | An error exactly when the specification has no result, else that result. Then expressions are typed up to the unchecked uses, break and continue reach the innermost target, each switch has exactly its own cases, all of different value and in range, labels are unique and numbers kept. ElaborationProof.StmtElaborated and Acceptance.StmtAccepted say what the specification is |
| StmtAnalysis.Analyzer.AnalyzeReturn | src/sema.c:572-592 | A value exactly when the function returns one, converted to its type; anything else is an error |
| StmtAnalysis.Analyzer.AnalyzeFor | src/sema.c:598-620 | The result of the specification, all three parts of the head in their places; the body's break and continue reach this loop and the enclosing targets come back after it |
| StmtAnalysis.Analyzer.AnalyzeSwitch | src/sema.c:621-642 | Cases and default of the body belong to this switch; continue still reaches the enclosing loop |
| StmtAnalysis.Analyzer.AnalyzeCase | src/sema.c:643-683 | The value is converted to the type of the condition, folded, and new in its switch; anything else is an error |
| StmtAnalysis.Analyzer.AnalyzeLabelled | src/sema.c:684-724 | A default only inside a switch and only once; a label only once in the function; anything else is an error |
| StmtAnalysis.LabelsJoin | src/sema.c:707-724 | Label tables built part by part are the table of the whole, and duplicates are found across the parts |
| Resolution.LabelsResolve | src/sema.c:533-552 | Without duplicates, the label table maps each name to the statement that searching the body finds, and no other name |
| Resolution.Resolved | src/sema.c:533-729 | After goto resolution every jump of the body names the statement C says it reaches, and the body is typed |
| Resolution.SameIds | src/sema.c:533-552 | Resolution renumbers no statement |
| Resolution.TypedUses | src/sema.c:593-620 | A body typed for translation has arithmetic conditions |
| Units.ResolveGotos | src/sema.c:533-552 | An error exactly when some goto names no label |
| Units.BindParams | src/sema.c:1044-1073 | Each parameter is a new automatic object of its declared type; an error exactly when one has no name or cannot be bound |
| Units.AnalyzeFunction | src/sema.c:1044-1073 | An error exactly when the specification has no result; without error the definition is fit for translation, every goto has its label, and its function was not defined before |
| Units.AnalyzeUnit | src/sema.c:1106-1132 | An error exactly when the specification has no result, which by Acceptance.AcceptedExactly is when the unit has no elaboration; without error each function of the unit is defined once and fit for translation, and every static object ends at its only initialiser, at 0 or undefined |
| Units.UnitOk | src/sema.c:1106-1132 | A unit analysed without error meets the premises of the compiler theorem if and only if conditions and cast operands are arithmetic and no two statements of the file share a number |
| Units.UnitCompiles | src/sema.c:1106-1132 | Such a unit has an image, so the compiler theorem applies to it |
| Derivation.ParsesGrammar | src/parser.c:386-492 | Tokens are read as an expression exactly if the grammar of sections 6.5.1 to 6.5.16 derives that tree from them; unlike the standard, any conditional expression may stand left of an assignment and any cast expression after ++ and --, which analysis refuses as no lvalues |
| Derivation.ParserDerives | src/parser.c:471-492 | Whatever the parser returns at a precedence is derived from the tokens it read by the category of that precedence |
| ExprGrammar.DerivedReads | src/parser.c:471-492 | Every expression of the grammar is read as its tree, with any operators allowed that its category allows |
| ExprGrammar.LevelsMatch | src/parser.c:386-462 | Each binary operator has the precedence of its category, and its right operand the next one |
| ExprGrammar.OperatorKinds | src/sema.c:377-420 | Shifts, comparisons and logical operators are the operators of those categories |
| Derivation.OneTree | src/parser.c:471-492 | Tokens have one tree at most |
| Derivation.SpecifiersRead | src/parser.c:697-744 | Specifiers are accepted exactly if their words, in any order, are those of a type and at most one storage class |
| Derivation.NoParameters | src/parser.c:769-790 | `()` and `(void)` declare no parameters, and nothing else does |
| UnitDerivation.ParsesUnits | src/parser.c:876-910 | A token list is parsed exactly if it is a translation unit of the grammar of sections 6.7 to 6.9, and then as the only tree it has, up to statement numbers |
| UnitDerivation.StmtSound | src/parser.c:498-691 | Whatever the parser takes for a statement is one, numbered in source order, and no `else` that belongs to it follows |
| UnitDerivation.StmtComplete | src/parser.c:498-691 | Every statement of the grammar is read as its tree |
| ExprGrammar.RoundTrip | src/parser.c:213-492 | Printing any tree with the fewest parentheses and parsing gives the tree back and stops at the first token no expression goes on with |
| ExprGrammar.Reads | src/parser.c:471-492 | The same at every precedence level: left operands continue by climbing, so binaries group to the left, assignment and `?:` to the right |
| ParseTrees.ParserBuilds | src/parser.c:213-492 | Whatever expression the parser returns can be printed and satisfies what analysis assumes of it |
| ParseTrees.Shortest | src/parser.c:471-492 | Whatever tokens read as a tree, there are at least as many of them as in its printed form: no parentheses can be left out |
| ParseTrees.Reparse | src/parser.c:213-492 | Printing a parsed expression and parsing again changes nothing |
| Parser.Parser.ParseExpression | src/parser.c:471-492 | Returns what the climbing function returns, which by Derivation.ParsesGrammar is the expression of the grammar, and reports an error exactly when that fails; on every input it consumes a token or reports an error |
| Parser.Parser.CallArgs | src/parser.c:362-383 | The argument list up to its parenthesis, or an error, as the specification reads it |
| Parser.Parser.ParseDeclarationSpecs | src/parser.c:697-744 | The type and storage class the specifiers spell, or an error; consumes a token or reports an error |
| Parser.Parser.ParseParameterList | src/parser.c:769-790 | The parameters of the grammar, `(void)` being none, or an error |
| Parser.Parser.ParseDeclaratorOf | src/parser.c:792-822 | The declarator of the grammar, or an error |
| Parser.Parser.SynchronizeBlockItem | src/parser.c:164-196 | After an error reading goes on at the first token, the current one included, that may start a block item or stands after a semicolon; unreadable tokens are reported and passed over |
| Parser.Parser.SynchronizeTranslationUnit | src/parser.c:151-162 | After an error at file scope reading goes on at the first token after the current one that may start a declaration |
| Parser.Parser.ParseStatement | src/parser.c:498-656 | Returns the grammar's statement with its numbers, or reports an error exactly when there is none; consumes a token or reports an error |
| Parser.Parser.ParseIfStatement | src/parser.c:524-536 | The same for `if`: an else goes to the nearest one |
| Parser.Parser.ParseForStatement | src/parser.c:563-586 | The same for `for`, each part present or not |
| Parser.Parser.ParseBlock | src/parser.c:667-691 | The grammar's items or an error, ending on every input with fewer tokens left |
| Parser.Parser.ParseDeclaration | src/parser.c:848-874 | The grammar's declarators or an error; a function body is an error here |
| Parser.Parser.ParseFileDeclaration | src/parser.c:848-874 | The declarators or the function definition of the grammar, or an error |
| Parser.Parser.ParseTranslationUnit | src/parser.c:876-910 | Reaches the end of every token stream, valid or not; returns the grammar's reading and reports an error exactly when there is none |
| StmtPrinting.StmtReads | src/parser.c:498-691 | Any statement printed is read back with its numbers in source order, up to where it ends, whatever else may follow |
| StmtPrinting.UnitReads | src/parser.c:876-910 | Any translation unit printed is read back |
| StmtPrinting.UnitTextRoundTrip | src/parser.c:876-910 | The text of any translation unit lexes and parses to that unit |
| Printing.DeclsRead | src/parser.c:792-874 | Declarators with parameters and initialisers printed are read back |
| UnitTrees.UnitBuilds | src/parser.c:876-910 | A unit that parses is what analysis assumes, and no two of its statements share a number |
| Lexer.LexAll | src/lexer.c:245-369 | The stream of a text: each token the next one after its predecessor, up to the end |
| Lexer.Lexer.NextToken | src/lexer.c:245-260 | The next token: after the longest gap of white space and comments, with its line and line start; progress is made |
| Lexer.Lexer.SkipWhitespace | src/lexer.c:130-172 | Skips exactly the longest gap, or reports a comment that never closes |
| Lexer.Lexer.SkipBlockComment | src/lexer.c:108-128 | Stops after the first closing, counting lines |
| Lexer.Lexer.Number | src/lexer.c:200-222 | All digits, an optional suffix, and an error if anything that cannot follow does |
| Lexer.Lexer.Identifier | src/lexer.c:191-198 | The longest word; a keyword exactly if it is spelled like one |
| Lexer.Lexer.Operator | src/lexer.c:262-366 | The operator the characters choose, and no more characters than it has |
| Lexing.ChooseIsLongest | src/lexer.c:262-366 | Choosing by single characters finds the longest operator of the token set that stands there, or none if there is none |
| Lexing.CharacterSets | src/lexer.c:76-88 | Letters, digits and white space are the characters that sections 6.4 and 6.4.2.1 list |
| Lexing.WordIsKeyword | src/lexer.c:174-198 | A longest word is a keyword exactly if it is one of the C keywords the language has, and then that one, else a name |
| Lexing.ConstantForm | src/lexer.c:200-222 | What is read as a constant is decimal digits, or decimal digits and one l or L |
| Lexing.ConstantRead | src/lexer.c:200-222 | Decimal digits, with or without l or L, are read as a constant if nothing runs on after them |
| Lexing.BlanksAreGap | src/lexer.c:130-172 | Any run of spaces, tabs, line ends, vertical tabs and form feeds separates tokens |
| Lexing.OneBlank | src/lexer.c:130-172 | Nothing else of one character does |
| Lexing.NextUnique | src/lexer.c:245-369 | There is only one next token |
| Lexing.TilesUnique | src/lexer.c:245-369 | Every text has one token stream at most |
| Lexing.TilesInOrder | src/lexer.c:245-369 | Tokens are disjoint, in order, with only white space and comments between them |
| Spelling.LexingUndoesSpelling | src/lexer.c:245-369 | Any tokens spelled out with spaces between are read back unchanged, values and names included |
| Spelling.TextRoundTrip | src/parser.c:471-492 | The text of any expression tree lexes and parses to that tree |
| HashMap.Table.Set | src/base/hashmap.c:93-117 | Binds the key in the map the table stands for and changes no other binding, doubling first exactly if one binding more would fill three quarters |
| HashMap.Table.Get | src/base/hashmap.c:119-135 | The bound value, or none |
| HashMap.Table.Resize | src/base/hashmap.c:48-73 | Keeps all bindings |
| HashMap.FindEntry | src/base/hashmap.c:24-46 | Ends, at the slot of the key or at the empty slot that ends its probe sequence |
| HashMap.HashString | src/base/hashmap.c:11-22 | The 32-bit FNV hash, wrap-around included |
| HashMap.MaskIsMod | src/base/hashmap.c:31-33 | Masking by a power of two less one is the remainder |
| HashMap.EndsRight | src/base/hashmap.c:24-46 | Where a probe sequence ends, the slot is full if and only if the map has the key |
| HashMap.Bound | src/base/hashmap.c:93-117 | Writing the slot where the probe sequence ends binds the key |
| HashMap.HasEmpty | src/base/hashmap.c:93-101 | Fewer bindings than slots leave an empty slot, so that probing ends |

## Left out

- The file handling, options and linking of src/main.c, messages (src/diagnostics.c), memory and vectors (src/base).
- The text of the assembly file but for label and symbol names: instructions have a meaning of their own. The
  prologue and `ret` are modelled; `@PLT`, sections, alignment directives and static data are not.
- Arrays of tree nodes linked in place: trees are immutable values, so an analysis method returns the new tree.
- Trees after a parse error, and the value given to a literal that is too large.
- Lexer characters are Dafny characters, not bytes; no token has a character outside ASCII.
- Hash table keys are owned by the table and values are not null; capacity stays below 2^63.
- HashMap.Table.Set: assumes capacity below 2^63, where doubling would overflow the original's size.
- Counters (temporaries, labels, statement numbers, frame size) do not overflow.
- Callee-saved registers %rbx and %r12 to %r15, which no generated code uses.
- Compiler.CompilerCorrect: says nothing about results that depend on uninitialised objects, and an outside call
  may change any static object.
- The value of a function's name. It is only ever discarded, unless the name is a condition or the operand of a cast to
  an arithmetic type, which then is not arithmetic.
- CallProof.PushedWord: memory has a byte at every address, so the 8-byte push of a 4-byte operand, which reads 4 bytes
  beyond it, cannot fault where a segment ends.
- The initial contents of static objects: `Compiler.CompilerCorrect` starts from any.
