# Sulfur, modelled and proved in Dafny

Sulfur is a small compiler: text, tokens, syntax tree, checked tree, three-address code, x86-64. This
project models each stage as the C code runs it and proves what the stages promise, up to one
statement about all of them: the machine code of an accepted program computes what its source text
means. The meaning is given to the tree the parser builds, apart from the analyser.

`dafny verify dfyconfig.toml` checks everything.

## How the model is built

Each stage has a specification in functions, from which the theorems are proved, and, where the C code
works by updating things in place, a class or method with the same fields, loops and order of updates
that is proved to do exactly what the functions say.

| files | what they hold |
|---|---|
| Values, Arith, Names | the ten value types, fixed-width arithmetic, bit patterns, `name@id` and `tN` |
| Lexing, Lexer, Spelling, LongestMatch | the lexer as pieces of a text, as a class, its round trip, and what the tokens of any text are |
| Tokens, Syntax, Parsing, Parser | the grammar as total functions, and the parser as a class with one cursor |
| Printing, RoundTrip, StmtRoundTrip, CompoundAssign, ParsedTrees, TextRoundTrip | trees printed and parsed back; the shape of every parsed tree |
| Grammar, FileGrammar | the grammar as it is written, and that nothing else is parsed without a report |
| Modules, FoundFiles, ImportOrder, ImportCheck | finding and loading imported files, analysing them in order, detecting cycles |
| Scopes, Constants, Analysis, Analyzer | scope stack and flow states, constant evaluation, the analyser as functions and as a class |
| Meaning, CellMatch, Elaboration | what a source tree means, on its own; that the analyser keeps it, and that accepted runs break no rule |
| Rules, ReadyCells, Accepting, TwoWays | the rules of the language on the source tree, and that a file is accepted exactly if it keeps them |
| Nested, Resolution, Assignment, Endings, Paths | runs over a stack of scopes against runs over one flat environment; definite assignment; returns; walks with free conditions |
| Widths, Folding | when an accepted program suits the back end; constant evaluation against run time |
| Checked, Typing | the checked tree, its meaning, and the conditions the back end needs |
| Ir, Lowering, Labels, LoweringProof, LoweringSim, IrTyping, IrShape | intermediate code, its meaning, its generator, and why lowering preserves meaning and shape |
| Memory, Machine, MachineRun, MachineArith | bytes, registers, flags and instructions of x86-64 |
| Frame, Slots, Codegen, CodegenOps, CodegenSim, CodePlaces, CodegenCalls, CodegenRun, CodeEmitter | frame layout, instruction selection, calls, and the simulation of whole runs |
| Mangling, EditDistance, StdMath | link names, suggestions for misspelt names, `pow`, `abs`, `gcd` and `lcm` |
| EndToEnd, Entries, FuelMore, Pipeline | the statements about the whole compiler, that they speak of real calls, and that the bounds of source runs do not matter |
| Siblings, OperandWidths, NarrowDivision, ShiftWidths, Widening, StoredWider, Accepted, LongImports | programs accepted and compiled otherwise than they mean: exactly which |

Run-time values are mathematical integers in the range of their type; registers and memory hold bit
patterns. Instructions are values of a datatype instead of text. The machine faults on a division that
does not fit, on an instruction that cannot be encoded (operands of different sizes, a large
immediate) and on a `call` at which `rsp` is not a multiple of 16, as sections 3.2.2 and 3.2.3 of the
System V AMD64 ABI demand, so a theorem that a run reaches its end says that none of these happens.
A source run is bounded by two numbers, the calls nested in the running function and the rounds of its
loops; the stack its code needs depends on the first alone. Nothing is said about runs that do not end.

## What the whole-compiler theorems ask of a program

- It is accepted by the analyser and every function it declares is defined in it.
- Its widths are exact: the operands of each arithmetic operation have one type, and a computed value
  is stored and returned at its own type; variables, increments and literals may be stored in a wider
  variable (`Widths.AcceptedIsTyped` says when that is so). Findings 1 to 4 say what happens otherwise.
- No operand or argument increments a variable that is itself an operand or argument before it
  (finding 5).
- A function has fewer than 10^14 temporaries, because slots are filed under shorter names than they
  are looked up under (`Slots.ShortTemporary`).
- The run meets no zero divisor, no quotient that overflows and no shift count outside the width; such a
  run has no value.

## Findings

Where the code does not do what the language promises. The model does what the code does; each entry names
the lemma with an input and the one with the exact condition.

1. Arithmetic on operands of different widths. The analyser promotes the type of the operation and leaves
   the operands as they are (`compiler/src/sulfur/pipeline/frontend/semantic/semantic_expr.c:290`), so
   `i32 + i64` is accepted (`Accepted.MixedAccepted`) and becomes instructions that cannot be encoded
   (`Accepted.MixedStops`). Exactly when the instructions compute the operation:
   `OperandWidths.MixedWidths`, and for an accepted expression `OperandWidths.MixedExpression`; shifts and
   unary operators: `ShiftWidths.ShiftWidths`, `ShiftWidths.UnaryWidths`. Comparisons are not affected: the
   analyser requires equal widths.
2. A narrower divisor is worse: `div` takes it at its own width and the code runs on with a wrong quotient
   or faults: `Accepted.MinusFiveByOne`. Exactly when the quotient is right: `OperandWidths.NarrowDivisor`,
   and for the accepted program `Accepted.DivisionAccepted`.
3. A result returned at a wider type. `doc/compiler/functions.md:38-40` lets `return x` widen an `i32` to a
   declared `i64`, but RETURN moves the operand at its own width
   (`compiler/src/sulfur/pipeline/backend/codegen/codegen.c:740-757`): `Widening.WidenOfNegative`, and
   exactly when it arrives `Widening.ReturnedAtWiderType`.
4. A cast or the result of a call stored in a wider variable. The variable is handed down as the destination,
   so `i64 x = y as i32` does not cut `y` to 32 bits (`StoredWider.CastDiffers`) and `i64 x = f()` reads all
   of `rax` for an `i32`. Exactly when the right value is stored: `StoredWider.CastStoredWider`,
   `StoredWider.CallStoredWider`.
5. An operand or argument that is a bare variable is read after its later siblings, because the intermediate
   code names variables instead of copying them: `a + a++` is 7 instead of 6 for 3
   (`Siblings.LateOperandDiffers`). Exactly when the results agree: `Siblings.LateOperandRuns` for operands,
   `Siblings.LateCall` for arguments.
6. The negation of a constant that is not a literal is not range-checked
   (`compiler/src/sulfur/pipeline/frontend/semantic/semantic_expr.c:334-376`): `Folding.NegationDiffers`;
   exactly when the values agree: `Folding.NegationFolds`.
7. `gcd` and `lcm` of the standard library do not handle the minimum of `i64`: `StdMath.GcdOfMinimum`;
   exactly when a divisor is negative or there is no multiple: `StdMath.GcdCorrect`,
   `StdMath.LeastCommonMultiple`.
8. Slots are filed under names cut at 15 characters and looked up under names cut at 31. They agree exactly
   for temporaries of at most 14 digits: `Slots.ShortTemporary`.
9. An import whose path does not fit the buffer is dropped without a report, and the next import with it if
   the buffer overflows at the last name or at the extension
   (`compiler/src/sulfur/pipeline/frontend/parser/parser_stmt.c:106-109` and `:575-659`):
   `LongImports.BothImportsLost`; exactly when: `LongImports.KeptExactly`, `LongImports.SwallowedExactly`.
10. A numeral of 2^64 or more is cut to 64 bits by the lexer without a report
   (`compiler/src/sulfur/pipeline/frontend/lexer.c:411`), so the range check of the analyser sees the
   remainder: `Spelling.NumeralWraps`; exactly when the value is the written one: `Spelling.NumeralExact`.

11. The value of a constant shift is not range-checked at its type
   (`compiler/src/sulfur/pipeline/frontend/semantic/semantic_expr.c:197-224`), so a constant count may pass the
   check and be out of range at run time: `Folding.CountDiffers`; exactly when evaluator and run time agree:
   `Folding.ShiftFolds`.

## Where code and documentation disagree

The model follows the code.

- `doc/compiler/functions.md:38-40`: see finding 3.
- `&&` and `||` evaluate both operands
  (`compiler/src/sulfur/pipeline/backend/ir/ir.c:523-527`); the meaning of the source is eager.

## Model

| member | source | states |
|---|---|---|
| `Pipeline.TextToMachine` | compiler/src/sulfur/driver/main.c:80-160 | From text to machine: the text of any list of functions, written from their trees, goes through lexer and parser to exactly those functions, and for an accepted, meaningful program the generated code, entered in any way the calling convention allows with stack for as many activations as the source run nests, returns what the functions mean as they are written; such entries exist |
| `Pipeline.TokensToMachine` | compiler/src/sulfur/driver/main.c:101-150 | The same from any token list: whatever the parser builds from it has the syntax the rest of the compiler relies on, and the compiled code computes what those trees mean |
| `Pipeline.CompilerCorrect` | compiler/src/sulfur/pipeline/frontend/semantic/semantic.c:57-134 | An accepted program, run as it is written with names, scopes and typed variables, and its machine code, entered as the calling convention says, give the same result, with stack in proportion to the nesting of the source run and not to its length; the compiled function has the parameter types and the result type written |
| `Elaboration.SourceMeaningKept` | compiler/src/sulfur/pipeline/frontend/semantic/semantic_expr.c:68-92 | The analyser keeps the meaning of the source: every call of every function of an accepted program has the same outcome by the tree the parser built, under a meaning of its own, as by the checked tree, for all arguments and bounds |
| `Elaboration.AcceptedRunsKeepTheRules` | compiler/src/sulfur/pipeline/frontend/semantic/semantic.c:217-265 | Accepted programs do not go wrong: no run uses an undeclared name, declares a name twice in a scope, reads a variable without a value, writes an immutable variable after its declaration, applies an operator to values of other types than it takes, stores or returns a value at a type that may not hold it, or misses a result; what is left are division faults, shift counts and functions that are not there |
| `Elaboration.ExprAlike` | compiler/src/sulfur/pipeline/frontend/semantic/semantic_expr.c:68-92 | For every accepted expression in every state: the same value and the same variables after it, and the type the analyser gave it is the type of the value |
| `Elaboration.LiteralFirst` | compiler/src/sulfur/pipeline/frontend/semantic/semantic_expr.c:142-156 | A comparison with a literal on the left is resolved right operand first, and still compares left with right |
| `Elaboration.OperateAlike` | compiler/src/sulfur/pipeline/frontend/semantic/semantic_expr.c:94-131 | An accepted binary node applies its operator to its operands in the order written, and its type is that of the result |
| `Elaboration.CountAlike` | compiler/src/sulfur/pipeline/frontend/semantic/semantic_expr.c:456-505 | `++` and `--`, before or after, on a mutable integer: direction, value and new content |
| `Elaboration.MinusNumberAlike` | compiler/src/sulfur/pipeline/frontend/semantic/semantic_expr.c:378-429 | A negated literal is the negative number, at the minimum of its type too |
| `Elaboration.CallAlike` | compiler/src/sulfur/pipeline/frontend/semantic/semantic_expr.c:646-732 | A call evaluates its arguments left to right, converts narrower ones to the parameter types and reaches the function of that name, imported or declared |
| `Elaboration.StmtAlike` | compiler/src/sulfur/pipeline/frontend/semantic/semantic.c:217-265 | For every accepted statement: it ends, returns or fails as written, with the same variables |
| `Elaboration.IfAlike` | compiler/src/sulfur/pipeline/frontend/semantic/semantic.c:372-418 | The branch taken is the one the condition chooses |
| `Elaboration.InvokeAlike` | compiler/src/sulfur/pipeline/frontend/semantic/semantic.c:446-537 | A function is called with its own parameters bound to the arguments in order |
| `Accepting.AcceptedExactly` | compiler/src/sulfur/pipeline/frontend/semantic/semantic.c:57-134 | A file is accepted if and only if every function of it keeps the rules of the language, stated on the tree the parser built: types, qualifiers, declarations before uses, one definition for a name, constants that fit, values wherever a variable is read, and no way to the end of a function that returns a value |
| `Accepting.ExprKept` | compiler/src/sulfur/pipeline/frontend/semantic/semantic_expr.c:68-92 | An expression is accepted if and only if it keeps the rules, and then with the type it has by them |
| `Accepting.StmtKept` | compiler/src/sulfur/pipeline/frontend/semantic/semantic.c:217-265 | So is a statement, and it leaves the variables with a value that it does by the rules |
| `Accepting.FunctionAccepted` | compiler/src/sulfur/pipeline/frontend/semantic/semantic.c:446-537 | So is a function, behind the functions before it |
| `TwoWays.BranchingAccepted` | compiler/src/sulfur/pipeline/frontend/semantic/semantic.c:525-534 | A function whose body returns in both branches of an `if` is accepted if its header is, its condition is a `bool` and both results fit its type |
| `TwoWays.ChoiceAccepted` | compiler/src/sulfur/pipeline/frontend/semantic/semantic.c:446-537 | For instance `fn f(bool b) i32 { if b { return 1; } else { return 2; } }` |
| `EndToEnd.CompilationPreservesMeaning` | compiler/src/sulfur/pipeline/backend/codegen/codegen.c:155-198 | For every well-formed, stable program, every function, all arguments and every entry: if the source run returns a value and nests d calls, the machine code entered with those arguments in registers and on the stack, and stack for d + 1 activations, returns the pattern of that value in `rax`, with `rsp`, `rbp` and the memory above the entry intact |
| `EndToEnd.EntryExists` | compiler/src/sulfur/pipeline/backend/codegen/codegen.c:781-820 | For all arguments in range, every return address and every number of activations whose stack can be addressed there is such an entry |
| `FuelMore.InvokeMore` | compiler/src/sulfur/pipeline/backend/ir/ir.c:803-874 | What a source function returns, or how it fails, does not depend on the bounds of the run once they are large enough |
| `LoweringSim.LoweringPreservesMeaning` | compiler/src/sulfur/pipeline/backend/ir/ir.c:108-118 | Lowering preserves meaning: whenever the structured run of a function returns a value, the flat intermediate code returns the same value with no more activations at a time, for all programs without an increment of an earlier bare sibling |
| `LoweringSim.SimStmt` | compiler/src/sulfur/pipeline/backend/ir/ir.c:265-475 | Each statement, at any nesting: its code run from its first operation leaves every variable as the structured run does, and falls through, loops or returns as it does |
| `LoweringSim.SimExpr` | compiler/src/sulfur/pipeline/backend/ir/ir.c:477-607 | Each expression: its code ends behind its last operation with the value in the result operand, increments done, earlier temporaries kept, and the destination hint written only with that value |
| `LoweringSim.SimAssignment` | compiler/src/sulfur/pipeline/backend/ir/ir.c:338-349 | An assignment stores the converted value whether it was computed straight into the variable or copied there |
| `LoweringSim.SimBranches` | compiler/src/sulfur/pipeline/backend/ir/ir.c:360-387 | From the test of an `if` the run takes the branch the condition chooses and meets the end of the whole statement |
| `LoweringSim.SimInvoke` | compiler/src/sulfur/pipeline/backend/ir/ir.c:803-874 | A call returns what the callee returns, for recursion of any depth the source run has |
| `LoweringProof.CollectParams` | compiler/src/sulfur/pipeline/backend/ir/ir.c:836-861 | A run over the PARAM operations of a call collects the values of its arguments in order, behind those pending already |
| `LoweringProof.OperandSurvives` | compiler/src/sulfur/pipeline/backend/ir/ir.c:600-607 | An operand that names a variable instead of copying it still reads the same after later siblings, if none of them increments that variable |
| `Siblings.LateLeft` | compiler/src/sulfur/pipeline/backend/ir/ir.c:517-574 | What the flat code of `a op R` computes for every well-typed `R` and wherever the result goes, increments of `a` in `R` included: the operation on the value `a` has after `R` |
| `Siblings.LateOperandRuns` | compiler/src/sulfur/pipeline/backend/ir/ir.c:517-574 | For every `a + R` and `a - R` the code gets to its end, and its result is the value of the source if and only if `R` leaves the value of `a` as it was |
| `Siblings.LateOperandAgrees` | compiler/src/sulfur/pipeline/backend/ir/ir.c:517-574 | The same condition on the source alone; an `R` that increments `a` nowhere meets it |
| `Siblings.IncrementedSibling` | compiler/src/sulfur/pipeline/backend/ir/ir.c:549-574 | When `R` is an increment or decrement, exactly if its variable is another one |
| `Siblings.LateOperandDiffers` | compiler/src/sulfur/pipeline/backend/ir/ir.c:517-574 | `a + a++` at `i32` with 3 in `a` means 6, and its flat code computes 7 |
| `Siblings.LateArgs` | compiler/src/sulfur/pipeline/backend/ir/ir.c:811-834 | After the code of any list of arguments each operand reads what the call will receive: a bare variable its value after all arguments, any other argument its own |
| `Siblings.LateCall` | compiler/src/sulfur/pipeline/backend/ir/ir.c:803-874 | A call receives the values of its arguments if and only if every argument that is a bare variable keeps its value while the arguments behind it are evaluated |
| `Labels.PlacedInStmt` | compiler/src/sulfur/pipeline/backend/ir/ir.c:208-224 | A statement places each label id it takes from the counter exactly once, and no other |
| `Labels.JumpsOfStmt` | compiler/src/sulfur/pipeline/backend/ir/ir.c:360-404 | Every jump of a statement goes to a label that statement took |
| `Labels.ProgramLabels` | compiler/src/sulfur/pipeline/backend/ir/ir.c:108-118 | Over a whole program every label id taken from the counter is placed exactly once, and no other is placed at all |
| `Labels.FindPlaced` | compiler/src/sulfur/pipeline/backend/ir/ir.c:389-404 | In code that places a label once, a jump to it lands on that place |
| `IrShape.LoweredFunctionTyped` | compiler/src/sulfur/pipeline/backend/ir/ir.c:406-463 | Every generated function is well shaped: each temporary and variable has one type, operands fit their operations, at every CALL the pending PARAMs are that call's arguments however calls nest, no label is placed twice, the target of every jump is placed exactly once in the same function, and over the program each label id is placed exactly once |
| `IrShape.CollectJoin` | compiler/src/sulfur/pipeline/backend/ir/ir.c:803-874 | Code that leaves no argument pending can be put one after the other, which is why nested calls keep their arguments apart |
| `Lowering.Context.GenerateExpression` | compiler/src/sulfur/pipeline/backend/ir/ir.c:477-607 | The generator that appends to the operation list and bumps the temporary counter emits exactly the code of the lowering function, behind what was there |
| `Lowering.Context.GenerateArguments` | compiler/src/sulfur/pipeline/backend/ir/ir.c:811-861 | The argument loop appends the code of all arguments from left to right and gives their operands |
| `Lowering.Context.GenerateCall` | compiler/src/sulfur/pipeline/backend/ir/ir.c:803-874 | A call appends the arguments, their PARAMs in order, and the CALL with its destination |
| `Lowering.Context.GenerateAssignment` | compiler/src/sulfur/pipeline/backend/ir/ir.c:338-349 | No ASSIGN is emitted exactly when the value was computed straight into the variable |
| `Lowering.Generator.GenerateStatement` | compiler/src/sulfur/pipeline/backend/ir/ir.c:265-308 | Statements append to one list, with the label counter shared by the whole program |
| `Lowering.Generator.GenerateIf` | compiler/src/sulfur/pipeline/backend/ir/ir.c:360-387 | Labels are taken before the branches are generated, and the code is that of the lowering function |
| `Lowering.Generator.GenerateWhile` | compiler/src/sulfur/pipeline/backend/ir/ir.c:389-404 | Start label, test, body, jump back and end label, in that order |
| `Lowering.Generator.GenerateFunction` | compiler/src/sulfur/pipeline/backend/ir/ir.c:406-463 | Parameters, body, and a RETURN appended unless the code ends with one |
| `Lowering.Generator.GenerateProgram` | compiler/src/sulfur/pipeline/backend/ir/ir.c:108-118 | All functions of a program, in order, one label counter through them |
| `Paths.AlwaysReturnsExactly` | compiler/src/sulfur/pipeline/frontend/semantic/semantic.c:779-813 | `stmt_always_returns` holds of a statement if and only if no walk through it, its conditions chosen freely, comes to its end |
| `Paths.FlagsExact` | compiler/src/sulfur/pipeline/frontend/semantic/semantic.c:372-444 | After an accepted statement that may end, a variable is held for initialized if and only if it was before or every walk to the end assigns it |
| `Endings.NeverCompletes` | compiler/src/sulfur/pipeline/frontend/semantic/semantic.c:779-813 | A statement for which `stmt_always_returns` holds completes normally in no run; that it holds of every statement no walk gets through is `Paths.AlwaysReturnsExactly` |
| `Endings.NeverPastTheEnd` | compiler/src/sulfur/pipeline/backend/ir/ir.c:449-460 | No run of a generated function whose body always returns, or that is void, from any store and for any number of steps, is ever past its last operation |
| `Endings.PastTheEnd` | compiler/src/sulfur/pipeline/frontend/semantic/semantic.c:525-534 | The check is needed: a non-void body that returns on one path only runs past its last operation |
| `Frame.LayoutSound` | compiler/src/sulfur/pipeline/backend/codegen/stack.c:59-117 | For any parameters and operations all slots are pairwise disjoint and differently named, each aligned to its size and inside the frame, and the frame is a multiple of 16 bytes |
| `Frame.RegisterAllKeeps` | compiler/src/sulfur/pipeline/backend/codegen/stack.c:162-206 | Slots once given are never moved or taken away |
| `Frame.RegisteredHasSlot` | compiler/src/sulfur/pipeline/backend/codegen/stack.c:59-79 | Every operand registered has a slot under its name |
| `Frame.StackMap.AddEntry` | compiler/src/sulfur/pipeline/backend/codegen/stack.c:162-206 | A new name gets the next offset aligned to its size; a known name keeps its slot |
| `Frame.StackMap.Populate` | compiler/src/sulfur/pipeline/backend/codegen/stack.c:81-117 | The loops over parameters and operations build the layout of the specification |
| `Frame.StackMap.FrameBytes` | compiler/src/sulfur/pipeline/backend/codegen/codegen.c:1060-1074 | The loop over the entries finds the deepest slot, rounded up to 16 |
| `Slots.LayoutOfTyped` | compiler/src/sulfur/pipeline/backend/codegen/stack.c:59-117 | In a generated function every variable and temporary has a slot of its own type, no two of them share a byte, and code generation finds it, for temporaries of at most 14 digits |
| `Slots.OperandSlots` | compiler/src/sulfur/pipeline/backend/codegen/codegen.c:285-302 | Every operand code generation looks up has a slot of the width of its type below the frame pointer, and two operands have one offset if and only if they are the same variable or temporary, for temporaries of at most 14 digits |
| `Slots.ShortTemporary` | compiler/src/sulfur/pipeline/backend/codegen/stack.c:59-79 | The name a slot is filed under is the name it is looked up under exactly if the temporary has at most 14 digits |
| `Slots.WriteSlot` | compiler/src/sulfur/pipeline/backend/codegen/codegen.c:285-302 | A store to one slot changes one place of the frame and no other |
| `Names.MangleInjective` | compiler/src/sulfur/utils/mangle.c:10-32 | `name@id` determines name and id |
| `Names.VariableIsNotTemporary` | compiler/src/sulfur/utils/mangle.c:10-32 | No variable is ever taken for a temporary |
| `MachineArith.Compare` | compiler/src/sulfur/pipeline/backend/codegen/codegen.c:649-712 | After `cmp` the flags decide each of the six conditions as the integers do, signed or unsigned by the type |
| `MachineArith.ExtendedDividend` | compiler/src/sulfur/pipeline/backend/codegen/codegen.c:456-481 | A dividend extended by sign or by zero into the double register is the value itself |
| `CodegenOps.BinaryStores` | compiler/src/sulfur/pipeline/backend/codegen/codegen.c:355-384 | The sequence for add, sub, and, or, xor stores what the machine instruction makes of the two patterns and changes nothing else, with large immediates routed through `rcx`; that this is the operation of the language is `CodegenSim.BinStores` |
| `CodegenOps.MultStores` | compiler/src/sulfur/pipeline/backend/codegen/codegen.c:386-423 | The product modulo the width, signed or unsigned, the byte case through `ax` included |
| `CodegenOps.DivStores` | compiler/src/sulfur/pipeline/backend/codegen/codegen.c:425-481 | The quotient truncated toward zero for every width and signedness; the machine does not fault when the divisor is not zero and the quotient fits |
| `CodegenOps.UnaryStores` | compiler/src/sulfur/pipeline/backend/codegen/codegen.c:483-535 | Negation and complement wrapped to the type, logical not on 0 and 1 |
| `CodegenOps.ShiftStores` | compiler/src/sulfur/pipeline/backend/codegen/codegen.c:537-580 | The sequence for a shift by a literal or through `cl` stores what the machine shift makes of the pattern, for every count in the width; that this is the shift of the language is `CodegenSim.BinStores` |
| `CodegenOps.ConvertStores` | compiler/src/sulfur/pipeline/backend/codegen/codegen.c:582-647 | Casts and widening moves store the value modulo the width of the target, sign-extended or zero-extended by the type of the operand |
| `CodegenOps.RelationalStores` | compiler/src/sulfur/pipeline/backend/codegen/codegen.c:649-712 | A comparison stores 1 or 0 as the mathematical comparison says |
| `CodegenSim.BinStores` | compiler/src/sulfur/pipeline/backend/codegen/codegen.c:900-960 | Every binary operation of the intermediate code: its instructions store the pattern of the value that the operation has |
| `CodegenSim.BinSim` | compiler/src/sulfur/pipeline/backend/codegen/codegen.c:355-712 | So a binary operation takes a frame that holds the variables to the frame with its result written |
| `CodegenSim.UnSim` | compiler/src/sulfur/pipeline/backend/codegen/codegen.c:483-535 | Likewise for unary operations |
| `CodegenSim.AssignSim` | compiler/src/sulfur/pipeline/backend/codegen/codegen.c:621-635 | Likewise for ASSIGN, which emits nothing for a copy of a slot to itself |
| `CodegenSim.SelfAssign` | compiler/src/sulfur/pipeline/backend/codegen/codegen.c:621-635 | Emitting nothing for a copy to the same slot is right |
| `CodePlaces.JumpLands` | compiler/src/sulfur/pipeline/backend/codegen/codegen.c:714-738 | A jump in the generated code lands at the first instruction of the operation it targets in the intermediate code |
| `CodePlaces.LookupCode` | compiler/src/sulfur/pipeline/backend/codegen/codegen.c:155-198 | The program has, under each function's name, the code of that function |
| `CodePlaces.CollectedAt` | compiler/src/sulfur/pipeline/backend/codegen/codegen.c:987-1015 | The operands collected by the operation loop are the arguments of the call that follows |
| `CodegenRun.TestSim` | compiler/src/sulfur/pipeline/backend/codegen/codegen.c:724-738 | The comparison before a conditional jump sets the zero flag exactly when the condition is false |
| `CodegenRun.JumpStep` | compiler/src/sulfur/pipeline/backend/codegen/codegen.c:718-738 | Both codes take the same branch |
| `CodegenCalls.ArgumentsSim` | compiler/src/sulfur/pipeline/backend/codegen/codegen.c:830-881 | The argument sequence puts the first six arguments into the registers of the convention and the others on the stack in reverse, with padding, for any number and any widths |
| `CodegenCalls.ArgumentsArrive` | compiler/src/sulfur/pipeline/backend/codegen/codegen.c:781-820 | Each parameter the callee reads, from a register or above the return address, holds the low bytes of the caller's argument |
| `CodegenCalls.ParamsSim` | compiler/src/sulfur/pipeline/backend/codegen/codegen.c:781-820 | The prologue stores every parameter into its own slot and loses none that is still to be stored |
| `CodegenCalls.PrologueSim` | compiler/src/sulfur/pipeline/backend/codegen/codegen.c:759-828 | The first operation of a function runs in a frame that holds exactly the arguments |
| `CodegenCalls.AfterCallSim` | compiler/src/sulfur/pipeline/backend/codegen/codegen.c:870-881 | After a call `rsp` is as before the arguments, and the result is in its slot |
| `CodegenCalls.FramedBack` | compiler/src/sulfur/pipeline/backend/codegen/codegen.c:830-881 | The caller's frame survives whatever the callee did below it |
| `CodegenRun.EnterCallee` | compiler/src/sulfur/pipeline/backend/codegen/codegen.c:830-881 | At every `call` of every run the convention holds for the callee: arguments in place and `rsp` a multiple of 16 before the address is pushed |
| `CodegenRun.CallStep` | compiler/src/sulfur/pipeline/backend/codegen/codegen.c:830-881 | A whole call, from its first argument to the operation after it, is one step of the intermediate code |
| `CodegenRun.SimRun` | compiler/src/sulfur/pipeline/backend/codegen/codegen.c:883-1028 | From any operation, in any frame that holds the variables, the machine follows the run of the intermediate code to its return |
| `CodegenRun.SimFunction` | compiler/src/sulfur/pipeline/backend/codegen/codegen.c:759-828 | A call of a generated function returns the value of its intermediate code, with stack pointer, base pointer and the memory above the entry as they were; the stack it needs is bounded by the activations at a time, whatever number of operations it runs |
| `OperandWidths.MixedWidths` | compiler/src/sulfur/pipeline/backend/codegen/codegen.c:355-454 | For + - * / & | ^ and operands of every kind and width: the instructions compute the operation for all values from all states if and only if every operand in a slot is as wide as the destination, or the operation divides a small enough literal by a narrower slot |
| `OperandWidths.MixedExpression` | compiler/src/sulfur/pipeline/frontend/semantic/semantic_expr.c:262-307 | An accepted expression of those operators becomes that operation behind the code of its operands, with any hint; for operands that are not literals the widths suit if and only if all three are equal |
| `OperandWidths.NarrowDivisor` | compiler/src/sulfur/pipeline/backend/codegen/codegen.c:425-454 | Division by a narrower variable: for each value of the dividend, negative or not, the code divides right for every divisor if and only if that value is zero, or unsigned, in the range of the divisor and the divisor is not a byte |
| `OperandWidths.MismatchFaults` | compiler/src/sulfur/pipeline/backend/codegen/codegen.c:355-423 | With another width anywhere but in a divisor the code stops in every state |
| `NarrowDivision.NarrowCode` | compiler/src/sulfur/pipeline/backend/codegen/codegen.c:425-454 | What a division by a narrower slot leaves in the destination, for every dividend and every divisor: nothing if it faults, else the bytes the narrow `div` writes merged into the pattern of the dividend |
| `NarrowDivision.SmallIsRight` | compiler/src/sulfur/pipeline/backend/codegen/codegen.c:425-454 | For a small dividend that is the quotient |
| `NarrowDivision.LargeIsWrong` | compiler/src/sulfur/pipeline/backend/codegen/codegen.c:425-454 | For every other dividend, positive or negative, some divisor with a quotient in range makes it fault or store another number |
| `ShiftWidths.ShiftWidths` | compiler/src/sulfur/pipeline/backend/codegen/codegen.c:537-580 | A shift is computed for all values and states if and only if the shifted operand is a literal or as wide as the destination, whatever the width of the count |
| `ShiftWidths.ShiftExpression` | compiler/src/sulfur/pipeline/frontend/semantic/semantic_expr.c:197-224 | The shift an accepted expression becomes, and when its widths suit |
| `ShiftWidths.UnaryWidths` | compiler/src/sulfur/pipeline/backend/codegen/codegen.c:483-535 | `-` and `~` are computed if and only if the operand is a literal or as wide as the destination |
| `Accepted.MixedAccepted` | compiler/src/sulfur/pipeline/frontend/semantic/semantic_expr.c:262-307 | `fn mixed(x, y) { return x op y; }` with `x` and `y` of different widths is accepted, for each of those operators and all such types |
| `Accepted.MixedStops` | compiler/src/sulfur/pipeline/backend/codegen/codegen.c:355-423 | With the frame it is compiled to, its operation stops in every state, unless it is a division by the narrower one |
| `Accepted.DivisionAccepted` | compiler/src/sulfur/pipeline/backend/codegen/codegen.c:425-454 | The accepted division by the narrower one, with the frame it is compiled to: right for every divisor if and only if the dividend is small |
| `Accepted.MinusFiveByOne` | compiler/src/sulfur/pipeline/backend/codegen/codegen.c:425-454 | An `i64` -5 divided by an `i32` 1 is 2^32 - 5, in every state that holds the two |
| `Accepted.WidenAccepted` | compiler/src/sulfur/pipeline/frontend/semantic/semantic.c:446-537 | `fn widen(x) { return x; }` is accepted for every declared type to which the type of `x` converts |
| `Widening.WidenReturns` | compiler/src/sulfur/pipeline/backend/codegen/codegen.c:740-757 | Compiled and called, it returns with `rax` as on entry except for the bytes of the argument, at the width of the argument |
| `Widening.ReturnedAtWiderType` | compiler/src/sulfur/pipeline/backend/codegen/codegen.c:740-757 | Over all calls that meet the calling convention, the caller finds the argument at the declared type if and only if the widths are equal or the argument has 4 bytes and is not negative |
| `Widening.WidenOfNegative` | doc/compiler/functions.md:33-40 | The documented `fn widen(i32 x) i64` returns 2^32 too much in every call with a negative argument |
| `StoredWider.CastStoredWider` | compiler/src/sulfur/pipeline/backend/codegen/codegen.c:582-619 | A cast stored in a wider variable goes to the type of the variable at once; it stores what the source stores if and only if the value, taken at that type, is in the range of the type of the cast |
| `StoredWider.CastDiffers` | compiler/src/sulfur/pipeline/backend/ir/ir.c:576-584 | `i64 x = y as i32` for 2^31: the source stores -2^31, the code 2^31 |
| `StoredWider.CallStoredWider` | compiler/src/sulfur/pipeline/backend/codegen/codegen.c:830-881 | The result of a call stored in a wider variable, over all that the callee may leave in the other bytes of `rax`: right if and only if the widths are equal or the result has 4 bytes and is not negative |
| `CodeEmitter.Emitter.EmitBinary` | compiler/src/sulfur/pipeline/backend/codegen/codegen.c:355-384 | Appends the register sequence of the specification behind what was emitted |
| `CodeEmitter.Emitter.EmitMult` | compiler/src/sulfur/pipeline/backend/codegen/codegen.c:386-423 | The same for products, the byte case apart |
| `CodeEmitter.Emitter.EmitDiv` | compiler/src/sulfur/pipeline/backend/codegen/codegen.c:425-481 | The same for quotients |
| `CodeEmitter.Emitter.EmitShift` | compiler/src/sulfur/pipeline/backend/codegen/codegen.c:537-580 | The same for shifts |
| `CodeEmitter.Emitter.EmitConvert` | compiler/src/sulfur/pipeline/backend/codegen/codegen.c:582-619 | The same for conversions, by widths and signedness |
| `CodeEmitter.Emitter.EmitRelational` | compiler/src/sulfur/pipeline/backend/codegen/codegen.c:649-712 | The same for comparisons |
| `CodeEmitter.Emitter.EmitCall` | compiler/src/sulfur/pipeline/backend/codegen/codegen.c:830-881 | Padding, stack arguments from the last to the seventh, registers, `call`, and the stack taken back |
| `CodeEmitter.Emitter.EmitOperations` | compiler/src/sulfur/pipeline/backend/codegen/codegen.c:883-1028 | The operation loop fills `params` at each PARAM and empties it at each CALL, and emits the code in which these are each call's arguments |
| `CodeEmitter.Emitter.EmitFunction` | compiler/src/sulfur/pipeline/backend/codegen/codegen.c:759-828 | Layout, prologue, parameter stores and operations of one function |
| `CodeEmitter.GenerateCode` | compiler/src/sulfur/pipeline/backend/codegen/codegen.c:155-198 | The loop over the functions emits the program the theorems are about |
| `Assignment.AcceptedRunsAgree` | compiler/src/sulfur/pipeline/frontend/semantic/semantic.c:372-444 | In an accepted program no call of any function, on any arguments and for any number of steps, reads a variable that was not written or misses a return; and the evaluator over one flat environment keyed by `name@id` agrees with the one over nested scopes |
| `Assignment.SimStmt` | compiler/src/sulfur/pipeline/frontend/semantic/semantic.c:217-265 | The same for every statement of an accepted function from any state the flags describe, over any nesting of blocks, `if`, `else if`, `while` and `return` |
| `Assignment.SimExpr` | compiler/src/sulfur/pipeline/frontend/semantic/semantic_expr.c:619-644 | The same for expressions: every occurrence finds the cell of the innermost visible declaration, written |
| `Assignment.IntersectBelow` | compiler/src/sulfur/pipeline/frontend/semantic/semantic.c:372-418 | The flags after an `if`, filled with true for a branch that always returns and intersected, are at least those before it and at most those after each branch that can complete |
| `Assignment.BranchResult` | compiler/src/sulfur/pipeline/frontend/semantic/semantic.c:384-418 | Filling with true after a returning branch is safe: what such a branch leaves is never used |
| `Assignment.ResolveKeeps` | compiler/src/sulfur/pipeline/frontend/semantic/semantic.c:362-444 | Analysis of a statement keeps the open scopes, the symbols in them and their flags aligned, never gives an id twice, and a block, `if` or loop only adds initialized variables |
| `Resolution.GoodInsert` | compiler/src/sulfur/pipeline/frontend/semantic/scope.c:76-101 | A declaration takes an id that no symbol has |
| `Resolution.DeclareMatch` | compiler/src/sulfur/pipeline/frontend/semantic/semantic.c:267-315 | A declaration adds a cell in the innermost scope and a key to the flat environment that nothing else uses |
| `Resolution.WriteMatch` | compiler/src/sulfur/pipeline/frontend/semantic/semantic.c:326-360 | A write to a resolved variable changes the same variable in both environments |
| `Scopes.RestoreSaved` | compiler/src/sulfur/pipeline/frontend/semantic/scope.c:142-185 | Restoring a saved flow state undoes whatever happened to the flags since |
| `Scopes.WithFlagsShape` | compiler/src/sulfur/pipeline/frontend/semantic/scope.c:173-185 | Restoring changes flags only, and the flags are then exactly the saved ones |
| `Scopes.Scope.InsertSymbol` | compiler/src/sulfur/pipeline/frontend/semantic/scope.c:76-101 | Inserting fails exactly if the innermost scope has the name, and otherwise takes the next id |
| `Scopes.Scope.LookupSymbol` | compiler/src/sulfur/pipeline/frontend/semantic/scope.c:64-74 | Lookup finds the declaration of the innermost scope that has the name |
| `Scopes.Scope.FlowSave` | compiler/src/sulfur/pipeline/frontend/semantic/scope.c:142-171 | Saving walks the scopes and gives one flag per visible symbol |
| `Scopes.Scope.FlowRestore` | compiler/src/sulfur/pipeline/frontend/semantic/scope.c:173-185 | Restoring walks the scopes and sets the flags in place |
| `Scopes.FlowState.And` | compiler/src/sulfur/pipeline/frontend/semantic/scope.c:193-199 | Intersection in place, flag by flag |
| `Analyzer.SemanticAnalyzer.AnalyzeStatement` | compiler/src/sulfur/pipeline/frontend/semantic/semantic.c:217-265 | The analyser that updates one scope stack in place accepts what the specification accepts, with the same ids, types and final flags |
| `Analyzer.SemanticAnalyzer.AnalyzeIf` | compiler/src/sulfur/pipeline/frontend/semantic/semantic.c:372-418 | Save, restore, fill and intersect in this order, with the checked tree of the specification |
| `Analyzer.SemanticAnalyzer.AnalyzeWhile` | compiler/src/sulfur/pipeline/frontend/semantic/semantic.c:420-444 | The flags after a loop are those after its condition |
| `Analyzer.SemanticAnalyzer.AnalyzeBlock` | compiler/src/sulfur/pipeline/frontend/semantic/semantic.c:362-370 | A block opens one scope, analyses in order and closes it |
| `Widths.AcceptedIsTyped` | compiler/src/sulfur/pipeline/frontend/semantic/semantic_expr.c:133-307 | An accepted program can be typed as code generation needs, under any types of its variables, if and only if its widths are exact; and then it is by the typings given |
| `Widths.CheckedExpr` | compiler/src/sulfur/pipeline/frontend/semantic/semantic_expr.c:68-131 | An accepted expression is well typed for the back end if and only if both operands of each of its arithmetic operations have one type |
| `Widths.CheckedStmt` | compiler/src/sulfur/pipeline/frontend/semantic/semantic.c:652-726 | An accepted statement is, if and only if also every computed value stored or returned has exactly the type it is stored or returned at |
| `Widths.FunctionTyping` | compiler/src/sulfur/pipeline/frontend/semantic/semantic.c:446-537 | There are types of the variables under which the checked body of an accepted function is well typed for the back end if and only if its widths are exact; and then the ones given are such |
| `Constants.EvalIntExact` | compiler/src/sulfur/pipeline/frontend/semantic/semantic_const.c:58-94 | Signed evaluation of a tree of literals, negation and the operators on integers succeeds exactly when the value of every subtree exists and fits 64 bits, and then gives it: the mathematical value for + - * /, the 64-bit operation for shifts and bitwise operators |
| `Constants.EvalUintExact` | compiler/src/sulfur/pipeline/frontend/semantic/semantic_const.c:35-56 | Likewise for unsigned evaluation |
| `Folding.FoldingAgrees` | compiler/src/sulfur/pipeline/frontend/semantic/semantic_expr.c:262-307 | If the analyser accepts an expression of literals, negated literals and the operators on integers and evaluates it to a value, that value is in the range of the resolved type and wrapping evaluation at that type gives it, provided every shift in it has a value in range and a count within the width |
| `Folding.ShiftFolds` | compiler/src/sulfur/pipeline/frontend/semantic/semantic_expr.c:197-224 | For a shift whose operands agree and whose count is within the width, which is not range-checked, the two agree if and only if the value is in the range of the type |
| `Folding.CountDiffers` | compiler/src/sulfur/pipeline/frontend/semantic/semantic_expr.c:211-221 | They can differ: in `x << ((1 << 7) >> 5)` at `i8` the accepted count is 4 to the evaluator and -4 at run time |
| `Folding.NegationFolds` | compiler/src/sulfur/pipeline/frontend/semantic/semantic_expr.c:334-376 | For the negation of an expression that is no literal, which is not range-checked, the two agree if and only if the value is in the range of the type |
| `Folding.NegationDiffers` | compiler/src/sulfur/pipeline/frontend/semantic/semantic_expr.c:334-376 | They can differ: `-(-128)` at `i8` is 128 to the evaluator and -128 to the machine |
| `Parsing.ParseStatement` | compiler/src/sulfur/pipeline/frontend/parser/parser_stmt.c:69-104 | Total on every token list that ends in EOF: the cursor never goes back or past the EOF, and a tree consumed at least one token; what is parsed is said by `StmtRoundTrip.StatementRoundTrip`, `CompoundAssign.CompoundRoundTrip` and `FileGrammar.ReadStatement` |
| `CompoundAssign.CompoundRoundTrip` | compiler/src/sulfur/pipeline/frontend/parser/parser_stmt.c:239-284 | For each of the nine compound tokens and any printable expression, `x op= e ;` is parsed without a report as the assignment of `x op e` to `x`, operands in this order, and parsing goes on behind the semicolon |
| `CompoundAssign.CompoundSpelled` | compiler/src/sulfur/pipeline/frontend/lexer.c:27-69 | Each compound token is spelled as the operator it stands for with an `=` behind |
| `FileGrammar.CleanFileIsWritten` | compiler/src/sulfur/pipeline/frontend/parser/parser.c:16-50 | Nothing else is accepted: a file without stray text or overlong imports that is parsed without a report consists of the tokens of grammatical items, with parentheses, qualifiers in any order, compound assignments and return types left out as they may be written, and these stand for exactly what the parser delivers |
| `FileGrammar.ReadStatement` | compiler/src/sulfur/pipeline/frontend/parser/parser_stmt.c:69-104 | The same for one statement |
| `Grammar.ReadBinary` | compiler/src/sulfur/pipeline/frontend/parser/parser_expr.c:60-102 | The same for expressions: an expression is read without a report only from tokens in which every operand binds as tightly as the precedence table demands |
| `Parsing.ParseItems` | compiler/src/sulfur/pipeline/frontend/parser/parser.c:16-50 | The whole file is read to its EOF, whatever errors it has |
| `Parsing.RecoverTopLevel` | compiler/src/sulfur/pipeline/frontend/parser/parser_stmt.c:106-160 | Recovery at the top level always passes at least one token that is not the EOF |
| `Parsing.RecoverExpression` | compiler/src/sulfur/pipeline/frontend/parser/parser.c:150-167 | Recovery in an expression stops at the EOF or at a token that ends expressions |
| `LongImports.KeptExactly` | compiler/src/sulfur/pipeline/frontend/parser/parser_stmt.c:575-659 | `import a.b.c;` is kept if and only if its path and extension are shorter than 512 characters; otherwise it is dropped with nothing reported, and parsing resumes behind its semicolon, or behind what recovery takes after it |
| `LongImports.SwallowedExactly` | compiler/src/sulfur/pipeline/frontend/parser/parser_stmt.c:106-160 | An import behind a dropped one is swallowed with it if and only if everything before the last name of the dropped one fitted |
| `LongImports.BothImportsLost` | compiler/src/sulfur/pipeline/frontend/parser/parser_stmt.c:575-659 | `import <254 letters>.<254 letters>; import b;` parses to an empty file with nothing reported |
| `RoundTrip.ExpressionRoundTrip` | compiler/src/sulfur/pipeline/frontend/parser/parser_expr.c:16-282 | Any expression tree, printed with parentheses only where the precedence table needs them and followed by a token that cannot continue it, is parsed back to the same tree and the parser stops at that token |
| `RoundTrip.ParsePrint` | compiler/src/sulfur/pipeline/frontend/parser/parser_expr.c:60-102 | The same at every level of the table, the non-chainable relational level included |
| `StmtRoundTrip.StatementRoundTrip` | compiler/src/sulfur/pipeline/frontend/parser/parser_stmt.c:69-343 | Any statement tree, printed, is parsed back to the same tree and no error is reported |
| `StmtRoundTrip.BlockRoundTrip` | compiler/src/sulfur/pipeline/frontend/parser/parser_stmt.c:496-528 | Blocks of any length and nesting |
| `StmtRoundTrip.FunctionRoundTrip` | compiler/src/sulfur/pipeline/frontend/parser/parser_stmt.c:345-473 | Functions with qualifiers, parameters, return type and body, or with `;` for a body |
| `ParsedTrees.StatementBuilt` | compiler/src/sulfur/pipeline/frontend/parser/parser_stmt.c:69-104 | On any tokens a statement the parser gives has blocks for bodies and branches and a written type in every declaration, at every depth |
| `ParsedTrees.FileBuilt` | compiler/src/sulfur/pipeline/frontend/parser/parser.c:16-50 | So has every declaration of a file, whatever errors are in it |
| `Parser.TokenParser.Binary` | compiler/src/sulfur/pipeline/frontend/parser/parser_expr.c:60-102 | The loop over the operators of a level builds the tree of the grammar, left-associative, once only at the level that does not chain |
| `Parser.TokenParser.Call` | compiler/src/sulfur/pipeline/frontend/parser/parser_expr.c:184-226 | The argument loop |
| `Parser.TokenParser.Cast` | compiler/src/sulfur/pipeline/frontend/parser/parser_expr.c:104-133 | Chained casts |
| `Parser.TokenParser.Block` | compiler/src/sulfur/pipeline/frontend/parser/parser_stmt.c:496-528 | The statement loop with its no-progress guard |
| `Parser.TokenParser.If` | compiler/src/sulfur/pipeline/frontend/parser/parser_stmt.c:286-321 | `else if` chains |
| `Parser.TokenParser.ParamList` | compiler/src/sulfur/pipeline/frontend/parser/parser_stmt.c:366-443 | The parameter loop |
| `Parser.TokenParser.FuncDecl` | compiler/src/sulfur/pipeline/frontend/parser/parser_stmt.c:345-473 | A function, its recovery included |
| `Parser.TokenParser.Statement` | compiler/src/sulfur/pipeline/frontend/parser/parser_stmt.c:69-104 | Dispatch on the first tokens; cursor, tree and error report are those of the grammar functions, compound assignments included (`CompoundAssign.CompoundRoundTrip`) |
| `Parser.TokenParser.ImportItem` | compiler/src/sulfur/pipeline/frontend/parser/parser_stmt.c:575-659 | The path buffer filled part by part; a path too long for it is dropped without a report |
| `Parser.TokenParser.RecoverFromTopLevel` | compiler/src/sulfur/pipeline/frontend/parser/parser_stmt.c:106-160 | The brace depth counter |
| `Parser.TokenParser.RecoverFromStatement` | compiler/src/sulfur/pipeline/frontend/parser/parser.c:169-202 | Skips to where a statement may begin |
| `Parser.TokenParser.ParseFile` | compiler/src/sulfur/pipeline/frontend/parser/parser.c:16-50 | The main loop: a whole file, with a step over one token when nothing was consumed |
| `TextRoundTrip.ProgramTextRoundTrip` | compiler/src/sulfur/pipeline/frontend/parser/parser.c:16-50 | Text written from any list of printable functions, tokenized and parsed, gives the same functions back and no error |
| `TextRoundTrip.FileRoundTrip` | compiler/src/sulfur/pipeline/frontend/parser/parser_stmt.c:29-67 | A printed file of functions is parsed back function by function up to its EOF |
| `Spelling.SpelledIsRead` | compiler/src/sulfur/pipeline/frontend/lexer.c:132-177 | The space-separated spelling of any list of tokens is tokenized to that list |
| `Spelling.NumberPieceAt` | compiler/src/sulfur/pipeline/frontend/lexer.c:370-424 | The decimal spelling of any number is read as that number modulo 2^64 |
| `LongestMatch.LongestSymbol` | compiler/src/sulfur/pipeline/frontend/lexer.c:446-483 | In any text, where no word, numeral or white space begins, the token is the longest symbol the text goes on with and its piece is spelled so; a stray run is there only if no symbol is |
| `LongestMatch.WholeWord` | compiler/src/sulfur/pipeline/frontend/lexer.c:426-444 | In any text a word goes on to the first character that cannot be part of it, and its token, keyword or name, is spelled so |
| `LongestMatch.NumeralRead` | compiler/src/sulfur/pipeline/frontend/lexer.c:354-424 | For every number, its base-16 digits in either case, its binary or its decimal ones, with underscores anywhere behind the prefix, are read as the number modulo 2^64; the value of a digit is its place in `0123456789abcdef` |
| `Spelling.NumeralExact` | compiler/src/sulfur/pipeline/frontend/lexer.c:370-424 | A numeral of any base, underscores included, has the value that is written if and only if that value is below 2^64; what value is written is said by `LongestMatch.NumeralRead` |
| `Spelling.NumeralWraps` | compiler/src/sulfur/pipeline/frontend/lexer.c:370-424 | `18446744073709551617` is read as 1 |
| `Spelling.SymbolRead` | compiler/src/sulfur/pipeline/frontend/lexer.c:446-483 | The symbol table finds every symbol, and no longer one, before a blank |
| `Spelling.KeywordSpelled` | compiler/src/sulfur/pipeline/frontend/lexer.c:465-473 | Every keyword and type name is resolved to its token |
| `Lexing.PiecesCover` | compiler/src/sulfur/pipeline/frontend/lexer.c:132-177 | No text is lost: pieces follow one another with only white space between and around them |
| `Lexing.OneLine` | compiler/src/sulfur/pipeline/frontend/lexer.c:251-258 | No token goes over the end of a line, so counting columns by characters is right |
| `Lexing.SameLine` | compiler/src/sulfur/pipeline/frontend/lexer.c:251-254 | Along a line the column counts the characters |
| `Lexer.TextLexer.ReadNumber` | compiler/src/sulfur/pipeline/frontend/lexer.c:370-424 | The digit loop gives the numeral of the specification, whose value is that of its digits by place (`LongestMatch.NumeralRead`) modulo 2^64; one without digits or followed by a letter is none |
| `Lexer.TextLexer.ReadIdentifier` | compiler/src/sulfur/pipeline/frontend/lexer.c:426-444 | Names are clipped at 254 characters before keywords are looked up |
| `Lexer.TextLexer.ReportUndefined` | compiler/src/sulfur/pipeline/frontend/lexer.c:319-352 | A run of characters that make no token becomes one token and one report |
| `Lexer.TextLexer.Tokenize` | compiler/src/sulfur/pipeline/frontend/lexer.c:132-177 | Every token has the line and column counted from the beginning of the text; an error is reported exactly if some text is no token; the tokens are those of the specification, the longest that fit (`LongestMatch.LongestSymbol`, `LongestMatch.WholeWord`) |
| `Mangling.DemangleMangled` | compiler/src/sulfur/utils/mangle.c:34-109 | A demangler gets the parts of the module path and the function name back from every mangled name |
| `Mangling.LinkNamesDistinct` | compiler/src/sulfur/utils/mangle.c:34-63 | Two functions share a link name only if they are the same function of the same module |
| `Mangling.MangleModulePrefix` | compiler/src/sulfur/utils/mangle.c:65-109 | The buffer loop writes the prefix, and never more than 3 + 2 * end characters |
| `ImportCheck.AcceptedExactly` | compiler/src/sulfur/module/module.c:62-80 | The imports of a program are accepted if and only if no chain of imports from it ends at a file that is missing, that has errors, or that the chain has already passed |
| `FoundFiles.JoinedParts` | compiler/src/sulfur/module/module.c:287-320 | A joined path is the directory and then the name, with one slash between them unless the directory is empty or ends in one, and its parts are those of the directory and then those of the name |
| `FoundFiles.FoundExactly` | compiler/src/sulfur/module/module.c:333-361 | An import is found exactly at its own path, if that is a file, and otherwise in the first search directory, by index, that has it; it is missing if and only if it is nowhere |
| `Modules.LoadsExactly` | compiler/src/sulfur/module/module.c:147-285 | Loading reports an error exactly if a chain of imports ends at a missing or faulty file; otherwise it lists every reachable file exactly once with every import resolved to the module it names; it never lists an unreachable one; where an import is found is `FoundFiles.FoundExactly` |
| `Modules.ResolveGrows` | compiler/src/sulfur/module/module.c:172-285 | One import: the list grows at its end, without repetition, by files this import reaches |
| `ImportOrder.AnalyzesExactly` | compiler/src/sulfur/pipeline/frontend/semantic/semantic.c:136-178 | Exactly the reachable modules are analysed, each once, a done one only after everything it imports; a module ends done if and only if it leads to no cycle and to no broken module; a cyclic import is reported if and only if there is one |
| `ImportOrder.DoneExactly` | compiler/src/sulfur/pipeline/frontend/semantic/semantic.c:136-178 | The same for one module, whatever else the program imports |
| `ImportOrder.ModuleStep` | compiler/src/sulfur/pipeline/frontend/semantic/semantic.c:87-178 | What every recursive step keeps: the modules in progress are the path to the current one, finished modules keep their marks, failed ones lead to a cycle or a broken module |
| `ImportCheck.ModuleList.ResolveImport` | compiler/src/sulfur/module/module.c:172-285 | The method that appends to the list in place, marks the entry and recurses does what the specification says |
| `ImportCheck.ModuleList.AnalyzeOne` | compiler/src/sulfur/pipeline/frontend/semantic/semantic.c:136-178 | The three marks set in place around the recursion |
| `ImportCheck.ModuleList.FindPath` | compiler/src/sulfur/module/module.c:333-361 | The loop over the search directories finds what the specification finds: the path itself, else the first directory that has it (`FoundFiles.FoundExactly`) |
| `ImportCheck.ModuleList.Run` | compiler/src/sulfur/driver/main.c:115-136 | Loading, and then analysis if nothing was reported, accepts exactly what the specification accepts |
| `EditDistance.Measure` | compiler/src/sulfur/utils/string.c:76-113 | The two-row table computes the recursive distance whenever the second name is shorter than 256, and the largest 32-bit number otherwise |
| `EditDistance.FewestEdits` | compiler/src/sulfur/utils/string.c:76-113 | The distance is the length of a shortest sequence of insertions, deletions and replacements of one character |
| `EditDistance.Triangle` | compiler/src/sulfur/utils/string.c:76-113 | Triangle inequality |
| `EditDistance.ZeroIffEqual` | compiler/src/sulfur/utils/string.c:76-113 | The distance is zero if and only if the names are equal |
| `EditDistance.Symmetric` | compiler/src/sulfur/utils/string.c:76-113 | The distance is symmetric |
| `EditDistance.ClosestVariable` | compiler/src/sulfur/pipeline/frontend/semantic/scope.c:117-140 | The suggestion is the first nearest visible name, innermost scope first, at a distance of at most half the length of the name; there is none exactly if no visible name is that near |
| `EditDistance.ClosestFunction` | compiler/src/sulfur/pipeline/frontend/semantic/symbol.c:151-174 | The same over the table of functions |
| `StdMath.Pow` | stdlib/src/std/math/arith.slfr:1-16 | The power wrapped to 64 bits, for every base and exponent |
| `StdMath.AbsoluteValue` | stdlib/src/std/math/arith.slfr:18-24 | The exact absolute value, the minimum included |
| `StdMath.GreatestCommonDivisor` | stdlib/src/std/math/arith.slfr:53-64 | The loop ends, never divides the minimum by -1, and gives the end of the descent of remainders |
| `StdMath.GcdCorrect` | stdlib/src/std/math/arith.slfr:53-64 | Its absolute value is a common divisor that every common divisor divides, for all operands; it is negative exactly if an operand is the minimum and the number of divisions from it is even, or both are |
| `StdMath.GcdOfMinimum` | stdlib/src/std/math/arith.slfr:53-64 | So a greatest common divisor can come out negative: `gcd` of the minimum and 6 is -2 |
| `StdMath.LeastCommonMultiple` | stdlib/src/std/math/arith.slfr:66-72 | The result is the least common multiple if and only if it fits an `i64`; there is no result, the division overflowing, exactly for the minimum with a `gcd` of -1 |
| `StdMath.LcmIsLeast` | stdlib/src/std/math/arith.slfr:66-72 | The quotient by the greatest common divisor times the other operand is a common multiple that divides every common multiple |

## Left out

- Siblings.LateOperandRuns: the exact condition is for `+` and `-`; under another operator (`a * 0`, `a < a++`) different operands can give one result, and what the code computes there is `Siblings.LateLeft`.
- OperandWidths.MixedWidths: takes literals that fit their type and literal divisors that are not zero, as the analyser makes sure.
- LoweringSim.LoweringPreservesMeaning: speaks of runs that return a value; a source run that divides by zero, overflows a quotient or shifts too far has no value and nothing is said of its code.
- EndToEnd.CompilationPreservesMeaning: the stack of an activation is counted with a word for each operation of the function as room for arguments, more than the code uses.
- Slots.LayoutOfTyped: asks for temporaries of at most 14 digits, where the two names of a slot begin to differ.
- Pipeline.TextToMachine: the text is the space-separated one; other spacing and redundant parentheses are covered only by the theorems about all texts and all token lists.
- FileGrammar.CleanFileIsWritten: one direction; that a grammatical file is parsed back is proved for trees printed with the parentheses they need (`RoundTrip.ExpressionRoundTrip`), not for redundant ones.
- Folding.FoldingAgrees: shifts whose value does not fit are excluded by `ShiftsFit`; for those `Folding.ShiftFolds` says exactly when the two agree.
- Lexer.TextLexer.Tokenize: lines and columns are unbounded; the C counters wrap at 32 bits.
- Analyzer.SemanticAnalyzer.AnalyzeStatement: gives up at the first error, where the C analyser reports it and goes on; which programs are accepted is the same.
- ImportCheck.ModuleList.Run: whether the statements of an imported module are in order is not part of it, and neither is the copying of public symbols (semantic.c:180-192); imported functions reach the analysis as a given table.
- StdMath.GcdCorrect: with the minimum as an operand the sign depends on the number of divisions, which is part of the condition.
- Extern functions, linkage directives, `_start` and the exit system call: code that is not here to see.
- Function declarations inside function bodies: the language puts functions at top level, and nested ones would see locals of another frame; the analyser of the model rejects them.
- Variables declared at top level: the parser takes them with a qualifier before them, the back end has no place for them.
- Warnings (constant conditions, unused results, repeated qualifiers) and with them the evaluation of boolean constants, which decides nothing else.
- The check of `main` (semantic.c:728-777): its signature only, four comparisons.
- `max`, `min` and `clamp` of the standard library, and removing comments and carriage returns before the lexer: they would only add easy members.
- Assembly text, `snprintf` and string buffers: instructions are values; the order of the sequence is modelled, the spelling is not.
- Running out of memory, arenas, growth of buffers: allocation always succeeds and lists grow.
- Command line, reading and writing files, logging, the printers of tokens, trees and code: a finite map stands for the file system and a flag for whether an error was reported.
- `sf_optimize`, which does nothing.
