# eLox in Dafny

A model of the parts of eLox, a C implementation of a bytecode language, whose correctness is decided by their own
code: the one-pass compiler and its stack machine, closures, the pattern matcher, the garbage collector, the hash
tables, the subtype test, and string scanning and search. Code that works in place is modelled by classes over arrays,
linked objects and fields, with the source's loops; what its methods do is tied to plain functions, and what the
design promises is proved about those.

## The parts

**Compiler and machine.** `Syntax`, `Grammar` and `Printing` hold tokens, trees, precedence climbing and its inverse.
`Codegen` gives each construct its structured code: jumps go where the structure says. `Emit` is one-pass emission
with holes, `Compiler` the imperative compiler over tokens, locals array and code buffer, proved equal to parsing
followed by emission. `Patching` and `Astray` say when emission gives the structured code: breaks are matched to loops
only by scope depth, so a `while` at the depth of a pending break of an enclosing loop takes that break with it. The
code is right if and only if that does not happen (`Patching.BreakSafe`, a check on the tree that scripts with block
loop bodies always pass), and `LedAstray` holds a program for which it happens, whose bytecode never ends. `Machine`
is the dispatch loop, `Semantics` executes statements directly, and `ExprSimulation`, `Simulation` and `Programs`
prove that the two agree. `Operators`, `Scripts` and `Arithmetic` say from outside what these share: which operator
binds first, what a script's text is, and what each operator computes.

**Closures.** `Upvalues` resolves captured names at compile time; `Closures` is the run time, with the sorted list of
open upvalues. The specification is a memory of cells: each variable is a cell, slots and closures refer to cells, and
every operation is an update of that memory. `Functions` is the code of functions with nested functions and what
compilation promises of it (operands, marks and the operations at scope ends, as `Upvalues` computes them).
`ClosureRuns` executes such code with loops, calls, closures and returns. Its run invariant (every frame and every
closure refers to the variables of the scopes its text stands in, and only marked variables are captured) makes each
instruction do what the names in the program mean, and `History` says what that comes to over a whole run.

**Patterns.** `PatternSpec` is a priority-ordered list of successes, `PatternMatcher` the backtracking matcher over
its capture array, `PatternUse` searching and iteration, `Substitution` global replacement. `PatternMeaning` is a
relation that says what a pattern matches, part by part and octet by octet, `PatternExact` proves that the list holds
exactly its matches, and `Templates` says the same sort of thing of replacement templates and plans.

**Garbage collector.** `GcHeap` has objects, the references that blackening follows, and reachability; `Gc` has
marking with a gray stack that may fail to grow at any push, the fallback scan, sweeping, allocation and stores.

**Hash tables.** `HashIndex`, `Probing`, `WeakSweep` and `OpenTable` are the open-addressing table as a finite map:
slots and probe paths, the sweep of unmarked keys, and the table in place. `Interning` is the string table over it,
`ValueTable` the insertion-ordered table and iteration over it. `elox/lib/StringTable.c` is the same algorithm with
interned strings as keys.

**Subtypes.** `Subtypes` has the display, the list of other supertypes and the cache.

**Scanning and search.** `Utf8` has RFC 3629 sections 3 and 4 and the decoder's table, `Scanner` unescaping in place,
`Escapes` its escapes octet by octet, and `Search` the two substring searches.

Where a comment or name in the repository and its code disagree, the model follows the code; the differences are
listed under "Left out".

## Model

| member | source | states |
|---|---|---|
| Programs.Interpret | elox/lib/compiler.c:2676-2707 | from source tokens to the end of the run, for scripts that keep their breaks apart: nothing runs exactly when the source does not parse or its code would not fit, a run that ends ends as executing the statements does, and a run that is cut short is still going |
| Programs.CompilesToStructuredCode | elox/lib/compiler.c:2676-2707 | source compiles to the structured code, or to an error exactly when that code would not fit, whenever breaks are kept apart |
| Programs.CompilesToStructuredCodeIff | elox/lib/compiler.c:343-357 | for every source that compiles without an error: it gets the structured code if and only if no `while` is met while a break of an enclosing loop at its depth is pending |
| Astray.ScriptEmitsIff | elox/lib/compiler.c:343-357 | the same for syntax trees, both directions: the safe scripts are exactly those whose code is right |
| Astray.StmtCarries | elox/lib/compiler.c:343-357 | whatever a statement is, bytes once emitted change only in holes of pending breaks, and each break that was pending either leads to a fixed earlier place or is still pending, in order |
| Astray.LoopCarries | elox/lib/compiler.c:2446-2472 | when a loop ends, every break pending at its scope depth has been patched, also one of a loop around it |
| Astray.StmtIsSized | elox/lib/compiler.c:2607-2639 | whether or not breaks go astray, a statement takes as many bytes and constants as its structured code and restores locals, depth and loop |
| Astray.StmtGoesWrong | elox/lib/compiler.c:343-357 | a statement with a `while` at the depth of a pending break emits code that differs from the structured code for good |
| LedAstray.CompiledCodeRunsForever | elox/lib/compiler.c:343-357 | `while (true) if (true) break; else while (false) nil;` compiles without an error and ends when its statements are executed, but its bytecode is still running after any number of steps |
| LedAstray.Compiled | elox/lib/compiler.c:2676-2707 | the 34 bytes that program compiles to, with the outer break leading to the end of the inner loop |
| Patching.ScriptEmits | elox/lib/compiler.c:330-357 | one pass with patching gives exactly the structured code of a script whose breaks are kept apart, and fails exactly when that code would not fit |
| Patching.StmtEmits | elox/lib/compiler.c:2607-2639 | what emitting any statement adds: its structured code once the pending breaks lead to the end of the enclosing loop; error if and only if a jump, a constant or a local does not fit or a name is unknown |
| Patching.BlockBodiedScriptEmits | elox/lib/compiler.c:2446-2472 | scripts whose loop bodies are blocks are always compiled to their structured code |
| Patching.BlockBodiesAreSafe | elox/lib/compiler.c:343-357 | block bodies put inner loops deeper than every pending break |
| Patching.PatchBreaksPatchesOwn | elox/lib/compiler.c:343-357 | the end of a loop patches exactly the breaks at its depth or deeper, and stops at those of the loops around it |
| Patching.LoopEmits | elox/lib/compiler.c:2268-2323 | a whole `while` or `for`: test, increment clause jumped over once, body, jump back, exit |
| Patching.IfEmits | elox/lib/compiler.c:2402-2419 | both jumps of an `if` come out over exactly the branches |
| Emit.ExprEmits | elox/lib/compiler.c:539-645 | an expression is emitted as exactly its code and fails exactly when that would be wrong, including both kinds of short-circuit jump |
| Simulation.StmtSimulates | elox/lib/vm.c:2184-2937 | running the code of a statement does what executing the statement means: same variables, same outcome (normal, broken, continued, error), and the stack holds exactly the live variables at every statement boundary, also after break and continue |
| Simulation.StackHeights | elox/lib/compiler.c:507-532 | at every statement boundary the machine’s stack is as high as there are live locals; where a break or a continue arrives, as high as the locals outside the loop’s body |
| Simulation.ScriptSimulates | elox/lib/vm.c:2184-2937 | a whole script: after the code of its statements the stack holds exactly the script’s variables with the values execution gives them; a script that has not ended after some number of turns keeps the machine running at least that long |
| Simulation.ScriptEnds | elox/lib/vm.c:2726-2745 | a script that ends makes the machine halt, or fault with the same error |
| Simulation.MachineDecides | elox/lib/vm.c:2184-2937 | a machine run that ends shows how executing the script ends |
| Simulation.EndsInIff | elox/lib/vm.c:2184-2937 | the machine halts, or faults with an error, if and only if executing the script ends normally, or with that error |
| Simulation.StopsIff | elox/lib/vm.c:2184-2937 | the machine stops if and only if the script does |
| Simulation.LoopSimulates | elox/lib/vm.c:2595-2610 | all turns of a loop, with test, increment clause, jump back and jumps out of the body |
| ExprSimulation.ExprSimulates | elox/lib/vm.c:2249-2610 | the code of an expression leaves its value on the stack and performs its assignments, or faults with its error |
| ExprSimulation.ResolvesToSlot | elox/lib/compiler.c:1079-1095 | static resolution of a name finds the slot of the innermost binding with that name |
| Machine.Fiber.Execute | elox/lib/vm.c:2184-2937 | one instruction of the dispatch loop, on the stack array and its top, has the effect of the step function on the values that the array holds; at most one value is added |
| Machine.Fiber.Run | elox/lib/vm.c:2184-2937 | the dispatch loop for a limited number of instructions, with the stack array in place |
| Arithmetic.FiniteArithmetic | elox/lib/vm.c:2511-2566 | on finite operands the instructions push the sum, the difference of the lower and the upper value, the product, the q with q * y == x, and the remainder that has the sign of the dividend, is smaller than the divisor and differs from the dividend by a multiple of it |
| Arithmetic.FiniteComparison | elox/lib/vm.c:2496-2510 | LESS, GREATER and EQUAL compare the lower value with the upper one |
| Arithmetic.NaNSpreads | elox/lib/vm.c:2223-2233 | an operation on NaN gives NaN, and a comparison with NaN is false |
| Arithmetic.InfiniteSums | elox/lib/vm.c:2511-2549 | sums and differences with infinities |
| Arithmetic.InfiniteProducts | elox/lib/vm.c:2550-2552 | products with infinities |
| Arithmetic.InfiniteQuotients | elox/lib/vm.c:2553-2555 | quotients with infinities and by zero |
| Arithmetic.InfiniteRemainders | elox/lib/vm.c:2556-2566 | remainders with infinities and by zero |
| Arithmetic.InfiniteComparison | elox/lib/vm.c:2496-2510 | infinities in order and equality |
| Arithmetic.OtherValues | elox/lib/vm.c:2223-2233 | arithmetic and order on anything but two numbers is a runtime error; equality of other values is identity |
| Arithmetic.UnaryInstructions | elox/lib/vm.c:2584-2594 | NEGATE changes the sign, NOT makes true of nil and false only |
| Arithmetic.FalseJumps | elox/lib/vm.c:2600-2605 | exactly nil and false take the jump of JUMP_IF_FALSE, over the distance its two bytes spell, and stay on the stack |
| Arithmetic.BinaryComputes | elox/lib/compiler.c:569-622 | an operator of the language computes its mathematical meaning on finite operands, the left one evaluated first |
| Arithmetic.UpdateComputes | elox/lib/compiler.c:1177-1183 | so does a compound assignment, with the value the variable had before its right-hand side |
| Arithmetic.RemainderIsUnique | elox/lib/vm.c:2556-2566 | only one number is such a remainder |
| Values.NegatedComparisonIsOrderIff | elox/lib/compiler.c:569-622 | `>=` and `<=`, compiled as negated strict comparisons, are the usual order if and only if no operand is NaN |
| ExprSimulation.UnorderedIsGreaterOrEqual | elox/lib/compiler.c:569-622 | the code of `0 / 0 >= 1` leaves true, although its left operand is neither greater than 1 nor equal to it |
| Printing.ParsePrinted | elox/lib/compiler.c:539-645 | Pratt parsing inverts printing with the fewest parentheses, for every expression tree over the operator table |
| Printing.ClimbPrinted | elox/lib/compiler.c:539-567 | the loop over operators consumes a printed expression at any precedence, whatever follows that may follow |
| Printing.ClimbOperator | elox/lib/compiler.c:569-622 | binary operators associate to the left, `and` and `or` to the right |
| Printing.PrintingIsInjective | elox/lib/compiler.c:1747-1821 | different trees never print alike |
| Operators.ChainParses | elox/lib/compiler.c:539-567 | a chain of operators, with any number of `-` and `!` in front of each operand, parses to the tree that splits it at the weakest operator again and again: tiers `* / %`, `+ -`, `< <= > >=`, `== !=`, `and`, `or`, to the left but for `and` and `or` |
| Operators.ThreeOperands | elox/lib/compiler.c:1747-1821 | of two operators the second is applied first exactly when its tier is stronger, or both are `and` or both `or` |
| Operators.ChainCompiles | elox/lib/compiler.c:539-567 | the code of a chain is the code of that tree |
| Operators.AssignmentTakesChain | elox/lib/compiler.c:1235-1250 | an assignment or compound assignment takes the whole chain behind it, with the operator its token names |
| Scripts.ScriptParses | elox/lib/compiler.c:2607-2674 | parsing inverts printing for every script: declarations, blocks, both forms of `if`, loops with every choice of clauses, breaks and continues |
| Scripts.StmtParses | elox/lib/compiler.c:2607-2639 | the same for one statement, whatever follows but an `else` that would be drawn in |
| Scripts.ScriptCompiles | elox/lib/compiler.c:2676-2707 | a printed script compiles to the code of its statements, or to an error exactly when that code would not fit |
| Semantics.FindIsInnermost | elox/lib/compiler.c:1079-1095 | a name means its last binding |
| Bytecode.LowByteFirst | elox/lib/compiler.c:223-229 | 16-bit operands have their low byte first |
| Compiler.Compiler.Compile | elox/lib/compiler.c:2676-2707 | compiling a whole script yields exactly what one-pass emission of its parse yields, and nothing when there was an error |
| Compiler.Compiler.Expression | elox/lib/compiler.c:539-567 | parsing and emitting an expression in one pass equals parsing it and then emitting it |
| Compiler.Compiler.Operators | elox/lib/compiler.c:539-567 | the loop over infix operators |
| Compiler.Compiler.Unary | elox/lib/compiler.c:624-645 | operand first, then the opcode |
| Compiler.Compiler.Binary | elox/lib/compiler.c:569-622 | right operand one level up, then the opcodes |
| Compiler.Compiler.And | elox/lib/compiler.c:1812-1821 | jump over the right operand, patched behind it |
| Compiler.Compiler.Or | elox/lib/compiler.c:1525-1536 | two jumps, the first patched at once |
| Compiler.Compiler.Variable | elox/lib/compiler.c:1635-1640 | variable reads, assignments and compound assignments, only where assignment is allowed |
| Compiler.Compiler.ResolveLocal | elox/lib/compiler.c:1079-1095 | the innermost variable of that name; an error when it is still being initialized |
| Compiler.Compiler.AddLocal | elox/lib/compiler.c:990-1012 | a new uninitialized local, or an error at 256 |
| Compiler.Compiler.DeclareVariable | elox/lib/compiler.c:1014-1036 | rejects a second variable of the same name in the same scope |
| Compiler.Compiler.EndScope | elox/lib/compiler.c:512-532 | drops the variables of the scope and emits their pops |
| Compiler.Compiler.PatchJump | elox/lib/compiler.c:330-341 | writes the distance into the hole, or reports too much code |
| Compiler.Compiler.EmitLoop | elox/lib/compiler.c:245-255 | a backward jump, or an error when it is too long |
| Compiler.Compiler.PatchBreakJumps | elox/lib/compiler.c:343-357 | patches pending breaks while their depth is at least the loop’s |
| Compiler.Compiler.BreakStatement | elox/lib/compiler.c:2202-2237 | pops down to the loop’s depth, then a jump that stays pending; an error outside loops |
| Compiler.Compiler.ContinueStatement | elox/lib/compiler.c:2239-2266 | pops, then a jump back; an error outside loops |
| Compiler.Compiler.IfStatement | elox/lib/compiler.c:2402-2419 | condition, branches and their two jumps |
| Compiler.Compiler.WhileStatement | elox/lib/compiler.c:2446-2472 | test, body, jump back, exit, pending breaks |
| Compiler.Compiler.ForStatement | elox/lib/compiler.c:2268-2323 | scope, initializer, test, increment clause, body |
| Compiler.Compiler.VarDeclaration | elox/lib/compiler.c:2165-2176 | the initial value is emitted into the variable’s slot; its own name is not readable yet |
| Compiler.Compiler.Block | elox/lib/compiler.c:1072-1077 | declarations up to the closing brace |
| Compiler.Compiler.Declaration | elox/lib/compiler.c:2641-2674 | one declaration, and after an error a resynchronization |
| Compiler.Compiler.MakeConstant | elox/lib/compiler.c:289-303 | adds a constant, or an error when its index needs more than 16 bits |
| Upvalues.FunctionCompiler.ResolveUpvalue | elox/lib/compiler.c:1119-1146 | returns the upvalue of the lexically nearest variable of that name in an enclosing function, marking that variable and no other as captured, or -1 when there is none; upvalues that existed keep their meaning |
| Upvalues.FunctionCompiler.AddUpvalue | elox/lib/compiler.c:1097-1117 | an existing descriptor is reused, otherwise one is added, or an error at 256 |
| Upvalues.FunctionCompiler.EndScope | elox/lib/compiler.c:512-532 | the variables of the scope are dropped, captured ones by closing and runs of others by plain pops |
| Upvalues.ExitShape | elox/lib/compiler.c:512-532 | each operation at the end of a scope drops as many variables as it says, none of them captured unless it closes |
| Upvalues.DenotesSame | elox/lib/compiler.c:1097-1146 | adding captures never changes what an existing upvalue stands for |
| Upvalues.LexicalIsNearest | elox/lib/compiler.c:1119-1146 | a captured name is the last one of that name in the nearest enclosing function that has any |
| Upvalues.OuterMayMark | elox/lib/compiler.c:1119-1146 | marks are never taken back, so code emitted earlier goes on being covered by them |
| Upvalues.ClosureRefersToLexicalVariables | elox/lib/compiler.c:1317-1375 | if the running closure refers to the variables its upvalues stand for, so does one it makes; `ClosureRuns.Interpreter.Sound` carries this through every run |
| Closures.Fiber.CaptureUpvalue | elox/lib/vm.c:1148-1172 | the one open upvalue of a slot, found or inserted so that the list stays sorted from the top of the stack down |
| Closures.Fiber.CloseUpvalues | elox/lib/vm.c:1174-1188 | every captured variable from a slot up keeps its value in its own cell; all others are untouched |
| Closures.Fiber.GetUpvalue | elox/lib/vm.c:2375-2379 | reads the variable’s current value, open or closed |
| Closures.Fiber.SetUpvalue | elox/lib/vm.c:2380-2384 | writes the variable for every closure and slot that shares it |
| Closures.Fiber.SetLocal | elox/lib/vm.c:2345-2350 | a write to a slot is a write to its variable, seen by every closure |
| Closures.Fiber.MakeClosure | elox/lib/vm.c:2695-2721 | a closure whose upvalues refer to the variables its descriptors select; memory is unchanged but for the new slot |
| Closures.Fiber.ReadUpvalue | elox/lib/vm.c:2375-2379 | a running closure reads the value of its captured variable |
| Closures.Fiber.WriteUpvalue | elox/lib/vm.c:2380-2384 | a running closure writes its captured variable |
| Closures.Fiber.CloseTop | elox/lib/vm.c:2722-2725 | the end of a captured variable’s scope drops the slot and keeps the variable |
| Closures.Fiber.LeaveScope | elox/lib/compiler.c:512-532 | the operations that scope exit emits drop exactly the scope’s slots and lose no captured variable |
| Closures.Fiber.Call | elox/lib/vm.c:126-146 | a new frame over the arguments |
| Closures.Fiber.Return | elox/lib/vm.c:2726-2745 | the frame’s slots are dropped, captured ones live on, the result is a new slot on top |
| Closures.Fiber.PlainPopsIff | elox/lib/compiler.c:2213-2220 | dropping slots by plain pops, as break and continue do, keeps every upvalue right if and only if none of those slots is captured |
| Functions.ResolvedStands | elox/lib/compiler.c:1119-1146 | the upvalue that resolution returned stands for the lexically nearest variable of that name in all later code of the function, whatever else the enclosing functions come to capture |
| Functions.FoundInSlot | elox/lib/compiler.c:1079-1095 | a name found among the function’s own variables keeps its slot |
| Functions.LocalsComeAndGo | elox/lib/compiler.c:1097-1146 | which variables of the running function are in scope plays no part in what its upvalues stand for |
| Functions.EscapingClosureIsCompiled | elox/lib/compiler.c:1317-1375 | a script whose closure outlives the call that declared its variable, with the code the compiler gives it, keeps every promise that runs rely on |
| ClosureRuns.ClosureIsMade | elox/lib/vm.c:2695-2721 | a closure made at any point of a compiled function refers to the variables its text names, and captures only variables marked as captured |
| ClosureRuns.UpvalueIsNamed | elox/lib/vm.c:2375-2384 | the cell that an upvalue operand selects is that of the lexically nearest variable of the name |
| ClosureRuns.Interpreter.UnmarkedIsNotCaptured | elox/lib/compiler.c:512-532 | when a scope ends, no variable that compilation left unmarked is captured: what `Closures.Fiber.LeaveScope` asks for |
| ClosureRuns.CallEnters | elox/lib/vm.c:2611-2625 | a call leaves every frame as its next instruction expects it, with no captured slot in the new one |
| ClosureRuns.CallLeaves | elox/lib/vm.c:2726-2745 | so does a return, with the result where the callee’s slots began |
| ClosureRuns.StackOfValues | elox/lib/vm.c:2249-2308 | what the instructions that name no variable do to the values on the stack |
| ClosureRuns.ControlByValues | elox/lib/vm.c:2595-2625 | where jumps, calls and returns go on, by the values on the stack |
| ClosureRuns.Interpreter.Step | elox/lib/vm.c:2184-2937 | one instruction of a compiled program keeps the run invariant and has the effect that its variable names mean, or is a call of something that cannot be called so |
| ClosureRuns.Interpreter.Run | elox/lib/vm.c:2184-2937 | over any number of instructions of a compiled script nothing but a call can fail, and every read of a name, through a slot or an upvalue and however often scopes and calls have ended, gives the value last written to the lexically nearest variable |
| History.LastWriteWins | elox/lib/vm.c:1174-1188 | in the memory that any run leaves behind, a variable holds the value last written to it, also when its slot is gone |
| History.SharedVariable | elox/lib/vm.c:1148-1172 | a value written through one closure or slot is read through every other that refers to the same variable, until it is written again |
| PatternMatcher.MatchState.Match | elox/lib/third-party/pattern.c:274-400 | without an error: the first of the priority-ordered list of successes, with its end and captures, or no match when the list is empty; captures are restored when it fails, the depth counter on every return without an error |
| PatternMatcher.MatchState.MaxExpand | elox/lib/third-party/pattern.c:199-214 | longest repetition first |
| PatternMatcher.MatchState.MinExpand | elox/lib/third-party/pattern.c:216-229 | shortest repetition first |
| PatternMatcher.MatchState.StartCapture | elox/lib/third-party/pattern.c:231-246 | opens a capture and takes it back on failure |
| PatternMatcher.MatchState.EndCapture | elox/lib/third-party/pattern.c:248-260 | closes the innermost open capture and reopens it on failure |
| PatternMatcher.MatchState.MatchCapture | elox/lib/third-party/pattern.c:262-272 | a back-reference matches exactly the text of a closed capture |
| PatternMatcher.MatchState.MatchBalance | elox/lib/third-party/pattern.c:177-195 | the position after the balancing closer, or none; malformed patterns are errors |
| PatternMatcher.MatchState.SingleMatch | elox/lib/third-party/pattern.c:159-175 | whether one item matches one character |
| PatternMatcher.MatchBracketClass | elox/lib/third-party/pattern.c:138-157 | membership in a bracket class with ranges, escapes and complement |
| PatternMatcher.FindClassEnd | elox/lib/third-party/pattern.c:82-106 | where a single-character item ends, or which error its pattern has |
| PatternMatcher.RepetitionCases | elox/lib/third-party/pattern.c:349-395 | the successes of an item with each suffix, whether or not it matches at all |
| PatternExact.SuccessesAreMatches | elox/lib/third-party/pattern.c:274-400 | for every pattern written from its parts, the matcher’s successes are exactly the matches of an independent relation over those parts: repetitions, captures, back-references, balances, frontiers and the end anchor |
| PatternExact.FirstIsAMatch | elox/lib/third-party/pattern.c:274-400 | so what is found is a match, and nothing is found only where nothing matches |
| PatternMeaning.BalanceIff | elox/lib/third-party/pattern.c:177-195 | the counter scan ends at the least position with as many more closers than openers as the depth, and fails if and only if there is none |
| PatternMeaning.BalanceOfOne | elox/lib/third-party/pattern.c:177-195 | with one character for opener and closer it ends behind the first of them |
| PatternMeaning.SetMeans | elox/lib/third-party/pattern.c:138-157 | a bracket set ends at its closing bracket and matches exactly the characters, spans and classes written in it, or exactly the others |
| PatternMeaning.ItemMeans | elox/lib/third-party/pattern.c:159-175 | an item is found where it is written and matches what it says |
| PatternMeaning.ClassesByOctet | elox/lib/third-party/pattern.c:108-135 | each class letter, by the octets in its class; a capital is the complement, anything else itself |
| PatternUse.SuccessesInside | elox/lib/third-party/pattern.c:274-400 | every match ends between its start and the end of the subject, with its captures inside |
| PatternUse.GreedyIsLongest | elox/lib/third-party/pattern.c:199-214 | `*` and `+` take the largest count under which the rest can match |
| PatternUse.LazyIsShortest | elox/lib/third-party/pattern.c:216-229 | `-` takes the smallest such count |
| PatternUse.StartPositionMeans | elox/lib/third-party/pattern.c:403-410 | a negative start counts back from the end, but not beyond the front |
| PatternUse.UpcomingMeans | elox/lib/third-party/pattern.c:744-792 | iteration yields the first success at each leftmost place, looks on behind it, a character further if it is empty, and leaves nothing out |
| PatternUse.FindMatch | elox/lib/third-party/pattern.c:478-561 | the leftmost position with a match and the first success there, or none, or the error met first |
| PatternUse.GmatchIterator.GetNext | elox/lib/third-party/pattern.c:744-792 | the next match from the offset on; an empty one moves on by one character |
| PatternUse.GmatchIterator.HasNext | elox/lib/third-party/pattern.c:794-819 | looking ahead consumes nothing |
| PatternUse.GmatchIterator.Next | elox/lib/third-party/pattern.c:821-857 | hands out the matches one by one, in order, and then fails |
| Substitution.Gsub | elox/lib/third-party/pattern.c:653-737 | the result is the rendering of the plan of matched and copied pieces, or the first error |
| Substitution.PlanTilesSubject | elox/lib/third-party/pattern.c:653-737 | matched and copied pieces partition the subject in order, also with empty matches and a limit |
| Templates.PlanIsFaithful | elox/lib/third-party/pattern.c:653-737 | each replaced piece is the first success at its place and not one too many; a character is copied only where nothing matches or behind an empty match; it fails only with the error of a place it looks at |
| Substitution.SubstitutionConserves | elox/lib/third-party/pattern.c:653-737 | replacing every match by `%0` gives the subject back |
| Substitution.TilesRenderIdentity | elox/lib/third-party/pattern.c:589-615 | pieces that tile the subject render to it when each match stands for itself |
| Templates.TemplateIs | elox/lib/third-party/pattern.c:589-615 | a template means the texts of its parts in order, `%1` to `%9` the first to the ninth capture, or the error of the first part that has one; `%` before anything else is an error |
| Templates.DecimalSpells | elox/lib/third-party/pattern.c:578-588 | a position is inserted in decimal digits without leading zeros |
| Substitution.AddExpansion | elox/lib/third-party/pattern.c:589-615 | a template expands to its text with captures inserted, or to the error it has |
| Substitution.CaptureTextMeans | elox/lib/third-party/pattern.c:412-433 | a closed capture’s text is what it spans, up to the end of the match; a position capture is a number; capture 0 of a pattern without captures is the whole match; it fails exactly for a capture that does not exist or is still open |
| Gc.Vm.CollectGarbage | elox/lib/memory.c:376-396 | keeps exactly the objects reachable without passing through a permanent one, in list order, frees every other, and clears all marks; what is a root, or is held in a field of a kept object, is kept; the heap stays well formed, so the same holds of the next collection |
| Gc.Vm.MarkObject | elox/lib/memory.c:41-81 | turns one white object gray; marked objects and permanent ones are left; when the gray stack cannot grow the overflow is noted and nothing is lost |
| Gc.Vm.Blacken | elox/lib/memory.c:93-204 | marks every object a gray one refers to |
| Gc.Vm.FastTrace | elox/lib/memory.c:331-351 | empties the gray stack, or stops with an overflow noted |
| Gc.Vm.SlowTraceReferences | elox/lib/memory.c:313-329 | scans the whole heap until no object is gray |
| Gc.Vm.TraceReferences | elox/lib/memory.c:331-351 | however the stack overflows, tracing ends with no gray object |
| Gc.Vm.MarkedIsReachable | elox/lib/memory.c:331-351 | with no gray object left the marked objects are exactly the reachable ones |
| Gc.Vm.Sweep | elox/lib/memory.c:353-374 | unlinks exactly the unmarked objects and clears the marks of the others |
| Gc.Vm.AllocateObject | elox/lib/object.c:15-32 | the new object heads its list, white in the main heap and black in the permanent heap |
| Gc.Vm.Store | elox/lib/vm.c:811-820 | a program step that changes an object’s references keeps the heap well formed |
| Gc.FilterDistinct | elox/lib/memory.c:353-374 | sweeping keeps the wanted objects once each, in their order |
| GcHeap.EdgesAreHeld | elox/lib/memory.c:93-204 | for every kind of object, blackening follows exactly the references in its fields: live map entries, elements, table keys and values, constants, default arguments, upvalues, and so on |
| GcHeap.SuperclassIsNotHeld | elox/lib/memory.c:133-143 | a class does not keep its superclass alive |
| GcHeap.ReachableIsLeast | elox/lib/memory.c:331-351 | what is reachable is the least set that has the roots and whatever a field of a member holds |
| GcHeap.ClosedHoldsReached | elox/lib/memory.c:41-81 | a set with the roots that is closed under references holds everything reachable |
| GcHeap.BarrierHides | elox/lib/state.c:25-29 | an object held only through a permanent one is not reachable for the collector |
| GcHeap.BarriersHarmlessIff | elox/lib/state.c:25-29 | barriers lose nothing if and only if each main object a reachable permanent object refers to is also reachable without it |
| OpenTable.Table.FindEntry | elox/include/elox/table.h:32-47 | probing ends at the key or at the first empty slot after its home |
| OpenTable.Table.Get | elox/include/elox/table.h:49-59 | the value bound to the key, if any |
| OpenTable.Table.Set | elox/lib/table.c:84-99 | binds the key, doubles first when more than three quarters would be taken, says whether the key is new |
| OpenTable.Table.SetIfMissing | elox/lib/table.c:101-118 | binds only an absent key and returns the value bound afterwards |
| OpenTable.Table.AdjustCapacity | elox/lib/table.c:52-82 | growth keeps the map and the count |
| OpenTable.Table.Delete | elox/lib/table.c:123-147 | unbinds the key and no other |
| OpenTable.Table.ShiftBack | elox/lib/table.c:123-147 | backward shifting with wraparound leaves no hole in any probe path and moves no key to an earlier part of the walk |
| OpenTable.Table.RemoveWhite | elox/lib/table.c:202-208 | every marked key stays with its value, no key is added, the slots are exactly those of the sweeping function, no more white keys survive than keys were removed, and no white key survives whenever no slot is refilled with one, which is always so if no white key lies on the probe path of another |
| WeakSweep.SweptIff | elox/lib/table.c:202-208 | when no run of entries wraps past the end of the array, all white keys go if and only if at every visited slot that holds one, the first later entry whose path crosses it is not white |
| WeakSweep.ClearPathsSuffice | elox/lib/table.c:202-208 | in every table, all white keys go if none lies on the probe path of another |
| WeakSweep.CleanSweepDeletesAll | elox/lib/table.c:202-208 | in every table, wrapped or not, the condition at each visited slot is enough |
| WeakSweep.WrappedWhiteIsCaught | elox/lib/table.c:202-208 | it is not necessary in a wrapped table: a key moved behind the sweep across the end of the array is met again |
| WeakSweep.WhiteKeyCanSurvive | elox/lib/table.c:202-208 | two white keys with one home: the second one survives the sweep |
| Probing.ProbeEndDecides | elox/include/elox/table.h:32-47 | the key is bound if and only if probing stops on it |
| Probing.InsertAtProbeEnd | elox/lib/table.c:84-99 | writing at the probe end binds the key and breaks no probe path |
| Probing.MoveIntoHole | elox/lib/table.c:138-145 | an entry whose path crosses the hole can be moved into it |
| Probing.KeepInPlace | elox/lib/table.c:138-145 | an entry whose path avoids the hole can stay |
| Probing.ShiftingEnds | elox/lib/table.c:129-136 | at the first empty slot the hole can be blanked |
| Probing.SomeSlotIsEmpty | elox/lib/table.c:84-99 | below full load some slot is empty, so probing ends |
| Probing.GrownSize | elox/lib/table.c:52-82 | doubling keeps a power of two, in step with the shift |
| HashIndex.IndexInRange | elox/include/elox/table.h:28-30 | the multiplicative hash always lands in the table |
| HashIndex.IndexVectors | elox/include/elox/table.h:28-30 | literal products with the golden ratio and their top bits |
| Interning.HashVectors | elox/include/elox/object.h:285-292 | the published FNV-1a hashes of three strings |
| Interning.HashString | elox/include/elox/object.h:285-292 | the 32-bit FNV-1a hash of the bytes |
| Interning.Interner.FindString | elox/lib/table.c:160-179 | lookup by content finds the one stored string with these bytes |
| Interning.Interner.Intern | elox/lib/object.c:340-395 | two strings returned are the same object if and only if their bytes are equal |
| Interning.Interner.RemoveUnmarked | elox/lib/table.c:202-208 | after the weak pass of a collection the marked strings are still canonical, and when no slot is refilled with an unmarked string, which is always so if none lies on the probe path of another, only marked ones are left: the table then holds exactly the strings that have not been freed |
| Interning.EmptySlotMeansAbsent | elox/lib/table.c:160-179 | an empty slot on the way proves that no stored string has these bytes |
| ValueTable.ValueTable.Lookup | elox/lib/ValueTable.c:30-48 | the live entry of the key, or -1 |
| ValueTable.ValueTable.Get | elox/lib/ValueTable.c:50-65 | the value of the key, if it is bound |
| ValueTable.ValueTable.Contains | elox/lib/ValueTable.c:67-77 | whether the key is bound |
| ValueTable.ValueTable.GetNext | elox/lib/ValueTable.c:79-92 | the first pair from a position on, in insertion order |
| ValueTable.ValueTable.Set | elox/lib/ValueTable.c:185-223 | an update keeps the key’s position, a new key goes last; the change counter moves exactly for new keys |
| ValueTable.ValueTable.Delete | elox/lib/ValueTable.c:225-243 | removes the pair and keeps the order of the others; the change counter moves exactly when it was there |
| ValueTable.ValueTable.Rehash | elox/lib/ValueTable.c:94-183 | keeps the ordered contents and leaves a free entry for the pending insertion; the arrays double exactly when three quarters of the entries are live |
| ValueTable.ValueTable.RehashInPlace | elox/lib/ValueTable.c:104-124 | squeezing out the deleted entries keeps the ordered contents and rebuilds every chain |
| ValueTable.ValueTable.Grow | elox/lib/ValueTable.c:125-173 | moving to larger arrays keeps the ordered contents |
| ValueTable.UpdateKeepsPosition | elox/lib/ValueTable.c:185-223 | binding a bound key gives it the new value in its place and changes no other; binding another adds it at the end |
| ValueTable.RemovalKeepsOthers | elox/lib/ValueTable.c:225-243 | removing a key takes its pair away and no other, and keeps their order |
| ValueTable.ReinsertedGoesLast | elox/lib/ValueTable.c:185-243 | a key removed and bound again is last |
| ValueTable.LiveKeysDistinct | elox/lib/ValueTable.c:185-223 | the contents never list a key twice |
| ValueTable.HashMapIterator.HasNext | elox/lib/builtins.c:265-279 | whether a pair is still to come |
| ValueTable.HashMapIterator.Next | elox/lib/builtins.c:281-311 | the next pair in insertion order, or failure when the change counter has moved |
| ValueTable.Pairs | elox/lib/builtins.c:265-361 | iterating over an unchanged map yields every live pair once, in insertion order |
| Subtypes.InstanceOf | elox/lib/vm.c:822-837 | true if and only if the type is the class, an ancestor, or an interface implemented by the class or an ancestor; the cache stays sound |
| Subtypes.Inherit | elox/lib/vm.c:425-545 | the new class knows exactly its ancestors in the display and its other supertypes in the list; raises if and only if a parent is of the wrong kind |
| Subtypes.CopyDisplay | elox/lib/vm.c:467-479 | the display of the superclass with the class added while there is room; at depth 9 the superclass’s cache comes along and is still sound |
| Subtypes.Hierarchy.IsA | elox/lib/vm.c:822-837 | exact in every hierarchy that definitions and earlier queries can reach |
| Subtypes.Hierarchy.DefineClass | elox/lib/builtins.c:497-573 | a defined class joins the hierarchy and leaves all others as they were |
| Subtypes.Hierarchy.DefineInterface | elox/lib/object.c:61-69 | an interface is always looked up through the list |
| Subtypes.Hierarchy.DefineRoot | elox/lib/builtins.c:569-573 | a class without a superclass is its own display entry 0 |
| Subtypes.SubtypeIsDeclared | elox/lib/vm.c:822-837 | the subtype relation is what a class and the superclasses above it declare |
| Subtypes.ClassSupertypesAreAncestors | elox/lib/vm.c:822-837 | a class is a supertype if and only if it is the ancestor at its depth |
| Subtypes.RestrictedSupertypes | elox/lib/vm.c:480-540 | the supertypes that need the list, from those of the superclass |
| Utf8.EncodedDecodes | elox/lib/scanner.c:374-402 | encoding a scalar value and decoding gives it back, whatever follows (RFC 3629 section 3) |
| Utf8.DecodedEncodes | elox/include/elox/third-party/utf8decoder.h:27-58 | every UTF-8 character of RFC 3629 section 4 is the encoding of its scalar value |
| Utf8.EncodingExamples | elox/lib/scanner.c:374-402 | the octets of examples of RFC 3629 section 7 |
| Utf8.EncodesToUtf8Iff | elox/lib/scanner.c:374-402 | a code point encodes to valid UTF-8 if and only if it is not a surrogate |
| Utf8.DecoderStep | elox/include/elox/third-party/utf8decoder.h:27-58 | the automaton accepts exactly at the end of a valid character with its value, and rejects only where there is none |
| Utf8.LeadStep | elox/include/elox/third-party/utf8decoder.h:27-58 | the first byte of a character |
| Utf8.SecondStep | elox/include/elox/third-party/utf8decoder.h:27-58 | the second byte, with the restrictions against overlong forms, surrogates and values beyond 10FFFF |
| Utf8.TailStep | elox/include/elox/third-party/utf8decoder.h:27-58 | the later bytes |
| Scanner.Scanner.Utf8Advance | elox/lib/scanner.c:44-63 | reads one valid character, or reports that there is none |
| Scanner.Scanner.OutputUtf8 | elox/lib/scanner.c:374-402 | writes the octets of a code point and nothing else; refuses values beyond 10FFFF |
| Scanner.Scanner.ScanString | elox/lib/scanner.c:404-511 | the token is the delimiter, the unescaped text and the delimiter, or the error that the text has; only bytes already read are overwritten |
| Scanner.Scanner.Round | elox/lib/scanner.c:404-511 | after each character what is written is what has been read, and the write cursor is not ahead of the read cursor |
| Scanner.LiteralsRoundTrip | elox/lib/scanner.c:404-511 | for every text and every way to write it (as is, by letter escapes or by four digits) the literal scans to exactly the text’s UTF-8 bytes |
| Escapes.EscapesByOctet | elox/lib/scanner.c:443-473 | `\n`, `\r` and `\t` stand for the octets 0A, 0D and 09, quotes and backslash for themselves, and every other letter but `u` is an error |
| Escapes.FourDigitsByOctet | elox/lib/scanner.c:477-494 | a Unicode escape stands for the number its four digits spell in base 16 |
| Escapes.HexDigitsByIndex | elox/lib/scanner.c:477-494 | a hexadecimal digit is its index in the digits, in either case |
| Escapes.OnlyHexDigits | elox/lib/scanner.c:477-494 | there are no other digits |
| Scanner.EscapeWrites | elox/lib/scanner.c:404-511 | every text without a NUL can be written in either kind of quotes |
| Scanner.ScansIffSpelled | elox/lib/scanner.c:404-511 | a literal scans to a text if and only if it is spelled from legal pieces that mean that text |
| Scanner.MeaningIsUtf8Iff | elox/lib/scanner.c:404-511 | the text of a literal is valid UTF-8 if and only if every code point it spells, escaped or not, is a scalar value |
| Scanner.EscapedSurrogate | elox/lib/scanner.c:404-511 | the literal that escapes D800 scans to a text that is not UTF-8 |
| Scanner.SpellingsScan | elox/lib/scanner.c:404-511 | every sequence of legal pieces scans to its meaning, whatever follows |
| Scanner.HexDigitsScan | elox/lib/scanner.c:477-494 | a Unicode escape is read if and only if four hexadecimal digits follow |
| Search.Memmem | elox/lib/string/string.c:207-235 | the first occurrence or none; an empty needle is never found |
| Search.MemFind | elox/lib/third-party/pattern.c:456-476 | the first occurrence or none; an empty needle occurs at the start |
| Search.FirstIsUnique | elox/lib/string/string.c:207-235 | so on every other needle the two searches agree |

## Left out

- Compiler.Compiler.Compile: models scripts of literals, operators, locals, blocks, `if`, `while`, `for`, `break` and `continue`; strings, calls, globals, `foreach`, `try`, functions, classes and imports are not part of this language, and a name that is not a local, or a call, is an error in the model.
- Compiler.Compiler.Synchronize: only the tokens of this language are looked for after an error; nothing is emitted from then on either way.
- Programs.Interpret: says nothing about the run of a script that is not break-safe; for those `Astray.ScriptEmitsIff` says that the code is not the structured one.
- Machine.Fiber.Run: stops after a given number of instructions; what holds of runs without a limit is said by `Simulation.EndsInIff` and `Simulation.StopsIff`.
- Values.NegatedComparisonIsOrderIff: `Values.Numeric` gives `>=` and `<=` the meaning their code has; this lemma says when that is the usual order.
- Values.ValuesEqual: `==` as built by default. Built with NaN boxing, `valuesEquals` (`elox/lib/value.c:163-188`) has no case for nil and booleans, so that `nil == nil` is false.
- PatternMeaning.PatternOk: patterns are written from parts; a `-` inside a set is written as a span or an escape, and a `$` that is not the last character as an escape.
- The scanner in front of the compiler is a sequence of tokens; numbers, identifiers, comments, lines, raw strings and f-strings are not modelled.
- Machine.Fiber.Execute: numbers are exact reals with infinities and NaN, so rounding, NaN boxing and the sign of zero are not modelled (`1 / -0` is positive infinity here and negative infinity in C); `+` on strings and method lookup for other operands are runtime errors; opcodes of the rest of the language are not executed. Pushing does not check for overflow, so the caller provides room on the stack array.
- Closures.Fiber.Call: frames have no varargs and as many arguments as parameters; `OP_CLOSURE` reads `slots + index`, which is only the local's slot without varargs. The number of frames and the size of the stack are not limited.
- ClosureRuns.Interpreter.Run: break and continue are not among its instructions, because they emit plain pops; when those are right is `Closures.Fiber.PlainPopsIff`. A function without upvalues, which the source leaves a plain function value, is a closure with none. Globals, arithmetic and native functions are left out, and nil is the only false value.
- Functions.Compiled: states what the compiler promises of emitted code; `Functions.ResolvedStands`, `Upvalues.FunctionCompiler.ResolveUpvalue` and `EndScope` prove its parts, but no compiler from source text to this code is modelled.
- Compiler.Compiler.Variable: a name is a local or an error; upvalues are in `Upvalues`, globals and builtins are left out.
- Compiler.Compiler.BreakStatement: scripts have no exception handlers, so the unrolling of handlers and the error in a finally block are left out.
- Compiler.Compiler.ContinueStatement: likewise.
- Compiler.Compiler.Declaration: only declarations of locals and statements.
- PatternMatcher.MatchState.Match: the depth limit is a parameter; beyond it the source raises an error, and nothing is claimed then about the match.
- PatternUse.GmatchIterator.GetNext: the source (`elox/lib/third-party/pattern.c:766-789`) looks at a raised error only when the matcher returned a position; an error at an earlier start runs into the depth test of the next round, so another message may be raised. The model reports the first error at once.
- Substitution.Gsub: replacements are strings; callable replacements are left out.
- Gc.Vm.CollectGarbage: roots are a given list; freeing, byte accounting and temporary roots are left out, and a collection does not start in the middle of an allocation. The weak pass over `vm->strings` between tracing and sweeping (`elox/lib/memory.c:387`) is not part of it; it is `Interning.Interner.RemoveUnmarked`.
- Gc.Vm.MarkObject: permanent objects are born black, so marking stops at them; when that is harmless is `GcHeap.BarriersHarmlessIff`. Whether eLox's own permanent objects meet the condition is not modelled.
- OpenTable.Table.RemoveWhite: does not promise that every white key is removed, because a deletion may refill the slot just visited (`WeakSweep.WhiteKeyCanSurvive`); when all are removed is `WeakSweep.SweptIff` for tables without wrapped runs and, as a sufficient condition for all tables, `WeakSweep.CleanSweepDeletesAll`. Which white keys survive is given by the function `WeakSweep.Swept`.
- OpenTable.Table.Set: the table stays below 2^30 slots; allocation does not fail.
- ValueTable.ValueTable.RehashInPlace: the loop at `elox/lib/ValueTable.c:109` increments `table` where the index is clearly meant (`elox/lib/StringTable.c:87` likewise); the model increments the index.
- ValueTable.ValueTable.Lookup: hash codes and equality of keys are abstract and consistent with each other; user-defined `hashCode` and `equals`, which may fail, are left out.
- ValueTable.HashMapIterator.Next: the change counter is 32 bits wide, so 2^32 changes between two steps go unnoticed; it fails exactly when the counters differ.
- Subtypes.Inherit: superclasses have depth 8 at most, because the display copy has no room for more, and at most 256 supertypes in the list, which the source does not check. Fields, methods and member slots are left out, and with them the errors for shadowed fields and mismatched method prototypes.
- Subtypes.Hierarchy.DefineRoot: gives the root offset 0, which the source means but never assigns.
- Scanner.Scanner.ScanString: ordinary string literals; braces of f-strings are left out. An escaped surrogate or NUL is kept as the source keeps it; when the text is valid UTF-8 is `Scanner.MeaningIsUtf8Iff`.
- Search.Memmem: the version for compilers other than GCC and Clang, which use the C library's.
- try/catch/finally, varargs adjustment, slices, array growth, I/O, modules and native code, out-of-memory errors other than a gray stack that cannot grow, the call-frame list and the handle list: plumbing, or not determined by the code modelled here.
