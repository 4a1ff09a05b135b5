# A verified model of PiScript

PiScript is a small dynamically typed language with a single-pass bytecode compiler and a
stack machine, written in C. This project models its parts in Dafny and proves them correct.
`dafny verify dfyconfig.toml` checks everything.

**Compiler and machine.** `Syntax` has the trees and their token strings, `Parser` the order in
which the single pass reads tokens, `Codegen` the bytes and tables of a tree, `Bytecode` the
encoding, `Machine` the instructions as functions, and `Interpreter` what programs mean: a tree
interpreter with named, nested scopes. `Compiler` is the single pass itself, which reads tokens,
appends bytes and patches jumps in place, and `Dispatch` is the dispatch loop over its stack
array; both are classes that are proved against the functions. `ExprCorrect`, `StmtCorrect` and
`Script` prove that compiled code means what the tree means, `StackSafety` that its jumps and
stack heights are right on every path, and `Interpret` puts everything together. `Laws` says in
plain terms what programs mean, `Precedence` how operators bind, `Acceptance` when code compiles,
and `Parens` states the precedence parser for arbitrary trees. `Narrowing`, `WideGlobals` and
`ConstMarks` say exactly when two surprises of the compiler matter, and `GlobalConsts` which
globals are constant. The fragment has literals, variables, assignment, all unary, binary and
logical operators, grouping, `print`, `var`, `const`, blocks, `if`, `while` and `for`.

**Heap.** `Heap` has the objects. `Tables` is the open-addressing hash table with tombstones,
proved against finite maps by the facts in `Probing` and `Bits`; `Collector` is the mark-sweep
collector over the linked list of objects, with reachability defined in `Reachability`;
`Interning` is string interning on top of both, collections included. `Inheritance` copies method
tables.

**Scopes and closures.** `AddressTable` is the hash index with its chain of shadowed addresses.
`Closures` is the machine with its sorted list of open upvalues, proved over whole runs against
`Boxes`, where every variable is a box; `ClosureHeap` has the objects of both, and `Sharing` says
what such runs do to the values on the stack. `UpvalueResolution` is the compiler's side of
captured variables.

**Text and lines.** `Scanner` is the scanner, `Chunks` the code buffer with its run-length line
table.

## What the code does, where it may surprise

- `OP_SET_GLOBAL_LONG` keeps one byte of its three-byte operand, so the assignment of a global
  with an address above 255 goes to another global (`WideGlobals.MainTheoremNeedsWidth`). The
  generated tables carry a flag, `narrowed`, for code in which some operand does not fit the width
  that is read; the correctness theorem asks for it to be unset, and `Narrowing.SmallScriptFits`
  gives a bound under which it is. That nothing undefined happens is proved without the flag.
- `addresstableAdd` returns the address of the shadowed local, and `defineVariable` sets the mark of
  the local at that address. So whether a local may be assigned is decided by the last declaration
  that shadows it, also after that is out of scope (`ConstMarks.AssignableExact`):
  `{ const a; { var a; } a = nil; }` compiles, and `{ var a; { const a; } a = nil; }` does not
  (`ConstMarks.SecondDeclarationDecides`).
- The index of a captured local is kept in one byte, so a function can capture another local than
  the one that it names (`UpvalueResolution.WideCapture`).
- A runtime error empties the value stack but keeps the globals, as `Dispatch` has it.

## Model

| member | source | states |
|---|---|---|
| Interpret.Interpret | src/vm.c:804-817 | For every token string: a compile error exactly when it does not compile; otherwise the tokens are those of a well-formed program and the run in place is the run of the compiled chunk, given room for the heights of its code; and if no operand is narrowed and the run ends (fails), the program ends (fails) with the same printed values and the same globals |
| Script.CompilerCorrect | src/compiler.c:1198-1215 | For every token string that compiles with no narrowed operand: it is the token string of a program, the machine halts (crashes) exactly when the tree interpreter ends (fails), with equal output and globals and an empty stack, and never does anything undefined |
| Script.ScriptRuns | src/vm.c:317-794 | With any amount of fuel the interpreter and the machine stay together; when the interpreter runs out of fuel the machine has made at least as many steps, so divergence is preserved |
| Script.StopsAsMeant | src/vm.c:317-794 | A run that has stopped after k steps stopped as the interpreter does |
| ExprCorrect.ExprRuns | src/vm.c:337-794 | Running the bytes of any expression from a state that mirrors a world evaluates the expression: its value on top, the slots of the locals and everything else below unchanged, side effects on locals and globals mirrored, or the runtime error of the expression |
| ExprCorrect.AndRuns | src/compiler.c:851-860 | `and` skips its right operand when the left one is falsey and keeps the deciding value |
| ExprCorrect.OrRuns | src/compiler.c:466-477 | `or` with its two jumps skips its right operand when the left one is truthy and keeps the deciding value |
| ExprCorrect.AssignRuns | src/compiler.c:495-533 | An assignment stores into the variable that the name means, leaves the value, and fails for a global that is not defined |
| ExprCorrect.BinaryRuns | src/compiler.c:337-378 | Operands left to right, then the operator on them in that order, or its runtime error |
| ExprCorrect.LocalFound | src/compiler.c:708-721 | The slot that a name resolves to holds the variable of the innermost scope that has the name |
| StmtCorrect.StmtRuns | src/compiler.c:1159-1178 | Running the bytes of any statement executes it, and leaves exactly the live locals on the stack |
| StmtCorrect.IfRuns | src/compiler.c:1052-1070 | Exactly one branch runs, and both paths meet behind the statement |
| StmtCorrect.Rounds | src/compiler.c:1005-1050 | A loop, with or without test and increment, runs round for round like the loop of the interpreter, also without end |
| StmtCorrect.BlockRuns | src/compiler.c:301-322 | Leaving a block pops exactly the locals that were declared in it |
| StmtCorrect.LocalVarRuns | src/compiler.c:982-995 | The value of the initializer becomes the slot of the new local, which is not visible in its own initializer |
| StmtCorrect.GlobalVarRuns | src/compiler.c:822-833 | A global definition grows the table of globals and defines just that name |
| Laws.IfCode | src/vm.c:215-218 | Running the code of an `if` takes its else path exactly when the test is nil or false |
| Laws.WhileCode | src/vm.c:215-218 | Running the code of a `while` ends it exactly when the test is nil or false |
| Laws.AndCode | src/vm.c:215-218 | The code of `and` keeps the left value exactly when it is nil or false |
| Laws.OrCode | src/vm.c:215-218 | The code of `or` goes on to the right operand exactly when the left one is nil or false |
| Laws.NotCode | src/vm.c:215-218 | The code of `!` gives true exactly for nil and false |
| Laws.BranchTruth | src/vm.c:391-407 | The conditional jump leaves the value and jumps on nil and false alone |
| Laws.EqualTruth | src/vm.c:766-770 | OP_EQUAL: strings are equal when their characters are, numbers as the floating point unit says, other values only to themselves, and values of different kinds never |
| Laws.EqualityLaw | src/values/value.c:74-92 | `==` and `!=` on all pairs of values |
| Laws.NumberLaws | src/vm.c:357-388 | Each operator on numbers, with the operand that was evaluated first on the left |
| Laws.OtherLaws | src/vm.c:219-237 | Strings are put together in order, and every other operator on anything but numbers is an error |
| Laws.DeclareThenRead | src/vm.c:612-628 | A declared variable reads as its value, and no other name changes |
| Laws.WriteThenRead | src/vm.c:645-653 | An assigned variable reads as its value, no other name changes, and exactly what can be read can be assigned |
| Laws.VariableLaws | src/vm.c:629-653 | Reading or assigning an undefined name is an error, the latter after its value has been computed |
| Laws.ForIsWhile | src/compiler.c:1005-1050 | A `for` with just a test is that `while` in a scope of its own |
| StackSafety.ScriptSafe | src/compiler.c:166-230 | In the code of every script that compiles, each instruction has one known stack height, finds its operands, and every jump and loop lands on an instruction with the right height; every position with a height is the start of the code or the end of another instruction, and its height is at most one more than the position |
| StackSafety.NeverStuck | src/vm.c:317-794 | Running code that compiled without error never does anything undefined, for any number of steps and whether or not an operand was narrowed |
| StackSafety.ExprSafe | src/compiler.c:655-676 | An expression leaves one value more than it found on every path, taken or not |
| StackSafety.StmtSafe | src/compiler.c:1159-1178 | A statement keeps the height at the number of locals on every path |
| StackSafety.LoopAround | src/compiler.c:1005-1050 | The forward and backward jumps of a loop connect its parts at equal heights |
| StackSafety.StaysOnTrack | src/vm.c:317-794 | The stack of a running machine always has the statically known height |
| StackSafety.StaysInRoom | src/vm.c:48-53 | A stack above the largest of these heights has room in every state of every run |
| StackSafety.CodeSizeIsRoom | src/vm.c:48-53 | A stack with more slots than the code has bytes is such a stack |
| Narrowing.WideStoreExact | src/vm.c:654-663 | The compiled assignment of a global assigns it, or is a runtime error if it is not defined, for every value, exactly when its address is at most 255 or neither it nor the global at the low byte of its address is defined |
| WideGlobals.WideAssignmentStrays | src/vm.c:654-663 | The script `x = b;` with x at an address above 255 compiles, and running it leaves x alone and assigns the global at the low byte of the address, or fails if that is not defined |
| WideGlobals.WideAssignmentExact | src/vm.c:654-663 | That script keeps the meaning that the main theorem promises, for both values of b, exactly when the address is at most 255 or neither global is defined |
| WideGlobals.MainTheoremNeedsWidth | src/vm.c:654-663 | With 257 globals a, aa, aaa, ... the assignment of the last one assigns the first, so the main theorem is false of it |
| Narrowing.SmallScriptFits | src/compiler.c:204-219 | A script with at most 256 global names, and constants and declarations below the 24-bit limit, has no narrowed operand, so that the correctness theorem applies |
| ConstMarks.ConstMarkExact | src/compiler.c:814-833 | A declared local is marked as it was declared exactly when it is no constant or shadows nothing; otherwise the shadowed local gets the mark |
| ConstMarks.AssignableExact | src/compiler.c:518-526 | At every later point of its scope at which the name still means it, a local may be assigned exactly when the last declaration on the way that shadows it is no constant or, if there is none, when it was declared no constant or shadows another local itself |
| ConstMarks.StmtMarks | src/compiler.c:822-828 | For every statement and every local from before it, the mark of the local and whether its name is hidden are what the declarations in the text say |
| ConstMarks.AssignableInInitializer | src/compiler.c:518-526 | The same in the initializer of another local |
| ConstMarks.SecondDeclarationDecides | src/compiler.c:814-833 | { D1 x; { D2 x; } x = nil; } compiles exactly when D2 is `var`, whatever D1 is: a constant is assigned, and a variable cannot be |
| GlobalConsts.GlobalAssignableExact | src/compiler.c:518-526 | At every point of a script, from any table, where no local hides the name: an assignment to a global compiles exactly when its right-hand side does and the last declaration of the name outside of all blocks was `var` or, if there is none, the table did not mark it |
| GlobalConsts.StmtAgrees | src/compiler.c:822-833 | For every statement, the mark of every global and whether a local hides it are what the declarations in the text say |
| GlobalConsts.GlobalAssignableInInitializer | src/compiler.c:518-526 | The same in the initializer of a local or of a global |
| GlobalConsts.ExprKeepsMarks | src/compiler.c:690-706 | Expressions mark nothing, and leave every global its address |
| GlobalConsts.DeclarationDecides | src/compiler.c:518-526 | D x; x = nil; compiles exactly when D is `var`, whatever the table said before |
| Acceptance.LeavesAccepted | src/compiler.c:495-533 | Literals compile, and a name unless it is read in its own initializer |
| Acceptance.LogicAccepted | src/compiler.c:851-860 | `and` and `or` compile exactly when their operands do and the right one is no longer than 65534 bytes |
| Acceptance.DeclarationAccepted | src/compiler.c:784-800 | A local declaration compiles exactly when its scope does not have the name and its initializer compiles; a global one when its initializer does |
| Acceptance.IfAccepted | src/compiler.c:1052-1070 | An `if` compiles exactly when its parts do and both distances fit 16 bits |
| Acceptance.LoopAccepted | src/compiler.c:1005-1050 | A loop compiles exactly when its parts do and its up to four distances fit 16 bits |
| Acceptance.SequenceAccepted | src/compiler.c:872-879 | Statements compile exactly when each does, one after the other |
| Parser.ProgramInvertsSpelling | src/compiler.c:1141-1178 | Recognition accepts exactly the token strings of well-formed programs and gives back the tree that was spelt |
| Parser.ProgramSound | src/compiler.c:1198-1215 | No token is dropped or reordered: an accepted token string is that of its tree |
| Parser.ExprSound | src/compiler.c:655-676 | Precedence climbing returns a tree of the grammar (binary operators nest left, `and` and `or` right) whose tokens are exactly those consumed, and stops only at an operator that binds less |
| Parser.ExprComplete | src/compiler.c:655-676 | Every tree of the grammar is read back from its tokens at every precedence that admits it |
| Parser.StatementComplete | src/compiler.c:1159-1178 | Every statement tree is read back, with `else` going to the nearest `if` |
| Precedence.TwoOperators | src/compiler.c:605-653 | For all operators t, u and operands a, b, c, the tokens a t b u c are a t (b u c) exactly when u binds tighter or both are `and` or both `or`, and else (a t b) u c; products bind tighter than sums, then comparisons, equalities, `and`, `or` |
| Precedence.PrefixBindsTightest | src/compiler.c:589-603 | Minus and `!` in front take just the operand behind them, whatever operator follows |
| Precedence.AssignmentBindsLoosest | src/compiler.c:655-676 | An assignment takes the whole operator expression behind it |
| Precedence.NoAssignmentBehind | src/compiler.c:655-676 | An assignment behind an operator is an error |
| Parens.WrittenIsRead | src/compiler.c:450-455 | Any expression tree, written with parentheses where needed, is read back to its last token at assignment precedence and compiles to the code of the tree |
| Parens.NothingNeeded | src/compiler.c:605-653 | A tree that the grammar can write gets no parentheses |
| Parens.GroupedMeaning | src/compiler.c:450-455 | The added parentheses do not change the meaning |
| Compiler.Compiler.constructor | src/compiler.c:232-278 | A compiler for a script, whose slot 0 is taken by the script itself |
| Compiler.Compiler.Compile | src/compiler.c:1198-1215 | The single pass returns exactly the bytes, constants and tables of recognising the tree and generating its code, and NULL exactly when that is rejected |
| Compiler.Compiler.ParsePrecedence | src/compiler.c:655-676 | Prefix rule, then infix rules while they bind tightly enough, appending code as it goes, equals parsing and then generating; an assignment to something else is an error |
| Compiler.Compiler.Prefix | src/compiler.c:605-653 | For the fragment: a literal pushes its constant, a name is read or (only where allowed) assigned, parentheses emit nothing of their own, a sign or `!` is emitted after its operand; the tokens of that form are consumed and at least one; any other token is an error |
| Compiler.Compiler.Infix | src/compiler.c:605-653 | For the fragment: the right operand is parsed one level above a binary operator but at the own level of `and` and `or`, and the operator or its jumps are emitted around it; any other token is an error |
| Compiler.Compiler.And_ | src/compiler.c:851-860 | The placeholder is patched to the distance of the code behind it |
| Compiler.Compiler.Or_ | src/compiler.c:466-477 | Both placeholders are patched to the right distances |
| Compiler.Compiler.NamedVariable | src/compiler.c:495-533 | Local, else global; reading, or assigning if the name may be assigned |
| Compiler.Compiler.EmitJump | src/compiler.c:179-186 | Leaves a two-byte placeholder and says where it is |
| Compiler.Compiler.PatchJump | src/compiler.c:221-230 | Writes the distance to here into the placeholder; an error exactly when it does not fit 16 bits |
| Compiler.Compiler.EmitLoop | src/compiler.c:166-176 | A jump back to the start of the loop; an error exactly when the distance does not fit 16 bits |
| Compiler.Compiler.EmitConstant | src/compiler.c:204-219 | The short form up to 255, else three bytes |
| Compiler.Compiler.EndScope | src/compiler.c:306-322 | One pop for each local of the innermost scope, which are forgotten |
| Compiler.Compiler.DeclareVariable | src/compiler.c:784-800 | An error exactly when the scope has the name already |
| Compiler.Compiler.DefineVariable | src/compiler.c:822-833 | The last local becomes readable and the local at the given address gets the constant mark; a global gets its defining instruction |
| Compiler.Compiler.VarDeclaration | src/compiler.c:982-995 | The name is declared before its initializer is compiled and defined after it, with nil when there is none; an error exactly when the tokens are no declaration, the scope has the name, or the initializer is rejected |
| Compiler.Compiler.IfStatement | src/compiler.c:1052-1070 | Patching two placeholders in place gives exactly the layout whose runs `StmtCorrect.IfRuns` describes, with or without `else`; an error exactly when a part is rejected or a jump is longer than 16 bits |
| Compiler.Compiler.WhileStatement | src/compiler.c:1098-1114 | Test, exit jump, body and jump back are exactly the layout that `StmtCorrect.Rounds` runs; an error exactly when a part is rejected or a jump is longer than 16 bits |
| Compiler.Compiler.ForStatement | src/compiler.c:1005-1050 | The increment is emitted before the body, with a jump around it, and still the layout is the loop that `StmtCorrect.Rounds` runs, in a scope of its own |
| Compiler.Compiler.Block | src/compiler.c:872-879 | Declarations up to the closing brace |
| Compiler.Compiler.Declaration | src/compiler.c:1141-1157 | Consumes exactly the tokens of one declaration, at least one, and appends its code to what was emitted before, which is not touched |
| Compiler.Compiler.Statement | src/compiler.c:1159-1178 | Consumes exactly the tokens of one statement, at least one, and appends its code to what was emitted before, which is not touched |
| Compiler.InfixDone | src/compiler.c:655-676 | One round of the infix loop is one unfolding of the recogniser together with the code of its operator |
| Compiler.LoopAssembled | src/compiler.c:1005-1050 | Patching the exit turns the bytes emitted so far into the layout of the loop |
| Compiler.IfAssembled | src/compiler.c:1052-1070 | Patching both jumps turns the bytes emitted so far into the layout of the `if` |
| Codegen.ScopeClosed | src/compiler.c:306-322 | Leaving a scope gives back the locals from before it, but for their constant marks |
| Bytecode.FetchAddress | src/vm.c:317-324 | An address is read back as the address written, modulo the width that its instruction reads |
| Bytecode.FetchBranch | src/vm.c:317-324 | A 16-bit distance is read back exactly |
| Bytecode.OperandSurvives | src/vm.c:654-663 | An address survives being written and read exactly when it fits the width that is read |
| Dispatch.VirtualMachine.Run | src/vm.c:317-794 | The dispatch loop over the value stack in an array, for at most k instructions, ends in the state of the machine as a value, given room on the stack |
| Dispatch.VirtualMachine.Step | src/vm.c:357-794 | One instruction decoded and executed in place |
| Dispatch.VirtualMachine.ExecPlain | src/vm.c:359-406 | Operands are popped in order, type errors reported, results pushed |
| Dispatch.VirtualMachine.DefineGlobal | src/vm.c:612-628 | The globals grow with undefined entries up to the address |
| Dispatch.VirtualMachine.ExecAddress | src/vm.c:556-663 | Constants, locals and globals by address, with the error for a global that is not defined |
| Dispatch.VirtualMachine.ExecBranch | src/vm.c:391-407 | The ip moves by the distance, forwards or backwards |
| Dispatch.VirtualMachine.Push | src/vm.c:48-53 | One value more on the stack |
| Dispatch.VirtualMachine.Pop | src/vm.c:55-60 | The top value, and a stack without it |
| Tables.Table.FindEntry | src/table.c:26-50 | Terminates, and returns the slot of the key, or for an absent key the first free slot of its probe (tombstones are reused) |
| Tables.Table.AdjustCapacity | src/table.c:52-78 | The same map in a larger array, without tombstones |
| Tables.Table.Get | src/table.c:80-93 | Found exactly when the key is in the map, and then its value |
| Tables.Table.Set | src/table.c:95-112 | The map with the key bound, whether the key was new, growth exactly above three quarters, and the load bound kept |
| Tables.Table.Delete | src/table.c:150-166 | The map without the key, by one tombstone and nothing else |
| Tables.Table.AddAll | src/table.c:168-176 | The target map overridden by the source map |
| Tables.Table.FindString | src/table.c:178-199 | Terminates, and finds a key with these characters and hash exactly when there is one, whatever tombstones are in the way |
| Tables.Table.RemoveWhite | src/table.c:201-209 | Exactly the keys that are not marked are removed |
| Tables.Table.constructor | src/table.c:13-18 | An empty table without storage |
| Tables.Table.Place | src/table.c:104-111 | Writing the entry binds the key, and the use count grows exactly when an empty slot was taken |
| Tables.GrowthAllowed | src/util/memory.h:11 | Capacities stay zero or powers of two of at least eight |
| Probing.Stored | src/table.c:95-112 | Storing a key in its slot keeps every entry reachable by its probe and binds just that key |
| Probing.Buried | src/table.c:150-166 | A tombstone keeps every other entry reachable, removes just its key, and still counts |
| Probing.SomeEmpty | src/table.c:26-50 | If fewer slots are used than there are, one is empty |
| Bits.MaskIsRemainder | src/table.c:28-48 | Masking with a power of two less one is the remainder |
| Bits.XorBits | src/values/object.c:56-64 | The exclusive or, digit by digit |
| Interning.HashString | src/values/object.c:56-64 | The loop computes the 32-bit FNV-1a fold of the bytes |
| Interning.HashExamples | src/values/object.c:56-64 | Two published values of the hash function |
| Interning.CopyString | src/values/object.c:142-155 | Returns the one live string with these characters; an existing one is returned unchanged; what the roots reach survives the collections on the way; the bytes in use are accounted for |
| Interning.TakeString | src/values/object.c:129-140 | The same for characters that are on the heap, which are taken over or freed |
| Interning.AllocateString | src/values/object.c:43-54 | A new string enters the intern table even if the collector runs while the table grows |
| Interning.SameReferenceSameString | src/values/object.c:43-54 | For live strings, equal references are equal contents |
| Interning.Collect | src/util/memory.c:268-286 | A collection keeps every live string interned and no two of them equal |
| Interning.Lookup | src/values/object.c:129-135 | A live string with these characters is found whenever there is one |
| Collector.Memory.CollectGarbage | src/util/memory.c:268-286 | The object list keeps exactly the objects that a chain of occurrences connects to a root, in their order, with all marks clear; whatever occurs in a kept object or a root place is kept; the intern table keeps exactly its live strings; the bytes of the freed objects are given back; the next threshold |
| Reachability.RefsAreOccurrences | src/util/memory.c:148-202 | What the collector follows from an object is exactly what occurs in it: in a field, at an index of a buffer, as key or value of an entry, for each of the nine types |
| Collector.RootsAreOccurrences | src/util/memory.c:204-230 | The roots are exactly what occurs in one of the eight places |
| Collector.ReachableIsLive | src/util/memory.c:148-238 | Reachability is a chain of such occurrences from a root |
| Collector.KeepsOrder | src/util/memory.c:240-266 | What is kept stays in order |
| Collector.Memory.Mark | src/util/memory.c:204-238 | Exactly the objects that the roots reach are marked |
| Collector.Memory.TraceReferences | src/util/memory.c:232-238 | Keeps the tri-colour invariant, ends because white plus gray objects decrease, and leaves nothing gray |
| Collector.Memory.MarkObject | src/util/memory.c:114-140 | A white object is painted and put on the gray stack once; nothing else changes |
| Collector.Memory.BlackenObject | src/util/memory.c:148-202 | Exactly the references of the object, of whatever type, are painted |
| Collector.Memory.MarkRoots | src/util/memory.c:204-230 | Exactly the roots are painted: temporaries, stack, frames, open upvalues, globals, names, compilers, the init string |
| Collector.Memory.MarkEntries | src/table.c:211-218 | Keys and values of a table are painted |
| Collector.Memory.MarkValues | src/values/value.c:67-72 | All values of an array are painted |
| Collector.Memory.MarkCompilers | src/compiler.c:1217-1225 | Functions and local names of all enclosing compilers are painted |
| Collector.Memory.Sweep | src/util/memory.c:240-266 | The in-place unlinking leaves the marked objects in their order, unmarked, and gives back the bytes of the others |
| Collector.Memory.Unlink | src/util/memory.c:240-266 | The loop with its two pointers |
| Collector.Memory.FreeObject | src/util/memory.c:41-100 | Gives back the object and the buffers of its type, which is what its size counted |
| Collector.Memory.Reallocate | src/util/memory.c:18-39 | The byte count moves by the difference, and exactly growth may start a collection |
| Collector.Memory.Grow | src/util/memory.c:18-39 | Allocation may collect first, which loses nothing that the roots reach |
| Collector.Memory.AllocateObject | src/values/object.c:13-27 | A new unmarked object at the head of the list |
| Collector.Blackened | src/util/memory.c:148-202 | Painting the references of a gray object keeps the tri-colour invariant |
| Collector.AllBlack | src/util/memory.c:232-238 | When nothing is gray, the marked objects are the reachable ones |
| Reachability.ReachableExactly | src/util/memory.c:148-238 | A set with the roots, closed under references and made of reachable objects, is the set of reachable objects |
| Reachability.PreservesTwice | src/util/memory.c:18-39 | Two collections in a row preserve what one preserves |
| AddressTable.AddressTable.Add | src/util/addresstable.c:18-37 | One entry more with the address it shadows, the hash index updated, and the address that is returned, which is the shadowed one if there is one |
| AddressTable.AddressTable.Pop | src/util/addresstable.c:39-49 | Takes back the last entry; the index is again the search over what is left, so everything hidden is visible again |
| AddressTable.AddressTable.GetAddress | src/util/addresstable.c:57-60 | The hash lookup is the search of the entries from the top |
| AddressTable.EndScope | src/compiler.c:306-322 | The loop leaves exactly the locals of the outer scopes, and closes the upvalue of exactly those dropped locals that are captured |
| AddressTable.SearchAgrees | src/compiler.c:708-721 | With interned names, the lookup by reference is the search by content that the compiler uses |
| Closures.Machine.CaptureUpvalue | src/vm.c:174-195 | The open upvalue of the slot, the existing one if there is one, with the list strictly descending |
| Closures.Machine.CloseUpvalues | src/vm.c:197-205 | Closes exactly the upvalues at or above the bound, with the values that their slots had |
| Closures.Machine.Close | src/vm.c:492-508 | A new closure holds the boxes of its variables, shared with every closure that has captured them, itself included |
| Closures.Machine.Get | src/vm.c:664-668 | Reading a local or an upvalue reads the box of the variable |
| Closures.Machine.Set | src/vm.c:669-673 | Writing a local or an upvalue writes the box, which everyone who shares it sees |
| Closures.Machine.CloseUpvalue | src/vm.c:518-521 | The slot goes, and the variable lives on unchanged for the closures that hold it |
| Closures.Machine.Return | src/vm.c:522-534 | The caller gets the result; all captured variables of the function that is left keep their boxes |
| Closures.Machine.Call | src/vm.c:74-89 | A frame whose slot 0 is the closure |
| Closures.Machine.Pop | src/vm.c:55-60 | Popping an uncaptured slot |
| Closures.Machine.Push | src/vm.c:48-53 | A new box for a pushed value |
| Closures.Machine.CaptureLocal | src/vm.c:501-502 | Capturing a slot gives an upvalue with the box of the slot |
| Closures.Machine.constructor | src/vm.c:804-816 | The script in slot 0 of its own frame |
| Boxes.ClosingStep | src/vm.c:498-506 | Filling one more upvalue of a closure adds the box of that variable |
| Closures.Machine.Run | src/vm.c:317-794 | Any sequence of pushes, pops, variable reads and writes, closures, calls and returns goes through the states of a run over boxes, whose slots have the values that are on the stack before each instruction, and stops early only at an instruction without its operands or room, or at a pop of a variable that a closure holds |
| Closures.Machine.Step | src/vm.c:492-534 | One instruction does to the boxes what it means |
| Closures.Machine.ReadyIs | src/vm.c:492-534 | What the instruction finds on the stack is what it would find in the boxes |
| Closures.Machine.TopCaptured | src/vm.c:197-205 | The head of the open list alone tells whether the top slot is captured |
| Closures.Machine.UncapturedIs | src/vm.c:174-205 | A slot has an open upvalue exactly when some closure holds its variable |
| Boxes.SharingLasts | src/vm.c:492-534 | Over every run a closure keeps the boxes it was made with, so closures that share a variable share it for ever, also after its slot is gone |
| Boxes.ValueLasts | src/vm.c:664-673 | Over every run the variable in a box keeps its value until someone sets that variable |
| Boxes.HeldSinceCapture | src/vm.c:492-508 | Over every run, a closure holds a variable only after some OP_CLOSURE has captured it as a local |
| Sharing.SetThenGet | src/vm.c:664-673 | Over every run, what was assigned to a variable is what every later read of it pushes, through its slot or any closure that shares it, also after the slot is gone, until it is assigned again |
| Sharing.StackEffects | src/vm.c:596-673 | What each instruction pushes and pops, and that an assignment changes no slot but those of its variable |
| Sharing.ClosureShares | src/vm.c:492-508 | A new closure is on top and shares each of its variables with the function that makes it |
| Sharing.CallPasses | src/vm.c:74-89 | Argument i of a call is slot i of the called function, which is slot 0 itself |
| Sharing.ReturnRestores | src/vm.c:522-534 | Over every run, a return puts the result on top of the slots and frames that the caller had at the call |
| Sharing.CallKeepsSlots | src/vm.c:522-534 | Each of these slots has the value it had, unless its variable was assigned |
| Sharing.EnabledExactly | src/vm.c:492-534 | When each instruction may be executed |
| UpvalueResolution.Functions.ResolveUpvalue | src/compiler.c:745-765 | -1 exactly when no enclosing function has the name; otherwise the chain of entries leads to the innermost such local, exactly when its index is at most 255, and that local is marked as captured; earlier entries do not change; an error exactly when the local is in its own initializer or a capture list on the way is full |
| UpvalueResolution.Functions.AddUpvalue | src/compiler.c:723-743 | The first such entry or a new one; an error exactly when a 257th is needed |
| UpvalueResolution.FollowKept | src/compiler.c:723-743 | What an entry leads to never changes |
| UpvalueResolution.WideCapture | src/compiler.c:745-765 | In a function with 257 locals the capture of the last one gets the first |
| Inheritance.FlatIsWalk | src/vm.c:470-491 | Lookup in the flattened table is the walk along the superclasses to the nearest definition |
| Inheritance.DeclareClass | src/vm.c:453-491 | A class declaration builds the flattened table of its superclass and its own methods |
| Inheritance.LastDefinition | src/vm.c:207-213 | The method of a name is its last definition in the class body |
| Inheritance.Class.Inherit | src/vm.c:470-480 | The methods of the superclass are copied |
| Inheritance.Class.DefineMethod | src/vm.c:207-213 | A method replaces one of the same name |
| Inheritance.Class.FindMethod | src/vm.c:130-138 | Finds the nearest definition |
| Chunks.Chunk.WriteChunk | src/chunk/chunk.c:19-29 | Code and lines grow by one byte together, whatever the line, which is cut to 16 bits |
| Chunks.SourceInfo.AddLinenumber | src/chunk/sourceinfo.c:37-50 | The decoded lines grow by one, and the runs stay minimal |
| Chunks.SourceInfo.WriteLine | src/chunk/sourceinfo.c:14-27 | A new run, in arrays that grow when they are full |
| Chunks.SourceInfo.GetLinenumber | src/chunk/sourceinfo.c:52-66 | The line of the byte at the offset, and 65535 past the end |
| Chunks.RoundTrip | src/chunk/chunk.c:19-60 | Every byte is found with the line it was written with, cut to 16 bits |
| Scanner.Scanner.ScanToken | src/scanner.c:245-300 | Skips exactly white space and comments, then consumes one token as the token grammar says; the line is one plus the newlines consumed; EOF exactly at the end, again and again |
| Scanner.Scanner.SkipWhitespaces | src/scanner.c:107-135 | What is skipped is blank, and it stops only where nothing more can be skipped |
| Scanner.Scanner.NumberToken | src/scanner.c:213-226 | The longest number |
| Scanner.Scanner.IdentifierToken | src/scanner.c:205-211 | The longest word, as a keyword or an identifier |
| Scanner.Scanner.StringToken | src/scanner.c:228-243 | Up to the next quote, or an error at the end |
| Scanner.TrieIsKeywords | src/scanner.c:146-203 | The keyword trie accepts exactly the reserved words, for every lexeme |
| Scanner.LexemeIsSpelling | src/scanner.c:245-300 | A token of a kind with a fixed text, sign or reserved word, has that text |
| Scanner.SignsAreTokens | src/scanner.c:245-300 | Every sign of the language is a token |
| Scanner.IdentifierShape | src/scanner.c:205-211 | An identifier is a letter or underscore, then letters, digits and underscores as far as they go, and no reserved word |
| Scanner.NumberShape | src/scanner.c:213-226 | A number is digits as far as they go with at most one dot between digits |
| Scanner.FirstCharacter | src/scanner.c:245-300 | The first character decides between word, number, string and sign |
| Scanner.ScanAll | src/scanner.c:245-300 | Tokens and blanks tile the whole text in order, every token but the last consumes something, and carries its line |

## Left out

- Calls, functions, classes, properties, `super`, `this` and arrays in the compiler fragment: their tokens are errors in `Parser`; closures, upvalue resolution and inheritance have machines and models of their own instead.
- Error recovery: the compiler model stops at the first error, after which the C code goes on reading tokens (and may add names to the globals table) but returns NULL all the same. Error messages are not modelled.
- Numbers are opaque bit patterns and their operations are parameters; the theorems hold for all operations for which equality is symmetric, as it is for IEEE doubles.
- In the compiler and machine model strings are values compared by content; `Interning.SameReferenceSameString` is why that is the same as comparing references.
- Locals of a scope are found by searching the list of locals; `AddressTable.GetAddress` and `AddressTable.SearchAgrees` are why the hash index gives the same.
- Line numbers are not attached to the bytes of the compiler model; `Chunks` models them by themselves.
- The connection of `Scanner` tokens to `Syntax` tokens, which drops positions and converts numbers with `strtod`.
- Dispatch.VirtualMachine.Run: runs at most a given number of instructions, and asks for room on the stack, which the C code does not check; `StackSafety.StaysInRoom` gives it for compiled code.
- Dispatch.VirtualMachine.Step: asks for room for one more value, as Run does.
- Opcode sequences that no compiled code has (stack underflow, unknown opcodes) are `Stuck` in the machine model.
- Integers are unbounded but for operand widths, hashes, 16-bit lines and jump distances; allocation does not fail.
- `tableGet` and `tableGetUint32` (and the two setters) are one operation each, on a union that remembers its member.
- Tables.Table.AddAll: asks for two different tables, as inheritance has them; copying a table into itself while it grows is not modelled.
- Tables owned by instances and classes are seen by the collector as their entry arrays; the sizes of the C structures are parameters.
- Collector.Memory.CollectGarbage: is stated for given roots; that the running program keeps all its temporaries in the roots is not proved.
- The gray stack and the arrays of the address table are sequences; their growth is not modelled.
- Interning.TakeString: asks that the bytes of its argument have been counted.
- Closures.Machine.Pop: asks that no open upvalue is for the popped slot. By `Closures.Machine.UncapturedIs` and `Boxes.HeldSinceCapture` that is so unless an OP_CLOSURE has captured it as a local; the compiler marks such locals (`UpvalueResolution.Functions.ResolveUpvalue`) and emits OP_CLOSE_UPVALUE for exactly the marked ones (`AddressTable.EndScope`), but code with functions is not compiled in this model, so the three are not one theorem.
- Closures.Machine.Return: the last return, of the script itself, ends the run and is not modelled.
- UpvalueResolution keeps the locals of each function as a list, and enclosing compilers as the levels of a stack.
- Functions that only grow the buffers of constants, natives, the disassembler, printing formats, files and the REPL.
- Script.CompilerCorrect: asks for no narrowed operand (`Narrowing.SmallScriptFits` says when), for one address per global name, and for an equality of numbers that is symmetric; without the first it is false, as `WideGlobals.MainTheoremNeedsWidth` shows.
- Script.ScriptRuns: asks for the same, as do Script.StopsAsMeant, ExprCorrect.ExprRuns, ExprCorrect.AssignRuns and StmtCorrect.StmtRuns for their pieces of code.
- Script.StopsAsMeant: asks for no narrowed operand.
- ExprCorrect.ExprRuns: asks for no narrowed operand.
- ExprCorrect.AssignRuns: asks for an address of at most 255 for a global; `Narrowing.WideStoreExact` says what happens above.
- StmtCorrect.StmtRuns: asks for no narrowed operand.
- Interpret.Interpret: asks for a stack with room for the heights of the compiled code (`StackSafety.CodeSizeIsRoom`).
- AddressTable.AddressTable.Add: asks that the identifier of the entry is the name it is added under, which slot 0 of a function (no identifier, the empty name) does not meet, and for fewer than 2^31 entries.
- Closures.Machine.Call: the callee is a closure and the argument count is right; the checks of both, and of the frame limit, are not modelled.
- Closures.Machine.Run: plain data is only pushed; arithmetic on it, jumps and globals are in `Machine`, which has no calls.
- Compiler.Compiler.Prefix: the rules for arrays, `super` and `this` are errors here.
- Compiler.Compiler.Infix: the rules for calls, properties and indexing are errors here.
- Compiler.Compiler.NamedVariable: has no upvalues, as the fragment has no functions.
- Compiler.Compiler.EndScope: pops every local; which of them are closed instead is in AddressTable.EndScope.
- Compiler.Compiler.Declaration: class and function declarations are errors here.
- Compiler.Compiler.Statement: `return` is an error here.
- Tables.Table.AdjustCapacity: the byte count and the collection that its allocation may start are in `Interning`, where the intern table grows.
- Collector.Memory.Reallocate: only says whether the block grows; Collector.Memory.Grow runs the collections that growth may start.
