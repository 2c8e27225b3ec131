# MiniJava → LLVM compiler core, in Dafny

This project models the two passes of a MiniJava-to-LLVM compiler and proves what
they promise.

- **First pass (`SymbolTable`, src/FirstVisitor.java).** It lays out every class:
  - field byte offsets, starting after the vtable pointer;
  - vtable slots for methods.

  A derived class starts from its parent's layout. The pass also records a queue
  with the static receiver class of every message send.
- **Second pass (`CodeGen`, src/LLVMGenerator.java).** It walks the same tree and
  emits each method's LLVM instructions.
  - It reads the layouts and consumes the queue one entry per send.
  - It threads the per-method emission state (`EmissionState`, src/State.java):
    a register counter, an identifier table and four label generators.
- **String helpers (`Signatures`, src/MyUtils.java).** These decode `type:name`
  parameter entries, build argument lists, filter call signatures down to their
  types, and assemble the vtable initialisers.

Every operation is a pure function (or a method with loop invariants, where the
source loops). Each takes the old state and returns the new state together with
what it emitted.

Instructions are abstract (`IR.Instr`), not text. The module `IR` gives them a
meaning on a small machine with these parts:
- 32-bit integers, booleans and pointers into zero-filled blocks;
- blocks of code entered through labels;
- a `phi` that picks its operand by the block control came from.

The code-generation lemmas run the emitted code on that machine. They show, for
example, that a bounds check on an array of non-negative length reaches the
next instruction exactly when `0 <= i < length`, and that an array stores its
length in word 0.

Supporting modules:
- `Options`: the Option and Result wrappers.
- `Strings`: the `java.lang.String` operations used, namely `indexOf`, `split`
  (which drops trailing empty pieces), `trim` and decimal rendering.
- `OrderedMap`: `LinkedHashMap` as a sequence of pairs. `put` on a present key
  keeps its position.
- `Layout`: the class, field and method records. It also has a `Target` value
  that holds the `ClassData` sizes, which are not part of this model.
- `Syntax`: the program tree.

Two details of how the emission state is reset:

- `State.clear()` resets all four label counters (src/State.java:129-131), so
  label numbers restart with every method. Labels stay unique within each
  emitted function: see `EmissionState.LabelsDistinct`.
- The state is cleared only after each method (src/LLVMGenerator.java:193), never
  before one.
  - `main` is not followed by a clear.
  - So the first class method starts with the counters `main` left behind.
  - `CodeGen.GenMain` and `CodeGen.GenProgram` thread the state this way.

## Model

| member | source | states |
|---|---|---|
| EmissionState.Init | src/State.java:66-74 | a new state has no identifiers, register counter 0 and every label counter 0 |
| EmissionState.NewReg | src/State.java:79-81 | hands out the register named after the current counter and advances only the counter, by one |
| EmissionState.RegNameInjective | src/State.java:80 | two register names are equal exactly when their numbers are |
| EmissionState.NewRegFor | src/State.java:86-89 | binds the identifier to the very register it returns, with the given type; other identifiers keep their entries |
| EmissionState.Put | src/State.java:94-96 | a lookup of the identifier afterwards yields the stored (register, type); every other identifier, the counters and labels are unaffected |
| EmissionState.GetIdInfo | src/State.java:101-103 | answers None (Java's null) exactly for an identifier with no entry |
| EmissionState.KindIndex | src/State.java:54-63 | "if", "while", "oob", "and" map to indexes 0-3 naming that kind; any other kind maps to None |
| EmissionState.LabelTuple | src/State.java:39-47 | one label per base name of the kind, each the base name followed by `_` and the kind's current counter |
| EmissionState.NewLabel | src/State.java:115-121 | an unknown kind yields None and leaves the state unchanged; a known kind yields its tuple and advances only that kind's counter |
| EmissionState.LabelShapes | src/State.java:69-73 | the tuples are (if, else, fi), (while, do, done), (outOfBounds, withinBounds) and (true, false, end), suffixed with the kind's counter |
| EmissionState.Clear | src/State.java:126-132 | empties the identifier table and resets the register counter and all four label counters to 0 |
| EmissionState.RegistersConsecutive | src/State.java:79-89 | without a clear, the registers handed out by any request sequence are consecutive from the starting counter, and the counter ends advanced by their number |
| EmissionState.RegistersFromZero | src/State.java:66-68 | from a fresh or cleared state the registers are `%_0 .. %_(n-1)`, pairwise distinct, and `getRegCounter()` is n |
| EmissionState.ServeLabels | src/State.java:115-121 | one request's labels are the texts of valid (kind, position, counter) identities at the kind's current counter, distinct, and the counter moves on by one |
| EmissionState.LabelIdsFresh | src/State.java:43-45 | every label handed out between clears is the text of a distinct identity whose counter is at least the kind's starting counter |
| EmissionState.LabelNameInjective | src/State.java:43 | a label text determines its base name and its counter |
| EmissionState.LabelsDistinct | src/State.java:39-47 | all labels handed out between two clears are pairwise distinct |
| Strings.NatToStringInjective | src/State.java:43 | distinct counters render as distinct decimal strings |
| Strings.IndexOf | src/MyUtils.java:49 | `indexOf` finds the first occurrence, and answers None (-1) exactly when the character is absent |
| Strings.JavaSplitJoin | src/MyUtils.java:57 | Java's `split` on a joined list whose elements avoid the separator returns the list (the last element non-empty) |
| Strings.TrimmedSplitHead | src/MyUtils.java:64 | `trim().split(" ")[0]` never indexes an empty array and yields the trimmed text up to its first space |
| OrderedMap.Put | src/FirstVisitor.java:104 | after `put`, `get` of the key gives the new value and every other key is unchanged; a present key keeps its position, a new key is appended; key uniqueness is preserved |
| OrderedMap.Get | src/FirstVisitor.java:78 | None exactly when the key is absent; otherwise the value stored with the key's first entry |
| OrderedMap.GetOnlyEntry | src/FirstVisitor.java:78 | in a map without duplicate keys, `get` returns the value of whichever entry holds the key |
| OrderedMap.PutAllFresh | src/FirstVisitor.java:79-80 | `putAll` of distinct keys into a map without them appends them in order |
| Signatures.SplitParam | src/MyUtils.java:49-51 | an entry without `':'` gives None; otherwise the part before the first `':'` and the rest, which rejoin to the entry |
| Signatures.GetParams | src/MyUtils.java:45-54 | never longer than the input, equally long iff every entry has a `':'`, and every pair comes from an input entry split at its first `':'` |
| Signatures.GetParamsAppend | src/MyUtils.java:48-52 | entries are decoded in input order: the result for a concatenation is the concatenation of the results |
| Signatures.GetArgs | src/MyUtils.java:8-18 | the text is the receiver `" (i8*"` (with `" %this"` iff a definition), then `", " + type` (and `" %." + name` for a definition) per argument in order, then `")"`, or `")*"` for a pointer type |
| Signatures.DeclareMethods | src/MyUtils.java:20-31 | one `i8* bitcast (...)` entry per method, in map order, naming the recorded class, separated by `", "` with no trailing separator |
| Signatures.DeclareVTable | src/MyUtils.java:33-43 | one global per class in table order, sized to that class's method count, with that class's entries |
| Signatures.VTableSlotEntry | src/MyUtils.java:24-29 | with dense slots, the entry at a method's slot is that method's own entry, inside the table |
| Signatures.FilterSignature | src/MyUtils.java:56-66 | a signature without a comma gives `(i8*)`; otherwise the first word of every trimmed comma piece, joined by `", "` and closed |
| Signatures.ClosedIsJoin | src/MyUtils.java:63-65 | the loop's "token, then `", "` or `")"`" output equals the tokens joined by `", "` followed by `")"` |
| Signatures.SplitCallSignature | src/MyUtils.java:57 | a call signature of two or more operands splits at commas into exactly one piece per operand |
| Signatures.FilterCallSignature | src/MyUtils.java:56-66 | filtering a call signature recovers the operand types in order: `(i8*)` for the receiver alone, otherwise the types parenthesised |
| Signatures.CallCastWithArguments | src/LLVMGenerator.java:307-308 | for a call with arguments, the filtered signature cast type equals the argument list `getArgs` declares for the method |
| Signatures.CallCastMatchesVTable | src/LLVMGenerator.java:307-308 | for any well-typed call, with or without arguments, the cast type equals the callee's declared argument list |
| SymbolTable.EnterClass | src/FirstVisitor.java:46-53 | a root class starts with an empty layout, fields at `pointerSize` and slots at 0, leaving the class table, type table and queue alone |
| SymbolTable.EnterDerivedClass | src/FirstVisitor.java:73-82 | fails exactly when the parent is not yet laid out; otherwise starts from the parent's fields and methods unchanged, fields continuing at the parent's next offset and slots at its method count |
| SymbolTable.DeclareVar | src/FirstVisitor.java:100-115 | records the variable's type; a class field is placed at the current offset, which advances by the type's size; a local neither records a field nor moves the offset |
| SymbolTable.DeclareMethod | src/FirstVisitor.java:138-143 | a redeclared name keeps its slot and takes the current class as implementor; a new name takes the next slot; others unchanged; dense slots are preserved |
| SymbolTable.GetParamsEncoded | src/FirstVisitor.java:154-157 | decoding the `type:name` entries of a parameter list gives back the declared pairs |
| SymbolTable.ParamsRoundTrip | src/FirstVisitor.java:128-131 | splitting the first pass's parameter text at commas and decoding it gives back exactly the declared (type, name) pairs, in order (None without parameters) |
| SymbolTable.BindParams | src/FirstVisitor.java:154-156 | visiting the parameters changes nothing but the name -> type table |
| SymbolTable.BindParamsTypes | src/FirstVisitor.java:154-156 | a parameter name declared once is bound to its declared type; names that are not parameters keep their binding |
| SymbolTable.ReceiversCount | src/FirstVisitor.java:207-212 | an expression contributes one queue entry per message send it contains |
| SymbolTable.CollectExpr | src/FirstVisitor.java:207-243 | returns the expression's static class (identifier's type, current class, allocated class, bracketed type, receiver's type) and appends exactly the reference queue entries; nothing else changes |
| SymbolTable.CollectExprs | src/FirstVisitor.java:210 | an argument list appends its arguments' entries left to right and changes nothing else |
| SymbolTable.SendEnqueuesReceiver | src/FirstVisitor.java:208-210 | a send enqueues its receiver's class after the receiver's own sends and before any send in its arguments |
| SymbolTable.CollectStmt | src/FirstVisitor.java:193-202 | an assignment with a known static type overwrites the left identifier's type, and with none leaves the table unchanged; the queue only grows, by one entry per send |
| SymbolTable.CollectStmts | src/FirstVisitor.java:134 | statements leave layouts alone and extend the queue by one entry per send |
| SymbolTable.CollectMethod | src/FirstVisitor.java:124-145 | a method gets an entry naming the current class and the decoded arguments; inherited entries keep position and slot; dense slots are preserved |
| SymbolTable.CollectMethods | src/FirstVisitor.java:59 | every method in turn: positions and slots of existing entries kept, dense slots preserved, one queue entry per send |
| SymbolTable.DeclareFields | src/FirstVisitor.java:56 | fields leave the methods, class table and queue alone and keep a well-formed layout well-formed |
| SymbolTable.CollectClass | src/FirstVisitor.java:46-94 | fails exactly when a named parent is unknown; otherwise the class enters the table, others unchanged, queue extended by one entry per send |
| SymbolTable.CollectClasses | src/FirstVisitor.java:46-94 | the classes in order extend the queue by one entry per send |
| SymbolTable.CollectMain | src/FirstVisitor.java:28-38 | the main class's statements extend the queue by one entry per send, and it enters the table with an empty layout |
| SymbolTable.DeclareLocals | src/FirstVisitor.java:104-113 | local declarations change only the name -> type table |
| SymbolTable.QueueLength | src/FirstVisitor.java:207-212 | after the first pass the queue holds exactly one entry per message send of the program |
| SymbolTable.FieldOffsets | src/FirstVisitor.java:107-113 | fresh fields are appended in declaration order, each at the start offset plus the sizes before it, and the next offset ends past the last |
| SymbolTable.RootFieldsIncreasing | src/FirstVisitor.java:52-56 | a root class's fields sit at strictly increasing offsets, all at or past `pointerSize` |
| SymbolTable.DerivedKeepsSlots | src/FirstVisitor.java:78-82 | a derived class keeps every inherited method at the parent's position and slot, whatever it overrides or adds |
| SymbolTable.CollectClassWellFormed | src/FirstVisitor.java:140-143 | a class keeps every layout of the table well formed: unique names, slots exactly 0..n-1 in map order |
| SymbolTable.CollectClassesWellFormed | src/FirstVisitor.java:80-82 | the same for any sequence of classes |
| SymbolTable.ProgramWellFormed | src/FirstVisitor.java:140-143 | every layout the first pass records has unique field and method names and slots exactly 0..n-1 in map order |
| CodeGen.GetArrayIndex | src/LLVMGenerator.java:22-30 | a literal index becomes literal + 1 with no code; a register index emits one `add` of 1 and returns that new register; anything else is the `parseInt` fault |
| CodeGen.ArrayIndexValue | src/LLVMGenerator.java:22-30 | in either form, the returned operand holds the logical index plus one, as a Java `int` |
| CodeGen.GetField | src/LLVMGenerator.java:32-45 | fails exactly for a field the class layout lacks; otherwise typed as the field's LLVM type (content) or a pointer to it (address) |
| CodeGen.FieldCodeRuns | src/LLVMGenerator.java:36-43 | the field code's last register points at the field's offset inside the object, or holds that cell's content |
| CodeGen.FieldAccess | src/LLVMGenerator.java:32-45 | the operand `getField` returns, once its code runs, is the field's address at its layout offset, or the cell's content |
| CodeGen.GetIdAddress | src/LLVMGenerator.java:47-51 | a bound identifier resolves to its slot register with pointer type and no code; only an unbound one goes to the field path, which fails exactly for an unknown field |
| CodeGen.GetArrayElement | src/LLVMGenerator.java:491-499 | emits the cast, index and load from the next register on, and answers the load's register as an `i32` |
| CodeGen.ElementRead | src/LLVMGenerator.java:494-497 | the element read loads the word `index` words past the array pointer and sets only its three registers |
| CodeGen.CheckArrayIndex | src/LLVMGenerator.java:502-519 | takes the next `oob` labels, emits the bounds code with them, and uses 6 registers on a loaded array, 7 otherwise |
| CodeGen.TestCodeExec | src/LLVMGenerator.java:514-518 | the test reaches the in-bounds block exactly when `(i < 0) xor (i < len)`, and otherwise ends in `throw_oob` |
| CodeGen.BoundsCodeExec | src/LLVMGenerator.java:502-519 | on an array of length l, the whole check completes exactly when `(i < 0) xor (i < l)` and otherwise exits |
| CodeGen.XorIsInBounds | src/LLVMGenerator.java:513 | for a length l >= 0, `(i < 0) xor (i < l)` holds exactly when 0 <= i < l |
| CodeGen.CheckArrayIndexRuns | src/LLVMGenerator.java:502-519 | on an array of any length, the emitted check lets execution continue iff `(index < 0) xor (index < length)`, and ends the program in `throw_oob` iff not |
| CodeGen.CheckArrayIndexSound | src/LLVMGenerator.java:502-519 | on an array of length >= 0, the emitted check lets execution continue iff 0 <= index < length, and ends the program in `throw_oob` iff not |
| CodeGen.ArithOf | src/LLVMGenerator.java:343-360 | only `<` is compiled to `icmp slt` |
| CodeGen.Arithmetic | src/LLVMGenerator.java:484-489 | exactly one instruction and one register; the result is `i1` iff the op is `icmp slt`, `i32` otherwise |
| CodeGen.ArithmeticValue | src/LLVMGenerator.java:484-489 | the result is the Java `int` sum, difference or product (wrapping to 32 bits), or the `<` comparison |
| CodeGen.Negate | src/LLVMGenerator.java:473-477 | one `xor` with true into the next register, typed `i1` |
| CodeGen.NegateValue | src/LLVMGenerator.java:473-477 | the `xor` with true yields the logical negation |
| CodeGen.NewArray | src/LLVMGenerator.java:449-457 | emits the allocation code from the next register on, uses three registers and answers the `i32*` register |
| CodeGen.NewArrayRuns | src/LLVMGenerator.java:450-456 | the new array is a fresh block whose word 0 holds the size and whose other cells read zero |
| CodeGen.NewArrayLength | src/LLVMGenerator.java:449-457 | on a new array, `getArrayElement` at index 0 reads the length; for 0 <= i < length, `getArrayIndex` turns i into i + 1 and `getArrayElement` then reads the zero-filled word at byte 4 * (i + 1) |
| CodeGen.NegativeArrayAsWritten | src/LLVMGenerator.java:449-457 | as written, after `new int[len]` with len < 0, the bounds check lets every index i in `[len, 0)` through, and `getArrayIndex` then turns i into i + 1 <= 0, a word before the elements. For len = -1 the program calls `calloc(4, 0)`, as the model does; for len <= -2 it passes a negative count to `calloc`, and the model does not represent what the runtime does then (see `IR.Step` under Left out) |
| CodeGen.NewArrayChecked | src/LLVMGenerator.java:449-457 | the corrected allocation: fresh `oob` labels, a size test, then the allocation code as written |
| CodeGen.NewArrayCheckedRuns | src/LLVMGenerator.java:449-457 | the corrected allocation ends in `throw_oob` iff the size is negative, and otherwise completes with a fresh block holding the size in word 0 and zeros elsewhere |
| CodeGen.NewArrayCheckedSound | src/LLVMGenerator.java:502-519 | after the corrected allocation completes, the bounds check on the new array lets execution continue iff 0 <= index < size, for every size |
| CodeGen.NewObject | src/LLVMGenerator.java:460-470 | fails exactly for an unknown class; otherwise emits the allocation of the class's size with its vtable in the first word, uses three registers and answers the object register |
| CodeGen.ObjectVTableDeclared | src/LLVMGenerator.java:463-468 | the vtable an object receives is the global `declareVTable` declares for its class, with the same array type |
| CodeGen.LoadIdent | src/LLVMGenerator.java:384-401 | a bound identifier is loaded from its slot; an unbound one is read as a field of `this` |
| CodeGen.IdentValue | src/LLVMGenerator.java:388-398 | the loaded value is the content of the identifier's stack slot, or of its field cell in the object |
| CodeGen.PopReceiver | src/LLVMGenerator.java:294 | takes the head of the queue and that class's method record; fails on an empty queue, an untyped receiver, an unknown class or an unknown method |
| CodeGen.EmitSend | src/LLVMGenerator.java:296-310 | six instructions and registers; the call is typed with the method's return type and answers the last register |
| CodeGen.SendDispatch | src/LLVMGenerator.java:301-306 | running the dispatch loads the vtable from the object's first word and the pointer at the method's slot, and calls it with the operands |
| CodeGen.CastMatchesEntry | src/LLVMGenerator.java:307-308 | the type the loaded pointer is cast to is the function type `declareMethods` gave that method's entry |
| CodeGen.SendUsesVTableEntry | src/LLVMGenerator.java:294-303 | a send removes exactly one queue entry and indexes the vtable at that class's slot for the method, whose entry names the implementing class; the result has the method's return type |
| CodeGen.AndMerge | src/LLVMGenerator.java:372-375 | both arms jump to the end block, whose phi takes the right value from the right operand's block and the left value from the false block |
| CodeGen.GenAndShape | src/LLVMGenerator.java:363-376 | the `&&` code is the left operand's code, the branch, the right operand's code only in the true block, and the merge |
| CodeGen.MergeLabelStraight | src/LLVMGenerator.java:372-374 | for a right operand of straight-line code, the phi names the true block under either policy |
| CodeGen.AndTrue | src/LLVMGenerator.java:367-374 | a true left operand runs the right operand's code and the phi yields its value |
| CodeGen.AndFalse | src/LLVMGenerator.java:367-374 | a false left operand skips the right operand's code and the phi yields false |
| CodeGen.AndValue | src/LLVMGenerator.java:363-376 | the right operand runs only when the left is true, and the result is `left && right` |
| CodeGen.NestedAndGenerated | src/LLVMGenerator.java:363-376 | the generator emits exactly the nested listing for `true && (true && true)`, with six distinct labels, naming the inner end block in the outer phi only in the corrected policy |
| CodeGen.NestedAndAsWrittenStuck | src/LLVMGenerator.java:372-374 | with the phi naming the outer true block, the nested code gets stuck at the outer phi |
| CodeGen.NestedAndCorrectedValue | src/LLVMGenerator.java:372-374 | with the phi naming the inner end block, the nested code yields true |
| CodeGen.AndPhiAsWritten | src/LLVMGenerator.java:372-374 | as written, the generated code for `true && (true && true)` gets stuck at its outer phi |
| CodeGen.AndPhiCorrected | src/LLVMGenerator.java:372-374 | corrected, the generated code for `true && (true && true)` completes with the result register holding true |
| CodeGen.GenExpr | src/LLVMGenerator.java:292-298 | every expression only extends the code and consumes exactly one queue entry per message send it contains, in the first pass's order |
| CodeGen.GenBinary | src/LLVMGenerator.java:343-360 | left operand, then right, consuming their queue entries in turn |
| CodeGen.GenAnd | src/LLVMGenerator.java:363-376 | left, then right, consuming their queue entries in turn |
| CodeGen.GenLookup | src/LLVMGenerator.java:333-340 | array, then index, consuming their queue entries in turn |
| CodeGen.IndexedRead | src/LLVMGenerator.java:337-339 | fails only on an index that is neither a register nor a literal; otherwise it extends the code and leaves the queue alone |
| CodeGen.GenSend | src/LLVMGenerator.java:290-311 | the receiver's entries, one entry of its own, then the arguments' entries |
| CodeGen.SendParts | src/LLVMGenerator.java:292-298 | one value per argument, and the receiver's, own and arguments' queue entries consumed in that order |
| CodeGen.GenExprs | src/LLVMGenerator.java:313-330 | one value per argument, left to right, consuming their queue entries in turn |
| CodeGen.StoreTo | src/LLVMGenerator.java:206-213 | inserts a bitcast iff the address type differs from the value type + `*`; the store always uses the value type |
| CodeGen.StoreToWrites | src/LLVMGenerator.java:198-215 | the assignment writes the value into the cell its address points to, with or without the cast |
| CodeGen.ElementStore | src/LLVMGenerator.java:227-230 | appends the element store and uses three registers |
| CodeGen.ElementStoreWrites | src/LLVMGenerator.java:227-230 | the element store writes word k of the array the variable's slot holds |
| CodeGen.PrintFunction | src/LLVMGenerator.java:278 | `print_bool` exactly for `i1`, `print_int` otherwise |
| CodeGen.PrintDispatch | src/LLVMGenerator.java:274-280 | a print ends in a call of `print_bool` for a boolean value and `print_int` otherwise, with the value as its one argument |
| CodeGen.GenStmt | src/LLVMGenerator.java:197-280 | every statement only extends the code and consumes one queue entry per send it contains |
| CodeGen.GenArrayAssign | src/LLVMGenerator.java:218-232 | address, index, value, bounds check, store: one queue entry per send, in order |
| CodeGen.GenIf | src/LLVMGenerator.java:235-257 | condition, then branch, else branch, consuming their entries in turn |
| CodeGen.GenWhile | src/LLVMGenerator.java:260-271 | condition, then body, consuming their entries in turn |
| CodeGen.GenStmts | src/LLVMGenerator.java:186-188 | statements in order, consuming their entries in turn |
| CodeGen.DeclareSlots | src/LLVMGenerator.java:152-160 | one `alloca` per declaration (and a store of the incoming value for a parameter); each name then resolves to slot `%name`, the last declaration winning; counters untouched |
| CodeGen.LastBindingFinds | src/LLVMGenerator.java:158 | the binding found is the last declaration of the name, and there is none exactly when it was never declared |
| CodeGen.PrologueResolves | src/LLVMGenerator.java:171-184 | after the prologue a local resolves to its own slot, a parameter it does not shadow to its slot, and any other name as before |
| CodeGen.MethodBody | src/LLVMGenerator.java:170-192 | the prologue comes first and the body ends in `ret`; one queue entry per send |
| CodeGen.GenMethod | src/LLVMGenerator.java:162-195 | fails for an unknown class or method; the function is `Class.method` with the return type and the `getArgs` definition list, and the state is cleared after it |
| CodeGen.GenMethods | src/LLVMGenerator.java:131-133 | one function per method, consuming their entries in turn |
| CodeGen.GenClasses | src/LLVMGenerator.java:127-150 | one function per method of every class, consuming their entries in turn |
| CodeGen.GenMain | src/LLVMGenerator.java:104-119 | `define i32 @main()` with the local slots first and `ret i32 0` last; the state is not cleared |
| CodeGen.GenProgram | src/LLVMGenerator.java:100 | `main` and then one function per method; the queue left is what follows the program's sends |
| CodeGen.QueueDrained | src/LLVMGenerator.java:294 | the second pass consumes exactly the queue the first produced, leaving nothing over |

## Left out

- Text output is not modelled: `emit`, the writer, IR comments and the runtime helper definitions of `visitGoal` (src/LLVMGenerator.java:53-98). Emission appends abstract instructions. Only the call-site cast type is built as text, because `filterSignature` works on text.
- src/Main.java and src/Generatellvm.java are not part of this model. They are the driver and a superseded visitor.
- `ClassData` and `MethodData` internals are parameters of a `Target` value: `getSize`, `pointerSize`, `getOffsetOfNextVar` and the instance size.
- The ANTLR parse tree and visitor dispatch are replaced by the `Syntax` datatypes. The unreachable two-argument `visit` overloads are modelled as the steps they describe.
- These traversal slips are modelled with the intended children:
  - operand 0 read twice (src/LLVMGenerator.java:221-222, 334-335, 344-359, 364-370);
  - both `if` arms emitting the same statements (242-250);
  - the inverted ternary for call arguments (298);
  - the loop bound taken from the expression (182);
  - only the main class visited (100);
  - the parent name from `identifier(0)` (src/FirstVisitor.java:74);
  - index-0-only child visits (src/FirstVisitor.java:33-34, 56, 59, 85, 88; src/LLVMGenerator.java:109-114);
  - `integerLiteral()` used as the discriminator (src/FirstVisitor.java:219).
- The first pass does not visit a method's local declarations (src/FirstVisitor.java:124-145). The model keeps this.
- `array.length` has no visitor in the generator and is not in the syntax.
- The machine does not interpret method calls. A send is run up to the loaded, cast pointer and the call is only shown. `throw_oob` ends the run.
- Object allocation (`ObjectCode`) is not run on the machine. Its shape and the vtable global it names are proved.
- IR.Step: `calloc` ignores its size and count arguments and always succeeds with a fresh block of unbounded extent. A real `calloc` can return NULL or fail on a huge request, such as the negative count a negative array size produces; the model does not represent that outcome.
- Integer literals are Java `int` values. Arithmetic and `index + 1` wrap explicitly with `IR.Wrap32`. Byte offsets and addresses are unbounded integers.
- `IR.Exec` runs with fuel. Every lemma about it supplies enough fuel for the code it runs.
- CodeGen.AndValue: proved for a right operand whose code is straight-line. A right operand with branches of its own is the Findings case, covered for `true && (true && true)`.
- CodeGen.GenExpr: like the other `Gen*` functions, its contract states code growth and queue consumption only. What the emitted code computes is proved per construct in the lemmas above.
- SymbolTable.FieldOffsets: stated for field names new to the class. A redeclared field name overwrites its entry in place, and no offset property is proved for it.
- SymbolTable.RootFieldsIncreasing: the same restriction to fresh field names.
- SymbolTable.ParamsRoundTrip: requires types without `','` or `':'` and names without `','`, as MiniJava identifiers are.
- Signatures.FilterCallSignature: requires operand words without blanks or commas, which is the form the generator's operands take.
- CodeGen.CheckArrayIndexSound: stated for a length of at least 0, where the xor test equals `0 <= index < length`. `CodeGen.CheckArrayIndexRuns` and `CodeGen.BoundsCodeExec` cover every length. An array allocated as written can have a negative length: see the second Findings row.
- CodeGen.NegativeArrayAsWritten and CodeGen.NewArrayCheckedSound: the index is a constant operand. The check treats a register holding the same value the same way.

## Findings

| source | as written | input that shows it | evidently intended | confidence | as-written member | corrected member |
|---|---|---|---|---|---|---|
| src/LLVMGenerator.java:372-374 | the phi of `&&` lists the right value as coming from `labels[0]`, the block the right operand's code starts in | `true && (true && true)`: the right operand ends in the inner `end` block, so control reaches the outer phi from there and the phi has no entry for it | list the block the right operand's code ends in, the actual predecessor of the merge | not executed | CodeGen.AndPhiAsWritten | CodeGen.AndPhiCorrected |
| src/LLVMGenerator.java:449-457 | `new int[size]` never checks the sign of `size`: it calls `calloc(4, size + 1)` and stores `size` in word 0 | `new int[0 - 1]` then `a[0 - 1]`: the length word holds -1, `(-1 < 0) xor (-1 < -1)` is true, so the check passes and the read goes to word 0 | reject a negative size at run time, as Java's `NegativeArraySizeException` does, so that no array has a negative length | not executed | CodeGen.NegativeArrayAsWritten | CodeGen.NewArrayCheckedSound |

The model keeps both versions of each row behind a flag of `CodeGen.Fixes`, which the generator reads from its `Ctx`.
- With `mergeFromEnd` false, `CodeGen.AndMergeLabel` names `labels[0]`, as written. With it true, it names the block the right operand's code ends in.
- Both policies name the same block when the right operand is straight-line (`CodeGen.MergeLabelStraight`). So `CodeGen.AndValue` holds for either.
- With `checkSize` false, an array allocation is `CodeGen.NewArray`, as written. With it true, it is `CodeGen.NewArrayChecked`, which first sends a negative size to `throw_oob`, the only run-time error routine the generated module defines.
- `CodeGen.Compile` with `CodeGen.Corrected` (both flags on) is the corrected compiler. With `CodeGen.AsWritten` (both off) it is the code as written.
