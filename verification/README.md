# Kuroko, modelled and proved in Dafny

Kuroko is a bytecode compiler and virtual machine for a dialect of Python, written in C without library help for
anything hard. This project models seven of its parts and proves what they promise. Each part is a set of modules;
code that works in place is a class or a method with loops, proved against a function or predicate that says what it
must compute, and the promises are lemmas about those.

| part | modules |
|---|---|
| control flow: compiler emission, jumps, the handler machine | Syntax, Semantics, Bytecode, Vm, Codegen, PreserveExpr, PreserveStmt, Patching, Emitter, RunLoop, Interpreter, FarCode, Decisions |
| sorting | Arith, Sorting, RunPower, Powersort |
| big integers | Positional, LongDigits, Longs, LongPower, LongShifts, ShiftOperators, BitOps, LongBytes, TrueDivision, LongText, LongPrint, Numerals, HugeDecimal, DecimalText |
| closure cells and generators | Upvalues, UpvalueSteps, UpvalueRuns, UpvalueMachine |
| caches and indexes | MethodCache, MethodLaws, HashTable, TableLaws |
| garbage collector and interned strings | Collector, StringPool, Subclasses |
| printing, reading, argument binding | Repr, ReprText, ArgBinding, ArgOrder |

How the control-flow part fits together: `Semantics` gives statements a meaning; `Codegen` is the code a statement has;
`Emitter` is the compiler that appends and patches bytes and ends with bytes and a jump table that hold that code; `Vm`
is the run loop as a step function and `RunLoop` as a thread changed in place; `PreserveExpr` and `PreserveStmt` prove
that running the code gives the meaning, or runs on if the meaning does; `Interpreter` compiles a function and runs it;
`FarCode` does so with two functions that are too long, and `Decisions` says, value by value, what the run loop makes of a
condition, a filter and a raise.

What code and specification have in common, such as the digit tables, the escapes or the order of gathered arguments, is
said once more in terms of its own in `Decisions`, `Numerals`, `MethodLaws`, `TableLaws`, `ReprText` and `ArgOrder`.

Assumptions about what headers define: `KRK_GROW_CAPACITY` gives 8 for small sizes and doubles otherwise, so a table's
capacity is a power of two and its mask is a remainder; a handler value packs a tag and an address. `Options` has the
datatype for values that may be missing.

## Where the code does not keep its promise

The model follows the code. For each of these a theorem says for all inputs exactly when the promise holds, and a lemma
or method gives an input at which it does not.

- True division drops low bits of a long dividend that it never brings down, so it is not always rounded to nearest
  (src/obj_long.c:1374-1424): exactly when, `TrueDivision.TrueDiv`; an input, `TrueDivision.DroppedTailOccurs`.
- Right shift of a negative number adds one even when nothing was shifted out (src/obj_long.c:1710-1716): exactly when,
  `LongShifts.RightShiftFloors`; an input, `LongShifts.RightShiftOff`.
- A long answers a shift of an int by a long, and shifts its copy of the int into itself, which the shifts clear before
  they read it (src/obj_long.c:1600-1609, 1644, 1684): 5 >> 1 is then 1. And a count is taken modulo 2^32
  (src/obj_long.c:836-852). `ShiftOperators.ShiftLeft` and `ShiftOperators.ShiftRight` say what every shift gives, and
  where digits are read that are not there; exactly when that is right, `ShiftOperators.LeftMultiplies` and
  `ShiftOperators.RightIsFloor`; inputs, `ShiftOperators.ReflectedOff`, `ShiftOperators.ReflectedBeyond` and
  `ShiftOperators.LongCountOff`.
- A text of nothing but underscores is a number, zero, in a base that is no power of two (src/obj_long.c:1211-1236): exactly
  when, `Numerals.NothingRead`; an input, `Numerals.UnderscoreIsZero`.
- A try with neither `except` nor `finally`, which the parser accepts, swallows exceptions and loses returns and loop
  exits (src/compiler.c:2501-2512): exactly when, `PreserveStmt.RunBareTry` with `Semantics.BareTryKeeps`; an input,
  `PreserveStmt.BareTryOccurs`.
- A class with its own `__eq__` that sets `__hash__` to its base's function is made unhashable, though a lookup finds
  the function (src/vm.c:217-225): exactly when, `MethodCache.Cache.MakeClass` and `MethodCache.HashSlotFollows`; an
  input, `MethodCache.HashLostOccurs`.
- An empty string's repr followed by a quote reads as the start of a triple-quoted literal: exactly when and the input,
  `Repr.StrRoundTrip`.
- A closure over the name of a caught exception reads, once the clause was left by `return`, `break`, `continue` or
  another exception, what the clause left with (src/vm.c:1130, 2283-2294, 3045-3048): exactly when,
  `UpvalueRuns.CaughtOverwritten`; an input, `UpvalueRuns.CaughtOverwrittenOccurs`.
- An unreachable immortal object may be left referring to freed ones (src/memory.c:421): exactly when,
  `Collector.CollectionDangles` and, over two collections, `Collector.TwiceDangles`; an input,
  `Collector.StrandedDangles`. Nothing in the repository sets the immortal flag (src/kuroko/object.h:67 defines it), so
  only a native module of someone else's can make that input.
- A string that cannot be reached leaves the intern table a collection before it is freed, so an equal one may be made
  meanwhile: exactly when, `StringPool.MadeTwice`; an input, `StringPool.MadeTwiceOccurs`. Two that can both be reached
  there never are: `StringPool.OneOfEach`.
- `__subclasses__` hands out classes that nothing else leads to, flagged ones too, and a flagged class goes at the next
  collection that cannot reach it, whatever refers to it by then; a class left without its base goes on to use it when it
  is freed itself (src/obj_base.c:155-167, src/memory.c:243-246): exactly when, `Subclasses.HandedOutBreaks`; an input,
  `Subclasses.HandedOutOccurs`. Otherwise nothing breaks: `Subclasses.NothingBreaks`.
- A handler is given 16 bits of its target. A try whose except part is not in the first 65536 bytes is entered somewhere
  else (src/vm.c:2580-2588): exactly when, `PreserveStmt.HandlerEntered`; an input, through the compiler
  and the run loop, `FarCode.HandlerLostOccurs`. A loop exit that a try stops beyond them goes on somewhere else (src/vm.c:3043): exactly
  when, `FarCode.ExitResumed`; an input, likewise, `FarCode.ExitLostOccurs`. `Codegen.TargetsFit` is what a
  function must meet, and `Codegen.ShortFits` a simple case.

## Model

| member | source | states |
|---|---|---|
| `PreserveStmt.FunctionPreserved` | src/compiler.c:2379-2513 | For every accepted function body of any length whose handler targets fit in two bytes, whenever the source program terminates (normally, by return or by an uncaught exception), running its code ends the frame with the same completion, the same history of calls, operators and truth tests, and the caller's stack exactly as it was, overlong jumps included |
| `PreserveStmt.FunctionEnds` | src/vm.c:2226-2320 | The compiled function comes to an end exactly if its source program does; one that loops for ever runs for ever |
| `Interpreter.CompileAndCall` | src/compiler.c:571-640 | Compiling a function in place and running it in place, from its arguments on a caller's stack, ends with the completion and history of its source program and leaves that stack |
| `Codegen.ShortFits` | src/vm.c:2580-2590 | Code of up to 65536 bytes has no handler target that two bytes cannot keep |
| `PreserveStmt.HandlerEntered` | src/vm.c:2580-2590 | An exception in a try goes to its except part exactly if that lies in the first 65536 bytes |
| `FarCode.FarTryRuns` | src/vm.c:2580-2590 | Of a try whose except part is at byte 65539, the exception goes to byte 3: its clause for everything never runs, and the function ends in the exception |
| `FarCode.HandlerLostOccurs` | src/compiler.c:2379-2513 | That function, compiled in place and run from its first byte, ends so; what it means is to return None |
| `FarCode.ExitResumed` | src/vm.c:3031-3054 | A break or continue that a try stops on its way is kept with the address after its EXIT_LOOP, and goes on there after the finally exactly if that lies in the first 65536 bytes |
| `FarCode.FarBreakRuns` | src/vm.c:3043-3047 | Of a break whose EXIT_LOOP ends at byte 65540, in a try whose own parts start before that, the run goes on at byte 4 |
| `FarCode.ExitLostOccurs` | src/compiler.c:2178-2190 | A function with such a break, compiled in place and run, returns what is written there, True; what it means is to leave the loop and return None |
| `Decisions.JumpsOn` | src/vm.c:2552-2569 | A jump on truth takes None, False, 0 and the empty tuple for false and every other integer, tuple and bool for true, and does nothing to find out; whether the value stays is as its opcode has it |
| `Decisions.JumpsAsking` | src/vm.c:821-866 | Any other value is asked once, and the bool it answers decides; anything else is an error |
| `Decisions.Negates` | src/vm.c:821-866 | `not` sees the same truth |
| `Decisions.IfInteger` | src/compiler.c:2109-2168 | An if over a constant integer runs its then-part exactly when that is not zero |
| `Decisions.ChoiceOf` | src/vm.c:821-866 | Compiled and called, `if <constant>: return True` and then `return False` returns whether the constant is true, having asked it only if it is none of those |
| `Decisions.FilterTakes` | src/vm.c:2664-2689 | A clause takes an exception of its class or of a class in its tuple; a bare one takes all but None; any other filter takes nothing |
| `Decisions.RaiseRaises` | src/exceptions.c:440-458 | A class that is raised is called once, and what that gives or raises is raised; anything else is raised as it is |
| `Decisions.RaiseFromRaises` | src/exceptions.c:440-458 | A class given as cause is called after that; if that raises, what it raises takes the place |
| `PreserveStmt.RunTry` | src/compiler.c:2379-2513 | A compiled try with at least one except clause or a finally, and perhaps an else, does what its source does, at any depth inside loops and other tries |
| `PreserveStmt.RunBareTry` | src/compiler.c:2468-2512 | A try with neither gets no finally opcodes: whatever its body ends in, an exception, a return or a loop exit, the run goes on after it |
| `Semantics.BareTryKeeps` | src/compiler.c:2501-2512 | So such a try means its body exactly when the body ends normally, or never |
| `PreserveStmt.BareTryOccurs` | src/compiler.c:2501-2512 | A function whose body is `try: return True` returns None |
| `PreserveStmt.RunProtected` | src/vm.c:2664-2706 | However the body, a clause or the else part is left (normal end, exception caught or not, exception inside a clause, return, break, continue), the run loop arrives at the finally block with exactly that completion recorded in the handler slot |
| `PreserveStmt.RunFinally` | src/vm.c:2402-2436 | The finally block runs once, and then what was pending goes on, unless the block itself raises, returns or leaves a loop |
| `PreserveStmt.AfterFinally` | src/vm.c:2418-2436 | What the handler slot's tag stands for is what END_FINALLY resumes: nothing, an exception, a return or a loop exit |
| `PreserveStmt.RunHandlers` | src/vm.c:2674-2706 | Except clauses are tried in order; the first whose filter matches runs, no other does, and an unmatched exception stays pending |
| `PreserveStmt.Catch` | src/vm.c:1088-1135 | An exception anywhere above a handler cuts the stack to that handler and enters it, with the tag for a first exception, one in a clause, or one in a finally block |
| `PreserveStmt.RunWhile` | src/compiler.c:2223-2264 | A compiled while with else, break and continue means the same loop |
| `PreserveStmt.RunFor` | src/compiler.c:2266-2365 | A compiled for over any iterator means the same loop; the iterator is stepped once a round |
| `PreserveStmt.RunStmt` | src/compiler.c:2771-2836 | Every statement's code, run from its first byte, leaves the stack, locals and history that the statement's meaning gives, and stops at its end, at a loop exit, in a return or in unwinding, as the statement does |
| `PreserveExpr.RunExpr` | src/compiler.c:3995-4048 | Every expression's code leaves exactly its value above an unchanged stack, its operands evaluated once, in order, or starts unwinding with its exception |
| `PreserveExpr.RunCompare` | src/compiler.c:911-959 | A comparison chain of any length evaluates each operand at most once and none after the first false link, and leaves one value |
| `PreserveExpr.RunLinks` | src/compiler.c:911-959 | The same for the rest of a chain whose left operand is already on the stack |
| `PreserveExpr.RunShortCircuit` | src/compiler.c:3981-3993 | `and` and `or` leave the operand that decided, and evaluate the right one only when the left does not decide |
| `PreserveExpr.RunTernary` | src/compiler.c:3732-3762 | A ternary tests its condition first and evaluates one branch only |
| `PreserveExpr.RunNot` | src/compiler.c:2838-2842 | `not` leaves the negated truth of its operand |
| `Vm.Then` | src/vm.c:2226-2232 | Runs of the run loop compose |
| `RunLoop.Thread.Advance` | src/vm.c:2226-2320 | One turn of the run loop, which changes stack, instruction pointer and exception state in place, is one step of the machine the preservation theorem is about |
| `RunLoop.Thread.FindDown` | src/vm.c:1088-1104 | The scan down the stack finds the topmost handler the hunt stops at, and none below the floor |
| `RunLoop.Thread.FinishException` | src/vm.c:3271-3304 | An exception enters the nearest handler or leaves the frame |
| `RunLoop.Thread.FinishReturn` | src/vm.c:2275-2309 | A return enters the nearest try of its frame, or leaves the frame |
| `RunLoop.Thread.FinishPopBlock` | src/vm.c:3031-3054 | A loop exit pops to the nearest try above the loop's locals and remembers where to go on, or pops to the locals |
| `RunLoop.Thread.RunToEnd` | src/vm.c:2226-2320 | Going round until the frame is left ends in the state the step machine ends in |
| `Codegen.StmtLength` | src/compiler.c:823-840 | The code of a statement has the length jumps over it are computed from, wherever it is placed |
| `Patching.StmtFills` | src/compiler.c:2178-2214 | Emitting with break and continue open and patching them later gives the code that knows the targets from the start |
| `Patching.NoHoles` | src/compiler.c:2178-2221 | A statement outside every loop leaves no jump open |
| `Emitter.Compiler.Function` | src/compiler.c:571-640 | Compiling a function body byte by byte, patching jumps on the way, leaves code and a table that together hold exactly the code the preservation theorem runs, and nothing left to patch |
| `Emitter.Compiler.Statement` | src/compiler.c:2771-2836 | Each statement appends its code, moves the list of locals and leaves its open breaks and continues as its meaning says, and touches nothing emitted before |
| `Emitter.Compiler.TryStatement` | src/compiler.c:2379-2513 | The same for try, whose exits are kept in an array and patched together |
| `Emitter.Compiler.BareTryStatement` | src/compiler.c:2395-2412 | The same for a try with neither clause nor finally |
| `Emitter.Compiler.WhileStatement` | src/compiler.c:2223-2264 | The same for while |
| `Emitter.Compiler.ForStatement` | src/compiler.c:2266-2365 | The same for for |
| `Emitter.Compiler.BreakStatement` | src/compiler.c:2178-2190 | A break leaves its loop's locals and records a jump for the loop to patch |
| `Emitter.Compiler.ContinueStatement` | src/compiler.c:2192-2204 | So does a continue |
| `Emitter.Compiler.Expression` | src/compiler.c:3995-4048 | An expression appends its code and nothing else |
| `Emitter.Compiler.CompareChained` | src/compiler.c:911-959 | So does the tail of a comparison chain |
| `Emitter.Compiler.EmitOverlongJump` | src/compiler.c:841-859 | A distance that two bytes cannot hold is recorded with its high bits and the opcode it replaces, in the entry of its offset if there is one |
| `Emitter.Compiler.PatchJump` | src/compiler.c:861-870 | A forward jump patched over any distance is fetched as its own opcode and lands on the patched target, when patched to a later one once more as well, and everything else in the code stands as it was |
| `Emitter.Compiler.EmitLoop` | src/compiler.c:2044-2061 | A backward jump over any distance lands on the loop's start, LOOP_ITER just after CALL_ITER, and exactly the pending continues of the loop are patched to it |
| `Emitter.Compiler.PatchBreaks` | src/compiler.c:2170-2176 | Exactly the breaks of this loop are patched, to here |
| `Emitter.Landed` | src/compiler.c:841-870 | After a patch the low bytes in the code and the high bits in the table hold the new distance, and all else what it held |
| `Emitter.LoopLands` | src/compiler.c:2044-2061 | So for a loop's backward distance, which is known before its bytes are there |
| `Bytecode.FetchJump` | src/vm.c:2522-2535 | A jump is fetched with its opcode and its whole distance, whether two bytes hold it or the table has a part |
| `Bytecode.OpOfByteOf` | src/vm.c:2192-2232 | Opcodes and their long forms decode apart from each other |
| `RunPower.Power` | src/obj_list.c:539-558 | The loop ends for every pair of runs, its doubled bounds staying below 2n, and returns the first depth at which the two midpoints fall in different cells of a dyadic grid over n |
| `RunPower.PowerBound` | src/obj_list.c:539-558 | 2^(power-1) < n for every two adjacent non-empty runs |
| `RunPower.SmallerBetween` | src/obj_list.c:539-558 | Of the boundaries between consecutive runs, two of equal power have one of smaller power between them; neighbours are never equal |
| `Powersort.Height` | src/obj_list.c:691-730 | A run stack of strictly rising powers over n <= 2^bits elements has at most `bits` entries, so 64 slots suffice for n <= 2^62 |
| `Powersort.NextRun` | src/obj_list.c:691-730 | One round merges down to a smaller power and pushes: the stack stays rising and in bounds, its runs stay sorted and adjacent, and the order of equal elements is kept |
| `Powersort.MergeAbove` | src/obj_list.c:704-716 | Merging the top of the stack while its power is larger keeps every run sorted and leaves the rest of the list alone |
| `Powersort.ExtendAndReverseRight` | src/obj_list.c:494-531 | A maximal run found to the right ends up non-decreasing, a falling one reversed, with equal elements in their order |
| `Powersort.MergeRuns` | src/obj_list.c:572-626 | Both merge directions, with only the smaller run buffered, write the stable merge of the two runs and nothing else |
| `Powersort.ReverseValues` | src/obj_list.c:418-428 | Reversal from both ends reverses exactly the given stretch |
| `Powersort.SortSlices` | src/obj_list.c:691-738 | Keys and values in lockstep end sorted, a stable permutation of what they were |
| `Powersort.Sort` | src/obj_list.c:654-738 | list.sort with any strict weak order, with and without a key, gives the stable sorted permutation; with reverse the falling one, equal elements still in their original order |
| `Sorting.SortUnique` | src/obj_list.c:654-738 | Sorted and order-keeping determine the result: there is only one stable sort of a list |
| `Sorting.SameOrderPermutes` | src/obj_list.c:654-738 | Keeping every class of equals in order makes a permutation |
| `Sorting.MergeStable` | src/obj_list.c:572-626 | The merge puts the left run's equals before the right run's |
| `Sorting.MergeSorted` | src/obj_list.c:572-626 | The merge of two sorted runs is sorted |
| `Sorting.FallingReversed` | src/obj_list.c:516-531 | Reversing a strictly falling run moves no equal elements past each other |
| `Longs.Long.Add` | src/obj_long.c:373-436 | The output holds the sum, trimmed, even when it is one of the operands |
| `Longs.Long.Sub` | src/obj_long.c:438-484 | The output holds the difference, trimmed, even when it is one of the operands |
| `Longs.Long.Mul` | src/obj_long.c:533-568 | The output holds the product, trimmed, even when it is one of the operands |
| `Longs.Long.Compare` | src/obj_long.c:260-276 | Comparison orders the integers held |
| `Longs.Long.SubBigSmall` | src/obj_long.c:321-366 | Subtracting a smaller magnitude in place never goes below zero |
| `Longs.DivideByBits` | src/obj_long.c:727-743 | Binary long division gives quotient and remainder |
| `Longs.DivideByDigit` | src/obj_long.c:709-725 | Division by one digit gives quotient and remainder |
| `Longs.DivAbs` | src/obj_long.c:680-757 | Every path of the unsigned division gives a = q*b + r with r < b, trimmed |
| `Longs.DivRem` | src/obj_long.c:759-789 | a = q*b + r with r zero or of b's sign and |r| < |b|, for all a and b, outputs aliasing inputs or not; a zero divisor is reported |
| `Longs.FloorsUnique` | src/obj_long.c:759-789 | Those conditions determine q and r |
| `Longs.IntFloors` | src/obj_numeric.c:472-500 | Small-integer // and % correct truncating division to the same flooring one |
| `Longs.PathsAgree` | src/obj_numeric.c:472-500 | So the small-integer and the big-integer paths give the same q and r |
| `LongPower.Pow` | src/obj_long.c:1741-1795 | Square and multiply gives a to the b, outputs aliasing inputs or not; a negative exponent raises and changes nothing |
| `LongPower.PowerBit` | src/obj_long.c:1770-1782 | Squaring, and multiplying for a set bit, moves a power one bit of the exponent down |
| `LongShifts.LshiftZ` | src/obj_long.c:1637-1669 | A left shift multiplies by the power of two; into the shifted number itself it leaves the highest bit alone, moved |
| `LongShifts.RshiftZ` | src/obj_long.c:1677-1717 | A right shift divides, and of a negative number it then adds one; into the shifted number itself it moves the highest bit, moves that by the odd bits again, or reads beyond the digits |
| `LongShifts.SplitDigits` | src/obj_long.c:1693-1707 | A right shift by odd bits joins each digit with the next one's low bits, in place too if no whole digits are dropped, and reads beyond the digits exactly if some are and it is in place |
| `LongShifts.RightShiftFloors` | src/obj_long.c:1710-1716 | A right shift into another number floors exactly when the number is not negative, the amount is zero, or the division is inexact |
| `LongShifts.RightShiftOff` | src/obj_long.c:1710-1716 | -4 >> 1 gives -3 |
| `ShiftOperators.Medium` | src/obj_long.c:836-852 | A count is taken modulo 2^32 |
| `ShiftOperators.Lshift` | src/obj_long.c:1671-1675 | A negative count raises and changes nothing; otherwise the number is shifted by the count so taken, the output being either operand or neither |
| `ShiftOperators.Rshift` | src/obj_long.c:1719-1723 | Likewise |
| `ShiftOperators.ShiftLeft` | src/obj_long.c:1590-1620 | `<<` of any int or long by any: an int's shift by a long is answered by the long, into the int's own copy |
| `ShiftOperators.ShiftRight` | src/obj_long.c:1590-1620 | `>>` likewise |
| `ShiftOperators.LeftMultiplies` | src/obj_long.c:1637-1675 | `<<` multiplies exactly when the number is zero, or the count is below 2^32 and, where a long answers for an int, is not zero and the number is a power of two |
| `ShiftOperators.RightIsFloor` | src/obj_long.c:1677-1723 | `>>` with a count below 2^32 floors, between ints or from a long, exactly when the number is not negative, the count is zero, or the division is inexact; where a long answers for an int, exactly when the number is zero, or positive and either all shifted out or shifted by whole digits to a power of two; and exactly when by luck with a longer count |
| `ShiftOperators.ReflectedOff` | src/obj_long.c:1600-1609 | Answered by a long, 5 >> 1 gives 1, -5 >> 9 gives 0, 5 << 3 gives 32 and 5 << 0 gives 0 |
| `ShiftOperators.ReflectedBeyond` | src/obj_long.c:1693-1707 | Answered by a long, 2^40 >> 32 reads beyond its digits |
| `ShiftOperators.LongCountOff` | src/obj_long.c:836-852 | 1 >> 2^32 and 1 << 2^32 both give 1 |
| `BitOps.DoBinOp` | src/obj_long.c:861-914 | For all signs, every bit of the result is, of the bits of the infinite two's-complement operands, the sum less the product for or, the sum modulo 2 for xor, the product for and; one digit more is enough, and the result is trimmed |
| `BitOps.BitOr` | src/obj_long.c:916-936 | Or, bit by bit, with the shortcut for zero, outputs aliasing inputs or not |
| `BitOps.BitXor` | src/obj_long.c:938-946 | Xor, likewise |
| `BitOps.BitAnd` | src/obj_long.c:948-965 | And, likewise |
| `BitOps.XorAndSum` | src/obj_long.c:861-965 | For all signs a + b is xor plus twice and |
| `BitOps.OrAndSum` | src/obj_long.c:861-965 | And it is or plus and |
| `BitOps.BitOpUnique` | src/obj_long.c:861-914 | The bits determine the integer |
| `LongBytes.ToBytes` | src/obj_long.c:1955-2051 | The result is the `length`-byte two's-complement form in the chosen order exactly when there is one, and overflow is reported otherwise; a negative number needs signed |
| `LongBytes.ReadBytes` | src/obj_long.c:2013-2038 | 31-bit digits are repacked into bytes of the same value |
| `LongBytes.Invert` | src/obj_long.c:2040-2046 | Flipping all bytes gives the complement |
| `TrueDivision.TrueDiv` | src/obj_long.c:1358-1435 | The result is a double exactly when the quotient, rounded, is in the normal range; its sign and exponent are the quotient's, the carry of a rounding up to the next power of two included; its significand is the quotient rounded to nearest, ties to even, exactly when no dropped tail meets a halfway quotient, and one unit below when one does; zero and division by zero are told apart; the bit loop ends |
| `TrueDivision.BinadeUnique` | src/obj_long.c:1358-1435 | A quotient lies between one power of two and the next in one way only, so the exponent is determined |
| `TrueDivision.QuotientBits` | src/obj_long.c:1374-1395 | The loop produces exactly 54 significant quotient bits and says whether a remainder is left |
| `TrueDivision.RoundedNearest` | src/obj_long.c:1399-1407 | Rounding the last bit by the sticky remainder is right exactly when a halfway case left down really is one |
| `TrueDivision.Scaled` | src/obj_long.c:1374-1424 | The bits kept and the tail dropped are the exact quotient |
| `TrueDivision.NearestUnique` | src/obj_long.c:1358-1435 | There is one nearest value, so any other answer is wrong |
| `TrueDivision.DroppedTailOccurs` | src/obj_long.c:1374-1424 | (2^54 + 3) / 1 is rounded down although it is above halfway |
| `HugeDecimal.Add` | src/obj_long.c:2124-2148 | The limbs returned hold the sum |
| `HugeDecimal.Isub` | src/obj_long.c:2150-2166 | In-place subtraction holds the difference and does not borrow past the top |
| `HugeDecimal.Shift` | src/obj_long.c:2168-2187 | A shift multiplies by a power of 10^9 |
| `HugeDecimal.Mul` | src/obj_long.c:2189-2302 | The limbs returned hold the product, for any widths and untrimmed limbs; the recursion ends on the larger width |
| `HugeDecimal.Karatsuba` | src/obj_long.c:2240-2302 | The three-product split holds the product, with an empty high half too, neither subtraction going below zero |
| `HugeDecimal.TwoRaised` | src/obj_long.c:2322-2367 | Halving the exponent gives 2^w for every w |
| `HugeDecimal.LongToDec` | src/obj_long.c:2369-2411 | For 0 <= n < 2^w the limbs hold n |
| `DecimalText.DecimalStr` | src/obj_long.c:2413-2455 | The decimal text, read by the parser, is the number, sign included; zero's text is empty |
| `LongText.RoundTrip` | src/obj_long.c:1014-1062 | Reading what printing defines, in any base from 2 to 16, gives the number back |
| `LongText.RoundTripPrefixed` | src/obj_long.c:1096-1244 | So with the prefixes of bases 2, 8, 10 and 16 and the base left to the parser |
| `LongPrint.FastConversion` | src/obj_long.c:988-1012 | Bit repacking prints the base-2^k digits |
| `LongPrint.WriteDigits` | src/obj_long.c:1034-1041 | Divide-by-base prints the digits |
| `LongPrint.ToStr` | src/obj_long.c:1014-1062 | Both printers, with sign and prefix, print the defined text |
| `LongPrint.DigitsInBase` | src/obj_long.c:821-831 | The preallocated size is never too small |
| `LongPrint.EnoughChars` | src/obj_long.c:821-831 | Bits divided by the base's bit width, rounded up, bounds the digits |
| `LongPrint.ParsePower` | src/obj_long.c:1161-1208 | Right-to-left bit packing reads the value, or reports text that is not digits |
| `LongPrint.PackDigits` | src/obj_long.c:1184-1207 | The preallocated digits are exactly enough and hold the value |
| `LongPrint.ParseChunks` | src/obj_long.c:1209-1238 | Chunked multiply-add reads the value, up to a zero byte |
| `LongPrint.ParseString` | src/obj_long.c:1096-1244 | Signs, underscores, prefixes and errors are as the reference reading has them, on both parsers |
| `Numerals.DenotesValue` | src/obj_long.c:1064-1081 | The table gives the figures 0 to 9, and the letters, large or small, 10 to 35 |
| `Numerals.DigitsRead` | src/obj_long.c:1157-1236 | Figures and letters of either case, with underscores anywhere among them, are read as the number they spell, in every base from 2 to 36 |
| `Numerals.DigitsRefused` | src/obj_long.c:1157-1236 | Refused exactly: a character that is no digit of the base, before the first NUL in bases that are no powers of two, and a text without a digit in those that are |
| `Numerals.NothingRead` | src/obj_long.c:1194-1231 | A text without a digit is zero exactly in a base that is no power of two |
| `Numerals.UnderscoreIsZero` | src/obj_long.c:1194-1231 | int("_") is 0 |
| `Numerals.CaseIgnored` | src/obj_long.c:1096-1244 | Changing the case of letters, in digits or prefix, changes nothing |
| `Numerals.BlanksIgnored` | src/obj_long.c:1083-1106 | Nor do blanks before and after |
| `Numerals.SignsMean` | src/obj_long.c:1113-1118 | A plus before a number changes nothing and a minus negates it |
| `Numerals.BaseChosen` | src/obj_long.c:1126-1155 | Without a base, 0x, 0o and 0b choose it, in either case, a zero before anything else is refused, and all else is decimal |
| `Numerals.SpeltReads` | src/obj_long.c:1096-1244 | The digits of any number, spelt in any base from 2 to 36 with letters of either case, read as the number |
| `Numerals.PrintedSmall` | src/obj_long.c:1014-1062 | What is printed has small letters |
| `UpvalueRuns.EveryReadIsOfTheLastWrite` | src/vm.c:756-789 | After any run of captures, writes, scope exits, generator builds, suspensions, resumptions and sweeps, a read through any cell gives the last value written to its variable, and all closures over a variable have one cell |
| `UpvalueRuns.NextOk` | src/vm.c:756-789 | Every step keeps the invariant: the open list falls strictly, one cell a slot, suspended lists rise strictly, closed cells hold their variable |
| `UpvalueRuns.CaptureGives` | src/vm.c:756-775 | A capture returns the cell the slot's variable has, if it has one |
| `UpvalueRuns.SuspendThenWake` | src/obj_gen.c:122-212 | Suspending a generator and waking it at the same height restores the stack, the cells and the order of the open list |
| `UpvalueRuns.CaughtOverwritten` | src/vm.c:2283-2294 | When a return, an exception or a loop exit enters a handler, a closure over the `as` variable below it reads from then on what the block left with, and every other closure what it read |
| `UpvalueRuns.CaughtOverwrittenOccurs` | src/vm.c:2283-2294 | A closure over an exception 7 reads 9 once the clause has returned 9 |
| `Upvalues.WriteIsShared` | src/vm.c:2846-2859 | A write through one cell changes that cell's reads and no other's |
| `Upvalues.ReadsLast` | src/vm.c:777-777 | A read is right whether the cell points into the thread's stack, into a suspended generator's, or is closed |
| `UpvalueMachine.Machine.CaptureUpvalue` | src/vm.c:756-775 | The walk down the list returns the slot's cell or links a new one in its place |
| `UpvalueMachine.Machine.CloseUpvalues` | src/vm.c:782-789 | The loop closes exactly the cells at or above a slot over the values they pointed to |
| `UpvalueMachine.Machine.LeaveScope` | src/vm.c:2363-2366 | Closing and then lowering the stack top loses no captured value |
| `UpvalueMachine.Machine.Suspend` | src/obj_gen.c:183-210 | The exit of a generator's call hands its cells and its part of the stack over |
| `UpvalueMachine.Machine.Resume` | src/obj_gen.c:137-160 | Its entry puts them back on top of whatever stack is there now, the sent value in place of the yielded one |
| `UpvalueMachine.Machine.Discard` | src/obj_gen.c:45-52 | A swept generator's cells close over its saved stack |
| `MethodCache.Cache.CheckCache` | src/vm.c:1586-1608 | The cached lookup returns the owner and value the walk up the base chain finds, a miss for a miss |
| `MethodLaws.NearestFound` | src/vm.c:1590-1606 | That walk finds the nearest class up the chain that has the name |
| `MethodLaws.SpecialKeeps` | src/vm.c:205-216 | A special slot keeps what the walk finds exactly if that may be called |
| `MethodCache.Cache.ClearCache` | src/vm.c:1611-1620 | Stopping at a class with index 0 leaves no class below with a valid answer through the cleared one |
| `MethodCache.Cache.Finalize` | src/vm.c:189-234 | Slots are recomputed for the class and everything under it, all indices there are gone, and the one change to a table is `__hash__ = None`, exactly in a class without a `__hash__` of its own whose `__eq__` is not its base's |
| `MethodCache.Cache.SetAttribute` | src/vm.c:1879-1886 | Setting an attribute changes that table entry, and every later lookup and special slot is right |
| `MethodCache.Cache.DeleteAttribute` | src/vm.c:1801-1812 | So does deleting one; an absent name changes nothing |
| `MethodCache.Cache.MakeClass` | src/obj_base.c:77-97 | A new class leaves every cached answer right and starts with right slots; its hash slot holds what a lookup finds, but for a class that repeats its base's `__hash__` beside an `__eq__` of its own |
| `MethodCache.HashSlotFollows` | src/vm.c:217-225 | Which is exactly the condition, in terms of the class body and the base's slots |
| `MethodCache.HashLostOccurs` | src/vm.c:217-225 | A class with an `__eq__` of its own and `__hash__ = Base.__hash__`: the lookup finds the function, the slot is empty |
| `MethodCache.ClearedOk` | src/vm.c:1611-1620 | Valid entries stay right under any clearing that carries zeros down |
| `MethodCache.ChainKept` | src/vm.c:1586-1608 | A class that kept its index has a chain up to the owner that kept theirs, and finds what it found |
| `MethodCache.ClearingDone` | src/vm.c:1611-1620 | The recursion over subclasses reaches every linked class |
| `MethodCache.PlainRight` | src/vm.c:1883-1885 | A name that is not special changes no special slot, so clearing suffices for it |
| `HashTable.Table.Set` | src/table.c:148-192 | Overwriting keeps a key's place and key object, a new key goes last, growing changes nothing, an unhashable key nothing |
| `HashTable.Table.Get` | src/table.c:211-217 | A lookup is the list's, by equality or by identity |
| `HashTable.Table.Delete` | src/table.c:238-258 | Exactly the matching pair leaves the list |
| `HashTable.Table.SetIfExists` | src/table.c:194-200 | Only a key that is there is written |
| `HashTable.Table.AdjustCapacity` | src/table.c:115-146 | Rehashing drops the gaps, keeps the order, and leaves used equal to count |
| `HashTable.Table.IndexKey` | src/table.c:88-105 | Every probe ends at a match or an unused slot before it comes round: the tombstone wrap-around is never taken |
| `HashTable.WalkFinds` | src/table.c:88-105 | Every live entry can be probed from its home |
| `HashTable.InsertOk` | src/table.c:154-169 | A new entry keeps slots and entries one to one, probes unbroken, keys distinct, and non-empty slots at most `used` |
| `HashTable.DeleteOk` | src/table.c:238-247 | So does a tombstone |
| `TableLaws.FirstCounts` | src/table.c:148-260 | By identity or by equality, the first entry of a key is the one that is found, changed in place, its key kept, and taken out |
| `TableLaws.NoneCounts` | src/table.c:148-260 | Without one, a lookup finds nothing, a set adds at the end and a delete does nothing |
| `TableLaws.SetThenGet` | src/table.c:148-217 | After a set a lookup of the key gives the value, and of any other key what it gave |
| `TableLaws.DeleteThenGet` | src/table.c:211-260 | After a delete the key is gone, and any other key has what it had |
| `HashTable.SetAgainGoesLast` | src/table.c:148-169 | A key deleted and set again moves to the end |
| `Collector.Heap.Collect` | src/memory.c:525-528 | A collection frees exactly the mortal objects that cannot be reached and were flagged by an earlier sweep, clears the flags of the rest and flags the unreachable ones, keeps the list's order, and keeps exactly the reachable strings interned |
| `Collector.Heap.TraceReferences` | src/memory.c:409-414 | What ends up marked is what the roots reach, and each object is blackened once |
| `Collector.Heap.BlackenObject` | src/memory.c:345-407 | Blackening marks every reference and keeps the three-colour invariant |
| `Collector.Heap.Sweep` | src/memory.c:416-442 | The linked list loses exactly the freed objects, and their number is returned |
| `Collector.Heap.Unlink` | src/memory.c:424-434 | Taking an object out of the list leaves the rest linked |
| `Collector.Heap.RemoveWhite` | src/memory.c:452-460 | Unmarked strings leave the intern table |
| `Collector.TwoCollections` | src/memory.c:416-442 | What is unreachable and mortal is gone after two collections, not after one unless flagged, and nothing else is |
| `Collector.NothingDangles` | src/memory.c:416-442 | Over any run of allocations, stores, root changes and collections by a program that uses what it can reach, everything reachable is there, and only an unreachable immortal object can refer to a freed one |
| `Collector.StrandedDangles` | src/memory.c:420-424 | Such an object can |
| `Collector.CollectionDangles` | src/memory.c:416-442 | A collection leaves a dangling reference exactly when a stranded immortal refers to what it frees or to what is gone already |
| `Collector.TwiceDangles` | src/memory.c:416-442 | After two, nothing dangles exactly when all that a stranded immortal refers to is there, and reachable or immortal |
| `StringPool.OneOfEach` | src/object.c:240-262 | Over any run of collections, allocations, stores and string creations, two reachable strings of one text are one object, and what the intern table gives back is never about to be freed |
| `StringPool.MadeTwice` | src/memory.c:452-460 | After a collection a text is made a second time exactly when the one string that has it could not be reached and is kept all the same |
| `StringPool.MadeTwiceOccurs` | src/memory.c:452-460 | One string that nothing holds: a collection, and its text is made again |
| `Subclasses.NothingBreaks` | src/obj_base.c:155-167 | Nor over any run in which `__subclasses__` hands out classes too that nothing else leads to, as long as none of them was flagged by a collection |
| `Subclasses.HandedOutBreaks` | src/obj_base.c:155-167 | After it has handed out a table, ordinary steps can lead to a reference to a freed object exactly if one of the classes was flagged |
| `Subclasses.HandedOutOccurs` | src/obj_base.c:155-167 | Eight steps after which a class that can be reached refers to one that is freed |
| `Collector.CollectedReaches` | src/memory.c:416-442 | Collecting changes nothing about what can be reached |
| `Repr.StrRoundTrip` | src/obj_str.c:882-934 | For every string and whatever text follows, scanning and decoding its repr gives it back and stops at the closing quote, exactly unless the string is empty and a quote follows |
| `Repr.BytesRoundTrip` | src/obj_bytes.c:87-124 | So for bytes with the b prefix |
| `Repr.StrRepr` | src/obj_str.c:882-934 | The printer writes the defined text, choosing the quote that needs fewer escapes |
| `Repr.BytesRepr` | src/obj_bytes.c:87-124 | The bytes printer writes the defined text |
| `Repr.Scanner.String` | src/scanner.c:109-146 | The scanner finds a literal's end, plain or triple-quoted, or reports that there is none |
| `Repr.Decode` | src/compiler.c:2904-3067 | The decoder's loop, with its cases written out, gives what the escapes stand for, or fails |
| `Repr.PushHex` | src/compiler.c:2861-2884 | A hex escape needs all its digits before the end and a code point that exists, and gives its byte or its UTF-8 |
| `Repr.LiteralReads` | src/scanner.c:109-146 | A printed literal inside any source reads back where it stands |
| `Repr.DecodeOne` | src/compiler.c:2861-2978 | Every escape the printers write decodes to the byte it came from |
| `Repr.ScanOne` | src/scanner.c:109-146 | The scanner goes through what was written for a byte without stopping |
| `Repr.ReadLiteral` | src/scanner.c:205-223 | A lone b before a quote is a prefix, and the literal after it is bytes |
| `ReprText.StrEscapes` | src/obj_str.c:897-926 | A byte other than a quote is written as a backslash and a letter exactly if the decoder has a letter for it; of the rest the control bytes are written in hex with small letters, and all else as it is |
| `ReprText.StrQuotes` | src/obj_str.c:904-905 | Of the quotes only the one around the text is escaped |
| `ReprText.BytesEscapes` | src/obj_bytes.c:87-124 | So bytes are, but that the escape byte is in hex and the double quote as it is, and all above 126 is in hex |
| `ReprText.QuoteShorter` | src/obj_str.c:887-895 | The quote is the double one exactly if the text is shorter with it |
| `ReprText.EscapesDecode` | src/compiler.c:2917-2949 | Which byte each letter after a backslash stands for; a line's end after one is nothing, and before what starts no escape it stays |
| `ReprText.HexReads` | src/compiler.c:2861-2884 | The digits of a hex escape, of either case, are the number they write |
| `ReprText.HexRefused` | src/compiler.c:2861-2884 | With one of them missing there is no literal |
| `ReprText.OctalReads` | src/compiler.c:2951-2972 | Up to three octal digits are the number they write |
| `ReprText.Utf8` | src/object.c:38-60 | A character is one to four bytes, the fewest that hold it, the first marked with their number and the others six bits each |
| `ReprText.ShortLiteral` | src/scanner.c:130-146 | A literal ends at the first quote that is not after a backslash, and is none if its line or the source ends before |
| `ReprText.BigLiteral` | src/scanner.c:110-128 | A triple-quoted one ends at the next three quotes, over line ends |
| `ArgBinding.Thread.CallManaged` | src/vm.c:403-565 | Arguments on the stack are bound as the reference binder binds them, for every signature and every mix of positional, keyword, iterable and dict arguments, and rejected exactly when it rejects; the stack below is untouched |
| `ArgBinding.Thread.ProcessComplexArguments` | src/vm.c:343-391 | Positionals and keywords are gathered left to right; a name twice, a non-dict, a non-string key or a raising iterable is refused |
| `ArgOrder.CallGathers` | src/vm.c:343-391 | The positionals are those passed as such and then, in order, each iterable's items and each later single value; the names are, in order, the named ones and each dict's pairs; refused exactly if a name comes twice, an unpacking fails, a ** is no dict, or a key in it is no string |
| `ArgOrder.StarredInOrder` | src/vm.c:343-391 | f(1, *[2, 3]) gathers 1, 2, 3 |
| `ArgOrder.PositionalsPlaced` | src/vm.c:437-478 | The parts of a frame in their order, with positionals in the first and those over in the list |
| `ArgOrder.NamePlaced` | src/vm.c:480-520 | A named argument is in the slot of the first parameter of that name |
| `ArgOrder.NamesCollected` | src/vm.c:480-527 | The dict of the rest has just the names no parameter has, with their values, in the order they came |
| `ArgOrder.RefusedExactly` | src/vm.c:403-547 | A call is refused exactly if there are too many positionals, a name is unknown or given twice, or a required parameter has nothing |
| `ArgBinding.Thread.PlaceKeywords` | src/vm.c:480-520 | Each keyword goes to the slot of its name; it fails exactly on a slot a positional has or a name with nowhere to go |
| `ArgBinding.Thread.CallPlain` | src/vm.c:549-565 | The plain path checks the count, collects what is over and leaves the rest unset |
| `ArgBinding.KeywordLands` | src/vm.c:480-520 | In a bound frame every keyword is in its slot or in the dict of the rest |
| `ArgBinding.NothingLost` | src/vm.c:437-527 | Slots and leftovers together hold every value supplied, each once, and no other |
| `ArgBinding.PositionalsHeld` | src/vm.c:450-478 | Before keywords, the slots hold the positionals, those over in the list |
| `ArgBinding.PathsAgree` | src/vm.c:403-565 | On positionals alone both paths accept the same calls and give the same frame, but for collectors the plain path leaves unset |

## Left out

Control flow
- PreserveStmt.FunctionPreserved: requires that no handler target a function stores exceeds 65535, since the code keeps 16 bits of it; FarCode is about those that do.
- Emitter.Compiler.Function: requires code shorter than 2^31 bytes, as distances are C ints.
- Calls, operators, truth tests and iterators are one oracle over the history; a frame is followed alone.
- Names are resolved: a local is its index, a global its constant; finding them, and the upvalue tables of the compiler, are left out.
- `with`, `yield`, generators' own opcodes, the C-style for, `while 1` and the closing of captured locals at a scope's end are not compiled; the last is what the closure-cell part models.
- A `break` in a loop's `else`, which src/compiler.c:2261-2263 patches to the loop it just left, and an `else` on a try without `except`, which jumps past ENTER_EXCEPT (src/compiler.c:2468-2473): the language modelled here has neither.
- The parser's rewinding and re-parsing; emission goes from a tree into a fresh chunk.
- More than 62 except clauses, which the compiler refuses.
- A filter cannot name an earlier clause's `as` variable, and attaching an inner exception to a caught one is not recorded.

Sorting
- Powersort.Sort: assumes that keys and comparisons do not raise; lists have at most 2^62 elements.

Big integers
- Digit memory is a sequence in its object; running out of memory is not modelled.
- HugeDecimal.Mul: limb arrays are values, so freeing them and sharing between them are not captured.
- TrueDivision.TrueDiv: a result outside the normal exponent range is reported as such; the largest double, the subnormal or the zero that the code then makes of it is not modelled.
- DecimalText.DecimalStr: says what the text reads as, not that it has no leading zero. Zero's empty text is never asked for: the callers print longs of fewer than ten 31-bit digits another way, and a float's digits are not zero (src/obj_long.c:1896-1904, 2457-2465).
- LongPrint.ParseString: the literals of floats are left out.
- LongShifts.RshiftZ: into the shifted number itself, says what value is held, not that the digits are trimmed; a top digit that was shifted to zero stays. From an int it leaves two digits at most, which make_long_obj turns back into an int.
- ShiftOperators.ShiftRight: a read beyond the digits ends the model; the memory found there is not modelled. Booleans are left out, and so is a long's explicit call of another long's reflected method.
- krk_long_medium of a negative number, krk_long_init_si at INT64_MIN, hashing, and a power with a negative exponent turned into a division.
- The signal that stops a long power early.

Closure cells
- One thread; a generator that raises has closed its cells when its frame was unwound.
- The compiler's choice between a local and an enclosing closure's cell; both lead to the steps modelled.
- The linked list of open cells is a sequence of cell names.

Caches
- MethodCache.Cache.SetAttribute: a descriptor or `__setattr__` on the metaclass, which runs code of its own, is left out.
- Names are values, so a freed string whose address is used again is not captured; nor are swept classes. The index counter does not wrap.
- HashTable.Table.Set: equality and hash are pure and consistent; an identity-only set requires that no merely equal key is there. The source would add a second entry then, and a lookup by equality give the one its probe meets first; it sets only its intern table that way (src/object.c:192, 258).
- krk_tableGet_fast and krk_tableFindString are the same walk for keys with a stored hash.

Garbage collector
- Finalizers and the order in which an object's parts are freed; marking is along given references.
- Collector.NothingDangles: the program between collections uses only what it can reach; what the interned strings and `__subclasses__` add is in StringPool and Subclasses; C code that holds an object nothing refers to is what the second chance is for.
- Collector.Heap.RemoveWhite: the intern table is its list of keys.
- StringPool.OneOfEach: strings are made through the table by programs that hold what they are given; text that is not valid UTF-8 becomes the empty string and is left out.

Printing and binding
- Repr.Decode: raw and formatted strings, adjacent literals, line numbers and what follows a literal are left out.
- ArgBinding.Thread.CallManaged: ends where the frame is pushed; which of several errors is reported first is not modelled, and default values are filled in by the function's own code.

Not modelled at all: files, modules, the REPL, signals, debugger hooks, threads and locks, builtins and iterators.
