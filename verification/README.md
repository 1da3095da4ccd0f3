# Verified models of the interpreters and the shell

This project models, in Dafny, the hard cores of three interpreters and a shell, and proves what they promise.

- **Heaps** (`Marking`, `PointerReversal`, `PoolMarking`, `FreeLists`, `VectorPool`, `PoolCompaction`, `S9Allocation`,
  `S9Heap`, `KlHeap`). Two mark-and-sweep collectors that mark by pointer reversal, one of them through vectors and
  with an in-place compacting vector pool. An abstract depth-first walk with an explicit stack is proved to mark what
  is reachable; the memory with reversed pointers is proved to be that stack; the imperative collectors are proved
  against both.
- **Hash map** (`Probing`, `ZMap`). Open addressing with perturbed probing and tombstones refines a finite map.
- **awk compiler** (`WakLanguage`, `WakCode`, `WakMachine`, `WakJumps`, `WakRuns`, `WakCorrect`, `WakProgram`,
  `WakCompiler`, `WakInterpreter`, `WakLaws`). A one-pass compiler with backpatched relative jumps, a stack machine with call
  frames, and a structured semantics. `WakCode` is the emitted code as a function; the compiler class is proved to
  emit it, and the machine on it is proved to do what the semantics says, including running forever. Every jump in
  emitted code lands on the start of an instruction, and every state of every run has a chain of frames. `WakLaws`
  says what the operators give.
- **Bignums, reals, grading** (`Bignum`, `BignumArithmetic`, `BignumText`, `S9Reals`, `S9Numbers`, `Grading`).
  Arithmetic on lists of nine-digit segments inside 32-bit cells, printing and reading, decimal reals, and an index
  shellsort.
- **Lisp evaluator** (`KlLanguage`, `KlMachine`, `KlRefines`, `KlStacks`, `KlEval`, `KlLaws`). A two-stack machine with
  tail calls refines a recursive evaluator; its stacks match in every state. `KlLaws` states lexical scope and the
  meaning of variables, quotation and assignment as laws of evaluation.
- **Shell** (`ShellLanguage`, `ShellEval`, `ShellLoops`, `ShellProperties`, `ShellReturns`, `ArithGrammar`,
  `ArithProductions`, `ArithAssociation`, `ArithEval`, `ArithLaws`, `ArithLexer`, `ArithText`, `IfsSplitting`,
  `LogicalPath`). Skip flags against structured exits, what exits of several levels mean in nested loops, arithmetic
  evaluated while it is parsed, by the productions of C, in-place field splitting, and logical path names. The rules
  are those of POSIX.1-2017, volume XCU, sections 2.6.4 and 2.6.5 and the `cd` utility.

What the code does differs from what one would expect in these places, each stated with its exact condition: a
`return` without operand inside the test of a shell loop gives back the status of the last loop body; a numeral with
so many leading zeros that they fill a whole segment is not read in normal form and loses its sign; changing to `/` or
`//` and then to a relative name is not changing to the joined name, nor is changing to a relative name that leaves an
empty component of the old name on top; and an old name that is not normal, as an inherited one may be, stays so as
far as it is left.

`dafny verify dfyconfig.toml` checks everything.

## Model

| member | source | states |
|---|---|---|
| `Marking.StepKeepsInv` | scripts/klong.c:8742-8819 | Every transition of the marking walk (enter a node, move to its next slot, leave it) keeps the walk invariant: the stack is a path, marked nodes are reachable, and unmarked reachable nodes lie below an unfinished slot |
| `Marking.StepDecreases` | scripts/klong.c:8742-8819 | Every transition makes progress, so marking terminates on any graph |
| `Marking.DoneMarksReachable` | scripts/klong.c:8742-8819 | When the walk ends, the newly marked nodes are exactly those reachable from the start through nodes that were unmarked |
| `Marking.NextRoot` | scripts/klong.c:8822-8843 | Marking from one root after another marks exactly what any of the roots reaches |
| `PointerReversal.EncodePush` | scripts/klong.c:8781-8815 | Storing the parent pointer in the first slot of a node is a push on the stack that the reversed pointers represent |
| `PointerReversal.EncodeAdvance` | scripts/klong.c:8751-8773 | Rotating parent pointer and slots by one moves the top frame to its next slot and gives the old slot its original value back |
| `PointerReversal.EncodePop` | scripts/klong.c:8757-8779 | Leaving a node gives back the parent pointer and restores the last slot |
| `PointerReversal.EncodeKeepsVectors` | scripts/klong.c:8751-8763 | Reversal never disturbs the type, the content pointer or the size of a vector |
| `PoolMarking.TrackAscend` | scripts/klong.c:8749-8779 | What the marker does at a parent is one transition of the walk on the encoded stack |
| `PoolMarking.TrackDescend` | scripts/klong.c:8780-8816 | What the marker does at an unmarked node is one transition of the walk on the encoded stack |
| `PoolMarking.TracksDone` | scripts/klong.c:8742-8819 | At the end all slots hold their original values, no STATE bit is left, and exactly the reachable nodes are marked |
| `PoolMarking.CollectedPreserves` | scripts/klong.c:8822-8874 | A collection preserves every reachable node with all its slots |
| `PoolMarking.CollectedHeap` | scripts/klong.c:8822-8874 | After a collection the heap is again as the next collection requires it, with the reachable nodes as the live ones |
| `S9Heap.Pool.Ascend` | scripts/klong.c:8749-8779 | The register and memory updates at a parent, for pairs, atoms and vectors, are the specified ascent |
| `S9Heap.Pool.Descend` | scripts/klong.c:8780-8816 | The register and memory updates at an unmarked node are the specified descent |
| `S9Heap.Pool.Mark` | scripts/klong.c:8742-8819 | In-place marking with reversed pointers through pairs, atoms and vectors terminates, restores every slot, clears every STATE bit, and marks exactly what is reachable through unmarked nodes |
| `S9Heap.Pool.Gc` | scripts/klong.c:8822-8874 | Mark and sweep: the free list is a descending acyclic chain of exactly the unreachable nodes, its length is returned, the reachable graph is unchanged, all marks are cleared |
| `S9Heap.Pool.UnmarkVectors` | scripts/klong.c:8939-8949 | Every block header, and nothing else, is set to nil |
| `S9Heap.Pool.Compact` | scripts/klong.c:8959-8975 | The linked blocks are packed to the bottom of the pool in place and in order, and each owner is redirected to its payload |
| `S9Heap.Pool.Gcv` | scripts/klong.c:8952-8981 | Collection with compaction: live vectors lie contiguously from 0 in their old order with size and payload kept, live nodes point at their payloads, every one has room for its bytes and wastes less than a cell, the fill mark is the sum of the live block sizes, and the space gained is returned |
| `S9Allocation.VectorQuiet` | scripts/klong.c:8984-9036 | A block for a new vector behind the used part of the pool disturbs no live node, and its payload holds no reference |
| `S9Allocation.CollectedReady` | scripts/klong.c:8822-8874 | A collection leaves the pools as allocation needs them, and the free list is empty exactly if every node is reachable |
| `S9Allocation.CompactedReady` | scripts/klong.c:8952-8981 | So does a compaction |
| `S9Heap.Pool.Cons3` | scripts/klong.c:8877-8933 | Allocation of a node collects with its arguments as roots when the free list is empty, and fails exactly if all nodes are reachable; the live nodes keep their contents, the pools stay well formed, and no root reaches the new node |
| `S9Heap.Pool.NewVec` | scripts/klong.c:8984-9036 | Allocation of a vector compacts when there is no room; the live structures stay as they are, the new node owns a block at the end of the used part with room for the bytes asked for and less than a cell more, cleared if it is a vector, and no root reaches it |
| `PointerReversal.RoomForBytes` | scripts/klong.c:265-268 | A block has room for the bytes that its size word asks for, and wastes less than a cell |
| `VectorPool.KeptBlock` | scripts/klong.c:8959-8975 | A linked block is found unchanged at its new start |
| `VectorPool.KeptParses` | scripts/klong.c:8959-8975 | The packed pool is again a sequence of blocks, starting at the new starts of the linked ones in order |
| `VectorPool.NewStartsAscend` | scripts/klong.c:8959-8975 | Packing keeps the order of blocks |
| `PoolCompaction.CollectedLinked` | scripts/klong.c:8781-8789 | After unmarking and collecting, exactly the reachable vectors are linked to their owners |
| `PoolCompaction.MovedVector` | scripts/klong.c:8965-8971 | A reachable vector has its size and payload at its new place |
| `PoolCompaction.GcvDone` | scripts/klong.c:8952-8981 | Unmarking, collecting and compacting together give the promised result |
| `PoolCompaction.CompactedHeap` | scripts/klong.c:8952-8981 | After compaction the heap is ready for the next collection and every structure below the roots reads the same |
| `KlHeap.Heap.Mark` | scripts/kl.c:206-243 | The marker of the fixed pool restores the graph and marks exactly what is reachable |
| `KlHeap.Heap.Gc` | scripts/kl.c:245-274 | The free list holds exactly the nodes that no register reaches, without cycles; the count returned is its length; what each of the eight registers reaches is as it was and not on the free list |
| `KlHeap.Heap.GuardedGc` | scripts/kl.c:279-286 | While a node is allocated its future contents are roots; the free list stays empty exactly if everything is reachable |
| `KlHeap.Heap.Cons3` | scripts/kl.c:276-292 | Allocation collects when needed, fails exactly if all nodes are reachable, and otherwise gives a filled node that no root reaches, with everything reachable preserved |
| `PoolMarking.FreshUnreachable` | scripts/kl.c:276-292 | A node from the free list is not reachable from any root |
| `Probing.PowerOfTwoSteps` | scripts/wak.c:786-803 | 2^k steps of x to 5x + 1 from 0 lead to an odd multiple of 2^k |
| `Probing.ReachesEvery` | scripts/wak.c:786-803 | The step x to 5x + 1 modulo 2^k visits every residue |
| `Probing.PerturbDies` | scripts/wak.c:786-803 | The perturbation shifted out of the hash becomes 0 |
| `Probing.ProbesEverySlot` | scripts/wak.c:786-803 | The perturbed probe sequence of any hash visits every slot of the table |
| `ZMap.ZstringHash` | scripts/wak.c:769-776 | The hash is computed in unsigned 32-bit arithmetic |
| `ZMap.ModelLookup` | scripts/wak.c:780-808 | The finite map that the slot list stands for has exactly the live keys, with their values |
| `ZMap.ModelSize` | scripts/wak.c:877-905 | The count of slots minus the count of deleted ones is the number of live keys |
| `ZMap.Map.LiveCount` | scripts/wak.c:877-905 | The same in every state of the table: count minus deleted is the size of the map |
| `ZMap.AbsentKey` | scripts/wak.c:786-803 | A probe sequence that ends at an empty entry without meeting a key proves it absent |
| `ZMap.HashFilter` | scripts/wak.c:789-796 | Comparing hashes first never rejects the slot of the key |
| `ZMap.Map.FindMapslot` | scripts/wak.c:780-808 | Terminates, and finds the slot of a live key, or reports an absent one with the entry where it may go |
| `ZMap.Map.Find` | scripts/wak.c:810-815 | Finds exactly the live keys, with the value of the map |
| `ZMap.Map.Rehash` | scripts/wak.c:852-875 | Doubling keeps the slots and leaves every live key findable in a table without tombstones |
| `ZMap.Map.FindOrInsertKey` | scripts/wak.c:877-895 | The map is unchanged for a present key and gets exactly one new key otherwise; below the load limit there is always a free entry |
| `ZMap.Map.Insert` | scripts/wak.c:888-894 | An absent key entered at the entry that the failed search gave is found afterwards, and hides no other key |
| `ZMap.Map.SetVal` | scripts/wak.c:877-895 | Storing through a found slot updates that key only |
| `ZMap.Map.Delete` | scripts/wak.c:897-905 | Exactly the given key is removed; the tombstone hides no other key |
| `WakCorrect.RunE` | scripts/wak.c:2002-2066 | For every expression, the emitted code computes its value and side effects as the structured semantics does and leaves the stack exactly one deeper; or it runs as long as the semantics does |
| `WakCorrect.RunAndOr` | scripts/wak.c:4239-4249 | Short-circuit jumps of && and its dual skip exactly the second operand and leave 0 or 1 |
| `WakCorrect.RunCond` | scripts/wak.c:2044-2053 | ?: evaluates exactly one alternative |
| `WakCorrect.RunCall` | scripts/wak.c:1718-1767 | A call with too few, too many or the right number of arguments binds exactly the parameters, runs the body, and comes back with ip, parmbase and the caller's stack restored and one value on top |
| `WakCorrect.DoFunction` | scripts/wak.c:4067-4105 | Entering a function cuts off surplus arguments and fills up missing ones |
| `WakCorrect.DoReturn` | scripts/wak.c:4106-4125 | A return restores ip and parmbase and leaves exactly the value in place of the frame |
| `WakCorrect.RunS` | scripts/wak.c:2388-2465 | For every statement, the emitted code does what the structured semantics says and leaves the stack unchanged; break and continue arrive at the jump words of the innermost loop, return at a return instruction |
| `WakCorrect.RunLoop` | scripts/wak.c:2258-2334 | while and for loops: test, body, increment and the jump words around them |
| `WakCorrect.RunDo` | scripts/wak.c:2277-2307 | do loops: continue leads to the test, break to the end |
| `WakCorrect.WhileCode` | scripts/wak.c:2258-2275 | Where the relative jumps of a while loop lead |
| `WakCorrect.ForCode` | scripts/wak.c:2309-2334 | Where the relative jumps of a for loop lead |
| `WakCorrect.Outcomes` | scripts/wak.c:2394-2407 | No break or continue leaves a statement outside loops, no return a statement outside functions |
| `WakProgram.BeginCorrect` | scripts/wak.c:3800-3810 | A BEGIN rule stops exactly in the states that the semantics gives, never meets an undefined instruction or a malformed stack, and runs forever exactly if the semantics does |
| `WakLaws.LeftToRight` | scripts/wak.c:3836-3848 | The operands of a binary operator are evaluated from left to right, and nothing but their effects remains |
| `WakLaws.SumAndDifference` | scripts/wak.c:3836-3848 | On values: l + r is the sum, and l - r is what gives l when r is added |
| `WakLaws.ProductOfUnit` | scripts/wak.c:3836-3848 | Multiplication by 0 gives 0, and by 1 the left value |
| `WakLaws.ProductOfSum` | scripts/wak.c:3836-3848 | Multiplication distributes over addition, which with the values at 0 and 1 determines it |
| `WakLaws.Comparisons` | scripts/wak.c:3873-3893 | A comparison gives 0 or 1; exactly one of &lt;, == and > gives 1; >=, != and &lt;= give the opposite of them |
| `WakLaws.OrderOfDifference` | scripts/wak.c:3873-3893 | l &lt; r gives 1 exactly if the difference r - l is positive, and == exactly if it is 0 |
| `WakLaws.UnaryValues` | scripts/wak.c:3815-3826 | -e is the opposite of e; !e is 1 exactly if e is 0, and 0 otherwise |
| `WakLaws.LogicalValues` | scripts/wak.c:4239-4249 | && and &#124;&#124; give 0 or 1, and the right operand counts only if the left one does not decide |
| `WakLaws.Assigned` | scripts/wak.c:3966-3980 | A variable has the value assigned to it, and no other variable has changed |
| `WakLaws.PrintsValue` | scripts/wak.c:3800-3810 | The compiled rule BEGIN { print e } stops with the value of e behind the output of its evaluation |
| `WakLaws.PrintsDifference` | scripts/wak.c:3836-3848 | The compiled rule BEGIN { print l - r } prints the number that gives l when r is added |
| `WakJumps.LandsE` | scripts/wak.c:2033-2053 | In the code of every expression, read from its first word, every jump leads to the start of an instruction of that code or to its end |
| `WakJumps.LandsS` | scripts/wak.c:2220-2405 | The same for every statement, except that break and continue lead to the jump words of the enclosing loop |
| `WakJumps.LandsLoop` | scripts/wak.c:2309-2334 | The same for a for loop, whose increment stands in front of its body |
| `WakJumps.LandingClosed` | scripts/wak.c:2662-2675 | In a whole program every jump and every function address leads to an instruction of it, and every instruction but opquit is followed by one |
| `WakRuns.StepFromGood` | scripts/wak.c:4106-4125 | From a state with chained frames every step leads to the start of an instruction, a return included |
| `WakCorrect.DoCall` | scripts/wak.c:4067-4143 | A call and the entry of the function chain the new frame to that of the caller |
| `WakProgram.RunsKeepFrames` | scripts/wak.c:3800-3820 | In every state of every run of a compiled program, ended or endless, control is at the start of an instruction, and the frames form a chain: each holds the address of an instruction, an argument count, and the parmbase of a frame below it, above the globals |
| `WakProgram.CompileProgram` | scripts/wak.c:2659-2686 | Compiling functions and a BEGIN rule reports no error exactly for well-placed break, continue and return, and then gives code that the theorems about runs are about; every jump and every function address of it leads to an instruction |
| `WakCompiler.GoodIffNoError` | scripts/wak.c:2394-2438 | A statement causes no error exactly if its breaks, continues and returns are well placed |
| `WakCompiler.Compiler.Expression` | scripts/wak.c:2080-2133 | Appends exactly the code of the expression |
| `WakCompiler.Compiler.LogicalOp` | scripts/wak.c:2033-2042 | The offset filled in afterwards leads behind the right operand |
| `WakCompiler.Compiler.Ternary` | scripts/wak.c:2044-2053 | Both offsets of ?: are filled in as the code requires |
| `WakCompiler.Compiler.Assignment` | scripts/wak.c:1852-1858 | The push of a variable becomes a reference when it turns out to be assigned to |
| `WakCompiler.Compiler.FunctionCall` | scripts/wak.c:1718-1767 | Frame preparation, arguments, and the call with their number |
| `WakCompiler.Compiler.Statement` | scripts/wak.c:2388-2465 | Appends exactly the code of the statement, restores the enclosing loop's jump words, and counts misplaced statements |
| `WakCompiler.Compiler.IfElseStmt` | scripts/wak.c:2220-2244 | The offsets of if and else, filled in out of order |
| `WakCompiler.Compiler.WhileStmt` | scripts/wak.c:2258-2275 | The jump words of a while loop, filled in after its body |
| `WakCompiler.Compiler.DoStmt` | scripts/wak.c:2277-2307 | The jump words of a do loop, filled in after body and test |
| `WakCompiler.Compiler.ForNotMapIter` | scripts/wak.c:2309-2334 | The jump words of a for loop, filled in after its body |
| `WakCompiler.Compiler.FunctionDef` | scripts/wak.c:2485-2535 | The code of a function, closed by a return of the uninitialized value |
| `WakInterpreter.Interpreter.CallFunc` | scripts/wak.c:4136-4143 | The call instruction on the interpreter's stack is a step of the machine |
| `WakInterpreter.Interpreter.EnterFunc` | scripts/wak.c:4067-4105 | The function entry instruction, with its two loops, is a step of the machine |
| `WakInterpreter.Interpreter.ReturnFunc` | scripts/wak.c:4106-4125 | The return instruction, with its two loops, is a step of the machine, on the chained frames that every run has |
| `Bignum.NormalUnique` | scripts/klong.c:9470-9499 | A number has exactly one normal-form segment list |
| `Bignum.LongerIsLarger` | scripts/klong.c:9568-9594 | Of two normal forms the longer one is larger |
| `Bignum.Less` | scripts/klong.c:9568-9594 | Length-first comparison with signs is the order of integers on normal forms |
| `Bignum.Equal` | scripts/klong.c:9596-9606 | Segment-wise equality is equality of the numbers |
| `Bignum.Abs` | scripts/klong.c:9470-9478 | The absolute value, in normal form |
| `Bignum.Negate` | scripts/klong.c:9480-9488 | The negation, in normal form |
| `Bignum.ReverseSegments` | scripts/klong.c:9490-9499 | The segments in reverse order |
| `BignumArithmetic.Add` | scripts/klong.c:9510-9566 | Addition over all sign cases: the sum, in normal form |
| `BignumArithmetic.AddNats` | scripts/klong.c:9533-9555 | The carry loop, within 32-bit cells |
| `BignumArithmetic.Subtract` | scripts/klong.c:9608-9670 | Subtraction over all sign cases: the difference, in normal form |
| `BignumArithmetic.SubtractNats` | scripts/klong.c:9634-9659 | The borrow loop, within 32-bit cells; it ends because the operands are ordered |
| `BignumArithmetic.ShiftLeft` | scripts/klong.c:9672-9702 | Ten times the number plus a digit, which may be ten only behind zero |
| `BignumArithmetic.ShiftRight` | scripts/klong.c:9705-9733 | Quotient and remainder by ten, in normal form |
| `BignumArithmetic.Multiply` | scripts/klong.c:9735-9771 | The product, in normal form |
| `BignumArithmetic.Equalize` | scripts/klong.c:9778-9799 | The divisor scaled by the largest power of ten that keeps it not above the dividend, and that power; the first quotient digit can be ten |
| `BignumArithmetic.NextDigit` | scripts/klong.c:9834-9845 | A quotient digit by repeated addition; ten exactly if the dividend is ten times the scaled divisor |
| `BignumArithmetic.DivideNats` | scripts/klong.c:9812-9856 | Quotient and remainder of natural numbers, with a digit of ten only while the quotient is 0 |
| `BignumArithmetic.Divide` | scripts/klong.c:9802-9874 | Division by zero is undefined; otherwise the quotient truncated toward zero and the remainder with the sign of the dividend, both in normal form |
| `BignumArithmetic.TruncUnique` | scripts/klong.c:9802-9862 | Quotient and remainder are the only numbers that satisfy the division identity with a remainder below the divisor and of the sign of the dividend |
| `BignumText.Ntoa` | scripts/klong.c:9383-9414 | One segment as digits, filled up with zeros, the sign counting as a place |
| `BignumText.PrintBignum` | scripts/klong.c:10701-10712 | Prints exactly the decimal numeral of the number |
| `BignumText.CountDigits` | scripts/klong.c:9880-9897 | Counts exactly the digits of the numeral |
| `BignumText.BignumToString` | scripts/klong.c:10849-10873 | The length counted for the string is that of the text |
| `BignumText.Asctol` | scripts/klong.c:9377-9381 | The number of up to nine digits |
| `BignumText.StringToBignum` | scripts/klong.c:10605-10633 | Gives the number written, in normal form, exactly if the digits in front that fill no segment are not all zeros or are all there is, and loses the sign otherwise; reading a printed number gives back its segments |
| `BignumText.LeadingZerosLost` | scripts/klong.c:10605-10633 | A numeral for which the condition fails and the sign is lost |
| `S9Reals.ScaleMantissa` | scripts/klong.c:10035-10052 | The same number with a lower exponent, if the mantissa has room |
| `S9Reals.Less` | scripts/klong.c:10141-10190 | On normalised reals the comparison is the exact order of the numbers |
| `S9Reals.CompareScaled` | scripts/klong.c:10173-10190 | With as many digits before the point scaling never fails, and the mantissas have as many segments, so that the length tests never decide |
| `S9Numbers.BignumToReal` | scripts/klong.c:9963-9987 | An integer becomes the real of its first eighteen digits |
| `S9Numbers.Less` | scripts/klong.c:10141-10190 | The order of integers and reals is exact for two integers, and otherwise that of the operands with integers cut to eighteen digits |
| `S9Numbers.NotRounded` | scripts/klong.c:9963-9987 | Which is exact if they have no more |
| `S9Reals.RealNormalize` | scripts/klong.c:9927-9961 | At most 18 digits, trailing zeros moved into the exponent: the same number, or rounded toward zero; undefined only if the exponent does not fit nine digits |
| `S9Reals.KeptRounds` | scripts/klong.c:9936-9942 | What is cut off is less than one unit of the 18th digit |
| `S9Reals.Rround` | scripts/klong.c:10499-10522 | Truncation, floor and ceiling are exact |
| `Grading.Fixgap` | scripts/klong.c:2913-2946 | Gaps shrink, and a positive gap never becomes 0 |
| `Grading.NoPowerOfTwo` | scripts/klong.c:2904-2946 | No gap of 32 bits is a power of two greater than 2 |
| `Grading.Shellsort` | scripts/klong.c:2948-2965 | Every pass permutes the indexes, and the last one, with gap 1, sorts them |
| `Grading.Grade` | scripts/klong.c:2967-2987 | A permutation of the indexes in the order of the values, for any strict order |
| `KlRefines.EvalCorrect` | scripts/kl.c:972-1087 | The two-stack machine stops exactly with the values of the recursive lexically scoped evaluator, stacks and environment as before; it fails exactly where the evaluator fails |
| `KlRefines.RunEval` | scripts/kl.c:978-1001 | An expression evaluated anywhere comes back to the mode below it with the value, the same stacks, and the same environment unless only a return is left to do |
| `KlStacks.StacksMatch` | scripts/kl.c:972-1087 | In every state of a run, the values on the stack above those of the caller are exactly those of the modes on the mode stack above those of the caller and of the current mode, in order and of the right kind |
| `KlStacks.RunTail` | scripts/kl.c:827-936 | A call in tail position, through if, ifnot, the last form of prog, and apply, is reached with exactly the stacks that the expression was entered with, and its value is the value of the expression |
| `KlStacks.TailCalls` | scripts/kl.c:917-936 | Any number of tail calls in a row leads to the body of the last one with exactly the stacks that the first body was entered with |
| `KlStacks.CallThenTailCalls` | scripts/kl.c:917-936 | Any other call saves one environment and one mode, however many tail calls follow |
| `KlRefines.RunCall` | scripts/kl.c:929-935 | Any other call saves the environment, which its return restores |
| `KlRefines.RunSpecial` | scripts/kl.c:827-895 | quote, if, ifnot, prog, lambda, macro, setq and apply |
| `KlRefines.RunApply` | scripts/kl.c:1015-1028 | apply, including the rule that a nil function counts as not yet evaluated |
| `KlEval.Evaluator.FindBox` | scripts/kl.c:607-617 | The first binding in the ribs, or the symbol's own box |
| `KlEval.Evaluator.Bindargs` | scripts/kl.c:897-919 | Parameters to fresh boxes, a final symbol to the rest; too few and too many arguments are errors |
| `KlEval.Evaluator.Funapp` | scripts/kl.c:921-936 | The call step on the registers |
| `KlEval.Evaluator.Round` | scripts/kl.c:977-1085 | One round of the loop is a step of the machine |
| `KlEval.Evaluator.Eval` | scripts/kl.c:972-1087 | What the loop stops with is the value of the expression, with stacks and environment as before |
| `KlLaws.Quoted` | scripts/kl.c:828-832 | The value of a quoted expression is the expression |
| `KlLaws.QuoteShape` | scripts/kl.c:828-832 | quote has a value exactly if it has one operand |
| `KlLaws.ListValues` | scripts/kl.c:995-1015 | The elements of a list are evaluated from left to right, and their values are in the order of the elements |
| `KlLaws.BuiltinCalled` | scripts/kl.c:1051-1054 | A built-in function gets the list of these values, and is asked once |
| `KlLaws.Variables` | scripts/kl.c:607-617 | The newest binding of a symbol counts; other symbols, empty ribs and the empty environment are passed |
| `KlLaws.Assigned` | scripts/kl.c:1064-1069 | The value of (setq s x) is s; the variable then has the value of x, and every variable in another place is as it was |
| `KlLaws.LexicalScope` | scripts/kl.c:855-858 | A closure made in an environment e and called from any other evaluates its body in e with one rib on top, which binds the parameters to new boxes with the arguments; a wrong number of arguments is an error |
| `KlLaws.ParameterSeen` | scripts/kl.c:898-918 | The body sees each argument under the name of its parameter |
| `KlLaws.RestSeen` | scripts/kl.c:909-913 | A rest parameter stands for the list of the remaining arguments |
| `KlLaws.OuterSeen` | scripts/kl.c:607-617 | Every other variable in the body is that of the environment in which the closure was made |
| `KlLaws.FreeVariable` | scripts/kl.c:855-858 | A closure over a variable gives its value in the environment of the closure, whatever the caller has under that name |
| `KlLaws.MacroIs` | scripts/kl.c:873-882 | The value of a macro form is a list with the closure that its lambda form gives |
| `KlLaws.LambdaShape` | scripts/kl.c:816-822 | A lambda form has a value exactly if it has symbols as parameters and a body of one expression or more |
| `ShellEval.Shell.Evaltree` | src/eval.c:205-335 | Entered with no skip pending, evaluation by skip flags agrees with structured exits: same commands, status, and outcome, and a pending break or continue counts between 1 and the loop nesting |
| `ShellEval.Shell.Skiploop` | src/eval.c:352-372 | A loop uses up one level of a break or continue, and repeats exactly after a normal end or a continue of its own |
| `ShellEval.Shell.Evalloop` | src/eval.c:375-403 | while and until |
| `ShellEval.Shell.Evalfor` | src/eval.c:407-437 | for |
| `ShellEval.Shell.Evalcase` | src/eval.c:441-472 | case |
| `ShellEval.Shell.Evalfun` | src/eval.c:975-1015 | A function sees no enclosing loops and no skip flag comes out of it |
| `ShellEval.Shell.Evalstring` | src/eval.c:169-196 | The commands of a string, up to the first exit |
| `ShellEval.Shell.Breakcmd` | src/eval.c:1069-1083 | break n and continue n, limited to the loops there are |
| `ShellEval.Shell.Returncmd` | src/eval.c:1090-1110 | return with and without operand |
| `ShellProperties.SetEExits` | src/eval.c:316-335 | Under set -e the shell exits exactly at the first command that fails untested |
| `ShellProperties.ReturnsAsPosix` | src/eval.c:384-390 | Where no return without operand stands in a loop test, return gives the status that POSIX asks for |
| `ShellReturns.PosixIffMeets` | src/eval.c:384-390 | For every command whose run ends, the result is that of POSIX if and only if every return without operand that reaches a loop test meets the status of the loop, or stands in the test of a loop around it, which replaces the status once more |
| `ShellReturns.ExactLoop` | src/eval.c:384-437 | The same for a loop, whatever the status of its last body |
| `ShellProperties.ReturnStatusLost` | src/eval.c:384-390 | A loop in which the status of such a return is lost |
| `ShellLoops.ForLeaves` | src/eval.c:414-437 | A for loop whose body leaves with break or continue of k levels: k > 1 leaves the loop with k - 1, break of one level takes no further word, continue of one level takes the next word |
| `ShellLoops.LoopBodyLeaves` | src/eval.c:384-402 | The same for the body of while and until, where going on is a test again |
| `ShellLoops.LoopTestLeaves` | src/eval.c:384-402 | The same for the test, which leaves the loop with the status of the last body |
| `ShellLoops.TakesAll` | src/eval.c:414-437 | A for loop whose bodies all end normally or with continue of one level takes all its words |
| `ShellLoops.NestLeaves` | src/eval.c:352-372 | In n nested for loops, break or continue of m > n levels leaves them all, at their first words, with m - n levels |
| `ShellLoops.BreakNest` | src/eval.c:352-372 | break n in n nested loops ends them all at their first words |
| `ShellLoops.ContinueNest` | src/eval.c:352-372 | continue n in n nested loops: the outermost one takes all its words, the inner ones their first words each time; the exact record of events |
| `ShellLoops.LevelsLimited` | src/eval.c:1069-1083 | Levels beyond the loops that there are do not count, and 0 levels are an error |
| `ShellLoops.StaysInNest` | src/eval.c:352-372 | No command leaves more loops than there are around it |
| `ArithGrammar.ClimbComplete` | src/arith_yacc.c:174-213 | Precedence climbing finds the tree of the stratified left-associative grammar |
| `ArithGrammar.ClimbSound` | src/arith_yacc.c:174-213 | What precedence climbing finds is a tree of that grammar over the tokens consumed |
| `ArithGrammar.ParseExact` | src/arith_yacc.c:271-304 | The parser accepts exactly the legal token sequences, each with its one tree |
| `ArithProductions.ExpressionIs` | src/arith_yacc.c:57-74 | The trees of the parser, and those of C, are exactly those of the productions of C written out with the operators as they are spelled |
| `ArithProductions.ParsesExpressions` | src/arith_yacc.c:271-304 | The parser accepts exactly the token sequences of these productions |
| `ArithProductions.Grouped` | src/arith_yacc.c:174-213 | In a op b op2 c the operator that binds tighter is grouped first, for every pair of levels, and within a level the left one |
| `ArithAssociation.ToRightLegal` | src/arith_yacc.c:215-247 | Every tree of C, with && and logical or grouped to the left, has a tree of the parser over the same tokens |
| `ArithAssociation.ToLeftLegal` | src/arith_yacc.c:215-247 | And the other way round |
| `ArithAssociation.LeftOfRight` | src/arith_yacc.c:215-247 | A tree of C is recovered from the tree that the parser has for it |
| `ArithAssociation.RightOfLeft` | src/arith_yacc.c:215-247 | A tree of the parser is recovered from the tree of C that it stands for, so the trees correspond one to one |
| `ArithEval.ToRightEval` | src/arith_yacc.c:215-247 | Both have the same value, the same assignments and the same errors |
| `ArithEval.Arith.Primary` | src/arith_yacc.c:137-172 | Primaries and unary operators, with two tokens of lookahead |
| `ArithEval.Arith.Binop2` | src/arith_yacc.c:174-202 | Binary operators in one pass, evaluated as their tree would be |
| `ArithEval.Arith.And` | src/arith_yacc.c:215-230 | The right operand of && has no effect if the left one is 0 |
| `ArithEval.Arith.Cond` | src/arith_yacc.c:249-269 | Only one alternative of ?: has effects |
| `ArithEval.Arith.Assignment` | src/arith_yacc.c:271-290 | Assignments and compound assignments |
| `ArithEval.Evaluate` | src/arith_yacc.c:292-304 | For every expression of the grammar of C, one-pass evaluation gives the value and the assignments of its tree, or division by zero exactly if evaluation reaches one, with the assignments before it; anything else is an error |
| `ArithLaws.UnaryValues` | src/arith_yacc.c:137-172 | What +, -, ! and ~ give |
| `ArithLaws.BinaryValues` | src/arith_yacc.c:80-135 | A binary operator is applied to the values of its operands, the left one first; exactly / and % with 0 fail |
| `ArithLaws.LogicalValues` | src/arith_yacc.c:215-247 | && and &#124;&#124; give 0 or 1, and the right operand counts only if the left one does not decide |
| `ArithLaws.Assigned` | src/arith_yacc.c:271-290 | After an assignment the variable has the value, and no other one has changed; one that was never set is 0 |
| `ArithLaws.CompoundAssigned` | src/arith_yacc.c:271-290 | v op= e is v = v op w with the value w of e, for each of the ten operators |
| `ArithText.EvaluateText` | src/arith_yacc.c:292-304 | The same for texts: scanned by maximal munch, then parsed and evaluated |
| `ArithText.SpellsOne` | src/arith_yacc.c:292-304 | A text spells one expression of C at most, so the value is that of the text |
| `ArithLexer.Lexer.Operator` | src/arith_yylex.c:140-236 | The longest operator is taken; compound assignments are eleven above their operators |
| `ArithLexer.Lexer.Yylex` | src/arith_yylex.c:52-240 | Blanks are skipped, and the longest number, name or operator is taken |
| `ArithLexer.Lexer.ScanAll` | src/arith_yylex.c:52-240 | The tokens of a text up to its end, or to a character that starts none |
| `IfsSplitting.Ifsbreakup` | src/expand.c:1001-1129 | Cutting in place leaves exactly the fields of the word as terminated strings |
| `IfsSplitting.SplitSplits` | src/expand.c:1001-1129 | Fields are free of IFS characters, and with the delimiters between them (spaces, or one other IFS character among spaces) they are the word |
| `IfsSplitting.SplitUnique` | src/expand.c:1001-1129 | There is no other such split |
| `IfsSplitting.FieldsSplit` | src/expand.c:1060-1100 | Leading IFS whitespace is dropped, and nothing else |
| `LogicalPath.Strtok` | src/cd.c:233-255 | The next component that is not empty |
| `LogicalPath.Component` | src/cd.c:234-254 | Appending and removing characters on the buffer is a step up or down in the component stack |
| `LogicalPath.Updatepwd` | src/cd.c:195-260 | The new name is a walk along the components of the operand, from the root or the old name |
| `LogicalPath.UpdateNormal` | src/cd.c:195-260 | With an absolute operand the result has no ".", ".." or empty component and no slash at its end but for the root; with a relative one exactly if the components left of the old name have none, or one empty component alone is left |
| `LogicalPath.UpdateSlashes` | src/cd.c:214-232 | The result starts with two slashes exactly if the operand, or else the old name, does, and an operand exactly two |
| `LogicalPath.WalkKeeps` | src/cd.c:233-255 | What is left of the old name are its lower components; on top are components of the operand |
| `LogicalPath.DotStays` | src/var.c:144-149 | A component . of an old name, which may be inherited, stays |
| `LogicalPath.NormalFixed` | src/cd.c:219-232 | A normal absolute name, with exactly two leading slashes or one, stays as it is |
| `LogicalPath.Idempotent` | src/cd.c:195-260 | Updating with an absolute name is idempotent |
| `LogicalPath.Composes` | src/cd.c:210-255 | For every old name, changing to a and then to a relative b equals changing to a/b if and only if: an absolute a is neither / nor //; a relative a leaves no empty component of the old name on top, or b climbs over all that is there, or only one empty component is left |
| `LogicalPath.ComposesPlain` | src/cd.c:210-255 | An old name without empty components composes with every relative operand |
| `LogicalPath.EmptyComponentLost` | src/var.c:144-149 | An old name with an empty component for which two changes and one differ |

## Left out

- Pool growth (`realloc`), ports as roots, and collector statistics in `scripts/klong.c`: the pools have a fixed size, so that allocation fails where it would ask for more memory, and the roots are given.
- The recursion-saving trick that keeps the value stack out of the root scan in `scripts/klong.c`: the stack counts as a root.
- ZMap.Map.Rehash: the table size stays below 2^31 in the original; overflow of the doubled size is not modelled.
- WakLanguage values are integers: strings, regular expressions, fields, getline, arrays, `for (x in a)`, `exit`, `next`, increments, compound assignment and concatenation are not modelled.
- WakCompiler.Compiler.Expression: works on syntax trees; the scanner and the precedence parser that drive the emission are not modelled.
- WakProgram.BeginCorrect: covers one BEGIN rule; record rules, END rules and their chaining are left out, and so is growth of the value stack.
- WakRuns.Goes: a run is one of the machine on values; the interpreter class covers the three call instructions.
- The fuel of the semantics only bounds how long they are followed: every loop round and call costs one unit, and the theorems hold for every amount.
- Interrupts (`Abort_flag`) and collector protection inside the bignum code; bignums are values.
- Real addition, multiplication, division and powers, and approximate comparison.
- S9Numbers.Less: supposes integers whose exponent as a real has at most nine digits, which those in memory have.
- KlLanguage: lists are immutable values, so `setcar` and `setcdr` are not modelled, and neither are `read`, `load`, `suspend` and macro expansion before evaluation; other built-in functions are arbitrary functions of the calls so far.
- KlLanguage.Apply: mirrors the original, where a nil function makes the argument expression be evaluated again; for other functions it is ordinary application.
- ShellLanguage: pipelines, subshells, redirections, traps, `set -n` and the exit-after-last-command optimisation; `set -e` does not change during a run, and simple commands are arbitrary functions of the events so far.
- ArithEval.Arith.DoBinop: the values of operators other than division by zero, including overflow, are a parameter; all variables have integer values.
- ArithLexer.Lexer.Yylex: the conversion of number texts is a parameter.
- ArithText.EvaluateText: scans the whole text before it is parsed, where the original scans as it parses.
- IfsSplitting.Ifsbreakup: one region that covers the word, and no limit on the number of fields.
- LogicalPath.Updatepwd: the old name is any name that starts with a slash; the Cygwin conversion is left out.
