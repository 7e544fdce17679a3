# Nickle: compiler, arithmetic, control and tables

A model of the parts of the Nickle interpreter whose correctness is not plain from reading one function, with proofs
of what they do. Each part is written in the form its source has: the compiler, the virtual machine, the scheduler, the
hash table, the jumps and the digit arithmetic change objects in place, step by step, and each such method is proved
against a function or a relation of which the properties are proved.

- **Compiler and virtual machine** (`Values`, `Machine`, `Syntax`, `Codegen`, `Compiler`, `Execute`; proofs in
  `Placement`, `Compose`, `Reach`, `Simulation`, `Correctness`, `Layout`, `Heights`, `TailCalls`, `TailRuns`,
  `Faults`, `LostErrors`, `Laws`). A language with constants, globals, locals, unary and binary operators, `?:`, `&&`, `||`, `&&=`, `||=`, assignment, `++`,
  comma, calls, `if`, `else`, `while`, `do`, `for`, `switch`, `break`, `continue`, `return` and blocks has a reference
  meaning, with exceptions and divergence. The compiler appends to an object, rewinds it, sets push flags and patches
  branches; the machine executes the object with an accumulator, a stack and frames. Compiled code does exactly what the
  program means; what that is, is told by laws, and which programs compile by where their parts stand.
- **Long division** (`Estimates`, `LeadingDigits`, `Division`, `Naturals`, `NaturalShift`, `Divide`). Digits to base
  2^32 in arrays. Each quotient digit is estimated from leading digits, and the estimate is the digit or one more. When
  the result is right, and when the remainder keeps a zero digit, is told from the operands, in both directions.
- **Greatest common divisor** (`Divisors`, `Inverses`, `Bdivmods`, `Karys`, `Gcds`, `GcdConditions`; in place in
  `GcdInPlace`, `KaryInPlace`, `NaturalGcds`; followed for given numbers in `GcdRuns`, `LostDivisors`, `LostBorrows`,
  `NegativeShifts`). Weber's algorithm, down to the digits that a step leaves behind in the array and a later step may
  read. The methods on digit arrays do exactly what the functions on numbers say. What is left behind can cost a divisor,
  make the loop run forever, or make a shift undefined, each shown at two numbers.
- **Jumps through twixt blocks** (`Twixts`). A jump state machine walks the blocks to leave and to enter.
- **Semaphores, scheduling and mutexes** (`Semaphores`, `Turns`, `Scheduling`, `Mutexes`, `Ownership`). Priority queues
  of threads that take turns, waits that execute their instruction again, and mutexes built on semaphores, in every
  interleaving.
- **Hash tables** (`Primes`, `Certificates`, `PrimeTable`, `HashTables`, `HashSizes`). Open addressing with double
  hashing, deleted slots and growing tables, as a finite map. All 31 sizes that the interpreter's table
  lists are prime; the first 29 are those that its integers can hold and its tables can use.

`Arithmetic`, `Digits` and `Options` are shared.

## Findings

Where the code does less than it is meant to, the model does what the code does; a lemma shows an input, and another
says when it goes right.

| what goes wrong | shown by | right |
|---|---|---|
| Division loses a borrow: NaturalSubtractOffset subtracts no more digits than the remainder has, so the borrow that would tell of an estimate one too large is not seen. 2^96 - 1 divided by 0xaaaaaaaaaaaaaaaaf000 gives too large a quotient. | `Divide.NotDivisible` | exactly if no borrow is lost (`Divide.NaturalDivide`), which is so for divisors of at most two digits or with the top bit set (`Divide.ExactWhen`) |
| The remainder keeps a zero digit at its top: NaturalAddOffset trims only a digit it has changed. 5 * 2^64 + 2 divided by 2^64 + 1. | `Divide.LeavesZero` | exactly unless the last estimate is one too large, with a product as long as the divisor and a shorter remainder (`Divide.NaturalDivide`) |
| The greatest common divisor of 0x10000000000000001b960002d and 0x100000003 comes out as 1 instead of 7: a step of NaturalBdivmod that shifts leaves the top digit where it was, and the step for the one remaining bit reads it. | `LostDivisors.SevenLost` | a reduction, exactly if that does not happen (`Bdivmods.BdivmodExact`); the whole, only if the reductions keep all odd common divisors, and exactly then if the passes that follow read nothing left behind (`GcdConditions.RightWhenKept`); it is right for odd parts of at most two digits (`GcdConditions.TwoDigitsExact`), and with one odd part of at most 2^31, whatever the other (`GcdConditions.HalfDigitExact`) |
| The greatest common divisor of 0x10000000000000015f161e63bb0f31d19 and 0x12e8ba2e8d5af9a73, which is 1, is never found: after a reduction that reads a digit left behind, the loop of the first pass takes an even number of one digit from an odd one of three, and NaturalSubtractOffset loses every borrow from the third digit. | `LostBorrows.LoopsForever` | no borrow is lost where the other condition holds (`Gcds.GcdExact`), so for odd parts of at most two digits and with one of at most 2^31; whenever such a loop is entered it never ends (`LostBorrows.NeverEnds`) |
| For 0x100000000000000c911111047 and 0x122222221 the second pass reduces by -2 bits, which is an undefined shift: the reductions leave a number 14 times the smaller operand, again after reading a digit left behind. | `NegativeShifts.ShiftsByLess` | likewise; reductions that read nothing left behind leave less than twice the smaller number (`Gcds.WeberSmall`) |
| The greatest common divisor of zero and another number comes out as zero, of 6 and 0 for example. | `GcdConditions.ZeroOperand` | exactly if both are zero |
| Jumping from a twixt block into a block inside of it leaves all blocks around the starting point: NewJump and JumpContinue stop at the common block only if it is reached after the first step. | `Twixts.LeavesAll` | exactly unless the jump stays inside the blocks it starts from (`Twixts.JumpIsDue`); always for break, continue, return and exceptions (`Twixts.FarJumpIsDue`) |
| A `while` whose test folds to a constant loses the mark of an error in the test; the program runs. | `LostErrors.MarkLost` | exactly unless that is the only error (`LostErrors.MarkMissesOnly`) |
| HashGet enters a default value through a pointer into the old slots when the table has grown. | `HashTables.ThirdDefault` | `HashTables.HashTable.HashGet` says what is entered in each case |
| A reference to a new key reads as Void in a slot that was deleted before. | `HashTables.HashTable.DeleteThenRef` | exactly unless a deleted slot comes before the first one never used (`HashTables.HashTable.HashRef`) |
| The last two of the 31 sizes of hash tables do not fit `int`: three values for each of 1181116273 slots are counted as -751618477, and the last size is stored negative. A table of 536870912 entries that gets one more key does not work. | `HashSizes.LastRows` | stored, allocated and searched right exactly for the first 29 rows (`HashSizes.UsableRows`), which are enough exactly until a table of the 29th size is full (`HashSizes.GrowsAlike`) |
| With a first count below zero more waits are completed than signals allow. | `Semaphores.NegativeStart` | for all runs exactly if no first count is below zero (`Semaphores.CountsExactly`) |

## Model

| member | source | states |
|---|---|---|
| Compiler.CompileExpr | compile.c:2264-3015 | the object grows by exactly the code that ExprCode defines for the expression, and it is marked, and a message printed, exactly if ExprErr says so; all kinds of expressions, by recursion over the tree |
| Compiler.CompileUnOp | compile.c:815-850 | an operand that folds to a constant is dropped and replaced by the folded result; a folding that raises is an error |
| Compiler.CompileBinOp | compile.c:723-765 | two constant operands are dropped and folded, otherwise the first is pushed; the pushed flag goes to its last instruction |
| Compiler.CompileQuest | compile.c:2649-2710 | a constant test keeps one arm and smashes the other, after compiling both for their errors; otherwise both branches get their targets |
| Compiler.CompileShort | compile.c:2717-2818 | logical and and or: a constant left operand decides which operand is smashed; otherwise one branch over the right operand |
| Compiler.CompileAssignIf | compile.c:2853-2944 | conditional assignment, and and or: both ways out of the test meet at the OpAssign, and the OpDrop behind it is dead |
| Compiler.CompileCall | compile.c:1117-1175 | function, arguments, each pushed before the next, then OpCall and OpNoop or, if asked for, OpTailCall |
| Compiler.CompileArgs | compile.c:979-1008 | every value but that of the last argument is pushed; the number of arguments |
| Compiler.CompileStat | compile.c:3246-3847 | the object grows by exactly the code that StmtCode defines, with the errors that StmtErr defines, for every kind of statement |
| Compiler.CompileIfElse | compile.c:3286-3346 | a constant test keeps one arm; the branch over the second arm is left out where control cannot reach the end of the first |
| Compiler.CompileWhile | compile.c:3347-3405 | the inverted loop: a leading branch to the test, body, test, branch back; breaks and continues of the body patched; constant tests folded |
| Compiler.CompileDo | compile.c:3406-3440 | the body, then the test with a branch back, one unconditional branch or none |
| Compiler.CompileFor | compile.c:3441-3538 | initialisation, and the loop of body, step and condition that a leading branch enters |
| Compiler.CompileSwitch | compile.c:3539-3766 | the subject pushed, a comparison for each label, a default, and the arms in order; every comparison gets the start of its arm |
| Compiler.CompileReturn | compile.c:3790-3820 | a typed call outside of loops and switches becomes a tail call, anything else is followed by a return |
| Compiler.Object.PatchLoop | compile.c:3023-3096 | exactly the pending breaks and continues from `start` on get their targets, those of an enclosing loop stay pending |
| Compiler.Object.CompileNonLocal | compile.c:3136-3212 | a pending branch, and an error exactly if no enclosing loop or switch takes it |
| Compiler.Object.IsReachable | compile.c:3884-3909 | true exactly if some instruction branches to the place or falls through to it |
| Compiler.CompileFuncCode | compile.c:3911-3950 | the body, and a return exactly where control may reach its end |
| Compiler.WholeObject | compile.c:3884-3909 | scanning the whole object for branches to its end tells the same as scanning the statement, as all code in front of it branches inside itself |
| Compiler.CompileProgram | compile.c:3911-3950 | every function's object is the one that the definition gives, and errors are told |
| Execute.Thread.Step | execute.c:1069-1572 | one instruction of the loop changes program counter, accumulator, stack, frame and store as the step function says, and stops with the same value or exception |
| Execute.Thread.Run | execute.c:1022-1575 | the loop ends in the configuration that the steps lead to |
| Execute.Thread.ThreadCall | execute.c:76-244 | arguments taken from the stack into a new box; a tail call reuses the frame; the errors of calling what is no function or with the wrong number of arguments |
| Values.WriteCells | execute.c:276-298 | a store puts the value into the one cell named; every other cell of the globals and of every frame, and all lengths, stay |
| Values.NewBoxCells | execute.c:27-74 | a new frame has argument i in element i, in order, and nothing in the elements behind |
| Values.AllocCells | execute.c:27-74 | a new frame is added behind all others, which stay as they are |
| Laws.AssignmentReads | execute.c:246-300 | after an assignment its variable gives the value assigned, and every other variable of every frame what it gave before |
| Laws.FormalsRead | execute.c:27-74 | in a function that is called formal i is argument i, the other variables are empty, globals and other frames unchanged |
| Laws.RunGivesAssigned | execute.c:246-300 | a compiled program that assigns to a variable and returns it finishes with the value assigned, which is in its cell |
| Laws.RunGivesArgument | execute.c:27-74 | a compiled program that returns a call of a function that returns its formal i finishes with argument i |
| Laws.ConstantOperands | execute.c:1069-1572 | operators get their operands in order, and conditions select the arm |
| Laws.FirstOperandFirst | compile.c:723-765 | an effect of the first operand, or of the callee, comes in front of everything else |
| Laws.InOrder | compile.c:3777-3783 | statements are executed one after the other, the initialisation of a for loop in front of it |
| Laws.ShortCircuits | compile.c:2717-2818 | logical and and or mean the same as the conditional expressions |
| Laws.OperatorAssigns | compile.c:2820-2852 | an operator with assignment means the assignment of that operator, the variable read first |
| Laws.ConditionAssigns | compile.c:2853-2944 | likewise the conditional assignments |
| Laws.Increments | execute.c:1069-1572 | the prefix form is the assignment with that operator; the postfix form has the same effect and gives the value there was |
| Laws.ForIsWhile | compile.c:3441-3538 | a for loop with a condition only means the while loop, for any number of iterations |
| Laws.StepBehindBody | compile.c:3441-3538 | the step of a for loop is executed behind its body |
| Laws.JumpsInLoops | compile.c:3136-3212 | a continue goes to the step, a break behind the loop |
| Laws.SwitchGoesOn | compile.c:3539-3766 | the statements from the first equal label on are executed in turn, or those from the default on; a break leaves them |
| Faults.FoldedExactly | compile.c:684-765 | where no error is reported exactly the expressions that have one value for all functions and stores are folded, to that value |
| Faults.ExpressionErrors | compile.c:2264-3015 | an error is reported exactly if some operator in the expression raises on operands that are constant by their meaning, or some condition in it is a constant that is no boolean |
| Faults.StatementErrors | compile.c:3246-3847 | an error is printed exactly if a part that is compiled has such a fault, or jumps with nothing to leave |
| Faults.CleanExactly | compile.c:3911-3950 | a program compiles without an error exactly if no compiled part of its functions is wrong; so the hypothesis of the main theorems is met by all those |
| Faults.FoldingReported | compile.c:684-765 | folding two constants is reported exactly if the operator raises on them |
| Simulation.EvalSim | compile.c:2264-3015 | code of an expression, run from any stack and store, leaves the value of the expression in the accumulator, the store it leaves, the stack as it was or with the value pushed, or raises what the expression raises |
| Simulation.ExecSim | compile.c:3246-3847 | code of a statement leaves the store the statement leaves and the stack as it was, and goes to its end, to the target of a break or continue, or returns |
| Simulation.WhileSim | compile.c:3347-3405 | the inverted while loop runs its body as often as the loop's meaning says, for any number of iterations |
| Simulation.ForSim | compile.c:3441-3538 | likewise the for loop, with and without a condition |
| Simulation.SwitchSim | compile.c:3539-3766 | the comparisons select the same arm as the meaning, and execution falls through the arms from there |
| Simulation.ShortSim | compile.c:2717-2818 | short circuits, smashed or not, evaluate exactly the operands that the meaning evaluates |
| Simulation.TailSim | execute.c:223-244 | a tail call returns to the caller's frame what the call would have returned |
| Compose.CallEffect | execute.c:76-244 | what a call does to stack, frame and store |
| Reach.ReachRight | compile.c:3884-3909 | if control can come to the end of two pieces of code in a row, then to the end of the second |
| Reach.StmtShows | compile.c:3884-3950 | whenever a statement ends normally, breaks or continues, its code is seen to reach its end or has the pending branch; so a return left out is never missed |
| Correctness.Forward | compile.c:3911-3950 | for every clean program and any fuel the compiled program does within some number of instructions what the program means, or outlives the fuel |
| Correctness.CompiledCorrectly | compile.c:2264-3950 | a compiled program stops with a value, an exception and a store exactly if the source program has that outcome; both directions |
| Correctness.NeverCrashes | execute.c:1069-1572 | no run leaves its code, pops an empty stack or returns without a frame |
| Correctness.DivergesAlike | execute.c:1022-1575 | a compiled program runs forever exactly if the source program does |
| Correctness.OneOutcome | execute.c:1022-1575 | the meaning does not depend on the fuel |
| Correctness.FrameBalance | execute.c:27-74 | after any number of instructions the frame depth is that at the start plus the ordinary calls less the returns: tail calls keep it |
| TailCalls.TailCallsInvisible | compile.c:1137-1148 | with and without tail calls a program stops with the same value, exception and store, or runs forever both times |
| TailRuns.ReturnedCall | compile.c:3795-3817 | a typed call that is returned outside of loops and switches adds no ordinary call and ends in a tail call; any other adds one and does not |
| TailRuns.ConstantDepth | execute.c:27-74 | a program whose only calls are such never has more than one frame, at any time of any run |
| TailRuns.EndlessChain | execute.c:27-74 | a function that returns a call of itself runs forever, in one frame |
| LostErrors.MarkMissesOnly | compile.c:3347-3371 | an error is printed but does not mark the object exactly if all errors are in while tests that fold to constants |
| LostErrors.MarkLost | compile.c:3347-3371 | `while (5);` prints an error, and the function returns instead of raising |
| Layout.StmtInside | compile.c:3023-3096 | every branch of a statement's code that is not pending goes to a place inside the code or to its end |
| Layout.BodyClosed | compile.c:3911-3950 | in a function's code no branch is pending, all targets are inside, and control does not run off the end |
| Heights.ExprHeights | compile.c:2264-3015 | an expression's code has one stack height for each place, kept by every instruction and every branch; it starts and ends at the height it found, and its value comes from the last instruction on every path |
| Heights.StmtHeights | compile.c:3246-3847 | a statement's code has one stack height for each place, starts and ends with an empty stack, and a break, continue or return is at height zero, or has the operands of a tail call only |
| Heights.HeightsKept | execute.c:1069-1572 | at every time of every run the stack is as high as the place of the instruction says, above what the callers left for the places where they go on |
| Heights.SameHeight | execute.c:1069-1572 | two runs, from any states, that are at the same place with callers at the same places have stacks of the same height |
| Estimates.NotBelow | divide.c:171-199 | the digit estimated from leading digits, scaled, is not below the true digit, for any base |
| Estimates.Excess | divide.c:171-210 | by how little an estimate that is too large takes too much, after the correction by a third digit |
| Estimates.AtMostOneAbove | divide.c:171-210 | after the correction the estimate is the true digit or one more |
| Estimates.ExactDivisor | divide.c:171-210 | if the divisor has no digits beyond those used, the estimate is the true digit |
| Division.StepFacts | divide.c:171-210 | at every step: the estimate is the digit or one more, below the base, and takes at most a small fraction too much |
| Division.StateNext | divide.c:199-242 | after every step the remainder is below the divisor, in as many digits as the next step expects |
| Division.ShortDivisor | divide.c:89-242 | divisors of at most two digits never lose a borrow |
| Division.TopBitSet | divide.c:199-242 | divisors whose top bit is set never lose a borrow |
| Division.LosesExactly | divide.c:171-242 | at every digit a borrow is lost exactly if the product with the largest fitting digit exceeds the remainder and has another length; the digit is then one too large |
| Division.FinalTrimmed | divide.c:211-242 | the remainder has as many digits as its value needs, exactly unless the last step keeps a zero digit |
| Divide.Normalize | divide.c:40-54 | the shift that brings the top digit to at least half of the base, and no further |
| Divide.GuessDigit | divide.c:171-210 | the estimate as computed with two machine digits, corrected by the loop, is the largest digit whose product fits the leading digits |
| Divide.TakeAway | natural.c:1302-1341 | subtracting the product: what the remainder is afterwards, and that no borrow is returned where the product is longer than the remainder |
| Divide.AddBack | natural.c:1383-1417 | adding the divisor back cancels the borrow that the whole partial product left |
| Divide.DivideStep | divide.c:133-243 | one step finds the true digit and leaves the true remainder, or loses a borrow exactly if Next says so |
| Divide.DivideLong | divide.c:88-262 | quotient and remainder, the remainder's length, and exactly when a borrow is lost; then the digits found so far are too large whatever follows |
| Divide.NaturalDivide | divide.c:56-290 | a == q * b + r and r < b exactly if no borrow is lost, told from the operands; otherwise the quotient is too large; the remainder is trimmed exactly unless NotTrimmed |
| Divide.NoRecovery | divide.c:133-257 | a quotient whose upper digits are too large is too large |
| Divide.ExactWhen | divide.c:56-290 | no borrow is lost if the divisor has at most two digits or its top bit is set |
| Divide.NotDivisible | divide.c:199-242 | dividing 2^96 - 1 by 0xaaaaaaaaaaaaaaaaf000 loses a borrow |
| Divide.LeavesZero | natural.c:1407-1416 | dividing 5 * 2^64 + 2 by 2^64 + 1 leaves a remainder with a zero digit at its top |
| Naturals.NaturalSubtractOffset | natural.c:1302-1341 | the digits afterwards, the borrow returned and the borrow swallowed by a zero digit, in every case |
| Naturals.NaturalAddOffset | natural.c:1383-1417 | the sum modulo the weight above its top digit, and what is trimmed |
| Naturals.NaturalDigitMultiply | natural.c:1290-1296 | the product with one digit, and its length |
| Naturals.NaturalLess | natural.c:112-135 | the order of the values |
| NaturalShift.NaturalRsl | natural.c:1109-1163 | the value divided by a power of two, trimmed |
| NaturalShift.NaturalMask | natural.c:1222-1261 | the value modulo a power of two, trimmed |
| NaturalShift.NaturalPowerOfTwo | natural.c:1262-1289 | the exponent, exactly if the number is a power of two |
| Inverses.DigitInverse | gcd.c:235-250 | the inverse of an odd digit modulo the base, by repeated squaring |
| Inverses.DigitBmod | gcd.c:102-134 | the one quotient of two digits modulo 2^s |
| Inverses.QuotUnique | gcd.c:344-386 | only one number below 2^s makes the low s bits of the product agree |
| Bdivmods.ReducedSame | gcd.c:344-386 | the exact reduction keeps the odd divisors in common with v, and leaves less than u / 2^bits + v |
| Bdivmods.BdivmodExact | gcd.c:344-397 | the reduction in place is the exact one exactly if its last bit does not read a digit left behind |
| Bdivmods.BdivmodBound | gcd.c:344-397 | the result in place is short, exact or not, so the digits have room and the reductions end |
| Karys.MultipliersSmall | gcd.c:579-623 | the two multipliers are below 2^17 and 2^15, and make the low digits agree |
| Karys.ReducedRatMod | gcd.c:579-623 | Euclid's algorithm by shifts and subtractions finds the multipliers; a negative one as its residue |
| Karys.KaryKept | gcd.c:625-802 | a reduction with two multipliers loses no odd common divisor |
| GcdInPlace.NaturalRslInplace | gcd.c:47-97 | the value divided by a power of two; the digits beyond the result stay |
| GcdInPlace.NaturalBdivmodStepInplace | gcd.c:252-342 | the absolute value of the difference with a multiple, shifted by a digit or not; which digits are written and which are left as they were |
| GcdInPlace.NaturalBdivmodInplace | gcd.c:344-386 | the digits after all steps, stale ones included, are those that InPlace defines |
| KaryInPlace.NaturalKaryReductionInplace | gcd.c:625-802 | both products digit by digit, added or subtracted, the sign taken off: the value is Kary |
| NaturalGcds.NaturalZeroBits | gcd.c:559-576 | the number of low zero bits |
| NaturalGcds.NaturalGcdNormalize | gcd.c:825-857 | a copy without its low zero bits, with room for two more digits |
| NaturalGcds.NaturalWidth | gcd.c:136-197 | the place of the top bit, found by halving a digit |
| NaturalGcds.WeberLoop | gcd.c:975-1006 | the loop ends, stays within the digits allocated, and leaves the number that Weber defines |
| NaturalGcds.FixPass | gcd.c:1006-1045 | one pass leaves what Fix defines, or loses a borrow, or shifts by a negative count |
| NaturalGcds.NaturalGcd | gcd.c:880-1056 | the method on digit arrays computes exactly the function Gcd, and gives zero if either number is zero |
| GcdConditions.ZeroOperand | gcd.c:892-895 | if either number is zero the result is zero, which is a greatest common divisor exactly if both are |
| Gcds.WeberKept | gcd.c:975-1006 | reductions that read nothing left behind keep every odd common divisor to the end |
| Gcds.WeberSmall | gcd.c:975-1006 | and leave less than twice the smaller number, so the passes never shift by a negative count |
| Gcds.BinaryExact | gcd.c:908-970 | the binary algorithm finds the odd greatest common divisor |
| Gcds.FixExact | gcd.c:1006-1045 | a pass removes exactly the factors that do not divide the number |
| Gcds.GcdExact | gcd.c:880-1056 | where nothing left behind is read and no borrow is lost the result is the greatest common divisor |
| GcdConditions.TwoDigitsExact | gcd.c:908-970 | right for all numbers whose odd parts have at most two digits |
| GcdConditions.HalfDigitExact | gcd.c:975-1056 | right if one odd part is at most 2^31, for any other number |
| GcdConditions.RightWhenKept | gcd.c:975-1056 | right only if the reductions keep every odd common divisor, for all numbers; and, given passes that read nothing left behind, exactly then |
| GcdConditions.FoundDivides | gcd.c:1006-1045 | a pass that ends leaves an odd divisor of the number it starts from, whatever it has read |
| LostDivisors.SevenLost | gcd.c:880-1056 | two numbers with greatest common divisor 7 for which the result is 1 |
| LostDivisors.SevenNotKept | gcd.c:975-1006 | for these the passes read nothing left behind, and the reductions have lost the divisor |
| NaturalGcds.Subtract | gcd.c:1026-1039 | subtracting in place: the difference, or, where the borrow falls to a zero digit, the difference with the largest digit there |
| NaturalGcds.BinaryRound | gcd.c:1026-1039 | one round of the loop in place leaves the pair that Round defines, whether a borrow is lost or not, and tells whether one is |
| LostBorrows.FoundByRounds | gcd.c:1026-1039 | where no borrow is lost the rounds of the loop end with what the binary algorithm finds |
| LostBorrows.NeverEnds | gcd.c:1026-1039 | an even number of one digit and an odd one of three or more: after any number of rounds they still are, and the digits above the second are unchanged |
| LostBorrows.LoopsForever | gcd.c:880-1056 | two numbers without a common divisor with which the first pass enters such a loop |
| NegativeShifts.ShiftsByLess | gcd.c:1006-1045 | two numbers with which the second pass is to reduce by -2 bits |
| Twixts.DueExactly | sched.c:571-644 | what is due: exactly the blocks around the start and not around the target are left, from the inside out, then exactly those the other way round entered, from the outside in |
| Twixts.JumpIsDue | sched.c:571-644 | the walk is what is due, leave parts innermost first up to the common block, then enter parts outermost first, exactly unless the jump stays inside |
| Twixts.LeavesAll | sched.c:823-838 | a jump that stays inside leaves all blocks around its starting point, and enters those between |
| Twixts.FarJumpIsDue | sched.c:571-644 | a jump that only goes up leaves exactly the blocks it goes out of, always |
| Twixts.Thread.TwixtNext | sched.c:1086-1094 | the block below a given one in a chain |
| Twixts.Thread.JumpStart | sched.c:911-954 | the deepest common block is found by depths, and the jump set up for it |
| Twixts.Thread.JumpContinue | sched.c:862-905 | one leg of the jump: the next event, in the context of the block around it, or the target |
| Twixts.Thread.ContinuationJump | sched.c:956-977 | the jump ends at its target, and its events are those due exactly unless it stays inside |
| Semaphores.StepKeeps | sync.c:12-58 | every instruction of every thread keeps queues, waits and counts consistent |
| Semaphores.SemaphoreCounts | sync.c:12-58 | after any run: count == first count + signals - waits begun, blocked threads == max(0, -count), completed waits at most first count + signals |
| Semaphores.CountsExactly | sync.c:99-124 | that holds after all runs exactly if no first count is below zero |
| Semaphores.NegativeStart | sync.c:99-124 | with a first count of -1 a run of one signal breaks the bound on completed waits |
| Semaphores.FirstComeFirstServed | sched.c:92-109 | a signal with waiters wakes the thread that has waited longest, and only that |
| Turns.StepOrdered | sched.c:17-90 | every instruction keeps both queues in the order of priority, also where a thread is spawned, sleeps or wakes |
| Turns.RunOrdered | sched.c:17-90 | after any run the queues are in order, and the first thread has the highest priority of those that can run |
| Turns.TakesTurn | sched.c:79-90 | if the same threads can run afterwards, the thread that has executed its instruction stands behind all others of its priority and the next one is first |
| Turns.BehindItsEquals | sched.c:79-90 | whatever threads are spawned or woken, only threads of a lower priority stand behind the one that has completed its instruction |
| Turns.RoundRobin | sched.c:79-90 | of n threads of the highest priority that go on each executes one of n instructions, in the order of the queue, which is then as before |
| Turns.ThreadTable | sched.c:60-109 | what one instruction does to each thread: completed, asleep, finished, woken, spawned with its priority, or unchanged |
| Scheduling.Scheduler.Enqueue | sched.c:17-38 | a thread goes behind those of the same or a higher priority |
| Scheduling.Scheduler.Dequeue | sched.c:40-58 | a thread is taken out of its queue |
| Scheduling.Scheduler.ThreadStepped | sched.c:79-90 | a thread goes behind its equals only if the next one has no lower priority |
| Scheduling.Scheduler.ThreadsWakeup | sched.c:92-109 | the first sleeper on a semaphore is woken |
| Scheduling.Scheduler.SemaphoreWait | sync.c:12-29 | the first execution takes the count and may sleep; the second, told by `partial`, only completes |
| Scheduling.Scheduler.Execute | sync.c:12-58 | one instruction changes queues, threads and counts as the step function says |
| Mutexes.MStepKeeps | mutex.5c:43-77 | every step of every thread keeps the tally of grips on each mutex |
| Mutexes.MutualExclusion | mutex.5c:43-77 | in every interleaving a mutex has at most one holder |
| Ownership.TakerOwns | mutex.5c:43-67 | the thread that goes on from taking the semaphore is the owner, and no other mutex changes its owner |
| Ownership.OwnerIsHolder | mutex.5c:43-77 | after any run the owner is the thread that last completed an acquire or a successful try and has not released since |
| Ownership.ReleaseByHolder | mutex.5c:69-77 | a release goes on exactly for that thread, and then nobody is the owner; for others nothing changes |
| Ownership.AcquireOfHeld | mutex.5c:43-67 | while a mutex is held an acquire is raised exactly for its holder, every other waits and blocks, and a try fails |
| Ownership.HolderAlone | mutex.5c:43-77 | while a thread holds the mutex it is the only one that has taken its semaphore or is about to signal it |
| Ownership.FreeIsObtained | mutex.5c:43-67 | a mutex that nobody holds or waits for is obtained at once, by a wait and by a try |
| Primes.EveryPlace | hash.c:51-100 | steps of any length go round every slot of a table of prime size |
| HashTables.HashTable.Find | hash.c:51-100 | ends, at the key or at the first slot on the way that is not live |
| HashTables.HashTable.Rehash | hash.c:102-121 | the live entries, and no others, are in the new slots |
| HashTables.HashTable.Resize | hash.c:123-139 | the table holds the same map in more slots, none of them deleted |
| HashTables.HashTable.HashSet | hash.c:373-391 | the map with the key set, and nothing else changed; the size it has grown to |
| HashTables.HashTable.HashRef | hash.c:401-425 | the slot of the key, entered if need be; a new entry reads as Void exactly if the table does not grow and a deleted slot comes before the first one never used |
| HashTables.HashTable.HashGet | hash.c:338-371 | the value, the default entered, or the default entered too late, by whether the table grows |
| HashTables.HashTable.HashTest | hash.c:427-436 | whether the map has the key |
| HashTables.HashTable.HashDelete | hash.c:438-454 | the map without the key, and nothing else changed |
| HashTables.HashTable.HashKeys | hash.c:456-479 | all keys of the map, each once |
| HashTables.HashTable.DeleteThenRef | hash.c:401-454 | a key deleted and referred to again reads as Void |
| HashTables.PutSound | hash.c:373-391 | putting a key where a search for it ends keeps every key reachable and held once |
| HashTables.DeleteSound | hash.c:438-454 | so does leaving a deleted slot behind |
| HashTables.CountIsSize | hash.c:102-121 | the number of live slots is the number of keys |
| HashTables.ThirdDefault | hash.c:338-371 | of three missing keys read with a default the third is counted but not entered, for any table of sizes that starts with two entries |
| HashSizes.AsWritten | hash.c:14-48 | all 31 sizes as written are prime, grow, and have room for more slots than entries |
| HashSizes.UsableRows | value.h:849-853 | a row is stored as written in 32-bit integers, its box allocated with the right number of values, and no step of a search overflows, exactly if it is one of the first 29 |
| HashSizes.LastRows | hash.c:45-46 | the row before the last is stored, but asks for a negative number of values; the last is stored negative |
| HashSizes.UsableSizes | hash.c:15-44 | the first 29 sizes are good, so that what is proved of hash tables holds of tables with them |
| HashSizes.GrowsAlike | hash.c:381-385 | tables grow like those with the first 29 sizes only, exactly until one of the 29th holds 536870912 entries |
| Certificates.PrimeByOrder | hash.c:14-48 | what shows a size to be prime: a number whose powers leave one for the size less one, but not for its quotients by primes whose product exceeds the root |

## Left out

- The static types: whether a call may be a tail call, that a condition is a boolean, and the type of a function's result
  come from the type checker, which is no part of the model. A call carries a flag, and a condition folded to a constant
  that is no boolean stands for the type error.
- A void call in the last position of a function becomes a tail call, too (compile.c:3823-3827); whether a call is void
  only the types tell, and that its result is then the void value would have to be assumed.
- Nested functions, variable numbers of arguments, builtin functions, statements in expressions, union switches, catch
  and twixt inside compiled code, and profiling. Primitive operators are arbitrary functions of their operands, and
  values are not copied when they are assigned.
- TailCalls.TailCallsInvisible: covers the tail calls that `return` makes, not those of void calls.
- Compiler.CompileShort: an operand that folds to a constant which is no boolean is an error; the source leaves that to
  the combination of the types.
- Compiler.CompileCall: the types of the arguments are not checked, and a result is not dereferenced.
- Compiler.CompileArgs: no `...` actuals.
- Compiler.CompileStat: no catch, twixt, union switch or declaration.
- Compiler.CompileSwitch: no union switch.
- Compiler.Object.PatchLoop: no far jumps, and no nested function objects.
- Compiler.Object.CompileNonLocal: no far jumps through twixt or catch blocks.
- Compiler.Object.IsReachable: no OpObj and no OpFarJump.
- Compiler.CompileFuncCode: that a function with a result type reaches its end is no error.
- Execute.Thread.Step: no builtins, arrays, type checks and exception handlers.
- Execute.Thread.ThreadCall: no type checks, variable numbers of arguments and builtins.
- Scheduling.Scheduler.ThreadsWakeup: wakes one sleeper; waking all of them is not modelled.
- Divide.GuessDigit: the or of bits that do not overlap is written as a sum.
- Divide.DivideLong: stops at the first borrow that is lost; what the code finds after it is not followed, as no quotient
  with the digits found so far is right.
- NaturalGcds.FixPass: stops where a borrow is lost, or where a shift by a negative count is undefined. What the code
  does after a lost borrow is what the rounds of `LostBorrows` say, which need not end. The binary algorithm on one and
  on two digits is written once.
- KaryInPlace.NaturalKaryReductionInplace: the three loops over the digits of both numbers, of the first and of the second
  are written as one.
- Stopping when the user interrupts a computation, allocation failures, and the pool of small naturals.
- Twixts.Thread.ContinuationJump: each leave or enter part runs to its end; jumps out of such a part, and exceptions that
  nobody handles, are not modelled.
- Semaphores.SemaphoreCounts: threads are not killed, and get no signals; other reasons to sleep and changes of priority
  other than that of a wait are not modelled.
- HashTables.HashTable.Resize: integers are unbounded; which sizes the interpreter's integers can hold is told by
  `HashSizes.UsableRows`.
- HashTables.HashTable.Find: equality of keys is equality, and the hash a function of the key.
- HashTables.HashTable.HashGet: an entry that comes too late is written to slots that nobody reads any more.
- Printing and reading of numbers, rationals, floats, products of naturals, the heap and the chunked stack.
