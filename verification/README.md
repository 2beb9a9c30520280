# Verification of the QNICE toolchain's core

A Dafny model of five parts of the QNICE tools under `M2M/QNICE`, with proofs about them.

- **128-bit division of vasm** (`Nonlinear`, `Digits`, `Bits`, `DigitShift`, `LongDivision`, `LiteralDivision`,
  `HugeInt`, `HugeSigned`). The digit loops of `divmod` run on arrays of 32-bit digits with wrapping 64-bit
  accumulators, as in C, and are proved against the numbers that the digits stand for. Line 474 of `hugeint.c` adds
  two 32-bit values, which loses the carry. The parameter `wide` selects the sum: with `wide` it is formed at the
  width of the 64-bit accumulator `t`, and the division theorem holds for all operands; without it the line is taken
  as written, and `HugeInt.Divmod` says for which operands the result is right, in both directions.
- **The optimizer of vbcc** (`FlowGraph`, `InstructionList`, `LiveVars`, `LiveMeaning`, `Available`, `Sorting`,
  `Numbering`, `CopyNumbers`, `CopyProp`, `CopyPass`, `Expressions`, `AvailExp`, `ExpressionPass`, `AvailableMeaning`,
  `JumpOpt`). A flow graph is a
  sequence of blocks in program order, `normalout` being the next block and `branchout` the branch's target; an
  instruction has a use list and a change list. Running a graph is defined by small steps over a store of scalar
  variables, with calls, returned values and volatile accesses as events. The three dataflow loops and the
  transformations that rest on them are methods on arrays of sets and of blocks. `LiveMeaning` and `AvailableMeaning`
  say what the sets are in terms of instructions and paths, and what is deleted and replaced.
- **The QNICE processor and its assembler** (`Cpu`, `CpuShift`, `CpuChain`, `CpuBanks`, `CpuCompare`, `CpuMeaning`,
  `CpuInterrupts`, `QniceEmulator`, `AsmText`, `AsmData`, `Assembler`, `BranchToLabel`, `Disassembler`, `AsmMeaning`,
  `AsmExamples`). `Cpu` says what one
  instruction does to the machine; the class `QniceEmulator.Emulator`, with C's register and memory arrays and
  interrupt flags, is proved to do exactly that. The assembler's two passes fill one array of entries. `BranchToLabel`
  and `Disassembler` join the two independent descriptions of the instruction set; `CpuMeaning` says in numbers and bits
  what each instruction leaves where, and `AsmMeaning` that the processor does so for a line of text.
- **The IDE controller simulation** (`Ide`, `IdeTransfer`, `IdeSafety`, `IdeHost`, `IdeSimulation`). `Ide` is the
  device as a state machine; the class `IdeSimulation.IdeDevice` has C's fields and is proved to make the same moves.
  `IdeHost` states what a host finds, by its own reads alone.
- **Layout and object formats of vasm** (`Sections`, `SectionMeaning`, `Srec`, `SrecOutput`, `SrecMeaning`, `Vobj`,
  `VobjOutput`, `VobjMeaning`, `VobjDump`, `Resolver`). Writers append to an output in a class with C's buffers and counters; readers are a parser and C's
  cursor; the resolver is the loop over passes with a size function as its parameter.

`dafny verify dfyconfig.toml` checks the project.

## What the proofs found

Places where the code does not do what its comments, documentation or names promise; each is followed to the exact
condition under which it does, or to a concrete case.

- `hugeint.c:474`: without the carry every round that adds back leaves a wrong window. The division is nevertheless
  right when that happens in the first of two rounds only (four digits by three) and no carry between lower digits is
  lost, since the leftover then lies in `uspace[0]`, which is not stored; in all other cases it is wrong
  (`HugeInt.Divmod`, with `HugeInt.AddBackExample` and `HugeInt.SurvivingExample`). Divisors of one or two digits are
  not affected: with two digits no round adds back (`LiteralDivision.TwoDigitsNeverAddBack`).
- `hugeint.c:528-533`: for a negative divisor the remainder has the inverted sign, so a = hdiv·b + hmod holds if and
  only if b > 0 or the remainder is 0 (`HugeSigned.Hmod`).
- `cp.c`: nothing there keeps copies of volatile variables from being propagated, which adds, drops or exchanges
  volatile reads (`CopyProp.VolatileCopyPropagated`); these reads are all that can differ
  (`CopyProp.CopyPropagationPreservesRuns`), and nothing differs in an instruction if and only if it reads the same
  volatile variables as before (`CopyProp.ReplacementIsUnseen`).
- `qasm.c:661-671`: the label of a .ORG line does not stand for the address of the next word but for 0xFFFF, and an
  EQU of the same name shadows a label, since EQUs are searched first. `Assembler.LabelStandsFor` gives the value of
  every label, `Assembler.LabelIsNextAddress` the cases in which it is the next word's address.
- `qasm.c:895-916` with `1123-1154`: when one operand is a number and the other a name, the second pass overwrites a
  word and leaves one as `malloc` gave it (`AsmExamples.MixedExample`).
- `qasm.c:530-531`: an operand that looks like a register beyond R15 is taken for a label but keeps the operand bits
  of R0 (`AsmExamples.RegisterLikeExample`); for `R$`, `R-`, `R+`, `R0X` and numbers beyond an `int` it depends on a
  value that `sscanf` does not define whether they are taken for a register or for a label. The words of a two-operand
  instruction are right for every content of fresh memory if and only if neither occurs
  (`Assembler.NormalWordsAlways`), and a branch to a name goes there on every machine if and only if the name is not
  of this kind (`BranchToLabel.BranchAlwaysGoesToLabel`, `AsmExamples.AbraGoesAstray`).
- `ide_simulation.c`: a host that keeps reading after a refused command makes the device read off its disk
  (`IdeSafety.ImpoliteRunsOff`, `IdeSafety.BrokenOffReached`); `IdeSafety.AccessAstray` and `IdeSafety.AstrayExactly`
  say exactly which accesses do such a thing.
- `ide_simulation.c:604-640`: the verify commands go on from the sector counter that the command before left, so the
  address registers show the last address if and only if that was at most 1 or one sector is verified
  (`IdeHost.VerifyShowsLast`); verifying what has just been written shows the first one
  (`IdeHost.WrittenThenVerified`). Where the disk ends first, the sector count register says at least one sector too
  few are not verified (`IdeHost.VerifyIsSeen`).
- `qnice.c:874-903`: SHL and SHR by n > 0 on `@--R` step R twice and leave the result one cell below the operand; no
  other operand does so (`CpuMeaning.ShiftGoesBack`). By 0 they step `@--R` but not `@R++` (`CpuMeaning.ShiftMeans`).
- `qnice.c:755-760`: V after SUB and SUBC is no overflow flag: it is never set when the signed difference does not fit
  (`CpuMeaning.DifferenceOverflow`).
- `qasm.c:734-745`: a backslash before another character than n and t stays in force, so that a later n or t replaces
  the character before it (`AsmData.StrayBackslash`).
- `cse.c:169-174`: x = x + y and x = y + x are found equal on a machine that does not take its target for a second
  operand if and only if the comparison does not put x before y (`Expressions.SwappedFoundEqual`).
- `vasm.c:176-181`: at MAXPASSES `done` has just been set, so the loop ends with `done` and an error but without a
  fixpoint (`Resolver.SwingingIsNotResolved`); below MAXPASSES `done` means a fixpoint.

## Model

| member | source | states |
|---|---|---|
| HugeInt.Divmod | M2M/QNICE/c/vasm/hugeint.c:371-498 | `None` exactly for a zero divisor. With the add-back sum taken at the width of `t` (`wide`), or as written (line 474) **if and only if** `Survives(a, b)`: a = q·b + r and r < b; the same condition is exact for the remainder alone, and `QuotientSurvives(a, b)` for the quotient. A pair survives when no round adds back, or when four digits are divided by three, only the first round adds back and no carry between its lower digits is lost |
| HugeInt.LongDivide | M2M/QNICE/c/vasm/hugeint.c:425-497 | the part of `divmod` for divisors of two to four digits, on the five-digit arrays: the same promise in both directions, from normalisation to the stored results |
| HugeInt.ShortDivide | M2M/QNICE/c/vasm/hugeint.c:402-423 | a one-digit divisor: a = q·t + r with r < t for four-digit dividends |
| HugeInt.SkipDivisorZeros | M2M/QNICE/c/vasm/hugeint.c:402-423 | the first pointer loop ends at the leading significant digit of the divisor, n is its digit count, and the number denoted is unchanged |
| HugeInt.SkipDividendZeros | M2M/QNICE/c/vasm/hugeint.c:425-426 | the second pointer loop stays inside the array because the dividend is not below the divisor, and keeps the number denoted |
| HugeInt.CountHeadroom | M2M/QNICE/c/vasm/hugeint.c:431-433 | d < 32 and the divisor's leading digit times 2^d lies in [2^31, 2^32) |
| HugeInt.Normalize | M2M/QNICE/c/vasm/hugeint.c:431-437 | both operands are multiplied by exactly 2^d, and the shifted operands are such that every quotient digit fits a digit |
| HugeInt.RunRounds | M2M/QNICE/c/vasm/hugeint.c:438-481 | the rounds on C's pointers into the five-digit arrays divide the normalised operands and leave the digits outside of their windows alone |
| HugeInt.ExactResult | M2M/QNICE/c/vasm/hugeint.c:483-497 | denormalising the remainder's digits gives exactly a - q·b below b |
| HugeInt.SpoiltResult | M2M/QNICE/c/vasm/hugeint.c:471-492 | a leftover of the add-back as written that reaches the stored digits makes the denormalised remainder at least b |
| HugeInt.LossShows | M2M/QNICE/c/vasm/hugeint.c:471-492 | the carries lost in a first round are no multiple of the divisor, so the remainder that is short of them is never the right one by chance |
| HugeInt.UnshiftedSingleRound | M2M/QNICE/c/vasm/hugeint.c:442-478 | with nothing to shift and a quotient of one digit no round adds back |
| HugeInt.AddBackExample | M2M/QNICE/c/vasm/hugeint.c:471-478 | 2^96 / (2^95 + 1) does not survive: its remainder is wrong as written; its quotient is right |
| HugeInt.SurvivingExample | M2M/QNICE/c/vasm/hugeint.c:471-478 | 3·2^126 / (2^94 + 5) adds back in round 0 and is right as written |
| LiteralDivision.TwoDigitsNeverAddBack | M2M/QNICE/c/vasm/hugeint.c:448-471 | with a divisor of two digits no round ever adds back |
| LiteralDivision.LiteralRound | M2M/QNICE/c/vasm/hugeint.c:464-480 | a round of a three-digit division that adds back as written gives the right digit, 2^32 - 1 on top, and a remainder that is short by exactly the carries lost |
| LiteralDivision.LiteralEnd | M2M/QNICE/c/vasm/hugeint.c:442-481 | after both rounds: either the second one adds back as well and leaves its mark, or quotient and remainder are those of a dividend that is short of the carries lost; without a loss the second round adds back exactly when that of the true division does |
| LongDivision.Estimate | M2M/QNICE/c/vasm/hugeint.c:445-463 | the estimate with its jump into the correction loop returns the trial digit, with 64-bit products |
| LongDivision.TrialIsClose | M2M/QNICE/c/vasm/hugeint.c:448-463 | after the correction loop the trial digit is never below the true quotient digit and at most one above it |
| LongDivision.TrialTest | M2M/QNICE/c/vasm/hugeint.c:448-463 | the trial digit times the two leading digits of the divisor is not above the leading three digits of the window |
| LongDivision.SubValue | M2M/QNICE/c/vasm/hugeint.c:464-468 | multiply-and-subtract on wrapping 64-bit accumulators is exact: digits minus borrow equal o - qhat·v |
| LongDivision.MulSub | M2M/QNICE/c/vasm/hugeint.c:464-471 | the digits of the window become those of the difference, the rest of the array stays, and the test of line 471 tells whether the borrow exceeds the top digit |
| LongDivision.SubtractTrial | M2M/QNICE/c/vasm/hugeint.c:464-471 | under the trial digit the branch of line 471 is taken exactly when the digit is one too large |
| LongDivision.AddBack | M2M/QNICE/c/vasm/hugeint.c:472-478 | the add-back loop and its last carry, at either width of the sum |
| LongDivision.AddValue | M2M/QNICE/c/vasm/hugeint.c:473-477 | at the width of `t` the add-back is the exact sum with its carry |
| LongDivision.LiteralHasNoCarry | M2M/QNICE/c/vasm/hugeint.c:474 | as written, no carry ever forms |
| LongDivision.RoundIsExact | M2M/QNICE/c/vasm/hugeint.c:442-480 | a round leaves the true digit always, and the true remainder if it does not add back or adds at the wide width; an add-back as written leaves 2^32 - 1 where the remainder has a zero |
| LongDivision.Rounds | M2M/QNICE/c/vasm/hugeint.c:442-481 | the whole loop: the digits are the exact division of the window **if and only if** the sum is wide or no round adds back; otherwise the first round that adds back leaves 2^32 - 1 at its place |
| LongDivision.LeftoverIsNoRemainder | M2M/QNICE/c/vasm/hugeint.c:471-478 | what such a round leaves is not the result of a division |
| DigitShift.ShiftDigits | M2M/QNICE/c/vasm/hugeint.c:359-368 | in place, the digits shifted left by 1 to 31 bits, and no others |
| DigitShift.ShlValue | M2M/QNICE/c/vasm/hugeint.c:359-368 | those digits are the number times 2^sh, less what leaves at the top |
| DigitShift.Denormalize | M2M/QNICE/c/vasm/hugeint.c:484-490 | in place, the remainder's digits shifted right under the digit above them, which is cleared |
| DigitShift.ShrValue | M2M/QNICE/c/vasm/hugeint.c:485-488 | those digits times 2^d are the number plus what comes in at the top, less what falls out |
| HugeSigned.Hneg | M2M/QNICE/c/vasm/hugeint.c:149-156 | two's complement negation across the two words; the minimum is its own negation |
| HugeSigned.Hdiv | M2M/QNICE/c/vasm/hugeint.c:501-516 | truncation toward zero on all operands but minimum / -1, which wraps to the minimum: with the wide sum, and as written if and only if `QuotientSurvives` of the magnitudes |
| HugeSigned.Hmod | M2M/QNICE/c/vasm/hugeint.c:519-534 | with the wide sum, and as written if and only if `Survives` of the magnitudes, |hmod| < |b| is the truncating remainder, with inverted sign for a negative divisor; so a = hdiv·b + hmod holds if and only if b > 0 or the remainder is 0 |
| HugeSigned.TruncatedBy | M2M/QNICE/c/vasm/hugeint.c:501-534 | truncation toward zero is the quotient q with |a| = q·|b| + r and r < |b|, signed |
| LiveVars.ActiveVars | M2M/QNICE/c/vbcc/av.c:340-400 | for every finite flow graph the loop stops, at the least solution of the equations, which have the globals and statics live at the end |
| LiveVars.Change | M2M/QNICE/c/vbcc/av.c:304-339 | use and def after an instruction; x = x op y neither defines nor newly uses x |
| LiveVars.NeedIsLive | M2M/QNICE/c/vbcc/av.c:388-391 | what the code that is left of a block reads is within use(B) + (out(B) - def(B)) |
| LiveVars.KeptAgrees | M2M/QNICE/c/vbcc/av.c:447-462 | running what is left of a block gives the values needed afterwards and the same events, from any two stores that agree on what the block needs |
| LiveVars.DeadAssignments | M2M/QNICE/c/vbcc/av.c:439-462 | in place, every block loses exactly the non-volatile assignments whose target is not in the backward set from `av_out`; the result tells whether one other than a GETRETURN was deleted |
| LiveVars.DeadAssignmentsPreserveRuns | M2M/QNICE/c/vbcc/av.c:439-462 | on every run of any length both graphs are in the same block with the same condition code, events and live variables |
| LiveVars.CleanedRunsTheSame | M2M/QNICE/c/vbcc/av.c:383-387 | so at exit the variables visible to the caller agree |
| LiveVars.EliminateDead | M2M/QNICE/c/vbcc/av.c:340-462 | analysis and deletion together: every run keeps its path, its events and what the caller sees; what is left of each block is what the deletion leaves under the least solution, and a change is reported if and only if something other than a GETRETURN is deleted |
| LiveMeaning.GenKillMeans | M2M/QNICE/c/vbcc/av.c:304-339 | a variable is in use(B) **if and only if** some instruction of the block reads it anew before any overwrites it, and in def(B) **if and only if** one overwrites it before any reads it |
| LiveMeaning.LiveMeans | M2M/QNICE/c/vbcc/av.c:340-400 | a variable is in in(B) **if and only if** there is a path from B on to a block that uses it, or to the end where the caller sees it, with no block before that overwrites it first |
| LiveMeaning.OutMeans | M2M/QNICE/c/vbcc/av.c:370-387 | what counts as used after a block: what is live at a successor, and at the end what the caller sees |
| LiveMeaning.KeptMeans | M2M/QNICE/c/vbcc/av.c:439-462 | of a block exactly those instructions are deleted that assign to a variable whose value no kept instruction reads later in the block and which is not used behind it, unless they touch something volatile: dead assignments are deleted, and only those |
| Available.Solve | M2M/QNICE/c/vbcc/cp.c:63-94 | the loop shared by copies and expressions stops for every finite flow graph at the greatest solution, with an empty entry set |
| Available.AvailableIsSound | M2M/QNICE/c/vbcc/cp.c:71-93 | what is in in(B) was generated on every path from the entry to B and not killed since |
| Available.AvailableIsComplete | M2M/QNICE/c/vbcc/cp.c:63-94 | where every block is reachable, whatever lasts on every path to B is in in(B) |
| CopyProp.AvailableCopies | M2M/QNICE/c/vbcc/cp.c:20-98 | gen and kill of every block from its instructions, then the greatest solution |
| CopyProp.GenKillSums | M2M/QNICE/c/vbcc/cp.c:40-54 | gen and kill computed from the end are disjoint and have the effect of running through the block |
| CopyProp.BlockKeepsCopies | M2M/QNICE/c/vbcc/cp.c:40-54 | running a block keeps the two variables of every active copy equal |
| CopyProp.Cprop | M2M/QNICE/c/vbcc/cp.c:215-275 | an operand changes only through an active copy of it that this pass has not rewritten: to the source of the first listed one that serves it, and it is reported changed exactly if it differs |
| CopyProp.PropagateBlock | M2M/QNICE/c/vbcc/cp.c:284-334 | in place, one block: each operand is kept or replaced through a copy that is active at that instruction; the graph and the set of rewritten copies are those of `Rewriting`, which the example below follows |
| CopyProp.CopyPropagation | M2M/QNICE/c/vbcc/cp.c:276-340 | in place, all blocks, starting from `cp_in` or, not global, from nothing: the graph left is that of `RewritingAll`, block after block and instruction after instruction |
| CopyProp.CopyPropagationPreservesRuns | M2M/QNICE/c/vbcc/cp.c:276-341 | on every run from the entry, whatever is volatile: the same blocks and stores, and the same calls, returned values and volatile writes in the same order; where every instruction reads the same volatile variables as before, the same events altogether; the copies active at a block have equal variables |
| CopyProp.PropagateCopies | M2M/QNICE/c/vbcc/cp.c:20-98 | the analysis followed by the transformation in place: the same guarantees on every run from the entry, and the graph left is the one that the greatest solution leads to |
| CopyPass.NumberAndPropagate | M2M/QNICE/c/vbcc/cp.c:20-341 | numbering, analysis and transformation, one after the other, on any covered graph: the same guarantees, with nothing taken as given about the numbers, and the graph left is the numbered one rewritten with the copies that the greatest solution has for each block |
| AvailableMeaning.CopiesAreExact | M2M/QNICE/c/vbcc/cp.c:20-98 | where every block is reachable, a copy is in cp_in(B) **if and only if** every path from the entry to B makes it and changes neither of its variables afterwards |
| AvailableMeaning.ChosenMeans | M2M/QNICE/c/vbcc/cp.c:215-320 | what becomes of one instruction: each operand takes the source of the first active copy of it whose instruction still is that copy and passes the tests, and stays if there is none; addresses are not touched, and the second operand is taken back where it may not be the target |
| AvailableMeaning.RewritingPropagates | M2M/QNICE/c/vbcc/cp.c:284-340 | one block: every instruction in turn, with the copies that hold before it, leaving out those rewritten in this pass |
| AvailableMeaning.RewritingAllPropagates | M2M/QNICE/c/vbcc/cp.c:276-340 | so what the transformation leaves of the graph: every block in turn, from what is available at its start |
| CopyProp.QuietReplacements | M2M/QNICE/c/vbcc/cp.c:231-237 | where no operand that differs is volatile, before or after, every instruction reads the same volatile variables |
| CopyProp.ReplacementIsUnseen | M2M/QNICE/c/vbcc/cp.c:231-275 | for every kind of instruction and both operands: after replacement it stores, tests, calls and returns the same, and it is the same with all that it shows **if and only if** it reads the same volatile variables in the same order |
| CopyProp.VolatileCopyPropagated | M2M/QNICE/c/vbcc/cp.c:276-334 | on the block x1 = x0; x2 = x1 with x0 volatile the transformation gives x2 = x0, and running the block reads x0 twice instead of once |
| CopyNumbers.NumCopies | M2M/QNICE/c/vbcc/cp.c:115-207 | exactly the copies get numbers, two the same if and only if `compare_cp` calls them equal, the list has one of each number, and the matrix names for each variable the copies that it takes part in |
| CopyNumbers.FillMatrix | M2M/QNICE/c/vbcc/cp.c:174-199 | the matrix is that of a table in which every number names one copy |
| CopyNumbers.Enumerate | M2M/QNICE/c/vbcc/cp.c:122-125 | the first loop: exactly the copies get numbers, each its own |
| Numbering.CompareCpEqual | M2M/QNICE/c/vbcc/cp.c:100-113 | `compare_cp` is 0 exactly for copies of the same variable to the same variable |
| Numbering.CompareExpEqual | M2M/QNICE/c/vbcc/cse.c:130-146 | `compare_exp` is 0 exactly for the same operator on the same operands |
| Numbering.ComparingCompares | M2M/QNICE/c/vbcc/cse.c:103-146 | both comparisons are total orders, as the sort needs |
| Numbering.SortList | M2M/QNICE/c/vbcc/cse.c:188 | sorting keeps every numbered instruction in the list once |
| Numbering.Renumber | M2M/QNICE/c/vbcc/cse.c:190-195 | one pass over neighbours of the sorted list gives equal numbers exactly to equal instructions |
| Numbering.ShareNumbers | M2M/QNICE/c/vbcc/cse.c:177-199 | enter, sort, renumber and enter again: numbers are equal if and only if the comparison says so, and the list has one instruction of each number |
| Sorting.VqSort | M2M/QNICE/c/vbcc/supp.c:1415-1452 | for any total order: the array ends sorted and a permutation of itself, for every length, recursing on the smaller part |
| Sorting.Split | M2M/QNICE/c/vbcc/supp.c:1419-1441 | partitioning around the tracked middle element stops, stays inside the array and leaves two non-empty parts in order |
| Expressions.NumExp | M2M/QNICE/c/vbcc/cse.c:155-245 | exactly the expressions get numbers, among them every operator and address with a target, two the same if and only if `compare_exp` calls them equal, and `ae_kills` knows for each number which variables end it |
| Expressions.Enumerate | M2M/QNICE/c/vbcc/cse.c:163-176 | the first loop, with operands of commutative operators put in order |
| Expressions.OrderedExec | M2M/QNICE/c/vbcc/cse.c:169-174 | putting operands in order changes nothing that the instruction does, unless both are volatile |
| Expressions.SwappedFoundEqual | M2M/QNICE/c/vbcc/cse.c:163-176 | a commuting operator on the same operands the other way round is found equal, unless an operand is the target and the machine does not take its target for a second operand; then, for x = x + y, **if and only if** the comparison does not put x before y |
| Expressions.Kills | M2M/QNICE/c/vbcc/cse.c:220-243 | a number is noted at a variable exactly if the listed expression reads it |
| AvailExp.AvailableExpressions | M2M/QNICE/c/vbcc/cse.c:17-100 | for every finite flow graph the loop stops at the greatest solution |
| AvailExp.GenKillSums | M2M/QNICE/c/vbcc/cse.c:38-54 | gen and kill computed from the end are disjoint and have the effect of running through the block |
| AvailExp.ExpressionKeepsValue | M2M/QNICE/c/vbcc/cse.c:41-50 | whatever is executed after an instruction without ending its expression, computing the expression again gives the same value |
| AvailExp.AvailableExpressionsAreSound | M2M/QNICE/c/vbcc/cse.c:65-96 | if i is in in(B), every path from the entry to B has an instruction numbered i after which no operand changes, and in every run along it the expression still has the value computed there |
| ExpressionPass.NumberAndAnalyse | M2M/QNICE/c/vbcc/cse.c:17-245 | numbering and analysis, one after the other, on any covered graph: where the number of an instruction p is in in(B), on every path from the entry to B and for every run along it some instruction of the same number has computed the value that p would compute at the start of B; the sets are the greatest solution; and the numbering itself changes no run, where the operators commute and no instruction reads two volatile variables |
| AvailableMeaning.ExpressionsAreExact | M2M/QNICE/c/vbcc/cse.c:17-100 | where every block is reachable, a number is in ae_in(B) **if and only if** every path from the entry to B has an instruction of that number such that neither it nor any behind it changes one of its operands |
| JumpOpt.MarkReachable | M2M/QNICE/c/vbcc/flow.c:348-356 | the recursion ends, negates only reachable blocks and marks every successor of what it marked |
| JumpOpt.MarkAll | M2M/QNICE/c/vbcc/flow.c:348-356 | from the entry the index of exactly the reachable blocks is negated, to its negative |
| JumpOpt.DeletingKeepsRuns | M2M/QNICE/c/vbcc/flow.c:369-396 | deleting an unmarked block: runs execute the same sequences of non-branch instructions with the same stores, in both directions |
| JumpOpt.DroppingKeepsRuns | M2M/QNICE/c/vbcc/flow.c:397-403 | the same for dropping a branch to the following block |
| JumpOpt.UncrossingKeepsRuns | M2M/QNICE/c/vbcc/flow.c:411-433 | the same for `bcc l1; bra l2; l1:` with the condition negated |
| JumpOpt.UncrossingCloses | M2M/QNICE/c/vbcc/flow.c:411-433 | the rewritten pair of blocks is again such a pair, and rewriting it leads back |
| JumpOpt.BypassingKeepsRuns | M2M/QNICE/c/vbcc/flow.c:563-586 | the same for a branch to a block that only branches on |
| JumpOpt.RewriteBlock | M2M/QNICE/c/vbcc/flow.c:397-433 | the rewriting of one reachable block in place: a branch to the next block is gone; around a branch the condition holds exactly where it did not and leads where the second branch led, and the second branch leads where the first did; nothing else changes, and a change is reported exactly if there was one of the two |
| JumpOpt.RewriteBlocks | M2M/QNICE/c/vbcc/flow.c:367-562 | the first loop: afterwards unmarked blocks are gone and no marked block branches to the next one or around a branch, with labels and instructions as before; a change is reported exactly if that was not so before, and then fewer blocks and branches are left |
| JumpOpt.BypassBranches | M2M/QNICE/c/vbcc/flow.c:563-586 | the second loop, with predecessor lists that the first may have made out of date: block after block, exactly the listed predecessors that branch to a block that only branches on go where that goes; a reported change makes the blocks that branches pass on their way fewer, if the lists have all branches |
| JumpOpt.BypassBlock | M2M/QNICE/c/vbcc/flow.c:567-581 | one block of the second loop: its listed predecessors that branch to it branch on where it branches, all others stay |
| JumpOpt.DetoursShrink | M2M/QNICE/c/vbcc/flow.c:563-586 | bypassing a block never makes a detour longer, and makes one shorter if no branch leads to the block any more, whatever circles there are |
| JumpOpt.JumpOptimizationPass | M2M/QNICE/c/vbcc/flow.c:362-586 | one pass, from the entry: the same sequences of non-branch instructions on all runs, every unreachable block gone, and a change reported **if and only if** the graph was not tidy: an unreachable block, a branch to the next block or around a branch, or a branch to a branch; a change lowers the measure of blocks, branches and detours |
| JumpOpt.ListPredecessors | M2M/QNICE/c/vbcc/flow.c:170-191 | the predecessor lists: the block before and exactly the blocks that branch there |
| JumpOpt.JumpOptimization | M2M/QNICE/c/vbcc/flow.c:357-588 | the repetition ends for every graph, also one with circles of branches; then runs execute the same sequences of non-branch instructions, every block is reachable or empty, and no branch leads to the next block, around a branch or to a block that only branches on |
| Cpu.Slot | M2M/QNICE/emulator/qnice.c:340-366 | register indices stay inside the register file in every state |
| QniceEmulator.Emulator.Reset | M2M/QNICE/emulator/qnice.c:531-554 | registers and memory below the I/O area are cleared, and the interrupt flags; the I/O area and the saved interrupt values stay |
| QniceEmulator.Emulator.ReadRegister | M2M/QNICE/emulator/qnice.c:340-350 | banked read, the lowest bit of SR set |
| QniceEmulator.Emulator.WriteRegister | M2M/QNICE/emulator/qnice.c:355-366 | banked write; nothing else changes |
| QniceEmulator.Emulator.ReadSourceOperand | M2M/QNICE/emulator/qnice.c:649-682 | operand value, and the register stepped by the mode |
| QniceEmulator.Emulator.WriteDestination | M2M/QNICE/emulator/qnice.c:688-719 | where the result goes, and the register stepped by the mode |
| QniceEmulator.Emulator.UpdateStatusBits | M2M/QNICE/emulator/qnice.c:735-774 | flags from the 17-bit result, with the old overflow logic |
| QniceEmulator.Emulator.Shift | M2M/QNICE/emulator/qnice.c:874-903 | the bit-by-bit loops compute the shifts that the lemmas are about |
| QniceEmulator.Emulator.Calculate | M2M/QNICE/emulator/qnice.c:846-936 | ADD, ADDC, SUB, SUBC and AND, OR, XOR on the fields: the state of the step function, whose meaning `CpuMeaning` states |
| CpuCompare.ComparePerformed | M2M/QNICE/emulator/qnice.c:937-965 | CMP, with any operands: Z if and only if they are equal, N if and only if the first is greater as an unsigned word, V if and only if it is greater as a signed one; X, C, the bank, the other registers and the memory stay as reading the operands leaves them |
| CpuCompare.CompareStep | M2M/QNICE/emulator/qnice.c:779-965 | a whole step that compares two registers: these flags, the program counter advanced by one, and nothing else |
| CpuMeaning.InstructionMeans | M2M/QNICE/emulator/qnice.c:779-936 | a whole step of every two-operand instruction but CMP, SHL and SHR, in all operand modes and with all registers but SR as a target or stepped: the first operand is what is at its place, the result at the place of the second is the sum, difference, AND, OR, XOR, complement, exchanged bytes or copy, with the carry of ADDC and SUBC, both registers step once by their modes, the flags follow the result, and nothing else changes |
| CpuMeaning.CombineMeans | M2M/QNICE/emulator/qnice.c:735-936 | ADD, ADDC: the sum modulo 2^16, C its carry, V **if and only if** the signed sum does not fit; SUB, SUBC: the difference modulo 2^16, C its borrow; AND, OR, XOR: every bit in terms of both operands; Z, N and X match the result |
| CpuMeaning.MovingMeans | M2M/QNICE/emulator/qnice.c:735-915 | MOVE gives its operand, SWAP exchanges the bytes, NOT complements every bit; Z, N and X match, C and V stay |
| CpuMeaning.LogicMeans | M2M/QNICE/emulator/qnice.c:916-936 | bit k of AND, OR and XOR from bit k of both operands, for every k |
| CpuMeaning.NotMeans | M2M/QNICE/emulator/qnice.c:910-915 | bit k of the complement is set exactly if bit k of the operand is not |
| CpuMeaning.DifferenceOverflow | M2M/QNICE/emulator/qnice.c:755-760 | V is never set by a subtraction whose signed result does not fit |
| CpuMeaning.ReadSays | M2M/QNICE/emulator/qnice.c:649-682 | reading an operand gives what is at its place: R, the cell at R, or the cell before it for `@--R`, and steps the register once |
| CpuMeaning.LandedReads | M2M/QNICE/emulator/qnice.c:688-719 | what an instruction leaves at a place can be read there, and every other register but SR is as before |
| CpuMeaning.ShiftMeans | M2M/QNICE/emulator/qnice.c:874-903 | a whole step of SHL or SHR in all operand modes: the value, C, X, Z and N as below, and where the result goes |
| CpuMeaning.ShiftGoesBack | M2M/QNICE/emulator/qnice.c:874-903 | a shift by n > 0 leaves its result where the operand was, with the register stepped once, **if and only if** the operand is not `@--R` |
| CpuMeaning.CompareMeans | M2M/QNICE/emulator/qnice.c:937-965 | a whole step of CMP in all operand modes: both registers step, the flags compare the operands, nothing else changes |
| CpuMeaning.ToStatusMeans | M2M/QNICE/emulator/qnice.c:735-936 | an instruction whose target is SR: SR becomes the result with its lowest bit set, and flags of the same instruction are lost |
| CpuMeaning.MaskedStatusKeepsBank | M2M/QNICE/emulator/qnice.c:916-936 | setting and clearing flags with AND, OR and XOR masks that leave the high byte alone keeps the register bank |
| CpuMeaning.ConditionMeans | M2M/QNICE/emulator/qnice.c:1007-1041 | which flag a branch word tests, straight or negated |
| CpuMeaning.BranchMeans | M2M/QNICE/emulator/qnice.c:1007-1041 | a whole step of a branch or call with any operand: where it goes if the test holds, what is pushed, that the operand's register steps in any case, and nothing else changes |
| CpuMeaning.IntMeans | M2M/QNICE/emulator/qnice.c:984-992 | INT outside of a service: the operand becomes the interrupt address, a request is pending, the operand's register steps, nothing else changes |
| CpuMeaning.HaltMeans | M2M/QNICE/emulator/qnice.c:971-974 | HALT stops and moves the program counter only |
| CpuMeaning.NestMeans | M2M/QNICE/emulator/qnice.c:993-1002 | INCRB and DECRB: the next and the previous bank, modulo 256; the low byte of SR stays, the program counter moves on, and nothing else changes |
| CpuMeaning.ResetMeans | M2M/QNICE/emulator/qnice.c:531-554 | after a reset every register reads 0, SR reads 1, memory below the I/O area is 0 and no interrupt is pending |
| QniceEmulator.Emulator.ControlCommand | M2M/QNICE/emulator/qnice.c:969-1006 | HALT, RTI, INT, INCRB, DECRB |
| QniceEmulator.Emulator.TakeInterrupt | M2M/QNICE/emulator/qnice.c:798-812 | a request is taken up unless one is being serviced |
| QniceEmulator.Emulator.BranchOrCall | M2M/QNICE/emulator/qnice.c:1007-1041 | conditional branches and calls, absolute and relative |
| QniceEmulator.Emulator.Execute | M2M/QNICE/emulator/qnice.c:779-1057 | one instruction on the machine's arrays and flags refines the step that all lemmas on runs are about |
| CpuShift.ShiftLeftPerformed | M2M/QNICE/emulator/qnice.c:874-888 | SHL by n ≥ 1 into a plain register other than SR and PC: d·2^n + X·(2^n - 1) mod 2^16, C is bit 16 - n of d (X for n > 16), Z and N match the result, and nothing else changes |
| CpuShift.ShiftRightPerformed | M2M/QNICE/emulator/qnice.c:889-903 | SHR likewise: bits move down, C fills, X is bit n - 1 of d (C for n > 16), Z and N match, nothing else changes |
| CpuShift.ShiftLeftBits | M2M/QNICE/emulator/qnice.c:878-881 | after any number n of steps, bit k is X below n and bit k - n of the operand from n on |
| CpuShift.ShiftLeftValue | M2M/QNICE/emulator/qnice.c:878-881 | after any number n of steps, the low word is d·2^n + X·(2^n - 1) mod 2^16 |
| CpuShift.ShiftRightBits | M2M/QNICE/emulator/qnice.c:893-896 | after any number n of steps, bit k is bit k + n of the operand while there is one and C from there on |
| CpuChain.MultiWord | M2M/QNICE/emulator/qnice.c:846-873 | for every n: ADD and n - 1 times ADDC `@Ra++, @Rb++` add two n-word numbers in place with the carry in C, SUB and SUBC subtract with borrow; both pointers advance by n, nothing else in memory or in other registers changes |
| CpuChain.ChainStep | M2M/QNICE/emulator/qnice.c:779-873 | after k words are done, one more instruction of the chain gives the result for k + 1 words, with the carry handed on |
| CpuChain.ArithmeticStepped | M2M/QNICE/emulator/qnice.c:649-774 | one `op @Ra++, @Rb++` writes the low word of the 17-bit result through Rb, puts bit 16 into C, advances both pointers and changes nothing else |
| CpuBanks.SetRegQuiet | M2M/QNICE/emulator/qnice.c:355-366 | a register write in one bank never alters R0-R7 of another |
| CpuBanks.StepAround | M2M/QNICE/emulator/qnice.c:779-1057 | every instruction, also one that writes or steps SR, RTI, INCRB, DECRB, and an interrupt taken up: R0-R7 of all banks but the one before and the one after the step stay |
| CpuBanks.RunAround | M2M/QNICE/emulator/qnice.c:779-1057 | in runs of any length R0-R7 of a bank stay as long as that bank is not the current one |
| CpuBanks.NestingStep | M2M/QNICE/emulator/qnice.c:993-1002 | INCRB and DECRB move to the neighbouring bank, modulo 256, and write no banked register |
| CpuBanks.ReturnStep | M2M/QNICE/emulator/qnice.c:975-983 | RTI restores the saved SR and PC, ends the service and leaves a pending request |
| CpuBanks.BalancedRestores | M2M/QNICE/emulator/qnice.c:993-1002 | a segment of any length that begins with INCRB, stays at depth 1 to 255 and comes back to depth 0 restores bank and R0-R7, if every other instruction leaves the bank as it finds it: also instructions that write SR, interrupts taken up and RTI |
| CpuInterrupts.TakenUp | M2M/QNICE/emulator/qnice.c:798-812 | taking up a request saves SR and PC and goes to the interrupt address; only PC and the interrupt state change |
| CpuInterrupts.ServiceStep | M2M/QNICE/emulator/qnice.c:969-1002 | during a service, RTI alone changes the interrupt state: it restores SR and PC; INT stops the processor |
| CpuInterrupts.PerformKeepsInterrupts | M2M/QNICE/emulator/qnice.c:839-968 | no other instruction touches the interrupt state |
| CpuInterrupts.ServiceGoesOn | M2M/QNICE/emulator/qnice.c:798-1002 | over every sequence of instructions and requests without RTI, the saved SR and PC stay and a request raised meanwhile is pending |
| CpuInterrupts.NeverNested | M2M/QNICE/emulator/qnice.c:798-1002 | over every sequence, as many interrupts have been taken up as returned from, or one more while one is serviced |
| CpuInterrupts.InterruptReturns | M2M/QNICE/emulator/qnice.c:798-1002 | whatever the service routine does and devices request, its RTI gives SR and PC back |
| Assembler.RunFirstPass | M2M/QNICE/assembler/qasm.c:590-1117 | the list of lines filled in place by the first pass, with the address counter running along |
| Assembler.AssembleList | M2M/QNICE/assembler/qasm.c:584-1178 | both passes in place over one list, whose half-filled entries the second pass searches |
| Assembler.FindLabel | M2M/QNICE/assembler/qasm.c:354-364 | found exactly if a line defines the label, with the address of the first that does |
| Assembler.SearchEquList | M2M/QNICE/assembler/qasm.c:370-380 | found exactly if there is an EQU of that name, with the value of the first |
| Assembler.EntryPlaced | M2M/QNICE/assembler/qasm.c:653-1116 | in an error-free source every line has the address of the counter before it, the counter advances by the words of the line, and no label is defined twice |
| Assembler.CounterAdvances | M2M/QNICE/assembler/qasm.c:653-1116 | between any two lines without .ORG the counter advances by exactly the words emitted |
| Assembler.LabelIsNextAddress | M2M/QNICE/assembler/qasm.c:354-364 | in an error-free source a label resolves to the address of the next word emitted, unless an EQU shadows it or a .ORG intervenes |
| Assembler.LabelStandsFor | M2M/QNICE/assembler/qasm.c:354-380 | what every label of an error-free source resolves to: the EQU of its name if there is one, 0xFFFF on a .ORG line, the address counter before its line otherwise |
| Assembler.ImageIsContiguous | M2M/QNICE/assembler/qasm.c:1206-1231 | the words written for lines without .ORG lie one behind the other from the counter on |
| Assembler.NormalWords | M2M/QNICE/assembler/qasm.c:830-916 | the words of a two-operand instruction are those of its opcode, of the operands as they are meant (numbers and names as `@R15++`) and of their values **if and only if** no operand is a name that looks like a register beyond R15 and no word of a number next to a name was overwritten or left over |
| Assembler.NormalWordsAlways | M2M/QNICE/assembler/qasm.c:830-916 | for every content of every fresh word and every unset variable this is so **if and only if**, by their text, no operand is register-like and not one of them is a number and the other a name |
| AsmText.RegisterLikeOperand | M2M/QNICE/assembler/qasm.c:514-538 | which operand texts are taken for labels and yet get the six bits of R0, by their text: R followed by digits beyond 15, and those whose number `sscanf` does not set, like `R$` and `R0X`, or cannot hold |
| AsmExamples.OrgLabelExample | M2M/QNICE/assembler/qasm.c:661-671 | `A .ORG 256` and a word: the word is at 256 and A stands for 0xFFFF |
| AsmExamples.MixedExample | M2M/QNICE/assembler/qasm.c:895-916 | `MOVE 5, L` assembles without error, the 5 is lost and the last word is as `malloc` left it |
| AsmExamples.RegisterLikeExample | M2M/QNICE/assembler/qasm.c:514-538 | `MOVE R99, R0` with a label R99 assembles without error to the word of `MOVE R0, R0` and a stray word |
| BranchToLabel.StepBranches | M2M/QNICE/emulator/qnice.c:1007-1041 | what the processor does with a branch word and the constant behind it |
| BranchToLabel.AssembledBranch | M2M/QNICE/assembler/qasm.c:917-989 | assembler and emulator together, for ABRA, ASUB, RBRA or RSUB to a name in an error-free source: unless the name looks like a register beyond R15, PC becomes the label when the flag test holds and the next line otherwise, and ASUB and RSUB push the next line's address; if it does, PC becomes R0 (ABRA, ASUB) or the address behind the branch word plus R0, and when not taken the label word is executed as an instruction |
| BranchToLabel.BranchGoesToLabel | M2M/QNICE/assembler/qasm.c:917-989 | one step goes to the label **if and only if** the name is not register-like, or the branch is taken and R0 happens to lead there |
| BranchToLabel.BranchAlwaysGoesToLabel | M2M/QNICE/assembler/qasm.c:917-989 | on every machine that reaches the branch the step goes to the label **if and only if** the name is not register-like |
| BranchToLabel.StepMisled | M2M/QNICE/emulator/qnice.c:1007-1041 | what the processor does with a branch word whose operand bits are those of R0 |
| BranchToLabel.BranchLineWords | M2M/QNICE/assembler/qasm.c:1123-1140 | the two words of such a line, the second relative to the next line for RBRA and RSUB; the first with the bits of R0 for a register-like name |
| AsmExamples.AbraGoesAstray | M2M/QNICE/assembler/qasm.c:514-538 | the assembled program `ABRA R99, 1` with R99 behind it: the processor goes to the address in R0, so not to the label unless R0 is 2 |
| AsmMeaning.TextComputes | M2M/QNICE/assembler/qasm.c:138-180 | assembler and processor together: a line with the mnemonic MOVE, ADD, ADDC, SUB, SUBC, SWAP, NOT, AND, OR or XOR in any case of letters and operands spelled Rn, @Rn, @Rn++ or @--Rn, or a number as the first, assembled without error, loaded and executed, leaves at the place of the second operand what the mnemonic says, with its carry or borrow |
| AsmMeaning.TextSetsStatus | M2M/QNICE/assembler/qasm.c:138-180 | the same for lines whose target is spelled R14 |
| AsmMeaning.TextShifts | M2M/QNICE/assembler/qasm.c:138-180 | the same for SHL and SHR |
| AsmMeaning.TextCompares | M2M/QNICE/assembler/qasm.c:138-180 | the same for CMP |
| AsmMeaning.TextJumps | M2M/QNICE/assembler/qasm.c:138-180 | lines with ABRA, ASUB, RBRA or RSUB and an operand by its spelling: when the flag by its spelling holds the processor goes to the operand, or that far on for RBRA and RSUB, and ASUB and RSUB push the address of the next line; otherwise it goes on |
| AsmMeaning.TextBranchesToLabel | M2M/QNICE/assembler/qasm.c:917-989 | the same with a label as operand: the processor goes to the label for all four mnemonics |
| AsmMeaning.TextControls | M2M/QNICE/assembler/qasm.c:138-180 | lines with HALT, RTI, INCRB and DECRB: HALT stops; RTI returns from a service and is rogue outside; INCRB and DECRB go to the next and the previous register bank |
| AsmMeaning.TextInterrupts | M2M/QNICE/assembler/qasm.c:1007-1045 | lines with INT and an operand: a request with that address |
| AsmData.DecimalText | M2M/QNICE/assembler/qasm.c:474-508 | decimal numbers and signs: the number that the digits spell, as far as an int goes |
| AsmData.HexText | M2M/QNICE/assembler/qasm.c:474-508 | 0x, 0X and $: the number that the hexadecimal digits spell, as a 32-bit int; with a minus sign modulo 2^16 |
| AsmData.BinaryText | M2M/QNICE/assembler/qasm.c:123-133 | 0b and 0B: the number that the bits spell, modulo 2^16, also negated |
| AsmData.CharacterText | M2M/QNICE/assembler/qasm.c:108-118 | characters between single quotes: the last two as bytes of a word |
| AsmData.NoNumberText | M2M/QNICE/assembler/qasm.c:498-506 | any other text that is not made of digits and signs is an error |
| AsmData.TextLine | M2M/QNICE/assembler/qasm.c:695-765 | .ASCII_W and .ASCII_P: one word for each character, \n as 13 and 10, \t as 9, and a zero word behind .ASCII_W only, for texts in which every backslash is followed by n or t |
| AsmData.StrayBackslash | M2M/QNICE/assembler/qasm.c:734-745 | a text with another character behind a backslash, for which the words are wrong |
| AsmData.DwMeans | M2M/QNICE/assembler/qasm.c:1156-1172 | the words of .DW are the values of its arguments in order: the first EQU of that name, else the first label, else the number; arguments without a value are errors and leave no gap |
| Disassembler.OperandRead | M2M/QNICE/assembler/qasm.c:514-578 | every operand text that `disassemble` shows is decoded to its own six bits, and only constants ask for a word |
| Disassembler.ReadBack | M2M/QNICE/emulator/qnice.c:601-633 | the shown text of a complete instruction assembles to that instruction's words |
| Disassembler.DisassembleAssemble | M2M/QNICE/emulator/qnice.c:587-641 | for every sequence of complete instructions that `disassemble` covers, assembling its text gives the same words and no error |
| Disassembler.DisassembleWords | M2M/QNICE/emulator/qnice.c:593-640 | the loop over the words, passing over constants |
| IdeTransfer.BlockIsUnique | M2M/QNICE/emulator/ide_simulation.c:449-472 | on the disk, addresses and linear block numbers correspond one to one |
| IdeTransfer.NextBlock | M2M/QNICE/emulator/ide_simulation.c:408-447 | stepping the sector, head and cylinder is the next block number |
| IdeTransfer.CommandBegins | M2M/QNICE/emulator/ide_simulation.c:323-398 | each read or write command for k sectors at an address on the disk requests the first sector's data |
| IdeTransfer.WritingStores | M2M/QNICE/emulator/ide_simulation.c:323-556 | writing k sectors with any of the write commands stores exactly the blocks L to L + k - 1, leaves all others as they were and ends with the last address in the registers |
| IdeTransfer.ReadingGives | M2M/QNICE/emulator/ide_simulation.c:323-522 | reading k sectors with either read command gives exactly those blocks' words, leaves the disk and ends with the last address in the registers |
| IdeTransfer.WriteThenRead | M2M/QNICE/emulator/ide_simulation.c:323-556 | for every data that fits from there on and every pair of commands: a read after a write gives the k·256 words back |
| IdeTransfer.WritingOverruns | M2M/QNICE/emulator/ide_simulation.c:408-447 | when more sectors are announced than the disk has from there on, all that fit are stored and the device then refuses, showing the address behind the disk |
| IdeTransfer.ReadingOverruns | M2M/QNICE/emulator/ide_simulation.c:408-447 | the same for reading |
| IdeHost.WrittenIsRead | M2M/QNICE/emulator/ide_simulation.c:144-241 | on an idle device the host reads back v mod 256 from registers 2 to 5, and no other register that it can read changes |
| IdeHost.DriveAndHeadIsRead | M2M/QNICE/emulator/ide_simulation.c:170-223 | from register 6 it reads bits 5 and 7 set and the others as written; nothing else changes |
| IdeHost.FeaturesAreUnseen | M2M/QNICE/emulator/ide_simulation.c:154-156 | writing register 1 changes nothing that the host can read |
| IdeHost.ResetIsSeen | M2M/QNICE/emulator/ide_simulation.c:177-185 | writing register 8 resets the device exactly if bit 2 is set: then the host reads 0 from registers 1 to 5, 0xA0 from 6 and 0x50 from 7 and 8; the disk stays |
| IdeHost.WritingIsSeen | M2M/QNICE/emulator/ide_simulation.c:473-490 | after writing, the host reads the last cylinder, head and sector from registers 3 to 6, the count from 2, 0 from 1 and 0x50 from 7 and 8 |
| IdeHost.ReadingIsSeen | M2M/QNICE/emulator/ide_simulation.c:473-490 | the same after reading |
| IdeHost.SuccessIsSensed | M2M/QNICE/emulator/ide_simulation.c:261-276 | a request for sense after that reads 0 |
| IdeHost.OverrunIsSeen | M2M/QNICE/emulator/ide_simulation.c:418-440 | after a transfer beyond the disk the host reads error 4, 0x51, and cylinder 491, head 1, sector 1 |
| IdeHost.RefusedIsSeen | M2M/QNICE/emulator/ide_simulation.c:323-378 | a transfer or verify command at an address that is not on the disk: error 4 and 0x51, registers 2 to 6 and the disk as before |
| IdeHost.UnknownIsSeen | M2M/QNICE/emulator/ide_simulation.c:308-320 | a command that the device does not know: the same |
| IdeHost.ReasonIsSeen | M2M/QNICE/emulator/ide_simulation.c:261-320 | a request for sense, and a second one, then reads 0x21 after a refused address and 0x20 after an unknown command |
| IdeHost.LbaEnds | M2M/QNICE/emulator/ide_simulation.c:333-338 | a command ends the simulation with the LBA message **if and only if** it is a transfer or verify command and bit 6 of the register that the host reads as 6 is set |
| IdeHost.CommandsAlike | M2M/QNICE/emulator/ide_simulation.c:277-307 | 0x21 does what 0x20 does, 0x31 and 0x3C what 0x30 does, 0x41 what 0x40 does: the states differ in nothing but the command register, which no host can read |
| IdeHost.VerifyMoves | M2M/QNICE/emulator/ide_simulation.c:614-640 | the verify loop, entered with c sectors counted before: how far it gets, and the end of the disk |
| IdeHost.VerifyIsSeen | M2M/QNICE/emulator/ide_simulation.c:604-640 | a verify command leaves the disk and an idle device; what the host then reads, depending on the sectors that the command before had counted |
| IdeHost.VerifyShowsLast | M2M/QNICE/emulator/ide_simulation.c:604-640 | the host reads the last address **if and only if** at most one sector had been counted before, or one is to be verified |
| IdeHost.WrittenThenVerified | M2M/QNICE/emulator/ide_simulation.c:604-640 | verifying what has just been written shows the first address instead of the last |
| IdeSafety.AccessSettles | M2M/QNICE/emulator/ide_simulation.c:144-241 | one polite access keeps: BSY clear; DRQ set only with one direction active, an even count below 512 and the address on the disk |
| IdeSafety.AlwaysSettled | M2M/QNICE/emulator/ide_simulation.c:144-556 | over every sequence of accesses by a host that moves data only under DRQ this holds and the unexpected branches and accesses off the disk are never reached |
| IdeSafety.VerifySettles | M2M/QNICE/emulator/ide_simulation.c:614-640 | verifying always ends with BSY clear, whatever the sector counter was left at |
| IdeSafety.NeverBusy | M2M/QNICE/emulator/ide_simulation.c:144-241 | BSY is clear between accesses for every host |
| IdeSafety.AccessAstray | M2M/QNICE/emulator/ide_simulation.c:144-241 | one access in any state between accesses: it leads into an unexpected branch, or off the disk, **if and only if** it moves data and byte count, direction, sector counts and address are as stated; no other access ever does |
| IdeSafety.AstrayExactly | M2M/QNICE/emulator/ide_simulation.c:144-556 | over every sequence of accesses by any host: the device ends in an unexpected branch or off its disk **if and only if** one of the accesses is of that kind when it comes |
| IdeSafety.SurprisedAfterAbort | M2M/QNICE/emulator/ide_simulation.c:401-556 | over every sequence by any host: the unexpected branches are entered exactly by moving data in the direction of a transfer whose sector is used up; bytes move in pairs, and a sector being read is in the buffer |
| IdeSafety.ImpoliteRunsOff | M2M/QNICE/emulator/ide_simulation.c:493-522 | a host that goes on reading after a refused command makes the device read off the disk |
| IdeSafety.BrokenOffReached | M2M/QNICE/emulator/ide_simulation.c:323-398 | and that state is reached from the initial one |
| IdeSimulation.IdeDevice.SetRegister | M2M/QNICE/emulator/ide_simulation.c:99-113 | 8- and 16-bit registers, on the device's fields and arrays: the new state is that of the specification which the lemmas are about |
| IdeSimulation.IdeDevice.Prepare | M2M/QNICE/emulator/ide_simulation.c:401-490 | the next sector, the abort at the end of the disk, or the end of the command, on the device's fields and arrays: the new state is that of the specification which the lemmas are about |
| IdeSimulation.IdeDevice.VerifySectors | M2M/QNICE/emulator/ide_simulation.c:614-640 | the verify loop with its stale sector counter, on the device's fields and arrays: the new state is that of the specification which the lemmas are about |
| IdeSimulation.IdeDevice.HandleReadWrite | M2M/QNICE/emulator/ide_simulation.c:323-398 | address checks and the start of a transfer, on the device's fields and arrays: the new state is that of the specification which the lemmas are about |
| IdeSimulation.IdeDevice.ExecuteCommand | M2M/QNICE/emulator/ide_simulation.c:244-320 | the commands, on the device's fields and arrays: the new state is that of the specification which the lemmas are about |
| IdeSimulation.IdeDevice.Initialize | M2M/QNICE/emulator/ide_simulation.c:560-604 | reset, on the device's fields and arrays: the new state is that of the specification which the lemmas are about |
| IdeSimulation.IdeDevice.ReadData | M2M/QNICE/emulator/ide_simulation.c:493-522 | a word to the host, on the device's fields and arrays: the new state is that of the specification which the lemmas are about |
| IdeSimulation.IdeDevice.WriteData | M2M/QNICE/emulator/ide_simulation.c:524-556 | a word from the host, stored to the disk with the last one of a sector, on the device's fields and arrays: the new state is that of the specification which the lemmas are about |
| IdeSimulation.IdeDevice.HostWrite | M2M/QNICE/emulator/ide_simulation.c:144-196 | host register write, on the device's fields and arrays: the new state is that of the specification which the lemmas are about |
| IdeSimulation.IdeDevice.HostRead | M2M/QNICE/emulator/ide_simulation.c:199-241 | host register read, on the device's fields and arrays: the new state is that of the specification which the lemmas are about |
| Sections.BytesFillLayout | M2M/QNICE/c/vasm/supp.c:641-663 | the bytes that writing pads and emits fill exactly the aligned layout, if alignment limits are put on atoms without space only |
| Sections.PaddingLength | M2M/QNICE/c/vasm/supp.c:450-500 | the padding written before an atom is as long as its alignment asks, under the same condition |
| SectionMeaning.AtomPlaced | M2M/QNICE/c/vasm/supp.c:422-500 | every atom of a section begins at the first multiple of its alignment behind the one before, or right there where the limit forbids that; the gap holds zeros and then whole patterns, its own for an atom that only aligns; and the atom has its data, or its fill as often as its space says |
| Srec.ChecksumCompletes | M2M/QNICE/c/vasm/output_srec.c:150 | a record's bytes with the checksum sum to 0xFF modulo 256 |
| Srec.DecodeEncoded | M2M/QNICE/c/vasm/output_srec.c:70-157 | reading the text of records that fit the format gives the records back |
| Srec.ChunksLoad | M2M/QNICE/c/vasm/output_srec.c:218-229 | storing each data record at its address gives exactly the bytes from the org on |
| SrecOutput.SrecWriter.WriteHexByte | M2M/QNICE/c/vasm/output_srec.c:52-68 | two hexadecimal digits |
| SrecOutput.SrecWriter.WriteDataBuffer | M2M/QNICE/c/vasm/output_srec.c:70-157 | one record of what the buffer holds, none for an empty one but S0; the address moves on, the buffer is empty, and an address beyond the format counts as an error |
| SrecOutput.SrecWriter.PutByte | M2M/QNICE/c/vasm/output_srec.c:218-229 | one more byte of the stream, keeping srec_pc + data_size = pc and what has been written |
| SrecOutput.SrecWriter.Addralign | M2M/QNICE/c/vasm/output_srec.c:231-283 | exactly the padding of the atom is streamed |
| SrecOutput.SrecWriter.WriteSection | M2M/QNICE/c/vasm/output_srec.c:309-340 | a header record and the section's bytes in records of 32 |
| SrecOutput.SrecWriter.WriteTermination | M2M/QNICE/c/vasm/output_srec.c:159-216 | the termination record of the format |
| SrecOutput.SrecWriter.WriteOutput | M2M/QNICE/c/vasm/output_srec.c:285-344 | the whole file; without sections nothing |
| SrecOutput.OutputIsImage | M2M/QNICE/c/vasm/output_srec.c:285-344 | decoding the file, for addresses that fit the format, gives records of which storing the data is exactly the memory image of all sections |
| SrecMeaning.EncodeMeans | M2M/QNICE/c/vasm/output_srec.c:52-157 | the text of a record, character by character: S, the type, the count, the address with the highest byte first in two, three or four bytes by type, the data and the byte that completes the sum to 0xFF, in upper-case hexadecimal |
| SrecMeaning.RecordsMean | M2M/QNICE/c/vasm/output_srec.c:309-340 | the records are, for each section in turn, its header and its data records |
| SrecMeaning.ChunksMean | M2M/QNICE/c/vasm/output_srec.c:218-229 | record k of a section is the k-th run of 32 bytes at its address, and there are as many as needed |
| SrecMeaning.StartAddressIsLast | M2M/QNICE/c/vasm/output_srec.c:159-216 | the file ends with an S9, S8 or S7 record, by the format, with the start address |
| SrecMeaning.ImageMeans | M2M/QNICE/c/vasm/output_srec.c:309-340 | the memory image has at each address the byte of the last section that has one there, and no others |
| Vobj.NumberBack | M2M/QNICE/c/vasm/output_vobj.c:61-73 | `read_number` of `write_number` is the number, for 1 to 7 bytes per address and numbers in range |
| Vobj.ObjectBack | M2M/QNICE/c/vasm/vobjdump.c:261-325 | parsing the bytes of an object gives its header, symbols, section contents and standard relocations |
| VobjOutput.IndexNames | M2M/QNICE/c/vasm/output_vobj.c:205-213 | the number that relocations give for a symbol of the file is its place among the symbols written |
| VobjOutput.VobjWriter.WriteNumber | M2M/QNICE/c/vasm/output_vobj.c:61-73 | the bytes of a number, appended to the output |
| VobjOutput.VobjWriter.GetSectionSizes | M2M/QNICE/c/vasm/output_vobj.c:122-151 | size, size in the file and number of relocations, appended to the output |
| VobjOutput.VobjWriter.WriteData | M2M/QNICE/c/vasm/output_vobj.c:153-167 | the contents up to the declared size, and exactly that many bytes, appended to the output |
| VobjOutput.VobjWriter.WriteRelocs | M2M/QNICE/c/vasm/output_vobj.c:185-198 | the standard relocations at their places in the section, appended to the output |
| VobjOutput.VobjWriter.WriteSymbols | M2M/QNICE/c/vasm/output_vobj.c:228-237 | the symbols that are not internal, appended to the output |
| VobjOutput.VobjWriter.WriteOutput | M2M/QNICE/c/vasm/output_vobj.c:200-251 | the bytes of the object that sections and symbols describe, appended to the output |
| VobjOutput.StopsAtSize | M2M/QNICE/c/vasm/output_vobj.c:157-160 | where the writer stops exactly the declared number of bytes has been written |
| VobjOutput.DeclaredSize | M2M/QNICE/c/vasm/output_vobj.c:122-167 | the contents are as long as declared |
| VobjOutput.WrittenIsRead | M2M/QNICE/c/vasm/output_vobj.c:200-251 | reading what is written gives the object described, for in-range fields |
| VobjMeaning.ObjectFormat | M2M/QNICE/c/vasm/output_vobj.c:10-59 | the file is the letters VOBJ, endianness, sizes, processor name, counts, symbols and sections, with the fields of symbols, sections and relocations in the documented order, names ended by a zero and numbers of one byte or with their count of bytes and the lowest first |
| VobjMeaning.NumberFormat | M2M/QNICE/c/vasm/output_vobj.c:54-73 | a number below 128 is its byte; another one the count of bytes plus 128 and then byte i as the number shifted right by i bytes |
| VobjMeaning.RelocationMeans | M2M/QNICE/c/vasm/output_vobj.c:169-198 | each standard relocation of each atom is in the file at its number in the order of the list: at its offset, byte for byte, lies the atom's content from the relocation's own offset on; its symbol number names its symbol; kind, size, mask and addend are as given |
| VobjMeaning.RelocNumberOrder | M2M/QNICE/c/vasm/output_vobj.c:169-198 | different relocations have different numbers, in order |
| VobjMeaning.RelocationComes | M2M/QNICE/c/vasm/output_vobj.c:109-198 | and every relocation in the file is one of those |
| VobjMeaning.AtomInFile | M2M/QNICE/c/vasm/output_vobj.c:122-167 | an atom that has data, relocations or a fill that is not zero lies whole in the bytes of the file, at its aligned place |
| VobjMeaning.SizeIsEnd | M2M/QNICE/c/vasm/output_vobj.c:122-151 | the bytes in the file end with the last such atom |
| VobjMeaning.ValidMeans | M2M/QNICE/c/vasm/output_vobj.c:92-107 | all symbols go into the file but vasm's own, of which only the one for the current program counter does |
| VobjMeaning.IndexComes | M2M/QNICE/c/vasm/output_vobj.c:208-213 | every symbol of the file is a valid one of the list with that number |
| VobjMeaning.GoodRelocMeans | M2M/QNICE/c/vasm/vobjdump.c:87-115 | which relocations come back: field by field, the range that is read with or without its sign |
| VobjMeaning.GoodSymbolMeans | M2M/QNICE/c/vasm/vobjdump.c:126-136 | which symbols come back |
| VobjMeaning.GoodSectionMeans | M2M/QNICE/c/vasm/vobjdump.c:139-160 | which sections come back |
| VobjDump.VobjReader.ReadNumber | M2M/QNICE/c/vasm/vobjdump.c:87-115 | the number at the cursor, which advances past it, or the end of the file |
| VobjDump.VobjReader.SkipString | M2M/QNICE/c/vasm/vobjdump.c:118-123 | the string at the cursor, which advances past its zero |
| VobjDump.VobjReader.ReadSymbols | M2M/QNICE/c/vasm/vobjdump.c:304-308 | the symbols at the cursor |
| VobjDump.VobjReader.ReadSection | M2M/QNICE/c/vasm/vobjdump.c:139-230 | the section at the cursor with its standard relocations |
| VobjDump.VobjReader.Dump | M2M/QNICE/c/vasm/vobjdump.c:261-351 | the cursor-driven reader finds the object that the parser defines |
| Resolver.RunPass | M2M/QNICE/c/vasm/vasm.c:186-255 | one pass in place; if it changes nothing the layout is a fixpoint; in safe mode at most one instruction changes its size |
| Resolver.ResolveSection | M2M/QNICE/c/vasm/vasm.c:166-260 | stops within MAXPASSES for every deterministic size function; stopping with done before MAXPASSES it leaves a fixpoint: every label is at its place in the aligned walk with the recorded sizes, and every size recomputed under those labels is the recorded one |
| Resolver.NoLayoutFits | M2M/QNICE/c/vasm/vasm.c:237-238 | a size function for which there is no fixpoint at all |
| Resolver.SwingingIsNotResolved | M2M/QNICE/c/vasm/vasm.c:176-181 | on it `resolve_section` stops at MAXPASSES with done set and no fixpoint |

## Left out

Of the division:

- The rest of `hugeint.c`: `hadd`, `hsub`, `hcmp`, `hmul`, the shifts and the conversions of `hugeint.c` are not modelled.

Of the optimizer:

- FlowGraph: scalar variables only. Pseudo-variables for `*p` (DREFOBJ), partial writes of aggregates, registers, types and points-to information are not modelled, and that the use and change lists cover what an instruction reads and writes is a hypothesis (`Covered`).
- LiveVars.DeadAssignments: without the reordering of post-operations (`av.c:463-547`) and the option that disables the deletion.
- CopyProp.Cprop: the tests on types, sizes, storage classes and offsets are one parameter `mayReplace`, over all values of which the results hold; `must_convert` is not part of this model.
- CopyPass.NumberAndPropagate: global propagation only; `CopyProp.CopyPropagation` models the local form as well.
- CopyNumbers.NumCopies: the sets `cp_globals`, `cp_statics`, `cp_address` and `cp_drefs` are left out; the list holds, of each number, one instruction as `Represents` says.
- Numbering.CompareExpEqual: operands are compared by kind, variable index and constant; operators on types and offsets inside a variable are not modelled.
- Expressions.NumExp: the replacement of common subexpressions (`cse_search`, `cse_replace`) is not modelled.
- ExpressionPass.NumberAndAnalyse: that GETRETURN has no operand (`ic.c:1443`) is a hypothesis on the graph (`AllWellFormed`).
- JumpOpt.JumpOptimizationPass: without moving common instructions (`flow.c:434-560`) and without removing the comparison before a dropped branch (`flow.c:404-408`).

- JumpOpt.JumpOptimization: each round begins with the predecessor lists of `construct_flowgraph` (`JumpOpt.ListPredecessors`); that it also takes labels and blocks out of the list that are not used, which makes the graph smaller, is not part of this model.

Of the processor and the assembler:

- Cpu: devices, the extended arithmetic element, breakpoints, statistics, the cycle counter and the debugger are left out; what devices answer is a function chosen for each instruction, and writes to the I/O area change nothing.
- CpuShift.ShiftLeftPerformed: targets are plain registers other than SR and PC; `CpuMeaning.ShiftMeans` is for all modes.
- CpuMeaning.InstructionMeans: no operand steps SR, and SR as a target is in `CpuMeaning.ToStatusMeans`; with SR as a register that is stepped only the frame and bank lemmas apply.
- AsmText: source lines are given as label, mnemonic and arguments. Splitting lines, comments, the export mark, the EXC instruction and signs behind `0x` are not modelled. A word that the C code leaves as `malloc` gave it, and a number that `sscanf` does not set or that does not fit, are arbitrary and may differ from word to word and from call to call (`Junk`).
- AsmData.TextLine: on a text without a closing quote in which a tab is escaped C reads on behind the end of the line; the model stops there.
- BranchToLabel.AssembledBranch: PC and the word behind it lie below the I/O area, and no interrupt is about to be taken up.
- Disassembler.DisassembleAssemble: the address and data columns of the listing, CMP (which the operand table does not cover), flags 6 and 7, and reserved and EXC words are left out.
- Assembler.ImageIsContiguous: the listing and the .def file are left out; addresses stay below 65536.

Of the IDE simulation:

- IdeSafety.AlwaysSettled: LBA commands and addresses beyond the registers end the simulation in C and in the model; the debug output and `testMe` are left out.

Of vasm:

- Sections: alignments are powers of two, for which C's masking is rounding up; relocations inside space atoms and the sizes of atoms that depend on expressions are given.
- SrecOutput.SrecWriter.WriteOutput: undefined symbols and the search for the start symbol are left out; the address check is the code's own, on the first byte of a record.
- SrecOutput.OutputIsImage: sections and the start address fit the format's addresses.
- Vobj.NumberBack: 1 to 7 bytes per address; that the accumulator wraps for numbers of eight or more bytes is not modelled.
- Vobj.ObjectBack: fields that C reads into an `int` are below 2^31, as its cast demands; the checks on relocations that only choose what is printed are left out.
- VobjOutput.DeclaredSize: space atoms with an alignment limit have no space of their own.
- VobjDump.VobjReader.Dump: the printed text is left out; running past the end of the file, which C does not check for strings and contents, is `None`.
- Resolver.ResolveSection: atom sizes are any function of the atom's place, the labels, the program counter, the warning flag and the ABSOLUTE flag; other sections' labels are held. Addresses do not wrap around.
- The remaining writers, file and command-line handling, printing and memory allocation are not part of this model.
