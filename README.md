# CS11-C core, modelled and verified in Dafny

This project models the core programs of a C programming course repository
and proves what they promise:

- **Bytecode interpreter** (`Assignment8/bci.c`). A stack machine with a
  value stack, registers, an instruction buffer and the pointers `sp` and
  `ip`.
  - `BciCodec` models the 32-bit `int` and the little-endian operands.
  - `BciSpec` states every handler and one fetch-decode-execute step as
    functions of the machine state. A run is bounded by a step count.
  - `BciMachine.Vm` is the machine as a class whose methods update their
    fields and arrays in place. Each method is proved to follow `BciSpec`.
  - `BciProperties` proves the round trips and the effect of each
    instruction. It also proves how a run ends and how the DIV handler
    differs from its description.
- **Easter date** (`Assignment2/easter.c`). Donald Knuth's algorithm for
  the date of Easter in the Gregorian calendar, the printed date, and
  Zeller's congruence. It proves that every date `calculate_Easter_date`
  returns, as written and as corrected, is a Sunday.
- **Sorter** (`Assignment3/sorter.c`). Minimum-element sort and bubble sort,
  in place on an `int` array, the `swap` they share, `checkSort`, and
  `main`'s handling of its arguments. Each sort is proved to leave the array
  sorted and a permutation of the input.
- **Triangle peg game** (`Assignment4/triangle_game.c`). The table of the 36
  jumps on the 15-hole board, making and unmaking a move, counting pegs, the
  moves at a hole, and the backtracking solver. `solve` is proved to answer
  exactly whether a winning line exists, and to restore the board it
  searched.
- **Move generation** (`Assignment4/moves.c`). Moves on a triangular board
  of any size: hole and layer arithmetic, the moves from one hole, combining
  move arrays, and all moves of a board, with a proof of their number.
- **One-dimensional cellular automaton** (`Assignment5/1dca.c`). The cell
  rule, the two versions of `update`, and the recursive `run` that fills the
  array of generations.
- **Quicksorter** (`Assignment6/quicksorter.c`). Quicksort on linked lists,
  with the lists modelled as sequences, and `main`'s list building. Quicksort
  is proved to be the unique sorted permutation of its input.

Where the C code leaves behaviour undefined (a read outside an array, a
signed overflow, a division by zero), the model reports an error value or
states a precondition. Which one is chosen is noted in each module.

The model follows the code wherever the code and its comments disagree:

- JNZ reads a one-byte target, where JZ and JMP read two bytes.
- STORE on an empty stack reads below the stack before `do_pop` can object.
- An unknown opcode ends the run normally, after a diagnostic.
- `do_push` refuses at `STACK_SIZE - 1` values, not at `STACK_SIZE`.

Five discrepancies are bugs: the Easter epact, `combine`'s offset, the count
of `numMoves`, the last hole that `allMoves` skips, and DIV dividing the
second value by itself. Each is modelled as written next to a corrected
definition, as listed under Findings. The interpreter runs DIV as written
(Assignment8/bci.c:229), in `BciSpec.Execute` and in `BciMachine.Vm.DoDiv`;
the handler as described, `BciSpec.DoDivCorrected`, is proved on its own.
Elsewhere the model builds on the corrected definitions: `Moves.AllMoves`
includes the last hole, and `Moves.Combine` places the second array at row
`n1`.

## Model

| member | source | states |
|---|---|---|
| BciCodec.LittleEndian | Assignment8/bci.c:72-93 | the value of n operand bytes, low-order byte first, is below 256^n |
| BciCodec.DecodeEncode | Assignment8/bci.c:72-93 | decoding the n-byte encoding of a value below 256^n gives the value back |
| BciCodec.EncodeDecode | Assignment8/bci.c:72-93 | encoding the decoded value of a byte string gives the same bytes back |
| BciCodec.LittleEndianCons | Assignment8/bci.c:80-90 | a byte placed in front adds itself to 256 times the value of the rest |
| BciCodec.TwosComplement | Assignment8/bci.c:58-70 | every 32-bit pattern is exactly one C int, and the reverse, so reading four bytes into an int is a bijection |
| BciSpec.InitState | Assignment8/bci.c:20-55 | init_vm: every stack cell, register and instruction byte is 0, sp and ip are 0, and the state is valid |
| BciSpec.ReadInteger | Assignment8/bci.c:72-93 | faults exactly when the n bytes at ip pass the end of the buffer; otherwise moves ip on by n and gives the bytes' value, unsigned for 1 and 2 bytes and two's complement for 4 |
| BciSpec.DoPush | Assignment8/bci.c:100-113 | fails with a stack overflow exactly when sp >= STACK_SIZE - 1; otherwise the value is on top, sp is one higher and nothing else changes |
| BciSpec.DoPop | Assignment8/bci.c:115-127 | fails with a stack underflow exactly when sp == 0; otherwise sp is one lower and nothing else changes |
| BciSpec.DoLoad | Assignment8/bci.c:129-136 | fails exactly on a bad register index or a full stack; otherwise the register's value is pushed and nothing else changes |
| BciSpec.DoStore | Assignment8/bci.c:138-148 | fails exactly on a bad register index or an empty stack; otherwise the register receives the old top, sp is one lower and nothing else changes |
| BciSpec.DoJmp | Assignment8/bci.c:150-157 | fails exactly on a target outside the buffer; otherwise only ip changes, to the target |
| BciSpec.DoJz | Assignment8/bci.c:159-172 | fails exactly on a target outside the buffer or an empty stack; ConditionalJumps states the jump |
| BciSpec.DoJnz | Assignment8/bci.c:174-188 | fails exactly on a target outside the buffer or an empty stack; ConditionalJumps states the jump |
| BciSpec.StoreResult | Assignment8/bci.c:190-199 | on success the result replaces the second value and sp is one lower |
| BciSpec.DoAdd | Assignment8/bci.c:190-199 | fails exactly on fewer than two values or a sum outside int; otherwise the sum replaces the two values |
| BciSpec.DoSub | Assignment8/bci.c:201-210 | fails exactly on fewer than two values or a difference outside int; otherwise second minus top replaces the two values |
| BciSpec.DoMul | Assignment8/bci.c:212-221 | fails exactly on fewer than two values or a product outside int; otherwise the product replaces the two values |
| BciSpec.DoDiv | Assignment8/bci.c:223-232 | as written: fails exactly on fewer than two values or a zero second value; otherwise the two values are replaced by 1, whatever the top |
| BciSpec.DoDivCorrected | Assignment8/bci.c:223-232 | as the comment describes it: fails on fewer than two values and on a zero divisor; otherwise second divided by top, truncated, replaces the two values |
| BciSpec.DoPrint | Assignment8/bci.c:234-241 | fails exactly on an empty stack; otherwise the top is appended to the output and popped |
| BciSpec.Decode | Assignment8/bci.c:323-424 | a byte reaches the default case exactly when it is no opcode |
| BciSpec.Execute | Assignment8/bci.c:323-415 | a success keeps the state valid; NOP, STOP and an unknown byte change nothing, and DIV runs do_div as written |
| BciSpec.ReadOperand | Assignment8/bci.c:330-415 | fails exactly when an instruction with an operand finds it past the buffer; otherwise ip moves on by the operand width (4 for PUSH, 1 for LOAD, STORE and JNZ, 2 for JMP and JZ) |
| BciSpec.Step | Assignment8/bci.c:313-426 | a halting step (STOP or an unknown byte) leaves the state as it found it, and a continuing step keeps the state valid |
| BciSpec.Dispatch | Assignment8/bci.c:323-415 | a case that is neither STOP nor unknown never halts the loop, and keeps the state valid when it continues |
| BciSpec.Loop | Assignment8/bci.c:313-426 | a run that halts or runs out of steps ends in a valid state |
| BciSpec.LoopStep | Assignment8/bci.c:313-426 | one turn of the loop: the step's result decides between going on with one step fewer, halting and faulting |
| BciSpec.Run | Assignment8/bci.c:313-426 | the loop of execute_program over Step; a run that halts or runs out of steps ends in a valid state |
| BciSpec.ExecuteProgram | Assignment8/bci.c:308-427 | execute_program starts at ip 0 with an empty stack; a run that halts or runs out of steps ends in a valid state |
| BciProperties.PushPopRoundTrip | Assignment8/bci.c:100-127 | PUSH then POP leaves sp, the registers, ip and the output as they were |
| BciProperties.StoreLoadRoundTrip | Assignment8/bci.c:129-148 | STORE r then LOAD r puts the stored value back on top, and register r holds it |
| BciProperties.ConditionalJumps | Assignment8/bci.c:159-188 | JZ jumps exactly when the top is zero and JNZ exactly when it is not; neither pops nor changes anything but ip |
| BciProperties.JumpTargetCheckedFirst | Assignment8/bci.c:150-188 | all three jumps fault on a bad target before looking at the stack |
| BciProperties.Arithmetic | Assignment8/bci.c:190-221 | ADD, SUB and MUL fault on fewer than two values, fault when the exact result is not an int, and otherwise replace the second value with the exact result and pop |
| BciProperties.PrintWritesTop | Assignment8/bci.c:234-241 | PRINT appends the top to the output and pops it |
| BciProperties.CDivTruncates | Assignment8/bci.c:223-232 | C division truncates toward zero: the remainder is smaller than the divisor and has the sign of the dividend |
| BciProperties.DivAsWrittenIgnoresDivisor | Assignment8/bci.c:223-232 | DIV as written gives 1 whenever the second value is not zero, whatever the divisor |
| BciProperties.DivNineByThree | Assignment8/bci.c:223-232 | 9 DIV 3 gives 1 as written and 3 as described |
| BciProperties.DivCorrected | Assignment8/bci.c:223-232 | DIV as described faults on a zero divisor and on INT_MIN / -1, and otherwise gives the truncated quotient |
| BciProperties.CDivInRange | Assignment8/bci.c:223-232 | a quotient of two ints is an int exactly unless it is INT_MIN / -1 |
| BciProperties.QuotientHalves | Assignment8/bci.c:223-232 | dividing a non-negative value by 2 or more gives at most half of it |
| BciProperties.DecodeTable | Assignment8/bci.c:323-424 | with distinct case labels, each opcode byte selects its own instruction |
| BciProperties.StepHalts | Assignment8/bci.c:417-424 | a step halts only at a STOP byte or at a byte that is no opcode, inside the buffer |
| BciProperties.LoopHalts | Assignment8/bci.c:313-426 | a loop that ends normally ends in a state where its step halts, for the reason that step gives |
| BciProperties.HaltMeans | Assignment8/bci.c:308-426 | execute_program returns normally only at a STOP byte or at a byte that is no opcode |
| BciProperties.LoopResumes | Assignment8/bci.c:313-426 | a loop stopped after f1 steps and resumed for f2 steps is the loop run for f1 + f2 steps |
| BciProperties.LoopSettles | Assignment8/bci.c:313-426 | once a loop halts or faults, more steps change nothing |
| BciProperties.RunResumes | Assignment8/bci.c:308-426 | the same as LoopResumes, for execute_program's loop |
| BciProperties.RunSettles | Assignment8/bci.c:308-426 | the same as LoopSettles, for execute_program's loop |
| BciProperties.JnzOperandWidth | Assignment8/bci.c:361-388 | JNZ takes a one-byte target where JZ and JMP take two bytes, from the same bytes |
| BciProperties.ExecuteIgnoresStaleState | Assignment8/bci.c:310-311 | execute_program's result does not depend on the sp and ip it starts with |
| BciMachine.Vm.constructor | Assignment8/bci.c:20-55 | allocates fresh stack, register and instruction arrays of the configured sizes |
| BciMachine.Vm.InitVm | Assignment8/bci.c:20-55 | after init_vm the machine state is InitState, and the output is kept |
| BciMachine.Vm.LoadProgram | Assignment8/bci.c:286-303 | the program bytes fill the front of the instruction buffer, and the rest is kept |
| BciMachine.Vm.ReadBytes | Assignment8/bci.c:72-93 | the loop over the bytes at ip: succeeds exactly when they fit in the buffer, then gives their little-endian value and moves ip past them |
| BciMachine.Vm.ReadNByteInteger | Assignment8/bci.c:72-93 | follows ReadInteger: the same value and the same new state, or the same fault |
| BciMachine.Vm.DoPush | Assignment8/bci.c:100-113 | follows BciSpec.DoPush |
| BciMachine.Vm.DoPop | Assignment8/bci.c:115-127 | follows BciSpec.DoPop |
| BciMachine.Vm.CheckRegistryIndex | Assignment8/bci.c:244-252 | succeeds exactly when 0 <= n < NREGS, else reports the bad index |
| BciMachine.Vm.CheckInstructionIndex | Assignment8/bci.c:255-263 | succeeds exactly when 0 <= n < MAX_INSTS, else reports the bad index |
| BciMachine.Vm.CheckStackSize | Assignment8/bci.c:266-276 | succeeds exactly when the stack holds at least the given number of values |
| BciMachine.Vm.DoLoad | Assignment8/bci.c:129-136 | follows BciSpec.DoLoad |
| BciMachine.Vm.DoStore | Assignment8/bci.c:138-148 | follows BciSpec.DoStore |
| BciMachine.Vm.DoJmp | Assignment8/bci.c:150-157 | follows BciSpec.DoJmp |
| BciMachine.Vm.DoJz | Assignment8/bci.c:159-172 | follows BciSpec.DoJz |
| BciMachine.Vm.DoJnz | Assignment8/bci.c:174-188 | follows BciSpec.DoJnz |
| BciMachine.Vm.StoreResult | Assignment8/bci.c:190-199 | follows BciSpec.StoreResult |
| BciMachine.Vm.DoAdd | Assignment8/bci.c:190-199 | follows BciSpec.DoAdd |
| BciMachine.Vm.DoSub | Assignment8/bci.c:201-210 | follows BciSpec.DoSub |
| BciMachine.Vm.DoMul | Assignment8/bci.c:212-221 | follows BciSpec.DoMul |
| BciMachine.Vm.DoDiv | Assignment8/bci.c:223-232 | follows BciSpec.DoDiv, the handler as written: the second value divided by itself |
| BciMachine.Vm.DoPrint | Assignment8/bci.c:234-241 | follows BciSpec.DoPrint |
| BciMachine.Vm.Execute | Assignment8/bci.c:323-415 | follows BciSpec.Execute: the handler of each case, with DIV as written |
| BciMachine.Vm.ReadOperand | Assignment8/bci.c:330-415 | follows BciSpec.ReadOperand |
| BciMachine.Vm.Step | Assignment8/bci.c:313-426 | one iteration of the loop follows BciSpec.Step: running on, returning or exiting, with the spec's state |
| BciMachine.Vm.Dispatch | Assignment8/bci.c:323-415 | follows BciSpec.Dispatch |
| BciMachine.Vm.Turn | Assignment8/bci.c:313-426 | one iteration of the loop in place: if it runs on, BciSpec.Run from the new state with one step fewer gives the same result as before; a halt or a fault is the loop's result |
| BciMachine.Vm.RunLoop | Assignment8/bci.c:313-426 | the `while (1)` loop from the current state ends as BciSpec.Run says: the same halt with the same state, the same fault, or the steps running out in the same state |
| BciMachine.Vm.ExecuteProgram | Assignment8/bci.c:308-427 | the loop follows BciSpec.ExecuteProgram for the given number of steps: the same halt, the same fault, or running out of steps, each with the spec's state |
| Easter.Abs | Assignment2/easter.c:132 | the absolute value is x or -x |
| Easter.CMod | Assignment2/easter.c:167 | C's %: the dividend is the divisor times C's truncated quotient plus the remainder; it agrees with Dafny's on a non-negative dividend and is non-positive on a negative one |
| Easter.EasterDate | Assignment2/easter.c:147-213 | RANGE_ERROR exactly outside 1582..39999; otherwise a day between March 22 and April 25, encoded as -day for March and +day for April |
| Easter.EasterDateAsWritten | Assignment2/easter.c:147-213 | as written: RANGE_ERROR exactly outside 1582..39999; otherwise a day from March 22 up to "April 49", since a negative epact moves the full moon late |
| Easter.GoldenYear | Assignment2/easter.c:167 | step E1, the golden number; no contract of its own, GoldenYearRange states its range |
| Easter.Century | Assignment2/easter.c:169 | step E2, the century; no contract of its own, CenturyRange states its range |
| Easter.SkippedLeapYears | Assignment2/easter.c:176 | step E3, the skipped leap years; no contract of its own, DeterminantPositive bounds it |
| Easter.MoonFactor | Assignment2/easter.c:178 | step E3, the moon's correction; no contract of its own, it enters EpactRange through the epact |
| Easter.SundayDeterminant | Assignment2/easter.c:180 | step E4; no contract of its own, DeterminantPositive and DeterminantForm state its sign and its Zeller form |
| Easter.EpactSum | Assignment2/easter.c:182 | the sum whose remainder is the epact; no contract of its own |
| Easter.CorrectEpact | Assignment2/easter.c:187-190 | step E5's correction of 24 and 25; no contract of its own, EpactRange states the corrected range |
| Easter.CalendarFullMoon | Assignment2/easter.c:192-197 | step E6; no contract of its own, FullMoonRange states its range |
| Easter.SundayAfter | Assignment2/easter.c:198-199 | step E7; no contract of its own, SundayStep states that it lands 1 to 7 days later on a Sunday |
| Easter.EpactAsWritten | Assignment2/easter.c:182-190 | the epact with C's %; no contract of its own, FullMoonRangeAsWritten states its range -29..29 |
| Easter.EasterMarchDayAsWritten | Assignment2/easter.c:192-199 | the March day as written; no contract of its own, SundayAfterFullMoonAsWritten states its range and Sunday condition |
| Easter.GoldenYearRange | Assignment2/easter.c:167 | the golden number lies in 1..19 |
| Easter.CenturyRange | Assignment2/easter.c:169 | the century lies in 16..400 |
| Easter.DeterminantPositive | Assignment2/easter.c:180 | the Sunday determinant is positive in the valid range |
| Easter.EpactRange | Assignment2/easter.c:182-190 | the corrected epact lies in 0..29 and is never 24 |
| Easter.FullMoonRange | Assignment2/easter.c:192-197 | the calendar full moon falls on March 21..49 |
| Easter.SundayStep | Assignment2/easter.c:198-199 | the computed Sunday is 1 to 7 days after the full moon, and the determinant makes it a Sunday |
| Easter.SundayAfterFullMoon | Assignment2/easter.c:192-199 | Easter falls on March 22..56 and satisfies the determinant's Sunday condition |
| Easter.FullMoonRangeAsWritten | Assignment2/easter.c:182-197 | as written the epact lies in -29..29 and the full moon on March 21..73 |
| Easter.SundayAfterFullMoonAsWritten | Assignment2/easter.c:192-199 | as written Easter falls on March day 22..80 and still satisfies the determinant's Sunday condition |
| Easter.PrintedDate | Assignment2/easter.c:113-138 | printDate prints April exactly for a positive date, and the date's absolute value as the day |
| Easter.PrintedDateRoundTrip | Assignment2/easter.c:113-138 | printDate's month and day encode the date back; April exactly for a positive date, and the day is its absolute value |
| Easter.PrintedEasterIsMarchOrApril | Assignment2/easter.c:113-138 | the printed Easter date is a March day from 22 to 31, or an April day from 1 to 25 |
| Easter.ZellerCongruence | Assignment2/easter.c:223-260 | the weekday is in 0..6 for a positive year |
| Easter.ZellerForm | Assignment2/easter.c:223-260 | for March and April days Zeller's formula reduces to the day number plus a term of the year, modulo 7 |
| Easter.DeterminantForm | Assignment2/easter.c:180 | the Sunday determinant written in the century and year-of-century terms that Zeller uses |
| Easter.ZellerAgreesWithDeterminant | Assignment2/easter.c:180-199 | a day that the determinant calls Sunday is a Sunday by Zeller's congruence |
| Easter.EasterIsSunday | Assignment2/easter.c:96 | main's assertion holds for the corrected date: Zeller's congruence gives Sunday for every year in range |
| Easter.EasterAsWrittenIsSunday | Assignment2/easter.c:96 | main's assertion holds for the date as written too: Zeller's congruence gives Sunday for every year in range, so the assertion cannot catch the wrong epact |
| Easter.AsWrittenAgreesBefore9006 | Assignment2/easter.c:182-190 | the code as written agrees with the corrected epact before year 9006 |
| Easter.AsWrittenYear10336 | Assignment2/easter.c:182-190 | for 10336 the code as written gives April 26, the corrected code March 22 |
| Sorter.Swap | Assignment3/sorter.c:160-170 | exactly the two cells are exchanged |
| Sorter.SwapPermutes | Assignment3/sorter.c:160-170 | a swap inside the first n cells keeps their multiset and leaves the rest alone |
| Sorter.CheckSort | Assignment3/sorter.c:206-220 | true exactly when numc <= 0 or the first numc values are in non-decreasing order |
| Sorter.SortedFromBetween | Assignment3/sorter.c:206-220 | sorted by all pairs means sorted by neighbours, which is checkSort's test |
| Sorter.MinimumIndex | Assignment3/sorter.c:138-144 | the index found lies in start..numc - 1 and holds a least value of that range |
| Sorter.SelectionStep | Assignment3/sorter.c:132-149 | swapping the least remaining value into place extends the sorted prefix, every value of which is at most the rest |
| Sorter.MinimumElementSort | Assignment3/sorter.c:114-151 | the first numc cells end sorted and a permutation of what they held, and the rest is unchanged |
| Sorter.BubbleStep | Assignment3/sorter.c:185-193 | one compare-and-swap carries the largest value seen so far forward and keeps the multiset |
| Sorter.BubblePassDone | Assignment3/sorter.c:183-194 | after a pass the sorted suffix is one cell longer and is at least everything before it |
| Sorter.BubblePass | Assignment3/sorter.c:183-194 | one pass of the inner loop, in place: extends the sorted suffix and keeps the multiset and the tail |
| Sorter.BubbleSort | Assignment3/sorter.c:180-196 | the first numc cells end sorted and a permutation of what they held, and the rest is unchanged |
| Sorter.NumberArguments | Assignment3/sorter.c:50-68 | there are no more number arguments than arguments |
| Sorter.MapNumbers | Assignment3/sorter.c:66 | each number is atoi of its argument, in order |
| Sorter.NumberArgumentsAppend | Assignment3/sorter.c:50-68 | one more argument adds itself to the numbers exactly when it is neither -q nor -b |
| Sorter.MapNumbersAppend | Assignment3/sorter.c:66 | converting one more argument appends its value |
| Sorter.ClassifyArguments | Assignment3/sorter.c:50-69 | a usage failure exactly when there are no numbers or more than 32; otherwise the numbers in order, quiet exactly when -q is given, bubble sort exactly when -b is given |
| Sorter.NumberArgumentsPrefix | Assignment3/sorter.c:63-64 | a prefix of the arguments holds no more numbers than all of them, so the early exit at 33 numbers is a usage failure |
| Sorter.StoreNumbers | Assignment3/sorter.c:36-66 | the numbers fill the front of a 32-cell array, and numc counts them |
| Sorter.SorterMain | Assignment3/sorter.c:33-90 | a usage failure exactly when there are no numbers or more than 32; otherwise the numbers come out sorted and a permutation of the arguments' values, and quiet follows -q |
| TriangleGame.InFirstRowsIndex | Assignment4/triangle_game.c:23-61 | a move among the first n rows of all_moves is one of those rows |
| TriangleGame.InFirstRowsOf | Assignment4/triangle_game.c:23-61 | each of the first n rows is among the first n rows |
| TriangleGame.InTableIndex | Assignment4/triangle_game.c:23-61 | a move of the table is a row of the table |
| TriangleGame.InTableEntry | Assignment4/triangle_game.c:23-61 | every row is a move of the table |
| TriangleGame.Entry | Assignment4/triangle_game.c:23-61 | the moves table, row by row; no contract of its own, EntryShape and TableClosedUnderReverse state its shape |
| TriangleGame.EntryShape | Assignment4/triangle_game.c:23-61 | every row names three different holes of the board |
| TriangleGame.TableShape | Assignment4/triangle_game.c:23-61 | all 36 rows name three different holes of the board |
| TriangleGame.TablePair | Assignment4/triangle_game.c:23-61 | row 2i + 1 is the reverse of row 2i |
| TriangleGame.TableClosedUnderReverse | Assignment4/triangle_game.c:23-61 | the reverse of every jump in the table is in the table |
| TriangleGame.StartsComplete | Assignment4/triangle_game.c:23-61 | each row starting at a hole is counted among that hole's rows |
| TriangleGame.StartsBound | Assignment4/triangle_game.c:20-21 | no hole starts more than MAX_MOVES_AT_POINT table jumps |
| TriangleGame.Pegs | Assignment4/triangle_game.c:146-155 | the peg count; no contract of its own, PegsCountsOccupied states that it counts the occupied holes |
| TriangleGame.PegsCountsOccupied | Assignment4/triangle_game.c:146-155 | the peg count is the number of occupied holes |
| TriangleGame.PegsUpdate | Assignment4/triangle_game.c:146-155 | writing one cell changes the count by what it held and what is written |
| TriangleGame.Flipped | Assignment4/triangle_game.c:218-256 | the three flips keep the board size |
| TriangleGame.Valid | Assignment4/triangle_game.c:198-210 | valid: a peg at from and at jump and none at to; no contract of its own, MovesFromIff and JumpRemovesPeg use it |
| TriangleGame.JumpRemovesPeg | Assignment4/triangle_game.c:218-233 | a valid jump removes exactly one peg |
| TriangleGame.JumpEffect | Assignment4/triangle_game.c:218-233 | a valid jump empties from and jump, fills to, and leaves every other hole alone |
| TriangleGame.MakeUnmakeRoundTrip | Assignment4/triangle_game.c:218-256 | on a board of 0s and 1s, a jump just made may be unmade, and unmaking it restores the board |
| TriangleGame.MakeMove | Assignment4/triangle_game.c:218-233 | reports exactly whether the jump is valid, and flips the three holes exactly then |
| TriangleGame.UnmakeMove | Assignment4/triangle_game.c:241-256 | reports exactly whether the jump can be undone, and flips the three holes back exactly then |
| TriangleGame.PegsOnBoard | Assignment4/triangle_game.c:146-155 | returns the number of non-zero cells |
| TriangleGame.ValidMovesAmongRows | Assignment4/triangle_game.c:164-190 | the valid jumps from a hole among the first n rows come from different rows that start at that hole |
| TriangleGame.ValidMovesAmongBound | Assignment4/triangle_game.c:164-190 | there are at most MAX_MOVES_AT_POINT of them, so the buffer is never overrun |
| TriangleGame.ValidMovesAmongIff | Assignment4/triangle_game.c:164-190 | a move is listed exactly when it is among the first n rows and is valid from the hole |
| TriangleGame.MovesFromIff | Assignment4/triangle_game.c:164-190 | the moves at a hole are exactly the valid table jumps that start there |
| TriangleGame.MovesAt | Assignment4/triangle_game.c:164-190 | returns the valid jumps from the hole in table order, at most six of them |
| TriangleGame.PegsOccupancy | Assignment4/triangle_game.c:146-155 | two boards with pegs in the same holes have the same count |
| TriangleGame.FlippedOccupancy | Assignment4/triangle_game.c:198-233 | validity and the flips depend only on which holes hold pegs |
| TriangleGame.ValidMovesAmongOccupancy | Assignment4/triangle_game.c:164-210 | the moves listed depend only on which holes hold pegs |
| TriangleGame.MovesFromRestored | Assignment4/triangle_game.c:164-190 | a restored board offers the same moves as the board it restores |
| TriangleGame.InTableShape | Assignment4/triangle_game.c:23-61 | a jump of the table names three different holes of the board |
| TriangleGame.SolvedByJump | Assignment4/triangle_game.c:100-139 | a table jump that leads to a solvable board makes the board solvable |
| TriangleGame.Stuck | Assignment4/triangle_game.c:100-139 | a board without exactly one peg, from which no table jump leads to a solvable board, is unsolvable |
| TriangleGame.SolvableOccupancy | Assignment4/triangle_game.c:100-139 | solvability depends only on which holes hold pegs |
| TriangleGame.UnmakeRestores | Assignment4/triangle_game.c:218-256 | undoing a jump after a search that restored the board is allowed, and restores the board before the jump |
| TriangleGame.RestoredTransitive | Assignment4/triangle_game.c:100-139 | restoring a restored board restores the original |
| TriangleGame.JumpBeforeSearch | Assignment4/triangle_game.c:115-125 | the jump is still valid before the recursive search, and leaves fewer pegs |
| TriangleGame.BoardAfterSearch | Assignment4/triangle_game.c:115-131 | after the search and the undo the board is restored, and the answer is whether the jump leads to a solvable board |
| TriangleGame.NoneSolvesAt | Assignment4/triangle_game.c:115-131 | a listed move that was tried and failed leads to an unsolvable board |
| TriangleGame.MoveFromShape | Assignment4/triangle_game.c:164-190 | a move listed at a hole is a valid table jump from that hole |
| TriangleGame.NoneSolvesFrom | Assignment4/triangle_game.c:115-131 | when every listed move fails, no valid table jump from the hole succeeds |
| TriangleGame.TryJump | Assignment4/triangle_game.c:121-131 | make the jump, search, unmake: the answer is whether the jump leads to a solvable board, and the board is restored |
| TriangleGame.TryMoves | Assignment4/triangle_game.c:115-134 | true only for a solvable board; false only when no valid jump from the hole leads to a solvable board; the board is restored |
| TriangleGame.Solve | Assignment4/triangle_game.c:100-139 | the answer is whether the board is solvable, and the board comes back as it was, with any non-zero peg value becoming 1 |
| TriangleGame.SolvableIffWinningLine | Assignment4/triangle_game.c:100-139 | a board is solvable exactly when a sequence of valid table jumps leaves one peg |
| TriangleGame.WinningLineOf | Assignment4/triangle_game.c:100-139 | a solvable board has a winning line |
| TriangleGame.LineSolves | Assignment4/triangle_game.c:100-139 | a board with a winning line is solvable |
| Moves.NumMoves | Assignment4/moves.c:90-108 | numMoves as written; no contract of its own, NumMovesClosedForm and NumMovesShort state its value and its shortfall |
| Moves.NumMovesClosedForm | Assignment4/moves.c:90-108 | numMoves as written equals 3(s - 2)(s - 3) |
| Moves.NumMovesCorrectedClosedForm | Assignment4/moves.c:90-108 | the corrected count equals 3(s - 1)(s - 2) |
| Moves.TriangularNumber | Assignment4/moves.c:131-134 | triangularNumber; no contract of its own, TriangularAgrees states that it is the index of the last hole |
| Moves.TriangularAgrees | Assignment4/moves.c:131-134 | triangularNumber(n) is the index of the last hole of layer n, counted layer by layer |
| Moves.LastHoleMonotone | Assignment4/moves.c:131-134 | later layers end later |
| Moves.LayerNumber | Assignment4/moves.c:288-301 | the layer, counted from 1, whose holes include the position |
| Moves.LayerNumberUnique | Assignment4/moves.c:288-301 | exactly one layer holds each hole |
| Moves.DistanceLeft | Assignment4/moves.c:146-149 | the distance from the left edge lies within the layer |
| Moves.DistancesSplitLayer | Assignment4/moves.c:146-169 | the two distances lie in 0..layer - 1 and add up to layer - 1 |
| Moves.HoleOf | Assignment4/moves.c:146-169 | each hole is placed by its layer and its two distances |
| Moves.MovesFromShape | Assignment4/moves.c:175-223 | at most six moves from a hole, all starting there |
| Moves.LeftMoveIff | Assignment4/moves.c:175-186 | the left move exists exactly when two holes lie to the left |
| Moves.RightMoveIff | Assignment4/moves.c:188-199 | the right move exists exactly when two holes lie to the right |
| Moves.DownMovesIff | Assignment4/moves.c:201-223 | the two downward moves exist exactly when two layers lie below |
| Moves.MovesStayOnBoard | Assignment4/moves.c:175-223 | from a hole of the board, every move jumps over and lands on holes of the board |
| Moves.MovesFromCount | Assignment4/moves.c:175-223 | the number of moves from hole d of layer l: 2 for each of the left, right and down directions that has room |
| Moves.AddMove | Assignment4/moves.c:230-246 | only the row at numMoves changes, to {start, jump, end} |
| Moves.MovesAt | Assignment4/moves.c:142-228 | returns exactly the moves from the hole, in the order movesAt adds them |
| Moves.CombineAsWritten | Assignment4/moves.c:248-279 | combine as written; no contract of its own, CombineAsWrittenFaults states when it overruns the buffer |
| Moves.CombineAsWrittenFaults | Assignment4/moves.c:248-279 | as written, combine writes out of bounds exactly when both arrays are non-empty, and is right otherwise |
| Moves.CombineAsWrittenOneAndOne | Assignment4/moves.c:275 | combining one move with one move already overruns the buffer |
| Moves.Combine | Assignment4/moves.c:248-279 | the rows of the first array followed by the rows of the second |
| Moves.AllMoves | Assignment4/moves.c:46-83 | the moves from every hole of the board, the last one included, in hole order: all moves of the board |
| Moves.PartialLayerStep | Assignment4/moves.c:175-223 | one more hole of a layer brings its sideways and downward moves |
| Moves.PrefixCount | Assignment4/moves.c:46-83 | the moves from the holes before hole d of layer l number the earlier layers' total plus d holes' worth |
| Moves.LayersTotalClosedForm | Assignment4/moves.c:46-83 | the moves over layers 1..m in closed form |
| Moves.AllMovesCount | Assignment4/moves.c:46-108 | a board of n layers has 3(n - 1)(n - 2) moves, the corrected numMoves |
| Moves.NumMovesUndercounts | Assignment4/moves.c:90-108 | numMoves(5) is 18 where the 15-hole board has 36 moves |
| Moves.NumMovesGap | Assignment4/moves.c:90-108 | the corrected count exceeds numMoves as written by 6(s - 2) |
| Moves.NumMovesShort | Assignment4/moves.c:90-108 | numMoves as written falls short of the number of moves on every board of three or more layers |
| Moves.AllMovesMissesLastHole | Assignment4/moves.c:60-72 | allMoves as written misses the two moves from the last hole |
| Automaton.CellUpdate | Assignment5/1dca.c:150-154 | a cell becomes 1 exactly when it is 0 and exactly one neighbour is 1; otherwise it becomes 0 |
| Automaton.NextFrom | Assignment5/1dca.c:102-117 | each cell from the given index on is updated from its neighbours, with 0 beyond the ends |
| Automaton.NextGen | Assignment5/1dca.c:102-117 | the next generation has the same length, and each cell is the rule applied to the old neighbourhood |
| Automaton.Iterate | Assignment5/1dca.c:84-93 | k generations on keep the length |
| Automaton.Update | Assignment5/1dca.c:102-117 | returns a fresh array holding the next generation |
| Automaton.UpdateByPointer | Assignment5/1dca.c:120-140 | with one cell the pointer walk reads outside the array; otherwise a fresh array holding the next generation |
| Automaton.Run | Assignment5/1dca.c:84-93 | slot offset + j receives generation j + 1 after the current one, and the other slots are unchanged |
| Automaton.IterateShift | Assignment5/1dca.c:84-93 | k + 1 steps from a generation are k steps from the next one |
| Automaton.Simulate | Assignment5/1dca.c:30-50 | slot k of the generations array holds the generation k steps after the initial one |
| Automaton.IterateBinary | Assignment5/1dca.c:150-154 | after at least one step every cell is 0 or 1 |
| Automaton.ZerosStayZero | Assignment5/1dca.c:150-154 | an all-zero generation stays all zero |
| Automaton.LoneCellSpreads | Assignment5/1dca.c:150-154 | a lone live cell dies and its two neighbours come alive |
| Quicksorter.PartitionFrom | Assignment6/quicksorter.c:100-116 | the partition loop keeps every value, and sends each to the side its comparison with the pivot chooses |
| Quicksorter.Partition | Assignment6/quicksorter.c:100-116 | the two lists together are the rest of the list, the first holds values at most the pivot and the second values above it |
| Quicksorter.Quicksort | Assignment6/quicksorter.c:85-134 | lists of at most one element come back as they are; every result is sorted and a permutation of the input |
| Quicksorter.QuicksortJoin | Assignment6/quicksorter.c:118-133 | joining the sorted sides around the pivot gives a sorted permutation of the list |
| Quicksorter.JoinSorted | Assignment6/quicksorter.c:118-133 | sorted values at most the pivot, the pivot, then sorted values above it form a sorted list |
| Quicksorter.SortedPermutationUnique | Assignment6/quicksorter.c:85-134 | two sorted permutations of each other are equal |
| Quicksorter.QuicksortIsTheSort | Assignment6/quicksorter.c:85-134 | quicksort returns the one sorted permutation of its input |
| Quicksorter.PartitionLoop | Assignment6/quicksorter.c:100-116 | the loop over the rest of the list builds exactly Partition's two lists |
| Quicksorter.Numbers | Assignment6/quicksorter.c:37-52 | there are no more numbers than arguments |
| Quicksorter.BuildList | Assignment6/quicksorter.c:37-52 | walking argv backwards and prepending yields the numbers in argv order; quiet exactly when -q is given |
| Quicksorter.QuicksorterMain | Assignment6/quicksorter.c:27-68 | a usage exit exactly when there are no numbers; otherwise they come out sorted and a permutation of the arguments' values, and quiet follows -q |

## Left out

- `load_program` and `run_program` (Assignment8/bci.c:286-303 and 431-456) read the bytecode from a file. `BciMachine.Vm.LoadProgram` copies given bytes into the instruction buffer in their place. The file handling and the C code's missing check against MAX_INSTS are not modelled; `LoadProgram` requires the program to fit.
- The sizes and opcode values of `bci.h` are not part of this model. They are the fields of a `BciSpec.Config`.
- `printf`, `fprintf` and `exit` in the interpreter become values. PRINT appends to an `output` sequence, an `exit(EXIT_FAILURE)` is an `Error`, and a diagnostic before `return` is a `HaltReason`.
- `BciSpec.ExecuteProgram`, `BciMachine.Vm.ExecuteProgram`: the C loop `while (1)` has no bound. The model runs at most `fuel` steps and reports when they run out. A program that never halts is therefore not told apart from one that needs more steps.
- `BciSpec.DoDivCorrected`: its own contract does not say when the quotient overflows, since that needs a lemma about C division. `BciProperties.DivCorrected` states that it fails exactly at INT_MIN / -1.
- Signed overflow in ADD, SUB, MUL and DIV is undefined behaviour in C. The model treats it as a fault and does not model a wrap-around.
- `main` in bci.c is not part of this model; it only passes a file name to `run_program`.
- Easter's `main` and its `scanf` loop are left out, as is the `printf` of `printDate`. Only the month and day that `printDate` chooses are modelled. The `char[5]` month buffer that "April" overflows is an out-of-bounds write that the model does not capture.
- `Easter.EasterDate`: the easter.c arithmetic uses C `int`. Within the accepted years 1582..39999 nothing overflows, so the model uses unbounded integers.
- `Sorter.SorterMain`: the C loop stores each number as it meets it and exits at the 33rd number. The model first classifies all arguments and then stores the numbers. The outcome is the same, as `Sorter.NumberArgumentsPrefix` shows.
- `badArgExit`, `usageExit`, `printValues` and the printing in the other programs print a message and possibly exit. They become the `UsageExit` results.
- `atoi` is a parameter of the models of sorter and quicksorter.
- `randomGeneration`, `printGenerations` and `memoryFail` in 1dca.c are random input, output and allocation failure. `Automaton.Simulate` takes the initial generation as a parameter. The command-line parsing of `main` is left out.
- `Automaton.Simulate`, `Automaton.Run`: `main` passes `atoi(argv[2])` on as num_gens without a check (Assignment5/1dca.c:40-46). With num_gens <= 0 it writes `generations[0]` into a buffer of no cells, and `run` is called with a negative count, so it never reaches its base case `num_gens == 0` (Assignment5/1dca.c:87) and recurses without end, writing past the array. The model does not capture that: `Simulate` requires `numGens >= 1`, and `Run` takes a `nat`.
- The linked lists of quicksorter.c and the helpers from `linked_list.h` (not part of this model) are sequences. `Quicksorter.Quicksort` is a function on sequences. Freeing nodes and sharing between lists are not modelled.
- `main`, `triangle_input` and `triangle_print` of the triangle game read and print boards. They are not part of this model; `TriangleGame.Solve` takes the board as an array.
- `Moves.LayerNumber`: layerNumber computes the layer with `sqrt` on doubles (Assignment4/moves.c:288-301). The model defines the layer by its meaning, the layer whose holes include the position. It does not model floating-point rounding. The C formula first disagrees with the layer at hole 55, the first hole of layer 11: (-1 + sqrt(449)) / 2 + 0.9 is about 10.99, which the cast truncates to 10.
- Moves: `malloc`, `memcpy` and `free` are left out. Move arrays are sequences of `Move` rows, and `printMoveArray` is output. `Moves.MovesAt` returns the rows of its local buffer; the C code returns a pointer to a local array (Assignment4/moves.c:225), which is dangling, and the model does not capture that.
- `moves.h`, `moves_test.c` and Assignment7 are not part of this model.

## Findings

| source | as written | input that shows it | evidently intended | confidence | as-written member | corrected member |
|---|---|---|---|---|---|---|
| Assignment2/easter.c:182-190 | the epact `(11*golden + 20 + moon - skipped) % 30` can be negative, since C's % keeps the sign of the dividend; the correction that follows only handles the values 24 and 25 | year 10336 gives 26, that is April 26, later than April 25, the latest date Easter can fall on | a negative epact is brought into 0..29 first (add 30), as in Knuth's algorithm; 10336 then gives March 22 | not executed | Easter.AsWrittenYear10336 | Easter.EasterDate |
| Assignment4/moves.c:275 | the second copy goes to `new_array + sizeof(int) * MOVE_LENGTH * num_moves1`, a byte count added to a pointer to rows | combining one move with one move writes row 12 of a 2-row buffer | the second array starts at row n1 | not executed | Moves.CombineAsWrittenOneAndOne | Moves.Combine |
| Assignment4/moves.c:106 | each layer s adds 6 * (s - 3) moves | numMoves(5) is 18, where the 15-hole board has 36 moves | each layer s adds 6 * (s - 2) moves, 3(s - 1)(s - 2) in total | not executed | Moves.NumMovesUndercounts | Moves.AllMovesCount |
| Assignment4/moves.c:72 | the loop over holes stops before `triangularNumber(n)`, the last hole of the board | a board of 3 layers: the last hole's 2 moves are missing | the loop includes hole `triangularNumber(n)` | not executed | Moves.AllMovesMissesLastHole | Moves.AllMovesOfBoard |
| Assignment8/bci.c:229 | DIV computes the second value divided by itself; the interpreter keeps this handler | 9 DIV 3 gives 1 | the second value divided by the top one, as the comment above do_div says | not executed | BciProperties.DivNineByThree | BciSpec.DoDivCorrected |
