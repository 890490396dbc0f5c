# ZPU soft processor: emulation, simulator and companions

A Dafny model of the ZPU processor of this repository and of the pieces of software and hardware
around it, with proofs about all their runs.

* **The processor.**  `Words` and `Isa` define 32-bit words, the opcodes and the word each arithmetic
  instruction computes; `Cpu` gives every instruction's effect (next pc, sp, decode mask and at most one
  write, or a fault); `Runs` gives steps and runs of the processor on RAM; `Phi` holds the board's timer and
  interrupt registers (an object of its own here, a subclass in the source) and the operating system's clock
  driver; `Machines` is processor and board together, one turn of the instruction loop after the other, with
  faults, rollback and interrupts; `QuietRuns` relates runs of the two while nothing is delivered, runs of IM
  bytes among them; `Simulation` is the simulator as an object whose fields are updated in place, proved
  against `Cpu` and `Machines`; `Immediate` is about the value of runs of IM bytes, `Natives` about the
  instructions no emulation code is compared with, and about faults and opcodes.
* **Instruction emulation.**  An opcode marked feeble is executed by code at its 32-byte vector.
  `Crt0` is that code as data, `StackCode` its symbolic execution, `Images` and `CodeRuns` connect it with
  the machine, `Routines`, `Values`, `LongRoutines`, `MemoryRoutines` and `Agreement` say what each routine
  computes, `Emulation`, `MemoryEmulation` and `HighLoads` run it on the machine with any other opcodes
  emulated as well, `Refinement` compares one instruction with the processor and `WholeRuns` whole programs on
  the whole machine. `Assembly` assembles the code and shows that an image as assumed exists.
* **Interrupts and the debugger.**  `Interrupts` follows an interrupt from its delivery to the return,
  `Calls` counts the instructions of a call, `Acknowledge` is a handler, `DeliveryLaw` says when one is due, `Deliveries` what happens to the board between two, `Handshake` the
  halt protocol between the processor thread and the debugger thread, `Packets` and `MemoryPackets` the
  debugger's packets.
* **Smaller cores.**  `BlockMemory` and `Collision` model the asymmetric block memory, `Statistics` the trie
  of opcode sequences, `Checksum` the Internet checksum (RFC 1071).

Where the code and a plainer reading of it differ, the model follows the code:

* LOADB and LOADH index memory without a range check, so the processor reads word 0 for the last three
  addresses below 2^32; the routines fault there (`Refinement.EmulatedLoadExact` says exactly when the two agree).
* The word just past RAM passes the range test and faults on the array.
* CALL and CALLPCREL write their return address before a bad target faults, and emulate() pushes its return
  address before it reads the opcode again: an emulated instruction in the word just below sp may overwrite
  itself (`Images.EntersVector`, `Machines.TrapWrites`).
* The processor uses six bits of the amount of LSHIFTRIGHT and ASHIFTLEFT and the emulation five, so that
  `Agreement.Agrees` states exactly when the two agree.
* When the push of an interrupted pc faults, sp stays moved: nothing is rolled back between instructions.
* A negative timer interval makes the catch-up loop spin for ever: there is no next turn.

Conditions of the emulation theorems, all of them on the program as the processor runs it: the emulation code
and its mask table are in memory as `CodeRuns.Loaded` says; a fixed number of words below sp
(`StackCode.Depth`) is free of that code; the push of the return address leaves the opcode in place; stores do
not hit the code or the scratch words; loads do not read the scratch words, and byte loads stay in RAM; the
program does not read words that emulation left dirty before writing them; shift amounts are as
`Agreement.ShiftOk` says; the program executes no SYSCALL, and DIV and MOD only where they are not emulated.
Whole programs may read and write memory and devices with these limits: interrupts stay masked (they would
arrive at different instructions), and the registers that show the time (the sample registers, the pending
flag and the counter of the timer) may be written but not read.  Both machines then show the same interrupt
mask, timer settings and output.  Memory is compared at and above sp, except for words that POPSP has moved
sp down over and the program has not written since; the scratch words are not compared.

The theorems need no extra tools: `dafny verify dfyconfig.toml` checks the project.

## Model

| member | source | states |
|---|---|---|
| `WholeRuns.ProgramSimulated` | usoc-sources/sw/crt0.S:189-878 | for every set of emulated opcodes and every k: after k instructions of a program that respects the conditions above, device accesses included, the emulating machine has the processor's pc, sp, decode mask and output, and the same memory but for words that some emulated instruction of the program has used as scratch space; at and above sp those are words exposed by POPSP and not written since |
| `WholeRuns.DirtyScratched` | usoc-sources/sw/crt0.S:189-878 | every word in which the machines may differ lies, for some emulated instruction of the program, between its scratch space, at most 13 words below its sp, and the sp it leaves |
| `WholeRuns.RunSimulated` | usoc-sources/cores/zpu/zpu/sw/simulator/com/zylin/zpu/simulator/Simulator.java:616-1148 | whole runs from any pair of machines that differ only in dirty words and the time: the emulating machine always reaches a state that agrees with the processor's outside the tracked set of dirty words, and never damages the emulation code |
| `WholeRuns.StepSimulated` | usoc-sources/cores/zpu/zpu/sw/simulator/com/zylin/zpu/simulator/Simulator.java:1250-1264 | one instruction of such a run, emulated or not; a write cleans its word, emulation dirties only scratch words still below sp |
| `WholeRuns.SameTurn` | usoc-sources/cores/zpu/zpu/sw/simulator/com/zylin/zpu/simulator/Simulator.java:1494-1515 | an instruction that is not emulated does the same to both machines, device reads and writes included, as long as it does not read the time |
| `WholeRuns.SameEffect` | usoc-sources/cores/zpu/zpu/sw/simulator/com/zylin/zpu/simulator/Simulator.java:616-1148 | an instruction depends on no memory word outside the instruction, its operands and the word it reads through them |
| `WholeRuns.SpMoves` | usoc-sources/cores/zpu/zpu/sw/simulator/com/zylin/zpu/simulator/Simulator.java:1726-1739 | sp moves down only one word at a time and over a word the same instruction writes, except by POPSP |
| `WholeRuns.RunStaysCovered` | usoc-sources/cores/zpu/zpu/sw/simulator/com/zylin/zpu/simulator/Simulator.java:772-775 | over any run every dirty word is below sp or exposed, where the exposed words are determined by the program alone: POPSP exposes the words it moves sp down over, a write covers its word |
| `WholeRuns.NothingExposed` | usoc-sources/cores/zpu/zpu/sw/simulator/com/zylin/zpu/simulator/Simulator.java:772-775 | a program whose POPSP never lowers sp exposes nothing |
| `Refinement.EmulatedStep` | usoc-sources/sw/crt0.S:189-878 | every emulated instruction that Permits admits, with any other opcodes emulated too, ends after finitely many steps with the processor's pc, sp, decode mask and memory, but for words from at most Depth words below the sp at entry up to the sp it leaves, popped operands included |
| `Refinement.EmulatedLoadExact` | usoc-sources/sw/crt0.S:631-657 | a byte or half-word load that the processor performs is matched by the emulating machine if and only if its address is in RAM |
| `Refinement.NativeHighLoad` | usoc-sources/cores/zpu/zpu/sw/simulator/com/zylin/zpu/simulator/Simulator.java:1721-1724 | for the last three addresses below 2^32 the processor reads the byte or half-word from word 0 |
| `HighLoads.NeverReturns` | usoc-sources/sw/crt0.S:189-215 | for those addresses the routine faults at its load: however long the machine runs, it does not get back to the sp of the program |
| `Images.EntersVector` | usoc-sources/cores/zpu/zpu/sw/simulator/com/zylin/zpu/simulator/Simulator.java:1250-1264 | an emulated instruction enters its vector if and only if the push of the return address has left its opcode in place |
| `Images.OverwrittenFaults` | usoc-sources/cores/zpu/zpu/sw/simulator/com/zylin/zpu/simulator/Simulator.java:1262-1263 | an emulated instruction in the first two bytes of the word the return address is pushed to faults, and the return address stays in memory |
| `Refinement.OverwrittenSub` | usoc-sources/cores/zpu/zpu/sw/simulator/com/zylin/zpu/simulator/Simulator.java:1262-1263 | a concrete input: with sp 0x100000 a subtraction at 0xffffc is executed by the processor and faults when emulated |
| `Refinement.EmulatedShift` | usoc-sources/sw/crt0.S:414-483 | for every shift amount the emulated shift returns in place of its operands, and its word equals the processor's if and only if ShiftOk holds |
| `Agreement.Agrees` | usoc-sources/cores/zpu/zpu/sw/simulator/com/zylin/zpu/simulator/Simulator.java:988-1032 | for every set of emulated opcodes and all operands, the emulated value equals the native one if and only if bit 5 of the amount is clear or the digits that five amount bits would keep are zero |
| `Agreement.ShiftBy32Differs` | usoc-sources/cores/zpu/zpu/sw/simulator/com/zylin/zpu/simulator/Simulator.java:1004-1017 | a concrete disagreement: 1 << 32 is 0 natively and 1 when emulated |
| `Emulation.Straight` | usoc-sources/sw/crt0.S:189-878 | straight-line emulation code on the machine leaves the stack that symbolic execution predicts, whichever of its instructions are emulated, by induction on the nesting rank |
| `Emulation.EmulateStraightLine` | usoc-sources/sw/crt0.S:252-398 | a vector whose code is one straight line returns to pc + 1 with the computed word in place of the operands, writing only its window |
| `Emulation.EmulateNeg` | usoc-sources/sw/crt0.S:583-594 | emulated NEG pushes the negated word and returns |
| `Emulation.EmulateAShiftLeft` | usoc-sources/sw/crt0.S:431-445 | the computed jump into the table of doublings shifts by the low five bits of the amount |
| `Emulation.TableTarget` | usoc-sources/sw/crt0.S:885-892 | the jump arrives exactly amount mod 32 doublings in front of the end of the table |
| `Emulation.EmulateBranch` | usoc-sources/sw/crt0.S:697-801 | emulated EQBRANCH and NEQBRANCH continue at pc + offset or pc + 1 exactly as the zero test says, with both operands gone |
| `Emulation.MultLoop` | usoc-sources/sw/crt0.S:933-952 | the multiply loop makes as many rounds as A has bits (one for 0), NEQBRANCH native or emulated: at the top of round j A is shifted right by j and C + A*B has not changed modulo 2^32; it returns C + A*B |
| `Emulation.HalvedIs` | usoc-sources/sw/crt0.S:124-147 | A after j rounds is A divided by 2^j |
| `Emulation.EmulateMult` | usoc-sources/sw/crt0.S:407-412 | emulated MULT returns the wrapped product after at most 32 rounds |
| `LongRoutines.RoundValue` | usoc-sources/sw/crt0.S:124-147 | one mult1bit round keeps C + A*B modulo 2^32 and halves A logically |
| `LongRoutines.DoubledValue` | usoc-sources/sw/crt0.S:885-892 | k unrolled doublings shift left by k modulo 2^32 |
| `MemoryEmulation.EmulateLoad` | usoc-sources/sw/crt0.S:189-215 | emulated LOADH and LOADB push the big-endian half or byte the processor reads, for addresses in RAM (half-word addresses even; Refinement.EmulatedLoadExact for the others) |
| `MemoryEmulation.EmulateStore` | usoc-sources/sw/crt0.S:217-250 | emulated STOREH and STOREB replace exactly the addressed bytes of one word, their own operands included; all else outside the window unchanged |
| `MemoryEmulation.FinishStore` | usoc-sources/sw/crt0.S:894-922 | the shared tail stores the merged word, drops both operands and returns |
| `MemoryEmulation.EmulateCall` | usoc-sources/sw/crt0.S:485-504 | emulated CALL and CALLPCREL jump to the target with pc + 1 in place of the operand |
| `MemoryEmulation.EmulatePopPcRel` | usoc-sources/sw/crt0.S:803-812 | emulated POPPCREL jumps to pc + operand and pops it |
| `MemoryEmulation.EmulatePushSpAdd` | usoc-sources/sw/crt0.S:842-855 | emulated PUSHSPADD pushes sp + 4 * operand |
| `Values.RoutineValue` | usoc-sources/sw/crt0.S:252-629 | for all operands the word each straight-line routine builds is the value of its instruction |
| `Values.LessThanValue` | usoc-sources/sw/crt0.S:252-291 | the sign of a - b corrected for overflow decides signed less-than for all pairs |
| `Values.ULessThanValue` | usoc-sources/sw/crt0.S:311-381 | comparing halves with the low digits as borrow decides unsigned less-than for all pairs |
| `Values.OrEqualValue` | usoc-sources/sw/crt0.S:294-308 | the or-equal comparisons agree with the processor for all pairs |
| `Values.ZeroTest` | usoc-sources/sw/crt0.S:533-581 | the masked zero test is 1 exactly for zero, its complement exactly for nonzero |
| `Values.EqValue` | usoc-sources/sw/crt0.S:533-581 | EQ and NEQ agree with the processor for all pairs |
| `Values.XorValue` | usoc-sources/sw/crt0.S:611-629 | XOR from not, and, or |
| `Values.SubValue` | usoc-sources/sw/crt0.S:596-609 | SUB from negation and addition modulo 2^32 |
| `Values.FlipShift` | usoc-sources/sw/crt0.S:414-428 | flip, shift left by k, flip is the logical right shift by k |
| `Values.LShiftRightValue` | usoc-sources/sw/crt0.S:414-428 | the LSHIFTRIGHT routine computes the right shift by the amount its inner ASHIFTLEFT uses |
| `Values.AShiftRightValue` | usoc-sources/sw/crt0.S:447-483 | the ASHIFTRIGHT routine or-s the sign fill onto the logical shift |
| `Values.SignFillWord` | usoc-sources/sw/crt0.S:447-483 | for negative words the fill and the logical shift make the arithmetic shift |
| `Values.TargetValue` | usoc-sources/sw/crt0.S:720-747 | an all-ones or all-zeros mask selects pc + 1 or pc + offset |
| `MemoryRoutines.LoadBValue` | usoc-sources/sw/crt0.S:631-657 | shift and mask select the addressed byte |
| `MemoryRoutines.LoadHValue` | usoc-sources/sw/crt0.S:189-215 | shift and mask select the addressed half-word |
| `MemoryRoutines.StoreBValue` | usoc-sources/sw/crt0.S:660-683 | mask table, shift and or replace exactly one byte of the word |
| `MemoryRoutines.StoreHValue` | usoc-sources/sw/crt0.S:217-250 | mask, shift and or replace exactly one half of the word |
| `MemoryRoutines.InsertField` | usoc-sources/sw/crt0.S:506-530 | clearing a field with a mask and or-ing a shifted value changes exactly that field |
| `Routines.RoutineSteps` | usoc-sources/sw/crt0.S:252-629 | what each straight-line routine leaves on the stack: the return address and its result, nothing else |
| `Routines.RoutineSafe` | usoc-sources/sw/crt0.S:252-629 | each straight-line routine stays within the scratch words Depth allows and uses only instructions of lower nesting rank, ranks being at most two |
| `LongRoutines.MoreMultSteps` | usoc-sources/sw/crt0.S:939-947 | one round of the loop in terms of C, B and A, up to the loop branch |
| `Assembly.RoutineFits` | usoc-sources/sw/crt0.S:189-878 | every routine, and _storehtail behind _call, fits the 32 bytes of its vector whatever the link map |
| `Assembly.Assembled` | usoc-sources/sw/crt0.S:189-878 | assembled bytes read back as the code they encode |
| `Assembly.Linked` | usoc-sources/sw/crt0.S:153-962 | an assembled image with a link map exists that satisfies everything the emulation proofs assume of the loaded code |
| `Words.FlipTwice` | usoc-sources/cores/zpu/zpu/sw/simulator/com/zylin/zpu/simulator/Simulator.java:1483-1491 | reversing the bits of a word twice gives the word |
| `Words.FlipIdioms` | usoc-sources/sw/crt0.S:414-428 | flip, double, flip halves a word; flip, im 1, and leaves the sign digit |
| `Flips.FlipLoop` | usoc-sources/cores/zpu/zpu/sw/simulator/com/zylin/zpu/simulator/Simulator.java:1483-1491 | the bit loop of flip computes the reversal |
| `Runs.ImmediateRun` | usoc-sources/cores/zpu/zpu/sw/simulator/com/zylin/zpu/simulator/Simulator.java:643-657 | any run of IM bytes that starts with the decode mask clear moves sp by one word and pushes one value |
| `QuietRuns.ImmediateUninterrupted` | usoc-sources/cores/zpu/zpu/sw/simulator/com/zylin/zpu/simulator/Simulator.java:1286-1293 | if no interrupt is delivered in front of a run of IM bytes none is delivered and no vector taken inside it: on the whole machine it takes as many turns as it has bytes and pushes its value |
| `QuietRuns.LiftRun` | usoc-sources/cores/zpu/zpu/sw/simulator/com/zylin/zpu/simulator/Simulator.java:616-641 | while nothing can be delivered, n instructions of the processor are n turns of the loop, and the board shows the same |
| `Immediate.ImmediateClosedForm` | usoc-sources/cores/zpu/zpu/sw/simulator/com/zylin/zpu/simulator/Simulator.java:643-657 | that value is the sign-extended base-128 number modulo 2^32 |
| `Immediate.ImmediateRoundTrip` | usoc-sources/cores/zpu/zpu/sw/simulator/com/zylin/zpu/simulator/Simulator.java:643-657 | encoding a word as IM bytes and executing them pushes the word |
| `Immediate.EncodeShortest` | usoc-sources/cores/zpu/zpu/sw/simulator/com/zylin/zpu/simulator/Simulator.java:643-657 | no shorter run pushes the same value, and five bytes suffice for every word |
| `Simulation.Simulator.constructor` | usoc-sources/cores/zpu/zpu/sw/simulator/com/zylin/zpu/simulator/Simulator.java:502-526 | the state after a reset |
| `Simulation.Simulator.CpuReadLong` | usoc-sources/cores/zpu/zpu/sw/simulator/com/zylin/zpu/simulator/Simulator.java:1641-1660 | alignment, device range, RAM range and the word just past RAM as the processor sees them |
| `Simulation.Simulator.CpuWriteLong` | usoc-sources/cores/zpu/zpu/sw/simulator/com/zylin/zpu/simulator/Simulator.java:1494-1515 | the same cases for writes, with device registers updated |
| `Simulation.Simulator.Pop` | usoc-sources/cores/zpu/zpu/sw/simulator/com/zylin/zpu/simulator/Simulator.java:1726-1733 | pop reads at sp and moves it up; outside RAM it faults and sp stays |
| `Simulation.Simulator.Push` | usoc-sources/cores/zpu/zpu/sw/simulator/com/zylin/zpu/simulator/Simulator.java:1735-1739 | push moves sp down and writes there |
| `Simulation.Simulator.WriteByte` | usoc-sources/cores/zpu/zpu/sw/simulator/com/zylin/zpu/simulator/Simulator.java:1517-1526 | exactly one byte of one word changes |
| `Simulation.Simulator.CpuReadWord` | usoc-sources/cores/zpu/zpu/sw/simulator/com/zylin/zpu/simulator/Simulator.java:1358-1365 | a half-word read from an even address, or a fault |
| `Simulation.Simulator.CpuWriteWord` | usoc-sources/cores/zpu/zpu/sw/simulator/com/zylin/zpu/simulator/Simulator.java:1341-1351 | two byte writes replace exactly the half-word |
| `Simulation.Simulator.ExecIm` | usoc-sources/cores/zpu/zpu/sw/simulator/com/zylin/zpu/simulator/Simulator.java:643-657 | IM has the instruction effect of module Cpu |
| `Simulation.Simulator.ExecAddSp` | usoc-sources/cores/zpu/zpu/sw/simulator/com/zylin/zpu/simulator/Simulator.java:661-666 | ADDSP likewise, device registers included |
| `Simulation.Simulator.ExecLoadSp` | usoc-sources/cores/zpu/zpu/sw/simulator/com/zylin/zpu/simulator/Simulator.java:667-673 | LOADSP likewise |
| `Simulation.Simulator.ExecStoreSp` | usoc-sources/cores/zpu/zpu/sw/simulator/com/zylin/zpu/simulator/Simulator.java:674-681 | STORESP likewise |
| `Simulation.Simulator.ExecBinary` | usoc-sources/cores/zpu/zpu/sw/simulator/com/zylin/zpu/simulator/Simulator.java:755-768 | two-operand instructions likewise |
| `Simulation.Simulator.ExecUnary` | usoc-sources/cores/zpu/zpu/sw/simulator/com/zylin/zpu/simulator/Simulator.java:752-754 | one-operand instructions likewise, FLIP through its loop |
| `Simulation.Simulator.ExecStore` | usoc-sources/cores/zpu/zpu/sw/simulator/com/zylin/zpu/simulator/Simulator.java:715-719 | STORE likewise |
| `Simulation.Simulator.ExecStorePart` | usoc-sources/cores/zpu/zpu/sw/simulator/com/zylin/zpu/simulator/Simulator.java:799-828 | STOREB and STOREH likewise |
| `Simulation.Simulator.ExecLoad` | usoc-sources/cores/zpu/zpu/sw/simulator/com/zylin/zpu/simulator/Simulator.java:699-701 | LOAD likewise |
| `Simulation.Simulator.ExecLoadB` | usoc-sources/cores/zpu/zpu/sw/simulator/com/zylin/zpu/simulator/Simulator.java:790-798 | LOADB likewise, with the unchecked array index of the source |
| `Simulation.Simulator.ExecLoadH` | usoc-sources/cores/zpu/zpu/sw/simulator/com/zylin/zpu/simulator/Simulator.java:810-818 | LOADH likewise |
| `Simulation.Simulator.ExecBranch` | usoc-sources/cores/zpu/zpu/sw/simulator/com/zylin/zpu/simulator/Simulator.java:904-942 | conditional branches likewise |
| `Simulation.Simulator.ExecCall` | usoc-sources/cores/zpu/zpu/sw/simulator/com/zylin/zpu/simulator/Simulator.java:1034-1045 | CALL likewise, including the return address written before a bad target is noticed |
| `Simulation.Simulator.ExecCallPcRel` | usoc-sources/cores/zpu/zpu/sw/simulator/com/zylin/zpu/simulator/Simulator.java:1046-1057 | CALLPCREL likewise |
| `Simulation.Simulator.ExecPopPc` | usoc-sources/cores/zpu/zpu/sw/simulator/com/zylin/zpu/simulator/Simulator.java:720-751 | POPPC and POPPCREL likewise |
| `Simulation.Simulator.ExecPopSp` | usoc-sources/cores/zpu/zpu/sw/simulator/com/zylin/zpu/simulator/Simulator.java:772-775 | POPSP likewise; a misaligned sp is refused |
| `Simulation.Simulator.ExecPushSpAdd` | usoc-sources/cores/zpu/zpu/sw/simulator/com/zylin/zpu/simulator/Simulator.java:702-714 | PUSHSPADD likewise |
| `Simulation.Simulator.Emulate` | usoc-sources/cores/zpu/zpu/sw/simulator/com/zylin/zpu/simulator/Simulator.java:1250-1264 | emulate pushes pc + 1, reads the byte at pc again and enters the vector of what is there now, or faults |
| `Simulation.Simulator.Execute` | usoc-sources/cores/zpu/zpu/sw/simulator/com/zylin/zpu/simulator/Simulator.java:643-1138 | the whole switch has the effect of module Cpu for every opcode and every set of emulated opcodes |
| `Simulation.Simulator.ExecuteInstruction` | usoc-sources/cores/zpu/zpu/sw/simulator/com/zylin/zpu/simulator/Simulator.java:633-1147 | fetch, tick, execute, advance pc, commit: the new state is the instruction effect, and commit is set exactly if nothing faulted |
| `Natives.DivisionLaw` | usoc-sources/cores/zpu/zpu/sw/simulator/com/zylin/zpu/simulator/Simulator.java:953-985 | DIV and MOD push the signed quotient rounded towards zero and the remainder with the sign of the dividend, unique by Divides; only -2^31 divided by -1 wraps |
| `Natives.DivSteps` | usoc-sources/cores/zpu/zpu/sw/simulator/com/zylin/zpu/simulator/Simulator.java:953-985 | DIV and MOD replace their operands by those words and go on at pc + 1 |
| `Natives.SwapLaw` | usoc-sources/cores/zpu/zpu/sw/simulator/com/zylin/zpu/simulator/Simulator.java:883-892 | SWAP exchanges the halves of a word, and twice gives the word back |
| `Natives.Mult16Law` | usoc-sources/cores/zpu/zpu/sw/simulator/com/zylin/zpu/simulator/Simulator.java:893-903 | MULT16X16 is the product of the low halves, with nothing lost |
| `Natives.StepPushPc` | usoc-sources/cores/zpu/zpu/sw/simulator/com/zylin/zpu/simulator/Simulator.java:690-692 | PUSHPC pushes the address of its own instruction |
| `Natives.AlwaysFault` | usoc-sources/cores/zpu/zpu/sw/simulator/com/zylin/zpu/simulator/Simulator.java:687-688 | breakpoint, undefined opcodes, a feeble SYSCALL and the end of RAM fault and write nothing |
| `Natives.PopsFault` | usoc-sources/cores/zpu/zpu/sw/simulator/com/zylin/zpu/simulator/Simulator.java:1726-1733 | an instruction that pops at or above the end of RAM faults and writes nothing |
| `Natives.OperandFaults` | usoc-sources/cores/zpu/zpu/sw/simulator/com/zylin/zpu/simulator/Simulator.java:953-985 | division by zero, an sp that is no multiple of four and jumps out of memory fault, CALL with its return address written |
| `Natives.AddressClasses` | usoc-sources/cores/zpu/zpu/sw/simulator/com/zylin/zpu/simulator/Simulator.java:1641-1660 | LOAD and STORE by address: devices, RAM, the word past RAM, and faults elsewhere |
| `Natives.BaseOpcodes` | usoc-sources/cores/zpu/zpu/sw/simulator/com/zylin/zpu/simulator/Simulator.java:46-60 | the opcode bytes of the instructions the processor always executes itself |
| `Natives.ComparisonOpcodes` | usoc-sources/cores/zpu/zpu/sw/simulator/com/zylin/zpu/simulator/Simulator.java:63-69 | the opcode bytes of half-word accesses, comparisons and SWAP |
| `Natives.ArithmeticOpcodes` | usoc-sources/cores/zpu/zpu/sw/simulator/com/zylin/zpu/simulator/Simulator.java:70-79 | the opcode bytes of arithmetic, shifts and CALL |
| `Natives.MemoryOpcodes` | usoc-sources/cores/zpu/zpu/sw/simulator/com/zylin/zpu/simulator/Simulator.java:80-87 | the opcode bytes of byte accesses, division, branches and CONFIG |
| `Natives.OtherOpcodes` | usoc-sources/cores/zpu/zpu/sw/simulator/com/zylin/zpu/simulator/Simulator.java:47-91 | the opcode bytes of PUSHPC, SYSCALL, PUSHSPADD, MULT16X16 and CALLPCREL |
| `Natives.OperandOpcodes` | usoc-sources/cores/zpu/zpu/sw/simulator/com/zylin/zpu/simulator/Simulator.java:661-681 | the opcode bytes that carry a stack offset or seven bits of a constant |
| `Simulation.Simulator.CheckCommit` | usoc-sources/cores/zpu/zpu/sw/simulator/com/zylin/zpu/simulator/Simulator.java:1231-1240 | an uncommitted instruction is rolled back to the saved pc, sp and decode mask |
| `Simulation.Simulator.Attempt` | usoc-sources/cores/zpu/zpu/sw/simulator/com/zylin/zpu/simulator/Simulator.java:530-580 | an instruction with its handler is Machines.Attempt: the whole state afterwards, rollback included |
| `Machines.Rollback` | usoc-sources/cores/zpu/zpu/sw/simulator/com/zylin/zpu/simulator/Simulator.java:1231-1248 | after any fault pc, sp and decode mask are those from before the instruction, a halt is requested, and memory is unchanged but for at most the return address; otherwise exactly one instruction has been retired |
| `Machines.TrapWrites` | usoc-sources/cores/zpu/zpu/sw/simulator/com/zylin/zpu/simulator/Simulator.java:1250-1264 | a faulting instruction has written memory if and only if it is a CALL or CALLPCREL executed by the processor or an emulated instruction that has overwritten itself, and then only its return address |
| `Simulation.Simulator.CheckVector` | usoc-sources/cores/zpu/zpu/sw/simulator/com/zylin/zpu/simulator/Simulator.java:595-609 | an armed vector pushes pc and enters the vector; when the push faults, sp has moved and nothing else has changed |
| `Machines.VectorEnters` | usoc-sources/cores/zpu/zpu/sw/simulator/com/zylin/zpu/simulator/Simulator.java:595-614 | an armed vector with room on the stack pushes pc and continues at address 0x20 |
| `Machines.VectorFaults` | usoc-sources/cores/zpu/zpu/sw/simulator/com/zylin/zpu/simulator/Simulator.java:595-609 | where nothing can be pushed sp moves, nothing else does, and a halt is requested |
| `Machines.CounterSeesTick` | usoc-sources/cores/zpu/zpu/sw/simulator/com/zylin/zpu/simulator/Simulator.java:640-642 | the cycle of an instruction passes before it reads the timer's counter |
| `Simulation.Simulator.Turn` | usoc-sources/cores/zpu/zpu/sw/simulator/com/zylin/zpu/simulator/Simulator.java:616-1148 | one turn is Machines.Turn, for every state in which the turn ends, and can be followed by the next; in front of a byte that continues a run of IM bytes it executes the instruction |
| `Simulation.Simulator.InstructionLoop` | usoc-sources/cores/zpu/zpu/sw/simulator/com/zylin/zpu/simulator/Simulator.java:526-580 | any number of turns of the endless loop, with whatever faults and interrupts on the way |
| `Machines.TurnsKeep` | usoc-sources/cores/zpu/zpu/sw/simulator/com/zylin/zpu/simulator/Simulator.java:583-603 | in every state the loop reaches, sp is aligned, pc is within memory, a vector is armed only with the decode mask clear, lastTimer is not in the future, and n turns retire at most n instructions |
| `Phi.ReadBack` | usoc-sources/cores/zpu/zpu/sw/simulator/com/zylin/zpu/simulator/Phi.java:36-99 | what a program reads after writing a register: the interrupt mask it wrote, no pending interrupt after an acknowledgement, every other register unchanged; and what the UART puts out |
| `Phi.CounterRestarts` | usoc-sources/cores/zpu/zpu/sw/simulator/com/zylin/zpu/simulator/Phi.java:77-89 | a restarted timer counts down from its period again |
| `Phi.Registers` | usoc-sources/cores/zpu/zpu/sw/simulator/com/zylin/zpu/simulator/Phi.java:36-99 | which addresses answer reads and writes; the UART is always ready |
| `Phi.SampleReads` | usoc-sources/cores/zpu/zpu/sw/simulator/com/zylin/zpu/simulator/Simulator.java:1561-1573 | the two sample registers give back the sampled cycle count as a 64-bit number |
| `Phi.Board.CatchUp` | usoc-sources/cores/zpu/zpu/sw/simulator/com/zylin/zpu/simulator/Simulator.java:1270-1284 | the catch-up loop, from every state from which it ends, leaves lastTimer at the last grid point |
| `Phi.GridBounds` | usoc-sources/cores/zpu/zpu/sw/simulator/com/zylin/zpu/simulator/Simulator.java:1270-1284 | for a positive interval lastTimer stays on start + k * interval and ends between 0 and one interval behind cycles |
| `Phi.NegativeIntervalSpins` | usoc-sources/cores/zpu/zpu/sw/simulator/com/zylin/zpu/simulator/Simulator.java:1272-1283 | from every other state (a negative interval) the guard of the loop holds after any number of turns |
| `Phi.Board.CheckInterrupts` | usoc-sources/cores/zpu/zpu/sw/simulator/com/zylin/zpu/simulator/Simulator.java:1268-1336 | when an interrupt is delivered and what becomes of timerPending and inInterrupt |
| `DeliveryLaw.DeliversExactly` | usoc-sources/cores/zpu/zpu/sw/simulator/com/zylin/zpu/simulator/Simulator.java:1268-1336 | in every history of the board since power on a check delivers an interrupt if and only if the interrupt mask was last written even, the timer enable register odd, a grid point has been passed and not acknowledged since, and after every earlier delivery some unmasked check with the decode mask clear has found no tick pending |
| `Deliveries.DeliversWhenDue` | usoc-sources/cores/zpu/zpu/sw/simulator/com/zylin/zpu/simulator/Simulator.java:616-641 | the same on the whole machine after any number of turns: the next turn delivers if and only if it gets to its check and an interrupt is due |
| `Phi.AcknowledgedBetween` | usoc-sources/cores/zpu/zpu/sw/simulator/com/zylin/zpu/simulator/Simulator.java:1318-1334 | in every sequence of events software acknowledges the timer at least once between two deliveries |
| `Deliveries.AcknowledgedInRun` | usoc-sources/cores/zpu/zpu/sw/simulator/com/zylin/zpu/simulator/Simulator.java:1268-1336 | on the whole machine, between any two turns that deliver an interrupt there is, after the first delivery and before the second, a write to the board that acknowledges the timer |
| `Deliveries.RunBoard` | usoc-sources/cores/zpu/zpu/sw/simulator/com/zylin/zpu/simulator/Simulator.java:616-641 | the board after any number of turns is the one the events of those turns lead to |
| `Phi.ReachedTimely` | usoc-sources/cores/zpu/zpu/sw/simulator/com/zylin/zpu/simulator/Simulator.java:1270-1284 | whatever happens to the board lastTimer is never in the future, and only a write to the period register changes the interval |
| `Phi.NoDeliveryInsideIm` | usoc-sources/cores/zpu/zpu/sw/simulator/com/zylin/zpu/simulator/Simulator.java:1290-1294 | no interrupt is delivered while the decode mask is set |
| `Phi.Clock.Initialize` | usoc-sources/cores/zpu/zpu/sw/ecos/repository/hal/zylin/zpu/var/current/src/zpu_misc.c:83-88 | the period is set and the timer restarted |
| `Phi.Clock.Read` | usoc-sources/cores/zpu/zpu/sw/ecos/repository/hal/zylin/zpu/var/current/src/zpu_misc.c:98-101 | hal_clock_read returns (cycles - lastTimer) mod period for periods below 2^31, mod 2^32 - period for larger ones, and faults without a period |
| `Interrupts.Resumes` | usoc-sources/sw/crt0.S:171-182 | a program to which an interrupt is delivered resumes with its pc, sp and R0 and its memory at and above sp, whatever a handler that restores sp does to R0, devices and memory below sp, whichever opcodes are emulated, and whenever the next ticks fall due, provided interrupts delivered at the final poppc resume as well |
| `Interrupts.HandlerLeft` | usoc-sources/cores/zpu/zpu/sw/simulator/com/zylin/zpu/simulator/Simulator.java:1286-1294 | after the handler R0 is restored and no interrupt is delivered before the poppc behind that: a tick that falls due meanwhile waits for the decode mask |
| `Interrupts.ReachesHandler` | usoc-sources/cores/zpu/zpu/sw/simulator/com/zylin/zpu/simulator/Simulator.java:583-614 | from the turn that delivers, through the push of pc and the vector, the handler is entered after a fixed number of turns with R0 saved |
| `Interrupts.ResumedJoin` | usoc-sources/cores/zpu/zpu/sw/simulator/com/zylin/zpu/simulator/Simulator.java:595-609 | resuming twice is resuming, so that any number of interrupts delivered at one place may follow each other |
| `Acknowledge.AcknowledgedResumes` | usoc-sources/sw/crt0.S:171-182 | with a handler that acknowledges the timer installed, and the next tick not due before the program goes on, the program resumes and the interrupt is no longer pending |
| `Calls.CallRuns` | usoc-sources/sw/crt0.S:485-504 | a call in emulation code takes one instruction, or eight if CALL is emulated |
| `Acknowledge.AcknowledgingReturns` | usoc-sources/cores/zpu/zpu/sw/ecos/repository/hal/zylin/zpu/var/current/src/zpu_misc.c:202-206 | a handler that acknowledges the timer by writing its register is one Resumes covers, unless the next tick is due before it has returned |
| `Handshake.ExecutesOnlyInsideCont` | usoc-sources/cores/zpu/zpu/sw/simulator/com/zylin/zpu/simulator/Simulator.java:1451-1481 | over all interleavings instructions execute only while the debugger thread sleeps inside cont, the threads never both sleep, and the processor is halted or about to halt whenever the debugger runs |
| `Handshake.HaltsExactly` | usoc-sources/cores/zpu/zpu/sw/simulator/com/zylin/zpu/simulator/Simulator.java:1451-1481 | over all runs checkHalt puts the processor to sleep if and only if a step, a debugger request, a fault, a watch point, a SYSCALL or the initial suspend has asked for a halt since it went to sleep last; it ends it after a shutdown and otherwise lets it execute |
| `Handshake.ContRunsOn` | usoc-sources/cores/zpu/zpu/sw/simulator/com/zylin/zpu/simulator/Simulator.java:1790-1811 | while nothing asks for a halt a running processor goes on and cont does not return |
| `Handshake.NoDeadlock` | usoc-sources/cores/zpu/zpu/sw/simulator/com/zylin/zpu/simulator/SimApp.java:102-137 | until both threads have ended one of them can go on, and after a shutdown the processor ends with its next step |
| `Handshake.StepRetiresAtMostOne` | usoc-sources/cores/zpu/zpu/sw/simulator/com/zylin/zpu/simulator/Simulator.java:1813-1820 | a step that saw no SYSCALL has retired at most one instruction when it returns |
| `Handshake.StepOverSyscallRunsOn` | usoc-sources/cores/zpu/zpu/sw/simulator/com/zylin/zpu/simulator/gdb/GDBServer.java:299-305 | a run in which a step over a SYSCALL retires more than one instruction |
| `Handshake.InvariantInitially` | usoc-sources/cores/zpu/zpu/sw/simulator/com/zylin/zpu/simulator/SimApp.java:96-100 | the simulator starts with a halt pending |
| `BlockMemory.Memory.Write` | usoc-libraries/xilinx/XilinxCoreLib/BLK_MEM_GEN_V2_3.vhd:874-974 | a write through a port of any width changes exactly the enabled bytes of its word in the flat bit array; out of range it changes nothing |
| `BlockMemory.Memory.Read` | usoc-libraries/xilinx/XilinxCoreLib/BLK_MEM_GEN_V2_3.vhd:976-1048 | a read returns the bits from address * width on, the reset value, or keeps the latch when out of range |
| `BlockMemory.WrittenBit` | usoc-libraries/xilinx/XilinxCoreLib/BLK_MEM_GEN_V2_3.vhd:909-930 | bit by bit: an enabled bit has the new value, every other bit the old |
| `BlockMemory.LastWriterWins` | usoc-libraries/xilinx/XilinxCoreLib/BLK_MEM_GEN_V2_3.vhd:874-974 | after any sequence of writes through ports of any widths every bit is the one written to it last |
| `BlockMemory.ReadSeesLastWrites` | usoc-libraries/xilinx/XilinxCoreLib/BLK_MEM_GEN_V2_3.vhd:1014-1048 | a read through one port returns what was last written through any port, bit by bit |
| `BlockMemory.Memory.LoadDefault` | usoc-libraries/xilinx/XilinxCoreLib/BLK_MEM_GEN_V2_3.vhd:401-412 | the default word repeated over all cells |
| `BlockMemory.Memory.LoadLines` | usoc-libraries/xilinx/XilinxCoreLib/BLK_MEM_GEN_V2_3.vhd:414-432 | loading an initialisation file puts bit by bit the lines into the words of the memory, missing bits 0; that equals one whole-word write per line through port A, or through that port made as deep as the memory if the file is longer than the port |
| `BlockMemory.LinesLoaded` | usoc-libraries/xilinx/XilinxCoreLib/BLK_MEM_GEN_V2_3.vhd:414-432 | bit k of the memory is bit k mod width of line k / width if there is such a line and a word for it, 0 beyond the end of the line, and as before elsewhere |
| `BlockMemory.LongFile` | usoc-libraries/xilinx/XilinxCoreLib/BLK_MEM_GEN_V2_3.vhd:414-432 | where the memory is deeper than the port, the lines behind the port's last word are loaded, while writes through the port leave those bits alone |
| `BlockMemory.CellBit` | usoc-libraries/xilinx/XilinxCoreLib/BLK_MEM_GEN_V2_3.vhd:909-930 | bit j of cell i is bit i * width + j of the flat memory |
| `Collision.Log2Roundup` | usoc-libraries/xilinx/XilinxCoreLib/BLK_MEM_GEN_V2_3.vhd:566-584 | log2roundup is the ceiling logarithm |
| `Collision.CollisionExact` | usoc-libraries/xilinx/XilinxCoreLib/BLK_MEM_GEN_V2_3.vhd:661-838 | for dyadic widths and ports of equal capacity a collision is reported if and only if a write overlaps the other port's write or read in some cell |
| `Collision.NestedOverlap` | usoc-libraries/xilinx/XilinxCoreLib/BLK_MEM_GEN_V2_3.vhd:702-730 | aligned ranges overlap exactly when the finer address scaled down is the coarser one |
| `Statistics.StatKeeper.CountInstruction` | usoc-sources/cores/zpu/zpu/sw/simulator/com/zylin/zpu/stats/StatKeeper.java:27-46 | after every opcode each trie node counts the paths of the stream that lead to it |
| `Statistics.Instruction.AddInstruction` | usoc-sources/cores/zpu/zpu/sw/simulator/com/zylin/zpu/stats/Instruction.java:19-26 | the child is created on first use and found afterwards |
| `Statistics.CountedIsOccurrences` | usoc-sources/cores/zpu/zpu/sw/simulator/com/zylin/zpu/stats/StatKeeper.java:33-44 | triples are counted exactly; pairs and single opcodes where a triple starts, with one and two extra for those the stream begins with |
| `Statistics.DepthTotals` | usoc-sources/cores/zpu/zpu/sw/simulator/com/zylin/zpu/stats/StatKeeper.java:33-44 | the counts at depth d add up to n - d + 1 |
| `Packets.Packet.Receive` | usoc-sources/cores/zpu/zpu/sw/simulator/com/zylin/zpu/simulator/gdb/Packet.java:33-89 | receive consumes a frame, checks its sum and acknowledges or rejects it, for every input |
| `Packets.Packet.SendReply` | usoc-sources/cores/zpu/zpu/sw/simulator/com/zylin/zpu/simulator/gdb/Packet.java:348-398 | sendReply puts out '$', its text, '#' and two digits that read as the sum of its characters modulo 256 and, while the session is alive, takes one character as acknowledgement or refusal |
| `Packets.FrameIs` | usoc-sources/cores/zpu/zpu/sw/simulator/com/zylin/zpu/simulator/gdb/Packet.java:348-371 | a frame is '$', the text, '#' and two digits that read as the sum of the characters modulo 256 |
| `Packets.SumJoin` | usoc-sources/cores/zpu/zpu/sw/simulator/com/zylin/zpu/simulator/gdb/Packet.java:357-362 | the checksum is the sum of the characters |
| `Packets.FrameOfOk` | usoc-sources/cores/zpu/zpu/sw/simulator/com/zylin/zpu/simulator/gdb/Packet.java:348-371 | a concrete frame: "OK" is sent as "$OK#9a" |
| `Packets.AcceptsExactly` | usoc-sources/cores/zpu/zpu/sw/simulator/com/zylin/zpu/simulator/gdb/Packet.java:33-89 | receive accepts a line as cmd if and only if it is '$', an encoding of cmd with '}' escapes, '#' and two digits that read as the sum of cmd modulo 256 |
| `Packets.Verdicts` | usoc-sources/cores/zpu/zpu/sw/simulator/com/zylin/zpu/simulator/gdb/Packet.java:70-84 | what becomes of every such line by its two digits: accepted, rejected, or not a number |
| `Packets.DigitsAre` | usoc-sources/cores/zpu/zpu/sw/simulator/com/zylin/zpu/simulator/gdb/Packet.java:70-73 | digits are 0 to 9 and a to f of either case |
| `Packets.ReceiveInvertsSend` | usoc-sources/cores/zpu/zpu/sw/simulator/com/zylin/zpu/simulator/gdb/Packet.java:33-89 | receive gives back every seven-bit payload without '#' and '}' that sendReply framed, and leaves the rest of the line |
| `Packets.ChangedCharacterRejected` | usoc-sources/cores/zpu/zpu/sw/simulator/com/zylin/zpu/simulator/gdb/Packet.java:70-84 | any single changed payload character that stays in that set is rejected |
| `Packets.HexRoundTrip` | usoc-sources/cores/zpu/zpu/sw/simulator/com/zylin/zpu/simulator/gdb/GDBServer.java:206-214 | two-digit hexadecimal numbers are read back |
| `MemoryPackets.NumberRoundTrip` | usoc-sources/cores/zpu/zpu/sw/simulator/com/zylin/zpu/simulator/gdb/Packet.java:227-247 | extractInteger reads back a hexadecimal number up to the next separator |
| `MemoryPackets.Command.WriteMemory` | usoc-sources/cores/zpu/zpu/sw/simulator/com/zylin/zpu/simulator/gdb/Packet.java:286-304 | an M packet stores its bytes in order until one is out of range or not hexadecimal, and replies OK only without such a fault |
| `MemoryPackets.Command.ReadMemory` | usoc-sources/cores/zpu/zpu/sw/simulator/com/zylin/zpu/simulator/gdb/Packet.java:263-275 | an m packet replies with the bytes named |
| `MemoryPackets.MemoryPacketsRoundTrip` | usoc-sources/cores/zpu/zpu/sw/simulator/com/zylin/zpu/simulator/gdb/Packet.java:263-304 | an M packet in range followed by an m packet returns the same digits, every other byte unchanged |
| `MemoryPackets.StopsThere` | usoc-sources/cores/zpu/zpu/sw/simulator/com/zylin/zpu/simulator/gdb/Packet.java:286-304 | a write that runs into the end of RAM or into bad digits has stored exactly the bytes before and fails |
| `MemoryPackets.FetchStops` | usoc-sources/cores/zpu/zpu/sw/simulator/com/zylin/zpu/simulator/gdb/Packet.java:263-275 | a read that runs into the end of RAM replies with the bytes before it and fails |
| `MemoryPackets.NumberExamples` | usoc-sources/cores/zpu/zpu/sw/simulator/com/zylin/zpu/simulator/gdb/Packet.java:227-247 | concrete numbers: a sign is taken, and a long is cut to 32 bits |
| `MemoryPackets.TextExamples` | usoc-sources/cores/zpu/zpu/sw/simulator/com/zylin/zpu/simulator/gdb/Packet.java:263-304 | the packets as text: "M1f,1:a0" and "m1f,1" |
| `Checksum.InetCksum` | usoc-sources/cores/zpu/zpu/roadshow/roadshow/net_test/ping_test.c:119-153 | for every buffer of at most 65537 words the result is the complement of the one's complement sum; for longer ones that of the wrapped sum |
| `Checksum.TwoFoldsEnough` | usoc-sources/cores/zpu/zpu/roadshow/roadshow/net_test/ping_test.c:149-150 | two folds turn any 32-bit sum into its one's complement representative |
| `Checksum.OnesSumIs` | usoc-sources/cores/zpu/zpu/roadshow/roadshow/net_test/ping_test.c:119-153 | the one's complement sum is the sum modulo 2^16 - 1, and zero for zeroes only |
| `Checksum.WordAt` | usoc-sources/cores/zpu/zpu/roadshow/roadshow/net_test/ping_test.c:131-147 | the buffer is read as big-endian words, an odd last byte padded on the right |
| `Checksum.RfcExample` | usoc-sources/cores/zpu/zpu/roadshow/roadshow/net_test/ping_test.c:119-153 | the example of RFC 1071, section 3 |
| `Checksum.StoredChecksumVerifies` | usoc-sources/cores/zpu/zpu/roadshow/roadshow/net_test/ping_test.c:119-153 | storing the checksum in an aligned zeroed field makes the recomputed checksum 0 |

## Left out

- DIV and MOD emulation: it calls the library routines `__divsi3` and `__modsi3`, which are not part of this model.
- SYSCALL: its host call is reduced to a retired instruction; the requests it carries are not part of this model.
- CONFIG: only its jump to the vector; that it also changes the set of feeble opcodes while the program runs is not modelled, the set is fixed in every theorem.
- SWAP, MULT16X16 and PUSHPC vectors: the simulator never dispatches to them.
- Access watch points, profile arrays, histograms, gmon dump, validMemory beyond its index check, intSp and the trace-driven interrupt mode: statistics and debugging aids that do not change pc, sp or memory.
- Simulation.Simulator.Turn: without the halt check at its start, which module Handshake models, and with the cycle counter unbounded instead of a Java long.
- Simulation.Simulator.Attempt: does not say which of the processor's exceptions was raised, because every handler does the same.
- Interrupts.Resumes: the handler is any behaviour that meets HandlerReturns; the C code of the handler is not part of this model. Interrupts delivered inside the handler, on its return or at the final poppc are part of the run described by t and f.
- Simulation.Simulator.Execute: CONFIG leaves the set of feeble opcodes alone and SYSCALL does not call the host, as said above.
- WholeRuns.ProgramSimulated: programs run with interrupts masked, because an interrupt reaches the two machines at different instructions, and do not read the registers that show the time, because emulation takes time.
- Refinement.EmulatedStep: instructions the emulation does differently are excluded by Permits; Agreement.Agrees, Refinement.EmulatedLoadExact and Images.EntersVector say exactly which those are.
- Phi.Board.CheckInterrupts: asks that the catch-up loop ends, because the source does not return otherwise (Phi.NegativeIntervalSpins).
- Handshake.StepRetiresAtMostOne: instructions are counted from the start of the innermost call; while a host call is performed the outer calls are not counted.
- BlockMemory.Memory.Write: one procedure for both ports, which the source repeats; clock edges are atomic steps, and delays, undefined logic values, output registers and write modes are left out.
- BlockMemory.Memory.LoadLines: lines are given as bits, least significant first; reading the text file is left out, and the last line must fit the memory, past whose end the source indexes otherwise.
- Packets.Packet.SendReply: characters are their codes; how a character above 127 is encoded in bytes is not part of this model.
- Packets.ReceiveInvertsSend: unescaped payloads, because sendReply escapes nothing; Packets.AcceptsExactly is about escaped ones, whose decoded characters receive sums.
- MemoryPackets.Command.ReadMemory: the reply "E01" after a fault is left to its caller.
- Sampled cycle counters and their read-out loop, sockets, serial and console input, other boards, games, benchmarks, operating system glue and Xilinx wrapper files.
