# A verified model of the Em68030 core

Em68030 emulates an MC68030 workstation.  This project models the parts of it that are hardest to get
right and proves that they are: the block compiler and its cache against the instruction interpreter,
the arithmetic unit, operand addressing, saving and restoring the FPU, the breakpoint condition
evaluator, and the disk label tool.  `dafny verify dfyconfig.toml` checks everything.

## Where things are

| files | what they model |
|---|---|
| `Machine`, `Processor` | words, registers, CCR, memory; the processor object |
| `Bits`, `Alu`, `RotateLaws`, `MultiLimb`, `Bcd` | `Alu.cpp`: closed forms of all shifts and rotates, the loops, and laws of chains through X |
| `EffectiveAddress`, `AddressingMethods`, `AddressingLaws`, `IndexedLaws`, `ModeLaws` | `AddressingModes.cpp`: what each mode means, the in-place operations, stack, read-modify-write and indexing laws |
| `Interpreter`, `InterpreterLaws`, `FastHandlers` | the compilable instructions of `InstructionDecoder.cpp`, as one step function |
| `InstructionLaws`, `LogicLaws` | what each of those instructions does to registers and flags, in arithmetic terms |
| `JitBlock`, `JitCompile` | compiled blocks, their execution, and the compiler, as functions |
| `JitExecute`, `JitCompileLoops` | the same on objects and with the loops of the source |
| `JitDecode`, `JitShape`, `JitFlags`, `JitBra`, `JitRefine`, `JitTheorems`, `JitSchedule`, `JitAssemble`, `JitCounterexamples` | correctness of the compiler, from one operation to whole runs |
| `JitCache`, `JitDriver` | the block cache, and the main loop that samples, compiles and dispatches |
| `ConditionSplit`, `ConditionEvaluator`, `ConditionPrinter`, `ConditionValues`, `ConditionLiterals` | `ConditionEvaluator.h` |
| `FpuFormat`, `FpuMemory`, `FpuMove`, `FpuLaws`, `FpuImage` | extended-precision conversion, FMOVEM, FSAVE and FRESTORE, and the bytes they leave |
| `DiskLabel` | `tools/mkdisklabel.c` |

Functions say what an operation means; a method next to a function of the same purpose is the code
that updates objects, arrays and loop variables, proved equal to it; lemmas say what follows.

## How the compiler is shown correct

The reference is the interpreter (`Interpreter.Step`): fetch, table lookup, handler.  A compiled block
is compared with the same block keeping all flags (`JitFlags`), and that block with the interpreter
(`JitRefine`).  The two comparisons meet in `JitTheorems`, and `JitSchedule` carries the result over
every interleaving of interpreted instructions and dispatched blocks.  `JitDriver.RunFastJit` states it
about the processor object and its counters.  What both sides compute is pinned down apart from either:
`InstructionLaws` and `LogicLaws` describe each instruction, `JitAssemble` says which opcodes are
accepted and why a block ends where it does, and `JitFlags.NeedsExactly` and
`JitTheorems.StopsOnlyWhenItMust` that no more flags are kept and no block is left earlier than it must.

Hypotheses of these theorems, all stated in the contracts: the words that the compiler reads at a
physical address are those the interpreter fetches at the corresponding virtual address (`Mapped`); the
one-page read cache translates correctly (`Coherent`); physical code pages have one virtual address
(`TruePage`).  The cycle table and the code are parameters.

## What the proofs found

* The liveness pass follows N, Z, V and C only.  X is lost whenever a later instruction of the block
  overwrites those four but keeps X (ADD followed by MOVEQ).  `JitFlags.XExact` says exactly when;
  `JitCounterexamples.XIsLost` is a concrete case.
* A final BRA marks all flags dead, although they are visible at its target.  `JitBra.BraExact` says
  exactly when a block without CMP gets them right anyway; CMP ignores its flag-needed bit, which
  rescues the blocks of `JitBra.CmpBeforeBra`.  `JitCounterexamples.BraLosesFlags` is a concrete case.
* Fast handlers and compiled blocks clear CCR bits 7 to 5, group decoders keep some of them
  (`FastHandlers.FastHandlersAgree`).  Runs that start with them clear never set them.
* An infinity saved by FMOVEM comes back as a NaN, because it is written with the integer bit set and
  read as infinity only when the mantissa is zero.  Subnormal numbers come back as other numbers.
  `FpuFormat.SurvivesExactly` gives the exact condition.
* An update of a disk label whose swap area and partition offset exceed the disk wraps around;
  `DiskLabel.AdjacentExactly` gives the exact condition.
* ROL and ROR clear X, and V of a left shift compares the first with the last sign only.  The model
  follows the code in both.

## Model

| member | source | states |
|---|---|---|
| `JitTheorems.JitRefinesInterpreter` | Em68030/Core/JitCompiler.cpp:30-803 | for every code, start state, read cache and exit: executing a compiled block equals interpreting the reported number of instructions (registers, PC, memory, cycles); X agrees when its last executed setter kept its flags; N, Z, V, C agree when the block completes without a final BRA |
| `JitTheorems.BailoutResumes` | Em68030/Core/JitCompiler.cpp:685-796 | a block left before its end stops at a load, store or RTS, and after the interpreter runs that one instruction registers, memory, PC and N, Z, V, C equal interpretation throughout, and X under the same condition |
| `JitSchedule.MixedRunIsInterpreterRun` | Em68030/Core/MC68030.cpp:645-741 | safety over every run: any sequence of interpreted instructions and dispatched faithful blocks is an interpreter run of the counted instructions and cycles, up to N, Z, V, C just before an instruction that overwrites them, and it gets stuck only where the interpreter does |
| `JitSchedule.EventRefines` | Em68030/Core/MC68030.cpp:709-741 | the same for one turn of the loop, including the turn in which a block executes nothing and the interpreter takes over |
| `JitSchedule.RelatedExactly` | Em68030/Core/MC68030.cpp:709-741 | wherever the next instruction does not overwrite the flags, the two machines are in the very same state |
| `JitSchedule.StaticallyFaithful` | Em68030/Core/JitCompiler.cpp:1200-1233 | a check on the block alone (flags kept before a BRA, X setters kept at every possible exit) makes every dispatch of it faithful |
| `JitSchedule.CompiledFaithful` | Em68030/Core/JitCompiler.cpp:1120-1726 | a block compiled from the code that the interpreter sees stands for exactly those instructions |
| `JitFlags.DeadFlagsPreserveMeaning` | Em68030/Core/JitCompiler.cpp:1200-1233 | leaving out dead flags changes neither registers, next PC (hence the outcome of a final Bcc) nor the instruction and cycle counts, for every compiled block and start state; N, Z, V, C agree on completion without BRA |
| `JitFlags.LiveSim` | Em68030/Core/JitCompiler.cpp:1200-1233 | two versions of a block that keep at least the live flags run in lockstep: flags agree wherever the liveness pass calls them live |
| `JitFlags.XExact` | Em68030/Core/JitCompiler.cpp:1228-1232 | X comes out right whatever it was on entry if and only if the last executed X setter kept its flags (or there was none); otherwise it is the X on entry |
| `JitFlags.XSim` | Em68030/Core/JitCompiler.cpp:30-803 | at every exit X is the X of the last executed setter that kept its flags, provided a lost setter makes all earlier ones lost |
| `JitFlags.CompiledConsistent` | Em68030/Core/JitCompiler.cpp:1200-1233 | in a compiled block, once the last X setter loses its flags so do all earlier ones |
| `JitFlags.ApplyFlags` | Em68030/Core/JitCompiler.cpp:30-680 | no register result depends on the CCR, and each operation treats each flag as its class says: overwrite, keep, or change Z alone |
| `JitFlags.KillerAhead` | Em68030/Core/JitCompiler.cpp:1228-1232 | flags are dead before any instruction that is followed by an overwriting one in the same block |
| `JitFlags.SameCounts` | Em68030/Core/JitCompiler.cpp:685-803 | how many operations run depends on registers and memory only, not on flags |
| `JitBra.BraExact` | Em68030/Core/JitCompiler.cpp:1207-1212 | a block without CMP that runs to a final BRA leaves the CCR as it was entered, so its N, Z, V, C are right for every entry CCR if and only if nothing in it writes flags |
| `JitBra.CmpBeforeBra` | Em68030/Core/JitCompiler.cpp:83-89 | CMP writes its flags even where they are dead: when it is the last flag writer, N, Z, V, C are right even before a BRA |
| `JitBra.FullSettles` | Em68030/Core/JitCompiler.cpp:30-803 | two runs of an all-flags block from states that differ in flags agree on every flag that was written on the way |
| `JitBra.BraDead` | Em68030/Core/JitCompiler.cpp:1207-1212 | in a block ending in BRA no instruction is asked to keep its flags |
| `JitCounterexamples.XIsLost` | Em68030/Core/JitCompiler.cpp:1228-1232 | a concrete block (ADD.L D0,D1 and MOVEQ) whose addition carries and which leaves X clear |
| `JitCounterexamples.BraLosesFlags` | Em68030/Core/JitCompiler.cpp:1207-1212 | a concrete block (MOVEQ #0 and BRA) that leaves Z clear |
| `JitDecode.RegisterRefines` | Em68030/Core/JitCompiler.cpp:1254-1647 | for every register opcode and extension word, the built operation acts as one interpreter step: registers, five flags, PC |
| `JitDecode.LeaIndexAddress` | Em68030/Core/JitCompiler.cpp:342-360 | base plus packed index computes, modulo 2^32, the brief-format result of the interpreter |
| `JitDecode.IndexFlagsUnpack` | Em68030/Core/JitCompiler.cpp:1601-1615 | packing index kind, scale and width into the auxiliary byte loses nothing |
| `JitDecode.BranchRefines` | Em68030/Core/JitCompiler.cpp:1542-1581 | both branch widths: stored target and fall-through are where the interpreter goes |
| `JitDecode.TargetAgrees` | Em68030/Core/JitCompiler.cpp:1171-1186 | the target stored in the operation is the one the scan compared with the block start |
| `JitDecode.LoadRefines` | Em68030/Core/JitCompiler.cpp:685-766 | loads through (An), (An)+ and d16(An): same address, value, post-increment and flags as the interpreter |
| `JitDecode.StoreStep` | Em68030/Core/InstructionDecoder.cpp:981-1004 | what the interpreter does at a store that a block left to it |
| `JitDecode.RtsRefines` | Em68030/Core/JitCompiler.cpp:776-796 | RTS is interpreted by popping the return address |
| `JitDecode.ArithStep` | Em68030/Core/InstructionDecoder.cpp:2093-2190 | ADD and SUB between data registers obey one formula for all sizes, whether the table holds the fast or the group handler |
| `JitDecode.MulFlags` | Em68030/Core/InstructionDecoder.cpp:1983-2010 | a 16 by 16 bit product never sets V, so the fast flag computation is complete |
| `JitShape.CompiledWellFormed` | Em68030/Core/JitCompiler.cpp:1130-1726 | every compiled block has 1 to 64 operations, branches and RTS only last, each instrPC at the sum of the lengths before it, targets above the start, the fall-through at the end, prefix cycle sums, and RegisterOnly exactly when nothing touches memory |
| `JitShape.ScanShape` | Em68030/Core/JitCompiler.cpp:1130-1193 | the scan ends at branches and RTS, and includes only forward branches |
| `JitShape.ScanEncodes` | Em68030/Core/JitCompiler.cpp:1130-1193 | the scanned instructions are those the interpreter fetches at the corresponding addresses |
| `JitShape.BuiltBlock` | Em68030/Core/JitCompiler.cpp:1235-1726 | operation i is built from instruction i at its address with the flag need that liveness gives, and cycle sums are prefix sums |
| `JitTheorems.ExitAccounting` | Em68030/Core/JitCompiler.cpp:313-326 | on every return path the cycles are the sum over the counted instructions, and an early exit names the address of the first instruction not counted |
| `JitTheorems.RegisterOnlyCompletes` | Em68030/Core/JitCompiler.cpp:1707-1723 | a block without memory operations always runs to completion |
| `JitTheorems.StopsAtMemory` | Em68030/Core/JitCompiler.cpp:685-796 | an early exit is at a load, store or RTS, and nextPC is that operation's own address |
| `JitTheorems.MemoryStepAgrees` | Em68030/Core/JitCompiler.cpp:736-741 | one interpreted load, store or RTS brings states that differ in flags back together |
| `JitRefine.FullSim` | Em68030/Core/JitCompiler.cpp:30-803 | the block that keeps all flags is the interpreter: same state and cycle sum after the executed instructions, from any position in the block |
| `JitRefine.CachedRead` | Em68030/Core/JitCompiler.cpp:688-695 | a hit in a correct one-page read cache returns the long word that the interpreter reads, without crossing the page |
| `FastHandlers.FastHandlersAgree` | Em68030/Core/InstructionDecoder.cpp:51-143 | for every opcode, the specialised handler in the table and the group decoder give the same result up to CCR bits 7 to 5, and the same state when those are clear |
| `FastHandlers.UnusedBitsDiffer` | Em68030/Core/InstructionDecoder.cpp:3157-3168 | MOVEQ with those bits set: the two handlers differ |
| `InterpreterLaws.StepClears` | Em68030/Core/InstructionDecoder.cpp:146-153 | no modelled instruction sets CCR bits 7 to 5 |
| `InterpreterLaws.ConditionsCompare` | Em68030/Core/MC68030.cpp:1089-1112 | after comparing a with b, T always holds, HI, CC and EQ order the operands as unsigned numbers, GT and GE as signed ones, VS is exactly signed overflow and MI the sign of the wrapped difference, at every size |
| `InterpreterLaws.ConditionsPair` | Em68030/Core/MC68030.cpp:1089-1112 | each odd condition code is the negation of the even one before it |
| `InstructionLaws.BlockMeans` | Em68030/Core/JitCompiler.cpp:37-680 | an independent description of every register operation: which registers the opcode names, the exact result (sums, products, sign extension, exchanges, shifts) and the exact N, Z, V, C and X; held by the block, with the flags when it keeps them |
| `InstructionLaws.StepMeans` | Em68030/Core/InstructionDecoder.cpp:981-2373 | the interpreter meets the same description, for every opcode the compiler accepts and every state |
| `InstructionLaws.ExecuteMeans` | Em68030/Core/JitCompiler.cpp:30-803 | so does executing a block of one such instruction |
| `LogicLaws.LogicNBits` | Em68030/Core/JitCompiler.cpp:91-131 | bit by bit and at every size, AND, OR and EOR are conjunction, disjunction and difference |
| `LogicLaws.BlockCombines` | Em68030/Core/JitCompiler.cpp:91-131 | the register that AND, OR or EOR leaves: each low bit combined, each higher bit kept, all other registers kept, flags of the result |
| `LogicLaws.StepCombines` | Em68030/Core/InstructionDecoder.cpp:1660-2090 | the same of the interpreter step |
| `LogicLaws.ExecuteCombines` | Em68030/Core/JitCompiler.cpp:472-560 | the same of executing a block |
| `LogicLaws.MergeBits` | Em68030/Core/JitCompiler.cpp:424-450 | a byte or word result replaces exactly the low bits of the register |
| `JitAssemble.AcceptedExactly` | Em68030/Core/JitCompiler.cpp:867-1114 | an assembler for the compilable instructions, independent of the classifier: an opcode is classified as a kind if and only if the assembler produces it for that kind, and refused if and only if it produces it for none |
| `JitAssemble.FieldsReadBack` | Em68030/Core/JitCompiler.cpp:1267-1700 | registers, counts, immediates and conditions are read from where the assembler puts them |
| `JitAssemble.CompilesExactly` | Em68030/Core/JitCompiler.cpp:1138-1198 | compilation fails if and only if the first instruction is unreadable, outside the assembler's range, a full-format LEA or a branch that does not go forward |
| `JitAssemble.ScanIsMaximal` | Em68030/Core/JitCompiler.cpp:1130-1193 | the scan stops only when the block is full, at a branch or RTS, or before an instruction that cannot join |
| `JitAssemble.BlocksAreMaximal` | Em68030/Core/JitCompiler.cpp:1120-1726 | the same of every compiled block and the code behind it |
| `JitFlags.NeedsExactly` | Em68030/Core/JitCompiler.cpp:1200-1233 | an instruction keeps its flags if and only if it writes some, none after it in the block overwrites them, and the block does not end in BRA |
| `JitTheorems.StopsOnlyWhenItMust` | Em68030/Core/JitCompiler.cpp:685-796 | a block is left early only at a store, or at a load or RTS that misses the read cache |
| `JitRefine.HitExactly` | Em68030/Core/JitCompiler.cpp:688-690 | the read cache hits if and only if it is valid and all four bytes lie on its page |
| `JitExecute.CompiledBlock.Execute` | Em68030/Core/JitCompiler.cpp:30-803 | the operation loop on the processor object ends in the registers, CCR, next PC, count and cycles of the specified execution, on all five return paths |
| `JitExecute.LoadLong` | Em68030/Core/JitCompiler.cpp:685-766 | a hit writes the loaded register, post-increment and flags; a miss changes nothing |
| `JitExecute.Compute` | Em68030/Core/JitCompiler.cpp:65-640 | sized arithmetic, logic, compare and shifts: result in place, flags only when needed (CMP always) |
| `JitExecute.Shift` | Em68030/Core/JitCompiler.cpp:205-231 | the immediate shifts run the shift loops of the arithmetic unit |
| `JitExecute.Address` | Em68030/Core/JitCompiler.cpp:145-360 | address arithmetic, exchanges and LEA leave the CCR alone |
| `JitExecute.Move` | Em68030/Core/JitCompiler.cpp:37-420 | register moves, extensions, multiplication and BTST |
| `JitCompileLoops.TryCompile` | Em68030/Core/JitCompiler.cpp:1120-1726 | the three phases together produce the specified block, or none when the first instruction cannot be compiled |
| `JitCompileLoops.ScanBlock` | Em68030/Core/JitCompiler.cpp:1130-1198 | the forward scan loop finds the specified basic block and its byte length |
| `JitCompileLoops.EliminateDeadFlags` | Em68030/Core/JitCompiler.cpp:1200-1233 | the backward loop computes the liveness of every instruction |
| `JitCompileLoops.SumCycles` | Em68030/Core/JitCompiler.cpp:1241-1250 | the loop builds the prefix cycle sums |
| `JitCompileLoops.Construct` | Em68030/Core/JitCompiler.cpp:1252-1705 | the loop builds the operations and ends at the fall-through PC |
| `JitCompileLoops.OnlyRegisters` | Em68030/Core/JitCompiler.cpp:1707-1723 | true exactly when no operation touches memory |
| `JitDriver.ExecuteNextJit` | Em68030/Core/MC68030.cpp:709-741 | dispatch: new state, cycle and instruction counters, the tick divider one less than the instructions, the bailout count, and the blacklisting at the 64th bailout |
| `JitDriver.CountBailout` | Em68030/Core/MC68030.cpp:722-727 | the bailout counter steps by one and the block is removed and marked from the threshold on |
| `JitDriver.JitSamplePC` | Em68030/Core/MC68030.cpp:746-762 | which cache operations a sample performs: none, a count, a count and a block, or a count and a mark; blocks in the cache stay genuine compilations |
| `JitDriver.FoundIsCompiled` | Em68030/Core/MC68030.cpp:746-762 | whatever a lookup finds is the compiled form of the code at that address |
| `JitDriver.ExecuteNextFastJit` | Em68030/Core/MC68030.cpp:645-704 | one turn of the loop performs exactly one event, with a genuine block if it dispatches, and advances all counters by it; the PC is sampled exactly on every tickInterval-th instruction, a block is dispatched exactly when the cache then holds one, and the cache history grows by that sample and the bailout only |
| `JitDriver.RunFastJit` | Em68030/Core/MC68030.cpp:645-704 | any number of turns: the processor is where its events lead, and, if the dispatched blocks were faithful, where interpretation alone would be, in the counted instructions and cycles |
| `JitCache.LookupIsLatest` | Em68030/Core/JitCompiler.cpp:809-841 | for every history: a lookup finds exactly the block added last for that address, if it was since neither removed, displaced by the same index, nor invalidated |
| `JitCache.IndicesCollide` | Em68030/Core/JitCompiler.h:134-138 | two instruction addresses share a slot if and only if they are a multiple of 16 KB apart, and a counter if and only if of 128 KB |
| `JitCache.RemoveAndMark` | Em68030/Core/JitCompiler.cpp:826-861 | after removal and marking the address is unfindable and uncompilable, and no other lookup changes |
| `JitCache.FoundUnderItsKey` | Em68030/Core/JitCompiler.cpp:809-841 | with blocks added under their own address, a found block was added for the address looked up |
| `JitCache.AddThenLookup` | Em68030/Core/JitCompiler.cpp:818-824 | adding makes the block visible, evicts the colliding address and disturbs no other index |
| `JitCache.SlotsOwned` | Em68030/Core/JitCompiler.cpp:818-841 | every non-empty slot points to an owned block |
| `JitCache.MarkedSince` | Em68030/Core/JitCompiler.cpp:834-861 | an index is uncompilable exactly when it was marked after the last invalidation |
| `JitCache.Cache.TryGetBlock` | Em68030/Core/JitCompiler.cpp:809-816 | the array lookup agrees with the history |
| `JitCache.Cache.AddBlock` | Em68030/Core/JitCompiler.cpp:818-824 | slot, owned list and count follow the history |
| `JitCache.Cache.RemoveBlock` | Em68030/Core/JitCompiler.cpp:826-832 | the slot is cleared only for that very address; ownership stays |
| `JitCache.Cache.InvalidateAll` | Em68030/Core/JitCompiler.cpp:834-841 | slots, marks and owned blocks are dropped, execution counts stay |
| `JitCache.Cache.IncrementAndGetCount` | Em68030/Core/JitCompiler.cpp:843-849 | the count is the number of samples ever, saturated at 255 |
| `JitCache.Cache.MarkUncompilable` | Em68030/Core/JitCompiler.cpp:857-861 | the mark is recorded for the index |
| `Alu.ShiftLeftLoop` | Em68030/Core/Alu.cpp:210-256 | for every count and size the loop multiplies modulo 2^w; C and X are the last bit out; V compares the first sign with the last |
| `Alu.ArithShiftRightLoop` | Em68030/Core/Alu.cpp:259-305 | for every count the loop is floor division of the signed value; C and X the last bit out |
| `Alu.LogicalShiftRightLoop` | Em68030/Core/Alu.cpp:308-351 | for every count the loop is floor division of the unsigned value; C and X the last bit out |
| `Alu.RotateLeftLoop` | Em68030/Core/Alu.cpp:354-373 | the loop rotates the w-bit word; C is the bit rotated round last, X is cleared as in the code |
| `Alu.RotateRightLoop` | Em68030/Core/Alu.cpp:376-395 | likewise to the right |
| `Alu.RotateLeftXLoop` | Em68030/Core/Alu.cpp:403-432 | the loop rotates the (w+1)-bit word that X and the value form together |
| `Alu.RotateRightXLoop` | Em68030/Core/Alu.cpp:435-466 | likewise to the right |
| `RotateLaws.RolMoves` | Em68030/Core/Alu.cpp:354-373 | ROL by k moves the top k bits to the bottom and the rest up; C is the last bit out at the top; N and Z of the result, V and X clear |
| `RotateLaws.RorMoves` | Em68030/Core/Alu.cpp:376-395 | ROR by k moves the bottom k bits to the top; C is the last bit out at the bottom |
| `RotateLaws.RoxlMoves` | Em68030/Core/Alu.cpp:403-432 | ROXL by k does so to the (w+1)-bit word of X and operand |
| `RotateLaws.RoxrMoves` | Em68030/Core/Alu.cpp:435-466 | ROXR likewise to the right |
| `RotateLaws.RoPeriodic` | Em68030/Core/Alu.cpp:354-395 | larger counts are reduced modulo w, C included |
| `RotateLaws.ShiftLeftMoves` | Em68030/Core/Alu.cpp:210-256 | a left shift drops the top k bits; C and X are the last one dropped |
| `RotateLaws.ShiftRightMoves` | Em68030/Core/Alu.cpp:308-351 | a logical right shift drops the bottom k bits |
| `RotateLaws.ArithShiftMoves` | Em68030/Core/Alu.cpp:259-305 | an arithmetic right shift does so to the signed value |
| `RotateLaws.RorUndoesRol` | Em68030/Core/Alu.cpp:354-395 | ROL then ROR by the same count is the identity, for every count and size |
| `RotateLaws.RoxrUndoesRoxl` | Em68030/Core/Alu.cpp:403-466 | ROXR with the X left by ROXL restores value and X, for every count and size |
| `RotateLaws.RoxPeriodic` | Em68030/Core/Alu.cpp:403-466 | counts equal modulo w+1 give equal value and X |
| `RotateLaws.RotlClosed` | Em68030/Core/Alu.cpp:354-373 | a rotation moves the top count bits to the bottom |
| `MultiLimb.AddChainSum` | Em68030/Core/Alu.cpp:25-68 | ADDX over n limbs of any size is addition modulo 2^(8 size n) with carry in and out through X, for every n |
| `MultiLimb.SubChainDifference` | Em68030/Core/Alu.cpp:74-117 | SUBX over n limbs is subtraction with borrow through X |
| `MultiLimb.SubUndoesAdd` | Em68030/Core/Alu.cpp:25-117 | the subtract chain takes back the add chain and leaves the same X |
| `MultiLimb.AddChainOverflow` | Em68030/Core/Alu.cpp:55-68 | the final V says exactly that the signed sum of the whole numbers does not fit |
| `MultiLimb.SubChainOverflow` | Em68030/Core/Alu.cpp:104-117 | the final V says exactly that the signed difference does not fit |
| `MultiLimb.AddChainZeroNegative` | Em68030/Core/InstructionDecoder.cpp:2110-2131 | final Z iff Z was set at the start and every limb is zero; N is the sign of the whole result |
| `MultiLimb.SubChainZeroNegative` | Em68030/Core/InstructionDecoder.cpp:1817-1838 | likewise for subtraction |
| `Bcd.AddChainSum` | Em68030/Core/Alu.cpp:472-487 | ABCD over n bytes of valid digits is decimal addition modulo 10^(2n) with carry through X; final Z iff Z was set and all bytes are zero |
| `Bcd.SubChainDifference` | Em68030/Core/Alu.cpp:489-504 | SBCD over n bytes is decimal subtraction with borrow; final Z likewise |
| `Bcd.SubUndoesAdd` | Em68030/Core/Alu.cpp:472-504 | the SBCD chain takes back the ABCD chain byte for byte and leaves the same X |
| `AddressingLaws.PopsUndoPushes` | Em68030/Core/AddressingModes.cpp:62-77 | values of any sizes pushed through -(An) come back through (An)+ in reverse order, truncated to size; An returns, and memory changes only below it, as long as the items fit the address space; bytes take two places on A7 |
| `AddressingLaws.ModifyResolvesOnce` | Em68030/Core/AddressingModes.cpp:224-282 | a read-modify-write pair writes the address it read, leaves all other memory alone, and moves An and PC as one read does |
| `AddressingLaws.ReadsTheSame` | Em68030/Core/AddressingModes.cpp:224-252 | reading for modification reads what a plain read does |
| `AddressingLaws.WritingBackChangesNothing` | Em68030/Core/AddressingModes.cpp:224-282 | writing back what was read changes no memory and no data register; an address register changes exactly for a word that was not sign-extended |
| `AddressingLaws.ResolvingTwiceDiffers` | Em68030/Core/AddressingModes.cpp:224-282 | resolving again for the write would move An a second time |
| `AddressingLaws.ExtensionConsumed` | Em68030/Core/AddressingModes.cpp:115-182 | an indexed operand moves the PC over exactly the extension words its first word announces, and changes nothing else |
| `AddressingLaws.BriefIsFull` | Em68030/Core/AddressingModes.cpp:115-182 | the brief format resolves to the address of the full format with a word displacement of the same value |
| `AddressingLaws.SuppressedIndexIsNeither` | Em68030/Core/AddressingModes.cpp:150-175 | with the index suppressed, pre- and post-indexed memory indirection are one |
| `IndexedLaws.PreIndexedIndirects` | Em68030/Core/AddressingModes.cpp:155-164 | a pre-indexed address is the outer displacement plus the long stored at the address that the same word without indirection resolves to |
| `IndexedLaws.PostIndexedAddsIndex` | Em68030/Core/AddressingModes.cpp:165-174 | a post-indexed address is the one with the index suppressed plus the index value |
| `IndexedLaws.TheFormsDiffer` | Em68030/Core/AddressingModes.cpp:150-174 | a concrete operand on which the two forms are different addresses |
| `IndexedLaws.PlainAddress` | Em68030/Core/AddressingModes.cpp:135-154 | without indirection: base, displacement and index, each unless suppressed |
| `IndexedLaws.PreAddress` | Em68030/Core/AddressingModes.cpp:155-164 | the pre-indexed address in terms of the words of the instruction |
| `IndexedLaws.PostAddress` | Em68030/Core/AddressingModes.cpp:165-174 | the post-indexed address likewise |
| `IndexedLaws.IndexMeans` | Em68030/Core/AddressingModes.cpp:115-133 | which register an index word names, how much of it counts, with which sign and scale |
| `IndexedLaws.DisplacementMeans` | Em68030/Core/AddressingModes.cpp:142-144 | a displacement is nothing, a signed word or a long of the instruction stream |
| `IndexedLaws.PcIsBase` | Em68030/Core/AddressingModes.cpp:98-103 | d16(PC) is d16(An) with the address of the extension word in An |
| `IndexedLaws.PcIndexIsBase` | Em68030/Core/AddressingModes.cpp:105-109 | PC-relative indexing likewise, in every format |
| `IndexedLaws.ShortIsLong` | Em68030/Core/AddressingModes.cpp:89-96 | an absolute short address is the sign-extended long one |
| `ModeLaws.DecodeExactly` | Em68030/Core/AddressingModes.cpp:28-53 | mode and register fields decode by the table of modes, and exactly mode 7 with register 5 to 7 is invalid |
| `ModeLaws.PostIncMeans` | Em68030/Core/AddressingModes.cpp:62-69 | (An)+ is the old An; An rises by the operand size, A7 by 2 for bytes, and nothing else changes |
| `ModeLaws.PreDecMeans` | Em68030/Core/AddressingModes.cpp:71-77 | -(An) is the new An, which falls by the operand size, A7 by 2 for bytes |
| `ModeLaws.DisplacedMeans` | Em68030/Core/AddressingModes.cpp:79-102 | (d16,An) and (d16,PC) are at a signed word from An and from the address of that word |
| `ModeLaws.AbsoluteMeans` | Em68030/Core/AddressingModes.cpp:88-95 | a short absolute address is sign-extended, a long one has its high word first |
| `ModeLaws.ImmediateIsPostInc` | Em68030/Core/AddressingModes.cpp:203-209 | an immediate word or long is what (An)+ reads from the code at the PC; an immediate byte is the second byte of its word |
| `ModeLaws.RegisterOperands` | Em68030/Core/AddressingModes.cpp:184-201 | reading a register takes its low bytes; writing replaces those of Dn only, but all of An, a word with its sign |
| `AddressingMethods.ResolveAddress` | Em68030/Core/AddressingModes.cpp:55-113 | the in-place resolver: address, register and PC changes of every mode |
| `AddressingMethods.ResolveIndexed` | Em68030/Core/AddressingModes.cpp:115-182 | brief and full extension words, with base and index suppression and both memory-indirect forms |
| `AddressingMethods.ReadValue` | Em68030/Core/AddressingModes.cpp:184-222 | operand reads of every mode and size |
| `AddressingMethods.ReadValueForModify` | Em68030/Core/AddressingModes.cpp:224-252 | the resolved address is remembered for the write |
| `AddressingMethods.WriteValueFromModify` | Em68030/Core/AddressingModes.cpp:254-282 | the write goes to the remembered address or register |
| `AddressingMethods.WriteValue` | Em68030/Core/AddressingModes.cpp:284-321 | operand writes; a word written to an address register is sign-extended |
| `ConditionSplit.SplitOutsideNesting` | Em68030/Core/ConditionEvaluator.h:270-289 | the scanning loop computes the parts of any text, balanced or not |
| `ConditionSplit.SplitLaws` | Em68030/Core/ConditionEvaluator.h:270-289 | for every text: joining the parts gives the text back, and no part splits again |
| `ConditionSplit.SplitJoin` | Em68030/Core/ConditionEvaluator.h:270-289 | splitting undoes joining for parts that are unsplittable, closed and do not end in the operator |
| `ConditionSplit.SplitConcat` | Em68030/Core/ConditionEvaluator.h:270-289 | the parts of a concatenation, when no operator straddles the seam |
| `ConditionEvaluator.ConditionHolds` | Em68030/Core/ConditionEvaluator.h:295-319 | the loops with early exit decide: some alternative has all its leaves true; the empty condition holds; the recursion terminates on length |
| `ConditionEvaluator.AllHold` | Em68030/Core/ConditionEvaluator.h:304-315 | all leaves of one alternative |
| `ConditionEvaluator.LeafHolds` | Em68030/Core/ConditionEvaluator.h:322-346 | trimming, the matched-parentheses test and recursion into the group |
| `ConditionEvaluator.GroupMatched` | Em68030/Core/ConditionEvaluator.h:330-343 | the clause is one group iff no proper prefix closes all parentheses |
| `ConditionLiterals.BracketsProtect` | Em68030/Core/ConditionEvaluator.h:270-289 | an operator between brackets of any of the three kinds does not split; one directly after them does |
| `ConditionPrinter.PrintThenEvaluate` | Em68030/Core/ConditionEvaluator.h:295-346 | for every and/or/parenthesis tree over good atoms with any blanks, evaluating the printed text gives the truth value of the tree, && binding tighter, whatever the atoms mean |
| `ConditionValues.ParseNumber` | Em68030/Core/ConditionEvaluator.h:42-64 | decimal, 0x and $ numbers: value modulo 2^32 and end position; failure when no digit follows |
| `ConditionValues.PrintedNumberPrefix` | Em68030/Core/ConditionEvaluator.h:42-64 | every printed 32-bit number is read back, whatever ends the token |
| `ConditionLiterals.NumberMeans` | Em68030/Core/ConditionEvaluator.h:42-64 | every run of digits of either case after 0x, 0X, $ or nothing has its positional value, modulo 2^32, and all ones beyond 64 bits; the number ends where the digits end |
| `ConditionLiterals.RegisterExactly` | Em68030/Core/ConditionEvaluator.h:26-39 | a text is a register, with the value of that register, iff it is one of the listed spellings |
| `ConditionValues.MatchesSet` | Em68030/Core/ConditionEvaluator.h:208-241 | the IN loop over the list text |
| `ConditionValues.PrintedSetMembership` | Em68030/Core/ConditionEvaluator.h:208-241 | for every printed list of registers and numbers, IN holds exactly for the listed values |
| `ConditionLiterals.BadElementAccepts` | Em68030/Core/ConditionEvaluator.h:222-239 | a list with an element that is neither register nor number accepts every value, whatever precedes it |
| `FpuFormat.SurvivesExactly` | Em68030/Core/Fpu.cpp:161-191 | writing and reading the extended format gives a double back if and only if it is a zero, a normal number or the quiet NaN that reading yields; infinities and other NaNs come back as that NaN |
| `FpuFormat.NormalMagnitude` | Em68030/Core/Fpu.cpp:184-190 | the double arithmetic of the conversion is exact for every normal number |
| `FpuFormat.SubnormalLost` | Em68030/Core/Fpu.cpp:262-271 | no subnormal number survives: it is written with the exponent of a normal one |
| `FpuFormat.SmallestIsLost` | Em68030/Core/Fpu.cpp:262-271 | a concrete subnormal number, 2^-1074, comes back as 2^-1023 |
| `FpuMemory.ReadWritten` | Em68030/Core/Fpu.cpp:241-279 | the three words written at any address are read back as the same extended number |
| `FpuImage.WritesImage` | Em68030/Core/Fpu.cpp:241-279 | the twelve bytes of a saved register: sign and exponent, two zero bytes, and the 64-bit significand with its leading bit, all big-endian |
| `FpuImage.ReadsImage` | Em68030/Core/Fpu.cpp:161-191 | any memory that holds the image of a normal number or a zero is read as that number, whatever the padding |
| `FpuImage.AccessesAreBigEndian` | Em68030/Core/Memory.cpp:213-238 | reads and writes of every size put the most significant byte first |
| `FpuImage.FmovemImage` | Em68030/Core/FpuInstructionDecoder.cpp:259-284 | after a save to -(An) the j-th lowest selected register lies at An + 12 j, and An has moved down twelve bytes for each |
| `FpuImage.SaveUpImage` | Em68030/Core/FpuInstructionDecoder.cpp:286-300 | after a save upwards the registers lie in list order from the start address |
| `FpuImage.ControlImage` | Em68030/Core/FpuInstructionDecoder.cpp:183-192 | of the selected control registers FPCR lies lowest, then FPSR, then FPIAR |
| `FpuImage.FrameImage` | Em68030/Core/FpuInstructionDecoder.cpp:592-617 | the FSAVE frame: the header long and fourteen zero longs |
| `FpuMemory.RestoreUndoesSaveDown` | Em68030/Core/FpuInstructionDecoder.cpp:204-285 | any list of registers saved downwards and restored upwards in the opposite order comes back as the format allows, others untouched, and the address returns |
| `FpuMemory.SaveDownFrame` | Em68030/Core/FpuInstructionDecoder.cpp:269-284 | the save changes only the twelve bytes per register below the start |
| `FpuMemory.RestoreUndoesSaveUp` | Em68030/Core/FpuInstructionDecoder.cpp:286-300 | upward saves and restores in the same order likewise |
| `FpuLaws.FmovemRoundTrip` | Em68030/Core/FpuInstructionDecoder.cpp:204-338 | for every mask, static or dynamic: save through -(An), lose all registers, restore through (An)+ with the mask reversed gives exactly the selected registers (unchanged iff all survive the format) and An, changing memory only below it |
| `FpuLaws.FmovemInPlace` | Em68030/Core/FpuInstructionDecoder.cpp:286-338 | through (An) the same list in the same mode restores what it saved, in all four list modes, and An stays |
| `FpuLaws.OppositeOf` | Em68030/Core/FpuInstructionDecoder.cpp:216-231 | every mask has a bit-reversed partner |
| `FpuMove.SaveList` | Em68030/Core/FpuInstructionDecoder.cpp:259-338 | FMOVEM to memory in all list modes and addressing modes; an invalid mode changes nothing |
| `FpuMove.RestoreList` | Em68030/Core/FpuInstructionDecoder.cpp:204-257 | FMOVEM from memory likewise |
| `FpuMove.SaveLoopDown` | Em68030/Core/FpuInstructionDecoder.cpp:269-284 | the loop over the mask bits, descending |
| `FpuMove.RestoreLoop` | Em68030/Core/FpuInstructionDecoder.cpp:220-231 | the loop over the mask bits on restore |
| `FpuLaws.ControlRoundTrip` | Em68030/Core/FpuInstructionDecoder.cpp:134-202 | any selection of FPCR, FPSR and FPIAR comes back through the stack, and An with it |
| `FpuMove.SaveControlPreDec` | Em68030/Core/FpuInstructionDecoder.cpp:183-192 | FPIAR is written first, FPCR last |
| `FpuMove.LoadControlPostInc` | Em68030/Core/FpuInstructionDecoder.cpp:145-152 | FPCR is read first, FPIAR last |
| `FpuLaws.FSaveRoundTrip` | Em68030/Core/FpuInstructionDecoder.cpp:592-655 | the frame that FSAVE -(An) leaves makes FRESTORE (An)+ keep the registers and return An exactly |
| `FpuMove.FSavePreDec` | Em68030/Core/FpuInstructionDecoder.cpp:592-617 | the 60-byte frame: header and zeros, built by the loop |
| `FpuMove.FRestorePostInc` | Em68030/Core/FpuInstructionDecoder.cpp:623-655 | a null frame resets the FPU and takes 4 bytes; any other is skipped by its size with all registers kept |
| `DiskLabel.UpdateOfCreate` | tools/mkdisklabel.c:59-152 | updating a created label is creating it anew, byte for byte, for all sizes |
| `DiskLabel.LastUpdateWins` | tools/mkdisklabel.c:121-152 | of two updates of any sector only the last one counts |
| `DiskLabel.UpdateKeepsTheRest` | tools/mkdisklabel.c:121-152 | an update changes only the named fields and keeps the offset of partition a |
| `DiskLabel.AdjacentExactly` | tools/mkdisklabel.c:121-152 | partitions a and b are adjacent and end at the disk's end if and only if swap plus the offset of a fits the disk |
| `DiskLabel.AdjacencyCanFail` | tools/mkdisklabel.c:121-152 | a concrete label whose update is not laid out that way |
| `DiskLabel.UpdateFields` | tools/mkdisklabel.c:121-152 | the values an update leaves in the partition table and geometry |
| `DiskLabel.CreateFields` | tools/mkdisklabel.c:59-114 | a fresh label carries its magic number and starts partition a at sector 0 |
| `DiskLabel.CreateLabel` | tools/mkdisklabel.c:59-114 | the in-place construction in the caller's buffer |
| `DiskLabel.UpdateLabel` | tools/mkdisklabel.c:121-152 | the in-place update |
| `DiskLabel.LabelSector` | tools/mkdisklabel.c:195-209 | an update is refused, leaving the sector alone, unless the magic number is there |
| `DiskLabel.PutBe32` | tools/mkdisklabel.c:33-39 | a big-endian field in place |
| `DiskLabel.GetBe32` | tools/mkdisklabel.c:41-47 | a big-endian field read |
| `DiskLabel.SetString` | tools/mkdisklabel.c:49-54 | at most maxlen characters, no terminator |

## Left out

- Instructions that no block can contain (exceptions, system control, MOVEM, division, bit fields, ABCD and ADDX on memory): `Interpreter.Step` has no result there, so runs are compared up to such an instruction.
- Memory faults, memory-mapped devices, interrupts, tick handlers and self-modifying code: memory is a total byte map and code is fixed; a turn of the main loop is modelled from its lookup on.
- Translation of addresses: the pages for fetching and reading are given anew for every turn of the main loop; their refill is not part of this model.
- A block compiled at one virtual address and reached through another one with the same physical address: excluded by the hypothesis that every physical code address has one virtual address.
- The interpreter is modelled on values, not in place; `AddressingMethods` has its operand accesses in place.
- JitOp types and instruction kinds: one datatype with the operand size as an argument stands for both of the source's enumerations; byte, word and long variants share one clause.
- JitTheorems.JitRefinesInterpreter: does not claim N, Z, V, C after an early exit at a load or store, because the block has not computed them; `JitTheorems.BailoutResumes` states what holds one instruction later.
- JitBra.CmpBeforeBra: gives a sufficient condition only, because after a CMP a dead flag can still be right by coincidence of values.
- JitSchedule.MixedRunIsInterpreterRun: assumes that dispatched blocks lose neither X nor the flags before a BRA, which is false of some compiled blocks (see above); `JitSchedule.StaticallyFaithful` gives a check on the block.
- Return-address shadow stack, register snapshots, breakpoint bookkeeping and diagnostics: debugger state.
- ConditionEvaluator.ConditionHolds: takes the meaning of a single comparison as a parameter; its comparison operators, memory operands and address expressions are left out, numbers, registers and IN lists are in `ConditionValues`.
- ConditionValues.ParseNumber: does not model the blanks, signs and repeated 0x prefixes that strtoull would accept before the digits.
- FPIAR at the start of an FPU instruction is overwritten by the instruction's own address; `FpuMove` models the transfers after that.
- FPU arithmetic, rounding modes, packed decimal and the other memory formats: floating-point library behaviour.
- FpuMove.SaveControlPreDec: models the -(An) form only; the other addressing modes write the same registers upwards.
- FpuMove.LoadControlPostInc: models the (An)+ form only.
- FpuMove.FSavePreDec: models the -(An) form only, FpuMove.FRestorePostInc the (An)+ form.
- Memory-to-memory ADDX, SUBX, ABCD and SBCD and 32-bit multiplication and division: the chains are stated on the arithmetic unit's operations.
- User interface, SCSI, network, serial and clock devices, MMU, disassembler and configuration files.
