# Simulation and verification tooling, modelled in Dafny

The repository holds RISC-V and CAN-FD verification environments. This project
models the parts of it that are algorithms and proves what they are for:

- **JTAG daisy chain.** The server plays the whole command buffer to one TAP after
  the other. `DaisyChain.dfy` proves that nobody can tell this from clocking all
  TAPs together, for any cut of the commands into buffers and for nested chains.
  `HardwareChain.dfy` says exactly which TAPs behave as in a hardware chain, in replies
  and states, and in replies alone.
- **Program generator.** `InstrStream.dfy` and `BranchPass.dfy` splice atomic streams
  into a program and assign and prune branch labels in one pass; `JumpChain.dfy` is
  the permuted jump stream; `BranchRuns.dfy` is about the runs of the finished program,
  jump streams included; `StackFrame.dfy` runs stack push and pop sequences mixed
  with filler; `CallGraph.dfy` is the call graph. Every random draw is an arbitrary
  value of its range, and the claims are about every generated program and every run.
- **Parallel kernels.** `SharedTranspose.dfy`, over the barrier of
  `SenseBarrier.dfy`, is a state machine run by an arbitrary scheduler.
  `CyclicMatmul.dfy`, `HalvesMatmul.dfy` and `VectorAdd.dfy` are loops over arrays; they
  record their accesses, and by `Interleaving.dfy` the results hold for any interleaving.
- **Trace pipeline.** `SpikeLog.dfy` reads a simulator log, `TraceCompare.dfy`
  compares two traces.
- **Text tools.** `KFile.dfy` expands conditional file lists, `HazardFixup.dfy` puts
  NOPs behind delayed writes, `GdbLexer.dfy` and `GdbParser.dfy` read gdb's values.

`Arithmetic.dfy`, `Collections.dfy`, `Digits.dfy`, `Matrix.dfy`, `Scan.dfy` and
`Wrappers.dfy` are shared vocabulary. `dafny verify dfyconfig.toml` checks everything.

Code that changes state is modelled by classes and methods with loops; each is
proved against a function of its inputs or its old state, and the lemmas state what
that function means. Random draws, shuffles and the classification of log lines are parameters.

## Where the code is not what it seems

The model follows the code.

- The daisy chain's comment says that TDO is read before a scan; the read is sent
  after it. For TAPs that follow IEEE Std 1149.1 this makes no difference
  (`HardwareChain.CompliantChainIsHardware`), and only those are safe next to every other
  (`HardwareChain.FrontIff`, `HardwareChain.BackIff`). If only replies count and not the
  states TAPs are left in, a TAP may also look at TDI off the rising edge as long as no
  reply depends on it (`HardwareChain.BackAnswersIff`). Whether the order shows in a
  given chain of other TAPs depends on its links (`HardwareChain.ClockAgreesIff`): it may
  not, or it may (`HardwareChain.PassThroughIsNotHardware`).
- The retry loop of `insert_instr_stream` stops at an atomic instruction instead of a
  non-atomic one; the fallback behind it repairs the result
  (`InstrStream.Stream.InsertInstrStream`).
- A branch can be captured by the digit labels of a jump stream spliced in front of its
  target (`BranchPass.OperandResolves`, `BranchRuns.JumpStreamCapturesBranch`). It then
  enters an atomic block in the middle, but the run still ends
  (`BranchRuns.EveryRunLeaves`).
- The push sequence leaves the first word of the frame unused, so the size check admits
  frames that are one word too small (`StackFrame.StoresStayInsideIff`). The configuration
  hides this: only the return address is saved, and a frame has at least two words
  (riscv_instr_gen_config.py:474). The word left unused also keeps nested calls apart
  (`StackFrame.NestedSlotsDiffer`, `StackFrame.CallTreeIsTransparent`). The check of the pop sequence counts four bytes per
  register on 64 bits, too.
- The block-cyclic kernel covers columns twice if the size is an odd multiple of eight
  greater than eight (`CyclicMatmul.CoverIsOneIff`).
- The first vector addition leaves a gap if the remainder is not smaller than a block
  (`VectorAdd.AllCoveredIff`); it needs at least one element per core, as it divides by
  the block size. The second never reaches the remainder (`VectorAdd.BlocksCoverIff`)
  and runs over the end of the vectors with fewer elements than cores
  (`VectorAdd.AllCores3`, `VectorAdd.CopiesCountIff`).
- The comparator stops when trace 2 ends and does not see further changes of trace 1
  (`TraceCompare.PassedIff`), nor entries there that would make it exit
  (`TraceCompare.CompareTraceCsv`).
- The NOP that the hazard fixup inserts holds a colon, and is read back as an instruction
  with an operand (`HazardFixup.NopIsInstruction`); so there is a file that a second run
  changes again (`HazardFixup.SecondRunMayChange`).
- The conditional expander treats every directive other than `ifdef`, `else` and `endif`
  of section 22.6 of IEEE Std 1800-2017 as a plain line.

## Model

| member | source | states |
|---|---|---|
| DaisyChain.Redirect | riscv-cpu/riscv-tests-master/debug/rbb_daisychain.py:41-46 | The TDI bit of a scan command becomes the TDO bit of the TAP before; TMS and TCK stay, and the result is again a scan command. |
| DaisyChain.Tap.Execute | riscv-cpu/riscv-tests-master/debug/rbb_daisychain.py:15-26 | One reply per read command; replies and new state are those of the TAP machine. |
| DaisyChain.Rewrite | riscv-cpu/riscv-tests-master/debug/rbb_daisychain.py:39-56 | The buffer for one TAP: `values.pop(0)` never meets an empty list, and the list is empty at the assertion. |
| DaisyChain.Chain.Execute | riscv-cpu/riscv-tests-master/debug/rbb_daisychain.py:36-61 | For any number of TAPs and any buffer, replies and final states of all TAPs are those of clocking the TAPs together, command by command. |
| DaisyChain.ScanRipples | riscv-cpu/riscv-tests-master/debug/rbb_daisychain.py:41-53 | A byte 0x30 + 4*tck + 2*tms + tdi sets the pins of the first TAP; TAP i + 1 is given the same TCK and TMS, and as TDI whether TAP i shows '1' (0x31) after the scan. |
| DaisyChain.OthersReachEveryTap | riscv-cpu/riscv-tests-master/debug/rbb_daisychain.py:49-56 | Any other byte but 0x52 reaches every TAP unchanged and is not answered. |
| DaisyChain.ReadAsksTheLast | riscv-cpu/riscv-tests-master/debug/rbb_daisychain.py:48-57 | 0x52 moves no TAP and is answered by the last one alone. |
| DaisyChain.ProbeCountsScans | riscv-cpu/riscv-tests-master/debug/rbb_daisychain.py:48-57 | A TAP that is not the last replies exactly once per scan, so the next one has a value for each of its scans. |
| DaisyChain.SubstTwice | riscv-cpu/riscv-tests-master/debug/rbb_daisychain.py:41-46 | The TDI bits that a TAP is given depend on its predecessor only, not on what the buffer held before. |
| DaisyChain.PipePeelsOneCommand | riscv-cpu/riscv-tests-master/debug/rbb_daisychain.py:38-57 | The reordering step: executing the first command on all TAPs and then the rest gives what the TAP-by-TAP order gives. |
| DaisyChain.BatchEqualsLockStep | riscv-cpu/riscv-tests-master/debug/rbb_daisychain.py:36-61 | TAP by TAP equals command by command, for all machines, states and buffers. |
| DaisyChain.LockStepSplits | riscv-cpu/riscv-tests-master/debug/rbb_daisychain.py:91-105 | A buffer split anywhere gives the concatenated replies and the same final states. |
| DaisyChain.EveryReadIsAnswered | riscv-cpu/riscv-tests-master/debug/rbb_daisychain.py:18-25 | A chain answers every read of the buffer with exactly one byte, as the protocol asks of a single TAP. |
| DaisyChain.Serve | riscv-cpu/riscv-tests-master/debug/rbb_daisychain.py:86-107 | However the received data is cut into buffers, a client sees one long lock-step run, up to the first empty buffer. |
| DaisyChain.StreamIsCut | riscv-cpu/riscv-tests-master/debug/rbb_daisychain.py:91-105 | What counts are the buffers before the first empty one, all of them. |
| DaisyChain.ChainIsATap | riscv-cpu/riscv-tests-master/debug/rbb_daisychain.py:28-61 | Seen through its replies, a chain is itself a TAP machine. |
| DaisyChain.NestedClock | riscv-cpu/riscv-tests-master/debug/rbb_daisychain.py:36-61 | One command to a chain of chains moves every TAP as in the flattened chain. |
| DaisyChain.NestingFlattens | riscv-cpu/riscv-tests-master/debug/rbb_daisychain.py:28-61 | A chain whose members are chains cannot be told from the flattened chain, for any buffer. |
| HardwareChain.ClockEqualsHardware | riscv-cpu/riscv-tests-master/debug/rbb_daisychain.py:48-57 | One command: if every TAP behind another samples TDI on the rising edge of TCK only and every TAP in front of another keeps TDO steady there (clauses 4.4 and 4.5 of IEEE Std 1149.1), reading TDO after the scan is as good as before. |
| HardwareChain.HardwareRipples | riscv-cpu/riscv-tests-master/debug/rbb_daisychain.py:51-53 | What it is compared with: in hardware TAP i + 1 is given what TAP i shows before the scan. |
| HardwareChain.LevelIsTck | riscv-cpu/riscv-tests-master/debug/rbb_daisychain.py:41 | The clock level is the TCK bit of the last scan, an edge rises if that bit is set at a low level, and other commands leave the level. |
| HardwareChain.CompliantChainIsHardware | riscv-cpu/riscv-tests-master/debug/rbb_daisychain.py:36-61 | For such TAPs, started with equal clock levels, the server equals, for any buffer, a chain in which all TAPs see the clock edge at once. |
| HardwareChain.ClockAgreesIff | riscv-cpu/riscv-tests-master/debug/rbb_daisychain.py:51-57 | For any TAPs at all: a scan comes out as in hardware exactly if at every link the bit before and the bit after do the same to the next TAP. |
| HardwareChain.FrontIff | riscv-cpu/riscv-tests-master/debug/rbb_daisychain.py:51-57 | A TAP can stand in front of every TAP that samples on the rising edge, with no buffer showing a difference to hardware, exactly if its own TDO is steady on that edge; the same condition is exact if only replies count. |
| HardwareChain.BackIff | riscv-cpu/riscv-tests-master/debug/rbb_daisychain.py:41-57 | A TAP can stand behind every TAP with a steady TDO, with the same replies and the same states, exactly if it ignores TDI on all scans but the rising edge. |
| HardwareChain.VisibleChainReplies | riscv-cpu/riscv-tests-master/debug/rbb_daisychain.py:36-61 | A chain is answered as by hardware, for any buffer, if no reply of a TAP behind another ever depends on TDI off the rising edge and every TAP in front of another is steady on it. |
| HardwareChain.BackAnswersIff | riscv-cpu/riscv-tests-master/debug/rbb_daisychain.py:41-57 | For one TAP behind every steady TAP that condition is exact: if some later buffer could tell the bit, there is a steady predecessor and a buffer for which the server answers otherwise than hardware. |
| HardwareChain.PassThroughIsNotHardware | riscv-cpu/riscv-tests-master/debug/rbb_daisychain.py:51-53 | Two TAPs that pass TDI straight on, for which the results differ: the code reads TDO after the scan, although its comment says before. |
| InstrStream.Stream.InsertInstr | riscv-cpu/riscv-dv-master/pygen/pygen_src/riscv_instr_stream.py:53-66 | With an explicit index: accepted exactly within the bounds, and then the list is the old one with the instruction at that place. |
| InstrStream.Stream.InsertInstrStream | riscv-cpu/riscv-dv-master/pygen/pygen_src/riscv_instr_stream.py:71-113 | At a random place: succeeds exactly if a non-atomic instruction exists, and splices in front of one: the last of eleven drawn if none of them is atomic, otherwise the first there is, because the retry loop stops at atomic ones. |
| InstrStream.Stream.MixInstrStream | riscv-cpu/riscv-dv-master/pygen/pygen_src/riscv_instr_stream.py:119-135 | For all draws every index is legal, the result interleaves both lists in their own orders, and each new instruction stands where the sorted draws put it. |
| InstrStream.Stream.TrimTail | riscv-cpu/riscv-dv-master/pygen/pygen_src/riscv_instr_stream.py:208-213 | Only branches are cut off, and no branch is left at the end. |
| InstrStream.SpliceKeepsBlock | riscv-cpu/riscv-dv-master/pygen/pygen_src/riscv_instr_stream.py:78-93 | A splice in front of a non-atomic instruction moves an atomic block as a whole or not at all. |
| InstrStream.AtomicBlocksStayWhole | riscv-cpu/riscv-dv-master/pygen/pygen_src/riscv_instr_sequence.py:138-139 | After any series of such splices every atomic stream is still contiguous and in order. |
| InstrStream.SplicesKeepOriginal | riscv-cpu/riscv-dv-master/pygen/pygen_src/riscv_instr_sequence.py:138-139 | The original instructions are all there, in order. |
| InstrStream.SeriesKeepsLast | riscv-cpu/riscv-dv-master/pygen/pygen_src/riscv_instr_sequence.py:138-139 | The last instruction stays last. |
| BranchPass.SplicesAreApart | riscv-cpu/riscv-dv-master/pygen/pygen_src/riscv_instr_sequence.py:138-139 | The spliced list has no instruction object twice, so the passes update each one once. |
| BranchPass.SpliceDirected | riscv-cpu/riscv-dv-master/pygen/pygen_src/riscv_instr_sequence.py:138-139 | Every directed stream finds a place, whatever is drawn. |
| BranchPass.SplicedJumps | riscv-cpu/riscv-dv-master/pygen/pygen_src/riscv_instr_sequence.py:138-139 | After all splices every jump of the program still belongs to a whole jump stream, with its labels and operands in place. |
| BranchPass.NumberLabels | riscv-cpu/riscv-dv-master/pygen/pygen_src/riscv_instr_sequence.py:142-166 | The loop with its draws, on the objects: numbers, labels, illegal and hint flags end as drawn, and behind every compressed instruction that was made illegal stands another compressed one. |
| BranchPass.DrawsAreSafe | riscv-cpu/riscv-dv-master/pygen/pygen_src/riscv_instr_sequence.py:146-163 | The draws change nothing but the illegal and hint flags: illegal only at a positive rate, for labelled non-atomic instructions that are not inserted as illegal, compressed ones only in front of another; hints only at a positive rate and for labelled compressed instructions that are not illegal. |
| BranchPass.DrawsAreTaken | riscv-cpu/riscv-dv-master/pygen/pygen_src/riscv_instr_sequence.py:146-163 | Wherever these conditions allow it the draw decides: illegal, or a hint, exactly if the roll is not zero. |
| BranchPass.LabelsCount | riscv-cpu/riscv-dv-master/pygen/pygen_src/riscv_instr_sequence.py:143-166 | The index counts the labelled non-atomic instructions before, from zero on. |
| BranchPass.LabelsAreNumbers | riscv-cpu/riscv-dv-master/pygen/pygen_src/riscv_instr_sequence.py:143-166 | Those carry their index as label; atomic and unlabelled ones keep what they had, and no other field changes but the operand. |
| BranchPass.InjectionKeepsShape | riscv-cpu/riscv-dv-master/pygen/pygen_src/riscv_instr_sequence.py:146-163 | Whatever is drawn, no branch is assigned yet, the last instruction is a labelled non-branch, and jumps stand in whole streams. |
| BranchPass.AssignBranches | riscv-cpu/riscv-dv-master/pygen/pygen_src/riscv_instr_sequence.py:168-200 | One pass assigns all targets and prunes labels: the fields of every instruction object end as the specification of the pass says. |
| BranchPass.BranchesStepAhead | riscv-cpu/riscv-dv-master/pygen/pygen_src/riscv_instr_sequence.py:174-192 | Exactly the legal branches without an operand get one: the n-th of them goes the n-th step of labels ahead, or to the last label. |
| BranchPass.StepsComeInRounds | riscv-cpu/riscv-dv-master/pygen/pygen_src/riscv_instr_sequence.py:168-187 | The steps are the thirty draws, then each time the last thirty reshuffled. |
| BranchPass.PostProcessInstr | riscv-cpu/riscv-dv-master/pygen/pygen_src/riscv_instr_sequence.py:131-201 | The whole method, on the instruction objects: splicing, numbering with its draws, thirty step draws, and the combined pass; the program before the pass is as the theorems about runs ask, and no compressed instruction was made illegal in front of an uncompressed one. |
| BranchPass.StepsInRange | riscv-cpu/riscv-dv-master/pygen/pygen_src/riscv_instr_sequence.py:168-187 | Through any number of reshuffles a branch step stays between 1 and the configured maximum. |
| BranchPass.TargetIsLater | riscv-cpu/riscv-dv-master/pygen/pygen_src/riscv_instr_sequence.py:179-183 | Every assigned target exists and stands on a strictly later non-atomic instruction. |
| BranchPass.LabelSurvivesIffTargeted | riscv-cpu/riscv-dv-master/pygen/pygen_src/riscv_instr_sequence.py:194-199 | A numeric label survives the pruning of the same pass exactly if some earlier branch names it. |
| BranchPass.OperandResolves | riscv-cpu/riscv-dv-master/pygen/pygen_src/riscv_instr_sequence.py:191-199 | The assembler resolves the operand to that instruction exactly if no spliced stream in between carries the same digit label. |
| BranchRuns.StreamIsLeft | riscv-cpu/riscv-dv-master/pygen/pygen_src/riscv_directed_instr_lib.py:107-155 | Entered at any of its lines, by a branch or from above, a jump stream is left behind its last line after just the jumps that come later in its order. |
| BranchRuns.KeyRises | riscv-cpu/riscv-dv-master/pygen/pygen_src/riscv_instr_sequence.py:168-200 | Along every step of a run, forward or backward, a number rises: the position outside jump streams, the place in the order inside. |
| BranchRuns.EveryRunLeaves | riscv-cpu/riscv-dv-master/pygen/pygen_src/riscv_instr_sequence.py:131-201 | Whatever the branches do and whatever label captures them, jump streams included: every operand resolves, and the run is at the end after at most as many steps as there are instructions. |
| BranchRuns.GeneratedProgramsEnd | riscv-cpu/riscv-dv-master/pygen/pygen_src/riscv_instr_sequence.py:131-201 | So does every run of every program that `post_process_instr` leaves behind: nothing but what that method ensures is asked. |
| BranchRuns.RunGoesForward | riscv-cpu/riscv-dv-master/pygen/pygen_src/riscv_instr_sequence.py:116-130 | Without jump streams a run is at position n or further after n steps: it never goes back. |
| BranchRuns.BranchLandsInsideIff | riscv-cpu/riscv-dv-master/pygen/pygen_src/riscv_instr_sequence.py:191-199 | A taken branch lands strictly later and not behind its target; inside an atomic block exactly if a stray label of that number stands in between, and on its target otherwise. |
| BranchRuns.JumpStreamCapturesBranch | riscv-cpu/riscv-dv-master/pygen/pygen_src/riscv_directed_instr_lib.py:107-155 | Every jump stream, of any length and order, that stands between a branch and its target and has a label of that number captures the branch. |
| BranchRuns.CapturingProgram | riscv-cpu/riscv-dv-master/pygen/pygen_src/riscv_directed_instr_lib.py:107-155 | It does happen: any generated jump stream between a branch and the last instruction captures the branch, whatever step was drawn. |
| JumpChain.PostRandomize | riscv-cpu/riscv-dv-master/pygen/pygen_src/riscv_directed_instr_lib.py:107-155 | For every shuffle, labels and `f`/`b` operands form a chain in the drawn order; the first line has no digit label. |
| JumpChain.LeadsToOneLine | riscv-cpu/riscv-dv-master/pygen/pygen_src/riscv_directed_instr_lib.py:142-149 | The reading of numeric operands as nearest labels is deterministic. |
| JumpChain.JumpLeads | riscv-cpu/riscv-dv-master/pygen/pygen_src/riscv_directed_instr_lib.py:142-149 | Each operand resolves to the next jump of the order, wherever the stream stands. |
| JumpChain.ChainFollowsOrder | riscv-cpu/riscv-dv-master/pygen/pygen_src/riscv_directed_instr_lib.py:107-155 | From the first instruction control takes the jumps in the drawn order and reaches the last instruction after n + 1 jumps. |
| JumpChain.EachJumpOnce | riscv-cpu/riscv-dv-master/pygen/pygen_src/riscv_directed_instr_lib.py:107-155 | Every jump is visited exactly once on the way. |
| JumpChain.ChainInContext | riscv-cpu/riscv-dv-master/pygen/pygen_src/riscv_directed_instr_lib.py:150-155 | All of this holds wherever the block is put, inside any surrounding program, whatever digit labels it has. |
| StackFrame.GenPushStackInstr | riscv-cpu/riscv-dv-master/pygen/pygen_src/riscv_directed_instr_lib.py:233-293 | Rejected exactly if n words do not fit; otherwise an atomic interleaving of filler and push sequence, for all draws. |
| StackFrame.GenPopStackInstr | riscv-cpu/riscv-dv-master/pygen/pygen_src/riscv_directed_instr_lib.py:306-350 | Rejected exactly if n times four bytes do not fit, on 64 bits too; otherwise an atomic unlabelled interleaving. |
| StackFrame.WordsAre | riscv-cpu/riscv-dv-master/pygen/pygen_src/riscv_directed_instr_lib.py:245-273 | The i-th register has its slot 4*(i+1) bytes above the lowered stack pointer on 32 bits, 8*(i+1) on 64, in both sequences; they begin and end with the addition that moves the pointer. |
| StackFrame.PushRuns | riscv-cpu/riscv-dv-master/pygen/pygen_src/riscv_directed_instr_lib.py:252-289 | Executed between any harmless filler, the push sequence lowers the stack pointer and saves every register in its slot. |
| StackFrame.PopRuns | riscv-cpu/riscv-dv-master/pygen/pygen_src/riscv_directed_instr_lib.py:324-347 | Executed between any harmless filler, the pop sequence restores all of them and the stack pointer, modulo the register width. |
| StackFrame.CallIsTransparent | riscv-cpu/riscv-dv-master/pygen/pygen_src/riscv_directed_instr_lib.py:245-347 | Enter, any body that keeps the frame from where it is entered, exit: the stack pointer and all saved registers are as before, and enter writes nothing but the slots. |
| StackFrame.NestedSlotsDiffer | riscv-cpu/riscv-dv-master/pygen/pygen_src/riscv_directed_instr_lib.py:245-273 | The slots of a program are at least a word apart from those of every program called below it, at any distance, also for frames that are one word too small. |
| StackFrame.NestedCallKeepsFrame | riscv-cpu/riscv-dv-master/pygen/pygen_src/riscv_directed_instr_lib.py:245-347 | A call made anywhere below a frame keeps that frame, if what it runs does. |
| StackFrame.CallTreeIsTransparent | riscv-cpu/riscv-dv-master/pygen/pygen_src/riscv_directed_instr_lib.py:245-347 | For every tree of calls, of any depth and with any work in between that keeps off the stack: each call restores the stack pointer and all its saved registers, and touches of the stack only as many bytes as the frames along its deepest path take. |
| StackFrame.SlotsDiffer | riscv-cpu/riscv-dv-master/pygen/pygen_src/riscv_directed_instr_lib.py:260-273 | No two registers share a slot, also when addresses wrap. |
| StackFrame.StoresStayInsideIff | riscv-cpu/riscv-dv-master/pygen/pygen_src/riscv_directed_instr_lib.py:238-241 | All stores stay inside the frame exactly if n + 1 words fit, or n is zero. |
| StackFrame.AcceptedFrameTooSmall | riscv-cpu/riscv-dv-master/pygen/pygen_src/riscv_directed_instr_lib.py:238-241 | A frame that the size check admits and whose store lands on the caller's word; the configured minimum of two words keeps the generator from drawing it. |
| CallGraph.LevelsAreHit | riscv-cpu/riscv-dv-master/pygen/pygen_src/riscv_callstack_gen.py:69-78 | Legal levels leave no gap: every level up to the last has a program. |
| CallGraph.MakePool | riscv-cpu/riscv-dv-master/pygen/experimental/riscv_callstack_gen.py:155-165 | The pool is the shuffled next level, with a copy of a chosen one of its programs exactly if an extra call was drawn. |
| CallGraph.HandOut | riscv-cpu/riscv-dv-master/pygen/experimental/riscv_callstack_gen.py:179-185 | The j-th program of a level is given the j-th portion, in length and place, of the pool; together they are given all of it and in order, and no other program changes. |
| CallGraph.PostRandomize | riscv-cpu/riscv-dv-master/pygen/experimental/riscv_callstack_gen.py:132-185 | For all levels, draws, shuffles and portions: the calls of every level are the drawn pool of the next one in the drawn portions, and ids and levels are recorded. |
| CallGraph.LevelCalls | riscv-cpu/riscv-dv-master/pygen/experimental/riscv_callstack_gen.py:140-185 | What a level calls is exactly the next level. |
| CallGraph.CallsGoOneDown | riscv-cpu/riscv-dv-master/pygen/experimental/riscv_callstack_gen.py:138-139 | A program calls only programs one level below. |
| CallGraph.EveryoneIsCalled | riscv-cpu/riscv-dv-master/pygen/experimental/riscv_callstack_gen.py:169-170 | Every program but the first has a caller. |
| CallGraph.ReachableFromFirst | riscv-cpu/riscv-dv-master/pygen/experimental/riscv_callstack_gen.py:138-185 | Every program is reached from program 0 by as many calls as its level. |
| CallGraph.ChainsDescend | riscv-cpu/riscv-dv-master/pygen/pygen_src/riscv_callstack_gen.py:70 | Along every chain of calls the level rises by one a call, so no chain returns. |
| CallGraph.PrintedAsOftenAsCalled | riscv-cpu/riscv-dv-master/pygen/pygen_src/riscv_callstack_gen.py:142-148 | The recursive print ends, and prints each call chain that cannot be prolonged as often as its calls can be chosen, and nothing else. |
| CallGraph.PrintedAreMaximalChains | riscv-cpu/riscv-dv-master/pygen/pygen_src/riscv_callstack_gen.py:142-148 | In particular exactly the maximal chains are printed. |
| CallGraph.PrintedChainsAreShort | riscv-cpu/riscv-dv-master/pygen/pygen_src/riscv_callstack_gen.py:142-148 | None of them is longer than the number of levels. |
| SenseBarrier.ArriveKeeps | riscv-cpu/riscv-tests-master/benchmarks/common/util.h:66-69 | The invariant of the sense-reversing barrier survives an arrival at any moment. |
| SenseBarrier.MoveKeeps | riscv-cpu/riscv-tests-master/benchmarks/common/util.h:69-77 | It survives every later step: the two stores of the last thread in their order, and the spinning of the others, who may lag one episode. |
| SenseBarrier.PassedMeansArrived | riscv-cpu/riscv-tests-master/benchmarks/common/util.h:60-78 | A thread that has left k barriers knows that every thread has arrived k times. |
| SenseBarrier.SomeoneMoves | riscv-cpu/riscv-tests-master/benchmarks/common/util.h:60-78 | Not all threads can be stuck inside. |
| SharedTranspose.StepKeeps | riscv-cpu/riscv-tests-master/mt/ae_matmul.c:38-108 | The invariant of the kernel survives one step of any core: one access to a shared array or to the barrier. |
| SharedTranspose.TransposeIsComplete | riscv-cpu/riscv-tests-master/mt/ae_matmul.c:38-46 | When any core multiplies, every cell of the transpose holds its element of B. |
| SharedTranspose.WriteKeeps | riscv-cpu/riscv-tests-master/mt/ae_matmul.c:39-42 | A store into the transpose hits a cell that belongs to the storing core alone. |
| SharedTranspose.MacKeeps | riscv-cpu/riscv-tests-master/mt/ae_matmul.c:48-101 | A multiply-add brings one of the four accumulators one inner index further. |
| SharedTranspose.StoreKeeps | riscv-cpu/riscv-tests-master/mt/ae_matmul.c:102-105 | A store of a result hits a row of the storing core, with the whole inner product. |
| SharedTranspose.BarrierKeeps | riscv-cpu/riscv-tests-master/mt/ae_matmul.c:43-106 | Leaving a barrier keeps the invariant, also while other cores still spin in it. |
| SharedTranspose.EveryRunKeepsInv | riscv-cpu/riscv-tests-master/mt/ae_matmul.c:38-108 | The invariant holds after every schedule, for core counts dividing the size, sizes divisible by eight and at most 1024 cells. |
| SharedTranspose.NoUnwrittenRead | riscv-cpu/riscv-tests-master/mt/ae_matmul.c:64-98 | No schedule lets a core read a cell of the transpose before it was written. |
| SharedTranspose.FinishedMeansProduct | riscv-cpu/riscv-tests-master/mt/ae_matmul.c:38-108 | When all cores are done, C is A*B whatever it held, and every core has passed the same number of barriers. |
| SharedTranspose.RowTurnsAre | riscv-cpu/riscv-tests-master/mt/ae_matmul.c:43-106 | That number is one per column plus one per four results of a core. |
| SharedTranspose.EpisodeAdvances | riscv-cpu/riscv-tests-master/mt/ae_matmul.c:43-106 | Each barrier call leads to the next position of the loops, and there is never one too many. |
| SharedTranspose.NoDeadlock | riscv-cpu/riscv-tests-master/mt/ae_matmul.c:38-108 | As long as some core is not done, some step has an effect. |
| SharedTranspose.WorkIsBounded | riscv-cpu/riscv-tests-master/mt/ae_matmul.c:38-108 | Only boundedly many steps of any schedule have an effect. |
| SharedTranspose.FairRunsFinish | riscv-cpu/riscv-tests-master/mt/ae_matmul.c:38-108 | Every infinite schedule that runs each core again and again reaches a state in which all cores are done and C is A*B. |
| CyclicMatmul.Matmul | riscv-cpu/riscv-tests-master/mt/ck_matmul.c:14-60 | One core, any size divisible by eight: every product of its rows is added as often as the column walk covers its column; other rows are untouched. |
| CyclicMatmul.Columns | riscv-cpu/riscv-tests-master/mt/ck_matmul.c:18-59 | The wrapping column loop ends, after as many turns as blocks fit around. |
| CyclicMatmul.Tile | riscv-cpu/riscv-tests-master/mt/ck_matmul.c:23-56 | The unrolled four-by-two body adds the eight products to the eight cells and changes nothing else. |
| CyclicMatmul.TurnIsPlace | riscv-cpu/riscv-tests-master/mt/ck_matmul.c:19 | The counter, stepping by sixteen modulo the size, stands at the place that a walk around a ring reaches. |
| CyclicMatmul.PlaceIsTurn | riscv-cpu/riscv-tests-master/mt/ck_matmul.c:19 | Every place of the ring is visited in exactly one turn. |
| CyclicMatmul.WalkReturns | riscv-cpu/riscv-tests-master/mt/ck_matmul.c:19 | The walk is back at its start after one round and not before. |
| CyclicMatmul.WalkCovers | riscv-cpu/riscv-tests-master/mt/ck_matmul.c:19-22 | How often a column is covered: once if sixteen divides the size, otherwise twice from column eight on. |
| CyclicMatmul.CoverIsOneIff | riscv-cpu/riscv-tests-master/mt/ck_matmul.c:19-22 | Every column is covered once exactly if sixteen divides the size or the size is eight. |
| CyclicMatmul.RowsArePartitioned | riscv-cpu/riscv-tests-master/mt/ck_matmul.c:16-17 | In whatever order the cores run, each row is served once, by the core its strip belongs to. |
| CyclicMatmul.AllCoresGiveProductIff | riscv-cpu/riscv-tests-master/mt/ck_matmul.c:14-60 | All cores, one after the other in any order, add A*B exactly for those sizes, or if all products behind column eight are zero. |
| CyclicMatmul.InterleavedGiveProductIff | riscv-cpu/riscv-tests-master/mt/ck_matmul.c:14-60 | The same for all cores at once: for every interleaving of their accesses each core reads what it reads alone, and the result is A*B under the same condition. |
| HalvesMatmul.InnerUp | riscv-cpu/riscv-tests-master/mt/bh_matmul.c:32-47 | The running offsets stand for k*lda+i and (k+1)*lda+i in every round, and the loop adds its half of the inner index to eight cells. |
| HalvesMatmul.InnerDown | riscv-cpu/riscv-tests-master/mt/bh_matmul.c:73-84 | The descending loop adds the same products as the ascending one would. |
| HalvesMatmul.RowDown | riscv-cpu/riscv-tests-master/mt/bh_matmul.c:64-93 | The columns taken from the right in eights cover a row once, for every access inside the arrays. |
| HalvesMatmul.PartsJoin | riscv-cpu/riscv-tests-master/mt/bh_matmul.c:21-62 | The two halves of the inner index, in either order, make up the whole product. |
| HalvesMatmul.Matmul | riscv-cpu/riscv-tests-master/mt/bh_matmul.c:14-96 | Each core, alone or with others, adds exactly A*B on its rows and changes no other cell. |
| HalvesMatmul.AllCoresGiveProduct | riscv-cpu/riscv-tests-master/mt/bh_matmul.c:14-96 | For every number of cores, one included, one after the other in every order, all of them together add A*B once. |
| HalvesMatmul.InterleavedGiveProduct | riscv-cpu/riscv-tests-master/mt/bh_matmul.c:14-96 | The same for every interleaving of their accesses. |
| VectorAdd.Vvadd0 | riscv-cpu/riscv-tests-master/mt/vvadd0.c:6-13 | One core writes its block and at most one leftover element, with the sums of the old operands, and nothing else, also if the result is one of the operands. |
| VectorAdd.NoRace | riscv-cpu/riscv-tests-master/mt/vvadd0.c:8-13 | No element has two writers. |
| VectorAdd.CoveredIs | riscv-cpu/riscv-tests-master/mt/vvadd0.c:7-13 | Nobody writes the elements between the blocks and the leftovers, and somebody writes all others. |
| VectorAdd.AllCoveredIff | riscv-cpu/riscv-tests-master/mt/vvadd0.c:7-13 | All of the vector is written exactly if the remainder of n by the cores is smaller than a block. |
| VectorAdd.AllCores | riscv-cpu/riscv-tests-master/mt/vvadd0.c:4-14 | All cores, one after the other in any order: covered elements hold the sums of the old operands, the gap keeps its old contents, and there is no gap in that case. |
| VectorAdd.Interleaved0 | riscv-cpu/riscv-tests-master/mt/vvadd0.c:4-14 | The same for every interleaving of their accesses, also if the result is one of the operands. |
| VectorAdd.CopiesCountIff | riscv-cpu/riscv-tests-master/mt/vvadd3.c:9-20 | For every `size_t` count: what the device copies is the count exactly if it is not zero and rounding it up does not wrap, in a rounded-up eighth of the passes. |
| VectorAdd.Duff | riscv-cpu/riscv-tests-master/mt/vvadd3.c:9-21 | For every count, the wrapping counter included: the loop, entered at any label, copies `Copies(count)` sums and stops if the vectors are that long, and otherwise fills them to the end and runs over it. |
| VectorAdd.Vvadd3 | riscv-cpu/riscv-tests-master/mt/vvadd3.c:4-23 | One core: its block if there is an element for every core, otherwise everything and over the end. |
| VectorAdd.AllCores3 | riscv-cpu/riscv-tests-master/mt/vvadd3.c:6-21 | All cores, one after the other in any order, write what lies in whole blocks and leave the rest; with fewer elements than cores the first one runs over the end. |
| VectorAdd.Interleaved3 | riscv-cpu/riscv-tests-master/mt/vvadd3.c:6-21 | The same for every interleaving of their accesses, if there is an element for every core. |
| VectorAdd.BlocksCoverIff | riscv-cpu/riscv-tests-master/mt/vvadd3.c:6-9 | That is all of the vector exactly if the number of cores divides its length. |
| Interleaving.NoInterference | riscv-cpu/riscv-tests-master/mt/vvadd0.c:4-14 | Cores that keep to cells of their own can be interleaved at will: at every point all loads so far found what they find alone, and every cell is as its owner alone would have left it. |
| Interleaving.AllThrough | riscv-cpu/riscv-tests-master/mt/vvadd0.c:4-14 | Once all are through, every cell is as its owner alone leaves it. |
| TraceCompare.CheckUpdateGpr | riscv-cpu/riscv-dv-master/scripts/instr_trace_compare.py:234-251 | The loop with its early exits gives change flag, register map, or program exit, as the next rows describe. |
| TraceCompare.CheckIs | riscv-cpu/riscv-dv-master/scripts/instr_trace_compare.py:234-251 | On writes: the program exits exactly if the first write to an absent register is no number; it is a change exactly if some write gives its register another text than it then holds, or an absent one a number other than zero; each register ends with its last written value, and the others are untouched. |
| TraceCompare.EndsEarly | riscv-cpu/riscv-dv-master/scripts/instr_trace_compare.py:236-243 | An empty update makes the whole entry no change but keeps the writes before it, a malformed one ends the program, and nothing behind either matters. |
| TraceCompare.CompareTraceCsv | riscv-cpu/riscv-dv-master/scripts/instr_trace_compare.py:62-132 | Where the program exits, if it does: at which entry of which trace, as `StopsAt` says without the loop; otherwise the counts depend on the histories of changes only, in the way `Expected` says. |
| TraceCompare.CanonicalNeverStops | riscv-cpu/riscv-dv-master/scripts/instr_trace_compare.py:234-251 | Traces of canonical values never stop the program. |
| TraceCompare.PassedIff | riscv-cpu/riscv-dv-master/scripts/instr_trace_compare.py:118-132 | PASSED exactly if the changes of trace 2 begin those of trace 1 and are either equal to them or non-empty with the last entry of trace 2 a change; matched is then their number. |
| TraceCompare.HistoriesDetermineRegs | riscv-cpu/riscv-dv-master/scripts/instr_trace_compare.py:62-132 | For canonical values, equal histories of changes mean equal register files. |
| TraceCompare.PassedMeansAgree | riscv-cpu/riscv-dv-master/scripts/instr_trace_compare.py:62-132 | If the comparison passes, both register files agree wherever as many changes have happened in both traces. |
| TraceCompare.ChangesIff | riscv-cpu/riscv-dv-master/scripts/instr_trace_compare.py:244-249 | For canonical values an entry is a change exactly if one of its writes gives its register a number that the register does not hold at that point, zero if it was never written; afterwards each written register holds its last value and no other one has changed. |
| TraceCompare.StutterIsInvisible | riscv-cpu/riscv-dv-master/scripts/instr_trace_compare.py:66-72 | An entry that changes nothing can be put anywhere into a trace without changing its history. |
| TraceCompare.StutterKeepsReport | riscv-cpu/riscv-dv-master/scripts/instr_trace_compare.py:62-132 | Put into trace 1 it alters no count of the report. |
| SpikeLog.ReadSpikeTrace | riscv-cpu/riscv-dv-master/scripts/spike_log_to_trace_csv.py:127-189 | The state machine yields the entries of the segmented log, and an entry is not changed any more once it is yielded. |
| SpikeLog.EntryOfLine | riscv-cpu/riscv-dv-master/scripts/spike_log_to_trace_csv.py:140-168 | The instruction in a line has its entry at the position that the instructions before it leave to it. |
| SpikeLog.AsManyAsInstructions | riscv-cpu/riscv-dv-master/scripts/spike_log_to_trace_csv.py:140-165 | There are as many entries as instruction lines up to and including the first ecall. |
| SpikeLog.EntryHoldsItsSegment | riscv-cpu/riscv-dv-master/scripts/spike_log_to_trace_csv.py:159-185 | An entry holds the registers, CSRs and last mode committed before the next instruction and the first trap, and is flagged iff a trap comes before the next instruction. |
| SpikeLog.NothingAfterEcall | riscv-cpu/riscv-dv-master/scripts/spike_log_to_trace_csv.py:149-151 | What follows an ecall is not read. |
| SpikeLog.TrampolineIsSkipped | riscv-cpu/riscv-dv-master/scripts/spike_log_to_trace_csv.py:134-138 | Everything up to the end of the trampoline is skipped, and all of a log without that end. |
| SpikeLog.ProcessSpikeSimLog | riscv-cpu/riscv-dv-master/scripts/spike_log_to_trace_csv.py:192-225 | The written entries are those of the trace that pass the filter, unchanged and in order, and their number is returned. |
| SpikeLog.WrittenIff | riscv-cpu/riscv-dv-master/scripts/spike_log_to_trace_csv.py:213-224 | An entry passes exactly if it has a register write, or its text is "wfi" or "ecall", or the full trace was asked for. |
| SpikeLog.WrittenInOrder | riscv-cpu/riscv-dv-master/scripts/spike_log_to_trace_csv.py:213-225 | Each passing entry is written once, at the place that the number of those before it gives. |
| SpikeLog.EcallIsWrittenLast | riscv-cpu/riscv-dv-master/scripts/spike_log_to_trace_csv.py:149-151 | The ecall that ends the run is the last entry of the file, without register writes. |
| SpikeLog.FilterKeepsCommits | riscv-cpu/riscv-dv-master/scripts/spike_log_to_trace_csv.py:213-224 | The filter drops entries but no register write. |
| KFile.Expand | canfd/canfd/run/xrun_lib/kfile.py:49-89 | The loop with its stack object gives one result per line, those of the stack machine. |
| KFile.AlwaysInherited | canfd/canfd/run/xrun_lib/kfile.py:53-89 | For any text, stray `else` and `endif` included: the stack never empties, an active frame always stands on an active one, and there is one result per line. |
| KFile.RunConcat | canfd/canfd/run/xrun_lib/kfile.py:53-89 | The machine can be stopped and resumed between any two lines. |
| KFile.TextYields | canfd/canfd/run/xrun_lib/kfile.py:53-89 | A well-nested text leaves the stack as it was and keeps its selected lines if the frame is active, none otherwise. |
| KFile.ExpandSelects | canfd/canfd/run/xrun_lib/kfile.py:49-97 | The expansion of a well-nested text keeps exactly the lines of the branches selected by the defines, in order. |
| KFile.StrayIsIgnored | canfd/canfd/run/xrun_lib/kfile.py:68-83 | An `else` or `endif` outside all branches does nothing. |
| KFile.SecondElse | canfd/canfd/run/xrun_lib/kfile.py:68-76 | A second `else` of a branch changes nothing: its lines go with those of the first. |
| KFile.Unclosed | canfd/canfd/run/xrun_lib/kfile.py:57-65 | A branch that is not closed reaches to the end of the file. |
| HazardFixup.FixupFile | riscv-cpu/riscv-dv-master/.github/scripts/code_fixup.py:60-97 | The output is the input with the asked-for NOPs behind each line. |
| HazardFixup.NopsBehind | riscv-cpu/riscv-dv-master/.github/scripts/code_fixup.py:71-97 | The number of NOPs behind a line, as `FixupAdds` states it. |
| HazardFixup.FixupAdds | riscv-cpu/riscv-dv-master/.github/scripts/code_fixup.py:66-97 | Behind a line stand exactly ten NOPs if the next instruction rewrites what it writes with delay, nine if only the one after that does, and none otherwise; so the output is longer by ten and nine for each such line. |
| HazardFixup.DelayedAre | riscv-cpu/riscv-dv-master/.github/scripts/code_fixup.py:78 | Delayed writes are div, divu, rem, remu and lw. |
| HazardFixup.ExactlyTen | riscv-cpu/riscv-dv-master/.github/scripts/code_fixup.py:82-97 | Between a delayed write and its rewrite stand exactly ten instructions of the output, if the rewrite comes first, or second behind a line that gets no NOPs of its own. |
| HazardFixup.NothingIsLost | riscv-cpu/riscv-dv-master/.github/scripts/code_fixup.py:69-97 | Every input line is in the output, in order, and all other lines are NOPs. |
| HazardFixup.ErasingRestores | riscv-cpu/riscv-dv-master/.github/scripts/code_fixup.py:93-97 | Erasing the NOP lines from output and input gives the same file. |
| HazardFixup.HazardsAreApart | riscv-cpu/riscv-dv-master/.github/scripts/code_fixup.py:82-97 | A delayed write and a rewrite of its destination within two instructions end up with at least ten instructions between them. |
| HazardFixup.RewriteIsFarAway | riscv-cpu/riscv-dv-master/.github/scripts/code_fixup.py:82-97 | The same on parsed lines, whatever instruction is used as padding. |
| HazardFixup.SecondPass | riscv-cpu/riscv-dv-master/.github/scripts/code_fixup.py:60-97 | Which lines of the output would get further NOPs: those that take an inserted line for a write. |
| HazardFixup.InstrHasOperands | riscv-cpu/riscv-dv-master/.github/scripts/code_fixup.py:28-35 | A line with a mnemonic has an operand, so the first operand can be taken. |
| HazardFixup.LabelAndComment | riscv-cpu/riscv-dv-master/.github/scripts/code_fixup.py:19-25 | A label up to the first colon and a comment do not change what is read. |
| HazardFixup.InstrIsRead | riscv-cpu/riscv-dv-master/.github/scripts/code_fixup.py:28-35 | A word and operands are read as the word in lower case and the operands; a directive is read as no instruction. |
| HazardFixup.OthersAreNone | riscv-cpu/riscv-dv-master/.github/scripts/code_fixup.py:28-30 | A word alone, or nothing, is no instruction. |
| HazardFixup.NopIsInstruction | riscv-cpu/riscv-dv-master/.github/scripts/code_fixup.py:19-35 | The tool reads its own NOP line as an instruction "a" with the operand "fixup", because labels are stripped at the first colon before comments are. |
| HazardFixup.NopIsNop | riscv-cpu/riscv-dv-master/.github/scripts/code_fixup.py:96 | For the assembler the inserted line is a nop with a comment. |
| HazardFixup.IdempotentIff | riscv-cpu/riscv-dv-master/.github/scripts/code_fixup.py:60-97 | A second run changes nothing exactly if no delayed write to something spelled "fixup" has a NOP among the two instructions behind it. |
| HazardFixup.SecondRunMayChange | riscv-cpu/riscv-dv-master/.github/scripts/code_fixup.py:60-97 | There is such a file: two lines "lw fixup x". |
| HazardFixup.IdempotentOnRegisters | riscv-cpu/riscv-dv-master/.github/scripts/code_fixup.py:60-97 | So it changes nothing for code that writes registers. |
| GdbParser.Parser.ParseTokens | riscv-cpu/riscv-tests-master/debug/testlib.py:683-692 | On the shared token list: result, error and the tokens left over are those of the recursive reading. |
| GdbParser.Parser.ParseDict | riscv-cpu/riscv-tests-master/debug/testlib.py:648-660 | The same for a dictionary, whose keys and values `DictIsRead` describes. |
| GdbParser.Parser.ParseList | riscv-cpu/riscv-tests-master/debug/testlib.py:662-674 | The same for a list, with run-length repeats expanded as `ItemsAreRepeated` states. |
| GdbParser.ValueIsRead | riscv-cpu/riscv-tests-master/debug/testlib.py:676-692 | Whatever follows, the tokens of a well-formed value of any depth are read as that value and nothing more is consumed. |
| GdbParser.ReadValue | riscv-cpu/riscv-tests-master/debug/testlib.py:676-692 | Whatever is accepted was the token list of a well-formed value, and that value is returned. |
| GdbParser.AcceptedIffWellFormed | riscv-cpu/riscv-tests-master/debug/testlib.py:683-699 | The parser accepts exactly the token lists of the grammar, with their meaning. |
| GdbParser.ItemsAreRepeated | riscv-cpu/riscv-tests-master/debug/testlib.py:666-671 | A list has its items run after run: each as often as its count says, and once if the count is zero or missing. |
| GdbParser.RepeatedAlone | riscv-cpu/riscv-tests-master/debug/testlib.py:670 | A lone item repeated n times is a list of n copies, of one for zero. |
| GdbParser.DictIsRead | riscv-cpu/riscv-tests-master/debug/testlib.py:652-656 | A dictionary has each key once, in the order of the first fields with it, under it the value of the last; repeat counts and exceptions as keys are all different. |
| GdbParser.TwoFields | riscv-cpu/riscv-tests-master/debug/testlib.py:652-660 | `{k = v, l = w}` is a dictionary of both, or of `k` with `w` alone if `l` is the same text or number as `k`. |
| GdbParser.MoreChangesNothing | riscv-cpu/riscv-tests-master/debug/testlib.py:648-692 | What stands behind the tokens of a value, or behind the place of an error, does not change the outcome, unless the tokens ran out. |
| GdbParser.IndexErrorIffBrokenOff | riscv-cpu/riscv-tests-master/debug/testlib.py:648-692 | An index error means exactly that the tokens broke off: with some more behind them they are a value. |
| GdbParser.WrongSeparator | riscv-cpu/riscv-tests-master/debug/testlib.py:657-660 | After a field of a dictionary anything but a comma or a closing brace fails the assertion. |
| GdbParser.WrongListSeparator | riscv-cpu/riscv-tests-master/debug/testlib.py:668-674 | So it does after an item of a list. |
| GdbParser.MissingEquals | riscv-cpu/riscv-tests-master/debug/testlib.py:653-654 | A key that no equals sign follows fails the other one. |
| GdbParser.RefusedAtOnce | riscv-cpu/riscv-tests-master/debug/testlib.py:684-692 | A token of one of gdb's messages is raised as it is; a repeat count is an unsupported token. |
| GdbParser.LeftOver | riscv-cpu/riscv-tests-master/debug/testlib.py:697-698 | Tokens behind a value are unexpected input. |
| GdbLexer.Tokenize | riscv-cpu/riscv-tests-master/debug/testlib.py:611-646 | The index loop ends and yields the tokens of the recursive reading, or fails where no expression matches. |
| GdbLexer.ParseRhs | riscv-cpu/riscv-tests-master/debug/testlib.py:694-699 | Lexing, parsing and the check for left-over tokens together. |
| GdbLexer.NextLexeme | riscv-cpu/riscv-tests-master/debug/testlib.py:614-646 | Every match is non-empty and inside the text, so the loop advances. |
| GdbLexer.SpellingIsRead | riscv-cpu/riscv-tests-master/debug/testlib.py:614-644 | Any spelling of a token, floats and nan included, is read back by the first alternative that matches; only words need a delimiter behind them. |
| GdbLexer.WordsAreNames | riscv-cpu/riscv-tests-master/debug/testlib.py:636 | A letter and letters or digits behind it are one word, if a delimiter follows and no message can begin there. |
| GdbLexer.PiecesAreRead | riscv-cpu/riscv-tests-master/debug/testlib.py:611-646 | Any sequence of spelled tokens with any white space is read back if no word follows a word directly. |
| GdbLexer.SrcAlternates | riscv-cpu/riscv-tests-master/debug/testlib.py:648-681 | The texts of the value grammar never have a word directly before a word. |
| GdbLexer.PrintedValueIsRead | riscv-cpu/riscv-tests-master/debug/testlib.py:694-699 | `parse_rhs` of any rendering of a value, with any nesting, repeats, bases, floats, quoting and spacing, returns the value and consumes everything. |
| GdbLexer.MessageIsRaised | riscv-cpu/riscv-tests-master/debug/testlib.py:625-634 | A text that begins, after any white space, with one of gdb's messages raises the exception made of it, unless the text behind it has no tokens. |
| GdbLexer.KnownAreMessages | riscv-cpu/riscv-tests-master/debug/testlib.py:625-634 | The five expressions meet what is asked of messages, so all results hold for them. |
| GdbLexer.NoAccessIsRaised | riscv-cpu/riscv-tests-master/debug/testlib.py:629-630 | For example, "Cannot access memory at address 0x..." alone raises its exception, for any address. |
| GdbLexer.DigitsOf | riscv-cpu/riscv-tests-master/debug/testlib.py:617-619 | Printed digits denote the number, in base ten and sixteen. |
| GdbLexer.SpellFloat | riscv-cpu/riscv-tests-master/debug/testlib.py:618 | Every text that the lexer takes for a float as a whole has a spelling as sign, digits, dot, digits and exponent. |
| GdbLexer.PrintThenParse | riscv-cpu/riscv-tests-master/debug/testlib.py:694-699 | Printing a value and parsing the text gives the value. |

## Left out

- Sockets, subprocesses, files, CSV reading and logging: their data are parameters and results.
- Regular expressions of the log reader and of the expander: lines come already classified, in the order in which the code tries its expressions; register names come as ABI names, and the extra operand columns of the full trace are not modelled.
- gdb's error messages: an exception keeps the text that was matched, not the numbers and names taken out of it; what is proved for any messages with these beginnings is proved for the five expressions.
- Floats: a float token keeps its text; its value, and when two texts have the same value, are not computed.
- Unicode: digits, letters, white space and lower case are the ASCII ones.
- Constraint solvers: their solutions are arbitrary values that meet the constraints; that a solution exists is assumed, as in the code.
- `insert_instr` with index -1, `insert_instr_stream` with replacement, `mix_instr_stream` with `contained` set, and the experimental `post_process_instr`: their index handling is faulty and other rules apply.
- Illegal and hint encodings: which instructions become illegal or hints is modelled, what they look like and their size are not; a run continues behind an illegal instruction, where the trap handler resumes.
- Loop streams (`riscv_loop_instr`): their backward branches come with operands of their own, so generated programs are those without them.
- The aliasing of the shared instruction list in `setup_allowed_instr`: filler is assumed to be no branch where that matters.
- The branch that `riscv_push_stack_instr` could prepend: it is never enabled, because its random range is empty but for zero.
- The pool-filling code of the `pygen_src` call stack generator cannot run: distribution follows the experimental file, levels and printing follow `pygen_src`.
- Overflow of `data_t`, `int` and `size_t` in the kernels, apart from the counter of the copy loop: cells and indices are unbounded integers.
- Weak memory: a step of a kernel is one access in a sequentially consistent order, and the steps of a barrier happen in program order.
- Interleaving.NoInterference: a core is the log of what it does alone; that it does the same again when every load finds the same is what the C code, being deterministic, does.
- SharedTranspose.StepKeeps: cores are values in a state machine, not arrays updated in place, because a step belongs to a scheduler and not to a loop.
- BranchRuns.EveryRunLeaves: calls, returns and traps are steps to the next instruction; what a branch compares is an arbitrary outcome.
- HazardFixup.HazardsAreApart: destinations are compared as the tool compares them, as text with a trailing comma, so aliases of a register are different destinations.
- CallGraph.PostRandomize: programs start without sub-programs, as the constructor leaves them.
- VectorAdd.Vvadd0: needs an element per core, as the C code divides by the block size.
- VectorAdd.Duff: the model stops at the first access behind the vectors, where the behaviour of C is undefined; result and operands are the same array or do not overlap.
- TraceCompare.CompareTraceCsv: the texts of mismatches and their print limit are not modelled, nor is the out-of-order mode, which is commented out in the code; prefixed and signed forms that Python's `int` accepts in base sixteen count as no number.
- The blank lines and the indentation that the expander drops when it writes its file.
- The other matrix and vector kernels: they repeat the patterns of these at fixed sizes, or add to shared rows without synchronisation.
- Report totals, register-name tables, pseudo-instruction conversion, hex and S-record conversion: short table look-ups and sums that would only add easy members.
