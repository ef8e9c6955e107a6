# A verified model of the RV32I multi-hart machine

This project models a small RV32I machine and proves properties of it. The machine has a backpatching assembler, an
instruction interpreter, a two-level privilege and trap unit, a flat memory with one slot for each hart, a
message-passing kernel, and a round-robin preemptive scheduler for up to eight harts.

`dafny verify dfyconfig.toml` checks everything.

## How it is built

The objects of the program are classes with the program's own fields: `ProtectedMemory`, `CSRFile`, `Hart`, `Kernel`,
`HartManager` and `Assembler`. Each method is proved equal to a function on values: `Hart.ExecuteOne` to
`Cpu.Executed`, `Kernel.HandleTrap` to `Kernel.Handled`, one turn of the scheduler's innermost loop to `Runs.Step`,
the scheduler's loops to `Schedule.Turn`, `Round` and `Rounds`, `Assembler.ResolveLabels` to `Assembly.ResolveAll`.
The properties are lemmas about those functions, so they hold of the objects.

| module | what it holds |
|---|---|
| `Options`, `Arithmetic`, `Words`, `Bits`, `Encode`, `Loads`, `Reach` | words as bit vectors, their values and bits, instruction formats, jump distances |
| `Memory`, `Csr`, `Isa`, `Cpu`, `Kernel` | memory, CSRs, instruction meaning, one hart, trap handling |
| `Alu`, `KnownWords`, `Privileged`, `Syscalls` | what instructions, traps and system calls compute, as numbers; words of the standard |
| `Runs`, `Invariants`, `History`, `Frames`, `Blocking`, `Independence` | one step in closed form, and what holds over every run |
| `Boot`, `Schedule`, `Scheduler`, `Latency`, `Timer` | spawning, the scheduling loops as functions, the scheduler object, how long a woken hart and an interrupt wait |
| `Assembly`, `TwoPass`, `Patches`, `Assembler` | the assembler as a function, its equivalence with two passes, its object |
| `Decoding`, `Simulation`, `Compiled`, `Skipping` | assembled statements executed; when the two-pass equivalence holds, read off the statements |
| `EndToEnd`, `SourceHistory` | from source statements to the booted machine, alone and under every schedule |
| `Witnesses` | booted machines on which properties that one might expect fail |

A run is any sequence of choices "this running hart steps, and the timer fires or not". Everything proved of runs
holds whatever the quantum and the timer interval are; `Schedule.RoundsTrack` shows that what the scheduler does is
such a run. The start of a run is any machine with the invariant `Runs.Fine`; `Boot.BootedFine` and
`Boot.SpawnFine` establish it.

The formats and instruction meanings follow sections 2.2 to 2.6 of the RISC-V Unprivileged ISA (version 20191213),
the trap stack section 3.1.6.1 of the Privileged ISA (version 20211203), with the deviations of the program.

## What the code does where its documentation says more

- The documentation promises that slots are isolated. `check` looks at the first byte of an access only, so a store
  that starts in the last three bytes of a slot also writes the slot above. `Witnesses.NeighbourOverwritten` gives a
  booted machine whose first step does so, with `sw sp, 3(sp)`, and `Witnesses.NeighbourCrashes` what becomes of the
  neighbour. `Frames.StepFrame` and `Frames.StraddlingStoreEscapes` say that a step writes above its slot exactly when
  its store straddles the top, and `Frames.AlignedStoreStays` that an aligned store never does.
- The fetch is checked as a load, so a misaligned program counter does not fault. `Witnesses.FetchFaults` has the exact
  condition: a user-mode fetch faults if and only if the program counter is outside the slot.
  `Witnesses.MisalignedExecutes` gives a booted hart that jumps to a misaligned address and goes on from there.
- A blocking RECV goes back to user mode without restoring the interrupt enable. `History.EnableHistory` has the exact
  statement: a live hart has interrupts on if and only if it had them at the start and has never blocked.
  `Witnesses.BlockingLosesEnable` gives the input, `li a7, 6; ecall` on a lone hart.
- `run` does not end when every live hart waits, or with a quantum below one. `Schedule.EndsUnlessStuck` shows that it
  ends if and only if it does not reach such a state. `Witnesses.LonelyHangs` gives the input, the same lone hart: for
  every quantum, and every timer interval and step limit above two.
- A label operand that ends in `__lo` is taken for the second patch of a LA and never resolved, and assembling still
  succeeds. Exactly the names made of another one and `__lo` are, the bare `__lo` is not
  (`TwoPass.LeftAloneMeans`). `TwoPass.SkippedLabelStaysZero` gives an input on which the words are wrong; `TwoPass.FinalisedProgram` says
  what is left for every program. `TwoPass.BackpatchingIsTwoPass` has the exact condition under which the assembler is
  two-pass assembly, and `Skipping.AgreementMeans` reads it off the statements: some ordinary label is undefined, or
  each such operand is defined and belongs to a jump a multiple of 2^19 words away, a branch a multiple of 2^11 words
  away, or a LA of address 0. In a program that `spawnHart` accepts these are a jump to itself, a branch a multiple of
  2048 words away, and never a LA (`Skipping.SafeInSlot`).
- Immediates are cut to twelve bits without a message (`Decoding.DecodeOpImm`, `DecodeLoadWord`, `DecodeStoreWord`), and
  SRLI with an immediate whose bits 5 to 11 are SRAI's funct7, such as 0x400 to 0x41F, assembles to the word of SRAI
  (`Decoding.DecodeSrli`); these lemmas have the exact conditions. `Witnesses.ImmediateLost` and
  `Witnesses.ShiftMisread` give the inputs, `addi` with 4096 and `srli` with 0x400.

## Model

| member | source | states |
|---|---|---|
| Encode.DecodeEncodeR | encode.h:66-71 | every field of an R-type word comes back |
| Encode.DecodeEncodeI | encode.h:74-79 | every field comes back; the immediate if and only if it is in 12-bit range |
| Encode.DecodeEncodeS | encode.h:82-90 | the same for the split store immediate |
| Encode.DecodeEncodeB | encode.h:93-104 | the same for branch offsets: if and only if even and in 13-bit range |
| Encode.DecodeEncodeU | encode.h:107-110 | the upper 20 bits come back |
| Encode.DecodeEncodeJ | encode.h:113-122 | the same for jump offsets: if and only if even and in 21-bit range |
| Encode.EncodeDecodeR | encode.h:128-133 | packing the decoded fields of any word gives back the word |
| Encode.EncodeDecodeI | encode.h:142-145 | packing the decoded fields and immediate of any word gives back the word |
| Encode.EncodeDecodeS | encode.h:147-152 | the same for the store format |
| Encode.EncodeDecodeB | encode.h:154-162 | the same for the branch format |
| Encode.EncodeDecodeU | encode.h:164-167 | the same for the upper-immediate format |
| Encode.EncodeDecodeJ | encode.h:169-177 | the same for the jump format |
| Encode.SplitSound | assembler.h:138-139 | for every 32-bit value the two halves fit LUI and ADDI and add up to the value |
| Words.PlusValue | cpu.h:140 | addition of words is addition of their values modulo 2^32 |
| Words.MinusValue | cpu.h:151 | subtraction of words is subtraction of their values modulo 2^32 |
| Words.WordAddrValue | assembler.h:83 | the k-th instruction address has the value base + 4k modulo 2^32 |
| Words.FromIntValue | kernel.h:150 | the word made of a signed number has that number modulo 2^32 |
| Bits.BitwiseBits | cpu.h:144-147 | bit k of a conjunction, disjunction and exclusive or, from bit k of the operands |
| Bits.BitsDetermine | cpu.h:144-147 | the 32 bits determine the word, so that these laws leave nothing open |
| Bits.ComplementSigned | assembler.h:132 | the complement of a number is -1 less the number |
| Bits.ShiftValues | cpu.h:141-145 | shifts multiply modulo 2^32 and divide by a power of two, the amount counting modulo 32 |
| Bits.ArithmeticShiftValue | cpu.h:152 | the arithmetic shift divides the signed value, rounding down |
| Loads.LoadedValue | cpu.h:187-202 | a load reads the little-endian number at the address, unsigned or as two's complement by its kind |
| Loads.StoredValue | cpu.h:205-217 | after a store the number at the address is the register's value modulo the width |
| Memory.CheckMeans | memory.h:87-107 | the check lets through exactly: for machine mode the array, for a hart its slot, for a fetch only aligned; a fault names the address, the access and the first of the three reasons |
| Memory.UserAccessBounds | memory.h:87-107 | a checked user access stays in the array and ends at most three bytes past the slot |
| Memory.LoadAfterStore | memory.h:59-70 | a word stored is the word loaded |
| Memory.StoreAfterLoad | memory.h:59-70 | storing back what was loaded changes nothing |
| Memory.ImageWord | memory.h:80-83 | after loading a program, its k-th word is at offset 4k |
| Memory.ImageFrame | memory.h:80-83 | loading a program changes no byte outside it |
| Memory.ProtectedMemory.constructor | memory.h:56 | a megabyte of zeros |
| Memory.ProtectedMemory.RawStoreByte | memory.h:72 | the new contents |
| Memory.ProtectedMemory.RawStoreHalf | memory.h:76-78 | the new contents |
| Memory.ProtectedMemory.RawStoreWord | memory.h:65-70 | the new contents |
| Memory.ProtectedMemory.LoadProgram | memory.h:80-83 | the new contents are the image of the program |
| Memory.ProtectedMemory.LoadByte | memory.h:120-124 | the byte, or 0 with the fault of the check |
| Memory.ProtectedMemory.LoadHalf | memory.h:130-134 | the half word, or 0 with the fault of the check |
| Memory.ProtectedMemory.LoadWord | memory.h:110-114 | the word, or 0 with the fault of the check |
| Memory.ProtectedMemory.StoreByte | memory.h:125-129 | the new contents; unchanged when the check faults |
| Memory.ProtectedMemory.StoreHalf | memory.h:135-139 | the new contents; unchanged when the check faults |
| Memory.ProtectedMemory.StoreWord | memory.h:115-119 | the new contents; unchanged when the check faults |
| Csr.EnterSavesEnable | csr.h:104-113 | entering a trap clears MIE and keeps its value in MPIE |
| Csr.EnterSavesMode | csr.h:112 | entering a trap puts the interrupted mode into MPP |
| Csr.EnterFrame | csr.h:109-112 | entering a trap leaves mstatus alone outside MIE, MPIE and MPP |
| Csr.ReturnFrame | csr.h:121-125 | so does returning |
| Csr.ReturnRestores | csr.h:116-127 | returning moves MPIE to MIE, sets MPIE and clears MPP |
| Csr.ReadAfterWrite | csr.h:73-101 | a written register reads back as written, no other changes, read-only and unknown ones ignore writes |
| Csr.FieldPositions | csr.h:50-57 | MIE is bit 3, MPIE bit 7, MPP bits 11 and 12 |
| Csr.CounterRead | csr.h:83 | the cycle counter reads as its low 32 bits |
| Csr.CSRFile.constructor | csr.h:62-71 | all registers zero |
| Csr.CSRFile.InterruptsEnabled | csr.h:129-131 | MIE |
| Csr.CSRFile.Read | csr.h:73-87 | the register at an address, or failure with 0 |
| Csr.CSRFile.Write | csr.h:89-101 | the one register changed; failure and no change for read-only and unknown addresses |
| Csr.CSRFile.TrapEnter | csr.h:104-113 | the new registers |
| Csr.CSRFile.TrapReturn | csr.h:116-127 | the new registers and the mode from MPP |
| Cpu.SwitchRMeaning | cpu.h:138-155 | the R-type switch computes the named operation, and fails exactly on unknown ones |
| Cpu.SwitchIMeaning | cpu.h:165-180 | the same for the I-type switch |
| Cpu.SwitchBranchMeaning | cpu.h:223-231 | the same for the branch switch |
| Cpu.UserAccessesInArray | memory.h:87-107 | no fetch, load or store of a user-mode hart leaves the array |
| Alu.SumMeaning | cpu.h:140-151 | ADD and SUB are addition and subtraction modulo 2^32 |
| Alu.BitwiseMeaning | cpu.h:144-147 | XOR, OR and AND, bit by bit |
| Alu.ShiftMeaning | cpu.h:141-152 | SLL, SRL and SRA multiply and divide by 2 to the low five bits of the second operand |
| Alu.SetLessMeaning | cpu.h:142-143 | SLT and SLTU give 1 or 0 as BLT and BLTU are taken or not |
| Alu.Trichotomy | cpu.h:224-229 | of less, equal and greater exactly one is taken, signed and unsigned; BNE, BGE and BGEU are negations |
| Alu.BorrowMeaning | cpu.h:228 | BLTU is taken exactly if the subtraction borrows |
| Alu.OverflowMeaning | cpu.h:226 | BLT is taken exactly if the difference is negative, or would be but for overflow |
| Alu.OrdersCompared | cpu.h:226-228 | the signed and unsigned orders differ exactly for operands of different sign |
| Alu.ReadAfterWrite | cpu.h:156 | a register reads back, register 0 is zero, no other register changes |
| Alu.JalMeaning | cpu.h:239-245 | where JAL goes and what it links, as numbers |
| Alu.JalrMeaning | cpu.h:246-253 | where JALR goes, rounded down to even, and what it links |
| Alu.BranchMeaning | cpu.h:219-236 | where a branch goes if it is taken and if not |
| KnownWords.RegisterWords | encode.h:9-60 | words of the standard decode to the R-type operations |
| KnownWords.ImmediateWords | encode.h:9-60 | the same for the I-type operations |
| KnownWords.LoadWords | encode.h:9-60 | the same for loads |
| KnownWords.StoreWords | encode.h:9-60 | the same for stores |
| KnownWords.BranchWords | encode.h:9-60 | the same for branches, with scattered offsets |
| KnownWords.JumpWords | encode.h:9-60 | the same for jumps and upper immediates |
| KnownWords.EmittedPseudo | assembler.h:128-133 | the pseudo-instructions emit these words of the standard |
| KnownWords.EmittedConstant | assembler.h:134-155 | LI emits one word exactly from -2048 to 2047, and LA always two |
| KnownWords.EmittedCsr | assembler.h:234-235 | csrrw and csrrs emit these words |
| Privileged.TrapRecorded | csr.h:104-113 | what a handler finds in mepc, mcause, mtval and mstatus after a trap, and where it runs |
| Privileged.CausesRaised | csr.h:18-32 | the cause number and value of every exception in user mode, by the instruction and its operand |
| Privileged.MachineModeCauses | cpu.h:102-108 | in machine mode an ecall has cause 11 and a fetch faults only outside the array |
| Privileged.ReturnUndoesTrap | cpu.h:296-302 | MRET gives back the mode, program counter and interrupt enable of before the trap, from either mode |
| Privileged.CsrResultBits | cpu.h:318-324 | what csrrw, csrrs and csrrc write, bit by bit |
| Privileged.CsrInstructionMeans | cpu.h:311-327 | these statements in machine mode: old value to rd, new value to the register, or an illegal instruction |
| Privileged.CsrWordMeans | cpu.h:311-327 | the same for any CSR word, immediate forms included |
| Cpu.Hart.Init | cpu.h:45-57 | the value of a new hart |
| Cpu.Hart.DeliverTrap | cpu.h:75-86 | the hart after trap entry |
| Cpu.Hart.RegisterArithmetic | cpu.h:135-159 | does what the decoded R-type instruction means |
| Cpu.Hart.ImmediateArithmetic | cpu.h:162-184 | does what the decoded I-type instruction means |
| Cpu.Hart.LoadInstruction | cpu.h:187-202 | does what the decoded load means, faults included |
| Cpu.Hart.StoreInstruction | cpu.h:205-217 | does what the decoded store means, faults included |
| Cpu.Hart.BranchInstruction | cpu.h:220-236 | does what the decoded branch means |
| Cpu.Hart.UnconditionalJump | cpu.h:239-253 | does what JAL and JALR mean |
| Cpu.Hart.UpperImmediate | cpu.h:256-269 | does what LUI and AUIPC mean |
| Cpu.Hart.MachineReturn | cpu.h:296-302 | MRET in machine mode counts a step and no cycle |
| Cpu.Hart.AccessCsr | cpu.h:311-328 | a CSR instruction in machine mode, or the exception |
| Cpu.Hart.SystemInstruction | cpu.h:273-329 | the SYSTEM opcode in both modes |
| Cpu.Hart.Complete | cpu.h:339-343 | x0 cleared, program counter, step and cycle counts advanced |
| Cpu.Hart.Interpret | cpu.h:132-335 | the switch on the opcode does what the decoded instruction means |
| Cpu.Hart.DispatchSystem | cpu.h:273-343 | the SYSTEM opcode and what follows the switch |
| Cpu.Hart.ExecuteOne | cpu.h:92-344 | the hart, the memory and the result after one call, for every word, mode and timer state |
| Kernel.Kernel.ReturnFromTrap | kernel.h:101-110 | the hart after the faked MRET, every other hart unchanged |
| Kernel.Kernel.PostMessage | kernel.h:155-169 | the queues and the harts after a SEND, the woken target included |
| Kernel.Kernel.SendMessage | kernel.h:154-172 | the same, and the sender resumed |
| Kernel.Kernel.ReceiveMessage | kernel.h:174-195 | head of the queue delivered, or the hart blocked |
| Kernel.Kernel.HandleSyscall | kernel.h:112-203 | the machine after any system call, and whether the hart resumes |
| Kernel.Kernel.HandleTrap | kernel.h:46-97 | the machine after any trap, and whether the hart resumes |
| Runs.UserEffects | cpu.h:273-309 | in user mode no instruction reaches the privileged paths, and only ECALL raises ECALL_U |
| Runs.TrapRoundTrip | kernel.h:101-110 | trap entry and return cancel but for mepc, mcause, mtval and the trap fields of mstatus |
| Runs.SendEffect | kernel.h:154-172 | what a SEND does to every hart and every queue |
| Runs.ReceiveEffect | kernel.h:174-195 | what a RECV does to every hart and every queue |
| Runs.StepClosed | scheduler.h:85-108 | every step of a fine machine, in closed form for all harts, the memory and all queues |
| Invariants.StatusRoundTrip | csr.h:104-127 | a trap and its return restore MIE and leave mstatus alone outside the trap fields |
| Invariants.FinePreserved | scheduler.h:85-108 | every step keeps the machine invariant |
| Invariants.NextHartStanding | kernel.h:174-185 | a hart starts to wait exactly by blocking, and every other path that leaves it running keeps its mode and interrupt enable |
| Syscalls.HartIdReturned | kernel.h:149-152 | GET_HARTID leaves the number of the hart in a0; other calls that only resume change no register |
| Syscalls.SendMeans | kernel.h:154-162 | the target of a SEND is the hart numbered by a0, if there is one |
| Syscalls.SendReturns | kernel.h:157-162 | and a0 is then 0, otherwise -1 |
| Syscalls.SenderDelivered | kernel.h:186-188 | a RECV leaves the value in a0 and the number of the sending hart in a1 |
| Syscalls.ReplyReachesSender | kernel.h:154-188 | sending to the number a RECV gave reaches the hart the message came from |
| Syscalls.CallNumber | kernel.h:114-202 | which system call has which number |
| Syscalls.TrapHandled | kernel.h:46-97 | what the kernel does with a trap, by the number of its cause |
| History.RunFine | scheduler.h:62-118 | every run keeps the machine invariant |
| History.FifoDelivery | kernel.h:154-194 | for each hart, messages queued at the start and then sent to it are, in order, those it received and then those still queued |
| History.SendersNamed | kernel.h:161 | every message names the hart that sent it, and targets a hart |
| History.EnableHistory | kernel.h:174-185 | a live hart has MIE set if and only if it was set at the start and the hart has never blocked |
| History.PrivilegeInRun | kernel.h:46-110 | no instruction of any run is fetched in machine mode; the kernel is entered with MPP = U and never for ECALL_M; no MRET or CSR access succeeds |
| History.StepConservation | cpu.h:339-343 | steps are instructions counted by harts plus traps plus sentinel halts; steps and cycles of a hart agree |
| History.StoppedForGood | scheduler.h:77 | a halted or faulted hart never steps again and nothing in it changes |
| History.DeliveriesBounded | cpu.h:95-99 | timer interrupts delivered to a hart, plus one pending, are at most the firings |
| History.TimerTrapsBounded | scheduler.h:92-98 | timer traps of all harts are at most harts times firings |
| Timer.FiringMarks | scheduler.h:95-97 | a firing marks every other running hart and no other |
| Timer.FiringMarksStepping | scheduler.h:85-108 | and the stepping hart unless it halted on a sentinel; an interrupt uses up what was pending |
| Timer.InterruptTaken | cpu.h:95-99 | the next step of a running hart is the timer interrupt if and only if its interrupts are on and one was pending when it last stepped or the timer has fired since |
| Frames.StepFootprint | memory.h:115-139 | a step changes nothing, or the bytes of one store that starts in the hart's slot |
| Frames.StepFrame | memory.h:87-107 | a changed byte is in the slot or one of the three above, and above only if the store straddles the top |
| Frames.StraddlingStoreEscapes | memory.h:100-105 | a straddling store does write the byte above the slot |
| Frames.AlignedStoreStays | memory.h:115-139 | a naturally aligned store never leaves the slot |
| Frames.RunFrame | memory.h:14-18 | over any run the kernel region and everything above the last slot's reach keep their contents |
| Frames.RunAccessesInArray | memory.h:59-78 | no access of any step of any run leaves the array |
| Blocking.ParkedRests | kernel.h:174-185 | a hart whose last act was to block is at its RECV in user mode with interrupts off, and waits exactly as long as its queue is empty; only such a hart waits |
| Blocking.ParkedCode | kernel.h:178-183 | its ecall is still in memory, unless the word reaches out of the slot or the hart below has stored across its top since |
| Blocking.WokenReceives | scheduler.h:77-107 | once woken, its next step takes the head of its queue if and only if its program counter still points at an ecall; a timer interrupt never comes first |
| Blocking.ReceiveDelivers | kernel.h:186-194 | a receive takes the head of the queue into a0 and a1 and moves the program counter by 4 |
| Blocking.NoLostWakeUp | kernel.h:154-195 | the three together, for both choices of the timer |
| Latency.ServedMeanwhile | kernel.h:154-195 | a hart that waits while others step is woken if and only if something is sent to it, and next receives the first such message if its ecall is out of reach |
| Latency.WakeUpLatency | scheduler.h:75-109 | in the scheduler: after at most (n - 1) * quantum calls of others a hart that was sent a message begins its turn by receiving the first one, and one that was not has no turn |
| Witnesses.WakeUpArises | kernel.h:154-195 | a run of two booted harts that reaches the situation of NoLostWakeUp |
| Witnesses.BlockingLosesEnable | kernel.h:178-183 | an input on which blocking RECV loses the interrupt enable |
| Witnesses.LonelyHangs | scheduler.h:62-77 | an input on which `run` does not end, for every quantum |
| Witnesses.NeighbourOverwritten | memory.h:87-107 | an input on which a store of hart 0 changes hart 1's slot |
| Witnesses.NeighbourCrashes | memory.h:87-107 | on that input hart 1 faults where it would have gone on |
| Witnesses.FetchFaults | cpu.h:102-108 | a user-mode fetch faults if and only if the program counter is outside the slot, whatever its alignment |
| Witnesses.MisalignedExecutes | memory.h:89-92 | an input on which a hart executes at a misaligned address |
| Witnesses.ImmediateLost | assembler.h:179-191 | an input on which an immediate is cut: `addi` with 4096 decodes to an addition of 0 |
| Witnesses.ShiftMisread | assembler.h:192 | an input on which SRLI becomes SRAI |
| Independence.PerformLocal | cpu.h:92-344 | an instruction whose fetch and load stay below the top of the slot depends on the hart's slot only; a faulting fetch reads nothing |
| Independence.ForeignStep | scheduler.h:85-108 | another hart's step does not show in a hart's registers, program counter, slot or liveness, unless it is a straddling store of the hart below |
| Independence.OwnStep | scheduler.h:85-108 | a hart's own step is that of the hart alone with its messages in an inbox |
| Independence.RunsAsAlone | scheduler.h:75-109 | a hart that reads within its slot, and whose lower neighbour stores within its own, has the history of the hart alone, given the messages it received |
| Independence.ScheduleIndependence | scheduler.h:75-109 | under any two schedules, timers and neighbours that do not upset it, one history is the beginning of the other |
| Independence.SameOutcome | scheduler.h:75-109 | and a hart that has stopped under both had the same history, got the same messages and ended with the same registers, program counter and slot |
| Independence.ContainedUndisturbed | memory.h:87-107 | a run in which no access crosses the top of a slot upsets no hart |
| Schedule.RoundsTrack | scheduler.h:62-118 | any number of rounds is a run, so that all run properties hold of the scheduler |
| Schedule.FairTurn | scheduler.h:75-109 | a hart running at the start of a round makes between 1 and quantum calls in it, all in its turn |
| Schedule.TurnIsFull | scheduler.h:84-109 | a turn is a quantum of retired instructions, or ends earlier with a trap or a halt and only so |
| Schedule.GapBounded | scheduler.h:75-109 | between a hart's turns in consecutive rounds others make at most (n - 1) * quantum calls, and it makes none |
| Schedule.RoundProgress | scheduler.h:75-109 | a round that starts with a running hart increases the step count |
| Schedule.StuckIsFixedPoint | scheduler.h:62-77 | a round changes nothing if and only if nothing can step, and otherwise makes a step |
| Schedule.EndsUnlessStuck | scheduler.h:62-118 | the outer loop ends if and only if it does not reach such a state |
| Schedule.EndsInTime | scheduler.h:62-118 | and then after no more rounds than the step limit |
| Schedule.StepsOnExit | scheduler.h:62-118 | at most maxCycles - 1 + harts * quantum steps on exit |
| Schedule.StepAccounting | scheduler.h:87-108 | step conservation for the scheduler's own count |
| Schedule.TimerAccounting | scheduler.h:88-98 | firings * interval + tick = steps, tick below interval, and timer traps at most harts * (steps / interval) |
| Schedule.FiresRegularly | scheduler.h:88-98 | the timer fires at exactly the steps whose number is a multiple of the interval |
| Scheduler.HartManager.constructor | scheduler.h:24-28 | an empty machine |
| Scheduler.HartManager.SpawnHart | scheduler.h:30-47 | the new hart and its image, or -1 and no change in the two error cases |
| Scheduler.HartManager.FireTimer | scheduler.h:95-97 | exactly the running harts are marked |
| Scheduler.HartManager.Call | scheduler.h:85-108 | one turn of the innermost loop is a step of the machine |
| Scheduler.HartManager.TakeTurn | scheduler.h:84-109 | the innermost loop is a turn |
| Scheduler.HartManager.PlayRound | scheduler.h:75-115 | the middle loop is a round |
| Scheduler.HartManager.Alive | scheduler.h:65-69 | whether any hart is running or waiting |
| Scheduler.HartManager.Run | scheduler.h:54-124 | the final machine and count after so many rounds, each of which made progress; why it ended; the bound on steps |
| Boot.SpawnFine | scheduler.h:42-45 | spawning keeps the machine invariant at any time |
| Boot.BootedFine | scheduler.h:30-47 | a booted machine has the invariant |
| Boot.BootedWord | scheduler.h:42 | after all spawns every program's every word is in its slot |
| Boot.BootedFetch | scheduler.h:42-45 | and its hart can fetch it at its k-th instruction address |
| Boot.MemoryMap | memory.h:14-22 | the kernel region and the slots, in numbers |
| Boot.AcceptsMeans | scheduler.h:33-40 | exactly up to eight harts and 14336 words of program are accepted |
| Boot.BootedStack | cpu.h:52 | the stack pointer of every booted hart is the last word of its own slot, aligned, writable and clear of its program |
| Boot.BootedHart | cpu.h:45-53 | the state, mode, program counter and other registers a hart starts with |
| Boot.BootedCsrs | cpu.h:53-56 | the CSRs it starts with, as it can read them |
| Boot.BootedElsewhere | scheduler.h:42 | memory is zero wherever no program was loaded |
| Boot.EnabledUntilBlocked | kernel.h:174-185 | from boot, interrupts are on exactly until the first blocking receive, and mstatus is zero outside the trap fields |
| TwoPass.Sweep | assembler.h:86-245 | program, labels and patches after assembling a list of statements |
| TwoPass.StatementPatched | assembler.h:261-277 | patching a statement's words gives its finished words |
| TwoPass.StatementResolved | assembler.h:253-281 | resolving one statement's patches anywhere in a program rewrites its words and no others |
| TwoPass.FinalisedProgram | assembler.h:250-283 | the words left by assembling, for every statement list, and success if and only if every label looked up is defined |
| TwoPass.ResolvingIsIdempotent | assembler.h:250-283 | resolving again changes nothing |
| TwoPass.BackpatchingIsTwoPass | assembler.h:250-283 | the sweep with backpatching and two passes have the same success and the same words if and only if a label that is looked up is undefined, or every skipped operand is defined and its statement's finished words are its placeholders |
| TwoPass.OrdinaryLabelsAgree | assembler.h:250-283 | if no label operand is another name with `__lo` after it, they always agree |
| TwoPass.LeftAloneMeans | assembler.h:255 | exactly the statements are skipped whose label is another name with `__lo` after it; the bare `__lo` is resolved |
| TwoPass.TranslationSize | assembler.h:257-260 | two passes succeed if and only if every label referred to is defined |
| TwoPass.LastDefinitionWins | assembler.h:97-108 | a label's address is that after its last definition |
| TwoPass.DefinedOnly | assembler.h:257-260 | a label has an address if and only if it is defined |
| TwoPass.SkippedLabelStaysZero | assembler.h:255 | an input with a `__lo` label on which both succeed and the assembler leaves a jump to itself instead |
| Patches.SweepTable | assembler.h:86-155 | every patch is in bounds and at a JAL, a branch, or a LUI followed by its ADDI; no two for one word |
| Patches.OneKeepsFields | assembler.h:261-280 | one patch changes immediates only, and fails only for an undefined label |
| Patches.PatchedFields | assembler.h:261-280 | patching a word of a sound table never takes the internal-error branch |
| Patches.ResolvingKeepsFields | assembler.h:250-283 | the same for the whole table |
| Patches.FieldsSurvive | assembler.h:250-283 | opcodes, registers and funct3 fields of the assembled program are those emitted |
| Assembler.Assembler.EmitBranchPatch | assembler.h:86-89 | the placeholder and its patch |
| Assembler.Assembler.EmitAddress | assembler.h:142-155 | the two placeholders of LA and their patches |
| Assembler.Assembler.EmitConstant | assembler.h:134-141 | the one or two words of LI |
| Assembler.Assembler.EmitReference | assembler.h:156-163 | the statements with a label operand |
| Assembler.Assembler.EmitPseudo | assembler.h:129-133 | the pseudo-instructions without one |
| Assembler.Assembler.AssembleStmt | assembler.h:91-248 | program, labels and patches after a statement; the table stays sound |
| Assembler.Assembler.AssembleAll | assembler.h:285-293 | the same for the statements of a file |
| Assembler.Assembler.ResolveLabels | assembler.h:250-283 | the rewritten program and the result; every index in bounds, immediates only |
| Assembler.Assembler.Finalise | assembler.h:295 | what resolving leaves, and that it is the two-pass program exactly under the condition of BackpatchingIsTwoPass |
| Decoding.DecodeOp | assembler.h:166-176 | an R-type statement's word decodes to its operation and registers |
| Decoding.DecodeOpImm | assembler.h:179-191 | an I-type statement's word decodes to its operation, registers and the immediate cut to twelve bits, which is the immediate if and only if it is in range |
| Decoding.DecodeSrai | assembler.h:182 | SRAI always decodes to an arithmetic shift |
| Decoding.DecodeSrli | assembler.h:192 | SRLI decodes to a logical shift if and only if bits 5 to 11 of its immediate are not SRAI's funct7; the immediate as above |
| Decoding.DecodeLoadWord | assembler.h:196-205 | loads decode to their width, sign and registers; the offset as above |
| Decoding.DecodeStoreWord | assembler.h:207-214 | stores decode to their width and registers; the offset as above |
| Decoding.DecodeBranchWord | assembler.h:217-226 | branches decode to their condition and registers, and to their offset if and only if it fits |
| Reach.FitsIRange | assembler.h:137 | the one-word LI is chosen exactly from -2048 to 2047 |
| Reach.FitsBRange | encode.h:93-104 | a branch offset is representable exactly when even and from -4096 to 4094 |
| Reach.FitsJRange | encode.h:113-122 | a jump offset is representable exactly when even and from -2^20 to 2^20 - 2 |
| Reach.AddressDifference | assembler.h:266 | the offset between two instruction addresses depends on their distance only |
| Reach.DistanceFits | assembler.h:266-269 | within a megabyte every jump fits and a branch exactly from -1024 to 1023 words |
| Reach.DistanceVanishes | assembler.h:266-269 | the encoded bits of an offset are all zero exactly at multiples of 2^19 words for a jump and of 2^11 words for a branch |
| Simulation.ZeroBranchTaken | assembler.h:158-163 | beqz to bgtz are taken exactly when their comparison with zero holds |
| Simulation.TwoWords | assembler.h:138-139 | LUI and ADDI together put the whole value into the register |
| Simulation.StatementSimulated | assembler.h:128-245 | one or two calls of `executeOne` do what the statement means |
| Compiled.WordsOfStatement | assembler.h:250-283 | where a statement's words are in the program that the assembler leaves: its finished words, or those with zero for the label if its operand is skipped |
| Compiled.JumpLands | assembler.h:265-267 | every jump of an accepted program that the assembler leaves lands on its label; one whose operand is skipped jumps to itself |
| Compiled.BranchLands | assembler.h:268-270 | a branch does if and only if the label is -1024 to 1023 words away; one whose operand is skipped goes to itself |
| Compiled.AssembledStatement | assembler.h:128-283 | with its own words as the assembler left them in memory, a hart at a statement whose operand is not skipped does exactly what the statement means |
| Compiled.SourceRunExecuted | cpu.h:92-344 | a run of the source statements, each with its own words intact, is what the machine executes; data among the statements may have been written |
| Skipping.PatchingMeans | assembler.h:261-277 | a statement's finished words are its placeholders exactly for a jump at a multiple of 2^19 words, a branch at a multiple of 2^11 words, a LA of address 0 |
| Skipping.AgreementMeans | assembler.h:250-283 | the exact condition of two-pass equivalence, read off the statements |
| Skipping.SafeInSlot | assembler.h:250-283 | the same in a program that is accepted: a jump to itself, a branch a multiple of 2048 words away |
| EndToEnd.MachineFollows | scheduler.h:85-102 | completed calls of `executeOne` are steps of the whole machine |
| EndToEnd.BootedReady | scheduler.h:30-47 | a hart spawned with the assembler's output stands at its first statement with every statement in its slot |
| EndToEnd.StoreKeepsStatement | memory.h:115-139 | a store beside a statement's words leaves the statement as assembled, so a run goes on after it writes `.word` data |
| EndToEnd.ConfigurationsAgree | scheduler.h:13-19 | the quantum, timer interval and step limit do not matter to a hart's history beyond how much of it there is, and not at all to its end |
| EndToEnd.SourceRunsOnMachine | scheduler.h:30-47 | the assembler's output, spawned and run alone: a source run from boot ends in the same registers, program counter and memory |
| SourceHistory.SourceIsSolo | cpu.h:92-344 | the history of a source run, system calls included and each statement with its own words intact, is that of the hart on its own |
| SourceHistory.BootedInSlot | scheduler.h:30-47 | at boot that history can begin: every statement is in the slot and the hart at the first |
| SourceHistory.RunsAsWritten | scheduler.h:75-109 | under any schedule, timer and neighbours that do not upset it, a hart spawned with the assembler's output has the history of its source statements with the messages received; a two-word LI or LA may be interrupted between its words, and data may be written |

## Left out

- Console output: tracing, dumps, summaries and the text of PRINT_INT and PRINT_STR. These system calls, YIELD and
  unknown ones share one case, which resumes after the ecall.
- Reading files and the command line (main.cpp): a program is assembled with its slot's base and spawned.
- Parsing of lines, registers and immediates, and their error messages: the assembler starts from statements with
  valid operands, so `hasError` is never set.
- Handlers in machine mode: single machine-mode instructions are covered by `Privileged`, but no run reaches them, and
  sequences of them are not considered.
- Undefined behaviour of the program's own arithmetic: signed overflow and shifts wrap around, also where LI and LA add
  past the largest `int32_t` (values from 0x7FFFF800 up). The 64-bit counters and `totalSteps` are unbounded numbers.
- Scheduler.HartManager.Run: stops where the source would repeat a round that changes nothing for ever, and says so in
  its outcome.
- Memory.ByteAt: reads 0 past the end of the array, where the source has undefined behaviour; the methods require
  their accesses to be inside, and `Frames.RunAccessesInArray` shows that they are.
