# A verified model of the Teakra DSP core

Teakra emulates a Teak-family digital signal processor together with its timers,
its audio port (BTDMP), its DMA engine and the bus bridge (AHBM) to external
memory. This project models the parts of it that are hardest to get right and
proves what they promise:

* **Time skipping** (`timer.dfy`, `btdmp.dfy`, `core_timing.dfy`, `interpreter.dfy`,
  `idle.dfy`, `idle_runs.dfy`, `interrupts.dfy`, `processor.dfy`). An idle processor jumps over many cycles at once.
  The jump is proved equal to cycling one by one in three layers: each component,
  a list of any number of components, and a whole processor run with interrupts.
  Each layer says exactly when the equality holds. From a component that fires to
  the first word of the handler, every interrupt is followed bit by bit.
* **Control hardware** (`program_control.dfy`, `block_repeat.dfy`, `nesting.dfy`,
  `contexts.dfy`, `address_unit.dfy`). Structured repeat and block-repeat code runs as its
  unrolling; spilling the repeat stack to memory and filling it again is the
  identity on all live state; an interrupt with a context switch is invisible to
  the interrupted program; modulo stepping is addition modulo the buffer size.
* **40-bit arithmetic** (`accumulators.dfy`, `alu.dfy`, `multiplier.dfy`). Shifts,
  sums, products, exponents and division steps have exact integer meanings. The
  class invariant is that every accumulator is the sign extension of its low 40
  bits.
* **DMA and AHBM** (`dma.dfy`, `ahbm.dfy`). The three-level counter machine is a loop
  nest with closed-form addresses; the burst queue loses, repeats and reorders
  nothing, and its byte lanes are characterised byte by byte.
* **SHA-256** (`sha256.dfy`, `sha256_example.dfy`). The streaming implementation of the
  firmware maker computes the digest of FIPS 180-4 for every way of cutting up the
  message; the published digest of "abc" fixes constants, rotations and byte orders.
* **Parser trie** (`parser.dfy`). The assembler's parser inverts the disassembler,
  whatever the disassembler prints.

Where the code meets a promise only under a condition, the condition is one that a
caller could check and is proved to be exact. `corner_cases.dfy` gives a concrete
input on the other side of each.

## How it is built

State that is a value (a register file, a timer between two cycles, a port and its
external memory) is a datatype with specification functions. Whatever the source
updates in place is a class whose methods are proved equal to those functions.
The theorems are lemmas about the functions. Words are bounded integers with
explicit wrap-around, except in SHA-256, which uses bit vectors.
`Arith` and `Bits` hold the few facts about products, quotients, powers of two and
the bitwise or that the rest relies on; `hide` keeps definitions out of proofs
that do not need them.

Interrupt handlers and the audio callback become ghost logs: how often a handler
was called, which samples were sent, which external writes were made, in which
cycle which interrupt was entered.

## Conditions found to be exact

* `Timer::Skip` followed by a tick is ticking, unless an unpaused auto-restart timer
  rests at 0 with reload value 0. Such a timer never fires by ticking, but fires
  after `Skip(0)`.
* `Btdmp::Skip` is ticking if and only if the transmitter is disabled, or its timer is
  below its period, or the period is 1 and the timer is not 0xFFFF.
* An idle iteration of `Run` is the cycles it replaces if and only if every component is
  ready in the two senses above, and either no interrupt is about to be taken or
  only one cycle is left.
* A whole run whose idle heads are parked and ready is its cycles if and only if no
  such head but the last cycle has an interrupt waiting. One that has is entered
  late, and the two logs never agree again. It happens when a component fires in the
  very cycle that begins the idling. Judged by the states of plain cycling alone, a
  run is exact when every interrupt that waits while idle arrived in an idle state
  and not in the second of two rounds in which components are due.
* The idle flag is right about a taken branch to itself, which then stays at its
  address with nothing pending, if and only if it is not under a repeat with passes
  to go and, where it ends a block, that block is on its last pass and the block
  around it ends elsewhere.
* `Btdmp::GetMaxSkip` is always silent; the tick after a finite bound fires if and only if the
  timer does not stand at 0xFFFF (with a zero period: at most two entries wait).
* Code with block repeats, however nested, leaves the repeat hardware as it was if and
  only if it is nested strictly. It gets to its end if and only if the repeat stack has
  room for the frames it opens; otherwise it trips the assertion.
* Any number of fills undoes as many spills if and only if every live frame that goes out
  has 18-bit addresses and the spills fit 64K words, or no frame is live and the dead
  bottom frame does not set the loop bit of its flag word.
* The DMA stops if and only if it is not in double-word mode with `size0` 0xFFFF.
* Transfers that read and write through one idle bridge channel are the sequence of
  their writes if and only if units move one by one; otherwise the prefetched units are
  written out with them. The exception is a channel with an unknown unit size, which
  writes nothing: there nothing shows it after whole bursts, provided the burst register
  already holds the address of the last one.
* `sha256_update` ends if and only if its chunk is shorter than 2^32 bytes, because its
  index is a 32-bit word while the length is not.
* The assertion in `GenerateParser` holds if and only if no opcode repeats the tokens of an
  earlier one without containing all bits of the first that has them.
* `OffsetAddress` +1 and `StepAddress` +1 agree in a modulo buffer unless the address stands
  on the unused top word of its mask; without a modulus they agree on even
  addresses.

## Model

| member | source | states |
|---|---|---|
| Timers.SkipIsTicks | src/timer.cpp:86-107 | A jump of 1 to `GetMaxSkip` cycles equals that many ticks, in counter, mirrored words and interrupts, in all modes and when paused |
| Timers.SkipThenTicksExactly | src/timer.cpp:27-107 | A jump of n >= 0 cycles followed by j >= 1 ticks equals n + j ticks if and only if the timer is not stuck at 0 with a zero reload |
| Timers.SkipNoneThenTick | src/timer.cpp:90-100 | A jump over no cycles is repaired by the next tick, except on a stuck timer, where that tick fires |
| Timers.MaxSkipIsSilent | src/timer.cpp:69-84 | No interrupt fires within the bound of `GetMaxSkip` |
| Timers.MaxSkipIsTightExactly | src/timer.cpp:69-84 | The tick after a finite bound fires exactly once, if and only if the timer is not stuck; a stuck one never fires |
| Timers.InfiniteBoundNeverFires | src/timer.cpp:69-81 | A timer with infinite bound never changes by ticking |
| Timers.StuckNeverFires | src/timer.cpp:34-37 | Ticking a stuck timer leaves it stuck and silent for ever |
| Timers.TicksCountDown | src/timer.cpp:41-46 | n ticks of a running counter subtract n and mirror the result |
| Timers.TicksFromZero | src/timer.cpp:34-40 | n ticks from zero reload and count down, in both repeating modes |
| Timers.FiresOncePerPeriod | src/timer.cpp:27-47 | From rest at zero, k periods of reload + 1 (or 2^32) ticks fire exactly k times and return to rest |
| Timers.WordsMakeCounter | src/timer.cpp:62-67 | The mirrored words are the high and the low half of the counter while updating is on, and the start words those of the reload value |
| Timers.Timer.UpdateMMIO | src/timer.cpp:62-67 | The mirrored words are the two halves of the counter when updating is on |
| Timers.Timer.Restart | src/timer.cpp:19-25 | The counter is reloaded and mirrored unless free-running |
| Timers.Timer.Tick | src/timer.cpp:27-47 | The object follows the tick of the specification in every mode |
| Timers.Timer.TickEvent | src/timer.cpp:49-60 | An event counts down, and fires, only in event-count mode above zero |
| Timers.Timer.GetMaxSkip | src/timer.cpp:69-84 | The returned number of ticks is silent, and the next one fires once unless the timer is stuck |
| Timers.Timer.Skip | src/timer.cpp:86-107 | The object after a jump is the object after that many ticks; with one more tick, exactly when it was not stuck |
| Btdmps.SkipIsTicksExactly | src/btdmp.cpp:68-95 | A jump within the bound equals that many ticks in timer, queue, flags, emitted samples and interrupts, if and only if the transmitter is disabled or in step |
| Btdmps.SkipThenTicksExactly | src/btdmp.cpp:23-95 | The same for a jump of n >= 0 cycles followed by at least one tick |
| Btdmps.BoundIsSilent | src/btdmp.cpp:50-66 | No interrupt within the bound, wherever the timer stands |
| Btdmps.BoundIsTightExactly | src/btdmp.cpp:50-66 | The tick after a finite bound empties the queue and fires exactly once, if and only if the timer does not stand at 0xFFFF, or, with a zero period, at most two entries wait; otherwise it does neither |
| Btdmps.TicksClosedForm | src/btdmp.cpp:23-48 | n ticks are (timer + n) / period transmits and the remainder in the timer |
| Btdmps.SkipClosedForm | src/btdmp.cpp:68-95 | The jump is the same closed form from a timer brought inside its period, and raises no interrupt |
| Btdmps.FewTransmits | src/btdmp.cpp:79-90 | Within the bound every transmit leaves something in a non-empty queue, so the assertion inside `Skip` holds |
| Btdmps.TransmitsShape | src/btdmp.cpp:27-46 | n transmits take 2n entries off the queue, emit n samples, and fire once exactly when the queue runs empty |
| Btdmps.SamplesAreTheQueue | src/btdmp.cpp:28-45 | The k-th sample emitted is the k-th pair of the queue, as signed values |
| Btdmps.TicksStayInPeriod | src/btdmp.cpp:25-27 | Ticking keeps the timer below the period |
| Btdmps.JumpValid | src/btdmp.cpp:68-95 | A jump keeps the empty and full flags in step with the queue |
| Btdmps.TicksValid | src/btdmp.cpp:23-48 | So does any number of ticks |
| Btdmps.SentInOrder | src/btdmp.h:51-59 | An empty queue takes the first sixteen values in the order they are sent, and the flags say when it holds any and when it holds sixteen |
| Btdmps.SentComesOut | src/btdmp.cpp:28-45 | What is sent comes out in that order, pair by pair, as signed values |
| Btdmps.FlushedIsEmpty | src/btdmp.h:61-65 | Flushing empties the queue and nothing else |
| Btdmps.Btdmp.Send | src/btdmp.h:51-59 | A value joins the queue unless 16 wait; the flags keep describing the queue |
| Btdmps.Btdmp.SetTransmitFlush | src/btdmp.h:61-65 | The queue is emptied and the flags follow |
| Btdmps.Btdmp.Pop | src/btdmp.cpp:30-41 | One sample leaves; an underrun gives 0; emptying the queue fires once |
| Btdmps.Btdmp.Tick | src/btdmp.cpp:23-48 | The object follows the tick of the specification |
| Btdmps.Btdmp.GetMaxSkip | src/btdmp.cpp:50-66 | The returned number of ticks is silent and the next one fires, under exactly that condition |
| Btdmps.Btdmp.SkipTransmits | src/btdmp.cpp:79-94 | The loop of `Skip` emits whole transmits and never trips its assertion |
| Btdmps.Btdmp.Skip | src/btdmp.cpp:68-95 | The object follows the jump of the specification |
| CoreTimings.SkipAllThenRoundsExactly | src/core_timing.h:22-37 | Jumping component by component and then going round by round equals the same number of rounds, if and only if every component is ready |
| CoreTimings.SkipAllIsRounds | src/core_timing.h:28-37 | A jump over at least one round is that many rounds |
| CoreTimings.SkippedRoundsAreSilent | src/core_timing.h:28-37 | No component fires in any skipped round |
| CoreTimings.RoundsAreTicks | src/core_timing.h:22-26 | Rounds and components can be exchanged: component i after n rounds is component i after n ticks of its own |
| CoreTimings.MinSkipIsLeast | src/core_timing.h:29-32 | The jump length is the least of the maximum and all bounds, and is one of them |
| CoreTimings.CoreTiming.RegisterCallbacks | src/core_timing.h:39-41 | A component joins at the end and no other changes |
| CoreTimings.CoreTiming.Tick | src/core_timing.h:22-26 | Every registered object has ticked once |
| CoreTimings.CoreTiming.GetMaxSkip | src/core_timing.h:29-32 | The first loop of `Skip` finds the least bound |
| CoreTimings.CoreTiming.SkipEach | src/core_timing.h:33-35 | The second loop makes every object jump by the same amount |
| CoreTimings.CoreTiming.Skip | src/core_timing.h:28-37 | The returned length is the least bound and every object has jumped over it |
| IdleRefinement.IdleIterationExactly | src/interpreter.h:62-146 | At a parked branch, an idle iteration equals the single cycles it replaces, in processor, components, time and interrupt entries, if and only if all components are ready and no interrupt waits (or one cycle is left) |
| IdleRefinement.IdleIterationIsCycles | src/interpreter.h:65-74 | The direction used for refinement: skip, extra tick and one cycle are that many plain cycles |
| IdleRefinement.ParkedInstruction | src/interpreter.h:86-112 | A parked self-branch, fetched and executed with its repeat control, changes nothing |
| IdleRefinement.SignalsLate | src/interpreter.h:76-84 | It makes no difference whether latched signals are taken over before or after further ones arrive |
| IdleRuns.RunIsCyclesExactly | src/interpreter.h:62-146 | A run whose idle heads, walked on the plain run, are parked and ready equals its cycles if and only if each such head is quiet or the last cycle |
| IdleRuns.LateForGood | src/interpreter.h:65-84 | An interrupt waiting at an idle head with more than one cycle to go is entered late, and the logs of run and cycles differ for good |
| IdleRuns.GuardedRunIsCyclesExactly | src/interpreter.h:62-146 | The same from the plain run: self-branches that stay, and components ready in every idle state |
| IdleRuns.TimelyRunIsCycles | src/interpreter.h:62-146 | A run is its cycles when, in the plain run, every interrupt that waits while idle arrived in an idle state and not in the second of two due rounds |
| IdleRuns.QuietRunIsCycles | src/interpreter.h:62-146 | In particular when no interrupt waits in any idle state of the plain run |
| IdleRuns.WindowEndsDue | src/core_timing.h:28-37 | Where a window ends before the run does, a component was due two states earlier |
| CoreTimings.BoundRunsOut | src/core_timing.h:28-37 | After as many rounds as a finite jump covers, some component is due |
| IdleRuns.RunTakesItsTime | src/interpreter.h:62-146 | Any run of n cycles, faithful or not, ends with time, counted at every tick and jump of the components, moved by exactly n |
| IdleRuns.FlagIsRightExactly | src/interpreter.h:93-112 | After a taken self-branch the processor is parked at the same address if and only if no repeat passes are left and, at a block end, the block is on its last pass and the next outer block ends elsewhere |
| IdleRuns.StaysExactly | src/interpreter.h:93-110 | The same for the program counter and the repeat hardware alone |
| IdleRuns.IdleMeansParked | src/interpreter.h:1102-1109 | A cycle whose self-branch stays keeps idle meaning parked |
| IdleRuns.ParkedThroughout | src/interpreter.h:1102-1109 | So does any number of them |
| IdleRuns.IterationKeepsParked | src/interpreter.h:65-74 | And an idle iteration from a parked branch, with no condition |
| IdleRuns.FiresFallingIdle | src/interpreter.h:62-84 | A component that fires in the cycle that begins the idling spoils the run |
| IdleRefinement.CycleEntries | src/interpreter.h:114-142 | A cycle enters at most one interrupt |
| InterruptEntry.InterruptEnters | src/interpreter.h:114-131 | The first of the three interrupts that is enabled and pending enters at 0x0006 + 8 i: its pending bit is cleared and no other, interrupts and idle flag go off, the return address stands in the two words under the old stack pointer in the order of `cpc`, and flags, banks and accumulators are switched exactly when `ic` says so |
| InterruptEntry.VectoredEnters | src/interpreter.h:131-141 | With none of the three, the vectored interrupt enters the same way at its vector, with a switch as latched |
| InterruptEntry.NothingEnters | src/interpreter.h:114-142 | Otherwise nothing changes |
| InterruptEntry.FiredIsPending | src/interpreter.h:76-84 | An interrupt is pending in the next cycle exactly when it was, was latched, or a component fired whose request is enabled for it |
| InterruptEntry.SignalsReach | src/icu.h:26-45 | The same for the latches, whatever the number and order of the components |
| InterruptEntry.VectorOfLast | src/icu.h:26-45 | The vector and the switch of the vectored interrupt are those of the last component to fire one |
| InterruptEntry.ExecutesAtPC | src/interpreter.h:86-112 | An instruction is executed with the word at the program counter, and the next one if it needs an expansion, after the repeat control that passing both calls for |
| InterruptEntry.BranchesFromNext | src/interpreter.h:1102-1109 | A taken branch is relative to where that leaves the counter, and raises the idle flag when it goes back by one |
| InterruptEntry.PastIsNext | src/interpreter.h:93-110 | With no repeat and no block, that is simply the next word |
| InterruptEntry.FetchAddressIs | src/interpreter.h:86-91 | The page stands above the 18 bits of the program counter |
| Processors.Interpreter.PushPC | src/interpreter.h:29-39 | The program counter goes out in the word order of `cpc`; nothing else changes |
| Processors.Interpreter.PopPC | src/interpreter.h:41-56 | It comes back in the same order, if it has 18 bits |
| Processors.Interpreter.ContextStore | src/interpreter.h:1139-1154 | The object follows the store half of the context switch |
| Processors.Interpreter.ContextRestore | src/interpreter.h:1156-1168 | The object follows the restore half |
| Processors.Interpreter.Retic | src/interpreter.h:1191-1197 | Return, interrupts on and context restore, when the condition passes |
| Processors.Interpreter.TakeOverLatches | src/interpreter.h:76-84 | Every latched signal reaches its pending bit and no latch stays set |
| Processors.Interpreter.Brr | src/interpreter.h:1102-1109 | A taken branch is relative to the next instruction; one to itself raises the idle flag |
| Processors.Interpreter.Step | src/interpreter.h:86-112 | Fetch, expansion, repeat control and execution as specified |
| Processors.Interpreter.TakeInterrupts | src/interpreter.h:114-142 | The first raised interrupt of 0, 1, 2 and the vectored one is entered, if interrupts are on and no repeat runs |
| Processors.Interpreter.OneCycle | src/interpreter.h:76-144 | One pass of the loop body without the shortcut |
| Processors.Interpreter.Run | src/interpreter.h:62-146 | Ends after exactly the given number of cycles; in the state of plain cycling under the exact condition on its idle heads, and under the condition on plain states |
| ProgramControl.RestoresUndoStoresExactly | src/interpreter.h:993-1027 | As many fills as spills, any number of them, give back the address register, loop bit, depth and every live frame and leave memory alone, if and only if the live frames that go out have 18-bit addresses and the spills fit the 64K words below the pointer, or no frame is live and the dead one does not set the loop bit of the flag word |
| ProgramControl.RestoreUndoesStore | src/interpreter.h:993-1027 | One fill undoes one spill of a live 18-bit frame when the four words are intact |
| ProgramControl.LoadsWhatWasStored | src/interpreter.h:1000-1019 | The four words give back the frame if and only if both addresses have 18 bits, and the loop bit unless higher address bits set it |
| ProgramControl.SpillLayout | src/interpreter.h:1012-1019 | The count, the low halves of the start and end addresses and the flag word lie one under the other below the pointer |
| ProgramControl.FlagBits | src/interpreter.h:1016-1018 | Bit by bit, the flag word is the loop bit on top, the high half of the start address and, eight places up, that of the end address |
| ProgramControl.BreakDrops | src/interpreter.h:1111-1116 | A break drops the innermost frame and changes nothing else |
| ProgramControl.DeadFlagStays | src/interpreter.h:1012-1027 | Spills with no frame live leave the repeat state alone and never set the loop bit of an earlier flag word |
| ProgramControl.StoresTouchBelow | src/interpreter.h:1012-1019 | n spills touch only the 4n words below the pointer |
| ProgramControl.RepeatUnit.AdvanceRepeats | src/interpreter.h:93-110 | Repeat and block-repeat control after a fetch; the loop bit is set exactly when a frame is live and at most four are |
| ProgramControl.RepeatUnit.StartBlockRepeat | src/interpreter.h:968-975 | A frame from the next instruction to the given address joins the stack |
| ProgramControl.RepeatUnit.BreakBlock | src/interpreter.h:1111-1116 | The innermost frame is dropped without a jump |
| ProgramControl.RepeatUnit.StoreBlockRepeat | src/interpreter.h:1012-1027 | The bottom frame goes to memory, with addresses of any width, and the others move down |
| ProgramControl.RepeatUnit.RestoreBlockRepeat | src/interpreter.h:993-1011 | A frame comes from memory to the bottom and the others move up |
| BlockRepeats.RunsAsUnrolled | src/interpreter.h:93-110 | Well-nested code runs in finitely many steps as its unrolling and leaves the live frames as they were; nested deeper than the stack has room for, it runs into the assertion |
| BlockRepeats.RunLoop | src/interpreter.h:102-110 | A block entered with counter lc executes its body exactly lc + 1 times, drops its frame and leaves those below untouched, or runs into the assertion on a full stack |
| BlockRepeats.RunRep | src/interpreter.h:93-100 | A repeated instruction executes count + 1 times |
| BlockRepeats.NestedLoopsMultiply | src/interpreter.h:968-991 | In the unrolled list, iterations of nested loops multiply |
| Nesting.NestedRunsMultiply | src/interpreter.h:93-110 | And so they do in a run of the repeat hardware |
| Nesting.NestingExactly | src/interpreter.h:102-110 | For any code in any program: at the first arrival at the word after it, the code has executed its flow, in which a block that does not close runs once or twice, has left live the frames counted by `Stale`, and has left the repeat hardware as it was if and only if it is well nested |
| Nesting.ArrivesExactly | src/interpreter.h:102-110 | It arrives there if and only if the repeat stack has room for the frames counted by `Room`; otherwise it trips the assertion on a full stack |
| Nesting.RunReopened | src/interpreter.h:102-110 | A block that ends in a bodiless block: on its last pass its frame is replaced; with a pass to go it starts over one frame deeper, which ends after one more pass if the inner count is zero and never otherwise |
| Nesting.StaleIsIllNested | src/interpreter.h:102-110 | Frames are left live exactly by code that is not well nested; well-nested code flows as it unrolls and needs as many frames as it is deep |
| Nesting.EmptyAtEnd | src/interpreter.h:102-110 | A bodiless block at the end of a block passes that end with its own fetch: the outer frame is replaced, or starts over one frame deeper |
| BlockRepeats.SharedEndEscapes | src/interpreter.h:102-110 | The one fetch at a shared end: the inner frame is dropped, the outer one neither dropped nor repeated |
| Contexts.InterruptIsTransparent | src/interpreter.h:1139-1197 | Entry and return restore pc, sp, ie, all flags, all banks and ar/arp whatever the handler did to them; a1, b1 and repc too when shadowed, and otherwise exactly when the handler left them alone |
| Contexts.PopUndoesPush | src/interpreter.h:29-51 | What was pushed is popped, in either word order and across a wrap of the stack pointer |
| Contexts.PopsExactly | src/interpreter.h:41-56 | The return address is made up of the two words on the stack, in the order of `cpc`, and passes the assertion if and only if it has 18 bits |
| Contexts.SwitchSaves | include/teakra/impl/register.h:241-333 | Flags, banks and settings are in the shadows after a switch |
| Contexts.SwitchRestores | include/teakra/impl/register.h:241-333 | They come out of the shadows on the way back |
| Contexts.ReticSkips | src/interpreter.h:1191-1197 | A return whose condition fails does nothing |
| Accumulators.SignExtend40 | src/common_types.h:20-34 | Sign extension from 40 bits is the two's complement value of the low 40 bits |
| Accumulators.LeftShiftOverflow | src/interpreter.h:2236 | The register test for overflow says exactly that the product does not fit 40 bits |
| Accumulators.AccFlagsMeaning | src/interpreter.h:3130-3137 | Zero, sign, extension and normalised flags in terms of the stored value |
| Accumulators.ConditionsCompare | include/teakra/impl/register.h:363-380 | After storing a value, the conditions eq, neq, gt, ge, lt and le compare it with zero |
| Accumulators.ConditionsAsk | include/teakra/impl/register.h:379-400 | The others tell whether it is normalised or needs more than 32 bits, or ask for a flag or a user input |
| Accumulators.WrapIsOnly | src/interpreter.h:286-298 | What 40-bit arithmetic keeps is the one 40-bit value that differs by a multiple of 2^40 |
| Accumulators.ClampIsNearest | src/interpreter.h:2982-2992 | Saturation gives the nearest of all 32-bit values |
| Accumulators.EncodeIsModular | src/common_types.h:20-28 | A register holds its value modulo 2^64 |
| Alus.ComputationUnit.ShiftBus40 | src/interpreter.h:2220-2277 | Stores the clamp of floor(v * 2^sv) to 32 bits, or its low 40 bits with saturation disabled or in logic mode, for all 16-bit amounts; carry, overflow, limit and accumulator flags exactly; other accumulators untouched |
| Alus.ShiftStoresExactly | src/interpreter.h:2220-2277 | What a shift stores: the nearest 32-bit value to the exact result when saturating, otherwise the 40-bit value that differs from it by a multiple of 2^40 |
| Alus.ShiftFlagsExactly | src/interpreter.h:2220-2277 | Overflow exactly when an arithmetic result does not fit 40 bits, and then the sticky overflow too; the limit flag exactly when saturation changes the result; four flags of the 40-bit value; in logic mode both overflow flags stay |
| Alus.ShiftCarryExactly | src/interpreter.h:2220-2277 | The carry is bit 40 of the value shifted left, or the bit just below the point when shifting right, and the sign from 40 places on in arithmetic mode |
| Alus.Signed16Is | src/interpreter.h:2220-2226 | The shift amount is the two's complement value of sixteen bits |
| Alus.ComputationUnit.AddSub | src/interpreter.h:286-298 | The 40-bit wrap of the exact sum or difference; overflow exactly when it does not fit, carry or borrow exactly |
| Alus.SumFlagsExactly | src/interpreter.h:286-298 | Overflow and its sticky copy exactly when the exact result does not fit 40 bits, carry or borrow of the unsigned words exactly, no other flag |
| Alus.ComputationUnit.SaturateAcc | src/interpreter.h:2982-2992 | The clamp to 32 bits; the limit flag exactly when it changes the value |
| Alus.ComputationUnit.SetAccFlag | src/interpreter.h:3130-3137 | Sets four flags and no other |
| Alus.ComputationUnit.SatAndSetAccAndFlag | src/interpreter.h:3170-3176 | Stores the clamped or plain value with the flags of the plain one, and keeps all accumulators sign extended |
| Alus.SatFlagsExactly | src/interpreter.h:3170-3176 | The limit flag exactly when the stored value is not the plain one; four flags of the plain one; the rest stays |
| Alus.SaturatedIs | src/interpreter.h:3170-3176 | With saturation disabled a value is stored as it is, otherwise the nearest of 32 bits |
| Alus.IndexIsInjective | src/interpreter.h:2945-2980 | The four accumulators are four different places |
| Alus.ComputationUnit.Exp | src/interpreter.h:2353-2365 | The shift that brings the top significant bit just below the sign bit of 32 |
| Alus.ExpUnique | src/interpreter.h:2353-2365 | There is only one such shift |
| Alus.ExponentScales | src/interpreter.h:2353-2365 | Scaling by it gives a 32-bit value with no room to go further |
| Alus.ShiftByExpNormalises | src/interpreter.h:2220-2277 | Shifting by the exponent sets fn, clears fe and fv, and neither saturates nor loses anything, for positive, zero and negative exponents |
| Alus.ComputationUnit.Divs | src/interpreter.h:2559-2568 | One restoring division step on the value of the accumulator |
| Alus.DivisionSteps | src/interpreter.h:2559-2568 | k steps leave remainder and quotient by d * 2^(16 - k), packed, and no step wraps |
| Alus.SixteenStepsDivide | src/interpreter.h:2559-2568 | Sixteen steps leave (x mod d) * 2^16 + x div d |
| Multipliers.MultiplicationUnit.DoMultiplication | src/interpreter.h:267-284 | The 33-bit product register holds the exact product in all four signedness modes, after the half-word selection |
| Multipliers.MultiplicationIsExact | src/interpreter.h:275-283 | Multiplying the sign-extended words modulo 2^32 and adding the extension bit is exact |
| Multipliers.MultiplicationUnit.ProductToBus40 | src/interpreter.h:3587-3608 | The register of the product times 1, 1/2 rounded down, 2 or 4, always within 40 bits |
| Multipliers.MultiplicationUnit.MulGeneric | src/interpreter.h:1438-1469 | The old product, or its high part for maa and maasu, is accumulated before the new one replaces it, with carry, overflow, limit and accumulator flags exact; the signedness of each of the eight operations; with saturation disabled this is one step of the run above |
| Multipliers.MultiplicationUnit.Accumulate | src/interpreter.h:1440-1447 | The accumulation alone, its stored value and all its flags |
| Multipliers.MacRunSums | src/interpreter.h:1438-1469 | Over any run of accumulating operations in any mixture, the accumulator is its start plus what each pending product is worth, modulo 2^40: the scaled product, or for maa and maasu the number of whole 2^16 in it; the last product is pending |
| Multipliers.AccumulatedFlagsExactly | src/interpreter.h:1440-1447 | All flags of an accumulation, in terms of the two values |
| Multipliers.ScaledIs | src/interpreter.h:3587-3608 | The four scalings as sums: the product, half of it rounded down, twice, four times |
| Multipliers.HalfWordsAreBytes | src/interpreter.h:270-274 | The half-word modes select the two bytes of y, by mode or by unit |
| AddressUnits.StepsAreModular | src/interpreter.h:3516-3563 | Inside the buffer a step of one is plus or minus one modulo mod + 1, by both methods |
| AddressUnits.StepsInvert | src/interpreter.h:3516-3563 | Up and down undo each other |
| AddressUnits.DoubleStepsAreModular | src/interpreter.h:3510-3514 | Two single steps move by two modulo mod + 1 |
| AddressUnits.BufferStepsAreModular | src/interpreter.h:3444-3568 | The whole stepping function: single steps in both compatibility modes, and mode-1 double steps |
| AddressUnits.StepSizesAre | src/interpreter.h:3444-3492 | The signed step of every step value: zero, one or two up or down, or the step register in use with its sign extension of 7 or 9 bits |
| AddressUnits.PlainSteps | src/interpreter.h:3564-3568 | Outside modulo mode a step is 16-bit addition |
| AddressUnits.LegacyStepIs | src/interpreter.h:3516-3549 | A step of any size by the older method: from one end of the buffer to the other, and otherwise addition in the span; a mode-2 double step that fills its span only adds |
| AddressUnits.TeakStepIs | src/interpreter.h:3550-3563 | The same by the newer method |
| AddressUnits.BufferStepIs | src/interpreter.h:3494-3564 | Which method a modulo step of each kind takes, and how often |
| AddressUnits.UpByOne | src/interpreter.h:3527-3551 | Both methods agree on a step up from any address, inside the buffer or not |
| AddressUnits.DownByOne | src/interpreter.h:3535-3559 | And on a step down |
| AddressUnits.HighBitsStay | src/interpreter.h:3542-3561 | The address bits above the mask never change, whatever the step |
| AddressUnits.OffsetAgreesWithStep | src/interpreter.h:3412-3442 | Offset +1 and step +1 agree exactly off the unused top of the mask |
| AddressUnits.SmearedIsMask | src/interpreter.h:3420-3423 | Or-ing all right shifts of a value gives the mask of its bit length |
| AddressUnits.SpanLeast | src/bit.h:12-24 | The bit length is the least number of bits that holds the value |
| AddressUnits.SpanCovers | src/bit.h:12-24 | The span covers the value and is at most twice as large |
| AddressUnits.AddressUnit.StepAddress | src/interpreter.h:3444-3568 | The loop over one or two iterations computes the stepping function |
| AddressUnits.AddressUnit.OffsetAddress | src/interpreter.h:3412-3442 | The offset address in every case that does not throw |
| AddressUnits.AddressUnit.SmearMask | src/interpreter.h:3420-3423 | The mask loop finds the mask of the modulus, one bit for zero |
| Ahbms.WritesSettle | src/ahbm.cpp:86-147 | After N writes the first floor(N / B) bursts have reached external memory in order, each from the address of its first request, and the other N mod B values wait |
| Ahbms.UnitWriteTouches | src/ahbm.cpp:101-139 | A unit write changes exactly the bytes of its aligned unit at or above its address, each to its own lane of the value |
| Ahbms.UnitWrite8Cases | src/ahbm.cpp:102-108 | An 8-bit unit is one call, with the byte of the lane that the address selects |
| Ahbms.UnitWrite16Cases | src/ahbm.cpp:109-119 | A 16-bit unit is one call, of 16 bits when aligned and of its upper byte otherwise |
| Ahbms.UnitWrite32Cases | src/ahbm.cpp:120-139 | The calls of a 32-bit unit for each of the four alignments |
| Ahbms.ReadUnitBytes | src/ahbm.cpp:42-66 | A unit read takes the bytes of its aligned unit, lowest address first; an 8-bit one in the lane of its address |
| Ahbms.ReadAfterWrite | src/ahbm.cpp:33-144 | Reading back an aligned unit gives the bytes written |
| Ahbms.HalvesMakeWord | src/ahbm.cpp:25-84 | A 16-bit read at an even and at an odd address gives the two halves of the word; a 32-bit write at an odd address the upper one |
| Ahbms.BurstShape | src/ahbm.cpp:42-70 | Bursts have 1, 4 or 8 units, one, two or four bytes apart |
| Ahbms.ServesIsBit | src/ahbm.cpp:149-157 | A mask names the DMA channels whose bits are set |
| Ahbms.ReadsFollowBursts | src/ahbm.cpp:33-75 | Read i returns unit i mod B of the burst that read i - i mod B started |
| Ahbms.AhbmChannel.WriteUnit | src/ahbm.cpp:101-144 | The handler calls of one unit, by size and alignment |
| Ahbms.AhbmChannel.WriteInternal | src/ahbm.cpp:86-147 | The object follows the burst queue of the specification |
| Ahbms.AhbmChannel.Write32 | src/ahbm.cpp:79-84 | An odd address takes the upper half of the value |
| Ahbms.AhbmChannel.Write16 | src/ahbm.cpp:76-78 | A 16-bit value joins the queue unchanged |
| Ahbms.AhbmChannel.Read32 | src/ahbm.cpp:33-75 | An empty queue is filled with one burst; the front is returned |
| Ahbms.AhbmChannel.Read16 | src/ahbm.cpp:25-32 | The half that the address selects |
| Ahbms.GetChannelForDma | src/ahbm.cpp:149-157 | The first channel whose mask names the DMA channel, or 0 |
| Dmas.Dma.DoDma | src/dma.cpp:15-27 | Picks the bridge channel that serves the DMA channel, ends, having made every transfer of the loop nest in order, and interrupts exactly once |
| Dmas.Dma.RunChannel | src/dma.cpp:20-24 | The loop over the ticks makes every transfer of the nest, in order |
| Dmas.TransferSettles | src/dma.cpp:78-104 | A transfer to an idle bridge has written the whole bursts of its values to their addresses, and the values after the last whole burst wait |
| Dmas.MovesAreWrites | src/dma.cpp:62-104 | Transfers to the bridge are exactly the writes of their fetched values, when nothing is prefetched through it |
| Dmas.BothWaysExactly | src/dma.cpp:62-104 | Reading and writing through one idle bridge channel, the first n transfers are their writes, for any n, if and only if none is made, or units move one by one, or the unit size is unknown, the bursts are whole and the burst register already holds the address of the last one |
| Dmas.MovesAreReads | src/dma.cpp:40-65 | Transfers from the bridge elsewhere are exactly the reads of their source addresses, and transfer i fetches unit i mod B of the burst begun at the source address of transfer i - i mod B |
| Dmas.SharedToBridge | src/dma.cpp:40-104 | From shared memory to the bridge, request i carries the word at 0x20000 plus its source address, or the two words of the even pair around it, low half first, of which an odd destination takes the upper half |
| Dmas.SharedArrives | src/dma.cpp:40-104 | From shared to shared memory, a word holds what stood at the source of the last transfer to it just before |
| Dmas.TransferArrives | src/dma.cpp:40-104 | From an idle bridge, a word of shared memory holds the unit that the last transfer to it fetched, the even word of a double word its lower half |
| Dmas.TransferSpares | src/dma.cpp:60-104 | And a word that no transfer goes to is as before |
| Dmas.OtherSpaces | src/dma.cpp:40-104 | Other memory spaces read zero and swallow writes |
| Dmas.TransferAddresses | src/dma.cpp:112-134 | Transfer (i2, i1, i0) is number (i2 * n1 + i1) * n0 + i0 of n2 * n1 * n0, and its address on both sides is the base plus step0 * (i0 + (n0 - 1) * (i1 + n1 * i2)) + step1 * (i1 + (n1 - 1) * i2) + step2 * i2, modulo 2^32 |
| Dmas.CountsAre | src/dma.cpp:78-134 | The three counts are the sizes, at least one, with half the row size rounded up in double-word mode |
| Dmas.AdvanceFollowsNest | src/dma.cpp:112-134 | A tick moves counters and addresses to the next transfer of the nest, and stops after the last |
| Dmas.StopsExactly | src/dma.cpp:78-117 | The channel stops if and only if it is not in double-word mode with size 0xFFFF |
| Dmas.Dma.StartChannel | src/dma.cpp:29-36 | Counters at zero, addresses from the two halves |
| Dmas.Dma.Tick | src/dma.cpp:38-135 | One transfer and one advance of the counters |
| Dmas.Dma.FetchUnit | src/dma.cpp:40-65 | The value read from shared memory or the bridge, in either width |
| Dmas.Dma.DepositUnit | src/dma.cpp:60-78 | The value written, in either width |
| Dmas.Dma.AdvanceCounters | src/dma.cpp:112-134 | Three nested counters with 16-bit wrap-around |
| Sha256s.Sha256 | src/makedsp1/sha256.cpp:83-152 | Initialising, updating with any list of chunks and finishing gives the FIPS 180-4 digest of their concatenation |
| Sha256Example.AbcDigest | src/makedsp1/sha256.cpp:24-152 | The digest of "abc" is the one that FIPS 180-2 gives in appendix B.1, through all sixty-four rounds |
| Sha256s.Context.Init | src/makedsp1/sha256.cpp:83-94 | The context of the empty message |
| Sha256s.Context.Prepare | src/makedsp1/sha256.cpp:46-49 | The message schedule of FIPS 180-4, section 6.2.2, step 1 |
| Sha256s.Context.Transform | src/makedsp1/sha256.cpp:43-81 | The state becomes the next intermediate hash value of section 6.2.2 |
| Sha256s.Context.Update | src/makedsp1/sha256.cpp:96-108 | A context that holds a message then holds that message and the chunk |
| Sha256s.Context.Turn | src/makedsp1/sha256.cpp:99-107 | One turn of that loop on a chunk of any length: the byte at the index joins the message and the 32-bit index moves on |
| Sha256s.Context.Final | src/makedsp1/sha256.cpp:110-152 | The digest of the message held, padded as in section 5.1.1 |
| Sha256s.ZeroBytesAreLeast | src/makedsp1/sha256.cpp:116-127 | The padding has the fewest zero bytes that complete a block |
| Sha256s.LengthIsBigEndian | src/makedsp1/sha256.cpp:129-137 | The length field is the number of bits, its highest byte first |
| Sha256s.DigestShort | src/makedsp1/sha256.cpp:116-138 | With fewer than 56 bytes left over, one padded block ends the hash |
| Sha256s.DigestLong | src/makedsp1/sha256.cpp:120-138 | Otherwise two blocks end it |
| Sha256s.UpdateEndsExactly | src/makedsp1/sha256.cpp:96-99 | The index that the loop of `Update` has after n turns reaches the length of the chunk for some n if and only if the chunk is shorter than 2^32 bytes |
| Parsers.BuildAndParse | src/parser.cpp:43-90 | Building succeeds if and only if no two opcodes clash; the parse is then valid exactly when an error-free opcode prints as the tokens, and names the smallest one with its expansion |
| Parsers.TableInvertsPrinter | src/parser.cpp:61-90 | The table of entries inverts the printer |
| Parsers.AssertionHoldsExactly | src/parser.cpp:81-84 | The assertion holds throughout if and only if no two opcodes clash |
| Parsers.BitSubsetIs | src/parser.cpp:81-84 | The asserted test says that every bit of the earlier opcode is a bit of the later one |
| Parsers.ErrorIsIllegible | src/parser.cpp:66-70 | An error report anywhere in any token excludes an opcode |
| Parsers.IllegibleHasError | src/parser.cpp:66-70 | And nothing else does |
| Parsers.PrintThenParse | src/parser.cpp:43-90 | Parsing what an error-free opcode prints gives an opcode that prints the same, is no larger and has no other bits |
| Parsers.GenerateParser | src/parser.cpp:61-90 | A trie of distinct nodes that holds exactly the table, or a failed assertion |
| Parsers.Parser.Walk | src/parser.cpp:73-79 | The path of a token list exists afterwards and no entry has changed |
| Parsers.Parser.Enter | src/parser.cpp:64-87 | One opcode enters unless its tokens report an error or are taken |
| Parsers.Parser.Parse | src/parser.cpp:43-58 | The walk returns the entry of the token list, or invalid |
| CornerCases.StuckTimerFires | src/timer.cpp:99-100 | A concrete timer that fires after `Skip(0)` and never by ticking |
| CornerCases.LateTransmitterDiffers | src/btdmp.cpp:72-73 | A concrete transmitter on which jump and tick differ |
| CornerCases.WrappingTransmitterIsLate | src/btdmp.cpp:25-27 | A concrete transmitter whose timer wraps in the tick after the bound, which does not fire |
| CornerCases.SpillsGoWrong | src/interpreter.h:1012-1027 | Concrete spills that are not undone: one too many for the memory, a live frame with a 19-bit address, a dead frame that reads as a live one |
| CornerCases.TimerFiresFallingIdle | src/interpreter.h:62-84 | A concrete busy machine with no signal latched whose timer fires in the cycle that begins the idling: a run of 3 is not its 3 cycles |
| CornerCases.SelfBranchEndsBlock | src/interpreter.h:102-112 | A concrete machine whose self-branch ends a block with a pass to go: the flag is raised elsewhere and a run of 3 is not its 3 cycles |
| CornerCases.SelfBranchUnderRepeat | src/interpreter.h:93-112 | The same for a self-branch under a repeat with passes to go |
| CornerCases.EndlessTransferRuns | src/dma.cpp:78-114 | A concrete transfer, in double-word mode with `size0` 0xFFFF, that never stops |
| CornerCases.BothWaysMixes | src/ahbm.cpp:86-147 | A concrete transfer from the bridge to the bridge in bursts of four, which after one or more units is not its writes |
| CornerCases.NoUnitsMatch | src/ahbm.cpp:86-147 | A concrete whole transfer from the bridge to the bridge with an unknown unit size, which looks like its writes |
| CornerCases.SharedEndLeavesFrame | src/interpreter.h:102-110 | A concrete program of two blocks with a shared end: its run arrives after two of four passes with one frame live |
| CornerCases.HollowTwiceTrips | src/interpreter.h:102-110 | A concrete block of a bodiless block, both with a pass to go: its run never arrives and trips the assertion |
| CornerCases.OffsetAndStepDiffer | src/interpreter.h:3412-3568 | Concrete addresses, with and without a modulus, where offset +1 and step +1 differ |
| CornerCases.LongChunkNeverEnds | src/makedsp1/sha256.cpp:96-99 | A chunk of 2^32 bytes keeps the index below its length for ever |
| CornerCases.AlikeClash | src/parser.cpp:81-84 | A concrete printer on which the assertion fails |
| CornerCases.OneInThreeBuilds | src/parser.cpp:81-84 | A concrete printer with a repeated text on which the assertion holds, 1 lying within 3 |

## Left out

- The instruction set: only the relative branch is spelled out in the cycle loop; every other instruction is an arbitrary function on registers, memory, components and interrupt controller. It cannot raise the idle flag, as in the source.
- The decode table, operand templates and disassembler text: a finite table. The parser works with an arbitrary printer.
- Processors.Interpreter.Run: holds the timed components as values and does not share the component objects of `CoreTimings.CoreTiming`; the two are tied to the same specification functions. Takes run lengths up to 2^64 - 2^16; beyond that the 64-bit sum of timer and jump in `Btdmp::Skip` can wrap.
- Processors.Interpreter.Step: program memory reads past its end, which are undefined in the source, give zero.
- The register file is one value in the cycle loop; the repeat stack, the accumulators, the product registers and the step registers are modelled again as the fields of separate classes, each with the part of the register file it uses.
- Paging and the memory-mapped window of data memory: the data memory is the 64K words of page zero, and the stack and the spilled repeat frames lie in ordinary memory.
- IdleRuns.TimelyRunIsCycles: sufficient; the exact condition on the idle heads is `IdleRuns.RunIsCyclesExactly`.
- Contexts.InterruptIsTransparent: the handler makes no further context or bank switch and leaves the shadows, `cpc`, `crep` and `ccnta` alone.
- The order of the two words of a vector address, interrupt acknowledge and mask registers: the interrupt controller is a set of enabled requests per line.
- Mutexes, atomics and signals from other threads: a run is sequential and interrupts come from component ticks or are latched before it.
- Timer scaling, which the source asserts to be off, and the bus clock of the audio port, which it does not use.
- Btdmps.Btdmp.Skip: a period of zero while transmission is enabled is excluded, because the source divides by it.
- Alus.ComputationUnit: saturation when reading accumulators, moves, logic and rounding instructions, and the combined flags of summing both products.
- AddressUnits.AddressUnit.OffsetAddress: offset -1 in modulo mode, which throws; the bit-reversed addressing of register banks; modulus registers have 9 bits.
- Dmas.Dma.Tick: reads and writes of memory spaces other than shared memory and the bridge, unimplemented in the source, read zero and write nothing; reads past the end of shared memory, undefined in the source, read zero.
- Dmas.Dma.DoDma: the registers of one of the eight channels; the others are further objects.
- Ahbms.AhbmChannel: the direction register, which only prints a warning.
- Sha256s.Context.Update: a chunk of 2^32 bytes or more is excluded, because the source loops for ever on it.
- Sha256s.Context.Final: for messages of 2^64 bits or more, which FIPS 180-4 excludes, the length field is the bit count modulo 2^64.
- The APBP, the C interface, MMIO wiring, file readers, test generators and hardware testers.
