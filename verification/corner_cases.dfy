// Concrete inputs on which the fast forms and the simple ones part, one for
// every condition in the theorems about them.
module CornerCases {
  import opened Words
  import opened Registers
  import opened Memories
  import opened Timers
  import opened Btdmps
  import opened CoreTimings
  import opened ProgramControl
  import opened Interpreters
  import opened IdleRefinement
  import opened IdleRuns
  import opened Dmas
  import AddressUnits
  import Ahbms
  import Arith
  import Bits
  import BlockRepeats
  import Nesting
  import Parsers
  import Sha256s

  // --- a timer with nothing to reload ---

  function StuckTimer(): TimerState {
    TimerState(true, false, AutoRestart, 0, 0, 0, 0, 0, 0)
  }

  // A jump over no cycles sets the counter to one, so the next tick fires an
  // interrupt that ticking alone never raises.
  lemma StuckTimerFires(n: nat)
    ensures StuckTimer().Ticks(n).irqs == 0
    ensures StuckTimer().MaxSkip() == 0 && StuckTimer().Skip(0).Tick().irqs == 1
  {
    hide TimerState.Ticks;
    StuckNeverFires(StuckTimer(), n);
    SkipNoneThenTick(StuckTimer());
  }

  // --- a transmitter whose period was lowered below its timer ---

  function LateTransmitter(): BtdmpState {
    BtdmpState(3, 5, true, true, false, [], [], 0)
  }

  // Ticking transmits at once; the jump forgets that transmit.
  lemma LateTransmitterDiffers()
    ensures LateTransmitter().Valid() && LateTransmitter().Skippable(1) && 1 <= Btdmps.MaxSkip(LateTransmitter())
    ensures !InStep(LateTransmitter())
    ensures Jump(LateTransmitter(), 1) != Btdmps.Ticks(LateTransmitter(), 1)
  {
  }

  // An odd sample waits and the timer is about to wrap: the tick after the
  // bound brings the timer back to zero without a transmit.
  function WrappingTransmitter(): BtdmpState {
    BtdmpState(3, 0xFFFF, true, false, false, [7], [], 0)
  }

  lemma WrappingTransmitterIsLate()
    ensures WrappingTransmitter().Valid()
    ensures var r := WrappingTransmitter(); Btdmps.Ticks(r, Btdmps.MaxSkip(r) + 1).irqs == 0
  {
    hide Btdmps.Ticks, Btdmps.MaxSkip;
    BoundIsTightExactly(WrappingTransmitter());
  }

  // --- spills that do not come back ---

  function Spilling(live: bool, f: Frame, mem: Memory): Spill {
    Spill(RESET.(lp := live, bcn := if live then 1 else 0, stack := [f, NO_FRAME, NO_FRAME, NO_FRAME]), mem, 0)
  }

  // One spill too many for 64K words; a live frame whose start has a nineteenth
  // bit; and a dead frame whose start has its top bit set.
  lemma SpillsGoWrong(mem: Memory)
    ensures !Undone(Spilling(true, NO_FRAME, mem), 0x4001)
    ensures !Undone(Spilling(true, Frame(0x4_0000, 0, 0), mem), 1)
    ensures !Undone(Spilling(false, Frame(0x8000_0000, 0, 0), mem), 1)
  {
    hide Undone;
    RestoresUndoStoresExactly(Spilling(true, NO_FRAME, mem), 0x4001);
    assert !Narrow(Spilling(true, Frame(0x4_0000, 0, 0), mem).p.stack[0]);
    RestoresUndoStoresExactly(Spilling(true, Frame(0x4_0000, 0, 0), mem), 1);
    RestoresUndoStoresExactly(Spilling(false, Frame(0x8000_0000, 0, 0), mem), 1);
  }

  // --- runs that go wrong ---

  const NO_FLAGS := Flags(false, false, false, false, false, false, false, false, false, false)
  const NO_BITS: Bits8 := [false, false, false, false, false, false, false, false]

  // Interrupt 0 unmasked, everything else as after reset.
  const BANKED := Banked(0, false, false, 0, false, [0, 0], 0, false, false, NO_BITS, NO_BITS,
                         [true, false, false], false, false, false)

  const RESET := ProgramUnitFields.ProgramUnit(5, 0, true, false, 0, 0, true, false, 0,
                                               [NO_FRAME, NO_FRAME, NO_FRAME, NO_FRAME])

  // A branch to itself at address 5 and one-word instructions without effect
  // everywhere else.
  function OneBranch(): Isa {
    Isa(opcode => if opcode == 1 then Brr(0xFFFF_FFFF, True) else Other(false), (_, _, c) => c, _ => 0)
  }

  // Interrupts on, no signal latched, request 0 enabled for interrupt 0.
  function Started(p: ProgramUnit, comps: Timed, idle: bool, cycle: nat): Machine {
    var ar := [NO_INDIRECT, NO_INDIRECT];
    var arp := [NO_INDIRECT, NO_INDIRECT, NO_INDIRECT, NO_INDIRECT];
    var none := [false, false, false];
    var r := RegisterState(p, NO_FLAGS, BANKED, ar, arp, 0, 0, 0, 0,
                           true, 0, true, none, false, none, [false, false], [],
                           NO_FLAGS, BANKED, ar, arp, 0, 0);
    Machine(Core(r, seq(WORDS, i => if i == 5 then 1 else 0), comps, Icu({}, {0}, {}, {}, {}, map[], {}),
                 Latches(none, false, 0, false)),
            idle, cycle, [])
  }

  lemma StartedFacts(p: ProgramUnit, comps: Timed, idle: bool, cycle: nat)
    ensures var m := Started(p, comps, idle, cycle);
            && Delivered(m) == m && !Takeable(m.core.regs) && m.core.regs.prog == p && m.core.comps == comps
            && m.idle == idle && m.cycle == cycle && m.core.icu.enabled0 == {0}
  {
  }

  lemma WordAt(p: ProgramUnit, comps: Timed, idle: bool, cycle: nat)
    requires p.pc < WORDS && p.prpage == 0
    ensures CurrentOp(OneBranch(), Started(p, comps, idle, cycle)) ==
            if p.pc == 5 then Brr(0xFFFF_FFFF, True) else Other(false)
  {
    Bits.OrZero(p.pc);
  }

  lemma Moved(p: ProgramUnit, q: ProgramUnit, comps: Timed, idle: bool, after: bool, cycle: nat)
    ensures var m := Started(p, comps, idle, cycle);
            m.(core := WithProg(m.core, q), idle := after) == Started(q, comps, after, cycle)
  {
  }

  // The cycle of the branch, and of any other instruction, from a start.
  lemma BranchCycle(p: ProgramUnit, comps: Timed, cycle: nat)
    requires p.pc == 5 && p.prpage == 0
    ensures Cycle(OneBranch(), Started(p, comps, false, cycle)) ==
            EndCycle(OneBranch(), Started(BranchBack(p), comps, true, cycle))
  {
    hide Started, BranchBack, Takeable, EndCycle, CurrentOp, Instruction, Interrupt, Delivered, Deliver, OneBranch,
        WithProg;
    var m := Started(p, comps, false, cycle);
    StartedFacts(p, comps, false, cycle);
    StartedFacts(BranchBack(p), comps, true, cycle);
    WordAt(p, comps, false, cycle);
    SelfBranchInstruction(OneBranch(), m);
    Moved(p, BranchBack(p), comps, false, true, cycle);
    NotTakenInterrupt(Started(BranchBack(p), comps, true, cycle));
    CycleOfInstruction(OneBranch(), m);
  }

  function Next(p: ProgramUnit): ProgramUnit {
    AfterFetch(NextPC(p))
  }

  lemma OtherInstruction(p: ProgramUnit, idle: bool, cycle: nat)
    requires p.pc < WORDS && p.pc != 5 && p.prpage == 0
    ensures var m := Started(p, [], idle, cycle);
            Instruction(OneBranch(), m) == m.(core := WithProg(m.core, Next(p)), idle := idle)
  {
    hide Started, CurrentOp, AfterFetch, NextPC, FetchAddress;
    StartedFacts(p, [], idle, cycle);
    WordAt(p, [], idle, cycle);
    CurrentIs(OneBranch(), Started(p, [], idle, cycle));
  }

  lemma CurrentIs(isa: Isa, m: Machine)
    ensures CurrentOp(isa, m) == isa.decode(ProgramRead(m.core.mem, FetchAddress(m.core.regs.prog)))
  {
  }

  lemma OtherCycle(p: ProgramUnit, idle: bool, cycle: nat)
    requires p.pc < WORDS && p.pc != 5 && p.prpage == 0
    ensures Cycle(OneBranch(), Started(p, [], idle, cycle)) == EndCycle(OneBranch(), Started(Next(p), [], idle, cycle))
  {
    hide Started, Next, Takeable, EndCycle, CurrentOp, Instruction, Interrupt, Delivered, Deliver, OneBranch, WithProg;
    StartedFacts(p, [], idle, cycle);
    StartedFacts(Next(p), [], idle, cycle);
    OtherInstruction(p, idle, cycle);
    Moved(p, Next(p), [], idle, idle, cycle);
    NotTakenInterrupt(Started(Next(p), [], idle, cycle));
    CycleOfInstruction(OneBranch(), Started(p, [], idle, cycle));
  }

  lemma QuietEnd(p: ProgramUnit, idle: bool, cycle: nat)
    ensures EndCycle(OneBranch(), Started(p, [], idle, cycle)) == Started(p, [], idle, cycle + 1)
  {
    hide Signals;
    var c := Started(p, [], idle, cycle).core;
    assert Round(c.comps) == [];
    NothingSignalled(c);
  }

  lemma NothingSignalled(c: Core)
    ensures Signals(OneBranch(), c, [], [], 0) == c
  {
  }

  // With the flag raised the run executes one instruction where plain cycling
  // executes two.
  lemma RunsApart(p: ProgramUnit, cycle: nat)
    requires p.pc < WORDS && p.pc != 5 && Next(p).pc < WORDS && Next(p).pc != 5 && p.prpage == Next(p).prpage == 0
    requires Next(Next(p)) != Next(p)
    ensures RunFrom(OneBranch(), Started(p, [], true, cycle), 2) != Cycles(OneBranch(), Started(p, [], true, cycle), 2)
  {
    hide *;
    NoneTimed();
    var isa, m := OneBranch(), Started(p, [], true, cycle);
    StartedFacts(p, [], true, cycle);
    RunUnfold(isa, m, 2);
    IterationShape(isa, m, 2);
    NoBound(1);
    JumpedStarted(p, cycle);
    OtherCycle(p, true, cycle);
    OtherCycle(p, true, cycle + 1);
    QuietEnd(Next(p), true, cycle);
    QuietEnd(Next(p), true, cycle + 1);
    OtherCycle(Next(p), true, cycle + 1);
    QuietEnd(Next(Next(p)), true, cycle + 1);
    CyclesUnfold(isa, m, 0);
    CyclesUnfold(isa, m, 1);
    StartedFacts(Next(p), [], true, cycle + 2);
    StartedFacts(Next(Next(p)), [], true, cycle + 2);
    RunUnfold(isa, Started(Next(p), [], true, cycle + 2), 0);
  }

  lemma NoneTimed()
    ensures AllTimed([])
  {
  }

  lemma NoBound(maximum: nat)
    ensures MinSkip([], maximum) == maximum
  {
  }

  lemma JumpedStarted(p: ProgramUnit, cycle: nat)
    ensures AllSkippable([], 1) && AllTimed(SkipAll([], 1))
    ensures Jumped(Started(p, [], true, cycle), 1) == Started(p, [], true, cycle + 1)
  {
    assert SkipAll([], 1) == [];
  }

  // A self-branch that leaves its address spoils the run when plain
  // instructions follow.
  lemma BranchesApart(p: ProgramUnit)
    requires p.pc == 5 && p.prpage == 0
    requires BranchBack(p).pc < WORDS && BranchBack(p).pc != 5
    requires var q := Next(BranchBack(p)); q.pc < WORDS && q.pc != 5 && Next(q) != q
    ensures RunFrom(OneBranch(), Started(p, [], false, 0), 3) != Cycles(OneBranch(), Started(p, [], false, 0), 3)
  {
    hide *;
    NoneTimed();
    var isa, m, q := OneBranch(), Started(p, [], false, 0), BranchBack(p);
    BackKeepsPage(p);
    StartedFacts(p, [], false, 0);
    BranchCycle(p, [], 0);
    QuietEnd(q, true, 0);
    RunsApart(q, 1);
    RunUnfold(isa, m, 3);
    CyclesUnfold(isa, m, 0);
    CyclesAdd(isa, m, 1, 2);
  }

  lemma BackKeepsPage(p: ProgramUnit)
    ensures BranchBack(p).prpage == p.prpage && Next(BranchBack(p)).prpage == p.prpage
  {
    hide AfterFetch, NextPC;
    FetchKeepsPage(p);
    FetchKeepsPage(BranchBack(p));
  }

  lemma FetchKeepsPage(p: ProgramUnit)
    ensures AfterFetch(NextPC(p)).prpage == p.prpage
  {
  }

  // A self-branch that ends a block with a pass to go, and one under a repeat
  // with passes to go: both raise the flag and leave.
  const IN_BLOCK: ProgramUnit := RESET.(lp := true, bcn := 1, stack := [Frame(3, 5, 1), NO_FRAME, NO_FRAME, NO_FRAME])
  const UNDER_REPEAT: ProgramUnit := RESET.(rep := true, repc := 2)

  lemma SelfBranchEndsBlock()
    ensures !Stays(IN_BLOCK)
    ensures RunFrom(OneBranch(), Started(IN_BLOCK, [], false, 0), 3) !=
            Cycles(OneBranch(), Started(IN_BLOCK, [], false, 0), 3)
  {
    hide Started, OneBranch, RunFrom, Cycles;
    BranchesApart(IN_BLOCK);
  }

  lemma SelfBranchUnderRepeat()
    ensures !Stays(UNDER_REPEAT)
    ensures RunFrom(OneBranch(), Started(UNDER_REPEAT, [], false, 0), 3) !=
            Cycles(OneBranch(), Started(UNDER_REPEAT, [], false, 0), 3)
  {
    hide Started, OneBranch, RunFrom, Cycles;
    BranchesApart(UNDER_REPEAT);
  }

  // --- a component that fires in the cycle that begins the idling ---

  function Alarm(counter: u32, irqs: nat): Component {
    TimerPart(TimerState(false, false, Single, 0, 0, counter, 0, 0, irqs))
  }

  // The round that fires latches interrupt 0.
  lemma AlarmLatches(p: ProgramUnit)
    ensures var e := EndCycle(OneBranch(), Started(p, [Alarm(1, 0)], true, 0));
            e.core.latches.pending[0] && e.core.icu.enabled0 == {0}
  {
    var c := Started(p, [Alarm(1, 0)], true, 0).core;
    assert Round(c.comps) == [Alarm(0, 1)];
    SignalOnce(c.(comps := [Alarm(0, 1)]));
    hide Signals;
  }

  lemma SignalOnce(c: Core)
    ensures Signals(OneBranch(), c, [Alarm(1, 0)], [Alarm(0, 1)], 0) == TriggerSingle(c, 0)
  {
    hide TriggerSingle;
  }

  lemma ParkedStart(comps: Timed)
    ensures Parked(OneBranch(), Started(RESET, comps, true, 0)) && BranchBack(RESET) == RESET
  {
    hide Started, Takeable, CurrentOp;
    StartedFacts(RESET, comps, true, 0);
    WordAt(RESET, comps, true, 0);
    BackAlone(RESET);
  }

  lemma PendingWaits(m: Machine, comps: Timed)
    requires m.core.regs == Started(RESET, comps, true, 0).core.regs && m.core.latches.pending[0]
    ensures !Quiet(m)
  {
  }

  // A timer that fires in the very cycle that begins the idling: its interrupt
  // is entered late.
  lemma TimerFiresFallingIdle()
    ensures var m := Started(RESET, [Alarm(1, 0)], false, 0);
            !m.idle && RunFrom(OneBranch(), m, 3) != Cycles(OneBranch(), m, 3)
  {
    hide Started, OneBranch, RunFrom, Cycles, Parked, EndCycle, Cycle, Quiet, BranchBack;
    var isa, comps := OneBranch(), [Alarm(1, 0)];
    var m, i := Started(RESET, comps, false, 0), Started(RESET, comps, true, 0);
    StartedFacts(RESET, comps, false, 0);
    BranchCycle(RESET, comps, 0);
    ParkedStart(comps);
    EndCycleComps(isa, i);
    ParkedKept(isa, i, EndCycle(isa, i));
    AlarmLatches(RESET);
    PendingWaits(EndCycle(isa, i), comps);
    FiresFallingIdle(isa, m, 3);
  }

  // --- a transfer whose counter steps over its limit ---

  function EndlessTransfer(): Config {
    Config(0, 0, 0xFFFF, 1, 1, 2, 0, 0, 2, 0, 0, 0, 0, true)
  }

  lemma EndlessTransferRuns(n: nat)
    ensures EndlessTransfer().dword && EndlessTransfer().size0 == 0xFFFF
    ensures Positions(EndlessTransfer(), n).running
  {
    EndlessRuns(EndlessTransfer(), n);
  }

  // --- a transfer from the bridge to the bridge, in bursts of four ---

  function BothWays(dst: u32): Config {
    Config(0, dst, 8, 1, 1, 4, 0, 0, 4, 0, 0, 7, 7, true)
  }

  function BurstsOfFour(shared: Memory): Bus {
    Bus(shared, Ahbms.Port(2, 1, [], 0, map[], []))
  }

  lemma BothWaysMixes(shared: Memory, dst: u32, n: nat)
    requires n > 0
    ensures var c, b := BothWays(dst), BurstsOfFour(shared);
            Moves(c, b, n) != b.(port := Ahbms.WriteAll(b.port, Requests(c, b, n)))
  {
    hide Moves, Requests, Ahbms.WriteAll, DstAt, Arith.Rem;
    BothWaysExactly(BothWays(dst), BurstsOfFour(shared), n);
  }

  // With an unknown unit size nothing is transferred, and once a whole burst
  // is complete nothing shows that reads came in between.
  function OneBurst(dst: u32): Config {
    Config(0, dst, 8, 1, 1, 0, 0, 0, 0, 0, 0, 7, 7, true)
  }

  function NoUnits(shared: Memory, dst: u32): Bus {
    Bus(shared, Ahbms.Port(3, 1, [], dst, map[], []))
  }

  lemma NoUnitsMatch(shared: Memory, dst: u32, n: nat)
    requires n == Total(OneBurst(dst))
    ensures n == 4
    ensures var c, b := OneBurst(dst), NoUnits(shared, dst);
            Moves(c, b, n) == b.(port := Ahbms.WriteAll(b.port, Requests(c, b, n)))
  {
    hide Moves, Requests, Ahbms.WriteAll, Total, DstAt, Arith.Rem;
    TotalIsProduct(OneBurst(dst));
    FirstAddress(dst);
    Arith.QuotRemOfTimes(1, 4);
    BothWaysExactly(OneBurst(dst), NoUnits(shared, dst), n);
  }

  lemma FirstAddress(dst: u32)
    ensures DstAt(OneBurst(dst), 0) == dst
  {
    hide Total;
    StartsAtZero(OneBurst(dst));
  }

  // --- two blocks that end at the same word ---

  function One(): BlockRepeats.Code {
    BlockRepeats.Op(0, 1, BlockRepeats.End)
  }

  function Inner(): BlockRepeats.Code {
    BlockRepeats.Loop(1, One(), BlockRepeats.End)
  }

  function SharedEnd(): BlockRepeats.Code {
    BlockRepeats.Loop(1, Inner(), BlockRepeats.End)
  }

  // The two block repeats at 0 and 2, the instruction at 4, and another at 5.
  function SharedProgram(): BlockRepeats.Program {
    map[0 := BlockRepeats.StartBlock(1, 4), 2 := BlockRepeats.StartBlock(1, 4),
        4 := BlockRepeats.Plain(0, 1), 5 := BlockRepeats.Plain(1, 1)]
  }

  const AT_ZERO: ProgramUnit := RESET.(pc := 0)

  lemma OneValues(c: BlockRepeats.Code)
    requires c.Op? && c.id == 0 && c.words == 1 && c.rest == BlockRepeats.End
    ensures BlockRepeats.Size(c) == 1 && BlockRepeats.Depth(c) == 0 && BlockRepeats.Unroll(c) == [0]
    ensures Nesting.Closes(c) && Nesting.Worded(c)
  {
    BlockRepeats.DepthOf(c);
    BlockRepeats.UnrollHead(c);
    BlockRepeats.HeadSizes(c);
    Nesting.EndOfCode();
    NothingUnrolls();
  }

  lemma InnerValues(c: BlockRepeats.Code)
    requires c.Loop? && c.lc == 1 && c.body == One() && c.rest == BlockRepeats.End
    ensures BlockRepeats.Size(c) == 3 && BlockRepeats.HeadTrace(c) == [0, 0]
    ensures Nesting.Stale(c) == 0 && Nesting.Room(c) == 1 && Nesting.Flow(c) == [0, 0]
  {
    hide Nesting.HeadStale, Nesting.HeadFlow, Nesting.HeadRoom, BlockRepeats.Unroll, Nesting.Closes, Nesting.Stale,
        Nesting.Flow, Nesting.Room, BlockRepeats.Size, BlockRepeats.Depth;
    OneValues(c.body);
    assert BlockRepeats.Repeated([0], 2) == BlockRepeats.Repeated([0], 1) + [0] == [0, 0];
    Nesting.Closed(c);
    Nesting.RoomOf(c);
    Nesting.EndOfCode();
    BlockRepeats.HeadSizes(c);
  }

  lemma InnerStaysOpen()
    ensures !Nesting.Closes(Inner()) && !Nesting.Reopens(Inner())
    ensures !BlockRepeats.WellNested(SharedEnd())
  {
  }

  lemma SharedEndValues()
    ensures Nesting.Stale(SharedEnd()) == 1 && Nesting.Flow(SharedEnd()) == [0, 0]
    ensures BlockRepeats.Size(SharedEnd()) == 5 && Nesting.Room(SharedEnd()) == 2
    ensures BlockRepeats.Unroll(SharedEnd()) == [0, 0, 0, 0]
  {
    hide Nesting.HeadStale, Nesting.HeadFlow, Nesting.HeadRoom, Nesting.Closes, Nesting.Reopens, Nesting.Stale,
        Nesting.Flow, Nesting.Room, BlockRepeats.Unroll, BlockRepeats.Size, One;
    InnerValues(Inner());
    InnerStaysOpen();
    Nesting.BlockCases(SharedEnd());
    Nesting.RoomOf(SharedEnd());
    Nesting.EndOfCode();
    BlockRepeats.HeadSizes(SharedEnd());
    SharedEndUnrolls();
  }

  lemma SharedEndUnrolls()
    ensures BlockRepeats.Unroll(SharedEnd()) == [0, 0, 0, 0]
  {
    hide BlockRepeats.Unroll;
    InnerValues(Inner());
    assert BlockRepeats.Repeated([0, 0], 2) == BlockRepeats.Repeated([0, 0], 1) + [0, 0] == [0, 0, 0, 0];
    BlockRepeats.UnrollHead(Inner());
    BlockRepeats.UnrollHead(SharedEnd());
    NothingUnrolls();
  }

  lemma NothingUnrolls()
    ensures BlockRepeats.Unroll(BlockRepeats.End) == []
  {
  }

  // The run from 0 arrives at 5 after two passes of four, with one frame live.
  lemma SharedEndLeavesFrame()
    ensures Nesting.Reaches(SharedProgram(), BlockRepeats.Exec(AT_ZERO, []), 5)
    ensures forall n, f :: Nesting.Arrives(SharedProgram(), BlockRepeats.Exec(AT_ZERO, []), 5, n, f) ==>
      f.trace == [0, 0] && f.p.lp && f.p.bcn == 1
  {
    hide Nesting.Stale, Nesting.Flow, Nesting.Room, Nesting.Arrives, Nesting.Reaches, BlockRepeats.Unroll,
        BlockRepeats.Size;
    var prog, e, c := SharedProgram(), BlockRepeats.Exec(AT_ZERO, []), SharedEnd();
    SharedEndValues();
    SharedEndPlaced();
    Nesting.ArrivesExactly(prog, e, c);
    forall n, f | Nesting.Arrives(prog, e, 5, n, f)
      ensures f.trace == [0, 0] && f.p.lp && f.p.bcn == 1
    {
      Nesting.NestingExactly(prog, e, c, n, f);
    }
  }

  lemma LaidLast(prog: BlockRepeats.Program, base: nat, c: BlockRepeats.Code)
    requires c.Loop? && c.rest == BlockRepeats.End && base + 1 + BlockRepeats.Size(c.body) < 0x4_0000
    requires base in prog && prog[base] == BlockRepeats.StartBlock(c.lc, base + 1 + BlockRepeats.Size(c.body))
    requires BlockRepeats.Laid(prog, base + 2, c.body) && Nesting.Worded(c.body)
    ensures BlockRepeats.Laid(prog, base, c) && Nesting.Worded(c)
  {
  }

  lemma OneLaid(prog: BlockRepeats.Program, base: nat, c: BlockRepeats.Code)
    requires c.Op? && c.words == 1 && c.rest == BlockRepeats.End
    requires base in prog && prog[base] == BlockRepeats.Plain(c.id, 1)
    ensures BlockRepeats.Laid(prog, base, c)
  {
  }

  lemma SharedEndLaid()
    ensures BlockRepeats.Laid(SharedProgram(), 0, SharedEnd()) && Nesting.Worded(SharedEnd())
  {
    hide BlockRepeats.Laid, Nesting.Worded, BlockRepeats.Size;
    OneValues(One());
    InnerValues(Inner());
    OneLaid(SharedProgram(), 4, One());
    LaidLast(SharedProgram(), 2, Inner());
    LaidLast(SharedProgram(), 0, SharedEnd());
  }

  lemma SharedEndPlaced()
    ensures Nesting.Placed(SharedProgram(), BlockRepeats.Exec(AT_ZERO, []), SharedEnd())
  {
    hide SharedProgram, SharedEnd, BlockRepeats.Laid, Nesting.Worded, BlockRepeats.Size;
    SharedEndLaid();
    SharedEndValues();
  }

  // --- a block repeat whose body is a block repeat without a body ---

  function Hollow(): BlockRepeats.Code {
    BlockRepeats.Loop(1, BlockRepeats.End, BlockRepeats.End)
  }

  function HollowTwice(): BlockRepeats.Code {
    BlockRepeats.Loop(1, Hollow(), BlockRepeats.End)
  }

  function HollowProgram(): BlockRepeats.Program {
    map[0 := BlockRepeats.StartBlock(1, 3), 2 := BlockRepeats.StartBlock(1, 3)]
  }

  lemma HollowValues(c: BlockRepeats.Code)
    requires c.Loop? && c.lc == 1 && c.body == BlockRepeats.End && c.rest == BlockRepeats.End
    ensures BlockRepeats.Size(c) == 2 && Nesting.Worded(c)
    ensures !Nesting.Closes(c) && Nesting.Reopens(c) && Nesting.LastCount(c) == 1
  {
    BlockRepeats.HeadSizes(c);
    Nesting.EndOfCode();
  }

  lemma HollowPlaced()
    ensures Nesting.Placed(HollowProgram(), BlockRepeats.Exec(AT_ZERO, []), HollowTwice())
    ensures BlockRepeats.Size(HollowTwice()) == 4
  {
    hide BlockRepeats.Size, Nesting.Worded, BlockRepeats.Laid;
    HollowValues(Hollow());
    Nesting.EndOfCode();
    NothingLaid(HollowProgram(), 4);
    LaidLast(HollowProgram(), 2, Hollow());
    LaidLast(HollowProgram(), 0, HollowTwice());
    BlockRepeats.HeadSizes(HollowTwice());
  }

  lemma NothingLaid(prog: BlockRepeats.Program, base: nat)
    ensures BlockRepeats.Laid(prog, base, BlockRepeats.End) && Nesting.Worded(BlockRepeats.End)
  {
  }

  // Every pass opens a frame more, until the stack is full.
  lemma HollowTwiceTrips()
    ensures Nesting.Trips(HollowProgram(), BlockRepeats.Exec(AT_ZERO, []))
    ensures !Nesting.Reaches(HollowProgram(), BlockRepeats.Exec(AT_ZERO, []), 4)
  {
    hide Nesting.Closes, Nesting.Reopens, Nesting.Placed, Nesting.Room, Nesting.HeadRoom, Nesting.HeadStale,
        Nesting.HeadFlow, Nesting.Trips, Nesting.Reaches, BlockRepeats.Size;
    HollowPlaced();
    HollowValues(Hollow());
    Nesting.BlockCases(HollowTwice());
    Nesting.RoomOf(HollowTwice());
    Nesting.ArrivesExactly(HollowProgram(), BlockRepeats.Exec(AT_ZERO, []), HollowTwice());
  }

  // --- address 3 in a buffer of three words, address 1 without a modulus ---

  function Buffer(mod: nat): AddressUnits.StepConfig
    requires mod < 0x200
  {
    AddressUnits.StepConfig(false, false, true, false, mod, 0, 0)
  }

  lemma OffsetAndStepDiffer()
    ensures AddressUnits.OffsetUp(Buffer(2), 3, false) !=
            AddressUnits.Stepped(Buffer(2), 3, AddressUnits.Increase, false)
    ensures AddressUnits.OffsetUp(Buffer(0), 1, false) !=
            AddressUnits.Stepped(Buffer(0), 1, AddressUnits.Increase, false)
  {
    hide AddressUnits.OffsetUp, AddressUnits.Stepped;
    assert AddressUnits.Log2p1(2) == 2 && AddressUnits.Span(2) == 4;
    AddressUnits.OffsetAgreesWithStep(Buffer(2), 3);
    AddressUnits.OffsetAgreesWithStep(Buffer(0), 1);
  }

  // --- a chunk as long as the range of the index ---

  lemma LongChunkNeverEnds(n: nat)
    ensures Sha256s.IndexAfter(n) < 0x1_0000_0000
    ensures !(exists turns :: Sha256s.IndexAfter(turns) >= 0x1_0000_0000)
  {
    Sha256s.UpdateEndsExactly(0x1_0000_0000);
  }

  // --- two opcodes with the same text and different bits ---

  function Alike(): Parsers.Printer {
    Parsers.Printer(o => if o == 0 then ["zero"] else ["nop"], _ => false)
  }

  lemma AlikeClash()
    ensures Parsers.Clashes(Alike(), 1, 2)
    ensures exists o :: !Parsers.Asserted(Alike(), o)
  {
    OneIsNotInTwo();
    assert !Parsers.Contains("nop", "[ERROR]");
    hide Parsers.BitSubset, Parsers.Table;
    Parsers.AssertedMeans(Alike(), 2, 1);
  }

  // --- two opcodes with the same text, the first within the second ---

  function Stroke(n: nat): string {
    if n == 0 then "" else "a" + Stroke(n - 1)
  }

  // 1 and 3 print alike; every other opcode has a text of its own.
  function OneInThree(): Parsers.Printer {
    Parsers.Printer((o: u16) => if o == 1 || o == 3 then ["nop"] else [Stroke(o)], _ => false)
  }

  lemma {:induction false} StrokeLength(n: nat)
    ensures |Stroke(n)| == n && forall i :: 0 <= i < n ==> Stroke(n)[i] == 'a'
  {
    if n > 0 {
      StrokeLength(n - 1);
    }
  }

  lemma StrokeIsNotNop(n: nat)
    ensures Stroke(n) != "nop"
  {
    StrokeLength(n);
    if n > 0 {
      assert Stroke(n)[0] == 'a' != "nop"[0];
    }
  }

  lemma OneIsInThree()
    ensures Parsers.BitSubset(1, 3)
  {
    assert Bits.AndNot(1, 3) == 2 * Bits.AndNot(0, 1) == 0;
  }

  lemma OneInThreeBuilds()
    ensures forall a: u16, b: u16 :: !Parsers.Clashes(OneInThree(), a, b)
    ensures forall o: u16 :: Parsers.Asserted(OneInThree(), o)
  {
    hide Parsers.BitSubset, Parsers.Legible, Parsers.Asserted;
    OneIsInThree();
    forall a: u16, b: u16 ensures !Parsers.Clashes(OneInThree(), a, b) {
      if a < b && OneInThree().text(a) == OneInThree().text(b) {
        StrokeLength(a);
        StrokeLength(b);
        StrokeIsNotNop(a);
        StrokeIsNotNop(b);
      }
    }
    Parsers.AssertionHoldsExactly(OneInThree());
  }

  lemma OneIsNotInTwo()
    ensures !Parsers.BitSubset(1, 2)
  {
  }
}
