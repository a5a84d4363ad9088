// The cycle loop of the processor, with its idle shortcut.
module Interpreters {
  import opened Words
  import opened Bits
  import opened Registers
  import opened Memories
  import opened Btdmps
  import opened CoreTimings
  import opened ProgramControl
  import opened Contexts

  // Only the relative branch is spelled out: it alone can start an idle
  // stretch. `Other` stands for the rest of the instruction set.
  datatype Op = Brr(rel: u32, cond: Cond) | Other(expanded: bool)

  // The instruction set as the loop sees it: `exec` may change anything in
  // the machine but the loop's own idle flag. `lines` says which request of
  // the interrupt controller each component raises.
  datatype Isa = Isa(decode: u16 -> Op, exec: (u16, u16, Core) -> Core, lines: nat -> nat)

  // The interrupt controller: which requests reach which of the three
  // interrupts and the vectored one.
  datatype Icu = Icu(
    request: set<nat>, enabled0: set<nat>, enabled1: set<nat>, enabled2: set<nat>,
    vectored: set<nat>, vector: map<nat, u32>, contextSwitch: set<nat>)

  // What the controller has signalled and the processor has not yet taken over.
  datatype Latches = Latches(pending: Bits3, vpending: bool, vaddress: u32, vcontext: bool)

  // Components whose jumps are defined for any run length of 32 bits.
  type Timed = cs: Components | AllTimed(cs) witness []

  predicate AllTimed(cs: Components) {
    AllValid(cs) && forall i :: 0 <= i < |cs| ==> cs[i].Skippable(0xFFFF_FFFF_FFFF_0000)
  }

  datatype Core = Core(regs: RegisterState, mem: Memory, comps: Timed, icu: Icu, latches: Latches)

  // An interrupt entry: in which cycle, and where to.
  datatype Entry = Entry(cycle: nat, vector: u32)

  datatype Machine = Machine(core: Core, idle: bool, cycle: nat, entries: seq<Entry>)

  // A request reaches the latches of every interrupt it is enabled for.
  function TriggerSingle(c: Core, irq: nat): Core {
    var p := c.latches.pending;
    var l := c.latches.(pending := [p[0] || irq in c.icu.enabled0,
                                    p[1] || irq in c.icu.enabled1,
                                    p[2] || irq in c.icu.enabled2]);
    c.(icu := c.icu.(request := c.icu.request + {irq}),
       latches := if irq !in c.icu.vectored then l
                  else l.(vpending := true,
                          vaddress := if irq in c.icu.vector then c.icu.vector[irq] else 0,
                          vcontext := irq in c.icu.contextSwitch))
  }

  // The handlers of the components that fired in this round, in order.
  function Signals(isa: Isa, c: Core, before: Components, after: Components, i: nat): Core
    requires |before| == |after| && i <= |before|
    decreases |before| - i
  {
    if i == |before| then c
    else
      var d := if after[i].Irqs() != before[i].Irqs() then TriggerSingle(c, isa.lines(i)) else c;
      Signals(isa, d, before, after, i + 1)
  }

  // One tick of every component.
  function TickAll(isa: Isa, c: Core): Core {
    TimedRound(c.comps);
    Signals(isa, c.(comps := Round(c.comps)), c.comps, Round(c.comps), 0)
  }

  // The processor takes the latched signals over.
  function Deliver(c: Core): Core {
    var p, ip := c.latches.pending, c.regs.ip;
    c.(regs := c.regs.(ip := [ip[0] || p[0], ip[1] || p[1], ip[2] || p[2]], ipv := c.regs.ipv || c.latches.vpending),
       latches := c.latches.(pending := [false, false, false], vpending := false))
  }

  function FetchAddress(p: ProgramUnit): nat {
    Or(p.pc, p.prpage * 0x4_0000)
  }

  function NextPC(p: ProgramUnit): ProgramUnit {
    p.(pc := (p.pc + 1) % 0x1_0000_0000)
  }

  function WithProg(c: Core, p: ProgramUnit): Core {
    c.(regs := c.regs.(prog := p))
  }

  // A taken branch is relative to the next instruction; branching to itself
  // starts an idle stretch.
  function ExecuteBrr(m: Machine, rel: u32, cond: Cond): Machine {
    var r := m.core.regs;
    if !ConditionPass(cond, r.flags, r.iu) then m
    else m.(core := WithProg(m.core, r.prog.(pc := (r.prog.pc + rel) % 0x1_0000_0000)),
            idle := m.idle || rel == 0xFFFF_FFFF)
  }

  // Fetch, repeat control and execution of one instruction.
  function Instruction(isa: Isa, m: Machine): Machine {
    var p := m.core.regs.prog;
    var opcode := ProgramRead(m.core.mem, FetchAddress(p));
    var q := NextPC(p);
    match isa.decode(opcode)
    case Brr(rel, cond) => ExecuteBrr(m.(core := WithProg(m.core, AfterFetch(q))), rel, cond)
    case Other(false) => m.(core := isa.exec(opcode, 0, WithProg(m.core, AfterFetch(q))))
    case Other(true) =>
      var expansion := ProgramRead(m.core.mem, FetchAddress(q));
      m.(core := isa.exec(opcode, expansion, WithProg(m.core, AfterFetch(NextPC(q)))))
  }

  predicate Raised(r: RegisterState, i: nat)
    requires i < 3
  {
    r.banked.im[i] && r.ip[i]
  }

  // An interrupt will be entered at the end of the current cycle. A repeated
  // instruction is never interrupted.
  predicate Takeable(r: RegisterState) {
    r.ie && !r.prog.rep && (Raised(r, 0) || Raised(r, 1) || Raised(r, 2) || (r.banked.imv && r.ipv))
  }

  function EnterAt(m: Machine, r: RegisterState, vector: u32, switch: bool): Machine {
    var c := Enter(Context(r, m.core.mem), vector, switch);
    m.(core := m.core.(regs := c.regs, mem := c.mem), idle := false, entries := m.entries + [Entry(m.cycle, vector)])
  }

  // Interrupts 0, 1, 2 and the vectored one, the first that is raised.
  function Interrupt(m: Machine): Machine {
    var r := m.core.regs;
    if !(r.ie && !r.prog.rep) then m
    else if Raised(r, 0) then EnterAt(m, r.(ip := r.ip[0 := false]), 0x0006, r.ic[0])
    else if Raised(r, 1) then EnterAt(m, r.(ip := r.ip[1 := false]), 0x000E, r.ic[1])
    else if Raised(r, 2) then EnterAt(m, r.(ip := r.ip[2 := false]), 0x0016, r.ic[2])
    else if r.banked.imv && r.ipv then EnterAt(m, r.(ipv := false), m.core.latches.vaddress, m.core.latches.vcontext)
    else m
  }

  function EndCycle(isa: Isa, m: Machine): Machine {
    m.(core := TickAll(isa, m.core), cycle := m.cycle + 1)
  }

  // One cycle, with no shortcut taken.
  function Cycle(isa: Isa, m: Machine): Machine {
    EndCycle(isa, Interrupt(Instruction(isa, m.(core := Deliver(m.core)))))
  }

  // The reference for a run: n cycles one after the other.
  function Cycles(isa: Isa, m: Machine, n: nat): Machine {
    if n == 0 then m else Cycle(isa, Cycles(isa, m, n - 1))
  }

  // The jump at the head of an idle iteration with `left` cycles to go.
  function JumpAhead(m: Machine, left: nat): (nat, Machine)
    requires 0 < left <= 0xFFFF_FFFF_FFFF_0000
  {
    var k := MinSkip(m.core.comps, left - 1);
    TimedSkip(m.core.comps, left - 1);
    (k, m.(core := m.core.(comps := SkipAll(m.core.comps, k)), cycle := m.cycle + k))
  }

  // An idle iteration: jump, one more round if cycles remain, then a cycle.
  function IdleIteration(isa: Isa, m: Machine, left: nat): (nat, Machine)
    requires 0 < left <= 0xFFFF_FFFF_FFFF_0000
  {
    var (k, j) := JumpAhead(m, left);
    MinSkipIsLeast(m.core.comps, left - 1);
    if k < left - 1 then (k + 2, Cycle(isa, EndCycle(isa, j))) else (k + 1, Cycle(isa, j))
  }

  // The loop of Run from a loop head with `left` cycles to go.
  function RunFrom(isa: Isa, m: Machine, left: nat): Machine
    requires left <= 0xFFFF_FFFF_FFFF_0000
    decreases left
  {
    if left == 0 then m
    else if m.idle then
      IterationIsShort(isa, m, left);
      var (w, n) := IdleIteration(isa, m, left);
      RunFrom(isa, n, left - w)
    else RunFrom(isa, Cycle(isa, m), left - 1)
  }

  lemma IterationIsShort(isa: Isa, m: Machine, left: nat)
    requires 0 < left <= 0xFFFF_FFFF_FFFF_0000
    ensures 0 < IdleIteration(isa, m, left).0 <= left
  {
    MinSkipIsLeast(m.core.comps, left - 1);
  }

  lemma TimedRound(cs: Timed)
    ensures AllTimed(Round(cs))
  {
  }

  lemma TimedSkip(cs: Timed, maximum: nat)
    requires maximum <= 0xFFFF_FFFF_FFFF_0000
    ensures AllSkippable(cs, MinSkip(cs, maximum))
    ensures AllTimed(SkipAll(cs, MinSkip(cs, maximum)))
  {
    forall i | 0 <= i < |cs| ensures cs[i].Skippable(maximum) {
      SkippableLess(cs[i], 0xFFFF_FFFF_FFFF_0000, maximum);
    }
    MinSkipIsSkippable(cs, maximum);
    var k := MinSkip(cs, maximum);
    forall i | 0 <= i < |cs| ensures SkipAll(cs, k)[i].Valid() && SkipAll(cs, k)[i].Skippable(0xFFFF_FFFF_FFFF_0000) {
      TimedJump(cs[i], k);
    }
  }

  lemma TimedJump(c: Component, n: nat)
    requires c.Valid() && c.Skippable(0xFFFF_FFFF_FFFF_0000) && c.Skippable(n) && n <= c.MaxSkip()
    ensures c.Skip(n).Valid() && c.Skip(n).Skippable(0xFFFF_FFFF_FFFF_0000)
  {
    match c
    case TimerPart(t) =>
    case BtdmpPart(b) => JumpValid(b, n);
  }
}
