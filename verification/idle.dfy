// The idle shortcut of the cycle loop refines plain cycling.
module IdleRefinement {
  import opened Registers
  import opened Memories
  import opened CoreTimings
  import opened ProgramControl
  import opened Interpreters

  predicate SelfBranch(op: Op) {
    op.Brr? && op.rel == 0xFFFF_FFFF
  }

  function CurrentOp(isa: Isa, m: Machine): Op {
    isa.decode(ProgramRead(m.core.mem, FetchAddress(m.core.regs.prog)))
  }

  // Idle at a branch to itself that is taken, not repeated, and not the last
  // instruction of a block.
  predicate Parked(isa: Isa, m: Machine) {
    var op, r := CurrentOp(isa, m), m.core.regs;
    && m.idle
    && SelfBranch(op) && ConditionPass(op.cond, r.flags, r.iu)
    && !r.prog.rep && !AtBlockEnd(NextPC(r.prog))
  }

  // Taking over the latched signals lets no interrupt in.
  predicate Quiet(m: Machine) {
    !Takeable(Deliver(m.core).regs)
  }

  function Delivered(m: Machine): Machine {
    m.(core := Deliver(m.core))
  }

  // The parked branch changes nothing.
  lemma ParkedInstruction(isa: Isa, m: Machine)
    requires Parked(isa, m)
    ensures Instruction(isa, m) == m
  {
  }

  lemma DeliverKeeps(isa: Isa, m: Machine)
    ensures Parked(isa, Delivered(m)) == Parked(isa, m)
    ensures Delivered(Delivered(m)) == Delivered(m)
    ensures Delivered(m).core.comps == m.core.comps
  {
  }

  lemma NotTakenInterrupt(m: Machine)
    requires !Takeable(m.core.regs)
    ensures Interrupt(m) == m
  {
  }

  // Exactly one more entry, stamped t.
  predicate EntersAt(before: seq<Entry>, after: seq<Entry>, t: nat) {
    |after| == |before| + 1 && before <= after && after[|before|].cycle == t
  }

  lemma TakenInterrupt(m: Machine)
    requires Takeable(m.core.regs)
    ensures EntersAt(m.entries, Interrupt(m).entries, m.cycle)
    ensures Interrupt(m).core.comps == m.core.comps && Interrupt(m).cycle == m.cycle
  {
  }

  // A parked cycle either leaves the processor where it is or enters an
  // interrupt; either way the components see one round.
  lemma ParkedCycle(isa: Isa, m: Machine)
    requires Parked(isa, m)
    ensures Cycle(isa, m) == EndCycle(isa, Interrupt(Delivered(m)))
    ensures Quiet(m) ==> Cycle(isa, m) == EndCycle(isa, Delivered(m))
  {
    hide Instruction, Interrupt, EndCycle, Takeable, Parked, Deliver;
    DeliverKeeps(isa, m);
    ParkedInstruction(isa, Delivered(m));
    if Quiet(m) {
      NotTakenInterrupt(Delivered(m));
    }
  }

  function WithComps(m: Machine, cs: Timed): Machine {
    m.(core := m.core.(comps := cs))
  }

  predicate SameIrqs(a: Components, b: Components) {
    |a| == |b| && forall i :: 0 <= i < |a| ==> a[i].Irqs() == b[i].Irqs()
  }

  // Signals only touch the interrupt controller and the latches.
  lemma {:induction false} SignalsKeep(isa: Isa, c: Core, before: Components, after: Components, i: nat)
    requires |before| == |after| && i <= |before|
    ensures var d := Signals(isa, c, before, after, i);
            d.regs == c.regs && d.mem == c.mem && d.comps == c.comps
    decreases |before| - i
  {
    hide Component.Irqs;
    if i < |before| {
      SignalsKeep(isa, c, before, after, i + 1);
      SignalsKeep(isa, TriggerSingle(c, isa.lines(i)), before, after, i + 1);
    }
  }

  // Only the interrupt counts of the earlier state matter.
  lemma {:induction false} SignalsSame(isa: Isa, c: Core, a: Components, b: Components, after: Components, i: nat)
    requires SameIrqs(a, b) && |a| == |after| && i <= |a|
    ensures Signals(isa, c, a, after, i) == Signals(isa, c, b, after, i)
    decreases |a| - i
  {
    hide Component.Irqs, TriggerSingle;
    if i < |a| {
      SignalsSame(isa, c, a, b, after, i + 1);
      SignalsSame(isa, TriggerSingle(c, isa.lines(i)), a, b, after, i + 1);
    }
  }

  lemma {:induction false} SignalsSilent(isa: Isa, c: Core, before: Components, after: Components, i: nat)
    requires SameIrqs(before, after) && i <= |before|
    ensures Signals(isa, c, before, after, i) == c
    decreases |before| - i
  {
    hide Component.Irqs, TriggerSingle;
    if i < |before| {
      SignalsSilent(isa, c, before, after, i + 1);
    }
  }

  // A request as it reaches a processor whose latches are already empty.
  function Triggered(c: Core, irq: nat): Core {
    var r, l := c.regs, c.latches;
    c.(icu := c.icu.(request := c.icu.request + {irq}),
       regs := r.(ip := [r.ip[0] || irq in c.icu.enabled0,
                         r.ip[1] || irq in c.icu.enabled1,
                         r.ip[2] || irq in c.icu.enabled2],
                  ipv := r.ipv || irq in c.icu.vectored),
       latches := if irq !in c.icu.vectored then l
                  else l.(vaddress := if irq in c.icu.vector then c.icu.vector[irq] else 0,
                          vcontext := irq in c.icu.contextSwitch))
  }

  lemma DeliverTrigger(c: Core, irq: nat)
    ensures Deliver(TriggerSingle(c, irq)) == Triggered(Deliver(c), irq)
  {
  }

  lemma TriggerLate(a: Core, b: Core, irq: nat)
    requires Deliver(a) == Deliver(b)
    ensures Deliver(TriggerSingle(a, irq)) == Deliver(TriggerSingle(b, irq))
  {
    hide *;
    DeliverTrigger(a, irq);
    DeliverTrigger(b, irq);
  }

  // It makes no difference whether latched signals are taken over before or
  // after further ones arrive.
  lemma {:induction false} SignalsLate(isa: Isa, a: Core, b: Core, before: Components, after: Components, i: nat)
    requires Deliver(a) == Deliver(b) && |before| == |after| && i <= |before|
    ensures Deliver(Signals(isa, a, before, after, i)) == Deliver(Signals(isa, b, before, after, i))
    decreases |before| - i
  {
    hide Component.Irqs, TriggerSingle, Deliver;
    if i < |before| {
      TriggerLate(a, b, isa.lines(i));
      SignalsLate(isa, a, b, before, after, i + 1);
      SignalsLate(isa, TriggerSingle(a, isa.lines(i)), TriggerSingle(b, isa.lines(i)), before, after, i + 1);
    }
  }

  // The end of a cycle depends on the components only through the next round
  // and the interrupt counts.
  lemma EndCycleSame(isa: Isa, m: Machine, a: Timed, b: Timed)
    requires Round(a) == Round(b) && SameIrqs(a, b)
    ensures EndCycle(isa, WithComps(m, a)) == EndCycle(isa, WithComps(m, b))
  {
    hide Component.Irqs;
    TimedRound(a);
    TimedRound(b);
    assert |Round(a)| == |a|;
    SignalsSame(isa, m.core.(comps := Round(a)), a, b, Round(a), 0);
  }

  lemma EndCycleLate(isa: Isa, a: Machine, b: Machine)
    requires Delivered(a) == Delivered(b)
    ensures Delivered(EndCycle(isa, a)) == Delivered(EndCycle(isa, b))
  {
    hide Component.Irqs, Component.Tick;
    var cs := a.core.comps;
    assert cs == Deliver(a.core).comps == Deliver(b.core).comps == b.core.comps;
    TimedRound(cs);
    var x, y := a.core.(comps := Round(cs)), b.core.(comps := Round(cs));
    assert Deliver(x) == Deliver(a.core).(comps := Round(cs)) == Deliver(y);
    SignalsLate(isa, x, y, cs, Round(cs), 0);
  }

  lemma EndCycleSilent(isa: Isa, m: Machine)
    requires SameIrqs(m.core.comps, Round(m.core.comps))
    ensures AllTimed(Round(m.core.comps))
    ensures EndCycle(isa, m) == WithComps(m, Round(m.core.comps)).(cycle := m.cycle + 1)
  {
    hide Component.Irqs;
    TimedRound(m.core.comps);
    SignalsSilent(isa, m.core.(comps := Round(m.core.comps)), m.core.comps, Round(m.core.comps), 0);
  }

  lemma EndCycleComps(isa: Isa, m: Machine)
    ensures var e := EndCycle(isa, m);
            && e.core.comps == Round(m.core.comps) && e.core.regs == m.core.regs && e.core.mem == m.core.mem
            && e.entries == m.entries && e.cycle == m.cycle + 1 && e.idle == m.idle
  {
    TimedRound(m.core.comps);
    SignalsKeep(isa, m.core.(comps := Round(m.core.comps)), m.core.comps, Round(m.core.comps), 0);
  }

  // Where the spinning processor stands after n silent rounds, signals pending.
  function Spun(m: Machine, n: nat): Machine
    requires AllTimed(Rounds(m.core.comps, n))
  {
    WithComps(m, Rounds(m.core.comps, n)).(cycle := m.cycle + n)
  }

  lemma {:induction false} TimedRounds(cs: Timed, n: nat)
    ensures AllTimed(Rounds(cs, n))
  {
    if n > 0 {
      TimedRounds(cs, n - 1);
      TimedRound(Rounds(cs, n - 1));
    }
  }

  predicate SilentFor(cs: Components, n: nat) {
    forall j :: 0 <= j <= n ==> SameIrqs(cs, Rounds(cs, j))
  }

  lemma SilentStep(cs: Components, n: nat)
    requires SilentFor(cs, n + 1)
    ensures SilentFor(cs, n) && SameIrqs(Rounds(cs, n), Round(Rounds(cs, n)))
  {
    hide Component.Irqs, Component.Tick;
    assert SameIrqs(cs, Rounds(cs, n + 1));
  }

  lemma SpunFacts(isa: Isa, m: Machine, n: nat)
    requires Parked(isa, m) && Quiet(m)
    ensures AllTimed(Rounds(m.core.comps, n))
    ensures Parked(isa, Spun(m, n)) && Quiet(Spun(m, n))
  {
    TimedRounds(m.core.comps, n);
  }

  lemma QuietMeansDelivered(isa: Isa, a: Machine, b: Machine)
    requires Delivered(a) == Delivered(b) && Parked(isa, b) && Quiet(b)
    ensures Parked(isa, a) && Quiet(a)
  {
  }

  lemma CyclesUnfold(isa: Isa, m: Machine, n: nat)
    ensures Cycles(isa, m, 0) == m && Cycles(isa, m, n + 1) == Cycle(isa, Cycles(isa, m, n))
  {
  }

  lemma SpunZero(m: Machine)
    ensures AllTimed(Rounds(m.core.comps, 0)) && Spun(m, 0) == m
  {
  }

  // While nothing fires and nothing can be taken, cycling only moves time and
  // the components.
  lemma {:induction false} SpinsInPlace(isa: Isa, m: Machine, n: nat)
    requires Parked(isa, m) && Quiet(m) && SilentFor(m.core.comps, n)
    ensures AllTimed(Rounds(m.core.comps, n))
    ensures Delivered(Cycles(isa, m, n)) == Delivered(Spun(m, n))
  {
    hide *;
    SpunFacts(isa, m, n);
    if n == 0 {
      CyclesUnfold(isa, m, 0);
      SpunZero(m);
    } else {
      SilentStep(m.core.comps, n - 1);
      SpinsInPlace(isa, m, n - 1);
      CyclesUnfold(isa, m, n - 1);
      var x, y := Cycles(isa, m, n - 1), Spun(m, n - 1);
      SpunFacts(isa, m, n - 1);
      QuietMeansDelivered(isa, x, y);
      ParkedCycle(isa, x);
      SpunStep(isa, m, n - 1);
    }
  }

  lemma SpunStep(isa: Isa, m: Machine, n: nat)
    requires AllTimed(Rounds(m.core.comps, n)) && AllTimed(Rounds(m.core.comps, n + 1))
    requires SameIrqs(Rounds(m.core.comps, n), Round(Rounds(m.core.comps, n)))
    ensures Delivered(EndCycle(isa, Delivered(Spun(m, n)))) == Delivered(Spun(m, n + 1))
  {
    hide EndCycle, SameIrqs, AllTimed, Round, Rounds;
    EndCycleSilent(isa, Delivered(Spun(m, n)));
    assert Rounds(m.core.comps, n + 1) == Round(Rounds(m.core.comps, n)) by { RoundsUnfold(m.core.comps, n); }
  }

  lemma RoundsUnfold(cs: Components, n: nat)
    ensures Rounds(cs, n + 1) == Round(Rounds(cs, n))
  {
  }

  // The jump itself is silent when every component is ready for it.
  lemma ReadyIsSilent(cs: Timed, k: nat)
    requires AllSkippable(cs, k) && AllReady(cs)
    ensures SilentFor(cs, k) && SameIrqs(cs, SkipAll(cs, k))
  {
    hide Component.Skip, Component.MaxSkip, Component.Irqs, Component.Ready, Component.Valid, Component.Skippable;
    forall j, i | 0 <= j <= k && 0 <= i < |cs| ensures cs[i].Irqs() == Rounds(cs, j)[i].Irqs() {
      SkippedRoundsAreSilent(cs, k, j, i);
    }
    SkipKeepsIrqs(cs, k);
  }

  lemma SkipKeepsIrqs(cs: Timed, k: nat)
    requires AllSkippable(cs, k)
    ensures SameIrqs(cs, SkipAll(cs, k))
  {
    forall i | 0 <= i < |cs| ensures cs[i].Irqs() == SkipAll(cs, k)[i].Irqs() {
      SkipThenTicksExactly(cs[i], k, 0);
    }
  }

  lemma SameIrqsTrans(a: Components, b: Components, c: Components)
    requires SameIrqs(a, b) && SameIrqs(a, c)
    ensures SameIrqs(b, c)
  {
  }

  // An interrupt entry does not look at the components.
  lemma InterruptIgnoresComps(m: Machine, cs: Timed)
    ensures Interrupt(Delivered(WithComps(m, cs))) == WithComps(Interrupt(Delivered(m)), cs)
  {
    assert Delivered(WithComps(m, cs)) == WithComps(Delivered(m), cs);
    EntryIgnoresComps(Delivered(m), cs);
  }

  lemma EntryIgnoresComps(m: Machine, cs: Timed)
    ensures Interrupt(WithComps(m, cs)) == WithComps(Interrupt(m), cs)
  {
  }

  lemma EndCycleOfRest(isa: Isa, x: Machine, y: Machine, a: Timed, b: Timed)
    requires Round(a) == Round(b) && SameIrqs(a, b) && WithComps(x, b) == y && x.core.comps == a
    ensures EndCycle(isa, x) == EndCycle(isa, y)
  {
    assert WithComps(x, a) == x;
    EndCycleSame(isa, x, a, b);
  }

  // The last cycle of an iteration: the same round ends it for both.
  lemma LastCycleSame(isa: Isa, x: Machine, y: Machine, a: Timed, b: Timed)
    requires Parked(isa, x) && Parked(isa, y)
    requires x.core.comps == a && y.core.comps == b && Round(a) == Round(b) && SameIrqs(a, b)
    requires Delivered(WithComps(x, b)) == Delivered(y)
    ensures Cycle(isa, x) == Cycle(isa, y)
  {
    hide *;
    ParkedCycle(isa, x);
    ParkedCycle(isa, y);
    var ix, iy := Interrupt(Delivered(x)), Interrupt(Delivered(y));
    InterruptIgnoresComps(x, b);
    assert WithComps(ix, b) == iy;
    InterruptKeepsComps(x);
    EndCycleOfRest(isa, ix, iy, a, b);
  }

  lemma InterruptKeepsComps(m: Machine)
    ensures Interrupt(Delivered(m)).core.comps == m.core.comps
  {
  }

  // The machine right after the jump: components ahead, signals still latched.
  function Jumped(m: Machine, k: nat): Machine
    requires AllSkippable(m.core.comps, k) && AllTimed(SkipAll(m.core.comps, k))
  {
    WithComps(m, SkipAll(m.core.comps, k)).(cycle := m.cycle + k)
  }

  // The two shapes of an iteration, by whether cycles remain after the jump.
  lemma IterationShape(isa: Isa, m: Machine, left: nat)
    requires 0 < left <= 0xFFFF_FFFF_FFFF_0000
    ensures var k := MinSkip(m.core.comps, left - 1);
            var (w, f) := IdleIteration(isa, m, left);
            && k <= left - 1
            && AllSkippable(m.core.comps, k) && AllTimed(SkipAll(m.core.comps, k))
            && if k < left - 1 then w == k + 2 && f == Cycle(isa, EndCycle(isa, Jumped(m, k)))
               else w == k + 1 && f == Cycle(isa, Jumped(m, k))
  {
    hide Cycle, EndCycle, MinSkip;
    MinSkipIsLeast(m.core.comps, left - 1);
    TimedSkip(m.core.comps, left - 1);
  }

  lemma JumpedFacts(isa: Isa, m: Machine, k: nat)
    requires Parked(isa, m)
    requires AllSkippable(m.core.comps, k) && AllTimed(SkipAll(m.core.comps, k)) && AllTimed(Rounds(m.core.comps, k))
    ensures Parked(isa, Jumped(m, k)) && Quiet(Jumped(m, k)) == Quiet(m)
    ensures Delivered(WithComps(Jumped(m, k), Rounds(m.core.comps, k))) == Delivered(Spun(m, k))
  {
  }

  // With everything ready, the jump and one round reach the components of k+1 rounds.
  lemma ReadyRounds(cs: Timed, k: nat)
    requires AllSkippable(cs, k) && AllReady(cs)
    ensures Round(SkipAll(cs, k)) == Round(Rounds(cs, k)) == Rounds(cs, k + 1)
    ensures SameIrqs(SkipAll(cs, k), Rounds(cs, k))
  {
    hide Component.Irqs;
    SkipAllThenRoundsExactly(cs, k, 1);
    RoundsUnfold(cs, k);
    RoundsUnfold(SkipAll(cs, k), 0);
    assert Rounds(SkipAll(cs, k), 0) == SkipAll(cs, k);
    ReadyIsSilent(cs, k);
    SameIrqsTrans(cs, SkipAll(cs, k), Rounds(cs, k));
  }

  // Both machines stand at the parked branch with k silent rounds behind them.
  lemma AfterJump(isa: Isa, m: Machine, k: nat)
    requires Parked(isa, m) && AllReady(m.core.comps) && (Quiet(m) || k == 0)
    requires AllSkippable(m.core.comps, k) && AllTimed(SkipAll(m.core.comps, k))
    ensures AllTimed(Rounds(m.core.comps, k))
    ensures Delivered(Cycles(isa, m, k)) == Delivered(Spun(m, k))
    ensures Parked(isa, Cycles(isa, m, k)) && Cycles(isa, m, k).core.comps == Rounds(m.core.comps, k)
    ensures Cycle(isa, Jumped(m, k)) == Cycle(isa, Cycles(isa, m, k))
  {
    hide *;
    TimedRounds(m.core.comps, k);
    ReadyIsSilent(m.core.comps, k);
    ReadyRounds(m.core.comps, k);
    var x, y := Jumped(m, k), Cycles(isa, m, k);
    if k == 0 {
      CyclesUnfold(isa, m, 0);
      SpunZero(m);
    } else {
      SpinsInPlace(isa, m, k);
      SpunFacts(isa, m, k);
      QuietMeansDelivered(isa, y, Spun(m, k));
    }
    JumpedFacts(isa, m, k);
    DeliveredComps(y, Spun(m, k));
    SpunComps(m, k);
    JumpedComps(m, k);
    LastCycleSame(isa, x, y, SkipAll(m.core.comps, k), Rounds(m.core.comps, k));
  }

  lemma DeliveredComps(a: Machine, b: Machine)
    requires Delivered(a) == Delivered(b)
    ensures a.core.comps == b.core.comps
  {
  }

  lemma SpunComps(m: Machine, n: nat)
    requires AllTimed(Rounds(m.core.comps, n))
    ensures Spun(m, n).core.comps == Rounds(m.core.comps, n)
  {
  }

  lemma JumpedComps(m: Machine, k: nat)
    requires AllSkippable(m.core.comps, k) && AllTimed(SkipAll(m.core.comps, k))
    ensures Jumped(m, k).core.comps == SkipAll(m.core.comps, k)
    ensures Jumped(m, k).entries == m.entries && Jumped(m, k).cycle == m.cycle + k
  {
  }

  // The extra round may fire; taking the signals over before or after it is
  // the same, so the cycle that follows is.
  lemma ExtraRoundSame(isa: Isa, m: Machine, k: nat)
    requires Parked(isa, m) && AllReady(m.core.comps) && Quiet(m)
    requires AllSkippable(m.core.comps, k) && AllTimed(SkipAll(m.core.comps, k))
    ensures Cycle(isa, EndCycle(isa, Jumped(m, k))) == Cycle(isa, Cycle(isa, Cycles(isa, m, k)))
  {
    hide *;
    AfterJump(isa, m, k);
    ReadyRounds(m.core.comps, k);
    var y := Cycles(isa, m, k);
    SpunFacts(isa, m, k);
    QuietMeansDelivered(isa, y, Spun(m, k));
    ParkedCycle(isa, y);
    JumpedComps(m, k);
    JumpedFacts(isa, m, k);
    var z := WithComps(Jumped(m, k), Rounds(m.core.comps, k));
    WithCompsComps(Jumped(m, k), Rounds(m.core.comps, k));
    EndCycleOfRest(isa, Jumped(m, k), z, SkipAll(m.core.comps, k), Rounds(m.core.comps, k));
    DeliverKeeps(isa, y);
    assert Delivered(z) == Delivered(Delivered(y));
    EndCycleLate(isa, z, Delivered(y));
    CycleOfDelivered(isa, EndCycle(isa, z), EndCycle(isa, Delivered(y)));
  }

  lemma WithCompsComps(m: Machine, cs: Timed)
    ensures WithComps(m, cs).core.comps == cs
  {
  }

  lemma CycleOfDelivered(isa: Isa, a: Machine, b: Machine)
    requires Delivered(a) == Delivered(b)
    ensures Cycle(isa, a) == Cycle(isa, b)
  {
  }

  // An idle iteration is the cycles it stands for.
  lemma IdleIterationIsCycles(isa: Isa, m: Machine, left: nat)
    requires 0 < left <= 0xFFFF_FFFF_FFFF_0000 && Parked(isa, m) && AllReady(m.core.comps)
    requires var (w, f) := IdleIteration(isa, m, left); Quiet(m) || w == 1
    ensures var (w, f) := IdleIteration(isa, m, left); f == Cycles(isa, m, w)
  {
    hide *;
    var k := MinSkip(m.core.comps, left - 1);
    IterationShape(isa, m, left);
    AfterJump(isa, m, k);
    CyclesUnfold(isa, m, k);
    if k < left - 1 {
      ExtraRoundSame(isa, m, k);
      CyclesUnfold(isa, m, k + 1);
    }
  }

  // Any cycle records at most one interrupt entry, stamped with its own time.
  lemma CycleEntries(isa: Isa, m: Machine)
    ensures var c := Cycle(isa, m);
            && c.cycle == m.cycle + 1
            && (c.entries == m.entries || EntersAt(m.entries, c.entries, m.cycle))
  {
    var i := Instruction(isa, Delivered(m));
    assert i.entries == m.entries && i.cycle == m.cycle;
    EndCycleComps(isa, Interrupt(i));
    if Takeable(i.core.regs) {
      TakenInterrupt(i);
    } else {
      NotTakenInterrupt(i);
    }
  }

  lemma {:induction false} CyclesExtendEntries(isa: Isa, m: Machine, n: nat)
    ensures m.entries <= Cycles(isa, m, n).entries && Cycles(isa, m, n).cycle == m.cycle + n
  {
    hide Cycle;
    if n > 0 {
      CyclesExtendEntries(isa, m, n - 1);
      CycleEntries(isa, Cycles(isa, m, n - 1));
    }
  }

  lemma {:induction false} CyclesAdd(isa: Isa, m: Machine, a: nat, b: nat)
    ensures Cycles(isa, m, a + b) == Cycles(isa, Cycles(isa, m, a), b)
  {
    hide Cycle;
    if b > 0 {
      CyclesAdd(isa, m, a, b - 1);
    }
  }

  // Whether or not an interrupt is entered, the components see one round.
  lemma ParkedCycleComps(isa: Isa, m: Machine)
    requires Parked(isa, m)
    ensures Cycle(isa, m).core.comps == Round(m.core.comps)
    ensures if Quiet(m) then Cycle(isa, m).entries == m.entries && Parked(isa, Cycle(isa, m))
            else EntersAt(m.entries, Cycle(isa, m).entries, m.cycle)
  {
    hide EndCycle, Instruction, Interrupt, Cycle, Takeable;
    ParkedCycle(isa, m);
    EndCycleComps(isa, Interrupt(Delivered(m)));
    InterruptKeepsComps(m);
    if Quiet(m) {
      EndCycleComps(isa, Delivered(m));
      DeliverKeeps(isa, m);
    } else {
      TakenInterrupt(Delivered(m));
    }
  }

  // Plain cycling from a parked branch either still spins, or has entered an
  // interrupt; if it entered in the last cycle, the components are still those
  // of n rounds.
  predicate Spinning(isa: Isa, m: Machine, n: nat) {
    var c := Cycles(isa, m, n);
    Parked(isa, c) && c.entries == m.entries && c.core.comps == Rounds(m.core.comps, n)
  }

  predicate HasEntered(isa: Isa, m: Machine, n: nat) {
    var c := Cycles(isa, m, n);
    && |c.entries| > |m.entries|
    && c.entries[|m.entries|].cycle < m.cycle + n
    && (c.entries[|m.entries|].cycle + 1 == m.cycle + n ==> c.core.comps == Rounds(m.core.comps, n))
  }

  lemma {:induction false} SpinsOrEnters(isa: Isa, m: Machine, n: nat)
    requires Parked(isa, m)
    ensures Spinning(isa, m, n) || HasEntered(isa, m, n)
  {
    hide Cycle, Parked, Round, Quiet;
    if n > 0 {
      SpinsOrEnters(isa, m, n - 1);
      var c := Cycles(isa, m, n - 1);
      CyclesExtendEntries(isa, m, n - 1);
      CycleEntries(isa, c);
      if Spinning(isa, m, n - 1) {
        ParkedCycleComps(isa, c);
      }
    }
  }

  // Wherever it starts, the fast iteration takes its time and enters an
  // interrupt in its last cycle if at all.
  lemma IterationEntries(isa: Isa, m: Machine, left: nat)
    requires 0 < left <= 0xFFFF_FFFF_FFFF_0000
    ensures var (w, f) := IdleIteration(isa, m, left);
            && f.cycle == m.cycle + w
            && (f.entries == m.entries || EntersAt(m.entries, f.entries, m.cycle + w - 1))
  {
    hide *;
    var k := MinSkip(m.core.comps, left - 1);
    IterationShape(isa, m, left);
    JumpedComps(m, k);
    CycleEntries(isa, Jumped(m, k));
    EndCycleComps(isa, Jumped(m, k));
    CycleEntries(isa, EndCycle(isa, Jumped(m, k)));
  }

  // What the fast iteration does to components and entries, from a parked branch.
  lemma IterationOutcome(isa: Isa, m: Machine, left: nat)
    requires 0 < left <= 0xFFFF_FFFF_FFFF_0000 && Parked(isa, m)
    ensures var k := MinSkip(m.core.comps, left - 1);
            var (w, f) := IdleIteration(isa, m, left);
            && w > k
            && AllSkippable(m.core.comps, k)
            && f.core.comps == Rounds(SkipAll(m.core.comps, k), w - k)
            && (f.entries == m.entries || EntersAt(m.entries, f.entries, m.cycle + w - 1))
  {
    hide *;
    var k := MinSkip(m.core.comps, left - 1);
    var (w, f) := IdleIteration(isa, m, left);
    IterationShape(isa, m, left);
    var j := Jumped(m, k);
    TimedRounds(m.core.comps, k);
    JumpedFacts(isa, m, k);
    JumpedComps(m, k);
    RoundsTwice(SkipAll(m.core.comps, k));
    IterationEntries(isa, m, left);
    if k < left - 1 {
      EndCycleComps(isa, j);
      var e := EndCycle(isa, j);
      ParkedKept(isa, j, e);
      ParkedCycleComps(isa, e);
      assert w - k == 2;
    } else {
      ParkedCycleComps(isa, j);
      assert w - k == 1;
    }
  }

  lemma ParkedKept(isa: Isa, a: Machine, b: Machine)
    requires Parked(isa, a) && b.core.regs == a.core.regs && b.core.mem == a.core.mem && b.idle == a.idle
    ensures Parked(isa, b)
  {
  }

  lemma RoundsTwice(cs: Components)
    ensures Rounds(cs, 1) == Round(cs) && Rounds(cs, 2) == Round(Round(cs))
  {
  }

  lemma SameComps(isa: Isa, m: Machine, w: nat, f: Machine)
    requires Spinning(isa, m, w) || HasEntered(isa, m, w)
    requires f == Cycles(isa, m, w) && w > 0
    requires f.entries == m.entries || EntersAt(m.entries, f.entries, m.cycle + w - 1)
    ensures f.core.comps == Rounds(m.core.comps, w)
  {
    hide Parked, Rounds, Cycles;
  }

  lemma OnlyIfReady(isa: Isa, m: Machine, left: nat)
    requires 0 < left <= 0xFFFF_FFFF_FFFF_0000 && Parked(isa, m)
    requires var (w, f) := IdleIteration(isa, m, left); f == Cycles(isa, m, w)
    ensures AllReady(m.core.comps)
  {
    hide *;
    var k := MinSkip(m.core.comps, left - 1);
    var (w, f) := IdleIteration(isa, m, left);
    IterationOutcome(isa, m, left);
    SpinsOrEnters(isa, m, w);
    SameComps(isa, m, w, f);
    CompsValid(m);
    SkipAllThenRoundsExactly(m.core.comps, k, w - k);
  }

  lemma CompsValid(m: Machine)
    ensures AllValid(m.core.comps)
  {
  }

  lemma PrefixEntry(a: seq<Entry>, b: seq<Entry>, c: seq<Entry>, t: nat, u: nat)
    requires EntersAt(a, b, t) && b <= c && (c == a || EntersAt(a, c, u))
    ensures t == u
  {
  }

  lemma OnlyIfQuiet(isa: Isa, m: Machine, left: nat)
    requires 0 < left <= 0xFFFF_FFFF_FFFF_0000 && Parked(isa, m)
    requires var (w, f) := IdleIteration(isa, m, left); f == Cycles(isa, m, w)
    ensures Quiet(m) || IdleIteration(isa, m, left).0 == 1
  {
    hide *;
    var (w, f) := IdleIteration(isa, m, left);
    IterationOutcome(isa, m, left);
    if !Quiet(m) {
      ParkedCycleComps(isa, m);
      CyclesUnfold(isa, m, 0);
      CyclesAdd(isa, m, 1, w - 1);
      CyclesExtendEntries(isa, Cycles(isa, m, 1), w - 1);
      PrefixEntry(m.entries, Cycles(isa, m, 1).entries, f.entries, m.cycle, m.cycle + w - 1);
    }
  }

  // The idle shortcut is exact: an iteration equals the cycles it replaces if
  // and only if every component was ready for the jump and either no latched
  // interrupt was waiting to be taken or there was only one cycle to run.
  lemma IdleIterationExactly(isa: Isa, m: Machine, left: nat)
    requires 0 < left <= 0xFFFF_FFFF_FFFF_0000 && Parked(isa, m)
    ensures var (w, f) := IdleIteration(isa, m, left);
            f == Cycles(isa, m, w) <==> AllReady(m.core.comps) && (Quiet(m) || w == 1)
  {
    hide *;
    var (w, f) := IdleIteration(isa, m, left);
    if f == Cycles(isa, m, w) {
      OnlyIfReady(isa, m, left);
      OnlyIfQuiet(isa, m, left);
    } else if AllReady(m.core.comps) && (Quiet(m) || w == 1) {
      IdleIterationIsCycles(isa, m, left);
    }
  }
}
