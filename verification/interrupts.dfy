// How a signal becomes an interrupt, in registers and words of memory.
module InterruptEntry {
  import opened Words
  import opened Bits
  import opened Registers
  import opened Memories
  import opened CoreTimings
  import opened ProgramControl
  import opened Contexts
  import opened Interpreters

  // --- entry ---

  // The return address stands in the two words from the stack pointer on, the
  // low word first when cpc is set, and no other word has changed.
  ghost predicate Pushed(before: Memory, after: Memory, sp: u16, pc: u32, cpc: bool) {
    var x: nat, y: nat := after[0x2_0000 + sp], after[0x2_0000 + (sp + 1) % 0x1_0000];
    && pc == (if cpc then x + y * 0x1_0000 else y + x * 0x1_0000)
    && forall a :: 0 <= a < 0x4_0000 && a != 0x2_0000 + sp && a != 0x2_0000 + (sp + 1) % 0x1_0000 ==>
         after[a] == before[a]
  }

  // The saved half of a context switch, and what takes its place.
  predicate Switched(r: RegisterState, q: RegisterState) {
    && q.shadowFlags == r.flags && q.banked == r.shadowBanked && q.shadowBanked == r.banked
    && q.ar == r.shadowAr && q.shadowAr == r.ar && q.arp == r.shadowArp && q.shadowArp == r.arp
    && q.prog.repcs == (if r.prog.crep then r.prog.repcs else r.prog.repc)
    && (if r.ccnta then q.a1 == r.b1 && q.b1 == r.a1 && q.a1s == r.a1s && q.b1s == r.b1s
        else q.a1 == r.a1 && q.b1 == r.b1 && q.a1s == r.a1 && q.b1s == r.b1)
    && q.flags == if r.ccnta then AccFlags(r.flags, r.b1) else r.flags
  }

  predicate NotSwitched(r: RegisterState, q: RegisterState) {
    && q.flags == r.flags && q.shadowFlags == r.shadowFlags
    && q.banked == r.banked && q.shadowBanked == r.shadowBanked
    && q.ar == r.ar && q.shadowAr == r.shadowAr && q.arp == r.arp && q.shadowArp == r.shadowArp
    && q.prog.repcs == r.prog.repcs && q.a1 == r.a1 && q.b1 == r.b1 && q.a1s == r.a1s && q.b1s == r.b1s
  }

  // What an entry leaves alone.
  predicate Untouched(r: RegisterState, q: RegisterState) {
    && q.a0 == r.a0 && q.b0 == r.b0 && q.ccnta == r.ccnta && q.ic == r.ic && q.iu == r.iu && q.general == r.general
    && q.prog.prpage == r.prog.prpage && q.prog.cpc == r.prog.cpc && q.prog.rep == r.prog.rep
    && q.prog.repc == r.prog.repc && q.prog.crep == r.prog.crep
    && q.prog.lp == r.prog.lp && q.prog.bcn == r.prog.bcn && q.prog.stack == r.prog.stack
  }

  // n is m just after an entry to `vector`, the pending bits aside.
  ghost predicate Entered(m: Machine, n: Machine, vector: u32, switch: bool) {
    var r, q := m.core.regs, n.core.regs;
    && q.prog.pc == vector && !q.ie && !n.idle
    && q.sp == (r.sp + 0xFFFE) % 0x1_0000 && Pushed(m.core.mem, n.core.mem, q.sp, r.prog.pc, r.prog.cpc)
    && (if switch then Switched(r, q) else NotSwitched(r, q)) && Untouched(r, q)
    && n.core.comps == m.core.comps && n.core.icu == m.core.icu && n.core.latches == m.core.latches
    && n.cycle == m.cycle && n.entries == m.entries + [Entry(m.cycle, vector)]
  }

  lemma PushedWords(c: Context)
    ensures var p := PushPC(c);
            && p.regs == c.regs.(sp := (c.regs.sp + 0xFFFE) % 0x1_0000)
            && Pushed(c.mem, p.mem, p.regs.sp, c.regs.prog.pc, c.regs.prog.cpc)
  {
    assert Down(c.regs.sp, 2) == (c.regs.sp + 0xFFFE) % 0x1_0000;
    assert Down(c.regs.sp, 1) == (Down(c.regs.sp, 2) + 1) % 0x1_0000;
  }

  lemma StoreSwitches(r: RegisterState)
    ensures var q := ContextStore(r); Switched(r, q) && Untouched(r, q)
    ensures var q := ContextStore(r);
            q.prog.pc == r.prog.pc && q.sp == r.sp && q.ie == r.ie && q.ip == r.ip && q.ipv == r.ipv
  {
    hide AccFlags;
  }

  // r differs from the registers of m in its pending bits alone.
  lemma EntryIs(m: Machine, r: RegisterState, vector: u32, switch: bool)
    requires r == m.core.regs.(ip := r.ip, ipv := r.ipv)
    ensures var n := EnterAt(m, r, vector, switch);
            Entered(m, n, vector, switch) && n.core.regs.ip == r.ip && n.core.regs.ipv == r.ipv
  {
    hide AccFlags, ContextStore, PushPC, Pushed;
    var c := Context(r.(ie := false), m.core.mem);
    PushedWords(c);
    StoreSwitches(PushPC(c).regs.(prog := PushPC(c).regs.prog.(pc := vector)));
  }

  // Interrupt i, the first of the three that is enabled and pending, is entered
  // at 0x0006 + 8 * i and is no longer pending.
  lemma InterruptEnters(m: Machine, i: nat)
    requires m.core.regs.ie && !m.core.regs.prog.rep && i < 3 && m.core.regs.banked.im[i] && m.core.regs.ip[i]
    requires forall j :: 0 <= j < i ==> !(m.core.regs.banked.im[j] && m.core.regs.ip[j])
    ensures var n, r := Interrupt(m), m.core.regs;
            && Entered(m, n, 0x0006 + 8 * i, r.ic[i])
            && !n.core.regs.ip[i] && (forall j :: 0 <= j < 3 && j != i ==> n.core.regs.ip[j] == r.ip[j])
            && n.core.regs.ipv == r.ipv
  {
    hide EnterAt, Entered;
    var r := m.core.regs;
    EntryIs(m, r.(ip := r.ip[i := false]), 0x0006 + 8 * i, r.ic[i]);
  }

  // The vectored interrupt comes after all three.
  lemma VectoredEnters(m: Machine)
    requires m.core.regs.ie && !m.core.regs.prog.rep && m.core.regs.banked.imv && m.core.regs.ipv
    requires forall j :: 0 <= j < 3 ==> !(m.core.regs.banked.im[j] && m.core.regs.ip[j])
    ensures var n, r := Interrupt(m), m.core.regs;
            && Entered(m, n, m.core.latches.vaddress, m.core.latches.vcontext)
            && n.core.regs.ip == r.ip && !n.core.regs.ipv
  {
    hide EnterAt, Entered;
    EntryIs(m, m.core.regs.(ipv := false), m.core.latches.vaddress, m.core.latches.vcontext);
  }

  lemma NothingEnters(m: Machine)
    requires var r := m.core.regs;
             !r.ie || r.prog.rep ||
             (!(r.banked.imv && r.ipv) && forall j :: 0 <= j < 3 ==> !(r.banked.im[j] && r.ip[j]))
    ensures Interrupt(m) == m
  {
  }

  // --- from a component to the pending bits ---

  // The requests that line k of the controller passes on.
  function Enabled(icu: Icu, k: nat): set<nat>
    requires k < 3
  {
    [icu.enabled0, icu.enabled1, icu.enabled2][k]
  }

  // Component i fired in this round with a request in rs.
  ghost predicate Fired(isa: Isa, before: Components, after: Components, from: nat, rs: set<nat>)
    requires |before| == |after|
  {
    exists i :: from <= i < |before| && after[i].Irqs() != before[i].Irqs() && isa.lines(i) in rs
  }

  lemma TriggerReaches(c: Core, irq: nat, k: nat)
    requires k < 3
    ensures TriggerSingle(c, irq).latches.pending[k] <==> c.latches.pending[k] || irq in Enabled(c.icu, k)
    ensures TriggerSingle(c, irq).latches.vpending <==> c.latches.vpending || irq in c.icu.vectored
    ensures TriggerSingle(c, irq).icu == c.icu.(request := c.icu.request + {irq})
    ensures TriggerSingle(c, irq) == c.(icu := TriggerSingle(c, irq).icu, latches := TriggerSingle(c, irq).latches)
  {
  }

  // A latch is set in a round exactly when it was, or a component fires whose
  // request is enabled for it.
  lemma {:induction false} SignalsReach(isa: Isa, c: Core, before: Components, after: Components, i: nat, k: nat)
    requires |before| == |after| && i <= |before| && k < 3
    ensures var d := Signals(isa, c, before, after, i);
            && (d.latches.pending[k] <==> c.latches.pending[k] || Fired(isa, before, after, i, Enabled(c.icu, k)))
            && (d.latches.vpending <==> c.latches.vpending || Fired(isa, before, after, i, c.icu.vectored))
            && d.regs == c.regs && d.mem == c.mem && d.comps == c.comps
    decreases |before| - i
  {
    hide TriggerSingle;
    if i < |before| {
      TriggerReaches(c, isa.lines(i), k);
      var d := if after[i].Irqs() != before[i].Irqs() then TriggerSingle(c, isa.lines(i)) else c;
      SignalsReach(isa, d, before, after, i + 1, k);
    }
  }

  // Where a vectored request goes: the last component to fire one decides.
  lemma {:induction false} VectorOfLast(isa: Isa, c: Core, before: Components, after: Components, i: nat, last: nat)
    requires |before| == |after| && i <= last < |before|
    requires after[last].Irqs() != before[last].Irqs() && isa.lines(last) in c.icu.vectored
    requires !Fired(isa, before, after, last + 1, c.icu.vectored)
    ensures var l := Signals(isa, c, before, after, i).latches;
            && l.vaddress == (if isa.lines(last) in c.icu.vector then c.icu.vector[isa.lines(last)] else 0)
            && l.vcontext == (isa.lines(last) in c.icu.contextSwitch)
    decreases |before| - i
  {
    hide TriggerSingle;
    TriggerReaches(c, isa.lines(i), 0);
    var d := if after[i].Irqs() != before[i].Irqs() then TriggerSingle(c, isa.lines(i)) else c;
    if i < last {
      VectorOfLast(isa, d, before, after, i + 1, last);
    } else {
      TriggerVector(c, isa.lines(i));
      VectorStays(isa, d, before, after, i + 1);
    }
  }

  lemma TriggerVector(c: Core, irq: nat)
    ensures var l := TriggerSingle(c, irq).latches;
            if irq in c.icu.vectored
            then l.vaddress == (if irq in c.icu.vector then c.icu.vector[irq] else 0)
                 && l.vcontext == (irq in c.icu.contextSwitch)
            else l.vaddress == c.latches.vaddress && l.vcontext == c.latches.vcontext
  {
  }

  lemma {:induction false} VectorStays(isa: Isa, c: Core, before: Components, after: Components, i: nat)
    requires |before| == |after| && i <= |before| && !Fired(isa, before, after, i, c.icu.vectored)
    ensures var l := Signals(isa, c, before, after, i).latches;
            l.vaddress == c.latches.vaddress && l.vcontext == c.latches.vcontext
    decreases |before| - i
  {
    hide TriggerSingle;
    if i < |before| {
      TriggerReaches(c, isa.lines(i), 0);
      TriggerVector(c, isa.lines(i));
      var d := if after[i].Irqs() != before[i].Irqs() then TriggerSingle(c, isa.lines(i)) else c;
      VectorStays(isa, d, before, after, i + 1);
    }
  }

  // A component that fires at the end of a cycle is pending in the next one,
  // for every interrupt its request is enabled for, and nothing else is.
  lemma FiredIsPending(isa: Isa, m: Machine, k: nat)
    requires k < 3
    ensures var c := m.core;
            var d := Deliver(EndCycle(isa, m).core);
            && (d.regs.ip[k] <==> c.regs.ip[k] || c.latches.pending[k] ||
                                  Fired(isa, c.comps, Round(c.comps), 0, Enabled(c.icu, k)))
            && (d.regs.ipv <==> c.regs.ipv || c.latches.vpending ||
                                Fired(isa, c.comps, Round(c.comps), 0, c.icu.vectored))
            && d.latches.pending == [false, false, false] && !d.latches.vpending
            && d.regs == c.regs.(ip := d.regs.ip, ipv := d.regs.ipv)
            && d.mem == c.mem && d.comps == Round(c.comps) && EndCycle(isa, m).cycle == m.cycle + 1
  {
    hide Signals, Fired, Enabled, Round;
    TimedRound(m.core.comps);
    SignalsReach(isa, m.core.(comps := Round(m.core.comps)), m.core.comps, Round(m.core.comps), 0, k);
  }

  // --- fetching ---

  lemma {:induction false} OrAbove(a: nat, b: nat, k: nat)
    requires a < Pow2(k)
    ensures Or(a, b * Pow2(k)) == a + b * Pow2(k)
  {
    hide Or, Pow2;
    Pow2Step(0);
    if k == 0 {
      OrZero(b * Pow2(0));
    } else {
      Pow2Step(k - 1);
      DoubleProduct(Pow2(k - 1), b);
      OrHalves(a, b * Pow2(k));
      OrAbove(a / 2, b, k - 1);
    }
  }

  // The page stands above the 18 bits of the program counter.
  lemma FetchAddressIs(p: ProgramUnit)
    requires p.pc < 0x4_0000
    ensures FetchAddress(p) == p.pc + p.prpage * 0x4_0000
  {
    hide Or, Pow2;
    Pow2Values();
    Pow2Step(16);
    Pow2Step(17);
    OrAbove(p.pc, p.prpage, 18);
  }

  // Where an instruction of this many words leaves the counter and the repeat
  // hardware before it is executed.
  function Past(p: ProgramUnit, words: nat): ProgramUnit
    requires p.pc + words < 0x1_0000_0000
  {
    AfterFetch(p.(pc := p.pc + words))
  }

  // An instruction is executed with the word at the program counter, and the
  // next one if it takes an expansion, after the repeat control that passing
  // both calls for.
  lemma ExecutesAtPC(isa: Isa, m: Machine)
    requires var p := m.core.regs.prog; p.pc < 0x3_FFFF && p.prpage == 0
    requires isa.decode(m.core.mem[m.core.regs.prog.pc]).Other?
    ensures var p, word := m.core.regs.prog, m.core.mem[m.core.regs.prog.pc];
            var expanded := isa.decode(word).expanded;
            var c := m.core.(regs := m.core.regs.(prog := Past(p, if expanded then 2 else 1)));
            Instruction(isa, m) == m.(core := isa.exec(word, if expanded then m.core.mem[p.pc + 1] else 0, c))
  {
    hide FetchAddress, AfterFetch;
    FetchAddressIs(m.core.regs.prog);
    FetchAddressIs(NextPC(m.core.regs.prog));
  }

  // A taken branch is relative to where that leaves the counter, and starts an
  // idle stretch when it goes back by one.
  lemma BranchesFromNext(isa: Isa, m: Machine)
    requires var p := m.core.regs.prog; p.pc < 0x3_FFFF && p.prpage == 0
    requires isa.decode(m.core.mem[m.core.regs.prog.pc]).Brr?
    ensures var r, op := m.core.regs, isa.decode(m.core.mem[m.core.regs.prog.pc]);
            var q, taken := Past(r.prog, 1), ConditionPass(op.cond, r.flags, r.iu);
            Instruction(isa, m) ==
            m.(core := m.core.(regs := r.(prog := if taken then q.(pc := (q.pc + op.rel) % 0x1_0000_0000) else q)),
               idle := m.idle || (taken && op.rel == 0xFFFF_FFFF))
  {
    hide FetchAddress, AfterFetch, ConditionPass;
    FetchAddressIs(m.core.regs.prog);
  }

  // With nothing to repeat that is simply the next word.
  lemma PastIsNext(p: ProgramUnit, words: nat)
    requires p.pc + words < 0x1_0000_0000 && !p.rep && !p.lp
    ensures Past(p, words) == p.(pc := p.pc + words)
  {
  }
}
