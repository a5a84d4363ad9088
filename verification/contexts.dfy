// Interrupt entry and return with their context switch.
module Contexts {
  import opened Words
  import opened Registers
  import opened Memories
  import opened ProgramControl

  datatype Context = Context(regs: RegisterState, mem: Memory)

  // The return address goes out in two words, high word first when cpc is set.
  function PushPC(c: Context): Context {
    var pc, sp := c.regs.prog.pc, c.regs.sp;
    var low, high := pc % 0x1_0000, pc / 0x1_0000;
    var first, second := if c.regs.prog.cpc then high else low, if c.regs.prog.cpc then low else high;
    Context(c.regs.(sp := Down(sp, 2)), DataWrite(DataWrite(c.mem, Down(sp, 1), first), Down(sp, 2), second))
  }

  function PoppedPC(c: Context): u32 {
    var x, y := DataRead(c.mem, c.regs.sp), DataRead(c.mem, Up(c.regs.sp, 1));
    if c.regs.prog.cpc then x + y * 0x1_0000 else y + x * 0x1_0000
  }

  // None is the assertion in SetPC that an address has 18 bits.
  function PopPC(c: Context): Option<Context> {
    if PoppedPC(c) < 0x4_0000
    then Some(c.(regs := c.regs.(prog := c.regs.prog.(pc := PoppedPC(c)), sp := Up(c.regs.sp, 2))))
    else None
  }

  function ShadowStore(r: RegisterState): RegisterState {
    r.(shadowFlags := r.flags)
  }

  function ShadowRestore(r: RegisterState): RegisterState {
    r.(flags := r.shadowFlags)
  }

  function ShadowSwap(r: RegisterState): RegisterState {
    r.(banked := r.shadowBanked, shadowBanked := r.banked,
       ar := r.shadowAr, shadowAr := r.ar,
       arp := r.shadowArp, shadowArp := r.arp)
  }

  function ContextStore(r: RegisterState): RegisterState {
    var s := ShadowSwap(ShadowStore(r));
    var t := if s.prog.crep then s else s.(prog := s.prog.(repcs := s.prog.repc));
    if !t.ccnta then t.(a1s := t.a1, b1s := t.b1)
    else t.(b1 := t.a1, a1 := t.b1, flags := AccFlags(t.flags, t.b1))
  }

  function ContextRestore(r: RegisterState): RegisterState {
    var s := ShadowSwap(ShadowRestore(r));
    var t := if s.prog.crep then s else s.(prog := s.prog.(repc := s.prog.repcs));
    if !t.ccnta then t.(a1 := t.a1s, b1 := t.b1s)
    else t.(a1 := t.b1, b1 := t.a1)
  }

  // Entry: further interrupts off, return address pushed, banks switched.
  function Enter(c: Context, vector: u32, switch: bool): Context {
    var p := PushPC(c.(regs := c.regs.(ie := false)));
    var r := p.regs.(prog := p.regs.prog.(pc := vector));
    p.(regs := if switch then ContextStore(r) else r)
  }

  // Return with context: the last three effects of the retic instruction.
  function Retic(c: Context, cond: Cond): Option<Context> {
    if !ConditionPass(cond, c.regs.flags, c.regs.iu) then Some(c)
    else match PopPC(c)
      case None => None
      case Some(p) => Some(p.(regs := ContextRestore(p.regs.(ie := true))))
  }

  // What a handler must leave alone between entry and return: the stack
  // pointer and the two words above it, the shadows, and the three bits that
  // say how a context is saved. Everything else it may change.
  predicate HandlerKeeps(entered: Context, left: Context) {
    var e, l := entered.regs, left.regs;
    && l.sp == e.sp
    && DataRead(left.mem, e.sp) == DataRead(entered.mem, e.sp)
    && DataRead(left.mem, Up(e.sp, 1)) == DataRead(entered.mem, Up(e.sp, 1))
    && l.prog.cpc == e.prog.cpc && l.prog.crep == e.prog.crep && l.ccnta == e.ccnta
    && l.prog.repcs == e.prog.repcs && l.a1s == e.a1s && l.b1s == e.b1s
    && l.shadowFlags == e.shadowFlags && l.shadowBanked == e.shadowBanked
    && l.shadowAr == e.shadowAr && l.shadowArp == e.shadowArp
  }

  // Whatever is pushed is popped, in either word order and wherever the stack
  // pointer wraps.
  lemma PopUndoesPush(c: Context, later: Context)
    requires later.regs.sp == PushPC(c).regs.sp && later.regs.prog.cpc == c.regs.prog.cpc
    requires DataRead(later.mem, later.regs.sp) == DataRead(PushPC(c).mem, later.regs.sp)
    requires DataRead(later.mem, Up(later.regs.sp, 1)) == DataRead(PushPC(c).mem, Up(later.regs.sp, 1))
    ensures PoppedPC(later) == c.regs.prog.pc && Up(later.regs.sp, 2) == c.regs.sp
  {
  }

  // The return address is made up of the two words from the stack pointer on,
  // and comes back if and only if it has 18 bits.
  lemma PopsExactly(c: Context)
    ensures var x: nat, y: nat := c.mem[0x2_0000 + c.regs.sp], c.mem[0x2_0000 + (c.regs.sp + 1) % 0x1_0000];
            var low, high := if c.regs.prog.cpc then x else y, if c.regs.prog.cpc then y else x;
            && (PopPC(c).Some? <==> high < 4)
            && (high < 4 ==>
                  var prog := c.regs.prog.(pc := low + high * 0x1_0000);
                  PopPC(c).value == c.(regs := c.regs.(prog := prog, sp := (c.regs.sp + 2) % 0x1_0000)))
  {
    assert Up(c.regs.sp, 1) == (c.regs.sp + 1) % 0x1_0000 && Up(c.regs.sp, 2) == (c.regs.sp + 2) % 0x1_0000;
  }

  // What the two halves of the switch do to the saved registers.
  lemma SwitchSaves(r: RegisterState)
    ensures var s := ContextStore(r);
            && s.shadowFlags == r.flags && s.shadowBanked == r.banked && s.shadowAr == r.ar && s.shadowArp == r.arp
            && (!r.prog.crep ==> s.prog.repcs == r.prog.repc)
            && (!r.ccnta ==> s.a1s == r.a1 && s.b1s == r.b1)
            && (r.ccnta ==> s.a1 == r.b1 && s.b1 == r.a1)
            && s.sp == r.sp && s.prog.cpc == r.prog.cpc && s.prog.crep == r.prog.crep && s.ccnta == r.ccnta
            && s.prog.repc == r.prog.repc && s.prog.pc == r.prog.pc
  {
    hide AccFlags;
  }

  lemma SwitchRestores(r: RegisterState)
    ensures var s := ContextRestore(r);
            && s.flags == r.shadowFlags && s.banked == r.shadowBanked && s.ar == r.shadowAr && s.arp == r.shadowArp
            && s.prog.repc == (if r.prog.crep then r.prog.repc else r.prog.repcs)
            && s.a1 == (if r.ccnta then r.b1 else r.a1s) && s.b1 == (if r.ccnta then r.a1 else r.b1s)
            && s.sp == r.sp && s.prog.pc == r.prog.pc && s.ie == r.ie
  {
  }

  function Disabled(c: Context): Context {
    c.(regs := c.regs.(ie := false))
  }

  lemma EnterSaves(before: Context, vector: u32)
    ensures var p, e, b := PushPC(Disabled(before)), Enter(before, vector, true), before.regs;
            && e.mem == p.mem && e.regs.sp == p.regs.sp
            && e.regs.shadowFlags == b.flags && e.regs.shadowBanked == b.banked
            && e.regs.shadowAr == b.ar && e.regs.shadowArp == b.arp
            && (!b.prog.crep ==> e.regs.prog.repcs == b.prog.repc) && e.regs.prog.repc == b.prog.repc
            && (!b.ccnta ==> e.regs.a1s == b.a1 && e.regs.b1s == b.b1)
            && (b.ccnta ==> e.regs.a1 == b.b1 && e.regs.b1 == b.a1)
            && e.regs.prog.cpc == b.prog.cpc && e.regs.prog.crep == b.prog.crep && e.regs.ccnta == b.ccnta
  {
    var p := PushPC(Disabled(before));
    SwitchSaves(p.regs.(prog := p.regs.prog.(pc := vector)));
    assert p.regs == Disabled(before).regs.(sp := p.regs.sp);
  }

  lemma ReticRestores(left: Context)
    requires PoppedPC(left) < 0x4_0000
    ensures Retic(left, Cond.True).Some?
    ensures var r, l := Retic(left, Cond.True).value.regs, left.regs;
            && r.prog.pc == PoppedPC(left) && r.sp == Up(l.sp, 2) && r.ie
            && r.flags == l.shadowFlags && r.banked == l.shadowBanked && r.ar == l.shadowAr && r.arp == l.shadowArp
            && r.prog.repc == (if l.prog.crep then l.prog.repc else l.prog.repcs)
            && r.a1 == (if l.ccnta then l.b1 else l.a1s) && r.b1 == (if l.ccnta then l.a1 else l.b1s)
  {
    hide PoppedPC, ConditionPass, Up, ContextRestore;
    TrueAlwaysPasses(left.regs);
    SwitchRestores(PopPC(left).value.regs.(ie := true));
  }

  // A condition that fails makes the return do nothing.
  lemma ReticSkips(c: Context, cond: Cond)
    requires !ConditionPass(cond, c.regs.flags, c.regs.iu)
    ensures Retic(c, cond) == Some(c)
  {
  }

  // An interrupt with a context switch is invisible to the program: after the
  // return the program counter, the stack pointer, the interrupt master bit,
  // all flags and all banked registers are back, whatever the handler did to
  // them. The two accumulators and the repeat counter are back always when
  // they are shadowed, and otherwise exactly when the handler left them alone.
  lemma InterruptIsTransparent(before: Context, vector: u32, left: Context)
    requires before.regs.ie && before.regs.prog.pc < 0x4_0000
    requires HandlerKeeps(Enter(before, vector, true), left)
    ensures Retic(left, Cond.True).Some?
    ensures var entered := Enter(before, vector, true).regs;
            var r := Retic(left, Cond.True).value.regs;
            && r.prog.pc == before.regs.prog.pc && r.sp == before.regs.sp && r.ie == before.regs.ie
            && r.flags == before.regs.flags && r.banked == before.regs.banked
            && r.ar == before.regs.ar && r.arp == before.regs.arp
            && (r.a1 == before.regs.a1 <==> (before.regs.ccnta ==> left.regs.b1 == entered.b1))
            && (r.b1 == before.regs.b1 <==> (before.regs.ccnta ==> left.regs.a1 == entered.a1))
            && (r.prog.repc == before.regs.prog.repc <==>
                (before.regs.prog.crep ==> left.regs.prog.repc == entered.prog.repc))
  {
    hide Enter, Retic, PushPC, PoppedPC, DataRead, Up;
    EnterSaves(before, vector);
    PopUndoesPush(Disabled(before), left);
    ReticRestores(left);
  }

  lemma TrueAlwaysPasses(r: RegisterState)
    ensures ConditionPass(Cond.True, r.flags, r.iu)
  {
  }
}
