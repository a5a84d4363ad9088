// The interpreter object: its registers and memory updated in place by the
// cycle loop, by interrupt entry and by the return instructions.
module Processors {
  import opened Words
  import opened Registers
  import opened Memories
  import opened CoreTimings
  import opened ProgramControl
  import opened Contexts
  import opened Interpreters
  import opened IdleRefinement
  import opened IdleRuns

  class Interpreter {
    const isa: Isa
    var regs: RegisterState
    var mem: Memory
    var comps: Timed
    var icu: Icu
    var latches: Latches
    var idle: bool
    ghost var cycle: nat
    ghost var entries: seq<Entry>

    constructor (isa: Isa, core: Core)
      ensures this.isa == isa && State() == Machine(core, false, 0, [])
    {
      this.isa := isa;
      regs, mem, comps, icu, latches := core.regs, core.mem, core.comps, core.icu, core.latches;
      idle := false;
      cycle, entries := 0, [];
    }

    function CoreState(): Core
      reads this
    {
      Core(regs, mem, comps, icu, latches)
    }

    ghost function State(): Machine
      reads this
    {
      Machine(CoreState(), idle, cycle, entries)
    }

    // The registers and memory; everything else in the machine is as it was.
    twostate predicate OnlyContext(c: Context)
      reads this
    {
      State() == old(State()).(core := old(CoreState()).(regs := c.regs, mem := c.mem))
    }

    method PushWord(value: u16)
      modifies this`regs, this`mem
      ensures regs == old(regs).(sp := Down(old(regs).sp, 1))
      ensures mem == DataWrite(old(mem), regs.sp, value)
    {
      regs := regs.(sp := Down(regs.sp, 1));
      mem := DataWrite(mem, regs.sp, value);
    }

    method PopWord() returns (value: u16)
      modifies this`regs
      ensures regs == old(regs).(sp := Up(old(regs).sp, 1))
      ensures value == DataRead(mem, old(regs).sp)
    {
      value := DataRead(mem, regs.sp);
      regs := regs.(sp := Up(regs.sp, 1));
    }

    method PushPC()
      modifies this`regs, this`mem
      ensures OnlyContext(Contexts.PushPC(Context(old(regs), old(mem))))
    {
      hide DataWrite;
      var low, high := regs.prog.pc % 0x1_0000, regs.prog.pc / 0x1_0000;
      if regs.prog.cpc {
        PushWord(high);
        PushWord(low);
      } else {
        PushWord(low);
        PushWord(high);
      }
    }

    method PopPC()
      requires Contexts.PopPC(Context(regs, mem)).Some?
      modifies this`regs
      ensures OnlyContext(Contexts.PopPC(Context(old(regs), mem)).value)
    {
      hide DataRead;
      var first: nat := PopWord();
      var second: nat := PopWord();
      var pc: nat := if regs.prog.cpc then first + second * 0x1_0000 else second + first * 0x1_0000;
      assert pc < 0x4_0000;
      regs := regs.(prog := regs.prog.(pc := pc));
    }

    method ContextStore()
      modifies this`regs
      ensures regs == Contexts.ContextStore(old(regs))
    {
      hide AccFlags;
      regs := regs.(shadowFlags := regs.flags);
      regs := ShadowSwap(regs);
      if !regs.prog.crep {
        regs := regs.(prog := regs.prog.(repcs := regs.prog.repc));
      }
      if !regs.ccnta {
        regs := regs.(a1s := regs.a1);
        regs := regs.(b1s := regs.b1);
      } else {
        var a, b := regs.a1, regs.b1;
        regs := regs.(b1 := a);
        regs := regs.(flags := AccFlags(regs.flags, b));
        regs := regs.(a1 := b);
      }
    }

    method ContextRestore()
      modifies this`regs
      ensures regs == Contexts.ContextRestore(old(regs))
    {
      regs := regs.(flags := regs.shadowFlags);
      regs := ShadowSwap(regs);
      if !regs.prog.crep {
        regs := regs.(prog := regs.prog.(repc := regs.prog.repcs));
      }
      if !regs.ccnta {
        regs := regs.(a1 := regs.a1s);
        regs := regs.(b1 := regs.b1s);
      } else {
        regs := regs.(a1 := regs.b1, b1 := regs.a1);
      }
    }

    method Retic(cond: Cond)
      requires Contexts.Retic(Context(regs, mem), cond).Some?
      modifies this`regs
      ensures OnlyContext(Contexts.Retic(Context(old(regs), mem), cond).value)
    {
      hide PoppedPC, Contexts.ContextRestore;
      if ConditionPass(cond, regs.flags, regs.iu) {
        PopPC();
        regs := regs.(ie := true);
        ContextRestore();
      }
    }

    static method MergePending(raised: Bits3, pending: Bits3) returns (ip: Bits3)
      ensures ip == [raised[0] || pending[0], raised[1] || pending[1], raised[2] || pending[2]]
    {
      ip := raised;
      for i := 0 to 3
        invariant forall j :: 0 <= j < i ==> ip[j] == (raised[j] || pending[j])
        invariant forall j :: i <= j < 3 ==> ip[j] == raised[j]
      {
        if pending[i] {
          ip := ip[i := true];
        }
      }
      assert ip == [ip[0], ip[1], ip[2]];
    }

    method TakeOverLatches()
      modifies this`regs, this`latches
      ensures State() == Delivered(old(State()))
    {
      hide Deliver;
      DeliverFields(CoreState());
      var ip := MergePending(regs.ip, latches.pending);
      regs := regs.(ip := ip);
      latches := latches.(pending := [false, false, false]);
      if latches.vpending {
        latches := latches.(vpending := false);
        regs := regs.(ipv := true);
      }
    }

    method LoadCore(c: Core)
      modifies this`regs, this`mem, this`comps, this`icu, this`latches
      ensures State() == old(State()).(core := c)
    {
      regs, mem, comps, icu, latches := c.regs, c.mem, c.comps, c.icu, c.latches;
    }

    method SetProg(p: ProgramUnit)
      modifies this`regs
      ensures State() == old(State()).(core := WithProg(old(CoreState()), p))
    {
      regs := regs.(prog := p);
    }

    method Brr(rel: u32, cond: Cond)
      modifies this`regs, this`idle
      ensures State() == ExecuteBrr(old(State()), rel, cond)
    {
      if ConditionPass(cond, regs.flags, regs.iu) {
        SetProg(regs.prog.(pc := (regs.prog.pc + rel) % 0x1_0000_0000));
        if rel == 0xFFFF_FFFF {
          idle := true;
        }
      }
    }

    // Any other instruction, from its expansion word on.
    method ExecuteOther(opcode: u16, expanded: bool)
      modifies this
      ensures var c := old(CoreState()); var p := if expanded then NextPC(c.regs.prog) else c.regs.prog;
              var word := if expanded then ProgramRead(c.mem, FetchAddress(c.regs.prog)) else 0;
              State() == old(State()).(core := isa.exec(opcode, word, WithProg(c, AfterFetch(p))))
    {
      hide AfterFetch, FetchAddress, ProgramRead, NextPC;
      var expansion := 0;
      if expanded {
        expansion := ProgramRead(mem, FetchAddress(regs.prog));
        SetProg(NextPC(regs.prog));
      }
      SetProg(AfterFetch(regs.prog));
      LoadCore(isa.exec(opcode, expansion, CoreState()));
    }

    // Fetch, repeat control, execute.
    method Step()
      modifies this
      ensures State() == Instruction(isa, old(State()))
    {
      hide AfterFetch, FetchAddress, ExecuteBrr, ProgramRead, NextPC;
      var opcode := ProgramRead(mem, FetchAddress(regs.prog));
      SetProg(NextPC(regs.prog));
      match isa.decode(opcode)
      case Brr(rel, cond) =>
        SetProg(AfterFetch(regs.prog));
        Brr(rel, cond);
      case Other(expanded) =>
        ExecuteOther(opcode, expanded);
    }

    // Entry to `vector`, the interrupt bit already cleared.
    method EnterInterrupt(vector: u32, switch: bool)
      modifies this`regs, this`mem, this`idle, this`entries
      ensures State() == EnterAt(old(State()), old(regs), vector, switch)
    {
      hide Contexts.ContextStore, Contexts.PushPC;
      regs := regs.(ie := false);
      PushPC();
      regs := regs.(prog := regs.prog.(pc := vector));
      idle := false;
      entries := entries + [Entry(cycle, vector)];
      if switch {
        ContextStore();
      }
    }

    method TakeInterrupts()
      modifies this`regs, this`mem, this`idle, this`entries
      ensures State() == Interrupt(old(State()))
    {
      hide Enter;
      if regs.ie && !regs.prog.rep {
        ghost var before := State();
        for i := 0 to 3
          invariant State() == before
          invariant forall j :: 0 <= j < i ==> !Raised(regs, j)
        {
          if regs.banked.im[i] && regs.ip[i] {
            regs := regs.(ip := regs.ip[i := false]);
            EnterInterrupt(0x0006 + i * 8, regs.ic[i]);
            return;
          }
        }
        if regs.banked.imv && regs.ipv {
          regs := regs.(ipv := false);
          EnterInterrupt(latches.vaddress, latches.vcontext);
        }
      }
    }

    // One tick of all components, their interrupts signalled.
    method TickComponents()
      modifies this`comps, this`icu, this`latches, this`cycle
      ensures State() == EndCycle(isa, old(State()))
    {
      hide Round, Signals;
      var c := TickAll(isa, CoreState());
      TimedRound(comps);
      SignalsKeep(isa, CoreState().(comps := Round(comps)), comps, Round(comps), 0);
      comps, icu, latches := c.comps, c.icu, c.latches;
      cycle := cycle + 1;
    }

    method SkipComponents(maximum: u64) returns (skipped: nat)
      requires maximum < 0xFFFF_FFFF_FFFF_0000
      modifies this`comps, this`cycle
      ensures (skipped, State()) == JumpAhead(old(State()), maximum + 1)
      ensures skipped <= maximum
    {
      hide SkipAll, MinSkip;
      skipped := MinSkip(comps, maximum);
      MinSkipIsLeast(comps, maximum);
      TimedSkip(comps, maximum);
      comps := SkipAll(comps, skipped);
      cycle := cycle + skipped;
    }

    // The body of the loop, without the shortcut.
    method OneCycle()
      modifies this
      ensures State() == Cycle(isa, old(State()))
    {
      hide Delivered, Instruction, Interrupt, EndCycle;
      TakeOverLatches();
      assert State() == old(State()).(core := Deliver(old(State()).core)) by { DeliveredUnfold(old(State())); }
      Step();
      TakeInterrupts();
      TickComponents();
    }

    method Run(cycles: u64)
      requires cycles <= 0xFFFF_FFFF_FFFF_0000
      modifies this
      ensures State() == RunFrom(isa, old(State()).(idle := false), cycles)
      ensures cycle == old(cycle) + cycles
      ensures HeadsReady(isa, old(State()).(idle := false), cycles) ==>
                (State() == Cycles(isa, old(State()).(idle := false), cycles) <==>
                 HeadsQuiet(isa, old(State()).(idle := false), cycles))
      ensures Sound(isa, old(State()).(idle := false), cycles) && Timely(isa, old(State()).(idle := false), cycles) ==>
                State() == Cycles(isa, old(State()).(idle := false), cycles)
    {
      hide Cycle, EndCycle, JumpAhead, IdleIteration, RunFrom, Cycles, HeadsReady, HeadsQuiet, Sound, Timely, AllTimed;
      idle := false;
      ghost var start := State();
      var i: nat := 0;
      while i < cycles
        invariant i <= cycles
        invariant RunFrom(isa, State(), cycles - i) == RunFrom(isa, start, cycles)
      {
        ghost var head, left := State(), cycles - i;
        RunUnfold(isa, head, left);
        IterationUnfold(isa, head, left);
        if idle {
          var skipped := SkipComponents(cycles - i - 1);
          i := i + skipped;
          if i < cycles - 1 {
            i := i + 1;
            TickComponents();
          }
        }
        OneCycle();
        i := i + 1;
      }
      RunUnfold(isa, State(), 0);
      RunTakesItsTime(isa, start, cycles);
      if HeadsReady(isa, start, cycles) {
        RunIsCyclesExactly(isa, start, cycles);
      }
      if Sound(isa, start, cycles) && Timely(isa, start, cycles) {
        TimelyRunIsCycles(isa, start, cycles);
      }
    }
  }

  lemma DeliverFields(c: Core)
    ensures var p, ip := c.latches.pending, c.regs.ip;
            var r := c.regs.(ip := [ip[0] || p[0], ip[1] || p[1], ip[2] || p[2]]);
            Deliver(c) == if c.latches.vpending
                          then c.(regs := r.(ipv := true),
                              latches := c.latches.(pending := [false, false, false], vpending := false))
                          else c.(regs := r, latches := c.latches.(pending := [false, false, false]))
  {
  }

  lemma DeliveredUnfold(m: Machine)
    ensures Delivered(m) == m.(core := Deliver(m.core))
  {
  }

  lemma IterationUnfold(isa: Isa, m: Machine, left: nat)
    requires 0 < left <= 0xFFFF_FFFF_FFFF_0000
    ensures var (k, j) := JumpAhead(m, left);
            IdleIteration(isa, m, left) ==
            if k < left - 1 then (k + 2, Cycle(isa, EndCycle(isa, j))) else (k + 1, Cycle(isa, j))
  {
    hide Cycle, EndCycle;
  }
}
