// Whole runs of the cycle loop against plain cycling, and what the idle flag means.
module IdleRuns {
  import opened Registers
  import opened Memories
  import opened CoreTimings
  import opened ProgramControl
  import opened Interpreters
  import opened IdleRefinement

  // --- the loop heads of a run, read off the plain run ---

  // How far the loop goes from a head in one turn.
  function Stride(m: Machine, left: nat): (w: nat)
    requires left > 0
    ensures 0 < w <= left
  {
    MinSkipIsLeast(m.core.comps, left - 1);
    var k := MinSkip(m.core.comps, left - 1);
    if !m.idle then 1 else if k < left - 1 then k + 2 else k + 1
  }

  // The idle heads stand at a parked branch with every component ready.
  predicate HeadsReady(isa: Isa, m: Machine, left: nat)
    decreases left
  {
    left > 0 ==>
      && (m.idle ==> Parked(isa, m) && AllReady(m.core.comps))
      && HeadsReady(isa, Cycles(isa, m, Stride(m, left)), left - Stride(m, left))
  }

  // No interrupt waits at an idle head that has more than one cycle to go.
  predicate HeadsQuiet(isa: Isa, m: Machine, left: nat)
    decreases left
  {
    left > 0 ==>
      && (m.idle ==> Quiet(m) || left == 1)
      && HeadsQuiet(isa, Cycles(isa, m, Stride(m, left)), left - Stride(m, left))
  }

  lemma StrideIsWindow(isa: Isa, m: Machine, left: nat)
    requires 0 < left <= 0xFFFF_FFFF_FFFF_0000 && m.idle
    ensures IdleIteration(isa, m, left).0 == Stride(m, left)
    ensures left > 1 ==> Stride(m, left) > 1
  {
    hide Cycle, EndCycle, IdleIteration, Jumped, SkipAll;
    IterationShape(isa, m, left);
  }

  lemma RunUnfold(isa: Isa, m: Machine, left: nat)
    requires left <= 0xFFFF_FFFF_FFFF_0000
    ensures left > 0 ==> 0 < IdleIteration(isa, m, left).0 <= left
    ensures RunFrom(isa, m, left) ==
            if left == 0 then m
            else if m.idle then
              var (w, n) := IdleIteration(isa, m, left);
              RunFrom(isa, n, left - w)
            else RunFrom(isa, Cycle(isa, m), left - 1)
  {
    hide Cycle, IdleIteration;
    if left > 0 {
      IterationIsShort(isa, m, left);
    }
  }

  // Right or wrong, a run of n cycles moves time by exactly n.
  lemma {:induction false} RunTakesItsTime(isa: Isa, m: Machine, left: nat)
    requires left <= 0xFFFF_FFFF_FFFF_0000
    ensures RunFrom(isa, m, left).cycle == m.cycle + left
    decreases left
  {
    hide Cycle, IdleIteration;
    if left > 0 {
      if m.idle {
        IterationIsShort(isa, m, left);
        IterationEntries(isa, m, left);
        var (w, n) := IdleIteration(isa, m, left);
        RunTakesItsTime(isa, n, left - w);
      } else {
        CycleEntries(isa, m);
        RunTakesItsTime(isa, Cycle(isa, m), left - 1);
      }
    }
  }

  // What a run enters, it enters after its start.
  lemma {:induction false} RunEntries(isa: Isa, m: Machine, left: nat)
    requires left <= 0xFFFF_FFFF_FFFF_0000
    ensures var e := RunFrom(isa, m, left).entries;
            m.entries <= e && (|e| > |m.entries| ==> e[|m.entries|].cycle >= m.cycle)
    decreases left
  {
    hide Cycle, IdleIteration, RunFrom;
    RunUnfold(isa, m, left);
    if left > 0 {
      if m.idle {
        var (w, n) := IdleIteration(isa, m, left);
        IterationEntries(isa, m, left);
        RunEntries(isa, n, left - w);
      } else {
        CycleEntries(isa, m);
        RunEntries(isa, Cycle(isa, m), left - 1);
      }
    }
  }

  // An interrupt that waits at an idle head with more than one cycle to go is
  // entered at once by plain cycling and later by the run. The two logs never
  // agree again.
  lemma LateForGood(isa: Isa, m: Machine, left: nat)
    requires 1 < left <= 0xFFFF_FFFF_FFFF_0000 && Parked(isa, m) && !Quiet(m)
    ensures RunFrom(isa, m, left).entries != Cycles(isa, m, left).entries
  {
    hide *;
    var (w, n) := IdleIteration(isa, m, left);
    ParkedIsIdle(isa, m);
    RunUnfold(isa, m, left);
    StrideIsWindow(isa, m, left);
    IterationEntries(isa, m, left);
    RunEntries(isa, n, left - w);
    ParkedCycleComps(isa, m);
    CyclesUnfold(isa, m, 0);
    CyclesAdd(isa, m, 1, left - 1);
    CyclesExtendEntries(isa, Cycles(isa, m, 1), left - 1);
    LogsDiffer(m.entries, Cycles(isa, m, 1).entries, Cycles(isa, m, left).entries,
               n.entries, RunFrom(isa, m, left).entries, m.cycle, m.cycle + w - 1);
  }

  lemma ParkedIsIdle(isa: Isa, m: Machine)
    requires Parked(isa, m)
    ensures m.idle
  {
  }

  lemma LogsDiffer(a: seq<Entry>, b: seq<Entry>, plain: seq<Entry>, c: seq<Entry>, fast: seq<Entry>, t: nat, u: nat)
    requires EntersAt(a, b, t) && b <= plain && t < u
    requires c <= fast && (c == a || EntersAt(a, c, u)) && (|fast| > |c| ==> fast[|c|].cycle >= u)
    ensures fast != plain
  {
    assert plain[|a|] == b[|a|];
    if |fast| > |a| {
      assert fast[|a|].cycle >= u;
    }
  }

  // The run-level condition. When every idle head is parked and ready, a run
  // is its cycles if and only if every idle window starts with no interrupt
  // waiting or is the last cycle.
  lemma {:induction false} RunIsCyclesExactly(isa: Isa, m: Machine, left: nat)
    requires left <= 0xFFFF_FFFF_FFFF_0000 && HeadsReady(isa, m, left)
    ensures RunFrom(isa, m, left) == Cycles(isa, m, left) <==> HeadsQuiet(isa, m, left)
    decreases left
  {
    hide Cycle, Cycles, RunFrom, IdleIteration, Parked, AllReady, Quiet, Stride;
    RunUnfold(isa, m, left);
    CyclesUnfold(isa, m, 0);
    if left > 0 {
      StrideOfBusy(m, left);
      var w := Stride(m, left);
      if m.idle && !Quiet(m) && left > 1 {
        LateForGood(isa, m, left);
      } else {
        if m.idle {
          StrideIsWindow(isa, m, left);
          IdleIterationExactly(isa, m, left);
        }
        CyclesAdd(isa, m, w, left - w);
        RunIsCyclesExactly(isa, Cycles(isa, m, w), left - w);
      }
    }
  }

  lemma StrideOfBusy(m: Machine, left: nat)
    requires left > 0
    ensures !m.idle ==> Stride(m, left) == 1
    ensures left == 1 ==> Stride(m, left) == 1
  {
  }

  // --- what the idle flag means ---

  // A taken branch to itself leaves the program counter where it is: it is not
  // under a repeat with passes to go, and if it is the last instruction of the
  // innermost block, that block is on its last pass and the block around it
  // does not end there too.
  predicate Stays(p: ProgramUnit) {
    && !(p.rep && p.repc > 0)
    && (AtBlockEnd(NextPC(p)) ==>
          && p.stack[p.bcn - 1].lc == 0
          && (p.bcn >= 2 ==> p.stack[p.bcn - 2].end != p.stack[p.bcn - 1].end))
  }

  predicate TakesSelfBranch(isa: Isa, m: Machine) {
    var op, r := CurrentOp(isa, m), m.core.regs;
    SelfBranch(op) && ConditionPass(op.cond, r.flags, r.iu)
  }

  // The program unit after a self-branch.
  function BranchBack(p: ProgramUnit): ProgramUnit {
    var q := AfterFetch(NextPC(p));
    q.(pc := (q.pc + 0xFFFF_FFFF) % 0x1_0000_0000)
  }

  lemma BackAndForth(p: ProgramUnit)
    ensures (NextPC(p).pc + 0xFFFF_FFFF) % 0x1_0000_0000 == p.pc
  {
  }

  lemma BackAlone(p: ProgramUnit)
    requires !AtBlockEnd(NextPC(p)) && !(p.rep && p.repc > 0)
    ensures BranchBack(p) == p.(rep := false)
  {
    BackAndForth(p);
    assert RepStage(NextPC(p)) == NextPC(p).(rep := false);
    assert NextPC(p.(rep := false)) == NextPC(p).(rep := false);
  }

  lemma BackAtEnd(p: ProgramUnit)
    requires AtBlockEnd(NextPC(p)) && !(p.rep && p.repc > 0)
    ensures var b, top := BranchBack(p), p.stack[p.bcn - 1];
            && !b.rep
            && (top.lc == 0 ==> b == p.(rep := false, bcn := p.bcn - 1, lp := p.bcn != 1))
            && (top.lc > 0 ==> b.pc == (top.start + 0xFFFF_FFFF) % 0x1_0000_0000 && b.lp && b.bcn == p.bcn
                               && b.stack[b.bcn - 1].end == top.end)
  {
    hide NextPC;
    BackAndForth(p);
    NextKeeps(p);
    assert RepStage(NextPC(p)) == NextPC(p).(rep := false);
  }

  lemma NextKeeps(p: ProgramUnit)
    ensures NextPC(p) == p.(pc := NextPC(p).pc)
  {
  }

  lemma BackUnderRepeat(p: ProgramUnit)
    requires p.rep && p.repc > 0
    ensures BranchBack(p).rep
  {
  }

  lemma SameEnd(p: ProgramUnit)
    requires AtBlockEnd(NextPC(p)) && p.bcn >= 2
    ensures var b := p.(rep := false, bcn := p.bcn - 1, lp := true);
            AtBlockEnd(NextPC(b)) <==> p.stack[p.bcn - 2].end == p.stack[p.bcn - 1].end
  {
  }

  // It stays at its address with no repeat pending and no block ending there
  // exactly under that condition.
  lemma StaysExactly(p: ProgramUnit)
    ensures var b := BranchBack(p);
            b.pc == p.pc && !b.rep && !AtBlockEnd(NextPC(b)) <==> Stays(p)
  {
    hide BranchBack, NextPC, AtBlockEnd;
    var b := BranchBack(p);
    if p.rep && p.repc > 0 {
      BackUnderRepeat(p);
    } else if !AtBlockEnd(NextPC(p)) {
      BackAlone(p);
      WithoutRepeat(p);
    } else {
      BackAtEnd(p);
      NoLoop(NextPC(p));
      NextKeeps(p);
      if p.stack[p.bcn - 1].lc > 0 {
        EndsAgain(p, b);
      } else {
        if p.bcn >= 2 {
          SameEnd(p);
        } else {
          NoLoop(b);
        }
      }
    }
  }

  lemma WithoutRepeat(p: ProgramUnit)
    ensures AtBlockEnd(NextPC(p.(rep := false))) == AtBlockEnd(NextPC(p))
  {
  }

  // A block that is repeated ends at the same word again.
  lemma EndsAgain(p: ProgramUnit, b: ProgramUnit)
    requires AtBlockEnd(NextPC(p)) && b.lp && b.bcn == p.bcn && b.stack[b.bcn - 1].end == p.stack[p.bcn - 1].end
    ensures b.pc == p.pc ==> AtBlockEnd(NextPC(b))
  {
  }

  lemma NoLoop(b: ProgramUnit)
    ensures !b.lp ==> !AtBlockEnd(NextPC(b))
    ensures AtBlockEnd(b) ==> b.lp
  {
  }

  // The idle flag is right about a taken self-branch, which is then parked at
  // its own address, exactly when the branch stays there.
  lemma FlagIsRightExactly(isa: Isa, m: Machine)
    requires TakesSelfBranch(isa, m)
    ensures var i := Instruction(isa, m);
            i.idle && (Parked(isa, i) && i.core.regs.prog.pc == m.core.regs.prog.pc <==> Stays(m.core.regs.prog))
  {
    hide BranchBack, NextPC, AtBlockEnd, ProgramRead, ConditionPass, Stays;
    SelfBranchInstruction(isa, m);
    StaysExactly(m.core.regs.prog);
    FetchesSame(m.core.regs.prog);
  }

  lemma SelfBranchInstruction(isa: Isa, m: Machine)
    requires TakesSelfBranch(isa, m)
    ensures Instruction(isa, m) == m.(core := WithProg(m.core, BranchBack(m.core.regs.prog)), idle := true)
  {
    hide AfterFetch, NextPC, FetchAddress, ProgramRead;
  }

  lemma FetchesSame(p: ProgramUnit)
    ensures BranchBack(p).pc == p.pc ==> FetchAddress(BranchBack(p)) == FetchAddress(p)
  {
    hide AtBlockEnd, NextPC;
    NextKeeps(p);
  }

  // Every taken self-branch about to execute stays where it is.
  predicate Guarded(isa: Isa, m: Machine) {
    TakesSelfBranch(isa, m) ==> Stays(m.core.regs.prog)
  }

  // Idle means parked after a guarded cycle if it did before.
  lemma IdleMeansParked(isa: Isa, m: Machine)
    requires Guarded(isa, m) && (m.idle ==> Parked(isa, m))
    ensures Cycle(isa, m).idle ==> Parked(isa, Cycle(isa, m))
  {
    hide Parked, Instruction, Interrupt, EndCycle, Deliver, Guarded, Delivered;
    var d := Delivered(m);
    CycleOfInstruction(isa, m);
    DeliverKeeps(isa, m);
    var i := Instruction(isa, d);
    if m.idle {
      ParkedInstruction(isa, d);
    } else {
      NewlyIdle(isa, m);
    }
    InterruptIdle(i);
    EndCycleComps(isa, Interrupt(i));
    if Interrupt(i).idle {
      ParkedKept(isa, i, Cycle(isa, m));
    }
  }

  lemma CycleOfInstruction(isa: Isa, m: Machine)
    ensures Cycle(isa, m) == EndCycle(isa, Interrupt(Instruction(isa, Delivered(m))))
    ensures Delivered(m).idle == m.idle
  {
    hide Instruction, Interrupt, EndCycle, Deliver;
  }

  lemma InterruptIdle(m: Machine)
    ensures Interrupt(m).idle ==> Interrupt(m) == m
  {
  }

  lemma NewlyIdle(isa: Isa, m: Machine)
    requires !m.idle && Guarded(isa, m)
    ensures Instruction(isa, Delivered(m)).idle ==> Parked(isa, Instruction(isa, Delivered(m)))
  {
    hide Parked, Instruction, Deliver, Stays;
    GuardSeesDelivered(isa, m);
    if TakesSelfBranch(isa, Delivered(m)) {
      FlagIsRightExactly(isa, Delivered(m));
    } else {
      OtherStaysBusy(isa, Delivered(m));
    }
  }

  lemma GuardSeesDelivered(isa: Isa, m: Machine)
    ensures TakesSelfBranch(isa, Delivered(m)) == TakesSelfBranch(isa, m)
    ensures Delivered(m).core.regs.prog == m.core.regs.prog && Delivered(m).idle == m.idle
  {
  }

  lemma OtherStaysBusy(isa: Isa, m: Machine)
    requires !TakesSelfBranch(isa, m) && !m.idle
    ensures !Instruction(isa, m).idle
  {
  }

  // So it is throughout a plain run with guarded branches, and across an idle
  // iteration, which needs no guard.
  lemma {:induction false} ParkedThroughout(isa: Isa, m: Machine, n: nat)
    requires m.idle ==> Parked(isa, m)
    requires forall j :: 0 <= j < n ==> Guarded(isa, Cycles(isa, m, j))
    ensures Cycles(isa, m, n).idle ==> Parked(isa, Cycles(isa, m, n))
  {
    hide Parked, Cycle, Guarded;
    if n > 0 {
      ParkedThroughout(isa, m, n - 1);
      IdleMeansParked(isa, Cycles(isa, m, n - 1));
    }
  }

  lemma IterationKeepsParked(isa: Isa, m: Machine, left: nat)
    requires 0 < left <= 0xFFFF_FFFF_FFFF_0000 && Parked(isa, m)
    ensures var f := IdleIteration(isa, m, left).1; f.idle ==> Parked(isa, f)
  {
    hide *;
    var k := MinSkip(m.core.comps, left - 1);
    IterationShape(isa, m, left);
    TimedRounds(m.core.comps, k);
    JumpedFacts(isa, m, k);
    var j := Jumped(m, k);
    EndCycleComps(isa, j);
    ParkedIsGuarded(isa, j);
    if k < left - 1 {
      ParkedKept(isa, j, EndCycle(isa, j));
      ParkedIsGuarded(isa, EndCycle(isa, j));
      IdleMeansParked(isa, EndCycle(isa, j));
    } else {
      IdleMeansParked(isa, j);
    }
  }

  lemma ParkedIsGuarded(isa: Isa, m: Machine)
    requires Parked(isa, m)
    ensures Guarded(isa, m)
  {
  }

  // --- runs, judged by the states of plain cycling ---

  // Idle states are parked and ready.
  predicate SoundAt(isa: Isa, m: Machine, j: nat) {
    var c := Cycles(isa, m, j);
    c.idle ==> Parked(isa, c) && AllReady(c.core.comps)
  }

  predicate Sound(isa: Isa, m: Machine, left: nat) {
    forall j :: 0 <= j < left ==> SoundAt(isa, m, j)
  }

  lemma {:induction false} HeadsAreReady(isa: Isa, m: Machine, h: nat, left: nat)
    requires h <= left && Sound(isa, m, left)
    ensures HeadsReady(isa, Cycles(isa, m, h), left - h)
    decreases left - h
  {
    hide Cycles, Parked, AllReady, Stride;
    if h < left {
      assert SoundAt(isa, m, h);
      var w := Stride(Cycles(isa, m, h), left - h);
      CyclesAdd(isa, m, h, w);
      HeadsAreReady(isa, m, h + w, left);
    }
  }

  lemma SoundRun(isa: Isa, m: Machine, left: nat)
    requires left <= 0xFFFF_FFFF_FFFF_0000 && Sound(isa, m, left)
    ensures RunFrom(isa, m, left) == Cycles(isa, m, left) <==> HeadsQuiet(isa, m, left)
  {
    hide *;
    HeadsAreReady(isa, m, 0, left);
    CyclesUnfold(isa, m, 0);
    RunIsCyclesExactly(isa, m, left);
  }

  // The same from what the program does: its self-branches stay, and its
  // components are ready whenever it idles.
  lemma GuardedRunIsCyclesExactly(isa: Isa, m: Machine, left: nat)
    requires left <= 0xFFFF_FFFF_FFFF_0000 && !m.idle
    requires forall j :: 0 <= j < left ==> Guarded(isa, Cycles(isa, m, j))
    requires forall j :: 0 <= j < left && Cycles(isa, m, j).idle ==> AllReady(Cycles(isa, m, j).core.comps)
    ensures RunFrom(isa, m, left) == Cycles(isa, m, left) <==> HeadsQuiet(isa, m, left)
  {
    hide Cycles, Parked, AllReady, Guarded, RunFrom, HeadsQuiet;
    forall j | 0 <= j < left ensures SoundAt(isa, m, j) {
      ParkedThroughout(isa, m, j);
    }
    SoundRun(isa, m, left);
  }

  // An interrupt that waits in an idle state did not arrive with the cycle
  // that began the idling, nor in the second of two rounds that components
  // are due in.
  predicate TimelyAt(isa: Isa, m: Machine, left: nat, j: nat) {
    var c := Cycles(isa, m, j);
    c.idle && !Quiet(c) && j + 1 < left ==>
      && j > 0 && Cycles(isa, m, j - 1).idle
      && (j > 1 && Cycles(isa, m, j - 2).idle ==> MinSkip(Cycles(isa, m, j - 2).core.comps, 1) > 0)
  }

  predicate Timely(isa: Isa, m: Machine, left: nat) {
    forall j :: 0 <= j < left ==> TimelyAt(isa, m, left, j)
  }

  // The last state before the extra round of a window has a component due.
  lemma WindowEndsDue(isa: Isa, m: Machine, left: nat)
    requires 0 < left <= 0xFFFF_FFFF_FFFF_0000 && Parked(isa, m) && AllReady(m.core.comps) && (Quiet(m) || left == 1)
    ensures var w := Stride(m, left);
            w < left ==> w >= 2 && Cycles(isa, m, w - 2).idle && MinSkip(Cycles(isa, m, w - 2).core.comps, 1) == 0
  {
    hide *;
    var k := MinSkip(m.core.comps, left - 1);
    StrideOfIdle(isa, m, left);
    IterationShape(isa, m, left);
    if Stride(m, left) < left {
      AfterJump(isa, m, k);
      ParkedIsIdle(isa, Cycles(isa, m, k));
      CompsValid(m);
      BoundRunsOut(m.core.comps, left - 1);
    }
  }

  lemma StrideOfIdle(isa: Isa, m: Machine, left: nat)
    requires left > 0 && Parked(isa, m)
    ensures var k := MinSkip(m.core.comps, left - 1);
            k <= left - 1 && Stride(m, left) == if k < left - 1 then k + 2 else k + 1
  {
    MinSkipIsLeast(m.core.comps, left - 1);
  }

  lemma {:induction false} HeadsAreTimely(isa: Isa, m: Machine, h: nat, left: nat)
    requires h <= left <= 0xFFFF_FFFF_FFFF_0000 && Sound(isa, m, left) && Timely(isa, m, left)
    requires h < left && Cycles(isa, m, h).idle ==> Quiet(Cycles(isa, m, h)) || left - h == 1
    ensures HeadsQuiet(isa, Cycles(isa, m, h), left - h)
    decreases left - h
  {
    hide Cycles, Quiet, Stride, Parked, AllReady, MinSkip;
    if h < left {
      var c := Cycles(isa, m, h);
      var w := Stride(c, left - h);
      CyclesAdd(isa, m, h, w);
      assert SoundAt(isa, m, h);
      if h + w < left {
        assert TimelyAt(isa, m, left, h + w);
        if c.idle {
          WindowEndsDue(isa, c, left - h);
          CyclesAdd(isa, m, h, w - 2);
        } else {
          StrideOfBusy(c, left - h);
        }
      }
      HeadsAreTimely(isa, m, h + w, left);
    }
  }

  // Interrupts that end an idle stretch in time keep the run exact.
  lemma TimelyRunIsCycles(isa: Isa, m: Machine, left: nat)
    requires left <= 0xFFFF_FFFF_FFFF_0000 && !m.idle && Sound(isa, m, left) && Timely(isa, m, left)
    ensures RunFrom(isa, m, left) == Cycles(isa, m, left)
  {
    hide *;
    CyclesUnfold(isa, m, 0);
    HeadsAreTimely(isa, m, 0, left);
    SoundRun(isa, m, left);
  }

  // In particular when no interrupt ever waits while idle.
  lemma QuietRunIsCycles(isa: Isa, m: Machine, left: nat)
    requires left <= 0xFFFF_FFFF_FFFF_0000 && Sound(isa, m, left)
    requires forall j :: 0 <= j < left && Cycles(isa, m, j).idle ==> Quiet(Cycles(isa, m, j))
    ensures RunFrom(isa, m, left) == Cycles(isa, m, left)
  {
    hide Cycles, SoundAt, Sound, Quiet, RunFrom, HeadsQuiet, MinSkip;
    CyclesUnfold(isa, m, 0);
    HeadsAreTimely(isa, m, 0, left);
    SoundRun(isa, m, left);
  }

  // A component that fires in the very cycle that begins the idling spoils the
  // run: its interrupt is entered late.
  lemma FiresFallingIdle(isa: Isa, m: Machine, left: nat)
    requires 2 < left <= 0xFFFF_FFFF_FFFF_0000 && !m.idle && Parked(isa, Cycle(isa, m)) && !Quiet(Cycle(isa, m))
    ensures RunFrom(isa, m, left).entries != Cycles(isa, m, left).entries
  {
    hide *;
    LateForGood(isa, Cycle(isa, m), left - 1);
    RunUnfold(isa, m, left);
    CyclesUnfold(isa, m, 0);
    CyclesAdd(isa, m, 1, left - 1);
  }
}
