// What block repeats do however they are nested: also when blocks end at the
// same word, or have no body.
module Nesting {
  import opened Words
  import opened Registers
  import opened ProgramControl
  import opened BlockRepeats

  // Instructions have one or two words.
  predicate Worded(c: Code) {
    match c
    case End => true
    case Op(_, words, rest) => 1 <= words <= 2 && Worded(rest)
    case Rep(_, _, rest) => Worded(rest)
    case Loop(_, body, rest) => Worded(body) && Worded(rest)
  }

  // A block with this body is repeated and closed at its end.
  predicate Closes(body: Code) {
    EndsPlain(body) && WellNested(body)
  }

  // The last fetch finds no frame of the code itself above the frame around it.
  predicate Hits(c: Code) {
    match c
    case End => false
    case Op(_, _, rest) => rest == End || Hits(rest)
    case Rep(_, _, rest) => rest == End || Hits(rest)
    case Loop(_, body, rest) => if rest == End then body == End else Closes(body) && Hits(rest)
  }

  // The last item is a block without a body, whose last word is its own.
  predicate EndsEmpty(c: Code) {
    match c
    case End => false
    case Op(_, _, rest) => EndsEmpty(rest)
    case Rep(_, _, rest) => EndsEmpty(rest)
    case Loop(_, body, rest) => if rest == End then body == End else EndsEmpty(rest)
  }

  function LastCount(c: Code): u16
    requires EndsEmpty(c)
  {
    if c.Loop? && c.rest == End then c.lc else LastCount(c.rest)
  }

  // A block with this body ends with the fetch of a block repeat: the first
  // frame is dropped or starts over before the second is opened.
  predicate Reopens(body: Code) {
    Hits(body) && EndsEmpty(body)
  }

  // The frames that are left live: those of the blocks that are not closed.
  function HeadStale(c: Code): nat
    requires c != End
    decreases c, 0
  {
    if !c.Loop? || Closes(c.body) then 0
    else if Reopens(c.body) then if c.lc == 0 then 1 else 2
    else 1 + Stale(c.body)
  }

  function Stale(c: Code): nat
    decreases c, 1
  {
    if c == End then 0 else HeadStale(c) + Stale(c.rest)
  }

  // What is executed: the body of a block that is not closed runs once, or
  // twice when it reopens.
  function HeadFlow(c: Code): seq<nat>
    requires c != End
    decreases c, 0
  {
    if !c.Loop? || Closes(c.body) then HeadTrace(c)
    else if Reopens(c.body) then Reopened(c.lc, c.body)
    else Flow(c.body)
  }

  function Reopened(lc: u16, body: Code): seq<nat> {
    if lc == 0 then Unroll(body) else Unroll(body) + Unroll(body)
  }

  function Flow(c: Code): seq<nat>
    decreases c, 1
  {
    if c == End then [] else HeadFlow(c) + Flow(c.rest)
  }

  // How many words, and how many frames, the items before the last one need.
  function FrontSize(c: Code): nat
    requires c != End
  {
    if c.rest == End then 0 else HeadSize(c) + FrontSize(c.rest)
  }

  function FrontDepth(c: Code): nat
    requires c != End
  {
    if c.rest == End then 0 else Max(HeadDepth(c), FrontDepth(c.rest))
  }

  // How many frames a block that reopens needs over its own. When both counts
  // are positive every pass opens another frame, and four are too few.
  function ReopenRoom(lc: u16, body: Code): nat
    requires EndsEmpty(body)
  {
    assert body != End;
    if lc == 0 then FrontDepth(body) else if LastCount(body) == 0 then 1 + FrontDepth(body) else 4
  }

  function HeadRoom(c: Code): nat
    requires c != End
    decreases c, 0
  {
    if !c.Loop? || Closes(c.body) then HeadDepth(c)
    else if Reopens(c.body) then 1 + ReopenRoom(c.lc, c.body)
    else 1 + Room(c.body)
  }

  // How many more frames the stack needs.
  function Room(c: Code): nat
    decreases c, 1
  {
    if c == End then 0 else Max(HeadRoom(c), HeadStale(c) + Room(c.rest))
  }

  lemma {:induction false} FrontSizes(c: Code)
    requires EndsEmpty(c)
    ensures Size(c) == FrontSize(c) + 2
  {
    HeadSizes(c);
    if c.rest == End {
      assert Size(End) == 0;
    } else {
      FrontSizes(c.rest);
    }
  }

  lemma RoomOf(c: Code)
    requires c != End
    ensures Room(c) == Max(HeadRoom(c), HeadStale(c) + Room(c.rest))
    ensures Stale(c) == HeadStale(c) + Stale(c.rest) && Flow(c) == HeadFlow(c) + Flow(c.rest)
  {
    hide HeadRoom, HeadStale, HeadFlow;
  }

  lemma EndOfCode()
    ensures Size(End) == 0 && Room(End) == 0 && Stale(End) == 0 && Flow(End) == []
  {
  }

  lemma BlockCases(c: Code)
    requires c.Loop? && !Closes(c.body)
    ensures Reopens(c.body) ==>
      HeadStale(c) == (if c.lc == 0 then 1 else 2) && HeadFlow(c) == Reopened(c.lc, c.body)
      && HeadRoom(c) == 1 + ReopenRoom(c.lc, c.body)
    ensures !Reopens(c.body) ==>
      HeadStale(c) == 1 + Stale(c.body) && HeadFlow(c) == Flow(c.body) && HeadRoom(c) == 1 + Room(c.body)
  {
  }

  lemma {:induction false} StaleIsIllNested(c: Code)
    requires Worded(c)
    ensures Stale(c) == 0 <==> WellNested(c)
    ensures WellNested(c) ==> Flow(c) == Unroll(c) && Room(c) == Depth(c)
  {
    if c != End {
      StaleIsIllNested(c.rest);
      DepthOf(c);
      if WellNested(c) {
        UnrollHead(c);
      }
    }
  }

  lemma {:induction false} HitsCases(c: Code)
    requires Worded(c) && Hits(c)
    ensures Closes(c) || EndsEmpty(c)
  {
    if c.rest == End {
      assert WellNested(End);
    } else {
      HitsCases(c.rest);
    }
  }

  predicate Placed(prog: Program, e: Exec, c: Code) {
    !e.p.rep && Laid(prog, e.p.pc, c) && Worded(c) && e.p.pc + Size(c) <= 0x4_0000
  }

  // The innermost live block does not end at a fetch inside c: it ends
  // elsewhere, or at the end of c with a frame above it by then.
  predicate Passes(p: ProgramUnit, c: Code) {
    p.lp ==>
      var end := p.stack[p.bcn - 1].end;
      end < p.pc || p.pc + Size(c) <= end || (end + 1 == p.pc + Size(c) && c != End && !Hits(c))
  }

  // At the given address, with k more frames, which end before it.
  predicate Swept(p: ProgramUnit, q: ProgramUnit, k: nat, pc: nat) {
    && q.pc == pc && !q.rep && q.bcn == p.bcn + k && Live(q)[..p.bcn] == Live(p)
    && (k > 0 ==> q.stack[q.bcn - 1].end < pc)
  }

  lemma SweptNothing(p: ProgramUnit, q: ProgramUnit, pc: nat)
    ensures Left(p, q, pc) <==> Swept(p, q, 0, pc)
  {
  }

  lemma SweptTwice(p: ProgramUnit, q: ProgramUnit, r: ProgramUnit, j: nat, k: nat, mid: nat, pc: nat)
    requires Swept(p, q, j, mid) && Swept(q, r, k, pc) && mid <= pc
    ensures Swept(p, r, j + k, pc)
  {
    assert Live(r)[..p.bcn] == Live(r)[..q.bcn][..p.bcn];
    if j > 0 && k == 0 {
      assert Live(r)[..q.bcn] == Live(r);
      assert r.stack[r.bcn - 1] == Live(r)[q.bcn - 1] == Live(q)[q.bcn - 1] == q.stack[q.bcn - 1];
    }
  }

  function Alone(c: Code): Code
    requires c != End
  {
    c.(rest := End)
  }

  lemma AloneReady(prog: Program, e: Exec, c: Code)
    requires c != End && Placed(prog, e, c) && (c.Loop? ==> Closes(c.body))
    ensures Ready(prog, e, Alone(c)) && HeadSize(Alone(c)) == HeadSize(c)
    ensures HeadTrace(Alone(c)) == HeadTrace(c) && HeadDepth(Alone(c)) == HeadDepth(c)
  {
    assert Size(End) == 0 && WellNested(End);
  }

  lemma Closed(c: Code)
    requires c != End && (c.Loop? ==> Closes(c.body))
    ensures HeadFlow(c) == HeadTrace(c) && HeadStale(c) == 0 && HeadRoom(c) == HeadDepth(c)
  {
  }

  lemma SizeOfWorded(c: Code)
    requires c != End && Worded(c)
    ensures Size(c) > 0
  {
  }

  lemma PassesHead(p: ProgramUnit, c: Code)
    requires c != End && Worded(c) && Passes(p, c)
    ensures Clear(p, if c.Loop? then 2 else HeadSize(c))
  {
    HeadSizes(c);
    if c.Loop? && c.body != End {
      SizeOfWorded(c.body);
    }
    if c.rest != End {
      SizeOfWorded(c.rest);
    }
  }

  // --- a block whose last item is a bodiless block ---

  // Its last fetch passes the end of the block around it.
  lemma PassesEnd(p: ProgramUnit)
    requires p.lp && !p.rep && p.pc + 2 <= 0x4_0000 && p.stack[p.bcn - 1].end == p.pc + 1
    ensures var top := p.stack[p.bcn - 1];
            Advanced(p, 2) == if top.lc == 0 then p.(pc := p.pc + 2, bcn := p.bcn - 1, lp := p.bcn != 1)
                              else p.(pc := top.start, stack := p.stack[p.bcn - 1 := top.(lc := top.lc - 1)])
  {
  }

  lemma StepOpens(prog: Program, e: Exec, lc: u16, end: u32)
    requires e.p.pc in prog && prog[e.p.pc] == StartBlock(lc, end)
    ensures var p := Advanced(e.p, 2);
            Step(prog, e) == if p.bcn <= 3 then Some(e.(p := BlockRepeat(p, lc, end))) else None
  {
    hide Advanced, BlockRepeat;
  }

  lemma OpenedOver(p: ProgramUnit, q: ProgramUnit, lc: u16, end: u32, below: nat)
    requires q.bcn <= 3 && below <= q.bcn && below <= p.bcn && q.stack[..below] == p.stack[..below]
    ensures var r := BlockRepeat(q, lc, end);
            && r.pc == q.pc && r.rep == q.rep && r.lp && r.bcn == q.bcn + 1 && Live(r)[..below] == Live(p)[..below]
            && r.stack[r.bcn - 1] == Frame(q.pc, end, lc)
  {
    assert BlockRepeat(q, lc, end).stack[..below] == q.stack[..below];
  }

  // The block around it is replaced on its last pass and otherwise starts over
  // one frame deeper.
  lemma EmptyAtEnd(prog: Program, e: Exec, lc: u16)
    requires e.p.lp && !e.p.rep && e.p.pc + 2 <= 0x4_0000
    requires e.p.pc in prog && prog[e.p.pc] == StartBlock(lc, e.p.pc + 1)
    requires e.p.stack[e.p.bcn - 1].end == e.p.pc + 1
    ensures Step(prog, e).None? <==> e.p.stack[e.p.bcn - 1].lc > 0 && e.p.bcn == 4
    ensures Step(prog, e).Some? ==>
      var f, top := Step(prog, e).value, e.p.stack[e.p.bcn - 1];
      && f.trace == e.trace && !f.p.rep && f.p.lp && Live(f.p)[..e.p.bcn - 1] == Live(e.p)[..e.p.bcn - 1]
      && if top.lc == 0
         then f.p.bcn == e.p.bcn && f.p.pc == e.p.pc + 2
              && f.p.stack[f.p.bcn - 1] == Frame(e.p.pc + 2, e.p.pc + 1, lc)
         else f.p.bcn == e.p.bcn + 1 && f.p.pc == top.start
              && f.p.stack[f.p.bcn - 1] == Frame(top.start, e.p.pc + 1, lc)
  {
    hide Advanced, BlockRepeat, Step, Live;
    PassesEnd(e.p);
    StepOpens(prog, e, lc, e.p.pc + 1);
    var q := Advanced(e.p, 2);
    if q.bcn <= 3 {
      assert q.stack[..e.p.bcn - 1] == e.p.stack[..e.p.bcn - 1];
      OpenedOver(e.p, q, lc, e.p.pc + 1, e.p.bcn - 1);
    }
  }

  // The items before the last one, in code whose end is the end of the
  // innermost block.
  lemma {:induction false} ToLast(prog: Program, e: Exec, c: Code) returns (n: nat, f: Exec)
    requires Placed(prog, e, c) && Reopens(c) && e.p.lp && e.p.stack[e.p.bcn - 1].end + 1 == e.p.pc + Size(c)
    ensures Steps(prog, e, n) == Some(f)
    ensures e.p.bcn + FrontDepth(c) <= 4 ==>
      && Left(e.p, f.p, e.p.pc + FrontSize(c)) && f.trace == e.trace + Unroll(c)
      && f.p.pc + 2 <= 0x4_0000 && f.p.pc in prog && prog[f.p.pc] == StartBlock(LastCount(c), f.p.pc + 1)
    ensures e.p.bcn + FrontDepth(c) > 4 ==> Stuck(prog, f)
    decreases c
  {
    hide Step, Steps, Repeated, Ready, Clear, Left, Stuck, Unroll, HeadTrace, HeadDepth, Size, HeadSize, Placed;
    if c.rest == End {
      LastAlone(prog, e, c);
      n, f := 0, e;
    } else {
      AloneReady(prog, e, c);
      IsWorded(prog, e, c);
      FrontClear(e.p, c);
      var m, g := RunHead(prog, e, Alone(c));
      n, f := m, g;
      if e.p.bcn + HeadDepth(c) <= 4 {
        FrontRest(prog, e, g, c);
        var k, h := ToLast(prog, g, c.rest);
        StepsAdd(prog, e, m, g, k);
        n, f := m + k, h;
        if e.p.bcn + FrontDepth(c) <= 4 {
          UnrollHead(c);
          assert (e.trace + HeadTrace(c)) + Unroll(c.rest) == e.trace + (HeadTrace(c) + Unroll(c.rest));
          LeftTwice(e.p, g.p, h.p, e.p.pc + HeadSize(c), e.p.pc + FrontSize(c));
        }
      }
    }
  }

  lemma LastAlone(prog: Program, e: Exec, c: Code)
    requires Placed(prog, e, c) && Reopens(c) && c.rest == End
    ensures Steps(prog, e, 0) == Some(e) && Left(e.p, e.p, e.p.pc + FrontSize(c))
    ensures e.trace == e.trace + Unroll(c)
    ensures e.p.pc + 2 <= 0x4_0000 && e.p.pc in prog && prog[e.p.pc] == StartBlock(LastCount(c), e.p.pc + 1)
  {
    assert Size(End) == 0 && !EndsEmpty(End);
    assert Unroll(End) == [];
    NothingRepeated(c.lc + 1);
  }

  lemma {:induction false} NothingRepeated(n: nat)
    ensures Repeated([], n) == []
  {
    if n > 0 {
      NothingRepeated(n - 1);
    }
  }

  lemma FrontClear(p: ProgramUnit, c: Code)
    requires c != End && c.rest != End && Worded(c) && p.lp && p.stack[p.bcn - 1].end + 1 == p.pc + Size(c)
    ensures Clear(p, HeadSize(c))
  {
    HeadSizes(c);
    SizeOfWorded(c.rest);
  }

  lemma FrontRest(prog: Program, e: Exec, g: Exec, c: Code)
    requires Placed(prog, e, c) && Reopens(c) && c.rest != End && e.p.lp
    requires e.p.stack[e.p.bcn - 1].end + 1 == e.p.pc + Size(c)
    requires Left(e.p, g.p, e.p.pc + HeadSize(c))
    ensures Placed(prog, g, c.rest) && Reopens(c.rest) && g.p.lp && g.p.bcn == e.p.bcn
    ensures g.p.pc == e.p.pc + HeadSize(c)
    ensures g.p.stack[g.p.bcn - 1].end + 1 == g.p.pc + Size(c.rest) == e.p.pc + Size(c)
  {
    hide Live, HeadSize, Size;
    HeadSizes(c);
    LeftTop(e.p, g.p, e.p.pc + HeadSize(c));
    LaidRest(prog, e.p.pc, c);
  }

  lemma LaidRest(prog: Program, base: nat, c: Code)
    requires c != End && Laid(prog, base, c)
    ensures Laid(prog, base + HeadSize(c), c.rest)
  {
  }

  // At the given address, with k more frames, the innermost frame of before
  // replaced, and the last one ending before the address.
  predicate Replaced(p: ProgramUnit, q: ProgramUnit, k: nat, pc: nat) {
    && q.pc == pc && !q.rep && p.bcn > 0 && q.bcn == p.bcn + k && Live(q)[..p.bcn - 1] == Live(p)[..p.bcn - 1]
    && q.stack[q.bcn - 1].end < pc
  }

  lemma AtLast(prog: Program, e: Exec, h: Exec, body: Code)
    requires Placed(prog, e, body) && Reopens(body) && e.p.lp
    requires e.p.stack[e.p.bcn - 1].end + 1 == e.p.pc + Size(body)
    requires Left(e.p, h.p, e.p.pc + FrontSize(body))
    ensures h.p.lp && !h.p.rep && h.p.bcn == e.p.bcn && Live(h.p) == Live(e.p)
    ensures h.p.stack[h.p.bcn - 1] == e.p.stack[e.p.bcn - 1]
    ensures h.p.pc + 2 == e.p.pc + Size(body) <= 0x4_0000
  {
    FrontSizes(body);
    LeftTop(e.p, h.p, e.p.pc + FrontSize(body));
  }

  lemma StuckHere(prog: Program, e: Exec)
    requires e.p.pc in prog && Step(prog, e) == None
    ensures Stuck(prog, e)
  {
  }

  lemma NextStep(prog: Program, e: Exec, n: nat, f: Exec, g: Exec)
    requires Steps(prog, e, n) == Some(f) && Step(prog, f) == Some(g)
    ensures Steps(prog, e, n + 1) == Some(g)
  {
    hide Step;
  }

  lemma AgainPlaced(prog: Program, e: Exec, g: Exec, c: Code)
    requires Placed(prog, e, c) && g.p.pc == e.p.pc && !g.p.rep
    ensures Placed(prog, g, c)
  {
  }

  lemma OnceReplaced(p: ProgramUnit, h: ProgramUnit, q: ProgramUnit, pc: nat)
    requires p.lp && h.bcn == p.bcn && Live(h) == Live(p)
    requires q.bcn == p.bcn && Live(q)[..p.bcn - 1] == Live(h)[..p.bcn - 1]
    requires q.pc == pc && !q.rep && q.stack[q.bcn - 1].end < pc
    ensures Replaced(p, q, 0, pc)
  {
  }

  lemma OverAgain(p: ProgramUnit, h: ProgramUnit, q: ProgramUnit, r: ProgramUnit, pc: nat)
    requires p.lp && h.bcn == p.bcn && Live(h) == Live(p)
    requires q.bcn == p.bcn + 1 && Live(q)[..p.bcn - 1] == Live(h)[..p.bcn - 1]
    requires Replaced(q, r, 0, pc)
    ensures Replaced(p, r, 1, pc)
  {
    assert Live(r)[..p.bcn - 1] == Live(r)[..p.bcn][..p.bcn - 1];
    assert Live(q)[..p.bcn - 1] == Live(q)[..p.bcn][..p.bcn - 1];
  }

  // All passes of such a block, from its first word.
  lemma {:induction false} RunReopened(prog: Program, e: Exec, body: Code) returns (n: nat, f: Exec)
    requires Placed(prog, e, body) && Reopens(body) && e.p.lp
    requires var top := e.p.stack[e.p.bcn - 1]; top.start == e.p.pc && top.end + 1 == e.p.pc + Size(body)
    ensures Steps(prog, e, n) == Some(f)
    ensures var lc := e.p.stack[e.p.bcn - 1].lc;
            if e.p.bcn + ReopenRoom(lc, body) <= 4
            then Replaced(e.p, f.p, if lc == 0 then 0 else 1, e.p.pc + Size(body))
                 && f.trace == e.trace + Reopened(lc, body)
            else Stuck(prog, f)
    decreases 4 - e.p.bcn
  {
    hide Step, Steps, Placed, Hits, Left, Live, Stuck, Unroll, Size, FrontDepth, Replaced;
    assert body != End;
    var top := e.p.stack[e.p.bcn - 1];
    var m, h := ToLast(prog, e, body);
    n, f := m, h;
    if e.p.bcn + FrontDepth(body) <= 4 {
      AtLast(prog, e, h, body);
      EmptyAtEnd(prog, h, LastCount(body));
      if Step(prog, h) == None {
        StuckHere(prog, h);
      } else {
        var g := Step(prog, h).value;
        NextStep(prog, e, m, h, g);
        n, f := m + 1, g;
        if top.lc > 0 {
          AgainPlaced(prog, e, g, body);
          var k, r := RunReopened(prog, g, body);
          StepsAdd(prog, e, m + 1, g, k);
          n, f := m + 1 + k, r;
          if LastCount(body) == 0 && g.p.bcn + FrontDepth(body) <= 4 {
            OverAgain(e.p, h.p, g.p, r.p, e.p.pc + Size(body));
            assert (e.trace + Unroll(body)) + Unroll(body) == e.trace + (Unroll(body) + Unroll(body));
          }
        } else {
          OnceReplaced(e.p, h.p, g.p, e.p.pc + Size(body));
        }
      }
    }
  }

  // --- any code ---

  // One item, whatever its nesting.
  lemma {:induction false} RunItem(prog: Program, e: Exec, c: Code) returns (n: nat, f: Exec)
    requires c != End && Placed(prog, e, c) && Passes(e.p, c)
    ensures Steps(prog, e, n) == Some(f)
    ensures if e.p.bcn + HeadRoom(c) <= 4
            then Swept(e.p, f.p, HeadStale(c), e.p.pc + HeadSize(c)) && f.trace == e.trace + HeadFlow(c)
            else Stuck(prog, f)
    decreases c, 1
  {
    hide Step, Steps, Repeated, Swept, Left, Clear, Passes, Placed, Ready, Worded, Stuck, HeadDepth, HeadTrace;
    IsWorded(prog, e, c);
    PassesHead(e.p, c);
    if c.Loop? {
      n, f := RunBlock(prog, e, c);
    } else {
      AloneReady(prog, e, c);
      Closed(c);
      n, f := RunHead(prog, e, Alone(c));
      SweptNothing(e.p, f.p, e.p.pc + HeadSize(c));
    }
  }

  lemma IsWorded(prog: Program, e: Exec, c: Code)
    requires Placed(prog, e, c)
    ensures Worded(c) && !e.p.rep
  {
  }

  // The fetch that opens a frame, and the frame.
  lemma Opened(prog: Program, e: Exec, c: Code) returns (g: Exec)
    requires c.Loop? && Placed(prog, e, c) && Clear(e.p, 2) && e.p.bcn <= 3
    ensures Steps(prog, e, 1) == Some(g) && g.trace == e.trace
    ensures g.p == BlockRepeat(e.p.(pc := e.p.pc + 2), c.lc, e.p.pc + 1 + Size(c.body))
    ensures g.p.lp && g.p.bcn == e.p.bcn + 1 && Live(g.p)[..e.p.bcn] == Live(e.p) && g.p.pc == e.p.pc + 2
    ensures g.p.stack[g.p.bcn - 1] == Frame(e.p.pc + 2, e.p.pc + 1 + Size(c.body), c.lc)
  {
    LoopStart(prog, e, c.lc, e.p.pc + 1 + Size(c.body));
    g := Exec(BlockRepeat(e.p.(pc := e.p.pc + 2), c.lc, e.p.pc + 1 + Size(c.body)), e.trace);
  }

  lemma InnerPlaced(prog: Program, e: Exec, g: Exec, c: Code)
    requires c.Loop? && Placed(prog, e, c) && e.p.bcn <= 3
    requires g.p == BlockRepeat(e.p.(pc := e.p.pc + 2), c.lc, e.p.pc + 1 + Size(c.body))
    ensures Placed(prog, g, c.body)
    ensures !Hits(c.body) ==> Passes(g.p, c.body)
  {
  }

  // The frame of the block itself stays under whatever its body leaves.
  lemma StaysOpen(p: ProgramUnit, q: ProgramUnit, r: ProgramUnit, k: nat, pc: nat)
    requires q.bcn == p.bcn + 1 && Live(q)[..p.bcn] == Live(p) && q.stack[q.bcn - 1].end < pc
    requires Swept(q, r, k, pc)
    ensures Swept(p, r, 1 + k, pc)
  {
    assert Live(r)[..p.bcn] == Live(r)[..q.bcn][..p.bcn];
    if k == 0 {
      assert r.stack[r.bcn - 1] == Live(r)[..q.bcn][q.bcn - 1] == q.stack[q.bcn - 1];
    }
  }

  lemma LeavesReplaced(p: ProgramUnit, q: ProgramUnit, r: ProgramUnit, k: nat, pc: nat)
    requires q.bcn == p.bcn + 1 && Live(q)[..p.bcn] == Live(p) && Replaced(q, r, k, pc)
    ensures Swept(p, r, 1 + k, pc)
  {
  }

  lemma {:induction false} RunBlock(prog: Program, e: Exec, c: Code) returns (n: nat, f: Exec)
    requires c.Loop? && Placed(prog, e, c) && Clear(e.p, 2)
    ensures Steps(prog, e, n) == Some(f)
    ensures if e.p.bcn + HeadRoom(c) <= 4
            then Swept(e.p, f.p, HeadStale(c), e.p.pc + HeadSize(c)) && f.trace == e.trace + HeadFlow(c)
            else Stuck(prog, f)
    decreases c, 0
  {
    hide *;
    if e.p.bcn == 4 {
      BlockNeedsFrame(prog, e, c);
      ZeroSteps(prog, e);
      n, f := 0, e;
    } else {
      AtMostFour(e.p);
      if Closes(c.body) {
        n, f := RunClosed(prog, e, c);
      } else {
        var g := Opened(prog, e, c);
        InnerPlaced(prog, e, g, c);
        BlockSize(c);
        var m, h;
        if Reopens(c.body) {
          m, h := RunReopened(prog, g, c.body);
          FromReopened(prog, e, g, h, c);
        } else {
          NotHit(prog, g, c.body);
          m, h := RunAny(prog, g, c.body);
          FromOpen(prog, e, g, h, c);
        }
        StepsAdd(prog, e, 1, g, m);
        n, f := 1 + m, h;
      }
    }
  }

  lemma AtMostFour(p: ProgramUnit)
    ensures p.bcn <= 4
  {
  }

  lemma BlockSize(c: Code)
    requires c.Loop?
    ensures HeadSize(c) == 2 + Size(c.body)
  {
  }

  lemma FromReopened(prog: Program, e: Exec, g: Exec, h: Exec, c: Code)
    requires c.Loop? && !Closes(c.body) && Reopens(c.body) && g.trace == e.trace
    requires g.p.bcn == e.p.bcn + 1 && Live(g.p)[..e.p.bcn] == Live(e.p) && g.p.pc == e.p.pc + 2
    requires if g.p.bcn + ReopenRoom(c.lc, c.body) <= 4
             then Replaced(g.p, h.p, if c.lc == 0 then 0 else 1, g.p.pc + Size(c.body))
                  && h.trace == g.trace + Reopened(c.lc, c.body)
             else Stuck(prog, h)
    ensures if e.p.bcn + HeadRoom(c) <= 4
            then Swept(e.p, h.p, HeadStale(c), e.p.pc + 2 + Size(c.body)) && h.trace == e.trace + HeadFlow(c)
            else Stuck(prog, h)
  {
    hide Closes, Reopened, ReopenRoom, HeadRoom, HeadStale, HeadFlow, Stuck, Swept, Replaced, Size, Live;
    BlockCases(c);
    if g.p.bcn + ReopenRoom(c.lc, c.body) <= 4 {
      LeavesReplaced(e.p, g.p, h.p, if c.lc == 0 then 0 else 1, g.p.pc + Size(c.body));
    }
  }

  lemma FromOpen(prog: Program, e: Exec, g: Exec, h: Exec, c: Code)
    requires c.Loop? && !Closes(c.body) && !Reopens(c.body) && g.trace == e.trace
    requires g.p.bcn == e.p.bcn + 1 && Live(g.p)[..e.p.bcn] == Live(e.p) && g.p.pc == e.p.pc + 2
    requires g.p.stack[g.p.bcn - 1].end == e.p.pc + 1 + Size(c.body)
    requires if g.p.bcn + Room(c.body) <= 4
             then Swept(g.p, h.p, Stale(c.body), g.p.pc + Size(c.body)) && h.trace == g.trace + Flow(c.body)
             else Stuck(prog, h)
    ensures if e.p.bcn + HeadRoom(c) <= 4
            then Swept(e.p, h.p, HeadStale(c), e.p.pc + 2 + Size(c.body)) && h.trace == e.trace + HeadFlow(c)
            else Stuck(prog, h)
  {
    hide Closes, Reopens, Room, Stale, Flow, HeadRoom, HeadStale, HeadFlow, Stuck, Swept, Size, Live;
    BlockCases(c);
    if g.p.bcn + Room(c.body) <= 4 {
      StaysOpen(e.p, g.p, h.p, Stale(c.body), g.p.pc + Size(c.body));
    }
  }

  lemma ClosedBody(c: Code)
    requires c.Loop? && Closes(c.body)
    ensures EndsPlain(c.body) && HeadDepth(c) == 1 + Depth(c.body)
  {
  }

  lemma NotHit(prog: Program, e: Exec, body: Code)
    requires Placed(prog, e, body) && !Closes(body) && !Reopens(body)
    ensures !Hits(body)
  {
    hide Closes;
    if Hits(body) {
      HitsCases(body);
    }
  }

  lemma BlockNeedsFrame(prog: Program, e: Exec, c: Code)
    requires c.Loop? && Placed(prog, e, c) && Clear(e.p, 2) && e.p.bcn == 4
    ensures Stuck(prog, e) && HeadRoom(c) > 0
  {
    FullStack(prog, e, c.lc, e.p.pc + 1 + Size(c.body));
  }

  lemma RunClosed(prog: Program, e: Exec, c: Code) returns (n: nat, f: Exec)
    requires c.Loop? && Placed(prog, e, c) && Clear(e.p, 2) && Closes(c.body) && e.p.bcn <= 3
    ensures Steps(prog, e, n) == Some(f)
    ensures if e.p.bcn + HeadRoom(c) <= 4
            then Swept(e.p, f.p, HeadStale(c), e.p.pc + HeadSize(c)) && f.trace == e.trace + HeadFlow(c)
            else Stuck(prog, f)
  {
    hide Step, Steps, Repeated, Clear, Ready, Stuck, Depth, Laid, Placed, Closes, HeadRoom, HeadStale, HeadFlow, Unroll;
    AloneReady(prog, e, c);
    Closed(c);
    ClosedBody(c);
    var end := e.p.pc + 1 + Size(c.body);
    var g := Opened(prog, e, c);
    OpenedFrame(prog, e, Alone(c));
    var m, h := RunLoop(prog, g, c.body);
    StepsAdd(prog, e, 1, g, m);
    n, f := 1 + m, h;
  }

  // Any code runs through to its end, or into the assertion.
  lemma {:induction false} RunAny(prog: Program, e: Exec, c: Code) returns (n: nat, f: Exec)
    requires Placed(prog, e, c) && Passes(e.p, c)
    ensures Steps(prog, e, n) == Some(f)
    ensures if e.p.bcn + Room(c) <= 4
            then Swept(e.p, f.p, Stale(c), e.p.pc + Size(c)) && f.trace == e.trace + Flow(c)
            else Stuck(prog, f)
    decreases c, 2
  {
    hide Step, Steps, Swept, Passes, Placed, Stuck, HeadRoom, HeadStale, HeadFlow, Room, Stale, Flow, Size, HeadSize;
    IsWorded(prog, e, c);
    EndOfCode();
    if c == End {
      ZeroSteps(prog, e);
      n, f := 0, e;
      NotMoved(e.p);
    } else {
      RoomOf(c);
      HeadSizes(c);
      var m, g := RunItem(prog, e, c);
      n, f := m, g;
      if e.p.bcn + HeadRoom(c) <= 4 {
        RestPlaced(prog, e, g, c);
        RestPasses(e.p, g.p, c);
        var k, h := RunAny(prog, g, c.rest);
        StepsAdd(prog, e, m, g, k);
        n, f := m + k, h;
        if e.p.bcn + Room(c) <= 4 {
          assert (e.trace + HeadFlow(c)) + Flow(c.rest) == e.trace + (HeadFlow(c) + Flow(c.rest));
          SweptTwice(e.p, g.p, h.p, HeadStale(c), Stale(c.rest), e.p.pc + HeadSize(c), e.p.pc + Size(c));
        }
      }
    }
  }

  lemma RestPlaced(prog: Program, e: Exec, g: Exec, c: Code)
    requires c != End && Placed(prog, e, c)
    requires Swept(e.p, g.p, HeadStale(c), e.p.pc + HeadSize(c))
    ensures Placed(prog, g, c.rest) && g.p.pc + Size(c.rest) == e.p.pc + Size(c)
    ensures g.p.bcn == e.p.bcn + HeadStale(c)
  {
    hide HeadStale, Live;
  }

  lemma RestPasses(p: ProgramUnit, q: ProgramUnit, c: Code)
    requires c != End && Worded(c) && Passes(p, c)
    requires Swept(p, q, HeadStale(c), p.pc + HeadSize(c))
    ensures Passes(q, c.rest)
  {
    hide HeadStale, Closes, EndsEmpty, Swept, Left, HeadSize, Size;
    HeadSizes(c);
    EndOfCode();
    SweptTop(p, q, HeadStale(c), p.pc + HeadSize(c));
    if HeadStale(c) == 0 {
      ClosedHead(c);
    }
  }

  lemma ClosedHead(c: Code)
    requires c != End && HeadStale(c) == 0
    ensures c.Loop? ==> Closes(c.body)
  {
  }

  lemma SweptTop(p: ProgramUnit, q: ProgramUnit, k: nat, pc: nat)
    requires Swept(p, q, k, pc)
    ensures q.pc == pc
    ensures k > 0 ==> q.lp && q.stack[q.bcn - 1].end < pc
    ensures k == 0 ==> q.lp == p.lp && (p.lp ==> q.stack[q.bcn - 1] == p.stack[p.bcn - 1])
  {
    if k == 0 && p.lp {
      SweptNothing(p, q, pc);
      LeftTop(p, q, pc);
    }
  }

  lemma NotMoved(p: ProgramUnit)
    requires !p.rep
    ensures Swept(p, p, 0, p.pc)
  {
  }

  // --- where the code ends ---

  // The first arrival at an address, after n cycles.
  predicate Arrives(prog: Program, e: Exec, pc: nat, n: nat, f: Exec) {
    && Steps(prog, e, n) == Some(f) && f.p.pc == pc
    && forall k :: 0 <= k < n && Steps(prog, e, k).Some? ==> Steps(prog, e, k).value.p.pc != pc
  }

  // A program without the word at an address stops there, and runs the same
  // until then.
  lemma {:induction false} SameUntil(prog: Program, e: Exec, pc: nat, n: nat, f: Exec)
    requires Arrives(prog, e, pc, n, f)
    ensures Steps(prog - {pc}, e, n) == Some(f)
  {
    hide Advanced;
    SamePrefix(prog, e, pc, n);
  }

  lemma {:induction false} SamePrefix(prog: Program, e: Exec, pc: nat, n: nat)
    requires forall k :: 0 <= k < n && Steps(prog, e, k).Some? ==> Steps(prog, e, k).value.p.pc != pc
    ensures Steps(prog - {pc}, e, n) == Steps(prog, e, n)
  {
    hide Advanced;
    if n > 0 {
      SamePrefix(prog, e, pc, n - 1);
    }
  }

  lemma {:induction false} LaidWithout(prog: Program, base: nat, c: Code, pc: nat)
    requires Laid(prog, base, c) && Worded(c) && base + Size(c) <= pc
    ensures Laid(prog - {pc}, base, c)
    decreases c
  {
    if c != End {
      HeadSizes(c);
      LaidWithout(prog, base + HeadSize(c), c.rest, pc);
      if c.Loop? {
        LaidWithout(prog, base + 2, c.body, pc);
      }
    }
  }

  lemma {:induction false} Halted(prog: Program, e: Exec, n: nat, f: Exec, k: nat)
    requires Steps(prog, e, n) == Some(f) && Step(prog, f) == None && k > 0
    ensures Steps(prog, e, n + k) == None
  {
    hide Step;
    if k > 1 {
      Halted(prog, e, n, f, k - 1);
    }
  }

  // Both runs have stopped, so they are the same run.
  lemma OneHalt(prog: Program, e: Exec, n: nat, f: Exec, k: nat, g: Exec)
    requires Steps(prog, e, n) == Some(f) && Step(prog, f) == None
    requires Steps(prog, e, k) == Some(g) && Step(prog, g) == None
    ensures f == g
  {
    hide Step, Steps;
    if k < n {
      Halted(prog, e, k, g, n - k);
    } else if n < k {
      Halted(prog, e, n, f, k - n);
    }
  }

  // Strict nesting is exactly what it takes, for any code in any program. When
  // the run first arrives at the word after the code, having executed its flow,
  // the repeat hardware is as it was before if and only if the code is well
  // nested.
  lemma NestingExactly(prog: Program, e: Exec, c: Code, n: nat, f: Exec)
    requires Placed(prog, e, c) && Clear(e.p, Size(c))
    requires Arrives(prog, e, e.p.pc + Size(c), n, f)
    ensures e.p.bcn + Room(c) <= 4
    ensures f.trace == e.trace + Flow(c) && f.p.bcn == e.p.bcn + Stale(c)
    ensures Left(e.p, f.p, e.p.pc + Size(c)) <==> WellNested(c)
  {
    hide Step, Steps, Left, Laid, Passes, Worded, Swept, Stuck, Size;
    var pc := e.p.pc + Size(c);
    var cut := prog - {pc};
    LaidWithout(prog, e.p.pc, c, pc);
    ClearPasses(e.p, c);
    var k, g := RunAny(cut, e, c);
    SameUntil(prog, e, pc, n, f);
    StopsOff(cut, f);
    if e.p.bcn + Room(c) <= 4 {
      SweptAt(e.p, g.p, Stale(c), pc);
      StopsOff(cut, g);
    } else {
      StopsStuck(cut, g, pc);
    }
    OneHalt(cut, e, n, f, k, g);
    StaleIsIllNested(c);
    LeftMeansNoMore(e.p, f.p, pc);
    SweptNothing(e.p, f.p, pc);
  }

  lemma ClearPasses(p: ProgramUnit, c: Code)
    requires Clear(p, Size(c))
    ensures Passes(p, c)
  {
  }

  lemma StopsOff(prog: Program, e: Exec)
    requires e.p.pc !in prog
    ensures Step(prog, e) == None
  {
  }

  lemma StopsStuck(prog: Program, e: Exec, pc: nat)
    requires Stuck(prog, e) && pc !in prog
    ensures Step(prog, e) == None && e.p.pc != pc
  {
  }

  lemma SweptAt(p: ProgramUnit, q: ProgramUnit, k: nat, pc: nat)
    requires Swept(p, q, k, pc)
    ensures q.pc == pc && q.bcn == p.bcn + k
  {
  }

  lemma LeftMeansNoMore(p: ProgramUnit, q: ProgramUnit, pc: nat)
    ensures Left(p, q, pc) ==> q.bcn == p.bcn
  {
  }

  lemma {:induction false} FirstArrival(prog: Program, e: Exec, pc: nat, n: nat) returns (m: nat, f: Exec)
    requires Steps(prog, e, n).Some? && Steps(prog, e, n).value.p.pc == pc
    ensures Arrives(prog, e, pc, m, f)
  {
    hide Steps;
    if k: nat :| k < n && Steps(prog, e, k).Some? && Steps(prog, e, k).value.p.pc == pc {
      m, f := FirstArrival(prog, e, pc, k);
    } else {
      m, f := n, Steps(prog, e, n).value;
    }
  }

  ghost predicate Reaches(prog: Program, e: Exec, pc: nat) {
    exists n, f :: Arrives(prog, e, pc, n, f)
  }

  ghost predicate Trips(prog: Program, e: Exec) {
    exists n :: Steps(prog, e, n).Some? && Stuck(prog, Steps(prog, e, n).value)
  }

  // And it does arrive there if and only if the repeat stack has room;
  // otherwise it trips the assertion on a full stack.
  lemma ArrivesExactly(prog: Program, e: Exec, c: Code)
    requires Placed(prog, e, c) && Clear(e.p, Size(c))
    ensures Reaches(prog, e, e.p.pc + Size(c)) <==> e.p.bcn + Room(c) <= 4
    ensures e.p.bcn + Room(c) > 4 ==> Trips(prog, e)
  {
    hide Step, Steps, Placed, Arrives, Swept, Stuck, Size;
    var pc := e.p.pc + Size(c);
    ClearPasses(e.p, c);
    var k, g := RunAny(prog, e, c);
    if e.p.bcn + Room(c) <= 4 {
      SweptAt(e.p, g.p, Stale(c), pc);
      var m, f := FirstArrival(prog, e, pc, k);
      assert Reaches(prog, e, pc);
    } else {
      assert Steps(prog, e, k).Some?;
    }
    forall n, f | Arrives(prog, e, pc, n, f)
      ensures e.p.bcn + Room(c) <= 4
    {
      NestingExactly(prog, e, c, n, f);
    }
  }

  // Nested loops multiply, in a run of the repeat hardware.
  lemma NestedRunsMultiply(prog: Program, e: Exec, outer: nat, inner: nat, body: Code, after: Code, rest: Code, id: nat)
    returns (n: nat, f: Exec)
    requires outer < 0x1_0000 && inner < 0x1_0000
    requires var c := Loop(outer, Loop(inner, body, after), rest);
             Ready(prog, e, c) && e.p.bcn + Depth(c) <= 4 && Clear(e.p, Size(c))
    ensures Steps(prog, e, n) == Some(f)
    ensures Count(f.trace, id) == Count(e.trace, id)
            + (outer + 1) * ((inner + 1) * Count(Unroll(body), id) + Count(Unroll(after), id)) + Count(Unroll(rest), id)
  {
    hide Step, Steps, Count, Unroll, Ready, Clear, Depth;
    var c := Loop(outer, Loop(inner, body, after), rest);
    n, f := RunsAsUnrolled(prog, e, c);
    CountAppend(e.trace, Unroll(c), id);
    NestedLoopsMultiply(outer, inner, body, after, rest, id);
  }
}
