// Straight-line code with repeats and nested block repeats, laid out in
// program memory, runs exactly as its unrolling.
module BlockRepeats {
  import opened Words
  import opened Arith
  import opened Registers
  import opened ProgramControl

  // Structured code: a plain instruction of one or two words, a one-word
  // instruction under a repeat, or a block repeat (two words and its body),
  // each followed by the rest.
  datatype Code =
    | End
    | Op(id: nat, words: nat, rest: Code)
    | Rep(count: u16, id: nat, rest: Code)
    | Loop(lc: u16, body: Code, rest: Code)

  function Size(c: Code): nat {
    match c
    case End => 0
    case Op(_, words, rest) => words + Size(rest)
    case Rep(_, _, rest) => 2 + Size(rest)
    case Loop(_, body, rest) => 2 + Size(body) + Size(rest)
  }

  function HeadSize(c: Code): nat
    requires c != End
  {
    match c
    case Op(_, words, _) => words
    case Rep(_, _, _) => 2
    case Loop(_, body, _) => 2 + Size(body)
  }

  function Repeated(trace: seq<nat>, n: nat): seq<nat> {
    if n == 0 then [] else Repeated(trace, n - 1) + trace
  }

  // The plain instructions in the order they are executed.
  function Unroll(c: Code): seq<nat> {
    match c
    case End => []
    case Op(id, _, rest) => [id] + Unroll(rest)
    case Rep(count, id, rest) => Repeated([id], count + 1) + Unroll(rest)
    case Loop(lc, body, rest) => Repeated(Unroll(body), lc + 1) + Unroll(rest)
  }

  function HeadTrace(c: Code): seq<nat>
    requires c != End
  {
    match c
    case Op(id, _, _) => [id]
    case Rep(count, id, _) => Repeated([id], count + 1)
    case Loop(lc, body, _) => Repeated(Unroll(body), lc + 1)
  }

  // The last instruction is a plain or a repeated one.
  predicate EndsPlain(c: Code) {
    match c
    case End => false
    case Op(_, _, rest) => rest == End || EndsPlain(rest)
    case Rep(_, _, rest) => rest == End || EndsPlain(rest)
    case Loop(_, _, rest) => EndsPlain(rest)
  }

  // Blocks nest strictly: no two of them end at the same word.
  predicate WellNested(c: Code) {
    match c
    case End => true
    case Op(_, words, rest) => 1 <= words <= 2 && WellNested(rest)
    case Rep(_, _, rest) => WellNested(rest)
    case Loop(_, body, rest) => EndsPlain(body) && WellNested(body) && WellNested(rest)
  }

  function Max(a: nat, b: nat): nat {
    if a > b then a else b
  }

  // How many frames the blocks need at once.
  function Depth(c: Code): nat
    decreases c, 1
  {
    if c == End then 0 else Max(HeadDepth(c), Depth(c.rest))
  }

  function HeadDepth(c: Code): nat
    requires c != End
    decreases c, 0
  {
    if c.Loop? then 1 + Depth(c.body) else 0
  }

  // What the cycle loop finds at an address.
  datatype Instr = Plain(id: nat, words: nat) | StartRep(count: u16) | StartBlock(lc: u16, end: u32)

  type Program = map<nat, Instr>

  predicate Laid(prog: Program, base: nat, c: Code)
    decreases c
  {
    match c
    case End => true
    case Op(id, words, rest) =>
      base in prog && prog[base] == Plain(id, words) && Laid(prog, base + words, rest)
    case Rep(count, id, rest) =>
      && base in prog && prog[base] == StartRep(count)
      && base + 1 in prog && prog[base + 1] == Plain(id, 1)
      && Laid(prog, base + 2, rest)
    case Loop(lc, body, rest) =>
      && base + 1 + Size(body) < 0x4_0000
      && base in prog && prog[base] == StartBlock(lc, base + 1 + Size(body))
      && Laid(prog, base + 2, body) && Laid(prog, base + 2 + Size(body), rest)
  }

  datatype Exec = Exec(p: ProgramUnit, trace: seq<nat>)

  function Advanced(p: ProgramUnit, words: nat): ProgramUnit {
    AfterFetch(p.(pc := (p.pc + words) % 0x1_0000_0000))
  }

  // One uninterrupted cycle. None is the assertion on a full repeat stack, or
  // running off the program.
  function Step(prog: Program, e: Exec): Option<Exec> {
    if e.p.pc !in prog then None
    else match prog[e.p.pc]
      case Plain(id, words) => Some(Exec(Advanced(e.p, words), e.trace + [id]))
      case StartRep(count) => Some(e.(p := Advanced(e.p, 1).(rep := true, repc := count)))
      case StartBlock(lc, end) =>
        var p := Advanced(e.p, 2);
        if p.bcn <= 3 then Some(e.(p := BlockRepeat(p, lc, end))) else None
  }

  function Steps(prog: Program, e: Exec, n: nat): Option<Exec> {
    if n == 0 then Some(e)
    else match Steps(prog, e, n - 1)
      case None => None
      case Some(f) => Step(prog, f)
  }

  lemma {:induction false} StepsAdd(prog: Program, e: Exec, m: nat, f: Exec, n: nat)
    requires Steps(prog, e, m) == Some(f)
    ensures Steps(prog, e, m + n) == Steps(prog, f, n)
  {
    hide Step;
    if n > 0 {
      StepsAdd(prog, e, m, f, n - 1);
    }
  }

  // The assertion on a full repeat stack is about to fail.
  predicate Stuck(prog: Program, e: Exec) {
    e.p.pc in prog && Step(prog, e) == None
  }

  // Where a stretch of code leaves the repeat hardware: at the given address,
  // no repeat pending, and the live frames as they were.
  predicate Left(p: ProgramUnit, q: ProgramUnit, pc: nat) {
    q.pc == pc && !q.rep && q.bcn == p.bcn && q.lp == p.lp && Live(q) == Live(p)
  }

  // The innermost live block does not end within the next `size` words.
  predicate Clear(p: ProgramUnit, size: nat) {
    p.lp ==> var end := p.stack[p.bcn - 1].end; end < p.pc || p.pc + size <= end
  }

  lemma {:induction false} RepeatedFront(t: seq<nat>, n: nat)
    ensures t + Repeated(t, n) == Repeated(t, n + 1)
  {
    if n > 0 {
      RepeatedFront(t, n - 1);
      assert t + (Repeated(t, n - 1) + t) == (t + Repeated(t, n - 1)) + t;
    }
  }

  // One more pass of a repeated instruction.
  lemma RepeatPass(prog: Program, e: Exec, id: nat)
    requires e.p.rep && e.p.repc > 0 && e.p.pc < 0x4_0000 && !AtBlockEnd(e.p)
    requires e.p.pc in prog && prog[e.p.pc] == Plain(id, 1)
    ensures var q := e.p.(repc := e.p.repc - 1);
            Steps(prog, e, 1) == Some(Exec(q, e.trace + [id])) && !AtBlockEnd(q)
  {
  }

  lemma TraceFront(trace: seq<nat>, t: seq<nat>, n: nat)
    ensures (trace + t) + Repeated(t, n) == trace + Repeated(t, n + 1)
  {
    RepeatedFront(t, n);
    assert (trace + t) + Repeated(t, n) == trace + (t + Repeated(t, n));
  }

  // A repeated instruction runs in place until its counter is used up.
  lemma {:induction false} RunRepeated(prog: Program, e: Exec, id: nat) returns (f: Exec)
    requires e.p.rep && e.p.pc < 0x4_0000 && !AtBlockEnd(e.p)
    requires e.p.pc in prog && prog[e.p.pc] == Plain(id, 1)
    ensures f.p == e.p.(repc := 0) && f.trace == e.trace + Repeated([id], e.p.repc)
    ensures Steps(prog, e, e.p.repc) == Some(f)
    decreases e.p.repc
  {
    if e.p.repc == 0 {
      f := e;
    } else {
      RepeatPass(prog, e, id);
      var g := Exec(e.p.(repc := e.p.repc - 1), e.trace + [id]);
      f := RunRepeated(prog, g, id);
      StepsAdd(prog, e, 1, g, e.p.repc - 1);
      TraceFront(e.trace, [id], e.p.repc - 1);
    }
  }

  // The last pass of an instruction, repeated or not.
  lemma LastPass(prog: Program, e: Exec, id: nat, words: nat)
    requires e.p.pc in prog && prog[e.p.pc] == Plain(id, words) && 0 < words && e.p.pc + words <= 0x4_0000
    requires e.p.rep ==> e.p.repc == 0
    ensures Steps(prog, e, 1) == Some(Exec(BlockStage(e.p.(pc := e.p.pc + words, rep := false)), e.trace + [id]))
  {
  }

  // The rep instruction itself.
  lemma RepStart(prog: Program, e: Exec, count: u16)
    requires !e.p.rep && e.p.pc + 2 <= 0x4_0000 && Clear(e.p, 1)
    requires e.p.pc in prog && prog[e.p.pc] == StartRep(count)
    ensures var q := e.p.(pc := e.p.pc + 1, rep := true, repc := count);
            Steps(prog, e, 1) == Some(Exec(q, e.trace)) && !AtBlockEnd(q)
  {
  }

  // A rep instruction and all passes of its target.
  lemma RunRep(prog: Program, e: Exec, count: u16, id: nat) returns (n: nat, f: Exec)
    requires !e.p.rep && e.p.pc + 2 <= 0x4_0000 && Clear(e.p, 1)
    requires e.p.pc in prog && prog[e.p.pc] == StartRep(count)
    requires e.p.pc + 1 in prog && prog[e.p.pc + 1] == Plain(id, 1)
    ensures Steps(prog, e, n) == Some(f)
    ensures f.p == BlockStage(e.p.(pc := e.p.pc + 2, repc := 0))
    ensures f.trace == e.trace + Repeated([id], count + 1)
  {
    hide Step, AtBlockEnd, BlockStage, Steps, Clear;
    RepStart(prog, e, count);
    var g := Exec(e.p.(pc := e.p.pc + 1, rep := true, repc := count), e.trace);
    var h := RunRepeated(prog, g, id);
    StepsAdd(prog, e, 1, g, count);
    LastPass(prog, h, id, 1);
    StepsAdd(prog, e, 1 + count, h, 1);
    n := 1 + count + 1;
    f := Exec(BlockStage(h.p.(pc := h.p.pc + 1, rep := false)), h.trace + [id]);
  }

  lemma NoBlockEnd(p: ProgramUnit, q: ProgramUnit, size: nat)
    requires Clear(p, size) && size > 0 && p.pc + size <= 0x4_0000
    requires q.pc == p.pc + size && q.lp == p.lp && q.bcn == p.bcn && q.stack == p.stack
    ensures BlockStage(q) == q
  {
  }

  // What passing the end of the innermost block leaves behind.
  predicate Wrapped(p: ProgramUnit, q: ProgramUnit, pc: nat)
    requires p.lp
  {
    var top := p.stack[p.bcn - 1];
    && !q.rep
    && if top.lc == 0 then q.pc == pc && q.bcn == p.bcn - 1 && q.lp == (p.bcn != 1) && Live(q) == Live(p)[..p.bcn - 1]
       else q.pc == top.start && q.bcn == p.bcn && q.lp && Live(q) == Live(p)[p.bcn - 1 := top.(lc := top.lc - 1)]
  }

  lemma BlockEndWraps(p: ProgramUnit, q: ProgramUnit)
    requires p.lp && q.lp && !q.rep && q.bcn == p.bcn && Live(q) == Live(p)
    requires q.pc == p.stack[p.bcn - 1].end + 1 && q.pc < 0x8_0000
    ensures Wrapped(p, BlockStage(q), q.pc)
  {
  }

  // The fetch of a block repeat opens a frame.
  lemma LoopStart(prog: Program, e: Exec, lc: u16, end: u32)
    requires !e.p.rep && e.p.pc + 2 <= 0x4_0000 && Clear(e.p, 2) && e.p.bcn <= 3
    requires e.p.pc in prog && prog[e.p.pc] == StartBlock(lc, end)
    ensures Steps(prog, e, 1) == Some(Exec(BlockRepeat(e.p.(pc := e.p.pc + 2), lc, end), e.trace))
  {
  }

  predicate Ready(prog: Program, e: Exec, c: Code) {
    !e.p.rep && Laid(prog, e.p.pc, c) && WellNested(c) && e.p.pc + Size(c) <= 0x4_0000
  }

  // With four frames live the fetch of a block repeat fails its assertion.
  lemma FullStack(prog: Program, e: Exec, lc: u16, end: u32)
    requires !e.p.rep && e.p.pc + 2 <= 0x4_0000 && Clear(e.p, 2) && e.p.bcn == 4
    requires e.p.pc in prog && prog[e.p.pc] == StartBlock(lc, end)
    ensures Stuck(prog, e)
  {
  }

  // A plain item runs to its end and leaves the repeat hardware as it was.
  lemma RunPlain(prog: Program, e: Exec, c: Code) returns (n: nat, f: Exec)
    requires (c.Op? || c.Rep?) && Ready(prog, e, c) && Clear(e.p, HeadSize(c))
    ensures Steps(prog, e, n) == Some(f)
    ensures Left(e.p, f.p, e.p.pc + HeadSize(c)) && f.trace == e.trace + HeadTrace(c) && HeadDepth(c) == 0
  {
    hide Step, Steps, Repeated, BlockStage;
    match c
    case Op(id, words, rest) =>
      LastPass(prog, e, id, words);
      NoBlockEnd(e.p, e.p.(pc := e.p.pc + words, rep := false), words);
      n, f := 1, Exec(e.p.(pc := e.p.pc + words, rep := false), e.trace + [id]);
    case Rep(count, id, rest) =>
      n, f := RunRep(prog, e, count, id);
      NoBlockEnd(e.p, e.p.(pc := e.p.pc + 2, repc := 0), 2);
  }

  // So does a block, if the stack has room for it.
  lemma {:induction false} RunHead(prog: Program, e: Exec, c: Code) returns (n: nat, f: Exec)
    requires c != End && Ready(prog, e, c) && Clear(e.p, HeadSize(c))
    ensures Steps(prog, e, n) == Some(f)
    ensures if e.p.bcn + HeadDepth(c) <= 4
            then Left(e.p, f.p, e.p.pc + HeadSize(c)) && f.trace == e.trace + HeadTrace(c)
            else Stuck(prog, f)
    decreases c, 0, 0
  {
    hide Step, Steps, Repeated, Stuck, Depth;
    if !c.Loop? {
      n, f := RunPlain(prog, e, c);
    } else {
      var end := e.p.pc + 1 + Size(c.body);
      if e.p.bcn == 4 {
        FullStack(prog, e, c.lc, end);
        ZeroSteps(prog, e);
        n, f := 0, e;
      } else {
        LoopStart(prog, e, c.lc, end);
        var g := Exec(BlockRepeat(e.p.(pc := e.p.pc + 2), c.lc, end), e.trace);
        OpenedFrame(prog, e, c);
        var m, h := RunLoop(prog, g, c.body);
        StepsAdd(prog, e, 1, g, m);
        n, f := 1 + m, h;
      }
    }
  }

  lemma OpenedFrame(prog: Program, e: Exec, c: Code)
    requires c.Loop? && Ready(prog, e, c) && e.p.bcn <= 3
    ensures var q := BlockRepeat(e.p.(pc := e.p.pc + 2), c.lc, e.p.pc + 1 + Size(c.body));
            && Ready(prog, Exec(q, e.trace), c.body) && q.lp && q.bcn == e.p.bcn + 1
            && q.stack[q.bcn - 1] == Frame(q.pc, q.pc + Size(c.body) - 1, c.lc)
            && Live(q)[..q.bcn - 1] == Live(e.p)
  {
  }

  // A whole loop: the body lc + 1 times, then the frame is gone.
  lemma {:induction false} RunLoop(prog: Program, e: Exec, body: Code) returns (n: nat, f: Exec)
    requires EndsPlain(body) && Ready(prog, e, body) && e.p.lp
    requires var top := e.p.stack[e.p.bcn - 1]; top.start == e.p.pc && top.end + 1 == e.p.pc + Size(body)
    ensures Steps(prog, e, n) == Some(f)
    ensures e.p.bcn + Depth(body) <= 4 ==>
      && f.trace == e.trace + Repeated(Unroll(body), e.p.stack[e.p.bcn - 1].lc + 1)
      && !f.p.rep && f.p.pc == e.p.pc + Size(body) && f.p.bcn == e.p.bcn - 1 && f.p.lp == (f.p.bcn != 0)
      && Live(f.p) == Live(e.p)[..e.p.bcn - 1]
    ensures e.p.bcn + Depth(body) > 4 ==> Stuck(prog, f)
    decreases body, 2, e.p.stack[e.p.bcn - 1].lc
  {
    hide Step, Steps, Repeated, Unroll, Wrapped, Ready, EndsPlain, Live, Size, Depth, Stuck;
    var m, g := ToBlockEnd(prog, e, body);
    n, f := m, g;
    if e.p.bcn + Depth(body) <= 4 {
      WrappedFacts(prog, e, g, body);
      if e.p.stack[e.p.bcn - 1].lc == 0 {
        RepeatedOnce(Unroll(body));
      } else {
        var k, h := RunLoop(prog, g, body);
        StepsAdd(prog, e, m, g, k);
        n, f := m + k, h;
        TraceFront(e.trace, Unroll(body), e.p.stack[e.p.bcn - 1].lc);
      }
    }
  }

  lemma RepeatedOnce(t: seq<nat>)
    ensures Repeated(t, 1) == t
  {
  }

  lemma WrappedFacts(prog: Program, e: Exec, f: Exec, body: Code)
    requires e.p.lp && Ready(prog, e, body) && e.p.stack[e.p.bcn - 1].start == e.p.pc
    requires Wrapped(e.p, f.p, e.p.pc + Size(body))
    ensures e.p.stack[e.p.bcn - 1].lc == 0 ==>
      !f.p.rep && f.p.pc == e.p.pc + Size(body) && f.p.bcn == e.p.bcn - 1 && f.p.lp == (f.p.bcn != 0)
      && Live(f.p) == Live(e.p)[..e.p.bcn - 1]
    ensures e.p.stack[e.p.bcn - 1].lc > 0 ==>
      && Ready(prog, f, body) && f.p.lp && f.p.pc == e.p.pc && f.p.bcn == e.p.bcn
      && f.p.stack[f.p.bcn - 1] == e.p.stack[e.p.bcn - 1].(lc := e.p.stack[e.p.bcn - 1].lc - 1)
      && Live(f.p)[..f.p.bcn - 1] == Live(e.p)[..e.p.bcn - 1]
  {
    hide Laid, WellNested, Size, Depth;
    if e.p.stack[e.p.bcn - 1].lc > 0 {
      assert Live(f.p)[f.p.bcn - 1] == f.p.stack[f.p.bcn - 1];
    }
  }

  lemma PlainAtEnd(prog: Program, e: Exec, c: Code) returns (n: nat, f: Exec)
    requires (c.Op? || c.Rep?) && c.rest == End && Ready(prog, e, c) && e.p.lp
    requires e.p.stack[e.p.bcn - 1].end + 1 == e.p.pc + Size(c)
    ensures Steps(prog, e, n) == Some(f) && Depth(c) == 0
    ensures Wrapped(e.p, f.p, e.p.pc + Size(c)) && f.trace == e.trace + Unroll(c)
  {
    hide Step, Steps, Repeated, BlockStage;
    assert Depth(End) == 0 && Unroll(End) == [] && Size(End) == 0;
    if c.Op? {
      LastPass(prog, e, c.id, c.words);
      var q := e.p.(pc := e.p.pc + c.words, rep := false);
      BlockEndWraps(e.p, q);
      n, f := 1, Exec(BlockStage(q), e.trace + [c.id]);
    } else {
      n, f := RunRep(prog, e, c.count, c.id);
      BlockEndWraps(e.p, e.p.(pc := e.p.pc + 2, repc := 0));
    }
  }

  // Code whose end is the end of the innermost block.
  lemma {:induction false} ToBlockEnd(prog: Program, e: Exec, c: Code) returns (n: nat, f: Exec)
    requires EndsPlain(c) && Ready(prog, e, c) && e.p.lp
    requires e.p.stack[e.p.bcn - 1].end + 1 == e.p.pc + Size(c)
    ensures Steps(prog, e, n) == Some(f)
    ensures if e.p.bcn + Depth(c) <= 4
            then Wrapped(e.p, f.p, e.p.pc + Size(c)) && f.trace == e.trace + Unroll(c)
            else Stuck(prog, f)
    decreases c, 1, 0
  {
    hide Step, Steps, Ready, Size, Unroll, Depth, Wrapped, Stuck;
    if !c.Loop? && c.rest == End {
      n, f := PlainAtEnd(prog, e, c);
    } else {
      n, f := HeadThenBlockEnd(prog, e, c);
    }
  }

  lemma HeadInBlock(prog: Program, e: Exec, c: Code)
    requires c != End && EndsPlain(c.rest) && Ready(prog, e, c) && e.p.lp
    requires e.p.stack[e.p.bcn - 1].end + 1 == e.p.pc + Size(c)
    ensures Clear(e.p, HeadSize(c))
  {
    SizePositive(c.rest);
  }

  lemma AfterHeadInBlock(prog: Program, e: Exec, g: Exec, c: Code)
    requires c != End && EndsPlain(c.rest) && Ready(prog, e, c) && e.p.lp
    requires e.p.stack[e.p.bcn - 1].end + 1 == e.p.pc + Size(c)
    requires Left(e.p, g.p, e.p.pc + HeadSize(c))
    ensures Ready(prog, g, c.rest) && g.p.lp && g.p.stack[g.p.bcn - 1].end + 1 == g.p.pc + Size(c.rest)
    ensures g.p.bcn == e.p.bcn
    ensures g.p.pc + Size(c.rest) == e.p.pc + Size(c)
  {
    hide Ready, EndsPlain, Live, Size, HeadSize;
    HeadSizes(c);
    LeftTop(e.p, g.p, e.p.pc + HeadSize(c));
    ReadyRest(prog, e, g, c);
  }

  lemma HeadSizes(c: Code)
    requires c != End
    ensures Size(c) == HeadSize(c) + Size(c.rest)
  {
  }

  lemma ReadyRest(prog: Program, e: Exec, g: Exec, c: Code)
    requires c != End && Ready(prog, e, c) && Left(e.p, g.p, e.p.pc + HeadSize(c))
    ensures Ready(prog, g, c.rest)
  {
  }

  lemma UnrollHead(c: Code)
    requires c != End
    ensures Unroll(c) == HeadTrace(c) + Unroll(c.rest)
  {
  }

  lemma DepthOf(c: Code)
    requires c != End
    ensures Depth(c) == Max(HeadDepth(c), Depth(c.rest))
  {
  }

  lemma {:induction false} HeadThenBlockEnd(prog: Program, e: Exec, c: Code) returns (n: nat, f: Exec)
    requires c != End && EndsPlain(c.rest) && Ready(prog, e, c) && e.p.lp
    requires e.p.stack[e.p.bcn - 1].end + 1 == e.p.pc + Size(c)
    ensures Steps(prog, e, n) == Some(f)
    ensures if e.p.bcn + Depth(c) <= 4
            then Wrapped(e.p, f.p, e.p.pc + Size(c)) && f.trace == e.trace + Unroll(c)
            else Stuck(prog, f)
    decreases c, 0, 1
  {
    hide Step, Steps, Repeated, Ready, Clear, Size, Unroll, HeadSize, HeadTrace, EndsPlain, Left, Wrapped, Depth,
        HeadDepth, Stuck;
    DepthOf(c);
    HeadInBlock(prog, e, c);
    var m, g := RunHead(prog, e, c);
    n, f := m, g;
    if e.p.bcn + HeadDepth(c) <= 4 {
      AfterHeadInBlock(prog, e, g, c);
      var k, h := ToBlockEnd(prog, g, c.rest);
      StepsAdd(prog, e, m, g, k);
      n, f := m + k, h;
      if e.p.bcn + Depth(c) <= 4 {
        UnrollHead(c);
        assert (e.trace + HeadTrace(c)) + Unroll(c.rest) == e.trace + (HeadTrace(c) + Unroll(c.rest));
        WrappedLeft(e.p, g.p, h.p, e.p.pc + HeadSize(c), e.p.pc + Size(c));
      }
    }
  }

  lemma SizePositive(c: Code)
    requires EndsPlain(c) && WellNested(c)
    ensures Size(c) > 0
  {
  }

  lemma LeftTop(p: ProgramUnit, q: ProgramUnit, pc: nat)
    requires Left(p, q, pc) && p.lp
    ensures q.lp && q.bcn == p.bcn && q.stack[q.bcn - 1] == p.stack[p.bcn - 1] && q.pc == pc
  {
  }

  lemma WrappedLeft(p: ProgramUnit, q: ProgramUnit, r: ProgramUnit, mid: nat, pc: nat)
    requires p.lp && Left(p, q, mid) && Wrapped(q, r, pc)
    ensures Wrapped(p, r, pc)
  {
  }

  // Structured code runs as its unrolling: from the first word it reaches the
  // word after the last, having executed exactly the unrolled instructions, with
  // every frame below it untouched; and if the stack has no room for its blocks,
  // it runs into the assertion.
  lemma {:induction false} RunsAsUnrolled(prog: Program, e: Exec, c: Code) returns (n: nat, f: Exec)
    requires Ready(prog, e, c) && Clear(e.p, Size(c))
    ensures Steps(prog, e, n) == Some(f)
    ensures if e.p.bcn + Depth(c) <= 4
            then Left(e.p, f.p, e.p.pc + Size(c)) && f.trace == e.trace + Unroll(c)
            else Stuck(prog, f)
    decreases c
  {
    hide Step, Steps, Repeated, Stuck, HeadDepth;
    if c == End {
      n, f := 0, e;
      assert Steps(prog, e, 0) == Some(e) by { ZeroSteps(prog, e); }
    } else {
      HeadOfAny(prog, e, c);
      var m, g := RunHead(prog, e, c);
      n, f := m, g;
      if e.p.bcn + HeadDepth(c) <= 4 {
        AfterHead(prog, e, g, c);
        var k, h := RunsAsUnrolled(prog, g, c.rest);
        StepsAdd(prog, e, m, g, k);
        n, f := m + k, h;
        assert (e.trace + HeadTrace(c)) + Unroll(c.rest) == e.trace + (HeadTrace(c) + Unroll(c.rest));
        if e.p.bcn + Depth(c) <= 4 {
          LeftTwice(e.p, g.p, h.p, e.p.pc + HeadSize(c), e.p.pc + Size(c));
        }
      }
    }
  }

  lemma HeadOfAny(prog: Program, e: Exec, c: Code)
    requires c != End && Ready(prog, e, c) && Clear(e.p, Size(c))
    ensures Size(c) == HeadSize(c) + Size(c.rest) && HeadSize(c) > 0
    ensures Clear(e.p, HeadSize(c)) && Unroll(c) == HeadTrace(c) + Unroll(c.rest)
  {
  }

  lemma AfterHead(prog: Program, e: Exec, g: Exec, c: Code)
    requires c != End && Ready(prog, e, c) && Clear(e.p, Size(c))
    requires Left(e.p, g.p, e.p.pc + HeadSize(c))
    ensures Ready(prog, g, c.rest) && Clear(g.p, Size(c.rest)) && g.p.pc == e.p.pc + HeadSize(c) && g.p.bcn == e.p.bcn
  {
    ReadyRest(prog, e, g, c);
    ClearLeft(e.p, g.p, HeadSize(c), Size(c.rest));
  }

  lemma LeftTwice(p: ProgramUnit, q: ProgramUnit, r: ProgramUnit, mid: nat, pc: nat)
    requires Left(p, q, mid) && Left(q, r, pc)
    ensures Left(p, r, pc)
  {
  }

  lemma ZeroSteps(prog: Program, e: Exec)
    ensures Steps(prog, e, 0) == Some(e)
  {
  }

  lemma ClearLeft(p: ProgramUnit, q: ProgramUnit, a: nat, b: nat)
    requires Left(p, q, p.pc + a) && Clear(p, a + b) && a > 0
    ensures Clear(q, b)
  {
  }

  function Count(trace: seq<nat>, id: nat): nat {
    if trace == [] then 0 else Count(trace[..|trace| - 1], id) + if trace[|trace| - 1] == id then 1 else 0
  }

  lemma {:induction false} CountAppend(a: seq<nat>, b: seq<nat>, id: nat)
    ensures Count(a + b, id) == Count(a, id) + Count(b, id)
  {
    if b == [] {
      assert a + b == a;
    } else {
      CountAppend(a, b[..|b| - 1], id);
      assert (a + b)[..|a + b| - 1] == a + b[..|b| - 1];
    }
  }

  lemma {:induction false} CountRepeated(t: seq<nat>, n: nat, id: nat)
    ensures Count(Repeated(t, n), id) == Times(n, Count(t, id))
  {
    if n > 0 {
      CountRepeated(t, n - 1, id);
      CountAppend(Repeated(t, n - 1), t, id);
    }
  }

  // Nested loops multiply: the inner body runs (outer + 1) * (inner + 1)
  // times, what follows it in the outer body outer + 1 times.
  lemma NestedLoopsMultiply(outer: u16, inner: u16, body: Code, after: Code, rest: Code, id: nat)
    ensures Count(Unroll(Loop(outer, Loop(inner, body, after), rest)), id)
            == (outer + 1) * ((inner + 1) * Count(Unroll(body), id) + Count(Unroll(after), id)) +
                Count(Unroll(rest), id)
  {
    var c := Loop(inner, body, after);
    LoopCount(outer, c, rest, id);
    LoopCount(inner, body, after, id);
  }

  lemma LoopCount(lc: u16, body: Code, rest: Code, id: nat)
    ensures Count(Unroll(Loop(lc, body, rest)), id) == (lc + 1) * Count(Unroll(body), id) + Count(Unroll(rest), id)
  {
    hide Count, Repeated, Times;
    CountAppend(Repeated(Unroll(body), lc + 1), Unroll(rest), id);
    CountRepeated(Unroll(body), lc + 1, id);
    TimesIsProduct(lc + 1, Count(Unroll(body), id));
  }

  // Why nesting must be strict: when two blocks end at the same word, the
  // fetch that finishes the inner one runs past the outer one, which stays
  // live and is not repeated.
  lemma SharedEndEscapes(p: ProgramUnit)
    requires p.bcn >= 2 && AtBlockEnd(p) && p.stack[p.bcn - 1].lc == 0
    requires p.stack[p.bcn - 2].end == p.stack[p.bcn - 1].end
    ensures var q := BlockStage(p);
            q.pc == p.pc && q.lp && q.bcn == p.bcn - 1 && q.stack == p.stack && AtBlockEnd(q)
    ensures Advanced(BlockStage(p).(rep := false), 1).bcn == p.bcn - 1
  {
  }
}
