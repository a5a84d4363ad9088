// Repeat control: what happens to the program counter after every fetch, and
// the four-level repeat stack with its spill to and fill from memory.
module ProgramControl {
  import opened Words
  import opened Arith
  import opened Bits
  import opened Registers
  import opened Memories

  // A single-instruction repeat steps the counter back by one word.
  function RepStage(p: ProgramUnit): ProgramUnit {
    if !p.rep then p
    else if p.repc == 0 then p.(rep := false)
    else p.(repc := p.repc - 1, pc := (p.pc + 0xFFFF_FFFF) % 0x1_0000_0000)
  }

  // The fetch that passes the end of the innermost block either repeats the
  // block or drops its frame.
  predicate AtBlockEnd(p: ProgramUnit) {
    p.lp && (p.stack[p.bcn - 1].end + 1) % 0x1_0000_0000 == p.pc
  }

  function BlockStage(p: ProgramUnit): ProgramUnit {
    if !AtBlockEnd(p) then p
    else
      var top := p.stack[p.bcn - 1];
      if top.lc == 0 then p.(bcn := p.bcn - 1, lp := p.bcn != 1)
      else p.(stack := p.stack[p.bcn - 1 := top.(lc := top.lc - 1)], pc := top.start)
  }

  function AfterFetch(p: ProgramUnit): ProgramUnit {
    BlockStage(RepStage(p))
  }

  function BlockRepeat(p: ProgramUnit, lc: u16, end: u32): ProgramUnit
    requires p.bcn <= 3
  {
    p.(stack := p.stack[p.bcn := Frame(p.pc, end, lc)], lp := true, bcn := p.bcn + 1)
  }

  // The break instruction drops the innermost frame and does not jump.
  function Break(p: ProgramUnit): ProgramUnit
    requires p.lp
  {
    p.(bcn := p.bcn - 1, lp := p.bcn != 1)
  }

  function Live(p: ProgramUnit): seq<Frame> {
    p.stack[..p.bcn]
  }

  lemma BreakDrops(p: ProgramUnit)
    requires p.lp
    ensures var q := Break(p);
            && Live(q) == Live(p)[..p.bcn - 1] && (q.lp <==> p.bcn > 1)
            && q == p.(lp := q.lp, bcn := q.bcn, stack := q.stack)
  {
  }

  // 18-bit block addresses, the width the spilled flag word has room for.
  predicate Narrow(f: Frame) {
    f.start < 0x4_0000 && f.end < 0x4_0000
  }

  // Repeat state, memory and the address register that points into it.
  datatype Spill = Spill(p: ProgramUnit, mem: Memory, address: u16)

  function Down(a: u16, n: nat): u16
    requires n <= 4
  {
    if a >= n then a - n else a + 0x1_0000 - n
  }

  function Up(a: u16, n: nat): u16
    requires n <= 4
  {
    if a + n < 0x1_0000 then a + n else a + n - 0x1_0000
  }

  // The loop bit and the top address bits, or-ed into sixteen bits.
  function FlagWord(lp: bool, f: Frame): u16 {
    var loop := if lp then 0x8000 else 0;
    OrIsShort(loop, f.start / 0x1_0000);
    OrIsShort(Or(loop, f.start / 0x1_0000), f.end / 0x1_0000 * 0x100 % 0x1_0000);
    Or(Or(loop, f.start / 0x1_0000), f.end / 0x1_0000 * 0x100 % 0x1_0000)
  }

  // A frame whose address bits alone set the loop bit of the flag word.
  predicate MarksLive(f: Frame) {
    f.start / 0x8000_0000 == 1 || f.end / 0x80_0000 % 2 == 1
  }

  function StoreWords(mem: Memory, a: u16, lp: bool, f: Frame): Memory {
    var m1 := DataWrite(mem, Down(a, 1), f.lc);
    var m2 := DataWrite(m1, Down(a, 2), f.start % 0x1_0000);
    var m3 := DataWrite(m2, Down(a, 3), f.end % 0x1_0000);
    DataWrite(m3, Down(a, 4), FlagWord(lp, f))
  }

  // The outermost frame leaves the bottom of the stack.
  function Dropped(p: ProgramUnit): ProgramUnit {
    if !p.lp then p
    else p.(stack := p.stack[1..p.bcn] + p.stack[p.bcn - 1..], bcn := p.bcn - 1, lp := p.bcn != 1)
  }

  function Store(s: Spill): Spill {
    Spill(Dropped(s.p), StoreWords(s.mem, s.address, s.p.lp, s.p.stack[0]), Down(s.address, 4))
  }

  function LoadFrame(mem: Memory, a: u16): Frame {
    var flag := DataRead(mem, a);
    Frame(DataRead(mem, Up(a, 2)) + flag % 4 * 0x1_0000,
          DataRead(mem, Up(a, 1)) + flag / 0x100 % 4 * 0x1_0000,
          DataRead(mem, Up(a, 3)))
  }

  datatype Option<T> = None | Some(value: T)

  // A frame enters at the bottom. None is one of the two assertions failing:
  // a full stack, or an invalid flag word under a live loop.
  function Restore(s: Spill): Option<Spill> {
    var valid := DataRead(s.mem, s.address) >= 0x8000;
    var f := LoadFrame(s.mem, s.address);
    if s.p.lp then
      if s.p.bcn <= 3 && valid then
        Some(Spill(s.p.(stack := [f] + (s.p.stack[..s.p.bcn] + s.p.stack[s.p.bcn + 1..]), bcn := s.p.bcn + 1),
                   s.mem, Up(s.address, 4)))
      else None
    else
      var loaded := s.p.(stack := s.p.stack[0 := f]);
      Some(Spill(if valid then loaded.(lp := true, bcn := 1) else loaded, s.mem, Up(s.address, 4)))
  }

  function Stores(s: Spill, n: nat): Spill
    decreases n
  {
    if n == 0 then s else Stores(Store(s), n - 1)
  }

  function Restores(s: Spill, n: nat): Option<Spill> {
    if n == 0 then Some(s)
    else match Restores(s, n - 1)
      case None => None
      case Some(t) => Restore(t)
  }

  // Everything a program can tell about the repeat state: all but dead frames.
  predicate SameLive(p: ProgramUnit, q: ProgramUnit) {
    Live(p) == Live(q) && p.lp == q.lp && p.bcn == q.bcn && p.pc == q.pc && p.rep == q.rep && p.repc == q.repc
  }

  lemma OrParts(a: nat, b: nat)
    ensures Or(a, b) / 0x100 == Or(a / 0x100, b / 0x100)
    ensures Or(a, b) / 0x8000 % 2 == 1 <==> a / 0x8000 % 2 == 1 || b / 0x8000 % 2 == 1
  {
    hide Or, Halved;
    HalvedMany(a);
    HalvedMany(b);
    HalvedMany(Or(a, b));
    OrHalved(a, b, 8);
    OrHalved(a, b, 15);
    OrHalves(a / 0x8000, b / 0x8000);
  }

  lemma LowBits(x: nat)
    ensures x % 4 == x % 2 + x / 2 % 2 * 2
  {
    var q, d, b := x / 2 / 2, x / 2 % 2, x % 2;
    assert x == q * 4 + (d * 2 + b) && d * 2 + b < 4;
    DivModUnique(x, 4, q, d * 2 + b);
  }

  lemma OrLow(a: nat, b: nat)
    ensures Or(a, b) % 4 == (if a % 2 == 1 || b % 2 == 1 then 1 else 0) +
                            (if a / 2 % 2 == 1 || b / 2 % 2 == 1 then 2 else 0)
  {
    hide Or;
    OrHalves(a, b);
    OrHalves(a / 2, b / 2);
    LowBits(Or(a, b));
  }

  // Or-ing multiples of four leaves the two bits below.
  lemma OrInGap(l: nat, a: nat)
    requires l % 4 == 0
    ensures Or(l, a) % 4 == Or(a, l) % 4 == a % 4
  {
    hide Or;
    OrLow(l, a);
    OrLow(a, l);
    LowBits(l);
    LowBits(a);
  }

  lemma EndBits(h: u16)
    ensures h * 0x100 % 0x1_0000 == h % 0x100 * 0x100
    ensures h % 0x100 * 0x100 / 0x8000 == h / 0x80 % 2
  {
    var q, m := h / 0x100, h % 0x100;
    var t, r := m / 0x80, m % 0x80;
    assert h == q * 0x100 + t * 0x80 + r && t <= 1;
    assert h * 0x100 == q * 0x1_0000 + m * 0x100;
    assert m * 0x100 == t * 0x8000 + r * 0x100;
    assert h / 0x80 == q * 2 + t;
  }

  lemma TopBits(f: Frame)
    ensures f.start / 0x1_0000 / 0x8000 == f.start / 0x8000_0000
    ensures f.end / 0x1_0000 * 0x100 % 0x1_0000 / 0x8000 == f.end / 0x80_0000 % 2
    ensures f.end < 0x4_0000 ==> f.end / 0x1_0000 * 0x100 % 0x1_0000 == f.end / 0x1_0000 * 0x100
  {
    EndBits(f.end / 0x1_0000);
    assert f.end / 0x1_0000 / 0x80 == f.end / 0x80_0000;
  }

  // The loop bit comes back unless the address bits set it; the address bits
  // come back when there are eighteen of them.
  lemma FlagWordUnpacks(lp: bool, f: Frame)
    ensures FlagWord(lp, f) >= 0x8000 <==> lp || MarksLive(f)
    ensures Narrow(f) ==> !MarksLive(f)
    ensures Narrow(f) ==>
      FlagWord(lp, f) / 0x100 % 4 == f.end / 0x1_0000 && FlagWord(lp, f) % 4 == f.start / 0x1_0000
  {
    hide Or;
    TopBits(f);
    FlagTop(if lp then 0x8000 else 0, f.start / 0x1_0000, f.end / 0x1_0000 * 0x100 % 0x1_0000);
    if Narrow(f) {
      FlagGaps(if lp then 0x8000 else 0, f.start / 0x1_0000, f.end / 0x1_0000);
    }
  }

  lemma FlagTop(l: nat, a: nat, b: nat)
    ensures Or(Or(l, a), b) / 0x8000 % 2 == 1 <==>
      l / 0x8000 % 2 == 1 || a / 0x8000 % 2 == 1 || b / 0x8000 % 2 == 1
  {
    hide Or;
    OrParts(l, a);
    OrParts(Or(l, a), b);
  }

  lemma FlagGaps(l: nat, a: nat, b: nat)
    requires (l == 0 || l == 0x8000) && a < 4 && b < 4
    ensures Or(Or(l, a), b * 0x100) % 4 == a && Or(Or(l, a), b * 0x100) / 0x100 % 4 == b
  {
    hide Or;
    OrParts(l, a);
    OrParts(Or(l, a), b * 0x100);
    OrInGap(l, a);
    OrInGap(b * 0x100, Or(l, a));
    OrZero(l / 0x100);
    OrInGap(l / 0x100, b);
  }

  // Bit by bit: the loop bit on top, the high half of the start address below,
  // and that of the end address eight places up.
  lemma FlagBits(lp: bool, f: Frame, i: nat)
    requires i < 16
    ensures Bit(FlagWord(lp, f), i) == 1 <==>
      (i == 15 && lp) || Bit(f.start / 0x1_0000, i) == 1 || (i >= 8 && Bit(f.end / 0x1_0000, i - 8) == 1)
  {
    hide Or, Bit;
    var l, a, b := if lp then 0x8000 else 0, f.start / 0x1_0000, f.end / 0x1_0000 * 0x100 % 0x1_0000;
    OrBit(Or(l, a), b, i);
    OrBit(l, a, i);
    LoopBit(lp, i);
    EightUp(f.end / 0x1_0000, i);
  }

  lemma LoopBit(lp: bool, i: nat)
    requires i < 16
    ensures Bit(if lp then 0x8000 else 0, i) == 1 <==> i == 15 && lp
  {
    hide Pow2;
    Pow2Monotone(i, 15);
    Pow2Values();
    Pow2Step(15);
    if lp && i < 15 {
      Pow2Step(14 - i);
      Pow2Add(15 - i, i);
      HalfExact(Pow2(14 - i), Pow2(i));
    }
  }

  lemma HalfExact(q: nat, p: nat)
    requires p > 0
    ensures (2 * q) * p / p % 2 == 0
  {
    DivModUnique((2 * q) * p, p, 2 * q, 0);
  }

  lemma EightUp(h: u16, i: nat)
    requires i < 16
    ensures Bit(h * 0x100 % 0x1_0000, i) == 1 <==> i >= 8 && Bit(h, i - 8) == 1
  {
    hide Halved, Bit, Pow2;
    Pow2Values();
    BitIsHalved(h * 0x100 % 0x1_0000, i);
    CutBits(h * 0x100, 16, i);
    ShiftedBits(h, 8, i);
    if i >= 8 {
      BitIsHalved(h, i - 8);
    }
  }

  // Where the words of a spilled frame lie: the count on top, then the low
  // halves of the start and end addresses, and the flag word at the pointer.
  lemma SpillLayout(s: Spill)
    ensures var t, f := Store(s), s.p.stack[0];
            && t.address == (s.address + 0xFFFC) % 0x1_0000
            && t.mem[0x2_0000 + (s.address + 0xFFFF) % 0x1_0000] == f.lc
            && t.mem[0x2_0000 + (s.address + 0xFFFE) % 0x1_0000] == f.start % 0x1_0000
            && t.mem[0x2_0000 + (s.address + 0xFFFD) % 0x1_0000] == f.end % 0x1_0000
            && t.mem[0x2_0000 + t.address] == FlagWord(s.p.lp, f)
  {
    hide FlagWord, Dropped;
    assert Down(s.address, 1) == (s.address + 0xFFFF) % 0x1_0000;
    assert Down(s.address, 2) == (s.address + 0xFFFE) % 0x1_0000;
    assert Down(s.address, 3) == (s.address + 0xFFFD) % 0x1_0000;
    assert Down(s.address, 4) == (s.address + 0xFFFC) % 0x1_0000;
  }

  // Reading back the four words gives the loop bit, and the frame if and only
  // if its addresses have 18 bits.
  lemma LoadsWhatWasStored(mem: Memory, later: Memory, a: u16, lp: bool, f: Frame)
    requires forall k :: 1 <= k <= 4 ==>
      DataRead(later, Down(a, k)) == DataRead(StoreWords(mem, a, lp, f), Down(a, k))
    ensures LoadFrame(later, Down(a, 4)) == f <==> Narrow(f)
    ensures DataRead(later, Down(a, 4)) >= 0x8000 <==> lp || MarksLive(f)
  {
    hide FlagWord, MarksLive;
    FlagWordUnpacks(lp, f);
    assert Up(Down(a, 4), 1) == Down(a, 3) && Up(Down(a, 4), 2) == Down(a, 2) && Up(Down(a, 4), 3) == Down(a, 1);
    var stored := StoreWords(mem, a, lp, f);
    assert DataRead(stored, Down(a, 1)) == f.lc;
    assert DataRead(stored, Down(a, 2)) == f.start % 0x1_0000;
    assert DataRead(stored, Down(a, 3)) == f.end % 0x1_0000;
    assert DataRead(stored, Down(a, 4)) == FlagWord(lp, f);
  }

  lemma StoreTouchesFourWords(s: Spill, b: u16)
    requires forall k :: 1 <= k <= 4 ==> b != Down(s.address, k)
    ensures DataRead(Store(s).mem, b) == DataRead(s.mem, b)
  {
  }

  // How far below a the address b lies, going down and around.
  function Below(a: u16, b: u16): nat {
    if b <= a then a - b else a + 0x1_0000 - b
  }

  predicate Beyond(a: u16, b: u16, n: nat) {
    Below(a, b) > n || a == b
  }

  lemma BeyondStep(a: u16, b: u16, n: nat)
    requires Beyond(a, b, n + 4) && n + 4 < 0x1_0000
    ensures Beyond(Down(a, 4), b, n)
    ensures forall k :: 1 <= k <= 4 ==> b != Down(a, k)
  {
  }

  // n stores touch only the 4n words below the starting address.
  lemma {:induction false} StoresTouchBelow(s: Spill, n: nat, b: u16)
    requires Beyond(s.address, b, 4 * n) && 4 * n < 0x1_0000
    ensures DataRead(Stores(s, n).mem, b) == DataRead(s.mem, b)
    decreases n
  {
    hide Store;
    if n > 0 {
      BeyondStep(s.address, b, 4 * (n - 1));
      StoreTouchesFourWords(s, b);
      StoreMoves(s);
      StoresTouchBelow(Store(s), n - 1, b);
    }
  }

  lemma StoreMoves(s: Spill)
    ensures Store(s).address == Down(s.address, 4)
    ensures Store(s).mem == StoreWords(s.mem, s.address, s.p.lp, s.p.stack[0])
    ensures Store(s).p == Dropped(s.p)
  {
  }

  lemma OwnWordsAreBeyond(a: u16, n: nat, k: nat)
    requires 4 * n <= 0x1_0000 && n > 0 && 1 <= k <= 4
    ensures Beyond(Down(a, 4), Down(a, k), 4 * (n - 1))
  {
  }

  // The frames above the bottom move back under it.
  lemma ShiftBack(p: ProgramUnit, q: ProgramUnit, f: Frame)
    requires p.lp && SameLive(q, Dropped(p)) && f == p.stack[0]
    ensures [f] + q.stack[..q.bcn] == p.stack[..p.bcn]
  {
    if p.bcn > 1 {
      assert Live(Dropped(p)) == p.stack[1..p.bcn];
    }
  }

  // One fill undoes one spill, given that the words read back right: with no
  // frame live, with one, and with more.
  predicate Refilled(p: ProgramUnit, f: Spill) {
    && Restore(f).Some?
    && var r := Restore(f).value; r.address == Up(f.address, 4) && SameLive(r.p, p) && r.mem == f.mem
  }

  predicate ReadsBack(p: ProgramUnit, f: Spill) {
    && SameLive(f.p, Dropped(p))
    && (p.lp ==> LoadFrame(f.mem, f.address) == p.stack[0])
    && (DataRead(f.mem, f.address) >= 0x8000 <==> p.lp)
  }

  lemma RefillNone(p: ProgramUnit, f: Spill)
    requires ReadsBack(p, f) && !p.lp
    ensures Refilled(p, f)
  {
    hide LoadFrame, DataRead, Up, Down;
  }

  lemma RefillLast(p: ProgramUnit, f: Spill)
    requires ReadsBack(p, f) && p.bcn == 1
    ensures Refilled(p, f)
  {
    hide LoadFrame, DataRead, Up, Down;
  }

  lemma RefillUnder(p: ProgramUnit, f: Spill)
    requires ReadsBack(p, f) && p.bcn > 1
    ensures Refilled(p, f)
  {
    hide LoadFrame, DataRead, Up, Down;
    ShiftBack(p, f.p, p.stack[0]);
  }

  lemma RefillFrame(p: ProgramUnit, f: Spill)
    requires ReadsBack(p, f)
    ensures Refilled(p, f)
  {
    hide ReadsBack, Refilled;
    if p.bcn == 0 {
      RefillNone(p, f);
    } else if p.bcn == 1 {
      RefillLast(p, f);
    } else {
      RefillUnder(p, f);
    }
  }

  // One fill undoes the spill of a live 18-bit frame.
  lemma RestoreUndoesStore(s: Spill, f: Spill)
    requires s.p.lp && Narrow(s.p.stack[0])
    requires SameLive(f.p, Store(s).p) && f.address == Store(s).address
    requires forall k :: 1 <= k <= 4 ==>
      DataRead(f.mem, Down(s.address, k)) == DataRead(Store(s).mem, Down(s.address, k))
    ensures Refilled(s.p, f) && Up(f.address, 4) == s.address
  {
    hide SameLive, DataRead, Restore, LoadFrame, StoreWords, Dropped, Down, Up, Store;
    StoreMoves(s);
    LoadsWhatWasStored(s.mem, f.mem, s.address, s.p.lp, s.p.stack[0]);
    UpDown(s.address);
    RefillFrame(s.p, f);
  }

  lemma UpDown(a: u16)
    ensures Up(Down(a, 4), 4) == a
  {
  }

  // --- spills with no frame live ---

  predicate Dead(s: Spill) {
    !s.p.lp && !MarksLive(s.p.stack[0])
  }

  lemma DeadStore(s: Spill)
    requires !s.p.lp
    ensures Store(s).p == s.p && Store(s).address == Down(s.address, 4)
    ensures DataRead(Store(s).mem, Store(s).address) == FlagWord(false, s.p.stack[0])
    ensures FlagWord(false, s.p.stack[0]) >= 0x8000 <==> MarksLive(s.p.stack[0])
  {
    hide FlagWord;
    FlagWordUnpacks(false, s.p.stack[0]);
  }

  // Later spills can only replace a flag word by another one without loop bit.
  lemma {:induction false} DeadFlagStays(s: Spill, n: nat, b: u16)
    requires Dead(s) && (s.address - b) % 4 == 0 && DataRead(s.mem, b) < 0x8000
    ensures DataRead(Stores(s, n).mem, b) < 0x8000 && Stores(s, n).p == s.p
    decreases n
  {
    hide MarksLive, DataRead, Store;
    if n > 0 {
      DeadStore(s);
      if b != Down(s.address, 4) {
        StoreTouchesFourWords(s, b);
      }
      DeadFlagStays(Store(s), n - 1, b);
    }
  }

  // Each spilled live frame has 18-bit addresses and the spills fit the 64K
  // words below the pointer; or no frame is live and the flag words say so.
  predicate Survives(p: ProgramUnit, n: nat) {
    && (forall i :: 0 <= i < p.bcn && i < n ==> Narrow(p.stack[i]))
    && (if p.lp then 4 * n <= 0x1_0000 else n == 0 || !MarksLive(p.stack[0]))
  }

  // The same number of fills brings back the pointer, the loop bit, the depth
  // and every live frame, and leaves memory alone.
  predicate Undone(s: Spill, n: nat) {
    var filled := Restores(Stores(s, n), n);
    && filled.Some?
    && filled.value.address == s.address
    && SameLive(filled.value.p, s.p)
    && filled.value.mem == Stores(s, n).mem
  }

  lemma SurvivesRest(s: Spill, n: nat)
    requires n > 0 && Survives(s.p, n)
    ensures Survives(Store(s).p, n - 1)
  {
    assert Store(s).p == Dropped(s.p);
    if s.p.bcn == 1 {
      FlagWordUnpacks(false, s.p.stack[0]);
    }
  }

  lemma {:induction false} SurvivorsComeBack(s: Spill, n: nat)
    requires Survives(s.p, n)
    ensures Undone(s, n)
    decreases n
  {
    hide Store, Survives, Restore, LoadFrame, Down, Up, DataRead, MarksLive, Refilled, Dropped;
    if n > 0 {
      var t := Store(s);
      SurvivesRest(s, n);
      SurvivorsComeBack(t, n - 1);
      LastFill(s, n, Restores(Stores(s, n), n - 1).value);
      RefilledFacts(s.p, Restores(Stores(s, n), n - 1).value);
    }
  }

  lemma RefilledFacts(p: ProgramUnit, f: Spill)
    requires Refilled(p, f)
    ensures Restore(f).Some? && Restore(f).value.address == Up(f.address, 4)
    ensures SameLive(Restore(f).value.p, p) && Restore(f).value.mem == f.mem
  {
  }

  lemma LastFill(s: Spill, n: nat, f: Spill)
    requires n > 0 && Survives(s.p, n)
    requires f.address == Store(s).address && SameLive(f.p, Store(s).p) && f.mem == Stores(Store(s), n - 1).mem
    ensures Refilled(s.p, f) && Up(f.address, 4) == s.address
  {
    hide Store, Down, Up, DataRead, MarksLive, SameLive, Refilled, Stores, Narrow;
    if s.p.lp {
      LastLive(s, n, f);
    } else {
      LastDead(s, n, f);
    }
  }

  lemma LastLive(s: Spill, n: nat, f: Spill)
    requires 0 < n && 4 * n <= 0x1_0000 && s.p.lp && Narrow(s.p.stack[0])
    requires f.address == Store(s).address && SameLive(f.p, Store(s).p) && f.mem == Stores(Store(s), n - 1).mem
    ensures Refilled(s.p, f) && Up(f.address, 4) == s.address
  {
    hide Store, Up, DataRead, SameLive, Refilled, Narrow, Beyond, Stores, Down;
    forall k | 1 <= k <= 4
      ensures DataRead(f.mem, Down(s.address, k)) == DataRead(Store(s).mem, Down(s.address, k))
    {
      OwnWordsStay(s, n, k);
    }
    RestoreUndoesStore(s, f);
  }

  lemma OwnWordsStay(s: Spill, n: nat, k: nat)
    requires 0 < n && 4 * n <= 0x1_0000 && 1 <= k <= 4
    ensures DataRead(Stores(Store(s), n - 1).mem, Down(s.address, k)) == DataRead(Store(s).mem, Down(s.address, k))
  {
    hide Store, DataRead, Beyond, Stores, Down;
    StoreMoves(s);
    OwnWordsAreBeyond(s.address, n, k);
    StoresTouchBelow(Store(s), n - 1, Down(s.address, k));
  }

  lemma LastDead(s: Spill, n: nat, f: Spill)
    requires n > 0 && Dead(s)
    requires f.address == Store(s).address && SameLive(f.p, Store(s).p) && f.mem == Stores(Store(s), n - 1).mem
    ensures Refilled(s.p, f) && Up(f.address, 4) == s.address
  {
    hide Store, Up, Down, DataRead, MarksLive, SameLive, Refilled, Stores, LoadFrame;
    DeadStore(s);
    StoreMoves(s);
    DeadFlagStays(Store(s), n - 1, Store(s).address);
    UpDown(s.address);
    RefillFrame(s.p, f);
  }

  // --- and when they do not come back ---

  lemma {:induction false} StoresAdd(s: Spill, j: nat, k: nat)
    ensures Stores(s, j + k) == Stores(Stores(s, j), k)
    decreases j
  {
    hide Store;
    if j > 0 {
      StoresAdd(Store(s), j - 1, k);
    }
  }

  lemma {:induction false} StoresMove(s: Spill, n: nat)
    ensures Stores(s, n).address == (s.address - 4 * n) % 0x1_0000
    ensures Stores(s, n).p.bcn == if n < s.p.bcn then s.p.bcn - n else 0
    decreases n
  {
    hide Store;
    if n > 0 {
      StoreMoves(s);
      StoresMove(Store(s), n - 1);
    }
  }

  // A frame that comes from memory has 18-bit addresses and joins the bottom.
  lemma RestoreShape(s: Spill)
    requires Restore(s).Some?
    ensures var t := Restore(s).value;
            && t.address == Up(s.address, 4) && t.mem == s.mem
            && Narrow(t.p.stack[0])
            && (s.p.lp ==> s.p.bcn <= 3 && t.p.stack[1..] == s.p.stack[..s.p.bcn] + s.p.stack[s.p.bcn + 1..])
            && t.p.bcn == if s.p.lp then s.p.bcn + 1 else if t.p.lp then 1 else 0
  {
    hide DataRead, Up;
    LoadIsNarrow(s.mem, s.address);
  }

  lemma LoadIsNarrow(mem: Memory, a: u16)
    ensures Narrow(LoadFrame(mem, a))
  {
  }

  lemma LastRestore(s: Spill, n: nat)
    requires n > 0 && Restores(s, n).Some?
    ensures Restores(s, n - 1).Some? && Restores(s, n) == Restore(Restores(s, n - 1).value)
  {
    hide Restore;
  }

  lemma {:induction false} RestoresMove(s: Spill, n: nat)
    requires Restores(s, n).Some?
    ensures Restores(s, n).value.address == (s.address + 4 * n) % 0x1_0000 && Restores(s, n).value.mem == s.mem
  {
    hide Restore, Narrow;
    if n > 0 {
      LastRestore(s, n);
      RestoresMove(s, n - 1);
      RestoreShape(Restores(s, n - 1).value);
    }
  }

  lemma {:induction false} FillsAreNarrow(s: Spill, n: nat)
    requires Restores(s, n).Some?
    ensures var p := Restores(s, n).value.p;
            s.p.bcn <= p.bcn && forall i :: 0 <= i < p.bcn - s.p.bcn ==> Narrow(p.stack[i])
  {
    hide Restore, Narrow, Up;
    if n > 0 {
      LastRestore(s, n);
      FillsAreNarrow(s, n - 1);
      var t := Restores(s, n - 1).value;
      RestoreShape(t);
      MovedUp(t.p, Restore(t).value.p, s.p.bcn);
    }
  }

  lemma MovedUp(p: ProgramUnit, q: ProgramUnit, below: nat)
    requires below <= p.bcn && forall i :: 0 <= i < p.bcn - below ==> Narrow(p.stack[i])
    requires Narrow(q.stack[0]) && q.bcn == if p.lp then p.bcn + 1 else if q.lp then 1 else 0
    requires p.lp ==> p.bcn <= 3 && q.stack[1..] == p.stack[..p.bcn] + p.stack[p.bcn + 1..]
    ensures below <= q.bcn && forall i :: 0 <= i < q.bcn - below ==> Narrow(q.stack[i])
  {
    hide Narrow;
    forall i | 0 < i < q.bcn - below
      ensures Narrow(q.stack[i])
    {
      assert q.stack[i] == q.stack[1..][i - 1] == p.stack[i - 1];
    }
  }

  lemma UndoneNarrow(s: Spill, n: nat)
    requires Undone(s, n)
    ensures forall i :: 0 <= i < s.p.bcn && i < n ==> Narrow(s.p.stack[i])
  {
    hide Stores, Restores, Narrow;
    StoresMove(s, n);
    FillsAreNarrow(Stores(s, n), n);
    var q := Restores(Stores(s, n), n).value.p;
    forall i | 0 <= i < s.p.bcn && i < n
      ensures Narrow(s.p.stack[i])
    {
      assert Live(q)[i] == q.stack[i] && Live(s.p)[i] == s.p.stack[i];
    }
  }

  lemma {:induction false} DeadStores(s: Spill, n: nat)
    requires !s.p.lp && n > 0
    ensures Stores(s, n).p == s.p
    ensures DataRead(Stores(s, n).mem, Stores(s, n).address) >= 0x8000 <==> MarksLive(s.p.stack[0])
    decreases n
  {
    hide Store, MarksLive, DataRead;
    DeadStore(s);
    if n > 1 {
      DeadStores(Store(s), n - 1);
    } else {
      assert Stores(s, 1) == Store(s);
    }
  }

  lemma {:induction false} LoopBitStays(s: Spill, n: nat)
    requires n > 0 && Restores(s, n).Some? && DataRead(s.mem, s.address) >= 0x8000
    ensures Restores(s, n).value.p.lp
  {
    hide LoadFrame, DataRead;
    if n > 1 {
      LoopBitStays(s, n - 1);
    } else {
      assert Restores(s, 1) == Restore(s);
    }
  }

  // A dead frame with wide addresses reads as a live loop.
  lemma UndoneUnmarked(s: Spill, n: nat)
    requires Undone(s, n) && !s.p.lp && n > 0
    ensures !MarksLive(s.p.stack[0])
  {
    hide Stores, Restores, MarksLive, DataRead;
    DeadStores(s, n);
    if MarksLive(s.p.stack[0]) {
      LoopBitStays(Stores(s, n), n);
    }
  }

  lemma {:induction false} AllDropped(s: Spill, n: nat)
    requires forall i :: 0 <= i < s.p.bcn ==> Narrow(s.p.stack[i])
    requires n >= s.p.bcn && (s.p.lp || Dead(s))
    ensures Dead(Stores(s, n))
    decreases n
  {
    hide MarksLive, FlagWord, Store;
    FlagWordUnpacks(false, s.p.stack[0]);
    if n > 0 {
      StoreMoves(s);
      AllDropped(Store(s), n - 1);
    }
  }

  // The first flag word has been replaced by one without loop bit.
  lemma FirstFlagLost(s: Spill, n: nat)
    requires s.p.lp && 4 * n > 0x1_0000 && forall i :: 0 <= i < s.p.bcn ==> Narrow(s.p.stack[i])
    ensures DataRead(Stores(s, n).mem, Down(s.address, 4)) < 0x8000
  {
    hide Stores, Store, DataRead, MarksLive, FlagWord;
    var t := Stores(s, 0x4000);
    StoresMove(s, 0x4000);
    AllDropped(s, 0x4000);
    DeadStore(t);
    StoresAdd(s, 0x4000, n - 0x4000);
    OneStore(t, n - 0x4000);
    DeadFlagStays(Store(t), n - 0x4001, Store(t).address);
  }

  lemma OneStore(s: Spill, n: nat)
    requires n > 0
    ensures Stores(s, n) == Stores(Store(s), n - 1)
  {
  }

  lemma UndoneFits(s: Spill, n: nat)
    requires Undone(s, n) && s.p.lp && forall i :: 0 <= i < s.p.bcn && i < n ==> Narrow(s.p.stack[i])
    ensures 4 * n <= 0x1_0000
  {
    hide Stores, Restores, LoadFrame, DataRead, Narrow;
    if 4 * n > 0x1_0000 {
      var spilled := Stores(s, n);
      LastRestore(spilled, n);
      var f := Restores(spilled, n - 1).value;
      StoresMove(s, n);
      RestoresMove(spilled, n - 1);
      FirstFlagLost(s, n);
    }
  }

  // Filling undoes spilling, for any number of them and any frames, exactly
  // when the frames survive it.
  lemma RestoresUndoStoresExactly(s: Spill, n: nat)
    ensures Undone(s, n) <==> Survives(s.p, n)
  {
    hide Undone, MarksLive, Narrow;
    if Survives(s.p, n) {
      SurvivorsComeBack(s, n);
    } else if Undone(s, n) {
      UndoneNarrow(s, n);
      if s.p.lp {
        UndoneFits(s, n);
      } else {
        UndoneUnmarked(s, n);
      }
    }
  }

  // The program control registers, with the repeat stack updated in place.
  class RepeatUnit {
    var pc: u32
    var prpage: u16
    var cpc: bool
    var rep: bool
    var repc: u16
    var repcs: u16
    var crep: bool
    var lp: bool
    var bcn: nat
    const bkrepStack: array<Frame>
    var mem: Memory

    ghost function Fields(): ProgramUnitFields
      reads this, bkrepStack
    {
      ProgramUnitFields.ProgramUnit(pc, prpage, cpc, rep, repc, repcs, crep, lp, bcn, bkrepStack[..])
    }

    ghost predicate Valid()
      reads this, bkrepStack
    {
      Fields().Valid()
    }

    ghost function Regs(): ProgramUnit
      requires Valid()
      reads this, bkrepStack
    {
      Fields()
    }

    constructor ()
      ensures Valid() && fresh(bkrepStack)
      ensures !lp && bcn == 0
    {
      pc, prpage, cpc, rep, repc, repcs, crep, lp, bcn := 0, 0, true, false, 0, 0, true, false, 0;
      bkrepStack := new Frame[4](_ => NO_FRAME);
      mem := seq(WORDS, _ => 0);
    }

    method AdvanceRep()
      requires Valid()
      modifies this
      ensures Valid() && mem == old(mem)
      ensures Regs() == RepStage(old(Regs()))
    {
      if rep {
        if repc == 0 {
          rep := false;
        } else {
          repc := repc - 1;
          pc := (pc + 0xFFFF_FFFF) % 0x1_0000_0000;
        }
      }
    }

    method AdvanceBlock()
      requires Valid()
      modifies this, bkrepStack
      ensures Valid() && mem == old(mem)
      ensures Regs() == BlockStage(old(Regs()))
    {
      if lp && (bkrepStack[bcn - 1].end + 1) % 0x1_0000_0000 == pc {
        if bkrepStack[bcn - 1].lc == 0 {
          bcn := bcn - 1;
          lp := bcn != 0;
        } else {
          bkrepStack[bcn - 1] := bkrepStack[bcn - 1].(lc := bkrepStack[bcn - 1].lc - 1);
          pc := bkrepStack[bcn - 1].start;
        }
      }
    }

    // The two stages the cycle loop runs between fetching and executing.
    method AdvanceRepeats()
      requires Valid()
      modifies this, bkrepStack
      ensures Valid() && mem == old(mem)
      ensures Regs() == AfterFetch(old(Regs()))
    {
      AdvanceRep();
      AdvanceBlock();
    }

    method StartBlockRepeat(lc: u16, address: u32)
      requires Valid() && bcn <= 3
      modifies this, bkrepStack
      ensures Valid() && mem == old(mem)
      ensures Regs() == BlockRepeat(old(Regs()), lc, address)
    {
      bkrepStack[bcn] := bkrepStack[bcn].(start := pc);
      bkrepStack[bcn] := bkrepStack[bcn].(end := address);
      bkrepStack[bcn] := bkrepStack[bcn].(lc := lc);
      lp := true;
      bcn := bcn + 1;
    }

    method BreakBlock()
      requires Valid() && lp
      modifies this
      ensures Valid() && mem == old(mem)
      ensures Regs() == Break(old(Regs()))
    {
      bcn := bcn - 1;
      lp := bcn != 0;
    }

    // Frames 1 to bcn - 1 move one place down.
    method CopyDown()
      requires Valid() && lp
      modifies bkrepStack
      ensures bkrepStack[..] == old(bkrepStack[1..bcn]) + old(bkrepStack[bcn - 1..])
    {
      ghost var before := bkrepStack[..];
      for i := 0 to bcn - 1
        invariant forall j :: 0 <= j < i ==> bkrepStack[j] == before[j + 1]
        invariant forall j :: i <= j < 4 ==> bkrepStack[j] == before[j]
      {
        bkrepStack[i] := bkrepStack[i + 1];
      }
    }

    // Frames 0 to bcn - 1 move one place up, the last one first.
    method CopyUp()
      requires Valid() && bcn <= 3
      modifies bkrepStack
      ensures bkrepStack[..][1..] == old(bkrepStack[..bcn]) + old(bkrepStack[bcn + 1..])
    {
      ghost var before := bkrepStack[..];
      for i := bcn downto 0
        invariant forall j :: 0 <= j <= i ==> bkrepStack[j] == before[j]
        invariant forall j :: i < j <= bcn ==> bkrepStack[j] == before[j - 1]
        invariant forall j :: bcn < j < 4 ==> bkrepStack[j] == before[j]
      {
        bkrepStack[i + 1] := bkrepStack[i];
      }
    }

    // The four words of the bottom frame go out below the pointer.
    method WriteBottom(addressReg: u16) returns (address: u16)
      requires Valid()
      modifies this`mem
      ensures mem == StoreWords(old(mem), addressReg, lp, bkrepStack[0])
      ensures address == Down(addressReg, 4)
    {
      hide DataWrite;
      address := Down(addressReg, 1);
      mem := DataWrite(mem, address, bkrepStack[0].lc);
      address := Down(address, 1);
      mem := DataWrite(mem, address, bkrepStack[0].start % 0x1_0000);
      address := Down(address, 1);
      mem := DataWrite(mem, address, bkrepStack[0].end % 0x1_0000);
      var flag := if lp then 0x8000 else 0;
      OrIsShort(flag, bkrepStack[0].start / 0x1_0000);
      flag := Or(flag, bkrepStack[0].start / 0x1_0000);
      OrIsShort(flag, bkrepStack[0].end / 0x1_0000 * 0x100 % 0x1_0000);
      flag := Or(flag, bkrepStack[0].end / 0x1_0000 * 0x100 % 0x1_0000);
      address := Down(address, 1);
      mem := DataWrite(mem, address, flag);
    }

    // Three more words, after the flag word, make up the new bottom frame.
    method ReadBottom(flag: u16, addressReg: u16) returns (address: u16)
      requires Valid() && flag == DataRead(mem, addressReg)
      modifies bkrepStack
      ensures bkrepStack[..] == old(bkrepStack[..])[0 := LoadFrame(mem, addressReg)]
      ensures address == Up(addressReg, 4)
    {
      hide DataRead;
      address := Up(addressReg, 1);
      var low := DataRead(mem, address);
      bkrepStack[0] := bkrepStack[0].(end := low + flag / 0x100 % 4 * 0x1_0000);
      address := Up(address, 1);
      low := DataRead(mem, address);
      bkrepStack[0] := bkrepStack[0].(start := low + flag % 4 * 0x1_0000);
      address := Up(address, 1);
      bkrepStack[0] := bkrepStack[0].(lc := DataRead(mem, address));
      address := Up(address, 1);
    }

    method DropBottom()
      requires Valid()
      modifies this`lp, this`bcn, bkrepStack
      ensures Valid() && Regs() == Dropped(old(Regs()))
    {
      if lp {
        CopyDown();
        bcn := bcn - 1;
        if bcn == 0 {
          lp := false;
        }
      }
    }

    method StoreBlockRepeat(addressReg: u16) returns (address: u16)
      requires Valid()
      modifies this, bkrepStack
      ensures Valid()
      ensures Spill(Regs(), mem, address) == Store(Spill(old(Regs()), old(mem), addressReg))
    {
      hide StoreWords, FlagWord, Down, Dropped;
      address := WriteBottom(addressReg);
      DropBottom();
    }

    method RestoreBlockRepeat(addressReg: u16) returns (address: u16)
      requires Valid() && Restore(Spill(Regs(), mem, addressReg)).Some?
      modifies this, bkrepStack
      ensures Valid()
      ensures Some(Spill(Regs(), mem, address)) == Restore(Spill(old(Regs()), old(mem), addressReg))
    {
      hide LoadFrame, Up, DataRead;
      ghost var before := bkrepStack[..];
      if lp {
        CopyUp();
        bcn := bcn + 1;
      }
      var flag := DataRead(mem, addressReg);
      var valid := flag >= 0x8000;
      if lp {
        assert valid;
      } else if valid {
        lp, bcn := true, 1;
      }
      ghost var shifted := bkrepStack[..];
      address := ReadBottom(flag, addressReg);
      assert bkrepStack[..] == [bkrepStack[0]] + shifted[1..];
      assert shifted[1..] == bkrepStack[1..];
      assert old(lp) ==> shifted[1..] == before[..old(bcn)] + before[old(bcn) + 1..];
    }
  }
}
