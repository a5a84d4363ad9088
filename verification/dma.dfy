// The DMA engine: a three-level counter machine moving words between the
// shared memory and the bus bridge.
module Dmas {
  import opened Words
  import opened Arith
  import opened Memories
  import opened Ahbms

  // The programmed registers of a channel; `src` and `dst` are the two halves
  // of each address put together.
  datatype Config = Config(
    src: u32, dst: u32,
    size0: u16, size1: u16, size2: u16,
    srcStep0: u16, srcStep1: u16, srcStep2: u16,
    dstStep0: u16, dstStep1: u16, dstStep2: u16,
    srcSpace: u16, dstSpace: u16, dword: bool)

  // What a transfer reads and writes.
  datatype Bus = Bus(shared: Memory, port: Port)

  // The word a data address selects; its byte address is kept to 32 bits.
  function SharedWord(address: u32): u32 {
    Plus(DATA_OFFSET, address) % 0x8000_0000
  }

  // Reads past the end of shared memory are undefined in the source; zero
  // here, and writes past the end are dropped.
  function SharedRead(m: Memory, address: u32): u16 {
    ProgramRead(m, SharedWord(address))
  }

  function SharedWrite(m: Memory, address: u32, value: u16): Memory {
    var a := SharedWord(address);
    if a < WORDS then m[a := value] else m
  }

  function Even(address: u32): u32 {
    address - address % 2
  }

  function Odd(address: u32): u32 {
    address - address % 2 + 1
  }

  // Memory space 0 is shared memory, 7 the bridge; other spaces read zero and
  // swallow writes.
  function Fetched(c: Config, b: Bus, src: u32): (Bus, u32) {
    if c.srcSpace == 0 then
      (b, if c.dword then SharedRead(b.shared, Even(src)) + SharedRead(b.shared, Odd(src)) * 0x1_0000
          else SharedRead(b.shared, src))
    else if c.srcSpace == 7 then
      var (port, value) := ReadWord(b.port, src);
      (b.(port := port), if c.dword then value else Read16Half(src, value))
    else (b, 0)
  }

  function Deposited(c: Config, b: Bus, dst: u32, value: u32): Bus
    requires c.dword || value < 0x1_0000
  {
    if c.dstSpace == 0 then
      b.(shared := if c.dword
                   then SharedWrite(SharedWrite(b.shared, Even(dst), value % 0x1_0000), Odd(dst), value / 0x1_0000)
                   else SharedWrite(b.shared, dst, value))
    else if c.dstSpace == 7 then
      b.(port := Written(b.port, dst, if c.dword then WriteValue(dst, value) else value))
    else b
  }

  // One transfer from src to dst.
  function Moved(c: Config, b: Bus, src: u32, dst: u32): Bus {
    var (f, value) := Fetched(c, b, src);
    Deposited(c, f, dst, value)
  }

  function Joined(low: u16, high: u16): u32 {
    low + high * 0x1_0000
  }

  datatype Position = Position(src: u32, dst: u32, counter0: u16, counter1: u16, counter2: u16, running: bool)

  function Started(c: Config): Position {
    Position(c.src, c.dst, 0, 0, 0, true)
  }

  function Stepped(p: Position, srcStep: u16, dstStep: u16): Position {
    p.(src := Plus(p.src, srcStep), dst := Plus(p.dst, dstStep))
  }

  // The counters after a transfer, in 16-bit arithmetic.
  function Advance(c: Config, p: Position): Position {
    var c0 := (p.counter0 + if c.dword then 2 else 1) % 0x1_0000;
    if c0 < c.size0 then Stepped(p.(counter0 := c0), c.srcStep0, c.dstStep0)
    else AdvanceRow(c, p.(counter0 := 0))
  }

  function AdvanceRow(c: Config, p: Position): Position {
    var c1 := (p.counter1 + 1) % 0x1_0000;
    if c1 < c.size1 then Stepped(p.(counter1 := c1), c.srcStep1, c.dstStep1)
    else AdvancePlane(c, p.(counter1 := 0))
  }

  function AdvancePlane(c: Config, p: Position): Position {
    var c2 := (p.counter2 + 1) % 0x1_0000;
    if c2 < c.size2 then Stepped(p.(counter2 := c2), c.srcStep2, c.dstStep2)
    else p.(counter2 := c2, running := false)
  }

  // --- the loop nest the counters amount to ---

  function Max1(n: nat): (m: nat)
    ensures m > 0
  {
    if n == 0 then 1 else n
  }

  function Count0(c: Config): (n: nat)
    ensures n > 0
  {
    Max1(if c.dword then (c.size0 + 1) / 2 else c.size0)
  }

  function Count1(c: Config): (n: nat)
    ensures n > 0
  {
    Max1(c.size1)
  }

  function Count2(c: Config): (n: nat)
    ensures n > 0
  {
    Max1(c.size2)
  }

  // How many transfers there are.
  function Total(c: Config): nat {
    Times(Times(Count2(c), Count1(c)), Count0(c))
  }

  lemma TotalIsProduct(c: Config)
    ensures Total(c) == Count2(c) * Count1(c) * Count0(c)
  {
    TimesIsProduct(Count2(c), Count1(c));
    TimesIsProduct(Times(Count2(c), Count1(c)), Count0(c));
  }

  // How often each step has been taken before transfer (i2, i1, i0): the last
  // transfer of a row or plane takes the outer step instead of the inner one.
  function Taken0(n0: nat, n1: nat, i0: nat, i1: nat, i2: nat): nat
    requires n0 > 0 && n1 > 0
  {
    var rows: nat := i1 + n1 * i2;
    var inRow: nat := n0 - 1;
    i0 + inRow * rows
  }

  function Taken1(n1: nat, i1: nat, i2: nat): nat
    requires n1 > 0
  {
    i1 + (n1 - 1) * i2
  }

  function Offset3(base: u32, a: nat, b: nat, d: nat): u32 {
    (base + a + b + d) % M32
  }

  function Sum3(base: u32, s0: u16, s1: u16, s2: u16, k0: nat, k1: nat, k2: nat): u32 {
    Offset3(base, s0 * k0, s1 * k1, s2 * k2)
  }

  // The address of transfer (i2, i1, i0) of the nest.
  function AddressAt(base: u32, s0: u16, s1: u16, s2: u16, n0: nat, n1: nat, i0: nat, i1: nat, i2: nat): u32
    requires n0 > 0 && n1 > 0
  {
    Sum3(base, s0, s1, s2, Taken0(n0, n1, i0, i1, i2), Taken1(n1, i1, i2), i2)
  }

  function I0(c: Config, n: nat): nat {
    Rem(n, Count0(c))
  }

  function I1(c: Config, n: nat): nat {
    Rem(Quot(n, Count0(c)), Count1(c))
  }

  function I2(c: Config, n: nat): nat {
    Quot(Quot(n, Count0(c)), Count1(c))
  }

  function SrcAt(c: Config, n: nat): u32 {
    AddressAt(c.src, c.srcStep0, c.srcStep1, c.srcStep2, Count0(c), Count1(c), I0(c, n), I1(c, n), I2(c, n))
  }

  function DstAt(c: Config, n: nat): u32 {
    AddressAt(c.dst, c.dstStep0, c.dstStep1, c.dstStep2, Count0(c), Count1(c), I0(c, n), I1(c, n), I2(c, n))
  }

  // The bus after the first n transfers of the nest, in order.
  function Moves(c: Config, b: Bus, n: nat): Bus {
    if n == 0 then b else Moved(c, Moves(c, b, n - 1), SrcAt(c, n - 1), DstAt(c, n - 1))
  }

  lemma NestIndex(n0: nat, n1: nat, n2: nat, i0: nat, i1: nat, i2: nat)
    requires i0 < n0 && i1 < n1 && i2 < n2
    ensures var row: nat := i2 * n1 + i1; var n: nat := row * n0 + i0;
            n < n2 * n1 * n0 && n / n0 == row && n % n0 == i0 && row / n1 == i2 && row % n1 == i1
  {
    var row: nat := i2 * n1 + i1;
    var n: nat := row * n0 + i0;
    var rows := n2 * n1;
    ScaleLe(i2 + 1, n2, n1);
    assert (i2 + 1) * n1 == i2 * n1 + n1;
    ScaleLe(row + 1, rows, n0);
    assert (row + 1) * n0 == row * n0 + n0;
    DivModUnique(n, n0, row, i0);
    DivModUnique(row, n1, i2, i1);
  }

  lemma CountsAre(c: Config)
    ensures Count0(c) == if c.size0 == 0 then 1 else if c.dword then (c.size0 + 1) / 2 else c.size0
    ensures Count1(c) == (if c.size1 == 0 then 1 else c.size1) && Count2(c) == if c.size2 == 0 then 1 else c.size2
  {
  }

  // Transfer number (i2 * n1 + i1) * n0 + i0 is the one with these indices, and
  // its address has taken each step as often as the nest says, on the source
  // and the destination side alike.
  lemma TransferAddresses(c: Config, i0: nat, i1: nat, i2: nat, n: nat)
    requires i0 < Count0(c) && i1 < Count1(c) && i2 < Count2(c)
    requires n == (i2 * Count1(c) + i1) * Count0(c) + i0
    ensures n < Total(c) == Count2(c) * Count1(c) * Count0(c)
    ensures var k0, k1 := i0 + (Count0(c) - 1) * (i1 + Count1(c) * i2), i1 + (Count1(c) - 1) * i2;
            && SrcAt(c, n) == (c.src + c.srcStep0 * k0 + c.srcStep1 * k1 + c.srcStep2 * i2) % 0x1_0000_0000
            && DstAt(c, n) == (c.dst + c.dstStep0 * k0 + c.dstStep1 * k1 + c.dstStep2 * i2) % 0x1_0000_0000
  {
    hide Total, Count0, Count1, Count2, Quot, Rem, AddressAt;
    TotalIsProduct(c);
    NestIndex(Count0(c), Count1(c), Count2(c), i0, i1, i2);
    QuotRemAreDivMod(n, Count0(c));
    QuotRemAreDivMod(Quot(n, Count0(c)), Count1(c));
    AddressIs(c.src, c.srcStep0, c.srcStep1, c.srcStep2, Count0(c), Count1(c), i0, i1, i2);
    AddressIs(c.dst, c.dstStep0, c.dstStep1, c.dstStep2, Count0(c), Count1(c), i0, i1, i2);
  }

  lemma AddressIs(base: u32, s0: u16, s1: u16, s2: u16, n0: nat, n1: nat, i0: nat, i1: nat, i2: nat)
    requires n0 > 0 && n1 > 0
    ensures AddressAt(base, s0, s1, s2, n0, n1, i0, i1, i2) ==
            (base + s0 * (i0 + (n0 - 1) * (i1 + n1 * i2)) + s1 * (i1 + (n1 - 1) * i2) + s2 * i2) % 0x1_0000_0000
  {
  }

  // The counters before transfer n.
  predicate At(c: Config, p: Position, n: nat) {
    && p.running && p.src == SrcAt(c, n) && p.dst == DstAt(c, n)
    && p.counter0 == I0(c, n) * Unit(c) && p.counter1 == I1(c, n) && p.counter2 == I2(c, n)
  }

  // The one configuration whose 16-bit counter steps over its limit.
  predicate Endless(c: Config) {
    c.dword && c.size0 == 0xFFFF
  }

  lemma MulSucc(a: nat, b: nat)
    ensures a * (b + 1) == a * b + a
  {
  }

  lemma OffsetGrows(base: u32, a: nat, b: nat, d: nat, s: nat)
    ensures Plus(Offset3(base, a, b, d), s) == Offset3(base, a + s, b, d)
    ensures Plus(Offset3(base, a, b, d), s) == Offset3(base, a, b + s, d)
    ensures Plus(Offset3(base, a, b, d), s) == Offset3(base, a, b, d + s)
  {
    hide Plus;
    PlusMod(base + a + b + d, s);
    assert base + (a + s) + b + d == base + a + (b + s) + d == base + a + b + (d + s) == base + a + b + d + s;
  }

  lemma SumSteps(base: u32, s0: u16, s1: u16, s2: u16, k0: nat, k1: nat, k2: nat)
    ensures Plus(Sum3(base, s0, s1, s2, k0, k1, k2), s0) == Sum3(base, s0, s1, s2, k0 + 1, k1, k2)
    ensures Plus(Sum3(base, s0, s1, s2, k0, k1, k2), s1) == Sum3(base, s0, s1, s2, k0, k1 + 1, k2)
    ensures Plus(Sum3(base, s0, s1, s2, k0, k1, k2), s2) == Sum3(base, s0, s1, s2, k0, k1, k2 + 1)
  {
    hide Plus, Offset3;
    MulSucc(s0, k0);
    MulSucc(s1, k1);
    MulSucc(s2, k2);
    OffsetGrows(base, s0 * k0, s1 * k1, s2 * k2, s0);
    OffsetGrows(base, s0 * k0, s1 * k1, s2 * k2, s1);
    OffsetGrows(base, s0 * k0, s1 * k1, s2 * k2, s2);
  }

  lemma TakenSteps(n0: nat, n1: nat, i0: nat, i1: nat, i2: nat)
    requires n0 > 0 && n1 > 0
    ensures Taken0(n0, n1, i0 + 1, i1, i2) == Taken0(n0, n1, i0, i1, i2) + 1
    ensures Taken0(n0, n1, 0, i1 + 1, i2) == Taken0(n0, n1, n0 - 1, i1, i2)
    ensures Taken0(n0, n1, 0, 0, i2 + 1) == Taken0(n0, n1, n0 - 1, n1 - 1, i2)
    ensures Taken1(n1, i1 + 1, i2) == Taken1(n1, i1, i2) + 1
    ensures Taken1(n1, 0, i2 + 1) == Taken1(n1, n1 - 1, i2)
  {
  }

  lemma AddressStep(base: u32, s0: u16, s1: u16, s2: u16, n0: nat, n1: nat, i0: nat, i1: nat, i2: nat)
    requires n0 > 0 && n1 > 0
    ensures Plus(AddressAt(base, s0, s1, s2, n0, n1, i0, i1, i2), s0) ==
            AddressAt(base, s0, s1, s2, n0, n1, i0 + 1, i1, i2)
    ensures i0 + 1 == n0 ==>
      Plus(AddressAt(base, s0, s1, s2, n0, n1, i0, i1, i2), s1) == AddressAt(base, s0, s1, s2, n0, n1, 0, i1 + 1, i2)
    ensures i0 + 1 == n0 && i1 + 1 == n1 ==>
      Plus(AddressAt(base, s0, s1, s2, n0, n1, i0, i1, i2), s2) == AddressAt(base, s0, s1, s2, n0, n1, 0, 0, i2 + 1)
  {
    hide Plus, Sum3, Taken0, Taken1;
    TakenSteps(n0, n1, i0, i1, i2);
    SumSteps(base, s0, s1, s2, Taken0(n0, n1, i0, i1, i2), Taken1(n1, i1, i2), i2);
  }

  lemma PlusMod(x: nat, s: nat)
    ensures Plus(x % M32, s) == (x + s) % M32
  {
    DivShift(x % M32 + s, M32, x / M32);
  }

  lemma StartsAtZero(c: Config)
    ensures At(c, Started(c), 0) && Total(c) > 0
  {
    TotalIsProduct(c);
    ScaleLe(1, Count2(c), Count1(c));
    ScaleLe(1, Count2(c) * Count1(c), Count0(c));
    ZeroAddress(c.src, c.srcStep0, c.srcStep1, c.srcStep2, Count0(c), Count1(c));
    ZeroAddress(c.dst, c.dstStep0, c.dstStep1, c.dstStep2, Count0(c), Count1(c));
  }

  lemma ZeroAddress(base: u32, s0: u16, s1: u16, s2: u16, n0: nat, n1: nat)
    requires n0 > 0 && n1 > 0
    ensures AddressAt(base, s0, s1, s2, n0, n1, 0, 0, 0) == base
  {
  }

  // The indices move like the counters of a loop nest.
  lemma IndexStep(c: Config, n: nat)
    requires n < Total(c)
    ensures I0(c, n) < Count0(c) && I1(c, n) < Count1(c) && I2(c, n) < Count2(c)
    ensures I0(c, n) + 1 < Count0(c) ==>
      I0(c, n + 1) == I0(c, n) + 1 && I1(c, n + 1) == I1(c, n) && I2(c, n + 1) == I2(c, n)
    ensures I0(c, n) + 1 == Count0(c) && I1(c, n) + 1 < Count1(c) ==>
      I0(c, n + 1) == 0 && I1(c, n + 1) == I1(c, n) + 1 && I2(c, n + 1) == I2(c, n)
    ensures I0(c, n) + 1 == Count0(c) && I1(c, n) + 1 == Count1(c) ==>
      I0(c, n + 1) == 0 && I1(c, n + 1) == 0 && I2(c, n + 1) == I2(c, n) + 1
    ensures n + 1 == Total(c) <==>
      I0(c, n) + 1 == Count0(c) && I1(c, n) + 1 == Count1(c) && I2(c, n) + 1 == Count2(c)
  {
    hide Quot, Rem, Times, Count0, Count1, Count2;
    var n0, n1, n2 := Count0(c), Count1(c), Count2(c);
    var q := Quot(n, n0);
    QuotBelow(n, Times(n2, n1), n0);
    QuotBelow(q, n2, n1);
    QuotRemStep(n, n0);
    QuotRemStep(q, n1);
    QuotTimes(n, n0);
    QuotTimes(q, n1);
    LastIndex(n, Times(n2, n1), n0);
    LastIndex(q, n2, n1);
  }

  // x is the last of k rows of d exactly when its remainder and quotient are.
  lemma LastIndex(x: nat, k: nat, d: nat)
    requires d > 0 && x < Times(k, d)
    ensures x + 1 == Times(k, d) <==> Rem(x, d) + 1 == d && Quot(x, d) + 1 == k
  {
    hide Quot, Rem, Times;
    QuotRemStep(x, d);
    QuotRemOfTimes(k, d);
    QuotTimes(x, d);
    QuotTimes(x + 1, d);
    if Rem(x, d) + 1 == d && Quot(x, d) + 1 == k {
      assert Rem(x + 1, d) == 0 && Quot(x + 1, d) == k;
    }
  }

  // The 16-bit counter reaches its limit exactly at the end of a row.
  lemma Counter0(c: Config, i0: nat)
    requires !Endless(c) && i0 < Count0(c)
    ensures (i0 + 1) * Unit(c) < 0x1_0000 && ((i0 + 1) * Unit(c) < c.size0 <==> i0 + 1 < Count0(c))
  {
  }

  lemma Counter12(c: Config, i1: nat, i2: nat)
    requires i1 < Count1(c) && i2 < Count2(c)
    ensures i1 + 1 < 0x1_0000 && (i1 + 1 < c.size1 <==> i1 + 1 < Count1(c))
    ensures i2 + 1 < 0x1_0000 && (i2 + 1 < c.size2 <==> i2 + 1 < Count2(c))
  {
  }

  function Unit(c: Config): nat {
    if c.dword then 2 else 1
  }

  // The counters after the transfer with these indices.
  lemma AdvanceCases(c: Config, p: Position, i0: nat, i1: nat, i2: nat)
    requires !Endless(c) && i0 < Count0(c) && i1 < Count1(c) && i2 < Count2(c)
    requires p.counter0 == i0 * Unit(c) && p.counter1 == i1 && p.counter2 == i2
    ensures (i0 + 1) * Unit(c) < 0x1_0000 && i1 + 1 < 0x1_0000 && i2 + 1 < 0x1_0000
    ensures i0 + 1 < Count0(c) ==>
      Advance(c, p) == p.(counter0 := (i0 + 1) * Unit(c),
                          src := Plus(p.src, c.srcStep0), dst := Plus(p.dst, c.dstStep0))
    ensures i0 + 1 == Count0(c) && i1 + 1 < Count1(c) ==>
      Advance(c, p) == p.(counter0 := 0, counter1 := i1 + 1,
                          src := Plus(p.src, c.srcStep1), dst := Plus(p.dst, c.dstStep1))
    ensures i0 + 1 == Count0(c) && i1 + 1 == Count1(c) && i2 + 1 < Count2(c) ==>
      Advance(c, p) == p.(counter0 := 0, counter1 := 0, counter2 := i2 + 1,
                          src := Plus(p.src, c.srcStep2), dst := Plus(p.dst, c.dstStep2))
    ensures i0 + 1 == Count0(c) && i1 + 1 == Count1(c) && i2 + 1 == Count2(c) ==>
      Advance(c, p) == p.(counter0 := 0, counter1 := 0, counter2 := i2 + 1, running := false)
  {
    hide Plus, Count0, Count1, Count2, Endless;
    Counter0(c, i0);
    Counter12(c, i1, i2);
    assert p.counter0 + Unit(c) == (i0 + 1) * Unit(c);
  }

  // A tick moves the counters to the next transfer, or stops after the last.
  lemma AdvanceFollowsNest(c: Config, p: Position, n: nat)
    requires !Endless(c) && n < Total(c) && At(c, p, n)
    ensures if n + 1 < Total(c) then At(c, Advance(c, p), n + 1)
            else Advance(c, p) == p.(counter0 := 0, counter1 := 0, counter2 := Count2(c), running := false)
  {
    hide AddressAt, I0, I1, I2, Plus, Total, Count0, Count1, Count2, Endless, Advance;
    IndexStep(c, n);
    AdvanceCases(c, p, I0(c, n), I1(c, n), I2(c, n));
    AddressStep(c.src, c.srcStep0, c.srcStep1, c.srcStep2, Count0(c), Count1(c), I0(c, n), I1(c, n), I2(c, n));
    AddressStep(c.dst, c.dstStep0, c.dstStep1, c.dstStep2, Count0(c), Count1(c), I0(c, n), I1(c, n), I2(c, n));
  }

  // --- the configuration that never ends ---

  function Positions(c: Config, n: nat): Position {
    if n == 0 then Started(c) else Advance(c, Positions(c, n - 1))
  }

  lemma EndlessStep(c: Config, p: Position)
    requires Endless(c) && p.running && p.counter0 % 2 == 0
    ensures Advance(c, p).running && Advance(c, p).counter0 % 2 == 0
  {
  }

  lemma {:induction false} EndlessRuns(c: Config, n: nat)
    requires Endless(c)
    ensures Positions(c, n).running && Positions(c, n).counter0 % 2 == 0
  {
    hide Advance, Endless;
    if n > 0 {
      EndlessRuns(c, n - 1);
      EndlessStep(c, Positions(c, n - 1));
    }
  }

  lemma {:induction false} PositionsFollowNest(c: Config, n: nat)
    requires !Endless(c) && n < Total(c)
    ensures At(c, Positions(c, n), n)
  {
    hide At, Advance, Total, Started;
    if n == 0 {
      StartsAtZero(c);
    } else {
      PositionsFollowNest(c, n - 1);
      AdvanceFollowsNest(c, Positions(c, n - 1), n - 1);
    }
  }

  // The channel stops if and only if it is not in double-word mode with the
  // full row size, whose even counter steps over 0xFFFF.
  lemma StopsExactly(c: Config)
    ensures (exists n :: !Positions(c, n).running) <==> !Endless(c)
  {
    if Endless(c) {
      forall n: nat ensures Positions(c, n).running {
        EndlessRuns(c, n);
      }
    } else {
      StartsAtZero(c);
      var last := Total(c) - 1;
      PositionsFollowNest(c, last);
      AdvanceFollowsNest(c, Positions(c, last), last);
      assert !Positions(c, last + 1).running;
    }
  }

  class Dma {
    var addrSrcLow: u16
    var addrSrcHigh: u16
    var addrDstLow: u16
    var addrDstHigh: u16
    var size0: u16
    var size1: u16
    var size2: u16
    var srcStep0: u16
    var dstStep0: u16
    var srcStep1: u16
    var dstStep1: u16
    var srcStep2: u16
    var dstStep2: u16
    var srcSpace: u16
    var dstSpace: u16
    var dwordMode: bool
    var currentSrc: u32
    var currentDst: u32
    var counter0: u16
    var counter1: u16
    var counter2: u16
    var running: bool
    var shared: Memory
    const bridge: seq<AhbmChannel>
    var ahbm: AhbmChannel
    ghost var interrupts: nat

    constructor (bridge: seq<AhbmChannel>)
      requires |bridge| == 3
      ensures this.bridge == bridge
    {
      this.bridge := bridge;
      ahbm := bridge[0];
      addrSrcLow, addrSrcHigh, addrDstLow, addrDstHigh := 0, 0, 0, 0;
      size0, size1, size2 := 0, 0, 0;
      srcStep0, dstStep0, srcStep1, dstStep1, srcStep2, dstStep2 := 0, 0, 0, 0, 0, 0;
      srcSpace, dstSpace, dwordMode := 0, 0, false;
      currentSrc, currentDst, counter0, counter1, counter2, running := 0, 0, 0, 0, 0, false;
      shared := seq(WORDS, _ => 0);
      interrupts := 0;
    }

    function Cfg(): Config
      reads this`addrSrcLow, this`addrSrcHigh, this`addrDstLow, this`addrDstHigh, this`size0, this`size1, this`size2
      reads this`srcStep0, this`srcStep1, this`srcStep2, this`dstStep0, this`dstStep1, this`dstStep2
      reads this`srcSpace, this`dstSpace, this`dwordMode
    {
      Config(Joined(addrSrcLow, addrSrcHigh), Joined(addrDstLow, addrDstHigh),
             size0, size1, size2, srcStep0, srcStep1, srcStep2, dstStep0, dstStep1, dstStep2,
             srcSpace, dstSpace, dwordMode)
    }

    ghost function Pos(): Position
      reads this`currentSrc, this`currentDst, this`counter0, this`counter1, this`counter2, this`running
    {
      Position(currentSrc, currentDst, counter0, counter1, counter2, running)
    }

    ghost function Wires(): Bus
      reads this`shared, this`ahbm, ahbm, ahbm.external
    {
      Bus(shared, ahbm.State())
    }

    method StartChannel()
      modifies this`running, this`currentSrc, this`currentDst, this`counter0, this`counter1, this`counter2
      ensures Pos() == Started(Cfg())
      ensures currentSrc == addrSrcLow + 0x1_0000 * addrSrcHigh && currentDst == addrDstLow + 0x1_0000 * addrDstHigh
    {
      running := true;
      currentSrc := Joined(addrSrcLow, addrSrcHigh);
      currentDst := Joined(addrDstLow, addrDstHigh);
      counter0, counter1, counter2 := 0, 0, 0;
    }

    method FetchUnit() returns (value: u32)
      modifies ahbm
      ensures (Wires(), value) == Fetched(Cfg(), old(Wires()), currentSrc)
      ensures dwordMode || value < 0x1_0000
    {
      hide SharedRead, ReadWord;
      value := 0;
      if dwordMode {
        match srcSpace
        case 0 =>
          var low: nat, high: nat := SharedRead(shared, Even(currentSrc)), SharedRead(shared, Odd(currentSrc));
          value := low + high * 0x1_0000;
        case 7 => value := ahbm.Read32(currentSrc);
        case _ =>
      } else {
        match srcSpace
        case 0 => value := SharedRead(shared, currentSrc);
        case 7 => value := ahbm.Read16(currentSrc);
        case _ =>
      }
    }

    method DepositUnit(value: u32)
      requires dwordMode || value < 0x1_0000
      modifies this`shared, ahbm, ahbm.external
      ensures Wires() == Deposited(Cfg(), old(Wires()), currentDst, value)
    {
      hide SharedWrite, Written;
      if dwordMode {
        match dstSpace
        case 0 =>
          shared := SharedWrite(shared, Even(currentDst), value % 0x1_0000);
          shared := SharedWrite(shared, Odd(currentDst), value / 0x1_0000);
        case 7 => ahbm.Write32(currentDst, value);
        case _ =>
      } else {
        match dstSpace
        case 0 => shared := SharedWrite(shared, currentDst, value);
        case 7 => ahbm.Write16(currentDst, value);
        case _ =>
      }
    }

    lemma CfgFields()
      ensures var c := Cfg(); (c.dword, c.size0, c.size1, c.size2) == (dwordMode, size0, size1, size2)
      ensures var c := Cfg(); (c.srcStep0, c.srcStep1, c.srcStep2) == (srcStep0, srcStep1, srcStep2)
      ensures var c := Cfg(); (c.dstStep0, c.dstStep1, c.dstStep2) == (dstStep0, dstStep1, dstStep2)
    {
    }

    method StepBy(srcStep: u16, dstStep: u16)
      modifies this`currentSrc, this`currentDst
      ensures Pos() == Stepped(old(Pos()), srcStep, dstStep)
    {
      hide Plus;
      currentSrc := Plus(currentSrc, srcStep);
      currentDst := Plus(currentDst, dstStep);
    }

    method NextPlane()
      modifies this`running, this`currentSrc, this`currentDst, this`counter2
      ensures Pos() == AdvancePlane(Cfg(), old(Pos()))
    {
      hide Stepped, Cfg;
      CfgFields();
      counter2 := (counter2 + 1) % 0x1_0000;
      if counter2 >= size2 {
        running := false;
      } else {
        StepBy(srcStep2, dstStep2);
      }
    }

    method NextRow()
      modifies this`running, this`currentSrc, this`currentDst, this`counter1, this`counter2
      ensures Pos() == AdvanceRow(Cfg(), old(Pos()))
    {
      hide Stepped, AdvancePlane, Cfg;
      CfgFields();
      counter1 := (counter1 + 1) % 0x1_0000;
      if counter1 >= size1 {
        counter1 := 0;
        NextPlane();
      } else {
        StepBy(srcStep1, dstStep1);
      }
    }

    method AdvanceCounters()
      modifies this`running, this`currentSrc, this`currentDst, this`counter0, this`counter1, this`counter2
      ensures Pos() == Advance(Cfg(), old(Pos()))
    {
      hide Stepped, AdvanceRow, Cfg;
      CfgFields();
      counter0 := (counter0 + if dwordMode then 2 else 1) % 0x1_0000;
      if counter0 >= size0 {
        counter0 := 0;
        NextRow();
      } else {
        StepBy(srcStep0, dstStep0);
      }
    }

    method Tick()
      modifies this`running, this`currentSrc, this`currentDst, this`counter0, this`counter1, this`counter2, this`shared,
        ahbm, ahbm.external
      ensures Wires() == Moved(Cfg(), old(Wires()), old(currentSrc), old(currentDst))
      ensures Pos() == Advance(Cfg(), old(Pos()))
    {
      hide Advance, Deposited, Fetched, Joined;
      hide Cfg, Pos, Wires;
      var value := FetchUnit();
      DepositUnit(value);
      AdvanceCounters();
    }

    // The bridge channel that serves this DMA channel.
    function Serving(channel: nat): AhbmChannel
      requires |bridge| == 3
      reads bridge
    {
      bridge[ChannelFor(bridge[0].dmaChannel, bridge[1].dmaChannel, bridge[2].dmaChannel, channel)]
    }

    // The loop over the ticks of a started channel.
    method RunChannel()
      requires !Endless(Cfg()) && Pos() == Started(Cfg())
      modifies this`running, this`currentSrc, this`currentDst, this`counter0, this`counter1, this`counter2, this`shared,
        ahbm, ahbm.external
      ensures !running && Wires() == Moves(Cfg(), old(Wires()), Total(Cfg()))
    {
      hide At, Advance, Moved, Moves, Total, Started, SrcAt, DstAt, Endless, Cfg, Wires;
      StartsAtZero(Cfg());
      AtRuns(Cfg(), Pos(), 0);
      MovesUnfold(Cfg(), Wires(), 0);
      ghost var n := 0;
      while running
        invariant n <= Total(Cfg()) && (n < Total(Cfg()) <==> running)
        invariant Cfg() == old(Cfg())
        invariant running ==> At(Cfg(), Pos(), n)
        invariant Wires() == Moves(Cfg(), old(Wires()), n)
        decreases Total(Cfg()) - n
      {
        AtMeans(Cfg(), Pos(), n);
        AdvanceFollowsNest(Cfg(), Pos(), n);
        MovesUnfold(Cfg(), old(Wires()), n);
        Tick();
        n := n + 1;
        AtRuns(Cfg(), Pos(), n);
      }
    }

    // The whole transfer on the bridge channel chosen at its start: every unit
    // of the loop nest, in order, then one interrupt.
    method DoDma(channel: nat)
      requires |bridge| == 3 && channel < 8 && !Endless(Cfg())
      modifies this`running, this`currentSrc, this`currentDst, this`counter0, this`counter1, this`counter2, this`shared,
        this`interrupts, this`ahbm, Serving(channel), Serving(channel).external
      ensures ahbm == old(Serving(channel)) && !running && interrupts == old(interrupts) + 1
      ensures Wires() == Moves(Cfg(), old(Bus(shared, Serving(channel).State())), Total(Cfg()))
    {
      hide Moves, Total, Started, Joined, Endless, ChannelFor, Serves;
      StartChannel();
      var i := GetChannelForDma(bridge, channel);
      ahbm := bridge[i];
      RunChannel();
      interrupts := interrupts + 1;
    }
  }

  lemma MovesUnfold(c: Config, b: Bus, n: nat)
    ensures Moves(c, b, 0) == b && Moves(c, b, n + 1) == Moved(c, Moves(c, b, n), SrcAt(c, n), DstAt(c, n))
  {
  }

  lemma AtMeans(c: Config, p: Position, n: nat)
    requires At(c, p, n)
    ensures p.src == SrcAt(c, n) && p.dst == DstAt(c, n)
  {
  }

  lemma AtRuns(c: Config, p: Position, n: nat)
    ensures At(c, p, n) ==> p.running
  {
  }

  // --- what a transfer to the bridge leaves there ---

  // What goes to the bridge: the value fetched, as the bridge takes it.
  function Sent(c: Config, dst: u32, value: u32): u32 {
    if c.dword then WriteValue(dst, value) else value
  }

  // The writes of the first n transfers.
  function Requests(c: Config, b: Bus, n: nat): (rs: seq<Request>)
    ensures |rs| == n
  {
    if n == 0 then []
    else
      var value := Fetched(c, Moves(c, b, n - 1), SrcAt(c, n - 1)).1;
      Requests(c, b, n - 1) + [Request(DstAt(c, n - 1), Sent(c, DstAt(c, n - 1), value))]
  }

  // Fetching leaves the write queue alone: nothing is read through the bridge,
  // or units are read one by one.
  predicate FetchesAside(c: Config, p: Port) {
    c.srcSpace != 7 || BurstLength(p.burstSize) == 1
  }

  lemma FetchAside(c: Config, b: Bus, src: u32)
    requires FetchesAside(c, b.port) && (c.srcSpace == 7 ==> b.port.queue == [])
    ensures Fetched(c, b, src).0 == b
  {
    hide ReadUnit, UnitAddress, SharedRead;
  }

  lemma WrittenAlone(p: Port, address: u32, value: u32)
    ensures var q := Written(p, address, value);
            q.burstSize == p.burstSize && (BurstLength(p.burstSize) == 1 ==> q.queue == [])
  {
    hide BurstWrites, AppliedAll;
  }

  lemma MovedToBridge(c: Config, b: Bus, src: u32, dst: u32)
    requires c.dstSpace == 7 && FetchesAside(c, b.port) && (c.srcSpace == 7 ==> b.port.queue == [])
    ensures Moved(c, b, src, dst) == b.(port := Written(b.port, dst, Sent(c, dst, Fetched(c, b, src).1)))
  {
    hide Fetched, Written;
    FetchAside(c, b, src);
  }

  lemma WriteAllLast(p: Port, rs: seq<Request>, r: Request)
    ensures WriteAll(p, rs + [r]) == Written(WriteAll(p, rs), r.address, r.value)
  {
    hide Written;
    assert (rs + [r])[..|rs|] == rs;
  }

  // A transfer to the bridge is exactly these writes.
  lemma {:induction false} MovesAreWrites(c: Config, b: Bus, n: nat)
    requires c.dstSpace == 7 && FetchesAside(c, b.port) && (c.srcSpace == 7 ==> b.port.queue == [])
    ensures var m := Moves(c, b, n);
            && m == b.(port := WriteAll(b.port, Requests(c, b, n)))
            && m.port.burstSize == b.port.burstSize && (c.srcSpace == 7 ==> m.port.queue == [])
  {
    hide Moved, Written, Fetched, SrcAt, DstAt, Sent, BurstLength;
    if n > 0 {
      MovesAreWrites(c, b, n - 1);
      var m := Moves(c, b, n - 1);
      SameAside(c, b.port, m.port);
      MovedToBridge(c, m, SrcAt(c, n - 1), DstAt(c, n - 1));
      var r := Request(DstAt(c, n - 1), Sent(c, DstAt(c, n - 1), Fetched(c, m, SrcAt(c, n - 1)).1));
      WriteAllLast(b.port, Requests(c, b, n - 1), r);
      WrittenAlone(m.port, r.address, r.value);
    }
  }

  lemma SameAside(c: Config, p: Port, q: Port)
    requires FetchesAside(c, p) && p.burstSize == q.burstSize
    ensures FetchesAside(c, q)
  {
  }

  // A whole transfer to an idle bridge: the whole bursts of its writes have
  // reached external memory, and the values after the last whole burst wait.
  lemma TransferSettles(c: Config, b: Bus)
    requires c.dstSpace == 7 && FetchesAside(c, b.port) && b.port.queue == []
    ensures Settled(b.port, Moves(c, b, Total(c)).port, Requests(c, b, Total(c)))
  {
    hide Settled, Total, Moves, Requests;
    MovesAreWrites(c, b, Total(c));
    WritesSettle(b.port, Requests(c, b, Total(c)));
  }

  // --- what a transfer from the bridge brings ---

  function Sources(c: Config, n: nat): (addresses: seq<u32>)
    ensures |addresses| == n
    ensures forall i :: 0 <= i < n ==> addresses[i] == SrcAt(c, i)
  {
    if n == 0 then [] else Sources(c, n - 1) + [SrcAt(c, n - 1)]
  }

  // Unit i mod B of the burst begun at the source address of transfer
  // i - i mod B, of which a 16-bit transfer takes the half its address selects.
  function BridgeValue(c: Config, p: Port, i: nat): (v: u32)
    ensures c.dword || v < 0x1_0000
  {
    var j: nat := Rem(i, BurstLength(p.burstSize));
    QuotTimes(i, BurstLength(p.burstSize));
    var unit := ReadUnit(p.unitSize, UnitAddress(p.unitSize, SrcAt(c, i - j), j), p.mem);
    if c.dword then unit else if SrcAt(c, i) % 2 == 0 then unit % 0x1_0000 else unit / 0x1_0000
  }

  lemma MovedFromBridge(c: Config, b: Bus, src: u32, dst: u32)
    requires c.srcSpace == 7 && c.dstSpace != 7
    ensures Moved(c, b, src, dst).port == ReadWord(b.port, src).0
    ensures Fetched(c, b, src).1 ==
            var v := ReadWord(b.port, src).1; if c.dword then v else Read16Half(src, v)
  {
    hide ReadWord, SharedWrite;
  }

  // A transfer from the bridge to shared memory is exactly these reads, and
  // transfer n fetches its unit of the bursts they make.
  lemma {:induction false} MovesAreReads(c: Config, b: Bus, n: nat)
    requires c.srcSpace == 7 && c.dstSpace != 7 && b.port.queue == []
    ensures Moves(c, b, n).port == ReadAll(b.port, Sources(c, n)).0
    ensures Fetched(c, Moves(c, b, n), SrcAt(c, n)).1 == BridgeValue(c, b.port, n)
    decreases n
  {
    hide Moved, Fetched, SrcAt, DstAt, ReadAll, ReadWord, ReadUnit, UnitAddress, Rem, Quot;
    var front := Sources(c, n);
    if n == 0 {
      NoReads(b.port);
    } else {
      MovesAreReads(c, b, n - 1);
      MovedFromBridge(c, Moves(c, b, n - 1), SrcAt(c, n - 1), DstAt(c, n - 1));
      ReadAllLast(b.port, Sources(c, n - 1), SrcAt(c, n - 1));
    }
    MovedFromBridge(c, Moves(c, b, n), SrcAt(c, n), DstAt(c, n));
    ReadAllLast(b.port, front, SrcAt(c, n));
    ReadsPrefetch(b.port, front);
    ReadsFollowBursts(b.port, front + [SrcAt(c, n)], n);
    QuotTimes(n, BurstLength(b.port.burstSize));
  }

  lemma NoReads(p: Port)
    ensures ReadAll(p, []) == (p, [])
  {
  }

  // --- what a transfer reads from and leaves in shared memory ---

  // Where a data address lies in shared memory; its byte address has 32 bits.
  function Place(address: nat): nat {
    (0x2_0000 + address) % 0x8000_0000
  }

  function Cell(shared: Memory, address: nat): u16 {
    if Place(address) < 0x4_0000 then shared[Place(address)] else 0
  }

  lemma PlaceIs(address: u32)
    ensures SharedWord(address) == Place(address)
    ensures Place(address - address % 2 + 1) == Place(address - address % 2) + 1
  {
    PairStays(0x2_0000 + address - address % 2);
    CutAgain(0x2_0000 + address);
  }

  lemma PairStays(x: nat)
    requires x % 2 == 0
    ensures (x + 1) % 0x8000_0000 == x % 0x8000_0000 + 1
  {
    var q, m := x / 0x8000_0000, x % 0x8000_0000;
    assert x == q * 0x8000_0000 + m;
    assert m % 2 == 0;
    DivModUnique(x + 1, 0x8000_0000, q, m + 1);
  }

  lemma CutAgain(x: nat)
    ensures x % 0x1_0000_0000 % 0x8000_0000 == x % 0x8000_0000
  {
    DivShift(x % 0x1_0000_0000, 0x8000_0000, x / 0x1_0000_0000 * 2);
  }

  // Both words of a double word, the low half at the even address.
  function SharedValue(c: Config, shared: Memory, i: nat): (v: u32)
    ensures c.dword || v < 0x1_0000
  {
    var src := SrcAt(c, i);
    if !c.dword then Cell(shared, src)
    else
      var low: nat, high: nat := Cell(shared, src - src % 2), Cell(shared, src - src % 2 + 1);
      low + 0x1_0000 * high
  }

  lemma FetchShared(c: Config, b: Bus, i: nat)
    requires c.srcSpace == 0
    ensures Fetched(c, b, SrcAt(c, i)) == (b, SharedValue(c, b.shared, i))
  {
    hide SrcAt;
    CellIs(b.shared, SrcAt(c, i));
    CellIs(b.shared, Even(SrcAt(c, i)));
    CellIs(b.shared, Odd(SrcAt(c, i)));
  }

  lemma CellIs(shared: Memory, address: u32)
    ensures SharedRead(shared, address) == Cell(shared, address)
    ensures address < 0x2_0000 ==> Cell(shared, address) == shared[0x2_0000 + address]
  {
    PlaceIs(address);
  }

  lemma {:induction false} SharedKept(c: Config, b: Bus, n: nat)
    requires c.dstSpace != 0
    ensures Moves(c, b, n).shared == b.shared
  {
    hide SrcAt, DstAt, ReadWord, Written, SharedRead;
    if n > 0 {
      SharedKept(c, b, n - 1);
    }
  }

  // A transfer from shared memory to the bridge: request i carries the word at
  // its source address, or in double-word mode the two words of the even pair
  // around it, of which an odd destination address takes the upper half.
  lemma {:induction false} SharedToBridge(c: Config, b: Bus, n: nat, i: nat)
    requires c.srcSpace == 0 && c.dstSpace == 7 && i < n
    ensures var v := SharedValue(c, b.shared, i);
            Requests(c, b, n)[i] ==
            Request(DstAt(c, i), if c.dword && DstAt(c, i) % 2 == 1 then v / 0x1_0000 else v)
  {
    hide Moves, SrcAt, DstAt, Fetched, SharedValue;
    if i < n - 1 {
      SharedToBridge(c, b, n - 1, i);
    } else {
      SharedKept(c, b, i);
      FetchShared(c, Moves(c, b, i), i);
    }
  }

  // The words of shared memory that a transfer to dst goes to.
  predicate Hits(c: Config, dst: u32, a: nat) {
    if c.dword then a == Place(dst - dst % 2) || a == Place(dst - dst % 2 + 1) else a == Place(dst)
  }

  // What it leaves at such a word: in double-word mode the even address takes
  // the lower half.
  function Landed(c: Config, dst: u32, value: u32, a: nat): u16
    requires c.dword || value < 0x1_0000
  {
    if !c.dword then value else if a == Place(dst - dst % 2) then value % 0x1_0000 else value / 0x1_0000
  }

  lemma DepositLands(c: Config, b: Bus, dst: u32, value: u32, a: nat)
    requires c.dstSpace == 0 && (c.dword || value < 0x1_0000) && a < WORDS
    ensures Deposited(c, b, dst, value).shared[a] == if Hits(c, dst, a) then Landed(c, dst, value, a) else b.shared[a]
  {
    hide SharedWord, Place;
    PlaceIs(dst);
    PlaceIs(Even(dst));
    PlaceIs(Odd(dst));
  }

  lemma FetchLeavesShared(c: Config, b: Bus, src: u32)
    ensures Fetched(c, b, src).0.shared == b.shared && (c.dword || Fetched(c, b, src).1 < 0x1_0000)
    ensures c.srcSpace != 0 && c.srcSpace != 7 ==> Fetched(c, b, src) == (b, 0)
  {
    hide ReadWord;
  }

  lemma MovedLands(c: Config, b: Bus, src: u32, dst: u32, a: nat)
    requires c.dstSpace == 0 && a < WORDS
    ensures c.dword || Fetched(c, b, src).1 < 0x1_0000
    ensures Moved(c, b, src, dst).shared[a] ==
            if Hits(c, dst, a) then Landed(c, dst, Fetched(c, b, src).1, a) else b.shared[a]
  {
    hide Fetched, Deposited, Hits, Landed;
    FetchLeavesShared(c, b, src);
    DepositLands(c, Fetched(c, b, src).0, dst, Fetched(c, b, src).1, a);
  }

  // No later transfer of the n goes to the same word.
  ghost predicate LastTo(c: Config, n: nat, i: nat, a: nat) {
    i < n && Hits(c, DstAt(c, i), a) && forall j :: i < j < n ==> !Hits(c, DstAt(c, j), a)
  }

  // After n transfers a word of shared memory holds what the last transfer to
  // it fetched.
  lemma {:induction false} LastArrives(c: Config, b: Bus, n: nat, i: nat, a: nat)
    requires c.dstSpace == 0 && a < WORDS && LastTo(c, n, i, a)
    ensures c.dword || Fetched(c, Moves(c, b, i), SrcAt(c, i)).1 < 0x1_0000
    ensures Moves(c, b, n).shared[a] == Landed(c, DstAt(c, i), Fetched(c, Moves(c, b, i), SrcAt(c, i)).1, a)
    decreases n
  {
    hide Moved, Fetched, SrcAt, DstAt, Hits, Landed;
    MovedLands(c, Moves(c, b, n - 1), SrcAt(c, n - 1), DstAt(c, n - 1), a);
    if i < n - 1 {
      LastArrives(c, b, n - 1, i, a);
    }
  }

  // From an idle bridge that is its unit of the bursts read.
  lemma TransferArrives(c: Config, b: Bus, n: nat, i: nat, a: nat)
    requires c.srcSpace == 7 && c.dstSpace == 0 && b.port.queue == [] && a < WORDS && LastTo(c, n, i, a)
    ensures Moves(c, b, n).shared[a] == Landed(c, DstAt(c, i), BridgeValue(c, b.port, i), a)
  {
    hide Moves, Fetched, SrcAt, DstAt, Hits, Landed, BridgeValue, LastTo;
    LastArrives(c, b, n, i, a);
    MovesAreReads(c, b, i);
  }

  // From shared memory it is what stood at its source address just before.
  lemma SharedArrives(c: Config, b: Bus, n: nat, i: nat, a: nat)
    requires c.srcSpace == 0 && c.dstSpace == 0 && a < WORDS && LastTo(c, n, i, a)
    ensures Moves(c, b, n).shared[a] == Landed(c, DstAt(c, i), SharedValue(c, Moves(c, b, i).shared, i), a)
  {
    hide Moves, Fetched, SrcAt, DstAt, Hits, Landed, LastTo, SharedValue;
    LastArrives(c, b, n, i, a);
    FetchShared(c, Moves(c, b, i), i);
  }

  // And a word that no transfer goes to is as before.
  lemma {:induction false} TransferSpares(c: Config, b: Bus, n: nat, a: nat)
    requires c.dstSpace == 0 && a < WORDS
    requires forall j :: 0 <= j < n ==> !Hits(c, DstAt(c, j), a)
    ensures Moves(c, b, n).shared[a] == b.shared[a]
  {
    hide Moved, Fetched, SrcAt, DstAt, Hits, Landed;
    if n > 0 {
      TransferSpares(c, b, n - 1, a);
      MovedLands(c, Moves(c, b, n - 1), SrcAt(c, n - 1), DstAt(c, n - 1), a);
    }
  }

  // Other memory spaces read zero and swallow writes.
  lemma {:induction false} OtherSpaces(c: Config, b: Bus, n: nat)
    requires c.srcSpace != 7 && c.dstSpace != 0 && c.dstSpace != 7
    ensures Moves(c, b, n) == b
    ensures c.srcSpace != 0 ==> Fetched(c, b, SrcAt(c, n)).1 == 0
  {
    hide SrcAt, DstAt, SharedRead;
    if n > 0 {
      OtherSpaces(c, b, n - 1);
    }
  }

  // --- a transfer from the bridge to the bridge ---

  lemma {:induction false} BurstCalls(unitSize: u16, start: u32, values: seq<u32>)
    ensures var calls := |BurstWrites(unitSize, start, values)|;
            if unitSize <= 2 then |values| <= calls <= 2 * |values| else calls == 0
  {
    hide UnitAddress, Byte;
    if values != [] {
      BurstCalls(unitSize, start, values[..|values| - 1]);
    }
  }

  // With bursts of more than one, a fetch leaves the rest of its burst in the
  // queue, and the deposit completes and writes out that burst.
  lemma MixedMove(c: Config, b: Bus, src: u32, dst: u32)
    requires c.srcSpace == 7 && c.dstSpace == 7 && b.port.queue == [] && BurstLength(b.port.burstSize) > 1
    ensures var m := Moved(c, b, src, dst);
            && m == b.(port := b.port.(mem := m.port.mem, writes := m.port.writes))
            && (b.port.unitSize > 2 ==> m == b)
            && (b.port.unitSize <= 2 ==> |m.port.writes| >= |b.port.writes| + BurstLength(b.port.burstSize))
  {
    hide ReadUnit, UnitAddress, BurstWrites, AppliedAll, BurstLength;
    var f := Fetched(c, b, src);
    var queue := f.0.port.queue + [Sent(c, dst, f.1)];
    assert |queue| == BurstLength(b.port.burstSize);
    BurstCalls(b.port.unitSize, b.port.start, queue);
    NothingApplied(b.port.mem, BurstWrites(b.port.unitSize, b.port.start, queue));
  }

  lemma NothingApplied(mem: Bytes, ws: seq<ExtWrite>)
    ensures ws == [] ==> AppliedAll(mem, ws) == mem
  {
  }

  lemma {:induction false} MixedMoves(c: Config, b: Bus, n: nat)
    requires c.srcSpace == 7 && c.dstSpace == 7 && b.port.queue == [] && BurstLength(b.port.burstSize) > 1
    ensures var m := Moves(c, b, n);
            && m == b.(port := b.port.(mem := m.port.mem, writes := m.port.writes))
            && (b.port.unitSize > 2 ==> m == b)
            && (b.port.unitSize <= 2 ==> |m.port.writes| >= |b.port.writes| + 4 * n)
  {
    hide Moved, SrcAt, DstAt;
    if n > 0 {
      MixedMoves(c, b, n - 1);
      MixedMove(c, Moves(c, b, n - 1), SrcAt(c, n - 1), DstAt(c, n - 1));
    }
  }

  // A write makes at most two handler calls, now or when its burst goes out.
  lemma {:induction false} CallsBounded(p: Port, rs: seq<Request>)
    ensures var q := WriteAll(p, rs);
            |q.writes| + 2 * |q.queue| <= |p.writes| + 2 * |p.queue| + 2 * |rs|
  {
    hide Written;
    if rs != [] {
      CallsBounded(p, rs[..|rs| - 1]);
      CallsOfOne(WriteAll(p, rs[..|rs| - 1]), rs[|rs| - 1].address, rs[|rs| - 1].value);
    }
  }

  lemma CallsOfOne(p: Port, address: u32, value: u32)
    ensures var q := Written(p, address, value);
            |q.writes| + 2 * |q.queue| <= |p.writes| + 2 * |p.queue| + 2
  {
    hide BurstWrites, AppliedAll, BurstLength;
    var start := if p.queue == [] then address else p.start;
    BurstCalls(p.unitSize, start, p.queue + [value]);
  }

  // Writes of units of unknown size only move the queue and the burst start.
  lemma {:induction false} UnknownUnits(p: Port, rs: seq<Request>)
    requires p.unitSize > 2 && p.queue == []
    ensures var q, b := WriteAll(p, rs), BurstLength(p.burstSize);
            && q == p.(queue := q.queue, start := q.start)
            && |q.queue| == Rem(|rs|, b) && (rs == [] ==> q == p)
            && (rs != [] && q.queue == [] ==> b <= |rs| && q.start == rs[|rs| - b].address)
            && (q.queue != [] ==> |q.queue| <= |rs| && q.start == rs[|rs| - |q.queue|].address)
  {
    hide Written, BurstLength, Rem;
    var b := BurstLength(p.burstSize);
    if rs == [] {
      RemWithin(0, b);
    } else {
      var front, r := rs[..|rs| - 1], rs[|rs| - 1];
      UnknownUnits(p, front);
      QuotRemStep(|front|, b);
      UnknownUnit(WriteAll(p, front), r);
    }
  }

  lemma UnknownUnit(q: Port, r: Request)
    requires q.unitSize > 2
    ensures Written(q, r.address, r.value) ==
            q.(start := if q.queue == [] then r.address else q.start,
               queue := if |q.queue| + 1 < BurstLength(q.burstSize) then q.queue + [r.value] else [])
  {
    hide BurstWrites, AppliedAll, BurstLength;
    var start := if q.queue == [] then r.address else q.start;
    BurstCalls(q.unitSize, start, q.queue + [r.value]);
    NothingApplied(q.mem, BurstWrites(q.unitSize, start, q.queue + [r.value]));
  }

  // What makes n transfers through one channel look like their writes: units
  // move one by one; or nothing is transferred at all, the unit size being
  // unknown, whole bursts are, and the burst register already holds the address
  // of the last one.
  predicate KeptApart(c: Config, p: Port, n: nat) {
    var b := BurstLength(p.burstSize);
    n == 0 || b == 1 || (p.unitSize > 2 && n >= b && Rem(n, b) == 0 && p.start == DstAt(c, n - b))
  }

  // Reading and writing through the same bridge channel mixes the two queues:
  // the transfers are their writes only in these cases.
  lemma BothWaysExactly(c: Config, b: Bus, n: nat)
    requires c.srcSpace == 7 && c.dstSpace == 7 && b.port.queue == []
    ensures Moves(c, b, n) == b.(port := WriteAll(b.port, Requests(c, b, n))) <==> KeptApart(c, b.port, n)
  {
    hide Moves, WriteAll, Requests, DstAt, Rem;
    var rs := Requests(c, b, n);
    if BurstLength(b.port.burstSize) == 1 {
      MovesAreWrites(c, b, n);
    } else {
      MixedMoves(c, b, n);
      if b.port.unitSize <= 2 {
        CallsBounded(b.port, rs);
        NoWrites(c, b);
      } else {
        UnknownUnits(b.port, rs);
        RemWithin(n, BurstLength(b.port.burstSize));
        RequestAddresses(c, b, n);
      }
    }
  }

  lemma NoWrites(c: Config, b: Bus)
    ensures Moves(c, b, 0) == b && WriteAll(b.port, Requests(c, b, 0)) == b.port
  {
  }

  lemma RemWithin(n: nat, b: nat)
    requires b > 0
    ensures n < b ==> Rem(n, b) == n
  {
  }

  lemma {:induction false} RequestAddresses(c: Config, b: Bus, n: nat)
    ensures forall i :: 0 <= i < n ==> Requests(c, b, n)[i].address == DstAt(c, i)
  {
    hide Moves, Fetched, DstAt, SrcAt, Sent;
    if n > 0 {
      RequestAddresses(c, b, n - 1);
    }
  }
}
