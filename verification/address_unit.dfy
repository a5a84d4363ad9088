// Address stepping in modulo buffers.
module AddressUnits {
  import opened Words
  import opened Arith
  import opened Bits

  // Number of bits needed to write x.
  function Log2p1(x: nat): nat {
    if x == 0 then 0 else 1 + Log2p1(x / 2)
  }

  // One more than the mask that covers x.
  function Span(x: nat): (m: nat)
    ensures m > 0
  {
    Pow2(Log2p1(x))
  }

  lemma {:induction false} SpanCovers(x: nat)
    ensures x < Span(x)
    ensures x > 0 ==> Span(x) <= 2 * x
  {
    if x > 1 {
      SpanCovers(x / 2);
    } else if x == 1 {
      assert Log2p1(1) == 1 + Log2p1(0);
    }
  }

  lemma {:induction false} SpanLeast(x: nat, k: nat)
    requires x < Pow2(k)
    ensures Log2p1(x) <= k
  {
    if x > 0 {
      SpanLeast(x / 2, k - 1);
    }
  }

  lemma {:induction false} OrAssoc(a: nat, b: nat, c: nat)
    ensures Or(Or(a, b), c) == Or(a, Or(b, c))
    decreases a + b + c
  {
    OrZero(a);
    OrZero(b);
    OrZero(c);
    OrZero(Or(b, c));
    OrZero(Or(a, b));
    if a > 0 && b > 0 && c > 0 {
      OrAssoc(a / 2, b / 2, c / 2);
      OrHalves(a, b);
      OrHalves(b, c);
      OrHalves(Or(a, b), c);
      OrHalves(a, Or(b, c));
    }
  }

  // The bitwise or is as wide as the wider operand.
  lemma {:induction false} OrWidth(a: nat, b: nat)
    ensures Log2p1(Or(a, b)) == if Log2p1(a) > Log2p1(b) then Log2p1(a) else Log2p1(b)
  {
    OrHalves(a, b);
    if a > 0 && b > 0 {
      OrWidth(a / 2, b / 2);
      assert Or(a, b) > 0;
    }
  }

  // x or-ed with all its right shifts.
  function Smeared(x: nat): nat {
    if x == 0 then 0 else Or(x, Smeared(x / 2))
  }

  lemma Log2p1Halves(x: nat)
    requires x > 1
    ensures Log2p1(x) == 1 + Log2p1(x / 2) && Log2p1(x / 2) >= 1
  {
  }

  lemma MaskHalves(k: nat)
    requires k >= 1
    ensures (Pow2(k) - 1) / 2 == Pow2(k - 1) - 1 && (Pow2(k) - 1) % 2 == 1
  {
  }

  lemma {:induction false} OrFills(x: nat)
    requires x > 0
    ensures Or(x, Pow2(Log2p1(x) - 1) - 1) == Span(x) - 1
  {
    hide Or, Pow2, Log2p1;
    if x == 1 {
      OneBit();
    } else {
      Log2p1Halves(x);
      OrFills(x / 2);
      OrFillsStep(x, Log2p1(x) - 1);
    }
  }

  lemma OneBit()
    ensures Log2p1(1) == 1 && Log2p1(0) == 0 && Pow2(0) == 1 && Pow2(1) == 2 && Or(1, 0) == 1
  {
  }

  lemma OrFillsStep(x: nat, k: nat)
    requires k > 0 && Or(x / 2, Pow2(k - 1) - 1) == Pow2(k) - 1
    ensures Or(x, Pow2(k) - 1) == Pow2(k + 1) - 1
  {
    assert Pow2(k + 1) == 2 * Pow2(k);
    MaskHalves(k);
    OrHalves(x, Pow2(k) - 1);
  }

  lemma {:induction false} SmearedIsMask(x: nat)
    ensures Smeared(x) == Span(x) - 1
  {
    hide Or, Pow2, Log2p1;
    OneBit();
    if x > 0 {
      SmearedIsMask(x / 2);
      OrFills(x);
      if x > 1 {
        Log2p1Halves(x);
      }
    }
  }

  // --- one step inside a buffer ---

  predicate Negative(s: u16) {
    s >= 0x8000
  }

  // The span a TeakLite step masks with: it covers the step as well.
  function LegacySpan(s: u16, mod: u16): (m: nat)
    ensures m > 0
  {
    Span(Or(mod, if Negative(s) then 0xFFFF - s else s))
  }

  // Replace the part of the address below the span.
  function Replaced(address: u16, span: nat, next: nat): int
    requires span > 0
  {
    address - address % span + next
  }

  function LegacyNext(address: u16, s: u16, mod: u16, mode2: bool): (next: nat)
    ensures next < LegacySpan(s, mod)
  {
    var span := LegacySpan(s, mod);
    LegacyCoversMod(s, mod);
    var exact := !mode2 || mod != span - 1;
    if !Negative(s) then
      if address % span == mod && exact then 0 else (address + s) % span
    else
      if address % span == 0 && exact then mod else (address + s) % span
  }

  function TeakNext(address: u16, s: u16, mod: u16): (next: nat)
    ensures next < Span(mod)
  {
    var span := Span(mod);
    SpanCovers(mod);
    if !Negative(s) then
      var next := (address + s) % span;
      if next == (mod + 1) % span then 0 else next
    else
      var off := address % span;
      ((if off == 0 then mod + 1 else off) + s) % span
  }

  lemma LegacyCoversMod(s: u16, mod: u16)
    ensures mod < LegacySpan(s, mod)
  {
    var t := if Negative(s) then 0xFFFF - s else s;
    OrWidth(mod, t);
    SpanCovers(mod);
    Pow2Monotone(Log2p1(mod), Log2p1(Or(mod, t)));
  }

  // A whole number of spans makes up the 16-bit address space.
  predicate Divides16(m: nat) {
    m > 0 && 0x1_0000 / m * m == 0x1_0000
  }

  lemma SpanDivides16(x: u16)
    ensures Divides16(Span(x))
  {
    hide Pow2;
    Pow2Values();
    SpanLeast(x, 16);
    Pow2Add(16 - Log2p1(x), Log2p1(x));
    DivModUnique(0x1_0000, Span(x), Pow2(16 - Log2p1(x)), 0);
  }

  lemma ReplacedFits(address: u16, span: nat, next: nat)
    requires next < span && Divides16(span)
    ensures 0 <= Replaced(address, span, next) < 0x1_0000
    ensures Replaced(address, span, next) % span == next
    ensures Replaced(address, span, next) / span == address / span
  {
    var k := 0x1_0000 / span;
    var q := address / span;
    assert address == q * span + address % span;
    ScaleLe(0, q, span);
    ScaleLe(q + 1, k, span);
    ScaleLe(k, q, span);
    assert (q + 1) * span == q * span + span;
    DivModUnique(q * span + next, span, q, next);
  }

  lemma LegacySpanDivides(s: u16, mod: u16)
    ensures Divides16(LegacySpan(s, mod))
  {
    OrIsShort(mod, if Negative(s) then 0xFFFF - s else s);
    SpanDivides16(Or(mod, if Negative(s) then 0xFFFF - s else s));
  }

  function LegacyStep(address: u16, s: u16, mod: u16, mode2: bool): u16 {
    LegacySpanDivides(s, mod);
    ReplacedFits(address, LegacySpan(s, mod), LegacyNext(address, s, mod, mode2));
    Replaced(address, LegacySpan(s, mod), LegacyNext(address, s, mod, mode2))
  }

  function TeakStep(address: u16, s: u16, mod: u16): u16 {
    SpanDivides16(mod);
    ReplacedFits(address, Span(mod), TeakNext(address, s, mod));
    Replaced(address, Span(mod), TeakNext(address, s, mod))
  }

  // Where an address stands in its buffer of mod + 1 words.
  function Offset(address: u16, mod: u16): nat {
    address % Span(mod)
  }

  predicate InBuffer(address: u16, mod: u16) {
    Offset(address, mod) <= mod
  }

  // Moving by d words around the buffer.
  function Around(address: u16, mod: u16, d: int): int {
    Replaced(address, Span(mod), (Offset(address, mod) + d) % (mod + 1))
  }

  lemma UnitSpan(mod: u16, s: u16)
    requires mod >= 1 && (s == 1 || s == 0xFFFF)
    ensures LegacySpan(s, mod) == Span(mod)
  {
    OrZero(mod);
    OrWidth(mod, 1);
    assert Log2p1(1) == 1 + Log2p1(0);
    assert Log2p1(mod) >= 1;
  }

  lemma AddMod(a: nat, s: nat, m: nat)
    requires m > 0
    ensures (a + s) % m == (a % m + s) % m
  {
    DivShift(a % m + s, m, a / m);
    assert a + s == (a % m + s) + (a / m) * m;
  }

  // Going down by one is adding 0xFFFF, one less than a multiple of the span.
  lemma MinusOneMod(a: nat, m: nat, k: nat)
    requires m > 0 && k * m == 0x1_0000
    ensures (a + 0xFFFF) % m == if a % m == 0 then m - 1 else a % m - 1
  {
    var q, o := a / m, a % m;
    assert a + 0xFFFF == q * m + o + k * m - 1;
    if o == 0 {
      assert a + 0xFFFF == (q + k - 1) * m + (m - 1) by { assert (q + k - 1) * m == q * m + k * m - m; }
      DivModUnique(a + 0xFFFF, m, q + k - 1, m - 1);
    } else {
      assert (q + k) * m == q * m + k * m;
      DivModUnique(a + 0xFFFF, m, q + k, o - 1);
    }
  }

  // Up by one: both methods wrap from the last word to the first, wherever
  // the address stands.
  lemma UpByOne(address: u16, mod: u16)
    requires mod >= 1
    ensures var off := Offset(address, mod);
            var next := if off == mod || off == Span(mod) - 1 then 0 else off + 1;
            LegacyStep(address, 1, mod, false) == TeakStep(address, 1, mod) == Replaced(address, Span(mod), next)
  {
    hide Span, Or, Log2p1, Replaced, LegacySpan;
    UnitSpan(mod, 1);
    SpanCovers(mod);
    var m, off := Span(mod), Offset(address, mod);
    AddMod(address, 1, m);
    RemainderBounds(address, m);
    RemainderOf(off + 1, m);
    RemainderOf(mod + 1, m);
  }

  lemma RemainderOf(x: nat, m: nat)
    requires m > 0 && x <= m
    ensures x % m == if x == m then 0 else x
  {
    if x == m {
      DivModUnique(x, m, 1, 0);
    } else {
      DivModUnique(x, m, 0, x);
    }
  }

  // Down by one: both methods wrap from the first word to the last.
  lemma DownByOne(address: u16, mod: u16)
    requires mod >= 1
    ensures var off := Offset(address, mod);
            LegacyStep(address, 0xFFFF, mod, false) == TeakStep(address, 0xFFFF, mod)
            == Replaced(address, Span(mod), if off == 0 then mod else off - 1)
  {
    hide Span;
    UnitSpan(mod, 0xFFFF);
    SpanCovers(mod);
    SpanDivides16(mod);
    var m, off := Span(mod), Offset(address, mod);
    var k := 0x1_0000 / m;
    MinusOneMod(address, m, k);
    MinusOneMod(if off == 0 then mod + 1 else off, m, k);
    RemainderOf(mod + 1, m);
    RemainderOf(off, m);
  }

  lemma WrapUp(off: nat, n: nat)
    requires off < n
    ensures (off + 1) % n == if off + 1 == n then 0 else off + 1
    ensures (off - 1) % n == if off == 0 then n - 1 else off - 1
  {
    RemainderOf(off + 1, n);
    if off == 0 {
      DivModUnique(-1, n, -1, n - 1);
    } else {
      DivModUnique(off - 1, n, 0, off - 1);
    }
  }

  // Inside the buffer one step is plus or minus one modulo mod + 1.
  lemma StepsAreModular(address: u16, mod: u16)
    requires mod >= 1 && InBuffer(address, mod)
    ensures TeakStep(address, 1, mod) == LegacyStep(address, 1, mod, false) == Around(address, mod, 1)
    ensures TeakStep(address, 0xFFFF, mod) == LegacyStep(address, 0xFFFF, mod, false) == Around(address, mod, -1)
  {
    hide TeakStep, LegacyStep, Span, Offset, Replaced;
    UpByOne(address, mod);
    DownByOne(address, mod);
    SpanCovers(mod);
    WrapUp(Offset(address, mod), mod + 1);
  }

  lemma AroundStays(address: u16, mod: u16, d: int)
    ensures 0 <= Around(address, mod, d) < 0x1_0000
    ensures InBuffer(Around(address, mod, d), mod)
    ensures Offset(Around(address, mod, d), mod) == (Offset(address, mod) + d) % (mod + 1)
    ensures Around(address, mod, d) / Span(mod) == address / Span(mod)
  {
    SpanCovers(mod);
    SpanDivides16(mod);
    ReplacedFits(address, Span(mod), (Offset(address, mod) + d) % (mod + 1));
  }

  lemma SumsOfOffsets(o: nat, c: int, d: int, n: nat)
    requires n > 0
    ensures ((o + c) % n + d) % n == (o + (c + d)) % n
  {
    DivShift((o + c) % n + d, n, (o + c) / n);
    assert o + (c + d) == ((o + c) % n + d) + ((o + c) / n) * n;
  }

  lemma AroundIs(address: u16, mod: u16, d: int)
    ensures Around(address, mod, d) == address / Span(mod) * Span(mod) + (Offset(address, mod) + d) % (mod + 1)
  {
    BaseOf(address, Span(mod));
  }

  lemma AroundAgain(address: u16, mod: u16, c: int, d: int)
    ensures 0 <= Around(address, mod, c) < 0x1_0000
    ensures Around(Around(address, mod, c), mod, d) == Around(address, mod, c + d)
  {
    hide *;
    AroundStays(address, mod, c);
    SumsOfOffsets(Offset(address, mod), c, d, mod + 1);
    AroundIs(address, mod, c + d);
    AroundIs(Around(address, mod, c), mod, d);
  }

  lemma BaseOf(a: u16, m: nat)
    requires m > 0
    ensures a - a % m == a / m * m
  {
  }

  lemma AroundNothing(address: u16, mod: u16)
    requires InBuffer(address, mod)
    ensures Around(address, mod, 0) == address
  {
    RemainderBounds(Offset(address, mod), mod + 1);
  }

  // Up and down undo each other inside the buffer.
  lemma StepsInvert(address: u16, mod: u16)
    requires mod >= 1 && InBuffer(address, mod)
    ensures TeakStep(TeakStep(address, 1, mod), 0xFFFF, mod) == address
    ensures TeakStep(TeakStep(address, 0xFFFF, mod), 1, mod) == address
  {
    hide TeakStep, LegacyStep, Around, Offset, InBuffer;
    StepsAreModular(address, mod);
    AroundStays(address, mod, 1);
    AroundStays(address, mod, -1);
    AroundAgain(address, mod, 1, -1);
    AroundAgain(address, mod, -1, 1);
    AroundNothing(address, mod);
    StepsAreModular(TeakStep(address, 1, mod), mod);
    StepsAreModular(TeakStep(address, 0xFFFF, mod), mod);
  }

  // The two-fold steps of the Teak method move by two modulo mod + 1.
  lemma DoubleStepsAreModular(address: u16, mod: u16)
    requires mod >= 1 && InBuffer(address, mod)
    ensures TeakStep(TeakStep(address, 1, mod), 1, mod) == Around(address, mod, 2)
    ensures TeakStep(TeakStep(address, 0xFFFF, mod), 0xFFFF, mod) == Around(address, mod, -2)
  {
    hide TeakStep, LegacyStep, Around, Offset, InBuffer;
    StepsAreModular(address, mod);
    AroundStays(address, mod, 1);
    AroundStays(address, mod, -1);
    AroundAgain(address, mod, 1, 1);
    AroundAgain(address, mod, -1, -1);
    StepsAreModular(TeakStep(address, 1, mod), mod);
    StepsAreModular(TeakStep(address, 0xFFFF, mod), mod);
  }

  // --- the address unit ---

  datatype StepValue =
    | Zero | Increase | Decrease | PlusStep
    | Increase2Mode1 | Decrease2Mode1 | Increase2Mode2 | Decrease2Mode2

  datatype OffsetValue = NoOffset | PlusOne | MinusOne | MinusOneDmod

  function SignExtend16(x: u16, bits: nat): u16
    requires 1 <= bits <= 15
  {
    Pow2Monotone(bits, 16);
    Pow2Values();
    RemainderBounds(x, Pow2(bits));
    var low := x % Pow2(bits);
    if low >= Pow2(bits - 1) then 0x1_0000 - Pow2(bits) + low else low
  }

  // The step registers and modes of one half of the unit.
  datatype StepConfig = StepConfig(
    cmd: bool, stp16: bool, m: bool, br: bool, mod: u16, step: u16, step0: u16)

  function StepSize(c: StepConfig, step: StepValue): u16 {
    match step
    case Zero => 0
    case Increase => 1
    case Decrease => 0xFFFF
    case Increase2Mode1 => 2
    case Increase2Mode2 => 2
    case Decrease2Mode1 => 0xFFFE
    case Decrease2Mode2 => 0xFFFE
    case PlusStep =>
      if c.stp16 && !c.cmd then (if c.m then SignExtend16(c.step0, 9) else c.step0)
      else if c.br && !c.m then c.step0
      else SignExtend16(c.step, 7)
  }

  function Signed(x: u16): int {
    if x < 0x8000 then x else x - 0x1_0000
  }

  // Sign extension picks the signed value with the same low bits.
  lemma SignExtend16Is(x: u16, bits: nat)
    requires 1 <= bits <= 15
    ensures var e := Signed(SignExtend16(x, bits));
            -(Pow2(bits - 1) as int) <= e < Pow2(bits - 1) && e - x % Pow2(bits) in {0, -(Pow2(bits) as int)}
  {
    Pow2Monotone(bits, 15);
    Pow2Values();
    Pow2Step(bits - 1);
    RemainderBounds(x, Pow2(bits));
  }

  lemma SmallPowers()
    ensures Pow2(6) == 64 && Pow2(7) == 128 && Pow2(8) == 256 && Pow2(9) == 512
  {
    Pow2Step(6);
    Pow2Step(8);
    Pow2Add(3, 3);
    assert Pow2(3) == 2 * Pow2(2) && Pow2(2) == 2 * Pow2(1) && Pow2(1) == 2 * Pow2(0);
    Pow2Values();
  }

  // The step as a signed number: one, two, or what the step register in use
  // says. That is `step0`, of nine bits in a modulo mode, when 16-bit steps are
  // on and the unit is not in compatibility mode; `step0` again for a
  // bit-reversed register; and otherwise the seven bits of `step`.
  lemma StepSizesAre(c: StepConfig, step: StepValue)
    ensures var s, wide := Signed(StepSize(c, step)), c.stp16 && !c.cmd;
            match step
            case Zero => s == 0
            case Increase => s == 1
            case Decrease => s == -1
            case Increase2Mode1 | Increase2Mode2 => s == 2
            case Decrease2Mode1 | Decrease2Mode2 => s == -2
            case PlusStep =>
              if wide && c.m then -256 <= s < 256 && (s - c.step0) % 512 == 0
              else if wide || (c.br && !c.m) then s % 0x1_0000 == c.step0
              else -64 <= s < 64 && (s - c.step) % 128 == 0
  {
    hide SignExtend16, Pow2;
    SmallPowers();
    SignExtend16Is(c.step0, 9);
    SignExtend16Is(c.step, 7);
  }

  predicate Modular(c: StepConfig, dmod: bool) {
    !dmod && !c.br && c.m
  }

  // The buffer part of a step: once, or twice half of it.
  function BufferStep(c: StepConfig, address: u16, step: StepValue): u16 {
    var s := StepSize(c, step);
    var mode1 := !c.cmd && (step == Increase2Mode1 || step == Decrease2Mode1);
    var mode2 := !c.cmd && (step == Increase2Mode2 || step == Decrease2Mode2);
    if s == 0 || c.mod == 0 || (c.mod == 1 && mode2) then address
    else if mode1 then TeakStep(TeakStep(address, SignExtend16(s / 2, 15), c.mod), SignExtend16(s / 2, 15), c.mod)
    else if c.cmd || mode2 then LegacyStep(address, s, c.mod, mode2)
    else TeakStep(address, s, c.mod)
  }

  function Stepped(c: StepConfig, address: u16, step: StepValue, dmod: bool): u16 {
    if Modular(c, dmod) then BufferStep(c, address, step)
    else (address + StepSize(c, step)) % 0x1_0000
  }

  // Outside the buffer mode a step is plain 16-bit addition.
  lemma PlainSteps(c: StepConfig, address: u16, step: StepValue, dmod: bool)
    requires dmod || c.br || !c.m
    ensures var r := Stepped(c, address, step, dmod);
            r == (address + Signed(StepSize(c, step))) % 0x1_0000
  {
    hide StepSize, Pow2, SignExtend16;
    var s := StepSize(c, step);
    if s >= 0x8000 {
      DivShift(address + Signed(s), 0x1_0000, 1);
    }
  }

  // One legacy step of t, up or down, in the span of the modulus and the step:
  // from one end of the buffer it goes to the other, unless a mode-2 double
  // step has the whole span to itself, and otherwise it is addition in the span.
  lemma LegacyStepIs(address: u16, s: u16, mod: u16, mode2: bool)
    ensures var t, r := Signed(s), LegacyStep(address, s, mod, mode2);
            var span := Span(Or(mod, if t >= 0 then t else -t - 1));
            var low := address % span;
            && r / span == address / span
            && r % span ==
               if mode2 && mod + 1 == span then (low + t) % span
               else if t >= 0 && low == mod then 0
               else if t < 0 && low == 0 then mod
               else (low + t) % span
  {
    hide Span, Or, Log2p1;
    var span := LegacySpan(s, mod);
    LegacySpanDivides(s, mod);
    ReplacedFits(address, span, LegacyNext(address, s, mod, mode2));
    StepInSpan(address, s, span);
  }

  // One step of t by the newer method, in the span of the modulus: the word
  // after the buffer is its first one, and below the first is the last.
  lemma TeakStepIs(address: u16, s: u16, mod: u16)
    ensures var t, r, span := Signed(s), TeakStep(address, s, mod), Span(mod);
            var low := address % span;
            && r / span == address / span
            && r % span ==
               if t >= 0 then (if (low + t) % span == (mod + 1) % span then 0 else (low + t) % span)
               else ((if low == 0 then mod + 1 else low) + t) % span
  {
    hide Span, Log2p1, Pow2;
    var span := Span(mod);
    SpanDivides16(mod);
    ReplacedFits(address, span, TeakNext(address, s, mod));
    StepInSpan(address, s, span);
    if s >= 0x8000 {
      var off: nat := if address % span == 0 then mod + 1 else address % span;
      DivShift(off + Signed(s), span, 0x1_0000 / span);
    }
  }

  // Which method a modulo step takes: none for a zero step, an empty buffer, or
  // a mode-2 double step in a buffer of two; the newer one twice, by one, for a
  // mode-1 double step; the older one in compatibility mode and for a mode-2
  // double step; and the newer one otherwise.
  lemma BufferStepIs(c: StepConfig, address: u16, step: StepValue)
    ensures var r, s, mod := Stepped(c, address, step, false), StepSize(c, step), c.mod;
            !c.br && c.m ==>
              if s == 0 || mod == 0 then r == address
              else if step in {Increase2Mode1, Decrease2Mode1} && !c.cmd then
                var one := if step == Increase2Mode1 then 1 else 0xFFFF;
                r == TeakStep(TeakStep(address, one, mod), one, mod)
              else if step in {Increase2Mode2, Decrease2Mode2} && !c.cmd then
                r == if mod == 1 then address else LegacyStep(address, s, mod, true)
              else r == if c.cmd then LegacyStep(address, s, mod, false) else TeakStep(address, s, mod)
  {
    hide TeakStep, LegacyStep, SignExtend16;
    HalvedSteps();
  }

  lemma HalvedSteps()
    ensures SignExtend16(2 / 2, 15) == 1 && SignExtend16(0xFFFE / 2, 15) == 0xFFFF
  {
    hide Pow2;
    Pow2Step(14);
    Pow2Step(15);
    Pow2Values();
  }

  lemma StepInSpan(address: u16, s: u16, span: nat)
    requires Divides16(span)
    ensures (address + s) % span == (address % span + Signed(s)) % span
  {
    AddMod(address, s, span);
    if s >= 0x8000 {
      DivShift(address % span + Signed(s), span, 0x1_0000 / span);
    }
  }

  // The mask of the offset computation: zero still has a one-bit mask.
  function OffsetSpan(mod: u16): (m: nat)
    ensures m > 0
  {
    if mod == 0 then 2 else Span(mod)
  }

  function OffsetUp(c: StepConfig, address: u16, dmod: bool): u16 {
    RemainderBounds(address, OffsetSpan(c.mod));
    if Modular(c, dmod) && address % OffsetSpan(c.mod) == c.mod then address - address % OffsetSpan(c.mod)
    else (address + 1) % 0x1_0000
  }

  class AddressUnit {
    var cfg: StepConfig

    constructor (cfg: StepConfig)
      ensures this.cfg == cfg
    {
      this.cfg := cfg;
    }

    method StepAddress(address: u16, step: StepValue, dmod: bool) returns (r: u16)
      ensures r == Stepped(cfg, address, step, dmod)
    {
      hide Span, Log2p1, Pow2, Or, SignExtend16;
      var s := StepSize(cfg, step);
      var legacy := cfg.cmd;
      var mode1 := !legacy && (step == Increase2Mode1 || step == Decrease2Mode1);
      var mode2 := !legacy && (step == Increase2Mode2 || step == Decrease2Mode2);
      if s == 0 {
        return address;
      }
      if !dmod && !cfg.br && cfg.m {
        var mod := cfg.mod;
        if mod == 0 {
          return address;
        }
        if mod == 1 && mode2 {
          return address;
        }
        var iteration := 1;
        if mode1 {
          iteration := 2;
          s := SignExtend16(s / 2, 15);
        }
        r := address;
        for i := 0 to iteration
          invariant iteration == (if mode1 then 2 else 1)
          invariant i == 0 ==> r == address
          invariant i == 1 ==>
            r == if legacy || mode2 then LegacyStep(address, s, mod, mode2) else TeakStep(address, s, mod)
          invariant i == 2 ==> r == TeakStep(TeakStep(address, s, mod), s, mod)
        {
          if legacy || mode2 {
            r := LegacyIteration(r, s, mod, mode2);
          } else {
            r := TeakIteration(r, s, mod);
          }
        }
      } else {
        r := (address + s) % 0x1_0000;
      }
    }

    static method LegacyIteration(address: u16, s: u16, mod: u16, mode2: bool) returns (r: u16)
      ensures r == LegacyStep(address, s, mod, mode2)
    {
      var negative := false;
      var m: nat := mod;
      if s / 0x8000 == 1 {
        negative := true;
        m := Or(m, 0xFFFF - s);
      } else {
        m := Or(m, s);
      }
      var span := Pow2(Log2p1(m));
      assert span == LegacySpan(s, mod);
      LegacySpanDivides(s, mod);
      LegacyCoversMod(s, mod);
      ReplacedFits(address, span, LegacyNext(address, s, mod, mode2));
      var next: nat;
      if !negative {
        if address % span == mod && (!mode2 || mod != span - 1) {
          next := 0;
        } else {
          next := (address + s) % span;
        }
      } else {
        if address % span == 0 && (!mode2 || mod != span - 1) {
          next := mod;
        } else {
          next := (address + s) % span;
        }
      }
      r := address - address % span + next;
    }

    static method TeakIteration(address: u16, s: u16, mod: u16) returns (r: u16)
      ensures r == TeakStep(address, s, mod)
    {
      var span := Pow2(Log2p1(mod));
      SpanDivides16(mod);
      ReplacedFits(address, span, TeakNext(address, s, mod));
      assert span == Span(mod);
      var next: nat;
      if s < 0x8000 {
        next := (address + s) % span;
        if next == (mod + 1) % span {
          next := 0;
        }
      } else {
        next := address % span;
        if next == 0 {
          next := mod + 1;
        }
        next := next + s;
        next := next % span;
      }
      r := address - address % span + next;
    }

    // The offset address next to a register; +1 follows the buffer.
    method OffsetAddress(address: u16, offset: OffsetValue, dmod: bool) returns (r: u16)
      requires cfg.mod < 0x200
      requires offset == MinusOne ==> !Modular(cfg, dmod)
      ensures match offset
              case NoOffset => r == address
              case MinusOne => r == (address + 0xFFFF) % 0x1_0000
              case MinusOneDmod => r == (address + 0xFFFF) % 0x1_0000
              case PlusOne => r == OffsetUp(cfg, address, dmod)
    {
      hide OffsetSpan;
      if offset == NoOffset {
        return address;
      }
      if offset == MinusOneDmod {
        return (address + 0xFFFF) % 0x1_0000;
      }
      var emod := cfg.m && !cfg.br && !dmod;
      var mod := cfg.mod;
      var mask := SmearMask(mod);
      RemainderBounds(address, OffsetSpan(mod));
      if offset == MinusOne {
        return (address + 0xFFFF) % 0x1_0000;
      }
      if !emod {
        return (address + 1) % 0x1_0000;
      }
      if address % (mask + 1) == mod {
        return address - address % (mask + 1);
      }
      return (address + 1) % 0x1_0000;
    }

    static method SmearMask(mod: u16) returns (mask: nat)
      requires mod < 0x200
      ensures mask + 1 == OffsetSpan(mod)
    {
      mask := 1;
      var shifted: nat := mod;
      for i := 0 to 9
        invariant shifted < Pow2(9 - i)
        invariant Or(mask, Smeared(shifted)) == Or(1, Smeared(mod))
      {
        OrAssoc(mask, shifted, Smeared(shifted / 2));
        SmearedUnfold(shifted);
        OrZero(mask);
        mask := Or(mask, shifted);
        shifted := shifted / 2;
      }
      OrZero(mask);
      SmearedIsMask(mod);
      OneInMask(mod);
    }
  }

  lemma SmearedUnfold(x: nat)
    ensures Smeared(x) == Or(x, Smeared(x / 2))
  {
    OrZero(0);
  }

  lemma OneInMask(x: nat)
    ensures Or(1, Span(x) - 1) == if x == 0 then 1 else Span(x) - 1
  {
    OrZero(1);
    if x > 0 {
      var f := Span(x) - 1;
      OrHalves(1, f);
      OrZero(f / 2);
    }
  }

  lemma Halves()
    ensures SignExtend16(2 / 2, 15) == 1 && SignExtend16(0xFFFE / 2, 15) == 0xFFFF
  {
    assert Pow2(15) == 2 * Pow2(14) && Pow2(16) == 2 * Pow2(15);
    Pow2Values();
  }

  // What a program sees of StepAddress in a modular buffer: single steps move
  // by one in either compatibility mode, mode-1 double steps by two.
  lemma BufferStepsAreModular(c: StepConfig, address: u16)
    requires Modular(c, false) && c.mod >= 1 && InBuffer(address, c.mod)
    ensures Stepped(c, address, Increase, false) == Around(address, c.mod, 1)
    ensures Stepped(c, address, Decrease, false) == Around(address, c.mod, -1)
    ensures !c.cmd ==> Stepped(c, address, Increase2Mode1, false) == Around(address, c.mod, 2)
    ensures !c.cmd ==> Stepped(c, address, Decrease2Mode1, false) == Around(address, c.mod, -2)
  {
    hide TeakStep, LegacyStep, Around, InBuffer, SignExtend16;
    StepsAreModular(address, c.mod);
    DoubleStepsAreModular(address, c.mod);
    Halves();
  }

  // Whatever the step, the address bits above the mask stay.
  lemma HighBitsStay(c: StepConfig, address: u16, step: StepValue)
    requires Modular(c, false) && c.mod > 0
    ensures var s := StepSize(c, step);
            var mode2 := !c.cmd && (step == Increase2Mode2 || step == Decrease2Mode2);
            var span := if c.cmd || mode2 then LegacySpan(s, c.mod) else Span(c.mod);
            Stepped(c, address, step, false) / span == address / span
  {
    hide StepSize, Span, LegacySpan, LegacyNext, TeakNext, Replaced, SignExtend16;
    var s := StepSize(c, step);
    forall t: u16, a: u16 ensures TeakStep(a, t, c.mod) / Span(c.mod) == a / Span(c.mod) {
      SpanDivides16(c.mod);
      ReplacedFits(a, Span(c.mod), TeakNext(a, t, c.mod));
    }
    forall mode2 ensures LegacyStep(address, s, c.mod, mode2) / LegacySpan(s, c.mod) == address / LegacySpan(s, c.mod) {
      LegacySpanDivides(s, c.mod);
      ReplacedFits(address, LegacySpan(s, c.mod), LegacyNext(address, s, c.mod, mode2));
    }
  }

  // The offset +1 and the step +1 agree in a modular buffer exactly when the
  // address is not at the unused top of the mask; without a modulus, exactly
  // on even addresses.
  lemma OffsetAgreesWithStep(c: StepConfig, address: u16)
    requires Modular(c, false) && c.mod < 0x200
    ensures OffsetUp(c, address, false) == Stepped(c, address, Increase, false) <==>
            if c.mod == 0 then address % 2 == 0
            else Offset(address, c.mod) == c.mod || Offset(address, c.mod) != Span(c.mod) - 1
  {
    hide TeakStep, LegacyStep, Span, Divides16;
    if c.mod == 0 {
      assert Stepped(c, address, Increase, false) == address;
    } else {
      UpByOne(address, c.mod);
      SpanCovers(c.mod);
      SpanDivides16(c.mod);
      var m, off := Span(c.mod), Offset(address, c.mod);
      assert Stepped(c, address, Increase, false) ==
          Replaced(address, m, if off == c.mod || off == m - 1 then 0 else off + 1);
      ReplacedFits(address, m, off);
      OffsetCases(address, off, m, c.mod);
    }
  }

  lemma OffsetCases(address: u16, off: nat, m: nat, mod: u16)
    requires Divides16(m) && off == address % m && mod < m <= 2 * mod <= 0x400
    ensures (if off == mod then address - off else (address + 1) % 0x1_0000)
            == Replaced(address, m, if off == mod || off == m - 1 then 0 else off + 1)
            <==> off == mod || off != m - 1
  {
    if off + 1 < m {
      ReplacedFits(address, m, off + 1);
    }
  }
}
