// The multiplication unit and multiply-accumulate.
module Multipliers {
  import opened Words
  import opened Arith
  import opened Bits
  import opened Registers
  import opened Accumulators
  import opened Alus

  const M32 := 0x1_0000_0000

  // The 33-bit value of a product register and its extension bit.
  function Product(p: u32, pe: bool): int {
    if pe then p - M32 else p
  }

  // The product as it reaches the 40-bit bus: times 1, 1/2 rounded down, 2, 4.
  function Scaled(product: int, ps: nat): int {
    match ps
    case 0 => product
    case 1 => product / 2
    case 2 => product * 2
    case _ => product * 4
  }

  function Factor(x: u16, signed: bool): int {
    if signed then Signed16(x) else x
  }

  // Half-word mode takes the high or the low byte of y.
  function HalfWord(y: u16, hwm: u16, unit: nat): u16 {
    if hwm == 1 || (hwm == 3 && unit == 0) then y / 0x100
    else if hwm == 2 || (hwm == 3 && unit == 1) then y % 0x100
    else y
  }

  datatype MulOp = Mpy | Mpysu | Mac | Macus | Maa | Macuu | Macsu | Maasu

  predicate XSigned(op: MulOp) {
    op in {Mpy, Mac, Maa, Macus}
  }

  predicate YSigned(op: MulOp) {
    op in {Mpy, Mac, Maa, Mpysu, Macsu, Maasu}
  }

  // What an accumulating operation adds: the old product, or its high part.
  function Addend(op: MulOp, product: int, ps: nat): int {
    if op == Maa || op == Maasu then Scaled(product, ps) / 0x1_0000 else Scaled(product, ps)
  }

  predicate Fit33(x: int) {
    -M32 <= x < M32
  }

  lemma ScaledFits(product: int, ps: nat)
    requires Fit33(product)
    ensures -4 * M32 <= Scaled(product, ps) < 4 * M32 && Fit40(Scaled(product, ps)) &&
            Fit40(Scaled(product, ps) / 0x1_0000)
  {
  }

  // With saturation disabled what is stored is the wrapped sum.
  lemma SumIsMacStep(op: MulOp, acc: int, product: int, factors: int, ps: nat)
    ensures var sum := Wrap40(acc + Addend(op, product, ps));
            && Val40(Encode(Saturated(sum, true))) == sum
            && MacStep(MacState(acc, product), MulStep(op, factors), ps) == MacState(sum, factors)
  {
    hide Val40, Encode, Addend, Wrap40;
    EncodeVal(Wrap40(acc + Addend(op, product, ps)));
  }

  // The register shifts: nothing, half of it rounded down, twice, four times.
  lemma ScaledIs(product: int, ps: nat)
    ensures ps == 0 ==> Scaled(product, ps) == product
    ensures ps == 1 ==> Scaled(product, ps) + Scaled(product, ps) == product - product % 2
    ensures ps == 2 ==> Scaled(product, ps) - product == product
    ensures ps == 3 ==> Scaled(product, ps) - product == product + product + product
  {
  }

  // Half-word modes: 1 and 2 are the two bytes of y, 3 the high byte in the
  // first unit and the low byte in the second, 0 the whole word.
  lemma HalfWordsAreBytes(y: u16, unit: nat)
    requires unit < 2
    ensures y == HalfWord(y, 1, unit) * 0x100 + HalfWord(y, 2, unit) && HalfWord(y, 1, unit) < 0x100
    ensures HalfWord(y, 2, unit) < 0x100
    ensures HalfWord(y, 3, unit) == HalfWord(y, if unit == 0 then 1 else 2, unit) && HalfWord(y, 0, unit) == y
  {
  }

  // An accumulation's flags: carry out of the 40-bit registers, overflow of the
  // exact sum, and those of storing the wrapped one.
  lemma AccumulatedFlagsExactly(f: Flags, acc: int, addend: int, sata: bool)
    requires Fit40(acc) && Fit40(addend)
    ensures var g := AccumulatedFlags(f, acc, addend, sata);
            var w := Wrap40(acc + addend);
            && (g.fc0 <==> acc % 0x100_0000_0000 + addend % 0x100_0000_0000 >= 0x100_0000_0000)
            && (g.fv <==> w != acc + addend) && (g.fvl <==> f.fvl || w != acc + addend)
            && (g.flm <==> f.flm || (!sata && !Fit32(w)))
            && (g.fz <==> w == 0) && (g.fm <==> w < 0) && (g.fe <==> !Fit32(w))
            && (g.fn <==> w == 0 || (Fit32(w) && !(-0x4000_0000 <= w < 0x4000_0000)))
            && g.fr == f.fr && g.fc1 == f.fc1
  {
    hide SatFlags;
    var fits := Fit40(acc + addend);
    if fits {
      WrapOfFit(acc + addend);
    }
    var g := f.(fc0 := acc % M40 + addend % M40 >= M40, fv := !fits, fvl := f.fvl || !fits);
    SatFlagsExactly(g, Wrap40(acc + addend), sata);
  }

  // The flags of an accumulation, in terms of the two values: carry out of bit
  // 40, overflow and its sticky copy, then those of storing the wrapped sum.
  function AccumulatedFlags(f: Flags, acc: int, addend: int, sata: bool): Flags {
    var fits := Fit40(acc + addend);
    SatFlags(f.(fc0 := acc % M40 + addend % M40 >= M40, fv := !fits, fvl := f.fvl || !fits), Wrap40(acc + addend), sata)
  }

  lemma CutRegister(x: int)
    requires Fit40(x)
    ensures Encode(x) % M40 == x % M40 && Val40(Encode(x)) == x
  {
    EncodeVal(x);
  }

  lemma CutAcc(v: u64)
    ensures v % M40 == Val40(v) % M40
  {
  }

  lemma SumFlagsOfValues(f: Flags, value: u64, addend: int)
    requires Fit40(addend)
    ensures var fits := Fit40(Val40(value) + addend);
            SumFlags(f, value % M40, Encode(addend) % M40, false) ==
            f.(fc0 := Val40(value) % M40 + addend % M40 >= M40, fv := !fits, fvl := f.fvl || !fits)
  {
    hide Encode, Val40;
    CutRegister(addend);
    CutAcc(value);
    SumOfRegisters(value, Encode(addend));
    CutMod(value);
    CutMod(Encode(addend));
  }

  lemma CutMod(v: nat)
    ensures v % M40 % M40 == v % M40
  {
  }

  class MultiplicationUnit {
    const alu: ComputationUnit
    var x: Pair16
    var y: Pair16
    var hwm: u16
    var p0: u32
    var p1: u32
    var pe0: bool
    var pe1: bool
    var ps: Pair16

    constructor (alu: ComputationUnit)
      ensures this.alu == alu
    {
      this.alu := alu;
      x, y, hwm, p0, p1, pe0, pe1, ps := [0, 0], [0, 0], 0, 0, 0, false, false, [0, 0];
    }

    ghost function ProductOf(unit: nat): int
      reads this
    {
      if unit == 0 then Product(p0, pe0) else Product(p1, pe1)
    }

    // The product register and its extension bit hold the exact product of
    // the two factors, in all four signedness combinations.
    method DoMultiplication(unit: nat, xSign: bool, ySign: bool)
      requires unit < 2
      modifies this`p0, this`p1, this`pe0, this`pe1
      ensures ProductOf(unit) == Factor(x[unit], xSign) * Factor(HalfWord(y[unit], hwm, unit), ySign)
      ensures if unit == 0 then p1 == old(p1) && pe1 == old(pe1) else p0 == old(p0) && pe0 == old(pe0)
    {
      var a: u32 := x[unit];
      var b: u32 := y[unit];
      if hwm == 1 || (hwm == 3 && unit == 0) {
        b := b / 0x100;
      } else if hwm == 2 || (hwm == 3 && unit == 1) {
        b := b % 0x100;
      }
      MultiplicationIsExact(a, b, xSign, ySign);
      if xSign && a >= 0x8000 {
        a := a + 0xFFFF_0000;
      }
      if ySign && b >= 0x8000 {
        b := b + 0xFFFF_0000;
      }
      var product: u32 := a * b % M32;
      var extension := (xSign || ySign) && product / 0x8000_0000 == 1;
      if unit == 0 {
        p0, pe0 := product, extension;
      } else {
        p1, pe1 := product, extension;
      }
    }

    method ProductToBus40(unit: nat) returns (r: u64)
      requires unit < 2 && ps[unit] <= 3
      ensures Fit33(ProductOf(unit)) && Fit40(Scaled(ProductOf(unit), ps[unit]))
      ensures r == Encode(Scaled(ProductOf(unit), ps[unit]))
    {
      hide SignExtend, Encode, Scaled, Product, Fit33, Fit40;
      var p, pe := if unit == 0 then p0 else p1, if unit == 0 then pe0 else pe1;
      var value: u64 := p + if pe then M32 else 0;
      BusValue(p, pe, ps[unit]);
      match ps[unit]
      case 0 => r := SignExtend(value, 33);
      case 1 => r := SignExtend(value / 2, 32);
      case 2 => r := SignExtend(value * 2, 34);
      case 3 => r := SignExtend(value * 4, 35);
    }

    // The addition before the multiplication: the pending product, or its
    // high part, goes into the accumulator.
    method Accumulate(op: MulOp, a: AccName)
      requires alu.Valid() && ps[0] <= 3
      modifies alu`acc, alu`flags
      ensures alu.Valid()
      ensures alu.acc ==
        var sum := Wrap40(old(alu.Value(a)) + Addend(op, ProductOf(0), ps[0]));
        old(alu.acc)[Index(a) := Encode(Saturated(sum, alu.sata))]
      ensures alu.flags == AccumulatedFlags(old(alu.flags), old(alu.Value(a)), Addend(op, ProductOf(0), ps[0]),
              alu.sata)
    {
      hide SignExtend, Scaled, Encode, Wrap40, SumFlags, SatFlags, Fit40, Saturated, IsAcc;
      var value := alu.GetAcc(a);
      var product := ProductToBus40(0);
      ghost var scaled := Scaled(ProductOf(0), ps[0]);
      ScaledFits(ProductOf(0), ps[0]);
      EncodeVal(scaled);
      EncodeVal(scaled / 0x1_0000);
      if op == Maa || op == Maasu {
        HighPart(scaled);
        product := SignExtend(product / 0x1_0000, 24);
      }
      SumOfRegisters(value, product);
      SumFlagsOfValues(alu.flags, value, Addend(op, ProductOf(0), ps[0]));
      var result := alu.AddSub(value, product, false);
      EncodeVal(Wrap40(alu.Value(a) + Addend(op, ProductOf(0), ps[0])));
      alu.SatAndSetAccAndFlag(a, result);
    }

    // Accumulate the previous product if the operation says so, then multiply.
    method MulGeneric(op: MulOp, a: AccName)
      requires alu.Valid() && ps[0] <= 3
      modifies this`p0, this`p1, this`pe0, this`pe1, alu`acc, alu`flags
      ensures alu.Valid()
      ensures var h := HalfWord(y[0], hwm, 0);
              match op
              case Mpy | Mac | Maa => ProductOf(0) == Signed16(x[0]) * Signed16(h)
              case Mpysu | Macsu | Maasu => ProductOf(0) == x[0] * Signed16(h)
              case Macus => ProductOf(0) == Signed16(x[0]) * h
              case Macuu => ProductOf(0) == x[0] * h
      ensures p1 == old(p1) && pe1 == old(pe1)
      ensures alu.acc == if op == Mpy || op == Mpysu then old(alu.acc) else
                var sum := Wrap40(old(alu.Value(a)) + Addend(op, old(ProductOf(0)), ps[0]));
                old(alu.acc)[Index(a) := Encode(Saturated(sum, alu.sata))]
      ensures alu.flags == if op == Mpy || op == Mpysu then old(alu.flags) else
                AccumulatedFlags(old(alu.flags), old(alu.Value(a)), Addend(op, old(ProductOf(0)), ps[0]), alu.sata)
      ensures op != Mpy && op != Mpysu && alu.sata ==>
                MacState(alu.Value(a), ProductOf(0)) ==
                MacStep(MacState(old(alu.Value(a)), old(ProductOf(0))), MulStep(op, ProductOf(0)), ps[0])
    {
      hide Encode, Saturated, Wrap40, HalfWord, Addend, Scaled, MacStep, Val40, Product, IsAcc,
          AccumulatedFlags;
      SumIsMacStep(op, alu.Value(a), ProductOf(0),
                   Factor(x[0], XSigned(op)) * Factor(HalfWord(y[0], hwm, 0), YSigned(op)), ps[0]);
      if op != Mpy && op != Mpysu {
        Accumulate(op, a);
      }
      match op
      case Mpy | Mac | Maa => DoMultiplication(0, true, true);
      case Mpysu | Macsu | Maasu => DoMultiplication(0, false, true);
      case Macus => DoMultiplication(0, true, false);
      case Macuu => DoMultiplication(0, false, false);
    }
  }

  lemma MultiplicationIsExact(x: u16, y: u16, xSign: bool, ySign: bool)
    ensures var a := if xSign && x >= 0x8000 then x + 0xFFFF_0000 else x;
            var b := if ySign && y >= 0x8000 then y + 0xFFFF_0000 else y;
            var product := a * b % M32;
            Product(product, (xSign || ySign) && product / 0x8000_0000 == 1) == Factor(x, xSign) * Factor(y, ySign)
  {
    var a := if xSign && x >= 0x8000 then x + 0xFFFF_0000 else x;
    var b := if ySign && y >= 0x8000 then y + 0xFFFF_0000 else y;
    var s, t := Factor(x, xSign), Factor(y, ySign);
    ProductTurns(a, b, s, t, if a == s then 0 else 1, if b == t then 0 else 1);
    ProductRange(s, t, xSign, ySign);
    CutProduct(a * b, s * t, xSign || ySign);
  }

  lemma ProductTurns(a: int, b: int, s: int, t: int, j: int, k: int)
    requires a == s + j * M32 && b == t + k * M32
    ensures (a * b) % M32 == (s * t) % M32
  {
    assert a * b == s * t + (s * k + j * t + j * k * M32) * M32;
    DivShift(s * t, M32, s * k + j * t + j * k * M32);
  }

  lemma ProductRange(s: int, t: int, xSign: bool, ySign: bool)
    requires if xSign then -0x8000 <= s < 0x8000 else 0 <= s < 0x1_0000
    requires if ySign then -0x8000 <= t < 0x8000 else 0 <= t < 0x1_0000
    ensures if xSign || ySign then -0x8000_0000 <= s * t < 0x8000_0000 else 0 <= s * t < M32
  {
    if t >= 0 {
      ScaleBounds(s, t);
    } else {
      ScaleBounds(s, -t);
      assert s * (-t) == -(s * t);
    }
  }

  // |s * t| in terms of bounds on s, for t not negative.
  lemma ScaleBounds(s: int, t: nat)
    ensures s >= 0 ==> s * t >= 0
    ensures s < 0x8000 ==> s * t <= 0x7FFF * t
    ensures s < 0x1_0000 ==> s * t <= 0xFFFF * t
    ensures s >= -0x8000 ==> s * t >= -0x8000 * t
  {
    if t > 0 {
      ScaleLe(0, s, t);
      ScaleLe(s, 0x7FFF, t);
      ScaleLe(s, 0xFFFF, t);
      ScaleLe(-0x8000, s, t);
    }
  }

  lemma CutProduct(w: nat, v: int, signed: bool)
    requires w % M32 == v % M32
    requires if signed then -0x8000_0000 <= v < 0x8000_0000 else 0 <= v < M32
    ensures Product(w % M32, signed && w % M32 / 0x8000_0000 == 1) == v
  {
    if v < 0 {
      DivModUnique(v, M32, -1, v + M32);
    } else {
      DivModUnique(v, M32, 0, v);
    }
  }

  lemma BusValue(p: u32, pe: bool, ps: nat)
    requires ps <= 3
    ensures Fit33(Product(p, pe)) && Fit40(Scaled(Product(p, pe), ps))
    ensures var value := p + if pe then M32 else 0;
            Encode(Scaled(Product(p, pe), ps)) ==
            if ps == 0 then SignExtend(value, 33) else if ps == 1 then SignExtend(value / 2, 32)
            else if ps == 2 then SignExtend(value * 2, 34) else SignExtend(value * 4, 35)
  {
    hide SignExtend, Encode, Fit, Pow2;
    ScaledFits(Product(p, pe), ps);
    var value: u64 := p + if pe then M32 else 0;
    var x := Product(p, pe);
    WideFit(x);
    match ps
    case 0 => ExtendFit(value, 33, x);
    case 1 =>
      assert value / 2 == if x < 0 then x / 2 + M32 else x / 2;
      ExtendFit(value / 2, 32, x / 2);
    case 2 => ExtendFit(value * 2, 34, x * 2);
    case 3 => ExtendFit(value * 4, 35, x * 4);
  }

  lemma WideFit(x: int)
    requires Fit33(x)
    ensures Pow2(32) == M32 && Pow2(33) == 2 * M32 && Pow2(34) == 4 * M32 && Pow2(35) == 8 * M32
    ensures Fit(x, 33) && Fit(x / 2, 32) && Fit(x * 2, 34) && Fit(x * 4, 35)
  {
    Pow2Values();
    assert Pow2(32) == 2 * Pow2(31) && Pow2(33) == 2 * Pow2(32) && Pow2(34) == 2 * Pow2(33) && Pow2(35) == 2 * Pow2(34);
  }

  lemma SignExtend24(v: u64)
    requires Pow2(24) == 0x100_0000 && Pow2(23) == 0x80_0000
    ensures var low := v % 0x100_0000; SignExtend(v, 24) == if low >= 0x80_0000 then M64 - 0x100_0000 + low else low
  {
    hide Pow2;
    Pow2Values();
  }

  lemma HighPart(scaled: int)
    requires -4 * M32 <= scaled < 4 * M32
    ensures Encode(scaled) / 0x1_0000 < M64 && SignExtend(Encode(scaled) / 0x1_0000, 24) == Encode(scaled / 0x1_0000)
  {
    hide Pow2;
    Pow2Values();
    Pow2Add(16, 8);
    Pow2Step(23);
    SignExtend24(Encode(scaled) / 0x1_0000);
  }

  lemma SumOfRegisters(a: u64, b: u64)
    ensures SumExact(a % M40, b % M40, false) == Val40(a) + Val40(b)
  {
  }

  // --- runs of multiply-accumulate steps ---

  // The accumulator and the pending product, as values, with saturation disabled.
  datatype MacState = MacState(acc: int, product: int)

  // An accumulating operation and the product of its factors.
  datatype MulStep = MulStep(op: MulOp, factors: int)

  // What MulGeneric does to the two values.
  function MacStep(s: MacState, step: MulStep, ps: nat): MacState {
    MacState(Wrap40(s.acc + Addend(step.op, s.product, ps)), step.factors)
  }

  function MacRun(s: MacState, steps: seq<MulStep>, ps: nat): MacState {
    if steps == [] then s
    else MacStep(MacRun(s, steps[..|steps| - 1], ps), steps[|steps| - 1], ps)
  }

  // The product that is pending when step k begins.
  function Pending(s: MacState, steps: seq<MulStep>, k: nat): int
    requires k <= |steps|
  {
    if k == 0 then s.product else steps[k - 1].factors
  }

  // What a pending product is worth to the operation that adds it: all of it,
  // scaled, or for maa and maasu the number of whole 2^16 in it.
  predicate Worth(op: MulOp, product: int, ps: nat, part: int) {
    if op == Maa || op == Maasu then part * 0x1_0000 <= Scaled(product, ps) < (part + 1) * 0x1_0000
    else part == Scaled(product, ps)
  }

  function Sum(parts: seq<int>): int {
    if parts == [] then 0 else Sum(parts[..|parts| - 1]) + parts[|parts| - 1]
  }

  lemma WrapAdds(a: int, b: int)
    ensures Wrap40(Wrap40(a) + b) == Wrap40(a + b)
  {
    var k := if a % M40 >= H40 then a / M40 + 1 else a / M40;
    assert Wrap40(a) + k * M40 == a;
    WrapPeriodic(Wrap40(a) + b, k);
  }

  lemma AddsItsWorth(op: MulOp, product: int, ps: nat, part: int)
    requires Worth(op, product, ps, part)
    ensures Addend(op, product, ps) == part
  {
    hide Scaled;
  }

  // Over any run of accumulating operations, in any mixture, the accumulator is
  // where it started plus what every pending product is worth, modulo 2^40:
  // nothing is dropped or added twice, and the last product is pending.
  lemma {:induction false} MacRunSums(s: MacState, steps: seq<MulStep>, ps: nat, parts: seq<int>)
    requires Fit40(s.acc) && |parts| == |steps|
    requires forall k :: 0 <= k < |steps| ==> Worth(steps[k].op, Pending(s, steps, k), ps, parts[k])
    ensures MacRun(s, steps, ps) == MacState(Wrap40(s.acc + Sum(parts)), Pending(s, steps, |steps|))
  {
    hide Wrap40, Worth, Addend, Fit40;
    if steps == [] {
      WrapOfFit(s.acc);
    } else {
      var n := |steps| - 1;
      forall k | 0 <= k < n ensures Worth(steps[..n][k].op, Pending(s, steps[..n], k), ps, parts[..n][k]) {
        assert Pending(s, steps[..n], k) == Pending(s, steps, k);
      }
      MacRunSums(s, steps[..n], ps, parts[..n]);
      assert Pending(s, steps[..n], n) == Pending(s, steps, n);
      AddsItsWorth(steps[n].op, Pending(s, steps, n), ps, parts[n]);
      WrapAdds(s.acc + Sum(parts[..n]), parts[n]);
    }
  }
}
