// Integer meaning of the 40-bit accumulator arithmetic.
module Accumulators {
  import opened Words
  import opened Arith
  import opened Bits
  import opened Registers

  const M40 := 0x100_0000_0000
  const H40 := 0x80_0000_0000
  const M64 := 0x1_0000_0000_0000_0000

  // Two's complement range checks.
  predicate Fit(x: int, bits: nat)
    requires bits > 0
  {
    0 - Pow2(bits - 1) <= x < Pow2(bits - 1)
  }

  predicate Fit32(x: int) { -0x8000_0000 <= x < 0x8000_0000 }

  predicate Fit40(x: int) { -H40 <= x < H40 }

  function Wrap40(x: int): (w: int)
    ensures Fit40(w)
  {
    var m := x % M40;
    if m >= H40 then m - M40 else m
  }

  function Clamp32(x: int): int {
    if x < -0x8000_0000 then -0x8000_0000 else if x >= 0x8000_0000 then 0x7FFF_FFFF else x
  }

  // The register that holds x: 64 bits, two's complement.
  function Encode(x: int): u64
    requires Fit40(x)
  {
    if x < 0 then x + M64 else x
  }

  // The value of the low 40 bits of a register.
  function Val40(v: nat): int {
    Wrap40(v)
  }

  // The upper 24 bits of an accumulator are copies of its sign bit.
  predicate IsAcc(v: u64) {
    v == Encode(Val40(v))
  }

  lemma EncodeVal(x: int)
    requires Fit40(x)
    ensures Val40(Encode(x)) == x && IsAcc(Encode(x))
  {
  }

  lemma SignExtend40(v: u64)
    ensures SignExtend(v, 40) == Encode(Val40(v))
  {
    Pow2Values();
  }

  lemma SignExtend32(x: int)
    requires Fit40(x)
    ensures SignExtend(Encode(x), 32) == Encode(x) <==> Fit32(x)
  {
    Pow2Values();
  }

  // The flags of a stored value, in terms of the value.
  lemma AccFlagsMeaning(f: Flags, x: int)
    requires Fit40(x)
    ensures AccFlags(f, Encode(x)) ==
            f.(fz := x == 0, fm := x < 0, fe := !Fit32(x),
               fn := x == 0 || (Fit32(x) && !(-0x4000_0000 <= x < 0x4000_0000)))
  {
    Pow2Values();
    SignExtend32(x);
    assert x < 0 <==> Encode(x) / Pow2(39) != 0;
    if Fit32(x) {
      TopBits(x);
    }
  }

  // After storing x the conditions compare it with zero.
  lemma ConditionsCompare(f: Flags, x: int, iu: Bits2)
    requires Fit40(x)
    ensures var g := AccFlags(f, Encode(x));
            && (ConditionPass(Eq, g, iu) <==> x == 0) && (ConditionPass(Neq, g, iu) <==> x != 0)
            && (ConditionPass(Gt, g, iu) <==> x > 0) && (ConditionPass(Ge, g, iu) <==> x >= 0)
            && (ConditionPass(Lt, g, iu) <==> x < 0) && (ConditionPass(Le, g, iu) <==> x <= 0)
  {
    hide AccFlags, Encode;
    AccFlagsMeaning(f, x);
  }

  // Or tell whether it is normalised or needs more than 32 bits, or ask for
  // one of the flags that storing leaves alone, or for a user input.
  lemma ConditionsAsk(f: Flags, x: int, iu: Bits2)
    requires Fit40(x)
    ensures var g := AccFlags(f, Encode(x));
            && ConditionPass(Cond.True, g, iu)
            && (ConditionPass(Nn, g, iu) <==> x != 0 && (!Fit32(x) || -0x4000_0000 <= x < 0x4000_0000))
            && (ConditionPass(E, g, iu) <==> !Fit32(x))
            && (ConditionPass(C, g, iu) <==> f.fc0) && (ConditionPass(V, g, iu) <==> f.fv)
            && (ConditionPass(L, g, iu) <==> f.flm || f.fvl) && (ConditionPass(Nr, g, iu) <==> !f.fr)
            && (ConditionPass(Niu0, g, iu) <==> !iu[0]) && (ConditionPass(Iu0, g, iu) <==> iu[0])
            && (ConditionPass(Iu1, g, iu) <==> iu[1])
  {
    hide AccFlags, Encode;
    AccFlagsMeaning(f, x);
  }

  lemma TopBits(x: int)
    requires Fit32(x)
    ensures Bit(Encode(x), 31) == Bit(Encode(x), 30) <==> -0x4000_0000 <= x < 0x4000_0000
  {
    hide Pow2;
    Pow2Values();
    if x < 0 {
      assert Encode(x) / 0x8000_0000 == M64 / 0x8000_0000 - 1;
      assert Encode(x) / 0x4000_0000 == M64 / 0x4000_0000 + x / 0x4000_0000;
    }
  }

  // Addition of whole turns does not matter.
  lemma WrapPeriodic(x: int, k: int)
    ensures Wrap40(x + k * M40) == Wrap40(x)
  {
    assert (x + k * M40) % M40 == x % M40;
  }

  // Wrapping takes off whole turns, so it leaves the one 40-bit value that
  // differs from x by a multiple of 2^40.
  lemma WrapIsOnly(x: int, w: int)
    ensures -0x80_0000_0000 <= Wrap40(x) < 0x80_0000_0000 && (x - Wrap40(x)) % 0x100_0000_0000 == 0
    ensures Fit40(w) && (x - w) % M40 == 0 ==> w == Wrap40(x)
  {
    WholeTurns(x);
    if Fit40(w) && (x - w) % M40 == 0 {
      assert x == w + (x - w) / M40 * M40;
      WrapPeriodic(w, (x - w) / M40);
      WrapOfFit(w);
    }
  }

  lemma WholeTurns(x: int)
    ensures (x - Wrap40(x)) % M40 == 0
  {
    DivShift(0, M40, if x % M40 >= H40 then x / M40 + 1 else x / M40);
  }

  // Saturation picks the 32-bit value nearest to x.
  lemma ClampIsNearest(x: int, y: int)
    requires -0x8000_0000 <= y <= 0x7FFF_FFFF
    ensures var c := Clamp32(x);
            -0x8000_0000 <= c <= 0x7FFF_FFFF && (if c < x then x - c else c - x) <= if y < x then x - y else y - x
  {
  }

  // A register holds a value modulo 2^64.
  lemma EncodeIsModular(x: int)
    requires Fit40(x)
    ensures Encode(x) == x % 0x1_0000_0000_0000_0000
  {
  }

  lemma WrapOfFit(x: int)
    requires Fit40(x)
    ensures Wrap40(x) == x
  {
  }

  // x times two to the power n, rounded down.
  function Shifted(x: int, n: int): int {
    if n >= 0 then x * Pow2(n) else x / Pow2(-n)
  }

  // --- left shifts ---

  lemma Pow2Split(n: nat, total: nat)
    requires n <= total
    ensures Pow2(n) * Pow2(total - n) == Pow2(total)
  {
    Pow2Add(n, total - n);
  }

  lemma CutTwice(x: nat)
    ensures Val40(x % M64) == Wrap40(x)
  {
  }

  lemma ScaledTurns(v: int, x: int, k: int, p: int)
    requires v == x + k * M40
    ensures Wrap40(v * p) == Wrap40(x * p)
  {
    assert v * p == x * p + (k * p) * M40;
    WrapPeriodic(x * p, k * p);
  }

  lemma ScaledRegister(v: nat, p: nat, w: nat)
    requires v < M40 && w == v * p
    ensures SignExtend(w % M64, 40) == Encode(Wrap40(Val40(v) * p))
  {
    SignExtend40(w % M64);
    CutTwice(w);
    var k := if v >= H40 then 1 else 0;
    assert v == Val40(v) + k * M40;
    ScaledTurns(v, Val40(v), k, p);
  }

  // Shifting the cut register left and cutting again is shifting its value.
  lemma LeftShiftWraps(v: nat, n: nat)
    requires v < M40
    ensures SignExtend(v * Pow2(n) % M64, 40) == Encode(Wrap40(Val40(v) * Pow2(n)))
  {
    hide *;
    ScaledRegister(v, Pow2(n), v * Pow2(n));
  }

  lemma ScaleRange(x: int, p: int, q: int)
    requires p > 0
    ensures -q <= x < q <==> -(p * q) <= x * p < p * q
  {
    ScaleLe(q, x, p);
    ScaleLe(-q, x, p);
    assert (-q) * p == -(p * q);
  }

  lemma FitScaled(x: int, n: nat)
    requires n < 40
    ensures Fit(x, 40 - n) <==> Fit40(x * Pow2(n))
  {
    hide Pow2;
    Pow2Split(n, 39);
    Pow2Values();
    ScaleRange(x, Pow2(n), Pow2(39 - n));
  }

  // What sign extension from a width of modulus b = 2h makes of a low part.
  function Extended(low: int, b: int, h: int): int {
    if low >= h then M64 - b + low else low
  }

  lemma NarrowCases(v: nat, low: nat, b: nat, h: nat)
    requires v < M40 && b == 2 * h && 0 < b <= M40 && low < b && low <= v
    requires v < b ==> low == v
    requires v >= M40 - h ==> low == v - M40 + b
    ensures Extended(low, b, h) == Encode(Val40(v)) <==> -(h as int) <= Val40(v) < h
  {
  }

  lemma TopRemainder(v: nat, b: nat, c: nat)
    requires v < M40 && b * c == M40 && b > 0
    ensures b <= M40 && v % b < b && v % b <= v
    ensures v < b ==> v % b == v
    ensures v + b >= M40 ==> v % b == v - M40 + b
  {
    ScaleLe(1, c, b);
    RemainderBounds(v, b);
    if v + b >= M40 {
      DivModUnique(v, b, c - 1, v - M40 + b);
    }
  }

  lemma NarrowExtension(v: nat, b: nat, c: nat, h: nat)
    requires v < M40 && b * c == M40 && b == 2 * h && b > 0
    ensures Extended(v % b, b, h) == Encode(Val40(v)) <==> -(h as int) <= Val40(v) < h
  {
    hide *;
    TopRemainder(v, b, c);
    NarrowCases(v, v % b, b, h);
  }

  // Extending from fewer bits gives the same register only for a value that fits.
  lemma NarrowSignExtend(v: nat, bits: nat)
    requires v < M40 && 1 <= bits <= 40
    ensures SignExtend(v, bits) == Encode(Val40(v)) <==> Fit(Val40(v), bits)
  {
    hide Pow2, SignExtend;
    Pow2Split(bits, 40);
    Pow2Values();
    SignExtendUnfold(v, bits);
    NarrowExtension(v, Pow2(bits), Pow2(40 - bits), Pow2(bits - 1));
  }

  lemma SignExtendUnfold(v: u64, bits: nat)
    requires 1 <= bits <= 40
    ensures Pow2(bits) <= M40 && Pow2(bits) == 2 * Pow2(bits - 1)
    ensures SignExtend(v, bits) == Extended(v % Pow2(bits), Pow2(bits), Pow2(bits - 1))
  {
    Pow2Values();
    Pow2Monotone(bits, 40);
  }

  // The register-level overflow test of a left shift says exactly that the
  // product does not fit in 40 bits.
  lemma LeftShiftOverflow(v: nat, n: nat)
    requires v < M40 && n < 40
    ensures SignExtend(v, 40) != SignExtend(v, 40 - n) <==> !Fit40(Val40(v) * Pow2(n))
  {
    SignExtend40(v);
    NarrowSignExtend(v, 40 - n);
    FitScaled(Val40(v), n);
  }

  lemma MultipleOfTurn(x: int, c: int)
    requires c > 0
    ensures Wrap40(x * (M40 * c)) == 0
    ensures Fit40(x * (M40 * c)) <==> x == 0
  {
    assert x * (M40 * c) == 0 + (x * c) * M40;
    WrapPeriodic(0, x * c);
    ScaleLe(1, x, c);
    ScaleLe(x, -1, c);
    ScaleLe(0, x, c);
  }

  // A shift by forty or more leaves nothing and overflows unless it shifts zero.
  lemma LongLeftShift(x: int, n: nat)
    requires n >= 40
    ensures Wrap40(x * Pow2(n)) == 0
    ensures Fit40(x * Pow2(n)) <==> x == 0
  {
    Pow2Split(40, n);
    Pow2Values();
    MultipleOfTurn(x, Pow2(n - 40));
  }

  // Dividing the cut register and extending again divides its value, with
  // p * c the modulus and c = 2h what is left of the width.
  lemma RightExtension(v: nat, p: nat, c: nat, h: nat)
    requires v < M40 && p * c == M40 && p * h == H40 && c == 2 * h && p > 0 && h > 0
    ensures v / p < c
    ensures Fit40(Val40(v) / p) && Extended(v / p, c, h) == Encode(Val40(v) / p)
  {
    DivAtLeast(v, p, c);
    DivAtLeast(v, p, h);
    DivAtLeast(v, p, 0);
    assert c * p == M40 && h * p == H40;
    assert h <= H40 by { ScaleLe(1, p, h); }
    if v >= H40 {
      assert Val40(v) == v + (-(c as int)) * p;
      DivShift(v, p, -(c as int));
    }
  }

  lemma RightShiftFloors(v: nat, n: nat, w: u64)
    requires v < M40 && 0 < n < 40 && w == v / Pow2(n)
    ensures Fit40(Val40(v) / Pow2(n))
    ensures SignExtend(w, 40 - n) == Encode(Val40(v) / Pow2(n))
  {
    hide Pow2, SignExtend, Val40, Encode;
    Pow2Step(39 - n);
    Pow2Split(n, 40);
    Pow2Split(n, 39);
    Pow2Values();
    RightExtension(v, Pow2(n), Pow2(40 - n), Pow2(39 - n));
    SignExtendUnfold(w, 40 - n);
    SmallMod(w, Pow2(40 - n));
    FortyLess(n);
  }

  lemma FortyLess(n: nat)
    requires n < 40
    ensures 40 - n - 1 == 39 - n
  {
  }

  lemma SmallMod(x: nat, d: nat)
    requires x < d
    ensures x % d == x && x / d == 0
  {
  }

  // A long right shift leaves only the sign.
  lemma LongRightShift(x: int, n: nat)
    requires Fit40(x) && n >= 39
    ensures x / Pow2(n) == if x < 0 then -1 else 0
  {
    Pow2Monotone(39, n);
    Pow2Values();
    SignQuotient(x, Pow2(n));
  }

  lemma SignQuotient(x: int, p: nat)
    requires p > 0 && -(p as int) <= x < p
    ensures x / p == if x < 0 then -1 else 0
  {
    DivModUnique(x, p, if x < 0 then -1 else 0, if x < 0 then x + p else x);
  }

  lemma DivOfScaled(u: nat, p: nat, c: nat)
    requires p > 0 && c > 0
    ensures p * c > 0 && (u * p) / (p * c) == u / c
  {
    var q, m := u / c, u % c;
    ScaleLe(1, c, p);
    ScaleLe(m + 1, c, p);
    ScaleLe(0, m, p);
    assert u * p == q * (p * c) + m * p by {
      assert u == q * c + m;
      assert (q * c + m) * p == q * (p * c) + m * p;
    }
    DivModUnique(u * p, p * c, q, m * p);
  }

  // The bit a left shift pushes to place 40 is bit 40 - n of the register.
  lemma LeftCarry(u: nat, n: nat)
    requires u < M40 && n < 40
    ensures Bit(u * Pow2(n) % M64, 40) == Bit(u, 40 - n)
  {
    hide Pow2;
    Pow2Split(n, 40);
    Pow2Values();
    DivOfScaled(u, Pow2(n), Pow2(40 - n));
    BitBelowCut(u * Pow2(n));
  }

  lemma BitBelowCut(x: nat)
    ensures x % M64 / M40 % 2 == x / M40 % 2
  {
    var q, m := x / M64, x % M64;
    assert x == q * M64 + m;
  }

  lemma SignOfShift(x: int, n: nat)
    ensures x * Pow2(n) < 0 <==> x < 0
  {
    ScaleLe(0, x, Pow2(n));
  }

  lemma UnsignedShift(u: nat, n: nat)
    ensures u / Pow2(n) <= u
  {
    RemainderQuotient(u, Pow2(n));
  }

  lemma RemainderQuotient(u: nat, p: nat)
    requires p > 0
    ensures u / p <= u
  {
    DivAtLeast(u, p, u + 1);
    ScaleLe(1, p, u + 1);
    assert (u + 1) * p == p * (u + 1);
  }

  // A value that fits, written in that many bits, extends to its register.
  lemma ExtendFit(v: u64, bits: nat, x: int)
    requires 1 <= bits <= 40 && Fit(x, bits) && Fit40(x)
    requires v == if x < 0 then x + Pow2(bits) else x
    ensures SignExtend(v, bits) == Encode(x)
  {
    hide SignExtend;
    SignExtendUnfold(v, bits);
    RemainderBounds(v, Pow2(bits));
  }
}
