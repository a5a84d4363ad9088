// The computation unit: accumulators and flags updated in place.
module Alus {
  import opened Words
  import opened Arith
  import opened Bits
  import opened Registers
  import opened Accumulators

  datatype AccName = A0 | A1 | B0 | B1

  function Index(name: AccName): nat {
    match name
    case A0 => 0
    case A1 => 1
    case B0 => 2
    case B1 => 3
  }

  function Signed16(v: u16): int {
    if v < 0x8000 then v else v - 0x1_0000
  }

  // The exact result of a shift of the 40-bit register u: of its unsigned
  // value in logic mode, of its two's complement value in arithmetic mode.
  function ShiftExact(u: nat, n: int, logic: bool): int {
    Shifted(if logic then u else Val40(u), n)
  }

  // The last bit shifted out.
  function ShiftCarry(u: nat, n: int, logic: bool): bool {
    if n >= 40 then false
    else if n >= 0 then Bit(u, 40 - n) == 1
    else if n > -40 then Bit(u, -n - 1) == 1
    else !logic && u >= H40
  }

  function ShiftFlags(f: Flags, u: nat, n: int, logic: bool): Flags {
    var fits := Fit40(ShiftExact(u, n, logic));
    f.(fc0 := ShiftCarry(u, n, logic),
       fv := if logic then f.fv else !fits,
       fvl := f.fvl || (!logic && !fits))
  }

  // What a shift stores: cut to 40 bits, or saturated to 32 in arithmetic mode.
  function ShiftStored(u: nat, n: int, logic: bool, sata: bool): (x: int)
    ensures Fit40(x)
  {
    var e := ShiftExact(u, n, logic);
    if !logic && !sata then Clamp32(e) else Wrap40(e)
  }

  function ShiftedFlags(f: Flags, u: nat, n: int, logic: bool, sata: bool): Flags {
    var e := ShiftExact(u, n, logic);
    AccFlags(ShiftFlags(f, u, n, logic), Encode(Wrap40(e))).(flm := f.flm || (!logic && !sata && !Fit32(e)))
  }

  // The exact sum or difference of two 40-bit registers.
  function SumExact(a: nat, b: nat, sub: bool): int {
    if sub then Val40(a) - Val40(b) else Val40(a) + Val40(b)
  }

  // Unsigned carry out of, or borrow into, bit 40.
  function SumCarry(a: nat, b: nat, sub: bool): bool {
    if sub then a % M40 < b % M40 else a % M40 + b % M40 >= M40
  }

  function SumFlags(f: Flags, a: nat, b: nat, sub: bool): Flags {
    var fits := Fit40(SumExact(a, b, sub));
    f.(fc0 := SumCarry(a, b, sub), fv := !fits, fvl := f.fvl || !fits)
  }

  // The flags of storing x with saturation.
  function SatFlags(f: Flags, x: int, sata: bool): Flags
    requires Fit40(x)
  {
    var g := AccFlags(f, Encode(x));
    g.(flm := f.flm || (!sata && !Fit32(x)))
  }

  function Saturated(x: int, sata: bool): (y: int)
    requires Fit40(x)
    ensures Fit40(y)
  {
    if sata then x else Clamp32(x)
  }

  // r is the shift that normalises x to 32 bits: it brings the top significant
  // bit just below the sign bit, and is 31 for 0 and -1, which have none.
  predicate IsExp(x: int, r: int) {
    -8 <= r <= 31 && Fit(x, 32 - r) && (r < 31 ==> !Fit(x, 31 - r))
  }

  // One restoring division step by d, as an operation on values.
  function DivStep(x: int, d: nat): (y: int)
    ensures Fit40(y)
  {
    Wrap40(if x < d * 0x8000 then 2 * x else 2 * (x - d * 0x8000) + 1)
  }

  class ComputationUnit {
    var acc: seq<u64>
    var flags: Flags
    var sat: bool
    var sata: bool
    var s: bool
    var sv: u16

    // Four accumulators, each the sign extension of its low 40 bits.
    ghost predicate Valid()
      reads this
    {
      |acc| == 4 && forall i :: 0 <= i < 4 ==> IsAcc(acc[i])
    }

    constructor ()
      ensures Valid()
    {
      acc := [0, 0, 0, 0];
      flags := Flags(false, false, false, false, false, false, false, false, false, false);
      sat, sata, s, sv := false, true, false, 0;
    }

    function GetAcc(name: AccName): u64
      requires |acc| == 4
      reads this
    {
      acc[Index(name)]
    }

    ghost function Value(name: AccName): int
      requires Valid()
      reads this
    {
      Val40(GetAcc(name))
    }

    method SetAcc(name: AccName, value: u64)
      requires Valid() && IsAcc(value)
      modifies this`acc
      ensures Valid() && acc == old(acc)[Index(name) := value]
    {
      acc := acc[Index(name) := value];
    }

    method SetAccFlag(value: u64)
      modifies this`flags
      ensures flags == AccFlags(old(flags), value)
    {
      flags := flags.(fz := value == 0);
      flags := flags.(fm := value / Pow2(39) != 0);
      flags := flags.(fe := value != SignExtend(value, 32));
      var bit31, bit30 := Bit(value, 31), Bit(value, 30);
      flags := flags.(fn := flags.fz || (!flags.fe && bit31 != bit30));
    }

    method ShiftLeft(value: nat, n: int) returns (v: u64)
      requires value < M40 && n >= 0
      modifies this`flags
      ensures SignExtend(v, 40) == Encode(Wrap40(ShiftExact(value, n, s)))
      ensures flags == ShiftFlags(old(flags), value, n, s)
    {
      hide SignExtend, Pow2, Bit, ShiftExact, ShiftCarry, Wrap40, Encode, Fit40;
      if n >= 40 {
        LongLeftFacts(value, n);
        if !s {
          flags := flags.(fv := value != 0);
          if flags.fv {
            flags := flags.(fvl := true);
          }
        }
        v := 0;
        flags := flags.(fc0 := false);
      } else {
        ShortLeftFacts(value, n, s);
        if !s {
          flags := flags.(fv := SignExtend(value, 40) != SignExtend(value, 40 - n));
          if flags.fv {
            flags := flags.(fvl := true);
          }
        }
        v := value * Pow2(n) % M64;
        flags := flags.(fc0 := Bit(v, 40) != 0);
      }
    }

    method ShiftRight(value: nat, n: int) returns (v: u64)
      requires value < M40 && n > 0
      modifies this`flags
      ensures SignExtend(v, 40) == Encode(Wrap40(ShiftExact(value, -n, s)))
      ensures flags == ShiftFlags(old(flags), value, -n, s)
    {
      hide SignExtend, Pow2, Bit, ShiftExact, ShiftCarry, Wrap40, Encode, Fit40;
      if n >= 40 {
        LongRightFacts(value, n);
        if !s {
          flags := flags.(fc0 := Bit(value, 39) == 1);
          v := if flags.fc0 then 0xFF_FFFF_FFFF else 0;
        } else {
          v := 0;
          flags := flags.(fc0 := false);
        }
      } else {
        UnsignedShift(value, n);
        ShortRightFacts(value, n, s, value / Pow2(n));
        flags := flags.(fc0 := Bit(value, n - 1) != 0);
        v := value / Pow2(n);
        if !s {
          v := SignExtend(v, 40 - n);
        }
      }
      if !s {
        flags := flags.(fv := false);
      }
    }

    // Shift by a signed amount into an accumulator. In arithmetic mode the
    // result is the exact product or quotient, clamped to 32 bits unless
    // saturation is disabled.
    method ShiftBus40(value: u64, sv: u16, dest: AccName)
      requires Valid()
      modifies this`acc, this`flags
      ensures Valid()
      ensures acc == old(acc)[Index(dest) := Encode(ShiftStored(value % M40, Signed16(sv), s, sata))]
      ensures flags == ShiftedFlags(old(flags), value % M40, Signed16(sv), s, sata)
    {
      hide SignExtend, Pow2, Bit, ShiftCarry, AccFlags, ShiftExact, Wrap40, Encode, Fit40, Fit32;
      var cut := value % M40;
      var originalSign := cut / H40;
      var v: u64;
      if sv / 0x8000 == 0 {
        v := ShiftLeft(cut, sv);
      } else {
        v := ShiftRight(cut, 0x1_0000 - sv);
      }
      v := SignExtend(v, 40);
      SetAccFlag(v);
      AccFlagsKeep(ShiftFlags(old(flags), cut, Signed16(sv), s), v);
      StoreFacts(cut, Signed16(sv), v, s);
      v := SaturateShift(v, originalSign);
      SetAcc(dest, v);
    }

    // The last stage of an arithmetic shift.
    method SaturateShift(value: u64, originalSign: nat) returns (v: u64)
      modifies this`flags
      ensures var out := !s && !sata && (old(flags).fv || SignExtend(value, 32) != value);
              && v == (if !out then value else if originalSign == 1 then 0xFFFF_FFFF_8000_0000 else 0x7FFF_FFFF)
              && flags == old(flags).(flm := old(flags).flm || out)
    {
      hide SignExtend;
      v := value;
      if !s && !sata {
        if flags.fv || SignExtend(v, 32) != v {
          flags := flags.(flm := true);
          v := if originalSign == 1 then 0xFFFF_FFFF_8000_0000 else 0x7FFF_FFFF;
        }
      }
    }

    method AddSub(a: u64, b: u64, sub: bool) returns (r: u64)
      modifies this`flags
      ensures r == Encode(Wrap40(SumExact(a % M40, b % M40, sub)))
      ensures flags == SumFlags(old(flags), a % M40, b % M40, sub)
    {
      hide SignExtend, Pow2, Bit, SumExact, SumCarry, Fit40, Encode, Wrap40;
      var x, y := a % M40, b % M40;
      var result: u64 := if !sub then x + y else if x >= y then x - y else x - y + M64;
      SumBits(x, y, sub, result);
      BitIsBit(result, 40);
      var f := flags.(fc0 := Bit(result, 40) == 1);
      // bit 39 of the complement of y is the complement of bit 39 of y
      var y39 := if sub then 1 - Bit(y, 39) else Bit(y, 39);
      var overflow := Bit(x, 39) == y39 && Bit(x, 39) != Bit(result, 39);
      f := f.(fv := overflow);
      if f.fv {
        f := f.(fvl := true);
      }
      flags := f;
      r := SignExtend(result, 40);
    }

    method SaturateAcc(value: u64) returns (r: u64)
      requires IsAcc(value)
      modifies this`flags
      ensures r == Encode(Clamp32(Val40(value)))
      ensures flags == old(flags).(flm := old(flags).flm || !Fit32(Val40(value)))
    {
      hide SignExtend;
      SignExtend32(Val40(value));
      if value != SignExtend(value, 32) {
        flags := flags.(flm := true);
        if value / H40 != 0 {
          return 0xFFFF_FFFF_8000_0000;
        } else {
          return 0x7FFF_FFFF;
        }
      }
      return value;
    }

    method SatAndSetAccAndFlag(name: AccName, value: u64)
      requires Valid() && IsAcc(value)
      modifies this`acc, this`flags
      ensures Valid()
      ensures acc == old(acc)[Index(name) := Encode(Saturated(Val40(value), sata))]
      ensures flags == SatFlags(old(flags), Val40(value), sata)
    {
      hide AccFlags, Encode;
      SetAccFlag(value);
      var v := value;
      if !sata {
        v := SaturateAcc(value);
        EncodeVal(Clamp32(Val40(value)));
      }
      AccFlagsKeep(old(flags), value);
      SetAcc(name, v);
    }

    method SetAccAndFlag(name: AccName, value: u64)
      requires Valid() && IsAcc(value)
      modifies this`acc, this`flags
      ensures Valid()
      ensures acc == old(acc)[Index(name) := value] && flags == AccFlags(old(flags), value)
    {
      hide AccFlags;
      SetAccFlag(value);
      SetAcc(name, value);
    }

    // Counts the copies of the sign bit below it, less eight.
    method Exp(value: u64) returns (r: u16)
      requires IsAcc(value)
      ensures IsExp(Val40(value), Signed16(r))
    {
      hide Pow2, Bit;
      var sign := Bit(value, 39);
      var bit, count := 38, 0;
      ghost var x := Val40(value);
      SignBit(value);
      FitAll(x);
      while true
        invariant 0 <= bit <= 38 && count == 38 - bit
        invariant Fit(x, 40 - count)
        decreases bit
      {
        SignRun(value, bit + 1);
        if Bit(value, bit) != sign {
          break;
        }
        count := count + 1;
        if bit == 0 {
          break;
        }
        bit := bit - 1;
      }
      r := (count - 8) % 0x1_0000;
    }

    // One step of a restoring division of `name` by da.
    method Divs(da: u16, name: AccName)
      requires Valid()
      modifies this`acc, this`flags
      ensures Valid()
      ensures acc == old(acc)[Index(name) := Encode(DivStep(old(Value(name)), da))]
      ensures flags == AccFlags(old(flags), Encode(DivStep(old(Value(name)), da)))
    {
      hide SignExtend, AccFlags;
      var db := GetAcc(name);
      ghost var x := Value(name);
      // the difference modulo 2^64
      var value: u64 := if db >= da * 0x8000 then db - da * 0x8000 else db - da * 0x8000 + M64;
      DivsRegister(db, da, value);
      if value / 0x8000_0000_0000_0000 == 1 {
        SetAccAndFlag(name, SignExtend(db * 2 % M64, 40));
      } else {
        SetAccAndFlag(name, SignExtend(value * 2 % M64 + 1, 40));
      }
    }
  }

  lemma DivsRegister(db: u64, da: u16, value: u64)
    requires IsAcc(db)
    requires value == if db >= da * 0x8000 then db - da * 0x8000 else db - da * 0x8000 + M64
    ensures value * 2 % M64 + 1 < M64
    ensures IsAcc(Encode(DivStep(Val40(db), da)))
    ensures Encode(DivStep(Val40(db), da)) ==
      if value / 0x8000_0000_0000_0000 == 1 then SignExtend(db * 2 % M64, 40) else SignExtend(value * 2 % M64 + 1, 40)
  {
    hide DivStep, SignExtend, Val40, Encode, Wrap40, IsAcc;
    var x := Val40(db);
    DivsSign(db, da, value);
    EncodeVal(DivStep(x, da));
    DivStepIs(x, da);
    if x < da * 0x8000 {
      SignExtend40(db * 2 % M64);
      DoubledRegister(db);
    } else {
      assert value * 2 % M64 == value * 2;
      SignExtend40(value * 2 % M64 + 1);
      ValIsWrap(value * 2 % M64 + 1);
    }
  }

  lemma DivStepIs(x: int, d: nat)
    ensures DivStep(x, d) == Wrap40(if x < d * 0x8000 then 2 * x else 2 * (x - d * 0x8000) + 1)
  {
  }

  lemma DoubledRegister(db: u64)
    requires IsAcc(db)
    ensures Val40(db * 2 % M64) == Wrap40(2 * Val40(db))
  {
    CutTwice(db * 2);
    ScaledTurns(db, Val40(db), if Val40(db) < 0 then M64 / M40 else 0, 2);
  }

  lemma DivsSign(db: u64, da: u16, value: u64)
    requires IsAcc(db)
    requires value == if db >= da * 0x8000 then db - da * 0x8000 else db - da * 0x8000 + M64
    ensures value / 0x8000_0000_0000_0000 == 1 <==> Val40(db) < da * 0x8000
    ensures Val40(db) >= da * 0x8000 ==> value == Val40(db) - da * 0x8000
  {
  }

  lemma AccFlagsKeep(f: Flags, value: u64)
    ensures AccFlags(f, value).flm == f.flm && AccFlags(f, value).fv == f.fv
  {
  }

  // What the last stage of a shift stores, given the cut result v.
  lemma StoreFacts(cut: nat, n: int, v: u64, logic: bool)
    requires cut < M40 && v == Encode(Wrap40(ShiftExact(cut, n, logic)))
    ensures IsAcc(v)
    ensures !logic ==> var e := ShiftExact(cut, n, false);
      && (!Fit32(e) <==> !Fit40(e) || SignExtend(v, 32) != v)
      && Encode(Clamp32(e)) == (if Fit32(e) then v else if cut / H40 == 1 then 0xFFFF_FFFF_8000_0000 else 0x7FFF_FFFF)
      && IsAcc(Encode(Clamp32(e)))
  {
    hide SignExtend, ShiftExact;
    var e := ShiftExact(cut, n, logic);
    SignExtend32(Wrap40(e));
    EncodeVal(Wrap40(e));
    if !logic && !Fit32(e) {
      SaturationSide(cut, n);
    }
  }

  lemma FitAll(x: int)
    requires Fit40(x)
    ensures Fit(x, 40)
  {
    Pow2Values();
  }

  lemma SignBit(value: u64)
    requires IsAcc(value)
    ensures Bit(value, 39) == if Val40(value) < 0 then 1 else 0
  {
    Pow2Values();
    HalfTurns(value);
  }

  // Given that x fits n + 1 bits, bit n - 1 repeats the sign exactly when it fits n.
  lemma SignRun(value: u64, n: nat)
    requires IsAcc(value) && 1 <= n <= 39 && Fit(Val40(value), n + 1)
    ensures Bit(value, n - 1) == (if Val40(value) < 0 then 1 else 0) <==> Fit(Val40(value), n)
  {
    var x, p, c := Val40(value), Pow2(n - 1), Pow2(64 - n);
    assert Pow2(n) == 2 * p && Pow2(65 - n) == 2 * c;
    Pow2Split(n - 1, 64);
    Pow2Values();
    assert value == if x < 0 then x + M64 else x;
    RunParity(x, p, c, value);
    FitIs(x, n);
    FitIs(x, n + 1);
  }

  lemma FitIs(x: int, n: nat)
    requires n > 0
    ensures Fit(x, n) <==> -(Pow2(n - 1) as int) <= x < Pow2(n - 1)
  {
  }

  lemma RunParity(x: int, p: nat, c: nat, value: nat)
    requires p > 0 && p * (2 * c) == M64 && -(2 * p as int) <= x < 2 * p
    requires value == if x < 0 then x + M64 else x
    ensures value / p % 2 == (if x < 0 then 1 else 0) <==> -(p as int) <= x < p
  {
    hide *;
    RunQuotient(x, p);
    TurnedQuotient(x, p, c);
    Parity(x / p, c, x < 0);
  }

  lemma Parity(q: int, c: nat, negative: bool)
    requires if negative then q == -1 || q == -2 else q == 0 || q == 1
    ensures (if negative then q + 2 * c else q) % 2 == if q == -2 || q == 0 then 0 else 1
  {
  }

  lemma TurnedQuotient(x: int, p: nat, c: nat)
    requires p > 0 && p * (2 * c) == M64
    ensures (x + M64) / p == x / p + 2 * c
  {
    DivShift(x, p, 2 * c);
  }

  lemma RunQuotient(x: int, p: nat)
    requires p > 0 && -(2 * p as int) <= x < 2 * p
    ensures x / p == if x < -(p as int) then -2 else if x < 0 then -1 else if x < p then 0 else 1
  {
    DivAtLeast(x, p, -2);
    DivAtLeast(x, p, -1);
    DivAtLeast(x, p, 0);
    DivAtLeast(x, p, 1);
    DivAtLeast(x, p, 2);
  }

  lemma BitIsBit(x: nat, i: nat)
    ensures Bit(x, i) == 0 || Bit(x, i) == 1
  {
  }

  lemma SaturationSide(u: nat, n: int)
    requires u < M40 && !Fit32(ShiftExact(u, n, false))
    ensures u >= H40 <==> ShiftExact(u, n, false) < 0
  {
    var x := Val40(u);
    if n >= 0 {
      SignOfShift(x, n);
    } else {
      DivAtLeast(x, Pow2(-n), 0);
    }
  }

  lemma SumBits(a: nat, b: nat, sub: bool, result: u64)
    requires a < M40 && b < M40
    requires result == if !sub then a + b else if a >= b then a - b else a - b + M64
    ensures Bit(result, 40) == 1 <==> SumCarry(a, b, sub)
    ensures SignExtend(result, 40) == Encode(Wrap40(SumExact(a, b, sub)))
    ensures (Bit(a, 39) == (if sub then 1 - Bit(b, 39) else Bit(b, 39)) && Bit(a, 39) != Bit(result, 39))
            <==> !Fit40(SumExact(a, b, sub))
  {
    hide SignExtend, Pow2, Val40, Wrap40, SumExact, SumCarry, Fit40, Encode;
    SignExtend40(result);
    Pow2Values();
    SumTurns(a, b, sub, result);
    CutValue(result);
    HalfTurns(a);
    HalfTurns(b);
    HalfTurns(result);
    HalfBit(a);
    HalfBit(b);
    HalfBit(result % M40);
    SumOverflow(a, b, sub, result % M40);
  }

  lemma CutValue(x: nat)
    ensures Val40(x) == Val40(x % M40)
  {
  }

  lemma HalfBit(x: nat)
    requires x < M40
    ensures x % M40 == x && x / H40 == if x >= H40 then 1 else 0
  {
  }

  // The register result is a 40-bit sum and a number of whole turns.
  lemma SumTurns(a: nat, b: nat, sub: bool, result: nat)
    requires a < M40 && b < M40
    requires result == if !sub then a + b else if a >= b then a - b else a - b + M64
    ensures result / M40 % 2 == 1 <==> SumCarry(a, b, sub)
    ensures result % M40 ==
            if sub then (if a >= b then a - b else a - b + M40) else if a + b >= M40 then a + b - M40 else a + b
  {
    if sub && a < b {
      DivModUnique(result, M40, M64 / M40 - 1, a - b + M40);
    }
  }

  lemma WrapNear(e: int)
    requires -M40 <= e < M40
    ensures Wrap40(e) == if e >= H40 then e - M40 else if e < -H40 then e + M40 else e
  {
    if e < 0 {
      DivModUnique(e, M40, -1, e + M40);
    }
  }

  lemma ValNear(x: nat)
    requires x < M40
    ensures Val40(x) == if x >= H40 then x - M40 else x
  {
  }

  lemma SumOverflow(a: nat, b: nat, sub: bool, cut: nat)
    requires a < M40 && b < M40
    requires cut == if sub then (if a >= b then a - b else a - b + M40) else if a + b >= M40 then a + b - M40 else a + b
    ensures Val40(cut) == Wrap40(SumExact(a, b, sub))
    ensures ((a >= H40) == (if sub then b < H40 else b >= H40) && (a >= H40) != (cut >= H40))
            <==> !Fit40(SumExact(a, b, sub))
  {
    hide Val40, Wrap40;
    ValNear(a);
    ValNear(b);
    ValNear(cut);
    WrapNear(SumExact(a, b, sub));
  }

  lemma HalfTurns(x: nat)
    ensures x / H40 % 2 == x % M40 / H40
  {
    var q, m := x / M40, x % M40;
    assert x == q * M40 + m;
    assert x / H40 == 2 * q + m / H40;
  }

  lemma LongLeftFacts(value: nat, n: int)
    requires value < M40 && n >= 40
    ensures SignExtend(0, 40) == Encode(Wrap40(ShiftExact(value, n, false))) ==
            Encode(Wrap40(ShiftExact(value, n, true)))
    ensures Fit40(ShiftExact(value, n, false)) <==> value == 0
    ensures !ShiftCarry(value, n, false) && !ShiftCarry(value, n, true)
  {
    hide SignExtend, Pow2, Bit;
    LongLeftShift(Val40(value), n);
    LongLeftShift(value, n);
    SignExtend40(0);
  }

  lemma ShortLeftFacts(value: nat, n: int, logic: bool)
    requires value < M40 && 0 <= n < 40
    ensures SignExtend(value * Pow2(n) % M64, 40) == Encode(Wrap40(ShiftExact(value, n, false)))
    ensures SignExtend(value * Pow2(n) % M64, 40) == Encode(Wrap40(ShiftExact(value, n, true)))
    ensures SignExtend(value, 40) == SignExtend(value, 40 - n) <==> Fit40(ShiftExact(value, n, false))
    ensures Bit(value * Pow2(n) % M64, 40) != 0 <==> ShiftCarry(value, n, logic)
  {
    hide SignExtend, Pow2, Bit, Wrap40, Encode, Fit40;
    LeftShiftWraps(value, n);
    LeftShiftOverflow(value, n);
    LeftCarry(value, n);
    BitIsBit(value, 40 - n);
    SignExtend40(value * Pow2(n) % M64);
    CutTwice(value * Pow2(n));
  }

  lemma LongRightFacts(value: nat, n: int)
    requires value < M40 && n >= 40
    ensures Fit40(ShiftExact(value, -n, false))
    ensures Bit(value, 39) == 1 <==> value >= H40
    ensures SignExtend(if value >= H40 then 0xFF_FFFF_FFFF else 0, 40) == Encode(Wrap40(ShiftExact(value, -n, false)))
    ensures SignExtend(0, 40) == Encode(Wrap40(ShiftExact(value, -n, true)))
    ensures ShiftCarry(value, -n, false) == (value >= H40) && !ShiftCarry(value, -n, true)
  {
    hide SignExtend, Pow2;
    SignExtend40(0);
    SignExtend40(0xFF_FFFF_FFFF);
    Pow2Values();
    LongRightShift(Val40(value), n);
    Pow2Monotone(40, n);
    RemainderBounds(value, Pow2(n));
    SmallMod(value, Pow2(n));
  }

  lemma ShortRightFacts(value: nat, n: int, logic: bool, w: u64)
    requires value < M40 && 0 < n < 40 && w == value / Pow2(n)
    ensures !logic ==> Fit40(ShiftExact(value, -n, logic))
    ensures Encode(Wrap40(ShiftExact(value, -n, logic))) == SignExtend(if logic then w else SignExtend(w, 40 - n), 40)
    ensures Bit(value, n - 1) != 0 <==> ShiftCarry(value, -n, logic)
  {
    hide Pow2, SignExtend, Wrap40, Encode, Fit40;
    BitIsBit(value, n - 1);
    if logic {
      SignExtend40(w);
      ValIsWrap(w);
    } else {
      RightShiftFloors(value, n, w);
      WrapOfFit(Val40(value) / Pow2(n));
      EncodeVal(Val40(value) / Pow2(n));
      SignExtend40(SignExtend(w, 40 - n));
    }
  }

  lemma ValIsWrap(w: nat)
    ensures Val40(w) == Wrap40(w)
  {
  }

  // The normalising shift is unique, so Exp has no choice.
  lemma ExpUnique(x: int, r: int, t: int)
    requires IsExp(x, r) && IsExp(x, t)
    ensures r == t
  {
    if r < t {
      Pow2Monotone(32 - t - 1, 31 - r - 1);
    } else if t < r {
      Pow2Monotone(32 - r - 1, 31 - t - 1);
    }
  }

  // Shifting by the exponent, up or down, gives a 32-bit value with nothing
  // lost on the left and no room to go further.
  lemma ExponentScales(x: int, r: int)
    requires IsExp(x, r)
    ensures var e := Shifted(x, r);
            Fit32(e) && (x == 0 || !(-0x4000_0000 <= e < 0x4000_0000)) && (e == 0 <==> x == 0)
  {
    Pow2Values();
    if r >= 0 {
      ScaledUp(x, r, Pow2(r), Pow2(31 - r), if r < 31 then Pow2(30 - r) else 0);
    } else {
      ScaledDown(x, -r, Pow2(-r), Pow2(31 - r), Pow2(30 - r));
    }
  }

  lemma ScaledUp(x: int, r: nat, p: nat, q: nat, h: nat)
    requires r <= 31 && p == Pow2(r) && q == Pow2(31 - r) && -(q as int) <= x < q
    requires r < 31 ==> h == Pow2(30 - r) && !(-(h as int) <= x < h)
    ensures Fit32(x * p) && (x == 0 || !(-0x4000_0000 <= x * p < 0x4000_0000)) && (x * p == 0 <==> x == 0)
  {
    hide Pow2;
    Pow2Split(r, 31);
    Pow2Values();
    ScaleRange(x, p, q);
    ScaleLe(0, x, p);
    ScaleLe(x, 0, p);
    if r < 31 {
      Pow2Split(r, 30);
      ScaleRange(x, p, h);
    } else {
      assert x == 0 || x == -1 by { assert q == 1 by { Pow2Zero(); } }
      assert x == -1 ==> x * p == -0x8000_0000;
    }
  }

  lemma Pow2Zero()
    ensures Pow2(0) == 1
  {
  }

  lemma ScaledDown(x: int, n: nat, p: nat, q: nat, h: nat)
    requires 1 <= n <= 8 && p == Pow2(n) && q == Pow2(31 + n) && h == Pow2(30 + n)
    requires -(q as int) <= x < q && !(-(h as int) <= x < h)
    ensures Fit32(x / p) && !(-0x4000_0000 <= x / p < 0x4000_0000)
  {
    hide Pow2;
    Pow2Add(n, 31);
    Pow2Add(n, 30);
    Pow2Values();
    DivAtLeast(x, p, 0x8000_0000);
    DivAtLeast(x, p, -0x8000_0000);
    DivAtLeast(x, p, 0x4000_0000);
    DivAtLeast(x, p, -0x4000_0000);
  }

  // Normalisation: after exp, an arithmetic shift by sv gives a normalised
  // 32-bit value, without overflow, extension or saturation, in either
  // saturation mode and whether the exponent is positive, zero or negative.
  lemma ShiftByExpNormalises(f: Flags, u: nat, r: int, sata: bool)
    requires u < M40 && IsExp(Val40(u), r)
    ensures Fit32(ShiftStored(u, r, false, sata)) && ShiftStored(u, r, false, sata) == ShiftExact(u, r, false)
    ensures var g := ShiftedFlags(f, u, r, false, sata);
            g.fn && !g.fe && !g.fv && g.flm == f.flm && g.fvl == f.fvl
  {
    hide ShiftCarry, AccFlags, Pow2;
    ExponentScales(Val40(u), r);
    var e := ShiftExact(u, r, false);
    WrapOfFit(e);
    AccFlagsMeaning(ShiftFlags(f, u, r, false), e);
  }

  // --- what a shift stores ---

  // z has 32 bits and is at least as near to x as y.
  predicate Nearest(x: int, z: int, y: int) {
    -0x8000_0000 <= z <= 0x7FFF_FFFF && (if z < x then x - z else z - x) <= if y < x then x - y else y - x
  }

  lemma Signed16Is(v: u16)
    ensures -0x8000 <= Signed16(v) < 0x8000 && (Signed16(v) == v || Signed16(v) == v - 0x1_0000)
  {
  }

  // The four accumulators are four places.
  lemma IndexIsInjective(a: AccName, b: AccName)
    ensures Index(a) < 4 && (Index(a) == Index(b) ==> a == b)
  {
  }

  // With saturation disabled a value is stored as it is, otherwise the nearest
  // of 32 bits.
  lemma SaturatedIs(x: int, sata: bool, y: int)
    requires Fit40(x) && -0x8000_0000 <= y <= 0x7FFF_FFFF
    ensures sata ==> Saturated(x, sata) == x
    ensures !sata ==> Nearest(x, Saturated(x, sata), y)
  {
    ClampIsNearest(x, y);
  }

  // The exact result is the product by a power of two, or its quotient rounded
  // down. What is stored is the 32-bit value nearest to it when saturating in
  // arithmetic mode, and otherwise the 40-bit value that differs from it by a
  // multiple of 2^40.
  lemma ShiftStoresExactly(u: nat, n: int, logic: bool, sata: bool, y: int)
    requires u < M40 && -0x8000_0000 <= y <= 0x7FFF_FFFF
    ensures var e, x := ShiftExact(u, n, logic), ShiftStored(u, n, logic, sata);
            if logic || sata then -0x80_0000_0000 <= x < 0x80_0000_0000 && (e - x) % 0x100_0000_0000 == 0
            else Nearest(e, x, y)
    ensures var e, v := ShiftExact(u, n, logic), if logic then u else Val40(u);
            if n >= 0 then e == v * Pow2(n) else e * Pow2(-n) <= v < (e + 1) * Pow2(-n)
  {
    hide Pow2, Val40, Wrap40, Clamp32;
    var e, v := ShiftExact(u, n, logic), if logic then u else Val40(u);
    WrapIsOnly(e, Wrap40(e));
    ClampIsNearest(e, y);
    if n < 0 {
      QuotientBounds(v, Pow2(-n));
    }
  }

  lemma QuotientBounds(v: int, p: nat)
    requires p > 0
    ensures v / p * p <= v < (v / p + 1) * p
  {
    DivAtLeast(v, p, v / p);
    DivAtLeast(v, p, v / p + 1);
  }

  // --- what the flags of a shift or a sum say ---

  // In terms of the exact result e: overflow and its sticky copy, the limit
  // flag, and the four flags of the 40-bit value.
  lemma ShiftFlagsExactly(f: Flags, u: nat, n: int, logic: bool, sata: bool)
    requires u < M40
    ensures var e, g := Shifted(if logic then u else Val40(u), n), ShiftedFlags(f, u, n, logic, sata);
            && (if logic then g.fv == f.fv && g.fvl == f.fvl
                else (g.fv <==> !Fit40(e)) && (g.fvl <==> f.fvl || !Fit40(e)))
            && (g.flm <==> f.flm || (!logic && !sata && !Fit32(e)))
            && (g.fz <==> Wrap40(e) == 0) && (g.fm <==> Wrap40(e) < 0) && (g.fe <==> !Fit32(Wrap40(e)))
            && (g.fn <==> Wrap40(e) == 0 || (Fit32(Wrap40(e)) && !(-0x4000_0000 <= Wrap40(e) < 0x4000_0000)))
            && g.fr == f.fr && g.fc1 == f.fc1
  {
    hide ShiftCarry, AccFlags, Pow2, Wrap40, Fit40, Fit32;
    AccFlagsMeaning(ShiftFlags(f, u, n, logic), Wrap40(ShiftExact(u, n, logic)));
  }

  // The carry is the last bit out: bit 40 of the unsigned value shifted left,
  // or the bit just below the point when shifting right.
  lemma ShiftCarryExactly(f: Flags, u: nat, n: int, logic: bool, sata: bool)
    requires u < M40
    ensures var c := ShiftedFlags(f, u, n, logic, sata).fc0;
            && (0 <= n < 40 ==> (c <==> u * Pow2(n) / 0x100_0000_0000 % 2 == 1))
            && (-40 < n < 0 ==> (c <==> u / Pow2(-n - 1) % 2 == 1))
            && (n >= 40 ==> !c) && (n <= -40 ==> (c <==> !logic && u >= 0x80_0000_0000))
  {
    hide AccFlags, Pow2, Fit40, Fit32, Wrap40, ShiftExact;
    CarryKept(f, u, n, logic, sata);
    if 0 <= n < 40 {
      CarryOut(u, n);
    }
  }

  lemma CarryKept(f: Flags, u: nat, n: int, logic: bool, sata: bool)
    ensures ShiftedFlags(f, u, n, logic, sata).fc0 == ShiftCarry(u, n, logic)
  {
    hide ShiftCarry, Pow2, Fit40, Fit32, Wrap40, ShiftExact;
  }

  lemma CarryOut(u: nat, n: int)
    requires u < M40 && 0 <= n < 40
    ensures u * Pow2(n) / 0x100_0000_0000 % 2 == 1 <==> ShiftCarry(u, n, false)
    ensures ShiftCarry(u, n, true) == ShiftCarry(u, n, false)
  {
    hide Pow2;
    Pow2Values();
    ShortLeftFacts(u, n, false);
    BitOfCut(u * Pow2(n));
  }

  lemma BitOfCut(x: nat)
    ensures Pow2(40) == M40 && Bit(x % M64, 40) == x / M40 % 2
  {
    hide Pow2;
    Pow2Values();
    BitBelowCut(x);
  }

  // A sum of two registers, or a difference, in terms of the exact result and
  // of the unsigned 40-bit words.
  lemma SumFlagsExactly(f: Flags, a: nat, b: nat, sub: bool)
    ensures var e: int := if sub then Val40(a) - Val40(b) else Val40(a) + Val40(b);
            var w: int := if sub then a % M40 - b % M40 else a % M40 + b % M40;
            var g := SumFlags(f, a, b, sub);
            && SumExact(a, b, sub) == e && (g.fv <==> !Fit40(e)) && (g.fvl <==> f.fvl || !Fit40(e))
            && (g.fc0 <==> !(0 <= w < 0x100_0000_0000)) && g == f.(fc0 := g.fc0, fv := g.fv, fvl := g.fvl)
  {
    hide Val40, Fit40;
  }

  // Storing with saturation: the flags of the plain value, and the limit flag
  // exactly when the stored value differs from it.
  lemma SatFlagsExactly(f: Flags, x: int, sata: bool)
    requires Fit40(x)
    ensures var g := SatFlags(f, x, sata);
            && (g.flm <==> f.flm || Saturated(x, sata) != x)
            && (g.fz <==> x == 0) && (g.fm <==> x < 0) && (g.fe <==> !Fit32(x))
            && (g.fn <==> x == 0 || (Fit32(x) && !(-0x4000_0000 <= x < 0x4000_0000)))
            && g.fv == f.fv && g.fvl == f.fvl && g.fc0 == f.fc0 && g.fc1 == f.fc1 && g.fr == f.fr
  {
    hide AccFlags, Pow2;
    AccFlagsMeaning(f, x);
  }

  // --- division ---

  function DivSteps(x: int, d: nat, k: nat): int {
    if k == 0 then x else DivStep(DivSteps(x, d, k - 1), d)
  }

  lemma HalvedDivision(x: nat, m: nat)
    requires m > 0
    ensures x / m == if x % (2 * m) < m then 2 * (x / (2 * m)) else 2 * (x / (2 * m)) + 1
    ensures x % m == if x % (2 * m) < m then x % (2 * m) else x % (2 * m) - m
  {
    var q, t := x / (2 * m), x % (2 * m);
    assert x == q * (2 * m) + t == (2 * q) * m + t;
    if t < m {
      DivModUnique(x, m, 2 * q, t);
    } else {
      assert (2 * q + 1) * m == (2 * q) * m + m;
      DivModUnique(x, m, 2 * q + 1, t - m);
    }
  }

  lemma DividendShape(x: nat, m: nat, p: nat)
    requires m > 0 && p > 0 && x < 2 * (m * p)
    ensures x / (2 * m) < p
  {
    assert 2 * (m * p) == p * (2 * m);
    DivAtLeast(x, 2 * m, p);
  }

  // One step turns the remainder and quotient for 2m into those for m.
  lemma StepRefinesDivision(x: nat, d: nat, m: nat, p: nat)
    requires m > 0 && p > 0 && m * p == d * 0x8000 && d < 0x1_0000 && x < 2 * (m * p)
    ensures DivStep(p * (x % (2 * m)) + x / (2 * m), d) == (2 * p) * (x % m) + x / m
  {
    HalvedDivision(x, m);
    DividendShape(x, m, p);
    var r, q := x % (2 * m), x / (2 * m);
    StepArithmetic(r, q, d, m, p);
  }

  lemma StepArithmetic(r: nat, q: nat, d: nat, m: nat, p: nat)
    requires m > 0 && m * p == d * 0x8000 && d < 0x1_0000 && q < p && r < 2 * m
    ensures DivStep(p * r + q, d) == if r < m then (2 * p) * r + 2 * q else (2 * p) * (r - m) + (2 * q + 1)
  {
    ScaleLe(r + 1, m, p);
    ScaleLe(m, r, p);
    ScaleLe(r + 1, 2 * m, p);
    assert (r + 1) * p == r * p + p;
    assert p * r == r * p && (2 * p) * r == 2 * (r * p) && (2 * p) * (r - m) == 2 * (r * p) - 2 * (m * p);
    assert (2 * m) * p == 2 * (m * p);
    WrapOfFit(if r < m then 2 * (p * r + q) else 2 * (p * r + q - d * 0x8000) + 1);
  }

  // k division steps on 0 <= x < d * 2^16 leave the remainder and quotient of
  // x by d * 2^(16 - k), packed; sixteen steps are a full division.
  lemma {:induction false} DivisionSteps(x: nat, d: u16, k: nat)
    requires x < d * 0x1_0000 && k <= 16
    ensures d * Pow2(16 - k) > 0
    ensures DivSteps(x, d, k) == Pow2(k) * (x % (d * Pow2(16 - k))) + x / (d * Pow2(16 - k))
  {
    hide Pow2, DivStep;
    assert d > 0 && Pow2(16 - k) > 0;
    ScaleLe(1, d, Pow2(16 - k));
    if k == 0 {
      Pow2Zero();
      Pow2Values();
      RemainderBounds(x, d * Pow2(16));
      SmallMod(x, d * Pow2(16));
    } else {
      DivisionSteps(x, d, k - 1);
      DivisionHalves(d, k);
      DivisionProduct(d, k);
      StepRefinesDivision(x, d, d * Pow2(16 - k), Pow2(k - 1));
    }
  }

  lemma DivisionHalves(d: nat, k: nat)
    requires 1 <= k <= 16
    ensures d * Pow2(16 - (k - 1)) == 2 * (d * Pow2(16 - k)) && Pow2(k) == 2 * Pow2(k - 1)
  {
    hide Pow2;
    Pow2Step(16 - k);
    Pow2Step(k - 1);
    DoubleProduct(Pow2(16 - k), d);
  }

  lemma DivisionProduct(d: nat, k: nat)
    requires 1 <= k <= 16
    ensures (d * Pow2(16 - k)) * Pow2(k - 1) == d * 0x8000
  {
    hide Pow2;
    Pow2Add(16 - k, k - 1);
    Pow2Step(15);
    Pow2Values();
    Regroup(d, Pow2(16 - k), Pow2(k - 1));
  }

  lemma Regroup(a: nat, b: nat, c: nat)
    ensures (a * b) * c == a * (b * c)
  {
  }

  lemma SixteenStepsDivide(x: nat, d: u16)
    requires x < d * 0x1_0000
    ensures d > 0 && DivSteps(x, d, 16) == (x % d) * 0x1_0000 + x / d
  {
    hide Pow2, DivSteps;
    DivisionSteps(x, d, 16);
    Pow2Zero();
    Pow2Values();
    assert d * 1 == d;
  }
}
