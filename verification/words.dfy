// Fixed-width unsigned words as bounded integers.
module Words {
  type u8 = x: nat | x < 0x100
  type u16 = x: nat | x < 0x1_0000
  type u32 = x: nat | x < 0x1_0000_0000
  type u64 = x: nat | x < 0x1_0000_0000_0000_0000
}

// Multiplication, quotient and remainder by a variable amount, defined by
// repeated addition and subtraction so that proofs about them stay linear.
module Arith {
  function Times(q: nat, d: nat): nat {
    if q == 0 then 0 else Times(q - 1, d) + d
  }

  function Quot(x: nat, d: nat): nat
    requires d > 0
  {
    if x < d then 0 else 1 + Quot(x - d, d)
  }

  function Rem(x: nat, d: nat): (r: nat)
    requires d > 0
    ensures r < d
  {
    if x < d then x else Rem(x - d, d)
  }

  lemma {:induction false} TimesIsProduct(q: nat, d: nat)
    ensures Times(q, d) == q * d
  {
    if q > 0 {
      TimesIsProduct(q - 1, d);
    }
  }

  lemma {:induction false} QuotRemAreDivMod(x: nat, d: nat)
    requires d > 0
    ensures Quot(x, d) == x / d && Rem(x, d) == x % d
  {
    if x >= d {
      QuotRemAreDivMod(x - d, d);
      DivModShift(x - d, d);
    }
  }

  lemma DivModShift(x: nat, d: nat)
    requires d > 0
    ensures (x + d) / d == x / d + 1 && (x + d) % d == x % d
  {
    DivModUnique(x + d, d, x / d + 1, x % d);
  }

  lemma ScaleLe(a: int, b: int, p: int)
    requires p > 0
    ensures a <= b <==> a * p <= b * p
  {
    var e := b - a;
    assert e * p == b * p - a * p;
    assert e >= 0 ==> e * p >= 0;
    assert e <= -1 ==> e * p <= -1 * p;
  }

  lemma DivModUnique(x: int, d: nat, q: int, m: nat)
    requires d > 0 && x == q * d + m && m < d
    ensures x / d == q && x % d == m
  {
    var e := x / d - q;
    assert e * d == m - x % d;
    assert e >= 1 ==> e * d >= d;
    assert e <= -1 ==> e * d <= -1 * d;
  }

  lemma DivShift(v: int, p: nat, k: int)
    requires p > 0
    ensures (v + k * p) / p == v / p + k && (v + k * p) % p == v % p
  {
    var q, m := v / p, v % p;
    assert v + k * p == (q + k) * p + m;
    DivModUnique(v + k * p, p, q + k, m);
  }

  // A quotient is at least h exactly when the dividend reaches h divisors.
  lemma DivAtLeast(v: int, p: nat, h: int)
    requires p > 0
    ensures v / p >= h <==> v >= h * p
  {
    var q := v / p;
    assert v == q * p + v % p;
    ScaleLe(h, q, p);
    ScaleLe(h, q + 1, p);
    ScaleLe(q + 1, h, p);
    assert (q + 1) * p == q * p + p;
  }

  lemma RemainderBounds(v: nat, b: nat)
    requires b > 0
    ensures v % b < b && v % b <= v && (v < b ==> v % b == v)
  {
    if v < b {
      DivModUnique(v, b, 0, v);
    } else {
      DivAtLeast(v, b, 0);
      assert v / b * b + v % b == v;
      ScaleLe(0, v / b, b);
    }
  }

  lemma {:induction false} TimesU16(q: nat, d: nat)
    requires d <= 0xFFFF
    ensures Times(q, d) <= q * 0xFFFF
  {
    if q > 0 {
      TimesU16(q - 1, d);
    }
  }

  // Going up by one either stays in the same quotient or starts the next.
  lemma {:induction false} QuotRemStep(x: nat, d: nat)
    requires d > 0
    ensures if Rem(x, d) + 1 < d then Quot(x + 1, d) == Quot(x, d) && Rem(x + 1, d) == Rem(x, d) + 1
            else Quot(x + 1, d) == Quot(x, d) + 1 && Rem(x + 1, d) == 0
  {
    if x >= d {
      QuotRemStep(x - d, d);
    }
  }

  lemma {:induction false} QuotBelow(x: nat, q: nat, d: nat)
    requires d > 0 && x < Times(q, d)
    ensures Quot(x, d) < q
  {
    if x >= d {
      QuotBelow(x - d, q - 1, d);
    }
  }

  lemma {:induction false} QuotRemOf(q: nat, d: nat, m: nat)
    requires m < d
    ensures Quot(Times(q, d) + m, d) == q && Rem(Times(q, d) + m, d) == m
  {
    if q > 0 {
      QuotRemOf(q - 1, d, m);
    }
  }

  lemma {:induction false} QuotRemOfTimes(q: nat, d: nat)
    requires d > 0
    ensures Quot(Times(q, d), d) == q && Rem(Times(q, d), d) == 0
  {
    if q > 0 {
      QuotRemOfTimes(q - 1, d);
    }
  }
}

// Bitwise operations on naturals, bit by bit, and powers of two.
module Bits {
  import opened Words
  import opened Arith

  function Pow2(n: nat): (p: nat)
    ensures p > 0
  {
    if n == 0 then 1 else 2 * Pow2(n - 1)
  }

  function Or(a: nat, b: nat): nat {
    if a == 0 then b
    else if b == 0 then a
    else (if a % 2 == 1 || b % 2 == 1 then 1 else 0) + 2 * Or(a / 2, b / 2)
  }

  function Bit(x: nat, i: nat): nat {
    x / Pow2(i) % 2
  }

  // The low `bits` bits of a 64-bit register, sign bit copied upwards.
  function SignExtend(value: u64, bits: nat): u64
    requires 1 <= bits <= 64
  {
    Pow2Monotone(bits, 64);
    Pow2Values();
    var low := value % Pow2(bits);
    if low >= Pow2(bits - 1) then Pow2(64) - Pow2(bits) + low else low
  }

  lemma OrZero(a: nat)
    ensures Or(a, 0) == a && Or(0, a) == a
  {
  }

  lemma {:induction false} OrHalves(a: nat, b: nat)
    ensures Or(a, b) / 2 == Or(a / 2, b / 2)
    ensures Or(a, b) % 2 == if a % 2 == 1 || b % 2 == 1 then 1 else 0
  {
    OrZero(a / 2);
    OrZero(b / 2);
  }

  function Halved(x: nat, k: nat): nat {
    if k == 0 then x else Halved(x / 2, k - 1)
  }

  lemma {:induction false} OrHalved(a: nat, b: nat, k: nat)
    ensures Halved(Or(a, b), k) == Or(Halved(a, k), Halved(b, k))
  {
    hide Or;
    if k > 0 {
      OrHalves(a, b);
      OrHalved(a / 2, b / 2, k - 1);
    }
  }

  lemma {:induction false} HalvedTwice(x: nat, j: nat, k: nat)
    ensures Halved(Halved(x, j), k) == Halved(x, j + k)
  {
    if j > 0 {
      HalvedTwice(x / 2, j - 1, k);
    }
  }

  lemma HalvedFew(x: nat)
    ensures Halved(x, 3) == x / 8 && Halved(x, 4) == x / 16
  {
    assert Halved(x, 3) == Halved(x / 2, 2) == Halved(x / 4, 1);
    assert Halved(x, 4) == Halved(x / 2, 3) == Halved(x / 4, 2) == Halved(x / 8, 1);
  }

  lemma HalvedMany(x: nat)
    ensures Halved(x, 8) == x / 0x100 && Halved(x, 15) == x / 0x8000 && Halved(x, 16) == x / 0x1_0000
  {
    hide Halved;
    HalvedFew(x);
    HalvedFew(x / 0x10);
    HalvedFew(x / 0x100);
    HalvedFew(x / 0x1000);
    HalvedTwice(x, 4, 4);
    HalvedTwice(x, 8, 4);
    HalvedTwice(x, 12, 3);
    HalvedTwice(x, 12, 4);
  }

  lemma HalfOfQuotient(x: nat, p: nat)
    requires p > 0
    ensures x / (2 * p) == x / 2 / p
  {
    hide *;
    var q, r, b := x / 2 / p, x / 2 % p, x % 2;
    assert x / 2 == q * p + r;
    DoubleProduct(p, q);
    DivModUnique(x, 2 * p, q, 2 * r + b);
  }

  lemma HalfOfRemainder(x: nat, p: nat)
    requires p > 0
    ensures x % (2 * p) / 2 == x / 2 % p && x % (2 * p) % 2 == x % 2
  {
    hide *;
    var q, r, b := x / 2 / p, x / 2 % p, x % 2;
    assert x / 2 == q * p + r;
    DoubleProduct(p, q);
    DivModUnique(x, 2 * p, q, 2 * r + b);
  }

  // Cutting leaves the bits below, and a shift moves them up.
  lemma {:induction false} CutBits(x: nat, n: nat, i: nat)
    requires i < n
    ensures Halved(x % Pow2(n), i) % 2 == Halved(x, i) % 2
  {
    hide Pow2;
    Pow2Step(n - 1);
    HalfOfRemainder(x, Pow2(n - 1));
    if i > 0 {
      CutBits(x / 2, n - 1, i - 1);
    }
  }

  lemma {:induction false} ShiftedBits(x: nat, n: nat, i: nat)
    ensures Halved(x * Pow2(n), i) % 2 == if i < n then 0 else Halved(x, i - n) % 2
  {
    hide Pow2;
    Pow2Step(0);
    if n > 0 {
      Pow2Step(n - 1);
      DoubleProduct(Pow2(n - 1), x);
      if i > 0 {
        ShiftedBits(x, n - 1, i - 1);
      }
    }
  }

  // Bit i of x is the last bit after i halvings.
  lemma {:induction false} BitIsHalved(x: nat, i: nat)
    ensures Bit(x, i) == Halved(x, i) % 2
  {
    hide Pow2;
    if i == 0 {
      Pow2Step(0);
    } else {
      Pow2Step(i - 1);
      HalfOfQuotient(x, Pow2(i - 1));
      BitIsHalved(x / 2, i - 1);
    }
  }

  // A bit of the disjunction is a bit of either.
  lemma OrBit(a: nat, b: nat, i: nat)
    ensures Bit(Or(a, b), i) == 1 <==> Bit(a, i) == 1 || Bit(b, i) == 1
  {
    hide Or, Halved, Bit;
    BitIsHalved(a, i);
    BitIsHalved(b, i);
    BitIsHalved(Or(a, b), i);
    OrHalved(a, b, i);
    OrHalves(Halved(a, i), Halved(b, i));
  }

  // The bits of a that are not in b.
  function AndNot(a: nat, b: nat): nat {
    if a == 0 then 0 else (if a % 2 == 1 && b % 2 == 0 then 1 else 0) + 2 * AndNot(a / 2, b / 2)
  }

  predicate BitsWithin(a: nat, b: nat, n: nat) {
    forall i :: 0 <= i < n ==> Bit(a, i) == 1 ==> Bit(b, i) == 1
  }

  lemma BitOfHalf(x: nat, i: nat)
    ensures Bit(x, 0) == x % 2 && Bit(x, i + 1) == Bit(x / 2, i)
  {
    hide Pow2;
    Pow2Step(0);
    BitIsHalved(x, i + 1);
    BitIsHalved(x / 2, i);
  }

  lemma WithinHalves(a: nat, b: nat, n: nat)
    ensures BitsWithin(a, b, n + 1) <==> (a % 2 == 1 ==> b % 2 == 1) && BitsWithin(a / 2, b / 2, n)
  {
    hide Bit;
    BitOfHalf(a, 0);
    BitOfHalf(b, 0);
    if BitsWithin(a, b, n + 1) {
      forall i | 0 <= i < n ensures Bit(a / 2, i) == 1 ==> Bit(b / 2, i) == 1 {
        BitOfHalf(a, i);
        BitOfHalf(b, i);
      }
    }
    if BitsWithin(a / 2, b / 2, n) {
      forall i | 0 < i < n + 1 ensures Bit(a, i) == 1 ==> Bit(b, i) == 1 {
        BitOfHalf(a, i - 1);
        BitOfHalf(b, i - 1);
      }
    }
  }

  // a and not b is nothing exactly when every bit of a is a bit of b.
  lemma {:induction false} NothingLeft(a: nat, b: nat, n: nat)
    requires a < Pow2(n)
    ensures AndNot(a, b) == 0 <==> BitsWithin(a, b, n)
  {
    hide BitsWithin;
    if n == 0 {
      assert BitsWithin(a, b, 0) by { WithinNone(a, b); }
    } else {
      NothingLeft(a / 2, b / 2, n - 1);
      WithinHalves(a, b, n - 1);
    }
  }

  lemma WithinNone(a: nat, b: nat)
    ensures BitsWithin(a, b, 0)
  {
  }

  lemma OrIsShort(a: u16, b: u16)
    ensures Or(a, b) < 0x1_0000
  {
    hide Or, Halved;
    HalvedMany(a);
    HalvedMany(b);
    HalvedMany(Or(a, b));
    OrHalved(a, b, 16);
    OrZero(0);
  }

  lemma Pow2Step(n: nat)
    ensures Pow2(0) == 1 && Pow2(n + 1) == 2 * Pow2(n)
  {
  }

  lemma DoubleProduct(p: nat, q: nat)
    ensures (2 * p) * q == 2 * (p * q) && q * (2 * p) == 2 * (q * p) && 1 * q == q
  {
  }

  lemma {:induction false} Pow2Add(m: nat, n: nat)
    ensures Pow2(m + n) == Pow2(m) * Pow2(n)
  {
    hide Pow2;
    Pow2Step(0);
    if m == 0 {
      DoubleProduct(0, Pow2(n));
    } else {
      Pow2Add(m - 1, n);
      Pow2Step(m - 1);
      Pow2Step(m - 1 + n);
      DoubleProduct(Pow2(m - 1), Pow2(n));
    }
  }

  lemma Pow2Values()
    ensures Pow2(8) == 0x100 && Pow2(16) == 0x1_0000 && Pow2(32) == 0x1_0000_0000
    ensures Pow2(30) == 0x4000_0000 && Pow2(31) == 0x8000_0000
    ensures Pow2(39) == 0x80_0000_0000 && Pow2(40) == 0x100_0000_0000
    ensures Pow2(64) == 0x1_0000_0000_0000_0000
  {
    hide Pow2;
    Pow2Step(0);
    Pow2Step(1);
    Pow2Add(2, 2);
    Pow2Add(4, 4);
    Pow2Add(8, 8);
    Pow2Add(16, 16);
    Pow2Add(32, 32);
    Pow2Add(32, 8);
    Pow2Step(30);
    Pow2Step(31);
    Pow2Step(39);
  }

  lemma {:induction false} Pow2Monotone(m: nat, n: nat)
    requires m <= n
    ensures Pow2(m) <= Pow2(n)
  {
    if m < n {
      Pow2Monotone(m, n - 1);
    }
  }
}
