// The streaming SHA-256 of the firmware maker, against FIPS 180-4.
module Sha256s {
  import opened Words
  import opened Arith

  type Byte = bv8
  type Word = bv32
  type Block = s: seq<Byte> | |s| == 64 witness seq(64, _ => 0)
  type Words64 = s: seq<Word> | |s| == 64 witness seq(64, _ => 0)

  // --- FIPS 180-4, section 4.1.2: the functions on words, rotations written out ---

  function Ch(x: Word, y: Word, z: Word): Word {
    (x & y) ^ (!x & z)
  }

  function Maj(x: Word, y: Word, z: Word): Word {
    (x & y) ^ (x & z) ^ (y & z)
  }

  function Sum0(x: Word): Word {
    ((x >> 2) | (x << 30)) ^ ((x >> 13) | (x << 19)) ^ ((x >> 22) | (x << 10))
  }

  function Sum1(x: Word): Word {
    ((x >> 6) | (x << 26)) ^ ((x >> 11) | (x << 21)) ^ ((x >> 25) | (x << 7))
  }

  function Sigma0(x: Word): Word {
    ((x >> 7) | (x << 25)) ^ ((x >> 18) | (x << 14)) ^ (x >> 3)
  }

  function Sigma1(x: Word): Word {
    ((x >> 17) | (x << 15)) ^ ((x >> 19) | (x << 13)) ^ (x >> 10)
  }

  // Section 4.2.2.
  const K: Words64 :=
    [0x428a2f98, 0x71374491, 0xb5c0fbcf, 0xe9b5dba5, 0x3956c25b, 0x59f111f1, 0x923f82a4, 0xab1c5ed5] +
    [0xd807aa98, 0x12835b01, 0x243185be, 0x550c7dc3, 0x72be5d74, 0x80deb1fe, 0x9bdc06a7, 0xc19bf174] +
    [0xe49b69c1, 0xefbe4786, 0x0fc19dc6, 0x240ca1cc, 0x2de92c6f, 0x4a7484aa, 0x5cb0a9dc, 0x76f988da] +
    [0x983e5152, 0xa831c66d, 0xb00327c8, 0xbf597fc7, 0xc6e00bf3, 0xd5a79147, 0x06ca6351, 0x14292967] +
    [0x27b70a85, 0x2e1b2138, 0x4d2c6dfc, 0x53380d13, 0x650a7354, 0x766a0abb, 0x81c2c92e, 0x92722c85] +
    [0xa2bfe8a1, 0xa81a664b, 0xc24b8b70, 0xc76c51a3, 0xd192e819, 0xd6990624, 0xf40e3585, 0x106aa070] +
    [0x19a4c116, 0x1e376c08, 0x2748774c, 0x34b0bcb5, 0x391c0cb3, 0x4ed8aa4a, 0x5b9cca4f, 0x682e6ff3] +
    [0x748f82ee, 0x78a5636f, 0x84c87814, 0x8cc70208, 0x90befffa, 0xa4506ceb, 0xbef9a3f7, 0xc67178f2]

  // The eight words of an intermediate hash value, or of the working variables.
  datatype Hash = Hash(a: Word, b: Word, c: Word, d: Word, e: Word, f: Word, g: Word, h: Word)

  // Section 5.3.3.
  const INITIAL := Hash(0x6a09e667, 0xbb67ae85, 0x3c6ef372, 0xa54ff53a, 0x510e527f, 0x9b05688c, 0x1f83d9ab, 0x5be0cd19)

  function BigEndian(b0: Byte, b1: Byte, b2: Byte, b3: Byte): Word {
    ((b0 as Word) << 24) | ((b1 as Word) << 16) | ((b2 as Word) << 8) | (b3 as Word)
  }

  function WordByte(w: Word, i: nat): Byte
    requires i < 4
  {
    ((w >> (24 - i * 8)) & 0xff) as Byte
  }

  // Addition modulo 2^32.
  function Add(x: Word, y: Word): Word {
    x + y
  }

  // Section 6.2.2, step 1: the message schedule.
  function Expanded(w2: Word, w7: Word, w15: Word, w16: Word): Word {
    Add(Add(Add(Sigma1(w2), w7), Sigma0(w15)), w16)
  }

  function Schedule(block: Block, t: nat): Word
    requires t < 64
  {
    if t < 16 then BigEndian(block[4 * t], block[4 * t + 1], block[4 * t + 2], block[4 * t + 3])
    else Expanded(Schedule(block, t - 2), Schedule(block, t - 7), Schedule(block, t - 15), Schedule(block, t - 16))
  }

  lemma ScheduleAt(block: Block, t: nat)
    requires t < 64
    ensures Schedule(block, t) ==
            if t < 16 then BigEndian(block[4 * t], block[4 * t + 1], block[4 * t + 2], block[4 * t + 3])
            else Expanded(Schedule(block, t - 2), Schedule(block, t - 7),
                          Schedule(block, t - 15), Schedule(block, t - 16))
  {
  }

  // Step 3: one round.
  function Round(v: Hash, k: Word, w: Word): Hash {
    var t1 := Add(Add(Add(Add(v.h, Sum1(v.e)), Ch(v.e, v.f, v.g)), k), w);
    var t2 := Add(Sum0(v.a), Maj(v.a, v.b, v.c));
    Hash(Add(t1, t2), v.a, v.b, v.c, Add(v.d, t1), v.e, v.f, v.g)
  }

  function Rounds(v: Hash, block: Block, n: nat): Hash
    requires n <= 64
  {
    if n == 0 then v else Round(Rounds(v, block, n - 1), K[n - 1], Schedule(block, n - 1))
  }

  // Step 4: the next intermediate hash value.
  function Sum(x: Hash, y: Hash): Hash {
    Hash(Add(x.a, y.a), Add(x.b, y.b), Add(x.c, y.c), Add(x.d, y.d),
         Add(x.e, y.e), Add(x.f, y.f), Add(x.g, y.g), Add(x.h, y.h))
  }

  function Compress(v: Hash, block: Block): Hash {
    Sum(v, Rounds(v, block, 64))
  }

  function HashBlocks(m: seq<Byte>, n: nat): Hash
    requires n * 64 <= |m|
  {
    if n == 0 then INITIAL else Compress(HashBlocks(m, n - 1), m[(n - 1) * 64..n * 64])
  }

  // Section 5.1.1: a one bit, the fewest zero bits that leave room for the
  // length, and the length in bits as 64 bits.
  function LengthByte(bits: nat, i: nat): Byte
    requires i < 8
  {
    var shifted := match i
      case 0 => bits / 0x100_0000_0000_0000
      case 1 => bits / 0x1_0000_0000_0000
      case 2 => bits / 0x100_0000_0000
      case 3 => bits / 0x1_0000_0000
      case 4 => bits / 0x100_0000
      case 5 => bits / 0x1_0000
      case 6 => bits / 0x100
      case 7 => bits;
    (shifted % 0x100) as Byte
  }

  function LengthField(bits: nat): (s: seq<Byte>)
    ensures |s| == 8
  {
    [LengthByte(bits, 0), LengthByte(bits, 1), LengthByte(bits, 2), LengthByte(bits, 3),
     LengthByte(bits, 4), LengthByte(bits, 5), LengthByte(bits, 6), LengthByte(bits, 7)]
  }

  function Zeros(n: nat): (s: seq<Byte>)
    ensures |s| == n
  {
    seq(n, _ => 0)
  }

  function ZeroBytes(length: nat): nat {
    (119 - length % 64) % 64
  }

  // The length field is the number of bits, its highest byte first.
  lemma LengthIsBigEndian(bits: nat)
    ensures LengthField(bits)[0] == (bits / 0x100_0000_0000_0000 % 0x100) as Byte
    ensures LengthField(bits)[1] == (bits / 0x1_0000_0000_0000 % 0x100) as Byte
    ensures LengthField(bits)[2] == (bits / 0x100_0000_0000 % 0x100) as Byte
    ensures LengthField(bits)[3] == (bits / 0x1_0000_0000 % 0x100) as Byte
    ensures LengthField(bits)[4] == (bits / 0x100_0000 % 0x100) as Byte
    ensures LengthField(bits)[5] == (bits / 0x1_0000 % 0x100) as Byte
    ensures LengthField(bits)[6] == (bits / 0x100 % 0x100) as Byte
    ensures LengthField(bits)[7] == (bits % 0x100) as Byte
  {
  }

  // The zero bytes are the fewest that fill up whole blocks.
  lemma ZeroBytesAreLeast(length: nat, k: nat)
    ensures (length + 1 + ZeroBytes(length) + 8) % 64 == 0
    ensures (length + 1 + k + 8) % 64 == 0 ==> ZeroBytes(length) <= k
  {
  }

  function Padded(m: seq<Byte>): seq<Byte> {
    m + [0x80] + Zeros(ZeroBytes(|m|)) + LengthField(|m| * 8)
  }

  function Words8(v: Hash): (s: seq<Word>)
    ensures |s| == 8
  {
    [v.a, v.b, v.c, v.d, v.e, v.f, v.g, v.h]
  }

  function Output(v: Hash): (s: seq<Byte>)
    ensures |s| == 32
  {
    seq(32, x requires 0 <= x < 32 => WordByte(Words8(v)[x / 4], x % 4))
  }

  // Section 6.2: the message digest.
  function Digest(m: seq<Byte>): (s: seq<Byte>)
    ensures |s| == 32
  {
    var p := Padded(m);
    Output(HashBlocks(p, |p| / 64))
  }

  // --- facts about blocks ---

  lemma {:induction false} HashPrefix(m: seq<Byte>, more: seq<Byte>, n: nat)
    requires n * 64 <= |m|
    ensures HashBlocks(m + more, n) == HashBlocks(m, n)
  {
    hide Compress;
    if n > 0 {
      HashPrefix(m, more, n - 1);
      assert (m + more)[(n - 1) * 64..n * 64] == m[(n - 1) * 64..n * 64];
    }
  }

  // A message cut before its last block.
  lemma HashLast(m: seq<Byte>, block: Block)
    requires |m| % 64 == 0
    ensures HashBlocks(m + block, (|m| + 64) / 64) == Compress(HashBlocks(m, |m| / 64), block)
  {
    hide Compress;
    var n := |m| / 64;
    HashPrefix(m, block, n);
    assert (m + block)[n * 64..(n + 1) * 64] == block;
  }

  // The truncated bit count has the same eight bytes.
  lemma LengthByteWraps(bits: nat, p: nat, k: nat)
    requires p > 0 && p * k * 0x100 == 0x1_0000_0000_0000_0000
    ensures bits % 0x1_0000_0000_0000_0000 / p % 0x100 == bits / p % 0x100
  {
    var q, r := bits / 0x1_0000_0000_0000_0000, bits % 0x1_0000_0000_0000_0000;
    var s := q * k * 0x100;
    assert s * p == q * (p * k * 0x100);
    DivShift(r, p, s);
    DivShift(r / p, 0x100, q * k);
  }

  lemma LengthByteSame(bits: nat, i: nat)
    requires i < 8
    ensures LengthByte(bits % 0x1_0000_0000_0000_0000, i) == LengthByte(bits, i)
  {
    match i
    case 0 => LengthByteWraps(bits, 0x100_0000_0000_0000, 1);
    case 1 => LengthByteWraps(bits, 0x1_0000_0000_0000, 0x100);
    case 2 => LengthByteWraps(bits, 0x100_0000_0000, 0x1_0000);
    case 3 => LengthByteWraps(bits, 0x1_0000_0000, 0x100_0000);
    case 4 => LengthByteWraps(bits, 0x100_0000, 0x1_0000_0000);
    case 5 => LengthByteWraps(bits, 0x1_0000, 0x100_0000_0000);
    case 6 => LengthByteWraps(bits, 0x100, 0x1_0000_0000_0000);
    case 7 => LengthByteWraps(bits, 1, 0x100_0000_0000_0000);
  }

  lemma LengthFieldWraps(bits: nat)
    ensures LengthField(bits % 0x1_0000_0000_0000_0000) == LengthField(bits)
  {
    hide LengthByte;
    forall i | 0 <= i < 8 ensures LengthByte(bits % 0x1_0000_0000_0000_0000, i) == LengthByte(bits, i) {
      LengthByteSame(bits, i);
    }
  }

  // --- the running context ---

  // The bytes of m that do not fill a block yet.
  function Rest(m: seq<Byte>): (r: seq<Byte>)
    ensures |r| == |m| % 64
  {
    m[|m| / 64 * 64..]
  }

  // --- one byte more, and the padding, in terms of blocks ---

  // The bytes of m that fill blocks.
  function Whole(m: seq<Byte>): (w: seq<Byte>)
    ensures |w| % 64 == 0 && |w| / 64 == |m| / 64
  {
    m[..|m| / 64 * 64]
  }

  lemma SplitWhole(m: seq<Byte>)
    ensures m == Whole(m) + Rest(m)
  {
  }

  lemma WholeAndRest(m: seq<Byte>)
    ensures m == Whole(m) + Rest(m)
    ensures HashBlocks(m, |m| / 64) == HashBlocks(Whole(m), |m| / 64)
  {
    hide Compress, HashBlocks, Whole, Rest;
    SplitWhole(m);
    HashPrefix(Whole(m), Rest(m), |m| / 64);
  }

  lemma Reassembled(whole: seq<Byte>, rest: seq<Byte>)
    requires |whole| % 64 == 0 && |rest| < 64
    ensures |whole + rest| / 64 == |whole| / 64 && |whole + rest| % 64 == |rest|
    ensures Rest(whole + rest) == rest
    ensures HashBlocks(whole + rest, |whole| / 64) == HashBlocks(whole, |whole| / 64)
  {
    hide Compress, HashBlocks;
    HashPrefix(whole, rest, |whole| / 64);
  }

  lemma Regroup(a: seq<Byte>, b: seq<Byte>, c: seq<Byte>)
    ensures a + b + c == a + (b + c)
  {
  }

  lemma OneByteMore(m: seq<Byte>, x: Byte)
    ensures |m| % 64 < 63 ==> Rest(m + [x]) == Rest(m) + [x]
    ensures |m| % 64 < 63 ==> HashBlocks(m + [x], |m + [x]| / 64) == HashBlocks(m, |m| / 64)
    ensures |m| % 64 == 63 ==> Rest(m + [x]) == []
    ensures |m| % 64 == 63 ==> HashBlocks(m + [x], |m + [x]| / 64) == Compress(HashBlocks(m, |m| / 64), Rest(m) + [x])
  {
    hide *;
    var whole, rest := Whole(m), Rest(m);
    WholeAndRest(m);
    Regroup(whole, rest, [x]);
    if |rest| < 63 {
      Reassembled(whole, rest + [x]);
    } else {
      HashLast(whole, rest + [x]);
      WholeBlocks(whole, rest + [x]);
    }
  }

  lemma WholeBlocks(whole: seq<Byte>, block: Block)
    requires |whole| % 64 == 0
    ensures Rest(whole + block) == [] && |whole + block| / 64 == (|whole| + 64) / 64
  {
  }

  // A block that starts with the rest of m, after the whole blocks of m.
  lemma HashTail(m: seq<Byte>, block: Block)
    ensures |Whole(m) + block| % 64 == 0 && |Whole(m) + block| / 64 == |m| / 64 + 1
    ensures HashBlocks(Whole(m) + block, |m| / 64 + 1) == Compress(HashBlocks(m, |m| / 64), block)
  {
    hide HashBlocks, Compress, Whole, Rest;
    WholeAndRest(m);
    HashLast(Whole(m), block);
    Division64(|Whole(m)|);
  }

  lemma Division64(n: nat)
    ensures (n + 64) % 64 == n % 64 && (n + 64) / 64 == n / 64 + 1
  {
  }

  function ShortBlock(m: seq<Byte>): Block
    requires |m| % 64 < 56
  {
    Rest(m) + [0x80] + Zeros(55 - |m| % 64) + LengthField(|m| * 8)
  }

  lemma ShortPadding(m: seq<Byte>)
    requires |m| % 64 < 56
    ensures Padded(m) == Whole(m) + ShortBlock(m)
  {
    hide HashBlocks, Compress, LengthField, Zeros, Whole, Rest;
    WholeAndRest(m);
    var w, r, z, l := Whole(m), Rest(m), Zeros(ZeroBytes(|m|)), LengthField(|m| * 8);
    assert w + r + [0x80] + z + l == w + (r + [0x80] + z + l);
  }

  lemma DigestShort(m: seq<Byte>)
    requires |m| % 64 < 56
    ensures Digest(m) == Output(Compress(HashBlocks(m, |m| / 64), ShortBlock(m)))
  {
    hide HashBlocks, Compress, Output, ShortBlock, Padded, Whole;
    ShortPadding(m);
    HashTail(m, ShortBlock(m));
  }

  function MarkedBlock(m: seq<Byte>): Block
    requires |m| % 64 >= 56
  {
    Rest(m) + [0x80] + Zeros(63 - |m| % 64)
  }

  function LengthBlock(m: seq<Byte>): Block {
    Zeros(56) + LengthField(|m| * 8)
  }

  lemma RegroupMarked(w: seq<Byte>, r: seq<Byte>, y: seq<Byte>, z: seq<Byte>, l: seq<Byte>)
    ensures w + r + [0x80] + (y + z) + l == w + (r + [0x80] + y) + (z + l)
  {
    assert w + (r + [0x80] + y) == w + r + [0x80] + y;
    Regroup(w + r + [0x80], y, z);
    Regroup(w + r + [0x80] + y, z, l);
  }

  lemma ZerosSplit(length: nat)
    requires length % 64 >= 56
    ensures Zeros(ZeroBytes(length)) == Zeros(63 - length % 64) + Zeros(56)
  {
  }

  lemma LongPadding(m: seq<Byte>)
    requires |m| % 64 >= 56
    ensures Padded(m) == Whole(m) + MarkedBlock(m) + LengthBlock(m)
  {
    hide ZeroBytes, HashBlocks, Compress, LengthField, Zeros, Whole, Rest;
    WholeAndRest(m);
    ZerosSplit(|m|);
    RegroupMarked(Whole(m), Rest(m), Zeros(63 - |m| % 64), Zeros(56), LengthField(|m| * 8));
  }

  lemma DigestLong(m: seq<Byte>)
    requires |m| % 64 >= 56
    ensures Digest(m) == Output(Compress(Compress(HashBlocks(m, |m| / 64), MarkedBlock(m)), LengthBlock(m)))
  {
    hide HashBlocks, Compress, Output, MarkedBlock, LengthBlock, Padded, Whole;
    LongPadding(m);
    HashTail(m, MarkedBlock(m));
    HashLast(Whole(m) + MarkedBlock(m), LengthBlock(m));
  }

  class Context {
    const data: array<Byte>
    var datalen: nat
    var bitlen: u64
    const state: array<Word>

    constructor ()
      ensures fresh(data) && fresh(state)
      ensures Absorbed([])
    {
      data := new Byte[64](_ => 0);
      state := new Word[8](_ => 0);
      datalen, bitlen := 0, 0;
      new;
      Init();
    }

    ghost predicate Shaped() {
      data.Length == 64 && state.Length == 8
    }

    function State(): Hash
      requires state.Length == 8
      reads state
    {
      Hash(state[0], state[1], state[2], state[3], state[4], state[5], state[6], state[7])
    }

    // Everything up to the last whole block of m is hashed, the rest buffered.
    ghost predicate Absorbed(m: seq<Byte>)
      reads this, data, state
    {
      && Shaped()
      && datalen == |m| % 64
      && data[..datalen] == Rest(m)
      && State() == HashBlocks(m, |m| / 64)
      && bitlen == |m| / 64 * 512 % 0x1_0000_0000_0000_0000
    }

    method Init()
      requires Shaped()
      modifies this, state
      ensures Absorbed([])
    {
      datalen, bitlen := 0, 0;
      state[0], state[1], state[2], state[3] := INITIAL.a, INITIAL.b, INITIAL.c, INITIAL.d;
      state[4], state[5], state[6], state[7] := INITIAL.e, INITIAL.f, INITIAL.g, INITIAL.h;
    }

    // The message schedule of the buffered block.
    method Prepare(m: array<Word>)
      requires Shaped() && m.Length == 64
      modifies m
      ensures forall t :: 0 <= t < 64 ==> m[t] == Schedule(data[..], t)
    {
      hide BigEndian, Expanded, Schedule;
      var i := 0;
      while i < 16
        invariant i <= 16 && forall t :: 0 <= t < i ==> m[t] == Schedule(data[..], t)
      {
        ScheduleAt(data[..], i);
        m[i] := BigEndian(data[4 * i], data[4 * i + 1], data[4 * i + 2], data[4 * i + 3]);
        i := i + 1;
      }
      while i < 64
        invariant 16 <= i <= 64 && forall t :: 0 <= t < i ==> m[t] == Schedule(data[..], t)
      {
        ScheduleAt(data[..], i);
        m[i] := Expanded(m[i - 2], m[i - 7], m[i - 15], m[i - 16]);
        i := i + 1;
      }
    }

    method Transform()
      requires Shaped()
      modifies state
      ensures State() == Compress(old(State()), data[..])
    {
      hide Schedule, Sum0, Sum1, Ch, Maj, Sum, Add, K;
      var m := new Word[64];
      Prepare(m);
      var a, b, c, d, e, f, g, h := state[0], state[1], state[2], state[3], state[4], state[5], state[6], state[7];
      var i := 0;
      while i < 64
        invariant i <= 64 && Hash(a, b, c, d, e, f, g, h) == Rounds(State(), data[..], i)
      {
        var t1 := Add(Add(Add(Add(h, Sum1(e)), Ch(e, f, g)), K[i]), m[i]);
        var t2 := Add(Sum0(a), Maj(a, b, c));
        h := g;
        g := f;
        f := e;
        e := Add(d, t1);
        d := c;
        c := b;
        b := a;
        a := Add(t1, t2);
        i := i + 1;
      }
      AddToState(Hash(a, b, c, d, e, f, g, h));
    }

    method AddToState(v: Hash)
      requires Shaped()
      modifies state
      ensures State() == Sum(old(State()), v)
    {
      hide Add;
      state[0] := Add(state[0], v.a);
      state[1] := Add(state[1], v.b);
      state[2] := Add(state[2], v.c);
      state[3] := Add(state[3], v.d);
      state[4] := Add(state[4], v.e);
      state[5] := Add(state[5], v.f);
      state[6] := Add(state[6], v.g);
      state[7] := Add(state[7], v.h);
    }

    // One turn of the loop in Update.
    method Absorb(x: Byte, ghost m: seq<Byte>)
      requires Absorbed(m)
      modifies this, data, state
      ensures Absorbed(m + [x])
    {
      hide HashBlocks, Compress, State, Rest;
      OneByteMore(m, x);
      CountBlocks(m, x);
      data[datalen] := x;
      datalen := datalen + 1;
      assert data[..datalen] == Rest(m) + [x];
      if datalen == 64 {
        assert data[..] == Rest(m) + [x];
        Transform();
        bitlen := (bitlen + 512) % 0x1_0000_0000_0000_0000;
        datalen := 0;
      }
    }

    // The index is 32 bits wide, so a chunk has to be shorter than 2^32 bytes.
    method Update(bytes: seq<Byte>, ghost m: seq<Byte>)
      requires Absorbed(m) && |bytes| < 0x1_0000_0000
      modifies this, data, state
      ensures Absorbed(m + bytes)
    {
      hide Absorbed;
      var i: u32 := 0;
      ghost var turns: nat := 0;
      assert m + bytes[..0] == m;
      while i < |bytes|
        invariant i <= |bytes| && Absorbed(m + bytes[..i])
        invariant i == turns == IndexAfter(turns)
        decreases |bytes| - i
      {
        assert m + bytes[..i] + [bytes[i]] == m + bytes[..i + 1];
        IndexWraps(turns + 1);
        i := Turn(bytes, i, m + bytes[..i], turns);
        turns := turns + 1;
      }
      assert bytes[..i] == bytes;
    }

    // One turn of that loop, on a chunk of any length.
    method Turn(bytes: seq<Byte>, i: u32, ghost m: seq<Byte>, ghost turns: nat) returns (next: u32)
      requires Absorbed(m) && i < |bytes| && i == IndexAfter(turns)
      modifies this, data, state
      ensures Absorbed(m + [bytes[i]]) && next == IndexAfter(turns + 1)
    {
      hide Absorbed;
      Absorb(bytes[i], m);
      next := (i + 1) % 0x1_0000_0000;
    }

    // The mark and the zeros after the buffered bytes.
    method Pad(end: nat)
      requires Shaped() && datalen < end <= 64
      modifies data
      ensures data[..end] == old(data[..datalen]) + [0x80] + Zeros(end - datalen - 1)
    {
      data[datalen] := 0x80;
      var i := datalen + 1;
      while i < end
        invariant datalen < i <= end
        invariant data[..i] == old(data[..datalen]) + [0x80] + Zeros(i - datalen - 1)
      {
        data[i] := 0x00;
        i := i + 1;
      }
    }

    method Clear()
      requires Shaped()
      modifies data
      ensures data[..56] == Zeros(56)
    {
      var i := 0;
      while i < 56
        invariant i <= 56 && data[..i] == Zeros(i)
      {
        data[i] := 0x00;
        i := i + 1;
      }
    }

    method WriteLength()
      requires Shaped()
      modifies data
      ensures data[..] == old(data[..56]) + LengthField(bitlen)
    {
      hide LengthByte, LengthField;
      ghost var s := data[..];
      data[63] := LengthByte(bitlen, 7);
      data[62] := LengthByte(bitlen, 6);
      data[61] := LengthByte(bitlen, 5);
      data[60] := LengthByte(bitlen, 4);
      data[59] := LengthByte(bitlen, 3);
      data[58] := LengthByte(bitlen, 2);
      data[57] := LengthByte(bitlen, 1);
      data[56] := LengthByte(bitlen, 0);
      LengthWritten(s, bitlen);
    }

    // Byte i of every word of the state.
    method EmitRow(hash: array<Byte>, i: nat)
      requires Shaped() && hash.Length == 32 && i < 4
      modifies hash
      ensures hash[..] == WithRow(old(hash[..]), State(), i)
    {
      hide WordByte;
      ghost var s := hash[..];
      hash[i] := WordByte(state[0], i);
      hash[i + 4] := WordByte(state[1], i);
      hash[i + 8] := WordByte(state[2], i);
      hash[i + 12] := WordByte(state[3], i);
      hash[i + 16] := WordByte(state[4], i);
      hash[i + 20] := WordByte(state[5], i);
      hash[i + 24] := WordByte(state[6], i);
      hash[i + 28] := WordByte(state[7], i);
    }

    method Emit(hash: array<Byte>)
      requires Shaped() && hash.Length == 32
      modifies hash
      ensures hash[..] == Output(State())
    {
      hide WordByte, WithRow, Output, State;
      ghost var v := State();
      var i := 0;
      while i < 4
        invariant i <= 4 && State() == v
        invariant forall x :: 0 <= x < 32 && x % 4 < i ==> hash[x] == Output(v)[x]
      {
        ghost var s := hash[..];
        EmitRow(hash, i);
        forall x | 0 <= x < 32 ensures hash[x] == if x % 4 == i then Output(v)[x] else s[x] {
          RowAt(s, v, i, x);
        }
        i := i + 1;
      }
    }

    method Final(hash: array<Byte>, ghost m: seq<Byte>)
      requires Absorbed(m) && hash.Length == 32 && hash != data
      modifies this, data, state, hash
      ensures hash[..] == Digest(m)
    {
      hide HashBlocks, Compress, State, Output, LengthField, Digest, Zeros;
      if datalen < 56 {
        Pad(56);
        assert data[..56] == Rest(m) + [0x80] + Zeros(55 - datalen);
      } else {
        Pad(64);
        assert data[..] == data[..64] == MarkedBlock(m);
        Transform();
        Clear();
      }
      bitlen := (bitlen + datalen * 8) % 0x1_0000_0000_0000_0000;
      TotalBits(m);
      WriteLength();
      Transform();
      Emit(hash);
      if |m| % 64 < 56 {
        DigestShort(m);
      } else {
        DigestLong(m);
      }
    }
  }

  // Byte i of four words, four apart from `at` on.
  function WithBytes(s: seq<Byte>, w0: Word, w1: Word, w2: Word, w3: Word, i: nat, at: nat): (t: seq<Byte>)
    requires |s| == 32 && i < 4 && at <= 16
    ensures |t| == 32
  {
    s[i + at := WordByte(w0, i)][i + at + 4 := WordByte(w1, i)]
     [i + at + 8 := WordByte(w2, i)][i + at + 12 := WordByte(w3, i)]
  }

  function WithRow(s: seq<Byte>, v: Hash, i: nat): (t: seq<Byte>)
    requires |s| == 32 && i < 4
    ensures |t| == 32
  {
    WithBytes(WithBytes(s, v.a, v.b, v.c, v.d, i, 0), v.e, v.f, v.g, v.h, i, 16)
  }

  lemma SameByte(j: nat, k: nat, p: nat, i: nat)
    requires k < 4 && i < 4
    ensures p * 4 + i == j * 4 + k <==> p == j && i == k
  {
  }

  lemma BytesAt(s: seq<Byte>, w0: Word, w1: Word, w2: Word, w3: Word, i: nat, at: nat, j: nat, k: nat)
    requires |s| == 32 && i < 4 && k < 4 && (at == 0 || at == 16) && j < 8
    ensures WithBytes(s, w0, w1, w2, w3, i, at)[j * 4 + k] ==
            if k != i || j < at / 4 || j >= at / 4 + 4 then s[j * 4 + k]
            else WordByte([w0, w1, w2, w3][j - at / 4], i)
  {
    hide WordByte;
    SameByte(j, k, at / 4, i);
    SameByte(j, k, at / 4 + 1, i);
    SameByte(j, k, at / 4 + 2, i);
    SameByte(j, k, at / 4 + 3, i);
  }

  lemma WordsAt(v: Hash, j: nat)
    requires j < 8
    ensures Words8(v)[j] == if j < 4 then [v.a, v.b, v.c, v.d][j] else [v.e, v.f, v.g, v.h][j - 4]
  {
  }

  lemma RowAt(s: seq<Byte>, v: Hash, i: nat, x: nat)
    requires |s| == 32 && i < 4 && x < 32
    ensures WithRow(s, v, i)[x] == if x % 4 == i then Output(v)[x] else s[x]
  {
    hide WordByte, Output, WithBytes, Words8;
    var j, k := x / 4, x % 4;
    BytesAt(s, v.a, v.b, v.c, v.d, i, 0, j, k);
    BytesAt(WithBytes(s, v.a, v.b, v.c, v.d, i, 0), v.e, v.f, v.g, v.h, i, 16, j, k);
    OutputAt(v, j, k);
    WordsAt(v, j);
    assert x == j * 4 + k;
  }

  lemma OutputAt(v: Hash, j: nat, i: nat)
    requires j < 8 && i < 4
    ensures Output(v)[j * 4 + i] == WordByte(Words8(v)[j], i)
  {
    hide WordByte, Words8;
  }

  lemma LengthWritten(s: seq<Byte>, bits: nat)
    requires |s| == 64
    ensures s[63 := LengthByte(bits, 7)][62 := LengthByte(bits, 6)]
             [61 := LengthByte(bits, 5)][60 := LengthByte(bits, 4)]
             [59 := LengthByte(bits, 3)][58 := LengthByte(bits, 2)]
             [57 := LengthByte(bits, 1)][56 := LengthByte(bits, 0)]
            == s[..56] + LengthField(bits)
  {
  }

  lemma NextLength(n: nat)
    ensures (n + 1) % 64 == (if n % 64 == 63 then 0 else n % 64 + 1)
    ensures (n + 1) / 64 == n / 64 + (if n % 64 == 63 then 1 else 0)
  {
    DivShift(n % 64 + 1, 64, n / 64);
  }

  lemma CountBlocks(m: seq<Byte>, x: Byte)
    ensures |m + [x]| % 64 == (if |m| % 64 == 63 then 0 else |m| % 64 + 1)
    ensures |m + [x]| / 64 == |m| / 64 + (if |m| % 64 == 63 then 1 else 0)
    ensures (|m| / 64 * 512 % 0x1_0000_0000_0000_0000 + 512) % 0x1_0000_0000_0000_0000 ==
            (|m| / 64 + 1) * 512 % 0x1_0000_0000_0000_0000
  {
    AddWrapped(|m| / 64 * 512, 512);
    assert (|m| / 64 + 1) * 512 == |m| / 64 * 512 + 512;
    NextLength(|m|);
  }

  lemma TotalBits(m: seq<Byte>)
    ensures (|m| / 64 * 512 % 0x1_0000_0000_0000_0000 + |m| % 64 * 8) % 0x1_0000_0000_0000_0000 ==
            |m| * 8 % 0x1_0000_0000_0000_0000
    ensures LengthField(|m| * 8 % 0x1_0000_0000_0000_0000) == LengthField(|m| * 8)
  {
    hide LengthField;
    LengthFieldWraps(|m| * 8);
    AddWrapped(|m| / 64 * 512, |m| % 64 * 8);
    assert |m| == |m| / 64 * 64 + |m| % 64;
  }

  lemma AddWrapped(x: nat, y: nat)
    ensures (x % 0x1_0000_0000_0000_0000 + y) % 0x1_0000_0000_0000_0000 == (x + y) % 0x1_0000_0000_0000_0000
  {
    DivShift(x % 0x1_0000_0000_0000_0000 + y, 0x1_0000_0000_0000_0000, x / 0x1_0000_0000_0000_0000);
  }

  function Flat(chunks: seq<seq<Byte>>): seq<Byte> {
    if chunks == [] then [] else Flat(chunks[..|chunks| - 1]) + chunks[|chunks| - 1]
  }

  // Any way of cutting a message into chunks gives its digest.
  method Sha256(chunks: seq<seq<Byte>>) returns (digest: seq<Byte>)
    requires forall i :: 0 <= i < |chunks| ==> |chunks[i]| < 0x1_0000_0000
    ensures digest == Digest(Flat(chunks))
  {
    var ctx := new Context();
    var i := 0;
    while i < |chunks|
      invariant i <= |chunks| && ctx.Absorbed(Flat(chunks[..i])) && fresh(ctx) && fresh(ctx.data) && fresh(ctx.state)
    {
      ctx.Update(chunks[i], Flat(chunks[..i]));
      assert chunks[..i + 1][..i] == chunks[..i];
      i := i + 1;
    }
    assert chunks[..i] == chunks;
    var hash := new Byte[32];
    ctx.Final(hash, Flat(chunks));
    digest := hash[..];
  }

  // --- the loop index of Update ---

  // Its value after n turns of the loop.
  function IndexAfter(n: nat): u32 {
    if n == 0 then 0 else (IndexAfter(n - 1) + 1) % 0x1_0000_0000
  }

  lemma WrapStep(n: nat)
    ensures (n % 0x1_0000_0000 + 1) % 0x1_0000_0000 == (n + 1) % 0x1_0000_0000
  {
    DivShift(n % 0x1_0000_0000 + 1, 0x1_0000_0000, n / 0x1_0000_0000);
  }

  lemma {:induction false} IndexWraps(n: nat)
    ensures IndexAfter(n) == n % 0x1_0000_0000
  {
    if n > 0 {
      IndexWraps(n - 1);
      WrapStep(n - 1);
    }
  }

  // The loop over a chunk ends if and only if the chunk is shorter than 2^32
  // bytes; a longer one wraps the index around for ever.
  lemma UpdateEndsExactly(length: nat)
    ensures (exists n :: IndexAfter(n) >= length) <==> length < 0x1_0000_0000
  {
    if length < 0x1_0000_0000 {
      IndexWraps(length);
      assert IndexAfter(length) >= length;
    }
  }
}
