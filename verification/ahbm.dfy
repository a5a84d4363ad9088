// The bus bridge to external memory: bursts of 8, 16 or 32-bit units.
module Ahbms {
  import opened Words
  import opened Arith
  import Bits

  const M32 := 0x1_0000_0000

  // External memory by bytes; unwritten bytes are zero.
  type Bytes = map<u32, u8>

  function ByteAt(mem: Bytes, address: u32): u8 {
    if address in mem then mem[address] else 0
  }

  function Plus(address: u32, n: nat): u32 {
    (address + n) % M32
  }

  // The calls made to the external write handlers.
  datatype ExtWrite = W8(address: u32, value8: u8) | W16(address: u32, value16: u16) | W32(address: u32, value32: u32)

  function Byte(value: u32, lane: nat): u8
    requires lane < 4
  {
    match lane
    case 0 => value % 0x100
    case 1 => value / 0x100 % 0x100
    case 2 => value / 0x1_0000 % 0x100
    case 3 => value / 0x100_0000
  }

  // Little endian, at the address and the ones after it.
  function Applied(mem: Bytes, w: ExtWrite): Bytes {
    match w
    case W8(a, v) => mem[a := v]
    case W16(a, v) => mem[a := v % 0x100][Plus(a, 1) := v / 0x100]
    case W32(a, v) => mem[a := Byte(v, 0)][Plus(a, 1) := Byte(v, 1)][Plus(a, 2) := Byte(v, 2)][Plus(a, 3) := Byte(v, 3)]
  }

  function AppliedAll(mem: Bytes, ws: seq<ExtWrite>): Bytes {
    if ws == [] then mem else Applied(AppliedAll(mem, ws[..|ws| - 1]), ws[|ws| - 1])
  }

  function Read16At(mem: Bytes, a: u32): u16 {
    ByteAt(mem, a) + ByteAt(mem, Plus(a, 1)) * 0x100
  }

  function Read32At(mem: Bytes, a: u32): u32 {
    ByteAt(mem, a) + ByteAt(mem, Plus(a, 1)) * 0x100 + ByteAt(mem, Plus(a, 2)) * 0x1_0000 +
        ByteAt(mem, Plus(a, 3)) * 0x100_0000
  }

  function BurstLength(burstSize: u16): (b: nat)
    ensures b > 0
  {
    if burstSize == 1 then 4 else if burstSize == 2 then 8 else 1
  }

  // Bytes per unit; an unknown unit size neither moves nor transfers.
  function UnitBytes(unitSize: u16): nat {
    match unitSize
    case 0 => 1
    case 1 => 2
    case 2 => 4
    case _ => 0
  }

  // The handler calls for one unit at `current`, which need not be aligned.
  function UnitWrite(unitSize: u16, current: u32, value: u32): seq<ExtWrite> {
    match unitSize
    case 0 => [W8(current, Byte(value, if current % 2 == 1 then 1 else 0))]
    case 1 =>
      var c0 := current - current % 2;
      if c0 >= current then [W16(c0, value % 0x1_0000)] else [W8(c0 + 1, Byte(value, 1))]
    case 2 =>
      var c0 := current - current % 4;
      if c0 >= current then [W32(c0, value)]
      else if c0 + 2 >= current then
        (if c0 + 1 >= current then [W8(c0 + 1, Byte(value, 1))] else []) + [W16(c0 + 2, value / 0x1_0000)]
      else [W8(c0 + 3, Byte(value, 3))]
    case _ => []
  }

  function ReadUnit(unitSize: u16, current: u32, mem: Bytes): u32 {
    match unitSize
    case 0 => if current % 2 == 1 then ByteAt(mem, current) * 0x100 else ByteAt(mem, current)
    case 1 => Read16At(mem, current - current % 2)
    case 2 => Read32At(mem, current - current % 4)
    case _ => 0
  }

  // Where unit j of a burst lies.
  function UnitAddress(unitSize: u16, start: u32, j: nat): u32 {
    Plus(start, j * UnitBytes(unitSize))
  }

  // All handler calls of a burst of `values` from `start`.
  function BurstWrites(unitSize: u16, start: u32, values: seq<u32>): seq<ExtWrite> {
    if values == [] then []
    else
      var n := |values| - 1;
      BurstWrites(unitSize, start, values[..n]) + UnitWrite(unitSize, UnitAddress(unitSize, start, n), values[n])
  }

  function BurstReads(unitSize: u16, start: u32, n: nat, mem: Bytes): (r: seq<u32>)
    ensures |r| == n
  {
    seq(n, j requires 0 <= j < n => ReadUnit(unitSize, UnitAddress(unitSize, start, j), mem))
  }

  // Write32 shifts the value down for an odd address.
  function WriteValue(address: u32, value: u32): u32 {
    if address % 2 == 1 then value / 0x1_0000 else value
  }

  // One channel and the external memory behind it. `writes` is every handler
  // call made so far.
  datatype Port = Port(unitSize: u16, burstSize: u16, queue: seq<u32>, start: u32, mem: Bytes, writes: seq<ExtWrite>)

  function Written(p: Port, address: u32, value: u32): Port {
    var start := if p.queue == [] then address else p.start;
    var queue := p.queue + [value];
    if |queue| < BurstLength(p.burstSize) then p.(queue := queue, start := start)
    else
      var ws := BurstWrites(p.unitSize, start, queue);
      p.(queue := [], start := start, mem := AppliedAll(p.mem, ws), writes := p.writes + ws)
  }

  function Filled(p: Port, address: u32): (q: Port)
    ensures q.queue != []
  {
    if p.queue == [] then p.(queue := BurstReads(p.unitSize, address, BurstLength(p.burstSize), p.mem)) else p
  }

  function ReadWord(p: Port, address: u32): (Port, u32) {
    var q := Filled(p, address);
    (q.(queue := q.queue[1..]), q.queue[0])
  }

  function Read16Half(address: u32, value: u32): u16 {
    if address % 2 == 0 then value % 0x1_0000 else value / 0x1_0000
  }

  // --- byte lanes ---

  // The lane of its aligned unit that an address selects.
  function Lane(unitSize: u16, a: u32): nat {
    if unitSize == 2 then a % 4 else a % 2
  }

  function UnitBase(unitSize: u16, a: u32): nat {
    match unitSize
    case 1 => a - a % 2
    case 2 => a - a % 4
    case _ => a
  }

  function Width(w: ExtWrite): nat {
    match w
    case W8(_, _) => 1
    case W16(_, _) => 2
    case W32(_, _) => 4
  }

  function WordOf(w: ExtWrite): u32 {
    match w
    case W8(_, v) => v
    case W16(_, v) => v
    case W32(_, v) => v
  }

  // A handler call changes the bytes from its address on, lowest byte first.
  lemma AppliedByte(mem: Bytes, w: ExtWrite, a: u32)
    requires w.address + Width(w) <= M32
    ensures ByteAt(Applied(mem, w), a) ==
            if w.address <= a < w.address + Width(w) then Byte(WordOf(w), a - w.address) else ByteAt(mem, a)
  {
  }

  lemma AppliedShort(mem: Bytes, ws: seq<ExtWrite>)
    ensures ws == [] ==> AppliedAll(mem, ws) == mem
    ensures |ws| == 1 ==> AppliedAll(mem, ws) == Applied(mem, ws[0])
    ensures |ws| == 2 ==> AppliedAll(mem, ws) == Applied(Applied(mem, ws[0]), ws[1])
  {
  }

  // Which bytes a unit write should change, and to what.
  function UnitByte(unitSize: u16, current: u32, value: u32, mem: Bytes, a: u32): u8 {
    if current <= a < UnitBase(unitSize, current) + UnitBytes(unitSize)
    then Byte(value, Lane(unitSize, a)) else ByteAt(mem, a)
  }

  lemma UnitWriteTouches8(current: u32, value: u32, mem: Bytes, a: u32)
    ensures ByteAt(AppliedAll(mem, UnitWrite(0, current, value)), a) == UnitByte(0, current, value, mem, a)
  {
  }

  lemma UnitWrite16Cases(current: u32, value: u32)
    ensures var c0 := current - current % 2;
            c0 + 2 <= M32 && c0 % 2 == 0 && UnitWrite(1, current, value) ==
            if current % 2 == 0 then [W16(c0, value % 0x1_0000)] else [W8(c0 + 1, Byte(value, 1))]
  {
    hide Byte;
  }

  lemma HalfOffset(c0: u32, a: u32)
    requires c0 % 2 == 0 && c0 <= a < c0 + 2
    ensures a % 2 == a - c0
  {
  }

  lemma UnitWriteTouches16(current: u32, value: u32, mem: Bytes, a: u32)
    ensures ByteAt(AppliedAll(mem, UnitWrite(1, current, value)), a) == UnitByte(1, current, value, mem, a)
  {
    hide UnitWrite, AppliedAll, Applied, ByteAt, Byte;
    var ws := UnitWrite(1, current, value);
    UnitWrite16Cases(current, value);
    AppliedShort(mem, ws);
    AppliedByte(mem, ws[0], a);
    ByteOfHalves(value);
    var c0 := current - current % 2;
    if c0 <= a < c0 + 2 {
      HalfOffset(c0, a);
    }
  }

  lemma ByteOfHalves(value: u32)
    ensures Byte(value % 0x1_0000, 0) == Byte(value, 0) && Byte(value % 0x1_0000, 1) == Byte(value, 1)
    ensures Byte(value / 0x1_0000, 0) == Byte(value, 2) && Byte(value / 0x1_0000, 1) == Byte(value, 3)
    ensures forall lane :: 0 <= lane < 4 ==> Byte(Byte(value, lane), 0) == Byte(value, lane)
  {
    var high, low := value / 0x1_0000, value % 0x1_0000;
    assert value == high * 0x1_0000 + low;
    assert low / 0x100 < 0x100 && value / 0x100 == high * 0x100 + low / 0x100;
    assert value / 0x100_0000 == high / 0x100;
  }

  // The handler calls of a 32-bit unit, by alignment.
  lemma UnitWrite32Cases(current: u32, value: u32)
    ensures var c0 := current - current % 4;
            c0 + 4 <= M32 && UnitWrite(2, current, value) ==
            if current % 4 == 0 then [W32(c0, value)]
            else if current % 4 == 1 then [W8(c0 + 1, Byte(value, 1)), W16(c0 + 2, value / 0x1_0000)]
            else if current % 4 == 2 then [W16(c0 + 2, value / 0x1_0000)]
            else [W8(c0 + 3, Byte(value, 3))]
  {
  }

  lemma LaneOffset(c0: u32, a: u32)
    requires c0 % 4 == 0 && c0 <= a < c0 + 4
    ensures a % 4 == a - c0
  {
  }

  lemma UnitWriteTouches32(current: u32, value: u32, mem: Bytes, a: u32)
    ensures ByteAt(AppliedAll(mem, UnitWrite(2, current, value)), a) == UnitByte(2, current, value, mem, a)
  {
    hide UnitWrite, AppliedAll, Applied, ByteAt, Byte;
    var ws := UnitWrite(2, current, value);
    AppliedShort(mem, ws);
    UnitWrite32Cases(current, value);
    ByteOfHalves(value);
    var c0 := current - current % 4;
    assert c0 % 4 == 0;
    if c0 <= a < c0 + 4 {
      LaneOffset(c0, a);
    }
    AppliedByte(mem, ws[0], a);
    if |ws| == 2 {
      AppliedByte(Applied(mem, ws[0]), ws[1], a);
    }
  }

  // A write of one unit changes exactly those bytes of the aligned unit that
  // lie at or above its address, each to its own lane of the value.
  lemma UnitWriteTouches(unitSize: u16, current: u32, value: u32, mem: Bytes, a: u32)
    requires unitSize <= 2
    ensures ByteAt(AppliedAll(mem, UnitWrite(unitSize, current, value)), a) ==
            UnitByte(unitSize, current, value, mem, a)
  {
    hide *;
    if unitSize == 0 {
      UnitWriteTouches8(current, value, mem, a);
    } else if unitSize == 1 {
      UnitWriteTouches16(current, value, mem, a);
    } else {
      UnitWriteTouches32(current, value, mem, a);
    }
  }

  // An 8-bit unit is one call, with the byte of the lane that the address selects.
  lemma UnitWrite8Cases(current: u32, value: u32)
    ensures UnitWrite(0, current, value) ==
            [W8(current, if current % 2 == 0 then value % 0x100 else value / 0x100 % 0x100)]
  {
  }

  lemma WordOfBytes(b0: u8, b1: u8, b2: u8, b3: u8)
    ensures var v: u32 := b0 + b1 * 0x100 + b2 * 0x1_0000 + b3 * 0x100_0000;
            Byte(v, 0) == b0 && Byte(v, 1) == b1 && Byte(v, 2) == b2 && Byte(v, 3) == b3
  {
    var v: u32 := b0 + b1 * 0x100 + b2 * 0x1_0000 + b3 * 0x100_0000;
    assert v / 0x100 == b1 + b2 * 0x100 + b3 * 0x1_0000;
    assert v / 0x1_0000 == b2 + b3 * 0x100;
    assert v / 0x100_0000 == b3;
  }

  lemma ReadBytes8(current: u32, mem: Bytes, k: nat)
    requires k < 4
    ensures Byte(ReadUnit(0, current, mem), k) == if k == current % 2 then ByteAt(mem, current) else 0
  {
    hide ByteAt, Byte;
    WordOfBytes(ByteAt(mem, current), 0, 0, 0);
    WordOfBytes(0, ByteAt(mem, current), 0, 0);
  }

  lemma ReadBytes16(current: u32, mem: Bytes, k: nat)
    requires k < 4
    ensures Byte(ReadUnit(1, current, mem), k) == if k < 2 then ByteAt(mem, current - current % 2 + k) else 0
  {
    hide ByteAt, Byte;
    var c := current - current % 2;
    assert c % 2 == 0 && Plus(c, 1) == c + 1;
    WordOfBytes(ByteAt(mem, c), ByteAt(mem, c + 1), 0, 0);
  }

  lemma NoWrap(c: u32)
    requires c % 4 == 0
    ensures c + 3 < M32 && Plus(c, 1) == c + 1 && Plus(c, 2) == c + 2 && Plus(c, 3) == c + 3
  {
  }

  lemma ReadBytes32(current: u32, mem: Bytes, k: nat)
    requires k < 4
    ensures Byte(ReadUnit(2, current, mem), k) == ByteAt(mem, current - current % 4 + k)
  {
    hide ByteAt, Byte, Plus;
    var c := current - current % 4;
    assert c % 4 == 0;
    NoWrap(c);
    WordOfBytes(ByteAt(mem, c), ByteAt(mem, c + 1), ByteAt(mem, c + 2), ByteAt(mem, c + 3));
  }

  // A unit read takes the bytes of its aligned unit, lowest address first; an
  // 8-bit one brings its byte in the lane of its address.
  lemma ReadUnitBytes(unitSize: u16, current: u32, mem: Bytes, k: nat)
    requires k < 4
    ensures var v := ReadUnit(unitSize, current, mem);
            Byte(v, k) ==
            if unitSize == 0 && k == current % 2 then ByteAt(mem, current)
            else if unitSize == 1 && k < 2 then ByteAt(mem, current - current % 2 + k)
            else if unitSize == 2 then ByteAt(mem, current - current % 4 + k)
            else 0
  {
    hide ByteAt, Byte, Read16At, Read32At;
    ReadBytes8(current, mem, k);
    ReadBytes16(current, mem, k);
    ReadBytes32(current, mem, k);
    WordOfBytes(0, 0, 0, 0);
  }

  // Reading back an aligned unit gives the value written, cut to the unit.
  lemma ReadAfterWrite(unitSize: u16, current: u32, value: u32, mem: Bytes, k: nat)
    requires unitSize <= 2 && current == UnitBase(unitSize, current) && k < 4
    ensures var v := ReadUnit(unitSize, current, AppliedAll(mem, UnitWrite(unitSize, current, value)));
            Byte(v, k) ==
            if (unitSize == 0 && k == current % 2) || (unitSize == 1 && k < 2) || unitSize == 2
            then Byte(value, k) else 0
  {
    hide AppliedAll, UnitWrite, ByteAt, Byte, ReadUnit;
    var after := AppliedAll(mem, UnitWrite(unitSize, current, value));
    ReadUnitBytes(unitSize, current, after, k);
    if (unitSize == 0 && k == current % 2) || (unitSize == 1 && k < 2) || unitSize == 2 {
      var a: u32 := if unitSize == 0 then current else if unitSize == 1 then current - current % 2 + k
                    else current - current % 4 + k;
      UnitWriteTouches(unitSize, current, value, mem, a);
      LaneOf(unitSize, current, k);
    }
  }

  lemma LaneOf(unitSize: u16, current: u32, k: nat)
    requires unitSize <= 2 && k < 4 && current == UnitBase(unitSize, current)
    ensures unitSize == 0 && k == current % 2 ==> Lane(0, current) == k
    ensures unitSize == 1 && k < 2 ==> Lane(1, current + k) == k
    ensures unitSize == 2 ==> current + k < M32 && Lane(2, current + k) == k
  {
    if unitSize == 1 && k < 2 {
      HalfOffset(current, current + k);
    } else if unitSize == 2 {
      LaneOffset(current, current + k);
    }
  }

  // The units of a burst follow one another, one, two or four bytes apart; a
  // unit of unknown size stays where it is. Bursts have 1, 4 or 8 units.
  lemma BurstShape(unitSize: u16, burstSize: u16, start: u32, j: nat)
    ensures UnitAddress(unitSize, start, j) ==
            (start + if unitSize == 0 then j else if unitSize == 1 then 2 * j else if unitSize == 2 then 4 * j else 0)
            % M32
    ensures BurstLength(burstSize) == if burstSize == 1 then 4 else if burstSize == 2 then 8 else 1
  {
  }

  // A mask serves the channels whose bits are set.
  lemma ServesIsBit(mask: u16, channel: nat)
    requires channel < 8
    ensures Serves(mask, channel) <==>
            mask / (if channel == 0 then 1 else if channel == 1 then 2 else if channel == 2 then 4
                    else if channel == 3 then 8 else if channel == 4 then 16 else if channel == 5 then 32
                    else if channel == 6 then 64 else 128) % 2 == 1
  {
    Bits.BitIsHalved(mask, channel);
    HalvedTable(mask);
  }

  lemma HalvedLess(x: nat)
    ensures Bits.Halved(x, 0) == x && Bits.Halved(x, 1) == x / 2 && Bits.Halved(x, 2) == x / 4
  {
    assert Bits.Halved(x, 2) == Bits.Halved(x / 2, 1);
  }

  lemma HalvedTable(x: nat)
    ensures Bits.Halved(x, 0) == x && Bits.Halved(x, 1) == x / 2 && Bits.Halved(x, 2) == x / 4
    ensures Bits.Halved(x, 3) == x / 8 && Bits.Halved(x, 4) == x / 16 && Bits.Halved(x, 5) == x / 32
    ensures Bits.Halved(x, 6) == x / 64 && Bits.Halved(x, 7) == x / 128
  {
    hide Bits.Halved;
    HalvedLess(x);
    HalvedLess(x / 16);
    Bits.HalvedFew(x);
    Bits.HalvedFew(x / 16);
    Bits.HalvedTwice(x, 4, 1);
    Bits.HalvedTwice(x, 4, 2);
    Bits.HalvedTwice(x, 4, 3);
  }

  // A 16-bit read takes the half of the word that its address selects, and a
  // 32-bit write at an odd address the upper half of its value.
  lemma HalvesMakeWord(even: u32, odd: u32, value: u32)
    requires even % 2 == 0 && odd % 2 == 1
    ensures value == Read16Half(even, value) + 0x1_0000 * Read16Half(odd, value)
    ensures WriteValue(even, value) == value && WriteValue(odd, value) == Read16Half(odd, value)
  {
  }

  // --- bursts ---

  datatype Request = Request(address: u32, value: u32)

  function WriteAll(p: Port, rs: seq<Request>): Port {
    if rs == [] then p else Written(WriteAll(p, rs[..|rs| - 1]), rs[|rs| - 1].address, rs[|rs| - 1].value)
  }

  function Values(rs: seq<Request>): (vs: seq<u32>)
    ensures |vs| == |rs|
  {
    seq(|rs|, i requires 0 <= i < |rs| => rs[i].value)
  }

  // The first `bursts` bursts of the requests: each starts at the address of
  // its first request and carries the values in order.
  function BurstLog(unitSize: u16, b: nat, rs: seq<Request>, bursts: nat): seq<ExtWrite>
    requires b > 0 && Times(bursts, b) <= |rs|
  {
    if bursts == 0 then []
    else
      var from := Times(bursts - 1, b);
      BurstLog(unitSize, b, rs, bursts - 1) + BurstWrites(unitSize, rs[from].address, Values(rs[from..from + b]))
  }

  lemma {:induction false} BurstLogPrefix(unitSize: u16, b: nat, rs: seq<Request>, more: seq<Request>, bursts: nat)
    requires b > 0 && Times(bursts, b) <= |rs|
    ensures BurstLog(unitSize, b, rs + more, bursts) == BurstLog(unitSize, b, rs, bursts)
  {
    hide BurstWrites, Values;
    if bursts > 0 {
      BurstLogPrefix(unitSize, b, rs, more, bursts - 1);
      SlicePrefix(rs, more, Times(bursts - 1, b), Times(bursts, b));
    }
  }

  lemma SlicePrefix(rs: seq<Request>, more: seq<Request>, from: nat, to: nat)
    requires from <= to <= |rs|
    ensures (rs + more)[from..to] == rs[from..to]
    ensures from < to ==> (rs + more)[from] == rs[from]
  {
  }

  lemma {:induction false} QuotTimes(n: nat, b: nat)
    requires b > 0
    ensures Times(Quot(n, b), b) + Rem(n, b) == n
  {
    if n >= b {
      QuotTimes(n - b, b);
      assert Quot(n, b) == Quot(n - b, b) + 1;
    }
  }

  // What a port looks like after all these requests, k whole bursts of them:
  // the bursts are written out, the rest wait.
  predicate SettledAt(p: Port, q: Port, rs: seq<Request>, b: nat, k: nat)
    requires b > 0 && Times(k, b) <= |rs|
  {
    var done := Times(k, b);
    && q.unitSize == p.unitSize && q.burstSize == p.burstSize
    && q.writes == p.writes + BurstLog(p.unitSize, b, rs, k)
    && q.mem == AppliedAll(p.mem, BurstLog(p.unitSize, b, rs, k))
    && q.queue == Values(rs[done..])
    && (done < |rs| ==> q.start == rs[done].address)
  }

  predicate Settled(p: Port, q: Port, rs: seq<Request>) {
    var b := BurstLength(p.burstSize);
    QuotTimes(|rs|, b);
    SettledAt(p, q, rs, b, Quot(|rs|, b))
  }

  lemma {:induction false} AppliedAppend(mem: Bytes, a: seq<ExtWrite>, b: seq<ExtWrite>)
    ensures AppliedAll(mem, a + b) == AppliedAll(AppliedAll(mem, a), b)
  {
    hide Applied;
    if b == [] {
      assert a + b == a;
    } else {
      AppliedAppend(mem, a, b[..|b| - 1]);
      assert (a + b)[..|a + b| - 1] == a + b[..|b| - 1];
    }
  }

  lemma SettledNothing(p: Port)
    requires p.queue == []
    ensures Settled(p, p, [])
  {
  }

  // One more request keeps the bursts so far and the waiting ones in place.
  lemma WaitingGrows(rs: seq<Request>, r: Request, done: nat)
    requires done <= |rs|
    ensures Values((rs + [r])[done..]) == Values(rs[done..]) + [r.value]
    ensures (rs + [r])[done].address == if done < |rs| then rs[done].address else r.address
    ensures Values((rs + [r])[|rs| + 1..]) == []
  {
  }

  lemma WrittenIs(q: Port, r: Request)
    ensures var start := if q.queue == [] then r.address else q.start;
            var queue := q.queue + [r.value];
            Written(q, r.address, r.value) ==
            if |queue| < BurstLength(q.burstSize) then q.(queue := queue, start := start)
            else
              var ws := BurstWrites(q.unitSize, start, queue);
              q.(queue := [], start := start, mem := AppliedAll(q.mem, ws), writes := q.writes + ws)
  {
  }

  lemma NextBurst(unitSize: u16, b: nat, rs: seq<Request>, k: nat)
    requires b > 0 && Times(k + 1, b) == |rs|
    ensures BurstLog(unitSize, b, rs, k + 1) ==
            BurstLog(unitSize, b, rs, k) + BurstWrites(unitSize, rs[Times(k, b)].address, Values(rs[Times(k, b)..]))
  {
    hide BurstWrites, Values;
    assert rs[Times(k, b)..Times(k, b) + b] == rs[Times(k, b)..];
  }

  lemma OneMoreWaits(p: Port, q: Port, rs: seq<Request>, r: Request, b: nat, k: nat)
    requires b == BurstLength(p.burstSize) && Times(k, b) <= |rs| && |rs| + 1 < Times(k + 1, b)
    requires SettledAt(p, q, rs, b, k)
    ensures SettledAt(p, Written(q, r.address, r.value), rs + [r], b, k)
  {
    hide BurstWrites, AppliedAll, Applied, BurstLength, Written, Values, BurstLog;
    BurstLogPrefix(p.unitSize, b, rs, [r], k);
    WaitingGrows(rs, r, Times(k, b));
    WrittenIs(q, r);
  }

  lemma OneMoreBurst(p: Port, q: Port, rs: seq<Request>, r: Request, b: nat, k: nat)
    requires b == BurstLength(p.burstSize) && Times(k, b) <= |rs| && |rs| + 1 == Times(k + 1, b)
    requires SettledAt(p, q, rs, b, k)
    ensures SettledAt(p, Written(q, r.address, r.value), rs + [r], b, k + 1)
  {
    hide BurstWrites, AppliedAll, Applied, BurstLength, Written, Values, BurstLog;
    var all := rs + [r];
    BurstLogPrefix(p.unitSize, b, rs, [r], k);
    WaitingGrows(rs, r, Times(k, b));
    WrittenIs(q, r);
    NextBurst(p.unitSize, b, all, k);
    var ws := BurstWrites(p.unitSize, all[Times(k, b)].address, Values(all[Times(k, b)..]));
    AppliedAppend(p.mem, BurstLog(p.unitSize, b, rs, k), ws);
    assert (p.writes + BurstLog(p.unitSize, b, rs, k)) + ws == p.writes + (BurstLog(p.unitSize, b, rs, k) + ws);
  }

  lemma SettledStep(p: Port, q: Port, rs: seq<Request>, r: Request)
    requires Settled(p, q, rs)
    ensures Settled(p, Written(q, r.address, r.value), rs + [r])
  {
    hide Quot, Rem, BurstLength, Written, SettledAt;
    var b, n := BurstLength(p.burstSize), |rs|;
    QuotTimes(n, b);
    QuotTimes(n + 1, b);
    QuotRemStep(n, b);
    if Rem(n, b) + 1 == b {
      OneMoreBurst(p, q, rs, r, b, Quot(n, b));
    } else {
      OneMoreWaits(p, q, rs, r, b, Quot(n, b));
    }
  }

  // After N writes on an empty queue, the first floor(N / B) bursts have
  // reached external memory in order and the last N mod B values wait:
  // nothing is lost, repeated or reordered.
  lemma {:induction false} WritesSettle(p: Port, rs: seq<Request>)
    requires p.queue == []
    ensures Settled(p, WriteAll(p, rs), rs)
  {
    hide Settled, Written;
    if rs == [] {
      SettledNothing(p);
    } else {
      var front := rs[..|rs| - 1];
      WritesSettle(p, front);
      SettledStep(p, WriteAll(p, front), front, rs[|rs| - 1]);
      assert front + [rs[|rs| - 1]] == rs;
    }
  }

  // --- reads ---

  function ReadAll(p: Port, addresses: seq<u32>): (Port, seq<u32>) {
    if addresses == [] then (p, [])
    else
      var n := |addresses| - 1;
      var (q, vs) := ReadAll(p, addresses[..n]);
      var (r, v) := ReadWord(q, addresses[n]);
      (r, vs + [v])
  }

  // Read i belongs to the burst that read `i - i mod B` started; only that
  // read's address matters.
  function ReadValue(p: Port, addresses: seq<u32>, i: nat): u32
    requires i < |addresses|
  {
    var b := BurstLength(p.burstSize);
    QuotTimes(i, b);
    ReadUnit(p.unitSize, UnitAddress(p.unitSize, addresses[Times(Quot(i, b), b)], Rem(i, b)), p.mem)
  }

  // The values still prefetched after n reads.
  predicate Prefetched(p: Port, q: Port, addresses: seq<u32>) {
    var b, n := BurstLength(p.burstSize), |addresses|;
    QuotTimes(n, b);
    && q == p.(queue := q.queue)
    && if Rem(n, b) == 0 then q.queue == []
       else q.queue == BurstReads(p.unitSize, addresses[Times(Quot(n, b), b)], b, p.mem)[Rem(n, b)..]
  }

  lemma PrefetchStep(p: Port, q: Port, addresses: seq<u32>, a: u32)
    requires Prefetched(p, q, addresses)
    ensures Prefetched(p, ReadWord(q, a).0, addresses + [a])
    ensures ReadWord(q, a).1 == ReadValue(p, addresses + [a], |addresses|)
  {
    hide ReadUnit, UnitAddress, Quot, Rem, BurstLength;
    var b, n := BurstLength(p.burstSize), |addresses|;
    var all := addresses + [a];
    QuotTimes(n, b);
    QuotTimes(n + 1, b);
    QuotRemStep(n, b);
    var start := all[Times(Quot(n, b), b)];
    var burst := BurstReads(p.unitSize, start, b, p.mem);
    assert Filled(q, a).queue == burst[Rem(n, b)..];
    assert burst[Rem(n, b)..][1..] == burst[Rem(n, b) + 1..];
  }

  lemma ReadAllLast(p: Port, front: seq<u32>, a: u32)
    ensures var (q, vs) := ReadAll(p, front);
            ReadAll(p, front + [a]) == (ReadWord(q, a).0, vs + [ReadWord(q, a).1])
  {
  }

  lemma {:induction false} ReadsPrefetch(p: Port, addresses: seq<u32>)
    requires p.queue == []
    ensures Prefetched(p, ReadAll(p, addresses).0, addresses) && |ReadAll(p, addresses).1| == |addresses|
  {
    if addresses == [] {
      NothingPrefetched(p);
    } else {
      var n := |addresses| - 1;
      assert addresses[..n] + [addresses[n]] == addresses;
      ReadsPrefetch(p, addresses[..n]);
      ReadAllLast(p, addresses[..n], addresses[n]);
      PrefetchStep(p, ReadAll(p, addresses[..n]).0, addresses[..n], addresses[n]);
    }
  }

  // With external memory left alone, N reads on an empty queue return the
  // units of consecutive bursts, one after the other.
  lemma {:induction false} ReadsFollowBursts(p: Port, addresses: seq<u32>, i: nat)
    requires p.queue == [] && i < |addresses|
    ensures |ReadAll(p, addresses).1| == |addresses|
    ensures ReadAll(p, addresses).1[i] == ReadValue(p, addresses, i)
  {
    hide *;
    var n := |addresses| - 1;
    var front := addresses[..n];
    assert front + [addresses[n]] == addresses;
    ReadsPrefetch(p, addresses);
    ReadsPrefetch(p, front);
    ReadAllLast(p, front, addresses[n]);
    if i < n {
      ReadsFollowBursts(p, front, i);
      ReadValuePrefix(p, front, addresses[n], i);
    } else {
      PrefetchStep(p, ReadAll(p, front).0, front, addresses[n]);
    }
  }

  lemma NothingPrefetched(p: Port)
    requires p.queue == []
    ensures Prefetched(p, p, [])
  {
  }

  lemma ReadValuePrefix(p: Port, front: seq<u32>, a: u32, i: nat)
    requires i < |front|
    ensures ReadValue(p, front + [a], i) == ReadValue(p, front, i)
  {
    hide ReadUnit, UnitAddress;
    QuotTimes(i, BurstLength(p.burstSize));
  }

  // --- the objects ---

  class ExternalMemory {
    var bytes: Bytes
    ghost var writes: seq<ExtWrite>

    constructor ()
    {
      bytes, writes := map[], [];
    }

    method Write(w: ExtWrite)
      modifies this
      ensures bytes == Applied(old(bytes), w) && writes == old(writes) + [w]
    {
      bytes := Applied(bytes, w);
      writes := writes + [w];
    }
  }

  class AhbmChannel {
    const external: ExternalMemory
    var unitSize: u16
    var burstSize: u16
    var dmaChannel: u16
    var burstQueue: seq<u32>
    var writeBurstStart: u32

    constructor (external: ExternalMemory)
      ensures this.external == external && burstQueue == []
    {
      this.external := external;
      unitSize, burstSize, dmaChannel, burstQueue, writeBurstStart := 0, 0, 0, [], 0;
    }

    ghost function State(): Port
      reads this, external
    {
      Port(unitSize, burstSize, burstQueue, writeBurstStart, external.bytes, external.writes)
    }

    method GetBurstSize() returns (size: nat)
      ensures size == BurstLength(burstSize)
    {
      match burstSize
      case 0 => return 1;
      case 1 => return 4;
      case 2 => return 8;
      case _ => return 1;
    }

    // One unit to external memory, touching only the bytes from `current` on.
    method WriteUnit(current: u32, value: u32)
      modifies external
      ensures external.bytes == AppliedAll(old(external.bytes), UnitWrite(unitSize, current, value))
      ensures external.writes == old(external.writes) + UnitWrite(unitSize, current, value)
    {
      hide Applied, AppliedAll, Byte;
      ghost var ws := UnitWrite(unitSize, current, value);
      AppliedShort(external.bytes, ws);
      match unitSize
      case 0 =>
        external.Write(W8(current, if current % 2 == 1 then Byte(value, 1) else Byte(value, 0)));
      case 1 =>
        var c0 := current - current % 2;
        if c0 >= current {
          external.Write(W16(c0, value % 0x1_0000));
        } else {
          external.Write(W8(c0 + 1, Byte(value, 1)));
        }
      case 2 =>
        var c0 := current - current % 4;
        if c0 >= current {
          external.Write(W32(c0, value));
        } else if c0 + 2 >= current {
          if c0 + 1 >= current {
            external.Write(W8(c0 + 1, Byte(value, 1)));
          }
          external.Write(W16(c0 + 2, value / 0x1_0000));
        } else {
          external.Write(W8(c0 + 3, Byte(value, 3)));
        }
      case _ =>
    }

    // The inner loop: the whole queue goes out, unit after unit.
    method DrainBurst()
      modifies this`burstQueue, external
      ensures burstQueue == []
      ensures external.bytes == AppliedAll(old(external.bytes), BurstWrites(unitSize, writeBurstStart, old(burstQueue)))
      ensures external.writes == old(external.writes) + BurstWrites(unitSize, writeBurstStart, old(burstQueue))
    {
      hide AppliedAll, BurstWrites, UnitWrite, UnitAddress, UnitBytes, Plus;
      ghost var queue, done: nat := burstQueue, 0;
      var current := writeBurstStart;
      NextUnit(unitSize, writeBurstStart, 0);
      EmptyBurst(unitSize, writeBurstStart, external.bytes);
      while burstQueue != []
        invariant done <= |queue| && burstQueue == queue[done..]
        invariant current == UnitAddress(unitSize, writeBurstStart, done)
        invariant external.bytes ==
                AppliedAll(old(external.bytes), BurstWrites(unitSize, writeBurstStart, queue[..done]))
        invariant external.writes == old(external.writes) + BurstWrites(unitSize, writeBurstStart, queue[..done])
        decreases |burstQueue|
      {
        BurstGrows(unitSize, writeBurstStart, queue, done, old(external.bytes));
        var value32 := burstQueue[0];
        burstQueue := burstQueue[1..];
        WriteUnit(current, value32);
        current := Plus(current, UnitBytes(unitSize));
        done := done + 1;
      }
      assert queue[..done] == queue;
    }

    method WriteInternal(address: u32, value: u32)
      modifies this, external
      ensures State() == Written(old(State()), address, value)
      ensures dmaChannel == old(dmaChannel)
    {
      hide AppliedAll, BurstWrites;
      if burstQueue == [] {
        writeBurstStart := address;
      }
      burstQueue := burstQueue + [value];
      var size := GetBurstSize();
      if |burstQueue| >= size {
        DrainBurst();
      }
    }

    method Write16(address: u32, value: u16)
      modifies this, external
      ensures State() == Written(old(State()), address, value)
      ensures dmaChannel == old(dmaChannel)
    {
      WriteInternal(address, value);
    }

    method Write32(address: u32, value: u32)
      modifies this, external
      ensures State() == Written(old(State()), address, WriteValue(address, value))
      ensures dmaChannel == old(dmaChannel)
    {
      var v := value;
      if address % 2 == 1 {
        v := v / 0x1_0000;
      }
      WriteInternal(address, v);
    }

    method Read32(address: u32) returns (value: u32)
      modifies this
      ensures (State(), value) == ReadWord(old(State()), address)
      ensures dmaChannel == old(dmaChannel)
    {
      hide ReadUnit, UnitAddress, UnitBytes, BurstLength;
      if burstQueue == [] {
        var current := address;
        var size := GetBurstSize();
        NextUnit(unitSize, address, 0);
        for i := 0 to size
          invariant unitSize == old(unitSize) && burstSize == old(burstSize) && dmaChannel == old(dmaChannel)
          invariant writeBurstStart == old(writeBurstStart)
          invariant current == UnitAddress(unitSize, address, i)
          invariant burstQueue == BurstReads(unitSize, address, i, external.bytes)
        {
          burstQueue := burstQueue + [ReadUnit(unitSize, current, external.bytes)];
          NextUnit(unitSize, address, i);
          current := Plus(current, UnitBytes(unitSize));
        }
      }
      value := burstQueue[0];
      burstQueue := burstQueue[1..];
    }

    method Read16(address: u32) returns (value: u16)
      modifies this
      ensures State() == ReadWord(old(State()), address).0
      ensures value == Read16Half(address, ReadWord(old(State()), address).1)
      ensures dmaChannel == old(dmaChannel)
    {
      hide ReadWord;
      var value32 := Read32(address);
      if address % 2 == 0 {
        value := value32 % 0x1_0000;
      } else {
        value := value32 / 0x1_0000;
      }
    }
  }

  lemma NextUnit(unitSize: u16, start: u32, j: nat)
    ensures UnitAddress(unitSize, start, 0) == start
    ensures Plus(UnitAddress(unitSize, start, j), UnitBytes(unitSize)) == UnitAddress(unitSize, start, j + 1)
  {
  }

  lemma EmptyBurst(unitSize: u16, start: u32, mem: Bytes)
    ensures BurstWrites(unitSize, start, []) == [] && AppliedAll(mem, []) == mem
  {
  }

  lemma BurstGrows(unitSize: u16, start: u32, queue: seq<u32>, done: nat, mem: Bytes)
    requires done < |queue|
    ensures Plus(UnitAddress(unitSize, start, done), UnitBytes(unitSize)) == UnitAddress(unitSize, start, done + 1)
    ensures var ws := UnitWrite(unitSize, UnitAddress(unitSize, start, done), queue[done]);
            var before := BurstWrites(unitSize, start, queue[..done]);
            && BurstWrites(unitSize, start, queue[..done + 1]) == before + ws
            && AppliedAll(mem, before + ws) == AppliedAll(AppliedAll(mem, before), ws)
  {
    hide UnitWrite, Applied;
    NextUnit(unitSize, start, done);
    assert queue[..done + 1][..done] == queue[..done];
    AppliedAppend(mem, BurstWrites(unitSize, start, queue[..done]),
                  UnitWrite(unitSize, UnitAddress(unitSize, start, done), queue[done]));
  }

  // The first of the three masks that names the DMA channel, or the first one.
  function ChannelFor(m0: u16, m1: u16, m2: u16, dmaChannel: nat): (channel: nat)
    ensures channel < 3
  {
    if Serves(m0, dmaChannel) then 0 else if Serves(m1, dmaChannel) then 1 else if Serves(m2, dmaChannel) then 2 else 0
  }

  // The first bridge channel whose mask names the DMA channel; channel 0 if none does.
  method GetChannelForDma(channels: seq<AhbmChannel>, dmaChannel: nat) returns (channel: nat)
    requires |channels| == 3 && dmaChannel < 8
    ensures channel < 3
    ensures Serves(channels[channel].dmaChannel, dmaChannel) ||
            (channel == 0 && forall i :: 0 <= i < 3 ==> !Serves(channels[i].dmaChannel, dmaChannel))
    ensures forall i :: 0 <= i < channel ==> !Serves(channels[i].dmaChannel, dmaChannel)
    ensures channel == ChannelFor(channels[0].dmaChannel, channels[1].dmaChannel, channels[2].dmaChannel, dmaChannel)
  {
    for i := 0 to 3
      invariant forall j :: 0 <= j < i ==> !Serves(channels[j].dmaChannel, dmaChannel)
    {
      if Serves(channels[i].dmaChannel, dmaChannel) {
        return i;
      }
    }
    return 0;
  }

  predicate Serves(mask: u16, dmaChannel: nat) {
    Bits.Bit(mask, dmaChannel) == 1
  }
}
