// The register file, grouped by unit, and the word-addressed memory.
module Registers {
  import opened Words
  import opened Bits

  type Bits2 = s: seq<bool> | |s| == 2 witness [false, false]
  type Bits3 = s: seq<bool> | |s| == 3 witness [false, false, false]
  type Bits8 = s: seq<bool> | |s| == 8 witness [false, false, false, false, false, false, false, false]
  type Pair16 = s: seq<u16> | |s| == 2 witness [0, 0]

  // One level of a block repeat: first word, last word, remaining repeats.
  datatype Frame = Frame(start: u32, end: u32, lc: u16)

  datatype ProgramUnitFields = ProgramUnit(
    pc: u32,
    prpage: u16,
    cpc: bool,
    rep: bool,
    repc: u16,
    repcs: u16,
    crep: bool,
    lp: bool,
    bcn: nat,
    stack: seq<Frame>
  ) {
    predicate Valid() {
      && |stack| == 4
      && bcn <= 4
      && (lp <==> bcn > 0)
    }
  }

  const NO_FRAME := Frame(0, 0, 0)

  // The loop bit is set exactly when a frame is live, and four frames suffice.
  type ProgramUnit = p: ProgramUnitFields | p.Valid()
    witness ProgramUnitFields.ProgramUnit(0, 0, true, false, 0, 0, true, false, 0,
                                          [NO_FRAME, NO_FRAME, NO_FRAME, NO_FRAME])

  // The ten one-bit arithmetic flags that a context switch saves.
  datatype Flags = Flags(
    fz: bool, fm: bool, fn: bool, fv: bool, fe: bool,
    fc0: bool, fc1: bool, flm: bool, fvl: bool, fr: bool
  )

  // The registers of which a context switch exchanges two whole banks.
  datatype Banked = Banked(
    pcmhi: u16, sat: bool, sata: bool, hwm: u16, s: bool, ps: Pair16, page: u16, stp16: bool, cmd: bool,
    m: Bits8, br: Bits8, im: Bits3, imv: bool, epi: bool, epj: bool
  )

  // One ar or arp register: register numbers, steps and offsets of its two halves.
  datatype Indirect = Indirect(rni: u16, rnj: u16, stepi: u16, stepj: u16, offseti: u16, offsetj: u16)

  const NO_INDIRECT := Indirect(0, 0, 0, 0, 0, 0)

  type Ar = s: seq<Indirect> | |s| == 2 witness [NO_INDIRECT, NO_INDIRECT]
  type Arp = s: seq<Indirect> | |s| == 4 witness [NO_INDIRECT, NO_INDIRECT, NO_INDIRECT, NO_INDIRECT]

  // `general` holds the registers that the control hardware never looks at.
  datatype RegisterState = RegisterState(
    prog: ProgramUnit,
    flags: Flags,
    banked: Banked,
    ar: Ar,
    arp: Arp,
    a0: u64, a1: u64, b0: u64, b1: u64,
    ccnta: bool,
    sp: u16,
    ie: bool, ip: Bits3, ipv: bool, ic: Bits3, iu: Bits2,
    general: seq<u16>,
    shadowFlags: Flags,
    shadowBanked: Banked,
    shadowAr: Ar,
    shadowArp: Arp,
    a1s: u64, b1s: u64
  )

  datatype Cond =
    | True | Eq | Neq | Gt | Ge | Lt | Le | Nn | C | V | E | L | Nr | Niu0 | Iu0 | Iu1

  predicate ConditionPass(cond: Cond, f: Flags, iu: Bits2) {
    match cond
    case True => true
    case Eq => f.fz
    case Neq => !f.fz
    case Gt => !f.fz && !f.fm
    case Ge => !f.fm
    case Lt => f.fm
    case Le => f.fm || f.fz
    case Nn => !f.fn
    case C => f.fc0
    case V => f.fv
    case E => f.fe
    case L => f.flm || f.fvl
    case Nr => !f.fr
    case Niu0 => !iu[0]
    case Iu0 => iu[0]
    case Iu1 => iu[1]
  }

  // The flags that storing `value` in an accumulator sets; the others stay.
  function AccFlags(f: Flags, value: u64): Flags {
    var fe := value != SignExtend(value, 32);
    f.(fz := value == 0,
       fm := value / Pow2(39) != 0,
       fe := fe,
       fn := value == 0 || (!fe && Bit(value, 31) != Bit(value, 30)))
  }
}

module Memories {
  import opened Words

  const DATA_OFFSET := 0x2_0000
  const WORDS := 0x4_0000

  // 512 KiB of words: the program half, then the data half.
  type Memory = m: seq<u16> | |m| == WORDS witness seq(WORDS, _ => 0)

  // Reads past the end are undefined in the source; zero here.
  function ProgramRead(m: Memory, address: nat): u16 {
    if address < WORDS then m[address] else 0
  }

  function DataRead(m: Memory, address: u16): u16 {
    m[DATA_OFFSET + address]
  }

  function DataWrite(m: Memory, address: u16, value: u16): Memory {
    m[DATA_OFFSET + address := value]
  }
}
