/** The shared vocabulary of the decoder (LogicAnalyzer/insn_decode.h and the CPU
    selector of tla.h): the flat addressing-mode enumeration with its numeric layout,
    the 6809 "indirect" predicate, the decode record, its size limits, and the
    little/big-endian and two's-complement readers over the byte buffer. */
module Insn {
  import opened Fmt

  /** The processor the analyser is attached to. It is chosen once, when a decoder
      is set up, and never changes afterwards. */
  datatype Cpu = CpuNone | Cpu6502 | Cpu65C02 | Cpu6800 | Cpu6809 | Cpu6809E | CpuZ80

  /** Instruction addresses are 32-bit unsigned values. */
  type U32 = x: int | 0 <= x < 0x1_0000_0000

  /** The byte buffer holds 8 bytes; the text buffer 28 characters. */
  const MaxBytes: nat := 8
  const MaxString: nat := 28

  // ---------------------------------------------------------------------------
  // Addressing modes
  // ---------------------------------------------------------------------------

  /** 6809 modes, in enumeration order. Every indirect indexed variant sits right
      after its plain counterpart; the indexed-postbyte decoder relies on it. */
  datatype Mode6809 =
    | Inherent | Direct | Extended | Rel8 | Rel16 | Imm8 | Imm16
    | ZeroOff | ZeroOffInd | ConstOff5 | ConstOff8 | ConstOff8Ind
    | ConstOff16 | ConstOff16Ind | AccOff | AccOffInd
    | PostInc1 | PostInc2 | PostInc2Ind | PreDec1 | PreDec2 | PreDec2Ind
    | PcRel8 | PcRel8Ind | PcRel16 | PcRel16Ind | ExtendedInd
    | ExgTfr | PshPul

  /** 6502 pseudo-modes: how many operand bytes follow and how they are shown. */
  datatype Mode6502 = Implied | U8 | U16 | Rel8

  datatype Mode6800 = Inherent | Rel | Indexed | Imm8 | Imm16 | Direct | Extended

  /** Z80 pseudo-modes, one per template placeholder kind. */
  datatype ModeZ80 = Implied | U8 | U16 | Disp8 | PcRel8

  datatype AddrMode =
    | Invalid
    | M6809(m6809: Mode6809)
    | M6502(m6502: Mode6502)
    | M6800(m6800: Mode6800)
    | MZ80(mz80: ModeZ80)

  /** The 6809 mode with enumeration value n, if there is one. */
  function Mode6809At(n: int): Option<Mode6809>
  {
    match n
    case 0 => Some(Mode6809.Inherent)   case 1 => Some(Mode6809.Direct)
    case 2 => Some(Mode6809.Extended)   case 3 => Some(Mode6809.Rel8)
    case 4 => Some(Mode6809.Rel16)      case 5 => Some(Mode6809.Imm8)
    case 6 => Some(Mode6809.Imm16)      case 7 => Some(ZeroOff)
    case 8 => Some(ZeroOffInd)          case 9 => Some(ConstOff5)
    case 10 => Some(ConstOff8)          case 11 => Some(ConstOff8Ind)
    case 12 => Some(ConstOff16)         case 13 => Some(ConstOff16Ind)
    case 14 => Some(AccOff)             case 15 => Some(AccOffInd)
    case 16 => Some(PostInc1)           case 17 => Some(PostInc2)
    case 18 => Some(PostInc2Ind)        case 19 => Some(PreDec1)
    case 20 => Some(PreDec2)            case 21 => Some(PreDec2Ind)
    case 22 => Some(Mode6809.PcRel8)    case 23 => Some(PcRel8Ind)
    case 24 => Some(PcRel16)            case 25 => Some(PcRel16Ind)
    case 26 => Some(ExtendedInd)        case 27 => Some(ExgTfr)
    case 28 => Some(PshPul)             case _ => None
  }

  function Ordinal6809(m: Mode6809): (n: nat)
    ensures n <= 28
  {
    match m
    case Inherent => 0      case Direct => 1        case Extended => 2
    case Rel8 => 3          case Rel16 => 4         case Imm8 => 5
    case Imm16 => 6         case ZeroOff => 7       case ZeroOffInd => 8
    case ConstOff5 => 9     case ConstOff8 => 10    case ConstOff8Ind => 11
    case ConstOff16 => 12   case ConstOff16Ind => 13
    case AccOff => 14       case AccOffInd => 15    case PostInc1 => 16
    case PostInc2 => 17     case PostInc2Ind => 18  case PreDec1 => 19
    case PreDec2 => 20      case PreDec2Ind => 21   case PcRel8 => 22
    case PcRel8Ind => 23    case PcRel16 => 24      case PcRel16Ind => 25
    case ExtendedInd => 26  case ExgTfr => 27       case PshPul => 28
  }

  /** Mode6809At reads the enumeration value back. */
  lemma Mode6809AtOrdinal(m: Mode6809)
    ensures Mode6809At(Ordinal6809(m)) == Some(m)
  {
    match m
    case Inherent =>      case Direct =>        case Extended =>     case Rel8 =>
    case Rel16 =>         case Imm8 =>          case Imm16 =>        case ZeroOff =>
    case ZeroOffInd =>    case ConstOff5 =>     case ConstOff8 =>    case ConstOff8Ind =>
    case ConstOff16 =>    case ConstOff16Ind => case AccOff =>       case AccOffInd =>
    case PostInc1 =>      case PostInc2 =>      case PostInc2Ind =>  case PreDec1 =>
    case PreDec2 =>       case PreDec2Ind =>    case PcRel8 =>       case PcRel8Ind =>
    case PcRel16 =>       case PcRel16Ind =>    case ExtendedInd =>  case ExgTfr =>
    case PshPul =>
  }

  /** The numeric value of each mode in the source's enumeration: each family owns
      one contiguous interval, the intervals are disjoint, and am_invalid is -1. */
  function Ordinal(am: AddrMode): (n: int)
    ensures am.Invalid? <==> n == -1
    ensures am.M6809? <==> 0 <= n <= 28
    ensures am.M6502? <==> 29 <= n <= 32
    ensures am.M6800? <==> 33 <= n <= 39
    ensures am.MZ80? <==> 40 <= n <= 44
  {
    match am
    case Invalid => -1
    case M6809(m) => Ordinal6809(m)
    case M6502(m) =>
      29 + (match m case Implied => 0 case U8 => 1 case U16 => 2 case Rel8 => 3)
    case M6800(m) =>
      33 + (match m
            case Inherent => 0 case Rel => 1 case Indexed => 2 case Imm8 => 3
            case Imm16 => 4 case Direct => 5 case Extended => 6)
    case MZ80(m) =>
      40 + (match m case Implied => 0 case U8 => 1 case U16 => 2 case Disp8 => 3 case PcRel8 => 4)
  }

  /** Distinct modes have distinct values, so the layout is a faithful encoding. */
  lemma OrdinalInjective(a: AddrMode, b: AddrMode)
    requires Ordinal(a) == Ordinal(b)
    ensures a == b
  {
    if a.M6809? {
      Mode6809AtOrdinal(a.m6809);
      Mode6809AtOrdinal(b.m6809);
    }
  }

  /** am6809_indirect_p: the eight indirect indexed modes and extended indirect. */
  predicate IndirectP(am: AddrMode)
  {
    am == M6809(ZeroOffInd) || am == M6809(ConstOff8Ind) || am == M6809(ConstOff16Ind) ||
    am == M6809(AccOffInd) || am == M6809(PostInc2Ind) || am == M6809(PreDec2Ind) ||
    am == M6809(PcRel8Ind) || am == M6809(PcRel16Ind) || am == M6809(ExtendedInd)
  }

  /** The indexed modes that have an indirect variant. */
  predicate HasIndirectVariant(m: Mode6809)
  {
    m == ZeroOff || m == ConstOff8 || m == ConstOff16 || m == AccOff ||
    m == PostInc2 || m == PreDec2 || m == Mode6809.PcRel8 || m == PcRel16
  }

  /** The mode one step up in the enumeration ("am + 1" in the postbyte decoder). */
  function NextMode6809(m: Mode6809): Option<Mode6809>
  {
    Mode6809At(Ordinal6809(m) + 1)
  }

  /** The indirect variant of a mode that has one, named directly. */
  function IndirectVariant(m: Mode6809): Mode6809
    requires HasIndirectVariant(m)
  {
    match m
    case ZeroOff => ZeroOffInd
    case ConstOff8 => ConstOff8Ind
    case ConstOff16 => ConstOff16Ind
    case AccOff => AccOffInd
    case PostInc2 => PostInc2Ind
    case PreDec2 => PreDec2Ind
    case PcRel8 => PcRel8Ind
    case PcRel16 => PcRel16Ind
  }

  /** The ordering the source depends on: stepping up once from a mode that has an
      indirect variant lands on that variant, which is indirect. */
  lemma IndirectFollowsBase(m: Mode6809)
    requires HasIndirectVariant(m)
    ensures !IndirectP(M6809(m))
    ensures NextMode6809(m) == Some(IndirectVariant(m)) && IndirectP(M6809(IndirectVariant(m)))
  {
    match m
    case ZeroOff => assert NextMode6809(m) == Some(ZeroOffInd);
    case ConstOff8 => assert NextMode6809(m) == Some(ConstOff8Ind);
    case ConstOff16 => assert NextMode6809(m) == Some(ConstOff16Ind);
    case AccOff => assert NextMode6809(m) == Some(AccOffInd);
    case PostInc2 => assert NextMode6809(m) == Some(PostInc2Ind);
    case PreDec2 => assert NextMode6809(m) == Some(PreDec2Ind);
    case PcRel8 => assert NextMode6809(m) == Some(PcRel8Ind);
    case PcRel16 => assert NextMode6809(m) == Some(PcRel16Ind);
  }

  /** The nine indirect modes are exactly those successors plus extended indirect. */
  lemma IndirectAreSuccessors(m: Mode6809)
    ensures IndirectP(M6809(m)) <==>
      m == ExtendedInd ||
      (Mode6809At(Ordinal6809(m) - 1).Some? && HasIndirectVariant(Mode6809At(Ordinal6809(m) - 1).value))
  {
    if Ordinal6809(m) < 15 {
      IndirectAreSuccessorsLow(m);
    } else if Ordinal6809(m) < 22 {
      IndirectAreSuccessorsMid(m);
    } else {
      IndirectAreSuccessorsHigh(m);
    }
  }

  lemma IndirectAreSuccessorsLow(m: Mode6809)
    requires Ordinal6809(m) < 15
    ensures IndirectP(M6809(m)) <==>
      m == ExtendedInd ||
      (Mode6809At(Ordinal6809(m) - 1).Some? && HasIndirectVariant(Mode6809At(Ordinal6809(m) - 1).value))
  {
  }

  lemma IndirectAreSuccessorsMid(m: Mode6809)
    requires 15 <= Ordinal6809(m) < 22
    ensures IndirectP(M6809(m)) <==>
      m == ExtendedInd ||
      (Mode6809At(Ordinal6809(m) - 1).Some? && HasIndirectVariant(Mode6809At(Ordinal6809(m) - 1).value))
  {
  }

  lemma IndirectAreSuccessorsHigh(m: Mode6809)
    requires Ordinal6809(m) >= 22
    ensures IndirectP(M6809(m)) <==>
      m == ExtendedInd ||
      (Mode6809At(Ordinal6809(m) - 1).Some? && HasIndirectVariant(Mode6809At(Ordinal6809(m) - 1).value))
  {
  }


  // ---------------------------------------------------------------------------
  // Buffer readers
  // ---------------------------------------------------------------------------

  /** (int8_t)b: the byte read as a two's-complement value. */
  function SignExtend8(b: bv8): (r: int)
    ensures -128 <= r < 128
  {
    if b < 0x80 then b as int else b as int - 256
  }

  /** The cast keeps the byte's value modulo 256. */
  lemma SignExtend8Wraps(b: bv8)
    ensures (SignExtend8(b) - b as int) % 256 == 0
  {
  }

  /** (int16_t)u: a 16-bit word read as a two's-complement value. */
  function SignExtend16(u: nat): (r: int)
    requires u < 65536
    ensures -32768 <= r < 32768
    ensures (r - u) % 65536 == 0
    ensures r < 0 <==> u >= 0x8000
  {
    if u < 0x8000 then u else u - 65536
  }

  /** read_u16le: low byte first. */
  function ReadU16Le(buf: seq<bv8>, i: nat): (r: nat)
    requires i + 1 < |buf|
    ensures r < 65536
    ensures r == buf[i] as int + 256 * buf[i + 1] as int
  {
    ((buf[i] as bv16) | ((buf[i + 1] as bv16) << 8)) as int
  }

  /** read_u16be: high byte first. */
  function ReadU16Be(buf: seq<bv8>, i: nat): (r: nat)
    requires i + 1 < |buf|
    ensures r < 65536
    ensures r == 256 * buf[i] as int + buf[i + 1] as int
  {
    (((buf[i] as bv16) << 8) | (buf[i + 1] as bv16)) as int
  }

  function ReadS16Le(buf: seq<bv8>, i: nat): (r: int)
    requires i + 1 < |buf|
    ensures -32768 <= r < 32768
    ensures (r - (buf[i] as int + 256 * buf[i + 1] as int)) % 65536 == 0
  {
    SignExtend16(ReadU16Le(buf, i))
  }

  function ReadS16Be(buf: seq<bv8>, i: nat): (r: int)
    requires i + 1 < |buf|
    ensures -32768 <= r < 32768
    ensures (r - (256 * buf[i] as int + buf[i + 1] as int)) % 65536 == 0
    ensures r < 0 <==> buf[i] >= 0x80
  {
    SignExtend16(ReadU16Be(buf, i))
  }

  /** Resolved addresses are 32-bit unsigned sums: they wrap modulo 2^32. */
  function WrapAdd(a: U32, off: int): (r: U32)
    ensures (r - (a + off)) % 0x1_0000_0000 == 0
    ensures 0 <= a + off < 0x1_0000_0000 ==> r == a + off
  {
    (a + off) % 0x1_0000_0000
  }

  // ---------------------------------------------------------------------------
  // The decode record
  // ---------------------------------------------------------------------------

  datatype DecodeState = Idle | Fetching | Complete

  /** struct insn_decode, as a value: the fields one decode session carries. */
  datatype Decode = Decode(
    state: DecodeState,
    insnAddress: U32,
    resolvedAddress: U32,
    resolvedValid: bool,
    bytesRequired: int,
    bytesFetched: int,
    addrmode: AddrMode,
    bytes: seq<bv8>,
    insnString: string)

  /** What every reachable record satisfies: a full 8-byte buffer, at most 8 bytes
      fetched, and at least the first byte once fetching has started. */
  predicate WellFormed(d: Decode)
  {
    |d.bytes| == MaxBytes &&
    0 <= d.bytesFetched <= MaxBytes &&
    0 <= d.bytesRequired &&
    (d.state == Fetching ==> 1 <= d.bytesFetched)
  }

  /** What a formatter produces: the text, and the branch target it resolved, if any. */
  datatype Formatted = Formatted(text: string, target: Option<U32>)

  /** Store a formatter's output and mark the record complete. */
  function Finish(d: Decode, f: Formatted): (r: Decode)
    ensures r.state == Complete && r.insnString == f.text
    ensures r.resolvedValid == (f.target.Some? || d.resolvedValid)
    ensures f.target.Some? ==> r.resolvedAddress == f.target.value
    ensures f.target.None? ==> r.resolvedAddress == d.resolvedAddress
    ensures r.bytes == d.bytes && r.bytesFetched == d.bytesFetched
    ensures r.bytesRequired == d.bytesRequired && r.addrmode == d.addrmode
    ensures r.insnAddress == d.insnAddress
  {
    var d1 := match f.target
      case Some(t) => d.(resolvedAddress := t, resolvedValid := true)
      case None => d;
    d1.(insnString := f.text, state := Complete)
  }
}
