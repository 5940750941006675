/** The 6809 / 6809E decoder (LogicAnalyzer/insn_6809.c): page-2/3 prefixes, the
    indexed-mode postbyte, the per-mode operand count, and the per-mode text. */
module Decode6809 {
  import opened Fmt
  import opened Insn

  /** The unprefixed mnemonics, by opcode; every opcode not listed is "?". */
  function Opcodes6809(op: bv8): string
  {
    match op as int
    case 0x00 => "NEG"      case 0x03 => "COM"      case 0x04 => "LSR"      case 0x06 => "ROR"      case 0x07 => "ASR"
    case 0x08 => "ASL"      case 0x09 => "ROL"      case 0x0A => "DEC"      case 0x0C => "INC"      case 0x0D => "TST"
    case 0x0E => "JMP"      case 0x0F => "CLR"      case 0x10 => "(pg2)"    case 0x11 => "(pg3)"    case 0x12 => "NOP"
    case 0x13 => "SYNC"     case 0x16 => "LBRA"     case 0x17 => "LBSR"     case 0x19 => "DAA"      case 0x1A => "ORCC"
    case 0x1C => "ANDCC"    case 0x1D => "SEX"      case 0x1E => "EXG"      case 0x1F => "TFR"      case 0x20 => "BRA"
    case 0x21 => "BRN"      case 0x22 => "BHI"      case 0x23 => "BLS"      case 0x24 => "BCC"      case 0x25 => "BCS"
    case 0x26 => "BNE"      case 0x27 => "BEQ"      case 0x28 => "BVC"      case 0x29 => "BVS"      case 0x2A => "BPL"
    case 0x2B => "BMI"      case 0x2C => "BGE"      case 0x2D => "BLT"      case 0x2E => "BGT"      case 0x2F => "BLE"
    case 0x30 => "LEAX"     case 0x31 => "LEAY"     case 0x32 => "LEAS"     case 0x33 => "LEAU"     case 0x34 => "PSHS"
    case 0x35 => "PULS"     case 0x36 => "PSHU"     case 0x37 => "PULU"     case 0x39 => "RTS"      case 0x3A => "ABX"
    case 0x3B => "RTI"      case 0x3C => "CWAI"     case 0x3D => "MUL"      case 0x3F => "SWI"      case 0x40 => "NEGA"
    case 0x43 => "COMA"     case 0x44 => "LSRA"     case 0x46 => "RORA"     case 0x47 => "ASRA"     case 0x48 => "ASLA"
    case 0x49 => "ROLA"     case 0x4A => "DECA"     case 0x4C => "INCA"     case 0x4D => "TSTA"     case 0x4F => "CLRA"
    case 0x50 => "NEGB"     case 0x53 => "COMB"     case 0x54 => "LSRB"     case 0x56 => "RORB"     case 0x57 => "ASRB"
    case 0x58 => "ASLB"     case 0x59 => "ROLB"     case 0x5A => "DECB"     case 0x5C => "INCB"     case 0x5D => "TSTB"
    case 0x5F => "CLRB"     case 0x60 => "NEG"      case 0x63 => "COM"      case 0x64 => "LSR"      case 0x66 => "ROR"
    case 0x67 => "ASR"      case 0x68 => "ASL"      case 0x69 => "ROL"      case 0x6A => "DEC"      case 0x6C => "INC"
    case 0x6D => "TST"      case 0x6E => "JMP"      case 0x6F => "CLR"      case 0x70 => "NEG"      case 0x73 => "COM"
    case 0x74 => "LSR"      case 0x76 => "ROR"      case 0x77 => "ASR"      case 0x78 => "ASL"      case 0x79 => "ROL"
    case 0x7A => "DEC"      case 0x7C => "INC"      case 0x7D => "TST"      case 0x7E => "JMP"      case 0x7F => "CLR"
    case 0x80 => "SUBA"     case 0x81 => "CMPA"     case 0x82 => "SBCA"     case 0x83 => "SUBD"     case 0x84 => "ANDA"
    case 0x85 => "BITA"     case 0x86 => "LDA"      case 0x88 => "EORA"     case 0x89 => "ADCA"     case 0x8A => "ORA"
    case 0x8B => "ADDA"     case 0x8C => "CMPX"     case 0x8D => "BSR"      case 0x8E => "LDX"      case 0x90 => "SUBA"
    case 0x91 => "CMPA"     case 0x92 => "SBCA"     case 0x93 => "SUBD"     case 0x94 => "ANDA"     case 0x95 => "BITA"
    case 0x96 => "LDA"      case 0x97 => "STA"      case 0x98 => "EORA"     case 0x99 => "ADCA"     case 0x9A => "ORA"
    case 0x9B => "ADDA"     case 0x9C => "CMPX"     case 0x9D => "JSR"      case 0x9E => "LDX"      case 0x9F => "STX"
    case 0xA0 => "SUBA"     case 0xA1 => "CMPA"     case 0xA2 => "SBCA"     case 0xA3 => "SUBD"     case 0xA4 => "ANDA"
    case 0xA5 => "BITA"     case 0xA6 => "LDA"      case 0xA7 => "STA"      case 0xA8 => "EORA"     case 0xA9 => "ADCA"
    case 0xAA => "ORA"      case 0xAB => "ADDA"     case 0xAC => "CMPX"     case 0xAD => "JSR"      case 0xAE => "LDX"
    case 0xAF => "STX"      case 0xB0 => "SUBA"     case 0xB1 => "CMPA"     case 0xB2 => "SBCA"     case 0xB3 => "SUBD"
    case 0xB4 => "ANDA"     case 0xB5 => "BITA"     case 0xB6 => "LDA"      case 0xB7 => "STA"      case 0xB8 => "EORA"
    case 0xB9 => "ADCA"     case 0xBA => "ORA"      case 0xBB => "ADDA"     case 0xBC => "CMPX"     case 0xBD => "JSR"
    case 0xBE => "LDX"      case 0xBF => "STX"      case 0xC0 => "SUBB"     case 0xC1 => "CMPB"     case 0xC2 => "SBCB"
    case 0xC3 => "ADDD"     case 0xC4 => "ANDB"     case 0xC5 => "BITB"     case 0xC6 => "LDB"      case 0xC8 => "EORB"
    case 0xC9 => "ADCB"     case 0xCA => "ORB"      case 0xCB => "ADDB"     case 0xCC => "LDD"      case 0xCE => "LDU"
    case 0xD0 => "SUBB"     case 0xD1 => "CMPB"     case 0xD2 => "SBCB"     case 0xD3 => "ADDD"     case 0xD4 => "ANDB"
    case 0xD5 => "BITB"     case 0xD6 => "LDB"      case 0xD7 => "STB"      case 0xD8 => "EORB"     case 0xD9 => "ADCB"
    case 0xDA => "ORB"      case 0xDB => "ADDB"     case 0xDC => "LDD"      case 0xDD => "STD"      case 0xDE => "LDU"
    case 0xDF => "STU"      case 0xE0 => "SUBB"     case 0xE1 => "CMPB"     case 0xE2 => "SBCB"     case 0xE3 => "ADDD"
    case 0xE4 => "ANDB"     case 0xE5 => "BITB"     case 0xE6 => "LDB"      case 0xE7 => "STB"      case 0xE8 => "EORB"
    case 0xE9 => "ADCB"     case 0xEA => "ORB"      case 0xEB => "ADDB"     case 0xEC => "LDD"      case 0xED => "STD"
    case 0xEE => "LDU"      case 0xEF => "STU"      case 0xF0 => "SUBB"     case 0xF1 => "CMPB"     case 0xF2 => "SBCB"
    case 0xF3 => "ADDD"     case 0xF4 => "ANDB"     case 0xF5 => "BITB"     case 0xF6 => "LDB"      case 0xF7 => "STB"
    case 0xF8 => "EORB"     case 0xF9 => "ADCB"     case 0xFA => "ORB"      case 0xFB => "ADDB"     case 0xFC => "LDD"
    case 0xFD => "STD"      case 0xFE => "LDU"      case 0xFF => "STU"
    case _ => "?"
  }

  /** The long conditional branches of page 2 (0x1020-0x102F), by low nibble. */
  function LongCondBranch(n: bv8): string
    requires n < 16
  {
    match n as int
    case 0 => "?"      case 1 => "LBRN"   case 2 => "LBHI"   case 3 => "LBLS"
    case 4 => "LBCC"   case 5 => "LBCS"   case 6 => "LBNE"   case 7 => "LBEQ"
    case 8 => "LBVC"   case 9 => "LBVS"   case 10 => "LBPL"  case 11 => "LBMI"
    case 12 => "LBGE"  case 13 => "LBLT"  case 14 => "LBGT"  case _ => "LBLE"
  }

  /** Whether the first byte is a page-2 (0x10) or page-3 (0x11) prefix. */
  predicate Prefixed(op: bv8)
  {
    op == 0x10 || op == 0x11
  }

  /** The mnemonic of a prefixed opcode, from the prefix and the second byte. */
  function PageMnemonic(op: bv8, op2: bv8): string
    requires Prefixed(op)
  {
    var ext := ((op as bv16) << 8) | (op2 as bv16);
    var u3 := ext & 0xFFF0;
    var b1 := ext & 0x000F;
    if 0x1020 <= ext <= 0x102F then LongCondBranch(op2 & 0x0F)
    else if ext == 0x103F then "SWI2"
    else if ext == 0x113F then "SWI3"
    else if u3 == 0x1080 || u3 == 0x1090 || u3 == 0x10A0 || u3 == 0x10B0 then
      (if ext == 0x108F then "?"
       else if b1 == 0x3 then "CMPD"
       else if b1 == 0xC then "CMPY"
       else if b1 == 0xE then "LDY"
       else if b1 == 0xF then "STY"
       else "?")
    else if u3 == 0x10C0 || u3 == 0x10D0 || u3 == 0x10E0 || u3 == 0x10F0 then
      (if ext == 0x10CF then "?"
       else if b1 == 0xE then "LDS"
       else if b1 == 0xF then "STS"
       else "?")
    else if u3 == 0x1180 || u3 == 0x1190 || u3 == 0x11A0 || u3 == 0x11B0 then
      (if b1 == 0x3 then "CMPU"
       else if b1 == 0xC then "CMPS"
       else "?")
    else "?"
  }

  // ---------------------------------------------------------------------------
  // Operand counts
  // ---------------------------------------------------------------------------

  /** insn_postbytes_6809: how many bytes follow the opcode in each mode, counting
      an indexed mode's postbyte. */
  function Postbytes6809(m: Mode6809): (n: nat)
    ensures n <= 3
  {
    match m
    case Inherent => 0       case Direct => 1          case Extended => 2
    case Rel8 => 1           case Rel16 => 2           case Imm8 => 1
    case Imm16 => 2          case ZeroOff => 1         case ZeroOffInd => 1
    case ConstOff5 => 1      case ConstOff8 => 2       case ConstOff8Ind => 2
    case ConstOff16 => 3     case ConstOff16Ind => 3   case AccOff => 1
    case AccOffInd => 1      case PostInc1 => 1        case PostInc2 => 1
    case PostInc2Ind => 1    case PreDec1 => 1         case PreDec2 => 1
    case PreDec2Ind => 1     case PcRel8 => 2          case PcRel8Ind => 2
    case PcRel16 => 3        case PcRel16Ind => 3      case ExtendedInd => 3
    case ExgTfr => 1         case PshPul => 1
  }

  /** An indirect variant takes exactly as many bytes as its plain mode. */
  lemma IndirectSameLength(m: Mode6809)
    requires HasIndirectVariant(m)
    ensures Postbytes6809(IndirectVariant(m)) == Postbytes6809(m)
  {
  }


  // ---------------------------------------------------------------------------
  // Indexed postbyte
  // ---------------------------------------------------------------------------

  /** insn_decode_addrmode_indexed_6809: extended indirect (1xx11111) first, then the
      5-bit offset (bit 7 clear), then the low-nibble pattern with bit 4 choosing the
      indirect variant, which the one-step increment and decrement do not have. */
  function AddrmodeIndexed6809(pb: bv8): (am: AddrMode)
    ensures am != Invalid ==> am.M6809?
    ensures am.M6809? ==> Postbytes6809(am.m6809) >= 1
  {
    if pb & 0x9F == 0x9F then M6809(ExtendedInd)
    else if pb & 0x80 == 0 then M6809(ConstOff5)
    else
      var low := pb & 0x8F;
      var base: Option<Mode6809> :=
        if low == 0x84 then Some(ZeroOff)
        else if low == 0x88 then Some(ConstOff8)
        else if low == 0x89 then Some(ConstOff16)
        else if low == 0x86 || low == 0x85 || low == 0x8B then Some(AccOff)
        else if low == 0x80 then Some(PostInc1)
        else if low == 0x81 then Some(PostInc2)
        else if low == 0x82 then Some(PreDec1)
        else if low == 0x83 then Some(PreDec2)
        else if low == 0x8C then Some(Mode6809.PcRel8)
        else if low == 0x8D then Some(PcRel16)
        else None;
      match base
      case None => Invalid
      case Some(m) =>
        if pb & 0x10 == 0 then M6809(m)
        else if m == PostInc1 || m == PreDec1 then Invalid
        else
          IndirectSameLength(m);
          M6809(IndirectVariant(m))
  }

  /** The indexed modes the postbyte can name. */
  predicate IndexedMode(m: Mode6809)
  {
    match m
    case Inherent | Direct | Extended | Rel8 | Rel16 | Imm8 | Imm16 | ExgTfr | PshPul => false
    case _ => true
  }

  /** They are the contiguous run of the enumeration from ZeroOff to ExtendedInd. */
  lemma IndexedModeOrdinal(m: Mode6809)
    ensures IndexedMode(m) <==> 7 <= Ordinal6809(m) <= 26
  {
  }

  /** The data sheet's register-free postbyte pattern of each indexed mode:
      1 0 0 i t t t t, with i the indirect bit and tttt the mode's pattern; the 5-bit
      offset form is 0 0 0 n n n n n. Accumulator offsets use A. */
  function IndexedPattern(m: Mode6809, off5: bv8): (pb: bv8)
    requires IndexedMode(m) && off5 < 32
    ensures pb & 0x60 == 0
  {
    match m
    case ZeroOff => 0x84         case ZeroOffInd => 0x94
    case ConstOff5 => off5
    case ConstOff8 => 0x88       case ConstOff8Ind => 0x98
    case ConstOff16 => 0x89      case ConstOff16Ind => 0x99
    case AccOff => 0x86          case AccOffInd => 0x96
    case PostInc1 => 0x80
    case PostInc2 => 0x81        case PostInc2Ind => 0x91
    case PreDec1 => 0x82
    case PreDec2 => 0x83         case PreDec2Ind => 0x93
    case PcRel8 => 0x8C          case PcRel8Ind => 0x9C
    case PcRel16 => 0x8D         case PcRel16Ind => 0x9D
    case ExtendedInd => 0x9F
  }

  /** The full postbyte: the pattern with the index register (0..3) in bits 5-6. */
  function EncodeIndexed(m: Mode6809, r: bv8, off5: bv8): bv8
    requires IndexedMode(m) && r < 4 && off5 < 32
  {
    IndexedPattern(m, off5) | (r << 5)
  }

  /** The register field (bits 5-6) plays no part in choosing the mode. */
  lemma IndexedIgnoresRegister(pb: bv8)
    ensures AddrmodeIndexed6809(pb) == AddrmodeIndexed6809(pb & 0x9F)
  {
    var q := pb & 0x9F;
    assert q & 0x9F == pb & 0x9F;
    assert q & 0x80 == pb & 0x80;
    assert q & 0x8F == pb & 0x8F;
    assert q & 0x10 == pb & 0x10;
  }

  /** Each pattern on its own is recognised as its mode. */
  lemma PatternClassifies(m: Mode6809, off5: bv8)
    requires IndexedMode(m) && off5 < 32
    ensures AddrmodeIndexed6809(IndexedPattern(m, off5)) == M6809(m)
  {
    if m == ConstOff5 {
    } else if IndirectP(M6809(m)) {
      IndirectPatternClassifies(m);
    } else {
      PlainPatternClassifies(m);
    }
  }

  lemma PlainPatternClassifies(m: Mode6809)
    requires IndexedMode(m) && m != ConstOff5 && !IndirectP(M6809(m))
    ensures AddrmodeIndexed6809(IndexedPattern(m, 0)) == M6809(m)
  {
    match m
    case ZeroOff =>        case ConstOff8 =>      case ConstOff16 =>
    case AccOff =>         case PostInc1 =>       case PostInc2 =>
    case PreDec1 =>        case PreDec2 =>        case PcRel8 =>
    case PcRel16 =>
  }

  lemma IndirectPatternClassifies(m: Mode6809)
    requires IndexedMode(m) && IndirectP(M6809(m))
    ensures AddrmodeIndexed6809(IndexedPattern(m, 0)) == M6809(m)
  {
    match m
    case ZeroOffInd =>     case ConstOff8Ind =>   case ConstOff16Ind =>
    case AccOffInd =>      case PostInc2Ind =>    case PreDec2Ind =>
    case PcRel8Ind =>      case PcRel16Ind =>     case ExtendedInd =>
  }

  /** Classification inverts the data sheet's encoding: every indexed mode, with any
      index register, is recognised from its postbyte, and the register field reads
      back. */
  lemma IndexedRoundTrip(m: Mode6809, r: bv8, off5: bv8)
    requires IndexedMode(m) && r < 4 && off5 < 32
    ensures AddrmodeIndexed6809(EncodeIndexed(m, r, off5)) == M6809(m)
    ensures (EncodeIndexed(m, r, off5) >> 5) & 3 == r
  {
    var p := IndexedPattern(m, off5);
    var pb := EncodeIndexed(m, r, off5);
    assert pb & 0x9F == p & 0x9F;
    IndexedIgnoresRegister(pb);
    IndexedIgnoresRegister(p);
    PatternClassifies(m, off5);
  }

  /** Bit 4 of a postbyte with bit 7 set (other than extended indirect) selects the
      indirect variant: the mode one step up from the plain reading, or invalid for
      the one-step increment and decrement. */
  lemma IndirectBit(pb: bv8)
    requires pb & 0x80 != 0 && pb & 0x10 != 0 && pb & 0x9F != 0x9F
    ensures var plain := AddrmodeIndexed6809(pb & 0xEF);
      (plain == Invalid ==> AddrmodeIndexed6809(pb) == Invalid) &&
      (plain == M6809(PostInc1) || plain == M6809(PreDec1) ==> AddrmodeIndexed6809(pb) == Invalid) &&
      (plain.M6809? && HasIndirectVariant(plain.m6809) ==>
        AddrmodeIndexed6809(pb) == M6809(NextMode6809(plain.m6809).value) &&
        IndirectP(AddrmodeIndexed6809(pb)))
  {
    var plain := AddrmodeIndexed6809(pb & 0xEF);
    assert (pb & 0xEF) & 0x8F == pb & 0x8F;
    assert (pb & 0xEF) & 0x10 == 0;
    assert (pb & 0xEF) & 0x80 != 0;
    assert (pb & 0xEF) & 0x9F != 0x9F;
    if plain.M6809? && HasIndirectVariant(plain.m6809) {
      IndirectFollowsBase(plain.m6809);
    }
  }

  // ---------------------------------------------------------------------------
  // Addressing mode of the whole instruction
  // ---------------------------------------------------------------------------

  /** insn_decode_addrmode_6809: the mode from the bytes fetched so far. A prefix
      waits for its second byte, an indexed opcode for its postbyte; undefined
      opcodes in the 0x10-0x1F and 0x30-0x3F rows and unknown page-2/3 rows are
      invalid. */
  function Addrmode6809(fetched: int, b: seq<bv8>): (am: AddrMode)
    requires |b| == MaxBytes
    ensures am != Invalid ==> am.M6809?
  {
    var opc := b[0];
    if fetched <= 0 then Invalid
    else if Prefixed(opc) then
      if fetched < 2 then Invalid
      else
        var ext := ((opc as bv16) << 8) | (b[1] as bv16);
        var u3 := ext & 0xFFF0;
        if u3 == 0x1020 then M6809(Mode6809.Rel16)
        else if u3 == 0x1030 || u3 == 0x1130 then M6809(Mode6809.Inherent)
        else if u3 == 0x1080 || u3 == 0x1180 || u3 == 0x10C0 then M6809(Mode6809.Imm16)
        else if u3 == 0x1090 || u3 == 0x1190 || u3 == 0x10D0 then M6809(Mode6809.Direct)
        else if u3 == 0x10A0 || u3 == 0x11A0 || u3 == 0x10E0 then
          (if fetched < 3 then Invalid else AddrmodeIndexed6809(b[2]))
        else if u3 == 0x10B0 || u3 == 0x11B0 || u3 == 0x10F0 then M6809(Mode6809.Extended)
        else Invalid
    else if opc <= 0x0F || (0x90 <= opc <= 0x9F) || (0xD0 <= opc <= 0xDF) then M6809(Mode6809.Direct)
    else if 0x10 <= opc <= 0x1F then
      (if opc == 0x12 || opc == 0x13 || opc == 0x19 || opc == 0x1D then M6809(Mode6809.Inherent)
       else if opc == 0x16 || opc == 0x17 then M6809(Mode6809.Rel16)
       else if opc == 0x1A || opc == 0x1C then M6809(Mode6809.Imm8)
       else if opc == 0x1E || opc == 0x1F then M6809(ExgTfr)
       else Invalid)
    else if 0x20 <= opc <= 0x2F then M6809(Mode6809.Rel8)
    else if 0x30 <= opc <= 0x3F then
      (if opc <= 0x33 then (if fetched < 2 then Invalid else AddrmodeIndexed6809(b[1]))
       else if opc <= 0x37 then M6809(PshPul)
       else if 0x39 <= opc then M6809(Mode6809.Inherent)
       else Invalid)
    else if 0x40 <= opc <= 0x5F then M6809(Mode6809.Inherent)
    else if (0x60 <= opc <= 0x6F) || (0xA0 <= opc <= 0xAF) || (0xE0 <= opc <= 0xEF) then
      (if fetched < 2 then Invalid else AddrmodeIndexed6809(b[1]))
    else if (0x70 <= opc <= 0x7F) || (0xB0 <= opc <= 0xBF) || 0xF0 <= opc then M6809(Mode6809.Extended)
    else if (0x80 <= opc <= 0x8F) || (0xC0 <= opc <= 0xCF) then
      (if opc == 0x8D then M6809(Mode6809.Rel8)
       else
         var lo := opc & 0x0F;
         if lo == 0x3 || lo == 0xC || lo == 0xE then M6809(Mode6809.Imm16) else M6809(Mode6809.Imm8))
    else Invalid
  }

  /** The classifier only looks at bytes already fetched: two buffers that agree on
      the first `fetched` bytes get the same mode. */
  lemma AddrmodeNoLookahead(fetched: nat, b: seq<bv8>, c: seq<bv8>)
    requires |b| == MaxBytes && |c| == MaxBytes && fetched <= MaxBytes
    requires b[..fetched] == c[..fetched]
    ensures Addrmode6809(fetched, b) == Addrmode6809(fetched, c)
  {
    if fetched >= 1 { assert b[0] == b[..fetched][0] == c[0]; }
    if fetched >= 2 { assert b[1] == b[..fetched][1] == c[1]; }
    if fetched >= 3 { assert b[2] == b[..fetched][2] == c[2]; }
  }

  /** How many bytes the mode needs in all: opcode, prefix if any, and postbytes. */
  function Required6809(op: bv8, m: Mode6809): (n: nat)
    ensures 1 <= n <= 5
  {
    1 + Postbytes6809(m) + (if Prefixed(op) then 1 else 0)
  }

  /** Nothing past the third byte affects the mode: from three bytes on the answer
      is fixed, so an opcode still invalid then stays invalid for good. */
  lemma AddrmodeSettles(fetched: int, b: seq<bv8>)
    requires |b| == MaxBytes && fetched >= 3
    ensures Addrmode6809(fetched, b) == Addrmode6809(3, b)
  {
  }

  /** When the mode first becomes known (the previous attempt, if there was one,
      found none), the bytes already fetched never exceed what the mode needs, so
      the session goes on to complete at exactly that count. */
  lemma RequiredCoversFetched(fetched: int, b: seq<bv8>)
    requires |b| == MaxBytes && 1 <= fetched <= 3
    requires Addrmode6809(fetched, b).M6809?
    requires fetched >= 2 && !(fetched == 2 && Prefixed(b[0])) ==> Addrmode6809(fetched - 1, b) == Invalid
    ensures Required6809(b[0], Addrmode6809(fetched, b).m6809) >= fetched
  {
  }

  // ---------------------------------------------------------------------------
  // Register names
  // ---------------------------------------------------------------------------

  /** insn_decode_format_exg_tfr_regname_6809: a register-pair nibble's name. */
  function ExgTfrRegName(v: bv8): string
  {
    match v as int
    case 0 => "D"    case 1 => "X"    case 2 => "Y"     case 3 => "U"
    case 4 => "S"    case 5 => "PC"   case 8 => "A"     case 9 => "B"
    case 10 => "CCR" case 11 => "DPR" case _ => "?"
  }

  /** The nibble a register name stands for in an EXG/TFR postbyte. */
  function ExgTfrRegCode(name: string): Option<bv8>
  {
    if name == "D" then Some(0) else if name == "X" then Some(1)
    else if name == "Y" then Some(2) else if name == "U" then Some(3)
    else if name == "S" then Some(4) else if name == "PC" then Some(5)
    else if name == "A" then Some(8) else if name == "B" then Some(9)
    else if name == "CCR" then Some(10) else if name == "DPR" then Some(11)
    else None
  }

  /** Exactly the nibbles 0-5 and 8-11 name a register, each a different one: the
      name reads back as the nibble, and a name read back names its nibble. */
  lemma ExgTfrRoundTrip(v: bv8, name: string)
    ensures ExgTfrRegName(v) != "?" <==> v <= 5 || 8 <= v <= 11
    ensures ExgTfrRegName(v) != "?" ==> ExgTfrRegCode(ExgTfrRegName(v)) == Some(v)
    ensures ExgTfrRegCode(name).Some? ==> ExgTfrRegName(ExgTfrRegCode(name).value) == name
  {
  }

  /** The index register named by postbyte bits 5-6. */
  function IndexRegName(r: bv8): string
    requires r < 4
  {
    if r == 0 then "X" else if r == 1 then "Y" else if r == 2 then "U" else "S"
  }

  /** The accumulator of an accumulator-offset postbyte. */
  function AccName(pb: bv8): string
  {
    var lo := pb & 0x0F;
    if lo == 0x6 then "A" else if lo == 0x5 then "B" else if lo == 0xB then "D" else "?"
  }

  // ---------------------------------------------------------------------------
  // Push / pull register lists
  // ---------------------------------------------------------------------------

  /** The register of postbyte bit k (0 = CCR ... 7 = PC); bit 6 is the other stack
      pointer, U for PSHS/PULS and S for PSHU/PULU. */
  function PshPulReg(k: nat, otherIsU: bool): (name: string)
    requires k < 8
    ensures PshPulBit(name, otherIsU) == k
  {
    if k == 0 then "CCR" else if k == 1 then "A" else if k == 2 then "B"
    else if k == 3 then "DPR" else if k == 4 then "X" else if k == 5 then "Y"
    else if k == 6 then (if otherIsU then "U" else "S") else "PC"
  }

  /** The postbyte bit a register name stands for, or -1. */
  function PshPulBit(name: string, otherIsU: bool): int
  {
    if name == "CCR" then 0 else if name == "A" then 1 else if name == "B" then 2
    else if name == "DPR" then 3 else if name == "X" then 4 else if name == "Y" then 5
    else if name == (if otherIsU then "U" else "S") then 6 else if name == "PC" then 7
    else -1
  }

  /** The mask of postbyte bit k. */
  function BitMask(k: nat): (m: bv8)
    requires k < 8
  {
    if k == 0 then 0x01 else if k == 1 then 0x02 else if k == 2 then 0x04
    else if k == 3 then 0x08 else if k == 4 then 0x10 else if k == 5 then 0x20
    else if k == 6 then 0x40 else 0x80
  }

  /** The registers named by the set bits below k, lowest bit first. */
  function PshPulNames(post: bv8, otherIsU: bool, k: nat): seq<string>
    requires k <= 8
  {
    if k == 0 then []
    else
      var rest := PshPulNames(post, otherIsU, k - 1);
      if post & BitMask(k - 1) != 0 then rest + [PshPulReg(k - 1, otherIsU)] else rest
  }

  /** Names separated by commas, with no leading or trailing comma. */
  function JoinComma(xs: seq<string>): string
  {
    if xs == [] then ""
    else if |xs| == 1 then xs[0]
    else JoinComma(xs[..|xs| - 1]) + "," + xs[|xs| - 1]
  }

  /** A register is listed exactly when its bit is set: the list holds one name per
      set bit and nothing else. */
  lemma {:induction false} PshPulMember(post: bv8, otherIsU: bool, k: nat, j: nat)
    requires k <= 8 && j < 8
    ensures PshPulReg(j, otherIsU) in PshPulNames(post, otherIsU, k) <==> j < k && post & BitMask(j) != 0
  {
    if k > 0 {
      PshPulMember(post, otherIsU, k - 1, j);
      var rest := PshPulNames(post, otherIsU, k - 1);
      var names := PshPulNames(post, otherIsU, k);
      if post & BitMask(k - 1) != 0 {
        assert names == rest + [PshPulReg(k - 1, otherIsU)];
      } else {
        assert names == rest;
      }
    }
  }

  /** Some bit below k is set exactly when the list of the first k bits is not
      empty: this is the source's test for writing a separating comma. */
  lemma {:induction false} LowerBitsListed(post: bv8, otherIsU: bool, k: nat)
    requires k < 8
    ensures post & (BitMask(k) - 1) != 0 <==> PshPulNames(post, otherIsU, k) != []
  {
    if k > 0 {
      LowerBitsListed(post, otherIsU, k - 1);
      assert BitMask(k) - 1 == (BitMask(k - 1) - 1) | BitMask(k - 1);
    }
  }

  /** Appending one name adds a comma exactly when the list was not empty. */
  lemma JoinSnoc(names: seq<string>, reg: string)
    ensures JoinComma(names + [reg]) == JoinComma(names) + (if names == [] then "" else ",") + reg
  {
    if names != [] {
      assert (names + [reg])[..|names|] == names;
    }
  }

  /** One step of the walk: the text for the first k+1 bits, from that of the
      first k, with the source's comma test. */
  lemma PshPulStep(post: bv8, otherIsU: bool, k: nat)
    requires k < 8
    ensures var before := JoinComma(PshPulNames(post, otherIsU, k));
      var sep := if post & (BitMask(k) - 1) != 0 then "," else "";
      JoinComma(PshPulNames(post, otherIsU, k + 1)) ==
        if post & BitMask(k) == 0 then before else before + sep + PshPulReg(k, otherIsU)
  {
    LowerBitsListed(post, otherIsU, k);
    if post & BitMask(k) != 0 {
      JoinSnoc(PshPulNames(post, otherIsU, k), PshPulReg(k, otherIsU));
    }
  }

  /** The psh/pul branch of insn_decode_format_6809: walk the eight postbyte bits
      in order, writing each set bit's register, preceded by a comma when a lower
      bit was also set. */
  method FormatPshPul(opc: string, post: bv8, otherIsU: bool) returns (s: string)
    ensures s == opc + " " + JoinComma(PshPulNames(post, otherIsU, 8))
  {
    var list := "";   // what has been written after "opc "
    var j := 0;
    while j < 8
      invariant 0 <= j <= 8
      invariant list == JoinComma(PshPulNames(post, otherIsU, j))
    {
      var bit := BitMask(j);
      PshPulStep(post, otherIsU, j);
      if post & bit != 0 {
        var sep := if post & (bit - 1) != 0 then "," else "";
        list := list + sep + PshPulReg(j, otherIsU);
      }
      j := j + 1;
    }
    s := opc + " " + list;
  }

  // ---------------------------------------------------------------------------
  // Offsets
  // ---------------------------------------------------------------------------

  /** The 5-bit constant offset as the data sheet defines it: the low five bits of
      the postbyte read as two's complement. */
  function ConstOff5Value(pb: bv8): (v: int)
    ensures -16 <= v < 16
    ensures (v - (pb & 0x1F) as int) % 32 == 0
  {
    var x := (pb & 0x1F) as int;
    if x < 16 then x else x - 32
  }

  /** The 5-bit offset as the source computes it: the shift pair runs on the value
      promoted to a 32-bit int, so the sign bit is never copied down and the
      offset stays the unsigned 0..31. */
  function ConstOff5AsWritten(pb: bv8): (v: int)
    ensures 0 <= v < 32
    ensures (pb & 0x1F) < 16 ==> v == ConstOff5Value(pb)
  {
    var s16 := (pb & 0x1F) as int;
    (s16 * 2048) / 2048
  }

  /** Postbyte 0x1F (offset -1 from X): the source shows 31 where -1 is meant. */
  lemma ConstOff5Witness()
    ensures ConstOff5AsWritten(0x1F) == 31
    ensures ConstOff5Value(0x1F) == -1
  {
  }

  /** Index of the first byte after the opcode (after the prefix, if any). */
  function OperandIndex(op: bv8): (i: nat)
    ensures i == if Prefixed(op) then 2 else 1
  {
    if Prefixed(op) then 2 else 1
  }

  /** The signed offset a mode displays, read where the source reads it: note that
      the 16-bit constant offset and the 8-bit PC-relative offset are read at index
      i + i, which is the intended i + 1 only without a prefix. */
  function Offset6809(m: Mode6809, b: seq<bv8>): (r: int)
    requires |b| == MaxBytes
    ensures -32768 <= r < 32768
    ensures m == Mode6809.ConstOff5 ==> -16 <= r < 16
    ensures m == Mode6809.Rel8 || m == ConstOff8 || m == ConstOff8Ind || m == Mode6809.PcRel8 || m == PcRel8Ind ==>
      -128 <= r < 128
  {
    var i := OperandIndex(b[0]);
    match m
    case Rel8 => SignExtend8(b[i])
    case Rel16 => ReadS16Be(b, i)
    case ConstOff5 => ConstOff5Value(b[i])
    case ConstOff8 => SignExtend8(b[i + 1])
    case ConstOff8Ind => SignExtend8(b[i + 1])
    case ConstOff16 => ReadS16Be(b, i + i)
    case ConstOff16Ind => ReadS16Be(b, i + i)
    case PcRel8 => SignExtend8(b[i + i])
    case PcRel8Ind => SignExtend8(b[i + i])
    case PcRel16 => ReadS16Be(b, i + 1)
    case PcRel16Ind => ReadS16Be(b, i + 1)
    case _ => 0
  }

  /** The modes that resolve a branch target. */
  predicate Resolves(m: Mode6809)
  {
    m == Mode6809.Rel8 || m == Mode6809.Rel16 || m == Mode6809.PcRel8 || m == PcRel8Ind ||
    m == PcRel16 || m == PcRel16Ind
  }

  // ---------------------------------------------------------------------------
  // Formatting
  // ---------------------------------------------------------------------------

  /** The mnemonic: from the page-2/3 rules after a prefix, else from the table. */
  function Mnemonic6809(b: seq<bv8>): string
    requires |b| == MaxBytes
  {
    if Prefixed(b[0]) then PageMnemonic(b[0], b[1]) else Opcodes6809(b[0])
  }

  /** The operand of an indexed mode without its brackets. */
  function IndexedBody(m: Mode6809, b: seq<bv8>): (body: string)
    requires |b| == MaxBytes && IndexedMode(m)
    ensures body != [] && body[|body| - 1] != ']'
  {
    var i := OperandIndex(b[0]);
    var pb := b[i];
    var reg := IndexRegName((pb >> 5) & 3);
    var off := Dec(Offset6809(m, b));
    match m
    case ExtendedInd =>
      var digits := Hex(ReadU16Be(b, i + 1), 4);
      HexRoundTrip(ReadU16Be(b, i + 1), 4);
      HexAtLeast(ReadU16Be(b, i + 1), 4);
      "$" + digits
    case ZeroOff => "," + reg
    case ZeroOffInd => "," + reg
    case ConstOff5 => off + "," + reg
    case ConstOff8 => off + "," + reg
    case ConstOff8Ind => off + "," + reg
    case ConstOff16 => off + "," + reg
    case ConstOff16Ind => off + "," + reg
    case AccOff => AccName(pb) + "," + reg
    case AccOffInd => AccName(pb) + "," + reg
    case PostInc1 => "," + reg + "+"
    case PostInc2 => "," + reg + "++"
    case PostInc2Ind => "," + reg + "++"
    case PreDec1 => ",-" + reg
    case PreDec2 => ",--" + reg
    case PreDec2Ind => ",--" + reg
    case PcRel8 => off + ",PCR"
    case PcRel8Ind => off + ",PCR"
    case PcRel16 => off + ",PCR"
    case PcRel16Ind => off + ",PCR"
  }

  /** The operand text of a mode, as the formatter's sprintf calls spell it; an
      indirect indexed operand is the plain one in square brackets. */
  function Operand6809(am: AddrMode, b: seq<bv8>): (s: string)
    requires |b| == MaxBytes && am.M6809?
    ensures IndexedMode(am.m6809) ==> s != [] && (s[|s| - 1] == ']' <==> IndirectP(am))
  {
    var i := OperandIndex(b[0]);
    var pb := b[i];
    var m := am.m6809;
    if IndexedMode(m) then
      (if IndirectP(am) then "[" + IndexedBody(m, b) + "]" else IndexedBody(m, b))
    else
      match m
      case Direct => "< $" + Hex(pb as nat, 2)
      case Extended => "$" + Hex(ReadU16Be(b, i), 4)
      case Rel8 => Dec(Offset6809(m, b))
      case Rel16 => Dec(Offset6809(m, b))
      case Imm8 => "#$" + Hex(pb as nat, 2)
      case Imm16 => "#$" + Hex(ReadU16Be(b, i), 4)
      case ExgTfr => ExgTfrRegName(pb >> 4) + "," + ExgTfrRegName(pb & 0x0F)
      case PshPul => JoinComma(PshPulNames(pb, b[0] == 0x34 || b[0] == 0x35, 8))
      case _ => ""
  }

  /** insn_decode_format_6809: the mnemonic, a space and the operand (the bare
      mnemonic when inherent); branches and PC-relative modes resolve their target
      as the instruction's own address plus the offset, without adding the
      instruction's length. A record whose mode is not a 6809 mode gets the
      "<?ADDRMODE?>" marker. */
  function Format6809(d: Decode): (f: Formatted)
    requires WellFormed(d)
    ensures !d.addrmode.M6809? ==> f == Formatted("<?ADDRMODE?>", None)
    ensures f.target.Some? ==>
      d.addrmode.M6809? && OperandValue6809(d.addrmode.m6809, d.bytes).Some? &&
      f.target == Some(WrapAdd(d.insnAddress, OperandValue6809(d.addrmode.m6809, d.bytes).value))
  {
    if !d.addrmode.M6809? then Formatted("<?ADDRMODE?>", None)
    else
      var m := d.addrmode.m6809;
      var opc := Mnemonic6809(d.bytes);
      var text := if m == Mode6809.Inherent then opc else opc + " " + Operand6809(d.addrmode, d.bytes);
      var target := if Resolves(m) then Some(WrapAdd(d.insnAddress, Offset6809(m, d.bytes))) else None;
      Formatted(text, target)
  }

  /** insn_decode_next_state_6809: a lone prefix waits for its second byte; then the
      mode is tried on every call until one is found, which fixes the length; the
      instruction is formatted when the fetched count reaches it. An opcode whose
      mode stays invalid never gets a length and keeps fetching. */
  function Next6809(d: Decode): (r: Decode)
    requires WellFormed(d)
    ensures WellFormed(r)
  {
    if d.state != Fetching || d.bytesFetched == 0 then d
    else if d.bytesRequired == 0 && d.bytesFetched == 1 && Prefixed(d.bytes[0]) then d
    else
      var d1 :=
        if d.bytesRequired == 0 then
          var am := Addrmode6809(d.bytesFetched, d.bytes);
          d.(addrmode := am,
             bytesRequired := if am.M6809? then Required6809(d.bytes[0], am.m6809) else d.bytesRequired)
        else d;
      if d1.bytesFetched == d1.bytesRequired then Finish(d1, Format6809(d1)) else d1
  }

  // ---------------------------------------------------------------------------
  // What the formatter writes
  // ---------------------------------------------------------------------------

  /** A branch's text and target agree: the decimal after the mnemonic reads back as
      the offset, and the target is the instruction's address plus that number. */
  lemma RelTextMatchesTarget(d: Decode)
    requires WellFormed(d) && (d.addrmode == M6809(Mode6809.Rel8) || d.addrmode == M6809(Mode6809.Rel16))
    ensures var f := Format6809(d);
      var opc := Mnemonic6809(d.bytes);
      |f.text| > |opc| + 1 && f.text[..|opc| + 1] == opc + " " &&
      var w := f.text[|opc| + 1..];
      w != [] && (if w[0] == '-' then AllDec(w[1..]) else AllDec(w)) &&
      f.target == Some(WrapAdd(d.insnAddress, DecValue(w)))
  {
    var f := Format6809(d);
    var opc := Mnemonic6809(d.bytes);
    var off := Offset6809(d.addrmode.m6809, d.bytes);
    FormatText(d);
    assert f.text == opc + " " + Dec(off);
    assert f.text[..|opc| + 1] == opc + " ";
    assert f.text[|opc| + 1..] == Dec(off);
    DecRoundTrip(off);
  }

  /** Every mode but inherent shows the mnemonic, a space and the operand. */
  lemma FormatText(d: Decode)
    requires WellFormed(d) && d.addrmode.M6809? && d.addrmode.m6809 != Mode6809.Inherent
    ensures Format6809(d).text == Mnemonic6809(d.bytes) + " " + Operand6809(d.addrmode, d.bytes)
  {
  }

  /** A PC-relative operand's text and target agree in the same way: between the
      optional bracket and ",PCR" stands a numeral whose value, added to the
      instruction's address, is the target. */
  lemma PcRelTextMatchesTarget(d: Decode)
    requires WellFormed(d) && d.addrmode.M6809? && Resolves(d.addrmode.m6809)
    requires d.addrmode != M6809(Mode6809.Rel8) && d.addrmode != M6809(Mode6809.Rel16)
    ensures var f := Format6809(d);
      var n := Dec(Offset6809(d.addrmode.m6809, d.bytes));
      f.text == Mnemonic6809(d.bytes) + " " + (if IndirectP(d.addrmode) then "[" else "") +
        n + ",PCR" + (if IndirectP(d.addrmode) then "]" else "") &&
      n != [] && (if n[0] == '-' then AllDec(n[1..]) else AllDec(n)) &&
      f.target == Some(WrapAdd(d.insnAddress, DecValue(n)))
  {
    var n := Dec(Offset6809(d.addrmode.m6809, d.bytes));
    FormatText(d);
    PcRelOperand(d.addrmode, d.bytes);
    Regroup(Mnemonic6809(d.bytes) + " ", if IndirectP(d.addrmode) then "[" else "",
      n, ",PCR", if IndirectP(d.addrmode) then "]" else "");
    DecRoundTrip(Offset6809(d.addrmode.m6809, d.bytes));
  }

  /** The operand of a PC-relative mode: the offset and ",PCR", bracketed when
      indirect. */
  lemma PcRelOperand(am: AddrMode, b: seq<bv8>)
    requires |b| == MaxBytes && am.M6809? && Resolves(am.m6809)
    requires am != M6809(Mode6809.Rel8) && am != M6809(Mode6809.Rel16)
    ensures Operand6809(am, b) ==
      (if IndirectP(am) then "[" else "") + (Dec(Offset6809(am.m6809, b)) + ",PCR") +
      (if IndirectP(am) then "]" else "")
  {
    var body := Dec(Offset6809(am.m6809, b)) + ",PCR";
    PcRelBody(am.m6809, b);
    if !IndirectP(am) {
      assert "" + body + "" == body;
    }
  }

  lemma Regroup(a: string, o: string, n: string, p: string, c: string)
    ensures a + (o + (n + p) + c) == a + o + n + p + c
  {
  }

  lemma PcRelBody(m: Mode6809, b: seq<bv8>)
    requires |b| == MaxBytes && Resolves(m) && m != Mode6809.Rel8 && m != Mode6809.Rel16
    ensures IndexedMode(m) && IndexedBody(m, b) == Dec(Offset6809(m, b)) + ",PCR"
  {
    match m
    case PcRel8 =>
    case PcRel8Ind =>
    case PcRel16 =>
    case PcRel16Ind =>
  }

  // ---------------------------------------------------------------------------
  // Reading the operand back
  // ---------------------------------------------------------------------------

  /** The number an operand shows, for the modes that show one: the byte of a
      direct or 8-bit immediate operand, the big-endian word of an extended,
      extended-indirect or 16-bit immediate one, and the signed offset of a
      branch, a constant-offset or a PC-relative mode. The other modes show
      registers only. */
  function OperandValue6809(m: Mode6809, b: seq<bv8>): Option<int>
    requires |b| == MaxBytes
  {
    var i := OperandIndex(b[0]);
    match m
    case Direct => Some(b[i] as int)
    case Imm8 => Some(b[i] as int)
    case Extended => Some(ReadU16Be(b, i))
    case Imm16 => Some(ReadU16Be(b, i))
    case ExtendedInd => Some(ReadU16Be(b, i + 1))
    case Rel8 | Rel16 | ConstOff5 | ConstOff8 | ConstOff8Ind | ConstOff16 | ConstOff16Ind
      | PcRel8 | PcRel8Ind | PcRel16 | PcRel16Ind => Some(Offset6809(m, b))
    case _ => None
  }

  /** The inside of an indirect operand's square brackets; a direct operand as is. */
  function Unbracket(indirect: bool, s: string): Option<string>
  {
    if !indirect then Some(s)
    else if |s| >= 2 && s[0] == '[' && s[|s| - 1] == ']' then Some(s[1..|s| - 1])
    else None
  }

  /** A signed offset followed by a comma and one index register. */
  function ParseRegOffset(s: string): Option<int>
  {
    if |s| >= 2 && s[|s| - 2] == ',' && s[|s| - 1] in "XYUS" then ParseDec(s[..|s| - 2]) else None
  }

  /** A signed offset followed by ",PCR". */
  function ParsePcRel(s: string): Option<int>
  {
    if |s| >= 4 && s[|s| - 4..] == ",PCR" then ParseDec(s[..|s| - 4]) else None
  }

  /** Reads an operand in a mode's notation back to the number it shows. */
  function ParseOperand6809(am: AddrMode, s: string): Option<int>
    requires am.M6809?
  {
    match Unbracket(IndexedMode(am.m6809) && IndirectP(am), s)
    case None => None
    case Some(body) => ParseBody6809(am.m6809, body)
  }

  /** The number in an operand once any brackets are off. */
  function ParseBody6809(m: Mode6809, body: string): Option<int>
  {
    match m
    case Direct => ParseHexAfter("< $", 2, body)
    case Imm8 => ParseHexAfter("#$", 2, body)
    case Extended => ParseHexAfter("$", 4, body)
    case Imm16 => ParseHexAfter("#$", 4, body)
    case ExtendedInd => ParseHexAfter("$", 4, body)
    case Rel8 | Rel16 => ParseDec(body)
    case ConstOff5 | ConstOff8 | ConstOff8Ind | ConstOff16 | ConstOff16Ind => ParseRegOffset(body)
    case PcRel8 | PcRel8Ind | PcRel16 | PcRel16Ind => ParsePcRel(body)
    case _ => None
  }

  lemma UnbracketRoundTrip(indirect: bool, s: string)
    ensures Unbracket(indirect, if indirect then "[" + s + "]" else s) == Some(s)
  {
    if indirect {
      var t := "[" + s + "]";
      assert t[1..|t| - 1] == s;
    }
  }

  lemma DecRoundTripParse(n: int)
    ensures ParseDec(Dec(n)) == Some(n)
  {
    DecRoundTrip(n);
  }

  lemma RegOffsetRoundTrip(n: int, r: bv8)
    requires r < 4
    ensures ParseRegOffset(Dec(n) + "," + IndexRegName(r)) == Some(n)
  {
    var s := Dec(n) + "," + IndexRegName(r);
    assert s[..|s| - 2] == Dec(n);
    DecRoundTripParse(n);
  }

  lemma PcRelRoundTrip(n: int)
    ensures ParsePcRel(Dec(n) + ",PCR") == Some(n)
  {
    var s := Dec(n) + ",PCR";
    assert s[|s| - 4..] == ",PCR";
    assert s[..|s| - 4] == Dec(n);
    DecRoundTripParse(n);
  }

  /** An indexed operand's body reads back as its offset or address. */
  lemma IndexedBodyRoundTrip(m: Mode6809, b: seq<bv8>)
    requires |b| == MaxBytes && IndexedMode(m)
    ensures ParseBody6809(m, IndexedBody(m, b)) == OperandValue6809(m, b)
  {
    var i := OperandIndex(b[0]);
    var off := Offset6809(m, b);
    match m
    case ExtendedInd => HexAfterRoundTrip("$", 4, ReadU16Be(b, i + 1));
    case ConstOff5 => RegOffsetRoundTrip(off, (b[i] >> 5) & 3);
    case ConstOff8 => RegOffsetRoundTrip(off, (b[i] >> 5) & 3);
    case ConstOff8Ind => RegOffsetRoundTrip(off, (b[i] >> 5) & 3);
    case ConstOff16 => RegOffsetRoundTrip(off, (b[i] >> 5) & 3);
    case ConstOff16Ind => RegOffsetRoundTrip(off, (b[i] >> 5) & 3);
    case PcRel8 => PcRelRoundTrip(off);
    case PcRel8Ind => PcRelRoundTrip(off);
    case PcRel16 => PcRelRoundTrip(off);
    case PcRel16Ind => PcRelRoundTrip(off);
    case _ =>
  }

  /** A non-indexed operand reads back as its byte, word or branch offset. */
  lemma PlainOperandRoundTrip(am: AddrMode, b: seq<bv8>)
    requires |b| == MaxBytes && am.M6809? && !IndexedMode(am.m6809)
    ensures ParseBody6809(am.m6809, Operand6809(am, b)) == OperandValue6809(am.m6809, b)
  {
    var i := OperandIndex(b[0]);
    match am.m6809
    case Direct => HexAfterRoundTrip("< $", 2, b[i] as nat);
    case Imm8 => HexAfterRoundTrip("#$", 2, b[i] as nat);
    case Extended => HexAfterRoundTrip("$", 4, ReadU16Be(b, i));
    case Imm16 => HexAfterRoundTrip("#$", 4, ReadU16Be(b, i));
    case Rel8 => DecRoundTripParse(Offset6809(Mode6809.Rel8, b));
    case Rel16 => DecRoundTripParse(Offset6809(Mode6809.Rel16, b));
    case _ =>
  }

  /** Every operand that shows a number reads back as that number: the byte or
      word of the direct, extended and immediate forms in their hex notation, and
      the signed offset of the branch, constant-offset and PC-relative forms,
      brackets included for the indirect ones. The offset read back is the one the
      target is computed from. Operands that show only registers read back as
      nothing. */
  lemma OperandRoundTrip6809(am: AddrMode, b: seq<bv8>)
    requires |b| == MaxBytes && am.M6809?
    ensures ParseOperand6809(am, Operand6809(am, b)) == OperandValue6809(am.m6809, b)
  {
    var m := am.m6809;
    var indirect := IndexedMode(m) && IndirectP(am);
    if IndexedMode(m) {
      var body := IndexedBody(m, b);
      assert Operand6809(am, b) == if indirect then "[" + body + "]" else body;
      UnbracketRoundTrip(indirect, body);
      IndexedBodyRoundTrip(m, b);
    } else {
      assert Unbracket(indirect, Operand6809(am, b)) == Some(Operand6809(am, b));
      PlainOperandRoundTrip(am, b);
    }
  }

  /** The formatted text is the mnemonic, a space and an operand that reads back as
      the number the operand shows (the offset the target is computed from, for
      branches and PC-relative modes); an inherent opcode shows the bare mnemonic. */
  lemma Format6809Shape(d: Decode)
    requires WellFormed(d) && d.addrmode.M6809?
    ensures var f := Format6809(d);
      var opc := Mnemonic6809(d.bytes);
      var m := d.addrmode.m6809;
      (m == Mode6809.Inherent ==> f.text == opc) &&
      (m != Mode6809.Inherent ==>
        |f.text| > |opc| && f.text[..|opc| + 1] == opc + " " &&
        ParseOperand6809(d.addrmode, f.text[|opc| + 1..]) == OperandValue6809(m, d.bytes))
  {
    var f := Format6809(d);
    var opc := Mnemonic6809(d.bytes);
    if d.addrmode.m6809 != Mode6809.Inherent {
      var operand := Operand6809(d.addrmode, d.bytes);
      assert f.text == opc + " " + operand;
      assert f.text[..|opc| + 1] == opc + " ";
      assert f.text[|opc| + 1..] == operand;
      OperandRoundTrip6809(d.addrmode, d.bytes);
    }
  }

  /** Only the branch and PC-relative modes resolve a target. */
  lemma TargetOnlyForBranches(d: Decode)
    requires WellFormed(d)
    ensures Format6809(d).target.Some? <==> d.addrmode.M6809? && Resolves(d.addrmode.m6809)
  {
  }

  /** An indexed operand is bracketed exactly when its mode is indirect: the text
      ends in "]" for the nine indirect modes and in something else otherwise. */
  lemma IndirectBracketed(d: Decode)
    requires WellFormed(d) && d.addrmode.M6809? && IndexedMode(d.addrmode.m6809)
    ensures var t := Format6809(d).text;
      t != [] && (t[|t| - 1] == ']' <==> IndirectP(d.addrmode))
  {
    FormatText(d);
    var operand := Operand6809(d.addrmode, d.bytes);
    var t := Format6809(d).text;
    assert t[|t| - 1] == operand[|operand| - 1];
  }

  /** The source's i + i reading: after a prefix, an 8-bit PC-relative offset is
      taken from byte 4, although the instruction is only four bytes long, so the
      text depends on a byte left over from an earlier instruction. */
  lemma PrefixedPcRel8ReadsPastEnd(b: seq<bv8>)
    requires |b| == MaxBytes && Prefixed(b[0])
    ensures Required6809(b[0], Mode6809.PcRel8) == 4
    ensures Offset6809(Mode6809.PcRel8, b) == SignExtend8(b[4])
    ensures Offset6809(ConstOff16, b) == ReadS16Be(b, 4)
  {
  }

  /** One pass of the 6809 dispatcher on a fetching record that has no length yet:
      a lone prefix changes nothing; otherwise the mode is looked up, a valid one
      fixes the length, and completion happens exactly when the fetched count
      reaches it; an invalid one leaves the record fetching with no length. */
  lemma Next6809Step(d: Decode)
    requires WellFormed(d) && d.state == Fetching && d.bytesRequired == 0
    ensures var r := Next6809(d);
      var am := Addrmode6809(d.bytesFetched, d.bytes);
      (d.bytesFetched == 1 && Prefixed(d.bytes[0]) ==> r == d) &&
      (!(d.bytesFetched == 1 && Prefixed(d.bytes[0])) ==>
        r.addrmode == am &&
        (am == Invalid ==> r == d.(addrmode := Invalid)) &&
        (am.M6809? ==>
          r.bytesRequired == Required6809(d.bytes[0], am.m6809) &&
          (r.state == Complete <==> d.bytesFetched == r.bytesRequired)))
  {
  }
}
