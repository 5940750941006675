/** The 6800 decoder (LogicAnalyzer/insn_6800.c). The opcode's range alone fixes
    the addressing mode, the mode fixes the length, and the text is the mnemonic
    followed by the operand in the mode's notation. */
module Decode6800 {
  import opened Fmt
  import opened Insn

  /** The mnemonics, by opcode; every opcode not listed is "?". */
  function Opcodes6800(op: bv8): string
  {
    match op as int
    case 0x01 => "NOP"     case 0x06 => "TAP"     case 0x07 => "TPA"     case 0x08 => "INX"     case 0x09 => "DEX"
    case 0x0A => "CLV"     case 0x0B => "SEV"     case 0x0C => "CLC"     case 0x0D => "SEC"     case 0x0E => "CLI"
    case 0x0F => "SEI"     case 0x10 => "SBA"     case 0x11 => "CBA"     case 0x16 => "TAB"     case 0x17 => "TBA"
    case 0x19 => "DAA"     case 0x1B => "ABA"     case 0x20 => "BRA"     case 0x22 => "BHI"     case 0x23 => "BLS"
    case 0x24 => "BCC"     case 0x25 => "BCS"     case 0x26 => "BNE"     case 0x27 => "BEQ"     case 0x28 => "BVC"
    case 0x29 => "BVS"     case 0x2A => "BPL"     case 0x2B => "BMI"     case 0x2C => "BGE"     case 0x2D => "BLT"
    case 0x2E => "BGT"     case 0x2F => "BLE"     case 0x30 => "TSX"     case 0x31 => "INS"     case 0x32 => "PULA"
    case 0x33 => "PULB"    case 0x34 => "DES"     case 0x35 => "TXS"     case 0x36 => "PSHA"    case 0x37 => "PSHB"
    case 0x39 => "RTS"     case 0x3B => "RTI"     case 0x3E => "WAI"     case 0x3F => "SWI"     case 0x40 => "NEGA"
    case 0x43 => "COMA"    case 0x44 => "LSRA"    case 0x46 => "RORA"    case 0x47 => "ASRA"    case 0x48 => "ASLA"
    case 0x49 => "ROLA"    case 0x4A => "DECA"    case 0x4C => "INCA"    case 0x4D => "TSTA"    case 0x4F => "CLRA"
    case 0x50 => "NEGB"    case 0x53 => "COMB"    case 0x54 => "LSRB"    case 0x56 => "RORB"    case 0x57 => "ASRB"
    case 0x58 => "ASLB"    case 0x59 => "ROLB"    case 0x5A => "DECB"    case 0x5C => "INCB"    case 0x5D => "TSTB"
    case 0x5F => "CLRB"    case 0x60 => "NEG"     case 0x63 => "COM"     case 0x64 => "LSR"     case 0x66 => "ROR"
    case 0x67 => "ASR"     case 0x68 => "ASL"     case 0x69 => "ROL"     case 0x6A => "DEC"     case 0x6C => "INC"
    case 0x6D => "TST"     case 0x6E => "JMP"     case 0x6F => "CLR"     case 0x70 => "NEG"     case 0x73 => "COM"
    case 0x74 => "LSR"     case 0x76 => "ROR"     case 0x77 => "ASR"     case 0x78 => "ASL"     case 0x79 => "ROL"
    case 0x7A => "DEC"     case 0x7C => "INC"     case 0x7D => "TST"     case 0x7E => "JMP"     case 0x7F => "CLR"
    case 0x80 => "SUBA"    case 0x81 => "CMPA"    case 0x82 => "SBCA"    case 0x84 => "ANDA"    case 0x85 => "BITA"
    case 0x86 => "LDAA"    case 0x88 => "EORA"    case 0x89 => "ADCA"    case 0x8A => "ORAA"    case 0x8B => "ADDA"
    case 0x8C => "CPX"     case 0x8D => "BSR"     case 0x8E => "LDS"     case 0x90 => "SUBA"    case 0x91 => "CMPA"
    case 0x92 => "SBCA"    case 0x94 => "ANDA"    case 0x95 => "BITA"    case 0x96 => "LDAA"    case 0x97 => "STAA"
    case 0x98 => "EORA"    case 0x99 => "ADCA"    case 0x9A => "ORAA"    case 0x9B => "ADDA"    case 0x9C => "CPX"
    case 0x9E => "LDS"     case 0x9F => "STS"     case 0xA0 => "SUBA"    case 0xA1 => "CMPA"    case 0xA2 => "SBCA"
    case 0xA4 => "ANDA"    case 0xA5 => "BITA"    case 0xA6 => "LDAA"    case 0xA7 => "STAA"    case 0xA8 => "EORA"
    case 0xA9 => "ADCA"    case 0xAA => "ORAA"    case 0xAB => "ADDA"    case 0xAC => "CPX"     case 0xAD => "JSR"
    case 0xAE => "LDS"     case 0xAF => "STS"     case 0xB0 => "SUBA"    case 0xB1 => "CMPA"    case 0xB2 => "SBCA"
    case 0xB4 => "ANDA"    case 0xB5 => "BITA"    case 0xB6 => "LDAA"    case 0xB7 => "STAA"    case 0xB8 => "EORA"
    case 0xB9 => "ADCA"    case 0xBA => "ORAA"    case 0xBB => "ADDA"    case 0xBC => "CPX"     case 0xBD => "JSR"
    case 0xBE => "LDS"     case 0xBF => "STS"     case 0xC0 => "SUBB"    case 0xC1 => "CMPB"    case 0xC2 => "SBCB"
    case 0xC4 => "ANDB"    case 0xC5 => "BITB"    case 0xC6 => "LDAB"    case 0xC8 => "EORB"    case 0xC9 => "ADCB"
    case 0xCA => "ORAB"    case 0xCB => "ADDB"    case 0xCE => "LDX"     case 0xD0 => "SUBB"    case 0xD1 => "CMPB"
    case 0xD2 => "SBCB"    case 0xD4 => "ANDB"    case 0xD5 => "BITB"    case 0xD6 => "LDAB"    case 0xD7 => "STAB"
    case 0xD8 => "EORB"    case 0xD9 => "ADCB"    case 0xDA => "ORAB"    case 0xDB => "ADDB"    case 0xDE => "LDX"
    case 0xDF => "STX"     case 0xE0 => "SUBB"    case 0xE1 => "CMPB"    case 0xE2 => "SBCB"    case 0xE4 => "ANDB"
    case 0xE5 => "BITB"    case 0xE6 => "LDAB"    case 0xE7 => "STAB"    case 0xE8 => "EORB"    case 0xE9 => "ADCB"
    case 0xEA => "ORAB"    case 0xEB => "ADDB"    case 0xEE => "LDX"     case 0xEF => "STX"     case 0xF0 => "SUBB"
    case 0xF1 => "CMPB"    case 0xF2 => "SBCB"    case 0xF4 => "ANDB"    case 0xF5 => "BITB"    case 0xF6 => "LDAB"
    case 0xF7 => "STAB"    case 0xF8 => "EORB"    case 0xF9 => "ADCB"    case 0xFA => "ORAB"    case 0xFB => "ADDB"
    case 0xFE => "LDX"     case 0xFF => "STX"
    case _ => "?"
  }

  // ---------------------------------------------------------------------------
  // Addressing mode and length
  // ---------------------------------------------------------------------------

  /** insn_decode_addrmode_6800: the mode from the opcode's range. The decoding is
      deliberately incomplete, so undefined opcodes get a mode too; the only
      invalid answer is for an empty buffer. */
  function Addrmode6800(fetched: int, op: bv8): (am: AddrMode)
    ensures fetched == 0 <==> am == Invalid
    ensures am != Invalid ==> am.M6800?
  {
    if fetched == 0 then Invalid
    else if op <= 0x1F || (0x30 <= op <= 0x5F) then M6800(Mode6800.Inherent)
    else if 0x20 <= op <= 0x2F then M6800(Rel)
    else if (0x60 <= op <= 0x6F) || (0xA0 <= op <= 0xAF) || (0xE0 <= op <= 0xEF) then M6800(Indexed)
    else if (0x70 <= op <= 0x7F) || (0xB0 <= op <= 0xBF) || 0xF0 <= op then M6800(Mode6800.Extended)
    else if (0x80 <= op <= 0x8F) || (0xC0 <= op <= 0xCF) then
      (if op == 0x8D then M6800(Rel)
       else if op == 0x8E || op == 0xCE then M6800(Mode6800.Imm16)
       else M6800(Mode6800.Imm8))
    else if (0x90 <= op <= 0x9F) || (0xD0 <= op <= 0xDF) then M6800(Mode6800.Direct)
    else Invalid
  }

  /** The data sheet's opcode map read column by column: the high nibble names the
      mode, with BSR (8D) and the 16-bit immediates LDS/LDX (8E, CE) as the only
      exceptions inside the immediate columns. */
  function ModeByColumn(op: bv8): Mode6800
  {
    var hi := op >> 4;
    if hi == 0x2 || op == 0x8D then Rel
    else if hi == 0x6 || hi == 0xA || hi == 0xE then Indexed
    else if hi == 0x7 || hi == 0xB || hi == 0xF then Mode6800.Extended
    else if hi == 0x9 || hi == 0xD then Mode6800.Direct
    else if op == 0x8E || op == 0xCE then Mode6800.Imm16
    else if hi == 0x8 || hi == 0xC then Mode6800.Imm8
    else Mode6800.Inherent
  }

  /** The range classifier and the column reading agree on every opcode. */
  lemma AddrmodeMatchesColumns(op: bv8)
    ensures Addrmode6800(1, op) == M6800(ModeByColumn(op))
  {
  }

  /** The instruction length each mode implies. */
  function Length6800(m: Mode6800): (n: nat)
    ensures 1 <= n <= 3
  {
    match m
    case Inherent => 1
    case Rel => 2
    case Indexed => 2
    case Imm8 => 2
    case Direct => 2
    case Extended => 3
    case Imm16 => 3
  }

  // ---------------------------------------------------------------------------
  // Formatting
  // ---------------------------------------------------------------------------

  /** The operand text of a mode, as the formatter's sprintf calls spell it. */
  function Operand6800(m: Mode6800, bytes: seq<bv8>): (s: string)
    requires |bytes| == MaxBytes
    ensures s == [] <==> m == Mode6800.Inherent
  {
    match m
    case Inherent => ""
    case Rel => Dec(SignExtend8(bytes[1]))
    case Indexed => DecDigits(bytes[1] as nat) + ",X"
    case Extended => "$" + Hex(ReadU16Be(bytes, 1), 4)
    case Direct => "$" + Hex(bytes[1] as nat, 2)
    case Imm8 => "#$" + Hex(bytes[1] as nat, 2)
    case Imm16 => "#$" + Hex(ReadU16Be(bytes, 1), 4)
  }

  /** insn_decode_format_6800: the mnemonic, then a space and the operand unless
      the mode is inherent; a relative branch also resolves its target, the address
      after the two-byte instruction plus the signed offset. A record whose mode is
      not a 6800 mode gets the "<?ADDRMODE?>" marker. */
  function Format6800(d: Decode): (f: Formatted)
    requires WellFormed(d)
    ensures !d.addrmode.M6800? ==> f == Formatted("<?ADDRMODE?>", None)
    ensures f.target.Some? <==> d.addrmode == M6800(Mode6800.Rel)
  {
    var opc := Opcodes6800(d.bytes[0]);
    match d.addrmode
    case M6800(m) =>
      if m == Mode6800.Inherent then Formatted(opc, None)
      else
        var target := if m == Rel then Some(WrapAdd(d.insnAddress, 2 + SignExtend8(d.bytes[1]))) else None;
        Formatted(opc + " " + Operand6800(m, d.bytes), target)
    case _ => Formatted("<?ADDRMODE?>", None)
  }

  /** insn_decode_next_state_6800: classify and size on the first call, then format
      and complete once the fetched count reaches the length. */
  function Next6800(d: Decode): (r: Decode)
    requires WellFormed(d)
    ensures WellFormed(r)
  {
    if d.state != Fetching || d.bytesFetched == 0 then d
    else
      var d1 :=
        if d.bytesRequired == 0 then
          var am := Addrmode6800(d.bytesFetched, d.bytes[0]);
          d.(addrmode := am, bytesRequired := if am.M6800? then Length6800(am.m6800) else d.bytesRequired)
        else d;
      if d1.bytesFetched == d1.bytesRequired then Finish(d1, Format6800(d1)) else d1
  }

  // ---------------------------------------------------------------------------
  // Reading the text back
  // ---------------------------------------------------------------------------

  /** The number an operand stands for: the signed offset of a branch, the byte of
      an indexed, direct or 8-bit immediate operand, the big-endian word of an
      extended or 16-bit immediate one. */
  function OperandValue(m: Mode6800, bytes: seq<bv8>): int
    requires |bytes| == MaxBytes
  {
    match m
    case Inherent => 0
    case Rel => SignExtend8(bytes[1])
    case Indexed => bytes[1] as int
    case Direct => bytes[1] as int
    case Imm8 => bytes[1] as int
    case Extended => ReadU16Be(bytes, 1)
    case Imm16 => ReadU16Be(bytes, 1)
  }

  /** Reads an operand in a mode's notation back to the number it shows. */
  function ParseOperand6800(m: Mode6800, s: string): Option<int>
  {
    match m
    case Inherent => if s == [] then Some(0) else None
    case Rel => ParseDec(s)
    case Indexed =>
      if |s| >= 3 && s[|s| - 2..] == ",X" && AllDec(s[..|s| - 2])
      then Some(DecDigitsValue(s[..|s| - 2]) as int) else None
    case Direct => ParseHexAfter("$", 2, s)
    case Imm8 => ParseHexAfter("#$", 2, s)
    case Extended => ParseHexAfter("$", 4, s)
    case Imm16 => ParseHexAfter("#$", 4, s)
  }

  /** Every operand reads back as the number it was made from, in the field width
      the format gives it. */
  lemma OperandRoundTrip(m: Mode6800, bytes: seq<bv8>)
    requires |bytes| == MaxBytes
    ensures ParseOperand6800(m, Operand6800(m, bytes)) == Some(OperandValue(m, bytes))
  {
    match m
    case Inherent =>
    case Rel => DecRoundTrip(SignExtend8(bytes[1]));
    case Indexed =>
      var digits := DecDigits(bytes[1] as nat);
      var s := digits + ",X";
      DecDigitsSpell(bytes[1] as nat);
      assert s[|s| - 2..] == ",X";
      assert s[..|s| - 2] == digits;
    case Direct => HexAfterRoundTrip("$", 2, bytes[1] as nat);
    case Imm8 => HexAfterRoundTrip("#$", 2, bytes[1] as nat);
    case Extended => HexAfterRoundTrip("$", 4, ReadU16Be(bytes, 1));
    case Imm16 => HexAfterRoundTrip("#$", 4, ReadU16Be(bytes, 1));
  }

  /** The formatted text is the mnemonic, a space and an operand that reads back as
      the operand's value; only a branch resolves a target, 2 + offset past the
      instruction. An inherent opcode shows the bare mnemonic. */
  lemma Format6800Shape(d: Decode)
    requires WellFormed(d) && d.addrmode.M6800?
    ensures var f := Format6800(d);
      var opc := Opcodes6800(d.bytes[0]);
      var m := d.addrmode.m6800;
      (m == Mode6800.Inherent ==> f == Formatted(opc, None)) &&
      (m != Mode6800.Inherent ==>
        |f.text| > |opc| && f.text[..|opc| + 1] == opc + " " &&
        ParseOperand6800(m, f.text[|opc| + 1..]) == Some(OperandValue(m, d.bytes))) &&
      (f.target.Some? <==> m == Rel) &&
      (m == Rel ==> f.target == Some(WrapAdd(d.insnAddress, 2 + OperandValue(m, d.bytes))))
  {
    var f := Format6800(d);
    var opc := Opcodes6800(d.bytes[0]);
    var m := d.addrmode.m6800;
    if m != Mode6800.Inherent {
      var operand := Operand6800(m, d.bytes);
      assert f.text == opc + " " + operand;
      assert f.text[..|opc| + 1] == opc + " ";
      assert f.text[|opc| + 1..] == operand;
      OperandRoundTrip(m, d.bytes);
    }
  }

  /** The first call fixes mode and length from the opcode alone; the session
      completes on exactly the call where the fetched count reaches the length. */
  lemma Next6800Step(d: Decode)
    requires WellFormed(d) && d.state == Fetching && d.bytesRequired == 0
    ensures var m := ModeByColumn(d.bytes[0]);
      var r := Next6800(d);
      r.addrmode == M6800(m) && r.bytesRequired == Length6800(m) &&
      (r.state == Complete <==> d.bytesFetched == Length6800(m)) &&
      (r.state != Complete ==> r == d.(addrmode := M6800(m), bytesRequired := Length6800(m)))
  {
    AddrmodeMatchesColumns(d.bytes[0]);
  }
}
