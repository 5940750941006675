/** The 6502 / 65C02 decoder (LogicAnalyzer/insn_6502.c). Each opcode maps to a
    display template; the placeholder in the template ("nnnn", "nn" or "rrrr")
    fixes how many operand bytes follow and how they are shown. */
module Decode6502 {
  import opened Fmt
  import opened Insn

  /** The 65C02 templates, by opcode; every opcode not listed is "?". */
  function Opcodes65C02(op: bv8): string
  {
    match op as int
    case 0x00 => "BRK"          case 0x01 => "ORA ($nn,X)"  case 0x04 => "TSB $nn"      case 0x05 => "ORA $nn"
    case 0x06 => "ASL $nn"      case 0x07 => "RMB0 $nn"     case 0x08 => "PHP"          case 0x09 => "ORA #$nn"
    case 0x0A => "ASLA"         case 0x0C => "TSB $nnnn"    case 0x0D => "ORA $nnnn"    case 0x0E => "ASL $nnnn"
    case 0x0F => "BBR0 $nn"     case 0x10 => "BPL rrrr"     case 0x11 => "ORA ($nn),Y"  case 0x12 => "ORA ($nn)"
    case 0x14 => "TRB $nn"      case 0x15 => "ORA $nn,X"    case 0x16 => "ASL $nn,X"    case 0x17 => "RMB1 $nn"
    case 0x18 => "CLC"          case 0x19 => "ORA $nnnn,Y"  case 0x1A => "INCA"         case 0x1C => "TRB $nnnn"
    case 0x1D => "ORA $nnnn,X"  case 0x1E => "ASL $nnnn,X"  case 0x1F => "BBR1 $nn"     case 0x20 => "JSR $nnnn"
    case 0x21 => "AND ($nn,X)"  case 0x24 => "BIT $nn"      case 0x25 => "AND $nn"      case 0x26 => "ROL $nn"
    case 0x27 => "RMB2 $nn"     case 0x28 => "PLP"          case 0x29 => "AND #$nn"     case 0x2A => "ROLA"
    case 0x2C => "BIT $nnnn"    case 0x2D => "AND $nnnn"    case 0x2E => "ROL $nnnn"    case 0x2F => "BBR2 $nn"
    case 0x30 => "BMI rrrr"     case 0x31 => "AND ($nn),Y"  case 0x32 => "AND ($nn)"    case 0x34 => "BIT $nn,X"
    case 0x35 => "AND $nn,X"    case 0x36 => "ROL $nn,X"    case 0x37 => "RMB3 $nn"     case 0x38 => "SEC"
    case 0x39 => "AND $nnnn,Y"  case 0x3A => "DECA"         case 0x3C => "BIT $nn,X"    case 0x3D => "AND $nnnn,X"
    case 0x3E => "ROL $nnnn,X"  case 0x3F => "BBR3 $nn"     case 0x40 => "RTI"          case 0x41 => "EOR ($nn,X)"
    case 0x45 => "EOR $nn"      case 0x46 => "LSR $nn"      case 0x47 => "RMB4 $nn"     case 0x48 => "PHA"
    case 0x49 => "EOR #$nn"     case 0x4A => "LSRA"         case 0x4C => "JMP $nnnn"    case 0x4D => "EOR $nnnn"
    case 0x4E => "LSR $nnnn"    case 0x4F => "BBR4 $nn"     case 0x50 => "BVC rrrr"     case 0x51 => "EOR ($nn),Y"
    case 0x52 => "EOR ($nn)"    case 0x55 => "EOR $nn,X"    case 0x56 => "LSR $nn,X"    case 0x57 => "RMB5 $nn"
    case 0x58 => "CLI"          case 0x59 => "EOR $nnnn,Y"  case 0x5A => "PHY"          case 0x5D => "EOR $nnnn,X"
    case 0x5E => "LSR $nnnn,X"  case 0x5F => "BBR5 $nn"     case 0x60 => "RTS"          case 0x61 => "ADC ($nn,X)"
    case 0x64 => "STZ $nn"      case 0x65 => "ADC $nn"      case 0x66 => "ROR $nn"      case 0x67 => "RMB6 $nn"
    case 0x68 => "PLA"          case 0x69 => "ADC #$nn"     case 0x6A => "RORA"         case 0x6C => "JMP ($nnnn)"
    case 0x6D => "ADC $nnnn"    case 0x6E => "ROR $nnnn"    case 0x6F => "BBR6 $nn"     case 0x70 => "BVS rrrr"
    case 0x71 => "ADC ($nn),Y"  case 0x72 => "ADC ($nn)"    case 0x74 => "STZ $nn,X"    case 0x75 => "ADC $nn,X"
    case 0x76 => "ROR $nn,X"    case 0x77 => "RMB7 $nn"     case 0x78 => "SEI"          case 0x79 => "ADC $nnnn,Y"
    case 0x7A => "PLY"          case 0x7C => "JMP ($nn,X)"  case 0x7D => "ADC $nnnn,X"  case 0x7E => "ROR $nnnn,X"
    case 0x7F => "BBR7 $nn"     case 0x80 => "BRA rrrr"     case 0x81 => "STA ($nn,X)"  case 0x84 => "STY $nn"
    case 0x85 => "STA $nn"      case 0x86 => "STX $nn"      case 0x87 => "SMB0 $nn"     case 0x88 => "DEY"
    case 0x89 => "BIT #$nn"     case 0x8A => "TXA"          case 0x8C => "STY $nnnn"    case 0x8D => "STA $nnnn"
    case 0x8E => "STX $nnnn"    case 0x8F => "BBS0 $nn"     case 0x90 => "BCC rrrr"     case 0x91 => "STA ($nn),Y"
    case 0x92 => "STA ($nn)"    case 0x94 => "STY $nn,X"    case 0x95 => "STA $nn,X"    case 0x96 => "STX ($nn),Y"
    case 0x97 => "SMB1 $nn"     case 0x98 => "TYA"          case 0x99 => "STA $nnnn,Y"  case 0x9A => "TXS"
    case 0x9C => "STZ $nn"      case 0x9D => "STA $nnnn,X"  case 0x9E => "STZ $nn,X"    case 0x9F => "BBS1 $nn"
    case 0xA0 => "LDY #$nn"     case 0xA1 => "LDA ($nn,X)"  case 0xA2 => "LDX #$nn"     case 0xA4 => "LDY $nn"
    case 0xA5 => "LDA $nnnn"    case 0xA6 => "LDX $nn"      case 0xA7 => "SMB2 $nn"     case 0xA8 => "TAY"
    case 0xA9 => "LDA #$nn"     case 0xAA => "TAX"          case 0xAC => "LDY $nnnn"    case 0xAD => "LDA $nnnn"
    case 0xAE => "LDX $nnnn"    case 0xAF => "BBS2 $nn"     case 0xB0 => "BCS rrrr"     case 0xB1 => "LDA ($nn),Y"
    case 0xB2 => "LDA ($nn)"    case 0xB4 => "LDY $nn,X"    case 0xB5 => "LDA $nn,X"    case 0xB6 => "LDX ($nn),Y"
    case 0xB7 => "SMB3 $nn"     case 0xB8 => "CLV"          case 0xB9 => "LDA $nnnn,Y"  case 0xBA => "TSX"
    case 0xBC => "LDY $nnnn,X"  case 0xBD => "LDA $nnnn,X"  case 0xBE => "LDX $nnnn,Y"  case 0xBF => "BBS3 $nn"
    case 0xC0 => "CPY #$nn"     case 0xC1 => "CMP ($nn,X)"  case 0xC4 => "CPY $nnnn"    case 0xC5 => "CMP $nnnn"
    case 0xC6 => "DEC $nnnn"    case 0xC7 => "SMB4 $nn"     case 0xC8 => "INY"          case 0xC9 => "CMP #$nn"
    case 0xCA => "DEX"          case 0xCB => "WAI"          case 0xCC => "CPY $nn"      case 0xCD => "CMP $nn"
    case 0xCE => "DEC $nn"      case 0xCF => "BBS4 $nn"     case 0xD0 => "BNE rrrr"     case 0xD1 => "CMP ($nn),Y"
    case 0xD2 => "CMP ($nn)"    case 0xD5 => "CMP $nn,X"    case 0xD6 => "DEC $nn,X"    case 0xD7 => "SMB5 $nn"
    case 0xD8 => "CLD"          case 0xD9 => "CMP $nnnn,Y"  case 0xDA => "PHX"          case 0xDB => "STP"
    case 0xDD => "CMP $nnnn,X"  case 0xDE => "DEC $nnnn,X"  case 0xDF => "BBS5 $nn"     case 0xE0 => "CPX #$nn"
    case 0xE1 => "SBC ($nn,X)"  case 0xE4 => "CPX $nn"      case 0xE5 => "SBC $nn"      case 0xE6 => "INC $nn"
    case 0xE7 => "SMB6 $nn"     case 0xE8 => "INX"          case 0xE9 => "SBC #$nn"     case 0xEA => "NOP"
    case 0xEC => "CPX $nnnn"    case 0xED => "SBC $nnnn"    case 0xEE => "INC $nnnn"    case 0xEF => "BBS6 $nn"
    case 0xF0 => "BEQ rrrr"     case 0xF1 => "SBC ($nn),Y"  case 0xF2 => "SBC ($nn)"    case 0xF5 => "SBC $nn,X"
    case 0xF6 => "INC $nn,X"    case 0xF7 => "SMB7 $nn"     case 0xF8 => "SED"          case 0xF9 => "SBC $nnnn,Y"
    case 0xFA => "PLX"          case 0xFD => "SBC $nnnn,X"  case 0xFE => "INC $nnnn,X"  case 0xFF => "BBS7 $nn"
    case _ => "?"
  }

  /** The NMOS 6502 templates, by opcode; every opcode not listed is "?". */
  function Opcodes6502(op: bv8): string
  {
    match op as int
    case 0x00 => "BRK"          case 0x01 => "ORA ($nn,X)"  case 0x05 => "ORA $nn"      case 0x06 => "ASL $nn"
    case 0x08 => "PHP"          case 0x09 => "ORA #$nn"     case 0x0A => "ASLA"         case 0x0D => "ORA $nnnn"
    case 0x0E => "ASL $nnnn"    case 0x10 => "BPL rrrr"     case 0x11 => "ORA ($nn),Y"  case 0x15 => "ORA $nn,X"
    case 0x16 => "ASL $nn,X"    case 0x18 => "CLC"          case 0x19 => "ORA $nnnn,Y"  case 0x1D => "ORA $nnnn,X"
    case 0x1E => "ASL $nnnn,X"  case 0x20 => "JSR $nnnn"    case 0x21 => "AND ($nn,X)"  case 0x24 => "BIT $nn"
    case 0x25 => "AND $nn"      case 0x26 => "ROL $nn"      case 0x28 => "PLP"          case 0x29 => "AND #$nn"
    case 0x2A => "ROLA"         case 0x2C => "BIT $nnnn"    case 0x2D => "AND $nnnn"    case 0x2E => "ROL $nnnn"
    case 0x30 => "BMI rrrr"     case 0x31 => "AND ($nn),Y"  case 0x35 => "AND $nn,X"    case 0x36 => "ROL $nn,X"
    case 0x38 => "SEC"          case 0x39 => "AND $nnnn,Y"  case 0x3D => "AND $nnnn,X"  case 0x3E => "ROL $nnnn,X"
    case 0x40 => "RTI"          case 0x41 => "EOR ($nn,X)"  case 0x45 => "EOR nn"       case 0x46 => "LSR $nn"
    case 0x48 => "PHA"          case 0x49 => "EOR #$nn"     case 0x4A => "LSRA"         case 0x4C => "JMP $nnnn"
    case 0x4D => "EOR $nnnn"    case 0x4E => "LSR $nnnn"    case 0x50 => "BVC rrrr"     case 0x51 => "EOR ($nn),Y"
    case 0x55 => "EOR $nn,X"    case 0x56 => "LSR $nn,X"    case 0x58 => "CLI"          case 0x59 => "EOR $nnnn,Y"
    case 0x5D => "EOR $nnnn,X"  case 0x5E => "LSR $nnnn,X"  case 0x60 => "RTS"          case 0x61 => "ADC ($nn,X)"
    case 0x65 => "ADC $nn"      case 0x66 => "ROR $nn"      case 0x68 => "PLA"          case 0x69 => "ADC #$nn"
    case 0x6A => "RORA"         case 0x6C => "JMP ($nnnn)"  case 0x6D => "ADC $nnnn"    case 0x6E => "ROR $nnnn"
    case 0x70 => "BVS rrrr"     case 0x71 => "ADC ($nn),Y"  case 0x75 => "ADC $nn,X"    case 0x76 => "ROR $nn,X"
    case 0x78 => "SEI"          case 0x79 => "ADC $nnnn,Y"  case 0x7D => "ADC $nnnn,X"  case 0x7E => "ROR $nnnn,X"
    case 0x81 => "STA ($nn,X)"  case 0x84 => "STY $nn"      case 0x85 => "STA $nn"      case 0x86 => "STX $nn"
    case 0x88 => "DEY"          case 0x8A => "TXA"          case 0x8C => "STY $nnnn"    case 0x8D => "STA $nnnn"
    case 0x8E => "STX $nnnn"    case 0x90 => "BCC rrrr"     case 0x91 => "STA ($nn),Y"  case 0x94 => "STY $nn,X"
    case 0x95 => "STA $nn,X"    case 0x96 => "STX $nn,Y"    case 0x98 => "TYA"          case 0x99 => "STA $nnnn,Y"
    case 0x9A => "TXS"          case 0x9D => "STA $nnnn,X"  case 0xA0 => "LDY #$nn"     case 0xA1 => "LDA ($nn,X)"
    case 0xA2 => "LDX #$nn"     case 0xA4 => "LDY $nn"      case 0xA5 => "LDA $nn"      case 0xA6 => "LDX $nn"
    case 0xA8 => "TAY"          case 0xA9 => "LDA #$nn"     case 0xAA => "TAX"          case 0xAC => "LDY $nnnn"
    case 0xAD => "LDA $nnnn"    case 0xAE => "LDX $nnnn"    case 0xB0 => "BCS rrrr"     case 0xB1 => "LDA ($nn),Y"
    case 0xB4 => "LDY $nn,X"    case 0xB5 => "LDA $nn,X"    case 0xB6 => "LDX $nn,Y"    case 0xB8 => "CLV"
    case 0xB9 => "LDA $nnnn,Y"  case 0xBA => "TSX"          case 0xBC => "LDY $nnnn,X"  case 0xBD => "LDA $nnnn,X"
    case 0xBE => "LDX $nnnn,Y"  case 0xC0 => "CPY #$nn"     case 0xC1 => "CMP ($nn,X)"  case 0xC4 => "CPY $nn"
    case 0xC5 => "CMP $nn"      case 0xC6 => "DEC $nn"      case 0xC8 => "INY"          case 0xC9 => "CMP #$nn"
    case 0xCA => "DEX"          case 0xCC => "CPY $nnnn"    case 0xCD => "CMP $nnnn"    case 0xCE => "DEC $nnnn"
    case 0xD0 => "BNE rrrr"     case 0xD1 => "CMP ($nn),Y"  case 0xD5 => "CMP $nn,X"    case 0xD6 => "DEC $nn,X"
    case 0xD8 => "CLD"          case 0xD9 => "CMP $nnnn,Y"  case 0xDD => "CMP $nnnn,X"  case 0xDE => "DEC $nnnn,X"
    case 0xE0 => "CPX #$nn"     case 0xE1 => "SBC ($nn,X)"  case 0xE4 => "CPX $nn"      case 0xE5 => "SBC $nn"
    case 0xE6 => "INC $nn"      case 0xE8 => "INX"          case 0xE9 => "SBC #$nn"     case 0xEA => "NOP"
    case 0xEC => "CPX $nnnn"    case 0xED => "SBC $nnnn"    case 0xEE => "INC $nnnn"    case 0xF0 => "BEQ rrrr"
    case 0xF1 => "SBC ($nn),Y"  case 0xF5 => "SBC $nn,X"    case 0xF6 => "INC $nn,X"    case 0xF8 => "SED"
    case 0xF9 => "SBC $nnnn,Y"  case 0xFD => "SBC $nnnn,X"  case 0xFE => "INC $nnnn,X"
    case _ => "?"
  }

  /** The table in force: the 65C02 one exactly when the CPU is a 65C02. */
  function Template(cpu: Cpu, op: bv8): (t: string)
    ensures cpu == Cpu65C02 ==> t == Opcodes65C02(op)
    ensures cpu != Cpu65C02 ==> t == Opcodes6502(op)
  {
    if cpu == Cpu65C02 then Opcodes65C02(op) else Opcodes6502(op)
  }

  // ---------------------------------------------------------------------------
  // Length and mode from the template
  // ---------------------------------------------------------------------------

  /** The placeholder each mode substitutes ("" for implied). */
  function Placeholder(m: Mode6502): string
  {
    match m
    case Implied => ""
    case U8 => "nn"
    case U16 => "nnnn"
    case Rel8 => "rrrr"
  }

  /** How many bytes each mode's operand occupies after the opcode. */
  function OperandBytes(m: Mode6502): nat
  {
    match m
    case Implied => 0
    case U8 => 1
    case U16 => 2
    case Rel8 => 1
  }

  /** The mode and total length the decoder reads off a template: "nnnn" is tried
      first, then "nn", then "rrrr"; a template with none of them is implied. The
      length is the opcode plus the operand the chosen placeholder stands for. */
  function Classify(t: string): (r: (Mode6502, nat))
    ensures r.1 == 1 + OperandBytes(r.0)
    ensures !r.0.Implied? ==> Contains(t, Placeholder(r.0))
    ensures r.0.Implied? ==> !Contains(t, "nn") && !Contains(t, "rrrr")
    ensures Contains(t, "nnnn") ==> r.0.U16?
    ensures r.0.Rel8? ==> !Contains(t, "nn")
  {
    if Contains(t, "nnnn") then (Mode6502.U16, 3)
    else if Contains(t, "nn") then (Mode6502.U8, 2)
    else if Contains(t, "rrrr") then (Mode6502.Rel8, 2)
    else (Mode6502.Implied, 1)
  }

  // ---------------------------------------------------------------------------
  // Formatting
  // ---------------------------------------------------------------------------

  /** "%04X" of the little-endian operand word, as intended: four hex digits. */
  function U16Digits(v: nat): (s: string)
    requires v < 65536
    ensures |s| == 4 && AllHex(s) && HexValue(s) == v
  {
    Hex4Width(v);
    HexRoundTrip(v, 4);
    Hex(v, 4)
  }

  /** The four characters the source copies for a word operand as written: the
      word passes through an int16_t, so from 0x8000 up it is negative, "%04X"
      prints it as a 32-bit unsigned value, and the first four of its eight digits
      are kept. */
  function U16DigitsAsWritten(v: nat): (s: string)
    requires v < 65536
    ensures v < 0x8000 ==> s == U16Digits(v)
  {
    var printed := if v < 0x8000 then v else v - 65536 + 0x1_0000_0000;
    HexAtLeast(printed, 4);
    Hex(printed, 4)[..4]
  }

  /** insn_decode_format_6502: copy the template and overwrite its placeholder with
      the operand; a branch also resolves its target, the address after the
      instruction plus the signed offset. */
  function Format6502(cpu: Cpu, d: Decode): (f: Formatted)
    requires WellFormed(d)
    ensures |f.text| == |Template(cpu, d.bytes[0])|
    ensures f.target.Some? ==> d.addrmode == M6502(Mode6502.Rel8)
  {
    FormatTemplate(Template(cpu, d.bytes[0]), d)
  }

  /** The formatter's work once the opcode's template t is looked up. */
  function FormatTemplate(t: string, d: Decode): (f: Formatted)
    requires WellFormed(d)
    ensures |f.text| == |t|
    ensures f.target.Some? ==> d.addrmode == M6502(Mode6502.Rel8)
    ensures !d.addrmode.M6502? || d.addrmode == M6502(Mode6502.Implied) ==> f == Formatted(t, None)
  {
    match d.addrmode
    case M6502(U8) =>
      (match Find(t, "nn")
       case Some(p) => Hex2Width(d.bytes[1] as nat); Formatted(Overwrite(t, p, Hex(d.bytes[1] as nat, 2)), None)
       case None => Formatted(t, None))
    case M6502(U16) =>
      (match Find(t, "nnnn")
       case Some(p) => Formatted(Overwrite(t, p, U16Digits(ReadU16Le(d.bytes, 1))), None)
       case None => Formatted(t, None))
    case M6502(Rel8) =>
      (match Find(t, "rrrr")
       case Some(p) =>
         var v := SignExtend8(d.bytes[1]);
         DecFitsFour(v);
         Formatted(Overwrite(t, p, LeftJustify(Dec(v), 4)), Some(WrapAdd(d.insnAddress, d.bytesRequired + v)))
       case None => Formatted(t, None))
    case _ => Formatted(t, None)
  }

  /** insn_decode_next_state_6502: on the first call classify the opcode's template,
      then, once as many bytes as it needs are in, format and complete. */
  function Next6502(cpu: Cpu, d: Decode): (r: Decode)
    requires WellFormed(d)
    ensures WellFormed(r)
  {
    if d.state != Fetching || d.bytesFetched == 0 then d
    else
      var d1 :=
        if d.bytesRequired == 0 then
          var c := Classify(Template(cpu, d.bytes[0]));
          d.(addrmode := M6502(c.0), bytesRequired := c.1)
        else d;
      if d1.bytesFetched == d1.bytesRequired then Finish(d1, Format6502(cpu, d1)) else d1
  }

  // ---------------------------------------------------------------------------
  // What the formatter writes
  // ---------------------------------------------------------------------------

  /** A one-byte operand: the first "nn" now holds two hex digits that read back as
      bytes[1]; every other character is the template's; nothing is resolved. */
  lemma FormatU8Operand(t: string, d: Decode)
    requires WellFormed(d)
    requires Classify(t).0.U8? && d.addrmode == M6502(Mode6502.U8)
    ensures var f := FormatTemplate(t, d);
      Find(t, "nn").Some? &&
      var p := Find(t, "nn").value;
      p + 2 <= |t| &&
      AllHex(f.text[p..p + 2]) && HexValue(f.text[p..p + 2]) == d.bytes[1] as nat &&
      (forall j :: 0 <= j < |t| && !(p <= j < p + 2) ==> f.text[j] == t[j]) &&
      f.target.None?
  {
    var p := Find(t, "nn").value;
    var h := Hex(d.bytes[1] as nat, 2);
    FormatU8Text(t, d, p, h);
    FieldOverwrite(t, p, 2, h, FormatTemplate(t, d).text);
  }

  lemma FormatU8Text(t: string, d: Decode, p: nat, h: string)
    requires WellFormed(d) && d.addrmode == M6502(Mode6502.U8)
    requires Find(t, "nn") == Some(p) && h == Hex(d.bytes[1] as nat, 2)
    ensures p + |h| <= |t| && |h| == 2 && FormatTemplate(t, d) == Formatted(Overwrite(t, p, h), None)
    ensures AllHex(h) && HexValue(h) == d.bytes[1] as nat
  {
    Hex2Width(d.bytes[1] as nat);
    HexRoundTrip(d.bytes[1] as nat, 2);
  }

  /** A word operand: the first "nnnn" now holds four hex digits that read back as
      the little-endian word in bytes[1..2]. */
  lemma FormatU16Operand(t: string, d: Decode)
    requires WellFormed(d)
    requires Classify(t).0.U16? && d.addrmode == M6502(Mode6502.U16)
    ensures var f := FormatTemplate(t, d);
      Find(t, "nnnn").Some? &&
      var p := Find(t, "nnnn").value;
      p + 4 <= |t| &&
      AllHex(f.text[p..p + 4]) &&
      HexValue(f.text[p..p + 4]) == d.bytes[1] as nat + 256 * d.bytes[2] as nat &&
      (forall j :: 0 <= j < |t| && !(p <= j < p + 4) ==> f.text[j] == t[j]) &&
      f.target.None?
  {
    var p := Find(t, "nnnn").value;
    var h := U16Digits(ReadU16Le(d.bytes, 1));
    FormatU16Text(t, d, p, h);
    FieldOverwrite(t, p, 4, h, FormatTemplate(t, d).text);
  }

  lemma FormatU16Text(t: string, d: Decode, p: nat, h: string)
    requires WellFormed(d) && d.addrmode == M6502(Mode6502.U16)
    requires Find(t, "nnnn") == Some(p) && h == U16Digits(ReadU16Le(d.bytes, 1))
    ensures p + |h| <= |t| && |h| == 4 && FormatTemplate(t, d) == Formatted(Overwrite(t, p, h), None)
    ensures AllHex(h) && HexValue(h) == d.bytes[1] as nat + 256 * d.bytes[2] as nat
  {
  }

  /** A field written over the template at p: the window holds it, and every other
      character is the template's. */
  lemma FieldOverwrite(t: string, p: nat, w: nat, h: string, text: string)
    requires |h| == w && p + w <= |t| && text == Overwrite(t, p, h)
    ensures text[p..p + w] == h
    ensures forall j :: 0 <= j < |t| && !(p <= j < p + w) ==> text[j] == t[j]
  {
    OverwriteWindow(t, p, h);
    OverwriteChars(t, p, h);
  }

  /** A branch: "rrrr" now holds the signed offset in decimal, left-justified in four
      columns, and the target is the address after the two-byte instruction plus
      that offset, modulo 2^32. */
  lemma FormatRel8Operand(t: string, d: Decode)
    requires WellFormed(d)
    requires Classify(t).0.Rel8? && d.addrmode == M6502(Mode6502.Rel8)
    requires d.bytesRequired == 2
    ensures var f := FormatTemplate(t, d);
      var v := SignExtend8(d.bytes[1]);
      Find(t, "rrrr").Some? &&
      var p := Find(t, "rrrr").value;
      p + 4 <= |t| &&
      ParseDec(TrimRight(f.text[p..p + 4])) == Some(v) &&
      (forall j :: 0 <= j < |t| && !(p <= j < p + 4) ==> f.text[j] == t[j]) &&
      f.target == Some(WrapAdd(d.insnAddress, 2 + v))
  {
    var p := Find(t, "rrrr").value;
    var v := SignExtend8(d.bytes[1]);
    FormatRel8Text(t, d, p, v);
    Rel8Field(t, p, v, FormatTemplate(t, d).text);
  }

  lemma FormatRel8Text(t: string, d: Decode, p: nat, v: int)
    requires WellFormed(d) && d.addrmode == M6502(Mode6502.Rel8) && d.bytesRequired == 2
    requires Find(t, "rrrr") == Some(p) && v == SignExtend8(d.bytes[1])
    ensures p + 4 <= |t| && -128 <= v < 128 && |Dec(v)| <= 4
    ensures FormatTemplate(t, d) == Formatted(Overwrite(t, p, LeftJustify(Dec(v), 4)), Some(WrapAdd(d.insnAddress, 2 + v)))
  {
    DecFitsFour(v);
  }

  /** The branch field on its own: the four columns at p read back as v, and
      nothing outside them changes. */
  lemma Rel8Field(t: string, p: nat, v: int, text: string)
    requires p + 4 <= |t| && -128 <= v < 128
    requires |Dec(v)| <= 4 && text == Overwrite(t, p, LeftJustify(Dec(v), 4))
    ensures ParseDec(TrimRight(text[p..p + 4])) == Some(v)
    ensures forall j :: 0 <= j < |t| && !(p <= j < p + 4) ==> text[j] == t[j]
  {
    var field := LeftJustify(Dec(v), 4);
    OverwriteWindow(t, p, field);
    OverwriteChars(t, p, field);
    DecEndsInDigit(v);
    TrimLeftJustify(Dec(v), 4);
    DecRoundTrip(v);
  }

  /** An implied opcode's text is its template verbatim, with no target. */
  lemma FormatImplied(cpu: Cpu, d: Decode)
    requires WellFormed(d)
    requires d.addrmode == M6502(Mode6502.Implied)
    ensures Format6502(cpu, d) == Formatted(Template(cpu, d.bytes[0]), None)
    ensures Classify(Template(cpu, d.bytes[0])).0.Implied? ==>
      !Contains(Format6502(cpu, d).text, "nn") && !Contains(Format6502(cpu, d).text, "rrrr")
  {
  }

  /** The first call classifies from the template alone and sets the length; the
      session completes on exactly the call where the fetched count reaches it. */
  lemma Next6502Step(cpu: Cpu, d: Decode)
    requires WellFormed(d) && d.state == Fetching && d.bytesRequired == 0
    ensures var c := Classify(Template(cpu, d.bytes[0]));
      var r := Next6502(cpu, d);
      r.addrmode == M6502(c.0) && r.bytesRequired == 1 + OperandBytes(c.0) &&
      (r.state == Complete <==> d.bytesFetched == r.bytesRequired) &&
      (r.state != Complete ==> r == d.(addrmode := M6502(c.0), bytesRequired := c.1))
  {
  }

  /** The placeholder fits the word that the source allows: the intended rendering
      agrees with the source's below 0x8000 and differs from it from 0x8000 up,
      where the source shows "FFFF" for every operand. */
  lemma U16SignWitness()
    ensures U16DigitsAsWritten(0x8000) == "FFFF"
    ensures U16Digits(0x8000) == "8000"
  {
    assert HexDigits(0xF) == "F";
    assert HexDigits(0xFF) == "FF";
    assert HexDigits(0xFFF) == "FFF";
    assert HexDigits(0xFFFF) == "FFFF";
    assert HexDigits(0xFFFF8) == "FFFF8";
    assert HexDigits(0xFFFF80) == "FFFF80";
    assert HexDigits(0xFFFF800) == "FFFF800";
    assert HexDigits(0xFFFF8000) == "FFFF8000";
  }
}
