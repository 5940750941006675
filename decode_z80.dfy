/** The Z80 decoder (LogicAnalyzer/insn_z80.c). An instruction is first turned
    into a display template, which may hold placeholders ("XXXXh", "XXh", "+ddd",
    "rrrr"); the template fixes the instruction's length, and once every byte is
    in, the placeholders are filled in from left to right. The CB, ED, DD and FD
    prefixes select other templates; DD and FD rewrite HL as IX or IY. */
module DecodeZ80 {
  import opened Fmt
  import opened Insn

  // ---------------------------------------------------------------------------
  // Tables
  // ---------------------------------------------------------------------------

  /** opcodes_z80: the unprefixed templates; "extCB", "extDD", "extED" and
      "extFD" mark the prefix bytes. */
  function Opcodes(op: bv8): string
  {
    match op as int
    case 0x00 => "NOP"            case 0x01 => "LD BC,XXXXh"    case 0x02 => "LD (BC),A"      case 0x03 => "INC BC"
    case 0x04 => "INC B"          case 0x05 => "DEC B"          case 0x06 => "LD B,XXh"       case 0x07 => "RLCA"
    case 0x08 => "EX AF,AF'"      case 0x09 => "ADD HL,BC"      case 0x0A => "LD A,(BC)"      case 0x0B => "DEC BC"
    case 0x0C => "INC C"          case 0x0D => "DEC C"          case 0x0E => "LD C,XXh"       case 0x0F => "RRCA"
    case 0x10 => "DJNZ rrrr"      case 0x11 => "LD DE,XXXXh"    case 0x12 => "LD (DE),A"      case 0x13 => "INC DE"
    case 0x14 => "INC D"          case 0x15 => "DEC D"          case 0x16 => "LD D,XXh"       case 0x17 => "RLA"
    case 0x18 => "JR rrrr"        case 0x19 => "ADD HL,DE"      case 0x1A => "LD A,(DE)"      case 0x1B => "DEC DE"
    case 0x1C => "INC E"          case 0x1D => "DEC E"          case 0x1E => "LD E,XXh"       case 0x1F => "RRA"
    case 0x20 => "JR NZ,rrrr"     case 0x21 => "LD HL,XXXXh"    case 0x22 => "LD (XXXXh),HL"  case 0x23 => "INC HL"
    case 0x24 => "INC H"          case 0x25 => "DEC H"          case 0x26 => "LD H,XXh"       case 0x27 => "DAA"
    case 0x28 => "JR Z,rrrr"      case 0x29 => "ADD HL,HL"      case 0x2A => "LD HL,(XXXXh)"  case 0x2B => "DEC HL"
    case 0x2C => "INC L"          case 0x2D => "DEC L"          case 0x2E => "LD L,XXh"       case 0x2F => "CPL"
    case 0x30 => "JR NC,rrrr"     case 0x31 => "LD SP,XXXXh"    case 0x32 => "LD (XXXXh),A"   case 0x33 => "INC SP"
    case 0x34 => "INC (HL)"       case 0x35 => "DEC (HL)"       case 0x36 => "LD (HL),XXh"    case 0x37 => "SCF"
    case 0x38 => "JR C,rrrr"      case 0x39 => "ADD HL,SP"      case 0x3A => "LD A,(XXXXh)"   case 0x3B => "DEC SP"
    case 0x3C => "INC A"          case 0x3D => "DEC A"          case 0x3E => "LD A,XXh"       case 0x3F => "CCF"
    case 0x40 => "LD B,B"         case 0x41 => "LD B,C"         case 0x42 => "LD B,D"         case 0x43 => "LD B,E"
    case 0x44 => "LD B,H"         case 0x45 => "LD B,L"         case 0x46 => "LD B,(HL)"      case 0x47 => "LD B,A"
    case 0x48 => "LD C,B"         case 0x49 => "LD C,C"         case 0x4A => "LD C,D"         case 0x4B => "LD C,E"
    case 0x4C => "LD C,H"         case 0x4D => "LD C,L"         case 0x4E => "LD C,(HL)"      case 0x4F => "LD C,A"
    case 0x50 => "LD D,B"         case 0x51 => "LD D,C"         case 0x52 => "LD D,D"         case 0x53 => "LD D,E"
    case 0x54 => "LD D,H"         case 0x55 => "LD D,L"         case 0x56 => "LD D,(HL)"      case 0x57 => "LD D,A"
    case 0x58 => "LD E,B"         case 0x59 => "LD E,C"         case 0x5A => "LD E,D"         case 0x5B => "LD E,E"
    case 0x5C => "LD E,H"         case 0x5D => "LD E,L"         case 0x5E => "LD E,(HL)"      case 0x5F => "LD E,A"
    case 0x60 => "LD H,B"         case 0x61 => "LD H,C"         case 0x62 => "LD H,D"         case 0x63 => "LD H,E"
    case 0x64 => "LD H,H"         case 0x65 => "LD H,L"         case 0x66 => "LD H,(HL)"      case 0x67 => "LD H,A"
    case 0x68 => "LD L,B"         case 0x69 => "LD L,C"         case 0x6A => "LD L,D"         case 0x6B => "LD L,E"
    case 0x6C => "LD L,H"         case 0x6D => "LD L,L"         case 0x6E => "LD L,(HL)"      case 0x6F => "LD L,A"
    case 0x70 => "LD (HL),B"      case 0x71 => "LD (HL),C"      case 0x72 => "LD (HL),D"      case 0x73 => "LD (HL),E"
    case 0x74 => "LD (HL),H"      case 0x75 => "LD (HL),L"      case 0x76 => "HALT"           case 0x77 => "LD (HL),A"
    case 0x78 => "LD A,B"         case 0x79 => "LD A,C"         case 0x7A => "LD A,D"         case 0x7B => "LD A,E"
    case 0x7C => "LD A,H"         case 0x7D => "LD A,L"         case 0x7E => "LD A,(HL)"      case 0x7F => "LD A,A"
    case 0x80 => "ADD B"          case 0x81 => "ADD C"          case 0x82 => "ADD D"          case 0x83 => "ADD E"
    case 0x84 => "ADD H"          case 0x85 => "ADD L"          case 0x86 => "ADD (HL)"       case 0x87 => "ADD A"
    case 0x88 => "ADC B"          case 0x89 => "ADC C"          case 0x8A => "ADC D"          case 0x8B => "ADC E"
    case 0x8C => "ADC H"          case 0x8D => "ADC L"          case 0x8E => "ADC (HL)"       case 0x8F => "ADC A"
    case 0x90 => "SUB B"          case 0x91 => "SUB C"          case 0x92 => "SUB D"          case 0x93 => "SUB E"
    case 0x94 => "SUB H"          case 0x95 => "SUB L"          case 0x96 => "SUB (HL)"       case 0x97 => "SUB A"
    case 0x98 => "SBC B"          case 0x99 => "SBC C"          case 0x9A => "SBC D"          case 0x9B => "SBC E"
    case 0x9C => "SBC H"          case 0x9D => "SBC L"          case 0x9E => "SBC (HL)"       case 0x9F => "SBC A"
    case 0xA0 => "AND B"          case 0xA1 => "AND C"          case 0xA2 => "AND D"          case 0xA3 => "AND E"
    case 0xA4 => "AND H"          case 0xA5 => "AND L"          case 0xA6 => "AND (HL)"       case 0xA7 => "AND A"
    case 0xA8 => "XOR B"          case 0xA9 => "XOR C"          case 0xAA => "XOR D"          case 0xAB => "XOR E"
    case 0xAC => "XOR H"          case 0xAD => "XOR L"          case 0xAE => "XOR (HL)"       case 0xAF => "XOR A"
    case 0xB0 => "OR B"           case 0xB1 => "OR C"           case 0xB2 => "OR D"           case 0xB3 => "OR E"
    case 0xB4 => "OR H"           case 0xB5 => "OR L"           case 0xB6 => "OR (HL)"        case 0xB7 => "OR A"
    case 0xB8 => "CP B"           case 0xB9 => "CP C"           case 0xBA => "CP D"           case 0xBB => "CP E"
    case 0xBC => "CP H"           case 0xBD => "CP L"           case 0xBE => "CP (HL)"        case 0xBF => "CP A"
    case 0xC0 => "RET NZ"         case 0xC1 => "POP BC"         case 0xC2 => "JP NZ,XXXXh"    case 0xC3 => "JP XXXXh"
    case 0xC4 => "CALL NZ,XXXXh"  case 0xC5 => "PUSH BC"        case 0xC6 => "ADD XXh"        case 0xC7 => "RST 00h"
    case 0xC8 => "RET Z"          case 0xC9 => "RET"            case 0xCA => "JP Z,XXXXh"     case 0xCB => "extCB"
    case 0xCC => "CALL Z,XXXXh"   case 0xCD => "CALL XXXXh"     case 0xCE => "ADC XXh"        case 0xCF => "RST 08h"
    case 0xD0 => "RET NC"         case 0xD1 => "POP DE"         case 0xD2 => "JP NC,XXXXh"    case 0xD3 => "OUT (XXh),A"
    case 0xD4 => "CALL NC,XXXXh"  case 0xD5 => "PUSH DE"        case 0xD6 => "SUB XXh"        case 0xD7 => "RST 10h"
    case 0xD8 => "RET C"          case 0xD9 => "EXX"            case 0xDA => "JP C,XXXXh"     case 0xDB => "IN A,(XXh)"
    case 0xDC => "CALL C,XXXXh"   case 0xDD => "extDD"          case 0xDE => "SBC XXh"        case 0xDF => "RST 18h"
    case 0xE0 => "RET PO"         case 0xE1 => "POP HL"         case 0xE2 => "JP PO,XXXXh"    case 0xE3 => "EX (SP),HL"
    case 0xE4 => "CALL PO,XXXXh"  case 0xE5 => "PUSH HL"        case 0xE6 => "AND XXh"        case 0xE7 => "RST 20h"
    case 0xE8 => "RET PE"         case 0xE9 => "JP (HL)"        case 0xEA => "JP PE,XXXXh"    case 0xEB => "EX DE,HL"
    case 0xEC => "CALL PE,XXXXh"  case 0xED => "extED"          case 0xEE => "XOR XXh"        case 0xEF => "RST 28h"
    case 0xF0 => "RET P"          case 0xF1 => "POP AF"         case 0xF2 => "JP P,XXXXh"     case 0xF3 => "DI"
    case 0xF4 => "CALL P,XXXXh"   case 0xF5 => "PUSH AF"        case 0xF6 => "OR XXh"         case 0xF7 => "RST 30h"
    case 0xF8 => "RET M"          case 0xF9 => "LD SP,HL"       case 0xFA => "JP M,XXXXh"     case 0xFB => "EI"
    case 0xFC => "CALL M,XXXXh"   case 0xFD => "extFD"          case 0xFE => "CP XXh"         case 0xFF => "RST 38h"
    case _ => "?"
  }

  /** ld_regs: the 8-bit register field; 6 names the memory operand. */
  function LdReg(k: bv8): string
  {
    match k
    case 0 => "B" case 1 => "C" case 2 => "D" case 3 => "E"
    case 4 => "H" case 5 => "L" case 6 => "(HL)" case _ => "A"
  }

  /** io_regs: the register field of IN and OUT; 6 has no register. */
  function IoReg(k: bv8): string
  {
    match k
    case 0 => "B" case 1 => "C" case 2 => "D" case 3 => "E"
    case 4 => "H" case 5 => "L" case 6 => "?" case _ => "A"
  }

  /** ld_regs16: the register-pair field. */
  function LdReg16(k: bv8): string
  {
    match k
    case 0 => "BC" case 1 => "DE" case 2 => "HL" case _ => "SP"
  }

  /** opcodes_CB: the CB group's operation, by bits 7..3 of its opcode. */
  function CbOp(k: bv8): string
  {
    match k
    case 0 => "RLC "    case 1 => "RRC "    case 2 => "RL "     case 3 => "RR "
    case 4 => "SLA "    case 5 => "SRA "    case 6 => "? "      case 7 => "SRL "
    case 8 => "BIT 0,"  case 9 => "BIT 1,"  case 10 => "BIT 2," case 11 => "BIT 3,"
    case 12 => "BIT 4," case 13 => "BIT 5," case 14 => "BIT 6," case 15 => "BIT 7,"
    case 16 => "RES 0," case 17 => "RES 1," case 18 => "RES 2," case 19 => "RES 3,"
    case 20 => "RES 4," case 21 => "RES 5," case 22 => "RES 6," case 23 => "RES 7,"
    case 24 => "SET 0," case 25 => "SET 1," case 26 => "SET 2," case 27 => "SET 3,"
    case 28 => "SET 4," case 29 => "SET 5," case 30 => "SET 6," case _ => "SET 7,"
  }

  /** The ED group's instructions that are not matched by a bit pattern. */
  function EdNamed(op: bv8): string
  {
    match op
    case 0x57 => "LD A,I"   case 0x5F => "LD A,R"   case 0x47 => "LD I,A"   case 0x4F => "LD R,A"
    case 0xA0 => "LDI"      case 0xB0 => "LDIR"     case 0xA8 => "LDD"      case 0xB8 => "LDDR"
    case 0xA1 => "CPI"      case 0xB1 => "CPIR"     case 0xA9 => "CPD"      case 0xB9 => "CPDR"
    case 0x44 => "NEG"      case 0x46 => "IM 0"     case 0x56 => "IM 1"     case 0x5E => "IM 2"
    case 0x6F => "RLD"      case 0x67 => "RRD"      case 0x4D => "RETI"     case 0x45 => "RETN"
    case 0xA2 => "INI"      case 0xB2 => "INIR"     case 0xAA => "IND"      case 0xBA => "INDR"
    case 0xA3 => "OUTI"     case 0xB3 => "OUTIR"    case 0xAB => "OUTD"     case 0xBB => "OTDR"
    case _ => "?"
  }

  /** The template of ED followed by op: six bit patterns first, in the source's
      order, then the named instructions. */
  function EdTemplate(op: bv8): (t: string)
    ensures op & 0xCF == 0x4B || op & 0xCF == 0x43 ==> Contains(t, Placeholder(ModeZ80.U16))
  {
    var reg16 := LdReg16((op >> 4) & 3);
    var ioreg := (op >> 3) & 7;
    if op & 0xCF == 0x4B then
      ContainsMiddle("LD " + reg16 + ",(", "XXXXh", ")");
      "LD " + reg16 + ",(" + "XXXXh" + ")"
    else if op & 0xCF == 0x43 then
      ContainsMiddle("LD (", "XXXXh", ")," + reg16);
      "LD (" + "XXXXh" + (")," + reg16)
    else if op & 0xCF == 0x4A then "ADC HL," + reg16
    else if op & 0xCF == 0x42 then "SBC HL," + reg16
    else if op & 0xC7 == 0x40 then "IN " + (if ioreg == 6 then "Flags" else IoReg(ioreg)) + ",(C)"
    else if op & 0xC7 == 0x41 then "OUT (C)," + IoReg(ioreg)
    else EdNamed(op)
  }

  /** A pattern written between two strings is found by strstr. */
  lemma ContainsMiddle(pre: string, pat: string, post: string)
    ensures Contains(pre + pat + post, pat)
  {
    var s := pre + pat + post;
    assert s[|pre|..|pre| + |pat|] == pat;
    ContainsIff(s, pat);
    assert MatchesAt(s, pat, |pre|);
  }

  // ---------------------------------------------------------------------------
  // HL to IX / IY
  // ---------------------------------------------------------------------------

  predicate IndexPrefix(op: bv8)
  {
    op == 0xDD || op == 0xFD
  }

  /** The index register a prefix selects: IX for DD, IY otherwise. */
  function IndexLetter(which: bv8): char
  {
    if which == 0xDD then 'X' else 'Y'
  }

  /** z80_hl_to_index: the first "HL" of the template becomes IX or IY, followed by
      a "+ddd" displacement placeholder when it is a memory reference "(HL" and the
      instruction is not JP (HL) (opcode E9). Without an "HL" the template is
      copied as it is and the result says so. */
  function HlToIndex(t: string, opc: bv8, which: bv8): (r: (string, bool))
    ensures r.1 <==> Contains(t, "HL")
    ensures !r.1 ==> r.0 == t
  {
    match Find(t, "HL")
    case None => (t, false)
    case Some(p) =>
      var disp := 0 < p && t[p - 1] == '(' && opc != 0xE9;
      (t[..p] + "I" + [IndexLetter(which)] + (if disp then "+ddd" else "") + t[p + 2..], true)
  }

  /** The copy loop of z80_hl_to_index: characters are copied until "HL" comes up;
      running into the end of the template means there is nothing to substitute. */
  method HlToIndexCopy(t: string, opc: bv8, which: bv8) returns (out: string, found: bool)
    ensures (out, found) == HlToIndex(t, opc, which)
  {
    var k := 0;
    var needDisp := false;
    out := [];
    while !MatchesAt(t, "HL", k)
      invariant 0 <= k <= |t| && out == t[..k]
      invariant forall j :: 0 <= j < k ==> !MatchesAt(t, "HL", j)
      invariant needDisp <==> 0 < k && t[k - 1] == '(' && MatchesAt(t, "HL", k) && opc != 0xE9
      decreases |t| - k
    {
      if k == |t| {
        assert Find(t, "HL") == None;
        return t, false;
      }
      var c := t[k];
      out := out + [c];
      k := k + 1;
      if c == '(' && MatchesAt(t, "HL", k) {
        if opc != 0xE9 {
          needDisp := true;
        }
      }
    }
    assert Find(t, "HL") == Some(k);
    // t now continues with HL: put the index register (and displacement) in its place
    var disp := if needDisp then "+ddd" else "";
    out := out + "I" + [IndexLetter(which)] + disp + t[k + 2..];
    found := true;
  }

  /** Every 'H' of s is followed, within s, by something other than 'L'. */
  predicate NoHl(s: string)
  {
    forall j :: 0 <= j < |s| && s[j] == 'H' ==> j + 1 < |s| && s[j + 1] != 'L'
  }

  /** The first "HL" of a text is found right after a prefix without one. */
  lemma FindHlAfter(pre: string, post: string)
    requires NoHl(pre)
    ensures Find(pre + "HL" + post, "HL") == Some(|pre|)
  {
    var s := pre + "HL" + post;
    assert MatchesAt(s, "HL", |pre|) by {
      assert s[|pre|..|pre| + 2] == "HL";
    }
    forall j | 0 <= j < |pre|
      ensures !MatchesAt(s, "HL", j)
    {
      MatchesAtChars(s, "HL", j);
      assert s[j] == pre[j];
      if pre[j] == 'H' {
        assert s[j + 1] == pre[j + 1] != "HL"[1];
      } else {
        assert s[j + 0] != "HL"[0];
      }
    }
  }

  /** A memory operand "(HL" after a prefix without "HL" becomes "(IX+ddd" or
      "(IY+ddd"; the rest of the template is untouched. */
  lemma IndexedMemory(pre: string, post: string, opc: bv8, which: bv8)
    requires NoHl(pre)
    requires opc != 0xE9
    ensures HlToIndex(pre + "(HL" + post, opc, which) == (pre + "(I" + [IndexLetter(which)] + "+ddd" + post, true)
  {
    var a := pre + "(";
    assert pre + "(HL" + post == a + "HL" + post;
    assert NoHl(a) by {
      forall j | 0 <= j < |a| && a[j] == 'H'
        ensures j + 1 < |a| && a[j + 1] != 'L'
      {
        assert a[j] == pre[j];
        if j + 1 < |pre| {
          assert a[j + 1] == pre[j + 1];
        }
      }
    }
    FindHlAfter(a, post);
    var t := a + "HL" + post;
    assert t[..|a|] == a && t[|a| - 1] == '(' && t[|a| + 2..] == post;
    var l := [IndexLetter(which)];
    assert a + "I" + l + "+ddd" + post == pre + "(I" + l + "+ddd" + post by {
      assert a + "I" == pre + "(I";
    }
  }

  /** Only the first "HL" is rewritten, and putting "HL" back in place of the
      inserted register (and displacement) gives back the template. */
  lemma HlToIndexRoundTrip(t: string, opc: bv8, which: bv8)
    ensures HlToIndex(t, opc, which).1 <==> Contains(t, "HL")
    ensures !Contains(t, "HL") ==> HlToIndex(t, opc, which).0 == t
    ensures Contains(t, "HL") ==>
      var p := Find(t, "HL").value;
      var out := HlToIndex(t, opc, which).0;
      var disp := 0 < p && t[p - 1] == '(' && opc != 0xE9;
      var n := if disp then 6 else 2;
      p + n <= |out| && |out| == |t| + n - 2 &&
      out[p..p + 2] == ['I', IndexLetter(which)] &&
      (disp ==> out[p + 2..p + 6] == "+ddd") &&
      out[..p] + "HL" + out[p + n..] == t
  {
    match Find(t, "HL")
    case None =>
    case Some(p) =>
      var out := HlToIndex(t, opc, which).0;
      var disp := 0 < p && t[p - 1] == '(' && opc != 0xE9;
      var n := if disp then 6 else 2;
      assert out[..p] == t[..p];
      assert out[p + n..] == t[p + 2..];
      assert t == t[..p] + "HL" + t[p + 2..];
  }

  // ---------------------------------------------------------------------------
  // Placeholders
  // ---------------------------------------------------------------------------

  /** z80_operand_types: the text standing for each kind of operand. */
  function Placeholder(m: ModeZ80): string
  {
    match m
    case U16 => "XXXXh"
    case U8 => "XXh"
    case Disp8 => "+ddd"
    case PcRel8 => "rrrr"
    case Implied => ""
  }

  /** z80_operand_size: the operand bytes each kind consumes. */
  function OperandSize(m: ModeZ80): nat
  {
    match m
    case U16 => 2
    case U8 => 1
    case Disp8 => 1
    case PcRel8 => 1
    case Implied => 0
  }

  /** The matching step of z80_next_operand: the placeholder starting at p, trying
      "XXXXh", "XXh", "+ddd" and "rrrr" in turn, character by character. */
  function OperandAt(s: string, p: nat): (r: Option<ModeZ80>)
    ensures r.Some? ==> r.value != ModeZ80.Implied && p + |Placeholder(r.value)| <= |s|
  {
    if p + 5 <= |s| && s[p] == 'X' && s[p + 1] == 'X' && s[p + 2] == 'X' && s[p + 3] == 'X' && s[p + 4] == 'h' then
      Some(ModeZ80.U16)
    else if p + 3 <= |s| && s[p] == 'X' && s[p + 1] == 'X' && s[p + 2] == 'h' then Some(ModeZ80.U8)
    else if p + 4 <= |s| && s[p] == '+' && s[p + 1] == 'd' && s[p + 2] == 'd' && s[p + 3] == 'd' then Some(Disp8)
    else if p + 4 <= |s| && s[p] == 'r' && s[p + 1] == 'r' && s[p + 2] == 'r' && s[p + 3] == 'r' then
      Some(ModeZ80.PcRel8)
    else None
  }

  /** A placeholder is found exactly where its text stands; since no two of them
      can start at the same position, the order of the tries does not matter. */
  lemma OperandAtExact(s: string, p: nat, m: ModeZ80)
    requires m != ModeZ80.Implied
    ensures OperandAt(s, p) == Some(m) <==> MatchesAt(s, Placeholder(m), p)
  {
    var ph := Placeholder(m);
    MatchesAtChars(s, ph, p);
    if p + |ph| <= |s| {
      match m
      case U16 =>
        assert ph[0] == 'X' && ph[1] == 'X' && ph[2] == 'X' && ph[3] == 'X' && ph[4] == 'h';
      case U8 =>
        assert ph[0] == 'X' && ph[1] == 'X' && ph[2] == 'h';
      case Disp8 =>
        assert ph[0] == '+' && ph[1] == 'd' && ph[2] == 'd' && ph[3] == 'd';
      case PcRel8 =>
        assert ph[0] == 'r' && ph[1] == 'r' && ph[2] == 'r' && ph[3] == 'r';
    }
  }

  /** A match is a match character by character. */
  lemma MatchesAtChars(s: string, pat: string, p: nat)
    ensures MatchesAt(s, pat, p) <==>
      p + |pat| <= |s| && forall j :: 0 <= j < |pat| ==> s[p + j] == pat[j]
  {
    if p + |pat| <= |s| {
      if forall j :: 0 <= j < |pat| ==> s[p + j] == pat[j] {
        assert s[p..p + |pat|] == pat;
      }
      if s[p..p + |pat|] == pat {
        forall j | 0 <= j < |pat|
          ensures s[p + j] == pat[j]
        {
          assert s[p + j] == s[p..p + |pat|][j];
        }
      }
    }
  }

  /** What z80_next_operand finds from the cursor on: the leftmost placeholder, or
      none. A cursor at or past the end finds nothing. */
  function NextOperand(s: string, from: nat): (r: Option<(nat, ModeZ80)>)
    ensures r.Some? ==> from <= r.value.0 < |s| && OperandAt(s, r.value.0) == Some(r.value.1)
    decreases |s| - from
  {
    if from >= |s| then None
    else match OperandAt(s, from)
      case Some(m) => Some((from, m))
      case None => NextOperand(s, from + 1)
  }

  /** The placeholder found is the leftmost one: there is none between the cursor
      and it, and when nothing is found there is none after the cursor at all. */
  lemma {:induction false} NextOperandLeftmost(s: string, from: nat)
    ensures NextOperand(s, from).Some? ==>
      forall q :: from <= q < NextOperand(s, from).value.0 ==> OperandAt(s, q).None?
    ensures NextOperand(s, from).None? ==> forall q :: from <= q < |s| ==> OperandAt(s, q).None?
    decreases |s| - from
  {
    if from < |s| && OperandAt(s, from).None? {
      NextOperandLeftmost(s, from + 1);
    }
  }

  /** The scanning loop of z80_next_operand. */
  method ScanOperand(s: string, from: nat) returns (r: Option<(nat, ModeZ80)>)
    ensures r == NextOperand(s, from)
  {
    var cp := from;
    while cp < |s|
      invariant from <= cp
      invariant NextOperand(s, cp) == NextOperand(s, from)
    {
      var m := OperandAt(s, cp);
      if m.Some? {
        return Some((cp, m.value));
      }
      cp := cp + 1;
    }
    return None;
  }

  /** Matching behind a prefix is matching in the rest, shifted. */
  lemma OperandAtShift(a: string, t: string, q: nat)
    ensures OperandAt(a + t, |a| + q) == OperandAt(t, q)
  {
    var s := a + t;
    assert forall j :: 0 <= j < |t| ==> s[|a| + j] == t[j];
  }

  // ---------------------------------------------------------------------------
  // Templates as tokens
  // ---------------------------------------------------------------------------

  /** A template read as literal characters and operand holes. */
  datatype Token = Lit(c: char) | Hole(m: ModeZ80)

  function Lits(s: string): (ts: seq<Token>)
    ensures |ts| == |s|
  {
    if s == [] then [] else [Lit(s[0])] + Lits(s[1..])
  }

  /** The template from position `from` on, as tokens: literal text up to each
      placeholder, then its hole. */
  function TokenizeFrom(t: string, from: nat): seq<Token>
    decreases |t| - from, 1
  {
    match NextOperand(t, from)
    case None => if from <= |t| then Lits(t[from..]) else []
    case Some((p, m)) => TokenizeAt(t, from, p, m)
  }

  /** The literal text from `from` up to the placeholder of kind m at p, its hole,
      and the tokens after it. */
  function TokenizeAt(t: string, from: nat, p: nat, m: ModeZ80): seq<Token>
    requires from <= p && p + |Placeholder(m)| <= |t| && m != ModeZ80.Implied
    decreases |t| - p, 0
  {
    Lits(t[from..p]) + [Hole(m)] + TokenizeFrom(t, p + |Placeholder(m)|)
  }

  function Tokenize(t: string): seq<Token>
  {
    TokenizeFrom(t, 0)
  }

  /** The template text one token stands for. */
  function TokenText(k: Token): string
  {
    match k
    case Lit(c) => [c]
    case Hole(m) => Placeholder(m)
  }

  /** The template text a token list stands for. */
  function Untokenize(ts: seq<Token>): string
  {
    if ts == [] then [] else TokenText(ts[0]) + Untokenize(ts[1..])
  }

  lemma {:induction false} UntokenizeAppend(a: seq<Token>, b: seq<Token>)
    ensures Untokenize(a + b) == Untokenize(a) + Untokenize(b)
    decreases |a|
  {
    if a == [] {
      assert a + b == b;
    } else {
      DropAppend(a, b);
      UntokenizeAppend(a[1..], b);
      AppendAssoc(TokenText(a[0]), Untokenize(a[1..]), Untokenize(b));
    }
  }

  lemma AppendAssoc<T>(x: seq<T>, y: seq<T>, z: seq<T>)
    ensures x + (y + z) == (x + y) + z
  {
  }

  lemma DropAppend<T>(a: seq<T>, b: seq<T>)
    requires a != []
    ensures (a + b)[0] == a[0] && (a + b)[1..] == a[1..] + b
  {
  }

  lemma {:induction false} UntokenizeLits(s: string)
    ensures Untokenize(Lits(s)) == s
    decreases |s|
  {
    if s != [] {
      LitsCons(s);
      UntokenizeLits(s[1..]);
      assert s == [s[0]] + s[1..];
    }
  }

  lemma LitsCons(s: string)
    requires s != []
    ensures Lits(s) != [] && Lits(s)[0] == Lit(s[0]) && Lits(s)[1..] == Lits(s[1..])
  {
    DropAppend([Lit(s[0])], Lits(s[1..]));
  }

  /** Tokenizing loses nothing: the tokens spell the template again. */
  lemma {:induction false} TokenizeRoundTrip(t: string, from: nat)
    requires from <= |t|
    ensures Untokenize(TokenizeFrom(t, from)) == t[from..]
    decreases |t| - from
  {
    match NextOperand(t, from)
    case None =>
      UntokenizeLits(t[from..]);
    case Some((p, m)) =>
      TokenizeFromFound(t, from, p, m);
      var q := p + |Placeholder(m)|;
      var a := Lits(t[from..p]);
      var r := TokenizeFrom(t, q);
      assert Untokenize(a) == t[from..p] by {
        UntokenizeLits(t[from..p]);
      }
      assert Untokenize(r) == t[q..] by {
        TokenizeRoundTrip(t, q);
      }
      assert t[p..q] == Placeholder(m) by {
        OperandAtExact(t, p, m);
      }
      assert Untokenize(TokenizeFrom(t, from)) == Untokenize(a) + Placeholder(m) + Untokenize(r) by {
        TokenizeFromHole(t, from, p, m, a, r);
        UntokenizeHole(TokenizeFrom(t, from), a, Hole(m), r);
      }
      SplitThree(t, from, p, q);
  }

  /** The tokens from a cursor that finds a placeholder: the literal text before
      it, its hole, and the tokens after it. */
  lemma TokenizeFromHole(t: string, from: nat, p: nat, m: ModeZ80, a: seq<Token>, r: seq<Token>)
    requires NextOperand(t, from) == Some((p, m))
    requires a == Lits(t[from..p]) && r == TokenizeFrom(t, p + |Placeholder(m)|)
    ensures TokenizeFrom(t, from) == a + [Hole(m)] + r
  {
    TokenizeFromFound(t, from, p, m);
  }

  lemma TokenizeFromFound(t: string, from: nat, p: nat, m: ModeZ80)
    requires NextOperand(t, from) == Some((p, m))
    ensures from <= p && p + |Placeholder(m)| <= |t| && m != ModeZ80.Implied
    ensures TokenizeFrom(t, from) == TokenizeAt(t, from, p, m)
  {
  }

  lemma UntokenizeHole(ts: seq<Token>, a: seq<Token>, k: Token, r: seq<Token>)
    requires ts == a + [k] + r
    ensures Untokenize(ts) == Untokenize(a) + TokenText(k) + Untokenize(r)
  {
    UntokenizeAppend(a + [k], r);
    UntokenizeAppend(a, [k]);
    UntokenizeOne(k);
  }

  lemma UntokenizeOne(k: Token)
    ensures Untokenize([k]) == TokenText(k)
  {
    assert [k][1..] == [];
  }


  lemma SplitThree(t: string, a: nat, b: nat, c: nat)
    requires a <= b <= c <= |t|
    ensures t[a..] == t[a..b] + t[b..c] + t[c..]
  {
  }

  /** The operand bytes one token consumes. */
  function TokenBytes(k: Token): nat
  {
    match k
    case Lit(_) => 0
    case Hole(m) => OperandSize(m)
  }

  /** The operand bytes a token list consumes. */
  function HoleBytes(ts: seq<Token>): nat
  {
    if ts == [] then 0 else TokenBytes(ts[0]) + HoleBytes(ts[1..])
  }

  lemma {:induction false} HoleBytesAppend(a: seq<Token>, b: seq<Token>)
    ensures HoleBytes(a + b) == HoleBytes(a) + HoleBytes(b)
    decreases |a|
  {
    if a != [] {
      DropAppend(a, b);
      HoleBytesAppend(a[1..], b);
    } else {
      assert a + b == b;
    }
  }

  lemma {:induction false} HoleBytesLits(s: string)
    ensures HoleBytes(Lits(s)) == 0
    decreases |s|
  {
    if s != [] {
      LitsCons(s);
      HoleBytesLits(s[1..]);
    }
  }

  /** The operand bytes a template calls for. */
  function OperandBytes(t: string): nat
  {
    HoleBytes(Tokenize(t))
  }

  /** The last step of the summing loop: no placeholder is left, so no bytes. */
  lemma OperandBytesDone(t: string, curs: nat)
    requires curs <= |t| && NextOperand(t, curs).None?
    ensures HoleBytes(TokenizeFrom(t, curs)) == 0
  {
    HoleBytesLits(t[curs..]);
  }

  /** One step of the summing loop: the bytes still to count are the next
      placeholder's plus those after it. */
  lemma OperandBytesStep(t: string, curs: nat, p: nat, m: ModeZ80, q: nat)
    requires NextOperand(t, curs) == Some((p, m)) && q == p + |Placeholder(m)|
    ensures curs < q <= |t|
    ensures HoleBytes(TokenizeFrom(t, curs)) == OperandSize(m) + HoleBytes(TokenizeFrom(t, q))
  {
    TokenizeFromFound(t, curs, p, m);
    var a := Lits(t[curs..p]);
    var r := TokenizeFrom(t, q);
    TokenizeFromHole(t, curs, p, m, a, r);
    HoleBytesHole(TokenizeFrom(t, curs), a, Hole(m), r);
    HoleBytesLits(t[curs..p]);
  }

  lemma HoleBytesHole(ts: seq<Token>, a: seq<Token>, k: Token, r: seq<Token>)
    requires ts == a + [k] + r
    ensures HoleBytes(ts) == HoleBytes(a) + TokenBytes(k) + HoleBytes(r)
  {
    HoleBytesAppend(a + [k], r);
    HoleBytesAppend(a, [k]);
    assert [k][1..] == [];
  }

  /** The summing loop of insn_decode_next_state_z80: walk the placeholders with
      z80_next_operand and add up their sizes. */
  method CountOperandBytes(t: string) returns (n: nat)
    ensures n == OperandBytes(t)
  {
    n := 0;
    var curs: nat := 0;
    while true
      invariant curs <= |t|
      invariant n + HoleBytes(TokenizeFrom(t, curs)) == OperandBytes(t)
      decreases |t| - curs
    {
      var r := ScanOperand(t, curs);
      if r.None? {
        OperandBytesDone(t, curs);
        return;
      }
      var (p, m) := r.value;
      var q := p + |Placeholder(m)|;
      OperandBytesStep(t, curs, p, m, q);
      n := n + OperandSize(m);
      curs := q;
    }
  }

  // ---------------------------------------------------------------------------
  // The instruction template and its length
  // ---------------------------------------------------------------------------

  /** z80_insn_template: the template of the bytes fetched so far, or None when
      the prefix needs more bytes before the instruction is known. DD and FD
      rewrite the template of the second byte (ADD IX/IY,rr spelled out, as HL
      would otherwise be replaced twice); a CB opcode after DD/FD sits in the
      fourth byte, after the displacement. */
  function TemplateZ80(b: seq<bv8>, fetched: int): (r: Option<string>)
    requires |b| == MaxBytes
    ensures 1 <= fetched ==> (r.Some? <==> fetched >= TemplateNeeds(b))
  {
    var opc := b[0];
    if IndexPrefix(opc) && fetched >= 2 && b[1] != 0xCB then
      var op := b[1];
      var tmpl :=
        if op & 0xCF == 0x09 then "ADD I" + [IndexLetter(opc)] + "," + LdReg16((op >> 4) & 3)
        else Opcodes(op);
      Some(HlToIndex(tmpl, op, opc).0)
    else if opc == 0xED then
      if fetched < 2 then None else Some(EdTemplate(b[1]))
    else if opc == 0xCB || (IndexPrefix(opc) && fetched >= 2 && b[1] == 0xCB) then
      if opc == 0xCB && fetched < 2 then None
      else if opc != 0xCB && fetched < 4 then None
      else
        var op := if opc == 0xCB then b[1] else b[3];
        var tbuf := CbOp((op >> 3) & 0x1F) + LdReg(op & 7);
        Some(if IndexPrefix(opc) then HlToIndex(tbuf, op, opc).0 else tbuf)
    else if opc == 0xCB || IndexPrefix(opc) || opc == 0xED then None
    else Some(Opcodes(opc))
  }

  /** After DD or FD, an unprefixed template with a memory operand "(HL)" turns
      into one with "(IX+ddd)" or "(IY+ddd)". */
  lemma IndexedTemplate(b: seq<bv8>, fetched: int, pre: string, post: string)
    requires |b| == MaxBytes && IndexPrefix(b[0]) && fetched >= 2
    requires b[1] != 0xCB && b[1] != 0xE9 && b[1] & 0xCF != 0x09
    requires Opcodes(b[1]) == pre + "(HL" + post && NoHl(pre)
    ensures TemplateZ80(b, fetched) == Some(pre + "(I" + [IndexLetter(b[0])] + Placeholder(ModeZ80.Disp8) + post)
  {
    IndexedMemory(pre, post, b[1], b[0]);
  }

  /** The bytes that must be in before the template is known. */
  function TemplateNeeds(b: seq<bv8>): nat
    requires |b| == MaxBytes
  {
    if b[0] == 0xCB || b[0] == 0xED then 2
    else if IndexPrefix(b[0]) then (if b[1] == 0xCB then 4 else 2)
    else 1
  }

  /** The template reads no byte that has not been fetched yet. */
  lemma TemplateNoLookahead(b: seq<bv8>, c: seq<bv8>, fetched: int)
    requires |b| == MaxBytes && |c| == MaxBytes && 1 <= fetched <= MaxBytes
    requires b[..fetched] == c[..fetched]
    ensures TemplateZ80(b, fetched) == TemplateZ80(c, fetched)
  {
    assert b[0] == c[0];
    if fetched >= 2 {
      assert b[1] == c[1];
    }
    if fetched >= 4 {
      assert b[3] == c[3];
    }
  }

  /** The opcode bytes counted in front of the operands: one, one more for a CB or
      ED prefix, one more for DD/FD, and one more again for DD/FD CB. */
  function PrefixBytes(b: seq<bv8>, fetched: int): nat
    requires |b| == MaxBytes
  {
    if b[0] == 0xCB || b[0] == 0xED then 2
    else if IndexPrefix(b[0]) then (if fetched >= 2 && b[1] == 0xCB then 3 else 2)
    else 1
  }

  /** Where the operand bytes start: right after the first byte, or after the
      prefix. For DD/FD CB the displacement comes before the final opcode byte. */
  function OperandStart(b: seq<bv8>): nat
    requires |b| == MaxBytes
  {
    if b[0] == 0xCB || b[0] == 0xED || IndexPrefix(b[0]) then 2 else 1
  }

  /** The instruction length the decoder settles on once the template is known. */
  function RequiredZ80(b: seq<bv8>, fetched: int, t: string): nat
    requires |b| == MaxBytes
  {
    PrefixBytes(b, fetched) + OperandBytes(t)
  }

  /** The operands never start before the end of the prefix, so an instruction
      whose fetched count reaches its length has every operand byte in. */
  lemma OperandsWithinLength(b: seq<bv8>, fetched: int, t: string)
    requires |b| == MaxBytes
    ensures OperandStart(b) + OperandBytes(t) <= RequiredZ80(b, fetched, t)
    ensures fetched >= 2 && IndexPrefix(b[0]) && b[1] == 0xCB ==>
      OperandStart(b) + OperandBytes(t) + 1 == RequiredZ80(b, fetched, t)
  {
  }

  /** The length computation of insn_decode_next_state_z80. */
  method ComputeRequired(b: seq<bv8>, fetched: int, t: string) returns (n: nat)
    requires |b| == MaxBytes
    ensures n == RequiredZ80(b, fetched, t)
  {
    n := 1;
    if b[0] == 0xCB || b[0] == 0xED {
      n := n + 1;
    } else if b[0] == 0xDD || b[0] == 0xFD {
      n := n + 1;
      if fetched >= 2 && b[1] == 0xCB {
        n := n + 1;
      }
    }
    var operands := CountOperandBytes(t);
    n := n + operands;
  }

  // ---------------------------------------------------------------------------
  // Filling in the placeholders
  // ---------------------------------------------------------------------------

  /** bytes[i]. The decoder's own templates read only fetched bytes (see
      OperandsWithinLength); past the 8-byte buffer the model reads 0. */
  function OperandByte(b: seq<bv8>, i: nat): bv8
  {
    if i < |b| then b[i] else 0
  }

  /** read_u16le at i: low byte first. */
  function OperandWord(b: seq<bv8>, i: nat): (w: nat)
    ensures w < 65536
  {
    OperandByte(b, i) as nat + 256 * OperandByte(b, i + 1) as nat
  }

  /** The value a PC-relative operand shows: the signed offset plus 2, since the
      Z80 counts from the end of the two-byte instruction. */
  function PcRelValue(x: bv8): (v: int)
    ensures -126 <= v <= 129
  {
    SignExtend8(x) + 2
  }

  /** As written, the sum is stored back into a signed byte, so it wraps for the
      two largest offsets. */
  function PcRelAsWritten(x: bv8): (v: int)
    ensures -128 <= v < 128
  {
    SignExtend8(x + 2)
  }

  /** The stored sum agrees with the intended value except at 7E and 7F, where a
      forward branch shows up as a backward one. */
  lemma PcRelWitness(x: bv8)
    ensures PcRelAsWritten(x) == PcRelValue(x) <==> x != 0x7E && x != 0x7F
    ensures PcRelAsWritten(0x7E) == -128 && PcRelValue(0x7E) == 128
  {
    if x < 0x7E {
      assert (x + 2) as int == x as int + 2;
    } else if x >= 0x80 {
      assert (x + 2) as int == (x as int + 2) % 256;
    }
  }

  /** "%-4d" of the PC-relative value: always exactly four characters. */
  function PcRelText(x: bv8): (s: string)
    ensures |s| == 4
  {
    DecFitsFour(PcRelValue(x));
    LeftJustify(Dec(PcRelValue(x)), 4)
  }

  /** "%-4d" of a negative displacement, "%-3d" of any other. */
  function DispDigits(x: bv8): (s: string)
    ensures |s| == if SignExtend8(x) < 0 then 4 else 3
  {
    var v := SignExtend8(x);
    if v < 0 then (DecFitsFour(v); LeftJustify(Dec(v), 4)) else (DecFitsThree(v); LeftJustify(Dec(v), 3))
  }

  /** The first space at or after p, or the end of the string. */
  function SpaceFrom(s: string, p: nat): (q: nat)
    requires p <= |s|
    ensures p <= q <= |s|
    decreases |s| - p
  {
    if p == |s| || s[p] == ' ' then p else SpaceFrom(s, p + 1)
  }

  /** The end of the run of spaces starting at q. */
  function SpaceRunEnd(s: string, q: nat): (r: nat)
    requires q <= |s|
    ensures q <= r <= |s|
    decreases |s| - q
  {
    if q == |s| || s[q] != ' ' then q else SpaceRunEnd(s, q + 1)
  }

  /** SpaceFrom finds the first space: none before it, and a space at it unless it
      is the end; and any position with that property is the one it finds. */
  lemma {:induction false} SpaceFromSpec(s: string, p: nat, q: nat)
    requires p <= q <= |s|
    ensures SpaceFrom(s, p) == q <==>
      (q < |s| ==> s[q] == ' ') && forall j :: p <= j < q ==> s[j] != ' '
    decreases |s| - p
  {
    if p < |s| && s[p] != ' ' && p < q {
      SpaceFromSpec(s, p + 1, q);
    }
  }

  /** SpaceRunEnd finds the end of the run: spaces up to it, and no space at it
      unless it is the end; and any position with that property is the one. */
  lemma {:induction false} SpaceRunEndSpec(s: string, q: nat, r: nat)
    requires q <= r <= |s|
    ensures SpaceRunEnd(s, q) == r <==>
      (r < |s| ==> s[r] != ' ') && forall j :: q <= j < r ==> s[j] == ' '
    decreases |s| - q
  {
    if q < |s| && s[q] == ' ' && q < r {
      SpaceRunEndSpec(s, q + 1, r);
    }
  }

  /** The whitespace collapse after a displacement: the first run of spaces at or
      after p is cut out and the rest of the string moves up to close the gap. */
  function Collapse(s: string, p: nat): (r: string)
    requires p <= |s|
    ensures |r| <= |s|
    decreases |s| - p
  {
    if p == |s| then s
    else if s[p] == ' ' then s[..p] + s[SpaceRunEnd(s, p)..]
    else Collapse(s, p + 1)
  }

  /** The collapse cuts from the first space SpaceFrom finds to the end of its run. */
  lemma {:induction false} CollapseAtSpace(s: string, p: nat)
    requires p <= |s|
    ensures var q := SpaceFrom(s, p);
      Collapse(s, p) == if q == |s| then s else s[..q] + s[SpaceRunEnd(s, q)..]
    decreases |s| - p
  {
    if p < |s| && s[p] != ' ' {
      CollapseAtSpace(s, p + 1);
    }
  }

  /** The pointer loops of the collapse: advance to the whitespace, skip it, and
      copy the rest down over it. */
  method CollapseSpaces(s: string, p: nat) returns (r: string)
    requires p <= |s|
    ensures r == Collapse(s, p)
  {
    var cp := p;
    while cp < |s| && s[cp] != ' '
      invariant p <= cp <= |s|
      invariant forall j :: p <= j < cp ==> s[j] != ' '
    {
      cp := cp + 1;
    }
    SpaceFromSpec(s, p, cp);
    if cp == |s| {
      CollapseAtSpace(s, p);
      return s;
    }
    var ncp := cp;
    while ncp < |s| && s[ncp] == ' '
      invariant cp <= ncp <= |s|
      invariant forall j :: cp <= j < ncp ==> s[j] == ' '
    {
      ncp := ncp + 1;
    }
    var e := ncp;
    r := s[..cp];
    while ncp < |s|
      invariant e <= ncp <= |s|
      invariant r == s[..cp] + s[e..ncp]
    {
      assert s[e..ncp + 1] == s[e..ncp] + [s[ncp]];
      r := r + [s[ncp]];
      ncp := ncp + 1;
    }
    assert s[e..ncp] == s[e..];
    SpaceRunEndSpec(s, cp, e);
    CollapseAtSpace(s, p);
  }

  /** What the formatter does to the placeholder of kind m at p: the operand's
      digits are copied over it, and after a displacement the padding is closed
      up. A negative displacement's "-" replaces the "+"; a non-negative one is
      written after the "+". */
  function Spliced(s: string, p: nat, m: ModeZ80, b: seq<bv8>, i: nat): (r: string)
    requires m != ModeZ80.Implied && p + |Placeholder(m)| <= |s|
    ensures |r| <= |s|
  {
    if m == ModeZ80.Disp8 then Collapse(DispWritten(s, p, OperandByte(b, i)), p)
    else Overwrite(s, p, FieldDigits(m, b, i))
  }

  /** The displacement's digits written over "+ddd" at p: a negative one from
      the '+' on, any other after it. */
  function DispWritten(s: string, p: nat, x: bv8): (w: string)
    requires p + 4 <= |s|
    ensures |w| == |s|
  {
    if SignExtend8(x) < 0 then Overwrite(s, p, DispDigits(x)) else Overwrite(s, p + 1, DispDigits(x))
  }

  /** The characters copied over a fixed-width placeholder: four hex digits
      over "XXXX", two over "XX" (the 'h' stays), or the four columns of a
      PC-relative operand over "rrrr". */
  function FieldDigits(m: ModeZ80, b: seq<bv8>, i: nat): (r: string)
    requires m != ModeZ80.Implied && m != ModeZ80.Disp8
    ensures |r| == |Placeholder(m)| - (if m == ModeZ80.PcRel8 then 0 else 1)
  {
    match m
    case U16 => Hex4Width(OperandWord(b, i)); Hex(OperandWord(b, i), 4)
    case U8 => Hex2Width(OperandByte(b, i) as nat); Hex(OperandByte(b, i) as nat, 2)
    case PcRel8 => PcRelText(OperandByte(b, i))
  }

  /** The target a PC-relative operand resolves: the instruction's address plus
      the value shown, in 32-bit arithmetic. */
  function PcRelTarget(addr: U32, x: bv8): U32
  {
    WrapAdd(addr, PcRelValue(x))
  }

  /** The formatter's loop as the source runs it: from the cursor, find the next
      placeholder, fill it in, move the cursor past where the placeholder was and
      the operand index past its bytes. The cursor is not adjusted for the
      characters a collapse removed. */
  function SpliceFrom(s: string, cur: nat, i: nat, b: seq<bv8>, addr: U32, tgt: Option<U32>): Formatted
    decreases |s| - cur, 1
  {
    match NextOperand(s, cur)
    case None => Formatted(s, tgt)
    case Some((p, m)) => SpliceAt(s, p, m, i, b, addr, tgt)
  }

  /** One placeholder filled in, then the rest of the loop. */
  function SpliceAt(s: string, p: nat, m: ModeZ80, i: nat, b: seq<bv8>, addr: U32, tgt: Option<U32>): Formatted
    requires m != ModeZ80.Implied && p + |Placeholder(m)| <= |s|
    decreases |s| - p, 0
  {
    SpliceFrom(Spliced(s, p, m, b, i), p + |Placeholder(m)|, i + OperandSize(m), b, addr, NextTarget(m, addr, b, i, tgt))
  }

  /** The body of insn_decode_format_z80's switch: fill in one placeholder. This
      is the statement-by-statement form of the C; the function Spliced, which
      the proofs use, is what it computes. */
  method SpliceOne(s: string, p: nat, m: ModeZ80, b: seq<bv8>, i: nat) returns (r: string)
    requires m != ModeZ80.Implied && p + |Placeholder(m)| <= |s|
    ensures r == Spliced(s, p, m, b, i)
  {
    var x := OperandByte(b, i);
    match m {
      case U16 =>
        Hex4Width(OperandWord(b, i));
        r := Overwrite(s, p, Hex(OperandWord(b, i), 4));
      case U8 =>
        Hex2Width(x as nat);
        r := Overwrite(s, p, Hex(x as nat, 2));
      case PcRel8 =>
        r := Overwrite(s, p, PcRelText(x));
      case Disp8 =>
        var w;
        if SignExtend8(x) < 0 {
          w := Overwrite(s, p, DispDigits(x));
        } else {
          w := Overwrite(s, p + 1, DispDigits(x));
        }
        r := CollapseSpaces(w, p);
    }
  }

  /** The branch target after filling placeholder m: a PC-relative operand
      resolves one, any other keeps what was found before. */
  function NextTarget(m: ModeZ80, addr: U32, b: seq<bv8>, i: nat, tgt: Option<U32>): Option<U32>
  {
    if m == ModeZ80.PcRel8 then Some(PcRelTarget(addr, OperandByte(b, i))) else tgt
  }

  /** One turn of the formatter's loop: the placeholder found is filled in and the
      loop goes on after it. */
  lemma SpliceFromStep(s: string, cur: nat, i: nat, b: seq<bv8>, addr: U32, tgt: Option<U32>,
                       p: nat, m: ModeZ80, tgt': Option<U32>, s': string, cur': nat, i': nat)
    requires NextOperand(s, cur) == Some((p, m))
    requires m != ModeZ80.Implied && p + |Placeholder(m)| <= |s|
    requires tgt' == NextTarget(m, addr, b, i, tgt)
    requires s' == Spliced(s, p, m, b, i) && cur' == p + |Placeholder(m)| && i' == i + OperandSize(m)
    ensures SpliceFrom(s, cur, i, b, addr, tgt) == SpliceFrom(s', cur', i', b, addr, tgt')
  {
    SpliceFromFound(s, cur, i, b, addr, tgt, p, m);
    SpliceAtNext(s, p, m, i, b, addr, tgt, tgt', s', cur', i');
  }

  lemma SpliceFromFound(s: string, cur: nat, i: nat, b: seq<bv8>, addr: U32, tgt: Option<U32>,
                        p: nat, m: ModeZ80)
    requires NextOperand(s, cur) == Some((p, m))
    ensures m != ModeZ80.Implied && p + |Placeholder(m)| <= |s|
    ensures SpliceFrom(s, cur, i, b, addr, tgt) == SpliceAt(s, p, m, i, b, addr, tgt)
  {
  }

  lemma SpliceAtNext(s: string, p: nat, m: ModeZ80, i: nat, b: seq<bv8>, addr: U32, tgt: Option<U32>,
                     tgt': Option<U32>, s': string, cur': nat, i': nat)
    requires m != ModeZ80.Implied && p + |Placeholder(m)| <= |s|
    requires tgt' == NextTarget(m, addr, b, i, tgt)
    requires s' == Spliced(s, p, m, b, i) && cur' == p + |Placeholder(m)| && i' == i + OperandSize(m)
    ensures SpliceAt(s, p, m, i, b, addr, tgt) == SpliceFrom(s', cur', i', b, addr, tgt')
  {
  }

  /** One turn of insn_decode_format_z80's loop: find the next placeholder from
      the cursor and fill it in, or report that none is left. */
  method SpliceNext(s: string, curs: nat, i: nat, b: seq<bv8>, addr: U32, tgt: Option<U32>)
    returns (done: bool, s': string, curs': nat, i': nat, tgt': Option<U32>)
    ensures done ==> SpliceFrom(s, curs, i, b, addr, tgt) == Formatted(s, tgt)
    ensures done ==> s' == s && tgt' == tgt
    ensures !done ==> curs < |s| && |s'| - curs' < |s| - curs
    ensures !done ==> SpliceFrom(s', curs', i', b, addr, tgt') == SpliceFrom(s, curs, i, b, addr, tgt)
  {
    var r := ScanOperand(s, curs);
    if r.None? {
      return true, s, curs, i, tgt;
    }
    var p := r.value.0;
    var m := r.value.1;
    tgt' := if m == ModeZ80.PcRel8 then Some(PcRelTarget(addr, OperandByte(b, i))) else tgt;
    s' := SpliceOne(s, p, m, b, i);
    done, curs', i' := false, p + |Placeholder(m)|, i + OperandSize(m);
    SpliceFromStep(s, curs, i, b, addr, tgt, p, m, tgt', s', curs', i');
  }

  /** insn_decode_format_z80's loop, over the text in place. */
  method SpliceOperands(t: string, b: seq<bv8>, start: nat, addr: U32) returns (f: Formatted)
    ensures f == SpliceFrom(t, 0, start, b, addr, None)
  {
    var s := t;
    var curs: nat := 0;
    var i: nat := start;
    var tgt: Option<U32> := None;
    while true
      invariant SpliceFrom(s, curs, i, b, addr, tgt) == SpliceFrom(t, 0, start, b, addr, None)
      decreases |s| - curs
    {
      var done;
      done, s, curs, i, tgt := SpliceNext(s, curs, i, b, addr, tgt);
      if done {
        return Formatted(s, tgt);
      }
    }
  }

  // ---------------------------------------------------------------------------
  // Formatting and the decode step
  // ---------------------------------------------------------------------------

  /** insn_decode_format_z80: fill in the stored template's placeholders, the
      operand bytes starting right after the prefix. */
  function FormatZ80(d: Decode): (f: Formatted)
    requires WellFormed(d)
    ensures NextOperand(d.insnString, 0).None? ==> f == Formatted(d.insnString, None)
  {
    SpliceFrom(d.insnString, 0, OperandStart(d.bytes), d.bytes, d.insnAddress, None)
  }

  /** insn_decode_next_state_z80: while the length is unknown, try for a template
      (and wait for more bytes if there is none yet); with the template stored,
      the length is the opcode bytes plus the operand bytes its placeholders
      call for; once that many bytes are in, format and complete. */
  function NextZ80(d: Decode): (r: Decode)
    requires WellFormed(d)
    ensures WellFormed(r)
  {
    if d.state != Fetching || d.bytesFetched == 0 then d
    else if d.bytesRequired == 0 && TemplateZ80(d.bytes, d.bytesFetched).None? then d
    else
      var d1 :=
        if d.bytesRequired == 0 then
          var t := TemplateZ80(d.bytes, d.bytesFetched).value;
          d.(insnString := t, bytesRequired := RequiredZ80(d.bytes, d.bytesFetched, t))
        else d;
      if d1.bytesFetched == d1.bytesRequired then Finish(d1, FormatZ80(d1)) else d1
  }

  /** Before the prefix is complete nothing happens; after, the template is stored,
      the length set, and the record completes on exactly the call where the
      fetched count has reached the length. */
  lemma NextZ80Step(d: Decode)
    requires WellFormed(d) && d.state == Fetching && d.bytesRequired == 0
    ensures d.bytesFetched < TemplateNeeds(d.bytes) ==> NextZ80(d) == d
    ensures d.bytesFetched >= TemplateNeeds(d.bytes) ==>
      var t := TemplateZ80(d.bytes, d.bytesFetched).value;
      var d1 := d.(insnString := t, bytesRequired := RequiredZ80(d.bytes, d.bytesFetched, t));
      var r := NextZ80(d);
      r.bytesRequired == PrefixBytes(d.bytes, d.bytesFetched) + OperandBytes(t) &&
      (r.state == Complete <==> d.bytesFetched == r.bytesRequired) &&
      (r.state == Complete ==> r == Finish(d1, FormatZ80(d1))) &&
      (r.state != Complete ==> r == d1)
  {
  }

  /** On a later pass, with the template stored and every byte it calls for
      fetched, the step completes with the spliced text (and its target, if
      any). */
  lemma NextZ80Completes(d: Decode, y: string, tgt: Option<U32>)
    requires WellFormed(d) && d.state == Fetching && d.bytesRequired != 0 && d.bytesFetched == d.bytesRequired
    requires SpliceFrom(d.insnString, 0, OperandStart(d.bytes), d.bytes, d.insnAddress, None) == Formatted(y, tgt)
    ensures NextZ80(d).state == Complete && NextZ80(d).insnString == y
    ensures NextZ80(d).resolvedValid == (tgt.Some? || d.resolvedValid)
    ensures tgt.Some? ==> NextZ80(d).resolvedAddress == tgt.value
  {
  }

  /** With the template in but bytes still to come, the step records the
      length and waits. */
  lemma NextZ80Waits(d: Decode, n: nat)
    requires WellFormed(d) && d.state == Fetching && d.bytesRequired == 0
    requires d.bytesFetched >= TemplateNeeds(d.bytes) && TemplateZ80(d.bytes, d.bytesFetched).Some?
    requires n == PrefixBytes(d.bytes, d.bytesFetched) + OperandBytes(TemplateZ80(d.bytes, d.bytesFetched).value)
    requires n != d.bytesFetched
    ensures NextZ80(d) == d.(insnString := TemplateZ80(d.bytes, d.bytesFetched).value, bytesRequired := n)
  {
    NextZ80Step(d);
  }

  /** z80_insn_template as the decoder runs it: the index-register rewrite goes
      through the character-copying HlToIndexCopy. This is the imperative form of
      the C; the function TemplateZ80, which the proofs use, is what it
      computes. */
  method TemplateZ80Copy(b: seq<bv8>, fetched: int) returns (t: Option<string>)
    requires |b| == MaxBytes
    ensures t == TemplateZ80(b, fetched)
  {
    var opc := b[0];
    if IndexPrefix(opc) && fetched >= 2 && b[1] != 0xCB {
      var op := b[1];
      var tmpl := if op & 0xCF == 0x09 then "ADD I" + [IndexLetter(opc)] + "," + LdReg16((op >> 4) & 3) else Opcodes(op);
      var out, _ := HlToIndexCopy(tmpl, op, opc);
      t := Some(out);
    } else if opc == 0xED {
      t := if fetched < 2 then None else Some(EdTemplate(b[1]));
    } else if opc == 0xCB || (IndexPrefix(opc) && fetched >= 2 && b[1] == 0xCB) {
      if (opc == 0xCB && fetched < 2) || (opc != 0xCB && fetched < 4) {
        t := None;
      } else {
        var op := if opc == 0xCB then b[1] else b[3];
        var tbuf := CbOp((op >> 3) & 0x1F) + LdReg(op & 7);
        if IndexPrefix(opc) {
          var out, _ := HlToIndexCopy(tbuf, op, opc);
          t := Some(out);
        } else {
          t := Some(tbuf);
        }
      }
    } else if IndexPrefix(opc) {
      t := None;
    } else {
      t := Some(Opcodes(opc));
    }
  }

  /** insn_decode_next_state_z80 as the decoder runs it: the template, the
      length counted by the operand-scanning loop, and the in-place splice. */
  method StepZ80(d: Decode) returns (r: Decode)
    requires WellFormed(d)
    ensures r == NextZ80(d)
  {
    if d.state != Fetching || d.bytesFetched == 0 {
      return d;
    }
    var d1 := d;
    if d.bytesRequired == 0 {
      var t := TemplateZ80Copy(d.bytes, d.bytesFetched);
      if t.None? {
        return d;
      }
      var n := ComputeRequired(d.bytes, d.bytesFetched, t.value);
      d1 := d.(insnString := t.value, bytesRequired := n);
    }
    if d1.bytesFetched == d1.bytesRequired {
      var f := SpliceOperands(d1.insnString, d1.bytes, OperandStart(d1.bytes), d1.insnAddress);
      r := Finish(d1, f);
    } else {
      r := d1;
    }
  }

  /** Text in which no placeholder can start: no '+', no 'r', and no 'X' followed
      by another 'X'. */
  predicate PlainText(s: string)
  {
    forall j :: 0 <= j < |s| ==> s[j] != '+' && s[j] != 'r' && (s[j] == 'X' && j + 1 < |s| ==> s[j + 1] != 'X')
  }

  /** Plain text holds no placeholder, so the scan finds nothing. */
  lemma {:induction false} PlainHasNoOperand(s: string, from: nat)
    requires PlainText(s)
    ensures NextOperand(s, from).None?
    decreases |s| - from
  {
    if from < |s| {
      assert OperandAt(s, from).None?;
      PlainHasNoOperand(s, from + 1);
    }
  }

  /** The CB group's operation names hold neither a placeholder nor an 'H'. */
  /** Text without any character a placeholder is made of. */
  predicate NoMarks(s: string)
  {
    forall j :: 0 <= j < |s| ==> s[j] != 'X' && s[j] != '+' && s[j] != 'r'
  }

  lemma NoMarksPlain(s: string)
    requires NoMarks(s)
    ensures PlainText(s)
  {
  }

  lemma NoMarksAppend(a: string, b: string)
    requires NoMarks(a) && NoMarks(b)
    ensures NoMarks(a + b)
  {
    forall j | 0 <= j < |a + b|
      ensures (a + b)[j] != 'X' && (a + b)[j] != '+' && (a + b)[j] != 'r'
    {
      if j < |a| {
        assert (a + b)[j] == a[j];
      } else {
        assert (a + b)[j] == b[j - |a|];
      }
    }
  }

  lemma CbOpPlain(k: bv8)
    ensures NoMarks(CbOp(k))
    ensures forall j :: 0 <= j < |CbOp(k)| ==> CbOp(k)[j] != 'H'
  {
    if k < 8 {
      CbOpRotates(k);
    } else if k < 16 {
      CbOpBit(k);
    } else if k < 24 {
      CbOpRes(k);
    } else {
      CbOpSet(k);
    }
  }

  /** The rotate and shift names carry no placeholder mark and no H ... */
  lemma CbOpRotates(k: bv8)
    requires k < 8
    ensures NoMarks(CbOp(k))
    ensures forall j :: 0 <= j < |CbOp(k)| ==> CbOp(k)[j] != 'H'
  {
  }

  /** ... nor do the BIT names ... */
  lemma CbOpBit(k: bv8)
    requires 8 <= k < 16
    ensures NoMarks(CbOp(k))
    ensures forall j :: 0 <= j < |CbOp(k)| ==> CbOp(k)[j] != 'H'
  {
  }

  /** ... the RES names ... */
  lemma CbOpRes(k: bv8)
    requires 16 <= k < 24
    ensures NoMarks(CbOp(k))
    ensures forall j :: 0 <= j < |CbOp(k)| ==> CbOp(k)[j] != 'H'
  {
  }

  /** ... or the SET names. */
  lemma CbOpSet(k: bv8)
    requires 24 <= k
    ensures NoMarks(CbOp(k))
    ensures forall j :: 0 <= j < |CbOp(k)| ==> CbOp(k)[j] != 'H'
  {
  }

  /** A register other than (HL) is one plain letter. */
  lemma LdRegPlain(k: bv8)
    requires k != 6
    ensures NoMarks(LdReg(k)) && |LdReg(k)| == 1
  {
  }

  /** With no 'H' before the last character, "HL" cannot occur. */
  lemma NoHlInCbTemplate(a: string, b: string)
    requires forall j :: 0 <= j < |a| ==> a[j] != 'H'
    requires |b| == 1
    ensures !Contains(a + b, "HL")
  {
    ContainsIff(a + b, "HL");
    forall j | 0 <= j
      ensures !MatchesAt(a + b, "HL", j)
    {
      MatchesAtChars(a + b, "HL", j);
      if j + 2 <= |a + b| {
        assert (a + b)[j] == a[j] != 'H' == "HL"[0];
      }
    }
  }

  /** The DD/FD CB template of a register operand is the CB template itself, and
      it is plain text. */
  lemma IndexedCbRegisterTemplate(b: seq<bv8>)
    requires |b| == MaxBytes && IndexPrefix(b[0]) && b[1] == 0xCB && b[3] & 7 != 6
    ensures TemplateZ80(b, 4).Some? && PlainText(TemplateZ80(b, 4).value)
  {
    var op := b[3];
    var tbuf := CbOp((op >> 3) & 0x1F) + LdReg(op & 7);
    CbOpPlain((op >> 3) & 0x1F);
    LdRegPlain(op & 7);
    NoHlInCbTemplate(CbOp((op >> 3) & 0x1F), LdReg(op & 7));
    NoMarksAppend(CbOp((op >> 3) & 0x1F), LdReg(op & 7));
    NoMarksPlain(tbuf);
    HlToIndexRoundTrip(tbuf, op, b[0]);
    assert TemplateZ80(b, 4) == Some(tbuf);
  }

  /** DD CB d op (and FD CB d op) with a register operand (op & 7 other than 6):
      the template has no "(HL)" to turn into a displacement, so the length comes
      out as 3 while 4 bytes are already in; the record keeps fetching, and no
      later call completes it either. */
  lemma IndexedCbRegisterNeverCompletes(d: Decode, later: nat)
    requires WellFormed(d) && d.state == Fetching && d.bytesRequired == 0 && d.bytesFetched == 4
    requires IndexPrefix(d.bytes[0]) && d.bytes[1] == 0xCB && d.bytes[3] & 7 != 6
    requires 4 <= later <= MaxBytes
    ensures var r := NextZ80(d);
      r.state == Fetching && r.bytesRequired == 3 && r.bytesFetched == 4 &&
      NextZ80(r.(bytesFetched := later)) == r.(bytesFetched := later)
  {
    IndexedCbRegisterTemplate(d.bytes);
    var t := TemplateZ80(d.bytes, 4).value;
    PlainHasNoOperand(t, 0);
    OperandBytesDone(t, 0);
  }

  // ---------------------------------------------------------------------------
  // What the filled-in text looks like
  // ---------------------------------------------------------------------------

  /** No character from lo up to hi can start a placeholder. */
  predicate PlainBetween(s: string, lo: nat, hi: nat)
    requires lo <= hi <= |s|
  {
    forall j :: lo <= j < hi ==> s[j] != '+' && s[j] != 'r' && (s[j] == 'X' && j + 1 < |s| ==> s[j + 1] != 'X')
  }

  /** Plain text a can stand before the placeholder of kind m: a trailing 'X' of
      a would otherwise run into the 'X's of "XXh" or "XXXXh". */
  predicate PlainBefore(a: string, m: ModeZ80)
    requires m != ModeZ80.Implied
  {
    PlainText(a) && (a != [] && a[|a| - 1] == 'X' ==> Placeholder(m)[0] != 'X')
  }

  predicate NoSpace(s: string)
  {
    forall j :: 0 <= j < |s| ==> s[j] != ' '
  }

  /** The scan walks over plain text without stopping. */
  lemma {:induction false} ScanPastPlain(s: string, from: nat, hi: nat)
    requires from <= hi <= |s| && PlainBetween(s, from, hi)
    ensures NextOperand(s, from) == NextOperand(s, hi)
    decreases hi - from
  {
    if from < hi {
      assert OperandAt(s, from).None?;
      ScanPastPlain(s, from + 1, hi);
    }
  }

  /** After plain text a, the scan stops at the placeholder that follows it. */
  lemma FoundAfterPlain(x: string, a: string, m: ModeZ80, c: string)
    requires m != ModeZ80.Implied && PlainBefore(a, m)
    ensures NextOperand(x + a + Placeholder(m) + c, |x|) == Some((|x| + |a|, m))
  {
    var t := x + a + Placeholder(m) + c;
    var p := |x| + |a|;
    PlainPartBetween(t, x, a, m, c);
    ScanPastPlain(t, |x|, p);
    PlaceholderPartAt(t, x, a, m, c);
    NextOperandHere(t, p, m);
  }

  /** The plain part of x + a + placeholder + c: no placeholder starts in a. */
  lemma PlainPartBetween(t: string, x: string, a: string, m: ModeZ80, c: string)
    requires m != ModeZ80.Implied && PlainBefore(a, m) && t == x + a + Placeholder(m) + c
    ensures |x| + |a| <= |t| && PlainBetween(t, |x|, |x| + |a|)
  {
    var p := |x| + |a|;
    forall j | |x| <= j < p
      ensures t[j] != '+' && t[j] != 'r' && (t[j] == 'X' && j + 1 < |t| ==> t[j + 1] != 'X')
    {
      assert t[j] == a[j - |x|];
      if j + 1 < p {
        assert t[j + 1] == a[j + 1 - |x|];
      } else {
        assert t[j + 1] == Placeholder(m)[0];
      }
    }
  }

  /** The placeholder part of x + a + placeholder + c is found where it stands. */
  lemma PlaceholderPartAt(t: string, x: string, a: string, m: ModeZ80, c: string)
    requires m != ModeZ80.Implied && t == x + a + Placeholder(m) + c
    ensures OperandAt(t, |x| + |a|) == Some(m)
  {
    var p := |x| + |a|;
    assert t[p..p + |Placeholder(m)|] == Placeholder(m);
    OperandAtExact(t, p, m);
  }

  /** With only plain text after the cursor, the loop ends and the text stays. */
  lemma SpliceEnd(y: string, cur: nat, i: nat, b: seq<bv8>, addr: U32, tgt: Option<U32>)
    requires cur <= |y| ==> PlainBetween(y, cur, |y|)
    ensures SpliceFrom(y, cur, i, b, addr, tgt) == Formatted(y, tgt)
  {
    if cur <= |y| {
      ScanPastPlain(y, cur, |y|);
    }
  }

  /** The placeholders filled in place without a change of length. */
  predicate FixedWidth(m: ModeZ80)
  {
    m == ModeZ80.U16 || m == ModeZ80.U8 || m == ModeZ80.PcRel8
  }

  /** What stands where a fixed-width placeholder stood: four or two hex digits
      followed by the placeholder's 'h', or the PC-relative value left-justified
      in four columns. */
  function FieldText(m: ModeZ80, b: seq<bv8>, i: nat): (r: string)
    requires FixedWidth(m)
    ensures |r| == |Placeholder(m)|
  {
    if m == ModeZ80.U16 then (Hex4Width(OperandWord(b, i)); Hex(OperandWord(b, i), 4) + "h")
    else if m == ModeZ80.U8 then (Hex2Width(OperandByte(b, i) as nat); Hex(OperandByte(b, i) as nat, 2) + "h")
    else PcRelText(OperandByte(b, i))
  }

  /** Overwriting the start of a window keeps the rest of the window and
      everything around it. */
  lemma OverwritePlaced(a: string, ph: string, c: string, r: string)
    requires |r| <= |ph|
    ensures Overwrite(a + ph + c, |a|, r) == a + (r + ph[|r|..]) + c
  {
    var t := a + ph + c;
    var u := a + (r + ph[|r|..]) + c;
    var o := Overwrite(t, |a|, r);
    OverwriteChars(t, |a|, r);
    forall j | 0 <= j < |u|
      ensures o[j] == u[j]
    {
      if j < |a| {
      } else if j < |a| + |r| {
      } else {
      }
    }
    assert o == u;
  }

  lemma SplicedFixed(x: string, a: string, m: ModeZ80, c: string, b: seq<bv8>, i: nat)
    requires FixedWidth(m)
    ensures Spliced(x + a + Placeholder(m) + c, |x| + |a|, m, b, i) == x + a + FieldText(m, b, i) + c
  {
    var r := FieldDigits(m, b, i);
    OverwritePlaced(x + a, Placeholder(m), c, r);
    assert r + Placeholder(m)[|r|..] == FieldText(m, b, i);
  }

  /** How a displacement is shown once the padding is collapsed: a negative one
      with its '-', any other after the template's '+', in as few digits as it
      takes. */
  function DispShown(x: bv8): (r: string)
    ensures 2 <= |r| <= 4
  {
    var v := SignExtend8(x);
    if v < 0 then (DecFitsFour(v); Dec(v)) else (DecFitsThree(v); "+" + Dec(v))
  }

  lemma DecNoSpace(n: int)
    ensures NoSpace(Dec(n))
  {
    if n < 0 {
      DecDigitsSpell(-n);
    } else {
      DecDigitsSpell(n);
    }
  }

  /** The displacement field before the collapse: the shown text, then padding. */
  lemma DispField(x: bv8)
    ensures NoSpace(DispShown(x))
    ensures (if SignExtend8(x) < 0 then DispDigits(x) else "+" + DispDigits(x))
         == DispShown(x) + Repeat(' ', 4 - |DispShown(x)|)
  {
    var v := SignExtend8(x);
    DecNoSpace(v);
    if v < 0 {
      DecFitsFour(v);
    } else {
      DecFitsThree(v);
      assert "+" + (Dec(v) + Repeat(' ', 3 - |Dec(v)|)) == ("+" + Dec(v)) + Repeat(' ', 3 - |Dec(v)|);
    }
  }

  /** A collapse that finds a run of spaces from q to r cuts exactly that run. */
  lemma CollapseRun(w: string, p: nat, q: nat, r: nat)
    requires p <= q < r <= |w|
    requires forall j :: p <= j < q ==> w[j] != ' '
    requires forall j :: q <= j < r ==> w[j] == ' '
    requires r < |w| ==> w[r] != ' '
    ensures Collapse(w, p) == w[..q] + w[r..]
  {
    SpaceFromSpec(w, p, q);
    SpaceRunEndSpec(w, q, r);
    CollapseAtSpace(w, p);
  }

  /** A collapse that finds no space leaves the text alone. */
  lemma CollapseNone(w: string, p: nat)
    requires p <= |w|
    requires forall j :: p <= j < |w| ==> w[j] != ' '
    ensures Collapse(w, p) == w
  {
    SpaceFromSpec(w, p, |w|);
    CollapseAtSpace(w, p);
  }

  /** The characters of shown text, padding and the rest of the template. */
  lemma PaddedChars(w: string, pre: string, sh: string, k: nat, c: string)
    requires NoSpace(sh) && NoSpace(c)
    requires w == pre + sh + Repeat(' ', k) + c
    ensures forall j :: |pre| <= j < |pre| + |sh| ==> w[j] != ' '
    ensures forall j :: |pre| + |sh| <= j < |pre| + |sh| + k ==> w[j] == ' '
    ensures forall j :: |pre| + |sh| + k <= j < |w| ==> w[j] != ' '
  {
    forall j | |pre| <= j < |pre| + |sh|
      ensures w[j] != ' '
    {
      assert w[j] == sh[j - |pre|];
    }
    forall j | |pre| + |sh| <= j < |pre| + |sh| + k
      ensures w[j] == ' '
    {
      assert w[j] == Repeat(' ', k)[j - |pre| - |sh|];
    }
    forall j | |pre| + |sh| + k <= j < |w|
      ensures w[j] != ' '
    {
      assert w[j] == c[j - |pre| - |sh| - k];
    }
  }

  /** The collapse cuts exactly the padding after the shown text when nothing
      after it is a space. */
  lemma CollapsePadding(pre: string, sh: string, k: nat, c: string)
    requires NoSpace(sh) && NoSpace(c)
    ensures Collapse(pre + sh + Repeat(' ', k) + c, |pre|) == pre + sh + c
  {
    var w := pre + sh + Repeat(' ', k) + c;
    var q := |pre| + |sh|;
    PaddedChars(w, pre, sh, k, c);
    OuterParts(pre + sh, Repeat(' ', k), c);
    if k == 0 {
      assert Repeat(' ', k) == [];
      assert w == pre + sh + c;
      CollapseNone(w, |pre|);
    } else {
      CollapseRun(w, |pre|, q, q + k);
      assert w[..q] == pre + sh;
      assert w[q + k..] == c;
    }
  }

  /** The outer pieces of a three-piece concatenation, and the whole when the
      middle one is empty. */
  lemma OuterParts(u: string, v: string, c: string)
    ensures (u + v + c)[..|u|] == u && (u + v + c)[|u| + |v|..] == c
    ensures v == [] ==> u + v + c == u + c
  {
  }

  /** Moving the boundary between two pieces of a concatenation. */
  lemma MoveBoundary(a: string, p: string, q: string, c: string)
    ensures a + (p + q) + c == (a + p) + q + c
  {
    assert a + (p + q) == (a + p) + q;
  }

  /** Four characters written over "+ddd": the field becomes sh then pad. */
  lemma OverwriteFromSign(a: string, c: string, dd: string, sh: string, pad: string)
    requires |dd| == 4 && dd == sh + pad
    ensures Overwrite(a + "+ddd" + c, |a|, dd) == a + sh + pad + c
  {
    OverwritePlaced(a, "+ddd", c, dd);
    assert dd + "+ddd"[4..] == dd;
    assert a + (sh + pad) + c == a + sh + pad + c;
  }

  /** Three characters written after the '+' of "+ddd": the field becomes sh
      then pad, sh starting with that '+'. */
  lemma OverwriteAfterSign(a: string, c: string, dd: string, sh: string, pad: string)
    requires |dd| == 3 && "+" + dd == sh + pad
    ensures Overwrite(a + "+ddd" + c, |a| + 1, dd) == a + sh + pad + c
  {
    assert "+ddd" == "+" + "ddd";
    MoveBoundary(a, "+", "ddd", c);
    OverwritePlaced(a + "+", "ddd", c, dd);
    assert dd + "ddd"[3..] == dd;
    MoveBoundary(a, "+", dd, c);
    assert a + (sh + pad) + c == a + sh + pad + c;
  }

  /** The displacement field written over "+ddd": the shown text, then padding. */
  lemma DispWrittenPlaced(a: string, c: string, xb: bv8)
    ensures DispWritten(a + "+ddd" + c, |a|, xb)
         == a + DispShown(xb) + Repeat(' ', 4 - |DispShown(xb)|) + c
  {
    DispField(xb);
    if SignExtend8(xb) < 0 {
      OverwriteFromSign(a, c, DispDigits(xb), DispShown(xb), Repeat(' ', 4 - |DispShown(xb)|));
    } else {
      OverwriteAfterSign(a, c, DispDigits(xb), DispShown(xb), Repeat(' ', 4 - |DispShown(xb)|));
    }
  }

  lemma SplicedDisp(a: string, c: string, b: seq<bv8>, i: nat)
    requires NoSpace(c)
    ensures Spliced(a + "+ddd" + c, |a|, ModeZ80.Disp8, b, i) == a + DispShown(OperandByte(b, i)) + c
  {
    var xb := OperandByte(b, i);
    var sh := DispShown(xb);
    DispWrittenPlaced(a, c, xb);
    DispField(xb);
    CollapsePadding(a, sh, 4 - |sh|, c);
  }

  /** The scan finds the fixed-width placeholder right after plain text a, and
      filling it in gives x, a and the field. */
  lemma FixedPlaced(t: string, x: string, a: string, m: ModeZ80, y: string, i: nat, b: seq<bv8>)
    requires FixedWidth(m) && PlainBefore(a, m)
    requires t == x + a + Placeholder(m) && y == x + a + FieldText(m, b, i)
    ensures NextOperand(t, |x|) == Some((|x| + |a|, m))
    ensures |x| + |a| + |Placeholder(m)| == |t| == |y|
    ensures Spliced(t, |x| + |a|, m, b, i) == y
  {
    FoundAfterPlain(x, a, m, "");
    SplicedFixed(x, a, m, "", b, i);
    assert t == x + a + Placeholder(m) + "" && y == x + a + FieldText(m, b, i) + "";
  }

  /** One fixed-width operand ending the template: the placeholder is replaced
      by its field, the loop finds nothing more, and a PC-relative operand
      resolves the target. */
  lemma SpliceFixedLast(t: string, x: string, a: string, m: ModeZ80, y: string, i: nat, b: seq<bv8>, addr: U32, tgt: Option<U32>)
    requires FixedWidth(m) && PlainBefore(a, m)
    requires t == x + a + Placeholder(m) && y == x + a + FieldText(m, b, i)
    ensures SpliceFrom(t, |x|, i, b, addr, tgt) == Formatted(y, NextTarget(m, addr, b, i, tgt))
  {
    FixedPlaced(t, x, a, m, y, i, b);
    var tgt' := NextTarget(m, addr, b, i, tgt);
    SpliceFromStep(t, |x|, i, b, addr, tgt, |x| + |a|, m, tgt', y, |y|, i + OperandSize(m));
    SpliceEnd(y, |y|, i + OperandSize(m), b, addr, tgt');
  }

  /** The scan finds "+ddd" right after plain text a. */
  lemma DispFound(t: string, a: string, c: string)
    requires PlainBefore(a, ModeZ80.Disp8)
    requires t == a + "+ddd" + c
    ensures NextOperand(t, 0) == Some((|a|, ModeZ80.Disp8))
  {
    FoundAfterPlain("", a, ModeZ80.Disp8, c);
    assert t == "" + a + Placeholder(ModeZ80.Disp8) + c;
  }

  /** One displacement at the start of the scan: "+ddd" is replaced by the shown
      displacement and the padding closed up; the loop goes on four characters
      after where the placeholder started, however much shorter the text became. */
  lemma SpliceDispFrom(t: string, a: string, c: string, u: string, i: nat, b: seq<bv8>, addr: U32, tgt: Option<U32>)
    requires PlainBefore(a, ModeZ80.Disp8) && NoSpace(c)
    requires t == a + "+ddd" + c && u == a + DispShown(OperandByte(b, i)) + c
    ensures SpliceFrom(t, 0, i, b, addr, tgt) == SpliceFrom(u, |a| + 4, i + 1, b, addr, tgt)
  {
    DispFound(t, a, c);
    SplicedDisp(a, c, b, i);
    SpliceFromStep(t, 0, i, b, addr, tgt, |a|, ModeZ80.Disp8, tgt, u, |a| + 4, i + 1);
  }

  // ---------------------------------------------------------------------------
  // The formatter against the token model
  // ---------------------------------------------------------------------------

  /** What one token becomes in the formatted text: a literal stays, a
      fixed-width hole becomes its field, and a displacement its signed digits
      without padding. */
  function TokenShown(k: Token, b: seq<bv8>, i: nat): string
  {
    match k
    case Lit(c) => [c]
    case Hole(m) =>
      if m == ModeZ80.Disp8 then DispShown(OperandByte(b, i))
      else if FixedWidth(m) then FieldText(m, b, i)
      else ""
  }

  /** The text a token list formats to, its operand bytes taken in order from i. */
  function Render(ts: seq<Token>, b: seq<bv8>, i: nat): string
  {
    if ts == [] then [] else TokenShown(ts[0], b, i) + Render(ts[1..], b, i + TokenBytes(ts[0]))
  }

  /** The target a token list resolves: that of its last PC-relative hole, or tgt
      when it has none. */
  function RenderTarget(ts: seq<Token>, addr: U32, b: seq<bv8>, i: nat, tgt: Option<U32>): Option<U32>
  {
    if ts == [] then tgt
    else RenderTarget(ts[1..], addr, b, i + TokenBytes(ts[0]),
                      if ts[0].Hole? then NextTarget(ts[0].m, addr, b, i, tgt) else tgt)
  }

  /** The formatter's result by the token model: the text already written,
      then the tokens left rendered, and the target of their last PC-relative
      hole, or tgt. */
  function Rendered(pre: string, ts: seq<Token>, i: nat, b: seq<bv8>, addr: U32, tgt: Option<U32>): Formatted
  {
    Formatted(pre + Render(ts, b, i), RenderTarget(ts, addr, b, i, tgt))
  }

  /** What the formatter's cursor arithmetic relies on after each displacement
      (see DispFollowed). */
  predicate DispsClosed(ts: seq<Token>)
    decreases |ts|
  {
    ts != [] ==> (ts[0] == Hole(ModeZ80.Disp8) ==> DispFollowed(ts[1..])) && DispsClosed(ts[1..])
  }

  /** The tokens after a displacement: no space anywhere, since the collapse cuts
      the first run of spaces it meets; and the first two, where there are any,
      literal, since the cursor is not moved back over the up to two characters
      the collapse removes. */
  predicate DispFollowed(r: seq<Token>)
  {
    (forall j :: 0 <= j < |r| ==> r[j] != Lit(' ')) && (|r| > 0 ==> r[0].Lit?) && (|r| > 1 ==> r[1].Lit?)
  }

  lemma ClosedCons(k: Token, r: seq<Token>)
    requires DispsClosed([k] + r)
    ensures DispsClosed(r) && (k == Hole(ModeZ80.Disp8) ==> DispFollowed(r))
  {
    assert ([k] + r)[0] == k && ([k] + r)[1..] == r;
  }

  /** Rendering a token list one token at a time. */
  lemma RenderCons(k: Token, r: seq<Token>, b: seq<bv8>, i: nat)
    ensures Render([k] + r, b, i) == TokenShown(k, b, i) + Render(r, b, i + TokenBytes(k))
  {
    assert ([k] + r)[0] == k && ([k] + r)[1..] == r;
  }

  lemma RenderTargetCons(k: Token, r: seq<Token>, addr: U32, b: seq<bv8>, i: nat, tgt: Option<U32>)
    ensures RenderTarget([k] + r, addr, b, i, tgt) ==
      RenderTarget(r, addr, b, i + TokenBytes(k), if k.Hole? then NextTarget(k.m, addr, b, i, tgt) else tgt)
  {
    assert ([k] + r)[0] == k && ([k] + r)[1..] == r;
  }

  /** The placeholder found at p stands between the text before it and the text
      after it. */
  lemma PlaceholderSplit(t: string, p: nat, m: ModeZ80)
    requires OperandAt(t, p) == Some(m)
    ensures t == t[..p] + Placeholder(m) + t[p + |Placeholder(m)|..]
  {
    OperandAtExact(t, p, m);
    var q := p + |Placeholder(m)|;
    assert t[p..q] == Placeholder(m);
    assert t == t[..p] + t[p..q] + t[q..];
  }

  /** Only the text from the cursor on matters to the matching step. */
  lemma OperandAtSuffix(t: string, q: nat, u: string, q': nat, j: nat)
    requires q <= |t| && q' <= |u| && t[q..] == u[q'..]
    ensures OperandAt(t, q + j) == OperandAt(u, q' + j)
  {
    assert |t| - q == |u| - q';
    forall k | q <= k < |t|
      ensures t[k] == u[k - q + q']
    {
      assert t[k] == t[q..][k - q];
      assert u[q'..][k - q] == u[k - q + q'];
    }
  }

  /** A character where no placeholder starts is a literal token. */
  lemma TokenizeLit(t: string, q: nat)
    requires q < |t| && OperandAt(t, q).None?
    ensures TokenizeFrom(t, q) == [Lit(t[q])] + TokenizeFrom(t, q + 1)
  {
    assert NextOperand(t, q) == NextOperand(t, q + 1);
    match NextOperand(t, q + 1)
    case None =>
      TokenizeLitLast(t, q);
    case Some((p, m)) =>
      TokenizeLitBefore(t, q, p, m);
  }

  lemma TokenizeLitLast(t: string, q: nat)
    requires q < |t| && NextOperand(t, q).None? && NextOperand(t, q + 1).None?
    ensures TokenizeFrom(t, q) == [Lit(t[q])] + TokenizeFrom(t, q + 1)
  {
    LitsFrom(t, q, |t|);
    assert t[q..|t|] == t[q..] && t[q + 1..|t|] == t[q + 1..];
  }

  lemma TokenizeLitBefore(t: string, q: nat, p: nat, m: ModeZ80)
    requires q < |t| && OperandAt(t, q).None?
    requires NextOperand(t, q) == Some((p, m)) && NextOperand(t, q + 1) == Some((p, m))
    ensures TokenizeFrom(t, q) == [Lit(t[q])] + TokenizeFrom(t, q + 1)
  {
    var a := Lits(t[q + 1..p]);
    var r := TokenizeFrom(t, p + |Placeholder(m)|);
    LitsFrom(t, q, p);
    TokenizeFromHole(t, q, p, m, [Lit(t[q])] + a, r);
    TokenizeFromHole(t, q + 1, p, m, a, r);
    ConsAppend(Lit(t[q]), a, Hole(m), r);
  }

  lemma ConsAppend<T>(x: T, a: seq<T>, y: T, r: seq<T>)
    ensures [x] + a + [y] + r == [x] + (a + [y] + r)
  {
  }

  /** The literal tokens of a stretch of text: its first character, then the
      rest. */
  lemma LitsFrom(t: string, q: nat, p: nat)
    requires q < p <= |t|
    ensures Lits(t[q..p]) == [Lit(t[q])] + Lits(t[q + 1..p])
  {
    assert t[q..p][0] == t[q] && t[q..p][1..] == t[q + 1..p];
  }

  /** A placeholder at the cursor is a hole token. */
  lemma TokenizeHoleHere(t: string, q: nat, m: ModeZ80)
    requires OperandAt(t, q) == Some(m)
    ensures NextOperand(t, q) == Some((q, m))
    ensures TokenizeFrom(t, q) == [Hole(m)] + TokenizeFrom(t, q + |Placeholder(m)|)
  {
    NextOperandHere(t, q, m);
    assert t[q..q] == [];
  }

  /** The scan from a placeholder finds it where it stands. */
  lemma NextOperandHere(t: string, q: nat, m: ModeZ80)
    requires OperandAt(t, q) == Some(m)
    ensures NextOperand(t, q) == Some((q, m))
  {
  }

  /** The first token from a cursor inside the text is a literal exactly when no
      placeholder starts there. */
  lemma TokenHead(t: string, q: nat)
    requires q < |t|
    ensures TokenizeFrom(t, q) != []
    ensures TokenizeFrom(t, q)[0].Lit? <==> OperandAt(t, q).None?
    ensures OperandAt(t, q).None? ==> TokenizeFrom(t, q)[1..] == TokenizeFrom(t, q + 1)
  {
    if OperandAt(t, q).None? {
      TokenizeLit(t, q);
    } else {
      TokenizeHoleHere(t, q, OperandAt(t, q).value);
    }
  }

  /** Tokens without a literal space spell a text without a space. */
  lemma {:induction false} NoSpaceUntokenize(ts: seq<Token>)
    requires forall j :: 0 <= j < |ts| ==> ts[j] != Lit(' ')
    ensures NoSpace(Untokenize(ts))
    decreases |ts|
  {
    if ts != [] {
      NoSpaceUntokenize(ts[1..]);
      var h := TokenText(ts[0]);
      assert NoSpace(h) by {
        match ts[0]
        case Lit(c) =>
        case Hole(m) =>
      }
      assert Untokenize(ts) == h + Untokenize(ts[1..]);
    }
  }

  /** Passing over positions where no placeholder starts leaves the loop as it
      was. */
  lemma SpliceSkip(u: string, q: nat, q2: nat, i: nat, b: seq<bv8>, addr: U32, tgt: Option<U32>)
    requires q <= q2 && forall j :: q <= j < q2 && j < |u| ==> OperandAt(u, j).None?
    ensures SpliceFrom(u, q, i, b, addr, tgt) == SpliceFrom(u, q2, i, b, addr, tgt)
  {
    NextOperandSkip(u, q, q2);
    SpliceFromSame(u, q, q2, i, b, addr, tgt);
  }

  lemma {:induction false} NextOperandSkip(u: string, q: nat, q2: nat)
    requires q <= q2 && forall j :: q <= j < q2 && j < |u| ==> OperandAt(u, j).None?
    ensures NextOperand(u, q) == NextOperand(u, q2)
    decreases q2 - q
  {
    if q < q2 && q < |u| {
      NextOperandSkip(u, q + 1, q2);
    }
  }

  /** The loop goes on from what the scan finds, not from where it starts. */
  lemma SpliceFromSame(s: string, c: nat, c2: nat, i: nat, b: seq<bv8>, addr: U32, tgt: Option<U32>)
    requires NextOperand(s, c) == NextOperand(s, c2)
    ensures SpliceFrom(s, c, i, b, addr, tgt) == SpliceFrom(s, c2, i, b, addr, tgt)
  {
    match NextOperand(s, c)
    case None =>
    case Some((p, m)) =>
      SpliceFromFound(s, c, i, b, addr, tgt, p, m);
      SpliceFromFound(s, c2, i, b, addr, tgt, p, m);
  }

  /** A fixed-width placeholder filled in: its field stands where it stood. */
  lemma SplicedFixedAt(t: string, p: nat, m: ModeZ80, b: seq<bv8>, i: nat)
    requires OperandAt(t, p) == Some(m) && FixedWidth(m)
    ensures Spliced(t, p, m, b, i) == t[..p] + FieldText(m, b, i) + t[p + |Placeholder(m)|..]
  {
    PlaceholderSplit(t, p, m);
    var r := FieldDigits(m, b, i);
    OverwritePlaced(t[..p], Placeholder(m), t[p + |Placeholder(m)|..], r);
    assert r + Placeholder(m)[|r|..] == FieldText(m, b, i);
  }

  /** A displacement filled in with no space after it: the shown digits stand
      where "+ddd" stood. */
  lemma SplicedDispAt(t: string, p: nat, b: seq<bv8>, i: nat)
    requires OperandAt(t, p) == Some(ModeZ80.Disp8) && NoSpace(t[p + 4..])
    ensures Spliced(t, p, ModeZ80.Disp8, b, i) == t[..p] + DispShown(OperandByte(b, i)) + t[p + 4..]
  {
    PlaceholderSplit(t, p, ModeZ80.Disp8);
    SplicedDisp(t[..p], t[p + 4..], b, i);
  }

  /** A text x + y + z whose cursor sits after x + y: what lies before the cursor
      and what lies after it. */
  lemma PieceSlices(u: string, x: string, y: string, z: string)
    requires u == x + y + z
    ensures u[..|x| + |y|] == x + y && u[|x| + |y|..] == z
  {
  }

  /** The token model over one token: rendering it moves what it shows into the
      text already written. */
  lemma RenderedStep(pre: string, k: Token, r: seq<Token>, sh: string, i: nat, b: seq<bv8>,
                     addr: U32, tgt: Option<U32>, tgt': Option<U32>)
    requires sh == TokenShown(k, b, i)
    requires tgt' == if k.Hole? then NextTarget(k.m, addr, b, i, tgt) else tgt
    ensures Rendered(pre, [k] + r, i, b, addr, tgt) == Rendered(pre + sh, r, i + TokenBytes(k), b, addr, tgt')
  {
    RenderCons(k, r, b, i);
    RenderTargetCons(k, r, addr, b, i, tgt);
    AppendAssoc(pre, sh, Render(r, b, i + TokenBytes(k)));
  }

  /** The formatter's loop against the token model: wherever the text being
      formatted agrees from the cursor on with the template from p on, the
      formatter's result is the text before the cursor followed by the template's
      tokens from p rendered, and the target of their last PC-relative hole,
      provided every displacement is closed. */
  lemma {:induction false} SpliceRendered(t0: string, p: nat, u: string, cur: nat,
                                          i: nat, b: seq<bv8>, addr: U32, tgt: Option<U32>)
    requires p <= |t0| && cur <= |u| && u[cur..] == t0[p..] && DispsClosed(TokenizeFrom(t0, p))
    ensures SpliceFrom(u, cur, i, b, addr, tgt) == Rendered(u[..cur], TokenizeFrom(t0, p), i, b, addr, tgt)
    decreases |t0| - p, 1
  {
    if p == |t0| {
      RenderedEnd(t0, u, cur, i, b, addr, tgt);
    } else if OperandAt(t0, p).None? {
      SpliceRenderedLit(t0, p, u, cur, i, b, addr, tgt);
    } else {
      SpliceRenderedHole(t0, p, OperandAt(t0, p).value, u, cur, i, b, addr, tgt);
    }
  }

  /** At the end of the template the loop finds nothing more and the token model
      has nothing left to render. */
  lemma RenderedEnd(t0: string, u: string, cur: nat, i: nat, b: seq<bv8>, addr: U32, tgt: Option<U32>)
    requires cur <= |u| && u[cur..] == t0[|t0|..]
    ensures SpliceFrom(u, cur, i, b, addr, tgt) == Rendered(u[..cur], TokenizeFrom(t0, |t0|), i, b, addr, tgt)
  {
    assert TokenizeFrom(t0, |t0|) == Lits([]) == [];
    assert |u[cur..]| == 0 && u[..cur] + [] == u;
  }

  lemma {:induction false} SpliceRenderedLit(t0: string, p: nat, u: string, cur: nat,
                                             i: nat, b: seq<bv8>, addr: U32, tgt: Option<U32>)
    requires p < |t0| && OperandAt(t0, p).None? && DispsClosed(TokenizeFrom(t0, p))
    requires cur <= |u| && u[cur..] == t0[p..]
    ensures SpliceFrom(u, cur, i, b, addr, tgt) == Rendered(u[..cur], TokenizeFrom(t0, p), i, b, addr, tgt)
    decreases |t0| - p, 0
  {
    LitText(t0, p, u, cur, i, b, addr, tgt);
    LitStep(t0, p, u, cur, i, b, addr, tgt);
    SpliceRendered(t0, p + 1, u, cur + 1, i, b, addr, tgt);
  }

  lemma {:induction false} SpliceRenderedHole(t0: string, p: nat, m: ModeZ80, u: string, cur: nat,
                                              i: nat, b: seq<bv8>, addr: U32, tgt: Option<U32>)
    requires OperandAt(t0, p) == Some(m) && DispsClosed(TokenizeFrom(t0, p))
    requires cur <= |u| && u[cur..] == t0[p..]
    ensures SpliceFrom(u, cur, i, b, addr, tgt) == Rendered(u[..cur], TokenizeFrom(t0, p), i, b, addr, tgt)
    decreases |t0| - p, 0
  {
    var p', u', cur', i', tgt';
    if m == ModeZ80.Disp8 {
      p', u', cur' := DispStep(t0, p, u, cur, i, b, addr, tgt);
      i', tgt' := i + 1, tgt;
    } else {
      p', u', cur', i', tgt' := FixedStep(t0, p, m, u, cur, i, b, addr, tgt);
    }
    SpliceRendered(t0, p', u', cur', i', b, addr, tgt');
  }

  /** Texts that agree from two cursors on agree from w characters further on. */
  lemma SuffixAfter(t0: string, p: nat, u: string, cur: nat, w: nat)
    requires p + w <= |t0| && cur <= |u| && u[cur..] == t0[p..]
    ensures cur + w <= |u| && u[cur + w..] == t0[p + w..]
  {
    assert u[cur + w..] == u[cur..][w..] && t0[p + w..] == t0[p..][w..];
  }

  /** A literal character of the template: the loop passes over the same
      character in the text it formats. */
  lemma LitText(t0: string, p: nat, u: string, cur: nat, i: nat, b: seq<bv8>, addr: U32, tgt: Option<U32>)
    requires p < |t0| && OperandAt(t0, p).None? && cur <= |u| && u[cur..] == t0[p..]
    ensures cur < |u| && u[cur] == t0[p] && u[cur + 1..] == t0[p + 1..]
    ensures SpliceFrom(u, cur, i, b, addr, tgt) == SpliceFrom(u, cur + 1, i, b, addr, tgt)
  {
    SuffixAfter(t0, p, u, cur, 1);
    assert u[cur] == u[cur..][0] && t0[p] == t0[p..][0];
    OperandAtSuffix(t0, p, u, cur, 0);
    SpliceSkip(u, cur, cur + 1, i, b, addr, tgt);
  }

  /** A literal character: the token model passes over it. */
  lemma LitStep(t0: string, p: nat, u: string, cur: nat, i: nat, b: seq<bv8>, addr: U32, tgt: Option<U32>)
    requires p < |t0| && OperandAt(t0, p).None? && DispsClosed(TokenizeFrom(t0, p))
    requires cur < |u| && u[cur] == t0[p]
    ensures DispsClosed(TokenizeFrom(t0, p + 1))
    ensures Rendered(u[..cur], TokenizeFrom(t0, p), i, b, addr, tgt) ==
      Rendered(u[..cur + 1], TokenizeFrom(t0, p + 1), i, b, addr, tgt)
  {
    LitHead(t0, p);
    TakeOneMore(u, cur);
    LitRendered(u[..cur], t0[p], TokenizeFrom(t0, p + 1), u[..cur + 1], i, b, addr, tgt);
  }

  lemma LitHead(t: string, cur: nat)
    requires cur < |t| && OperandAt(t, cur).None? && DispsClosed(TokenizeFrom(t, cur))
    ensures TokenizeFrom(t, cur) == [Lit(t[cur])] + TokenizeFrom(t, cur + 1)
    ensures DispsClosed(TokenizeFrom(t, cur + 1))
  {
    TokenizeLit(t, cur);
    ClosedCons(Lit(t[cur]), TokenizeFrom(t, cur + 1));
  }

  lemma TakeOneMore(t: string, cur: nat)
    requires cur < |t|
    ensures t[..cur + 1] == t[..cur] + [t[cur]]
  {
  }

  /** The token model over a literal: it shows its character. */
  lemma LitRendered(pre: string, c: char, r: seq<Token>, pre': string, i: nat, b: seq<bv8>, addr: U32, tgt: Option<U32>)
    requires pre' == pre + [c]
    ensures Rendered(pre, [Lit(c)] + r, i, b, addr, tgt) == Rendered(pre', r, i, b, addr, tgt)
  {
    RenderedStep(pre, Lit(c), r, [c], i, b, addr, tgt, tgt);
  }

  /** A fixed-width placeholder: the loop and the token model both go on after
      its field, which the token model shows as the loop writes it. */
  lemma FixedStep(t0: string, p: nat, m: ModeZ80, u: string, cur: nat, i: nat, b: seq<bv8>, addr: U32, tgt: Option<U32>)
    returns (p': nat, u': string, cur': nat, i': nat, tgt': Option<U32>)
    requires OperandAt(t0, p) == Some(m) && m != ModeZ80.Disp8 && DispsClosed(TokenizeFrom(t0, p))
    requires cur <= |u| && u[cur..] == t0[p..]
    ensures p < p' <= |t0| && cur' <= |u'| && u'[cur'..] == t0[p'..] && DispsClosed(TokenizeFrom(t0, p'))
    ensures SpliceFrom(u, cur, i, b, addr, tgt) == SpliceFrom(u', cur', i', b, addr, tgt')
    ensures Rendered(u[..cur], TokenizeFrom(t0, p), i, b, addr, tgt) ==
      Rendered(u'[..cur'], TokenizeFrom(t0, p'), i', b, addr, tgt')
  {
    p' := p + |Placeholder(m)|;
    FixedTransfer(t0, p, m, u, cur, p');
    u', cur', i', tgt' := FixedSplice(u, cur, m, i, b, addr, tgt, TokenizeFrom(t0, p), TokenizeFrom(t0, p'), t0[p'..]);
  }

  /** What a fixed-width placeholder of the template tells of the text being
      formatted, which agrees with it from the cursor on. */
  lemma FixedTransfer(t0: string, p: nat, m: ModeZ80, u: string, cur: nat, p': nat)
    requires OperandAt(t0, p) == Some(m) && DispsClosed(TokenizeFrom(t0, p))
    requires cur <= |u| && u[cur..] == t0[p..] && p' == p + |Placeholder(m)|
    ensures p < p' <= |t0| && OperandAt(u, cur) == Some(m) && u[cur + |Placeholder(m)|..] == t0[p'..]
    ensures TokenizeFrom(t0, p) == [Hole(m)] + TokenizeFrom(t0, p') && DispsClosed(TokenizeFrom(t0, p'))
  {
    FixedTokens(t0, p, m, p');
    FixedText(t0, p, m, u, cur, p');
  }

  lemma FixedTokens(t0: string, p: nat, m: ModeZ80, p': nat)
    requires OperandAt(t0, p) == Some(m) && DispsClosed(TokenizeFrom(t0, p)) && p' == p + |Placeholder(m)|
    ensures TokenizeFrom(t0, p) == [Hole(m)] + TokenizeFrom(t0, p') && DispsClosed(TokenizeFrom(t0, p'))
  {
    HoleHead(t0, p, m);
  }

  lemma FixedText(t0: string, p: nat, m: ModeZ80, u: string, cur: nat, p': nat)
    requires OperandAt(t0, p) == Some(m)
    requires cur <= |u| && u[cur..] == t0[p..] && p' == p + |Placeholder(m)|
    ensures p < p' <= |t0| && OperandAt(u, cur) == Some(m) && u[cur + |Placeholder(m)|..] == t0[p'..]
  {
    OperandAtSuffix(t0, p, u, cur, 0);
    SuffixAfter(t0, p, u, cur, |Placeholder(m)|);
  }

  /** One turn of the loop over a fixed-width placeholder, and the token model
      over its hole, whatever tokens follow. */
  lemma FixedSplice(t: string, cur: nat, m: ModeZ80, i: nat, b: seq<bv8>, addr: U32, tgt: Option<U32>,
                    ts: seq<Token>, r: seq<Token>, rest: string)
    returns (u: string, cur': nat, i': nat, tgt': Option<U32>)
    requires OperandAt(t, cur) == Some(m) && m != ModeZ80.Disp8
    requires ts == [Hole(m)] + r && t[cur + |Placeholder(m)|..] == rest
    ensures cur' == cur + |Placeholder(m)| && cur' <= |u| && |u| == |t|
    ensures SpliceFrom(t, cur, i, b, addr, tgt) == SpliceFrom(u, cur', i', b, addr, tgt')
    ensures u[cur'..] == rest
    ensures Rendered(t[..cur], ts, i, b, addr, tgt) == Rendered(u[..cur'], r, i', b, addr, tgt')
  {
    u, cur', i', tgt' := FixedSpliced(t, cur, m, i, b, addr, tgt);
    FixedRendered(t[..cur], m, ts, r, u[..cur'], i, b, addr, tgt);
  }

  /** The token model over a fixed-width hole: it shows the field. */
  lemma FixedRendered(pre: string, m: ModeZ80, ts: seq<Token>, r: seq<Token>, pre': string, i: nat, b: seq<bv8>, addr: U32, tgt: Option<U32>)
    requires FixedWidth(m) && pre' == pre + FieldText(m, b, i) && ts == [Hole(m)] + r
    ensures Rendered(pre, ts, i, b, addr, tgt) ==
      Rendered(pre', r, i + OperandSize(m), b, addr, NextTarget(m, addr, b, i, tgt))
  {
    RenderedStep(pre, Hole(m), r, FieldText(m, b, i), i, b, addr, tgt, NextTarget(m, addr, b, i, tgt));
  }

  /** One turn of the loop over a fixed-width placeholder, and where its field
      stands in the text it leaves. */
  lemma FixedSpliced(t: string, cur: nat, m: ModeZ80, i: nat, b: seq<bv8>, addr: U32, tgt: Option<U32>)
    returns (u: string, cur': nat, i': nat, tgt': Option<U32>)
    requires OperandAt(t, cur) == Some(m) && m != ModeZ80.Disp8
    ensures cur' == cur + |Placeholder(m)| && i' == i + OperandSize(m) && tgt' == NextTarget(m, addr, b, i, tgt)
    ensures |u| == |t| && cur' <= |t|
    ensures SpliceFrom(t, cur, i, b, addr, tgt) == SpliceFrom(u, cur', i', b, addr, tgt')
    ensures u[..cur'] == t[..cur] + FieldText(m, b, i)
    ensures u[cur'..] == t[cur'..]
  {
    u, cur', i', tgt' := Spliced(t, cur, m, b, i), cur + |Placeholder(m)|, i + OperandSize(m), NextTarget(m, addr, b, i, tgt);
    NextOperandHere(t, cur, m);
    SpliceFromStep(t, cur, i, b, addr, tgt, cur, m, tgt', u, cur', i');
    FixedSplicedText(t, cur, m, b, i, u, cur');
  }

  /** The text a fixed-width substitution leaves: the field in place of the
      placeholder, the same length, the rest as it was. */
  lemma FixedSplicedText(t: string, cur: nat, m: ModeZ80, b: seq<bv8>, i: nat, u: string, cur': nat)
    requires OperandAt(t, cur) == Some(m) && FixedWidth(m)
    requires u == Spliced(t, cur, m, b, i) && cur' == cur + |Placeholder(m)|
    ensures |u| == |t| && cur' <= |t| && u[..cur'] == t[..cur] + FieldText(m, b, i) && u[cur'..] == t[cur'..]
  {
    SplicedFixedAt(t, cur, m, b, i);
    PieceSlices(u, t[..cur], FieldText(m, b, i), t[cur'..]);
  }

  lemma HoleHead(t: string, cur: nat, m: ModeZ80)
    requires OperandAt(t, cur) == Some(m) && DispsClosed(TokenizeFrom(t, cur))
    ensures TokenizeFrom(t, cur) == [Hole(m)] + TokenizeFrom(t, cur + |Placeholder(m)|)
    ensures DispsClosed(TokenizeFrom(t, cur + |Placeholder(m)|))
  {
    TokenizeHoleHere(t, cur, m);
    ClosedCons(Hole(m), TokenizeFrom(t, cur + |Placeholder(m)|));
  }

  /** A closed displacement: the loop and the token model both go on after the
      digits it shows; the loop's cursor, four characters on, reaches no
      placeholder before them. */
  lemma DispStep(t0: string, p: nat, u: string, cur: nat, i: nat, b: seq<bv8>, addr: U32, tgt: Option<U32>)
    returns (p': nat, u': string, cur': nat)
    requires OperandAt(t0, p) == Some(ModeZ80.Disp8) && DispsClosed(TokenizeFrom(t0, p))
    requires cur <= |u| && u[cur..] == t0[p..]
    ensures p < p' <= |t0| && cur' <= |u'| && u'[cur'..] == t0[p'..] && DispsClosed(TokenizeFrom(t0, p'))
    ensures SpliceFrom(u, cur, i, b, addr, tgt) == SpliceFrom(u', cur', i + 1, b, addr, tgt)
    ensures Rendered(u[..cur], TokenizeFrom(t0, p), i, b, addr, tgt) ==
      Rendered(u'[..cur'], TokenizeFrom(t0, p'), i + 1, b, addr, tgt)
  {
    p' := p + 4;
    DispAhead(t0, p);
    HoleHead(t0, p, ModeZ80.Disp8);
    DispTransfer(t0, p, u, cur);
    u', cur' := DispLoop(u, cur, i, b, addr, tgt, TokenizeFrom(t0, p), TokenizeFrom(t0, p'), t0[p'..]);
  }

  /** What the template promises after a displacement holds of the text being
      formatted, which agrees with it from the cursor on. */
  lemma DispTransfer(t0: string, p: nat, u: string, cur: nat)
    requires OperandAt(t0, p) == Some(ModeZ80.Disp8) && NoSpace(t0[p + 4..])
    requires p + 4 < |t0| ==> OperandAt(t0, p + 4).None?
    requires p + 5 < |t0| ==> OperandAt(t0, p + 5).None?
    requires cur <= |u| && u[cur..] == t0[p..]
    ensures OperandAt(u, cur) == Some(ModeZ80.Disp8) && NoSpace(u[cur + 4..]) && u[cur + 4..] == t0[p + 4..]
    ensures cur + 4 < |u| ==> OperandAt(u, cur + 4).None?
    ensures cur + 5 < |u| ==> OperandAt(u, cur + 5).None?
  {
    OperandAtSuffix(t0, p, u, cur, 0);
    OperandAtSuffix(t0, p, u, cur, 4);
    OperandAtSuffix(t0, p, u, cur, 5);
    SuffixAfter(t0, p, u, cur, 4);
  }

  /** The loop over a displacement whose text after it has no space and starts
      no placeholder in its first two characters, and the token model over its
      hole, whatever tokens follow: both resume where the shown digits end. */
  lemma DispLoop(t: string, cur: nat, i: nat, b: seq<bv8>, addr: U32, tgt: Option<U32>,
                 ts: seq<Token>, r: seq<Token>, rest: string)
    returns (u: string, cur': nat)
    requires OperandAt(t, cur) == Some(ModeZ80.Disp8) && NoSpace(t[cur + 4..])
    requires cur + 4 < |t| ==> OperandAt(t, cur + 4).None?
    requires cur + 5 < |t| ==> OperandAt(t, cur + 5).None?
    requires ts == [Hole(ModeZ80.Disp8)] + r && t[cur + 4..] == rest
    ensures cur' <= |u|
    ensures SpliceFrom(t, cur, i, b, addr, tgt) == SpliceFrom(u, cur', i + 1, b, addr, tgt)
    ensures u[cur'..] == rest
    ensures Rendered(t[..cur], ts, i, b, addr, tgt) == Rendered(u[..cur'], r, i + 1, b, addr, tgt)
  {
    u, cur' := DispSplice(t, cur, i, b, addr, tgt, ts, r, rest);
    DispResume(t, cur + 4, u, cur', i + 1, b, addr, tgt);
  }

  /** One turn of the loop over a displacement with no space after it, and the
      token model over its hole, whatever tokens follow: both resume where the
      shown digits end, up to two characters before the loop's cursor. */
  lemma DispSplice(t: string, cur: nat, i: nat, b: seq<bv8>, addr: U32, tgt: Option<U32>,
                   ts: seq<Token>, r: seq<Token>, rest: string)
    returns (u: string, cur': nat)
    requires OperandAt(t, cur) == Some(ModeZ80.Disp8) && NoSpace(t[cur + 4..])
    requires ts == [Hole(ModeZ80.Disp8)] + r && t[cur + 4..] == rest
    ensures cur + 4 <= |t| && cur' <= cur + 4 <= cur' + 2 && cur' <= |u| && |u| - cur' == |t| - (cur + 4)
    ensures SpliceFrom(t, cur, i, b, addr, tgt) == SpliceFrom(u, cur + 4, i + 1, b, addr, tgt)
    ensures u[cur'..] == rest
    ensures Rendered(t[..cur], ts, i, b, addr, tgt) == Rendered(u[..cur'], r, i + 1, b, addr, tgt)
  {
    u, cur' := DispSpliced(t, cur, i, b, addr, tgt);
    DispRendered(t[..cur], ts, r, u[..cur'], i, b, addr, tgt);
  }

  /** The token model over a displacement's hole: it shows the displacement's
      digits. */
  lemma DispRendered(pre: string, ts: seq<Token>, r: seq<Token>, pre': string, i: nat, b: seq<bv8>, addr: U32, tgt: Option<U32>)
    requires pre' == pre + DispShown(OperandByte(b, i)) && ts == [Hole(ModeZ80.Disp8)] + r
    ensures Rendered(pre, ts, i, b, addr, tgt) == Rendered(pre', r, i + 1, b, addr, tgt)
  {
    RenderedStep(pre, Hole(ModeZ80.Disp8), r, DispShown(OperandByte(b, i)), i, b, addr, tgt, tgt);
  }

  /** One turn of the loop over a displacement with no space after it, and where
      its shown digits stand in the text it leaves. */
  lemma DispSpliced(t: string, cur: nat, i: nat, b: seq<bv8>, addr: U32, tgt: Option<U32>)
    returns (u: string, cur': nat)
    requires OperandAt(t, cur) == Some(ModeZ80.Disp8) && NoSpace(t[cur + 4..])
    ensures cur' == cur + |DispShown(OperandByte(b, i))|
    ensures cur + 4 <= |t| && |u| == |t| - 4 + |DispShown(OperandByte(b, i))|
    ensures SpliceFrom(t, cur, i, b, addr, tgt) == SpliceFrom(u, cur + 4, i + 1, b, addr, tgt)
    ensures u[..cur'] == t[..cur] + DispShown(OperandByte(b, i))
    ensures u[cur'..] == t[cur + 4..]
  {
    u, cur' := Spliced(t, cur, ModeZ80.Disp8, b, i), cur + |DispShown(OperandByte(b, i))|;
    NextOperandHere(t, cur, ModeZ80.Disp8);
    SpliceFromStep(t, cur, i, b, addr, tgt, cur, ModeZ80.Disp8, tgt, u, cur + 4, i + 1);
    DispSplicedText(t, cur, b, i, u, cur');
  }

  lemma DispSplicedText(t: string, cur: nat, b: seq<bv8>, i: nat, u: string, cur': nat)
    requires OperandAt(t, cur) == Some(ModeZ80.Disp8) && NoSpace(t[cur + 4..])
    requires u == Spliced(t, cur, ModeZ80.Disp8, b, i) && cur' == cur + |DispShown(OperandByte(b, i))|
    ensures cur + 4 <= |t| && |u| == |t| - 4 + |DispShown(OperandByte(b, i))|
    ensures u[..cur'] == t[..cur] + DispShown(OperandByte(b, i)) && u[cur'..] == t[cur + 4..]
  {
    SplicedDispAt(t, cur, b, i);
    PieceSlices(u, t[..cur], DispShown(OperandByte(b, i)), t[cur + 4..]);
  }

  /** Where the text after a displacement starts no placeholder in its first two
      characters, the loop resumes the same from anywhere up to two characters
      before it. */
  lemma DispResume(t: string, q: nat, u: string, q': nat, i: nat, b: seq<bv8>, addr: U32, tgt: Option<U32>)
    requires q <= |t| && q' <= |u| && u[q'..] == t[q..] && q' <= q <= q' + 2
    requires q < |t| ==> OperandAt(t, q).None?
    requires q + 1 < |t| ==> OperandAt(t, q + 1).None?
    ensures SpliceFrom(u, q, i, b, addr, tgt) == SpliceFrom(u, q', i, b, addr, tgt)
  {
    NoOperandBefore(t, q, u, q');
    SpliceSkip(u, q', q, i, b, addr, tgt);
  }

  lemma NoOperandBefore(t: string, q: nat, u: string, q': nat)
    requires q <= |t| && q' <= |u| && u[q'..] == t[q..] && q' <= q <= q' + 2
    requires q < |t| ==> OperandAt(t, q).None?
    requires q + 1 < |t| ==> OperandAt(t, q + 1).None?
    ensures forall j :: q' <= j < q && j < |u| ==> OperandAt(u, j).None?
  {
    OperandAtSuffix(t, q, u, q', 0);
    OperandAtSuffix(t, q, u, q', 1);
    assert |u| - q' == |t| - q;
    forall j | q' <= j < q && j < |u|
      ensures OperandAt(u, j).None?
    {
      assert j == q' + 0 || j == q' + 1;
    }
  }

  /** What a closed displacement at cur promises of the text after it: the
      tokens there are closed, it has no space, and no placeholder starts in its
      first two characters. */
  lemma DispAhead(t: string, cur: nat)
    requires OperandAt(t, cur) == Some(ModeZ80.Disp8) && DispsClosed(TokenizeFrom(t, cur))
    ensures NextOperand(t, cur) == Some((cur, ModeZ80.Disp8)) && cur + 4 <= |t|
    ensures DispsClosed(TokenizeFrom(t, cur + 4)) && NoSpace(t[cur + 4..])
    ensures cur + 4 < |t| ==> OperandAt(t, cur + 4).None?
    ensures cur + 5 < |t| ==> OperandAt(t, cur + 5).None?
  {
    var r := TokenizeFrom(t, cur + 4);
    TokenizeHoleHere(t, cur, ModeZ80.Disp8);
    ClosedCons(Hole(ModeZ80.Disp8), r);
    NoSpaceUntokenize(r);
    TokenizeRoundTrip(t, cur + 4);
    if cur + 4 < |t| {
      TokenHead(t, cur + 4);
      if cur + 5 < |t| && OperandAt(t, cur + 4).None? {
        TokenHead(t, cur + 5);
      }
    }
  }

  /** insn_decode_format_z80 against the token model: the formatted text is the
      template's tokens rendered with the operand bytes after the prefix, and the
      target is that of its PC-relative operand, for every template whose
      displacements are closed. */
  lemma FormatRendered(d: Decode)
    requires WellFormed(d) && DispsClosed(Tokenize(d.insnString))
    ensures FormatZ80(d) == Formatted(Render(Tokenize(d.insnString), d.bytes, OperandStart(d.bytes)),
                                      RenderTarget(Tokenize(d.insnString), d.insnAddress, d.bytes, OperandStart(d.bytes), None))
  {
    assert d.insnString[0..] == d.insnString && d.insnString[..0] == [];
    SpliceRendered(d.insnString, 0, d.insnString, 0, OperandStart(d.bytes), d.bytes, d.insnAddress, None);
    assert [] + Render(Tokenize(d.insnString), d.bytes, OperandStart(d.bytes)) ==
      Render(Tokenize(d.insnString), d.bytes, OperandStart(d.bytes));
  }

  /** The byte count of a placeholder after plain text, and of plain text. */
  lemma OperandBytesAfterPlain(x: string, a: string, m: ModeZ80, c: string)
    requires m != ModeZ80.Implied && PlainBefore(a, m)
    ensures HoleBytes(TokenizeFrom(x + a + Placeholder(m) + c, |x|))
         == OperandSize(m) + HoleBytes(TokenizeFrom(x + a + Placeholder(m) + c, |x| + |a| + |Placeholder(m)|))
  {
    FoundAfterPlain(x, a, m, c);
    OperandBytesStep(x + a + Placeholder(m) + c, |x|, |x| + |a|, m, |x| + |a| + |Placeholder(m)|);
  }

  lemma OperandBytesPlain(y: string, cur: nat)
    requires cur <= |y| && PlainBetween(y, cur, |y|)
    ensures HoleBytes(TokenizeFrom(y, cur)) == 0
  {
    ScanPastPlain(y, cur, |y|);
    OperandBytesDone(y, cur);
  }

  // ---------------------------------------------------------------------------
  // Sample instructions
  // ---------------------------------------------------------------------------

  /** The operand texts the samples below rely on: 55 and A5 in hex ... */
  lemma HexSample(x: bv8, y: string)
    requires (x == 0x55 && y == "55") || (x == 0xA5 && y == "A5")
    ensures Hex(x as nat, 2) == y
  {
    if x == 0x55 {
      assert HexDigits(0x55) == HexDigits(5) + [HexDigit(5)];
    } else {
      assert HexDigits(0xA5) == HexDigits(10) + [HexDigit(5)];
    }
  }

  /** ... the displacements 05, 0A and F6 with their signs ... */
  lemma DispSample(x: bv8, y: string)
    requires (x == 5 && y == "+5") || (x == 0x0A && y == "+10") || (x == 0xF6 && y == "-10")
    ensures DispShown(x) == y
  {
    if x == 5 {
      assert DecDigits(5) == "5";
    } else if x == 0x0A {
      assert DecDigits(10) == DecDigits(1) + "0";
    } else {
      assert SignExtend8(x) == -10;
      assert DecDigits(10) == DecDigits(1) + "0";
    }
  }

  /** ... and the relative offset 05, seven bytes on from the instruction. */
  lemma PcRelSample(x: bv8)
    requires x == 5
    ensures PcRelText(x) == "7   "
  {
    assert DecDigits(7) == "7";
  }

  /** LD C,XXh takes one operand byte. */
  lemma LdImmediateShape(t: string)
    requires t == "LD C,XXh"
    ensures OperandBytes(t) == 1
  {
    assert t == "" + "LD C," + Placeholder(ModeZ80.U8) + "";
    OperandBytesAfterPlain("", "LD C,", ModeZ80.U8, "");
    OperandBytesPlain(t, 8);
  }

  /** With 55 as the operand byte, LD C,XXh reads LD C,55h. */
  lemma LdImmediateText(t: string, y: string, b: seq<bv8>, addr: U32)
    requires t == "LD C,XXh" && y == "LD C,55h"
    requires |b| == MaxBytes && b[1] == 0x55
    ensures SpliceFrom(t, 0, 1, b, addr, None) == Formatted(y, None)
  {
    HexSample(OperandByte(b, 1), "55");
    SpliceFixedLast(t, "", "LD C,", ModeZ80.U8, y, 1, b, addr, None);
  }

  /** What the decoder needs of LD C,XXh (opcode 0E): its template, its one
      operand byte, and its text for the operand byte 55. */
  lemma LdImmediateFacts(b: seq<bv8>, fetched: int, c: seq<bv8>, addr: U32)
    requires |b| == MaxBytes && b[0] == 0x0E && fetched >= 1
    requires |c| == MaxBytes && c[1] == 0x55
    ensures TemplateZ80(b, fetched).Some? && OperandBytes(TemplateZ80(b, fetched).value) == 1
    ensures SpliceFrom(TemplateZ80(b, fetched).value, 0, 1, c, addr, None) == Formatted("LD C,55h", None)
  {
    assert TemplateZ80(b, fetched) == Some("LD C,XXh");
    var t := TemplateZ80(b, fetched).value;
    LdImmediateShape(t);
    LdImmediateText(t, "LD C,55h", c, addr);
  }

  /** LD E,(IX+ddd) takes one displacement byte. */
  lemma IndexedLoadShape(t: string)
    requires t == "LD E,(IX+ddd)"
    ensures OperandBytes(t) == 1
  {
    assert t == "" + "LD E,(IX" + Placeholder(ModeZ80.Disp8) + ")";
    OperandBytesAfterPlain("", "LD E,(IX", ModeZ80.Disp8, ")");
    OperandBytesPlain(t, 12);
  }

  /** The table text of DD 5E and the template the prefix makes of it. */
  lemma IndexedLoadOpcode(b: seq<bv8>)
    requires |b| == MaxBytes && b[0] == 0xDD && b[1] == 0x5E
    ensures b[1] != 0xCB && b[1] != 0xE9 && b[1] & 0xCF != 0x09
    ensures Opcodes(b[1]) == "LD E," + "(HL" + ")" && NoHl("LD E,")
    ensures "LD E," + "(I" + [IndexLetter(b[0])] + Placeholder(ModeZ80.Disp8) + ")" == "LD E,(IX+ddd)"
  {
    assert "LD E," + "(I" + [IndexLetter(b[0])] + Placeholder(ModeZ80.Disp8) + ")" == "LD E,(IX+ddd)";
  }

  /** The DD prefix turns LD E,(HL) into LD E,(IX+ddd). */
  lemma IndexedLoadTemplate(b: seq<bv8>, fetched: int)
    requires |b| == MaxBytes && b[0] == 0xDD && b[1] == 0x5E && fetched >= 2
    ensures TemplateZ80(b, fetched) == Some("LD E,(IX+ddd)")
  {
    IndexedLoadOpcode(b);
    IndexedTemplate(b, fetched, "LD E,", ")");
  }

  /** A displacement of 5 shows as +5, with the padding squeezed out. */
  lemma IndexedLoadText(t: string, y: string, b: seq<bv8>, addr: U32)
    requires t == "LD E,(IX+ddd)" && y == "LD E,(IX+5)"
    requires |b| == MaxBytes && b[2] == 5
    ensures SpliceFrom(t, 0, 2, b, addr, None) == Formatted(y, None)
  {
    DispSample(OperandByte(b, 2), "+5");
    SpliceDispFrom(t, "LD E,(IX", ")", y, 2, b, addr, None);
    SpliceEnd(y, 12, 3, b, addr, None);
  }

  /** What the decoder needs of DD 5E: the template LD E,(IX+ddd), its one
      displacement byte, and its text for the displacement 05. */
  lemma IndexedLoadFacts(b: seq<bv8>, fetched: int, c: seq<bv8>, addr: U32)
    requires |b| == MaxBytes && b[0] == 0xDD && b[1] == 0x5E && fetched >= 2
    requires |c| == MaxBytes && c[2] == 5
    ensures TemplateZ80(b, fetched).Some? && OperandBytes(TemplateZ80(b, fetched).value) == 1
    ensures SpliceFrom(TemplateZ80(b, fetched).value, 0, 2, c, addr, None) == Formatted("LD E,(IX+5)", None)
  {
    IndexedLoadTemplate(b, fetched);
    var t := TemplateZ80(b, fetched).value;
    IndexedLoadShape(t);
    IndexedLoadText(t, "LD E,(IX+5)", c, addr);
  }

  /** The table text of FD 66 and the template the prefix makes of it. */
  lemma NegativeDisplacementOpcode(b: seq<bv8>)
    requires |b| == MaxBytes && b[0] == 0xFD && b[1] == 0x66
    ensures b[1] != 0xCB && b[1] != 0xE9 && b[1] & 0xCF != 0x09
    ensures Opcodes(b[1]) == "LD H," + "(HL" + ")" && NoHl("LD H,")
    ensures "LD H," + "(I" + [IndexLetter(b[0])] + Placeholder(ModeZ80.Disp8) + ")" == "LD H,(IY+ddd)"
  {
    assert "LD H," + "(I" + [IndexLetter(b[0])] + Placeholder(ModeZ80.Disp8) + ")" == "LD H,(IY+ddd)";
  }

  /** The FD prefix turns LD H,(HL) into LD H,(IY+ddd): the H of the register
      is not taken for HL. */
  lemma NegativeDisplacementTemplate(b: seq<bv8>, fetched: int)
    requires |b| == MaxBytes && b[0] == 0xFD && b[1] == 0x66 && fetched >= 2
    ensures TemplateZ80(b, fetched) == Some("LD H,(IY+ddd)")
  {
    NegativeDisplacementOpcode(b);
    IndexedTemplate(b, fetched, "LD H,", ")");
  }

  /** LD H,(IY+ddd) takes one displacement byte ... */
  lemma NegativeDisplacementShape(t: string)
    requires t == "LD H,(IY+ddd)"
    ensures OperandBytes(t) == 1
  {
    assert t == "" + "LD H,(IY" + Placeholder(ModeZ80.Disp8) + ")";
    OperandBytesAfterPlain("", "LD H,(IY", ModeZ80.Disp8, ")");
    OperandBytesPlain(t, 12);
  }

  /** ... and F6 shows as -10. */
  lemma NegativeDisplacementText(t: string, y: string, b: seq<bv8>, addr: U32)
    requires t == "LD H,(IY+ddd)" && y == "LD H,(IY-10)"
    requires |b| == MaxBytes && b[2] == 0xF6
    ensures SpliceFrom(t, 0, 2, b, addr, None) == Formatted(y, None)
  {
    DispSample(OperandByte(b, 2), "-10");
    SpliceDispFrom(t, "LD H,(IY", ")", y, 2, b, addr, None);
    SpliceEnd(y, 12, 3, b, addr, None);
  }

  /** What the decoder needs of FD 66 F6. */
  lemma NegativeDisplacementFacts(b: seq<bv8>, fetched: int, c: seq<bv8>, addr: U32)
    requires |b| == MaxBytes && b[0] == 0xFD && b[1] == 0x66 && fetched >= 2
    requires |c| == MaxBytes && c[2] == 0xF6
    ensures TemplateZ80(b, fetched).Some? && OperandBytes(TemplateZ80(b, fetched).value) == 1
    ensures SpliceFrom(TemplateZ80(b, fetched).value, 0, 2, c, addr, None) == Formatted("LD H,(IY-10)", None)
  {
    NegativeDisplacementTemplate(b, fetched);
    var t := TemplateZ80(b, fetched).value;
    NegativeDisplacementShape(t);
    NegativeDisplacementText(t, "LD H,(IY-10)", c, addr);
  }

  /** The table text of DD 36 and the template the prefix makes of it. */
  lemma TwoOperandsOpcode(b: seq<bv8>)
    requires |b| == MaxBytes && b[0] == 0xDD && b[1] == 0x36
    ensures b[1] != 0xCB && b[1] != 0xE9 && b[1] & 0xCF != 0x09
    ensures Opcodes(b[1]) == "LD " + "(HL" + "),XXh" && NoHl("LD ")
    ensures "LD " + "(I" + [IndexLetter(b[0])] + Placeholder(ModeZ80.Disp8) + "),XXh" == "LD (IX+ddd),XXh"
  {
    assert "LD " + "(I" + [IndexLetter(b[0])] + Placeholder(ModeZ80.Disp8) + "),XXh" == "LD (IX+ddd),XXh";
  }

  /** The DD prefix turns LD (HL),XXh into LD (IX+ddd),XXh ... */
  lemma TwoOperandsTemplate(b: seq<bv8>, fetched: int)
    requires |b| == MaxBytes && b[0] == 0xDD && b[1] == 0x36 && fetched >= 2
    ensures TemplateZ80(b, fetched) == Some("LD (IX+ddd),XXh")
  {
    TwoOperandsOpcode(b);
    IndexedTemplate(b, fetched, "LD ", "),XXh");
  }

  /** ... which takes a displacement and an immediate byte. */
  lemma TwoOperandsShape(t: string)
    requires t == "LD (IX+ddd),XXh"
    ensures OperandBytes(t) == 2
  {
    TwoOperandsHead(t);
    TwoOperandsTail(t);
  }

  /** The displacement comes first ... */
  lemma {:induction false} TwoOperandsHead(t: string)
    requires t == "LD (IX+ddd),XXh"
    ensures HoleBytes(TokenizeFrom(t, 0)) == 1 + HoleBytes(TokenizeFrom(t, 10))
  {
    assert Placeholder(ModeZ80.Disp8) == "+ddd";
    assert t == "" + "LD (IX" + Placeholder(ModeZ80.Disp8) + "),XXh";
    OperandBytesAfterPlain("", "LD (IX", ModeZ80.Disp8, "),XXh");
  }

  /** ... and the immediate byte after it. */
  lemma TwoOperandsTail(t: string)
    requires t == "LD (IX+ddd),XXh"
    ensures HoleBytes(TokenizeFrom(t, 10)) == 1
  {
    assert t == "LD (IX+ddd" + ")," + Placeholder(ModeZ80.U8) + "";
    OperandBytesAfterPlain("LD (IX+ddd", "),", ModeZ80.U8, "");
    OperandBytesPlain(t, 15);
  }

  /** The displacement goes in first; the cursor, not moved back after the
      padding is squeezed out, still lands before the "XXh" ... */
  lemma TwoOperandsPieces(t: string, u: string, b: seq<bv8>)
    requires t == "LD (IX+ddd),XXh" && u == "LD (IX+10),XXh"
    requires |b| == MaxBytes && b[2] == 0x0A
    ensures PlainBefore("LD (IX", ModeZ80.Disp8) && NoSpace("),XXh")
    ensures t == "LD (IX" + "+ddd" + "),XXh"
    ensures u == "LD (IX" + DispShown(OperandByte(b, 2)) + "),XXh"
  {
    DispSample(OperandByte(b, 2), "+10");
  }

  lemma TwoOperandsFirst(t: string, u: string, b: seq<bv8>, addr: U32)
    requires t == "LD (IX+ddd),XXh" && u == "LD (IX+10),XXh"
    requires |b| == MaxBytes && b[2] == 0x0A
    ensures SpliceFrom(t, 0, 2, b, addr, None) == SpliceFrom(u, 10, 3, b, addr, None)
  {
    TwoOperandsPieces(t, u, b);
    SpliceDispFrom(t, "LD (IX", "),XXh", u, 2, b, addr, None);
  }

  /** ... and the immediate byte follows. */
  lemma TwoOperandsSecond(u: string, y: string, b: seq<bv8>, addr: U32)
    requires u == "LD (IX+10),XXh" && y == "LD (IX+10),A5h"
    requires |b| == MaxBytes && b[3] == 0xA5
    ensures SpliceFrom(u, 10, 3, b, addr, None) == Formatted(y, None)
  {
    HexSample(OperandByte(b, 3), "A5");
    SpliceFixedLast(u, "LD (IX+10)", ",", ModeZ80.U8, y, 3, b, addr, None);
  }

  /** LD (IX+10),A5h (DD 36 0A A5): the template, its two operand bytes, and
      the text, with the two operands filled in left to right. */
  lemma TwoOperandsFacts(b: seq<bv8>, fetched: int, c: seq<bv8>, addr: U32)
    requires |b| == MaxBytes && b[0] == 0xDD && b[1] == 0x36 && fetched >= 2
    requires |c| == MaxBytes && c[2] == 0x0A && c[3] == 0xA5
    ensures TemplateZ80(b, fetched).Some? && OperandBytes(TemplateZ80(b, fetched).value) == 2
    ensures SpliceFrom(TemplateZ80(b, fetched).value, 0, 2, c, addr, None) == Formatted("LD (IX+10),A5h", None)
  {
    TwoOperandsTemplate(b, fetched);
    var t := TemplateZ80(b, fetched).value;
    TwoOperandsShape(t);
    var u := "LD (IX+10),XXh";
    TwoOperandsFirst(t, u, c, addr);
    TwoOperandsSecond(u, "LD (IX+10),A5h", c, addr);
  }

  /** DJNZ rrrr takes one offset byte ... */
  lemma RelativeBranchShape(t: string)
    requires t == "DJNZ rrrr"
    ensures OperandBytes(t) == 1
  {
    assert t == "" + "DJNZ " + Placeholder(ModeZ80.PcRel8) + "";
    OperandBytesAfterPlain("", "DJNZ ", ModeZ80.PcRel8, "");
    OperandBytesPlain(t, 9);
  }

  /** ... and 05 shows as 7, the distance from the instruction, left-justified
      in four columns, resolving to the address 7 bytes on. */
  lemma RelativeBranchText(t: string, y: string, b: seq<bv8>, addr: U32)
    requires t == "DJNZ rrrr" && y == "DJNZ 7   "
    requires |b| == MaxBytes && b[1] == 0x05
    ensures SpliceFrom(t, 0, 1, b, addr, None) == Formatted(y, Some(WrapAdd(addr, 7)))
  {
    PcRelSample(OperandByte(b, 1));
    SpliceFixedLast(t, "", "DJNZ ", ModeZ80.PcRel8, y, 1, b, addr, None);
    assert PcRelTarget(addr, OperandByte(b, 1)) == WrapAdd(addr, 7);
  }

  /** What the decoder needs of 10 05. */
  lemma RelativeBranchFacts(b: seq<bv8>, fetched: int, c: seq<bv8>, addr: U32)
    requires |b| == MaxBytes && b[0] == 0x10 && fetched >= 1
    requires |c| == MaxBytes && c[1] == 0x05
    ensures TemplateZ80(b, fetched).Some? && OperandBytes(TemplateZ80(b, fetched).value) == 1
    ensures SpliceFrom(TemplateZ80(b, fetched).value, 0, 1, c, addr, None) == Formatted("DJNZ 7   ", Some(WrapAdd(addr, 7)))
  {
    assert TemplateZ80(b, fetched) == Some("DJNZ rrrr");
    var t := TemplateZ80(b, fetched).value;
    RelativeBranchShape(t);
    RelativeBranchText(t, "DJNZ 7   ", c, addr);
  }

}
