# Incremental instruction decoder of the Teensy Logic Analyzer

The Teensy Logic Analyzer captures a processor's bus cycles and shows each
opcode fetch as disassembled text. The decoder behind that display is fed
one captured byte at a time, with no look-ahead:

- `insn_decode_begin` starts an instruction at an address with its first byte.
- `insn_decode_continue` adds the next byte.
- After each byte, the per-CPU "next state" routine works out the
  instruction's length once it can, and formats the text once every byte is
  in.
- `insn_decode_complete` hands the text back. When the instruction is a
  branch, the text carries the resolved target address as a ` <XXXX>` suffix.

This project models the decoder for the 6502/65C02, 6800, 6809/6809E and
Z80, and proves properties of that model.

The project is laid out as follows:

- `fmt.dfy` (module `Fmt`): the C library pieces the formatters rely on.
  - `printf`'s `%0wX`, `%d` and `%-wd` conversions, each with a parser and a
    round-trip lemma.
  - `strstr`, as `Find`.
  - `memcpy` into the text, as `Overwrite`.
- `insn_decode_h.dfy` (module `Insn`): the shared vocabulary.
  - The flat `addrmode_t` numbering and the 6809 `indirect_p` macro.
  - The decode record `struct insn_decode` as the datatype `Decode`.
  - The buffer readers `read_u16le` and friends.
  - Two's-complement sign extension, and the 32-bit wrap of target addresses.
- `decode_6502.dfy`, `decode_6800.dfy`, `decode_6809.dfy`, `decode_z80.dfy`:
  one module per CPU file.
  - The opcode tables, the addressing-mode classifiers and the formatters.
  - The next-state step, as a function from record to record.
  - The 6809 register-list loop (`FormatPshPul`) is a method with a loop.
  - The Z80 routines that scan or rewrite a string in the source are methods
    with loops, each proved equal to the function that specifies it:
    - the template's HL rewrite (`HlToIndexCopy`);
    - the operand scan (`ScanOperand`);
    - the length count (`CountOperandBytes`);
    - the whitespace collapse (`CollapseSpaces`);
    - the operand substitution (`SpliceOperands`);
    - the whole step (`StepZ80`).
- `session.dfy` (module `Session`): the session routines of `insn_decode.c`,
  in two forms.
  - Pure functions `Begin`, `Continue`, `NextState` and `CompleteText` are the
    specification.
  - The class `InsnDecoder` keeps the record's fields and its 8-byte buffer
    (an `array`) and updates them in place. Each of its methods is proved to
    leave exactly the state the matching function computes.

Behaviours of the code that the model reproduces as written:

- **6809 branch targets.** Rel8/Rel16 and PC-relative targets are the
  instruction's own address plus the offset, as `insn_6809.c:582` computes
  them. Using the address after the instruction would put the target a few
  bytes later.
- **Prefixed 6809 operand offsets.** For page 2/3 opcodes, the 16-bit
  constant-offset and 8-bit PC-relative forms read their offset at index
  `i + i` (`insn_6809.c:495` and `insn_6809.c:535`), that is byte 4 instead
  of byte 3. The model keeps that (`PrefixedPcRel8ReadsPastEnd`).
- **Z80 DD CB with a register operand.** `DD CB d op` / `FD CB d op` with a
  register operand (`op & 7 != 6`) gets a template without `(HL)`. Its
  length is set to 3 after 4 bytes are in, so it never completes; the 8-byte
  cap ends it as `<decode overflow>` (`IndexedCbRegisterNeverCompletes`).
- **Suffix format.** The target suffix is ` <%04lX>`, with no trailing `h`.
  Some comments in `test_samples.h` show `<10A6h>` for Z80 jumps; the code
  prints `<10A6>`.
- **Opcode table texts.** The texts are copied as the tables spell them,
  including the Z80 `OUTIR` (`insn_z80.c:256`) and the plain 6502's `EOR nn`
  for opcode 0x45, which lacks a `$` (`insn_6502.c:93`).

## Model

| member | source | states |
|---|---|---|
| Fmt.HexRoundTrip | LogicAnalyzer/insn_6502.c:132 | the `%0wX` text is all hex digits and reads back as the number rendered |
| Fmt.HexWidth | LogicAnalyzer/insn_6502.c:140 | a value below 16^w renders in exactly w digits, so the copy into the placeholder fills it exactly |
| Fmt.Hex2Width | LogicAnalyzer/insn_6502.c:132-133 | a byte renders as exactly two hex digits |
| Fmt.Hex4Width | LogicAnalyzer/insn_6502.c:140-141 | a 16-bit word renders as exactly four hex digits |
| Fmt.HexAfterRoundTrip | LogicAnalyzer/insn_6800.c:143-155 | a `$`/`#$`-prefixed hex field reads back as its value |
| Fmt.DecRoundTrip | LogicAnalyzer/insn_6800.c:133 | the `%d` text is an optional minus sign and decimal digits, and reads back as the value |
| Fmt.DecFitsFour | LogicAnalyzer/insn_6502.c:148 | values from -999 to 9999 fit the four-character `%-4d` field |
| Fmt.DecFitsThree | LogicAnalyzer/insn_z80.c:375-376 | values 0..999 fit the three-character `%-3d` field |
| Fmt.LeftJustify | LogicAnalyzer/insn_6502.c:148 | `%-wd` keeps the digits as a prefix and pads to the width exactly |
| Fmt.LeftJustifyPads | LogicAnalyzer/insn_6502.c:148 | the padding after the digits is spaces |
| Fmt.TrimLeftJustify | LogicAnalyzer/insn_6502.c:148-149 | stripping the trailing spaces of a left-justified field gives back the digits |
| Fmt.FindFrom | LogicAnalyzer/insn_6502.c:131 | strstr finds the leftmost match at or after the start, and finds nothing exactly when there is no match |
| Fmt.ContainsIff | LogicAnalyzer/insn_6502.c:171-177 | the strstr test is true exactly when the pattern occurs somewhere |
| Fmt.OverwriteWindow | LogicAnalyzer/insn_6502.c:133 | after the memcpy, the window holds exactly the copied characters |
| Fmt.OverwriteChars | LogicAnalyzer/insn_6502.c:133 | the memcpy changes no character outside the window and keeps the length |
| Insn.Ordinal | LogicAnalyzer/insn_decode.h:28-122 | the enumeration's layout: invalid is -1, 6809 modes 0..28, 6502 29..32, 6800 33..39, Z80 40..44, each range exactly one family |
| Insn.OrdinalInjective | LogicAnalyzer/insn_decode.h:40-121 | no two addressing modes share a number |
| Insn.Mode6809AtOrdinal | LogicAnalyzer/insn_decode.h:40-77 | each 6809 mode is found again from its number |
| Insn.IndirectFollowsBase | LogicAnalyzer/insn_decode.h:50-72 | every indexed mode with an indirect form is not indirect itself and is immediately followed by its indirect form |
| Insn.IndirectAreSuccessors | LogicAnalyzer/insn_decode.h:124-128 | `am6809_indirect_p` holds exactly for extended-indirect and for the successors of the modes that have an indirect form |
| Insn.SignExtend8 | LogicAnalyzer/insn_6502.c:146 | the `(int8_t)` cast gives a value in -128..127 |
| Insn.SignExtend8Wraps | LogicAnalyzer/insn_6502.c:146 | the cast value is congruent to the byte mod 256, so it is the byte read as two's complement |
| Insn.SignExtend16 | LogicAnalyzer/insn_decode.h:162-166 | the `(int16_t)` cast gives a value in -32768..32767 congruent mod 65536, negative exactly from 0x8000 |
| Insn.ReadU16Le | LogicAnalyzer/insn_decode.h:156-160 | low byte first: `buf[i] + 256 * buf[i+1]` |
| Insn.ReadU16Be | LogicAnalyzer/insn_decode.h:168-172 | high byte first: `256 * buf[i] + buf[i+1]` |
| Insn.ReadS16Le | LogicAnalyzer/insn_decode.h:162-166 | the signed little-endian word, congruent to the unsigned reading mod 65536 |
| Insn.ReadS16Be | LogicAnalyzer/insn_decode.h:174-178 | the signed big-endian word, negative exactly when the high byte has bit 7 set |
| Insn.WrapAdd | LogicAnalyzer/insn_6502.c:150 | the unsigned 32-bit sum of an address and an offset wraps mod 2^32, and is the plain sum when that is in range |
| Insn.Finish | LogicAnalyzer/insn_6502.c:188-191 | completing a record sets the state to complete and stores the text and the target; without a target the resolved address is left as it was; the bytes, counts, mode and address are untouched |
| Decode6502.Classify | LogicAnalyzer/insn_6502.c:171-183 | the length is one plus the mode's operand bytes; `nnnn` wins over `nn`; the mode's placeholder is in the template, and an implied template has none |
| Decode6502.FormatTemplate | LogicAnalyzer/insn_6502.c:126-156 | the text keeps the template's length; a target is produced only for rel8; other modes leave the template verbatim |
| Decode6502.Format6502 | LogicAnalyzer/insn_6502.c:120-157 | the text keeps the length of the template the CPU's table gives the opcode (the 65C02 table only on the 65C02), and only a rel8 instruction gets a target |
| Decode6502.FormatU8Operand | LogicAnalyzer/insn_6502.c:129-135 | the first `nn` is replaced by two hex digits whose value is the operand byte, and nothing else changes |
| Decode6502.FormatU16Operand | LogicAnalyzer/insn_6502.c:137-143 | the first `nnnn` is replaced by four hex digits whose value is the little-endian operand word, and nothing else changes |
| Decode6502.FormatRel8Operand | LogicAnalyzer/insn_6502.c:145-152 | the first `rrrr` shows the signed offset in decimal; the target is address + 2 + offset, wrapped |
| Decode6502.Rel8Field | LogicAnalyzer/insn_6502.c:148-149 | the left-justified decimal field reads back as the offset, and the rest of the text is the template |
| Decode6502.FormatImplied | LogicAnalyzer/insn_6502.c:154-155 | an implied instruction shows its template unchanged, with no target and no placeholder |
| Decode6502.Next6502Step | LogicAnalyzer/insn_6502.c:160-192 | the first pass sets mode and length from the template; it completes exactly when the fetched count equals the length, and otherwise changes nothing else |
| Decode6502.Next6502 | LogicAnalyzer/insn_6502.c:160-192 | a pass keeps the record well formed: an 8-byte buffer, a fetched count within it, at least one byte while fetching (what the pass does is stated by Next6502Step) |
| Decode6502.U16Digits | LogicAnalyzer/insn_6502.c:138-141 | four hex digits whose value is the operand word, for every 16-bit word |
| Decode6502.U16DigitsAsWritten | LogicAnalyzer/insn_6502.c:124-141 | the source's rendering through `int16_t`; it agrees with the intended digits below 0x8000 |
| Decode6502.U16SignWitness | LogicAnalyzer/insn_6502.c:138-141 | at 0x8000 the source shows `FFFF` where `8000` is intended |
| Decode6800.Addrmode6800 | LogicAnalyzer/insn_6800.c:66-120 | invalid exactly when nothing has been fetched, otherwise a 6800 mode |
| Decode6800.AddrmodeMatchesColumns | LogicAnalyzer/insn_6800.c:78-119 | the range classifier agrees on every opcode with the data sheet's column reading (BSR, LDS and LDX as exceptions) |
| Decode6800.Length6800 | LogicAnalyzer/insn_6800.c:176-196 | every mode implies a length of one to three bytes |
| Decode6800.Operand6800 | LogicAnalyzer/insn_6800.c:133-157 | an operand is shown for every mode except inherent (OperandRoundTrip reads it back as the operand value) |
| Decode6800.Format6800 | LogicAnalyzer/insn_6800.c:123-162 | a record without a 6800 mode shows `<?ADDRMODE?>`; a target is produced exactly for relative mode |
| Decode6800.OperandRoundTrip | LogicAnalyzer/insn_6800.c:132-156 | every mode's operand text reads back as the operand value (signed offset, byte, or big-endian word) |
| Decode6800.Format6800Shape | LogicAnalyzer/insn_6800.c:122-162 | the text is the mnemonic, then a space and an operand that reads back as the operand value; a target exists exactly for relative mode, at address + 2 + offset |
| Decode6800.Next6800Step | LogicAnalyzer/insn_6800.c:165-205 | the first pass sets mode and length from the opcode's column; it completes exactly when the fetched count equals the length |
| Decode6800.Next6800 | LogicAnalyzer/insn_6800.c:165-205 | a pass keeps the record well formed (what the pass does is stated by Next6800Step) |
| Decode6809.Postbytes6809 | LogicAnalyzer/insn_6809.c:32-63 | no mode takes more than three operand bytes |
| Decode6809.IndirectSameLength | LogicAnalyzer/insn_6809.c:32-63 | an indirect form takes as many operand bytes as its base form |
| Decode6809.AddrmodeIndexed6809 | LogicAnalyzer/insn_6809.c:106-179 | a postbyte decodes to invalid or to a 6809 mode with at least one operand byte |
| Decode6809.IndexedModeOrdinal | LogicAnalyzer/insn_decode.h:53-72 | the indexed modes are exactly those numbered 7..26 |
| Decode6809.IndexedIgnoresRegister | LogicAnalyzer/insn_6809.c:113-176 | the register bits (5-6) of the postbyte never affect the mode |
| Decode6809.PatternClassifies | LogicAnalyzer/insn_6809.c:113-176 | each indexed mode's postbyte pattern decodes back to that mode |
| Decode6809.IndexedRoundTrip | LogicAnalyzer/insn_6809.c:106-179 | encoding a mode, register and offset into a postbyte decodes back to the mode, and bits 5-6 give the register |
| Decode6809.IndirectBit | LogicAnalyzer/insn_6809.c:169-176 | bit 4 turns a base mode into its successor (its indirect form), and is rejected for `,R+` and `,-R` |
| Decode6809.Addrmode6809 | LogicAnalyzer/insn_6809.c:181-323 | the classifier yields invalid or a 6809 mode |
| Decode6809.AddrmodeNoLookahead | LogicAnalyzer/insn_6809.c:181-323 | the mode depends only on the bytes fetched so far |
| Decode6809.AddrmodeSettles | LogicAnalyzer/insn_6809.c:196-301 | from three bytes on, more bytes do not change the mode |
| Decode6809.Required6809 | LogicAnalyzer/insn_6809.c:613-616 | the length is one plus the operand bytes, plus one for a page 2/3 prefix: between 1 and 5 |
| Decode6809.RequiredCoversFetched | LogicAnalyzer/insn_6809.c:598-622 | when the mode is first known, the length is at least the bytes already fetched, so the completion test can still be met |
| Decode6809.ExgTfrRoundTrip | LogicAnalyzer/insn_6809.c:325-341 | the register names are defined for codes 0-5 and 8-11 only, and name and code are inverse |
| Decode6809.PshPulReg | LogicAnalyzer/insn_6809.c:426-436 | each of the eight list bits names a register that maps back to that bit |
| Decode6809.PshPulMember | LogicAnalyzer/insn_6809.c:553-568 | a register is listed exactly when its bit is set in the postbyte |
| Decode6809.LowerBitsListed | LogicAnalyzer/insn_6809.c:565 | a comma goes before a register exactly when a lower bit is set |
| Decode6809.PshPulStep | LogicAnalyzer/insn_6809.c:555-567 | one loop turn appends the register, with its separator, exactly when its bit is set |
| Decode6809.FormatPshPul | LogicAnalyzer/insn_6809.c:553-569 | the loop produces the mnemonic, a space, and the comma-separated list of the registers whose bits are set, in bit order |
| Decode6809.ConstOff5Value | LogicAnalyzer/insn_6809.c:483-486 | the 5-bit offset is sign-extended: a value in -16..15 congruent to the low five bits mod 32 |
| Decode6809.ConstOff5AsWritten | LogicAnalyzer/insn_6809.c:483-486 | the source's shift pair gives 0..31 and agrees with the sign-extended value for 0..15 |
| Decode6809.ConstOff5Witness | LogicAnalyzer/insn_6809.c:484-485 | postbyte 0x1F shows offset 31 where -1 is intended |
| Decode6809.Offset6809 | LogicAnalyzer/insn_6809.c:457-545 | the offset shown fits its field: -16..15 for the 5-bit form, -128..127 for the 8-bit forms, -32768..32767 for the 16-bit ones |
| Decode6809.IndexedBody | LogicAnalyzer/insn_6809.c:477-545 | an indexed operand is never empty and never ends in `]` before the indirect brackets are added |
| Decode6809.Operand6809 | LogicAnalyzer/insn_6809.c:439-573 | an indexed operand is never empty, and it ends in `]` exactly when the mode is indirect |
| Decode6809.OperandRoundTrip6809 | LogicAnalyzer/insn_6809.c:443-545 | every operand that shows a number reads back as it: the hex byte or word of the direct, extended, extended-indirect and immediate forms, the signed offset of the branch, constant-offset and PC-relative forms, brackets included; register-only operands read back as nothing |
| Decode6809.Format6809 | LogicAnalyzer/insn_6809.c:344-589 | a record without a 6809 mode shows `<?ADDRMODE?>`; whenever a target is set, the operand shows a number and the target is the instruction address plus that number |
| Decode6809.Format6809Shape | LogicAnalyzer/insn_6809.c:439-573 | the text is the mnemonic, a space and an operand that reads back as the number it shows; an inherent opcode shows the bare mnemonic |
| Decode6809.RelTextMatchesTarget | LogicAnalyzer/insn_6809.c:457-466 | a branch shows a signed decimal offset, and the target is the instruction address plus the offset shown |
| Decode6809.PcRelTextMatchesTarget | LogicAnalyzer/insn_6809.c:533-545 | a PC-relative operand shows the offset and `,PCR`, bracketed when indirect, and the target is the address plus the offset shown |
| Decode6809.TargetOnlyForBranches | LogicAnalyzer/insn_6809.c:575-588 | a target is produced exactly for the relative and PC-relative modes |
| Decode6809.IndirectBracketed | LogicAnalyzer/insn_6809.c:415-420 | an indexed instruction's text ends in `]` exactly when the mode is indirect |
| Decode6809.PrefixedPcRel8ReadsPastEnd | LogicAnalyzer/insn_6809.c:495-540 | after a prefix, the 4-byte PC-relative form and the constant-offset form read their offset at byte 4 |
| Decode6809.Next6809Step | LogicAnalyzer/insn_6809.c:592-626 | a lone prefix byte waits; otherwise the mode is classified, an invalid mode changes nothing else, and a known mode sets the length and completes exactly when all bytes are in |
| Decode6809.Next6809 | LogicAnalyzer/insn_6809.c:592-626 | a pass keeps the record well formed (what the pass does is stated by Next6809Step) |
| DecodeZ80.HlToIndexCopy | LogicAnalyzer/insn_z80.c:121-170 | the character loop computes the HL-to-index rewrite |
| DecodeZ80.HlToIndex | LogicAnalyzer/insn_z80.c:122-170 | a rewrite is reported exactly when the template contains HL, and a template without HL is kept as it is |
| DecodeZ80.HlToIndexRoundTrip | LogicAnalyzer/insn_z80.c:121-170 | a rewrite happens exactly when the template has HL; it puts IX/IY there, adds `+ddd` after `(` except for JP (HL), and putting HL back gives the template |
| DecodeZ80.IndexedMemory | LogicAnalyzer/insn_z80.c:139-161 | `(HL` becomes `(IX+ddd` or `(IY+ddd` |
| DecodeZ80.EdTemplate | LogicAnalyzer/insn_z80.c:216-219 | the ED 16-bit loads `LD rr,(nn)` and `LD (nn),rr` carry the `XXXXh` address placeholder |
| DecodeZ80.OperandAt | LogicAnalyzer/insn_z80.c:66-75 | a placeholder found at a position lies within the string and is a real operand |
| DecodeZ80.OperandAtExact | LogicAnalyzer/insn_z80.c:101-112 | the placeholder of a mode is found at a position exactly when it occurs there |
| DecodeZ80.NextOperand | LogicAnalyzer/insn_z80.c:94-116 | the scan returns a position at or after the cursor where a placeholder occurs |
| DecodeZ80.NextOperandLeftmost | LogicAnalyzer/insn_z80.c:101-115 | the scan returns the leftmost placeholder, and returns nothing exactly when none is left |
| DecodeZ80.ScanOperand | LogicAnalyzer/insn_z80.c:94-116 | the nested scanning loop computes the scan |
| DecodeZ80.TokenizeRoundTrip | LogicAnalyzer/insn_z80.c:94-116 | cutting a template into text and placeholders and joining the pieces gives back the template |
| DecodeZ80.OperandBytesStep | LogicAnalyzer/insn_z80.c:433-435 | each placeholder found adds its operand size to the count |
| DecodeZ80.CountOperandBytes | LogicAnalyzer/insn_z80.c:431-435 | the counting loop sums the operand sizes of all placeholders |
| DecodeZ80.IndexedTemplate | LogicAnalyzer/insn_z80.c:182-206 | a DD/FD opcode whose base template has `(HL` gets `(IX+ddd`/`(IY+ddd` |
| DecodeZ80.TemplateZ80 | LogicAnalyzer/insn_z80.c:173-303 | a template is available exactly when enough bytes are in (1, 2 or 4 by prefix) |
| DecodeZ80.TemplateNoLookahead | LogicAnalyzer/insn_z80.c:172-303 | the template depends only on the bytes fetched so far |
| DecodeZ80.OperandsWithinLength | LogicAnalyzer/insn_z80.c:418-435 | the operands end within the length; for DD/FD CB the length exceeds them by exactly the trailing opcode byte |
| DecodeZ80.ComputeRequired | LogicAnalyzer/insn_z80.c:418-435 | the length computation adds prefix bytes and operand sizes as specified |
| DecodeZ80.TemplateZ80Copy | LogicAnalyzer/insn_z80.c:172-303 | the template routine, branch by branch, computes the specified template |
| DecodeZ80.PcRelValue | LogicAnalyzer/insn_z80.c:355 | the intended shown offset: sign-extended byte plus 2, in -126..129 |
| DecodeZ80.PcRelAsWritten | LogicAnalyzer/insn_z80.c:355 | the source's sum stored back into an `int8_t` stays in -128..127 |
| DecodeZ80.PcRelWitness | LogicAnalyzer/insn_z80.c:355 | the two agree on every byte except 0x7E and 0x7F; 0x7E shows -128 where 128 is intended |
| DecodeZ80.PcRelText | LogicAnalyzer/insn_z80.c:356-357 | the relative field is four characters wide |
| DecodeZ80.DispDigits | LogicAnalyzer/insn_z80.c:370-377 | a negative displacement fills four characters and a positive one three |
| DecodeZ80.SpaceFromSpec | LogicAnalyzer/insn_z80.c:378-380 | the first loop stops at the first space at or after the field, or at the end |
| DecodeZ80.SpaceRunEndSpec | LogicAnalyzer/insn_z80.c:383-385 | the second loop stops at the first non-space after the run |
| DecodeZ80.CollapseAtSpace | LogicAnalyzer/insn_z80.c:378-389 | the collapse removes exactly the first run of spaces after the field |
| DecodeZ80.CollapseSpaces | LogicAnalyzer/insn_z80.c:378-389 | the in-place copy loop computes the collapse |
| DecodeZ80.SpliceOne | LogicAnalyzer/insn_z80.c:338-394 | one switch arm substitutes the operand at the placeholder as specified |
| DecodeZ80.SpliceNext | LogicAnalyzer/insn_z80.c:337-396 | one loop turn either stops with the final text or makes progress toward the same result |
| DecodeZ80.SpliceOperands | LogicAnalyzer/insn_z80.c:337-396 | the substitution loop computes the specified formatting |
| DecodeZ80.NextZ80 | LogicAnalyzer/insn_z80.c:400-444 | a step keeps the record well formed |
| DecodeZ80.NextZ80Step | LogicAnalyzer/insn_z80.c:400-444 | without a template nothing changes; with one, the length is prefix bytes plus operand sizes, and the record completes exactly when that many bytes are in |
| DecodeZ80.NextZ80Completes | LogicAnalyzer/insn_z80.c:438-443 | when the last byte arrives, the text and target are those of the operand substitution |
| DecodeZ80.NextZ80Waits | LogicAnalyzer/insn_z80.c:406-436 | when the template is known but bytes are missing, only the template and the length are recorded |
| DecodeZ80.StepZ80 | LogicAnalyzer/insn_z80.c:400-444 | the imperative step (template, length, substitution) computes the specified step |
| DecodeZ80.FormatZ80 | LogicAnalyzer/insn_z80.c:306-397 | a template without placeholders is shown unchanged, with no target |
| DecodeZ80.SpliceRendered | LogicAnalyzer/insn_z80.c:337-396 | from any cursor, the substitution loop yields the text already done followed by the rendering of the template's remaining tokens, and the target of their last PC-relative placeholder |
| DecodeZ80.FormatRendered | LogicAnalyzer/insn_z80.c:306-397 | formatting is the token rendering: literal characters kept, each placeholder replaced by its field (the displacement with its sign and without padding), operand bytes taken in order after the prefix, the target that of the last `rrrr` |
| DecodeZ80.PlainHasNoOperand | LogicAnalyzer/insn_z80.c:101-115 | the scan finds nothing in text without placeholder characters |
| DecodeZ80.CbOpPlain | LogicAnalyzer/insn_z80.c:270-275 | the CB mnemonic prefixes hold no placeholder and no `H` |
| DecodeZ80.LdRegPlain | LogicAnalyzer/insn_z80.c:175 | the register names other than `(HL)` are single plain letters |
| DecodeZ80.IndexedCbRegisterTemplate | LogicAnalyzer/insn_z80.c:282-293 | DD/FD CB with a register operand gets a template without placeholders |
| DecodeZ80.IndexedCbRegisterNeverCompletes | LogicAnalyzer/insn_z80.c:420-443 | such an instruction gets length 3 with 4 bytes in, and no later pass completes it |
| DecodeZ80.FoundAfterPlain | LogicAnalyzer/insn_z80.c:101-112 | after plain text, the scan finds the next placeholder where it starts |
| DecodeZ80.SpliceEnd | LogicAnalyzer/insn_z80.c:337 | once only plain text is left, formatting returns the text as it is |
| DecodeZ80.FieldText | LogicAnalyzer/insn_z80.c:339-360 | the `XXh`, `XXXXh` and `rrrr` fields keep the placeholder's width |
| DecodeZ80.SplicedFixed | LogicAnalyzer/insn_z80.c:339-360 | a fixed-width substitution replaces exactly the placeholder by its field |
| DecodeZ80.SpliceFixedLast | LogicAnalyzer/insn_z80.c:337-396 | a fixed-width operand that ends the template is replaced by its field, the loop then finds nothing more, and a PC-relative operand sets the target |
| DecodeZ80.DispShown | LogicAnalyzer/insn_z80.c:370-389 | the shown displacement (sign and digits) is two to four characters |
| DecodeZ80.DispField | LogicAnalyzer/insn_z80.c:370-377 | the written field is the shown displacement followed by spaces |
| DecodeZ80.CollapsePadding | LogicAnalyzer/insn_z80.c:378-389 | collapsing removes exactly the padding after the displacement |
| DecodeZ80.SplicedDisp | LogicAnalyzer/insn_z80.c:362-390 | `+ddd` becomes the signed displacement with no padding |
| DecodeZ80.SpliceDispFrom | LogicAnalyzer/insn_z80.c:362-396 | a displacement is shown with its sign and no padding; the scan resumes four characters after where the placeholder began, even though the text got shorter |
| DecodeZ80.HexSample | LogicAnalyzer/insn_z80.c:346 | bytes 0x55 and 0xA5 render as `55` and `A5` |
| DecodeZ80.DispSample | LogicAnalyzer/insn_z80.c:370-389 | displacements 5, 10 and -10 show as `+5`, `+10` and `-10` |
| DecodeZ80.PcRelSample | LogicAnalyzer/insn_z80.c:355-356 | relative byte 5 shows as `7   ` |
| DecodeZ80.LdImmediateFacts | LogicAnalyzer/test_samples.h:474-476 | `0E 55` has one operand byte and formats as `LD C,55h` |
| DecodeZ80.IndexedLoadFacts | LogicAnalyzer/test_samples.h:481-484 | `DD 5E 05` has one operand byte and formats as `LD E,(IX+5)` |
| DecodeZ80.NegativeDisplacementFacts | LogicAnalyzer/test_samples.h:486-489 | `FD 66 F6` has one operand byte and formats as `LD H,(IY-10)` |
| DecodeZ80.TwoOperandsFacts | LogicAnalyzer/test_samples.h:508-512 | `DD 36 0A A5` has two operand bytes and formats as `LD (IX+10),A5h` |
| DecodeZ80.RelativeBranchFacts | LogicAnalyzer/insn_z80.c:350-360 | `10 05` has one operand byte, formats as `DJNZ 7   ` and targets the address plus 7 |
| Session.Dispatch | LogicAnalyzer/insn_decode.c:28-54 | each CPU's next-state routine keeps the record well formed |
| Session.DispatchKeeps | LogicAnalyzer/insn_6502.c:163-165 | a next-state routine ignores a record that is not fetching; it never changes the bytes, the count or the address, and only moves to complete |
| Session.AfterPass | LogicAnalyzer/insn_decode.c:59-71 | the pass reports progress exactly when the record was fetching, and may only append the suffix to the text |
| Session.AfterPassSuffix | LogicAnalyzer/insn_decode.c:63-67 | the suffix is appended exactly when a fetching record became complete with a valid target |
| Session.NextState | LogicAnalyzer/insn_decode.c:56-72 | progress is reported exactly when a routine exists and the record was fetching |
| Session.AddressSuffixDigits | LogicAnalyzer/insn_decode.c:66 | the suffix is ` <`, at least four hex digits reading back as the address, and `>` |
| Session.BeginIgnored | LogicAnalyzer/insn_decode.c:77-78 | begin does nothing without a routine or while fetching |
| Session.Begin | LogicAnalyzer/insn_decode.c:75-89 | begin either leaves the record as it was or starts it at the address with the byte as the only one fetched, no longer idle |
| Session.BeginStarts | LogicAnalyzer/insn_decode.c:77-88 | begin stores the address and the first byte, counts one byte, keeps the rest of the buffer, and runs one pass |
| Session.ContinueIgnored | LogicAnalyzer/insn_decode.c:96 | continue does nothing and reports false unless fetching |
| Session.ContinueOverflow | LogicAnalyzer/insn_decode.c:97-99 | a ninth byte completes the instruction as `<decode overflow>`, stores nothing and reports false |
| Session.NextStateKeeps | LogicAnalyzer/insn_decode.c:56-72 | a pass over a fetching record keeps its bytes and their count, and leaves it fetching or complete |
| Session.ContinueStores | LogicAnalyzer/insn_decode.c:100-103 | continue appends the byte after the ones kept, counts it, and reports true exactly when a routine exists |
| Session.Continue | LogicAnalyzer/insn_decode.c:92-106 | progress is reported only when the record was fetching, the buffer had room, and the byte was stored after those kept and counted |
| Session.CompleteIsStable | LogicAnalyzer/insn_decode.c:96-105 | a complete record and its text are unchanged by further bytes |
| Session.ContinueProgress | LogicAnalyzer/insn_decode.c:96-103 | each byte either completes the instruction or adds exactly one fetched byte |
| Session.FeedTerminates | LogicAnalyzer/insn_decode.c:97-99 | a fetching record fed more bytes than its buffer has room for always ends complete, whatever the bytes are |
| Session.FeedComplete | LogicAnalyzer/insn_decode.c:96 | bytes fed after completion change nothing |
| Session.FeedIdle | LogicAnalyzer/insn_decode.c:96 | bytes fed before begin change nothing |
| Session.Z80PassNoTemplate | LogicAnalyzer/insn_z80.c:406-411 | a Z80 pass without a template reports progress and changes nothing |
| Session.Z80PassWaits | LogicAnalyzer/insn_z80.c:406-436 | a Z80 pass that learns the template but lacks bytes records template and length only |
| Session.Z80PassCompletes | LogicAnalyzer/insn_decode.c:61-68 | the last Z80 byte gives the formatted text, with the target suffix exactly when there is a target |
| Session.SessionLdImmediate | LogicAnalyzer/test_samples.h:474-476 | begin with 0E waits for two bytes; adding 55 reports progress and completes as `LD C,55h` |
| Session.SessionRelativeBranch | LogicAnalyzer/insn_z80.c:350-360 | begin with 10 waits for two bytes; adding 05 completes as `DJNZ 7   ` plus the suffix of address + 7 |
| Session.InsnDecoder.constructor | LogicAnalyzer/insn_decode.c:28-54 | a new decoder is idle with nothing fetched, for the CPU it was set up with |
| Session.InsnDecoder.NextPass | LogicAnalyzer/insn_decode.c:56-72 | the in-place pass leaves exactly the state, and returns exactly the flag, of the specified pass |
| Session.InsnDecoder.Start | LogicAnalyzer/insn_decode.c:74-89 | the in-place begin leaves exactly the specified state |
| Session.InsnDecoder.Add | LogicAnalyzer/insn_decode.c:91-106 | the in-place continue leaves exactly the specified state and returns its flag |
| Session.InsnDecoder.Result | LogicAnalyzer/insn_decode.c:108-115 | returns the text when complete and the empty string otherwise |

## Left out

- Display and capture: the code that calls the decoder (the bus-cycle
  listing, the Teensy hardware and the serial console) is not part of this
  model.
- The CPU choice: the global `cpu` that selects the routine is a parameter.
  The routine pointer becomes a match on that parameter.
- `InsnDecoder`'s fields start at zero. The source leaves them uninitialised
  until the first `insn_decode_begin`.
- The 28-character `insn_string` bound is not modelled. The model's text
  has no length limit, so an overrun of the C buffer would not show.
  - The `op` scratch buffers (5 and 8 bytes) are not modelled either. The
    6502 word overflow is modelled through its visible effect; see Findings.
- C strings as `seq<char>`: no NUL terminator, and `strstr` and `memcpy` act
  on the sequence. The Z80 collapse loop copies up to the terminator, which
  becomes "to the end of the sequence".
- `DecodeZ80.OperandByte`: a byte read past the 8-byte buffer reads as 0.
  The source would read past the array; no well-formed instruction does.
- Only two end-to-end Z80 sessions (LD C,55h and DJNZ) run through
  `Begin`/`Continue`. The DD/FD samples are shown from template to text
  (`*Facts`), and `NextZ80Completes` joins them to a finishing pass.
- Opcode tables are copied entry by entry. No lemma restates them.
- Decode6809.Offset6809: shows the sign-extended 5-bit offset
  (`ConstOff5Value`), not the value the source's shift pair gives
  (`ConstOff5AsWritten`). The two differ for postbytes whose low five bits are
  0x10..0x1F: `A6 1F` formats as `LDA -1,X` here and as `LDA 31,X` in the
  source (`insn_6809.c:483-485`). See Findings.
- Decode6502.FormatTemplate: shows the four digits of the unsigned operand
  word (`U16Digits`), not the source's output (`U16DigitsAsWritten`). They
  differ for words from 0x8000 up: `AD 00 80` formats as `LDA $8000` here and
  as `LDA $FFFF` in the source (`insn_6502.c:138-141`). See Findings.
- DecodeZ80.FieldDigits: shows the intended relative offset (`PcRelValue`),
  not the source's `int8_t` sum (`PcRelAsWritten`). They differ for the bytes
  0x7E and 0x7F only: `18 7E` shows `128` here and `-128` in the source
  (`insn_z80.c:355`). See Findings.
- DecodeZ80.PcRelTarget: uses the same intended offset, so for `18 7E` the
  target is the address plus 128 here and the address minus 128 in the source.
- DecodeZ80.FormatRendered: its hypothesis `DispsClosed` (after each `+ddd`,
  no space anywhere in the rest of the template, and the next two tokens, where
  there are any, literal characters) is not proved for each table template.
  The sample lemmas (`*Facts`) compute their templates' texts directly.

## Findings

| source | as written | input that shows it | evidently intended | confidence | as-written member | corrected member |
|---|---|---|---|---|---|---|
| LogicAnalyzer/insn_6502.c:124-141 | the word is kept in an `int16_t`, so `%04X` sees a negative int from 0x8000 up, writes eight digits into the 5-byte `op`, and the copy shows `FFFF` | `AD 00 80` (LDA $8000) | the four digits of the unsigned word, `8000` | high; not executed | Decode6502.U16DigitsAsWritten, Decode6502.U16SignWitness | Decode6502.U16Digits |
| LogicAnalyzer/insn_6809.c:484-485 | `(s16 << 11) >> 11` is done in `int` after promotion, so the 5-bit offset is never sign-extended | postbyte 0x1F (e.g. `A6 1F`, LDA -1,X) | offset -1 | high; not executed | Decode6809.ConstOff5AsWritten, Decode6809.ConstOff5Witness | Decode6809.ConstOff5Value |
| LogicAnalyzer/insn_z80.c:355 | `(int8_t)b + 2` is stored back into an `int8_t`, wrapping for 0x7E and 0x7F | `18 7E` (JR +128) | shown offset 128, target address + 128 | high; not executed | DecodeZ80.PcRelAsWritten, DecodeZ80.PcRelWitness | DecodeZ80.PcRelValue |
