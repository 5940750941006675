/** The decode session (LogicAnalyzer/insn_decode.c): a record fed one byte at a
    time. begin starts an instruction, continue adds a byte, and after each byte
    the CPU's next-state routine decides whether the length is known and whether
    the instruction is complete. The CPU is fixed when the session is set up; the
    source's function pointer becomes a match on it.

    The pure functions below are the specification; the class InsnDecoder is the
    record updated in place, each of its methods proved to do what the matching
    function says. */
module Session {
  import opened Fmt
  import opened Insn
  import Decode6502
  import Decode6800
  import Decode6809
  import DecodeZ80

  // ---------------------------------------------------------------------------
  // Dispatch
  // ---------------------------------------------------------------------------

  /** insn_decode_init leaves next_state NULL for an unknown CPU. */
  predicate HasDispatcher(cpu: Cpu)
  {
    cpu != CpuNone
  }

  /** The CPU's next-state routine; the 6502 routine itself picks the 65C02
      table, the 6809E shares the 6809's. */
  function Dispatch(cpu: Cpu, d: Decode): (r: Decode)
    requires WellFormed(d) && HasDispatcher(cpu)
    ensures WellFormed(r)
  {
    match cpu
    case Cpu6502 => Decode6502.Next6502(cpu, d)
    case Cpu65C02 => Decode6502.Next6502(cpu, d)
    case Cpu6800 => Decode6800.Next6800(d)
    case Cpu6809 => Decode6809.Next6809(d)
    case Cpu6809E => Decode6809.Next6809(d)
    case CpuZ80 => DecodeZ80.NextZ80(d)
  }

  /** Every routine leaves a record that is not fetching alone, and otherwise
      touches neither the bytes, their count nor the instruction address, and
      either completes or stays fetching. */
  lemma DispatchKeeps(cpu: Cpu, d: Decode)
    requires WellFormed(d) && HasDispatcher(cpu)
    ensures d.state != Fetching ==> Dispatch(cpu, d) == d
    ensures var r := Dispatch(cpu, d);
      r.bytes == d.bytes && r.bytesFetched == d.bytesFetched && r.insnAddress == d.insnAddress &&
      (r.state == d.state || r.state == Complete)
  {
  }

  /** " <%04lX>": the resolved address appended to a completed instruction. */
  function AddressSuffix(a: U32): string
  {
    " <" + Hex(a, 4) + ">"
  }

  /** What insn_decode_next_state does with the routine's result n on the
      record d it was given: a fetching record reports progress, and one that
      has just completed with a resolved target gets the target appended. */
  function AfterPass(d: Decode, n: Decode): (r: (Decode, bool))
    requires WellFormed(n)
    ensures WellFormed(r.0)
    ensures r.1 <==> d.state == Fetching
    ensures r.0.insnString == n.insnString || r.0.insnString == n.insnString + AddressSuffix(n.resolvedAddress)
    ensures r.0.(insnString := n.insnString) == n
  {
    if d.state == Fetching then
      (if n.state == Complete && n.resolvedValid then n.(insnString := n.insnString + AddressSuffix(n.resolvedAddress)) else n, true)
    else (n, false)
  }

  /** insn_decode_next_state: run the CPU's routine, if there is one. */
  function NextState(cpu: Cpu, d: Decode): (r: (Decode, bool))
    requires WellFormed(d)
    ensures WellFormed(r.0)
    ensures r.1 <==> HasDispatcher(cpu) && d.state == Fetching
  {
    if !HasDispatcher(cpu) then (d, false) else AfterPass(d, Dispatch(cpu, d))
  }

  /** The target is appended exactly on the pass that completes a fetching
      record with a resolved address. */
  lemma AfterPassSuffix(d: Decode, n: Decode)
    requires WellFormed(n)
    ensures AfterPass(d, n).0.insnString ==
      if d.state == Fetching && n.state == Complete && n.resolvedValid
      then n.insnString + AddressSuffix(n.resolvedAddress) else n.insnString
  {
  }

  /** The fields begin resets before the first pass. */
  function Started(d: Decode, addr: U32, b: bv8): (r: Decode)
    requires WellFormed(d)
    ensures WellFormed(r)
  {
    d.(state := Fetching, insnAddress := addr, resolvedAddress := 0, resolvedValid := false,
       addrmode := Invalid, bytesRequired := 0, bytesFetched := 1, bytes := d.bytes[0 := b])
  }

  /** insn_decode_begin: only with a dispatcher and when idle or complete, start
      a new instruction with its first byte and run one pass. */
  function Begin(cpu: Cpu, d: Decode, addr: U32, b: bv8): (r: Decode)
    requires WellFormed(d)
    ensures WellFormed(r)
    ensures r == d || (r.insnAddress == addr && r.bytesFetched == 1 && r.bytes[0] == b && r.state != Idle)
  {
    if HasDispatcher(cpu) && (d.state == Idle || d.state == Complete) then
      DispatchKeeps(cpu, Started(d, addr, b));
      NextState(cpu, Started(d, addr, b)).0
    else d
  }

  const OverflowText: string := "<decode overflow>"

  /** insn_decode_continue: on a fetching record, either give up with the
      overflow text when the buffer is full, or store the byte and run a pass. */
  function Continue(cpu: Cpu, d: Decode, b: bv8): (r: (Decode, bool))
    requires WellFormed(d)
    ensures WellFormed(r.0)
    ensures r.1 ==>
      d.state == Fetching && d.bytesFetched < MaxBytes &&
      r.0.bytesFetched == d.bytesFetched + 1 && r.0.bytes[d.bytesFetched] == b
  {
    if d.state != Fetching then (d, false)
    else if d.bytesFetched == MaxBytes then (d.(insnString := OverflowText, state := Complete), false)
    else
      var s := d.(bytes := d.bytes[d.bytesFetched := b], bytesFetched := d.bytesFetched + 1);
      NextStateKeeps(cpu, s);
      NextState(cpu, s)
  }

  /** insn_decode_complete: the text of a complete instruction, or nothing. */
  function CompleteText(d: Decode): (s: string)
    ensures d.state == Complete ==> s == d.insnString
    ensures d.state != Complete ==> s == ""
  {
    if d.state == Complete then d.insnString else ""
  }

  // ---------------------------------------------------------------------------
  // Properties of the session
  // ---------------------------------------------------------------------------

  /** The suffix shows at least four upper-case hex digits of the address and
      reads back to it. */
  lemma AddressSuffixDigits(a: U32)
    ensures var s := AddressSuffix(a);
      |s| >= 7 && s[..2] == " <" && s[|s| - 1] == '>' &&
      AllHex(s[2..|s| - 1]) && HexValue(s[2..|s| - 1]) == a
  {
    var h := Hex(a, 4);
    HexRoundTrip(a, 4);
    assert AddressSuffix(a) == " <" + h + ">";
    assert AddressSuffix(a)[2..|AddressSuffix(a)| - 1] == h;
  }

  /** begin does nothing without a dispatcher or while an instruction is being
      fetched. */
  lemma BeginIgnored(cpu: Cpu, d: Decode, addr: U32, b: bv8)
    requires WellFormed(d)
    requires !HasDispatcher(cpu) || d.state == Fetching
    ensures Begin(cpu, d, addr, b) == d
  {
  }

  /** Otherwise it starts over at addr with b as the only byte, the rest of the
      buffer untouched, and has already run the first pass: the record is
      fetching or, for a one-byte instruction, complete. */
  lemma BeginStarts(cpu: Cpu, d: Decode, addr: U32, b: bv8)
    requires WellFormed(d) && HasDispatcher(cpu) && d.state != Fetching
    ensures var r := Begin(cpu, d, addr, b);
      r.insnAddress == addr && r.bytesFetched == 1 &&
      r.bytes[0] == b && r.bytes[1..] == d.bytes[1..] &&
      (r.state == Fetching || r.state == Complete) &&
      r == NextState(cpu, Started(d, addr, b)).0
  {
    DispatchKeeps(cpu, Started(d, addr, b));
  }

  /** continue does nothing, and reports false, unless fetching. */
  lemma ContinueIgnored(cpu: Cpu, d: Decode, b: bv8)
    requires WellFormed(d) && d.state != Fetching
    ensures Continue(cpu, d, b) == (d, false)
  {
  }

  /** With the buffer full, continue drops the byte and completes with the
      overflow text. */
  lemma ContinueOverflow(cpu: Cpu, d: Decode, b: bv8)
    requires WellFormed(d) && d.state == Fetching && d.bytesFetched == MaxBytes
    ensures var r := Continue(cpu, d, b);
      !r.1 && r.0.state == Complete && CompleteText(r.0) == "<decode overflow>" &&
      r.0.bytes == d.bytes && r.0.bytesFetched == MaxBytes
  {
  }

  /** Otherwise the byte lands at the next index, the bytes before it are kept,
      and continue reports progress exactly when there is a dispatcher. */
  lemma ContinueStores(cpu: Cpu, d: Decode, b: bv8)
    requires WellFormed(d) && d.state == Fetching && d.bytesFetched < MaxBytes
    ensures var r := Continue(cpu, d, b);
      r.0.bytesFetched == d.bytesFetched + 1 && r.0.bytes[d.bytesFetched] == b &&
      r.0.bytes[..d.bytesFetched] == d.bytes[..d.bytesFetched] &&
      r.0.state != Idle &&
      (r.1 <==> HasDispatcher(cpu))
  {
    var s := d.(bytes := d.bytes[d.bytesFetched := b], bytesFetched := d.bytesFetched + 1);
    NextStateKeeps(cpu, s);
    StoreKeepsPrefix(d.bytes, d.bytesFetched, b);
  }

  /** A pass over a fetching record keeps its bytes and their count, and leaves
      it fetching or complete. */
  lemma NextStateKeeps(cpu: Cpu, s: Decode)
    requires WellFormed(s) && s.state == Fetching
    ensures var r := NextState(cpu, s).0;
      r.bytes == s.bytes && r.bytesFetched == s.bytesFetched && r.state != Idle
  {
    if HasDispatcher(cpu) {
      DispatchKeeps(cpu, s);
    }
  }

  /** Storing at index i leaves the bytes before i as they were. */
  lemma StoreKeepsPrefix(xs: seq<bv8>, i: nat, v: bv8)
    requires i < |xs|
    ensures xs[i := v][..i] == xs[..i] && xs[i := v][i] == v
  {
    assert xs[i := v][..i] == xs[..i];
  }

  /** A complete instruction stays complete, with its text, until the next
      begin. */
  lemma CompleteIsStable(cpu: Cpu, d: Decode, b: bv8)
    requires WellFormed(d) && d.state == Complete
    ensures Continue(cpu, d, b).0 == d
    ensures CompleteText(Continue(cpu, d, b).0) == CompleteText(d)
  {
  }

  /** Feeding bytes one continue after another. */
  function Feed(cpu: Cpu, d: Decode, bs: seq<bv8>): (r: Decode)
    requires WellFormed(d)
    ensures WellFormed(r)
    decreases |bs|
  {
    if bs == [] then d else Feed(cpu, Continue(cpu, d, bs[0]).0, bs[1..])
  }

  /** Each continue on a fetching record either completes it or takes one more
      byte. */
  lemma ContinueProgress(cpu: Cpu, d: Decode, b: bv8)
    requires WellFormed(d) && d.state == Fetching
    ensures var r := Continue(cpu, d, b).0;
      r.state == Complete || (r.state == Fetching && r.bytesFetched == d.bytesFetched + 1)
  {
    if d.bytesFetched < MaxBytes {
      ContinueStores(cpu, d, b);
    }
  }

  /** Once complete, further bytes change nothing. */
  lemma {:induction false} FeedComplete(cpu: Cpu, d: Decode, bs: seq<bv8>)
    requires WellFormed(d) && d.state == Complete
    ensures Feed(cpu, d, bs) == d
    decreases |bs|
  {
    if bs != [] {
      CompleteIsStable(cpu, d, bs[0]);
      FeedComplete(cpu, d, bs[1..]);
    }
  }

  /** The overflow cap: whatever the CPU and the bytes, an instruction being
      fetched is complete after at most 9 - bytesFetched further bytes, so no
      session stalls for ever. */
  lemma {:induction false} FeedTerminates(cpu: Cpu, d: Decode, bs: seq<bv8>)
    requires WellFormed(d) && d.state == Fetching && |bs| > MaxBytes - d.bytesFetched
    ensures Feed(cpu, d, bs).state == Complete
    decreases |bs|
  {
    var r := Continue(cpu, d, bs[0]).0;
    ContinueProgress(cpu, d, bs[0]);
    if r.state == Complete {
      FeedComplete(cpu, r, bs[1..]);
    } else {
      FeedTerminates(cpu, r, bs[1..]);
    }
  }

  /** An idle record ignores continue. */
  lemma {:induction false} FeedIdle(cpu: Cpu, d: Decode, bs: seq<bv8>)
    requires WellFormed(d) && d.state == Idle
    ensures Feed(cpu, d, bs) == d
    decreases |bs|
  {
    if bs != [] {
      ContinueIgnored(cpu, d, bs[0]);
      FeedIdle(cpu, d, bs[1..]);
    }
  }

  // ---------------------------------------------------------------------------
  // Z80 sessions, byte by byte
  // ---------------------------------------------------------------------------

  /** A Z80 pass with too few bytes for the template leaves the record alone. */
  lemma Z80PassNoTemplate(d: Decode)
    requires WellFormed(d) && d.state == Fetching && d.bytesRequired == 0
    requires d.bytesFetched < DecodeZ80.TemplateNeeds(d.bytes)
    ensures NextState(CpuZ80, d) == (d, true)
  {
    DecodeZ80.NextZ80Step(d);
  }

  /** A Z80 pass that finds the template stores it with the length and waits. */
  lemma Z80PassWaits(d: Decode, n: nat)
    requires WellFormed(d) && d.state == Fetching && d.bytesRequired == 0
    requires d.bytesFetched >= DecodeZ80.TemplateNeeds(d.bytes) && DecodeZ80.TemplateZ80(d.bytes, d.bytesFetched).Some?
    requires n == DecodeZ80.PrefixBytes(d.bytes, d.bytesFetched) + DecodeZ80.OperandBytes(DecodeZ80.TemplateZ80(d.bytes, d.bytesFetched).value)
    requires n != d.bytesFetched
    ensures NextState(CpuZ80, d) ==
      (d.(insnString := DecodeZ80.TemplateZ80(d.bytes, d.bytesFetched).value, bytesRequired := n), true)
  {
    DecodeZ80.NextZ80Waits(d, n);
  }

  /** The Z80 pass that has every byte formats the stored template, and the
      session appends the target when the template has one. */
  lemma Z80PassCompletes(d: Decode, y: string, tgt: Option<U32>)
    requires WellFormed(d) && d.state == Fetching && d.bytesRequired != 0 && d.bytesFetched == d.bytesRequired
    requires !d.resolvedValid
    requires DecodeZ80.SpliceFrom(d.insnString, 0, DecodeZ80.OperandStart(d.bytes), d.bytes, d.insnAddress, None) == Formatted(y, tgt)
    ensures NextState(CpuZ80, d).1
    ensures CompleteText(NextState(CpuZ80, d).0) == if tgt.Some? then y + AddressSuffix(tgt.value) else y
  {
    DecodeZ80.NextZ80Completes(d, y, tgt);
  }

  /** LD C,55h (0E 55): begin finds the template and waits for one operand
      byte; continue with 55 completes it. */
  lemma SessionLdImmediate(d: Decode, addr: U32)
    requires WellFormed(d) && d.state != Fetching
    ensures var s := Begin(CpuZ80, d, addr, 0x0E);
      s.state == Fetching && s.bytesRequired == 2 &&
      var r := Continue(CpuZ80, s, 0x55);
      r.1 && CompleteText(r.0) == "LD C,55h"
  {
    var s0 := Started(d, addr, 0x0E);
    var c := s0.bytes[1 := 0x55];
    DecodeZ80.LdImmediateFacts(s0.bytes, 1, c, addr);
    Z80PassWaits(s0, 2);
    var s := NextState(CpuZ80, s0).0;
    Z80PassCompletes(s.(bytes := c, bytesFetched := 2), "LD C,55h", None);
  }

  /** DJNZ with offset 05 (10 05) at addr: the text shows the distance 7, and
      the session appends the target addr + 7. */
  lemma SessionRelativeBranch(d: Decode, addr: U32)
    requires WellFormed(d) && d.state != Fetching
    ensures var s := Begin(CpuZ80, d, addr, 0x10);
      s.state == Fetching && s.bytesRequired == 2 &&
      var r := Continue(CpuZ80, s, 0x05);
      r.1 && CompleteText(r.0) == "DJNZ 7   " + AddressSuffix(WrapAdd(addr, 7))
  {
    var s0 := Started(d, addr, 0x10);
    var c := s0.bytes[1 := 0x05];
    DecodeZ80.RelativeBranchFacts(s0.bytes, 1, c, addr);
    Z80PassWaits(s0, 2);
    var s := NextState(CpuZ80, s0).0;
    Z80PassCompletes(s.(bytes := c, bytesFetched := 2), "DJNZ 7   ", Some(WrapAdd(addr, 7)));
  }

  // ---------------------------------------------------------------------------
  // The session record, updated in place
  // ---------------------------------------------------------------------------

  /** struct insn_decode with its CPU fixed at set-up. */
  class InsnDecoder {
    const cpu: Cpu
    var state: DecodeState
    var insnAddress: U32
    var resolvedAddress: U32
    var resolvedValid: bool
    var bytesRequired: int
    var bytesFetched: int
    var addrmode: AddrMode
    const bytes: array<bv8>
    var insnString: string

    /** The record's current contents as a value. */
    function Snap(): Decode
      reads this, bytes
    {
      Decode(state, insnAddress, resolvedAddress, resolvedValid, bytesRequired, bytesFetched,
             addrmode, bytes[..], insnString)
    }

    predicate Valid()
      reads this, bytes
    {
      bytes.Length == MaxBytes && WellFormed(Snap())
    }

    /** insn_decode_init: an idle session for the given CPU. The source sets only
        the state; the other fields start out zero here. */
    constructor(c: Cpu)
      ensures Valid() && cpu == c && fresh(bytes)
      ensures Snap().state == Idle && Snap().bytesFetched == 0 && Snap().bytesRequired == 0
    {
      cpu := c;
      state := Idle;
      insnAddress := 0;
      resolvedAddress := 0;
      resolvedValid := false;
      bytesRequired := 0;
      bytesFetched := 0;
      addrmode := Invalid;
      bytes := new bv8[MaxBytes];
      insnString := "";
    }

    /** Take over every field of r but the bytes. */
    method Store(r: Decode)
      requires Valid() && WellFormed(r) && r.bytes == bytes[..]
      modifies this
      ensures Valid() && Snap() == r
    {
      state := r.state;
      insnAddress := r.insnAddress;
      resolvedAddress := r.resolvedAddress;
      resolvedValid := r.resolvedValid;
      bytesRequired := r.bytesRequired;
      bytesFetched := r.bytesFetched;
      addrmode := r.addrmode;
      insnString := r.insnString;
    }

    /** insn_decode_next_state. */
    method NextPass() returns (progressed: bool)
      requires Valid()
      modifies this
      ensures Valid() && (Snap(), progressed) == NextState(cpu, old(Snap()))
    {
      if !HasDispatcher(cpu) {
        return false;
      }
      var d := Snap();
      var ostate := state;
      var n: Decode;
      if cpu == CpuZ80 {
        n := DecodeZ80.StepZ80(d);
      } else {
        n := Dispatch(cpu, d);
      }
      DispatchKeeps(cpu, d);
      Store(n);
      progressed := ostate == Fetching;
      if progressed && state == Complete && resolvedValid {
        insnString := insnString + AddressSuffix(resolvedAddress);
      }
    }

    /** insn_decode_begin. */
    method Start(addr: U32, b: bv8)
      requires Valid()
      modifies this, bytes
      ensures Valid() && Snap() == Begin(cpu, old(Snap()), addr, b)
    {
      if HasDispatcher(cpu) && (state == Idle || state == Complete) {
        ghost var d := Snap();
        state := Fetching;
        insnAddress := addr;
        resolvedAddress := 0;
        resolvedValid := false;
        addrmode := Invalid;
        bytesRequired := 0;
        bytesFetched := 0;
        bytes[bytesFetched] := b;
        bytesFetched := bytesFetched + 1;
        assert Snap() == Started(d, addr, b);
        var _ := NextPass();
      }
    }

    /** insn_decode_continue. */
    method Add(b: bv8) returns (wasFetching: bool)
      requires Valid()
      modifies this, bytes
      ensures Valid() && (Snap(), wasFetching) == Continue(cpu, old(Snap()), b)
    {
      wasFetching := false;
      if state == Fetching {
        if bytesFetched == MaxBytes {
          insnString := OverflowText;
          state := Complete;
        } else {
          ghost var d := Snap();
          bytes[bytesFetched] := b;
          bytesFetched := bytesFetched + 1;
          assert Snap() == d.(bytes := d.bytes[d.bytesFetched := b], bytesFetched := d.bytesFetched + 1);
          wasFetching := NextPass();
        }
      }
    }

    /** insn_decode_complete: reads the record and changes nothing. */
    method Result() returns (s: string)
      requires Valid()
      ensures s == CompleteText(Snap())
      ensures state == Complete ==> s == insnString
      ensures state != Complete ==> s == ""
    {
      if state == Complete {
        s := insnString;
      } else {
        s := "";
      }
    }
  }
}
