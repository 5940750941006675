/** The pieces of the C library the decoder leans on, written out: upper-case hex
    rendering ("%02X", "%04X", "%04lX"), decimal rendering ("%d", "%u", "%-4d",
    "%-3d"), sub-string search (strstr) and fixed-width overwrite (memcpy). Each
    rendering comes with a parser and a round-trip lemma, so the formatters can be
    shown to put the operand's value, and nothing else, into the text. */
module Fmt {

  datatype Option<T> = None | Some(value: T)

  // ---------------------------------------------------------------------------
  // Hexadecimal
  // ---------------------------------------------------------------------------

  function Pow16(n: nat): (r: nat)
    ensures r >= 1
  {
    if n == 0 then 1 else 16 * Pow16(n - 1)
  }

  /** One upper-case hex digit. */
  function HexDigit(d: nat): (c: char)
    requires d < 16
    ensures IsHexDigit(c) && HexDigitValue(c) == d
  {
    if d < 10 then (48 + d) as char else (55 + d) as char
  }

  predicate IsHexDigit(c: char)
  {
    ('0' <= c <= '9') || ('A' <= c <= 'F')
  }

  function HexDigitValue(c: char): (d: nat)
    requires IsHexDigit(c)
    ensures d < 16
  {
    if c <= '9' then c as int - 48 else c as int - 55
  }

  /** The shortest upper-case hex spelling of n ("%X"). */
  function HexDigits(n: nat): (s: string)
    ensures 1 <= |s|
    decreases n
  {
    if n < 16 then [HexDigit(n)] else HexDigits(n / 16) + [HexDigit(n % 16)]
  }

  function Repeat(c: char, n: nat): (s: string)
    ensures |s| == n && forall i :: 0 <= i < n ==> s[i] == c
  {
    if n == 0 then [] else [c] + Repeat(c, n - 1)
  }

  /** "%0<width>X": upper-case hex, zero-padded on the left to at least width digits. */
  function Hex(n: nat, width: nat): (s: string)
  {
    var digits := HexDigits(n);
    if |digits| < width then Repeat('0', width - |digits|) + digits else digits
  }

  predicate AllHex(s: string)
  {
    forall i :: 0 <= i < |s| ==> IsHexDigit(s[i])
  }

  /** The value a string of hex digits spells, most significant digit first. */
  function HexValue(s: string): nat
    requires AllHex(s)
  {
    if s == [] then 0 else 16 * HexValue(s[..|s| - 1]) + HexDigitValue(s[|s| - 1])
  }

  lemma {:induction false} HexDigitsSpell(n: nat)
    ensures AllHex(HexDigits(n)) && HexValue(HexDigits(n)) == n
    ensures n < Pow16(|HexDigits(n)|)
    decreases n
  {
    var s := HexDigits(n);
    if n >= 16 {
      HexDigitsSpell(n / 16);
      var pre := HexDigits(n / 16);
      assert s == pre + [HexDigit(n % 16)];
      assert s[..|s| - 1] == pre;
    }
  }

  lemma {:induction false} LeadingZeros(k: nat, s: string)
    requires AllHex(s)
    ensures AllHex(Repeat('0', k) + s) && HexValue(Repeat('0', k) + s) == HexValue(s)
    decreases |s|
  {
    var z := Repeat('0', k);
    if s == [] {
      assert z + s == z;
      ZerosValue(k);
    } else {
      var init := s[..|s| - 1];
      LeadingZeros(k, init);
      assert (z + s)[..|z + s| - 1] == z + init;
    }
  }

  lemma {:induction false} ZerosValue(k: nat)
    ensures AllHex(Repeat('0', k)) && HexValue(Repeat('0', k)) == 0
  {
    if k > 0 {
      ZerosValue(k - 1);
      var z := Repeat('0', k);
      assert z[..k - 1] == Repeat('0', k - 1);
    }
  }

  /** Hex rendering round-trips: the digits written spell the value rendered. */
  lemma HexRoundTrip(n: nat, width: nat)
    ensures AllHex(Hex(n, width)) && HexValue(Hex(n, width)) == n
  {
    HexDigitsSpell(n);
    var digits := HexDigits(n);
    if |digits| < width {
      LeadingZeros(width - |digits|, digits);
    }
  }

  lemma {:induction false} HexDigitsShort(n: nat, w: nat)
    requires 1 <= w && n < Pow16(w)
    ensures |HexDigits(n)| <= w
    decreases n
  {
    if n >= 16 {
      assert n / 16 < Pow16(w - 1);
      HexDigitsShort(n / 16, w - 1);
    }
  }

  /** A value below 16^width is rendered in exactly width digits. */
  lemma HexWidth(n: nat, width: nat)
    requires 1 <= width && n < Pow16(width)
    ensures |Hex(n, width)| == width
  {
    HexDigitsShort(n, width);
  }

  /** Hex(n, w) is at least w characters long whatever n is. */
  lemma HexAtLeast(n: nat, width: nat)
    ensures |Hex(n, width)| >= width
  {
  }

  /** "%02X" of a byte and "%04X" of a 16-bit word are exactly 2 and 4 digits. */
  lemma Hex2Width(n: nat)
    requires n < 256
    ensures |Hex(n, 2)| == 2
  {
    HexWidth(n, 2);
  }

  lemma Hex4Width(n: nat)
    requires n < 65536
    ensures |Hex(n, 4)| == 4
  {
    HexWidth(n, 4);
  }

  /** Hex digits after a fixed prefix, exactly `width` of them. */
  function ParseHexAfter(prefix: string, width: nat, s: string): Option<int>
  {
    if |s| == |prefix| + width && s[..|prefix|] == prefix && AllHex(s[|prefix|..])
    then Some(HexValue(s[|prefix|..]) as int) else None
  }

  /** Hex digits after a fixed prefix read back as the value rendered. */
  lemma HexAfterRoundTrip(prefix: string, width: nat, n: nat)
    requires 1 <= width && n < Pow16(width)
    ensures ParseHexAfter(prefix, width, prefix + Hex(n, width)) == Some(n)
  {
    var s := prefix + Hex(n, width);
    HexWidth(n, width);
    HexRoundTrip(n, width);
    assert s[..|prefix|] == prefix;
    assert s[|prefix|..] == Hex(n, width);
  }

  // ---------------------------------------------------------------------------
  // Decimal
  // ---------------------------------------------------------------------------

  predicate IsDecDigit(c: char)
  {
    '0' <= c <= '9'
  }

  function DecDigit(d: nat): (c: char)
    requires d < 10
    ensures IsDecDigit(c) && c as int - 48 == d
  {
    (48 + d) as char
  }

  /** "%u": the shortest decimal spelling of a natural number. */
  function DecDigits(n: nat): (s: string)
    ensures 1 <= |s|
    decreases n
  {
    if n < 10 then [DecDigit(n)] else DecDigits(n / 10) + [DecDigit(n % 10)]
  }

  /** "%d": decimal with a leading '-' for negative values. */
  function Dec(n: int): (s: string)
    ensures 1 <= |s|
  {
    if n < 0 then "-" + DecDigits(-n) else DecDigits(n)
  }

  predicate AllDec(s: string)
  {
    forall i :: 0 <= i < |s| ==> IsDecDigit(s[i])
  }

  function DecDigitsValue(s: string): nat
    requires AllDec(s)
  {
    if s == [] then 0 else 10 * DecDigitsValue(s[..|s| - 1]) + (s[|s| - 1] as int - 48)
  }

  /** The value of an optionally signed decimal numeral. */
  function DecValue(s: string): int
    requires s != [] && (if s[0] == '-' then AllDec(s[1..]) else AllDec(s))
  {
    if s[0] == '-' then -(DecDigitsValue(s[1..]) as int) else DecDigitsValue(s) as int
  }

  lemma {:induction false} DecDigitsSpell(n: nat)
    ensures AllDec(DecDigits(n)) && DecDigitsValue(DecDigits(n)) == n
    decreases n
  {
    if n >= 10 {
      DecDigitsSpell(n / 10);
      var s := DecDigits(n);
      assert s[..|s| - 1] == DecDigits(n / 10);
    }
  }

  /** Decimal rendering round-trips, sign included. */
  lemma DecRoundTrip(n: int)
    ensures var s := Dec(n);
      s != [] && (if s[0] == '-' then AllDec(s[1..]) else AllDec(s)) && DecValue(s) == n
  {
    if n < 0 {
      DecDigitsSpell(-n);
      assert Dec(n)[1..] == DecDigits(-n);
    } else {
      DecDigitsSpell(n);
      assert DecDigits(n)[0] != '-';
    }
  }

  /** Reads an optionally signed decimal numeral ("%d") back. */
  function ParseDec(s: string): Option<int>
  {
    if s != [] && (if s[0] == '-' then AllDec(s[1..]) else AllDec(s)) then Some(DecValue(s)) else None
  }

  lemma {:induction false} DecDigitsShort(n: nat, w: nat, bound: nat)
    requires 1 <= w && n < bound && bound == Pow10(w)
    ensures |DecDigits(n)| <= w
    decreases n
  {
    if n >= 10 {
      DecDigitsShort(n / 10, w - 1, Pow10(w - 1));
    }
  }

  function Pow10(n: nat): (r: nat)
    ensures r >= 1
  {
    if n == 0 then 1 else 10 * Pow10(n - 1)
  }

  /** A signed byte (or a signed byte plus 2) needs at most four characters. */
  lemma DecFitsFour(n: int)
    requires -999 <= n <= 9999
    ensures |Dec(n)| <= 4
  {
    if n < 0 {
      DecDigitsShort(-n, 3, 1000);
    } else {
      DecDigitsShort(n, 4, 10000);
    }
  }

  /** A non-negative signed byte needs at most three characters. */
  lemma DecFitsThree(n: int)
    requires 0 <= n <= 999
    ensures |Dec(n)| <= 3
  {
    DecDigitsShort(n, 3, 1000);
  }

  /** "%-<w>s" of a number: left-justified, padded with spaces up to w characters. */
  function LeftJustify(s: string, w: nat): (r: string)
    ensures |r| == if |s| < w then w else |s|
    ensures r[..|s|] == s
  {
    if |s| < w then s + Repeat(' ', w - |s|) else s
  }

  /** Everything after the justified text is padding. */
  lemma LeftJustifyPads(s: string, w: nat)
    ensures forall i :: |s| <= i < |LeftJustify(s, w)| ==> LeftJustify(s, w)[i] == ' '
  {
  }

  /** The string with its trailing spaces removed. */
  function TrimRight(s: string): (r: string)
    ensures |r| <= |s| && r == s[..|r|]
    ensures forall j :: |r| <= j < |s| ==> s[j] == ' '
    ensures r == [] || r[|r| - 1] != ' '
  {
    if s != [] && s[|s| - 1] == ' ' then TrimRight(s[..|s| - 1]) else s
  }

  /** Left-justifying and then trimming gives back a numeral that did not end in a space. */
  lemma {:induction false} TrimLeftJustify(s: string, w: nat)
    requires s == [] || s[|s| - 1] != ' '
    ensures TrimRight(LeftJustify(s, w)) == s
    decreases w
  {
    var t := LeftJustify(s, w);
    if |s| < w {
      assert t[..|t| - 1] == LeftJustify(s, w - 1);
      TrimLeftJustify(s, w - 1);
    }
  }

  /** A decimal numeral ends in a digit. */
  lemma DecEndsInDigit(n: int)
    ensures IsDecDigit(Dec(n)[|Dec(n)| - 1])
  {
    if n < 0 {
      DecDigitsSpell(-n);
      assert Dec(n)[|Dec(n)| - 1] == DecDigits(-n)[|DecDigits(-n)| - 1];
    } else {
      DecDigitsSpell(n);
    }
  }

  // ---------------------------------------------------------------------------
  // Search and overwrite
  // ---------------------------------------------------------------------------

  predicate MatchesAt(s: string, pat: string, i: nat)
  {
    i + |pat| <= |s| && s[i..i + |pat|] == pat
  }

  /** strstr from position i: the leftmost occurrence of pat at or after i. */
  function FindFrom(s: string, pat: string, i: nat): (r: Option<nat>)
    ensures r.Some? ==> i <= r.value && MatchesAt(s, pat, r.value)
    ensures r.Some? ==> forall j :: i <= j < r.value ==> !MatchesAt(s, pat, j)
    ensures r.None? ==> forall j :: i <= j ==> !MatchesAt(s, pat, j)
    decreases |s| - i
  {
    if i + |pat| > |s| then None
    else if s[i..i + |pat|] == pat then Some(i)
    else FindFrom(s, pat, i + 1)
  }

  function Find(s: string, pat: string): Option<nat>
  {
    FindFrom(s, pat, 0)
  }

  predicate Contains(s: string, pat: string)
  {
    Find(s, pat).Some?
  }

  /** strstr(s, pat) != NULL exactly when pat occurs somewhere in s. */
  lemma ContainsIff(s: string, pat: string)
    ensures Contains(s, pat) <==> exists j :: 0 <= j && MatchesAt(s, pat, j)
  {
  }

  /** memcpy of r over s at position p: same length, r in the window, s elsewhere. */
  function Overwrite(s: string, p: nat, r: string): (t: string)
    requires p + |r| <= |s|
    ensures |t| == |s|
    decreases |r|
  {
    if r == [] then s else Overwrite(s[p := r[0]], p + 1, r[1..])
  }

  /** Character by character: r in the window, s elsewhere. */
  lemma {:induction false} OverwriteChars(s: string, p: nat, r: string)
    requires p + |r| <= |s|
    ensures forall j :: 0 <= j < |s| ==>
      Overwrite(s, p, r)[j] == if p <= j < p + |r| then r[j - p] else s[j]
    decreases |r|
  {
    if r != [] {
      OverwriteChars(s[p := r[0]], p + 1, r[1..]);
    }
  }

  /** After an overwrite, the window holds exactly what was copied in. */
  lemma OverwriteWindow(s: string, p: nat, r: string)
    requires p + |r| <= |s|
    ensures Overwrite(s, p, r)[p..p + |r|] == r
  {
    var t := Overwrite(s, p, r);
    OverwriteChars(s, p, r);
    assert forall j :: 0 <= j < |r| ==> t[p..p + |r|][j] == r[j];
  }
}
