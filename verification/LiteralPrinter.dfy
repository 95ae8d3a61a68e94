/** Printing an array of characters as C++ string literals, and reading them back by the rules of the language. */
module LiteralPrinter {
  import opened Common

  /** A character code: of an unsigned char, or of a wide character that is not negative. */
  type Code = nat

  predicate InRange(c: Code, wide: bool) {
    c < if wide then 0x8000_0000 else 0x100
  }

  predicate AllInRange(codes: seq<Code>, wide: bool) {
    forall i | 0 <= i < |codes| :: InRange(codes[i], wide)
  }

  function QuoteBegin(wide: bool): string {
    if wide then "L\"" else "\""
  }

  // ----- Hexadecimal numbers -----

  predicate IsHexDigit(c: char) {
    '0' <= c <= '9' || 'A' <= c <= 'F' || 'a' <= c <= 'f'
  }

  function HexDigitValue(c: char): (v: nat)
    requires IsHexDigit(c)
    ensures v < 16
  {
    if c <= '9' then c as int - '0' as int else if c <= 'F' then c as int - 'A' as int + 10 else c as int - 'a' as int + 10
  }

  function HexDigit(d: nat): (c: char)
    requires d < 16
    ensures IsHexDigit(c) && HexDigitValue(c) == d
  {
    "0123456789ABCDEF"[d]
  }

  /** `FormatHexInt` */
  function FormatHexInt(n: nat): string {
    if n < 16 then [HexDigit(n)] else FormatHexInt(n / 16) + [HexDigit(n % 16)]
  }

  predicate AllHex(s: string) {
    forall i | 0 <= i < |s| :: IsHexDigit(s[i])
  }

  function HexValue(s: string): nat
    requires AllHex(s)
  {
    if s == "" then 0 else HexValue(s[..|s| - 1]) * 16 + HexDigitValue(s[|s| - 1])
  }

  lemma {:induction false} FormatHexDenotes(n: nat)
    ensures FormatHexInt(n) != "" && AllHex(FormatHexInt(n)) && HexValue(FormatHexInt(n)) == n
    decreases n
  {
    if n >= 16 {
      FormatHexDenotes(n / 16);
      var s := FormatHexInt(n / 16) + [HexDigit(n % 16)];
      assert s[..|s| - 1] == FormatHexInt(n / 16);
    } else {
      assert HexValue([HexDigit(n)][..0]) == 0;
    }
  }

  // ----- Printing -----

  datatype CharFormat = AsIs | HexEscape | SpecialEscape

  predicate IsPrintableAscii(c: Code) {
    0x20 <= c <= 0x7E
  }

  /** `IsXDigit`, false for codes beyond a byte. */
  predicate IsXDigit(c: Code) {
    IsPrintableAscii(c) && IsHexDigit(c as char)
  }

  /** `PrintAsStringLiteralTo`: the text for one character of a string literal, and how it was formatted. */
  function PrintAsStringLiteralTo(c: Code): (string, CharFormat) {
    if c == '\'' as int then ("'", AsIs)
    else if c == '"' as int then ("\\\"", SpecialEscape)
    else if c == 0 then ("\\0", SpecialEscape)
    else if c == '\\' as int then ("\\\\", SpecialEscape)
    else if c == 7 then ("\\a", SpecialEscape)
    else if c == 8 then ("\\b", SpecialEscape)
    else if c == 12 then ("\\f", SpecialEscape)
    else if c == 10 then ("\\n", SpecialEscape)
    else if c == 13 then ("\\r", SpecialEscape)
    else if c == 9 then ("\\t", SpecialEscape)
    else if c == 11 then ("\\v", SpecialEscape)
    else if IsPrintableAscii(c) then ([c as char], AsIs)
    else ("\\x" + FormatHexInt(c), HexEscape)
  }

  function CharText(c: Code): string {
    PrintAsStringLiteralTo(c).0
  }

  predicate IsHexFormat(c: Code) {
    PrintAsStringLiteralTo(c).1 == HexEscape
  }

  /** The break between two literals that keeps a hex escape from taking in the next character. */
  function Break(isPreviousHex: bool, c: Code, wide: bool): string {
    if isPreviousHex && IsXDigit(c) then "\" " + QuoteBegin(wide) else ""
  }

  /** The printable characters of ASCII but the double quote and the backslash are printed as they are. */
  lemma {:induction false} PlainTexts(c: Code)
    requires 0x20 <= c <= 0x7E && c != 0x22 && c != 0x5C
    ensures CharText(c) == [c as char] && !IsHexFormat(c)
  {
  }

  /** These two, NUL and seven control characters have escapes of their own. */
  lemma {:induction false} EscapeTexts()
    ensures CharText(0) == "\\0" && CharText(7) == "\\a" && CharText(8) == "\\b" && CharText(9) == "\\t"
    ensures CharText(10) == "\\n" && CharText(11) == "\\v" && CharText(12) == "\\f" && CharText(13) == "\\r"
    ensures CharText(0x22) == "\\\"" && CharText(0x5C) == "\\\\"
    ensures forall c: Code | c == 0 || 7 <= c <= 13 || c == 0x22 || c == 0x5C :: !IsHexFormat(c)
  {
  }

  /** All other characters are printed in hexadecimal. */
  lemma {:induction false} HexTexts(c: Code)
    requires 1 <= c <= 6 || 14 <= c <= 0x1F || c >= 0x7F
    ensures CharText(c) == "\\x" + FormatHexInt(c) && IsHexFormat(c)
  {
  }

  /** The hexadecimal form has capital letters and no zero in front. */
  lemma {:induction false} FormatHexShape(n: nat)
    ensures forall i | 0 <= i < |FormatHexInt(n)| :: !('a' <= FormatHexInt(n)[i] <= 'f')
    ensures FormatHexInt(n) != "" && (n > 0 ==> FormatHexInt(n)[0] != '0')
    decreases n
  {
    HexDigitIsCapital(n % 16);
    if n >= 16 {
      FormatHexShape(n / 16);
    }
  }

  lemma {:induction false} HexDigitIsCapital(d: nat)
    requires d < 16
    ensures !('a' <= HexDigit(d) <= 'f') && (HexDigit(d) == '0' ==> d == 0)
  {
  }

  /** There is a break exactly between a hex escape and a hex digit. */
  lemma {:induction false} BreakIff(isPreviousHex: bool, c: Code, wide: bool)
    ensures Break(isPreviousHex, c, wide)
         == if isPreviousHex && (0x30 <= c <= 0x39 || 0x41 <= c <= 0x46 || 0x61 <= c <= 0x66)
            then (if wide then "\" L\"" else "\" \"") else ""
  {
    assert "\" " + "L\"" == "\" L\"" && "\" " + "\"" == "\" \"";
  }

  /** What is printed for the remaining characters, with the final quote. */
  function PrintFrom(codes: seq<Code>, isPreviousHex: bool, wide: bool): string
    decreases |codes|
  {
    if codes == [] then "\""
    else Break(isPreviousHex, codes[0], wide) + (CharText(codes[0]) + PrintFrom(codes[1..], IsHexFormat(codes[0]), wide))
  }

  function PrintAll(codes: seq<Code>, wide: bool): string {
    QuoteBegin(wide) + PrintFrom(codes, false, wide)
  }

  /** `PrintCharsAsStringTo`: appends to the stream `os`. */
  method PrintCharsAsStringTo(codes: seq<Code>, wide: bool, os0: string) returns (os: string)
    ensures os == os0 + PrintAll(codes, wide)
  {
    os := os0 + QuoteBegin(wide);
    var isPreviousHex := false;
    var index := 0;
    assert codes[0..] == codes;
    while index < |codes|
      invariant 0 <= index <= |codes|
      invariant os + PrintFrom(codes[index..], isPreviousHex, wide) == os0 + PrintAll(codes, wide)
    {
      var cur := codes[index];
      ghost var before := os;
      assert codes[index..][1..] == codes[index + 1..];
      if isPreviousHex && IsXDigit(cur) {
        os := os + ("\" " + QuoteBegin(wide));
      }
      assert os == before + Break(isPreviousHex, cur, wide);
      var (text, format) := PrintAsStringLiteralTo(cur);
      Regroup(before, Break(isPreviousHex, cur, wide), text, PrintFrom(codes[index + 1..], format == HexEscape, wide));
      os := os + text;
      isPreviousHex := format == HexEscape;
      index := index + 1;
    }
    os := os + "\"";
  }

  lemma {:induction false} Regroup(a: string, b: string, c: string, d: string)
    ensures a + (b + (c + d)) == a + b + c + d
  {
  }

  // ----- Reading, by [lex.ccon] and [lex.string] of ISO C++11 -----

  predicate IsOctalDigit(c: char) {
    '0' <= c <= '7'
  }

  /** An octal escape takes at most three digits. */
  function OctalRun(s: string, limit: nat): (k: nat)
    ensures k <= limit && k <= |s| && forall i | 0 <= i < k :: IsOctalDigit(s[i])
  {
    if limit == 0 || s == "" || !IsOctalDigit(s[0]) then 0 else 1 + OctalRun(s[1..], limit - 1)
  }

  function OctalValue(s: string): nat
    requires forall i | 0 <= i < |s| :: IsOctalDigit(s[i])
  {
    if s == "" then 0
    else
      assert IsOctalDigit(s[|s| - 1]);
      OctalValue(s[..|s| - 1]) * 8 + (s[|s| - 1] as int - '0' as int)
  }

  /** A hex escape takes as many digits as there are. */
  function HexRun(s: string): (k: nat)
    ensures k <= |s| && AllHex(s[..k]) && (k < |s| ==> !IsHexDigit(s[k]))
  {
    if s == "" || !IsHexDigit(s[0]) then 0
    else
      var k := HexRun(s[1..]);
      assert s[..k + 1] == [s[0]] + s[1..][..k];
      k + 1
  }

  function SimpleEscape(c: char): Option<Code> {
    match c
    case '\'' => Some(0x27)
    case '"' => Some(0x22)
    case '?' => Some(0x3F)
    case '\\' => Some(0x5C)
    case 'a' => Some(7)
    case 'b' => Some(8)
    case 'f' => Some(12)
    case 'n' => Some(10)
    case 'r' => Some(13)
    case 't' => Some(9)
    case 'v' => Some(11)
    case _ => None
  }

  function SkipSpaces(s: string): (r: string)
    ensures |r| <= |s|
  {
    if s != "" && s[0] == ' ' then SkipSpaces(s[1..]) else s
  }

  function Cons(c: Code, r: Option<seq<Code>>): Option<seq<Code>> {
    match r
    case None => None
    case Some(cs) => Some([c] + cs)
  }

  /** The characters from inside a literal to the end of the last of the adjacent literals. */
  function ReadBody(s: string, wide: bool): Option<seq<Code>>
    decreases |s|
  {
    if s == "" then None
    else if s[0] == '"' then
      var after := SkipSpaces(s[1..]);
      var q := QuoteBegin(wide);
      if after == "" then Some([]) else if q <= after then ReadBody(after[|q|..], wide) else None
    else if s[0] == '\\' then
      if |s| == 1 then None
      else if IsOctalDigit(s[1]) then
        var k := OctalRun(s[1..], 3);
        if k == 0 then None else Cons(OctalValue(s[1..][..k]), ReadBody(s[1 + k..], wide))
      else if s[1] == 'x' then
        var k := HexRun(s[2..]);
        if k == 0 || !InRange(HexValue(s[2..][..k]), wide) then None
        else Cons(HexValue(s[2..][..k]), ReadBody(s[2 + k..], wide))
      else
        match SimpleEscape(s[1])
        case None => None
        case Some(c) => Cons(c, ReadBody(s[2..], wide))
    else if s[0] == '\n' then None
    else Cons(s[0] as int, ReadBody(s[1..], wide))
  }

  /** The characters of adjacent string literals, after concatenation. */
  function ReadLiterals(s: string, wide: bool): Option<seq<Code>> {
    var q := QuoteBegin(wide);
    if q <= s then ReadBody(s[|q|..], wide) else None
  }

  // ----- What reading back gives -----

  predicate IsOctalCode(c: Code) {
    '0' as int <= c <= '7' as int
  }

  /** How many of the next codes, at most `limit`, are octal digits. */
  function OctalCodes(codes: seq<Code>, limit: nat): (k: nat)
    ensures k <= limit && k <= |codes| && forall i | 0 <= i < k :: IsOctalCode(codes[i])
  {
    if limit == 0 || codes == [] || !IsOctalCode(codes[0]) then 0 else 1 + OctalCodes(codes[1..], limit - 1)
  }

  function OctalOf(codes: seq<Code>): nat
    requires forall i | 0 <= i < |codes| :: IsOctalCode(codes[i])
  {
    if codes == [] then 0
    else
      assert IsOctalCode(codes[|codes| - 1]);
      OctalOf(codes[..|codes| - 1]) * 8 + (codes[|codes| - 1] - '0' as int)
  }

  /** A NUL is printed as `\0` and takes in up to two octal digits that follow it. */
  function Merged(codes: seq<Code>): seq<Code>
    decreases |codes|
  {
    if codes == [] then []
    else if codes[0] == 0 then
      var k := OctalCodes(codes[1..], 2);
      [OctalOf(codes[1..][..k])] + Merged(codes[1 + k..])
    else [codes[0]] + Merged(codes[1..])
  }

  /** No NUL is directly followed by an octal digit. */
  predicate NoNulBeforeOctal(codes: seq<Code>) {
    forall i | 0 <= i < |codes| - 1 :: codes[i] == 0 ==> !IsOctalCode(codes[i + 1])
  }

  lemma {:induction false} FirstPrinted(codes: seq<Code>, isPreviousHex: bool, wide: bool)
    ensures var t := PrintFrom(codes, isPreviousHex, wide);
            && t != ""
            && (IsOctalDigit(t[0]) <==> codes != [] && IsOctalCode(codes[0]) && Break(isPreviousHex, codes[0], wide) == "")
            && (isPreviousHex ==> !IsHexDigit(t[0]))
  {
    if codes != [] {
      assert PrintFrom(codes, isPreviousHex, wide)[0]
          == if Break(isPreviousHex, codes[0], wide) != "" then '"' else CharText(codes[0])[0];
    }
  }

  /** The break is read as the end of one literal and the start of the next. */
  lemma {:induction false} ReadBreak(isPreviousHex: bool, c: Code, t: string, wide: bool)
    ensures ReadBody(Break(isPreviousHex, c, wide) + t, wide) == ReadBody(t, wide)
  {
    var q := QuoteBegin(wide);
    if Break(isPreviousHex, c, wide) != "" {
      var s := "\" " + q + t;
      assert s[1..] == " " + (q + t);
      assert (" " + (q + t))[1..] == q + t;
      assert SkipSpaces(q + t) == q + t;
      assert (q + t)[|q|..] == t;
    } else {
      assert "" + t == t;
    }
  }

  /** A character printed as it is, or by a simple escape. */
  lemma {:induction false} ReadSimple(c: Code, t: string, wide: bool)
    requires c != 0 && !IsHexFormat(c)
    ensures ReadBody(CharText(c) + t, wide) == Cons(c, ReadBody(t, wide))
  {
    var s := CharText(c);
    assert (s + t)[|s|..] == t;
    assert (s + t)[0] == s[0] && (|s| > 1 ==> (s + t)[1] == s[1]);
  }

  lemma {:induction false} HexRunEnds(h: string, t: string)
    requires AllHex(h) && (t != "" ==> !IsHexDigit(t[0]))
    ensures HexRun(h + t) == |h|
    decreases |h|
  {
    if h == "" {
      assert h + t == t;
    } else {
      assert (h + t)[1..] == h[1..] + t;
      HexRunEnds(h[1..], t);
    }
  }

  lemma {:induction false} HexParts(c: Code, h: string, t: string)
    requires IsHexFormat(c) && h == FormatHexInt(c)
    ensures var s := CharText(c) + t;
            |s| == 2 + |h| + |t| && s[0] == '\\' && s[1] == 'x' && s[2..] == h + t
            && (h + t)[..|h|] == h && s[2 + |h|..] == t
  {
  }

  /** A hex escape ends where it should when no hex digit follows it. */
  lemma {:induction false} ReadHex(c: Code, t: string, wide: bool)
    requires IsHexFormat(c) && InRange(c, wide) && t != "" && !IsHexDigit(t[0])
    ensures ReadBody(CharText(c) + t, wide) == Cons(c, ReadBody(t, wide))
  {
    var h := FormatHexInt(c);
    FormatHexDenotes(c);
    HexRunEnds(h, t);
    HexParts(c, h, t);
  }

  /** The octal digits printed after a NUL are exactly the octal digit codes that follow it. */
  lemma {:induction false} OctalRunPrinted(codes: seq<Code>, limit: nat, wide: bool)
    ensures var t, k := PrintFrom(codes, false, wide), OctalCodes(codes, limit);
            && OctalRun(t, limit) == k && k <= |t|
            && t[k..] == PrintFrom(codes[k..], false, wide)
            && OctalValue(t[..k]) == OctalOf(codes[..k])
  {
    var t, k := PrintFrom(codes, false, wide), OctalCodes(codes, limit);
    OctalRunLength(codes, limit, wide);
    DigitsPrinted(codes, k, wide);
    OctalSame(t[..k], codes[..k]);
  }

  lemma {:induction false} OctalRunLength(codes: seq<Code>, limit: nat, wide: bool)
    ensures OctalRun(PrintFrom(codes, false, wide), limit) == OctalCodes(codes, limit)
    decreases limit
  {
    FirstPrinted(codes, false, wide);
    if limit > 0 && codes != [] && IsOctalCode(codes[0]) {
      PrintedDigit(codes, wide);
      OctalRunLength(codes[1..], limit - 1, wide);
    }
  }

  lemma {:induction false} PrintedDigit(codes: seq<Code>, wide: bool)
    requires codes != [] && IsOctalCode(codes[0])
    ensures PrintFrom(codes, false, wide) == [codes[0] as char] + PrintFrom(codes[1..], false, wide)
  {
  }

  lemma {:induction false} DigitsPrinted(codes: seq<Code>, k: nat, wide: bool)
    requires k <= |codes| && forall i | 0 <= i < k :: IsOctalCode(codes[i])
    ensures var t := PrintFrom(codes, false, wide);
            k <= |t| && t[k..] == PrintFrom(codes[k..], false, wide) && forall i | 0 <= i < k :: t[i] as int == codes[i]
    decreases k
  {
    var t := PrintFrom(codes, false, wide);
    if k == 0 {
      assert t[0..] == t && codes[0..] == codes;
    } else {
      PrintedDigit(codes, wide);
      DigitsPrinted(codes[1..], k - 1, wide);
      assert t[k..] == t[1..][k - 1..] && codes[k..] == codes[1..][k - 1..];
    }
  }

  lemma {:induction false} OctalSame(s: string, codes: seq<Code>)
    requires |s| == |codes| && forall i | 0 <= i < |s| :: IsOctalCode(codes[i]) && s[i] as int == codes[i]
    requires forall i | 0 <= i < |s| :: IsOctalDigit(s[i])
    ensures OctalValue(s) == OctalOf(codes)
    decreases |s|
  {
    if s != "" {
      OctalSame(s[..|s| - 1], codes[..|s| - 1]);
    }
  }

  lemma {:induction false} LeadingZero(s: string)
    requires forall i | 0 <= i < |s| :: IsOctalDigit(s[i])
    ensures OctalValue("0" + s) == OctalValue(s)
    decreases |s|
  {
    var z := "0" + s;
    if s == "" {
      assert z[..0] == "";
    } else {
      assert z[..|z| - 1] == "0" + s[..|s| - 1];
      LeadingZero(s[..|s| - 1]);
    }
  }

  lemma {:induction false} ReadNul(codes: seq<Code>, wide: bool)
    ensures var t, k := PrintFrom(codes, false, wide), OctalCodes(codes, 2);
            ReadBody(CharText(0) + t, wide) == Cons(OctalOf(codes[..k]), ReadBody(PrintFrom(codes[k..], false, wide), wide))
  {
    var t, k := PrintFrom(codes, false, wide), OctalCodes(codes, 2);
    OctalRunPrinted(codes, 2, wide);
    OctalEscape(t, k);
    ReadOctal(t, k, wide);
  }

  lemma {:induction false} ReadOctal(t: string, k: nat, wide: bool)
    requires OctalRun("0" + t, 3) == 1 + k && k <= |t|
    ensures ReadBody(CharText(0) + t, wide) == Cons(OctalValue(("0" + t)[..1 + k]), ReadBody(t[k..], wide))
  {
    var s := CharText(0) + t;
    assert s[1..] == "0" + t;
    assert s[1 + (1 + k)..] == t[k..];
  }

  lemma {:induction false} OctalEscape(t: string, k: nat)
    requires OctalRun(t, 2) == k
    ensures OctalRun("0" + t, 3) == 1 + k && OctalValue(("0" + t)[..1 + k]) == OctalValue(t[..k])
  {
    assert ("0" + t)[1..] == t;
    assert ("0" + t)[..1 + k] == "0" + t[..k];
    LeadingZero(t[..k]);
  }

  lemma {:induction false} ReadNulFirst(codes: seq<Code>, wide: bool)
    requires codes != [] && codes[0] == 0
    requires var after := codes[1..][OctalCodes(codes[1..], 2)..];
             ReadBody(PrintFrom(after, false, wide), wide) == Some(Merged(after))
    ensures ReadBody(CharText(0) + PrintFrom(codes[1..], false, wide), wide) == Some(Merged(codes))
  {
    var rest := codes[1..];
    var k := OctalCodes(rest, 2);
    ReadNul(rest, wide);
    assert codes[1 + k..] == rest[k..];
  }

  lemma {:induction false} ReadOne(c: Code, t: string, wide: bool)
    requires c != 0 && InRange(c, wide) && (IsHexFormat(c) ==> t != "" && !IsHexDigit(t[0]))
    ensures ReadBody(CharText(c) + t, wide) == Cons(c, ReadBody(t, wide))
  {
    if IsHexFormat(c) {
      ReadHex(c, t, wide);
    } else {
      ReadSimple(c, t, wide);
    }
  }

  /** Reading the printed literals gives the characters with every NUL merged with the octal digits after it. */
  lemma {:induction false} ReadPrinted(codes: seq<Code>, isPreviousHex: bool, wide: bool)
    requires AllInRange(codes, wide)
    ensures ReadBody(PrintFrom(codes, isPreviousHex, wide), wide) == Some(Merged(codes))
    decreases |codes|
  {
    if codes == [] {
      assert "\""[1..] == "";
    } else {
      var c, rest := codes[0], codes[1..];
      var t := PrintFrom(rest, IsHexFormat(c), wide);
      ReadBreak(isPreviousHex, c, CharText(c) + t, wide);
      FirstPrinted(rest, IsHexFormat(c), wide);
      if c == 0 {
        ReadPrinted(rest[OctalCodes(rest, 2)..], false, wide);
        ReadNulFirst(codes, wide);
      } else {
        ReadPrinted(rest, IsHexFormat(c), wide);
        ReadOne(c, t, wide);
      }
    }
  }

  lemma {:induction false} MergedLength(codes: seq<Code>)
    ensures |Merged(codes)| <= |codes|
    ensures |Merged(codes)| == |codes| ==> NoNulBeforeOctal(codes)
    decreases |codes|
  {
    if codes != [] {
      var k := if codes[0] == 0 then OctalCodes(codes[1..], 2) else 0;
      var rest := codes[1 + k..];
      MergedLength(rest);
      if |Merged(codes)| == |codes| {
        assert k == 0 && rest == codes[1..];
        forall i | 0 <= i < |codes| - 1 && codes[i] == 0
          ensures !IsOctalCode(codes[i + 1])
        {
          if i > 0 {
            assert rest[i - 1] == codes[i] && rest[i] == codes[i + 1];
          }
        }
      }
    }
  }

  lemma {:induction false} NothingMerged(codes: seq<Code>)
    requires NoNulBeforeOctal(codes)
    ensures Merged(codes) == codes
    decreases |codes|
  {
    if codes != [] {
      var rest := codes[1..];
      forall i | 0 <= i < |rest| - 1 && rest[i] == 0
        ensures !IsOctalCode(rest[i + 1])
      {
        assert codes[i + 1] == rest[i] && codes[i + 2] == rest[i + 1];
      }
      NothingMerged(codes[1..]);
      if codes[0] == 0 {
        assert OctalCodes(codes[1..], 2) == 0;
        assert codes[1 + 0..] == codes[1..];
      }
    }
  }

  /**
   * The printed text always reads as valid adjacent literals, and it reads as the characters it was printed from
   * exactly when no NUL among them is directly followed by an octal digit.
   */
  lemma {:induction false} ReadBackIff(codes: seq<Code>, wide: bool)
    requires AllInRange(codes, wide)
    ensures ReadLiterals(PrintAll(codes, wide), wide).Some?
    ensures ReadLiterals(PrintAll(codes, wide), wide) == Some(codes) <==> NoNulBeforeOctal(codes)
  {
    var q := QuoteBegin(wide);
    assert PrintAll(codes, wide)[|q|..] == PrintFrom(codes, false, wide);
    ReadPrinted(codes, false, wide);
    MergedLength(codes);
    if NoNulBeforeOctal(codes) {
      NothingMerged(codes);
    }
  }

  /** For example a NUL followed by the digit 1 is printed as `\01`, which is one character. */
  lemma {:induction false} NulThenDigit()
    ensures ReadLiterals(PrintAll([0, '1' as int], false), false) == Some([1])
  {
    var codes: seq<Code> := [0, '1' as int];
    var digits: seq<Code> := ['1' as int];
    assert codes[1..] == digits && codes[2..] == [];
    assert digits[1..] == [] && digits[..1] == digits && digits[..0] == [];
    assert OctalCodes(digits, 2) == 1;
    assert OctalOf(digits) == 1;
    assert Merged(codes) == [1] + Merged([]);
    assert Merged(codes) == [1];
    var q := QuoteBegin(false);
    assert q <= PrintAll(codes, false) && PrintAll(codes, false)[|q|..] == PrintFrom(codes, false, false);
    ReadPrinted(codes, false, false);
  }
}
