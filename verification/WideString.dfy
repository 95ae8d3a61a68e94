/**
 * Wide strings in UTF-16 to narrow strings in UTF-8. Masks and shifts are written as remainders and quotients by
 * powers of two, and `|` of disjoint bit fields as a sum.
 */
module WideString {
  import opened Common
  import LiteralPrinter

  type CodePoint = n: int | 0 <= n < 0x1_0000_0000
  type Unit = n: int | 0 <= n < 0x1_0000
  type Byte = n: int | 0 <= n < 0x100

  const MAX_CODE_POINT_1: CodePoint := 0x7F
  const MAX_CODE_POINT_2: CodePoint := 0x7FF
  const MAX_CODE_POINT_3: CodePoint := 0xFFFF
  const MAX_CODE_POINT_4: CodePoint := 0x1F_FFFF

  // ----- UTF-8, by the bit layout of section 3 of RFC 3629 -----

  predicate IsTrail(b: Byte) {
    0x80 <= b < 0xC0
  }

  function Bits2(a: int, b: int): int {
    (a - 0xC0) * 0x40 + (b - 0x80)
  }

  function Bits3(a: int, b: int, c: int): int {
    (a - 0xE0) * 0x1000 + (b - 0x80) * 0x40 + (c - 0x80)
  }

  function Bits4(a: int, b: int, c: int, d: int): int {
    (a - 0xF0) * 0x4_0000 + (b - 0x80) * 0x1000 + (c - 0x80) * 0x40 + (d - 0x80)
  }

  /** `s` is the encoding of `cp`: the right lead byte and trail bytes, the bits of `cp`, and no shorter form. */
  predicate Encodes(s: seq<Byte>, cp: CodePoint) {
    || (|s| == 1 && s[0] < 0x80 && s[0] == cp && 0 < cp)
    || (|s| == 2 && 0xC0 <= s[0] < 0xE0 && IsTrail(s[1])
        && Bits2(s[0], s[1]) == cp && MAX_CODE_POINT_1 < cp)
    || (|s| == 3 && 0xE0 <= s[0] < 0xF0 && IsTrail(s[1]) && IsTrail(s[2])
        && Bits3(s[0], s[1], s[2]) == cp && MAX_CODE_POINT_2 < cp)
    || (|s| == 4 && 0xF0 <= s[0] < 0xF8 && IsTrail(s[1]) && IsTrail(s[2]) && IsTrail(s[3])
        && Bits4(s[0], s[1], s[2], s[3]) == cp
        && MAX_CODE_POINT_3 < cp)
  }

  /** The length of the encoding that starts with this lead byte; 0 for a byte that starts none. */
  function LengthFrom(lead: Byte): nat {
    if lead < 0x80 then 1 else if lead < 0xC0 then 0 else if lead < 0xE0 then 2
    else if lead < 0xF0 then 3 else if lead < 0xF8 then 4 else 0
  }

  /** The code point a text starts with, read off the bit layout. */
  function FirstCodePoint(s: seq<Byte>): Option<CodePoint>
    requires s != []
  {
    var n := LengthFrom(s[0]);
    if n == 0 || |s| < n || (exists i | 1 <= i < n :: !IsTrail(s[i])) then None
    else if n == 1 then Some(s[0])
    else if n == 2 then Some(Bits2(s[0], s[1]))
    else if n == 3 then Some(Bits3(s[0], s[1], s[2]))
    else Some(Bits4(s[0], s[1], s[2], s[3]))
  }

  /** Reading a whole UTF-8 text. */
  function DecodeUtf8(s: seq<Byte>): Option<seq<CodePoint>>
    decreases |s|
  {
    if s == [] then Some([])
    else match FirstCodePoint(s)
      case None => None
      case Some(cp) => Prepend([cp], DecodeUtf8(s[LengthFrom(s[0])..]))
  }

  function Prepend<T>(xs: seq<T>, r: Option<seq<T>>): Option<seq<T>> {
    match r
    case None => None
    case Some(ys) => Some(xs + ys)
  }

  lemma {:induction false} PrependTwice<T>(xs: seq<T>, ys: seq<T>, r: Option<seq<T>>)
    ensures Prepend(xs, Prepend(ys, r)) == Prepend(xs + ys, r)
  {
    if r.Some? {
      assert xs + (ys + r.value) == xs + ys + r.value;
    }
  }

  /** An encoding is decoded to its code point, whatever follows it. */
  lemma {:induction false} DecodeEncoded(s: seq<Byte>, cp: CodePoint, rest: seq<Byte>)
    requires Encodes(s, cp)
    ensures FirstCodePoint(s + rest) == Some(cp) && LengthFrom(s[0]) == |s|
    ensures DecodeUtf8(s + rest) == Prepend([cp], DecodeUtf8(rest))
  {
    var all := s + rest;
    assert forall i | 0 <= i < |s| :: all[i] == s[i];
    assert all[|s|..] == rest;
  }

  /** No encoding is a proper prefix of another, and none encodes two code points. */
  lemma {:induction false} PrefixFree(s: seq<Byte>, a: CodePoint, t: seq<Byte>, b: CodePoint)
    requires Encodes(s, a) && Encodes(t, b) && s <= t
    ensures s == t && a == b
  {
    assert t == s + t[|s|..];
    DecodeEncoded(s, a, t[|s|..]);
    DecodeEncoded(t, b, []);
    assert t + [] == t;
  }

  /** Different code points have different encodings, and one code point has only one. */
  lemma {:induction false} EncodingIsBijective(s: seq<Byte>, a: CodePoint, t: seq<Byte>, b: CodePoint)
    requires Encodes(s, a) && Encodes(t, b)
    ensures s == t <==> a == b
  {
    if s == t {
      PrefixFree(s, a, t, b);
    } else if a == b {
      SameBits(s, t, a);
    }
  }

  lemma {:induction false} SameLow(high: int, low: int, high': int, low': int)
    requires 0 <= low < 0x40 && 0 <= low' < 0x40 && high * 0x40 + low == high' * 0x40 + low'
    ensures high == high' && low == low'
  {
  }

  lemma {:induction false} SameBits(s: seq<Byte>, t: seq<Byte>, cp: CodePoint)
    requires Encodes(s, cp) && Encodes(t, cp)
    ensures s == t
  {
    assert |s| == |t|;
    var a: int, a': int := s[0], t[0];
    if |s| == 2 {
      SameLow(a - 0xC0, s[1] - 0x80, a' - 0xC0, t[1] - 0x80);
    } else if |s| == 3 {
      var b: int, b': int := s[1] - 0x80, t[1] - 0x80;
      SameLow((a - 0xE0) * 0x40 + b, s[2] - 0x80, (a' - 0xE0) * 0x40 + b', t[2] - 0x80);
      SameLow(a - 0xE0, b, a' - 0xE0, b');
    } else if |s| == 4 {
      var b: int, b': int, c: int, c': int := s[1] - 0x80, t[1] - 0x80, s[2] - 0x80, t[2] - 0x80;
      SameLow((a - 0xF0) * 0x1000 + b * 0x40 + c, s[3] - 0x80, (a' - 0xF0) * 0x1000 + b' * 0x40 + c', t[3] - 0x80);
      SameLow((a - 0xF0) * 0x40 + b, c, (a' - 0xF0) * 0x40 + b', c');
      SameLow(a - 0xF0, b, a' - 0xF0, b');
    }
  }

  /** The first and the last code point of each length, byte by byte. */
  lemma {:induction false} EncodingLimits(s: seq<Byte>, cp: CodePoint)
    requires Encodes(s, cp)
    ensures cp == 0x7F ==> s == [0x7F]
    ensures cp == 0x80 ==> s == [0xC2, 0x80]
    ensures cp == 0x7FF ==> s == [0xDF, 0xBF]
    ensures cp == 0x800 ==> s == [0xE0, 0xA0, 0x80]
    ensures cp == 0xFFFF ==> s == [0xEF, 0xBF, 0xBF]
    ensures cp == 0x1_0000 ==> s == [0xF0, 0x90, 0x80, 0x80]
    ensures cp == 0x1F_FFFF ==> s == [0xF7, 0xBF, 0xBF, 0xBF]
  {
    OnlyEncoding(s, cp, [0x7F], 0x7F);
    OnlyEncoding(s, cp, [0xC2, 0x80], 0x80);
    OnlyEncoding(s, cp, [0xDF, 0xBF], 0x7FF);
    OnlyEncoding(s, cp, [0xE0, 0xA0, 0x80], 0x800);
    OnlyEncoding(s, cp, [0xEF, 0xBF, 0xBF], 0xFFFF);
    OnlyEncoding(s, cp, [0xF0, 0x90, 0x80, 0x80], 0x1_0000);
    OnlyEncoding(s, cp, [0xF7, 0xBF, 0xBF, 0xBF], 0x1F_FFFF);
  }

  lemma {:induction false} OnlyEncoding(s: seq<Byte>, cp: CodePoint, t: seq<Byte>, limit: CodePoint)
    requires Encodes(s, cp) && Encodes(t, limit)
    ensures cp == limit ==> s == t
  {
    if cp == limit {
      SameBits(s, t, cp);
    }
  }

  /** The code points of one length follow each other: while its last byte can grow, the next one differs there only. */
  lemma {:induction false} EncodingStep(s: seq<Byte>, cp: CodePoint, t: seq<Byte>)
    requires Encodes(s, cp) && Encodes(t, cp + 1) && s[|s| - 1] != 0xBF && cp != 0x7F
    ensures t == s[|s| - 1 := s[|s| - 1] + 1]
  {
    SameBits(t, s[|s| - 1 := s[|s| - 1] + 1], cp + 1);
  }

  /** `ChopLowBits(&bits, 6)`: the 6 lowest bits; the pattern is shifted to the right by 6. */
  method ChopLowBits(bits: CodePoint) returns (low: CodePoint, rest: CodePoint)
    ensures low < 0x40 && bits == rest * 0x40 + low
  {
    low := bits % 0x40;
    rest := bits / 0x40;
  }

  /** The text up to the first NUL, which is what a `std::string` takes from a character array. */
  function UpToNul(s: seq<Byte>): seq<Byte> {
    if s == [] || s[0] == 0 then [] else [s[0]] + UpToNul(s[1..])
  }

  lemma {:induction false} UpToNulStops(s: seq<Byte>, n: nat)
    requires n < |s| && s[n] == 0 && forall i | 0 <= i < n :: s[i] != 0
    ensures UpToNul(s) == s[..n]
    decreases n
  {
    if n > 0 {
      UpToNulStops(s[1..], n - 1);
    }
  }

  /** The bytes of a text of 7-bit characters. */
  function Bytes(s: string): (b: seq<Byte>)
    ensures |b| == |s|
  {
    seq(|s|, i requires 0 <= i < |s| => s[i] as int % 0x100)
  }

  /** What is written for a number that no UTF-8 sequence can hold. */
  function InvalidCodePoint(codePoint: CodePoint): string {
    "(Invalid Unicode 0x" + LiteralPrinter.FormatHexInt(codePoint) + ")"
  }

  /** The message names the number: different numbers have different messages. */
  lemma {:induction false} InvalidIsNamed(a: CodePoint, b: CodePoint)
    requires InvalidCodePoint(a) == InvalidCodePoint(b)
    ensures a == b
  {
    var h, k := LiteralPrinter.FormatHexInt(a), LiteralPrinter.FormatHexInt(b);
    var s, t := InvalidCodePoint(a), InvalidCodePoint(b);
    var n := |"(Invalid Unicode 0x"|;
    assert s[n..|s| - 1] == h && t[n..|t| - 1] == k;
    LiteralPrinter.FormatHexDenotes(a);
    LiteralPrinter.FormatHexDenotes(b);
  }

  /** `CodePointToUtf8`; the text for code point 0 is empty. */
  method CodePointToUtf8(codePoint: CodePoint) returns (s: seq<Byte>)
    ensures if codePoint > MAX_CODE_POINT_4 then s == Bytes(InvalidCodePoint(codePoint))
            else if codePoint == 0 then s == []
            else Encodes(s, codePoint)
  {
    if codePoint > MAX_CODE_POINT_4 {
      return Bytes("(Invalid Unicode 0x" + LiteralPrinter.FormatHexInt(codePoint) + ")");
    }
    s := EncodeCodePoint(codePoint);
  }

  /** The rest of `CodePointToUtf8`. */
  method EncodeCodePoint(codePoint0: CodePoint) returns (s: seq<Byte>)
    requires codePoint0 <= MAX_CODE_POINT_4
    ensures if codePoint0 == 0 then s == [] else Encodes(s, codePoint0)
  {
    var codePoint := codePoint0;
    var str := new Byte[5](_ => 0xFF);
    var low;
    if codePoint <= MAX_CODE_POINT_1 {
      str[1] := 0;
      str[0] := codePoint;
      UpToNulStops(str[..], if codePoint == 0 then 0 else 1);
    } else if codePoint <= MAX_CODE_POINT_2 {
      str[2] := 0;
      low, codePoint := ChopLowBits(codePoint);
      str[1] := 0x80 + low;
      str[0] := 0xC0 + codePoint;
      UpToNulStops(str[..], 2);
    } else if codePoint <= MAX_CODE_POINT_3 {
      str[3] := 0;
      low, codePoint := ChopLowBits(codePoint);
      str[2] := 0x80 + low;
      low, codePoint := ChopLowBits(codePoint);
      str[1] := 0x80 + low;
      str[0] := 0xE0 + codePoint;
      UpToNulStops(str[..], 3);
    } else {
      str[4] := 0;
      low, codePoint := ChopLowBits(codePoint);
      str[3] := 0x80 + low;
      low, codePoint := ChopLowBits(codePoint);
      str[2] := 0x80 + low;
      low, codePoint := ChopLowBits(codePoint);
      str[1] := 0x80 + low;
      str[0] := 0xF0 + codePoint;
      UpToNulStops(str[..], 4);
    }
    s := UpToNul(str[..]);
  }

  // ----- UTF-16 -----

  predicate IsHigh(u: Unit) { 0xD800 <= u < 0xDC00 }
  predicate IsLow(u: Unit) { 0xDC00 <= u < 0xE000 }

  /** `IsUtf16SurrogatePair`, with 16-bit units. */
  predicate IsUtf16SurrogatePair(first: Unit, second: Unit) {
    first / 0x400 * 0x400 == 0xD800 && second / 0x400 * 0x400 == 0xDC00
  }

  /** `CreateCodePointFromUtf16SurrogatePair` */
  function CreateCodePointFromUtf16SurrogatePair(first: Unit, second: Unit): CodePoint {
    first % 0x400 * 0x400 + second % 0x400 + 0x1_0000
  }

  /** Encoding one code point, by section 2.1 of RFC 2781; lone surrogates stand for themselves. */
  function EncodeUtf16(cp: CodePoint): seq<Unit>
    requires cp <= 0x10_FFFF
  {
    if cp < 0x1_0000 then [cp]
    else [0xD800 + (cp - 0x1_0000) / 0x400, 0xDC00 + (cp - 0x1_0000) % 0x400]
  }

  function EncodeAllUtf16(cps: seq<CodePoint>): Option<seq<Unit>> {
    if cps == [] then Some([])
    else if cps[0] > 0x10_FFFF then None
    else Prepend(EncodeUtf16(cps[0]), EncodeAllUtf16(cps[1..]))
  }

  /** A pair of surrogates is what section 2.1 of RFC 2781 makes of its code point. */
  lemma {:induction false} PairIsEncoded(first: Unit, second: Unit)
    requires IsUtf16SurrogatePair(first, second)
    ensures var cp := CreateCodePointFromUtf16SurrogatePair(first, second);
            0x1_0000 <= cp <= 0x10_FFFF && EncodeUtf16(cp) == [first, second]
  {
  }

  /** The pairs in order stand for the code points from 0x10000 on, in order. */
  lemma {:induction false} PairsInOrder(first: Unit, second: Unit)
    requires IsHigh(first) && IsLow(second)
    ensures IsUtf16SurrogatePair(first, second)
    ensures CreateCodePointFromUtf16SurrogatePair(first, second)
         == 0x1_0000 + (first - 0xD800) * 0x400 + (second - 0xDC00)
  {
  }

  lemma {:induction false} OneCharacter(bytes: seq<Byte>, cp: CodePoint, s: seq<Byte>)
    requires EncodesAll(bytes, [cp]) && Encodes(s, cp)
    ensures bytes == s
  {
    var a, t := LastPiece(bytes, [cp]);
    EncodingIsBijective(t, cp, s, cp);
  }

  lemma {:induction false} PairIsOneCodePoint()
    ensures CodePoints([0xD83D, 0xDE00]) == [0x1_F600]
  {
    assert CodePoints([0xD83D, 0xDE00]) == [0x1_F600] + CodePoints([]);
  }

  /** U+1F600, which takes two units and four bytes. */
  lemma {:induction false} PairExample(bytes: seq<Byte>)
    requires EncodesAll(bytes, CodePoints([0xD83D, 0xDE00]))
    ensures bytes == [0xF0, 0x9F, 0x98, 0x80]
  {
    PairIsOneCodePoint();
    OneCharacter(bytes, 0x1_F600, [0xF0, 0x9F, 0x98, 0x80]);
  }

  /** The units the conversion looks at: up to `num` of them, and none from a NUL on. */
  function Visible(str: seq<Unit>, num: int): (units: seq<Unit>)
    ensures 0 !in units && |units| <= |str| && units == str[..|units|]
    ensures |units| <= if num < 0 then 0 else num
  {
    if num <= 0 || str == [] || str[0] == 0 then [] else [str[0]] + Visible(str[1..], num - 1)
  }

  /** Reading the bytes as UTF-8 and encoding the code points in UTF-16 gives the units. */
  predicate ReadsBackAs(bytes: seq<Byte>, units: seq<Unit>) {
    match DecodeUtf8(bytes)
    case None => false
    case Some(cps) => EncodeAllUtf16(cps) == Some(units)
  }

  /** Decoding goes through a text made of two parts, the first of which decodes. */
  lemma {:induction false} DecodeConcat(a: seq<Byte>, b: seq<Byte>)
    requires DecodeUtf8(a).Some?
    ensures DecodeUtf8(a + b) == Prepend(DecodeUtf8(a).value, DecodeUtf8(b))
    decreases |a|
  {
    if a == [] {
      assert a + b == b;
      assert DecodeUtf8(b).Some? ==> [] + DecodeUtf8(b).value == DecodeUtf8(b).value;
    } else {
      var n := LengthFrom(a[0]);
      assert (a + b)[n..] == a[n..] + b;
      FirstIsLocal(a, b);
      DecodeConcat(a[n..], b);
      PrependTwice([FirstCodePoint(a).value], DecodeUtf8(a[n..]).value, DecodeUtf8(b));
    }
  }

  lemma {:induction false} FirstIsLocal(a: seq<Byte>, b: seq<Byte>)
    requires a != [] && FirstCodePoint(a).Some?
    ensures FirstCodePoint(a + b) == FirstCodePoint(a)
  {
    assert forall i | 0 <= i < |a| :: (a + b)[i] == a[i];
  }

  /** The code points of a text in UTF-16: surrogate pairs are joined, other units stand for themselves. */
  function CodePoints(units: seq<Unit>): (cps: seq<CodePoint>)
    ensures forall i | 0 <= i < |cps| :: cps[i] <= 0x10_FFFF
  {
    if units == [] then []
    else if |units| > 1 && IsHigh(units[0]) && IsLow(units[1]) then
      PairIsEncoded(units[0], units[1]);
      [CreateCodePointFromUtf16SurrogatePair(units[0], units[1])] + CodePoints(units[2..])
    else [units[0]] + CodePoints(units[1..])
  }

  /** `bytes` is made of the encodings of the code points, one after the other. */
  ghost predicate EncodesAll(bytes: seq<Byte>, cps: seq<CodePoint>)
    decreases |cps|
  {
    if cps == [] then bytes == []
    else
      var n := |cps| - 1;
      exists k | 0 <= k <= |bytes| :: Encodes(bytes[k..], cps[n]) && EncodesAll(bytes[..k], cps[..n])
  }

  lemma {:induction false} LastPiece(bytes: seq<Byte>, cps: seq<CodePoint>) returns (a: seq<Byte>, s: seq<Byte>)
    requires EncodesAll(bytes, cps) && cps != []
    ensures bytes == a + s && Encodes(s, cps[|cps| - 1]) && EncodesAll(a, cps[..|cps| - 1])
  {
    var n := |cps| - 1;
    var k :| 0 <= k <= |bytes| && Encodes(bytes[k..], cps[n]) && EncodesAll(bytes[..k], cps[..n]);
    a, s := bytes[..k], bytes[k..];
  }

  lemma {:induction false} EncodesPieces(bytes: seq<Byte>, cps: seq<CodePoint>, k: nat)
    requires cps != [] && k <= |bytes| && Encodes(bytes[k..], cps[|cps| - 1]) && EncodesAll(bytes[..k], cps[..|cps| - 1])
    ensures EncodesAll(bytes, cps)
  {
  }

  lemma {:induction false} EncodesOneMore(bytes: seq<Byte>, cps: seq<CodePoint>, s: seq<Byte>, cp: CodePoint)
    requires EncodesAll(bytes, cps) && Encodes(s, cp)
    ensures EncodesAll(bytes + s, cps + [cp])
  {
    hide EncodesAll, Encodes;
    var all, more := bytes + s, cps + [cp];
    assert all[|bytes|..] == s && all[..|bytes|] == bytes;
    assert more[|more| - 1] == cp && more[..|more| - 1] == cps;
    EncodesPieces(all, more, |bytes|);
  }

  lemma {:induction false} DecodeOneMore(a: seq<Byte>, cps: seq<CodePoint>, s: seq<Byte>, cp: CodePoint)
    requires DecodeUtf8(a) == Some(cps) && Encodes(s, cp)
    ensures DecodeUtf8(a + s) == Some(cps + [cp])
  {
    DecodeEncoded(s, cp, []);
    assert s + [] == s && [cp] + [] == [cp];
    DecodeConcat(a, s);
  }

  /** Decoding such a text gives the code points. */
  lemma {:induction false} DecodeAll(bytes: seq<Byte>, cps: seq<CodePoint>)
    requires EncodesAll(bytes, cps)
    ensures DecodeUtf8(bytes) == Some(cps)
    decreases |cps|
  {
    if cps != [] {
      var n := |cps| - 1;
      var a, s := LastPiece(bytes, cps);
      DecodeAll(a, cps[..n]);
      DecodeOneMore(a, cps[..n], s, cps[n]);
      assert cps == cps[..n] + [cps[n]];
    }
  }

  /** A text has one encoding, and different texts have different ones. */
  lemma {:induction false} TextEncodingIsBijective(a: seq<Byte>, cps: seq<CodePoint>, b: seq<Byte>, cps': seq<CodePoint>)
    requires EncodesAll(a, cps) && EncodesAll(b, cps')
    ensures a == b <==> cps == cps'
  {
    if cps == cps' {
      SameText(a, b, cps);
    } else {
      DecodeAll(a, cps);
      DecodeAll(b, cps');
    }
  }

  lemma {:induction false} SameText(a: seq<Byte>, b: seq<Byte>, cps: seq<CodePoint>)
    requires EncodesAll(a, cps) && EncodesAll(b, cps)
    ensures a == b
    decreases |cps|
  {
    if cps != [] {
      var n := |cps| - 1;
      var a', s := LastPiece(a, cps);
      var b', t := LastPiece(b, cps);
      EncodingIsBijective(s, cps[n], t, cps[n]);
      SameText(a', b', cps[..n]);
    }
  }

  /** Encoding the code points in UTF-16 again gives the units, lone surrogates included. */
  lemma {:induction false} CodePointsReadBack(units: seq<Unit>)
    ensures EncodeAllUtf16(CodePoints(units)) == Some(units)
    decreases |units|
  {
    if |units| > 1 && IsHigh(units[0]) && IsLow(units[1]) {
      PairIsEncoded(units[0], units[1]);
      CodePointsReadBack(units[2..]);
      var cp := CreateCodePointFromUtf16SurrogatePair(units[0], units[1]);
      assert ([cp] + CodePoints(units[2..]))[1..] == CodePoints(units[2..]);
      assert units == [units[0], units[1]] + units[2..];
    } else if units != [] {
      CodePointsReadBack(units[1..]);
      assert ([units[0] as int] + CodePoints(units[1..]))[1..] == CodePoints(units[1..]);
      assert units == [units[0]] + units[1..];
    }
  }

  /** No high surrogate stands directly before a low one. */
  predicate NoPairs(cps: seq<CodePoint>) {
    forall i | 0 <= i < |cps| - 1 :: !(0xD800 <= cps[i] < 0xDC00 && 0xDC00 <= cps[i + 1] < 0xE000)
  }

  /** The code points a text can be made of: not NUL, and no surrogates. */
  predicate AllScalars(cps: seq<CodePoint>) {
    forall i | 0 <= i < |cps| :: 0 < cps[i] <= 0x10_FFFF && !(0xD800 <= cps[i] < 0xE000)
  }

  /** Every pair has been joined. */
  lemma {:induction false} PairsAreJoined(units: seq<Unit>)
    ensures NoPairs(CodePoints(units))
    ensures units != [] && !IsLow(units[0]) ==> !(0xDC00 <= CodePoints(units)[0] < 0xE000)
    decreases |units|
  {
    if |units| > 1 && IsHigh(units[0]) && IsLow(units[1]) {
      PairsAreJoined(units[2..]);
    } else if units != [] {
      PairsAreJoined(units[1..]);
    }
  }

  lemma {:induction false} FirstUnit(cps: seq<CodePoint>, units: seq<Unit>)
    requires EncodeAllUtf16(cps) == Some(units) && cps != []
    ensures units != [] && cps[0] <= 0x10_FFFF
    ensures cps[0] < 0x1_0000 ==> units[0] == cps[0] && EncodeAllUtf16(cps[1..]) == Some(units[1..])
    ensures cps[0] >= 0x1_0000 ==>
              && |units| >= 2 && IsHigh(units[0]) && IsLow(units[1])
              && CreateCodePointFromUtf16SurrogatePair(units[0], units[1]) == cps[0]
              && EncodeAllUtf16(cps[1..]) == Some(units[2..])
  {
    var first, rest := EncodeUtf16(cps[0]), EncodeAllUtf16(cps[1..]).value;
    assert units == first + rest && units[|first|..] == rest;
  }

  /** Code points without a pair among them are the only ones of their units. */
  lemma {:induction false} OneReading(cps: seq<CodePoint>, units: seq<Unit>)
    requires EncodeAllUtf16(cps) == Some(units) && NoPairs(cps)
    ensures CodePoints(units) == cps
    decreases |cps|
  {
    if cps != [] {
      var more := cps[1..];
      assert cps == [cps[0]] + more;
      FirstUnit(cps, units);
      if cps[0] >= 0x1_0000 {
        OneReading(more, units[2..]);
      } else {
        OneReading(more, units[1..]);
        if |units| > 1 {
          FirstUnit(more, units[1..]);
          assert more[0] == cps[1];
        }
      }
    }
  }

  /**
   * What the code points of a text in UTF-16 are: those that are encoded as the text and have no pair of surrogates
   * left among them.
   */
  lemma {:induction false} CodePointsIff(units: seq<Unit>, cps: seq<CodePoint>)
    ensures cps == CodePoints(units) <==> EncodeAllUtf16(cps) == Some(units) && NoPairs(cps)
  {
    CodePointsReadBack(units);
    PairsAreJoined(units);
    if EncodeAllUtf16(cps) == Some(units) && NoPairs(cps) {
      OneReading(cps, units);
    }
  }

  lemma {:induction false} ScalarsAreEncoded(cps: seq<CodePoint>)
    requires AllScalars(cps)
    ensures EncodeAllUtf16(cps).Some?
    decreases |cps|
  {
    if cps != [] {
      assert AllScalars(cps[1..]) by {
        assert forall i | 0 <= i < |cps| - 1 :: cps[1..][i] == cps[i + 1];
      }
      ScalarsAreEncoded(cps[1..]);
    }
  }

  /** A text that is encoded in UTF-16 and converted is read in UTF-8 as the same text. */
  lemma {:induction false} TextIsKept(cps: seq<CodePoint>, bytes: seq<Byte>)
    requires AllScalars(cps)
    ensures EncodeAllUtf16(cps).Some? && CodePoints(EncodeAllUtf16(cps).value) == cps
    ensures EncodesAll(bytes, CodePoints(EncodeAllUtf16(cps).value)) ==> DecodeUtf8(bytes) == Some(cps)
  {
    ScalarsAreEncoded(cps);
    OneReading(cps, EncodeAllUtf16(cps).value);
    if EncodesAll(bytes, cps) {
      DecodeAll(bytes, cps);
    }
  }

  /** Nothing is lost: the units can be had back from the bytes, and no other text has these bytes. */
  lemma {:induction false} NothingIsLost(bytes: seq<Byte>, units: seq<Unit>)
    requires EncodesAll(bytes, CodePoints(units))
    ensures ReadsBackAs(bytes, units)
    ensures forall other | EncodesAll(bytes, CodePoints(other)) :: other == units
  {
    DecodeAll(bytes, CodePoints(units));
    CodePointsReadBack(units);
    forall other | EncodesAll(bytes, CodePoints(other))
      ensures other == units
    {
      DecodeAll(bytes, CodePoints(other));
      CodePointsReadBack(other);
    }
  }

  /** `wcslen` */
  function WideLength(str: seq<Unit>): nat {
    if str == [] || str[0] == 0 then 0 else 1 + WideLength(str[1..])
  }

  /** Where the terminator is, or the end of the memory if there is none. */
  lemma {:induction false} WideLengthMeans(str: seq<Unit>)
    ensures WideLength(str) <= |str| && (forall i | 0 <= i < WideLength(str) :: str[i] != 0)
    ensures WideLength(str) < |str| ==> str[WideLength(str)] == 0
    decreases |str|
  {
    if str != [] && str[0] != 0 {
      WideLengthMeans(str[1..]);
      assert forall i | 0 < i < |str| :: str[i] == str[1..][i - 1];
    }
  }

  lemma {:induction false} VisibleIsPrefix(str: seq<Unit>, num: int)
    ensures var n := |Visible(str, num)|;
            n <= WideLength(str) && (n < WideLength(str) ==> n == if num < 0 then 0 else num)
    ensures |Visible(str, WideLength(str))| == WideLength(str)
    decreases |str|
  {
    if str != [] && str[0] != 0 {
      VisibleIsPrefix(str[1..], num - 1);
    }
  }

  /**
   * `WideStringToUtf8` with 16-bit units. `str` is the memory from the pointer on; it holds a NUL, unless
   * `numChars` units of it are to be converted at most.
   */
  method WideStringToUtf8(str: seq<Unit>, numChars: int) returns (bytes: seq<Byte>)
    requires 0 in str || 0 <= numChars <= |str|
    ensures EncodesAll(bytes, CodePoints(Visible(str, if numChars == -1 then WideLength(str) else numChars)))
  {
    var num := if numChars == -1 then WideLength(str) else numChars;
    ghost var units := Visible(str, num);
    bytes := [];
    var i := 0;
    ghost var done := [];
    assert units[0..] == units && [] + CodePoints(units) == CodePoints(units);
    while i < num
      invariant 0 <= i <= |units|
      invariant Halfway(bytes, done, units, i)
      decreases num - i
    {
      VisibleEnds(str, num, i);
      if str[i] == 0 {
        break;
      }
      i, bytes, done := ConvertNext(str, num, i, bytes, done);
    }
    VisibleStops(str, num, i);
    AllDone(bytes, done, units);
  }

  /** The loop has come to unit `i`, and `done` are the code points so far. */
  ghost predicate Halfway(bytes: seq<Byte>, done: seq<CodePoint>, units: seq<Unit>, i: nat) {
    i <= |units| && EncodesAll(bytes, done) && done + CodePoints(units[i..]) == CodePoints(units)
  }

  lemma {:induction false} OneMore(bytes: seq<Byte>, done: seq<CodePoint>, units: seq<Unit>, i: nat, cp: CodePoint,
                                   s: seq<Byte>, next: nat, more: seq<Byte>, moreDone: seq<CodePoint>)
    requires Halfway(bytes, done, units, i) && i <= next <= |units| && Encodes(s, cp)
    requires more == bytes + s && moreDone == done + [cp]
    requires CodePoints(units[i..]) == [cp] + CodePoints(units[next..])
    ensures Halfway(more, moreDone, units, next)
  {
    EncodesOneMore(bytes, done, s, cp);
    var rest := CodePoints(units[next..]);
    assert done + ([cp] + rest) == moreDone + rest;
  }

  lemma {:induction false} AllDone(bytes: seq<Byte>, done: seq<CodePoint>, units: seq<Unit>)
    requires Halfway(bytes, done, units, |units|)
    ensures EncodesAll(bytes, CodePoints(units))
  {
    assert units[|units|..] == [] && done + [] == done;
  }

  /** One round of the loop, at a unit that is not the terminator. */
  method ConvertNext(str: seq<Unit>, num: int, i: nat, bytes: seq<Byte>, ghost done: seq<CodePoint>)
    returns (next: nat, more: seq<Byte>, ghost moreDone: seq<CodePoint>)
    requires i < |Visible(str, num)| && i < num && (0 in str || num <= |str|)
    requires Halfway(bytes, done, Visible(str, num), i)
    ensures i < next && Halfway(more, moreDone, Visible(str, num), next)
  {
    ghost var units := Visible(str, num);
    var codePoint, used := NextCodePoint(str, num, i);
    var s := CodePointToUtf8(codePoint);
    next, more, moreDone := i + used, bytes + s, done + [codePoint];
    OneMore(bytes, done, units, i, codePoint, s, next, more, moreDone);
  }

  /** The code point at position `i`, and how many units it takes. */
  method NextCodePoint(str: seq<Unit>, num: int, i: nat) returns (codePoint: CodePoint, used: nat)
    requires i < |Visible(str, num)| && i < num && (0 in str || num <= |str|)
    ensures 0 < codePoint <= 0x10_FFFF && 1 <= used && i + used <= |Visible(str, num)|
    ensures CodePoints(Visible(str, num)[i..]) == [codePoint] + CodePoints(Visible(str, num)[i + used..])
  {
    VisibleEnds(str, num, i);
    if i + 1 < num {
      VisibleEnds(str, num, i + 1);
    }
    ghost var units := Visible(str, num);
    assert units[i..][1..] == units[i + 1..];
    if i + 1 < num && IsUtf16SurrogatePair(str[i], str[i + 1]) {
      PairIsEncoded(str[i], str[i + 1]);
      assert units[i..][2..] == units[i + 2..];
      return CreateCodePointFromUtf16SurrogatePair(str[i], str[i + 1]), 2;
    }
    return str[i], 1;
  }

  /** A unit before the limit is visible exactly when it is not the terminator. */
  lemma {:induction false} VisibleEnds(str: seq<Unit>, num: int, i: nat)
    requires i <= |Visible(str, num)| && i < num && (0 in str || num <= |str|)
    ensures i < |str| && (str[i] != 0 <==> i < |Visible(str, num)|)
    ensures i < |Visible(str, num)| && i + 1 < num ==> i + 1 < |str|
    decreases i
  {
    if i > 0 {
      VisibleEnds(str[1..], num - 1, i - 1);
    } else if str != [] && str[0] != 0 && num > 1 {
      assert str[1..] != [] by {
        assert 0 in str ==> 0 in str[1..];
      }
    }
  }

  lemma {:induction false} VisibleStops(str: seq<Unit>, num: int, i: nat)
    requires i <= |Visible(str, num)| && (i >= num || (i < |str| && str[i] == 0))
    ensures i == |Visible(str, num)|
    decreases i
  {
    if i > 0 {
      VisibleStops(str[1..], num - 1, i - 1);
    }
  }
}
