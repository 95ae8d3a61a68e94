/** The XML report writer: escaped text, attribute values and CDATA sections, and reading them back. */
module XmlPrinter {
  import opened Common
  import opened LiteralPrinter

  // ----- Characters -----

  predicate IsNormalizableWhitespace(c: char) {
    c == '\t' || c == '\n' || c == '\r'
  }

  /** A plain `char` may be signed; then those of 0x80 and above are negative. */
  predicate IsValidXmlCharacter(c: char, signed: bool) {
    IsNormalizableWhitespace(c) || 0x20 <= c as int < 0x80 || (c as int >= 0x80 && !signed)
  }

  /** The text without the characters that may not occur in XML. */
  function ValidPart(s: string, signed: bool): string {
    if s == "" then "" else (if IsValidXmlCharacter(s[0], signed) then [s[0]] else "") + ValidPart(s[1..], signed)
  }

  lemma {:induction false} ValidPartSnoc(s: string, c: char, signed: bool)
    ensures ValidPart(s + [c], signed) == ValidPart(s, signed) + if IsValidXmlCharacter(c, signed) then [c] else ""
    decreases |s|
  {
    if s == "" {
      assert [c][1..] == "" && s + [c] == [c];
      assert ValidPart([c], signed) == (if IsValidXmlCharacter(c, signed) then [c] else "") + "";
    } else {
      assert (s + [c])[1..] == s[1..] + [c];
      ValidPartSnoc(s[1..], c, signed);
      Regroup2(if IsValidXmlCharacter(s[0], signed) then [s[0]] else "", ValidPart(s[1..], signed),
               if IsValidXmlCharacter(c, signed) then [c] else "");
    }
  }

  lemma {:induction false} Regroup2(a: string, b: string, c: string)
    ensures a + (b + c) == a + b + c
  {
  }

  /** Tab, newline, carriage return, and everything from the blank on as far as plain chars are not negative. */
  lemma {:induction false} ValidCodes(c: char, signed: bool)
    ensures IsValidXmlCharacter(c, signed)
       <==> c as int in {9, 10, 13} || 0x20 <= c as int <= 0x7F || (c as int > 0x7F && !signed)
  {
  }

  /** The characters of a 7-bit text whose codes are 9, 10, 13, or 0x20 and above. */
  function ValidByCode(s: string): string {
    if s == "" then ""
    else
      var n := |s| - 1;
      ValidByCode(s[..n]) + if s[n] as int in {9, 10, 13} || s[n] as int >= 0x20 then [s[n]] else ""
  }

  /** Of a 7-bit text these are kept, whether plain chars are signed or not. */
  lemma {:induction false} SevenBitKept(s: string, signed: bool)
    requires forall i | 0 <= i < |s| :: s[i] as int <= 0x7F
    ensures ValidPart(s, signed) == ValidByCode(s)
    decreases |s|
  {
    if s != "" {
      var n := |s| - 1;
      SevenBitKept(s[..n], signed);
      assert s == s[..n] + [s[n]];
      ValidPartSnoc(s[..n], s[n], signed);
      ValidCodes(s[n], signed);
    }
  }

  /** `RemoveInvalidXmlCharacters` */
  method RemoveInvalidXmlCharacters(str: string, signed: bool) returns (output: string)
    ensures output == ValidPart(str, signed)
  {
    output := "";
    var i := 0;
    while i < |str|
      invariant 0 <= i <= |str|
      invariant output == ValidPart(str[..i], signed)
    {
      if IsValidXmlCharacter(str[i], signed) {
        output := output + [str[i]];
      }
      ValidPartSnoc(str[..i], str[i], signed);
      assert str[..i + 1] == str[..i] + [str[i]];
      i := i + 1;
    }
    assert str[..i] == str;
  }

  // ----- Escaping -----

  /** `FormatByte`: two hexadecimal digits. */
  function FormatByte(c: char): string
    requires c as int < 0x100
  {
    [HexDigit(c as int / 16), HexDigit(c as int % 16)]
  }

  /** What is written for one character. */
  function EscapedChar(c: char, isAttribute: bool, signed: bool): string {
    if c == '<' then "&lt;"
    else if c == '>' then "&gt;"
    else if c == '&' then "&amp;"
    else if c == '\'' then (if isAttribute then "&apos;" else "'")
    else if c == '"' then (if isAttribute then "&quot;" else "\"")
    else if !IsValidXmlCharacter(c, signed) then ""
    else if isAttribute && IsNormalizableWhitespace(c) then "&#x" + FormatByte(c) + ";"
    else [c]
  }

  /** The characters that are written as something else. */
  lemma {:induction false} EscapeTable(signed: bool)
    ensures forall a :: EscapedChar('<', a, signed) == "&lt;" && EscapedChar('>', a, signed) == "&gt;"
    ensures forall a :: EscapedChar('&', a, signed) == "&amp;"
    ensures EscapedChar('\'', true, signed) == "&apos;" && EscapedChar('"', true, signed) == "&quot;"
    ensures EscapedChar('\t', true, signed) == "&#x09;" && EscapedChar('\n', true, signed) == "&#x0A;"
    ensures EscapedChar('\r', true, signed) == "&#x0D;"
  {
    assert FormatByte('\t') == "09" && FormatByte('\n') == "0A" && FormatByte('\r') == "0D";
  }

  /** All others are written as they are, or not at all. */
  lemma {:induction false} UnescapedChars(c: char, isAttribute: bool, signed: bool)
    requires c !in {'<', '>', '&'} && (isAttribute ==> c !in {'\'', '"', '\t', '\n', '\r'})
    ensures EscapedChar(c, isAttribute, signed)
         == if c as int in {9, 10, 13} || 0x20 <= c as int <= 0x7F || (c as int > 0x7F && !signed) then [c] else ""
  {
    ValidCodes(c, signed);
  }

  function Escaped(s: string, isAttribute: bool, signed: bool): string {
    if s == "" then "" else EscapedChar(s[0], isAttribute, signed) + Escaped(s[1..], isAttribute, signed)
  }

  lemma {:induction false} EscapedSnoc(s: string, c: char, isAttribute: bool, signed: bool)
    ensures Escaped(s + [c], isAttribute, signed) == Escaped(s, isAttribute, signed) + EscapedChar(c, isAttribute, signed)
    decreases |s|
  {
    if s == "" {
      assert [c][1..] == "" && s + [c] == [c];
      assert Escaped([c], isAttribute, signed) == EscapedChar(c, isAttribute, signed) + "";
    } else {
      assert (s + [c])[1..] == s[1..] + [c];
      EscapedSnoc(s[1..], c, isAttribute, signed);
      Regroup2(EscapedChar(s[0], isAttribute, signed), Escaped(s[1..], isAttribute, signed),
               EscapedChar(c, isAttribute, signed));
    }
  }

  /** `EscapeXml` */
  method EscapeXml(str: string, isAttribute: bool, signed: bool) returns (m: string)
    ensures m == Escaped(str, isAttribute, signed)
  {
    m := "";
    var i := 0;
    while i < |str|
      invariant 0 <= i <= |str|
      invariant m == Escaped(str[..i], isAttribute, signed)
    {
      var ch := str[i];
      EscapedSnoc(str[..i], ch, isAttribute, signed);
      assert str[..i + 1] == str[..i] + [ch];
      if ch == '<' {
        m := m + "&lt;";
      } else if ch == '>' {
        m := m + "&gt;";
      } else if ch == '&' {
        m := m + "&amp;";
      } else if ch == '\'' {
        m := m + if isAttribute then "&apos;" else "'";
      } else if ch == '"' {
        m := m + if isAttribute then "&quot;" else "\"";
      } else if IsValidXmlCharacter(ch, signed) {
        if isAttribute && IsNormalizableWhitespace(ch) {
          m := m + ("&#x" + FormatByte(ch) + ";");
        } else {
          m := m + [ch];
        }
      }
      i := i + 1;
    }
    assert str[..i] == str;
  }

  // ----- CDATA sections -----

  const CDATA_START := "<![CDATA["
  const CDATA_END := "]]>"
  const CDATA_SPLIT := "]]>]]&gt;<![CDATA["

  /** `strstr(s, "]]>")` */
  function FindEnd(s: string): (r: Option<nat>)
    ensures r.Some? ==> r.value + 3 <= |s| && s[r.value..r.value + 3] == CDATA_END
  {
    if |s| < 3 then None
    else if s[..3] == CDATA_END then Some(0)
    else match FindEnd(s[1..])
      case None => None
      case Some(k) => assert s[k + 1..k + 4] == s[1..][k..k + 3]; Some(k + 1)
  }

  /** The contents of the sections: every end mark in the data is moved out of them. */
  function Segments(data: string): string
    decreases |data|
  {
    match FindEnd(data)
    case None => data
    case Some(k) => data[..k] + (CDATA_SPLIT + Segments(data[k + 3..]))
  }

  function CDataText(data: string): string {
    CDATA_START + Segments(data) + CDATA_END
  }

  /** With the segments of the rest, `goal` will have been written. */
  ghost predicate Lacks(stream: string, rest: string, goal: string) {
    stream + Segments(rest) == goal
  }

  lemma {:induction false} AtFirstSection(stream0: string, text: string)
    ensures Lacks(stream0 + CDATA_START, text[0..], stream0 + CDATA_START + Segments(text))
  {
    assert text[0..] == text;
  }

  /** Up to the first end mark, and from behind it on. */
  lemma {:induction false} NextSection(stream: string, text: string, segment: nat, k: nat, goal: string)
    requires segment <= |text| && FindEnd(text[segment..]) == Some(k) && Lacks(stream, text[segment..], goal)
    ensures segment + k + 3 <= |text|
    ensures Lacks(stream + text[segment..segment + k] + CDATA_SPLIT, text[segment + k + 3..], goal)
  {
    var rest := text[segment..];
    assert rest[..k] == text[segment..segment + k] && rest[k + 3..] == text[segment + k + 3..];
    Regroup3(stream, rest[..k], CDATA_SPLIT, Segments(rest[k + 3..]));
  }

  lemma {:induction false} LastSection(stream: string, rest: string, goal: string)
    requires FindEnd(rest) == None && Lacks(stream, rest, goal)
    ensures stream + rest == goal
  {
  }

  lemma {:induction false} Sections(stream0: string, text: string)
    ensures stream0 + CDATA_START + Segments(text) + CDATA_END == stream0 + CDataText(text)
  {
    var a, b, c := CDATA_START, Segments(text), CDATA_END;
    assert stream0 + a + b + c == stream0 + (a + b + c);
  }

  /** `OutputXmlCDataSection`: appends to the stream. The data is what `strstr` and `<<` see of it. */
  method OutputXmlCDataSection(stream0: string, data: string) returns (stream: string)
    ensures stream == stream0 + CDataText(CString(data))
  {
    hide *;
    var text := CString(data);
    ghost var goal := stream0 + CDATA_START + Segments(text);
    var segment := 0;
    stream := stream0 + CDATA_START;
    AtFirstSection(stream0, text);
    while true
      invariant 0 <= segment <= |text|
      invariant Lacks(stream, text[segment..], goal)
      decreases |text| - segment
    {
      match FindEnd(text[segment..]) {
        case None =>
          LastSection(stream, text[segment..], goal);
          stream := stream + text[segment..];
          break;
        case Some(k) =>
          NextSection(stream, text, segment, k, goal);
          stream := stream + text[segment..segment + k];
          stream := stream + CDATA_SPLIT;
          segment := segment + k + 3;
      }
    }
    Sections(stream0, text);
    stream := stream + CDATA_END;
  }

  lemma {:induction false} Regroup3(a: string, b: string, c: string, d: string)
    ensures a + (b + (c + d)) == a + b + c + d
  {
  }

  // ----- Reading, by sections 2.4, 2.7, 3.3.3 and 4.1 of XML 1.0 -----

  /** The character and the length of a reference, without its ampersand. */
  function Reference(s: string): Option<(char, nat)> {
    if "lt;" <= s then Some(('<', 3))
    else if "gt;" <= s then Some(('>', 3))
    else if "amp;" <= s then Some(('&', 4))
    else if "apos;" <= s then Some(('\'', 5))
    else if "quot;" <= s then Some(('"', 5))
    else if "#x" <= s then
      var k := HexRun(s[2..]);
      if k == 0 || 2 + k >= |s| || s[2 + k] != ';' || HexValue(s[2..][..k]) >= 0x80 then None
      else Some((HexValue(s[2..][..k]) as char, 3 + k))
    else None
  }

  function ConsChar(c: char, r: Option<string>): Option<string> {
    PrependText([c], r)
  }

  function PrependText(t: string, r: Option<string>): Option<string> {
    match r
    case None => None
    case Some(s) => Some(t + s)
  }

  /** The value of an attribute between double quotes, with literal white space normalised to spaces. */
  function ReadAttribute(s: string): Option<string>
    decreases |s|
  {
    if s == "" then Some("")
    else if s[0] == '&' then
      match Reference(s[1..])
      case None => None
      case Some((c, n)) => if 1 + n <= |s| then ConsChar(c, ReadAttribute(s[1 + n..])) else None
    else if s[0] == '<' || s[0] == '"' then None
    else ConsChar(if IsNormalizableWhitespace(s[0]) then ' ' else s[0], ReadAttribute(s[1..]))
  }

  /** The character data of an element without child elements. */
  function ReadContent(s: string): Option<string>
    decreases |s|
  {
    if s == "" then Some("")
    else if CDATA_START <= s then
      match FindEnd(s[9..])
      case None => None
      case Some(k) => PrependText(s[9..][..k], ReadContent(s[9 + k + 3..]))
    else if s[0] == '&' then
      match Reference(s[1..])
      case None => None
      case Some((c, n)) => if 1 + n <= |s| then ConsChar(c, ReadContent(s[1 + n..])) else None
    else if s[0] == '<' || CDATA_END <= s then None
    else ConsChar(s[0], ReadContent(s[1..]))
  }

  // ----- Escaped text reads back -----

  /** A character that is not a raw markup delimiter: neither an angle bracket nor, in an attribute, a quote or white space. */
  predicate IsClean(c: char, isAttribute: bool) {
    c != '<' && c != '>' && (isAttribute ==> c != '"' && c != '\'' && !IsNormalizableWhitespace(c))
  }

  lemma {:induction false} EscapedCharIsClean(c: char, isAttribute: bool, signed: bool)
    ensures forall x | x in EscapedChar(c, isAttribute, signed) :: IsClean(x, isAttribute)
  {
    if IsNormalizableWhitespace(c) {
      assert FormatByte(c) == if c == '\t' then "09" else if c == '\n' then "0A" else "0D";
    }
  }

  /** No markup delimiter is left raw. */
  lemma {:induction false} NoRawMarkup(s: string, isAttribute: bool, signed: bool)
    ensures forall x | x in Escaped(s, isAttribute, signed) :: IsClean(x, isAttribute)
    decreases |s|
  {
    if s != "" {
      EscapedCharIsClean(s[0], isAttribute, signed);
      NoRawMarkup(s[1..], isAttribute, signed);
    }
  }

  lemma {:induction false} PrependNothing(r: Option<string>)
    ensures PrependText("", r) == r
  {
    assert r.Some? ==> "" + r.value == r.value;
  }

  lemma {:induction false} NamedReferences(t: string)
    ensures Reference("lt;" + t) == Some(('<', 3)) && Reference("gt;" + t) == Some(('>', 3))
    ensures Reference("amp;" + t) == Some(('&', 4)) && Reference("apos;" + t) == Some(('\'', 5))
    ensures Reference("quot;" + t) == Some(('"', 5))
  {
    assert ("gt;" + t)[0] == 'g' && ("amp;" + t)[0] == 'a' && ("apos;" + t)[0] == 'a' && ("quot;" + t)[0] == 'q';
    assert ("apos;" + t)[1] == 'p';
    assert "lt;"[0] == 'l' && "gt;"[0] == 'g' && "amp;"[1] == 'm' && "amp;"[0] == "apos;"[0] == 'a';
  }

  lemma {:induction false} NumericReference(c: char, t: string)
    requires c as int < 0x80
    ensures Reference("#x" + FormatByte(c) + ";" + t) == Some((c, 5))
  {
    var h := FormatByte(c);
    var s := "#x" + h + ";" + t;
    assert s[2..] == h + (";" + t);
    HexRunEnds(h, ";" + t);
    assert s[2..][..2] == h;
    assert h[..1] == [h[0]] && h[..1][..0] == "";
    assert HexValue(h[..1]) == c as int / 16;
    assert HexValue(h) == c as int;
  }

  lemma {:induction false} ReadReference(name: string, c: char, t: string)
    requires name != "" && Reference(name + t) == Some((c, |name|))
    ensures ReadContent("&" + name + t) == ConsChar(c, ReadContent(t))
    ensures ReadAttribute("&" + name + t) == ConsChar(c, ReadAttribute(t))
  {
    var s := "&" + name + t;
    assert s[1..] == name + t;
    assert s[1 + |name|..] == t;
    assert s[0] == '&' && CDATA_START[0] == '<';
  }

  lemma {:induction false} EndMarkHasBracket(s: string)
    ensures CDATA_END <= s ==> |s| >= 3 && s[0] == ']' && s[1] == ']' && s[2] == '>'
    ensures |s| >= 3 && s[..3] == CDATA_END ==> s[0] == ']' && s[1] == ']' && s[2] == '>'
  {
    if |s| >= 3 && s[..3] == CDATA_END {
      assert s[..3][0] == s[0] && s[..3][1] == s[1] && s[..3][2] == s[2];
    }
  }

  /** A character that is written as it is reads as itself. */
  lemma {:induction false} ReadRaw(c: char, t: string)
    requires c !in "<>&" && '>' !in t
    ensures ReadContent([c] + t) == ConsChar(c, ReadContent(t))
    ensures c != '"' ==> ReadAttribute([c] + t) == ConsChar(if IsNormalizableWhitespace(c) then ' ' else c, ReadAttribute(t))
  {
    var s := [c] + t;
    assert s[1..] == t;
    EndMarkHasBracket(s);
    assert |t| >= 2 ==> s[2] == t[1];
    assert CDATA_START[0] == '<';
  }

  /** The name of the reference that a character is always written as. */
  function NameOf(c: char, isAttribute: bool): string {
    if c == '<' then "lt;"
    else if c == '>' then "gt;"
    else if c == '&' then "amp;"
    else if isAttribute && c == '\'' then "apos;"
    else if isAttribute && c == '"' then "quot;"
    else ""
  }

  lemma {:induction false} EscapedByName(c: char, isAttribute: bool, signed: bool)
    requires NameOf(c, isAttribute) != ""
    ensures EscapedChar(c, isAttribute, signed) == "&" + NameOf(c, isAttribute) && IsValidXmlCharacter(c, signed)
  {
  }

  lemma {:induction false} ReadByName(c: char, t: string, isAttribute: bool)
    requires NameOf(c, isAttribute) != ""
    ensures ReadContent("&" + NameOf(c, isAttribute) + t) == ConsChar(c, ReadContent(t))
    ensures ReadAttribute("&" + NameOf(c, isAttribute) + t) == ConsChar(c, ReadAttribute(t))
  {
    NamedReferences(t);
    ReadReference(NameOf(c, isAttribute), c, t);
  }

  /** A character that is written as it is, as a numeric reference, or not at all. */
  lemma {:induction false} ReadUnnamed(c: char, t: string, isAttribute: bool, signed: bool)
    requires NameOf(c, isAttribute) == "" && '>' !in t
    ensures var x := if IsValidXmlCharacter(c, signed) then [c] else "";
            if isAttribute then ReadAttribute(EscapedChar(c, true, signed) + t) == PrependText(x, ReadAttribute(t))
            else ReadContent(EscapedChar(c, false, signed) + t) == PrependText(x, ReadContent(t))
  {
    if !IsValidXmlCharacter(c, signed) {
      assert EscapedChar(c, isAttribute, signed) + t == t;
      PrependNothing(ReadAttribute(t));
      PrependNothing(ReadContent(t));
    } else if isAttribute && IsNormalizableWhitespace(c) {
      ReadWhitespace(c, t);
    } else {
      ReadRaw(c, t);
    }
  }

  /** One escaped character, followed by escaped text, reads as the character, or as nothing if it is invalid. */
  lemma {:induction false} ReadEscapedChar(c: char, t: string, isAttribute: bool, signed: bool)
    requires '>' !in t
    ensures var x := if IsValidXmlCharacter(c, signed) then [c] else "";
            if isAttribute then ReadAttribute(EscapedChar(c, true, signed) + t) == PrependText(x, ReadAttribute(t))
            else ReadContent(EscapedChar(c, false, signed) + t) == PrependText(x, ReadContent(t))
  {
    if NameOf(c, isAttribute) != "" {
      EscapedByName(c, isAttribute, signed);
      ReadByName(c, t, isAttribute);
    } else {
      ReadUnnamed(c, t, isAttribute, signed);
    }
  }

  lemma {:induction false} ReadWhitespace(c: char, t: string)
    requires c as int < 0x80
    ensures ReadAttribute("&#x" + FormatByte(c) + ";" + t) == ConsChar(c, ReadAttribute(t))
  {
    var name := "#x" + FormatByte(c) + ";";
    NumericReference(c, t);
    assert "&#x" + FormatByte(c) + ";" + t == "&" + name + t;
    assert "#x" + FormatByte(c) + ";" + t == name + t;
    ReadReference(name, c, t);
  }

  /** Escaped text reads back as the text without its invalid characters, as an attribute value and as content. */
  lemma {:induction false} ReadEscaped(s: string, isAttribute: bool, signed: bool)
    ensures (if isAttribute then ReadAttribute(Escaped(s, true, signed)) else ReadContent(Escaped(s, false, signed)))
         == Some(ValidPart(s, signed))
    decreases |s|
  {
    if s != "" {
      ReadEscaped(s[1..], isAttribute, signed);
      NoRawMarkup(s[1..], isAttribute, signed);
      ReadEscapedChar(s[0], Escaped(s[1..], isAttribute, signed), isAttribute, signed);
    }
  }

  // ----- CDATA sections read back -----

  /** The end mark found is the first one. */
  lemma {:induction false} FindEndIsFirst(s: string, i: nat)
    requires i + 3 <= |s| && (FindEnd(s).Some? ==> i < FindEnd(s).value)
    ensures s[i..i + 3] != CDATA_END
    decreases |s|
  {
    if i > 0 {
      FindEndIsFirst(s[1..], i - 1);
      assert s[1..][i - 1..i + 2] == s[i..i + 3];
    }
  }

  /** Data without an end mark, closed by one, ends there and not earlier: runs of ']' at its end make no difference. */
  lemma {:induction false} FindEndAppended(s: string, t: string)
    requires FindEnd(s).None?
    ensures FindEnd(s + (CDATA_END + t)) == Some(|s|)
    decreases |s|
  {
    var all := s + (CDATA_END + t);
    if s == "" {
      assert all[..3] == CDATA_END;
    } else {
      assert all[1..] == s[1..] + (CDATA_END + t);
      FindEndAppended(s[1..], t);
      NoEndAtStart(s, t);
    }
  }

  lemma {:induction false} NoEndAtStart(s: string, t: string)
    requires s != "" && FindEnd(s).None?
    ensures var all := s + (CDATA_END + t); |all| >= 3 && all[..3] != CDATA_END
  {
    var all := s + (CDATA_END + t);
    EndMarkHasBracket(all);
    if |s| >= 3 {
      assert all[..3] == s[..3];
    } else {
      assert all[2] == CDATA_END[2 - |s|];
    }
  }

  lemma {:induction false} NoEndStep(s: string, x: string)
    requires x != "" && FindEnd(x[1..]).None?
    requires |x| >= 3 ==> |s| >= 3 && x[..3] == s[..3] != CDATA_END
    ensures FindEnd(x).None?
  {
  }

  lemma {:induction false} EndIsLater(s: string, k: nat)
    requires FindEnd(s) == Some(k) && k > 0
    ensures |s| >= 3 && s[..3] != CDATA_END && FindEnd(s[1..]) == Some(k - 1)
  {
  }

  lemma {:induction false} NoEndBefore(s: string, k: nat)
    requires FindEnd(s) == Some(k)
    ensures FindEnd(s[..k]).None?
    decreases |s|
  {
    if k > 0 {
      EndIsLater(s, k);
      NoEndBefore(s[1..], k - 1);
      assert s[..k][1..] == s[1..][..k - 1];
      assert k >= 3 ==> s[..k][..3] == s[..3];
      NoEndStep(s, s[..k]);
    }
  }

  lemma {:induction false} ReadSectionAt(s: string, a: string, t: string)
    requires CDATA_START <= s && FindEnd(s[9..]) == Some(|a|) && s[9..][..|a|] == a && s[9 + |a| + 3..] == t
    ensures ReadContent(s) == PrependText(a, ReadContent(t))
  {
  }

  lemma {:induction false} SectionParts(data: string, t: string)
    ensures var s := CDATA_START + (data + (CDATA_END + t));
            && CDATA_START <= s && s[9..] == data + (CDATA_END + t)
            && s[9..][..|data|] == data && |s| >= 9 + |data| + 3 && s[9 + |data| + 3..] == t
  {
  }

  lemma {:induction false} ReadSection(data: string, t: string)
    requires FindEnd(data).None?
    ensures ReadContent(CDATA_START + (data + (CDATA_END + t))) == PrependText(data, ReadContent(t))
  {
    hide *;
    SectionParts(data, t);
    FindEndAppended(data, t);
    ReadSectionAt(CDATA_START + (data + (CDATA_END + t)), data, t);
  }

  /** Between two sections the end mark is read back from two brackets and a reference. */
  lemma {:induction false} ReadSplit(t: string)
    ensures ReadContent("]]&gt;" + t) == PrependText(CDATA_END, ReadContent(t))
  {
    var s2 := "&" + "gt;" + t;
    NamedReferences(t);
    ReadReference("gt;", '>', t);
    ReadTwoBrackets(s2, t, ReadContent(t));
  }

  lemma {:induction false} ReadTwoBrackets(s: string, t: string, r: Option<string>)
    requires s == "&gt;" + t && ReadContent(s) == PrependText(">", r)
    ensures ReadContent("]]&gt;" + t) == PrependText(CDATA_END, r)
  {
    hide *;
    TwoBracketsText(s, t);
    ReadBracket(s);
    ReadBracket("]" + s);
    PrependTextTwice("]", ">", r);
    PrependTextTwice("]", "]>", r);
  }

  lemma {:induction false} TwoBracketsText(s: string, t: string)
    requires s == "&gt;" + t
    ensures "]]&gt;" + t == "]" + ("]" + s) && s[1] != '>' && ("]" + s)[1] != '>'
    ensures "]" + "]>" == CDATA_END && "]" + ">" == "]>"
  {
  }

  /** A bracket that does not start an end mark reads as itself. */
  lemma {:induction false} ReadBracket(t: string)
    requires |t| >= 2 ==> t[1] != '>'
    ensures ReadContent("]" + t) == PrependText("]", ReadContent(t))
  {
    var s := "]" + t;
    assert s[1..] == t;
    EndMarkHasBracket(s);
    assert |t| >= 2 ==> s[2] == t[1];
    assert s[0] == ']' && CDATA_START[0] == '<';
  }

  lemma {:induction false} PrependTextTwice(a: string, b: string, r: Option<string>)
    ensures PrependText(a, PrependText(b, r)) == PrependText(a + b, r)
  {
    if r.Some? {
      assert a + (b + r.value) == (a + b) + r.value;
    }
  }

  /** The sections written for any data read back as exactly that data, whatever follows them. */
  lemma {:induction false} ReadCData(data: string, t: string)
    ensures ReadContent(CDataText(data) + t) == PrependText(data, ReadContent(t))
    decreases |data|
  {
    match FindEnd(data)
    case None =>
      assert CDataText(data) + t == CDATA_START + (data + (CDATA_END + t));
      ReadSection(data, t);
    case Some(k) =>
      ReadCData(data[k + 3..], t);
      ReadSplitData(data, k, t);
  }

  lemma {:induction false} ReadSplitData(data: string, k: nat, t: string)
    requires FindEnd(data) == Some(k)
    requires ReadContent(CDataText(data[k + 3..]) + t) == PrependText(data[k + 3..], ReadContent(t))
    ensures ReadContent(CDataText(data) + t) == PrependText(data, ReadContent(t))
  {
    var a, rest := data[..k], data[k + 3..];
    NoEndBefore(data, k);
    SplitText(data, k, t);
    ReadSection(a, "]]&gt;" + (CDataText(rest) + t));
    ReadSplit(CDataText(rest) + t);
    PrependParts(data, k, ReadContent(t));
  }

  lemma {:induction false} PrependParts(data: string, k: nat, r: Option<string>)
    requires FindEnd(data) == Some(k)
    ensures PrependText(data[..k], PrependText(CDATA_END, PrependText(data[k + 3..], r))) == PrependText(data, r)
  {
    PrependTextTwice(CDATA_END, data[k + 3..], r);
    PrependTextTwice(data[..k], CDATA_END + data[k + 3..], r);
    assert data == data[..k] + (CDATA_END + data[k + 3..]);
  }

  lemma {:induction false} SplitText(data: string, k: nat, t: string)
    requires FindEnd(data) == Some(k)
    ensures CDataText(data) + t
         == CDATA_START + (data[..k] + (CDATA_END + ("]]&gt;" + (CDataText(data[k + 3..]) + t))))
  {
    assert CDATA_SPLIT == CDATA_END + ("]]&gt;" + CDATA_START);
    RegroupMany(CDATA_START, data[..k], CDATA_END, "]]&gt;", Segments(data[k + 3..]), t);
  }

  lemma {:induction false} RegroupMany(a: string, b: string, c: string, d: string, e: string, f: string)
    ensures a + (b + ((c + (d + a)) + e)) + c + f == a + (b + (c + (d + ((a + e + c) + f))))
  {
  }

  lemma {:induction false} ValidPartIsNulFree(s: string, signed: bool)
    ensures NulFree(ValidPart(s, signed))
    decreases |s|
  {
    if s != "" {
      ValidPartIsNulFree(s[1..], signed);
    }
  }

  /**
   * What the report writes for a failure message reads back as the message without its invalid characters: no NUL
   * among them cuts it short.
   */
  lemma {:induction false} ReportedDetail(detail: string, signed: bool)
    ensures ReadContent(CDataText(CString(ValidPart(detail, signed)))) == Some(ValidPart(detail, signed))
  {
    var text := ValidPart(detail, signed);
    ValidPartIsNulFree(detail, signed);
    ReadCData(text, "");
    assert CDataText(text) + "" == CDataText(text) && text + "" == text;
  }

  /**
   * The report keeps a text as it is exactly when all its characters are valid; where plain chars are signed, a text
   * with any byte of 0x80 or above is not kept.
   */
  lemma {:induction false} KeptIff(s: string, signed: bool)
    ensures ValidPart(s, signed) == s <==> forall i | 0 <= i < |s| :: IsValidXmlCharacter(s[i], signed)
    ensures |ValidPart(s, signed)| <= |s|
    decreases |s|
  {
    if s != "" {
      KeptIff(s[1..], signed);
      assert forall i | 0 <= i < |s| - 1 :: s[1..][i] == s[i + 1];
      var first := if IsValidXmlCharacter(s[0], signed) then [s[0]] else "";
      assert ValidPart(s, signed) == first + ValidPart(s[1..], signed);
      if ValidPart(s, signed) == s {
        assert first != "";
        assert s[1..] == (first + ValidPart(s[1..], signed))[1..] == ValidPart(s[1..], signed);
      }
    }
  }
}
