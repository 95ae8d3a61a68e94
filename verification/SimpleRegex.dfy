/** The simple regular expressions of the test framework: validator, backtracking matcher, and full-match patterns. */
module SimpleRegex {
  import opened Common

  // ----- Character classes -----

  predicate IsInSet(ch: char, s: string) {
    ch != '\0' && ch in s
  }

  const PUNCTUATION := "^-!\"#$%&'()*+,./:;<=>?@[\\]_`{|}~"
  const FORM_FEED := '\U{0C}'
  const VERTICAL_TAB := '\U{0B}'

  predicate IsAsciiDigit(ch: char) { '0' <= ch <= '9' }
  predicate IsAsciiPunct(ch: char) { IsInSet(ch, PUNCTUATION) }
  predicate IsRepeat(ch: char) { IsInSet(ch, "?*+") }
  predicate IsAsciiWhiteSpace(ch: char) { IsInSet(ch, [' ', FORM_FEED, '\n', '\r', '\t', VERTICAL_TAB]) }
  predicate IsAsciiWordChar(ch: char) { 'a' <= ch <= 'z' || 'A' <= ch <= 'Z' || '0' <= ch <= '9' || ch == '_' }
  predicate IsValidEscape(c: char) { IsAsciiPunct(c) || IsInSet(c, "dDfnrsStvwW") }

  predicate AtomMatchesChar(escaped: bool, patternChar: char, ch: char) {
    if escaped then
      match patternChar
      case 'd' => IsAsciiDigit(ch)
      case 'D' => !IsAsciiDigit(ch)
      case 'f' => ch == FORM_FEED
      case 'n' => ch == '\n'
      case 'r' => ch == '\r'
      case 's' => IsAsciiWhiteSpace(ch)
      case 'S' => !IsAsciiWhiteSpace(ch)
      case 't' => ch == '\t'
      case 'v' => ch == VERTICAL_TAB
      case 'w' => IsAsciiWordChar(ch)
      case 'W' => !IsAsciiWordChar(ch)
      case _ => IsAsciiPunct(patternChar) && patternChar == ch
    else
      (patternChar == '.' && ch != '\n') || patternChar == ch
  }

  // ----- What the atoms match, character by character -----

  const DIGITS := "0123456789"
  const LOWER := "abcdefghijklmnopqrstuvwxyz"
  const UPPER := "ABCDEFGHIJKLMNOPQRSTUVWXYZ"

  lemma {:induction false} InDigits(ch: char)
    ensures '0' <= ch <= '9' <==> ch in DIGITS
  {
    if '0' <= ch <= '9' {
      assert DIGITS[ch as int - '0' as int] == ch;
    }
  }

  lemma {:induction false} InLower(ch: char)
    ensures 'a' <= ch <= 'z' <==> ch in LOWER
  {
    if 'a' <= ch <= 'z' {
      assert LOWER[ch as int - 'a' as int] == ch;
    }
  }

  lemma {:induction false} InUpper(ch: char)
    ensures 'A' <= ch <= 'Z' <==> ch in UPPER
  {
    if 'A' <= ch <= 'Z' {
      assert UPPER[ch as int - 'A' as int] == ch;
    }
  }

  /** The classes, and their complements. */
  lemma {:induction false} ClassAtoms(ch: char)
    ensures AtomMatchesChar(true, 'd', ch) <==> ch in DIGITS
    ensures AtomMatchesChar(true, 'D', ch) <==> ch !in DIGITS
    ensures AtomMatchesChar(true, 'w', ch) <==> ch in LOWER || ch in UPPER || ch in DIGITS || ch == '_'
    ensures AtomMatchesChar(true, 'W', ch) <==> ch !in LOWER && ch !in UPPER && ch !in DIGITS && ch != '_'
    ensures AtomMatchesChar(true, 's', ch) <==> ch in {' ', '\t', '\n', '\U{0B}', '\U{0C}', '\r'}
    ensures AtomMatchesChar(true, 'S', ch) <==> ch !in {' ', '\t', '\n', '\U{0B}', '\U{0C}', '\r'}
  {
    InDigits(ch);
    InLower(ch);
    InUpper(ch);
    var spaces := [' ', FORM_FEED, '\n', '\r', '\t', VERTICAL_TAB];
    assert spaces[0] == ' ' && spaces[1] == '\U{0C}' && spaces[2] == '\n' && spaces[3] == '\r' && spaces[4] == '\t';
    assert spaces[5] == '\U{0B}';
  }

  /** The ASCII punctuation characters. */
  predicate IsPunctuationCode(n: int) {
    0x21 <= n <= 0x2F || 0x3A <= n <= 0x40 || 0x5B <= n <= 0x60 || 0x7B <= n <= 0x7E
  }

  /** The other escapes stand for one character each: a control character, or a punctuation character for itself. */
  lemma {:induction false} SingleAtoms(c: char, ch: char)
    ensures AtomMatchesChar(true, 'f', ch) <==> ch == '\U{0C}'
    ensures AtomMatchesChar(true, 'n', ch) <==> ch == '\U{0A}'
    ensures AtomMatchesChar(true, 'r', ch) <==> ch == '\U{0D}'
    ensures AtomMatchesChar(true, 't', ch) <==> ch == '\U{09}'
    ensures AtomMatchesChar(true, 'v', ch) <==> ch == '\U{0B}'
    ensures IsPunctuationCode(c as int) ==> (AtomMatchesChar(true, c, ch) <==> ch == c)
  {
    PunctuationCodes(c);
  }

  /** Without a backslash, a dot is any character but a newline, and any other character is itself. */
  lemma {:induction false} PlainAtoms(c: char, ch: char)
    ensures AtomMatchesChar(false, '.', ch) <==> ch != '\U{0A}'
    ensures c != '.' ==> (AtomMatchesChar(false, c, ch) <==> ch == c)
  {
  }

  /** What may follow a backslash; nothing else is matched as an escape. */
  lemma {:induction false} Escapes(c: char, ch: char)
    ensures IsValidEscape(c)
       <==> IsPunctuationCode(c as int) || c in {'d', 'D', 'w', 'W', 's', 'S', 'f', 'n', 'r', 't', 'v'}
    ensures !IsValidEscape(c) ==> !AtomMatchesChar(true, c, ch)
  {
    PunctuationCodes(c);
    EscapeLetters(c);
  }

  lemma {:induction false} EscapeLetters(c: char)
    ensures IsInSet(c, "dDfnrsStvwW") <==> c in {'d', 'D', 'w', 'W', 's', 'S', 'f', 'n', 'r', 't', 'v'}
  {
    var s := "dDfnrsStvwW";
    assert s[0] == 'd' && s[1] == 'D' && s[2] == 'f' && s[3] == 'n' && s[4] == 'r' && s[5] == 's' && s[6] == 'S';
    assert s[7] == 't' && s[8] == 'v' && s[9] == 'w' && s[10] == 'W';
  }

  /** Where a punctuation character stands in the list. */
  function PunctuationIndex(n: int): int
    requires IsPunctuationCode(n)
  {
    if n == '^' as int then 0 else if n == '-' as int then 1
    else if n <= 0x2C then n - 0x21 + 2
    else if n <= 0x2F then n - 0x2E + 14
    else if n <= 0x40 then n - 0x3A + 16
    else if n <= 0x5D then n - 0x5B + 23
    else if n <= 0x60 then n - 0x5F + 26
    else n - 0x7B + 28
  }

  lemma {:induction false} PunctuationIsListed(c: char)
    requires IsPunctuationCode(c as int)
    ensures c in PUNCTUATION
  {
    var i := PunctuationIndex(c as int);
    assert 0 <= i < |PUNCTUATION| && PUNCTUATION[i] == c;
  }

  lemma {:induction false} ListedIsPunctuation(c: char)
    requires c in PUNCTUATION
    ensures IsPunctuationCode(c as int)
  {
  }

  lemma {:induction false} PunctuationCodes(c: char)
    ensures IsAsciiPunct(c) <==> IsPunctuationCode(c as int)
  {
    hide PUNCTUATION, PunctuationIndex;
    if IsPunctuationCode(c as int) {
      PunctuationIsListed(c);
    }
    if c in PUNCTUATION {
      ListedIsPunctuation(c);
    }
  }

  // ----- Syntax -----

  datatype Atom = Atom(escaped: bool, c: char)

  datatype Item = Once(atom: Atom) | ZeroOrOne(atom: Atom) | ZeroOrMore(atom: Atom) | OneOrMore(atom: Atom)

  /** `start` and `end` are the anchors `^` and `$`. */
  datatype Regex = Regex(start: bool, items: seq<Item>, end: bool)

  predicate WellFormedAtom(a: Atom) {
    if a.escaped then IsValidEscape(a.c) else a.c != '\0' && a.c !in "\\^$?*+()[]{}|"
  }

  predicate WellFormed(items: seq<Item>) {
    forall i | 0 <= i < |items| :: WellFormedAtom(items[i].atom)
  }

  function AtomText(a: Atom): string {
    if a.escaped then ['\\', a.c] else [a.c]
  }

  function RepeatText(item: Item): string {
    match item
    case Once(_) => ""
    case ZeroOrOne(_) => "?"
    case ZeroOrMore(_) => "*"
    case OneOrMore(_) => "+"
  }

  function ItemText(item: Item): string {
    AtomText(item.atom) + RepeatText(item)
  }

  function TailText(items: seq<Item>, end: bool): string {
    if items == [] then (if end then "$" else "") else ItemText(items[0]) + TailText(items[1..], end)
  }

  function Text(r: Regex): string {
    (if r.start then "^" else "") + TailText(r.items, r.end)
  }

  /** `regex` is the text of the expression `r`. */
  predicate Spells(r: Regex, regex: string) {
    WellFormed(r.items) && Text(r) == regex
  }

  /** The characters that stand for themselves in an expression, or for any character if it is the dot. */
  lemma {:induction false} PlainCharacters(c: char)
    ensures WellFormedAtom(Atom(false, c))
       <==> c as int !in {0x00, 0x24, 0x28, 0x29, 0x2A, 0x2B, 0x3F, 0x5B, 0x5C, 0x5D, 0x5E, 0x7B, 0x7C, 0x7D}
  {
    var s := "\\^$?*+()[]{}|";
    assert s[0] == '\\' && s[1] == '^' && s[2] == '$' && s[3] == '?' && s[4] == '*' && s[5] == '+' && s[6] == '(';
    assert s[7] == ')' && s[8] == '[' && s[9] == ']' && s[10] == '{' && s[11] == '}' && s[12] == '|';
  }

  /** How the items are written. */
  lemma {:induction false} ItemTexts(c: char)
    ensures ItemText(Once(Atom(false, c))) == [c] && ItemText(Once(Atom(true, c))) == ['\\', c]
    ensures ItemText(ZeroOrOne(Atom(false, c))) == [c, '?'] && ItemText(ZeroOrOne(Atom(true, c))) == ['\\', c, '?']
    ensures ItemText(ZeroOrMore(Atom(false, c))) == [c, '*'] && ItemText(ZeroOrMore(Atom(true, c))) == ['\\', c, '*']
    ensures ItemText(OneOrMore(Atom(false, c))) == [c, '+'] && ItemText(OneOrMore(Atom(true, c))) == ['\\', c, '+']
  {
  }

  // ----- Meaning -----

  predicate AllMatch(a: Atom, w: string) {
    forall i | 0 <= i < |w| :: AtomMatchesChar(a.escaped, a.c, w[i])
  }

  /** The words an item stands for. */
  predicate ItemLanguage(item: Item, w: string) {
    AllMatch(item.atom, w)
    && match item
       case Once(_) => |w| == 1
       case ZeroOrOne(_) => |w| <= 1
       case ZeroOrMore(_) => true
       case OneOrMore(_) => |w| >= 1
  }

  /** The words a sequence of items stands for: concatenations of words of the items. */
  predicate Language(items: seq<Item>, w: string) {
    if items == [] then w == ""
    else exists i | 0 <= i <= |w| :: ItemLanguage(items[0], w[..i]) && Language(items[1..], w[i..])
  }

  /** Some prefix of `str` is in the language; all of it, if the expression ends in `$`. */
  predicate MatchesHead(items: seq<Item>, end: bool, str: string) {
    exists k | 0 <= k <= |str| :: Language(items, str[..k]) && (end ==> k == |str|)
  }

  /** Some substring of `str` that respects the anchors is in the language. */
  predicate MatchesAnywhere(r: Regex, str: string) {
    exists i, j | 0 <= i <= j <= |str| :: (r.start ==> i == 0) && (r.end ==> j == |str|) && Language(r.items, str[i..j])
  }

  lemma {:induction false} Slices(s: string, i: nat, j: nat)
    requires i <= j <= |s|
    ensures s[..j][..i] == s[..i] && s[..j][i..] == s[i..][..j - i] == s[i..j]
  {
  }

  lemma {:induction false} HeadOfCons(items: seq<Item>, end: bool, str: string)
    requires items != []
    ensures MatchesHead(items, end, str)
       <==> exists i | 0 <= i <= |str| :: ItemLanguage(items[0], str[..i]) && MatchesHead(items[1..], end, str[i..])
  {
    if k :| 0 <= k <= |str| && Language(items, str[..k]) && (end ==> k == |str|) {
      var i :| 0 <= i <= k && ItemLanguage(items[0], str[..k][..i]) && Language(items[1..], str[..k][i..]);
      Slices(str, i, k);
    }
    if i :| 0 <= i <= |str| && ItemLanguage(items[0], str[..i]) && MatchesHead(items[1..], end, str[i..]) {
      var k :| 0 <= k <= |str[i..]| && Language(items[1..], str[i..][..k]) && (end ==> k == |str[i..]|);
      Slices(str, i, i + k);
      assert Language(items, str[..i + k]);
    }
  }

  // ----- The laws of the items -----

  lemma {:induction false} LanguageOfCons(item: Item, rest: seq<Item>, w: string)
    ensures Language([item] + rest, w)
       <==> exists i | 0 <= i <= |w| :: ItemLanguage(item, w[..i]) && Language(rest, w[i..])
  {
    assert ([item] + rest)[1..] == rest;
  }

  predicate StartsWith(a: Atom, w: string) {
    w != "" && AtomMatchesChar(a.escaped, a.c, w[0])
  }

  /** An atom takes one character. */
  lemma {:induction false} OnceLaw(a: Atom, rest: seq<Item>, w: string)
    ensures Language([Once(a)] + rest, w) <==> StartsWith(a, w) && Language(rest, w[1..])
  {
    LanguageOfCons(Once(a), rest, w);
    if StartsWith(a, w) && Language(rest, w[1..]) {
      assert ItemLanguage(Once(a), w[..1]);
    }
  }

  /** `a?` takes nothing, or is `a`. */
  lemma {:induction false} ZeroOrOneLaw(a: Atom, rest: seq<Item>, w: string)
    ensures Language([ZeroOrOne(a)] + rest, w) <==> Language(rest, w) || Language([Once(a)] + rest, w)
  {
    LanguageOfCons(ZeroOrOne(a), rest, w);
    LanguageOfCons(Once(a), rest, w);
    assert w[0..] == w;
    if i :| 0 <= i <= |w| && ItemLanguage(ZeroOrOne(a), w[..i]) && Language(rest, w[i..]) {
      assert i > 0 ==> ItemLanguage(Once(a), w[..i]);
    }
    if Language(rest, w) {
      assert ItemLanguage(ZeroOrOne(a), w[..0]) && Language(rest, w[0..]);
    }
    if i :| 0 <= i <= |w| && ItemLanguage(Once(a), w[..i]) && Language(rest, w[i..]) {
      assert ItemLanguage(ZeroOrOne(a), w[..i]);
    }
  }

  lemma {:induction false} TakeOne(a: Atom, w: string, i: nat)
    requires 0 < i <= |w|
    ensures ItemLanguage(OneOrMore(a), w[..i]) <==> StartsWith(a, w) && ItemLanguage(ZeroOrMore(a), w[1..][..i - 1])
    ensures w[i..] == w[1..][i - 1..]
  {
    var v, u := w[..i], w[1..][..i - 1];
    assert v == [w[0]] + u;
    if AllMatch(a, v) {
      assert AtomMatchesChar(a.escaped, a.c, v[0]);
      assert forall k | 0 <= k < |u| :: u[k] == v[k + 1];
    }
  }

  lemma {:induction false} MoreStarts(a: Atom, rest: seq<Item>, w: string)
    requires Language([OneOrMore(a)] + rest, w)
    ensures StartsWith(a, w) && Language([ZeroOrMore(a)] + rest, w[1..])
  {
    hide Language, AllMatch;
    LanguageOfCons(OneOrMore(a), rest, w);
    var i :| 0 <= i <= |w| && ItemLanguage(OneOrMore(a), w[..i]) && Language(rest, w[i..]);
    TakeOne(a, w, i);
    LanguageOfCons(ZeroOrMore(a), rest, w[1..]);
  }

  lemma {:induction false} MoreFollows(a: Atom, rest: seq<Item>, w: string)
    requires StartsWith(a, w) && Language([ZeroOrMore(a)] + rest, w[1..])
    ensures Language([OneOrMore(a)] + rest, w)
  {
    hide Language, AllMatch;
    LanguageOfCons(ZeroOrMore(a), rest, w[1..]);
    var i :| 0 <= i <= |w[1..]| && ItemLanguage(ZeroOrMore(a), w[1..][..i]) && Language(rest, w[1..][i..]);
    TakeOne(a, w, i + 1);
    LanguageOfCons(OneOrMore(a), rest, w);
  }

  /** `a+` is `aa*`. */
  lemma {:induction false} OneOrMoreLaw(a: Atom, rest: seq<Item>, w: string)
    ensures Language([OneOrMore(a)] + rest, w) <==> StartsWith(a, w) && Language([ZeroOrMore(a)] + rest, w[1..])
  {
    if Language([OneOrMore(a)] + rest, w) {
      MoreStarts(a, rest, w);
    }
    if StartsWith(a, w) && Language([ZeroOrMore(a)] + rest, w[1..]) {
      MoreFollows(a, rest, w);
    }
  }

  /** `a*` takes nothing, or is `aa*`. */
  lemma {:induction false} ZeroOrMoreLaw(a: Atom, rest: seq<Item>, w: string)
    ensures Language([ZeroOrMore(a)] + rest, w) <==> Language(rest, w) || Language([OneOrMore(a)] + rest, w)
  {
    LanguageOfCons(ZeroOrMore(a), rest, w);
    LanguageOfCons(OneOrMore(a), rest, w);
    assert w[0..] == w;
    if i :| 0 <= i <= |w| && ItemLanguage(ZeroOrMore(a), w[..i]) && Language(rest, w[i..]) {
      assert i > 0 ==> ItemLanguage(OneOrMore(a), w[..i]);
    }
    if Language(rest, w) {
      assert ItemLanguage(ZeroOrMore(a), w[..0]) && Language(rest, w[0..]);
    }
    if i :| 0 <= i <= |w| && ItemLanguage(OneOrMore(a), w[..i]) && Language(rest, w[i..]) {
      assert ItemLanguage(ZeroOrMore(a), w[..i]);
    }
  }

  /** What the anchors demand: all of the string, a prefix, a suffix. */
  lemma {:induction false} AnchorLaws(items: seq<Item>, str: string)
    ensures MatchesAnywhere(Regex(true, items, true), str) <==> Language(items, str)
    ensures MatchesAnywhere(Regex(true, items, false), str) <==> exists j | 0 <= j <= |str| :: Language(items, str[..j])
    ensures MatchesAnywhere(Regex(false, items, true), str) <==> exists i | 0 <= i <= |str| :: Language(items, str[i..])
  {
    hide Language;
    assert str[0..|str|] == str;
    forall k | 0 <= k <= |str|
      ensures str[0..k] == str[..k] && str[k..|str|] == str[k..]
    {
    }
  }

  lemma {:induction false} AnywhereIsHeadSomewhere(r: Regex, str: string)
    ensures MatchesAnywhere(r, str)
       <==> exists i | 0 <= i <= |str| && (r.start ==> i == 0) :: MatchesHead(r.items, r.end, str[i..])
  {
    if i, j :| 0 <= i <= j <= |str| && (r.start ==> i == 0) && (r.end ==> j == |str|) && Language(r.items, str[i..j]) {
      Slices(str, i, j);
      assert MatchesHead(r.items, r.end, str[i..]);
    }
    if i :| 0 <= i <= |str| && (r.start ==> i == 0) && MatchesHead(r.items, r.end, str[i..]) {
      var k :| 0 <= k <= |str[i..]| && Language(r.items, str[i..][..k]) && (r.end ==> k == |str[i..]|);
      Slices(str, i, i + k);
    }
  }

  // ----- The validator -----

  /** No error is found from here on; `first` says that this is the beginning of the expression. */
  predicate TailValid(first: bool, prevRepeatable: bool, t: string)
    decreases |t|
  {
    if t == "" then true
    else if t[0] == '\\' then |t| >= 2 && IsValidEscape(t[1]) && TailValid(false, true, t[2..])
    else
      && !(t[0] == '^' && !first)
      && !(t[0] == '$' && |t| > 1)
      && !IsInSet(t[0], "()[]{}|")
      && !(IsRepeat(t[0]) && !prevRepeatable)
      && TailValid(false, !IsInSet(t[0], "^$?*+"), t[1..])
  }

  /** `ValidateRegex` on a string that is not null; the error messages are not modelled. */
  method ValidateRegex(regex: string) returns (valid: bool)
    requires NulFree(regex)
    ensures valid <==> TailValid(true, false, regex)
  {
    valid := true;
    var prevRepeatable := false;
    var i := 0;
    while At(regex, i) != '\0'
      invariant 0 <= i <= |regex|
      invariant valid && TailValid(i == 0, prevRepeatable, regex[i..]) <==> TailValid(true, false, regex)
      decreases |regex| - i
    {
      ghost var t := regex[i..];
      if At(regex, i) == '\\' {
        i := i + 1;
        if At(regex, i) == '\0' {
          return false;
        }
        if !IsValidEscape(At(regex, i)) {
          valid := false;
        }
        prevRepeatable := true;
        assert t[2..] == regex[i + 1..];
      } else {
        var ch := At(regex, i);
        if ch == '^' && i > 0 {
          valid := false;
        } else if ch == '$' && At(regex, i + 1) != '\0' {
          valid := false;
        } else if IsInSet(ch, "()[]{}|") {
          valid := false;
        } else if IsRepeat(ch) && !prevRepeatable {
          valid := false;
        }
        prevRepeatable := !IsInSet(ch, "^$?*+");
        assert t[1..] == regex[i + 1..];
      }
      i := i + 1;
    }
  }

  /** What the validator accepts after an anchor-free start is the text of some items. */
  lemma {:induction false} ValidTailSpells(t: string) returns (items: seq<Item>, end: bool)
    requires NulFree(t) && TailValid(false, false, t)
    ensures WellFormed(items) && TailText(items, end) == t
    decreases |t|
  {
    if t == "" {
      items, end := [], false;
    } else if t == "$" {
      items, end := [], true;
    } else {
      var item, m := FirstItem(t);
      var rest;
      rest, end := ValidTailSpells(t[m..]);
      items := ConsSpells(item, rest, end, t, m);
    }
  }

  lemma {:induction false} FirstItem(t: string) returns (item: Item, m: nat)
    requires TailValid(false, false, t) && t != "" && t != "$" && NulFree(t)
    ensures 0 < m <= |t| && ItemText(item) == t[..m] && WellFormedAtom(item.atom) && TailValid(false, false, t[m..])
  {
    var a := if t[0] == '\\' then Atom(true, t[1]) else Atom(false, t[0]);
    var n := |AtomText(a)|;
    assert AtomText(a) == t[..n];
    item, m := Once(a), n;
    assert t[0] == '$' ==> t == "$";
    if n < |t| && IsRepeat(t[n]) {
      item := if t[n] == '?' then ZeroOrOne(a) else if t[n] == '*' then ZeroOrMore(a) else OneOrMore(a);
      m := n + 1;
      assert t[n..][1..] == t[m..];
    }
  }

  lemma {:induction false} ConsSpells(item: Item, items: seq<Item>, end: bool, t: string, m: nat)
    returns (all: seq<Item>)
    requires WellFormedAtom(item.atom) && WellFormed(items)
    requires m <= |t| && ItemText(item) == t[..m] && TailText(items, end) == t[m..]
    ensures WellFormed(all) && TailText(all, end) == t
  {
    all := [item] + items;
    assert all[1..] == items && t == t[..m] + t[m..];
  }

  /** The text of items is accepted, wherever it starts. */
  lemma {:induction false} SpelledTailValid(items: seq<Item>, end: bool, first: bool)
    requires WellFormed(items)
    ensures TailValid(first, false, TailText(items, end))
    decreases |items|
  {
    if items == [] {
      EndValid(end, first);
    } else {
      var rest := TailText(items[1..], end);
      SpelledTailValid(items[1..], end, false);
      TailStart(items[1..], end);
      RepeatThenTail(items[0], rest);
      AtomThenTail(first, items[0].atom, RepeatText(items[0]) + rest);
      Regroup(AtomText(items[0].atom), RepeatText(items[0]), rest);
    }
  }

  lemma {:induction false} Regroup(a: string, b: string, c: string)
    ensures a + b + c == a + (b + c)
  {
  }

  lemma {:induction false} EndValid(end: bool, first: bool)
    ensures TailValid(first, false, if end then "$" else "")
  {
    assert "$"[1..] == "";
  }

  lemma {:induction false} AtomThenTail(first: bool, a: Atom, rest: string)
    requires WellFormedAtom(a) && TailValid(false, true, rest)
    ensures TailValid(first, false, AtomText(a) + rest)
  {
    assert (AtomText(a) + rest)[|AtomText(a)|..] == rest;
  }

  lemma {:induction false} RepeatThenTail(item: Item, rest: string)
    requires TailValid(false, false, rest) && (rest != "" ==> !IsRepeat(rest[0]))
    ensures TailValid(false, true, RepeatText(item) + rest)
  {
    if item.Once? {
      assert RepeatText(item) + rest == rest;
    } else {
      assert (RepeatText(item) + rest)[1..] == rest;
    }
  }

  /** After an item comes no repetition character, so a longer reading of the item is not possible. */
  lemma {:induction false} TailStart(items: seq<Item>, end: bool)
    requires WellFormed(items)
    ensures var t := TailText(items, end); t != "" ==> !IsRepeat(t[0]) && t[0] != '\0' && t[0] != '^'
  {
    if items != [] {
      assert TailText(items, end)[0] == AtomText(items[0].atom)[0];
    }
  }

  /** The validator accepts exactly the texts of well-formed expressions. */
  lemma {:induction false} ValidSpells(regex: string) returns (r: Regex)
    requires NulFree(regex) && TailValid(true, false, regex)
    ensures Spells(r, regex)
  {
    if regex != "" && regex[0] == '^' {
      var items, end := ValidTailSpells(regex[1..]);
      assert regex == "^" + regex[1..];
      r := Regex(true, items, end);
    } else {
      assert TailValid(false, false, regex);
      var items, end := ValidTailSpells(regex);
      assert "" + regex == regex;
      r := Regex(false, items, end);
    }
  }

  lemma {:induction false} SpelledIsValid(r: Regex, regex: string)
    requires Spells(r, regex)
    ensures TailValid(true, false, regex)
  {
    var t := TailText(r.items, r.end);
    if r.start {
      SpelledTailValid(r.items, r.end, false);
      assert regex[1..] == t;
    } else {
      SpelledTailValid(r.items, r.end, true);
      assert regex == t;
    }
  }

  lemma {:induction false} ValidIffSpelled(regex: string)
    requires NulFree(regex)
    ensures TailValid(true, false, regex) <==> exists r :: Spells(r, regex)
  {
    if TailValid(true, false, regex) {
      var r := ValidSpells(regex);
    }
    if r :| Spells(r, regex) {
      SpelledIsValid(r, regex);
    }
  }

  // ----- The matcher -----

  /** Lengths a `size_t` can index: `static_cast<size_t>(-1) - 1`. */
  const MAX_COUNT: nat := 0xFFFF_FFFF_FFFF_FFFE

  function RepeatItem(a: Atom, repeat: char): Item
    requires IsRepeat(repeat)
  {
    if repeat == '?' then ZeroOrOne(a) else if repeat == '*' then ZeroOrMore(a) else OneOrMore(a)
  }

  /** `MatchRepetitionAndRegexAtHead`: `regex` is what follows the repeated atom. */
  method MatchRepetitionAndRegexAtHead(escaped: bool, c: char, repeat: char, regex: string, str: string,
                                       ghost items: seq<Item>, ghost end: bool)
    returns (matched: bool)
    requires IsRepeat(repeat) && NulFree(str) && |str| <= MAX_COUNT
    requires WellFormed(items) && TailText(items, end) == regex
    ensures matched <==> exists i | 0 <= i <= |str| ::
              ItemLanguage(RepeatItem(Atom(escaped, c), repeat), str[..i]) && MatchesHead(items, end, str[i..])
    decreases |regex|, 1
  {
    ghost var item := RepeatItem(Atom(escaped, c), repeat);
    var minCount := if repeat == '+' then 1 else 0;
    var maxCount := if repeat == '?' then 1 else MAX_COUNT;
    var i := 0;
    while i <= maxCount
      invariant 0 <= i <= |str| && AllMatch(Atom(escaped, c), str[..i])
      invariant forall j | 0 <= j < i :: !(ItemLanguage(item, str[..j]) && MatchesHead(items, end, str[j..]))
      decreases maxCount + 1 - i
    {
      if i >= minCount {
        var tail := MatchRegexAtHead(regex, str[i..], items, end);
        if tail {
          return true;
        }
      }
      if At(str, i) == '\0' || !AtomMatchesChar(escaped, c, At(str, i)) {
        NoLongerMatch(item, str, i);
        return false;
      }
      i := i + 1;
    }
    return false;
  }

  /** Once a character does not match the atom, no longer prefix is a word of the repeated atom. */
  lemma {:induction false} NoLongerMatch(item: Item, str: string, i: nat)
    requires i <= |str| && (i < |str| ==> !AtomMatchesChar(item.atom.escaped, item.atom.c, str[i]))
    ensures forall j | i < j <= |str| :: !ItemLanguage(item, str[..j])
  {
    forall j | i < j <= |str|
      ensures !ItemLanguage(item, str[..j])
    {
      assert str[..j][i] == str[i];
    }
  }

  /** `MatchRegexAtHead` on the text of items, with an optional end anchor. */
  method MatchRegexAtHead(regex: string, str: string, ghost items: seq<Item>, ghost end: bool) returns (matched: bool)
    requires NulFree(str) && |str| <= MAX_COUNT
    requires WellFormed(items) && TailText(items, end) == regex
    ensures matched <==> MatchesHead(items, end, str)
    decreases |regex|, 0
  {
    if At(regex, 0) == '\0' {
      EmptyText(items, end);
      assert str[..0] == "";
      return true;
    }
    if At(regex, 0) == '$' {
      DollarText(items, end);
      assert str[..|str|] == str;
      return At(str, 0) == '\0';
    }
    SplitItem(items, end);
    var escaped := At(regex, 0) == '\\';
    var p := if escaped then 1 else 0;
    HeadOfCons(items, end, str);
    if IsRepeat(At(regex, p + 1)) {
      matched := MatchRepetitionAndRegexAtHead(escaped, At(regex, p), At(regex, p + 1), regex[p + 2..], str, items[1..], end);
    } else {
      OnceAtHead(items[0].atom, items[1..], end, str);
      matched := At(str, 0) != '\0' && AtomMatchesChar(escaped, At(regex, p), At(str, 0));
      if matched {
        matched := MatchRegexAtHead(regex[p + 1..], str[1..], items[1..], end);
      }
    }
  }

  lemma {:induction false} EmptyText(items: seq<Item>, end: bool)
    requires WellFormed(items) && (TailText(items, end) == "" || TailText(items, end)[0] == '\0')
    ensures items == [] && !end
  {
    if items != [] {
      TextStart(items, end);
    }
  }

  lemma {:induction false} DollarText(items: seq<Item>, end: bool)
    requires WellFormed(items) && TailText(items, end) != "" && TailText(items, end)[0] == '$'
    ensures items == [] && end
  {
    if items != [] {
      TextStart(items, end);
    }
  }

  lemma {:induction false} TextStart(items: seq<Item>, end: bool)
    requires items != []
    ensures TailText(items, end) != "" && TailText(items, end)[0] == AtomText(items[0].atom)[0]
  {
  }

  /** How the first item shows in the text. */
  lemma {:induction false} TakeApart(a: string, b: string, c: string, t: string)
    requires t == a + b + c
    ensures t[|a|..] == b + c && t[|a| + |b|..] == c && (b == "" ==> b + c == c)
    ensures forall i | 0 <= i < |a| :: t[i] == a[i]
    ensures forall i | 0 <= i < |b| :: t[|a| + i] == b[i]
  {
  }

  lemma {:induction false} SplitItem(items: seq<Item>, end: bool)
    requires WellFormed(items) && TailText(items, end) != "" && TailText(items, end)[0] != '$'
    ensures items != []
    ensures var t, a := TailText(items, end), items[0].atom;
            var p := if a.escaped then 1 else 0;
            && |t| >= p + 1 && (t[0] == '\\' <==> a.escaped) && t[p] == a.c
            && (IsRepeat(At(t, p + 1)) <==> !items[0].Once?)
            && (items[0].Once? ==> t[p + 1..] == TailText(items[1..], end))
            && (!items[0].Once? ==> items[0] == RepeatItem(a, t[p + 1]) && t[p + 2..] == TailText(items[1..], end))
  {
    var t, a, rep, rest := TailText(items, end), items[0].atom, RepeatText(items[0]), TailText(items[1..], end);
    TailStart(items[1..], end);
    TakeApart(AtomText(a), rep, rest, t);
    assert a.escaped ==> AtomText(a)[0] == '\\' && AtomText(a)[1] == a.c;
    assert !a.escaped ==> AtomText(a)[0] == a.c;
  }

  lemma {:induction false} OnceAtHead(a: Atom, items: seq<Item>, end: bool, str: string)
    ensures (exists i | 0 <= i <= |str| :: ItemLanguage(Once(a), str[..i]) && MatchesHead(items, end, str[i..]))
       <==> str != "" && AtomMatchesChar(a.escaped, a.c, str[0]) && MatchesHead(items, end, str[1..])
  {
    if str != "" {
      assert str[..1] == [str[0]];
      assert ItemLanguage(Once(a), str[..1]) <==> AtomMatchesChar(a.escaped, a.c, str[0]);
    }
  }

  /** `MatchRegexAnywhere` on strings that are not null. */
  method MatchRegexAnywhere(regex: string, str: string, ghost r: Regex) returns (matched: bool)
    requires NulFree(str) && |str| <= MAX_COUNT && Spells(r, regex)
    ensures matched <==> MatchesAnywhere(r, str)
  {
    AnywhereIsHeadSomewhere(r, str);
    AnchorShows(r);
    if At(regex, 0) == '^' {
      matched := MatchRegexAtHead(regex[1..], str, r.items, r.end);
      assert str[0..] == str;
      return;
    }
    var i := 0;
    while true
      invariant 0 <= i <= |str|
      invariant forall j | 0 <= j < i :: !MatchesHead(r.items, r.end, str[j..])
      decreases |str| - i
    {
      var here := MatchRegexAtHead(regex, str[i..], r.items, r.end);
      if here {
        return true;
      }
      if At(str, i) == '\0' {
        return false;
      }
      i := i + 1;
    }
  }

  lemma {:induction false} AnchorShows(r: Regex)
    requires WellFormed(r.items)
    ensures r.start <==> At(Text(r), 0) == '^'
    ensures r.start ==> Text(r)[1..] == TailText(r.items, r.end)
    ensures !r.start ==> Text(r) == TailText(r.items, r.end)
  {
    TailStart(r.items, r.end);
  }

  // ----- The RE class -----

  lemma {:induction false} EndAnchorIsLast(items: seq<Item>)
    ensures TailText(items, true) == TailText(items, false) + "$"
    decreases |items|
  {
    if items != [] {
      EndAnchorIsLast(items[1..]);
    }
  }

  predicate EndsIn(s: string, c: char) {
    s != "" && s[|s| - 1] == c
  }

  lemma {:induction false} ItemEnd(item: Item)
    requires WellFormedAtom(item.atom)
    ensures ItemText(item) != "" && (EndsIn(ItemText(item), '$') <==> item == Once(Atom(true, '$')))
  {
  }

  predicate EndsEscaped(items: seq<Item>) {
    items != [] && items[|items| - 1] == Once(Atom(true, '$'))
  }

  lemma {:induction false} SameEnd(a: string, s: string, c: char)
    requires s != ""
    ensures EndsIn(a + s, c) <==> EndsIn(s, c)
  {
  }

  lemma {:induction false} OneItemEnd(items: seq<Item>)
    requires WellFormed(items) && |items| == 1
    ensures TailText(items, false) != "" && (EndsIn(TailText(items, false), '$') <==> EndsEscaped(items))
  {
    assert TailText(items[1..], false) == "";
    assert TailText(items, false) == ItemText(items[0]);
    ItemEnd(items[0]);
  }

  lemma {:induction false} MoreItemsEnd(items: seq<Item>)
    requires WellFormed(items) && |items| > 1
    ensures WellFormed(items[1..]) && EndsEscaped(items) == EndsEscaped(items[1..])
    ensures TailText(items, false) == ItemText(items[0]) + TailText(items[1..], false)
  {
  }

  lemma {:induction false} NotEmpty(a: string, s: string)
    requires s != ""
    ensures a + s != ""
  {
  }

  /** Without an end anchor the text ends in a dollar exactly when its last item is an escaped dollar. */
  lemma {:induction false} LastCharacter(items: seq<Item>)
    requires WellFormed(items) && items != []
    ensures TailText(items, false) != "" && (EndsIn(TailText(items, false), '$') <==> EndsEscaped(items))
    decreases |items|
  {
    hide *;
    if |items| == 1 {
      OneItemEnd(items);
    } else {
      MoreItemsEnd(items);
      LastCharacter(items[1..]);
      SameEnd(ItemText(items[0]), TailText(items[1..], false), '$');
      NotEmpty(ItemText(items[0]), TailText(items[1..], false));
    }
  }

  /** What `Init` builds from the text of `r` is the text of `FullRegex(r)`. */
  lemma {:induction false} FullPatternSpells(r: Regex, regex: string)
    requires Spells(r, regex)
    ensures Spells(FullRegex(r), FullText(regex))
  {
    var t := TailText(r.items, r.end);
    var pre := if regex != "" && regex[0] == '^' then "" else "^";
    var post := if regex == "" || regex[|regex| - 1] != '$' then "$" else "";
    StartOfFull(r, regex, t);
    EndShows(r, regex, t);
    EndOfFull(r, t);
    assert FullText(regex) == pre + regex + post;
    Regroup("^", t, post);
  }

  lemma {:induction false} EndShows(r: Regex, regex: string, t: string)
    requires WellFormed(r.items) && t == TailText(r.items, r.end) && regex == if r.start then "^" + t else t
    ensures regex == "" || regex[|regex| - 1] != '$' <==> !(r.end || EndsInEscapedDollar(r))
  {
    EndOfText(r.items, r.end);
    if r.start && t != "" {
      SameEnd("^", t, '$');
    }
  }

  lemma {:induction false} EndOfFull(r: Regex, t: string)
    requires t == TailText(r.items, r.end)
    ensures TailText(r.items, !EndsInEscapedDollar(r)) == t + if r.end || EndsInEscapedDollar(r) then "" else "$"
  {
    EndAnchorIsLast(r.items);
    assert t + "" == t;
  }

  lemma {:induction false} StartOfFull(r: Regex, regex: string, t: string)
    requires Spells(r, regex) && t == TailText(r.items, r.end)
    ensures (if regex != "" && regex[0] == '^' then "" else "^") + regex == "^" + t
    ensures regex == if r.start then "^" + t else t
  {
    AnchorShows(r);
    assert "" + regex == regex && "" + t == t;
  }

  /** A text with an end anchor ends in a dollar. */
  lemma {:induction false} AnchoredEnd(items: seq<Item>)
    ensures EndsIn(TailText(items, true), '$')
  {
    EndAnchorIsLast(items);
    var s := TailText(items, false);
    assert (s + "$")[|s|] == '$';
  }

  lemma {:induction false} EndOfText(items: seq<Item>, end: bool)
    requires WellFormed(items)
    ensures EndsIn(TailText(items, end), '$') <==> end || EndsEscaped(items)
  {
    if end {
      AnchoredEnd(items);
    } else if items != [] {
      LastCharacter(items);
    }
  }

  function FullText(regex: string): string {
    (if regex != "" && regex[0] == '^' then "" else "^") + regex
    + (if regex == "" || regex[|regex| - 1] != '$' then "$" else "")
  }

  /** The text ends in an escaped dollar, so that `Init` takes it for an end anchor. */
  predicate EndsInEscapedDollar(r: Regex) {
    !r.end && EndsEscaped(r.items)
  }

  /** The expression whose text `Init` builds for full matches. */
  function FullRegex(r: Regex): Regex {
    Regex(true, r.items, !EndsInEscapedDollar(r))
  }

  class RE {
    var pattern: Option<string>
    var fullPattern: Option<string>
    var isValid: bool

    ghost predicate Valid()
      reads this
    {
      && (isValid <==> pattern.Some? && exists r :: Spells(r, pattern.value))
      && (isValid ==> fullPattern == Some(FullText(pattern.value)))
    }

    /** `RE::Init`; `None` stands for a null pointer. */
    constructor Init(regex: Option<string>)
      requires regex.Some? ==> NulFree(regex.value)
      ensures Valid() && pattern == regex
    {
      pattern, fullPattern := regex, None;
      isValid := false;
      new;
      if regex.Some? {
        isValid := ValidateRegex(regex.value);
        ValidIffSpelled(regex.value);
        if isValid {
          var full := FullPattern(regex.value);
          fullPattern := Some(full);
        }
      }
    }

    /**
     * `RE::FullMatch`: whether the whole string is a word of the expression, except that an expression ending in
     * an escaped dollar gets no end anchor, and then a prefix of the string is enough.
     */
    method FullMatch(str: string) returns (matched: bool)
      requires Valid() && NulFree(str) && |str| <= MAX_COUNT
      ensures matched ==> isValid
      ensures forall r | isValid && Spells(r, pattern.value) :: matched <==> MatchesFully(r, str)
    {
      matched := false;
      if isValid {
        ghost var r :| Spells(r, pattern.value);
        FullPatternSpells(r, pattern.value);
        matched := MatchRegexAnywhere(fullPattern.value, str, FullRegex(r));
        forall s | Spells(s, pattern.value)
          ensures s == r
        {
          SpellingIsUnique(r, s);
        }
        FullRegexMeans(r, str);
      }
    }

    /** `RE::PartialMatch`: whether some substring is a word of the expression. */
    method PartialMatch(str: string) returns (matched: bool)
      requires Valid() && NulFree(str) && |str| <= MAX_COUNT
      ensures matched ==> isValid
      ensures forall r | isValid && Spells(r, pattern.value) :: matched <==> MatchesAnywhere(r, str)
    {
      matched := false;
      if isValid {
        ghost var r :| Spells(r, pattern.value);
        matched := MatchRegexAnywhere(pattern.value, str, r);
        forall s | Spells(s, pattern.value)
          ensures s == r
        {
          SpellingIsUnique(r, s);
        }
      }
    }
  }

  predicate MatchesFully(r: Regex, str: string) {
    if EndsInEscapedDollar(r) then exists k | 0 <= k <= |str| :: Language(r.items, str[..k])
    else Language(r.items, str)
  }

  lemma {:induction false} FullRegexMeans(r: Regex, str: string)
    ensures MatchesAnywhere(FullRegex(r), str) <==> MatchesFully(r, str)
  {
    AnywhereIsHeadSomewhere(FullRegex(r), str);
    assert str[0..] == str && str[..|str|] == str;
  }

  /** A text is the text of one expression only. */
  lemma {:induction false} SpellingIsUnique(r: Regex, s: Regex)
    requires WellFormed(r.items) && WellFormed(s.items) && Text(r) == Text(s)
    ensures r == s
  {
    AnchorShows(r);
    AnchorShows(s);
    TailIsUnique(r.items, r.end, s.items, s.end);
  }

  lemma {:induction false} TailIsUnique(a: seq<Item>, aEnd: bool, b: seq<Item>, bEnd: bool)
    requires WellFormed(a) && WellFormed(b) && TailText(a, aEnd) == TailText(b, bEnd)
    ensures a == b && aEnd == bEnd
    decreases |a|
  {
    var t := TailText(a, aEnd);
    if t == "" {
      EmptyText(a, aEnd);
      EmptyText(b, bEnd);
    } else if t[0] == '$' {
      DollarText(a, aEnd);
      DollarText(b, bEnd);
    } else {
      SplitItem(a, aEnd);
      SplitItem(b, bEnd);
      TailIsUnique(a[1..], aEnd, b[1..], bEnd);
      assert a == [a[0]] + a[1..] && b == [b[0]] + b[1..];
    }
  }

  // ----- When a full match means the whole string -----

  /** A character the atom matches. */
  function Witness(a: Atom): char {
    if a.escaped then
      match a.c
      case 'd' => '0'
      case 'D' => 'a'
      case 'f' => FORM_FEED
      case 'n' => '\n'
      case 'r' => '\r'
      case 's' => ' '
      case 'S' => 'a'
      case 't' => '\t'
      case 'v' => VERTICAL_TAB
      case 'w' => 'a'
      case 'W' => ' '
      case _ => a.c
    else a.c
  }

  lemma {:induction false} WitnessMatches(a: Atom)
    requires WellFormedAtom(a)
    ensures AtomMatchesChar(a.escaped, a.c, Witness(a)) && Witness(a) != '\0'
  {
  }

  /** Every expression matches some string. */
  lemma {:induction false} LanguageIsInhabited(items: seq<Item>) returns (w: string)
    requires WellFormed(items)
    ensures Language(items, w) && NulFree(w) && |w| <= |items|
    decreases |items|
  {
    w := "";
    if items != [] {
      w := LanguageIsInhabited(items[1..]);
      WitnessMatches(items[0].atom);
      var head := [Witness(items[0].atom)];
      assert (head + w)[..1] == head && (head + w)[1..] == w;
      assert ItemLanguage(items[0], head);
      w := head + w;
    }
  }

  /** A word of an expression that ends in an escaped dollar ends in a dollar. */
  lemma {:induction false} WordEndsInDollar(items: seq<Item>, w: string)
    requires EndsEscaped(items) && Language(items, w)
    ensures EndsIn(w, '$')
    decreases |items|
  {
    var i :| 0 <= i <= |w| && ItemLanguage(items[0], w[..i]) && Language(items[1..], w[i..]);
    if |items| == 1 {
      assert w[..i][0] == w[0];
    } else {
      WordEndsInDollar(items[1..], w[i..]);
      assert w == w[..i] + w[i..];
      SameEnd(w[..i], w[i..], '$');
    }
  }

  /** A full match means that the whole string is a word exactly for expressions not ending in an escaped dollar. */
  lemma {:induction false} FullMatchIsWholeMatchIff(r: Regex)
    requires WellFormed(r.items) && |r.items| < MAX_COUNT
    ensures (forall str | NulFree(str) && |str| <= MAX_COUNT :: MatchesFully(r, str) <==> Language(r.items, str))
       <==> !EndsInEscapedDollar(r)
  {
    if EndsInEscapedDollar(r) {
      var str := PrefixMatch(r);
      assert !(MatchesFully(r, str) <==> Language(r.items, str));
    }
  }

  /** No end anchor: whatever follows a word is let through. */
  lemma {:induction false} MatchesMore(r: Regex, w: string, more: string)
    requires EndsInEscapedDollar(r) && Language(r.items, w)
    ensures MatchesFully(r, w + more)
  {
    assert (w + more)[..|w|] == w;
  }

  lemma {:induction false} PrefixMatch(r: Regex) returns (str: string)
    requires WellFormed(r.items) && |r.items| < MAX_COUNT && EndsInEscapedDollar(r)
    ensures NulFree(str) && |str| <= MAX_COUNT && MatchesFully(r, str) && !Language(r.items, str)
  {
    var w := LanguageIsInhabited(r.items);
    MatchesMore(r, w, "x");
    SameEnd(w, "x", '$');
    str := w + "x";
    if Language(r.items, str) {
      WordEndsInDollar(r.items, str);
    }
  }

  /** For example, the expression `\$` is taken to match all of the string `$x`. */
  lemma {:induction false} EscapedDollarCounterexample()
    ensures var r := Regex(false, [Once(Atom(true, '$'))], false);
            Spells(r, "\\$") && MatchesFully(r, "$x") && !Language(r.items, "$x")
  {
    var r := Regex(false, [Once(Atom(true, '$'))], false);
    assert TailText(r.items[1..], false) == "";
    assert Text(r) == "" + (("\\$" + "") + "");
    assert "$x"[..1] == "$" && "$"[..1] == "$" && "$"[1..] == "";
    assert ItemLanguage(r.items[0], "$") && Language(r.items[1..], "");
    assert Language(r.items, "$");
    if Language(r.items, "$x") {
      WordEndsInDollar(r.items, "$x");
    }
  }

  /** The buffer `Init` fills: room for the pattern, two anchors and the terminator. */
  method FullPattern(regex: string) returns (full: string)
    requires NulFree(regex)
    ensures full == FullText(regex)
  {
    var len := |regex|;
    var buffer := new char[len + 3];
    var n := 0;
    if At(regex, 0) != '^' {
      buffer[n] := '^';
      n := n + 1;
    }
    ghost var start := buffer[..n];
    forall i | 0 <= i < len {
      buffer[n + i] := regex[i];
    }
    assert buffer[..n + len] == start + regex;
    n := n + len;
    if len == 0 || regex[len - 1] != '$' {
      buffer[n] := '$';
      n := n + 1;
    }
    buffer[n] := '\0';
    full := buffer[..n];
  }
}
