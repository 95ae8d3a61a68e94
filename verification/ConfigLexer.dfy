/** The character-level lexer: `NginxConfigParser::ParseToken` over a stream with one character of push-back. */
module ConfigLexer {
  import opened ConfigSyntax

  datatype TokenType =
    | TypeStart | TypeNormal | TypeStartBlock | TypeEndBlock
    | TypeComment | TypeStatementEnd | TypeEof | TypeError

  datatype LexState = InitialWhitespace | InSingleQuote | InDoubleQuote | InComment | InNormal

  datatype Lexed = Lexed(kind: TokenType, value: string, rest: string)

  /** The part of an input stream the lexer relies on: characters left, and whether a read has failed. */
  class InputStream {
    const text: string
    var pos: nat
    var good: bool

    constructor (text: string)
      ensures Valid() && good && pos == 0 && this.text == text
      ensures Remaining() == text
    {
      this.text := text;
      pos := 0;
      good := true;
    }

    ghost predicate Valid()
      reads this
    {
      pos <= |text|
    }

    /** What is left to read; nothing once a read has failed. */
    ghost function Remaining(): string
      reads this
      requires Valid()
    {
      if good then text[pos..] else ""
    }

    method Get() returns (c: char)
      requires Valid()
      modifies this
      ensures Valid()
      ensures old(Remaining()) == "" ==> !good && pos == old(pos)
      ensures old(Remaining()) != "" ==>
                good && pos == old(pos) + 1 && c == old(Remaining())[0] && Remaining() == old(Remaining())[1..]
    {
      c := '\0';
      if good && pos < |text| {
        c := text[pos];
        pos := pos + 1;
      } else {
        good := false;
      }
    }

    method Unget()
      requires Valid() && good && pos > 0
      modifies this
      ensures Valid() && good && pos == old(pos) - 1
      ensures Remaining() == [text[pos]] + old(Remaining())
    {
      pos := pos - 1;
    }
  }

  /** The lexer as a function of its state, the text left and the value gathered so far. */
  function Lex(state: LexState, s: string, value: string): (r: Lexed)
    ensures |r.rest| <= |s|
    ensures r.kind != TypeEof && r.kind != TypeError && (state == InNormal ==> s != "" && !EndsBareWord(s[0]))
            ==> |r.rest| < |s|
    decreases |s|
  {
    if s == "" then
      Lexed(if state == InSingleQuote || state == InDoubleQuote then TypeError else TypeEof, value, "")
    else
      var c, rest := s[0], s[1..];
      match state
      case InitialWhitespace =>
        if c == '{' then Lexed(TypeStartBlock, [c], rest)
        else if c == '}' then Lexed(TypeEndBlock, [c], rest)
        else if c == '#' then Lex(InComment, rest, [c])
        else if c == '"' then Lex(InDoubleQuote, rest, [c])
        else if c == '\'' then Lex(InSingleQuote, rest, [c])
        else if c == ';' then Lexed(TypeStatementEnd, [c], rest)
        else if IsSpace(c) then Lex(InitialWhitespace, rest, value)
        else Lex(InNormal, rest, value + [c])
      case InSingleQuote =>
        if c == '\'' then Lexed(TypeNormal, value + [c], rest) else Lex(InSingleQuote, rest, value + [c])
      case InDoubleQuote =>
        if c == '"' then Lexed(TypeNormal, value + [c], rest) else Lex(InDoubleQuote, rest, value + [c])
      case InComment =>
        if c == '\n' || c == '\r' then Lexed(TypeComment, value, rest) else Lex(InComment, rest, value + [c])
      case InNormal =>
        if EndsBareWord(c) then Lexed(TypeNormal, value, s) else Lex(InNormal, rest, value + [c])
  }

  /** `ParseToken`: `value0` is the content of `*value` on entry, `value` the content on return. */
  method ParseToken(input: InputStream, value0: string) returns (kind: TokenType, value: string)
    requires input.Valid()
    modifies input
    ensures input.Valid()
    ensures Lexed(kind, value, input.Remaining()) == Lex(InitialWhitespace, old(input.Remaining()), value0)
  {
    var state := InitialWhitespace;
    value := value0;
    while input.good
      invariant input.Valid()
      invariant Lex(state, input.Remaining(), value) == Lex(InitialWhitespace, old(input.Remaining()), value0)
      decreases |input.Remaining()|, input.good
    {
      ghost var before := input.Remaining();
      var c := input.Get();
      if !input.good {
        break;
      }
      match state {
        case InitialWhitespace =>
          if c == '{' {
            return TypeStartBlock, [c];
          } else if c == '}' {
            return TypeEndBlock, [c];
          } else if c == '#' {
            value, state := [c], InComment;
          } else if c == '"' {
            value, state := [c], InDoubleQuote;
          } else if c == '\'' {
            value, state := [c], InSingleQuote;
          } else if c == ';' {
            return TypeStatementEnd, [c];
          } else if c == ' ' || c == '\t' || c == '\n' || c == '\r' {
          } else {
            value, state := value + [c], InNormal;
          }
        case InSingleQuote =>
          value := value + [c];
          if c == '\'' {
            return TypeNormal, value;
          }
        case InDoubleQuote =>
          value := value + [c];
          if c == '"' {
            return TypeNormal, value;
          }
        case InComment =>
          if c == '\n' || c == '\r' {
            return TypeComment, value;
          }
          value := value + [c];
        case InNormal =>
          if c == ' ' || c == '\t' || c == '\n' || c == ';' || c == '{' || c == '}' {
            input.Unget();
            return TypeNormal, value;
          }
          value := value + [c];
      }
    }
    if state == InSingleQuote || state == InDoubleQuote {
      return TypeError, value;
    }
    return TypeEof, value;
  }

  // ----- What the lexer means, independently of its states -----

  /** `value` followed by `tail` is a lexeme of the given kind; `end` is a character consumed but not kept. */
  predicate Lexeme(kind: TokenType, value: string, end: string, tail: string) {
    match kind
    case TypeNormal =>
      end == "" && (IsQuotedWord(value) || (IsBareWord(value) && tail != "" && EndsBareWord(tail[0])))
    case TypeStartBlock => end == "" && value == "{"
    case TypeEndBlock => end == "" && value == "}"
    case TypeStatementEnd => end == "" && value == ";"
    case TypeComment => (end == "\n" || end == "\r") && IsComment(value)
    case TypeError => end == "" && tail == "" && IsUnterminated(value)
    case TypeEof => end == "" && tail == "" && (value == "" || IsBareWord(value) || IsComment(value))
    case TypeStart => false
  }

  lemma {:induction false} LexSpaces(ws: string, s: string)
    requires AllSpace(ws)
    ensures Lex(InitialWhitespace, ws + s, "") == Lex(InitialWhitespace, s, "")
    decreases |ws|
  {
    if ws == "" {
      assert ws + s == s;
    } else {
      assert (ws + s)[1..] == ws[1..] + s;
      LexSpaces(ws[1..], s);
    }
  }

  /** Inside a lexeme the lexer only gathers: `body` holds no character that would end the state. */
  lemma {:induction false} LexGathers(state: LexState, body: string, s: string, value: string)
    requires state != InitialWhitespace
    requires forall i | 0 <= i < |body| :: !Ends(state, body[i])
    ensures Lex(state, body + s, value) == Lex(state, s, value + body)
    decreases |body|
  {
    if body == "" {
      assert body + s == s;
      assert value + body == value;
    } else {
      assert (body + s)[1..] == body[1..] + s;
      assert value + [body[0]] + body[1..] == value + body;
      assert !Ends(state, body[0]);
      LexGathers(state, body[1..], s, value + [body[0]]);
    }
  }

  predicate Ends(state: LexState, c: char) {
    match state
    case InitialWhitespace => false
    case InSingleQuote => c == '\''
    case InDoubleQuote => c == '"'
    case InComment => c == '\n' || c == '\r'
    case InNormal => EndsBareWord(c)
  }

  /** The state the first character of a longer lexeme leads to. */
  function StateAfter(c: char): LexState {
    if c == '#' then InComment
    else if c == '"' then InDoubleQuote
    else if c == '\'' then InSingleQuote
    else InNormal
  }

  /** A lexeme is entered by its first character and gathered up to its end. */
  lemma {:induction false} LexEnters(value: string, s: string)
    requires value != "" && (StartsBareWord(value[0]) || value[0] == '#' || IsQuote(value[0]))
    requires forall i | 0 < i < |value| :: !Ends(StateAfter(value[0]), value[i])
    ensures Lex(InitialWhitespace, value + s, "") == Lex(StateAfter(value[0]), s, value)
  {
    var state, body := StateAfter(value[0]), value[1..];
    assert (value + s)[1..] == body + s;
    assert "" + [value[0]] == [value[0]];
    forall i | 0 <= i < |body|
      ensures !Ends(state, body[i])
    {
      assert body[i] == value[i + 1];
    }
    LexGathers(state, body, s, [value[0]]);
    assert [value[0]] + body == value;
  }

  /** Completeness: any text that splits as white space, lexeme, tail is lexed that way. */
  lemma {:induction false} LexRecognises(ws: string, kind: TokenType, value: string, end: string, tail: string)
    requires AllSpace(ws) && Lexeme(kind, value, end, tail)
    ensures Lex(InitialWhitespace, ws + value + end + tail, "") == Lexed(kind, value, tail)
  {
    assert ws + value + end + tail == ws + (value + (end + tail));
    LexSpaces(ws, value + (end + tail));
    if kind == TypeNormal && IsQuotedWord(value) {
      LexRecognisesQuoted(value, end + tail);
      assert end + tail == tail;
    } else if kind in {TypeStartBlock, TypeEndBlock, TypeStatementEnd} {
      assert end + tail == tail;
      assert (value + tail)[1..] == tail;
    } else if value != "" {
      LexRecognisesGathered(kind, value, end, tail);
    }
  }

  lemma {:induction false} LexRecognisesGathered(kind: TokenType, value: string, end: string, tail: string)
    requires Lexeme(kind, value, end, tail) && value != ""
    requires kind in {TypeComment, TypeError, TypeEof} || (kind == TypeNormal && IsBareWord(value))
    ensures Lex(InitialWhitespace, value + (end + tail), "") == Lexed(kind, value, tail)
  {
    LexEnters(value, end + tail);
    if kind == TypeComment {
      assert (end + tail)[1..] == tail;
    } else {
      assert end + tail == tail;
    }
  }

  lemma {:induction false} LexRecognisesQuoted(value: string, tail: string)
    requires IsQuotedWord(value)
    ensures Lex(InitialWhitespace, value + tail, "") == Lexed(TypeNormal, value, tail)
  {
    var front, quote := value[..|value| - 1], [value[0]];
    assert value == front + quote;
    assert value + tail == front + (quote + tail);
    assert forall i | 0 < i < |front| :: front[i] != front[0];
    LexEnters(front, quote + tail);
    assert (quote + tail)[1..] == tail;
  }

  /** `s` is white space, then the lexeme `r` reports, then what it leaves. */
  predicate Splits(s: string, r: Lexed, ws: string, end: string) {
    AllSpace(ws) && Lexeme(r.kind, r.value, end, r.rest) && s == ws + (r.value + (end + r.rest))
  }

  /** Soundness: every text splits as white space, a lexeme of the kind reported, and the rest. */
  lemma {:induction false} LexMeans(s: string) returns (ws: string, end: string)
    ensures Splits(s, Lex(InitialWhitespace, s, ""), ws, end)
    decreases |s|
  {
    if s != "" && IsSpace(s[0]) {
      ws, end := LexMeans(s[1..]);
      var more := ws;
      ws := [s[0]] + more;
      assert AllSpace(ws);
      var r := Lex(InitialWhitespace, s[1..], "");
      assert ws + (r.value + (end + r.rest)) == [s[0]] + (more + (r.value + (end + r.rest)));
      assert Lex(InitialWhitespace, s, "") == r;
    } else {
      ws := "";
      end := LexMeansHere(s);
    }
  }

  /** A text whose first character is a lexeme or an end by itself. */
  lemma {:induction false} LexMeansAtOnce(s: string)
    requires s != "" ==> !IsSpace(s[0]) && !StartsBareWord(s[0]) && s[0] != '#' && !IsQuote(s[0])
    ensures Splits(s, Lex(InitialWhitespace, s, ""), "", "")
  {
    if s != "" {
      assert s == [s[0]] + s[1..] && "" + [s[0]] == [s[0]];
    }
  }

  lemma {:induction false} LexMeansHere(s: string) returns (end: string)
    requires s != "" ==> !IsSpace(s[0])
    ensures Splits(s, Lex(InitialWhitespace, s, ""), "", end)
  {
    if s != "" && (StartsBareWord(s[0]) || s[0] == '#' || IsQuote(s[0])) {
      var c, rest := s[0], s[1..];
      assert s == [c] + rest && "" + [c] == [c];
      end := LexMeansInside(StateAfter(c), rest, [c]);
    } else {
      end := "";
      LexMeansAtOnce(s);
    }
  }

  predicate Gathered(state: LexState, value: string) {
    match state
    case InitialWhitespace => false
    case InSingleQuote => IsUnterminated(value) && value[0] == '\''
    case InDoubleQuote => IsUnterminated(value) && value[0] == '"'
    case InComment => IsComment(value)
    case InNormal => IsBareWord(value)
  }

  lemma {:induction false} LexMeansInside(state: LexState, s: string, value: string) returns (end: string)
    requires Gathered(state, value)
    ensures var r := Lex(state, s, value);
            Lexeme(r.kind, r.value, end, r.rest) && value + s == r.value + (end + r.rest)
    decreases |s|
  {
    end := "";
    if s != "" {
      var c := s[0];
      if Ends(state, c) {
        if state == InComment {
          end := [c];
        }
        if state == InSingleQuote || state == InDoubleQuote {
          assert (value + [c])[..|value|] == value;
        }
      } else {
        end := LexMeansInside(state, s[1..], value + [c]);
        assert value + s == value + [c] + s[1..];
      }
    } else {
      assert value + s == value;
    }
  }

  /** The words of a token stream are exactly the legal words: none is lost to the lexer, and no other appears. */
  lemma {:induction false} WordsAreWhatTheLexerEmits(w: string)
    ensures IsWord(w) <==> exists s :: Lex(InitialWhitespace, s, "").kind == TypeNormal &&
                                       Lex(InitialWhitespace, s, "").value == w
  {
    if IsWord(w) {
      LexRecognises("", TypeNormal, w, "", ";");
      assert "" + w + "" + ";" == w + ";";
      assert Lex(InitialWhitespace, w + ";", "").kind == TypeNormal;
    }
    if s :| Lex(InitialWhitespace, s, "").kind == TypeNormal && Lex(InitialWhitespace, s, "").value == w {
      var ws, end := LexMeans(s);
    }
  }

  // ----- The whole text -----

  datatype TokenStream = TokenStream(tokens: seq<Token>, clean: bool)

  function TokenOf(r: Lexed): Token
    requires r.kind in {TypeNormal, TypeStartBlock, TypeEndBlock, TypeStatementEnd}
  {
    match r.kind
    case TypeNormal => Normal(r.value)
    case TypeStartBlock => StartBlock
    case TypeEndBlock => EndBlock
    case _ => StatementEnd
  }

  /** The comment-free tokens of a text up to the end-of-input report; not clean if the lexer reports an error. */
  function Tokens(s: string): TokenStream
    decreases |s|
  {
    var r := Lex(InitialWhitespace, s, "");
    match r.kind
    case TypeEof => TokenStream([], true)
    case TypeError => TokenStream([], false)
    case TypeStart => TokenStream([], false)
    case TypeComment => Tokens(r.rest)
    case _ => var more := Tokens(r.rest); TokenStream([TokenOf(r)] + more.tokens, more.clean)
  }

  /** Every word in a token stream is a legal word. */
  lemma {:induction false} TokensAreWords(s: string)
    ensures forall t | t in Tokens(s).tokens :: t.Normal? ==> IsWord(t.word)
    decreases |s|
  {
    var r := Lex(InitialWhitespace, s, "");
    var ws, end := LexMeans(s);
    if r.kind != TypeEof && r.kind != TypeError {
      TokensAreWords(r.rest);
    }
  }
}
