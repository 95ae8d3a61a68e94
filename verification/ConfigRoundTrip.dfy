/** Printing a configuration and reading it back. */
module ConfigRoundTrip {
  import opened ConfigSyntax
  import opened ConfigLexer
  import opened ConfigGrammar

  function Prepend(ts: seq<Token>, s: TokenStream): TokenStream {
    TokenStream(ts + s.tokens, s.clean)
  }

  lemma {:induction false} PrependConcat(a: seq<Token>, b: seq<Token>, s: TokenStream)
    ensures Prepend(a, Prepend(b, s)) == Prepend(a + b, s)
  {
    assert a + (b + s.tokens) == (a + b) + s.tokens;
  }

  lemma {:induction false} TokensAfterSpace(ws: string, s: string)
    requires AllSpace(ws)
    ensures Tokens(ws + s) == Tokens(s)
  {
    LexSpaces(ws, s);
  }

  lemma {:induction false} TokensOfLexeme(kind: TokenType, value: string, tail: string)
    requires kind in {TypeNormal, TypeStartBlock, TypeEndBlock, TypeStatementEnd}
    requires Lexeme(kind, value, "", tail)
    ensures Tokens(value + tail) == Prepend([TokenOf(Lexed(kind, value, tail))], Tokens(tail))
  {
    LexRecognises("", kind, value, "", tail);
    assert "" + value + "" + tail == value + tail;
  }

  /** The words of a statement, separated by single spaces and ended by `s`, are read back one by one. */
  lemma {:induction false} TokensOfSpaced(words: seq<string>, s: string)
    requires words != [] && (forall w | w in words :: IsWord(w))
    requires s != "" && EndsBareWord(s[0])
    ensures Tokens(Spaced(words) + s) == Prepend(Words(words), Tokens(s))
    decreases |words|
  {
    var w, more := words[0], words[1..];
    assert w in words;
    if |words| == 1 {
      TokensOfLexeme(TypeNormal, w, s);
      assert Words(words) == [Normal(w)];
    } else {
      var tail := Spaced(more) + s;
      assert Spaced(words) + s == w + (" " + tail);
      TokensOfLexeme(TypeNormal, w, " " + tail);
      TokensAfterSpace(" ", tail);
      TokensOfSpaced(more, s);
      PrependConcat([Normal(w)], Words(more), Tokens(s));
    }
  }

  lemma {:induction false} IndentIsSpace(depth: int)
    ensures AllSpace(Indent(depth))
    decreases depth
  {
    if depth > 0 {
      IndentIsSpace(depth - 1);
    }
  }

  /** Indentation, words and the end of the statement's head line. */
  lemma {:induction false} TokensOfHead(words: seq<string>, depth: int, s: string)
    requires words != [] && (forall w | w in words :: IsWord(w))
    requires s != "" && EndsBareWord(s[0])
    ensures Tokens(Indent(depth) + Spaced(words) + s) == Prepend(Words(words), Tokens(s))
  {
    assert Indent(depth) + Spaced(words) + s == Indent(depth) + (Spaced(words) + s);
    IndentIsSpace(depth);
    TokensAfterSpace(Indent(depth), Spaced(words) + s);
    TokensOfSpaced(words, s);
  }

  lemma {:induction false} TokensOfMark(kind: TokenType, mark: string, rest: string)
    requires kind in {TypeStartBlock, TypeEndBlock, TypeStatementEnd} && Lexeme(kind, mark, "", "")
    ensures Tokens(mark + "\n" + rest) == Prepend([TokenOf(Lexed(kind, mark, rest))], Tokens(rest))
  {
    assert mark + "\n" + rest == mark + ("\n" + rest);
    TokensOfLexeme(kind, mark, "\n" + rest);
    TokensAfterSpace("\n", rest);
  }

  lemma {:induction false} TokensOfOpen(rest: string)
    ensures Tokens(" {\n" + rest) == Prepend([StartBlock], Tokens(rest))
  {
    assert " {\n" + rest == " " + ("{" + "\n" + rest);
    TokensAfterSpace(" ", "{" + "\n" + rest);
    TokensOfMark(TypeStartBlock, "{", rest);
  }

  lemma {:induction false} TokensOfClose(depth: int, rest: string)
    ensures Tokens(Indent(depth) + "}\n" + rest) == Prepend([EndBlock], Tokens(rest))
  {
    assert Indent(depth) + "}\n" + rest == Indent(depth) + ("}" + "\n" + rest);
    IndentIsSpace(depth);
    TokensAfterSpace(Indent(depth), "}" + "\n" + rest);
    TokensOfMark(TypeEndBlock, "}", rest);
  }

  lemma {:induction false} TokensOfStatement(s: Statement, depth: int, rest: string)
    requires WellFormedStatement(s)
    ensures Tokens(PrintStatement(s, depth) + rest) == Prepend(YieldStatement(s), Tokens(rest))
    decreases s, 0
  {
    match s
    case Simple(tokens) =>
      var tail := ";" + "\n" + rest;
      assert PrintStatement(s, depth) + rest == Indent(depth) + Spaced(tokens) + tail;
      TokensOfHead(tokens, depth, tail);
      TokensOfMark(TypeStatementEnd, ";", rest);
      PrependConcat(Words(tokens), [StatementEnd], Tokens(rest));
    case Block(tokens, body) =>
      var foot := Indent(depth) + "}\n" + rest;
      var inner := Print(body, depth + 1) + foot;
      assert PrintStatement(s, depth) + rest == Indent(depth) + Spaced(tokens) + (" {\n" + inner);
      TokensOfHead(tokens, depth, " {\n" + inner);
      TokensOfOpen(inner);
      TokensOfPrint(body, depth + 1, foot);
      TokensOfClose(depth, rest);
      PrependConcat(Words(tokens), [StartBlock], Tokens(inner));
      PrependConcat(Words(tokens) + [StartBlock], Yield(body), Tokens(foot));
      PrependConcat(Words(tokens) + [StartBlock] + Yield(body), [EndBlock], Tokens(rest));
  }

  /** The lexer reads the printed form of a tree as the tree's sentence, at every depth and before any text. */
  lemma {:induction false} TokensOfPrint(block: seq<Statement>, depth: int, rest: string)
    requires forall i | 0 <= i < |block| :: WellFormedStatement(block[i])
    ensures Tokens(Print(block, depth) + rest) == Prepend(Yield(block), Tokens(rest))
    decreases block, 1
  {
    if block == [] {
      assert Print(block, depth) + rest == rest;
      assert [] + Tokens(rest).tokens == Tokens(rest).tokens;
    } else {
      var tail := Print(block[1..], depth) + rest;
      assert Print(block, depth) + rest == PrintStatement(block[0], depth) + tail;
      TokensOfStatement(block[0], depth, tail);
      TokensOfPrint(block[1..], depth, rest);
      PrependConcat(YieldStatement(block[0]), Yield(block[1..]), Tokens(rest));
    }
  }

  /** Round trip: parsing what `ToString` prints succeeds and rebuilds exactly the tree, for every depth. */
  lemma {:induction false} ParsePrint(t: seq<Statement>, depth: int)
    requires WellFormed(t)
    ensures ParseOutcome(Print(t, depth)) == Accepted && ParseTree(Print(t, depth)) == t
  {
    TokensOfPrint(t, depth, "");
    assert Print(t, depth) + "" == Print(t, depth);
    assert Yield(t) + [] == Yield(t);
    RunFromStart(t);
  }

  /** Printing loses nothing: two well-formed trees with the same text are equal, even at different depths. */
  lemma {:induction false} PrintIsInjective(t: seq<Statement>, u: seq<Statement>, d: int, e: int)
    requires WellFormed(t) && WellFormed(u) && Print(t, d) == Print(u, e)
    ensures t == u
  {
    ParsePrint(t, d);
    ParsePrint(u, e);
  }

  /** Whatever text is accepted, the tree is well-formed and keeps all its tokens in order. */
  lemma {:induction false} AcceptedIsWellFormed(text: string)
    requires ParseOutcome(text) == Accepted
    ensures WellFormed(ParseTree(text))
    ensures exists k :: Yield(ParseTree(text)) == Tokens(text).tokens + Closers(k)
                     || Tokens(text).tokens == Yield(ParseTree(text)) + [EndBlock]
  {
    TokensAreWords(text);
    AcceptedIsDerived(Tokens(text).tokens);
    var st := Run(INITIAL, Tokens(text).tokens).state;
    assert !st.popped ==> Yield(ParseTree(text)) == Tokens(text).tokens + Closers(|st.outer|);
    assert st.popped ==> Yield(ParseTree(text)) + [EndBlock] == Tokens(text).tokens && |Closers(0)| == 0;
  }

  function Normalise(text: string): string {
    Print(ParseTree(text), 0)
  }

  /** Parse-then-print is an idempotent normaliser that keeps the tree of every accepted text. */
  lemma {:induction false} NormaliseIsIdempotent(text: string)
    requires ParseOutcome(text) == Accepted
    ensures ParseOutcome(Normalise(text)) == Accepted
    ensures ParseTree(Normalise(text)) == ParseTree(text)
    ensures Normalise(Normalise(text)) == Normalise(text)
  {
    AcceptedIsWellFormed(text);
    ParsePrint(ParseTree(text), 0);
  }

  /** Two accepted texts have the same normal form exactly when they parse to the same tree. */
  lemma {:induction false} NormalFormIsCanonical(a: string, b: string)
    requires ParseOutcome(a) == Accepted && ParseOutcome(b) == Accepted
    ensures Normalise(a) == Normalise(b) <==> ParseTree(a) == ParseTree(b)
  {
    NormaliseIsIdempotent(a);
    NormaliseIsIdempotent(b);
  }

  /** The normal form is printed text: a text is its own normal form iff it is the print of a well-formed tree. */
  lemma {:induction false} NormalFormsArePrints(text: string)
    ensures ParseOutcome(text) == Accepted && Normalise(text) == text <==> exists t :: WellFormed(t) && Print(t, 0) == text
  {
    if ParseOutcome(text) == Accepted && Normalise(text) == text {
      AcceptedIsWellFormed(text);
      assert WellFormed(ParseTree(text)) && Print(ParseTree(text), 0) == text;
    }
    forall t | WellFormed(t) && Print(t, 0) == text
      ensures ParseOutcome(text) == Accepted && Normalise(text) == text
    {
      ParsePrint(t, 0);
    }
  }

  // ----- The surplus closer -----

  /** A word or another `}` follows a surplus `}`. */
  ghost predicate GoesOnAfterSurplus(ts: seq<Token>) {
    exists i, t :: 0 <= i < |ts| && DerivesSurplus(ts[..i], t) && (ts[i].Normal? || ts[i] == EndBlock)
  }

  /** These are exactly the texts that make the parser use its stack after popping the root. */
  lemma {:induction false} UndefinedTextIff(text: string)
    ensures ParseOutcome(text) == Undefined <==> GoesOnAfterSurplus(Tokens(text).tokens)
  {
    TokensAreWords(text);
    UndefinedIff(Tokens(text).tokens);
  }

  lemma {:induction false} TokensStep(kind: TokenType, value: string, tail: string, t: Token, more: seq<Token>)
    requires kind in {TypeNormal, TypeStartBlock, TypeEndBlock, TypeStatementEnd} && Lexeme(kind, value, "", tail)
    requires t == TokenOf(Lexed(kind, value, tail)) && more == Tokens(tail).tokens
    ensures Tokens(value + tail).tokens == [t] + more
  {
    TokensOfLexeme(kind, value, tail);
  }

  lemma {:induction false} TokensOfTwoClosers()
    ensures Tokens("}}").tokens == [EndBlock, EndBlock]
  {
    assert "}" + "}" == "}}" && "}" + "" == "}";
    TokensStep(TypeEndBlock, "}", "", EndBlock, []);
    TokensStep(TypeEndBlock, "}", "}", EndBlock, [EndBlock]);
  }

  lemma {:induction false} TokensOfSurplus()
    ensures Tokens("a;}}").tokens == [Normal("a"), StatementEnd, EndBlock, EndBlock]
  {
    TokensOfTwoClosers();
    assert "a" + ";}}" == "a;}}" && ";" + "}}" == ";}}";
    TokensStep(TypeStatementEnd, ";", "}}", StatementEnd, [EndBlock, EndBlock]);
    TokensStep(TypeNormal, "a", ";}}", Normal("a"), [StatementEnd, EndBlock, EndBlock]);
  }

  lemma {:induction false} SurplusIsUndefined(w: string)
    ensures Run(INITIAL, [Normal(w), StatementEnd, EndBlock, EndBlock]).Stopped?
    ensures Run(INITIAL, [Normal(w), StatementEnd, EndBlock, EndBlock]).outcome == Undefined
  {
    var ts := [Normal(w), StatementEnd, EndBlock, EndBlock];
    var st1 := Step(INITIAL, Normal(w)).state;
    var st2 := Step(st1, StatementEnd).state;
    var st3 := Step(st2, EndBlock).state;
    assert ts[1..] == [StatementEnd, EndBlock, EndBlock] && ts[1..][1..] == [EndBlock, EndBlock];
    assert ts[1..][1..][1..] == [EndBlock];
    assert Run(st2, [EndBlock, EndBlock]) == Run(st3, [EndBlock]);
    assert Run(st1, ts[1..]) == Run(st2, ts[1..][1..]);
  }

  /** Four characters are enough. */
  lemma {:induction false} TwoSurplusClosers()
    ensures ParseOutcome("a;}}") == Undefined
  {
    TokensOfSurplus();
    SurplusIsUndefined("a");
  }
}
