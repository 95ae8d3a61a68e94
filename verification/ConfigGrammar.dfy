/**
 * The transitions of `NginxConfigParser::Parse` on values: the stack of open blocks, the last token type, and
 * what the run accepts and builds. The heap version in `ConfigParser` is proved against these functions.
 */
module ConfigGrammar {
  import opened ConfigSyntax
  import opened ConfigLexer

  /** One open block: its finished statements and the tokens of the statement it has not finished. */
  datatype Frame = Frame(done: seq<Statement>, open: seq<string>)

  /**
   * The stack of open blocks is `outer` (from the root) and then `top`, the innermost one. `popped` says that a
   * surplus `}` has popped the root, so that the stack of the program is empty.
   */
  datatype State = State(outer: seq<Frame>, top: Frame, popped: bool, last: TokenType)

  /** `Undefined` is a run that uses the block stack after the root has been popped from it. */
  datatype Outcome = Accepted | Rejected | Undefined

  datatype Progress = Going(state: State) | Stopped(outcome: Outcome, state: State)

  const INITIAL := State([], Frame([], []), false, TypeStart)

  /** The statements of a block as the tree holds them now. */
  function Body(f: Frame): seq<Statement> {
    if f.open == [] then f.done else f.done + [Simple(f.open)]
  }

  /** The block `g` becomes the body of the unfinished statement of `f`. */
  function Close(f: Frame, g: Frame): Frame {
    Frame(f.done + [Block(f.open, Body(g))], [])
  }

  /** One iteration of the loop of `Parse`, for a token that is neither a comment nor an end of input. */
  function Step(st: State, t: Token): (p: Progress)
    ensures p.Stopped? ==> p.outcome != Accepted
  {
    match t
    case Normal(w) =>
      if st.popped then Stopped(Undefined, st)
      else if st.last == TypeNormal then Going(st.(top := Frame(st.top.done, st.top.open + [w])))
      else Going(st.(top := Frame(st.top.done, [w]), last := TypeNormal))
    case StatementEnd =>
      if st.last != TypeNormal then Stopped(Rejected, st)
      else Going(st.(top := Frame(Body(st.top), []), last := TypeStatementEnd))
    case StartBlock =>
      if st.last != TypeNormal then Stopped(Rejected, st)
      else Going(State(st.outer + [st.top], Frame([], []), st.popped, TypeStartBlock))
    case EndBlock =>
      if st.last != TypeStatementEnd && st.last != TypeEndBlock then Stopped(Rejected, st)
      else if st.popped then Stopped(Undefined, st)
      else if st.outer == [] then Going(st.(popped := true, last := TypeEndBlock))
      else
        var k := |st.outer| - 1;
        Going(State(st.outer[..k], Close(st.outer[k], st.top), false, TypeEndBlock))
  }

  function Run(st: State, ts: seq<Token>): (p: Progress)
    ensures p.Stopped? ==> p.outcome != Accepted
    decreases |ts|
  {
    if ts == [] then Going(st)
    else
      match Step(st, ts[0])
      case Going(next) => Run(next, ts[1..])
      case Stopped(o, s) => Stopped(o, s)
  }

  /** The end-of-input report accepts only after a finished statement; a lexer error never does. */
  function OutcomeOf(p: Progress, clean: bool): Outcome {
    match p
    case Stopped(o, _) => o
    case Going(st) =>
      if clean && (st.last == TypeStatementEnd || st.last == TypeEndBlock) then Accepted else Rejected
  }

  /** The tree a stack of open blocks stands for: every open block closed where it is. */
  function Tree(outer: seq<Frame>, top: Frame): seq<Statement>
    decreases |outer|
  {
    if outer == [] then Body(top)
    else var k := |outer| - 1; Tree(outer[..k], Close(outer[k], top))
  }

  function TreeOf(st: State): seq<Statement> {
    Tree(st.outer, st.top)
  }

  function ParseOutcome(text: string): Outcome {
    OutcomeOf(Run(INITIAL, Tokens(text).tokens), Tokens(text).clean)
  }

  /** The new statements left in the caller's config, whatever the outcome. */
  function ParseTree(text: string): seq<Statement> {
    TreeOf(Run(INITIAL, Tokens(text).tokens).state)
  }

  // ----- What every step keeps -----

  predicate AllWords(ts: seq<Token>) {
    forall t | t in ts :: t.Normal? ==> IsWord(t.word)
  }

  predicate GoodFrame(f: Frame) {
    && (forall i | 0 <= i < |f.done| :: WellFormedStatement(f.done[i]))
    && (forall w | w in f.open :: IsWord(w))
  }

  /** The invariant of the parsing loop. */
  predicate Valid(st: State) {
    && GoodFrame(st.top)
    && (forall i | 0 <= i < |st.outer| :: GoodFrame(st.outer[i]) && st.outer[i].open != [])
    && st.last in {TypeStart, TypeNormal, TypeStartBlock, TypeEndBlock, TypeStatementEnd}
    && (st.last == TypeNormal <==> st.top.open != [])
    && (st.last == TypeStatementEnd || st.last == TypeEndBlock ==> st.top.done != [])
    && (st.last == TypeStart ==> st == INITIAL)
    && (st.popped ==> st.outer == [] && st.last == TypeEndBlock)
  }

  lemma {:induction false} StepKeepsValid(st: State, t: Token)
    requires Valid(st) && (t.Normal? ==> IsWord(t.word))
    ensures Valid(Step(st, t).state)
  {
  }

  lemma {:induction false} RunKeepsValid(st: State, ts: seq<Token>)
    requires Valid(st) && AllWords(ts)
    ensures Valid(Run(st, ts).state)
    decreases |ts|
  {
    if ts != [] {
      StepKeepsValid(st, ts[0]);
      if Step(st, ts[0]).Going? {
        RunKeepsValid(Step(st, ts[0]).state, ts[1..]);
      }
    }
  }

  // ----- Conservation: no token is lost, duplicated or moved -----

  function FrameTokens(f: Frame): seq<Token> {
    Yield(f.done) + Words(f.open)
  }

  /** The tokens up to the start of the innermost block. */
  function Lead(outer: seq<Frame>): seq<Token>
    decreases |outer|
  {
    if outer == [] then []
    else var k := |outer| - 1; Lead(outer[..k]) + FrameTokens(outer[k]) + [StartBlock]
  }

  /** The tokens a stack of open blocks stands for. */
  function Sentence(outer: seq<Frame>, top: Frame): seq<Token> {
    Lead(outer) + FrameTokens(top)
  }

  function TokensOf(st: State): seq<Token> {
    if st.popped then Sentence(st.outer, st.top) + [EndBlock] else Sentence(st.outer, st.top)
  }

  lemma {:induction false} YieldConcat(a: seq<Statement>, b: seq<Statement>)
    ensures Yield(a + b) == Yield(a) + Yield(b)
    decreases |a|
  {
    if a == [] {
      assert a + b == b;
    } else {
      assert (a + b)[1..] == a[1..] + b;
      YieldConcat(a[1..], b);
    }
  }

  lemma {:induction false} YieldSnoc(a: seq<Statement>, s: Statement)
    ensures Yield(a + [s]) == Yield(a) + YieldStatement(s)
  {
    YieldConcat(a, [s]);
    assert [s][1..] == [];
    assert Yield([s]) == YieldStatement(s) + [];
  }

  lemma {:induction false} WordsSnoc(a: seq<string>, w: string)
    ensures Words(a + [w]) == Words(a) + [Normal(w)]
    decreases |a|
  {
    if a == [] {
      assert Words([w]) == [Normal(w)] + [];
    } else {
      assert (a + [w])[1..] == a[1..] + [w];
      WordsSnoc(a[1..], w);
    }
  }

  /** A change of the innermost block that adds `ts` to it adds `ts` to the sentence. */
  lemma {:induction false} SentenceGrows(outer: seq<Frame>, f: Frame, g: Frame, ts: seq<Token>)
    requires FrameTokens(g) == FrameTokens(f) + ts
    ensures Sentence(outer, g) == Sentence(outer, f) + ts
  {
  }

  lemma {:induction false} WordGrows(f: Frame, w: string)
    ensures FrameTokens(Frame(f.done, f.open + [w])) == FrameTokens(f) + [Normal(w)]
  {
    WordsSnoc(f.open, w);
  }

  lemma {:induction false} EndGrows(f: Frame)
    requires f.open != []
    ensures FrameTokens(Frame(Body(f), [])) == FrameTokens(f) + [StatementEnd]
  {
    YieldSnoc(f.done, Simple(f.open));
  }

  lemma {:induction false} CloseGrows(f: Frame, g: Frame)
    requires g.open == []
    ensures FrameTokens(Close(f, g)) == FrameTokens(f) + ([StartBlock] + FrameTokens(g) + [EndBlock])
  {
    YieldSnoc(f.done, Block(f.open, g.done));
    Regroup(Yield(f.done), Words(f.open), Yield(g.done));
  }

  lemma {:induction false} Regroup(a: seq<Token>, b: seq<Token>, c: seq<Token>)
    ensures a + (b + [StartBlock] + c + [EndBlock]) + [] == (a + b) + ([StartBlock] + (c + []) + [EndBlock])
  {
  }

  lemma {:induction false} OpenConserves(outer: seq<Frame>, top: Frame)
    ensures Sentence(outer + [top], Frame([], [])) == Sentence(outer, top) + [StartBlock]
  {
    assert (outer + [top])[..|outer|] == outer;
    assert FrameTokens(Frame([], [])) == [];
  }

  lemma {:induction false} CloseConserves(outer: seq<Frame>, top: Frame)
    requires outer != [] && top.open == []
    ensures var k := |outer| - 1;
            Sentence(outer[..k], Close(outer[k], top)) == Sentence(outer, top) + [EndBlock]
  {
    var k := |outer| - 1;
    var inner := [StartBlock] + FrameTokens(top) + [EndBlock];
    CloseGrows(outer[k], top);
    SentenceGrows(outer[..k], outer[k], Close(outer[k], top), inner);
    assert Sentence(outer[..k], outer[k]) + inner == Sentence(outer, top) + [EndBlock];
  }

  /** A step that goes on adds exactly the token it read. */
  lemma {:induction false} StepConserves(st: State, t: Token)
    requires Valid(st) && Step(st, t).Going?
    ensures TokensOf(Step(st, t).state) == TokensOf(st) + [t]
  {
    match t
    case Normal(w) =>
      WordGrows(st.top, w);
      assert st.top.open == [] ==> st.top.open + [w] == [w];
      SentenceGrows(st.outer, st.top, Frame(st.top.done, st.top.open + [w]), [t]);
    case StatementEnd =>
      EndGrows(st.top);
      SentenceGrows(st.outer, st.top, Frame(Body(st.top), []), [t]);
    case StartBlock =>
      OpenConserves(st.outer, st.top);
    case EndBlock =>
      if st.outer != [] {
        CloseConserves(st.outer, st.top);
      }
  }

  lemma {:induction false} RunConserves(st: State, ts: seq<Token>)
    requires Valid(st) && AllWords(ts) && Run(st, ts).Going?
    ensures TokensOf(Run(st, ts).state) == TokensOf(st) + ts
    decreases |ts|
  {
    if ts == [] {
      assert TokensOf(st) + ts == TokensOf(st);
    } else {
      StepKeepsValid(st, ts[0]);
      StepConserves(st, ts[0]);
      RunConserves(Step(st, ts[0]).state, ts[1..]);
      Shift(TokensOf(st), ts);
    }
  }

  lemma {:induction false} Shift(a: seq<Token>, ts: seq<Token>)
    requires ts != []
    ensures a + [ts[0]] + ts[1..] == a + ts
  {
  }

  // ----- The tree at the end of a run -----

  function Closers(k: nat): seq<Token> {
    if k == 0 then [] else [EndBlock] + Closers(k - 1)
  }

  /** The state after one more `}`. */
  function Closed(st: State): State
    requires st.outer != []
  {
    var k := |st.outer| - 1;
    State(st.outer[..k], Close(st.outer[k], st.top), false, TypeEndBlock)
  }

  lemma {:induction false} ClosedMeans(st: State)
    requires Valid(st) && !st.popped && st.top.open == [] && st.top.done != [] && st.outer != []
    ensures |Closed(st).outer| == |st.outer| - 1 && !Closed(st).popped
    ensures Valid(Closed(st)) && Closed(st).top.open == [] && Closed(st).top.done != []
    ensures TreeOf(Closed(st)) == TreeOf(st) && TokensOf(Closed(st)) == TokensOf(st) + [EndBlock]
  {
    StepKeepsValid(st.(last := TypeEndBlock), EndBlock);
    CloseConserves(st.outer, st.top);
  }

  /** Closing all open blocks costs one `}` each and yields a well-formed tree. */
  lemma {:induction false} TreeIsDerivation(st: State)
    requires Valid(st) && !st.popped && st.top.open == [] && st.top.done != []
    ensures WellFormed(TreeOf(st))
    ensures Yield(TreeOf(st)) == TokensOf(st) + Closers(|st.outer|)
    decreases |st.outer|
  {
    if st.outer == [] {
      assert Sentence([], st.top) + Closers(0) == Yield(st.top.done);
    } else {
      hide *;
      ClosedMeans(st);
      TreeIsDerivation(Closed(st));
      CloserMoves(TokensOf(st), |st.outer| - 1);
    }
  }

  lemma {:induction false} CloserMoves(a: seq<Token>, k: nat)
    ensures a + [EndBlock] + Closers(k) == a + Closers(k + 1)
  {
  }

  // ----- Running on a sentence of the grammar -----

  lemma {:induction false} RunConcat(st: State, a: seq<Token>, b: seq<Token>)
    ensures Run(st, a + b) == match Run(st, a) case Going(next) => Run(next, b) case Stopped(o, s) => Stopped(o, s)
    decreases |a|
  {
    if a == [] {
      assert a + b == b;
    } else {
      assert (a + b)[1..] == a[1..] + b;
      if Step(st, a[0]).Going? {
        RunConcat(Step(st, a[0]).state, a[1..], b);
      }
    }
  }

  lemma {:induction false} RunSnoc(st: State, a: seq<Token>, t: Token)
    ensures Run(st, a + [t]) == match Run(st, a) case Going(next) => Step(next, t) case Stopped(o, s) => Stopped(o, s)
  {
    RunConcat(st, a, [t]);
    assert [t][1..] == [];
  }

  /** The token type that ends a non-empty block's sentence. */
  function LastType(block: seq<Statement>): TokenType
    requires block != []
  {
    if block[|block| - 1].Simple? then TypeStatementEnd else TypeEndBlock
  }

  /** Ready for a new statement. */
  predicate Ready(st: State) {
    !st.popped && st.top.open == [] && st.last != TypeNormal
  }

  /** The state with `block` added to the innermost open block. */
  function Extended(st: State, block: seq<Statement>, last: TokenType): State {
    State(st.outer, Frame(st.top.done + block, []), st.popped, last)
  }

  lemma {:induction false} RunWords(st: State, ws: seq<string>)
    requires Ready(st) && ws != []
    ensures Run(st, Words(ws)) == Going(State(st.outer, Frame(st.top.done, ws), false, TypeNormal))
    decreases |ws|
  {
    var k := |ws| - 1;
    var front, w := ws[..k], ws[k];
    assert ws == front + [w];
    WordsSnoc(front, w);
    RunSnoc(st, Words(front), Normal(w));
    if front != [] {
      RunWords(st, front);
    }
  }

  lemma {:induction false} RunStatement(st: State, s: Statement)
    requires Ready(st) && WellFormedStatement(s)
    ensures Run(st, YieldStatement(s)) == Going(Extended(st, [s], LastType([s])))
    decreases s, 0
  {
    RunWords(st, s.tokens);
    var mid := State(st.outer, Frame(st.top.done, s.tokens), false, TypeNormal);
    match s
    case Simple(tokens) =>
      RunSnoc(st, Words(tokens), StatementEnd);
    case Block(tokens, body) =>
      var inner := Step(mid, StartBlock).state;
      RunSnoc(st, Words(tokens), StartBlock);
      RunConcat(st, Words(tokens) + [StartBlock], Yield(body));
      RunBlock(inner, body);
      assert [] + body == body;
      RunSnoc(st, Words(tokens) + [StartBlock] + Yield(body), EndBlock);
      assert (st.outer + [mid.top])[..|st.outer|] == st.outer;
  }

  /** From any state ready for a statement, the sentence of a well-formed block is read and built in place. */
  lemma {:induction false} RunBlock(st: State, block: seq<Statement>)
    requires Ready(st) && WellFormed(block)
    ensures Run(st, Yield(block)) == Going(Extended(st, block, LastType(block)))
    decreases block, 1
  {
    var next := Extended(st, [block[0]], LastType([block[0]]));
    RunConcat(st, YieldStatement(block[0]), Yield(block[1..]));
    RunStatement(st, block[0]);
    assert Run(st, Yield(block)) == Run(next, Yield(block[1..]));
    if |block| == 1 {
      assert block == [block[0]] && block[1..] == [];
    } else {
      RunBlock(next, block[1..]);
      ExtendTwice(st, block, LastType([block[0]]), LastType(block));
    }
  }

  lemma {:induction false} ExtendTwice(st: State, block: seq<Statement>, mid: TokenType, last: TokenType)
    requires block != []
    ensures Extended(Extended(st, [block[0]], mid), block[1..], last) == Extended(st, block, last)
  {
    assert st.top.done + [block[0]] + block[1..] == st.top.done + block;
  }

  lemma {:induction false} RunFromStart(t: seq<Statement>)
    requires WellFormed(t)
    ensures Run(INITIAL, Yield(t)) == Going(State([], Frame(t, []), false, LastType(t)))
  {
    RunBlock(INITIAL, t);
    assert [] + t == t;
  }

  // ----- Agreement with the grammar -----

  /** `ts` is the sentence of a well-formed block `t` but for `k` missing final closers. */
  predicate Derives(ts: seq<Token>, t: seq<Statement>, k: nat) {
    WellFormed(t) && Yield(t) == ts + Closers(k)
  }

  /** `ts` is the sentence of a well-formed block followed by one surplus closer. */
  predicate DerivesSurplus(ts: seq<Token>, t: seq<Statement>) {
    WellFormed(t) && ts == Yield(t) + [EndBlock]
  }

  lemma {:induction false} DerivedIsAccepted(ts: seq<Token>, t: seq<Statement>, k: nat)
    requires Derives(ts, t, k)
    ensures OutcomeOf(Run(INITIAL, ts), true) == Accepted && !Run(INITIAL, ts).state.popped
  {
    RunFromStart(t);
    RunConcat(INITIAL, ts, Closers(k));
    assert k == 0 ==> ts + Closers(k) == ts;
  }

  lemma {:induction false} SurplusIsAccepted(ts: seq<Token>, t: seq<Statement>)
    requires DerivesSurplus(ts, t)
    ensures Run(INITIAL, ts) == Going(State([], Frame(t, []), true, TypeEndBlock))
  {
    RunFromStart(t);
    RunSnoc(INITIAL, Yield(t), EndBlock);
  }

  /** An accepting run knows the derivation: its tree is the one the grammar gives. */
  lemma {:induction false} AcceptedIsDerived(ts: seq<Token>)
    requires AllWords(ts) && OutcomeOf(Run(INITIAL, ts), true) == Accepted
    ensures var st := Run(INITIAL, ts).state;
            if st.popped then DerivesSurplus(ts, TreeOf(st)) else Derives(ts, TreeOf(st), |st.outer|)
  {
    var st := Run(INITIAL, ts).state;
    RunKeepsValid(INITIAL, ts);
    RunConserves(INITIAL, ts);
    assert TokensOf(INITIAL) + ts == ts;
    var open := st.(popped := false);
    TreeIsDerivation(open);
    assert st.popped ==> TokensOf(open) + Closers(0) == TokensOf(open);
  }

  /**
   * Exactly the token streams that are a sentence of the grammar up to missing final closers, or with one
   * surplus closer, are accepted.
   */
  lemma {:induction false} AcceptsIffDerives(ts: seq<Token>)
    requires AllWords(ts)
    ensures OutcomeOf(Run(INITIAL, ts), true) == Accepted
       <==> (exists t, k :: Derives(ts, t, k)) || (exists t :: DerivesSurplus(ts, t))
  {
    if OutcomeOf(Run(INITIAL, ts), true) == Accepted {
      AcceptedIsDerived(ts);
    }
    if t, k :| Derives(ts, t, k) {
      DerivedIsAccepted(ts, t, k);
    }
    if t :| DerivesSurplus(ts, t) {
      SurplusIsAccepted(ts, t);
    }
  }

  /** The stack is used after the root was popped exactly when a surplus `}` is followed by a word or another `}`. */
  lemma {:induction false} UndefinedIff(ts: seq<Token>)
    requires AllWords(ts)
    ensures OutcomeOf(Run(INITIAL, ts), true) == Undefined
       <==> exists i, t :: 0 <= i < |ts| && DerivesSurplus(ts[..i], t) && (ts[i].Normal? || ts[i] == EndBlock)
  {
    if OutcomeOf(Run(INITIAL, ts), true) == Undefined {
      var i := UndefinedAt(INITIAL, ts);
      AcceptedIsDerived(ts[..i]);
    }
    if i, t :| 0 <= i < |ts| && DerivesSurplus(ts[..i], t) && (ts[i].Normal? || ts[i] == EndBlock) {
      SurplusIsAccepted(ts[..i], t);
      assert ts[..i] + ts[i..] == ts;
      RunConcat(INITIAL, ts[..i], ts[i..]);
    }
  }

  lemma {:induction false} UndefinedAt(st: State, ts: seq<Token>) returns (i: nat)
    requires Valid(st) && AllWords(ts) && Run(st, ts).Stopped? && Run(st, ts).outcome == Undefined
    ensures i < |ts| && (ts[i].Normal? || ts[i] == EndBlock)
    ensures Run(st, ts[..i]).Going? && Run(st, ts[..i]).state.popped && Run(st, ts[..i]).state.last == TypeEndBlock
    decreases |ts|
  {
    if Step(st, ts[0]).Stopped? {
      i := 0;
    } else {
      StepKeepsValid(st, ts[0]);
      i := UndefinedAt(Step(st, ts[0]).state, ts[1..]);
      i := i + 1;
      assert ts[..i][1..] == ts[1..][..i - 1];
    }
  }

  /** The grammar is unambiguous: a sentence has one derivation. */
  lemma {:induction false} DerivationIsUnique(t: seq<Statement>, u: seq<Statement>)
    requires WellFormed(t) && WellFormed(u) && Yield(t) == Yield(u)
    ensures t == u
  {
    RunFromStart(t);
    RunFromStart(u);
  }

  // ----- Balanced input -----

  function Count(ts: seq<Token>, t: Token): nat {
    if ts == [] then 0
    else var k := |ts| - 1; Count(ts[..k], t) + if ts[k] == t then 1 else 0
  }

  /** Closes never exceed opens on any prefix. */
  predicate NeverOverClosed(ts: seq<Token>) {
    forall i | 0 <= i <= |ts| :: Count(ts[..i], EndBlock) <= Count(ts[..i], StartBlock)
  }

  /** The stack depth is the surplus of opens over closes. */
  lemma {:induction false} DepthIsBalance(ts: seq<Token>)
    requires AllWords(ts) && Run(INITIAL, ts).Going?
    ensures var st := Run(INITIAL, ts).state;
            |st.outer| - (if st.popped then 1 else 0) == Count(ts, StartBlock) - Count(ts, EndBlock)
    decreases |ts|
  {
    if ts != [] {
      var k := |ts| - 1;
      assert ts == ts[..k] + [ts[k]];
      RunSnoc(INITIAL, ts[..k], ts[k]);
      RunKeepsValid(INITIAL, ts[..k]);
      DepthIsBalance(ts[..k]);
    }
  }

  /** With no surplus closer the root is never popped, so the run is never undefined. */
  lemma {:induction false} NotPopped(ts: seq<Token>)
    requires AllWords(ts) && NeverOverClosed(ts)
    ensures !Run(INITIAL, ts).state.popped && OutcomeOf(Run(INITIAL, ts), true) != Undefined
    decreases |ts|
  {
    if ts != [] {
      var k := |ts| - 1;
      assert ts == ts[..k] + [ts[k]];
      assert forall i | 0 <= i <= k :: ts[..k][..i] == ts[..i];
      NotPopped(ts[..k]);
      RunSnoc(INITIAL, ts[..k], ts[k]);
      if Run(INITIAL, ts).Going? {
        DepthIsBalance(ts);
        assert ts[..|ts|] == ts;
      }
    }
  }

  /**
   * For input whose braces balance on every prefix and at the end: accepted exactly when it is a sentence of
   * the grammar, and then the tree built is the derivation's tree.
   */
  lemma {:induction false} BalancedAgreement(ts: seq<Token>)
    requires AllWords(ts) && NeverOverClosed(ts) && Count(ts, StartBlock) == Count(ts, EndBlock)
    ensures OutcomeOf(Run(INITIAL, ts), true) == Accepted <==> exists t :: WellFormed(t) && Yield(t) == ts
    ensures forall t | WellFormed(t) && Yield(t) == ts :: TreeOf(Run(INITIAL, ts).state) == t
  {
    if OutcomeOf(Run(INITIAL, ts), true) == Accepted {
      AcceptedIsDerived(ts);
      DepthIsBalance(ts);
      NotPopped(ts);
      assert ts + Closers(0) == ts;
      var t := TreeOf(Run(INITIAL, ts).state);
      assert WellFormed(t) && Yield(t) == ts;
    }
    forall t | WellFormed(t) && Yield(t) == ts
      ensures OutcomeOf(Run(INITIAL, ts), true) == Accepted && TreeOf(Run(INITIAL, ts).state) == t
    {
      RunFromStart(t);
    }
  }
}
