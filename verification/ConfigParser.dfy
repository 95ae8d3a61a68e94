/** The objects of the configuration tree, the parser that builds them in place, and the printer that walks them. */
module ConfigParser {
  import ConfigLayout
  import opened ConfigSyntax
  import opened ConfigLexer
  import opened ConfigGrammar
  import opened ConfigRoundTrip

  class NginxConfigStatement {
    var tokens: seq<string>
    var childBlock: NginxConfig?

    constructor ()
      ensures tokens == [] && childBlock == null
    {
      tokens := [];
      childBlock := null;
    }

    method AppendTokens(text0: string) returns (text: string)
      ensures text == text0 + Spaced(tokens)
    {
      text := text0;
      var i := 0;
      while i < |tokens|
        invariant 0 <= i <= |tokens|
        invariant text == text0 + Spaced(tokens[..i])
      {
        SpacedSnoc(tokens[..i], tokens[i]);
        assert tokens[..i + 1] == tokens[..i] + [tokens[i]];
        if i != 0 {
          text := text + " ";
        }
        text := text + tokens[i];
        i := i + 1;
      }
      assert tokens[..i] == tokens;
    }

    method ToString(depth: int, ghost t: Statement, ghost repr: set<object>) returns (text: string)
      requires RepStatement(this, t, repr)
      ensures text == PrintStatement(t, depth)
      decreases t, 0
    {
      text := AppendIndent("", depth);
      text := AppendTokens(text);
      assert text == Indent(depth) + Spaced(tokens);
      if childBlock != null {
        text := text + " {\n";
        var inner := childBlock.ToString(depth + 1, t.body, repr);
        text := text + inner;
        text := AppendIndent(text, depth);
        text := AppendTwo(text, "}", "\n");
      } else {
        text := AppendTwo(text, ";", "\n");
      }
    }
  }

  method AppendTwo(text0: string, a: string, b: string) returns (text: string)
    ensures text == text0 + (a + b)
  {
    text := text0 + a;
    text := text + b;
  }

  class NginxConfig {
    var statements: seq<NginxConfigStatement>

    constructor ()
      ensures statements == []
    {
      statements := [];
    }

    method ToString(depth: int := 0, ghost t: seq<Statement>, ghost repr: set<object>) returns (text: string)
      requires RepBlock(statements, t, repr)
      ensures text == Print(t, depth) == ConfigLayout.AllLines(ConfigLayout.Marks(t), depth)
      decreases t, 1
    {
      ConfigLayout.Layout(t, depth);
      text := "";
      var i := 0;
      while i < |statements|
        invariant 0 <= i <= |statements|
        invariant text == Print(t[..i], depth)
      {
        var s := statements[i].ToString(depth, t[i], repr);
        text := text + s;
        PrintSnoc(t[..i], t[i], depth);
        assert t[..i + 1] == t[..i] + [t[i]];
        i := i + 1;
      }
      assert t[..i] == t;
    }
  }

  method AppendIndent(text0: string, depth: int) returns (text: string)
    ensures text == text0 + Indent(depth)
  {
    text := text0;
    var i := 0;
    while i < depth
      invariant 0 <= i && (i <= depth || i == 0)
      invariant text == text0 + Indent(i)
    {
      IndentSnoc(i);
      text := text + "  ";
      i := i + 1;
    }
  }

  lemma {:induction false} IndentSnoc(depth: nat)
    ensures Indent(depth + 1) == Indent(depth) + "  "
    decreases depth
  {
    if depth > 0 {
      IndentSnoc(depth - 1);
    }
  }

  lemma {:induction false} SpacedSnoc(tokens: seq<string>, t: string)
    ensures Spaced(tokens + [t]) == Spaced(tokens) + (if tokens == [] then "" else " ") + t
    decreases |tokens|
  {
    if tokens != [] {
      assert (tokens + [t])[1..] == tokens[1..] + [t];
      SpacedSnoc(tokens[1..], t);
    }
  }

  lemma {:induction false} PrintSnoc(block: seq<Statement>, s: Statement, depth: int)
    ensures Print(block + [s], depth) == Print(block, depth) + PrintStatement(s, depth)
    decreases |block|
  {
    if block == [] {
      assert [s][1..] == [];
    } else {
      assert (block + [s])[1..] == block[1..] + [s];
      PrintSnoc(block[1..], s, depth);
    }
  }

  // ----- What the objects represent -----

  /** The statement object `o`, with all it owns inside `repr`, represents `t`. */
  ghost predicate RepStatement(o: NginxConfigStatement, t: Statement, repr: set<object>)
    reads repr
    decreases t, 0
  {
    && o in repr
    && o.tokens == t.tokens
    && match t
       case Simple(_) => o.childBlock == null
       case Block(_, body) =>
         o.childBlock != null && o.childBlock in repr && RepBlock(o.childBlock.statements, body, repr)
  }

  ghost predicate RepBlock(os: seq<NginxConfigStatement>, ts: seq<Statement>, repr: set<object>)
    reads repr
    decreases ts, 1
  {
    |os| == |ts| && forall i | 0 <= i < |ts| :: RepStatement(os[i], ts[i], repr)
  }

  lemma {:induction false} RepStatementGrows(o: NginxConfigStatement, t: Statement, repr: set<object>, more: set<object>)
    requires RepStatement(o, t, repr) && repr <= more
    ensures RepStatement(o, t, more)
    decreases t, 0
  {
    if t.Block? {
      RepBlockGrows(o.childBlock.statements, t.body, repr, more);
    }
  }

  lemma {:induction false} RepBlockGrows(os: seq<NginxConfigStatement>, ts: seq<Statement>,
                                         repr: set<object>, more: set<object>)
    requires RepBlock(os, ts, repr) && repr <= more
    ensures RepBlock(os, ts, more)
    decreases ts, 1
  {
    forall i | 0 <= i < |ts|
      ensures RepStatement(os[i], ts[i], more)
    {
      RepStatementGrows(os[i], ts[i], repr, more);
    }
  }

  // ----- The open spine -----

  /**
   * An open block other than the innermost: its object, its unfinished statement and its finished ones. `own`
   * holds what the finished statements own, `below` everything that belongs to the blocks around this one.
   */
  datatype Level = Level(
    config: NginxConfig,
    open: NginxConfigStatement,
    done: seq<NginxConfigStatement>,
    own: set<object>,
    below: set<object>)

  /**
   * The objects on the path from the root to the innermost open block `top`. `topOpen` is the unfinished
   * statement of `top`, if there is one; `own` holds what its finished statements own, `below` all the rest.
   */
  datatype Spine = Spine(
    outer: seq<Level>,
    top: NginxConfig,
    topDone: seq<NginxConfigStatement>,
    topOpen: seq<NginxConfigStatement>,
    own: set<object>,
    below: set<object>)

  /** Every object of the tree. */
  ghost function Objects(sp: Spine): set<object> {
    sp.below + sp.own + {sp.top} + (set o | o in sp.topOpen)
  }

  function Root(sp: Spine): NginxConfig {
    if sp.outer == [] then sp.top else sp.outer[0].config
  }

  /** The stack of `Parse`: the open blocks from the root to the innermost one. */
  function Stack(sp: Spine): seq<NginxConfig> {
    Configs(sp.outer) + [sp.top]
  }

  function Configs(levels: seq<Level>): seq<NginxConfig>
    decreases |levels|
  {
    if levels == [] then [] else var k := |levels| - 1; Configs(levels[..k]) + [levels[k].config]
  }

  /** Only the root can hold statements from before the run. */
  function Before(base: seq<NginxConfigStatement>, depth: nat): seq<NginxConfigStatement> {
    if depth == 0 then base else []
  }

  /**
   * Each level's last statement is its unfinished one, whose child block is the next level (`next` after the
   * last). The objects of a level are disjoint from those below it, so that a write at the top changes no level.
   */
  ghost predicate LevelsHold(base: seq<NginxConfigStatement>, frames: seq<Frame>, levels: seq<Level>,
                             next: NginxConfig, region: set<object>)
    reads region
    decreases |levels|
  {
    && |frames| == |levels|
    && (levels != [] ==>
          var k := |levels| - 1;
          var l := levels[k];
          && region == l.below + l.own + {l.config, l.open}
          && l.own !! l.below && l.config !in l.below + l.own && l.open !in l.below + l.own
          && l.config.statements == Before(base, k) + l.done + [l.open]
          && l.open.tokens == frames[k].open && l.open.childBlock == next
          && RepBlock(l.done, frames[k].done, l.own)
          && LevelsHold(base, frames[..k], levels[..k], l.config, l.below))
  }

  ghost predicate TopHolds(base: seq<NginxConfigStatement>, f: Frame, sp: Spine)
    reads sp.own, sp.top, sp.topOpen
  {
    && sp.own !! sp.below && sp.top !in sp.below + sp.own
    && (forall o | o in sp.topOpen :: o !in sp.below + sp.own)
    && sp.top.statements == Before(base, |sp.outer|) + sp.topDone + sp.topOpen
    && RepBlock(sp.topDone, f.done, sp.own)
    && |sp.topOpen| == (if f.open == [] then 0 else 1)
    && (f.open != [] ==> sp.topOpen[0].tokens == f.open && sp.topOpen[0].childBlock == null)
  }

  /** The spine is the chain of last-statement child blocks, and holds exactly the frames `outer` and `top`. */
  ghost predicate Holds(base: seq<NginxConfigStatement>, outer: seq<Frame>, top: Frame, sp: Spine)
    reads Objects(sp)
  {
    LevelsHold(base, outer, sp.outer, sp.top, sp.below) && TopHolds(base, top, sp)
  }

  /** The unfinished statement of the innermost block, taken as finished. No object changes. */
  ghost function SettledSpine(sp: Spine): Spine {
    sp.(topDone := sp.topDone + sp.topOpen, topOpen := [], own := sp.own + (set o | o in sp.topOpen))
  }

  lemma {:induction false} SettleHolds(base: seq<NginxConfigStatement>, outer: seq<Frame>, top: Frame, sp: Spine)
    requires Holds(base, outer, top, sp)
    ensures Holds(base, outer, Frame(Body(top), []), SettledSpine(sp))
    ensures Objects(SettledSpine(sp)) == Objects(sp)
  {
    RepBlockGrows(sp.topDone, top.done, sp.own, SettledSpine(sp).own);
  }

  /** Closing the innermost block moves its objects to the finished part of its parent. No object changes. */
  ghost function PoppedSpine(sp: Spine): Spine
    requires sp.outer != []
  {
    var k := |sp.outer| - 1;
    var l := sp.outer[k];
    Spine(sp.outer[..k], l.config, l.done + [l.open], [], l.own + sp.own + {sp.top, l.open}, l.below)
  }

  lemma {:induction false} PopHolds(base: seq<NginxConfigStatement>, outer: seq<Frame>, top: Frame, sp: Spine)
    requires Holds(base, outer, top, sp) && outer != [] && top.open == []
    ensures var k := |outer| - 1; Holds(base, outer[..k], Close(outer[k], top), PoppedSpine(sp))
    ensures Objects(PoppedSpine(sp)) == Objects(sp)
  {
    var k := |outer| - 1;
    var l, own := sp.outer[k], PoppedSpine(sp).own;
    RepBlockGrows(l.done, outer[k].done, l.own, own);
    RepBlockGrows(sp.topDone, top.done, sp.own, own);
    assert sp.top.statements == sp.topDone;
    assert RepStatement(l.open, Block(outer[k].open, Body(top)), own);
  }

  /** The root's new statements represent the tree the open blocks stand for. */
  lemma {:induction false} SpineRepresentsTree(base: seq<NginxConfigStatement>, outer: seq<Frame>, top: Frame, sp: Spine)
    requires Holds(base, outer, top, sp)
    ensures |base| <= |Root(sp).statements| && Root(sp).statements[..|base|] == base
    ensures RepBlock(Root(sp).statements[|base|..], Tree(outer, top), Objects(sp))
    decreases |outer|
  {
    var f, sp' := Frame(Body(top), []), SettledSpine(sp);
    SettleHolds(base, outer, top, sp);
    if outer == [] {
      assert sp.top.statements[|base|..] == sp'.topDone;
      RepBlockGrows(sp'.topDone, f.done, sp'.own, Objects(sp));
    } else {
      var k := |outer| - 1;
      PopHolds(base, outer, f, sp');
      SpineRepresentsTree(base, outer[..k], Close(outer[k], f), PoppedSpine(sp'));
      assert Close(outer[k], f) == Close(outer[k], top);
    }
  }

  // ----- The parser -----

  /** A word starts a new statement of the innermost block, or extends the unfinished one. */
  method AddWord(config: NginxConfig, last: TokenType, token: string,
                 ghost base: seq<NginxConfigStatement>, ghost outer: seq<Frame>, ghost top: Frame, ghost sp: Spine)
    returns (ghost next: Spine, ghost added: set<object>)
    requires Holds(base, outer, top, sp) && config == sp.top
    requires last == TypeNormal <==> top.open != []
    modifies config, set o | o in sp.topOpen
    ensures Holds(base, outer, Frame(top.done, top.open + [token]), next)
    ensures next.outer == sp.outer && next.top == sp.top
    ensures fresh(added) && Objects(next) <= Objects(sp) + added
  {
    next, added := sp, {};
    if last != TypeNormal {
      var statement := new NginxConfigStatement();
      config.statements := config.statements + [statement];
      next, added := sp.(topOpen := [statement]), {statement};
    }
    var back := config.statements[|config.statements| - 1];
    back.tokens := back.tokens + [token];
  }

  ghost function OpenedSpine(sp: Spine, newConfig: NginxConfig): Spine
    requires sp.topOpen != []
  {
    Spine(sp.outer + [Level(sp.top, sp.topOpen[0], sp.topDone, sp.own, sp.below)], newConfig, [], [],
          {}, sp.below + sp.own + {sp.top, sp.topOpen[0]})
  }

  lemma {:induction false} OpenedHolds(base: seq<NginxConfigStatement>, outer: seq<Frame>, top: Frame, sp: Spine,
                                       newConfig: NginxConfig)
    requires LevelsHold(base, outer, sp.outer, sp.top, sp.below)
    requires sp.own !! sp.below && sp.top !in sp.below + sp.own
    requires |sp.topOpen| == 1 && sp.topOpen[0] !in sp.below + sp.own
    requires sp.top.statements == Before(base, |sp.outer|) + sp.topDone + sp.topOpen
    requires RepBlock(sp.topDone, top.done, sp.own)
    requires sp.topOpen[0].tokens == top.open && sp.topOpen[0].childBlock == newConfig
    requires newConfig !in Objects(sp) && newConfig.statements == []
    ensures Holds(base, outer + [top], Frame([], []), OpenedSpine(sp, newConfig))
  {
    var next := OpenedSpine(sp, newConfig);
    assert next.outer[..|sp.outer|] == sp.outer && (outer + [top])[..|outer|] == outer;
    assert sp.topOpen == [sp.topOpen[0]];
  }

  lemma {:induction false} OpenedShape(sp: Spine, newConfig: NginxConfig)
    requires |sp.topOpen| == 1
    ensures Stack(OpenedSpine(sp, newConfig)) == Stack(sp) + [newConfig]
    ensures Objects(OpenedSpine(sp, newConfig)) == Objects(sp) + {newConfig}
    ensures Root(OpenedSpine(sp, newConfig)) == Root(sp)
  {
    assert OpenedSpine(sp, newConfig).outer[..|sp.outer|] == sp.outer;
  }

  /** The unfinished statement of the innermost block gets a new, empty block, which becomes the innermost one. */
  method OpenBlock(config: NginxConfig, ghost base: seq<NginxConfigStatement>,
                   ghost outer: seq<Frame>, ghost top: Frame, ghost sp: Spine)
    returns (newConfig: NginxConfig)
    requires Holds(base, outer, top, sp) && config == sp.top && top.open != []
    modifies set o | o in sp.topOpen
    ensures fresh(newConfig)
    ensures Holds(base, outer + [top], Frame([], []), OpenedSpine(sp, newConfig))
  {
    newConfig := new NginxConfig();
    var back := config.statements[|config.statements| - 1];
    back.childBlock := newConfig;
    OpenedHolds(base, outer, top, sp, newConfig);
  }

  /** The program's stack and objects hold the state `st` of the run. */
  ghost predicate InState(base: seq<NginxConfigStatement>, st: State, stack: seq<NginxConfig>, sp: Spine)
    reads Objects(sp)
  {
    Holds(base, st.outer, st.top, sp) && stack == if st.popped then [] else Stack(sp)
  }

  /** What `Parse` knows of the last token type. */
  predicate Tracks(last: TokenType, st: State) {
    last == st.last && (last == TypeNormal <==> st.top.open != []) && (st.popped ==> st.outer == [] && last == TypeEndBlock)
  }

  /** One iteration of the loop of `Parse` for any report of the lexer. */
  function Transition(st: State, kind: TokenType, token: string): Progress {
    match kind
    case TypeError => Stopped(Rejected, st)
    case TypeStart => Stopped(Rejected, st)
    case TypeComment => Going(st)
    case TypeEof => Stopped(if st.last == TypeStatementEnd || st.last == TypeEndBlock then Accepted else Rejected, st)
    case _ => Step(st, TokenOf(Lexed(kind, token, "")))
  }

  lemma {:induction false} TransitionTracks(last: TokenType, st: State, kind: TokenType, token: string)
    requires Tracks(last, st) && Transition(st, kind, token).Going?
    ensures Tracks(if kind == TypeComment then last else kind, Transition(st, kind, token).state)
  {
  }

  /** The run on `text` goes on as the run from `st` on what is left of it. */
  ghost predicate Continues(text: string, st: State, rest: string) {
    && OutcomeOf(Run(st, Tokens(rest).tokens), Tokens(rest).clean) == ParseOutcome(text)
    && TreeOf(Run(st, Tokens(rest).tokens).state) == ParseTree(text)
  }

  /** What one report of the lexer does to the run. */
  lemma {:induction false} ReportContinues(text: string, st: State, rest: string, kind: TokenType, token: string, next: string)
    requires Continues(text, st, rest)
    requires Lexed(kind, token, next) == Lex(InitialWhitespace, rest, "")
    ensures match Transition(st, kind, token)
            case Going(st') => Continues(text, st', next) && |next| < |rest|
            case Stopped(o, st') => o == ParseOutcome(text) && TreeOf(st') == ParseTree(text)
  {
    if kind in {TypeNormal, TypeStartBlock, TypeEndBlock, TypeStatementEnd} {
      assert Tokens(rest).tokens[1..] == Tokens(next).tokens;
    }
  }

  /** The program's state is the one `p` leads to, and it stops exactly when `p` does, with its outcome. */
  ghost predicate Follows(base: seq<NginxConfigStatement>, p: Progress, done: bool, outcome: Outcome,
                          stack: seq<NginxConfig>, sp: Spine)
    reads Objects(sp)
  {
    && InState(base, p.state, stack, sp)
    && done == p.Stopped?
    && (done ==> outcome == p.outcome)
  }

  method OnWord(stack: seq<NginxConfig>, last: TokenType, token: string,
                ghost base: seq<NginxConfigStatement>, ghost st: State, ghost sp: Spine)
    returns (done: bool, outcome: Outcome, ghost next: Spine, ghost added: set<object>)
    requires InState(base, st, stack, sp) && Tracks(last, st)
    modifies sp.top, set o | o in sp.topOpen
    ensures Follows(base, Step(st, Normal(token)), done, outcome, stack, next)
    ensures Root(next) == Root(sp) && fresh(added) && Objects(next) <= Objects(sp) + added
  {
    done, outcome, next, added := true, Undefined, sp, {};
    if stack != [] {
      done := false;
      next, added := AddWord(stack[|stack| - 1], last, token, base, st.outer, st.top, sp);
      assert st.top.open == [] ==> st.top.open + [token] == [token];
    }
  }

  method OnStatementEnd(stack: seq<NginxConfig>, last: TokenType,
                        ghost base: seq<NginxConfigStatement>, ghost st: State, ghost sp: Spine)
    returns (done: bool, outcome: Outcome, ghost next: Spine)
    requires InState(base, st, stack, sp) && Tracks(last, st)
    ensures Follows(base, Step(st, StatementEnd), done, outcome, stack, next)
    ensures Root(next) == Root(sp) && Objects(next) == Objects(sp)
  {
    done, outcome, next := true, Rejected, sp;
    if last == TypeNormal {
      done := false;
      SettleHolds(base, st.outer, st.top, sp);
      next := SettledSpine(sp);
    }
  }

  method OnStartBlock(stack: seq<NginxConfig>, last: TokenType,
                      ghost base: seq<NginxConfigStatement>, ghost st: State, ghost sp: Spine)
    returns (done: bool, outcome: Outcome, newStack: seq<NginxConfig>, ghost next: Spine, ghost added: set<object>)
    requires InState(base, st, stack, sp) && Tracks(last, st)
    modifies set o | o in sp.topOpen
    ensures Follows(base, Step(st, StartBlock), done, outcome, newStack, next)
    ensures Root(next) == Root(sp) && fresh(added) && Objects(next) <= Objects(sp) + added
  {
    done, outcome, newStack, next, added := true, Rejected, stack, sp, {};
    if last == TypeNormal {
      done := false;
      var newConfig := OpenBlock(stack[|stack| - 1], base, st.outer, st.top, sp);
      OpenedShape(sp, newConfig);
      newStack, next, added := stack + [newConfig], OpenedSpine(sp, newConfig), {newConfig};
    }
  }

  method OnEndBlock(stack: seq<NginxConfig>, last: TokenType,
                    ghost base: seq<NginxConfigStatement>, ghost st: State, ghost sp: Spine)
    returns (done: bool, outcome: Outcome, newStack: seq<NginxConfig>, ghost next: Spine)
    requires InState(base, st, stack, sp) && Tracks(last, st)
    ensures Follows(base, Step(st, EndBlock), done, outcome, newStack, next)
    ensures Root(next) == Root(sp) && Objects(next) == Objects(sp)
  {
    done, outcome, newStack, next := true, Rejected, stack, sp;
    if last == TypeStatementEnd || last == TypeEndBlock {
      if stack == [] {
        outcome := Undefined;
      } else {
        done, newStack := false, stack[..|stack| - 1];
        if st.outer != [] {
          PopHolds(base, st.outer, st.top, sp);
          next := PoppedSpine(sp);
        }
      }
    }
  }

  /** The reports that are tokens of the grammar, and those that are not. */
  lemma {:induction false} TransitionIs(last: TokenType, st: State, kind: TokenType, token: string)
    requires Tracks(last, st)
    ensures kind == TypeNormal ==> Transition(st, kind, token) == Step(st, Normal(token))
    ensures kind == TypeStatementEnd ==> Transition(st, kind, token) == Step(st, StatementEnd)
    ensures kind == TypeStartBlock ==> Transition(st, kind, token) == Step(st, StartBlock)
    ensures kind == TypeEndBlock ==> Transition(st, kind, token) == Step(st, EndBlock)
    ensures kind == TypeComment ==> Transition(st, kind, token) == Going(st)
    ensures kind in {TypeError, TypeStart} ==> Transition(st, kind, token) == Stopped(Rejected, st)
    ensures kind == TypeEof && (last == TypeStatementEnd || last == TypeEndBlock) ==>
              Transition(st, kind, token) == Stopped(Accepted, st)
    ensures kind == TypeEof && last != TypeStatementEnd && last != TypeEndBlock ==>
              Transition(st, kind, token) == Stopped(Rejected, st)
  {
  }

  lemma {:induction false} TopIsOfTheTree(sp: Spine)
    ensures sp.top in Objects(sp) && forall k | 0 <= k < |sp.topOpen| :: sp.topOpen[k] in Objects(sp)
  {
  }

  /** Nothing changes but that the run may be over. */
  lemma {:induction false} Unchanged(base: seq<NginxConfigStatement>, st: State, stack: seq<NginxConfig>, sp: Spine,
                                     outcome: Outcome)
    requires InState(base, st, stack, sp)
    ensures Follows(base, Stopped(outcome, st), true, outcome, stack, sp)
    ensures Follows(base, Going(st), false, outcome, stack, sp)
  {
  }

  lemma {:induction false} FollowsMeans(base: seq<NginxConfigStatement>, p: Progress, done: bool, outcome: Outcome,
                                        stack: seq<NginxConfig>, sp: Spine)
    requires Follows(base, p, done, outcome, stack, sp)
    ensures InState(base, p.state, stack, sp) && done == p.Stopped? && (done ==> outcome == p.outcome)
  {
  }

  /** The body of the loop of `Parse` once the lexer has reported `kind` and `token`. */
  method OnToken(stack: seq<NginxConfig>, last: TokenType, kind: TokenType, token: string,
                 ghost base: seq<NginxConfigStatement>, ghost st: State, ghost sp: Spine)
    returns (done: bool, outcome: Outcome, newStack: seq<NginxConfig>, ghost next: Spine, ghost added: set<object>)
    requires InState(base, st, stack, sp) && Tracks(last, st)
    modifies Objects(sp)
    ensures Follows(base, Transition(st, kind, token), done, outcome, newStack, next)
    ensures Root(next) == Root(sp) && fresh(added) && Objects(next) <= Objects(sp) + added
  {
    hide *;
    TransitionIs(last, st, kind, token);
    TopIsOfTheTree(sp);
    done, outcome, newStack, next, added := kind != TypeComment, Rejected, stack, sp, {};
    if kind == TypeNormal {
      done, outcome, next, added := OnWord(stack, last, token, base, st, sp);
    } else if kind == TypeStatementEnd {
      done, outcome, next := OnStatementEnd(stack, last, base, st, sp);
    } else if kind == TypeStartBlock {
      done, outcome, newStack, next, added := OnStartBlock(stack, last, base, st, sp);
    } else if kind == TypeEndBlock {
      done, outcome, newStack, next := OnEndBlock(stack, last, base, st, sp);
    } else {
      if kind == TypeEof && (last == TypeStatementEnd || last == TypeEndBlock) {
        outcome := Accepted;
      }
      Unchanged(base, st, stack, sp, outcome);
    }
  }

  /** `ParseToken` on a fresh token string, with what its report does to the run. */
  method ReadToken(input: InputStream, ghost text: string, ghost st: State) returns (kind: TokenType, token: string)
    requires input.Valid() && Continues(text, st, input.Remaining())
    modifies input
    ensures input.Valid()
    ensures match Transition(st, kind, token)
            case Going(st') => Continues(text, st', input.Remaining()) && |input.Remaining()| < |old(input.Remaining())|
            case Stopped(o, st') => o == ParseOutcome(text) && TreeOf(st') == ParseTree(text)
  {
    kind, token := ParseToken(input, "");
    ReportContinues(text, st, old(input.Remaining()), kind, token, input.Remaining());
  }

  /** Where the run on `text` stands: still going, or finished with its outcome and tree. */
  ghost predicate Stands(text: string, done: bool, outcome: Outcome, last: TokenType, st: State, rest: string) {
    if done then outcome == ParseOutcome(text) && TreeOf(st) == ParseTree(text)
    else Tracks(last, st) && Continues(text, st, rest)
  }

  lemma {:induction false} StandsMeans(text: string, outcome: Outcome, last: TokenType, st: State, rest: string)
    ensures Stands(text, false, outcome, last, st, rest) <==> Tracks(last, st) && Continues(text, st, rest)
    ensures Stands(text, true, outcome, last, st, rest) <==> outcome == ParseOutcome(text) && TreeOf(st) == ParseTree(text)
  {
  }

  /** Where the run stands after the report `kind`, `token`. */
  lemma {:induction false} StandsAfter(text: string, last: TokenType, st: State, kind: TokenType, token: string,
                                       done: bool, outcome: Outcome, rest: string)
    requires Tracks(last, st)
    requires var p := Transition(st, kind, token);
             && done == p.Stopped? && (done ==> outcome == p.outcome)
             && match p
                case Going(st') => Continues(text, st', rest)
                case Stopped(o, st') => o == ParseOutcome(text) && TreeOf(st') == ParseTree(text)
    ensures Stands(text, done, outcome, if kind == TypeComment then last else kind,
                   Transition(st, kind, token).state, rest)
  {
    if !done {
      TransitionTracks(last, st, kind, token);
    }
  }

  /** One iteration of the loop of `Parse`. */
  method Iterate(input: InputStream, stack: seq<NginxConfig>, last: TokenType, ghost text: string,
                 ghost base: seq<NginxConfigStatement>, ghost st: State, ghost sp: Spine, ghost mine: set<object>)
    returns (done: bool, outcome: Outcome, newStack: seq<NginxConfig>, newLast: TokenType,
             ghost newSt: State, ghost next: Spine, ghost newMine: set<object>)
    requires input.Valid() && InState(base, st, stack, sp) && Objects(sp) <= mine && input !in mine
    requires Tracks(last, st) && Continues(text, st, input.Remaining())
    modifies input, mine
    ensures input.Valid() && InState(base, newSt, newStack, next)
    ensures Root(next) == Root(sp) && Objects(next) <= newMine && mine <= newMine && fresh(newMine - mine)
    ensures Stands(text, done, outcome, newLast, newSt, input.Remaining())
    ensures !done ==> |input.Remaining()| < |old(input.Remaining())|
  {
    hide *;
    var kind, token := ReadToken(input, text, st);
    ghost var added;
    done, outcome, newStack, next, added := OnToken(stack, last, kind, token, base, st, sp);
    FollowsMeans(base, Transition(st, kind, token), done, outcome, newStack, next);
    newMine := mine + added;
    newSt, newLast := Transition(st, kind, token).state, if kind == TypeComment then last else kind;
    StandsAfter(text, last, st, kind, token, done, outcome, input.Remaining());
  }

  /** The root alone is the spine before the first token. */
  ghost function RootOnly(config: NginxConfig): Spine {
    Spine([], config, [], [], {}, {})
  }

  lemma {:induction false} AtStart(config: NginxConfig, text: string)
    ensures InState(config.statements, INITIAL, [config], RootOnly(config))
    ensures Root(RootOnly(config)) == config && Objects(RootOnly(config)) == {config}
    ensures Stands(text, false, Rejected, TypeStart, INITIAL, text)
  {
  }

  lemma {:induction false} AtEnd(base: seq<NginxConfigStatement>, st: State, stack: seq<NginxConfig>, sp: Spine)
    requires InState(base, st, stack, sp)
    ensures Holds(base, st.outer, st.top, sp)
  {
  }

  /** The loop of `Parse`. */
  method ParseLoop(input: InputStream, config: NginxConfig) returns (outcome: Outcome, ghost st: State, ghost sp: Spine)
    requires input.Valid()
    modifies input, config
    ensures Holds(old(config.statements), st.outer, st.top, sp) && Root(sp) == config
    ensures outcome == ParseOutcome(old(input.Remaining())) && TreeOf(st) == ParseTree(old(input.Remaining()))
    ensures fresh(Objects(sp) - {config}) && input !in Objects(sp)
  {
    hide *;
    ghost var base, text := config.statements, input.Remaining();
    ghost var mine: set<object> := {config};
    AtStart(config, text);
    st, sp := INITIAL, RootOnly(config);
    var stack, last := [config], TypeStart;
    var done := false;
    outcome := Rejected;
    while !done
      invariant input.Valid() && input !in mine && fresh(mine - {config}) && Objects(sp) <= mine
      invariant InState(base, st, stack, sp) && Root(sp) == config
      invariant Stands(text, done, outcome, last, st, input.Remaining())
      decreases !done, |input.Remaining()|
    {
      StandsMeans(text, outcome, last, st, input.Remaining());
      done, outcome, stack, last, st, sp, mine := Iterate(input, stack, last, text, base, st, sp, mine);
    }
    StandsMeans(text, outcome, last, st, input.Remaining());
    AtEnd(base, st, stack, sp);
  }

  /**
   * `NginxConfigParser::Parse` on an open stream. The outcome and the statements added to `config` are those of
   * the value-level run; earlier statements of `config` are kept. `Undefined` marks the runs in which the program
   * uses its block stack after popping the root from it.
   */
  method Parse(input: InputStream, config: NginxConfig) returns (outcome: Outcome, ghost repr: set<object>)
    requires input.Valid()
    modifies input, config
    ensures outcome == ParseOutcome(old(input.Remaining()))
    ensures var n := |old(config.statements)|;
            n <= |config.statements| && config.statements[..n] == old(config.statements)
            && RepBlock(config.statements[n..], ParseTree(old(input.Remaining())), repr)
    ensures fresh(repr - {config}) && input !in repr
  {
    ghost var base := config.statements;
    ghost var st, sp;
    outcome, st, sp := ParseLoop(input, config);
    SpineRepresentsTree(base, st.outer, st.top, sp);
    repr := Objects(sp);
  }

  /**
   * The property the printer and the parser are for, on objects: a printed configuration reads back as a
   * configuration that represents the same tree.
   */
  method Reload(config: NginxConfig, depth: int, ghost t: seq<Statement>, ghost repr: set<object>)
    returns (copy: NginxConfig, ghost copyRepr: set<object>)
    requires RepBlock(config.statements, t, repr) && WellFormed(t)
    ensures fresh(copy) && fresh(copyRepr - {copy})
    ensures RepBlock(copy.statements, t, copyRepr)
  {
    var text := config.ToString(depth, t, repr);
    var input := new InputStream(text);
    copy := new NginxConfig();
    var outcome;
    outcome, copyRepr := Parse(input, copy);
    ParsePrint(t, depth);
    assert copy.statements[0..] == copy.statements;
  }
}
