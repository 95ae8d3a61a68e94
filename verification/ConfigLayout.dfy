/** The layout of the printed form: one line for every head and every closing brace, indented by the braces before it. */
module ConfigLayout {
  import opened ConfigSyntax
  import opened TextFields

  /** A line of the printed form, without its indentation. */
  datatype Mark = Mark(opens: bool, closes: bool, text: string)

  /** The heads and closing braces of a tree, in order. */
  function Marks(block: seq<Statement>): seq<Mark>
    decreases block, 1
  {
    if block == [] then [] else MarksOf(block[0]) + Marks(block[1..])
  }

  function MarksOf(s: Statement): seq<Mark>
    decreases s, 0
  {
    match s
    case Simple(tokens) => [Mark(false, false, Join(tokens, ' ') + ";")]
    case Block(tokens, body) => [Mark(true, false, Join(tokens, ' ') + " {")] + Marks(body) + [Mark(false, true, "}")]
  }

  /** How many of the first `n` lines open a block. */
  function Opened(marks: seq<Mark>, n: nat): nat
    requires n <= |marks|
  {
    if n == 0 then 0 else Opened(marks, n - 1) + if marks[n - 1].opens then 1 else 0
  }

  function Closed(marks: seq<Mark>, n: nat): nat
    requires n <= |marks|
  {
    if n == 0 then 0 else Closed(marks, n - 1) + if marks[n - 1].closes then 1 else 0
  }

  /** The nesting level of a line: the blocks opened before it, without those closed before it or by it. */
  function Level(marks: seq<Mark>, k: nat): int
    requires k < |marks|
  {
    Opened(marks, k) - Closed(marks, k + 1)
  }

  function Blanks(n: int): (s: string)
    ensures |s| == if n < 0 then 0 else n
    ensures forall i | 0 <= i < |s| :: s[i] == ' '
  {
    seq(if n < 0 then 0 else n, i => ' ')
  }

  /** The first `n` lines; each is indented by two blanks for each level. */
  function Lines(marks: seq<Mark>, n: nat, depth: int): string
    requires n <= |marks|
  {
    if n == 0 then ""
    else Lines(marks, n - 1, depth) + (Blanks(2 * (depth + Level(marks, n - 1))) + marks[n - 1].text + "\n")
  }

  function AllLines(marks: seq<Mark>, depth: int): string {
    Lines(marks, |marks|, depth)
  }

  /** The surplus of opened blocks. */
  function Balance(marks: seq<Mark>): int {
    Opened(marks, |marks|) - Closed(marks, |marks|)
  }

  // ----- Lines of concatenated lists -----

  lemma {:induction false} CountsOfFirst(a: seq<Mark>, b: seq<Mark>, n: nat)
    requires n <= |a|
    ensures Opened(a + b, n) == Opened(a, n) && Closed(a + b, n) == Closed(a, n)
  {
    if n > 0 {
      CountsOfFirst(a, b, n - 1);
    }
  }

  lemma {:induction false} CountsOfSecond(a: seq<Mark>, b: seq<Mark>, n: nat)
    requires n <= |b|
    ensures Opened(a + b, |a| + n) == Opened(a, |a|) + Opened(b, n)
    ensures Closed(a + b, |a| + n) == Closed(a, |a|) + Closed(b, n)
  {
    if n == 0 {
      CountsOfFirst(a, b, |a|);
    } else {
      CountsOfSecond(a, b, n - 1);
    }
  }

  lemma {:induction false} LinesOfFirst(a: seq<Mark>, b: seq<Mark>, n: nat, depth: int)
    requires n <= |a|
    ensures Lines(a + b, n, depth) == Lines(a, n, depth)
  {
    if n > 0 {
      LinesOfFirst(a, b, n - 1, depth);
      CountsOfFirst(a, b, n - 1);
      CountsOfFirst(a, b, n);
    }
  }

  lemma {:induction false} LevelOfSecond(a: seq<Mark>, b: seq<Mark>, n: nat)
    requires n < |b|
    ensures (a + b)[|a| + n] == b[n] && Level(a + b, |a| + n) == Level(b, n) + Balance(a)
  {
    CountsOfSecond(a, b, n);
    CountsOfSecond(a, b, n + 1);
  }

  function LineAt(marks: seq<Mark>, k: nat, depth: int): string
    requires k < |marks|
  {
    Blanks(2 * (depth + Level(marks, k))) + marks[k].text + "\n"
  }

  lemma {:induction false} LinesStep(marks: seq<Mark>, n: nat, depth: int)
    requires n < |marks|
    ensures Lines(marks, n + 1, depth) == Lines(marks, n, depth) + LineAt(marks, n, depth)
  {
  }

  lemma {:induction false} LineOfSecond(a: seq<Mark>, b: seq<Mark>, n: nat, depth: int)
    requires n < |b|
    ensures LineAt(a + b, |a| + n, depth) == LineAt(b, n, depth + Balance(a))
  {
    LevelOfSecond(a, b, n);
  }

  lemma {:induction false} NoLines(b: seq<Mark>, depth: int, text: string)
    ensures text + Lines(b, 0, depth) == text
  {
  }

  lemma {:induction false} LinesOfSecond(a: seq<Mark>, b: seq<Mark>, n: nat, depth: int)
    requires n <= |b|
    ensures Lines(a + b, |a| + n, depth) == AllLines(a, depth) + Lines(b, n, depth + Balance(a))
  {
    hide Lines, LineAt, Balance;
    if n == 0 {
      LinesOfFirst(a, b, |a|, depth);
      NoLines(b, depth + Balance(a), AllLines(a, depth));
    } else {
      LinesOfSecond(a, b, n - 1, depth);
      LineOfSecond(a, b, n - 1, depth);
      LinesStep(a + b, |a| + (n - 1), depth);
      LinesStep(b, n - 1, depth + Balance(a));
      Regroup(AllLines(a, depth), Lines(b, n - 1, depth + Balance(a)), LineAt(b, n - 1, depth + Balance(a)));
    }
  }

  lemma {:induction false} Regroup(a: string, b: string, c: string)
    ensures a + b + c == a + (b + c)
  {
  }

  lemma {:induction false} LinesJoin(a: seq<Mark>, b: seq<Mark>, depth: int)
    ensures AllLines(a + b, depth) == AllLines(a, depth) + AllLines(b, depth + Balance(a))
    ensures Balance(a + b) == Balance(a) + Balance(b)
  {
    LinesOfSecond(a, b, |b|, depth);
    CountsOfSecond(a, b, |b|);
  }

  lemma {:induction false} OneLine(m: Mark, depth: int)
    ensures AllLines([m], depth) == Blanks(2 * (depth - if m.closes then 1 else 0)) + m.text + "\n"
    ensures Balance([m]) == (if m.opens then 1 else 0) - (if m.closes then 1 else 0)
  {
    assert Closed([m], 1) == Closed([m], 0) + if m.closes then 1 else 0;
    assert Opened([m], 1) == Opened([m], 0) + if m.opens then 1 else 0;
    assert Lines([m], 1, depth) == Lines([m], 0, depth) + (Blanks(2 * (depth + Level([m], 0))) + m.text + "\n");
  }

  // ----- The printed form -----

  lemma {:induction false} IndentIsBlank(depth: int)
    ensures Indent(depth) == Blanks(2 * depth)
    decreases depth
  {
    if depth > 0 {
      IndentIsBlank(depth - 1);
    }
  }

  lemma {:induction false} SpacedIsJoined(tokens: seq<string>)
    ensures Spaced(tokens) == Join(tokens, ' ')
    decreases |tokens|
  {
    if |tokens| > 1 {
      SpacedIsJoined(tokens[1..]);
    }
  }

  lemma {:induction false} StatementLayout(s: Statement, depth: int)
    ensures PrintStatement(s, depth) == AllLines(MarksOf(s), depth) && Balance(MarksOf(s)) == 0
    decreases s, 0
  {
    IndentIsBlank(depth);
    SpacedIsJoined(s.tokens);
    match s
    case Simple(tokens) =>
      OneLine(Mark(false, false, Join(tokens, ' ') + ";"), depth);
      Regroup(Indent(depth), Join(tokens, ' '), ";");
      Regroup(Indent(depth) + Join(tokens, ' '), ";", "\n");
    case Block(tokens, body) =>
      BlockLayout(tokens, body, depth);
  }

  lemma {:induction false} BlockLayout(tokens: seq<string>, body: seq<Statement>, depth: int)
    ensures PrintStatement(Block(tokens, body), depth) == AllLines(MarksOf(Block(tokens, body)), depth)
    ensures Balance(MarksOf(Block(tokens, body))) == 0
    decreases body, 2
  {
    var head, close := Mark(true, false, Join(tokens, ' ') + " {"), Mark(false, true, "}");
    Layout(body, depth + 1);
    OneLine(head, depth);
    OneLine(close, depth + 1);
    LinesJoin([head], Marks(body), depth);
    LinesJoin([head] + Marks(body), [close], depth);
    IndentIsBlank(depth);
    SpacedIsJoined(tokens);
    BlockText(Indent(depth), Join(tokens, ' '), Print(body, depth + 1));
  }

  lemma {:induction false} BlockText(indent: string, head: string, body: string)
    ensures indent + head + " {\n" + body + indent + "}\n" == indent + (head + " {") + "\n" + body + (indent + "}" + "\n")
  {
  }

  lemma {:induction false} EmptyLayout(depth: int)
    ensures Print([], depth) == AllLines(Marks([]), depth) && Balance(Marks([])) == 0
  {
  }

  lemma {:induction false} FirstStatement(block: seq<Statement>, depth: int)
    requires block != []
    ensures Print(block, depth) == PrintStatement(block[0], depth) + Print(block[1..], depth)
    ensures Marks(block) == MarksOf(block[0]) + Marks(block[1..])
  {
  }

  /**
   * The printed form is the list of heads and closing braces, one in a line, each indented by two blanks for each level
   * of nesting and for each step of the depth it is printed at.
   */
  lemma {:induction false} Layout(block: seq<Statement>, depth: int)
    ensures Print(block, depth) == AllLines(Marks(block), depth) && Balance(Marks(block)) == 0
    decreases block, 1
  {
    hide *;
    if block == [] {
      EmptyLayout(depth);
    } else {
      FirstStatement(block, depth);
      StatementLayout(block[0], depth);
      Layout(block[1..], depth);
      LinesJoin(MarksOf(block[0]), Marks(block[1..]), depth);
    }
  }

  lemma {:induction false} PrintOne(s: Statement, depth: int)
    ensures Print([s], depth) == PrintStatement(s, depth)
  {
    assert [s][1..] == [];
    assert Print([s], depth) == PrintStatement(s, depth) + "";
  }

  lemma {:induction false} SimpleExample()
    ensures PrintStatement(Simple(["listen", "80"]), 1) == "  listen 80;\n"
  {
    assert ["listen", "80"][1..] == ["80"];
    assert Spaced(["listen", "80"]) == "listen" + " " + "80";
    assert Indent(1) == "  " + "";
  }

  /** A block with one statement inside. */
  lemma {:induction false} LayoutExample()
    ensures Print([Block(["server"], [Simple(["listen", "80"])])], 0) == "server {\n  listen 80;\n}\n"
  {
    var inner := Simple(["listen", "80"]);
    var outer := Block(["server"], [inner]);
    PrintOne(outer, 0);
    PrintOne(inner, 1);
    SimpleExample();
    OuterExample(outer, "  listen 80;\n");
  }

  lemma {:induction false} OuterExample(s: Statement, inside: string)
    requires s.Block? && s.tokens == ["server"] && Print(s.body, 1) == inside
    ensures PrintStatement(s, 0) == "server {\n" + inside + "}\n"
  {
    assert PrintStatement(s, 0) == "" + "server" + " {\n" + inside + "" + "}\n";
  }
}
