/** The configuration tree, its tokens, and the text that `ToString` prints for it. */
module ConfigSyntax {

  /** A statement ends in `;` (`Simple`) or owns a child block (`Block`). A block is a sequence of statements. */
  datatype Statement =
    | Simple(tokens: seq<string>)
    | Block(tokens: seq<string>, body: seq<Statement>)

  /** What the lexer delivers to the grammar: comments, end of input and errors are not part of it. */
  datatype Token = Normal(word: string) | StartBlock | EndBlock | StatementEnd

  // ----- Lexemes -----

  predicate IsSpace(c: char) {
    c == ' ' || c == '\t' || c == '\n' || c == '\r'
  }

  /** The characters that end a bare word. A carriage return is not one of them. */
  predicate EndsBareWord(c: char) {
    c == ' ' || c == '\t' || c == '\n' || c == ';' || c == '{' || c == '}'
  }

  predicate StartsBareWord(c: char) {
    !IsSpace(c) && c != '{' && c != '}' && c != '#' && c != '"' && c != '\'' && c != ';'
  }

  /** The character classes, by codes. */
  lemma {:induction false} CharacterCodes(c: char)
    ensures IsSpace(c) <==> c as int in {0x09, 0x0A, 0x0D, 0x20}
    ensures EndsBareWord(c) <==> c as int in {0x09, 0x0A, 0x20, 0x3B, 0x7B, 0x7D}
    ensures StartsBareWord(c) <==> c as int !in {0x09, 0x0A, 0x0D, 0x20, 0x22, 0x23, 0x27, 0x3B, 0x7B, 0x7D}
    ensures IsQuote(c) <==> c as int in {0x22, 0x27}
  {
  }

  predicate IsBareWord(w: string) {
    && w != ""
    && StartsBareWord(w[0])
    && forall i | 0 < i < |w| :: !EndsBareWord(w[i])
  }

  predicate IsQuote(c: char) {
    c == '"' || c == '\''
  }

  /** An opening quote, then no further occurrence of it. */
  predicate IsUnterminated(w: string) {
    w != "" && IsQuote(w[0]) && forall i | 0 < i < |w| :: w[i] != w[0]
  }

  predicate IsQuotedWord(w: string) {
    |w| >= 2 && IsUnterminated(w[..|w| - 1]) && w[|w| - 1] == w[0]
  }

  /** The words that can occur as tokens of a statement. */
  predicate IsWord(w: string) {
    IsBareWord(w) || IsQuotedWord(w)
  }

  predicate IsComment(w: string) {
    w != "" && w[0] == '#' && forall i | 0 < i < |w| :: w[i] != '\n' && w[i] != '\r'
  }

  predicate AllSpace(s: string) {
    forall i | 0 <= i < |s| :: IsSpace(s[i])
  }

  // ----- Well-formed trees -----

  predicate WellFormedStatement(s: Statement)
    decreases s
  {
    && s.tokens != []
    && (forall w | w in s.tokens :: IsWord(w))
    && (s.Block? ==> WellFormed(s.body))
  }

  /** Blocks are never empty, at any level; every statement has a token, and every token is a word. */
  predicate WellFormed(block: seq<Statement>)
    decreases block
  {
    && block != []
    && forall i | 0 <= i < |block| :: WellFormedStatement(block[i])
  }

  // ----- Printed form -----

  function Indent(depth: int): string
    decreases depth
  {
    if depth <= 0 then "" else "  " + Indent(depth - 1)
  }

  function Spaced(tokens: seq<string>): string {
    if tokens == [] then ""
    else if |tokens| == 1 then tokens[0]
    else tokens[0] + " " + Spaced(tokens[1..])
  }

  function PrintStatement(s: Statement, depth: int): string
    decreases s, 0
  {
    match s
    case Simple(tokens) => Indent(depth) + Spaced(tokens) + ";\n"
    case Block(tokens, body) =>
      Indent(depth) + Spaced(tokens) + " {\n" + Print(body, depth + 1) + Indent(depth) + "}\n"
  }

  function Print(block: seq<Statement>, depth: int): string
    decreases block, 1
  {
    if block == [] then "" else PrintStatement(block[0], depth) + Print(block[1..], depth)
  }

  // ----- Token stream of a tree -----

  function Words(ws: seq<string>): seq<Token> {
    if ws == [] then [] else [Normal(ws[0])] + Words(ws[1..])
  }

  /** The sentence of the grammar  block ::= stmt+ ;  stmt ::= NORMAL+ (';' | '{' block '}')  whose derivation is `s`. */
  function YieldStatement(s: Statement): seq<Token>
    decreases s, 0
  {
    match s
    case Simple(tokens) => Words(tokens) + [StatementEnd]
    case Block(tokens, body) => Words(tokens) + [StartBlock] + Yield(body) + [EndBlock]
  }

  function Yield(block: seq<Statement>): seq<Token>
    decreases block, 1
  {
    if block == [] then [] else YieldStatement(block[0]) + Yield(block[1..])
  }
}
