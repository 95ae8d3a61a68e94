# Verified model of the nginx-style configuration parser and of algorithmic parts of Google Test 1.7.0

The project models, in Dafny, the code of a small web server that reads its configuration, and the algorithms of
the Google Test 1.7.0 library it is built with. It proves what this code does on every input and in every reachable
state.

**The configuration front end** (`src/parser`).

- `ConfigSyntax`, `ConfigLexer`: words, quotes, comments and marks; the character-level lexer with one-character
  push-back, proved sound and complete for a description of lexemes without states.
- `ConfigGrammar`: the stack parser as a machine over tokens, proved to accept exactly what derives from the grammar
  `block ::= stmt+`, `stmt ::= WORD+ (';' | '{' block '}')`, with closing braces that may be missing at the end and
  one that may be surplus. Use of the stack after the root was popped is the outcome `Undefined`.
- `ConfigRoundTrip`: the printer and the parser are inverse; parse-then-print is a canonical normal form.
- `ConfigLayout`: the printed form line by line, with its indentation.
- `ConfigParser`: the same on the heap. The stack of pointers is the chain of last-statement child blocks, writes
  stay on it, and the outcome and tree are those of the machine.
- `ParserProcessor`: the search for the values of a key, with its flag carried across statements.

**Google Test** (`lib/gtest-1.7.0`).

- `LinkedPtr`: circular lists of pointers that share an object, over whole programs, against a model that has only
  the list of held objects.
- `SimpleRegex`: validator and backtracking matcher against a denotational semantics.
- `TextFields`, `DeathTestFlag`, `TestFilter`, `TestNames`: fields, the flag of a death test subprocess, and wildcard
  filters.
- `WideString`, `LiteralPrinter`, `XmlPrinter`: text conversions, each with an independent reader that recovers the
  original.
- `CommandLine`: removal of recognised flags from the argument vector in place.
- `Vectors`, `Shuffle`, `TestOrder`, `BlockShuffle`, `Sharding`: the generator, the shuffle of a range, vectors of
  indices, and dealing tests to shards.
- `TestInfos`, `TestCases`, `Registration`, `ShardSelection`, `TestRuns`, `RunOrders`, `ShuffledRuns`, `UnitTest`:
  registration, filtering, shuffling and running of tests as one state machine, whose iterations are functions of the
  registered tests and a seed.

Objects that the source updates are classes; the ghost parameters of their methods (a tree, a ring, the tests
registered so far) say what the objects stand for. Pure specifications and the lemmas about them stand beside them.

## What does not hold, and when it does

- A full match (`SimpleRegex.FullMatchIsWholeMatchIff`) is a match of the whole string exactly for expressions that
  do not end in an escaped dollar; `SimpleRegex.EscapedDollarCounterexample` gives the input.
- A printed string literal (`LiteralPrinter.ReadBackIff`) reads back exactly when no NUL is followed by an octal
  digit; `LiteralPrinter.NulThenDigit` gives the input.
- `ParseNaturalNumber` does not reject every value that does not fit (`DeathTestFlag.LargeNumbersTurnNegative`); an
  accepted number is the one written exactly when it fits an int (`DeathTestFlag.NumberIsWhatIsWrittenIff`). The
  comment in the source promises more.
- The death test flag (`DeathTestFlag.FlagRoundTripIff`) round-trips exactly when the file name is free of `|` and
  the numbers are natural.
- The configuration parser accepts one surplus closing brace, and what it does after a further word or brace is
  undefined (`ConfigGrammar.UndefinedIff`, and `ConfigRoundTrip.UndefinedTextIff` for texts);
  `ConfigRoundTrip.TwoSurplusClosers` gives the input. Missing closing braces at the end of the input are accepted.
- The XML report (`XmlPrinter.KeptIff`) keeps a text exactly when all its characters are valid. Where plain chars are
  signed, the source takes bytes of 0x80 and above for invalid ones, and drops all text that is not 7-bit.

- `CodePointToUtf8` writes its message only for numbers above 0x1FFFFF (`WideString.CodePointToUtf8`). The comment in
  the source promises it for everything above 0x10FFFF.

## Model

| member | source | states |
|---|---|---|
| ConfigLexer.InputStream.Get | src/parser/ConfigParser.cpp:73-77 | one character is consumed, or the end of the input is noticed and nothing is consumed |
| ConfigLexer.InputStream.Unget | src/parser/ConfigParser.cpp:130-143 | the last character read is the next one to be read again |
| ConfigLexer.ParseToken | src/parser/ConfigParser.cpp:70-151 | the token type, the value and the text left over are those of the declarative lexer, for every input and every old value |
| ConfigLexer.LexRecognises | src/parser/ConfigParser.cpp:70-151 | every lexeme, described without states (bare word, quoted word, mark, comment), is recognised after any white space and leaves exactly the rest |
| ConfigLexer.LexMeans | src/parser/ConfigParser.cpp:70-151 | whatever is reported, the input splits into white space, a lexeme of that type, what ends it and the text left over; end of input and errors are reported only where no lexeme is complete |
| ConfigLexer.WordsAreWhatTheLexerEmits | src/parser/ConfigParser.cpp:70-151 | a text is a legal word exactly when some input makes the lexer report it as a normal token |
| ConfigLexer.TokensAreWords | src/parser/ConfigParser.cpp:70-151 | all normal tokens of any input are legal words |
| ConfigSyntax.CharacterCodes | src/parser/ConfigParser.cpp:78-147 | white space, quotes, and the characters that start or end a bare word, by code |
| ConfigGrammar.StepKeepsValid | src/parser/ConfigParser.cpp:172-223 | one token keeps the parser state well formed, on every branch |
| ConfigGrammar.RunKeepsValid | src/parser/ConfigParser.cpp:159-225 | every run keeps the parser state well formed |
| ConfigGrammar.StepConserves | src/parser/ConfigParser.cpp:172-223 | flattening the tree and the open statements in order grows by exactly the token read |
| ConfigGrammar.RunConserves | src/parser/ConfigParser.cpp:159-225 | at every point of a run, that flattening is the sequence of tokens read so far |
| ConfigGrammar.TreeIsDerivation | src/parser/ConfigParser.cpp:153-231 | between statements the tree is well formed, and its tokens are those read, completed by the closing braces still missing |
| ConfigGrammar.RunBlock | src/parser/ConfigParser.cpp:159-225 | the stack parser carries the statements of any well-formed block into the open block, at any depth |
| ConfigGrammar.DerivedIsAccepted | src/parser/ConfigParser.cpp:153-231 | what derives from the grammar, up to closing braces missing at the end, is accepted |
| ConfigGrammar.SurplusIsAccepted | src/parser/ConfigParser.cpp:205-218 | one closing brace too many after a complete block pops the root and is still accepted |
| ConfigGrammar.AcceptedIsDerived | src/parser/ConfigParser.cpp:153-231 | whatever is accepted is one of these two, and the tree built is the tree of the derivation |
| ConfigGrammar.AcceptsIffDerives | src/parser/ConfigParser.cpp:153-231 | accepted exactly when the tokens derive from the grammar with closing braces missing at the end, or with one surplus brace at the end |
| ConfigGrammar.UndefinedIff | src/parser/ConfigParser.cpp:172-223 | the popped stack is used exactly when a word or another closing brace follows a surplus one |
| ConfigGrammar.DerivationIsUnique | src/parser/ConfigParser.cpp:153-231 | two well-formed trees with the same tokens are equal |
| ConfigGrammar.DepthIsBalance | src/parser/ConfigParser.cpp:196-211 | the height of the stack is the number of open braces minus the number of closing ones |
| ConfigGrammar.NotPopped | src/parser/ConfigParser.cpp:196-211 | if closing braces never exceed opening ones on any prefix, the root stays on the stack and nothing is undefined |
| ConfigGrammar.BalancedAgreement | src/parser/ConfigParser.cpp:153-231 | for balanced braces: accepted exactly when the tokens derive from the grammar, and the tree is the tree of that derivation |
| ConfigRoundTrip.TokensOfPrint | src/parser/ConfigParser.cpp:23-54 | lexing the printed text of any block, at any depth and before any text, gives the tokens of the block |
| ConfigRoundTrip.ParsePrint | src/parser/ConfigParser.cpp:23-54 | printing any well-formed tree at any depth and parsing the text succeeds and rebuilds exactly that tree |
| ConfigRoundTrip.PrintIsInjective | src/parser/ConfigParser.cpp:23-54 | different trees have different texts, whatever the depths |
| ConfigRoundTrip.AcceptedIsWellFormed | src/parser/ConfigParser.cpp:153-231 | for every accepted text the tree is well formed and holds exactly the tokens of the text |
| ConfigRoundTrip.NormaliseIsIdempotent | src/parser/ConfigParser.cpp:23-231 | for every accepted text, printing its tree and parsing again is accepted, gives the same tree and the same text again |
| ConfigRoundTrip.NormalFormIsCanonical | src/parser/ConfigParser.cpp:23-231 | two accepted texts have the same normal form exactly when they have the same tree |
| ConfigRoundTrip.NormalFormsArePrints | src/parser/ConfigParser.cpp:23-231 | the texts that are their own normal form are exactly the printed well-formed trees |
| ConfigRoundTrip.UndefinedTextIff | src/parser/ConfigParser.cpp:153-231 | a text makes the parser use its popped stack exactly when its tokens go on with a word or another closing brace after a surplus one |
| ConfigRoundTrip.TwoSurplusClosers | src/parser/ConfigParser.cpp:205-211 | the four characters a;}} do |
| ConfigParser.NginxConfigStatement.AppendTokens | src/parser/ConfigParser.cpp:36-41 | the tokens, separated by single blanks, are appended |
| ConfigParser.NginxConfigStatement.ToString | src/parser/ConfigParser.cpp:31-54 | the object prints as the statement it represents |
| ConfigParser.NginxConfig.ToString | src/parser/ConfigParser.cpp:23-29 | the object prints as the block it represents, whose text is shown to read back and is laid out line by line as stated next |
| ConfigLayout.Layout | src/parser/ConfigParser.cpp:23-54 | the printed form is the list of heads and closing braces, one in a line, indented by two blanks for each block opened and not closed before it and for each step of the depth |
| ConfigLayout.LayoutExample | src/parser/ConfigParser.cpp:31-54 | a block with one statement is printed in three lines, the middle one indented by two blanks |
| ConfigParser.SettleHolds | src/parser/ConfigParser.cpp:191-195 | ending a statement leaves the chain of open blocks and the objects in use as they are |
| ConfigParser.PopHolds | src/parser/ConfigParser.cpp:205-211 | closing a block leaves the chain of the outer open blocks in place and reaches no new object |
| ConfigParser.SpineRepresentsTree | src/parser/ConfigParser.cpp:153-231 | when the chain of last-statement child blocks matches the parser state, the root represents the tree built so far; statements it had before are untouched |
| ConfigParser.AddWord | src/parser/ConfigParser.cpp:181-186 | a word enters the last statement of the open block or starts a new one; only that block and that statement are written |
| ConfigParser.OpenBlock | src/parser/ConfigParser.cpp:201-204 | the last statement gets a new empty child block, which becomes the open block; only that statement is written |
| ConfigParser.OnToken | src/parser/ConfigParser.cpp:172-223 | every branch of the loop body makes the heap and the stack follow the step of the grammar machine, or stops with its outcome |
| ConfigParser.ReadToken | src/parser/ConfigParser.cpp:160-170 | each round consumes input, or ends the parse with the outcome the declarative parser gives |
| ConfigParser.Iterate | src/parser/ConfigParser.cpp:159-224 | one round keeps the stack equal to the chain of open blocks, writes only objects of this parse, and leaves less input |
| ConfigParser.ParseLoop | src/parser/ConfigParser.cpp:157-231 | the loop ends on every input, with the outcome and the tree of the declarative parser |
| ConfigParser.Parse | src/parser/ConfigParser.cpp:153-231 | outcome and tree are those of the declarative parser; new statements come after those the configuration had, and everything else on the heap is untouched |
| ConfigParser.Reload | src/parser/ConfigParser.cpp:23-231 | printing a configuration object and parsing the text into a fresh one gives an object that represents the same tree |
| ParserProcessor.ValuesForKey | src/parser/ParserProcessor.cpp:134-174 | exactly the tokens that follow an occurrence of the key in the token stream of their own block are appended, statement by statement, each followed by those of its child |
| ParserProcessor.VisitStatement | src/parser/ParserProcessor.cpp:143-173 | the pending flag after a statement says whether the last token of the block so far is the key, whatever the child block holds |
| ParserProcessor.ScanTokens | src/parser/ParserProcessor.cpp:150-162 | the inner loop appends the followers of the key within the statement, with the flag carried in from the statement before |
| ParserProcessor.VisitChild | src/parser/ParserProcessor.cpp:165-172 | a child contributes its own values and nothing else |
| ParserProcessor.ValueForKey | src/parser/ParserProcessor.cpp:123-129 | the first value, a token that comes directly after the key in the stream of some block; defined exactly when there is one |
| ParserProcessor.ValuesAreCounted | src/parser/ParserProcessor.cpp:134-174 | the number of values is the number of occurrences of the key that are not last in the stream of their block, over all blocks |
| ParserProcessor.ValuesAre | src/parser/ParserProcessor.cpp:134-174 | without the values of the children, what is returned is exactly the tokens after the positions of the key in the own stream of the block, in order, each statement's before the values of its child |
| ParserProcessor.ValuesWithoutChildren | src/parser/ParserProcessor.cpp:150-162 | for a block without child blocks these are all |
| ParserProcessor.OneSequence | src/parser/ParserProcessor.cpp:150-162 | there is only one such sequence |
| ParserProcessor.ValuesIff | src/parser/ParserProcessor.cpp:134-174 | a token is a value exactly when it comes directly after the key in the stream of some block of the tree |
| ParserProcessor.ChildrenAreIndependent | src/parser/ParserProcessor.cpp:134-174 | exchanging or removing a child block changes nothing before or after the values of that child |
| LinkedPtr.LinkedPtr.JoinNew | lib/gtest-1.7.0/include/gtest/internal/gtest-linked_ptr.h:92-94 | the pointer is a ring of its own |
| LinkedPtr.LinkedPtr.Join | lib/gtest-1.7.0/include/gtest/internal/gtest-linked_ptr.h:108-117 | the walk ends, and the ring gains exactly this member, behind its last one; no other link changes |
| LinkedPtr.LinkedPtr.Leave | lib/gtest-1.7.0/include/gtest/internal/gtest-linked_ptr.h:121-130 | true exactly for a ring of one; otherwise the ring loses exactly this member and only its predecessor is written |
| LinkedPtr.LinkedPtr.JoinAt | lib/gtest-1.7.0/include/gtest/internal/gtest-linked_ptr.h:108-117 | the same from any member of the ring |
| LinkedPtr.LinkedPtr.LeaveAt | lib/gtest-1.7.0/include/gtest/internal/gtest-linked_ptr.h:121-130 | the same for any member of the ring |
| LinkedPtr.RotateIsRing | lib/gtest-1.7.0/include/gtest/internal/gtest-linked_ptr.h:89-133 | a ring is a ring seen from any of its members |
| LinkedPtr.Program.Capture | lib/gtest-1.7.0/include/gtest/internal/gtest-linked_ptr.h:198-201 | a new holder of a new object: the live pointers stay partitioned into rings, one ring a value |
| LinkedPtr.Program.Copy | lib/gtest-1.7.0/include/gtest/internal/gtest-linked_ptr.h:203-210 | the copy enters the ring of its source and no other ring changes; a copy of a null pointer is a ring of its own |
| LinkedPtr.Program.Depart | lib/gtest-1.7.0/include/gtest/internal/gtest-linked_ptr.h:194-196 | the pointer leaves its ring, and its object is deleted exactly when it was the last holder |
| LinkedPtr.Program.Assign | lib/gtest-1.7.0/include/gtest/internal/gtest-linked_ptr.h:159-165 | assignment, also to itself: the old object is deleted exactly when nobody else holds it |
| LinkedPtr.Program.Reset | lib/gtest-1.7.0/include/gtest/internal/gtest-linked_ptr.h:168-171 | reset: the old object is deleted exactly when nobody else holds it, and the new one is held |
| LinkedPtr.Program.MakeCopy | lib/gtest-1.7.0/include/gtest/internal/gtest-linked_ptr.h:146-150 | copy construction, with the partition kept |
| LinkedPtr.Program.AllDeleted | lib/gtest-1.7.0/include/gtest/internal/gtest-linked_ptr.h:142-171 | once no pointer is live, every captured object has been deleted exactly once |
| LinkedPtr.Program.HeldMeansLive | lib/gtest-1.7.0/include/gtest/internal/gtest-linked_ptr.h:142-171 | an object that is still held has a live holder |
| LinkedPtr.StepDeletes | lib/gtest-1.7.0/include/gtest/internal/gtest-linked_ptr.h:142-171 | in the model, an operation deletes an object exactly when the list of held objects loses its last occurrence, and at most one |
| LinkedPtr.OperationLaws | lib/gtest-1.7.0/include/gtest/internal/gtest-linked_ptr.h:142-171 | in the model, what each operation does to the pointers and the count, written out; one that names a missing pointer does nothing |
| LinkedPtr.AfterIsSound | lib/gtest-1.7.0/include/gtest/internal/gtest-linked_ptr.h:142-171 | at every point of every run, the deleted objects are exactly the captured ones that no pointer holds, and none is deleted twice |
| LinkedPtr.SharedObject | lib/gtest-1.7.0/include/gtest/internal/gtest-linked_ptr.h:142-171 | the object of two pointers is deleted with the second of them |
| LinkedPtr.Perform | lib/gtest-1.7.0/include/gtest/internal/gtest-linked_ptr.h:142-171 | after one operation the pointers hold what the model says, as many objects have been captured, and the log of deletions has grown by what the model says |
| LinkedPtr.RunOps | lib/gtest-1.7.0/include/gtest/internal/gtest-linked_ptr.h:142-171 | any sequence of operations leaves the pointers, the count and the log as the model has them |
| LinkedPtr.EndPointers | lib/gtest-1.7.0/include/gtest/internal/gtest-linked_ptr.h:142-171 | ending the pointers one after the other deletes what the model says, in that order |
| LinkedPtr.RunAll | lib/gtest-1.7.0/include/gtest/internal/gtest-linked_ptr.h:142-171 | every sequence of constructions, copies, assignments, resets and destructions, followed by the end of all pointers: the number of captured objects and the log of deletions are those of the model for exactly this sequence, and each captured object is deleted once |
| SimpleRegex.ValidateRegex | lib/gtest-1.7.0/src/gtest-port.cc:257-311 | accepts exactly the texts the scan rules allow, with the flag for what may be repeated |
| SimpleRegex.ValidIffSpelled | lib/gtest-1.7.0/src/gtest-port.cc:257-311 | the validator accepts a text exactly when it spells an expression: an optional ^, well-formed items, an optional $ |
| SimpleRegex.SpellingIsUnique | lib/gtest-1.7.0/src/gtest-port.cc:257-311 | a text spells at most one expression |
| SimpleRegex.HeadOfCons | lib/gtest-1.7.0/src/gtest-port.cc:347-377 | an expression matches at the head exactly when its first item takes some prefix and the rest matches on |
| SimpleRegex.AnywhereIsHeadSomewhere | lib/gtest-1.7.0/src/gtest-port.cc:383-397 | some substring, respecting ^ and $, is in the language exactly when the head matches at some position |
| SimpleRegex.MatchRepetitionAndRegexAtHead | lib/gtest-1.7.0/src/gtest-port.cc:320-343 | true exactly when some number of repetitions, followed by the rest, matches; terminates and stays inside both strings |
| SimpleRegex.MatchRegexAtHead | lib/gtest-1.7.0/src/gtest-port.cc:347-377 | true exactly when some prefix of the string is in the language of the expression (all of it, after $) |
| SimpleRegex.MatchRegexAnywhere | lib/gtest-1.7.0/src/gtest-port.cc:383-397 | true exactly when some substring, respecting ^ and $, is in the language |
| SimpleRegex.FullPattern | lib/gtest-1.7.0/src/gtest-port.cc:417-448 | the buffer holds the text with the anchors that seem to be missing |
| SimpleRegex.FullPatternSpells | lib/gtest-1.7.0/src/gtest-port.cc:428-448 | that text spells the expression with both anchors, except that no $ is added after an escaped one |
| SimpleRegex.RE.Init | lib/gtest-1.7.0/src/gtest-port.cc:417-448 | the object is valid exactly for a spelled expression, and then holds both patterns |
| SimpleRegex.RE.PartialMatch | lib/gtest-1.7.0/src/gtest-port.cc:412-414 | for a valid expression: some substring is in the language; otherwise false |
| SimpleRegex.RE.FullMatch | lib/gtest-1.7.0/src/gtest-port.cc:406-408 | for a valid expression: what the full pattern means; otherwise false |
| SimpleRegex.FullMatchIsWholeMatchIff | lib/gtest-1.7.0/src/gtest-port.cc:406-448 | a full match means that the whole string is in the language, for all strings, exactly when the expression does not end in an escaped dollar |
| SimpleRegex.EscapedDollarCounterexample | lib/gtest-1.7.0/src/gtest-port.cc:440-445 | \$ fully matches "$x" |
| SimpleRegex.LanguageIsInhabited | lib/gtest-1.7.0/src/gtest-port.cc:257-311 | every expression matches some string |
| SimpleRegex.ClassAtoms | lib/gtest-1.7.0/src/gtest-port.cc:228-247 | the escapes d, w and s match the digits, the word characters and the six white space characters, written out; D, W and S match all others |
| SimpleRegex.SingleAtoms | lib/gtest-1.7.0/src/gtest-port.cc:228-247 | the escapes f, n, r, t and v match one control character each, and an escaped punctuation character matches itself only |
| SimpleRegex.PlainAtoms | lib/gtest-1.7.0/src/gtest-port.cc:228-247 | an unescaped dot matches everything but a newline, any other unescaped character itself only |
| SimpleRegex.Escapes | lib/gtest-1.7.0/src/gtest-port.cc:211-224 | what may follow a backslash, by code; nothing else is matched as an escape |
| SimpleRegex.PlainCharacters | lib/gtest-1.7.0/src/gtest-port.cc:257-311 | which characters need no backslash, by code |
| SimpleRegex.OnceLaw | lib/gtest-1.7.0/src/gtest-port.cc:366-376 | an atom takes exactly one character |
| SimpleRegex.ZeroOrOneLaw | lib/gtest-1.7.0/src/gtest-port.cc:320-343 | a? takes nothing or is a |
| SimpleRegex.ZeroOrMoreLaw | lib/gtest-1.7.0/src/gtest-port.cc:320-343 | a* takes nothing or is a+ |
| SimpleRegex.OneOrMoreLaw | lib/gtest-1.7.0/src/gtest-port.cc:320-343 | a+ is aa* |
| SimpleRegex.AnchorLaws | lib/gtest-1.7.0/src/gtest-port.cc:383-397 | with both anchors all of the string is a word, with one a prefix or a suffix |
| TextFields.SplitString | lib/gtest-1.7.0/src/gtest-death-test.cc:1208-1223 | the fields between the delimiters, empty ones included |
| TextFields.JoinSplit | lib/gtest-1.7.0/src/gtest-death-test.cc:1208-1223 | joining the fields of a text gives the text back |
| TextFields.SplitJoin | lib/gtest-1.7.0/src/gtest-death-test.cc:1208-1223 | splitting a joined list of delimiter-free fields gives the list back |
| TextFields.FieldsAreFree | lib/gtest-1.7.0/src/gtest-death-test.cc:1208-1223 | no field holds the delimiter |
| TextFields.FieldsAreCounted | lib/gtest-1.7.0/src/gtest-death-test.cc:1208-1223 | there is one field more than there are delimiters |
| TestFilter.MatcherIsCorrect | lib/gtest-1.7.0/src/gtest.cc:440-455 | the recursive matcher decides the pattern up to the first colon: the string can be cut into pieces that fit the pattern characters one by one |
| TestFilter.MatchesCons | lib/gtest-1.7.0/src/gtest.cc:440-455 | the cut of the whole pattern, one pattern character at a time |
| TestFilter.CharacterStep | lib/gtest-1.7.0/src/gtest.cc:440-455 | a question mark takes any one character, any other character but the star itself only |
| TestNames.StarFirst | lib/gtest-1.7.0/src/gtest.cc:440-455 | a star takes any string, the empty one included |
| TestFilter.OneCharacter | lib/gtest-1.7.0/src/gtest.cc:440-455 | a question mark matches exactly one character, a star anything, any other character itself |
| TestFilter.PatternsJoin | lib/gtest-1.7.0/src/gtest.cc:440-455 | a pattern made of two matches exactly the strings made of two that the parts match |
| TestFilter.AcceptsParts | lib/gtest-1.7.0/src/gtest.cc:457-475 | patterns are separated by colons; a text without a colon is one pattern |
| TestFilter.MatchesFilter | lib/gtest-1.7.0/src/gtest.cc:457-475 | true exactly when one of the colon-separated patterns matches |
| TestFilter.FilterMatchesTest | lib/gtest-1.7.0/src/gtest.cc:480-506 | true exactly when a pattern before the first dash matches the full name and none after it does; nothing before a dash means any name |
| TestFilter.FilterParts | lib/gtest-1.7.0/src/gtest.cc:484-505 | the patterns before the first dash select, all names if there are none, and those after it exclude |
| TestNames.OneTest | lib/gtest-1.7.0/src/gtest.cc:480-506 | the full name of a test, as a filter, selects that test of that test case and no other |
| DeathTestFlag.ParseNaturalNumber | lib/gtest-1.7.0/src/gtest-internal-inl.h:1001-1040 | accepts exactly digit strings whose value survives the cast to int and back; nothing is stored on failure |
| DeathTestFlag.AcceptedIff | lib/gtest-1.7.0/src/gtest-internal-inl.h:1001-1040 | accepted are exactly the decimal numbers below 2^31 and those in the last 2^31 of 64 bits |
| DeathTestFlag.ValueOfParts | lib/gtest-1.7.0/src/gtest-internal-inl.h:1009-1013 | the value is that of decimal positional notation |
| DeathTestFlag.NumberIsWhatIsWrittenIff | lib/gtest-1.7.0/src/gtest-internal-inl.h:1001-1040 | an accepted number is the number written exactly when that fits an int; otherwise it is negative |
| DeathTestFlag.LargeNumbersTurnNegative | lib/gtest-1.7.0/src/gtest-internal-inl.h:1025-1035 | digit strings for the last 2^31 values of 64 bits are accepted as negative numbers |
| DeathTestFlag.ParseInvertsPrint | lib/gtest-1.7.0/src/gtest-internal-inl.h:1001-1040 | printing an int in decimal and parsing it succeeds exactly for natural numbers, and gives the number back |
| DeathTestFlag.ParseInternalRunDeathTestFlag | lib/gtest-1.7.0/src/gtest-death-test.cc:1296-1338 | the fields of the flag become the record; a wrong number of fields or a bad number aborts; an empty flag is no flag |
| DeathTestFlag.FlagFields | lib/gtest-1.7.0/src/gtest-death-test.cc:1121-1125 | the flag text has exactly the four fields that were written, unless the file name holds the separator |
| DeathTestFlag.FlagRoundTripIff | lib/gtest-1.7.0/src/gtest-death-test.cc:1121-1338 | writing and parsing the flag gives the same four fields exactly when the file name is free of the separator and the numbers are natural; otherwise parsing aborts |
| WideString.ChopLowBits | lib/gtest-1.7.0/src/gtest.cc:1424-1428 | the low six bits and the rest make up the bits |
| WideString.CodePointToUtf8 | lib/gtest-1.7.0/src/gtest.cc:1436-1462 | the shortest UTF-8 encoding of the code point, by the bit layout of section 3 of RFC 3629; nothing for 0, and above 0x1FFFFF a message with the number in hexadecimal |
| WideString.EncodingLimits | lib/gtest-1.7.0/src/gtest.cc:1436-1462 | the bytes of the first and the last code point of each length |
| WideString.EncodingStep | lib/gtest-1.7.0/src/gtest.cc:1436-1462 | the next code point of the same length has the next last byte, while that can grow |
| WideString.InvalidIsNamed | lib/gtest-1.7.0/src/gtest.cc:1437-1439 | different numbers have different messages |
| WideString.DecodeEncoded | lib/gtest-1.7.0/src/gtest.cc:1436-1462 | reading the bit layout back gives the code point, whatever follows |
| WideString.PrefixFree | lib/gtest-1.7.0/src/gtest.cc:1436-1462 | no encoding is a proper prefix of another |
| WideString.EncodingIsBijective | lib/gtest-1.7.0/src/gtest.cc:1436-1462 | equal encodings exactly for equal code points |
| WideString.PairIsEncoded | lib/gtest-1.7.0/src/gtest.cc:1471-1486 | a surrogate pair is what section 2.1 of RFC 2781 makes of the joined code point |
| WideString.PairsInOrder | lib/gtest-1.7.0/src/gtest.cc:1471-1486 | the pairs, in order, stand for the code points from 0x10000 on, in order |
| WideString.PairsAreJoined | lib/gtest-1.7.0/src/gtest.cc:1505-1516 | among the code points no high surrogate stands directly before a low one |
| WideString.NextCodePoint | lib/gtest-1.7.0/src/gtest.cc:1505-1516 | a pair of surrogates inside the limit is joined, any other unit stands for itself |
| WideString.VisibleIsPrefix | lib/gtest-1.7.0/src/gtest.cc:1500-1508 | the units converted are those before the terminator and within the limit |
| WideString.WideLengthMeans | lib/gtest-1.7.0/src/gtest.cc:1500-1501 | the length is the position of the first NUL |
| WideString.WideStringToUtf8 | lib/gtest-1.7.0/src/gtest.cc:1500-1521 | the result is made of the shortest encodings of the code points of the text, pairs joined, up to the terminator or the limit |
| WideString.TextEncodingIsBijective | lib/gtest-1.7.0/src/gtest.cc:1500-1521 | a sequence of code points has one encoding, and different sequences have different ones |
| WideString.CodePointsReadBack | lib/gtest-1.7.0/src/gtest.cc:1505-1516 | encoding the code points in UTF-16 gives the units back, lone surrogates included |
| WideString.CodePointsIff | lib/gtest-1.7.0/src/gtest.cc:1505-1516 | the code points of a text are the only ones that are encoded as the text and have no pair of surrogates left among them |
| WideString.NothingIsLost | lib/gtest-1.7.0/src/gtest.cc:1500-1521 | decoding the bytes and encoding the code points in UTF-16 gives the original units, and no other text has these bytes |
| WideString.TextIsKept | lib/gtest-1.7.0/src/gtest.cc:1500-1521 | a text of scalar values, encoded in UTF-16 and converted, is the same text in UTF-8 |
| WideString.PairExample | lib/gtest-1.7.0/src/gtest.cc:1505-1516 | U+1F600, given as two units, becomes the four bytes F0 9F 98 80 |
| LiteralPrinter.FormatHexDenotes | lib/gtest-1.7.0/src/gtest.cc:1643-1647 | the hexadecimal digits denote the number |
| LiteralPrinter.PrintCharsAsStringTo | lib/gtest-1.7.0/src/gtest-printers.cc:255-271 | the literal is appended with a break after every hexadecimal escape that a hexadecimal digit follows |
| LiteralPrinter.PlainTexts | lib/gtest-1.7.0/src/gtest-printers.cc:142-189 | printable characters but the double quote and the backslash are printed as they are |
| LiteralPrinter.EscapeTexts | lib/gtest-1.7.0/src/gtest-printers.cc:142-189 | these two, NUL and seven control characters are printed as their own escapes |
| LiteralPrinter.HexTexts | lib/gtest-1.7.0/src/gtest-printers.cc:180-186 | all others are printed in hexadecimal |
| LiteralPrinter.FormatHexShape | lib/gtest-1.7.0/src/gtest.cc:1643-1647 | hexadecimal numbers have capital letters and no zero in front |
| LiteralPrinter.BreakIff | lib/gtest-1.7.0/src/gtest-printers.cc:262-267 | there is a break exactly between a hexadecimal escape and a hexadecimal digit |
| LiteralPrinter.ReadHex | lib/gtest-1.7.0/src/gtest-printers.cc:142-206 | a hexadecimal escape reads back as its character when no hexadecimal digit follows |
| LiteralPrinter.ReadBreak | lib/gtest-1.7.0/src/gtest-printers.cc:255-271 | a break reads as nothing: adjacent literals are joined |
| LiteralPrinter.ReadPrinted | lib/gtest-1.7.0/src/gtest-printers.cc:142-271 | the printed text, read by the rules of ISO C++11 ([lex.ccon], [lex.string]), gives the characters with every NUL merged with the octal digits after it |
| LiteralPrinter.ReadBackIff | lib/gtest-1.7.0/src/gtest-printers.cc:142-271 | the printed text always reads, and reads back as the original characters exactly when no NUL is followed by an octal digit |
| LiteralPrinter.NulThenDigit | lib/gtest-1.7.0/src/gtest-printers.cc:142-206 | a NUL followed by 1 reads back as the one character of code 1 |
| XmlPrinter.EscapeXml | lib/gtest-1.7.0/src/gtest.cc:3139-3181 | character references for markup and, in attributes, for quotes and white space; invalid characters are dropped, among them those of 0x80 and above where plain chars are signed |
| XmlPrinter.EscapeTable | lib/gtest-1.7.0/src/gtest.cc:3139-3181 | what is written for each character that is not written as it is |
| XmlPrinter.UnescapedChars | lib/gtest-1.7.0/src/gtest.cc:3139-3181 | all other characters are written as they are if they are valid, and otherwise not at all |
| XmlPrinter.RemoveInvalidXmlCharacters | lib/gtest-1.7.0/src/gtest.cc:3185-3194 | the valid characters in order |
| XmlPrinter.SevenBitKept | lib/gtest-1.7.0/src/gtest.cc:3020-3028 | of a 7-bit text exactly the characters 9, 10, 13 and 0x20 to 0x7F are kept |
| XmlPrinter.OutputXmlCDataSection | lib/gtest-1.7.0/src/gtest.cc:3246-3263 | the sections for the data up to its NUL, split at every end mark inside it |
| XmlPrinter.NoRawMarkup | lib/gtest-1.7.0/src/gtest.cc:3139-3181 | no markup delimiter is left |
| XmlPrinter.ReadEscaped | lib/gtest-1.7.0/src/gtest.cc:3139-3181 | reading the escaped text by sections 2.4 and 4.1 of XML 1.0 gives the text without its invalid characters |
| XmlPrinter.FindEndIsFirst | lib/gtest-1.7.0/src/gtest.cc:3249-3255 | the end mark found is the first one, also among overlapping brackets |
| XmlPrinter.ReadCData | lib/gtest-1.7.0/src/gtest.cc:3246-3263 | reading the sections by section 2.7 of XML 1.0 gives exactly the data, whatever it is and whatever follows |
| XmlPrinter.ReportedDetail | lib/gtest-1.7.0/src/gtest.cc:3319-3322 | the detail of a failure reads back without its invalid characters |
| XmlPrinter.KeptIff | lib/gtest-1.7.0/src/gtest.cc:3026-3028 | a text is reported as it is exactly when all its characters are valid; where plain chars are signed, no text with a byte of 0x80 or above is |
| CommandLine.ShiftLeft | lib/gtest-1.7.0/src/gtest.cc:4930-4932 | the slots after the removed one, the null at the end included, move left by one and nothing else changes |
| CommandLine.ParseFlagsOnly | lib/gtest-1.7.0/src/gtest.cc:4889-4947 | for every vector and recogniser: the program name, the unrecognised arguments, nulls from the new count on, and untouched slots beyond; help is asked for exactly when an unrecognised argument asks |
| CommandLine.LayoutMeans | lib/gtest-1.7.0/src/gtest.cc:4889-4947 | the program name, what is kept, the nulls and the slots beyond, each in its place |
| CommandLine.KeptMeans | lib/gtest-1.7.0/src/gtest.cc:4889-4947 | nothing recognised is kept, and everything else is kept as often as it was given |
| CommandLine.KeptInOrder | lib/gtest-1.7.0/src/gtest.cc:4889-4947 | what is kept is in its original order |
| Shuffle.Random.Generate | lib/gtest-1.7.0/src/gtest.cc:291-305 | the next state of the generator with 32-bit wrap-around, and its remainder by the range |
| Shuffle.FirstNumbers | lib/gtest-1.7.0/src/gtest.cc:291-305 | the first numbers after the seed 0 are 12345, 1406932606 and 654583775 |
| Shuffle.NextIsInjective | lib/gtest-1.7.0/src/gtest.cc:293-293 | no two states have the same successor: the multiplier is invertible modulo 2^31 |
| Shuffle.DrawsIgnoreTopBit | lib/gtest-1.7.0/src/gtest.cc:293-305 | seeds that agree on their low 31 bits lead to the same choices |
| Shuffle.ShuffleRange | lib/gtest-1.7.0/src/gtest-internal-inl.h:310-328 | everything outside the range is unchanged, and the range gets the order that the drawn choices lead to |
| Shuffle.ShuffledLaw | lib/gtest-1.7.0/src/gtest-internal-inl.h:322-327 | the first choice says which element comes last; the last one takes its place, and the shuffle goes on with all but the last place |
| Shuffle.DrawsLaw | lib/gtest-1.7.0/src/gtest-internal-inl.h:322-324 | the k-th choice is the (k+1)-st number drawn, modulo what is left of the range |
| Shuffle.AfterLaw | lib/gtest-1.7.0/src/gtest-internal-inl.h:322-327 | one number less than the width of the range is drawn |
| Shuffle.ShufflePermutes | lib/gtest-1.7.0/src/gtest-internal-inl.h:322-327 | the range is permuted |
| Shuffle.ShuffleIsInjective | lib/gtest-1.7.0/src/gtest-internal-inl.h:322-327 | different choices lead to different orders |
| Shuffle.ShuffleIsSurjective | lib/gtest-1.7.0/src/gtest-internal-inl.h:322-327 | every order is reached, also with equal elements |
| Shuffle.OneChoiceForEachOrder | lib/gtest-1.7.0/src/gtest-internal-inl.h:310-328 | for a range of different elements, choice sequences and orders correspond one to one |
| TestNames.DeathTestCaseNames | lib/gtest-1.7.0/src/gtest.cc:155-158 | a death test case is one whose name ends in "DeathTest" or has "DeathTest/" in it |
| TestNames.DisabledNames | lib/gtest-1.7.0/src/gtest.cc:151-153 | a test is disabled when its name or the name of its case starts with "DISABLED_" or has "/DISABLED_" in it |
| TestNames.MatchesDisableFilter | lib/gtest-1.7.0/src/gtest.cc:4475-4481 | decides whether a test is disabled |
| Sharding.TurnIsRemainder | lib/gtest-1.7.0/src/gtest.cc:4440-4446 | a shard runs the test numbers whose turn it is when tests are dealt to the shards one after the other |
| Sharding.DealtSize | lib/gtest-1.7.0/src/gtest.cc:4490-4500 | each shard gets an equal share, and the first few one test more |
| Sharding.EachOnOneShard | lib/gtest-1.7.0/src/gtest.cc:4490-4500 | the k-th runnable test is on shard k modulo the number of shards and on no other |
| Sharding.ShardsPartition | lib/gtest-1.7.0/src/gtest.cc:4490-4504 | the shards together run every runnable test once, and their counts sum to the number of runnable tests |
| Sharding.ShardsAreBalanced | lib/gtest-1.7.0/src/gtest.cc:4490-4504 | the counts of any two shards differ by at most one |
| TestOrder.PickPermutes | lib/gtest-1.7.0/src/gtest-internal-inl.h:593-596 | going through a list by a permutation of its indices visits every item exactly once |
| TestOrder.PickShuffled | lib/gtest-1.7.0/src/gtest-internal-inl.h:310-328 | shuffling the indices shuffles what they pick |
| TestOrder.ShuffledBlocks | lib/gtest-1.7.0/src/gtest.cc:4601-4608 | shuffling each block of indices keeps the blocks apart |
| TestOrder.BlocksAreApart | lib/gtest-1.7.0/src/gtest.cc:4601-4608 | an index below the boundary stands before the boundary, and conversely |
| BlockShuffle.ShuffleBlocks | lib/gtest-1.7.0/src/gtest.cc:4602-4607 | both blocks get the orders drawn for them, and stay permutations of their own indices |
| BlockShuffle.BlocksLaw | lib/gtest-1.7.0/src/gtest.cc:4602-4607 | each block is shuffled by itself, the second with the numbers that come after those for the first |
| BlockShuffle.BlocksStay | lib/gtest-1.7.0/src/gtest.cc:4601-4608 | a shuffle from any state of the generator keeps the blocks apart |
| BlockShuffle.PickBlocks | lib/gtest-1.7.0/src/gtest.cc:4601-4608 | shuffling the indices in blocks shuffles what they pick in blocks |
| BlockShuffle.ShuffledListsPick | lib/gtest-1.7.0/src/gtest.cc:4609-4612 | shuffling lists of indices in turn shuffles the lists they stand for, with the same draws |
| BlockShuffle.ListsFromLaw | lib/gtest-1.7.0/src/gtest.cc:4602-4612 | each list gets the order drawn for it, by the numbers that come after those for the blocks and the lists before it |
| TestCases.TestCase.AddTestInfo | lib/gtest-1.7.0/src/gtest.cc:2423-2426 | the test comes last, and the indices stay a permutation |
| TestCases.TestCase.GetMutableTestInfo | lib/gtest-1.7.0/src/gtest.cc:2416-2419 | the i-th test of the present order; null out of range |
| TestCases.TestCase.ShuffleTests | lib/gtest-1.7.0/src/gtest.cc:2463-2465 | the order drawn from the generator; still a permutation |
| TestCases.TestCase.UnshuffleTests | lib/gtest-1.7.0/src/gtest.cc:2468-2472 | the order of registration |
| TestCases.TestCase.Run | lib/gtest-1.7.0/src/gtest.cc:2429-2452 | the tests that are marked, in the present order, if the test case is marked; otherwise none |
| Registration.SortedInsert | lib/gtest-1.7.0/src/gtest.cc:4190-4203 | a new death test case goes after the last one, any other to the end: each class stays in the order of registration |
| Registration.AllTestsAreThere | lib/gtest-1.7.0/src/gtest-internal-inl.h:655-676 | grouped by test case, every registered test is there exactly once |
| Registration.PickSorted | lib/gtest-1.7.0/src/gtest.cc:4601-4608 | whatever the order within the two blocks, every test case is there once and no death test case comes after another |
| UnitTest.UnitTestImpl.FindTestCase | lib/gtest-1.7.0/src/gtest.cc:4178-4183 | the test case of that name, or null when there is none |
| UnitTest.UnitTestImpl.GetTestCase | lib/gtest-1.7.0/src/gtest.cc:4173-4206 | the test case of that name, found or new; names, lists and indices keep their invariants |
| UnitTest.UnitTestImpl.AddTestInfo | lib/gtest-1.7.0/src/gtest-internal-inl.h:655-676 | after any registrations, the lists are a function of the sequence of registered tests: names by first test, death test cases first, tests of a case in order |
| UnitTest.RegisterTests | lib/gtest-1.7.0/src/gtest-internal-inl.h:655-676 | that holds for the registration of any sequence of tests |
| RunOrders.OrderOfTests | lib/gtest-1.7.0/src/gtest.cc:4173-4206 | which of two tests comes first before any shuffle, for all registrations: of the same test case, the one that was registered first; of different ones, a death test; of the same class, the one whose test case was the first to have a test |
| RunOrders.FirstNamesInOrder | lib/gtest-1.7.0/src/gtest.cc:4173-4206 | a test case comes before another exactly when its first test was registered before any test of the other |
| RunOrders.ShardInOrder | lib/gtest-1.7.0/src/gtest.cc:4455-4506 | a shard runs its tests in that order; without sharding, this is the order in which tests are dealt to shards |
| RunOrders.KeptInOrder | lib/gtest-1.7.0/src/gtest.cc:2429-2452 | what a test case runs stays in the order of its list |
| RunOrders.ListsInTurn | lib/gtest-1.7.0/src/gtest.cc:4313-4316 | in any order of the test cases, the tests of one are executed after those of the test cases before it |
| RunOrders.ListInOrder | lib/gtest-1.7.0/src/gtest.cc:4313-4316 | the tests of one test case are executed in their present order |
| ShardSelection.SelectedIsOnShard | lib/gtest-1.7.0/src/gtest.cc:4490-4504 | a test is marked exactly when it is among those dealt to the shard |
| ShardSelection.RunnableIff | lib/gtest-1.7.0/src/gtest.cc:4470-4491 | a registered test is runnable exactly when the filter selects its full name and either disabled tests run as well, or neither its name nor that of its test case starts with "DISABLED_" or has "/DISABLED_" in it |
| ShardSelection.EachTestOnOneShard | lib/gtest-1.7.0/src/gtest.cc:4455-4506 | a runnable test is run by exactly one shard and any other test by none, for every registration, filter and number of shards |
| ShardSelection.CountsAreFair | lib/gtest-1.7.0/src/gtest.cc:4455-4506 | the returned counts sum to the number of runnable tests and differ by at most one |
| ShardSelection.NoShardsRunAll | lib/gtest-1.7.0/src/gtest.cc:4493-4494 | without sharding all runnable tests run |
| ShardSelection.ShardIsWanted | lib/gtest-1.7.0/src/gtest.cc:4455-4506 | a shard runs nothing but such tests, and without sharding all of them run |
| UnitTest.UnitTestImpl.FilterTest | lib/gtest-1.7.0/src/gtest.cc:4470-4503 | the three marks of a test: disabled, matching, selected; it is runnable exactly when the filter selects its full name and it is not disabled by its names, unless disabled tests run as well |
| TestInfos.RunnableIsWanted | lib/gtest-1.7.0/src/gtest.cc:4470-4491 | a test is runnable exactly when the filter selects its full name and disabled tests run as well or neither of its names looks disabled; its marks say the same |
| UnitTest.UnitTestImpl.FilterCase | lib/gtest-1.7.0/src/gtest.cc:4463-4504 | the tests of one test case are marked and counted, and the test case is marked exactly when one of them is selected |
| UnitTest.UnitTestImpl.FilterTests | lib/gtest-1.7.0/src/gtest.cc:4455-4506 | all marks are right and the returned count is the number of selected tests |
| UnitTest.UnitTestImpl.CaseIsReady | lib/gtest-1.7.0/src/gtest.cc:4463-4504 | the marks say to run exactly the tests of the shard |
| UnitTest.UnitTestImpl.ShuffleTestCases | lib/gtest-1.7.0/src/gtest.cc:4601-4607 | the two blocks of test cases are shuffled; orders within test cases stay |
| UnitTest.UnitTestImpl.ShuffleWithin | lib/gtest-1.7.0/src/gtest.cc:4609-4612 | the lists of test indices are shuffled one after the other |
| UnitTest.UnitTestImpl.ShuffleTests | lib/gtest-1.7.0/src/gtest.cc:4601-4613 | every order is the one drawn from the generator in turn, and all invariants are kept |
| UnitTest.UnitTestImpl.OrdersAreFrom | lib/gtest-1.7.0/src/gtest.cc:4601-4613 | after a shuffle, the order of all tests is a function of the registered tests and the seed: death test cases and other test cases shuffled among themselves, then the tests of each test case in turn |
| UnitTest.UnitTestImpl.UnshuffleTests | lib/gtest-1.7.0/src/gtest.cc:4616-4623 | everything is back in the place it had before the first shuffle |
| UnitTest.UnitTestImpl.GetMutableTestCase | lib/gtest-1.7.0/src/gtest-internal-inl.h:593-596 | the i-th test case of the present order; null out of range |
| UnitTest.UnitTestImpl.OrderIsRight | lib/gtest-1.7.0/src/gtest.cc:4601-4623 | in every reachable state the order visits every test case once, death test cases first |
| UnitTest.UnitTestImpl.RunTestCases | lib/gtest-1.7.0/src/gtest.cc:4313-4316 | the tests executed are those of the test cases in their present order |
| UnitTest.UnitTestImpl.RunIsRight | lib/gtest-1.7.0/src/gtest.cc:4313-4316 | whatever the shuffle, a run executes every test of the shard exactly once, nothing else, and death tests first |
| UnitTest.UnitTestImpl.RunInPlace | lib/gtest-1.7.0/src/gtest.cc:4313-4316 | without a shuffle a run executes the tests of the shard in the order of the lists |
| UnitTest.UnitTestImpl.RunIteration | lib/gtest-1.7.0/src/gtest.cc:4284-4345 | one iteration: the shard once, in the order that its seed alone leads to, or in its own order without a shuffle; and everything is back in place after it |
| ShuffledRuns.NextRandomSeed | lib/gtest-1.7.0/src/gtest-internal-inl.h:148-154 | the next seed, or 1 after the largest one |
| ShuffledRuns.SeedsGoRound | lib/gtest-1.7.0/src/gtest-internal-inl.h:148-154 | the seeds of a run go round: all of them come up before one comes up again |
| ShuffledRuns.SeedsGoOn | lib/gtest-1.7.0/src/gtest.cc:4333-4343 | a run started from the seed of the k-th iteration goes on with the seeds of the iterations after it, so its iterations are those of the longer run |
| UnitTest.UnitTestImpl.RunAllTests | lib/gtest-1.7.0/src/gtest.cc:4222-4350 | for every registration, filter, shard, seed and number of iterations: the k-th iteration executes the tests of the shard exactly once with death tests first, in the order of registration within test cases and classes of test cases when there is no shuffle, and otherwise in the order that the k-th seed leads to; nothing is executed that the filter does not select or that is disabled by its names (unless the flag asks for it), and without sharding everything else is |
| UnitTest.WantedOnOneShard | lib/gtest-1.7.0/src/gtest.cc:4222-4350 | whatever runs of all shards: each such test is executed on exactly one shard, any other test on none |

## Left out

- Sockets, request handling and the server's handlers: plumbing around other libraries, or code with one branch.
- Opening files, debug output, and the state of a stream beyond the text left over and one character of push-back.
- The depth argument of the printer is an unbounded integer, so its overflow is not modelled.
- The nginx helpers `value_has_prefix`, `values_like_key` and `get_static_handlers`.
- ConfigParser.Parse: statements the configuration held before are kept in front, as in the source; that they form a well-formed tree with the new ones is not claimed.
- Mutexes and threads: `join` and `depart` are atomic.
- LinkedPtr.Program.Copy: conversions between pointer types are not modelled, and the link is part of the pointer object.
- LinkedPtr.Program.Capture: an object is captured at most once, as the documentation of the class demands.
- The POSIX variant of the regular expressions, and the messages of the validator.
- SimpleRegex.MatchRegexAtHead: strings are no longer than the largest `size_t` minus 1, the bound of the repetition count; the source leaves longer ones undefined.
- WideString.WideStringToUtf8: 32-bit wide characters are left out.
- LiteralPrinter.ReadBackIff: trigraphs and negative wide characters are not modelled.
- XmlPrinter.ReadEscaped: the reader takes bytes one by one, so the encoding of the report and end-of-line normalisation are not modelled.
- CommandLine.ParseFlagsOnly: which arguments are flags, and which ask for help, are parameters; the effects of a recognised flag and the help text are left out.
- Environment variables, time, coloured output and the check of the sharding variables: their values are parameters.
- The bodies of tests, set-up and tear-down, event listeners, results and timing; a test that changes the marks or registers tests while it runs is not modelled.
- UnitTest.UnitTestImpl.RunAllTests: repeating forever and stopping after a fatal failure in the global set-up are left out; the first random seed is a parameter.
- The const overload of `GetTestCase(int)`, which the run does not use.
