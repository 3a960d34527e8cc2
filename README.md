# A recursive-descent recognizer, modelled in Dafny

The repository holds a small recognizer for a statement language in two
variants: `parser.py` and a later `runner.py`. Each has a class `MyParser`
that builds a plex scanner over an ordered lexicon and walks the tokens with
one token of lookahead held in the fields `la`/`val`. The parse methods
(`stmt`, `expr`, `booleanVal`, `logOp`, `assignOp`, `printCheck`,
`stringCheck`) either raise `ParseError` or end in a tail call to another
method. The only normal return is `stmt` seeing the end of the input.
`runner.py` drops the identifier branch of `expr`. It also builds, in
`commandToCalculate`, the boolean expression of each statement, which it
hands lower-cased to Python's `eval` when a `print` and a name end the
statement.

The model has three modules:

- `Lexer` (Lexer.dfy) is the lexicon both files declare (parser.py:52-77,
  runner.py:54-79), written as data: a rule table of patterns and actions.
  - `Read` is one read of the scanner: longest match, and among matches of
    equal length the rule listed first.
  - `Step` is an independent character-by-character scanner, and
    `ReadIsStep` proves the two agree.
  - On top of that come the classification lemmas for keywords, booleans in
    any case, digit-only identifiers and `print`, and the fact that only
    whitespace is dropped.
  - A lexical error is lazy. The stream holds the tokens read before it and
    the offset of the character that no rule can start with. It is raised
    only when the parser asks for the token after the last good one, as
    plex raises from `read()`.
- `Parser` (Parser.dfy) models parser.py.
  - `Run(state, stream)` is the parser as an automaton over the token
    stream, one state per parse method.
  - The class `MyParser` has the fields `pending`/`failAt` (what the scanner
    has yet to hand out) and `la`/`val`. Its methods mirror the Python
    methods one for one, mutually recursive, and each is proved to do what
    `Run` says from its state.
  - `AcceptsPrograms` and `RecognizeAccepts` characterise the accepted
    inputs as a grammar (`IsProgram`), in both directions.
- `Runner` (Runner.dfy) models runner.py.
  - `Exec` is its automaton. It carries the command being built and the
    list of commands handed to the evaluator.
  - The class adds the fields `commandToCalculate` and `evaluated`.
  - `AcceptsPrintPrograms` characterises the accepted inputs and the
    evaluated commands, in both directions.
  - `RunnerAcceptsOnlyParserPrograms` relates the two variants.

Where the grammar in the docstrings and the procedures disagree, the model
follows the procedures:

- `stmt` on `print` calls `match('string')` and so always fails
  (parser.py:134-135).
- `booleanVal`, `logOp` and the parenthesis branches always go on into
  `expr`, so input that ends in a boolean, an operator, `=` or a
  parenthesis is rejected.
- In parser.py an identifier in expression position hands control back to
  `stmt`, so `x = true y` is accepted. runner.py has no such branch, and
  there a statement ends only with `print` and a name.

## Model

| member | source | states |
|---|---|---|
| Lexer.Lower | parser.py:59 | the case-insensitive comparison of `NoCase`: same length, each character lowered |
| Lexer.RunLen | parser.py:53-55 | the maximal run of letters and digits at s[i]: all of it alphanumeric, and what follows is not |
| Lexer.WordsLenSpec | parser.py:57-63 | a `Str` pattern matches the length of its longest word occurring at s[i], and 0 when none occurs |
| Lexer.SelectSpec | parser.py:68-77 | the rule chosen has a longest match, every earlier rule matches strictly less, and when none is chosen no rule matches |
| Lexer.Read | parser.py:88-91 | a read returns a nonempty token whose text is exactly the text it passed over last |
| Lexer.ReadSpace | parser.py:65-71 | a space, tab or newline is ignored: reading goes on at the next character |
| Lexer.ReadPunctuation | parser.py:72-76 | `=`, `(` and `)` are read as one-character tokens of kinds ASSIGN_OP, `(` and `)` |
| Lexer.ReadBad | parser.py:53-77 | a character no rule starts with is a lexical error at that character |
| Lexer.KeywordRulesOnRun | parser.py:69-73 | the operator, boolean and print rules match the whole run w exactly when w is `and`/`or`/`not`, a boolean in any case, or `print` |
| Lexer.ReadWord | parser.py:68-77 | a maximal run w of letters and digits is read as one token of kind Classify(w): keywords win over identifiers by rule order |
| Lexer.ReadIsStep | parser.py:68-77 | the longest-match read of the lexicon equals the character-by-character scanner Step |
| Lexer.TokenizeIsSteps | parser.py:80-91 | the scanner's token stream equals the stream of Step |
| Lexer.StepProper | parser.py:68-77 | every token a step produces is `=`, `(`, `)` or a nonempty word classified by its text |
| Lexer.TokenizeProper | parser.py:68-77 | every token of a tokenized text is proper in that sense |
| Lexer.StepCovers | parser.py:65-77 | one step skips only whitespace, and returns as lexeme all the text it passes |
| Lexer.StepsCover | parser.py:65-77 | the lexemes joined are the text without whitespace, up to the end or up to the failing character |
| Lexer.TokenizeCovers | parser.py:65-77 | tokenizing drops nothing but whitespace, and stops only at a character no rule starts with |
| Lexer.ProperTokenFacts | parser.py:162-166 | for a scanned token the text `(`, `)` or `=` tells the kind, and `not` is always an operator |
| Lexer.LogOpWordsExactly | parser.py:57 | `and`, `or`, `not` are operators; `AND` and `and1` are identifiers |
| Lexer.PrintExactly | parser.py:61 | `print` is the print command; `Print` and `printer` are identifiers |
| Lexer.BooleansInAnyCase | parser.py:59 | `true`, `TRUE`, `t`, `F` are boolean values |
| Lexer.BooleanDigits | parser.py:59 | `0` and `1` are boolean values |
| Lexer.OtherRunsAreIdentifiers | parser.py:55 | `10`, `42`, `tr`, `x`, `y` are identifiers, digit-only runs included |
| Parser.Consume | parser.py:106 | taking the lookahead yields the rest of the stream, or the lexical error when no token is left |
| Parser.MyParser.NextToken | parser.py:88-91 | the next pending token becomes la/val, end of input gives (None, ''), a lexical error changes nothing |
| Parser.MyParser.Match | parser.py:101-113 | when la is t the lookahead advances by exactly one token; otherwise ParseError "found la instead of t" with la/val unchanged |
| Parser.MyParser.CreateScanner | parser.py:48-85 | the scanner is set on the text and its first read is the lookahead, or the lexical error it raises |
| Parser.MyParser.Parse | parser.py:116-123 | the outcome is Recognize(text): create the scanner, then stmt; on success the lookahead is (None, '') with nothing left to read |
| Parser.MyParser.Stmt | parser.py:126-142 | stmt does what state InStmt of the automaton does, outcome and stream left |
| Parser.MyParser.Expr | parser.py:144-171 | expr does what state InExpr does |
| Parser.MyParser.BooleanVal | parser.py:174-187 | booleanVal does what state InBooleanVal does |
| Parser.MyParser.LogOp | parser.py:190-203 | logOp does what state InLogOp does |
| Parser.MyParser.AssignOp | parser.py:205-219 | assignOp does what state InAssignOp does |
| Parser.MyParser.PrintCheck | parser.py:222-231 | printCheck does what state InPrintCheck does |
| Parser.MyParser.StringCheck | parser.py:233-242 | stringCheck does what state InStringCheck does |
| Parser.RunEnds | parser.py:126-242 | a run accepts only with the whole input consumed, and a lexical error it reports is the scanner's |
| Parser.EndOfInput | parser.py:137-142 | at the end of the input stmt returns normally and every other method raises its own message |
| Parser.PrintStatementRejected | parser.py:134-135 | a statement that starts with `print` fails with "found PRINT_COMMAND instead of string" |
| Parser.BodyRuns | parser.py:151-167 | expr passes over a run of booleans, operators, parentheses and `=`-with-operand without deciding anything |
| Parser.EndingRuns | parser.py:157-161 | an identifier, or `print` and an identifier, takes expr back to stmt |
| Parser.StatementRuns | parser.py:134-161 | a whole statement takes stmt back to stmt with the statement consumed |
| Parser.ExprOnIdentifier | parser.py:159-161 | an identifier in expression position is consumed and control returns to stmt |
| Parser.ExprAccepted | parser.py:144-171 | an accepting run of expr reads a statement rest and then an accepting run of stmt |
| Parser.ProgramAccepted | parser.py:126-242 | every program of proper tokens is accepted |
| Parser.AcceptedIsProgram | parser.py:126-242 | every accepted token sequence is a program |
| Parser.AcceptsPrograms | parser.py:126-242 | on scanned tokens, stmt accepts exactly the programs |
| Parser.RecognizeAccepts | parser.py:116-123 | a text is accepted exactly when it scans without error and its tokens are a program |
| Parser.LexicalErrorIsBad | parser.py:256-258 | a lexical error is reported at a character no rule can start with |
| Parser.ProgramEndsWithIdentifier | parser.py:159-161 | a nonempty program ends in an identifier |
| Parser.TrailingBodyTokenRejected | parser.py:165-171 | input ending in a boolean, an operator, `=` or a parenthesis is rejected |
| Parser.IdentifierEndsStatementExample | parser.py:159-161 | `x = true y` is accepted |
| Parser.TrailingBooleanExample | parser.py:181-183 | `x = true` fails in expr with "Valid expression expected" |
| Parser.AssignWithoutOperandExample | parser.py:208-215 | `x = y` fails with "Assignment operator expected" |
| Parser.PrintEndsStatementExample | parser.py:222-242 | `x = true print y` is accepted |
| Parser.OpenParenthesisExample | parser.py:162-171 | `x = ( true` fails in expr with "Valid expression expected" at the end of the input, every token consumed |
| Runner.MyParser.NextToken | runner.py:90-93 | the next pending token becomes la/val; the command and the evaluations are untouched |
| Runner.MyParser.Match | runner.py:103-115 | advances by exactly one token when la is t, otherwise raises with la/val unchanged |
| Runner.MyParser.CreateScanner | runner.py:48-87 | the command is emptied and the first read becomes the lookahead, or the lexical error it raises |
| Runner.MyParser.Parse | runner.py:118-125 | outcome and evaluated commands are those of ExecStart on the text's tokens; on success the lookahead is (None, ''), nothing is left to read and the command is empty |
| Runner.MyParser.Stmt | runner.py:128-148 | stmt empties the command and does what state InStmt of Exec does, command and evaluations included |
| Runner.MyParser.Expr | runner.py:150-181 | expr appends to the command and dispatches as state InExpr does |
| Runner.MyParser.BooleanVal | runner.py:184-197 | booleanVal does what state InBooleanVal does |
| Runner.MyParser.LogOp | runner.py:200-213 | logOp does what state InLogOp does |
| Runner.MyParser.AssignOp | runner.py:215-229 | assignOp does what state InAssignOp does |
| Runner.MyParser.PrintCheck | runner.py:232-241 | printCheck does what state InPrintCheck does |
| Runner.MyParser.StringCheck | runner.py:243-255 | the lower-cased command is handed to the evaluator, then the name is matched and stmt runs |
| Runner.BoolTextOfScannedValue | runner.py:157-161 | a scanned boolean appends exactly " 1" for true/t in any case or 1, and " 0" otherwise |
| Runner.CommandIsLowercase | runner.py:247-248 | the command built from scanned tokens is already lower case |
| Runner.StmtForgetsCommand | runner.py:136 | what stmt does does not depend on the command it starts with |
| Runner.PrintLookaheadRejected | runner.py:136-142 | on every stream, stmt on a `print` lookahead empties the command and fails with "found PRINT_COMMAND instead of string", evaluating nothing |
| Runner.ExecEnds | runner.py:128-255 | a run accepts only with the whole input consumed and the command emptied |
| Runner.IdentifierInExpressionRejected | runner.py:157-181 | an identifier in expression position raises "Valid expression expected" |
| Runner.ExecBodyRuns | runner.py:157-177 | passing over a body appends its pieces: " 1"/" 0" for booleans, " " + text for operators and parentheses, nothing for `=` |
| Runner.PrintEnding | runner.py:243-251 | `print` and a name evaluate the lower-cased command and go back to stmt |
| Runner.PrintStatementRuns | runner.py:128-251 | a print statement runs from stmt to stmt and evaluates its body's command |
| Runner.PerformsAccepted | runner.py:128-255 | a sequence of print statements is accepted, evaluating their commands in order |
| Runner.AcceptedPerforms | runner.py:128-255 | an accepted sequence is print statements whose commands were evaluated in order |
| Runner.AcceptsPrintPrograms | runner.py:128-255 | on scanned tokens, stmt accepts exactly the sequences of print statements, and evaluates their commands |
| Runner.ParseAccepts | runner.py:118-125 | a text is accepted exactly when it scans without error and its tokens are print statements |
| Runner.PrintStatementIsStatement | runner.py:157-181 | a print statement is one of the statements parser.py accepts |
| Runner.PerformsIsProgram | runner.py:157-181 | a sequence of print statements is a parser.py program |
| Runner.RunnerAcceptsOnlyParserPrograms | runner.py:157-181 | every text runner.py accepts, parser.py accepts too |
| Runner.BoolTextExamples | runner.py:157-161 | `true` appends " 1", `F` " 0", `1` " 1" |
| Runner.IdentifierNoLongerEndsStatementExample | runner.py:157-181 | `x = true y` is rejected in expr |
| Runner.PrintStatementExample | runner.py:243-251 | `x = true print y` is accepted and evaluates " 1" |
| Runner.ParenthesizedCommandExample | runner.py:163-177 | `( F or 1 )` builds " ( 0 or 1 )" |
| Runner.PrintFirstExample | runner.py:140-142 | `print x` fails with "found PRINT_COMMAND instead of string" |

## Left out

- The module-level driver is not modelled: opening the input file, the
  try/except reporting and the `charno+1` formatting (parser.py:244-261,
  runner.py:257-274). These are file I/O and console output. The text is a
  parameter of `Parse`.
- plex itself is not modelled (`plex.Scanner`, `read()`, `position()`). The
  scanner is modelled from the lexicon table instead. A lexical error
  carries the offset of the failing character, not a line and column.
  Parse errors carry their message and no position.
- The trace `print(...)` calls are not modelled; they are diagnostic output
  only.
- `eval` and the printing of its result (runner.py:247-249) are not
  modelled: they call into Python's evaluator. The model records the
  lower-cased command handed to it, in `evaluated`. An exception `eval`
  raises on a malformed command is not modelled, and neither is the fact
  that such an exception escapes the driver's handlers.
- Parser.ProgramAccepted, Parser.AcceptsPrograms, Parser.RecognizeAccepts, Runner.PerformsAccepted, Runner.AcceptsPrintPrograms, Runner.ParseAccepts: these accept programs of any length.
  Python does not eliminate tail calls, so every transition of the parse
  methods stays on the call stack until the parse ends (parser.py:126-242,
  runner.py:128-255). The limit on recursion depth, and the RecursionError
  a long enough input raises, are not modelled. That error is neither a plex error nor a ParseError, so it
  escapes the driver's handlers (parser.py:256-261, runner.py:269-274).
- The exception classes are not modelled. An `Outcome` value tells
  acceptance, a lexical error and a parse error with its message apart.
- Lexer.Read: the read is modelled on the four kinds of pattern the
  lexicon uses (a list of words, a list of words in any case, a set of
  characters, one or more letters or digits), not on plex's general
  regular expressions.
