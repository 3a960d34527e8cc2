// The recursive-descent recognizer of parser.py: the class MyParser, whose
// methods hold one token of lookahead in the fields la/val and advance it
// through chains of tail calls until stmt sees the end of the input or
// something raises.

module Parser {
  import opened Lexer

  // ---------------------------------------------------------------------
  // Outcomes and messages

  /** How a parse ends: it returns normally, the scanner fails, or a method raises ParseError. */
  datatype Outcome = Accept | LexicalError(at: nat) | ParseError(message: string)

  const StmtMessage := "in stmt: string or print command expected"
  const ExprMessage := "in expr: Valid expression expected"
  const BooleanValMessage := "in booleanVal: Boolean value expected"
  const LogOpMessage := "in logOp: Logical Operator (and, or, not) expected"
  const AssignOpMessage := "in assignOp: Assignment operator expected"
  const PrintCheckMessage := "in printCheck: Print Command expected"
  const StringCheckMessage := "in stringCheck: Print Command expected"

  /** The lookahead as the parser prints it: the kind's name, or None at the end of the input. */
  function LaName(la: Option<Kind>): string
  {
    match la
    case None => "None"
    case Some(k) => KindName(k)
  }

  /** The message match raises when the lookahead is not the expected kind. */
  function MatchMessage(la: Option<Kind>, expected: Kind): string
  {
    "found " + LaName(la) + " instead of " + KindName(expected)
  }

  // ---------------------------------------------------------------------
  // The token stream seen from the lookahead

  /**
   * A stream whose first token is the lookahead. A stream with no tokens
   * left but a lexical error never holds a lookahead: the error is raised
   * by the read that would have produced it.
   */
  predicate Wf(s: Stream)
  {
    s.toks != [] || s.err.None?
  }

  /** The kind of the lookahead: None at the end of the input. */
  function La(s: Stream): Option<Kind>
  {
    if s.toks == [] then None else Some(s.toks[0].kind)
  }

  /** The text of the lookahead: empty at the end of the input. */
  function Val(s: Stream): string
  {
    if s.toks == [] then "" else s.toks[0].lexeme
  }

  /** Consuming the lookahead reads the next token, which may fail. */
  datatype Consumed = Advanced(rest: Stream) | Raised(outcome: Outcome)

  function Consume(s: Stream): (c: Consumed)
    requires s.toks != []
    ensures c.Advanced? ==> Wf(c.rest) && c.rest.toks == s.toks[1..] && c.rest.err == s.err
    ensures c.Raised? <==> |s.toks| == 1 && s.err.Some?
    ensures c.Raised? ==> c.outcome == LexicalError(s.err.value)
  {
    if |s.toks| == 1 && s.err.Some? then Raised(LexicalError(s.err.value))
    else Advanced(Stream(s.toks[1..], s.err))
  }

  // ---------------------------------------------------------------------
  // The parser as an automaton

  /** The parse methods, each a state of the automaton. */
  datatype State = InStmt | InExpr | InBooleanVal | InLogOp | InAssignOp | InPrintCheck | InStringCheck

  /** expr hands the same lookahead on to the methods it dispatches to, so it ranks above them. */
  function Rank(st: State): nat
  {
    if st == InExpr then 1 else 0
  }

  /** How a parse ends, and the stream from the lookahead the parser holds at that point. */
  datatype Parse = Parse(outcome: Outcome, rest: Stream)

  /** What the method of state st does on stream s. */
  function Run(st: State, s: Stream): (p: Parse)
    requires Wf(s)
    decreases |s.toks|, Rank(st), 1
  {
    match st
    case InStmt =>
      if La(s) == Some(StringToken) || La(s) == Some(PrintCommandToken) then Then(StringToken, s, InExpr)
      else if La(s).None? then Parse(Accept, s)
      else Parse(ParseError(StmtMessage), s)
    case InExpr =>
      if La(s) == Some(BooleanValToken) then Run(InBooleanVal, s)
      else if La(s) == Some(LogOpToken) then Run(InLogOp, s)
      else if La(s) == Some(AssignOpToken) then Run(InAssignOp, s)
      else if La(s) == Some(PrintCommandToken) then Run(InPrintCheck, s)
      else if La(s) == Some(StringToken) then Then(StringToken, s, InStmt)
      else if Val(s) == "(" then Then(LeftParToken, s, InExpr)
      else if Val(s) == ")" then Then(RightParToken, s, InExpr)
      else Parse(ParseError(ExprMessage), s)
    case InBooleanVal =>
      if La(s) == Some(BooleanValToken) then Then(BooleanValToken, s, InExpr)
      else Parse(ParseError(BooleanValMessage), s)
    case InLogOp =>
      if La(s) == Some(LogOpToken) then Then(LogOpToken, s, InExpr)
      else Parse(ParseError(LogOpMessage), s)
    case InAssignOp =>
      if La(s) == Some(AssignOpToken) then
        match Consume(s)
        case Raised(o) => Parse(o, s)
        case Advanced(r) =>
          if La(r) == Some(LeftParToken) || La(r) == Some(BooleanValToken) || Val(r) == "not" then Run(InExpr, r)
          else Parse(ParseError(AssignOpMessage), r)
      else Parse(ParseError(AssignOpMessage), s)
    case InPrintCheck =>
      if La(s) == Some(PrintCommandToken) then Then(PrintCommandToken, s, InStringCheck)
      else Parse(ParseError(PrintCheckMessage), s)
    case InStringCheck =>
      if La(s) == Some(StringToken) then Then(StringToken, s, InStmt)
      else Parse(ParseError(StringCheckMessage), s)
  }

  /** match(t) followed by the method of state next. */
  function Then(t: Kind, s: Stream, next: State): (p: Parse)
    requires Wf(s)
    decreases |s.toks|, 0, 0
  {
    if La(s) != Some(t) then Parse(ParseError(MatchMessage(La(s), t)), s)
    else
      match Consume(s)
      case Raised(o) => Parse(o, s)
      case Advanced(r) => Run(next, r)
  }

  /** parse: creating the scanner reads the first token, then stmt runs. */
  function Start(s: Stream): Outcome
  {
    if s.toks == [] && s.err.Some? then LexicalError(s.err.value)
    else Run(InStmt, s).outcome
  }

  /** The verdict on a whole text. */
  function Recognize(text: string): Outcome
  {
    Start(Tokenize(text))
  }

  // ---------------------------------------------------------------------
  // The class

  class MyParser {
    /** The tokens the scanner has yet to hand out, and the lexical error it stops at, if any. */
    var pending: seq<Token>
    var failAt: Option<nat>
    /** The lookahead: its kind (None at the end of the input) and its text. */
    var la: Option<Kind>
    var val: string

    ghost predicate Valid()
      reads this
    {
      la.None? ==> pending == [] && failAt.None? && val == ""
    }

    /** The stream from the lookahead on. */
    ghost function Remaining(): (s: Stream)
      reads this
      requires Valid()
      ensures Wf(s) && La(s) == la && Val(s) == val
    {
      Stream((if la.Some? then [Token(la.value, val)] else []) + pending, failAt)
    }

    ghost function Size(): nat
      reads this
      requires Valid()
    {
      |Remaining().toks|
    }

    /** next_token: the scanner's next read becomes the lookahead; a lexical error leaves everything as it was. */
    method NextToken() returns (raised: Option<Outcome>)
      modifies this
      ensures raised.Some? <==> old(pending) == [] && old(failAt).Some?
      ensures raised.Some? ==> raised.value == LexicalError(old(failAt).value) &&
                               la == old(la) && val == old(val) && pending == old(pending) && failAt == old(failAt)
      ensures raised.None? && old(pending) == [] ==> la.None? && val == "" && pending == [] && failAt == old(failAt)
      ensures raised.None? && old(pending) != [] ==>
                la == Some(old(pending)[0].kind) && val == old(pending)[0].lexeme &&
                pending == old(pending)[1..] && failAt == old(failAt)
    {
      if pending == [] {
        if failAt.Some? {
          raised := Some(LexicalError(failAt.value));
        } else {
          la, val := None, "";
          raised := None;
        }
      } else {
        la, val := Some(pending[0].kind), pending[0].lexeme;
        pending := pending[1..];
        raised := None;
      }
    }

    /** match: consumes the lookahead when it is of kind t, and raises otherwise. */
    method Match(t: Kind) returns (raised: Option<Outcome>)
      requires Valid()
      modifies this
      ensures Valid()
      ensures old(la) != Some(t) ==>
                raised == Some(ParseError(MatchMessage(old(la), t))) && Remaining() == old(Remaining())
      ensures old(la) == Some(t) ==>
                match Consume(old(Remaining()))
                case Raised(o) => raised == Some(o) && Remaining() == old(Remaining())
                case Advanced(r) => raised.None? && Remaining() == r
    {
      if la == Some(t) {
        raised := NextToken();
        assert old(Remaining()).toks[1..] == old(pending);
      } else {
        raised := Some(ParseError(MatchMessage(la, t)));
      }
    }

    /** create_scanner: the scanner over the text, and its first read as the lookahead. */
    method CreateScanner(text: string) returns (raised: Option<Outcome>)
      modifies this
      ensures var s := Tokenize(text);
              (raised.Some? <==> s.toks == [] && s.err.Some?) &&
              (raised.Some? ==> raised.value == LexicalError(s.err.value)) &&
              (raised.None? ==> Valid() && Remaining() == s)
    {
      var s := Tokenize(text);
      pending, failAt := s.toks, s.err;
      la, val := None, "";
      raised := NextToken();
      if raised.None? && s.toks != [] {
        assert [s.toks[0]] + s.toks[1..] == s.toks;
      }
    }

    /** parse: create the scanner, then run stmt. */
    method Parse(text: string) returns (r: Outcome)
      modifies this
      ensures r == Recognize(text)
      ensures r == Accept ==> la.None? && val == "" && pending == [] && failAt.None?
    {
      var raised := CreateScanner(text);
      ghost var s := Tokenize(text);
      if raised.Some? {
        r := raised.value;
      } else {
        r := Stmt();
        RunEnds(InStmt, s);
      }
      assert Recognize(text) == Start(s);
    }

    method Stmt() returns (r: Outcome)
      requires Valid()
      modifies this
      ensures Valid()
      ensures r == Run(InStmt, old(Remaining())).outcome && Remaining() == Run(InStmt, old(Remaining())).rest
      decreases Size(), 0
    {
      if la == Some(StringToken) || la == Some(PrintCommandToken) {
        var raised := Match(StringToken);
        if raised.Some? {
          return raised.value;
        }
        r := Expr();
      } else if la.None? {
        r := Accept;
      } else {
        r := ParseError(StmtMessage);
      }
    }

    method Expr() returns (r: Outcome)
      requires Valid()
      modifies this
      ensures Valid()
      ensures r == Run(InExpr, old(Remaining())).outcome && Remaining() == Run(InExpr, old(Remaining())).rest
      decreases Size(), 1
    {
      if la == Some(BooleanValToken) {
        r := BooleanVal();
      } else if la == Some(LogOpToken) {
        r := LogOp();
      } else if la == Some(AssignOpToken) {
        r := AssignOp();
      } else if la == Some(PrintCommandToken) {
        r := PrintCheck();
      } else if la == Some(StringToken) {
        var raised := Match(StringToken);
        if raised.Some? {
          return raised.value;
        }
        r := Stmt();
      } else if val == "(" {
        var raised := Match(LeftParToken);
        if raised.Some? {
          return raised.value;
        }
        r := Expr();
      } else if val == ")" {
        var raised := Match(RightParToken);
        if raised.Some? {
          return raised.value;
        }
        r := Expr();
      } else {
        r := ParseError(ExprMessage);
      }
    }

    method BooleanVal() returns (r: Outcome)
      requires Valid()
      modifies this
      ensures Valid()
      ensures r == Run(InBooleanVal, old(Remaining())).outcome && Remaining() == Run(InBooleanVal, old(Remaining())).rest
      decreases Size(), 0
    {
      if la == Some(BooleanValToken) {
        var raised := Match(BooleanValToken);
        if raised.Some? {
          return raised.value;
        }
        r := Expr();
      } else {
        r := ParseError(BooleanValMessage);
      }
    }

    method LogOp() returns (r: Outcome)
      requires Valid()
      modifies this
      ensures Valid()
      ensures r == Run(InLogOp, old(Remaining())).outcome && Remaining() == Run(InLogOp, old(Remaining())).rest
      decreases Size(), 0
    {
      if la == Some(LogOpToken) {
        var raised := Match(LogOpToken);
        if raised.Some? {
          return raised.value;
        }
        r := Expr();
      } else {
        r := ParseError(LogOpMessage);
      }
    }

    method AssignOp() returns (r: Outcome)
      requires Valid()
      modifies this
      ensures Valid()
      ensures r == Run(InAssignOp, old(Remaining())).outcome && Remaining() == Run(InAssignOp, old(Remaining())).rest
      decreases Size(), 0
    {
      if la == Some(AssignOpToken) {
        var raised := Match(AssignOpToken);
        if raised.Some? {
          return raised.value;
        }
        if la == Some(LeftParToken) || la == Some(BooleanValToken) || val == "not" {
          r := Expr();
        } else {
          r := ParseError(AssignOpMessage);
        }
      } else {
        r := ParseError(AssignOpMessage);
      }
    }

    method PrintCheck() returns (r: Outcome)
      requires Valid()
      modifies this
      ensures Valid()
      ensures r == Run(InPrintCheck, old(Remaining())).outcome && Remaining() == Run(InPrintCheck, old(Remaining())).rest
      decreases Size(), 0
    {
      if la == Some(PrintCommandToken) {
        var raised := Match(PrintCommandToken);
        if raised.Some? {
          return raised.value;
        }
        r := StringCheck();
      } else {
        r := ParseError(PrintCheckMessage);
      }
    }

    method StringCheck() returns (r: Outcome)
      requires Valid()
      modifies this
      ensures Valid()
      ensures r == Run(InStringCheck, old(Remaining())).outcome && Remaining() == Run(InStringCheck, old(Remaining())).rest
      decreases Size(), 0
    {
      if la == Some(StringToken) {
        var raised := Match(StringToken);
        if raised.Some? {
          return raised.value;
        }
        r := Stmt();
      } else {
        r := ParseError(StringCheckMessage);
      }
    }
  }

  // ---------------------------------------------------------------------
  // How a run ends

  /**
   * Running a method never changes the lexical error the stream ends in;
   * a lexical error outcome is that error, and the run accepts only with
   * nothing left of an input the scanner read through to its end.
   */
  lemma {:induction false} RunEnds(st: State, s: Stream)
    requires Wf(s)
    ensures Wf(Run(st, s).rest) && Run(st, s).rest.err == s.err
    ensures Run(st, s).outcome == Accept ==> Run(st, s).rest == Stream([], None)
    ensures Run(st, s).outcome.LexicalError? ==> s.err == Some(Run(st, s).outcome.at)
    decreases |s.toks|, Rank(st), 1
  {
    match st
    case InStmt =>
      if La(s) == Some(StringToken) || La(s) == Some(PrintCommandToken) {
        ThenEnds(StringToken, s, InExpr);
      }
    case InExpr =>
      if La(s) == Some(BooleanValToken) {
        RunEnds(InBooleanVal, s);
      } else if La(s) == Some(LogOpToken) {
        RunEnds(InLogOp, s);
      } else if La(s) == Some(AssignOpToken) {
        RunEnds(InAssignOp, s);
      } else if La(s) == Some(PrintCommandToken) {
        RunEnds(InPrintCheck, s);
      } else if La(s) == Some(StringToken) {
        ThenEnds(StringToken, s, InStmt);
      } else if Val(s) == "(" {
        ThenEnds(LeftParToken, s, InExpr);
      } else if Val(s) == ")" {
        ThenEnds(RightParToken, s, InExpr);
      }
    case InBooleanVal =>
      ThenEnds(BooleanValToken, s, InExpr);
    case InLogOp =>
      ThenEnds(LogOpToken, s, InExpr);
    case InAssignOp =>
      if La(s) == Some(AssignOpToken) {
        match Consume(s)
        case Raised(o) =>
        case Advanced(r) =>
          if La(r) == Some(LeftParToken) || La(r) == Some(BooleanValToken) || Val(r) == "not" {
            RunEnds(InExpr, r);
          }
      }
    case InPrintCheck =>
      ThenEnds(PrintCommandToken, s, InStringCheck);
    case InStringCheck =>
      ThenEnds(StringToken, s, InStmt);
  }

  lemma {:induction false} ThenEnds(t: Kind, s: Stream, next: State)
    requires Wf(s)
    ensures Wf(Then(t, s, next).rest) && Then(t, s, next).rest.err == s.err
    ensures Then(t, s, next).outcome == Accept ==> Then(t, s, next).rest == Stream([], None)
    ensures Then(t, s, next).outcome.LexicalError? ==> s.err == Some(Then(t, s, next).outcome.at)
    decreases |s.toks|, 0, 0
  {
    if La(s) == Some(t) {
      match Consume(s)
      case Raised(o) =>
      case Advanced(r) => RunEnds(next, r);
    }
  }

  /** At the end of the input only stmt returns normally; every other method raises its own message. */
  lemma EndOfInput()
    ensures Run(InStmt, Stream([], None)).outcome == Accept
    ensures Run(InExpr, Stream([], None)).outcome == ParseError(ExprMessage)
    ensures Run(InBooleanVal, Stream([], None)).outcome == ParseError(BooleanValMessage)
    ensures Run(InLogOp, Stream([], None)).outcome == ParseError(LogOpMessage)
    ensures Run(InAssignOp, Stream([], None)).outcome == ParseError(AssignOpMessage)
    ensures Run(InPrintCheck, Stream([], None)).outcome == ParseError(PrintCheckMessage)
    ensures Run(InStringCheck, Stream([], None)).outcome == ParseError(StringCheckMessage)
  {
  }

  /** stmt handles print like an identifier and so matches it against `string`, which always fails. */
  lemma PrintStatementRejected(s: Stream)
    requires Wf(s) && La(s) == Some(PrintCommandToken)
    ensures Run(InStmt, s) == Parse(ParseError("found PRINT_COMMAND instead of string"), s)
  {
    PrintMatchMessage();
  }

  lemma PrintMatchMessage()
    ensures MatchMessage(Some(PrintCommandToken), StringToken) == "found PRINT_COMMAND instead of string"
  {
    assert "found " + "PRINT_COMMAND" + " instead of " + "string" == "found PRINT_COMMAND instead of string";
  }

  // ---------------------------------------------------------------------
  // The language the automaton accepts

  /** The tokens expr passes over without handing control back to stmt. */
  predicate InBody(t: Token)
  {
    t.kind == BooleanValToken || t.kind == LogOpToken || t.kind == AssignOpToken ||
    t.kind == LeftParToken || t.kind == RightParToken
  }

  /** What assignOp lets follow `=`: an opening parenthesis, a boolean value or `not`. */
  predicate Operand(t: Token)
  {
    t.kind == LeftParToken || t.kind == BooleanValToken || t.lexeme == "not"
  }

  /** A run of body tokens in which every `=` is followed by an operand. */
  predicate IsBody(b: seq<Token>)
  {
    b == [] ||
    (InBody(b[0]) && (b[0].kind == AssignOpToken ==> 2 <= |b| && Operand(b[1])) && IsBody(b[1..]))
  }

  /** What follows the identifier of a statement: a body, then an identifier or `print` and an identifier. */
  predicate IsStatementRest(c: seq<Token>)
  {
    1 <= |c| && c[|c| - 1].kind == StringToken &&
    (IsBody(c[..|c| - 1]) || (2 <= |c| && c[|c| - 2].kind == PrintCommandToken && IsBody(c[..|c| - 2])))
  }

  /** A statement: an identifier and its rest. */
  predicate IsStatement(u: seq<Token>)
  {
    2 <= |u| && u[0].kind == StringToken && IsStatementRest(u[1..])
  }

  /** A program: statements one after the other. */
  ghost predicate IsProgram(ts: seq<Token>)
    decreases |ts|
  {
    ts == [] || exists n :: 2 <= n <= |ts| && IsStatement(ts[..n]) && IsProgram(ts[n..])
  }

  /** expr passes over one body token: the run goes on in expr from the next token. */
  lemma BodyStep(s: Stream)
    requires s.err.None? && 1 <= |s.toks| && InBody(s.toks[0]) && Proper(s.toks[0])
    requires s.toks[0].kind == AssignOpToken ==> 2 <= |s.toks| && Operand(s.toks[1])
    ensures Run(InExpr, s) == Run(InExpr, Stream(s.toks[1..], None))
  {
    ProperTokenFacts(s.toks[0]);
    var r := Stream(s.toks[1..], None);
    assert Consume(s) == Advanced(r);
    match s.toks[0].kind
    case BooleanValToken =>
      assert Run(InExpr, s) == Run(InBooleanVal, s) == Then(BooleanValToken, s, InExpr);
    case LogOpToken =>
      assert Run(InExpr, s) == Run(InLogOp, s) == Then(LogOpToken, s, InExpr);
    case AssignOpToken =>
      assert La(r) == Some(s.toks[1].kind) && Val(r) == s.toks[1].lexeme;
      assert Run(InExpr, s) == Run(InAssignOp, s) == Run(InExpr, r);
    case LeftParToken =>
      assert Run(InExpr, s) == Then(LeftParToken, s, InExpr);
    case RightParToken =>
      assert Run(InExpr, s) == Then(RightParToken, s, InExpr);
  }

  /** expr runs through a body without a decision: it reaches what follows in the state it started in. */
  lemma {:induction false} BodyRuns(b: seq<Token>, rest: seq<Token>)
    requires IsBody(b) && AllProper(b)
    ensures Run(InExpr, Stream(b + rest, None)) == Run(InExpr, Stream(rest, None))
    decreases |b|
  {
    if b != [] {
      var s := Stream(b + rest, None);
      assert s.toks[1..] == b[1..] + rest;
      assert s.toks[0] == b[0];
      if b[0].kind == AssignOpToken {
        assert s.toks[1] == b[1];
      }
      BodyStep(s);
      assert Run(InExpr, s) == Run(InExpr, Stream(b[1..] + rest, None));
      assert AllProper(b[1..]);
      BodyRuns(b[1..], rest);
    } else {
      assert b + rest == rest;
    }
  }

  /** stmt matches the identifier of a statement and goes on in expr. */
  lemma StmtStep(x: Token, rest: seq<Token>)
    requires x.kind == StringToken
    ensures Run(InStmt, Stream([x] + rest, None)) == Run(InExpr, Stream(rest, None))
  {
    var s := Stream([x] + rest, None);
    assert s.toks[1..] == rest;
    assert Consume(s) == Advanced(Stream(rest, None));
  }

  /** The end of a statement, an identifier or `print` and an identifier, takes expr back to stmt. */
  lemma EndingRuns(e: seq<Token>, rest: seq<Token>)
    requires (|e| == 1 && e[0].kind == StringToken) ||
             (|e| == 2 && e[0].kind == PrintCommandToken && e[1].kind == StringToken)
    ensures Run(InExpr, Stream(e + rest, None)) == Run(InStmt, Stream(rest, None))
  {
    var s := Stream(e + rest, None);
    if |e| == 1 {
      assert s.toks[1..] == rest;
      assert La(s) == Some(StringToken);
      assert Consume(s) == Advanced(Stream(rest, None));
      assert Run(InExpr, s) == Then(StringToken, s, InStmt);
    } else {
      var r := Stream([e[1]] + rest, None);
      assert s.toks[1..] == r.toks;
      assert La(s) == Some(PrintCommandToken);
      assert Consume(s) == Advanced(r);
      assert Run(InExpr, s) == Run(InPrintCheck, s) == Run(InStringCheck, r);
      assert r.toks[1..] == rest;
      assert La(r) == Some(StringToken);
      assert Consume(r) == Advanced(Stream(rest, None));
      assert Run(InStringCheck, r) == Then(StringToken, r, InStmt);
    }
  }

  /** A whole statement takes stmt back to stmt with the statement consumed. */
  lemma StatementRuns(u: seq<Token>, rest: seq<Token>)
    requires IsStatement(u) && AllProper(u)
    ensures Run(InStmt, Stream(u + rest, None)) == Run(InStmt, Stream(rest, None))
  {
    var c := u[1..];
    var m := if IsBody(c[..|c| - 1]) then |c| - 1 else |c| - 2;
    var b, e := c[..m], c[m..];
    assert u + rest == [u[0]] + (b + (e + rest));
    assert AllProper(b);
    StmtStep(u[0], b + (e + rest));
    BodyRuns(b, e + rest);
    EndingRuns(e, rest);
  }

  lemma ProperSplit(ts: seq<Token>, n: nat)
    requires AllProper(ts) && n <= |ts|
    ensures AllProper(ts[..n]) && AllProper(ts[n..]) && ts[..n] + ts[n..] == ts
  {
    assert forall k :: 0 <= k < |ts| - n ==> ts[n..][k] == ts[n + k];
  }

  /** Every program is accepted. */
  lemma {:induction false} ProgramAccepted(ts: seq<Token>)
    requires IsProgram(ts) && AllProper(ts)
    ensures Run(InStmt, Stream(ts, None)).outcome == Accept
    decreases |ts|
  {
    if ts != [] {
      var n :| 2 <= n <= |ts| && IsStatement(ts[..n]) && IsProgram(ts[n..]);
      ProperSplit(ts, n);
      StatementRuns(ts[..n], ts[n..]);
      ProgramAccepted(ts[n..]);
    }
  }

  /** A body token put in front of a statement's rest keeps it one, provided an `=` gets its operand. */
  lemma PrependBody(t: Token, c: seq<Token>)
    requires IsStatementRest(c) && InBody(t)
    requires t.kind == AssignOpToken ==> InBody(c[0]) && Operand(c[0])
    ensures IsStatementRest([t] + c)
  {
    var d := [t] + c;
    var m := if IsBody(c[..|c| - 1]) then |c| - 1 else |c| - 2;
    var b := c[..m];
    assert d[|d| - 1] == c[|c| - 1];
    assert d[..m + 1] == [t] + b;
    assert ([t] + b)[1..] == b;
    if t.kind == AssignOpToken {
      assert b != [] && b[0] == c[0];
    }
    assert IsBody([t] + b);
    if m == |c| - 2 {
      assert d[|d| - 2] == c[|c| - 2];
    }
  }

  /** The token after `=` that assignOp lets through is a body token. */
  lemma OperandInBody(t: Token)
    requires Proper(t) && Operand(t)
    ensures InBody(t)
  {
    ProperTokenFacts(t);
  }

  /** expr on an identifier matches it and hands control back to stmt. */
  lemma ExprOnIdentifier(ts: seq<Token>)
    requires ts != [] && ts[0].kind == StringToken
    ensures Run(InExpr, Stream(ts, None)) == Run(InStmt, Stream(ts[1..], None))
  {
    assert Consume(Stream(ts, None)) == Advanced(Stream(ts[1..], None));
  }

  /** expr on print goes through printCheck and stringCheck, which accept only an identifier next. */
  lemma ExprOnPrint(ts: seq<Token>)
    requires ts != [] && ts[0].kind == PrintCommandToken
    requires Run(InExpr, Stream(ts, None)).outcome == Accept
    ensures 2 <= |ts| && ts[1].kind == StringToken
    ensures Run(InExpr, Stream(ts, None)) == Run(InStmt, Stream(ts[2..], None))
  {
    var s, r := Stream(ts, None), Stream(ts[1..], None);
    assert Consume(s) == Advanced(r);
    assert Run(InExpr, s) == Run(InPrintCheck, s) == Run(InStringCheck, r);
    assert La(r) == Some(StringToken);
    assert r.toks[1..] == ts[2..];
    assert Consume(r) == Advanced(Stream(ts[2..], None));
  }

  /** An accepting expr passes over a body token; after `=` it has checked for an operand. */
  lemma ExprOnBody(ts: seq<Token>)
    requires AllProper(ts) && ts != [] && InBody(ts[0])
    requires Run(InExpr, Stream(ts, None)).outcome == Accept
    ensures ts[0].kind == AssignOpToken ==> 2 <= |ts| && InBody(ts[1]) && Operand(ts[1])
    ensures Run(InExpr, Stream(ts, None)) == Run(InExpr, Stream(ts[1..], None))
  {
    var s, r := Stream(ts, None), Stream(ts[1..], None);
    assert Proper(ts[0]);
    if ts[0].kind == AssignOpToken {
      assert Consume(s) == Advanced(r);
      assert Run(InExpr, s) == Run(InAssignOp, s);
      assert La(r) == Some(LeftParToken) || La(r) == Some(BooleanValToken) || Val(r) == "not";
      assert Proper(ts[1]) && Operand(ts[1]);
      OperandInBody(ts[1]);
    }
    BodyStep(s);
  }

  /**
   * When expr accepts, it has handed control back to stmt after a
   * statement's rest: the first n tokens are one, and stmt accepts what follows.
   */
  lemma {:induction false} ExprAccepted(ts: seq<Token>) returns (n: nat)
    requires AllProper(ts) && Run(InExpr, Stream(ts, None)).outcome == Accept
    ensures 1 <= n <= |ts| && IsStatementRest(ts[..n]) && Run(InStmt, Stream(ts[n..], None)).outcome == Accept
    decreases |ts|
  {
    assert ts != [];
    var t := ts[0];
    if t.kind == StringToken {
      ExprOnIdentifier(ts);
      n := 1;
      assert ts[..1] == [t] && ts[..1][..0] == [];
    } else if t.kind == PrintCommandToken {
      ExprOnPrint(ts);
      n := 2;
      assert ts[..2][..0] == [];
    } else {
      ExprOnBody(ts);
      ProperSplit(ts, 1);
      var m := ExprAccepted(ts[1..]);
      n := m + 1;
      assert ts[..n] == [t] + ts[1..][..m];
      assert ts[n..] == ts[1..][m..];
      PrependBody(t, ts[1..][..m]);
    }
  }

  /** Every accepted token sequence is a program. */
  lemma {:induction false} AcceptedIsProgram(ts: seq<Token>)
    requires AllProper(ts) && Run(InStmt, Stream(ts, None)).outcome == Accept
    ensures IsProgram(ts)
    decreases |ts|
  {
    if ts != [] {
      var s := Stream(ts, None);
      assert La(s) == Some(StringToken);
      assert Consume(s) == Advanced(Stream(ts[1..], None));
      ProperSplit(ts, 1);
      var m := ExprAccepted(ts[1..]);
      var n := m + 1;
      assert ts[..n][1..] == ts[1..][..m];
      assert ts[n..] == ts[1..][m..];
      ProperSplit(ts, n);
      AcceptedIsProgram(ts[n..]);
    }
  }

  /** On the tokens the scanner produces, stmt accepts exactly the programs. */
  lemma AcceptsPrograms(ts: seq<Token>)
    requires AllProper(ts)
    ensures Run(InStmt, Stream(ts, None)).outcome == Accept <==> IsProgram(ts)
  {
    if Run(InStmt, Stream(ts, None)).outcome == Accept {
      AcceptedIsProgram(ts);
    }
    if IsProgram(ts) {
      ProgramAccepted(ts);
    }
  }

  // ---------------------------------------------------------------------
  // Whole texts

  /** A text is accepted exactly when the scanner reads it through to the end and its tokens are a program. */
  lemma RecognizeAccepts(text: string)
    ensures Recognize(text) == Accept <==> Tokenize(text).err.None? && IsProgram(Tokenize(text).toks)
  {
    var s := Tokenize(text);
    TokenizeProper(text);
    if s.err.None? {
      AcceptsPrograms(s.toks);
    } else if s.toks != [] {
      RunEnds(InStmt, s);
    }
  }

  /** A lexical error is reported at a character no rule of the lexicon can start with. */
  lemma LexicalErrorIsBad(text: string)
    ensures Recognize(text).LexicalError? ==>
              Recognize(text).at < |text| && IsBad(text[Recognize(text).at])
  {
    var s := Tokenize(text);
    TokenizeCovers(text);
    if s.toks != [] || s.err.None? {
      RunEnds(InStmt, s);
    }
  }

  /** A nonempty program ends in an identifier. */
  lemma {:induction false} ProgramEndsWithIdentifier(ts: seq<Token>)
    requires IsProgram(ts) && ts != []
    ensures ts[|ts| - 1].kind == StringToken
    decreases |ts|
  {
    var n :| 2 <= n <= |ts| && IsStatement(ts[..n]) && IsProgram(ts[n..]);
    if n == |ts| {
      assert ts[..n][1..][n - 2] == ts[|ts| - 1];
    } else {
      ProgramEndsWithIdentifier(ts[n..]);
      assert ts[n..][|ts| - n - 1] == ts[|ts| - 1];
    }
  }

  /**
   * Since booleanVal, logOp and the parenthesis branches of expr always go
   * on into expr, input that ends in a boolean, an operator, `=` or a
   * parenthesis is rejected.
   */
  lemma TrailingBodyTokenRejected(ts: seq<Token>)
    requires AllProper(ts) && ts != [] && InBody(ts[|ts| - 1])
    ensures Run(InStmt, Stream(ts, None)).outcome != Accept
  {
    if Run(InStmt, Stream(ts, None)).outcome == Accept {
      AcceptedIsProgram(ts);
      ProgramEndsWithIdentifier(ts);
    }
  }

  // ---------------------------------------------------------------------
  // Example token sequences, written as the scanner reads the texts

  /** `x = true y`: the identifier y ends the statement, and stmt then sees the end of the input. */
  lemma IdentifierEndsStatementExample()
    ensures Run(InStmt, Stream([Token(StringToken, "x"), Token(AssignOpToken, "="), Token(BooleanValToken, "true"),
                                Token(StringToken, "y")], None)).outcome == Accept
  {
  }

  /** `x = true`: expr reaches the end of the input after the boolean. */
  lemma TrailingBooleanExample()
    ensures Run(InStmt, Stream([Token(StringToken, "x"), Token(AssignOpToken, "="), Token(BooleanValToken, "true")],
                               None)).outcome == ParseError(ExprMessage)
  {
  }

  /** `x = y`: assignOp lets only `(`, a boolean value or `not` follow `=`. */
  lemma AssignWithoutOperandExample()
    ensures Run(InStmt, Stream([Token(StringToken, "x"), Token(AssignOpToken, "="), Token(StringToken, "y")],
                               None)).outcome == ParseError(AssignOpMessage)
  {
  }

  /** `x = true print y`: print and a name end the statement as an identifier does. */
  lemma PrintEndsStatementExample()
    ensures Run(InStmt, Stream([Token(StringToken, "x"), Token(AssignOpToken, "="), Token(BooleanValToken, "true"),
                                Token(PrintCommandToken, "print"), Token(StringToken, "y")], None)).outcome == Accept
  {
  }

  /** `x = (true`: the parenthesis is matched, but expr then runs into the end of the input. */
  lemma OpenParenthesisExample()
    ensures var p := Run(InStmt, Stream([Token(StringToken, "x"), Token(AssignOpToken, "="), Token(LeftParToken, "("),
                                         Token(BooleanValToken, "true")], None));
            p.outcome == ParseError(ExprMessage) && p.rest == Stream([], None)
  {
  }
}
