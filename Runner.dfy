// The later variant of the recognizer, runner.py: the same lexicon and the
// same methods, except that expr has no identifier branch, and that the
// parser builds up in commandToCalculate the boolean expression of each
// statement and hands it, lower-cased, to Python's evaluator when it meets
// the `print` that ends the statement.

module Runner {
  import opened Lexer
  import opened Parser

  // ---------------------------------------------------------------------
  // What expr appends to the command

  /**
   * The text a boolean value adds: " 1" for true and t in any case and for
   * 1, " 0" for false and f in any case and for 0, and nothing otherwise.
   */
  function BoolText(val: string): string
  {
    if Lower(val) == "true" || Lower(val) == "t" || val == "1" then " 1"
    else if Lower(val) == "false" || Lower(val) == "f" || val == "0" then " 0"
    else ""
  }

  /** What the token expr dispatches on adds to the command; `=` and print add nothing. */
  function Piece(t: Token): string
  {
    if t.kind == BooleanValToken then BoolText(t.lexeme)
    else if t.kind == LogOpToken then " " + t.lexeme
    else if t.kind == AssignOpToken || t.kind == PrintCommandToken then ""
    else if t.lexeme == "(" || t.lexeme == ")" then " " + t.lexeme
    else ""
  }

  /** The command a statement body builds. */
  function CommandOf(b: seq<Token>): string
  {
    if b == [] then "" else Piece(b[0]) + CommandOf(b[1..])
  }

  // ---------------------------------------------------------------------
  // The parser as an automaton

  /**
   * How a run ends: the outcome, the stream from the lookahead on, the
   * command as it stands, and the commands handed to the evaluator, in order.
   */
  datatype Trace = Trace(outcome: Outcome, rest: Stream, command: string, evaluated: seq<string>)

  /** The commands evaluated before t are put in front of t's. */
  function After(evaluated: seq<string>, t: Trace): Trace
  {
    Trace(t.outcome, t.rest, t.command, evaluated + t.evaluated)
  }

  /** What the method of state st does on stream s, starting from command cmd. */
  function Exec(st: State, s: Stream, cmd: string): (t: Trace)
    requires Wf(s)
    decreases |s.toks|, Rank(st), 1
  {
    match st
    case InStmt =>
      if La(s) == Some(StringToken) || La(s) == Some(PrintCommandToken) then ExecThen(StringToken, s, InExpr, "")
      else if La(s).None? then Trace(Accept, s, "", [])
      else Trace(ParseError(StmtMessage), s, "", [])
    case InExpr =>
      if La(s) == Some(BooleanValToken) then Exec(InBooleanVal, s, cmd + BoolText(Val(s)))
      else if La(s) == Some(LogOpToken) then Exec(InLogOp, s, cmd + " " + Val(s))
      else if La(s) == Some(AssignOpToken) then Exec(InAssignOp, s, cmd)
      else if La(s) == Some(PrintCommandToken) then Exec(InPrintCheck, s, cmd)
      else if Val(s) == "(" then ExecThen(LeftParToken, s, InExpr, cmd + " " + Val(s))
      else if Val(s) == ")" then ExecThen(RightParToken, s, InExpr, cmd + " " + Val(s))
      else Trace(ParseError(ExprMessage), s, cmd, [])
    case InBooleanVal =>
      if La(s) == Some(BooleanValToken) then ExecThen(BooleanValToken, s, InExpr, cmd)
      else Trace(ParseError(BooleanValMessage), s, cmd, [])
    case InLogOp =>
      if La(s) == Some(LogOpToken) then ExecThen(LogOpToken, s, InExpr, cmd)
      else Trace(ParseError(LogOpMessage), s, cmd, [])
    case InAssignOp =>
      if La(s) == Some(AssignOpToken) then
        match Consume(s)
        case Raised(o) => Trace(o, s, cmd, [])
        case Advanced(r) =>
          if La(r) == Some(LeftParToken) || La(r) == Some(BooleanValToken) || Val(r) == "not" then Exec(InExpr, r, cmd)
          else Trace(ParseError(AssignOpMessage), r, cmd, [])
      else Trace(ParseError(AssignOpMessage), s, cmd, [])
    case InPrintCheck =>
      if La(s) == Some(PrintCommandToken) then ExecThen(PrintCommandToken, s, InStringCheck, cmd)
      else Trace(ParseError(PrintCheckMessage), s, cmd, [])
    case InStringCheck =>
      if La(s) == Some(StringToken) then After([Lower(cmd)], ExecThen(StringToken, s, InStmt, cmd))
      else Trace(ParseError(StringCheckMessage), s, cmd, [])
  }

  /** match(t) followed by the method of state next. */
  function ExecThen(t: Kind, s: Stream, next: State, cmd: string): (p: Trace)
    requires Wf(s)
    decreases |s.toks|, 0, 0
  {
    if La(s) != Some(t) then Trace(ParseError(MatchMessage(La(s), t)), s, cmd, [])
    else
      match Consume(s)
      case Raised(o) => Trace(o, s, cmd, [])
      case Advanced(r) => Exec(next, r, cmd)
  }

  /** parse: creating the scanner empties the command and reads the first token, then stmt runs. */
  function ExecStart(s: Stream): Trace
  {
    if s.toks == [] && s.err.Some? then Trace(LexicalError(s.err.value), s, "", [])
    else Exec(InStmt, s, "")
  }

  // ---------------------------------------------------------------------
  // The class

  class MyParser {
    /** The tokens the scanner has yet to hand out, and the lexical error it stops at, if any. */
    var pending: seq<Token>
    var failAt: Option<nat>
    /** The lookahead: its kind (None at the end of the input) and its text. */
    var la: Option<Kind>
    var val: string
    /** The boolean expression of the statement being read, in Python syntax. */
    var commandToCalculate: string
    /** The commands handed to the evaluator so far, lower-cased, in order. */
    var evaluated: seq<string>

    ghost predicate Valid()
      reads this
    {
      la.None? ==> pending == [] && failAt.None? && val == ""
    }

    /** The stream from the lookahead on. */
    ghost function Remaining(): (s: Stream)
      reads this
      requires Valid()
      ensures Wf(s) && La(s) == la && Val(s) == val
    {
      Stream((if la.Some? then [Token(la.value, val)] else []) + pending, failAt)
    }

    ghost function Size(): nat
      reads this
      requires Valid()
    {
      |Remaining().toks|
    }

    /** The state after a run: its stream, its command, and its evaluations added to the earlier ones. */
    ghost predicate Reached(t: Trace, before: seq<string>)
      reads this
      requires Valid()
    {
      Remaining() == t.rest && commandToCalculate == t.command && evaluated == before + t.evaluated
    }

    /** next_token: the scanner's next read becomes the lookahead; a lexical error leaves everything as it was. */
    method NextToken() returns (raised: Option<Outcome>)
      modifies this`la, this`val, this`pending
      ensures raised.Some? <==> old(pending) == [] && failAt.Some?
      ensures raised.Some? ==> raised.value == LexicalError(failAt.value) &&
                               la == old(la) && val == old(val) && pending == old(pending)
      ensures raised.None? && old(pending) == [] ==> la.None? && val == "" && pending == []
      ensures raised.None? && old(pending) != [] ==>
                la == Some(old(pending)[0].kind) && val == old(pending)[0].lexeme && pending == old(pending)[1..]
    {
      if pending == [] {
        if failAt.Some? {
          raised := Some(LexicalError(failAt.value));
        } else {
          la, val := None, "";
          raised := None;
        }
      } else {
        la, val := Some(pending[0].kind), pending[0].lexeme;
        pending := pending[1..];
        raised := None;
      }
    }

    /** match: consumes the lookahead when it is of kind t, and raises otherwise. */
    method Match(t: Kind) returns (raised: Option<Outcome>)
      requires Valid()
      modifies this`la, this`val, this`pending
      ensures Valid()
      ensures old(la) != Some(t) ==>
                raised == Some(ParseError(MatchMessage(old(la), t))) && Remaining() == old(Remaining())
      ensures old(la) == Some(t) ==>
                match Consume(old(Remaining()))
                case Raised(o) => raised == Some(o) && Remaining() == old(Remaining())
                case Advanced(r) => raised.None? && Remaining() == r
    {
      if la == Some(t) {
        raised := NextToken();
        assert old(Remaining()).toks[1..] == old(pending);
      } else {
        raised := Some(ParseError(MatchMessage(la, t)));
      }
    }

    /** create_scanner: the command is emptied, and the scanner's first read becomes the lookahead. */
    method CreateScanner(text: string) returns (raised: Option<Outcome>)
      modifies this
      ensures commandToCalculate == "" && evaluated == []
      ensures var s := Tokenize(text);
              (raised.Some? <==> s.toks == [] && s.err.Some?) &&
              (raised.Some? ==> raised.value == LexicalError(s.err.value)) &&
              (raised.None? ==> Valid() && Remaining() == s)
    {
      commandToCalculate := "";
      evaluated := [];
      var s := Tokenize(text);
      pending, failAt := s.toks, s.err;
      la, val := None, "";
      raised := NextToken();
      if raised.None? && s.toks != [] {
        assert [s.toks[0]] + s.toks[1..] == s.toks;
      }
    }

    /** parse: create the scanner, then run stmt. */
    method Parse(text: string) returns (r: Outcome)
      modifies this
      ensures r == ExecStart(Tokenize(text)).outcome && evaluated == ExecStart(Tokenize(text)).evaluated
      ensures r == Accept ==> la.None? && val == "" && pending == [] && failAt.None? && commandToCalculate == ""
    {
      var raised := CreateScanner(text);
      ghost var s := Tokenize(text);
      if raised.Some? {
        r := raised.value;
      } else {
        r := Stmt();
        ExecEnds(InStmt, s, "");
      }
    }

    method Stmt() returns (r: Outcome)
      requires Valid()
      modifies this
      ensures Valid()
      ensures r == Exec(InStmt, old(Remaining()), old(commandToCalculate)).outcome
      ensures Reached(Exec(InStmt, old(Remaining()), old(commandToCalculate)), old(evaluated))
      decreases Size(), 0
    {
      commandToCalculate := "";
      if la == Some(StringToken) {
        var raised := Match(StringToken);
        if raised.Some? {
          return raised.value;
        }
        r := Expr();
      } else if la == Some(PrintCommandToken) {
        var raised := Match(StringToken);
        return raised.value;
      } else if la.None? {
        r := Accept;
      } else {
        r := ParseError(StmtMessage);
      }
    }

    method Expr() returns (r: Outcome)
      requires Valid()
      modifies this
      ensures Valid()
      ensures r == Exec(InExpr, old(Remaining()), old(commandToCalculate)).outcome
      ensures Reached(Exec(InExpr, old(Remaining()), old(commandToCalculate)), old(evaluated))
      decreases Size(), 1
    {
      ghost var s0, c0 := Remaining(), commandToCalculate;
      if la == Some(BooleanValToken) {
        if Lower(val) == "true" || Lower(val) == "t" || val == "1" {
          commandToCalculate := commandToCalculate + " 1";
        } else if Lower(val) == "false" || Lower(val) == "f" || val == "0" {
          commandToCalculate := commandToCalculate + " 0";
        }
        assert commandToCalculate == c0 + BoolText(val);
        r := BooleanVal();
      } else if la == Some(LogOpToken) {
        commandToCalculate := commandToCalculate + " " + val;
        r := LogOp();
      } else if la == Some(AssignOpToken) {
        r := AssignOp();
      } else if la == Some(PrintCommandToken) {
        r := PrintCheck();
      } else if val == "(" {
        commandToCalculate := commandToCalculate + " " + val;
        assert Exec(InExpr, s0, c0) == ExecThen(LeftParToken, s0, InExpr, commandToCalculate);
        var raised := Match(LeftParToken);
        if raised.Some? {
          return raised.value;
        }
        r := Expr();
      } else if val == ")" {
        commandToCalculate := commandToCalculate + " " + val;
        assert Exec(InExpr, s0, c0) == ExecThen(RightParToken, s0, InExpr, commandToCalculate);
        var raised := Match(RightParToken);
        if raised.Some? {
          return raised.value;
        }
        r := Expr();
      } else {
        r := ParseError(ExprMessage);
      }
    }

    method BooleanVal() returns (r: Outcome)
      requires Valid()
      modifies this
      ensures Valid()
      ensures r == Exec(InBooleanVal, old(Remaining()), old(commandToCalculate)).outcome
      ensures Reached(Exec(InBooleanVal, old(Remaining()), old(commandToCalculate)), old(evaluated))
      decreases Size(), 0
    {
      if la == Some(BooleanValToken) {
        var raised := Match(BooleanValToken);
        if raised.Some? {
          return raised.value;
        }
        r := Expr();
      } else {
        r := ParseError(BooleanValMessage);
      }
    }

    method LogOp() returns (r: Outcome)
      requires Valid()
      modifies this
      ensures Valid()
      ensures r == Exec(InLogOp, old(Remaining()), old(commandToCalculate)).outcome
      ensures Reached(Exec(InLogOp, old(Remaining()), old(commandToCalculate)), old(evaluated))
      decreases Size(), 0
    {
      if la == Some(LogOpToken) {
        var raised := Match(LogOpToken);
        if raised.Some? {
          return raised.value;
        }
        r := Expr();
      } else {
        r := ParseError(LogOpMessage);
      }
    }

    method AssignOp() returns (r: Outcome)
      requires Valid()
      modifies this
      ensures Valid()
      ensures r == Exec(InAssignOp, old(Remaining()), old(commandToCalculate)).outcome
      ensures Reached(Exec(InAssignOp, old(Remaining()), old(commandToCalculate)), old(evaluated))
      decreases Size(), 0
    {
      if la == Some(AssignOpToken) {
        var raised := Match(AssignOpToken);
        if raised.Some? {
          return raised.value;
        }
        if la == Some(LeftParToken) || la == Some(BooleanValToken) || val == "not" {
          r := Expr();
        } else {
          r := ParseError(AssignOpMessage);
        }
      } else {
        r := ParseError(AssignOpMessage);
      }
    }

    method PrintCheck() returns (r: Outcome)
      requires Valid()
      modifies this
      ensures Valid()
      ensures r == Exec(InPrintCheck, old(Remaining()), old(commandToCalculate)).outcome
      ensures Reached(Exec(InPrintCheck, old(Remaining()), old(commandToCalculate)), old(evaluated))
      decreases Size(), 0
    {
      if la == Some(PrintCommandToken) {
        var raised := Match(PrintCommandToken);
        if raised.Some? {
          return raised.value;
        }
        r := StringCheck();
      } else {
        r := ParseError(PrintCheckMessage);
      }
    }

    /** stringCheck: the command, lower-cased, goes to the evaluator before the name after print is matched. */
    method StringCheck() returns (r: Outcome)
      requires Valid()
      modifies this
      ensures Valid()
      ensures r == Exec(InStringCheck, old(Remaining()), old(commandToCalculate)).outcome
      ensures Reached(Exec(InStringCheck, old(Remaining()), old(commandToCalculate)), old(evaluated))
      decreases Size(), 0
    {
      if la == Some(StringToken) {
        evaluated := evaluated + [Lower(commandToCalculate)];
        var raised := Match(StringToken);
        if raised.Some? {
          return raised.value;
        }
        r := Stmt();
      } else {
        r := ParseError(StringCheckMessage);
      }
    }
  }

  // ---------------------------------------------------------------------
  // The command text

  /** A boolean value the scanner produces adds exactly one of " 1" and " 0", by its value in any case. */
  lemma BoolTextOfScannedValue(t: Token)
    requires Proper(t) && t.kind == BooleanValToken
    ensures BoolText(t.lexeme) == if Lower(t.lexeme) in ["true", "t", "1"] then " 1" else " 0"
  {
    var w := t.lexeme;
    assert Lower(w) in BooleanWords;
    if Lower(w) == "1" || Lower(w) == "0" {
      assert |w| == 1 && LowerChar(w[0]) == Lower(w)[0];
      assert w == [w[0]];
    }
  }

  /** A text with no capital letter. */
  predicate NoCapitals(w: string)
  {
    forall k :: 0 <= k < |w| ==> !('A' <= w[k] <= 'Z')
  }

  lemma {:induction false} LowerKeeps(w: string)
    requires NoCapitals(w)
    ensures Lower(w) == w
  {
    if w != [] {
      assert NoCapitals(w[1..]);
      LowerKeeps(w[1..]);
    }
  }

  lemma PieceNoCapitals(t: Token)
    requires Proper(t)
    ensures NoCapitals(Piece(t))
  {
    if t.kind == BooleanValToken {
      BoolTextOfScannedValue(t);
    } else if t.kind == LogOpToken {
      assert t.lexeme in LogOpWords;
      assert NoCapitals(" " + t.lexeme);
    } else if t.kind != AssignOpToken && t.kind != PrintCommandToken && (t.lexeme == "(" || t.lexeme == ")") {
      assert NoCapitals(" " + t.lexeme);
    }
  }

  lemma {:induction false} CommandNoCapitals(b: seq<Token>)
    requires AllProper(b)
    ensures NoCapitals(CommandOf(b))
  {
    if b != [] {
      assert Proper(b[0]);
      PieceNoCapitals(b[0]);
      assert AllProper(b[1..]);
      CommandNoCapitals(b[1..]);
    }
  }

  /**
   * The command built from the scanner's tokens has no capital letter, so
   * the lower() stringCheck applies before evaluating it changes nothing.
   */
  lemma CommandIsLowercase(b: seq<Token>)
    requires AllProper(b)
    ensures Lower(CommandOf(b)) == CommandOf(b)
  {
    CommandNoCapitals(b);
    LowerKeeps(CommandOf(b));
  }

  // ---------------------------------------------------------------------
  // How a run ends

  /** stmt empties the command first: what it does does not depend on the command it finds. */
  lemma StmtForgetsCommand(s: Stream, cmd: string, other: string)
    requires Wf(s)
    ensures Exec(InStmt, s, cmd) == Exec(InStmt, s, other)
  {
  }

  /**
   * Running a method never changes the lexical error the stream ends in,
   * and an accepting run ends with nothing left of an input the scanner
   * read through to its end, and with an empty command.
   */
  lemma {:induction false} ExecEnds(st: State, s: Stream, cmd: string)
    requires Wf(s)
    ensures Exec(st, s, cmd).rest.err == s.err
    ensures Exec(st, s, cmd).outcome == Accept ==> Exec(st, s, cmd).rest == Stream([], None) && Exec(st, s, cmd).command == ""
    decreases |s.toks|, Rank(st), 1
  {
    match st
    case InStmt =>
      if La(s) == Some(StringToken) || La(s) == Some(PrintCommandToken) {
        ExecThenEnds(StringToken, s, InExpr, "");
      }
    case InExpr =>
      if La(s) == Some(BooleanValToken) {
        ExecEnds(InBooleanVal, s, cmd + BoolText(Val(s)));
      } else if La(s) == Some(LogOpToken) {
        ExecEnds(InLogOp, s, cmd + " " + Val(s));
      } else if La(s) == Some(AssignOpToken) {
        ExecEnds(InAssignOp, s, cmd);
      } else if La(s) == Some(PrintCommandToken) {
        ExecEnds(InPrintCheck, s, cmd);
      } else if Val(s) == "(" {
        ExecThenEnds(LeftParToken, s, InExpr, cmd + " " + Val(s));
      } else if Val(s) == ")" {
        ExecThenEnds(RightParToken, s, InExpr, cmd + " " + Val(s));
      }
    case InBooleanVal =>
      ExecThenEnds(BooleanValToken, s, InExpr, cmd);
    case InLogOp =>
      ExecThenEnds(LogOpToken, s, InExpr, cmd);
    case InAssignOp =>
      if La(s) == Some(AssignOpToken) {
        match Consume(s)
        case Raised(o) =>
        case Advanced(r) =>
          if La(r) == Some(LeftParToken) || La(r) == Some(BooleanValToken) || Val(r) == "not" {
            ExecEnds(InExpr, r, cmd);
          }
      }
    case InPrintCheck =>
      ExecThenEnds(PrintCommandToken, s, InStringCheck, cmd);
    case InStringCheck =>
      ExecThenEnds(StringToken, s, InStmt, cmd);
  }

  lemma {:induction false} ExecThenEnds(t: Kind, s: Stream, next: State, cmd: string)
    requires Wf(s)
    ensures ExecThen(t, s, next, cmd).rest.err == s.err
    ensures ExecThen(t, s, next, cmd).outcome == Accept ==>
              ExecThen(t, s, next, cmd).rest == Stream([], None) && ExecThen(t, s, next, cmd).command == ""
    decreases |s.toks|, 0, 0
  {
    if La(s) == Some(t) {
      match Consume(s)
      case Raised(o) =>
      case Advanced(r) => ExecEnds(next, r, cmd);
    }
  }

  // ---------------------------------------------------------------------
  // The language the automaton accepts, and the commands it evaluates

  /** expr has no identifier branch: an identifier in expression position is an error. */
  lemma IdentifierInExpressionRejected(s: Stream, cmd: string)
    requires Wf(s) && s.toks != [] && Proper(s.toks[0]) && s.toks[0].kind == StringToken
    ensures Exec(InExpr, s, cmd).outcome == ParseError(ExprMessage)
  {
    ProperTokenFacts(s.toks[0]);
  }

  /** stmt rejects a print lookahead on every stream: it empties the command and calls match('string'). */
  lemma PrintLookaheadRejected(s: Stream, cmd: string)
    requires Wf(s) && La(s) == Some(PrintCommandToken)
    ensures Exec(InStmt, s, cmd) == Trace(ParseError("found PRINT_COMMAND instead of string"), s, "", [])
  {
    PrintMatchMessage();
  }

  /** A statement runner.py accepts: an identifier, a body, then `print` and an identifier. */
  predicate IsPrintStatement(u: seq<Token>)
  {
    3 <= |u| && u[0].kind == StringToken && u[|u| - 2].kind == PrintCommandToken && u[|u| - 1].kind == StringToken &&
    IsBody(u[1..|u| - 2])
  }

  /** ts is a sequence of print statements, and ev the commands of their bodies, in order. */
  ghost predicate Performs(ts: seq<Token>, ev: seq<string>)
    decreases |ts|
  {
    if ts == [] then ev == []
    else
      exists n :: 3 <= n <= |ts| && IsPrintStatement(ts[..n]) &&
        ev != [] && ev[0] == CommandOf(ts[1..n - 2]) && Performs(ts[n..], ev[1..])
  }

  /** expr passes over one body token, adding its piece to the command. */
  lemma ExecBodyStep(s: Stream, cmd: string)
    requires s.err.None? && 1 <= |s.toks| && InBody(s.toks[0]) && Proper(s.toks[0])
    requires s.toks[0].kind == AssignOpToken ==> 2 <= |s.toks| && Operand(s.toks[1])
    ensures Exec(InExpr, s, cmd) == Exec(InExpr, Stream(s.toks[1..], None), cmd + Piece(s.toks[0]))
  {
    var t := s.toks[0];
    ProperTokenFacts(t);
    var r := Stream(s.toks[1..], None);
    assert Consume(s) == Advanced(r);
    match t.kind
    case BooleanValToken =>
      assert Piece(t) == BoolText(Val(s));
      assert Exec(InExpr, s, cmd) == Exec(InBooleanVal, s, cmd + Piece(t));
      assert Exec(InBooleanVal, s, cmd + Piece(t)) == ExecThen(BooleanValToken, s, InExpr, cmd + Piece(t));
    case LogOpToken =>
      assert cmd + " " + Val(s) == cmd + Piece(t);
      assert Exec(InExpr, s, cmd) == Exec(InLogOp, s, cmd + Piece(t)) == ExecThen(LogOpToken, s, InExpr, cmd + Piece(t));
    case AssignOpToken =>
      assert La(r) == Some(s.toks[1].kind) && Val(r) == s.toks[1].lexeme;
      assert Exec(InExpr, s, cmd) == Exec(InAssignOp, s, cmd) == Exec(InExpr, r, cmd);
      assert cmd + Piece(t) == cmd;
    case LeftParToken =>
      assert cmd + " " + Val(s) == cmd + Piece(t);
      assert Exec(InExpr, s, cmd) == ExecThen(LeftParToken, s, InExpr, cmd + Piece(t));
    case RightParToken =>
      assert cmd + " " + Val(s) == cmd + Piece(t);
      assert Exec(InExpr, s, cmd) == ExecThen(RightParToken, s, InExpr, cmd + Piece(t));
  }

  /** expr runs through a body, which adds the body's command to the command. */
  lemma {:induction false} ExecBodyRuns(b: seq<Token>, rest: seq<Token>, cmd: string)
    requires IsBody(b) && AllProper(b)
    ensures Exec(InExpr, Stream(b + rest, None), cmd) == Exec(InExpr, Stream(rest, None), cmd + CommandOf(b))
    decreases |b|
  {
    if b != [] {
      var s := Stream(b + rest, None);
      assert s.toks[1..] == b[1..] + rest;
      assert s.toks[0] == b[0];
      if b[0].kind == AssignOpToken {
        assert s.toks[1] == b[1];
      }
      ExecBodyStep(s, cmd);
      assert AllProper(b[1..]);
      ExecBodyRuns(b[1..], rest, cmd + Piece(b[0]));
      assert cmd + Piece(b[0]) + CommandOf(b[1..]) == cmd + CommandOf(b);
    } else {
      assert b + rest == rest;
      assert cmd + CommandOf(b) == cmd;
    }
  }

  /** `print` and an identifier hand the command, lower-cased, to the evaluator, and return to stmt. */
  lemma PrintEnding(p: Token, y: Token, rest: seq<Token>, cmd: string)
    requires p.kind == PrintCommandToken && y.kind == StringToken
    ensures Exec(InExpr, Stream([p, y] + rest, None), cmd) == After([Lower(cmd)], Exec(InStmt, Stream(rest, None), ""))
  {
    var s := Stream([p, y] + rest, None);
    var r := Stream([y] + rest, None);
    assert s.toks[1..] == r.toks;
    assert Consume(s) == Advanced(r);
    assert Exec(InExpr, s, cmd) == Exec(InPrintCheck, s, cmd) == Exec(InStringCheck, r, cmd);
    assert r.toks[1..] == rest;
    assert Consume(r) == Advanced(Stream(rest, None));
    StmtForgetsCommand(Stream(rest, None), cmd, "");
  }

  /** stmt matches the identifier of a statement and goes on in expr with an empty command. */
  lemma ExecStmtStep(x: Token, rest: seq<Token>, cmd: string)
    requires x.kind == StringToken
    ensures Exec(InStmt, Stream([x] + rest, None), cmd) == Exec(InExpr, Stream(rest, None), "")
  {
    var s := Stream([x] + rest, None);
    assert s.toks[1..] == rest;
    assert Consume(s) == Advanced(Stream(rest, None));
  }

  /** A print statement evaluates the command of its body and takes stmt back to stmt. */
  lemma PrintStatementRuns(u: seq<Token>, rest: seq<Token>, cmd: string)
    requires IsPrintStatement(u) && AllProper(u)
    ensures Exec(InStmt, Stream(u + rest, None), cmd) ==
            After([CommandOf(u[1..|u| - 2])], Exec(InStmt, Stream(rest, None), ""))
  {
    var b := u[1..|u| - 2];
    var p, y := u[|u| - 2], u[|u| - 1];
    assert u + rest == [u[0]] + (b + ([p, y] + rest));
    assert AllProper(b);
    ExecStmtStep(u[0], b + ([p, y] + rest), cmd);
    ExecBodyRuns(b, [p, y] + rest, "");
    PrintEnding(p, y, rest, "" + CommandOf(b));
    assert "" + CommandOf(b) == CommandOf(b);
    CommandIsLowercase(b);
  }

  /** The first print statement of ts, when it is n tokens long, evaluates its body's command and returns to stmt. */
  lemma FirstStatementRuns(ts: seq<Token>, n: nat, cmd: string)
    requires 3 <= n <= |ts| && IsPrintStatement(ts[..n]) && AllProper(ts)
    ensures AllProper(ts[n..])
    ensures Exec(InStmt, Stream(ts, None), cmd) ==
            After([CommandOf(ts[1..n - 2])], Exec(InStmt, Stream(ts[n..], None), ""))
  {
    ProperSplit(ts, n);
    PrintStatementRuns(ts[..n], ts[n..], cmd);
    assert ts[..n][1..n - 2] == ts[1..n - 2];
  }

  /** The first statement of a nonempty sequence of print statements, and the rest. */
  lemma PerformsFirst(ts: seq<Token>, ev: seq<string>) returns (n: nat)
    requires Performs(ts, ev) && ts != []
    ensures 3 <= n <= |ts| && IsPrintStatement(ts[..n])
    ensures ev == [CommandOf(ts[1..n - 2])] + ev[1..] && Performs(ts[n..], ev[1..])
  {
    n :| 3 <= n <= |ts| && IsPrintStatement(ts[..n]) &&
      ev != [] && ev[0] == CommandOf(ts[1..n - 2]) && Performs(ts[n..], ev[1..]);
    assert [ev[0]] + ev[1..] == ev;
  }

  /** A sequence of print statements is accepted, and evaluates the commands of their bodies. */
  lemma {:induction false} PerformsAccepted(ts: seq<Token>, ev: seq<string>, cmd: string)
    requires Performs(ts, ev) && AllProper(ts)
    ensures Exec(InStmt, Stream(ts, None), cmd).outcome == Accept
    ensures Exec(InStmt, Stream(ts, None), cmd).evaluated == ev
    decreases |ts|
  {
    if ts != [] {
      var n := PerformsFirst(ts, ev);
      FirstStatementRuns(ts, n, cmd);
      PerformsAccepted(ts[n..], ev[1..], "");
    }
  }

  /** expr on print goes through printCheck and stringCheck, which accept only an identifier next. */
  lemma ExecOnPrint(ts: seq<Token>, cmd: string)
    requires ts != [] && ts[0].kind == PrintCommandToken
    requires Exec(InExpr, Stream(ts, None), cmd).outcome == Accept
    ensures 2 <= |ts| && ts[1].kind == StringToken
    ensures Exec(InExpr, Stream(ts, None), cmd) == After([Lower(cmd)], Exec(InStmt, Stream(ts[2..], None), ""))
  {
    var s, r := Stream(ts, None), Stream(ts[1..], None);
    assert Consume(s) == Advanced(r);
    assert Exec(InExpr, s, cmd) == Exec(InPrintCheck, s, cmd) == Exec(InStringCheck, r, cmd);
    assert La(r) == Some(StringToken);
    assert ts == [ts[0], ts[1]] + ts[2..];
    PrintEnding(ts[0], ts[1], ts[2..], cmd);
  }

  /** An accepting expr passes over a body token; after `=` it has checked for an operand. */
  lemma ExecOnBody(ts: seq<Token>, cmd: string)
    requires AllProper(ts) && ts != [] && InBody(ts[0])
    requires Exec(InExpr, Stream(ts, None), cmd).outcome == Accept
    ensures ts[0].kind == AssignOpToken ==> 2 <= |ts| && InBody(ts[1]) && Operand(ts[1])
    ensures Exec(InExpr, Stream(ts, None), cmd) == Exec(InExpr, Stream(ts[1..], None), cmd + Piece(ts[0]))
  {
    var s, r := Stream(ts, None), Stream(ts[1..], None);
    assert Proper(ts[0]);
    if ts[0].kind == AssignOpToken {
      assert Consume(s) == Advanced(r);
      assert Exec(InExpr, s, cmd) == Exec(InAssignOp, s, cmd);
      assert La(r) == Some(LeftParToken) || La(r) == Some(BooleanValToken) || Val(r) == "not";
      assert Proper(ts[1]) && Operand(ts[1]);
      OperandInBody(ts[1]);
    }
    ExecBodyStep(s, cmd);
  }

  /** A body token in front of a body, an `=` only before an operand, is a body, and adds its piece first. */
  lemma BodyCons(t: Token, b: seq<Token>)
    requires InBody(t) && IsBody(b)
    requires t.kind == AssignOpToken ==> b != [] && Operand(b[0])
    ensures IsBody([t] + b) && CommandOf([t] + b) == Piece(t) + CommandOf(b)
  {
    assert ([t] + b)[1..] == b;
  }

  lemma ShiftSlices(ts: seq<Token>, m: nat)
    requires 2 <= m < |ts|
    ensures ts[..m - 1] == [ts[0]] + ts[1..][..m - 2] && ts[m + 1..] == ts[1..][m..]
  {
  }

  lemma StatementSlices(ts: seq<Token>, m: nat)
    requires 2 <= m < |ts|
    ensures ts[..m + 1][1..m - 1] == ts[1..][..m - 2] && ts[1..m - 1] == ts[1..][..m - 2]
  {
  }

  lemma Assoc(a: string, b: string, c: string)
    ensures a + b + c == a + (b + c)
  {
  }

  /**
   * When expr accepts, the tokens up to a `print` and the identifier after
   * it are a body, and the command of that body goes to the evaluator.
   */
  lemma {:induction false} ExecExprAccepted(ts: seq<Token>, cmd: string) returns (n: nat)
    requires AllProper(ts) && Exec(InExpr, Stream(ts, None), cmd).outcome == Accept
    ensures 2 <= n <= |ts| && ts[n - 2].kind == PrintCommandToken && ts[n - 1].kind == StringToken
    ensures IsBody(ts[..n - 2])
    ensures Exec(InExpr, Stream(ts, None), cmd) ==
            After([Lower(cmd + CommandOf(ts[..n - 2]))], Exec(InStmt, Stream(ts[n..], None), ""))
    decreases |ts|
  {
    assert ts != [];
    var t := ts[0];
    assert Proper(t);
    if t.kind == StringToken {
      IdentifierInExpressionRejected(Stream(ts, None), cmd);
      assert false;
    } else if t.kind == PrintCommandToken {
      ExecOnPrint(ts, cmd);
      n := 2;
      assert ts[..0] == [] && cmd + CommandOf([]) == cmd;
    } else {
      ExecOnBody(ts, cmd);
      ProperSplit(ts, 1);
      var m := ExecExprAccepted(ts[1..], cmd + Piece(t));
      n := m + 1;
      var b := ts[1..][..m - 2];
      ShiftSlices(ts, m);
      if t.kind == AssignOpToken {
        assert b != [] && b[0] == ts[1];
      }
      BodyCons(t, b);
      Assoc(cmd, Piece(t), CommandOf(b));
    }
  }

  /** When stmt accepts a nonempty input, the input starts with a print statement, whose command is evaluated first. */
  lemma AcceptedFirst(ts: seq<Token>, cmd: string) returns (n: nat)
    requires AllProper(ts) && ts != [] && Exec(InStmt, Stream(ts, None), cmd).outcome == Accept
    ensures 3 <= n <= |ts| && IsPrintStatement(ts[..n])
    ensures Exec(InStmt, Stream(ts, None), cmd) == After([CommandOf(ts[1..n - 2])], Exec(InStmt, Stream(ts[n..], None), ""))
  {
    var s := Stream(ts, None);
    assert La(s) == Some(StringToken);
    assert ts == [ts[0]] + ts[1..];
    ExecStmtStep(ts[0], ts[1..], cmd);
    ProperSplit(ts, 1);
    var m := ExecExprAccepted(ts[1..], "");
    n := m + 1;
    var b := ts[1..][..m - 2];
    ShiftSlices(ts, m);
    StatementSlices(ts, m);
    assert "" + CommandOf(b) == CommandOf(b);
    CommandIsLowercase(b);
  }

  /** What an accepting run does: its tokens are print statements, and it evaluates their bodies' commands. */
  lemma {:induction false} AcceptedPerforms(ts: seq<Token>, cmd: string)
    requires AllProper(ts) && Exec(InStmt, Stream(ts, None), cmd).outcome == Accept
    ensures Performs(ts, Exec(InStmt, Stream(ts, None), cmd).evaluated)
    decreases |ts|
  {
    if ts != [] {
      var n := AcceptedFirst(ts, cmd);
      ProperSplit(ts, n);
      AcceptedPerforms(ts[n..], "");
      var ev := Exec(InStmt, Stream(ts, None), cmd).evaluated;
      assert ev[0] == CommandOf(ts[1..n - 2]) && ev[1..] == Exec(InStmt, Stream(ts[n..], None), "").evaluated;
    }
  }

  /**
   * On the tokens the scanner produces, stmt accepts exactly the sequences
   * of print statements, and then it has evaluated their bodies' commands.
   */
  lemma AcceptsPrintPrograms(ts: seq<Token>, cmd: string)
    requires AllProper(ts)
    ensures Exec(InStmt, Stream(ts, None), cmd).outcome == Accept <==>
            Performs(ts, Exec(InStmt, Stream(ts, None), cmd).evaluated)
  {
    if Exec(InStmt, Stream(ts, None), cmd).outcome == Accept {
      AcceptedPerforms(ts, cmd);
    } else if Performs(ts, Exec(InStmt, Stream(ts, None), cmd).evaluated) {
      PerformsAccepted(ts, Exec(InStmt, Stream(ts, None), cmd).evaluated, cmd);
    }
  }

  /**
   * parse on a text: it succeeds exactly when the scanner reads the whole
   * text and the tokens are print statements, whose commands it evaluates.
   */
  lemma ParseAccepts(text: string)
    ensures ExecStart(Tokenize(text)).outcome == Accept <==>
            Tokenize(text).err.None? && Performs(Tokenize(text).toks, ExecStart(Tokenize(text)).evaluated)
  {
    var s := Tokenize(text);
    TokenizeProper(text);
    if s.err.None? {
      AcceptsPrintPrograms(s.toks, "");
    } else if s.toks != [] {
      ExecEnds(InStmt, s, "");
    }
  }

  // ---------------------------------------------------------------------
  // The two recognizers compared

  /** A print statement is one of the statements parser.py accepts. */
  lemma PrintStatementIsStatement(u: seq<Token>)
    requires IsPrintStatement(u)
    ensures IsStatement(u)
  {
    var c := u[1..];
    assert c[|c| - 1] == u[|u| - 1] && c[|c| - 2] == u[|u| - 2];
    assert c[..|c| - 2] == u[1..|u| - 2];
  }

  /** Every input the runner performs is a program parser.py accepts. */
  lemma {:induction false} PerformsIsProgram(ts: seq<Token>, ev: seq<string>)
    requires Performs(ts, ev)
    ensures IsProgram(ts)
    decreases |ts|
  {
    if ts != [] {
      var n :| 3 <= n <= |ts| && IsPrintStatement(ts[..n]) && ev != [] && ev[0] == CommandOf(ts[1..n - 2]) &&
               Performs(ts[n..], ev[1..]);
      PrintStatementIsStatement(ts[..n]);
      PerformsIsProgram(ts[n..], ev[1..]);
      assert 2 <= n <= |ts| && IsStatement(ts[..n]) && IsProgram(ts[n..]);
    }
  }

  /** What runner.py accepts, parser.py accepts too. */
  lemma RunnerAcceptsOnlyParserPrograms(text: string)
    ensures ExecStart(Tokenize(text)).outcome == Accept ==> Recognize(text) == Accept
  {
    if ExecStart(Tokenize(text)).outcome == Accept {
      ParseAccepts(text);
      PerformsIsProgram(Tokenize(text).toks, ExecStart(Tokenize(text)).evaluated);
      RecognizeAccepts(text);
    }
  }

  // ---------------------------------------------------------------------
  // Example token sequences, written as the scanner reads the texts

  /** The boolean values of the examples below, in the case they are written. */
  lemma BoolTextExamples()
    ensures BoolText("true") == " 1" && BoolText("F") == " 0" && BoolText("1") == " 1"
  {
    assert Lower("true") == "true";
    assert Lower("F") == "f";
    assert Lower("1") == "1";
  }

  /** `x = true y`: parser.py accepts it, but here expr has no identifier branch. */
  lemma IdentifierNoLongerEndsStatementExample()
    ensures Exec(InStmt, Stream([Token(StringToken, "x"), Token(AssignOpToken, "="), Token(BooleanValToken, "true"),
                                 Token(StringToken, "y")], None), "").outcome == ParseError(ExprMessage)
  {
    var x, y := Token(StringToken, "x"), Token(StringToken, "y");
    var b := [Token(AssignOpToken, "="), Token(BooleanValToken, "true")];
    assert [x] + (b + [y]) == [x, b[0], b[1], y];
    ExecStmtStep(x, b + [y], "");
    AssignTrueBody();
    ExecBodyRuns(b, [y], "");
    assert La(Stream([y], None)) == Some(StringToken);
  }

  /** The scanner's token for `true`. */
  lemma TrueIsProper()
    ensures Proper(Token(BooleanValToken, "true"))
  {
    BooleansInAnyCase();
    assert AllAlnum("true");
  }

  /** `= true` is a body made of scanner tokens. */
  lemma AssignTrueBody()
    ensures AllProper([Token(AssignOpToken, "="), Token(BooleanValToken, "true")])
    ensures IsBody([Token(AssignOpToken, "="), Token(BooleanValToken, "true")])
  {
    TrueIsProper();
  }

  /** `= true` builds the command " 1". */
  lemma AssignTrueCommand()
    ensures "" + CommandOf([Token(AssignOpToken, "="), Token(BooleanValToken, "true")]) == " 1"
  {
    BoolTextExamples();
    assert CommandOf([Token(BooleanValToken, "true")]) == " 1";
  }

  /** `x = true print y`: the statement is accepted, and " 1" is handed to the evaluator. */
  lemma PrintStatementExample()
    ensures Exec(InStmt, Stream([Token(StringToken, "x"), Token(AssignOpToken, "="), Token(BooleanValToken, "true"),
                                 Token(PrintCommandToken, "print"), Token(StringToken, "y")], None), "")
            == Trace(Accept, Stream([], None), "", [" 1"])
  {
    var x, y := Token(StringToken, "x"), Token(StringToken, "y");
    var b := [Token(AssignOpToken, "="), Token(BooleanValToken, "true")];
    var tail := [Token(PrintCommandToken, "print"), y];
    assert [x] + (b + (tail + [])) == [x, b[0], b[1], tail[0], y];
    ExecStmtStep(x, b + (tail + []), "");
    AssignTrueBody();
    ExecBodyRuns(b, tail + [], "");
    AssignTrueCommand();
    PrintEnding(tail[0], y, [], " 1");
    LowerKeeps(" 1");
  }

  /** `( F or 1 )`: each boolean adds its digit, the operator and the parentheses their own text. */
  lemma ParenthesizedCommandExample()
    ensures CommandOf([Token(LeftParToken, "("), Token(BooleanValToken, "F"), Token(LogOpToken, "or"),
                       Token(BooleanValToken, "1"), Token(RightParToken, ")")]) == " ( 0 or 1 )"
  {
    BoolTextExamples();
  }

  /** `print x`: stmt calls match('string') on the print lookahead. */
  lemma PrintFirstExample()
    ensures Exec(InStmt, Stream([Token(PrintCommandToken, "print"), Token(StringToken, "x")], None), "").outcome
            == ParseError(MatchMessage(Some(PrintCommandToken), StringToken))
  {
  }
}
