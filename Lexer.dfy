// The scanner of the recognizer: an ordered lexicon of (pattern, action)
// rules, read by longest match with the earlier rule winning ties.
// parser.py and runner.py declare the same lexicon (parser.py:52-77,
// runner.py:54-79); this module models it once for both.

module Lexer {

  datatype Option<T> = None | Some(value: T)

  /** The token kinds, one per emitting rule of the lexicon. */
  datatype Kind =
    | LogOpToken
    | BooleanValToken
    | AssignOpToken
    | PrintCommandToken
    | StringToken
    | LeftParToken
    | RightParToken

  /** The name the scanner's action gives each kind. */
  function KindName(k: Kind): string
  {
    match k
    case LogOpToken => "LOG_OP_TOKEN"
    case BooleanValToken => "BOOLEAN_VAL_TOKEN"
    case AssignOpToken => "ASSIGN_OP"
    case PrintCommandToken => "PRINT_COMMAND"
    case StringToken => "string"
    case LeftParToken => "("
    case RightParToken => ")"
  }

  /** A token is the pair (kind, matched text). */
  datatype Token = Token(kind: Kind, lexeme: string)

  predicate IsLetter(c: char) { 'A' <= c <= 'Z' || 'a' <= c <= 'z' }
  predicate IsDigit(c: char) { '0' <= c <= '9' }
  predicate IsAlnum(c: char) { IsLetter(c) || IsDigit(c) }
  predicate IsSpace(c: char) { c == ' ' || c == '\t' || c == '\n' }
  predicate AllAlnum(w: string) { forall k :: 0 <= k < |w| ==> IsAlnum(w[k]) }

  /** The characters that are tokens on their own. */
  predicate IsPunct(c: char) { c == '=' || c == '(' || c == ')' }

  /** A character no rule of the lexicon can start with. */
  predicate IsBad(c: char) { !IsAlnum(c) && !IsSpace(c) && !IsPunct(c) }

  /** ASCII lower-casing, as the case-insensitive boolean rule folds case. */
  function LowerChar(c: char): char
  {
    if 'A' <= c <= 'Z' then (c as int + 32) as char else c
  }

  function Lower(s: string): (r: string)
    ensures |r| == |s|
    ensures forall k :: 0 <= k < |s| ==> r[k] == LowerChar(s[k])
  {
    if s == [] then [] else [LowerChar(s[0])] + Lower(s[1..])
  }

  // ---------------------------------------------------------------------
  // The lexicon as data

  datatype Pattern =
    | Str(words: seq<string>)        // exactly one of the words
    | NoCaseStr(words: seq<string>)  // one of the words, in any case
    | Any(chars: string)             // a single character from the set
    | Rep1Alnum                      // one or more letters or digits

  datatype Action = Emit(kind: Kind) | Ignore

  datatype Rule = Rule(pattern: Pattern, action: Action)

  const LogOpWords: seq<string> := ["and", "or", "not"]
  const BooleanWords: seq<string> := ["true", "false", "t", "f", "0", "1"]
  const Spaces: string := " \t\n"

  /** The lexicon, in priority order. */
  const Lexicon: seq<Rule> := [
    Rule(Str(LogOpWords), Emit(LogOpToken)),
    Rule(NoCaseStr(BooleanWords), Emit(BooleanValToken)),
    Rule(Any(Spaces), Ignore),
    Rule(Str(["="]), Emit(AssignOpToken)),
    Rule(Str(["print"]), Emit(PrintCommandToken)),
    Rule(Rep1Alnum, Emit(StringToken)),
    Rule(Str(["("]), Emit(LeftParToken)),
    Rule(Str([")"]), Emit(RightParToken))
  ]

  /**
   * A rule table laid out as the lexicon is, rule by rule. The proofs about
   * the scanner work on such a table rather than on the constant itself,
   * which keeps the verifier from unfolding the whole table at every step.
   */
  ghost predicate Shaped(rules: seq<Rule>)
  {
    |rules| == 8 &&
    rules[0] == Rule(Str(LogOpWords), Emit(LogOpToken)) &&
    rules[1] == Rule(NoCaseStr(BooleanWords), Emit(BooleanValToken)) &&
    rules[2] == Rule(Any(Spaces), Ignore) &&
    rules[3] == Rule(Str(["="]), Emit(AssignOpToken)) &&
    rules[4] == Rule(Str(["print"]), Emit(PrintCommandToken)) &&
    rules[5] == Rule(Rep1Alnum, Emit(StringToken)) &&
    rules[6] == Rule(Str(["("]), Emit(LeftParToken)) &&
    rules[7] == Rule(Str([")"]), Emit(RightParToken))
  }

  // ---------------------------------------------------------------------
  // Matching one pattern

  predicate WordAt(w: string, noCase: bool, s: string, i: nat)
  {
    i + |w| <= |s| &&
    if noCase then Lower(s[i..i + |w|]) == Lower(w) else s[i..i + |w|] == w
  }

  /** Length of the longest word of ws that occurs at s[i..]; 0 when none does. */
  function WordsLen(ws: seq<string>, noCase: bool, s: string, i: nat): (n: nat)
    ensures n == 0 || i + n <= |s|
  {
    if ws == [] then 0
    else
      var rest := WordsLen(ws[1..], noCase, s, i);
      if WordAt(ws[0], noCase, s, i) && |ws[0]| > rest then |ws[0]| else rest
  }

  /** WordsLen is the length of a longest word of ws at s[i..], and 0 when none occurs there. */
  lemma {:induction false} WordsLenSpec(ws: seq<string>, noCase: bool, s: string, i: nat)
    ensures WordsLen(ws, noCase, s, i) > 0 ==>
              exists k :: 0 <= k < |ws| && |ws[k]| == WordsLen(ws, noCase, s, i) && WordAt(ws[k], noCase, s, i)
    ensures forall k :: 0 <= k < |ws| && WordAt(ws[k], noCase, s, i) ==> |ws[k]| <= WordsLen(ws, noCase, s, i)
  {
    if ws != [] {
      WordsLenSpec(ws[1..], noCase, s, i);
      assert forall k :: 1 <= k < |ws| ==> ws[k] == ws[1..][k - 1];
    }
  }

  /** Length of the maximal run of letters and digits starting at s[i]. */
  function RunLen(s: string, i: nat): (n: nat)
    requires i <= |s|
    ensures i + n <= |s|
    ensures forall k :: i <= k < i + n ==> IsAlnum(s[k])
    ensures i + n == |s| || !IsAlnum(s[i + n])
    decreases |s| - i
  {
    if i < |s| && IsAlnum(s[i]) then 1 + RunLen(s, i + 1) else 0
  }

  /** Length of the longest match of p at s[i..]; 0 when p does not match. */
  function MatchLen(p: Pattern, s: string, i: nat): (n: nat)
    requires i <= |s|
    ensures i + n <= |s|
  {
    match p
    case Str(ws) => WordsLen(ws, false, s, i)
    case NoCaseStr(ws) => WordsLen(ws, true, s, i)
    case Any(cs) => if i < |s| && s[i] in cs then 1 else 0
    case Rep1Alnum => RunLen(s, i)
  }

  /**
   * The rule that reads the next token at s[i..]: the longest match wins,
   * and among equally long matches the rule listed first.
   */
  function Select(rules: seq<Rule>, s: string, i: nat): (r: Option<nat>)
    requires i <= |s|
    ensures r.Some? ==> r.value < |rules| && MatchLen(rules[r.value].pattern, s, i) > 0
  {
    if rules == [] then None
    else
      var n := MatchLen(rules[0].pattern, s, i);
      match Select(rules[1..], s, i)
      case None => if n > 0 then Some(0) else None
      case Some(k) => if n >= MatchLen(rules[1..][k].pattern, s, i) then Some(0) else Some(k + 1)
  }

  /**
   * Select picks a longest match, and the first rule listed among the
   * longest; when it picks none, no rule matches at all.
   */
  lemma {:induction false} SelectSpec(rules: seq<Rule>, s: string, i: nat)
    requires i <= |s|
    ensures Select(rules, s, i).None? ==> forall k :: 0 <= k < |rules| ==> MatchLen(rules[k].pattern, s, i) == 0
    ensures Select(rules, s, i).Some? ==> forall k :: 0 <= k < |rules| ==>
              MatchLen(rules[k].pattern, s, i) <= MatchLen(rules[Select(rules, s, i).value].pattern, s, i)
    ensures Select(rules, s, i).Some? ==> forall k :: 0 <= k < Select(rules, s, i).value ==>
              MatchLen(rules[k].pattern, s, i) < MatchLen(rules[Select(rules, s, i).value].pattern, s, i)
    decreases |rules|
  {
    if rules != [] {
      SelectSpec(rules[1..], s, i);
      assert forall k :: 1 <= k < |rules| ==> rules[k] == rules[1..][k - 1];
    }
  }

  // ---------------------------------------------------------------------
  // Reading tokens

  /** One read of the scanner: a token and where the next read starts, end of input, or a lexical error. */
  datatype Scan = Lexed(token: Token, next: nat) | Done | LexFail(at: nat)

  /** The scanner's read at s[i..]: ignored matches are skipped, the first emitted one is returned. */
  function Read(rules: seq<Rule>, s: string, i: nat): (r: Scan)
    requires i <= |s|
    ensures r.Lexed? ==> i < r.next <= |s| && 0 < |r.token.lexeme| <= r.next - i &&
                         r.token.lexeme == s[r.next - |r.token.lexeme|..r.next]
    ensures r.LexFail? ==> i <= r.at < |s|
    decreases |s| - i
  {
    if i == |s| then Done
    else
      match Select(rules, s, i)
      case None => LexFail(i)
      case Some(k) =>
        var n := MatchLen(rules[k].pattern, s, i);
        match rules[k].action
        case Ignore => Read(rules, s, i + n)
        case Emit(kind) => Lexed(Token(kind, s[i..i + n]), i + n)
  }

  /** The token stream: the tokens read before the end, and the lexical error the end is, if any. */
  datatype Stream = Stream(toks: seq<Token>, err: Option<nat>)

  function TokenizeFrom(rules: seq<Rule>, s: string, i: nat): Stream
    requires i <= |s|
    decreases |s| - i
  {
    match Read(rules, s, i)
    case Done => Stream([], None)
    case LexFail(at) => Stream([], Some(at))
    case Lexed(t, j) =>
      var rest := TokenizeFrom(rules, s, j);
      Stream([t] + rest.toks, rest.err)
  }

  /** The scanner of the lexicon run over the whole text. */
  function Tokenize(s: string): Stream
  {
    TokenizeFrom(Lexicon, s, 0)
  }

  // ---------------------------------------------------------------------
  // What a single word of letters and digits becomes

  /**
   * The kind of a maximal run of letters and digits, with the lexicon's
   * priorities written out: the logical operators, then the booleans in
   * any case, then print, and anything else is an identifier.
   */
  function Classify(w: string): Kind
  {
    if w in LogOpWords then LogOpToken
    else if Lower(w) in BooleanWords then BooleanValToken
    else if w == "print" then PrintCommandToken
    else StringToken
  }

  /** The tokens the scanner can produce. */
  predicate Proper(t: Token)
  {
    t == Token(AssignOpToken, "=") ||
    t == Token(LeftParToken, "(") ||
    t == Token(RightParToken, ")") ||
    (t.lexeme != [] && AllAlnum(t.lexeme) && t.kind == Classify(t.lexeme))
  }

  predicate AllProper(ts: seq<Token>)
  {
    forall k :: 0 <= k < |ts| ==> Proper(ts[k])
  }

  /** The text with its spaces, tabs and newlines removed. */
  function Squeeze(s: string): string
  {
    if s == [] then [] else (if IsSpace(s[0]) then [] else [s[0]]) + Squeeze(s[1..])
  }

  /** The lexemes of a token sequence, joined. */
  function Lexemes(ts: seq<Token>): string
  {
    if ts == [] then [] else ts[0].lexeme + Lexemes(ts[1..])
  }

  // ---------------------------------------------------------------------
  // Lemmas about matching

  lemma LowerAlnum(c: char, d: char)
    requires IsAlnum(d) && LowerChar(c) == LowerChar(d)
    ensures IsAlnum(c)
  {
  }

  lemma LogOpWordsAlnum()
    ensures forall k :: 0 <= k < |LogOpWords| ==> AllAlnum(LogOpWords[k])
  {
    assert AllAlnum("and") && AllAlnum("or") && AllAlnum("not");
  }

  lemma BooleanWordsAlnum()
    ensures forall k :: 0 <= k < |BooleanWords| ==> AllAlnum(BooleanWords[k])
  {
    assert AllAlnum("true") && AllAlnum("false") && AllAlnum("t");
    assert AllAlnum("f") && AllAlnum("0") && AllAlnum("1");
  }

  lemma PrintWordAlnum()
    ensures forall k :: 0 <= k < |["print"]| ==> AllAlnum(["print"][k])
  {
    assert AllAlnum("print");
  }

  lemma BooleanWordsAreLower()
    ensures forall k :: 0 <= k < |BooleanWords| ==> Lower(BooleanWords[k]) == BooleanWords[k]
  {
    assert Lower("true") == "true";
    assert Lower("false") == "false";
    assert Lower("t") == "t";
    assert Lower("f") == "f";
    assert Lower("0") == "0";
    assert Lower("1") == "1";
  }

  /** Two words are equal, up to case when noCase. */
  predicate Same(a: string, b: string, noCase: bool)
  {
    if noCase then Lower(a) == Lower(b) else a == b
  }

  /** One of the words is w, up to case when noCase. */
  predicate SomeSame(ws: seq<string>, w: string, noCase: bool)
  {
    exists k :: 0 <= k < |ws| && Same(ws[k], w, noCase)
  }

  /** The characters a word of letters and digits matches are letters and digits. */
  lemma WordAtAlnum(w: string, noCase: bool, s: string, i: nat)
    requires AllAlnum(w) && WordAt(w, noCase, s, i)
    ensures forall j :: i <= j < i + |w| ==> IsAlnum(s[j])
  {
    var x := s[i..i + |w|];
    forall j | i <= j < i + |w| ensures IsAlnum(s[j]) {
      assert x[j - i] == s[j];
      if noCase {
        assert Lower(x)[j - i] == Lower(w)[j - i];
        LowerAlnum(s[j], w[j - i]);
      }
    }
  }

  /** The maximal run is made of letters and digits. */
  lemma RunAlnum(s: string, i: nat)
    requires i <= |s|
    ensures AllAlnum(s[i..i + RunLen(s, i)])
  {
    var w := s[i..i + RunLen(s, i)];
    forall k | 0 <= k < |w| ensures IsAlnum(w[k]) {
      assert w[k] == s[i + k];
    }
  }

  /** A run of letters and digits at s[i] of length m is no longer than the maximal run. */
  lemma RunBound(s: string, i: nat, m: nat)
    requires i + m <= |s|
    requires forall k :: i <= k < i + m ==> IsAlnum(s[k])
    ensures m <= RunLen(s, i)
  {
  }

  /** A word of letters and digits never matches beyond the maximal run. */
  lemma WordsWithinRun(ws: seq<string>, noCase: bool, s: string, i: nat)
    requires i <= |s|
    requires forall k :: 0 <= k < |ws| ==> AllAlnum(ws[k])
    ensures WordsLen(ws, noCase, s, i) <= RunLen(s, i)
  {
    var n := WordsLen(ws, noCase, s, i);
    WordsLenSpec(ws, noCase, s, i);
    if n > 0 {
      var k :| 0 <= k < |ws| && |ws[k]| == n && WordAt(ws[k], noCase, s, i);
      WordAtAlnum(ws[k], noCase, s, i);
      RunBound(s, i, n);
    }
  }

  /** The longest word matches the whole maximal run w exactly when one of the words is w. */
  lemma WordsFillRun(ws: seq<string>, noCase: bool, s: string, i: nat, n: nat, w: string)
    requires i < |s| && IsAlnum(s[i]) && n == RunLen(s, i) && w == s[i..i + n]
    requires forall k :: 0 <= k < |ws| ==> AllAlnum(ws[k])
    ensures WordsLen(ws, noCase, s, i) == n <==> SomeSame(ws, w, noCase)
  {
    if WordsLen(ws, noCase, s, i) == n {
      FilledRunIsSame(ws, noCase, s, i, n, w);
    }
    if SomeSame(ws, w, noCase) {
      SameFillsRun(ws, noCase, s, i);
    }
  }

  /** A longest match as long as the maximal run w is one of the words matching w. */
  lemma FilledRunIsSame(ws: seq<string>, noCase: bool, s: string, i: nat, n: nat, w: string)
    requires i < |s| && n == RunLen(s, i) && w == s[i..i + n]
    requires WordsLen(ws, noCase, s, i) == n && n > 0
    ensures SomeSame(ws, w, noCase)
  {
    WordsLenSpec(ws, noCase, s, i);
    var k :| 0 <= k < |ws| && |ws[k]| == n && WordAt(ws[k], noCase, s, i);
    assert Same(ws[k], w, noCase);
  }

  /** A word that is the whole maximal run makes the longest match that run. */
  lemma SameFillsRun(ws: seq<string>, noCase: bool, s: string, i: nat)
    requires i <= |s| && RunLen(s, i) > 0
    requires forall k :: 0 <= k < |ws| ==> AllAlnum(ws[k])
    requires SomeSame(ws, s[i..i + RunLen(s, i)], noCase)
    ensures WordsLen(ws, noCase, s, i) == RunLen(s, i)
  {
    var n := RunLen(s, i);
    var w := s[i..i + n];
    WordsWithinRun(ws, noCase, s, i);
    WordsLenSpec(ws, noCase, s, i);
    var k :| 0 <= k < |ws| && Same(ws[k], w, noCase);
    SameIsWordAt(ws[k], noCase, s, i, n);
  }

  /** A word that is the same as the text s[i..i + n] occurs at s[i]. */
  lemma SameIsWordAt(x: string, noCase: bool, s: string, i: nat, n: nat)
    requires i + n <= |s| && Same(x, s[i..i + n], noCase)
    ensures WordAt(x, noCase, s, i) && |x| == n
  {
    assert |Lower(x)| == |x| && |Lower(s[i..i + n])| == n;
  }

  /** A single-character word matches exactly when that character is next. */
  lemma OneCharWord(c: char, s: string, i: nat)
    requires i <= |s|
    ensures WordsLen([[c]], false, s, i) == if i < |s| && s[i] == c then 1 else 0
  {
    if i < |s| && s[i] == c {
      assert WordAt([c], false, s, i);
    }
  }

  /** The lengths the single-character rules and the identifier rule match at s[i]. */
  lemma CharRuleLengths(rules: seq<Rule>, s: string, i: nat)
    requires Shaped(rules)
    requires i < |s|
    ensures MatchLen(rules[2].pattern, s, i) == if IsSpace(s[i]) then 1 else 0
    ensures MatchLen(rules[3].pattern, s, i) == if s[i] == '=' then 1 else 0
    ensures MatchLen(rules[5].pattern, s, i) == RunLen(s, i)
    ensures MatchLen(rules[6].pattern, s, i) == if s[i] == '(' then 1 else 0
    ensures MatchLen(rules[7].pattern, s, i) == if s[i] == ')' then 1 else 0
  {
    assert rules[2].pattern == Any(Spaces);
    assert rules[3].pattern == Str(["="]);
    assert rules[5].pattern == Rep1Alnum;
    assert rules[6].pattern == Str(["("]);
    assert rules[7].pattern == Str([")"]);
    OneCharWord('=', s, i);
    OneCharWord('(', s, i);
    OneCharWord(')', s, i);
  }

  /** The keyword rules never match beyond the maximal run of letters and digits. */
  lemma KeywordRuleLengths(rules: seq<Rule>, s: string, i: nat)
    requires Shaped(rules)
    requires i <= |s|
    ensures MatchLen(rules[0].pattern, s, i) <= RunLen(s, i)
    ensures MatchLen(rules[1].pattern, s, i) <= RunLen(s, i)
    ensures MatchLen(rules[4].pattern, s, i) <= RunLen(s, i)
  {
    KeywordRules(rules, s, i);
    LogOpWordsAlnum();
    WordsWithinRun(LogOpWords, false, s, i);
    BooleanWordsAlnum();
    WordsWithinRun(BooleanWords, true, s, i);
    PrintWordAlnum();
    WordsWithinRun(["print"], false, s, i);
  }

  /** The keyword rules of the lexicon, by their words. */
  lemma KeywordRules(rules: seq<Rule>, s: string, i: nat)
    requires Shaped(rules)
    requires i <= |s|
    ensures MatchLen(rules[0].pattern, s, i) == WordsLen(LogOpWords, false, s, i)
    ensures MatchLen(rules[1].pattern, s, i) == WordsLen(BooleanWords, true, s, i)
    ensures MatchLen(rules[4].pattern, s, i) == WordsLen(["print"], false, s, i)
  {
    assert rules[0].pattern == Str(LogOpWords);
    assert rules[1].pattern == NoCaseStr(BooleanWords);
    assert rules[4].pattern == Str(["print"]);
  }

  /** Membership of a word among the logical operators, stated through Same. */
  lemma LogOpMembership(w: string)
    ensures SomeSame(LogOpWords, w, false) <==> w in LogOpWords
  {
    if w in LogOpWords {
      var k :| 0 <= k < |LogOpWords| && LogOpWords[k] == w;
      assert Same(LogOpWords[k], w, false);
    }
  }

  /** Membership of a word among the boolean values, up to case, stated through Same. */
  lemma BooleanMembership(w: string)
    ensures SomeSame(BooleanWords, w, true) <==> Lower(w) in BooleanWords
  {
    BooleanWordsAreLower();
    if Lower(w) in BooleanWords {
      var k :| 0 <= k < |BooleanWords| && BooleanWords[k] == Lower(w);
      assert Same(BooleanWords[k], w, true);
    }
    if SomeSame(BooleanWords, w, true) {
      var k :| 0 <= k < |BooleanWords| && Same(BooleanWords[k], w, true);
      assert Lower(w) == BooleanWords[k];
    }
  }

  /** Membership of a word in ["print"], stated through Same. */
  lemma PrintMembership(w: string)
    ensures SomeSame(["print"], w, false) <==> w == "print"
  {
    if w == "print" {
      assert Same(["print"][0], w, false);
    }
  }

  /** On a maximal run w, each keyword rule matches all of w exactly when w is one of its words. */
  lemma KeywordRulesOnRun(rules: seq<Rule>, s: string, i: nat, n: nat, w: string)
    requires Shaped(rules)
    requires i < |s| && IsAlnum(s[i]) && n == RunLen(s, i) && w == s[i..i + n]
    ensures MatchLen(rules[0].pattern, s, i) == n <==> w in LogOpWords
    ensures MatchLen(rules[1].pattern, s, i) == n <==> Lower(w) in BooleanWords
    ensures MatchLen(rules[4].pattern, s, i) == n <==> w == "print"
  {
    KeywordRules(rules, s, i);
    LogOpsOnRun(s, i, n, w);
    BooleansOnRun(s, i, n, w);
    PrintOnRun(s, i, n, w);
  }

  lemma LogOpsOnRun(s: string, i: nat, n: nat, w: string)
    requires i < |s| && IsAlnum(s[i]) && n == RunLen(s, i) && w == s[i..i + n]
    ensures WordsLen(LogOpWords, false, s, i) == n <==> w in LogOpWords
  {
    LogOpWordsAlnum();
    WordsFillRun(LogOpWords, false, s, i, n, w);
    LogOpMembership(w);
  }

  lemma BooleansOnRun(s: string, i: nat, n: nat, w: string)
    requires i < |s| && IsAlnum(s[i]) && n == RunLen(s, i) && w == s[i..i + n]
    ensures WordsLen(BooleanWords, true, s, i) == n <==> Lower(w) in BooleanWords
  {
    BooleanWordsAlnum();
    WordsFillRun(BooleanWords, true, s, i, n, w);
    BooleanMembership(w);
  }

  lemma PrintOnRun(s: string, i: nat, n: nat, w: string)
    requires i < |s| && IsAlnum(s[i]) && n == RunLen(s, i) && w == s[i..i + n]
    ensures WordsLen(["print"], false, s, i) == n <==> w == "print"
  {
    PrintWordAlnum();
    WordsFillRun(["print"], false, s, i, n, w);
    PrintMembership(w);
  }

  // ---------------------------------------------------------------------
  // What one read of the scanner does, by the next character

  /** A space, tab or newline is skipped: reading goes on at the next character. */
  lemma ReadSpace(rules: seq<Rule>, s: string, i: nat)
    requires Shaped(rules)
    requires i < |s| && IsSpace(s[i])
    ensures Read(rules, s, i) == Read(rules, s, i + 1)
  {
    SpaceSelected(rules, s, i);
    ReadIgnores(rules, s, i, 2, 1);
  }

  /** On a space the whitespace rule is the one selected. */
  lemma SpaceSelected(rules: seq<Rule>, s: string, i: nat)
    requires Shaped(rules)
    requires i < |s| && IsSpace(s[i])
    ensures Select(rules, s, i) == Some(2) && rules[2].action == Ignore && MatchLen(rules[2].pattern, s, i) == 1
  {
    SpaceLengths(rules, s, i);
    SelectIs(rules, s, i, 2, 1);
  }

  /** A selected rule that is ignored makes the read go on after the matched text. */
  lemma ReadIgnores(rules: seq<Rule>, s: string, i: nat, k: nat, n: nat)
    requires i < |s| && k < |rules| && Select(rules, s, i) == Some(k)
    requires rules[k].action == Ignore && MatchLen(rules[k].pattern, s, i) == n
    ensures Read(rules, s, i) == Read(rules, s, i + n)
  {
  }

  /** On a space only the whitespace rule matches, and it matches one character. */
  lemma SpaceLengths(rules: seq<Rule>, s: string, i: nat)
    requires Shaped(rules)
    requires i < |s| && IsSpace(s[i])
    ensures MatchLen(rules[2].pattern, s, i) == 1
    ensures forall j :: 0 <= j < |rules| && j != 2 ==> MatchLen(rules[j].pattern, s, i) == 0
  {
    CharRuleLengths(rules, s, i);
    KeywordRuleLengths(rules, s, i);
    forall j | 0 <= j < |rules| && j != 2 ensures MatchLen(rules[j].pattern, s, i) == 0 {
      assert j == 0 || j == 1 || j == 3 || j == 4 || j == 5 || j == 6 || j == 7;
    }
  }

  /** The kind of a single-character token. */
  function PunctKind(c: char): Kind
    requires IsPunct(c)
  {
    if c == '=' then AssignOpToken else if c == '(' then LeftParToken else RightParToken
  }

  /** '=', '(' and ')' are single-character tokens. */
  lemma ReadPunctuation(rules: seq<Rule>, s: string, i: nat)
    requires Shaped(rules)
    requires i < |s| && IsPunct(s[i])
    ensures Read(rules, s, i) == Lexed(Token(PunctKind(s[i]), [s[i]]), i + 1)
  {
    var k := PunctLengths(rules, s, i);
    assert s[i..i + 1] == [s[i]];
    ReadWithLengths(rules, s, i, k, PunctKind(s[i]), 1);
  }

  /** On a single-character token, its own rule matches that character and no other rule matches anything. */
  lemma PunctLengths(rules: seq<Rule>, s: string, i: nat) returns (k: nat)
    requires Shaped(rules)
    requires i < |s| && IsPunct(s[i])
    ensures k < |rules| && rules[k].action == Emit(PunctKind(s[i])) && MatchLen(rules[k].pattern, s, i) == 1
    ensures forall j :: 0 <= j < |rules| && j != k ==> MatchLen(rules[j].pattern, s, i) == 0
  {
    CharRuleLengths(rules, s, i);
    KeywordRuleLengths(rules, s, i);
    k := if s[i] == '=' then 3 else if s[i] == '(' then 6 else 7;
    forall j | 0 <= j < |rules| && j != k ensures MatchLen(rules[j].pattern, s, i) == 0 {
      assert j == 0 || j == 1 || j == 2 || j == 3 || j == 4 || j == 5 || j == 6 || j == 7;
    }
  }

  /** A character that no rule starts with is a lexical error at that character. */
  lemma ReadBad(rules: seq<Rule>, s: string, i: nat)
    requires Shaped(rules)
    requires i < |s| && IsBad(s[i])
    ensures Read(rules, s, i) == LexFail(i)
  {
    BadLengths(rules, s, i);
    assert Select(rules, s, i).None?;
  }

  /** On a character no rule starts with, no rule matches. */
  lemma BadLengths(rules: seq<Rule>, s: string, i: nat)
    requires Shaped(rules)
    requires i < |s| && IsBad(s[i])
    ensures forall j :: 0 <= j < |rules| ==> MatchLen(rules[j].pattern, s, i) == 0
  {
    CharRuleLengths(rules, s, i);
    KeywordRuleLengths(rules, s, i);
    forall j | 0 <= j < |rules| ensures MatchLen(rules[j].pattern, s, i) == 0 {
      assert j == 0 || j == 1 || j == 2 || j == 3 || j == 4 || j == 5 || j == 6 || j == 7;
    }
  }

  /**
   * A letter or digit starts a token that is the whole maximal run of
   * letters and digits, of the kind Classify gives it: longest match makes
   * `and1` and `printer` one identifier, and the rule order makes `and`,
   * `true` and `print` keywords rather than identifiers.
   */
  lemma ReadWord(rules: seq<Rule>, s: string, i: nat, n: nat, w: string)
    requires Shaped(rules)
    requires i < |s| && IsAlnum(s[i]) && n == RunLen(s, i) && w == s[i..i + n]
    ensures Read(rules, s, i) == Lexed(Token(Classify(w), w), i + n)
  {
    var k := RunRule(rules, s, i, n, w);
    ReadWithLengths(rules, s, i, k, Classify(w), n);
  }

  /** The rule that reads a maximal run w: it matches all of w, no rule matches more, no earlier rule as much. */
  lemma RunRule(rules: seq<Rule>, s: string, i: nat, n: nat, w: string) returns (k: nat)
    requires Shaped(rules)
    requires i < |s| && IsAlnum(s[i]) && n == RunLen(s, i) && w == s[i..i + n]
    ensures k < |rules| && rules[k].action == Emit(Classify(w)) && MatchLen(rules[k].pattern, s, i) == n
    ensures forall j :: 0 <= j < |rules| ==> MatchLen(rules[j].pattern, s, i) <= n
    ensures forall j :: 0 <= j < k ==> MatchLen(rules[j].pattern, s, i) < n
  {
    RulesWithinRun(rules, s, i);
    k := RunRuleByLengths(rules, s, i, n);
    RunRuleKind(rules, s, i, n, w, k);
  }

  /** The first of the keyword rules that matches the whole run, or else the identifier rule. */
  function RunRuleIndex(rules: seq<Rule>, s: string, i: nat, n: nat): nat
    requires Shaped(rules) && i <= |s|
  {
    if MatchLen(rules[0].pattern, s, i) == n then 0
    else if MatchLen(rules[1].pattern, s, i) == n then 1
    else if MatchLen(rules[4].pattern, s, i) == n then 4
    else 5
  }

  /** On a maximal run, RunRuleIndex names a rule that matches all of it, where every earlier rule falls short. */
  lemma RunRuleByLengths(rules: seq<Rule>, s: string, i: nat, n: nat) returns (k: nat)
    requires Shaped(rules)
    requires i < |s| && IsAlnum(s[i]) && n == RunLen(s, i)
    ensures k == RunRuleIndex(rules, s, i, n)
    ensures k < |rules| && MatchLen(rules[k].pattern, s, i) == n
    ensures forall j :: 0 <= j < k ==> MatchLen(rules[j].pattern, s, i) < n
  {
    RunLengths(rules, s, i, n);
    k := RunRuleIndex(rules, s, i, n);
    forall j | 0 <= j < k ensures MatchLen(rules[j].pattern, s, i) < n {
      assert j == 0 || j == 1 || j == 2 || j == 3 || j == 4;
    }
  }

  /** The rule RunRuleIndex names emits the kind Classify gives the run. */
  lemma RunRuleKind(rules: seq<Rule>, s: string, i: nat, n: nat, w: string, k: nat)
    requires Shaped(rules)
    requires i < |s| && IsAlnum(s[i]) && n == RunLen(s, i) && w == s[i..i + n]
    requires k == RunRuleIndex(rules, s, i, n)
    ensures k < |rules| && rules[k].action == Emit(Classify(w))
  {
    KeywordRulesOnRun(rules, s, i, n, w);
  }

  /** On a maximal run of length n, the identifier rule matches all of it, the keyword rules at most all of it, the rest nothing. */
  lemma RunLengths(rules: seq<Rule>, s: string, i: nat, n: nat)
    requires Shaped(rules)
    requires i < |s| && IsAlnum(s[i]) && n == RunLen(s, i)
    ensures MatchLen(rules[0].pattern, s, i) <= n && MatchLen(rules[1].pattern, s, i) <= n
    ensures MatchLen(rules[4].pattern, s, i) <= n && MatchLen(rules[5].pattern, s, i) == n
    ensures MatchLen(rules[2].pattern, s, i) == 0 && MatchLen(rules[3].pattern, s, i) == 0
    ensures MatchLen(rules[6].pattern, s, i) == 0 && MatchLen(rules[7].pattern, s, i) == 0
  {
    KeywordRuleLengths(rules, s, i);
    CharRuleLengths(rules, s, i);
  }

  /** The rule lengths decide the read: the longest, earliest rule that emits gives the token. */
  lemma ReadWithLengths(rules: seq<Rule>, s: string, i: nat, k: nat, kind: Kind, n: nat)
    requires i < |s| && k < |rules| && 0 < n
    requires rules[k].action == Emit(kind) && MatchLen(rules[k].pattern, s, i) == n
    requires forall j :: 0 <= j < |rules| ==> MatchLen(rules[j].pattern, s, i) <= n
    requires forall j :: 0 <= j < k ==> MatchLen(rules[j].pattern, s, i) < n
    ensures Read(rules, s, i) == Lexed(Token(kind, s[i..i + n]), i + n)
  {
    SelectIs(rules, s, i, k, n);
    ReadEmits(rules, s, i, k, kind, n);
  }

  /** The rule that matches n characters, where no rule matches more and no earlier rule as many, is the one selected. */
  lemma SelectIs(rules: seq<Rule>, s: string, i: nat, k: nat, n: nat)
    requires i <= |s| && k < |rules| && 0 < n
    requires MatchLen(rules[k].pattern, s, i) == n
    requires forall j :: 0 <= j < |rules| ==> MatchLen(rules[j].pattern, s, i) <= n
    requires forall j :: 0 <= j < k ==> MatchLen(rules[j].pattern, s, i) < n
    ensures Select(rules, s, i) == Some(k)
  {
    SelectSpec(rules, s, i);
    var r := Select(rules, s, i);
    assert r.Some?;
    assert MatchLen(rules[r.value].pattern, s, i) == n;
  }

  /** A selected rule that emits makes the read a token of the matched text. */
  lemma ReadEmits(rules: seq<Rule>, s: string, i: nat, k: nat, kind: Kind, n: nat)
    requires i < |s| && k < |rules| && Select(rules, s, i) == Some(k)
    requires rules[k].action == Emit(kind) && MatchLen(rules[k].pattern, s, i) == n
    ensures Read(rules, s, i) == Lexed(Token(kind, s[i..i + n]), i + n)
  {
  }

  /** On a letter or digit, no rule matches beyond the maximal run. */
  lemma RulesWithinRun(rules: seq<Rule>, s: string, i: nat)
    requires Shaped(rules)
    requires i < |s| && IsAlnum(s[i])
    ensures forall j :: 0 <= j < |rules| ==> MatchLen(rules[j].pattern, s, i) <= RunLen(s, i)
  {
    CharRuleLengths(rules, s, i);
    KeywordRuleLengths(rules, s, i);
    forall j | 0 <= j < |rules| ensures MatchLen(rules[j].pattern, s, i) <= RunLen(s, i) {
      assert j == 0 || j == 1 || j == 2 || j == 3 || j == 4 || j == 5 || j == 6 || j == 7;
    }
  }

  // ---------------------------------------------------------------------
  // The scanner, character by character

  /**
   * What one read does, written out by the next character: spaces are
   * skipped, '=', '(' and ')' are tokens of one character, a letter or
   * digit starts a token that is the whole run of letters and digits, and
   * any other character is a lexical error.
   */
  function Step(s: string, i: nat): (r: Scan)
    requires i <= |s|
    ensures r.Lexed? ==> i < r.next <= |s|
    ensures r.LexFail? ==> i <= r.at < |s|
    decreases |s| - i
  {
    if i == |s| then Done
    else if IsSpace(s[i]) then Step(s, i + 1)
    else if s[i] == '=' then Lexed(Token(AssignOpToken, "="), i + 1)
    else if s[i] == '(' then Lexed(Token(LeftParToken, "("), i + 1)
    else if s[i] == ')' then Lexed(Token(RightParToken, ")"), i + 1)
    else if IsAlnum(s[i]) then
      var w := s[i..i + RunLen(s, i)];
      Lexed(Token(Classify(w), w), i + |w|)
    else LexFail(i)
  }

  /** Longest match over the lexicon reads exactly what the character-by-character scanner reads. */
  lemma {:induction false} ReadIsStep(rules: seq<Rule>, s: string, i: nat)
    requires Shaped(rules)
    requires i <= |s|
    ensures Read(rules, s, i) == Step(s, i)
    decreases |s| - i
  {
    if i < |s| {
      if IsSpace(s[i]) {
        ReadSpace(rules, s, i);
        ReadIsStep(rules, s, i + 1);
      } else {
        ReadIsStepAt(rules, s, i);
      }
    }
  }

  /** The read at a character that is not a space is the step at it. */
  lemma ReadIsStepAt(rules: seq<Rule>, s: string, i: nat)
    requires Shaped(rules)
    requires i < |s| && !IsSpace(s[i])
    ensures Read(rules, s, i) == Step(s, i)
  {
    if IsPunct(s[i]) {
      ReadPunctuationIsStep(rules, s, i);
    } else if IsAlnum(s[i]) {
      ReadWordIsStep(rules, s, i);
    } else {
      ReadBad(rules, s, i);
    }
  }

  lemma ReadPunctuationIsStep(rules: seq<Rule>, s: string, i: nat)
    requires Shaped(rules)
    requires i < |s| && IsPunct(s[i])
    ensures Read(rules, s, i) == Step(s, i)
  {
    ReadPunctuation(rules, s, i);
  }

  lemma ReadWordIsStep(rules: seq<Rule>, s: string, i: nat)
    requires Shaped(rules)
    requires i < |s| && IsAlnum(s[i])
    ensures Read(rules, s, i) == Step(s, i)
  {
    var n := RunLen(s, i);
    var t := WordStep(s, i, n);
    ReadWord(rules, s, i, n, t.lexeme);
    assert t == Token(Classify(t.lexeme), t.lexeme);
  }

  // ---------------------------------------------------------------------
  // Lemmas about the token stream

  /** Every token a step produces is proper. */
  lemma {:induction false} StepProper(s: string, i: nat)
    requires i <= |s|
    ensures Step(s, i).Lexed? ==> Proper(Step(s, i).token)
    decreases |s| - i
  {
    if i < |s| && IsSpace(s[i]) {
      StepProper(s, i + 1);
    } else if i < |s| && IsAlnum(s[i]) {
      RunAlnum(s, i);
    }
  }

  /** The token stream of the character-by-character scanner. */
  function StepsFrom(s: string, i: nat): Stream
    requires i <= |s|
    decreases |s| - i
  {
    match Step(s, i)
    case Done => Stream([], None)
    case LexFail(at) => Stream([], Some(at))
    case Lexed(t, j) =>
      var rest := StepsFrom(s, j);
      Stream([t] + rest.toks, rest.err)
  }

  /** Over the lexicon, the scanner's token stream is that of the character-by-character scanner. */
  lemma {:induction false} TokenizeIsSteps(rules: seq<Rule>, s: string, i: nat)
    requires Shaped(rules)
    requires i <= |s|
    ensures TokenizeFrom(rules, s, i) == StepsFrom(s, i)
    decreases |s| - i
  {
    ReadIsStep(rules, s, i);
    match Step(s, i)
    case Done =>
    case LexFail(_) =>
    case Lexed(t, j) =>
      TokenizeIsSteps(rules, s, j);
  }

  /** Every token of the stream is proper. */
  lemma {:induction false} StepsProper(s: string, i: nat)
    requires i <= |s|
    ensures AllProper(StepsFrom(s, i).toks)
    decreases |s| - i
  {
    StepProper(s, i);
    match Step(s, i)
    case Done =>
    case LexFail(_) =>
    case Lexed(t, j) =>
      StepsProper(s, j);
  }

  lemma {:induction false} SqueezeAppend(a: string, b: string)
    ensures Squeeze(a + b) == Squeeze(a) + Squeeze(b)
  {
    if a == [] {
      assert a + b == b;
    } else {
      assert (a + b)[1..] == a[1..] + b;
      SqueezeAppend(a[1..], b);
    }
  }

  lemma {:induction false} SqueezeAlnum(w: string)
    requires AllAlnum(w)
    ensures Squeeze(w) == w
  {
    if w != [] {
      SqueezeAlnum(w[1..]);
    }
  }

  /** Skipping a space adds nothing to what a step accounts for. */
  lemma SqueezeSpace(s: string, i: nat, j: nat)
    requires i < j <= |s| && IsSpace(s[i])
    ensures Squeeze(s[i..j]) == Squeeze(s[i + 1..j])
  {
    assert s[i..j] == [s[i]] + s[i + 1..j];
    SqueezeAppend([s[i]], s[i + 1..j]);
  }

  /**
   * A read r at s[i] accounts for every non-space character it passes:
   * what it skips is only spaces, what it returns is the next token's
   * text, and a lexical error stands at a character no rule can start with.
   */
  ghost predicate ScanCovers(s: string, i: nat, r: Scan)
    requires i <= |s|
  {
    match r
    case Done => Squeeze(s[i..]) == []
    case Lexed(t, j) => i < j <= |s| && Squeeze(s[i..j]) == t.lexeme
    case LexFail(at) => i <= at < |s| && Squeeze(s[i..at]) == [] && IsBad(s[at])
  }

  /** One step accounts for every non-space character it passes. */
  lemma {:induction false} StepCovers(s: string, i: nat)
    requires i <= |s|
    ensures ScanCovers(s, i, Step(s, i))
    decreases |s| - i
  {
    if i < |s| {
      if IsSpace(s[i]) {
        StepCovers(s, i + 1);
        SpaceCovered(s, i);
      } else {
        StepCoversAt(s, i);
      }
    }
  }

  /** A space in front of what a step accounts for is accounted for too. */
  lemma SpaceCovered(s: string, i: nat)
    requires i < |s| && IsSpace(s[i])
    requires ScanCovers(s, i + 1, Step(s, i + 1))
    ensures ScanCovers(s, i, Step(s, i))
  {
    assert Step(s, i) == Step(s, i + 1);
    match Step(s, i + 1)
    case Done =>
      SqueezeSpace(s, i, |s|);
      assert s[i..] == s[i..|s|] && s[i + 1..] == s[i + 1..|s|];
    case Lexed(t, j) =>
      SqueezeSpace(s, i, j);
    case LexFail(at) =>
      SqueezeSpace(s, i, at);
  }

  /** A step at a character that is not a space accounts for what it reads. */
  lemma StepCoversAt(s: string, i: nat)
    requires i < |s| && !IsSpace(s[i])
    ensures ScanCovers(s, i, Step(s, i))
  {
    if IsPunct(s[i]) {
      PunctCovered(s, i);
    } else if IsAlnum(s[i]) {
      WordCovered(s, i);
    } else {
      assert Step(s, i) == LexFail(i);
      assert s[i..i] == [];
    }
  }

  lemma PunctCovered(s: string, i: nat)
    requires i < |s| && IsPunct(s[i])
    ensures ScanCovers(s, i, Step(s, i))
  {
    assert Step(s, i) == Lexed(Token(PunctKind(s[i]), [s[i]]), i + 1);
    assert s[i..i + 1] == [s[i]];
  }

  lemma WordCovered(s: string, i: nat)
    requires i < |s| && IsAlnum(s[i])
    ensures ScanCovers(s, i, Step(s, i))
  {
    var n := RunLen(s, i);
    var t := WordStep(s, i, n);
    RunCovered(s, i, n, t);
  }

  /** A step at a letter or digit returns the maximal run as its lexeme. */
  lemma WordStep(s: string, i: nat, n: nat) returns (t: Token)
    requires i < |s| && IsAlnum(s[i]) && n == RunLen(s, i)
    ensures Step(s, i) == Lexed(t, i + n) && t.lexeme == s[i..i + n] && 0 < n
    ensures t.kind == Classify(t.lexeme)
  {
    var w := s[i..i + n];
    assert |w| == n;
    t := Token(Classify(w), w);
  }

  /** A token whose lexeme is the maximal run accounts for the run. */
  lemma RunCovered(s: string, i: nat, n: nat, t: Token)
    requires i < |s| && n == RunLen(s, i) && 0 < n && t.lexeme == s[i..i + n]
    ensures ScanCovers(s, i, Lexed(t, i + n))
  {
    RunAlnum(s, i);
    SqueezeAlnum(s[i..i + n]);
  }

  /**
   * The stream r accounts for the text from start on: its lexemes, joined,
   * are the text without its spaces, up to the end of the input or up to
   * the character of the lexical error, which no rule can start with.
   */
  ghost predicate Covers(s: string, start: nat, r: Stream)
    requires start <= |s|
  {
    (r.err.None? ==> Lexemes(r.toks) == Squeeze(s[start..])) &&
    (r.err.Some? ==> start <= r.err.value < |s| && IsBad(s[r.err.value]) &&
                     Lexemes(r.toks) == Squeeze(s[start..r.err.value]))
  }

  /**
   * Nothing but whitespace is dropped: the lexemes of the tokens, joined,
   * are the text without its spaces, up to the end of the input or up to
   * the character of the lexical error, which no rule can start with.
   */
  lemma {:induction false} StepsCover(s: string, i: nat)
    requires i <= |s|
    ensures Covers(s, i, StepsFrom(s, i))
    decreases |s| - i
  {
    StepCovers(s, i);
    match Step(s, i)
    case Done =>
    case LexFail(at) =>
    case Lexed(t, j) =>
      StepsCover(s, j);
      var rest := StepsFrom(s, j);
      var r := StepsFrom(s, i);
      assert r.toks[1..] == rest.toks;
      if rest.err.None? {
        assert s[i..] == s[i..j] + s[j..];
        SqueezeAppend(s[i..j], s[j..]);
      } else {
        var at := rest.err.value;
        assert s[i..at] == s[i..j] + s[j..at];
        SqueezeAppend(s[i..j], s[j..at]);
      }
  }

  /** The lexicon fits the layout the scanner proofs rely on. */
  lemma LexiconShaped()
    ensures Shaped(Lexicon)
  {
  }

  /** Every token of a tokenized text is proper. */
  lemma TokenizeProper(s: string)
    ensures AllProper(Tokenize(s).toks)
  {
    LexiconShaped();
    TokenizeIsSteps(Lexicon, s, 0);
    StepsProper(s, 0);
  }

  /** Tokenizing drops nothing but whitespace, and stops only at a character no rule starts with. */
  lemma TokenizeCovers(s: string)
    ensures Covers(s, 0, Tokenize(s))
  {
    LexiconShaped();
    TokenizeIsSteps(Lexicon, s, 0);
    StepsCover(s, 0);
  }

  /**
   * What the parser relies on about a proper token: its text tells its kind
   * for the punctuation and for `not`, and only a word can be a keyword or
   * an identifier.
   */
  lemma ProperTokenFacts(t: Token)
    requires Proper(t)
    ensures t.kind == LeftParToken <==> t.lexeme == "("
    ensures t.kind == RightParToken <==> t.lexeme == ")"
    ensures t.kind == AssignOpToken <==> t.lexeme == "="
    ensures t.lexeme == "not" ==> t.kind == LogOpToken
  {
    if t.lexeme != [] && AllAlnum(t.lexeme) {
      assert IsAlnum(t.lexeme[0]);
    }
  }

  // ---------------------------------------------------------------------
  // The lexicon's priorities on single words

  /** The logical operators are case-sensitive keywords, and only whole runs are keywords. */
  lemma LogOpWordsExactly()
    ensures Classify("and") == LogOpToken && Classify("or") == LogOpToken && Classify("not") == LogOpToken
    ensures Classify("AND") == StringToken && Classify("and1") == StringToken
  {
    assert Lower("AND") == "and";
    assert Lower("and1") == "and1";
  }

  /** print is a case-sensitive keyword, and only as a whole run. */
  lemma PrintExactly()
    ensures Classify("print") == PrintCommandToken
    ensures Classify("Print") == StringToken && Classify("printer") == StringToken
  {
    PrintKeyword();
    CapitalPrint();
    Printer();
  }

  lemma PrintKeyword()
    ensures Classify("print") == PrintCommandToken
  {
    assert Lower("print") == "print";
  }

  lemma CapitalPrint()
    ensures Classify("Print") == StringToken
  {
    assert Lower("Print") == "print";
  }

  lemma Printer()
    ensures Classify("printer") == StringToken
  {
    assert Lower("printer") == "printer";
  }

  /** The boolean values are keywords in any case. */
  lemma BooleansInAnyCase()
    ensures Classify("true") == BooleanValToken && Classify("TRUE") == BooleanValToken
    ensures Classify("t") == BooleanValToken && Classify("F") == BooleanValToken
  {
    assert Lower("true") == "true";
    assert Lower("TRUE") == "true";
    assert Lower("t") == "t";
    assert Lower("F") == "f";
  }

  /** The digits 0 and 1 on their own are boolean values. */
  lemma BooleanDigits()
    ensures Classify("0") == BooleanValToken && Classify("1") == BooleanValToken
  {
    assert Lower("0") == "0";
    assert Lower("1") == "1";
  }

  /** Other runs of letters and digits, numbers among them, are identifiers. */
  lemma OtherRunsAreIdentifiers()
    ensures Classify("10") == StringToken && Classify("42") == StringToken
    ensures Classify("tr") == StringToken && Classify("x") == StringToken && Classify("y") == StringToken
  {
    assert Lower("y") == "y";
    assert Lower("10") == "10";
    assert Lower("42") == "42";
    assert Lower("tr") == "tr";
    assert Lower("x") == "x";
  }
}
