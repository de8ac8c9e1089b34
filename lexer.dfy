/**
 * The tokenizer: an ordered set of lexical rules applied at a moving position.
 * At each position, in this order: a character of " \r\t\n" is skipped; a "#"
 * comment running up to (not including) the next newline is skipped; the NUMBER
 * rule [0-9]+\.[0-9]+ emits a number token; one of the literals "+", "(", ")"
 * emits that literal's token; otherwise tokenizing fails at that position.
 */
module Lexer {
  import opened Results
  import opened Ast

  datatype Token = Number(d: Decimal) | Plus | LParen | RParen

  /** The character no rule matched and its offset in the input. */
  datatype LexError = LexError(ch: char, pos: nat)

  datatype Option<+T> = None | Some(value: T)

  /** The characters of the `ignore` set. */
  predicate IsIgnored(c: char) {
    c == ' ' || c == '\r' || c == '\t' || c == '\n'
  }

  /** The characters of the `literals` set. */
  predicate IsLiteral(c: char) {
    c == '+' || c == '(' || c == ')'
  }

  function Literal(c: char): Token
    requires IsLiteral(c)
  {
    if c == '+' then Plus else if c == '(' then LParen else RParen
  }

  /** The text a token is spelled with. */
  function TokenText(t: Token): string {
    match t
    case Number(d) => Text(d)
    case Plus => "+"
    case LParen => "("
    case RParen => ")"
  }

  // ---------------------------------------------------------------------
  // What each rule matches at position i of s

  /** The number of digits from position `i` on; the greedy `[0-9]+` stops exactly there. */
  function DigitRun(s: string, i: nat): (n: nat)
    requires i <= |s|
    ensures i + n <= |s|
    decreases |s| - i
  {
    if i < |s| && IsDigit(s[i]) then 1 + DigitRun(s, i + 1) else 0
  }

  /** The number of characters from position `i` on before the next newline: what `.*` matches. */
  function LineRun(s: string, i: nat): (n: nat)
    requires i <= |s|
    ensures i + n <= |s|
    decreases |s| - i
  {
    if i < |s| && s[i] != '\n' then 1 + LineRun(s, i + 1) else 0
  }

  /** The length of the comment `\#.*` that starts at position `i`. */
  function CommentLen(s: string, i: nat): (n: nat)
    requires i < |s| && s[i] == '#'
    ensures 1 <= n && i + n <= |s|
  {
    1 + LineRun(s, i + 1)
  }

  /**
   * The length of the NUMBER lexeme `[0-9]+\.[0-9]+` that starts at position
   * `i`, or 0 when the rule does not match there. The digit runs are greedy,
   * and backing off a digit never helps, since a shorter first run is followed
   * by a digit, not a point.
   */
  function NumberLen(s: string, i: nat): (n: nat)
    requires i <= |s|
    ensures i + n <= |s|
  {
    var k := DigitRun(s, i);
    if 0 < k && i + k < |s| && s[i + k] == '.' && DigitRun(s, i + k + 1) > 0 then
      k + 1 + DigitRun(s, i + k + 1)
    else
      0
  }

  /** The digit run is all digits, and what follows it is not a digit. */
  lemma {:induction false} DigitRunIsDigits(s: string, i: nat)
    requires i <= |s|
    ensures forall j :: i <= j < i + DigitRun(s, i) ==> IsDigit(s[j])
    ensures i + DigitRun(s, i) == |s| || !IsDigit(s[i + DigitRun(s, i)])
    decreases |s| - i
  {
    if i < |s| && IsDigit(s[i]) {
      DigitRunIsDigits(s, i + 1);
    }
  }

  /** The line run holds no newline, and what follows it is a newline. */
  lemma {:induction false} LineRunHasNoNewline(s: string, i: nat)
    requires i <= |s|
    ensures forall j :: i <= j < i + LineRun(s, i) ==> s[j] != '\n'
    ensures i + LineRun(s, i) == |s| || s[i + LineRun(s, i)] == '\n'
    decreases |s| - i
  {
    if i < |s| && s[i] != '\n' {
      LineRunHasNoNewline(s, i + 1);
    }
  }

  /** The digit run is the one maximal run of digits: any run that stops at a non-digit is it. */
  lemma {:induction false} DigitRunExact(s: string, i: nat, k: nat)
    requires i + k <= |s|
    requires forall j :: i <= j < i + k ==> IsDigit(s[j])
    requires i + k == |s| || !IsDigit(s[i + k])
    ensures DigitRun(s, i) == k
    decreases k
  {
    if k > 0 {
      DigitRunExact(s, i + 1, k - 1);
    }
  }

  lemma {:induction false} LineRunExact(s: string, i: nat, k: nat)
    requires i + k <= |s|
    requires forall j :: i <= j < i + k ==> s[j] != '\n'
    requires i + k == |s| || s[i + k] == '\n'
    ensures LineRun(s, i) == k
    decreases k
  {
    if k > 0 {
      LineRunExact(s, i + 1, k - 1);
    }
  }

  /** A comment runs up to the next newline, which it does not include, or to the end of the text. */
  lemma CommentStopsAtNewline(s: string, i: nat)
    requires i < |s| && s[i] == '#'
    ensures forall j :: i < j < i + CommentLen(s, i) ==> s[j] != '\n'
    ensures i + CommentLen(s, i) == |s| || s[i + CommentLen(s, i)] == '\n'
  {
    LineRunHasNoNewline(s, i + 1);
  }

  /**
   * What the NUMBER rule matches is one or more digits, a point and one or
   * more digits, and the match is not followed by a further digit.
   */
  lemma NumberLexeme(s: string, i: nat)
    requires i <= |s| && NumberLen(s, i) > 0
    ensures var k, n := DigitRun(s, i), NumberLen(s, i);
      && 0 < k < n - 1 && s[i + k] == '.'
      && (forall j :: i <= j < i + k ==> IsDigit(s[j]))
      && (forall j :: i + k < j < i + n ==> IsDigit(s[j]))
      && (i + n == |s| || !IsDigit(s[i + n]))
  {
    var k := DigitRun(s, i);
    DigitRunIsDigits(s, i);
    DigitRunIsDigits(s, i + k + 1);
  }

  lemma SliceDigits(s: string, a: nat, b: nat)
    requires a <= b <= |s| && forall j :: a <= j < b ==> IsDigit(s[j])
    ensures AllDigits(s[a..b])
  {
    assert forall j :: 0 <= j < b - a ==> s[a..b][j] == s[a + j];
  }

  lemma SliceAroundPoint(s: string, a: nat, m: nat, b: nat)
    requires a <= m < b <= |s| && s[m] == '.'
    ensures s[a..b] == s[a..m] + "." + s[m + 1..b]
  {
    assert [s[m]] == ".";
  }

  /** The NUMBER token for the lexeme that starts at position `i`. */
  function NumberToken(s: string, i: nat): (t: Token)
    requires i <= |s| && NumberLen(s, i) > 0
    ensures t.Number?
  {
    var k := DigitRun(s, i);
    var n := NumberLen(s, i);
    NumberLexeme(s, i);
    SliceDigits(s, i, i + k);
    SliceDigits(s, i + k + 1, i + n);
    Number(Decimal(s[i..i + k], s[i + k + 1..i + n]))
  }

  /** The NUMBER token is spelled with exactly the characters the rule matched. */
  lemma NumberTokenText(s: string, i: nat)
    requires i <= |s| && NumberLen(s, i) > 0
    ensures TokenText(NumberToken(s, i)) == s[i..i + NumberLen(s, i)]
  {
    var d := NumberToken(s, i).d;
    var k, n := DigitRun(s, i), NumberLen(s, i);
    assert d.whole == s[i..i + k] && d.frac == s[i + k + 1..i + n];
    SliceAroundPoint(s, i, i + k, i + n);
  }

  // ---------------------------------------------------------------------
  // The scan

  /** No lexical rule applies at position `i`. */
  predicate NoRuleMatches(s: string, i: nat)
    requires i <= |s|
  {
    i < |s| && !IsIgnored(s[i]) && s[i] != '#' && NumberLen(s, i) == 0 && !IsLiteral(s[i])
  }

  /** A rule that matched: the tokens it emits and the number of characters it consumes. */
  datatype Match = Match(emit: seq<Token>, len: nat)

  /**
   * The first rule, in rule order, that matches at position `i`. What it
   * consumes and when it fails is stated in LexerFacts (StepEmitsToken,
   * StepSkips, StepFails).
   */
  function Step(s: string, i: nat): (m: Option<Match>)
    requires i < |s|
    ensures m.Some? ==> 0 < m.value.len && i + m.value.len <= |s|
  {
    if IsIgnored(s[i]) then Some(Match([], 1))
    else if s[i] == '#' then Some(Match([], CommentLen(s, i)))
    else if NumberLen(s, i) > 0 then Some(Match([NumberToken(s, i)], NumberLen(s, i)))
    else if IsLiteral(s[i]) then Some(Match([Literal(s[i])], 1))
    else None
  }

  function Prepend(ts: seq<Token>, r: Result<seq<Token>, LexError>): Result<seq<Token>, LexError> {
    match r
    case Ok(us) => Ok(ts + us)
    case Err(e) => Err(e)
  }

  /** The tokens of `s` from position `i` on, or the first position at which no rule matches. */
  function Lex(s: string, i: nat): Result<seq<Token>, LexError>
    requires i <= |s|
    decreases |s| - i, 1
  {
    if i == |s| then Ok([]) else LexAt(s, i)
  }

  function LexAt(s: string, i: nat): Result<seq<Token>, LexError>
    requires i < |s|
    decreases |s| - i, 0
  {
    match Step(s, i)
    case None => Err(LexError(s[i], i))
    case Some(Match(ts, n)) => Prepend(ts, Lex(s, i + n))
  }

  /**
   * Tokenizing fails only at a character of the input where no rule matches,
   * and reports that character and its offset.
   */
  lemma {:induction false} LexFailsWhereNoRuleMatches(s: string, i: nat)
    requires i <= |s| && Lex(s, i).Err?
    ensures var e := Lex(s, i).error;
      i <= e.pos < |s| && e.ch == s[e.pos] && NoRuleMatches(s, e.pos)
    decreases |s| - i
  {
    match Step(s, i)
    case None =>
    case Some(Match(ts, n)) =>
      LexFailsWhereNoRuleMatches(s, i + n);
  }

  lemma LexMatched(s: string, i: nat)
    requires i < |s| && Step(s, i).Some?
    ensures Lex(s, i) == Prepend(Step(s, i).value.emit, Lex(s, i + Step(s, i).value.len))
  {
  }

  lemma PrependNothing(r: Result<seq<Token>, LexError>)
    ensures Prepend([], r) == r
  {
    if r.Ok? {
      assert [] + r.value == r.value;
    }
  }

  lemma PrependTwice(ts: seq<Token>, us: seq<Token>, r: Result<seq<Token>, LexError>)
    ensures Prepend(ts, Prepend(us, r)) == Prepend(ts + us, r)
  {
    if r.Ok? {
      assert ts + (us + r.value) == (ts + us) + r.value;
    }
  }

  /**
   * The tokenizer proper: walks an index through `s`, skipping ignored text
   * and appending a token for each lexeme, and stops at the first position
   * where no rule matches.
   */
  method Tokenize(s: string) returns (r: Result<seq<Token>, LexError>)
    ensures r == Lex(s, 0)
  {
    var i := 0;
    var toks: seq<Token> := [];
    PrependNothing(Lex(s, 0));
    while i < |s|
      invariant 0 <= i <= |s|
      invariant Lex(s, 0) == Prepend(toks, Lex(s, i))
      decreases |s| - i
    {
      match Step(s, i)
      case None =>
        return Err(LexError(s[i], i));
      case Some(Match(emit, n)) =>
        PrependTwice(toks, emit, Lex(s, i + n));
        toks, i := toks + emit, i + n;
    }
    assert toks + [] == toks;
    return Ok(toks);
  }

}
