/**
 * The driver: one line of text is tokenized and then parsed; the first
 * error, of either stage, is the result. Then what the whole pipeline
 * guarantees: the rendering of a tree parses back to the same tree, and
 * ignored text between tokens changes nothing.
 */
module Pipeline {
  import opened Results
  import opened Ast
  import opened Lexer
  import opened LexerFacts
  import opened Parser

  datatype Error = LexFailure(lex: LexError) | ParseFailure(parse: ParseError)

  /** The tree a line of text denotes, or the error that stopped it. */
  function ParseText(s: string): Result<Expr, Error> {
    match Lex(s, 0)
    case Err(e) => Err(LexFailure(e))
    case Ok(ts) =>
      match Parse(ts)
      case Err(e) => Err(ParseFailure(e))
      case Ok(e) => Ok(e)
  }

  /** Tokenizes the line, then parses the tokens. */
  method ParseLine(s: string) returns (r: Result<Expr, Error>)
    ensures r == ParseText(s)
    ensures r.Err? && r.error.LexFailure? ==>
      var e := r.error.lex; e.pos < |s| && e.ch == s[e.pos] && NoRuleMatches(s, e.pos)
  {
    var toks := Tokenize(s);
    match toks
    case Err(e) =>
      LexFailsWhereNoRuleMatches(s, 0);
      r := Err(LexFailure(e));
    case Ok(ts) =>
      match Parse(ts)
      case Err(e) => r := Err(ParseFailure(e));
      case Ok(e) => r := Ok(e);
  }

  // ---------------------------------------------------------------------
  // Rendering and parsing back

  /** The tokens of the fully parenthesised rendering of a tree. */
  function TokensOf(e: Expr): seq<Token> {
    match e
    case NumNode(n) => [Number(n)]
    case AddNode(l, r) => Parens(TokensOf(l)) + [Plus] + Parens(TokensOf(r))
  }

  function Parens(ts: seq<Token>): seq<Token> {
    [LParen] + ts + [RParen]
  }

  lemma TextsOfParens(ts: seq<Token>)
    ensures Texts(Parens(ts)) == "(" + Texts(ts) + ")"
  {
    TextsConcat([LParen] + ts, [RParen]);
    TextsConcat([LParen], ts);
  }

  lemma SumText(a: string, b: string)
    ensures ("(" + a + ")") + "+" + ("(" + b + ")") == "(" + a + ")+(" + b + ")"
  {
  }

  /** A tree's tokens, their texts run together, are the tree's rendering. */
  lemma {:induction false} TextsOfTokens(e: Expr)
    ensures Texts(TokensOf(e)) == Render(e)
  {
    match e
    case NumNode(n) =>
      assert Texts([Number(n)]) == Text(n) + "";
    case AddNode(l, r) =>
      var L, R := Parens(TokensOf(l)), Parens(TokensOf(r));
      var a, b := Render(l), Render(r);
      TextsOfTokens(l);
      TextsOfTokens(r);
      TextsOfParens(TokensOf(l));
      TextsOfParens(TokensOf(r));
      TextsConcat(L + [Plus], R);
      TextsConcat(L, [Plus]);
      assert Texts([Plus]) == "+" + "";
      calc {
        Texts(TokensOf(e));
        Texts(L + [Plus] + R);
        Texts(L) + Texts([Plus]) + Texts(R);
        ("(" + a + ")") + "+" + ("(" + b + ")");
        { SumText(a, b); }
        Render(e);
      }
  }

  /** A tree's tokens never put two numbers side by side. */
  lemma {:induction false} TokensSeparated(e: Expr)
    ensures Separated(TokensOf(e))
  {
    match e
    case NumNode(n) =>
    case AddNode(l, r) =>
      TokensSeparated(l);
      TokensSeparated(r);
      ParensSeparated(TokensOf(l));
      ParensSeparated(TokensOf(r));
      var L, R := Parens(TokensOf(l)), Parens(TokensOf(r));
      SeparatedJoin(L, [Plus]);
      SeparatedJoin(L + [Plus], R);
  }

  lemma ParensSeparated(ts: seq<Token>)
    requires Separated(ts)
    ensures Separated(Parens(ts)) && Parens(ts)[0] == LParen && Parens(ts)[|ts| + 1] == RParen
  {
    SeparatedJoin([LParen], ts);
    SeparatedJoin([LParen] + ts, [RParen]);
  }

  /** A tree's own tokens derive exactly that tree, with "+" left-associative. */
  lemma {:induction false} TokensDeriveTree(e: Expr)
    ensures LeftDerives(TokensOf(e), 0, |TokensOf(e)|, e)
  {
    match e
    case NumNode(n) =>
      assert AtomDerives([Number(n)], 0, 1, e);
    case AddNode(l, r) =>
      TokensDeriveTree(l);
      TokensDeriveTree(r);
      AtomInParens(TokensOf(l), l);
      AtomInParens(TokensOf(r), r);
      SumDerives(Parens(TokensOf(l)), Parens(TokensOf(r)), l, r);
  }

  /** Tokens with no two numbers side by side, their texts run together, lex back to themselves. */
  lemma LexTexts(ts: seq<Token>)
    requires Separated(ts)
    ensures Lex(Texts(ts), 0) == Ok(ts)
  {
    SeparatedIsWellSpaced(ts);
    SpellWithoutGaps(ts);
    LexSpelled(ts, seq(|ts| + 1, _ => ""));
  }

  /** Rendering a tree and parsing the text gives back the same tree. */
  lemma RenderRoundTrip(e: Expr)
    ensures ParseText(Render(e)) == Ok(e)
  {
    var ts := TokensOf(e);
    TokensSeparated(e);
    TextsOfTokens(e);
    LexTexts(ts);
    TokensDeriveTree(e);
    ParseComplete(ts, e);
  }

  /** Rendering what a line parses to, and parsing and rendering again, changes nothing. */
  lemma RenderIsFixedPoint(s: string)
    requires ParseText(s).Ok?
    ensures var e := ParseText(s).value;
      ParseText(Render(e)).Ok? && Render(ParseText(Render(e)).value) == Render(e)
  {
    RenderRoundTrip(ParseText(s).value);
  }

  // ---------------------------------------------------------------------
  // Whole lines

  /** Whitespace and comments put between the tokens of a line do not change what it parses to. */
  lemma SpacingIrrelevant(ts: seq<Token>, gaps: seq<string>)
    requires WellSpaced(ts, gaps)
    ensures ParseText(Spell(ts, gaps)) == (match Parse(ts)
      case Ok(e) => Ok(e)
      case Err(e) => Err(ParseFailure(e)))
  {
    LexSpelled(ts, gaps);
  }

  /** The value of a parsed line is the sum of the numbers in it, in whatever way "+" groups them. */
  lemma ValueIsSumOfNumbers(s: string)
    requires ParseText(s).Ok?
    ensures var ts := Lex(s, 0).value;
      Leaves(ParseText(s).value) == NumbersIn(ts, 0, |ts|)
      && Compute(ParseText(s).value) == Sum(NumbersIn(ts, 0, |ts|))
  {
    ParsedLeavesInTokenOrder(Lex(s, 0).value);
    ComputeIsSumOfLeaves(ParseText(s).value);
  }

}
