/** Concrete lines and what the pipeline makes of them. */
module Scenarios {
  import opened Results
  import opened Ast
  import opened Lexer
  import opened LexerFacts
  import opened Parser
  import opened Pipeline

  const One: Decimal := Decimal("1", "0")
  const Two: Decimal := Decimal("2", "0")
  const Three: Decimal := Decimal("3", "0")

  lemma TextsOfOne(a: Token)
    ensures Texts([a]) == TokenText(a)
  {
    assert [a][1..] == [];
    assert TokenText(a) + "" == TokenText(a);
  }

  lemma TextsOfThree(a: Token, b: Token, c: Token)
    ensures Texts([a, b, c]) == TokenText(a) + (TokenText(b) + TokenText(c))
  {
    TextsOfOne(c);
    TextsCons(b, [c]);
    TextsCons(a, [b, c]);
    assert [b] + [c] == [b, c] && [a] + [b, c] == [a, b, c];
  }

  lemma TextsOfFour(a: Token, b: Token, c: Token, d: Token)
    ensures Texts([a, b, c, d]) == TokenText(a) + (TokenText(b) + (TokenText(c) + TokenText(d)))
  {
    TextsOfThree(b, c, d);
    TextsCons(a, [b, c, d]);
    assert [a] + [b, c, d] == [a, b, c, d];
  }

  lemma TextsOfFive(a: Token, b: Token, c: Token, d: Token, e: Token)
    ensures Texts([a, b, c, d, e]) == TokenText(a) + (TokenText(b) + (TokenText(c) + (TokenText(d) + TokenText(e))))
  {
    TextsOfFour(b, c, d, e);
    TextsCons(a, [b, c, d, e]);
    assert [a] + [b, c, d, e] == [a, b, c, d, e];
  }

  /** The texts of the three numbers used below. */
  lemma NumberTexts()
    ensures TokenText(Number(One)) == "1.0" && TokenText(Number(Two)) == "2.0" && TokenText(Number(Three)) == "3.0"
  {
  }

  lemma TextsOnePlusTwo()
    ensures Texts([Number(One), Plus, Number(Two)]) == "1.0+2.0"
  {
    TextsOfThree(Number(One), Plus, Number(Two));
    NumberTexts();
    assert "1.0" + ("+" + "2.0") == "1.0+2.0";
  }

  lemma LexOnePlusTwo()
    ensures Lex("1.0+2.0", 0) == Ok([Number(One), Plus, Number(Two)])
  {
    var ts := [Number(One), Plus, Number(Two)];
    TextsOnePlusTwo();
    assert Separated(ts);
    LexTexts(ts);
  }

  lemma ParseOnePlusTwoTokens()
    ensures Parse([Number(One), Plus, Number(Two)]) == Ok(AddNode(NumNode(One), NumNode(Two)))
  {
    var ds := [One, Two];
    assert ds[..1] == [One];
    assert Chain(ds) == [Number(One), Plus, Number(Two)];
    ChainIsLeftAssociative(ds);
  }

  lemma ParseOnePlusTwo()
    ensures ParseText("1.0+2.0") == Ok(AddNode(NumNode(One), NumNode(Two)))
  {
    LexOnePlusTwo();
    ParseOnePlusTwoTokens();
  }

  lemma TextsSumOfThree()
    ensures Texts([Number(One), Plus, Number(Two), Plus, Number(Three)]) == "1.0+2.0+3.0"
  {
    TextsOfFive(Number(One), Plus, Number(Two), Plus, Number(Three));
    NumberTexts();
    assert "1.0" + ("+" + ("2.0" + ("+" + "3.0"))) == "1.0+2.0+3.0";
  }

  lemma LexSumOfThree()
    ensures Lex("1.0+2.0+3.0", 0) == Ok([Number(One), Plus, Number(Two), Plus, Number(Three)])
  {
    var ts := [Number(One), Plus, Number(Two), Plus, Number(Three)];
    TextsSumOfThree();
    assert Separated(ts);
    LexTexts(ts);
  }

  lemma Values()
    ensures Value(One) == 1.0 && Value(Two) == 2.0 && Value(Three) == 3.0
  {
    assert DigitsValue("0") == 0 by {
      assert "0"[..0] == "";
    }
    assert DigitsValue("1") == 1 by {
      assert "1"[..0] == "";
    }
    assert DigitsValue("2") == 2 by {
      assert "2"[..0] == "";
    }
    assert DigitsValue("3") == 3 by {
      assert "3"[..0] == "";
    }
  }

  /** "1.0+2.0+3.0" groups to the left. */
  lemma SumOfThree()
    ensures ParseText("1.0+2.0+3.0") == Ok(AddNode(AddNode(NumNode(One), NumNode(Two)), NumNode(Three)))
  {
    LexSumOfThree();
    ThreeTermsGroupLeft(One, Two, Three);
  }

  /** That tree renders as "((1.0)+(2.0))+(3.0)" and computes to 6. */
  lemma SumOfThreeShown()
    ensures var e := AddNode(AddNode(NumNode(One), NumNode(Two)), NumNode(Three));
      Render(e) == "((1.0)+(2.0))+(3.0)" && Compute(e) == 6.0
  {
    Values();
    var a := Render(AddNode(NumNode(One), NumNode(Two)));
    assert a == "((1.0)+(2.0))"[1..12];
  }

  lemma TextsParenthesisedSum()
    ensures Texts([LParen, Number(One), Plus, Number(Two), RParen]) == "(1.0+2.0)"
  {
    TextsOfFive(LParen, Number(One), Plus, Number(Two), RParen);
    NumberTexts();
    assert "(" + ("1.0" + ("+" + ("2.0" + ")"))) == "(1.0+2.0)";
  }

  lemma LexParenthesisedSum()
    ensures Lex("(1.0+2.0)", 0) == Ok([LParen, Number(One), Plus, Number(Two), RParen])
  {
    var ts := [LParen, Number(One), Plus, Number(Two), RParen];
    TextsParenthesisedSum();
    assert Separated(ts);
    LexTexts(ts);
  }

  /** Redundant parentheses change nothing: "(1.0+2.0)" is the tree "1.0+2.0" parses to. */
  lemma RedundantParens()
    ensures ParseText("(1.0+2.0)") == Ok(AddNode(NumNode(One), NumNode(Two)))
  {
    ParseOnePlusTwoTokens();
    LexParenthesisedSum();
    var ts := [Number(One), Plus, Number(Two)];
    assert [LParen] + ts + [RParen] == [LParen, Number(One), Plus, Number(Two), RParen];
    ParensTransparent(ts);
  }

  lemma CommentGap()
    ensures Ignorable(" #c\n")
  {
    var c := "#c\n";
    assert c[1..] == "c\n";
    assert LineRun(c, 1) == 1;
    assert c[2..] == "\n";
    assert Ignorable("\n") by {
      assert "\n"[1..] == "";
    }
    assert " #c\n"[1..] == c;
  }

  lemma SpellThree(g0: string, a: Token, g1: string, b: Token, g2: string, c: Token, g3: string)
    ensures Spell([a, b, c], [g0, g1, g2, g3])
         == g0 + TokenText(a) + (g1 + TokenText(b) + (g2 + TokenText(c) + g3))
  {
    assert Spell([], [g3]) == g3 + "" == g3;
    SpellCons(g2, c, [g3], []);
    assert [c] + [] == [c] && [g2] + [g3] == [g2, g3];
    SpellCons(g1, b, [g2, g3], [c]);
    assert [b] + [c] == [b, c] && [g1] + [g2, g3] == [g1, g2, g3];
    SpellCons(g0, a, [g1, g2, g3], [b, c]);
    assert [a] + [b, c] == [a, b, c] && [g0] + [g1, g2, g3] == [g0, g1, g2, g3];
  }

  lemma SpellSpacesAndComment()
    ensures Spell([Number(One), Plus, Number(Two)], ["", " #c\n", " ", ""]) == "1.0 #c\n+ 2.0"
  {
    SpellThree("", Number(One), " #c\n", Plus, " ", Number(Two), "");
    var one, two := TokenText(Number(One)), TokenText(Number(Two));
    assert one == "1.0" && two == "2.0";
    assert "" + one + (" #c\n" + "+" + (" " + two + "")) == "1.0 #c\n+ 2.0";
  }

  lemma LexSpacesAndComment()
    ensures Lex("1.0 #c\n+ 2.0", 0) == Ok([Number(One), Plus, Number(Two)])
  {
    var ts := [Number(One), Plus, Number(Two)];
    var gaps := ["", " #c\n", " ", ""];
    CommentGap();
    assert Ignorable(" ") && Blank("");
    SpellSpacesAndComment();
    assert WellSpaced(ts, gaps);
    LexSpelled(ts, gaps);
  }

  /** Whitespace and a comment ended by a newline are skipped. */
  lemma SpacesAndComment()
    ensures ParseText("1.0 #c\n+ 2.0") == ParseText("1.0+2.0")
  {
    LexOnePlusTwo();
    LexSpacesAndComment();
  }

  /** "3+4" fails at its first character: an integer without a point is no number. */
  lemma IntegersRejected()
    ensures ParseText("3+4") == Err(LexFailure(LexError('3', 0)))
  {
    assert "3" + "+4" == "3+4";
    BareIntegerRejected("3", "+4");
  }

  lemma TextsUnclosed()
    ensures Texts([LParen, Number(One), Plus, Number(Two)]) == "(1.0+2.0"
  {
    TextsOfFour(LParen, Number(One), Plus, Number(Two));
    NumberTexts();
    assert "(" + ("1.0" + ("+" + "2.0")) == "(1.0+2.0";
  }

  lemma ParseUnclosed()
    ensures Parse([LParen, Number(One), Plus, Number(Two)]) == Err(UnexpectedEnd)
  {
    var ts := [LParen, Number(One), Plus, Number(Two)];
    var sum := AddNode(NumNode(One), NumNode(Two));
    assert ParseAtom(ts, 1) == Ok((NumNode(One), 2));
    assert ParseAtom(ts, 3) == Ok((NumNode(Two), 4));
    assert ParseTail(ts, 4, sum) == Ok((sum, 4));
    assert ParseTail(ts, 2, NumNode(One)) == Ok((sum, 4));
    assert ParseExpr(ts, 1) == Ok((sum, 4));
    assert ParseAtom(ts, 0) == Err(UnexpectedEnd);
  }

  /** An unclosed parenthesis runs into the end of the input. */
  lemma UnclosedParen()
    ensures ParseText("(1.0+2.0") == Err(ParseFailure(UnexpectedEnd))
  {
    var ts := [LParen, Number(One), Plus, Number(Two)];
    TextsUnclosed();
    assert Separated(ts);
    LexTexts(ts);
    ParseUnclosed();
  }

  lemma TextsStray()
    ensures Texts([Number(One), Plus, Number(Two), RParen]) == "1.0+2.0)"
  {
    TextsOfFour(Number(One), Plus, Number(Two), RParen);
    NumberTexts();
    assert "1.0" + ("+" + ("2.0" + ")")) == "1.0+2.0)";
  }

  lemma ParseStray()
    ensures Parse([Number(One), Plus, Number(Two), RParen]) == Err(UnexpectedToken(RParen, 3))
  {
    var ts := [Number(One), Plus, Number(Two), RParen];
    var sum := AddNode(NumNode(One), NumNode(Two));
    assert ParseAtom(ts, 0) == Ok((NumNode(One), 1));
    assert ParseAtom(ts, 2) == Ok((NumNode(Two), 3));
    assert ParseTail(ts, 3, sum) == Ok((sum, 3));
    assert ParseTail(ts, 1, NumNode(One)) == Ok((sum, 3));
    assert ParseExpr(ts, 0) == Ok((sum, 3));
  }

  /** A stray closing parenthesis is the unexpected token, the fourth of the line. */
  lemma StrayParen()
    ensures ParseText("1.0+2.0)") == Err(ParseFailure(UnexpectedToken(RParen, 3)))
  {
    var ts := [Number(One), Plus, Number(Two), RParen];
    TextsStray();
    assert Separated(ts);
    LexTexts(ts);
    ParseStray();
  }

  /** "@" is covered by no rule: tokenizing fails there, at offset 3. */
  lemma UnknownCharacter()
    ensures ParseText("1.0@2.0") == Err(LexFailure(LexError('@', 3)))
  {
    var s := "1.0@2.0";
    assert s[0..3] == Text(One);
    LexToken(s, 0, Number(One));
    assert NumberLen(s, 3) == 0;
    assert Step(s, 3).None?;
  }

  /** A comment closed by a newline does not hide an illegal character after it: "#x\n@" fails at "@", offset 3. */
  lemma CommentThenUnknownCharacter()
    ensures ParseText("#x\n@") == Err(LexFailure(LexError('@', 3)))
  {
    var s := "#x\n@";
    UncoveredCharFails(s, 0, 3);
    LexFailsWhereNoRuleMatches(s, 0);
  }
}
