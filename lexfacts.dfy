/**
 * What the tokenizer's rules imply for whole inputs: where it fails, which
 * texts it accepts, and that the ignored text between tokens does not matter.
 */
module LexerFacts {
  import opened Results
  import opened Ast
  import opened Lexer

  // ---------------------------------------------------------------------
  // Single lexemes

  /** Where a text occurs, its characters occur. */
  lemma CharsAt(s: string, i: nat, w: string)
    requires i + |w| <= |s| && s[i..i + |w|] == w
    ensures forall j :: i <= j < i + |w| ==> s[j] == w[j - i]
  {
    forall j | i <= j < i + |w| ensures s[j] == w[j - i] {
      assert s[i..i + |w|][j - i] == s[j];
    }
  }

  lemma DigitsAt(s: string, i: nat, w: Digits)
    requires i + |w| <= |s| && s[i..i + |w|] == w
    ensures forall j :: i <= j < i + |w| ==> IsDigit(s[j])
  {
    CharsAt(s, i, w);
  }

  /** Where the text of a decimal literal occurs: its whole part, its point, its fractional part. */
  lemma TextAt(s: string, i: nat, d: Decimal)
    requires i + |Text(d)| <= |s| && s[i..i + |Text(d)|] == Text(d)
    ensures var m := i + |d.whole|;
      && i + |Text(d)| == m + 1 + |d.frac|
      && s[i..m] == d.whole && s[m] == '.' && s[m + 1..m + 1 + |d.frac|] == d.frac
  {
    var w, f := d.whole, d.frac;
    var m, n := i + |w|, i + |Text(d)|;
    assert Text(d) == w + "." + f;
    assert s[i..m] == s[i..n][..|w|] == Text(d)[..|w|] == w;
    assert s[m] == s[i..n][|w|] == '.';
    assert s[m + 1..n] == s[i..n][|w| + 1..] == Text(d)[|w| + 1..] == f;
  }

  /** The text of a decimal literal, followed by anything but a digit, is matched whole by NUMBER. */
  lemma NumberAt(s: string, i: nat, d: Decimal)
    requires i + |Text(d)| <= |s| && s[i..i + |Text(d)|] == Text(d)
    requires i + |Text(d)| == |s| || !IsDigit(s[i + |Text(d)|])
    ensures NumberLen(s, i) == |Text(d)|
    ensures NumberToken(s, i) == Number(d)
  {
    var w, f := d.whole, d.frac;
    var m := i + |w|;
    TextAt(s, i, d);
    DigitsAt(s, i, w);
    DigitRunExact(s, i, |w|);
    DigitsAt(s, m + 1, f);
    DigitRunExact(s, m + 1, |f|);
  }

  /** A digit where NUMBER does not match, as in a bare integer, makes tokenizing fail right there. */
  lemma DigitWithoutNumberFails(s: string, i: nat)
    requires i < |s| && IsDigit(s[i]) && NumberLen(s, i) == 0
    ensures Lex(s, i) == Err(LexError(s[i], i))
  {
  }

  /** An integer without a fractional part is not a number: "3+4" fails at its first character. */
  lemma BareIntegerRejected(w: Digits, rest: string)
    requires rest == [] || (!IsDigit(rest[0]) && rest[0] != '.')
    ensures Lex(w + rest, 0) == Err(LexError(w[0], 0))
  {
    var s := w + rest;
    assert forall j :: 0 <= j < |w| ==> s[j] == w[j];
    assert |w| < |s| ==> s[|w|] == rest[0];
    DigitRunExact(s, 0, |w|);
    DigitWithoutNumberFails(s, 0);
  }

  /** A token's own text, followed by anything that cannot extend it, lexes to that one token. */
  lemma LexToken(s: string, i: nat, t: Token)
    requires i + |TokenText(t)| <= |s| && s[i..i + |TokenText(t)|] == TokenText(t)
    requires t.Number? ==> i + |TokenText(t)| == |s| || !IsDigit(s[i + |TokenText(t)|])
    ensures Lex(s, i) == Prepend([t], Lex(s, i + |TokenText(t)|))
  {
    assert s[i] == TokenText(t)[0];
    if t.Number? {
      NumberAt(s, i, t.d);
      assert IsDigit(t.d.whole[0]);
      assert Step(s, i) == Some(Match([t], |TokenText(t)|));
    } else {
      assert Step(s, i) == Some(Match([t], 1));
    }
    LexMatched(s, i);
  }

  // ---------------------------------------------------------------------
  // The rule step

  /** `s` holds the text of `d` at position `i`, and no digit follows it there. */
  predicate NumberTextAt(s: string, i: nat, d: Decimal) {
    var n := i + |Text(d)|;
    n <= |s| && s[i..n] == Text(d) && (n == |s| || !IsDigit(s[n]))
  }

  /**
   * When the rule step emits a token, it emits exactly one, it consumed that
   * token's own text, and a number it consumed is not followed by a digit.
   * Neither skip rule applied there, since they come first.
   */
  lemma StepEmitsToken(s: string, i: nat)
    requires i < |s| && Step(s, i).Some? && Step(s, i).value.emit != []
    ensures !IsIgnored(s[i]) && s[i] != '#'
    ensures var m := Step(s, i).value;
      m.emit == [m.emit[0]] && s[i..i + m.len] == TokenText(m.emit[0])
      && (m.emit[0].Number? ==> !StartsWithDigit(s[i + m.len..]))
  {
    var m := Step(s, i).value;
    if m.emit[0].Number? {
      var k := DigitRun(s, i);
      NumberTokenText(s, i);
      DigitRunIsDigits(s, i + k + 1);
      if i + m.len < |s| {
        assert s[i + m.len..][0] == s[i + m.len];
      }
    } else {
      assert s[i..i + 1] == [s[i]];
    }
  }

  /**
   * When the rule step emits nothing, it skipped one ignored character, or a
   * comment: a "#" and everything after it up to the next newline or the end.
   */
  lemma StepSkips(s: string, i: nat)
    requires i < |s| && Step(s, i).Some? && Step(s, i).value.emit == []
    ensures var n := Step(s, i).value.len;
      || (IsIgnored(s[i]) && n == 1)
      || (!IsIgnored(s[i]) && s[i] == '#'
          && (forall j :: i < j < i + n ==> s[j] != '\n')
          && (i + n == |s| || s[i + n] == '\n'))
  {
    if !IsIgnored(s[i]) {
      CommentStopsAtNewline(s, i);
    }
  }

  /**
   * The rule step fails exactly where the character is not ignored, starts no
   * comment and is no literal, and no decimal's text stands there undelimited
   * by a further digit.
   */
  lemma StepFails(s: string, i: nat)
    requires i < |s|
    ensures Step(s, i).None? <==>
      && !IsIgnored(s[i]) && s[i] != '#' && !IsLiteral(s[i])
      && forall d :: !NumberTextAt(s, i, d)
  {
    if Step(s, i).None? {
      NoNumberText(s, i);
    } else if !IsIgnored(s[i]) && s[i] != '#' && !IsLiteral(s[i]) {
      NumberTextOfToken(s, i);
    }
  }

  lemma NoNumberText(s: string, i: nat)
    requires i <= |s| && NumberLen(s, i) == 0
    ensures forall d :: !NumberTextAt(s, i, d)
  {
    forall d ensures !NumberTextAt(s, i, d) {
      if NumberTextAt(s, i, d) {
        NumberAt(s, i, d);
      }
    }
  }

  lemma NumberTextOfToken(s: string, i: nat)
    requires i <= |s| && NumberLen(s, i) > 0
    ensures NumberTextAt(s, i, NumberToken(s, i).d)
  {
    NumberTokenText(s, i);
    NumberLexeme(s, i);
  }

  // ---------------------------------------------------------------------
  // Ignored text

  /**
   * Text that produces no tokens and can stand before a token: ignored
   * characters and comments, each comment closed by a newline.
   */
  predicate Ignorable(w: string)
    decreases |w|
  {
    if w == [] then true
    else if IsIgnored(w[0]) then Ignorable(w[1..])
    else if w[0] == '#' then CommentLen(w, 0) < |w| && Ignorable(w[CommentLen(w, 0)..])
    else false
  }

  /** Text that produces no tokens at the end of the input: the last comment may run to the end. */
  predicate Blank(w: string)
    decreases |w|
  {
    if w == [] then true
    else if IsIgnored(w[0]) then Blank(w[1..])
    else if w[0] == '#' then Blank(w[CommentLen(w, 0)..])
    else false
  }

  /** The comment `w` begins with is the same comment where `w` occurs inside a longer text. */
  lemma CommentIn(s: string, i: nat, w: string)
    requires i + |w| <= |s| && s[i..i + |w|] == w
    requires w != [] && w[0] == '#'
    requires CommentLen(w, 0) < |w| || i + |w| == |s|
    ensures s[i] == '#' && CommentLen(s, i) == CommentLen(w, 0)
  {
    var n := CommentLen(w, 0);
    assert forall j :: 0 <= j < |w| ==> s[i + j] == w[j];
    CommentStopsAtNewline(w, 0);
    LineRunExact(s, i + 1, n - 1);
  }

  /** Skipping an ignorable text leaves the tokenizer where the text ends, having emitted nothing. */
  lemma {:induction false} SkipIgnorable(s: string, i: nat, w: string)
    requires i + |w| <= |s| && s[i..i + |w|] == w && Ignorable(w)
    ensures Lex(s, i) == Lex(s, i + |w|)
    decreases |w|
  {
    if w != [] {
      assert s[i] == w[0];
      var n := if IsIgnored(w[0]) then 1 else CommentLen(w, 0);
      if !IsIgnored(w[0]) {
        CommentIn(s, i, w);
      }
      assert Step(s, i) == Some(Match([], n));
      LexMatched(s, i);
      PrependNothing(Lex(s, i + n));
      assert s[i + n..i + |w|] == w[n..];
      SkipIgnorable(s, i + n, w[n..]);
    }
  }

  /** Blank text at the end of the input lexes to no tokens. */
  lemma {:induction false} BlankLexesToNothing(s: string, i: nat, w: string)
    requires i <= |s| && s[i..] == w && Blank(w)
    ensures Lex(s, i) == Ok([])
    decreases |w|
  {
    if w != [] {
      assert s[i] == w[0];
      var n := if IsIgnored(w[0]) then 1 else CommentLen(w, 0);
      if !IsIgnored(w[0]) {
        CommentIn(s, i, w);
      }
      assert Step(s, i) == Some(Match([], n));
      LexMatched(s, i);
      PrependNothing(Lex(s, i + n));
      BlankLexesToNothing(s, i + n, w[n..]);
    }
  }

  // ---------------------------------------------------------------------
  // Token sequences spelled with gaps

  /** A text made of gaps of ignored text with the tokens' texts between them. */
  function Spell(ts: seq<Token>, gaps: seq<string>): string
    requires |gaps| == |ts| + 1
    decreases |ts|
  {
    gaps[0] + if ts == [] then "" else TokenText(ts[0]) + Spell(ts[1..], gaps[1..])
  }

  lemma SpellCons(g: string, t: Token, gaps: seq<string>, ts: seq<Token>)
    requires |gaps| == |ts| + 1
    ensures Spell([t] + ts, [g] + gaps) == g + TokenText(t) + Spell(ts, gaps)
  {
    assert ([t] + ts)[1..] == ts && ([g] + gaps)[1..] == gaps;
  }

  /**
   * Gaps that keep every token apart: ignorable before each token, blank at
   * the end, and not empty between two numbers (which would run together).
   */
  predicate WellSpaced(ts: seq<Token>, gaps: seq<string>) {
    && |gaps| == |ts| + 1
    && (forall i :: 0 <= i < |ts| ==> Ignorable(gaps[i]))
    && Blank(gaps[|ts|])
    && (forall i :: 0 <= i < |ts| - 1 ==> ts[i].Number? && ts[i + 1].Number? ==> gaps[i + 1] != [])
  }

  lemma WellSpacedTail(ts: seq<Token>, gaps: seq<string>)
    requires ts != [] && WellSpaced(ts, gaps)
    ensures WellSpaced(ts[1..], gaps[1..])
  {
    assert forall i :: 0 <= i < |ts| - 1 ==> Ignorable(gaps[1..][i]) by {
      forall i | 0 <= i < |ts| - 1 ensures Ignorable(gaps[1..][i]) {
        assert gaps[1..][i] == gaps[i + 1];
      }
    }
  }

  /** A text that starts with a digit cannot follow a number without something in between. */
  predicate StartsWithDigit(s: string) {
    s != [] && IsDigit(s[0])
  }

  lemma SpellHead(ts: seq<Token>, gaps: seq<string>)
    requires WellSpaced(ts, gaps) && ts != []
    ensures ts[0].Number? ==> !StartsWithDigit(Spell(ts[1..], gaps[1..]))
  {
    var rest := Spell(ts[1..], gaps[1..]);
    if ts[0].Number? && rest != [] {
      var g := gaps[1];
      if g != [] {
        assert rest[0] == g[0];
        if |ts| > 1 {
          assert Ignorable(g);
        } else {
          assert Blank(g);
        }
      } else {
        assert |ts| > 1;
        assert !ts[1].Number?;
        assert rest[..|TokenText(ts[1])|] == TokenText(ts[1]);
      }
    }
  }

  /** An ignorable gap and then a token lex to that token. */
  lemma GapThenToken(s: string, i: nat, g: string, t: Token)
    requires Ignorable(g) && i + |g| + |TokenText(t)| <= |s|
    requires s[i..i + |g|] == g && s[i + |g|..i + |g| + |TokenText(t)|] == TokenText(t)
    requires t.Number? ==> !StartsWithDigit(s[i + |g| + |TokenText(t)|..])
    ensures Lex(s, i) == Prepend([t], Lex(s, i + |g| + |TokenText(t)|))
  {
    var k := i + |g| + |TokenText(t)|;
    SkipIgnorable(s, i, g);
    if t.Number? && k < |s| {
      assert s[k..][0] == s[k];
    }
    LexToken(s, i + |g|, t);
  }

  /** How a spelling with at least one token splits into its first gap, first token and the rest. */
  lemma SpellSplit(s: string, i: nat, ts: seq<Token>, gaps: seq<string>)
    requires |gaps| == |ts| + 1 && ts != [] && i <= |s| && s[i..] == Spell(ts, gaps)
    ensures var j := i + |gaps[0]|; var k := j + |TokenText(ts[0])|;
      && k <= |s| && s[i..j] == gaps[0] && s[j..k] == TokenText(ts[0])
      && s[k..] == Spell(ts[1..], gaps[1..])
  {
    var g, t, rest := gaps[0], ts[0], Spell(ts[1..], gaps[1..]);
    assert s[i..] == g + (TokenText(t) + rest);
  }

  /** The first gap and token of a well-spaced spelling lex to that token. */
  lemma LexSpellStep(s: string, i: nat, ts: seq<Token>, gaps: seq<string>)
    requires WellSpaced(ts, gaps) && ts != [] && i <= |s| && s[i..] == Spell(ts, gaps)
    ensures var k := i + |gaps[0]| + |TokenText(ts[0])|;
      k <= |s| && Lex(s, i) == Prepend([ts[0]], Lex(s, k))
  {
    SpellSplit(s, i, ts, gaps);
    SpellHead(ts, gaps);
    GapThenToken(s, i, gaps[0], ts[0]);
  }

  /** After the first gap and token, at `k`, the rest is a well-spaced spelling of the remaining tokens. */
  lemma LexSpellNext(s: string, i: nat, ts: seq<Token>, gaps: seq<string>) returns (k: nat)
    requires WellSpaced(ts, gaps) && ts != [] && i <= |s| && s[i..] == Spell(ts, gaps)
    ensures k <= |s| && Lex(s, i) == Prepend([ts[0]], Lex(s, k))
    ensures s[k..] == Spell(ts[1..], gaps[1..]) && WellSpaced(ts[1..], gaps[1..])
  {
    LexSpellStep(s, i, ts, gaps);
    SpellSplit(s, i, ts, gaps);
    WellSpacedTail(ts, gaps);
    k := i + |gaps[0]| + |TokenText(ts[0])|;
  }

  lemma LexSpellNothing(s: string, i: nat, gaps: seq<string>)
    requires |gaps| == 1 && Blank(gaps[0]) && i <= |s| && s[i..] == Spell([], gaps)
    ensures Lex(s, i) == Ok([])
  {
    assert Spell([], gaps) == gaps[0] + "" == gaps[0];
    BlankLexesToNothing(s, i, gaps[0]);
  }

  lemma PrependHead(ts: seq<Token>, r: Result<seq<Token>, LexError>)
    requires ts != [] && r == Ok(ts[1..])
    ensures Prepend([ts[0]], r) == Ok(ts)
  {
    assert [ts[0]] + ts[1..] == ts;
  }

  /**
   * Whitespace and comments between tokens are skipped: a well-spaced
   * spelling of a token sequence lexes to exactly that sequence.
   */
  lemma {:induction false} LexSpell(s: string, i: nat, ts: seq<Token>, gaps: seq<string>)
    requires WellSpaced(ts, gaps) && i <= |s| && s[i..] == Spell(ts, gaps)
    ensures Lex(s, i) == Ok(ts)
    decreases |ts|
  {
    if ts == [] {
      LexSpellNothing(s, i, gaps);
    } else {
      var k := LexSpellNext(s, i, ts, gaps);
      LexSpell(s, k, ts[1..], gaps[1..]);
      PrependHead(ts, Lex(s, k));
    }
  }

  /** Whatever well-spaced whitespace and comments are put between the same tokens, the tokens come out. */
  lemma LexSpelled(ts: seq<Token>, gaps: seq<string>)
    requires WellSpaced(ts, gaps)
    ensures Lex(Spell(ts, gaps), 0) == Ok(ts)
  {
    LexSpell(Spell(ts, gaps), 0, ts, gaps);
  }

  /** The tokens' texts run together, with nothing between them. */
  function Texts(ts: seq<Token>): string
    decreases |ts|
  {
    if ts == [] then "" else TokenText(ts[0]) + Texts(ts[1..])
  }

  lemma TextsCons(t: Token, ts: seq<Token>)
    ensures Texts([t] + ts) == TokenText(t) + Texts(ts)
  {
    assert ([t] + ts)[1..] == ts;
  }

  lemma {:induction false} TextsConcat(a: seq<Token>, b: seq<Token>)
    ensures Texts(a + b) == Texts(a) + Texts(b)
    decreases |a|
  {
    if a == [] {
      assert a + b == b;
    } else {
      assert (a + b)[1..] == a[1..] + b;
      TextsConcat(a[1..], b);
    }
  }

  /** Spelling tokens with empty gaps runs their texts together. */
  lemma {:induction false} SpellWithoutGaps(ts: seq<Token>)
    ensures Spell(ts, seq(|ts| + 1, _ => "")) == Texts(ts)
    decreases |ts|
  {
    var gaps := seq(|ts| + 1, _ => "");
    if ts != [] {
      assert gaps[1..] == seq(|ts[1..]| + 1, _ => "");
      SpellWithoutGaps(ts[1..]);
    }
  }

  /** No two numbers stand next to each other. */
  predicate Separated(ts: seq<Token>) {
    forall i :: 0 <= i < |ts| - 1 ==> !(ts[i].Number? && ts[i + 1].Number?)
  }

  lemma SeparatedJoin(a: seq<Token>, b: seq<Token>)
    requires Separated(a) && Separated(b)
    requires a == [] || b == [] || !a[|a| - 1].Number? || !b[0].Number?
    ensures Separated(a + b)
  {
    var c := a + b;
    forall i | 0 <= i < |c| - 1
      ensures !(c[i].Number? && c[i + 1].Number?)
    {
      if i + 1 < |a| {
        assert c[i] == a[i] && c[i + 1] == a[i + 1];
      } else if i + 1 == |a| {
        assert c[i] == a[|a| - 1] && c[i + 1] == b[0];
      } else {
        assert c[i] == b[i - |a|] && c[i + 1] == b[i - |a| + 1];
      }
    }
  }

  /** Tokens without two adjacent numbers need no gaps at all between them. */
  lemma SeparatedIsWellSpaced(ts: seq<Token>)
    requires Separated(ts)
    ensures WellSpaced(ts, seq(|ts| + 1, _ => ""))
  {
  }

  /** Putting `w` in front of the first gap puts it in front of the spelling. */
  lemma SpellWidenFirstGap(w: string, ts: seq<Token>, gaps: seq<string>)
    requires |gaps| == |ts| + 1
    ensures Spell(ts, [w + gaps[0]] + gaps[1..]) == w + Spell(ts, gaps)
  {
    var gs := [w + gaps[0]] + gaps[1..];
    assert gs[0] == w + gaps[0] && gs[1..] == gaps[1..];
    var tail := if ts == [] then "" else TokenText(ts[0]) + Spell(ts[1..], gaps[1..]);
    assert Spell(ts, gs) == (w + gaps[0]) + tail;
    assert Spell(ts, gaps) == gaps[0] + tail;
    ConcatAssoc(w, gaps[0], tail);
  }

  /** Replacing the first gap by another ignorable one (blank, if there are no tokens) keeps the spacing well. */
  lemma WellSpacedNewFirstGap(g: string, ts: seq<Token>, gaps: seq<string>)
    requires WellSpaced(ts, gaps)
    requires if ts == [] then Blank(g) else Ignorable(g)
    ensures WellSpaced(ts, [g] + gaps[1..])
  {
    var gs := [g] + gaps[1..];
    assert forall i :: 0 < i < |gs| ==> gs[i] == gaps[i];
  }

  lemma PrefixIgnored(c: char, ts: seq<Token>, gaps: seq<string>)
    requires IsIgnored(c) && WellSpaced(ts, gaps)
    ensures var gs := [[c] + gaps[0]] + gaps[1..];
      WellSpaced(ts, gs) && Spell(ts, gs) == [c] + Spell(ts, gaps)
  {
    assert ([c] + gaps[0])[1..] == gaps[0];
    WellSpacedNewFirstGap([c] + gaps[0], ts, gaps);
    SpellWidenFirstGap([c], ts, gaps);
  }

  /** A closed comment followed by a newline, or by nothing, is still that comment. */
  lemma CommentThen(cm: string, rest: string)
    requires cm != [] && cm[0] == '#' && CommentLen(cm, 0) == |cm|
    requires rest == [] || rest[0] == '\n'
    ensures (cm + rest)[0] == '#' && CommentLen(cm + rest, 0) == |cm| && (cm + rest)[|cm|..] == rest
  {
    var g := cm + rest;
    CommentStopsAtNewline(cm, 0);
    assert forall j :: 0 <= j < |cm| ==> g[j] == cm[j];
    if rest != [] {
      assert g[|cm|] == rest[0];
    }
    LineRunExact(g, 1, |cm| - 1);
    assert g[|cm|..] == rest;
  }

  lemma PrefixComment(cm: string, ts: seq<Token>, gaps: seq<string>)
    requires cm != [] && cm[0] == '#' && CommentLen(cm, 0) == |cm| && WellSpaced(ts, gaps)
    requires Spell(ts, gaps) == [] || Spell(ts, gaps)[0] == '\n'
    ensures var gs := [cm + gaps[0]] + gaps[1..];
      WellSpaced(ts, gs) && Spell(ts, gs) == cm + Spell(ts, gaps)
  {
    if gaps[0] != [] {
      assert Spell(ts, gaps)[0] == gaps[0][0];
    } else if ts != [] {
      assert false;
    }
    CommentThen(cm, gaps[0]);
    var g := cm + gaps[0];
    if ts != [] {
      assert Ignorable(g);
    } else {
      assert Blank(g);
    }
    WellSpacedNewFirstGap(g, ts, gaps);
    SpellWidenFirstGap(cm, ts, gaps);
  }

  lemma PrefixToken(t: Token, ts: seq<Token>, gaps: seq<string>)
    requires WellSpaced(ts, gaps)
    requires t.Number? ==> !StartsWithDigit(Spell(ts, gaps))
    ensures WellSpaced([t] + ts, [""] + gaps)
    ensures Spell([t] + ts, [""] + gaps) == TokenText(t) + Spell(ts, gaps)
  {
    var ts', gs := [t] + ts, [""] + gaps;
    assert ts'[1..] == ts && gs[1..] == gaps;
    if t.Number? && ts != [] && ts[0].Number? && gaps[0] == [] {
      assert Spell(ts, gaps)[0] == TokenText(ts[0])[0] == ts[0].d.whole[0];
    }
    assert forall i :: 0 < i < |gs| ==> gs[i] == gaps[i - 1];
    assert forall i :: 0 < i < |ts'| ==> ts'[i] == ts[i - 1];
  }

  lemma SpellIgnored(s: string, i: nat, ts: seq<Token>, gs: seq<string>) returns (gaps: seq<string>)
    requires i < |s| && IsIgnored(s[i]) && WellSpaced(ts, gs) && Spell(ts, gs) == s[i + 1..]
    ensures WellSpaced(ts, gaps) && Spell(ts, gaps) == s[i..]
  {
    assert s[i..] == [s[i]] + s[i + 1..];
    PrefixIgnored(s[i], ts, gs);
    gaps := [[s[i]] + gs[0]] + gs[1..];
  }

  lemma SpellComment(s: string, i: nat, ts: seq<Token>, gs: seq<string>) returns (gaps: seq<string>)
    requires i < |s| && s[i] == '#' && WellSpaced(ts, gs) && Spell(ts, gs) == s[i + CommentLen(s, i)..]
    ensures WellSpaced(ts, gaps) && Spell(ts, gaps) == s[i..]
  {
    var n := CommentLen(s, i);
    var cm := s[i..i + n];
    assert s[i..] == cm + s[i + n..];
    CommentStopsAtNewline(s, i);
    assert forall j :: 1 <= j < n ==> cm[j] == s[i + j];
    LineRunExact(cm, 1, n - 1);
    if i + n < |s| {
      assert Spell(ts, gs)[0] == s[i + n];
    }
    PrefixComment(cm, ts, gs);
    gaps := [cm + gs[0]] + gs[1..];
  }

  lemma SpellToken(s: string, i: nat, t: Token, ts: seq<Token>, gs: seq<string>) returns (gaps: seq<string>)
    requires i + |TokenText(t)| <= |s| && s[i..i + |TokenText(t)|] == TokenText(t)
    requires t.Number? ==> !StartsWithDigit(s[i + |TokenText(t)|..])
    requires WellSpaced(ts, gs) && Spell(ts, gs) == s[i + |TokenText(t)|..]
    ensures WellSpaced([t] + ts, gaps) && Spell([t] + ts, gaps) == s[i..]
  {
    assert s[i..] == TokenText(t) + s[i + |TokenText(t)|..];
    PrefixToken(t, ts, gs);
    gaps := [""] + gs;
  }

  /** Extends a well-spaced spelling of what follows a matched lexeme to one that includes it. */
  lemma SpellStep(s: string, i: nat, ts: seq<Token>, gs: seq<string>, us: seq<Token>) returns (gaps: seq<string>)
    requires i < |s| && Step(s, i).Some? && us == Step(s, i).value.emit + ts
    requires WellSpaced(ts, gs) && Spell(ts, gs) == s[i + Step(s, i).value.len..]
    ensures WellSpaced(us, gaps) && Spell(us, gaps) == s[i..]
  {
    var m := Step(s, i).value;
    if IsIgnored(s[i]) {
      assert m == Match([], 1) && us == ts;
      gaps := SpellIgnored(s, i, ts, gs);
    } else if s[i] == '#' {
      assert m == Match([], CommentLen(s, i)) && us == ts;
      gaps := SpellComment(s, i, ts, gs);
    } else {
      StepEmitsToken(s, i);
      var t := m.emit[0];
      assert us == [t] + ts && m.len == |TokenText(t)|;
      gaps := SpellToken(s, i, t, ts, gs);
    }
  }

  /** A successful tokenizing matched a rule at its first position and went on successfully. */
  lemma LexOkStep(s: string, i: nat)
    requires i < |s| && Lex(s, i).Ok?
    ensures Step(s, i).Some? && Lex(s, i + Step(s, i).value.len).Ok?
    ensures Lex(s, i).value == Step(s, i).value.emit + Lex(s, i + Step(s, i).value.len).value
  {
  }

  /**
   * Conversely, any text that lexes without error is a well-spaced spelling
   * of the tokens it lexes to: tokens come only from whole lexemes, and all
   * else in the text is whitespace and comments.
   */
  lemma {:induction false} LexedIsSpelled(s: string, i: nat) returns (gaps: seq<string>)
    requires i <= |s| && Lex(s, i).Ok?
    ensures WellSpaced(Lex(s, i).value, gaps) && Spell(Lex(s, i).value, gaps) == s[i..]
    decreases |s| - i
  {
    if i == |s| {
      gaps := [""];
    } else {
      LexOkStep(s, i);
      var m := Step(s, i).value;
      var j := i + m.len;
      var gs := LexedIsSpelled(s, j);
      var ts := Lex(s, j).value;
      assert WellSpaced(ts, gs);
      assert Spell(ts, gs) == s[j..];
      gaps := SpellStep(s, i, ts, gs, Lex(s, i).value);
    }
  }

  // ---------------------------------------------------------------------
  // Failure

  /** A character no rule covers. */
  predicate Uncovered(c: char) {
    !IsIgnored(c) && !IsLiteral(c) && !IsDigit(c) && c != '.' && c != '#'
  }

  /** No rule matches at an uncovered character, and no match other than a comment that ends before it runs over one. */
  lemma StepStopsAtUncovered(s: string, i: nat, p: nat)
    requires i <= p < |s| && Uncovered(s[p])
    requires s[i] == '#' ==> i + CommentLen(s, i) < p
    ensures Step(s, i).None? || i + Step(s, i).value.len <= p
  {
    if i == p {
      assert NumberLen(s, i) == 0;
    } else if !IsIgnored(s[i]) && s[i] != '#' && NumberLen(s, i) > 0 {
      NumberLexeme(s, i);
    }
  }

  /**
   * A character no rule covers makes tokenizing fail, at that character or
   * earlier, when every comment that starts before it also ends before it.
   */
  lemma {:induction false} UncoveredCharFails(s: string, i: nat, p: nat)
    requires i <= p < |s| && Uncovered(s[p])
    requires forall j :: i <= j < p && s[j] == '#' ==> j + CommentLen(s, j) < p
    ensures Lex(s, i).Err? && Lex(s, i).error.pos <= p
    decreases |s| - i
  {
    StepStopsAtUncovered(s, i, p);
    if Step(s, i).Some? {
      LexMatched(s, i);
      UncoveredCharFails(s, i + Step(s, i).value.len, p);
    }
  }

}
