/**
 * The parser. The grammar has one nonterminal with three productions,
 *   expr : NUMBER | "(" expr ")" | expr "+" expr
 * and "+" is declared left-associative, which resolves the ambiguity of the
 * third production: the right operand of a "+" is never itself an
 * unparenthesised sum. The model parses with recursive descent over the
 * token sequence: an atom is a number or a parenthesised expression, an
 * expression is an atom followed by any number of "+ atom", folded to the left.
 */
module Parser {
  import opened Results
  import opened Ast
  import opened Lexer

  /** The token at which no production can go on (with its index), or the end of the input. */
  datatype ParseError = UnexpectedToken(tok: Token, at: nat) | UnexpectedEnd

  predicate ErrorWithin(ts: seq<Token>, pos: nat, e: ParseError) {
    e.UnexpectedToken? ==> pos <= e.at < |ts| && ts[e.at] == e.tok
  }

  /** An atom starting at `pos`: a number, or an expression in parentheses. */
  function ParseAtom(ts: seq<Token>, pos: nat): (r: Result<(Expr, nat), ParseError>)
    requires pos <= |ts|
    ensures r.Ok? ==> pos < r.value.1 <= |ts|
    ensures r.Err? ==> ErrorWithin(ts, pos, r.error)
    decreases |ts| - pos, 0
  {
    if pos == |ts| then Err(UnexpectedEnd)
    else match ts[pos]
      case Number(d) => Ok((NumNode(d), pos + 1))
      case LParen =>
        (match ParseExpr(ts, pos + 1)
         case Err(err) => Err(err)
         case Ok((e, q)) =>
           if q == |ts| then Err(UnexpectedEnd)
           else if ts[q] == RParen then Ok((e, q + 1))
           else Err(UnexpectedToken(ts[q], q)))
      case _ => Err(UnexpectedToken(ts[pos], pos))
  }

  /** An expression starting at `pos`, as long as it can be extended. */
  function ParseExpr(ts: seq<Token>, pos: nat): (r: Result<(Expr, nat), ParseError>)
    requires pos <= |ts|
    ensures r.Ok? ==> pos < r.value.1 <= |ts|
    ensures r.Err? ==> ErrorWithin(ts, pos, r.error)
    decreases |ts| - pos, 1
  {
    match ParseAtom(ts, pos)
    case Err(err) => Err(err)
    case Ok((a, q)) => ParseTail(ts, q, a)
  }

  /**
   * Having parsed `acc` up to `pos`, each further "+ atom" makes the sum so
   * far the left operand: the reduction a left-associative "+" calls for.
   */
  function ParseTail(ts: seq<Token>, pos: nat, acc: Expr): (r: Result<(Expr, nat), ParseError>)
    requires pos <= |ts|
    ensures r.Ok? ==> pos <= r.value.1 <= |ts|
    ensures r.Err? ==> ErrorWithin(ts, pos, r.error)
    decreases |ts| - pos, 1
  {
    if pos < |ts| && ts[pos] == Plus then
      match ParseAtom(ts, pos + 1)
      case Err(err) => Err(err)
      case Ok((a, q)) => ParseTail(ts, q, AddNode(acc, a))
    else
      Ok((acc, pos))
  }

  /** The whole token sequence as one expression; a token left over is an error at that token. */
  function Parse(ts: seq<Token>): (r: Result<Expr, ParseError>)
    ensures r.Err? ==> ErrorWithin(ts, 0, r.error)
  {
    match ParseExpr(ts, 0)
    case Err(err) => Err(err)
    case Ok((e, q)) => if q == |ts| then Ok(e) else Err(UnexpectedToken(ts[q], q))
  }

  // ---------------------------------------------------------------------
  // The grammar

  /**
   * `ts[i..j]` derives `e` by the grammar as written, ambiguity and all; a
   * parenthesised expression yields the tree of the expression inside.
   */
  predicate Derives(ts: seq<Token>, i: nat, j: nat, e: Expr)
    requires i <= j <= |ts|
    decreases j - i, 1
  {
    || (j == i + 1 && ts[i].Number? && e == NumNode(ts[i].d))
    || (i + 2 <= j && ts[i] == LParen && ts[j - 1] == RParen && Derives(ts, i + 1, j - 1, e))
    || (exists k :: i < k < j - 1 && SumAt(ts, i, k, j, e))
  }

  /** `ts[i..j]` derives the sum `e` by splitting at a "+" at `k`. */
  predicate SumAt(ts: seq<Token>, i: nat, k: int, j: nat, e: Expr)
    requires i <= j <= |ts|
    decreases j - i, 0
  {
    e.AddNode? && i < k < j - 1 && ts[k] == Plus && Derives(ts, i, k, e.l) && Derives(ts, k + 1, j, e.r)
  }

  /** `ts[i..j]` is a number or a parenthesised expression that yields `e`. */
  predicate AtomDerives(ts: seq<Token>, i: nat, j: nat, e: Expr)
    requires i <= j <= |ts|
    decreases j - i, 0
  {
    || (j == i + 1 && ts[i].Number? && e == NumNode(ts[i].d))
    || (i + 2 <= j && ts[i] == LParen && ts[j - 1] == RParen && LeftDerives(ts, i + 1, j - 1, e))
  }

  /**
   * `ts[i..j]` derives `e` with the ambiguity resolved as a left-associative
   * "+" resolves it: the right operand of every sum is an atom.
   */
  predicate LeftDerives(ts: seq<Token>, i: nat, j: nat, e: Expr)
    requires i <= j <= |ts|
    decreases j - i, 1
  {
    || AtomDerives(ts, i, j, e)
    || (exists k :: i < k < j - 1 && LeftSumAt(ts, i, k, j, e))
  }

  /** `ts[i..j]` derives the sum `e` with its last "+" at `k`, the right operand an atom. */
  predicate LeftSumAt(ts: seq<Token>, i: nat, k: int, j: nat, e: Expr)
    requires i <= j <= |ts|
    decreases j - i, 0
  {
    e.AddNode? && i < k < j - 1 && ts[k] == Plus && LeftDerives(ts, i, k, e.l) && AtomDerives(ts, k + 1, j, e.r)
  }

  // ---------------------------------------------------------------------
  // The parser finds exactly the left-associative derivations

  lemma {:induction false} AtomSound(ts: seq<Token>, i: nat)
    requires i <= |ts| && ParseAtom(ts, i).Ok?
    ensures AtomDerives(ts, i, ParseAtom(ts, i).value.1, ParseAtom(ts, i).value.0)
    decreases |ts| - i, 0
  {
    if ts[i] == LParen {
      ExprSound(ts, i + 1);
    }
  }

  lemma {:induction false} ExprSound(ts: seq<Token>, i: nat)
    requires i <= |ts| && ParseExpr(ts, i).Ok?
    ensures LeftDerives(ts, i, ParseExpr(ts, i).value.1, ParseExpr(ts, i).value.0)
    decreases |ts| - i, 1
  {
    var (a, q) := ParseAtom(ts, i).value;
    AtomSound(ts, i);
    TailSound(ts, i, q, a);
  }

  lemma {:induction false} TailSound(ts: seq<Token>, i: nat, p: nat, acc: Expr)
    requires i < p <= |ts| && LeftDerives(ts, i, p, acc) && ParseTail(ts, p, acc).Ok?
    ensures LeftDerives(ts, i, ParseTail(ts, p, acc).value.1, ParseTail(ts, p, acc).value.0)
    decreases |ts| - p, 1
  {
    if p < |ts| && ts[p] == Plus {
      var (a, q) := ParseAtom(ts, p + 1).value;
      AtomSound(ts, p + 1);
      assert LeftSumAt(ts, i, p, q, AddNode(acc, a));
      TailSound(ts, i, q, AddNode(acc, a));
    }
  }

  /** What the parser returns is a left-associative derivation of all the tokens. */
  lemma ParseSound(ts: seq<Token>)
    requires Parse(ts).Ok?
    ensures LeftDerives(ts, 0, |ts|, Parse(ts).value)
  {
    ExprSound(ts, 0);
  }

  lemma {:induction false} AtomComplete(ts: seq<Token>, i: nat, j: nat, e: Expr)
    requires i <= j <= |ts| && AtomDerives(ts, i, j, e)
    ensures ParseAtom(ts, i) == Ok((e, j))
    decreases j - i, 0
  {
    if !(j == i + 1 && ts[i].Number?) {
      ExprComplete(ts, i + 1, j - 1, e);
    }
  }

  lemma {:induction false} ExprComplete(ts: seq<Token>, i: nat, j: nat, e: Expr)
    requires i <= j <= |ts| && LeftDerives(ts, i, j, e)
    ensures ParseExpr(ts, i) == ParseTail(ts, j, e)
    decreases j - i, 1
  {
    if AtomDerives(ts, i, j, e) {
      AtomComplete(ts, i, j, e);
    } else {
      var k :| i < k < j - 1 && LeftSumAt(ts, i, k, j, e);
      assert LeftSumAt(ts, i, k, j, e);
      ExprComplete(ts, i, k, e.l);
      AtomComplete(ts, k + 1, j, e.r);
    }
  }

  /** Every left-associative derivation of all the tokens is what the parser returns. */
  lemma ParseComplete(ts: seq<Token>, e: Expr)
    requires LeftDerives(ts, 0, |ts|, e)
    ensures Parse(ts) == Ok(e)
  {
    ExprComplete(ts, 0, |ts|, e);
  }

  /** With "+" left-associative the grammar is unambiguous: a token sequence has at most one tree. */
  lemma LeftDerivationUnique(ts: seq<Token>, e1: Expr, e2: Expr)
    requires LeftDerives(ts, 0, |ts|, e1) && LeftDerives(ts, 0, |ts|, e2)
    ensures e1 == e2
  {
    ParseComplete(ts, e1);
    ParseComplete(ts, e2);
  }

  // ---------------------------------------------------------------------
  // Associativity changes the shape of a tree, not its leaves

  lemma {:induction false} AtomIsDerivation(ts: seq<Token>, i: nat, j: nat, e: Expr)
    requires i <= j <= |ts| && AtomDerives(ts, i, j, e)
    ensures Derives(ts, i, j, e)
    decreases j - i, 0
  {
    if !(j == i + 1 && ts[i].Number?) {
      LeftIsDerivation(ts, i + 1, j - 1, e);
    }
  }

  /** A left-associative derivation is a derivation of the grammar as written. */
  lemma {:induction false} LeftIsDerivation(ts: seq<Token>, i: nat, j: nat, e: Expr)
    requires i <= j <= |ts| && LeftDerives(ts, i, j, e)
    ensures Derives(ts, i, j, e)
    decreases j - i, 1
  {
    if AtomDerives(ts, i, j, e) {
      AtomIsDerivation(ts, i, j, e);
    } else {
      var k :| i < k < j - 1 && LeftSumAt(ts, i, k, j, e);
      assert LeftSumAt(ts, i, k, j, e);
      LeftIsDerivation(ts, i, k, e.l);
      AtomIsDerivation(ts, k + 1, j, e.r);
      assert SumAt(ts, i, k, j, e);
    }
  }

  /** The numbers among `ts[i..j]`, in order. */
  function NumbersIn(ts: seq<Token>, i: nat, j: nat): seq<Decimal>
    requires i <= j <= |ts|
    decreases j - i
  {
    if i == j then []
    else NumbersIn(ts, i, j - 1) + if ts[j - 1].Number? then [ts[j - 1].d] else []
  }

  lemma {:induction false} NumbersInSplit(ts: seq<Token>, i: nat, k: nat, j: nat)
    requires i <= k <= j <= |ts|
    ensures NumbersIn(ts, i, j) == NumbersIn(ts, i, k) + NumbersIn(ts, k, j)
    decreases j - k
  {
    if k < j {
      NumbersInSplit(ts, i, k, j - 1);
      var last := if ts[j - 1].Number? then [ts[j - 1].d] else [];
      ConcatAssoc(NumbersIn(ts, i, k), NumbersIn(ts, k, j - 1), last);
    } else {
      assert NumbersIn(ts, i, k) + [] == NumbersIn(ts, i, k);
    }
  }

  /** A token that is no number adds nothing at the front of a span. */
  lemma {:induction false} NumbersInDropFirst(ts: seq<Token>, i: nat, j: nat)
    requires i < j <= |ts| && !ts[i].Number?
    ensures NumbersIn(ts, i, j) == NumbersIn(ts, i + 1, j)
    decreases j - i
  {
    if j == i + 1 {
      assert NumbersIn(ts, i, j) == [] + [];
    } else {
      NumbersInDropFirst(ts, i, j - 1);
    }
  }

  lemma NumbersInParens(ts: seq<Token>, i: nat, j: nat)
    requires i + 2 <= j <= |ts| && ts[i] == LParen && ts[j - 1] == RParen
    ensures NumbersIn(ts, i, j) == NumbersIn(ts, i + 1, j - 1)
  {
    var m := NumbersIn(ts, i, j - 1);
    assert NumbersIn(ts, i, j) == m + [];
    NumbersInDropFirst(ts, i, j - 1);
  }

  lemma NumbersInSum(ts: seq<Token>, i: nat, k: nat, j: nat)
    requires i <= k < j <= |ts| && ts[k] == Plus
    ensures NumbersIn(ts, i, j) == NumbersIn(ts, i, k) + NumbersIn(ts, k + 1, j)
  {
    NumbersInSplit(ts, i, k + 1, j);
    assert NumbersIn(ts, i, k + 1) == NumbersIn(ts, i, k) + [];
    assert NumbersIn(ts, i, k) + [] == NumbersIn(ts, i, k);
  }

  /** The leaves of any tree of the grammar are the number tokens, in the order they come. */
  lemma {:induction false} LeavesAreNumbers(ts: seq<Token>, i: nat, j: nat, e: Expr)
    requires i <= j <= |ts| && Derives(ts, i, j, e)
    ensures Leaves(e) == NumbersIn(ts, i, j)
    decreases j - i
  {
    if j == i + 1 && ts[i].Number? && e == NumNode(ts[i].d) {
      assert NumbersIn(ts, i, j) == [] + [ts[i].d];
    } else if i + 2 <= j && ts[i] == LParen && ts[j - 1] == RParen && Derives(ts, i + 1, j - 1, e) {
      LeavesAreNumbers(ts, i + 1, j - 1, e);
      NumbersInParens(ts, i, j);
    } else {
      var k :| i < k < j - 1 && SumAt(ts, i, k, j, e);
      assert SumAt(ts, i, k, j, e);
      LeavesAreNumbers(ts, i, k, e.l);
      LeavesAreNumbers(ts, k + 1, j, e.r);
      LeavesOfSum(ts, i, k, j, e);
    }
  }

  lemma LeavesOfSum(ts: seq<Token>, i: nat, k: nat, j: nat, e: Expr)
    requires i <= k < j <= |ts| && ts[k] == Plus && e.AddNode?
    requires Leaves(e.l) == NumbersIn(ts, i, k) && Leaves(e.r) == NumbersIn(ts, k + 1, j)
    ensures Leaves(e) == NumbersIn(ts, i, j)
  {
    NumbersInSum(ts, i, k, j);
  }

  /** The parser's tree has the numbers of the input as its leaves, left to right. */
  lemma ParsedLeavesInTokenOrder(ts: seq<Token>)
    requires Parse(ts).Ok?
    ensures Leaves(Parse(ts).value) == NumbersIn(ts, 0, |ts|)
  {
    ParseSound(ts);
    LeftIsDerivation(ts, 0, |ts|, Parse(ts).value);
    LeavesAreNumbers(ts, 0, |ts|, Parse(ts).value);
  }

  lemma {:induction false} AtomAccepts(ts: seq<Token>, i: nat, j: nat, e: Expr) returns (a: Expr)
    requires i <= j <= |ts| && Derives(ts, i, j, e)
    requires (j == i + 1 && ts[i].Number?) || (i + 2 <= j && ts[i] == LParen && ts[j - 1] == RParen && Derives(ts, i + 1, j - 1, e))
    ensures ParseAtom(ts, i) == Ok((a, j)) && Leaves(a) == Leaves(e)
    decreases j - i, 1
  {
    if j == i + 1 && ts[i].Number? {
      a := NumNode(ts[i].d);
      assert e == a;
    } else {
      a := ExprAccepts(ts, i + 1, j - 1, e);
    }
  }

  lemma {:induction false} ExprAccepts(ts: seq<Token>, i: nat, j: nat, e: Expr) returns (r: Expr)
    requires i <= j <= |ts| && Derives(ts, i, j, e)
    ensures ParseExpr(ts, i) == ParseTail(ts, j, r) && Leaves(r) == Leaves(e)
    decreases j - i, 2
  {
    if (j == i + 1 && ts[i].Number?) || (i + 2 <= j && ts[i] == LParen && ts[j - 1] == RParen && Derives(ts, i + 1, j - 1, e)) {
      r := AtomAccepts(ts, i, j, e);
    } else {
      var k :| i < k < j - 1 && SumAt(ts, i, k, j, e);
      assert SumAt(ts, i, k, j, e);
      var l := ExprAccepts(ts, i, k, e.l);
      r := TailAccepts(ts, k, j, l, e.r);
    }
  }

  lemma {:induction false} TailAccepts(ts: seq<Token>, p: nat, j: nat, acc: Expr, e: Expr) returns (r: Expr)
    requires p < j <= |ts| && ts[p] == Plus && Derives(ts, p + 1, j, e)
    ensures ParseTail(ts, p, acc) == ParseTail(ts, j, r) && Leaves(r) == Leaves(acc) + Leaves(e)
    decreases j - p - 1, 2
  {
    if (j == p + 2 && ts[p + 1].Number?) || (p + 3 <= j && ts[p + 1] == LParen && ts[j - 1] == RParen && Derives(ts, p + 2, j - 1, e)) {
      var a := AtomAccepts(ts, p + 1, j, e);
      r := AddNode(acc, a);
    } else {
      var k :| p + 1 < k < j - 1 && SumAt(ts, p + 1, k, j, e);
      assert SumAt(ts, p + 1, k, j, e);
      var l := TailAccepts(ts, p, k, acc, e.l);
      r := TailAccepts(ts, k, j, l, e.r);
      ConcatAssoc(Leaves(acc), Leaves(e.l), Leaves(e.r));
    }
  }

  /**
   * Every sentence of the grammar as written is accepted, and the tree the
   * parser builds has the same leaves, hence the same value, as any tree the
   * grammar allows: associativity only decides the shape.
   */
  lemma ParseAcceptsGrammar(ts: seq<Token>, e: Expr)
    requires Derives(ts, 0, |ts|, e)
    ensures Parse(ts).Ok?
    ensures Leaves(Parse(ts).value) == Leaves(e)
    ensures Compute(Parse(ts).value) == Compute(e)
  {
    var r := ExprAccepts(ts, 0, |ts|, e);
    SameLeavesSameValue(Parse(ts).value, e);
  }

  /** A parse error means that the tokens are no sentence of the grammar. */
  lemma ParseFailsOnlyOnNonSentences(ts: seq<Token>)
    requires Parse(ts).Err?
    ensures forall e :: !Derives(ts, 0, |ts|, e)
  {
    forall e | Derives(ts, 0, |ts|, e) ensures false {
      ParseAcceptsGrammar(ts, e);
    }
  }

  // ---------------------------------------------------------------------
  // Numbers, parentheses and chains of sums

  /** A single number parses to a number node. */
  lemma ParseNumber(d: Decimal)
    ensures Parse([Number(d)]) == Ok(NumNode(d))
  {
    assert AtomDerives([Number(d)], 0, 1, NumNode(d));
    ParseComplete([Number(d)], NumNode(d));
  }

  /** The two sequences agree on `ts[i..j]`, `us` displaced by `d`. */
  predicate SameTokens(ts: seq<Token>, us: seq<Token>, d: nat, i: nat, j: nat)
    requires i <= j <= |ts| && j + d <= |us|
  {
    forall x :: i <= x < j ==> us[x + d] == ts[x]
  }

  lemma {:induction false} AtomShift(ts: seq<Token>, us: seq<Token>, d: nat, i: nat, j: nat, e: Expr)
    requires i <= j <= |ts| && j + d <= |us| && SameTokens(ts, us, d, i, j) && AtomDerives(ts, i, j, e)
    ensures AtomDerives(us, i + d, j + d, e)
    decreases j - i, 0
  {
    if !(j == i + 1 && ts[i].Number?) {
      LeftShift(ts, us, d, i + 1, j - 1, e);
    }
  }

  /** A derivation depends only on the tokens it spans, not on where they sit. */
  lemma {:induction false} LeftShift(ts: seq<Token>, us: seq<Token>, d: nat, i: nat, j: nat, e: Expr)
    requires i <= j <= |ts| && j + d <= |us| && SameTokens(ts, us, d, i, j) && LeftDerives(ts, i, j, e)
    ensures LeftDerives(us, i + d, j + d, e)
    decreases j - i, 1
  {
    if AtomDerives(ts, i, j, e) {
      AtomShift(ts, us, d, i, j, e);
    } else {
      var k :| i < k < j - 1 && LeftSumAt(ts, i, k, j, e);
      assert LeftSumAt(ts, i, k, j, e);
      LeftShift(ts, us, d, i, k, e.l);
      AtomShift(ts, us, d, k + 1, j, e.r);
      assert us[k + d] == Plus;
      assert LeftSumAt(us, i + d, k + d, j + d, e);
    }
  }

  /** Where the parts of `a + [Plus] + b` stand in it. */
  lemma SameAround(a: seq<Token>, b: seq<Token>)
    ensures var us := a + [Plus] + b;
      SameTokens(a, us, 0, 0, |a|) && SameTokens(b, us, |a| + 1, 0, |b|) && us[|a|] == Plus
  {
  }

  lemma AtomNonEmpty(ts: seq<Token>, i: nat, j: nat, e: Expr)
    requires i <= j <= |ts| && AtomDerives(ts, i, j, e)
    ensures i < j
  {
  }

  lemma LeftNonEmpty(ts: seq<Token>, i: nat, j: nat, e: Expr)
    requires i <= j <= |ts| && LeftDerives(ts, i, j, e)
    ensures i < j
  {
  }

  /** An expression put in parentheses is an atom that yields the same tree. */
  lemma AtomInParens(ts: seq<Token>, e: Expr)
    requires LeftDerives(ts, 0, |ts|, e)
    ensures AtomDerives([LParen] + ts + [RParen], 0, |ts| + 2, e)
  {
    var us := [LParen] + ts + [RParen];
    assert SameTokens(ts, us, 1, 0, |ts|);
    LeftShift(ts, us, 1, 0, |ts|, e);
    assert us[0] == LParen && us[|ts| + 1] == RParen;
  }

  /** A "+" at `k` between a left-associative derivation and an atom derives their sum. */
  lemma SumIntro(ts: seq<Token>, i: nat, k: nat, j: nat, l: Expr, r: Expr)
    requires i < k < j - 1 && j <= |ts| && ts[k] == Plus
    requires LeftDerives(ts, i, k, l) && AtomDerives(ts, k + 1, j, r)
    ensures LeftDerives(ts, i, j, AddNode(l, r))
  {
    assert LeftSumAt(ts, i, k, j, AddNode(l, r));
  }

  /** An expression, a "+" and an atom derive the sum of the two. */
  lemma SumDerives(a: seq<Token>, b: seq<Token>, l: Expr, r: Expr)
    requires LeftDerives(a, 0, |a|, l) && AtomDerives(b, 0, |b|, r)
    ensures LeftDerives(a + [Plus] + b, 0, |a + [Plus] + b|, AddNode(l, r))
  {
    var us := a + [Plus] + b;
    var k, n := |a|, |us|;
    SameAround(a, b);
    LeftShift(a, us, 0, 0, k, l);
    AtomShift(b, us, k + 1, 0, |b|, r);
    LeftNonEmpty(a, 0, k, l);
    AtomNonEmpty(b, 0, |b|, r);
    SumIntro(us, 0, k, n, l, r);
  }

  /** Parentheses around a well-formed expression yield the same tree as the expression. */
  lemma ParensTransparent(ts: seq<Token>)
    requires Parse(ts).Ok?
    ensures Parse([LParen] + ts + [RParen]) == Parse(ts)
  {
    var e := Parse(ts).value;
    ParseSound(ts);
    AtomInParens(ts, e);
    ParseComplete([LParen] + ts + [RParen], e);
  }

  /** The tokens of `ds[0] + ds[1] + ... `, without parentheses. */
  function Chain(ds: seq<Decimal>): (ts: seq<Token>)
    requires |ds| >= 1
    ensures |ts| == 2 * |ds| - 1
  {
    if |ds| == 1 then [Number(ds[0])] else Chain(ds[..|ds| - 1]) + [Plus, Number(ds[|ds| - 1])]
  }

  /** The tree that sums `ds` from the left: ((ds[0] + ds[1]) + ds[2]) + ... */
  function FoldLeft(ds: seq<Decimal>): Expr
    requires |ds| >= 1
  {
    if |ds| == 1 then NumNode(ds[0]) else AddNode(FoldLeft(ds[..|ds| - 1]), NumNode(ds[|ds| - 1]))
  }

  lemma {:induction false} ChainDerivesFoldLeft(ds: seq<Decimal>)
    requires |ds| >= 1
    ensures LeftDerives(Chain(ds), 0, |Chain(ds)|, FoldLeft(ds))
  {
    if |ds| > 1 {
      var init := ds[..|ds| - 1];
      var ts, us := Chain(init), Chain(ds);
      ChainDerivesFoldLeft(init);
      LeftShift(ts, us, 0, 0, |ts|, FoldLeft(init));
      assert us[|ts|] == Plus;
      assert AtomDerives(us, |ts| + 1, |us|, NumNode(ds[|ds| - 1]));
      assert LeftSumAt(us, 0, |ts|, |us|, FoldLeft(ds));
    }
  }

  /** "+" is left-associative: a chain of sums parses to the tree that adds from the left. */
  lemma ChainIsLeftAssociative(ds: seq<Decimal>)
    requires |ds| >= 1
    ensures Parse(Chain(ds)) == Ok(FoldLeft(ds))
  {
    ChainDerivesFoldLeft(ds);
    ParseComplete(Chain(ds), FoldLeft(ds));
  }

  /** a + b + c is (a + b) + c. */
  lemma ThreeTermsGroupLeft(a: Decimal, b: Decimal, c: Decimal)
    ensures Parse([Number(a), Plus, Number(b), Plus, Number(c)])
         == Ok(AddNode(AddNode(NumNode(a), NumNode(b)), NumNode(c)))
  {
    var ds := [a, b, c];
    assert ds[..2] == [a, b] && [a, b][..1] == [a];
    assert Chain([a, b]) == [Number(a), Plus, Number(b)];
    assert Chain(ds) == [Number(a), Plus, Number(b), Plus, Number(c)];
    assert FoldLeft([a, b]) == AddNode(NumNode(a), NumNode(b));
    ChainIsLeftAssociative(ds);
  }

}
