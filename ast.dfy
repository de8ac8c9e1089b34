/**
 * The expression tree: a number leaf or the sum of two subtrees, with the two
 * operations every node has, computing its value and rendering itself as text.
 */
module Ast {

  predicate IsDigit(c: char) {
    '0' <= c <= '9'
  }

  predicate AllDigits(s: string) {
    forall i :: 0 <= i < |s| ==> IsDigit(s[i])
  }

  /** A non-empty run of decimal digits, one side of a NUMBER lexeme. */
  type Digits = s: string | |s| > 0 && AllDigits(s) witness "0"

  /**
   * A number exactly as the NUMBER rule matched it: the digits before the
   * point and the digits after it.
   */
  datatype Decimal = Decimal(whole: Digits, frac: Digits)

  function DigitValue(c: char): (v: nat)
    requires IsDigit(c)
    ensures v < 10
  {
    c as int - '0' as int
  }

  /** The natural number a string of digits denotes, most significant digit first. */
  function DigitsValue(s: string): nat
    requires AllDigits(s)
  {
    if s == [] then 0 else DigitsValue(s[..|s| - 1]) * 10 + DigitValue(s[|s| - 1])
  }

  function Pow10(n: nat): (p: nat)
    ensures p >= 1
  {
    if n == 0 then 1 else 10 * Pow10(n - 1)
  }

  /** The exact value of a decimal literal. */
  function Value(d: Decimal): real {
    DigitsValue(d.whole) as real + DigitsValue(d.frac) as real / Pow10(|d.frac|) as real
  }

  lemma AllDigitsConcat(a: string, b: string)
    requires AllDigits(a) && AllDigits(b)
    ensures AllDigits(a + b)
  {
    forall i | 0 <= i < |a + b| ensures IsDigit((a + b)[i]) {
      if i >= |a| {
        assert (a + b)[i] == b[i - |a|];
      }
    }
  }

  lemma AllDigitsPrefix(s: string, n: nat)
    requires AllDigits(s) && n <= |s|
    ensures AllDigits(s[..n])
  {
    forall i | 0 <= i < n ensures IsDigit(s[..n][i]) {
      assert s[..n][i] == s[i];
    }
  }

  /** Digits written after others scale those by a power of ten and add their own value. */
  lemma {:induction false} DigitsValueConcat(a: string, b: string)
    requires AllDigits(a) && AllDigits(b)
    ensures AllDigits(a + b)
    ensures DigitsValue(a + b) == DigitsValue(a) * Pow10(|b|) + DigitsValue(b)
    decreases |b|
  {
    AllDigitsConcat(a, b);
    if b == [] {
      assert a + b == a;
    } else {
      var b' := b[..|b| - 1];
      var c := DigitValue(b[|b| - 1]);
      AllDigitsPrefix(b, |b| - 1);
      assert (a + b)[..|a + b| - 1] == a + b';
      DigitsValueConcat(a, b');
      assert (a + b)[|a + b| - 1] == b[|b| - 1];
      Regroup(DigitsValue(a), Pow10(|b'|), DigitsValue(b'), c);
    }
  }

  lemma Regroup(x: int, p: int, y: int, c: int)
    ensures (x * p + y) * 10 + c == x * (p * 10) + (y * 10 + c)
  {
  }

  /** A digit string is below ten to the power of its length. */
  lemma {:induction false} DigitsValueBound(s: string)
    requires AllDigits(s)
    ensures DigitsValue(s) < Pow10(|s|)
    decreases |s|
  {
    if s != [] {
      AllDigitsPrefix(s, |s| - 1);
      DigitsValueBound(s[..|s| - 1]);
      var x, p := DigitsValue(s[..|s| - 1]), Pow10(|s| - 1);
      assert x + 1 <= p;
      assert x * 10 + 10 <= p * 10;
    }
  }

  lemma FractionBelowOne(x: real, y: real)
    requires 0.0 <= x < y
    ensures 0.0 <= x / y < 1.0
  {
  }

  /**
   * The value of a decimal literal is the integer all its digits denote,
   * divided by ten to the number of digits after the point.
   */
  lemma DecimalValue(d: Decimal)
    ensures AllDigits(d.whole + d.frac)
    ensures Value(d) == DigitsValue(d.whole + d.frac) as real / Pow10(|d.frac|) as real
  {
    DigitsValueConcat(d.whole, d.frac);
    ScaledSum(DigitsValue(d.whole), Pow10(|d.frac|), DigitsValue(d.frac));
  }

  lemma ScaledSum(w: nat, p: nat, f: nat)
    requires p > 0
    ensures w as real + f as real / p as real == (w * p + f) as real / p as real
  {
    assert (w * p) as real == w as real * p as real;
  }

  /** The digits before the point are the value's integer part; those after it are its fraction. */
  lemma ValueBetween(d: Decimal)
    ensures DigitsValue(d.whole) as real <= Value(d) < DigitsValue(d.whole) as real + 1.0
  {
    DigitsValueBound(d.frac);
    FractionBelowOne(DigitsValue(d.frac) as real, Pow10(|d.frac|) as real);
  }

  /** The text of a decimal literal: digits, a point, digits. */
  function Text(d: Decimal): string {
    d.whole + "." + d.frac
  }

  datatype Expr = NumNode(n: Decimal) | AddNode(l: Expr, r: Expr)

  /** The value of a tree: a leaf is its number, a sum adds its two children. */
  function Compute(e: Expr): real {
    match e
    case NumNode(n) => Value(n)
    case AddNode(l, r) => Compute(l) + Compute(r)
  }

  /** The fully parenthesised text of a tree. */
  function Render(e: Expr): string {
    match e
    case NumNode(n) => Text(n)
    case AddNode(l, r) => "(" + Render(l) + ")+(" + Render(r) + ")"
  }

  /** The leaves of a tree, left to right. */
  function Leaves(e: Expr): (ds: seq<Decimal>)
    ensures |ds| >= 1
  {
    match e
    case NumNode(n) => [n]
    case AddNode(l, r) => Leaves(l) + Leaves(r)
  }

  function Sum(ds: seq<Decimal>): real {
    if ds == [] then 0.0 else Value(ds[0]) + Sum(ds[1..])
  }

  /** Concatenation regroups freely. */
  lemma ConcatAssoc<T>(a: seq<T>, b: seq<T>, c: seq<T>)
    ensures a + (b + c) == (a + b) + c
  {
  }

  lemma {:induction false} SumConcat(a: seq<Decimal>, b: seq<Decimal>)
    ensures Sum(a + b) == Sum(a) + Sum(b)
  {
    if a != [] {
      assert (a + b)[1..] == a[1..] + b;
      SumConcat(a[1..], b);
    } else {
      assert a + b == b;
    }
  }

  /** Computing a tree adds up the values of its leaves, whatever the shape of the tree. */
  lemma {:induction false} ComputeIsSumOfLeaves(e: Expr)
    ensures Compute(e) == Sum(Leaves(e))
  {
    match e
    case NumNode(n) =>
      assert Leaves(e)[1..] == [];
    case AddNode(l, r) =>
      ComputeIsSumOfLeaves(l);
      ComputeIsSumOfLeaves(r);
      SumConcat(Leaves(l), Leaves(r));
  }

  /** Two trees with the same leaves in the same order have the same value. */
  lemma SameLeavesSameValue(e1: Expr, e2: Expr)
    requires Leaves(e1) == Leaves(e2)
    ensures Compute(e1) == Compute(e2)
  {
    ComputeIsSumOfLeaves(e1);
    ComputeIsSumOfLeaves(e2);
  }

}
