# A verified model of a small sly calculator

The program reads one line holding decimal numbers, `+` and parentheses. It
turns the line into an expression tree and computes the tree's value. There
are three stages:

- the tokenizer `ExampleLexer`, an ordered set of rules:
  - the characters `' \r\t\n'` are skipped;
  - a `#` comment running up to the next newline is skipped;
  - a NUMBER `[0-9]+\.[0-9]+` emits a number token;
  - the literals `+ ( )` emit their own tokens;
  - anything else is an illegal character;
- the parser `ExampleParser`, with the grammar
  `expr : NUMBER | "(" expr ")" | expr "+" expr` and `+` declared
  left-associative;
- the tree: `NumNode` and `AddNode`, each able to `compute` its value and
  render itself as text (`(left)+(right)` for a sum).

The driver `parse` runs the tokenizer, then the parser.

The Dafny modules follow that structure:

- `Results`: the `Result` datatype.
- `Ast`: decimal literals, the tree, `Compute`, `Render`, and the leaves of
  a tree.
- `Lexer`: the rules, the reference function `Lex`, and the imperative
  tokenizer `Tokenize`, a `while` loop over an index proved equal to `Lex`.
- `LexerFacts`: what the rules imply for whole texts:
  - where tokenizing fails;
  - that whitespace and comments between tokens change nothing;
  - that every text that tokenizes is such a spelling.
- `Parser`: the parser, `Parse`, as recursive-descent functions. It is
  proved against two reference definitions:
  - `Derives`, the grammar as written, ambiguity included;
  - `LeftDerives`, the grammar with `+` resolved to the left.
- `Pipeline`: the driver, as a function `ParseText` and a method
  `ParseLine`, plus the round trip from rendering back to parsing.
- `Scenarios`: concrete lines and what becomes of them.

Numbers are kept as the digit strings NUMBER matched (`Decimal(whole,
frac)`) and given their exact value as a `real`.

## Model

| member | source | states |
|---|---|---|
| LexerFacts.StepEmitsToken | main.py:15-42 | when the rule step (`Step`, with `NumberLen` and `NumberToken`) emits a token, it emits one, the characters it consumed are that token's own text, a number is not followed by a further digit, and neither skip rule applied there |
| LexerFacts.StepSkips | main.py:18-28 | when the rule step emits nothing, it skipped one ignored character, or a `#` and everything up to the next newline or the end of the text (`CommentLen`) |
| LexerFacts.StepFails | main.py:15-42 | the rule step fails at a position exactly when its character is not ignored, no `#` and no literal, and no decimal's text stands there without a further digit after it (both directions) |
| Lexer.Tokenize | main.py:8-42 | the scanning loop returns exactly the reference tokenizing `Lex(s, 0)` (`Lex`/`LexAt`): the tokens of every lexeme in order, or the first illegal character |
| Lexer.LexFailsWhereNoRuleMatches | main.py:8-42 | a tokenizing error names a character of the input, at its own offset, at which no rule matches |
| Lexer.CommentStopsAtNewline | main.py:28 | a comment contains no newline and ends at a newline or at the end of the text |
| Lexer.NumberLexeme | main.py:34 | what NUMBER matches is one or more digits, a point and one or more digits, and the match is not followed by another digit |
| Lexer.DigitRunIsDigits | main.py:34 | the greedy digit run is all digits and stops at a non-digit or the end |
| Lexer.NumberTokenText | main.py:34-42 | the number token is spelled with exactly the characters the rule consumed |
| LexerFacts.NumberAt | main.py:34-42 | the text of a decimal followed by a non-digit is matched whole by NUMBER and gives back that decimal |
| LexerFacts.LexToken | main.py:15-42 | a token's own text, followed by nothing that could extend it, lexes to that one token |
| LexerFacts.DigitWithoutNumberFails | main.py:34 | a digit where NUMBER does not match makes tokenizing fail at that digit |
| LexerFacts.BareIntegerRejected | main.py:34 | a bare integer (digits not followed by a point) is no number: tokenizing fails at its first digit |
| LexerFacts.SkipIgnorable | main.py:18-28 | ignored characters and closed comments produce no tokens |
| LexerFacts.BlankLexesToNothing | main.py:18-28 | whitespace and comments at the end of a line, the last comment possibly unclosed, produce no tokens |
| LexerFacts.LexSpell | main.py:8-42 | a text made of tokens with whitespace and comments between them lexes to exactly those tokens |
| LexerFacts.LexSpelled | main.py:17-28 | whatever well-spaced whitespace and comments are put between tokens, the same tokens come out |
| LexerFacts.LexedIsSpelled | main.py:8-42 | conversely, every text that tokenizes is its tokens' texts with only whitespace and comments between them |
| LexerFacts.UncoveredCharFails | main.py:8-42 | a character no rule covers makes tokenizing fail, at it or earlier, when every comment that starts before it ends before it |
| Ast.DecimalValue | main.py:41 | a number's value (`Value`) is the integer all its digits denote, divided by ten to the number of digits after the point |
| Ast.ValueBetween | main.py:41 | the digits before the point are the integer part of a number's value, the digits after it a fraction below one |
| Ast.ComputeIsSumOfLeaves | main.py:58-82 | `Compute`, the `compute` of both node kinds: a tree's value is the sum of the values of its leaves, whatever its shape |
| Ast.SameLeavesSameValue | main.py:79-82 | trees with the same leaves in the same order have the same value |
| Parser.ParseAtom | main.py:104-112 | parsing a number or a parenthesised expression consumes at least one token and stays in the input; an error names a token at or after the start |
| Parser.ParseTail | main.py:98-117 | extending a sum with "+ atom" never goes back; an error names a token at or after the position reached |
| Parser.ExprSound | main.py:104-117 | what `ParseExpr` returns from a position is a left-associative derivation of the tokens it consumed |
| Parser.ExprComplete | main.py:104-117 | every left-associative derivation of a stretch of tokens is what `ParseExpr` finds there, with any further "+ atom" left to extend it |
| Parser.Parse | main.py:89-117 | a parse error names a token of the sequence at its index, or the end of the input |
| Parser.ParseSound | main.py:89-117 | what the parser returns is a derivation of all the tokens by the grammar with "+" left-associative |
| Parser.ParseComplete | main.py:89-117 | every left-associative derivation of all the tokens is what the parser returns |
| Parser.LeftDerivationUnique | main.py:98-100 | with "+" left-associative, a token sequence has at most one tree |
| Parser.LeftIsDerivation | main.py:104-117 | a left-associative derivation is a derivation of the grammar as written |
| Parser.ParseAcceptsGrammar | main.py:104-117 | every sentence of the grammar as written is accepted, with the same leaves and value as any of its trees |
| Parser.ParseFailsOnlyOnNonSentences | main.py:104-117 | a parse error means that no tree of the grammar spans the tokens |
| Parser.LeavesAreNumbers | main.py:104-117 | the leaves of any tree of the grammar are the number tokens in order |
| Parser.ParsedLeavesInTokenOrder | main.py:104-117 | the parser's tree has the input's numbers as its leaves, left to right |
| Parser.ParseNumber | main.py:105-107 | a single NUMBER parses to a number node holding it |
| Parser.ParensTransparent | main.py:110-112 | parentheses around a well-formed expression give the tree of the expression |
| Parser.ChainIsLeftAssociative | main.py:90-100 | a chain `a + b + c + ...` parses to the tree that adds from the left |
| Parser.ThreeTermsGroupLeft | main.py:90-95 | `a + b + c` parses as `(a + b) + c` |
| Pipeline.ParseLine | main.py:121-124 | tokenizing then parsing gives `ParseText`; a tokenizing error names the character at an offset at which no rule matches |
| Pipeline.TextsOfTokens | main.py:67-86 | a tree's rendering (`Render`, the `__str__` of both node kinds) is the texts of its own tokens run together |
| Pipeline.TokensDeriveTree | main.py:104-117 | a tree's own tokens derive exactly that tree with "+" left-associative |
| Pipeline.LexTexts | main.py:8-42 | tokens with no two numbers side by side, their texts run together, lex back to themselves |
| Pipeline.RenderRoundTrip | main.py:67-86 | parsing a tree's rendering (`ParseText` of `Render`) gives back the same tree |
| Pipeline.RenderIsFixedPoint | main.py:121-124 | rendering a parsed line, parsing that and rendering again yields the same text |
| Pipeline.SpacingIrrelevant | main.py:17-28 | whitespace and comments between the tokens of a line do not change what it parses to, nor the parse error |
| Pipeline.ValueIsSumOfNumbers | main.py:79-82 | the value of a parsed line is the sum of the numbers in it, however "+" groups them |
| Scenarios.ParseOnePlusTwo | main.py:121-124 | "1.0+2.0" is the sum of the two numbers |
| Scenarios.SumOfThree | main.py:90-95 | "1.0+2.0+3.0" groups to the left |
| Scenarios.SumOfThreeShown | main.py:79-86 | that tree renders as "((1.0)+(2.0))+(3.0)" and computes to 6 |
| Scenarios.RedundantParens | main.py:110-112 | "(1.0+2.0)" parses to the same tree as "1.0+2.0" |
| Scenarios.SpacesAndComment | main.py:17-28 | "1.0 #c\n+ 2.0" parses as "1.0+2.0" does |
| Scenarios.IntegersRejected | main.py:34 | "3+4" fails at its first character |
| Scenarios.UnclosedParen | main.py:110-112 | "(1.0+2.0" runs into the end of the input |
| Scenarios.StrayParen | main.py:121-124 | in "1.0+2.0)" the closing parenthesis, the fourth token, is unexpected |
| Scenarios.UnknownCharacter | main.py:8-42 | "1.0@2.0" fails at "@", offset 3 |
| Scenarios.CommentThenUnknownCharacter | main.py:18-28 | in "#x\n@" the comment ends at the newline, so the line fails at "@", offset 3 |

## Left out

- The read loop and output (main.py:127-139): prompting, reading lines, printing the tree, the value and exception messages. This is I/O around `parse`.
- Floating point (main.py:41): a number's value is the exact real its digits denote, and `Compute` adds exactly. The program converts with `float` and adds binary floats.
- Formatting with `str(float)` (main.py:69): `Render` writes a number with the digits it was written with. Python writes the shortest repr instead: "1.50" becomes "1.5", and some values get exponent form ("0.00001" becomes "1e-05"). NUMBER does not match exponent form, so in the program the round trip fails for such values. `RenderRoundTrip` holds for the digit rendering.
- Errors are values, without sly's messages or recovery. A lexing error is the illegal character and its offset. A parse error is the unexpected token and its index in the token sequence, or the end of input. sly's default parser error handler, which reports and tries to resynchronise, is library code and is not part of this model. The model stops at the first error.
- Tokenizing runs over the whole line before parsing; sly tokenizes lazily as the parser asks for tokens. After a syntax error sly's parser keeps pulling tokens to the end of the line, so an illegal character anywhere on the line is still reported.
- Token positions and line numbers (sly's `lineno` and `index` attributes) are not kept. The module defines no newline rule that would update them.
- The abstract base class `ASTNode` (main.py:48-55), whose methods raise `NotImplementedError`: the tree is a closed datatype with two variants, so there is no third kind of node.
- LexerFacts.UncoveredCharFails: places the error at or before the character, not exactly at it, because an earlier character may fail first. It requires every comment that starts before the character to end before it, since a comment still open there swallows the character.
