/**
 * Whole inputs worked through the grammar: concrete token sequences and the
 * tree, or the error, the parser produces for them.
 */
module Scenarios {
  import opened Wrappers
  import opened Tokens
  import opened Ast
  import opened Errors
  import opened Lookahead
  import opened Grammar
  import opened Precedence
  import opened Application
  import opened Scopes
  import opened Clauses

  function Tok(k: TokenKind, start: nat): Token
  {
    Token(k, Span(start, start + 1))
  }

  function NameTok(n: string, start: nat): Token
  {
    Tok(TokenKind.Name(n), start)
  }

  function NameAt(n: string, start: nat): Expr
  {
    Expr(Span(start, start + 1), ExprKind.Name(n))
  }

  /** A name no atom follows is an application of nothing: just the name. */
  lemma {:induction false} LoneName(toks: seq<Token>, pos: nat)
    requires pos < |toks| && toks[pos].kind.Name?
    requires pos + 1 == |toks| || !AtomStart(toks[pos + 1].kind)
    ensures ParseSuffix(toks, pos) == Ok(Parsed(Expr(toks[pos].span, ExprKind.Name(toks[pos].kind.name)), pos + 1))
  {
    MaybeAtomSingle(toks, pos);
    MaybeAtomNothing(toks, pos + 1);
    SuffixParsesRun(toks, pos, Expr(toks[pos].span, ExprKind.Name(toks[pos].kind.name)), pos + 1, [], pos + 1);
  }

  /** A name followed by neither an atom nor a `*`, `/` or `%` is a whole term. */
  lemma {:induction false} NameTerm(toks: seq<Token>, pos: nat)
    requires pos < |toks| && toks[pos].kind.Name?
    requires pos + 1 == |toks| || (!AtomStart(toks[pos + 1].kind) && BinOpOf(TermLevel, toks[pos + 1].kind).None?)
    ensures ParseTerm(toks, pos) == Ok(Parsed(Expr(toks[pos].span, ExprKind.Name(toks[pos].kind.name)), pos + 1))
  {
    var e := Expr(toks[pos].span, ExprKind.Name(toks[pos].kind.name));
    LoneName(toks, pos);
    assert Operand(toks, pos, TermLevel) == Ok(Parsed(e, pos + 1));
    BinOpParsesRun(toks, pos, TermLevel, e, pos + 1, [], pos + 1);
  }

  /** `f a b` is `(f a) b`, each application spanning from `f`, inside the top-level one-item tuple. */
  lemma {:induction false} ApplicationChain(toks: seq<Token>)
    requires toks == [NameTok("f", 0), NameTok("a", 2), NameTok("b", 4)]
    ensures var fa := Expr(Span(0, 3), Apply(NameAt("f", 0), NameAt("a", 2)));
            var fab := Expr(Span(0, 5), Apply(fa, NameAt("b", 4)));
            Parse(toks) == Ok(Expr(Span(0, 5), Tuple([fab])))
  {
    var f, a, b := NameAt("f", 0), NameAt("a", 2), NameAt("b", 4);
    MaybeAtomSingle(toks, 0);
    MaybeAtomSingle(toks, 1);
    MaybeAtomSingle(toks, 2);
    MaybeAtomNothing(toks, 3);
    assert AtomRun(toks, 3, [], 3);
    assert AtomRun(toks, 2, [b], 3);
    assert AtomRun(toks, 1, [a, b], 3);
    SuffixParsesRun(toks, 0, f, 1, [a, b], 3);
    ApplyAllSnoc(f, [a], b);
    ApplyAllSnoc(f, [], a);
    assert [a] + [b] == [a, b];
    var e := ApplyAll(f, [a, b]);
    LoneOperand(toks, 0, e, 3);
    ExprAfterLogical(toks, 0, e, 3);
    TopLevelLoneExpression(toks, e);
  }

  /** `a - b - c` is `(a - b) - c`; every node carries the span of `a`. */
  lemma {:induction false} SubtractionChain(toks: seq<Token>)
    requires toks == [NameTok("a", 0), Tok(Minus, 2), NameTok("b", 4), Tok(Minus, 6), NameTok("c", 8)]
    ensures var ab := Expr(Span(0, 1), Binary(Sub, NameAt("a", 0), NameAt("b", 4)));
            var abc := Expr(Span(0, 1), Binary(Sub, ab, NameAt("c", 8)));
            Parse(toks) == Ok(Expr(Span(0, 1), Tuple([abc])))
  {
    var a, b, c := NameAt("a", 0), NameAt("b", 4), NameAt("c", 8);
    NameTerm(toks, 0);
    NameTerm(toks, 2);
    NameTerm(toks, 4);
    var steps := [Step(Sub, b), Step(Sub, c)];
    assert Operand(toks, 0, ArithLevel) == Ok(Parsed(a, 1));
    assert Operand(toks, 2, ArithLevel) == Ok(Parsed(b, 3));
    assert Operand(toks, 4, ArithLevel) == Ok(Parsed(c, 5));
    assert OperatorRun(toks, 5, ArithLevel, [], 5);
    assert OperatorRun(toks, 3, ArithLevel, steps[1..], 5);
    assert OperatorRun(toks, 1, ArithLevel, steps, 5);
    BinOpParsesRun(toks, 0, ArithLevel, a, 1, steps, 5);
    FoldLeftSnoc(a, [Step(Sub, b)], Step(Sub, c));
    FoldLeftSnoc(a, [], Step(Sub, b));
    assert [Step(Sub, b)] + [Step(Sub, c)] == steps;
    var e := FoldLeft(a, steps);
    ArithIsLogical(toks, 0, e, 5);
    ExprAfterLogical(toks, 0, e, 5);
    TopLevelLoneExpression(toks, e);
  }

  /** `x ;` is a `Scope` holding `x` with its value discarded, spanning through the `;`. */
  lemma {:induction false} TerminatedName(toks: seq<Token>)
    requires toks == [NameTok("x", 0), Tok(Semicolon, 2)]
    ensures Parse(toks) == Ok(Expr(Span(0, 3), Scope([], [NameAt("x", 0)], true)))
  {
    var x := NameAt("x", 0);
    LoneName(toks, 0);
    LoneOperand(toks, 0, x, 1);
    ExprAfterLogical(toks, 0, x, 1);
    TopLevelTerminated(toks, x);
  }

  /**
   * `x ; y` is a `Scope` of both statements in order, whose value is kept:
   * `y` runs into the end of input, so it is a one-item tuple, and the scope
   * spans from `x` to the end of `y`.
   */
  lemma {:induction false} TwoStatements(toks: seq<Token>)
    requires toks == [NameTok("x", 0), Tok(Semicolon, 2), NameTok("y", 4)]
    ensures var t := Expr(Span(4, 5), Tuple([NameAt("y", 4)]));
            Parse(toks) == Ok(Expr(Span(0, 5), Scope([], [NameAt("x", 0), t], false)))
  {
    var x, y := NameAt("x", 0), NameAt("y", 4);
    var ends := {TokenKind.Semicolon} + {};
    LoneName(toks, 0);
    LoneOperand(toks, 0, x, 1);
    ExprAfterLogical(toks, 0, x, 1);
    TupleBare(toks, 0, ends, x, 1);
    var s1 := ExprStmt(x, Span(0, 3), true);
    assert ParseStatement(toks, 0, {}) == Ok(Parsed(s1, 2));
    LoneName(toks, 2);
    LoneOperand(toks, 2, y, 3);
    ExprAfterLogical(toks, 2, y, 3);
    TupleAtEndOfInput(toks, 2, ends, y);
    var t := Expr(Span(4, 5), Tuple([y]));
    var s2 := ExprStmt(t, t.span, false);
    assert ParseStatement(toks, 2, {}) == Ok(Parsed(s2, 3));
    var stmts := [s1, s2];
    assert stmts[1..] == [s2] && [s2][1..] == [];
    assert StmtRun(toks, 2, {}, [s2], 3);
    assert StmtRun(toks, 0, {}, stmts, 3);
    ScopeParsesRun(toks, 0, {}, stmts, 3);
    assert Declarations([s2]) == [] && Expressions([s2]) == [t];
    assert Declarations(stmts) == [] && Expressions(stmts) == [x, t];
  }

  /** `(x)` is the name `x` re-spanned over the parentheses. */
  lemma {:induction false} ParenthesizedName(toks: seq<Token>)
    requires toks == [Tok(OpenParen, 0), NameTok("x", 1), Tok(CloseParen, 2)]
    ensures var x := Expr(Span(0, 3), ExprKind.Name("x"));
            Parse(toks) == Ok(Expr(Span(0, 3), Tuple([x])))
  {
    var inner := NameAt("x", 1);
    LoneName(toks, 1);
    LoneOperand(toks, 1, inner, 2);
    ExprAfterLogical(toks, 1, inner, 2);
    var ends := {TokenKind.Semicolon} + {TokenKind.CloseParen};
    TupleBare(toks, 1, ends, inner, 2);
    assert ParseStatement(toks, 1, {TokenKind.CloseParen}) == Ok(Parsed(ExprStmt(inner, inner.span, false), 2));
    ScopeBareTail(toks, 1, {TokenKind.CloseParen}, inner, inner.span, 2);
    MaybeAtomParen(toks, 0);
    var x := Expr(Span(0, 3), ExprKind.Name("x"));
    SuffixParsesRun(toks, 0, x, 3, [], 3) by { MaybeAtomNothing(toks, 3); }
    LoneOperand(toks, 0, x, 3);
    ExprAfterLogical(toks, 0, x, 3);
    TopLevelLoneExpression(toks, x);
  }

  /** An unclosed `(x` fails at the end of input, with no span. */
  lemma {:induction false} UnclosedParen(toks: seq<Token>)
    requires toks == [Tok(OpenParen, 0), NameTok("x", 1)]
    ensures Parse(toks) == Err(ParseError(Unexpected(None), None))
  {
    var inner := NameAt("x", 1);
    LoneName(toks, 1);
    LoneOperand(toks, 1, inner, 2);
    ExprAfterLogical(toks, 1, inner, 2);
    TupleAtEndOfInput(toks, 1, {TokenKind.Semicolon} + {TokenKind.CloseParen}, inner);
    var t := Expr(inner.span, Tuple([inner]));
    assert ParseStatement(toks, 1, {TokenKind.CloseParen}) == Ok(Parsed(ExprStmt(t, t.span, false), 2));
    ScopeBareTail(toks, 1, {TokenKind.CloseParen}, t, t.span, 2);
    MaybeAtomParen(toks, 0);
    assert ParseSuffix(toks, 0) == Err(ParseError(Unexpected(None), None));
    OperandErrorPassesUp(toks, 0);
    TopLevelExpressionError(toks);
  }

  /** A stray `)` at the top level is rejected, naming the token but with no span. */
  lemma {:induction false} StrayCloseParen(toks: seq<Token>)
    requires toks == [Tok(CloseParen, 0)]
    ensures Parse(toks) == Err(ParseError(Unexpected(Some(Tok(CloseParen, 0))), None))
  {
    NoExpression(toks, 0);
    TopLevelExpressionError(toks);
  }

  /** `x, y` at the top level is a two-item tuple spanning from `x` to the comma. */
  lemma {:induction false} TopLevelPair(toks: seq<Token>)
    requires toks == [NameTok("x", 0), Tok(Comma, 1), NameTok("y", 3)]
    ensures Parse(toks) == Ok(Expr(Span(0, 2), Tuple([NameAt("x", 0), NameAt("y", 3)])))
  {
    var x, y := NameAt("x", 0), NameAt("y", 3);
    LoneName(toks, 0);
    LoneOperand(toks, 0, x, 1);
    ExprAfterLogical(toks, 0, x, 1);
    LoneName(toks, 2);
    LoneOperand(toks, 2, y, 3);
    ExprAfterLogical(toks, 2, y, 3);
    var ends := {TokenKind.Semicolon} + {};
    assert TupleLoop(toks, 3, ends, 0, 2, [x, y]) == Ok(Parsed(Expr(Span(0, 2), Tuple([x, y])), 3));
    assert TupleLoop(toks, 1, ends, 0, 1, [x]) == Ok(Parsed(Expr(Span(0, 2), Tuple([x, y])), 3)) by {
      assert [x] + [y] == [x, y];
    }
    var t := Expr(Span(0, 2), Tuple([x, y]));
    assert ParseTuple(toks, 0, ends) == Ok(Parsed(t, 3));
    assert ParseStatement(toks, 0, {}) == Ok(Parsed(ExprStmt(t, t.span, false), 3));
    ScopeBareTail(toks, 0, {}, t, t.span, 3);
  }

  /**
   * `x )` parses as the one-item tuple of `x`: the statement has no `;`, so
   * the scope stops after it, and nothing checks that the input is used up.
   */
  lemma {:induction false} TrailingTokenIgnored(toks: seq<Token>)
    requires toks == [NameTok("x", 0), Tok(CloseParen, 2)]
    ensures Parse(toks) == Ok(Expr(Span(0, 1), Tuple([NameAt("x", 0)])))
  {
    var x := NameAt("x", 0);
    LoneName(toks, 0);
    LoneOperand(toks, 0, x, 1);
    ExprAfterLogical(toks, 0, x, 1);
    var ends := {TokenKind.Semicolon} + {};
    var t := Expr(Span(0, 1), Tuple([x]));
    assert TupleLoop(toks, 1, ends, 0, 1, [x]) == Ok(Parsed(t, 1));
    assert ParseTuple(toks, 0, ends) == Ok(Parsed(t, 1));
    assert ParseStatement(toks, 0, {}) == Ok(Parsed(ExprStmt(t, t.span, false), 1));
    ScopeBareTail(toks, 0, {}, t, t.span, 1);
  }

  /**
   * `x ,` at the end of input is rejected: the comma demands another item,
   * and there is no token left to start one.
   */
  lemma {:induction false} TrailingCommaAtEnd(toks: seq<Token>)
    requires toks == [NameTok("x", 0), Tok(Comma, 1)]
    ensures Parse(toks) == Err(ParseError(Unexpected(None), None))
  {
    var x := NameAt("x", 0);
    var err := ParseError(Unexpected(None), None);
    LoneName(toks, 0);
    LoneOperand(toks, 0, x, 1);
    ExprAfterLogical(toks, 0, x, 1);
    NoExpression(toks, 2);
    var ends := {TokenKind.Semicolon} + {};
    TupleCommaError(toks, 0, ends, x, 1);
    assert ParseTuple(toks, 0, ends) == Err(err);
    assert ParseStatement(toks, 0, {}) == Err(err);
    assert ScopeLoop(toks, 0, {}, ScopeStart) == Err(err);
  }

  /**
   * `case c => t ;` is a conditional with no alternative; the `;` belongs to
   * the arrow body, and the statement continues the scope, which then wraps
   * the conditional with its value discarded.
   */
  lemma {:induction false} CaseWithoutElse(toks: seq<Token>)
    requires toks == [Tok(TokenKind.Case, 0), NameTok("c", 2), Tok(FatArrow, 4), NameTok("t", 6), Tok(Semicolon, 7)]
    ensures var cond := Expr(Span(2, 3), ExprKind.Name("c"));
            var onTrue := Expr(Span(6, 7), ExprKind.Name("t"));
            var c := Expr(Span(0, 7), ExprKind.Case(cond, onTrue, None));
            Parse(toks) == Ok(Expr(Span(0, 7), Scope([], [c], true)))
  {
    var cond, onTrue := NameAt("c", 2), NameAt("t", 6);
    LoneName(toks, 1);
    LoneOperand(toks, 1, cond, 2);
    LoneName(toks, 3);
    LoneOperand(toks, 3, onTrue, 4);
    TermExprAfterLogical(toks, 3, onTrue, 4);
    ArrowBody(toks, 2);
    assert TermBody(toks, 2) == Ok(Parsed(onTrue, 5));
    TermElseAbsent(toks, 5);
    var c := Expr(Span(0, 7), ExprKind.Case(cond, onTrue, None));
    assert TermCase(toks, 0) == Ok(Parsed(c, 5));
    assert ParseStatement(toks, 0, {}) == Ok(Parsed(ExprStmt(c, c.span, true), 5));
    ScopeDiscardedTail(toks, 0, {}, c, c.span, 5);
  }
}
