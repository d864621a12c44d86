/**
 * Properties of the statement-level forms: `for` and `case`/`else` clauses,
 * abstractions and their bodies, and what happens where no expression can
 * start.
 */
module Clauses {
  import opened Wrappers
  import opened Tokens
  import opened Ast
  import opened Errors
  import opened Lookahead
  import opened Grammar
  import Application

  /** The first tokens of an expression: an atom, a unary operator or a solve marker. */
  predicate ExprStart(k: TokenKind)
  {
    Application.AtomStart(k) || UnOpOf(k).Some? || MarkerOf(k).Some?
  }

  /**
   * Where no expression starts, every level of the cascade fails the same
   * way: `Unexpected` naming the token there (or none at end of input), with
   * no span.
   */
  lemma {:induction false} NoExpression(toks: seq<Token>, pos: nat)
    requires pos <= |toks|
    requires pos == |toks| || !ExprStart(toks[pos].kind)
    ensures var err := Err(ParseError(Unexpected(StreamPeek(toks, pos)), None));
            ParsePrefix(toks, pos) == err && ParseTerm(toks, pos) == err && ParseArith(toks, pos) == err &&
            ParseAssert(toks, pos) == err && ParseCmp(toks, pos) == err && ParseLogical(toks, pos) == err &&
            ParseExpr(toks, pos) == err
  {
    var err := Err(ParseError(Unexpected(StreamPeek(toks, pos)), None));
    Application.SuffixNoAtom(toks, pos);
    assert ParsePrefix(toks, pos) == err;
    assert ParseBinOp(toks, pos, TermLevel) == err;
    assert ParseTerm(toks, pos) == err;
    assert Operand(toks, pos, ArithLevel) == err;
    assert ParseBinOp(toks, pos, ArithLevel) == err;
    assert ParseArith(toks, pos) == err;
    assert ParseAssert(toks, pos) == err;
    assert ParseBinOp(toks, pos, CmpLevel) == err;
    assert ParseCmp(toks, pos) == err;
    assert Operand(toks, pos, LogicalLevel) == err;
    assert ParseBinOp(toks, pos, LogicalLevel) == err;
    assert ParseLogical(toks, pos) == err;
  }

  /**
   * The arity of a `for`: its first clause is the condition alone exactly
   * when no `;` follows it, and otherwise the initializer. The node spans from
   * the `for` keyword to the end of the body, and an afterthought implies an
   * initializer.
   */
  lemma {:induction false} TermForShape(toks: seq<Token>, pos: nat)
    requires pos <= |toks|
    requires TermFor(toks, pos).Ok?
    ensures var r := TermFor(toks, pos).value;
            var k := r.node.kind;
            var c := ParseLogical(toks, pos + 1);
            pos < |toks| && toks[pos].kind == TokenKind.For && k.For? &&
            r.node.span == Span(toks[pos].span.start, k.body.span.end) &&
            c.Ok? &&
            (k.init.None? <==> NoMatch(toks, c.value.next, OneOf({TokenKind.Semicolon}))) &&
            (k.init.None? ==> k.cond == c.value.node && k.afterthought.None?) &&
            (k.init.Some? ==> k.init.value == c.value.node)
  {
  }

  /** `for c body`: a condition only. */
  lemma {:induction false} TermForOneClause(toks: seq<Token>, pos: nat, c: Expr, i: nat, body: Expr, q: nat)
    requires pos < |toks| && toks[pos].kind == TokenKind.For
    requires ParseLogical(toks, pos + 1) == Ok(Parsed(c, i))
    requires NoMatch(toks, i, OneOf({TokenKind.Semicolon}))
    requires TermBody(toks, i) == Ok(Parsed(body, q))
    ensures TermFor(toks, pos) == Ok(Parsed(Expr(Span(toks[pos].span.start, body.span.end), ExprKind.For(None, c, None, body)), q))
  {
  }

  /** `for init; c body`: an initializer and a condition. */
  lemma {:induction false} TermForTwoClauses(toks: seq<Token>, pos: nat, init: Expr, i: nat, c: Expr, j: nat, body: Expr, q: nat)
    requires pos < |toks| && toks[pos].kind == TokenKind.For
    requires ParseLogical(toks, pos + 1) == Ok(Parsed(init, i))
    requires i < |toks| && toks[i].kind == TokenKind.Semicolon
    requires ParseLogical(toks, i + 1) == Ok(Parsed(c, j))
    requires NoMatch(toks, j, OneOf({TokenKind.Semicolon}))
    requires TermBody(toks, j) == Ok(Parsed(body, q))
    ensures TermFor(toks, pos) == Ok(Parsed(Expr(Span(toks[pos].span.start, body.span.end), ExprKind.For(Some(init), c, None, body)), q))
  {
  }

  /** `for init; c; after body`: all three clauses. */
  lemma {:induction false} TermForThreeClauses(toks: seq<Token>, pos: nat, init: Expr, i: nat, c: Expr, j: nat, after: Expr, k: nat, body: Expr, q: nat)
    requires pos < |toks| && toks[pos].kind == TokenKind.For
    requires ParseLogical(toks, pos + 1) == Ok(Parsed(init, i))
    requires i < |toks| && toks[i].kind == TokenKind.Semicolon
    requires ParseLogical(toks, i + 1) == Ok(Parsed(c, j))
    requires j < |toks| && toks[j].kind == TokenKind.Semicolon
    requires ParseLogical(toks, j + 1) == Ok(Parsed(after, k))
    requires TermBody(toks, k) == Ok(Parsed(body, q))
    ensures TermFor(toks, pos) == Ok(Parsed(Expr(Span(toks[pos].span.start, body.span.end), ExprKind.For(Some(init), c, Some(after), body)), q))
  {
    assert Require(toks, pos, OneOf({TokenKind.For})) == Ok(Parsed(toks[pos], pos + 1));
    assert Eat(toks, i, OneOf({TokenKind.Semicolon})) == Parsed(Some(toks[i]), i + 1);
    assert Eat(toks, j, OneOf({TokenKind.Semicolon})) == Parsed(Some(toks[j]), j + 1);
  }

  /** One conditional arm of a chain: `case`/`else <cond> <body>`, whose keyword starts at `start`. */
  datatype Arm = Arm(start: nat, cond: Expr, body: Expr)

  /**
   * The right-nested chain of conditionals over `arms`, ending in `final`:
   * each arm is a `Case` whose alternative is the chain of the arms after it,
   * spanning from its keyword to the end of that alternative, or of its own
   * body when there is none.
   */
  function ElseChain(arms: seq<Arm>, final: Option<Expr>): Option<Expr>
    decreases |arms|
  {
    if arms == [] then final
    else
      var rest := ElseChain(arms[1..], final);
      var end := if rest.Some? then rest.value.span.end else arms[0].body.span.end;
      Some(Expr(Span(arms[0].start, end), ExprKind.Case(arms[0].cond, arms[0].body, rest)))
  }

  /**
   * From `pos` to `q` the tokens are exactly the conditional arms `arms`,
   * each `else`, then a condition read by `logical` (no `=>` or `{` right
   * after `else`), then a body read by `termbody`.
   */
  predicate ElseRun(toks: seq<Token>, pos: nat, arms: seq<Arm>, q: nat)
    requires pos <= |toks|
    ensures ElseRun(toks, pos, arms, q) ==> pos <= q <= |toks|
    decreases |arms|
  {
    if arms == [] then q == pos
    else
      pos < |toks| && toks[pos].kind == TokenKind.Else && arms[0].start == toks[pos].span.start &&
      NoMatch(toks, pos + 1, OneOf({TokenKind.FatArrow, TokenKind.OpenBrace})) &&
      var c := ParseLogical(toks, pos + 1);
      c.Ok? && c.value.node == arms[0].cond &&
      var b := TermBody(toks, c.value.next);
      b.Ok? && b.value.node == arms[0].body &&
      ElseRun(toks, b.value.next, arms[1..], q)
  }

  /**
   * How a chain ends at `q`: with no `else` (no alternative, nothing read), or
   * with `else` directly followed by a body that starts with `=>` or `{`,
   * which is the alternative.
   */
  predicate ElseFinal(toks: seq<Token>, q: nat, final: Option<Expr>, next: nat)
    requires q <= |toks|
  {
    if NoMatch(toks, q, OneOf({TokenKind.Else})) then final == None && next == q
    else
      q + 1 < |toks| && toks[q + 1].kind in {TokenKind.FatArrow, TokenKind.OpenBrace} &&
      var b := TermBody(toks, q + 1);
      b.Ok? && final == Some(b.value.node) && next == b.value.next
  }

  /** Soundness of `termelse`: its result is the chain of the arms read, ending as `ElseFinal` says. */
  lemma {:induction false} TermElseSound(toks: seq<Token>, pos: nat) returns (arms: seq<Arm>, final: Option<Expr>, q: nat)
    requires pos <= |toks|
    requires TermElse(toks, pos).Ok?
    ensures var r := TermElse(toks, pos).value;
            ElseRun(toks, pos, arms, q) && ElseFinal(toks, q, final, r.next) && r.node == ElseChain(arms, final)
    decreases |toks| - pos
  {
    if NoMatch(toks, pos, OneOf({TokenKind.Else})) {
      arms, final, q := [], None, pos;
    } else if HasPeek(toks, pos + 1, OneOf({TokenKind.FatArrow, TokenKind.OpenBrace})) {
      arms, final, q := [], Some(TermBody(toks, pos + 1).value.node), pos;
    } else {
      var c := ParseLogical(toks, pos + 1).value;
      var b := TermBody(toks, c.next).value;
      var rest, fin, q' := TermElseSound(toks, b.next);
      arms, final, q := [Arm(toks[pos].span.start, c.node, b.node)] + rest, fin, q';
      assert arms[1..] == rest;
    }
  }

  /** Completeness of `termelse`: a run of arms and its ending parse as their chain. */
  lemma {:induction false} TermElseComplete(toks: seq<Token>, pos: nat, arms: seq<Arm>, final: Option<Expr>, q: nat, next: nat)
    requires pos <= |toks|
    requires ElseRun(toks, pos, arms, q) && ElseFinal(toks, q, final, next)
    ensures TermElse(toks, pos) == Ok(Parsed(ElseChain(arms, final), next))
    decreases |arms|
  {
    if arms != [] {
      var c := ParseLogical(toks, pos + 1).value;
      var b := TermBody(toks, c.next).value;
      TermElseComplete(toks, b.next, arms[1..], final, q, next);
    }
  }

  /**
   * A `case` node spans from its keyword to the end of its `else` chain, or
   * of its body when there is none, and it is the head of a right-nested
   * chain: its own arm followed by the arms of its `else` chain.
   */
  lemma {:induction false} TermCaseShape(toks: seq<Token>, pos: nat) returns (arms: seq<Arm>, final: Option<Expr>, q: nat)
    requires pos <= |toks|
    requires TermCase(toks, pos).Ok?
    ensures var r := TermCase(toks, pos).value;
            var k := r.node.kind;
            pos < |toks| && toks[pos].kind == TokenKind.Case && k.Case? &&
            r.node.span == Span(toks[pos].span.start, if k.onFalse.Some? then k.onFalse.value.span.end else k.onTrue.span.end)
    ensures var r := TermCase(toks, pos).value;
            var c := ParseLogical(toks, pos + 1);
            c.Ok? &&
            var b := TermBody(toks, c.value.next);
            b.Ok? && ElseRun(toks, b.value.next, arms, q) && ElseFinal(toks, q, final, r.next) &&
            Some(r.node) == ElseChain([Arm(toks[pos].span.start, c.value.node, b.value.node)] + arms, final)
  {
    var c := ParseLogical(toks, pos + 1).value;
    var b := TermBody(toks, c.next).value;
    arms, final, q := TermElseSound(toks, b.next);
    var all := [Arm(toks[pos].span.start, c.node, b.node)] + arms;
    assert all[1..] == arms;
  }

  /** Without `else` there is no alternative and nothing is consumed. */
  lemma {:induction false} TermElseAbsent(toks: seq<Token>, pos: nat)
    requires pos <= |toks| && NoMatch(toks, pos, OneOf({TokenKind.Else}))
    ensures TermElse(toks, pos) == Ok(Parsed(None, pos))
  {
  }

  /** `else =>` and `else {` give the body itself as the alternative. */
  lemma {:induction false} TermElseDirect(toks: seq<Token>, pos: nat)
    requires pos + 1 < |toks| && toks[pos].kind == TokenKind.Else
    requires toks[pos + 1].kind == TokenKind.FatArrow || toks[pos + 1].kind == TokenKind.OpenBrace
    ensures TermElse(toks, pos) == (match TermBody(toks, pos + 1)
                                    case Ok(b) => Ok(Parsed(Some(b.node), b.next))
                                    case Err(x) => Err(x))
  {
  }

  /**
   * `else <cond> <body> ...` chains another conditional, spanning from the
   * `else` keyword to the end of the rest of the chain: its condition is the
   * logical expression after `else`, its body the statement body after that,
   * and its alternative the rest of the chain read after the body.
   */
  lemma {:induction false} TermElseChain(toks: seq<Token>, pos: nat)
    requires pos < |toks| && toks[pos].kind == TokenKind.Else
    requires !HasPeek(toks, pos + 1, OneOf({TokenKind.FatArrow, TokenKind.OpenBrace}))
    requires TermElse(toks, pos).Ok?
    ensures var r := TermElse(toks, pos).value;
            r.node.Some? && r.node.value.kind.Case? &&
            r.node.value.span == Span(toks[pos].span.start,
                                      if r.node.value.kind.onFalse.Some? then r.node.value.kind.onFalse.value.span.end
                                      else r.node.value.kind.onTrue.span.end)
    ensures var r := TermElse(toks, pos).value;
            var c := ParseLogical(toks, pos + 1);
            c.Ok? &&
            var b := TermBody(toks, c.value.next);
            b.Ok? &&
            var f := TermElse(toks, b.value.next);
            f.Ok? && r.node == Some(Expr(r.node.value.span, ExprKind.Case(c.value.node, b.value.node, f.value.node))) &&
            r.next == f.value.next
  {
  }

  /**
   * `else case` is rejected: after `else` a condition is expected, and
   * `case` cannot start an expression.
   */
  lemma {:induction false} TermElseCaseRejected(toks: seq<Token>, pos: nat)
    requires pos + 1 < |toks| && toks[pos].kind == TokenKind.Else && toks[pos + 1].kind == TokenKind.Case
    ensures TermElse(toks, pos) == Err(ParseError(Unexpected(Some(toks[pos + 1])), None))
  {
    NoExpression(toks, pos + 1);
  }

  /**
   * The abstraction tail read from `p` into `k`, ending at `next`: a result
   * type exactly when `->` is at `p`, namely the logical expression after it;
   * the specification flag exactly when `$` follows where the type ends; and
   * the body after that, read by `termbody` at statement level and by `body`
   * at expression level.
   */
  predicate Tail(toks: seq<Token>, p: nat, stmtLevel: bool, k: ExprKind, next: nat)
    requires p <= |toks|
  {
    var arrow := p < |toks| && toks[p].kind == TokenKind.ThinArrow;
    var ty := if arrow then ParseLogical(toks, p + 1) else Ok(Parsed(EmptyTuple, p));
    ty.Ok? &&
    var q := ty.value.next;
    q <= |toks| &&
    var spec := q < |toks| && toks[q].kind == TokenKind.Dollar;
    var b := if spec then q + 1 else q;
    var body := if stmtLevel then TermBody(toks, b) else ParseBody(toks, b);
    k.Abstract? && k.spec == spec && k.ty == (if arrow then Some(ty.value.node) else None) &&
    body.Ok? && k.body == body.value.node && next == body.value.next
  }

  /**
   * A statement-level abstraction without an argument starts with its tail
   * and takes exactly the span of its body; its type, its specification flag
   * and its body are read by `Tail` from the cursor.
   */
  lemma {:induction false} TermExprArgless(toks: seq<Token>, pos: nat)
    requires pos < |toks| && toks[pos].kind in AbstractionLead
    requires TermExpr(toks, pos).Ok?
    ensures var r := TermExpr(toks, pos).value;
            var k := r.node.kind;
            k.Abstract? && k.arg.None? && r.node.span == k.body.span &&
            (k.ty.Some? <==> toks[pos].kind == TokenKind.ThinArrow)
    ensures var r := TermExpr(toks, pos).value;
            Tail(toks, pos, true, r.node.kind, r.next)
  {
    var r := TermExpr(toks, pos).value;
    var ty := ReturnType(toks, pos).value;
    if toks[pos].kind == TokenKind.ThinArrow {
      assert ty == Parsed(Some(ParseLogical(toks, pos + 1).value.node), ParseLogical(toks, pos + 1).value.next);
    }
  }

  /**
   * After a logical expression, a statement-level form is an abstraction with
   * that argument when an abstraction tail follows, spanning argument to body;
   * its type, specification flag and body are read by `Tail` after the
   * argument. Otherwise the expression must be followed by `;`, which it
   * consumes.
   */
  lemma {:induction false} TermExprAfterLogical(toks: seq<Token>, pos: nat, e: Expr, i: nat)
    requires pos <= |toks| && !(pos < |toks| && toks[pos].kind in AbstractionLead)
    requires ParseLogical(toks, pos) == Ok(Parsed(e, i))
    ensures i < |toks| && toks[i].kind in AbstractionLead && TermExpr(toks, pos).Ok? ==>
              var r := TermExpr(toks, pos).value;
              r.node.kind.Abstract? && r.node.kind.arg == Some(e) && r.node.span == Span(e.span.start, r.node.kind.body.span.end) &&
              Tail(toks, i, true, r.node.kind, r.next)
    ensures NoMatch(toks, i, OneOf(AbstractionLead)) ==>
              TermExpr(toks, pos) == (match Require(toks, i, OneOf({TokenKind.Semicolon}))
                                      case Ok(_) => Ok(Parsed(e, i + 1))
                                      case Err(x) => Err(x))
  {
  }

  /**
   * The same at expression level: an abstraction tail after a logical
   * expression makes it the argument, with the tail read by `Tail` at
   * expression level, and otherwise the logical expression is the result, with
   * no `;` needed.
   */
  lemma {:induction false} ExprAfterLogical(toks: seq<Token>, pos: nat, e: Expr, i: nat)
    requires pos <= |toks|
    requires ParseLogical(toks, pos) == Ok(Parsed(e, i))
    ensures i < |toks| && toks[i].kind in AbstractionLead && ParseExpr(toks, pos).Ok? ==>
              var r := ParseExpr(toks, pos).value;
              r.node.kind.Abstract? && r.node.kind.arg == Some(e) && r.node.span == Span(e.span.start, r.node.kind.body.span.end) &&
              Tail(toks, i, false, r.node.kind, r.next)
    ensures NoMatch(toks, i, OneOf(AbstractionLead)) ==> ParseExpr(toks, pos) == Ok(Parsed(e, i))
  {
  }

  /**
   * A braced body has the node of the scope inside and the span of the
   * braces. An unclosed brace fails without a token at the end of input,
   * and naming the token and its span where the inner scope stopped before
   * some other token.
   * The same holds for bodies at statement level and at expression level.
   */
  lemma {:induction false} BracedBody(toks: seq<Token>, pos: nat)
    requires pos < |toks| && toks[pos].kind == TokenKind.OpenBrace
    requires ParseScope(toks, pos + 1, {TokenKind.CloseBrace}).Ok?
    ensures var s := ParseScope(toks, pos + 1, {TokenKind.CloseBrace}).value;
            var i := s.next;
            (i < |toks| && toks[i].kind == TokenKind.CloseBrace ==>
               var b := Ok(Parsed(Expr(Span(toks[pos].span.start, toks[i].span.end), s.node.kind), i + 1));
               TermBody(toks, pos) == b && ParseBody(toks, pos) == b) &&
            (i == |toks| ==> var err := Err(ParseError(Unexpected(None), None));
                             TermBody(toks, pos) == err && ParseBody(toks, pos) == err) &&
            (i < |toks| && toks[i].kind != TokenKind.CloseBrace ==>
               var err := Err(ParseError(Unexpected(Some(toks[i])), Some(toks[i].span)));
               TermBody(toks, pos) == err && ParseBody(toks, pos) == err)
  {
  }

  /** `=>` introduces a statement-level form in a statement body and a logical expression in an expression body. */
  lemma {:induction false} ArrowBody(toks: seq<Token>, pos: nat)
    requires pos < |toks| && toks[pos].kind == TokenKind.FatArrow
    ensures TermBody(toks, pos) == TermExpr(toks, pos + 1)
    ensures ParseBody(toks, pos) == ParseLogical(toks, pos + 1)
  {
  }
}
