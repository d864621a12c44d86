/**
 * Properties of the binary-operator cascade (`bin_op` and the levels built on
 * it), stated against an independent left-fold definition.
 */
module Precedence {
  import opened Wrappers
  import opened Tokens
  import opened Ast
  import opened Errors
  import opened Lookahead
  import opened Grammar
  import Application

  /** One operator and its right operand, after the leading operand of a level. */
  datatype Step = Step(op: BinOp, rhs: Expr)

  /**
   * Left association, defined from the last operator down: the root is the
   * last operator, its left operand is the fold of everything before it. Every
   * node carries the span of the leftmost operand.
   */
  function FoldLeft(first: Expr, steps: seq<Step>): (e: Expr)
    ensures e.span == first.span
    ensures steps != [] ==> e.kind.Binary? && e.kind.op == steps[|steps| - 1].op && e.kind.rhs == steps[|steps| - 1].rhs
    decreases |steps|
  {
    if steps == [] then first
    else
      var last := steps[|steps| - 1];
      Expr(first.span, Binary(last.op, FoldLeft(first, steps[..|steps| - 1]), last.rhs))
  }

  /**
   * The tokens from `pos` to `q` are exactly the operator/operand pairs
   * `steps` of `level`: each an operator token of the level followed by an
   * operand of the next tighter level.
   */
  predicate OperatorRun(toks: seq<Token>, pos: nat, level: Level, steps: seq<Step>, q: nat)
    requires pos <= |toks|
    decreases |steps|
  {
    if steps == [] then q == pos
    else
      pos < |toks| && BinOpOf(level, toks[pos].kind) == Some(steps[0].op) &&
      var b := Operand(toks, pos + 1, level);
      b.Ok? && b.value.node == steps[0].rhs && OperatorRun(toks, b.value.next, level, steps[1..], q)
  }

  lemma {:induction false} FoldLeftSnoc(first: Expr, steps: seq<Step>, s: Step)
    ensures FoldLeft(first, steps + [s]) == Expr(first.span, Binary(s.op, FoldLeft(first, steps), s.rhs))
  {
    assert (steps + [s])[..|steps|] == steps;
  }

  /** Soundness of the operator loop: what it returns is the left fold of the run it consumed. */
  lemma {:induction false} BinOpLoopSound(toks: seq<Token>, pos: nat, level: Level, first: Expr, done: seq<Step>) returns (rest: seq<Step>)
    requires pos <= |toks|
    requires BinOpLoop(toks, pos, level, FoldLeft(first, done)).Ok?
    ensures var r := BinOpLoop(toks, pos, level, FoldLeft(first, done)).value;
            OperatorRun(toks, pos, level, rest, r.next) && NoMatch(toks, r.next, BinOps(level)) &&
            r.node == FoldLeft(first, done + rest)
    decreases |toks| - pos
  {
    var acc := FoldLeft(first, done);
    var op := Eat(toks, pos, BinOps(level));
    if op.node.None? {
      rest := [];
      assert done + rest == done;
    } else {
      var b := Operand(toks, op.next, level).value;
      var s := Step(BinOpOf(level, op.node.value.kind).value, b.node);
      FoldLeftSnoc(first, done, s);
      var tail := BinOpLoopSound(toks, b.next, level, first, done + [s]);
      rest := [s] + tail;
      assert rest[1..] == tail;
      assert done + [s] + tail == done + rest;
    }
  }

  /** Completeness of the operator loop: every maximal run is consumed and folded to the left. */
  lemma {:induction false} BinOpLoopComplete(toks: seq<Token>, pos: nat, level: Level, first: Expr, done: seq<Step>, rest: seq<Step>, q: nat)
    requires pos <= |toks|
    requires OperatorRun(toks, pos, level, rest, q) && NoMatch(toks, q, BinOps(level))
    ensures BinOpLoop(toks, pos, level, FoldLeft(first, done)) == Ok(Parsed(FoldLeft(first, done + rest), q))
    decreases |rest|
  {
    if rest == [] {
      assert done + rest == done;
    } else {
      var s := rest[0];
      var b := Operand(toks, pos + 1, level).value;
      FoldLeftSnoc(first, done, s);
      BinOpLoopComplete(toks, b.next, level, first, done + [s], rest[1..], q);
      assert done + [s] + rest[1..] == done + rest;
    }
  }

  /**
   * `bin_op` folds to the left: its result is one operand followed by a
   * maximal run of the level's operators, nested so that the last operator is
   * at the root, and it carries the span of the leftmost operand.
   */
  lemma {:induction false} BinOpFoldsLeft(toks: seq<Token>, pos: nat, level: Level) returns (first: Expr, steps: seq<Step>)
    requires pos <= |toks|
    requires ParseBinOp(toks, pos, level).Ok?
    ensures var r := ParseBinOp(toks, pos, level).value;
            var a := Operand(toks, pos, level);
            a.Ok? && a.value.node == first &&
            OperatorRun(toks, a.value.next, level, steps, r.next) && NoMatch(toks, r.next, BinOps(level)) &&
            r.node == FoldLeft(first, steps) && r.node.span == first.span
  {
    var a := Operand(toks, pos, level).value;
    first := a.node;
    assert FoldLeft(first, []) == first;
    steps := BinOpLoopSound(toks, a.next, level, first, []);
    assert [] + steps == steps;
  }

  /** Conversely, an operand followed by a maximal operator run parses as its left fold. */
  lemma {:induction false} BinOpParsesRun(toks: seq<Token>, pos: nat, level: Level, first: Expr, i: nat, steps: seq<Step>, q: nat)
    requires pos <= |toks|
    requires Operand(toks, pos, level) == Ok(Parsed(first, i))
    requires OperatorRun(toks, i, level, steps, q) && NoMatch(toks, q, BinOps(level))
    ensures ParseBinOp(toks, pos, level) == Ok(Parsed(FoldLeft(first, steps), q))
  {
    assert FoldLeft(first, []) == first;
    BinOpLoopComplete(toks, i, level, first, [], steps, q);
    assert [] + steps == steps;
  }

  /** A level fails exactly as its first operand does when that operand fails. */
  lemma {:induction false} BinOpOperandError(toks: seq<Token>, pos: nat, level: Level)
    requires pos <= |toks|
    requires Operand(toks, pos, level).Err?
    ensures ParseBinOp(toks, pos, level) == Err(Operand(toks, pos, level).error)
  {
  }

  /**
   * A type ascription ends its span at the `::` token, not at the type, and
   * without `::` the level is transparent.
   */
  lemma {:induction false} AssertSpan(toks: seq<Token>, pos: nat, e: Expr, i: nat)
    requires pos <= |toks|
    requires ParseArith(toks, pos) == Ok(Parsed(e, i))
    ensures i < |toks| && toks[i].kind == ColonColon ==>
              ParseAssert(toks, pos) == (match ParseArith(toks, i + 1)
                                         case Ok(t) => Ok(Parsed(Expr(Span(e.span.start, toks[i].span.end), Assert(e, t.node)), t.next))
                                         case Err(x) => Err(x))
    ensures NoMatch(toks, i, OneOf({TokenKind.ColonColon})) ==> ParseAssert(toks, pos) == Ok(Parsed(e, i))
  {
  }

  /** Unary operators stack: each one wraps the prefix expression after it and starts its span. */
  lemma {:induction false} PrefixUnary(toks: seq<Token>, pos: nat)
    requires pos < |toks| && UnOpOf(toks[pos].kind).Some?
    ensures ParsePrefix(toks, pos) == (match ParsePrefix(toks, pos + 1)
                                       case Ok(a) => Ok(Parsed(Expr(Span(toks[pos].span.start, a.node.span.end), Unary(UnOpOf(toks[pos].kind).value, a.node)), a.next))
                                       case Err(x) => Err(x))
  {
  }

  /** A solve marker must be followed by a name, and the pair spans marker to name. */
  lemma {:induction false} PrefixSolve(toks: seq<Token>, pos: nat)
    requires pos < |toks| && MarkerOf(toks[pos].kind).Some?
    ensures pos + 1 < |toks| && toks[pos + 1].kind.Name? ==>
              ParsePrefix(toks, pos) == Ok(Parsed(Expr(Span(toks[pos].span.start, toks[pos + 1].span.end), Solve(MarkerOf(toks[pos].kind).value, toks[pos + 1].kind.name)), pos + 2))
    ensures pos + 1 < |toks| && !toks[pos + 1].kind.Name? ==>
              ParsePrefix(toks, pos) == Err(ParseError(Unexpected(Some(toks[pos + 1])), Some(toks[pos + 1].span)))
    ensures pos + 1 == |toks| ==> ParsePrefix(toks, pos) == Err(ParseError(Unexpected(None), None))
  {
  }

  /**
   * An arithmetic expression followed by neither `::` nor a comparison or
   * logical operator is the whole logical expression.
   */
  lemma {:induction false} ArithIsLogical(toks: seq<Token>, pos: nat, e: Expr, i: nat)
    requires pos <= |toks|
    requires ParseArith(toks, pos) == Ok(Parsed(e, i))
    requires NoMatch(toks, i, OneOf({TokenKind.ColonColon}))
    requires NoMatch(toks, i, BinOps(CmpLevel)) && NoMatch(toks, i, BinOps(LogicalLevel))
    ensures ParseLogical(toks, pos) == Ok(Parsed(e, i))
  {
    AssertSpan(toks, pos, e, i);
    assert Operand(toks, pos, CmpLevel) == Ok(Parsed(e, i));
    assert ParseBinOp(toks, pos, CmpLevel) == Ok(Parsed(e, i));
    assert ParseCmp(toks, pos) == Ok(Parsed(e, i));
    assert Operand(toks, pos, LogicalLevel) == Ok(Parsed(e, i));
    assert ParseBinOp(toks, pos, LogicalLevel) == Ok(Parsed(e, i));
  }

  /** A failing application fails every level of the cascade with the same error. */
  lemma {:induction false} OperandErrorPassesUp(toks: seq<Token>, pos: nat)
    requires pos < |toks| && UnOpOf(toks[pos].kind).None? && MarkerOf(toks[pos].kind).None?
    requires ParseSuffix(toks, pos).Err?
    ensures ParseLogical(toks, pos) == Err(ParseSuffix(toks, pos).error)
  {
    var err := Err(ParseSuffix(toks, pos).error);
    assert ParsePrefix(toks, pos) == err;
    assert ParseBinOp(toks, pos, TermLevel) == err;
    assert ParseTerm(toks, pos) == err;
    assert ParseBinOp(toks, pos, ArithLevel) == err;
    assert ParseArith(toks, pos) == err;
    assert ParseAssert(toks, pos) == err;
    assert ParseBinOp(toks, pos, CmpLevel) == err;
    assert ParseCmp(toks, pos) == err;
    assert ParseBinOp(toks, pos, LogicalLevel) == err;
  }

  /** True when no binary operator of any level and no `::` is at `i`. */
  predicate Inert(toks: seq<Token>, i: nat)
  {
    i == |toks| ||
    (i < |toks| &&
     BinOpOf(LogicalLevel, toks[i].kind).None? && BinOpOf(CmpLevel, toks[i].kind).None? &&
     BinOpOf(ArithLevel, toks[i].kind).None? && BinOpOf(TermLevel, toks[i].kind).None? &&
     toks[i].kind != TokenKind.ColonColon)
  }

  /**
   * An application with no operator after it passes through every level of
   * the cascade unchanged.
   */
  lemma {:induction false} LoneOperand(toks: seq<Token>, pos: nat, e: Expr, i: nat)
    requires pos < |toks| && UnOpOf(toks[pos].kind).None? && MarkerOf(toks[pos].kind).None?
    requires ParseSuffix(toks, pos) == Ok(Parsed(e, i)) && Inert(toks, i)
    ensures ParseTerm(toks, pos) == Ok(Parsed(e, i))
    ensures ParseArith(toks, pos) == Ok(Parsed(e, i))
    ensures ParseAssert(toks, pos) == Ok(Parsed(e, i))
    ensures ParseCmp(toks, pos) == Ok(Parsed(e, i))
    ensures ParseLogical(toks, pos) == Ok(Parsed(e, i))
  {
    assert ParsePrefix(toks, pos) == Ok(Parsed(e, i));
    assert ParseBinOp(toks, pos, TermLevel) == Ok(Parsed(e, i));
    assert Operand(toks, pos, ArithLevel) == Ok(Parsed(e, i));
    assert ParseBinOp(toks, pos, ArithLevel) == Ok(Parsed(e, i));
    assert ParseAssert(toks, pos) == Ok(Parsed(e, i));
    assert ParseBinOp(toks, pos, CmpLevel) == Ok(Parsed(e, i));
    assert ParseCmp(toks, pos) == Ok(Parsed(e, i));
    assert Operand(toks, pos, LogicalLevel) == Ok(Parsed(e, i));
    assert ParseBinOp(toks, pos, LogicalLevel) == Ok(Parsed(e, i));
  }
}
