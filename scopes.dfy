/**
 * Properties of statement sequences (`scope`), of the statements they are
 * made of, and of comma-separated tuples (`tuple`).
 */
module Scopes {
  import opened Wrappers
  import opened Tokens
  import opened Ast
  import opened Errors
  import opened Lookahead
  import opened Grammar

  /**
   * How the scope loop stops: still before its first statement or right after
   * a continuing one only at the end of input or at an end token, otherwise
   * right after an expression statement without `;`. Declarations and
   * expressions are only ever appended, and the scope's start is fixed by the
   * first statement. Unlike `ScopeLoopSound`, which names the statements read,
   * this holds from any accumulator in the loop and speaks only of how the
   * loop stops; `WellFormedScope` rests on it.
   */
  lemma {:induction false} ScopeLoopStops(toks: seq<Token>, pos: nat, endKinds: set<TokenKind>, acc: ScopeAcc)
    requires pos <= |toks|
    requires acc.first || acc.discard
    requires ScopeLoop(toks, pos, endKinds, acc).Ok?
    ensures var r := ScopeLoop(toks, pos, endKinds, acc).value;
            (r.node.first ==> r.node == acc && r.next == pos) &&
            (r.node.first || r.node.discard ==> AtEnd(toks, r.next, endKinds)) &&
            (!r.node.first && !r.node.discard ==> |r.node.exprs| > |acc.exprs|) &&
            acc.defs <= r.node.defs && acc.exprs <= r.node.exprs &&
            (!acc.first ==> r.node.start == acc.start)
    decreases |toks| - pos
  {
    var peeked := StreamPeek(toks, pos);
    if peeked.None? || HasPeek(toks, pos, OneOf(endKinds)) {
    } else {
      var s := ParseStatement(toks, pos, endKinds).value;
      var acc' := Record(acc, s.node);
      if acc'.discard {
        ScopeLoopStops(toks, s.next, endKinds, acc');
      }
    }
  }

  /** The declarations among `stmts`, in order. */
  function Declarations(stmts: seq<Stmt>): seq<Def>
    decreases |stmts|
  {
    if stmts == [] then []
    else (if stmts[0].DefStmt? then [stmts[0].def] else []) + Declarations(stmts[1..])
  }

  /** The expressions of the expression statements among `stmts`, in order. */
  function Expressions(stmts: seq<Stmt>): seq<Expr>
    decreases |stmts|
  {
    if stmts == [] then []
    else (if stmts[0].ExprStmt? then [stmts[0].expr] else []) + Expressions(stmts[1..])
  }

  /** Every statement is either a declaration or an expression statement. */
  lemma {:induction false} StatementsPartition(stmts: seq<Stmt>)
    ensures |Declarations(stmts)| + |Expressions(stmts)| == |stmts|
    decreases |stmts|
  {
    if stmts != [] {
      StatementsPartition(stmts[1..]);
    }
  }

  /**
   * From `pos` to `q` the scope loop reads exactly the statements `stmts`:
   * each one starts where neither the input nor an end token is reached, and
   * every one but the last continues the scope.
   */
  predicate StmtRun(toks: seq<Token>, pos: nat, endKinds: set<TokenKind>, stmts: seq<Stmt>, q: nat)
    requires pos <= |toks|
    ensures StmtRun(toks, pos, endKinds, stmts, q) ==> pos <= q <= |toks|
    decreases |stmts|
  {
    if stmts == [] then q == pos
    else
      var s := ParseStatement(toks, pos, endKinds);
      !AtEnd(toks, pos, endKinds) && s.Ok? && s.value.node == stmts[0] &&
      (|stmts| > 1 ==> Continues(stmts[0])) &&
      StmtRun(toks, s.value.next, endKinds, stmts[1..], q)
  }

  /** The loop stops after the run: at an end, unless its last statement does not continue. */
  predicate RunStops(toks: seq<Token>, endKinds: set<TokenKind>, stmts: seq<Stmt>, q: nat)
  {
    (stmts == [] || Continues(stmts[|stmts| - 1])) ==> AtEnd(toks, q, endKinds)
  }

  /**
   * The loop variables after reading `stmts` from `acc`: the declarations and
   * the expressions appended in order, the start fixed by the first statement
   * ever read, the end and `discard` taken from the last one.
   */
  function Summary(acc: ScopeAcc, stmts: seq<Stmt>): ScopeAcc
  {
    if stmts == [] then acc
    else
      var last := stmts[|stmts| - 1];
      ScopeAcc(acc.defs + Declarations(stmts), acc.exprs + Expressions(stmts),
               if acc.first then StmtSpan(stmts[0]).start else acc.start,
               StmtSpan(last).end, false, Continues(last))
  }

  /** Recording one statement and then a run is the summary of the longer run. */
  lemma {:induction false} SummaryCons(acc: ScopeAcc, s: Stmt, rest: seq<Stmt>)
    ensures Summary(Record(acc, s), rest) == Summary(acc, [s] + rest)
  {
    var stmts := [s] + rest;
    assert stmts[0] == s && stmts[1..] == rest;
    assert Declarations(stmts) == (if s.DefStmt? then [s.def] else []) + Declarations(rest);
    assert Expressions(stmts) == (if s.ExprStmt? then [s.expr] else []) + Expressions(rest);
    if rest == [] {
      assert Declarations(rest) == [] && Expressions(rest) == [];
    } else {
      assert stmts[|stmts| - 1] == rest[|rest| - 1];
      var acc' := Record(acc, s);
      assert acc'.defs + Declarations(rest) == acc.defs + Declarations(stmts);
      assert acc'.exprs + Expressions(rest) == acc.exprs + Expressions(stmts);
    }
  }

  /**
   * Soundness of the scope loop: what it returns summarizes a run of
   * statements it read, after which it stopped for the reason `RunStops` gives.
   */
  lemma {:induction false} ScopeLoopSound(toks: seq<Token>, pos: nat, endKinds: set<TokenKind>, acc: ScopeAcc) returns (stmts: seq<Stmt>)
    requires pos <= |toks|
    requires ScopeLoop(toks, pos, endKinds, acc).Ok?
    ensures var r := ScopeLoop(toks, pos, endKinds, acc).value;
            StmtRun(toks, pos, endKinds, stmts, r.next) && RunStops(toks, endKinds, stmts, r.next) &&
            r.node == Summary(acc, stmts)
    decreases |toks| - pos
  {
    if AtEnd(toks, pos, endKinds) {
      stmts := [];
    } else {
      var s := ParseStatement(toks, pos, endKinds).value;
      var acc' := Record(acc, s.node);
      if acc'.discard {
        var rest := ScopeLoopSound(toks, s.next, endKinds, acc');
        stmts := [s.node] + rest;
        assert stmts[1..] == rest;
        assert stmts[|stmts| - 1] == if rest == [] then s.node else rest[|rest| - 1];
        SummaryCons(acc, s.node, rest);
      } else {
        stmts := [s.node];
        assert stmts[1..] == [];
        SummaryCons(acc, s.node, []);
        assert [s.node] + [] == stmts;
      }
    }
  }

  /** Completeness of the scope loop: a run that stops is read in full and summarized. */
  lemma {:induction false} ScopeLoopComplete(toks: seq<Token>, pos: nat, endKinds: set<TokenKind>, acc: ScopeAcc, stmts: seq<Stmt>, q: nat)
    requires pos <= |toks|
    requires StmtRun(toks, pos, endKinds, stmts, q) && RunStops(toks, endKinds, stmts, q)
    ensures ScopeLoop(toks, pos, endKinds, acc) == Ok(Parsed(Summary(acc, stmts), q))
    decreases |stmts|
  {
    if stmts == [] {
    } else {
      var s := ParseStatement(toks, pos, endKinds).value;
      var acc' := Record(acc, stmts[0]);
      var rest := stmts[1..];
      assert [stmts[0]] + rest == stmts;
      SummaryCons(acc, stmts[0], rest);
      if rest == [] {
        assert s.next == q;
        if acc'.discard {
          assert ScopeLoop(toks, s.next, endKinds, acc') == Ok(Parsed(acc', q));
        }
      } else {
        assert rest[|rest| - 1] == stmts[|stmts| - 1];
        ScopeLoopComplete(toks, s.next, endKinds, acc', rest, q);
      }
    }
  }

  /**
   * The value of a scope that read the statements `stmts`: the empty tuple
   * spanning (0, 0) when there are none; the expression itself when the only
   * statement is an expression without `;`; and otherwise a `Scope` of the
   * declarations and the expressions in order, spanning from the first
   * statement's start to the last one's end, whose value is discarded exactly
   * when the last statement continues.
   */
  function ScopeValue(stmts: seq<Stmt>): Expr
  {
    if stmts == [] then EmptyTuple
    else if |stmts| == 1 && stmts[0].ExprStmt? && !stmts[0].discard then stmts[0].expr
    else
      var last := stmts[|stmts| - 1];
      Expr(Span(StmtSpan(stmts[0]).start, StmtSpan(last).end), Scope(Declarations(stmts), Expressions(stmts), Continues(last)))
  }

  /** The result rule of `scope` applied to a summary gives `ScopeValue`. */
  lemma {:induction false} ScopeResultSummary(stmts: seq<Stmt>)
    ensures ScopeResult(Summary(ScopeStart, stmts)) == ScopeValue(stmts)
  {
    StatementsPartition(stmts);
    if |stmts| == 1 {
      var s := stmts[0];
      assert stmts[1..] == [];
      assert Declarations(stmts) == (if s.DefStmt? then [s.def] else []);
      assert Expressions(stmts) == (if s.ExprStmt? then [s.expr] else []);
      assert stmts[|stmts| - 1] == s;
      var acc := Record(ScopeStart, s);
      assert Summary(ScopeStart, stmts) == acc;
      match s
      case DefStmt(d) =>
        assert acc.defs == [d] && acc.exprs == [];
        assert Span(acc.start, acc.end) == d.span;
        assert acc.discard;
        assert ScopeResult(acc) == Expr(d.span, Scope([d], [], true));
      case ExprStmt(e, span, discard) =>
        if discard {
          assert acc.defs == [] && acc.exprs == [e];
          assert Span(acc.start, acc.end) == span;
          assert ScopeResult(acc) == Expr(span, Scope([], [e], true));
        } else {
          assert ScopeResult(acc) == e;
        }
    } else if stmts == [] {
      assert Summary(ScopeStart, stmts) == ScopeStart;
    } else {
      var acc := Summary(ScopeStart, stmts);
      assert acc.defs == Declarations(stmts) && acc.exprs == Expressions(stmts);
      assert !(acc.defs == [] && |acc.exprs| <= 1);
    }
  }

  /** Conversely, a run of statements that stops parses as the scope of those statements. */
  lemma {:induction false} ScopeParsesRun(toks: seq<Token>, pos: nat, endKinds: set<TokenKind>, stmts: seq<Stmt>, q: nat)
    requires pos <= |toks|
    requires StmtRun(toks, pos, endKinds, stmts, q) && RunStops(toks, endKinds, stmts, q)
    ensures ParseScope(toks, pos, endKinds) == Ok(Parsed(ScopeValue(stmts), q))
  {
    ScopeLoopComplete(toks, pos, endKinds, ScopeStart, stmts, q);
    ScopeResultSummary(stmts);
  }

  /**
   * The invariant of a `Scope` node: it holds at least one statement, a lone
   * expression in it has its value discarded, and when its value is kept its
   * last statement is an expression.
   */
  predicate WellFormedScope(k: ExprKind)
  {
    k.Scope? &&
    (k.defs != [] || k.exprs != []) &&
    (k.defs == [] && |k.exprs| == 1 ==> k.discard) &&
    (!k.discard ==> k.exprs != [])
  }

  /**
   * The three outcomes of a scope: no statement at all (the empty tuple,
   * nothing consumed); exactly one expression statement without `;`, whose
   * value is the scope's value; or a well-formed `Scope` node, which, when its
   * value is discarded, stops only at the end of input or at an end token.
   * In every case the value is `ScopeValue` of the statements read, which
   * form a run that stops.
   */
  lemma {:induction false} ScopeShape(toks: seq<Token>, pos: nat, endKinds: set<TokenKind>) returns (stmts: seq<Stmt>)
    requires pos <= |toks|
    requires ParseScope(toks, pos, endKinds).Ok?
    ensures var r := ParseScope(toks, pos, endKinds).value;
            StmtRun(toks, pos, endKinds, stmts, r.next) && RunStops(toks, endKinds, stmts, r.next) &&
            r.node == ScopeValue(stmts)
    ensures var r := ParseScope(toks, pos, endKinds).value;
            (r.next == pos && r.node == Expr(Span(0, 0), Tuple([]))) ||
            (exists span :: ParseStatement(toks, pos, endKinds) == Ok(Parsed(ExprStmt(r.node, span, false), r.next))) ||
            (WellFormedScope(r.node.kind) && (r.node.kind.discard ==> AtEnd(toks, r.next, endKinds)))
  {
    var l := ScopeLoop(toks, pos, endKinds, ScopeStart).value;
    assert ParseScope(toks, pos, endKinds) == Ok(Parsed(ScopeResult(l.node), l.next));
    stmts := ScopeLoopSound(toks, pos, endKinds, ScopeStart);
    ScopeResultSummary(stmts);
    if StreamPeek(toks, pos).None? || HasPeek(toks, pos, OneOf(endKinds)) {
      assert l == Parsed(ScopeStart, pos);
    } else {
      var st := ParseStatement(toks, pos, endKinds).value;
      var acc := Record(ScopeStart, st.node);
      if !acc.discard {
        assert l == Parsed(acc, st.next);
        assert ScopeResult(acc) == st.node.expr;
      } else {
        assert l == ScopeLoop(toks, st.next, endKinds, acc).value;
        ScopeLoopStops(toks, st.next, endKinds, acc);
        assert |acc.defs| + |acc.exprs| == 1;
        assert |l.node.defs| >= |acc.defs| && |l.node.exprs| >= |acc.exprs|;
      }
    }
  }

  /** A scope with no statements is the empty tuple spanning (0, 0), consuming nothing. */
  lemma {:induction false} ScopeEmpty(toks: seq<Token>, pos: nat, endKinds: set<TokenKind>)
    requires pos <= |toks| && AtEnd(toks, pos, endKinds)
    ensures ParseScope(toks, pos, endKinds) == Ok(Parsed(Expr(Span(0, 0), Tuple([])), pos))
  {
  }

  /** A lone expression statement without `;` is the scope's own value, with no `Scope` node around it. */
  lemma {:induction false} ScopeBareTail(toks: seq<Token>, pos: nat, endKinds: set<TokenKind>, e: Expr, span: Span, q: nat)
    requires pos <= |toks| && !AtEnd(toks, pos, endKinds)
    requires ParseStatement(toks, pos, endKinds) == Ok(Parsed(ExprStmt(e, span, false), q))
    ensures ParseScope(toks, pos, endKinds) == Ok(Parsed(e, q))
  {
  }

  /**
   * A lone continuing expression statement followed by the end is a `Scope`
   * holding that expression with its value discarded, spanning the statement.
   */
  lemma {:induction false} ScopeDiscardedTail(toks: seq<Token>, pos: nat, endKinds: set<TokenKind>, e: Expr, span: Span, q: nat)
    requires pos <= |toks| && !AtEnd(toks, pos, endKinds)
    requires ParseStatement(toks, pos, endKinds) == Ok(Parsed(ExprStmt(e, span, true), q))
    requires q <= |toks| && AtEnd(toks, q, endKinds)
    ensures ParseScope(toks, pos, endKinds) == Ok(Parsed(Expr(span, Scope([], [e], true)), q))
  {
    var acc := ScopeAcc([], [e], span.start, span.end, false, true);
    assert Record(ScopeStart, ExprStmt(e, span, true)) == acc;
    assert ScopeLoop(toks, q, endKinds, acc) == Ok(Parsed(acc, q));
  }

  /** A lone declaration followed by the end is a `Scope` with that declaration and no expressions. */
  lemma {:induction false} ScopeLoneDef(toks: seq<Token>, pos: nat, endKinds: set<TokenKind>, d: Def, q: nat)
    requires pos <= |toks| && !AtEnd(toks, pos, endKinds)
    requires ParseStatement(toks, pos, endKinds) == Ok(Parsed(DefStmt(d), q))
    requires q <= |toks| && AtEnd(toks, q, endKinds)
    ensures ParseScope(toks, pos, endKinds) == Ok(Parsed(Expr(d.span, Scope([d], [], true)), q))
  {
    var acc := ScopeAcc([d], [], d.span.start, d.span.end, false, true);
    assert Record(ScopeStart, DefStmt(d)) == acc;
    assert ScopeLoop(toks, q, endKinds, acc) == Ok(Parsed(acc, q));
  }

  /**
   * A declaration read from the keyword at `pos`: the token after the keyword
   * must be a name, then a statement-level form is the value; the declaration
   * spans from the keyword to the end of the value. A missing name is
   * `Unexpected` with the token found and its span, or with neither at the end
   * of input.
   */
  function DeclarationAt(toks: seq<Token>, pos: nat): Result<Parsed<Def>>
    requires pos < |toks|
  {
    if pos + 1 == |toks| then Err(ParseError(Unexpected(None), None))
    else if !toks[pos + 1].kind.Name? then Err(ParseError(Unexpected(Some(toks[pos + 1])), Some(toks[pos + 1].span)))
    else
      match TermExpr(toks, pos + 2)
      case Err(e) => Err(e)
      case Ok(v) => Ok(Parsed(Def.Def(Span(toks[pos].span.start, v.node.span.end), toks[pos + 1].kind.name, v.node), v.next))
  }

  /**
   * `def` and `type` build the same declaration from what follows their
   * keyword, and each fails with `Unexpected` naming the token when its
   * keyword is not there.
   */
  lemma {:induction false} DeclarationShape(toks: seq<Token>, pos: nat)
    requires pos < |toks|
    ensures toks[pos].kind == TokenKind.Def ==> ParseDef(toks, pos) == DeclarationAt(toks, pos)
    ensures toks[pos].kind == TokenKind.Type ==> ParseTypedef(toks, pos) == DeclarationAt(toks, pos)
    ensures toks[pos].kind != TokenKind.Def ==>
              ParseDef(toks, pos) == Err(ParseError(Unexpected(Some(toks[pos])), Some(toks[pos].span)))
    ensures toks[pos].kind != TokenKind.Type ==>
              ParseTypedef(toks, pos) == Err(ParseError(Unexpected(Some(toks[pos])), Some(toks[pos].span)))
  {
    if pos + 1 < |toks| && toks[pos + 1].kind.Name? {
      assert Require(toks, pos + 1, NameToken) == Ok(Parsed(toks[pos + 1], pos + 2));
    }
  }

  /**
   * Which statements continue the scope: `def` and `type` give declarations,
   * `case` and `for` continue without `;`, and any other expression statement
   * continues exactly when a `;` follows it, which then ends its span.
   */
  lemma {:induction false} StatementContinuation(toks: seq<Token>, pos: nat, endKinds: set<TokenKind>)
    requires pos < |toks|
    requires ParseStatement(toks, pos, endKinds).Ok?
    ensures var r := ParseStatement(toks, pos, endKinds).value;
            var k := toks[pos].kind;
            ((k == TokenKind.Def || k == TokenKind.Type) <==> r.node.DefStmt?) &&
            (k == TokenKind.Case ==> r.node.ExprStmt? && r.node.discard && r.node.expr.kind.Case? && r.node.span == r.node.expr.span) &&
            (k == TokenKind.For ==> r.node.ExprStmt? && r.node.discard && r.node.expr.kind.For? && r.node.span == r.node.expr.span) &&
            (r.node.ExprStmt? && !r.node.discard ==> NoMatch(toks, r.next, OneOf({TokenKind.Semicolon})) && r.node.span == r.node.expr.span) &&
            (r.node.ExprStmt? && r.node.discard && k != TokenKind.Case && k != TokenKind.For ==>
               pos < r.next && toks[r.next - 1].kind == TokenKind.Semicolon &&
               r.node.span == Span(r.node.expr.span.start, toks[r.next - 1].span.end))
  {
    var k := toks[pos].kind;
    if k == TokenKind.Case {
      var c := TermCase(toks, pos).value;
      assert c.node.kind.Case?;
    } else if k == TokenKind.For {
      var f := TermFor(toks, pos).value;
      assert f.node.kind.For?;
    }
  }

  /** Nothing to parse before an end token or the end of input: the empty tuple spanning (0, 0). */
  lemma {:induction false} TupleEmpty(toks: seq<Token>, pos: nat, endKinds: set<TokenKind>)
    requires pos <= |toks| && AtEnd(toks, pos, endKinds)
    ensures ParseTuple(toks, pos, endKinds) == Ok(Parsed(EmptyTuple, pos))
  {
  }

  /** One expression directly followed by an end token is returned bare, not as a tuple. */
  lemma {:induction false} TupleBare(toks: seq<Token>, pos: nat, endKinds: set<TokenKind>, e: Expr, q: nat)
    requires pos <= |toks| && !AtEnd(toks, pos, endKinds)
    requires ParseExpr(toks, pos) == Ok(Parsed(e, q))
    requires q < |toks| && toks[q].kind in endKinds
    ensures ParseTuple(toks, pos, endKinds) == Ok(Parsed(e, q))
  {
  }

  /**
   * One expression running into the end of input (not an end token) becomes
   * a one-item tuple with the expression's span.
   */
  lemma {:induction false} TupleAtEndOfInput(toks: seq<Token>, pos: nat, endKinds: set<TokenKind>, e: Expr)
    requires pos <= |toks| && !AtEnd(toks, pos, endKinds)
    requires ParseExpr(toks, pos) == Ok(Parsed(e, |toks|))
    ensures ParseTuple(toks, pos, endKinds) == Ok(Parsed(Expr(e.span, Tuple([e])), |toks|))
  {
  }

  /** A trailing comma before an end token makes a one-item tuple whose span ends at the comma. */
  lemma {:induction false} TupleTrailingComma(toks: seq<Token>, pos: nat, endKinds: set<TokenKind>, e: Expr, q: nat)
    requires pos <= |toks| && !AtEnd(toks, pos, endKinds)
    requires ParseExpr(toks, pos) == Ok(Parsed(e, q))
    requires q + 1 < |toks| && toks[q].kind == TokenKind.Comma && toks[q + 1].kind in endKinds
    requires TokenKind.Comma !in endKinds
    ensures ParseTuple(toks, pos, endKinds) == Ok(Parsed(Expr(Span(e.span.start, toks[q].span.end), Tuple([e])), q + 1))
  {
  }

  /** The expression parsed from `p` ends at `q` and is the last of `items`. */
  predicate LastItemFrom(toks: seq<Token>, p: nat, q: nat, items: seq<Expr>)
    requires p <= |toks|
  {
    var e := ParseExpr(toks, p);
    e.Ok? && e.value.next == q && |items| > 0 && e.value.node == items[|items| - 1]
  }

  /**
   * The tuple loop only appends items, keeps the start, and ends its span at
   * the last comma it consumed, at index `i`: that comma is either the last
   * token consumed or followed by exactly the last item. Without a comma
   * nothing changes.
   */
  lemma {:induction false} TupleLoopSpan(toks: seq<Token>, pos: nat, endKinds: set<TokenKind>, start: nat, end: nat, items: seq<Expr>) returns (i: nat)
    requires pos <= |toks|
    requires TupleLoop(toks, pos, endKinds, start, end, items).Ok?
    ensures var r := TupleLoop(toks, pos, endKinds, start, end, items).value;
            r.node.kind.Tuple? && items <= r.node.kind.items && r.node.span.start == start
    ensures var r := TupleLoop(toks, pos, endKinds, start, end, items).value;
            r.next == pos ==> r.node == Expr(Span(start, end), Tuple(items))
    ensures var r := TupleLoop(toks, pos, endKinds, start, end, items).value;
            r.next > pos ==> pos <= i < r.next && toks[i].kind == TokenKind.Comma && r.node.span.end == toks[i].span.end
    ensures var r := TupleLoop(toks, pos, endKinds, start, end, items).value;
            r.next > pos && i + 1 < r.next ==> LastItemFrom(toks, i + 1, r.next, r.node.kind.items)
    decreases |toks| - pos
  {
    var comma := Eat(toks, pos, OneOf({TokenKind.Comma}));
    if comma.node.None? {
      i := pos;
    } else if HasPeek(toks, comma.next, OneOf(endKinds)) {
      i := pos;
    } else {
      var end' := comma.node.value.span.end;
      var e := ParseExpr(toks, comma.next).value;
      var items' := items + [e.node];
      var j := TupleLoopSpan(toks, e.next, endKinds, start, end', items');
      var r := TupleLoop(toks, e.next, endKinds, start, end', items').value;
      assert TupleLoop(toks, pos, endKinds, start, end, items).value == r;
      if r.next == e.next {
        i := pos;
        assert LastItemFrom(toks, pos + 1, r.next, items');
      } else {
        i := j;
      }
    }
  }

  /**
   * One expression followed by a token that is neither `,` nor an end token
   * becomes a one-item tuple with the expression's span, and the cursor stays
   * on that token for the caller to deal with.
   */
  lemma {:induction false} TupleOtherToken(toks: seq<Token>, pos: nat, endKinds: set<TokenKind>, e: Expr, q: nat)
    requires pos <= |toks| && !AtEnd(toks, pos, endKinds)
    requires ParseExpr(toks, pos) == Ok(Parsed(e, q))
    requires q < |toks| && toks[q].kind != TokenKind.Comma && toks[q].kind !in endKinds
    ensures ParseTuple(toks, pos, endKinds) == Ok(Parsed(Expr(e.span, Tuple([e])), q))
  {
  }

  /**
   * A comma that is not followed by an end token demands another item: when
   * none parses there, and in particular at the end of input, the tuple fails
   * with that item's error.
   */
  lemma {:induction false} TupleCommaError(toks: seq<Token>, pos: nat, endKinds: set<TokenKind>, e: Expr, q: nat)
    requires pos <= |toks| && !AtEnd(toks, pos, endKinds)
    requires ParseExpr(toks, pos) == Ok(Parsed(e, q))
    requires q < |toks| && toks[q].kind == TokenKind.Comma && TokenKind.Comma !in endKinds
    requires !(q + 1 < |toks| && toks[q + 1].kind in endKinds)
    requires ParseExpr(toks, q + 1).Err?
    ensures ParseTuple(toks, pos, endKinds) == Err(ParseExpr(toks, q + 1).error)
  {
  }

  /** One step of the tuple loop: the comma consumed and the item after it. */
  datatype CommaItem = CommaItem(comma: Token, item: Expr)

  /** The items of a run of tuple steps, in order. */
  function Items(steps: seq<CommaItem>): (r: seq<Expr>)
    ensures |r| == |steps|
    ensures forall k :: 0 <= k < |steps| ==> r[k] == steps[k].item
  {
    if steps == [] then [] else [steps[0].item] + Items(steps[1..])
  }

  /**
   * `steps` is read from `pos` to `q` as repetitions of `, <expression>`:
   * each comma sits at the cursor, is not followed by an end token, and the
   * expression after it parses to the step's item.
   */
  predicate CommaRun(toks: seq<Token>, pos: nat, endKinds: set<TokenKind>, steps: seq<CommaItem>, q: nat)
    requires pos <= |toks|
    ensures CommaRun(toks, pos, endKinds, steps, q) ==> pos <= q <= |toks|
    decreases |steps|
  {
    if steps == [] then q == pos
    else
      pos < |toks| && toks[pos].kind == TokenKind.Comma && steps[0].comma == toks[pos] &&
      !(pos + 1 < |toks| && toks[pos + 1].kind in endKinds) &&
      var e := ParseExpr(toks, pos + 1);
      e.Ok? && e.value.node == steps[0].item && CommaRun(toks, e.value.next, endKinds, steps[1..], q)
  }

  /**
   * How a tuple started at `start` with `items` and extended by `steps` ends
   * at `q`: where no comma follows, the cursor stays at `q` and the span ends
   * at the last comma consumed (or at `end` when there was none); a comma
   * followed by an end token is consumed and ends the span; any other comma
   * leaves it unfinished (`None`).
   */
  function CommaResult(toks: seq<Token>, q: nat, endKinds: set<TokenKind>, start: nat, end: nat,
                       items: seq<Expr>, steps: seq<CommaItem>): Option<Parsed<Expr>>
    requires q <= |toks|
  {
    var all := Tuple(items + Items(steps));
    if !(q < |toks| && toks[q].kind == TokenKind.Comma) then
      var end' := if steps == [] then end else steps[|steps| - 1].comma.span.end;
      Some(Parsed(Expr(Span(start, end'), all), q))
    else if q + 1 < |toks| && toks[q + 1].kind in endKinds then
      Some(Parsed(Expr(Span(start, toks[q].span.end), all), q + 1))
    else None
  }

  /** Moving one step from the run into the accumulated items changes nothing in the outcome. */
  lemma {:induction false} CommaResultCons(toks: seq<Token>, q: nat, endKinds: set<TokenKind>, start: nat, end: nat,
                                           items: seq<Expr>, c: Token, e: Expr, rest: seq<CommaItem>)
    requires q <= |toks|
    ensures CommaResult(toks, q, endKinds, start, c.span.end, items + [e], rest) ==
            CommaResult(toks, q, endKinds, start, end, items, [CommaItem(c, e)] + rest)
  {
    var steps := [CommaItem(c, e)] + rest;
    assert steps[1..] == rest;
    assert items + [e] + Items(rest) == items + Items(steps);
    if rest != [] {
      assert steps[|steps| - 1] == rest[|rest| - 1];
    }
  }

  /** Every successful run of the tuple loop is a comma run followed by a proper ending. */
  lemma {:induction false} TupleLoopSound(toks: seq<Token>, pos: nat, endKinds: set<TokenKind>, start: nat, end: nat,
                                          items: seq<Expr>) returns (steps: seq<CommaItem>, q: nat)
    requires pos <= |toks|
    requires TupleLoop(toks, pos, endKinds, start, end, items).Ok?
    ensures CommaRun(toks, pos, endKinds, steps, q)
    ensures CommaResult(toks, q, endKinds, start, end, items, steps) == Some(TupleLoop(toks, pos, endKinds, start, end, items).value)
    decreases |toks| - pos
  {
    var comma := Eat(toks, pos, OneOf({TokenKind.Comma}));
    if comma.node.None? || HasPeek(toks, comma.next, OneOf(endKinds)) {
      steps, q := [], pos;
      assert items + Items([]) == items;
    } else {
      var end' := comma.node.value.span.end;
      var e := ParseExpr(toks, comma.next).value;
      var rest;
      rest, q := TupleLoopSound(toks, e.next, endKinds, start, end', items + [e.node]);
      steps := [CommaItem(toks[pos], e.node)] + rest;
      assert steps[1..] == rest;
      CommaResultCons(toks, q, endKinds, start, end, items, toks[pos], e.node, rest);
    }
  }

  /** Conversely, a comma run with a proper ending is exactly what the tuple loop reads. */
  lemma {:induction false} TupleLoopComplete(toks: seq<Token>, pos: nat, endKinds: set<TokenKind>, start: nat, end: nat,
                                             items: seq<Expr>, steps: seq<CommaItem>, q: nat)
    requires pos <= |toks|
    requires CommaRun(toks, pos, endKinds, steps, q)
    requires CommaResult(toks, q, endKinds, start, end, items, steps).Some?
    ensures TupleLoop(toks, pos, endKinds, start, end, items) == Ok(CommaResult(toks, q, endKinds, start, end, items, steps).value)
    decreases |steps|
  {
    if steps == [] {
      assert items + Items([]) == items;
    } else {
      var e := ParseExpr(toks, pos + 1).value;
      var rest := steps[1..];
      assert steps == [CommaItem(toks[pos], e.node)] + rest;
      TupleLoopComplete(toks, e.next, endKinds, start, toks[pos].span.end, items + [e.node], rest, q);
      CommaResultCons(toks, q, endKinds, start, end, items, toks[pos], e.node, rest);
    }
  }

  /**
   * A comma run that stops at a comma not followed by an end token makes the
   * tuple loop fail with the error of the item it then demands.
   */
  lemma {:induction false} TupleLoopError(toks: seq<Token>, pos: nat, endKinds: set<TokenKind>, start: nat, end: nat,
                                          items: seq<Expr>, steps: seq<CommaItem>, q: nat)
    requires pos <= |toks|
    requires CommaRun(toks, pos, endKinds, steps, q)
    requires q < |toks| && toks[q].kind == TokenKind.Comma
    requires !(q + 1 < |toks| && toks[q + 1].kind in endKinds)
    requires ParseExpr(toks, q + 1).Err?
    ensures TupleLoop(toks, pos, endKinds, start, end, items) == Err(ParseExpr(toks, q + 1).error)
    decreases |steps|
  {
    if steps != [] {
      var e := ParseExpr(toks, pos + 1).value;
      TupleLoopError(toks, e.next, endKinds, start, toks[pos].span.end, items + [e.node], steps[1..], q);
    }
  }

  /**
   * A tuple that parses is empty, a bare expression before an end token, or
   * its first expression followed by a comma run and a proper ending; the
   * items are the first expression and the run's items.
   */
  lemma {:induction false} TupleShape(toks: seq<Token>, pos: nat, endKinds: set<TokenKind>) returns (steps: seq<CommaItem>, q: nat)
    requires pos <= |toks|
    requires ParseTuple(toks, pos, endKinds).Ok?
    ensures var r := ParseTuple(toks, pos, endKinds).value;
            (AtEnd(toks, pos, endKinds) && r == Parsed(EmptyTuple, pos)) ||
            (!AtEnd(toks, pos, endKinds) && ParseExpr(toks, pos).Ok? &&
             var f := ParseExpr(toks, pos).value;
             (f.next < |toks| && toks[f.next].kind in endKinds && r == f) ||
             (!(f.next < |toks| && toks[f.next].kind in endKinds) && CommaRun(toks, f.next, endKinds, steps, q) &&
              CommaResult(toks, q, endKinds, f.node.span.start, f.node.span.end, [f.node], steps) == Some(r)))
  {
    if AtEnd(toks, pos, endKinds) {
      steps, q := [], pos;
    } else {
      var f := ParseExpr(toks, pos).value;
      if f.next < |toks| && toks[f.next].kind in endKinds {
        steps, q := [], pos;
      } else {
        steps, q := TupleLoopSound(toks, f.next, endKinds, f.node.span.start, f.node.span.end, [f.node]);
      }
    }
  }

  /** Conversely, a first expression followed by a comma run with a proper ending is what the tuple reads. */
  lemma {:induction false} TupleParsesRun(toks: seq<Token>, pos: nat, endKinds: set<TokenKind>, f: Expr, i: nat,
                                          steps: seq<CommaItem>, q: nat)
    requires pos <= |toks| && !AtEnd(toks, pos, endKinds)
    requires ParseExpr(toks, pos) == Ok(Parsed(f, i))
    requires !(i < |toks| && toks[i].kind in endKinds)
    requires CommaRun(toks, i, endKinds, steps, q)
    requires CommaResult(toks, q, endKinds, f.span.start, f.span.end, [f], steps).Some?
    ensures ParseTuple(toks, pos, endKinds) == Ok(CommaResult(toks, q, endKinds, f.span.start, f.span.end, [f], steps).value)
  {
    TupleLoopComplete(toks, i, endKinds, f.span.start, f.span.end, [f], steps, q);
  }

  /**
   * A whole input holding one expression with no `;` parses as a one-item
   * tuple: the tuple reaches the end of input, which is not one of its end
   * tokens.
   */
  lemma {:induction false} TopLevelLoneExpression(toks: seq<Token>, e: Expr)
    requires |toks| > 0
    requires toks[0].kind !in {TokenKind.Def, TokenKind.Type, TokenKind.Case, TokenKind.For, TokenKind.Semicolon}
    requires ParseExpr(toks, 0) == Ok(Parsed(e, |toks|))
    ensures Parse(toks) == Ok(Expr(e.span, Tuple([e])))
  {
    var t := Expr(e.span, Tuple([e]));
    TupleAtEndOfInput(toks, 0, {TokenKind.Semicolon} + {}, e);
    assert ParseStatement(toks, 0, {}) == Ok(Parsed(ExprStmt(t, t.span, false), |toks|));
    ScopeBareTail(toks, 0, {}, t, t.span, |toks|);
  }

  /**
   * A whole input that starts with an expression which fails to parse fails
   * with that expression's error: nothing is recovered.
   */
  lemma {:induction false} TopLevelExpressionError(toks: seq<Token>)
    requires |toks| > 0
    requires toks[0].kind !in {TokenKind.Def, TokenKind.Type, TokenKind.Case, TokenKind.For, TokenKind.Semicolon}
    requires ParseLogical(toks, 0).Err?
    ensures Parse(toks) == Err(ParseLogical(toks, 0).error)
  {
    var err := ParseLogical(toks, 0).error;
    assert ParseExpr(toks, 0) == Err(err);
    assert ParseTuple(toks, 0, {TokenKind.Semicolon} + {}) == Err(err);
    assert ParseStatement(toks, 0, {}) == Err(err);
    assert ScopeLoop(toks, 0, {}, ScopeStart) == Err(err);
  }

  /**
   * A whole input holding one expression followed by `;` parses as a `Scope`
   * with that expression and its value discarded, spanning through the `;`.
   */
  lemma {:induction false} TopLevelTerminated(toks: seq<Token>, e: Expr)
    requires |toks| > 1 && toks[|toks| - 1].kind == TokenKind.Semicolon
    requires toks[0].kind !in {TokenKind.Def, TokenKind.Type, TokenKind.Case, TokenKind.For, TokenKind.Semicolon}
    requires ParseExpr(toks, 0) == Ok(Parsed(e, |toks| - 1))
    ensures Parse(toks) == Ok(Expr(Span(e.span.start, toks[|toks| - 1].span.end), Scope([], [e], true)))
  {
    var n := |toks| - 1;
    var span := Span(e.span.start, toks[n].span.end);
    TupleBare(toks, 0, {TokenKind.Semicolon} + {}, e, n);
    assert ParseStatement(toks, 0, {}) == Ok(Parsed(ExprStmt(e, span, true), n + 1));
    ScopeDiscardedTail(toks, 0, {}, e, span, n + 1);
  }
}
