/**
 * The parser as the source writes it: an object owning the token cursor, whose
 * methods advance it. Every method is proved to compute exactly what the
 * corresponding specification function in `Grammar` or `Lookahead` computes
 * from the cursor position at entry (`Agrees`).
 */
module Parser {
  import opened Wrappers
  import opened Tokens
  import opened Ast
  import opened Errors
  import opened Lookahead
  import G = Grammar

  /** `parse`: runs a fresh parser over the whole token sequence. */
  method Parse(toks: seq<Token>) returns (r: Result<Expr>)
    ensures r == G.Parse(toks)
  {
    var parser := new Parser(toks);
    r := parser.ParseScope({});
  }

  class Parser {
    const toks: seq<Token>
    var pos: nat

    ghost predicate Valid()
      reads this
    {
      pos <= |toks|
    }

    constructor (toks: seq<Token>)
      ensures Valid() && this.toks == toks && pos == 0
    {
      this.toks := toks;
      pos := 0;
    }

    /** The token stream's own peek (`self.tokens.peek()`). */
    method PeekToken() returns (t: Option<Token>)
      requires Valid()
      ensures t.Some? <==> pos < |toks|
      ensures t.Some? ==> t.value == toks[pos]
    {
      if pos < |toks| {
        t := Some(toks[pos]);
      } else {
        t := None;
      }
    }

    method Peek(p: Pred) returns (t: Option<Token>)
      requires Valid()
      ensures t == Lookahead.Peek(toks, pos, p)
    {
      var token := PeekToken();
      if token.Some? && Accepts(p, token.value.kind) {
        t := token;
      } else {
        t := None;
      }
    }

    method HasPeek(p: Pred) returns (b: bool)
      requires Valid()
      ensures b == Lookahead.HasPeek(toks, pos, p)
    {
      var token := PeekToken();
      b := token.Some? && Accepts(p, token.value.kind);
    }

    method Eat(p: Pred) returns (t: Option<Token>)
      requires Valid()
      modifies this
      ensures Valid()
      ensures t == Lookahead.Eat(toks, old(pos), p).node && pos == Lookahead.Eat(toks, old(pos), p).next
    {
      var token := PeekToken();
      if token.Some? && Accepts(p, token.value.kind) {
        pos := pos + 1;
        t := token;
      } else {
        t := None;
      }
    }

    method MaybeRequire(p: Pred) returns (r: Result<Option<Token>>)
      requires Valid()
      modifies this
      ensures Valid()
      ensures Agrees(r, pos, Lookahead.MaybeRequire(toks, old(pos), p))
      ensures r.Err? ==> pos == old(pos)
    {
      var token := PeekToken();
      if token.Some? {
        if Accepts(p, token.value.kind) {
          pos := pos + 1;
          r := Ok(token);
        } else {
          r := Err(ParseError(Unexpected(token), Some(token.value.span)));
        }
      } else {
        r := Ok(None);
      }
    }

    method Require(p: Pred) returns (r: Result<Token>)
      requires Valid()
      modifies this
      ensures Valid()
      ensures Agrees(r, pos, Lookahead.Require(toks, old(pos), p))
      ensures r.Err? ==> pos == old(pos)
    {
      var t :- MaybeRequire(p);
      match t
      case Some(tok) => r := Ok(tok);
      case None => r := Err(ParseError(Unexpected(None), None));
    }

    method ParseScope(endKinds: set<TokenKind>) returns (r: Result<Expr>)
      requires Valid()
      modifies this
      ensures Valid()
      ensures Agrees(r, pos, G.ParseScope(toks, old(pos), endKinds))
      decreases |toks| - pos, 40
    {
      var start, end := 0, 0;
      var defs: seq<Def> := [];
      var exprs: seq<Expr> := [];
      var first := true;
      var discard := false;
      ghost var target := G.ScopeLoop(toks, pos, endKinds, G.ScopeStart);
      while true
        invariant Valid() && old(pos) <= pos
        invariant G.ScopeLoop(toks, pos, endKinds, G.ScopeAcc(defs, exprs, start, end, first, discard)) == target
        decreases |toks| - pos
      {
        var peeked := PeekToken();
        if peeked.None? {
          break;
        }
        var stop := HasPeek(OneOf(endKinds));
        if stop {
          break;
        }
        var span: Span;
        var isDef := HasPeek(OneOf({TokenKind.Def}));
        if isDef {
          var def :- ParseDef();
          span := def.span;
          defs := defs + [def];
          discard := true;
        } else {
          var isType := HasPeek(OneOf({TokenKind.Type}));
          if isType {
            var def :- ParseTypedef();
            span := def.span;
            defs := defs + [def];
            discard := true;
          } else {
            var isCase := HasPeek(OneOf({TokenKind.Case}));
            if isCase {
              var case_ :- TermCase();
              span := case_.span;
              exprs := exprs + [case_];
              discard := true;
            } else {
              var isFor := HasPeek(OneOf({TokenKind.For}));
              if isFor {
                var for_ :- TermFor();
                span := for_.span;
                exprs := exprs + [for_];
                discard := true;
              } else {
                var expr :- ParseTuple({TokenKind.Semicolon} + endKinds);
                exprs := exprs + [expr];
                var semi := Eat(OneOf({TokenKind.Semicolon}));
                discard := semi.Some?;
                span := Span(expr.span.start, if semi.Some? then semi.value.span.end else expr.span.end);
              }
            }
          }
        }
        if first {
          start := span.start;
        }
        end := span.end;
        first := false;
        if !discard {
          break;
        }
      }
      if defs == [] && |exprs| == 1 && !discard {
        r := Ok(exprs[0]);
      } else if defs == [] && exprs == [] {
        r := Ok(Expr(Span(start, end), Tuple([])));
      } else {
        r := Ok(Expr(Span(start, end), Scope(defs, exprs, discard)));
      }
    }

    method ParseDef() returns (r: Result<Def>)
      requires Valid()
      modifies this
      ensures Valid()
      ensures Agrees(r, pos, G.ParseDef(toks, old(pos)))
      decreases |toks| - pos, 37
    {
      var kw :- Require(OneOf({TokenKind.Def}));
      var name :- Require(NameToken);
      var abs :- TermExpr();
      r := Ok(Def.Def(Span(kw.span.start, abs.span.end), name.kind.name, abs));
    }

    method ParseTypedef() returns (r: Result<Def>)
      requires Valid()
      modifies this
      ensures Valid()
      ensures Agrees(r, pos, G.ParseTypedef(toks, old(pos)))
      decreases |toks| - pos, 37
    {
      var kw :- Require(OneOf({TokenKind.Type}));
      var name :- Require(NameToken);
      var value :- TermExpr();
      r := Ok(Def.Def(Span(kw.span.start, value.span.end), name.kind.name, value));
    }

    method TermExpr() returns (r: Result<Expr>)
      requires Valid()
      modifies this
      ensures Valid()
      ensures Agrees(r, pos, G.TermExpr(toks, old(pos)))
      decreases |toks| - pos, 34
    {
      var lead := HasPeek(OneOf(G.AbstractionLead));
      if lead {
        var ty: Option<Expr> := None;
        var arrow := Eat(OneOf({TokenKind.ThinArrow}));
        if arrow.Some? {
          var t :- ParseLogical();
          ty := Some(t);
        }
        var spec := Eat(OneOf({TokenKind.Dollar}));
        var body :- TermBody();
        return Ok(Expr(Span(body.span.start, body.span.end), Abstract(None, spec.Some?, ty, body)));
      }
      var logical :- ParseLogical();
      var lead' := HasPeek(OneOf(G.AbstractionLead));
      if lead' {
        var ty: Option<Expr> := None;
        var arrow := Eat(OneOf({TokenKind.ThinArrow}));
        if arrow.Some? {
          var t :- ParseLogical();
          ty := Some(t);
        }
        var spec := Eat(OneOf({TokenKind.Dollar}));
        var body :- TermBody();
        return Ok(Expr(Span(logical.span.start, body.span.end), Abstract(Some(logical), spec.Some?, ty, body)));
      }
      var semi :- Require(OneOf({TokenKind.Semicolon}));
      r := Ok(logical);
    }

    method TermBody() returns (r: Result<Expr>)
      requires Valid()
      modifies this
      ensures Valid()
      ensures Agrees(r, pos, G.TermBody(toks, old(pos)))
      decreases |toks| - pos, 33
    {
      var arrow := Eat(OneOf({TokenKind.FatArrow}));
      if arrow.Some? {
        r := TermExpr();
        return;
      }
      var open :- Require(OneOf({TokenKind.OpenBrace}));
      var scope :- ParseScope({TokenKind.CloseBrace});
      var close :- Require(OneOf({TokenKind.CloseBrace}));
      r := Ok(Expr(Span(open.span.start, close.span.end), scope.kind));
    }

    method TermCase() returns (r: Result<Expr>)
      requires Valid()
      modifies this
      ensures Valid()
      ensures Agrees(r, pos, G.TermCase(toks, old(pos)))
      decreases |toks| - pos, 37
    {
      var kw :- Require(OneOf({TokenKind.Case}));
      var cond :- ParseLogical();
      var onTrue :- TermBody();
      var onFalse :- TermElse();
      var end := if onFalse.Some? then onFalse.value.span.end else onTrue.span.end;
      r := Ok(Expr(Span(kw.span.start, end), ExprKind.Case(cond, onTrue, onFalse)));
    }

    method TermElse() returns (r: Result<Option<Expr>>)
      requires Valid()
      modifies this
      ensures Valid()
      ensures Agrees(r, pos, G.TermElse(toks, old(pos)))
      decreases |toks| - pos, 33
    {
      var kw := Eat(OneOf({TokenKind.Else}));
      if kw.None? {
        return Ok(None);
      }
      var direct := HasPeek(OneOf({TokenKind.FatArrow, TokenKind.OpenBrace}));
      if direct {
        var body :- TermBody();
        return Ok(Some(body));
      }
      var cond :- ParseLogical();
      var onTrue :- TermBody();
      var onFalse :- TermElse();
      var end := if onFalse.Some? then onFalse.value.span.end else onTrue.span.end;
      r := Ok(Some(Expr(Span(kw.value.span.start, end), ExprKind.Case(cond, onTrue, onFalse))));
    }

    method TermFor() returns (r: Result<Expr>)
      requires Valid()
      modifies this
      ensures Valid()
      ensures Agrees(r, pos, G.TermFor(toks, old(pos)))
      decreases |toks| - pos, 37
    {
      var kw :- Require(OneOf({TokenKind.For}));
      var first :- ParseLogical();
      var second: Option<Expr> := None;
      var third: Option<Expr> := None;
      var semi1 := Eat(OneOf({TokenKind.Semicolon}));
      if semi1.Some? {
        var s :- ParseLogical();
        second := Some(s);
        var semi2 := Eat(OneOf({TokenKind.Semicolon}));
        if semi2.Some? {
          var t :- ParseLogical();
          third := Some(t);
        }
      }
      var body :- TermBody();
      var kind: ExprKind;
      if second.Some? {
        if third.Some? {
          kind := ExprKind.For(Some(first), second.value, third, body);
        } else {
          kind := ExprKind.For(Some(first), second.value, None, body);
        }
      } else {
        kind := ExprKind.For(None, first, None, body);
      }
      r := Ok(Expr(Span(kw.span.start, body.span.end), kind));
    }

    method ParseTuple(endKinds: set<TokenKind>) returns (r: Result<Expr>)
      requires Valid()
      modifies this
      ensures Valid()
      ensures Agrees(r, pos, G.ParseTuple(toks, old(pos), endKinds))
      decreases |toks| - pos, 36
    {
      var stop := HasPeek(OneOf(endKinds));
      var peeked: Option<Token> := None;
      if !stop {
        peeked := PeekToken();
      }
      if stop || peeked.None? {
        return Ok(Expr(Span(0, 0), Tuple([])));
      }
      var first :- ParseExpr();
      var done := HasPeek(OneOf(endKinds));
      if done {
        return Ok(first);
      }
      var start := first.span.start;
      var end := first.span.end;
      var items := [first];
      ghost var target := G.TupleLoop(toks, pos, endKinds, start, end, items);
      while true
        invariant Valid() && old(pos) <= pos
        invariant G.TupleLoop(toks, pos, endKinds, start, end, items) == target
        decreases |toks| - pos
      {
        var comma := Eat(OneOf({TokenKind.Comma}));
        if comma.None? {
          break;
        }
        end := comma.value.span.end;
        var atEnd := HasPeek(OneOf(endKinds));
        if atEnd {
          break;
        }
        var e :- ParseExpr();
        items := items + [e];
      }
      r := Ok(Expr(Span(start, end), Tuple(items)));
    }

    method ParseExpr() returns (r: Result<Expr>)
      requires Valid()
      modifies this
      ensures Valid()
      ensures Agrees(r, pos, G.ParseExpr(toks, old(pos)))
      decreases |toks| - pos, 32
    {
      var logical :- ParseLogical();
      var lead := HasPeek(OneOf(G.AbstractionLead));
      if lead {
        var ty: Option<Expr> := None;
        var arrow := Eat(OneOf({TokenKind.ThinArrow}));
        if arrow.Some? {
          var t :- ParseLogical();
          ty := Some(t);
        }
        var spec := Eat(OneOf({TokenKind.Dollar}));
        var body :- ParseBody();
        r := Ok(Expr(Span(logical.span.start, body.span.end), Abstract(Some(logical), spec.Some?, ty, body)));
      } else {
        r := Ok(logical);
      }
    }

    method ParseBody() returns (r: Result<Expr>)
      requires Valid()
      modifies this
      ensures Valid()
      ensures Agrees(r, pos, G.ParseBody(toks, old(pos)))
      decreases |toks| - pos, 31
    {
      var arrow := Eat(OneOf({TokenKind.FatArrow}));
      if arrow.Some? {
        r := ParseLogical();
        return;
      }
      var open :- Require(OneOf({TokenKind.OpenBrace}));
      var scope :- ParseScope({TokenKind.CloseBrace});
      var close :- Require(OneOf({TokenKind.CloseBrace}));
      r := Ok(Expr(Span(open.span.start, close.span.end), scope.kind));
    }

    method ParseLogical() returns (r: Result<Expr>)
      requires Valid()
      modifies this
      ensures Valid()
      ensures Agrees(r, pos, G.ParseLogical(toks, old(pos)))
      decreases |toks| - pos, 22
    {
      r := ParseBinOp(LogicalLevel);
    }

    method ParseCmp() returns (r: Result<Expr>)
      requires Valid()
      modifies this
      ensures Valid()
      ensures Agrees(r, pos, G.ParseCmp(toks, old(pos)))
      decreases |toks| - pos, 19
    {
      r := ParseBinOp(CmpLevel);
    }

    method ParseAssert() returns (r: Result<Expr>)
      requires Valid()
      modifies this
      ensures Valid()
      ensures Agrees(r, pos, G.ParseAssert(toks, old(pos)))
      decreases |toks| - pos, 16
    {
      var expr :- ParseArith();
      var tok := Eat(OneOf({TokenKind.ColonColon}));
      if tok.Some? {
        var ty :- ParseArith();
        r := Ok(Expr(Span(expr.span.start, tok.value.span.end), Assert(expr, ty)));
      } else {
        r := Ok(expr);
      }
    }

    method ParseArith() returns (r: Result<Expr>)
      requires Valid()
      modifies this
      ensures Valid()
      ensures Agrees(r, pos, G.ParseArith(toks, old(pos)))
      decreases |toks| - pos, 15
    {
      r := ParseBinOp(ArithLevel);
    }

    method ParseTerm() returns (r: Result<Expr>)
      requires Valid()
      modifies this
      ensures Valid()
      ensures Agrees(r, pos, G.ParseTerm(toks, old(pos)))
      decreases |toks| - pos, 12
    {
      r := ParseBinOp(TermLevel);
    }

    /** The `next` parser handed to `bin_op` at each level. */
    method Operand(level: Level) returns (r: Result<Expr>)
      requires Valid()
      modifies this
      ensures Valid()
      ensures Agrees(r, pos, G.Operand(toks, old(pos), level))
      decreases |toks| - pos, G.LevelRank(level) - 1
    {
      match level
      case LogicalLevel => r := ParseCmp();
      case CmpLevel => r := ParseAssert();
      case ArithLevel => r := ParseTerm();
      case TermLevel => r := ParsePrefix();
    }

    method ParseBinOp(level: Level) returns (r: Result<Expr>)
      requires Valid()
      modifies this
      ensures Valid()
      ensures Agrees(r, pos, G.ParseBinOp(toks, old(pos), level))
      decreases |toks| - pos, G.LevelRank(level)
    {
      var a :- Operand(level);
      ghost var target := G.BinOpLoop(toks, pos, level, a);
      while true
        invariant Valid() && old(pos) <= pos
        invariant G.BinOpLoop(toks, pos, level, a) == target
        decreases |toks| - pos
      {
        var op := Eat(BinOps(level));
        if op.None? {
          break;
        }
        var b :- Operand(level);
        a := Expr(Span(a.span.start, a.span.end), Binary(BinOpOf(level, op.value.kind).value, a, b));
      }
      r := Ok(a);
    }

    method ParsePrefix() returns (r: Result<Expr>)
      requires Valid()
      modifies this
      ensures Valid()
      ensures Agrees(r, pos, G.ParsePrefix(toks, old(pos)))
      decreases |toks| - pos, 5
    {
      var op := Eat(UnaryOps);
      if op.Some? {
        var a :- ParsePrefix();
        return Ok(Expr(Span(op.value.span.start, a.span.end), Unary(UnOpOf(op.value.kind).value, a)));
      }
      var marker := Eat(SolveMarkers);
      if marker.Some? {
        var name :- Require(NameToken);
        return Ok(Expr(Span(marker.value.span.start, name.span.end), Solve(MarkerOf(marker.value.kind).value, name.kind.name)));
      }
      r := ParseSuffix();
    }

    method ParseSuffix() returns (r: Result<Expr>)
      requires Valid()
      modifies this
      ensures Valid()
      ensures Agrees(r, pos, G.ParseSuffix(toks, old(pos)))
      decreases |toks| - pos, 4
    {
      var first :- MaybeAtom();
      if first.None? {
        var peeked := PeekToken();
        return Err(ParseError(Unexpected(peeked), None));
      }
      var a := first.value;
      ghost var target := G.SuffixLoop(toks, pos, a);
      while true
        invariant Valid() && old(pos) <= pos
        invariant G.SuffixLoop(toks, pos, a) == target
        decreases |toks| - pos
      {
        var arg :- MaybeAtom();
        if arg.None? {
          break;
        }
        a := Expr(Span(a.span.start, arg.value.span.end), Apply(a, arg.value));
      }
      r := Ok(a);
    }

    method MaybeAtom() returns (r: Result<Option<Expr>>)
      requires Valid()
      modifies this
      ensures Valid()
      ensures Agrees(r, pos, G.MaybeAtom(toks, old(pos)))
      decreases |toks| - pos, 2
    {
      var open := Eat(OneOf({TokenKind.OpenParen}));
      if open.Some? {
        var scope :- ParseScope({TokenKind.CloseParen});
        var close :- Require(OneOf({TokenKind.CloseParen}));
        return Ok(Some(Expr(Span(open.value.span.start, close.span.end), scope.kind)));
      }
      var isVariant := HasPeek(OneOf({TokenKind.Backslash}));
      if isVariant {
        // cannot fail: the backslash was just seen
        var backslash := Require(OneOf({TokenKind.Backslash}));
        var start := backslash.value.span;
        var name :- Require(NameToken);
        return Ok(Some(Expr(Span(start.start, name.span.end), ExprKind.Literal(Variant(name.kind.name)))));
      }
      var lit := Eat(AtomTokens);
      if lit.Some? {
        return Ok(Some(Expr(lit.value.span, AtomOf(lit.value.kind).value)));
      }
      r := Ok(None);
    }
  }
}
