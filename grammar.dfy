/**
 * The grammar as specification functions over (input, cursor). Each function
 * mirrors one parser routine; a routine's loop is a tail-recursive `...Loop`
 * function over the loop's variables. Termination is by the number of tokens
 * left, then by a rank that drops along every call made without consuming.
 */
module Grammar {
  import opened Wrappers
  import opened Tokens
  import opened Ast
  import opened Errors
  import opened Lookahead

  /** The tokens that open an abstraction tail: `$`, `->`, `=>`, `{`. */
  const AbstractionLead: set<TokenKind> := {TokenKind.Dollar, TokenKind.ThinArrow, TokenKind.FatArrow, TokenKind.OpenBrace}

  /** The empty tuple `tuple` returns when there is nothing to parse. */
  const EmptyTuple: Expr := Expr(Span(0, 0), Tuple([]))

  /** The local variables of the scope loop. */
  datatype ScopeAcc = ScopeAcc(defs: seq<Def>, exprs: seq<Expr>, start: nat, end: nat, first: bool, discard: bool)

  const ScopeStart: ScopeAcc := ScopeAcc([], [], 0, 0, true, false)

  /**
   * One statement of a scope: a declaration, or an expression with the span it
   * covers and whether the loop continues after it.
   */
  datatype Stmt = DefStmt(def: Def) | ExprStmt(expr: Expr, span: Span, discard: bool)

  predicate Continues(s: Stmt)
  {
    s.DefStmt? || s.discard
  }

  function StmtSpan(s: Stmt): Span
  {
    match s
    case DefStmt(d) => d.span
    case ExprStmt(_, span, _) => span
  }

  /**
   * The bookkeeping after one statement: the statement lands in exactly one of
   * the two lists, nothing recorded before is lost, and the scope has begun.
   */
  function Record(acc: ScopeAcc, s: Stmt): (r: ScopeAcc)
    ensures acc.defs <= r.defs && acc.exprs <= r.exprs
    ensures |r.defs| + |r.exprs| == |acc.defs| + |acc.exprs| + 1
    ensures !r.first && r.end == StmtSpan(s).end
  {
    var span := StmtSpan(s);
    ScopeAcc(
      if s.DefStmt? then acc.defs + [s.def] else acc.defs,
      if s.ExprStmt? then acc.exprs + [s.expr] else acc.exprs,
      if acc.first then span.start else acc.start,
      span.end,
      false,
      Continues(s))
  }

  /** The result shape of a scope: bare tail expression, empty tuple, or a `Scope` node. */
  function ScopeResult(acc: ScopeAcc): Expr
  {
    if acc.defs == [] && |acc.exprs| == 1 && !acc.discard then acc.exprs[0]
    else if acc.defs == [] && acc.exprs == [] then Expr(Span(acc.start, acc.end), Tuple([]))
    else Expr(Span(acc.start, acc.end), Scope(acc.defs, acc.exprs, acc.discard))
  }

  /** `scope`: statements until end of input or a token of `endKinds`. */
  function ParseScope(toks: seq<Token>, pos: nat, endKinds: set<TokenKind>): (r: Result<Parsed<Expr>>)
    requires pos <= |toks|
    ensures r.Ok? ==> pos <= r.value.next <= |toks|
    decreases |toks| - pos, 40
  {
    var l :- ScopeLoop(toks, pos, endKinds, ScopeStart);
    Ok(Parsed(ScopeResult(l.node), l.next))
  }

  function ScopeLoop(toks: seq<Token>, pos: nat, endKinds: set<TokenKind>, acc: ScopeAcc): (r: Result<Parsed<ScopeAcc>>)
    requires pos <= |toks|
    ensures r.Ok? ==> pos <= r.value.next <= |toks|
    decreases |toks| - pos, 39
  {
    var peeked := StreamPeek(toks, pos);
    if peeked.None? then Ok(Parsed(acc, pos))
    else
      var stop := HasPeek(toks, pos, OneOf(endKinds));
      if stop then Ok(Parsed(acc, pos))
      else
        var s :- ParseStatement(toks, pos, endKinds);
        var acc' := Record(acc, s.node);
        if acc'.discard then ScopeLoop(toks, s.next, endKinds, acc')
        else Ok(Parsed(acc', s.next))
  }

  /** The dispatch on the leading token inside the scope loop. */
  function ParseStatement(toks: seq<Token>, pos: nat, endKinds: set<TokenKind>): (r: Result<Parsed<Stmt>>)
    requires pos <= |toks|
    ensures r.Ok? ==> pos <= r.value.next <= |toks|
    ensures r.Ok? && Continues(r.value.node) ==> pos < r.value.next
    decreases |toks| - pos, 38
  {
    var isDef := HasPeek(toks, pos, OneOf({TokenKind.Def}));
    if isDef then
      var d :- ParseDef(toks, pos);
      Ok(Parsed(DefStmt(d.node), d.next))
    else
      var isType := HasPeek(toks, pos, OneOf({TokenKind.Type}));
      if isType then
        var d :- ParseTypedef(toks, pos);
        Ok(Parsed(DefStmt(d.node), d.next))
      else
        var isCase := HasPeek(toks, pos, OneOf({TokenKind.Case}));
        if isCase then
          var c :- TermCase(toks, pos);
          Ok(Parsed(ExprStmt(c.node, c.node.span, true), c.next))
        else
          var isFor := HasPeek(toks, pos, OneOf({TokenKind.For}));
          if isFor then
            var f :- TermFor(toks, pos);
            Ok(Parsed(ExprStmt(f.node, f.node.span, true), f.next))
          else
            var e :- ParseTuple(toks, pos, {TokenKind.Semicolon} + endKinds);
            var semi := Eat(toks, e.next, OneOf({TokenKind.Semicolon}));
            var end := if semi.node.Some? then semi.node.value.span.end else e.node.span.end;
            Ok(Parsed(ExprStmt(e.node, Span(e.node.span.start, end), semi.node.Some?), semi.next))
  }

  /** `def <name> <termexpr>`. */
  function ParseDef(toks: seq<Token>, pos: nat): (r: Result<Parsed<Def>>)
    requires pos <= |toks|
    ensures r.Ok? ==> pos < r.value.next <= |toks|
    decreases |toks| - pos, 37
  {
    var kw :- Require(toks, pos, OneOf({TokenKind.Def}));
    var name :- Require(toks, kw.next, NameToken);
    var abs :- TermExpr(toks, name.next);
    Ok(Parsed(Def.Def(Span(kw.node.span.start, abs.node.span.end), name.node.kind.name, abs.node), abs.next))
  }

  /** `type <name> <termexpr>`: the same node as `def`. */
  function ParseTypedef(toks: seq<Token>, pos: nat): (r: Result<Parsed<Def>>)
    requires pos <= |toks|
    ensures r.Ok? ==> pos < r.value.next <= |toks|
    decreases |toks| - pos, 37
  {
    var kw :- Require(toks, pos, OneOf({TokenKind.Type}));
    var name :- Require(toks, kw.next, NameToken);
    var value :- TermExpr(toks, name.next);
    Ok(Parsed(Def.Def(Span(kw.node.span.start, value.node.span.end), name.node.kind.name, value.node), value.next))
  }

  /** `case <cond> <termbody> <termelse>`. */
  function TermCase(toks: seq<Token>, pos: nat): (r: Result<Parsed<Expr>>)
    requires pos <= |toks|
    ensures r.Ok? ==> pos < r.value.next <= |toks|
    decreases |toks| - pos, 37
  {
    var kw :- Require(toks, pos, OneOf({TokenKind.Case}));
    var cond :- ParseLogical(toks, kw.next);
    var onTrue :- TermBody(toks, cond.next);
    var onFalse :- TermElse(toks, onTrue.next);
    var end := if onFalse.node.Some? then onFalse.node.value.span.end else onTrue.node.span.end;
    Ok(Parsed(Expr(Span(kw.node.span.start, end), ExprKind.Case(cond.node, onTrue.node, onFalse.node)), onFalse.next))
  }

  /** The optional `else` continuation of a `case`. */
  function TermElse(toks: seq<Token>, pos: nat): (r: Result<Parsed<Option<Expr>>>)
    requires pos <= |toks|
    ensures r.Ok? ==> pos <= r.value.next <= |toks|
    decreases |toks| - pos, 33
  {
    var kw := Eat(toks, pos, OneOf({TokenKind.Else}));
    if kw.node.None? then Ok(Parsed(None, kw.next))
    else
      var direct := HasPeek(toks, kw.next, OneOf({TokenKind.FatArrow, TokenKind.OpenBrace}));
      if direct then
        var body :- TermBody(toks, kw.next);
        Ok(Parsed(Some(body.node), body.next))
      else
        var cond :- ParseLogical(toks, kw.next);
        var onTrue :- TermBody(toks, cond.next);
        var onFalse :- TermElse(toks, onTrue.next);
        var end := if onFalse.node.Some? then onFalse.node.value.span.end else onTrue.node.span.end;
        Ok(Parsed(Some(Expr(Span(kw.node.value.span.start, end), ExprKind.Case(cond.node, onTrue.node, onFalse.node))), onFalse.next))
  }

  /** `for <e1> [; <e2> [; <e3>]] <termbody>`. */
  function TermFor(toks: seq<Token>, pos: nat): (r: Result<Parsed<Expr>>)
    requires pos <= |toks|
    ensures r.Ok? ==> pos < r.value.next <= |toks|
    decreases |toks| - pos, 37
  {
    var kw :- Require(toks, pos, OneOf({TokenKind.For}));
    var first :- ParseLogical(toks, kw.next);
    var semi1 := Eat(toks, first.next, OneOf({TokenKind.Semicolon}));
    if semi1.node.None? then
      var body :- TermBody(toks, semi1.next);
      Ok(Parsed(Expr(Span(kw.node.span.start, body.node.span.end), ExprKind.For(None, first.node, None, body.node)), body.next))
    else
      var second :- ParseLogical(toks, semi1.next);
      var semi2 := Eat(toks, second.next, OneOf({TokenKind.Semicolon}));
      if semi2.node.None? then
        var body :- TermBody(toks, semi2.next);
        Ok(Parsed(Expr(Span(kw.node.span.start, body.node.span.end), ExprKind.For(Some(first.node), second.node, None, body.node)), body.next))
      else
        var third :- ParseLogical(toks, semi2.next);
        var body :- TermBody(toks, third.next);
        Ok(Parsed(Expr(Span(kw.node.span.start, body.node.span.end), ExprKind.For(Some(first.node), second.node, Some(third.node), body.node)), body.next))
  }

  /** Statement-level abstraction, or a plain expression that must end in `;`. */
  function TermExpr(toks: seq<Token>, pos: nat): (r: Result<Parsed<Expr>>)
    requires pos <= |toks|
    ensures r.Ok? ==> pos < r.value.next <= |toks|
    decreases |toks| - pos, 34
  {
    var lead := HasPeek(toks, pos, OneOf(AbstractionLead));
    if lead then
      var ty :- ReturnType(toks, pos);
      var spec := Eat(toks, ty.next, OneOf({TokenKind.Dollar}));
      var body :- TermBody(toks, spec.next);
      Ok(Parsed(Expr(Span(body.node.span.start, body.node.span.end), Abstract(None, spec.node.Some?, ty.node, body.node)), body.next))
    else
      var logical :- ParseLogical(toks, pos);
      var lead' := HasPeek(toks, logical.next, OneOf(AbstractionLead));
      if lead' then
        var ty :- ReturnType(toks, logical.next);
        var spec := Eat(toks, ty.next, OneOf({TokenKind.Dollar}));
        var body :- TermBody(toks, spec.next);
        Ok(Parsed(Expr(Span(logical.node.span.start, body.node.span.end), Abstract(Some(logical.node), spec.node.Some?, ty.node, body.node)), body.next))
      else
        var semi :- Require(toks, logical.next, OneOf({TokenKind.Semicolon}));
        Ok(Parsed(logical.node, semi.next))
  }

  /** Statement-level body: `=> <termexpr>` or a braced scope. */
  function TermBody(toks: seq<Token>, pos: nat): (r: Result<Parsed<Expr>>)
    requires pos <= |toks|
    ensures r.Ok? ==> pos < r.value.next <= |toks|
    decreases |toks| - pos, 33
  {
    var arrow := Eat(toks, pos, OneOf({TokenKind.FatArrow}));
    if arrow.node.Some? then TermExpr(toks, arrow.next)
    else
      var open :- Require(toks, arrow.next, OneOf({TokenKind.OpenBrace}));
      var scope :- ParseScope(toks, open.next, {TokenKind.CloseBrace});
      var close :- Require(toks, scope.next, OneOf({TokenKind.CloseBrace}));
      Ok(Parsed(Expr(Span(open.node.span.start, close.node.span.end), scope.node.kind), close.next))
  }

  /** `tuple`: comma-separated expressions up to a token of `endKinds`. */
  function ParseTuple(toks: seq<Token>, pos: nat, endKinds: set<TokenKind>): (r: Result<Parsed<Expr>>)
    requires pos <= |toks|
    ensures r.Ok? ==> pos <= r.value.next <= |toks|
    decreases |toks| - pos, 36
  {
    var stop := HasPeek(toks, pos, OneOf(endKinds));
    if stop then Ok(Parsed(EmptyTuple, pos))
    else
      var peeked := StreamPeek(toks, pos);
      if peeked.None? then Ok(Parsed(EmptyTuple, pos))
      else
        var first :- ParseExpr(toks, pos);
        var done := HasPeek(toks, first.next, OneOf(endKinds));
        if done then Ok(first)
        else TupleLoop(toks, first.next, endKinds, first.node.span.start, first.node.span.end, [first.node])
  }

  function TupleLoop(toks: seq<Token>, pos: nat, endKinds: set<TokenKind>, start: nat, end: nat, items: seq<Expr>): (r: Result<Parsed<Expr>>)
    requires pos <= |toks|
    ensures r.Ok? ==> pos <= r.value.next <= |toks|
    decreases |toks| - pos, 35
  {
    var comma := Eat(toks, pos, OneOf({TokenKind.Comma}));
    if comma.node.None? then Ok(Parsed(Expr(Span(start, end), Tuple(items)), comma.next))
    else
      var end' := comma.node.value.span.end;
      var done := HasPeek(toks, comma.next, OneOf(endKinds));
      if done then Ok(Parsed(Expr(Span(start, end'), Tuple(items)), comma.next))
      else
        var e :- ParseExpr(toks, comma.next);
        TupleLoop(toks, e.next, endKinds, start, end', items + [e.node])
  }

  /** Expression-level abstraction: a logical expression, then optionally an abstraction tail. */
  function ParseExpr(toks: seq<Token>, pos: nat): (r: Result<Parsed<Expr>>)
    requires pos <= |toks|
    ensures r.Ok? ==> pos < r.value.next <= |toks|
    decreases |toks| - pos, 32
  {
    var logical :- ParseLogical(toks, pos);
    var lead := HasPeek(toks, logical.next, OneOf(AbstractionLead));
    if lead then
      var ty :- ReturnType(toks, logical.next);
      var spec := Eat(toks, ty.next, OneOf({TokenKind.Dollar}));
      var body :- ParseBody(toks, spec.next);
      Ok(Parsed(Expr(Span(logical.node.span.start, body.node.span.end), Abstract(Some(logical.node), spec.node.Some?, ty.node, body.node)), body.next))
    else Ok(logical)
  }

  /** Expression-level body: `=> <logical>` or a braced scope. */
  function ParseBody(toks: seq<Token>, pos: nat): (r: Result<Parsed<Expr>>)
    requires pos <= |toks|
    ensures r.Ok? ==> pos < r.value.next <= |toks|
    decreases |toks| - pos, 31
  {
    var arrow := Eat(toks, pos, OneOf({TokenKind.FatArrow}));
    if arrow.node.Some? then ParseLogical(toks, arrow.next)
    else
      var open :- Require(toks, arrow.next, OneOf({TokenKind.OpenBrace}));
      var scope :- ParseScope(toks, open.next, {TokenKind.CloseBrace});
      var close :- Require(toks, scope.next, OneOf({TokenKind.CloseBrace}));
      Ok(Parsed(Expr(Span(open.node.span.start, close.node.span.end), scope.node.kind), close.next))
  }

  /** The optional `-> <logical>` result type of an abstraction tail. */
  function ReturnType(toks: seq<Token>, pos: nat): (r: Result<Parsed<Option<Expr>>>)
    requires pos <= |toks|
    ensures r.Ok? ==> pos <= r.value.next <= |toks|
    decreases |toks| - pos, 30
  {
    var arrow := Eat(toks, pos, OneOf({TokenKind.ThinArrow}));
    if arrow.node.None? then Ok(Parsed(None, arrow.next))
    else
      var ty :- ParseLogical(toks, arrow.next);
      Ok(Parsed(Some(ty.node), ty.next))
  }

  /** The rank of `bin_op` at each level in the termination measure. */
  function LevelRank(level: Level): nat
  {
    match level
    case LogicalLevel => 21
    case CmpLevel => 18
    case ArithLevel => 14
    case TermLevel => 11
  }

  function ParseLogical(toks: seq<Token>, pos: nat): (r: Result<Parsed<Expr>>)
    requires pos <= |toks|
    ensures r.Ok? ==> pos < r.value.next <= |toks|
    decreases |toks| - pos, 22
  {
    ParseBinOp(toks, pos, LogicalLevel)
  }

  function ParseCmp(toks: seq<Token>, pos: nat): (r: Result<Parsed<Expr>>)
    requires pos <= |toks|
    ensures r.Ok? ==> pos < r.value.next <= |toks|
    decreases |toks| - pos, 19
  {
    ParseBinOp(toks, pos, CmpLevel)
  }

  /** An arithmetic expression with an optional `:: <type>` ascription. */
  function ParseAssert(toks: seq<Token>, pos: nat): (r: Result<Parsed<Expr>>)
    requires pos <= |toks|
    ensures r.Ok? ==> pos < r.value.next <= |toks|
    decreases |toks| - pos, 16
  {
    var e :- ParseArith(toks, pos);
    var tok := Eat(toks, e.next, OneOf({TokenKind.ColonColon}));
    if tok.node.None? then Ok(Parsed(e.node, tok.next))
    else
      var ty :- ParseArith(toks, tok.next);
      Ok(Parsed(Expr(Span(e.node.span.start, tok.node.value.span.end), Assert(e.node, ty.node)), ty.next))
  }

  function ParseArith(toks: seq<Token>, pos: nat): (r: Result<Parsed<Expr>>)
    requires pos <= |toks|
    ensures r.Ok? ==> pos < r.value.next <= |toks|
    decreases |toks| - pos, 15
  {
    ParseBinOp(toks, pos, ArithLevel)
  }

  function ParseTerm(toks: seq<Token>, pos: nat): (r: Result<Parsed<Expr>>)
    requires pos <= |toks|
    ensures r.Ok? ==> pos < r.value.next <= |toks|
    decreases |toks| - pos, 12
  {
    ParseBinOp(toks, pos, TermLevel)
  }

  /** The next tighter level below each binary level (the `next` argument of `bin_op`). */
  function Operand(toks: seq<Token>, pos: nat, level: Level): (r: Result<Parsed<Expr>>)
    requires pos <= |toks|
    ensures r.Ok? ==> pos < r.value.next <= |toks|
    decreases |toks| - pos, LevelRank(level) - 1
  {
    match level
    case LogicalLevel => ParseCmp(toks, pos)
    case CmpLevel => ParseAssert(toks, pos)
    case ArithLevel => ParseTerm(toks, pos)
    case TermLevel => ParsePrefix(toks, pos)
  }

  /** `bin_op`: one operand, then operator/operand pairs folded to the left. */
  function ParseBinOp(toks: seq<Token>, pos: nat, level: Level): (r: Result<Parsed<Expr>>)
    requires pos <= |toks|
    ensures r.Ok? ==> pos < r.value.next <= |toks|
    decreases |toks| - pos, LevelRank(level)
  {
    var a :- Operand(toks, pos, level);
    BinOpLoop(toks, a.next, level, a.node)
  }

  function BinOpLoop(toks: seq<Token>, pos: nat, level: Level, acc: Expr): (r: Result<Parsed<Expr>>)
    requires pos <= |toks|
    ensures r.Ok? ==> pos <= r.value.next <= |toks|
    decreases |toks| - pos, LevelRank(level) - 1
  {
    var op := Eat(toks, pos, BinOps(level));
    if op.node.None? then Ok(Parsed(acc, op.next))
    else
      var b :- Operand(toks, op.next, level);
      var node := Expr(Span(acc.span.start, acc.span.end), Binary(BinOpOf(level, op.node.value.kind).value, acc, b.node));
      BinOpLoop(toks, b.next, level, node)
  }

  /** Unary operators (stacking), solve markers, or an application. */
  function ParsePrefix(toks: seq<Token>, pos: nat): (r: Result<Parsed<Expr>>)
    requires pos <= |toks|
    ensures r.Ok? ==> pos < r.value.next <= |toks|
    decreases |toks| - pos, 5
  {
    var op := Eat(toks, pos, UnaryOps);
    if op.node.Some? then
      var a :- ParsePrefix(toks, op.next);
      Ok(Parsed(Expr(Span(op.node.value.span.start, a.node.span.end), Unary(UnOpOf(op.node.value.kind).value, a.node)), a.next))
    else
      var marker := Eat(toks, op.next, SolveMarkers);
      if marker.node.Some? then
        var name :- Require(toks, marker.next, NameToken);
        Ok(Parsed(Expr(Span(marker.node.value.span.start, name.node.span.end), Solve(MarkerOf(marker.node.value.kind).value, name.node.kind.name)), name.next))
      else ParseSuffix(toks, marker.next)
  }

  /** `suffix`: an atom, then further atoms applied to it from the left. */
  function ParseSuffix(toks: seq<Token>, pos: nat): (r: Result<Parsed<Expr>>)
    requires pos <= |toks|
    ensures r.Ok? ==> pos < r.value.next <= |toks|
    decreases |toks| - pos, 4
  {
    var a :- MaybeAtom(toks, pos);
    if a.node.None? then
      Err(ParseError(Unexpected(StreamPeek(toks, a.next)), None))
    else SuffixLoop(toks, a.next, a.node.value)
  }

  function SuffixLoop(toks: seq<Token>, pos: nat, acc: Expr): (r: Result<Parsed<Expr>>)
    requires pos <= |toks|
    ensures r.Ok? ==> pos <= r.value.next <= |toks|
    decreases |toks| - pos, 3
  {
    var arg :- MaybeAtom(toks, pos);
    if arg.node.None? then Ok(Parsed(acc, arg.next))
    else SuffixLoop(toks, arg.next, Expr(Span(acc.span.start, arg.node.value.span.end), Apply(acc, arg.node.value)))
  }

  /** `maybe_atom`: a parenthesized scope, a variant literal, a literal or a name; or nothing. */
  function MaybeAtom(toks: seq<Token>, pos: nat): (r: Result<Parsed<Option<Expr>>>)
    requires pos <= |toks|
    ensures r.Ok? ==> pos <= r.value.next <= |toks|
    ensures r.Ok? ==> (r.value.node.Some? <==> pos < r.value.next)
    decreases |toks| - pos, 2
  {
    var open := Eat(toks, pos, OneOf({TokenKind.OpenParen}));
    if open.node.Some? then
      var scope :- ParseScope(toks, open.next, {TokenKind.CloseParen});
      var close :- Require(toks, scope.next, OneOf({TokenKind.CloseParen}));
      Ok(Parsed(Some(Expr(Span(open.node.value.span.start, close.node.span.end), scope.node.kind)), close.next))
    else
      var isVariant := HasPeek(toks, open.next, OneOf({TokenKind.Backslash}));
      if isVariant then
        // cannot fail: the backslash was just seen
        var bs := Require(toks, open.next, OneOf({TokenKind.Backslash})).value;
        var name :- Require(toks, bs.next, NameToken);
        Ok(Parsed(Some(Expr(Span(bs.node.span.start, name.node.span.end), ExprKind.Literal(Variant(name.node.kind.name)))), name.next))
      else
        var lit := Eat(toks, open.next, AtomTokens);
        if lit.node.Some? then Ok(Parsed(Some(Expr(lit.node.value.span, AtomOf(lit.node.value.kind).value)), lit.next))
        else Ok(Parsed(None, lit.next))
  }

  /** `parse`: the whole input as one scope that only the end of input terminates. */
  function Parse(toks: seq<Token>): Result<Expr>
  {
    var s :- ParseScope(toks, 0, {});
    Ok(s.node)
  }
}
