/** The abstract syntax tree the parser produces. */
module Ast {
  import opened Wrappers
  import opened Tokens

  datatype BinOp = And | Or | Eq | Neq | Gt | Geq | Lt | Leq | Add | Sub | Mul | Div | Mod

  datatype UnOp = Not | Neg

  /** Tags a name occurrence for a later binding or lookup pass. */
  datatype SolveMarker = Val | Var | Set

  datatype Literal =
    | Float(text: string)
    | Integer(text: string)
    | String(text: string)
    | Variant(name: string)

  datatype Expr = Expr(span: Span, kind: ExprKind)

  datatype ExprKind =
    | Tuple(items: seq<Expr>)
    | Scope(defs: seq<Def>, exprs: seq<Expr>, discard: bool)
    | Abstract(arg: Option<Expr>, spec: bool, ty: Option<Expr>, body: Expr)
    | Case(cond: Expr, onTrue: Expr, onFalse: Option<Expr>)
    | For(init: Option<Expr>, cond: Expr, afterthought: Option<Expr>, body: Expr)
    | Assert(subject: Expr, asType: Expr)
    | Binary(op: BinOp, lhs: Expr, rhs: Expr)
    | Unary(unop: UnOp, operand: Expr)
    | Solve(marker: SolveMarker, ident: string)
    | Apply(callee: Expr, argument: Expr)
    | Literal(value: Literal)
    | Name(name: string)

  /** A `def` or `type` declaration; the two keywords yield the same node. */
  datatype Def = Def(span: Span, name: string, value: Expr)
}
