/**
 * The one-token lookahead engine: token classifiers and the five primitive
 * operations (`peek`, `has_peek`, `eat`, `require`, `maybe_require`) every
 * grammar rule is built from, as functions of the input and a cursor.
 */
module Lookahead {
  import opened Wrappers
  import opened Tokens
  import opened Ast
  import opened Errors

  /** A parsed value together with the cursor position after it. */
  datatype Parsed<+T> = Parsed(node: T, next: nat)

  /** The four binary-operator levels of the precedence cascade, loosest first. */
  datatype Level = LogicalLevel | CmpLevel | ArithLevel | TermLevel

  /**
   * Token classifiers. `OneOf` covers the source's `bpred!`/`tpred!` over
   * payload-free kinds (`OneOf({})` matches no token); the others are the
   * value-producing `vpred!` tables, whose value is recovered from the matched
   * token by the functions below.
   */
  datatype Pred =
    | OneOf(kinds: set<TokenKind>)
    | NameToken
    | BinOps(level: Level)
    | UnaryOps
    | SolveMarkers
    | AtomTokens

  /** The operator table of each precedence level. */
  function BinOpOf(level: Level, k: TokenKind): Option<BinOp>
  {
    match level
    case LogicalLevel =>
      (match k
       case AmpAmp => Some(And)
       case PipePipe => Some(Or)
       case _ => None)
    case CmpLevel =>
      (match k
       case Equal => Some(Eq)
       case NotEqual => Some(Neq)
       case Gt => Some(BinOp.Gt)
       case GtEq => Some(Geq)
       case Lt => Some(BinOp.Lt)
       case LtEq => Some(Leq)
       case _ => None)
    case ArithLevel =>
      (match k
       case Plus => Some(Add)
       case Minus => Some(Sub)
       case _ => None)
    case TermLevel =>
      (match k
       case Star => Some(Mul)
       case Slash => Some(Div)
       case Percent => Some(Mod)
       case _ => None)
  }

  function UnOpOf(k: TokenKind): Option<UnOp>
  {
    match k
    case Bang => Some(Not)
    case Minus => Some(Neg)
    case _ => None
  }

  function MarkerOf(k: TokenKind): Option<SolveMarker>
  {
    match k
    case Val => Some(SolveMarker.Val)
    case Var => Some(SolveMarker.Var)
    case Set => Some(SolveMarker.Set)
    case _ => None
  }

  /** The single-token atoms: numeric and string literals and bare names. */
  function AtomOf(k: TokenKind): Option<ExprKind>
  {
    match k
    case Float(f) => Some(ExprKind.Literal(Literal.Float(f)))
    case Integer(i) => Some(ExprKind.Literal(Literal.Integer(i)))
    case String(s) => Some(ExprKind.Literal(Literal.String(s)))
    case Name(n) => Some(ExprKind.Name(n))
    case _ => None
  }

  predicate Accepts(p: Pred, k: TokenKind)
  {
    match p
    case OneOf(kinds) => k in kinds
    case NameToken => k.Name?
    case BinOps(level) => BinOpOf(level, k).Some?
    case UnaryOps => UnOpOf(k).Some?
    case SolveMarkers => MarkerOf(k).Some?
    case AtomTokens => AtomOf(k).Some?
  }

  /** True when the cursor is at the end of input or at a token of `kinds`. */
  predicate AtEnd(toks: seq<Token>, pos: nat, kinds: set<TokenKind>)
  {
    pos == |toks| || (pos < |toks| && toks[pos].kind in kinds)
  }

  /** True when the cursor is at the end of input or at a token `p` rejects. */
  predicate NoMatch(toks: seq<Token>, pos: nat, p: Pred)
  {
    pos == |toks| || (pos < |toks| && !Accepts(p, toks[pos].kind))
  }

  /** The tokenizer's own peek: the next token, or nothing at end of input. */
  function StreamPeek(toks: seq<Token>, pos: nat): Option<Token>
    requires pos <= |toks|
  {
    if pos < |toks| then Some(toks[pos]) else None
  }

  /** `peek`: the next token when it satisfies `p`; never consumes. */
  function Peek(toks: seq<Token>, pos: nat, p: Pred): (r: Option<Token>)
    requires pos <= |toks|
    ensures r.Some? <==> pos < |toks| && Accepts(p, toks[pos].kind)
    ensures r.Some? ==> r.value == toks[pos]
  {
    var t := StreamPeek(toks, pos);
    if t.Some? && Accepts(p, t.value.kind) then t else None
  }

  /** `has_peek`: whether the next token satisfies `p`; false at end of input. */
  function HasPeek(toks: seq<Token>, pos: nat, p: Pred): (r: bool)
    requires pos <= |toks|
    ensures r <==> pos < |toks| && Accepts(p, toks[pos].kind)
  {
    var t := StreamPeek(toks, pos);
    t.Some? && Accepts(p, t.value.kind)
  }

  /**
   * `eat`: consumes the next token when it satisfies `p`. It never fails; on a
   * mismatch or at end of input it consumes nothing.
   */
  function Eat(toks: seq<Token>, pos: nat, p: Pred): (r: Parsed<Option<Token>>)
    requires pos <= |toks|
    ensures r.node.Some? <==> pos < |toks| && Accepts(p, toks[pos].kind)
    ensures r.node.Some? ==> r.node.value == toks[pos] && r.next == pos + 1
    ensures r.node.None? ==> r.next == pos
  {
    var t := StreamPeek(toks, pos);
    if t.Some? && Accepts(p, t.value.kind) then Parsed(t, pos + 1) else Parsed(None, pos)
  }

  /**
   * `maybe_require`: consumes the next token when it satisfies `p`, fails with
   * `Unexpected` naming a token `p` rejects (consuming nothing), and yields no
   * token and no error at end of input.
   */
  function MaybeRequire(toks: seq<Token>, pos: nat, p: Pred): (r: Result<Parsed<Option<Token>>>)
    requires pos <= |toks|
    ensures pos < |toks| && Accepts(p, toks[pos].kind) ==> r == Ok(Parsed(Some(toks[pos]), pos + 1))
    ensures pos < |toks| && !Accepts(p, toks[pos].kind) ==>
              r == Err(ParseError(Unexpected(Some(toks[pos])), Some(toks[pos].span)))
    ensures pos == |toks| ==> r == Ok(Parsed(None, pos))
  {
    match StreamPeek(toks, pos)
    case Some(tok) =>
      if Accepts(p, tok.kind) then Ok(Parsed(Some(tok), pos + 1))
      else Err(ParseError(Unexpected(Some(tok)), Some(tok.span)))
    case None => Ok(Parsed(None, pos))
  }

  /**
   * `require`: like `maybe_require`, but the end of input is an error too,
   * `Unexpected(None)` without a span.
   */
  function Require(toks: seq<Token>, pos: nat, p: Pred): (r: Result<Parsed<Token>>)
    requires pos <= |toks|
    ensures r.Ok? <==> pos < |toks| && Accepts(p, toks[pos].kind)
    ensures r.Ok? ==> r.value == Parsed(toks[pos], pos + 1)
    ensures pos < |toks| && !Accepts(p, toks[pos].kind) ==>
              r == Err(ParseError(Unexpected(Some(toks[pos])), Some(toks[pos].span)))
    ensures pos == |toks| ==> r == Err(ParseError(Unexpected(None), None))
  {
    var t :- MaybeRequire(toks, pos, p);
    match t.node
    case Some(tok) => Ok(Parsed(tok, t.next))
    case None => Err(ParseError(Unexpected(None), None))
  }

  /**
   * Relates an imperative parser's result `r` and cursor `pos` after a call to
   * the specification's result for the same call.
   */
  predicate Agrees<T(==)>(r: Result<T>, pos: nat, s: Result<Parsed<T>>)
  {
    match s
    case Ok(p) => r == Ok(p.node) && pos == p.next
    case Err(e) => r == Err(e)
  }
}
