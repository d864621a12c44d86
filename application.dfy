/**
 * Properties of application by juxtaposition (`suffix`) and of atoms
 * (`maybe_atom`).
 */
module Application {
  import opened Wrappers
  import opened Tokens
  import opened Ast
  import opened Errors
  import opened Lookahead
  import opened Grammar

  /** The first tokens of an atom: `(`, `\`, a literal or a name. */
  predicate AtomStart(k: TokenKind)
  {
    k == TokenKind.OpenParen || k == TokenKind.Backslash || AtomOf(k).Some?
  }

  /**
   * Left-associative application, defined from the last argument down: the
   * root applies everything before the last argument to it, and spans from the
   * callee's start to the last argument's end.
   */
  function ApplyAll(callee: Expr, args: seq<Expr>): (e: Expr)
    ensures args == [] ==> e == callee
    ensures args != [] ==> e.span == Span(callee.span.start, args[|args| - 1].span.end) &&
                           e.kind.Apply? && e.kind.argument == args[|args| - 1]
    decreases |args|
  {
    if args == [] then callee
    else
      var last := args[|args| - 1];
      Expr(Span(callee.span.start, last.span.end), Apply(ApplyAll(callee, args[..|args| - 1]), last))
  }

  /** The tokens from `pos` to `q` are exactly the atoms `args`, one after another. */
  predicate AtomRun(toks: seq<Token>, pos: nat, args: seq<Expr>, q: nat)
    requires pos <= |toks|
    ensures AtomRun(toks, pos, args, q) ==> pos <= q <= |toks|
    decreases |args|
  {
    if args == [] then q == pos
    else
      var a := MaybeAtom(toks, pos);
      a.Ok? && a.value.node == Some(args[0]) && AtomRun(toks, a.value.next, args[1..], q)
  }

  lemma {:induction false} ApplyAllSnoc(callee: Expr, args: seq<Expr>, a: Expr)
    ensures ApplyAll(callee, args + [a]) == Expr(Span(callee.span.start, a.span.end), Apply(ApplyAll(callee, args), a))
  {
    assert (args + [a])[..|args|] == args;
  }

  /** `maybe_atom` yields nothing, consuming nothing, exactly when no atom starts at the cursor. */
  lemma {:induction false} MaybeAtomNothing(toks: seq<Token>, pos: nat)
    requires pos <= |toks|
    ensures MaybeAtom(toks, pos) == Ok(Parsed(None, pos)) <==> pos == |toks| || !AtomStart(toks[pos].kind)
  {
    if pos < |toks| && AtomStart(toks[pos].kind) {
      var k := toks[pos].kind;
      if k == TokenKind.OpenParen {
        assert Eat(toks, pos, OneOf({TokenKind.OpenParen})).node.Some?;
      } else if k == TokenKind.Backslash {
        assert HasPeek(toks, pos, OneOf({TokenKind.Backslash}));
      } else {
        assert Eat(toks, pos, AtomTokens).node.Some?;
      }
    }
  }

  /** A literal or a name token is an atom on its own, with the token's span. */
  lemma {:induction false} MaybeAtomSingle(toks: seq<Token>, pos: nat)
    requires pos < |toks| && AtomOf(toks[pos].kind).Some?
    ensures MaybeAtom(toks, pos) == Ok(Parsed(Some(Expr(toks[pos].span, AtomOf(toks[pos].kind).value)), pos + 1))
  {
  }

  /**
   * A parenthesized scope is an atom with the scope's node and the span of the
   * parentheses. An unclosed one fails with `Unexpected`: without a token at
   * the end of input, and naming the token and its span where the inner scope
   * stopped before some other token.
   */
  lemma {:induction false} MaybeAtomParen(toks: seq<Token>, pos: nat)
    requires pos < |toks| && toks[pos].kind == TokenKind.OpenParen
    requires ParseScope(toks, pos + 1, {TokenKind.CloseParen}).Ok?
    ensures var s := ParseScope(toks, pos + 1, {TokenKind.CloseParen}).value;
            var i := s.next;
            (i < |toks| && toks[i].kind == TokenKind.CloseParen ==>
               MaybeAtom(toks, pos) == Ok(Parsed(Some(Expr(Span(toks[pos].span.start, toks[i].span.end), s.node.kind)), i + 1))) &&
            (i == |toks| ==> MaybeAtom(toks, pos) == Err(ParseError(Unexpected(None), None))) &&
            (i < |toks| && toks[i].kind != TokenKind.CloseParen ==>
               MaybeAtom(toks, pos) == Err(ParseError(Unexpected(Some(toks[i])), Some(toks[i].span))))
  {
  }

  /** `\ <name>` is a variant literal spanning backslash to name; anything else after `\` fails. */
  lemma {:induction false} MaybeAtomVariant(toks: seq<Token>, pos: nat)
    requires pos < |toks| && toks[pos].kind == TokenKind.Backslash
    ensures pos + 1 < |toks| && toks[pos + 1].kind.Name? ==>
              MaybeAtom(toks, pos) == Ok(Parsed(Some(Expr(Span(toks[pos].span.start, toks[pos + 1].span.end), ExprKind.Literal(Variant(toks[pos + 1].kind.name)))), pos + 2))
    ensures pos + 1 < |toks| && !toks[pos + 1].kind.Name? ==>
              MaybeAtom(toks, pos) == Err(ParseError(Unexpected(Some(toks[pos + 1])), Some(toks[pos + 1].span)))
    ensures pos + 1 == |toks| ==> MaybeAtom(toks, pos) == Err(ParseError(Unexpected(None), None))
  {
  }

  /** Soundness of the application loop: the result applies the accumulated callee to the atoms consumed. */
  lemma {:induction false} SuffixLoopSound(toks: seq<Token>, pos: nat, callee: Expr, done: seq<Expr>) returns (rest: seq<Expr>)
    requires pos <= |toks|
    requires SuffixLoop(toks, pos, ApplyAll(callee, done)).Ok?
    ensures var r := SuffixLoop(toks, pos, ApplyAll(callee, done)).value;
            AtomRun(toks, pos, rest, r.next) && MaybeAtom(toks, r.next) == Ok(Parsed(None, r.next)) &&
            r.node == ApplyAll(callee, done + rest)
    decreases |toks| - pos
  {
    var arg := MaybeAtom(toks, pos).value;
    if arg.node.None? {
      rest := [];
      assert done + rest == done;
    } else {
      var a := arg.node.value;
      ApplyAllSnoc(callee, done, a);
      var tail := SuffixLoopSound(toks, arg.next, callee, done + [a]);
      rest := [a] + tail;
      assert rest[1..] == tail;
      assert done + [a] + tail == done + rest;
    }
  }

  /** Completeness of the application loop: a maximal run of atoms is consumed and applied from the left. */
  lemma {:induction false} SuffixLoopComplete(toks: seq<Token>, pos: nat, callee: Expr, done: seq<Expr>, rest: seq<Expr>, q: nat)
    requires pos <= |toks|
    requires AtomRun(toks, pos, rest, q) && MaybeAtom(toks, q) == Ok(Parsed(None, q))
    ensures SuffixLoop(toks, pos, ApplyAll(callee, done)) == Ok(Parsed(ApplyAll(callee, done + rest), q))
    decreases |rest|
  {
    if rest == [] {
      assert done + rest == done;
    } else {
      var a := rest[0];
      var arg := MaybeAtom(toks, pos).value;
      ApplyAllSnoc(callee, done, a);
      SuffixLoopComplete(toks, arg.next, callee, done + [a], rest[1..], q);
      assert done + [a] + rest[1..] == done + rest;
    }
  }

  /**
   * `suffix` is left-associative application: an atom followed by a maximal
   * run of atoms, nested so the last argument is at the root, spanning from
   * the first atom's start to the last atom's end.
   */
  lemma {:induction false} SuffixApplies(toks: seq<Token>, pos: nat) returns (callee: Expr, args: seq<Expr>)
    requires pos <= |toks|
    requires ParseSuffix(toks, pos).Ok?
    ensures var r := ParseSuffix(toks, pos).value;
            var a := MaybeAtom(toks, pos);
            a.Ok? && a.value.node == Some(callee) &&
            AtomRun(toks, a.value.next, args, r.next) && MaybeAtom(toks, r.next) == Ok(Parsed(None, r.next)) &&
            r.node == ApplyAll(callee, args)
  {
    var a := MaybeAtom(toks, pos).value;
    callee := a.node.value;
    args := SuffixLoopSound(toks, a.next, callee, []);
    assert [] + args == args;
  }

  /** Conversely, an atom followed by a maximal run of atoms parses as their application. */
  lemma {:induction false} SuffixParsesRun(toks: seq<Token>, pos: nat, callee: Expr, i: nat, args: seq<Expr>, q: nat)
    requires pos <= |toks|
    requires MaybeAtom(toks, pos) == Ok(Parsed(Some(callee), i))
    requires AtomRun(toks, i, args, q) && MaybeAtom(toks, q) == Ok(Parsed(None, q))
    ensures ParseSuffix(toks, pos) == Ok(Parsed(ApplyAll(callee, args), q))
  {
    SuffixLoopComplete(toks, i, callee, [], args, q);
    assert [] + args == args;
  }

  /** Without an atom at the cursor, `suffix` fails naming the next token (or none), without a span. */
  lemma {:induction false} SuffixNoAtom(toks: seq<Token>, pos: nat)
    requires pos <= |toks|
    requires pos == |toks| || !AtomStart(toks[pos].kind)
    ensures ParseSuffix(toks, pos) == Err(ParseError(Unexpected(StreamPeek(toks, pos)), None))
  {
    MaybeAtomNothing(toks, pos);
  }
}
