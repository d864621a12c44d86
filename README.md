# A verified model of the radio parser

This project models the syntax-analysis stage of the radio language front end
(`src/parser/mod.rs`). That stage is a fail-fast, one-token-lookahead
recursive-descent parser. It turns a token stream into one expression tree:
scopes of statements, `def`/`type` declarations, `case`/`else` chains, `for`
loops, abstractions, comma tuples, a four-level binary-operator cascade with
`::` ascription, unary operators, `val`/`var`/`set` solve markers,
application by juxtaposition, and atoms.

The model has two layers.

- **Specification functions** (`Lookahead`, `Grammar`). Each is a pure
  function of the token sequence and a cursor. There is one function per
  parser routine, and each returns the node and the cursor after it, or the
  `ParseError` the routine returns. Every `loop`/`while` of the source becomes
  a tail-recursive `...Loop` function over that loop's variables.
  Termination is by the number of tokens left, then by a rank that drops
  along every call made without consuming a token.
- **The imperative parser** (`Parser`). A `Parser` class owns the token
  sequence and a cursor field `pos`. Its methods follow the Rust methods one
  for one, with the same loops and the same `?` propagation (`:-`). Each
  method is proved to return exactly what its specification function returns
  from the cursor at entry, and to leave the cursor where that function says
  (`Agrees`).

The properties are proved about the specification functions. Each is stated
against an independent reference definition where one exists:

- `bin_op` is a left fold (`Precedence.FoldLeft`);
- `suffix` is left-nested application (`Application.ApplyAll`).

Both are proved in both directions, soundness and completeness, over
operator runs and atom runs. `scope` is proved the same way against runs of
statements (`Scopes.Summary`, `Scopes.ScopeValue`), and `case`/`else` against
a right-nested chain of arms (`Clauses.ElseChain`). `def` and `type` are
both shown equal to one token-level description (`Scopes.DeclarationAt`),
and abstraction tails to another (`Clauses.Tail`). The span rules and the
arities of `for` are stated as lemmas. So are the error paths: `Unexpected`
with the token or without one, and with a span or without one. `Scenarios`
works through whole inputs.

Files:

| file | content |
|---|---|
| `wrappers.dfy` | `Option` |
| `tokens.dfy` | `Span`, `TokenKind`, `Token` (the tokenizer's output) |
| `ast.dfy` | the tree: `Expr`, `ExprKind`, `Def`, `Literal`, operators, solve markers |
| `errors.dfy` | `ParseErrorKind`, `ParseError`, the `Result` type |
| `lookahead.dfy` | the token classifiers and `peek`, `has_peek`, `eat`, `maybe_require`, `require` |
| `grammar.dfy` | one specification function per parser routine |
| `parser.dfy` | the `Parser` class and the top-level `Parse` |
| `precedence.dfy` | properties of `bin_op`, `assert`, `prefix` |
| `application.dfy` | properties of `suffix` and `maybe_atom` |
| `scopes.dfy` | properties of `scope`, its statements, `tuple` and the whole input |
| `clauses.dfy` | properties of `for`, `case`/`else`, abstractions and bodies |
| `scenarios.dfy` | concrete inputs and their trees or errors |

The code has several behaviours that are easy to miss. The model keeps each
one as written:

- A single expression can come back as a one-item `Tuple`. It collapses to
  the bare expression only when an end token of the tuple follows directly
  (`Scopes.TupleBare`). Anything else after it gives the one-item tuple:
  - the end of input, as for a whole input `x` with no `;`
    (`Scopes.TopLevelLoneExpression`, `Scenarios.ApplicationChain`);
  - a trailing comma before an end token (`Scopes.TupleTrailingComma`);
  - any other token that is neither a comma nor an end token, such as the
    `)` in `x )` (`Scopes.TupleOtherToken`, `Scenarios.TrailingTokenIgnored`).

  A comma that no end token follows demands another item, so a comma at the
  end of input is an error (`Scopes.TupleCommaError`,
  `Scenarios.TrailingCommaAtEnd`).
- A tuple's span ends at its last comma, not at its last item
  (`Scopes.TupleLoopSpan`). Tuples of any length are described by a reference
  reading, `Scopes.CommaRun` with `Scopes.CommaResult`, which the tuple loop
  matches in both directions (`Scopes.TupleLoopSound`, `Scopes.TupleLoopComplete`).
- The arrow form of a statement-level body (`termbody`) is a statement-level
  form. A plain expression there must end in `;`. After `else`, a condition
  is parsed by `logical`, so `else case` is rejected
  (`Clauses.TermElseCaseRejected`). A chain is written
  `case c => t ; else d => u ; else => v ;`.
- Every binary node carries the span of its leftmost operand. The source
  builds the node's span from the left operand alone (`Precedence.FoldLeft`).
- A type ascription's span ends at the `::` token (`Precedence.AssertSpan`).
- An abstraction without an argument has exactly its body's span
  (`Clauses.TermExprArgless`).
- The top-level parse stops after the first expression statement that no `;`
  follows (`case` and `for` statements go on without one), and it does not
  check that the input is used up (`Scenarios.TrailingTokenIgnored`).

## Model

| member | source | states |
|---|---|---|
| `Lookahead.Peek` | src/parser/mod.rs:615-625 | returns the next token exactly when there is one and it satisfies the predicate; never consumes |
| `Lookahead.HasPeek` | src/parser/mod.rs:627-638 | true exactly when a next token exists and satisfies the predicate; false at end of input |
| `Lookahead.Eat` | src/parser/mod.rs:676-690 | consumes and returns the next token exactly when it satisfies the predicate; otherwise nothing is consumed and there is no error |
| `Lookahead.MaybeRequire` | src/parser/mod.rs:654-674 | a matching token is consumed and returned; a non-matching token is `Unexpected(Some(token))` with the token's span, consuming nothing; at end of input no token and no error |
| `Lookahead.Require` | src/parser/mod.rs:640-652 | succeeds exactly on a matching next token, which it consumes; a mismatch is `Unexpected(Some(token))` with its span; end of input is `Unexpected(None)` with no span |
| `Grammar.Record` | src/parser/mod.rs:96-104 | the bookkeeping after one statement puts it in exactly one of the declaration and expression lists, keeps everything recorded before, and marks the scope as begun with its end at the statement's end |
| `Grammar.ScopeResult` | src/parser/mod.rs:107-125 | no contract of its own: the result rule of `scope` (bare tail expression, empty tuple or `Scope` node), stated by `Scopes.ScopeResultSummary`, `Scopes.ScopeEmpty`, `Scopes.ScopeBareTail` and `Scopes.ScopeDiscardedTail` |
| `Grammar.ParseScope` | src/parser/mod.rs:53-126 | a scope never moves the cursor backwards or past the input |
| `Grammar.Parse` | src/parser/mod.rs:49-51 | no contract of its own: the node of the scope over the whole input with no end tokens, on which `Parser.Parse`, the `Scopes.TopLevel...` lemmas and every scenario are stated |
| `Grammar.ScopeLoop` | src/parser/mod.rs:60-105 | the statement loop never moves the cursor backwards or past the input |
| `Grammar.ParseStatement` | src/parser/mod.rs:60-94 | a statement stays within the input, and a continuing statement (declaration, `case`, `for`, or expression with `;`) consumes at least one token, so the loop advances |
| `Grammar.ParseDef` | src/parser/mod.rs:128-141 | a successful `def` consumes at least one token |
| `Grammar.ParseTypedef` | src/parser/mod.rs:143-156 | a successful `type` consumes at least one token |
| `Grammar.TermCase` | src/parser/mod.rs:237-257 | a successful `case` consumes at least one token |
| `Grammar.TermElse` | src/parser/mod.rs:259-286 | the optional `else` part stays within the input |
| `Grammar.TermFor` | src/parser/mod.rs:288-333 | a successful `for` consumes at least one token |
| `Grammar.TermExpr` | src/parser/mod.rs:158-216 | a successful statement-level form consumes at least one token |
| `Grammar.TermBody` | src/parser/mod.rs:218-235 | a successful statement body consumes at least one token |
| `Grammar.ParseTuple` | src/parser/mod.rs:335-371 | a tuple stays within the input |
| `Grammar.TupleLoop` | src/parser/mod.rs:355-363 | the comma loop stays within the input |
| `Grammar.ParseExpr` | src/parser/mod.rs:373-402 | a successful expression consumes at least one token |
| `Grammar.ParseBody` | src/parser/mod.rs:404-421 | a successful expression body consumes at least one token |
| `Grammar.ReturnType` | src/parser/mod.rs:162-166 | the optional `-> type` stays within the input |
| `Grammar.ParseLogical` | src/parser/mod.rs:423-431 | a successful logical expression consumes at least one token |
| `Grammar.ParseCmp` | src/parser/mod.rs:433-445 | a successful comparison consumes at least one token |
| `Grammar.ParseAssert` | src/parser/mod.rs:447-464 | a successful ascription level consumes at least one token |
| `Grammar.ParseArith` | src/parser/mod.rs:466-474 | a successful additive expression consumes at least one token |
| `Grammar.ParseTerm` | src/parser/mod.rs:476-485 | a successful multiplicative expression consumes at least one token |
| `Grammar.Operand` | src/parser/mod.rs:423-485 | the operand of each level (its `next` argument) consumes at least one token on success |
| `Grammar.ParseBinOp` | src/parser/mod.rs:591-613 | a successful `bin_op` consumes at least one token |
| `Grammar.BinOpLoop` | src/parser/mod.rs:598-610 | the operator loop stays within the input |
| `Grammar.ParsePrefix` | src/parser/mod.rs:487-530 | a successful prefix expression consumes at least one token |
| `Grammar.ParseSuffix` | src/parser/mod.rs:532-555 | a successful application consumes at least one token |
| `Grammar.SuffixLoop` | src/parser/mod.rs:540-552 | the application loop stays within the input |
| `Grammar.MaybeAtom` | src/parser/mod.rs:557-589 | an atom is found exactly when the cursor advances |
| `Parser.Parse` | src/parser/mod.rs:36-51 | the imperative parser returns exactly the specified parse of the whole input |
| `Parser.Parser.constructor` | src/parser/mod.rs:40-46 | a fresh parser is at the start of the token sequence |
| `Parser.Parser.PeekToken` | src/parser/mod.rs:616 | the stream's peek: the token at the cursor, none exactly at end of input |
| `Parser.Parser.Peek` | src/parser/mod.rs:615-625 | equals `Lookahead.Peek` at the cursor and changes nothing |
| `Parser.Parser.HasPeek` | src/parser/mod.rs:627-638 | equals `Lookahead.HasPeek` at the cursor and changes nothing |
| `Parser.Parser.Eat` | src/parser/mod.rs:679-690 | returns `Lookahead.Eat`'s token and moves the cursor to its position |
| `Parser.Parser.MaybeRequire` | src/parser/mod.rs:657-674 | agrees with `Lookahead.MaybeRequire` on the result and the new cursor; on an error the cursor is unchanged |
| `Parser.Parser.Require` | src/parser/mod.rs:643-652 | agrees with `Lookahead.Require` on the result and the new cursor; on an error the cursor is unchanged |
| `Parser.Parser.ParseScope` | src/parser/mod.rs:53-126 | the statement loop agrees with `Grammar.ParseScope`, with a loop invariant relating the loop variables to `Grammar.ScopeLoop` |
| `Parser.Parser.ParseDef` | src/parser/mod.rs:128-141 | agrees with `Grammar.ParseDef` |
| `Parser.Parser.ParseTypedef` | src/parser/mod.rs:143-156 | agrees with `Grammar.ParseTypedef` |
| `Parser.Parser.TermExpr` | src/parser/mod.rs:158-216 | agrees with `Grammar.TermExpr` |
| `Parser.Parser.TermBody` | src/parser/mod.rs:218-235 | agrees with `Grammar.TermBody` |
| `Parser.Parser.TermCase` | src/parser/mod.rs:237-257 | agrees with `Grammar.TermCase` |
| `Parser.Parser.TermElse` | src/parser/mod.rs:259-286 | agrees with `Grammar.TermElse` |
| `Parser.Parser.TermFor` | src/parser/mod.rs:288-333 | the mutable `second`/`third` clauses agree with `Grammar.TermFor` |
| `Parser.Parser.ParseTuple` | src/parser/mod.rs:335-371 | the comma loop agrees with `Grammar.ParseTuple`, with an invariant relating it to `Grammar.TupleLoop` |
| `Parser.Parser.ParseExpr` | src/parser/mod.rs:373-402 | agrees with `Grammar.ParseExpr` |
| `Parser.Parser.ParseBody` | src/parser/mod.rs:404-421 | agrees with `Grammar.ParseBody` |
| `Parser.Parser.ParseLogical` | src/parser/mod.rs:423-431 | agrees with `Grammar.ParseLogical` |
| `Parser.Parser.ParseCmp` | src/parser/mod.rs:433-445 | agrees with `Grammar.ParseCmp` |
| `Parser.Parser.ParseAssert` | src/parser/mod.rs:447-464 | agrees with `Grammar.ParseAssert` |
| `Parser.Parser.ParseArith` | src/parser/mod.rs:466-474 | agrees with `Grammar.ParseArith` |
| `Parser.Parser.ParseTerm` | src/parser/mod.rs:476-485 | agrees with `Grammar.ParseTerm` |
| `Parser.Parser.Operand` | src/parser/mod.rs:593 | calls the `next` level of each cascade level; agrees with `Grammar.Operand` |
| `Parser.Parser.ParseBinOp` | src/parser/mod.rs:591-613 | the `while let` operator loop agrees with `Grammar.ParseBinOp`, with an invariant relating it to `Grammar.BinOpLoop` |
| `Parser.Parser.ParsePrefix` | src/parser/mod.rs:487-530 | agrees with `Grammar.ParsePrefix` |
| `Parser.Parser.ParseSuffix` | src/parser/mod.rs:532-555 | the application loop agrees with `Grammar.ParseSuffix`, with an invariant relating it to `Grammar.SuffixLoop` |
| `Parser.Parser.MaybeAtom` | src/parser/mod.rs:557-589 | agrees with `Grammar.MaybeAtom` |
| `Precedence.FoldLeft` | src/parser/mod.rs:596-612 | reference left fold: the root is the last operator with the last operand on its right; every node has the leftmost operand's span |
| `Precedence.FoldLeftSnoc` | src/parser/mod.rs:598-610 | one more loop iteration wraps the fold so far as the left operand of a new node with the leftmost span |
| `Precedence.BinOpLoopSound` | src/parser/mod.rs:598-612 | whatever the operator loop returns is the left fold of a maximal operator run it consumed |
| `Precedence.BinOpLoopComplete` | src/parser/mod.rs:598-612 | every maximal operator run is consumed in full and folded to the left |
| `Precedence.BinOpFoldsLeft` | src/parser/mod.rs:591-613 | `bin_op` returns one operand followed by a maximal operator run of its level, folded to the left, with the span of the first operand |
| `Precedence.BinOpParsesRun` | src/parser/mod.rs:591-613 | conversely, an operand followed by a maximal run parses as its left fold |
| `Precedence.BinOpOperandError` | src/parser/mod.rs:596 | a level fails with its first operand's error |
| `Precedence.AssertSpan` | src/parser/mod.rs:447-464 | after `::` the node is `Assert(e, ty)` spanning from `e` to the end of the `::` token; without `::` the level returns `e` unchanged |
| `Precedence.PrefixUnary` | src/parser/mod.rs:488-502 | `!`/`-` wraps the prefix expression that follows, recursively, spanning from the operator to its operand's end, and propagates its error |
| `Precedence.PrefixSolve` | src/parser/mod.rs:503-526 | a solve marker takes exactly one following name and spans marker to name; any other token after it is `Unexpected(Some)` with its span, and end of input is `Unexpected(None)` |
| `Precedence.ArithIsLogical` | src/parser/mod.rs:423-464 | an additive expression followed by neither `::` nor a comparison or logical operator is the whole logical expression |
| `Precedence.OperandErrorPassesUp` | src/parser/mod.rs:423-530 | a failing application fails every level up to `logical` with the same error |
| `Precedence.LoneOperand` | src/parser/mod.rs:423-530 | an application followed by no operator and no `::` passes through all five levels unchanged |
| `Application.ApplyAll` | src/parser/mod.rs:540-552 | reference left-nested application: the root applies everything before the last argument to it, spanning from the callee's start to the last argument's end |
| `Application.AtomRun` | src/parser/mod.rs:540-552 | a run of atoms lies within the input |
| `Application.ApplyAllSnoc` | src/parser/mod.rs:541-548 | one more atom wraps the application so far with a span ending at that atom |
| `Application.MaybeAtomNothing` | src/parser/mod.rs:586-588 | `maybe_atom` yields nothing and consumes nothing exactly when no `(`, `\`, literal or name is next |
| `Application.MaybeAtomSingle` | src/parser/mod.rs:579-585 | a literal or name token is an atom with that token's span and payload |
| `Application.MaybeAtomParen` | src/parser/mod.rs:558-567 | `( scope )` is the scope's node with the parentheses' span; an unclosed one is `Unexpected(None)` at end of input, and `Unexpected` naming the token where the scope stopped, with that token's span, before any other token |
| `Application.MaybeAtomVariant` | src/parser/mod.rs:568-578 | `\ name` is a `Variant` literal spanning backslash to name; another token after `\` is `Unexpected(Some)` with its span; end of input is `Unexpected(None)` |
| `Application.SuffixLoopSound` | src/parser/mod.rs:540-554 | whatever the application loop returns applies the callee to a maximal run of atoms it consumed |
| `Application.SuffixLoopComplete` | src/parser/mod.rs:540-554 | every maximal run of atoms is consumed in full and applied from the left |
| `Application.SuffixApplies` | src/parser/mod.rs:532-555 | `suffix` is an atom applied to a maximal run of further atoms, nested to the left |
| `Application.SuffixParsesRun` | src/parser/mod.rs:532-555 | conversely, an atom followed by a maximal run of atoms parses as their application |
| `Application.SuffixNoAtom` | src/parser/mod.rs:533-538 | with no atom next, `suffix` fails with `Unexpected` naming the next token, or none at end of input, and no span |
| `Scopes.ScopeLoopStops` | src/parser/mod.rs:60-105 | when the loop returns without having read a statement, or after a continuing one, it is at the end of input or at an end token; otherwise it has read at least one more expression; declarations and expressions are only appended, and a start already set is kept |
| `Scopes.StatementsPartition` | src/parser/mod.rs:61-93 | every statement is either a declaration or an expression statement, so the two lists together have one entry per statement |
| `Scopes.StmtRun` | src/parser/mod.rs:60-105 | a run of statements lies within the input |
| `Scopes.SummaryCons` | src/parser/mod.rs:96-104 | recording one statement and then a run gives the summary of the longer run |
| `Scopes.ScopeLoopSound` | src/parser/mod.rs:60-105 | the loop returns the summary of a run of statements it read: declarations and expressions in order, start at the first statement, end and `discard` from the last; every statement but the last continues, and it stops at an end unless the last one does not continue |
| `Scopes.ScopeLoopComplete` | src/parser/mod.rs:60-105 | conversely, every such run is read in full and summarized |
| `Scopes.ScopeResultSummary` | src/parser/mod.rs:107-125 | the result rule of `scope` turns a summary into `ScopeValue` of the statements |
| `Scopes.ScopeParsesRun` | src/parser/mod.rs:53-126 | a run of statements that stops parses as `ScopeValue` of it: the empty tuple, the lone expression without `;`, or `Scope(declarations, expressions, last continues)` spanning first to last statement |
| `Scopes.ScopeShape` | src/parser/mod.rs:53-126 | the result of every scope is `ScopeValue` of a run of statements it read and stopped after; that value is the empty tuple with nothing consumed, the bare value of one expression statement without `;`, or a well-formed `Scope` node that stops only at an end when its value is discarded |
| `Scopes.DeclarationShape` | src/parser/mod.rs:128-156 | `def` and `type` both build `DeclarationAt`: a name after the keyword, then a statement-level form as the value, spanning keyword to value; a missing name is `Unexpected` with the token and its span, or with neither at end of input; a wrong keyword is `Unexpected` naming it |
| `Scopes.ScopeEmpty` | src/parser/mod.rs:109-115 | with no statements the scope is the empty tuple spanning (0, 0) |
| `Scopes.ScopeBareTail` | src/parser/mod.rs:107-108 | a lone expression statement without `;` is returned bare, not wrapped in a `Scope` |
| `Scopes.ScopeDiscardedTail` | src/parser/mod.rs:116-124 | a lone expression with `;` before the end is a `Scope` holding it with `discard` set, spanning the statement |
| `Scopes.ScopeLoneDef` | src/parser/mod.rs:61-67 | a lone declaration before the end is a `Scope` with that declaration, no expressions and `discard` set |
| `Scopes.StatementContinuation` | src/parser/mod.rs:60-94 | `def`/`type` give declarations; `case`/`for` continue and keep their node's span; any other expression continues exactly when `;` follows, and then its span ends at the `;` |
| `Scopes.TupleEmpty` | src/parser/mod.rs:336-344 | at an end token or end of input a tuple is empty, spanning (0, 0), consuming nothing |
| `Scopes.TupleBare` | src/parser/mod.rs:346-350 | one expression directly followed by an end token is returned bare |
| `Scopes.TupleAtEndOfInput` | src/parser/mod.rs:346-370 | one expression running into the end of input becomes a one-item tuple with the expression's span |
| `Scopes.TupleTrailingComma` | src/parser/mod.rs:355-370 | a trailing comma before an end token gives a one-item tuple whose span ends at the comma |
| `Scopes.TupleOtherToken` | src/parser/mod.rs:346-370 | one expression followed by a token that is neither a comma nor an end token becomes a one-item tuple with the expression's span, leaving the cursor on that token |
| `Scopes.TupleCommaError` | src/parser/mod.rs:346-362 | a comma not followed by an end token makes the tuple fail with the error of the item it demands |
| `Scopes.Items` | src/parser/mod.rs:362 | the items of a comma run, one per step, in order |
| `Scopes.CommaRun` | src/parser/mod.rs:355-363 | a run of `, <expression>` steps, each comma not followed by an end token, stays within the input |
| `Scopes.CommaResultCons` | src/parser/mod.rs:356-362 | moving one comma step into the accumulated items, with the span's end at that comma, leaves the outcome unchanged |
| `Scopes.TupleLoopSound` | src/parser/mod.rs:352-370 | every successful comma loop is a comma run followed by a proper ending (no comma, or a comma before an end token), with items appended in order and the span ending at the last comma |
| `Scopes.TupleLoopComplete` | src/parser/mod.rs:352-370 | every comma run with a proper ending is exactly what the comma loop reads |
| `Scopes.TupleLoopError` | src/parser/mod.rs:355-363 | a comma run stopping at a comma not followed by an end token makes the loop fail with the demanded item's error |
| `Scopes.TupleShape` | src/parser/mod.rs:335-371 | a tuple that parses is empty, a bare expression before an end token, or its first expression followed by a comma run with a proper ending |
| `Scopes.TupleParsesRun` | src/parser/mod.rs:335-371 | a first expression followed by a comma run with a proper ending is exactly what the tuple reads |
| `Scopes.TupleLoopSpan` | src/parser/mod.rs:352-370 | the comma loop only appends items, keeps the start, ends the span at the last comma consumed, and without a comma changes nothing |
| `Scopes.TopLevelLoneExpression` | src/parser/mod.rs:49-51 | a whole input that is one expression without `;` parses as the one-item tuple of it |
| `Scopes.TopLevelExpressionError` | src/parser/mod.rs:49-51 | a whole input whose leading expression fails fails with the same error; nothing is recovered |
| `Scopes.TopLevelTerminated` | src/parser/mod.rs:49-51 | a whole input `e ;` parses as a discarding `Scope` of `e` spanning through the `;` |
| `Clauses.NoExpression` | src/parser/mod.rs:533-538 | where no expression can start, every level from `prefix` to `expr` fails with `Unexpected` naming that token, or none, and no span |
| `Clauses.TermForShape` | src/parser/mod.rs:288-333 | a `for` spans keyword to body end; its first clause is the condition alone exactly when no `;` follows it, otherwise it is the initializer; an afterthought implies an initializer |
| `Clauses.TermForOneClause` | src/parser/mod.rs:288-333 | `for c body` builds `For(None, c, None, body)` |
| `Clauses.TermForTwoClauses` | src/parser/mod.rs:288-333 | `for i; c body` builds `For(Some(i), c, None, body)` |
| `Clauses.TermForThreeClauses` | src/parser/mod.rs:288-333 | `for i; c; a body` builds `For(Some(i), c, Some(a), body)` |
| `Clauses.ElseRun` | src/parser/mod.rs:259-286 | a run of `else` arms lies within the input |
| `Clauses.TermElseSound` | src/parser/mod.rs:259-286 | `termelse` returns `ElseChain` of the arms it read (each `else`, a condition by `logical`, a body by `termbody`), ending either with no `else` or with `else` and a body opened by `=>` or `{` |
| `Clauses.TermElseComplete` | src/parser/mod.rs:259-286 | conversely, such arms and ending parse as their right-nested chain |
| `Clauses.TermCaseShape` | src/parser/mod.rs:237-257 | a `case` node spans from its keyword to the end of its `else` part, or of its body when there is none, and is `ElseChain` of its own arm (condition by `logical`, body by `termbody`) followed by the arms of its `else` part |
| `Clauses.TermElseAbsent` | src/parser/mod.rs:260-262 | without `else` there is no alternative and nothing is consumed |
| `Clauses.TermElseDirect` | src/parser/mod.rs:264-266 | `else =>` or `else {` gives the body itself as the alternative |
| `Clauses.TermElseChain` | src/parser/mod.rs:268-285 | any other `else` chains a nested `Case` whose condition is the `logical` after `else`, whose body is the `termbody` after that and whose alternative is the recursive `termelse`, spanning from `else` to the end of the rest of the chain |
| `Clauses.TermElseCaseRejected` | src/parser/mod.rs:268 | `else case` is `Unexpected(Some(case token))` with no span |
| `Clauses.TermExprArgless` | src/parser/mod.rs:159-181 | a statement-level abstraction that starts with its tail has no argument and exactly the body's span; by `Tail`, its type is the `logical` after `->` exactly when `->` comes first, its spec flag holds exactly when `$` follows, and its body is the `termbody` after those |
| `Clauses.TermExprAfterLogical` | src/parser/mod.rs:183-214 | after a logical expression, a tail makes an abstraction with that argument spanning argument to body, with type, spec flag and `termbody` read by `Tail`; otherwise a `;` is required and consumed |
| `Clauses.ExprAfterLogical` | src/parser/mod.rs:373-402 | the same at expression level: an abstraction with type, spec flag and `body` read by `Tail`; otherwise the logical expression itself, with no `;` needed |
| `Clauses.BracedBody` | src/parser/mod.rs:218-235 | a braced body has the inner scope's node and the braces' span, at both statement and expression level; an unclosed one is `Unexpected(None)` at end of input, and `Unexpected` naming the token where the scope stopped, with that token's span, before any other token |
| `Clauses.ArrowBody` | src/parser/mod.rs:218-221 | `=>` introduces a statement-level form in a statement body and a logical expression in an expression body |
| `Scenarios.LoneName` | src/parser/mod.rs:532-589 | a name with no atom after it is an application of nothing: the name itself |
| `Scenarios.NameTerm` | src/parser/mod.rs:476-485 | a name followed by neither an atom nor `*`, `/`, `%` is a whole multiplicative term |
| `Scenarios.ApplicationChain` | src/parser/mod.rs:540-552 | `f a b` is `(f a) b`, each application spanning from `f`, inside the top-level one-item tuple |
| `Scenarios.SubtractionChain` | src/parser/mod.rs:591-613 | `a - b - c` is `(a - b) - c`, every node with the span of `a` |
| `Scenarios.TerminatedName` | src/parser/mod.rs:53-126 | `x ;` is a discarding `Scope` of `x` spanning through the `;` |
| `Scenarios.TwoStatements` | src/parser/mod.rs:53-126 | `x ; y` is `Scope([], [x, (y)], false)` spanning from `x` to the end of `y` |
| `Scenarios.ParenthesizedName` | src/parser/mod.rs:558-567 | `(x)` is the name `x` with the parentheses' span |
| `Scenarios.UnclosedParen` | src/parser/mod.rs:560 | `(x` fails with `Unexpected(None)` and no span |
| `Scenarios.StrayCloseParen` | src/parser/mod.rs:533-538 | a lone `)` fails with `Unexpected` naming it, with no span |
| `Scenarios.TopLevelPair` | src/parser/mod.rs:335-371 | `x, y` is a two-item tuple whose span ends at the comma |
| `Scenarios.TrailingCommaAtEnd` | src/parser/mod.rs:358-362 | `x ,` at the end of input fails with `Unexpected(None)` and no span |
| `Scenarios.TrailingTokenIgnored` | src/parser/mod.rs:49-51 | `x )` parses as the one-item tuple of `x`; the `)` is never read |
| `Scenarios.CaseWithoutElse` | src/parser/mod.rs:237-257 | `case c => t ;` is a discarding `Scope` holding `Case(c, t, None)` |

## Left out

- The tokenizer (`Tokens`, `CharReader`, `Intern`) is not part of this model. The parser reads a finished sequence of tokens, and names and literal payloads are plain strings.
- Lexical failures (`ParseErrorKind::TokenizationError` and the conversion at src/parser/mod.rs:25-32) are not modelled: the token sequence is assumed to be produced without error, so every `?` on a peek or a `next` cannot fail here and `Unexpected` is the only error kind.
- The `errors` sink (`ErrorStream`) is carried by the source's parser but never used by the code modelled; it is left out.
- The commented-out symbol resolution in `prefix` (src/parser/mod.rs:509-518) is not code and is not modelled.
- The `bpred!`, `tpred!`, `vpred!` and `mergepreds` macros live in a file that is not part of this model. They are modelled as the `Lookahead.Pred` classifiers, with `bpred!()` (no kinds, used by `parse`) as `OneOf({})`, which matches no token.
- Lifetimes, borrowed text and `Box` allocation have no counterpart; the tree is an ordinary value.
- Literal payloads are kept as their token text; their numeric meaning is not interpreted.
- Grammar.ParseScope, Grammar.ParseTuple and the other specification functions state only the cursor bounds in their own contracts. What they build is stated by the lemmas in `Precedence`, `Application`, `Scopes` and `Clauses`. The `Parser` methods are proved to agree with them.
