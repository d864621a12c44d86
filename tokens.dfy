/**
 * The tokens the parser consumes. The tokenizer itself is not part of this
 * model: its output is a pre-lexed sequence of tokens.
 */
module Tokens {

  /** Byte offsets into the source text. */
  datatype Span = Span(start: nat, end: nat)

  /**
   * The token kinds of the language. Literal payloads are carried opaquely as
   * their source text; names are interned identifiers, modelled as strings.
   */
  datatype TokenKind =
    | Def | Type | Case | Else | For | Val | Var | Set
    | Dollar | ThinArrow | FatArrow
    | OpenBrace | CloseBrace | OpenParen | CloseParen
    | Comma | Semicolon | ColonColon | Backslash
    | Bang | Minus | Plus | Star | Slash | Percent
    | AmpAmp | PipePipe
    | Equal | NotEqual | Gt | GtEq | Lt | LtEq
    | Float(text: string)
    | Integer(text: string)
    | String(text: string)
    | Name(name: string)

  datatype Token = Token(kind: TokenKind, span: Span)
}
