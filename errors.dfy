/** Parse errors and the result type every parser operation returns. */
module Errors {
  import opened Wrappers
  import opened Tokens

  /** Lexical failures are not part of this model, so `Unexpected` is the only kind. */
  datatype ParseErrorKind = Unexpected(token: Option<Token>)

  datatype ParseError = ParseError(kind: ParseErrorKind, span: Option<Span>)

  /** The parser's result type; `:-` propagates the error as `?` does. */
  datatype Result<+T> = Ok(value: T) | Err(error: ParseError) {

    predicate IsFailure() {
      Err?
    }

    function PropagateFailure<U>(): Result<U>
      requires Err?
    {
      Err(error)
    }

    function Extract(): T
      requires Ok?
    {
      value
    }
  }
}
