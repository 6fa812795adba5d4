/** The Python exceptions a page stops with, and a value that may be one of them. */
module Errors {

  datatype PyError =
    | KeyError(column: string)   // a column looked up in a frame built from an empty result
    | TypeError                  // an operand of the wrong type, such as `None` passed to `re.sub`
    | DivisionByZero             // `decimal.DivisionByZero`: a nonzero Decimal divided by zero
    | InvalidOperation           // `decimal.InvalidOperation`: a Decimal zero divided by zero

  datatype Fallible<+T> = Ok(value: T) | Raised(error: PyError)
}
