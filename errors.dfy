/**
 * Failure values shared by every phase of the EggScript front end.
 *
 * The C# implementation reports failures by throwing one of a few exception
 * classes; here each phase returns a `Result` (or an `Outcome` when there is no
 * value to return) whose failure case carries an `Error` of the right kind.
 */
module Errors {

  /** The kinds of failure the core raises.
      - LexError: EggInvalidTokenException, with the offending offset and character
      - SyntaxError: EggSyntaxException
      - RuntimeError: EggRuntimeException
      - GenericError: a plain EggScriptException (what Parser.cs and Interpreter.cs throw)
      - SystemError: an exception of the .NET runtime itself (a FormatException from
        parsing, an InvalidOperationException from an empty stack)
      - NumericError: a division by zero, where the source yields an IEEE infinity or
        NaN that the model's exact numbers cannot represent */
  datatype Error =
    | LexError(message: string, position: int, character: char)
    | SyntaxError(message: string)
    | RuntimeError(message: string)
    | GenericError(message: string)
    | SystemError(message: string)
    | NumericError(message: string)

  datatype Option<+T> = None | Some(value: T)

  datatype Result<+T> = Ok(value: T) | Err(error: Error)

  /** The result of an operation that has no value to return. */
  datatype Outcome = Pass | Fail(error: Error)
}
