/** Results of operations that may throw in the Java source. */
module Wrappers {

  /** The Java exceptions the modelled operations raise. */
  datatype Exception =
    | NullPointer
    | IllegalArgument
    | NoSuchElement
    | IndexOutOfBounds

  datatype Option<+T> = None | Some(value: T)

  /** A value, or the exception the source would throw instead. */
  datatype Result<+T> = Ok(value: T) | Err(error: Exception)

  /** Outcome of a void method that may throw. */
  datatype Outcome = Pass | Fail(error: Exception)

  /** `Pair<C>`: two values of one type, as crossover returns them. */
  datatype Pair<+T> = Pair(first: T, second: T)
}
