/** Failure-carrying results and the argument checks whose failures the
    library reports as C++ exceptions. */
module Wrappers {

  /** The standard exception class a failed check throws. */
  datatype ExceptionKind = InvalidArgument | DomainError | OutOfRange

  /** One failed check, with the numbers its message reports. */
  datatype Error =
    | SizeMismatch(size1: int, size2: int)                      // check_size_match
    | ZeroSize                                                 // check_nonzero_size
    | NotAVector(rows: int, cols: int)                         // check_vector
    | OutOfBounds(value: int, low: int, high: int)             // check_bounded
    | IndexOutOfRange(size: int, index: int)                   // out_of_range
    | DimensionMismatch(rows1: int, cols1: int, rows2: int, cols2: int) // check_matching_dims
    | NotMultiplicable(cols1: int, rows2: int)                 // check_multiplicable
    | ColumnCountsDiffer                                       // colwise's own check
  {
    /** The exception class each check throws. */
    function Kind(): ExceptionKind {
      match this
      case OutOfBounds(_, _, _) => DomainError
      case IndexOutOfRange(_, _) => OutOfRange
      case _ => InvalidArgument
    }
  }

  /** The value of an operation, or the exception it throws. */
  datatype Result<+T> = Ok(value: T) | Err(error: Error) {
    predicate IsFailure() { Err? }

    function PropagateFailure<U>(): Result<U>
      requires Err?
    {
      Err(error)
    }

    function Extract(): T
      requires Ok?
    {
      value
    }
  }
}
