/** Error kinds raised by the sequence library, and the result types that carry them. */
module Errors {

  /** The error codes that the containers actually throw (the enumeration of error.hpp). */
  datatype ErrorKind =
    | IndexOutOfRange
    | EmptyArray
    | EmptyList
    | IncompatibleTypes
    | NegativeSize
    | InvalidIndices
    | NegativeCount
    | NullList
    | EmptyStack

  /** Either the value an operation returns, or the error it throws. */
  datatype Result<+R> = Ok(value: R) | Err(error: ErrorKind) {

    predicate IsFailure() {
      Err?
    }

    function PropagateFailure<U>(): Result<U>
      requires Err?
    {
      Err(error)
    }

    function Extract(): R
      requires Ok?
    {
      value
    }
  }

  /** A pointer that may be null. */
  datatype Option<+T> = None | Some(value: T)

  /** Outcome of a member that models code as written, where the code can also
      do something C++ leaves undefined: dereference a null or freed node,
      write past the end of a buffer, or recurse without end. */
  datatype Step<+R> = Done(value: R) | Thrown(error: ErrorKind) | Undefined
}
