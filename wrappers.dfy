/** Option and Result values for partial operations and raised exceptions. */
module Wrappers {

  datatype Option<+T> = None | Some(value: T)

  /** Either a value or the message of the exception that was raised instead. */
  datatype Result<+R, +E> = Success(value: R) | Failure(error: E) {

    /** The value, with the error dropped. */
    function ToOption(): Option<R> {
      if Success? then Some(value) else None
    }
  }
}
