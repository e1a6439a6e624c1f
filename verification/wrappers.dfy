/** Option and Result: the model's stand-ins for C# null references and thrown exceptions. */
module Wrappers {

  /** A nullable reference: `None` is C#'s `null`. */
  datatype Option<+T> = None | Some(value: T) {
    function GetOr(default: T): T {
      match this
      case Some(v) => v
      case None => default
    }
  }

  /** The outcome of an operation that may throw: `Failure` carries the exception kind. */
  datatype Result<+R, +E> = Success(value: R) | Failure(error: E)
}

/** The exceptions the modelled code throws, as values. */
module Exceptions {
  datatype Exception =
    | ArgumentNull          // ArgumentNullException
    | ArgumentOutOfRange    // ArgumentOutOfRangeException
    | Argument              // ArgumentException
    | ObjectDisposed        // ObjectDisposedException
    | IO                    // IOException
    | InvalidOperation      // InvalidOperationException
}
