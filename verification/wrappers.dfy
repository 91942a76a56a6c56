/** Failure-carrying datatypes shared by the model: a missing spreadsheet
    cell or an optional dictionary key is an `Option`, an operation that
    the scripts abort with an error message is a `Result`. */
module Wrappers {

  datatype Option<+T> = None | Some(value: T) {

    /** The value, or `default` when there is none. */
    function GetOr(default: T): T {
      match this
      case Some(v) => v
      case None => default
    }
  }

  datatype Result<+R> = Success(value: R) | Failure(error: string)
}
