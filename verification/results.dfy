/** Failure-carrying wrappers used by every operation of the library model. */
module Results {

  /** A value that may be absent: an omitted optional field of a model. */
  datatype Option<+T> = None | Some(value: T) {

    /** The carried value, or `default` when absent. */
    function GetOr(default: T): T {
      match this
      case Some(v) => v
      case None => default
    }
  }

  /** Either the new value or the error that prevented the operation. */
  datatype Result<+T, +E> = Ok(value: T) | Err(error: E)

  /** Whether a step was committed, without a value of its own. */
  datatype Outcome<+E> = Pass | Fail(error: E)
}
