/** Go's `(value, error)` and `error` returns. Errors carry only their message text,
    which is all the callers of this code ever inspect. */
module Results {

  /** A pointer that may be nil. */
  datatype Option<+T> = None | Some(value: T)

  /** A `(value, error)` pair in which exactly one side is meaningful. A call that
      returns only an `error` is a `Result<()>`. */
  datatype Result<+T> = Ok(value: T) | Err(message: string)
}
