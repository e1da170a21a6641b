/** Failure-carrying wrappers shared by the validators and the interval engine.
    `None` also stands for a floating-point NaN wherever a value may be missing. */
module Results {

  /** An optional value; as a number, `None` plays the role of NaN. */
  datatype Option<+T> = None | Some(value: T)

  /** A computed value or the error the source would raise instead. */
  datatype Result<+T, +E> = Success(value: T) | Failure(error: E)

  /** A check that either passes or raises an error, returning nothing. */
  datatype Outcome<+E> = Pass | Fail(error: E)
}
