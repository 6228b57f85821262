/** Outcomes of the modelled operations: a value, or the ValueError the scripts raise. */
module Results {

  /** The two ways the modelled code raises ValueError. */
  datatype Error =
    | ZeroStep       // range() was given a stride of 0
    | ShapeMismatch  // numpy cannot broadcast a short segment against the window

  datatype Result<T> = Ok(value: T) | Err(error: Error)
}
