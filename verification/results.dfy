/** How a call of an integrator ends: with its buffer, or with the error
    the source raises or runs into instead. */
module Results {

  /** `IndexError`: the buffer has fewer rows than the starting values need.
      `DivisionByZero`: a step divides by zero. */
  datatype Error = IndexError | DivisionByZero

  datatype Result<T> = Ok(value: T) | Failure(error: Error)
}
