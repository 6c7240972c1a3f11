/** Value types shared by every part of the model. */
module Common {

  /** A Java reference that may be null. */
  datatype Option<+T> = None | Some(value: T)

  /** The outcome of a call that throws in the source: its value, or the exception it raised. */
  datatype Result<+T, +E> = Ok(value: T) | Err(error: E)

  /** A `BigDecimal` money column of scale 2 (precision 19, scale 2), held as a whole number of cents. */
  type Cents = int

  /** A reading of `LocalDateTime.now()`; the caller supplies it, as a clock would. */
  type Timestamp = nat
}
