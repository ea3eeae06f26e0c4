/** Small value types shared by every module of the model. */
module Base {

  /** JavaScript's "value or undefined/null". */
  datatype Option<+T> = None | Some(value: T)

  /** A call that either produced a value or threw with an error. */
  datatype Result<+T, +E> = Ok(value: T) | Err(error: E)

  /** A millisecond timestamp, as `Date.now()` and `Date#getTime()` give. */
  type Millis = int
}
