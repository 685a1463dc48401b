/** Small value types shared by the modules of the monitor model. */
module Prelude {

  /** Rust's Option<T>. */
  datatype Option<T> = None | Some(value: T)

  /** A fallible result; the error carries the message that `anyhow` would render. */
  datatype Result<T> = Ok(value: T) | Err(error: string)

  /** The largest value of Rust's u16. */
  const U16_MAX: nat := 0xFFFF

  /** Rust's u16, as a range of integers. */
  type U16 = x: int | 0 <= x <= U16_MAX
}
