/** Option and Result, the two failure-carrying types the library returns. */
module Wrappers {

  /** `Option<T>`: `owners` answers `None` when no rule matches. */
  datatype Option<+T> = None | Some(value: T)

  /** `Result<T, String>`: `Owner::from_str` fails with a message. */
  datatype Result<+T> = Ok(value: T) | Err(error: string)
}
