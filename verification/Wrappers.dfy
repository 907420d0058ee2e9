/** The two result shapes shared by the models. */
module Wrappers {
  datatype Option<+T> = None | Some(value: T)

  /** `Err` stands for an exception thrown, or for undefined behaviour reached, in the original. */
  datatype Result<+T, +E> = Ok(value: T) | Err(error: E)
}
