/** Result and Option datatypes used for the C++ exceptions and std::optional. */
module Wrappers {

  /** std::optional<T>. */
  datatype Option<+T> = None | Some(value: T)

  /** A value, or the message of the std::runtime_error the source throws instead. */
  datatype Result<+T> = Ok(value: T) | Err(msg: string)

  /** A check that either passes or throws with a message. */
  datatype Outcome = Pass | Fail(msg: string)
}
