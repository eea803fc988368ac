/** Failure-carrying datatypes shared by the modules of this model. */
module Wrappers {

  /** An optional value, standing for Python's `None` or a value. */
  datatype Option<+T> = None | Some(value: T)

  /** A validation outcome: the validator returned, or raised with a message. */
  datatype Outcome<+E> = Pass | Fail(error: E)

  /** A value, or the error a call raised instead. */
  datatype Result<+T, +E> = Ok(value: T) | Err(error: E)

  /** An attribute of a Python object that may never have been assigned. */
  datatype Attr<+T> = Unset | Set(value: T)
}
