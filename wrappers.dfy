/** Option and exception wrappers shared by the model. */
module Wrappers {

  /** Python's `None` / a present value. */
  datatype Option<+T> = None | Some(value: T)

  /** The outcome of a Python call that either returns a value or raises an exception. */
  datatype Outcome<+T> = Returned(value: T) | Raised(error: string)
}
