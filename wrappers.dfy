/** Optional values and the two ways a call into the modelled code can end. */
module Wrappers {

  datatype Option<+T> = None | Some(value: T)

  /** How a call ends: it returns a value, or an exception escapes it uncaught. */
  datatype Completion<+T> = Returned(value: T) | Thrown
}
