/** The Python exceptions the modelled code can raise, and a result type for them. */
module Wrappers {

  /** `KeyError`: a dictionary lookup of an absent key; `IndexError`: a list index past the end. */
  datatype Error = KeyError | IndexError

  datatype Result<+T> = Ok(value: T) | Err(error: Error)

  datatype Option<+T> = None | Some(value: T)
}
