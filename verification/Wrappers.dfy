/** Failure-compatible wrappers shared by the linker passes.  Error texts are
    not modelled: `Err` says only that the pass returns an error. */
module Wrappers {
  datatype Option<+T> = None | Some(value: T)

  datatype Result<+T> = Ok(value: T) | Err
}
