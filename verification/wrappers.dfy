/** Failure-carrying results for the operations of the model.
    The Python source signals failure by raising; each exception kind the
    modelled code can raise becomes one `Error` constructor. */
module Wrappers {

  datatype Option<+T> = None | Some(value: T)

  /** The exceptions the modelled code raises on its own. */
  datatype Error =
    | IndexError   // a tuple or list subscript past its end
    | ValueError   // a result key that names neither token
    | UnboundLocalError  // a local read before any assignment to it
    | TypeError    // a cancellation result used where statistics are expected

  datatype Result<+T> = Ok(value: T) | Err(error: Error)
}
