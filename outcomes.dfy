/** Failure-carrying values shared by the other modules. */
module Outcomes {

  datatype Option<+T> = None | Some(value: T)

  /** The two runtime failures the header can raise. */
  datatype Error =
    | OutOfRange     // std::out_of_range from an alias path index
    | RuntimeError   // std::runtime_error from operator* on a dead or null observer

  datatype Result<+T> = Ok(value: T) | Err(error: Error)
}
