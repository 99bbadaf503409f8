/** Failure-carrying results shared by the masking modules. */
module Outcomes {

  /** A value that may be absent, as the wrapper's cache is before the first forward call. */
  datatype Option<+T> = None | Some(value: T)

  /** The ways a masking call can fail at run time. */
  datatype MaskError =
    /** `index_put` was asked to write at a (batch, time) pair outside the feature tensor. */
    | IndexOutOfRange

  datatype Result<+T> = Ok(value: T) | Err(error: MaskError)
}
