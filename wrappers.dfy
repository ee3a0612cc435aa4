/** Optional values and error-carrying results, shared by the modules of the model. */
module Wrappers {

  /** Python's `None` versus a present value (also used for a float that is NaN). */
  datatype Option<+T> = None | Some(value: T)

  /** A value, or the exception the Python code would raise instead. */
  datatype Result<+R, +E> = Ok(value: R) | Err(error: E)
}
