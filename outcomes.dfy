/** Optional values and results with an error, used wherever the pipeline's
    Python code returns None, raises, or catches an exception. */
module Outcomes {

  datatype Option<+T> = None | Some(value: T)

  datatype Result<+T, +E> = Ok(value: T) | Err(error: E)
}
