/** Optional values and results shared by every module of the model. */
module Wrappers {
  datatype Option<T> = None | Some(value: T)

  /** A fallible result: `Err` carries a short reason, as the source's `die`
      message or exception would. */
  datatype Result<T> = Ok(value: T) | Err(reason: string)
}
