/** Option and Result values used where the dashboard has NaN or a failing load. */
module Wrappers {

  /** `None` stands for pandas' NaN score. */
  datatype Option<+T> = None | Some(value: T)

  datatype Result<+T, +E> = Ok(value: T) | Err(error: E)
}
