// Option and Result: the values that stand for the sources' nullable columns,
// missing dictionary keys, error returns and raised exceptions.
module Wrappers {
  datatype Option<+T> = None | Some(value: T)

  datatype Result<+T, +E> = Ok(value: T) | Err(error: E)
}
