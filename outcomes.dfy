/**
 * Option and Result, used wherever the modelled C++ code signals failure
 * (a null reference, a failed runtime_assert, a thrown exception).
 */
module Outcomes {
  datatype Option<T> = None | Some(value: T)

  datatype Result<T> = Ok(value: T) | Err(error: string)
}
