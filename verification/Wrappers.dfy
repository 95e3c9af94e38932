/** Values shared by every module: optional values, results and the errors the system reports. */
module Wrappers {

  datatype Option<+T> = None | Some(value: T)

  datatype Result<+T, +E> = Success(value: T) | Failure(error: E)

  // Uuids and bigint keys are only ever compared for equality, so a number stands for each of them.
  type Id = nat
}
