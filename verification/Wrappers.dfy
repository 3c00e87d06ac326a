/** Values that may be absent, and results of operations that may fail. */
module Wrappers {
  datatype Option<+T> = None | Some(value: T)

  /** A failed operation carries no message: error texts are not part of the model. */
  datatype Result<+T> = Failure | Success(value: T)
}
