/** Failure-carrying values shared by the ledger modules. */
module Wrappers {

  /** An optional value. */
  datatype Option<+T> = None | Some(value: T)

  /** Either a value or an error. */
  datatype Result<+R, +E> = Success(value: R) | Failure(error: E)
}
