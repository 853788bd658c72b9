/** Failure-carrying result types used across the ledger model. */
module Wrappers {

  datatype Option<+T> = None | Some(value: T)

  /** A value or the message of the exception the source raises instead. */
  datatype Result<+T> = Ok(value: T) | Err(msg: string)
}
