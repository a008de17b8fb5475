/** Failure-carrying values shared by the ledger's operations. */
module Results {

  datatype Option<T> = None | Some(value: T)

  /** The ways an operation of the ledger can fail. */
  datatype Error =
    | ValidationFailed   // a write of a value the amount columns refuse (negative or too wide)
    | MissingEpoch       // the latest epoch was dereferenced while no epoch exists
    | NoMentions         // a transfer log message without any user mention

  datatype Result<T> = Ok(value: T) | Err(error: Error)

  /** The result of a handler that changes the store and returns nothing. */
  datatype Outcome = Pass | Fail(error: Error)
}
