/** Optional values and the outcome of a statement that can be refused by the store. */
module Results {

  /** What `Optional<T>` holds in the service's read queries. */
  datatype Option<T> = None | Some(value: T)

  /** Why a statement was refused; the service raises each of these as an `SQLException`. */
  datatype Error =
    | DuplicateKey      // an INSERT whose key is already a PRIMARY KEY of the table
    | TransferRejected  // a transfer whose accounts are missing or whose funds are short
    | CheckNotFound     // a validation whose check is missing or already validated

  /** Either the statement took effect or it was refused and changed nothing. */
  datatype Outcome = Ok | Failed(error: Error)
}
