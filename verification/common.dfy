/** Shared building blocks: optional values, results with an error, and the
    document identifiers the collections are keyed by. */
module Common {

  /** A reference that may be null (an unset ObjectId field). */
  datatype Option<+T> = None | Some(value: T)

  /** The outcome of an operation that can fail with a declared error. */
  datatype Result<+T, +E> = Ok(value: T) | Err(error: E)

  /** Identifier of a document in the players collection. */
  type PlayerId = nat

  /** Identifier of a document in the teams collection. */
  type TeamId = nat

  /** Identifier of a document in the users collection. */
  type UserId = nat
}
