/** Identifiers, optional request fields and the outcomes the HTTP handlers report. */
module Common {

  /** Row identifiers (UUIDs in the database) and user identities. */
  type Id = nat
  type UserId = nat

  /** Instants, in milliseconds. */
  type Time = int

  /** A request field that may be absent (`undefined` in the request body). */
  datatype Option<+T> = None | Some(value: T)

  /** The different 400 messages a handler sends for a malformed request. */
  datatype InvalidReason =
    | MissingFields
    | InvalidMovementType
    | NonPositiveQuantity
    | NegativeValues
    | NameRequired

  /** The non-500 failures of the handlers, one per HTTP error response. */
  datatype Error =
    | NotFound
    | AccessDenied
    | Invalid(reason: InvalidReason)
    | InsufficientStock(currentStock: int, requested: int)
    | AlreadyResolved
    | HasProducts(productCount: nat)

  datatype Result<+T> = Ok(value: T) | Err(error: Error)

  /** JavaScript truthiness of an optional string: absent and "" are both falsy. */
  predicate Truthy(s: Option<string>)
  {
    s.Some? && s.value != ""
  }
}
