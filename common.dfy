/** Shapes shared by every part of the model: identifiers, the clock, nullable
    values and the HTTP statuses a `ResponseStatusException` carries. */
module Common {

  /** A `java.util.UUID`; only equality matters, so any countable type does. */
  type Uuid = nat

  /** A `LocalDateTime`, as seconds on the server clock. */
  type Time = int

  const SECONDS_PER_DAY := 86400

  /** A reference that may be `null`. */
  datatype Option<+T> = None | Some(value: T)

  /** The statuses the services throw. `InternalError` stands for an unchecked
      exception that is not a `ResponseStatusException` (a 500); inside a
      `@Transactional` method it also rolls back every change. */
  datatype Status = BadRequest | Unauthorized | NotFound | Conflict | InternalError

  /** Either the value a service returns or the status of the exception it throws. */
  datatype Result<+T> = Ok(value: T) | Err(status: Status)

  /** A Java `Integer`: 32 bits, two's complement. */
  newtype Int32 = x: int | -0x8000_0000 <= x < 0x8000_0000

  /** A partial update: a provided (non-null) field replaces the stored value,
      an omitted one keeps it. */
  function Patched<T>(provided: Option<T>, stored: T): T
  {
    if provided.Some? then provided.value else stored
  }

  /** The same, for a column that may itself hold `null`. */
  function PatchedNullable<T>(provided: Option<T>, stored: Option<T>): Option<T>
  {
    if provided.Some? then provided else stored
  }
}
