/** Values shared by every part of the model: options, results and the failures callers can see. */
module Prelude {

  datatype Option<+T> = None | Some(value: T)

  datatype Result<+T> = Ok(value: T) | Err(error: Error)

  datatype Error =
    | BatchTooLarge(requested: nat, maximum: nat)
    | ConsumerConfigurationMismatch
    | EmptyConsumerName
    | InvalidConfig
    | IncompatibleSchema
    | UnsupportedSchemaVersion(found: int, supported: int)
    | InvalidVisibilityTimeout
    | IncompleteIdempotencyEntry
    | ConsumerDeleted
    | ConsumerNotFound
    | ConsumerNotDraining
    | ConsumerNotEmpty(outstanding: nat)
    | ConsumerHasArchives(archived: nat)
    | DurationOutOfRange
    | CounterOutOfRange
    | StorageInvariant
      // What SQLite answers when a statement would break a declared constraint.
    | ConstraintViolation

  newtype byte = b: int | 0 <= b < 256

  type Bytes = seq<byte>

  function Min(a: int, b: int): int {
    if a < b then a else b
  }

  function Max(a: int, b: int): int {
    if a < b then b else a
  }

  function SaturatingSub(a: nat, b: nat): nat {
    if a < b then 0 else a - b
  }
}
