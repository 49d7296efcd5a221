/** Outcome values shared by every component (include/jitter/error.hpp). */
module Errors {

  // The reason codes the modelled operations can report.
  datatype ErrorCode =
    | InvalidArgument
    | OutOfRange
    | Overflow
    | NotFound
    | Duplicate
    | Conflict
    | StaleGeneration
    | CapacityExceeded
    | LimitExceeded
    | IntegrityFailure
    | VersionUnsupported
    | Corrupt
    | ShuttingDown
    | Backpressure
    | ProtocolViolation
    | IoFailure
    | InsufficientEvidence
    | NotReady
    | PolicyViolation
    | UnsupportedUnit
    | IncomparableClocks

  /** Value or error; usable with the `:-` operator. */
  datatype Result<+T> = Ok(value: T) | Err(error: ErrorCode) {
    predicate IsFailure() {
      Err?
    }

    function PropagateFailure<U>(): Result<U>
      requires Err?
    {
      Err(error)
    }

    function Extract(): T
      requires Ok?
    {
      value
    }
  }

  datatype Option<+T> = None | Some(value: T)

  datatype Status = Success | Failure(error: ErrorCode)
}
