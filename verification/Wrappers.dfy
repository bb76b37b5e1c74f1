/** Optional values and the program's error results. */
module Wrappers {

  datatype Option<+T> = None | Some(value: T) {
    function ToResult(error: Error): Result<T> {
      match this
      case None => Err(error)
      case Some(v) => Ok(v)
    }
  }

  /** The error codes of the OFT program, then those it passes on from the runtime,
      the token program and the endpoint. `Panic` is an overflow, an unwrap or a slice failure. */
  datatype Error =
    | Unauthorized
    | InvalidSender
    | InvalidDecimals
    | SlippageExceeded
    | InvalidTokenDest
    | RateLimitExceeded
    | InvalidFee
    | InvalidMintAuthority
    | Paused
    | Panic
    | InvalidArgument
    | AccountNotInitialized
    | InsufficientFunds
    | TokenOverflow
    | OwnerMismatch
    | InvalidOptions
    | PayloadNotFound

  datatype Result<+T> = Ok(value: T) | Err(error: Error) {
    predicate IsFailure() {
      Err?
    }

    function PropagateFailure<U>(): Result<U>
      requires Err?
    {
      Err(error)
    }

    function Extract(): T
      requires Ok?
    {
      value
    }
  }
}
