/** Failure-compatible result types. Every exception the C# code can throw on
    malformed input becomes a `Failure` carrying the kind of exception. */
module Wrappers {

  /** The exceptions the modelled code can raise. */
  datatype Error =
    | IndexOutOfRange(index: int)   // `message[index]` outside the array
    | SequenceEmpty                 // `Enumerable.First` on an empty sequence
    | TooFewBytes(count: nat)       // `BitConverter.ToInt16/ToInt32` given too short an array
    | SocketError                   // the upstream socket failed or timed out

  datatype Option<+T> = None | Some(value: T)

  datatype Result<+T> = Success(value: T) | Failure(error: Error) {
    predicate IsFailure() {
      Failure?
    }

    function PropagateFailure<U>(): Result<U>
      requires Failure?
    {
      Failure(error)
    }

    function Extract(): T
      requires Success?
    {
      value
    }
  }
}
