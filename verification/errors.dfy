/** Small shared vocabulary: optional values and the framework's internal errors. */
module Errors {

  datatype Option<+T> = None | Some(value: T)

  datatype Result<+T, +E> = Ok(value: T) | Err(error: E)

  /** The internal errors, in declaration order; the order decides what is retried. */
  datatype RpcIntErr =
    | Unreachable
    | IO
    | Timeout
    | Method
    | Service
    | Encode
    | Decode
    | Internal
    | Version

  function Rank(e: RpcIntErr): nat {
    match e
    case Unreachable => 0
    case IO => 1
    case Timeout => 2
    case Method => 3
    case Service => 4
    case Encode => 5
    case Decode => 6
    case Internal => 7
    case Version => 8
  }

  /** Errors below `Method` are the ones a failover pool submits again: connect, socket and timeout errors. */
  predicate Retriable(e: RpcIntErr): (r: bool)
    ensures r <==> e == Unreachable || e == IO || e == Timeout
  {
    Rank(e) < Rank(Method)
  }
}
