/** Failure-carrying results for the model's oracles: a call into the network,
    the document store or the Telegram API either yields a value or throws. */
module Wrappers {

  /** The settlement of an awaited call: a value, or a thrown exception. */
  datatype Result<+T> = Ok(value: T) | Threw

  datatype Option<+T> = None | Some(value: T)

  /** The outcome of a store write whose value the caller ignores. */
  datatype StoreCall = Done | Failed
}
