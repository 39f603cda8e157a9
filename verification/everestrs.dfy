/**
  The parts of the `everestrs` runtime library that the generated dispatch code
  relies on: its error type, its `Result`, the fixed routing messages, and the
  opaque outbound channel (`RawPublisher` / `RuntimePublisher`).
 */
module Everestrs {
  import Json

  /** `everestrs::Error`. `Domain` stands for every variant a handler may
      return that the generated layer never constructs itself. */
  datatype Error =
    | MissingArgument(name: string)
    | InvalidArgument(name: string)
    | Domain(reason: string)

  /** `everestrs::Result<T>`, usable with `:-` like Rust's `?`. */
  datatype Result<+T> = Ok(value: T) | Err(error: Error) {
    predicate IsFailure() {
      Err?
    }

    function PropagateFailure<U>(): Result<U>
      requires Err?
    {
      Err(error)
    }

    function Extract(): T
      requires Ok?
    {
      value
    }
  }

  /** The fixed messages the generated dispatchers put into `InvalidArgument`. */
  const UnknownImplementation: string := "Unknown implementation_id called."
  const UnknownCommand: string := "Unknown command called."
  const UnknownVariable: string := "Unknown variable received."
  const ReturnValue: string := "return_value"

  /** An opaque handle on the runtime's outbound channel. Cloning a publisher
      copies the handle, so clones compare equal. */
  datatype Channel = Channel(handle: nat)

  /** One message handed to the outbound channel. */
  datatype Outbound =
    | CallCommand(slot: string, name: string, value: Json.Value)
    | PublishVariable(slot: string, name: string, value: Json.Value)

  /** What the runtime answers to a command call on a channel; it lies outside
      the core, so every outbound call takes it as a parameter. */
  type Remote = (Channel, string, string, Json.Value) -> Json.Value

  /** The outcome of one typed outbound call or publish: the channel used,
      the message handed to it, and the typed result. */
  datatype Exchange<+T> = Exchange(via: Channel, sent: Outbound, result: Result<T>)

  /** The reply `remote` gives to the command call `sent`. */
  function Reply(remote: Remote, channel: Channel, sent: Outbound): Json.Value {
    remote(channel, sent.slot, sent.name, sent.value)
  }
}
