# everest-core Rust dispatch layer, modelled in Dafny

This project models the generated dispatch and marshalling layer of the
everest-core Rust modules. It also models the one concrete service that the
RsSmokeTest module plugs into that layer.

A module talks to the EVerest runtime through strings and JSON. An inbound
command arrives as an implementation id (the slot), a command name and a map
of JSON arguments. An inbound variable arrives as a slot, a variable name and
one JSON payload. The generated code resolves the slot, then the name. It then
removes each declared parameter from the argument map in declared order. An
absent parameter gives `MissingArgument(name)`. A parameter of the wrong shape
gives `InvalidArgument(name)`. Only after that does the code call the typed
handler, and it turns the handler's value back into JSON with `.into()`.
Every routing failure is an `InvalidArgument` with a fixed message. A
handler's own error is returned unchanged.

The model is functional throughout:

- **Values.** `Json.Value` is a recursive JSON datatype. The decoders `AsString`,
  `AsBool`, `AsUnit`, `AsNumber` and `AsValue` are the only `from_value` targets
  the code uses. `Codec` holds the per-argument and per-reply snippets that
  every match arm repeats.
- **Traits.** A trait implementation (`KvsService`, `ExampleService`,
  `ExampleSubscriber`, `OnReadySubscriber`) is a record of pure functions over
  the implementor's state `S`. Both `&self` and `&mut self` methods become
  `(S, args) -> (S, Result)`.
- **Dispatchers.** Every dispatcher is a pure function that returns the new
  state with its result. "The handler is not called" means the state is
  returned unchanged.
- **Exactly-once calls.** These are stated by wrapping any service or module
  in a `Traced` version that logs each call. The lemmas prove that the traced
  run equals the original run plus exactly one log entry.
- **Outbound calls.** Each typed outbound call or publish returns an `Exchange`:
  the channel used, the `(slot, name, value)` message handed to it, and the
  typed result. What the runtime answers is a parameter of type `Remote`.
- **Schema reference.** `Schema` is a table-driven reading of the interface
  descriptors: find the command, then decode each declared parameter in
  order. The generated decoders are proved equal to it on every input.
- **Shared KVS dispatch.** RsExample's `my_store::handle_command` and
  RsSmokeTest's `main::handle_cmd` contain the same generated KVS dispatch.
  Both are modelled by `KvsInterface.HandleCommand`.

Some behaviours of the code that the model keeps as written:

- RsExample's `handle_variable` refuses every notification.
- RsExampleUser's `uses_something` has the slot name `their_example` fixed in
  its body. Both of its publishers share one channel. So a call through
  `another_publisher` is the same call as one through `their_publisher`.
- `load` of a missing key answers JSON `null`, so it cannot tell a missing key
  from a stored `null`.

## Model

| member | source | states |
|---|---|---|
| `Json.AsString` | modules/rust_examples/RsExample/src/eventually_generated.rs:177-182 | decoding to `String` succeeds exactly on a JSON string and returns its text |
| `Json.AsBool` | modules/rust_examples/RsExampleUser/src/eventually_generated.rs:25-26 | decoding to `bool` succeeds exactly on a JSON bool and returns it |
| `Json.AsUnit` | modules/rust_examples/RsExample/src/eventually_generated.rs:69-70 | decoding to `()` succeeds exactly on JSON `null` |
| `Json.AsNumber` | modules/rust_examples/RsExampleUser/src/eventually_generated.rs:148-149 | decoding to `f64` succeeds exactly on a JSON number and returns its payload |
| `Json.AsValue` | modules/rust_examples/RsExample/src/eventually_generated.rs:241-246 | decoding to `serde_json::Value` accepts every value unchanged |
| `Json.FromUnit` | modules/rust_examples/RsExample/src/eventually_generated.rs:209-210 | `().into()` is a value that decodes back to `()` |
| `Json.FromBool` | modules/rust_examples/RsExample/src/eventually_generated.rs:184-185 | `bool::into()` decodes back to the same bool |
| `Json.FromString` | modules/rust_examples/RsExample/src/eventually_generated.rs:63-65 | a string put into `json!` decodes back to the same string |
| `Json.DecodersAreExact` | modules/rust_examples/RsExample/src/eventually_generated.rs:177-185 | whatever a decoder accepts is exactly the encoding of what it returns |
| `Codec.TakeString` | modules/RsSmokeTest/src/eventually_generated.rs:69-74 | a missing argument gives `MissingArgument(name)`; a non-string gives `InvalidArgument(name)`; otherwise the argument's text |
| `Codec.TakeValue` | modules/RsSmokeTest/src/eventually_generated.rs:108-113 | a raw-JSON argument fails only when missing (`MissingArgument(name)`); any present value is returned as is |
| `Codec.EncodeUnit` | modules/RsSmokeTest/src/eventually_generated.rs:76-77 | a `()` result becomes `Ok(null)`; a handler error passes through unchanged |
| `Codec.EncodeBool` | modules/RsSmokeTest/src/eventually_generated.rs:87-88 | a `bool` result becomes `Ok` of a JSON bool that decodes to it; a handler error passes through unchanged |
| `Codec.ReturnUnit` | modules/rust_examples/RsExample/src/eventually_generated.rs:69-70 | a reply decodes as `()` exactly when it is `null`; otherwise `InvalidArgument("return_value")` |
| `Codec.ReturnBool` | modules/rust_examples/RsExampleUser/src/eventually_generated.rs:25-26 | a reply decodes exactly when it is a JSON bool; otherwise `InvalidArgument("return_value")` |
| `Codec.ReplyRoundTrip` | modules/rust_examples/RsExample/src/eventually_generated.rs:62-71 | a provider's successful `()` or `bool` answer decodes at the caller to the same value |
| `Schema.DecodeArgs` | modules/RsSmokeTest/src/eventually_generated.rs:101-113 | removing the declared parameters in order yields, on success, one value per parameter, each the bag's entry; every error names a declared parameter |
| `Schema.DecodeArgsSucceeds` | modules/RsSmokeTest/src/eventually_generated.rs:101-115 | decoding succeeds if and only if every declared parameter is present and well typed |
| `Schema.DecodeArgsFirstFailure` | modules/RsSmokeTest/src/eventually_generated.rs:101-113 | the error reported is for the first parameter, in declared order, that fails: `InvalidArgument` if present, `MissingArgument` if absent |
| `Schema.DecodeArgsIgnoresUndeclared` | modules/RsSmokeTest/src/eventually_generated.rs:65-74 | two bags that agree on the declared names decode identically, so extra keys never matter |
| `Schema.Resolve` | modules/RsSmokeTest/src/eventually_generated.rs:67-118 | a command is found exactly when the interface declares its name; otherwise `InvalidArgument("Unknown command called.")` |
| `KvsInterface.DecodeCommand` | modules/RsSmokeTest/src/eventually_generated.rs:67-118 | an unknown command, a missing or non-string `key`, and a missing `value` for `store` (checked after `key`) each give their exact error; otherwise it succeeds with the named command and the bag's arguments |
| `KvsInterface.DecodeCommandRoundTrip` | modules/RsSmokeTest/src/eventually_generated.rs:67-117 | decoding yields a request if and only if the command is that request's and the bag contains that request's arguments, extra keys or not |
| `KvsInterface.DecodeCommandMatchesDescriptor` | modules/RsSmokeTest/src/eventually_generated.rs:67-118 | the generated match arms give the same errors and arguments as the table-driven reading of the KVS descriptor |
| `KvsInterface.Invoke` | modules/RsSmokeTest/src/eventually_generated.rs:75-116 | one handler call per decoded request: the new state is the handler's; `delete` and `store` answer `null`, `exists` a JSON bool that decodes to the handler's bool, `load` the handler's value as is; a handler error passes through unchanged |
| `KvsInterface.HandleCommand` | modules/RsSmokeTest/src/eventually_generated.rs:62-120 | a decoding failure returns that error and leaves the service state untouched; a decoded request is handed to its handler exactly as `Invoke` states |
| `KvsInterface.HandlerInvokedOnce` | modules/RsSmokeTest/src/eventually_generated.rs:76-115 | the handler is called exactly once, with the decoded arguments, when decoding succeeds, and never otherwise |
| `KvsInterface.ReplyEncoding` | modules/RsSmokeTest/src/eventually_generated.rs:75-116 | `delete` and `store` answer `null`, `exists` a JSON bool, `load` the handler's value as is; handler errors pass through unchanged |
| `KvsInterface.ExtraKeysIgnored` | modules/RsSmokeTest/src/eventually_generated.rs:67-117 | bags that agree on `key` and `value` give the same outcome and the same new state |
| `RsSmokeTest.HandleCmd` | modules/RsSmokeTest/src/eventually_generated.rs:44-56 | any id other than `main` gives `InvalidArgument("Unknown implementation_id called.")` and leaves the service unchanged; on `main`, a decoding error leaves the service unchanged, and otherwise the answer, the error and the new service state are those of the KVS dispatcher |
| `RsSmokeTest.Replay` | modules/RsSmokeTest/src/eventually_generated.rs:44-49 | calls delivered one after another each get exactly one answer, in order |
| `RsSmokeTest.UnroutedSessionChangesNothing` | modules/RsSmokeTest/src/eventually_generated.rs:50-55 | a session that never names `main` leaves the module unchanged and every answer is the unknown-implementation error |
| `SmokeTestKvs.Store` | modules/RsSmokeTest/src/main.rs:13-16 | `store` always succeeds, adds or overwrites `key` with `value` and leaves every other entry alone |
| `SmokeTestKvs.Load` | modules/RsSmokeTest/src/main.rs:18-24 | `load` always succeeds, changes nothing, and returns the stored value or `null` for a missing key |
| `SmokeTestKvs.Delete` | modules/RsSmokeTest/src/main.rs:26-29 | `delete` always succeeds, removes `key` if present and leaves every other entry alone |
| `SmokeTestKvs.Exists` | modules/RsSmokeTest/src/main.rs:31-33 | `exists` always succeeds, changes nothing, and is true exactly when the key is stored |
| `SmokeTestKvs.ServiceHandlers` | modules/RsSmokeTest/src/main.rs:12-34 | the four handlers of `impl KvsService for Kvs` never fail: `delete` removes the key, `store` inserts or overwrites it, `exists` and `load` leave the map alone and answer membership and the entry or `null` |
| `SmokeTestKvs.LoadAfterStore` | modules/RsSmokeTest/src/main.rs:13-24 | after `store(k, v)`, `load(k)` returns `v` and `exists(k)` is true |
| `SmokeTestKvs.StoreOverwrites` | modules/RsSmokeTest/src/main.rs:13-16 | a second `store` on the same key replaces the first |
| `SmokeTestKvs.LoadAfterDelete` | modules/RsSmokeTest/src/main.rs:18-33 | after `delete(k)`, `exists(k)` is false and `load(k)` is `null` |
| `SmokeTestKvs.DeleteMissingIsNoop` | modules/RsSmokeTest/src/main.rs:26-29 | deleting an absent key leaves the store unchanged |
| `SmokeTestKvs.WritesLeaveOtherKeys` | modules/RsSmokeTest/src/main.rs:13-29 | `store` and `delete` on one key leave every other key's entry unchanged |
| `SmokeTestKvs.StoredNullLoadsLikeMissing` | modules/RsSmokeTest/src/main.rs:18-33 | `load` answers the same for a stored `null` and a missing key, while `exists` tells them apart |
| `SmokeTestKvs.MainAnswers` | modules/RsSmokeTest/src/main.rs:12-33 | every well-formed request sent to `main` succeeds with the documented answer and state change, whatever extra keys the bag holds |
| `SmokeTestKvs.CallLeavesUntouchedKey` | modules/RsSmokeTest/src/main.rs:12-33 | a call that is not a `store` or `delete` on `main` for key `k` leaves `k`'s entry unchanged |
| `SmokeTestKvs.SessionLeavesUntouchedKey` | modules/RsSmokeTest/src/main.rs:12-33 | over a whole session, an entry that no call may write keeps its value |
| `SmokeTestKvs.ScenarioResults` | modules/RsSmokeTest/src/main.rs:12-33 | store a=42, exists a, load a, delete a, exists a, load missing answer null, true, 42, null, false, null and end with an empty store |
| `RsExample.DecodeFoobarCommand` | modules/rust_examples/RsExample/src/eventually_generated.rs:175-187 | only `uses_something` is known; a missing or non-string `key` gives its exact error; on success the result is the `key` text |
| `RsExample.FoobarHandleCommand` | modules/rust_examples/RsExample/src/eventually_generated.rs:170-189 | a decoding error leaves the state untouched; otherwise the handler's bool comes back as a JSON bool and its error unchanged |
| `RsExample.DecodeFoobarMatchesDescriptor` | modules/rust_examples/RsExample/src/eventually_generated.rs:175-187 | the `foobar` arm agrees with the table-driven reading of the example descriptor |
| `RsExample.HandleCommand` | modules/rust_examples/RsExample/src/eventually_generated.rs:117-132 | only `foobar` and `my_store` are routed, each to its own service; any other id gives `InvalidArgument("Unknown implementation_id called.")` with the state unchanged |
| `RsExample.SlotsAreIndependent` | modules/rust_examples/RsExample/src/eventually_generated.rs:125-127 | the `my_store` slot never consults the `foobar` service, and the other way round |
| `RsExample.HandleVariable` | modules/rust_examples/RsExample/src/eventually_generated.rs:134-146 | every variable notification gives `InvalidArgument("Unknown variable received.")` and changes nothing |
| `RsExample.DefaultOnReady` | modules/rust_examples/RsExample/src/eventually_generated.rs:106 | the default `on_ready` body leaves every state as it is |
| `RsExample.OnReadyCalledOnce` | modules/rust_examples/RsExample/src/eventually_generated.rs:148-150 | the proxy's `on_ready` runs the author's hook exactly once, for any hook, and changes nothing else |
| `RsExample.DefaultOnReadyIsNoop` | modules/rust_examples/RsExample/src/eventually_generated.rs:105-106 | a module that keeps the default `on_ready` is unchanged when the proxy forwards readiness |
| `RsExample.PublishMaxCurrent` | modules/rust_examples/RsExample/src/eventually_generated.rs:46-50 | publishes `max_current` on slot `foobar` through the module's channel and always returns `Ok` |
| `RsExample.KvsClientDelete` | modules/rust_examples/RsExample/src/eventually_generated.rs:62-72 | sends `("their_store", "delete", {"key": key})` on the client's channel; succeeds exactly when the reply is `null`, otherwise `InvalidArgument("return_value")` |
| `RsExample.InitPublishers` | modules/rust_examples/RsExample/src/eventually_generated.rs:156-160 | the `foobar` publisher and the `their_store` client share the one raw publisher |
| `RsExampleUser.UsesSomething` | modules/rust_examples/RsExampleUser/src/eventually_generated.rs:18-28 | sends `("their_example", "uses_something", {"key": key})`; returns the reply's bool when it is one, otherwise `InvalidArgument("return_value")` |
| `RsExampleUser.New` | modules/rust_examples/RsExampleUser/src/eventually_generated.rs:73-81 | both publishers are built on the one runtime channel |
| `RsExampleUser.ExampleHandleVariable` | modules/rust_examples/RsExampleUser/src/eventually_generated.rs:140-155 | only `max_current` is known; a non-number payload gives `InvalidArgument("max_current")` with nothing called; a number reaches the subscriber with the publisher |
| `RsExampleUser.HandleVariable` | modules/rust_examples/RsExampleUser/src/eventually_generated.rs:108-129 | only `their_example` and `another_example` are routed, each to its own subscriber; any other id gives `InvalidArgument("Unknown variable received.")` with nothing changed |
| `RsExampleUser.SubscriberCalledOnce` | modules/rust_examples/RsExampleUser/src/eventually_generated.rs:114-151 | a notification succeeds exactly for a routed slot, `max_current` and a number; then that slot's subscriber runs once with the number and the module's publisher, and otherwise none runs |
| `RsExampleUser.OnReadyCalledOnce` | modules/rust_examples/RsExampleUser/src/eventually_generated.rs:131-133 | `on_ready` calls the on-ready subscriber exactly once, with the module's publisher |
| `RsExampleUser.PublishersShareChannel` | modules/rust_examples/RsExampleUser/src/eventually_generated.rs:73-81 | the two publishers are equal, so a call through `another_publisher` is the same call and goes to slot `their_example` |
| `Interop.KvsClientDeleteMatchesProvider` | modules/rust_examples/RsExample/src/eventually_generated.rs:62-71 | the bag `KvsClient::delete` sends is decoded by the KVS dispatcher as `delete(key)`; a relayed successful answer gives the client `Ok(())` |
| `Interop.PublishReachesSubscriber` | modules/rust_examples/RsExample/src/eventually_generated.rs:46-50 | the `max_current` notification `publish_max_current` sends is accepted by a requiring module's `handle_variable`, and its subscriber runs with the same number |
| `Interop.UsesSomethingMatchesProvider` | modules/rust_examples/RsExampleUser/src/eventually_generated.rs:18-27 | the bag `uses_something` sends is decoded by `foobar::handle_command`; a relayed successful answer gives the caller the provider handler's bool |

## Left out

- `KvsClient::exists`, `KvsClient::load` and `KvsClient::store` (modules/rust_examples/RsExample/src/eventually_generated.rs:79-102) are `todo!()` stubs. They have no behaviour to model.
- RsExampleUser's `Subscriber::handle_command` (modules/rust_examples/RsExampleUser/src/eventually_generated.rs:98-106) is a `todo!()` stub. It is not modelled.
- The business logic in RsExample's and RsExampleUser's `main.rs` and the code generation in `build.rs` are not part of this model. The RsExample `main.rs` also imports names that its generated file does not define.
- The runtime is outside the model: `Runtime::from_commandline`, `RawPublisher`, `RuntimePublisher`, `RuntimeSubscriber` and `everestrs::Module::from_commandline`. A channel is an opaque handle. The runtime's answers are a `Remote` parameter, and publishing is a recorded `PublishVariable` message.
- The `Arc`/`Weak`/`Mutex` wiring in RsExampleUser's `Module::new` and the registration of the `RuntimeSubscriber` are ownership and threading plumbing. They are not modelled. As a consequence, nothing here states that a publisher keeps working after the module is dropped.
- Concurrency is not modelled: concurrent dispatch from several threads and the locking a domain implementation must do. Commands to RsSmokeTest arrive through `&mut self`, so `Replay` models them as a strict sequence.
- Floating point is not modelled. A JSON number carries an integer payload, and `max_current: f64` is only checked to be a number. Publishing a non-finite `f64` would produce `null`, which is not modelled.
- serde's general decoding machinery is not modelled. Only the decoders the code uses are: `String`, `bool`, `()`, `f64` and raw `Value`.
- Readiness sequencing belongs to the runtime and is not in the generated code. The model states only that one `on_ready` call forwards to the module's hook exactly once.
- Every routing failure is `InvalidArgument` with a fixed message. An undecodable reply is `InvalidArgument("return_value")`. A handler's error is any `everestrs::Error` and is returned unchanged. `Domain` stands for the variants the generated code never builds; the model does not enumerate them.
- An unknown variable name is an error in the code (modules/rust_examples/RsExampleUser/src/eventually_generated.rs:153), not silently ignored. The model follows the code.
- RsSmokeTest.Replay: its contract states only that every call gets one answer. What the answers are is stated by `ScenarioResults`, `UnroutedSessionChangesNothing` and `SessionLeavesUntouchedKey`.
- RsExample's `KvsService` and `ExampleService` take `&self`, so any change of state happens through interior mutability. The model gives them the same `(S, args) -> (S, Result)` shape as RsSmokeTest's `&mut self` service. That is more general, and an implementation without a state change is the special case that returns `S` unchanged.
