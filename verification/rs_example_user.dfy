/**
  RsExampleUser's generated module: two required slots of the example
  interface, `their_example` and `another_example`, each with its own
  `max_current` subscriber; an on-ready subscriber; and one publisher per
  slot for calling `uses_something`.
 */
module RsExampleUser {
  import Json
  import Codec
  import opened Everestrs

  /** `ExamplePublisher`: a cloneable handle on the runtime's channel. */
  datatype ExamplePublisher = ExamplePublisher(runtime: Channel)

  /** `ExamplePublisher::uses_something`: send `{"key": key}` and decode the
      reply as a bool. The slot name is fixed in the generated body. */
  function UsesSomething(p: ExamplePublisher, remote: Remote, key: string): (r: Exchange<bool>)
    ensures r.via == p.runtime
    ensures r.sent == CallCommand("their_example", "uses_something", Json.Object(map["key" := Json.String(key)]))
    ensures r.result.Ok? <==> Reply(remote, p.runtime, r.sent).Bool?
    ensures r.result.Ok? ==> Reply(remote, p.runtime, r.sent) == Json.Bool(r.result.value)
    ensures r.result.Err? ==> r.result.error == InvalidArgument(ReturnValue)
  {
    var args := Json.Object(map["key" := Json.FromString(key)]);
    var sent := CallCommand("their_example", "uses_something", args);
    Exchange(p.runtime, sent, Codec.ReturnBool(Reply(remote, p.runtime, sent)))
  }

  /** `ModulePublisher`: the publishers of all required slots. */
  datatype ModulePublisher = ModulePublisher(theirPublisher: ExamplePublisher, anotherPublisher: ExamplePublisher)

  /** The `ExampleSubscriber` trait: reacts to `max_current` for its state only. */
  datatype ExampleSubscriber<!S> = ExampleSubscriber(onMaxCurrent: (S, ModulePublisher, int) -> S)

  /** The `OnReadySubscriber` trait. */
  datatype OnReadySubscriber<!S> = OnReadySubscriber(onReady: (S, ModulePublisher) -> S)

  /** `Module`: the subscribers and the publisher it hands to each of them. */
  datatype Module<!S> = Module(
    theirExample: ExampleSubscriber<S>,
    anotherExample: ExampleSubscriber<S>,
    onReady: OnReadySubscriber<S>,
    publisher: ModulePublisher)

  /** `Module::new`: both publishers are clones of the one runtime publisher. */
  function New<S>(theirExample: ExampleSubscriber<S>, anotherExample: ExampleSubscriber<S>,
                  onReady: OnReadySubscriber<S>, runtime: Channel): (m: Module<S>)
    ensures m.publisher.theirPublisher.runtime == runtime
    ensures m.publisher.anotherPublisher.runtime == runtime
  {
    Module(theirExample, anotherExample, onReady,
           ModulePublisher(ExamplePublisher(runtime), ExamplePublisher(runtime)))
  }

  /** `example_interface::handle_variable`: `max_current` must carry a number,
      which is handed once to the subscriber together with the publisher. */
  function ExampleHandleVariable<S>(pub: ModulePublisher, sub: ExampleSubscriber<S>, st: S, name: string,
                                    value: Json.Value): (r: (S, Result<()>))
    ensures name != "max_current" ==> r == (st, Err(InvalidArgument(UnknownVariable)))
    ensures name == "max_current" && !value.Number? ==> r == (st, Err(InvalidArgument("max_current")))
    ensures r.1.Ok? <==> name == "max_current" && value.Number?
    ensures r.1.Ok? ==> r.0 == sub.onMaxCurrent(st, pub, value.n)
  {
    if name == "max_current" then
      match Json.AsNumber(value)
      case Parsed(v) => (sub.onMaxCurrent(st, pub, v), Ok(()))
      case TypeMismatch => (st, Err(InvalidArgument("max_current")))
    else
      (st, Err(InvalidArgument(UnknownVariable)))
  }

  /** `Module::handle_variable`: each required slot goes to its own subscriber. */
  function HandleVariable<S>(m: Module<S>, st: S, implementationId: string, name: string, value: Json.Value): (r: (S, Result<()>))
    ensures implementationId != "their_example" && implementationId != "another_example"
            ==> r == (st, Err(InvalidArgument(UnknownVariable)))
    ensures implementationId == "their_example" ==> r == ExampleHandleVariable(m.publisher, m.theirExample, st, name, value)
    ensures implementationId == "another_example" ==> r == ExampleHandleVariable(m.publisher, m.anotherExample, st, name, value)
  {
    if implementationId == "their_example" then
      ExampleHandleVariable(m.publisher, m.theirExample, st, name, value)
    else if implementationId == "another_example" then
      ExampleHandleVariable(m.publisher, m.anotherExample, st, name, value)
    else
      (st, Err(InvalidArgument(UnknownVariable)))
  }

  /** `Module::on_ready`: forward to the on-ready subscriber with the publisher. */
  function OnReady<S>(m: Module<S>, st: S): S {
    m.onReady.onReady(st, m.publisher)
  }

  /** A callback the traced module saw. */
  datatype Event =
    | MaxCurrent(slot: string, publisher: ModulePublisher, value: int)
    | Ready(publisher: ModulePublisher)

  function TracedSubscriber<S>(sub: ExampleSubscriber<S>, slot: string): ExampleSubscriber<(S, seq<Event>)> {
    ExampleSubscriber((t: (S, seq<Event>), pub: ModulePublisher, v: int) =>
      (sub.onMaxCurrent(t.0, pub, v), t.1 + [MaxCurrent(slot, pub, v)]))
  }

  /** The module with every subscriber wrapped to log its calls, tagged with
      the slot the subscriber was registered for. */
  function Traced<S>(m: Module<S>): Module<(S, seq<Event>)> {
    Module(
      TracedSubscriber(m.theirExample, "their_example"),
      TracedSubscriber(m.anotherExample, "another_example"),
      OnReadySubscriber((t: (S, seq<Event>), pub: ModulePublisher) =>
        (m.onReady.onReady(t.0, pub), t.1 + [Ready(pub)])),
      m.publisher)
  }

  /** A notification reaches exactly one subscriber, the one of its slot,
      once, with the decoded number and the module's publisher, exactly when
      it succeeds; otherwise no subscriber runs. */
  lemma SubscriberCalledOnce<S>(m: Module<S>, st: S, log: seq<Event>, implementationId: string, name: string, value: Json.Value)
    ensures var (traced, r') := HandleVariable(Traced(m), (st, log), implementationId, name, value);
            var (st', r) := HandleVariable(m, st, implementationId, name, value);
            && traced.0 == st'
            && r' == r
            && (r.Ok? <==> (implementationId == "their_example" || implementationId == "another_example")
                           && name == "max_current" && value.Number?)
            && traced.1 == log + (if r.Ok? then [MaxCurrent(implementationId, m.publisher, value.n)] else [])
  {
  }

  /** `on_ready` calls the on-ready subscriber exactly once, with the publisher. */
  lemma OnReadyCalledOnce<S>(m: Module<S>, st: S, log: seq<Event>)
    ensures OnReady(Traced(m), (st, log)) == (OnReady(m, st), log + [Ready(m.publisher)])
  {
  }

  /** Both publishers wrap the same channel, so calls through either are the
      same call, addressed to `their_example`. */
  lemma PublishersShareChannel<S>(theirExample: ExampleSubscriber<S>, anotherExample: ExampleSubscriber<S>,
                                  onReady: OnReadySubscriber<S>, runtime: Channel, remote: Remote, key: string)
    ensures var pub := New(theirExample, anotherExample, onReady, runtime).publisher;
            && pub.theirPublisher == pub.anotherPublisher
            && UsesSomething(pub.anotherPublisher, remote, key) == UsesSomething(pub.theirPublisher, remote, key)
            && UsesSomething(pub.anotherPublisher, remote, key).sent.slot == "their_example"
  {
  }
}
