/**
  RsExample's generated module: two provided slots, `foobar` (the example
  interface) and `my_store` (the key-value-store interface), no required
  variables, a `foobar` publisher for `max_current`, and a client for the
  required `their_store` slot.
 */
module RsExample {
  import Json
  import Schema
  import Codec
  import opened Everestrs
  import KvsInterface

  /** The `ExampleService` trait as a dictionary over the implementor's state. */
  datatype ExampleService<!S> = ExampleService(usesSomethingCmd: (S, string) -> (S, Result<bool>))

  /** The `Module` trait the module author implements: the services behind
      both provided slots and the `on_ready` hook. */
  datatype ModuleImpl<!S> = ModuleImpl(
    foobar: ExampleService<S>,
    myStore: KvsInterface.KvsService<S>,
    onReady: S -> S)

  /** The default body of `Module::on_ready`. */
  function DefaultOnReady<S(!new)>(): (hook: S -> S)
    ensures forall st: S :: hook(st) == st
  {
    (st: S) => st
  }

  /** The example interface as its descriptor declares it. */
  const ExampleDescriptor: Schema.Interface := [
    Schema.CommandDecl("uses_something", [Schema.ParamDecl("key", Schema.StringParam)])
  ]

  /** The decoding half of `foobar::handle_command`: the `key` of `uses_something`. */
  function DecodeFoobarCommand(cmdName: string, params: map<string, Json.Value>): (r: Result<string>)
    ensures cmdName != "uses_something" ==> r == Err(InvalidArgument(UnknownCommand))
    ensures cmdName == "uses_something" && "key" !in params ==> r == Err(MissingArgument("key"))
    ensures cmdName == "uses_something" && "key" in params && !params["key"].String? ==> r == Err(InvalidArgument("key"))
    ensures r.Ok? <==> cmdName == "uses_something" && "key" in params && params["key"].String?
    ensures r.Ok? ==> params["key"] == Json.String(r.value)
  {
    if cmdName == "uses_something" then
      Codec.TakeString(params, "key")
    else
      Err(InvalidArgument(UnknownCommand))
  }

  /** `foobar::handle_command`: decode, call `uses_something` once, encode its bool. */
  function FoobarHandleCommand<S>(svc: ExampleService<S>, st: S, cmdName: string, params: map<string, Json.Value>): (r: (S, Result<Json.Value>))
    ensures DecodeFoobarCommand(cmdName, params).Err? ==> r == (st, Err(DecodeFoobarCommand(cmdName, params).error))
    ensures DecodeFoobarCommand(cmdName, params).Ok?
            ==> var (st', res) := svc.usesSomethingCmd(st, DecodeFoobarCommand(cmdName, params).value);
                && r.0 == st'
                && (r.1.Ok? <==> res.Ok?)
                && (r.1.Ok? ==> r.1.value == Json.Bool(res.value))
                && (r.1.Err? ==> r.1.error == res.error)
  {
    match DecodeFoobarCommand(cmdName, params)
    case Err(e) => (st, Err(e))
    case Ok(key) =>
      var (st', res) := svc.usesSomethingCmd(st, key);
      (st', Codec.EncodeBool(res))
  }

  /** `GenericToSpecificModuleProxy::handle_command`: only `foobar` and
      `my_store` are routed, each to its own service. */
  function HandleCommand<S>(m: ModuleImpl<S>, st: S, implementationId: string, cmdName: string,
                            params: map<string, Json.Value>): (r: (S, Result<Json.Value>))
    ensures implementationId != "foobar" && implementationId != "my_store"
            ==> r == (st, Err(InvalidArgument(UnknownImplementation)))
    ensures implementationId == "foobar" ==> r == FoobarHandleCommand(m.foobar, st, cmdName, params)
    ensures implementationId == "my_store" ==> r == KvsInterface.HandleCommand(m.myStore, st, cmdName, params)
  {
    if implementationId == "foobar" then
      FoobarHandleCommand(m.foobar, st, cmdName, params)
    else if implementationId == "my_store" then
      KvsInterface.HandleCommand(m.myStore, st, cmdName, params)
    else
      (st, Err(InvalidArgument(UnknownImplementation)))
  }

  /** `GenericToSpecificModuleProxy::handle_variable`: the module requires no
      variables, so every notification is refused and nothing runs. */
  function HandleVariable<S>(m: ModuleImpl<S>, st: S, implementationId: string, name: string, value: Json.Value): (r: (S, Result<()>))
    ensures r.0 == st
    ensures r.1 == Err(InvalidArgument(UnknownVariable))
  {
    (st, Err(InvalidArgument(UnknownVariable)))
  }

  /** `GenericToSpecificModuleProxy::on_ready`: forward to the author's hook. */
  function OnReady<S>(m: ModuleImpl<S>, st: S): S {
    m.onReady(st)
  }

  /** The module with its `on_ready` hook wrapped to count its calls; both
      services act on the first component only and leave the count alone. */
  function Traced<S>(m: ModuleImpl<S>): ModuleImpl<(S, int)> {
    ModuleImpl(
      ExampleService((t: (S, int), k: string) =>
        var (s, res) := m.foobar.usesSomethingCmd(t.0, k); ((s, t.1), res)),
      KvsInterface.KvsService(
        (t: (S, int), k: string) =>
          var (s, res) := m.myStore.deleteCmd(t.0, k); ((s, t.1), res),
        (t: (S, int), k: string) =>
          var (s, res) := m.myStore.existsCmd(t.0, k); ((s, t.1), res),
        (t: (S, int), k: string) =>
          var (s, res) := m.myStore.loadCmd(t.0, k); ((s, t.1), res),
        (t: (S, int), k: string, v: Json.Value) =>
          var (s, res) := m.myStore.storeCmd(t.0, k, v); ((s, t.1), res)),
      (t: (S, int)) => (m.onReady(t.0), t.1 + 1))
  }

  /** The proxy's `on_ready` runs the author's hook exactly once, whatever
      the hook is, and changes nothing besides what the hook changes. */
  lemma OnReadyCalledOnce<S>(m: ModuleImpl<S>, st: S, count: int)
    ensures OnReady(Traced(m), (st, count)) == (m.onReady(st), count + 1)
  {
  }

  /** Without an `on_ready` of its own a module is unchanged by readiness. */
  lemma DefaultOnReadyIsNoop<S(!new)>(foobar: ExampleService<S>, myStore: KvsInterface.KvsService<S>, st: S)
    ensures OnReady(ModuleImpl(foobar, myStore, DefaultOnReady()), st) == st
  {
  }

  /** The `my_store` slot never consults the `foobar` service, and the other
      way round. */
  lemma SlotsAreIndependent<S>(m: ModuleImpl<S>, foobar: ExampleService<S>, myStore: KvsInterface.KvsService<S>,
                               st: S, cmdName: string, params: map<string, Json.Value>)
    ensures HandleCommand(m, st, "my_store", cmdName, params) == HandleCommand(ModuleImpl(foobar, m.myStore, m.onReady), st, "my_store", cmdName, params)
    ensures HandleCommand(m, st, "foobar", cmdName, params) == HandleCommand(ModuleImpl(m.foobar, myStore, m.onReady), st, "foobar", cmdName, params)
  {
  }

  /** The generated `foobar` arm agrees with the table-driven reading of the
      example interface's descriptor. */
  lemma DecodeFoobarMatchesDescriptor(cmdName: string, params: map<string, Json.Value>)
    ensures DecodeFoobarCommand(cmdName, params).Err? <==> Schema.DecodeCall(ExampleDescriptor, cmdName, params).Err?
    ensures DecodeFoobarCommand(cmdName, params).Err?
            ==> DecodeFoobarCommand(cmdName, params).error == Schema.DecodeCall(ExampleDescriptor, cmdName, params).error
    ensures DecodeFoobarCommand(cmdName, params).Ok?
            ==> Schema.DecodeCall(ExampleDescriptor, cmdName, params).value == [Json.String(DecodeFoobarCommand(cmdName, params).value)]
  {
  }

  /** The publisher handed to the module for its own `foobar` slot. */
  datatype FoobarPublisher = FoobarPublisher(rawPublisher: Channel)

  /** `FoobarPublisher::publish_max_current`: fire and forget. */
  function PublishMaxCurrent(p: FoobarPublisher, maxCurrent: int): (r: Exchange<()>)
    ensures r.via == p.rawPublisher
    ensures r.sent == PublishVariable("foobar", "max_current", Json.Number(maxCurrent))
    ensures r.result.Ok?
  {
    Exchange(p.rawPublisher, PublishVariable("foobar", "max_current", Json.Number(maxCurrent)), Ok(()))
  }

  /** The client for the required `their_store` slot. */
  datatype KvsClient = KvsClient(rawPublisher: Channel)

  /** `KvsClient::delete`: send `{"key": key}` to `their_store`'s `delete`
      and decode the reply as `()`. */
  function KvsClientDelete(c: KvsClient, remote: Remote, key: string): (r: Exchange<()>)
    ensures r.via == c.rawPublisher
    ensures r.sent == CallCommand("their_store", "delete", Json.Object(map["key" := Json.String(key)]))
    ensures r.result.Ok? <==> Reply(remote, c.rawPublisher, r.sent) == Json.Null
    ensures r.result.Err? ==> r.result.error == InvalidArgument(ReturnValue)
  {
    var args := Json.Object(map["key" := Json.FromString(key)]);
    var sent := CallCommand("their_store", "delete", args);
    Exchange(c.rawPublisher, sent, Codec.ReturnUnit(Reply(remote, c.rawPublisher, sent)))
  }

  /** `init_from_commandline`: both handles are clones of the one raw publisher. */
  function InitPublishers(rawPublisher: Channel): (r: (FoobarPublisher, KvsClient))
    ensures r.0.rawPublisher == rawPublisher && r.1.rawPublisher == rawPublisher
  {
    (FoobarPublisher(rawPublisher), KvsClient(rawPublisher))
  }
}
