/**
  RsSmokeTest's generated module: one provided KVS slot, `main`, whose
  service the module owns and mutates through `&mut self`.
 */
module RsSmokeTest {
  import Json
  import opened Everestrs
  import KvsInterface

  /** `Module<MainServiceImpl>`: the state of the owned service implementation;
      the implementation's methods are passed as a `KvsService` dictionary. */
  datatype Module<S> = Module(mainService: S)

  /** `ModuleImpl::handle_cmd`: route `main` to the KVS dispatcher, refuse
      every other implementation id. */
  function HandleCmd<S>(svc: KvsInterface.KvsService<S>, m: Module<S>, implementationId: string, cmdName: string,
                        params: map<string, Json.Value>): (r: (Module<S>, Result<Json.Value>))
    ensures implementationId != "main" ==> r == (m, Err(InvalidArgument(UnknownImplementation)))
    ensures implementationId == "main" && KvsInterface.DecodeCommand(cmdName, params).Err?
            ==> r == (m, Err(KvsInterface.DecodeCommand(cmdName, params).error))
    ensures implementationId == "main"
            ==> var (st', res) := KvsInterface.HandleCommand(svc, m.mainService, cmdName, params);
                r == (Module(st'), res)
  {
    if implementationId == "main" then
      var (st', res) := KvsInterface.HandleCommand(svc, m.mainService, cmdName, params);
      (Module(st'), res)
    else
      (m, Err(InvalidArgument(UnknownImplementation)))
  }

  /** One inbound command as the runtime delivers it. */
  datatype Invocation = Invocation(implementationId: string, cmdName: string, parameters: map<string, Json.Value>)

  /** The runtime delivering `calls` one after another; `&mut self` makes
      them strictly sequential. */
  function Replay<S>(svc: KvsInterface.KvsService<S>, m: Module<S>, calls: seq<Invocation>): (r: (Module<S>, seq<Result<Json.Value>>))
    ensures |r.1| == |calls|
    decreases |calls|
  {
    if calls == [] then (m, [])
    else
      var c := calls[0];
      var (m1, first) := HandleCmd(svc, m, c.implementationId, c.cmdName, c.parameters);
      var (m2, others) := Replay(svc, m1, calls[1..]);
      (m2, [first] + others)
  }

  /** One step of a session: the first call, then the rest from the state it leaves. */
  lemma ReplayStep<S>(svc: KvsInterface.KvsService<S>, m: Module<S>, calls: seq<Invocation>, m1: Module<S>,
                      first: Result<Json.Value>, rest: (Module<S>, seq<Result<Json.Value>>))
    requires calls != []
    requires HandleCmd(svc, m, calls[0].implementationId, calls[0].cmdName, calls[0].parameters) == (m1, first)
    requires Replay(svc, m1, calls[1..]) == rest
    ensures Replay(svc, m, calls) == (rest.0, [first] + rest.1)
  {
  }

  /** A session that never names `main` leaves the module as it was and
      answers every call with the unknown-implementation error. */
  lemma {:induction false} UnroutedSessionChangesNothing<S>(svc: KvsInterface.KvsService<S>, m: Module<S>, calls: seq<Invocation>)
    requires forall i :: 0 <= i < |calls| ==> calls[i].implementationId != "main"
    ensures Replay(svc, m, calls).0 == m
    ensures forall i :: 0 <= i < |calls| ==> Replay(svc, m, calls).1[i] == Err(InvalidArgument(UnknownImplementation))
    decreases |calls|
  {
    if calls != [] {
      var c := calls[0];
      assert HandleCmd(svc, m, c.implementationId, c.cmdName, c.parameters) == (m, Err(InvalidArgument(UnknownImplementation)));
      forall i | 0 <= i < |calls[1..]|
        ensures calls[1..][i].implementationId != "main"
      {
        assert calls[1..][i] == calls[i + 1];
      }
      UnroutedSessionChangesNothing(svc, m, calls[1..]);
    }
  }
}
