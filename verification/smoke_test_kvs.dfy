/**
  RsSmokeTest's in-memory key-value store (`Kvs` in its `main.rs`) and the
  behaviour it shows once plugged into the `main` slot.
 */
module SmokeTestKvs {
  import Json
  import opened Everestrs
  import Schema
  import KvsInterface
  import RsSmokeTest

  /** The store: a string-keyed map of JSON values (a `BTreeMap`, whose order
      none of the four operations observes). */
  datatype Kvs = Kvs(values: map<string, Json.Value>)

  function Store(kvs: Kvs, key: string, value: Json.Value): (r: (Kvs, Result<()>))
    ensures r.1 == Ok(())
    ensures r.0.values.Keys == kvs.values.Keys + {key}
    ensures r.0.values[key] == value
    ensures forall k :: k in kvs.values && k != key ==> r.0.values[k] == kvs.values[k]
  {
    (Kvs(kvs.values[key := value]), Ok(()))
  }

  /** A missing key loads as JSON `null`, not as an error. */
  function Load(kvs: Kvs, key: string): (r: (Kvs, Result<Json.Value>))
    ensures r.0 == kvs
    ensures r.1.Ok?
    ensures key in kvs.values ==> r.1.value == kvs.values[key]
    ensures key !in kvs.values ==> r.1.value == Json.Null
  {
    (kvs, Ok(if key in kvs.values then kvs.values[key] else Json.Null))
  }

  /** Deleting a missing key succeeds and changes nothing. */
  function Delete(kvs: Kvs, key: string): (r: (Kvs, Result<()>))
    ensures r.1 == Ok(())
    ensures r.0.values.Keys == kvs.values.Keys - {key}
    ensures forall k :: k in r.0.values ==> r.0.values[k] == kvs.values[k]
  {
    (Kvs(kvs.values - {key}), Ok(()))
  }

  function Exists(kvs: Kvs, key: string): (r: (Kvs, Result<bool>))
    ensures r.0 == kvs
    ensures r.1.Ok?
    ensures r.1.value <==> key in kvs.values
  {
    (kvs, Ok(key in kvs.values))
  }

  /** `impl KvsService for Kvs` */
  function Service(): KvsInterface.KvsService<Kvs> {
    KvsInterface.KvsService(Delete, Exists, Load, Store)
  }

  /** Each handler of `impl KvsService for Kvs` is one map operation and none
      ever fails. */
  lemma ServiceHandlers()
    ensures forall kvs: Kvs, k: string :: Service().deleteCmd(kvs, k) == (Kvs(kvs.values - {k}), Ok(()))
    ensures forall kvs: Kvs, k: string :: Service().existsCmd(kvs, k) == (kvs, Ok(k in kvs.values))
    ensures forall kvs: Kvs, k: string ::
              Service().loadCmd(kvs, k) == (kvs, Ok(if k in kvs.values then kvs.values[k] else Json.Null))
    ensures forall kvs: Kvs, k: string, v: Json.Value :: Service().storeCmd(kvs, k, v) == (Kvs(kvs.values[k := v]), Ok(()))
  {
  }

  /** The entry for `key` is the same (or equally absent) in both stores. */
  predicate SameEntry(a: Kvs, b: Kvs, key: string) {
    Schema.AgreeOn(a.values, b.values, key)
  }

  lemma LoadAfterStore(kvs: Kvs, key: string, value: Json.Value)
    ensures Load(Store(kvs, key, value).0, key).1 == Ok(value)
    ensures Exists(Store(kvs, key, value).0, key).1 == Ok(true)
  {
  }

  lemma StoreOverwrites(kvs: Kvs, key: string, first: Json.Value, second: Json.Value)
    ensures Store(Store(kvs, key, first).0, key, second).0 == Store(kvs, key, second).0
  {
  }

  lemma LoadAfterDelete(kvs: Kvs, key: string)
    ensures Exists(Delete(kvs, key).0, key).1 == Ok(false)
    ensures Load(Delete(kvs, key).0, key).1 == Ok(Json.Null)
  {
  }

  lemma DeleteMissingIsNoop(kvs: Kvs, key: string)
    requires key !in kvs.values
    ensures Delete(kvs, key).0 == kvs
  {
  }

  lemma WritesLeaveOtherKeys(kvs: Kvs, key: string, other: string, value: Json.Value)
    requires other != key
    ensures SameEntry(Store(kvs, key, value).0, kvs, other)
    ensures SameEntry(Delete(kvs, key).0, kvs, other)
  {
  }

  /** `load` cannot tell a stored `null` from a missing key; `exists` can. */
  lemma StoredNullLoadsLikeMissing(kvs: Kvs, key: string)
    ensures Load(Store(kvs, key, Json.Null).0, key).1 == Load(Delete(kvs, key).0, key).1
    ensures Exists(Store(kvs, key, Json.Null).0, key).1 != Exists(Delete(kvs, key).0, key).1
  {
  }

  /** Any well-formed request dispatched through `main` succeeds, with
      `null` for `delete` and `store`, the membership bool for `exists` and
      the stored value (or `null`) for `load`; extra keys change nothing. */
  lemma MainAnswers(m: RsSmokeTest.Module<Kvs>, req: KvsInterface.Request, params: map<string, Json.Value>)
    requires Schema.Submap(req.Parameters(), params)
    ensures var (m', r) := RsSmokeTest.HandleCmd(Service(), m, "main", req.Command(), params);
            var values := m.mainService.values;
            && r.Ok?
            && match req
               case Delete(k) => r.value == Json.Null && m'.mainService == Kvs(values - {k})
               case Store(k, v) => r.value == Json.Null && m'.mainService == Kvs(values[k := v])
               case Exists(k) => r.value == Json.Bool(k in values) && m' == m
               case Load(k) => r.value == (if k in values then values[k] else Json.Null) && m' == m
  {
  }

  /** The call may write the entry for `key`: a `store` or `delete` on `main`
      whose `key` argument is exactly `key`. */
  predicate MayWrite(c: RsSmokeTest.Invocation, key: string) {
    && c.implementationId == "main"
    && (c.cmdName == "store" || c.cmdName == "delete")
    && "key" in c.parameters
    && c.parameters["key"] == Json.String(key)
  }

  lemma CallLeavesUntouchedKey(m: RsSmokeTest.Module<Kvs>, c: RsSmokeTest.Invocation, key: string)
    requires !MayWrite(c, key)
    ensures SameEntry(RsSmokeTest.HandleCmd(Service(), m, c.implementationId, c.cmdName, c.parameters).0.mainService,
                      m.mainService, key)
  {
  }

  /** Over a whole session, an entry that no call may write keeps its value. */
  lemma {:induction false} SessionLeavesUntouchedKey(m: RsSmokeTest.Module<Kvs>, calls: seq<RsSmokeTest.Invocation>, key: string)
    requires forall i :: 0 <= i < |calls| ==> !MayWrite(calls[i], key)
    ensures SameEntry(RsSmokeTest.Replay(Service(), m, calls).0.mainService, m.mainService, key)
    decreases |calls|
  {
    if calls != [] {
      var c := calls[0];
      CallLeavesUntouchedKey(m, c, key);
      var m1 := RsSmokeTest.HandleCmd(Service(), m, c.implementationId, c.cmdName, c.parameters).0;
      forall i | 0 <= i < |calls[1..]|
        ensures !MayWrite(calls[1..][i], key)
      {
        assert calls[1..][i] == calls[i + 1];
      }
      SessionLeavesUntouchedKey(m1, calls[1..], key);
    }
  }

  function Call(cmdName: string, params: map<string, Json.Value>): RsSmokeTest.Invocation {
    RsSmokeTest.Invocation("main", cmdName, params)
  }

  /** The smoke-test session, starting from an empty store. */
  const Scenario: seq<RsSmokeTest.Invocation> := [
    Call("store", map["key" := Json.String("a"), "value" := Json.Number(42)]),
    Call("exists", map["key" := Json.String("a")]),
    Call("load", map["key" := Json.String("a")]),
    Call("delete", map["key" := Json.String("a")]),
    Call("exists", map["key" := Json.String("a")]),
    Call("load", map["key" := Json.String("missing")])
  ]

  lemma ScenarioResults()
    ensures RsSmokeTest.Replay(Service(), RsSmokeTest.Module(Kvs(map[])), Scenario)
         == (RsSmokeTest.Module(Kvs(map[])),
             [Ok(Json.Null), Ok(Json.Bool(true)), Ok(Json.Number(42)), Ok(Json.Null), Ok(Json.Bool(false)), Ok(Json.Null)])
  {
    var m0 := RsSmokeTest.Module(Kvs(map[]));
    var m1 := RsSmokeTest.Module(Kvs(map["a" := Json.Number(42)]));
    MainAnswers(m0, KvsInterface.Store("a", Json.Number(42)), Scenario[0].parameters);
    MainAnswers(m1, KvsInterface.Exists("a"), Scenario[1].parameters);
    MainAnswers(m1, KvsInterface.Load("a"), Scenario[2].parameters);
    MainAnswers(m1, KvsInterface.Delete("a"), Scenario[3].parameters);
    assert m1.mainService.values - {"a"} == map[];
    MainAnswers(m0, KvsInterface.Exists("a"), Scenario[4].parameters);
    MainAnswers(m0, KvsInterface.Load("missing"), Scenario[5].parameters);
    var svc := Service();
    var unit, yes, no, answer := Ok(Json.Null), Ok(Json.Bool(true)), Ok(Json.Bool(false)), Ok(Json.Number(42));
    assert Scenario[5..][1..] == [];
    RsSmokeTest.ReplayStep(svc, m0, Scenario[5..], m0, unit, (m0, []));
    assert [unit] + [] == [unit];
    assert Scenario[4..][1..] == Scenario[5..];
    RsSmokeTest.ReplayStep(svc, m0, Scenario[4..], m0, no, (m0, [unit]));
    assert [no] + [unit] == [no, unit];
    assert Scenario[3..][1..] == Scenario[4..];
    RsSmokeTest.ReplayStep(svc, m1, Scenario[3..], m0, unit, (m0, [no, unit]));
    assert [unit] + [no, unit] == [unit, no, unit];
    assert Scenario[2..][1..] == Scenario[3..];
    RsSmokeTest.ReplayStep(svc, m1, Scenario[2..], m1, answer, (m0, [unit, no, unit]));
    assert [answer] + [unit, no, unit] == [answer, unit, no, unit];
    assert Scenario[1..][1..] == Scenario[2..];
    RsSmokeTest.ReplayStep(svc, m1, Scenario[1..], m1, yes, (m0, [answer, unit, no, unit]));
    assert [yes] + [answer, unit, no, unit] == [yes, answer, unit, no, unit];
    RsSmokeTest.ReplayStep(svc, m0, Scenario, m1, unit, (m0, [yes, answer, unit, no, unit]));
    assert [unit] + [yes, answer, unit, no, unit] == [unit, yes, answer, unit, no, unit];
  }
}
