/**
  The provided side of the key-value-store interface (`delete`, `exists`,
  `load`, `store`). The generator expands the same command dispatch for every
  module that provides it: RsExample's `my_store::handle_command` and
  RsSmokeTest's `main::handle_cmd` are identical apart from `&self` versus
  `&mut self`, so both are modelled by `HandleCommand` here.
 */
module KvsInterface {
  import Json
  import Schema
  import Codec
  import opened Everestrs

  /** A fully decoded command invocation. */
  datatype Request =
    | Delete(key: string)
    | Exists(key: string)
    | Load(key: string)
    | Store(key: string, value: Json.Value)
  {
    function Command(): string {
      match this
      case Delete(_) => "delete"
      case Exists(_) => "exists"
      case Load(_) => "load"
      case Store(_, _) => "store"
    }

    /** The argument bag a caller sends for this request (as `json!` builds it). */
    function Parameters(): map<string, Json.Value> {
      match this
      case Store(k, v) => map["key" := Json.FromString(k), "value" := v]
      case _ => map["key" := Json.FromString(key)]
    }

    /** The decoded arguments, in declared parameter order. */
    function Arguments(): seq<Json.Value> {
      match this
      case Store(k, v) => [Json.String(k), v]
      case _ => [Json.String(key)]
    }
  }

  const Commands: set<string> := {"delete", "exists", "load", "store"}

  const KeyParam: Schema.ParamDecl := Schema.ParamDecl("key", Schema.StringParam)

  /** The interface as its descriptor declares it. */
  const Descriptor: Schema.Interface := [
    Schema.CommandDecl("delete", [KeyParam]),
    Schema.CommandDecl("exists", [KeyParam]),
    Schema.CommandDecl("load", [KeyParam]),
    Schema.CommandDecl("store", [KeyParam, Schema.ParamDecl("value", Schema.ValueParam)])
  ]

  /** The `KvsService` trait as a dictionary over the implementor's state `S`:
      each method may change the state and returns its own `Result`. */
  datatype KvsService<!S> = KvsService(
    deleteCmd: (S, string) -> (S, Result<()>),
    existsCmd: (S, string) -> (S, Result<bool>),
    loadCmd: (S, string) -> (S, Result<Json.Value>),
    storeCmd: (S, string, Json.Value) -> (S, Result<()>))

  /** The decoding half of every match arm: which command, and its arguments. */
  function DecodeCommand(cmdName: string, params: map<string, Json.Value>): (r: Result<Request>)
    ensures cmdName !in Commands ==> r == Err(InvalidArgument(UnknownCommand))
    ensures cmdName in Commands && "key" !in params ==> r == Err(MissingArgument("key"))
    ensures cmdName in Commands && "key" in params && !params["key"].String? ==> r == Err(InvalidArgument("key"))
    ensures cmdName == "store" && "key" in params && params["key"].String? && "value" !in params
            ==> r == Err(MissingArgument("value"))
    ensures r.Ok? <==> cmdName in Commands && "key" in params && params["key"].String?
                       && (cmdName == "store" ==> "value" in params)
    ensures r.Ok? ==> r.value.Command() == cmdName && Schema.Submap(r.value.Parameters(), params)
  {
    if cmdName == "delete" then
      var key :- Codec.TakeString(params, "key");
      Ok(Delete(key))
    else if cmdName == "exists" then
      var key :- Codec.TakeString(params, "key");
      Ok(Exists(key))
    else if cmdName == "load" then
      var key :- Codec.TakeString(params, "key");
      Ok(Load(key))
    else if cmdName == "store" then
      var key :- Codec.TakeString(params, "key");
      var value :- Codec.TakeValue(params - {"key"}, "value");
      Ok(Store(key, value))
    else
      Err(InvalidArgument(UnknownCommand))
  }

  /** The calling half of every match arm: one call of the typed handler,
      then `.into()` of its value; `load`'s value is already JSON. */
  function Invoke<S>(svc: KvsService<S>, st: S, req: Request): (r: (S, Result<Json.Value>))
    ensures req.Delete? ==> var (st', res) := svc.deleteCmd(st, req.key);
            && r.0 == st'
            && (r.1.Ok? <==> res.Ok?)
            && (r.1.Ok? ==> r.1.value == Json.Null)
            && (r.1.Err? ==> r.1.error == res.error)
    ensures req.Exists? ==> var (st', res) := svc.existsCmd(st, req.key);
            && r.0 == st'
            && (r.1.Ok? <==> res.Ok?)
            && (r.1.Ok? ==> Json.AsBool(r.1.value) == Json.Parsed(res.value))
            && (r.1.Err? ==> r.1.error == res.error)
    ensures req.Load? ==> r == svc.loadCmd(st, req.key)
    ensures req.Store? ==> var (st', res) := svc.storeCmd(st, req.key, req.value);
            && r.0 == st'
            && (r.1.Ok? <==> res.Ok?)
            && (r.1.Ok? ==> r.1.value == Json.Null)
            && (r.1.Err? ==> r.1.error == res.error)
  {
    match req
    case Delete(k) =>
      var (st', res) := svc.deleteCmd(st, k);
      (st', Codec.EncodeUnit(res))
    case Exists(k) =>
      var (st', res) := svc.existsCmd(st, k);
      (st', Codec.EncodeBool(res))
    case Load(k) =>
      svc.loadCmd(st, k)
    case Store(k, v) =>
      var (st', res) := svc.storeCmd(st, k, v);
      (st', Codec.EncodeUnit(res))
  }

  /** `handle_command` for a KVS slot. A decoding failure returns before any
      handler runs, so the implementor's state is untouched. */
  function HandleCommand<S>(svc: KvsService<S>, st: S, cmdName: string, params: map<string, Json.Value>): (r: (S, Result<Json.Value>))
    ensures DecodeCommand(cmdName, params).Err? ==> r == (st, Err(DecodeCommand(cmdName, params).error))
    ensures DecodeCommand(cmdName, params).Ok? ==> r == Invoke(svc, st, DecodeCommand(cmdName, params).value)
  {
    match DecodeCommand(cmdName, params)
    case Err(e) => (st, Err(e))
    case Ok(req) => Invoke(svc, st, req)
  }

  /** Decoding inverts what a caller sends: it yields `req` exactly when the
      command is `req`'s and the bag holds `req`'s parameters, extra keys or not. */
  lemma DecodeCommandRoundTrip(req: Request, cmdName: string, params: map<string, Json.Value>)
    ensures DecodeCommand(cmdName, params) == Ok(req)
        <==> cmdName == req.Command() && Schema.Submap(req.Parameters(), params)
  {
  }

  /** The generated match arms agree with the table-driven reading of the
      interface descriptor: same errors, and on success the same arguments. */
  lemma DecodeCommandMatchesDescriptor(cmdName: string, params: map<string, Json.Value>)
    ensures DecodeCommand(cmdName, params).Err? <==> Schema.DecodeCall(Descriptor, cmdName, params).Err?
    ensures DecodeCommand(cmdName, params).Err?
            ==> DecodeCommand(cmdName, params).error == Schema.DecodeCall(Descriptor, cmdName, params).error
    ensures DecodeCommand(cmdName, params).Ok?
            ==> DecodeCommand(cmdName, params).value.Arguments() == Schema.DecodeCall(Descriptor, cmdName, params).value
  {
    if cmdName == "delete" {
      assert Schema.Resolve(Descriptor, cmdName) == Ok(Descriptor[0]);
      KeyArgs(params);
    } else if cmdName == "exists" {
      assert Schema.Resolve(Descriptor, cmdName) == Ok(Descriptor[1]);
      KeyArgs(params);
    } else if cmdName == "load" {
      assert Schema.Resolve(Descriptor, cmdName) == Ok(Descriptor[2]);
      KeyArgs(params);
    } else if cmdName == "store" {
      assert Schema.Resolve(Descriptor, cmdName) == Ok(Descriptor[3]);
      KeyValueArgs(params);
    } else {
      assert Schema.Resolve(Descriptor, cmdName).Err?;
    }
  }

  lemma KeyArgs(params: map<string, Json.Value>)
    ensures Schema.DecodeArgs([KeyParam], params)
         == match Codec.TakeString(params, "key")
            case Ok(k) => Ok([Json.String(k)])
            case Err(e) => Err(e)
  {
    var decls := [KeyParam];
    assert decls[1..] == [];
    if "key" in params && params["key"].String? {
      assert Schema.DecodeArgs(decls[1..], params - {"key"}) == Ok([]);
      assert [params["key"]] + [] == [Json.String(params["key"].s)];
    }
  }

  lemma KeyValueArgs(params: map<string, Json.Value>)
    ensures Schema.DecodeArgs(Descriptor[3].params, params)
         == match Codec.TakeString(params, "key")
            case Err(e) => Err(e)
            case Ok(k) => if "value" in params then Ok([Json.String(k), params["value"]]) else Err(MissingArgument("value"))
  {
    var decls := Descriptor[3].params;
    assert decls[1..][1..] == [];
    if "key" in params && params["key"].String? {
      var rest := params - {"key"};
      assert ("value" in rest) == ("value" in params);
      if "value" in params {
        var tail := decls[1..];
        assert tail[0] == Schema.ParamDecl("value", Schema.ValueParam);
        assert rest["value"] == params["value"];
        assert Schema.DecodeArgs(tail[1..], rest - {"value"}) == Ok([]);
        assert [rest["value"]] + [] == [params["value"]];
        assert Schema.DecodeArgs(tail, rest) == Ok([params["value"]]);
        assert [params["key"]] + [params["value"]] == [Json.String(params["key"].s), params["value"]];
      }
    }
  }

  /** A wrapper that forwards every call to `svc` and logs the decoded request. */
  function Traced<S>(svc: KvsService<S>): KvsService<(S, seq<Request>)> {
    KvsService(
      (t: (S, seq<Request>), k: string) =>
        var (s, res) := svc.deleteCmd(t.0, k); ((s, t.1 + [Delete(k)]), res),
      (t: (S, seq<Request>), k: string) =>
        var (s, res) := svc.existsCmd(t.0, k); ((s, t.1 + [Exists(k)]), res),
      (t: (S, seq<Request>), k: string) =>
        var (s, res) := svc.loadCmd(t.0, k); ((s, t.1 + [Load(k)]), res),
      (t: (S, seq<Request>), k: string, v: Json.Value) =>
        var (s, res) := svc.storeCmd(t.0, k, v); ((s, t.1 + [Store(k, v)]), res))
  }

  /** The handler runs exactly once, with the decoded arguments, when decoding
      succeeds, and not at all otherwise; tracing changes nothing else. */
  lemma HandlerInvokedOnce<S>(svc: KvsService<S>, st: S, log: seq<Request>, cmdName: string, params: map<string, Json.Value>)
    ensures var (traced, r') := HandleCommand(Traced(svc), (st, log), cmdName, params);
            var (st', r) := HandleCommand(svc, st, cmdName, params);
            && traced.0 == st'
            && r' == r
            && traced.1 == log + match DecodeCommand(cmdName, params)
                                 case Ok(req) => [req]
                                 case Err(_) => []
  {
  }

  /** How each handler's return value reaches the caller: `delete` and `store`
      answer `null`, `exists` a JSON bool, `load` its value as is; a handler
      error is passed through unchanged. */
  lemma ReplyEncoding<S>(svc: KvsService<S>, st: S, cmdName: string, params: map<string, Json.Value>)
    requires DecodeCommand(cmdName, params).Ok?
    ensures var req := DecodeCommand(cmdName, params).value;
            var r := HandleCommand(svc, st, cmdName, params).1;
            match req
            case Delete(k) => r == (if svc.deleteCmd(st, k).1.Ok? then Ok(Json.Null) else svc.deleteCmd(st, k).1.PropagateFailure())
            case Exists(k) => r == (if svc.existsCmd(st, k).1.Ok? then Ok(Json.Bool(svc.existsCmd(st, k).1.value)) else svc.existsCmd(st, k).1.PropagateFailure())
            case Load(k) => r == svc.loadCmd(st, k).1
            case Store(k, v) => r == (if svc.storeCmd(st, k, v).1.Ok? then Ok(Json.Null) else svc.storeCmd(st, k, v).1.PropagateFailure())
  {
  }

  /** Only the `key` and `value` entries of the bag matter. */
  lemma ExtraKeysIgnored<S>(svc: KvsService<S>, st: S, cmdName: string, params1: map<string, Json.Value>, params2: map<string, Json.Value>)
    requires Schema.AgreeOn(params1, params2, "key") && Schema.AgreeOn(params1, params2, "value")
    ensures HandleCommand(svc, st, cmdName, params1) == HandleCommand(svc, st, cmdName, params2)
  {
  }
}
