/**
  The marshalling steps the generator emits in every match arm and every
  outbound call: take one named argument out of the bag and decode it, turn a
  handler's typed result into JSON, and decode a reply into a typed result.
 */
module Codec {
  import Json
  import opened Everestrs

  /** `parameters.remove(name).ok_or(MissingArgument(name))?` followed by
      `from_value::<String>(..).map_err(|_| InvalidArgument(name))?`. */
  function TakeString(params: map<string, Json.Value>, name: string): (r: Result<string>)
    ensures name !in params ==> r == Err(MissingArgument(name))
    ensures name in params && !params[name].String? ==> r == Err(InvalidArgument(name))
    ensures r.Ok? <==> name in params && params[name].String?
    ensures r.Ok? ==> params[name] == Json.String(r.value)
  {
    if name !in params then Err(MissingArgument(name))
    else
      match Json.AsString(params[name])
      case Parsed(s) => Ok(s)
      case TypeMismatch => Err(InvalidArgument(name))
  }

  /** The same step for a parameter of type `serde_json::Value`: only a
      missing entry can fail. */
  function TakeValue(params: map<string, Json.Value>, name: string): (r: Result<Json.Value>)
    ensures name !in params ==> r == Err(MissingArgument(name))
    ensures name in params ==> r == Ok(params[name])
  {
    if name !in params then Err(MissingArgument(name))
    else
      match Json.AsValue(params[name])
      case Parsed(v) => Ok(v)
      case TypeMismatch => Err(InvalidArgument(name))
  }

  /** `Ok(retval.into())` for a `()` handler, or the handler's error unchanged. */
  function EncodeUnit(res: Result<()>): (r: Result<Json.Value>)
    ensures r.Ok? <==> res.Ok?
    ensures r.Ok? ==> Json.AsUnit(r.value) == Json.Parsed(())
    ensures r.Err? ==> r.error == res.error
  {
    match res
    case Ok(_) => Ok(Json.FromUnit())
    case Err(e) => Err(e)
  }

  /** `Ok(retval.into())` for a `bool` handler, or the handler's error unchanged. */
  function EncodeBool(res: Result<bool>): (r: Result<Json.Value>)
    ensures r.Ok? <==> res.Ok?
    ensures r.Ok? ==> Json.AsBool(r.value) == Json.Parsed(res.value)
    ensures r.Err? ==> r.error == res.error
  {
    match res
    case Ok(b) => Ok(Json.FromBool(b))
    case Err(e) => Err(e)
  }

  /** `from_value::<()>(blob).map_err(|_| InvalidArgument("return_value"))` */
  function ReturnUnit(blob: Json.Value): (r: Result<()>)
    ensures r.Ok? <==> blob == Json.Null
    ensures r.Err? ==> r.error == InvalidArgument(ReturnValue)
  {
    match Json.AsUnit(blob)
    case Parsed(u) => Ok(u)
    case TypeMismatch => Err(InvalidArgument(ReturnValue))
  }

  /** `from_value::<bool>(blob).map_err(|_| InvalidArgument("return_value"))` */
  function ReturnBool(blob: Json.Value): (r: Result<bool>)
    ensures r.Ok? <==> blob.Bool?
    ensures r.Ok? ==> blob == Json.Bool(r.value)
    ensures r.Err? ==> r.error == InvalidArgument(ReturnValue)
  {
    match Json.AsBool(blob)
    case Parsed(b) => Ok(b)
    case TypeMismatch => Err(InvalidArgument(ReturnValue))
  }

  /** A successful answer, encoded by a provider, decodes to the same value
      at the caller: reply decoding inverts result encoding. */
  lemma ReplyRoundTrip(res: Result<()>, flag: Result<bool>)
    ensures res.Ok? ==> ReturnUnit(EncodeUnit(res).value) == res
    ensures flag.Ok? ==> ReturnBool(EncodeBool(flag).value) == flag
  {
    if res.Ok? {
      var u: () := res.value;
      assert u == ();
    }
  }
}
