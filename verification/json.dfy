/**
  `serde_json::Value` and the only conversions the generated code uses:
  `from_value` into `String`, `bool`, `()`, `f64` and `Value` itself, and
  `.into()` from `()`, `bool` and `Value`, and `to_value` of a `String`, as
  `json!` builds it.
 */
module Json {

  /** A JSON value. Numbers carry an integer payload: the core only asks
      whether a value is a number, never computes with one. */
  datatype Value =
    | Null
    | Bool(b: bool)
    | Number(n: int)
    | String(s: string)
    | Array(items: seq<Value>)
    | Object(fields: map<string, Value>)

  /** The outcome of `serde_json::from_value::<T>`; the generated code throws
      serde's error away, so a mismatch carries nothing. */
  datatype FromValue<+T> = Parsed(value: T) | TypeMismatch

  function AsString(v: Value): (r: FromValue<string>)
    ensures r.Parsed? <==> v.String?
    ensures r.Parsed? ==> v == String(r.value)
  {
    match v
    case String(s) => Parsed(s)
    case _ => TypeMismatch
  }

  function AsBool(v: Value): (r: FromValue<bool>)
    ensures r.Parsed? <==> v.Bool?
    ensures r.Parsed? ==> v == Bool(r.value)
  {
    match v
    case Bool(b) => Parsed(b)
    case _ => TypeMismatch
  }

  /** `()` deserializes from `null` and from nothing else. */
  function AsUnit(v: Value): (r: FromValue<()>)
    ensures r.Parsed? <==> v == Null
  {
    match v
    case Null => Parsed(())
    case _ => TypeMismatch
  }

  /** `f64` deserializes from any JSON number. */
  function AsNumber(v: Value): (r: FromValue<int>)
    ensures r.Parsed? <==> v.Number?
    ensures r.Parsed? ==> v == Number(r.value)
  {
    match v
    case Number(n) => Parsed(n)
    case _ => TypeMismatch
  }

  /** `serde_json::Value` deserializes from any value, unchanged. */
  function AsValue(v: Value): (r: FromValue<Value>)
    ensures r == Parsed(v)
  {
    Parsed(v)
  }

  /** `().into()` */
  function FromUnit(): (v: Value)
    ensures AsUnit(v) == Parsed(())
  {
    Null
  }

  /** `bool::into()` */
  function FromBool(b: bool): (v: Value)
    ensures AsBool(v) == Parsed(b)
  {
    Bool(b)
  }

  /** `to_value` of a `String`, as `json!` builds it. */
  function FromString(s: string): (v: Value)
    ensures AsString(v) == Parsed(s)
  {
    String(s)
  }

  /** Each decoder is exact: whatever it accepts is the encoding of what it returns. */
  lemma DecodersAreExact(v: Value)
    ensures AsString(v).Parsed? ==> FromString(AsString(v).value) == v
    ensures AsBool(v).Parsed? ==> FromBool(AsBool(v).value) == v
    ensures AsUnit(v).Parsed? ==> FromUnit() == v
  {
  }
}
