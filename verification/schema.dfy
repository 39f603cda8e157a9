/**
  Interface descriptors and the table-driven reading of them: a command is
  found by name, then each declared parameter is removed from the argument
  bag in declared order and decoded. This is the independent reference that
  the hand-expanded generated dispatchers are proved to agree with.
 */
module Schema {
  import Json
  import opened Everestrs

  /** The parameter types the interfaces in this model declare: a string,
      decoded with `from_value::<String>`, or any JSON value. */
  datatype ParamType = StringParam | ValueParam

  predicate Accepts(t: ParamType, v: Json.Value) {
    match t
    case StringParam => Json.AsString(v).Parsed?
    case ValueParam => Json.AsValue(v).Parsed?
  }

  datatype ParamDecl = ParamDecl(name: string, ty: ParamType)

  datatype CommandDecl = CommandDecl(name: string, params: seq<ParamDecl>)

  /** The commands of one interface, in declaration order. */
  type Interface = seq<CommandDecl>

  /** Parameter `d` is present in `params` with a value of the declared type. */
  predicate Decodes(d: ParamDecl, params: map<string, Json.Value>) {
    d.name in params && Accepts(d.ty, params[d.name])
  }

  predicate DistinctNames(decls: seq<ParamDecl>) {
    forall i, j :: 0 <= i < j < |decls| ==> decls[i].name != decls[j].name
  }

  /** `params1` and `params2` hold the same entry (or none) for `key`. */
  predicate AgreeOn(params1: map<string, Json.Value>, params2: map<string, Json.Value>, key: string) {
    && (key in params1 <==> key in params2)
    && (key in params1 ==> params1[key] == params2[key])
  }

  /** Every entry of `small` is also an entry of `large`. */
  predicate Submap(small: map<string, Json.Value>, large: map<string, Json.Value>) {
    forall key :: key in small ==> key in large && small[key] == large[key]
  }

  /** Remove each declared parameter from `params` in order; an absent one is
      `MissingArgument`, a mistyped one `InvalidArgument`, both naming it. */
  function DecodeArgs(decls: seq<ParamDecl>, params: map<string, Json.Value>): (r: Result<seq<Json.Value>>)
    ensures r.Ok? ==> |r.value| == |decls|
    ensures r.Ok? ==> forall i :: 0 <= i < |decls| ==> Decodes(decls[i], params) && r.value[i] == params[decls[i].name]
    ensures r.Err? ==> exists i :: 0 <= i < |decls| && r.error in {MissingArgument(decls[i].name), InvalidArgument(decls[i].name)}
    decreases |decls|
  {
    if decls == [] then Ok([])
    else
      var d := decls[0];
      if d.name !in params then Err(MissingArgument(d.name))
      else if !Accepts(d.ty, params[d.name]) then Err(InvalidArgument(d.name))
      else
        var rest :- DecodeArgs(decls[1..], params - {d.name});
        Ok([params[d.name]] + rest)
  }

  /** With distinct names, decoding succeeds exactly when every declared
      parameter is present and well typed. */
  lemma {:induction false} DecodeArgsSucceeds(decls: seq<ParamDecl>, params: map<string, Json.Value>)
    requires DistinctNames(decls)
    ensures DecodeArgs(decls, params).Ok? <==> forall i :: 0 <= i < |decls| ==> Decodes(decls[i], params)
    decreases |decls|
  {
    if decls != [] && forall i :: 0 <= i < |decls| ==> Decodes(decls[i], params) {
      var d := decls[0];
      var rest := params - {d.name};
      forall i | 0 <= i < |decls[1..]|
        ensures Decodes(decls[1..][i], rest)
      {
        assert decls[1..][i] == decls[i + 1];
        assert Decodes(decls[i + 1], params);
      }
      DecodeArgsSucceeds(decls[1..], rest);
    }
  }

  /** The error reported is the one for the first parameter, in declared
      order, that does not decode. */
  lemma {:induction false} DecodeArgsFirstFailure(decls: seq<ParamDecl>, params: map<string, Json.Value>, i: nat)
    requires DistinctNames(decls)
    requires i < |decls|
    requires forall j :: 0 <= j < i ==> Decodes(decls[j], params)
    requires !Decodes(decls[i], params)
    ensures DecodeArgs(decls, params)
         == Err(if decls[i].name in params then InvalidArgument(decls[i].name) else MissingArgument(decls[i].name))
    decreases i
  {
    if i > 0 {
      var d := decls[0];
      assert Decodes(d, params);
      var rest := params - {d.name};
      forall j | 0 <= j < i - 1
        ensures Decodes(decls[1..][j], rest)
      {
        assert decls[1..][j] == decls[j + 1];
        assert Decodes(decls[j + 1], params);
      }
      assert decls[1..][i - 1] == decls[i];
      assert decls[i].name != d.name;
      assert (decls[i].name in rest) == (decls[i].name in params);
      DecodeArgsFirstFailure(decls[1..], rest, i - 1);
    }
  }

  /** Keys that no parameter declares never change the outcome. */
  lemma {:induction false} DecodeArgsIgnoresUndeclared(decls: seq<ParamDecl>, params1: map<string, Json.Value>, params2: map<string, Json.Value>)
    requires forall i :: 0 <= i < |decls| ==> AgreeOn(params1, params2, decls[i].name)
    ensures DecodeArgs(decls, params1) == DecodeArgs(decls, params2)
    decreases |decls|
  {
    if decls != [] {
      var d := decls[0];
      assert AgreeOn(params1, params2, d.name);
      var rest1, rest2 := params1 - {d.name}, params2 - {d.name};
      forall i | 0 <= i < |decls[1..]|
        ensures AgreeOn(rest1, rest2, decls[1..][i].name)
      {
        assert decls[1..][i] == decls[i + 1];
        assert AgreeOn(params1, params2, decls[i + 1].name);
      }
      DecodeArgsIgnoresUndeclared(decls[1..], rest1, rest2);
    }
  }

  /** The first command declared under `name`, or the unknown-command error. */
  function Resolve(iface: Interface, name: string): (r: Result<CommandDecl>)
    ensures r.Ok? ==> r.value in iface && r.value.name == name
    ensures r.Err? <==> forall c :: c in iface ==> c.name != name
    ensures r.Err? ==> r.error == InvalidArgument(UnknownCommand)
    decreases |iface|
  {
    if iface == [] then Err(InvalidArgument(UnknownCommand))
    else if iface[0].name == name then Ok(iface[0])
    else Resolve(iface[1..], name)
  }

  /** The table-driven command decoder: resolve, then decode the arguments. */
  function DecodeCall(iface: Interface, name: string, params: map<string, Json.Value>): Result<seq<Json.Value>> {
    var c :- Resolve(iface, name);
    DecodeArgs(c.params, params)
  }
}
