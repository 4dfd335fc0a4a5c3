/** Turning a client function's signature into command line options, and the options back into its call. */
module CliCommands {
  import opened Wrappers

  /** An option's value: an enum member stands for its value in the call. */
  datatype Value = Plain(text: string) | Member(text: string)

  function Unwrap(v: Value): Value {
    Plain(v.text)
  }

  /** A parameter or a model field, with its default unless it is required. */
  datatype Parameter = Parameter(name: string, default: Option<Value>)

  /** The type hint of a `data` parameter: there is none, it is None, or it is a model with its fields. */
  datatype DataHint = NoData | NoneData | ModelData(fields: seq<Parameter>)

  datatype Signature = Signature(parameters: seq<Parameter>, data: DataHint)

  function Names(ps: seq<Parameter>): set<string> {
    set p | p in ps :: p.name
  }

  predicate Distinct(ps: seq<Parameter>) {
    forall i, j | 0 <= i < j < |ps| :: ps[i].name != ps[j].name
  }

  /** What Python guarantees of a function and of a model. */
  predicate WellFormed(sig: Signature) {
    && Distinct(sig.parameters)
    && ("data" in Names(sig.parameters) <==> sig.data != NoData)
    && (sig.data.ModelData? ==> Distinct(sig.data.fields))
  }

  function Fields(sig: Signature): seq<Parameter> {
    if sig.data.ModelData? then sig.data.fields else []
  }

  const CTX := Parameter("ctx", None)

  /** The parameters with `data` replaced by its fields, in place. */
  function Spliced(ps: seq<Parameter>, fields: seq<Parameter>): seq<Parameter> {
    if ps == [] then []
    else (if ps[0].name == "data" then fields else [ps[0]]) + Spliced(ps[1..], fields)
  }

  lemma {:induction false} SplicedSnoc(ps: seq<Parameter>, p: Parameter, fields: seq<Parameter>)
    ensures Spliced(ps + [p], fields) == Spliced(ps, fields) + (if p.name == "data" then fields else [p])
  {
    if ps == [] {
      assert ps + [p] == [p];
      assert [p][1..] == [];
    } else {
      assert (ps + [p])[1..] == ps[1..] + [p];
      SplicedSnoc(ps[1..], p, fields);
    }
  }

  method BuildTyperParams(sig: Signature) returns (newParams: seq<Parameter>)
    ensures newParams == [CTX] + Spliced(sig.parameters, Fields(sig))
  {
    newParams := [CTX];
    for i := 0 to |sig.parameters|
      invariant newParams == [CTX] + Spliced(sig.parameters[..i], Fields(sig))
    {
      var param := sig.parameters[i];
      ghost var before := newParams;
      assert sig.parameters[..i + 1] == sig.parameters[..i] + [param];
      SplicedSnoc(sig.parameters[..i], param, Fields(sig));
      if param.name == "data" {
        if sig.data.ModelData? {
          for k := 0 to |sig.data.fields|
            invariant newParams == before + sig.data.fields[..k]
          {
            newParams := newParams + [sig.data.fields[k]];
          }
          assert sig.data.fields[..|sig.data.fields|] == sig.data.fields;
        }
        continue;
      }
      newParams := newParams + [param];
    }
    assert sig.parameters[..|sig.parameters|] == sig.parameters;
  }

  lemma {:induction false} SplicedConcat(a: seq<Parameter>, b: seq<Parameter>, fields: seq<Parameter>)
    ensures Spliced(a + b, fields) == Spliced(a, fields) + Spliced(b, fields)
  {
    if a == [] {
      assert a + b == b;
    } else {
      assert (a + b)[1..] == a[1..] + b;
      SplicedConcat(a[1..], b, fields);
    }
  }

  lemma {:induction false} SplicedWithoutData(ps: seq<Parameter>, fields: seq<Parameter>)
    requires "data" !in Names(ps)
    ensures Spliced(ps, fields) == ps
  {
    if ps != [] {
      assert ps[0] in ps;
      SplicedWithoutData(ps[1..], fields);
    }
  }

  /** The options, in order and with their defaults: the parameters as they are, with the model's fields, or nothing,
      where `data` stands. */
  lemma OptionsInOrder(sig: Signature, before: seq<Parameter>, data: Parameter, after: seq<Parameter>)
    requires sig.parameters == before + [data] + after && data.name == "data"
    requires WellFormed(sig)
    ensures Spliced(sig.parameters, Fields(sig))
         == before + (if sig.data.ModelData? then sig.data.fields else []) + after
  {
    var ps := sig.parameters;
    assert ps[|before|] == data;
    assert forall i | 0 <= i < |before| :: ps[i] == before[i];
    assert forall i | 0 <= i < |after| :: ps[|before| + 1 + i] == after[i];
    SplicedConcat(before + [data], after, Fields(sig));
    SplicedSnoc(before, data, Fields(sig));
    SplicedWithoutData(before, Fields(sig));
    SplicedWithoutData(after, Fields(sig));
  }

  /** The new signature is accepted only if no name occurs twice. */
  predicate Registers(sig: Signature) {
    Distinct([CTX] + Spliced(sig.parameters, Fields(sig)))
  }

  /** What the client function is called with. */
  datatype Argument = Given(value: Value) | NoneArgument | Model(fields: map<string, Value>)

  function CallSpec(sig: Signature, kwargs: map<string, Value>): map<string, Argument> {
    var popped := Names(Fields(sig));
    var args := map k | k in kwargs && k !in popped :: Given(Unwrap(kwargs[k]));
    match sig.data
    case NoData => args
    case NoneData => args["data" := NoneArgument]
    case ModelData(_) => args["data" := Model(map f | f in popped && f in kwargs :: Unwrap(kwargs[f]))]
  }

  function Unwrapped(kwargs: map<string, Value>): map<string, Value> {
    map k | k in kwargs :: Unwrap(kwargs[k])
  }

  /** Takes the model's fields out of the keyword arguments. */
  method PopFields(kwargs: map<string, Value>, fields: seq<Parameter>)
    returns (rest: map<string, Value>, dataFields: map<string, Value>)
    ensures rest == kwargs - Names(fields)
    ensures dataFields == map f | f in Names(fields) && f in kwargs :: kwargs[f]
  {
    rest, dataFields := kwargs, map[];
    for i := 0 to |fields|
      invariant rest == kwargs - Names(fields[..i])
      invariant dataFields == map f | f in Names(fields[..i]) && f in kwargs :: kwargs[f]
    {
      var f := fields[i].name;
      NamesSnoc(fields, i);
      if f in rest {
        dataFields := dataFields[f := rest[f]];
        rest := rest - {f};
      }
    }
    assert fields[..|fields|] == fields;
  }

  method Wrapper(sig: Signature, kwargs: map<string, Value>) returns (call: map<string, Argument>)
    ensures call == CallSpec(sig, kwargs)
  {
    var callKwargs := Unwrapped(kwargs);
    var data: Option<Argument> := None;
    match sig.data {
      case NoneData =>
        data := Some(NoneArgument);
      case ModelData(fields) =>
        var rest, dataFields := PopFields(callKwargs, fields);
        callKwargs := rest;
        data := Some(Model(dataFields));
      case NoData =>
    }
    call := map k | k in callKwargs :: Given(callKwargs[k]);
    assert call == map k | k in kwargs && k !in Names(Fields(sig)) :: Given(Unwrap(kwargs[k]));
    if data.Some? {
      call := call["data" := data.value];
    }
    if sig.data.ModelData? {
      ghost var popped := Names(sig.data.fields);
      assert data.value.fields == map f | f in popped && f in kwargs :: Unwrap(kwargs[f]);
    }
  }

  lemma NamesSnoc(ps: seq<Parameter>, i: nat)
    requires i < |ps|
    ensures Names(ps[..i + 1]) == Names(ps[..i]) + {ps[i].name}
  {
    assert ps[..i + 1] == ps[..i] + [ps[i]];
  }

  /** Typer passes every option except the context. */
  predicate OptionValues(sig: Signature, kwargs: map<string, Value>) {
    kwargs.Keys == Names(Spliced(sig.parameters, Fields(sig)))
  }

  lemma NamesConcat(a: seq<Parameter>, b: seq<Parameter>)
    ensures Names(a + b) == Names(a) + Names(b)
  {
  }

  lemma NamesFirst(ps: seq<Parameter>)
    requires ps != []
    ensures Names(ps) == {ps[0].name} + Names(ps[1..])
  {
    assert ps == [ps[0]] + ps[1..];
    NamesConcat([ps[0]], ps[1..]);
  }

  lemma {:induction false} SplicedNames(ps: seq<Parameter>, fields: seq<Parameter>)
    ensures Names(Spliced(ps, fields)) ==
            (Names(ps) - {"data"}) + (if "data" in Names(ps) then Names(fields) else {})
  {
    if ps != [] {
      SplicedNames(ps[1..], fields);
      NamesFirst(ps);
      NamesConcat(if ps[0].name == "data" then fields else [ps[0]], Spliced(ps[1..], fields));
    }
  }

  lemma DistinctConcat(a: seq<Parameter>, b: seq<Parameter>)
    requires Distinct(a + b)
    ensures Distinct(b) && Names(a) !! Names(b)
  {
    forall i, j | 0 <= i < j < |b|
      ensures b[i].name != b[j].name
    {
      assert (a + b)[|a| + i] == b[i] && (a + b)[|a| + j] == b[j];
    }
    forall p, r | p in a && r in b
      ensures p.name != r.name
    {
      var i :| 0 <= i < |a| && a[i] == p;
      var j :| 0 <= j < |b| && b[j] == r;
      assert (a + b)[i] == p && (a + b)[|a| + j] == r;
    }
  }

  /** A field and a parameter of the same name would both be options. */
  lemma {:induction false} SplicedDistinct(ps: seq<Parameter>, fields: seq<Parameter>)
    requires Distinct(Spliced(ps, fields)) && "data" in Names(ps)
    ensures (Names(ps) - {"data"}) !! Names(fields)
  {
    var here := if ps[0].name == "data" then fields else [ps[0]];
    DistinctConcat(here, Spliced(ps[1..], fields));
    SplicedNames(ps[1..], fields);
    NamesFirst(ps);
    if "data" in Names(ps[1..]) {
      SplicedDistinct(ps[1..], fields);
    }
  }

  lemma RegisteredWithoutClash(sig: Signature)
    requires WellFormed(sig) && Registers(sig) && sig.data.ModelData?
    ensures (Names(sig.parameters) - {"data"}) !! Names(sig.data.fields)
  {
    DistinctConcat([CTX], Spliced(sig.parameters, sig.data.fields));
    SplicedDistinct(sig.parameters, sig.data.fields);
  }

  /** Flattening is undone by the wrapper: if the command registers, the function gets exactly its parameters, each
      with the value given for it, and the model exactly its fields, each with the value given for it; and none of them
      takes the place of the context. */
  lemma CallIsComplete(sig: Signature, kwargs: map<string, Value>)
    requires WellFormed(sig) && Registers(sig) && OptionValues(sig, kwargs)
    ensures "ctx" !in kwargs
    ensures var call := CallSpec(sig, kwargs);
      && call.Keys == Names(sig.parameters)
      && (forall p | p in call && p != "data" :: p in kwargs && call[p] == Given(Plain(kwargs[p].text)))
      && (sig.data == NoneData ==> call["data"] == NoneArgument)
      && (sig.data.ModelData? ==>
            && call["data"].Model? && call["data"].fields.Keys == Names(sig.data.fields)
            && (forall f | f in call["data"].fields :: f in kwargs && call["data"].fields[f] == Plain(kwargs[f].text))
            && (call.Keys - {"data"}) !! call["data"].fields.Keys)
  {
    SplicedNames(sig.parameters, Fields(sig));
    DistinctConcat([CTX], Spliced(sig.parameters, Fields(sig)));
    assert CTX in [CTX];
    if sig.data.ModelData? {
      RegisteredWithoutClash(sig);
    }
  }

  /** The options a call came from, as far as the call still shows them. */
  function Flattened(call: map<string, Argument>): map<string, Value> {
    (map p | p in call && call[p].Given? :: call[p].value)
    + (if "data" in call && call["data"].Model? then call["data"].fields else map[])
  }

  /** An option is found again where it went: in the model, or among the arguments. */
  lemma OptionIsKept(sig: Signature, kwargs: map<string, Value>, k: string)
    requires WellFormed(sig) && Registers(sig) && OptionValues(sig, kwargs) && k in kwargs
    ensures k in Flattened(CallSpec(sig, kwargs)) && Flattened(CallSpec(sig, kwargs))[k] == Plain(kwargs[k].text)
  {
    var call := CallSpec(sig, kwargs);
    SplicedNames(sig.parameters, Fields(sig));
    if k in Names(Fields(sig)) {
      assert call["data"].fields[k] == Plain(kwargs[k].text);
    } else {
      assert call[k] == Given(Plain(kwargs[k].text));
    }
  }

  lemma NothingIsAdded(sig: Signature, kwargs: map<string, Value>, k: string)
    requires k in Flattened(CallSpec(sig, kwargs))
    ensures k in kwargs
  {
  }

  lemma SameFlattened(call: map<string, Argument>, options: map<string, Value>)
    requires forall k | k in options :: k in Flattened(call) && Flattened(call)[k] == options[k]
    requires forall k | k in Flattened(call) :: k in options
    ensures Flattened(call) == options
  {
  }

  /** No option is lost, duplicated, or passed to both: the call gives all of them back, with enums unwrapped. */
  lemma CallKeepsOptions(sig: Signature, kwargs: map<string, Value>)
    requires WellFormed(sig) && Registers(sig) && OptionValues(sig, kwargs)
    ensures Flattened(CallSpec(sig, kwargs)) == map k | k in kwargs :: Plain(kwargs[k].text)
  {
    var options := map k | k in kwargs :: Plain(kwargs[k].text);
    forall k | k in options
      ensures k in Flattened(CallSpec(sig, kwargs)) && Flattened(CallSpec(sig, kwargs))[k] == options[k]
    {
      OptionIsKept(sig, kwargs, k);
    }
    forall k | k in Flattened(CallSpec(sig, kwargs))
      ensures k in options
    {
      NothingIsAdded(sig, kwargs, k);
    }
    SameFlattened(CallSpec(sig, kwargs), options);
  }

  /** Without the check at registration the wrapper would drop arguments: the function gets all its parameters exactly
      when no field has the name of another parameter. */
  lemma CompleteIffNoClash(sig: Signature, kwargs: map<string, Value>)
    requires WellFormed(sig) && OptionValues(sig, kwargs)
    ensures CallSpec(sig, kwargs).Keys == Names(sig.parameters)
       <==> (Names(sig.parameters) - {"data"}) !! Names(Fields(sig))
  {
    SplicedNames(sig.parameters, Fields(sig));
    var call := CallSpec(sig, kwargs);
    if n :| n in (Names(sig.parameters) - {"data"}) && n in Names(Fields(sig)) {
      assert n !in call;
    }
  }
}
