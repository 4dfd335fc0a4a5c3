/** The parameter map that authorization decisions are based on. */
module OpaInput {
  import opened Wrappers
  import opened ActionTable

  /** A declared query parameter; the default is its text, and None stands for a default of None. */
  datatype Field = Field(alias: string, required: bool, default: Option<string>)

  type Params = map<string, string>

  datatype Request = Request(path: string, pathParams: Params, queryParams: Params, fields: seq<Field>)

  function Get(m: Params, key: string): Option<string> {
    if key in m then Some(m[key]) else None
  }

  function WithDefaults(fields: seq<Field>, params: Params): Params
    decreases |fields|
  {
    if fields == [] then params
    else
      var f := fields[0];
      WithDefaults(fields[1..],
        if f.alias !in params && !f.required && f.default.Some? then params[f.alias := f.default.value] else params)
  }

  /** The first declared field of that name that is optional and has a default other than None. */
  function Declared(fields: seq<Field>, key: string): Option<string> {
    if fields == [] then None
    else if fields[0].alias == key && !fields[0].required && fields[0].default.Some? then fields[0].default
    else Declared(fields[1..], key)
  }

  lemma {:induction false} DefaultsByKey(fields: seq<Field>, params: Params, key: string)
    ensures Get(WithDefaults(fields, params), key) == if key in params then Some(params[key]) else Declared(fields, key)
    decreases |fields|
  {
    if fields != [] {
      var f := fields[0];
      DefaultsByKey(fields[1..],
        if f.alias !in params && !f.required && f.default.Some? then params[f.alias := f.default.value] else params,
        key);
    }
  }

  /** The k-th declared field is optional, has that name, and has a default other than None. */
  predicate Defaults(fields: seq<Field>, k: nat, key: string) {
    k < |fields| && fields[k].alias == key && !fields[k].required && fields[k].default != None
  }

  lemma {:induction false} FirstDeclared(fields: seq<Field>, key: string) returns (k: nat)
    ensures match Declared(fields, key)
      case None => forall j: nat :: !Defaults(fields, j, key)
      case Some(v) =>
        Defaults(fields, k, key) && fields[k].default == Some(v) && forall j: nat | j < k :: !Defaults(fields, j, key)
  {
    k := 0;
    if fields != [] && !Defaults(fields, 0, key) {
      var r := FirstDeclared(fields[1..], key);
      k := r + 1;
      forall j: nat | j > 0 && Defaults(fields, j, key)
        ensures Defaults(fields[1..], j - 1, key)
      {
      }
    }
  }

  /** Defaults never change what the client sent, and applying them again changes nothing. */
  lemma DefaultsOnlyFillGaps(fields: seq<Field>, params: Params)
    ensures forall k | k in params :: k in WithDefaults(fields, params) && WithDefaults(fields, params)[k] == params[k]
    ensures WithDefaults(fields, WithDefaults(fields, params)) == WithDefaults(fields, params)
  {
    var once := WithDefaults(fields, params);
    var twice := WithDefaults(fields, once);
    forall k
      ensures Get(twice, k) == Get(once, k) && (k in params ==> Get(once, k) == Some(params[k]))
    {
      DefaultsByKey(fields, params, k);
      DefaultsByKey(fields, once, k);
    }
    SameByKey(twice, once);
    forall k | k in params
      ensures k in once && once[k] == params[k]
    {
      assert Get(once, k) == Some(params[k]);
    }
  }

  lemma SameByKey(a: Params, b: Params)
    requires forall k :: Get(a, k) == Get(b, k)
    ensures a == b
  {
    forall k | k in a
      ensures k in b && a[k] == b[k]
    {
      assert Get(a, k) == Get(b, k);
    }
    forall k | k in b
      ensures k in a
    {
      assert Get(a, k) == Get(b, k);
    }
  }

  function InputParams(r: Request, extra: Option<Params>): Params {
    var filled := WithDefaults(r.fields, r.pathParams + r.queryParams);
    if extra.Some? then filled + extra.value else filled
  }

  /** The layers, for every key: extra parameters over the query over the path over the first declared default. */
  lemma LayersByKey(r: Request, extra: Option<Params>, key: string) returns (k: nat)
    ensures var sent := InputParams(r, extra);
      if extra.Some? && key in extra.value then key in sent && sent[key] == extra.value[key]
      else if key in r.queryParams then key in sent && sent[key] == r.queryParams[key]
      else if key in r.pathParams then key in sent && sent[key] == r.pathParams[key]
      else if key in sent then
        && Defaults(r.fields, k, key) && r.fields[k].default == Some(sent[key])
        && forall j: nat | j < k :: !Defaults(r.fields, j, key)
      else forall j: nat :: !Defaults(r.fields, j, key)
  {
    DefaultsByKey(r.fields, r.pathParams + r.queryParams, key);
    k := FirstDeclared(r.fields, key);
  }

  class ParamMap {
    var entries: Params

    constructor (entries: Params)
      ensures this.entries == entries
    {
      this.entries := entries;
    }

    method Update(more: Params)
      modifies this
      ensures entries == old(entries) + more
    {
      entries := entries + more;
    }
  }

  datatype Decision = Decision(authorized: bool, withinRateLimits: bool)

  datatype Verdict = Allowed | Forbidden | RateLimited

  class OPA {
    const skips: string -> bool
    const decide: Params -> Decision
    var asked: seq<Params>  // what the policy engine was asked about, oldest first

    constructor (skips: string -> bool, decide: Params -> Decision)
      ensures this.skips == skips && this.decide == decide && asked == []
    {
      this.skips := skips;
      this.decide := decide;
      asked := [];
    }

    static method ApplyDeclaredQueryDefaults(fields: seq<Field>, params: ParamMap)
      modifies params
      ensures params.entries == WithDefaults(fields, old(params.entries))
    {
      for i := 0 to |fields|
        invariant WithDefaults(fields[i..], params.entries) == WithDefaults(fields, old(params.entries))
      {
        var field := fields[i];
        assert fields[i..][0] == field && fields[i..][1..] == fields[i + 1..];
        if field.alias !in params.entries && !field.required && field.default != None {
          params.entries := params.entries[field.alias := field.default.value];
        }
      }
    }

    method Authorize(r: Request, extra: Option<Params>) returns (verdict: Verdict)
      modifies this
      ensures skips(r.path) ==> asked == old(asked) && verdict == Allowed
      ensures !skips(r.path) ==>
        var d := decide(InputParams(r, extra));
        && asked == old(asked) + [InputParams(r, extra)]
        && (verdict == Allowed <==> d.authorized && d.withinRateLimits)
        && (verdict == Forbidden <==> !d.authorized)
    {
      if skips(r.path) {
        return Allowed;
      }
      var params := new ParamMap(r.pathParams);
      params.Update(r.queryParams);
      ApplyDeclaredQueryDefaults(r.fields, params);
      if extra.Some? && extra.value != map[] {
        params.Update(extra.value);
      }
      assert extra.Some? && extra.value == map[] ==> params.entries + extra.value == params.entries;
      asked := asked + [params.entries];
      var d := decide(params.entries);
      if !d.authorized {
        return Forbidden;
      }
      if !d.withinRateLimits {
        return RateLimited;
      }
      return Allowed;
    }
  }

  datatype Access = Granted(action: Action) | NoSuchAction | Refused(verdict: Verdict)

  /** The owner the engine is asked about is the stored one, whatever the request says about an owner. */
  method GetAuthorizedAction(opa: OPA, table: Table, r: Request, actionId: string) returns (access: Access)
    modifies opa
    ensures access.NoSuchAction? <==> actionId !in table.items
    ensures access.NoSuchAction? ==> opa.asked == old(opa.asked)
    ensures actionId in table.items && opa.skips(r.path) ==> access.Granted? && opa.asked == old(opa.asked)
    ensures actionId in table.items && !opa.skips(r.path) ==>
      && |opa.asked| == |old(opa.asked)| + 1 && opa.asked[..|old(opa.asked)|] == old(opa.asked)
      && var sent := opa.asked[|old(opa.asked)|];
         && sent == InputParams(r, Some(map["owner" := table.items[actionId].owner]))
         && "owner" in sent && sent["owner"] == table.items[actionId].owner
         && (access.Granted? <==> opa.decide(sent) == Decision(true, true))
         && (access == Refused(Forbidden) <==> !opa.decide(sent).authorized)
         && (access == Refused(RateLimited) <==> opa.decide(sent) == Decision(true, false))
    ensures access.Granted? ==> fresh(access.action) && access.action.attributes == table.items[actionId]
  {
    if actionId !in table.items {
      return NoSuchAction;
    }
    var action := new Action.Load(table, actionId);
    var extra := Some(map["owner" := action.attributes.owner]);
    var verdict := opa.Authorize(r, extra);
    ghost var k := LayersByKey(r, extra, "owner");
    access := if verdict == Allowed then Granted(action) else Refused(verdict);
  }
}
