/** Finding an external resource: nested loops over namespaces, provider entries and resources,
    refining a flat search. */
module ExternalResourceSearch {
  import opened Wrappers

  datatype Provider = Rds | Elasticache

  function ProviderName(p: Provider): string {
    if p == Rds then "rds" else "elasticache"
  }

  datatype Resource = Resource(
    identifier: string, provider: string, delete: Option<bool>,
    region: Option<string>, outputResourceName: Option<string>)

  datatype VaultSecret = VaultSecret(path: string, field: string, version: Option<int>, qFormat: Option<string>)

  /** An entry of another kind than the AWS one carries nothing the search looks at. */
  datatype Entry =
    | Aws(provisioner: string, automationToken: VaultSecret, defaultRegion: string, resources: seq<Resource>)
    | OtherEntry

  datatype Namespace = Namespace(
    name: string, cluster: string, delete: Option<bool>, externalResources: Option<seq<Entry>>)

  datatype ExternalResource = ExternalResource(
    identifier: string, region: Option<string>, account: string, automationToken: VaultSecret, accountRegion: string,
    cluster: string, namespace: string, outputResourceName: Option<string>)

  datatype Found = Found(resource: ExternalResource) | NoNamespaces | NotFound

  datatype Query = Query(account: string, identifier: string, provider: Provider)

  predicate IsSearchedResource(q: Query, r: Resource) {
    r.identifier == q.identifier && r.provider == ProviderName(q.provider) && r.delete != Some(true)
  }

  /** What of a namespace matters to the resources in it. */
  datatype Home = Home(name: string, cluster: string, live: bool)

  function HomeOf(ns: Namespace): Home {
    Home(ns.name, ns.cluster, ns.delete != Some(true))
  }

  predicate OfAccount(q: Query, e: Entry) {
    e.Aws? && e.provisioner == q.account
  }

  function Entries(ns: Namespace): seq<Entry> {
    if ns.externalResources == None then [] else ns.externalResources.value
  }

  function Resources(e: Entry): seq<Resource> {
    if e.Aws? then e.resources else []
  }

  /** One resource where it stands. */
  datatype Place = Place(home: Home, entry: Entry, resource: Resource)

  predicate Wanted(q: Query, p: Place) {
    p.home.live && OfAccount(q, p.entry) && IsSearchedResource(q, p.resource)
  }

  function Describe(q: Query, p: Place): ExternalResource
    requires p.entry.Aws?
  {
    ExternalResource(q.identifier, p.resource.region, q.account, p.entry.automationToken, p.entry.defaultRegion,
                     p.home.cluster, p.home.name, p.resource.outputResourceName)
  }

  // The flat search: all resources in order, and the first one wanted.

  function EntryPlaces(h: Home, e: Entry, rs: seq<Resource>): seq<Place> {
    seq(|rs|, i requires 0 <= i < |rs| => Place(h, e, rs[i]))
  }

  function NamespacePlaces(h: Home, es: seq<Entry>): seq<Place> {
    if es == [] then [] else EntryPlaces(h, es[0], Resources(es[0])) + NamespacePlaces(h, es[1..])
  }

  function Places(nss: seq<Namespace>): seq<Place> {
    if nss == [] then [] else NamespacePlaces(HomeOf(nss[0]), Entries(nss[0])) + Places(nss[1..])
  }

  function FirstWanted(q: Query, ps: seq<Place>): Option<Place> {
    if ps == [] then None else if Wanted(q, ps[0]) then Some(ps[0]) else FirstWanted(q, ps[1..])
  }

  function Search(q: Query, nss: Option<seq<Namespace>>): Found {
    if nss == None || nss.value == [] then NoNamespaces
    else
      match FirstWanted(q, Places(nss.value))
      case None => NotFound
      case Some(p) => if p.entry.Aws? then Found(Describe(q, p)) else NotFound
  }

  lemma {:induction false} FirstOfConcat(q: Query, a: seq<Place>, b: seq<Place>)
    ensures FirstWanted(q, a + b) == if FirstWanted(q, a).Some? then FirstWanted(q, a) else FirstWanted(q, b)
  {
    if a == [] {
      assert a + b == b;
    } else {
      assert (a + b)[1..] == a[1..] + b;
      FirstOfConcat(q, a[1..], b);
    }
  }

  lemma {:induction false} NoneWanted(q: Query, ps: seq<Place>)
    requires forall p | p in ps :: !Wanted(q, p)
    ensures FirstWanted(q, ps) == None
  {
    if ps != [] {
      assert ps[0] in ps;
      assert forall p | p in ps[1..] :: p in ps;
      NoneWanted(q, ps[1..]);
    }
  }

  lemma {:induction false} PlacesOfNamespace(h: Home, es: seq<Entry>)
    ensures forall p | p in NamespacePlaces(h, es) :: p.home == h && p.entry in es && p.resource in Resources(p.entry)
  {
    if es != [] {
      PlacesOfNamespace(h, es[1..]);
      assert forall e | e in es[1..] :: e in es;
    }
  }

  lemma EntryPlacesConcat(h: Home, e: Entry, a: seq<Resource>, b: seq<Resource>)
    ensures EntryPlaces(h, e, a + b) == EntryPlaces(h, e, a) + EntryPlaces(h, e, b)
  {
  }

  lemma {:induction false} NamespacePlacesConcat(h: Home, a: seq<Entry>, b: seq<Entry>)
    ensures NamespacePlaces(h, a + b) == NamespacePlaces(h, a) + NamespacePlaces(h, b)
  {
    if a == [] {
      assert a + b == b;
    } else {
      assert (a + b)[1..] == a[1..] + b;
      NamespacePlacesConcat(h, a[1..], b);
    }
  }

  lemma {:induction false} PlacesConcat(a: seq<Namespace>, b: seq<Namespace>)
    ensures Places(a + b) == Places(a) + Places(b)
  {
    if a == [] {
      assert a + b == b;
    } else {
      assert (a + b)[1..] == a[1..] + b;
      PlacesConcat(a[1..], b);
    }
  }

  /** The loops as they are written: `continue` past what is not wanted, return at the first hit. */
  method GetExternalResource(q: Query, namespaces: Option<seq<Namespace>>) returns (found: Found)
    ensures found == Search(q, namespaces)
  {
    if namespaces == None || namespaces.value == [] {
      return NoNamespaces;
    }
    var nss := namespaces.value;
    for i := 0 to |nss|
      invariant FirstWanted(q, Places(nss[..i])) == None
    {
      var ns := nss[i];
      var h := HomeOf(ns);
      SplitAt(q, nss, i);
      PlacesOfNamespace(h, Entries(ns));
      if ns.delete == Some(true) {
        NoneWanted(q, NamespacePlaces(h, Entries(ns)));
        continue;
      }
      var es := Entries(ns);
      for j := 0 to |es|
        invariant FirstWanted(q, NamespacePlaces(h, es[..j])) == None
      {
        var e := es[j];
        SplitEntries(q, h, es, j);
        if !e.Aws? {
          NoneWanted(q, EntryPlaces(h, e, Resources(e)));
          continue;
        }
        if e.provisioner == q.account {
          for k := 0 to |e.resources|
            invariant FirstWanted(q, EntryPlaces(h, e, e.resources[..k])) == None
          {
            var r := e.resources[k];
            SplitResources(q, h, e, k);
            if !IsSearchedResource(q, r) {
              continue;
            }
            return Found(Describe(q, Place(h, e, r)));
          }
          assert e.resources[..|e.resources|] == e.resources;
        } else {
          NoneWanted(q, EntryPlaces(h, e, Resources(e)));
        }
      }
      assert es[..|es|] == es;
    }
    assert nss[..|nss|] == nss;
    return NotFound;
  }

  lemma SplitAt(q: Query, nss: seq<Namespace>, i: nat)
    requires i < |nss| && FirstWanted(q, Places(nss[..i])) == None
    ensures FirstWanted(q, Places(nss[..i + 1])) == FirstWanted(q, NamespacePlaces(HomeOf(nss[i]), Entries(nss[i])))
    ensures FirstWanted(q, Places(nss[..i + 1])).Some? ==>
      FirstWanted(q, Places(nss)) == FirstWanted(q, Places(nss[..i + 1]))
  {
    assert nss[..i + 1] == nss[..i] + [nss[i]];
    PlacesConcat(nss[..i], [nss[i]]);
    assert Places([nss[i]]) == NamespacePlaces(HomeOf(nss[i]), Entries(nss[i])) by {
      assert [nss[i]][1..] == [];
    }
    FirstOfConcat(q, Places(nss[..i]), Places([nss[i]]));
    assert nss == nss[..i + 1] + nss[i + 1..];
    PlacesConcat(nss[..i + 1], nss[i + 1..]);
    FirstOfConcat(q, Places(nss[..i + 1]), Places(nss[i + 1..]));
  }

  lemma SplitEntries(q: Query, h: Home, es: seq<Entry>, j: nat)
    requires j < |es| && FirstWanted(q, NamespacePlaces(h, es[..j])) == None
    ensures FirstWanted(q, NamespacePlaces(h, es[..j + 1])) == FirstWanted(q, EntryPlaces(h, es[j], Resources(es[j])))
    ensures FirstWanted(q, NamespacePlaces(h, es[..j + 1])).Some? ==>
      FirstWanted(q, NamespacePlaces(h, es)) == FirstWanted(q, NamespacePlaces(h, es[..j + 1]))
  {
    assert es[..j + 1] == es[..j] + [es[j]];
    NamespacePlacesConcat(h, es[..j], [es[j]]);
    OneEntry(h, es[j]);
    FirstOfConcat(q, NamespacePlaces(h, es[..j]), NamespacePlaces(h, [es[j]]));
    FirstEntryStays(q, h, es, j + 1);
  }

  lemma OneEntry(h: Home, e: Entry)
    ensures NamespacePlaces(h, [e]) == EntryPlaces(h, e, Resources(e))
  {
    assert [e][1..] == [];
  }

  /** What a prefix of the entries holds is not affected by the rest. */
  lemma FirstEntryStays(q: Query, h: Home, es: seq<Entry>, n: nat)
    requires n <= |es|
    ensures FirstWanted(q, NamespacePlaces(h, es[..n])).Some? ==>
      FirstWanted(q, NamespacePlaces(h, es)) == FirstWanted(q, NamespacePlaces(h, es[..n]))
  {
    assert es == es[..n] + es[n..];
    NamespacePlacesConcat(h, es[..n], es[n..]);
    FirstOfConcat(q, NamespacePlaces(h, es[..n]), NamespacePlaces(h, es[n..]));
  }

  lemma SplitResources(q: Query, h: Home, e: Entry, k: nat)
    requires e.Aws? && k < |e.resources| && FirstWanted(q, EntryPlaces(h, e, e.resources[..k])) == None
    ensures var p := Place(h, e, e.resources[k]);
      && (!Wanted(q, p) ==> FirstWanted(q, EntryPlaces(h, e, e.resources[..k + 1])) == None)
      && (Wanted(q, p) ==> FirstWanted(q, EntryPlaces(h, e, e.resources)) == Some(p))
  {
    var rs, p := e.resources, Place(h, e, e.resources[k]);
    assert EntryPlaces(h, e, rs[..k + 1]) == EntryPlaces(h, e, rs[..k]) + [p];
    FirstOfConcat(q, EntryPlaces(h, e, rs[..k]), [p]);
    assert FirstWanted(q, [p]) == if Wanted(q, p) then Some(p) else None;
    assert rs == rs[..k + 1] + rs[k + 1..];
    EntryPlacesConcat(h, e, rs[..k + 1], rs[k + 1..]);
    FirstOfConcat(q, EntryPlaces(h, e, rs[..k + 1]), EntryPlaces(h, e, rs[k + 1..]));
  }

  // What the search means.

  /** The j-th entry of a namespace is an AWS one of the account, and its k-th resource is a match that is not
      deleted. */
  ghost predicate Match(q: Query, es: seq<Entry>, j: nat, k: nat) {
    && j < |es| && es[j].Aws? && es[j].provisioner == q.account && k < |es[j].resources|
    && var r := es[j].resources[k];
    && r.identifier == q.identifier && r.delete != Some(true)
    && r.provider == match q.provider { case Rds => "rds" case Elasticache => "elasticache" }
  }

  /** (i, j, k) is the position of a resource that is to be found: the i-th namespace is not deleted either. */
  ghost predicate Hit(q: Query, nss: seq<Namespace>, i: nat, j: nat, k: nat) {
    && i < |nss| && nss[i].delete != Some(true) && nss[i].externalResources.Some?
    && Match(q, nss[i].externalResources.value, j, k)
  }

  predicate Before(i: nat, j: nat, k: nat, i': nat, j': nat, k': nat) {
    i < i' || (i == i' && (j < j' || (j == j' && k < k')))
  }

  lemma {:induction false} LeastResource(q: Query, h: Home, e: Entry, rs: seq<Resource>) returns (k: nat)
    ensures match FirstWanted(q, EntryPlaces(h, e, rs))
      case None => forall k' | 0 <= k' < |rs| :: !Wanted(q, Place(h, e, rs[k']))
      case Some(p) =>
        && k < |rs| && p == Place(h, e, rs[k]) && Wanted(q, p)
        && forall k' | 0 <= k' < k :: !Wanted(q, Place(h, e, rs[k']))
  {
    k := 0;
    if rs != [] {
      assert EntryPlaces(h, e, rs)[1..] == EntryPlaces(h, e, rs[1..]);
      if !Wanted(q, Place(h, e, rs[0])) {
        var r := LeastResource(q, h, e, rs[1..]);
        k := r + 1;
        assert forall k' | 0 < k' < |rs| :: rs[k'] == rs[1..][k' - 1];
      }
    }
  }

  /** A wanted resource at position (j, k) among a namespace's entries. */
  ghost predicate EntryHit(q: Query, h: Home, es: seq<Entry>, j: nat, k: nat) {
    j < |es| && k < |Resources(es[j])| && Wanted(q, Place(h, es[j], Resources(es[j])[k]))
  }

  lemma HitIsWanted(q: Query, nss: seq<Namespace>, i: nat, j: nat, k: nat)
    requires i < |nss|
    ensures Hit(q, nss, i, j, k) <==> EntryHit(q, HomeOf(nss[i]), Entries(nss[i]), j, k)
  {
  }

  lemma {:induction false} LeastEntry(q: Query, h: Home, es: seq<Entry>) returns (j: nat, k: nat)
    ensures match FirstWanted(q, NamespacePlaces(h, es))
      case None => forall j': nat, k': nat :: !EntryHit(q, h, es, j', k')
      case Some(p) =>
        && EntryHit(q, h, es, j, k) && p == Place(h, es[j], Resources(es[j])[k])
        && forall j': nat, k': nat | Before(0, j', k', 0, j, k) :: !EntryHit(q, h, es, j', k')
  {
    j, k := 0, 0;
    if es != [] {
      var here := EntryPlaces(h, es[0], Resources(es[0]));
      FirstOfConcat(q, here, NamespacePlaces(h, es[1..]));
      k := LeastResource(q, h, es[0], Resources(es[0]));
      if FirstWanted(q, here) == None {
        var j1, k1 := LeastEntry(q, h, es[1..]);
        j, k := j1 + 1, k1;
        forall j': nat, k': nat | j' > 0 && EntryHit(q, h, es, j', k')
          ensures EntryHit(q, h, es[1..], j' - 1, k')
        {
        }
      }
    }
  }

  lemma {:induction false} LeastNamespace(q: Query, nss: seq<Namespace>) returns (i: nat, j: nat, k: nat)
    ensures match FirstWanted(q, Places(nss))
      case None => forall i': nat, j': nat, k': nat :: !Hit(q, nss, i', j', k')
      case Some(p) =>
        && Hit(q, nss, i, j, k)
        && p == Place(HomeOf(nss[i]), nss[i].externalResources.value[j], nss[i].externalResources.value[j].resources[k])
        && forall i': nat, j': nat, k': nat | Before(i', j', k', i, j, k) :: !Hit(q, nss, i', j', k')
  {
    i, j, k := 0, 0, 0;
    if nss != [] {
      var here := NamespacePlaces(HomeOf(nss[0]), Entries(nss[0]));
      FirstOfConcat(q, here, Places(nss[1..]));
      j, k := LeastEntry(q, HomeOf(nss[0]), Entries(nss[0]));
      forall j': nat, k': nat
        ensures Hit(q, nss, 0, j', k') <==> EntryHit(q, HomeOf(nss[0]), Entries(nss[0]), j', k')
      {
        HitIsWanted(q, nss, 0, j', k');
      }
      if FirstWanted(q, here) == None {
        var i1, j1, k1 := LeastNamespace(q, nss[1..]);
        i, j, k := i1 + 1, j1, k1;
        forall i': nat, j': nat, k': nat | i' > 0 && Hit(q, nss, i', j', k')
          ensures Hit(q, nss[1..], i' - 1, j', k')
        {
        }
      }
    }
  }

  /** What is returned for the resource r of entry e in a namespace. */
  ghost predicate Describes(x: ExternalResource, q: Query, ns: Namespace, e: Entry, r: Resource)
    requires e.Aws?
  {
    && x.identifier == q.identifier && x.account == q.account
    && x.region == r.region && x.outputResourceName == r.outputResourceName
    && x.automationToken == e.automationToken && x.accountRegion == e.defaultRegion
    && x.cluster == ns.cluster && x.namespace == ns.name
  }

  /** (i, j, k) is the first hit, and x describes what stands there. */
  ghost predicate DescribesFirst(x: ExternalResource, q: Query, nss: seq<Namespace>, i: nat, j: nat, k: nat) {
    && Hit(q, nss, i, j, k)
    && (forall i': nat, j': nat, k': nat | Before(i', j', k', i, j, k) :: !Hit(q, nss, i', j', k'))
    && var e := nss[i].externalResources.value[j];
       Describes(x, q, nss[i], e, e.resources[k])
  }

  ghost predicate NoHit(q: Query, nss: seq<Namespace>) {
    forall i: nat, j: nat, k: nat :: !Hit(q, nss, i, j, k)
  }

  /** The search returns what stands at the lexicographically first (namespace, entry, resource) position of a live
      namespace, an AWS entry of the account and a matching undeleted resource, each field from where it belongs, and
      fails exactly when there is none. */
  lemma SearchIsLeastHit(q: Query, namespaces: Option<seq<Namespace>>) returns (i: nat, j: nat, k: nat)
    ensures var nss := if namespaces == None then [] else namespaces.value;
      match Search(q, namespaces)
      case Found(x) => DescribesFirst(x, q, nss, i, j, k)
      case NotFound => nss != [] && NoHit(q, nss)
      case NoNamespaces => nss == []
  {
    i, j, k := LeastNamespace(q, if namespaces == None then [] else namespaces.value);
  }

  /** Deleted namespaces make no difference, wherever they stand; only the error's text tells whether there were
      no namespaces at all. */
  lemma DeletedNamespaceIsIgnored(q: Query, a: seq<Namespace>, ns: Namespace, b: seq<Namespace>)
    requires ns.delete == Some(true)
    ensures a + b != [] ==> Search(q, Some(a + [ns] + b)) == Search(q, Some(a + b))
    ensures a + b == [] ==> Search(q, Some(a + [ns] + b)) == NotFound && Search(q, Some(a + b)) == NoNamespaces
  {
    PlacesOfNamespace(HomeOf(ns), Entries(ns));
    NoneWanted(q, NamespacePlaces(HomeOf(ns), Entries(ns)));
    FirstInTheMiddle(q, a, ns, b);
    PlacesConcat(a, b);
    FirstOfConcat(q, Places(a), Places(b));
  }

  function WithEntries(ns: Namespace, es: seq<Entry>): Namespace {
    ns.(externalResources := Some(es))
  }

  lemma ForeignEntryHoldsNothing(q: Query, h: Home, before: seq<Entry>, e: Entry, after: seq<Entry>)
    requires !OfAccount(q, e)
    ensures FirstWanted(q, NamespacePlaces(h, before + [e] + after))
         == FirstWanted(q, NamespacePlaces(h, before + after))
  {
    assert before + [e] + after == before + ([e] + after);
    NamespacePlacesConcat(h, before, [e] + after);
    NamespacePlacesConcat(h, before, after);
    assert ([e] + after)[1..] == after;
    FirstOfConcat(q, NamespacePlaces(h, before), NamespacePlaces(h, [e] + after));
    FirstOfConcat(q, NamespacePlaces(h, before), NamespacePlaces(h, after));
    FirstOfConcat(q, EntryPlaces(h, e, Resources(e)), NamespacePlaces(h, after));
    NoneWanted(q, EntryPlaces(h, e, Resources(e)));
  }

  /** Entries of another kind or another account make no difference, wherever they stand in whichever namespace. */
  lemma ForeignEntryIsIgnored(
      q: Query, a: seq<Namespace>, ns: Namespace, b: seq<Namespace>, before: seq<Entry>, e: Entry, after: seq<Entry>)
    requires !OfAccount(q, e)
    ensures Search(q, Some(a + [WithEntries(ns, before + [e] + after)] + b))
         == Search(q, Some(a + [WithEntries(ns, before + after)] + b))
  {
    ForeignEntryHoldsNothing(q, HomeOf(ns), before, e, after);
    FirstInTheMiddle(q, a, WithEntries(ns, before + [e] + after), b);
    FirstInTheMiddle(q, a, WithEntries(ns, before + after), b);
  }

  lemma FirstInTheMiddle(q: Query, a: seq<Namespace>, ns: Namespace, b: seq<Namespace>)
    ensures var here := FirstWanted(q, NamespacePlaces(HomeOf(ns), Entries(ns)));
      FirstWanted(q, Places(a + [ns] + b)) ==
      if FirstWanted(q, Places(a)).Some? then FirstWanted(q, Places(a))
      else if here.Some? then here else FirstWanted(q, Places(b))
  {
    assert a + [ns] + b == a + ([ns] + b);
    PlacesConcat(a, [ns] + b);
    FirstOfConcat(q, Places(a), Places([ns] + b));
    assert ([ns] + b)[1..] == b;
    FirstOfConcat(q, NamespacePlaces(HomeOf(ns), Entries(ns)), Places(b));
  }
}
