/** Listing actions: the owner index, the four-way case split, and the age limit in minutes. */
module ActionQuery {
  import opened Wrappers
  import opened ActionTable

  /** The owner index with its optional range and filter conditions; items keep their order. */
  function IndexQuery(items: seq<Item>, owner: string, since: Option<int>, status: Option<ActionStatus>): seq<Item> {
    if items == [] then []
    else
      var i := items[0];
      (if i.owner == owner && (since.Some? ==> since.value as real <= i.updatedAt)
          && (status.Some? ==> i.status == status.value)
       then [i] else [])
      + IndexQuery(items[1..], owner, since, status)
  }

  /** Python's `int`: truncation towards zero. */
  function Truncate(x: real): int {
    if x >= 0.0 then x.Floor else -((-x).Floor)
  }

  function FindByOwner(items: seq<Item>, now: real, username: string,
                       status: Option<ActionStatus>, maxAge: Option<int>): seq<Item> {
    match (status, maxAge)
    case (None, None) => IndexQuery(items, username, None, None)
    case (None, Some(age)) => IndexQuery(items, username, Some(Truncate(now - age as real)), None)
    case (Some(s), None) => IndexQuery(items, username, None, Some(s))
    case (Some(s), Some(age)) => IndexQuery(items, username, Some(Truncate(now - age as real)), Some(s))
  }

  /** Minutes to seconds; zero minutes stay zero and no limit stays none. */
  function MaxAge(minutes: Option<nat>): Option<int> {
    match minutes
    case None => None
    case Some(m) => if m != 0 then Some(m * 60) else Some(m)
  }

  /** `action-list`; an empty user filter means the authenticated user. */
  function ActionList(items: seq<Item>, now: real, user: string, actionUser: Option<string>,
                      status: Option<ActionStatus>, minutes: Option<nat>): seq<Item> {
    var username := if actionUser.Some? && actionUser.value != "" then actionUser.value else user;
    FindByOwner(items, now, username, status, MaxAge(minutes))
  }

  function Filter(items: seq<Item>, keep: Item -> bool): seq<Item> {
    if items == [] then [] else (if keep(items[0]) then [items[0]] else []) + Filter(items[1..], keep)
  }

  /** Whether one item passes: owner, optional status, optional age in whole seconds of the clock. */
  predicate Passes(now: real, owner: string, status: Option<ActionStatus>, maxAge: Option<int>, i: Item) {
    && i.owner == owner
    && (status == None || status == Some(i.status))
    && (maxAge == None || Truncate(now - maxAge.value as real) as real <= i.updatedAt)
  }

  lemma {:induction false} IndexQueryFilters(items: seq<Item>, owner: string, since: Option<int>,
                                             status: Option<ActionStatus>, keep: Item -> bool)
    requires forall i :: keep(i) <==>
      && i.owner == owner && (since == None || since.value as real <= i.updatedAt)
      && (status == None || status == Some(i.status))
    ensures IndexQuery(items, owner, since, status) == Filter(items, keep)
  {
    if items != [] {
      IndexQueryFilters(items[1..], owner, since, status, keep);
    }
  }

  /** The four cases are one filter. */
  lemma FindByOwnerIsOneFilter(items: seq<Item>, now: real, owner: string,
                               status: Option<ActionStatus>, maxAge: Option<int>)
    ensures FindByOwner(items, now, owner, status, maxAge)
         == Filter(items, i => Passes(now, owner, status, maxAge, i))
  {
    var since := if maxAge == None then None else Some(Truncate(now - maxAge.value as real));
    IndexQueryFilters(items, owner, since, status, i => Passes(now, owner, status, maxAge, i));
  }

  lemma {:induction false} FilterContains(items: seq<Item>, keep: Item -> bool, i: Item)
    ensures i in Filter(items, keep) <==> i in items && keep(i)
  {
    if items != [] {
      FilterContains(items[1..], keep, i);
    }
  }

  /** An item is listed exactly when it is the user's, has the status asked for, and its age is within the limit,
      where the truncated clock lets in less than a second more; no item within the limit is dropped. */
  lemma ListedIffRecent(items: seq<Item>, now: real, user: string, actionUser: Option<string>,
                        status: Option<ActionStatus>, minutes: Option<nat>, i: Item)
    requires 0.0 <= i.updatedAt
    ensures var listed := i in ActionList(items, now, user, actionUser, status, minutes);
      var candidate := i in items && (status == None || status == Some(i.status))
        && i.owner == (if actionUser == None || actionUser == Some("") then user else actionUser.value);
      && (listed ==> candidate)
      && (minutes == None ==> (listed <==> candidate))
      && (minutes.Some? ==>
            var age, limit := now - i.updatedAt, (60 * minutes.value) as real;
            && (candidate && age <= limit ==> listed)
            && (listed ==> age < limit + 1.0))
  {
    var owner := if actionUser.Some? && actionUser.value != "" then actionUser.value else user;
    FindByOwnerIsOneFilter(items, now, owner, status, MaxAge(minutes));
    FilterContains(items, i => Passes(now, owner, status, MaxAge(minutes), i), i);
  }

  lemma {:induction false} FilterConcat(a: seq<Item>, b: seq<Item>, keep: Item -> bool)
    ensures Filter(a + b, keep) == Filter(a, keep) + Filter(b, keep)
  {
    if a == [] {
      assert a + b == b;
    } else {
      var first := if keep(a[0]) then [a[0]] else [];
      FilterConcat(a[1..], b, keep);
      assert (a + b)[1..] == a[1..] + b && (a + b)[0] == a[0];
      assert Filter(a + b, keep) == first + (Filter(a[1..], keep) + Filter(b, keep));
    }
  }

  /** The listing keeps the order of the table and lists every occurrence once: any part of the table is listed as it
      would be by itself, and a single item is listed once or not at all. */
  lemma ListingKeepsOrder(a: seq<Item>, b: seq<Item>, i: Item, now: real, user: string, actionUser: Option<string>,
                          status: Option<ActionStatus>, minutes: Option<nat>)
    ensures ActionList(a + b, now, user, actionUser, status, minutes)
         == ActionList(a, now, user, actionUser, status, minutes)
            + ActionList(b, now, user, actionUser, status, minutes)
    ensures var one := ActionList([i], now, user, actionUser, status, minutes); one == [i] || one == []
  {
    var owner := if actionUser.Some? && actionUser.value != "" then actionUser.value else user;
    var keep := (i: Item) => Passes(now, owner, status, MaxAge(minutes), i);
    FindByOwnerIsOneFilter(a + b, now, owner, status, MaxAge(minutes));
    FindByOwnerIsOneFilter(a, now, owner, status, MaxAge(minutes));
    FindByOwnerIsOneFilter(b, now, owner, status, MaxAge(minutes));
    FindByOwnerIsOneFilter([i], now, owner, status, MaxAge(minutes));
    FilterConcat(a, b, keep);
    assert [i][1..] == [];
  }

  /** A longer limit lists everything a shorter one does, and no limit everything. */
  lemma LongerLimitListsMore(items: seq<Item>, now: real, owner: string, status: Option<ActionStatus>,
                             short: int, long: int, i: Item)
    requires short <= long
    ensures i in FindByOwner(items, now, owner, status, Some(short)) ==>
      i in FindByOwner(items, now, owner, status, Some(long))
    ensures i in FindByOwner(items, now, owner, status, Some(long)) ==>
      i in FindByOwner(items, now, owner, status, None)
  {
    FindByOwnerIsOneFilter(items, now, owner, status, Some(short));
    FindByOwnerIsOneFilter(items, now, owner, status, Some(long));
    FindByOwnerIsOneFilter(items, now, owner, status, None);
    FilterContains(items, i => Passes(now, owner, status, Some(short), i), i);
    FilterContains(items, i => Passes(now, owner, status, Some(long), i), i);
    FilterContains(items, i => Passes(now, owner, status, None, i), i);
    TruncateMonotone(now - long as real, now - short as real);
  }

  lemma TruncateMonotone(x: real, y: real)
    requires x <= y
    ensures Truncate(x) <= Truncate(y)
  {
  }

  /** A limit of zero minutes is a limit: it hides what no limit shows. */
  lemma ZeroIsNotNone(now: real, i: Item)
    requires 0.0 <= i.updatedAt && i.updatedAt + 1.0 <= now
    ensures i in ActionList([i], now, i.owner, None, None, None)
    ensures i !in ActionList([i], now, i.owner, None, None, Some(0))
  {
    ListedIffRecent([i], now, i.owner, None, None, None, i);
    ListedIffRecent([i], now, i.owner, None, None, Some(0), i);
  }
}
