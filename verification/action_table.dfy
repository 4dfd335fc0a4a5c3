/** Action records in the table, the copies that the API and the worker hold of them,
    and what any sequence of attribute-level writes leaves in a record. */
module ActionTable {
  import opened Wrappers

  datatype ActionStatus = Pending | Running | Success | Failure | Cancelled

  type Args = map<string, string>

  datatype Item = Item(
    actionId: string, name: string, owner: string, status: ActionStatus,
    result: Option<string>, taskArgs: Option<Args>, createdAt: real, updatedAt: real)

  datatype AttributeUpdate =
    | SetStatusTo(status: ActionStatus)
    | SetResultTo(result: string)
    | SetTaskArgsTo(taskArgs: Args)
    | SetUpdatedAtTo(at: real)

  function ApplyUpdate(item: Item, update: AttributeUpdate): Item {
    match update
    case SetStatusTo(s) => item.(status := s)
    case SetResultTo(r) => item.(result := Some(r))
    case SetTaskArgsTo(a) => item.(taskArgs := Some(a))
    case SetUpdatedAtTo(t) => item.(updatedAt := t)
  }

  function ApplyUpdates(item: Item, updates: seq<AttributeUpdate>): Item
    decreases |updates|
  {
    if updates == [] then item else ApplyUpdates(ApplyUpdate(item, updates[0]), updates[1..])
  }

  /** A new record: both timestamps are the creation time and the status is the schema's default. */
  function NewItem(actionId: string, name: string, owner: string, now: real): Item {
    Item(actionId, name, owner, Pending, None, None, now, now)
  }

  /** The two kinds of write the program makes to an existing record. */
  datatype Write =
    | StatusWrite(status: ActionStatus, at: real)
    | FinalWrite(status: ActionStatus, result: string, taskArgs: Args, at: real)

  function Apply(item: Item, w: Write): Item {
    match w
    case StatusWrite(s, t) => item.(status := s, updatedAt := t)
    case FinalWrite(s, r, a, t) => item.(status := s, result := Some(r), taskArgs := Some(a), updatedAt := t)
  }

  /** The record after a history of writes, oldest first. */
  function Replay(item: Item, log: seq<Write>): Item {
    if log == [] then item else Apply(Replay(item, log[..|log| - 1]), log[|log| - 1])
  }

  /** A history as the program writes it: nobody writes PENDING, and the clock does not run backwards. */
  ghost predicate WellTimed(created: real, log: seq<Write>) {
    && (forall k | 0 <= k < |log| :: log[k].status != Pending && created <= log[k].at)
    && (forall j, k | 0 <= j < k < |log| :: log[j].at <= log[k].at)
  }

  /** k is the position of the latest final write. */
  ghost predicate LatestFinal(log: seq<Write>, k: nat) {
    && k < |log| && log[k].FinalWrite?
    && (forall j | k < j < |log| :: log[j].StatusWrite?)
  }

  /** Nothing is lost: identity never changes, the newest write decides status and time, and the result and
      arguments are those of one and the same final write, the latest. */
  lemma {:induction false} RecordAfterWrites(item: Item, log: seq<Write>)
    requires item == NewItem(item.actionId, item.name, item.owner, item.createdAt)
    requires WellTimed(item.createdAt, log)
    ensures var r := Replay(item, log);
      && r.actionId == item.actionId && r.name == item.name && r.owner == item.owner && r.createdAt == item.createdAt
      && r.createdAt <= r.updatedAt
      && r.updatedAt == (if log == [] then item.createdAt else log[|log| - 1].at)
      && r.status == (if log == [] then Pending else log[|log| - 1].status)
      && (r.status == Pending <==> log == [])
      && ((forall k | 0 <= k < |log| :: log[k].StatusWrite?) <==> r.result == None)
      && ((forall k | 0 <= k < |log| :: log[k].StatusWrite?) <==> r.taskArgs == None)
      && forall k: nat | LatestFinal(log, k) :: r.result == Some(log[k].result) && r.taskArgs == Some(log[k].taskArgs)
  {
    if log != [] {
      var n := |log| - 1;
      var before := log[..n];
      RecordAfterWrites(item, before);
      if log[n].StatusWrite? {
        forall k: nat | LatestFinal(log, k)
          ensures LatestFinal(before, k)
        {
        }
        if r: nat :| r < n && before[r].FinalWrite? {
          assert log[r].FinalWrite?;
        } else {
          assert forall k | 0 <= k < n :: before[k] == log[k];
        }
      }
    }
  }

  class Table {
    var items: map<string, Item>

    constructor ()
      ensures items == map[]
    {
      items := map[];
    }
  }

  /** One copy of a record, in the API process or in the worker. The attributes it holds may be stale. */
  class Action {
    const table: Table
    const actionId: string
    var attributes: Item

    constructor Create(table: Table, name: string, owner: string, uuid: string, now: real)
      requires uuid !in table.items
      modifies table
      ensures this.table == table && actionId == uuid
      ensures attributes == Item(uuid, name, owner, Pending, None, None, now, now)
      ensures table.items == old(table.items)[uuid := attributes]
    {
      this.table := table;
      actionId := uuid;
      attributes := NewItem(uuid, name, owner, now);
      new;
      table.items := table.items[uuid := attributes];
    }

    constructor Load(table: Table, uuid: string)
      requires uuid in table.items
      ensures this.table == table && actionId == uuid && attributes == table.items[uuid]
    {
      this.table := table;
      actionId := uuid;
      attributes := table.items[uuid];
    }

    ghost predicate Valid()
      reads this, table
    {
      actionId in table.items
    }

    /** Adds the timestamp to the caller's updates, applies them to the stored record, and refreshes this copy. */
    method Update(updates: seq<AttributeUpdate>, now: real)
      requires Valid()
      modifies this, table
      ensures Valid()
      ensures attributes == ApplyUpdates(old(table.items[actionId]), updates + [SetUpdatedAtTo(now)])
      ensures table.items == old(table.items)[actionId := attributes]
    {
      var actions := updates + [SetUpdatedAtTo(now)];
      attributes := ApplyUpdates(table.items[actionId], actions);
      table.items := table.items[actionId := attributes];
    }

    method SetStatus(status: ActionStatus, now: real)
      requires Valid()
      modifies this, table
      ensures Valid()
      ensures attributes == Apply(old(table.items[actionId]), StatusWrite(status, now))
      ensures table.items == old(table.items)[actionId := attributes]
    {
      ghost var before := table.items[actionId];
      Update([SetStatusTo(status)], now);
      StatusUpdates(before, status, now);
    }

    method SetFinalState(status: ActionStatus, result: string, taskArgs: Args, now: real)
      requires Valid()
      modifies this, table
      ensures Valid()
      ensures attributes == Apply(old(table.items[actionId]), FinalWrite(status, result, taskArgs, now))
      ensures table.items == old(table.items)[actionId := attributes]
    {
      ghost var before := table.items[actionId];
      Update([SetStatusTo(status), SetResultTo(result), SetTaskArgsTo(taskArgs)], now);
      FinalUpdates(before, status, result, taskArgs, now);
    }
  }

  lemma FirstUpdate(item: Item, u: AttributeUpdate, rest: seq<AttributeUpdate>)
    ensures ApplyUpdates(item, [u] + rest) == ApplyUpdates(ApplyUpdate(item, u), rest)
  {
    assert ([u] + rest)[1..] == rest;
  }

  lemma StatusUpdates(item: Item, s: ActionStatus, now: real)
    ensures ApplyUpdates(item, [SetStatusTo(s)] + [SetUpdatedAtTo(now)]) == Apply(item, StatusWrite(s, now))
  {
    FirstUpdate(item, SetStatusTo(s), [SetUpdatedAtTo(now)]);
    FirstUpdate(item.(status := s), SetUpdatedAtTo(now), []);
    assert [SetUpdatedAtTo(now)] + [] == [SetUpdatedAtTo(now)];
  }

  lemma FinalUpdates(item: Item, s: ActionStatus, r: string, a: Args, now: real)
    ensures ApplyUpdates(item, [SetStatusTo(s), SetResultTo(r), SetTaskArgsTo(a)] + [SetUpdatedAtTo(now)])
         == Apply(item, FinalWrite(s, r, a, now))
  {
    var i1 := item.(status := s);
    var i2 := i1.(result := Some(r));
    FirstUpdate(item, SetStatusTo(s), [SetResultTo(r), SetTaskArgsTo(a), SetUpdatedAtTo(now)]);
    FirstUpdate(i1, SetResultTo(r), [SetTaskArgsTo(a), SetUpdatedAtTo(now)]);
    FirstUpdate(i2, SetTaskArgsTo(a), [SetUpdatedAtTo(now)]);
    FirstUpdate(i2.(taskArgs := Some(a)), SetUpdatedAtTo(now), []);
    assert [SetStatusTo(s), SetResultTo(r), SetTaskArgsTo(a)] + [SetUpdatedAtTo(now)]
        == [SetStatusTo(s)] + [SetResultTo(r), SetTaskArgsTo(a), SetUpdatedAtTo(now)];
    assert [SetResultTo(r)] + [SetTaskArgsTo(a), SetUpdatedAtTo(now)]
        == [SetResultTo(r), SetTaskArgsTo(a), SetUpdatedAtTo(now)];
    assert [SetTaskArgsTo(a)] + [SetUpdatedAtTo(now)] == [SetTaskArgsTo(a), SetUpdatedAtTo(now)];
    assert [SetUpdatedAtTo(now)] + [] == [SetUpdatedAtTo(now)];
  }

  /** A cancellation through a copy loaded before the task finished keeps the result the worker stored since. */
  method CancelThroughStaleCopy(worker: Action, api: Action, result: string, taskArgs: Args, t0: real, t1: real)
    requires worker != api && worker.table == api.table && worker.actionId == api.actionId && worker.Valid()
    modifies worker, api, worker.table
    ensures worker.table.items == old(worker.table.items)[worker.actionId :=
      Apply(Apply(old(worker.table.items[worker.actionId]), FinalWrite(Success, result, taskArgs, t0)),
            StatusWrite(Cancelled, t1))]
    ensures worker.table.items[worker.actionId].result == Some(result)
    ensures api.attributes == worker.table.items[worker.actionId]
  {
    worker.SetFinalState(Success, result, taskArgs, t0);
    api.SetStatus(Cancelled, t1);
  }
}
