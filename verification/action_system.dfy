/** Any number of actions, the workers that execute their messages, cancelling users and one RDS instance, interleaved
    step by step. A run is any sequence of enabled steps; the theorems about runs are in rds_commands.dfy and
    action_lifecycle.dfy. */
module ActionSystem {
  import opened Wrappers
  import opened RdsInstance
  import opened ActionTable
  import opened ActionTask

  /** Where a task's worker is: waiting for an attempt, after `before_start`, after the body, or done for good. */
  datatype Phase = Queued | Started | Ended(outcome: Outcome) | Finished

  /** An action's record, with the arguments its message carries. */
  datatype Record = Record(
    created: Item,
    kwargs: Args,
    log: seq<Write>)  // every write to the record since it was created
  {
    function Stored(): Item {
      Replay(created, log)
    }
  }

  /** One worker executing a delivered message of the action with that record. Duplicates are tasks on one record. */
  datatype Task = Task(
    record: nat,
    kind: Kind,
    identifier: string,
    phase: Phase,
    retries: nat,
    outcomes: seq<Outcome>)  // of the bodies executed so far

  datatype World = World(
    records: seq<Record>,
    tasks: seq<Task>,
    instance: Status,
    history: seq<Status>,     // what the instance has shown, ending with what it shows now
    commands: seq<Command>,   // commands the instance accepted
    clock: real)

  datatype Step =
    | Enqueue(kind: Kind, identifier: string, kwargs: Args, actionId: string, name: string, owner: string, at: real)
    | BeforeStart(task: nat, at: real)
    | Body(task: nat, setup: Setup, seen: Status, answer: Answer)  // act on a status seen now or earlier
    | Settle(task: nat, exhausted: string, at: real)   // retry, on_success or on_failure
    | Cancel(record: nat, at: real)
    | Redeliver(task: nat, retries: nat)               // a crash: the worker starts over
    | Duplicate(task: nat, retries: nat)               // a second worker executes the message as well
    | InstanceMoves(status: Status)

  function Initial(instance: Status, now: real): World {
    World([], [], instance, [instance], [], now)
  }

  /** The command a body step gets accepted, if any. */
  function Issues(w: World, s: Step): seq<Command>
    requires s.Body? && s.task < |w.tasks|
  {
    Commands(w.tasks[s.task].kind, s.setup, s.seen, s.answer)
  }

  predicate Exists(w: World, i: nat) {
    i < |w.tasks| && w.tasks[i].record < |w.records|
  }

  ghost predicate Fresh(w: World, actionId: string) {
    forall r | 0 <= r < |w.records| :: w.records[r].created.actionId != actionId
  }

  ghost predicate Enabled(w: World, s: Step) {
    match s
    case Enqueue(_, _, _, actionId, _, _, at) => Fresh(w, actionId) && w.clock <= at
    case BeforeStart(i, at) => Exists(w, i) && w.tasks[i].phase == Queued && w.clock <= at
    case Body(i, _, seen, answer) =>
      && Exists(w, i) && w.tasks[i].phase == Started && seen in w.history
      // an accepted command leaves the status it is meant for at once
      && (Issues(w, s) != [] ==> answer.next != Trigger(Issues(w, s)[0]))
    case Settle(i, _, at) => Exists(w, i) && w.tasks[i].phase.Ended? && w.clock <= at
    case Cancel(r, at) => r < |w.records| && w.clock <= at
    case Redeliver(i, retries) => Exists(w, i) && retries <= w.tasks[i].retries
    case Duplicate(i, retries) => Exists(w, i) && retries <= w.tasks[i].retries
    case InstanceMoves(_) => true
  }

  /** Settling an attempt: another one while retries are left, otherwise the closing write. */
  predicate Retries(t: Task)
    requires t.phase.Ended?
  {
    Retryable(t.phase.outcome) && t.retries < MaxRetries(t.kind)
  }

  /** What a worker's step makes of its task... */
  function NextTask(t: Task, s: Step): Task
    requires s.Settle? ==> t.phase.Ended?
  {
    match s
    case BeforeStart(_, _) => t.(phase := Started)
    case Body(_, setup, seen, answer) =>
      var o := Attempt(t.kind, t.identifier, setup, seen, answer);
      t.(phase := Ended(o), outcomes := t.outcomes + [o])
    case Settle(_, _, _) => if Retries(t) then t.(phase := Queued, retries := t.retries + 1) else t.(phase := Finished)
    case Redeliver(_, retries) => t.(phase := Queued, retries := retries)
    case _ => t
  }

  /** ...and what a step writes... */
  function Written(w: World, s: Step): seq<Write>
    requires s.Settle? ==> Exists(w, s.task) && w.tasks[s.task].phase.Ended?
  {
    match s
    case BeforeStart(_, at) => [StatusWrite(Running, at)]
    case Settle(i, exhausted, at) =>
      var t := w.tasks[i];
      if Retries(t) then [] else [ClosingWrite(t.phase.outcome, exhausted, w.records[t.record].kwargs, at)]
    case Cancel(_, at) => [StatusWrite(Cancelled, at)]
    case _ => []
  }

  /** ...to the record with that number. */
  predicate Writes(w: World, s: Step, r: nat) {
    match s
    case BeforeStart(i, _) => i < |w.tasks| && w.tasks[i].record == r
    case Settle(i, _, _) => i < |w.tasks| && w.tasks[i].record == r
    case Cancel(record, _) => record == r
    case _ => false
  }

  function Logged(w: World, s: Step): seq<Record>
    requires s.Settle? ==> Exists(w, s.task) && w.tasks[s.task].phase.Ended?
  {
    seq(|w.records|, r requires 0 <= r < |w.records| =>
      if Writes(w, s, r) then w.records[r].(log := w.records[r].log + Written(w, s)) else w.records[r])
  }

  /** Steps that a worker takes with its task. */
  predicate OnTask(s: Step) {
    s.BeforeStart? || s.Body? || s.Settle? || s.Redeliver?
  }

  function Shows(w: World, status: Status): World {
    w.(instance := status, history := w.history + [status])
  }

  function Next(w: World, s: Step): World
    requires Enabled(w, s)
  {
    var w1 := if OnTask(s) then w.(tasks := w.tasks[s.task := NextTask(w.tasks[s.task], s)]) else w;
    match s
    case Enqueue(kind, identifier, kwargs, actionId, name, owner, at) =>
      w.(
        records := w.records + [Record(NewItem(actionId, name, owner, at), kwargs, [])],
        tasks := w.tasks + [Task(|w.records|, kind, identifier, Queued, 0, [])],
        clock := at)
    case BeforeStart(_, at) => w1.(records := Logged(w, s), clock := at)
    case Body(_, _, _, answer) =>
      if Issues(w, s) == [] then w1 else Shows(w1.(commands := w.commands + Issues(w, s)), answer.next)
    case Settle(_, _, at) => w1.(records := Logged(w, s), clock := at)
    case Cancel(_, at) => w1.(records := Logged(w, s), clock := at)
    case Redeliver(_, _) => w1
    case Duplicate(i, retries) =>
      w.(tasks := w.tasks + [w.tasks[i].(phase := Queued, retries := retries, outcomes := [])])
    case InstanceMoves(status) => Shows(w, status)
  }

  ghost predicate Legal(w: World, run: seq<Step>)
    decreases |run|
  {
    run == [] || (Enabled(w, run[0]) && Legal(Next(w, run[0]), run[1..]))
  }

  ghost function After(w: World, run: seq<Step>): World
    requires Legal(w, run)
    decreases |run|
  {
    if run == [] then w else After(Next(w, run[0]), run[1..])
  }

  /** The history ends with what the instance shows, every task has a record, and no two records share an id. */
  ghost predicate Coherent(w: World) {
    && w.history != [] && w.history[|w.history| - 1] == w.instance
    && (forall i | 0 <= i < |w.tasks| :: w.tasks[i].record < |w.records|)
    && (forall q, r | 0 <= q < r < |w.records| :: w.records[q].created.actionId != w.records[r].created.actionId)
  }

  lemma CoherentNext(w: World, s: Step)
    requires Enabled(w, s) && Coherent(w)
    ensures Coherent(Next(w, s))
  {
    var w' := Next(w, s);
    assert forall r | 0 <= r < |w.records| :: w'.records[r].created == w.records[r].created;
  }

  lemma {:induction false} CoherentAlong(w: World, run: seq<Step>)
    requires Legal(w, run) && Coherent(w)
    ensures Coherent(After(w, run))
    decreases |run|
  {
    if run != [] {
      CoherentNext(w, run[0]);
      CoherentAlong(Next(w, run[0]), run[1..]);
    }
  }

  /** The step is not one that has the message of record r executed again. */
  predicate NotAgain(w: World, s: Step, r: nat) {
    (s.Redeliver? || s.Duplicate?) && s.task < |w.tasks| ==> w.tasks[s.task].record != r
  }

  /** The message of record r is executed once: no worker on it starts over, and no second one joins in. */
  ghost predicate DeliveredOnce(w: World, run: seq<Step>, r: nat)
    requires Legal(w, run)
    decreases |run|
  {
    run != [] ==> NotAgain(w, run[0], r) && DeliveredOnce(Next(w, run[0]), run[1..], r)
  }

  /** Records and tasks stay what they are. */
  lemma {:induction false} StaysAlong(w: World, run: seq<Step>)
    requires Legal(w, run)
    ensures |w.records| <= |After(w, run).records| && |w.tasks| <= |After(w, run).tasks|
    ensures forall r | 0 <= r < |w.records| ::
      After(w, run).records[r].created == w.records[r].created && After(w, run).records[r].kwargs == w.records[r].kwargs
    ensures forall i | 0 <= i < |w.tasks| ::
      var t, t' := w.tasks[i], After(w, run).tasks[i];
      t'.record == t.record && t'.kind == t.kind && t'.identifier == t.identifier
    decreases |run|
  {
    if run != [] {
      StaysAlong(Next(w, run[0]), run[1..]);
    }
  }

  /** Puts one more step in front of a run. */
  lemma Precede(w: World, s: Step, rest: seq<Step>)
    requires Enabled(w, s) && Legal(Next(w, s), rest)
    ensures Legal(w, [s] + rest) && After(w, [s] + rest) == After(Next(w, s), rest)
  {
    assert ([s] + rest)[1..] == rest;
  }

  lemma {:induction false} Concatenate(w: World, a: seq<Step>, b: seq<Step>)
    requires Legal(w, a) && Legal(After(w, a), b)
    ensures Legal(w, a + b) && After(w, a + b) == After(After(w, a), b)
    decreases |a|
  {
    if a == [] {
      assert a + b == b;
    } else {
      Concatenate(Next(w, a[0]), a[1..], b);
      assert (a + b)[1..] == a[1..] + b;
    }
  }

  /** Three steps from w. */
  lemma ThreeSteps(w: World, s1: Step, s2: Step, s3: Step)
    requires Enabled(w, s1) && Enabled(Next(w, s1), s2) && Enabled(Next(Next(w, s1), s2), s3)
    ensures Legal(w, [s1, s2, s3]) && After(w, [s1, s2, s3]) == Next(Next(Next(w, s1), s2), s3)
  {
    var w2 := Next(Next(w, s1), s2);
    Precede(w2, s3, []);
    Precede(Next(w, s1), s2, [s3] + []);
    Precede(w, s1, [s2] + ([s3] + []));
    assert [s1] + ([s2] + ([s3] + [])) == [s1, s2, s3];
  }
}
