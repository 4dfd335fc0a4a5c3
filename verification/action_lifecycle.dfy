/** One action's life in every interleaving: its status writes, its retry budget, its end, and its record. */
module ActionLifecycle {
  import opened Wrappers
  import opened RdsInstance
  import opened ActionTable
  import opened ActionTask
  import opened ActionSystem

  /** The statuses the worker wrote, in order; the only other writer cancels. */
  function WorkerWrites(log: seq<Write>): seq<ActionStatus> {
    if log == [] then []
    else
      var last := log[|log| - 1];
      WorkerWrites(log[..|log| - 1]) + (if last.status == Cancelled then [] else [last.status])
  }

  function Runnings(n: nat): seq<ActionStatus> {
    seq(n, _ => Running)
  }

  /** The outcome that ends a task after r retries, and the status it is closed with. */
  predicate Closes(t: Task, o: Outcome) {
    Retryable(o) ==> t.retries == MaxRetries(t.kind)
  }

  function ClosedAs(o: Outcome): ActionStatus {
    if o.Done? then Success else Failure
  }

  /** Attempts whose body has run. */
  function Executed(t: Task): nat {
    t.retries + (if t.phase.Ended? || t.phase.Finished? then 1 else 0)
  }

  /** Attempts that have begun. */
  function Begun(t: Task): nat {
    t.retries + (if t.phase.Queued? then 0 else 1)
  }

  /** Where a task stands that works alone on a record with this log. */
  ghost predicate OnTrack(t: Task, log: seq<Write>) {
    && t.retries <= MaxRetries(t.kind)
    && |t.outcomes| == Executed(t)
    && (forall k | 0 <= k < t.retries :: Retryable(t.outcomes[k]))
    && (t.phase.Ended? ==> t.outcomes[t.retries] == t.phase.outcome)
    && (t.phase.Finished? ==> Closes(t, t.outcomes[t.retries]))
    && WorkerWrites(log) ==
       Runnings(Begun(t)) + (if t.phase.Finished? then [ClosedAs(t.outcomes[t.retries])] else [])
  }

  /** At most one task works on record r, and that one is on track. */
  ghost predicate Once(w: World, r: nat) {
    && (forall i | 0 <= i < |w.tasks| && w.tasks[i].record == r ::
          r < |w.records| && OnTrack(w.tasks[i], w.records[r].log))
    && (forall i, j | 0 <= i < j < |w.tasks| :: w.tasks[i].record != r || w.tasks[j].record != r)
  }

  lemma LoggedWrite(log: seq<Write>, w: Write)
    ensures WorkerWrites(log + [w]) == WorkerWrites(log) + (if w.status == Cancelled then [] else [w.status])
  {
    assert (log + [w])[..|log|] == log;
  }

  lemma OnTrackBeforeStart(t: Task, log: seq<Write>, at: real)
    requires OnTrack(t, log) && t.phase == Queued
    ensures OnTrack(t.(phase := Started), log + [StatusWrite(Running, at)])
  {
    LoggedWrite(log, StatusWrite(Running, at));
    assert Runnings(t.retries) + [Running] == Runnings(t.retries + 1);
  }

  lemma OnTrackCloses(t: Task, log: seq<Write>, exhausted: string, kwargs: Args, at: real)
    requires OnTrack(t, log) && t.phase.Ended? && !Retries(t)
    ensures OnTrack(t.(phase := Finished), log + [ClosingWrite(t.phase.outcome, exhausted, kwargs, at)])
  {
    LoggedWrite(log, ClosingWrite(t.phase.outcome, exhausted, kwargs, at));
  }

  lemma OnTrackNext(w: World, s: Step, i: nat)
    requires Enabled(w, s) && Exists(w, i) && OnTrack(w.tasks[i], w.records[w.tasks[i].record].log)
    requires OnTask(s) ==> if s.task == i then !s.Redeliver? else w.tasks[s.task].record != w.tasks[i].record
    ensures OnTrack(Next(w, s).tasks[i], Next(w, s).records[w.tasks[i].record].log)
  {
    var t := w.tasks[i];
    var log := w.records[t.record].log;
    match s
    case BeforeStart(j, at) => if j == i { OnTrackBeforeStart(t, log, at); }
    case Settle(j, exhausted, at) =>
      if j == i && !Retries(t) {
        OnTrackCloses(t, log, exhausted, w.records[t.record].kwargs, at);
      } else if j == i {
        assert log + [] == log;
      }
    case Cancel(_, at) => LoggedWrite(log, StatusWrite(Cancelled, at));
    case _ =>
  }

  lemma OnceNext(w: World, s: Step, r: nat)
    requires Enabled(w, s) && Once(w, r) && NotAgain(w, s, r)
    ensures Once(Next(w, s), r)
  {
    var w' := Next(w, s);
    forall i | 0 <= i < |w'.tasks| && w'.tasks[i].record == r
      ensures r < |w'.records| && OnTrack(w'.tasks[i], w'.records[r].log)
    {
      if i < |w.tasks| {
        OnTrackNext(w, s, i);
      }
    }
  }

  lemma {:induction false} OnceAlong(w: World, run: seq<Step>, r: nat)
    requires Legal(w, run) && DeliveredOnce(w, run, r) && Once(w, r)
    ensures Once(After(w, run), r)
    decreases |run|
  {
    if run != [] {
      OnceNext(w, run[0], r);
      OnceAlong(Next(w, run[0]), run[1..], r);
    }
  }

  /** A task that works alone from the beginning is on track. */
  lemma OnTrackFromTheStart(instance: Status, now: real, run: seq<Step>, i: nat) returns (log: seq<Write>)
    requires Legal(Initial(instance, now), run)
    requires var w := After(Initial(instance, now), run);
      i < |w.tasks| && DeliveredOnce(Initial(instance, now), run, w.tasks[i].record)
    ensures var w := After(Initial(instance, now), run);
      Exists(w, i) && log == w.records[w.tasks[i].record].log && OnTrack(w.tasks[i], log)
  {
    var w := After(Initial(instance, now), run);
    OnceAlong(Initial(instance, now), run, w.tasks[i].record);
    log := w.records[w.tasks[i].record].log;
  }

  /** In every run that has an action's message executed once, whoever cancels and whenever: the worker's writes spell
      RUNNING^n and, once the task is finished, one SUCCESS or FAILURE; n is the number of attempts and within
      the retry limit; only the last attempt may be anything but retryable; and SUCCESS means that the last one
      was done. */
  lemma WorkerWritesSpellALife(instance: Status, now: real, run: seq<Step>, i: nat)
    requires Legal(Initial(instance, now), run)
    requires var w := After(Initial(instance, now), run);
      i < |w.tasks| && DeliveredOnce(Initial(instance, now), run, w.tasks[i].record)
    ensures var w := After(Initial(instance, now), run);
      var t := w.tasks[i];
      var n := |t.outcomes|;
      && n <= MaxRetries(t.kind) + 1
      && t.record < |w.records|
      && var writes := WorkerWrites(w.records[t.record].log);
      && (!t.phase.Finished? ==>
            exists b: nat :: n <= b <= n + 1 && b <= MaxRetries(t.kind) + 1 && writes == Runnings(b))
      && (t.phase.Finished? ==>
        && 1 <= n
        && (forall k | 0 <= k < n - 1 :: Retryable(t.outcomes[k]))
        && (Retryable(t.outcomes[n - 1]) ==> n == MaxRetries(t.kind) + 1)
        && writes == Runnings(n) + [if t.outcomes[n - 1].Done? then Success else Failure])
  {
    var log := OnTrackFromTheStart(instance, now, run, i);
    var t := After(Initial(instance, now), run).tasks[i];
    if !t.phase.Finished? {
      assert WorkerWrites(log) == Runnings(Begun(t));
    }
  }

  /** Every worker on record r is done. */
  ghost predicate AllFinished(w: World, r: nat) {
    forall i | 0 <= i < |w.tasks| && w.tasks[i].record == r :: w.tasks[i].phase == Finished
  }

  /** Only another delivery brings a finished action back: until then nothing but cancellations reaches its record. */
  lemma {:induction false} FinishedAlong(w: World, run: seq<Step>, r: nat)
    requires Legal(w, run) && DeliveredOnce(w, run, r)
    requires r < |w.records| && AllFinished(w, r)
    ensures var w' := After(w, run);
      && r < |w'.records| && AllFinished(w', r)
      && w.records[r].log <= w'.records[r].log && w.records[r].created == w'.records[r].created
      && (forall k | |w.records[r].log| <= k < |w'.records[r].log| :: w'.records[r].log[k].status == Cancelled)
      && (|w'.records[r].log| > |w.records[r].log|
          <==> exists k :: 0 <= k < |run| && run[k].Cancel? && run[k].record == r)
    decreases |run|
  {
    if run != [] {
      FinishedAlong(Next(w, run[0]), run[1..], r);
      if run[0].Cancel? && run[0].record == r {
      } else if k :| 0 <= k < |run| && run[k].Cancel? && run[k].record == r {
        assert run[1..][k - 1] == run[k];
      }
    }
  }

  lemma ReplayLast(item: Item, log: seq<Write>)
    requires log != []
    ensures Replay(item, log).status == log[|log| - 1].status
  {
  }

  /** Record r has just been closed: its last write is a worker's final one. */
  ghost predicate JustClosed(w: World, r: nat) {
    && r < |w.records|
    && var log := w.records[r].log;
    && log != [] && log[|log| - 1].FinalWrite? && log[|log| - 1].status != Cancelled
  }

  /** Settling an attempt for good always makes the closing write, also when the action had been cancelled before,
      and whatever other workers have written. */
  lemma ClosingIsNeverSuppressed(w: World, s: Step)
    requires Enabled(w, s) && s.Settle? && !Retries(w.tasks[s.task])
    ensures var t := w.tasks[s.task];
      var w' := Next(w, s);
      && w'.tasks[s.task].phase == Finished && JustClosed(w', t.record)
      && var stored := w'.records[t.record].Stored();
      && stored.status == ClosedAs(t.phase.outcome)
      && stored.taskArgs == Some(w.records[t.record].kwargs - {"action"})
      && stored.result == Some(match t.phase.outcome
           case Done => "ok"
           case NotYet => s.exhausted
           case Transient(message) => message
           case Fatal(message) => message)
  {
    var t := w.tasks[s.task];
    var r, r' := w.records[t.record], Next(w, s).records[t.record];
    assert r'.log == r.log + [ClosingWrite(t.phase.outcome, s.exhausted, r.kwargs, s.at)];
    assert r'.log[..|r.log|] == r.log;
  }

  /** Once all workers on it are done, a closed record is CANCELLED exactly when some cancel came after the closing
      write. */
  lemma CancelledIffCancelledAfterwards(w: World, run: seq<Step>, r: nat)
    requires Legal(w, run) && DeliveredOnce(w, run, r) && JustClosed(w, r) && AllFinished(w, r)
    ensures r < |After(w, run).records|
    ensures After(w, run).records[r].Stored().status == Cancelled
       <==> exists k :: 0 <= k < |run| && run[k].Cancel? && run[k].record == r
  {
    FinishedAlong(w, run, r);
    var before, after := w.records[r], After(w, run).records[r];
    ReplayLast(after.created, after.log);
    if |after.log| == |before.log| {
      assert after.log == before.log;
    }
  }

  // What is retried.

  /** The end of an attempt whose body has the given outcome: queued again with nothing written, or closed as a failure
      with that text. */
  ghost predicate QueuedAgain(w: World, w': World, i: nat)
    requires Exists(w, i)
  {
    && Exists(w', i) && w'.tasks[i].record == w.tasks[i].record
    && w'.tasks[i].phase == Queued && w'.tasks[i].retries == w.tasks[i].retries + 1
    && w'.records[w.tasks[i].record] == w.records[w.tasks[i].record]
  }

  ghost predicate ClosedAsFailure(w: World, w': World, i: nat, text: string)
    requires Exists(w, i)
  {
    && Exists(w', i) && w'.tasks[i].record == w.tasks[i].record && w'.tasks[i].phase == Finished
    && var stored := w'.records[w.tasks[i].record].Stored();
    && stored.status == Failure && stored.result == Some(text)
  }

  /** The number of retries that a task of the kind has. */
  function RetryLimit(kind: Kind): nat {
    match kind
    case RdsStart => 60
    case RdsStop => 60
    case OtherTask => 3
  }

  lemma SettledAttempt(w: World, i: nat, exhausted: string, at: real)
    requires Exists(w, i) && w.tasks[i].phase.Ended? && w.clock <= at
    ensures var o, w' := w.tasks[i].phase.outcome, Next(w, Settle(i, exhausted, at));
      if o.NotYet? || o.Transient? then
        if w.tasks[i].retries < RetryLimit(w.tasks[i].kind) then QueuedAgain(w, w', i)
        else ClosedAsFailure(w, w', i, if o.NotYet? then exhausted else o.message)
      else o.Fatal? ==> ClosedAsFailure(w, w', i, o.message)
  {
    var s := Settle(i, exhausted, at);
    if !Retries(w.tasks[i]) {
      ClosingIsNeverSuppressed(w, s);
    } else {
      assert w.records[w.tasks[i].record].log + [] == w.records[w.tasks[i].record].log;
    }
  }

  /** Before its poll an attempt may raise. From any state of the system: an exception of the Kubernetes or the Vault
      client is retried, after 5 seconds and without a trace in the record, as long as there are retries left, 60 for
      an RDS task and 3 for any other; after the last one, and at once for any other exception, the record is closed as
      FAILURE with the exception's text. */
  lemma TransientErrorsAreRetried(
      w: World, i: nat, e: Exception, seen: Status, answer: Answer, exhausted: string, at: real)
    requires Exists(w, i) && w.tasks[i].phase == Started && seen in w.history && w.clock <= at
    ensures var body, settle := Body(i, Setup.Raises(e), seen, answer), Settle(i, exhausted, at);
      && Enabled(w, body) && Enabled(Next(w, body), settle)
      && var w' := Next(Next(w, body), settle);
      && (e.OtherException? || w.tasks[i].retries >= RetryLimit(w.tasks[i].kind) ==>
            ClosedAsFailure(w, w', i, e.message))
      && (!e.OtherException? && w.tasks[i].retries < RetryLimit(w.tasks[i].kind) ==>
            QueuedAgain(w, w', i) && Countdown(w'.tasks[i].outcomes[|w.tasks[i].outcomes|]) == 5)
  {
    var body := Body(i, Setup.Raises(e), seen, answer);
    AttemptEnds(w.tasks[i].kind, w.tasks[i].identifier, Setup.Raises(e), seen, answer);
    SettledAttempt(Next(w, body), i, exhausted, at);
  }

  /** A poll that finds the instance neither in the target status nor in a terminal error, and is not refused a command,
      is repeated after 30 seconds in the same way; after 60 retries the record is closed as FAILURE. */
  lemma EarlyPollsAreRepeated(w: World, i: nat, seen: Status, answer: Answer, exhausted: string, at: real)
    requires Exists(w, i) && w.tasks[i].phase == Started && seen in w.history && w.clock <= at
    requires w.tasks[i].kind != OtherTask && Enabled(w, Body(i, Setup.Ready, seen, answer))
    requires seen !in TERMINAL_ERROR_STATES
    requires var kind := w.tasks[i].kind;
      var (target, opposite) := if kind == RdsStart then (Available, Stopped) else (Stopped, Available);
      seen != target && (seen == opposite ==> answer.Accepted?)
    ensures var body, settle := Body(i, Setup.Ready, seen, answer), Settle(i, exhausted, at);
      && Enabled(Next(w, body), settle)
      && var w' := Next(Next(w, body), settle);
      && (w.tasks[i].retries >= 60 ==> ClosedAsFailure(w, w', i, exhausted))
      && (w.tasks[i].retries < 60 ==>
            QueuedAgain(w, w', i) && Countdown(w'.tasks[i].outcomes[|w.tasks[i].outcomes|]) == 30)
  {
    AttemptTable(w.tasks[i].kind, w.tasks[i].identifier, seen, answer);
    SettledAttempt(Next(w, Body(i, Setup.Ready, seen, answer)), i, exhausted, at);
  }

  // The retry budget.

  function TotalDelay(outcomes: seq<Outcome>): nat {
    if outcomes == [] then 0 else Countdown(outcomes[0]) + TotalDelay(outcomes[1..])
  }

  function Polls(outcomes: seq<Outcome>): nat {
    if outcomes == [] then 0 else (if outcomes[0].NotYet? then 1 else 0) + Polls(outcomes[1..])
  }

  function Errors(outcomes: seq<Outcome>): nat {
    if outcomes == [] then 0 else (if outcomes[0].Transient? then 1 else 0) + Errors(outcomes[1..])
  }

  lemma {:induction false} DelaySplits(outcomes: seq<Outcome>)
    requires forall k | 0 <= k < |outcomes| :: Retryable(outcomes[k])
    ensures TotalDelay(outcomes) == 30 * Polls(outcomes) + 5 * Errors(outcomes)
    ensures Polls(outcomes) + Errors(outcomes) == |outcomes|
  {
    if outcomes != [] {
      assert forall k | 0 <= k < |outcomes[1..]| :: outcomes[1..][k] == outcomes[k + 1];
      DelaySplits(outcomes[1..]);
    }
  }

  /** Polls and transient errors share one budget: an RDS task has at most 61 attempts and its retries are
      scheduled with a total delay of 30 seconds a poll and 5 an error, at most 1800 seconds. */
  lemma RetryBudget(instance: Status, now: real, run: seq<Step>, i: nat)
    requires Legal(Initial(instance, now), run)
    requires var w := After(Initial(instance, now), run);
      i < |w.tasks| && DeliveredOnce(Initial(instance, now), run, w.tasks[i].record)
    ensures var t := After(Initial(instance, now), run).tasks[i];
      && t.retries <= |t.outcomes| <= MaxRetries(t.kind) + 1
      && (t.kind != OtherTask ==> |t.outcomes| <= 61)
    ensures var t := After(Initial(instance, now), run).tasks[i];
      var retried := t.outcomes[..t.retries];
      && Polls(retried) + Errors(retried) == t.retries
      && TotalDelay(retried) == 30 * Polls(retried) + 5 * Errors(retried) <= 30 * MaxRetries(t.kind)
      && (t.kind != OtherTask ==> TotalDelay(retried) <= 1800)
  {
    var log := OnTrackFromTheStart(instance, now, run, i);
    var t := After(Initial(instance, now), run).tasks[i];
    DelaySplits(t.outcomes[..t.retries]);
  }

  /** Worker steps a task can still take. */
  function Left(t: Task): int {
    match t.phase
    case Finished => 0
    case Ended(_) => 3 * (MaxRetries(t.kind) - t.retries) + 1
    case Started => 3 * (MaxRetries(t.kind) - t.retries) + 2
    case Queued => 3 * (MaxRetries(t.kind) - t.retries) + 3
  }

  predicate WorkerStep(s: Step, i: nat) {
    (s.BeforeStart? || s.Body? || s.Settle?) && s.task == i
  }

  ghost function WorkerSteps(run: seq<Step>, i: nat): nat {
    if run == [] then 0 else (if WorkerStep(run[0], i) then 1 else 0) + WorkerSteps(run[1..], i)
  }

  ghost function Redeliveries(run: seq<Step>, i: nat): nat {
    if run == [] then 0 else (if run[0].Redeliver? && run[0].task == i then 1 else 0) + Redeliveries(run[1..], i)
  }

  /** All tasks are within their retry limits. */
  ghost predicate WithinLimits(w: World) {
    forall i | 0 <= i < |w.tasks| :: w.tasks[i].retries <= MaxRetries(w.tasks[i].kind)
  }

  lemma {:induction false} WorkerStepsAlong(w: World, run: seq<Step>, i: nat)
    requires Legal(w, run) && WithinLimits(w)
    ensures WithinLimits(After(w, run))
    ensures i < |w.tasks| ==> i < |After(w, run).tasks| && After(w, run).tasks[i].kind == w.tasks[i].kind
    ensures i < |After(w, run).tasks| ==>
      var t' := After(w, run).tasks[i];
      WorkerSteps(run, i) + Left(t') <=
      (if i < |w.tasks| then Left(w.tasks[i]) else 3 * (MaxRetries(t'.kind) + 1)) + 183 * Redeliveries(run, i)
    decreases |run|
  {
    if run != [] {
      WorkerStepsAlong(Next(w, run[0]), run[1..], i);
    }
  }

  /** Every worker stops: if it never starts over it takes at most three steps an attempt, 183 for an RDS task,
      and every restart adds at most 183... */
  lemma WorkerHalts(instance: Status, now: real, run: seq<Step>, i: nat)
    requires Legal(Initial(instance, now), run)
    requires i < |After(Initial(instance, now), run).tasks|
    ensures WorkerSteps(run, i) <= 183 * (1 + Redeliveries(run, i))
    ensures Redeliveries(run, i) == 0 ==>
      WorkerSteps(run, i) <= 3 * (MaxRetries(After(Initial(instance, now), run).tasks[i].kind) + 1)
  {
    WorkerStepsAlong(Initial(instance, now), run, i);
  }

  /** ...and until the task is finished it is never stuck. */
  lemma WorkerIsNeverStuck(instance: Status, now: real, run: seq<Step>, i: nat) returns (s: Step)
    requires Legal(Initial(instance, now), run)
    requires var w := After(Initial(instance, now), run); i < |w.tasks| && w.tasks[i].phase != Finished
    ensures WorkerStep(s, i) && Enabled(After(Initial(instance, now), run), s)
  {
    CoherentAlong(Initial(instance, now), run);
    var w := After(Initial(instance, now), run);
    match w.tasks[i].phase
    case Queued => s := BeforeStart(i, w.clock);
    case Started => s := Body(i, Setup.Raises(OtherException("")), w.instance, Refused(""));
    case Ended(_) => s := Settle(i, "", w.clock);
  }

  /** From here on the instance shows the target, the task sees it, and meets no error. */
  ghost predicate Calm(w: World, run: seq<Step>, i: nat, target: Status)
    requires Legal(w, run)
    decreases |run|
  {
    && w.instance == target
    && (run != [] ==>
      && (run[0].Body? && run[0].task == i ==> run[0].setup.Ready? && run[0].seen == target)
      && Calm(Next(w, run[0]), run[1..], i, target))
  }

  /** Worker steps that such a task still takes. */
  function CalmLeft(t: Task): nat {
    match t.phase
    case Queued => 3
    case Started => 2
    case Ended(_) => if Retries(t) then 4 else 1
    case Finished => 0
  }

  /** The attempts before the instance was ready, all retryable, and perhaps the one that found it so. */
  ghost predicate CalmTask(t: Task, before: seq<Outcome>) {
    && t.kind != OtherTask
    && |before| <= RDS_MAX_RETRIES && (forall k | 0 <= k < |before| :: Retryable(before[k]))
    && (|| (t.outcomes == before && !t.phase.Finished?)
        || (t.outcomes == before + [Done] && (t.phase == Ended(Done) || t.phase.Finished?)))
  }

  lemma CalmNext(w: World, s: Step, i: nat, before: seq<Outcome>)
    requires Enabled(w, s) && Exists(w, i) && Once(w, w.tasks[i].record) && CalmTask(w.tasks[i], before)
    requires NotAgain(w, s, w.tasks[i].record)
    requires s.Body? && s.task == i ==> s.setup.Ready? && s.seen == Target(w.tasks[i].kind)
    ensures CalmTask(Next(w, s).tasks[i], before)
    ensures CalmLeft(w.tasks[i]) == CalmLeft(Next(w, s).tasks[i]) + if WorkerStep(s, i) then 1 else 0
  {
    assert OnTrack(w.tasks[i], w.records[w.tasks[i].record].log);
  }

  lemma {:induction false} CalmAlong(w: World, run: seq<Step>, i: nat, before: seq<Outcome>)
    requires Legal(w, run) && Exists(w, i) && Once(w, w.tasks[i].record) && CalmTask(w.tasks[i], before)
    requires DeliveredOnce(w, run, w.tasks[i].record) && Calm(w, run, i, Target(w.tasks[i].kind))
    ensures var w' := After(w, run);
      && Exists(w', i) && w'.tasks[i].record == w.tasks[i].record
      && Once(w', w'.tasks[i].record) && CalmTask(w'.tasks[i], before)
      && WorkerSteps(run, i) + CalmLeft(w'.tasks[i]) == CalmLeft(w.tasks[i])
    decreases |run|
  {
    if run != [] {
      CalmNext(w, run[0], i, before);
      OnceNext(w, run[0], w.tasks[i].record);
      CalmAlong(Next(w, run[0]), run[1..], i, before);
    }
  }

  /** Such a task has ended well: with the attempt after d polls and e errors, and the writes and delays of those. */
  ghost predicate SucceededAfter(w: World, i: nat, d: nat, e: nat) {
    && Exists(w, i)
    && var t := w.tasks[i];
    && t.phase.Finished? && |t.outcomes| == d + e + 1 && t.outcomes[d + e] == Done
    && WorkerWrites(w.records[t.record].log) == Runnings(d + e + 1) + [Success]
    && TotalDelay(t.outcomes[..d + e]) == 30 * d + 5 * e
  }

  lemma CalmEnd(w: World, i: nat, before: seq<Outcome>)
    requires Exists(w, i) && Once(w, w.tasks[i].record) && CalmTask(w.tasks[i], before) && w.tasks[i].phase.Finished?
    ensures SucceededAfter(w, i, Polls(before), Errors(before))
  {
    var t := w.tasks[i];
    assert OnTrack(t, w.records[t.record].log);
    assert t.outcomes[..|before|] == before;
    DelaySplits(before);
  }

  /** An unfinished RDS task after d polls that were too early and e transient errors, d + e <= 60. */
  ghost predicate Unsettled(t: Task, d: nat, e: nat) {
    && t.kind != OtherTask && !t.phase.Finished?
    && (forall k | 0 <= k < |t.outcomes| :: Retryable(t.outcomes[k]))
    && d == Polls(t.outcomes) && e == Errors(t.outcomes) && d + e <= 60
  }

  lemma SucceedsFrom(w: World, run: seq<Step>, i: nat, d: nat, e: nat)
    requires Legal(w, run) && i < |w.tasks| && Once(w, w.tasks[i].record) && DeliveredOnce(w, run, w.tasks[i].record)
    requires Unsettled(w.tasks[i], d, e) && Calm(w, run, i, Target(w.tasks[i].kind))
    ensures var w', left := After(w, run), CalmLeft(w.tasks[i]);
      && i < |w'.tasks| && WorkerSteps(run, i) <= left <= 4
      && (WorkerSteps(run, i) < left ==> !w'.tasks[i].phase.Finished?)
      && (WorkerSteps(run, i) == left ==> SucceededAfter(w', i, d, e))
  {
    var t := w.tasks[i];
    DelaySplits(t.outcomes);
    CalmAlong(w, run, i, t.outcomes);
    if After(w, run).tasks[i].phase.Finished? {
      CalmEnd(After(w, run), i, t.outcomes);
    }
  }

  /** If the instance reaches the target and stays there after d polls that were too early and e transient errors,
      d + e <= 60, and the task then meets no error, the task is finished as soon as it has taken the worker steps it
      had left, four at most, and has then succeeded with attempt d + e + 1. */
  lemma SucceedsOnceReady(instance: Status, now: real, early: seq<Step>, run: seq<Step>, i: nat, d: nat, e: nat)
    requires Legal(Initial(instance, now), early)
    requires var w := After(Initial(instance, now), early);
      && Legal(w, run) && i < |w.tasks| && Unsettled(w.tasks[i], d, e)
      && DeliveredOnce(Initial(instance, now), early, w.tasks[i].record) && DeliveredOnce(w, run, w.tasks[i].record)
      && Calm(w, run, i, Target(w.tasks[i].kind))
    ensures var w := After(Initial(instance, now), early);
      var w', left := After(w, run), CalmLeft(w.tasks[i]);
      && i < |w'.tasks| && WorkerSteps(run, i) <= left <= 4
      && (WorkerSteps(run, i) < left ==> !w'.tasks[i].phase.Finished?)
      && (WorkerSteps(run, i) == left ==> SucceededAfter(w', i, d, e))
  {
    var w := After(Initial(instance, now), early);
    OnceAlong(Initial(instance, now), early, w.tasks[i].record);
    SucceedsFrom(w, run, i, d, e);
  }

  /** The worker alone can always take these steps. */
  lemma {:induction false} CalmWorkerFinishes(w: World, i: nat) returns (run: seq<Step>)
    requires Coherent(w) && Exists(w, i) && w.tasks[i].kind != OtherTask && w.instance == Target(w.tasks[i].kind)
    ensures Legal(w, run) && Calm(w, run, i, w.instance)
    ensures forall r: nat :: DeliveredOnce(w, run, r)
    ensures |run| == WorkerSteps(run, i) == CalmLeft(w.tasks[i])
    ensures Exists(After(w, run), i) && After(w, run).tasks[i].phase.Finished?
    decreases CalmLeft(w.tasks[i])
  {
    run := [];
    if !w.tasks[i].phase.Finished? {
      var s := match w.tasks[i].phase
        case Queued => BeforeStart(i, w.clock)
        case Started => Body(i, Setup.Ready, w.instance, Refused(""))
        case _ => Settle(i, "", w.clock);
      CoherentNext(w, s);
      var rest := CalmWorkerFinishes(Next(w, s), i);
      Precede(w, s, rest);
      run := [s] + rest;
      assert run[1..] == rest;
    }
  }

  // The record. Restarts and duplicates are part of every run from here on.

  /** The record's history of writes is one that RecordAfterWrites speaks about. */
  ghost predicate RecordKept(clock: real, r: Record) {
    && r.created == NewItem(r.created.actionId, r.created.name, r.created.owner, r.created.createdAt)
    && r.created.createdAt <= clock
    && WellTimed(r.created.createdAt, r.log)
    && (r.log != [] ==> r.log[|r.log| - 1].at <= clock)
    && (forall k | 0 <= k < |r.log| :: ProperWrite(r.kwargs, r.log[k]))
  }

  /** Writes as the program makes them, by kind. */
  predicate ProperWrite(kwargs: Args, w: Write) {
    match w
    case StatusWrite(status, _) => status == Running || status == Cancelled
    case FinalWrite(status, result, taskArgs, _) =>
      ((status == Success && result == "ok") || status == Failure) && taskArgs == kwargs - {"action"}
  }

  lemma WellTimedSnoc(created: real, log: seq<Write>, w: Write)
    requires WellTimed(created, log) && w.status != Pending && created <= w.at
    requires log != [] ==> log[|log| - 1].at <= w.at
    ensures WellTimed(created, log + [w])
  {
  }

  lemma RecordKeptWrite(clock: real, r: Record, w: Write)
    requires RecordKept(clock, r) && clock <= w.at && ProperWrite(r.kwargs, w)
    ensures RecordKept(w.at, r.(log := r.log + [w]))
  {
    WellTimedSnoc(r.created.createdAt, r.log, w);
  }

  lemma WrittenIsProper(w: World, s: Step, r: nat)
    requires Enabled(w, s) && r < |w.records| && Writes(w, s, r) && Written(w, s) != []
    ensures var written := Written(w, s)[0];
      && Written(w, s) == [written] && ProperWrite(w.records[r].kwargs, written)
      && w.clock <= written.at == Next(w, s).clock
  {
  }

  lemma RecordKeptNext(w: World, s: Step, r: nat)
    requires Enabled(w, s) && r < |w.records| && RecordKept(w.clock, w.records[r])
    ensures RecordKept(Next(w, s).clock, Next(w, s).records[r])
  {
    if Writes(w, s, r) && Written(w, s) != [] {
      WrittenIsProper(w, s, r);
      RecordKeptWrite(w.clock, w.records[r], Written(w, s)[0]);
      assert Next(w, s).records[r] == w.records[r].(log := w.records[r].log + Written(w, s));
    } else {
      assert Next(w, s).records[r] == w.records[r];
    }
  }

  lemma {:induction false} RecordsKeptAlong(w: World, run: seq<Step>)
    requires Legal(w, run) && forall r | 0 <= r < |w.records| :: RecordKept(w.clock, w.records[r])
    ensures forall r | 0 <= r < |After(w, run).records| :: RecordKept(After(w, run).clock, After(w, run).records[r])
    decreases |run|
  {
    if run != [] {
      var w' := Next(w, run[0]);
      forall r | 0 <= r < |w'.records|
        ensures RecordKept(w'.clock, w'.records[r])
      {
        if r < |w.records| {
          RecordKeptNext(w, run[0], r);
        }
      }
      RecordsKeptAlong(w', run[1..]);
    }
  }

  /** In every interleaving of API-side and worker-side writes, of several workers on one record as well: the id stays
      and is no other record's, name, owner and creation time never change, the update time is that of the last write,
      PENDING means never written, and result and arguments are both absent before the first closing write and
      afterwards both come from the latest one. */
  lemma RecordsLoseNothing(instance: Status, now: real, run: seq<Step>, r: nat)
    requires Legal(Initial(instance, now), run) && r < |After(Initial(instance, now), run).records|
    ensures var w := After(Initial(instance, now), run);
      var created, log, stored := w.records[r].created, w.records[r].log, w.records[r].Stored();
      && stored.actionId == created.actionId && stored.name == created.name
      && stored.owner == created.owner && stored.createdAt == created.createdAt
      && (forall q | 0 <= q < |w.records| && q != r :: w.records[q].created.actionId != stored.actionId)
      && stored.createdAt <= stored.updatedAt <= w.clock
      && stored.updatedAt == (if log == [] then created.createdAt else log[|log| - 1].at)
      && (stored.status == Pending <==> log == [])
      && ((forall k | 0 <= k < |log| :: log[k].StatusWrite?) <==> stored.result == None)
      && ((forall k | 0 <= k < |log| :: log[k].StatusWrite?) <==> stored.taskArgs == None)
      && (forall k: nat | LatestFinal(log, k) ::
            stored.result == Some(log[k].result) && stored.taskArgs == Some(log[k].taskArgs))
      && (stored.taskArgs != None ==> stored.taskArgs == Some(w.records[r].kwargs - {"action"}))
  {
    RecordsKeptAlong(Initial(instance, now), run);
    CoherentAlong(Initial(instance, now), run);
    var w := After(Initial(instance, now), run);
    var log := w.records[r].log;
    assert RecordKept(w.clock, w.records[r]);
    RecordAfterWrites(w.records[r].created, log);
    if j: nat :| j < |log| && log[j].FinalWrite? {
      var k := LastFinal(log, j);
    }
  }

  lemma {:induction false} EnqueuedAlong(w: World, run: seq<Step>, k: nat) returns (r: nat, i: nat)
    requires Legal(w, run) && k < |run| && run[k].Enqueue?
    ensures var w' := After(w, run);
      && Exists(w', i) && r == w'.tasks[i].record
      && w'.records[r].created == NewItem(run[k].actionId, run[k].name, run[k].owner, run[k].at)
      && w'.records[r].kwargs == run[k].kwargs
      && w'.tasks[i].kind == run[k].kind && w'.tasks[i].identifier == run[k].identifier
    decreases |run|
  {
    if k == 0 {
      r, i := |w.records|, |w.tasks|;
      StaysAlong(Next(w, run[0]), run[1..]);
    } else {
      assert run[1..][k - 1] == run[k];
      r, i := EnqueuedAlong(Next(w, run[0]), run[1..], k - 1);
    }
  }

  /** Every action that was enqueued has a record with the id, name, owner and time it was enqueued with, whatever has
      happened since, and a task that executes it with the arguments it was given. */
  lemma EnqueuedIsStored(instance: Status, now: real, run: seq<Step>, k: nat) returns (r: nat, i: nat)
    requires Legal(Initial(instance, now), run) && k < |run| && run[k].Enqueue?
    ensures var w := After(Initial(instance, now), run);
      && Exists(w, i) && r == w.tasks[i].record
      && w.tasks[i].kind == run[k].kind && w.tasks[i].identifier == run[k].identifier
      && w.records[r].kwargs == run[k].kwargs
      && var stored := w.records[r].Stored();
      && stored.actionId == run[k].actionId && stored.name == run[k].name
      && stored.owner == run[k].owner && stored.createdAt == run[k].at
  {
    r, i := EnqueuedAlong(Initial(instance, now), run, k);
    RecordsLoseNothing(instance, now, run, r);
  }

  lemma LastFinal(log: seq<Write>, r: nat) returns (k: nat)
    requires r < |log| && log[r].FinalWrite?
    ensures LatestFinal(log, k)
    decreases |log| - r
  {
    if j: nat :| r < j < |log| && log[j].FinalWrite? {
      k := LastFinal(log, j);
    } else {
      k := r;
    }
  }

  lemma {:induction false} OnlyRunning(log: seq<Write>, n: nat, kwargs: Args)
    requires WorkerWrites(log) == Runnings(n) && forall k | 0 <= k < |log| :: ProperWrite(kwargs, log[k])
    ensures forall k | 0 <= k < |log| :: log[k].StatusWrite?
  {
    if log != [] {
      var before, last := log[..|log| - 1], log[|log| - 1];
      assert forall k | 0 <= k < |before| :: before[k] == log[k];
      if last.status == Cancelled {
        OnlyRunning(before, n, kwargs);
      } else {
        assert WorkerWrites(log)[n - 1] == last.status;
        assert WorkerWrites(log)[..n - 1] == WorkerWrites(before);
        assert Runnings(n)[..n - 1] == Runnings(n - 1);
        OnlyRunning(before, n - 1, kwargs);
      }
    }
  }

  /** k is the position of the one final write, with which the worker closed the record; only cancels follow it. */
  ghost predicate ClosedAt(log: seq<Write>, k: nat, status: ActionStatus) {
    && k < |log| && log[k].FinalWrite? && log[k].status == status
    && (forall j | 0 <= j < k :: log[j].StatusWrite?)
    && (forall j | k < j < |log| :: log[j].StatusWrite? && log[j].status == Cancelled)
  }

  lemma {:induction false} OneFinalWrite(log: seq<Write>, n: nat, status: ActionStatus, kwargs: Args) returns (k: nat)
    requires status == Success || status == Failure
    requires WorkerWrites(log) == Runnings(n) + [status] && forall k | 0 <= k < |log| :: ProperWrite(kwargs, log[k])
    ensures ClosedAt(log, k, status)
  {
    var before, last := log[..|log| - 1], log[|log| - 1];
    assert forall k | 0 <= k < |before| :: before[k] == log[k];
    if last.status == Cancelled {
      k := OneFinalWrite(before, n, status, kwargs);
    } else {
      k := |log| - 1;
      assert WorkerWrites(log)[n] == last.status;
      assert WorkerWrites(log)[..n] == WorkerWrites(before);
      assert (Runnings(n) + [status])[..n] == Runnings(n);
      OnlyRunning(before, n, kwargs);
    }
  }

  /** The record of a finished action whose message is executed once: it has been closed by one final write, whose
      result and arguments it keeps; nothing but cancels has come since, and its status is CANCELLED exactly if one
      has. */
  lemma ClosedOnceThenOnlyCancelled(instance: Status, now: real, run: seq<Step>, i: nat) returns (k: nat)
    requires Legal(Initial(instance, now), run)
    requires var w := After(Initial(instance, now), run);
      && i < |w.tasks| && w.tasks[i].phase.Finished?
      && DeliveredOnce(Initial(instance, now), run, w.tasks[i].record)
    ensures Exists(After(Initial(instance, now), run), i)
    ensures var w := After(Initial(instance, now), run);
      var t := w.tasks[i];
      var log, stored := w.records[t.record].log, w.records[t.record].Stored();
      && t.outcomes != [] && ClosedAt(log, k, ClosedAs(t.outcomes[|t.outcomes| - 1]))
      && stored.status == (if k < |log| - 1 then Cancelled else ClosedAs(t.outcomes[|t.outcomes| - 1]))
      && stored.result == Some(log[k].result) && (t.outcomes[|t.outcomes| - 1].Done? ==> stored.result == Some("ok"))
      && stored.taskArgs == Some(w.records[t.record].kwargs - {"action"})
  {
    var log := OnTrackFromTheStart(instance, now, run, i);
    var w := After(Initial(instance, now), run);
    var t := w.tasks[i];
    var r := w.records[t.record];
    RecordsKeptAlong(Initial(instance, now), run);
    assert RecordKept(w.clock, r);
    k := OneFinalWrite(log, |t.outcomes|, ClosedAs(t.outcomes[|t.outcomes| - 1]), r.kwargs);
    RecordAfterWrites(r.created, log);
    assert LatestFinal(log, k);
  }
}
