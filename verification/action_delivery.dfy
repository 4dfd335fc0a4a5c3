/** When a record that has been closed is written to again: exact conditions over every continuation of every run, and
    small runs in which it happens. */
module ActionDelivery {
  import opened Wrappers
  import opened RdsInstance
  import opened ActionTable
  import opened ActionTask
  import opened ActionSystem
  import opened ActionLifecycle

  /** Along the run, somebody other than a cancelling user writes to record r. */
  ghost predicate WorkerWritesMore(w: World, run: seq<Step>, r: nat)
    requires Legal(w, run)
  {
    && r < |w.records| && r < |After(w, run).records|
    && var log := After(w, run).records[r].log;
    exists k: nat :: |w.records[r].log| <= k < |log| && log[k].status != Cancelled
  }

  /** Along the run, FAILURE is written to record r, and in the end it is stored. */
  ghost predicate FailsMore(w: World, run: seq<Step>, r: nat)
    requires Legal(w, run)
  {
    && r < |w.records| && r < |After(w, run).records|
    && After(w, run).records[r].Stored().status == Failure
    && var log := After(w, run).records[r].log;
    exists k: nat :: |w.records[r].log| <= k < |log| && log[k].status == Failure
  }

  /** The worker alone can always go on to the closing write, and to FAILURE unless its body is already done. */
  lemma {:induction false} WorkerCloses(w: World, i: nat) returns (run: seq<Step>)
    requires Coherent(w) && Exists(w, i) && !w.tasks[i].phase.Finished?
    ensures Legal(w, run) && forall r: nat :: DeliveredOnce(w, run, r)
    ensures w.tasks[i].record < |After(w, run).records|
    ensures var before, after := w.records[w.tasks[i].record].log, After(w, run).records[w.tasks[i].record].log;
      && |before| < |after|
      && after[|after| - 1].status == if w.tasks[i].phase == Ended(Done) then Success else Failure
    decreases CalmLeft(w.tasks[i])
  {
    var s := match w.tasks[i].phase
      case Queued => BeforeStart(i, w.clock)
      case Started => Body(i, Setup.Raises(OtherException("")), w.instance, Refused(""))
      case _ => Settle(i, "", w.clock);
    CoherentNext(w, s);
    var rest := [];
    if !Next(w, s).tasks[i].phase.Finished? {
      rest := WorkerCloses(Next(w, s), i);
    }
    Precede(w, s, rest);
    run := [s] + rest;
    assert run[1..] == rest;
  }

  /** A record is closed for good exactly when every worker on it is finished: after any run, with any restarts and
      duplicates in it, some continuation without a further delivery has a worker write to the record once more if and
      only if a worker on it is not finished. */
  lemma ClosedForGoodIffAllFinished(instance: Status, now: real, run: seq<Step>, r: nat)
    requires Legal(Initial(instance, now), run) && r < |After(Initial(instance, now), run).records|
    ensures var w := After(Initial(instance, now), run);
      (exists more :: Legal(w, more) && DeliveredOnce(w, more, r) && WorkerWritesMore(w, more, r))
      <==> !AllFinished(w, r)
  {
    var w := After(Initial(instance, now), run);
    if more :| Legal(w, more) && DeliveredOnce(w, more, r) && WorkerWritesMore(w, more, r) {
      if AllFinished(w, r) {
        FinishedAlong(w, more, r);
        assert false;
      }
    }
    if !AllFinished(w, r) {
      CoherentAlong(Initial(instance, now), run);
      var i :| 0 <= i < |w.tasks| && w.tasks[i].record == r && w.tasks[i].phase != Finished;
      var more := WorkerCloses(w, i);
      assert WorkerWritesMore(w, more, r);
    }
  }

  /** No worker on record r can still fail. */
  ghost predicate AllDone(w: World, r: nat) {
    forall i | 0 <= i < |w.tasks| && w.tasks[i].record == r ::
      w.tasks[i].phase == Finished || w.tasks[i].phase == Ended(Done)
  }

  lemma {:induction false} DoneAlong(w: World, run: seq<Step>, r: nat)
    requires Legal(w, run) && DeliveredOnce(w, run, r) && r < |w.records| && AllDone(w, r)
    ensures r < |After(w, run).records| && w.records[r].log <= After(w, run).records[r].log
    ensures var log := After(w, run).records[r].log;
      forall k | |w.records[r].log| <= k < |log| :: log[k].status != Failure
    decreases |run|
  {
    if run != [] {
      DoneAlong(Next(w, run[0]), run[1..], r);
    }
  }

  /** FAILURE can still come over whatever is stored, SUCCESS included, exactly when some worker on the record is
      neither finished nor done with its body. */
  lemma FailureCanFollowIff(instance: Status, now: real, run: seq<Step>, r: nat)
    requires Legal(Initial(instance, now), run) && r < |After(Initial(instance, now), run).records|
    ensures var w := After(Initial(instance, now), run);
      (exists more :: Legal(w, more) && DeliveredOnce(w, more, r) && FailsMore(w, more, r))
      <==> !AllDone(w, r)
  {
    var w := After(Initial(instance, now), run);
    if more :| Legal(w, more) && DeliveredOnce(w, more, r) && FailsMore(w, more, r) {
      if AllDone(w, r) {
        DoneAlong(w, more, r);
        assert false;
      }
    }
    if !AllDone(w, r) {
      CoherentAlong(Initial(instance, now), run);
      var i :| 0 <= i < |w.tasks| && w.tasks[i].record == r
        && w.tasks[i].phase != Finished && w.tasks[i].phase != Ended(Done);
      var more := WorkerCloses(w, i);
      ReplayLast(After(w, more).records[r].created, After(w, more).records[r].log);
      assert FailsMore(w, more, r);
    }
  }

  lemma {:induction false} EveryRecordHasAWorker(w: World, run: seq<Step>, r: nat) returns (i: nat)
    requires Legal(w, run) && |w.records| <= r < |After(w, run).records|
    ensures i < |After(w, run).tasks| && After(w, run).tasks[i].record == r
    decreases |run|
  {
    var s := run[0];
    if r < |Next(w, s).records| {
      i := |w.tasks|;
      StaysAlong(Next(w, s), run[1..]);
    } else {
      i := EveryRecordHasAWorker(Next(w, s), run[1..], r);
    }
  }

  /** With a further delivery nothing is ever closed for good, and any record can end in FAILURE. */
  lemma AnotherDeliveryReopens(instance: Status, now: real, run: seq<Step>, r: nat) returns (more: seq<Step>)
    requires Legal(Initial(instance, now), run) && r < |After(Initial(instance, now), run).records|
    ensures Legal(After(Initial(instance, now), run), more) && FailsMore(After(Initial(instance, now), run), more, r)
  {
    var w := After(Initial(instance, now), run);
    var i := EveryRecordHasAWorker(Initial(instance, now), run, r);
    CoherentAlong(Initial(instance, now), run);
    var again := Redeliver(i, 0);
    CoherentNext(w, again);
    var rest := WorkerCloses(Next(w, again), i);
    Precede(w, again, rest);
    more := [again] + rest;
    ReplayLast(After(w, more).records[r].created, After(w, more).records[r].log);
  }

  // Two runs in which it happens.

  /** A world with one record and one worker on it. */
  ghost predicate Single(w: World, t: Task, r: Record) {
    w.tasks == [t] && w.records == [r] && t.record == 0 && t.kind == OtherTask && w.instance in w.history
  }

  /** The body and the end of an attempt that succeeds at once. */
  lemma QuickEnd(w: World, t: Task, r: Record, answer: Answer)
    requires Single(w, t, r) && t.phase == Started
    ensures var body, settle := Body(0, Setup.Ready, w.instance, answer), Settle(0, "", w.clock);
      && Enabled(w, body) && Enabled(Next(w, body), settle)
      && var w' := Next(Next(w, body), settle);
         |w'.tasks| == 1 && w'.tasks[0].record == 0
         && w'.records == [r.(log := r.log + [ClosingWrite(Done, "", r.kwargs, w.clock)])]
  {
    var w1 := Next(w, Body(0, Setup.Ready, w.instance, answer));
    assert w1 == w.(tasks := [t.(phase := Ended(Done), outcomes := t.outcomes + [Done])]);
  }

  /** One attempt of a waiting task. */
  lemma QuickAttempt(w: World, t: Task, r: Record, answer: Answer) returns (run: seq<Step>)
    requires Single(w, t, r) && t.phase == Queued
    ensures Legal(w, run)
    ensures var w' := After(w, run);
      && |w'.tasks| == 1 && w'.tasks[0].record == 0 && |w'.records| == 1
      && WorkerWrites(w'.records[0].log) == WorkerWrites(r.log) + [Running] + [Success]
  {
    var begin, settle := BeforeStart(0, w.clock), Settle(0, "", w.clock);
    var body := Body(0, Setup.Ready, w.instance, answer);
    var running := StatusWrite(Running, w.clock);
    var t1, r1 := t.(phase := Started), r.(log := r.log + [running]);
    assert Next(w, begin) == w.(tasks := [t1], records := [r1]);
    QuickEnd(Next(w, begin), t1, r1, answer);
    LoggedWrite(r.log, running);
    LoggedWrite(r1.log, ClosingWrite(Done, "", r.kwargs, w.clock));
    ThreeSteps(w, begin, body, settle);
    run := [begin, body, settle];
  }

  /** A message delivered again after the end makes the worker write RUNNING after SUCCESS. */
  lemma RedeliveryReopens(kwargs: Args, answer: Answer) returns (run: seq<Step>)
    ensures Legal(Initial(Available, 0.0), run)
    ensures var w := After(Initial(Available, 0.0), run);
      |w.records| == 1 && WorkerWrites(w.records[0].log) == [Running, Success, Running]
  {
    var enqueue := Enqueue(OtherTask, "", kwargs, "id", "no-op", "alice", 0.0);
    var w0 := Initial(Available, 0.0);
    var w1 := Next(w0, enqueue);
    var attempt := QuickAttempt(w1, w1.tasks[0], w1.records[0], answer);
    var w2 := After(w1, attempt);
    var again, begin := Redeliver(0, 0), BeforeStart(0, w2.clock);
    var w3 := Next(w2, again);
    LoggedWrite(w3.records[0].log, StatusWrite(Running, w2.clock));
    Precede(w3, begin, []);
    Precede(w2, again, [begin] + []);
    Concatenate(w1, attempt, [again] + ([begin] + []));
    run := attempt + ([again] + ([begin] + []));
    Precede(w0, enqueue, run);
    run := [enqueue] + run;
  }

  /** Two workers on one record, both about to run the body: the first succeeds, the second raises. */
  lemma TwoEnds(w: World, t: Task, r: Record, answer: Answer, message: string) returns (run: seq<Step>)
    requires w.tasks == [t, t] && w.records == [r] && t.record == 0 && t.kind == OtherTask && t.phase == Started
    requires w.instance in w.history
    ensures Legal(w, run) && |After(w, run).records| == 1
    ensures After(w, run).records[0].log == r.log +
      [ClosingWrite(Done, "", r.kwargs, w.clock)] + [ClosingWrite(Fatal(message), "", r.kwargs, w.clock)]
  {
    var body, settle := Body(0, Setup.Ready, w.instance, answer), Settle(0, "", w.clock);
    var body', settle' := Body(1, Setup.Raises(OtherException(message)), w.instance, answer), Settle(1, "", w.clock);
    var w1 := w.(tasks := [t.(phase := Ended(Done), outcomes := t.outcomes + [Done]), t]);
    assert Next(w, body) == w1;
    var r2 := r.(log := r.log + [ClosingWrite(Done, "", r.kwargs, w.clock)]);
    var w2 := w1.(tasks := [w1.tasks[0].(phase := Finished), t], records := [r2]);
    assert Next(w1, settle) == w2;
    var failed := t.(phase := Ended(Fatal(message)), outcomes := t.outcomes + [Fatal(message)]);
    var w3 := w2.(tasks := [w2.tasks[0], failed]);
    assert Next(w2, body') == w3;
    Precede(w3, settle', []);
    Precede(w2, body', [settle'] + []);
    Precede(w1, settle, [body'] + ([settle'] + []));
    run := [settle] + ([body'] + ([settle'] + []));
    Precede(w, body, run);
    run := [body] + run;
  }

  /** A duplicate delivered at once: both workers have begun. */
  lemma TwoBegin(kwargs: Args) returns (run: seq<Step>, r: Record)
    ensures Legal(Initial(Available, 0.0), run)
    ensures r == Record(
      NewItem("id", "no-op", "alice", 0.0), kwargs, [StatusWrite(Running, 0.0)] + [StatusWrite(Running, 0.0)])
    ensures var t := Task(0, OtherTask, "", Started, 0, []);
      After(Initial(Available, 0.0), run) == World([r], [t, t], Available, [Available], [], 0.0)
  {
    var w0, enqueue := Initial(Available, 0.0), Enqueue(OtherTask, "", kwargs, "id", "no-op", "alice", 0.0);
    var created := Record(NewItem("id", "no-op", "alice", 0.0), kwargs, []);
    var waiting, started := Task(0, OtherTask, "", Queued, 0, []), Task(0, OtherTask, "", Started, 0, []);
    var w1 := w0.(records := [created], tasks := [waiting]);
    assert Next(w0, enqueue) == w1;
    var w2 := w1.(tasks := [waiting, waiting]);
    assert Next(w1, Duplicate(0, 0)) == w2;
    var w3 := w2.(records := [created.(log := [StatusWrite(Running, 0.0)])], tasks := [started, waiting]);
    assert created.log + [StatusWrite(Running, 0.0)] == [StatusWrite(Running, 0.0)];
    assert Next(w2, BeforeStart(0, 0.0)) == w3;
    r := created.(log := [StatusWrite(Running, 0.0)] + [StatusWrite(Running, 0.0)]);
    assert Next(w3, BeforeStart(1, 0.0)) == w3.(records := [r], tasks := [started, started]);
    ThreeSteps(w1, Duplicate(0, 0), BeforeStart(0, 0.0), BeforeStart(1, 0.0));
    run := [Duplicate(0, 0), BeforeStart(0, 0.0), BeforeStart(1, 0.0)];
    Precede(w0, enqueue, run);
    run := [enqueue] + run;
  }

  /** A duplicate that runs beside the first worker can turn the SUCCESS of the record into FAILURE. */
  lemma DuplicateOverwrites(kwargs: Args, answer: Answer, message: string) returns (run: seq<Step>)
    ensures Legal(Initial(Available, 0.0), run)
    ensures var w := After(Initial(Available, 0.0), run);
      && |w.records| == 1 && WorkerWrites(w.records[0].log) == [Running, Running, Success, Failure]
      && w.records[0].Stored().status == Failure && w.records[0].Stored().result == Some(message)
  {
    var begin, r := TwoBegin(kwargs);
    var w := After(Initial(Available, 0.0), begin);
    var end := TwoEnds(w, w.tasks[0], r, answer, message);
    Concatenate(Initial(Available, 0.0), begin, end);
    run := begin + end;
    var done, failed := ClosingWrite(Done, "", kwargs, 0.0), ClosingWrite(Fatal(message), "", kwargs, 0.0);
    LoggedWrite([], StatusWrite(Running, 0.0));
    LoggedWrite([StatusWrite(Running, 0.0)], StatusWrite(Running, 0.0));
    LoggedWrite(r.log, done);
    LoggedWrite(r.log + [done], failed);
    assert (r.log + [done] + [failed])[..|r.log + [done]|] == r.log + [done];
  }
}
