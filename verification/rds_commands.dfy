/** The commands that reach the RDS instance, in every interleaving of any number of tasks. Crashes with a restart from
    scratch and duplicate messages (`Redeliver` and `Duplicate` steps) are part of every run here. A body may act on a
    status that is no longer current; the theorems are about runs in which accepted commands were timely. */
module RdsCommands {
  import opened Wrappers
  import opened RdsInstance
  import opened ActionTable
  import opened ActionTask
  import opened ActionSystem

  /** A command accepted in this step finds the instance in the status it is meant for. */
  ghost predicate InTime(w: World, s: Step)
    requires Enabled(w, s)
  {
    s.Body? && Issues(w, s) != [] ==> w.instance == Trigger(Issues(w, s)[0])
  }

  /** Every accepted command is in time. */
  ghost predicate Timely(w: World, run: seq<Step>)
    requires Legal(w, run)
    decreases |run|
  {
    run != [] ==> InTime(w, run[0]) && Timely(Next(w, run[0]), run[1..])
  }

  /** Every body acts on the status the instance shows at that moment. */
  ghost predicate Atomic(w: World, run: seq<Step>)
    requires Legal(w, run)
    decreases |run|
  {
    run != [] ==> (run[0].Body? ==> run[0].seen == w.instance) && Atomic(Next(w, run[0]), run[1..])
  }

  /** One way to timely commands is the tasks' own: polls that observe and command in one step. (The other is AWS
      refusing a command in any other status.) */
  lemma {:induction false} AtomicPollsAreTimely(w: World, run: seq<Step>)
    requires Legal(w, run) && Atomic(w, run)
    ensures Timely(w, run)
    decreases |run|
  {
    if run != [] {
      AtomicPollsAreTimely(Next(w, run[0]), run[1..]);
    }
  }

  lemma {:induction false} CommandsGrow(w: World, run: seq<Step>)
    requires Legal(w, run)
    ensures w.commands <= After(w, run).commands
    decreases |run|
  {
    if run != [] {
      CommandsGrow(Next(w, run[0]), run[1..]);
    }
  }

  /** Something outside the tasks (a user, or AWS by itself) moved the instance to the status after k commands and
      before the next one. */
  ghost predicate MovedTo(w: World, run: seq<Step>, k: nat, status: Status)
    requires Legal(w, run)
    decreases |run|
  {
    run != [] &&
    ((run[0] == InstanceMoves(status) && |w.commands| == k) || MovedTo(Next(w, run[0]), run[1..], k, status))
  }

  lemma {:induction false} CalledFor(w: World, run: seq<Step>, k: nat)
    requires Legal(w, run) && Timely(w, run) && |w.commands| <= k < |After(w, run).commands|
    ensures var c := After(w, run).commands;
      || MovedTo(w, run, k, Trigger(c[k]))
      || (|w.commands| == k && w.instance == Trigger(c[k]))
      || (|w.commands| < k && c[k] != c[k - 1])
    decreases |run|
  {
    if run != [] {
      var w' := Next(w, run[0]);
      CommandsGrow(w', run[1..]);
      if |w'.commands| <= k {
        CalledFor(w', run[1..], k);
      }
    }
  }

  /** Who is to blame for a command, in every interleaving: a command repeats the one before it only if, between the
      two, something else brought the instance back to the status they are meant for; and the first command is called
      for by the initial status, or by a status that something else brought about. */
  lemma RepetitionHasACause(instance: Status, now: real, run: seq<Step>, k: nat)
    requires Legal(Initial(instance, now), run) && Timely(Initial(instance, now), run)
    requires k < |After(Initial(instance, now), run).commands|
    ensures var c := After(Initial(instance, now), run).commands;
      || MovedTo(Initial(instance, now), run, k, Trigger(c[k]))
      || (if k == 0 then instance == Trigger(c[0]) else c[k] != c[k - 1])
  {
    CalledFor(Initial(instance, now), run, k);
  }

  /** Nobody else ever brings the instance back to the status that the last command was meant for. */
  ghost predicate NotBroughtBack(w: World, run: seq<Step>)
    requires Legal(w, run)
    decreases |run|
  {
    run != [] ==>
      && (run[0].InstanceMoves? && w.commands != [] ==> run[0].status != Trigger(w.commands[|w.commands| - 1]))
      && NotBroughtBack(Next(w, run[0]), run[1..])
  }

  lemma {:induction false} NotMovedBack(w: World, run: seq<Step>, k: nat)
    requires Legal(w, run) && NotBroughtBack(w, run) && 0 < k <= |After(w, run).commands|
    ensures !MovedTo(w, run, k, Trigger(After(w, run).commands[k - 1]))
    decreases |run|
  {
    CommandsGrow(w, run);
    if run != [] {
      NotMovedBack(Next(w, run[0]), run[1..], k);
    }
  }

  /** On an instance that nobody else brings back, starts and stops strictly alternate in every interleaving of any
      number of tasks, whatever else the instance does. */
  lemma CommandsAlternate(instance: Status, now: real, run: seq<Step>)
    requires Legal(Initial(instance, now), run) && Timely(Initial(instance, now), run)
    requires NotBroughtBack(Initial(instance, now), run)
    ensures var c := After(Initial(instance, now), run).commands;
      forall k: nat | 0 < k < |c| :: c[k] != c[k - 1]
  {
    var c := After(Initial(instance, now), run).commands;
    forall k: nat | 0 < k < |c|
      ensures c[k] != c[k - 1]
    {
      RepetitionHasACause(instance, now, run, k);
      NotMovedBack(Initial(instance, now), run, k);
    }
  }

  /** From w on, c is the next command that the tasks give without any outside move. */
  ghost predicate GivesNext(w: World, run: seq<Step>, c: Command) {
    && Legal(w, run) && (forall s | s in run :: !s.InstanceMoves?)
    && |w.commands| < |After(w, run).commands| && After(w, run).commands[|w.commands|] == c
  }

  /** They repeat the last command, with commands that find their statuses. */
  ghost predicate RepeatsUnaided(w: World, run: seq<Step>) {
    w.commands != [] && GivesNext(w, run, w.commands[|w.commands| - 1]) && Timely(w, run)
  }

  lemma {:induction false} UnaidedNeverMoved(w: World, run: seq<Step>, k: nat, status: Status)
    requires Legal(w, run) && forall s | s in run :: !s.InstanceMoves?
    ensures !MovedTo(w, run, k, status)
    decreases |run|
  {
    if run != [] {
      UnaidedNeverMoved(Next(w, run[0]), run[1..], k, status);
    }
  }

  /** A length that no id has. */
  lemma UnusedLength(records: seq<Record>) returns (n: nat)
    ensures forall r | 0 <= r < |records| :: |records[r].created.actionId| < n
  {
    if records == [] {
      n := 0;
    } else {
      var last := |records[|records| - 1].created.actionId|;
      n := UnusedLength(records[..|records| - 1]);
      n := if last < n then n else last + 1;
    }
  }

  /** A task that is about to poll and has seen the instance in the status of a command gives that command. */
  lemma PollCommands(w: World, i: nat, c: Command) returns (body: Step)
    requires Exists(w, i) && w.tasks[i].phase == Started && Trigger(c) in w.history
    requires w.tasks[i].kind == if c == StartInstance then RdsStart else RdsStop
    ensures body.Body? && body.seen == Trigger(c) && Enabled(w, body) && Next(w, body).commands == w.commands + [c]
  {
    body := Body(i, Setup.Ready, Trigger(c), Accepted(Modifying));
    assert Issues(w, body) == [c];
  }

  /** So does a new task; in time, if the instance still shows that status. */
  lemma NewTaskCommands(w: World, c: Command) returns (run: seq<Step>)
    requires Coherent(w) && Trigger(c) in w.history
    ensures GivesNext(w, run, c) && After(w, run).commands == w.commands + [c]
    ensures w.instance == Trigger(c) ==> Timely(w, run)
  {
    var n := UnusedLength(w.records);
    var kind := if c == StartInstance then RdsStart else RdsStop;
    var enqueue := Enqueue(kind, "", map[], seq(n, _ => 'x'), "", "", w.clock);
    var w1, begin := Next(w, enqueue), BeforeStart(|w.tasks|, w.clock);
    var w2 := Next(w1, begin);
    var body := PollCommands(w2, |w.tasks|, c);
    ThreeSteps(w, enqueue, begin, body);
    run := [enqueue, begin, body];
    if w.instance == Trigger(c) {
      AtomicPrecede(w2, body, []);
      AtomicPrecede(w1, begin, [body] + []);
      AtomicPrecede(w, enqueue, [begin] + ([body] + []));
      assert run == [enqueue] + ([begin] + ([body] + []));
      AtomicPollsAreTimely(w, run);
    }
  }

  lemma IssuedWasSeen(w: World, s: Step)
    requires Enabled(w, s) && s.Body? && Issues(w, s) != []
    ensures s.seen == Trigger(Issues(w, s)[0]) && Next(w, s).commands == w.commands + [Issues(w, s)[0]]
  {
  }

  /** Without outside moves, the next command was called for by something that the instance had shown already. */
  lemma {:induction false} NextWasSeen(w: World, run: seq<Step>, c: Command)
    requires GivesNext(w, run, c)
    ensures Trigger(c) in w.history
    decreases |run|
  {
    var s := run[0];
    if s.Body? && Issues(w, s) != [] {
      IssuedWasSeen(w, s);
      CommandsGrow(Next(w, s), run[1..]);
    } else {
      Unmoved(w, s);
      NextWasSeen(Next(w, s), run[1..], c);
    }
  }

  /** The exact condition for the next command, and what timeliness is worth: without any outside move, the tasks can
      give a command next exactly when the instance has ever shown the status it is meant for; they can do so in time
      exactly when it shows that status now. */
  lemma NextCommandIff(instance: Status, now: real, run: seq<Step>, c: Command)
    requires Legal(Initial(instance, now), run)
    ensures var w := After(Initial(instance, now), run);
      && ((exists more :: GivesNext(w, more, c)) <==> Trigger(c) in w.history)
      && ((exists more :: GivesNext(w, more, c) && Timely(w, more)) <==> w.instance == Trigger(c))
  {
    var w := After(Initial(instance, now), run);
    CoherentAlong(Initial(instance, now), run);
    if more :| GivesNext(w, more, c) {
      NextWasSeen(w, more, c);
    }
    if more :| GivesNext(w, more, c) && Timely(w, more) {
      CalledFor(w, more, |w.commands|);
      UnaidedNeverMoved(w, more, |w.commands|, Trigger(c));
    }
    if Trigger(c) in w.history {
      var more := NewTaskCommands(w, c);
    }
  }

  lemma {:induction false} StatusHasACause(w: World, run: seq<Step>)
    requires Legal(w, run)
    ensures var w' := After(w, run);
      || (w'.instance == w.instance && |w'.commands| == |w.commands|)
      || MovedTo(w, run, |w'.commands|, w'.instance)
      || (|w.commands| < |w'.commands| && w'.instance != Trigger(w'.commands[|w'.commands| - 1]))
    decreases |run|
  {
    CommandsGrow(w, run);
    if run != [] {
      CommandsGrow(Next(w, run[0]), run[1..]);
      StatusHasACause(Next(w, run[0]), run[1..]);
    }
  }

  /** So, after any run, the tasks can repeat the last command in time and without anybody's help exactly when the
      instance shows the status that command was meant for; and then something else has brought it back since. */
  lemma RepeatsExactlyWhenBroughtBack(instance: Status, now: real, run: seq<Step>)
    requires Legal(Initial(instance, now), run) && After(Initial(instance, now), run).commands != []
    ensures var w := After(Initial(instance, now), run);
      var back := Trigger(w.commands[|w.commands| - 1]);
      && ((exists more :: RepeatsUnaided(w, more)) <==> w.instance == back)
      && (w.instance == back ==> MovedTo(Initial(instance, now), run, |w.commands|, back))
  {
    var w := After(Initial(instance, now), run);
    var last := w.commands[|w.commands| - 1];
    StatusHasACause(Initial(instance, now), run);
    NextCommandIff(instance, now, run, last);
    if more :| GivesNext(w, more, last) && Timely(w, more) {
      assert RepeatsUnaided(w, more);
    }
  }

  /** The status that each command was meant for is in the history. */
  ghost predicate CommandsSeen(w: World) {
    forall c | c in w.commands :: Trigger(c) in w.history
  }

  lemma CommandsSeenNext(w: World, s: Step)
    requires Enabled(w, s) && CommandsSeen(w)
    ensures CommandsSeen(Next(w, s))
  {
    if s.Body? && Issues(w, s) != [] {
      IssuedWasSeen(w, s);
    }
  }

  lemma {:induction false} CommandsSeenAlong(w: World, run: seq<Step>)
    requires Legal(w, run) && CommandsSeen(w)
    ensures CommandsSeen(After(w, run))
    decreases |run|
  {
    if run != [] {
      CommandsSeenNext(w, run[0]);
      CommandsSeenAlong(Next(w, run[0]), run[1..]);
    }
  }

  /** Commands that rest on old observations are never safe: after every run that has given a command, the tasks alone
      can give it again at once. */
  lemma OldObservationsAlwaysRepeat(instance: Status, now: real, run: seq<Step>) returns (more: seq<Step>)
    requires Legal(Initial(instance, now), run) && After(Initial(instance, now), run).commands != []
    ensures var w := After(Initial(instance, now), run);
      && Legal(w, more) && (forall s | s in more :: !s.InstanceMoves?)
      && After(w, more).commands == w.commands + [w.commands[|w.commands| - 1]]
  {
    var w := After(Initial(instance, now), run);
    CommandsSeenAlong(Initial(instance, now), run);
    CoherentAlong(Initial(instance, now), run);
    more := NewTaskCommands(w, w.commands[|w.commands| - 1]);
  }

  lemma {:induction false} AtomicConcatenate(w: World, a: seq<Step>, b: seq<Step>)
    requires Legal(w, a) && Legal(After(w, a), b) && Atomic(w, a) && Atomic(After(w, a), b)
    ensures Legal(w, a + b) && Atomic(w, a + b)
    decreases |a|
  {
    Concatenate(w, a, b);
    if a == [] {
      assert a + b == b;
    } else {
      assert (a + b)[1..] == a[1..] + b;
      AtomicConcatenate(Next(w, a[0]), a[1..], b);
    }
  }

  lemma AtomicPrecede(w: World, s: Step, rest: seq<Step>)
    requires Enabled(w, s) && (s.Body? ==> s.seen == w.instance) && Legal(Next(w, s), rest) && Atomic(Next(w, s), rest)
    ensures Legal(w, [s] + rest) && Atomic(w, [s] + rest)
  {
    Precede(w, s, rest);
    assert ([s] + rest)[1..] == rest;
  }

  /** A waiting start task that could still retry. */
  ghost predicate Waiting(w: World, t: Task) {
    && w.tasks == [t] && |w.records| == 1 && t.record == 0
    && t.kind == RdsStart && t.phase == Queued && t.retries < RDS_MAX_RETRIES && Stopped in w.history
  }

  /** One attempt of such a task that has seen the instance stopped. */
  function StartRun(clock: real): seq<Step> {
    [BeforeStart(0, clock), Body(0, Setup.Ready, Stopped, Accepted(Starting)), Settle(0, "", clock)]
  }

  /** Its three worlds. */
  lemma StartAttemptWorlds(w: World, t: Task) returns (w1: World, w2: World, w3: World)
    requires Waiting(w, t)
    ensures var run := StartRun(w.clock);
      && Enabled(w, run[0]) && Next(w, run[0]) == w1 && w1.instance == w.instance
      && Enabled(w1, run[1]) && Next(w1, run[1]) == w2
      && Enabled(w2, run[2]) && Next(w2, run[2]) == w3
    ensures w3.commands == w.commands + [StartInstance] && w3.clock == w.clock
    ensures |w3.tasks| == 1 && (t.retries + 1 < RDS_MAX_RETRIES ==> Waiting(w3, w3.tasks[0]))
  {
    var run := StartRun(w.clock);
    w1 := Next(w, run[0]);
    assert w1.tasks == [t.(phase := Started)];
    assert Issues(w1, run[1]) == [StartInstance];
    w2 := Next(w1, run[1]);
    assert w2.tasks == [t.(phase := Ended(NotYet), outcomes := t.outcomes + [NotYet])];
    w3 := Next(w2, run[2]);
    assert w3.tasks == [w2.tasks[0].(phase := Queued, retries := t.retries + 1)];
  }

  /** It gives the command and waits again. */
  lemma StartAttempt(w: World, t: Task)
    requires Waiting(w, t)
    ensures Legal(w, StartRun(w.clock))
    ensures var w' := After(w, StartRun(w.clock));
      && w'.commands == w.commands + [StartInstance] && w'.clock == w.clock && |w'.tasks| == 1
      && (t.retries + 1 < RDS_MAX_RETRIES ==> Waiting(w', w'.tasks[0]))
    ensures w.instance == Stopped ==> Atomic(w, StartRun(w.clock))
  {
    var run := StartRun(w.clock);
    var w1, w2, w3 := StartAttemptWorlds(w, t);
    ThreeSteps(w, run[0], run[1], run[2]);
    if w.instance == Stopped {
      AtomicPrecede(w2, run[2], []);
      AtomicPrecede(w1, run[1], [run[2]] + []);
      AtomicPrecede(w, run[0], [run[1]] + ([run[2]] + []));
      assert run == [run[0]] + ([run[1]] + ([run[2]] + []));
    }
  }

  /** Brought back, the instance does not get alternating commands: stopped once by hand, it is started twice
      by one task, although every poll is atomic. */
  lemma OutsideStopBreaksAlternation(kwargs: Args) returns (run: seq<Step>)
    ensures Legal(Initial(Stopped, 0.0), run) && Atomic(Initial(Stopped, 0.0), run)
    ensures After(Initial(Stopped, 0.0), run).commands == [StartInstance, StartInstance]
  {
    var w0 := Initial(Stopped, 0.0);
    var enqueue := Enqueue(RdsStart, "db", kwargs, "id", "rds-start", "alice", 0.0);
    var w1, attempt := Next(w0, enqueue), StartRun(0.0);
    StartAttempt(w1, w1.tasks[0]);
    var w2 := After(w1, attempt);
    var w3 := Next(w2, InstanceMoves(Stopped));
    StartAttempt(w3, w3.tasks[0]);
    AtomicPrecede(w2, InstanceMoves(Stopped), attempt);
    Precede(w2, InstanceMoves(Stopped), attempt);
    AtomicConcatenate(w1, attempt, [InstanceMoves(Stopped)] + attempt);
    Concatenate(w1, attempt, [InstanceMoves(Stopped)] + attempt);
    run := attempt + ([InstanceMoves(Stopped)] + attempt);
    AtomicPrecede(w0, enqueue, run);
    Precede(w0, enqueue, run);
    run := [enqueue] + run;
  }

  /** With commands that come late the law fails as well: nobody else touches the instance, but a second command is
      accepted on the strength of an old observation. */
  lemma OldObservationStartsTwice(kwargs: Args) returns (run: seq<Step>)
    ensures Legal(Initial(Stopped, 0.0), run) && forall s | s in run :: !s.InstanceMoves?
    ensures After(Initial(Stopped, 0.0), run).commands == [StartInstance, StartInstance]
  {
    var w0 := Initial(Stopped, 0.0);
    var enqueue := Enqueue(RdsStart, "db", kwargs, "id", "rds-start", "alice", 0.0);
    var w1, attempt := Next(w0, enqueue), StartRun(0.0);
    StartAttempt(w1, w1.tasks[0]);
    var w2 := After(w1, attempt);
    StartAttempt(w2, w2.tasks[0]);
    Concatenate(w1, attempt, attempt);
    run := attempt + attempt;
    Precede(w0, enqueue, run);
    run := [enqueue] + run;
  }

  function Count(commands: seq<Command>, c: Command): nat {
    if commands == [] then 0
    else Count(commands[..|commands| - 1], c) + (if commands[|commands| - 1] == c then 1 else 0)
  }

  /** How many separate stretches of the history show the status. */
  function Episodes(history: seq<Status>, s: Status): nat {
    if history == [] then 0
    else
      var n := |history| - 1;
      Episodes(history[..n], s) + (if history[n] == s && (n == 0 || history[n - 1] != s) then 1 else 0)
  }

  /** The history ends with what the instance shows, and each start used up a STOPPED episode of its own. */
  ghost predicate StartsPaidFor(w: World) {
    && w.history != [] && w.history[|w.history| - 1] == w.instance
    && Count(w.commands, StartInstance) + (if w.instance == Stopped then 1 else 0) <= Episodes(w.history, Stopped)
  }

  lemma EpisodesSnoc(history: seq<Status>, status: Status, s: Status)
    ensures Episodes(history + [status], s) ==
      Episodes(history, s) + (if status == s && (history == [] || history[|history| - 1] != s) then 1 else 0)
  {
    assert (history + [status])[..|history|] == history;
  }

  lemma CountSnoc(commands: seq<Command>, c: Command, x: Command)
    ensures Count(commands + [c], x) == Count(commands, x) + (if c == x then 1 else 0)
  {
    assert (commands + [c])[..|commands|] == commands;
  }

  /** Nothing but a command or an outsider changes what the instance shows. */
  lemma Unmoved(w: World, s: Step)
    requires Enabled(w, s) && !s.InstanceMoves? && (s.Body? ==> Issues(w, s) == [])
    ensures var w' := Next(w, s); w'.history == w.history && w'.commands == w.commands && w'.instance == w.instance
  {
  }

  lemma StartsPaidForNext(w: World, s: Step)
    requires Enabled(w, s) && StartsPaidFor(w) && InTime(w, s)
    ensures StartsPaidFor(Next(w, s))
  {
    if s.InstanceMoves? {
      EpisodesSnoc(w.history, s.status, Stopped);
    } else if s.Body? && Issues(w, s) != [] {
      var c := Issues(w, s)[0];
      assert Issues(w, s) == [c];
      EpisodesSnoc(w.history, s.answer.next, Stopped);
      CountSnoc(w.commands, c, StartInstance);
    } else {
      Unmoved(w, s);
    }
  }

  lemma {:induction false} StartsPaidForAlong(w: World, run: seq<Step>)
    requires Legal(w, run) && Timely(w, run) && StartsPaidFor(w)
    ensures StartsPaidFor(After(w, run))
    decreases |run|
  {
    if run != [] {
      StartsPaidForNext(w, run[0]);
      StartsPaidForAlong(Next(w, run[0]), run[1..]);
    }
  }

  /** Whatever the instance does on its own, whoever crashes and however often a message is delivered again:
      there are never more starts than times the instance was found stopped. */
  lemma StartsWithinStoppedEpisodes(instance: Status, now: real, run: seq<Step>)
    requires Legal(Initial(instance, now), run) && Timely(Initial(instance, now), run)
    ensures var w := After(Initial(instance, now), run);
      Count(w.commands, StartInstance) <= Episodes(w.history, Stopped)
  {
    assert [instance][..0] == [];
    StartsPaidForAlong(Initial(instance, now), run);
  }

  // The mirror: starts and stops, and AVAILABLE and STOPPED, exchanged everywhere.

  function MirrorKind(kind: Kind): Kind {
    match kind
    case RdsStart => RdsStop
    case RdsStop => RdsStart
    case OtherTask => OtherTask
  }

  function MirrorAnswer(answer: Answer): Answer {
    if answer.Accepted? then Accepted(Mirror(answer.next)) else answer
  }

  function MirrorStep(s: Step): Step {
    match s
    case Enqueue(kind, _, _, _, _, _, _) => s.(kind := MirrorKind(kind))
    case Body(_, _, seen, answer) => s.(seen := Mirror(seen), answer := MirrorAnswer(answer))
    case InstanceMoves(status) => InstanceMoves(Mirror(status))
    case _ => s
  }

  function MirrorTask(t: Task): Task {
    t.(kind := MirrorKind(t.kind))
  }

  function MirrorHistory(history: seq<Status>): seq<Status> {
    seq(|history|, i requires 0 <= i < |history| => Mirror(history[i]))
  }

  function MirrorCommands(commands: seq<Command>): seq<Command> {
    seq(|commands|, i requires 0 <= i < |commands| => MirrorCommand(commands[i]))
  }

  function MirrorWorld(w: World): World {
    World(
      w.records,
      seq(|w.tasks|, i requires 0 <= i < |w.tasks| => MirrorTask(w.tasks[i])),
      Mirror(w.instance), MirrorHistory(w.history), MirrorCommands(w.commands), w.clock)
  }

  function MirrorRun(run: seq<Step>): seq<Step> {
    seq(|run|, i requires 0 <= i < |run| => MirrorStep(run[i]))
  }

  lemma MirrorAttempt(kind: Kind, identifier: string, setup: Setup, status: Status, answer: Answer)
    ensures Attempt(MirrorKind(kind), identifier, setup, Mirror(status), MirrorAnswer(answer))
         == Attempt(kind, identifier, setup, status, answer)
    ensures var c := Commands(kind, setup, status, answer);
      Commands(MirrorKind(kind), setup, Mirror(status), MirrorAnswer(answer))
      == if c == [] then [] else [MirrorCommand(c[0])]
  {
    StopMirrorsStart(status);
    StopMirrorsStart(Mirror(status));
  }

  lemma MirrorSeen(history: seq<Status>, status: Status)
    requires status in history
    ensures Mirror(status) in MirrorHistory(history)
  {
    var k :| 0 <= k < |history| && history[k] == status;
    assert MirrorHistory(history)[k] == Mirror(status);
  }

  lemma MirrorIssues(w: World, s: Step)
    requires s.Body? && s.task < |w.tasks|
    ensures Issues(MirrorWorld(w), MirrorStep(s)) == MirrorCommands(Issues(w, s))
  {
    MirrorAttempt(w.tasks[s.task].kind, w.tasks[s.task].identifier, s.setup, s.seen, s.answer);
  }

  lemma MirrorEnabled(w: World, s: Step)
    requires Enabled(w, s)
    ensures Enabled(MirrorWorld(w), MirrorStep(s))
  {
    if s.Body? {
      MirrorIssues(w, s);
      MirrorSeen(w.history, s.seen);
    }
  }

  lemma MirrorNext(w: World, s: Step)
    requires Enabled(w, s) && Enabled(MirrorWorld(w), MirrorStep(s))
    ensures Next(MirrorWorld(w), MirrorStep(s)) == MirrorWorld(Next(w, s))
  {
    if s.Body? {
      MirrorIssues(w, s);
      MirrorAttempt(w.tasks[s.task].kind, w.tasks[s.task].identifier, s.setup, s.seen, s.answer);
    }
    var m, m' := Next(MirrorWorld(w), MirrorStep(s)), MirrorWorld(Next(w, s));
    assert m.records == m'.records;
    assert m.tasks == m'.tasks;
    assert m.history == m'.history;
    assert m.commands == m'.commands;
  }

  lemma MirrorInTime(w: World, s: Step)
    requires Enabled(w, s) && Enabled(MirrorWorld(w), MirrorStep(s))
    ensures InTime(w, s) ==> InTime(MirrorWorld(w), MirrorStep(s))
  {
    if s.Body? {
      MirrorIssues(w, s);
    }
  }

  /** The mirror image of a run is a run, and ends in the mirror image of the world. */
  lemma {:induction false} MirrorImage(w: World, run: seq<Step>)
    requires Legal(w, run)
    ensures Legal(MirrorWorld(w), MirrorRun(run))
    ensures After(MirrorWorld(w), MirrorRun(run)) == MirrorWorld(After(w, run))
    ensures Timely(w, run) ==> Timely(MirrorWorld(w), MirrorRun(run))
    decreases |run|
  {
    if run != [] {
      MirrorEnabled(w, run[0]);
      MirrorNext(w, run[0]);
      MirrorInTime(w, run[0]);
      MirrorImage(Next(w, run[0]), run[1..]);
      assert MirrorRun(run)[1..] == MirrorRun(run[1..]);
    }
  }

  lemma {:induction false} MirrorCount(commands: seq<Command>)
    ensures Count(MirrorCommands(commands), StartInstance) == Count(commands, StopInstance)
    decreases |commands|
  {
    if commands != [] {
      var n := |commands| - 1;
      MirrorCount(commands[..n]);
      assert MirrorCommands(commands)[..n] == MirrorCommands(commands[..n]);
    }
  }

  lemma {:induction false} MirrorEpisodes(history: seq<Status>)
    ensures Episodes(MirrorHistory(history), Stopped) == Episodes(history, Available)
    decreases |history|
  {
    if history != [] {
      var n := |history| - 1;
      MirrorEpisodes(history[..n]);
      assert MirrorHistory(history)[..n] == MirrorHistory(history[..n]);
    }
  }

  /** The theorem about starts, read in the mirror. */
  lemma StopsWithinAvailableEpisodes(instance: Status, now: real, run: seq<Step>)
    requires Legal(Initial(instance, now), run) && Timely(Initial(instance, now), run)
    ensures var w := After(Initial(instance, now), run);
      Count(w.commands, StopInstance) <= Episodes(w.history, Available)
  {
    var w := After(Initial(instance, now), run);
    MirrorImage(Initial(instance, now), run);
    assert MirrorWorld(Initial(instance, now)) == Initial(Mirror(instance), now);
    StartsWithinStoppedEpisodes(Mirror(instance), now, MirrorRun(run));
    MirrorCount(w.commands);
    MirrorEpisodes(w.history);
  }
}
