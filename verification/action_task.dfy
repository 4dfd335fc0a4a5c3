/** The worker's side of an action: how one attempt ends, what the task callbacks write,
    and the retry settings. */
module ActionTask {
  import opened Wrappers
  import opened RdsInstance
  import opened ActionTable

  const RDS_STATUS_POLL_COUNTDOWN: nat := 30
  const DEFAULT_RETRY_DELAY: nat := 5
  const DEFAULT_MAX_RETRIES: nat := 3
  const RDS_MAX_RETRIES: nat := 60

  /** RDS start and stop poll an instance; every other task runs a body of its own. */
  datatype Kind = RdsStart | RdsStop | OtherTask

  function MaxRetries(kind: Kind): nat {
    if kind == OtherTask then DEFAULT_MAX_RETRIES else RDS_MAX_RETRIES
  }

  datatype Exception = ApiException(message: string) | VaultError(message: string) | OtherException(message: string)

  /** How an attempt ends: it returns, asks to be retried, or raises. */
  datatype Outcome = Done | NotYet | Transient(message: string) | Fatal(message: string)

  /** `autoretry_for` turns exactly the Kubernetes and Vault exceptions into retries. */
  function Raised(e: Exception): Outcome {
    if e.OtherException? then Fatal(e.message) else Transient(e.message)
  }

  predicate Retryable(o: Outcome) {
    o.NotYet? || o.Transient?
  }

  function Countdown(o: Outcome): nat {
    if o.NotYet? then RDS_STATUS_POLL_COUNTDOWN else DEFAULT_RETRY_DELAY
  }

  /** What happens before a poll can decide: the lookup, the credentials and the status query
      all succeed, or one of them raises. */
  datatype Setup = Ready | Raises(e: Exception)

  function OutcomeOf(identifier: string, r: RunResult): Outcome {
    match r
    case Returned(true) => Done
    case Returned(false) => NotYet
    case ClientError(message) => Fatal(message)
    case RuntimeError(status) =>
      Fatal("RDS instance " + identifier + " entered terminal error state '" + Text(status) + "'")
  }

  function PollOf(kind: Kind, status: Status): Poll
    requires kind != OtherTask
  {
    if kind == RdsStart then StartPoll(status) else StopPoll(status)
  }

  /** An attempt's outcome. A body that is not an RDS poll either returns or raises. */
  function Attempt(kind: Kind, identifier: string, setup: Setup, status: Status, answer: Answer): Outcome {
    if setup.Raises? then Raised(setup.e)
    else if kind == OtherTask then Done
    else OutcomeOf(identifier, RunOf(PollOf(kind, status), status, answer))
  }

  /** The command an attempt gets accepted, if any. */
  function Commands(kind: Kind, setup: Setup, status: Status, answer: Answer): seq<Command> {
    if setup.Raises? || kind == OtherTask then [] else Issued(PollOf(kind, status), answer)
  }

  function StatusAfter(kind: Kind, setup: Setup, status: Status, answer: Answer): Status {
    if Commands(kind, setup, status, answer) == [] then status else answer.next
  }

  /** The status a start or a stop waits for. */
  function Target(kind: Kind): Status {
    if kind == RdsStart then Available else Stopped
  }

  /** How an attempt ends. An exception of the Kubernetes or Vault client asks for a retry and any other one is fatal,
      before any command; a body that is no poll is done. */
  lemma AttemptEnds(kind: Kind, identifier: string, setup: Setup, status: Status, answer: Answer)
    requires setup.Raises? || kind == OtherTask
    ensures Commands(kind, setup, status, answer) == []
    ensures Attempt(kind, identifier, setup, status, answer) ==
      match setup
      case Ready => Done
      case Raises(ApiException(message)) => Transient(message)
      case Raises(VaultError(message)) => Transient(message)
      case Raises(OtherException(message)) => Fatal(message)
  {
  }

  /** What an attempt that gets to its poll means: done exactly in the target status, failed for good exactly on a
      terminal error or a refused command, with the text that says so, and otherwise to be repeated; one command is
      sent, and only from the status opposite to the target. */
  lemma AttemptTable(kind: Kind, identifier: string, status: Status, answer: Answer)
    requires kind != OtherTask
    ensures var o := Attempt(kind, identifier, Setup.Ready, status, answer);
      var (target, opposite) := if kind == RdsStart then (Available, Stopped) else (Stopped, Available);
      var terminal := {
        Failed, IncompatibleNetwork, IncompatibleOptionGroup, IncompatibleParameters, IncompatibleRestore,
        InaccessibleEncryptionCredentials, InaccessibleEncryptionCredentialsRecoverable, RestoreError, StorageFull};
      && target == Target(kind)
      && (o == Done <==> status == target)
      && (o.Fatal? <==> status in terminal || (status == opposite && answer.Refused?))
      && (status in terminal ==>
            o.message == "RDS instance " + identifier + " entered terminal error state '" + Text(status) + "'")
      && (status == opposite && answer.Refused? ==> o.message == answer.message)
      && !o.Transient?
      && Commands(kind, Setup.Ready, status, answer) ==
         (if status == opposite && answer.Accepted?
          then [if kind == RdsStart then StartInstance else StopInstance] else [])
  {
  }

  method ExternalResourceRdsStart(api: AwsApi, identifier: string, setup: Setup, answer: Answer) returns (o: Outcome)
    modifies api
    ensures o == Attempt(RdsStart, identifier, setup, old(api.status), answer)
    ensures api.commands == old(api.commands) + Commands(RdsStart, setup, old(api.status), answer)
    ensures api.status == StatusAfter(RdsStart, setup, old(api.status), answer)
  {
    if setup.Raises? {
      return Raised(setup.e);
    }
    var task := new ExternalResourceRDSStart(api);
    var r := task.Run(answer);
    match r
    case Returned(ready) => o := if !ready then NotYet else Done;
    case RuntimeError(status) =>
      o := Raised(OtherException(
        "RDS instance " + identifier + " entered terminal error state '" + Text(status) + "'"));
    case ClientError(message) => o := Raised(OtherException(message));
  }

  method ExternalResourceRdsStop(api: AwsApi, identifier: string, setup: Setup, answer: Answer) returns (o: Outcome)
    modifies api
    ensures o == Attempt(RdsStop, identifier, setup, old(api.status), answer)
    ensures api.commands == old(api.commands) + Commands(RdsStop, setup, old(api.status), answer)
    ensures api.status == StatusAfter(RdsStop, setup, old(api.status), answer)
  {
    if setup.Raises? {
      return Raised(setup.e);
    }
    var task := new ExternalResourceRDSStop(api);
    var r := task.Run(answer);
    match r
    case Returned(ready) => o := if !ready then NotYet else Done;
    case RuntimeError(status) =>
      o := Raised(OtherException(
        "RDS instance " + identifier + " entered terminal error state '" + Text(status) + "'"));
    case ClientError(message) => o := Raised(OtherException(message));
  }

  /** The task's keyword arguments without the action object itself. */
  function TaskKwargsToStore(kwargs: Args): Args {
    kwargs - {"action"}
  }

  /** The write with which a finished attempt closes the record. */
  function ClosingWrite(o: Outcome, exhausted: string, kwargs: Args, now: real): Write {
    match o
    case Done => FinalWrite(Success, "ok", TaskKwargsToStore(kwargs), now)
    case NotYet => FinalWrite(Failure, exhausted, TaskKwargsToStore(kwargs), now)
    case Transient(message) => FinalWrite(Failure, message, TaskKwargsToStore(kwargs), now)
    case Fatal(message) => FinalWrite(Failure, message, TaskKwargsToStore(kwargs), now)
  }

  class AutomatedActionTask {
    static method BeforeStart(action: Action, now: real)
      requires action.Valid()
      modifies action, action.table
      ensures action.Valid()
      ensures action.table.items == old(action.table.items)[action.actionId :=
        Apply(old(action.table.items[action.actionId]), StatusWrite(Running, now))]
    {
      action.SetStatus(Running, now);
    }

    static method OnSuccess(action: Action, kwargs: Args, now: real)
      requires action.Valid()
      modifies action, action.table
      ensures action.Valid()
      ensures action.table.items == old(action.table.items)[action.actionId :=
        Apply(old(action.table.items[action.actionId]), ClosingWrite(Done, "", kwargs, now))]
    {
      action.SetFinalState(Success, "ok", TaskKwargsToStore(kwargs), now);
    }

    static method OnFailure(action: Action, exc: Exception, kwargs: Args, now: real)
      requires action.Valid()
      modifies action, action.table
      ensures action.Valid()
      ensures action.table.items == old(action.table.items)[action.actionId :=
        Apply(old(action.table.items[action.actionId]), ClosingWrite(Raised(exc), "", kwargs, now))]
    {
      action.SetFinalState(Failure, exc.message, TaskKwargsToStore(kwargs), now);
    }
  }

  /** `action-cancel`: the status is set whatever it was. */
  method ActionCancel(action: Action, now: real)
    requires action.Valid()
    modifies action, action.table
    ensures action.Valid()
    ensures action.table.items == old(action.table.items)[action.actionId :=
      Apply(old(action.table.items[action.actionId]), StatusWrite(Cancelled, now))]
  {
    action.SetStatus(Cancelled, now);
  }
}
