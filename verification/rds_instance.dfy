/** The RDS instance as the start and stop tasks see it: its statuses, the two
    polls, and the symmetry between them. */
module RdsInstance {
  import opened Wrappers

  datatype Status =
    | Available | BackingUp | Creating | Deleting | Failed
    | InaccessibleEncryptionCredentials | InaccessibleEncryptionCredentialsRecoverable
    | IncompatibleNetwork | IncompatibleOptionGroup | IncompatibleParameters | IncompatibleRestore
    | Maintenance | Modifying | Rebooting | RestoreError | Starting | Stopped | Stopping
    | StorageFull | StorageOptimization | Upgrading

  const TERMINAL_ERROR_STATES: set<Status> := {
    Failed, IncompatibleNetwork, IncompatibleOptionGroup, IncompatibleParameters, IncompatibleRestore,
    InaccessibleEncryptionCredentials, InaccessibleEncryptionCredentialsRecoverable, RestoreError, StorageFull
  }

  /** The enum's string value, as error messages show it. */
  function Text(status: Status): string {
    match status
    case Available => "available"
    case BackingUp => "backing-up"
    case Creating => "creating"
    case Deleting => "deleting"
    case Failed => "failed"
    case InaccessibleEncryptionCredentials => "inaccessible-encryption-credentials"
    case InaccessibleEncryptionCredentialsRecoverable => "inaccessible-encryption-credentials-recoverable"
    case IncompatibleNetwork => "incompatible-network"
    case IncompatibleOptionGroup => "incompatible-option-group"
    case IncompatibleParameters => "incompatible-parameters"
    case IncompatibleRestore => "incompatible-restore"
    case Maintenance => "maintenance"
    case Modifying => "modifying"
    case Rebooting => "rebooting"
    case RestoreError => "restore-error"
    case Starting => "starting"
    case Stopped => "stopped"
    case Stopping => "stopping"
    case StorageFull => "storage-full"
    case StorageOptimization => "storage-optimization"
    case Upgrading => "upgrading"
  }

  datatype Command = StartInstance | StopInstance

  /** What one poll decides from the status it observed. */
  datatype Poll = Ready | NotReady(command: Option<Command>) | TerminalError

  function StartPoll(status: Status): Poll {
    if status == Available then Ready
    else if status in TERMINAL_ERROR_STATES then TerminalError
    else NotReady(if status == Stopped then Some(StartInstance) else None)
  }

  function StopPoll(status: Status): Poll {
    if status == Stopped then Ready
    else if status in TERMINAL_ERROR_STATES then TerminalError
    else NotReady(if status == Available then Some(StopInstance) else None)
  }

  /** The status in which a command is given. */
  function Trigger(command: Command): Status {
    match command
    case StartInstance => Stopped
    case StopInstance => Available
  }

  /** Exchanges the up side and the down side. */
  function Mirror(status: Status): Status {
    match status
    case Available => Stopped
    case Stopped => Available
    case Starting => Stopping
    case Stopping => Starting
    case other => other
  }

  function MirrorCommand(command: Command): Command {
    match command
    case StartInstance => StopInstance
    case StopInstance => StartInstance
  }

  function MirrorPoll(poll: Poll): Poll {
    match poll
    case NotReady(Some(command)) => NotReady(Some(MirrorCommand(command)))
    case other => other
  }

  /** The stop poll is the start poll seen in the mirror; the terminal errors lie on the mirror's axis. */
  lemma StopMirrorsStart(status: Status)
    ensures StopPoll(status) == MirrorPoll(StartPoll(Mirror(status)))
    ensures Mirror(status) in TERMINAL_ERROR_STATES <==> status in TERMINAL_ERROR_STATES
    ensures Mirror(Mirror(status)) == status
  {
  }

  /** How AWS answers the command a poll may send; `next` is the status the instance shows after accepting it. */
  datatype Answer = Accepted(next: Status) | Refused(message: string)

  datatype RunResult = Returned(ready: bool) | RuntimeError(status: Status) | ClientError(message: string)

  /** A run as its poll demands it, when the command it may send is answered with `answer`. */
  function RunOf(poll: Poll, status: Status, answer: Answer): RunResult {
    match poll
    case Ready => Returned(true)
    case TerminalError => RuntimeError(status)
    case NotReady(None) => Returned(false)
    case NotReady(Some(_)) => if answer.Refused? then ClientError(answer.message) else Returned(false)
  }

  /** The accepted command, if there is one. */
  function Issued(poll: Poll, answer: Answer): seq<Command> {
    if poll.NotReady? && poll.command.Some? && answer.Accepted? then [poll.command.value] else []
  }

  class AwsApi {
    var status: Status
    var commands: seq<Command>  // the commands the instance accepted, oldest first

    constructor (status: Status)
      ensures this.status == status && commands == []
    {
      this.status := status;
      commands := [];
    }

    method GetRdsInstanceStatus() returns (s: Status)
      ensures s == status
    {
      s := status;
    }

    method Send(command: Command, answer: Answer) returns (ok: bool)
      modifies this
      ensures ok == answer.Accepted?
      ensures status == (if ok then answer.next else old(status))
      ensures commands == old(commands) + (if ok then [command] else [])
    {
      ok := answer.Accepted?;
      if ok {
        commands := commands + [command];
        status := answer.next;
      }
    }
  }

  class ExternalResourceRDSStart {
    const awsApi: AwsApi

    constructor (awsApi: AwsApi)
      ensures this.awsApi == awsApi
    {
      this.awsApi := awsApi;
    }

    method Run(answer: Answer) returns (r: RunResult)
      modifies awsApi
      ensures r == RunOf(StartPoll(old(awsApi.status)), old(awsApi.status), answer)
      ensures awsApi.commands == old(awsApi.commands) + Issued(StartPoll(old(awsApi.status)), answer)
      ensures awsApi.status ==
              if Issued(StartPoll(old(awsApi.status)), answer) == [] then old(awsApi.status) else answer.next
    {
      var status := awsApi.GetRdsInstanceStatus();
      if status == Available {
        return Returned(true);
      }
      if status in TERMINAL_ERROR_STATES {
        return RuntimeError(status);
      }
      if status == Stopped {
        var ok := awsApi.Send(StartInstance, answer);
        if !ok {
          return ClientError(answer.message);
        }
      }
      return Returned(false);
    }
  }

  class ExternalResourceRDSStop {
    const awsApi: AwsApi

    constructor (awsApi: AwsApi)
      ensures this.awsApi == awsApi
    {
      this.awsApi := awsApi;
    }

    method Run(answer: Answer) returns (r: RunResult)
      modifies awsApi
      ensures r == RunOf(StopPoll(old(awsApi.status)), old(awsApi.status), answer)
      ensures awsApi.commands == old(awsApi.commands) + Issued(StopPoll(old(awsApi.status)), answer)
      ensures awsApi.status ==
              if Issued(StopPoll(old(awsApi.status)), answer) == [] then old(awsApi.status) else answer.next
    {
      var status := awsApi.GetRdsInstanceStatus();
      if status == Stopped {
        return Returned(true);
      }
      if status in TERMINAL_ERROR_STATES {
        return RuntimeError(status);
      }
      if status == Available {
        var ok := awsApi.Send(StopInstance, answer);
        if !ok {
          return ClientError(answer.message);
        }
      }
      return Returned(false);
    }
  }
}
