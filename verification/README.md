# Automated actions: a verified model

The service lets users enqueue actions (starting or stopping an RDS instance, flushing a cache, ...), a Celery worker
carries them out, and a table keeps one record per action. This project models the protocols and loops whose behaviour
over a whole run cannot be read off one function, and proves what they keep.

* **Actions and RDS polling.** `rds_instance.dfy` has the two polls as executed on an instance and as functions;
  `action_table.dfy` the table, the copies of a record that the API and the worker hold, and the effect of any history
  of attribute-level writes; `action_task.dfy` the attempt outcomes, the retry settings and the task callbacks.
  `action_system.dfy` puts any number of actions, their workers, cancelling users and one RDS instance into one
  world that moves one step at a time. `rds_commands.dfy`, `action_lifecycle.dfy` and `action_delivery.dfy` prove
  theorems about every run.
* **The SPNEGO client.** `base64.dfy` and `negotiate.dfy` are the header syntax (section 4 of RFC 4648, section 4 of
  RFC 4559); `spnego.dfy` is the flow, against an arbitrary server and an arbitrary GSS library.
* **Waiting for a Kubernetes job.** `job_wait.dfy`: a loop against a clock.
* **Search, merge and translation.** `external_resource.dfy`, `opa.dfy`, `oidc.dfy`, `action_query.dfy`, `cli.dfy`,
  `vault.dfy`.

Code that updates objects is modelled by classes and methods. Each method is tied by its contract to a function of its
inputs or of the old state, and the theorems are about those functions. Choices of the environment (replies of AWS, of
the cluster, of a server, of the GSS library; clock readings; fresh identifiers) are parameters, so that a theorem
holds for all of them.

## Assumptions

* Celery: every attempt calls `before_start`; a retry beyond `max_retries` fails the task instead; exactly one of
  `on_success` and `on_failure` closes it; `on_retry` writes nothing. An attempt is three steps here (`BeforeStart`,
  `Body`, `Settle`), and anything may happen between them.
* A message may be executed again: by a worker that starts over after a crash (the step `Redeliver`), or by another
  worker beside the first, on the same record (`Duplicate`). Both are **in** for the theorems of `rds_commands.dfy`, for
  `RecordsLoseNothing`, `ClosingIsNeverSuppressed`, `WorkerIsNeverStuck` and the first clause of `WorkerHalts`. They are
  **out**, by `DeliveredOnce`, for the record concerned in `WorkerWritesSpellALife`, `RetryBudget`, `SucceedsOnceReady`,
  `ClosedOnceThenOnlyCancelled` and (after the closing write) `CancelledIffCancelledAfterwards`. What executions more
  than once can do to a closed record is the subject of `action_delivery.dfy`, where they may be part of every run.
* Ids of new actions are fresh.
* A body step may act on any status the instance has ever shown. The theorems about commands are for runs in which
  every accepted command still finds its status (`Timely`): because polls observe and command in one step
  (`AtomicPollsAreTimely`), or because AWS refuses other commands. `NextCommandIff` says exactly what that is
  worth, and `OldObservationsAlwaysRepeat` that without it a command can be repeated after every run. An accepted
  command leaves the status it is meant for at once.
* `CommandsAlternate` is about runs in which nothing but a task brings the instance back to the status that the last
  command was meant for (`NotBroughtBack`, a condition on the outside moves alone). Other outside moves are free.
  `RepetitionHasACause` names the outside move behind any repeated command, and `RepeatsExactlyWhenBroughtBack` says
  exactly when the tasks can repeat one. RDS starting a stopped instance by itself after a week is such a move;
  `StartsWithinStoppedEpisodes` holds even then.
* Clocks do not run backwards. A sleep lasts at least its interval; only the theorems about promptness also bound it
  from above.
* `response.request` is the request sent last, and a successful GSS step yields a token.
* OIDC states are ideally signed, nonces are fresh, and only a login sets the state cookie. How the library splits
  URLs is a parameter; all that is known is that "/" has neither scheme nor host.

## Findings

* A secret without a version on a KV v2 mount always ends in a `ValueError`: the callers print the missing version as
  "None". The error meant for it is unreachable from them, and the latest version is never asked for
  (`CallerVersionArrives`).
* REQUIRED keeps its promise, that every response below 400 handed back is authenticated, if and only if
  `opportunistic_auth` is set (`RequiredIsKeptIffOpportunistic`). Without it a server that never sends a 401 is believed
  (`RequiredIsNotEnough`), because the final check is skipped when there is no context (`UncheckedWithoutContext`). The
  comment at the head of the file promises authentication without that condition; the model follows the code.
* A bare mount and the same mount with a slash at its end address the same secret; there is no other such pair
  (`SameAddress`).
* Cancelling an action before its closing write neither stops the worker nor lasts: the worker goes on, comes to its end
  and makes the closing write (`WorkerIsNeverStuck`, `WorkerHalts`, `WorkerWritesSpellALife`, `ClosingIsNeverSuppressed`).
  A cancel after it lasts, without undoing anything (`ClosedOnceThenOnlyCancelled`, `CancelledIffCancelledAfterwards`).
* A record is not closed by a closing write when its message is executed more than once. Workers may still write to it
  exactly when one of them is not finished (`ClosedForGoodIffAllFinished`), and FAILURE may still come over SUCCESS exactly when one of them is neither finished
  nor done with its body (`FailureCanFollowIff`). A further delivery always reopens it (`AnotherDeliveryReopens`).
  `RedeliveryReopens` and `DuplicateOverwrites` are small examples.

## Model

| member | source | states |
|---|---|---|
| `RdsInstance.ExternalResourceRDSStart.Run` | packages/automated_actions/automated_actions/celery/external_resource/tasks.py:108-118 | A start poll returns true, raises or asks for a retry as its status demands, and sends a start command exactly when the instance is stopped |
| `RdsInstance.ExternalResourceRDSStop.Run` | packages/automated_actions/automated_actions/celery/external_resource/tasks.py:150-160 | The same for a stop poll, which commands exactly when the instance is available |
| `RdsInstance.StopMirrorsStart` | packages/automated_actions_utils/automated_actions_utils/aws_api.py:46-56 | Stopping is starting with AVAILABLE and STOPPED exchanged, and the terminal errors are fixed by that exchange |
| `ActionTask.AttemptTable` | packages/automated_actions/automated_actions/celery/external_resource/tasks.py:108-160 | A poll is done exactly in the target status, fatal exactly on one of the nine terminal errors or a refused command, with the text that says which, and otherwise repeated; it commands once, exactly from the opposite status |
| `ActionTask.AttemptEnds` | packages/automated_actions/automated_actions/celery/automated_action_task.py:18-21 | Before a poll a Kubernetes or Vault exception asks for a retry, any other one is fatal, and no command is sent |
| `ActionTask.ExternalResourceRdsStart` | packages/automated_actions/automated_actions/celery/external_resource/tasks.py:121-140 | Outcome of a start attempt: done, not yet, transient (Kubernetes and Vault errors) or fatal, together with the instance's new status and commands |
| `ActionTask.ExternalResourceRdsStop` | packages/automated_actions/automated_actions/celery/external_resource/tasks.py:163-182 | Outcome of a stop attempt |
| `RdsCommands.AtomicPollsAreTimely` | packages/automated_actions/automated_actions/celery/external_resource/tasks.py:108-160 | Polls that observe and command in one step give every command in the status it is meant for |
| `RdsCommands.RepetitionHasACause` | packages/automated_actions/automated_actions/celery/external_resource/tasks.py:108-160 | In every interleaving of any number of start and stop tasks, a command repeats the one before it only if, between the two, an outside move brought the instance back to the status they are meant for; the first command is called for by the initial status or by an outside move |
| `RdsCommands.CommandsAlternate` | packages/automated_actions/automated_actions/celery/external_resource/tasks.py:108-160 | In every such interleaving on an instance that nothing else brings back to the status of the last command, starts and stops strictly alternate in the global command trace, whatever else the instance does |
| `RdsCommands.NextCommandIff` | packages/automated_actions/automated_actions/celery/external_resource/tasks.py:108-160 | After any run and without any outside move, the tasks can give a command next exactly when the instance has ever shown the status it is meant for; in time, exactly when it shows that status now |
| `RdsCommands.RepeatsExactlyWhenBroughtBack` | packages/automated_actions/automated_actions/celery/external_resource/tasks.py:108-160 | After any run, the tasks can repeat the last command in time and without any outside move exactly when the instance shows the status that command was meant for, and then an outside move has brought it there since |
| `RdsCommands.OutsideStopBreaksAlternation` | packages/automated_actions/automated_actions/celery/external_resource/tasks.py:116-118 | Stopped once by hand, an instance is started twice by one task, although every poll is atomic |
| `RdsCommands.OldObservationStartsTwice` | packages/automated_actions/automated_actions/celery/external_resource/tasks.py:110-118 | If AWS accepts a command that rests on an old observation, one task starts an instance twice that nobody else touches |
| `RdsCommands.OldObservationsAlwaysRepeat` | packages/automated_actions/automated_actions/celery/external_resource/tasks.py:108-160 | After every run that has given a command, a task acting on an old observation can give it again at once, with no outside move |
| `RdsCommands.StartsWithinStoppedEpisodes` | packages/automated_actions/automated_actions/celery/external_resource/tasks.py:101-118 | Re-execution is idempotent: over any run, with crashes, redeliveries, concurrent tasks and outside actors, there are never more start commands than separate episodes of STOPPED |
| `RdsCommands.MirrorImage` | packages/automated_actions/automated_actions/celery/external_resource/tasks.py:101-160 | Exchanging start and stop, and the two sides of the instance, turns every run of the whole system into a run and its end into the mirrored end |
| `RdsCommands.StopsWithinAvailableEpisodes` | packages/automated_actions/automated_actions/celery/external_resource/tasks.py:143-160 | Never more stop commands than episodes of AVAILABLE, obtained from the theorem about starts through the mirror |
| `ActionTable.Action.Create` | packages/automated_actions/automated_actions/db/models/_base.py:33-48 | A new record is pending, has no result and no arguments, and both its timestamps are the creation time |
| `ActionTable.Action.Update` | packages/automated_actions/automated_actions/db/models/_base.py:50-60 | An update is applied to the stored record, not to the stale copy it goes through; it also sets the update time, and touches no other record |
| `ActionTable.Action.SetStatus` | packages/automated_actions/automated_actions/db/models/_action.py:79-80 | A status write changes the status and the update time of the stored record and nothing else |
| `ActionTable.Action.SetFinalState` | packages/automated_actions/automated_actions/db/models/_action.py:82-91 | A final write changes status, result, arguments and update time of the stored record and nothing else |
| `ActionTable.CancelThroughStaleCopy` | packages/automated_actions/automated_actions/db/models/_action.py:79-91 | A cancellation through a copy loaded earlier keeps the result stored since |
| `ActionTable.RecordAfterWrites` | packages/automated_actions/automated_actions/db/models/_action.py:73-91 | After any history of writes, identity and creation time are unchanged, status and update time are the last write's, PENDING means no write, and result and arguments come from the same latest final write or are both absent |
| `ActionTask.AutomatedActionTask.BeforeStart` | packages/automated_actions/automated_actions/celery/automated_action_task.py:23-30 | Starting an attempt writes RUNNING whatever the status was |
| `ActionTask.AutomatedActionTask.OnSuccess` | packages/automated_actions/automated_actions/celery/automated_action_task.py:32-44 | Success writes SUCCESS, "ok" and the arguments without the action |
| `ActionTask.AutomatedActionTask.OnFailure` | packages/automated_actions/automated_actions/celery/automated_action_task.py:55-68 | Failure writes FAILURE, the exception's text and the arguments without the action |
| `ActionTask.ActionCancel` | packages/automated_actions/automated_actions/api/v1/views/action.py:94-99 | Cancelling writes CANCELLED whatever the status was |
| `ActionLifecycle.WorkerWritesSpellALife` | packages/automated_actions/automated_actions/celery/automated_action_task.py:18-67 | With any number of cancels in between, the worker's status writes spell RUNNING^n and, at the end, one SUCCESS or FAILURE; 1 <= n <= max_retries + 1 in a completed run; all attempts before the last were retryable, and success means the last was done |
| `ActionLifecycle.TransientErrorsAreRetried` | packages/automated_actions/automated_actions/celery/automated_action_task.py:18-21 | From any state of the system, an attempt that raises a Kubernetes or Vault exception is queued again after 5 s, with nothing written, while fewer than 60 (RDS) or 3 (other) retries have been used; after that, and at once for any other exception, the record holds FAILURE and the exception's text |
| `ActionLifecycle.EarlyPollsAreRepeated` | packages/automated_actions/automated_actions/celery/external_resource/tasks.py:121-140 | A poll that came too early is queued again after 30 s in the same way, and fails after 60 retries |
| `ActionLifecycle.ClosingIsNeverSuppressed` | packages/automated_actions/automated_actions/celery/automated_action_task.py:32-67 | An attempt settled for good writes its final status, its result text and the arguments, also over an earlier cancel or another worker's writes |
| `ActionLifecycle.ClosedOnceThenOnlyCancelled` | packages/automated_actions/automated_actions/celery/automated_action_task.py:23-67 | The record of a finished action, executed once, holds exactly one final write, made by the last attempt; only cancels follow it; result and arguments are its own, and the status is CANCELLED exactly when a cancel follows |
| `ActionLifecycle.CancelledIffCancelledAfterwards` | packages/automated_actions/automated_actions/api/v1/views/action.py:94-99 | Once its workers are done, a closed record is CANCELLED exactly when a cancel came later |
| `ActionDelivery.ClosedForGoodIffAllFinished` | packages/automated_actions/automated_actions/celery/automated_action_task.py:23-67 | After any run, with restarts and duplicates in it, some continuation without a further delivery has a worker write to a record again if and only if a worker on it is not finished |
| `ActionDelivery.FailureCanFollowIff` | packages/automated_actions/automated_actions/celery/automated_action_task.py:55-67 | After any run, FAILURE can still be written and stay, over SUCCESS as well, if and only if some worker on the record is neither finished nor done with its body |
| `ActionDelivery.AnotherDeliveryReopens` | packages/automated_actions/automated_actions/celery/automated_action_task.py:23-67 | After any run, a further delivery can turn any record into FAILURE |
| `ActionDelivery.RedeliveryReopens` | packages/automated_actions/automated_actions/celery/automated_action_task.py:23-30 | A small example of a reopened record: after a further delivery the worker writes RUNNING after SUCCESS |
| `ActionDelivery.DuplicateOverwrites` | packages/automated_actions/automated_actions/celery/automated_action_task.py:23-67 | A small example of a failure that follows: of two workers on one record, the one that fails later turns SUCCESS into FAILURE with its own result text |
| `ActionLifecycle.RetryBudget` | packages/automated_actions/automated_actions/celery/automated_action_task.py:18-21 | Polls and transient errors share one budget: at most 61 attempts of an RDS task, scheduled with a total delay of 30 s a poll and 5 s an error, at most 1800 s |
| `ActionLifecycle.WorkerHalts` | packages/automated_actions/automated_actions/celery/external_resource/tasks.py:121-140 | Every worker stops: at most three steps an attempt, and at most 183 more for each restart |
| `ActionLifecycle.WorkerIsNeverStuck` | packages/automated_actions/automated_actions/celery/automated_action_task.py:18-21 | An unfinished task always has a next worker step |
| `ActionLifecycle.SucceedsOnceReady` | packages/automated_actions/automated_actions/celery/external_resource/tasks.py:29-140 | If the instance becomes and stays AVAILABLE (STOPPED for a stop) after d early polls and e transient errors, d + e <= 60, and no other error follows and later polls see it, the task is finished exactly after the worker steps it had left, at most four, and has then succeeded with attempt d + e + 1 after a delay of 30 d + 5 e |
| `ActionLifecycle.CalmWorkerFinishes` | packages/automated_actions/automated_actions/celery/external_resource/tasks.py:29-140 | The worker can take those steps by itself from any state of the system |
| `ActionLifecycle.RecordsLoseNothing` | packages/automated_actions/automated_actions/db/models/_base.py:33-60 | In every interleaving of API-side and worker-side writes, with several workers on one record as well, a record keeps its identity, which no other record has, and its creation time, and result and arguments are both absent or both of the latest final write; the arguments are the enqueued ones without the action |
| `ActionLifecycle.EnqueuedIsStored` | packages/automated_actions/automated_actions/db/models/_action.py:73-77 | After any run, each enqueued action has a record with the id, name, owner and time it was enqueued with, and a task that executes it with its arguments |
| `Base64.DecodeEncode` | packages/automated_actions_cli/automated_actions_cli/_gssapi.py:66-263 | Lenient decoding undoes encoding for every byte string |
| `Base64.ForeignCharacterIsSkipped` | packages/automated_actions_cli/automated_actions_cli/_gssapi.py:62-67 | An ASCII character outside the alphabet makes no difference to what is decoded, wherever it stands |
| `Base64.UnpaddedDecodesIffWhole` | packages/automated_actions_cli/automated_actions_cli/_gssapi.py:62-67 | Without padding, exactly texts of whole quads can be decoded |
| `Base64.CompletePaddingEnds` | packages/automated_actions_cli/automated_actions_cli/_gssapi.py:62-67 | A complete padding ends the input, whatever follows it |
| `Negotiate.TokenRoundTrip` | packages/automated_actions_cli/automated_actions_cli/_gssapi.py:44-67 | The token printed in a Negotiate header is read back, for every byte string, also after challenges that do not contain the word and before further ones |
| `Negotiate.ChallengeIsRead` | packages/automated_actions_cli/automated_actions_cli/_gssapi.py:44-67 | The challenge is found with its name in any case, after other challenges and with any white space behind it; the text up to the next comma is decoded and malformed exactly if that fails |
| `Negotiate.NoChallengeIffNameless` | packages/automated_actions_cli/automated_actions_cli/_gssapi.py:62-67 | There is no challenge exactly if the header is missing or the name does not occur in it |
| `Spnego.HTTPSPNEGOAuth.AuthFlow` | packages/automated_actions_cli/automated_actions_cli/_gssapi.py:172-176 | The flow over mutable requests and responses makes the same GSS calls, sends the same headers and ends the same way as the flow function |
| `Spnego.HTTPSPNEGOAuth.HandleResponse` | packages/automated_actions_cli/automated_actions_cli/_gssapi.py:178-205 | The loop over 401 responses computes the flow function |
| `Spnego.HTTPSPNEGOAuth.HandleMutualAuth` | packages/automated_actions_cli/automated_actions_cli/_gssapi.py:207-249 | The decision about the final response, with the response emptied in place where it has to be |
| `Spnego.HTTPSPNEGOAuth.SetAuthHeader` | packages/automated_actions_cli/automated_actions_cli/_gssapi.py:251-271 | A new context and its header are set together; after a GSS error both stay as they were |
| `Spnego.Response.Sanitize` | packages/automated_actions_cli/automated_actions_cli/_gssapi.py:70-79 | Sanitizing overwrites content, cookies and headers of the response |
| `Spnego.SanitizedKeepsNothing` | packages/automated_actions_cli/automated_actions_cli/_gssapi.py:70-79 | Only status, date and server survive sanitizing |
| `Spnego.HeaderIsTheContextsToken` | packages/automated_actions_cli/automated_actions_cli/_gssapi.py:172-271 | Every request carries the token of the context current when it is sent, also when a later step failed and the old header is resent; each request after the first answers a 401 challenge; at most 3 requests reach any server |
| `Spnego.ChallengesAreAnswered` | packages/automated_actions_cli/automated_actions_cli/_gssapi.py:172-271 | Every 401 challenge that the flow answers, it answers with the first token of the next context, made from the challenge's token or none if that is empty; only if the library fails does the request repeat what the one before carried; an opportunistic flow sends its own token first, or nothing exactly if there is none |
| `Spnego.FinalCheck` | packages/automated_actions_cli/automated_actions_cli/_gssapi.py:201-249 | The library is asked about the token of the final response, with the current context, exactly if the mode is not DISABLED, there is a context and the response is no 401 |
| `Spnego.MalformedIsAnError` | packages/automated_actions_cli/automated_actions_cli/_gssapi.py:62-67 | A flow ends with a decoding error exactly if it looks at a malformed token: in a 401 to be answered or a final response to be checked |
| `Spnego.ChallengeIsInTheHeader` | packages/automated_actions_cli/automated_actions_cli/_gssapi.py:62-67 | Challenges come from the www-authenticate header alone |
| `Spnego.HeaderIsUnderstood` | packages/automated_actions_cli/automated_actions_cli/_gssapi.py:62-270 | Reading a header that agrees with a context gives that context's token |
| `Spnego.ContextIsNewest` | packages/automated_actions_cli/automated_actions_cli/_gssapi.py:192-205 | The context used for the decision came from the latest successful step, or there was none |
| `Spnego.UnauthorizedHandedBack` | packages/automated_actions_cli/automated_actions_cli/_gssapi.py:181-203 | A flow that ends with a 401 hands it back exactly when no challenge was offered in it or two were answered |
| `Spnego.RequiredMode` | packages/automated_actions_cli/automated_actions_cli/_gssapi.py:207-249 | REQUIRED returns a non-401 response below 400 (context given) exactly when that response carried a token the context accepted; an error without a token comes back emptied |
| `Spnego.OptionalMode` | packages/automated_actions_cli/automated_actions_cli/_gssapi.py:221-243 | In every flow, OPTIONAL raises a mutual-authentication error exactly when the final response is no 401, there is a context and a token is present and rejected; it hands back the last response unchanged |
| `Spnego.DisabledMode` | packages/automated_actions_cli/automated_actions_cli/_gssapi.py:215-217 | DISABLED never raises a mutual-authentication error and never steps a context after the final response |
| `Spnego.UncheckedWithoutContext` | packages/automated_actions_cli/automated_actions_cli/_gssapi.py:201-203 | Without a context a non-401 response is returned as it is, in every mode |
| `Spnego.RequiredIsKeptIffOpportunistic` | packages/automated_actions_cli/automated_actions_cli/_gssapi.py:172-205 | REQUIRED hands back only authenticated responses below 400, against every server, if and only if a context is made before the first request |
| `JobWait.Wait` | packages/automated_actions_utils/automated_actions_utils/openshift_client.py:200-250 | The loop ends with its first late or decisive round: it returns only on succeeded >= 1, raises PodError only on failed > backoff limit without success, TimeoutError only when late, and another API error as it comes |
| `JobWait.OneEnding` | packages/automated_actions_utils/automated_actions_utils/openshift_client.py:210-250 | Clock and readings determine the ending and the number of reads |
| `JobWait.PollBound` | packages/automated_actions_utils/automated_actions_utils/openshift_client.py:208-250 | At most floor(timeout / interval) + 1 reads for any job |
| `JobWait.PollBoundIsReached` | packages/automated_actions_utils/automated_actions_utils/openshift_client.py:208-250 | The bound is exact: a job that never gets a status is read that often on a clock that only sleeps |
| `JobWait.RunJobPolls` | packages/automated_actions_utils/automated_actions_utils/openshift_client.py:252-272 | A job that is run and waited for is read at most 121 times, and 121 times if it never gets a status |
| `JobWait.TimeoutIsPrompt` | packages/automated_actions_utils/automated_actions_utils/openshift_client.py:210-212 | A timeout is raised no later than timeout + interval + one read |
| `JobWait.SuccessIsSeen` | packages/automated_actions_utils/automated_actions_utils/openshift_client.py:208-250 | A job that has succeeded for good by timeout - interval - one read, with no fatal reading before, is seen to succeed |
| `JobWait.FailureIsSeen` | packages/automated_actions_utils/automated_actions_utils/openshift_client.py:208-250 | A job whose failed pods exceed its limit for good by then is seen to fail, with their number |
| `JobWait.OtherErrorsEndTheWait` | packages/automated_actions_utils/automated_actions_utils/openshift_client.py:214-223 | The first API error in time ends the wait at once with its status, except a 404, which is waited out |
| `ExternalResourceSearch.GetExternalResource` | packages/automated_actions_utils/automated_actions_utils/external_resource.py:71-132 | The nested loops refine the flat search over all resources in order |
| `ExternalResourceSearch.SearchIsLeastHit` | packages/automated_actions_utils/automated_actions_utils/external_resource.py:58-132 | The result describes the lexicographically first (namespace, entry, resource) that is live, of the account, undeleted and matching, with each field from where it belongs; there is an error exactly when none is, and another one when there are no namespaces |
| `ExternalResourceSearch.DeletedNamespaceIsIgnored` | packages/automated_actions_utils/automated_actions_utils/external_resource.py:97-100 | Inserting or removing a deleted namespace anywhere changes nothing but the text of the error for an empty list |
| `ExternalResourceSearch.ForeignEntryIsIgnored` | packages/automated_actions_utils/automated_actions_utils/external_resource.py:102-105 | Inserting or removing a non-AWS entry or one of another account anywhere changes nothing |
| `OpaInput.OPA.ApplyDeclaredQueryDefaults` | packages/automated_actions/automated_actions/auth.py:345-367 | The loop fills the map as the recursive layering does |
| `OpaInput.DefaultsOnlyFillGaps` | packages/automated_actions/automated_actions/auth.py:345-367 | Defaults never change a present key and are idempotent |
| `OpaInput.LayersByKey` | packages/automated_actions/automated_actions/auth.py:345-386 | For every key: extra parameters over query over path over the default of the first field declared with that name that is optional and has one, otherwise absent |
| `OpaInput.OPA.Authorize` | packages/automated_actions/automated_actions/auth.py:369-389 | The policy engine is asked once, about that map, unless the endpoint is skipped; the refusals follow from its decision |
| `OpaInput.GetAuthorizedAction` | packages/automated_actions/automated_actions/api/v1/views/action.py:22-37 | The owner sent for detail and cancel is the stored action's owner whatever the request carries, and the refusals follow from the decision about it; a missing action is never asked about |
| `OidcLogin.OpenIDConnect.Login` | packages/automated_actions/automated_actions/auth.py:180-205 | A login sets the cookie to a fresh state with the checked URL |
| `OidcLogin.OpenIDConnect.Callback` | packages/automated_actions/automated_actions/auth.py:207-251 | The answer to a callback as a function of cookie, state, time and exchange; the cookie is removed exactly by a redirect |
| `OidcLogin.CallbackBelongsToLatestLogin` | packages/automated_actions/automated_actions/auth.py:27-251 | After any run, a callback succeeds exactly for the unused state of the latest login, at most 600 s old, with a good token exchange, and each refusal has its own exact cause; the state is that login's alone, and the redirect goes to its URL if that is a path on this host and to "/" otherwise |
| `OidcLogin.LoginThenCallback` | packages/automated_actions/automated_actions/auth.py:180-251 | After any run, a new login issues a state never issued before, which within 600 s leads to the URL asked for, or to "/", and uses up the cookie, and later has expired |
| `OidcLogin.SecondCheckChangesNothing` | packages/automated_actions/automated_actions/auth.py:221-223 | The second check of the URL never changes a value issued by a login |
| `OidcLogin.FailedExchangeCanBeRepeated` | packages/automated_actions/automated_actions/auth.py:225-242 | A failed exchange changes nothing and can be repeated; after a success no state works until the next login |
| `ActionQuery.FindByOwnerIsOneFilter` | packages/automated_actions/automated_actions/db/models/_action.py:93-131 | The four cases are one filter on owner, optional status and optional age |
| `ActionQuery.ListedIffRecent` | packages/automated_actions/automated_actions/api/v1/views/action.py:45-73 | Listing in minutes drops no action within the limit and admits only ones less than a second older |
| `ActionQuery.ListingKeepsOrder` | packages/automated_actions/automated_actions/db/models/_action.py:93-131 | The listing keeps the order of the table and lists each occurrence at most once |
| `ActionQuery.LongerLimitListsMore` | packages/automated_actions/automated_actions/db/models/_action.py:105-129 | The listing is monotone in the age limit |
| `ActionQuery.ZeroIsNotNone` | packages/automated_actions/automated_actions/api/v1/views/action.py:71 | A limit of zero is not the absence of a limit |
| `CliCommands.BuildTyperParams` | packages/automated_actions_cli/automated_actions_cli/cli.py:238-290 | The options are the context and the parameters in order, with the data parameter replaced by its model's fields |
| `CliCommands.OptionsInOrder` | packages/automated_actions_cli/automated_actions_cli/cli.py:238-290 | The options are the parameters in order and with their defaults, with the model's fields, or nothing, where `data` stands |
| `CliCommands.Wrapper` | packages/automated_actions_cli/automated_actions_cli/cli.py:311-325 | The call made from given option values |
| `CliCommands.CallIsComplete` | packages/automated_actions_cli/automated_actions_cli/cli.py:293-325 | If the command registers, the function gets exactly its parameters and the model exactly its fields, each with its value, enums replaced, nothing passed to both |
| `CliCommands.CallKeepsOptions` | packages/automated_actions_cli/automated_actions_cli/cli.py:311-323 | The call gives all option values back, enum members replaced by their values: none is lost or duplicated |
| `CliCommands.CompleteIffNoClash` | packages/automated_actions_cli/automated_actions_cli/cli.py:308-323 | Without the check of duplicate names the function would get all its parameters exactly when no model field shares a name with one |
| `VaultAddress.SplitThenJoin` | packages/automated_actions_utils/automated_actions_utils/vault_client.py:134-140 | Every path with a slash is mount, slash and rest, with a slash-free mount |
| `VaultAddress.JoinThenSplit` | packages/automated_actions_utils/automated_actions_utils/vault_client.py:134-140 | Every slash-free mount with every rest is found again |
| `VaultAddress.SameAddress` | packages/automated_actions_utils/automated_actions_utils/vault_client.py:134-140 | Exactly which different paths address the same secret |
| `VaultAddress.RequestsByMount` | packages/automated_actions_utils/automated_actions_utils/vault_client.py:69-104 | Only KV v2 looks at the version: a missing one is an error, "LATEST" asks for the latest, any other text for the number it reads as |
| `VaultAddress.ParsesIffNumeral` | packages/automated_actions_utils/automated_actions_utils/vault_client.py:100-104 | Exactly digits with single underscores between them are read as a number, and underscores do not count |
| `VaultAddress.SpacesAndSigns` | packages/automated_actions_utils/automated_actions_utils/vault_client.py:100-104 | White space around a number and a sign before it are understood |
| `VaultAddress.CallerVersionArrives` | packages/automated_actions_utils/automated_actions_utils/vault_client.py:86-106 | A version printed by a caller is asked for on KV v2 exactly when there is one, and is never taken for the latest; a missing one ends in a ValueError |

## Left out

- What AWS itself checks before it accepts a command: the theorems name what they need of it.
- Statuses outside the enum, and any other error of the status query: a fatal `Setup` before the poll decides.
- DynamoDB, SQS, Celery, Kubernetes, boto3, hvac, gssapi, httpx, itsdangerous and JWT internals: parameters or steps of the environment.
- The rate limits and roles in `rbac.rego`: only the parameters handed to the engine and its answer are modelled.
- Reboot, snapshot, workload restart and delete, and cronjob trigger bodies: one forwarded call each; they appear as `OtherTask`.
- `ActionSchemaOut.compile_task_args` and `dump`: a relabelling of one record for output.
- `job_builder` and the creation of the job before the wait.
- The annotations and exception display of CLI commands, and a `data` hint that is neither None nor a model.
- URLs on which `urlsplit` raises an error: the login or callback then fails with it.
- The limit Python puts on the number of digits converted to and from integers, and non-ASCII digits in versions.
- Sessions, bearer tokens and logout.
- CommandsAlternate: is stated for timely commands on an instance that nothing else brings back, because it fails without either (OutsideStopBreaksAlternation, OldObservationsAlwaysRepeat).
