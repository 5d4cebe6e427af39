# Scherzo Cloud CLI: ownership of an operation, and the loops around it

The Scherzo Cloud command line runs a mutation on a worker thread while a supervisor listens for
SIGINT, SIGTERM and an observation deadline. One small control object decides who may send, who may
print, what a stop reports and whose exit status is returned. This project models that protocol, the
commands that are programs over it, and the stateful loops they rely on, and proves what holds over
every run of them.

`dafny verify dfyconfig.toml` checks the whole project.

## How it is built

**The control.** `Ownership` holds the state behind the mutex and the class `OperationControl`, whose
methods update its fields in place and are proved against the state functions. `ObservationControl`
holds the compare-and-swap control and proves that no sequence of calls tells the two apart.

**Every interleaving.** `Supervision` puts an arbitrary worker program, given as a relation over its
actions, next to the supervisor. A claim is two steps, because the stop flag is stored after the owner
is written and is read without the mutex. `Sound` is kept by every step of every such system. A
command is then verified by a local proof outline over its own actions alone (`Conforms`), and
`LocalProofHolds` carries the outline over to all interleavings.

**Commands.** `RunCreate`, `SubmitAndWait` (run cancel, publication create, publication show),
`LinearAuthorization`, `RunnerDeletion` and `ReadOnlyCommand` are such programs; network answers are
left open at every point. `WorkerParts` has the observation loop and the completion step they share.
What the handlers write is modelled too, and compared with what was really let out.
`OneTimeSecret` and `RunnerCreation` are imperative commands whose worlds are parameters.

**Loops.** `PollingTime` and `LinearPollingTime` give the two polling loops a clock in nanoseconds;
`ObservationRequests` has the requests that the polls of the first one send.
`BoundedBody` has three body readers and the one result they compute. `IdempotentMutation` has the
attempt loop against a service that applies a key at most once. `HttpCancellation` interleaves
cancellers with waiters on a watch channel. `ArtifactPaths`, `ArtifactInventory`,
`ArtifactCollection` and `ArtifactDownload` go from one page of members to every member downloaded
once. `ServiceKey` has unpadded base64url (sections 3.5 and 5 of RFC 4648) and the key syntax.
`Basics` and `PublicId` hold what several of these share.

## Properties that do not hold as one would first state them

Each of these has its exact condition in the model.

- A stop handler says more than it knows. Run create says that acceptance is unknown whenever no
  acceptance was recorded, unless a plain-text command has only an allocated input set to report
  (`UnknownIsSaidExactlyWhen`); it is a false alarm exactly when no run request was admitted
  (`FalseAlarmExactlyWhen`, `UnknownBeforeAnyRequest`). Run cancel does the same whenever no receipt was
  recorded (`CancelHandlersTellTheTruth`, `CancelUnknownBeforeAnyRequest`). Linear create says that
  observation stopped although no session is known, exactly when the request was admitted and none was
  recorded (`StopsAreSaidExactlyWhen`, `StoppedBeforeASession`). Publication create has no false alarm.
- An admitted read is not one request. Under a human session it is repeated after a credential refresh
  without a second admission. A read request can follow a stop exactly when the command waits, a second
  one exactly when it also acts under a human session, and never a third (`LateReadsExactlyWhen`; for the
  Linear observer `OneLateObservation` and `ObservationsFollowTheReport`).
- A stop does not silence the worker everywhere. A progress line can follow the report, at most one,
  exactly when the command waits (`LateLineExactlyWhenWaiting`, `CancelLateLineExactlyWhenWaiting`). The
  pending document of a Linear authorization is guarded by the stop flag alone and can follow the
  report; this cannot happen exactly when the command was told not to wait
  (`LateDocumentExactlyWhenWaiting`).
- The Linear request is admitted once and not asked about again. A refused dispatch bars every request,
  but after a granted one exactly as many can follow a stop as the position in the program has left
  (`LateRequestsAreBounded`, `AllRequestsLeftCanLeave`): up to four under a human session and two under a
  service key, and none once a session was recorded (`LateRequestsNeedAnAdmission`,
  `RequestsLeaveAfterTheReport`).
- Read-only output can stand next to a handler's status. After the handler has answered, output can still
  come exactly when the writer was open (`LateOutputExactlyWhenOpen`, `WriterCanBeAbandoned`).
- A supervisor that joins its worker returns the worker's error although the signal won, exactly when
  the worker failed (`OneSpeaker`, `JoinedErrorIsReturned`).
- A key file can hold a readable key although delivery failed: when at least the key was written, the
  rest of the line or its sync failed, and so did the one removal; it is reported as uncertain
  (`KeyLineKeptExactlyWhen`, `KeyStaysBehind`).
- A received response does not always end the attempt loop: a response whose body is lost is retried
  unless its status is 401 (`ExecuteRequest`, `LostBodiesAreAskedAgain`).
- A committed runner goes unnamed exactly when the session wrapper ends in an error that is not an API
  result (`RunnerCreation.Create`).

## Model

| member | source | states |
|---|---|---|
| `Ownership.OperationControl.constructor` | src/cli.rs:1304-1314 | a new control is active, undispatched, flag clear |
| `Ownership.OperationControl.IsCancelled` | src/cli.rs:1320-1322 | outside the mutex the flag says exactly that a stop owns the operation |
| `Ownership.OperationControl.AdmitRead` | src/cli.rs:1276-1284 | a read is admitted exactly while active |
| `Ownership.OperationControl.BeginDispatch` | src/cli.rs:1335-1341 | granted exactly while active; whole new state |
| `Ownership.OperationControl.BeginBoundedDispatch` | src/cli.rs:1343-1359 | takes completion on the first dispatch and grants again afterwards; never after a stop |
| `Ownership.OperationControl.BeginDispatchWithRecovery` | src/cli.rs:1368-1375 | recovery and dispatch change together or not at all |
| `Ownership.OperationControl.UpdateRecovery` | src/cli.rs:1377-1383 | recovery is frozen once a stop owns the operation |
| `Ownership.OperationControl.TransitionOwner` | src/cli.rs:1396-1402 | moves the owner from the named state and from no other |
| `Ownership.OperationControl.BeginCompletion` | src/cli.rs:1404-1406 | completion is won exactly from active |
| `Ownership.OperationControl.BeginReadOnlyOutput` | src/cli.rs:1408-1410 | read-only output is opened exactly from active |
| `Ownership.OperationControl.FinishReadOnlyOutput` | src/cli.rs:1412-1414 | completion is won exactly from open read-only output |
| `Ownership.OperationControl.ClaimSignal` | src/cli.rs:1416-1437 | a stop wins from active or open read-only output, with the snapshot of that moment, and sets the flag |
| `ObservationControl.BlockingObservationControl.constructor` | src/cli.rs:893-898 | starts active |
| `ObservationControl.BlockingObservationControl.CompareExchange` | src/cli.rs:904-942 | one atomic exchange |
| `ObservationControl.BlockingObservationControl.IsStopped` | src/cli.rs:900-902 | answers exactly in the stopped state |
| `ObservationControl.BlockingObservationControl.BeginCompletion` | src/cli.rs:904-913 | completing is reached only from active |
| `ObservationControl.BlockingObservationControl.Stop` | src/cli.rs:915-924 | stopped is reached only from active |
| `ObservationControl.BlockingObservationControl.AdmitRead` | src/cli.rs:932-941 | an exchange that changes nothing and succeeds exactly while active |
| `ObservationControl.SimulatedFrom` | src/cli.rs:878-942 | from related states both controls answer every call sequence alike |
| `ObservationControl.Indistinguishable` | src/cli.rs:1276-1284 | from construction on no call sequence tells the atomic control from the locked one |
| `ObservationControl.StoppedNeverCompletes` | src/cli.rs:904-942 | after a stop answer no later completion claim wins, under either control |
| `Supervision.WorkerKeepsSound` | src/cli.rs:1320-1437 | any worker action keeps the invariant of the whole system |
| `Supervision.SupervisorKeepsSound` | src/cli.rs:1484-1526 | each supervisor step, the two halves of a claim included, keeps it |
| `Supervision.EveryRunIsSound` | src/cli.rs:1255-1526 | every state of every interleaving: control equals what the worker was granted, flag derived from owner, a claim freezes recovery and dispatch |
| `Supervision.StaleFlagGrantsNothing` | src/cli.rs:1320-1333 | the flag implies a stop and equals it when the mutex is free; a stale clear read yields no grant |
| `Supervision.GrantedExactlyWhen` | src/cli.rs:1335-1402 | every question of the worker is granted exactly when what it holds and the claim allow it, for each operation |
| `Supervision.BoundedDispatchStays` | src/cli.rs:1343-1359 | once a bounded dispatch was granted every later one is, and none from a completion without dispatch |
| `Supervision.OwnershipSettlesOnce` | src/cli.rs:1396-1437 | completion and signal are absorbing in every run |
| `Supervision.AnswersAreTruthful` | src/cli.rs:1320-1437 | whatever the interleaving, answers the worker gets are consistent with its own past |
| `Supervision.LocalProofHolds` | src/cli.rs:1465-1526 | a proof outline over the worker alone holds in every interleaving |
| `Supervision.OneSpeaker` | src/cli.rs:831-862 | at most one party speaks and the status returned is the speaker's own, never a placeholder; a worker's error is returned over a won claim exactly when the supervisor joins a worker that failed |
| `Supervision.JoinedErrorIsReturned` | src/cli.rs:848-858 | for any command, a run in which a joining supervisor returns the worker's error although the interrupt won |
| `Supervision.FencedSendsWereAdmitted` | src/cli.rs:1335-1375 | a fenced worker never sends more requests than were admitted |
| `Supervision.LateRequests` | src/cli.rs:1335-1375 | without another grant a fenced worker lets out no more than its last grant still allows: one mutation, or one read of at most two requests, and one progress line |
| `Supervision.LateReadsAreBounded` | src/cli.rs:1586-1620 | at most two read requests follow a stop, at most one if none is ever repeated |
| `Supervision.SnapshotTellsTheTruth` | src/cli.rs:1416-1437 | `dispatched` in a snapshot holds exactly when an attempt was admitted; none is admitted later; undispatched means no mutation was or will be sent; what can still leave is bounded |
| `Supervision.TimeoutSeesAccepted` | src/cli.rs:957-989 | if the worker arms the timer only after acceptance, a timeout handler only ever sees an accepted value |
| `Supervision.TimeoutNeedsATimer` | src/cli.rs:957-989 | a timeout needs a timer, and a deferred one the worker's start |
| `Supervision.TimerCanFire` | src/cli.rs:957-989 | and then it can win from any state that nobody owns |
| `Supervision.AtMostOneLateRead` | src/cli/connection.rs:332-344 | a worker that looks at the flag before each read starts at most one read after it is set, of at most two requests |
| `WorkerParts.PollKeepsFit` | src/cli.rs:1093-1148 | the loop reads only with an admission, repeats a read at most once, writes a line only for a read, and returns stopped only when refused; it changes nothing but recordable recovery |
| `WorkerParts.EndKeepsFit` | src/cli.rs:1439-1448 | output only with completion, placeholder only when refused, and the output arm of a loser unreachable |
| `RunCreate.StageKeeps` | src/cli/run/input_set.rs:365-418 | every staging step keeps recovery equal to what the granted requests call for |
| `RunCreate.SubmitKeeps` | src/cli/run.rs:558-725 | so does every step of posting the run, retries and refresh included |
| `RunCreate.ObserveKeeps` | src/cli/run/observation.rs:251-333 | so does every step of observing, which records only the accepted run |
| `RunCreate.CommandConforms` | src/cli/run.rs:506-761 | the whole program keeps its outline for every answer |
| `RunCreate.ClassificationTellsTheTruth` | src/cli/run.rs:353-370 | the classification of a snapshot is exactly what happened: which phase, the command's own key, the set this invocation used, an input set alone only if it allocated one, the run that was accepted |
| `RunCreate.UnknownIsSaidExactlyWhen` | src/cli/run.rs:440-485 | exactly when the handler says that acceptance is unknown, names the key, names the input set, and names an accepted run, which is the one last recorded |
| `RunCreate.FalseAlarmExactlyWhen` | src/cli/run.rs:440-485 | it is a false alarm exactly when no run request was admitted: then none has left and none ever will, otherwise one has or is about to |
| `RunCreate.UnknownBeforeAnyRequest` | src/cli/run.rs:449-472 | for any arguments, a run in which an interrupt before anything is reported as acceptance unknown |
| `RunCreate.RecoveryTellsTheTruth` | src/cli/run.rs:272-351 | in every reachable state the recovery value is the one the granted requests call for, with the input set's provenance and the accepted run's ID |
| `RunCreate.StopFencesDispatch` | src/cli/run.rs:626-653 | once a stop is handled nothing more is admitted; at most the mutation already let through leaves, or the read, of at most two requests; at most one line follows |
| `RunCreate.ReadsFollowTheReport` | src/cli/run.rs:1359-1387 | for arguments that wait, a run in which a read request, under a human session a second one, and then a line follow the report |
| `RunCreate.LateReadsExactlyWhen` | src/cli.rs:1586-1620 | a read request can follow a stop exactly when the command waits, a second one exactly when it also acts under a human session, never a third |
| `RunCreate.LateLineExactlyWhenWaiting` | src/cli/run/observation.rs:299-317 | a progress line can follow a stop exactly when the command waits |
| `RunCreate.TimeoutNamesTheRun` | src/cli/run.rs:487-502 | the timeout handler always has an accepted run, and it is the one that was accepted |
| `RunCreate.LosersArmIsDead` | src/cli/run.rs:1090-1166 | the arm after a stopped observation is never entered, a handler speaks alone, no placeholder is returned |
| `RunCreate.PhasesOnlyAdvance` | src/cli/run.rs:293-351 | recovery phases only advance, whoever steps |
| `RunCreate.StagingCanFail` | src/cli/run/input_set.rs:365-418 | every point of staging has a run that fails there and publishes the failure |
| `RunCreate.AttemptsAreBounded` | crates/api/src/runs.rs:163-240 | a set is allocated and sealed and the run posted at most twice under a service key, four times under a human session |
| `RunCreate.AllPostsCanBeMade` | crates/api/src/runs.rs:163-240 | for any arguments, a run that meets the bound on run requests, each under an admission of its own |
| `RunCreate.PostCanFail` | src/cli/run.rs:558-725 | a run for every failure before the first run request or after the last, which is published |
| `SubmitAndWait.NextKeeps` | src/cli/run.rs:961-1087 | every step of submitting and waiting keeps the outline |
| `SubmitAndWait.HandlersKnowTheOutcome` | src/cli/publication.rs:324-434 | a handler sees an accepted value exactly when a receipt was recorded, namely that receipt or a refreshed one, a timeout handler always; dispatched means a request left or is about to |
| `SubmitAndWait.StopFencesDispatch` | src/cli/publication.rs:266-286 | once a stop is handled no attempt is admitted; at most one mutation, or one read of at most two requests, still leaves |
| `SubmitAndWait.ReadsFollowTheReport` | src/cli/publication.rs:635-650 | such a run for cancel and publication create |
| `SubmitAndWait.LateReadsExactlyWhen` | src/cli.rs:1635-1658 | the same exact conditions for cancel and publication create |
| `SubmitAndWait.LosersArmIsDead` | src/cli/publication.rs:489-545 | for the mutations and for observation alone: one speaker, no loser's output |
| `SubmitAndWait.AttemptsAreBounded` | crates/api/src/publications.rs:80-130 | at most two attempts under a service key and four under a human session, each admitted |
| `SubmitAndWait.AllAttemptsCanBeMade` | crates/api/src/publications.rs:80-130 | a run that meets the bound |
| `SubmitAndWait.AcceptanceIsRecorded` | src/cli/run.rs:961-1087 | a run in which what is accepted on the last attempt is recorded |
| `SubmitAndWait.FailuresAreReported` | src/cli/run.rs:987-1040 | a run for every failure, before or after a request, whose result is written and returned |
| `SubmitAndWait.WaitGoesRound` | src/cli.rs:1093-1148 | a run in which a snapshot is recorded, a second read admitted, a line written and the loop goes round |
| `SubmitAndWait.WaitCanEnd` | src/cli.rs:1093-1148 | a run for every way the wait ends, with any result written and returned |
| `SubmitAndWait.CancelHandlersTellTheTruth` | src/cli/run.rs:918-957 | run cancel: key and mode are the command's own, the request named is the one recorded first; acceptance is said to be unknown exactly when none was, a false alarm exactly when nothing was dispatched |
| `SubmitAndWait.CancelSendsOneRequest` | src/cli/run.rs:973-986 | in every state all that was sent is the cancellation of this run under this command's key |
| `SubmitAndWait.CancelIsReadFirst` | src/cli/run/observation.rs:386-438 | a cancellation is not found resolved before it was read; the exact conditions for late reads |
| `SubmitAndWait.CancelUnknownBeforeAnyRequest` | src/cli/run.rs:918-930 | a run in which an interrupt before the first request is reported as acceptance unknown |
| `SubmitAndWait.CancelLateLineExactlyWhenWaiting` | src/cli/run/observation.rs:386-417 | a progress line can follow the report exactly when the command waits |
| `SubmitAndWait.PublicationHandlersTellTheTruth` | src/cli/publication.rs:205-434 | publication create: the ID is the created publication's, always there for a timeout; acceptance is said to be unknown exactly when an attempt was admitted and no ID recorded; no progress line |
| `SubmitAndWait.PublicationSendsOneRequest` | crates/api/src/publications.rs:80-93 | in every state all that was sent publishes this run under this command's key |
| `SubmitAndWait.PublicationMayBeSettled` | src/cli/publication.rs:635-667 | a run that is settled by its receipt without any read; and the exact conditions for late reads |
| `LinearAuthorization.NextKeeps` | src/cli/connection.rs:206-299 | every step of create and wait keeps the outline |
| `LinearAuthorization.TimeoutNamesTheSession` | src/cli/connection.rs:254-268 | the timeout handler always has a session |
| `LinearAuthorization.StopsAreSaidExactlyWhen` | src/cli/connection.rs:278-330 | when a stop is silent, which session it names, and exactly when observation is said to have stopped without one |
| `LinearAuthorization.StoppedBeforeASession` | src/cli/connection.rs:278-290 | for any arguments, such a run |
| `LinearAuthorization.OneLateObservation` | src/cli/connection.rs:332-368 | after a stop at most one observation starts, and none without waiting: two requests at most under a human session, one under a service key; no result is printed, the handler's status is returned |
| `LinearAuthorization.ObservationsFollowTheReport` | src/cli/connection.rs:173-199 | for every command that waits, a run that meets the bound after the report |
| `LinearAuthorization.LateDocumentNeedsWaiting` | src/cli/connection.rs:254-277 | without waiting no pending document follows a stop |
| `LinearAuthorization.LateDocumentExactlyWhenWaiting` | src/cli/connection.rs:254-277 | a pending document can follow a stop exactly when the command waits |
| `LinearAuthorization.LateRequestsAreBounded` | src/cli/connection.rs:226-253 | after a stop no more requests leave than the position in the program has left, which is none for a dispatch not granted yet |
| `LinearAuthorization.AllRequestsLeftCanLeave` | src/cli/connection.rs:229-238 | and while the worker runs all of those can, whatever the supervisor has done |
| `LinearAuthorization.OneRequestOnly` | src/cli/connection.rs:229-238 | in every state, before and after a stop, all that was sent is one idempotent request: this connection under this key |
| `LinearAuthorization.LateRequestsNeedAnAdmission` | src/cli/connection.rs:226-258 | no run sends more than four requests under a human session or two under a service key; one leaves after a stop only if the dispatch was admitted and no session recorded |
| `LinearAuthorization.RequestsLeaveAfterTheReport` | src/cli/connection.rs:226-253 | for any arguments, a run that meets the limit after the report |
| `LinearAuthorization.ErrorsAreReturned` | src/cli/connection.rs:206-299 | a run for every point at which an error is returned |
| `LinearAuthorization.ObservationIsRepeated` | src/cli/connection.rs:332-368 | a run in which an observation that settles nothing is followed by another |
| `ReadOnlyCommand.AbandonedOnlyWhileOpen` | src/cli.rs:1450-1463 | output stands next to the handler's status only while read-only output is open |
| `ReadOnlyCommand.LateOutputNeedsAnOpenWriter` | src/cli.rs:1450-1463 | after a won claim output can only come from a writer that was open then |
| `ReadOnlyCommand.OpenWriterCanPrint` | src/cli.rs:1450-1463 | from every open writer it can, whoever owns the operation |
| `ReadOnlyCommand.LateOutputExactlyWhenOpen` | src/cli.rs:800-805 | a command whose handler has answered can still print exactly when its writer is open |
| `ReadOnlyCommand.WriterCanBeAbandoned` | src/cli.rs:800-805 | a run in which output stands next to the handler's status |
| `ReadOnlyCommand.ResultsAreReturned` | src/cli.rs:1450-1463 | for every result a run that returns it, with output exactly unless it failed |
| `RunnerDeletion.NextKeeps` | src/cli/runner.rs:644-729 | every step keeps: dispatched only with a recorded ID, and that ID is the one sent |
| `RunnerDeletion.DispatchedDeletionIsNamed` | src/cli/runner.rs:616-729 | every dispatched deletion can be named; at most one request under a service key and two under a human session; the pretended result of a refused dispatch never becomes output |
| `RunnerDeletion.StopFencesDispatch` | src/cli/runner.rs:682-699 | once a stop is handled no deletion is admitted any more |
| `RunnerDeletion.DeletionIsRepeated` | src/cli/runner.rs:682-699 | a run that meets the bound: one deletion, a second one under a human session with its own admission, then completed |
| `RunnerDeletion.ErrorsAreReturned` | src/cli/runner.rs:644-729 | a run for every point at which an error is returned |
| `RunnerCreation.LastRegistered` | src/cli/runner.rs:286-299 | the last registration committed over any number of runs |
| `RunnerCreation.Create` | src/cli/runner.rs:280-353 | the report names the last committed runner and the failure of the last run or of the wrapper; plain failure only if none registered; unnamed exactly when the wrapper broke |
| `OneTimeSecret.FileSystem.CreateNew` | src/service_auth.rs:334-341 | creation never opens an existing file |
| `OneTimeSecret.FileSystem.WriteAll` | src/service_auth.rs:390-392 | all of the text or a prefix and an error |
| `OneTimeSecret.FileSystem.Remove` | src/service_auth.rs:410-423 | one removal, counted |
| `OneTimeSecret.Prepare` | src/service_auth.rs:329-355 | a reserved new file, or an error with the new file removed again and nothing else touched |
| `OneTimeSecret.ApiKeyDestination.Write` | src/service_auth.rs:368-399 | success exactly when the whole line was written and synced; cleanup is disarmed exactly then |
| `OneTimeSecret.ApiKeyDestination.CleanupAfterDeliveryFailure` | src/service_auth.rs:401-425 | removed is reported exactly when the removal worked; the drop does not try again |
| `OneTimeSecret.ApiKeyDestination.Drop` | src/service_auth.rs:447-459 | one removal while cleanup is armed, none otherwise |
| `OneTimeSecret.TrimOneNewline` | src/service_auth.rs:203-210 | at most one line ending is taken off, and none is left that could have been |
| `OneTimeSecret.ReadApiKey` | src/service_auth.rs:133-153 | only a valid key is read |
| `OneTimeSecret.ReadsExactly` | src/service_auth.rs:133-153 | a key is read from exactly three spellings, the delivered line among them |
| `OneTimeSecret.Deliver` | src/cli/service_principal.rs:408-445 | the key of the reply is attempted exactly when it parses; files, removals, report and exit status follow |
| `OneTimeSecret.Perform` | crates/api/src/service_principals.rs:564-581 | one admitted call: a lost request is made once more, so at most two requests |
| `OneTimeSecret.Issue` | src/cli/service_principal.rs:312-347 | over every world: one dispatch exactly when nothing stopped it, of at most two requests, completion owned from then on, file left as promised |
| `OneTimeSecret.Attempt` | src/cli.rs:1683-1706 | the calls under a human session, each made only if admitted; a stop before the first means none |
| `OneTimeSecret.Create` | src/cli/service_principal.rs:197-263 | the same for create, with at most two dispatches and four requests, and an outcome without dispatch published only by the winner |
| `OneTimeSecret.KeyLineKeptExactlyWhen` | src/cli/service_principal.rs:621-647 | an existing file is untouched; otherwise none or exactly one removal; when a readable key remains, as an if-and-only-if |
| `OneTimeSecret.LineShownExactlyWhen` | src/service_auth.rs:368-383 | with path "-" the whole key line is shown exactly when it was delivered |
| `OneTimeSecret.KeyStaysBehind` | src/service_auth.rs:385-425 | the concrete case in which a readable key stays behind undelivered |
| `PollingTime.UndecidedExactlyWhen` | src/cli.rs:1121-1137 | the fold is undecided exactly while no response was decisive |
| `PollingTime.JudgedAtFirstDecisive` | src/cli.rs:1121-1137 | its verdict is that of the first decisive response: terminal, not retryable, or directly after a failure |
| `PollingTime.Remaining` | src/cli.rs:1150-1161 | the positive rest of the wait, or none at the deadline |
| `PollingTime.Turn` | src/cli.rs:1103-1147 | one turn: a poll with its budget, its sleep, or the reason it ended |
| `PollingTime.PollsAreBounded` | src/cli.rs:991-992 | at most ceil(timeout / 2 s) polls before a deadline |
| `PollingTime.Advance` | src/cli.rs:1103-1147 | a turn keeps what the loop relies on, or ends it with the right verdict and cause |
| `PollingTime.WaitForTerminal` | src/cli.rs:1093-1148 | the loop refines the fold, for answers that may depend on when a poll starts; budgets end at the deadline, sleeps never pass it, polls are an interval apart, and a script longer than the bound is never used up |
| `ObservationRequests.ReadFitsTheDeadline` | src/cli.rs:1585-1620 | a read sends at most two requests, none after the deadline; each has a positive budget that ends at the deadline and starts after the one before; a resource is what the last request answered |
| `ObservationRequests.RepeatedExactlyWhen` | crates/human-auth/src/session.rs:168-209 | a second request leaves exactly when a human's first was rejected, the session was renewed and the call was ready before the deadline |
| `ObservationRequests.ReadAnswersExactly` | crates/human-auth/src/session.rs:168-209 | exactly when the first request leaves, and what the read answers in every case |
| `ObservationRequests.PublicationReadExactlyWhen` | src/cli/run/observation.rs:148-163 | exactly when a linked publication is read, and what a failed read answers |
| `ObservationRequests.NoneOverlap` | src/cli.rs:1622-1633 | what fitting the deadline means for any two requests |
| `ObservationRequests.PollsArePunctual` | src/cli/run/observation.rs:148-163 | the read of a linked publication keeps the same deadline |
| `ObservationRequests.WaitForRun` | src/cli/run/observation.rs:204-241 | over a whole wait all requests are in turn, before the deadline and with budgets that end there; at most four to a poll |
| `LinearPollingTime.WaitForPoll` | src/cli/connection.rs:373-389 | terminates; slices of at most 100 ms; at least the delay unless stopped; exactly the delay under an exact clock |
| `LinearPollingTime.RetryDelay` | src/cli/connection.rs:391-393 | the larger of five seconds and Retry-After |
| `LinearPollingTime.Observe` | src/cli/connection.rs:332-368 | over every script any two observations are at least max(5 s, Retry-After) apart, and under an exact clock each comes exactly when due; ends at the first settling reply or stopped wait |
| `BoundedBody.ReadBounded` | crates/api/src/http_util.rs:117-140 | saturating add: the whole body, too large, or transport, as the reference says; never over the limit on the way |
| `BoundedBody.BoundedBodyWriter.Write` | crates/api/src/http_util.rs:223-231 | all of the buffer exactly when it fits, else none and the flag |
| `BoundedBody.ReadBlocking` | crates/api/src/http_util.rs:196-248 | the same reference under any limit |
| `BoundedBody.ReadSignedStorage` | crates/api/src/http_client.rs:201-257 | interrupted exactly when a stop is met while sending, or while reading before too much was announced or read; otherwise the same reference, with a checked add |
| `BoundedBody.CutsDoNotMatter` | crates/api/src/http_util.rs:117-248 | the result depends on the bytes alone and not on how they were cut |
| `IdempotentMutation.RejectedExactlyOnUnauthorized` | crates/api/src/delegations.rs:731-760 | the credential counts as rejected exactly when a 401 was received, in any condition |
| `IdempotentMutation.ExecuteRequest` | crates/api/src/delegations.rs:534-552 | stops at the first attempt that is not retryable or after two, same request each time; after a received response goes on exactly when its body was lost and its status is not 401 |
| `IdempotentMutation.LostBodiesAreAskedAgain` | crates/api/src/http_util.rs:75-83 | responses whose bodies are lost are asked for twice, with one effect |
| `IdempotentMutation.Mutate` | src/cli/delegation.rs:82-103 | over attempts and rerun: same target, body and key, at most one effect and exactly one when any was applied; success exactly on an echoed key; a rerun exactly after a received 401 that could be renewed |
| `HttpCancellation.EveryStateFits` | crates/api/src/http_client.rs:42-83 | the invariant of every interleaving of any number of cancellers and waiters |
| `HttpCancellation.ChannelImpliesFlag` | crates/api/src/http_client.rs:63-70 | whoever sees the channel true, and every waiter that returned, finds the flag set; nothing of that, and no wakeup, before a cancel began |
| `HttpCancellation.EveryCancelFinishes` | crates/api/src/http_client.rs:63-70 | three steps of its own finish any cancel, in every interleaving, and then flag and channel are set |
| `HttpCancellation.NoLostWakeup` | crates/api/src/http_client.rs:72-82 | after a finished cancel no waiter is blocked, whatever other cancels are about to do: each next step of its own brings it closer |
| `HttpCancellation.OthersDoNotDelay` | crates/api/src/http_client.rs:42-83 | nobody else's step puts a waiter further away, and a finished cancel stays finished |
| `HttpCancellation.EveryWaiterReturns` | crates/api/src/http_client.rs:72-82 | from the first finished cancel on, four steps of its own bring any waiter home, in every interleaving with further cancels |
| `ArtifactPaths.PathsArePlaces` | crates/api/src/artifacts.rs:622-627 | accepted paths and places correspond one to one |
| `ArtifactPaths.LessIsTotal` | crates/api/src/artifacts.rs:597-599 | byte order is strict and total |
| `ArtifactPaths.PathOrderIsPlaceOrder` | crates/api/src/artifacts.rs:597-599 | byte order on paths is order by ordinal with the result last |
| `ArtifactPaths.OrdinalBounds` | src/cli/artifact/assembly.rs:280-294 | the textual bounds on an ordinal are 1 to 4096 |
| `ArtifactPaths.TextOrder` | src/cli/artifact/assembly.rs:269-277 | comparing accepted paths byte by byte is comparing their places |
| `ArtifactPaths.OrdinalTextIsBounded` | src/cli/artifact/assembly.rs:280-294 | the test of an accepted path's ordinal, as text, is the numeric one |
| `ArtifactInventory.CheckedTotalIsTotal` | crates/api/src/artifacts.rs:600-603 | checked addition succeeds exactly when the true sum fits |
| `ArtifactInventory.PathsInOrderArePlaces` | crates/api/src/artifacts.rs:597-599 | strict order of neighbouring paths is increasing ordinals with the result last |
| `ArtifactInventory.AcceptedPagesAreOrdered` | crates/api/src/artifacts.rs:562-620 | a page of paths is accepted exactly when all pairs of places are in order and the true sum is within the total; then paths are distinct and the result is last |
| `ArtifactInventory.AcceptedPagesAreBounded` | crates/api/src/artifacts.rs:562-620 | the bounds of an accepted page, in numbers |
| `ArtifactInventory.ListedFitsMeansValid` | src/cli/artifact/assembly.rs:280-294 | the test of a member on its text is the test on its place |
| `ArtifactInventory.Follows` | src/cli/artifact/assembly.rs:269-277 | comparing a path with the one before decides for the whole chain |
| `ArtifactInventory.CheckMembers` | src/cli/artifact/assembly.rs:269-278 | the loop over paths accepts exactly the listings that continue the ordered list |
| `ArtifactInventory.ValidatePage` | src/cli/artifact/assembly.rs:249-278 | accepts exactly the pages that continue the ordered list under the same header, timestamps compared as text |
| `ArtifactCollection.OrderedIsShort` | src/cli/artifact/assembly.rs:249-294 | no ordered list of valid members is longer than 4097 |
| `ArtifactCollection.HonestPageIsUsable` | crates/api/src/artifacts.rs:206-224 | every page of an inventory cut at any points passes the client's pagination checks |
| `ArtifactCollection.EveryCutCanBeServed` | crates/api/src/artifacts.rs:206-224 | every complete inventory, cut into pages at any points, has a service with cursors the client accepts |
| `ArtifactCollection.TwoPages` | src/cli/artifact/assembly.rs:198-247 | such an inventory of two pages |
| `ArtifactCollection.ReadingUndoesListing` | crates/api/src/artifacts.rs:541-560 | reading the paths of a listing gives the members back |
| `ArtifactCollection.ReadPage` | crates/api/src/artifacts.rs:174-228 | a page is taken exactly when both checks pass; it extends the ordered list and, if it continues, is not empty |
| `ArtifactCollection.Fetch` | src/cli/artifact/assembly.rs:206-226 | and an honest service's page is taken and leads to its next page or to the end |
| `ArtifactCollection.Finish` | src/cli/artifact/assembly.rs:227-247 | what was collected is returned exactly when it is complete |
| `ArtifactCollection.Collect` | src/cli/artifact/assembly.rs:198-247 | ends after at most 4098 pages whatever is answered; what it returns is complete and is the pages' members, reached over distinct cursors; an inventory served honestly comes back unchanged |
| `ArtifactDownload.DownloadBytes` | crates/api/src/artifacts.rs:264-325 | success exactly on a whole body within size; written bytes are the hashed bytes and never more than declared; a full destination holds what it accepted |
| `ArtifactDownload.DownloadMember` | src/cli/artifact/assembly.rs:300-324 | kept exactly when created, whole, synced, and of the declared size and digest |
| `ArtifactDownload.FetchOne` | src/cli/artifact/assembly.rs:300-324 | a member is logged exactly when it arrived whole, with a file of the declared size and digest |
| `ArtifactDownload.UseGrant` | src/cli/artifact/assembly.rs:150-183 | members in order while the capability lasts, with the reason it stopped |
| `ArtifactDownload.DownloadBatch` | src/cli/artifact/assembly.rs:138-184 | each member once and in order, each under an answer for the same set and expiry text that lists it, before its capability and retention end; every answer makes progress |
| `ArtifactDownload.DownloadAll` | src/cli/artifact/assembly.rs:97-108 | done exactly when every member was fetched once, in order; every logged file is intact and in time; otherwise the reason, at the batch of a hundred it stopped in |
| `ArtifactDownload.DoneMeansIntact` | src/cli/artifact/assembly.rs:317-323 | a finished download leaves for each member a file of its declared size and digest |
| `ServiceKey.SymbolsAreInverse` | src/service_auth.rs:281-292 | the 64 symbols and their values correspond one to one |
| `ServiceKey.SymbolsAreTheTable` | src/service_auth.rs:281-292 | the symbols are those of table 2 of RFC 4648 |
| `ServiceKey.SextetsAreTheNumber` | src/service_auth.rs:281-292 | the sextets are the bytes read as one number, shifted by the filled-up bits |
| `ServiceKey.ThreeBytesAreFourSextets` | src/service_auth.rs:281-292 | three bytes and their four sextets are the same 24-bit number |
| `ServiceKey.DecodeUndoesEncode` | src/service_auth.rs:281-292 | decoding an encoding gives the bytes back |
| `ServiceKey.EncodeUndoesDecode` | src/service_auth.rs:281-292 | canonical text is the encoding of what it decodes to |
| `ServiceKey.SecretsAreThirtyTwoBytes` | src/service_auth.rs:267-293 | accepted secrets are exactly the encodings of 32-byte strings, one each |
| `ServiceKey.FirstDot` | src/service_auth.rs:271-273 | the first dot, if any |
| `ServiceKey.KeysAreIdAndSecret` | src/service_auth.rs:267-293 | a key is valid exactly when it is a credential ID, a dot and an encoded 32-byte string |
| `PublicId.IdsAreDigits` | crates/support/src/public_id.rs:1-14 | a typed ID is its prefix and 26 base 32 digits without i, l, o and u, the first below eight |
| `ServiceKey.JoinedKeyIsValid` | crates/support/src/public_id.rs:1-14 | every such text is accepted |

## Left out

- Command line definitions, help, and the human and JSON rendering of every result: finite tables.
- Exit-code and failure-class tables: one branch each; failure codes are parameters where they matter.
- HTTP, TLS, DNS and runtime internals: every network answer is left open.
- The credential store, device login and refresh itself: whether a session exists and is renewed is a parameter.
- The order in which a biased selection looks at ready branches: the supervisor may take any of them, which covers more runs.
- The parser of wait durations: a short function with an easy contract.
- Requests that acquire, renew or remove a session are time in `ObservationRequests` and are not counted; observing a publication by itself sets no budgets and has only the loop.
- Second signals, process groups and panic messages: a worker that dies is modelled only as a failed result.
- What a mutation carries beyond its idempotency key and its subject, such as the mode of a cancellation.
- Lookups before a mutation (the resource of a runner deletion, a project or a session) are internal steps: they are not admitted reads and are not counted.
- Time inside the interleaving model: the deferred timer may fire at any moment once armed; clocks are in the two timing modules.
- File permissions, links, ownership and directory sync: each file operation succeeds or fails as a parameter; concurrent changes by other programs are not modelled.
- Unreadable inventory answers: text that does not parse and sizes out of range are one `Unreadable` answer; a timestamp is its text and the instant it is read as, if any.
- Portable validation and the final rename of a downloaded artifact set, and the command families that repeat the delegation pattern: they would add only easy members.
- Local workflow execution, the runner service and input acquisition.
- OneTimeSecret.Deliver: whether a key parses is a parameter there, because the syntax is settled in `ServiceKey`; `KeyLineKeptExactlyWhen` puts the two together.
- HttpCancellation.NoLostWakeup: the watch channel is modelled by its version, its value and the notification of registered waiters, not by the library's own code.
- IdempotentMutation.Mutate: that the service applies a key at most once is its contract and is not proved.
