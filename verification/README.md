# Failure handling of the queue worker kit, modelled in Dafny

The kit runs background jobs on a Redis-backed queue library. This project models the parts that
must hold when things go wrong: the dead-letter writer, the life of a job across retries and lost
locks, the race of a handler against its abort signals, graceful shutdown, idempotent enqueueing,
and the small exact functions they rest on. `dafny verify dfyconfig.toml` checks all of it.

## How it is modelled

- Between two awaits JavaScript is atomic, so one operation of a transition system is one
  event-loop task: a reply reaching a call, a signal, a timer. `Step` is total, an operation that
  is not enabled changes nothing, and a run is any sequence of operations. A theorem about
  `Run(s, ops)` therefore covers every interleaving.
- Where the source updates state in place there is a class with that state, and each method is
  tied to the transition system by `ensures View() == Step(old(View()), ...)`.
- Redis and the queue library are the environment, and obey only what the repository's comments
  and documentation say of them: an add ignores an id it holds, waiting jobs are read oldest first,
  a removal is by id, an error is retried unless it is unrecoverable or attempts are used up,
  `finishedOn` is set by the final transition only, and a deduplication key lives for its TTL.
  Where they are silent it is left free: the stalled checker may fail a job until its worker has
  closed, for one, and any Redis operation may fail.
- Fields called history in the code (`log`, `trace`, `created`, `begun` and the like) record what
  happened so that it can be spoken about; steps read them at most to tell new names from old.

| file | what it models |
|---|---|
| `DeadLetterIds.dfy` | record ids, and a parser that shows what they determine |
| `DeadLetterProtocol.dfy`, `DeadLetterRecency.dfy`, `DeadLetterRaces.dfy`, `DeadLetterCounters.dfy`, `DeadLetterCalls.dfy` | overlapping `record` calls: the size bound, which records survive, runs where they do not, what the counters count, and one call among others |
| `DeadLetterWriter.dfy` | the writer as a class, and one undisturbed `record` |
| `Errors.dfy`, `JobLifecycle.dfy` | one job across retries, lost locks and stall recovery |
| `JobRevivals.dfy` | a failed job retried by hand, and the records of its failures |
| `ErrorReporting.dfy` | an error in the processor's catch clause, and what is thrown in its place |
| `AbortRace.dfy`, `JobProcessor.dfy`, `AbortSignals.dfy` | the abort race, the metrics of all job runs, abort-aware waiting |
| `GracefulShutdown.dfy` | ordered steps against a deadline, and the exit |
| `WorkerShutdown.dfy`, `WorkerShutdownLimits.dfy`, `WorkerExit.dfy` | the worker process going down, exactly when its steps cover every write, or hang, and the code it ends with |
| `Enqueue.dfy`, `HttpToHandler.dfy`, `StatusRoute.dfy` | idempotency keys against a clock, a body's way to its handler, the status read |
| `LineForwarder.dfy`, `SerializeError.dfy`, `Backoff.dfy` | chunked line prefixing, bounded error serialization, delays |
| `Text.dfy`, `Sequences.dfy`, `Wrappers.dfy` | shared definitions |

## Where the code falls short of its comments

Each of these is a lemma, and beside it stands the exact condition under which the code does what
it says, or the theorem that holds once the condition is met.

- Oldest dead-letter records are meant to be evicted first, so that recent failures survive
  (`src/worker/dead-letter.ts:163-170`). A fetch acting on a count that other trims have made stale
  can evict everything, the newest record included (`DeadLetterRaces.StaleCountEvictsEverything`).
  The limit is kept exactly by fetches whose count is not stale
  (`DeadLetterRecency.FetchKeepsLimitIffFresh`).
- A removal that fails is swallowed, and can leave an old record in place while newer ones go
  (`DeadLetterRaces.FailedRemovalKeepsTheOldest`, `DeadLetterRecency.RemoveFailureKeepsRecentIff`).
- A failure recorded again while an eviction still names its id loses its new record, and an older
  one survives it (`DeadLetterRaces.ReaddedRecordIsEvicted`, `DeadLetterRecency.AddKeepsRecentIff`).
- Ids that differ only in characters outside `[A-Za-z0-9_-]` share one record
  (`DeadLetterIds.CollideIff`).
- Each terminal failure is meant to get one record (`src/worker/dead-letter.ts:84-90`). A job that
  stalls out, is retried by hand and stalls out again before another attempt is counted has two
  failures and one id; the ids are distinct exactly when that never happens
  (`JobRevivals.SecondStallSharesTheRecord`, `JobRevivals.EveryFailureHasItsRecordIff`).
- The announcement that a job will be retried is wrong exactly, with attempts left, for errors that
  carry one of the kit's final names without being instances of its classes, and for errors whose
  reporting throws something the library treats otherwise (`JobLifecycle.AnnouncementAgreesIff`).
- An error is meant to be rethrown as it was (`src/worker/processor.ts:142-146`). Classifying or
  serializing it may throw first, and then that reaches the library: so a final error with a cause
  that throws when rendered is retried (`ErrorReporting.RethrownIff`,
  `ErrorReporting.FinalErrorIsRetriedIff`, `ErrorReporting.HostileCauseIsRetried`).
- A job failed by the stalled checker and already removed is not dead-lettered
  (`JobLifecycle.DeadLetteredOnceIffFailed`).
- Abandoned work is meant never to be reported as an unhandled rejection
  (`src/worker/processor.ts:191-193`). It is, exactly when the attempt began with its signal already
  aborted and the work rejects (`AbortRace.UnhandledIffPreAborted`); the process-level handler then
  starts a shutdown.
- The drain is meant to cover the writes that the last jobs trigger
  (`src/worker/server.ts:131-134`). It covers every write, whatever happens next and unless it is
  cut short, exactly when every worker has closed, which is when the workers step succeeded; or,
  leaving the stalled checker aside, exactly when no worker still holds a job
  (`WorkerShutdownLimits.DrainCoversEveryWriteIff`, `WorkerShutdownLimits.AllClosedIffStepSucceeded`).
  One worker whose close fails ends the workers step while another still holds a job
  (`WorkerShutdownLimits.FailedCloseLeavesAWrite`).
- The workers step waits for ever on a handler that never settles
  (`WorkerShutdownLimits.WorkersStepHangsIff`). The process exits all the same, and with code 1, as
  `docs/operations.md:271` says (`WorkerExit.JobOutlivingDeadlineReportsOne`).
- A shutdown that overran its deadline is meant to end with code 1
  (`src/worker/graceful-shutdown.ts:96-107`). The timer that leads to it does not keep the event
  loop alive, so a process with nothing open ends by itself before it, with code 0. In the worker
  that can happen exactly once the closing of Redis has started (`WorkerExit.TimedOutReportsOneIff`,
  `WorkerExit.TimedOutWorkerCanReportZero`); in general, once no handle is left that a hung or
  unstarted step holds (`GracefulShutdown.HungReportsOneIff`).
- Serializing an error is meant not to fail (`src/utils/serialize-error.ts:26-33`). It fails exactly
  when a value within three causes is a revoked proxy or throws when rendered
  (`SerializeError.SerializeFailsIff`, `SerializeError.HostileCauseCannotBeSerialized`). Summarizing
  fails also when the error itself carries no text and renders to nothing, such as an object whose
  `toJSON` answers undefined (`SerializeError.FormatFailsIff`,
  `SerializeError.SilentMessageCannotBeSummarized`). A worker failure with such an error gets no
  dead-letter record (`DeadLetterWriter.WorkerFailureIsLostIff`); and `record`, which is meant never
  to reject, does if what was thrown fails to serialize too (`DeadLetterWriter.RecordRejectsIff`).
- `enqueue` called from code does not check the length of the correlation id or idempotency key,
  and the worker then rejects the envelope (`HttpToHandler.EnqueuedFromCodeReachesHandlerIff`).
- A job that ends between the status route's reads and is removed before the third is reported as
  finished without a finish time (`StatusRoute.CompletedJobCanBeGone`, `StatusRoute.GetJob`).
- A reason limit below three is exceeded whenever the reason is cut (`SerializeError.ReasonFitsIff`).

## Model

| member | source | states |
|---|---|---|
| DeadLetterIds.ParseInvertsJobId | src/worker/dead-letter.ts:80-97 | for every worker queue, job id and attempt count, the record id determines the queue, the flattened job id and the attempts, hyphens in the job id included |
| DeadLetterIds.JobIdRoundTripsIffSafe | src/worker/dead-letter.ts:80-97 | the job id itself is recovered exactly when it has only safe characters |
| DeadLetterIds.CollideIff | src/worker/dead-letter.ts:84-97 | two failures share a record exactly when queue, attempts and flattened job id agree |
| DeadLetterIds.TokenByCharacter | src/worker/dead-letter.ts:80-82 | flattening keeps the length and every letter, digit, `_` and `-`, and puts `_` for anything else |
| DeadLetterIds.CollideByCharacterIff | src/worker/dead-letter.ts:80-97 | two failures share a record exactly when queue and attempts agree and their job ids have one length and at every place one character, or two that both become `_` |
| DeadLetterIds.JobIdOfPlainParts | src/worker/dead-letter.ts:91-97 | an id of plain parts reads `dlq-`, queue, job id and attempts, with hyphens between |
| DeadLetterIds.JobIdIsSafe | src/worker/dead-letter.ts:76-82 | no record id contains the key separator or any other unsafe character |
| DeadLetterProtocol.StepKeepsSizeInvariant | src/worker/dead-letter.ts:137-192 | every operation keeps the list duplicate-free and, for every set of calls that have counted, keeps the records none of them claims within the limit plus the remaining trimming calls plus counted failures |
| DeadLetterProtocol.SizeBound | src/worker/dead-letter.ts:137-217 | in every interleaving of any number of calls, failures included, the list has no duplicates and exceeds the limit by at most the unsettled calls plus the failures counted, so it is within the limit once all calls settle without failure |
| DeadLetterProtocol.CountIsBounded | src/worker/dead-letter.ts:172-175 | reading the count keeps the bound: a count within the limit lets the call go, a larger one makes it claim exactly the excess |
| DeadLetterProtocol.FetchIsBounded | src/worker/dead-letter.ts:175-176 | fetching the oldest records keeps the bound even when the count has gone stale |
| DeadLetterProtocol.RemoveIsBounded | src/worker/dead-letter.ts:178-189 | a removal by id keeps the bound, also when another call removed the record first |
| DeadLetterProtocol.RemoveFailureIsBounded | src/worker/dead-letter.ts:180-187 | a swallowed removal failure raises the bound by one record and no more |
| DeadLetterProtocol.AddIsBounded | src/worker/dead-letter.ts:137-160 | an add raises the bound by the one call that must now trim, whether or not the id was held |
| DeadLetterRecency.StepKeepsNewest | src/worker/dead-letter.ts:137-192 | every operation, other than an add under a pending removal of its id and a failed removal that spares a record no other call will remove, keeps the held records split into doomed older ones and an intact run of the newest; a fetch on a fresh count leaves at least the limit of the latter |
| DeadLetterRecency.SurvivorsAreASuffix | src/worker/dead-letter.ts:163-192 | once no removal is pending, the survivors of a run are a suffix of insertion order, provided no id is re-added under a pending removal and no failed removal spares a record that no other call will remove |
| DeadLetterRecency.SurvivorsAreTheNewest | src/worker/dead-letter.ts:163-192 | if also no fetch acts on a stale count and nothing fails, overlapping calls leave exactly the newest records up to the limit |
| DeadLetterRecency.AddKeepsRecentIff | src/worker/dead-letter.ts:84-90 | an add keeps that order exactly when its id is held already or named by no pending removal, or all held records are doomed anyway |
| DeadLetterRecency.RemoveFailureKeepsRecentIff | src/worker/dead-letter.ts:178-189 | a swallowed removal failure keeps that order exactly when the record is gone or still another call's to remove, or is the next older one to the safe newest |
| DeadLetterRecency.FetchKeepsLimitIffFresh | src/worker/dead-letter.ts:171-176 | a fetch leaves the limit of safe newest records exactly when the list is at least as long as the count it acts on |
| DeadLetterRaces.StaleCountEvictsEverything | src/worker/dead-letter.ts:171-189 | two overlapping calls without any failure or re-added id can leave an empty list at a limit of one; a fetch in that run acts on a stale count |
| DeadLetterRaces.ReaddedRecordIsEvicted | src/worker/dead-letter.ts:163-189 | without any failure or stale count, a record re-added under a pending removal is evicted while an older one survives |
| DeadLetterRaces.FailedRemovalKeepsTheOldest | src/worker/dead-letter.ts:178-189 | with only a removal failing, the oldest record can survive a newer one, all calls settled |
| DeadLetterCalls.AddLands | src/worker/dead-letter.ts:137-147 | once its add has replied a record is in the list, where it was or at the end of list and log, other calls in flight or not |
| DeadLetterCalls.RecordStaysUntilRemoved | src/worker/dead-letter.ts:178-189 | a held record stays in every run in which no removal of its own id replies |
| DeadLetterCalls.HeldIsLogged | src/worker/dead-letter.ts:137-189 | in every run the list holds nothing but what it held at first and what adds have logged |
| DeadLetterCalls.OtherCallsAreUntouched | src/worker/dead-letter.ts:194-217 | a reply reaching one call moves no other |
| DeadLetterCalls.FailuresLeaveTheList | src/worker/dead-letter.ts:178-209 | failed adds, counts, fetches and removals leave the list, end or continue the call, and are counted once |
| DeadLetterCalls.UnovertakenCallIsAWindow | src/worker/dead-letter.ts:105-192 | whatever other calls are doing, a call nothing overtakes leaves the last records up to the limit, its own included, in whatever order its removals reply |
| DeadLetterCounters.EveryAcceptedCallIsCounted | src/worker/dead-letter.ts:137-209 | once all calls settle, each accepted call is counted as dead-lettered unless its add failed; with the failed writes that counts every accepted call, and twice exactly those whose trim failed after their record was added |
| DeadLetterCounters.RunBalances | src/worker/dead-letter.ts:105-209 | at every moment each accepted call is adding, dead-lettered or lost, each failure is counted once, and no record came from anything but an add |
| DeadLetterCounters.PendingIsBegunMinusSettled | src/worker/dead-letter.ts:194-221 | the calls `pending` reports are those begun, refused ones included, less those settled |
| DeadLetterWriter.Writer.RecordAlone | src/worker/dead-letter.ts:105-217 | one undisturbed call is a sliding window: the list becomes the last records, up to the limit, of the old list with the new id appended unless held; a job of the dead-letter queue changes nothing, and an error that cannot be summarized changes nothing but the failure count |
| DeadLetterWriter.Writer.Trim | src/worker/dead-letter.ts:171-192 | a trim nothing overlaps leaves exactly the last records up to the limit |
| DeadLetterWriter.Writer.EvictAll | src/worker/dead-letter.ts:178-189 | the removals of one trim take exactly the fetched records off the front |
| DeadLetterWriter.Writer.BeginRecord | src/worker/dead-letter.ts:105-147 | the synchronous part of a call is the protocol's begin: refused for the dead-letter queue, otherwise an add of the failure's deterministic id, which fails before it is sent if the error cannot be summarized |
| DeadLetterWriter.Writer.OnCountReply | src/worker/dead-letter.ts:171-175 | the count reply is the protocol's count step |
| DeadLetterWriter.Writer.OnFetchReply | src/worker/dead-letter.ts:176-189 | the fetch reply is the protocol's fetch step |
| DeadLetterWriter.Writer.OnReadError | src/worker/dead-letter.ts:196-209 | a failed count or fetch is counted as a write failure though the record was added |
| DeadLetterWriter.WindowWithinLimit | src/worker/dead-letter.ts:84-97 | within the limit, a repeated write changes nothing and a new record displaces at most the oldest |
| DeadLetterWriter.TargetsCollideIff | src/worker/dead-letter.ts:108-138 | failures from worker queues are never refused, and two of them target one record exactly when queue and attempts agree and their job ids, `unknown` where there is none, agree at every place up to flattening |
| DeadLetterWriter.RefusedIffDeadLetter | src/worker/dead-letter.ts:108-117 | only a job of the dead-letter queue is refused, and a job without an id is recorded as `unknown` |
| DeadLetterWriter.SummaryFits | src/worker/dead-letter.ts:125 | the reason in a record has at most 2000 characters, and is cut only if the whole one is longer |
| DeadLetterWriter.WorkerFailureIsLostIff | src/worker/dead-letter.ts:117-137 | a worker's failure gets no record exactly when a value within three causes of its error cannot be classified or throws when rendered, or the error gives no message |
| DeadLetterWriter.RecordRejectsIff | src/worker/dead-letter.ts:196-210 | `record` rejects exactly when serializing its error throws a value that fails to serialize in turn |
| DeadLetterWriter.Writer.Pending | src/worker/dead-letter.ts:219-221 | in whatever run the writer has got here, the calls begun less those settled |
| JobLifecycle.AnnouncementAgreesIff | src/worker/processor.ts:125-146 | announcement and grant differ exactly with an attempt left, for a borrowed final name or an error whose reporting throws something the library treats otherwise; which way they differ is said too |
| JobLifecycle.ReportedErrorsAgree | src/errors/errors.ts:91-106 | for the kit's own classes, and every error that is reported and borrows no name, announcement and grant agree |
| JobLifecycle.KitErrorsAreTreatedAsMeant | src/errors/errors.ts:30-110 | validation and unknown-job errors are final and timeouts and cancellations are not, for the kit and the library alike |
| JobLifecycle.PlainErrorIsRetriedIff | src/worker/processor.ts:125-130 | an error nothing marks as final is retried, and announced, exactly while the attempts the job states leave another, and never if it states none; an unrecoverable one never is |
| JobLifecycle.StepKeepsInvariant | src/worker/create-worker.ts:37-117 | every event, those of runs that lost their lock included, keeps runs, attempts, stalls, counters and dead-letter writes in balance |
| JobLifecycle.RunsAreBounded | src/config/defaults.ts:70-75 | over every run a job that states n attempts starts at most n + 1 runs, and at most n without a stall recovery; one that states none or zero counts as stating one |
| JobLifecycle.PlainErrorsUseAllAttempts | src/errors/errors.ts:6-9 | a job whose every attempt throws a plain error makes exactly its n attempts, n - 1 of them announced as retried, and is recorded once |
| JobLifecycle.SuccessAfterTries | src/worker/processor.ts:115-146 | a job that fails k times and then succeeds with an attempt left is completed after k + 1 runs, and never recorded |
| JobLifecycle.FinalErrorFailsAtOnce | src/errors/errors.ts:6-9 | an unrecoverable error ends the job, and records it, with its first attempt |
| JobLifecycle.LostLockLeavesTheJob | src/config/defaults.ts:70-75 | a lost lock moves no counter; the first stall puts the job back to waiting, and the next fails it, recorded exactly if the event came with the job |
| JobLifecycle.ZombieThrowCounts | src/worker/processor.ts:125-130 | a run without the lock that throws announces a retry by the same rule, and changes nothing else of the job |
| JobLifecycle.UnlabelledNeedsALostJob | src/worker/create-worker.ts:97-103 | only an event without its job leaves a failure unrecorded |
| JobLifecycle.DeadLetteredOnceIffFailed | src/worker/create-worker.ts:97-117 | a dead-letter write is triggered exactly once, with the final attempt count, exactly when the job fails for good and the event carries it; never by an intermediate failure or a run without the lock |
| JobLifecycle.RetryCounterBalances | src/worker/processor.ts:125-130 | the retry counter is the retries granted, less those not announced, plus at most one announced in vain, plus those announced by runs without the lock, of which there are at most two |
| JobLifecycle.RunsAreRetriesPlusOneIff | src/worker/processor.ts:115-146 | without stalls, runs are announced retries plus one from the moment a run is active or the job has ended, exactly when as many retries were granted unannounced as were announced in vain |
| JobLifecycle.TerminalIsAbsorbing | src/worker/create-worker.ts:40-49 | nothing that runs without the lock changes a job that has ended |
| JobRevivals.EveryFailureHasItsRecordIff | src/worker/dead-letter.ts:84-97 | over every life of a job, retries by hand included, the record ids of its terminal failures are distinct exactly when the stalled checker never fails it again without an attempt counted since its last record |
| JobRevivals.SecondStallSharesTheRecord | src/worker/dead-letter.ts:84-90 | a job that stalls out twice uncounted, with a retry by hand between, has two failures with one id |
| JobRevivals.OnlyFinalFailuresAreRecorded | src/worker/create-worker.ts:97-117 | in every life of a job a record is written only as the job fails for good, never for an intermediate failure |
| ErrorReporting.RethrownIff | src/worker/processor.ts:125-146 | an error leaves the catch clause as it was exactly when it can be classified and nothing within three causes fails to serialize |
| ErrorReporting.CaughtAsItIs | src/errors/errors.ts:97-110 | a caught value counts as an error, and as final by class, exactly if it is, and by the name it gives |
| ErrorReporting.FinalErrorIsRetriedIff | src/worker/processor.ts:125-146 | an error of a final class is never announced as retried, and is retried exactly, with an attempt left, when serializing it throws something that is not an unrecoverable error by class or name |
| ErrorReporting.HostileCauseIsRetried | src/worker/processor.ts:132-146 | a final error with a text of its own, whose cause throws a plain error when rendered, is retried |
| AbortRace.FirstEventDecides | src/worker/processor.ts:164-204 | in every order of events the race settles once, as its first event decides |
| AbortRace.TimeoutIffTimerFirst | src/worker/processor.ts:71-107 | the timeout error is raised exactly when the timer fires before work and worker abort, and a value is returned exactly when the work resolves first |
| AbortRace.PreAbortedRejects | src/worker/processor.ts:170-172 | a signal that had already fired rejects with its reason whatever the work does |
| AbortRace.SettledWorkDecides | src/worker/processor.ts:183-184 | work that is settled when a live race begins decides it |
| AbortRace.NothingLeaks | src/worker/processor.ts:174-194 | the abort listener and the attempt's timer are live exactly while the attempt is unsettled |
| AbortRace.UnhandledIffPreAborted | src/worker/processor.ts:170-193 | a rejection of abandoned work is reported as unhandled exactly when the signal had fired before the race began |
| AbortRace.WorkIsRemembered | src/worker/processor.ts:191-193 | how the work settled is what it first settled with, also after it was abandoned |
| JobProcessor.MetricsAreACensus | src/worker/processor.ts:48-150 | in every interleaving each metric counts exactly the calls it is about |
| JobProcessor.MetricsBalance | src/worker/processor.ts:48-151 | calls begun are completed, failed or running; starts are observations plus running calls; completions never exceed starts, nor retries failures |
| JobProcessor.OnlyRunningCallsHoldResources | src/worker/processor.ts:71-74 | the live listeners and timers are those of the running calls |
| JobProcessor.NewCallEndsIff | src/worker/processor.ts:48-107 | a call is left running exactly when its name is known, it validates and no signal has fired; otherwise it ends at once, with the error of an unknown name, else of the signal, else of the envelope, else of the payload |
| JobProcessor.EventDecides | src/worker/processor.ts:71-107 | an event ends the running call it is addressed to as the race decides, the deadline with the timeout; an ended call keeps its result and every other call is untouched |
| JobProcessor.CallIsItsRace | src/worker/processor.ts:96-107 | in every interleaving a call goes through the race of its own events |
| JobProcessor.FirstEventEndsTheCall | src/worker/processor.ts:71-149 | in every interleaving a call left running ends as the first event addressed to it decides, and runs until then |
| JobProcessor.EndingIsCounted | src/worker/processor.ts:109-130 | a call that ends is observed once and completed or failed, and counted as retrying exactly when its error is not final and another attempt is left |
| JobProcessor.BeginningIsCounted | src/worker/processor.ts:48-130 | a call is started exactly if it validates, and one that ends at once is accounted at once by the same rule |
| JobProcessor.EventKeepsInvariant | src/worker/processor.ts:109-149 | an event keeps the metrics a census of the calls |
| JobProcessor.Processor.ProcessJob | src/worker/processor.ts:43-107 | the synchronous part of a call is the model's step: unknown names fail, only validated jobs count as started, and a call that ends at once is accounted at once |
| JobProcessor.Processor.OnEvent | src/worker/processor.ts:109-149 | an event is accounted when, and only when, it ends the call |
| JobProcessor.Processor.Finish | src/worker/processor.ts:109-146 | the success path and the catch clause change the metrics as the model says |
| AbortSignals.Signals.Wait | src/utils/sleep.ts:10-28 | a wait on an aborted signal rejects at once and holds nothing; any other holds exactly its timer and listener |
| AbortSignals.Signals.OnSettled | src/utils/sleep.ts:17-20 | a timer that fires, or work that settles, releases exactly that waiter's timer and listener |
| AbortSignals.Signals.Abort | src/utils/sleep.ts:22-27 | an abort rejects exactly the unsettled waiters of that signal with its reason and releases what they held; a second abort does nothing |
| AbortSignals.Signals.ThrowIfAborted | src/utils/sleep.ts:31-42 | throws exactly what every rejected sleep on that signal was rejected with; when it throws nothing is left waiting on the signal, and when it does not no sleep on it was rejected |
| AbortSignals.SleepAndRaceAgreeIff | src/worker/processor.ts:197-204 | a sleep and a race on one signal reject with the same error, the one the race decides, exactly when its reason is an error or a text; else a sleep says `aborted` |
| AbortSignals.NothingLeaks | src/utils/sleep.ts:10-29 | once every waiter has settled no listener and no timer is left |
| GracefulShutdown.StepsRunInOrder | src/worker/graceful-shutdown.ts:43-61 | under any signals, rejections and timers, steps start in declared order, each once, and only after the one before settled |
| GracefulShutdown.ExitsOnce | src/worker/graceful-shutdown.ts:85-107 | the process exits at most once, with 0 exactly when all steps settled before the deadline |
| GracefulShutdown.SettledStepsComplete | src/worker/graceful-shutdown.ts:43-107 | if every step settles in turn before the deadline, rejected or not, the shutdown completes and exits with 0 |
| GracefulShutdown.NoTimeoutBeforeTheDeadline | src/worker/graceful-shutdown.ts:79-97 | nothing but the deadline makes a shutdown time out |
| GracefulShutdown.RunningLeadsToExit | src/worker/graceful-shutdown.ts:79-107 | until the process is gone a timer is live that leads to its exit, and before the deadline it cannot end by itself, so no step can hang it |
| GracefulShutdown.HungReportsOneIff | src/worker/graceful-shutdown.ts:96-107 | after the deadline, with the running step hung, no continuation ends with code 0 exactly when a handle is open that an unstarted step is to close or, if none is let go, any |
| GracefulShutdown.TimedOutShutdownCanReportZero | src/worker/graceful-shutdown.ts:105-107 | a step that hangs while no step holds a handle ends with code 0 after the deadline |
| GracefulShutdown.RepeatedSignalsChangeNothing | src/worker/graceful-shutdown.ts:68-72 | any run is the run that is left when every call of `shutdown` but the first is taken out of it |
| GracefulShutdown.Controller.Shutdown | src/worker/graceful-shutdown.ts:68-108 | the first call starts the timer and the first step |
| GracefulShutdown.Controller.OnStepSettled | src/worker/graceful-shutdown.ts:44-60 | a settled step, rejected or not, starts the next or ends the loop |
| GracefulShutdown.Controller.OnDeadline | src/worker/graceful-shutdown.ts:79-97 | the deadline decides the outcome and does not stop the steps |
| GracefulShutdown.Controller.OnGrace | src/worker/graceful-shutdown.ts:102-107 | the exit code is 1 exactly after a timeout |
| GracefulShutdown.Controller.OnLoopEmpty | src/worker/graceful-shutdown.ts:105-107 | with no handle open and only the grace timer left the process ends by itself |
| WorkerShutdown.WritesSettleBeforeQueuesClose | src/worker/server.ts:137-167 | when the queues step starts and the drain was not cut short, every write begun before the drain has settled, and every write ever begun if the workers closed |
| WorkerShutdown.EarlierWritesSettleBeforeQueuesClose | src/worker/server.ts:131-167 | in every run, the workers step failed or not, no write begun before the drain started is in flight once a step after the drain has started, unless the drain was cut short |
| WorkerShutdown.DrainWaitsForAllInFlight | src/worker/dead-letter.ts:223-236 | in every run the drain waits for exactly the writes in flight as it starts |
| WorkerShutdown.OnlyItsTimerCutsTheDrain | src/worker/dead-letter.ts:226-236 | nothing but its own timer cuts the drain short |
| WorkerShutdown.WriteStaysUntilSettled | src/worker/dead-letter.ts:211-217 | a write in flight stays so until it settles |
| WorkerShutdown.FailedJobBeginsItsWrite | src/worker/create-worker.ts:97-117 | a job that fails for good begins its write at whatever point of the shutdown |
| WorkerShutdown.RedisClosesLast | src/worker/server.ts:133-166 | redis closes only after every other step has settled |
| WorkerShutdown.DrainingIsMarkedFirst | src/worker/server.ts:138-152 | until a signal arrives every worker takes jobs, and draining has been announced before the first of them stops |
| WorkerShutdown.StepKeepsInvariants | src/worker/dead-letter.ts:223-236 | every event keeps the drain's promise: what it waits for settles, and once workers closed nothing else begins |
| WorkerShutdownLimits.DrainCoversEveryWriteIff | src/worker/server.ts:137-167 | while the drain waits, no continuation that does not cut it short has a write in flight when the queues step has started, exactly when the drain waits for all writes in flight and every worker has closed; leaving the stalled checker aside, exactly when none holds a job |
| WorkerShutdownLimits.AllClosedIffStepSucceeded | src/worker/server.ts:147-152 | every worker has closed exactly when the workers step succeeded |
| WorkerShutdownLimits.FailedCloseLeavesAWrite | src/worker/server.ts:148-156 | if one worker fails to close, a job another one holds can begin a write after the queues step has started |
| WorkerShutdownLimits.WorkersStepHangsIff | src/worker/server.ts:148-152 | unless a close fails, the workers step waits for ever exactly when a worker holds a job whose handler never settles |
| WorkerShutdownLimits.DrainHangsIff | src/worker/dead-letter.ts:223-236 | the drain waits on exactly the writes it found in flight, and its own timer alone always ends it |
| WorkerExit.ControllerRuns | src/worker/graceful-shutdown.ts:43-108 | whatever jobs, writes and workers do, the process drives the controller through one of its own runs, so all that is proved of those holds here |
| WorkerExit.HangingProcessExits | src/worker/graceful-shutdown.ts:79-107 | however long a step hangs, until the process is gone a timer is live, the deadline's leads to an exit with code 1, and it exits at most once |
| WorkerExit.JobOutlivingDeadlineReportsOne | docs/operations.md:271 | while a worker holds a job whose handler never settles, and no close fails, the process reports nothing but 1 whatever else happens, and until then a timer is live |
| WorkerExit.TimedOutReportsOneIff | src/worker/graceful-shutdown.ts:96-107 | after the deadline, with the running step hung, code 1 is certain exactly while the redis step has not started |
| WorkerExit.TimedOutWorkerCanReportZero | src/worker/graceful-shutdown.ts:105-107 | the worker process can overrun its deadline while Redis is being closed and report 0 |
| Enqueue.OneKeyCreatesFewJobs | src/queue/enqueue.ts:118-128 | with a clock that never runs back and one TTL, any window of a given length holds at most 1 + length / TTL jobs created under one key |
| Enqueue.BoundIsReached | src/queue/enqueue.ts:118-128 | calls one TTL apart create a job each, so that bound cannot be lowered |
| Enqueue.CreatesIffTtlPassed | docs/reliability.md:36-44 | an accepted call under a key creates a job exactly when the key has had none, or its last one is a TTL old |
| Enqueue.ReturnedJobIsTheCallers | docs/reliability.md:36-46 | the id an accepted call returns is that of a job created under the caller's own key, or for this very call if it has none |
| Enqueue.SameIdMeansNoNewJob | docs/reliability.md:46-52 | a call that returns an id an earlier call returned created no job |
| Enqueue.LiveKeyKeepsItsJob | docs/reliability.md:36-46 | an accepted call made while the key is live returns the key's job and creates none, whatever was enqueued in between |
| Enqueue.RepeatWithinTtlIsTheSameJob | docs/reliability.md:56-62 | a call that created its job, and a second accepted one with its key within the TTL, return the same id |
| Enqueue.SameJobIffKeyLives | docs/reliability.md:36-52 | in every run, two accepted calls with one key return the same id exactly when the second is made before the key expires as it stood after the first |
| Enqueue.CounterCountsAcceptedCalls | src/queue/enqueue.ts:128-136 | the counter counts every accepted call, collapsed ones included, and jobs created never exceed it |
| Enqueue.DelayOkIff | src/queue/enqueue.ts:83-93 | the delays accepted are exactly the whole milliseconds from none to seven days |
| Enqueue.AcceptedIff | src/queue/enqueue.ts:63-107 | a call is accepted exactly when name, payload, delay and queue are in order, and is otherwise told the first that is not and changes nothing |
| Enqueue.KeylessCallCreates | src/queue/enqueue.ts:118-128 | an accepted call without a key creates a job of its own |
| Enqueue.KeyLifetime | docs/reliability.md:36-44 | a key lives for its TTL, 24 hours if none is given, from the call that created its job, and then creates again |
| Enqueue.Queue.Enqueue | src/queue/enqueue.ts:63-160 | a rejected call leaves the queue as it was; an accepted one adds as the deduplication rule says and is counted |
| HttpToHandler.AcceptedBodiesReachTheirHandler | src/api/routes/jobs.routes.ts:23-56 | every accepted body is enqueued and passes both worker validations, and the handler gets the validated payload and the correlation id of body, else header, else request |
| HttpToHandler.HandlerGetsTheCallersId | src/api/app.ts:95-105 | the handler gets the body's correlation id; without one a header of 1 to 200 letters, digits and `._:-`; and for any other header, or none, the request id |
| HttpToHandler.BodyIsAcceptedIff | src/api/routes/jobs.routes.ts:23-31 | a body is accepted exactly when it has no unknown key, its labels and delay are in range, and its payload parses |
| HttpToHandler.AcceptedBodyKeepsItsKey | src/api/routes/jobs.routes.ts:43-56 | an accepted body is enqueued with its parsed payload and its own idempotency key |
| HttpToHandler.EnqueuedFromCodeReachesHandlerIff | src/queue/enqueue.ts:95-107 | what `enqueue` accepts from code reaches its handler exactly when correlation id and idempotency key have 1 to 200 characters |
| HttpToHandler.PostIsEnqueueWithLabelCheck | src/api/routes/jobs.routes.ts:23-75 | posting a payload with its options is enqueueing them from code, except that only the route refuses a label that does not have 1 to 200 characters, or a key the schema does not know, which code drops |
| HttpToHandler.SplitUndoesTheExtension | src/api/routes/jobs.routes.ts:43-56 | splitting the options off an accepted body gives back the payload schema's own output and the body's correlation id, idempotency key and delay |
| StatusRoute.GetJob | src/api/routes/jobs.routes.ts:129-170 | for every moment the reads take place, a response saying completed or failed carries the time and the result or reason of that one transition, unless, and only unless, the job ended after the first read and was gone at the third |
| StatusRoute.CompletedJobCanBeGone | src/api/routes/jobs.routes.ts:145-170 | a job can complete after the first read and be gone at the third, so that its end is reported without a finish |
| LineForwarder.Forwarder.OnData | scripts/dev.mjs:34-42 | after each chunk exactly the complete lines received are written, and the rest, without a newline, is held |
| LineForwarder.Forwarder.OnEnd | scripts/dev.mjs:43-47 | at the end the held text is written as a last line unless empty |
| LineForwarder.Forward | scripts/dev.mjs:31-48 | for every text and every chunking the output is that of prefixing the whole text line by line |
| LineForwarder.HeldTextReassembles | scripts/dev.mjs:35-41 | the lines written and the text held make up the input |
| LineForwarder.PadEnd | scripts/dev.mjs:28-40 | a label is padded with blanks to the common width and never cut |
| LineForwarder.WrittenLine | scripts/dev.mjs:38-40 | a line is written as the label in brackets, blanks up to the common width, the line, and a newline |
| LineForwarder.WholeTextOfLines | scripts/dev.mjs:30-42 | a text given as lines comes out as those lines, each prefixed once |
| SerializeError.SerializeFailsIff | src/utils/serialize-error.ts:49-122 | serialization fails exactly when some value it would reach, following causes from error to error for the links left, cannot be classified or throws when rendered |
| SerializeError.HostileCauseCannotBeSerialized | src/utils/serialize-error.ts:72-74 | an error with a text of its own, whose cause throws when rendered, cannot be serialized |
| SerializeError.SerializeFollowsCauses | src/utils/serialize-error.ts:49-77 | on every graph, cyclic ones included, what serialization gives is the chain of values reached by following causes from error to error, each serialized on its own, for at most three links |
| SerializeError.SelfCauseUnrollsFourTimes | src/utils/serialize-error.ts:69-74 | an error that is its own cause serializes exactly if it does on its own, and then to four levels |
| SerializeError.SerializedIsUsable | src/utils/serialize-error.ts:49-122 | what serializes has a name and keeps a textual message; it lacks a message exactly when the value carries no text and renders to nothing; a stack comes only from an error that has one |
| SerializeError.SerializedSaysWhatItIs | src/utils/serialize-error.ts:49-122 | name, message, stack and code of a record are the value's own: its name or `Error`, its text or rendering, its truncated stack, and a code that is a text or a number |
| SerializeError.ReasonReads | src/utils/serialize-error.ts:129-132 | a summary is the name, then after a colon the words unless there are none |
| SerializeError.FormatFailsIff | src/utils/serialize-error.ts:108-133 | whatever the limit, summarizing fails exactly when a value within three causes fails on its own, or the value itself carries no text and renders to nothing |
| SerializeError.SilentMessageCannotBeSummarized | src/utils/serialize-error.ts:121-131 | an error whose message is an object that renders to nothing serializes, and cannot be summarized |
| SerializeError.TruncateStackIsBoundedAndIdempotent | src/utils/serialize-error.ts:20-24 | a stack of at most twelve lines is kept; of a longer one the first twelve are, and a marker makes the thirteenth; truncating again changes nothing |
| SerializeError.ReasonFitsIff | src/utils/serialize-error.ts:129-133 | a summary fits its limit exactly when the limit is at least three or nothing had to be cut |
| SerializeError.CutReasonKeepsTheName | src/utils/serialize-error.ts:129-133 | a summary is shortened exactly when it is longer than its limit, then fills it with its own start and three dots, and keeps the error's name whenever the limit leaves three characters more |
| SerializeError.ReasonShowsNameAndMessage | src/utils/serialize-error.ts:129-131 | where there is a message, the summary starts with the name and ends with the message in full; it is never empty |
| Backoff.TotalBackoffIsGeometric | src/queue/defaults.ts:20-22 | the waits between n attempts add up to the base delay times 2^(n-1) - 1 |
| Backoff.DelayInUpperHalf | src/queue/connection.ts:64-70 | every reconnect delay lies in the upper half of its ceiling, so from 100 to 4999 milliseconds |
| Backoff.CeilingOfTry | src/queue/connection.ts:64-70 | the ceilings double from 200 to 3200 milliseconds, and are 5000 from the sixth try on |
| Backoff.EveryDelayIsDrawn | src/queue/connection.ts:64-70 | every whole delay in the upper half of the ceiling is drawn by some draw |
| Backoff.SurelyIncreasesIff | src/queue/connection.ts:64-70 | a try waits longer than the one before whatever is drawn exactly over the first five tries |

## Left out

- Redis, the queue library, the HTTP framework, metrics and logging internals: only the rules above are kept of them.
- `JobLifecycle` and `WorkerShutdown` are on values although the source mutates objects: they compose the kit with the queue library's own state, which the kit does not hold, so aliasing of job objects between events is not modelled.
- `DeadLetterWriter.Writer` splits `record` at its awaits, so that calls can interleave; the promise set is the map of unsettled calls, and microtask order within one task is not modelled.
- DeadLetterProtocol.SizeBound: bounds the list from above only; a lower bound is false under stale counts and is stated where it holds by `DeadLetterRecency.SurvivorsAreTheNewest`.
- JobLifecycle.AnnouncementAgreesIff: takes the library to recognise `UnrecoverableError` by class or by that name, as the kit's comment says it does.
- JobLifecycle.DeadLetteredOnceIffFailed: speaks of the write being triggered; whether it lands is the protocol's subject.
- Enqueue.OneKeyCreatesFewJobs: needs a TTL above zero, as a key without a TTL follows a different rule of the library.
- StatusRoute.GetJob: takes terminal states to be absorbing, so an operator retrying a failed job by hand between two reads is not modelled.
- HttpToHandler: payload schemas are abstract; JSON encoding, timestamps and the payload size limit are not modelled.
- SerializeError: rendering arbitrary values as text is a parameter, which may give none or throw, and so is what a guarded property read returns; a property is taken to read the same each time.
- DeadLetterWriter.Writer: errors of Redis operations are taken to serialize, so that a rejecting `record` (`DeadLetterWriter.RecordRejectsIff`) is one that never got to Redis; what the process does with the unhandled rejection is not followed.
- JobLifecycle: retries by hand are in `JobRevivals` only, and keep the attempts counted, as the record id takes them to.
- Times are natural numbers and strings are sequences of characters; UTF-16 code units and log lines are not modelled.
- Merging of per-definition and per-call job options, retention counts and rate limits: single expressions or library behaviour.
- Signal handler registration and removal, the metrics and health servers, schedulers, environment parsing, redaction and the demo handlers: wiring around the parts above.
