# Verified model of the conversion fleet

This project models the job lifecycle of the video conversion service and proves what its
parts promise each other. The queue of the service is not a separate table: it is the
status, owner and claim time of rows in `videos`, moved by concurrent tasks, crashes,
reclaims and remote status reports. `dafny verify dfyconfig.toml` checks everything.

## What is modelled

| module | part of the system |
|---|---|
| `Videos`, `Repositories` | the `videos` table, every statement issued against it, and the repository object |
| `Timestamps` | `%Y-%m-%d %H:%M:%S` text, its byte order, and calendar time |
| `Pipeline` | the program one task runs for one video, one outcome per step |
| `WorkerSystem` | any number of queues over one database: claims, task steps, panics, crashes, reclaims |
| `Exclusion`, `ClaimAccounting`, `Permits`, `Tally`, `Arithmetic` | what every run of that system keeps |
| `Evictions`, `ReclaimHazards` | exactly which late write loses a job or changes a finished one, and concrete runs |
| `Jobs`, `JobLogs`, `Processor` | the whole job as a function of a script of outcomes, its exact log and stored columns, and the orchestrator object that follows it |
| `JobQueues` | the queue object: permits, claiming, a spawned task, draining |
| `Backoff`, `Retry` | jittered backoff and the retry loops |
| `Master`, `MasterRaces`, `Interleavings`, `SerialRuns` | the status handler, served one request at a time and interleaved statement by statement, and exactly what the interleaving keeps |
| `Mirror` | relaying a worker's changes to the master |
| `Sync`, `Discovery`, `Fleet`, `FleetHazards` | how rows enter a table, and one master with many workers, each with its own database |
| `RemotePaths`, `Publish`, `UploadTargets` | names on the share and the put, check, rename protocol |
| `Quoting`, `Texts`, `Listing`, `RawLines`, `ListedSize` | the command line for smbclient and the parsers of its listings |

Two regimes are kept apart. A reclaim is *accurate* for a video when no live task works on
it, which is what the comment above the reclaim loop assumes
(`src/worker/job_queue.rs:193-197`). Exclusive processing is equivalent to accuracy of all
reclaims; claim accounting, permits and the work bounds hold without it.

Stage outcomes, database answers, clock readings and jitter samples are arbitrary inputs.
The database is one that executes a statement as a whole or not at all.

Where the code and its documentation differ, the model follows the code:

- A final error that is not retryable is not annotated even after earlier retries
  (`src/worker/processor.rs:335-340`), although the comment at lines 296-301 suggests it is.
- A comment lists a resolution above 1080p as a fourth reason to convert; the condition has
  only three (`src/video/analyzer.rs:150-160`), so a small av1 file at 4K is left as it is.
- `discover_videos` returns the number of candidates, not of inserted rows
  (`src/api/video_discovery.rs:84-102` against line 26); `Discovery.CountIsExactIff` says exactly
  when they agree.
- `claimed_at` is never refreshed while encodes may run without limit (CHANGELOG.md:43), so
  a slow job is reclaimed while it runs; `Evictions` says exactly when that loses a job or
  changes a finished one, and `ReclaimHazards` has runs in which it does.
- `ORDER BY created_at` breaks no ties, so any oldest row may be claimed.
- The listing parser joins the words of a name with single spaces and takes the first word
  `A`, `D` or `AH` for the flag, also inside a name; a file with any other attribute word is
  not found. `RawLines.FileIsReadIff` and `RawLines.DirectoryIsSkippedIff` say exactly which
  names and attribute words are read as what they are.
- Listed lines are trimmed before the name is looked for, so the size of a file whose name
  starts with white space is never found and its upload never succeeds; see `ListedSize.ListedSizeIsRead`
  and the contract of `Publish.SmbClient.UploadFile`.
- The handler checks a transition on the row it read earlier; `MasterRaces` and
  `Interleavings` say what survives concurrent requests and on which conditions the rest does.
- Every worker pulls the same pending rows into a database of its own and no step of its
  pipeline reports to the master, so two workers can process one video without any reclaim;
  see `FleetHazards.TwoWorkersOneVideo` and `UploadTargets.TargetsMeetAcrossWorkers`.
- Two sources that differ only in their extension are published under one name;
  `RemotePaths.ConvertedNamesClash` says exactly when.

## Model

| member | source | states |
|---|---|---|
| Exclusion.ExclusiveIffReclaimsAccurate | src/worker/job_queue.rs:193-217 | in every run, a video has at most one live task and that task's program point fits its row at every state, if and only if no reclaim took it from a live task |
| Exclusion.ReclaimKeepsExclusiveIff | src/db/repository.rs:214-240 | one reclaim step preserves exclusivity exactly when it was accurate for the video |
| Exclusion.ExactlyOnePhase | src/db/repository.rs:96-109 | a row processed exclusively is pending without task, held by one matching task, abandoned but selected by every later cutoff, or terminal, and exactly one of these |
| Exclusion.TerminalStaysInRun | src/worker/processor.rs:403-440 | with accurate reclaims, status, size and error of a done or failed row never change again |
| ClaimAccounting.ClaimsBalanceReclaims | src/db/repository.rs:85-109 | under any reclaims, claims minus reclaims of a video is 1 while `claimed_at` and `instance_id` are set and 0 otherwise, and pending rows are unclaimed |
| ClaimAccounting.ReclaimBetweenClaims | src/db/repository.rs:203-240 | between two claims of one video some reclaim selected it |
| ClaimAccounting.StageCallBound | src/worker/processor.rs:302-344 | total stage calls of a run never exceed (2 * Max(1, max_attempts) + 2) * (videos + reclaims) |
| ClaimAccounting.AttemptsBound | src/db/repository.rs:175-186 | a row's `attempts` never exceeds 2 * (Max(1, max_attempts) - 1) * (its reclaims + 1) |
| ClaimAccounting.ClaimIsTheLastOne | src/db/repository.rs:96-109 | in every run a claimed row carries the instance of the queue that made its last claim and the time of that claim, and no reclaim selected it since |
| ClaimAccounting.StageCallsAreCounted | src/worker/processor.rs:302-344 | the counted stage calls grow by one exactly when a task begins a download, an analysis, a conversion or an upload |
| WorkerSystem.EnvironmentIsFree | src/worker/job_queue.rs:105-217 | no run can be held up by the model: any live task may fail, go on or panic, a process may crash, a reclaim may come with any cutoff, and a claim may take any oldest row, find none or fail |
| Permits.PermitsConserved | src/worker/job_queue.rs:105-149 | free permits, the claim loop's permit and live tasks add up to max(1, max_parallel_jobs) through empty queue, errors, panics and crashes |
| Permits.EncodesFitCores | src/video/optimizer.rs:144-147 | the threads of all live AV1 encodes of one worker never exceed max(total_cores, max(1, max_parallel_jobs)) |
| Permits.ThreadsAreTheShare | src/video/optimizer.rs:144-147 | the threads of a job are the largest equal share of the cores, and at least one |
| Evictions.NeverStrandedIff | src/db/repository.rs:214-240 | in every run, `v` is never in progress without a claim time if and only if no task ever stored its next stage status on a row whose claim had been taken away |
| Evictions.StrandedCanBeLost | src/worker/processor.rs:551-582 | from a row in progress without a claim time some continuation ends with no task for it either, and the job is lost |
| Evictions.TerminalHoldsIff | src/worker/processor.rs:403-440 | a done or failed row keeps its status through a stretch of a run if and only if no late write of its tasks gives it another: a stage status, a result on a failed row, or a failure on a done one |
| Evictions.AccurateMeansNoLateWrite | src/worker/job_queue.rs:193-197 | while reclaims are accurate no such write occurs, and no row is stranded or lost |
| ReclaimHazards.DoubleProcessing | src/worker/job_queue.rs:198-217 | a run in which a reclaim of a running encode leaves two live tasks on one video |
| ReclaimHazards.LostJob | src/db/repository.rs:214-240 | a run with such a stage write after the reclaim, ending with a row in progress, unclaimed and without a task |
| ReclaimHazards.StuckForever | src/db/repository.rs:228-234 | such a row is never claimed or reclaimed again in any continuation |
| ReclaimHazards.DoneTurnsFailed | src/worker/processor.rs:403-440 | a run in which an evicted task's late write turns a done row into a failed one |
| Timestamps.TextOrderIsTimeOrder | src/db/repository.rs:215-238 | for valid times with four-digit years, byte order of the rendered text is order of whole seconds |
| Timestamps.MixedFormatsSayOlder | src/db/repository.rs:215-225 | on one date, text with a space separator is always below text with a `T` separator |
| Timestamps.TextReadsBack | src/db/repository.rs:215-219 | every field of a time with a four-digit year is read back from its place in the text |
| Timestamps.SecondsCountTicks | src/db/repository.rs:215-219 | the seconds of a time count the ticks of the civil calendar since year 0, over month ends and leap days |
| Timestamps.DaysBeforeYearIs | src/db/repository.rs:215-219 | the Gregorian leap rule in closed form |
| Videos.ReclaimCutoff | src/worker/job_queue.rs:22-25 | a selected row was claimed more than 30 minutes ago, and an in-progress row claimed 30 minutes and one second ago is selected |
| Videos.ClaimFindsARow | src/db/repository.rs:96-109 | there is a claimable oldest row exactly when some row is pending |
| Videos.InsertKeepsSchema | migrations/0000_init.sql:9-22 | an accepted insert keeps ids and file paths unique |
| Repositories.Repository.ClaimNextPending | src/db/repository.rs:96-109 | the claimed row is an oldest pending one, now downloading and carrying the caller's instance and the time of the statement; nothing else changes, None means nothing was pending, and a refused statement changes nothing |
| Repositories.Repository.ReclaimStaleJobs | src/db/repository.rs:214-240 | exactly the in-progress rows whose claim time text is below the cutoff's are returned, as released: pending, unowned, unclaimed and otherwise as before; all other rows stay |
| Repositories.Repository.SetVideoOwnerIfUnclaimed | src/db/repository.rs:76-83 | an owned row and every other row stay as they are; an unowned one gets the owner and nothing else |
| Repositories.Repository.InsertVideo | src/db/repository.rs:16-29 | the insert succeeds exactly when id and path are free and the database answers; it adds a row without owner, claim, metadata or attempts, and otherwise changes nothing |
| Repositories.Repository.GetPendingVideos | src/db/repository.rs:39-47 | distinct pending rows as stored, as many as the limit allows |
| Repositories.Repository.IncrementAttempts | src/db/repository.rs:175-186 | counts one attempt, notes the time and reports the new count; a missing id is an error |
| Repositories.Repository.UpdateVideoResult | src/db/repository.rs:136-153 | stores the size, status and time in that row and nothing anywhere else |
| Repositories.Repository.FailVideo | src/db/repository.rs:158-169 | stores failed, the message and the time in that row and nothing anywhere else |
| Pipeline.StepMatches | src/worker/processor.rs:487-617 | every program step keeps the program point and the row's status in agreement, and a status change is one the master accepts |
| Pipeline.ConvertsUnlessKept | src/video/analyzer.rs:150-160 | a file is left as it is exactly if it is av1, has at most 2,000,000,000 bytes and at 1080p at most 5000 kbps |
| Pipeline.CastsKeepSmallValues | src/worker/processor.rs:529-543 | the casts to `i64` and `i32` keep values of their range and wrap all others into it |
| Jobs.JobOutcome | src/worker/processor.rs:403-440 | when the database answers, the job ends done with the final size exactly when the script succeeds, otherwise failed with the message of the operation that failed (annotated with its calls if retries ran out); no other row changes; events are bracketed and end with the one matching job event |
| Jobs.AnyJobOutcome | src/worker/processor.rs:403-440 | whatever the database answers: no other row changes, owner and claim time stay, the events are bracketed to match the result, Ok means done with that size, Err means failed with that message or still in progress |
| Jobs.RunReaches | src/worker/processor.rs:487-617 | the job reaches a point only if the script brought every earlier stage through |
| JobLogs.ConvertsIff | src/worker/processor.rs:540-617 | once downloaded and analyzed, a file's conversion starts if and only if its codec is not av1, or it exceeds 2,000,000,000 bytes, or it has more than 5000 kbps at 1080p; otherwise the row ends done with the analyzed size |
| JobLogs.JobLogIs | src/worker/processor.rs:487-617 | the log of a job is exactly the started and completed pairs of its stages in order, the failed one closing with its message, and the job's own events around them |
| JobLogs.JobStoresMetadata | src/db/repository.rs:113-134 | a job whose analysis succeeds leaves codec, bitrate and size in its row, however it ends |
| Processor.ProcessorOrchestrator.RunStageWithRetry | src/worker/processor.rs:302-344 | calls stop at success, at an error not worth retrying or at Max(1, max_attempts), and nowhere else; increments are calls minus one; the final error is annotated with stage and calls exactly if retryable after more than one call; the rest of the job follows the small-step program |
| Processor.ProcessorOrchestrator.ConvertAndUpload | src/worker/processor.rs:551-617 | Ok returns the converted size, a refused status write or a failed conversion its message; the branch follows the small-step program from its first status write |
| Processor.ProcessorOrchestrator.ProcessOneInner | src/worker/processor.rs:487-617 | the stages, early exit and writes in between follow the small-step program to its end or its first failure |
| Processor.ProcessorOrchestrator.ProcessOne | src/worker/processor.rs:403-440 | table, events and statements after a call are those of the whole program, Ok exactly when it completes, Err with the message it failed with |
| JobQueues.JobQueue.ClaimAndSpawn | src/worker/job_queue.rs:105-149 | a spawned task keeps the permit; its row, an oldest pending one, is now downloading with the queue's instance and the claim's time; an empty queue or an error gives the permit back and changes nothing |
| JobQueues.JobQueue.RunSpawned | src/worker/job_queue.rs:119-140 | a task that ends frees its permit and leaves the table of the job plus the queue's own failure write |
| JobQueues.SpawnedJobOutcome | src/worker/job_queue.rs:124-133 | when it has ended the row is done with the final size exactly if the script succeeds, else failed with the reported message, and the queue's second failure write moves at most `updated_at` |
| JobQueues.JobQueue.DrainPending | src/worker/job_queue.rs:289-302 | for any database answers, k answered claims hand out the k oldest pending rows (all if fewer), once each, in non-decreasing `created_at`, and leave other rows alone; the queue is found empty exactly when there are more answers than pending rows, and then the claimed rows are a permutation of them |
| Backoff.DelayBounds | src/error/retry.rs:59-80 | a jittered delay is within one fifth of the capped value and at most 6/5 of the cap |
| Backoff.CappedIs | src/error/retry.rs:59-80 | the capped value is the cap, or base * 1.5^attempt rounded down while that is below the cap |
| Backoff.JitterIsOnto | src/error/retry.rs:59-80 | every delay within one fifth of the capped value occurs for some jitter sample |
| Backoff.DelaysGrow | src/error/retry.rs:226-239 | below the cap, any jittered delay of one attempt is at most any jittered delay of the next |
| Backoff.TotalSleepCapped | src/error/retry.rs:59-80 | k sleeps last at most k times 6/5 of the cap |
| Backoff.TotalSleepGeometric | src/error/retry.rs:59-80 | k sleeps last at most 6/5 * base * 3 * (1.5^k - 1) |
| Backoff.SyncDelayDoubles | src/sync/coordinator.rs:269-276 | the sync delay is 500 ms doubled per attempt, up to 30 s; the clamp on the exponent never shows |
| Retry.RetryWithBackoff | src/error/retry.rs:85-102 | calls stop at success, at an error not worth retrying or at Max(1, max_attempts), and nowhere else; the last outcome is returned unchanged, after one sleep per retry |
| Retry.WithBackoff | src/sync/coordinator.rs:393-411 | the same stopping rule with three calls at most; no sleep, 1 s or 3 s in all |
| Retry.SameCalls | src/worker/processor.rs:302-344 | loops that obey the stopping rule with the same limit and classifier make the same calls |
| Retry.RetrySleepBound | src/error/retry.rs:85-102 | the sleep of a whole retry loop meets the cap bound and the geometric bound |
| Master.MasterApi.UpdateVideoStatus | src/api/handlers.rs:109-206 | for every answer of the database: NotFound exactly if the text is known and the id absent, Conflict exactly if the row has another owner, BadRequest exactly if the text is unknown or the owner agrees and the transition is not listed, in the handler's order; an accepted report stores owner, status and time, and with done and failed the size and message or their defaults; a refused statement answers with a server error |
| Master.HandleAsDocumented | src/api/handlers.rs:109-206 | the same of the atomic handler that all runs of requests are built from |
| Master.TransitionTexts | src/api/handlers.rs:90-106 | the whitelist is exactly the nine listed pairs of status texts, and the six texts are the known ones |
| Master.RefusedChangesNothing | src/api/handlers.rs:109-206 | a request refused with a 4xx answer leaves the table as it was |
| Master.HandleMovesRow | src/api/handlers.rs:109-206 | a request changes a row only by an accepted transition reported by its owner, and a recorded owner stays |
| Master.AcceptedReportsAgree | src/api/handlers.rs:86-206 | serially, all accepted reports for a video carry one instance id and strictly climb the stage order |
| Master.AtMostFourAccepted | src/api/handlers.rs:90-106 | serially, at most four reports are ever accepted for a video |
| Master.TerminalRowsAreFixed | src/api/handlers.rs:90-106 | serially, a terminal row keeps status, size and owner |
| MasterRaces.SerialIsUninterrupted | src/api/handlers.rs:109-206 | the interleavable statements run without interruption equal the atomic handler, for every answer of the database to each |
| MasterRaces.RequestsAreFree | src/api/handlers.rs:109-206 | requests arrive at any time, any open one may go on with any database answer, and a new pending row with free keys may appear |
| MasterRaces.OwnerIsForever | src/db/repository.rs:76-83 | under every interleaving a recorded owner never changes and no row returns to pending |
| MasterRaces.OnlyTheOwnerIsAccepted | src/api/handlers.rs:109-206 | under every interleaving a request that reads after the owner was recorded is accepted only from that owner |
| MasterRaces.RaceBreaksSerialGuarantees | src/api/handlers.rs:109-206 | an interleaving in which two instances are accepted and a failed row goes back to downloading |
| Interleavings.AcceptedIff | src/api/handlers.rs:109-206 | under every interleaving a request is accepted if and only if the row it read passes the checks and all its statements are answered |
| Interleavings.LateWriteIsAcceptedIff | src/api/handlers.rs:90-106 | a write that was overtaken still makes an accepted transition exactly when it fails a row that is not terminal or finishes one downloading or uploading |
| Interleavings.ClimbsIffHarmless | src/api/handlers.rs:130-193 | in a run with any interleaving every status change of a row is an accepted transition if and only if no write hits a row that left the status it was read in, except those two and repetitions |
| Interleavings.HarmlessRunClimbs | src/api/handlers.rs:90-106 | then rank never falls, equal rank is equal status, and terminal rows keep their status |
| Interleavings.TerminalSurvivesIff | src/api/handlers.rs:172-186 | in any run a terminal row keeps its status if and only if no late write carries another one |
| Interleavings.RaceRevives | src/api/handlers.rs:109-206 | the run of `RaceBreaksSerialGuarantees` contains such a write |
| Interleavings.AcceptedBound | src/api/handlers.rs:90-106 | in any run at most four reports are accepted for a video, plus four for each untimely write |
| Interleavings.AtMostFourConcurrently | src/api/handlers.rs:90-106 | the four-report bound holds under every interleaving whose writes are timely |
| Interleavings.FiveCanBeAccepted | src/api/handlers.rs:109-206 | a run with a late write in which five reports for one video are accepted |
| Interleavings.TimelyReportsDiffer | src/api/handlers.rs:86-106 | then no two written reports for a video have the same rank, and none is ahead of the row |
| Interleavings.OwnersWriteIff | src/db/repository.rs:76-83 | in any run all writers of a video are its recorded owner if and only if no owner statement found another instance recorded |
| Interleavings.AcceptedShareInstance | src/api/handlers.rs:148-170 | then all accepted reports for the video carry one instance id |
| Interleavings.AcceptedAreOwnersIff | src/api/handlers.rs:158-193 | at the end of any run all accepted reports for a video are its recorded owner's if and only if no request that found another owner recorded had all its later statements answered |
| Interleavings.TimelyWritesCanMixInstances | src/api/handlers.rs:158-170 | a run in which two instances are accepted for one video although no write was overtaken |
| SerialRuns.SerialIsTimely | src/api/handlers.rs:109-206 | in a run whose requests do not overlap, discoveries included, no write is late and no owner statement is lost |
| SerialRuns.SerialGuarantees | src/api/handlers.rs:86-206 | so the four-report bound, one owner, distinct ranks, climbing and fixed terminal status follow for such runs from the interleaved conditions |
| Mirror.ChangesChain | src/worker/processor.rs:487-617 | the status changes of a video not reclaimed in a run form a chain the master's whitelist accepts link by link, ending in the current row |
| Mirror.RelayGoesOn | src/sync/coordinator.rs:372-388 | any relay can be continued by the next change, a replay, another's request or a discovery, however the statements are answered |
| Mirror.MasterMirrorsWorker | src/sync/coordinator.rs:372-388 | relaying those changes in order with any retries and replays, for any answers of the master's database, among other videos' requests, discoveries and foreign requests: the master's status, size, owner and, on failed rows, message equal the worker's as of the last change whose write was answered (before the first, the owner may already be recorded); a delivery is accepted exactly if it is the next and fully answered; a replay changes nothing |
| Sync.Coordinator.SyncWithMaster | src/sync/coordinator.rs:319-360 | existing rows stay, uniqueness is kept, the returned number is exactly the number of rows added; the table is that of the answered inserts with free keys, over the whole list on Ok and up to the first unanswered lookup, whose error is reported, on Err |
| Sync.SecondSyncAddsNothing | src/sync/coordinator.rs:319-360 | the same list a second time adds nothing, whatever duplicates and path clashes it has |
| Sync.OnlyListedAreAdded | src/sync/coordinator.rs:319-360 | every added row is a fresh pending row with a listed video's id, path and times, and every other column empty |
| Fleet.FleetIsFree | src/sync/coordinator.rs:319-360 | workers and master move independently, a fetch may return any pending rows, and a sync may insert, skip or stop at any entry |
| Fleet.NoLateArrival | src/api/handlers.rs:37-60 | once a video has left pending at the master, no sync inserts it into a worker that neither knew it nor had fetched it |
| Fleet.ArrivesIff | src/sync/coordinator.rs:319-360 | a worker comes to hold a video if and only if it takes it from the head of its list; no other row is ever in the way |
| Fleet.LateArrivalIff | src/sync/coordinator.rs:319-360 | after a video left pending at the master, it can still reach a worker without it, in some continuation of the run, if and only if that worker's fetched list names it |
| Fleet.CanArriveIff | src/sync/coordinator.rs:319-360 | in general it can if and only if the list names it or it is still pending at the master |
| Fleet.KnownWasFetched | src/api/handlers.rs:37-60 | whatever a worker holds or has on its list it fetched while it was pending at the master |
| Fleet.RunKeepsAgreement | src/sync/coordinator.rs:336-350 | every copy of a video on any worker has the master's file path and creation time |
| FleetHazards.LateArrival | src/sync/coordinator.rs:319-360 | a run in which a worker inserts a video that another worker has already reported on |
| FleetHazards.TwoWorkersOneVideo | src/main.rs:330-374 | a run without any reclaim in which two workers hold live tasks for one video |
| Discovery.VideoDiscovery.DiscoverVideos | src/api/video_discovery.rs:27-103 | for any answers of the database: the count is that of listed videos whose path is no id yet, exactly the answered inserts with free keys are stored, existing rows stay, and count and growth agree as in the next row |
| Discovery.CountIsExactIff | src/api/video_discovery.rs:84-102 | the count equals the rows added exactly when no path is listed twice, none is already another row's path and every insert is answered |
| Discovery.CountCanExceedInserts | src/api/video_discovery.rs:84-102 | a listing whose count is larger than what is stored, whatever the database answers |
| Discovery.RefusedInsertIsCounted | src/api/video_discovery.rs:91-102 | a new path whose insert is refused is counted and not stored |
| Discovery.SecondScanAddsNothing | src/api/video_discovery.rs:54-95 | scanning the same listing again leaves the table as it is |
| Discovery.CandidatesInOrder | src/api/video_discovery.rs:54-84 | each listed path is judged on its own and listing order is kept |
| Discovery.AddedRowsAreTimed | src/api/video_discovery.rs:86-95 | every added row is pending, has its path for id, and carries the clock's reading of one answered insert of that path |
| RemotePaths.ConvertedRemote | src/worker/processor.rs:621-632 | the converted file lands in its source's directory under the source's stem |
| RemotePaths.ExtensionIsDropped | src/worker/processor.rs:620-632 | `dir/stem.ext` becomes `dir/stem_codec.mkv` whatever the extension |
| RemotePaths.RootNamesConvert | src/worker/processor.rs:620-632 | a name without directory keeps none, and a name without extension is its own stem |
| RemotePaths.UploadNeverReplacesItsSource | src/worker/processor.rs:586-595 | neither the final nor the temporary upload name is the source's own |
| RemotePaths.ConvertedNamesClash | src/worker/processor.rs:621-632 | two videos are published under one name exactly when directory and stem agree; a temporary name is never a final one |
| UploadTargets.SharedTargetNeedsSameStem | src/worker/processor.rs:595-608 | over one database with accurate reclaims, two upload tasks work on different rows, and their targets are equal exactly when the rows share directory and stem |
| UploadTargets.TargetsMeetAcrossWorkers | src/worker/processor.rs:595-608 | across workers, for any reclaims, two upload tasks have one target exactly when their rows share directory and stem; on one video that is always so, and each worker fetched it while it was pending at the master |
| Publish.SmbClient.UploadFile | src/nas/smb_client.rs:295-342 | at every intermediate state the final name holds what it held or the entire local file and no third file changes; Ok means the entire file and occurs exactly when the whole file was put, its size read back from the listing and renamed; never for a name that starts with white space; a size mismatch reports the true sizes and publishes nothing; the result is that of the first command that went wrong, and the share moves as one uploader of the step relation does |
| Publish.SmbClient.UploadWithRetries | src/worker/processor.rs:595-608 | the same over the whole retry loop, which stops at the first success, at an error not worth retrying or at Max(1, max_attempts) and returns that attempt's result |
| Publish.AttemptEnds | src/nas/smb_client.rs:295-342 | an attempt publishes its put only if it was listed, complete and renamed; a put of another size is removed if that works, and everything else leaves the final name alone |
| Publish.CommandsMayFail | src/nas/smb_client.rs:295-342 | in every phase the uploader may stop and its next command may fail, the rename also after taking effect |
| Publish.PrintedListingIsTrue | src/nas/smb_client.rs:344-353 | a listing as servers print it yields no other size than the true one, and yields it unless the name starts with white space |
| Publish.QuietPublishIsWhole | src/nas/smb_client.rs:295-342 | for any number of uploaders of one name and any failures, stops and retries: while no put endangers another uploader's file, the final name is old or one entire file, and a reported success is the reporter's entire file |
| Publish.PutIsSafeIff | src/nas/smb_client.rs:310-342 | after any such run a next put can mislead someone if and only if it endangers another uploader: one renaming, unless both files are empty, or one sizing whose file differs from the equally long beginning of the put file |
| Publish.SingleUploaderIsSafe | src/nas/smb_client.rs:286-294 | with one uploader per name that needs no further condition |
| Publish.TwoUploadersCanTear | src/nas/smb_client.rs:318-342 | two uploaders of one name can publish a torn file with success reported |
| Quoting.TwoPassesAreOne | src/nas/smb_client.rs:404-411 | replacing backslashes and then quotes is one escape per character |
| Quoting.ReadUndoesRender | src/nas/smb_client.rs:404-411 | a lexer for quotes, escapes and semicolons reads back every rendered list of commands, whatever the arguments contain |
| Quoting.PutCommandIsRead | src/nas/smb_client.rs:310-317 | the put command line is read as its three commands with exactly the given names |
| Listing.ParseSmbclientLs | src/api/video_discovery.rs:217-274 | the loop returns the paths the lines mean, each under the folder of the latest header |
| Listing.ParseUndoesPrint | src/api/video_discovery.rs:210-274 | for every printed sequence of headers, entries and meta lines, exactly the full paths of the file entries in order: the name alone under `/` or no folder, else folder, slash and name |
| Listing.FilesBelow | src/api/video_discovery.rs:262-268 | the i-th of a run of file entries is found at `folder/name_i`, or at `name_i` under `/` or no folder |
| Listing.HeaderMovesFiles | src/api/video_discovery.rs:226-236 | files after a header are found below it, files before any header below the base path |
| RawLines.FileIsReadIff | src/api/video_discovery.rs:221-268 | for any name and attribute word, the line is read as a file of that name exactly when the word is `A` or `AH`, the name is single-spaced, has no flag-like word, and starts neither like a header nor like a meta line |
| RawLines.DoubleSpaceIsLost | src/api/video_discovery.rs:243-260 | a file called `a  b` is read as `a b` |
| RawLines.UnknownAttributesAreSkipped | src/api/video_discovery.rs:247-252 | an entry whose attribute word is none of `A`, `D`, `AH`, with no flag-like word around it, is not found |
| RawLines.DirectoryIsSkippedIff | src/api/video_discovery.rs:226-257 | a directory with any name that is not blank is skipped exactly when it starts like a meta line, or not like a header and its first flag-like word, if any, is `D`; with another flag word first it is read as a file named by the words before that |
| RawLines.DirectoryReadAsFile | src/api/video_discovery.rs:247-257 | a directory named `A Team` is read as a file with an empty name |
| ListedSize.ListedSizeIsRead | src/nas/smb_client.rs:530-546 | for any name, attributes and u64 size, behind any lines that yield no size, the size check reads exactly the size column, unless the name starts with white space, and then nothing |
| ListedSize.U64IsParsed | src/nas/smb_client.rs:530-546 | a number is read up to the largest u64, with or without a plus sign, and nothing larger is |
| Texts.ReturnsAreDropped | src/nas/smb_client.rs:530-546 | a carriage return before a line feed is no part of the line |

## Left out

- TLS, HTTP transport, mDNS and Discord notifications: plumbing around the protocols above.
- Running smbclient, ffmpeg, ffprobe and df: replaced by arbitrary outcomes.
- SQLite internals, pooling and migrations: a statement is atomic, or fails without effect, and enforces the keys; a statement that fails after committing is not modelled.
- Tokio scheduling, real clocks and liveness: runs are finite sequences of enabled steps.
- Progress display and logging: the lifecycle events of a job are counted as sent, although the real channel may drop them; transfer and encoding progress events are dropped.
- Work directories: creating one may fail, but sanitized names can collide (`src/worker/processor.rs:488-494`) and no isolation is claimed.
- Download size verification: `download_file` only checks that the partial file exists (`src/nas/smb_client.rs:277-281`), so nothing is claimed about downloaded content.
- Floating point: backoff uses the exact rational 3^n / 2^n with floor division instead of `f64`.
- The marker lists of the retryable-message classifier: every result holds for any classifier.
- Preset and CRF selection (`src/video/optimizer.rs:82-139`): table lookups; note that unknown and numeric presets are ranked as `slow`, unlike CHANGELOG.md:46.
- `update_video_error`, instances, heartbeats, logs, configuration and the command line: easy members.
- `created_at` is an integer order key, and `duration_secs` is not part of the metadata.
- Unicode case folding of file extensions: discovery holds for any extension filter.
- The put of the model leaves a prefix of the local file, a rename is atomic, and no size but the true one is read from a reply (`Publish.TrueSizes`); servers that break this are not modelled.
- Quoting assumes a reader that knows double quotes and backslash escapes, as the source's comment states; the real smbclient is not part of this model.
- An smbclient that outlives its stopped process (`src/nas/smb_client.rs:118-131` sets no kill on drop): `Publish.Stop` ends the put with the process. An orphaned put is covered only as another uploader of the same file.
- JobQueues.JobQueue.DrainPending: no insert or reclaim happens in between; the infinite claim loop itself is covered by the runs of `WorkerSystem`.
- Repositories.Repository.GetPendingVideos: which pending rows a limit selects is left open, as the query has no order.
- UploadTargets.SharedTargetNeedsSameStem: covers the tasks of one database; tasks of different workers are the subject of `UploadTargets.TargetsMeetAcrossWorkers`.
- Mirror.MasterMirrorsWorker: requires that the video was not reclaimed during the run; after a reclaim the code gives no such agreement.
