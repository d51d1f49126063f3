# SnowPanel: verified models

SnowPanel is a server panel: a Go backend, a Rust agent on the managed host and a browser front end. This project models
the five parts of it that keep state over time, and proves what they keep.

**The task queue** (`TaskTable`, `TaskRepository`, `TaskLedger`, `TaskWorker`, `LeaseSafety`, `LeaseLimits`,
`RetrySpacing`, `RetryPolicy`, `TaskOutcome`, `TaskCreation`). Each SQL statement is one atomic step on the table. Any number of workers,
sweeps and cancelling operators interleave, and a check and the write after it are two steps. `TaskLedger` proves what
survives every interleaving; `LeaseSafety` proves the textbook life cycle when renewals are timely, checks can read, and no
conflicting write to the same task falls between the halves of a check/write pair; `LeaseLimits` shows that each of the
three conditions is needed.

**The crontab service** (`CronText`, `CronDocument`, `CronRoundTrip`, `CronAccounting`, `CronService`, `CronRefinement`,
`Decimal`). The stored text is a string. Reading, writing and the operations are modelled down to characters, and the text
is shown to refine a plain list of tasks beside foreign lines that never change.

**File transfer** (`RemoteFile`, `FileUpload`, `FileDownload`, `ContentRange`). The browser's retry loop calls the
backend's chunk loop, which calls the agent's reads and writes at an offset. A failing attempt may have applied any prefix
of its writes, and reads may be short.

**The login limiter** (`LoginLimiter`, `LoginHistory`, `LoginInterval`, `RedisLimiter`,
`RedisMirror`, `RedisLimits`, `RedisLockout`). The in-memory limiter with arrays
compacted in place refines a history that forgets nothing. The shared limiter's Lua script is modelled command by command and
compared with the in-memory limiter that sees the same events.

**Sessions** (`Session`, `SessionRotation`, `SessionPasswords`, `RbacChecksum`). The last login time is the number of a user's session. Runs
are arbitrary interleavings of whole calls, with any clock, any failing step and administration in between.

## Where the code falls short of what one would expect

The models follow the code. These lemmas give the exact condition, or a run, where an expected property fails.

- A terminal status can be overwritten by the write half of a divided check/write pair: `LeaseLimits.TerminalOverwritten`,
  `SuccessOverwrittenByStraddledCancel`, `CancelUndoneByStraddledProgress`.
- A cancellation check that cannot read the row counts as passed, and the write after it undoes a cancellation:
  `LeaseLimits.CancelUndoneByFailedRead`.
- A stale execution can fail a later attempt that its own process has claimed, with the pause of the wrong attempt:
  `RetrySpacing.PauseOfTheRow`, `TwinShortensPause`.
- A worker lost during a task's last attempt leaves the task pending for good: `TaskLedger.ReleasedTaskRecoverable`.
- A cron expression may contain a line end between its fields, and then damages the document:
  `CronRefinement.SoundIffOneLine`, `ExecSoundIff`. Creation reports the expression as typed, not as stored: `ReportedIsStored`.
- Enabling a task whose entry carries two comment signs reports it enabled and stores another, disabled one:
  `CronRefinement.SwitchSoundIffUncommented`.
- A foreign line that ends with a carriage return loses one with every rewrite: `CronRoundTrip.RoundTrip`,
  `RewriteKeepsAnyText`.
- Dropping blank lines can turn somebody else's lines into a task: `CronRoundTrip.BlankLineLostMakesTask`.
- A first-login token survives the password change while the clock stands still or goes back:
  `SessionRotation.FirstLoginTokenOutlives`.
- The limiter bounds the failures of an interval only as far as overlapping attempts are bounded:
  `LoginInterval.FailuresPerInterval`, `BoundIsReached`.
- The in-memory limiter forgets a lock when the clock goes back: `LoginHistory.ClockMustNotGoBack`.
- The script's fixed windows miss bursts that the sliding window catches: `RedisLimits.MemoryLocksAlone`. With a lock shorter
  than the window, the fallback may admit at the moment the script locks: `RedisLimits.FallbackRefusesIff`.
- A success that does not reach the Redis server leaves its counter running: `RedisLimits.LostSuccessLocksServerAlone`.

## Model

| member | source | states |
|---|---|---|
| RetryPolicy.HeartbeatFitsLease | backend/internal/service/task_service.go:1199-1211 | For every lease the renewal interval fits the lease exactly when the lease is at least 50 ms (or 1 or 2 ns); from 150 ms on it is a third of it, rounded down; below it is 50 ms; without a lease 10 s |
| RetryPolicy.BackoffShape | backend/internal/service/task_service.go:1237-1249 | For every integer attempt the pause lies between 1 s and 30 s, doubles up to the cap, never shrinks, and reaches its two ends exactly at attempts 1 and 6 |
| RetryPolicy.BackoffMonotone | backend/internal/service/task_service.go:1237-1249 | The pause is monotone over all integers |
| TaskTable.Apply | backend/internal/repository/task_repository.go:43-183 | One statement on the whole table: rows it does not address are untouched, none is removed, and a row is added exactly by a creation whose key is free |
| TaskRepository.Repository.Create | backend/internal/repository/task_repository.go:43-48 | In place: a pending, unlocked row without attempts and with a limit of at least one is added, unless its idempotency key is taken, which is an error that changes nothing |
| TaskRepository.Repository.ClaimNextTask | backend/internal/repository/task_repository.go:50-90 | In place: picks a pending row that is due, has attempts left and is not locked by another transaction, and an oldest such row; answers none only if there is none. The row becomes running under the worker's lease, counts one attempt and keeps its first start; nothing else changes |
| TaskRepository.Repository.HeartbeatTask | backend/internal/repository/task_repository.go:92-105 | In place: extends the lease only of a running row held by this worker |
| TaskRepository.Repository.CompleteTask | backend/internal/repository/task_repository.go:107-127 | In place: only a running row held by this worker becomes a success, with progress 100, the finish time and no lock |
| TaskRepository.Repository.FailTask | backend/internal/repository/task_repository.go:129-155 | In place: only a running row held by this worker becomes pending at the given time, or, without one, failed with progress 100 and the finish time; either way unlocked |
| TaskRepository.Repository.ReleaseStaleTasks | backend/internal/repository/task_repository.go:157-168 | In place: every running row with an expired lease, and no other, becomes pending, due now and unlocked; the result counts them |
| TaskRepository.Repository.UpdateStatus | backend/internal/repository/task_repository.go:170-183 | In place: writes status and progress whatever the row is |
| TaskRepository.Repository.GetByIdempotencyKey | backend/internal/repository/task_repository.go:207-216 | Finds a row with the key exactly when there is one |
| TaskRepository.ClaimAvailableTasks | backend/internal/service/task_service.go:824-856 | The claiming loop, whatever others do between its claims: no more claims than free slots, each of an oldest row free to take at its moment, and an early end only when a claim fails or nothing is free to take; the table is exactly that of the claims among the others' statements |
| TaskRepository.ClaimOneMore | backend/internal/service/task_service.go:824-856 | One further claim of an oldest row keeps a list of claims distinct, exact and in order of age |
| TaskRepository.UndisturbedClaims | backend/internal/service/task_service.go:824-856 | With nobody else at work the loop's claims are the oldest claimable tasks, oldest first, each once |
| TaskLedger.BalancedStep | backend/internal/repository/task_repository.go:43-183 | Every statement, stale or racing writers included, keeps every task's ledger balanced |
| TaskLedger.LedgerBalances | backend/internal/repository/task_repository.go:43-183 | In every state of every run: claims = attempt = retries + releases + completions + final failures + (1 if locked), at most the limit; locked-by is set exactly when locked-until is; pending means unlocked; at most one completion or final failure |
| TaskLedger.RetiredStep | backend/internal/repository/task_repository.go:43-183 | No statement wakes an unlocked task that is not pending |
| TaskLedger.RetiredForever | backend/internal/repository/task_repository.go:43-183 | From the moment a task is unlocked and not pending, no continuation claims, renews, releases, retries, completes or fails it; only its displayed status and progress can change |
| TaskLedger.SettledOnce | backend/internal/repository/task_repository.go:107-155 | A task is completed or finally failed at most once in any run, and rests from then on |
| TaskLedger.StatusTellsOutcome | backend/internal/repository/task_repository.go:107-155 | In every state of every run a task shows success only if a completion took effect on it, failed only if a final failure did, and is finished exactly when one of the two did |
| TaskLedger.SettlementShows | backend/internal/repository/task_repository.go:107-155 | Right after a completion or final failure takes effect in any run, the row shows success or failed, progress 100, the finish time and no lock, and the ledger has counted that one |
| TaskLedger.ClaimTotalCounts | backend/internal/repository/task_repository.go:50-90 | The ledger's claims are exactly the claim statements of the run that handed out a task |
| TaskLedger.TotalClaimsBounded | backend/internal/repository/task_repository.go:50-90 | Over any run, tasks are handed out at most as often as their attempt limits add up to |
| TaskLedger.SpentForever | backend/internal/repository/task_repository.go:66-75 | An unlocked task without attempts left is never claimed again in any continuation |
| TaskLedger.ReleasedTaskRecoverable | backend/internal/repository/task_repository.go:157-168 | A stale task taken back becomes pending, and some continuation can run it again if and only if attempts remain; after a crash in the last attempt it stays pending for good |
| TaskWorker.NextReachable | backend/internal/service/task_service.go:858-1041 | The states of the worker and operator machine are closed under its enabled steps (checks and writes are separate steps) |
| LeaseSafety.SafeStep | backend/internal/service/task_service.go:939-963 | One step of an orderly run keeps: each live execution owns its unexpired lease, no two share a task, running rows are leased, terminal statuses are kept, no task is stolen |
| LeaseSafety.NoneStolenStep | backend/internal/service/task_service.go:939-963 | No step sends the task of a live execution back to pending, except that execution's own failure |
| LeaseSafety.CancelableStep | backend/internal/service/task_service.go:362-409 | While a cancellation is between its read and its write, no orderly step settles its task; the cancellation may also fail to write |
| LeaseSafety.OrderlyRunsSafe | backend/internal/service/task_service.go:858-1041 | The lease invariant holds in every state of every orderly run: renewals within their slack, checks that can read, no conflicting write to the same task inside a check/write pair |
| LeaseSafety.LeaseSafetyTheorem | backend/internal/service/task_service.go:939-963 | In every orderly run each task has at most one live execution, running tasks are leased, a live execution holds its lease, and no step steals a task |
| LeaseSafety.TerminalForever | backend/internal/service/task_service.go:1396-1404 | Over any stretch of an orderly run, success, failed and canceled never change |
| LeaseLimits.EveryRunIsLedgered | backend/internal/service/task_service.go:858-1041 | Every run of the machine, orderly or not, is a run of worker-mode statements, so the ledger theorems apply to it |
| LeaseLimits.TerminalOverwritten | backend/internal/service/task_service.go:1396-1404 | In any state, a step changes a terminal status if and only if it is the write half of a progress mark, or of a cancellation of a row that is not canceled |
| LeaseLimits.SweepTakesLateExecution | backend/internal/repository/task_repository.go:157-168 | A sweep takes the task of a live execution if and only if its lease ran out since the last renewal |
| LeaseLimits.TwoExecutionsWithoutTimelyBeats | backend/internal/service/task_service.go:939-963 | A reachable state in which, after a late renewal, one task has two live executions |
| LeaseLimits.SuccessOverwrittenByStraddledCancel | backend/internal/service/task_service.go:362-409 | A reachable success that a cancellation read earlier turns into canceled |
| LeaseLimits.CancelUndoneByFailedRead | backend/internal/service/task_service.go:1355-1361 | A run with timely renewals and no divided pair in which a check that cannot read lets a canceled task run again |
| LeaseLimits.CancelUndoneByStraddledProgress | backend/internal/service/task_service.go:1396-1404 | A reachable cancellation that a straddled progress write undoes; the task then completes as a success |
| RetrySpacing.WaitsRow | backend/internal/repository/task_repository.go:66-155 | One statement on one row keeps the schedule that the last failure left |
| RetrySpacing.ClaimWaitsForBackoff | backend/internal/service/task_service.go:1213-1219 | In every run whatsoever, a claim that follows a retryable failure by an execution of attempt k at time f comes no earlier than f plus the pause of k |
| RetrySpacing.SpacedRow | backend/internal/repository/task_repository.go:66-155 | One statement on one row keeps the relation between its schedule, its attempts and its past |
| RetrySpacing.ExecsTracedStep | backend/internal/service/task_service.go:824-937 | When no claim of a task is made under the id of a live execution of that task: a task's executions have growing attempts, and only the last of them under an id is live |
| RetrySpacing.FailuresNameTheirAttempt | backend/internal/service/task_service.go:1138-1185 | Then a failure that takes effect comes from the execution of the row's own attempt, though all claims of a process share one id |
| RetrySpacing.RunsAreSpaced | backend/internal/service/task_service.go:1138-1185 | The relation holds in every state of every run in which no claim of a task is made under the id of a live execution of that task |
| RetrySpacing.AttemptsAreSpaced | backend/internal/service/task_service.go:1213-1249 | In such runs attempt n, reached through failures alone, is claimed no earlier than the sum of all earlier pauses after the first claim |
| RetrySpacing.OrderlyRunsAreSpaced | backend/internal/service/task_service.go:939-963 | Every orderly run is such a run, so its attempts are spaced |
| RetrySpacing.AlwaysBehind | backend/internal/service/task_service.go:824-856 | In every run no execution's attempt is ahead of its task's, and each is at least the first |
| RetrySpacing.PausesDiffer | backend/internal/service/task_service.go:1237-1249 | Two attempts have the same pause if and only if they are the same or both beyond the fifth |
| RetrySpacing.PauseOfTheRow | backend/internal/service/task_service.go:1138-1185 | In every run, a retryable failure that takes effect leaves the pause of the row's attempt if and only if the failing execution is of that attempt, or of the sixth or a later one |
| RetrySpacing.TwinShortensPause | backend/internal/service/task_service.go:824-856 | A reachable run in which a process claims its own expired task again: the stale execution's failure makes the second attempt claimable after one second where two are due |
| TaskOutcome.FailureOutcome | backend/internal/service/task_service.go:1138-1185 | In every run a failure by the row's own attempt that takes effect leaves the task pending, after that attempt's pause, if and only if it is retryable and attempts remain; otherwise failed, with progress 100 and the finish time; either way unlocked |
| TaskOutcome.PendingHasAttempts | backend/internal/service/task_service.go:1213-1219 | In every run without twins a pending task that was never taken back as stale has attempts left |
| TaskOutcome.LimitsAlwaysCopied | backend/internal/service/task_service.go:858-937 | In every run each execution carries its task's attempt limit, which never changes |
| TaskOutcome.StoryStep | backend/internal/service/task_service.go:858-1041 | One step of an execution extends what it has been through by that step alone |
| TaskOutcome.CompletionFollowsSuccess | backend/internal/service/task_service.go:858-937 | In every run whoever completes a task has written all three progress marks and seen the operation itself succeed |
| TaskOutcome.FailureFollowsTrouble | backend/internal/service/task_service.go:1138-1185 | In every run whoever records a failure has met trouble before, and the failure is retryable or not as that trouble was |
| TaskOutcome.CancellationStops | backend/internal/service/task_service.go:1355-1361 | A check that sees the task canceled ends the execution, or in mid-run makes it fail, and writes nothing |
| TaskOutcome.MarksShowProgress | backend/internal/service/task_service.go:1396-1404 | The progress marks set the task running at 5, 30 and 85 |
| TaskCreation.ConsistentStep | backend/internal/service/task_service.go:545-624 | Each step of any creator (lookup, insert, second lookup) keeps keys unique and every creator's result sound |
| TaskCreation.CreatorStepShows | backend/internal/service/task_service.go:545-624 | A lookup that finds the key returns that task and inserts nothing; an insert of a free key adds the task as asked and returns it; one of a taken key adds nothing and leads to the second lookup |
| TaskCreation.CreationIsIdempotent | backend/internal/service/task_service.go:545-624 | For any number of interleaved creators: at most one task carries a key, all who return for a key return that task's id, and one fails only after one of its own calls reported an error |
| Decimal.ReadPrint | backend/internal/api/handler/file_handler.go:127-129 | The numbers printed in the range header are read back as they were |
| CronText.WordsUnwords | core-agent/src/cron/service.rs:361-382 | Splitting at white space undoes joining words with single spaces |
| CronText.LinesTerminated | core-agent/src/cron/service.rs:323-348 | Lines written with line ends are read back as they were |
| CronDocument.ParseDocument | core-agent/src/cron/service.rs:323-348 | The two-line lookahead loop computes the recursive reading of the document |
| CronDocument.RenderDocument | core-agent/src/cron/service.rs:384-416 | The writing loop produces the non-blank foreign lines, a separator, and two lines for each task |
| CronAccounting.EveryLineAccounted | core-agent/src/cron/service.rs:323-382 | For every text: each line is consumed exactly once, foreign lines and header/entry pairs are an order-preserving split of it, and lines = others + 2 * tasks |
| CronAccounting.EnabledIffBoth | core-agent/src/cron/service.rs:350-382 | For any header with a readable id and any entry after it, the task read is enabled if and only if the flag is 1 or true and the entry is not commented out |
| CronAccounting.SurvivesIffCanonical | core-agent/src/cron/service.rs:350-416 | Written and read back alone, a task made of any strings is preserved if and only if it is canonical: a readable id, five single-spaced fields, a single-spaced command |
| CronAccounting.HeaderIds | core-agent/src/cron/service.rs:350-359 | The id that any header line yields is trimmed and free of the marker |
| CronRoundTrip.ParseQuiet | core-agent/src/cron/service.rs:323-348 | Lines hold no task if and only if no opening header stands directly before an entry-shaped line; then all of them are foreign |
| CronRoundTrip.ParseAppend | core-agent/src/cron/service.rs:323-348 | Reading is compositional over blocks closed by an empty line |
| CronRoundTrip.TasksRead | core-agent/src/cron/service.rs:350-382 | The lines of readable tasks are read back as exactly those tasks, with white space normalised |
| CronRoundTrip.RenderReads | core-agent/src/cron/service.rs:384-416 | What a written document reads as: whatever its foreign block holds, then its tasks |
| CronRoundTrip.RoundTrip | core-agent/src/cron/service.rs:323-416 | Reading a written document gives its foreign lines (closed by one blank) and its tasks if and only if no foreign line ends with a carriage return and no foreign header-shaped line has come to stand before an entry-shaped one |
| CronRoundTrip.RewriteKeepsAnyText | core-agent/src/cron/service.rs:323-416 | The same condition, exactly, for rewriting any text at all whose tasks are readable |
| CronRoundTrip.ForeignBlockKept | core-agent/src/cron/service.rs:384-394 | Rewriting keeps the non-blank foreign lines in order and is idempotent on them |
| CronRoundTrip.BlankLineLostMakesTask | core-agent/src/cron/service.rs:386-391 | For every enabled readable task: a document where a blank line separates its header and entry holds no task, and does hold it after one rewrite |
| CronService.FindTask | core-agent/src/cron/service.rs:91-95 | The first task with the id, or none if no task has it |
| CronService.Service.constructor | core-agent/src/cron/service.rs:35-45 | The allow-list holds exactly the trimmed non-empty commands |
| CronService.Service.ListTasks | core-agent/src/cron/service.rs:47-51 | Answers the tasks of the stored text |
| CronService.RefusedExpression | core-agent/src/cron/service.rs:169-197 | The validation refuses exactly the expressions that have not five fields or hold a character that is not permitted |
| CronService.RefusedCommand | core-agent/src/cron/service.rs:199-246 | The validation refuses exactly the commands that are empty, longer than 1024, not on the allow-list, or hold a character that is not permitted |
| CronService.RefusedId | core-agent/src/cron/service.rs:248-263 | The validation refuses exactly the ids that are empty or hold a character that is not permitted |
| CronService.Service.CreateTask | core-agent/src/cron/service.rs:53-76 | Refused as bad exactly when the expression has not five fields of the permitted characters, or the command is empty, too long, off the allow-list or of other characters; no error changes the text; on success the new task, with the fields given, is reported and appended |
| CronService.Service.UpdateTask | core-agent/src/cron/service.rs:78-104 | Refused as bad exactly when id, expression or command is; not found only if no task has the id; no error changes the text; on success the first task with the id is replaced by the one given, which is reported |
| CronService.Service.DeleteTask | core-agent/src/cron/service.rs:106-123 | Refused as bad exactly when the id is; not found only if no task has it; no error changes the text; text and answer are those of removing all tasks with the id |
| CronService.Service.SetTaskEnabled | core-agent/src/cron/service.rs:125-140 | Refused as bad exactly when the id is; not found only if no task has it; no error changes the text; on success only the enabled flag of the first task with the id is changed and reported |
| CronService.Locate | core-agent/src/cron/service.rs:91-95 | The search loop finds the first task with the id |
| CronService.Retain | core-agent/src/cron/service.rs:112-115 | The retain loop keeps exactly the tasks with other ids, in order |
| CronRefinement.ExecRefines | core-agent/src/cron/service.rs:53-140 | On a well-formed text each operation answers as on a plain document, changes nothing on an error, and otherwise edits the task list as specified and keeps the foreign lines and the good form |
| CronRefinement.ServiceRefinesDocument | core-agent/src/cron/service.rs:53-140 | Over any sequence of operations that are sound where they are applied, the text refines the plain document; foreign lines never change or reorder |
| CronRefinement.OnlyAllowedCommandsAdded | core-agent/src/cron/service.rs:199-246 | Over any sequence of sound operations every task in the text was there before, up to its being enabled, or runs a command on the allow-list |
| CronRefinement.UncommentedRunsAreSound | core-agent/src/cron/service.rs:53-140 | Where no stored expression starts with a comment sign, every sequence of operations without a line end inside an expression is sound throughout |
| CronRefinement.ExecSoundIff | core-agent/src/cron/service.rs:53-140 | For all operations: a valid one that finds its task does what it should if and only if its expression has no line end inside and it enables no task whose expression starts with a comment sign |
| CronRefinement.RewriteIsIdentity | core-agent/src/cron/service.rs:323-416 | A text that the service wrote is rewritten byte for byte |
| CronRefinement.DisableEnableRestores | core-agent/src/cron/service.rs:125-140 | Disabling and re-enabling an enabled task of a canonical text restores it byte for byte |
| CronRefinement.SoundIffOneLine | core-agent/src/cron/service.rs:169-197 | A valid creation, or update of a known task, does what it should if and only if its trimmed expression has no line end inside, which the validation does not exclude |
| CronRefinement.EnabledUncommented | core-agent/src/cron/service.rs:361-382 | No text whatsoever yields an enabled task whose expression starts with a comment sign |
| CronRefinement.SwitchSoundIffUncommented | core-agent/src/cron/service.rs:125-140 | Switching a stored task does what it reports if and only if it does not enable a task whose stored expression starts with a comment sign |
| CronRefinement.ReportedIsStored | core-agent/src/cron/service.rs:63-75 | The task a creation reports is the one stored if and only if its fields are separated by single spaces |
| RemoteFile.Overlay | core-agent/src/file/service.rs:307-421 | Bytes written over a file at an offset: what lies before and after stays, the length grows as needed |
| RemoteFile.File.WriteFileChunk | core-agent/src/file/service.rs:307-421 | In place: the exact new content on success; on a failure at any point the file is untouched, created empty, or holds some prefix of the piece; when it must succeed |
| RemoteFile.File.ReadFileChunk | core-agent/src/file/service.rs:206-305 | The answer is some of the bytes asked for, never more than the agent's own cap, none only at the end, with the right total and end mark |
| FileUpload.OverlayExtend | core-agent/src/file/service.rs:307-421 | Writing the next piece where the last one ended is writing both |
| FileUpload.ReadStep | backend/internal/service/file_service.go:251-375 | The bytes read so far are a prefix of the body, and all of it once the body has ended |
| FileUpload.FailedWriteDisturbs | backend/internal/service/file_service.go:251-375 | After a write that failed midway the file holds some prefix of the request body from its offset on |
| FileUpload.UploadFile | backend/internal/service/file_service.go:251-375 | The chunk loop, for any reads and any failing write: success means exactly the body is stored from the offset on; an error leaves some prefix of it |
| FileUpload.FailureKeepsResumable | frontend/src/api/files.ts:68-121 | A failed attempt, whatever prefix it applied, leaves the confirmed bytes stored and the file a prefix of the local one |
| FileUpload.SuccessAdvances | frontend/src/api/files.ts:68-121 | A successful attempt leaves a prefix of the local file that reaches the new offset |
| FileUpload.UploadFileWithRetry | frontend/src/api/files.ts:68-121 | A normal return means the remote file equals the local one, whatever it held and whichever attempts failed; otherwise it is untouched or a prefix; the loop does return whenever one of any three requests in a row meets no trouble |
| ContentRange.MatchRead | frontend/src/api/files.ts:150-162 | Every header that matches the expression is read, and its last number is the total |
| ContentRange.ReadIsMatch | frontend/src/api/files.ts:150-162 | Only matching headers are read |
| ContentRange.FormatNamesRange | backend/internal/api/handler/file_handler.go:127-129 | The printed header names the first byte, the last byte and the total, in this order |
| ContentRange.RoundTrip | frontend/src/api/files.ts:150-162 | The total that the backend prints in a Content-Range header (section 14.4 of RFC 9110) is the total that the browser reads |
| FileDownload.DownloadFile | backend/internal/service/file_service.go:130-249 | For any agent a limited download makes at most that many calls and emits at most that many bytes; from an unchanging file the emitted bytes are a prefix of the range, on success all of it; it succeeds if nothing fails |
| FileDownload.DownloadFileChunk | frontend/src/api/files.ts:164-178 | One ranged request through the backend: the exact range, with the file's size as total |
| FileDownload.Download | frontend/src/api/files.ts:180-253 | A normal return is the whole file, whatever reads come back short and whichever requests fail; the loop does return whenever one of any three requests in a row goes smoothly |
| LoginLimiter.NewLimits | backend/internal/security/login_attempt_limiter.go:45-73 | Positive options are kept, all others are replaced by positive defaults |
| LoginLimiter.RetryAfter | backend/internal/security/login_attempt_limiter.go:100-113 | The waiting time told is in whole seconds, at least one, and at most half a second off when a second or more is left |
| LoginLimiter.AttemptState.PruneFailures | backend/internal/security/login_attempt_limiter.go:157-170 | The in-place compaction over the same array is exactly the filter of the failures in the window |
| LoginLimiter.AttemptState.Append | backend/internal/security/login_attempt_limiter.go:124-145 | In place: one failure more at the end, whether or not the array had to grow |
| LoginLimiter.Limiter.constructor | backend/internal/security/login_attempt_limiter.go:45-73 | Starts without entries |
| LoginLimiter.Limiter.Allow | backend/internal/security/login_attempt_limiter.go:89-122 | In place: refused exactly while the key's lock lasts, with the time left to the nearest second; the key's entry is pruned, and deleted when nothing is left; other keys untouched |
| LoginLimiter.Limiter.RecordFailure | backend/internal/security/login_attempt_limiter.go:124-145 | In place: the key's pruned entry with one failure more, or locked and cleared when full; other keys untouched |
| LoginLimiter.Limiter.RecordSuccess | backend/internal/security/login_attempt_limiter.go:147-155 | In place: the key's entry is gone, the others are untouched |
| LoginHistory.RecentTwice | backend/internal/security/login_attempt_limiter.go:157-170 | Pruning at a later time makes an earlier pruning unnecessary |
| LoginHistory.AgreeStep | backend/internal/security/login_attempt_limiter.go:89-170 | Each call keeps the limiter's entry and the never-pruned history in agreement |
| LoginHistory.LimiterRefinesHistory | backend/internal/security/login_attempt_limiter.go:89-170 | With a clock that does not go back, every answer equals that of a history that never prunes or deletes; the entry is sorted and shorter than the limit between calls |
| LoginHistory.EveryKeyRefinesHistory | backend/internal/security/login_attempt_limiter.go:89-170 | The same for every key among any calls on any keys |
| LoginHistory.KeysAreSeparate | backend/internal/security/login_attempt_limiter.go:89-170 | A key's entry depends on that key's own calls alone |
| LoginHistory.FullWindowRefuses | backend/internal/security/login_attempt_limiter.go:89-170 | For all limits and times: after all failures but one and a later last one, a question is refused if and only if the last came less than a window after the others and the question less than a lock duration after it |
| LoginHistory.SuccessForgives | backend/internal/security/login_attempt_limiter.go:147-155 | After a success every question is let through |
| LoginHistory.ClockMustNotGoBack | backend/internal/security/login_attempt_limiter.go:89-122 | For all limits and times: every history up to a latest time is answered rightly at a time if and only if the clock has not gone back behind that latest time |
| LoginInterval.FewWithoutLock | backend/internal/security/login_attempt_limiter.go:124-145 | An interval inside the failure window in which no failure locks holds fewer failures than the limit |
| LoginInterval.RefusedWhileLocked | backend/internal/security/login_attempt_limiter.go:89-122 | Nobody who asks within the lock duration after a lock is let through, unless a success intervenes |
| LoginInterval.FailedInFlight | backend/internal/api/handler/auth_handler.go:42-64 | The attempts that fail after a lock, and the one that set it, were all in flight when it was set |
| LoginInterval.FailuresPerInterval | backend/internal/api/handler/auth_handler.go:42-64 | When each failure follows an admitted question, no success intervenes and at most c attempts overlap, an interval shorter than window and lock duration holds at most limit + c - 1 failures; the limit when attempts do not overlap |
| LoginInterval.BoundIsReached | backend/internal/api/handler/auth_handler.go:42-64 | For all limits and every c: admitted attempts, at most c of them overlapping, of which limit + c - 1 fail at one moment, so that without a bound on overlap there is none on failures |
| RedisLimiter.WholeMillis | backend/internal/security/login_attempt_limiter_redis.go:159-160 | Durations reach the script in whole milliseconds, the largest number not longer than configured |
| RedisLimiter.Server.Increment | backend/internal/security/login_attempt_limiter_redis.go:28-31 | In place: the counter command, which starts again from zero after expiry |
| RedisLimiter.Server.RecordFailureScript | backend/internal/security/login_attempt_limiter_redis.go:18-41 | In place: the script, command by command, changes the key's cells as specified and no other key's; it answers 1 exactly when a lock is in force; it can fail only for lock durations under a millisecond |
| RedisLimiter.Server.Delete | backend/internal/security/login_attempt_limiter_redis.go:169-181 | In place: the key's lock and counter are gone, other keys are untouched |
| RedisLimiter.SharedLimiter.constructor | backend/internal/security/login_attempt_limiter_redis.go:62-110 | The fallback starts empty with the same limits |
| RedisLimiter.SharedLimiter.Allow | backend/internal/security/login_attempt_limiter_redis.go:112-142 | While the server answers: refused if and only if a lock is held with a whole millisecond left, with that time to the nearest second; the fallback decides, and is changed, only when it does not |
| RedisLimiter.SharedLimiter.RecordFailure | backend/internal/security/login_attempt_limiter_redis.go:144-167 | Every failure reaches the fallback, and the script whenever the server is reached |
| RedisLimiter.SharedLimiter.RecordSuccess | backend/internal/security/login_attempt_limiter_redis.go:169-181 | Every success clears the fallback's entry, and the server's cells whenever it is reached |
| RedisLockout.AnswerTellsLifetime | backend/internal/security/login_attempt_limiter_redis.go:112-142 | The server-side answer, for any cells and time: refused if and only if a whole millisecond of the lock is left, telling that time to the nearest second |
| RedisLockout.WindowFills | backend/internal/security/login_attempt_limiter_redis.go:18-41 | Within the script's window of a first failure, the script locks on the failure that reaches the limit and on no earlier one |
| RedisLockout.LockedOut | backend/internal/security/login_attempt_limiter_redis.go:112-142 | After the script has locked, a question that the server answers is refused until a millisecond before the end of the lock's lifetime and let through from then on, if no success reaches the server and no failure does after the lock has run out |
| RedisLockout.OnlySuccessUnlocks | backend/internal/security/login_attempt_limiter_redis.go:112-181 | Within the lifetime, less a millisecond, a question is let through only after a delivered success |
| RedisLockout.SuccessUnlocks | backend/internal/security/login_attempt_limiter_redis.go:169-181 | A delivered success unlocks at once |
| RedisMirror.FailureCovered | backend/internal/security/login_attempt_limiter_redis.go:18-41 | One more failure keeps the fixed window covered: the in-memory limiter has seen all counted failures or has locked since the window opened; a window that this failure opens is covered whatever came before |
| RedisMirror.AlwaysCovered | backend/internal/security/login_attempt_limiter_redis.go:144-181 | After any calls in order the window is covered if no success since its start was lost; what was lost before does not matter |
| RedisMirror.LockHasOrigin | backend/internal/security/login_attempt_limiter.go:124-145 | Every lock on record was set in memory by some failure of the run |
| RedisMirror.RedisLockIsMirrored | backend/internal/security/login_attempt_limiter_redis.go:18-41 | For every lock the script sets in a window of which no success was lost, the in-memory limiter set one too, between the first failure counted in that window and the failure that filled it |
| RedisMirror.FallbackRefusesToo | backend/internal/security/login_attempt_limiter_redis.go:112-167 | If the lock lasts at least as long as the script's window, or one failure locks, the fallback refuses at the moment the script locks in such a window |
| RedisLimits.FallbackRefusesIff | backend/internal/security/login_attempt_limiter_redis.go:112-167 | For all limits: the fallback refuses whenever the script locks in such a window, except if and only if one failure does not lock and the lock lasts a millisecond or more but less than the script's window |
| RedisLimits.MemoryLocksAlone | backend/internal/security/login_attempt_limiter_redis.go:18-41 | The mirroring has no converse. For all limits: some delivered failures make the in-memory limiter lock while the server holds no lock if and only if one failure alone does not lock, or the lock is under a millisecond |
| RedisLimits.LostSuccessLocksServerAlone | backend/internal/security/login_attempt_limiter_redis.go:169-181 | For all limits: a run exists in which the script locks a key that the in-memory limiter never locked if and only if one failure alone does not lock and window and lock last at least a millisecond; a lost success gives it |
| RbacChecksum.SortSorts | backend/internal/service/auth_service.go:663-672 | Sorting gives an ordered permutation |
| RbacChecksum.OneOrder | backend/internal/service/auth_service.go:663-672 | There is only one ordered permutation, whichever algorithm sorts |
| RbacChecksum.JoinInjective | backend/internal/service/auth_service.go:669-669 | Plain names joined by commas determine the list |
| RbacChecksum.PayloadOrderFree | backend/internal/service/auth_service.go:663-672 | The hashed text is invariant under any permutation of roles and permissions, for any names |
| RbacChecksum.PayloadTellsRights | backend/internal/service/auth_service.go:663-672 | For non-empty names without comma and bar, two texts agree if and only if roles and permissions agree as multisets |
| RbacChecksum.PlainNamesNeeded | backend/internal/service/auth_service.go:669-669 | A comma in a name, or an empty name, breaks this |
| Session.NextSession | backend/internal/service/auth_service.go:652-661 | The session time is no earlier than the clock and later than the previous one, and no later than that needs |
| Session.ValidatedActive | backend/internal/service/auth_service.go:523-565 | A validated token belongs to an active user, and validation leaves the session time alone |
| Session.AuthService.ResolveRBAC | backend/internal/service/auth_service.go:698-716 | In place: a user without roles gets the default role, if that exists |
| Session.AuthService.GenerateTokenPair | backend/internal/service/auth_service.go:609-650 | Unless signing fails, an access and a refresh token alike in everything else: the user's id and rights, the checksum of just those rights, the session time and the password flag |
| Session.AuthService.Login | backend/internal/service/auth_service.go:172-241 | In place: unknown names and wrong passwords are refused alike, then disabled users, and change nothing; tokens only for an active user with that password, with the rotation of the session time and the first-login exception; at any failing step |
| Session.AuthService.Refresh | backend/internal/service/auth_service.go:243-316 | In place: only a valid refresh token of a current session rotates the session; at any failing step |
| Session.AuthService.RevokeSession | backend/internal/service/auth_service.go:318-348 | In place: moves the session on, except in the first-login state |
| Session.AuthService.ChangePassword | backend/internal/service/auth_service.go:350-462 | In place: refused without the current password or without a strong, different new one, changing nothing; otherwise password first, then the session time, then the rights, and what stays done when a later step fails |
| Session.AuthService.ValidateSession | backend/internal/service/auth_service.go:523-565 | In place: the refusals in their order; only the default role may be written |
| SessionPasswords.PasswordTracked | backend/internal/service/auth_service.go:350-462 | In every run the stored password of a user is the one that the history gives: from enrolment, replaced by each change that names the password of the time |
| SessionPasswords.LoginNeedsPassword | backend/internal/service/auth_service.go:172-241 | In every run a login is answered with tokens only if the name belongs to an active user and the password is the one that the history gives; with no failing step exactly then |
| SessionPasswords.WrongLoginChangesNothing | backend/internal/service/auth_service.go:172-192 | In every run a wrong password, an unknown name and a disabled user are refused as such and change nothing |
| SessionPasswords.FirstLoginCarriesDuty | backend/internal/service/auth_service.go:203-226 | In every run a login's tokens carry the duty to change the password if and only if the user is the first administrator and has never opened a session, and such a login opens none |
| SessionPasswords.ChangeNeedsPassword | backend/internal/service/auth_service.go:350-395 | In every run a password change is answered with tokens only if it names the user's password and a strong, different new one; with no failing step exactly then; otherwise it changes nothing |
| SessionPasswords.ChangeSwapsPasswords | backend/internal/service/auth_service.go:350-462 | Right after an accepted change the old password is refused and the new one logs in |
| SessionRotation.StepRotates | backend/internal/service/auth_service.go:172-462 | Every call, whatever the clock and whichever step fails: no session time goes back, and a granted session outside the first login is later than the one before |
| SessionRotation.LastNeverGoesBack | backend/internal/service/auth_service.go:652-661 | Over any run no user's session time goes back |
| SessionRotation.SessionsMoveOn | backend/internal/service/auth_service.go:172-462 | Each accepted login, refresh and password change outside the first-login state, and each logout, strictly increases the session time |
| SessionRotation.TokenBound | backend/internal/service/auth_service.go:609-650 | No issued token goes beyond its user's session time, first logins apart |
| SessionRotation.SessionsDiffer | backend/internal/service/auth_service.go:652-661 | Later sessions of a user have later times, so no two tokens of different sessions share one |
| SessionRotation.SupersededForever | backend/internal/service/auth_service.go:538-543 | Once its user has moved on, an issued token is refused for ever after |
| SessionRotation.RefreshAtMostOnce | backend/internal/service/auth_service.go:243-316 | A refresh token opens at most one session, however often it is presented |
| SessionRotation.IssuedIsSigned | backend/internal/service/auth_service.go:609-650 | Every issued token carries the checksum of its own rights |
| SessionRotation.ValidIffCurrent | backend/internal/service/auth_service.go:523-565 | An issued token, first logins apart, is valid if and only if its user is active, its session is the latest and its rights equal the current ones as multisets |
| SessionRotation.FirstLoginTokenOutlives | backend/internal/service/auth_service.go:203-226 | After the first password change the first-login token is still valid if and only if the clock has not moved past its issue |

## Left out

- Asynchronous task mode: excluded by worker mode, and the same execution without leases.
- Worker loop timing and the slot channel: beyond the claiming loop, only the steps that reach the table are modelled.
- Task log, payload encoding, error messages and progress texts.
- Row ids are positions in the table; the indexes are modelled as the claim order and the unique idempotency key
  (`backend/migrations/0002_durable_tasks.up.sql`).
- LeaseSafety.LeaseSafetyTheorem: assumes that the read of a cancellation check does not fail, because terminal statuses
  are not final otherwise (`LeaseLimits.CancelUndoneByFailedRead`).
- RetrySpacing.AttemptsAreSpaced: a claim of a task under the id of a live execution of that same task is excluded,
  because the property fails there (`TwinShortensPause`); claims of other tasks and after the execution's end are not.
- CronRefinement.ExecRefines: well-formed documents exclude foreign lines that end with a carriage return, for which it
  fails (`CronRoundTrip.RoundTrip`); enabling a task with a commented expression is excluded by `ExecSoundIff`.
- Executions end by a crash step in which no further database call happens.
- A crontab program that fails is assumed to leave the text as it was.
- Generated cron ids depend on a millisecond clock that is an input; two creations in one millisecond share an id, which
  the model allows.
- Path validation, file metadata, parent directories and file modes; listing, reading, renaming and deleting files.
- Transfers assume no other writer of the file and no effect of an attempt after its end; cancellation of a request is
  modelled as a bound on its agent calls.
- 64-bit wrap-around of offsets and the rounding of browser numbers above 2^53.
- Database rounding of timestamps to microseconds: stored times are exact.
- Redis clock and expiry are exact and shared with the limiter, and a key is gone at the instant its lifetime ends. Were
  it still there at that instant, the script could count a failure exactly one window old that memory has dropped.
- A lock key without expiry, which the script never creates.
- Calls on the limiters and on the authentication service are atomic; the limiter's mutex gives this for one process, the
  database does not for two concurrent calls of one user.
- Password hashing, signing, token lifetime and the digest: passwords compare as strings, tokens cannot be forged, a token
  past its lifetime is text that does not parse, the digest is injective.
- Session.AuthService.ChangePassword: takes the verdict of the strength rule, and the trimmed new password, as inputs.
- Session.AuthService.ResolveRBAC: the second read of the rights, after the default role was added, does not fail on its
  own.
- Whether a user name is the configured administrator's, up to case and white space, is a field of the user.
- Bootstrap of the first administrator, audit trail, backups, services, Docker, metrics, user interface.
