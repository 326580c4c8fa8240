# A verified model of the metrics collector

An agent polls runtime metrics and sends them in batches to a server. The server keeps gauges
(last value wins) and counters (deltas add up, in Go's wrapping `int64`) in two association lists,
or in two database tables, and backs the lists up to a file of newline-terminated JSON records that
it replays at start-up. A small generator writes `Reset` methods that an object pool relies on.

Code that changes state is modelled by classes and methods with loops (`MemStorage`, `Producer`,
`Consumer`, `WorkerPool`, `Pool`, the handlers, the retry loop, the generator's two loops), each
proved against functions over values. Code that runs concurrently is modelled by transition systems
whose steps are the locked sections, file-system calls and channel operations of the source; their
theorems quantify over every schedule of any length and any number of workers, runs or requests.

| file | what it covers |
|---|---|
| `Numbers`, `Wrappers` | wrap-around of `int64`, `float64` as bits, `Option` |
| `Storage` | the metric store: lists, updates, replays |
| `Codec` | a concrete JSON text for records, and the encoder contract it meets |
| `Journal`, `TornTail` | the backup file as text; restoring and extending it after a crash |
| `FileSystem`, `Backup`, `Recovery` | producer, consumer, restore, rotating backup; what a backup is worth |
| `NameEncoding` | names that are not valid UTF-8 |
| `OverlappingBackups`, `BackupProgress`, `BackupSchedules`, `BackupSurvival` | several backups at once; which schedules finish; how many dumps a schedule leaves; when a complete backup is left |
| `SyncJournal` | memory against file in synchronous mode |
| `Handlers`, `Batches` | single updates, queries, and the two batch back ends |
| `WorkerPool`, `Sender`, `Agent`, `PollHistory`, `PollFate` | the task queue, the retrying sender, the whole agent, and which worker counts which poll |
| `ResetGenerator`, `ResetSemantics`, `ObjectPool` | the Reset compiler, its meaning, the pool |

`dafny verify dfyconfig.toml` checks everything.

## Findings

Each of these rests on a lemma below; the model keeps the code as it is.

- Overlapping backups (at shutdown `main` and the final-backup goroutine both run one, and the
  periodic one may be under way) can write several dumps into one file; every counter is then
  restored multiplied by the number of dumps. `BackupSchedules.PathRestoresExactly` reads that
  number off the schedule and says exactly when the path still restores the storage. The mutex in
  `performBackup` is a local variable and excludes nobody.
- Stopped at the wrong moment, two overlapping backups leave no complete backup at all.
  `BackupSurvival.SurvivesExactly` names the steps that take the previous one away, and
  `BackupSurvival.CompleteLeftExactly` adds when a new file is worth a backup instead, finished or
  not. Serial runs, however many, always leave a complete backup.
- A gauge that is NaN or infinite (the URL route accepts both) makes every backup fail until it is
  overwritten; the second failure destroys the last good file.
- After a crash tears the last record, the server appends to the torn line. Unless the tear fell
  exactly between two records, nothing appended afterwards is ever restored.
- In synchronous mode two overlapping requests for one gauge can leave the file with the older
  value for good; `SyncJournal.SettlesExactly` says from which states that can still happen.
- With `n` workers one poll can be counted `n` times at the server, and polls can be lost.
  `PollFate.CountedExactly` and `ServerTotal` say how often each poll is counted: once for each
  worker that delivers a snapshot taken after the poll and before the next reset.
  `PollFate.LostExactly` says from when on a poll is lost for good.
- `Submit` can send on a closed channel if the pool is closed between its check and its send. The
  agent's own start and stop order never lets that happen.
- The two batch back ends can differ after a batch with an unknown type, on counter overflow, and on
  a name longer than its column by trailing spaces; `Batches.AgreesExactly` says exactly when they
  agree.
- A name that is not valid UTF-8 (the URL route accepts those too) comes back changed from a backup,
  and two such counters can merge; `NameEncoding.NamesComeBackExactly` has the condition.
- The generator resets only the first name of a field line, and leaves `time.Duration` alone: every
  qualified name is taken for a struct, so the `"time.Duration"` case of `getZeroValue` is dead.
  Whether a name is exported is read off its first byte, so every Cyrillic name counts as exported.

Where the code and its comments disagree, the model follows the code: `isRetriableError` promises
a retry on 5xx answers but only network errors qualify; the sender's error always says "after 3
attempts"; a failed gauge batch goes unreported when the counter batch gets through; restoring an
empty or missing file is reported as an error.

## Model

| member | source | states |
|---|---|---|
| Storage.LookupPut | internal/repository/storage.go:51-87 | Updating one name changes the value of no other name. |
| Storage.NamesPut | internal/repository/storage.go:51-87 | A known name keeps its position, a new one goes last. |
| Storage.ReplayNames | internal/repository/storage.go:51-87 | Over any sequence of updates names stay unique and in order of first insertion. |
| Storage.ReplayGauge | internal/repository/storage.go:51-67 | A gauge equals its last write, or its starting value if never written. |
| Storage.ReplayCounter | internal/repository/storage.go:72-87 | A counter equals the wrapped exact sum of its start and all its deltas, and exists exactly if it did before or was updated. |
| Storage.CountersCommute | internal/repository/storage.go:72-87 | Permuting the updates leaves every counter unchanged, wrap-around included. |
| Storage.MemStorage.constructor | internal/repository/storage.go:38-43 | The storage starts empty. |
| Storage.MemStorage.AddGauge | internal/repository/storage.go:51-67 | The in-place loop overwrites the first match or appends, and touches no counter. |
| Storage.MemStorage.AddCounter | internal/repository/storage.go:72-87 | The in-place loop adds to the first match with wrap-around or appends, and touches no gauge. |
| Codec.StringRoundTrip | internal/models/metrics.go:16-17 | Every string, with the escapes encoding/json uses, is read back from its escaped text, whatever follows it. |
| Codec.CharRoundTrip | internal/models/metrics.go:16-17 | Each character, escaped by letter, by number or not at all, is read back as itself. |
| Codec.RoundTrip | internal/models/metrics.go:15-20 | Decoding the text of any encodable record gives the record back, absent payloads included. |
| Codec.Marshal | internal/repository/backup.go:89-92 | Encoding fails exactly for a value whose bits, sign aside, are 0x7FF0000000000000 or more (the infinities and every NaN), and never emits a newline. |
| Numbers.FiniteExactly | internal/repository/backup.go:89-92 | The values that can be encoded are those whose bits, sign aside, are below 0x7FF0000000000000: every finite number, no infinity and no NaN. |
| Codec.PlainExactly | internal/models/metrics.go:16-17 | A character is written as it is, unless it is a control character, a quote, a backslash, one of < > &, or one of the two JavaScript line separators. |
| Codec.JsonIsSound | internal/repository/backup.go:52-57 | The concrete JSON text meets everything the backup relies on, so no property of the encoder is assumed. |
| Journal.KeysSpelled | internal/models/metrics.go:16-19 | The keys are id, type, delta and value, as the struct tags have them. |
| Journal.GaugeText | internal/repository/backup.go:204-208 | The line of a gauge has its escaped name, the type gauge and its value, and no delta. |
| Journal.CounterText | internal/repository/backup.go:215-219 | The line of a counter has its escaped name, the type counter and its delta, and no value. |
| Journal.RecordMeaning | internal/repository/backup.go:114-128 | A record read back is one update if it is a gauge with a value or a counter with a delta; a record of any other type is skipped, whatever it carries. |
| Journal.ReadAppended | cmd/server/main.go:64-78 | What is appended to a complete file is read after everything already in it. |
| Journal.ReadBack | internal/repository/backup.go:106-134 | Restoring records followed by an unterminated tail performs exactly the recorded updates, in order. |
| Journal.Cut | internal/repository/backup.go:46-49 | Cutting a journal at any byte leaves the whole lines before the cut and a proper or complete prefix of the next one. |
| Journal.TornRestore | internal/repository/backup.go:46-57 | A file cut at any byte restores exactly the updates whose terminating newline survived. |
| Journal.AppendAfterTear | internal/repository/backup.go:46-57 | For any encoder: if the line glued to a torn tail does not decode, no later restore reads past the tear. |
| TornTail.TornField | internal/models/metrics.go:15-20 | A field torn anywhere and followed by another record is unreadable, misread into that record, or whole. |
| TornTail.GluedIsUnreadable | internal/repository/backup.go:52-55 | A torn record with another record glued to it never decodes, wherever the tear is. |
| TornTail.JsonRejectsGlue | internal/repository/backup.go:52-55 | In the JSON text no piece of a record, whole or torn, decodes with another record behind it. |
| TornTail.TearDecides | cmd/server/main.go:64-78 | After a crash at any byte and a restart, the records appended later are restored if and only if the tear fell between two records; those whole before the tear always are. |
| Backup.Producer.constructor | internal/repository/backup.go:67-77 | Opening appends to the file at the path, or creates an empty one. |
| Backup.Producer.Close | internal/repository/backup.go:80-82 | The producer is closed and the disk untouched. |
| Backup.Producer.WriteEvent | internal/repository/backup.go:85-103 | The record and its newline are appended to the open file; a NaN or an infinity (by its bits) or a closed file leaves the disk as it was, and the error says which. |
| Backup.Consumer.constructor | internal/repository/backup.go:24-34 | Opens the file for reading from its start, creating it if missing. |
| Backup.Consumer.ReadEvent | internal/repository/backup.go:42-58 | Takes one line off what is left to read, whatever is on it; gives its record, or none if the line is unterminated or undecodable. |
| Backup.RestoreFromBackup | internal/repository/backup.go:106-134 | Replays the readable prefix of the file into the storage; an error exactly when there is no readable first record. |
| Backup.WrittenPart | internal/repository/backup.go:203-224 | A dump is written up to its first unencodable value, and entirely if there is none. |
| Backup.WriteUpdate | internal/repository/backup.go:203-224 | One iteration of a backup loop: the file gains the next record, or the run stops there. |
| Backup.PerformBackup | internal/repository/backup.go:174-227 | Closes the shared producer, rotates, and leaves at the path the dump up to its first gauge that is a NaN or an infinity (by its bits); fails exactly when there is one. |
| Recovery.DumpMeaning | internal/repository/backup.go:202-224 | A dump sets each gauge once and adds each counter once, in list order. |
| Recovery.RestoreInto | internal/repository/backup.go:106-134 | Restoring a dump into any store overrides its gauges, adds counters pointwise and wrapped, and appends only new names. |
| Recovery.DumpRoundTrip | internal/repository/backup.go:106-134 | Restoring a dump into an empty store gives the store back, list order included. |
| Recovery.BackupContent | internal/repository/backup.go:186-224 | One run moves the previous file whole to path_old and leaves its own dump at the path. |
| Recovery.BackupRestores | internal/repository/backup.go:174-227 | Backup, then restore: exactly the same store, if and only if every gauge has bits, sign aside, below 0x7FF0000000000000 (names in valid UTF-8). |
| Recovery.SerialRuns | internal/repository/backup.go:186-224 | After m runs the path holds run m and path_old run m-1, whatever happened before. |
| Recovery.TwoFailedRunsLoseTheBackup | internal/repository/backup.go:181-211 | While a gauge is unencodable, one run keeps the last good backup at path_old and the next one destroys it. |
| NameEncoding.CoercedIsValid | internal/repository/backup.go:89 | The name written for any bytes is valid UTF-8. |
| NameEncoding.CoerceGrows | internal/repository/backup.go:89 | Names in valid UTF-8 are written as they are, all others come out longer. |
| NameEncoding.ValidExactly | internal/handler/handlers.go:608-639 | A name is valid exactly if it is the UTF-8 encoding of some sequence of code points, surrogates excluded; the encoding is defined apart, by arithmetic on the code point. |
| NameEncoding.CoerceExactly | internal/repository/backup.go:89 | From left to right, encoded code points are written as they are and U+FFFD for one byte where no code point is encoded. |
| NameEncoding.NamesComeBackExactly | internal/handler/handlers.go:608-639 | For names of any bytes: a backup restores to the same store if and only if every name is valid UTF-8. |
| NameEncoding.NamesMerge | internal/handler/handlers.go:608-639 | For any store: a restored counter is the wrapped sum of all counters whose names are written like its own, a restored gauge the last such gauge in list order. |
| NameEncoding.CountersMerge | internal/handler/handlers.go:628-634 | For instance: the counters named by the single bytes FF and FE come back as one. |
| OverlappingBackups.NameStep | internal/repository/backup.go:186-200 | However runs interleave, once one has renamed, the path can only name a file opened by a run. |
| OverlappingBackups.CountStep | internal/repository/backup.go:203-224 | Each file's log holds exactly the records each of its runs has written. |
| OverlappingBackups.TextStep | internal/repository/backup.go:85-103 | Each file made by the runs holds the shuffle of dumps that its log describes. |
| BackupProgress.FinishesExactly | internal/repository/backup.go:174-227 | No run waits for another: from any reachable state, exactly those schedules finish all runs that give each of them the turns it still needs. |
| BackupProgress.AllRunsFinishExactly | internal/repository/backup.go:174-227 | From the start that is three turns (remove, rename, open) and one for each metric. |
| BackupProgress.CanFinish | internal/repository/backup.go:174-227 | Whatever has happened so far, some continuation finishes all runs. |
| BackupProgress.LoneRunIsPerformBackup | internal/repository/backup.go:174-227 | For any store with finite gauges, a lone run of the step-by-step model leaves, when finished, the very disk that the loops of performBackup leave. |
| OverlappingBackups.SumShuffle | internal/repository/backup.go:203-224 | The delta sum of a file is the sum over the runs of what each has written to it, whatever the interleaving. |
| OverlappingBackups.NamesShuffle | internal/repository/backup.go:203-224 | A shuffle introduces the names in dump order, up to where the furthest run has got. |
| OverlappingBackups.ShuffleRestores | internal/repository/backup.go:106-134 | A shuffle of k whole dumps restores to the store with every counter multiplied by k, wrapped, and nothing else changed. |
| OverlappingBackups.OverlappingRuns | cmd/server/main.go:85-130 | Over a storage that stays as it is: any number of overlapping runs in any interleaving, when all are done, leave a path that restores to the storage with counters multiplied by k >= 1, the number of runs that opened that file. |
| OverlappingBackups.OverlappingDumps | cmd/server/main.go:85-130 | Each run writing what it finds, the storage changing meanwhile: when all are done, a restored counter is the wrapped sum of what the runs that opened the file hold for it, a restored gauge a value one of them wrote, and no other name appears. |
| BackupSchedules.RestoredExactly | internal/repository/backup.go:203-224 | k dumps in one file restore the storage if and only if 2^64 divides (k - 1) times every counter. |
| BackupSchedules.OpensAreDumps | internal/repository/backup.go:192-200 | After any schedule of any number of runs, the dumps in the file at the path are as many as the opens since the last rename that moved a file. |
| BackupSchedules.PathRestoresExactly | cmd/server/main.go:85-130 | When all runs are done, the path restores the storage if and only if 2^64 divides every counter times one less than the number of those opens. |
| BackupSchedules.SerialRunsRestore | internal/repository/backup.go:174-227 | If each run finishes before the next starts, the path restores exactly the storage. |
| BackupSurvival.CrashPoints | internal/repository/backup.go:186-224 | A lone run stopped after any step leaves the complete previous backup: at the path before the rename, at path_old from it on. |
| BackupSurvival.SurvivesExactly | internal/repository/backup.go:186-200 | For any number of runs and any schedule: the file that was at path or path_old is still at one of them, text unchanged, if and only if no step removes path_old or renames over it while that is its only name. |
| BackupSurvival.SerialCrashPoints | internal/repository/backup.go:186-224 | Any number of serial runs stopped after any step: a complete backup, the previous one or all that some run writes, is at path or path_old. |
| BackupSurvival.WorthExactly | internal/repository/backup.go:203-224 | What any interleaving of runs has written to a file, finished or not, restores the storage if and only if the furthest run got to the end and the contributions to each counter add up to it modulo 2^64. |
| BackupSurvival.FileExactly | internal/repository/backup.go:106-134 | After any step of any overlapping runs a file made by them gives the storage back if and only if its log meets that condition. |
| BackupSurvival.CompleteLeftExactly | cmd/server/main.go:85-130 | After any step of any overlapping runs a complete backup is left if and only if no step took the last name from the previous one, or path or path_old names a file that meets that condition. |
| BackupSchedules.OverlapCanLoseBoth | internal/repository/backup.go:186-200 | Two overlapping runs can reach a state with an empty file at the path and none at path_old. |
| BackupSchedules.OverlapCanDouble | internal/repository/backup.go:186-224 | Two overlapping runs can leave a backup from which a counter at 1 comes back as 2. |
| SyncJournal.ExecInv | internal/handler/handlers.go:442-478 | In every interleaving the file is the starting file plus the logged records, and memory has applied exactly the logged and the in-flight updates. |
| SyncJournal.EveryRequestApplies | internal/handler/handlers.go:449-474 | Memory is the starting store with every request of the run applied, gauges and counters alike, in the order of their first steps. |
| SyncJournal.TwoStepsServe | internal/handler/handlers.go:416-484 | The two steps of a request with nothing between them: memory and file end as PostUpdateSyncBackup leaves them, for each body it accepts. |
| SyncJournal.CounterLag | internal/handler/handlers.go:467-474 | Always: a counter in memory is its value on disk plus the deltas in flight, wrapped; its name is in memory exactly if on disk or in flight. |
| SyncJournal.IdleAgreement | internal/handler/handlers.go:442-478 | With no request in flight memory and disk agree on every counter and on which gauges exist. |
| SyncJournal.GaugeAgreement | internal/handler/handlers.go:449-456 | If requests for a gauge do not overlap each other, memory holds the one in flight, or else what the disk holds. |
| SyncJournal.SettlesExactly | internal/handler/handlers.go:449-456 | From any reachable state: however the requests in flight finish, memory and disk end up agreeing on a gauge, if and only if every request in flight for it carries the value memory holds or, with none, they agree already. |
| SyncJournal.SerialAgreement | internal/handler/handlers.go:442-478 | If no requests overlap, after each one the storage equals what the file restores to, order included. |
| SyncJournal.OverlapCanDisagree | internal/handler/handlers.go:449-456 | Two overlapping writes to a gauge can leave a stale value on disk with nothing in flight. |
| Handlers.Requested | internal/handler/handlers.go:426-483 | A request is refused if and only if it has no body, an empty id, or is neither a gauge with a value nor a counter with a delta; otherwise it asks for that one update. |
| Handlers.PostUpdateSyncBackup | internal/handler/handlers.go:416-484 | Refuses, changing nothing, exactly the bodies that are absent, have an empty id, or are neither a gauge with a value nor a counter with a delta; for any other body memory gets the update of its own fields always, and the file its record exactly if the producer is open and the value is not a NaN or an infinity. |
| Handlers.OneMatch | internal/handler/handlers.go:650-655 | In a list without repeated names a scan that never breaks still finds exactly one value for a known name. |
| Handlers.PrintGauges | internal/handler/handlers.go:648-658 | The gauge scan prints the stored value exactly once, or nothing for an unknown name. |
| Handlers.PrintCounters | internal/handler/handlers.go:659-669 | The counter scan prints the stored value exactly once, or nothing for an unknown name. |
| Handlers.GetHandler | internal/handler/handlers.go:642-673 | A known name of the asked type prints its one value; anything else is NotFound and prints no value. |
| Handlers.PostValue | internal/handler/handlers.go:549-605 | A known name of the asked type gives OK and one record with the stored value; anything else gives NotFound and no record. |
| Batches.UpdatesGaugesBatch | internal/handler/handlers.go:365-413 | In memory, the entries before the first unknown type are applied whether or not the request is refused. |
| Batches.Database.UpdatesGaugesBatchPostgres | internal/handler/handlers.go:261-362 | The transaction applies all upserts or none, and answers BadRequest if and only if there is an unknown type and all entries before it can be applied. |
| Batches.ColumnExactly | migrations/000001_create_metrics_table.up.sql:2-15 | A name without NUL is stored as it is up to 255 characters; a longer one is cut there if only spaces are lost, and refused otherwise. |
| Batches.CommitsExactly | internal/handler/handlers.go:330-352 | The transaction commits if and only if every entry is of known type with payload and a name the column takes, and no row leaves int64 at any prefix; its rows are then the exact sums. |
| Batches.CommitRefines | internal/handler/handlers.go:304-403 | On a batch the database commits, memory ends with the same two maps if and only if the column kept every name. |
| Batches.BackendsAgree | internal/handler/handlers.go:304-403 | Over any sequence of committed batches the lists and the tables are the same two maps if and only if the column kept every name. |
| Batches.AgreesExactly | internal/handler/handlers.go:304-403 | After any batch, committed or refused, the two back ends hold the same two maps if and only if the batch is acceptable with its names kept, or what memory applied of it had no effect. |
| Batches.UnknownTypeDivergence | internal/handler/handlers.go:337-400 | With the first unknown type at position i the tables are unchanged, whatever the first i entries are, and memory holds exactly their effect: what the tables would hold if they are acceptable, and what they do hold only if they had no effect. |
| Batches.OverflowDivergence | internal/handler/handlers.go:321-323 | Every batch in which some row leaves int64 is refused by the database, and in memory each counter it names becomes its row plus its exact deltas, wrapped. |
| Batches.OverflowHappens | internal/handler/handlers.go:321-323 | The largest int64 and then one more: refused by the database, the smallest int64 in memory. |
| Sender.BuildBatch | internal/agent/send_functions.go:116-148 | The gauges as stored, or every counter's name with the poll count in place of its value; nothing for an empty list. |
| Sender.DeliveredCounters | internal/agent/send_functions.go:131-145 | Delivering the counter batch adds the poll count once to each counter the agent knows, and nothing else. |
| Sender.SendWithRetry | internal/agent/send_functions.go:296-331 | At most four attempts against any network, after 1, 3 and 5 seconds; another attempt if and only if both sends failed with network errors and fewer than four were made; the result is the last attempt's counter result. |
| Sender.AttemptsUnique | internal/agent/send_functions.go:301-328 | The network alone determines the attempts of a call. |
| Sender.DeliveredOnce | internal/agent/send_functions.go:308-327 | Per call at most one gauge batch and at most one counter batch succeed, the latter exactly when the last one does. |
| WorkerPool.PoolSafety | internal/agent/worker_pool.go:51-80 | In every interleaving: accepted = finished + running + queued, started in acceptance order, at most 10 per worker queued, dropped tasks never start. |
| WorkerPool.ShutdownDrains | internal/agent/worker_pool.go:82-94 | When any Shutdown call has returned, the queue is empty, the workers are gone, and each accepted task ran exactly once. |
| WorkerPool.Drained | internal/agent/worker_pool.go:82-94 | The same of the pool from the end of the drain on, before any call has returned. |
| WorkerPool.ShutdownReturns | internal/agent/worker_pool.go:82-94 | Once the drain is over every Shutdown call can return. |
| WorkerPool.PassesExactly | internal/agent/worker_pool.go:66-71 | A submitter passes the closed check if and only if no Shutdown has begun. |
| WorkerPool.AcceptedExactly | internal/agent/worker_pool.go:39-80 | After any run, a task sent on the open channel is queued last if and only if fewer than ten per worker are queued, and dropped otherwise. |
| WorkerPool.PanicExactly | internal/agent/worker_pool.go:66-91 | Once the channel is closed, some continuation panics if and only if a submitter was caught between its check and its send. |
| WorkerPool.QuietNeverPanics | internal/agent/worker_pool.go:66-91 | If no Submit is between its check and its send when the channel is closed, nothing ever panics. |
| WorkerPool.OverlapPanics | internal/agent/worker_pool.go:66-91 | Otherwise a panic is reachable, for any number of workers. |
| WorkerPool.WorkerPool.constructor | internal/agent/worker_pool.go:32-49 | A new pool shows the initial state, with one worker for a non-positive count and room for ten tasks per worker. |
| WorkerPool.WorkerPool.MaySubmit | internal/agent/worker_pool.go:66-71 | The check lets a submitter go on exactly when the pool is not closed. |
| WorkerPool.WorkerPool.Offer | internal/agent/worker_pool.go:73-79 | The send puts the task last in the queue while there is room, drops it when there is none, and panics on a closed channel, as the transition system's Send does. |
| WorkerPool.WorkerPool.Receive | internal/agent/worker_pool.go:54-58 | A receive takes the oldest task, or ends the loop on a closed and empty channel. |
| WorkerPool.WorkerPool.Close | internal/agent/worker_pool.go:88-91 | The locked section of Shutdown closes the pool and its channel. |
| Agent.NeverSendsOnClosed | cmd/agent/main.go:47-69 | No reachable state of the agent sends on a closed channel: the only submitter has left before Shutdown runs. |
| Agent.PoolRun | internal/agent/agent.go:79-93 | Every run of the agent is a run of the worker pool, so the pool's theorems hold inside it. |
| Agent.EveryTickPolls | internal/agent/agent.go:33-43 | Until the poller returns, every tick adds one to the polls and to the local count. |
| Agent.EveryTickSubmits | internal/agent/agent.go:65-79 | Until the reporter returns, every tick submits one task, queued if fewer than ten per worker are queued and dropped otherwise. |
| Agent.PollAccounting | internal/agent/agent.go:33-93 | The server's total is at most every poll once per worker, and at least the polls minus those local and those lost between a snapshot and its reset. |
| Agent.SingleWorkerIsExact | internal/agent/agent.go:33-93 | With one worker the server never exceeds the polls, and at task boundaries polls = server + local + exactly those lost between a snapshot and its reset. |
| Agent.OnePollCountedByEveryWorker | internal/agent/agent.go:79-93 | The bound is attained: for every n there is a run in which n workers count a single poll n times. |
| Agent.PollsCanBeLost | internal/agent/agent.go:85-89 | For any number of workers there is a run with two polls, one at the server and none left to send. |
| Agent.TaskStarts | internal/agent/agent.go:79-85 | A task starts its call with the polls counted at that moment, or does nothing if the context is cancelled. |
| Agent.EveryCallHappens | internal/agent/send_functions.go:301-328 | The converse of PollHistory.TasksFollowSender: for every log of attempts SendWithRetry can make, a worker can take those steps, and they deliver its snapshot once exactly if the last counter batch gets through, and change nothing else. |
| PollHistory.OnlyWatches | internal/agent/agent.go:33-93 | The numbering of the polls does not change what the agent does. |
| PollHistory.EveryPollAccounted | internal/agent/agent.go:33-93 | Each single poll is in a snapshot some worker delivered, still counted locally, or dropped by a reset; what the server got from a worker is the number of different polls that worker delivered. |
| PollHistory.NeverDeliveredTwice | internal/agent/agent.go:85-89 | A snapshot about to be delivered holds no poll that its worker has delivered before. |
| PollHistory.TasksFollowSender | internal/agent/send_functions.go:301-328 | The attempts of every task are those of one call of SendWithRetry, and the counter is zeroed only after a call that returns nil. |
| PollFate.OnlyTells | internal/agent/agent.go:33-93 | Dividing the run into epochs does not change what the agent does. |
| PollFate.CountedExactly | internal/agent/agent.go:33-93 | In every run a worker has delivered a poll if and only if it delivered a snapshot taken after the poll and before the next reset; a poll is still pending if and only if no reset has passed. |
| PollFate.ServerTotal | internal/agent/agent.go:33-93 | For any number of workers: the server's total is the sum over the polls of the number of workers that meet that condition. |
| PollFate.DisjointExactly | internal/agent/agent.go:79-93 | Two workers have no poll in common if and only if between no two resets both delivered a snapshot holding any. |
| PollFate.LostExactly | internal/agent/agent.go:85-89 | Once a reset has passed, some continuation has a worker count the poll if and only if it counts it already or is sending a snapshot that holds it. |
| Agent.BoundedSends | internal/agent/send_functions.go:297-328 | After the cancellation at most eight batch sends per worker can begin. |
| Agent.DrainTerminates | internal/agent/worker_pool.go:87-93 | From the close of the channel on, no run is longer than a measure over queued tasks, remaining attempts and workers. |
| Agent.DrainProgress | internal/agent/worker_pool.go:54-93 | Until Shutdown returns some step is always possible, so the drain cannot get stuck. |
| Agent.ShutdownCompletes | cmd/agent/main.go:47-69 | From every reachable state, cancelled or not, some continuation finishes Shutdown, with the queue empty, all workers gone and each accepted task run exactly once. |
| ResetGenerator.TargetsByLine | cmd/reset/main.go:232-250 | Line by line: a line gives its first name with its type if it has a name and the first one is exported, nothing otherwise, whatever the type; lines keep their order. |
| ResetGenerator.LineOfTarget | cmd/reset/main.go:232-250 | Every target is the first name of a line of the declaration, exported, with the type of that line. |
| ResetGenerator.TargetOfLine | cmd/reset/main.go:232-250 | Every line whose first name is exported is a target. |
| ResetGenerator.ExportedBeyondAscii | cmd/reset/main.go:237-240 | In ASCII a name is exported as in Go; from U+0080 to U+07FF exactly if its first letter is outside U+05C0-U+05FF and U+07C0-U+07FF, so every Cyrillic name is; beyond U+07FF none is. |
| ResetGenerator.ExtractFieldInfo | cmd/reset/main.go:229-254 | The loop collects the first name of each line if exported, with its analysed type, in order. |
| ResetGenerator.GenerateResetMethod | cmd/reset/main.go:342-356 | One statement per target, in order. |
| ResetGenerator.StatementByType | cmd/reset/main.go:358-431 | The emitted statement for each kind of field, read off the type as it is written: reslicing, clearing, a call of Reset, or one of the zero literals. |
| ResetGenerator.AnalyzeBase | cmd/reset/main.go:256-303 | The analysis forgets how many stars a type has: all but the outermost pointer are lost. |
| ResetGenerator.WellTypedExactly | cmd/reset/main.go:358-431 | The emitted statement type-checks if and only if the field's type is in the supported fragment. |
| ResetGenerator.FragmentExactly | cmd/reset/main.go:358-431 | The supported fragment, type by type. |
| ResetSemantics.ResetIsCorrect | cmd/reset/main.go:342-394 | For every value of the struct's type and every line of its declaration: if the first name is exported, that field ends in the reset form of the line's type, recursively through nested Resets; every other field keeps its value, second names included, and no field moves. |
| ResetSemantics.FixedExactly | cmd/reset/main.go:342-394 | Reset leaves a value alone exactly if it is in reset form; running it twice is running it once. |
| ResetSemantics.NamedKeepsType | cmd/reset/main.go:342-394 | Reset maps values of a type to values of that type. |
| ResetSemantics.AllocationsKept | cmd/reset/main.go:358-380 | Pointers stay nil or non-nil and slices keep their backing elements. |
| ResetSemantics.MetricsIsReset | internal/models/reset.gen.go:4-17 | For models.Metrics with any field values: the two texts become empty, and what a non-nil pointer points to becomes zero. |
| ResetSemantics.NotEverythingIsReset | cmd/reset/main.go:237-240 | A second name on a field line and a time.Duration field keep their values. |
| ObjectPool.Pool.constructor | internal/pool/pool.go:18-26 | A new pool is empty. |
| ObjectPool.Pool.Get | internal/pool/pool.go:29-31 | Gives out a pooled object in reset form, or nil; if no object was pooled twice it keeps no copy of it. |
| ObjectPool.Pool.Put | internal/pool/pool.go:34-37 | Resets the object in place and pools it; objects stay pooled at most once exactly if it was not pooled already. |
| ObjectPool.PoolSafety | internal/pool/pool.go:29-37 | Over any sequence of uses every object handed out is in reset form, none is pooled and in use at once, and each put leads to at most one hand-out. |
| ObjectPool.Reuse | internal/pool/pool.go:29-37 | After any uses: an object that is written, put and handed out comes back with its value reset, held once, pooled nowhere. |

## Left out

- HTTP routing, gzip, RSA, hash headers, PEM loading, audit, logging, flags, the linter: plumbing around the modelled code.
- The text of a float is the decimal form of its bits, and the decoder accepts only the layout and the escapes that the encoder writes.
- TornTail.JsonRejectsGlue: is about the model's layout of a record, as are TornTail.TornField and TornTail.GluedIsUnreadable; the decoder of encoding/json accepts other layouts too.
- Codec.RoundTrip: names are valid UTF-8, as in Codec.StringRoundTrip, Codec.JsonIsSound and every theorem about a sound encoder; NameEncoding says what becomes of the others.
- TornTail.TearDecides: assumes of the encoder, besides soundness, that records glued together do not decode; TornTail.JsonRejectsGlue proves it of this JSON text, not of every text encoding/json might produce.
- I/O errors other than a closed or missing file, and a record longer than the writer's buffer, which would reach the disk in several writes.
- OverlappingBackups.OverlappingRuns: the storage does not change while the runs are under way, as in BackupSchedules.PathRestoresExactly and BackupSurvival.CompleteLeftExactly; OverlappingBackups.OverlappingDumps does without that. No run meets a NaN or an infinity; a run that fails midway is covered by Recovery.TwoFailedRunsLoseTheBackup.
- SyncJournal.CounterLag: mutations come only through the synchronous update; the batch and URL routes of synchronous mode do not write the file, so they break the agreement.
- Backup.RestoreFromBackup: a gauge record without value or a counter record without delta would be a nil dereference and is excluded by its precondition.
- Batches.UpdatesGaugesBatch: the same nil dereference on a missing payload is excluded by its precondition.
- Handlers.PostValue: its scan is the one of Handlers.GetHandler, which the source repeats inline.
- WorkerPool.WorkerPool.Close: the two assignments happen under one lock; the transition system has them as two steps because Submit does not hold the lock while sending.
- Agent.PollAccounting: each access to the shared poll counter is one atomic step, which the source does not guarantee; the counter does not reach the limits of int64; a failed send was not applied by the server.
- The system-metrics goroutine, which only sets gauges, and tasks that panic.
- The database pool, migrations as such, statement preparation, performBackupToPostgres (no caller, other table names), single updates and queries of the database handlers.
- Identifiers of one kind share a constructor (all sized numbers; byte and rune), and the generated code is a syntax tree, not text; directory walking, formatting and file writing of the generator.
- Fixed arrays, byte, rune, receive-only channels, pointers to slices and maps, generic instances: outside the supported fragment, where ResetGenerator.WellTypedExactly shows that the generated code does not compile.
- ResetSemantics.ResetIsCorrect: pointees are owned (no sharing or cycles); handwritten and promoted Reset methods, and the contents of slices and maps, are not looked at.
- ObjectPool.PoolSafety: clients give up what they put, so an object put twice or kept in use is not covered there.
- Methods of classes are sequential; their interleavings are the transition systems' business.
