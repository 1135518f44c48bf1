# Verified model of the restic web coordinator

The application runs restic for backups, restores, checks and retention. This
project models the parts of it that have to be right when things go wrong, and
proves what they promise.

* **The run engine** (`RunModel`, `RunEngine`, `RunEffects`, `RunInvariant`,
  `RunSafety`, `RunTheorems`, `RunWitness`, `Coordinator`, `FollowUps`): the slot
  map under the coordinator's mutex, one driver goroutine per run, the durable run records
  with their in-process copies, stop, shutdown, crash and restart. `RunEngine` is
  a state machine over the atomic steps, under every interleaving; a start
  attempt is three steps, and anything that needs no mutex may come in between.
  Before shutdown a start goes through if and only if no other record of its
  repository is active.
  "One active run per repository" is false during a hand-over, and `RunWitness`
  reaches such states; the invariant that does hold is in `RunInvariant`.
  `Coordinator` carries the operations out as methods of an object, each tied to
  the steps of the machine.
* **Restores** (`Containers`, `Startup`, `DatabaseServer`, `PostgresRestore`,
  `DatabaseRestore`, `SafetySnapshots`, `DumpTail`): what is down stays on record
  across a crash; a database server is a map from names to rows and a command a
  list of statements. A command may be refused after any number of statements or
  lose its connection after any number of them, all included. Whatever the
  failures, the old contents stay in place, the whole dump is in their place, or a
  named snapshot holds the old contents, if and only if a safety backup is asked
  for; with the dump under its temporary name counted too, if and only if one is
  asked for or the engine is PostgreSQL.
* **The run log and its live stream** (`RunLog`, `Broadcaster`,
  `EventStream`, `StreamRuns`, `ClientStream`):
  several processes append to one log; a connection replays a backlog and then
  tails a channel that drops what does not fit; the browser reconnects and
  resumes as described in section 9.2 of the WHATWG HTML Standard.
* **Schedules** (`Calendar`, `Schedule`, `CheckSchedules`): integer nanoseconds in
  a zone with a fixed offset.
* **Snapshots, paths and streams** (`SnapshotTree`, `SnapshotBrowse`,
  `TreeCache`, `Paths`, `PathMap`, `Glob`, `RestorePlan`, `Demux`).

`Sequences` holds the few facts about sequences that several of them share.

Verify with `dafny verify dfyconfig.toml`.

## Where the code does less than one might think

Each of these is proved, with the exact condition where there is one.

* A stop that arrives after a run was classified is accepted as long as the run
  holds its slot and its record is active, and does not change how the run ends.
  Unless a crash interrupts it, a stopped run ends in canceled if and only if the
  stop came before its classification or that was canceled anyway
  (`StopDecidesExactly`).
* Shutdown can report success while a backup that handed its slot on is still
  writing its final record (`ShutdownLeavesActive`, `ShutdownSettled`).
* "The database was not changed" is wrong after a swap that ran to its end and
  whose answer was lost: the dump is live (`NotChangedExactly`). "Was dropped" is
  wrong where the check after a failed swap fails too, with the old database in
  place and possibly left closed, or with the dump live after a swap whose answer
  was lost, and where the retried rename ran and only its answer was lost
  (`StrandedExactly`, `OpenExactly`).
* A failed PostgreSQL restore leaves the temporary database behind if its creation
  went through and only the answer was lost, or if the command that removes it
  breaks off (`TempLeftExactly`).
* Without a safety backup every engine can lose what the database held, and MySQL
  and MariaDB the dump with it (`WorstCase`, `NothingLostExactly`,
  `CopyLeftExactly`).
* A second crash while a restart starts the containers of interrupted restores
  leaves those still down for good: every record is marked before any of them is
  started, and a marked one is never looked at again
  (`SecondCrashExactly`).
* A connection misses a stored line that its backlog read did not find if the line
  is published after a higher one, finds its buffer full, or is never published by
  this process, and in no other case (`StreamExactly`, `OutOfOrderLoses`).
* White space around a folder's name breaks the confinement of in-place restores.
  A snapshot path that ends in a space matches a request without it, and the plan
  includes a folder the snapshot does not hold (`UntrimmedSnapshotPath`,
  `IncludesInSnapshotExactly`). A request whose folder ends in a space is planned
  as such, but `restoreArgs` tidies the include once more and names another folder
  (`SpaceChangesFolder`, `CommandKeepsIncludes`, `FilterStaysExactly`).
* A Docker stream cut inside a header counts as complete if the connection was
  closed from this side (`ClosedInHeader`); cut by an end of file it never does.

## Assumptions

* One process, with crashes and restarts; writes to the database succeed.
* Run ids are in the order the runs begin; the code takes them from the wall
  clock. That following runs are later ones, and so that waiting for them ends,
  rests on this.
* `(run_id, seq)` is unique in the log table, as `migrations` declares it.
* A safety snapshot that restic reports holds everything that was dumped, a
  temporary database name and a snapshot id are new, and a command has no effect
  after its call has returned.
* A snapshot listing holds clean absolute paths below the root. Where a lemma says
  so, whatever has something below it is listed as a directory.

## Model

| member | source | states |
|---|---|---|
| `RunModel.ClassifyRun` | internal/core/coordinator.go:915-945 | exactly when a run ends a success, a success with warnings or canceled; a stop or cancellation goes before any error or exit code; an error's own message is kept |
| `RunModel.MessagesExactly` | internal/core/coordinator.go:935-944 | each of the three named failure messages is given for its own exit code only, and only if nothing stopped the run |
| `RunInvariant.InvStep` | internal/core/coordinator.go:448-561 | every step of the engine, crash and restart included, keeps the invariant: slots belong to driven runs, drivers and records agree, and a run holds its slot until it is final or hands it to the run it started |
| `RunInvariant.BegunKeeps` | internal/core/coordinator.go:448-504 | beginning a run in a slot whose holder is absent, terminal or the run it follows keeps the invariant |
| `RunInvariant.GiveUpKeeps` | internal/core/coordinator.go:452-482 | a start attempt that is refused keeps it too, and a driver waiting on the attempt goes on without a follow-up |
| `RunInvariant.NamedKeeps` | internal/core/coordinator.go:520-531 | naming the run that follows in the in-process record keeps the invariant |
| `RunInvariant.FinalKeeps` | internal/core/runstore.go:841-861 | so does the final record, durable and with the in-process copy dropped |
| `RunInvariant.ReleaseKeeps` | internal/core/coordinator.go:903-909 | and the release of the slot, however late it comes |
| `RunInvariant.DownKeeps` | internal/core/runstore.go:502-568 | and a crash, the interruption of what was active, and pruning |
| `RunSafety.ReachableInv` | internal/core/coordinator.go:448-561 | the invariant holds in every reachable state |
| `RunSafety.WorkingHoldsSlot` | internal/core/coordinator.go:511-524 | from its launch until its follow-up is decided a run holds its repository's slot, so at most one run per repository is executing |
| `RunSafety.TwoActive` | internal/core/coordinator.go:454-482 | two active records on one repository are always a backup past its work and the retention run it started, which owns the slot |
| `RunSafety.TwoActiveLinked` | internal/core/coordinator.go:454-482 | also after a crash and while restarting: two active records on one repository are a backup and the retention run it started |
| `RunSafety.AtMostTwoActive` | internal/core/coordinator.go:454-482 | in every reachable state, the process up, crashed or restarting, a repository has at most two active records |
| `RunSafety.NoThirdRun` | internal/core/coordinator.go:471-482 | while the backup of such a pair is not final no run can begin there, even after the retention run has ended |
| `RunSafety.StartsExactly` | internal/core/coordinator.go:448-504 | in every reachable state with the mutex free and no shutdown begun, a start goes through if and only if no record of the repository is active but that of the run followed: a slot whose holder is final does not stop it |
| `RunSafety.ReleaseSparesOthers` | internal/core/coordinator.go:903-909 | releasing a run leaves every slot held by another run as it is |
| `RunSafety.StatusMonotone` | internal/core/runstore.go:616-639 | over any run with crashes and restarts a status only moves starting, running, terminal, and a terminal record never changes again |
| `RunSafety.StoppedEndsCanceled` | internal/core/coordinator.go:829-869 | the property below as an invariant of every further run of the engine |
| `RunSafety.StopBeforeClassify` | internal/core/coordinator.go:511-561 | a run stopped before it is classified ends canceled (or interrupted, if the process crashes first) and starts no retention run |
| `RunSafety.LateStopIgnored` | internal/core/coordinator.go:511-531 | once classified a run ends as it was classified, or interrupted if the process crashes first, stopped or not |
| `RunSafety.StopDecidesExactly` | internal/core/coordinator.go:829-869 | a stopped run that no crash interrupts ends canceled if and only if the stop came before its classification or that was canceled anyway |
| `RunTheorems.ClosingShrinks` | internal/core/coordinator.go:877-901 | once shutdown has begun, no run is recorded and the slot map only shrinks |
| `RunTheorems.ShutdownQuiet` | internal/core/coordinator.go:877-901 | shutdown reporting success means nothing is executing and nothing will |
| `RunTheorems.ShutdownSettled` | internal/core/coordinator.go:877-901 | every record is final at that moment if and only if no backup that handed its slot on is still finishing |
| `RunTheorems.ExecutingKeepsSnapshots` | internal/core/coordinator.go:454-482 | while a run that forgets nothing executes, no snapshot leaves its repository |
| `RunTheorems.OwnSnapshotStays` | internal/core/coordinator_db.go:265-295 | the safety snapshot a database restore takes is in the repository for as long as the restore executes |
| `RunTheorems.FinishedNamesFollowUp` | internal/core/coordinator.go:524-531 | a finalized backup names the retention run it started |
| `RunTheorems.NamedRunIsLast` | internal/core/coordinator.go:524-561 | in the table only a backup that succeeded names a run, never an interrupted one; the named run is a later retention run and names none itself |
| `RunWitness.LateStopNotCanceled` | internal/core/coordinator.go:829-869 | a run in which a stop accepted after classification does not end in canceled |
| `RunWitness.TwoActiveHappens` | internal/core/coordinator.go:524-531 | two records can be active on one repository |
| `RunWitness.ShutdownLeavesActive` | internal/core/coordinator.go:877-901 | shutdown can report success with a record still active |
| `Coordination.Coordinator.Blocker` | internal/core/coordinator.go:454-482 | nothing is in the way exactly if every active record of the repository is that of the run followed; otherwise an active record of another run is named, the slot's holder if it is one |
| `Coordination.Coordinator.StartRunAfter` | internal/core/coordinator.go:448-504 | starts exactly if it is not shutting down and every active record of the repository is that of the run followed, with the whole new state; else nothing changes |
| `Coordination.Coordinator.StartFollowUp` | internal/core/coordinator.go:538-561 | a retention run exactly after a backup of a job that succeeded and calls for one, unless it is shutting down or the repository has another active record; on the backup's own repository it is never refused |
| `Coordination.Coordinator.Finalize` | internal/core/runstore.go:841-861 | the new state is that of the finalize step |
| `Coordination.Coordinator.Finish` | internal/core/coordinator.go:903-909 | the new state is that of the release step |
| `Coordination.Coordinator.Drive` | internal/core/coordinator.go:511-532 | a run driven alone: its final record, its follow-up, and that it leaves nothing behind |
| `Coordination.Coordinator.Stop` | internal/core/coordinator.go:829-869 | the three outcomes exactly, and that only the first stop of a run sets its flag and cancels it |
| `Coordination.Coordinator.BeginShutdown` | internal/core/coordinator.go:877-901 | closes the door; of the drivers exactly those that hold a slot, have an active record and were not stopped before are flagged and canceled, all others stay as they were |
| `Coordination.Coordinator.AllReleased` | internal/core/coordinator.go:877-901 | reports done exactly on an empty slot map, and then no driver is before its follow-up |
| `Coordination.Coordinator.Reconcile` | internal/core/runstore.go:502-568 | exactly the active records become interrupted, no other changes, and their repositories are returned |
| `Coordination.AloneBeforeFollowUp` | internal/core/coordinator.go:538-561 | before its follow-up is decided a backup is the only active record on its repository |
| `FollowUps.WaitForFollowUps` | cmd/restic-webctl/wait.go:166-177 | waits for exactly the chain of named runs, in order, and terminates because links go forward |
| `FollowUps.WaitMissesNone` | cmd/restic-webctl/wait.go:166-177 | in every reachable state that chain is exactly the run the finished backup started |
| `Containers.Host.StopContainersUsing` | internal/core/coordinator.go:323-367 | stops all or, at the first failure, stops no more and starts again what it stopped; the durable list names exactly those whose start failed |
| `Containers.Host.Restart` | internal/core/coordinator.go:335-350 | last stopped first started, as the worlds it goes through show; the list left is exactly those whose start failed |
| `Containers.FailedStartsReversed` | internal/core/coordinator.go:335-350 | that list names the later containers before the earlier ones |
| `Containers.Host.RestoreStopped` | internal/core/coordinator.go:283-318 | in every state a crash could strike the restore, a restart would start every container that is down |
| `Startup.CutShortRecovers` | internal/core/reconcile.go:39-55 | a crash in the middle of a restore is recovered exactly if the world it leaves is one the restore calls recoverable |
| `Startup.Application.MarkAll` | internal/core/runstore.go:502-568 | every record is marked and what the active ones list is gathered in order; a crash meanwhile finds the first few marked and nothing started |
| `Startup.QueueInOrder` | internal/core/runstore.go:557-560 | what is gathered goes record by record, each with its list in order |
| `Startup.Application.Reconcile` | internal/core/reconcile.go:31-55 | all restores cut short are marked before any of their containers is started; the worlds a second crash could strike are those in between |
| `Startup.SecondCrashExactly` | internal/core/reconcile.go:31-55 | a second crash is recovered if and only if each container of the site that a marked restore listed is running, is up again, or is listed by a restore not yet marked |
| `Startup.SecondCrashLosesSite` | internal/core/reconcile.go:31-55 | a crash between two marks leaves the first site down for good and not the second: an example |
| `PostgresRestore.SwapExactly` | internal/core/dbengine.go:325-343 | where a swap leaves the server, by how many of its statements ran, and when it reports success |
| `PostgresRestore.BeforeSwap` | internal/core/coordinator_db.go:400-431 | until the swap only the temporary database changes, and when the swap runs it holds the whole dump and has the settings of the database it replaces |
| `PostgresRestore.RestoreSafe` | internal/core/coordinator_db.go:400-468 | under any failures: the old contents, or the dump, or the dump under the temporary name with the live one gone; success means the dump is live and open; a live database keeps its settings; no other database is touched |
| `PostgresRestore.ReportExactly` | internal/core/coordinator_db.go:400-468 | which commands have to go through for each of the three reports |
| `PostgresRestore.RestoredExactly` | internal/core/coordinator_db.go:400-468 | after success the whole server is as before but for the restored database |
| `PostgresRestore.TempLeftExactly` | internal/core/coordinator_db.go:400-468 | a temporary database is left behind if and only if it was created although the command reported failure, or the command to remove it broke off, or the restored copy never got the live name; before the swap the server is otherwise exactly as it was |
| `PostgresRestore.NotChangedExactly` | internal/core/coordinator_db.go:450-468 | the report that the database was not changed is true unless the swap ran to its end and only its answer was lost |
| `PostgresRestore.NotChangedCanBeFalse` | internal/core/coordinator_db.go:450-468 | such a case |
| `PostgresRestore.StrandedExactly` | internal/core/coordinator_db.go:450-468 | the report that the database was dropped is true if and only if it was missing after the swap and the retried rename did not run to its end |
| `PostgresRestore.StrandedCanBeFalse` | internal/core/coordinator_db.go:450-468 | a run that reports so with the old database there, unchanged and closed |
| `PostgresRestore.OpenExactly` | internal/core/coordinator_db.go:400-468 | a live database that took connections does so afterwards unless the swap stopped after closing it and it was not reopened |
| `DatabaseRestore.ReplaceEffect` | internal/core/coordinator_db.go:473-495 | changed=false means untouched; success means the whole dump; other databases stay |
| `DatabaseRestore.ReplaceExactly` | internal/core/coordinator_db.go:473-495 | touched exactly if the drop went through or its answer was lost; success exactly if all three commands go through, and then the server is as before but for this database |
| `DatabaseRestore.VerdictMeans` | internal/core/coordinator_db.go:265-337 | what each ending of a restore means for the database, for the snapshot the message names and for everything else |
| `DatabaseRestore.NotBegunExactly` | internal/core/coordinator_db.go:258-295 | when a run ends before it replaces anything, and that it then leaves everything as it was |
| `DatabaseRestore.PutBackExactly` | internal/core/coordinator_db.go:310-336 | which ending a MySQL or MariaDB run has, by where its commands fail: once the database may be touched and there is a safety snapshot it is put back if and only if the three commands of that go through, and then holds the old contents |
| `DatabaseRestore.PgVerdictExactly` | internal/core/coordinator_db.go:299-307 | likewise for PostgreSQL, and the snapshot that a failed run names |
| `DatabaseRestore.FaultlessSucceeds` | internal/core/coordinator_db.go:244-337 | without failures every engine ends in success with the dump live, the safety snapshot taken if asked for, and everything else as it was |
| `DatabaseRestore.NothingLost` | internal/core/coordinator_db.go:265-337 | with a safety backup no schedule of failures loses an existing database: old contents, dump, or a named snapshot holding the old contents |
| `DatabaseRestore.NothingLostExactly` | internal/core/coordinator_db.go:265-337 | no schedule of failures loses an existing database, neither what it held nor the dump, if and only if a safety backup is asked for, whatever the engine |
| `DatabaseRestore.CopyLeftExactly` | internal/core/coordinator_db.go:265-337 | no schedule of failures loses both copies, one under the temporary name counted, if and only if a safety backup is asked for or the engine is PostgreSQL |
| `DatabaseRestore.WorstCase` | internal/core/coordinator_db.go:400-495 | for every restore without a safety backup, failures after which the live database is gone and nobody has its old contents; with MySQL or MariaDB nobody has the dump either |
| `DatabaseRestore.UnsafeCanLose` | internal/core/coordinator_db.go:316-321 | a MySQL database lost in this way |
| `SafetySnapshots.NothingLostInRepository` | internal/core/coordinator_db.go:265-337 | a restore run executing in the engine: when its work returns, whatever else ran meanwhile, the database holds the old contents or the dump, or the run names a snapshot that holds the old contents and is in the repository |
| `SafetySnapshots.FailedBackupTouchesNothing` | internal/core/coordinator_db.go:271-290 | if the safety backup fails, the database and the snapshots stay as they were |
| `DatabaseRestore.Host.ReplaceDatabase` | internal/core/coordinator_db.go:473-495 | the commands carried out in order leave the database untouched unless changed is reported, hold the whole dump on success, and touch no other |
| `DatabaseRestore.Host.RestorePostgres` | internal/core/coordinator_db.go:400-445 | the commands carried out in order end safely: old contents, dump, or dump under the temporary name; success means the dump is live and open |
| `DatabaseRestore.Host.RecoverSwap` | internal/core/coordinator_db.go:450-468 | a live database that is seen stays and is reopened if that command runs, one that cannot be seen is left alone and reported dropped, a missing one is replaced unless the rename fails |
| `DatabaseRestore.Host.RestoreDatabase` | internal/core/coordinator_db.go:244-337 | a whole run ends with what its message means being so, and with a safety backup of an existing database nothing is lost |
| `DumpTail.TailWriter.Write` | internal/core/coordinator_db.go:541-548 | keeps exactly the last 4096 characters of all that was written, however it was chunked |
| `DumpTail.CompleteExactly` | internal/core/dbengine.go:347-355 | a dump passes exactly if its marker lies within its last 4096 characters |
| `RunLog.LogDense` | internal/core/runstore.go:767-810 | under any interleaving with other processes' lines the log is exactly 1..n, no line is lost or rewritten, and the handle's counter never exceeds n |
| `RunLog.RetryLandsExactly` | internal/core/runstore.go:767-810 | a retry lands, as the next line, exactly if no line was appended since its catch-up read |
| `RunLog.RunHandle.InsertLog` | internal/core/runstore.go:797-810 | succeeds exactly if the counter is up to date; the counter moves only then |
| `RunLog.RunHandle.AppendSystemLine` | internal/core/runstore.go:482-497 | adds the next line |
| `RunLog.RunHandle.Log` | internal/core/runstore.go:767-793 | lands exactly if the counter was right or nothing came in between; otherwise exactly the other processes' lines are added and the counter has caught up; earlier lines stay |
| `Broadcasting.Broadcaster.SubscribeRun` | internal/core/broadcaster.go:39-50 | a new empty channel for this run and no other |
| `Broadcasting.Broadcaster.UnsubscribeRun` | internal/core/broadcaster.go:52-64 | removes exactly this channel, once |
| `Broadcasting.Broadcaster.SendRun` | internal/core/broadcaster.go:85-98 | offers the message to each of the run's channels, dropping it only where 256 wait, and changes no other channel |
| `EventStream.HandleRunEvents` | internal/core/handlers_sse.go:68-123 | writes the backlog and then exactly those lines of the channel that exceed everything written before |
| `EventStream.PassedExactly` | internal/core/handlers_sse.go:103-123 | no new line is withheld if and only if new lines arrive in order |
| `StreamRuns.SentIncreasing` | internal/core/handlers_sse.go:68-123 | in every interleaving the numbers written are strictly increasing, above the resume point, and stored |
| `StreamRuns.StreamComplete` | internal/core/handlers_sse.go:68-123 | with in-order publication and no full buffer: exactly the stored lines after the resume point, none lost or doubled at the seam |
| `StreamRuns.StreamExactly` | internal/core/handlers_sse.go:68-123 | in every interleaving: with no line left in its queue a connection has written exactly the stored lines after its resume point if and only if its channel took every line stored above what it starts from, and none after a higher one |
| `StreamRuns.OutOfOrderLoses` | internal/core/runstore.go:767-793 | publication out of order can lose a line to a connection that is tailing: an example |
| `StreamRuns.ConnectionIsHandler` | internal/core/handlers_sse.go:68-123 | the steps of a connection in the machine write exactly what the handler method writes |
| `ClientStream.RunStream.OnLog` | ui/src/lib/live.jsx:113-117 | a line is appended exactly if it has no number or a higher one than every line in the list |
| `ClientStream.ClientIncreasing` | ui/src/lib/live.jsx:102-119 | the client's list is strictly increasing over any reconnects |
| `ClientStream.ReconnectsLoseNothing` | ui/src/lib/live.jsx:102-119 | over any connections that break at any point, under every interleaving, the list is all that was received, strictly increasing; with in-order publication and no full buffer it is exactly the first stored lines, in the end all |
| `ClientStream.ConnectionExactly` | internal/core/handlers_sse.go:68-123 | the same if and only if holds of the current connection after any reconnects |
| `Calendar.NormalizeWeekdays` | internal/core/model.go:573-590 | the same weekdays, sorted and unique |
| `Calendar.SlotsExactly` | internal/core/scheduler.go:246-281 | the slots are exactly the moments at the schedule's time of day in the local zone, on one of its weekdays, Sunday counted 0 |
| `Calendar.ComputeNextFire` | internal/core/scheduler.go:246-263 | the least allowed slot at or after the argument |
| `Calendar.NextFireLeast` | internal/core/scheduler.go:246-263 | likewise, and for a valid schedule the fallback after the loop is never reached |
| `Calendar.NextFireFallback` | internal/core/scheduler.go:246-263 | without an allowed weekday the answer is the same time a week on |
| `Calendar.PeriodHasSlot` | internal/core/scheduler.go:153-173 | every half-open window a period long contains a slot |
| `Schedule.NeverRunDue` | internal/core/scheduler.go:209-222 | a job that never ran is due exactly if a slot has come since it was saved, or right now if that time is unset or yet to come |
| `Schedule.AfterSuccessDue` | internal/core/scheduler.go:189-233 | after a success exactly once a later slot has come |
| `Schedule.AfterFailureDue` | internal/core/scheduler.go:177-233 | after a failure strictly later, within an hour, and an hour on unless a slot comes first |
| `Schedule.IntervalDue` | internal/core/scheduler.go:153-215 | an hourly or interval job is due exactly if it never ran, or its period has passed since a success, or an hour since a failure |
| `Schedule.OffNeverDue` | internal/core/scheduler.go:190-198 | a schedule that is off or of an unknown kind is never due |
| `Schedule.OverdueMeansDue` | internal/core/scheduler.go:283-295 | if the latest attempt succeeded, overdue implies due |
| `Schedule.OverdueExactly` | internal/core/scheduler.go:283-295 | overdue a day, a week, the interval or an hour after the last success, by kind; never while off or running; without a success exactly when due |
| `Schedule.AttemptsSpaced` | internal/core/scheduler.go:65-95 | for every valid schedule, over any ticks and backups by hand: a slot lies between each success and the next scheduled run, or the interval, and after a failure an hour or a slot |
| `Schedule.TickStartsExactly` | internal/core/scheduler.go:65-95 | and a tick starts the job exactly when that much has passed, it is not running and its repository is free |
| `Schedule.OneCatchUp` | internal/core/scheduler.go:65-95 | however many slots were missed, one successful run catches up |
| `CheckSchedules.CheckDueExactly` | internal/core/scheduler.go:115-138 | a check is due exactly once a slot has come since the schedule was saved and since 12 hours less than a period after the last check started |
| `CheckSchedules.CheckKeepsSlot` | internal/core/scheduler.go:115-132 | the next check is due one period after a slot if and only if this one started less than 12 hours before and at most 12 hours after it |
| `CheckSchedules.ChecksDoNotDrift` | internal/core/scheduler.go:115-138 | so the k-th check stays within 12 hours of the slot k periods after the first, and the next is due one period later |
| `CheckSchedules.KthSlotIs` | internal/core/model.go:162-173 | that slot is the first plus k times the period |
| `CheckSchedules.TickOnce` | internal/core/scheduler.go:65-113 | of the attempts of a tick, jobs first, exactly those start a run that are due, that nothing outside stops, and whose repository no run this tick started still holds |
| `CheckSchedules.OutcomeUnique` | internal/core/scheduler.go:65-113 | that decides the whole tick: there is one way it can go |
| `CheckSchedules.FirstGoes` | internal/core/scheduler.go:65-113 | while none of its runs has ended, of the attempts on a repository that may start exactly the first does |
| `CheckSchedules.BackupStartsExactly` | internal/core/scheduler.go:65-95 | a backup is started exactly if its schedule is on and due, the job is not being backed up, nothing refuses it, and no run holds its repository, those of this tick included |
| `CheckSchedules.CheckWaitsExactly` | internal/core/scheduler.go:98-113 | a due check that is not refused starts if and only if neither another run nor a backup this tick started holds its repository |
| `SnapshotTrees.AddAncestors` | internal/core/snapshot_ls.go:85-92 | adding ancestors up to the first that is there leaves no node without its parent |
| `SnapshotTrees.IndexNodes` | internal/core/snapshot_ls.go:77-92 | the nodes are exactly the listed paths and their ancestors, despite the early break |
| `SnapshotTrees.NodeForExactly` | internal/core/snapshot_ls.go:77-92 | a path listed twice stands for what was listed last; an ancestor that is not listed for a directory of its last name |
| `SnapshotTrees.AddUp` | internal/core/snapshot_ls.go:98-103 | adds the size to every ancestor and to nothing else |
| `SnapshotTrees.SumSizes` | internal/core/snapshot_ls.go:93-104 | each size is the total of the files below, whatever order the map is walked in |
| `SnapshotBrowse.LinkChildren` | internal/core/snapshot_ls.go:105-112 | every node is in its parent's list exactly once, and in no other |
| `SnapshotBrowse.SnapshotTree.constructor` | internal/core/snapshot_ls.go:77-121 | the tree built from a listing is the index of that listing |
| `SnapshotBrowse.SnapshotTree.List` | internal/core/snapshot_ls.go:124-137 | found exactly for a directory, and then exactly its entries, each once |
| `SnapshotBrowse.SnapshotTree.Has` | internal/core/snapshot_ls.go:140-143 | exactly the listed paths and their ancestors |
| `SnapshotBrowse.ParentIsDir` | internal/core/snapshot_ls.go:83-92 | the tree is closed under parents, all of them directories |
| `SnapshotBrowse.SizeIsSumOfChildren` | internal/core/snapshot_ls.go:93-109 | a directory's size is the sum of its entries' sizes and of all files below it |
| `SnapshotBrowse.ReachedOnce` | internal/core/snapshot_ls.go:124-137 | walking from the root through lists reaches every node in exactly one way |
| `TreeCache.CachedExactly` | internal/core/snapshot_ls.go:148-191 | after any operations a key is cached exactly if fewer than max other keys were used since its last use |
| `TreeCache.UsesExactly` | internal/core/snapshot_ls.go:161-181 | what counts as a use: every put, and a lookup if and only if it finds its tree |
| `TreeCache.GetKeeps` | internal/core/snapshot_ls.go:161-169 | finding a key keeps the cache in agreement with the unbounded recency list and map |
| `TreeCache.PutKeeps` | internal/core/snapshot_ls.go:171-181 | so does putting one, evicting the least recently used if need be |
| `TreeCache.SnapshotTreeCache.Get` | internal/core/snapshot_ls.go:161-169 | answers exactly the last-put tree of a key among the max most recently used |
| `TreeCache.SnapshotTreeCache.Put` | internal/core/snapshot_ls.go:171-181 | keeps the agreement and holds the tree put |
| `TreeCache.SnapshotTreeCache.MoveToBack` | internal/core/snapshot_ls.go:183-191 | the loop takes the key out where it is and appends it |
| `Paths.CleanIdempotent` | internal/core/restore_target.go:30-38 | cleaning a clean path changes nothing and keeps it absolute or relative |
| `Paths.CleanRules` | internal/core/restore_target.go:30-38 | slashes in a row count as one, "." is dropped, a name and the ".." behind it are dropped, nothing is above the root, and the empty path is "." |
| `Paths.PathWithinIs` | internal/core/discovery.go:242-253 | on clean absolute paths the string test is containment name by name, and the rest is the names below |
| `PathMaps.Translate` | internal/core/discovery.go:218-239 | the first of the longest mappings that contain the path, or none |
| `PathMaps.DeepestChosen` | internal/core/discovery.go:218-227 | that is the mount whose folder lies deepest around the path |
| `PathMaps.BackAgainExactly` | internal/core/discovery.go:218-239 | mapping there and back gives the path again if and only if the mount chosen on the way back is nested alike on both sides |
| `Glob.EscapePattern` | internal/core/restore_target.go:93-103 | the loop's result |
| `Glob.EscapeChangesExactly` | internal/core/restore_target.go:93-103 | a path is left as it is if and only if it has none of the four special characters |
| `Glob.EscapedMatchesItself` | internal/core/restore_target.go:90-103 | an escaped path as a glob matches exactly itself |
| `Glob.UnescapedMatchesAnother` | internal/core/restore_target.go:90-92 | without escaping a name can miss itself and match another |
| `Glob.CoversExactly` | internal/core/restore_target.go:90-103 | the escaped include of a folder covers exactly the folder and what lies below it; that of the root only the root |
| `RestorePlans.CleanRestoreIncludes` | internal/core/restore_target.go:59-74 | the tidied paths in order, each once, without empty ones |
| `RestorePlans.CleanIncludesAre` | internal/core/restore_target.go:59-74 | which paths those are, that none occurs twice, and that each stands where it first came |
| `RestorePlans.TrimSpaceIs` | internal/core/restore_target.go:36-38 | exactly the white space around the text is removed |
| `RestorePlans.ResolveTarget` | internal/core/restore_target.go:42-53 | in place exactly for a folder that was backed up |
| `RestorePlans.PlanSelection` | internal/core/restore_target.go:109-138 | accepted exactly if all selected paths may be selected; a refusal names the first that may not, and the first of three reasons |
| `RestorePlans.SelectableExactly` | internal/core/restore_target.go:115-135 | that is: each is absolute, below a snapshot path and, for a folder restored in place, inside it |
| `RestorePlans.PlannedExactly` | internal/core/restore_target.go:29-53 | the target and the includes of every plan: in place limited to the folder, the root limited to what was backed up, elsewhere as requested without a limit; a selection takes the place of the limit |
| `RestorePlans.RestoreArgs` | internal/core/restore_target.go:78-88 | refused exactly for a root target without filters; otherwise the command argument by argument, each tidied include as an include and escaped |
| `RestorePlans.InPlaceConfined` | internal/core/restore_target.go:29-39 | an in-place plan for a folder other than the root has includes, each inside that folder |
| `RestorePlans.IncludesInSnapshotExactly` | internal/core/restore_target.go:109-138 | they all lie under a snapshot path if and only if something was selected or a snapshot path, untrimmed, contains the requested folder |
| `RestorePlans.UntrimmedSnapshotPath` | internal/core/restore_target.go:42-53 | for any folder: if its snapshot path was recorded with a space behind it, the plan includes a folder the snapshot does not hold |
| `RestorePlans.RootExactly` | internal/core/restore_target.go:29-53 | a plan targets the root exactly for a backed-up folder and for the root itself |
| `RestorePlans.InPlaceBelow` | internal/core/restore_target.go:109-138 | likewise name by name |
| `RestorePlans.FilterStaysExactly` | internal/core/restore_target.go:78-103 | the filter the command makes of a planned include covers nothing outside the requested folder if and only if, tidied once more, it still lies inside |
| `RestorePlans.CommandStaysExactly` | internal/core/restore_target.go:78-103 | so no include argument of the command covers anything outside the requested folder if and only if every planned include, tidied once more, lies inside |
| `RestorePlans.CommandKeepsIncludes` | internal/core/restore_target.go:78-88 | the command limits itself to exactly the planned includes if and only if none is "." or has white space around it |
| `RestorePlans.SpaceChangesFolder` | internal/core/restore_target.go:59-88 | for any folder whose name ends in a space the command limits itself to another folder |
| `Demux.HeaderLayout` | internal/core/docker.go:462-478 | the header byte by byte: the stream first, then three that are not looked at, then the length of the payload with the first byte counting most |
| `Demux.FramesEncode` | internal/core/docker.go:448-479 | every byte stream is the encoding of whole frames and an incomplete rest |
| `Demux.FramesUnique` | internal/core/docker.go:448-479 | in exactly one way |
| `Demux.DemuxStream` | internal/core/docker.go:452-479 | each stream gets exactly its frames' payloads and what has arrived of an incomplete one; when it reports success |
| `Demux.RoundTrip` | internal/core/docker.go:448-479 | demultiplexing an encoding gives back all of the frames |
| `Demux.CutFrame` | internal/core/docker.go:462-478 | cut inside a frame: exactly the earlier frames, a prefix of that payload, and something left over, so an error |
| `Demux.CutAnywhere` | internal/core/docker.go:462-478 | every proper prefix ends between two frames or inside one |
| `Demux.AcceptedExactly` | internal/core/docker.go:462-478 | a stream that ends with end of file is accepted exactly if it encodes some frames |
| `Demux.ClosedInHeader` | internal/core/docker.go:463-466 | a connection closed from this side in the middle of a header is taken for a clean end |

## Left out

- Running restic and Docker, signals, process ids and the database: a run's work is an outcome that may be anything, a Docker call or command a fault chosen by an adversary.
- `databaseBusy`: it runs outside the coordinator's lock and excludes nothing, so there is no safety property of it to prove.
- Two processes starting runs at once: the check of active records and the insert are not atomic between processes.
- Coordination.Coordinator.Stop: signalling a run of another process is only an outcome; what that process then does is its own engine.
- Coordination.Coordinator.StartRunAfter: does not model the insert of the record failing, because writes are assumed to succeed.
- RunModel.ClassifyRun: does not model wrapped errors, because only which sentinel an error matches decides; the text for an unknown exit code is fixed.
- Pruning: which terminal records a restart prunes is left open, any set of them may go.
- SnapshotBrowse.SnapshotTree.List: does not model the order of the entries or the cleaning of its argument; a path is its list of names.
- TreeCache.SnapshotTreeCache.Get: does not model the mutex, because each operation holds it throughout.
- EventStream.HandleRunEvents: does not model keep-alives, a failing backlog read, or the parsing of the resume header and query.
- StreamRuns.StreamComplete: supposes that no message was dropped; `StreamExactly` says what happens in general.
- `lineLogger`, `progressReader` and quiet notes: presentation only.
- Schedule.AttemptsSpaced: does not model two attempts of one job at once, because the scheduler skips a job with a running backup; a backup by hand is an attempt of its own.
- Daylight-saving changes and the text of times and durations: a fixed offset, and parsed values or none.
- 64-bit overflow of times, sizes and sequence numbers.
- DatabaseServer: shell and SQL quoting, and what is given at creation (owner, encoding, collation); a script is the list of its statements.
- DumpTail.CompleteExactly: the marker texts are a parameter.
- PathMaps.Translate: one method stands for both directions, with the sides exchanged.
- Glob.CoversExactly: restic's "**" component is not modelled; no escaped component is one (`NotDoubleStar`).
- Demux.DemuxStream: does not model a writer that fails.
- Authentication, sessions, CRUD stores, the speed test, discovery of resources, the command line and the user interface: other concerns with easier properties.
