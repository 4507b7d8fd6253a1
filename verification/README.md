# Verified models of a video-management backend

A Dafny model of the concurrent and stateful utilities of a C++ video-management backend:
its batch writer, job runner, export jobs, login rate limiter, attendance roll-up,
camera-list cache, brand discovery, text codecs, filter-graph generator, lock statistics,
throttled log and protective-equipment (PPE) pairing. `dafny verify dfyconfig.toml` checks everything.

Code that one thread runs at a time is modelled as it is written: a class with its mutable
fields (`Writer`, `Runner`, `Table`, `Limiter`) or a method with its loops, each proved against a
specification function whose properties are then proved. Code that several threads run is a
labelled step machine: `Enabled`, `Next`, and runs as sequences of actions, one action per
atomic access or critical section, with histories kept beside the state. The theorems then
speak about every run, that is, every interleaving.

| file | what it models |
|---|---|
| `bulk_writer.dfy` | producers, one writer thread and one owner around a bounded queue: drop-oldest overflow, re-enqueue at the front after a failed flush, drain at stop |
| `job_runner.dfy` | a bounded job queue, a crew of workers and a graceful drain; the mutex is part of the state because the stop flag is set outside it |
| `export_table.dfy` | the export job table and the two pruning passes that keep it within 200 entries, in place |
| `export_jobs.dfy` | the table composed with the runner: who owns a job, and how its status moves |
| `rate_limiter.dfy` | pruned failure deques, lockouts and background eviction, as a refinement of one plain event log per key |
| `attendance.dfy` | clock texts, the day a punch belongs to, late and overtime minutes |
| `attendance_rollup.dfy` | the query for one day: window, filter, fold per employee, report line |
| `camera_cache.dfy` | the cached camera list: version, body and deadline, with every load and store separate |
| `camera_discovery.dfy` | one probe thread per brand, and the main thread that polls them and then reads the result without the mutex |
| `base64.dfy`, `csv.dfy` | the base64 codec and the CSV field escaper |
| `filter_graph.dfy` | the FFmpeg filter graph emitted for a list of masks, and an interpreter for such graphs |
| `lock_monitor.dfy`, `throttled_log.dfy` | relaxed counters, a compare-and-swap maximum, and a throttled log site |
| `ppe.dfy` | sorting, pairing, track-id adoption and violation emission for one video frame |
| `common.dfy` | an option type and a few sequence functions |

## Where the code does not do what its text says

The model follows the code. The following statements of the code's own comments or settings
are not true of it. For each there is a lemma that shows how it fails, and one that says
exactly when it holds.

| statement | fails | holds exactly when |
|---|---|---|
| `max_queue` bounds the batch writer's queue | `BulkWriter.BoundAttained` | no flush has failed since the last batch went: `BulkWriter.ConfiguredBoundHoldsIffNoFailure` |
| `stop` leaves no row behind | `BulkWriter.StrandedRowExists` | no `enqueue` call is past its check when the gate closes: `BulkWriter.NothingStrandedIff` |
| every export job ends as done or failed (line 170 of `export_controller.cpp` is outside the `try`) | `ExportJobs.EscapedJobStaysQueued`, `ExportJobs.EscapedJobStaysForever` | no run escaped with an exception: `ExportJobs.DrainedJobsAreTerminal` |
| the query window is wide enough for any shift (line 327 of `attendance_controller.cpp`; its own example 22:00 to 06:00 has the midpoint 14:00) | `Attendance.UncountedExactly` | the shift is not overnight or its off-duty midpoint is at most 12:00: `Attendance.EveryPunchCountedIff` |
| a worker who punched once earns no overtime (lines 485 to 486 of the same file) | `AttendanceRollup.SinglePunchCanEarnOvertime` | the punch is before shift end plus grace plus minimum: `AttendanceRollup.SinglePunchOvertimeIff` |
| no stale camera list is cached once an invalidation has ended | `CameraCache.StaleListServed` | the cached list and those of fills past their check are current: `CameraCache.NeverStaleIff` |
| a camera list is served for less than 1000 ms | `CameraCache.OldListServed` | the list loaded is younger than that when the request starts: `CameraCache.ServedOldIff` |
| discovery goes on with the brand that was found | `CameraDiscovery.UnknownBrandUsed` | per run `CameraDiscovery.UsedPairIff`; over all runs `CameraDiscovery.BrandCanGetLostIff` |
| discovery goes on with the port that was found | `CameraDiscovery.WrongPortUsed` | per run `CameraDiscovery.UsedPairIff`; over all runs `CameraDiscovery.PortCanBeWrongIff` |
| the fields of a lock snapshot fit together | `LockMonitor.SnapshotCanDisagree` | the smaller field is loaded first, which the code does not do: `LockMonitor.CountsAgreeIff`, `LockMonitor.WaitsAgreeIff` |
| anybody can comply, whatever the class ids of the equipment roles | `Ppe.CompliancePossibleIff` | no enabled role shares the class id of one tried before it: `Ppe.CompliancePossibleIff` |

## Model

| member | source | states |
|---|---|---|
| `BulkWriter.PushBounded` | cpp-backend/include/utils/bulk_writer.h:105-110 | a push keeps a suffix of queue plus new row, one shorter exactly when the queue was full |
| `BulkWriter.OverflowKeepsTheLatest` | cpp-backend/include/utils/bulk_writer.h:100-113 | whatever is pushed onto a queue within its capacity, it holds the latest `max_queue` rows it ever saw |
| `BulkWriter.Writer.constructor` | cpp-backend/include/utils/bulk_writer.h:49-65 | a new writer is empty and accepts nothing |
| `BulkWriter.Writer.Enqueue` | cpp-backend/include/utils/bulk_writer.h:100-113 | a closed writer changes nothing; an open one pushes, counts what it dropped, and notifies when a batch is full |
| `BulkWriter.Writer.TakeBatch` | cpp-backend/include/utils/bulk_writer.h:133-142 | the writer thread takes the whole queue and leaves it empty |
| `BulkWriter.Writer.Requeue` | cpp-backend/include/utils/bulk_writer.h:145-166 | a failed batch goes in front of the rows that came meanwhile, in its old order |
| `BulkWriter.PushIsEnqueue` | cpp-backend/include/utils/bulk_writer.h:104-110 | the protocol's push does to the rows what `Writer.Enqueue` does to its fields |
| `BulkWriter.FailedFlushIsRequeue` | cpp-backend/include/utils/bulk_writer.h:145-166 | the protocol's failed flush does to the rows what `Writer.Requeue` does |
| `BulkWriter.StepKeepsInv` | cpp-backend/include/utils/bulk_writer.h:59-176 | every atomic step keeps the row ledger, the order, the thread protocol, the stragglers and the bound |
| `BulkWriter.EveryRowAccountedFor` | cpp-backend/include/utils/bulk_writer.h:67-176 | in every run the rows accepted are, as a multiset, those flushed, dropped, lost, in flight, being drained and queued; the drop counter counts the dropped |
| `BulkWriter.FlushedAndHeldAreSubsequence` | cpp-backend/include/utils/bulk_writer.h:67-176 | flushed, in flight, draining and queued rows, in that order, are a subsequence of the rows accepted: nothing is flushed twice or out of order |
| `BulkWriter.OnlyStragglersAfterDrain` | cpp-backend/include/utils/bulk_writer.h:67-97 | after the drain the queue holds only rows of calls that passed their accept check before the gate closed |
| `BulkWriter.StrandedRowExists` | cpp-backend/include/utils/bulk_writer.h:100-113 | such a row can exist, whatever the row: a run that stops with it in the queue |
| `BulkWriter.NothingStrandedIff` | cpp-backend/include/utils/bulk_writer.h:67-113 | from any running state, no way of stopping leaves a row in the queue if and only if no `enqueue` call is past its check when the gate closes |
| `BulkWriter.QueueBound` | cpp-backend/include/utils/bulk_writer.h:145-166 | after k failed flushes in a row the queue holds at most (k + 1) * max_queue rows |
| `BulkWriter.BoundAttained` | cpp-backend/include/utils/bulk_writer.h:145-166 | for every k some run attains exactly that number |
| `BulkWriter.ConfiguredBoundHoldsIffNoFailure` | cpp-backend/include/utils/bulk_writer.h:105-110 | the configured bound holds in all states with k failures in a row if and only if k is 0 |
| `BulkWriter.DisposedBatchRestoresBound` | cpp-backend/include/utils/bulk_writer.h:144-170 | a flush that succeeds or throws brings the queue back within max_queue |
| `BulkWriter.WokenWriterTakesAll` | cpp-backend/include/utils/bulk_writer.h:133-142 | a waiting writer with rows in the queue can only go on by taking them all |
| `JobRunner.Runner.constructor` | cpp-backend/include/utils/background_job_runner.h:38-48 | an empty queue with zero counters |
| `JobRunner.Runner.Submit` | cpp-backend/include/utils/background_job_runner.h:57-91 | accepted if and only if the job is callable, the runner open and the queue not full; the whole new state in each case |
| `JobRunner.Runner.TakeOrLeave` | cpp-backend/include/utils/background_job_runner.h:137-165 | a worker takes the oldest job, or may leave only from an empty queue of a stopping runner |
| `JobRunner.SubmissionIsOffer` | cpp-backend/include/utils/background_job_runner.h:57-91 | the protocol's test and push together do to the fields what `submit` does, even when a stop comes between them: that job still goes in |
| `JobRunner.BusyUpdate` | cpp-backend/include/utils/background_job_runner.h:137-165 | a worker's move changes how often a job is being run by that worker's share only |
| `JobRunner.StepKeepsInv` | cpp-backend/include/utils/background_job_runner.h:57-165 | every step keeps counters, job balance and "somebody gone means queue empty and closed" |
| `JobRunner.FifoAndCounters` | cpp-backend/include/utils/background_job_runner.h:57-115 | in every run accepted = started followed by queued, in order; submitted and dropped count exactly; the depth never exceeds the maximum |
| `JobRunner.PeakIsGreatestDepth` | cpp-backend/include/utils/background_job_runner.h:77-88 | the peak counter is exactly the greatest depth along the run |
| `JobRunner.DrainIsFinal` | cpp-backend/include/utils/background_job_runner.h:115-165 | once any worker has left, in every continuation the queue is empty, all accepted jobs are started and nothing more is accepted |
| `JobRunner.AllGoneMeansAllDone` | cpp-backend/include/utils/background_job_runner.h:115-165 | when every worker has left, every accepted job was started once, in order, and ran to its end |
| `ExportTable.FindVictim` | cpp-backend/src/api/export_controller.cpp:73-84 | none exactly when every job is queued or processing; else a done or failed job whose output is gone or, if there, no newer than that of any other such job; the first of equals |
| `ExportTable.Table.constructor` | cpp-backend/src/api/export_controller.cpp:27-33 | the table starts empty |
| `ExportTable.Table.DropStaleJobs` | cpp-backend/src/api/export_controller.cpp:45-70 | erasing while iterating leaves exactly the active jobs and those whose output is there and at most 86400 s old, in key order |
| `ExportTable.Table.EvictOldest` | cpp-backend/src/api/export_controller.cpp:72-86 | the second pass ends, and what it leaves comes from the table by rounds of evicting the victim, each round with the file times it reads anew |
| `ExportTable.Table.Prune` | cpp-backend/src/api/export_controller.cpp:43-87 | both passes in a row, with file times that may change between the passes and between the rounds of the second |
| `ExportTable.Table.Create` | cpp-backend/src/api/export_controller.cpp:276-285 | refused exactly when pruning leaves 200 entries; otherwise the pruned table with the new job in key order |
| `ExportTable.Table.InsertJob` | cpp-backend/src/api/export_controller.cpp:284-284 | insertion at the job's place by key |
| `ExportTable.Table.SetStatus` | cpp-backend/src/api/export_controller.cpp:89-98 | only the entry with the id changes: its status, the output path of a completed job, the message of a failed one; an absent id changes nothing |
| `ExportTable.DropStaleKeeps` | cpp-backend/src/api/export_controller.cpp:45-70 | a job stays if and only if it is queued or processing, or its output is there and at most 86400 s old |
| `ExportTable.CappedKeeps` | cpp-backend/src/api/export_controller.cpp:72-86 | only finished jobs are evicted, each no younger than any finished survivor in its round, no more than the cap demands, and a table left full has only active jobs |
| `ExportTable.PruneIsAllowedEviction` | cpp-backend/src/api/export_controller.cpp:43-87 | pruning in place is one eviction of terminal jobs on the map from id to status, below the cap unless only active jobs remain |
| `ExportTable.InsertedTable` | cpp-backend/src/api/export_controller.cpp:284-284 | the insertion is the map update of the new id |
| `ExportTable.UpdatedTable` | cpp-backend/src/api/export_controller.cpp:89-98 | replacing an entry in place is the map update of its status |
| `ExportJobs.CreateIsStep` | cpp-backend/src/api/export_controller.cpp:276-285 | pruning and inserting in place is one create step of the protocol on the map from id to status |
| `ExportJobs.StepKeepsInv` | cpp-backend/src/api/export_controller.cpp:165-291 | every step of requests, runner and workers keeps: one owner per active job, and terminal status for jobs nobody owns |
| `ExportJobs.TableStaysBounded` | cpp-backend/src/api/export_controller.cpp:276-285 | in every run the table has at most 200 entries |
| `ExportJobs.ActiveJobsAreNeverEvicted` | cpp-backend/src/api/export_controller.cpp:40-60 | a job that a request, the queue or a worker still holds is in the table; queued ones with status queued |
| `ExportJobs.RunningJobIsNowhereElse` | cpp-backend/src/api/export_controller.cpp:284-291 | a running job is neither queued nor being submitted, and no request still holds it |
| `ExportJobs.OneOwner` | cpp-backend/src/api/export_controller.cpp:284-291 | no two workers run the same job |
| `ExportJobs.QueuedJobIsQueuedOnce` | cpp-backend/src/api/export_controller.cpp:284-291 | a queued job is in the queue once, and neither being submitted nor held by a request |
| `ExportJobs.StatusMachine` | cpp-backend/src/api/export_controller.cpp:165-219 | every step changes a status only along queued to processing to done or failed (or queued to failed); terminal statuses never change and no evicted id comes back |
| `ExportJobs.DrainedJobsAreTerminal` | cpp-backend/src/api/export_controller.cpp:165-219 | after the drain a job in the table is done or failed if and only if its run did not escape; all are, if and only if none escaped |
| `ExportJobs.EscapedJobNeverMoves` | cpp-backend/src/api/export_controller.cpp:165-170 | no step changes the status of a job whose run escaped, or evicts it |
| `ExportJobs.EscapedJobStaysForever` | cpp-backend/src/api/export_controller.cpp:165-170 | so in every continuation it keeps its active status and its place in the table |
| `ExportJobs.EscapedJobStaysQueued` | cpp-backend/src/api/export_controller.cpp:165-170 | for any number of workers, a run whose directory creation throws ends drained with a queued job |
| `RateLimiter.Limiter.constructor` | cpp-backend/include/utils/rate_limiter.h:99-105 | no entries, last eviction at the clock's epoch |
| `RateLimiter.Limiter.PruneAttempts` | cpp-backend/include/utils/rate_limiter.h:39-43 | the pop-front loop computes the pruned deque |
| `RateLimiter.Limiter.EvictStale` | cpp-backend/include/utils/rate_limiter.h:107-123 | when due, exactly the idle keys are forgotten, in whatever order they are visited |
| `RateLimiter.Limiter.IsAllowed` | cpp-backend/include/utils/rate_limiter.h:28-46 | answer and new state as the step function says |
| `RateLimiter.Limiter.RecordFailure` | cpp-backend/include/utils/rate_limiter.h:49-66 | new state as the step function says |
| `RateLimiter.Limiter.RecordSuccess` | cpp-backend/include/utils/rate_limiter.h:69-72 | new state as the step function says |
| `RateLimiter.Limiter.CheckLogin` | cpp-backend/include/utils/rate_limiter.h:76-82 | a refused address hides the account, whose entry is then untouched; otherwise both are checked in turn |
| `RateLimiter.Limiter.RecordLoginFailure` | cpp-backend/include/utils/rate_limiter.h:84-87 | a failure on the address and then one on the account |
| `RateLimiter.Limiter.RecordLoginSuccess` | cpp-backend/include/utils/rate_limiter.h:89-92 | both keys of a login are cleared, whichever had failed |
| `RateLimiter.LoginLimits` | cpp-backend/include/utils/rate_limiter.h:76-87 | address and account keys never collide and always carry their own limits |
| `RateLimiter.PruneIsSince` | cpp-backend/include/utils/rate_limiter.h:39-43 | on sorted times dropping old ones from the front drops all old ones |
| `RateLimiter.CheckKeeps` | cpp-backend/include/utils/rate_limiter.h:28-46 | a check says no exactly during a lockout and changes nothing the log can tell |
| `RateLimiter.FailKeeps` | cpp-backend/include/utils/rate_limiter.h:49-66 | a failure keeps entry and log in step, deque shorter than the maximum |
| `RateLimiter.IdleIsForgotten` | cpp-backend/include/utils/rate_limiter.h:107-123 | an idle entry represents the same log as no entry |
| `RateLimiter.EvictedExactly` | cpp-backend/include/utils/rate_limiter.h:107-123 | an eviction runs after 600 s or at 1000 keys and forgets exactly the keys with no lockout running and no failure in the last 24 h |
| `RateLimiter.SuccessUnlocks` | cpp-backend/include/utils/rate_limiter.h:69-72 | after a success the next check of the key is allowed, whatever the state |
| `RateLimiter.StepRefines` | cpp-backend/include/utils/rate_limiter.h:28-123 | one call with eviction and pruning keeps all keys in step with their logs and answers as the log does |
| `RateLimiter.RefinesPlainLog` | cpp-backend/include/utils/rate_limiter.h:28-123 | for every sequence of calls on a monotone clock the limiter answers exactly as the plain logs do |
| `RateLimiter.EvictionUnobservableIff` | cpp-backend/include/utils/rate_limiter.h:107-123 | eviction can never be noticed if and only if the window is at most 24 h, or one failure locks, or the lockout is empty |
| `RateLimiter.EvictionBetrayed` | cpp-backend/include/utils/rate_limiter.h:107-123 | otherwise a concrete sequence of calls gets a different answer with eviction |
| `RateLimiter.WindowBound` | cpp-backend/include/utils/rate_limiter.h:49-66 | if no failure falls in a lockout, every closed interval of length window has at most max_failures failures |
| `RateLimiter.WindowBoundedIff` | cpp-backend/include/utils/rate_limiter.h:49-66 | that bound holds for all logs if and only if the lockout is longer than the window |
| `RateLimiter.FailuresBoundedPerWindow` | cpp-backend/include/utils/rate_limiter.h:28-123 | the bound end to end, for failures that each follow their own allowed check, with pruning and eviction at work |
| `RateLimiter.LoginSettingsBound` | cpp-backend/include/utils/rate_limiter.h:76-87 | at most 5 failures a minute per address and 10 per five minutes and account |
| `RateLimiter.CheckAfterFailures` | cpp-backend/include/utils/rate_limiter.h:28-66 | after failures that fall in one window a check is refused exactly if there were as many as allowed and the lockout is not over |
| `RateLimiter.AddressLockout` | cpp-backend/include/utils/rate_limiter.h:76-87 | the fifth failure of an address within 60 s locks it for exactly 300 s |
| `RateLimiter.AccountLockout` | cpp-backend/include/utils/rate_limiter.h:76-87 | the tenth failure of an account within 300 s locks it for exactly 900 s |
| `Attendance.HmRoundTrip` | cpp-backend/src/api/attendance_controller.cpp:173-188 | valid texts and the minutes of a day correspond one to one |
| `Attendance.ShiftDayTiles` | cpp-backend/src/api/attendance_controller.cpp:208-229 | a day's bucket is a half-open 24-hour interval from midnight, or from the off-duty midpoint for overnight shifts, so the buckets tile time |
| `Attendance.ShiftDateIsMidnight` | cpp-backend/src/api/attendance_controller.cpp:208-229 | the bucket's name is a local midnight |
| `Attendance.CountedAtMostOnce` | cpp-backend/src/api/attendance_controller.cpp:320-444 | a punch is counted on at most one day |
| `Attendance.UncountedExactly` | cpp-backend/src/api/attendance_controller.cpp:320-444 | the punches counted on no day are exactly those of overnight shifts from 36 h after the shift date up to its bucket's end |
| `Attendance.EveryPunchCountedIff` | cpp-backend/src/api/attendance_controller.cpp:325-329 | every punch is counted if and only if the shift is not overnight or its midpoint is at most 12:00 |
| `Attendance.MinutesAreMonotone` | cpp-backend/src/api/attendance_controller.cpp:238-276 | late and overtime minutes never fall when the punch is later |
| `Attendance.LateMeaning` | cpp-backend/src/api/attendance_controller.cpp:238-246 | late exactly from one minute past the grace, by whole minutes rounded down |
| `Attendance.OvertimePositiveIff` | cpp-backend/src/api/attendance_controller.cpp:259-276 | overtime is positive exactly from end of shift plus grace plus minimum on |
| `Attendance.OvertimeMeaning` | cpp-backend/src/api/attendance_controller.cpp:259-276 | overtime counts the whole minutes past shift end and grace, cut at a positive maximum |
| `Attendance.OvernightOvertimeBound` | cpp-backend/src/api/attendance_controller.cpp:259-276 | overnight overtime is at most (start - end) / 2 - 1 - grace, and 719 - end - grace within the window, whatever the configured maximum |
| `Attendance.OvernightOvertimeBoundReached` | cpp-backend/src/api/attendance_controller.cpp:259-276 | the smaller of the two bounds is attained by a counted punch |
| `AttendanceRollup.QueryDay` | cpp-backend/src/api/attendance_controller.cpp:385-444 | the loop's map has one entry per non-empty group, which is the fold of exactly that group |
| `AttendanceRollup.AggMeaning` | cpp-backend/src/api/attendance_controller.cpp:410-444 | an entry's count, earliest and latest punch are those of its group, its shift that of the last row |
| `AttendanceRollup.AggIdentity` | cpp-backend/src/api/attendance_controller.cpp:410-444 | code, name and department are the first non-empty ones of the group |
| `AttendanceRollup.WindowCount` | cpp-backend/src/api/attendance_controller.cpp:327-329 | the window keeps each row from 12 h before to 36 h after midnight as often as it occurs, and no other |
| `AttendanceRollup.GroupCount` | cpp-backend/src/api/attendance_controller.cpp:385-410 | a group keeps each of its members as often as it occurs |
| `AttendanceRollup.EachRowInOneGroup` | cpp-backend/src/api/attendance_controller.cpp:385-444 | a counted row lands in the group of its own key, once per occurrence, and in no other |
| `AttendanceRollup.RowOnOneDay` | cpp-backend/src/api/attendance_controller.cpp:320-444 | over all days a row is counted at most once, and on some day exactly when it is before the 36th hour of its shift date |
| `AttendanceRollup.CountedIff` | cpp-backend/src/api/attendance_controller.cpp:208-229 | a row counts for a day if and only if it is in that calendar day or, with a valid overnight shift, between the off-duty midpoints of that day and the next and in the first 36 h |
| `AttendanceRollup.SameEntryIff` | cpp-backend/src/api/attendance_controller.cpp:421-422 | two rows counted on a day share an entry if and only if person and employee agree |
| `AttendanceRollup.ReportIsExtreme` | cpp-backend/src/api/attendance_controller.cpp:446-498 | the report has late minutes, its two lateness flags and overtime exactly when the data allow, from the earliest and the latest punch |
| `AttendanceRollup.ReportedOvertimeIsGreatest` | cpp-backend/src/api/attendance_controller.cpp:477-498 | the reported overtime is the greatest over the group's punches |
| `AttendanceRollup.SinglePunchCanEarnOvertime` | cpp-backend/src/api/attendance_controller.cpp:484-498 | one punch at 20:00 of an 08:00 to 17:00 shift earns 180 minutes |
| `AttendanceRollup.SinglePunchOvertimeIff` | cpp-backend/src/api/attendance_controller.cpp:484-498 | a report of one punch shows no overtime if and only if the punch is before shift end plus grace plus minimum |
| `CameraCache.StepKeepsInv` | cpp-backend/src/api/camera_controller.cpp:56-67 | every atomic access of requests and mutators keeps what is known about body, version and deadline |
| `CameraCache.FusedCacheIsFresh` | cpp-backend/src/api/camera_controller.cpp:281-292 | with check and store as one step the cached list is the current one unless a mutator is between its write and its clear |
| `CameraCache.VersionCountsBumps` | cpp-backend/src/api/camera_controller.cpp:56-57 | the version counter has counted the bumps, so its values order a check and a bump |
| `CameraCache.OvertakenFillStoresNothing` | cpp-backend/src/api/camera_controller.cpp:265-286 | a fill with a bump between its version load and its check stores nothing, however it goes on |
| `CameraCache.ZeroedDeadlineServesNobody` | cpp-backend/src/api/camera_controller.cpp:56-60 | from the zeroing of the deadline on, no request becomes served until a fill stores a new one |
| `CameraCache.FreshListIsServed` | cpp-backend/src/api/camera_controller.cpp:243-259 | with a body and a deadline ahead, an undisturbed request is served that body |
| `CameraCache.StaleOnlyFromFillCheckedBeforeBump` | cpp-backend/src/api/camera_controller.cpp:281-292 | otherwise a stale list comes from a fill that made its version check before the latest bump |
| `CameraCache.NeverStaleIff` | cpp-backend/src/api/camera_controller.cpp:56-67 | once every invalidation has ended, no continuation without a write caches a stale list if and only if the cached list and those of all fills past their check are current |
| `CameraCache.AtomicLoadIsYoung` | cpp-backend/src/api/camera_controller.cpp:243-259 | outside a store, a passed deadline means the list is less than 1000 ms old |
| `CameraCache.UndisturbedServeIsYoung` | cpp-backend/src/api/camera_controller.cpp:243-259 | a request during whose two loads nothing was stored serves a list less than 1000 ms old |
| `CameraCache.OldServeOnlyByLaterDeadline` | cpp-backend/src/api/camera_controller.cpp:243-259 | an older list is served only when the deadline read belongs to a later fill than the body read |
| `CameraCache.ServedOldIff` | cpp-backend/src/api/camera_controller.cpp:243-259 | a request that has loaded a body can still be served it at 1000 ms or more if and only if the body has that age at the request's clock reading |
| `CameraCache.StaleListServed` | cpp-backend/src/api/camera_controller.cpp:243-292 | after an invalidation has ended, and with no further write, a request that begins only then is served the old list |
| `CameraCache.OldListServed` | cpp-backend/src/api/camera_controller.cpp:243-292 | for every age from 1000 ms on, a run that serves a list of that age |
| `CameraDiscovery.PortsToTry` | cpp-backend/include/core/camera_discovery.hpp:64-67 | the configured port first, then 80, 8000, 8080, 8899 and 443 without it, each once |
| `CameraDiscovery.StepKeepsInv` | cpp-backend/include/core/camera_discovery.hpp:51-119 | every atomic access keeps mutual exclusion, the winner, the counter and what main has read |
| `CameraDiscovery.ActiveIsUnfinished` | cpp-backend/include/core/camera_discovery.hpp:94-101 | the counter is the number of threads that have not finished |
| `CameraDiscovery.AtMostOneWinner` | cpp-backend/include/core/camera_discovery.hpp:78-92 | one winner at most, with a successful probe, never replaced, and at most one success callback |
| `CameraDiscovery.EveryOutcomeIsReported` | cpp-backend/include/core/camera_discovery.hpp:90-101 | while the callback is valid: one failure call per thread with a brand that has given up, as long as nothing is found, and exactly one success call once the winner has ended |
| `CameraDiscovery.NoCallStartsAfterPolling` | cpp-backend/include/core/camera_discovery.hpp:114-115 | no callback starts after main has stopped polling |
| `CameraDiscovery.PollingEndsIff` | cpp-backend/include/core/camera_discovery.hpp:105-112 | main stops polling if and only if it sees no active thread, sees `found`, or times out |
| `CameraDiscovery.PublishedPairIsWinners` | cpp-backend/include/core/camera_discovery.hpp:78-92 | found with a free mutex means brand and port are the winner's probed pair |
| `CameraDiscovery.UsedPairIff` | cpp-backend/include/core/camera_discovery.hpp:117-119 | main uses the winner's brand (port) if and only if it did not read before that store, or the two agree anyway |
| `CameraDiscovery.ZeroThreadsMeansAllFailed` | cpp-backend/include/core/camera_discovery.hpp:105-119 | leaving with zero threads and not found means every probe of every brand and port failed |
| `CameraDiscovery.UnknownBrandUsed` | cpp-backend/include/core/camera_discovery.hpp:82-119 | for every implemented brand and every port, a run that finds it there and goes on with no brand |
| `CameraDiscovery.WrongPortUsed` | cpp-backend/include/core/camera_discovery.hpp:82-119 | for every implemented brand and every port other than the configured one, a run that finds it there and goes on with the brand and another port |
| `CameraDiscovery.BrandCanGetLostIff` | cpp-backend/include/core/camera_discovery.hpp:82-119 | some run goes on without the winner's brand if and only if there is an implemented brand and a port |
| `CameraDiscovery.PortCanBeWrongIff` | cpp-backend/include/core/camera_discovery.hpp:82-119 | some run goes on with the winner's brand and another port if and only if, besides, some port is not the configured one |
| `Base64.AlphabetLetters` | cpp-backend/include/utils/api_utils.h:406-409 | decoding a letter of the alphabet gives its index |
| `Base64.Encode` | cpp-backend/include/utils/api_utils.h:406-430 | the loop computes the encoding of section 4 of RFC 4648 |
| `Base64.GroupIsBigEndian` | cpp-backend/include/utils/api_utils.h:415-427 | four characters carry three bytes as one number, most significant first |
| `Base64.ThreeByteVectors` | cpp-backend/include/utils/api_utils.h:406-430 | the test vectors of section 10 of RFC 4648 for three bytes |
| `Base64.TwoByteVector` | cpp-backend/include/utils/api_utils.h:406-430 | the test vector for two bytes, with its padding |
| `Base64.OneByteVector` | cpp-backend/include/utils/api_utils.h:406-430 | the test vector for one byte, with its padding |
| `Base64.Decode` | cpp-backend/include/utils/api_utils.h:432-451 | the loop on a wrapping 32-bit word computes the decoding on exact numbers |
| `Base64.WrapKeepsLowBits` | cpp-backend/include/utils/api_utils.h:441-448 | wrapping keeps the low bits the loop will read |
| `Base64.WrapIs32Bit` | cpp-backend/include/utils/api_utils.h:437-443 | the word is a signed 32-bit one, congruent to the exact number modulo 2^32 |
| `Base64.ShiftIn` | cpp-backend/include/utils/api_utils.h:441-448 | only the low bits of the word matter when a character is shifted in |
| `Base64.DecodeEncode` | cpp-backend/include/utils/api_utils.h:406-451 | decoding the encoding of any bytes gives the bytes |
| `Base64.SpaceIsIgnored` | cpp-backend/include/utils/api_utils.h:438-440 | whitespace anywhere changes nothing |
| `Base64.SpacesAre` | cpp-backend/include/utils/api_utils.h:440-440 | the whitespace characters are those with the codes 9 to 13 and 32 |
| `Base64.DecodeEncodeWithSpace` | cpp-backend/include/utils/api_utils.h:406-451 | the round trip with whitespace inserted anywhere |
| `Base64.EncodeDecode` | cpp-backend/include/utils/api_utils.h:406-451 | encoding what a canonical text decodes to gives the text (section 3.5 of RFC 4648) |
| `Base64.CanonicalIffEncoded` | cpp-backend/include/utils/api_utils.h:406-430 | the canonical texts are exactly the encodings |
| `Base64.DecodeErrors` | cpp-backend/include/utils/api_utils.h:432-451 | decoding fails exactly when a foreign character comes before any padding sign |
| `Base64.DecodeFailsIff` | cpp-backend/include/utils/api_utils.h:432-451 | and then it reports the first such character |
| `Csv.EscapeField` | cpp-backend/include/utils/csv_writer.h:27-59 | the loop computes the escaped field |
| `Csv.ReadEscaped` | cpp-backend/include/utils/csv_writer.h:27-59 | a reader that follows section 2 of RFC 4180 reads an escaped field as the guarded field |
| `Csv.ParsePrint` | cpp-backend/include/utils/csv_writer.h:27-59 | for every table, printing and parsing give back exactly the guarded fields in their rows and columns |
| `Csv.FieldReadsBack` | cpp-backend/include/utils/csv_writer.h:19-59 | each field reads back with a quote character in front if it starts with one of the six triggers = + - @ tab CR, else unchanged; so none starts with a trigger |
| `Csv.EscapedUnchangedIff` | cpp-backend/include/utils/csv_writer.h:22-24 | a field goes out unchanged if and only if it has no trigger in front and no quote, comma, LF or CR |
| `Csv.GuardCollision` | cpp-backend/include/utils/csv_writer.h:33-42 | two fields read back equal if and only if they are equal or one is the other with the guard in front |
| `FilterGraph.BuildCommand` | cpp-backend/src/api/export_controller.cpp:114-163 | no masks means no graph; otherwise effects, then overlays |
| `FilterGraph.EmitEffects` | cpp-backend/src/api/export_controller.cpp:125-143 | the first loop emits one crop chain per known mask |
| `FilterGraph.EmitOverlays` | cpp-backend/src/api/export_controller.cpp:145-155 | the second loop emits one overlay per mask, chained by temporary labels |
| `FilterGraph.OverlayLabels` | cpp-backend/src/api/export_controller.cpp:145-155 | overlay i looks for a blur label exactly when mask i is a blur, else for a pixelate label |
| `FilterGraph.EffectMeaning` | cpp-backend/src/api/export_controller.cpp:125-143 | the emitted filters give the mask's rectangle, blurred by its strength, or shrunk by its strength if that is at least 1, else by 1, and scaled back |
| `FilterGraph.ReadEffectChain` | cpp-backend/src/api/export_controller.cpp:125-143 | an emitted crop chain parses to its inputs, filters and label |
| `FilterGraph.ReadOverlayChain` | cpp-backend/src/api/export_controller.cpp:145-155 | an emitted overlay parses to its two inputs and its output |
| `FilterGraph.RunEffects` | cpp-backend/src/api/export_controller.cpp:125-143 | running the crop chains defines exactly the labels of the known masks, with their effects |
| `FilterGraph.RunOverlays` | cpp-backend/src/api/export_controller.cpp:145-155 | running the overlays uses each label once, left to right |
| `FilterGraph.GraphMeansMasks` | cpp-backend/src/api/export_controller.cpp:114-163 | the graph is well formed if and only if every mask is blur or pixelate, and then it computes what the masks ask for, each from the original frame, overlaid in list order |
| `LockMonitor.StepKeepsMax` | cpp-backend/include/core/lock_monitor.h:65-74 | every step, spurious failures included, keeps the maximum register's invariant and never lowers it |
| `LockMonitor.SpuriousFailureRetries` | cpp-backend/include/core/lock_monitor.h:65-74 | a spurious failure reloads the register and changes nothing else |
| `LockMonitor.StepKeepsCounts` | cpp-backend/include/core/lock_monitor.h:84-135 | the counters are the sums of what each guard has contributed so far |
| `LockMonitor.StatsAreConsistent` | cpp-backend/include/core/lock_monitor.h:84-135 | in every state contended is at most acquisitions and the longest wait at most the total wait |
| `LockMonitor.MaxRegister` | cpp-backend/include/core/lock_monitor.h:65-74 | the register is its initial value or some candidate, at least every completed candidate, and never falls |
| `LockMonitor.ExactWhenQuiet` | cpp-backend/include/core/lock_monitor.h:65-135 | once all guards are done the counters and the maximum are exact |
| `LockMonitor.SnapshotCanDisagree` | cpp-backend/include/core/lock_monitor.h:47-61 | a snapshot that loads the counters as the code does can show more contended than total acquisitions |
| `LockMonitor.CountsAgreeIff` | cpp-backend/include/core/lock_monitor.h:47-61 | all snapshots show contended at most acquisitions if and only if contended is loaded first |
| `LockMonitor.WaitsAgreeIff` | cpp-backend/include/core/lock_monitor.h:47-61 | all snapshots show the longest wait at most the total if and only if the longest is loaded first |
| `ThrottledLog.StepKeepsInv` | cpp-backend/include/utils/logger.h:71-96 | every atomic access keeps the spacing and the count of suppressed calls |
| `ThrottledLog.EmissionsAreSpaced` | cpp-backend/include/utils/logger.h:71-96 | emissions i and j carry timestamps at least (j - i) intervals apart |
| `ThrottledLog.SuppressionsAreJustified` | cpp-backend/include/utils/logger.h:78-95 | a suppressed call read the clock within an interval of the emission it saw, or another call emitted between its load and its comparison |
| `ThrottledLog.UndisturbedCallEmits` | cpp-backend/include/utils/logger.h:78-89 | a call that finds the interval passed and is not overtaken emits, and takes the count |
| `ThrottledLog.SuppressedAreReported` | cpp-backend/include/utils/logger.h:71-96 | the calls counted as suppressed are those that emissions have taken plus the current counter |
| `ThrottledLog.EveryCallAccountedFor` | cpp-backend/include/utils/logger.h:71-96 | when all calls have ended each was emitted, reported as suppressed, or still is in the counter |
| `Ppe.Collect` | cpp-backend/src/ai_worker/main.cpp:1202-1223 | the else-if cascade sorts detections into persons and five kinds of items, in order |
| `Ppe.RoleMeaning` | cpp-backend/src/ai_worker/main.cpp:1208-1222 | which role a class id has: the first enabled one that claims it, persons first, then helmet, vest, gloves, mask, boots |
| `Ppe.PushRaw` | cpp-backend/src/ai_worker/main.cpp:1226-1246 | every detection with a class joins the tracked objects under a class id from 300 on |
| `Ppe.RawObjects` | cpp-backend/src/ai_worker/main.cpp:1226-1246 | the raw objects are exactly the detections with a class, with class id 300 + class, their label and no track id |
| `Ppe.IntersectionFits` | cpp-backend/src/ai_worker/main.cpp:1267-1279 | of overlapping boxes the intersection is positive and no larger than either area, so IoU is in (0, 1] |
| `Ppe.IntersectionMeaning` | cpp-backend/src/ai_worker/main.cpp:1332-1337 | the shared rectangle of two boxes, and when there is one |
| `Ppe.IouMeaning` | cpp-backend/src/ai_worker/main.cpp:1337-1343 | IoU times what both boxes cover together is what they share; it is symmetric |
| `Ppe.AreaMeaning` | cpp-backend/src/ai_worker/main.cpp:1276-1277 | an area counts as at least 1 |
| `Ppe.AnyContained` | cpp-backend/src/ai_worker/main.cpp:1291-1297 | the loop with early exit answers whether some item is contained |
| `Ppe.Worn` | cpp-backend/src/ai_worker/main.cpp:1288-1297 | the five flags, each with its own threshold, are the set of items worn |
| `Ppe.WornIff` | cpp-backend/src/ai_worker/main.cpp:1267-1297 | an item is worn if and only if a detection of its class has at least 0.5 (gloves 0.3, mask 0.4) of its own area inside the person's box |
| `Ppe.WhollyInsideIsWorn` | cpp-backend/src/ai_worker/main.cpp:1267-1279 | an item of area 1 or more wholly inside the person's box is worn, however large the person is |
| `Ppe.Adopt` | cpp-backend/src/ai_worker/main.cpp:1325-1349 | the scan computes the best candidate |
| `Ppe.AdoptedIsMaximal` | cpp-backend/src/ai_worker/main.cpp:1325-1349 | the adopted id is that of the first tracked person of maximal IoU above 0.40, or -1 exactly when there is none |
| `Ppe.AdoptionMeaning` | cpp-backend/src/ai_worker/main.cpp:1325-1349 | no id exactly when no object of class 0 with an id overlaps by more than 0.40; otherwise that of one that overlaps most |
| `Ppe.OthersDoNotMatter` | cpp-backend/src/ai_worker/main.cpp:1325-1349 | appended raw detections and violations never alter a match |
| `Ppe.Judge` | cpp-backend/src/ai_worker/main.cpp:1298-1308 | compliant exactly when no enabled check is missed, and the violations emitted |
| `Ppe.ViolatingIffEmitted` | cpp-backend/src/ai_worker/main.cpp:1298-1380 | violating if and only if something is emitted; a kind is emitted exactly when enabled and missed, with the person's box and the adopted id |
| `Ppe.ViolationKinds` | cpp-backend/src/ai_worker/main.cpp:1375-1379 | class ids 406 to 410 and their labels stand for helmet, vest, gloves, mask and boots, each emitted exactly when enabled and not worn |
| `Ppe.PairPerson` | cpp-backend/src/ai_worker/main.cpp:1288-1380 | one person's verdict and violations do not depend on what earlier persons appended |
| `Ppe.PairFrame` | cpp-backend/src/ai_worker/main.cpp:1202-1380 | compliant plus violating is the number of persons; the objects afterwards are the given ones, the raw ones and the violations in order |
| `Ppe.OrderDoesNotMatter` | cpp-backend/src/ai_worker/main.cpp:1202-1380 | reordering the detections changes neither count, and emits the same violations as a multiset |
| `Ppe.CompliancePossibleIff` | cpp-backend/src/ai_worker/main.cpp:1208-1222 | anybody can be compliant if and only if persons are detected and no enabled item's class id belongs to a role tried before it |

## Left out

- REST routes, permissions, JSON and SQL: the attendance table is a sequence of punches, and file times, probe results, flush results and process results are inputs or nondeterministic outcomes.
- Liveness: condition variables, timeouts and fairness are not modelled; nothing says that `stop` or `shutdown` returns, only what holds when they have.
- Machine integers of counters, queue sizes and times: unbounded, except for the decoder's 32-bit word in `Base64.Decode`. `hmToMinutes` and the minute arithmetic truncate as the code does.
- `BulkWriter`: a flush that returns false or throws is taken to commit nothing, and one that returns false to leave its batch intact; `start` and `stop` are called by one owner thread; `max_queue` is at least 1, because the code pops an empty queue otherwise.
- `JobRunner`: concurrent calls of `shutdown`, the `stats` snapshot and an exception thrown by a job (which the worker catches) are not modelled; a job is a value.
- `ExportJobs`: job ids, 128 random bits, are taken never to repeat. `Escape` stands for any exception that leaves `processExportJob`.
- `RateLimiter`: its mutex makes each call one step, so calls are a sequence; `getTrackedEntriesCount` only reads a size. The refinement takes the same limits for the same key throughout, as the login endpoint does.
- `Attendance`: local time is a fixed offset with 86400-second days; daylight-saving changes belong to the C library. The holiday lookup is a parameter.
- `AttendanceRollup`: the fallback query for older rows and the output formatting.
- `CameraCache`: the public and the admin slot follow the same protocol, so there is one slot; the body of a response is its list. Memory orders weaker than sequential consistency are not modelled.
- `CameraDiscovery`: what `discover` returns for the chosen brand, and the validity flag's race with the failure callback: a callback after main has left is allowed.
- `FilterGraph`: numbers inside the command are values, not text; quoting of file names is not modelled.
- `Ppe`: coordinates are reals, so rounding at the thresholds is not modelled; the JSON copy of each object is left out.
- Components whose implementation is not in the repository, such as the tracker, the rule engine and the pipeline store, are not part of this model.
- Digests, password hashing, tokens and configuration tables: library calls and data without deep properties.
