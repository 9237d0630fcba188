# Verified models of the PBN generator

The project models the parts of the PBN generator (Go) and of its web client (TypeScript) in which an error would be
silent: which schedules fire and what they enqueue, the pool of SSH connections, printers and parsers that must undo
each other, the login limits and sessions, a job that several workers finish together, the file tree and the client's
request cache. Each module proves properties of whole runs or of all inputs, not of single calls.

- `Text`, `Sequences`, `Sorting`: strings, filtering, counting and the stable sort.
- `Recurrence`: when a daily, weekly, interval, cron or immediate schedule fires and what it announces as its next run.
  Times are nanoseconds in a zone of fixed offset; a cron expression is the set of its minutes.
- `GenerationQueue`, `GenerationRuns`: a firing schedule fills the queue; the queue is drained into generations, failed
  generations are retried, workers finish them. The tables are sequences that the scheduler's methods update.
- `Redelivery`: runs of the same, one store access after the other, with a task queue that delivers the task of a failed
  handler again.
- `LinkScheduler`, `LinkDeliveries`: a link schedule fails, re-arms and creates link tasks; dispatcher, task queue and
  workers deal with them.
- `SshPool`, `SshPoolRuns`, `WithSsh`: one bucket as a class over an array, the pool as a system of its lock-protected
  steps, and any number of concurrent `withSSH` calls on it.
- `Csv`: the Go writer and the TypeScript reader of section 2 of RFC 4180.
- `JsonBlock`: the bracket scanner against the grammar of RFC 8259, with white space and escapes as written.
- `ShellQuote`: quoting against the token rules of POSIX.1-2017, XCU sections 2.2.1, 2.2.2 and 2.3.
- `RelativePath`: Go's `path.Clean` on components, normalisation, resolution and its inverse.
- `RateLimiter`, `Lockout`, `Sessions`: the sliding window, the lockout after failures, the life of sessions and tokens.
- `ImportJob`: N handlers and one job row. `FileTree`: the trie of nodes on the heap. `FetchCache`: the cache of requests.

Stores are maps or sequences whose operations succeed and are atomic. Where an operation can refuse (the task queue, a
dial, a re-read of the job row) the refusal is a step or an argument of the model.

## What turned out false, and when it is true

- The announced next run is not the first later firing for a clock out of range, an interval that is no whole number of
  minutes, or a cron expression without a match ahead, which fires at every tick: `NextRunCorrect` has the exact
  condition. An edited clock can make one announcement wrong: `PlanNextAfterEdit`.
- A domain can have two active link tasks. No write of a status looks at the status it replaces, so that a second
  delivery makes a finished task active again (`LateDeliveryDoubles`), and a run that asks for one status after the
  other can miss a task (`MissedTaskDoubles`). One active task per domain holds exactly without such steps:
  `OneActiveOverRuns`.
- A task that fails is delivered again although its generation will not be retried, and a delivery takes up a
  generation in error without asking for a newer one of its domain: two handlers can then work for one domain
  (`TwoAtOnce`). One generation per domain holds exactly without that: `OneOccupantExactly`.
- A retry that the task queue refuses strands its generation exactly when no earlier delivery of its task is due or
  under way: no step, in any run, then ends it or gives its domain another one (`RefusedRetryStrands`,
  `StrandedForGood`, `StrandedBlocksDomain`).
- A password change does not reach a login under way: if the session is created after the change, it lives, though it
  was opened with the old password (`LoginAcrossChange`). Exactly the sessions created before are gone:
  `RevocationIsFinal`, `AcceptedIsLater`. A refresh under way can sign one more access token: `RefreshAcrossChange`.
- A call that waits for a client when the pool is closed is not told so. Without a cancellation it seeks for ever, and
  exactly a cancellation ends it: `SeekingUntilCancelled`.
- A CSV field with a carriage return and nothing that makes it be quoted loses the return, and an empty row comes back
  as a row of one empty field: `CsvRoundTrip`. Keyword, country, language and domain are written without quotes, so
  that a file with a page does not come back if one of them has a comma, quote or line break: `BuildCsvRoundTrip`.
- `.` comes out of `relativeToRoot` but is no acceptable path (`DotIsRefused`); white space can make a second
  normalisation differ (`NormalizeTwice`); a published path that goes up or nowhere makes a root below which nothing
  resolves (`ResolvesExactlyBelowGoodRoots`).
- The lockout bound holds for half-open windows only: `ClosedWindowHoldsOneMore`.
- Retried import tasks count again, so that a job can finish early: `NeverEarlyExactly`.
- The file tree depends on the order of the entries if the collation ties two names: `OrderIndependentExactly`.
- An invalidation does not reach a request that is under way: `NeverStaleExactly`. Bypassing or invalidating during a
  request duplicates it: `TidyExactly`.

## Model

| member | source | states |
|---|---|---|
| Recurrence.NextMatch | pbn-generator/cmd/scheduler/main.go:1223-1234 | the result is the first matching minute after the given one, and `None` means that no minute of the horizon matches |
| Recurrence.WeekdayMeaning | pbn-generator/cmd/scheduler/main.go:1276-1298 | each short or long name, in any case and white space, means its day whatever the number; without a name 1 to 6 mean Monday to Saturday, 7 Sunday, and nothing else a day |
| Recurrence.CalendarDecision | pbn-generator/cmd/scheduler/main.go:1183-1211 | on a daily or weekly rule the code decides as calendar arithmetic over days and ISO weeks does |
| Recurrence.OpeningAhead | pbn-generator/cmd/scheduler/main.go:1244-1255 | up to its own weekday a rule points at that day of this week, afterwards at the next period's |
| Recurrence.OpenMeansDue | pbn-generator/cmd/scheduler/main.go:1236-1255 | with a clock inside the day a rule is open exactly on its weekday at or after its time |
| Recurrence.PlanNextAfterEdit | pbn-generator/cmd/scheduler/main.go:1183-1211 | for a sensible clock the announced next run is the first later due tick in every case but one, which only an edited clock can bring about |
| Recurrence.PlanMistimed | pbn-generator/cmd/scheduler/main.go:1183-1211 | for every other clock there is a tick at which the announced next run is wrong, although the rule never ran |
| Recurrence.CronDue | pbn-generator/cmd/scheduler/main.go:1223-1234 | a cron rule is due at a tick exactly when the minute matches, or when no match is in sight at all |
| Recurrence.CronNextIsFirst | pbn-generator/cmd/scheduler/main.go:1223-1234 | with a match in sight the announced cron run is the first later tick that is due |
| Recurrence.DryCronFiresAlways | pbn-generator/cmd/scheduler/main.go:1223-1234 | an expression that never matches is due at every tick |
| Recurrence.NextRunWhenWellTimed | pbn-generator/cmd/scheduler/main.go:1162-1221 | a well-timed repeating rule announces its first later due tick, at every tick and after every earlier firing |
| Recurrence.NextRunWhenMistimed | pbn-generator/cmd/scheduler/main.go:1162-1221 | a rule that is not well timed has a tick at which it announces something else |
| Recurrence.NextRunCorrect | pbn-generator/cmd/scheduler/main.go:1162-1221 | the announced next run is the first later firing for all ticks and states exactly when the rule is well timed, a condition on its configuration |
| Recurrence.LastRunIsLatest | pbn-generator/cmd/scheduler/main.go:208-279 | over a run of ticks `last_run_at` is the latest tick that fired, or the initial value |
| Recurrence.CalendarFires | pbn-generator/cmd/scheduler/main.go:1183-1211 | over any strictly increasing ticks, gaps included, a daily or weekly rule fires exactly at the first open tick of each day or ISO week in which it had not run |
| Recurrence.CalendarFiresOnce | pbn-generator/cmd/scheduler/main.go:1183-1211 | each day or ISO week with an open tick sees exactly one firing |
| Recurrence.OverlongClockNeverFires | pbn-generator/cmd/scheduler/main.go:1236-1242 | a clock of 24:00 or later never fires |
| Recurrence.IntervalFires | pbn-generator/cmd/scheduler/main.go:1172-1181 | a rule with an interval, of any strategy but the immediate and the unset one, fires at a tick exactly when a whole interval has passed since every earlier firing |
| Recurrence.ImmediateFiresOnce | pbn-generator/cmd/scheduler/main.go:1168-1170 | an immediate rule fires once in its life, at the first tick |
| SshPool.SshPoolBucket.PruneIdleLocked | pbn-generator/internal/domainfs/ssh_pool.go:273-290 | compacts the idle slice in place to the unexpired clients in order, closes the others and lowers the counter by one each |
| SshPool.SshPoolBucket.TryAcquireIdle | pbn-generator/internal/domainfs/ssh_pool.go:190-203 | prunes, then turns the client released last into a lease, or answers none |
| SshPool.SshPoolBucket.TryReserveOpen | pbn-generator/internal/domainfs/ssh_pool.go:205-216 | counts one more connection exactly when the bucket is open and below its limit |
| SshPool.SshPoolBucket.ReleaseReservedOpen | pbn-generator/internal/domainfs/ssh_pool.go:218-225 | gives a reservation back |
| SshPool.SshPoolBucket.Release | pbn-generator/internal/domainfs/ssh_pool.go:241-271 | ends the lease; the client goes to the idle list unless it is broken, the pool or bucket is closed or the list is full, and is closed otherwise |
| SshPool.SshPoolBucket.CloseBucket | pbn-generator/internal/domainfs/ssh_pool.go:143-168 | marks the bucket closed, closes every idle client and counts it out |
| SshPool.PruneKeepsInv | pbn-generator/internal/domainfs/ssh_pool.go:273-290 | pruning keeps the bucket's invariant, and the counter drops by exactly the number of expired clients |
| SshPool.AcquireIdleKeepsInv | pbn-generator/internal/domainfs/ssh_pool.go:190-203 | taking an idle client keeps counter, limits and the one-place rule |
| SshPool.FinishKeepsInv | pbn-generator/internal/domainfs/ssh_pool.go:241-271 | so does the end of a lease, by release or discard, however the pool stands |
| SshPool.CloseBucketKeepsInv | pbn-generator/internal/domainfs/ssh_pool.go:143-168 | so does closing the bucket while leases and dials are out |
| SshPoolRuns.StepKeepsInv | pbn-generator/internal/domainfs/ssh_pool.go:88-290 | every lock-protected step of every goroutine keeps the invariant of the whole pool |
| SshPoolRuns.PoolSafety | pbn-generator/internal/domainfs/ssh_pool.go:88-290 | in every reachable state open = idle + leased + dialling, open <= MaxOpen, idle <= MaxIdle, and each client ever dialled is in exactly one of idle, one live lease, closed once |
| SshPoolRuns.CounterNeverClamped | pbn-generator/internal/domainfs/ssh_pool.go:218-225 | every step changes the counter by exactly what it opened and closed, so the guards on `open > 0` never take effect |
| SshPoolRuns.IdleChoiceIsFresh | pbn-generator/internal/domainfs/ssh_pool.go:190-203 | the client handed out is the latest released one that has not expired, and none is handed out only if all have or the bucket is closed |
| SshPoolRuns.ClosedBucketOnlyDrains | pbn-generator/internal/domainfs/ssh_pool.go:143-168 | after `Close` has visited a bucket nothing new is leased or dialled there and what is outstanding never grows |
| SshPoolRuns.ClosedPoolIsDrained | pbn-generator/internal/domainfs/ssh_pool.go:143-168 | once the pool is closed and leases and dials have ended, every bucket is at zero, has no idle client, and closed every client it ever dialled exactly once |
| WithSsh.EventKeepsInv | pbn-generator/internal/domainfs/ssh_backend.go:342-374 | every step of every concurrent `withSSH` call, of entering calls and of `Close` keeps the joint invariant of calls and pool |
| WithSsh.CallFinishesItsLeases | pbn-generator/internal/domainfs/ssh_backend.go:342-374 | a call runs its function at most twice, once per lease, and when it has returned none of its leases is live, on every path |
| WithSsh.FinishedForGood | pbn-generator/internal/domainfs/ssh_pool.go:125-141 | a lease that is finished is finished for the rest of the run |
| WithSsh.SuspectsAreNeverIdle | pbn-generator/internal/domainfs/ssh_backend.go:349-369 | a client on which a function met a connection error is on no idle list ever after |
| WithSsh.ClosedAndQuiet | pbn-generator/internal/domainfs/ssh_backend.go:342-374 | when `Close` has gone through and all calls have returned, every bucket is empty and every client ever dialled was closed exactly once |
| WithSsh.SeekingUntilCancelled | pbn-generator/internal/domainfs/ssh_pool.go:98-122 | once `Close` has visited its bucket, a call in the loop of `Acquire` never gets a client: it goes on seeking exactly until it is cancelled, and never runs its function again |
| GenerationQueue.FilterGenerationDomains | pbn-generator/cmd/scheduler/main.go:518-533 | the loop returns the waiting domains and the others, both in order |
| GenerationQueue.DomainsPartitioned | pbn-generator/cmd/scheduler/main.go:518-537 | eligible and skipped domains are an order-preserving partition of the list, split by the waiting status |
| GenerationQueue.Scheduler.ScanQueue | pbn-generator/cmd/scheduler/main.go:329-347 | finds the domains that have a live item and the number of the schedule's own live items |
| GenerationQueue.Scheduler.EnqueueUpTo | pbn-generator/cmd/scheduler/main.go:358-383 | enqueues exactly min(remaining, unqueued eligible domains) items, in domain order, spaced by `delay_minutes` |
| GenerationQueue.Scheduler.EnqueueScheduleDomains | pbn-generator/cmd/scheduler/main.go:320-384 | enqueues exactly min(max(0, limit - already queued for the schedule), eligible domains not queued) |
| GenerationQueue.Scheduler.SettleQueue | pbn-generator/cmd/scheduler/main.go:240-262 | completes exactly the live items of domains that no longer wait and returns the other live items in order |
| GenerationQueue.Scheduler.Fire | pbn-generator/cmd/scheduler/main.go:234-274 | settling and enqueuing together have the stated effect on the tables |
| GenerationQueue.Scheduler.ApplySchedule | pbn-generator/cmd/scheduler/main.go:190-318 | one schedule at one tick, with its `last_run_at` and `next_run_at` |
| GenerationQueue.Scheduler.ApplySchedulesAt | pbn-generator/cmd/scheduler/main.go:180-318 | all schedules of a tick one after the other, each on the tables that the previous one left |
| GenerationQueue.WaitingById | pbn-generator/cmd/scheduler/main.go:240-262 | looking an item's domain up by id finds the row that decides its eligibility |
| GenerationQueue.ChosenDomains | pbn-generator/cmd/scheduler/main.go:329-382 | the domains that get an item are different waiting domains without a live item |
| GenerationQueue.FiringKeepsOneLive | pbn-generator/cmd/scheduler/main.go:320-384 | a firing schedule never gives a domain a second live item |
| GenerationQueue.QueuedForScheduleIsLiveFor | pbn-generator/cmd/scheduler/main.go:334-347 | what the code counts against the limit is every live item that the schedule has for a waiting domain |
| GenerationQueue.FiringAddsQuota | pbn-generator/cmd/scheduler/main.go:320-384 | a firing adds exactly its quota to the schedule's live items |
| GenerationQueue.FiringSaturates | pbn-generator/cmd/scheduler/main.go:320-384 | afterwards the limit is respected wherever anything was added, and either it is reached or every waiting domain has a live item |
| GenerationRuns.CreateGeneration | pbn-generator/cmd/scheduler/main.go:474-504 | stores the new generation, hands its task over, and undoes as the code does when the task queue refuses |
| GenerationRuns.ProcessQueueItem | pbn-generator/cmd/scheduler/main.go:415-511 | takes exactly the refusals of the code, in its order, and otherwise creates the generation |
| GenerationRuns.BatchIsDue | pbn-generator/internal/store/sqlstore/gen_queue.go:72-93 | a batch holds different due items in order, none of them after a due item that the limit cut off, and is empty only when nothing is due |
| GenerationRuns.BusyAfterItem | pbn-generator/cmd/scheduler/main.go:446-459 | a busy domain gets no generation, and a domain whose task was accepted is busy |
| GenerationRuns.ProcessPendingQueue | pbn-generator/cmd/scheduler/main.go:386-413 | the drain ends whatever the clock does, marks each drained item exactly once, makes at most one accepted generation per domain, and leaves nothing due |
| GenerationRuns.RetryGeneration | pbn-generator/cmd/scheduler/main.go:556-576 | re-arms one generation and hands its task over |
| GenerationRuns.ProcessRetryableGenerations | pbn-generator/cmd/scheduler/main.go:539-578 | re-arms every due generation exactly once, ends, and leaves none due |
| GenerationRuns.AtMostOneOccupant | pbn-generator/cmd/scheduler/main.go:446-459 | the invariant in words: a domain has at most one active or retryable generation, and it is the newest |
| GenerationRuns.ItemKeepsGens | pbn-generator/cmd/scheduler/main.go:415-511 | processing an item keeps that invariant |
| GenerationRuns.RetryKeepsGens | pbn-generator/cmd/scheduler/main.go:539-578 | re-arming keeps it |
| GenerationRuns.WorkerKeepsGens | pbn-generator/cmd/worker/process_generation.go:511-513 | a worker that finishes an active generation keeps it |
| GenerationRuns.EventKeepsInv | pbn-generator/cmd/scheduler/main.go:126-173 | every step of scheduler and workers keeps the invariants of queue and generations |
| GenerationRuns.OnePerDomain | pbn-generator/cmd/scheduler/main.go:126-173 | in every state of every run in which tasks are delivered once a domain has at most one live queue item, and at most one generation that is active or awaits a retry, its newest |
| GenerationRuns.LimitHoldsOverRuns | pbn-generator/cmd/scheduler/main.go:320-384 | a schedule with a constant positive limit and project never has more live items than its limit, in any run |
| GenerationRuns.RunKeepsTasks | pbn-generator/cmd/scheduler/main.go:126-173 | in every run in which tasks are delivered once, each task is one of an active generation |
| GenerationRuns.EventKeepsTasks | pbn-generator/cmd/scheduler/main.go:126-173 | every step keeps each task with an active generation, where a task is delivered once |
| Redelivery.OneOccupantStep | pbn-generator/cmd/worker/process_generation.go:78-92 | a step of scheduler, task queue or handler leaves every domain to its newest generation exactly when it does not collide: none is created for a domain occupied since its check, and no superseded one is re-armed, taken up by a delivery, or written back to work or up for a retry |
| Redelivery.OneOccupantExactly | pbn-generator/cmd/worker/process_generation.go:78-92 | the same for whole runs, redeliveries included, both directions |
| Redelivery.OneLiveOverRuns | pbn-generator/cmd/scheduler/main.go:320-384 | in all these runs a domain has at most one live queue item |
| Redelivery.LimitOverRuns | pbn-generator/cmd/scheduler/main.go:320-384 | and a schedule with a constant positive limit and project never has more live items than its limit |
| Redelivery.TwoAtOnce | pbn-generator/internal/tasks/tasks.go:59 | the failing run, from one waiting domain and empty tables: its generation fails for good, its task is to be delivered again, the schedule gives the domain another one, and two handlers work for it at once |
| Redelivery.StrandedStays | pbn-generator/cmd/scheduler/main.go:539-578 | no step of scheduler, task queue or handler frees a pending generation that is not listed for a retry and whose task is neither due nor under way |
| Redelivery.StrandedForGood | pbn-generator/cmd/scheduler/main.go:539-578 | so it stays that way in every later state of every run |
| Redelivery.StrandedBlocksDomain | pbn-generator/cmd/scheduler/main.go:446-459 | and if it is the newest of its domain, and none is about to be created there, every later queue item of the domain, in every run, is refused |
| Redelivery.RefusedRetryStrands | pbn-generator/cmd/scheduler/main.go:557-575 | in every run, some continuation ends a re-armed generation exactly when the task queue accepted it or an earlier delivery of its task is still due or under way; otherwise it is stranded |
| LinkScheduler.FilterLinkDomains | pbn-generator/cmd/scheduler/main.go:895-945 | returns the eligible domains, and each skipped one with the code's first reason, both in order |
| LinkScheduler.LinkDomainsPartitioned | pbn-generator/cmd/scheduler/main.go:895-945 | the two lists are an order-preserving partition; eligible means published, linkable, with anchor and target, and due |
| LinkScheduler.LinkTaskStore.SettleActive | pbn-generator/cmd/scheduler/main.go:694-725 | fails the tasks of missing and unpublished domains and indexes the surviving ones by domain |
| LinkScheduler.LinkTaskStore.RunDomains | pbn-generator/cmd/scheduler/main.go:727-802 | re-arms or creates, domain by domain, within what the limit leaves |
| LinkScheduler.LinkTaskStore.Run | pbn-generator/cmd/scheduler/main.go:673-802 | the whole run over the task table |
| LinkScheduler.RunEffect | pbn-generator/cmd/scheduler/main.go:673-802 | row by row: fails every active task of a missing or unpublished domain, re-arms the active task of each run domain, leaves all others, and creates exactly min(max(0, limit - active), run domains without an active task), for the first of them |
| LinkScheduler.RunKeepsOneActive | pbn-generator/cmd/scheduler/main.go:673-802 | a run never gives a domain a second active task |
| LinkScheduler.RunOverIsValid | pbn-generator/cmd/scheduler/main.go:673-684 | what a tick chooses to run over are different published domains of the project |
| LinkScheduler.ApplyLinkSchedule | pbn-generator/cmd/scheduler/main.go:619-815 | one link schedule at one tick: the tables after the run over the chosen domains, or untouched, and the schedule's run times |
| LinkDeliveries.OneActiveStep | pbn-generator/internal/worker/link_worker.go:130-141 | a step of schedules, dispatcher, task queue or worker leaves every domain with at most one active task exactly when it doubles none: no write or delivery wakes an inactive task beside an active one of its domain, no run that listed the tasks before creates one beside an active one |
| LinkDeliveries.OneActiveOverRuns | pbn-generator/cmd/scheduler/main.go:588-1070 | the same for whole runs, with any number of deliveries of a task, both directions |
| LinkDeliveries.LateDeliveryDoubles | pbn-generator/cmd/scheduler/main.go:997-1070 | the failing run, from empty tables: a task handed over twice, as after a reset, is ended by its first delivery, the next run creates another one, and the second delivery makes the first task active again |
| LinkDeliveries.ListedExactly | pbn-generator/cmd/scheduler/main.go:967-980 | a run lists a task exactly when it is pending at the first of its queries, searching at the second, or removing at the third |
| LinkDeliveries.MissedTaskDoubles | pbn-generator/cmd/scheduler/main.go:967-980 | so a task that a worker sets back to pending between them is missed, and the task that the run then creates is a second active one of its domain |
| Csv.WriteCsvRow | pbn-generator/internal/analyzer/analyzer.go:590-598 | appends the fields with separators and a newline |
| Csv.BuildCsv | pbn-generator/internal/analyzer/analyzer.go:468-530 | the file is the header, one row per page and, if there is a page, the aggregates, with exactly the fields quoted that the code quotes |
| Csv.ParseCsvRows | frontend/components/ArtifactsViewer.tsx:1025-1076 | the index loop computes the scan defined on the text |
| Csv.ParseWritten | frontend/components/ArtifactsViewer.tsx:1025-1076 | what comes back of any rows whatever, damaged ones included |
| Csv.CsvRoundTrip | pbn-generator/internal/analyzer/analyzer.go:590-625 | writing and reading back restores the rows exactly when no row is empty and every field with a carriage return is one that gets quoted |
| Csv.NewlineIsNeeded | frontend/components/ArtifactsViewer.tsx:1066-1076 | without the final newline the last field is lost, and with it a row of one field |
| Csv.BehindSpoils | frontend/components/ArtifactsViewer.tsx:1034-1064 | a field written bare with a special character in it can never be read back, whatever follows it: the reader lags behind the text and takes the separator too early |
| Csv.MixedRoundTrip | pbn-generator/internal/analyzer/analyzer.go:590-625 | rows of bare and quoted fields come back exactly when no row is empty, every bare field is plain, and every quoted field survives |
| Csv.BuildCsvRoundTrip | pbn-generator/internal/analyzer/analyzer.go:468-530 | the file of an analysis comes back exactly when it has no page, or keyword, country, language and every domain are plain and every quoted text survives |
| JsonBlock.FindJsonEnd | frontend/components/ArtifactsViewer.tsx:965-1000 | the loop over depth, string and escape state computes the scan defined on the text |
| JsonBlock.PassesValue | frontend/components/ArtifactsViewer.tsx:965-1000 | a value inside a bracket is passed over whatever brackets, strings and escapes it holds |
| JsonBlock.FindJsonEndIsExact | frontend/components/ArtifactsViewer.tsx:965-1000 | for every object or array in any white space and escaping, after any prefix and before any suffix, the scan returns its last character |
| JsonBlock.ScanFindsBlock | frontend/components/ArtifactsViewer.tsx:938-963 | if any JSON text begins at a bracket, the piece that the scan delimits is one |
| JsonBlock.ExtractJsonBlock | frontend/components/ArtifactsViewer.tsx:938-963 | finds a block whenever the message has one, and takes the first place that has one |
| JsonBlock.BlockKeepsMessage | frontend/components/ArtifactsViewer.tsx:950-960 | prefix, block and suffix are the message but for trimmed white space |
| JsonBlock.ExtractsTheValue | frontend/components/ArtifactsViewer.tsx:938-1000 | bracket-free text followed by an object or array and any suffix is split into exactly these three |
| ShellQuote.QuotedIsOneWord | pbn-generator/internal/domainfs/ssh_backend.go:609-611 | every string, quoted, lexes to the single word it is, with no active character |
| ShellQuote.QuoteIsInjective | pbn-generator/internal/domainfs/ssh_backend.go:609-611 | different strings have different quoted forms |
| ShellQuote.QuotedInContext | pbn-generator/internal/domainfs/ssh_backend.go:609-611 | between delimiters of any command a quoted string is one word and cannot influence what follows |
| ShellQuote.CommandLexes | pbn-generator/internal/domainfs/ssh_backend.go:196-218 | a command of literal words, operators and quoted arguments lexes to exactly these |
| ShellQuote.WrappingIsTransparent | pbn-generator/internal/domainfs/ssh_backend.go:496 | the second wrapping hands the inner command to bash unchanged, as one argument |
| ShellQuote.MkdirCommandLexes | pbn-generator/internal/domainfs/ssh_backend.go:206-208 | the first command of `Move`, which makes the directory of the new path, with its fallback to `sudo` |
| ShellQuote.MoveCommandLexes | pbn-generator/internal/domainfs/ssh_backend.go:211-216 | the second command of `Move` for any two paths, with its fallback |
| RelativePath.NormalizeMeaning | pbn-generator/internal/domainfs/local_backend.go:216-234 | which paths are refused, with which error, and what every other one becomes |
| RelativePath.AcceptedIsNames | pbn-generator/internal/domainfs/local_backend.go:216-234 | an accepted path consists of names: no empty, `.` or `..` component |
| RelativePath.CleanOfNames | pbn-generator/internal/domainfs/local_backend.go:223 | cleaning a rooted path of names changes nothing |
| RelativePath.NormalizeTwice | pbn-generator/internal/domainfs/local_backend.go:216-234 | normalising again changes nothing exactly when the first result has no white space at its ends |
| RelativePath.ResolveThenRelative | pbn-generator/internal/domainfs/ssh_backend.go:376-443 | below an absolute root other than `/` every accepted path resolves to the root or strictly below it, is never refused as escaping, and comes back as its normalised form |
| RelativePath.RootIsGood | pbn-generator/internal/domainfs/ssh_backend.go:399-412 | the root of a published path is clean exactly when the path is absolute or does not begin by going nowhere or up |
| RelativePath.BadRootRefuses | pbn-generator/internal/domainfs/ssh_backend.go:414-426 | below any other root every path but the root itself is refused |
| RelativePath.ResolvesExactlyBelowGoodRoots | pbn-generator/internal/domainfs/ssh_backend.go:376-426 | all accepted paths resolve exactly for those published paths |
| RelativePath.DotIsRefused | pbn-generator/internal/domainfs/ssh_backend.go:428-443 | the answer for the root itself is not an acceptable path |
| RateLimiter.Prune | pbn-generator/internal/auth/security.go:40-46 | the in-place compaction keeps exactly the hits inside the window, in order |
| RateLimiter.Limiter.Allow | pbn-generator/internal/auth/security.go:34-53 | answers by the number of kept hits, records the call if allowed, and touches no other key |
| RateLimiter.Replay | pbn-generator/internal/auth/security.go:71-89 | a limiter object answers a whole run of calls as the model of runs says |
| RateLimiter.StoredIsHistory | pbn-generator/internal/auth/security.go:34-53 | pruning loses nothing that a later call would count |
| RateLimiter.AllowExactly | pbn-generator/internal/auth/security.go:34-53 | a call is allowed exactly when fewer than `limit` earlier calls of its key were allowed in (now - window, now] |
| RateLimiter.NeverOverLimit | pbn-generator/internal/auth/security.go:71-89 | in every run every interval of the window's length holds at most `limit` allowed calls of a key |
| RateLimiter.KeysAreIndependent | pbn-generator/internal/auth/security.go:34-53 | a key sees the run of its own calls alone |
| Lockout.LockoutTracker.IsBlocked | pbn-generator/internal/auth/security.go:112-121 | answers the end of the block exactly while it lies ahead |
| Lockout.LockoutTracker.RegisterFailure | pbn-generator/internal/auth/security.go:123-140 | counts, starting anew after a gap longer than the lockout, and blocks at the limit |
| Lockout.PerformLogin | pbn-generator/internal/auth/service.go:169-182 | a blocked login changes nothing; a wrong password counts, an unverified address does not, a success clears |
| Lockout.StateIsReplay | pbn-generator/internal/auth/security.go:112-146 | what is stored for an address depends on its own failures and successes alone |
| Lockout.LogIsGated | pbn-generator/internal/auth/service.go:169-182 | every recorded attempt found its address not blocked |
| Lockout.AtMostMaxFailures | pbn-generator/internal/auth/security.go:112-146 | every half-open window of the lockout's length without a success holds at most `maxFailures` failed password checks of an address |
| Lockout.ClosedWindowHoldsOneMore | pbn-generator/internal/auth/security.go:112-140 | the bound is met and the window must be half-open: the closed one can hold one failure more, under every policy |
| Lockout.StoredCountBelowLimit | pbn-generator/internal/auth/security.go:123-140 | the stored count is always below the limit |
| Lockout.StreakBlocks | pbn-generator/internal/auth/security.go:123-140 | `maxFailures` failures with gaps of at most the lockout always include one that blocks |
| Lockout.BlockHolds | pbn-generator/internal/auth/service.go:169-182 | until a block ends no login of the address gets past it, whatever happens meanwhile |
| Sessions.AuthService.ValidateToken | pbn-generator/internal/auth/service.go:382-404 | accepts exactly unexpired access tokens with id and subject |
| Sessions.AuthService.Login | pbn-generator/internal/auth/service.go:174-211 | behind the gates: authenticated and, if required, verified users get a session and a token pair |
| Sessions.AuthService.Refresh | pbn-generator/internal/auth/service.go:529-575 | accepts exactly unexpired refresh tokens of a stored session of the same address, and prolongs the session |
| Sessions.AuthService.Logout | pbn-generator/internal/auth/service.go:406-418 | a valid refresh token ends its session |
| Sessions.AuthService.LogoutAllSessions | pbn-generator/internal/auth/service.go:420-425 | ends all sessions of the address, or all but the current one |
| Sessions.AuthService.ChangePassword | pbn-generator/internal/auth/service.go:213-231 | succeeds exactly with a strong, different new password and the right current one, and ends the sessions |
| Sessions.AuthService.SetPasswordAdmin | pbn-generator/internal/auth/service.go:235-246 | the same without the current password |
| Sessions.AuthService.ResetPassword | pbn-generator/internal/auth/service.go:508-527 | redeems the grant once, even if the user is gone, and ends the sessions |
| Sessions.AuthService.ConfirmEmailChange | pbn-generator/internal/auth/service.go:322-339 | ends the sessions of the old address even if the new one turns out to be taken |
| Sessions.AuthService.DeleteUser | pbn-generator/internal/auth/service.go:371-380 | deletes any user but an administrator, with sessions, grants and pending changes |
| Sessions.AuthService.IssueSession | pbn-generator/internal/auth/service.go:599-623 | a session and a token pair without a password check, and neither for an address that the database does not know |
| Sessions.StoredSessions | pbn-generator/internal/auth/service.go:155-623 | requests keep a stored session's address; they renew it, leave it or remove it, and new sessions have new ids |
| Sessions.StepKeepsInv | pbn-generator/internal/auth/service.go:155-623 | no token outlives its ttl or its stored session, and a stored session's tokens carry its address |
| Sessions.GoneStaysGone | pbn-generator/internal/auth/service.go:155-623 | a session that is gone never comes back |
| Sessions.RevocationIsFinal | pbn-generator/internal/auth/service.go:213-246 | after a password change, reset, address change, deletion or full logout at t no token of an earlier session of the address is ever accepted by `Refresh`, nor by `ValidateToken` from t + accessTTL on |
| Sessions.AcceptedIsLater | pbn-generator/internal/auth/service.go:213-246 | seen from the end: after such a revocation the tokens of the address that `Refresh` accepts are of sessions created later |
| Sessions.LoginAcrossChange | pbn-generator/internal/auth/service.go:174-204 | a login whose password check precedes a password change and whose session is created after it leaves a session that `Refresh` accepts, although its password is not accepted any more |
| Sessions.RefreshAcrossChange | pbn-generator/internal/auth/service.go:553-572 | a revocation between the reading and the signing of a refresh: its refresh token is never accepted, and its access token is accepted at or after t + accessTTL exactly when its own lifetime, counted from the signing, reaches beyond that |
| Sessions.LogoutIsFinal | pbn-generator/internal/auth/service.go:406-418 | the same for the one session of a logout |
| Sessions.IdleSessionEnds | pbn-generator/internal/auth/service.go:529-575 | a session that nobody refreshes for refreshTTL can never be refreshed again |
| Sessions.CleanupIsInvisible | pbn-generator/internal/auth/service.go:248-252 | with and without clean-ups a run issues the same tokens, leaves the same users, and accepts and refuses every token alike |
| ImportJob.LegacyImportStore.UpdateJobStarted | pbn-generator/internal/store/sqlstore/legacy_import.go:114-122 | only a pending job starts |
| ImportJob.HandleImport | pbn-generator/cmd/worker/main.go:156-186 | the uninterrupted handler does what its steps do, and finishes the job exactly when all items are counted |
| ImportJob.StepKeepsInv | pbn-generator/cmd/worker/main.go:156-183 | every interleaved step keeps the counters equal to what the handlers counted, and a finished job fully counted |
| ImportJob.NeverReopened | pbn-generator/internal/store/sqlstore/legacy_import.go:114-136 | a finished job never runs again, even with redeliveries |
| ImportJob.OneVerdict | pbn-generator/cmd/worker/main.go:173-183 | with single deliveries a finished job has counted every item once, and all finishing handlers write the same status |
| ImportJob.StatusMeansOutcome | pbn-generator/cmd/worker/main.go:177-181 | the status is failed exactly when every item failed |
| ImportJob.CompleteRunFinishes | pbn-generator/cmd/worker/main.go:173-183 | when all handlers have run to their end at least one has finished the job, in every interleaving and with any redeliveries |
| ImportJob.RedeliveryFinishesEarly | pbn-generator/internal/tasks/tasks.go:77-84 | with two or more items and a retry there is a run that finishes the job while an item has not been looked at |
| ImportJob.NeverEarlyExactly | pbn-generator/internal/tasks/tasks.go:77-84 | a job is finished only after every item was counted, in all runs, exactly when nothing is retried or there is at most one item |
| FileTree.PartKeepsLinked | frontend/components/FileTree.tsx:47-68 | a turn of the inner loop keeps sibling names different and the tree closed under prefixes |
| FileTree.ViewMeaning | frontend/components/FileTree.tsx:38-72 | a node for every non-empty prefix of an entry, a directory exactly where an entry goes on or says so, and the last file entry at its node |
| FileTree.OwnNode | frontend/components/FileTree.tsx:65-67 | with distinct paths every file is at its own node |
| FileTree.FindChild | frontend/components/FileTree.tsx:53 | returns a child of that name, or none if there is none |
| FileTree.Descend | frontend/components/FileTree.tsx:47-69 | one turn of the inner loop on the node objects is one step of the path map |
| FileTree.AddFile | frontend/components/FileTree.tsx:38-71 | one entry on the node objects is one entry in the path map; existing nodes are kept |
| FileTree.SortNodes | frontend/components/FileTree.tsx:74-88 | every node from here down has its children in the stable order of directories first, then names; no other node changes |
| FileTree.BuildTree | frontend/components/FileTree.tsx:35-90 | the objects built and sorted are new, one per path, with joined paths, and show exactly the sorted path map of the entries |
| Sorting.SortOrdered | frontend/components/FileTree.tsx:75-80 | the sort orders the siblings, if the comparison is consistent |
| FileTree.OrderIndependentExactly | frontend/components/FileTree.tsx:35-90 | the sorted tree is the same for every order of entries with distinct normalised paths exactly when the comparison ties no two different names |
| FetchCache.AuthCache.AuthFetchCached | frontend/lib/http.ts:53-85 | answers from an unexpired entry, else from the running request, else starts one and registers it |
| FetchCache.AuthCache.InvalidateAuthCache | frontend/lib/http.ts:87-103 | removes exactly the entries and promises whose key includes the prefix, or all |
| FetchCache.RunKeepsInv | frontend/lib/http.ts:53-103 | entries carry the value and expiry of a request for their key, and promises belong to requests of their key that are not over |
| FetchCache.ServedIsFresh | frontend/lib/http.ts:61-77 | in every run a value served from the cache was requested less than the filling request's ttl ago, counted from its start |
| FetchCache.TidyStep | frontend/lib/http.ts:68-85 | callers keep joining the one outstanding request of their key exactly when a step neither bypasses nor invalidates a key whose request is outstanding |
| FetchCache.TidyExactly | frontend/lib/http.ts:68-85 | the same for whole runs, both directions |
| FetchCache.OneRequestPerKey | frontend/lib/http.ts:68-85 | then at most one request per key is outstanding and callers that do not bypass share it or are served from the cache |
| FetchCache.DisturbanceDuplicates | frontend/lib/http.ts:64-103 | after a disturbance one plain call is enough for two outstanding requests of one key |
| FetchCache.NeverStaleExactly | frontend/lib/http.ts:87-103 | after an invalidation no call is answered from before it, in all runs, exactly when no earlier request of the key has yet to deliver an unexpired value |

## Left out

- Reading times, intervals, weekday lists and schedule configurations from text and JSON: the model starts from parsed fields, each blank, malformed or given.
- Cron expression parsing: an expression is the set of the minutes it matches and a search horizon. The library searches to the end of a year some five years ahead, so that its horizon shrinks as that year goes by; the model's is a fixed number of minutes.
- Time-zone rules and daylight saving: a zone is a fixed offset.
- Overflow of Go's 64-bit durations and of timestamps: times are unbounded integers.
- Failing SQL calls in the schedulers, and the branch of `applySchedulesAt` for an item whose domain is missing from the listing, which single reads of consistent tables cannot reach.
- The order in which retryable generations are read, the pause and cancel operations on generations (by which a person could still end a stranded one), their pipeline and its retry policy: a worker is a step that finishes an active generation.
- The number of deliveries and the delay before each: in `Redelivery` any failed delivery may be the last, or be repeated at any later time.
- GenerationRuns.OnePerDomain: its runs deliver each task once; with redeliveries the part about generations has the exact condition of `Redelivery.OneOccupantExactly`.
- GenerationRuns.EventKeepsTasks: its steps deliver each task once.
- GenerationRuns.RunKeepsTasks: its runs deliver each task once.
- Audit logs, and the times that gate link tasks (`scheduled_for`, the 15 minutes of a stuck task): in `LinkDeliveries` the scheduler may write to a task it has listed whenever it likes. Deleted and purged link tasks.
- GenerationRuns.EventKeepsInv: each operation of the scheduler is one step there; `Redelivery` separates the check of a queue item from the creation and the listing of retries from the re-arming.
- The settling and enqueuing of one firing schedule, which is one step in all runs: only the scheduler, one tick after the other, writes to the queue.
- SSH dialling, host keys and command execution, and the probe script: a dial succeeds with a new client or fails.
- The notification channel of the pool: waiting calls are woken at any time, so nothing is claimed about fairness or timely wake-ups.
- The branch of `DeleteAll` that empties a root, which nests a quoted path inside another quoted text.
- Shell expansion outside single quotes: the lexer stops at `$`, backquotes, double quotes and comments, none of which the modelled commands hold.
- `parseCSV` after its scan, which takes headers and the AGGREGATES row apart, and in `buildCSV` the averages and the formatting of numbers, whose texts are taken to hold no special character.
- Pretty-printing of an extracted JSON block; `JSON.parse` is taken to accept exactly RFC 8259.
- Symbolic links and the local backend's own path check: paths are strings.
- Limiter and lockout calls whose clock readings arrive out of lock order, and logins of one address racing between the lockout check and the recorded failure.
- Interleavings inside one request of the auth service: each is one step, except that a login can be split into a password check and `IssueSession`, as in `LoginAcrossChange`, and a refresh as in `RefreshAcrossChange`.
- Password rules, captcha and mail; the strength of a password is a predicate.
- Signatures of tokens: a forged token is one that the JWT library rejects.
- Sessions.AuthService.IssueSession: the source looks no address up and relies on the foreign key of the sessions table, which the model takes as given.
- Foreign keys that could stop a change of address or a deletion; refresh tokens are not rotated by the code, and the model keeps that.
- ImportJob.CompleteRunFinishes: a handler that never arrives, or whose re-read of the job fails, can leave the job unfinished, so its run is not complete in this sense.
- The library sort of `Array.prototype.sort` is a stable insertion sort here, and `localeCompare` an arbitrary comparison.
- HTTP itself, retries after a refreshed token, and methods other than GET in `authFetchCached`.
- Rendering, hooks and styling of the client; text statistics and cost estimates.
