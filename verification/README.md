# Proofs about sisyphus

A Dafny model of the parts of sisyphus whose correctness is a matter of whole
runs rather than of single functions, with proofs of what they promise.
`dafny verify dfyconfig.toml` checks all of it.

| files | what they model |
|---|---|
| `HandleCore`, `LockProtocol`, `LockInvariant`, `LockTheorems`, `LockYield`, `LockRelay`, `LockDrain` | the DuckDB handle, its idle timer, and the cross-process lock with its queue |
| `BackupSwap` (with `Sorting`) | the restore swap and its rollback |
| `EnvKeys`, `EnvSchema`, `EnvWalks`, `EnvOverlay`, `EnvCase` | environment overrides: tokens, search, overlay, and what the names of variables mean |
| `Deduper`, `Restarts`, `Subject` | the seen-set with its stored mirror, and the broadcaster |
| `Journal`, `Kv`, `ConfigDb`, `Manager` | the stores over their tables, and the reconciliation of files with stored documents |
| `Scheduler` | the job loop, its backoff and its sleep |

## How it is modelled

* **Lock and handle.** A transition system of any number of processes, handles,
  operations and fences around one database file. Every region under a mutex,
  every attempt at an advisory lock, every unlock, timer expiry and wakeup is a
  step, and any enabled step may come next. The steps are built from the value
  functions of `HandleCore`, to which the classes `LockFile`, `LockTable` and
  `Handle` - fields updated in place - are proved equal. `gen` and `armed`
  wrap at 2^64; `Timer.Stop` and `Timer.Reset` report whether the timer was
  still counting; a descriptor holds an advisory lock exclusively. An
  interrupted try reads as busy, and a window that is not positive becomes the
  default one, as they do in the program.
* **Swap.** Directories are maps from names to files. Every Lstat, rename and
  remove draws its fate from an arbitrary function, so a statement covers every
  pattern of failures, those of the rollback included. `crashPoints` records
  the directories after every single rename and remove.
* **Environment overrides.** The recursive search with its loops is proved
  against a list of all walks in search order, the list against a definition of
  a walk that knows no order, and the overlay against reading paths back.
* **Deduper.** The methods work on `keys`, `order`, `first` and a namespace
  whose puts and deletes may fail; they are proved against functions on the
  order of remembered keys.
* **Subject.** A transition system: rendezvous with the goroutine, each single
  send and close it performs, and each receive are steps. The class `Hub` is
  the goroutine itself, its loops over the subscribers performed in place; each
  of its turns is proved to be a run of that system.
* **Stores.** A table is a map from primary key to row; an SQL statement is a
  function of the tables at the moment it runs, so a condition repeated in
  three statements is evaluated three times. A function says which calls to
  the database fail; a failing transaction is rolled back.
* **Scheduler.** Answers of the jobs, clock and cancellation are inputs.

## What the proofs found

* The second look `acquire` takes at the lock table never finds an entry, so that
  branch of it is dead (`SecondCheckFindsNothing`).
* While a waiter is at the head of the queue and the holder keeps the lock, it is
  not just one operation that may still run: it is exactly those past the demand
  check, all of them, or none if the holder of the mutex is about to notice the
  waiter (`WhoStillRuns`). An operation parked in a yield counts as past, since
  it does not ask again when it resumes. So two callbacks can follow if and only
  if two operations are past the check and none is at it (`OneMoreExactly`),
  which a reachable state shows to happen (`YieldedOperationRunsToo`).
* That is for a process with one handle on the file. With a second one idle, the
  demand need never be met: any number of operations that came after the waiter
  can notice it, hand over, find the lock still at hand and run
  (`WaiterStarves`).
* `.lock` is never lost: from every reachable state what is already under way can
  get it released without any failure (`LockCanBeReleased`).
* The scheduler can sleep past a stored time that is still ahead, although a
  later time "is waited for": exactly when the soonest stored time went by while
  the cycle ran and another lies within one interval (`SleepIsRight`,
  `OversleepsAfterSlowTurn`). The sleep is then one interval.
* The cap of 64 on counted failures cannot be seen in any delay, but it is seen
  in the count handed to `OnError` (`CapIsUnobservable`, `CounterIsCapped`).
* A restarted deduper has lost the order of its keys. Some order of them shows in
  what a call lets through exactly when the call asks for an old key while some,
  not all, of the old keys are forgotten (`OrderShowsExactly`); a full memory of
  any size from two up shows it (`FullMemoryShows`).
* Lazy expiry is invisible to all calls made at given readings of the clock if and
  only if the clock never goes back (`InvisibleExactly`). What does show whether
  expired rows were gone already are the counts of `Sweep` and `Clear` and
  `Expired` in `Stats`: each is the reference's exactly when none of the rows it
  is about was (`SweepCountExactly`, `ClearCountExactly`, `ExpiredCountExactly`).
* Format and content are kept apart by the hash's framing, over any set of formats,
  exactly when none begins with another and a NUL (`FramingKeepsApartExactly`).
* Eviction keeps every record with its run at any depth of nesting. Children stay
  with their parents at the documented single level, and in general exactly when
  no child that goes leaves children of its own behind
  (`DeletionLeavesNoOrphans`, `ParentsKeptExactly`, `GrandchildIsOrphaned`).
* Items may share a name: importing a plan settles all files if and only if the
  files of one name are the same (`FilesSettleExactly`, `DifferentFilesDriftOn`).

## Model

| member | source | states |
|---|---|---|
| `HandleCore.LockFile.TryLock` | internal/duckdb/flock_unix.go:12-22 | a try that is answered succeeds exactly when no other descriptor has the file locked; an interrupted one reads as busy, any other failure is an error, and neither changes anything |
| `HandleCore.LockFile.Unlock` | internal/duckdb/flock_unix.go:24-26 | unlocking frees the file only if this descriptor held it |
| `HandleCore.WaitLock` | internal/duckdb/handle.go:479-498 | at least one try, even past the deadline; every try before the last was busy, in time and not cancelled; the result says how the last one ended |
| `HandleCore.LockTable.Join` | internal/duckdb/handle.go:325-331 | the first table check adds a reference exactly when there is an entry |
| `HandleCore.LockTable.Register` | internal/duckdb/handle.go:338-351 | the second check either joins an entry and drops the fresh descriptor's lock, or enters it with one reference |
| `HandleCore.LockTable.Release` | internal/duckdb/handle.go:425-440 | one reference less; the entry and the lock go with the last one, and only then |
| `HandleCore.Handle.Disarm` | internal/duckdb/handle.go:275-280 | no timer counts any more and a wakeup is no longer owed exactly when one did; the generation moves on, wrapping at 2^64; database and closed flag stay |
| `HandleCore.Handle.Arm` | internal/duckdb/handle.go:282-292 | the timer counts towards a full window from now, one more wakeup owed unless it was counting already |
| `HandleCore.Handle.ShutLocked` | internal/duckdb/handle.go:260-269 | disarmed and shut; one lock reference is dropped exactly when the database was open |
| `HandleCore.Handle.Enter` | internal/duckdb/handle.go:175-180 | a closed handle refuses without touching anything; otherwise the timer is disarmed |
| `HandleCore.Handle.Resume` | internal/duckdb/handle.go:217-225 | closed or cancelled during the yield: nothing changes; otherwise disarmed again |
| `HandleCore.Handle.Acquire` | internal/duckdb/handle.go:322-352 | succeeds by joining or by taking the free lock; failing leaves table and lock as they were |
| `HandleCore.Handle.OpenLocked` | internal/duckdb/handle.go:246-258 | a failed open, for whichever reason, leaves no reference and no lock behind |
| `HandleCore.Handle.Close` | internal/duckdb/handle.go:236-244 | closed for good, shut, its reference dropped |
| `HandleCore.Handle.OnIdle` | internal/duckdb/handle.go:294-302 | shuts the database exactly when this is the last wakeup owed, of the latest arming, of a handle not closed; otherwise one wakeup less is owed and nothing else changes |
| `LockProtocol.IdleWindow` | internal/duckdb/handle.go:142-144 | the idle window is the one given if positive, else 250 ms |
| `LockInvariant.StepKeepsInv` | internal/duckdb/handle.go:168-440 | every step of any operation, fence, timer or Close keeps the invariant of records, queue, lock and reference counts |
| `LockInvariant.RunKeepsInv` | internal/duckdb/handle.go:168-440 | so does every run of any interleaving |
| `LockTheorems.Exclusion` | internal/duckdb/handle.go:246-269 | at most one process has the database open, its entry's descriptor holds `.lock`, `refs` is the number of handles holding a reference, and none of this beside a live `Lock`, of which there is at most one |
| `LockTheorems.SecondCheckFindsNothing` | internal/duckdb/handle.go:338-345 | the second table check never finds an entry, in any reachable state |
| `LockTheorems.LockIsAnsweredFor` | internal/duckdb/handle.go:354-440 | a held `.lock` always belongs to an operation about to use or release it, or to an entry some handle holds a reference to |
| `LockTheorems.CallbackIsGuarded` | internal/duckdb/handle.go:187-197 | a running callback has the database open, the reference and the mutex held, and no other callback of the handle beside it |
| `LockTheorems.CloseIsTerminal` | internal/duckdb/handle.go:168-244 | ever after Close: shut, no reference, no callback running or starting, and operations fresh or resuming from a yield return at once |
| `LockTheorems.TimerAccounting` | internal/duckdb/handle.go:271-302 | `pending` is one for a counting timer plus the wakeups under way, never negative; an idle open database is armed and owed a wakeup, and a counting timer ends one window after the last operation |
| `LockTheorems.IdleWindowIsFull` | internal/duckdb/handle.go:282-302 | a wakeup that shuts the database comes at least a full idle window after every earlier operation, the latest arming's timer having fired |
| `LockTheorems.ShutByPendingWakeups` | internal/duckdb/handle.go:275-302 | without further operations the `pending`-th wakeup at the latest finds the database shut and the reference dropped, whatever others do and whichever yields are cancelled |
| `LockTheorems.WakeupIsComing` | internal/duckdb/handle.go:282-302 | while it is open and idle, a wakeup can arrive or its timer can expire once a window has passed since the last operation, and at once if it has |
| `LockTheorems.HeadIsNotOvertaken` | internal/duckdb/handle.go:354-386 | while an operation is at the head, `.lock` stays with its owner or becomes free and stays free, and nobody else is at the head |
| `LockTheorems.DemandIsHonoured` | internal/duckdb/handle.go:181-186 | the callbacks the only handle of the holding process starts before it releases are those of operations past the demand check when the waiter got to the head, or whose own probe failed since |
| `LockTheorems.AtMostOnePastCheck` | internal/duckdb/handle.go:181-191 | apart from those parked in a yield there is at most one such operation |
| `LockYield.CheckBlocks` | internal/duckdb/handle.go:181-183 | an operation at the check keeps the mutex until it hands over, and nothing starts before that |
| `LockYield.PastAllRun` | internal/duckdb/handle.go:187-226 | from any such state there is a run in which every operation past the check starts its callback before the release |
| `LockYield.WhoStillRuns` | internal/duckdb/handle.go:181-226 | exactly the operations past the check can start a callback before the release, unless the holder of the mutex is at the check: then none |
| `LockYield.OneMoreExactly` | internal/duckdb/handle.go:181-226 | two callbacks can follow if and only if two operations are past the check and none is at it |
| `LockYield.OneMoreUnlessYielding` | internal/duckdb/handle.go:200-226 | so at most one does when nobody is parked in a yield |
| `LockYield.YieldedOperationRunsToo` | internal/duckdb/handle.go:200-226 | a reachable state, with one operation parked and one opening, from which two do |
| `LockRelay.KeepsOpenUndisturbed` | internal/duckdb/handle.go:168-197 | an operation on an idle open handle whose probe finds no waiter can run on the database as it is: never shut meanwhile, lock and references unchanged |
| `LockRelay.Lap` | internal/duckdb/handle.go:181-226 | with another reference in the process, an operation that notices the waiter hands over, takes the lock back and runs, leaving everything as it was |
| `LockRelay.WaiterStarves` | internal/duckdb/handle.go:181-226 | so with a second idle handle any number of later operations can run while the waiter stays at the head |
| `LockDrain.HolderReleases` | internal/duckdb/handle.go:168-302 | what a handle with a reference has under way can always end in its dropping that reference |
| `LockDrain.LockCanBeReleased` | internal/duckdb/handle.go:168-440 | from every reachable state a run without failures or new operations ends with `.lock` free |
| `BackupSwap.Swap.SetAside` | backup/backup.go:344-357 | after success the name is gone from dest; originals set aside are intact and nothing else changed |
| `BackupSwap.Swap.Place` | backup/backup.go:335-340 | an entry is placed or the step fails, originals aside untouched |
| `BackupSwap.Swap.Run` | backup/backup.go:323-342 | success, which is certain when nothing fails, puts exactly the staged file under every entry, leaves no `.wal` or `.tmp` beside an entry but other entries, and touches no other name; failure rolls back all but the stuck names, whose originals are in aside; every original is in exactly one place after each rename and remove |
| `BackupSwap.Swap.Abort` | backup/backup.go:359-388 | for any failures of its own: an empty stuck list means dest is exactly as it was; otherwise every name not listed is, and the listed originals are intact in aside |
| `BackupSwap.Home.SortedNames` | backup/backup.go:243-247 | the entries' names, sorted, each once |
| `BackupSwap.Home.Restore` | backup/backup.go:240-287 | writes all entries, with no old `.wal` or `.tmp` left beside one and every other name as it was, which is certain when nothing fails; or refuses with every file as it was; or names exactly what could not be put back |
| `BackupSwap.ReplacedPlainly` | backup/backup.go:325-331 | what is replaced, spelled out: an entry, its `.wal` and its `.tmp`, and no other name |
| `BackupSwap.SetAsideKeeps` | backup/backup.go:344-357 | setting one more original aside keeps the account of which file is where, name by name |
| `BackupSwap.PlaceKeeps` | backup/backup.go:335-340 | so does placing one more entry, including one that is another entry's sidecar |
| `BackupSwap.RemoveKeeps` | backup/backup.go:365-372 | so does removing a new file, or failing to |
| `BackupSwap.PutBackKeeps` | backup/backup.go:373-378 | so does putting an original back, or failing to |
| `BackupSwap.PlacingConserves` | backup/backup.go:335-340 | at every moment of the placing an original is in its place or aside under its own name |
| `BackupSwap.UndoingConserves` | backup/backup.go:359-378 | the same at every moment of the rollback |
| `Sorting.SortStrings` | backup/backup.go:384 | sorted by bytes, same elements as often |
| `Sorting.AtMostIs` | backup/backup.go:384 | the order is that of the first differing character, a prefix before what extends it |
| `EnvKeys.EnvTokens` | config/config.go:200-208 | non-empty pieces between underscores that together spell the name, without a capital letter |
| `EnvKeys.SplitJoins` | config/config.go:203 | joining the pieces of a cut at underscores gives the name back |
| `EnvKeys.JoinSplits` | config/config.go:203 | and pieces without underscores, joined, are cut into themselves |
| `EnvKeys.NormIs` | config/config.go:232-239 | of a single character: underscore, hyphen, dot, plus and blank vanish, a capital becomes its small letter, all others stay |
| `EnvKeys.NormJoin` | config/config.go:232-236 | normalizing forgets the separators a key was joined with |
| `EnvKeys.TokensSpell` | config/config.go:200-236 | cutting a name into tokens loses nothing but separators and case |
| `EnvSchema.Resolve` | config/config.go:389-439 | settable exactly when some walk of the tokens ends in a leaf, and the path is the first such walk in search order, else the first walk to a section |
| `EnvSchema.ResolveChildren` | config/config.go:396-413 | the same for walks that begin with a declared field |
| `EnvSchema.ResolveNames` | config/config.go:398-409 | the same for one cut of the tokens |
| `EnvSchema.ResolveKeys` | config/config.go:414-434 | the same for walks that begin with a key a map already has |
| `EnvSchema.ResolveSpelled` | config/config.go:415-430 | the same for one cut, over the keys that spell it |
| `EnvWalks.InMatch` | config/config.go:441-454 | match returns exactly the children the tokens name exactly or spell up to separators |
| `EnvWalks.InWalks` | config/config.go:389-439 | the list the search follows holds exactly the walks that end as asked |
| `EnvWalks.SearchIsExact` | config/config.go:389-439 | settable if and only if a walk to a leaf exists; a section reported if and only if none does but an interior node is reachable; what is returned is such a walk |
| `EnvWalks.LongestCutWins` | config/config.go:397-437 | the first walk takes the longest run of tokens that leads anywhere, an exact name before a spelled one and the first of keys spelled alike, again so below it; a new map key only when no key there leads anywhere |
| `EnvWalks.WalkSpells` | config/config.go:389-454 | normalized, the path is the concatenation of the tokens |
| `EnvWalks.WalkIsValid` | config/config.go:389-439 | a walk is a path of the schema |
| `EnvWalks.SettablePrefixFree` | config/config.go:385-439 | no settable path of a schema is a proper prefix of another |
| `EnvOverlay.PutReads` | config/config.go:210-220 | assigning under a path changes what is read there and below, and nothing else |
| `EnvOverlay.Overlay.SetEnvPath` | config/config.go:210-220 | the value is readable at the path, prefixes and extensions of it no longer are, all other paths read as before |
| `EnvOverlay.Collect` | config/config.go:141-156 | each variable extending the prefix once, with its last value |
| `EnvOverlay.ResolvedIsSettable` | config/config.go:174-185 | an override goes only to a settable path |
| `EnvOverlay.LastIsGreatest` | config/config.go:160-168 | among the sorted names the last that resolves to a path is the greatest that does |
| `EnvOverlay.OverlayStep` | config/config.go:168-186 | one more override destroys no other |
| `EnvOverlay.LoadEnvOverrides` | config/config.go:139-186 | every path reads as the value of the greatest variable that resolves to it, unset if none does; warned about are exactly the variables that name a section |
| `EnvCase.CapitalsAreCut` | config/config.go:200-208 | field names in capitals, joined by underscores after the prefix, are cut into exactly these fields |
| `EnvCase.CapitalsReachField` | config/config.go:106-109 | the variable prefix + NAME resolves to the plain field name of the schema, for every name of small letters and digits |
| `EnvCase.CapitalsReachFields` | config/config.go:106-109 | at any depth, SERVER_PORT resolves to a settable path that spells the same as server.port |
| `EnvCase.OneVariable` | config/config.go:139-186 | an environment of the one entry PREFIX_NAME=value makes the field read as value |
| `EnvCase.ValuesAre` | config/config.go:141-156 | the variables that count are those that go on after the prefix, each with the value of its last entry |
| `Deduper.FeedRemembers` | stream/stream.go:126-164 | over every run of keys the memory is duplicate-free, at most max long, and the newest recordings; recordings of one key are more than max apart |
| `Deduper.ManyBetween` | stream/stream.go:126-164 | so at least max other distinct keys are recorded between two recordings of a key |
| `Deduper.LogIsSelected` | stream/stream.go:128-141 | the recordings are exactly the items that were new, in order |
| `Deduper.CallsCompose` | stream/stream.go:126-150 | two calls leave what one call with both batches leaves |
| `Deduper.StripMarkers` | stream/persist.go:84-92 | the markers are never keys; any content at all means no baseline pass |
| `Deduper.Deduper.Restore` | stream/persist.go:81-99 | the stored keys without markers, as many as fit, and the mirror holds if deletes succeed |
| `Deduper.Deduper.Evict` | stream/stream.go:152-164 | exactly the oldest keys beyond max go, from order, keys and store alike |
| `Deduper.Deduper.Record` | stream/stream.go:129-141 | new exactly when not remembered; remembered afterwards; the mirror kept for keys that are no marker |
| `Deduper.Deduper.Pass` | stream/stream.go:127-142 | the loop feeds all keys and lets exactly the new items through, none on the first pass |
| `Deduper.Deduper.Unseen` | stream/stream.go:126-150 | the same for the call, which ends the first pass and marks the namespace; every item whose key is not remembered and comes for the first time is returned, and nothing but items of the batch; with a reliable store the namespace without markers equals the keys |
| `Restarts.OrderIsInvisible` | stream/persist.go:93-97 | memories of the same keys in different orders answer a call that evicts nothing alike, and remember the same keys after it |
| `Restarts.OrderShowsExactly` | stream/persist.go:93-97 | all orders of the keys answer a call alike if and only if it does not ask for an old key while some, not all, of the old keys are forgotten |
| `Restarts.FullMemoryShows` | stream/persist.go:93-97 | an instance: a full memory of at least two keys, one new item and then any old one |
| `Restarts.Restart` | stream/persist.go:80-101 | a deduper rebuilt after any call has the same keys, no baseline pass, and returns what the old one would on every call that condition allows |
| `Subject.StepKeepsInv` | stream/subject.go:32-123 | every step of the goroutine, subscribers and publishers keeps sets, flags and windows right |
| `Subject.ChannelLifecycle` | stream/subject.go:32-89 | in every interleaving no channel is closed twice or sent on after closing; once the loop has exited every channel handed out is closed |
| `Subject.Delivery` | stream/subject.go:52-59 | what a subscriber received is an in-order subsequence of the values published while it was registered, and all of them if no value met a full buffer; a buffer never exceeds its capacity |
| `Subject.LostExactly` | stream/subject.go:52-58 | over every run, a channel has lost a value if and only if some send to it found nobody waiting and its buffer at capacity |
| `Subject.PublishedPlainly` | stream/subject.go:52-58 | one publication seen channel by channel: delivered where there is room or a receiver, lost where there is neither |
| `Subject.ClosingShrinks` | stream/subject.go:37-41 | the stop signal is final: only closes remain, one per registered channel |
| `Subject.Hub.TurnSubscribe` | stream/subject.go:42-43 | the channel is registered, open |
| `Subject.Hub.TurnUnsubscribe` | stream/subject.go:44-51 | a registered channel is closed and gone, an unknown one ignored |
| `Subject.Hub.TurnPublish` | stream/subject.go:52-58 | a registered channel with room in its buffer, or a receiver waiting on an empty one, has the value after all it had, any other loses it; no other channel is touched, whatever the order; it is a run of the system |
| `Subject.Hub.TurnStop` | stream/subject.go:37-41 | the loop closes every registered channel once and no other, after which all channels handed out are closed; it is a run of the system |
| `Journal.NewestFirstOrdered` | journal/journal.go:253-254 | the order is strictly newest first, by start time and then id |
| `Journal.SparesTheNewest` | journal/journal.go:253-254 | the runs the condition spares are the n newest top-level runs, or all |
| `Journal.NewestAreUnique` | journal/journal.go:253-254 | there is only one such set |
| `Journal.NewestPlainly` | journal/journal.go:253-254 | every run spared started later than every run left out, or at the same time with the greater id |
| `Journal.DoomedDependsOnTops` | journal/journal.go:251-254 | deleting rows that are not top-level cannot change which runs are doomed |
| `Journal.EvictionIsOneDeletion` | journal/journal.go:328-336 | the doomed set is the same each time it is evaluated, and the three statements are one simultaneous deletion of doomed runs, children and records |
| `Journal.DeleteIsOneDeletion` | journal/journal.go:233-237 | so are Delete's three |
| `Journal.DeletionPlainly` | journal/journal.go:233-237 | row by row: gone are the runs named, the runs that name one of them as parent, and the records of both; no other row changes |
| `Journal.DeletionLeavesNoOrphans` | journal/journal.go:233-237 | every remaining record has its run; with one-level nesting every remaining child its parent |
| `Journal.ParentsKeptExactly` | journal/journal.go:328-336 | at any depth every remaining child keeps its parent if and only if no child that goes has children of its own that stay |
| `Journal.GrandchildIsOrphaned` | journal/journal.go:328-336 | an instance: two levels deep a run can outlive its parent |
| `Journal.RetainIsIdempotent` | journal/journal.go:270-282 | after Retain exactly the n newest are left and the same or a laxer Retain dooms nothing |
| `Journal.RetainInTwoSteps` | journal/journal.go:270-336 | a Retain followed by a stricter one leaves the tables the stricter alone would have |
| `Journal.PruneAfterPrune` | journal/journal.go:256-268 | exactly the runs not started before the time are left, and nothing is left to prune |
| `Journal.DeleteUndoesAdd` | journal/journal.go:149-249 | deleting a run just added restores the tables if and only if no run already named its id as parent |
| `Journal.WithRecordsRows` | journal/journal.go:182-203 | a batch adds exactly its own rows, in order, under fresh keys |
| `Journal.RewriteTable` | journal/journal.go:338-349 | drop, create, copy, drop, rename leave the rows as they were, and fail exactly when one of them fails |
| `Journal.Store.Add` | journal/journal.go:149-180 | the run with all its records under fresh keys and every old row kept, or nothing; the latter only if a statement fails |
| `Journal.Store.InsertRecords` | journal/journal.go:182-203 | chunks of 200 insert every record once, whatever their number |
| `Journal.Store.Delete` | journal/journal.go:218-249 | exactly the run, the runs that name it as parent and their records go, or nothing, the latter only if a statement fails; id 0 does nothing |
| `Journal.Store.EvictInTx` | journal/journal.go:299-315 | statements and rewriting together are that one deletion |
| `Journal.Store.Evict` | journal/journal.go:284-321 | all or nothing; the count is that of the top-level runs gone; only a failed CHECKPOINT reports an error for an eviction that happened |
| `Journal.Store.Prune` | journal/journal.go:256-268 | removes exactly the top-level runs started before the time, their children and the records of both, and counts them; certain when nothing fails |
| `Journal.Store.Retain` | journal/journal.go:270-282 | keeps exactly the newest top-level runs, by start time and then id, with all that belongs to them; deletes nothing for a count of 0 or less; certain when nothing fails |
| `Kv.SimSurvives` | kv/kv.go:330-341 | time passing and any deletion of expired rows keep the store within expired rows of the map that never deletes |
| `Kv.CallKeepsSim` | kv/kv.go:72-341 | so does every call, whichever of its statements fail |
| `Kv.AggregatesAgree` | kv/kv.go:247-256 | all aggregates over live rows are those of that map |
| `Kv.StatsAgree` | kv/kv.go:234-284 | Stats differs from the map's only in Expired, and in leaving out namespaces with no live row |
| `Kv.RepliesAgree` | kv/kv.go:72-328 | one call answers as the map would |
| `Kv.LazyExpiryIsInvisible` | kv/kv.go:72-341 | so does every call of every sequence made while the clock does not go back, whichever statements fail |
| `Kv.ClockGoingBackShows` | kv/kv.go:313-341 | wherever the clock goes back between two calls, a sweep and a lookup show it |
| `Kv.InvisibleExactly` | kv/kv.go:72-341 | for given readings of the clock, every sequence of calls answers as the map would if and only if the clock never goes back |
| `Kv.SweepCountExactly` | kv/kv.go:314-337 | the count of a sweep is the map's exactly when no expired row was gone |
| `Kv.ClearCountExactly` | kv/kv.go:288-311 | the count of a clear, exactly when none of the rows it removes was |
| `Kv.ExpiredCountExactly` | kv/kv.go:247-256 | the expired count of a namespace, exactly when none of its rows was |
| `Kv.Collect` | kv/kv.go:158-168 | the cursor's order does not matter to the listing |
| `Kv.SortedNames` | kv/kv.go:191-204 | each namespace once, in order |
| `Kv.Store.Get` | kv/kv.go:72-103 | an entry without expiry, or with one after now, is what is returned; one whose expiry is not after now is a miss and dropped if it can be; no other row changes |
| `Kv.Store.Put` | kv/kv.go:107-128 | replaces the entry, or changes nothing exactly when the transaction fails |
| `Kv.Store.Delete` | kv/kv.go:132-140 | removes the entry, present or not, unless the statement fails |
| `Kv.Store.List` | kv/kv.go:144-179 | the rows of the namespace without expiry or with one after now, and exactly those; all others of that kind are kept and the expired ones swept |
| `Kv.Store.Namespaces` | kv/kv.go:182-214 | a name is listed if and only if it holds a row without expiry or with one after now; sorted, each once |
| `Kv.OneRowTallied` | kv/kv.go:247-254 | one more row moves counts, least and greatest of its group as the aggregates over all rows say |
| `Kv.GroupRows` | kv/kv.go:247-255 | a pass over the rows in any order computes every namespace's aggregates |
| `Kv.GroupLines` | kv/kv.go:247-273 | one line a namespace, ordered by name, fresh counts only for a positive window |
| `Kv.CountedPlainly` | kv/kv.go:216-256 | the aggregates count the rows of a namespace with no expiry or one ahead, the others, and those of the former updated since the cutoff |
| `Kv.BracketedPlainly` | kv/kv.go:226-256 | oldest and newest are update times of live rows and bracket all of them, absent exactly when there is none |
| `Kv.Store.Stats` | kv/kv.go:239-284 | one line for every namespace with rows, in order: how many rows have no expiry or one after now, how many have not, how many of the former were updated within a positive window, and their first and last update; nothing is written |
| `Kv.Store.Clear` | kv/kv.go:288-311 | empties the namespace, or the whole store for the empty name, counts the rows gone, and touches no other |
| `Kv.Store.Sweep` | kv/kv.go:314-337 | the rows left are exactly those without expiry or with one after now; counted are the others |
| `ConfigDb.FramingInjective` | configdb/configdb.go:86-92 | the NUL byte keeps format and content apart for formats without one |
| `ConfigDb.FramingKeepsApartExactly` | configdb/configdb.go:86-92 | over any set of formats, it keeps them apart if and only if none begins with another and that byte |
| `ConfigDb.OneEvent` | configdb/configdb.go:131-195 | an import or forget changes the versions of its own name only, by one snapshot or to none |
| `ConfigDb.VersionChain` | configdb/configdb.go:127-195 | over every run, archived snapshots in archive order and the current one are exactly the imports since the last forget |
| `ConfigDb.CurrentIsLatest` | configdb/configdb.go:94-125 | the current snapshot is the latest of them, present exactly when there is one |
| `ConfigDb.Store.Current` | configdb/configdb.go:96-125 | the stored snapshot or absent |
| `ConfigDb.Store.Import` | configdb/configdb.go:131-169 | archives the current snapshot and stores the new one under the digest of format, NUL and content, or changes nothing, the latter exactly when a statement of the transaction fails; a failed marker reports an error for a change that stuck |
| `ConfigDb.Store.Forget` | configdb/configdb.go:173-195 | drops current and history of the name and nothing else, or changes nothing, exactly when a statement fails |
| `Manager.InSyncMeansEqual` | manager.go:155-183 | an item is left out of a plan if and only if file and database hold the same content and format, or neither has it |
| `Manager.PlanFindsDisagreement` | manager.go:155-216 | planned are exactly the items whose content by file and by database would differ, besides an empty stored document without a file |
| `Manager.PlanOfOne` | manager.go:160-183 | a single item is planned unless its stored hash is the digest of its format, NUL and content, or neither side has it; what is planned carries the item and what is stored |
| `Manager.PlansConcatenate` | manager.go:160-183 | the plan of two lists is their plans one after the other |
| `Manager.PlannedSides` | manager.go:141-153 | a reconciliation carries the item and the stored snapshot, says truly which sides it has, and using the database returns what the database holds |
| `Manager.StoredAfterImports` | manager.go:160-199 | importing a plan stores each planned file under its name and touches no other |
| `Manager.ImportingSettles` | manager.go:160-199 | with distinct names the next plan is the old one without the imported items |
| `Manager.FilesSettleExactly` | manager.go:160-199 | with names shared, importing the plan leaves no file to import if and only if the files of one name have equal content and format |
| `Manager.DifferentFilesDriftOn` | manager.go:160-199 | an instance: two different files of one name |
| `Manager.ImportIsEffective` | manager.go:187-216 | an imported file is what every backend then yields |
| `Manager.ConfigStore.Plan` | manager.go:160-183 | the drifted items in order, nothing in the other backends, nothing after a failed read |
| `Manager.ConfigStore.Apply` | manager.go:187-199 | each decision's content and format; importing stores the snapshot, or leaves the store alone; it succeeds when nothing fails |
| `Manager.ConfigStore.Effective` | manager.go:204-216 | a non-empty file under both backends, the file as it is without a database, and otherwise what is stored, or nothing in the format asked for |
| `Scheduler.ScheduleBackoff` | schedule/schedule.go:132-144 | the loop computes min(interval * 2^(fails-1), 5 min), or the interval if that is longer, one second for one that is not positive, without leaving 64 bits |
| `Scheduler.CapIsUnobservable` | schedule/schedule.go:117-144 | counting to 64 only never changes a delay |
| `Scheduler.CounterIsCapped` | schedule/schedule.go:117-130 | the counter is the number of failures in a row, up to 64 |
| `Scheduler.DelayAfterFailures` | schedule/schedule.go:117-144 | after the k-th failure in a row the job is stored for the k-th delay from now, over every history |
| `Scheduler.RunsExactlyWhenDue` | schedule/schedule.go:64-91 | in every history a job is asked if and only if its stored time is absent or has come, and runs if and only if it is asked and answers a time that has come |
| `Scheduler.StoredExactly` | schedule/schedule.go:74-99 | what each visit stores: now after a run that went well, a later answer as it is, one interval ahead for no time, what was stored if it did not ask or stopped |
| `Scheduler.NotAskedAgainEarly` | schedule/schedule.go:69-73 | a stored time stands until the job is asked again, which is not before it |
| `Scheduler.SuccessResets` | schedule/schedule.go:82-99 | a success ends the row of failures and stores now, the given time, or one interval ahead |
| `Scheduler.Schedule.Fail` | schedule/schedule.go:117-125 | stores the delay of the counted failure from now, for this job only |
| `Scheduler.Schedule.Succeed` | schedule/schedule.go:127-130 | clears the failures and stores the time given, for this job only |
| `Scheduler.Schedule.VisitOne` | schedule/schedule.go:64-100 | asked exactly when its stored time is absent or has come, run exactly when it then answers a time that has come; what is stored is the time now, the answer, one interval ahead or the delay of one more failure; the loop stops when an error meets a cancelled context |
| `Scheduler.Schedule.Cycle` | schedule/schedule.go:54-100 | every job changes by its own answer alone, and those that ran are exactly the jobs asked that answered a time that had come; soonest is the least stored time ahead, pollSoon whether one is not |
| `Scheduler.SleepIsRight` | schedule/schedule.go:101-106 | the sleep is positive and determined by the stored times: it ends at one or is one interval long, never more than an interval when some job's time has come, and at a stored time when all are ahead; it passes one still ahead if and only if the soonest went by during the cycle and another lies within the interval |
| `Scheduler.OversleepsAfterSlowTurn` | schedule/schedule.go:54-106 | it does happen, in the first turn of two jobs |
| `Scheduler.Schedule.TakeTurn` | schedule/schedule.go:54-106 | one turn keeps every job's state a function of its own answers and the clock, runs exactly the jobs that are due, and sleeps right |
| `Scheduler.Schedule.Run` | schedule/schedule.go:44-115 | so does the whole run, for any number of turns, until the context is cancelled; returned is which jobs ran in which turn, exactly those with a stored time absent or come and an answer that had come |

## Left out

- LockTheorems.DemandIsHonoured: speaks of a process with one handle on the file; for several, LockRelay.WaiterStarves shows that there is no such bound.
- LockYield.WhoStillRuns: the same, over runs in which no probe of `.wait` fails with an error; DemandIsHonoured covers those too.
- LockYield.CheckBlocks: as WhoStillRuns.
- LockYield.PastAllRun: one handle of the process on the file, as WhoStillRuns.
- LockYield.OneMoreExactly: as WhoStillRuns.
- LockYield.OneMoreUnlessYielding: as WhoStillRuns.
- HandleCore.Handle.Acquire: is the way through acquire on the last, successful or failing, look at `.lock`; the `.wait` queue and the polling before it are WaitLock and steps of the transition system.
- HandleCore.Handle.OpenLocked: builds on that Acquire.
- EnvKeys.EnvTokens: lower-cases ASCII letters only.
- EnvKeys.TokensSpell: the same.
- EnvOverlay.LoadEnvOverrides: a caller's own key mapper and the merging of the overlay into the configuration are left out.
- BackupSwap.Home.Restore: archive reading, decryption, the database locks and the sweeping of old staging directories are one step that may refuse; removing the rollback area is taken to succeed.
- Scheduler.Schedule.Run: is given the turns of its endless loop as a finite sequence; panics of callbacks and the logging of errors are not part of it.
- Subject.Hub.TurnPublish: runs its loop without receives in between; those are steps of the transition system, where the theorems about every interleaving are. `Pump` only forwards.
- Several database files: they share nothing but the lock table's map, which is modelled entry by entry.
- Death of a process, which frees its advisory locks; deletion of lock files; symbolic links and changes of the working directory.
- Callback panics inside `Handle.Do`, closing errors, pid texts, error messages and the choice between error values.
- `since` and `maxHold`: a handle may hand over at any demand check, as it may when it has been open for too long.
- Building the schema by reflection: a tree whose nodes have children or are dynamic, not both, and whose normalized names spell their fields, is taken as given.
- Write failures of the deduper's store are allowed, but then only what is in memory is promised; its keys are taken to differ from the two markers where the mirror is concerned.
- SQL itself, time stamps and their precision, columns no statement looks at, `FinishRun`, `History`, `Recent` and other plain queries.
- Whether a rolled-back transaction gives its sequence numbers back; here it does not.
- Collisions of SHA-256: the digest is a function without any, never empty.
- The generation marker's contents; only that writing it may fail after a commit.
- Nil and closed stores, which report that they are unavailable.
- Cursors, pollers, sealed files, secrets, authentication, daemons, the tray and the desktop: thin layers over foreign systems.
