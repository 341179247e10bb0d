# Database Lab Engine: verified model

Database Lab Engine hands out thin clones of a Postgres database. This project
models its core in Dafny and proves what it promises: over single calls, over
all runs, and across a restart. `dafny verify dfyconfig.toml` checks everything.

## What is modelled

**Clones and ports.** `Provision` describes what the calls of the provisioner do
to ports, containers and datasets; commands of Docker and ZFS are state changes
whose outcome (done, failed before or after it took effect) the environment
chooses. `Cloning` is the registry as a state machine: every request handler and
every step of the goroutines it spawns is one step, so a run is any interleaving
of them. `CloningSafety` and `CloningRuns` prove what all runs keep,
`CloningDiscipline` that their premise is the exact one, `CloningReach` what a
step can touch and which ports stay bound, `CloningHomes` which runs keep every
clone stoppable, `CloningOrphans` which sessions get lost. `SessionOutcomes` and
`CloneOutcomes` say exactly when each call and request succeeds and what is then
there, without the steps in between. `Provisioner` and `Base` (modules
`Provisioning`, `CloneBase`) are the objects with their fields updated in place;
every method is proved to do what the state machine says. `Restart` filters the saved registry, removes everything
else and reads the ports anew, and shows that runs can go on from there.
`CloneNames` decides when the substring test for an existing clone is exact.

**Storage.** `ZfsRetention` is the dataset graph with `zfs destroy -R` over any
number of steps, and the shell filters as functions on lists; `ZfsManagement`
is the manager around it. `PoolQueue` is the queue of pools and its refresh in
two steps, before and after the jobs; `PoolDiscovery` builds the queue;
`PoolManagement` has both objects.

**Text.** `PgConfig` and `PgAdjust` are the printer, the parser and the line
rewriter of Postgres configuration, `PgConfigManagement` the manager with its
files. `TimeText` and `SnapshotOrder` show when comparing printed times compares
times. `Text` holds the string operations of Go these rely on.

**Logs and estimates.** `LogSearch` is the search for the last activity, with old
files left out; `CloneLog` the extraction of a session's log with its early
exit; `Estimator` the profiler and the timing estimate over real numbers (`Sums`
adds up maps in any order), `Profiling` their objects.

Random choices of the source (the order in which a map is walked) are arbitrary
choices here, so results hold for every order.

## Assumptions of the run theorems

Where the code does not enforce what a property needs, the property is stated
with its exact condition, or with the condition as an explicit premise:

- No accepted destroy or reset meets a destroy or reset pending on its clone,
  except resets among themselves that all restate the snapshot it has
  (`CloningSafety.Allowed`). The code tests for none of this
  (internal/cloning/base.go:268-293, 388-419), and it does not take two users: the
  idle sweep destroys a clone that is being destroyed or reset as long as its
  session is quiet (internal/cloning/base.go:613-647, `SweepAfterDestroy`).
  `DestroySafeIff`, `IdleSafeIff` and `ResetSafeIff` show that the premise is the
  exact one: whatever it forbids has a continuation that goes wrong. They are about
  clones that can be stopped or reset at all, that is, whose dataset is there and,
  for resets, is the only one that mentions the clone's name; `StoppableAlongIff`
  says which runs keep all clones so.
- Bound ports are a superset of the ports of live sessions: an unknown pool is
  noticed only after a port has been bound (`UnknownPoolLeaksPort`, `BoundIff`), and
  a session is lost when its clone was destroyed while it was being created, or when
  a clone created again under the same ID gets the sessions of both create
  goroutines (`OrphanedIff`, `OrphanForever`).
- Deleting a clone with its decrement is one step, and so is a reset's snapshot
  swap with its two count updates.
- The size of the port pool does not change.

## Where code and documentation differ

The model follows the code:

- A comment says that the active pool cannot be updated because that leads to
  downtime (internal/provision/pool/pool_manager.go:108), but nothing excludes
  it from the choice; `ActivePoolRefreshedIff` says exactly when it is chosen.
- The restart filter increments the count also for a clone it has just dropped
  as not running (internal/cloning/storage.go:105-109); `CountsAfterFilter` says
  by how much counts are off until the next fetch.
- A reset writes the new pool into the session before the old dataset is gone
  (internal/provision/mode_local.go:254-276), and an existing clone is recognised by
  a substring (internal/provision/thinclones/zfs/zfs.go:235); `StopPossibleIff`
  and `ResetSticksIff` say exactly when a clone can no longer be stopped.
- Data states are compared as printed, with years of as many digits as they need;
  `YearsOrderedIff` and `FindsNewestIff` say for which years that is the order of
  the times.
- A reset to the latest snapshot takes the first of a list whose pools come up in
  map order (internal/provision/mode_local.go:398-419); `ResetToLatestIff` says when
  that is a newest one.
- A run returns the cause of a file system error, not the error
  (internal/retrieval/retrieval.go:212-216), so an error without a cause counts as
  success; `EmptiedPoolActivatedIff` says when a pool just emptied is
  taken into use.
- Retention looks at the origins of clones only, while `zfs destroy -R` of a pool
  snapshot also takes the snapshots of its name below the pool
  (internal/provision/thinclones/zfs/zfs.go:291, 355-357); `UserCloneLostIff`.
- A query that follows another one without an idle sample between them resets
  the counters before the finished query is reported
  (internal/estimator/profile.go:198-208); `ReportedIff`.

## Model

| member | source | states |
|---|---|---|
| `CloningSafety.RunKeeps` | internal/cloning/base.go:127-465 | in every run of interleaved creates, destroys, resets, updates, fetches and idle checks, with any command outcome, live sessions (registered, starting or orphaned) hold pairwise distinct ports inside the pool that are marked bound, each snapshot in the box counts exactly the registry clones that use it, and no goroutine works on a session that has been let go; the premise, that no accepted request meets what is pending on its clone, is the exact one by DestroySafeIff, IdleSafeIff and ResetSafeIff, and generated IDs are new |
| `CloningSafety.StepKeeps` | internal/cloning/base.go:127-465 | each single handler or goroutine step keeps the inductive invariant behind that theorem, under the same premise |
| `CloningSafety.StartsSafe` | internal/cloning/base.go:57-68 | a new engine satisfies the invariant, whatever ports are bound |
| `CloningSafety.FetchCounts` | internal/cloning/snapshots.go:25-63 | after a fetch the box holds exactly the fetched IDs, each with the number of registry clones that use it |
| `CloningSafety.DropCounts` | internal/cloning/base.go:309-313 | deleting a clone with its decrement keeps all counts exact, and the guard against negative counts does not fire |
| `CloningSafety.MoveCounts` | internal/cloning/base.go:442-446 | the snapshot swap of a reset with its two count updates keeps all counts exact, and the guard does not fire |
| `CloningSafety.RegisterCounts` | internal/cloning/base.go:172-184 | registering a new clone with its increment keeps all counts exact |
| `CloningSafety.CreateKeeps` | internal/cloning/base.go:127-207 | the create request, accepted or refused, keeps the invariant |
| `CloningSafety.ReserveKeeps` | internal/cloning/base.go:186-200 | a create goroutine that takes a port, or fails to, keeps the invariant; the new allocation is of an unbound port |
| `CloningSafety.FinishStartKeeps` | internal/cloning/base.go:186-204 | a create goroutine that finishes, well or badly and with or without its clone still registered, keeps the invariant |
| `CloningSafety.DestroyKeeps` | internal/cloning/base.go:268-293 | a destroy request keeps the invariant if it is refused or nothing is pending on the clone; otherwise see DestroySafeIff |
| `CloningSafety.FinishDestroyKeeps` | internal/cloning/base.go:295-317 | the end of a destroy, successful or failed, keeps the invariant |
| `CloningSafety.ResetKeeps` | internal/cloning/base.go:388-421 | a reset request keeps the invariant if it is refused, nothing is pending on the clone, or only resets are and all restate its snapshot; otherwise see ResetSafeIff |
| `CloningSafety.BeginResetKeeps` | internal/cloning/base.go:421-426 | a reset goroutine that notes the snapshot its clone is about to leave keeps the invariant, of which that note is a part |
| `CloningSafety.FinishResetKeeps` | internal/cloning/base.go:421-462 | the end of a reset, successful or failed, keeps the invariant |
| `CloningRuns.ProtectedRemains` | internal/cloning/base.go:268-320 | a clone that stays protected and never FATAL, with no destroy pending, is still registered as the same clone after every run of destroys, same-ID creates, resets and idle sweeps; nothing else is asked of callers but new generated IDs |
| `CloningRuns.RunIsolated` | internal/provision/mode_local.go:150-300 | over every run within the discipline, whatever other clones do, a running clone nobody works on keeps its session, its bound port, its container and its datasets; StaleDestroyHits shows what happens outside it |
| `CloningRuns.IsolatedStep` | internal/cloning/base.go:127-465 | the same for every single step from a state of such a run, within the discipline or not, unless the very ID of the clone is generated anew |
| `CloningReach.StepReaches` | internal/provision/mode_local.go:150-300 | from any state of such a run, a step, within the discipline or not, leaves port, container and datasets of every allocation alone but those of the one session its goroutine works on |
| `CloningReach.ClonesApart` | internal/provision/mode_local.go:459-500 | two registered clones with sessions have different ports, both of them bound |
| `CloningReach.LooseIff` | internal/provision/mode_local.go:153-168 | of all steps exactly a reservation with an unknown pool makes a port bound that no session holds, and none makes such a port free again |
| `CloningReach.BoundIff` | internal/provision/mode_local.go:150-234 | after every run within the discipline exactly these ports are bound: those some session holds, those bound at the start and held by none, and those leaked by a reservation with an unknown pool |
| `CloningDiscipline.DestroySafeIff` | internal/cloning/base.go:268-293 | in any reachable state, a destroy request leaves a state that is safe under every allowed continuation if and only if it is refused, or neither a destroy nor a reset of that clone is pending, which the code does not test; the session, if there is one, can be stopped at all |
| `CloningDiscipline.IdleSafeIff` | internal/cloning/base.go:590-647 | the same for a clone met by the idle sweep, which does not look at what is pending either |
| `CloningDiscipline.SweepAfterDestroy` | internal/cloning/base.go:613-647 | one destroy by a user and one idle sweep suffice: the clone being destroyed still counts as idle, its second destroy is accepted, and the state is not safe any more |
| `CloningDiscipline.DestroyLeavesStaleWork` | internal/cloning/base.go:295-313 | a destroy beside any other goroutine on its clone has a continuation, itself within the rules, after which that goroutine works on a session that has been let go |
| `CloningDiscipline.StaleDestroyHits` | internal/cloning/base.go:295-313 | such a goroutine frees the port and removes the container of the clone that has got them meanwhile |
| `CloningDiscipline.SecondDestroyBreaks` | internal/cloning/base.go:295-313 | two pending destroys also have a continuation after which a count is wrong: the second one deletes the clone that took the ID meanwhile |
| `CloningDiscipline.MixedBreaks` | internal/cloning/base.go:295-446 | so have a destroy and a reset that changes the snapshot: the reset counts a clone that has gone |
| `CloningDiscipline.ResetSafeIff` | internal/cloning/base.go:388-446 | in any reachable state, a reset request leaves a state that is safe under every allowed continuation if and only if it is refused, or no destroy of that clone is pending and no reset either unless all of them, the new one included, restate the snapshot it has; nothing but the dataset of the clone mentions its name |
| `CloningDiscipline.SecondResetBreaks` | internal/cloning/base.go:421-446 | two pending resets of which one changes the snapshot have a continuation, itself within the rules, after which a snapshot is counted once too often: both have noted the same snapshot to leave |
| `CloningDiscipline.FinishCleanReset` | internal/cloning/base.go:421-446 | when its commands succeed, a reset moves its clone to the target snapshot, and the counts from the snapshot that was noted |
| `CloningHomes.StoppableAlongIff` | internal/provision/mode_local.go:150-300 | over every run within the discipline, in a port pool whose upper bound is at most ten times its lower one and with no other dataset that mentions a clone name, all registered clones can be stopped at all times if and only if no start ends well beside a leftover dataset of its name in another pool and no reset changes the pool of a session without destroying its dataset; clones that can be stopped are then not mistaken for others either |
| `CloningHomes.HomeIff` | internal/provision/mode_local.go:150-300 | the same for every single step |
| `CloningHomes.TidyStep` | internal/provision/thinclones/zfs/zfs.go:172-197 | no step gives a clone name a second dataset, or makes a dataset that mentions the name of another clone |
| `CloningHomes.StoppableIff` | internal/provision/thinclones/zfs/zfs.go:226-236 | there, the premises of DestroySafeIff and of ResetSafeIff are the same: the dataset of the clone, if there is one, lies where its session says |
| `CloningOrphans.OrphanedIff` | internal/cloning/base.go:209-220 | of all steps, within the discipline or not, exactly these make an orphan: a create goroutine that ends well, of its own session if its clone is no longer registered, of the session that the clone of its ID has already got from another create goroutine otherwise; and a create request whose generated ID is that of a clone with a session |
| `CloningOrphans.StartOrphansIff` | internal/cloning/base.go:209-220 | the same for a create goroutine alone, for every allocation |
| `CloningOrphans.OrphanForever` | internal/cloning/base.go:285-293 | no run within the discipline ever stops such a session or frees its port, and its container and its datasets stay as they are |
| `CloneOutcomes.CreateReply` | internal/cloning/base.go:127-171 | a create is refused exactly if the ID given is taken, if there is no snapshot at all, or if the one asked for is not there |
| `CloneOutcomes.CreatedIs` | internal/cloning/base.go:127-207 | an accepted create registers a clone in state CREATING on the snapshot asked for, else on the latest, protected as asked for, and starts one goroutine; nothing else changes |
| `CloneOutcomes.ReservedIs` | internal/cloning/base.go:186-200 | the goroutine gets the first port that fits and the pool of its snapshot; exactly without a snapshot, a port or a known pool its clone is FATAL instead |
| `CloneOutcomes.StartedIs` | internal/cloning/base.go:186-226 | the end of a create goroutine: if a dataset is there or could be made, no container had the name, and container and database came up, then the container runs in the pool, a dataset is listed by the name, and the clone has the session and is OK; otherwise the clone is FATAL, its port unbound and held by nobody |
| `CloneOutcomes.StaysUp` | internal/cloning/base.go:186-226 | a clone that has come up keeps its session, its bound port and its running container over every run within the discipline that spares it, whatever other clones do |
| `CloneOutcomes.DestroyReply` | internal/cloning/base.go:268-280 | a destroy is refused exactly if there is no such clone, or it is protected and not FATAL |
| `CloneOutcomes.DestroyedIs` | internal/cloning/base.go:268-293 | an accepted destroy: a clone without a session goes at once, another one is DELETING until its goroutine is done |
| `CloneOutcomes.DestroyEnds` | internal/cloning/base.go:295-317 | the end of that goroutine: if pool, container, dataset and port let it, the clone is no longer registered and neither container nor dataset nor bound port of its session is left; otherwise it is FATAL and keeps its session and port |
| `CloneOutcomes.SweptIff` | internal/cloning/base.go:590-647 | the idle sweep destroys a clone if and only if it is not protected, not exporting, not started recently, and either has no session and is FATAL, or has been quiet with no query running; everything else it leaves alone |
| `CloneOutcomes.ResetReply` | internal/cloning/base.go:388-409 | a reset is refused exactly if there is no such clone, it has no session, or the snapshot given is not in the box |
| `CloneOutcomes.ResetGoesTo` | internal/cloning/base.go:388-462 | an accepted reset with nothing between its three steps: the clone ends on the snapshot given, on the first of the list if none is given and the latest is asked for, and on the one it had otherwise, OK in that snapshot pool with its container running; exactly if a command fails it is FATAL instead, on the snapshot it had |
| `CloneOutcomes.MovedIs` | internal/cloning/base.go:421-462 | the same for the last step from any state |
| `CloneOutcomes.ResetFindsNothing` | internal/cloning/base.go:421-440 | a reset that does not find its snapshot or does not know a pool leaves the clone FATAL with everything else as it was |
| `CloneOutcomes.UpdatedIs` | internal/cloning/base.go:353-370 | an update of a registered clone changes its protection and nothing else |
| `CloneBase.Base.constructor` | internal/cloning/base.go:57-68 | the initial state: no clones, an empty box, no goroutines |
| `CloneBase.Base.CountUsers` | internal/cloning/snapshots.go:36-43 | the loop over the registry, in any order, returns the number of clones that use the snapshot |
| `CloneBase.Base.FetchSnapshots` | internal/cloning/snapshots.go:25-63 | box and latest snapshot after the loop over the entries; nothing else changes |
| `CloneBase.Base.IncrementCloneNumber` | internal/cloning/snapshots.go:117-128 | the count of one item goes up by one; an unknown snapshot changes nothing |
| `CloneBase.Base.DecrementCloneNumber` | internal/cloning/snapshots.go:130-146 | the count of one item goes down by one, unless it is zero or the snapshot is unknown |
| `CloneBase.Base.UpdateCloneStatus` | internal/cloning/base.go:373-385 | only the status of the clone registered under the ID changes |
| `CloneBase.Base.FillCloneSession` | internal/cloning/base.go:209-226 | session and OK status go to whatever clone is registered under the ID, if any |
| `CloneBase.Base.CreateClone` | internal/cloning/base.go:127-207 | reply and whole new state of the engine for every refusal and for the accepted request |
| `CloneBase.Base.DestroyClone` | internal/cloning/base.go:268-320 | reply and whole new state, on the path without a session and on the one that spawns a goroutine |
| `CloneBase.Base.ResetClone` | internal/cloning/base.go:388-421 | reply, target snapshot and whole new state; where it leads to is said by CloneOutcomes.ResetGoesTo |
| `CloneBase.Base.UpdateClone` | internal/cloning/base.go:353-370 | only the protection of the clone changes |
| `CloneBase.Base.CheckIdleClone` | internal/cloning/base.go:590-647 | one clone of the idle sweep: destroyed exactly when it counts as idle, by the same rules as a user destroy |
| `CloneBase.Base.RunReserve` | internal/cloning/base.go:186-200 | the create goroutine up to its port, in terms of the whole engine state |
| `CloneBase.Base.RunFinishStart` | internal/cloning/base.go:186-204 | the rest of the create goroutine, in terms of the whole engine state |
| `CloneBase.Base.RunFinishDestroy` | internal/cloning/base.go:295-317 | the destroy goroutine, in terms of the whole engine state |
| `CloneBase.Base.RunBeginReset` | internal/cloning/base.go:421-426 | the reset goroutine up to its first call: it has noted the snapshot of its clone |
| `CloneBase.Base.RunFinishReset` | internal/cloning/base.go:428-455 | the reset goroutine, in terms of the whole engine state |
| `CloneBase.Base.SwapSnapshot` | internal/cloning/base.go:442-446 | the swap of the snapshot and both count updates |
| `CloneBase.Base.Handle` | internal/cloning/base.go:127-465 | the object takes every request and goroutine step as the state machine does |
| `CloneBase.Base.Serve` | internal/cloning/base.go:127-465 | over a whole run the object is the state machine; started safe and kept within the discipline, it ends safe |
| `SnapshotOrder.FetchFindsNewest` | internal/cloning/snapshots.go:31-61 | as long as the years of all data states have equally many digits (or a state has no time), after a fetch the latest snapshot is in the box, no item of the box has a newer data state, and among equally new entries the first one listed is taken |
| `SnapshotOrder.FindsNewestIff` | internal/cloning/snapshots.go:31-61 | over the years of a range the fold always leaves one of the newest entries if and only if the range does not reach the next power of ten above its beginning |
| `SnapshotOrder.LatestOfIsNewest` | internal/cloning/snapshots.go:84-90 | the fold over printed times leaves the first of the newest entries, if years have equally many digits or the time is zero |
| `SnapshotOrder.LatestByText` | internal/cloning/snapshots.go:84-90 | the fold leaves the first entry whose text is greatest in string order |
| `SnapshotOrder.ResetToLatestIff` | internal/provision/mode_local.go:398-419 | a reset to the latest snapshot takes the first of the list, gathered pool by pool in any order of the map: it lands on a newest one in every order if and only if the newest snapshots of all active pools that have snapshots are equally new |
| `SnapshotOrder.TakesNewestIff` | internal/provision/mode_local.go:303-325 | in a given order it does so exactly when no pool begins with a newer snapshot than the list |
| `TimeText.FormatTimeOrder` | pkg/util/time.go:62-66 | for years of equally many digits, string order of formatted times is the order of the times |
| `TimeText.ZeroTimeFirst` | pkg/util/time.go:62-66 | the zero time, printed with a one-digit year, comes before all times of longer years |
| `TimeText.YearsOrderedIff` | pkg/util/time.go:62-66 | string order is time order for all years of a range if and only if the range does not reach the next power of ten above its beginning |
| `TimeText.TurnOfYears` | pkg/util/time.go:62-66 | at every power of ten, such as the years 999 and 1000, which a data state label can carry, the later time does not come after the earlier one |
| `TimeText.LogFileNameOrder` | pkg/util/pglog/activity.go:21-21 | log file names are ordered as the times they carry, for all years they can carry |
| `CloneNames.CloneNameInjective` | pkg/util/clones.go:17-19 | different ports have different clone names |
| `CloneNames.NameInName` | internal/provision/thinclones/zfs/zfs.go:226-236 | one clone name occurs in another exactly when the digits of its port start those of the other |
| `CloneNames.SubstringTestExactIff` | internal/provision/thinclones/zfs/zfs.go:226-236 | the substring test tells all clones of a port pool apart if and only if the upper bound is at most ten times the lower one |
| `Provision.ListedExact` | internal/provision/thinclones/zfs/zfs.go:226-236 | under that condition, and if nothing but clone datasets mentions the name, a clone counts as existing exactly when a dataset of its very name does |
| `Provision.AllocationComplete` | internal/provision/mode_local.go:459-500 | a port is returned exactly when it is the first unbound port that passes the check with fewer than five refusals before it; no room exactly when all unbound ports, or five before any fit, were refused |
| `Provision.ReserveBindsOneFreePort` | internal/provision/mode_local.go:153-168 | the first half of a session start changes nothing, or exactly one bit, that of the first fit, and that also when the call then fails |
| `Provision.ReserveNeverUnbinds` | internal/provision/mode_local.go:153-168 | it never unbinds a port, and a port it hands out was free |
| `Provision.StartTouchesItsOwn` | internal/provision/mode_local.go:172-195 | the second half of a start, with its revert, touches only the port, container and datasets of its own clone name |
| `Provision.StopTouchesItsOwn` | internal/provision/mode_local.go:213-234 | a stop touches only the port, container and datasets of its own clone name |
| `Provision.ResetTouchesItsOwn` | internal/provision/mode_local.go:237-300 | a reset touches only container and datasets of its own clone name, and no port |
| `Provision.StartAllOrNothing` | internal/provision/mode_local.go:158-209 | when the clean-up commands succeed, a failed start leaves ports, containers and datasets exactly as before if and only if nothing had been reserved, or neither a container nor a dataset had the new name before |
| `Provision.FailedFinish` | internal/provision/mode_local.go:172-180 | the deferred revert of a failed start removes whatever container and dataset have the name, and restores the port table |
| `Provision.UnknownPoolLeaksPort` | internal/provision/mode_local.go:158-168 | a start whose pool turns out to be unknown fails and leaves bound a port that was free |
| `Provision.StopPossibleIff` | internal/provision/mode_local.go:213-234 | a session can be stopped, with whatever luck, exactly when its pool is known, its port is in range, and its dataset is in its pool or its name is not listed at all |
| `Provision.StuckStays` | internal/provision/mode_local.go:213-234 | a session that cannot be stopped stays so: every try fails and keeps the port bound |
| `Provision.FailedStopSticksIff` | internal/provision/mode_local.go:213-234 | after a failed stop a session cannot be stopped exactly when it could not before, or the dataset was destroyed although the stop failed and another name that contains the clone name is listed |
| `Provision.ResetSticksIff` | internal/provision/mode_local.go:237-300 | after any reset, successful or not, the session cannot be stopped exactly when its name is still listed elsewhere (by the old dataset, which was there in another pool and not destroyed, or by one whose name contains it) and its own pool holds no dataset of it: there was none, or the stop destroyed it, or a command of the reset failed or had nothing to destroy and the clean-up destroyed it |
| `SessionOutcomes.StartSucceedsIff` | internal/provision/mode_local.go:151-210 | a start succeeds if and only if the snapshot asked for is listed, some port fits, the pool is known, a dataset is there or could be made, no container has the name, and container and database come up; the host then differs in exactly the running container in that pool, the dataset if none was listed, and the bound port |
| `SessionOutcomes.FinishIff` | internal/provision/mode_local.go:172-195 | the same for the second half of a start, from any state |
| `SessionOutcomes.FailedFinishLeaves` | internal/provision/mode_local.go:172-180 | after a failed start the port is unbound; a container of the name is there exactly if there was one or one was made and the clean-up did not take it, and likewise the dataset |
| `SessionOutcomes.StopSucceedsIff` | internal/provision/mode_local.go:213-234 | a stop succeeds if and only if the pool is known, the container goes, the dataset is destroyed or not listed at all, and the port is one of the pool; what is left of container, dataset and port in every case |
| `SessionOutcomes.StoppedIsGone` | internal/provision/mode_local.go:213-234 | after a stop that succeeded neither container nor dataset nor bound port of the session is left |
| `SessionOutcomes.ResetSucceedsIff` | internal/provision/mode_local.go:237-300 | a reset succeeds if and only if both pools and the snapshot are known, the old container and dataset go, and a dataset, container and database come up; it returns that snapshot, the session is in its pool, and there the container runs and a dataset is listed |
| `SessionOutcomes.FailedResetLeaves` | internal/provision/mode_local.go:265-290 | after a reset that failed on the way, exactly when a container of the name and a dataset in the new pool are still there |
| `SessionOutcomes.ResetRefused` | internal/provision/mode_local.go:237-263 | a reset that finds no snapshot or does not know a pool changes nothing |
| `SessionOutcomes.ChosenIs` | internal/provision/mode_local.go:398-419 | the snapshot taken is the first one of the ID, the first of all for the empty ID, and none exactly if there is none |
| `Provisioning.Provisioner.constructor` | internal/provision/mode_local.go:77-99 | all ports of a valid pool start unbound |
| `Provisioning.Provisioner.SetPortStatus` | internal/provision/mode_local.go:521-532 | exactly the bit of a port inside the pool changes; a port outside is refused and changes nothing |
| `Provisioning.Provisioner.AllocatePort` | internal/provision/mode_local.go:459-500 | the loop finds the first fit and binds it; without one nothing changes |
| `Provisioning.Provisioner.RevisePortPool` | internal/provision/mode_local.go:422-456 | every port of the pool is bound exactly when it answers as in use |
| `Provisioning.Provisioner.CreateClone` | internal/provision/thinclones/zfs/zfs.go:172-197 | a clone whose name is listed anywhere is skipped as existing, otherwise the dataset is made, as far as the command gets |
| `Provisioning.Provisioner.DestroyClone` | internal/provision/thinclones/zfs/zfs.go:200-224 | a name not listed is skipped, a listed one without a dataset in this pool fails, otherwise the dataset goes, as far as the command gets |
| `Provisioning.Provisioner.RevertSession` | internal/provision/mode_local.go:386-396 | both clean-up commands are tried, whatever the first one says |
| `Provisioning.Provisioner.StartSession` | internal/provision/mode_local.go:151-210 | reply and whole new state of a start; it succeeds exactly as StartSucceedsIff says, and the container then runs in the pool of the snapshot on a bound port; with a clean-up that succeeds, a failed start after a reservation leaves everything as it was exactly when neither container nor dataset had the new name |
| `Provisioning.Provisioner.StopSession` | internal/provision/mode_local.go:213-234 | reply and whole new state of a stop; nothing of another clone changes, it succeeds only if the session can be stopped, and then nothing of the session is left |
| `Provisioning.Provisioner.ResetSession` | internal/provision/mode_local.go:237-300 | reply, changed session object and whole new state of a reset; it succeeds exactly as ResetSucceedsIff says, with the container running in the pool of the new snapshot; nothing of another clone and no port changes |
| `Restart.Restarter.Run` | internal/cloning/base.go:76-104 | the start succeeds if and only if the host is known, the image ready, and every managed pool can be cleaned up; then the registry holds exactly the restored entries that have a clone, a session, a status other than FATAL and a snapshot in the box, and whose container ran or could be started; they are as restored and their containers run; no container and no clone dataset but theirs is left in the managed pools; no dataset of theirs was removed; a port is bound exactly when it answered as in use; and a snapshot counts the entries, not FATAL, with clone and session that use it |
| `Restart.Restarter.RestartCloneContainers` | internal/cloning/storage.go:49-75 | afterwards a container runs exactly when it ran before, or can be started and belongs to a clone with a session |
| `Restart.Restarter.FilterRunningClones` | internal/cloning/storage.go:77-111 | in any order of the registry, exactly the surviving clones are left, and each count has grown by the clones that reached the running check; KeptIff and ReachedIs say which these are |
| `Restart.KeptIff` | internal/cloning/storage.go:49-111 | an entry survives if and only if it has clone, session and snapshot, is not FATAL, the snapshot is in the box, and its container ran before the restart or could be started |
| `Restart.ReachedIs` | internal/cloning/storage.go:84-109 | counted for a snapshot are the entries that use it, with clone and session and not FATAL, whether they run or not |
| `Restart.CleanedIff` | internal/provision/mode_local.go:545-585 | cleaned means that every container and every clone dataset in the pools has the name of a kept clone |
| `Restart.CountsAfterFilter` | internal/cloning/storage.go:105-109 | that number is the kept clones plus the clones just dropped as not running |
| `Restart.CountsFromZero` | internal/cloning/base.go:81-91 | since the box was fetched before the registry was restored, the count after the filter is that number itself |
| `Restart.Restarter.CleanupInvalidClones` | internal/provision/mode_local.go:535-542 | over all pools in any order: only foreign containers and clone datasets are removed, and it succeeds, with none left, if and only if all pools can be listed and nothing foreign is stuck |
| `Restart.Restarter.StopPoolSessions` | internal/provision/mode_local.go:545-585 | the same for one pool |
| `Restart.KeptUntouched` | internal/cloning/base.go:106-124 | the clean-up leaves every kept clone running and its datasets in place |
| `Restart.RestartResumesIff` | internal/cloning/base.go:76-104 | a restart after any safe run leads, with the next fetch, to a state with exact counts and exclusive ports from which every run is safe again, if and only if the ports of all kept clones are bound |
| `Restart.Restarter.RunSaved` | internal/cloning/base.go:76-104 | for the state that Run leaves from what the engine saved: the registry has exactly the clones of the engine that are not FATAL, have session and snapshot in the box, and whose container ran or could be started, each as it was; and the resumed engine is safe again after its first fetch if and only if the port of every kept clone lies in the pool and answered as in use |
| `ZfsRetention.UserCloneLostIff` | internal/provision/thinclones/zfs/zfs.go:342-411 | on every dataset graph where user clones come from the pool dataset or from a system clone as the retrieval jobs make them, a clean-up in which some destroys may fail loses a user clone if and only if some destroy that works is of a snapshot with the name of an origin (of the clone, or of a user clone it lies in) in a dataset above that of the origin: `zfs destroy -R` takes snapshots of the same name in all datasets below, with all that depends on them over any number of steps |
| `ZfsRetention.CleanupSparesUserClones` | internal/provision/thinclones/zfs/zfs.go:502-504 | so no user clone is lost when the snapshots destroyed end in the suffix that keeps snapshots from being offered for cloning, as the `_pre` of the physical job and of the shipped configurations |
| `ZfsRetention.SameNameTakesUserClone` | internal/provision/thinclones/zfs/zfs.go:291-291 | without that a clone can be lost: one made from the copy of a pool snapshot that `zfs snapshot -r` left in a system clone, in a graph of which ExampleIsWellBuilt, ExampleOrigins, ExampleLists and ExampleListing prove the other premises |
| `ZfsRetention.PoolSnapshotGoneIff` | internal/provision/thinclones/zfs/zfs.go:342-365 | the exact fate of every snapshot of the pool dataset: it is gone after the clean-up if and only if its line has no clone in its text and at least as many such lines behind it as the retention limit, no snapshot that a user clone rests on occurs in it, and its own destroy works |
| `ZfsRetention.CandidateIff` | internal/provision/thinclones/zfs/zfs.go:352-357 | what is destroyed: exactly the lines without clone that have at least the limit of such lines behind them and in which no busy snapshot occurs |
| `ZfsRetention.BusyIff` | internal/provision/thinclones/zfs/zfs.go:367-401 | busy are exactly the origins of the datasets user clones were made in, and the empty text for clones of the pool itself |
| `ZfsRetention.CleanupKeepsNewestByKey` | internal/provision/thinclones/zfs/zfs.go:352-357 | with the listing sorted by data state and creation: every pool snapshot whose name does not contain the word clone, and of which at most as many as the retention limit, itself included, are not older, survives |
| `ZfsRetention.CleanupKeepsNewest` | internal/provision/thinclones/zfs/zfs.go:352-357 | the same by position: the last lines of the filtered listing survive as far as they are pool snapshots |
| `ZfsRetention.CloneOfPoolBlocksCleanup` | internal/provision/thinclones/zfs/zfs.go:396-411 | a user clone made straight from a pool snapshot gives an empty alternative, and nothing is destroyed at all |
| `ZfsRetention.CleanupRemovesTheRest` | internal/provision/thinclones/zfs/zfs.go:352-357 | a snapshot beyond the limit that no alternative matches is gone afterwards, unless its own destroy failed; PoolSnapshotGoneIff is the exact form |
| `ZfsRetention.NothingSacredTaken` | internal/provision/thinclones/zfs/zfs.go:331-339 | however far it reaches, a destroy of a candidate takes along no user clone, no dataset such a clone comes from and no other pool snapshot, for any set of clones (closed under the clones they lie in) none of whose origins it names |
| `ZfsRetention.DestroyAllWhole` | internal/provision/thinclones/zfs/zfs.go:331-339 | after all destroys no clone is without its origin, no snapshot without its dataset, and no dataset below one that is gone |
| `ZfsRetention.CandidateIsFree` | internal/provision/thinclones/zfs/zfs.go:367-411 | a snapshot that passes both filters is the origin of no user clone and of no dataset a user clone comes from |
| `ZfsManagement.Manager.GetBusySnapshotList` | internal/provision/thinclones/zfs/zfs.go:367-401 | the two loops return one entry for every dataset user clones come from: the snapshot it was made from, or the empty text |
| `ZfsManagement.Manager.CleanupSnapshots` | internal/provision/thinclones/zfs/zfs.go:342-365 | the storage after the call is what is left of the graph after destroying the filtered list; of the pool snapshots exactly those PoolSnapshotGoneIff names are gone |
| `PoolQueue.PoolToUpdateIs` | internal/provision/pool/pool_manager.go:117-137 | an element is chosen exactly when its pool has answered with no clones and every pool behind it has answered with some |
| `PoolQueue.RoundRobin` | internal/retrieval/retrieval.go:418-478 | in every run of successful refreshes over a fixed set of idle pools, each window of as many refreshes as there are idle pools makes each of them active exactly once, whatever busy pools stand between them |
| `PoolQueue.RefreshTurns` | internal/retrieval/retrieval.go:418-478 | one such refresh puts its pool at the front as active, turns the order of the idle pools by one place and keeps the order of every set of other pools |
| `PoolQueue.TakesIff` | internal/retrieval/retrieval.go:418-478 | the pool of refresh number t is the idle pool at place t modulo n from the back of the starting order |
| `PoolQueue.FullRefreshIs` | internal/retrieval/retrieval.go:203-252 | with or without jobs, a successful refresh moves exactly the last idle pool to the front and changes no other status |
| `PoolQueue.PreparedIs` | internal/retrieval/retrieval.go:517-545 | a pool is prepared exactly if it still has no clones and all its snapshots can be listed and destroyed; otherwise those before the first that could not are gone |
| `PoolQueue.RefreshStartsIff` | internal/retrieval/retrieval.go:418-478 | exactly when a refresh starts jobs, what the service then looks like, and exactly when it is skipped |
| `PoolQueue.FailedRefresh` | internal/retrieval/retrieval.go:418-478 | a refresh that fails on the way has lost the snapshots it destroyed and changed nothing else |
| `PoolQueue.JobsEnd` | internal/retrieval/retrieval.go:230-252 | when the jobs succeed their pool is active at the front with the snapshots made, and the others keep their order; when they fail it is empty where it was, and the retrieval has failed |
| `PoolQueue.InitialIs` | internal/retrieval/retrieval.go:124-201 | the retrieval at start-up takes the pool in front if that is empty or the mode is not logical, else the pool a refresh would choose; without one it is skipped if the pool in front is active, and fails otherwise; reply and new state in every case |
| `PoolQueue.StepKeeps` | internal/retrieval/retrieval.go:203-252 | every step of a refresh, failed or not, keeps the queue a permutation, and exactly the pool whose jobs run is marked as refreshing |
| `PoolQueue.Run` | internal/retrieval/retrieval.go:418-478 | the same over every run of start-up retrievals, timetable refreshes and ends of jobs |
| `PoolQueue.OnlyIdlePoolTouched` | internal/retrieval/retrieval.go:517-545 | a pool keeps its status and its snapshots unless it was chosen and both listings found it without clones |
| `PoolQueue.ActivePoolRefreshedIff` | internal/provision/pool/pool_manager.go:117-137 | the pool in use is the one refreshed exactly when it has no clones and all others have; if the jobs then fail, the front pool counts as empty |
| `PoolQueue.EmptiedPoolActivatedIff` | internal/retrieval/retrieval.go:212-216 | a refresh that finds its pool unusable counts as done exactly when the file system error has no cause, as for missing pool entries, and a pool was chosen and emptied: that pool is then in use at the front without a snapshot; otherwise no pool changes place or status |
| `PoolManagement.PoolManager.MakeActive` | internal/provision/pool/pool_manager.go:73-79 | the element is at the front, its pool active, the others in order |
| `PoolManagement.PoolManager.GetPoolByName` | internal/provision/pool/pool_manager.go:101-115 | the first element of the name, none exactly when the name is not queued |
| `PoolManagement.PoolManager.GetPoolToUpdate` | internal/provision/pool/pool_manager.go:117-137 | the backward loop finds the element PoolToUpdateIs describes |
| `PoolManagement.PoolManager.GetActiveFSManagers` | internal/provision/pool/pool_manager.go:197-211 | in any order of the map, each active pool once and no other |
| `PoolManagement.Retrieval.FullRefresh` | internal/retrieval/retrieval.go:418-478 | reply and whole new state up to the start of the jobs |
| `PoolManagement.Retrieval.PreparePoolToRefresh` | internal/retrieval/retrieval.go:517-545 | success exactly when the pool has no clones and all its snapshots could be destroyed; otherwise the snapshots left |
| `PoolManagement.Retrieval.StartRun` | internal/retrieval/retrieval.go:203-234 | reply and whole new state of a run until its jobs start, with the file system errors that count as success |
| `PoolManagement.Retrieval.JobsDone` | internal/retrieval/retrieval.go:230-252 | on success the pool is active at the front, on failure it counts as empty and the queue is as before |
| `PoolManagement.Retrieval.GetPoolToDataRetrieving` | internal/retrieval/retrieval.go:169-201 | the pool of the retrieval at start-up, or that none is needed or found |
| `PoolManagement.Retrieval.InitialRun` | internal/retrieval/retrieval.go:124-166 | reply and whole new state of the retrieval at start-up |
| `PoolDiscovery.DiscoveryIff` | internal/provision/pool/pool_manager.go:256-348 | every accepted pool is listed once with the newest data state at the front if and only if no two entries have the same pool name; the manager map then holds each of them |
| `PoolDiscovery.AcceptedIff` | internal/provision/pool/pool_manager.go:264-348 | the pools found are exactly those as which some entry is accepted, with the pool names that the first ZFS entry before it could list |
| `PoolDiscovery.ClassifyIs` | internal/provision/pool/pool_manager.go:264-330 | which entries are accepted, under what name, with what data state and status |
| `PoolDiscovery.ListedElements` | internal/provision/pool/pool_manager.go:332-344 | the queue is always a permutation of the accepted names, and the map knows exactly these names |
| `PoolDiscovery.FrontIsNewestIff` | internal/provision/pool/pool_manager.go:332-344 | the front of the queue is the newest pool if and only if no newer pool is found for the last time before the leading entry: going through the entries once, an entry takes the lead if it has the name of the leader or is newer |
| `PoolDiscovery.LeaderIsFront` | internal/provision/pool/pool_manager.go:332-344 | the pool at the front is that of the leading entry |
| `PoolDiscovery.SharedNameMisleads` | internal/provision/pool/pool_manager.go:256-348 | three directories, two of them of one ZFS pool, after which the front is not the newest pool |
| `PoolDiscovery.DiscoveredIsReady` | internal/provision/pool/pool_manager.go:229-254 | the refresher after discovery is ready for its rounds exactly when no pool name repeats |
| `PoolDiscovery.ExamineEntry` | internal/provision/pool/pool_manager.go:264-330 | which entries are refused, and the name, data state and status of an accepted pool; ZFS names are listed when first needed, and again while none are known |
| `PoolDiscovery.ExamineEntries` | internal/provision/pool/pool_manager.go:256-348 | the loop yields the map and queue these lemmas are about |
| `PgConfig.RoundTripIff` | internal/provision/databases/postgres/pgconfig/configuration.go:470-542 | for every iteration order, reading what was written gives the map back if and only if keys are trimmed and free of = and newlines, and values are free of newlines and have no quote at either end |
| `PgConfig.AppendOverridesIff` | internal/provision/databases/postgres/pgconfig/configuration.go:489-542 | after appending to any file, reading gives the earlier reading overridden by the new map, under exactly the same condition |
| `PgConfig.ReadConcat` | internal/provision/databases/postgres/pgconfig/configuration.go:526-539 | reading a text after another one and a newline is reading the second on top of the first |
| `PgConfig.ReadIsWellFormed` | internal/provision/databases/postgres/pgconfig/configuration.go:526-539 | whatever a file holds, what is read from it can be written and read back |
| `PgConfig.LineSays` | internal/provision/databases/postgres/pgconfig/configuration.go:526-539 | a line sets the key before its first = to the value after it, whatever space is around key and value, whatever single quotes are around the value, and with or without a carriage return at its end |
| `PgConfig.LineSaysNothing` | internal/provision/databases/postgres/pgconfig/configuration.go:529-531 | a line without = says nothing |
| `PgConfig.TrimIs` | internal/provision/databases/postgres/pgconfig/configuration.go:535-538 | trimming takes away exactly the cut characters at both ends |
| `PgConfig.TrimSound` | internal/provision/databases/postgres/pgconfig/configuration.go:535-538 | trimming leaves a part with no cut character at either end, and leaves such texts alone |
| `PgConfigManagement.Manager.RenderLines` | internal/provision/databases/postgres/pgconfig/configuration.go:470-480 | the loop renders the map in some order in which every key occurs once |
| `PgConfigManagement.Manager.RenderedLines` | internal/provision/databases/postgres/pgconfig/configuration.go:470-486 | one line for each key, in the order in which the map is walked |
| `PgConfigManagement.Manager.RewriteConfig` | internal/provision/databases/postgres/pgconfig/configuration.go:470-487 | afterwards the file reads back as the map if and only if the map is well-formed; no other file changes |
| `PgConfigManagement.Manager.AppendExtraConf` | internal/provision/databases/postgres/pgconfig/configuration.go:489-505 | the file goes on as before and then reads as its earlier content overridden by the map, if and only if the map is well-formed; no other file changes |
| `PgConfigManagement.Manager.ReadConfig` | internal/provision/databases/postgres/pgconfig/configuration.go:513-542 | the reading of the file, line by line; a file that cannot be opened reads as no parameters |
| `PgAdjust.IdempotentIff` | internal/provision/databases/postgres/pgconfig/configuration.go:247-287 | a second run changes nothing if and only if the file already carried the label or no comment of the source names a beginning of the label |
| `PgAdjust.FirstRunShape` | internal/provision/databases/postgres/pgconfig/configuration.go:247-282 | after a first run: the label, every old line in order, as it was or with exactly one # added, and then the active source lines by the same rule |
| `PgAdjust.CommentedComeLater` | internal/provision/databases/postgres/pgconfig/configuration.go:258-282 | a line of the result that starts with a commented parameter is an active source line that stands after that comment |
| `PgAdjust.MarkedOnce` | internal/provision/databases/postgres/pgconfig/configuration.go:264-272 | a line gets one # if any comment of the source matches it, and never more |
| `PgAdjust.ApplySourceIs` | internal/provision/databases/postgres/pgconfig/configuration.go:258-282 | the result of the loop, line by line: old lines under all comments, active lines under the comments after them |
| `PgAdjust.LineKinds` | internal/provision/databases/postgres/pgconfig/configuration.go:258-282 | a line that begins with one # comments a parameter out; appended is exactly a line with something other than space in it that does not begin with # |
| `PgAdjust.ParamIs` | internal/provision/databases/postgres/pgconfig/configuration.go:262-265 | the parameter of a comment is what follows the #, without the space around it |
| `PgAdjust.SplitJoin` | internal/provision/databases/postgres/pgconfig/configuration.go:247-282 | splitting what was joined gives the lines back |
| `PgConfigManagement.Manager.AdjustGeneralConfigs` | internal/provision/databases/postgres/pgconfig/configuration.go:227-294 | the file is replaced by its text adjusted by the control file and no other file changes; if either of them is missing, that is an error and nothing changes |
| `PgConfigManagement.Manager.ShiftLabelIn` | internal/provision/databases/postgres/pgconfig/configuration.go:250-256 | the shift in place puts the label before all lines |
| `PgConfigManagement.Manager.CommentLines` | internal/provision/databases/postgres/pgconfig/configuration.go:267-271 | the loop over the lines marks exactly those that start with the parameter |
| `LogSearch.CutIsInvisible` | pkg/util/pglog/activity.go:105-124 | if every file ends before the next one starts, the list is never emptied, and the search over all files finds what the search over the files kept finds, unless a file left out holds a fault, at the first of which it stops |
| `LogSearch.OneFileTooMany` | pkg/util/pglog/activity.go:105-124 | the cut is one file shorter than it could be: if any file is out of date, so is the first one kept, and no other |
| `LogSearch.NoMinimumNoCut` | pkg/util/pglog/activity.go:105-110 | without a minimum time no file is left out |
| `LogSearch.SearchConcat` | internal/provision/mode_local.go:618-637 | searching two lists of files is searching the second where the first finds nothing |
| `LogSearch.ScanRowsIs` | internal/provision/mode_local.go:654-687 | a file says what the first row says that is unreadable, too short, activity without a time, or activity not before the minimum; it says nothing exactly if there is no such row |
| `LogSearch.SearchIs` | internal/provision/mode_local.go:618-637 | the search says what the first file says that says anything, and a file that cannot be opened is a fault |
| `LogSearch.Selector.Next` | pkg/util/pglog/activity.go:89-102 | the files one by one, then that there are no more, or at once that there are none |
| `LogSearch.Selector.FilterOldFilesInList` | pkg/util/pglog/activity.go:105-124 | the loop cuts the list as CutIsInvisible says |
| `LogSearch.ScanCSVLogFile` | internal/provision/mode_local.go:644-687 | the first recent activity, or the first fault before it, or that there is neither |
| `LogSearch.SearchFiles` | internal/provision/mode_local.go:618-640 | the loop over the files kept is the search over their list |
| `LogSearch.LastSessionActivity` | internal/provision/mode_local.go:603-640 | the search over the files kept |
| `CloneLog.ReportedIsFilterIff` | internal/observer/observer.go:83-189 | the log is the plain filter of all entries of the session if and only if the scan does not fail and no wanted entry stands behind the first one after the session |
| `CloneLog.InOrderIsFilter` | internal/observer/observer.go:83-189 | if times do not go back over the ordered files, the log is the plain filter whenever it does not fail, and it fails only at a row that cannot be read, is too short or has no time |
| `CloneLog.FailsIff` | internal/observer/observer.go:83-189 | the request fails exactly with the first row that is broken, too short, or an entry without a time that is not the one of the observer, if no entry from after the session stands before it |
| `CloneLog.LogIs` | internal/observer/observer.go:83-189 | otherwise the log is the masked entries from within the session, in order, up to the first one from after it |
| `CloneLog.ScanIsPrefix` | internal/observer/observer.go:141-189 | a scan reports exactly the wanted entries before its end, masked and in order, and says why it ended |
| `CloneLog.ScanConcat` | internal/observer/observer.go:101-117 | scanning file after file is scanning all rows |
| `CloneLog.MaskedColumns` | internal/observer/observer.go:191-197 | exactly the named columns are masked, each once by all rules in order |
| `CloneLog.RulesInOrder` | internal/observer/observer.go:191-197 | all rules are applied, one after the other |
| `CloneLog.MaskLogs` | internal/observer/observer.go:191-197 | the entry masked in place |
| `CloneLog.ScanCSVLogFile` | internal/observer/observer.go:141-189 | the loop over one file; a row without an application name column, on which the source panics, is a fault of its own |
| `CloneLog.GetCloneLog` | internal/observer/observer.go:83-120 | the loop over the files, which stops for good at the first entry after the session |
| `Estimator.StretchTelescopes` | internal/estimator/profile.go:198-216 | within a stretch of one state change time the durations of all events grow by the last sample duration minus the one before the stretch, every sample counts and nothing is reported |
| `Estimator.StretchCharges` | internal/estimator/profile.go:236-243 | within a stretch each event is charged with the time before exactly those samples that wait for it |
| `Estimator.CountedInFull` | internal/estimator/profile.go:180-188 | a query running from the first sample on is counted in full: durations add up to its last duration and percentages to 100 |
| `Estimator.EventsInFull` | internal/estimator/profile.go:180-248 | for a query running from the first sample on there is an entry for exactly the events some sample waits for (the empty text being Running), with the sum of the time before just those samples, and its percentage is that share of the last duration |
| `Estimator.CountedFromChange` | internal/estimator/profile.go:198-216 | a query first seen at a change of state is counted from that sample on: its own duration is missing from the sum and its share from the 100 percent |
| `Estimator.EventsFromChange` | internal/estimator/profile.go:198-248 | the same for a query first seen later, where the sample that shows the change is charged to nothing |
| `Estimator.IdleStart` | internal/estimator/profile.go:180-188 | nothing is counted of a first sample that is not active |
| `Estimator.PercentsSum` | internal/estimator/profile.go:244-248 | after a count the percentages are finite and add up to the counted share of the current duration, unless that is zero |
| `Estimator.ReportedIff` | internal/estimator/profile.go:198-208 | a finished query is reported exactly when something was counted and the next state seen is not active again |
| `Estimator.ChangeIs` | internal/estimator/profile.go:198-208 | at a change of state what was counted is dropped exactly if the old or the new state is active, and reported before exactly if the old one was and the new one is not and something was counted |
| `Estimator.SharesPartition` | internal/estimator/timing.go:39-50 | read, write and normal share add up to the sum of all percentages |
| `Estimator.ReadingCounts` | internal/estimator/timing.go:61-76 | a percent of reading counts in the maximum alone, divided by the read ratio and the measured one, if there is one |
| `Estimator.WritingCounts` | internal/estimator/timing.go:61-76 | a percent of writing counts in both estimates, divided by the write ratio |
| `Estimator.NormalCounts` | internal/estimator/timing.go:61-76 | a percent of other time counts in both as it is; with NothingEstimated this fixes both estimates |
| `Estimator.NothingEstimated` | internal/estimator/timing.go:61-76 | without any share both estimates are zero |
| `Estimator.MinWithinMaxIff` | internal/estimator/timing.go:61-76 | for positive ratios and elapsed time the minimum is within the maximum exactly when the read share is not negative |
| `Estimator.MinWithinMax` | internal/estimator/timing.go:61-76 | so it is whenever no event has a negative percentage |
| `Estimator.SampledMinWithinMax` | internal/estimator/profile.go:230-248 | and it is so for the percentages of every stretch of samples whose durations do not go back, whether counted from the first sample or from a change of state |
| `Estimator.UnitRatiosIff` | internal/estimator/timing.go:66-76 | with unit ratios the maximum is the elapsed time exactly when the shares add up to 100 or no time has elapsed |
| `Estimator.UnitEstimateIsDuration` | internal/estimator/profile.go:341-360 | from samples to estimate: a query counted in full is estimated, with unit ratios, at its own duration |
| `Sums.SumUpdate` | internal/estimator/profile.go:270-278 | the sum over a map does not depend on the order of its keys: changing one entry changes it by the difference |
| `Sums.SumShares` | internal/estimator/profile.go:244-248 | the percentages of the parts add up to the percentage of their sum |
| `Profiling.Profiler.CountWaitings` | internal/estimator/profile.go:235-251 | durations, percentages and counter after one sample, whatever the order of the events; which event is charged is said by StretchCharges and EventsInFull |
| `Profiling.Profiler.Start` | internal/estimator/profile.go:160-219 | the sampling loop over all answers of the backend, with the report at the end of the process |
| `Profiling.RowsAre` | internal/estimator/profile.go:160-178 | the samples counted are those before the first answer that is none, and the last report is due exactly if that answer is that the process has gone |
| `Profiling.Profiler.SampleOnce` | internal/estimator/profile.go:178-217 | start, change of state, or one more count |
| `Profiling.Profiler.TotalTime` | internal/estimator/profile.go:270-278 | the total is the sum of all durations, in any order |
| `Profiling.ShareOut` | internal/estimator/timing.go:33-53 | the loop over the events, in any order, yields the three shares |
| `Profiling.TimingEstimator.constructor` | internal/estimator/timing.go:33-53 | a new estimator holds the three shares and no measured read ratio |
| `Profiling.TimingEstimator.SetRealReadRatio` | internal/estimator/timing.go:56-58 | only the measured read ratio changes |

## Left out

- Clone wrappers are entries of an explicit store that goroutines refer to by number, not heap objects; sharing of one wrapper by the registry and several goroutines is modelled, reading a half-updated wrapper is not.
- A session start has two steps (port, then commands), a reset two (noting the old snapshot, then the rest), a stop one; races inside a step are not modelled.
- A fetch of snapshots that fails changes nothing, so it is no step of the model.
- Trimming of clone IDs, clone metadata, connection strings, telemetry, and the observing channel do not affect the properties and are not part of the model.
- Saving and loading the registry is the identity on well-formed state; the session counter is not modelled.
- `zfs list` is modelled by dataset names alone, not by its mount point and size columns; regular expressions of `grep -Ev` are plain substrings, as snapshot names have no special characters beyond dots and dashes.
- The LVM manager is left out; the ZFS one behaves alike for the registry.
- In the session model a dataset is its pool and its name; its contents and its origin are not modelled there (the retention model has origins).
- Writes of configuration files do not fail in the model; a failed write is an error return without a promise about the file.
- The scanner's limit on line length, time zones other than UTC, and leap seconds are not modelled.
- Rounding, infinities and NaN of floating point are not modelled: estimates are over real numbers, a percentage of a zero duration is a value of its own, and ratios of zero are outside the timing functions.
- Reloading the configuration of the port pool or the pools, and the time between the check for clones and the refreshing status, are not modelled.
- HTTP routes, the command line, the platform client, SQL, dump and restore jobs are not part of this model.
- CloningSafety.RunKeeps: asks that no accepted request meets what is pending on its clone, which the code does not enforce; outside that it does not hold, as CloningDiscipline shows.
- CloningRuns.RunIsolated: asks for the same discipline, for the same reason.
- Provisioning.Provisioner.DestroyClone: datasets that depend on snapshots of the clone do not go with it, because the session model has no snapshots; in the retention model they do.
- LogSearch.LastSessionActivity: starts from the files found, after the pool lookup and the search for the log directory.
- CloningDiscipline.DestroySafeIff: for a clone that can be stopped; StoppableAlongIff says which runs keep all clones so.
- CloningDiscipline.ResetSafeIff: for a clone whose name no other dataset mentions; StoppableAlongIff says which runs keep all clones so.
- SnapshotOrder.FetchFindsNewest: for years of equally many digits, because it fails beyond them; FindsNewestIff is exact.
- ZfsRetention.UserCloneLostIff: a graph where user clones come from other datasets than the jobs make, or where a listed snapshot lies outside the pool, is not covered.
- ZfsRetention.CleanupKeepsNewestByKey: speaks of snapshots of the pool dataset only; snapshots of its children can go with the snapshot their dataset was cloned from, or with one of their name above them.
