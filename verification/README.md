# Verified model of the game hosting control plane

This project models, in Dafny, the parts of the platform whose correctness spans many functions,
and proves what they are for. `dafny verify dfyconfig.toml` checks all of it.

## What is modelled

**The life cycle of game instances** (`Entities`, `Lifecycle`, `LifecycleInvariant`, `LifecycleRuns`,
`LifecycleTransitions`, `LifecycleTermination`, `LifecycleSubscriptions`, `LifecycleLimits`,
`LifecycleScenarios`, `LifecycleFailures`, `Controller`). `Lifecycle.Step` says what one event does to
the controller's tables: a user call (create, start, retry, stop, cancel, delete), a dispatch of the
instance's own worker, the end of a poll, a queue wake-up or clean-up, a health inspection, or the
passing of time. RPC outcomes and the scheduler's choice are part of the event, so a statement over all
runs covers every pattern of failures. `Controller.ReconcileDispatcher` is the object with the
dispatcher's own maps and methods; each of its methods is proved to make the tables show the
corresponding step. The invariant and the termination measure are proved over all runs; the diagram of
states, as a table of arrows independent of `Step`, and what each event leaves behind are in `LifecycleTransitions`.
`LifecycleScenarios` and `LifecycleFailures` exhibit the runs on which a promise fails. The database's
unique index over subscriptions is part of the model: it can refuse a save.

**Reservations and back-off** (`MachineInts`, `Resources`, `Sums`, `Backoff`): capacity limits, requests,
the recheck inside the reservation transaction, the unsigned disk budget and the doubling delay, with
int64 and uint64 wrap-around written out.

**Host ports** (`PortTable`, `PortPlan`, `PortMapper`): `PortPlan` defines first fit, the contiguous block
and the three planning modes and proves them fresh and exact; `PortMapper` holds the mutable maps and
nested loops and is proved to compute those plans. Container ports are uint16 throughout, so excerpts
that pass 65535 wrap as they do in the code.

**Credentials** (`Credentials`): the pool, the repository calls as atomic steps interleaved in any order,
and the allocation and release methods.

**The dispatch queue** (`DispatchQueue`): bounded channel, overflow list and single consumer.

**The scheduler** (`TextOrder`, `RealArith`, `Scoring`, `Scheduler`, `ScheduleAttempts`, `ResourceScheduler`,
`SchedulingLink`): hard
constraints, scores over reals, the choice, the retry loop and the classification of attempts that found
no node. `ScheduleAttempts.Decide` is the decision with every reserve call it makes;
`ResourceScheduler` holds the candidates that are filtered, scored and sorted in place, and
`SchedulingLink` shows that a scheduled answer is a step of the life cycle.

**Cache replicas** (`CacheReplicas`, `CacheManager`): what one reconcile pass may do, whatever the map
iteration order and the failing RPCs; demand counting; branch synchronization.

**Build versions** (`VersionOrder`, `BuildRegistry`): tag parsing and order, registering, resolving.

**Frames** (`FrameStream`): the message framing of section 55.7 of the PostgreSQL 16 documentation, cut
out of a byte stream, and the hand-over between messages and pending reads.

**Pressure** (`PressureMonitor`): the hysteresis, characterized from the samples alone.

**The resource predictor** (`Predictor`): smoothing, percentiles, trends and the chain of checks, over reals.

## What turned out false, and exactly when it holds

Each line names the statement that gives the exact condition, and the run or input that shows the failure.

- Deleting a running instance leaks its reservation; the guard admits it although its comment forbids it
  (`LifecycleLimits.DeleteConservesIffNotRunning`).
- The stale-reservation reaper releases without unbinding, which breaks conservation and makes a start
  failure look like a stop failure (`LifecycleLimits.ReaperBreaksConservation`, `ReaperFakesStopFailure`),
  against the comment at `IsStopFailure`.
- The subscription index exempts numbers 8 and 10, but 10 has become cache warming and failed is 11
  (`Entities.IndexDrift`). One active instance per subscription still holds
  (`LifecycleSubscriptions.SingleActiveOverEveryRun`), but a start that found the subscription free is
  refused exactly when another instance of it has failed (`LifecycleSubscriptions.FreeSlotRefusedIff`; the
  run is `LifecycleFailures.FailedBlocksSubscription`).
- The check exempts the empty subscription id and the index does not, so saves of the dispatcher, whose
  errors it ignores, can be refused exactly for that id (`LifecycleFailures.EverySaveAcceptedIff`,
  `BlankIdsMeetInIndex`).
- The waker drops the queue row of an instance that is just scheduling, so its timeout starts over: the
  work of a start is bounded exactly as far as such sweeps are (`LifecycleTermination.WorkIsBoundedByRank`,
  `SweepsKeepItGoing`).
- An offline mark survives a stop and decides the first failed inspection of the next run
  (`LifecycleLimits.StaleMarkFencesIff`; the run is `LifecycleScenarios.OldMarkFencesFromScratch`).
- A failed instance keeps its port rows. A HOST instance blocks itself: planning fails exactly when a
  demanded port is taken, its own rows included (`PortPlan.HostPlanFailsIffTaken`,
  `LifecycleLimits.FailedHostInstanceCannotReturn`; the run is `LifecycleScenarios.HostFailureFromScratch`).
  An injected one is announced under its new block exactly when its older rows flag nothing else first
  (`PortMapper.NewBlockNamedIff`, and for any row order `EveryListingNamesNewBlockIff`); on the same agent
  that is when they flag nothing (`PortMapper.ReplanNamedIffNothingFlagged`; the run is
  `LifecycleFailures.InjectedReplanFromScratch`).
- In injected mode an excerpt that reaches port 65535 is not served at all (`PortPlan.BlockServesAllIff`,
  `LastPortGetsNoRow`).
- First fit over mixed protocols can fail although a plan exists (`PortPlan.MixedDemandFailsNeedlessly`). It
  is exact when all ports want one protocol (`PortPlan.OneProtocolPlanExistsIffEnoughFree`) or all want
  both (`PortPlan.SharedPlanExistsIffEnoughFree`).
- A failed stop forgets an explicitly requested size (`LifecycleLimits.OverrideLostIffStopFails`; the run is
  `LifecycleFailures.OverrideLostFromScratch`).
- Back-off overflows for some caps above half the int64 range (`Backoff.BackoffExact`,
  `BackoffOfHalfRange`).
- An empty pool name breaks "at most one credential per game and kind"
  (`Credentials.AllocationIsExclusiveIffPoolNamed`); the pool is also listed newest first, not in the
  first-in-first-out order its comment names.
- The frequency range depends on candidate order when some frequencies are unknown
  (`Scheduler.ScoresIgnoreOrderIff` for scores, `Scheduler.ChoiceIgnoresOrderIff` for the chosen node,
  `ScheduleAttempts.DecisionIgnoresOrderIff` for the whole decision;
  the nodes are in `ScheduleAttempts.UnknownFrequencyDecidesByPosition`).
- The forced-region switch is no constraint: it changes the decision exactly when a round that is reached
  finds no eligible node and no node of the region (`ScheduleAttempts.RegionForceMattersIff`; a placement
  outside is `PlacedOutsideForcedRegion`), and a stale heartbeat counts as recoverable (`Scheduler.RecoverableIff`).
- A second reconcile pass can still delete after a cooldown or when a serving node had no copy
  (`CacheReplicas.SecondPassIdleIff`, `UncoveredServingNodeDelaysDelete`).
- Uploading a superseded tag again leaves two current builds (`BuildRegistry.OneCurrentKeptIff`,
  `ReuploadLeavesTwoCurrent`), and
  channels share build ids exactly when what stands before the tag in one is a prefix of it in the other
  (`BuildRegistry.IdsCollideIff`, `DashedNamesCollide`).
- Messages of 2^24 bytes and more are misread (`FrameStream.RoundTripIff`), and a timed-out read swallows
  a message (`FrameStream.LostIffExpiredReadInLine`).
- A warning threshold above 95 can end up above the critical one (`PressureMonitor.InvertedIff`).
- A status stored before the monitor started stands until the first alarm or recovery
  (`PressureMonitor.StoredStatusStandsUntilDecided`).
- The instant CPU limit, named a block threshold, never blocks (`Predictor.InstantLimitNeverBlocks`), the
  smoothed memory usage never decides (`Predictor.MemoryUsageNeverDecides`), and a negative CPU threshold
  turns the risk grade round (`Predictor.RiskMonotoneIff`, `AllowedYetCriticalIff`).


## Model

| member | source | states |
|---|---|---|
| `LifecycleRuns.InvOverEveryRun` | controller-go/internal/biz/reconcile_dispatcher.go:232-669 | over every run of user calls, dispatches, poll outcomes, wake-ups and inspections the whole invariant holds: reserved counters equal the bound requests, no overcommit, no shared host port, credentials only with starting to cleaning instances, exact stop failures, a worker or a row for every unfinished instance |
| `LifecycleRuns.ReservedIsExact` | controller-go/internal/biz/reconcile_dispatcher.go:679-694 | in every reachable state a node's reserved vector is the sum of the requests of the instances bound there, never negative and never above the set-up's limits for CPU, memory and disk |
| `LifecycleRuns.ReservedStaysBelowTarget` | controller-go/internal/biz/node_capacity.go:35-40 | with the limits the scheduler computes, that is never above cores times 1000, or megabytes times 1048576, times the target the operator set, or times 0.8 if that is not above 0 and at most 1 |
| `LifecycleRuns.StopFailureIsExact` | controller-go/internal/entity/game_instance.go:152-158 | in every reachable state a failed instance is bound exactly when its last failure came from Stopping or Cleaning; start and retry refuse it and stop accepts it |
| `LifecycleRuns.AttemptsArePaidFor` | controller-go/internal/biz/queue.go:60-75 | in every reachable state, asleep or not, a row's attempts times the base delay never exceed the time since queueing, and their number is at most timeout over base |
| `LifecycleRuns.StepKeepsInv` | controller-go/internal/biz/reconcile_dispatcher.go:232-325 | every single event keeps the whole invariant |
| `LifecycleRuns.StepAt` | controller-go/internal/biz/reconcile_dispatcher.go:232-325 | an event changes the row, queue row, retry counter, mark and worker of its own instance only |
| `LifecycleRuns.ReachableIsSound` | controller-go/internal/biz/reconcile_dispatcher.go:232-325 | every state reachable from the empty controller satisfies the invariant |
| `LifecycleInvariant.LocalKeepsSlot` | controller-go/internal/biz/reconcile_dispatcher.go:633-669 | per instance: which states are bound, which have a worker, what a queue row has paid for, and the retry bound survive each event |
| `LifecycleInvariant.LocalHolding` | controller-go/internal/biz/reconcile_dispatcher.go:633-669 | each event keeps a bound request, gives it back or newly reserves one; none forgets it silently |
| `LifecycleInvariant.CommitConserves` | controller-go/internal/biz/reconcile_dispatcher.go:679-694 | applying an event's effects keeps every node's counter equal to the sum of its bound requests |
| `LifecycleInvariant.ReleaseIsExact` | controller-go/internal/repository/gorm/reservation_repo.go:101-111 | giving a held request back subtracts exactly it: the clamp at zero is never hit |
| `LifecycleInvariant.ReservationFits` | controller-go/internal/repository/gorm/reservation_repo.go:27-97 | a committed reservation fits the node's limits however stale the reading it was chosen on |
| `LifecycleInvariant.CommitStaysWithinLimits` | controller-go/internal/repository/gorm/reservation_repo.go:27-97 | no event takes a node above its limits |
| `LifecycleInvariant.CommitKeepsHolders` | controller-go/internal/biz/reconcile_dispatcher.go:539-547 | credentials are held only by starting, running, stopping or cleaning instances after every event |
| `LifecycleInvariant.AllocateAllHolders` | controller-go/internal/biz/reconcile_dispatcher.go:827-852 | allocating for an instance adds no holder but that instance |
| `LifecycleInvariant.ReleaseHolders` | controller-go/internal/biz/credential_use_case.go:208-210 | after a release the instance holds nothing and nobody else lost anything |
| `LifecycleInvariant.EmptyWorldIsSound` | controller-go/internal/biz/reconcile_dispatcher.go:64-110 | a controller with no instances, reservations or rows satisfies the invariant |
| `LifecycleTransitions.StepFollowsArrows` | controller-go/internal/biz/reconcile_dispatcher.go:129-143 | whatever event happens, a state follows another only along the arrows of the diagram and only by an event of the instance itself that belongs to the arrow: Starting only from restoring, restoring only from preparing, Running only from Starting, Cleaning only from Stopping |
| `LifecycleTransitions.AppearsAndGoes` | controller-go/internal/biz/game_instance_use_case.go:379-405 | an instance appears stopped, by creation, and goes by deletion only, out of the queue, stopped or failed |
| `LifecycleTransitions.PollOutcomes` | controller-go/internal/biz/reconcile_dispatcher.go:863-1125 | how a finished poll leaves the instance: the next stage of the start or stop chain with the counter cleared (kept after warming), another try below three retries, or failed; placement is given up only by a completed clean-up |
| `LifecycleTransitions.DispatchOutcomes` | controller-go/internal/biz/reconcile_dispatcher.go:232-630 | how one dispatch of a stage leaves the instance for each RPC outcome, a denied required credential included; without a snapshot restoring goes straight to Starting |
| `LifecycleTransitions.ScheduleOutcomes` | controller-go/internal/biz/reconcile_dispatcher.go:243-300 | how a scheduling attempt leaves the instance: bound and on to warming or preparing, failed, or queued with the row due after the least of base times two to the attempts and the cap; past the timeout failed without a row |
| `LifecycleTransitions.CallOutcomes` | controller-go/internal/biz/game_instance_use_case.go:202-405 | in which states, and against which other instances of the subscription, each user call is carried out and what it changes; otherwise it changes nothing |
| `LifecycleTransitions.InspectionOutcomes` | controller-go/internal/biz/reconcile_dispatcher.go:1329-1410 | which inspections set, keep or clear the offline mark and which fail the instance |
| `LifecycleTransitions.QueueOutcomes` | controller-go/internal/biz/queue_waker.go:97-111 | a due row hands its queued instance to the dispatch queue, or is dropped beside any other; a promotion starts scheduling; nothing else of the instance changes |
| `LifecycleTransitions.RunsFollowArrows` | controller-go/internal/biz/reconcile_dispatcher.go:863-942 | over every run, neighbouring states of an instance are joined by an arrow |
| `LifecycleTransitions.RunningHasPassedEveryStage` | controller-go/internal/biz/reconcile_dispatcher.go:863-1090 | on every run from a pending instance to a running one it was scheduling, preparing its build, restoring its snapshot and starting, in this order |
| `LifecycleTransitions.StoppedHasBeenCleaned` | controller-go/internal/biz/reconcile_dispatcher.go:1091-1125 | on every run from running to stopped the instance was stopping and then cleaning, unless it failed |
| `LifecycleTransitions.PortRowsAfter` | controller-go/internal/biz/game_container_port_mapper.go:66-84 | port rows come by a placement only, exactly its plan, and go by a completed clean-up or a deletion only, exactly the instance's own |
| `LifecycleTransitions.GrantedMeansHeld` | controller-go/internal/biz/reconcile_dispatcher.go:827-852 | a granted round leaves the instance with a credential of every required kind, optional kinds never deny it, and nobody loses one |
| `LifecycleTransitions.PoolOutcomes` | controller-go/internal/biz/reconcile_dispatcher.go:539-669 | the pool changes by a starting instance's own requests and by the release when an instance fails, queue timeout excepted, or completes its clean-up; in between it keeps what it holds |
| `LifecycleTermination.LifecycleTerminates` | controller-go/internal/biz/reconcile_dispatcher.go:863-942 | over any run without a new start, retry or stop, whatever the RPC outcomes and however other instances interleave: at most StartBound worker steps and one StartBound more per sweep of the queue row; none once settled, less than three stages' worth for a stop; what is stopping stays on the stop side, a start never turns into a stop, and what has not settled can still move |
| `LifecycleTermination.RequestsEnd` | controller-go/internal/biz/reconcile_dispatcher.go:863-942 | where no worker step is possible any more, a stop has ended in Stopped or Failed, or the instance is gone, and a start in Running, Stopped, Failed or gone |
| `LifecycleTermination.CompletionExists` | controller-go/internal/biz/reconcile_dispatcher.go:863-942 | from every state with the invariant some run of waiting and the instance's own worker steps settles it |
| `LifecycleTermination.RunKeepsSides` | controller-go/internal/biz/game_instance_use_case.go:247-275 | without a new request the stop side is never left, settled stays settled, a start never becomes a stop, and neither side is swept |
| `LifecycleTermination.WorkDrops` | controller-go/internal/biz/reconcile_dispatcher.go:761-820 | every worker step lowers the instance's rank, a lexicographic sum of queue visits left, stage and retries left |
| `LifecycleTermination.OtherStepsNeverRaise` | controller-go/internal/biz/reconcile_dispatcher.go:232-325 | time, other instances, cancel, delete, inspection and clean-up of rows of instances that are not scheduling never raise it |
| `LifecycleTermination.WorkIsBoundedByRank` | controller-go/internal/biz/queue_waker.go:97-111 | over any run without a new request the worker steps are at most the drop in rank plus one start bound for each time the waker sweeps the row of the scheduling instance |
| `LifecycleTermination.SweepsKeepItGoing` | controller-go/internal/biz/queue_waker.go:103-107 | for every n there is a run with n sweeps and 3n worker steps after which the instance is queued as before, so the worker steps are bounded exactly when the sweeps are |
| `LifecycleTermination.UnsettledCanMove` | controller-go/internal/biz/reconcile_dispatcher.go:215-230 | an unsettled instance always has a possible worker step, at the latest when its queue row is due |
| `LifecycleTermination.RetriesBetweenClears` | controller-go/internal/biz/reconcile_dispatcher.go:761-779 | between two clears of its counter an instance is retried at most OPERATION_RETRY_MAX times over all stages together |
| `LifecycleTermination.StayQueuedDrops` | controller-go/internal/biz/queue.go:60-75 | going back to the queue is paid for by queue time: the rank falls although the state returns to Queued |
| `LifecycleTermination.SweepingRestartsTheClock` | controller-go/internal/biz/queue_waker.go:103-107 | one such round: the waker drops the row, the next attempt writes a new one with a full timeout, and the rank is back at that of a first queueing |
| `LifecycleLimits.DeleteConservesIffNotRunning` | controller-go/internal/biz/game_instance_use_case.go:379-396 | deleting an instance keeps the reservations exact exactly when it is not running, although the guard admits a running one |
| `LifecycleLimits.ReaperBreaksConservation` | controller-go/internal/biz/stale_reservation_reaper.go:73-90 | the reaper's release without clearing the binding makes the counter differ from the sum of the bound requests |
| `LifecycleLimits.ReaperFakesStopFailure` | controller-go/internal/biz/stale_reservation_reaper.go:73-90 | it leaves a failed, bound instance whose failure did not come from stopping |
| `LifecycleSubscriptions.SingleActiveOverEveryRun` | controller-go/internal/biz/game_instance_use_case.go:182-275 | in every reachable state no subscription has two active instances, retried stops included: the check before a start and the unique index behind every save together |
| `LifecycleSubscriptions.StepKeepsSubscriptions` | controller-go/migrations/000027_game_instances_subscription_id.up.sql:10-13 | every event keeps at most one indexed row per subscription, and every other instance stopped beside a warming one, which the index does not list |
| `LifecycleSubscriptions.NoSaveIsRefused` | controller-go/internal/biz/reconcile_dispatcher.go:232-325 | in every reachable state the index accepts every save any event makes of an instance of a named subscription, so the save errors the dispatcher ignores do not arise there |
| `LifecycleSubscriptions.StopIsNeverRefused` | controller-go/internal/biz/game_instance_use_case.go:253-275 | a stop that passes its guard is never refused by the index, a retried stop included |
| `LifecycleSubscriptions.StartAcceptedIff` | controller-go/internal/biz/game_instance_use_case.go:182-233 | a start or retry that passes its guard is accepted exactly when every other instance of the subscription is stopped |
| `LifecycleSubscriptions.FreeSlotRefusedIff` | controller-go/internal/biz/game_instance_use_case.go:224-243 | a start or retry that found the subscription free of active instances is still refused exactly when another instance of it has failed, because the index lists failed rows |
| `LifecycleSubscriptions.FailedIsNotRefused` | controller-go/internal/biz/game_instance_use_case.go:224-243 | in reachable states that never happens to a retry, nor to a start after a failure |
| `LifecycleFailures.FailedBlocksSubscription` | controller-go/migrations/000027_game_instances_subscription_id.up.sql:10-13 | the run, from an empty database: one instance fails to be scheduled, and the start of the other one, which the check admits, is refused |
| `LifecycleFailures.EverySaveAcceptedIff` | controller-go/migrations/000027_game_instances_subscription_id.up.sql:10-13 | the index accepts every save of every run if and only if the subscription id is not the empty string, which the check exempts and the index does not |
| `LifecycleFailures.BlankIdsMeetInIndex` | controller-go/internal/biz/game_instance_use_case.go:182-186 | the run: two instances of the empty subscription id are both started, and leaving cache warming the first would enter the index beside the second |
| `LifecycleLimits.OnlyInspectionsMark` | controller-go/internal/biz/reconcile_dispatcher.go:1393-1410 | nothing but its inspections changes an instance's offline mark |
| `LifecycleLimits.MarkSurvives` | controller-go/internal/biz/reconcile_dispatcher.go:1393-1410 | a mark left by one run is still there after a stop and a new start |
| `LifecycleLimits.StaleMarkFencesIff` | controller-go/internal/biz/reconcile_dispatcher.go:1393-1410 | so the first failed inspection of a new run fails the instance if and only if there is a mark from before and it is at least the fencing timeout old |
| `LifecycleScenarios.StopWaitStart` | controller-go/internal/biz/game_instance_use_case.go:182-275 | a running instance that no other of its subscription is in the way of can be stopped, cleaned, left for any time and started again on the same agent without an inspection in between, its mark unchanged |
| `LifecycleScenarios.RunningIsUnrivalled` | controller-go/internal/biz/game_instance_use_case.go:182-198 | that is every running instance of a reachable state whose subscription id is not the empty string |
| `LifecycleScenarios.OldMarkFencesAfterRestart` | controller-go/internal/biz/reconcile_dispatcher.go:1349-1368 | so every such instance with a mark has a restart after which the first failed inspection fails it |
| `LifecycleScenarios.OldMarkFencesFromScratch` | controller-go/internal/biz/reconcile_dispatcher.go:1349-1368 | the whole run, from an empty database: create, start, run, one failed inspection, stop, start, run, and the first failed inspection of the new run fails it |
| `LifecycleScenarios.RoomForOne` | controller-go/internal/biz/reconcile_dispatcher.go:243-271 | the set-ups this needs exist: any single node whose limits have room for the request |
| `LifecycleLimits.RowsOutliveFailures` | controller-go/internal/biz/reconcile_dispatcher.go:633-669 | port rows survive every event but a completed clean-up or a delete, failures included |
| `LifecycleLimits.FailedHostInstanceCannotReturn` | controller-go/internal/biz/game_container_port_mapper.go:66-82 | a HOST-mode instance that was bound once and failed can never be planned on that machine again |
| `LifecycleScenarios.HostFailureFromScratch` | controller-go/internal/biz/reconcile_dispatcher.go:633-669 | the run, from an empty database: a HOST-mode instance is placed, its first stage fails, retry is allowed, and its ports can never be planned there again |
| `LifecycleScenarios.HostPlanOnEmptyTable` | controller-go/internal/biz/game_container_port_mapper.go:66-82 | on a machine without rows every HOST-mode demand can be planned, so that run exists |
| `LifecycleLimits.OverrideLostIffStopFails` | controller-go/internal/biz/reconcile_dispatcher.go:649-658 | an explicitly requested size survives every event, except exactly one that reports a failure of stopping or cleaning that is fatal, timed out, or retryable with the retries used up |
| `LifecycleFailures.OverrideLostFromScratch` | controller-go/internal/biz/reconcile_dispatcher.go:649-658 | the run, from an empty database: created with an explicit size, started, stopped, and without its size once the stop has failed |
| `Entities.IndexDrift` | controller-go/internal/entity/game_instance.go:145-150 | the stored numbers in the subscription index agree with IsActive on every state except cache warming and failed |
| `Controller.ReconcileDispatcher.RequestDispatch` | controller-go/internal/biz/reconcile_dispatcher.go:146-165 | accepts exactly the dispatchable states and leaves the instance with a queued worker |
| `Controller.ReconcileDispatcher.RetryOperation` | controller-go/internal/biz/reconcile_dispatcher.go:761-773 | below the maximum the counter goes up by one and the answer is true; otherwise the counter is cleared and the answer is false |
| `Controller.ReconcileDispatcher.ClearRetryCount` | controller-go/internal/biz/reconcile_dispatcher.go:775-779 | the counter is zero afterwards and nothing else changed |
| `Controller.ReconcileDispatcher.ReleaseReservation` | controller-go/internal/biz/reconcile_dispatcher.go:679-694 | gives the bound request back to the agent's node, and to no other |
| `Controller.ReconcileDispatcher.FailedInstance` | controller-go/internal/biz/reconcile_dispatcher.go:633-669 | the new row, retry counter, reservation and credentials are the specification's failure of that state: outside stopping the binding goes, in stopping it stays without its request |
| `Controller.ReconcileDispatcher.HandleDispatchError` | controller-go/internal/biz/reconcile_dispatcher.go:786-820 | a retryable error is retried while retries are left, anything else fails the instance |
| `Controller.ReconcileDispatcher.AllocateCredentials` | controller-go/internal/biz/reconcile_dispatcher.go:827-852 | the pool afterwards is the specification's allocation round; false exactly when a required kind was not available |
| `Controller.ReconcileDispatcher.PromoteToScheduling` | controller-go/internal/biz/reconcile_dispatcher.go:234-242 | pending and queued instances enter scheduling with a queued worker |
| `Controller.ReconcileDispatcher.TryReserve` | controller-go/internal/repository/gorm/reservation_repo.go:27-97 | succeeds exactly when the recheck passes and no planned port clashes; then adds the request and appends the rows, otherwise changes nothing |
| `Controller.ReconcileDispatcher.DispatchScheduling` | controller-go/internal/biz/reconcile_dispatcher.go:243-323 | the tables afterwards show the specification's step for scheduled, no capacity and rejected |
| `Controller.ReconcileDispatcher.BindInstance` | controller-go/internal/biz/reconcile_dispatcher.go:251-271 | queue row gone, agent, request and branch recorded, next stage queued |
| `Controller.ReconcileDispatcher.KeepQueued` | controller-go/internal/biz/reconcile_dispatcher.go:272-317 | first row, back-off, or failure once the row has timed out |
| `Controller.ReconcileDispatcher.Enqueue` | controller-go/internal/biz/queue.go:40-56 | the first row: no attempts, due after the base delay, timing out after the queue timeout |
| `Controller.ReconcileDispatcher.OnStillQueued` | controller-go/internal/biz/queue.go:60-75 | true exactly when the row is past its timeout; otherwise one more attempt, due after its back-off |
| `Controller.ReconcileDispatcher.DispatchStage` | controller-go/internal/biz/reconcile_dispatcher.go:324-624 | the tables afterwards show the specification's step for every stage and RPC outcome |
| `Controller.ReconcileDispatcher.SkipRestore` | controller-go/internal/biz/reconcile_dispatcher.go:443-452 | without a snapshot the instance goes straight to starting |
| `Controller.ReconcileDispatcher.SendStageRpc` | controller-go/internal/biz/reconcile_dispatcher.go:539-556 | credentials first when starting, then polling, retry or failure by the RPC's outcome |
| `Controller.ReconcileDispatcher.PollingResult` | controller-go/internal/biz/reconcile_dispatcher.go:863-942 | success, retryable failure, fatal failure and timeout each lead to the specification's step |
| `Controller.ReconcileDispatcher.FinishStage` | controller-go/internal/biz/reconcile_dispatcher.go:924-932 | success clears the retry counter except after cache warming, then runs the stage's callback |
| `Controller.ReconcileDispatcher.OnStageSucceeded` | controller-go/internal/biz/reconcile_dispatcher.go:947-1097 | each stage hands over to the next one |
| `Controller.ReconcileDispatcher.OnCleanInstanceSucceeded` | controller-go/internal/biz/reconcile_dispatcher.go:1101-1127 | credentials, reservation, binding and port rows are given back and the instance is stopped |
| `Controller.ReconcileDispatcher.MarkOfflineAndShouldFence` | controller-go/internal/biz/reconcile_dispatcher.go:1393-1403 | the first call only marks; later ones keep the mark and report whether the timeout has passed |
| `Controller.ReconcileDispatcher.ClearOffline` | controller-go/internal/biz/reconcile_dispatcher.go:1406-1410 | removes the mark of that instance only |
| `Controller.ReconcileDispatcher.FenceWhenDue` | controller-go/internal/biz/reconcile_dispatcher.go:1355-1365 | marks, and once the mark is old enough clears it and fails the instance |
| `Controller.ReconcileDispatcher.WatchInstance` | controller-go/internal/biz/reconcile_dispatcher.go:1329-1389 | the tables afterwards show the specification's inspection for all four findings |
| `Controller.ReconcileDispatcher.CreateGameInstance` | controller-go/internal/biz/game_instance_use_case.go:84-134 | a new stopped row; the explicit request, if any, is marked as an override |
| `Controller.ReconcileDispatcher.CheckSubscriptionSlot` | controller-go/internal/biz/game_instance_use_case.go:182-197 | true exactly when no other active instance has the same non-empty subscription |
| `Controller.ReconcileDispatcher.StartGameInstance` | controller-go/internal/biz/game_instance_use_case.go:202-233 | accepts exactly stopped or failed instances that are no stop failures, whose subscription has no other active instance, and whose save the unique index lets through |
| `Controller.ReconcileDispatcher.RetryGameInstance` | controller-go/internal/biz/game_instance_use_case.go:337-361 | the same for failed instances |
| `Controller.ReconcileDispatcher.StopGameInstance` | controller-go/internal/biz/game_instance_use_case.go:253-275 | accepts exactly running and stop-failed instances whose save the unique index lets through |
| `Controller.ReconcileDispatcher.CancelGameInstance` | controller-go/internal/biz/scheduler_impl.go:612-629 | only from the queue: row removed, instance stopped |
| `Controller.ReconcileDispatcher.RemoveIfAllowed` | controller-go/internal/biz/game_instance_use_case.go:379-396 | queue row, port rows and instance go exactly when the guard admits the state |
| `Controller.ReconcileDispatcher.DeleteGameInstance` | controller-go/internal/biz/game_instance_use_case.go:379-396 | the tables afterwards show the specification's delete |
| `Controller.ReconcileDispatcher.WakeRow` | controller-go/internal/biz/queue_waker.go:97-111 | a queued instance gets a worker, a row of any other instance is dropped |
| `Controller.ReconcileDispatcher.WakeOnce` | controller-go/internal/biz/queue_waker.go:80-116 | the tables afterwards show the round's events one after the other, in the order of the due list |
| `Controller.WakerRound` | controller-go/internal/biz/queue_waker.go:80-116 | a round wakes at most the limit, touches due instances only and each once, and below the limit wakes every queued one and drops every stray row |
| `Controller.RoundRuns` | controller-go/internal/biz/queue_waker.go:80-116 | the events of a round are possible one after the other |
| `Resources.ResolveRequest` | controller-go/internal/biz/scheduler_impl.go:128-165 | always a positive request: explicit request, else configuration, else defaults |
| `Resources.WriteBackRules` | controller-go/internal/biz/scheduler_impl.go:124-165 | resolving is stable under an explicit override and ignores a snapshot the scheduler wrote back itself |
| `Resources.ResolvesEachDimension` | controller-go/internal/biz/scheduler_impl.go:128-165 | each dimension by itself: the explicit value if the override is set and positive, else the configured one, else 1000 milli-cores, a gibibyte of memory and ten of disk |
| `Resources.CapacityLimitIsFloor` | controller-go/internal/biz/node_capacity.go:35-40 | the limit is the whole part of capacity times the target that was set, or times 0.8 if that is not above 0 and at most 1, and never above the capacity |
| `Resources.NodeLimitsAreShares` | controller-go/internal/biz/node_capacity.go:20-57 | in milli-cores and bytes: never above the share of the cores times 1000 and of the megabytes times 1048576, and less than one below it |
| `Resources.SatisfiedIffFits` | controller-go/internal/biz/node_capacity.go:59-63 | the request fits what is left exactly if reserved plus request stays within every limit |
| `Resources.BufferIsFloor` | controller-go/internal/biz/constraint.go:128-130 | the update buffer is the whole part of ratio times allocatable bytes, as far as it fits 64 bits |
| `Resources.RecheckIsExactAfterH3` | controller-go/internal/repository/gorm/reservation_repo.go:40-48 | after H3 on any earlier reading the recheck cannot wrap, so it passes exactly when the reservation stays within limits |
| `Resources.RecheckAgreesIffNoWrap` | controller-go/internal/repository/gorm/reservation_repo.go:40-48 | without H3 the int64 recheck agrees with the true comparison exactly when the sum fits |
| `Resources.DiskBudgetExact` | controller-go/internal/biz/constraint.go:114-140 | after H3 the unsigned disk budget equals the intended one exactly when used plus buffer does not wrap harmfully |
| `Resources.NegativeReadingWraps` | controller-go/internal/biz/constraint.go:114-140 | without H3 a negative reading looks like almost 2^64 bytes |
| `Backoff.ComputeBackoff` | controller-go/internal/biz/queue.go:98-113 | the doubling loop computes the wrapping doubling function, for all int64 values |
| `Backoff.BackoffExact` | controller-go/internal/biz/queue.go:98-113 | it equals min(base 2^(n-1), max) for every attempt exactly when base <= max and some doubling reaches max inside int64 |
| `Backoff.OverflowingBackoff` | controller-go/internal/biz/queue.go:98-113 | otherwise some attempt gets a negative delay |
| `Backoff.OversizedBase` | controller-go/internal/biz/queue.go:98-113 | a base above the cap is handed out once, uncapped; every later attempt gets the cap |
| `Backoff.BackoffOfHalfRange` | controller-go/internal/biz/queue.go:98-113 | an input: with half the int64 range as base the second attempt is given the least int64 as delay |
| `Backoff.HalfRangeSuffices` | controller-go/internal/biz/queue.go:98-113 | a cap of at most half the int64 range is enough |
| `Backoff.DelayMonotone` | controller-go/internal/biz/queue.go:98-113 | delays never shrink with further attempts and stay between base and cap |
| `PortPlan.PlanIsSound` | controller-go/internal/biz/game_container_port_mapper.go:85-174 | every NAT or HOST plan avoids the used ports and itself, has exactly one row per demanded container port and protocol, excerpts wrapping past 65535 included, shares the host port between TCP and UDP, and stays in range |
| `PortPlan.HostPlanFailsIffTaken` | controller-go/internal/biz/game_container_port_mapper.go:131-139 | in HOST mode planning fails exactly when a demanded port is taken in its own protocol |
| `PortPlan.HostPlanFailsIffRowThere` | controller-go/internal/biz/game_container_port_mapper.go:85-139 | on the table: a HOST plan fails exactly when some row of that agent holds a demanded port in its protocol |
| `PortPlan.UsedIffTaken` | controller-go/internal/biz/game_container_port_mapper.go:251-260 | used on a machine is exactly what rows of that machine hold |
| `PortPlan.PlanIsLocal` | controller-go/internal/biz/game_container_port_mapper.go:85-95 | plans on two tables with the same rows of the agent are the same |
| `PortPlan.PlannedPorts` | controller-go/internal/biz/game_container_port_mapper.go:85-174 | every planned port is free on the machine and lies from 50100 to 52000, except that HOST plans map every port to itself |
| `PortPlan.EveryRowIsAskedFor` | controller-go/internal/biz/game_container_port_mapper.go:85-405 | no row without need: each serves a port that some excerpt of its own protocol covers; in the game block the port as far above the game base as the row is above the block's start |
| `PortPlan.RebindableIff` | controller-go/internal/repository/gorm/reservation_repo.go:50-80 | the recheck turns a plan down exactly if some row of the same machine holds the same port in the same protocol |
| `PortPlan.GameBaseIsFirstFlagged` | controller-go/internal/biz/game_container_port_mapper.go:328-338 | the game base is the begin of the first flagged excerpt |
| `PortPlan.OneProtocolPlanExistsIffEnoughFree` | controller-go/internal/biz/game_container_port_mapper.go:85-174 | a NAT plan for ports demanded in one protocol only, TCP or UDP, exists exactly when enough ports of the range are free in it |
| `PortPlan.SharedPlanExistsIffEnoughFree` | controller-go/internal/biz/game_container_port_mapper.go:85-174 | a NAT plan for ports all demanded in both protocols exists exactly when enough ports are free in both |
| `PortPlan.RoomyPlanExists` | controller-go/internal/biz/game_container_port_mapper.go:85-174 | for any mix of protocols a plan exists if as many ports are free in both as container ports are demanded |
| `PortPlan.PlanNeedsSharedPorts` | controller-go/internal/biz/game_container_port_mapper.go:85-174 | and only if a port is free in both for each container port demanded in both |
| `PortPlan.MixedDemandFailsNeedlessly` | controller-go/internal/biz/game_container_port_mapper.go:188-231 | between the two first fit can fail although a plan exists: the input and that plan |
| `PortPlan.BlockLengthIsTight` | controller-go/internal/biz/game_container_port_mapper.go:340-349 | the block reaches to the furthest end of any excerpt at or above the base whose end fits 16 bits, and only to an end some excerpt is stored with |
| `PortPlan.LeastBlockIsLeast` | controller-go/internal/biz/game_container_port_mapper.go:452-482 | the lowest start whose whole range is free in both protocol spaces; none exactly if none exists |
| `PortPlan.LeastFreeIsLeast` | controller-go/internal/biz/game_container_port_mapper.go:192-231 | the least free port of the range; none exactly if none is free |
| `PortPlan.BlockRowsExact` | controller-go/internal/biz/game_container_port_mapper.go:368-405 | one identity row per protocol found demanded at each offset of the block and no other |
| `PortPlan.ExtraRowsSound` | controller-go/internal/biz/game_container_port_mapper.go:418-449 | the rows below the base use fresh ports, serve every such port and nothing undemanded |
| `PortPlan.InjectedPlanIsFresh` | controller-go/internal/biz/game_container_port_mapper.go:323-415 | block and extra rows together avoid the used ports and each other |
| `PortPlan.InjectedPlanIsExact` | controller-go/internal/biz/game_container_port_mapper.go:323-482 | the lowest free block, reaching every unwrapped excerpt at or above the base; at each offset the identity row of a protocol exactly if the scan finds it demanded; every port of every excerpt below the base served, possibly by more than one row where such excerpts overlap |
| `PortPlan.BlockServesAllIff` | controller-go/internal/biz/game_container_port_mapper.go:368-405 | the block serves every port of every excerpt at or above the base if and only if none of them reaches port 65535 |
| `PortPlan.LastPortGetsNoRow` | controller-go/internal/biz/game_container_port_mapper.go:323-415 | the input: a game on port 65535 gets a block and no row |
| `PortPlan.ScansIff` | controller-go/internal/biz/game_container_port_mapper.go:375-375 | the block loop sees exactly the ports of excerpts whose end fits 16 bits; one that wraps is not seen at all |
| `PortPlan.InjectedPlanExistsIff` | controller-go/internal/biz/game_container_port_mapper.go:323-482 | injected planning succeeds exactly when there is a block and, beside it, each protocol has a free port for each of its rows below the base |
| `PortPlan.GameBlockExistsIff` | controller-go/internal/biz/game_container_port_mapper.go:328-366 | there is a block exactly when a game port is declared and some start in the range has the whole block free |
| `PortPlan.ExtraRowsExistIff` | controller-go/internal/biz/game_container_port_mapper.go:418-449 | the rows below the base exist exactly when each protocol by itself has enough free ports |
| `PortPlan.EveryPlanIsFresh` | controller-go/internal/biz/game_container_port_mapper.go:66-82 | in every mode a plan clashes neither with itself nor with the table it was computed on |
| `PortPlan.NoClashOverEveryRun` | controller-go/internal/biz/game_container_port_mapper.go:66-186 | over any run of stale planning, binding and releasing no two rows share agent, protocol and host port |
| `PortPlan.BindStoresIff` | controller-go/internal/repository/gorm/reservation_repo.go:50-80 | a plan is stored exactly if none of its ports has been taken on that machine since it was made; one made on the table as it is always is |
| `PortPlan.LeftoverRowsBlockHostReplan` | controller-go/internal/biz/game_container_port_mapper.go:66-139 | an instance whose HOST rows were never released cannot be planned there again |
| `PortTable.WithoutKeepsNoClash` | controller-go/internal/biz/game_container_port_mapper.go:265-278 | releasing an instance's rows keeps the table free of clashes |
| `PortTable.BindKeepsNoClash` | controller-go/internal/repository/gorm/reservation_repo.go:50-80 | binding a rechecked plan keeps the table free of clashes |
| `PortMapper.UsedPorts.MarkUsed` | controller-go/internal/biz/game_container_port_mapper.go:243-248 | adds the port to its protocol's set only |
| `PortMapper.UsedPorts.PortInUse` | controller-go/internal/biz/game_container_port_mapper.go:234-240 | membership in its protocol's set |
| `PortMapper.UsedPorts.AllocateHostPort` | controller-go/internal/biz/game_container_port_mapper.go:192-231 | the least free port of the range in the wanted spaces, None exactly if there is none |
| `PortMapper.UsedPorts.AllocateContiguousHostPorts` | controller-go/internal/biz/game_container_port_mapper.go:452-482 | the lowest free block start, None exactly if there is none |
| `PortMapper.UsedHostPorts` | controller-go/internal/biz/game_container_port_mapper.go:251-260 | exactly the ports some row of that agent holds in that protocol; rows of other agents do not count |
| `PortMapper.MergeRequirements` | controller-go/internal/biz/game_container_port_mapper.go:97-119 | overlapping excerpts are merged into one requirement per container port, ports past 65535 wrapping |
| `PortMapper.MergeExcerpt` | controller-go/internal/biz/game_container_port_mapper.go:104-118 | one excerpt's ports are added to what was merged before |
| `PortMapper.SortPorts` | controller-go/internal/biz/game_container_port_mapper.go:121-121 | never descending, with the same elements |
| `PortMapper.GameContainerPortMapper.PlanPortsNAT` | controller-go/internal/biz/game_container_port_mapper.go:85-174 | equals the first-fit plan of the demanded ports |
| `PortMapper.GameContainerPortMapper.PlanPortsInjected` | controller-go/internal/biz/game_container_port_mapper.go:323-415 | equals the injected plan, or fails with it |
| `PortMapper.GameContainerPortMapper.MapPortExtraNAT` | controller-go/internal/biz/game_container_port_mapper.go:418-449 | equals the extra rows of the injected plan |
| `PortMapper.GameContainerPortMapper.PlanPorts` | controller-go/internal/biz/game_container_port_mapper.go:66-82 | equals the plan of the configured mode on the agent's used ports |
| `PortMapper.GameContainerPortMapper.MapPort` | controller-go/internal/biz/game_container_port_mapper.go:44-62 | old rows gone, new plan stored, or an error after releasing |
| `PortMapper.GameContainerPortMapper.ReleaseMapPortByInstanceId` | controller-go/internal/biz/game_container_port_mapper.go:265-278 | the table without that instance's rows |
| `PortMapper.FindGameBase` | controller-go/internal/biz/game_container_port_mapper.go:328-338 | the first flagged excerpt's begin port |
| `PortMapper.MeasureBlock` | controller-go/internal/biz/game_container_port_mapper.go:340-349 | the block length as stored in 16 bits |
| `PortMapper.InjectedEnvPort` | controller-go/internal/biz/reconcile_dispatcher.go:1216-1232 | the host port of the first flagged row, only when injection is on |
| `PortMapper.ConnectHostPort` | controller-go/internal/biz/game_instance_use_case.go:463-484 | the flagged row's host port, else that of the first row of the game's container port |
| `PortMapper.PlainAddressIsTheGamePort` | controller-go/internal/biz/game_instance_use_case.go:463-484 | outside injected mode no row of a plan is flagged, and the address is the host port the game port was mapped to, if it was |
| `PortMapper.OneFlaggedRowIffTcpBase` | controller-go/internal/biz/game_container_port_mapper.go:370-405 | an injected plan flags exactly one row if the scan finds a TCP excerpt on the base, and none otherwise |
| `PortMapper.EnvAndAddressNameTheBlock` | controller-go/internal/biz/reconcile_dispatcher.go:1216-1232 | injected environment value and connect address are both the block's host base on the rows of a plan whose scan finds a TCP excerpt on the base; without one the game is told nothing |
| `PortMapper.NewBlockNamedIff` | controller-go/internal/biz/reconcile_dispatcher.go:1216-1232 | on the table as it is after inserting the plan: environment value and connect address name the new block if and only if the instance's older rows flag nothing, or first flag the same port; otherwise they name what the older rows flag |
| `PortMapper.EveryListingNamesNewBlockIff` | controller-go/internal/biz/game_instance_use_case.go:463-484 | in whatever order the rows are listed, the new block is named if and only if no older row of the instance flags another port |
| `PortMapper.ReplanNamedIffNothingFlagged` | controller-go/internal/biz/reconcile_dispatcher.go:1216-1232 | planned again on the same agent beside its own older rows, an instance never gets its old port back, so the new block is named if and only if those rows flag nothing |
| `LifecycleFailures.InjectedReplanFromScratch` | controller-go/internal/biz/game_instance_use_case.go:463-484 | the run, from an empty database: an injected instance is placed, its first stage fails, it is started and placed again, and is announced under its first port |
| `LifecycleFailures.TwoPlansExist` | controller-go/internal/biz/game_container_port_mapper.go:323-415 | for one TCP port the two plans of that run exist |
| `Credentials.ExclusiveOverEveryRun` | controller-go/internal/biz/credential_use_case.go:166-210 | over any interleaving of repository calls of any instances no instance holds two credentials of one game and kind, and no credential has two holders |
| `Credentials.RepliedSecretIsHeld` | controller-go/internal/biz/credential_use_case.go:166-205 | a secret handed out belongs to the one row of that game and kind the instance then holds |
| `Credentials.HeldRowIsUnique` | controller-go/internal/repository/gorm/credential_pool_repo.go:53-64 | in a sound table an instance holds at most one row of a game and kind |
| `Credentials.RepeatedAllocationIsIdempotent` | controller-go/internal/biz/credential_use_case.go:166-178 | asking again while holding returns the same secret and changes nothing |
| `Credentials.ReallocationPrefersOldSecret` | controller-go/internal/biz/credential_use_case.go:179-190 | an instance gets back a credential it used last if one is free |
| `Credentials.ReleaseThenReallocate` | controller-go/internal/biz/credential_use_case.go:166-210 | stop and start again returns the same secret unless an older one also came free |
| `Credentials.OnlyOwnRowReusable` | controller-go/internal/repository/gorm/credential_pool_repo.go:79-89 | of the rows a release frees, only the given-back one names this instance as last user |
| `Credentials.AllocationIsExclusiveIffPoolNamed` | controller-go/internal/repository/gorm/credential_pool_repo.go:91-98 | an allocation keeps every sound table sound exactly when it names a pool |
| `Credentials.UnnamedAllocationTakesTwo` | controller-go/internal/repository/gorm/credential_pool_repo.go:20-28 | with an empty name a second allocation takes a second credential |
| `Credentials.CredentialPool.TryAcquire` | controller-go/internal/repository/gorm/credential_pool_repo.go:53-64 | takes the row exactly if it is free |
| `Credentials.CredentialPool.AllocateForInstance` | controller-go/internal/biz/credential_use_case.go:166-205 | reply and table are the specification's allocation |
| `Credentials.CredentialPool.ReleaseByInstance` | controller-go/internal/repository/gorm/credential_pool_repo.go:79-89 | every row of the instance is free again and remembers it as last user |
| `Credentials.AllocationFailsIff` | controller-go/internal/biz/credential_use_case.go:166-205 | an allocation comes away empty exactly when the instance holds nothing of the kind and nothing of it is available |
| `Credentials.AllocationTakesOneRow` | controller-go/internal/biz/credential_use_case.go:166-205 | it changes at most one row: one that was available, of that game and kind, whose secret is the reply |
| `Credentials.ReleaseFreesExactly` | controller-go/internal/repository/gorm/credential_pool_repo.go:79-89 | a release changes exactly the rows in use by the instance, which then remember it |
| `DispatchQueue.SoundOverEveryRun` | controller-go/internal/biz/reconcile_dispatcher.go:146-165 | over every interleaving, accepted items are queued or consumed exactly once, the channel never exceeds 100, and the consumer never sleeps on an empty channel beside a filled overflow |
| `DispatchQueue.NeverStuck` | controller-go/internal/biz/reconcile_dispatcher.go:215-230 | while anything is queued the consumer can move and consumes within two steps |
| `DispatchQueue.OverflowOvertakes` | controller-go/internal/biz/reconcile_dispatcher.go:215-230 | an overflowed item can be consumed before older ones in the channel |
| `DispatchQueue.OrderKeptIff` | controller-go/internal/biz/reconcile_dispatcher.go:146-165 | a step keeps first in, first out exactly unless it is a request that finds a hundred items in the channel |
| `DispatchQueue.FirstInFirstOut` | controller-go/internal/biz/reconcile_dispatcher.go:146-230 | so over every run on which the channel never fills, items are consumed in the order they came |
| `DispatchQueue.OverflowIsAQueue` | controller-go/internal/biz/reconcile_dispatcher.go:215-222 | items in the overflow keep their order among themselves |
| `DispatchQueue.DispatchBuffer.Push` | controller-go/internal/biz/reconcile_dispatcher.go:146-165 | refines the sending step: never blocks |
| `DispatchQueue.DispatchBuffer.TakeOverflow` | controller-go/internal/biz/reconcile_dispatcher.go:215-222 | the overflow's head if any, otherwise the consumer goes to wait |
| `DispatchQueue.DispatchBuffer.ReceiveNext` | controller-go/internal/biz/reconcile_dispatcher.go:223-230 | the channel's head |
| `Scoring.ScoreIsMonotone` | controller-go/internal/biz/scoring.go:52-82 | with non-negative weights no preference ever counts against a node |
| `Scoring.FlagsAreWorthTheirWeights` | controller-go/internal/biz/scoring.go:52-82 | region, last node and cache raise the score by exactly their weights, being degraded lowers it by exactly its weight |
| `Scoring.LoadsAreWorthTheirDifference` | controller-go/internal/biz/scoring.go:52-82 | load, history and bandwidth change it by weight times difference, within [0, 1] |
| `Scoring.BeyondIsNoBetter` | controller-go/internal/biz/scoring.go:84-92 | outside [0, 1] they count as the nearer end |
| `Scoring.FrequencyIsWorthItsPlace` | controller-go/internal/biz/scoring.go:52-82 | frequency counts only for single-threaded games and a real range, by its place in the range |
| `Scoring.CacheBeatsLoad` | controller-go/internal/biz/scoring.go:18-30 | with the default weights a node holding the cache beats any merely less loaded one by at least 0.7 |
| `Scoring.Clamp01` | controller-go/internal/biz/scoring.go:84-92 | in [0, 1], and the identity there |
| `Scoring.RangeIgnoresOrderIff` | controller-go/internal/biz/scheduler_impl.go:448-460 | the frequency range is independent of candidate order exactly when frequencies are all known or all zero |
| `Scoring.MixedExtremes` | controller-go/internal/biz/scheduler_impl.go:448-460 | a list mixing zero and known frequencies has one order with a positive minimum and one with minimum zero |
| `Scoring.MeasureRange` | controller-go/internal/biz/scheduler_impl.go:448-460 | the loop computes the specified range |
| `Scheduler.EligibleIff` | controller-go/internal/biz/constraint.go:15-54 | passing the filter means passing all hard constraints together, whatever their order |
| `Scheduler.RecoverableIff` | controller-go/internal/biz/constraint.go:169-179 | the recorded reasons are all recoverable exactly when the node is enabled, in a schedulable health state and has been heard from, so a stale heartbeat is waited for |
| `Scheduler.NobodyBeatsTop` | controller-go/internal/biz/scheduler_impl.go:395-432 | the head of the sorted candidates has maximal score and, among equals, the least agent id |
| `Scheduler.BestIsUnbeaten` | controller-go/internal/biz/scheduler_impl.go:395-432 | the same for the candidate chosen under the list's own frequency range |
| `Scheduler.ScoredFields` | controller-go/internal/biz/scheduler_impl.go:395-445 | what is scored comes from the node's own fields and the job's wishes |
| `Scheduler.DegradedCosts` | controller-go/internal/biz/scheduler_impl.go:395-432 | a degraded node scores its weight less than if it were healthy |
| `Scheduler.DegradedIsNotBest` | controller-go/internal/biz/scheduler_impl.go:395-432 | of two candidates that differ in health only the degraded one is never chosen, if the weight is positive |
| `Scheduler.FavouredIsChosen` | controller-go/internal/biz/scheduler_impl.go:395-432 | of two candidates that differ in region, cache or history only, the one without is never chosen, if that weight is positive |
| `Scheduler.ScoresIgnoreOrderIff` | controller-go/internal/biz/scheduler_impl.go:395-460 | scores depend on the node set only, exactly when frequency plays no part or is known for all or for none |
| `Scheduler.BestIgnoresOrder` | controller-go/internal/biz/scheduler_impl.go:395-432 | then the chosen node does not depend on the order |
| `Scheduler.ChoiceIgnoresOrderIff` | controller-go/internal/biz/scheduler_impl.go:395-460 | the chosen node depends on the node set only, exactly when frequencies are settled or one node is the best whichever of the candidates' frequencies is taken for the lowest |
| `Scheduler.ListingFor` | controller-go/internal/biz/scheduler_impl.go:448-460 | every order of the frequencies is the order of some listing of the nodes |
| `ScheduleAttempts.OneReservationOrNone` | controller-go/internal/biz/scheduler_impl.go:231-320 | exactly one successful reserve call, the last, naming the answered node and status, or none; only lost races before it; at most one call per round |
| `ScheduleAttempts.ScheduledMeansPlaced` | controller-go/internal/biz/scheduler_impl.go:259-316 | scheduled means placed on the best eligible node of some round |
| `ScheduleAttempts.PlacedOnTheBest` | controller-go/internal/biz/scheduler_impl.go:237-292 | that node passed every hard constraint, its score is maximal among the eligible and ties go to the least id |
| `ScheduleAttempts.QueuedIff` | controller-go/internal/biz/scheduler_impl.go:248-257 | queued exactly when, after lost rounds only, a round finds no eligible node but candidates exist, the branch resolves, any forced region matches and every exclusion is recoverable |
| `ScheduleAttempts.QueuedIffWaitable` | controller-go/internal/biz/scheduler_impl.go:359-392 | the classification itself in those terms |
| `ScheduleAttempts.GivesUpIffAllLost` | controller-go/internal/biz/scheduler_impl.go:231-320 | the resource-shortage failure exactly when every round lost its ports or its reservation |
| `ScheduleAttempts.AnswerOfLastRound` | controller-go/internal/biz/scheduler_impl.go:231-320 | the answer by what happened in the first round that was not a lost race: placed, classified or an error |
| `ScheduleAttempts.RefusalCodes` | controller-go/internal/biz/scheduler_impl.go:359-392 | which refusal a round without eligible nodes gets |
| `ScheduleAttempts.RefusedUnattempted` | controller-go/internal/biz/scheduler_impl.go:205-228 | the two refusals before any round: cores that are not whole for a single-threaded game, and a resolved branch without a build |
| `ScheduleAttempts.DecisionIgnoresOrderIff` | controller-go/internal/biz/scheduler_impl.go:231-320 | nodes, reserve calls and answer are the same for every listing order exactly when, in every round the decision gets to and makes a call in, frequencies are settled among the eligible nodes or one of them is the best whichever frequency is taken for the lowest |
| `ScheduleAttempts.DecisionIgnoresOrder` | controller-go/internal/biz/scheduler_impl.go:231-320 | with settled frequencies the reported score is the same too |
| `ScheduleAttempts.UnknownFrequencyDecidesByPosition` | controller-go/internal/biz/scheduler_impl.go:448-460 | concrete nodes for which a node of unknown frequency listed first or last changes the choice |
| `ScheduleAttempts.RegionForceMattersIff` | controller-go/internal/biz/scheduler_impl.go:359-392 | the region switch changes the decision if and only if, after lost races only, some round finds no eligible node and no node of the region at all |
| `ScheduleAttempts.ForcedRegionBindsOnlyRefusals` | controller-go/internal/biz/scheduler_impl.go:359-392 | so while every round finds an eligible node the switch changes nothing |
| `ScheduleAttempts.PlacedOutsideForcedRegion` | controller-go/internal/biz/scheduler_impl.go:231-320 | and it places outside: with the region forced, a node of another region that passes the hard constraints and is alone takes the instance |
| `SchedulingLink.ScheduledAnswerIsAStep` | controller-go/internal/biz/reconcile_dispatcher.go:243-271 | a scheduled answer whose reservation passed the rechecks on the tables as they have become is an enabled life-cycle step, and leaves the instance in the state the reserve call named |
| `ResourceScheduler.ResourceAwareScheduler.ConstraintEnabled` | controller-go/internal/biz/constraint.go:57-64 | passes exactly for enabled agents and otherwise records why |
| `ResourceScheduler.ResourceAwareScheduler.ConstraintHealth` | controller-go/internal/biz/constraint.go:67-87 | passes exactly for healthy or degraded agents with a fresh heartbeat |
| `ResourceScheduler.ResourceAwareScheduler.ConstraintResources` | controller-go/internal/biz/constraint.go:90-97 | passes exactly if no dimension is short and otherwise records every short one |
| `ResourceScheduler.ResourceAwareScheduler.ConstraintPorts` | controller-go/internal/biz/constraint.go:100-107 | passes exactly if the ports can be planned |
| `ResourceScheduler.ResourceAwareScheduler.ConstraintCacheDisk` | controller-go/internal/biz/constraint.go:114-140 | passes exactly if the cache is there, its size unknown, or it fits the budget |
| `ResourceScheduler.ResourceAwareScheduler.ConstraintPressure` | controller-go/internal/biz/constraint.go:143-150 | passes exactly for nodes without pressure |
| `ResourceScheduler.ResourceAwareScheduler.ApplyConstraints` | controller-go/internal/biz/constraint.go:15-54 | true exactly for eligible nodes; records the reasons of the first failed constraint |
| `ResourceScheduler.ResourceAwareScheduler.IsResourceOnlyReasons` | controller-go/internal/biz/constraint.go:169-179 | true exactly if every reason is recoverable |
| `ResourceScheduler.ResourceAwareScheduler.FilterCandidates` | controller-go/internal/biz/scheduler_impl.go:236-246 | the eligible candidates in order, and whether all exclusions are recoverable |
| `ResourceScheduler.ResourceAwareScheduler.SliceStable` | controller-go/internal/biz/scheduler_impl.go:425-430 | a permutation in which nothing stands after something it should precede |
| `ResourceScheduler.ResourceAwareScheduler.PickBest` | controller-go/internal/biz/scheduler_impl.go:395-432 | the best eligible candidate, carrying its score |
| `ResourceScheduler.ResourceAwareScheduler.ClassifyNoCandidate` | controller-go/internal/biz/scheduler_impl.go:359-392 | the specified answer, counted once |
| `ResourceScheduler.ResourceAwareScheduler.HasRegionMatch` | controller-go/internal/biz/scheduler_impl.go:462-472 | true exactly if no region is asked for or some candidate is in it |
| `ResourceScheduler.ResourceAwareScheduler.ChooseNode` | controller-go/internal/biz/scheduler_impl.go:232-273 | one round's pick |
| `ResourceScheduler.ResourceAwareScheduler.TryRound` | controller-go/internal/biz/scheduler_impl.go:232-316 | one round's end |
| `ResourceScheduler.ResourceAwareScheduler.Schedule` | controller-go/internal/biz/scheduler_impl.go:196-321 | the answer and calls are the specified decision, and exactly one outcome counter goes up by one, none on an internal error |
| `ResourceScheduler.ResourceAwareScheduler.Record` | controller-go/internal/biz/scheduler_impl.go:491-503 | one counter up by one |
| `ResourceScheduler.CountersCountAnswers` | controller-go/internal/biz/scheduler_impl.go:491-503 | over any sequence of answers the counters scheduled, queued and failed have each grown by the number of such answers, and there are no others |
| `ResourceScheduler.ResolveBranch` | controller-go/internal/biz/scheduler_impl.go:176-194 | the branch named public if enabled, else the first enabled branch with a name, else none |
| `CacheReplicas.PassKeepsTarget` | controller-go/internal/biz/game_cache_manager.go:532-639 | whichever RPCs fail in a pass, the copies the nodes really hold are not fewer than before, or neither below the minimum nor below the number of serving nodes; no serving node loses its copy; in the cooldown none is lost |
| `CacheReplicas.PassDropsSurplus` | controller-go/internal/biz/game_cache_manager.go:561-592 | outside the cooldown, for every k that covers the minimum and the serving nodes: at most k copies stay in sight, or every ready, non-serving one that lets itself be deleted is gone; what is deleted is of that kind and leaves at least the minimum and one per serving node |
| `CacheReplicas.PassFetchesUpToMinimum` | controller-go/internal/biz/game_cache_manager.go:609-638 | copies in sight and on their way reach the minimum, or every reachable node without one was tried; none is fetched beyond it |
| `CacheReplicas.CurrentCopyIsLeftAlone` | controller-go/internal/biz/game_cache_manager.go:163-249 | a node that has or fetches the branch's own build is untouched unless its copy is deleted |
| `CacheReplicas.OnlyDeletesLoseCopies` | controller-go/internal/biz/game_cache_manager.go:561-639 | checking and pre-warming never cost a node its copy, whichever RPCs fail |
| `CacheReplicas.LosingPassOnlyRefreshes` | controller-go/internal/biz/game_cache_manager.go:561-639 | a pass in which a copy is lost starts downloads only on serving nodes and on nodes with a ready copy |
| `CacheReplicas.SecondPassIdleIff` | controller-go/internal/biz/game_cache_manager.go:532-639 | with every serving node covered, no failures and statuses otherwise at rest, a second pass is idle exactly unless the cooldown had held back up-to-date surplus |
| `CacheReplicas.UncoveredServingNodeDelaysDelete` | controller-go/internal/biz/game_cache_manager.go:594-607 | without the premise a second pass deletes: the first one starts the serving node's download |
| `CacheReplicas.CopiesAfter` | controller-go/internal/biz/game_cache_manager.go:532-639 | after a pass without failures the copies are those kept plus those fetched |
| `CacheReplicas.DeletableAfter` | controller-go/internal/biz/game_cache_manager.go:573-607 | what could still be deleted is what the pass left ready |
| `CacheReplicas.UpdateConverges` | controller-go/internal/biz/game_cache_manager.go:163-249 | a check fails exactly for an unavailable cache or one ahead of the branch and then changes nothing; otherwise a download is under way or the branch's build is ready; repeating it changes nothing |
| `CacheManager.GameCacheManager.GetNodeCache` | controller-go/internal/biz/game_cache_manager.go:368-402 | failure, not found or what the node holds |
| `CacheManager.GameCacheManager.RemoveBranchCache` | controller-go/internal/biz/game_cache_manager.go:322-364 | on success the node holds nothing, on failure nothing changed |
| `CacheManager.GameCacheManager.TriggerDownload` | controller-go/internal/biz/game_cache_manager.go:252-266 | on success only that node fetches the build, unless it has or fetches it already |
| `CacheManager.GameCacheManager.CheckAndUpdate` | controller-go/internal/biz/game_cache_manager.go:163-249 | refines the decision table on that node only |
| `CacheManager.GameCacheManager.CollectStates` | controller-go/internal/biz/game_cache_manager.go:539-559 | missing and unreachable nodes look empty; removed and unavailable ones are not listed |
| `CacheManager.GameCacheManager.DeleteSurplus` | controller-go/internal/biz/game_cache_manager.go:561-592 | for every iteration order: only ready, non-serving copies, down to the target or until all were tried, none in the cooldown; deleting starts it |
| `CacheManager.GameCacheManager.UpdateKept` | controller-go/internal/biz/game_cache_manager.go:594-607 | exactly the serving or ready nodes that were not deleted are checked |
| `CacheManager.GameCacheManager.PrewarmMissing` | controller-go/internal/biz/game_cache_manager.go:609-638 | for every iteration order: only nodes without a copy, up to the minimum or until all were tried |
| `CacheManager.GameCacheManager.ReconcileBranch` | controller-go/internal/biz/game_cache_manager.go:532-639 | for every iteration order and every pattern of RPC failures the fleet afterwards is what one pass allows |
| `CacheManager.DeletesAreTenMinutesApart` | controller-go/internal/biz/game_cache_manager.go:642-655 | over every sequence of passes two that delete copies of one branch are at least ten minutes apart |
| `CacheManager.CooldownEnds` | controller-go/internal/biz/game_cache_manager.go:642-655 | and no longer than that, and per branch |
| `CacheManager.ServingNodesByBranch` | controller-go/internal/biz/game_cache_manager.go:495-515 | exactly the nodes on which an instance in a cache-referencing state runs that branch; only branches with such a node are listed |
| `CacheManager.SyncAndRecordBranch` | controller-go/internal/biz/game_cache_manager.go:77-154 | listed branches get the listed build and keep their status, new ones are enabled only if public, vanished ones are abandoned |
| `CacheManager.StatusAfterListing` | controller-go/internal/biz/game_cache_manager.go:77-154 | a listed branch is stored; a new one is enabled exactly if it is named public, a known one keeps its status |
| `CacheManager.BranchesAfterListing` | controller-go/internal/biz/game_cache_manager.go:77-154 | the stored branches are the old and the listed ones; each listed one has a build listed for it, each vanished one is abandoned with its old build |
| `CacheManager.AbandonedStaysAbandoned` | controller-go/internal/biz/game_cache_manager.go:113-149 | a vanished branch stays abandoned when it is listed again |
| `CacheManager.SyncIsIdempotent` | controller-go/internal/biz/game_cache_manager.go:77-154 | synchronizing twice with the same listing equals once |
| `VersionOrder.TotalPreorder` | asset_service/src/service/asset_service.rs:553-577 | total and transitive across missing, non-numeric and zero-padded numeric tags |
| `VersionOrder.FirstDifferenceDecides` | asset_service/src/service/asset_service.rs:559-570 | the first zero-padded segment that differs decides |
| `VersionOrder.SameIffPaddedEqual` | asset_service/src/service/asset_service.rs:559-570 | two versions are the same exactly if all padded segments are |
| `VersionOrder.ParseRoundTrip` | asset_service/src/service/asset_service.rs:534-547 | a dotted version behind any digit-free prefix parses back to itself |
| `VersionOrder.NonNumericIff` | asset_service/src/service/asset_service.rs:534-547 | a tag has no version exactly if it holds no digit or one of its numbers exceeds 64 bits |
| `VersionOrder.SegmentFitsIff` | asset_service/src/service/asset_service.rs:534-547 | a segment is a number up to 18446744073709551615, so every segment of at most 19 digits is |
| `VersionOrder.ParseVersion` | asset_service/src/service/asset_service.rs:534-547 | the loop computes the specified segments |
| `VersionOrder.CompareImageTags` | asset_service/src/service/asset_service.rs:553-577 | the loop computes the specified order |
| `BuildRegistry.ResolvesToLastBest` | asset_service/src/service/asset_service.rs:106-139 | the last listed of the best serving builds, none exactly if no build serves the channel |
| `BuildRegistry.ResolvesToOffered` | asset_service/src/service/asset_service.rs:106-139 | a channel resolves to one of its Available or Deprecated builds, none exactly if it has none; it gives way to no other: to none that is Available if it is deprecated, to no higher tag of its status, nor an equal one listed later |
| `BuildRegistry.PreparedBuild` | asset_service/src/service/asset_service.rs:184-293 | an accepted request keeps game and tag, gets the generated id, its own channel or its base's, and pinning if asked |
| `BuildRegistry.PreparedFields` | asset_service/src/service/asset_service.rs:184-293 | field by field: the build's own value, else its base's; the adapter at last from the schema |
| `BuildRegistry.BaseOf` | asset_service/src/service/asset_service.rs:184-225 | a named base must be stored and of the same game and channel; without a name it is the first listed Available build of the channel, if any |
| `BuildRegistry.RefusedIff` | asset_service/src/service/asset_service.rs:184-212 | which requests are refused for tag, game or base, and with which error first |
| `BuildRegistry.RefusedLaterIff` | asset_service/src/service/asset_service.rs:225-293 | and which, past those, for schema, adapter or id |
| `BuildRegistry.RegisteringRetires` | asset_service/src/service/asset_service.rs:303-320 | exactly the other unpinned Available builds of that game and channel become Deprecated; all others, other channels included, are unchanged |
| `BuildRegistry.ReuploadTouchesOneRecord` | asset_service/src/service/asset_service.rs:295-301 | a stored id changes its own record only |
| `BuildRegistry.NewVersionResolvesIff` | asset_service/src/service/asset_service.rs:106-139 | after registering a new tag its channel resolves to it, for every listing order, exactly when no pinned Available build has a higher tag, or an equal one listed later |
| `BuildRegistry.OneCurrentKeptIff` | asset_service/src/service/asset_service.rs:295-320 | at most one unpinned Available build per channel is kept exactly unless a stored unpinned build comes back beside another current one |
| `BuildRegistry.ReuploadLeavesTwoCurrent` | asset_service/src/service/asset_service.rs:295-320 | the sequence: a version, its successor, and the first one uploaded again |
| `BuildRegistry.OneCurrentOverEveryRun` | asset_service/src/service/asset_service.rs:303-320 | over any sequence of new tags no channel has two current versions |
| `BuildRegistry.IdsAreInjective` | asset_service/src/service/asset_service.rs:277-293 | generated ids tell builds apart when games and channels contain no dash |
| `BuildRegistry.IdsCollideIff` | asset_service/src/service/asset_service.rs:277-293 | two channels share an id for some tags if and only if what stands before the tag in one is a prefix of what stands there in the other |
| `BuildRegistry.DashedNamesCollide` | asset_service/src/service/asset_service.rs:277-293 | with dashes different channels, or games, share ids |
| `BuildRegistry.AssetService.FindDefaultBase` | asset_service/src/service/asset_service.rs:214-220 | the first listed Available build of the requested channel |
| `BuildRegistry.AssetService.RegisterGameBuild` | asset_service/src/service/asset_service.rs:159-321 | answer and repository are the specified registration, refused requests change nothing |
| `BuildRegistry.AssetService.Store` | asset_service/src/service/asset_service.rs:295-320 | the deprecating loop leaves exactly the specified repository |
| `FrameStream.RoundTripIff` | dsh-tools/gcdebug-bridge.js:173-231 | for every cutting of the bytes into chunks exactly the messages come back, if and only if every length field is below 2^24 |
| `FrameStream.AnyChunkingDelivers` | dsh-tools/gcdebug-bridge.js:188-209 | short messages come out complete, in order, and nothing is left over |
| `FrameStream.LongFrameIsMisread` | dsh-tools/gcdebug-bridge.js:193-205 | a longer message fully in the buffer is never delivered as itself |
| `FrameStream.WaitsIff` | dsh-tools/gcdebug-bridge.js:190-208 | the buffer waits exactly if it holds less than a header, or less than the message its header announces |
| `FrameStream.OldStyleErrorIsText` | dsh-tools/gcdebug-bridge.js:193-205 | a text without leading zero byte is delivered up to its zero byte, or as it stands |
| `FrameStream.TooShortLength` | dsh-tools/gcdebug-bridge.js:190-208 | a length below 4 gives an empty message, and reading goes on behind that length |
| `FrameStream.BigEndianRoundTrip` | dsh-tools/gcdebug-bridge.js:47-51 | the length field reads back, and its first byte is zero exactly below 2^24 |
| `FrameStream.Split` | dsh-tools/gcdebug-bridge.js:190-208 | every turn that delivers shortens the buffer |
| `FrameStream.Stream.CutOne` | dsh-tools/gcdebug-bridge.js:190-208 | one turn: message and rest, or wait and change nothing |
| `FrameStream.Stream.Deliver` | dsh-tools/gcdebug-bridge.js:178-184 | to the oldest pending read, else to the inbox |
| `FrameStream.Stream.OnData` | dsh-tools/gcdebug-bridge.js:188-209 | everything the buffer holds is delivered in order, the oldest messages to the oldest reads |
| `FrameStream.Stream.Next` | dsh-tools/gcdebug-bridge.js:219-230 | the oldest undelivered message, a place in line, or rejection once closed |
| `FrameStream.Stream.Expire` | dsh-tools/gcdebug-bridge.js:223-228 | a timed-out read is rejected but keeps its place in line |
| `FrameStream.Stream.Close` | dsh-tools/gcdebug-bridge.js:210-218 | pending reads are rejected, undelivered messages stay |
| `FrameStream.LostIffExpiredReadInLine` | dsh-tools/gcdebug-bridge.js:178-184 | a message is lost exactly when a timed-out read stands in line for it |
| `PressureMonitor.StatusIsStandingAlarm` | controller-go/internal/biz/pressure_monitor.go:135-166 | the status from the samples alone: raised exactly while an alarm stands that no recovery has followed, at the level of the sample that raised it last |
| `PressureMonitor.CountersAreRuns` | controller-go/internal/biz/pressure_monitor.go:135-166 | up is exactly the trailing run of samples at or above the lower threshold; down the trailing run below it while not Normal |
| `PressureMonitor.LeavesNormalOnlyAfterObservation` | controller-go/internal/biz/pressure_monitor.go:143-154 | Normal is left only when that run reaches observePeriods, to Critical exactly on a critical sample |
| `PressureMonitor.ReturnsToNormalIff` | controller-go/internal/biz/pressure_monitor.go:155-164 | Normal returns exactly in the round that completes recoverPeriods samples below |
| `PressureMonitor.InvertedIff` | controller-go/internal/biz/pressure_monitor.go:45-50 | the corrected thresholds are inverted exactly for a warning threshold above 95 with an unusable critical one |
| `PressureMonitor.InvertedNeverWarns` | controller-go/internal/biz/pressure_monitor.go:143-154 | then Warning is never reported |
| `PressureMonitor.LastSamples` | controller-go/internal/biz/pressure_monitor.go:183-188 | the newest n samples, or all |
| `PressureMonitor.Monitor.LatestUtilization` | controller-go/internal/biz/pressure_monitor.go:191-216 | the peak of the samples' CPU and memory shares in percent |
| `PressureMonitor.Monitor.PressureStep` | controller-go/internal/biz/pressure_monitor.go:135-166 | refines the step function |
| `PressureMonitor.Monitor.EvaluateNode` | controller-go/internal/biz/pressure_monitor.go:105-130 | for any stored status: without samples nothing changes, otherwise status and counters make one step on the window's peak, so a status that is that of the node's rounds stays so; other nodes are untouched |
| `PressureMonitor.StoredStatusStandsUntilDecided` | controller-go/internal/biz/pressure_monitor.go:135-166 | whatever status was stored when a monitor starts, it stands until the first alarm or recovery; from then on it is the status of the samples |
| `Predictor.Ewma` | game_node/src/service.rs:36-52 | the loop computes the smoothed value, None for no samples or a bad weight |
| `Predictor.SmoothedFrom` | game_node/src/service.rs:36-52 | no value exactly without samples or with a weight outside (0, 1]; one sample is its own value |
| `Predictor.SmoothedStep` | game_node/src/service.rs:36-52 | each further sample draws the value towards itself by the weight's share of the distance |
| `Predictor.SmoothedBetween` | game_node/src/service.rs:36-52 | the smoothed value stays between the least and the greatest sample |
| `Predictor.SmoothedMonotone` | game_node/src/service.rs:36-52 | raising samples never lowers it |
| `Predictor.PercentileBetween` | game_node/src/service.rs:54-87 | the interpolated percentile stays between the least and the greatest sample |
| `Predictor.PercentileMonotone` | game_node/src/service.rs:54-87 | it never falls as the rank rises |
| `Predictor.PercentileEnds` | game_node/src/service.rs:54-87 | 0 gives the least and 100 the greatest sample |
| `Predictor.RankIsProportional` | game_node/src/service.rs:54-87 | the rank times 100 is the percentile times the number of gaps between samples |
| `Predictor.PercentileIsAtRank` | game_node/src/service.rs:54-87 | the percentile is the value at its rank among the sorted samples |
| `Predictor.AtRankLinear` | game_node/src/service.rs:54-87 | at a whole rank that sample, in between the straight line between the neighbours |
| `Predictor.PercentileIgnoresOrder` | game_node/src/service.rs:54-87 | it does not depend on the order of the samples |
| `Predictor.TrendFollowsSamples` | game_node/src/service.rs:89-122 | samples that never fall show no drop, samples that never rise no increase, and the trends mirror each other |
| `Predictor.ChooseCpuBase` | game_node/src/service.rs:125-152 | the smoothed value raised to the percentile; the instant limit only yields a warning |
| `Predictor.PredictCanStart` | game_node/src/predict.rs:4-169 | decision, risk grade, projections, intermediate values and reasons are the specified ones |
| `Predictor.CanStartIff` | game_node/src/predict.rs:72-137 | a start is allowed exactly while CPU, memory and available memory keep their limits, no trend exceeds its own and swap is not tight, each check only if enabled |
| `Predictor.DemandIsChargedInFull` | game_node/src/predict.rs:4-75 | expected use times its multiplier and the margin are added to the CPU base and taken off the available memory, in full |
| `Predictor.Bases` | game_node/src/predict.rs:14-71 | the CPU base is the smoothed value if that check is on, never below the percentile, else what is measured now; the memory base the percentile if on, else what is measured now |
| `Predictor.ProjectedMemoryIsShareUsed` | game_node/src/service.rs:167-176 | the projected usage is the percentage of the total that is not available, never negative |
| `Predictor.WarnedIff` | game_node/src/service.rs:125-152 | the warning is given exactly if the CPU is above the instant limit now |
| `Predictor.RiskBands` | game_node/src/service.rs:209-231 | the grade by parts of the thresholds: all, 0.85 and 0.7 of the CPU threshold, or none, a fifth and half of the reserve left |
| `Predictor.Measure` | game_node/src/predict.rs:14-52 | the smoothed values, percentiles and trends, each only if its check is enabled |
| `Predictor.MemoryUsageNeverDecides` | game_node/src/predict.rs:68-71 | the memory usage samples are smoothed and reported, but whatever they are, decision, reasons and grade stay the same |
| `Predictor.ReportedIff` | game_node/src/predict.rs:50-146 | a reason is reported exactly if its check blocks, or it is the CPU warning, or all is well |
| `Predictor.MoreDemandNeverHelps` | game_node/src/predict.rs:4-146 | expecting more of any resource, or a higher multiplier on a demand that is not negative, never turns a refusal into an admission nor lowers the grade |
| `Predictor.SwapRiskMonotone` | game_node/src/service.rs:179-206 | neither does more swap |
| `Predictor.InstantLimitNeverBlocks` | game_node/src/service.rs:140-148 | whatever the instant CPU limit is, the decision is the same |
| `Predictor.RiskMonotoneIff` | game_node/src/service.rs:209-231 | more demand never lowers the risk grade, if and only if the CPU threshold is not negative |
| `Predictor.AllowedYetCriticalIff` | game_node/src/service.rs:209-231 | an admitted start is graded critical exactly at a positive CPU threshold itself, or under any negative one |
| `FrameStream.Frame` | dsh-tools/gcdebug-bridge.js:47-51 | one byte longer than the length field says |
| `FrameStream.DrainPrefix` | dsh-tools/gcdebug-bridge.js:188-209 | from any prefix of the frames of short messages exactly the complete ones come out and the rest stays |
| `PortTable.Without` | controller-go/internal/biz/game_container_port_mapper.go:265-278 | exactly the rows of other instances |
| `PortTable.RowsOf` | controller-go/internal/biz/game_container_port_mapper.go:289-296 | exactly the instance's rows |
| `PortTable.RowsOfAppend` | controller-go/internal/biz/game_container_port_mapper.go:289-296 | older rows of the instance come first |
| `PortMapper.GameContainerPortMapper.FirstFit` | controller-go/internal/biz/game_container_port_mapper.go:123-173 | the loop over sorted container ports equals first fit over all of them |
| `PortMapper.GameContainerPortMapper.PlaceContainer` | controller-go/internal/biz/game_container_port_mapper.go:124-172 | one host port for both protocols, marked used, and one or two rows |
| `PortMapper.GameContainerPortMapper.BlockMappings` | controller-go/internal/biz/game_container_port_mapper.go:368-405 | equals the block rows |
| `PortMapper.GameContainerPortMapper.OffsetMappings` | controller-go/internal/biz/game_container_port_mapper.go:370-405 | the rows of one block offset, flagged exactly at the base |
| `PortMapper.ProtocolsOf` | controller-go/internal/biz/game_container_port_mapper.go:374-383 | exactly the protocols the scan finds on that port |
| `PortMapper.MarkWholeBlock` | controller-go/internal/biz/game_container_port_mapper.go:361-366 | the whole block is used in both protocol spaces |
| `Credentials.CredentialPool.ScanOnce` | controller-go/internal/biz/credential_use_case.go:179-200 | acquires and returns the first wanted row of the listing, in the reuse pass only rows this instance used last; nothing if none is wanted |
| `Controller.ReconcileDispatcher.Resubmit` | controller-go/internal/biz/game_instance_use_case.go:202-233 | pending again, with a queued worker, unless the index refuses the save |
| `Controller.ReconcileDispatcher.SaveIndexed` | controller-go/migrations/000027_game_instances_subscription_id.up.sql:10-13 | saving a row in an indexed state succeeds exactly when no other instance of the subscription is in an indexed state, and otherwise changes nothing |
| `Controller.ReconcileDispatcher.Save` | controller-go/internal/biz/reconcile_dispatcher.go:633-669 | replaces that instance's row only |
| `ResourceScheduler.ResourceAwareScheduler.RunAttempts` | controller-go/internal/biz/scheduler_impl.go:231-320 | the retry loop computes the specified attempts, counted once |
| `ResourceScheduler.ResourceAwareScheduler.LoadCandidates` | controller-go/internal/biz/candidate.go:63-103 | fresh, distinct candidates over the snapshot, nothing recorded yet |
| `ResourceScheduler.NodeCandidate.Exclude` | controller-go/internal/biz/constraint.go:57-64 | reasons are appended, never replaced |
| `PressureMonitor.Sanitize` | controller-go/internal/biz/pressure_monitor.go:35-73 | both periods are positive |
| `PressureMonitor.StatusStep` | controller-go/internal/biz/pressure_monitor.go:135-166 | a round sets the status exactly on an alarm and clears it exactly on a recovery |
| `Scoring.MaxIsTheMaximum` | controller-go/internal/biz/scheduler_impl.go:448-460 | the maximum never depends on the order |
| `Backoff.LeastExponent` | controller-go/internal/biz/queue.go:98-113 | the least number of doublings that reaches the cap |
| `LifecycleLimits.ForgottenHoldingBreaksSum` | controller-go/internal/biz/game_instance_use_case.go:379-396 | dropping a bound row while the counters keep its request breaks the node's sum |
| `CacheManager.GameCacheManager.CountCopies` | controller-go/internal/biz/game_cache_manager.go:567-572 | the number of copies, for every iteration order |

## Left out

Premises of the life-cycle model:

- One event is one database-level step: load, act, save. Crashes between a committed reservation and the save after it, and races inside one step, are not modelled.
- Scheduling and the save of its outcome are one step; each instance has at most one worker, queued or polling.
- Cancel, delete and waking of a queued instance happen while no worker holds it: what waits in the dispatch queue is a copy of the row, and an instance cancelled or woken again meanwhile would still be scheduled from it. A running instance is not deleted in the runs the invariant ranges over (the exact effect of doing so is stated).
- Apart from the index over subscriptions, repository reads and writes, and the agent and node look-ups of a release, succeed; the failing look-ups before a stage RPC are one RPC outcome.
- The status a finished build preparation passes on in memory without saving is taken as saved.
- Clocks are one integer that only moves forward.
- Rows of one instance are listed in the order they were inserted, although the query (controller-go/internal/repository/gorm/container_port_mapping_repo.go:35-42) asks for no order; `PortMapper.EveryListingNamesNewBlockIff` does without this premise.

Not modelled:

- gRPC, HTTP, SQL, object storage, Docker and steamcmd plumbing, handlers, proto mapping and the web UI.
- ForceDispatch, Recover at start-up, and administrators' edits of capacity, branches, credentials and instances: they bypass the state machine's premises.
- The event-driven wake-up that resets a row's back-off: the dispatcher never asks for it.
- Queue priorities: the due list is taken in the order it is given.
- Validation of instance configurations and schemas; a build's schema is reduced to valid or not and the adapter it names.
- Audit logs, published events and the persisted copy of the outcome counters.
- How utilization history and bandwidth ratios are averaged from samples; they are inputs of the score.
- The algorithm of the library sorts; they are represented by insertion sorts.
- Preview, the dry run of the scheduler.
- Random identifiers of port rows; a row is identified by its content.
- A shared host port for TCP and UDP below the game base: the code allocates per excerpt there.
- Caches of other branches: the manager's fleet is the one of the branch being reconciled, and its pass over disabled branches is not modelled.
- A failed remove or download RPC is taken to have had no effect on the node.
- SCRAM and MD5 authentication, and value conversion in the bridge.
- Floating-point rounding: scores, capacities, pressure and predictions are over reals or rationals with floor; infinities and NaN occur only where the risk grade divides by a CPU threshold of (positive) zero.
- File server, tokens, log tailing and the self-update swap.

Contracts weaker than the code or the design:

- PortPlan.OneProtocolPlanExistsIffEnoughFree: demands in one protocol; demands that all want both are PortPlan.SharedPlanExistsIffEnoughFree, and for mixed ones only the bounds of PortPlan.RoomyPlanExists and PortPlan.PlanNeedsSharedPorts are stated, because there first fit depends on which host ports are free, not only on how many.
- LifecycleSubscriptions.NoSaveIsRefused: instances whose subscription id is the empty string are excluded, because for them it is false; what the dispatcher does after such a refused save, with the row in memory ahead of the stored one, is not modelled.
- ScheduleAttempts.DecisionIgnoresOrder: settled frequencies are sufficient for the score as well; for everything else in the decision the condition is exact in ScheduleAttempts.DecisionIgnoresOrderIff.
- CacheReplicas.SecondPassIdleIff: requires every serving node the pass can see to hold or fetch the branch, because otherwise a second pass can act.
- BuildRegistry.IdsAreInjective: requires names without dashes; the exact condition for a pair of channels is BuildRegistry.IdsCollideIff.
- LifecycleTermination.LifecycleTerminates: counts the instance's worker steps; how long a poll or a wait for the queue takes in real time is not bounded beyond the queue timeout.
- Controller.ReconcileDispatcher.DispatchScheduling: the scheduler's choice is an input that must be reservable; that the scheduler's answers are is SchedulingLink.ScheduledAnswerIsAStep.
- Controller.ReconcileDispatcher.CancelGameInstance: a queued instance that the waker has already handed to the dispatch queue is excluded, as the one-worker premise demands.
- Controller.ReconcileDispatcher.DeleteGameInstance: likewise, and so is a running instance; what deleting one does is LifecycleLimits.DeleteConservesIffNotRunning.
- Controller.ReconcileDispatcher.WakeRow: a queued instance that already sits in the dispatch queue is excluded for the same reason.
- Controller.ReconcileDispatcher.WakeOnce: likewise, for every instance of the due list.
- LifecycleScenarios.OldMarkFencesFromScratch: one run of the failing family, without credentials and without host ports; the condition for all runs is LifecycleLimits.StaleMarkFencesIff.
