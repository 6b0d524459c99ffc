/**
 * The controller's imperative side: ReconcileDispatcher, QueueManager, QueueWaker and the
 * start/stop/retry use case over the tables they mutate. Each entry point is proved to make the
 * step of Lifecycle it is named after.
 */
module Controller {
  import opened Wrappers
  import opened Entities
  import opened Resources
  import opened PortTable
  import opened Lifecycle
  import opened LifecycleRuns
  import PortMapper
  import Credentials

  class ReconcileDispatcher {
    const c: Setup
    const credentials: Credentials.CredentialPool
    const portMapper: PortMapper.GameContainerPortMapper

    var instances: map<InstanceId, Instance>
    var queueRows: map<InstanceId, QueueRow>
    var operationRetryCounts: map<InstanceId, nat>
    var offlineSince: map<InstanceId, int>
    var tasks: map<InstanceId, Task>
    var reserved: map<NodeId, Vec>
    var now: int

    constructor (c: Setup, credentials: Credentials.CredentialPool, portMapper: PortMapper.GameContainerPortMapper)
      requires c.Valid()
      ensures this.c == c && this.credentials == credentials && this.portMapper == portMapper
      ensures Shows(World(map[], map n | n in c.limits :: ZERO, portMapper.table, credentials.rows, 0))
    {
      this.c, this.credentials, this.portMapper := c, credentials, portMapper;
      instances, queueRows, operationRetryCounts, offlineSince, tasks := map[], map[], map[], map[], map[];
      reserved := map n | n in c.limits :: ZERO;
      now := 0;
    }

    // ------------------------------------------------------------ abstraction

    /** What the tables say about one id. */
    ghost function SlotAt(id: InstanceId): Slot
      reads this
    {
      Slot(if id in instances then Some(instances[id]) else None,
           if id in queueRows then Some(queueRows[id]) else None,
           if id in operationRetryCounts then operationRetryCounts[id] else 0,
           if id in offlineSince then Some(offlineSince[id]) else None,
           if id in tasks then Some(tasks[id]) else None)
    }

    /** The tables are those of this world. */
    ghost predicate Shows(w: World)
      reads this, credentials, portMapper
    {
      && (forall id :: SlotAt(id) == w.At(id))
      && reserved == w.reserved && portMapper.table == w.ports && credentials.rows == w.pool && now == w.now
    }

    /** The tables are those of w after storing the slot and carrying out the effects. */
    ghost predicate Committed(w: World, id: InstanceId, s: Slot, fx: Effects)
      reads this, credentials, portMapper
    {
      && SlotAt(id) == s && (forall other :: other != id ==> SlotAt(other) == w.At(other))
      && reserved == ReservedAfter(c, w.reserved, w.At(id), fx)
      && portMapper.table == PortsAfter(w.ports, id, fx)
      && credentials.rows == PoolAfter(w.pool, id, if w.At(id).inst.Some? then w.At(id).inst.value.game else "", fx)
      && now == w.now
    }

    /** What a step commits is what the tables then show. */
    lemma CommittedShows(w: World, e: Event, s: Slot, fx: Effects)
      requires Enabled(c, w, e) && !e.Tick? && Committed(w, e.id, s, fx)
      requires (s, fx) == Local(c, w.now, w.At(e.id), e, Admitted(w, e), Granted(w, e))
      ensures Shows(Step(c, w, e))
    {
    }

    /** Without declared credentials an allocation round changes nothing. */
    lemma NothingAllocated(pool: Credentials.Pool, id: InstanceId, game: string, fx: Effects)
      requires fx.allocate == []
      ensures PoolAfter(pool, id, game, fx) == if fx.freeCredentials then Credentials.ReleaseBy(pool, id) else pool
    {
    }

    /** A step without effects: only the slot of its instance has changed. */
    lemma QuietStepShows(w: World, e: Event, s: Slot)
      requires Enabled(c, w, e) && !e.Tick? && (s, NOTHING) == Local(c, w.now, w.At(e.id), e, Admitted(w, e), Granted(w, e))
      requires SlotAt(e.id) == s && forall other :: other != e.id ==> SlotAt(other) == w.At(other)
      requires reserved == w.reserved && portMapper.table == w.ports && credentials.rows == w.pool && now == w.now
      ensures Shows(Step(c, w, e))
    {
      NothingAllocated(w.pool, e.id, if w.At(e.id).inst.Some? then w.At(e.id).inst.value.game else "", NOTHING);
      assert Committed(w, e.id, s, NOTHING);
      CommittedShows(w, e, s, NOTHING);
    }

    /** A reservation is given back alike with and without an offline mark. */
    lemma MarkIsNoHolding(before: map<NodeId, Vec>, s: Slot, fx: Effects)
      ensures ReservedAfter(c, before, s.(offline := None), fx) == ReservedAfter(c, before, s, fx)
    {
    }

    // ----------------------------------------------------------------- helpers

    /** instanceRepo.Save */
    method Save(id: InstanceId, i: Instance)
      modifies this`instances
      ensures instances == old(instances)[id := i]
      ensures SlotAt(id) == old(SlotAt(id)).Put(i)
      ensures forall other :: other != id ==> SlotAt(other) == old(SlotAt(other))
    {
      instances := instances[id := i];
    }

    /** Into the dispatch queue, unless the state is final. */
    method RequestDispatch(id: InstanceId) returns (accepted: bool)
      requires id in instances
      modifies this`tasks
      ensures accepted == instances[id].status.IsDispatchable()
      ensures tasks == if accepted then old(tasks)[id := InQueue] else old(tasks)
    {
      accepted := instances[id].status.IsDispatchable();
      if accepted {
        tasks := tasks[id := InQueue];
      }
    }

    method RetryOperation(id: InstanceId) returns (again: bool)
      modifies this`operationRetryCounts
      ensures again == (old(SlotAt(id)).retries + 1 <= RETRY_MAX)
      ensures operationRetryCounts ==
              if again then old(operationRetryCounts)[id := old(SlotAt(id)).retries + 1] else old(operationRetryCounts) - {id}
    {
      var count := (if id in operationRetryCounts then operationRetryCounts[id] else 0) + 1;
      if count > RETRY_MAX {
        operationRetryCounts := operationRetryCounts - {id};
        return false;
      }
      operationRetryCounts := operationRetryCounts[id := count];
      return true;
    }

    method ClearRetryCount(id: InstanceId)
      modifies this`operationRetryCounts
      ensures operationRetryCounts == old(operationRetryCounts) - {id}
    {
      operationRetryCounts := operationRetryCounts - {id};
    }

    /** Give the bound request back to the agent's node. */
    method ReleaseReservation(id: InstanceId)
      requires id in instances
      modifies this`reserved
      ensures reserved == Release(c, old(reserved), SlotAt(id))
    {
      var i := instances[id];
      if i.agent.None? || i.req.None? {
        return;
      }
      if i.agent.value in c.agents {
        var node := c.agents[i.agent.value];
        if node in reserved {
          reserved := reserved[node := GiveBack(reserved[node], i.req.value)];
        }
      }
    }

    /** FailedInstance; the worker that reports the failure ends here. */
    method FailedInstance(id: InstanceId)
      requires id in instances
      modifies this`instances, this`reserved, this`tasks, credentials
      ensures var (s, fx) := Fail(old(SlotAt(id)), NOTHING);
              && SlotAt(id) == s
              && reserved == ReservedAfter(c, old(reserved), old(SlotAt(id)), fx)
      ensures credentials.rows == Credentials.ReleaseBy(old(credentials.rows), id)
      ensures forall other :: other != id ==> SlotAt(other) == old(SlotAt(other))
    {
      credentials.ReleaseByInstance(id);
      var i := instances[id];
      if i.agent.Some? && i.req.Some? && i.status != Scheduling {
        ReleaseReservation(id);
      }
      var keepBinding := i.status == Stopping || i.status == Cleaning;
      var failed := i.(status := Failed, failedFrom := Some(i.status));
      if keepBinding {
        failed := failed.(req := None);
      } else {
        failed := failed.(agent := None);
      }
      instances := instances[id := failed];
      tasks := tasks - {id};
    }

    /** handleDispatchError, and the retryable branch of PollingResult. */
    method HandleDispatchError(id: InstanceId, retryable: bool)
      requires id in instances && instances[id].status.IsStage()
      modifies this`instances, this`reserved, this`tasks, this`operationRetryCounts, credentials
      ensures var (s, fx) := if retryable then RetryOrFail(old(SlotAt(id)), NOTHING) else Fail(old(SlotAt(id)), NOTHING);
              && SlotAt(id) == s
              && reserved == ReservedAfter(c, old(reserved), old(SlotAt(id)), fx)
              && credentials.rows == if fx.freeCredentials then Credentials.ReleaseBy(old(credentials.rows), id) else old(credentials.rows)
      ensures forall other :: other != id ==> SlotAt(other) == old(SlotAt(other))
    {
      if retryable {
        var again := RetryOperation(id);
        if again {
          var accepted := RequestDispatch(id);
          return;
        }
      }
      FailedInstance(id);
    }

    /** One allocation per declared credential; false when a required pool is empty. */
    method AllocateCredentials(id: InstanceId, game: string, specs: seq<CredSpec>) returns (granted: bool)
      modifies credentials
      ensures (credentials.rows, granted) == AllocateAll(old(credentials.rows), game, specs, id)
    {
      var k := 0;
      while k < |specs|
        invariant 0 <= k <= |specs|
        invariant AllocateAll(old(credentials.rows), game, specs, id) == AllocateAll(credentials.rows, game, specs[k..], id)
      {
        var secret := credentials.AllocateForInstance(game, specs[k].pool, id);
        if secret.None? && specs[k].required {
          return false;
        }
        assert specs[k..][1..] == specs[k + 1..];
        k := k + 1;
      }
      return true;
    }

    // ---------------------------------------------------------------- dispatch

    /** A pending or woken instance enters scheduling. */
    method PromoteToScheduling(id: InstanceId, ghost w: World)
      requires Shows(w) && Enabled(c, w, Promote(id))
      modifies this`instances, this`tasks
      ensures Shows(Step(c, w, Promote(id)))
    {
      assert SlotAt(id) == w.At(id);
      var i := instances[id];
      Save(id, i.(status := Scheduling));
      var accepted := RequestDispatch(id);
      QuietStepShows(w, Promote(id), w.At(id).Advance(Scheduling));
    }

    /** TryReserve: recheck resources and ports under the node's lock, then reserve and write the rows. */
    method TryReserve(p: Placement) returns (ok: bool)
      requires p.agent in c.agents && c.agents[p.agent] in c.limits && c.agents[p.agent] in reserved
      modifies this`reserved, portMapper
      ensures ok == (RecheckPasses(c.limits[c.agents[p.agent]], old(reserved)[c.agents[p.agent]], p.req)
                     && Rebindable(old(portMapper.table), p.plan))
      ensures ok ==> reserved == old(reserved)[c.agents[p.agent] := Add(old(reserved)[c.agents[p.agent]], p.req)]
                     && portMapper.table == old(portMapper.table) + p.plan
      ensures !ok ==> reserved == old(reserved) && portMapper.table == old(portMapper.table)
    {
      var node := c.agents[p.agent];
      if !RecheckPasses(c.limits[node], reserved[node], p.req) {
        return false;
      }
      var k := 0;
      while k < |p.plan|
        invariant 0 <= k <= |p.plan|
        invariant forall m, r :: m in p.plan[..k] && r in portMapper.table ==> !Clash(m, r)
      {
        if exists r :: r in portMapper.table && Clash(p.plan[k], r) {
          assert p.plan[k] in p.plan;
          return false;
        }
        assert p.plan[..k + 1] == p.plan[..k] + [p.plan[k]];
        k := k + 1;
      }
      assert p.plan[..k] == p.plan;
      reserved := reserved[node := Add(reserved[node], p.req)];
      portMapper.SaveAll(p.plan);
      return true;
    }

    /** The scheduling branch of Dispatch, given what the scheduler decided. */
    method DispatchScheduling(id: InstanceId, o: ScheduleOutcome, ghost w: World)
      requires Shows(w) && Enabled(c, w, Schedule(id, o))
      modifies this`instances, this`queueRows, this`reserved, this`tasks, credentials, portMapper
      ensures Shows(Step(c, w, Schedule(id, o)))
    {
      ghost var (s, fx) := ScheduleSlot(c, now, SlotAt(id), o);
      NothingAllocated(w.pool, id, instances[id].game, fx);
      match o {
        case Scheduled(p) =>
          var ok := TryReserve(p);
          BindInstance(id, p);
        case NoCapacity =>
          KeepQueued(id);
        case Rejected =>
          FailedInstance(id);
      }
      assert Committed(w, id, s, fx);
      CommittedShows(w, Schedule(id, o), s, fx);
    }

    /** The writes after a successful reservation: queue row gone, placement saved, back to the dispatch queue. */
    method BindInstance(id: InstanceId, p: Placement)
      requires id in instances
      modifies this`instances, this`queueRows, this`tasks
      ensures SlotAt(id) == Bound(old(SlotAt(id)), p)
      ensures forall other :: other != id ==> SlotAt(other) == old(SlotAt(other))
    {
      queueRows := queueRows - {id};
      Save(id, instances[id].(status := if p.cacheNeeded then CacheWarming else PreparingBuild,
                              agent := Some(p.agent), req := Some(p.req), branch := p.branch));
      var accepted := RequestDispatch(id);
    }

    /** First queueing, back-off or timeout, by whether the instance already has a row. */
    method KeepQueued(id: InstanceId)
      requires id in instances
      modifies this`instances, this`queueRows, this`tasks
      ensures SlotAt(id) == StayQueued(c, now, old(SlotAt(id)))
      ensures forall other :: other != id ==> SlotAt(other) == old(SlotAt(other))
    {
      var i := instances[id];
      if id !in queueRows {
        Enqueue(id);
        Save(id, i.(status := Queued));
      } else {
        var timedOut := OnStillQueued(id);
        if timedOut {
          queueRows := queueRows - {id};
          Save(id, i.(status := Failed, failedFrom := Some(i.status)));
        } else {
          Save(id, i.(status := Queued));
        }
      }
      tasks := tasks - {id};
    }

    /** QueueManager.Enqueue */
    method Enqueue(id: InstanceId)
      modifies this`queueRows
      ensures queueRows == old(queueRows)[id := FirstRow(c, now)]
    {
      queueRows := queueRows[id := QueueRow(0, now + c.backoffBase, now, now + c.queueTimeout)];
    }

    /** QueueManager.OnStillQueued for a timer wake-up: true means timed out. */
    method OnStillQueued(id: InstanceId) returns (timedOut: bool)
      requires id in queueRows
      modifies this`queueRows
      ensures timedOut == (now > old(queueRows)[id].timeoutAt)
      ensures queueRows == if timedOut then old(queueRows) else old(queueRows)[id := NextRow(c, old(queueRows)[id], now)]
    {
      var q := queueRows[id];
      if now > q.timeoutAt {
        return true;
      }
      queueRows := queueRows[id := NextRow(c, q, now)];
      return false;
    }

    /** The stage branches of Dispatch: one RPC, then polling, retry or failure. */
    method DispatchStage(id: InstanceId, specs: seq<CredSpec>, rpc: RpcOutcome, ghost w: World)
      requires Shows(w) && Enabled(c, w, RunStage(id, specs, rpc))
      modifies this`instances, this`reserved, this`tasks, this`operationRetryCounts, credentials
      ensures Shows(Step(c, w, RunStage(id, specs, rpc)))
    {
      ghost var (s, fx) := StageSlot(w.At(id), specs, Granted(w, RunStage(id, specs, rpc)), rpc);
      RunStageTables(id, specs, rpc, w);
      CommittedShows(w, RunStage(id, specs, rpc), s, fx);
    }

    /** What a stage's dispatch does to the tables. */
    method RunStageTables(id: InstanceId, specs: seq<CredSpec>, rpc: RpcOutcome, ghost w: World)
      requires Shows(w) && Enabled(c, w, RunStage(id, specs, rpc))
      modifies this`instances, this`reserved, this`tasks, this`operationRetryCounts, credentials
      ensures var (s, fx) := StageSlot(w.At(id), specs, Granted(w, RunStage(id, specs, rpc)), rpc); Committed(w, id, s, fx)
    {
      ghost var (s, fx) := StageSlot(w.At(id), specs, Granted(w, RunStage(id, specs, rpc)), rpc);
      assert SlotAt(id) == w.At(id);
      if rpc == Broken {
        NothingAllocated(w.pool, id, instances[id].game, fx);
        FailedInstance(id);
      } else if rpc == NoSnapshot {
        NothingAllocated(w.pool, id, instances[id].game, fx);
        SkipRestore(id);
      } else {
        SendStageRpc(id, specs, rpc);
      }
    }

    /** Nothing to restore: straight to starting. */
    method SkipRestore(id: InstanceId)
      requires id in instances
      modifies this`instances, this`tasks
      ensures SlotAt(id) == old(SlotAt(id)).Advance(Starting)
      ensures forall other :: other != id ==> SlotAt(other) == old(SlotAt(other))
    {
      Save(id, instances[id].(status := Starting));
      var accepted := RequestDispatch(id);
    }

    /** Credentials for a starting instance, then the stage's RPC with its outcome. */
    method SendStageRpc(id: InstanceId, specs: seq<CredSpec>, rpc: RpcOutcome)
      requires id in instances && instances[id].status.IsStage() && rpc in {Accepted, Transient, Fatal}
      modifies this`instances, this`reserved, this`tasks, this`operationRetryCounts, credentials
      ensures var before, game := old(SlotAt(id)), old(instances)[id].game;
              var (s, fx) := StageSlot(before, specs, AllocateAll(old(credentials.rows), game, specs, id).1, rpc);
              && SlotAt(id) == s
              && reserved == ReservedAfter(c, old(reserved), before, fx)
              && credentials.rows == PoolAfter(old(credentials.rows), id, game, fx)
      ensures forall other :: other != id ==> SlotAt(other) == old(SlotAt(other))
    {
      var i := instances[id];
      var granted := true;
      if i.status == Starting {
        granted := AllocateCredentials(id, i.game, specs);
      }
      if !granted {
        FailedInstance(id);
      } else if rpc == Accepted {
        tasks := tasks[id := Polling];
      } else {
        HandleDispatchError(id, rpc == Transient);
      }
    }

    // ----------------------------------------------------------------- polling

    /** PollingResult and pollCacheReady: act on the outcome of the operation. */
    method PollingResult(id: InstanceId, o: PollOutcome, ghost w: World)
      requires Shows(w) && Enabled(c, w, FinishPoll(id, o))
      modifies this`instances, this`reserved, this`tasks, this`operationRetryCounts, credentials, portMapper
      ensures Shows(Step(c, w, FinishPoll(id, o)))
    {
      ghost var (s, fx) := PollSlot(SlotAt(id), o);
      NothingAllocated(w.pool, id, instances[id].game, fx);
      if o == Succeeded {
        FinishStage(id);
        assert Committed(w, id, s, fx);
      } else {
        HandleDispatchError(id, o == RetryableFailure);
        assert Committed(w, id, s, fx);
      }
      CommittedShows(w, FinishPoll(id, o), s, fx);
    }

    /** The success branch of polling: the retry counter is cleared, except by cache warming. */
    method FinishStage(id: InstanceId)
      requires id in instances && instances[id].status.IsStage()
      modifies this`instances, this`reserved, this`tasks, this`operationRetryCounts, credentials, portMapper
      ensures var (s, fx) := PollSlot(old(SlotAt(id)), Succeeded);
              && SlotAt(id) == s
              && reserved == ReservedAfter(c, old(reserved), old(SlotAt(id)), fx)
              && portMapper.table == PortsAfter(old(portMapper.table), id, fx)
              && credentials.rows == if fx.freeCredentials then Credentials.ReleaseBy(old(credentials.rows), id) else old(credentials.rows)
      ensures forall other :: other != id ==> SlotAt(other) == old(SlotAt(other))
    {
      if instances[id].status != CacheWarming {
        ClearRetryCount(id);
      }
      OnStageSucceeded(id);
    }

    /** The callbacks onCacheWarmReady ... onStopInstanceSucceeded, chosen by stage. */
    method OnStageSucceeded(id: InstanceId)
      requires id in instances && instances[id].status.IsStage()
      modifies this`instances, this`reserved, this`tasks, credentials, portMapper
      ensures var (s, fx) := StageDone(old(SlotAt(id)));
              && SlotAt(id) == s
              && reserved == ReservedAfter(c, old(reserved), old(SlotAt(id)), fx)
              && portMapper.table == PortsAfter(old(portMapper.table), id, fx)
              && credentials.rows == if fx.freeCredentials then Credentials.ReleaseBy(old(credentials.rows), id) else old(credentials.rows)
      ensures forall other :: other != id ==> SlotAt(other) == old(SlotAt(other))
    {
      var i := instances[id];
      if i.status == Cleaning {
        OnCleanInstanceSucceeded(id);
      } else if i.status == Starting {
        Save(id, i.(status := Running));
        tasks := tasks - {id};
      } else {
        var next :=
          if i.status == CacheWarming then PreparingBuild
          else if i.status == PreparingBuild then RestoringSnapshot
          else if i.status == RestoringSnapshot then Starting
          else Cleaning;
        Save(id, i.(status := next));
        var accepted := RequestDispatch(id);
      }
    }

    /** onCleanInstanceSucceeded: credentials, reservation, binding and ports are given back. */
    method OnCleanInstanceSucceeded(id: InstanceId)
      requires id in instances
      modifies this`instances, this`reserved, this`tasks, credentials, portMapper
      ensures SlotAt(id) == old(SlotAt(id)).Put(old(instances)[id].(status := Stopped, agent := None)).(work := None)
      ensures reserved == Release(c, old(reserved), old(SlotAt(id)))
      ensures portMapper.table == Without(old(portMapper.table), id)
      ensures credentials.rows == Credentials.ReleaseBy(old(credentials.rows), id)
      ensures forall other :: other != id ==> SlotAt(other) == old(SlotAt(other))
    {
      credentials.ReleaseByInstance(id);
      ReleaseReservation(id);
      Save(id, instances[id].(status := Stopped, agent := None));
      portMapper.ReleaseMapPortByInstanceId(id);
      tasks := tasks - {id};
    }

    // --------------------------------------------------------------- inspection

    /** True once the instance's node has been out of reach for the fencing timeout since the first mark. */
    method MarkOfflineAndShouldFence(id: InstanceId) returns (fence: bool)
      modifies this`offlineSince
      ensures fence <==> id in old(offlineSince) && now - old(offlineSince)[id] >= c.fencingTimeout
      ensures offlineSince == if id in old(offlineSince) then old(offlineSince) else old(offlineSince)[id := now]
    {
      if id !in offlineSince {
        offlineSince := offlineSince[id := now];
        return false;
      }
      return now - offlineSince[id] >= c.fencingTimeout;
    }

    method ClearOffline(id: InstanceId)
      modifies this`offlineSince
      ensures offlineSince == old(offlineSince) - {id}
    {
      offlineSince := offlineSince - {id};
    }

    /** Node declared down and instance out of reach: mark, and fail once the mark is old enough. */
    method FenceWhenDue(id: InstanceId)
      requires id in instances
      modifies this`instances, this`reserved, this`tasks, this`offlineSince, credentials
      ensures var (s, fx) := InspectSlot(c, now, old(SlotAt(id)), UnreachableNodeDown);
              && SlotAt(id) == s
              && reserved == ReservedAfter(c, old(reserved), old(SlotAt(id)), fx)
              && credentials.rows == if fx.freeCredentials then Credentials.ReleaseBy(old(credentials.rows), id) else old(credentials.rows)
      ensures forall other :: other != id ==> SlotAt(other) == old(SlotAt(other))
    {
      var fence := MarkOfflineAndShouldFence(id);
      if fence {
        ClearOffline(id);
        assert SlotAt(id) == old(SlotAt(id)).(offline := None);
        MarkIsNoHolding(reserved, old(SlotAt(id)), Fail(SlotAt(id), NOTHING).1);
        FailedInstance(id);
      }
    }

    /** One instance's turn in WatchRunningInstances. */
    method WatchInstance(id: InstanceId, seen: InspectOutcome, ghost w: World)
      requires Shows(w) && Enabled(c, w, Inspect(id, seen))
      modifies this`instances, this`reserved, this`tasks, this`offlineSince, credentials
      ensures Shows(Step(c, w, Inspect(id, seen)))
    {
      ghost var (s, fx) := InspectSlot(c, now, SlotAt(id), seen);
      NothingAllocated(w.pool, id, instances[id].game, fx);
      if seen == UnreachableNodeDown {
        FenceWhenDue(id);
        assert Committed(w, id, s, fx);
      } else {
        ClearOffline(id);
        if seen == InstanceFailed {
          FailedInstance(id);
        }
        assert Committed(w, id, s, fx);
      }
      CommittedShows(w, Inspect(id, seen), s, fx);
    }

    // ------------------------------------------------------------- user calls

    method CreateGameInstance(id: InstanceId, game: string, req: Option<Vec>, sub: Option<string>, ghost w: World)
      requires Shows(w) && Enabled(c, w, Create(id, game, req, sub))
      modifies this`instances
      ensures Shows(Step(c, w, Create(id, game, req, sub)))
    {
      Save(id, Instance(game, Stopped, None, req, req.Some?, "", sub, None));
      QuietStepShows(w, Create(id, game, req, sub), SlotAt(id));
    }

    /** checkSubscriptionSlot: nobody else in the subscription is active. */
    method CheckSubscriptionSlot(id: InstanceId, ghost w: World) returns (free: bool)
      requires Shows(w) && id in instances
      ensures free == SlotFree(w, id)
    {
      var sub := instances[id].subscription;
      if sub.None? || sub.value == "" {
        return true;
      }
      var active := set a | a in instances && instances[a].subscription == sub && instances[a].status.IsActive();
      assert forall a :: a in active <==> OccupiesSubscription(SlotAt(a), sub.value);
      while active != {}
        invariant forall a :: a in active ==> OccupiesSubscription(SlotAt(a), sub.value)
        invariant forall a :: OccupiesSubscription(SlotAt(a), sub.value) ==> a in active || a == id
        decreases |active|
      {
        var a :| a in active;
        if a != id {
          assert SlotAt(a) == w.At(a);
          return false;
        }
        active := active - {a};
      }
      forall other | other in w.slots && other != id
        ensures !OccupiesSubscription(w.slots[other], sub.value)
      {
        assert SlotAt(other) == w.At(other);
      }
      return true;
    }

    /** Saving a row in an indexed state, as the unique index over subscriptions lets it: refused beside another such row. */
    method SaveIndexed(id: InstanceId, i: Instance, ghost w: World) returns (saved: bool)
      requires Shows(w) && id in instances
      requires i.subscription == instances[id].subscription && IndexedAsActive(i.status)
      modifies this`instances
      ensures saved == IndexFree(w, id)
      ensures SlotAt(id) == if saved then old(SlotAt(id)).Put(i) else old(SlotAt(id))
      ensures forall other :: other != id ==> SlotAt(other) == old(SlotAt(other))
    {
      assert SlotAt(id) == w.At(id);
      var clashing := set a | a in instances && a != id && i.subscription.Some?
                              && instances[a].subscription == i.subscription && IndexedAsActive(instances[a].status);
      forall a
        ensures a in clashing <==> a in w.slots && a != id && i.subscription.Some? && IndexedUnder(w.slots[a], i.subscription.value)
      {
        assert SlotAt(a) == w.At(a);
      }
      saved := clashing == {};
      if saved {
        Save(id, i);
      }
    }

    /** Put an accepted instance back to pending and dispatch it, unless the index refuses the save. */
    method Resubmit(id: InstanceId, ghost w: World) returns (saved: bool)
      requires Shows(w) && id in instances
      modifies this`instances, this`tasks
      ensures saved == IndexFree(w, id)
      ensures SlotAt(id) == if saved then old(SlotAt(id)).Advance(Pending) else old(SlotAt(id))
      ensures forall other :: other != id ==> SlotAt(other) == old(SlotAt(other))
    {
      saved := SaveIndexed(id, instances[id].(status := Pending), w);
      if saved {
        var accepted := RequestDispatch(id);
      }
    }

    method StartGameInstance(id: InstanceId, ghost w: World) returns (ok: bool)
      requires Shows(w)
      modifies this`instances, this`tasks
      ensures Shows(Step(c, w, Start(id)))
      ensures ok == (MayStart(w.At(id)) && SlotFree(w, id) && IndexFree(w, id))
    {
      ghost var s := Local(c, now, w.At(id), Start(id), Admitted(w, Start(id)), true).0;
      assert SlotAt(id) == w.At(id);
      ok := false;
      if id in instances && (instances[id].status == Stopped || instances[id].status == Failed) && !instances[id].IsStopFailure() {
        ok := CheckSubscriptionSlot(id, w);
        if ok {
          ok := Resubmit(id, w);
        }
      }
      QuietStepShows(w, Start(id), s);
    }

    method RetryGameInstance(id: InstanceId, ghost w: World) returns (ok: bool)
      requires Shows(w)
      modifies this`instances, this`tasks
      ensures Shows(Step(c, w, Retry(id)))
      ensures ok == (MayRetry(w.At(id)) && SlotFree(w, id) && IndexFree(w, id))
    {
      ghost var s := Local(c, now, w.At(id), Retry(id), Admitted(w, Retry(id)), true).0;
      assert SlotAt(id) == w.At(id);
      ok := false;
      if id in instances && instances[id].status == Failed && !instances[id].IsStopFailure() {
        ok := CheckSubscriptionSlot(id, w);
        if ok {
          ok := Resubmit(id, w);
        }
      }
      QuietStepShows(w, Retry(id), s);
    }

    method StopGameInstance(id: InstanceId, ghost w: World) returns (ok: bool)
      requires Shows(w)
      modifies this`instances, this`tasks
      ensures Shows(Step(c, w, Stop(id)))
      ensures ok == (MayStop(w.At(id)) && IndexFree(w, id))
    {
      ghost var s := Local(c, now, w.At(id), Stop(id), Admitted(w, Stop(id)), true).0;
      assert SlotAt(id) == w.At(id);
      ok := id in instances && (instances[id].status == Running || instances[id].IsStopFailure());
      if ok {
        ok := SaveIndexed(id, instances[id].(status := Stopping), w);
        if ok {
          var accepted := RequestDispatch(id);
        }
      }
      QuietStepShows(w, Stop(id), s);
    }

    /** CancelQueued: only from the queue, back to stopped. */
    method CancelGameInstance(id: InstanceId, ghost w: World) returns (ok: bool)
      requires Shows(w) && Enabled(c, w, CancelQueued(id))
      modifies this`instances, this`queueRows
      ensures Shows(Step(c, w, CancelQueued(id)))
      ensures ok == w.At(id).Is(Queued)
    {
      ghost var s := Local(c, now, w.At(id), CancelQueued(id), Admitted(w, CancelQueued(id)), true).0;
      assert SlotAt(id) == w.At(id);
      ok := id in instances && instances[id].status == Queued;
      if ok {
        queueRows := queueRows - {id};
        Save(id, instances[id].(status := Stopped));
      }
      QuietStepShows(w, CancelQueued(id), s);
    }

    /** The guard of DeleteGameInstance and its three deletes. */
    method RemoveIfAllowed(id: InstanceId) returns (ok: bool)
      modifies this`instances, this`queueRows, portMapper
      ensures ok == MayDelete(old(SlotAt(id)))
      ensures SlotAt(id) == if ok then Removed(old(SlotAt(id))) else old(SlotAt(id))
      ensures portMapper.table == if ok then Without(old(portMapper.table), id) else old(portMapper.table)
      ensures forall other :: other != id ==> SlotAt(other) == old(SlotAt(other))
    {
      if id !in instances {
        return false;
      }
      if instances[id].status == Queued {
        queueRows := queueRows - {id};
      } else if instances[id].status.IsDispatchable() {
        return false;
      }
      portMapper.ReleaseMapPortByInstanceId(id);
      instances := instances - {id};
      return true;
    }

    method DeleteGameInstance(id: InstanceId, ghost w: World) returns (ok: bool)
      requires Shows(w) && Enabled(c, w, Delete(id))
      modifies this`instances, this`queueRows, portMapper
      ensures Shows(Step(c, w, Delete(id)))
      ensures ok == MayDelete(w.At(id))
    {
      ghost var (s, fx) := Local(c, now, w.At(id), Delete(id), Admitted(w, Delete(id)), true);
      NothingAllocated(w.pool, id, if w.At(id).inst.Some? then w.At(id).inst.value.game else "", fx);
      assert SlotAt(id) == w.At(id);
      ok := RemoveIfAllowed(id);
      assert Committed(w, id, s, fx);
      CommittedShows(w, Delete(id), s, fx);
    }

    // ------------------------------------------------------------- queue waker

    /** One due row: wake the instance, or drop a row whose instance is not queued any more. */
    method WakeRow(id: InstanceId, ghost w: World) returns (woke: bool)
      requires Shows(w) && Due(w, id)
      modifies this`queueRows, this`tasks
      ensures woke == w.At(id).Is(Queued)
      ensures Enabled(c, w, WakerEvent(w, id)) && Shows(Step(c, w, WakerEvent(w, id)))
    {
      ghost var s := Local(c, now, w.At(id), WakerEvent(w, id), Admitted(w, WakerEvent(w, id)), true).0;
      assert SlotAt(id) == w.At(id);
      woke := id in instances && instances[id].status == Queued;
      if woke {
        var accepted := RequestDispatch(id);
      } else {
        queueRows := queueRows - {id};
      }
      QuietStepShows(w, WakerEvent(w, id), s);
    }

    /** wakeOnce over the due rows in priority order: each instance once, at most maxPerRound woken. */
    method WakeOnce(due: seq<InstanceId>, maxPerRound: nat, ghost w: World)
      requires Shows(w) && forall id :: id in due ==> Due(w, id)
      modifies this`queueRows, this`tasks
      ensures IsRun(c, w, WakerEvents(w, due, {}, maxPerRound))
      ensures Shows(After(c, w, WakerEvents(w, due, {}, maxPerRound)))
    {
      var seen: set<InstanceId> := {};
      var woke := 0;
      RoundRuns(c, w, w, due, {}, maxPerRound);
      ghost var v, rest := w, WakerEvents(w, due, {}, maxPerRound);
      ghost var final, left := After(c, w, rest), maxPerRound;
      var k := 0;
      while k < |due|
        invariant 0 <= k <= |due| && 0 <= woke <= maxPerRound && left == maxPerRound - woke
        invariant Shows(v) && RoundAt(c, w, v, due, k, seen, left, rest, final)
      {
        EventsFrom(w, due, k, seen, left);
        if woke < maxPerRound && due[k] !in seen {
          var one := WakeUnseen(due[k], w, v);
          seen := seen + {due[k]};
          v, rest, left := Step(c, v, rest[0]), rest[1..], if w.At(due[k]).Is(Queued) then left - 1 else left;
          if one {
            woke := woke + 1;
          }
        }
        k := k + 1;
      }
    }

    /** WakeRow for an instance this round has not touched yet. */
    method WakeUnseen(id: InstanceId, ghost w: World, ghost v: World) returns (woke: bool)
      requires Shows(v) && Due(w, id) && v.now == w.now && v.At(id) == w.At(id)
      modifies this`queueRows, this`tasks
      ensures woke == w.At(id).Is(Queued)
      ensures Enabled(c, v, WakerEvent(w, id)) && Shows(Step(c, v, WakerEvent(w, id)))
      ensures Step(c, v, WakerEvent(w, id)).now == w.now
      ensures forall other :: other != id ==> Step(c, v, WakerEvent(w, id)).At(other) == v.At(other)
    {
      assert WakerEvent(v, id) == WakerEvent(w, id);
      woke := WakeRow(id, v);
      StepAt(c, v, WakerEvent(w, id));
    }
  }

  // ----------------------------------------------------------- the waker's choice

  /** A row that ListDue returns, its instance not already being dispatched. */
  predicate Due(w: World, id: InstanceId) {
    w.At(id).row.Some? && w.At(id).row.value.wakeAt <= w.now && (w.At(id).Is(Queued) ==> w.At(id).work.None?)
  }

  function WakerEvent(w: World, id: InstanceId): Event {
    if w.At(id).Is(Queued) then Wake(id) else DropRow(id)
  }

  /** The events of one round: the rest of the due rows, ids seen, wake-ups left. */
  function WakerEvents(w: World, due: seq<InstanceId>, seen: set<InstanceId>, left: nat): seq<Event> {
    if due == [] then []
    else if left == 0 || due[0] in seen then WakerEvents(w, due[1..], seen, left)
    else
      [WakerEvent(w, due[0])] +
      WakerEvents(w, due[1..], seen + {due[0]}, if w.At(due[0]).Is(Queued) then left - 1 else left)
  }

  /** The events of a round are possible one after the other. */
  lemma {:induction false} RoundRuns(c: Setup, w: World, v: World, due: seq<InstanceId>, seen: set<InstanceId>, left: nat)
    requires forall id :: id in due ==> Due(w, id)
    requires v.now == w.now && forall id :: id !in seen ==> v.At(id) == w.At(id)
    ensures IsRun(c, v, WakerEvents(w, due, seen, left))
    decreases |due|
  {
    if due != [] {
      var id := due[0];
      if left == 0 || id in seen {
        RoundRuns(c, w, v, due[1..], seen, left);
      } else {
        assert Due(w, id) && v.At(id) == w.At(id);
        StepAt(c, v, WakerEvent(w, id));
        var rest := if w.At(id).Is(Queued) then left - 1 else left;
        RoundRuns(c, w, Step(c, v, WakerEvent(w, id)), due[1..], seen + {id}, rest);
        RunCons(c, v, WakerEvent(w, id), WakerEvents(w, due[1..], seen + {id}, rest));
      }
    }
  }

  /** In the middle of a round: v is where it has got to, rest what it still does from list position k on. */
  ghost predicate RoundAt(c: Setup, w: World, v: World, due: seq<InstanceId>, k: nat, seen: set<InstanceId>, left: nat,
                          rest: seq<Event>, final: World)
    requires k <= |due|
  {
    && v.now == w.now && (forall id :: id !in seen ==> v.At(id) == w.At(id))
    && rest == WakerEvents(w, due[k..], seen, left)
    && IsRun(c, v, rest) && After(c, v, rest) == final
  }

  /** What the round still has to do, one list position at a time. */
  lemma EventsFrom(w: World, due: seq<InstanceId>, k: nat, seen: set<InstanceId>, left: nat)
    requires k < |due|
    ensures var es := WakerEvents(w, due[k..], seen, left);
            if left == 0 || due[k] in seen then es == WakerEvents(w, due[k + 1..], seen, left)
            else
              var rest := if w.At(due[k]).Is(Queued) then left - 1 else left;
              es != [] && es[0] == WakerEvent(w, due[k]) && es[1..] == WakerEvents(w, due[k + 1..], seen + {due[k]}, rest)
  {
    assert due[k..][1..] == due[k + 1..];
  }

  function Wakes(es: seq<Event>): nat {
    if es == [] then 0 else (if es[0].Wake? then 1 else 0) + Wakes(es[1..])
  }

  /** Whether the id occurs among the first rows of the list. */
  predicate Listed(due: seq<InstanceId>, id: InstanceId) {
    id in due
  }

  /**
   * A round wakes at most `left` instances, touches due ids only and each once, and, unless the
   * limit was reached, wakes every queued one and drops every stray row.
   */
  lemma {:induction false} WakerRound(w: World, due: seq<InstanceId>, seen: set<InstanceId>, left: nat)
    ensures var es := WakerEvents(w, due, seen, left);
            && Wakes(es) <= left
            && (forall e :: e in es ==> !e.Tick? && e.id in due && e.id !in seen && e == WakerEvent(w, e.id))
            && (forall i, j :: 0 <= i < j < |es| ==> es[i] != es[j])
            && (Wakes(es) < left ==> forall id :: Listed(due, id) && id !in seen ==> WakerEvent(w, id) in es)
  {
    if due != [] && left > 0 {
      var id := due[0];
      if id in seen {
        WakerRound(w, due[1..], seen, left);
      } else {
        var rest := if w.At(id).Is(Queued) then left - 1 else left;
        WakerRound(w, due[1..], seen + {id}, rest);
        var tail := WakerEvents(w, due[1..], seen + {id}, rest);
        var es := [WakerEvent(w, id)] + tail;
        assert es[1..] == tail;
        forall other | Wakes(es) < left && Listed(due, other) && other !in seen
          ensures WakerEvent(w, other) in es
        {
          if other != id {
            assert Listed(due[1..], other);
          }
        }
      }
    } else if due != [] {
      WakerRound(w, due[1..], seen, left);
    }
  }
}
