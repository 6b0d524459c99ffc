/**
 * Where the life cycle's promises stop: for each, a concrete or general failing family and the
 * exact condition under which the promise holds.
 */
module LifecycleLimits {
  import opened Wrappers
  import opened Entities
  import opened PortTable
  import opened Lifecycle
  import opened LifecycleInvariant
  import opened LifecycleRuns
  import PortPlan

  // ---------------------------------------------------- deleting while running

  /** DeleteGameInstance as its guard admits it, running instances included. */
  function DeleteAsCoded(c: Setup, w: World, id: InstanceId): World
    requires MayDelete(w.At(id))
  {
    Commit(c, w, id, Removed(w.At(id)), NOTHING.(freePorts := true))
  }

  /** A slot that forgets its holding while the counters keep it breaks the sum of its node. */
  lemma ForgottenHoldingBreaksSum(c: Setup, w: World, v: World, id: InstanceId, n: NodeId)
    requires AllSlotsOk(c, w) && Conserved(c, w) && n in w.reserved && n in v.reserved
    requires HoldsOn(c, w.At(id), n) && !HoldsOn(c, v.At(id), n)
    requires id in w.slots && v.slots == w.slots[id := v.At(id)] && v.reserved[n] == w.reserved[n]
    ensures !Conserved(c, v)
  {
    assert SlotOk(c, w.now, w.slots[id]);
    HeldAfterLoss(c, w, id, v.At(id), n);
    assert Held(c, v.slots, n).hard.cpu == v.reserved[n].hard.cpu - w.At(id).inst.value.req.value.hard.cpu;
  }

  /** Deleting keeps the reservations exact exactly when the instance is not running. */
  lemma DeleteConservesIffNotRunning(c: Setup, w: World, id: InstanceId)
    requires c.Valid() && Inv(c, w) && MayDelete(w.At(id))
    ensures Conserved(c, DeleteAsCoded(c, w, id)) <==> !w.At(id).Is(Running)
  {
    var s, v := w.At(id), DeleteAsCoded(c, w, id);
    assert SlotOk(c, w.now, w.slots[id]);
    if s.Is(Running) {
      var n := c.agents[s.inst.value.agent.value];
      ForgottenHoldingBreaksSum(c, w, v, id, n);
    } else {
      CommitConserves(c, w, id, Removed(s), NOTHING.(freePorts := true));
    }
  }

  // -------------------------------------------------- the stale-reservation reaper

  /** The reaper's write for a stuck instance: reservation released, row failed, binding and request kept. */
  function Reaped(c: Setup, w: World, id: InstanceId): World
    requires w.At(id).inst.Some?
  {
    var s := w.At(id);
    Commit(c, w, id, s.Put(s.inst.value.(status := Failed, failedFrom := Some(s.inst.value.status))), NOTHING)
      .(reserved := Release(c, w.reserved, s))
  }

  /** Reaping makes a start failure look like a stop failure. */
  lemma ReaperFakesStopFailure(c: Setup, w: World, id: InstanceId)
    requires c.Valid() && Inv(c, w) && w.At(id).inst.Some?
    requires w.At(id).inst.value.status in {PreparingBuild, RestoringSnapshot, Starting}
    ensures Reaped(c, w, id).At(id).inst.value.IsStopFailure()
    ensures !Reaped(c, w, id).At(id).inst.value.failedFrom.value.IsStopStage()
  {
    assert SlotOk(c, w.now, w.slots[id]);
  }

  /** And it always breaks conservation. */
  lemma ReaperBreaksConservation(c: Setup, w: World, id: InstanceId)
    requires c.Valid() && Inv(c, w) && w.At(id).inst.Some?
    requires w.At(id).inst.value.status in {PreparingBuild, RestoringSnapshot, Starting}
    ensures !Conserved(c, Reaped(c, w, id))
  {
    var s, v := w.At(id), Reaped(c, w, id);
    assert SlotOk(c, w.now, w.slots[id]);
    var n := c.agents[s.inst.value.agent.value];
    HeldUnchanged(c, w, id, v.At(id), n);
    ReaperReleases(c, w, id, n);
  }

  lemma ReaperReleases(c: Setup, w: World, id: InstanceId, n: NodeId)
    requires c.Valid() && Inv(c, w) && w.At(id).inst.Some?
    requires w.At(id).inst.value.status in {PreparingBuild, RestoringSnapshot, Starting}
    requires w.At(id).inst.value.agent.Some? && w.At(id).inst.value.agent.value in c.agents && c.agents[w.At(id).inst.value.agent.value] == n
    requires n in w.reserved
    ensures Release(c, w.reserved, w.At(id))[n].hard.cpu < w.reserved[n].hard.cpu
  {
    assert SlotOk(c, w.now, w.slots[id]);
    ReleaseIsExact(c, w, id, n);
  }

  // ------------------------------------------------------------------- fencing

  predicate Inspects(e: Event, id: InstanceId) {
    e.Inspect? && e.id == id
  }

  /** The offline mark of an instance is written by its inspections only. */
  lemma OnlyInspectionsMark(c: Setup, w: World, e: Event, id: InstanceId)
    requires Enabled(c, w, e) && !Inspects(e, id)
    ensures Step(c, w, e).At(id).offline == w.At(id).offline
  {
    if !e.Tick? {
      StepAt(c, w, e);
      if e.id == id {
        LocalKeepsMark(c, w, e, Admitted(w, e), Granted(w, e));
      }
    }
  }

  lemma LocalKeepsMark(c: Setup, w: World, e: Event, admitted: bool, granted: bool)
    requires Enabled(c, w, e) && !e.Tick? && !e.Inspect?
    ensures Local(c, w.now, w.At(e.id), e, admitted, granted).0.offline == w.At(e.id).offline
  {
  }

  lemma {:induction false} MarkSurvives(c: Setup, w: World, es: seq<Event>, id: InstanceId)
    requires IsRun(c, w, es) && forall e :: e in es ==> !Inspects(e, id)
    ensures After(c, w, es).At(id).offline == w.At(id).offline
    decreases |es|
  {
    if es != [] {
      OnlyInspectionsMark(c, w, es[0], id);
      MarkSurvives(c, Step(c, w, es[0]), es[1..], id);
    }
  }

  /** An inspection fences a running instance exactly when its node is down and the mark is old enough. */
  lemma FencedIff(c: Setup, w: World, id: InstanceId, seen: InspectOutcome)
    requires Enabled(c, w, Inspect(id, seen)) && seen != InstanceFailed
    ensures Step(c, w, Inspect(id, seen)).At(id).Is(Failed)
            <==> seen == UnreachableNodeDown && w.At(id).offline.Some? && w.now - w.At(id).offline.value >= c.fencingTimeout
  {
    StepAt(c, w, Inspect(id, seen));
  }

  /**
   * The mark is not cleared when an instance stops, so what decides the first failed inspection of
   * a new run is the mark of the old one: it fails the instance if and only if there is one that is
   * as old as the timeout, although nobody has looked at the instance since it was started.
   */
  lemma StaleMarkFencesIff(c: Setup, w: World, es: seq<Event>, id: InstanceId)
    requires IsRun(c, w, es) && (forall e :: e in es ==> !Inspects(e, id)) && After(c, w, es).At(id).Is(Running)
    ensures var v := After(c, w, es);
            Step(c, v, Inspect(id, UnreachableNodeDown)).At(id).Is(Failed)
            <==> w.At(id).offline.Some? && v.now - w.At(id).offline.value >= c.fencingTimeout
  {
    MarkSurvives(c, w, es, id);
    FencedIff(c, After(c, w, es), id, UnreachableNodeDown);
  }

  // ------------------------------------------------------------- leftover ports

  /** The two events that release an instance's port rows. */
  predicate FreesPorts(w: World, e: Event) {
    (e.FinishPoll? && e.result == Succeeded && w.At(e.id).Is(Cleaning)) || (e.Delete? && MayDelete(w.At(e.id)))
  }

  lemma RowsOutliveStep(c: Setup, w: World, e: Event, m: Mapping)
    requires Enabled(c, w, e) && m in w.ports
    requires !e.Tick? && e.id == m.instance ==> !FreesPorts(w, e)
    ensures m in Step(c, w, e).ports
  {
    if !e.Tick? {
      var (s, fx) := Local(c, w.now, w.At(e.id), e, Admitted(w, e), Granted(w, e));
      assert e.id == m.instance ==> !fx.freePorts;
    }
  }

  ghost predicate KeepsPorts(c: Setup, w: World, es: seq<Event>, id: InstanceId)
    requires IsRun(c, w, es)
    decreases |es|
  {
    es == [] || ((!es[0].Tick? && es[0].id == id ==> !FreesPorts(w, es[0])) && KeepsPorts(c, Step(c, w, es[0]), es[1..], id))
  }

  /** Failures do not free ports: until a completed clean-up or a delete, the rows of an instance stay. */
  lemma {:induction false} RowsOutliveFailures(c: Setup, w: World, es: seq<Event>, m: Mapping)
    requires IsRun(c, w, es) && m in w.ports && KeepsPorts(c, w, es, m.instance)
    ensures m in After(c, w, es).ports
    decreases |es|
  {
    if es != [] {
      RowsOutliveStep(c, w, es[0], m);
      RowsOutliveFailures(c, Step(c, w, es[0]), es[1..], m);
    }
  }

  /** So a HOST-mode instance that was bound once and failed can never be planned on that machine again. */
  lemma FailedHostInstanceCannotReturn(c: Setup, w: World, es: seq<Event>, config: PortPlan.Config, o: PortPlan.Owner, t: Table)
    requires config.mode == PortPlan.HOST
    requires PortPlan.Plan(config, o, t).Some? && PortPlan.Plan(config, o, t).value != []
    requires forall m :: m in PortPlan.Plan(config, o, t).value ==> m in w.ports
    requires IsRun(c, w, es) && KeepsPorts(c, w, es, o.instance)
    ensures PortPlan.Plan(config, o, After(c, w, es).ports).None?
  {
    var plan := PortPlan.Plan(config, o, t).value;
    PortPlan.EveryPlanIsFresh(config, o, t);
    forall m | m in plan
      ensures m in After(c, w, es).ports
    {
      RowsOutliveFailures(c, w, es, m);
    }
    PortPlan.LeftoverRowsBlockHostReplan(config, o, t);
  }

  // ------------------------------------------------------- explicit resources

  /** The event reports a failure that is not retried: a fatal one, or a retryable one with the retries used up. */
  predicate GivesUp(s: Slot, e: Event) {
    var exhausted := s.retries + 1 > RETRY_MAX;
    || (e.RunStage? && (e.rpc == Broken || e.rpc == Fatal || (e.rpc == Transient && exhausted)))
    || (e.FinishPoll? && (e.result == FatalFailure || e.result == TimedOut || (e.result == RetryableFailure && exhausted)))
  }

  /** An explicitly requested size survives every event, except exactly one that gives up stopping or cleaning. */
  lemma OverrideLostIffStopFails(c: Setup, w: World, e: Event, id: InstanceId)
    requires Enabled(c, w, e) && w.At(id).inst.Some? && Step(c, w, e).At(id).inst.Some?
    requires w.At(id).inst.value.resourceOverride && w.At(id).inst.value.req.Some? && WorkerOk(w.At(id))
    ensures var i, j := w.At(id).inst.value, Step(c, w, e).At(id).inst.value;
            j.resourceOverride && (j.req.None? <==> i.status.IsStopStage() && !e.Tick? && e.id == id && GivesUp(w.At(id), e))
  {
    if !e.Tick? {
      StepAt(c, w, e);
      if e.id == id {
        LocalOverride(c, w, e, Admitted(w, e), Granted(w, e));
      }
    }
  }

  lemma LocalOverride(c: Setup, w: World, e: Event, admitted: bool, granted: bool)
    requires Enabled(c, w, e) && !e.Tick? && w.At(e.id).inst.Some? && WorkerOk(w.At(e.id))
    requires w.At(e.id).inst.value.resourceOverride && w.At(e.id).inst.value.req.Some?
    ensures var s := Local(c, w.now, w.At(e.id), e, admitted, granted).0;
            s.inst.Some? ==>
              s.inst.value.resourceOverride &&
              (s.inst.value.req.None? <==> w.At(e.id).inst.value.status.IsStopStage() && GivesUp(w.At(e.id), e))
  {
  }
}
