/**
 * Every start and every stop comes to an end, whatever the RPCs answer: a measure built from
 * remaining queue time, stage and retries drops with every step of an instance's own worker.
 */
module LifecycleTermination {
  import opened Wrappers
  import opened Entities
  import opened Lifecycle
  import opened LifecycleInvariant
  import opened LifecycleRuns
  import Backoff

  /** Nothing left to do for the dispatcher: running, stopped, failed or gone. */
  predicate Settled(s: Slot) {
    s.inst.None? || s.inst.value.status in {Running, Stopped, Failed}
  }

  /** The steps of an instance's own worker, and the wake-up that gives it one. */
  predicate IsWork(e: Event) {
    e.Wake? || e.Promote? || e.Schedule? || e.RunStage? || e.FinishPoll?
  }

  // ------------------------------------------------------------------- measure

  function StageRank(s: Status): nat {
    match s
    case CacheWarming => 6
    case PreparingBuild => 5
    case RestoringSnapshot => 4
    case Starting => 3
    case Stopping => 2
    case Cleaning => 1
    case _ => 0
  }

  /** More than any one stage can use up: two steps per attempt, RETRY_MAX retries and a first try. */
  const PER_STAGE := 2 * RETRY_MAX + 2

  /** More than all stages together can use up. */
  const ALL_STAGES := 7 * PER_STAGE

  /** How often the queue can still be entered before `until`, starting at time `from`. */
  function Visits(c: Setup, from: int, until: int): nat
    requires c.backoffBase > 0
  {
    if from > until then 0 else 1 + (until - from) / c.backoffBase
  }

  function AllVisits(c: Setup): nat
    requires c.backoffBase > 0
  {
    1 + c.queueTimeout / c.backoffBase
  }

  /** The measure: queue visits left, then stage, then retries left, then position in the round. */
  function Rank(c: Setup, now: int, s: Slot): int
    requires c.backoffBase > 0
  {
    if Settled(s) then 0
    else
      var st := s.inst.value.status;
      if st == Pending then ALL_STAGES + 3 * AllVisits(c) + 2
      else if st == Scheduling then
        ALL_STAGES + 3 * (if s.row.None? then AllVisits(c) else Visits(c, now, s.row.value.timeoutAt)) + 1
      else if st == Queued then
        (if s.row.None? then 0 else ALL_STAGES + 3 * Visits(c, s.row.value.wakeAt, s.row.value.timeoutAt))
        + (if s.work.None? then 3 else 2)
      else
        StageRank(st) * PER_STAGE + 2 * (RETRY_MAX - s.retries) + (if s.work == Some(InQueue) then 1 else 0)
  }

  /** Rank right after a start: the bound on everything that can follow. */
  function StartBound(c: Setup): nat
    requires c.backoffBase > 0
  {
    ALL_STAGES + 3 * AllVisits(c) + 2
  }

  // -------------------------------------------------------------- arithmetic

  lemma VisitsShrink(c: Setup, from: int, later: int, until: int)
    requires c.backoffBase > 0 && from + c.backoffBase <= later && from <= until
    ensures Visits(c, later, until) < Visits(c, from, until)
  {
    var b := c.backoffBase;
    if later <= until {
      QuotientMonotone(until - later, until - from - b, b);
      QuotientStep(until - from, b);
    }
  }

  lemma VisitsMonotone(c: Setup, from: int, later: int, until: int)
    requires c.backoffBase > 0 && from <= later
    ensures Visits(c, later, until) <= Visits(c, from, until)
  {
    if later <= until {
      QuotientMonotone(until - later, until - from, c.backoffBase);
    }
  }

  lemma QuotientMonotone(a: nat, x: nat, b: nat)
    requires b > 0 && a <= x
    ensures a / b <= x / b
  {
    QuotientBound(a / b, b, x);
  }

  lemma QuotientStep(a: nat, b: nat)
    requires b > 0 && a >= b
    ensures (a - b) / b + 1 <= a / b
  {
    var q := (a - b) / b;
    assert q * b <= a - b;
    assert (q + 1) * b == q * b + b;
    QuotientBound(q + 1, b, a);
  }

  // ---------------------------------------------------------------- one step

  /** Failing settles. */
  lemma FailSettles(s: Slot, fx: Effects)
    requires s.inst.Some?
    ensures Settled(Fail(s, fx).0)
  {
  }

  lemma StayQueuedDrops(c: Setup, now: int, s: Slot)
    requires c.Valid() && SlotOk(c, now, s) && s.Is(Scheduling)
    ensures 0 <= Rank(c, now, StayQueued(c, now, s)) < Rank(c, now, s)
  {
    match s.row
    case None =>
      VisitsShrink(c, now, now + c.backoffBase, now + c.queueTimeout);
    case Some(r) =>
      if now <= r.timeoutAt {
        Backoff.DelayMonotone(c.backoffBase, c.backoffMax, 1, r.attempts + 1);
        VisitsShrink(c, now, NextRow(c, r, now).wakeAt, r.timeoutAt);
      }
  }

  lemma PromoteDrops(c: Setup, now: int, s: Slot)
    requires c.Valid() && SlotOk(c, now, s) && (s.Is(Pending) || s.Is(Queued)) && s.work.Some?
    ensures 0 <= Rank(c, now, s.Advance(Scheduling)) < Rank(c, now, s)
  {
    if s.row.Some? {
      VisitsMonotone(c, s.row.value.wakeAt, now, s.row.value.timeoutAt);
      VisitsMonotone(c, s.row.value.queuedAt, now, s.row.value.timeoutAt);
    }
  }

  lemma StageDrops(c: Setup, now: int, s: Slot, specs: seq<CredSpec>, granted: bool, rpc: RpcOutcome)
    requires c.Valid() && SlotOk(c, now, s) && s.inst.Some? && s.inst.value.status.IsStage() && s.work == Some(InQueue)
    requires rpc == NoSnapshot ==> s.Is(RestoringSnapshot)
    ensures 0 <= Rank(c, now, StageSlot(s, specs, granted, rpc).0) < Rank(c, now, s)
  {
  }

  lemma PollDrops(c: Setup, now: int, s: Slot, o: PollOutcome)
    requires c.Valid() && SlotOk(c, now, s) && s.inst.Some? && s.inst.value.status.IsStage() && s.work == Some(Polling)
    ensures 0 <= Rank(c, now, PollSlot(s, o).0) < Rank(c, now, s)
  {
  }

  lemma ScheduleDrops(c: Setup, now: int, s: Slot, o: ScheduleOutcome)
    requires c.Valid() && SlotOk(c, now, s) && s.Is(Scheduling)
    ensures 0 <= Rank(c, now, ScheduleSlot(c, now, s, o).0) < Rank(c, now, s)
  {
    match o
    case NoCapacity => StayQueuedDrops(c, now, s);
    case Scheduled(p) =>
    case Rejected => FailSettles(s, NOTHING);
  }

  lemma LocalWorkDrops(c: Setup, w: World, e: Event, admitted: bool, granted: bool)
    requires c.Valid() && Enabled(c, w, e) && IsWork(e) && SlotOk(c, w.now, w.At(e.id))
    ensures 0 <= Rank(c, w.now, Local(c, w.now, w.At(e.id), e, admitted, granted).0) < Rank(c, w.now, w.At(e.id))
  {
    var s := w.At(e.id);
    match e
    case Wake(_) =>
    case Promote(_) => PromoteDrops(c, w.now, s);
    case Schedule(_, o) => ScheduleDrops(c, w.now, s, o);
    case RunStage(_, specs, rpc) => StageDrops(c, w.now, s, specs, granted, rpc);
    case FinishPoll(_, o) => PollDrops(c, w.now, s, o);
  }

  /** Each worker step of an instance lowers its rank. */
  lemma WorkDrops(c: Setup, w: World, e: Event)
    requires c.Valid() && Inv(c, w) && Enabled(c, w, e) && IsWork(e)
    ensures 0 <= Rank(c, w.now, Step(c, w, e).At(e.id)) < Rank(c, w.now, w.At(e.id))
  {
    StepAt(c, w, e);
    assert SlotOk(c, w.now, w.At(e.id));
    LocalWorkDrops(c, w, e, Admitted(w, e), Granted(w, e));
  }

  /** What termination assumes of the rest: no new start or stop, and no queue row removed under a scheduling instance. */
  predicate Undisturbed(w: World, e: Event, id: InstanceId) {
    e.Tick? || e.id != id ||
    (!e.Start? && !e.Retry? && !e.Stop? && (e.DropRow? ==> !w.At(id).Is(Scheduling)))
  }

  /** Nothing else raises it: time, other instances, cancelling, deleting, inspecting, cleaning the queue. */
  lemma OtherStepsNeverRaise(c: Setup, w: World, e: Event, id: InstanceId)
    requires c.Valid() && Inv(c, w) && Enabled(c, w, e) && Undisturbed(w, e, id)
    requires !IsWork(e) || e.id != id
    ensures var v := Step(c, w, e); 0 <= Rank(c, v.now, v.At(id)) <= Rank(c, w.now, w.At(id))
  {
    SlotIsOk(c, w, id);
    OtherStepAt(c, w, e, id);
  }

  lemma SlotIsOk(c: Setup, w: World, id: InstanceId)
    requires c.Valid() && Inv(c, w)
    ensures SlotOk(c, w.now, w.At(id))
  {
    if id in w.slots {
      assert SlotOk(c, w.now, w.slots[id]);
    }
  }

  lemma OtherStepAt(c: Setup, w: World, e: Event, id: InstanceId)
    requires c.Valid() && Enabled(c, w, e) && Undisturbed(w, e, id) && SlotOk(c, w.now, w.At(id))
    requires !IsWork(e) || e.id != id
    ensures var v := Step(c, w, e); 0 <= Rank(c, v.now, v.At(id)) <= Rank(c, w.now, w.At(id))
  {
    if e.Tick? {
      TimeNeverRaises(c, w.now, e.delta, w.At(id));
    } else if e.id == id {
      OwnQuietStep(c, w, e);
    } else {
      StepAt(c, w, e);
      TimeNeverRaises(c, w.now, 0, w.At(id));
    }
  }

  lemma TimeNeverRaises(c: Setup, now: int, delta: nat, s: Slot)
    requires c.Valid() && SlotOk(c, now, s)
    ensures 0 <= Rank(c, now + delta, s) <= Rank(c, now, s)
  {
    if s.row.Some? {
      VisitsMonotone(c, now, now + delta, s.row.value.timeoutAt);
    }
  }

  /** What a quiet step makes of its own slot. */
  lemma QuietLocal(c: Setup, w: World, e: Event, admitted: bool, granted: bool)
    requires c.Valid() && Enabled(c, w, e) && !e.Tick? && Undisturbed(w, e, e.id) && !IsWork(e)
    requires SlotOk(c, w.now, w.At(e.id))
    ensures 0 <= Rank(c, w.now, Local(c, w.now, w.At(e.id), e, admitted, granted).0) <= Rank(c, w.now, w.At(e.id))
  {
  }

  lemma OwnQuietStep(c: Setup, w: World, e: Event)
    requires c.Valid() && Enabled(c, w, e) && !e.Tick? && Undisturbed(w, e, e.id) && !IsWork(e)
    requires SlotOk(c, w.now, w.At(e.id))
    ensures 0 <= Rank(c, w.now, Step(c, w, e).At(e.id)) <= Rank(c, w.now, w.At(e.id))
  {
    StepAt(c, w, e);
    QuietLocal(c, w, e, Admitted(w, e), Granted(w, e));
  }

  // -------------------------------------------------------------------- runs

  /** How many steps of a run are the instance's own worker steps. */
  function WorkSteps(es: seq<Event>, id: InstanceId): nat {
    if es == [] then 0
    else (if IsWork(es[0]) && es[0].id == id then 1 else 0) + WorkSteps(es[1..], id)
  }

  /** The user asks for something new: the instance is started, retried or stopped. */
  predicate Restarts(e: Event, id: InstanceId) {
    (e.Start? || e.Retry? || e.Stop?) && e.id == id
  }

  predicate NoRestart(es: seq<Event>, id: InstanceId) {
    forall e :: e in es ==> !Restarts(e, id)
  }

  /** The waker drops the queue row of an instance that is just scheduling. */
  predicate IsSweep(w: World, e: Event, id: InstanceId) {
    e.DropRow? && e.id == id && w.At(id).Is(Scheduling)
  }

  function Sweeps(c: Setup, w: World, es: seq<Event>, id: InstanceId): nat
    requires IsRun(c, w, es)
    decreases |es|
  {
    if es == [] then 0
    else (if IsSweep(w, es[0], id) then 1 else 0) + Sweeps(c, Step(c, w, es[0]), es[1..], id)
  }

  /** One step's account: work is paid from the rank, a sweep may refill it up to the start bound. */
  lemma StepIsPaidFor(c: Setup, w: World, e: Event, id: InstanceId)
    requires c.Valid() && Inv(c, w) && Enabled(c, w, e) && !Restarts(e, id)
    ensures var v := Step(c, w, e);
            (if IsWork(e) && e.id == id then 1 else 0) + Rank(c, v.now, v.At(id))
            <= Rank(c, w.now, w.At(id)) + (if IsSweep(w, e, id) then StartBound(c) else 0)
  {
    if IsWork(e) && e.id == id {
      WorkDrops(c, w, e);
    } else if IsSweep(w, e, id) {
      StepKeepsInv(c, w, e);
      RankInRange(c, Step(c, w, e), id);
      RankInRange(c, w, id);
    } else {
      OtherStepsNeverRaise(c, w, e, id);
    }
  }

  lemma RankInRange(c: Setup, w: World, id: InstanceId)
    requires c.Valid() && Inv(c, w)
    ensures 0 <= Rank(c, w.now, w.At(id)) <= StartBound(c)
  {
    SlotIsOk(c, w, id);
    TimeNeverRaises(c, w.now, 0, w.At(id));
    RankBelowStartBound(c, w.now, w.At(id));
  }

  /**
   * Over any run without a new start, retry or stop, however other instances and time interleave,
   * the worker steps are paid for by the rank and by at most one start bound per sweep.
   */
  lemma {:induction false} WorkIsBoundedByRank(c: Setup, w: World, es: seq<Event>, id: InstanceId)
    requires c.Valid() && Inv(c, w) && IsRun(c, w, es) && NoRestart(es, id)
    ensures var v := After(c, w, es);
            && 0 <= Rank(c, v.now, v.At(id))
            && WorkSteps(es, id) + Rank(c, v.now, v.At(id)) <= Rank(c, w.now, w.At(id)) + Sweeps(c, w, es, id) * StartBound(c)
    decreases |es|
  {
    if es == [] {
      RankInRange(c, w, id);
    } else {
      var e, v := es[0], Step(c, w, es[0]);
      assert e in es;
      StepIsPaidFor(c, w, e, id);
      StepKeepsInv(c, w, e);
      WorkIsBoundedByRank(c, v, es[1..], id);
      var t := After(c, w, es);
      AccountCons(c, w, es, id, Rank(c, w.now, w.At(id)), Rank(c, v.now, v.At(id)), Rank(c, t.now, t.At(id)), StartBound(c));
    }
  }

  /** A run's account is its first step's and that of the rest: r0, r1 and r2 are the ranks before, between and after. */
  lemma AccountCons(c: Setup, w: World, es: seq<Event>, id: InstanceId, r0: int, r1: int, r2: int, bound: nat)
    requires IsRun(c, w, es) && es != []
    requires (if IsWork(es[0]) && es[0].id == id then 1 else 0) + r1 <= r0 + (if IsSweep(w, es[0], id) then bound else 0)
    requires WorkSteps(es[1..], id) + r2 <= r1 + Sweeps(c, Step(c, w, es[0]), es[1..], id) * bound
    ensures WorkSteps(es, id) + r2 <= r0 + Sweeps(c, w, es, id) * bound
  {
    Carry(if IsWork(es[0]) && es[0].id == id then 1 else 0, WorkSteps(es[1..], id), r0, r1, r2,
      IsSweep(w, es[0], id), Sweeps(c, Step(c, w, es[0]), es[1..], id), bound);
  }

  /** Adding one step's account to that of the steps after it. */
  lemma Carry(step: nat, rest: nat, r0: int, r1: int, r2: int, sweep: bool, sweeps: nat, bound: nat)
    requires step + r1 <= r0 + (if sweep then bound else 0)
    requires rest + r2 <= r1 + sweeps * bound
    ensures step + rest + r2 <= r0 + ((if sweep then 1 else 0) + sweeps) * bound
  {
    Refills(if sweep then 1 else 0, sweeps, bound);
  }

  lemma Refills(first: nat, rest: nat, bound: nat)
    ensures (first + rest) * bound == first * bound + rest * bound
  {
  }

  lemma RankBelowStartBound(c: Setup, now: int, s: Slot)
    requires c.Valid() && SlotOk(c, now, s)
    ensures Rank(c, now, s) <= StartBound(c)
  {
    if s.row.Some? {
      var r := s.row.value;
      VisitsMonotone(c, r.queuedAt, now, r.timeoutAt);
      assert r.wakeAt >= r.queuedAt + c.backoffBase by {
        Backoff.MulMonotone(c.backoffBase, 1, r.attempts + 1);
      }
      if r.queuedAt <= r.timeoutAt {
        VisitsShrink(c, r.queuedAt, r.wakeAt, r.timeoutAt);
      }
    }
  }

  // -------------------------------------------------------------- where it ends

  /** Being stopped, stopped, failed or gone. */
  predicate StopSide(s: Slot) {
    s.inst.Some? ==> s.inst.value.status in {Stopping, Cleaning, Stopped, Failed}
  }

  lemma LocalSides(c: Setup, w: World, e: Event, admitted: bool, granted: bool)
    requires Enabled(c, w, e) && !e.Tick? && !Restarts(e, e.id)
    ensures var s, t := w.At(e.id), Local(c, w.now, w.At(e.id), e, admitted, granted).0;
            && (StopSide(s) ==> StopSide(t))
            && (Settled(s) ==> Settled(t))
            && (s.inst.Some? && !s.inst.value.status.IsStopStage() && t.inst.Some? ==> !t.inst.value.status.IsStopStage())
  {
  }

  /** Without a new request the stop side is never left, a settled instance stays settled, and a start never turns into a stop. */
  lemma StepKeepsSides(c: Setup, w: World, e: Event, id: InstanceId)
    requires Enabled(c, w, e) && !Restarts(e, id)
    ensures var s, t := w.At(id), Step(c, w, e).At(id);
            && (StopSide(s) ==> StopSide(t))
            && (Settled(s) ==> Settled(t))
            && (s.inst.None? || !s.inst.value.status.IsStopStage() ==> t.inst.None? || !t.inst.value.status.IsStopStage())
  {
    if !e.Tick? {
      StepAt(c, w, e);
      if e.id == id {
        LocalSides(c, w, e, Admitted(w, e), Granted(w, e));
      }
    }
  }

  lemma {:induction false} RunKeepsSides(c: Setup, w: World, es: seq<Event>, id: InstanceId)
    requires IsRun(c, w, es) && NoRestart(es, id)
    ensures var s, t := w.At(id), After(c, w, es).At(id);
            && (StopSide(s) ==> StopSide(t))
            && (Settled(s) ==> Settled(t))
            && (s.inst.None? || !s.inst.value.status.IsStopStage() ==> t.inst.None? || !t.inst.value.status.IsStopStage())
    ensures StopSide(w.At(id)) || Settled(w.At(id)) ==> Sweeps(c, w, es, id) == 0
    decreases |es|
  {
    if es != [] {
      assert es[0] in es;
      StepKeepsSides(c, w, es[0], id);
      RunKeepsSides(c, Step(c, w, es[0]), es[1..], id);
    }
  }

  /**
   * What becomes of a request, over every run in which the user asks for nothing new, under every
   * pattern of successes, retryable and fatal failures and timeouts:
   * the instance takes at most one start bound of worker steps, plus one more per sweep of its row;
   * a stop takes less than three stages' worth and is never anywhere but stopping, cleaning,
   * stopped, failed or gone; a start never turns into a stop; and wherever the run has got to, the
   * instance is running, stopped, failed or gone, or its worker can still move.
   */
  lemma LifecycleTerminates(c: Setup, w: World, es: seq<Event>, id: InstanceId)
    requires c.Valid() && Reachable(c, w) && IsRun(c, w, es) && NoRestart(es, id)
    ensures WorkSteps(es, id) <= (1 + Sweeps(c, w, es, id)) * StartBound(c)
    ensures Settled(w.At(id)) ==> WorkSteps(es, id) == 0
    ensures w.At(id).inst.Some? && w.At(id).inst.value.status.IsStopStage() ==> WorkSteps(es, id) < 3 * PER_STAGE
    ensures StopSide(w.At(id)) ==> StopSide(After(c, w, es).At(id))
    ensures !StopSide(w.At(id)) ==> After(c, w, es).At(id).inst.None? || !After(c, w, es).At(id).inst.value.status.IsStopStage()
    ensures Settled(After(c, w, es).At(id)) || exists delta: nat, e :: CanMove(c, After(c, w, es), id, delta, e)
  {
    ReachableIsSound(c, w);
    WorkIsBounded(c, w, es, id);
    RunKeepsSides(c, w, es, id);
    InvOverEveryRun(c, w, es);
    if !Settled(After(c, w, es).At(id)) {
      UnsettledCanMove(c, After(c, w, es), id);
    }
  }

  lemma WorkIsBounded(c: Setup, w: World, es: seq<Event>, id: InstanceId)
    requires c.Valid() && Inv(c, w) && IsRun(c, w, es) && NoRestart(es, id)
    ensures WorkSteps(es, id) <= (1 + Sweeps(c, w, es, id)) * StartBound(c)
    ensures Settled(w.At(id)) ==> WorkSteps(es, id) == 0
    ensures w.At(id).inst.Some? && w.At(id).inst.value.status.IsStopStage() ==> WorkSteps(es, id) < 3 * PER_STAGE
  {
    RankInRange(c, w, id);
    WorkIsBoundedByRank(c, w, es, id);
    RunKeepsSides(c, w, es, id);
    StopRank(c, w, id);
    OneMore(WorkSteps(es, id), Rank(c, w.now, w.At(id)), Sweeps(c, w, es, id), StartBound(c));
  }

  lemma OneMore(work: nat, rank: int, sweeps: nat, bound: nat)
    requires work <= rank + sweeps * bound && rank <= bound
    ensures work <= (1 + sweeps) * bound && (sweeps == 0 ==> work <= rank)
  {
    Refills(1, sweeps, bound);
  }

  lemma StopRank(c: Setup, w: World, id: InstanceId)
    requires c.Valid() && Inv(c, w)
    ensures w.At(id).inst.Some? && w.At(id).inst.value.status.IsStopStage() ==> Rank(c, w.now, w.At(id)) < 3 * PER_STAGE
  {
    SlotIsOk(c, w, id);
  }

  /** A stop that has come to rest is stopped, failed or gone; a start is running, stopped, failed or gone. */
  lemma RequestsEnd(c: Setup, w: World, es: seq<Event>, id: InstanceId)
    requires c.Valid() && Reachable(c, w) && IsRun(c, w, es) && NoRestart(es, id)
    requires forall delta: nat, e :: !CanMove(c, After(c, w, es), id, delta, e)
    ensures var t := After(c, w, es).At(id);
            && (StopSide(w.At(id)) ==> t.inst.None? || t.Is(Stopped) || t.Is(Failed))
            && (t.inst.None? || t.Is(Running) || t.Is(Stopped) || t.Is(Failed))
  {
    LifecycleTerminates(c, w, es, id);
  }

  /** And it can always come to rest: some run of waiting and worker steps alone gets there. */
  lemma {:induction false} CompletionExists(c: Setup, w: World, id: InstanceId) returns (es: seq<Event>)
    requires c.Valid() && Inv(c, w)
    ensures IsRun(c, w, es) && Settled(After(c, w, es).At(id))
    ensures forall e :: e in es ==> e.Tick? || (IsWork(e) && e.id == id)
    decreases if Rank(c, w.now, w.At(id)) < 0 then 0 else Rank(c, w.now, w.At(id))
  {
    RankInRange(c, w, id);
    if Settled(w.At(id)) {
      es := [];
    } else {
      UnsettledCanMove(c, w, id);
      var delta: nat, e :| CanMove(c, w, id, delta, e);
      var w1 := Step(c, w, Tick(delta));
      StepKeepsInv(c, w, Tick(delta));
      OtherStepsNeverRaise(c, w, Tick(delta), id);
      WorkDrops(c, w1, e);
      StepKeepsInv(c, w1, e);
      var rest := CompletionExists(c, Step(c, w1, e), id);
      RunCons(c, w1, e, rest);
      RunCons(c, w, Tick(delta), [e] + rest);
      es := [Tick(delta)] + ([e] + rest);
    }
  }

  /** Once delta has passed, the event is a possible worker step of the instance. */
  ghost predicate CanMove(c: Setup, w: World, id: InstanceId, delta: nat, e: Event) {
    Enabled(c, w.(now := w.now + delta), e) && IsWork(e) && e.id == id
  }

  /** And it cannot get stuck before: an unsettled instance always has a worker step, at the latest when its row is due. */
  lemma UnsettledCanMove(c: Setup, w: World, id: InstanceId)
    requires c.Valid() && Inv(c, w) && !Settled(w.At(id))
    ensures exists delta: nat, e :: CanMove(c, w, id, delta, e)
  {
    SlotIsOk(c, w, id);
    var s := w.At(id);
    if s.work.None? {
      var delta: nat := if s.row.value.wakeAt > w.now then s.row.value.wakeAt - w.now else 0;
      assert CanMove(c, w, id, delta, Wake(id));
    } else {
      WorkerCanMove(c, w, id);
      assert CanMove(c, w, id, 0, WorkerMove(s, id));
    }
  }

  /** A step the worker of an unsettled instance can always take. */
  function WorkerMove(s: Slot, id: InstanceId): Event {
    if s.work == Some(Polling) then FinishPoll(id, TimedOut)
    else if s.Is(Pending) || s.Is(Queued) then Promote(id)
    else if s.Is(Scheduling) then Schedule(id, Rejected)
    else RunStage(id, [], Broken)
  }

  lemma WorkerCanMove(c: Setup, w: World, id: InstanceId)
    requires SlotOk(c, w.now, w.At(id)) && !Settled(w.At(id)) && w.At(id).work.Some?
    ensures CanMove(c, w, id, 0, WorkerMove(w.At(id), id))
  {
    var s := w.At(id);
    assert w.(now := w.now + 0) == w;
    match s.work.value
    case Polling =>
      assert s.inst.value.status.IsStage();
    case InQueue =>
      assert s.Is(Pending) || s.Is(Queued) || s.Is(Scheduling) || s.inst.value.status.IsStage();
  }

  // ------------------------------------------------------------------- retries

  /** Retries taken in a run that never clears the counter. */
  function RetrySteps(c: Setup, w: World, es: seq<Event>, id: InstanceId): nat
    requires IsRun(c, w, es)
    decreases |es|
  {
    if es == [] then 0
    else
      var v := Step(c, w, es[0]);
      (if v.At(id).retries > w.At(id).retries then 1 else 0) + RetrySteps(c, v, es[1..], id)
  }

  ghost predicate NeverCleared(c: Setup, w: World, es: seq<Event>, id: InstanceId)
    requires IsRun(c, w, es)
    decreases |es|
  {
    es == [] || (Step(c, w, es[0]).At(id).retries >= w.At(id).retries && NeverCleared(c, Step(c, w, es[0]), es[1..], id))
  }

  lemma RetriesGrowByOne(c: Setup, w: World, e: Event, id: InstanceId)
    requires Enabled(c, w, e)
    ensures Step(c, w, e).At(id).retries <= w.At(id).retries + 1
  {
    if !e.Tick? {
      StepAt(c, w, e);
      LocalRetries(c, w, e, Admitted(w, e), Granted(w, e));
    }
  }

  lemma LocalRetries(c: Setup, w: World, e: Event, admitted: bool, granted: bool)
    requires Enabled(c, w, e) && !e.Tick?
    ensures Local(c, w.now, w.At(e.id), e, admitted, granted).0.retries <= w.At(e.id).retries + 1
  {
  }

  /** Between two clears at most RETRY_MAX automatic retries happen, over all stages together. */
  lemma {:induction false} RetriesBetweenClears(c: Setup, w: World, es: seq<Event>, id: InstanceId)
    requires c.Valid() && Inv(c, w) && IsRun(c, w, es) && NeverCleared(c, w, es, id)
    ensures RetrySteps(c, w, es, id) == After(c, w, es).At(id).retries - w.At(id).retries
    ensures RetrySteps(c, w, es, id) <= RETRY_MAX
    decreases |es|
  {
    InvOverEveryRun(c, w, es);
    assert id in After(c, w, es).slots ==> SlotOk(c, After(c, w, es).now, After(c, w, es).slots[id]);
    if es != [] {
      StepKeepsInv(c, w, es[0]);
      RetriesGrowByOne(c, w, es[0], id);
      RetriesBetweenClears(c, Step(c, w, es[0]), es[1..], id);
    }
  }

  // ------------------------------------------------- the waker's stray clean-up

  /** Wake, start scheduling, have the row swept as inconsistent, find no capacity. */
  function SweptRound(id: InstanceId, wait: nat): seq<Event> {
    [Tick(wait)] + ([Wake(id)] + ([Promote(id)] + ([DropRow(id)] + ([Schedule(id, NoCapacity)] + []))))
  }

  /**
   * A sweep really can refill the rank: the round ends with a brand-new row whose timeout starts
   * over, so the rank is back at that of a first queueing.
   */
  lemma SweepingRestartsTheClock(c: Setup, w: World, id: InstanceId, wait: nat)
    requires c.Valid() && Asleep(w.At(id)) && w.At(id).row.Some? && w.At(id).row.value.wakeAt <= w.now + wait
    ensures IsRun(c, w, SweptRound(id, wait))
    ensures var v := After(c, w, SweptRound(id, wait));
            && Asleep(v.At(id)) && v.At(id).row == Some(FirstRow(c, w.now + wait)) && v.now == w.now + wait
            && (SlotOk(c, w.now, w.At(id)) ==> Rank(c, v.now, v.At(id)) >= Rank(c, w.now, w.At(id)))
  {
    SweptRoundRuns(c, w, id, wait);
    if SlotOk(c, w.now, w.At(id)) {
      FirstRowIsLongest(c, w.At(id), After(c, w, SweptRound(id, wait)).At(id), w.now, w.now + wait);
    }
  }

  lemma SweptRoundRuns(c: Setup, w: World, id: InstanceId, wait: nat)
    requires Asleep(w.At(id)) && w.At(id).row.Some? && w.At(id).row.value.wakeAt <= w.now + wait
    ensures IsRun(c, w, SweptRound(id, wait))
    ensures var v := After(c, w, SweptRound(id, wait));
            Asleep(v.At(id)) && v.At(id).row == Some(FirstRow(c, w.now + wait)) && v.now == w.now + wait
    ensures Sweeps(c, w, SweptRound(id, wait), id) == 1
  {
    SweptAfterWake(c, w.(now := w.now + wait), id);
    WaitFirst(c, w, wait, [Wake(id)] + ([Promote(id)] + ([DropRow(id)] + ([Schedule(id, NoCapacity)] + []))), id);
  }

  /** Waiting before a run changes the clock it starts from and nothing else. */
  lemma WaitFirst(c: Setup, w: World, wait: nat, es: seq<Event>, id: InstanceId)
    requires IsRun(c, w.(now := w.now + wait), es)
    ensures IsRun(c, w, [Tick(wait)] + es)
    ensures After(c, w, [Tick(wait)] + es) == After(c, w.(now := w.now + wait), es)
    ensures Sweeps(c, w, [Tick(wait)] + es, id) == Sweeps(c, w.(now := w.now + wait), es, id)
  {
    assert Step(c, w, Tick(wait)) == w.(now := w.now + wait);
    RunCons(c, w, Tick(wait), es);
    SweepsCons(c, w, Tick(wait), es, id);
  }

  lemma SweptAfterWake(c: Setup, w: World, id: InstanceId)
    requires Asleep(w.At(id)) && w.At(id).row.Some? && w.At(id).row.value.wakeAt <= w.now
    ensures var es := [Wake(id)] + ([Promote(id)] + ([DropRow(id)] + ([Schedule(id, NoCapacity)] + [])));
            && IsRun(c, w, es) && After(c, w, es).now == w.now && Asleep(After(c, w, es).At(id))
            && After(c, w, es).At(id).row == Some(FirstRow(c, w.now)) && Sweeps(c, w, es, id) == 1
  {
    var s := w.At(id);
    var last := [Schedule(id, NoCapacity)] + [];
    var w1 := Step(c, w, Wake(id));
    StepAt(c, w, Wake(id));
    assert w1.At(id) == s.(work := Some(InQueue));
    var w2 := Step(c, w1, Promote(id));
    StepAt(c, w1, Promote(id));
    assert w2.At(id) == s.Advance(Scheduling);
    SweptWhileScheduling(c, w2, id);
    RunCons(c, w1, Promote(id), [DropRow(id)] + last);
    RunCons(c, w, Wake(id), [Promote(id)] + ([DropRow(id)] + last));
    SweepsCons(c, w1, Promote(id), [DropRow(id)] + last, id);
    SweepsCons(c, w, Wake(id), [Promote(id)] + ([DropRow(id)] + last), id);
  }

  lemma SweptWhileScheduling(c: Setup, w: World, id: InstanceId)
    requires w.At(id).Is(Scheduling) && w.At(id).work == Some(InQueue)
    requires w.At(id).row.Some? && w.At(id).row.value.wakeAt <= w.now
    ensures var es := [DropRow(id)] + ([Schedule(id, NoCapacity)] + []);
            && IsRun(c, w, es) && After(c, w, es).now == w.now && Asleep(After(c, w, es).At(id))
            && After(c, w, es).At(id).row == Some(FirstRow(c, w.now)) && Sweeps(c, w, es, id) == 1
  {
    var w1 := Step(c, w, DropRow(id));
    StepAt(c, w, DropRow(id));
    QueuedAfresh(c, w1, id);
    RunCons(c, w, DropRow(id), [Schedule(id, NoCapacity)] + []);
    SweepsCons(c, w, DropRow(id), [Schedule(id, NoCapacity)] + [], id);
  }

  lemma QueuedAfresh(c: Setup, w: World, id: InstanceId)
    requires w.At(id).Is(Scheduling) && w.At(id).work == Some(InQueue) && w.At(id).row.None?
    ensures var es := [Schedule(id, NoCapacity)] + [];
            && IsRun(c, w, es) && After(c, w, es).now == w.now && Asleep(After(c, w, es).At(id))
            && After(c, w, es).At(id).row == Some(FirstRow(c, w.now)) && Sweeps(c, w, es, id) == 0
  {
    StepAt(c, w, Schedule(id, NoCapacity));
    RunCons(c, w, Schedule(id, NoCapacity), []);
    SweepsCons(c, w, Schedule(id, NoCapacity), [], id);
  }

  lemma SweepsCons(c: Setup, w: World, e: Event, es: seq<Event>, id: InstanceId)
    requires Enabled(c, w, e) && IsRun(c, Step(c, w, e), es) && IsRun(c, w, [e] + es)
    ensures Sweeps(c, w, [e] + es, id) == (if IsSweep(w, e, id) then 1 else 0) + Sweeps(c, Step(c, w, e), es, id)
  {
    assert ([e] + es)[1..] == es;
  }

  lemma WorkCons(e: Event, es: seq<Event>, id: InstanceId)
    ensures WorkSteps([e] + es, id) == (if IsWork(e) && e.id == id then 1 else 0) + WorkSteps(es, id)
    ensures NoRestart([e] + es, id) <==> !Restarts(e, id) && NoRestart(es, id)
  {
    assert ([e] + es)[1..] == es;
    assert forall x :: x in [e] + es <==> x == e || x in es;
  }

  lemma SweptRoundWork(id: InstanceId, wait: nat)
    ensures WorkSteps(SweptRound(id, wait), id) == 3 && NoRestart(SweptRound(id, wait), id)
  {
    SweptTailWork(id);
    WorkCons(Wake(id), [Promote(id)] + ([DropRow(id)] + ([Schedule(id, NoCapacity)] + [])), id);
    WorkCons(Tick(wait), [Wake(id)] + ([Promote(id)] + ([DropRow(id)] + ([Schedule(id, NoCapacity)] + []))), id);
  }

  lemma SweptTailWork(id: InstanceId)
    ensures var es := [Promote(id)] + ([DropRow(id)] + ([Schedule(id, NoCapacity)] + []));
            WorkSteps(es, id) == 2 && NoRestart(es, id)
  {
    WorkCons(Schedule(id, NoCapacity), [], id);
    WorkCons(DropRow(id), [Schedule(id, NoCapacity)] + [], id);
    WorkCons(Promote(id), [DropRow(id)] + ([Schedule(id, NoCapacity)] + []), id);
  }

  /**
   * The worker steps of a queued instance are bounded exactly as far as its sweeps are: n sweeps
   * allow no more than n further start bounds of work, and n sweeps with 3n steps really occur, for every n.
   */
  lemma {:induction false} SweepsKeepItGoing(c: Setup, w: World, id: InstanceId, n: nat) returns (es: seq<Event>)
    requires c.Valid() && Asleep(w.At(id)) && w.At(id).row.Some?
    ensures IsRun(c, w, es) && NoRestart(es, id) && Asleep(After(c, w, es).At(id))
    ensures Sweeps(c, w, es, id) == n && WorkSteps(es, id) == 3 * n
    decreases n
  {
    es := [];
    if n > 0 {
      var wait: nat := if w.At(id).row.value.wakeAt > w.now then w.At(id).row.value.wakeAt - w.now else 0;
      var round := SweptRound(id, wait);
      SweptRoundRuns(c, w, id, wait);
      SweptRoundWork(id, wait);
      var rest := SweepsKeepItGoing(c, After(c, w, round), id, n - 1);
      RunAppend(c, w, round, rest);
      CountsAppend(c, w, round, rest, id);
      es := round + rest;
    }
  }

  /** No sleeping slot ranks above one that has just been queued for the first time. */
  lemma FirstRowIsLongest(c: Setup, s: Slot, first: Slot, now: int, later: int)
    requires c.Valid() && SlotOk(c, now, s) && Asleep(s) && Asleep(first) && first.row == Some(FirstRow(c, later))
    ensures Rank(c, now, s) <= Rank(c, later, first)
  {
    var r := s.row.value;
    Backoff.MulMonotone(c.backoffBase, 1, r.attempts + 1);
    VisitsMonotone(c, r.queuedAt + c.backoffBase, r.wakeAt, r.timeoutAt);
  }

  lemma {:induction false} CountsAppend(c: Setup, w: World, es: seq<Event>, fs: seq<Event>, id: InstanceId)
    requires IsRun(c, w, es) && IsRun(c, After(c, w, es), fs) && IsRun(c, w, es + fs)
    ensures WorkSteps(es + fs, id) == WorkSteps(es, id) + WorkSteps(fs, id)
    ensures Sweeps(c, w, es + fs, id) == Sweeps(c, w, es, id) + Sweeps(c, After(c, w, es), fs, id)
    decreases |es|
  {
    if es == [] {
      assert es + fs == fs;
    } else {
      assert (es + fs)[1..] == es[1..] + fs;
      CountsAppend(c, Step(c, w, es[0]), es[1..], fs, id);
    }
  }
}
