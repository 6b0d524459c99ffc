/** The whole invariant over every step and every run, and what it says about stop failures and queueing. */
module LifecycleRuns {
  import opened Wrappers
  import opened Entities
  import opened Resources
  import opened PortTable
  import opened Sums
  import opened Lifecycle
  import opened LifecycleInvariant
  import Backoff

  /** After a step, the event's own slot is what Local makes of it; other slots and the clock are untouched. */
  lemma StepAt(c: Setup, w: World, e: Event)
    requires Enabled(c, w, e) && !e.Tick?
    ensures var v := Step(c, w, e);
            && v.At(e.id) == Local(c, w.now, w.At(e.id), e, Admitted(w, e), Granted(w, e)).0
            && v.now == w.now
            && forall id :: id != e.id ==> v.At(id) == w.At(id)
  {
  }

  /** Runs are built one event at a time. */
  lemma RunCons(c: Setup, w: World, e: Event, es: seq<Event>)
    requires Enabled(c, w, e) && IsRun(c, Step(c, w, e), es)
    ensures IsRun(c, w, [e] + es) && After(c, w, [e] + es) == After(c, Step(c, w, e), es)
  {
    assert ([e] + es)[1..] == es;
  }

  lemma {:induction false} RunAppend(c: Setup, w: World, es: seq<Event>, fs: seq<Event>)
    requires IsRun(c, w, es) && IsRun(c, After(c, w, es), fs)
    ensures IsRun(c, w, es + fs) && After(c, w, es + fs) == After(c, After(c, w, es), fs)
    decreases |es|
  {
    if es == [] {
      assert es + fs == fs;
    } else {
      RunAppend(c, Step(c, w, es[0]), es[1..], fs);
      assert (es + fs)[1..] == es[1..] + fs;
    }
  }

  lemma CommitKeepsPorts(c: Setup, w: World, id: InstanceId, s: Slot, fx: Effects)
    requires NoClash(w.ports)
    requires fx.reserve.Some? ==> Rebindable(w.ports, fx.reserve.value.plan) && NoClash(fx.reserve.value.plan)
    ensures NoClash(PortsAfter(w.ports, id, fx))
  {
    WithoutKeepsNoClash(w.ports, id);
    if fx.reserve.Some? {
      BindKeepsNoClash(w.ports, fx.reserve.value.plan);
    }
  }

  /** Letting time pass keeps every slot sound. */
  lemma TickKeepsInv(c: Setup, w: World, delta: nat)
    requires Inv(c, w)
    ensures Inv(c, w.(now := w.now + delta))
  {
    forall id | id in w.slots
      ensures SlotOk(c, w.now + delta, w.slots[id])
    {
      assert SlotOk(c, w.now, w.slots[id]);
    }
  }

  /** Every event of the life cycle keeps the whole invariant. */
  lemma StepKeepsInv(c: Setup, w: World, e: Event)
    requires c.Valid() && Inv(c, w) && Enabled(c, w, e)
    ensures Inv(c, Step(c, w, e))
  {
    if e.Tick? {
      TickKeepsInv(c, w, e.delta);
    } else {
      var admitted, granted := Admitted(w, e), Granted(w, e);
      var (s, fx) := Local(c, w.now, w.At(e.id), e, admitted, granted);
      assert SlotOk(c, w.now, w.At(e.id));
      LocalKeepsSlot(c, w, e, admitted, granted);
      LocalHolding(c, w, e, admitted, granted);
      LocalCredentials(c, w, e, admitted, granted);
      CommitKeepsInv(c, w, e.id, s, fx);
    }
  }

  lemma CommitKeepsInv(c: Setup, w: World, id: InstanceId, s: Slot, fx: Effects)
    requires c.Valid() && Inv(c, w) && SlotOk(c, w.now, s)
    requires HoldingOk(c, w.At(id), s, fx) && CredentialsOk(w.At(id), s, fx)
    requires fx.reserve.Some? ==> !fx.giveBack && Reservable(c, w, fx.reserve.value) && NoClash(fx.reserve.value.plan)
    ensures Inv(c, Commit(c, w, id, s, fx))
  {
    CommitConserves(c, w, id, s, fx);
    CommitStaysWithinLimits(c, w, id, fx);
    CommitKeepsPorts(c, w, id, s, fx);
    CommitKeepsHolders(c, w, id, s, fx);
  }

  /**
   * Over every run of user calls, dispatches, polls, wake-ups and inspections: reserved counters
   * equal the bound requests, no node is overcommitted, no host port is shared, credentials are
   * held only while starting to cleaning, and every unfinished instance is being worked on.
   */
  lemma {:induction false} InvOverEveryRun(c: Setup, w: World, es: seq<Event>)
    requires c.Valid() && Inv(c, w) && IsRun(c, w, es)
    ensures Inv(c, After(c, w, es))
    decreases |es|
  {
    if es != [] {
      StepKeepsInv(c, w, es[0]);
      InvOverEveryRun(c, Step(c, w, es[0]), es[1..]);
    }
  }

  /** A world the controller can reach from an empty database. */
  ghost predicate Reachable(c: Setup, w: World) {
    exists pool, es :: Unused(pool) && IsRun(c, EmptyWorld(c, pool), es) && w == After(c, EmptyWorld(c, pool), es)
  }

  lemma ReachableIsSound(c: Setup, w: World)
    requires c.Valid() && Reachable(c, w)
    ensures Inv(c, w)
  {
    var pool, es :| Unused(pool) && IsRun(c, EmptyWorld(c, pool), es) && w == After(c, EmptyWorld(c, pool), es);
    EmptyWorldIsSound(c, pool);
    InvOverEveryRun(c, EmptyWorld(c, pool), es);
  }

  /**
   * Conservation without overcommitment in every reachable state: what a node has reserved is the
   * sum of the requests bound there, never negative and never above its limits.
   */
  lemma ReservedIsExact(c: Setup, w: World, n: NodeId)
    requires c.Valid() && Reachable(c, w) && n in c.limits
    ensures n in w.reserved && w.reserved[n] == Held(c, w.slots, n)
    ensures NonNegative(w.reserved[n]) && WithinLimits(w.reserved[n], c.limits[n])
  {
    ReachableIsSound(c, w);
    SharesNonNegative(c, w, n);
    TotalNonNegative(Shares(c, w.slots, n));
  }

  /** With the limits the scheduler uses, no node ever has more reserved than its capacity times the utilization target. */
  lemma ReservedStaysBelowTarget(c: Setup, w: World, n: NodeId, spec: NodeSpec, target: real)
    requires c.Valid() && Reachable(c, w) && n in c.limits && c.limits[n] == NodeLimits(spec, target)
    requires spec.coreNum >= 0 && spec.memoryMb >= 0 && spec.storageMb >= 0
    ensures n in w.reserved
    ensures var r := w.reserved[n].hard;
            && WithinShare(r.cpu, spec.coreNum * 1000, target)
            && WithinShare(r.mem, spec.memoryMb * 1048576, target)
            && WithinShare(r.disk, spec.storageMb * 1048576, target)
  {
    ReservedIsExact(c, w, n);
    NodeLimitsAreShares(spec, target);
  }

  /** Between nothing and capacity times target, with 0.8 in place of a target that is not above 0 and at most 1. */
  predicate WithinShare(x: int, capacity: int, target: real) {
    0.0 <= x as real <= capacity as real * (if 0.0 < target <= 1.0 then target else 0.8)
  }

  /**
   * Stop failure is exact in every reachable state: a failed instance is still bound exactly when
   * its last failure came from stopping or cleaning; start and retry then refuse it, stop accepts it.
   */
  lemma StopFailureIsExact(c: Setup, w: World, id: InstanceId)
    requires c.Valid() && Reachable(c, w) && w.At(id).inst.Some?
    ensures var s, i := w.At(id), w.At(id).inst.value;
            && (i.status in {Pending, Scheduling, Queued, Stopped} ==> i.agent.None?)
            && (i.status.ReferencesCache() ==> i.agent.Some?)
            && (i.IsStopFailure() <==> i.status == Failed && i.failedFrom.Some? && i.failedFrom.value.IsStopStage())
            && (i.IsStopFailure() ==> !MayStart(s) && !MayRetry(s) && MayStop(s))
  {
    ReachableIsSound(c, w);
    assert SlotOk(c, w.now, w.slots[id]);
  }

  /** Queue attempts are bounded by waiting: at most queue timeout over base delay, and paid for so far. */
  lemma AttemptsArePaidFor(c: Setup, w: World, id: InstanceId)
    requires c.Valid() && Reachable(c, w) && w.At(id).row.Some?
    ensures var r := w.At(id).row.value;
            && r.attempts <= c.queueTimeout / c.backoffBase
            && r.attempts * c.backoffBase <= w.now - r.queuedAt
  {
    ReachableIsSound(c, w);
    assert SlotOk(c, w.now, w.slots[id]);
    var r := w.At(id).row.value;
    QuotientBound(r.attempts, c.backoffBase, c.queueTimeout);
  }

  lemma QuotientBound(a: nat, b: nat, t: nat)
    requires b > 0 && a * b <= t
    ensures a <= t / b
  {
    var q := t / b;
    assert t < (q + 1) * b;
    if a >= q + 1 {
      Backoff.MulMonotone(b, q + 1, a);
    }
  }
}
