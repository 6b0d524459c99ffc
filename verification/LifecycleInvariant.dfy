/**
 * What every step of the life cycle keeps: reservations add up, nodes are not overcommitted,
 * stop failures are exact, ports do not clash, credentials are held only by starting to cleaning
 * instances, and every unfinished instance has a worker or a queue row.
 */
module LifecycleInvariant {
  import opened Wrappers
  import opened Entities
  import opened Resources
  import opened PortTable
  import opened Sums
  import opened Lifecycle
  import Backoff
  import Credentials

  // ---------------------------------------------------------- one slot by itself

  /** Which states are bound to a node agent, and what Failed-and-bound means. */
  ghost predicate BindingOk(c: Setup, i: Instance) {
    && (i.status in {Pending, Scheduling, Queued, Stopped} ==> i.agent.None?)
    && (i.status.ReferencesCache() ==> i.agent.Some?)
    && (i.status.ReferencesCache() && !i.status.IsStopStage() ==> i.req.Some?)
    && (i.status == Failed ==> i.failedFrom.Some?)
    && (i.status == Failed ==> (i.agent.Some? <==> i.failedFrom.value.IsStopStage()))
    && (i.status == Failed && i.agent.Some? ==> i.req.None?)
    && (i.agent.Some? ==> i.agent.value in c.agents)
    && (i.agent.Some? && i.req.Some? ==> IsRequest(i.req.value))
  }

  /** Workers belong to unfinished instances; unfinished ones have a worker, or wait as Queued with a row. */
  predicate WorkerOk(s: Slot) {
    if s.inst.None? then s.work.None?
    else
      var st := s.inst.value.status;
      && (s.work.Some? ==> st.IsDispatchable())
      && (s.work == Some(Polling) ==> st.IsStage())
      && (st.IsDispatchable() && st != Queued ==> s.work.Some?)
      && (st == Queued ==> s.row.Some?)
  }

  /** Waiting for the row's wake-up time, as opposed to due, being served or left over. */
  predicate Asleep(s: Slot) {
    s.Is(Queued) && s.work.None?
  }

  /** A queue row's clock: every attempt has been paid for by waiting at least the base delay. */
  predicate RowOk(c: Setup, now: int, s: Slot) {
    s.row.Some? ==>
      var r := s.row.value;
      && r.timeoutAt == r.queuedAt + c.queueTimeout
      && r.queuedAt <= now
      && r.wakeAt >= r.queuedAt + (r.attempts + 1) * c.backoffBase
      && r.attempts * c.backoffBase <= c.queueTimeout
      && r.attempts * c.backoffBase <= now - r.queuedAt
      && (!Asleep(s) ==> r.wakeAt <= now)
  }

  ghost predicate SlotOk(c: Setup, now: int, s: Slot) {
    (s.inst.Some? ==> BindingOk(c, s.inst.value)) && WorkerOk(s) && RowOk(c, now, s) && s.retries <= RETRY_MAX
  }

  lemma FailKeepsSlot(c: Setup, now: int, s: Slot, fx: Effects)
    requires SlotOk(c, now, s) && s.inst.Some? && !s.Is(Failed) && !s.Is(Queued)
    ensures SlotOk(c, now, Fail(s, fx).0)
  {
  }

  lemma NextRowPaidFor(c: Setup, now: int, s: Slot)
    requires c.Valid() && RowOk(c, now, s) && s.row.Some? && !Asleep(s) && now <= s.row.value.timeoutAt
    ensures var r := NextRow(c, s.row.value, now);
            && r.wakeAt >= r.queuedAt + (r.attempts + 1) * c.backoffBase
            && r.attempts * c.backoffBase <= c.queueTimeout && r.attempts * c.backoffBase <= now - r.queuedAt
  {
    var r := s.row.value;
    Backoff.DelayMonotone(c.backoffBase, c.backoffMax, 1, r.attempts + 1);
    assert (r.attempts + 1 + 1) * c.backoffBase == (r.attempts + 1) * c.backoffBase + c.backoffBase;
  }

  lemma StayQueuedKeepsSlot(c: Setup, now: int, s: Slot)
    requires c.Valid() && SlotOk(c, now, s) && s.Is(Scheduling)
    ensures SlotOk(c, now, StayQueued(c, now, s))
  {
    if s.row.Some? && now <= s.row.value.timeoutAt {
      NextRowPaidFor(c, now, s);
    }
  }

  lemma ScheduleKeepsSlot(c: Setup, w: World, s: Slot, id: InstanceId, o: ScheduleOutcome)
    requires c.Valid() && SlotOk(c, w.now, s) && s.Is(Scheduling)
    requires o.Scheduled? ==> Reservable(c, w, o.placement)
    ensures SlotOk(c, w.now, ScheduleSlot(c, w.now, s, o).0)
  {
    match o
    case Scheduled(p) =>
    case NoCapacity => StayQueuedKeepsSlot(c, w.now, s);
    case Rejected => FailKeepsSlot(c, w.now, s, NOTHING);
  }

  lemma StageKeepsSlot(c: Setup, now: int, s: Slot, specs: seq<CredSpec>, granted: bool, rpc: RpcOutcome)
    requires SlotOk(c, now, s) && s.inst.Some? && s.inst.value.status.IsStage() && s.work == Some(InQueue)
    requires rpc == NoSnapshot ==> s.Is(RestoringSnapshot)
    ensures SlotOk(c, now, StageSlot(s, specs, granted, rpc).0)
  {
    FailKeepsSlot(c, now, s, NOTHING);
    FailKeepsSlot(c, now, s.(retries := 0), NOTHING);
  }

  lemma PollKeepsSlot(c: Setup, now: int, s: Slot, o: PollOutcome)
    requires SlotOk(c, now, s) && s.inst.Some? && s.inst.value.status.IsStage() && s.work == Some(Polling)
    ensures SlotOk(c, now, PollSlot(s, o).0)
  {
    FailKeepsSlot(c, now, s, NOTHING);
    FailKeepsSlot(c, now, s.(retries := 0), NOTHING);
  }

  lemma InspectKeepsSlot(c: Setup, now: int, s: Slot, seen: InspectOutcome)
    requires SlotOk(c, now, s) && s.Is(Running)
    ensures SlotOk(c, now, InspectSlot(c, now, s, seen).0)
  {
    FailKeepsSlot(c, now, s.(offline := None), NOTHING);
  }

  /** The event's own slot stays sound. */
  lemma LocalKeepsSlot(c: Setup, w: World, e: Event, admitted: bool, granted: bool)
    requires c.Valid() && Enabled(c, w, e) && !e.Tick? && SlotOk(c, w.now, w.At(e.id))
    ensures SlotOk(c, w.now, Local(c, w.now, w.At(e.id), e, admitted, granted).0)
  {
    var s := w.At(e.id);
    match e
    case Schedule(id, o) => ScheduleKeepsSlot(c, w, s, id, o);
    case RunStage(_, specs, rpc) => StageKeepsSlot(c, w.now, s, specs, granted, rpc);
    case FinishPoll(_, o) => PollKeepsSlot(c, w.now, s, o);
    case Inspect(_, seen) => InspectKeepsSlot(c, w.now, s, seen);
    case _ =>
  }

  // ------------------------------------------------------- sums of reservations

  /** The requests held on a node, by instance. */
  function Shares(c: Setup, slots: map<InstanceId, Slot>, n: NodeId): map<InstanceId, Vec> {
    map id | id in slots && HoldsOn(c, slots[id], n) :: slots[id].inst.value.req.value
  }

  /** The sum of the requests of all instances bound to the node. */
  ghost function Held(c: Setup, slots: map<InstanceId, Slot>, n: NodeId): Vec {
    Total(Shares(c, slots, n))
  }

  /** A slot that starts to hold adds its request. */
  lemma HeldAfterGain(c: Setup, w: World, id: InstanceId, s: Slot, n: NodeId)
    requires HoldsOn(c, s, n) && !HoldsOn(c, w.At(id), n)
    ensures Held(c, w.slots[id := s], n) == Add(Held(c, w.slots, n), s.inst.value.req.value)
  {
    assert Shares(c, w.slots[id := s], n) == Shares(c, w.slots, n)[id := s.inst.value.req.value];
    TotalAfterInsert(Shares(c, w.slots, n), id, s.inst.value.req.value);
  }

  /** A slot that no longer holds takes out what it held. */
  lemma HeldAfterLoss(c: Setup, w: World, id: InstanceId, s: Slot, n: NodeId)
    requires !HoldsOn(c, s, n)
    ensures Held(c, w.slots[id := s], n) ==
            if HoldsOn(c, w.At(id), n) then Minus(Held(c, w.slots, n), w.At(id).inst.value.req.value)
            else Held(c, w.slots, n)
  {
    assert Shares(c, w.slots[id := s], n) == Shares(c, w.slots, n) - {id};
    if HoldsOn(c, w.At(id), n) {
      TotalAfterRemoval(Shares(c, w.slots, n), id);
    } else {
      assert Shares(c, w.slots, n) - {id} == Shares(c, w.slots, n);
    }
  }

  /** The two slots hold the same thing, or nothing. */
  predicate SameHolding(c: Setup, a: Slot, b: Slot) {
    HolderNode(c, a) == HolderNode(c, b) && (HolderNode(c, a).Some? ==> a.inst.value.req == b.inst.value.req)
  }

  lemma HeldUnchanged(c: Setup, w: World, id: InstanceId, s: Slot, n: NodeId)
    requires SameHolding(c, w.At(id), s)
    ensures Held(c, w.slots[id := s], n) == Held(c, w.slots, n)
  {
    assert Shares(c, w.slots[id := s], n) == Shares(c, w.slots, n);
  }

  // -------------------------------------------------------------- global invariant

  ghost predicate AllSlotsOk(c: Setup, w: World) {
    forall id :: id in w.slots ==> SlotOk(c, w.now, w.slots[id])
  }

  /** Each node's reserved counters are exactly the requests of the instances bound there. */
  ghost predicate Conserved(c: Setup, w: World) {
    w.reserved.Keys == c.limits.Keys && forall n :: n in w.reserved ==> w.reserved[n] == Held(c, w.slots, n)
  }

  ghost predicate AllWithin(c: Setup, reserved: map<NodeId, Vec>) {
    reserved.Keys == c.limits.Keys && forall n :: n in reserved ==> WithinLimits(reserved[n], c.limits[n])
  }

  ghost predicate NotOvercommitted(c: Setup, w: World) {
    AllWithin(c, w.reserved)
  }

  predicate CanHold(s: Slot) {
    s.inst.Some? && s.inst.value.status in {Starting, Running, Stopping, Cleaning}
  }

  /** The instances that may hold credentials. */
  function Holders(slots: map<InstanceId, Slot>): set<InstanceId> {
    set id | id in slots && CanHold(slots[id])
  }

  ghost predicate HeldWithin(pool: Credentials.Pool, ids: set<InstanceId>) {
    forall cred :: cred in pool && cred.status == Credentials.InUse ==> cred.holder.Some? && cred.holder.value in ids
  }

  ghost predicate Inv(c: Setup, w: World) {
    && AllSlotsOk(c, w) && Conserved(c, w) && NotOvercommitted(c, w)
    && NoClash(w.ports) && HeldWithin(w.pool, Holders(w.slots))
  }

  /** A controller with no instances yet. */
  function EmptyWorld(c: Setup, pool: Credentials.Pool): World {
    World(map[], map n | n in c.limits :: ZERO, [], pool, 0)
  }

  ghost predicate Unused(pool: Credentials.Pool) {
    forall cred :: cred in pool ==> cred.status != Credentials.InUse
  }

  lemma EmptyWorldIsSound(c: Setup, pool: Credentials.Pool)
    requires c.Valid() && Unused(pool)
    ensures Inv(c, EmptyWorld(c, pool))
  {
    forall n | n in c.limits
      ensures Held(c, map[], n) == ZERO
    {
      assert Shares(c, map[], n) == map[];
    }
  }

  // ------------------------------------------------------------ conservation

  lemma SharesNonNegative(c: Setup, w: World, n: NodeId)
    requires AllSlotsOk(c, w)
    ensures forall id :: id in Shares(c, w.slots, n) ==> NonNegative(Shares(c, w.slots, n)[id])
  {
    forall id | id in Shares(c, w.slots, n)
      ensures NonNegative(Shares(c, w.slots, n)[id])
    {
      assert SlotOk(c, w.now, w.slots[id]);
    }
  }

  lemma NoClipping(reserved: Vec, req: Vec)
    requires NonNegative(Minus(reserved, req))
    ensures GiveBack(reserved, req) == Minus(reserved, req)
  {
  }

  /** Giving a held request back never clips a counter at zero. */
  lemma ReleaseIsExact(c: Setup, w: World, id: InstanceId, n: NodeId)
    requires AllSlotsOk(c, w) && Conserved(c, w) && n in w.reserved
    ensures Release(c, w.reserved, w.At(id)).Keys == w.reserved.Keys
    ensures Release(c, w.reserved, w.At(id))[n] ==
            if HoldsOn(c, w.At(id), n) then Minus(w.reserved[n], w.At(id).inst.value.req.value) else w.reserved[n]
  {
    if HoldsOn(c, w.At(id), n) {
      HeldIsCovered(c, w, id, n);
      NoClipping(w.reserved[n], w.At(id).inst.value.req.value);
    }
  }

  /** A node's counters cover each single request held on it. */
  lemma HeldIsCovered(c: Setup, w: World, id: InstanceId, n: NodeId)
    requires AllSlotsOk(c, w) && Conserved(c, w) && n in w.reserved && HoldsOn(c, w.At(id), n)
    ensures NonNegative(Minus(w.reserved[n], w.At(id).inst.value.req.value))
  {
    SharesNonNegative(c, w, n);
    assert id in Shares(c, w.slots, n);
    EntryBelowTotal(Shares(c, w.slots, n), id);
  }

  /** What an event may do to a holding: keep it, give it back, drop nothing, or reserve a new one. */
  ghost predicate HoldingOk(c: Setup, before: Slot, after: Slot, fx: Effects) {
    if fx.giveBack then HolderNode(c, after).None?
    else match fx.reserve
      case None => SameHolding(c, before, after)
      case Some(p) =>
        HolderNode(c, before).None? && p.agent in c.agents &&
        HolderNode(c, after) == Some(c.agents[p.agent]) && after.inst.value.req == Some(p.req)
  }

  lemma FailHolding(c: Setup, before: Slot, s: Slot, fx: Effects)
    requires s.inst.Some? && SameHolding(c, before, s) && !s.Is(Failed)
    requires s.inst.value.status == Scheduling ==> s.inst.value.agent.None?
    requires !fx.giveBack && fx.reserve.None?
    ensures var (t, gx) := Fail(s, fx); HoldingOk(c, before, t, gx) && gx.reserve.None?
  {
  }

  lemma StageHolding(c: Setup, s: Slot, specs: seq<CredSpec>, granted: bool, rpc: RpcOutcome)
    requires s.inst.Some? && s.inst.value.status.IsStage()
    ensures var (t, fx) := StageSlot(s, specs, granted, rpc); HoldingOk(c, s, t, fx) && fx.reserve.None?
  {
    var fx := if s.Is(Starting) then NOTHING.(allocate := specs) else NOTHING;
    FailHolding(c, s, s, NOTHING);
    FailHolding(c, s, s, fx);
    FailHolding(c, s, s.(retries := 0), fx);
  }

  lemma PollHolding(c: Setup, s: Slot, o: PollOutcome)
    requires s.inst.Some? && s.inst.value.status.IsStage()
    ensures var (t, fx) := PollSlot(s, o); HoldingOk(c, s, t, fx) && fx.reserve.None?
  {
    FailHolding(c, s, s, NOTHING);
    FailHolding(c, s, s.(retries := 0), NOTHING);
  }

  lemma InspectHolding(c: Setup, now: int, s: Slot, seen: InspectOutcome)
    requires s.Is(Running)
    ensures var (t, fx) := InspectSlot(c, now, s, seen); HoldingOk(c, s, t, fx) && fx.reserve.None?
  {
    FailHolding(c, s, s.(offline := None), NOTHING);
  }

  /** Every event keeps, gives back or newly reserves; it never forgets a holding. */
  lemma LocalHolding(c: Setup, w: World, e: Event, admitted: bool, granted: bool)
    requires c.Valid() && Enabled(c, w, e) && !e.Tick? && SlotOk(c, w.now, w.At(e.id))
    ensures var (s, fx) := Local(c, w.now, w.At(e.id), e, admitted, granted);
            HoldingOk(c, w.At(e.id), s, fx) && (fx.giveBack ==> fx.reserve.None?) &&
            (fx.reserve.Some? ==> e.Schedule? && e.outcome.Scheduled? && fx.reserve.value == e.outcome.placement)
  {
    var s := w.At(e.id);
    match e
    case Schedule(_, o) =>
      if o.Rejected? {
        FailHolding(c, s, s, NOTHING);
      }
    case RunStage(_, specs, rpc) => StageHolding(c, s, specs, granted, rpc);
    case FinishPoll(_, o) => PollHolding(c, s, o);
    case Inspect(_, seen) => InspectHolding(c, w.now, s, seen);
    case _ =>
  }

  lemma CommitConserves(c: Setup, w: World, id: InstanceId, s: Slot, fx: Effects)
    requires AllSlotsOk(c, w) && Conserved(c, w) && HoldingOk(c, w.At(id), s, fx)
    requires fx.reserve.Some? ==> !fx.giveBack && c.agents[fx.reserve.value.agent] in w.reserved
    ensures Conserved(c, Commit(c, w, id, s, fx))
  {
    var v := Commit(c, w, id, s, fx);
    forall n | n in w.reserved
      ensures n in v.reserved && v.reserved[n] == Held(c, v.slots, n)
    {
      if fx.giveBack {
        ReleaseIsExact(c, w, id, n);
        HeldAfterLoss(c, w, id, s, n);
      } else if fx.reserve.Some? {
        if n == c.agents[fx.reserve.value.agent] {
          HeldAfterGain(c, w, id, s, n);
        } else {
          HeldAfterLoss(c, w, id, s, n);
        }
      } else {
        HeldUnchanged(c, w, id, s, n);
      }
    }
    if fx.giveBack && w.reserved != map[] {
      var n :| n in w.reserved;
      ReleaseIsExact(c, w, id, n);
    }
  }

  /** A committed reservation was rechecked, so it fits however stale the reading it was chosen on. */
  lemma ReservationFits(c: Setup, w: World, p: Placement)
    requires c.Valid() && AllSlotsOk(c, w) && Conserved(c, w) && NotOvercommitted(c, w) && Reservable(c, w, p)
    ensures WithinLimits(Add(w.reserved[c.agents[p.agent]], p.req), c.limits[c.agents[p.agent]])
  {
    var n := c.agents[p.agent];
    SharesNonNegative(c, w, n);
    TotalNonNegative(Shares(c, w.slots, n));
    RecheckIsExactAfterH3(c.limits[n], p.staleReading, w.reserved[n], p.req);
  }

  /** Giving back only lowers counters. */
  lemma GivingBackFits(c: Setup, w: World, id: InstanceId, n: NodeId)
    requires AllSlotsOk(c, w) && Conserved(c, w) && NotOvercommitted(c, w) && n in w.reserved
    ensures n in Release(c, w.reserved, w.At(id)) && WithinLimits(Release(c, w.reserved, w.At(id))[n], c.limits[n])
  {
    ReleaseIsExact(c, w, id, n);
    SharesNonNegative(c, w, n);
    if HoldsOn(c, w.At(id), n) {
      assert id in Shares(c, w.slots, n);
      assert NonNegative(w.At(id).inst.value.req.value);
    }
  }

  lemma CommitStaysWithinLimits(c: Setup, w: World, id: InstanceId, fx: Effects)
    requires c.Valid() && AllSlotsOk(c, w) && Conserved(c, w) && NotOvercommitted(c, w)
    requires fx.reserve.Some? ==> Reservable(c, w, fx.reserve.value)
    requires ReservedAfter(c, w.reserved, w.At(id), fx).Keys == c.limits.Keys
    ensures AllWithin(c, ReservedAfter(c, w.reserved, w.At(id), fx))
  {
    var after := ReservedAfter(c, w.reserved, w.At(id), fx);
    if fx.giveBack {
      forall n | n in after
        ensures WithinLimits(after[n], c.limits[n])
      {
        GivingBackFits(c, w, id, n);
      }
    } else if fx.reserve.Some? {
      ReservationFits(c, w, fx.reserve.value);
    }
  }

  // --------------------------------------------------------------- credentials

  /** Allocating for an instance can only add that instance to the holders. */
  lemma {:induction false} AllocateAllHolders(pool: Credentials.Pool, game: string, specs: seq<CredSpec>, id: InstanceId, ids: set<InstanceId>)
    requires HeldWithin(pool, ids)
    ensures HeldWithin(AllocateAll(pool, game, specs, id).0, ids + {id})
    ensures specs == [] ==> AllocateAll(pool, game, specs, id).0 == pool
    decreases |specs|
  {
    if specs != [] {
      var next := Credentials.Allocate(pool, game, specs[0].pool, id).0;
      AllocateHolders(pool, game, specs[0].pool, id, ids);
      AllocateAllHolders(next, game, specs[1..], id, ids + {id});
      assert ids + {id} + {id} == ids + {id};
    }
  }

  lemma AllocateHolders(pool: Credentials.Pool, game: string, kind: string, id: InstanceId, ids: set<InstanceId>)
    requires HeldWithin(pool, ids)
    ensures HeldWithin(Credentials.Allocate(pool, game, kind, id).0, ids + {id})
  {
    forall cid: string
      ensures HeldWithin(Credentials.Acquire(pool, cid, id), ids + {id})
    {
      AcquireHolders(pool, cid, id, ids);
    }
  }

  lemma AcquireHolders(pool: Credentials.Pool, cid: string, id: InstanceId, ids: set<InstanceId>)
    requires HeldWithin(pool, ids)
    ensures HeldWithin(Credentials.Acquire(pool, cid, id), ids + {id})
  {
    var q := Credentials.Acquire(pool, cid, id);
    forall cred | cred in q && cred.status == Credentials.InUse
      ensures cred.holder.Some? && cred.holder.value in ids + {id}
    {
      var k :| 0 <= k < |q| && q[k] == cred;
      assert pool[k] in pool;
    }
  }

  /** After a release the instance holds nothing. */
  lemma ReleaseHolders(pool: Credentials.Pool, id: InstanceId, ids: set<InstanceId>)
    requires HeldWithin(pool, ids + {id})
    ensures HeldWithin(Credentials.ReleaseBy(pool, id), ids - {id})
  {
    var q := Credentials.ReleaseBy(pool, id);
    forall cred | cred in q && cred.status == Credentials.InUse
      ensures cred.holder.Some? && cred.holder.value in ids - {id}
    {
      var k :| 0 <= k < |q| && q[k] == cred;
      assert pool[k] in pool;
    }
  }

  /** An event that allocates ends in a holding state or frees; one that leaves the holding states frees. */
  ghost predicate CredentialsOk(before: Slot, after: Slot, fx: Effects) {
    fx.freeCredentials || CanHold(after) || (fx.allocate == [] && !CanHold(before))
  }

  lemma LocalCredentials(c: Setup, w: World, e: Event, admitted: bool, granted: bool)
    requires Enabled(c, w, e) && !e.Tick? && WorkerOk(w.At(e.id))
    ensures var (s, fx) := Local(c, w.now, w.At(e.id), e, admitted, granted); CredentialsOk(w.At(e.id), s, fx)
  {
  }

  lemma CommitKeepsHolders(c: Setup, w: World, id: InstanceId, s: Slot, fx: Effects)
    requires HeldWithin(w.pool, Holders(w.slots)) && CredentialsOk(w.At(id), s, fx)
    ensures HeldWithin(Commit(c, w, id, s, fx).pool, Holders(w.slots[id := s]))
  {
    var before, after := Holders(w.slots), Holders(w.slots[id := s]);
    var game := if w.At(id).inst.Some? then w.At(id).inst.value.game else "";
    AllocateAllHolders(w.pool, game, fx.allocate, id, before);
    assert before - {id} <= after;
    if fx.freeCredentials {
      ReleaseHolders(AllocateAll(w.pool, game, fx.allocate, id).0, id, before);
    }
  }
}
