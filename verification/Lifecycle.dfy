/**
 * The life cycle of game instances as a step system: what every use-case call, dispatcher step,
 * poll outcome, queue wake-up and health inspection does to the controller's tables. RPC
 * outcomes, time and the scheduler's choice are part of the event.
 */
module Lifecycle {
  import opened Wrappers
  import opened Entities
  import opened Resources
  import opened PortTable
  import Backoff
  import Credentials

  type InstanceId = string
  type AgentId = string
  type NodeId = string

  const RETRY_MAX: nat := 3

  /** One row of game_instances; failedFrom records the state of the last failure. */
  datatype Instance = Instance(
    game: string,
    status: Status,
    agent: Option<AgentId>,
    req: Option<Vec>,
    resourceOverride: bool,
    branch: string,
    subscription: Option<string>,
    failedFrom: Option<Status>)
  {
    predicate IsStopFailure() {
      status == Failed && agent.Some?
    }
  }

  /** One row of scheduling_queue. */
  datatype QueueRow = QueueRow(attempts: nat, wakeAt: int, queuedAt: int, timeoutAt: int)

  /** The worker that drives an instance: waiting in the dispatch queue, or polling an operation. */
  datatype Task = InQueue | Polling

  /** What does not change while the controller runs. */
  datatype Setup = Setup(
    agents: map<AgentId, NodeId>,
    limits: map<NodeId, Hard>,
    backoffBase: nat,
    backoffMax: nat,
    queueTimeout: nat,
    fencingTimeout: nat)
  {
    ghost predicate Valid() {
      && (forall a :: a in agents ==> agents[a] in limits)
      && (forall n :: n in limits ==> SaneLimits(limits[n]))
      && 0 < backoffBase <= backoffMax
    }
  }

  /** Everything the controller keeps per instance id: row, queue row, retry counter, offline mark, worker. */
  datatype Slot = Slot(
    inst: Option<Instance>,
    row: Option<QueueRow>,
    retries: nat,
    offline: Option<int>,
    work: Option<Task>)
  {
    predicate Is(s: Status) {
      inst.Some? && inst.value.status == s
    }

    /** Replace the instance row. */
    function Put(i: Instance): Slot {
      this.(inst := Some(i))
    }

    /** Assign the status and hand the instance to the dispatch queue again. */
    function Advance(s: Status): Slot
      requires inst.Some?
    {
      this.(inst := Some(inst.value.(status := s)), work := Some(InQueue))
    }
  }

  const NO_SLOT := Slot(None, None, 0, None, None)

  datatype World = World(
    slots: map<InstanceId, Slot>,
    reserved: map<NodeId, Vec>,
    ports: Table,
    pool: Credentials.Pool,
    now: int)
  {
    function At(id: InstanceId): Slot {
      if id in slots then slots[id] else NO_SLOT
    }
  }

  datatype CredSpec = CredSpec(pool: string, required: bool)

  /** A successful reservation: where, how much, on which (possibly stale) reading, with which ports. */
  datatype Placement = Placement(agent: AgentId, req: Vec, staleReading: Vec, plan: seq<Mapping>, cacheNeeded: bool, branch: string)

  datatype ScheduleOutcome = Scheduled(placement: Placement) | NoCapacity | Rejected

  datatype RpcOutcome =
    | Broken      // a lookup before the RPC failed
    | NoSnapshot  // restoring only: nothing to restore
    | Accepted
    | Transient
    | Fatal

  datatype PollOutcome = Succeeded | RetryableFailure | FatalFailure | TimedOut

  datatype InspectOutcome = Healthy | InstanceFailed | UnreachableNodeUp | UnreachableNodeDown

  datatype Event =
    | Tick(delta: nat)
    | Create(id: InstanceId, game: string, req: Option<Vec>, subscription: Option<string>)
    | Start(id: InstanceId)
    | Retry(id: InstanceId)
    | Stop(id: InstanceId)
    | CancelQueued(id: InstanceId)
    | Delete(id: InstanceId)
    | Wake(id: InstanceId)
    | DropRow(id: InstanceId)
    | Promote(id: InstanceId)
    | Schedule(id: InstanceId, outcome: ScheduleOutcome)
    | RunStage(id: InstanceId, specs: seq<CredSpec>, rpc: RpcOutcome)
    | FinishPoll(id: InstanceId, result: PollOutcome)
    | Inspect(id: InstanceId, seen: InspectOutcome)

  // -------------------------------------------------------------- shared tables

  /** What a step does beyond its own slot, in this order. */
  datatype Effects = Effects(
    allocate: seq<CredSpec>,     // credentials requested for the instance
    freeCredentials: bool,       // ReleaseByInstance
    giveBack: bool,              // releaseReservation
    reserve: Option<Placement>,  // TryReserve committed
    freePorts: bool)             // DeleteByInstanceId on the port table

  const NOTHING := Effects([], false, false, None, false)

  /** The instance is bound to an agent of this node and has a request recorded. */
  predicate HoldsOn(c: Setup, s: Slot, n: NodeId) {
    s.inst.Some? && s.inst.value.agent.Some? && s.inst.value.req.Some? &&
    s.inst.value.agent.value in c.agents && c.agents[s.inst.value.agent.value] == n
  }

  /** The node a slot holds a reservation on, if any. */
  function HolderNode(c: Setup, s: Slot): Option<NodeId> {
    if s.inst.Some? && s.inst.value.agent.Some? && s.inst.value.req.Some? && s.inst.value.agent.value in c.agents
    then Some(c.agents[s.inst.value.agent.value]) else None
  }

  /** releaseReservation: give the request back to the bound agent's node. */
  function Release(c: Setup, reserved: map<NodeId, Vec>, s: Slot): map<NodeId, Vec> {
    match HolderNode(c, s)
    case None => reserved
    case Some(n) => if n in reserved then reserved[n := GiveBack(reserved[n], s.inst.value.req.value)] else reserved
  }

  /** allocateCredentials: one allocation per declared spec; a required pool that is empty aborts. */
  function AllocateAll(pool: Credentials.Pool, game: string, specs: seq<CredSpec>, id: InstanceId): (Credentials.Pool, bool)
    decreases |specs|
  {
    if specs == [] then (pool, true)
    else
      var (next, secret) := Credentials.Allocate(pool, game, specs[0].pool, id);
      if secret.None? && specs[0].required then (next, false)
      else AllocateAll(next, game, specs[1..], id)
  }

  function PoolAfter(pool: Credentials.Pool, id: InstanceId, game: string, fx: Effects): Credentials.Pool {
    var pool' := AllocateAll(pool, game, fx.allocate, id).0;
    if fx.freeCredentials then Credentials.ReleaseBy(pool', id) else pool'
  }

  function ReservedAfter(c: Setup, reserved: map<NodeId, Vec>, before: Slot, fx: Effects): map<NodeId, Vec> {
    if fx.giveBack then Release(c, reserved, before)
    else match fx.reserve
      case None => reserved
      case Some(p) =>
        if p.agent in c.agents && c.agents[p.agent] in reserved
        then reserved[c.agents[p.agent] := Add(reserved[c.agents[p.agent]], p.req)]
        else reserved
  }

  function PortsAfter(ports: Table, id: InstanceId, fx: Effects): Table {
    if fx.freePorts then Without(ports, id)
    else if fx.reserve.Some? then ports + fx.reserve.value.plan
    else ports
  }

  /** Store the new slot and carry out the effects. */
  function Commit(c: Setup, w: World, id: InstanceId, s: Slot, fx: Effects): World {
    var before := w.At(id);
    World(w.slots[id := s],
          ReservedAfter(c, w.reserved, before, fx),
          PortsAfter(w.ports, id, fx),
          PoolAfter(w.pool, id, if before.inst.Some? then before.inst.value.game else "", fx),
          w.now)
  }

  // ----------------------------------------------------------- one instance's steps

  /** The row that FailedInstance saves: stop stages keep the binding and forget the request. */
  function FailedRow(i: Instance): Instance {
    var stopStage := i.status.IsStopStage();
    i.(status := Failed,
       failedFrom := Some(i.status),
       agent := if stopStage then i.agent else None,
       req := if stopStage then None else i.req)
  }

  /** FailedInstance: free credentials and (unless still scheduling) the reservation; ports stay. */
  function Fail(s: Slot, fx: Effects): (Slot, Effects)
    requires s.inst.Some?
  {
    (s.Put(FailedRow(s.inst.value)).(work := None),
     fx.(freeCredentials := true, giveBack := s.inst.value.status != Scheduling))
  }

  /** retryOperation, then either back into the dispatch queue or failure. */
  function RetryOrFail(s: Slot, fx: Effects): (Slot, Effects)
    requires s.inst.Some?
  {
    if s.retries + 1 > RETRY_MAX then Fail(s.(retries := 0), fx)
    else (s.(retries := s.retries + 1, work := Some(InQueue)), fx)
  }

  predicate MayStart(s: Slot) {
    s.inst.Some? && s.inst.value.status in {Stopped, Failed} && !s.inst.value.IsStopFailure()
  }

  predicate MayRetry(s: Slot) {
    s.inst.Some? && s.inst.value.status == Failed && !s.inst.value.IsStopFailure()
  }

  predicate MayStop(s: Slot) {
    s.inst.Some? && (s.inst.value.status == Running || s.inst.value.IsStopFailure())
  }

  predicate MayDelete(s: Slot) {
    s.inst.Some? && (s.inst.value.status == Queued || !s.inst.value.status.IsDispatchable())
  }

  function FirstRow(c: Setup, now: int): QueueRow {
    QueueRow(0, now + c.backoffBase, now, now + c.queueTimeout)
  }

  function NextRow(c: Setup, r: QueueRow, now: int): QueueRow {
    r.(attempts := r.attempts + 1, wakeAt := now + Backoff.Delay(c.backoffBase, c.backoffMax, r.attempts + 1))
  }

  /** Scheduled: bound to the agent with the request recorded; the queue row is gone. */
  function Bound(s: Slot, p: Placement): Slot
    requires s.inst.Some?
  {
    s.Put(s.inst.value.(status := if p.cacheNeeded then CacheWarming else PreparingBuild,
                        agent := Some(p.agent), req := Some(p.req), branch := p.branch))
     .(row := None, work := Some(InQueue))
  }

  /** Still no capacity: first row, back off, or give up after the timeout. */
  function StayQueued(c: Setup, now: int, s: Slot): Slot
    requires s.inst.Some?
  {
    var i := s.inst.value;
    match s.row
    case None => s.Put(i.(status := Queued)).(row := Some(FirstRow(c, now)), work := None)
    case Some(r) =>
      if now > r.timeoutAt then s.Put(i.(status := Failed, failedFrom := Some(i.status))).(row := None, work := None)
      else s.Put(i.(status := Queued)).(row := Some(NextRow(c, r, now)), work := None)
  }

  function ScheduleSlot(c: Setup, now: int, s: Slot, o: ScheduleOutcome): (Slot, Effects)
    requires s.inst.Some?
  {
    match o
    case Scheduled(p) => (Bound(s, p), NOTHING.(reserve := Some(p)))
    case NoCapacity => (StayQueued(c, now, s), NOTHING)
    case Rejected => Fail(s, NOTHING)
  }

  /** One dispatch of a stage: RPC sent, retried, skipped or failed; starting allocates credentials first. */
  function StageSlot(s: Slot, specs: seq<CredSpec>, granted: bool, rpc: RpcOutcome): (Slot, Effects)
    requires s.inst.Some?
  {
    if rpc == Broken then Fail(s, NOTHING)
    else if rpc == NoSnapshot then (s.Advance(Starting), NOTHING)
    else
      var fx := if s.Is(Starting) then NOTHING.(allocate := specs) else NOTHING;
      if s.Is(Starting) && !granted then Fail(s, fx)
      else if rpc == Accepted then (s.(work := Some(Polling)), fx)
      else if rpc == Transient then RetryOrFail(s, fx)
      else Fail(s, fx)
  }

  /** The callback of a stage whose operation succeeded. */
  function StageDone(s: Slot): (Slot, Effects)
    requires s.inst.Some?
  {
    var i := s.inst.value;
    if i.status == CacheWarming then (s.Advance(PreparingBuild), NOTHING)
    else if i.status == PreparingBuild then (s.Advance(RestoringSnapshot), NOTHING)
    else if i.status == RestoringSnapshot then (s.Advance(Starting), NOTHING)
    else if i.status == Starting then (s.Put(i.(status := Running)).(work := None), NOTHING)
    else if i.status == Stopping then (s.Advance(Cleaning), NOTHING)
    else (s.Put(i.(status := Stopped, agent := None)).(work := None), NOTHING.(freeCredentials := true, giveBack := true, freePorts := true))
  }

  /** A finished poll; success clears the retry counter, except after cache warming. */
  function PollSlot(s: Slot, o: PollOutcome): (Slot, Effects)
    requires s.inst.Some?
  {
    match o
    case Succeeded => StageDone(if s.Is(CacheWarming) then s else s.(retries := 0))
    case RetryableFailure => RetryOrFail(s, NOTHING)
    case _ => Fail(s, NOTHING)
  }

  /** One round of WatchRunningInstances for one instance. */
  function InspectSlot(c: Setup, now: int, s: Slot, seen: InspectOutcome): (Slot, Effects)
    requires s.inst.Some?
  {
    match seen
    case Healthy => (s.(offline := None), NOTHING)
    case InstanceFailed => Fail(s.(offline := None), NOTHING)
    case UnreachableNodeUp => (s.(offline := None), NOTHING)
    case UnreachableNodeDown =>
      match s.offline
      case None => (s.(offline := Some(now)), NOTHING)
      case Some(since) => if now - since >= c.fencingTimeout then Fail(s.(offline := None), NOTHING) else (s, NOTHING)
  }

  function NewInstance(game: string, req: Option<Vec>, subscription: Option<string>): Instance {
    Instance(game, Stopped, None, req, req.Some?, "", subscription, None)
  }

  /** Deleting removes the row, its ports and, for a queued instance, its queue row. */
  function Removed(s: Slot): Slot {
    s.(inst := None, row := if s.Is(Queued) then None else s.row)
  }

  // ---------------------------------------------------------------- transitions

  /** M10: nobody else in the instance's subscription is active. */
  predicate SlotFree(w: World, id: InstanceId) {
    var s := w.At(id);
    s.inst.Some? ==>
      var sub := s.inst.value.subscription;
      sub.None? || sub.value == "" ||
      forall other :: other in w.slots && other != id ==> !OccupiesSubscription(w.slots[other], sub.value)
  }

  predicate OccupiesSubscription(s: Slot, sub: string) {
    s.inst.Some? && s.inst.value.subscription == Some(sub) && s.inst.value.status.IsActive()
  }

  /** The row is in the unique index over subscriptions, under this id; the empty id counts as one there. */
  predicate IndexedUnder(s: Slot, sub: string) {
    s.inst.Some? && s.inst.value.subscription == Some(sub) && IndexedAsActive(s.inst.value.status)
  }

  /** The unique index accepts this instance's row in an indexed state: nobody else's is in it for the subscription. */
  predicate IndexFree(w: World, id: InstanceId) {
    var s := w.At(id);
    s.inst.Some? && s.inst.value.subscription.Some? ==>
      forall other :: other in w.slots && other != id ==> !IndexedUnder(w.slots[other], s.inst.value.subscription.value)
  }

  /** A start, retry or stop that passes its guard is also let through by the subscription check and by the index. */
  predicate Admitted(w: World, e: Event)
    requires !e.Tick?
  {
    && (e.Start? || e.Retry? ==> SlotFree(w, e.id))
    && (e.Start? || e.Retry? || e.Stop? ==> IndexFree(w, e.id))
  }

  /** The reservation transaction commits: H3 held on some reading, and both rechecks pass now. */
  predicate Reservable(c: Setup, w: World, p: Placement) {
    && p.agent in c.agents && c.agents[p.agent] in c.limits && c.agents[p.agent] in w.reserved
    && IsRequest(p.req) && NonNegative(p.staleReading)
    && ResourcesSatisfied(Allocatable(c.limits[c.agents[p.agent]], p.staleReading), p.req)
    && RecheckPasses(c.limits[c.agents[p.agent]], w.reserved[c.agents[p.agent]], p.req)
    && Rebindable(w.ports, p.plan)
  }

  ghost predicate PlanOk(id: InstanceId, p: Placement) {
    NoClash(p.plan) && forall m :: m in p.plan ==> m.instance == id && m.agent == p.agent
  }

  /** Which events can occur. User calls always can: a refused call changes nothing. */
  ghost predicate Enabled(c: Setup, w: World, e: Event) {
    e.Tick? || (
      var s := w.At(e.id);
      match e
      case Create(_, _, _, _) => s.inst.None?
      case Start(_) => true
      case Retry(_) => true
      case Stop(_) => true
      case CancelQueued(_) => s.Is(Queued) ==> s.work.None?
      case Delete(_) => MayDelete(s) ==> s.work.None? && !s.Is(Running)
      case Wake(_) => s.Is(Queued) && s.work.None? && s.row.Some? && s.row.value.wakeAt <= w.now
      case DropRow(_) => !s.Is(Queued) && s.row.Some? && s.row.value.wakeAt <= w.now
      case Promote(_) => (s.Is(Pending) || s.Is(Queued)) && s.work == Some(InQueue)
      case Schedule(id, o) =>
        s.Is(Scheduling) && s.work == Some(InQueue) &&
        (o.Scheduled? ==> Reservable(c, w, o.placement) && PlanOk(id, o.placement))
      case RunStage(_, _, rpc) =>
        s.inst.Some? && s.inst.value.status.IsStage() && s.work == Some(InQueue) &&
        (rpc == NoSnapshot ==> s.Is(RestoringSnapshot))
      case FinishPoll(_, o) =>
        s.inst.Some? && s.inst.value.status.IsStage() && s.work == Some(Polling) &&
        (s.Is(CacheWarming) ==> o != RetryableFailure)
      case Inspect(_, _) => s.Is(Running))
  }

  /** What the event makes of its own slot, given whether it was admitted and credentials were available. */
  function Local(c: Setup, now: int, s: Slot, e: Event, admitted: bool, granted: bool): (Slot, Effects)
    requires !e.Tick?
    requires e.Promote? || e.Schedule? || e.RunStage? || e.FinishPoll? || e.Inspect? ==> s.inst.Some?
  {
    match e
    case Create(_, game, req, sub) => (s.Put(NewInstance(game, req, sub)), NOTHING)
    case Start(_) => (if MayStart(s) && admitted then s.Advance(Pending) else s, NOTHING)
    case Retry(_) => (if MayRetry(s) && admitted then s.Advance(Pending) else s, NOTHING)
    case Stop(_) => (if MayStop(s) && admitted then s.Advance(Stopping) else s, NOTHING)
    case CancelQueued(_) =>
      (if s.Is(Queued) then s.Put(s.inst.value.(status := Stopped)).(row := None) else s, NOTHING)
    case Delete(_) => if MayDelete(s) then (Removed(s), NOTHING.(freePorts := true)) else (s, NOTHING)
    case Wake(_) => (s.(work := Some(InQueue)), NOTHING)
    case DropRow(_) => (s.(row := None), NOTHING)
    case Promote(_) => (s.Advance(Scheduling), NOTHING)
    case Schedule(_, o) => ScheduleSlot(c, now, s, o)
    case RunStage(_, specs, rpc) => StageSlot(s, specs, granted, rpc)
    case FinishPoll(_, o) => PollSlot(s, o)
    case Inspect(_, seen) => InspectSlot(c, now, s, seen)
  }

  /** Whether every required credential of a starting instance can be allocated. */
  function Granted(w: World, e: Event): bool {
    e.RunStage? && w.At(e.id).inst.Some? ==>
      AllocateAll(w.pool, w.At(e.id).inst.value.game, e.specs, e.id).1
  }

  function Step(c: Setup, w: World, e: Event): World
    requires Enabled(c, w, e)
  {
    if e.Tick? then w.(now := w.now + e.delta)
    else
      var (s, fx) := Local(c, w.now, w.At(e.id), e, Admitted(w, e), Granted(w, e));
      Commit(c, w, e.id, s, fx)
  }

  // ----------------------------------------------------------------------- runs

  ghost predicate IsRun(c: Setup, w: World, es: seq<Event>)
    decreases |es|
  {
    es == [] || (Enabled(c, w, es[0]) && IsRun(c, Step(c, w, es[0]), es[1..]))
  }

  ghost function After(c: Setup, w: World, es: seq<Event>): World
    requires IsRun(c, w, es)
    decreases |es|
  {
    if es == [] then w else After(c, Step(c, w, es[0]), es[1..])
  }
}
