/**
 * Resource requests, node capacity and the arithmetic of reserving and releasing:
 * node_capacity.go, resolveRequest in scheduler_impl.go, the disk budget of constraint.go and
 * the recheck inside the reservation transaction.
 */
module Resources {
  import opened Wrappers
  import opened MachineInts

  /** The dimensions with a hard limit: milli-cores, bytes of memory, bytes of disk. */
  datatype Hard = Hard(cpu: int, mem: int, disk: int)

  /** A full request or counter. Bandwidth is accounted for but never a hard limit. */
  datatype Vec = Vec(hard: Hard, rx: int, tx: int)

  const ZERO := Vec(Hard(0, 0, 0), 0, 0)

  function Add(a: Vec, b: Vec): Vec {
    Vec(Hard(a.hard.cpu + b.hard.cpu, a.hard.mem + b.hard.mem, a.hard.disk + b.hard.disk), a.rx + b.rx, a.tx + b.tx)
  }

  function Minus(a: Vec, b: Vec): Vec {
    Vec(Hard(a.hard.cpu - b.hard.cpu, a.hard.mem - b.hard.mem, a.hard.disk - b.hard.disk), a.rx - b.rx, a.tx - b.tx)
  }

  function AtLeastZero(x: int): int {
    if x < 0 then 0 else x
  }

  /** Giving a request back: the column update GREATEST(reserved - request, 0). */
  function GiveBack(reserved: Vec, req: Vec): Vec {
    var d := Minus(reserved, req);
    Vec(Hard(AtLeastZero(d.hard.cpu), AtLeastZero(d.hard.mem), AtLeastZero(d.hard.disk)), AtLeastZero(d.rx), AtLeastZero(d.tx))
  }

  predicate NonNegative(v: Vec) {
    v.hard.cpu >= 0 && v.hard.mem >= 0 && v.hard.disk >= 0 && v.rx >= 0 && v.tx >= 0
  }

  /** A request the scheduler may reserve: positive on every hard dimension. */
  predicate IsRequest(v: Vec) {
    v.hard.cpu > 0 && v.hard.mem > 0 && v.hard.disk > 0 && v.rx >= 0 && v.tx >= 0
  }

  function Override(chosen: int, fallback: int): int {
    if chosen > 0 then chosen else fallback
  }

  function DefaultTo(x: int, default: int): int {
    if x <= 0 then default else x
  }

  /**
   * The request of one scheduling attempt: what the creator asked for explicitly, else the
   * configuration, else the system defaults. A snapshot that the scheduler wrote back itself
   * (resourceOverride false) never wins over the configuration.
   */
  function ResolveRequest(stored: Option<Vec>, resourceOverride: bool, config: Vec): (r: Vec)
    ensures r.hard.cpu > 0 && r.hard.mem > 0 && r.hard.disk > 0
    ensures config.rx >= 0 && config.tx >= 0 ==> IsRequest(r)
  {
    var asked := if stored.Some? && resourceOverride then stored.value else ZERO;
    Vec(Hard(DefaultTo(Override(asked.hard.cpu, config.hard.cpu), 1000),
             DefaultTo(Override(asked.hard.mem, config.hard.mem), 0x4000_0000),
             DefaultTo(Override(asked.hard.disk, config.hard.disk), 0x2_8000_0000)),
        Override(asked.rx, config.rx),
        Override(asked.tx, config.tx))
  }

  /** One resolved value: what was asked for explicitly, else what is configured, else the default. */
  predicate Resolved(r: int, asked: Option<int>, configured: int, default: int) {
    if asked.Some? && asked.value > 0 then r == asked.value
    else if configured > 0 then r == configured
    else r == default
  }

  /** Dimension by dimension; without explicit or configured values a core, a gibibyte of memory and ten of disk. */
  lemma ResolvesEachDimension(stored: Option<Vec>, resourceOverride: bool, config: Vec)
    ensures var r := ResolveRequest(stored, resourceOverride, config);
            var explicit := stored.Some? && resourceOverride;
            && Resolved(r.hard.cpu, if explicit then Some(stored.value.hard.cpu) else None, config.hard.cpu, 1000)
            && Resolved(r.hard.mem, if explicit then Some(stored.value.hard.mem) else None, config.hard.mem, 1073741824)
            && Resolved(r.hard.disk, if explicit then Some(stored.value.hard.disk) else None, config.hard.disk, 10737418240)
            && Resolved(r.rx, if explicit then Some(stored.value.rx) else None, config.rx, config.rx)
            && Resolved(r.tx, if explicit then Some(stored.value.tx) else None, config.tx, config.tx)
  {
  }

  /**
   * Writing the resolved request back and resolving again is stable under an explicit override
   * and is ignored without one, whatever the configuration has become meanwhile.
   */
  lemma WriteBackRules(stored: Option<Vec>, resourceOverride: bool, config: Vec, later: Vec)
    requires config.rx >= 0 && config.tx >= 0
    ensures var r := ResolveRequest(stored, resourceOverride, config);
            && ResolveRequest(Some(r), resourceOverride, config) == r
            && (!resourceOverride ==> ResolveRequest(Some(r), false, later) == ResolveRequest(None, true, later))
            && (resourceOverride ==>
                  ResolveRequest(Some(r), true, later).hard == r.hard)
  {
  }

  // ----------------------------------------------------------------- capacity

  datatype NodeSpec = NodeSpec(coreNum: int, memoryMb: int, storageMb: int)

  function Truncate(x: real): int {
    if x >= 0.0 then x.Floor else -((-x).Floor)
  }

  function EffectiveTarget(target: real): (t: real)
    ensures 0.0 < t <= 1.0
  {
    if target <= 0.0 || target > 1.0 then 0.8 else target
  }

  function CapacityLimit(capacity: int, target: real): int {
    Truncate(capacity as real * EffectiveTarget(target))
  }

  /** x is the whole part of capacity times the target in force: the one that was set if it is above 0 and at most 1, else 0.8. */
  predicate IsShare(x: int, capacity: int, target: real) {
    var t := if 0.0 < target <= 1.0 then target else 0.8;
    x as real <= capacity as real * t < x as real + 1.0
  }

  /** The limit is the floor of capacity times target, so it never exceeds the capacity. */
  lemma CapacityLimitIsFloor(capacity: nat, target: real)
    ensures 0 <= CapacityLimit(capacity, target) <= capacity
    ensures IsShare(CapacityLimit(capacity, target), capacity, target)
  {
    var c, t := capacity as real, EffectiveTarget(target);
    assert 0.0 <= c * t;
    assert c * t <= c by {
      assert c * (1.0 - t) >= 0.0;
    }
    WholePart(c * t, capacity);
  }

  lemma WholePart(x: real, bound: int)
    requires 0.0 <= x <= bound as real
    ensures 0 <= Truncate(x) <= bound && Truncate(x) as real <= x < Truncate(x) as real + 1.0
  {
  }

  /** The hard limits of a node: capacity times the utilization target, rounded towards zero. */
  function NodeLimits(spec: NodeSpec, target: real): Hard {
    Hard(CapacityLimit(spec.coreNum * 1000, target),
         CapacityLimit(spec.memoryMb * 1024 * 1024, target),
         CapacityLimit(spec.storageMb * 1024 * 1024, target))
  }

  /** In milli-cores and bytes, from cores and megabytes: not a unit more than the target allows, and not a unit less. */
  lemma NodeLimitsAreShares(spec: NodeSpec, target: real)
    requires spec.coreNum >= 0 && spec.memoryMb >= 0 && spec.storageMb >= 0
    ensures var l := NodeLimits(spec, target);
            && IsShare(l.cpu, spec.coreNum * 1000, target)
            && IsShare(l.mem, spec.memoryMb * 1048576, target)
            && IsShare(l.disk, spec.storageMb * 1048576, target)
  {
    CapacityLimitIsFloor(spec.coreNum * 1000, target);
    CapacityLimitIsFloor(spec.memoryMb * 1024 * 1024, target);
    CapacityLimitIsFloor(spec.storageMb * 1024 * 1024, target);
  }

  /** What is left on a node according to one reading of its reserved counters. */
  function Allocatable(limits: Hard, reserved: Vec): Hard {
    Hard(limits.cpu - reserved.hard.cpu, limits.mem - reserved.hard.mem, limits.disk - reserved.hard.disk)
  }

  /** Hard constraint H3. */
  predicate ResourcesSatisfied(allocatable: Hard, req: Vec) {
    allocatable.cpu >= req.hard.cpu && allocatable.mem >= req.hard.mem && allocatable.disk >= req.hard.disk
  }

  predicate WithinLimits(reserved: Vec, limits: Hard) {
    reserved.hard.cpu <= limits.cpu && reserved.hard.mem <= limits.mem && reserved.hard.disk <= limits.disk
  }

  /** The recheck inside the transaction, in the int64 arithmetic it is written in. */
  predicate RecheckPasses(limits: Hard, reserved: Vec, req: Vec) {
    WrapInt64(reserved.hard.cpu + req.hard.cpu) <= limits.cpu &&
    WrapInt64(reserved.hard.mem + req.hard.mem) <= limits.mem &&
    WrapInt64(reserved.hard.disk + req.hard.disk) <= limits.disk
  }

  /** Two readings of one limit always fit in an int64 together. */
  predicate SaneLimits(limits: Hard) {
    0 <= limits.cpu <= MAX_INT64 / 2 && 0 <= limits.mem <= MAX_INT64 / 2 && 0 <= limits.disk <= MAX_INT64 / 2
  }

  /**
   * A request that passed H3 on any earlier reading of the node cannot wrap the sums of the
   * recheck, so the recheck passes exactly when the reservation keeps the node within limits.
   */
  lemma RecheckIsExactAfterH3(limits: Hard, stale: Vec, reserved: Vec, req: Vec)
    requires SaneLimits(limits) && NonNegative(stale) && NonNegative(reserved) && NonNegative(req)
    requires WithinLimits(reserved, limits)
    requires ResourcesSatisfied(Allocatable(limits, stale), req)
    ensures RecheckPasses(limits, reserved, req) <==> WithinLimits(Add(reserved, req), limits)
  {
  }

  /** Without H3 the recheck agrees with the true comparison exactly when the sum fits in an int64. */
  lemma RecheckAgreesIffNoWrap(limit: int, reserved: int, req: int)
    requires 0 <= limit <= MAX_INT64 && 0 <= reserved <= MAX_INT64 && 0 <= req <= MAX_INT64
    ensures (WrapInt64(reserved + req) <= limit <==> reserved + req <= limit) <==> reserved + req <= MAX_INT64
  {
    if reserved + req > MAX_INT64 {
      assert WrapInt64(reserved + req) == reserved + req - TWO_64;
    }
  }

  // ----------------------------------------------------- cold-node disk budget

  function UpdateBuffer(alloc: int, ratio: real): int {
    WrapUint64(Truncate(alloc as real * ratio))
  }

  /** The buffer is the whole part of the ratio's share of what is allocatable, as far as that fits 64 bits. */
  lemma BufferIsFloor(alloc: nat, ratio: real)
    requires ratio >= 0.0 && alloc as real * ratio < TWO_64 as real
    ensures UpdateBuffer(alloc, ratio) as real <= alloc as real * ratio < UpdateBuffer(alloc, ratio) as real + 1.0
  {
    assert alloc as real * ratio >= 0.0;
    var x := alloc as real * ratio;
    assert 0 <= x.Floor < TWO_64;
  }

  /** H3 in numbers: the request fits what is left exactly if what is reserved and the request together stay within the limits. */
  lemma SatisfiedIffFits(limits: Hard, reserved: Vec, req: Vec)
    ensures ResourcesSatisfied(Allocatable(limits, reserved), req)
            <==> reserved.hard.cpu + req.hard.cpu <= limits.cpu && reserved.hard.mem + req.hard.mem <= limits.mem
                 && reserved.hard.disk + req.hard.disk <= limits.disk
  {
  }

  /** The disk left for a new download, in the uint64 arithmetic it is written in. */
  function CacheDiskBudget(diskAllocatable: int, used: int, ratio: real): int {
    var alloc := WrapUint64(diskAllocatable);
    var buffer := UpdateBuffer(alloc, ratio);
    if alloc <= WrapUint64(used + buffer) then 0 else WrapUint64(WrapUint64(alloc - used) - buffer)
  }

  /** The budget as the design states it: allocatable minus used minus buffer, never negative. */
  function IntendedBudget(diskAllocatable: int, used: int, ratio: real): int {
    AtLeastZero(diskAllocatable - used - UpdateBuffer(diskAllocatable, ratio))
  }

  /** Once H3 passed, the unsigned budget equals the intended one exactly when used + buffer does not wrap harmfully. */
  lemma DiskBudgetExact(limits: Hard, reserved: Vec, req: Vec, used: int, ratio: real)
    requires IsRequest(req) && ResourcesSatisfied(Allocatable(limits, reserved), req)
    requires IsInt64(limits.disk - reserved.hard.disk) && IsUint64(used)
    ensures var d := limits.disk - reserved.hard.disk;
            var needed := used + UpdateBuffer(d, ratio);
            CacheDiskBudget(d, used, ratio) == IntendedBudget(d, used, ratio)
            <==> (needed < TWO_64 || d <= needed - TWO_64)
  {
    var d := limits.disk - reserved.hard.disk;
    var buffer := UpdateBuffer(d, ratio);
    assert WrapUint64(d) == d;
    if used + buffer >= TWO_64 {
      assert WrapUint64(used + buffer) == used + buffer - TWO_64;
      if d > used + buffer - TWO_64 {
        assert WrapUint64(WrapUint64(d - used) - buffer) == d - used - buffer + TWO_64 by {
          WrapTwice(d - used, buffer);
        }
      }
    } else if d > used + buffer {
      assert WrapUint64(d - used) == d - used;
    }
  }

  lemma WrapTwice(x: int, y: int)
    requires 0 < x - y + TWO_64 < TWO_64
    ensures WrapUint64(WrapUint64(x) - y) == x - y + TWO_64
  {
    assert (x % TWO_64 - y) % TWO_64 == (x - y) % TWO_64 by {
      var q := x / TWO_64;
      assert x == q * TWO_64 + x % TWO_64;
      ModShift(x - y, q);
    }
    ModShift(x - y + TWO_64, 1);
  }

  lemma ModShift(x: int, q: int)
    ensures (x - q * TWO_64) % TWO_64 == x % TWO_64
  {
    var d := x / TWO_64;
    assert x == d * TWO_64 + x % TWO_64;
    assert x - q * TWO_64 == (d - q) * TWO_64 + x % TWO_64;
  }

  /** Without H3 a node with a negative reading would look as if it had almost 2^64 bytes free. */
  lemma NegativeReadingWraps()
    ensures CacheDiskBudget(-1, 0, 0.0) == TWO_64 - 1 && IntendedBudget(-1, 0, 0.0) == 0
  {
  }
}
