/**
 * The life cycle's diagram: which state follows which, by which event, with what outcome, stated
 * without the functions that compute it; and what a run from a start to Running has passed through.
 */
module LifecycleTransitions {
  import opened Wrappers
  import opened Entities
  import opened PortTable
  import opened Lifecycle
  import opened LifecycleRuns
  import Backoff
  import Credentials

  // ------------------------------------------------------------------ arrows

  /** The arrows of the diagram, by where they end. */
  predicate Arrow(a: Status, b: Status) {
    match b
    case Pending => a == Stopped || a == Failed
    case Scheduling => a == Pending || a == Queued
    case Queued => a == Scheduling
    case CacheWarming => a == Scheduling
    case PreparingBuild => a == Scheduling || a == CacheWarming
    case RestoringSnapshot => a == PreparingBuild
    case Starting => a == RestoringSnapshot
    case Running => a == Starting
    case Stopping => a == Running || a == Failed
    case Cleaning => a == Stopping
    case Stopped => a == Cleaning || a == Queued
    case Failed =>
      a in {Scheduling, CacheWarming, PreparingBuild, RestoringSnapshot, Starting, Running, Stopping, Cleaning}
  }

  /** Which kind of event takes an instance along which arrows. */
  predicate Carries(e: Event, a: Status, b: Status) {
    match e
    case Start(_) => b == Pending
    case Retry(_) => a == Failed && b == Pending
    case Stop(_) => b == Stopping
    case CancelQueued(_) => a == Queued && b == Stopped
    case Promote(_) => b == Scheduling
    case Schedule(_, _) => a == Scheduling
    case RunStage(_, _, _) => b == Failed || (a == RestoringSnapshot && b == Starting)
    case FinishPoll(_, _) => a !in {Scheduling, Running, Queued, Stopped}
    case Inspect(_, _) => a == Running && b == Failed
    case _ => false
  }

  /** Whatever event happens, an instance changes state along an arrow only, and by an event of its own that belongs to it. */
  lemma StepFollowsArrows(c: Setup, w: World, e: Event, id: InstanceId)
    requires Enabled(c, w, e) && w.At(id).inst.Some? && Step(c, w, e).At(id).inst.Some?
    ensures var a, b := w.At(id).inst.value.status, Step(c, w, e).At(id).inst.value.status;
            a != b ==> Arrow(a, b) && !e.Tick? && e.id == id && Carries(e, a, b)
  {
    if !e.Tick? {
      StepAt(c, w, e);
      if e.id == id {
        LocalFollowsArrows(c, w, e, Admitted(w, e), Granted(w, e));
      }
    }
  }

  lemma LocalFollowsArrows(c: Setup, w: World, e: Event, admitted: bool, granted: bool)
    requires Enabled(c, w, e) && !e.Tick? && w.At(e.id).inst.Some?
    ensures var t := Local(c, w.now, w.At(e.id), e, admitted, granted).0;
            t.inst.Some? && t.inst.value.status != w.At(e.id).inst.value.status ==>
              Arrow(w.At(e.id).inst.value.status, t.inst.value.status) && Carries(e, w.At(e.id).inst.value.status, t.inst.value.status)
  {
    if e.RunStage? || e.FinishPoll? {
      StageFollowsArrows(c, w, e, granted);
    }
  }

  lemma StageFollowsArrows(c: Setup, w: World, e: Event, granted: bool)
    requires Enabled(c, w, e) && (e.RunStage? || e.FinishPoll?)
    ensures var s := w.At(e.id);
            var t := if e.RunStage? then StageSlot(s, e.specs, granted, e.rpc).0 else PollSlot(s, e.result).0;
            t.inst.Some? && t.inst.value.status != s.inst.value.status ==>
              Arrow(s.inst.value.status, t.inst.value.status) && Carries(e, s.inst.value.status, t.inst.value.status)
  {
  }

  /** Instances appear stopped, by creation; they go by deletion, from the queue or at rest. */
  lemma AppearsAndGoes(c: Setup, w: World, e: Event, id: InstanceId)
    requires Enabled(c, w, e)
    ensures w.At(id).inst.None? && Step(c, w, e).At(id).inst.Some? ==> e.Create? && e.id == id && Step(c, w, e).At(id).Is(Stopped)
    ensures w.At(id).inst.Some? && Step(c, w, e).At(id).inst.None? ==>
              e.Delete? && e.id == id && w.At(id).inst.value.status in {Queued, Stopped, Failed}
  {
    if !e.Tick? {
      StepAt(c, w, e);
      if e.id == id {
        LocalAppearsAndGoes(c, w, e, Admitted(w, e), Granted(w, e));
      }
    }
  }

  lemma LocalAppearsAndGoes(c: Setup, w: World, e: Event, admitted: bool, granted: bool)
    requires Enabled(c, w, e) && !e.Tick?
    ensures var s, t := w.At(e.id), Local(c, w.now, w.At(e.id), e, admitted, granted).0;
            && (s.inst.None? && t.inst.Some? ==> e.Create? && t.Is(Stopped))
            && (s.inst.Some? && t.inst.None? ==> e.Delete? && s.inst.value.status in {Queued, Stopped, Failed})
  {
  }

  // ---------------------------------------------------------------- outcomes

  /** The state after each stage that succeeds. */
  predicate Follows(a: Status, b: Status) {
    || (a == CacheWarming && b == PreparingBuild)
    || (a == PreparingBuild && b == RestoringSnapshot)
    || (a == RestoringSnapshot && b == Starting)
    || (a == Starting && b == Running)
    || (a == Stopping && b == Cleaning)
    || (a == Cleaning && b == Stopped)
  }

  /** Still in its state and in the dispatch queue, one more retry on the counter. */
  predicate TriedAgain(s: Slot, t: Slot) {
    t == s.(retries := s.retries + 1, work := Some(InQueue))
  }

  /** Failed with the worker gone; a counter that has reached three is cleared. */
  predicate GivenUp(s: Slot, t: Slot, cleared: bool) {
    t.Is(Failed) && t.work.None? && t.retries == (if cleared then 0 else s.retries) && t.row == s.row && t.offline == s.offline
  }

  /** A retryable failure is tried again three times and then fails the instance. */
  predicate RetriedOrGivenUp(s: Slot, t: Slot) {
    if s.retries < 3 then TriedAgain(s, t) else GivenUp(s, t, true)
  }

  /** How a finished poll leaves an instance. */
  lemma PollOutcomes(c: Setup, w: World, id: InstanceId, o: PollOutcome)
    requires Enabled(c, w, FinishPoll(id, o))
    ensures var s, t := w.At(id), Step(c, w, FinishPoll(id, o)).At(id);
            match o
            case Succeeded =>
              && t.inst.Some? && Follows(s.inst.value.status, t.inst.value.status)
              && t.retries == (if s.Is(CacheWarming) then s.retries else 0)
              && t.work == (if t.Is(Running) || t.Is(Stopped) then None else Some(InQueue))
              && t.inst.value.agent == (if t.Is(Stopped) then None else s.inst.value.agent) && t.inst.value.req == s.inst.value.req
            case RetryableFailure => RetriedOrGivenUp(s, t)
            case FatalFailure => GivenUp(s, t, false)
            case TimedOut => GivenUp(s, t, false)
  {
    StepAt(c, w, FinishPoll(id, o));
  }

  /** How one dispatch of a stage leaves an instance. */
  lemma DispatchOutcomes(c: Setup, w: World, id: InstanceId, specs: seq<CredSpec>, rpc: RpcOutcome)
    requires Enabled(c, w, RunStage(id, specs, rpc))
    ensures var s, t := w.At(id), Step(c, w, RunStage(id, specs, rpc)).At(id);
            var denied := s.Is(Starting) && !AllocateAll(w.pool, s.inst.value.game, specs, id).1;
            match rpc
            case Broken => GivenUp(s, t, false)
            case NoSnapshot => s.Is(RestoringSnapshot) && t == s.(inst := Some(s.inst.value.(status := Starting)), work := Some(InQueue))
            case Accepted => if denied then GivenUp(s, t, false) else t == s.(work := Some(Polling))
            case Transient => if denied then GivenUp(s, t, false) else RetriedOrGivenUp(s, t)
            case Fatal => GivenUp(s, t, false)
  {
    StepAt(c, w, RunStage(id, specs, rpc));
  }

  /** min(base * 2^(n-1), cap). */
  predicate IsDelay(base: nat, cap: nat, n: nat, delay: int) {
    n >= 1 && delay <= cap && delay <= base * Backoff.Pow2(n - 1) && (delay == cap || delay == base * Backoff.Pow2(n - 1))
  }

  /** How a scheduling attempt leaves an instance. */
  lemma ScheduleOutcomes(c: Setup, w: World, id: InstanceId, o: ScheduleOutcome)
    requires Enabled(c, w, Schedule(id, o))
    ensures var s, t := w.At(id), Step(c, w, Schedule(id, o)).At(id);
            match o
            case Scheduled(p) =>
              && t.Is(if p.cacheNeeded then CacheWarming else PreparingBuild)
              && t.inst.value.agent == Some(p.agent) && t.inst.value.req == Some(p.req) && t.inst.value.branch == p.branch
              && t.row.None? && t.work == Some(InQueue)
            case Rejected => GivenUp(s, t, false)
            case NoCapacity =>
              match s.row
              case None => t.Is(Queued) && t.work.None? && t.row == Some(QueueRow(0, w.now + c.backoffBase, w.now, w.now + c.queueTimeout))
              case Some(r) =>
                if w.now > r.timeoutAt then t.Is(Failed) && t.row.None? && t.work.None?
                else
                  && t.Is(Queued) && t.work.None? && t.row.Some?
                  && t.row.value.attempts == r.attempts + 1 && t.row.value.queuedAt == r.queuedAt && t.row.value.timeoutAt == r.timeoutAt
                  && IsDelay(c.backoffBase, c.backoffMax, r.attempts + 1, t.row.value.wakeAt - w.now)
  {
    StepAt(c, w, Schedule(id, o));
  }

  /** No other instance of the subscription stands in the way: none is active, and the index holds none. */
  ghost predicate Unopposed(w: World, id: InstanceId) {
    SlotFree(w, id) && IndexFree(w, id)
  }

  /** What the user's calls do: each is carried out exactly in the states named here, and otherwise changes nothing. */
  lemma CallOutcomes(c: Setup, w: World, e: Event)
    requires Enabled(c, w, e) && (e.Start? || e.Retry? || e.Stop? || e.CancelQueued? || e.Delete? || e.Create?)
    ensures var s, t := w.At(e.id), Step(c, w, e).At(e.id);
            var here := s.inst.Some?;
            match e
            case Start(id) =>
              if (s.Is(Stopped) || (s.Is(Failed) && s.inst.value.agent.None?)) && Unopposed(w, id)
              then t == s.(inst := Some(s.inst.value.(status := Pending)), work := Some(InQueue)) else t == s
            case Retry(id) =>
              if s.Is(Failed) && s.inst.value.agent.None? && Unopposed(w, id)
              then t == s.(inst := Some(s.inst.value.(status := Pending)), work := Some(InQueue)) else t == s
            case Stop(id) =>
              if (s.Is(Running) || (s.Is(Failed) && s.inst.value.agent.Some?)) && IndexFree(w, id)
              then t == s.(inst := Some(s.inst.value.(status := Stopping)), work := Some(InQueue)) else t == s
            case CancelQueued(_) =>
              if s.Is(Queued) then t == s.(inst := Some(s.inst.value.(status := Stopped)), row := None) else t == s
            case Delete(_) =>
              if s.Is(Queued) then t == s.(inst := None, row := None)
              else if s.Is(Stopped) || s.Is(Failed) then t == s.(inst := None)
              else t == s
            case Create(_, game, req, sub) =>
              t == s.(inst := Some(Instance(game, Stopped, None, req, req.Some?, "", sub, None)))
            case _ => true
  {
    StepAt(c, w, e);
  }

  /** What an inspection leaves behind: only an unreachable instance on a node declared down keeps or gets a mark. */
  lemma InspectionOutcomes(c: Setup, w: World, id: InstanceId, seen: InspectOutcome)
    requires Enabled(c, w, Inspect(id, seen))
    ensures var s, t := w.At(id), Step(c, w, Inspect(id, seen)).At(id);
            match seen
            case Healthy => t == s.(offline := None)
            case UnreachableNodeUp => t == s.(offline := None)
            case InstanceFailed => t.offline.None? && t.Is(Failed) && t.inst.value.agent.None? && t.work.None?
            case UnreachableNodeDown =>
              match s.offline
              case None => t == s.(offline := Some(w.now))
              case Some(since) =>
                if w.now - since < c.fencingTimeout then t == s
                else t.offline.None? && t.Is(Failed) && t.inst.value.agent.None? && t.work.None?
  {
    StepAt(c, w, Inspect(id, seen));
  }

  /** The queue's own events: a due row hands its instance to the dispatch queue or goes; a promotion starts the scheduling. */
  lemma QueueOutcomes(c: Setup, w: World, e: Event)
    requires Enabled(c, w, e) && (e.Wake? || e.DropRow? || e.Promote?)
    ensures var s, t := w.At(e.id), Step(c, w, e).At(e.id);
            if e.Wake? then w.now >= s.row.value.wakeAt && t == s.(work := Some(InQueue))
            else if e.DropRow? then w.now >= s.row.value.wakeAt && t == s.(row := None)
            else t == s.(inst := Some(s.inst.value.(status := Scheduling)), work := Some(InQueue))
  {
    StepAt(c, w, e);
  }

  // ------------------------------------------------------------ shared tables

  /** The two events that release an instance's rows: a completed clean-up and a delete that is carried out. */
  predicate ReleasesRows(w: World, e: Event) {
    || (e.FinishPoll? && e.result == Succeeded && w.At(e.id).Is(Cleaning))
    || (e.Delete? && w.At(e.id).inst.Some? && w.At(e.id).inst.value.status in {Queued, Stopped, Failed})
  }

  predicate Places(e: Event) {
    e.Schedule? && e.outcome.Scheduled?
  }

  lemma PortEffects(c: Setup, w: World, e: Event, admitted: bool, granted: bool)
    requires Enabled(c, w, e) && !e.Tick?
    ensures var fx := Local(c, w.now, w.At(e.id), e, admitted, granted).1;
            (fx.freePorts <==> ReleasesRows(w, e)) && fx.reserve == (if Places(e) then Some(e.outcome.placement) else None)
  {
  }

  /** Only a placement adds port rows, exactly its plan; only a release removes rows, exactly the instance's own. */
  lemma PortRowsAfter(c: Setup, w: World, e: Event)
    requires Enabled(c, w, e)
    ensures Places(e) ==> Step(c, w, e).ports == w.ports + e.outcome.placement.plan
    ensures ReleasesRows(w, e) ==>
              RowsOf(Step(c, w, e).ports, e.id) == [] && forall m: Mapping :: m.instance != e.id ==> (m in Step(c, w, e).ports <==> m in w.ports)
    ensures !Places(e) && !ReleasesRows(w, e) ==> Step(c, w, e).ports == w.ports
  {
    if !e.Tick? {
      PortEffects(c, w, e, Admitted(w, e), Granted(w, e));
      NoRowsLeft(w.ports, e.id);
    }
  }

  lemma {:induction false} NoRowsLeft(t: Table, inst: string)
    ensures RowsOf(Without(t, inst), inst) == []
  {
    if t != [] {
      var rest := Without(t[1..], inst);
      NoRowsLeft(t[1..], inst);
      if t[0].instance != inst {
        assert ([t[0]] + rest)[1..] == rest;
      } else {
        assert [] + rest == rest;
      }
    }
  }

  // --------------------------------------------------------------- credentials

  /** From s to t the instance fails, otherwise than by its time in the queue, or completes its clean-up. */
  predicate Ends(s: Slot, t: Slot, e: Event) {
    || (t.Is(Failed) && !s.Is(Failed) && !(e.Schedule? && e.outcome.NoCapacity?))
    || (t.Is(Stopped) && s.Is(Cleaning))
  }

  /** A starting instance asks for credentials whenever its dispatch gets as far as the RPC. */
  predicate Asks(s: Slot, e: Event) {
    e.RunStage? && e.rpc != Broken && s.Is(Starting)
  }

  /** The pool changes for one instance only: by asking while it starts, and by a release when it ends. In between it keeps what it holds. */
  lemma PoolOutcomes(c: Setup, w: World, e: Event)
    requires Enabled(c, w, e) && !e.Tick?
    ensures var s, v := w.At(e.id), Step(c, w, e);
            var asked := if Asks(s, e) then AllocateAll(w.pool, s.inst.value.game, e.specs, e.id).0 else w.pool;
            v.pool == if Ends(s, v.At(e.id), e) then Credentials.ReleaseBy(asked, e.id) else asked
  {
    StepAt(c, w, e);
    PoolEffects(c, w, e, Admitted(w, e), Granted(w, e));
  }

  lemma PoolEffects(c: Setup, w: World, e: Event, admitted: bool, granted: bool)
    requires Enabled(c, w, e) && !e.Tick?
    ensures var (t, fx) := Local(c, w.now, w.At(e.id), e, admitted, granted);
            fx.allocate == (if Asks(w.At(e.id), e) then e.specs else []) && (fx.freeCredentials <==> Ends(w.At(e.id), t, e))
  {
    if e.RunStage? || e.FinishPoll? {
      StagePoolEffects(c, w, e, granted);
    }
  }

  lemma StagePoolEffects(c: Setup, w: World, e: Event, granted: bool)
    requires Enabled(c, w, e) && (e.RunStage? || e.FinishPoll?)
    ensures var (t, fx) := if e.RunStage? then StageSlot(w.At(e.id), e.specs, granted, e.rpc) else PollSlot(w.At(e.id), e.result);
            fx.allocate == (if Asks(w.At(e.id), e) then e.specs else []) && (fx.freeCredentials <==> Ends(w.At(e.id), t, e))
  {
  }

  /** The instance holds a credential of this game and kind. */
  predicate HoldsKind(pool: Credentials.Pool, game: string, kind: string, id: InstanceId) {
    exists cred :: cred in pool && Credentials.Held(cred, game, kind, id)
  }

  /** A granted round leaves the instance with a credential of every required kind; optional ones never deny it. */
  lemma {:induction false} GrantedMeansHeld(pool: Credentials.Pool, game: string, specs: seq<CredSpec>, id: InstanceId)
    requires forall i :: 0 <= i < |specs| ==> specs[i].pool != ""
    ensures var (after, granted) := AllocateAll(pool, game, specs, id);
            && (granted ==> forall i :: 0 <= i < |specs| && specs[i].required ==> HoldsKind(after, game, specs[i].pool, id))
            && ((forall i :: 0 <= i < |specs| ==> !specs[i].required) ==> granted)
            && (forall cred :: cred in pool && cred.status == Credentials.InUse ==> cred in after)
    decreases |specs|
  {
    if specs != [] {
      var (next, secret) := Credentials.Allocate(pool, game, specs[0].pool, id);
      AllocationHolds(pool, game, specs[0].pool, id);
      if !(secret.None? && specs[0].required) {
        GrantedMeansHeld(next, game, specs[1..], id);
        var after := AllocateAll(next, game, specs[1..], id).0;
        if secret.Some? {
          var cred :| cred in next && Credentials.Held(cred, game, specs[0].pool, id);
          assert cred in after;
        }
        forall i | 0 <= i < |specs| && specs[i].required && AllocateAll(pool, game, specs, id).1
          ensures HoldsKind(after, game, specs[i].pool, id)
        {
          assert i > 0 ==> specs[i] == specs[1..][i - 1];
        }
      }
    }
  }

  lemma AllocationHolds(pool: Credentials.Pool, game: string, kind: string, id: InstanceId)
    requires kind != ""
    ensures var (next, secret) := Credentials.Allocate(pool, game, kind, id);
            && (secret.Some? ==> HoldsKind(next, game, kind, id))
            && (forall cred :: cred in pool && cred.status == Credentials.InUse ==> cred in next)
  {
    var held := Credentials.FindAllocated(pool, game, kind, id);
    if held != [] {
      assert held[0] in held;
    } else {
      var rows := Credentials.ListByGame(pool, game, kind);
      var first, second := Credentials.FirstWanted(rows, true, id), Credentials.FirstWanted(rows, false, id);
      if first.Some? {
        AcquiringHolds(pool, first.value, id);
      } else if second.Some? {
        AcquiringHolds(pool, second.value, id);
      }
    }
  }

  lemma AcquiringHolds(pool: Credentials.Pool, cred: Credentials.Cred, id: InstanceId)
    requires cred in pool && cred.status == Credentials.Available
    ensures HoldsKind(Credentials.Acquire(pool, cred.id, id), cred.game, cred.kind, id)
    ensures forall other :: other in pool && other.status == Credentials.InUse ==> other in Credentials.Acquire(pool, cred.id, id)
  {
    var q := Credentials.Acquire(pool, cred.id, id);
    var k :| 0 <= k < |pool| && pool[k] == cred;
    assert q[k] in q;
    forall other | other in pool && other.status == Credentials.InUse
      ensures other in q
    {
      var j :| 0 <= j < |pool| && pool[j] == other;
      assert q[j] == other;
    }
  }

  // -------------------------------------------------------------------- paths

  function StatusOf(s: Slot): Option<Status> {
    if s.inst.Some? then Some(s.inst.value.status) else None
  }

  /** The states of one instance along a run, the first and the last included. */
  ghost function Path(c: Setup, w: World, es: seq<Event>, id: InstanceId): (path: seq<Option<Status>>)
    requires IsRun(c, w, es)
    ensures |path| == |es| + 1 && path[0] == StatusOf(w.At(id)) && path[|es|] == StatusOf(After(c, w, es).At(id))
    decreases |es|
  {
    [StatusOf(w.At(id))] + (if es == [] then [] else Path(c, Step(c, w, es[0]), es[1..], id))
  }

  /** Neighbours on a path are equal or joined by an arrow, by creation or by deletion. */
  predicate Joined(a: Option<Status>, b: Option<Status>) {
    || a == b
    || (a.Some? && b.Some? && Arrow(a.value, b.value))
    || (a.None? && b == Some(Stopped))
    || (a.Some? && a.value in {Queued, Stopped, Failed} && b.None?)
  }

  ghost predicate FollowsArrows(path: seq<Option<Status>>) {
    forall k :: 0 <= k < |path| - 1 ==> Joined(path[k], path[k + 1])
  }

  lemma {:induction false} RunsFollowArrows(c: Setup, w: World, es: seq<Event>, id: InstanceId)
    requires IsRun(c, w, es)
    ensures FollowsArrows(Path(c, w, es, id))
    decreases |es|
  {
    if es != [] {
      var v := Step(c, w, es[0]);
      RunsFollowArrows(c, v, es[1..], id);
      AppearsAndGoes(c, w, es[0], id);
      if w.At(id).inst.Some? && v.At(id).inst.Some? {
        StepFollowsArrows(c, w, es[0], id);
      }
      var tail := Path(c, v, es[1..], id);
      assert Path(c, w, es, id) == [StatusOf(w.At(id))] + tail;
      assert Joined(StatusOf(w.At(id)), tail[0]);
    }
  }

  /** Where a path last came to the state it is in at position k, from somewhere else. */
  lemma {:induction false} EnteredAt(path: seq<Option<Status>>, b: Status, k: nat) returns (j: nat)
    requires FollowsArrows(path) && k < |path| && path[k] == Some(b) && path[0] != Some(b)
    ensures j < k && path[j] != Some(b) && Joined(path[j], Some(b))
    decreases k
  {
    assert Joined(path[k - 1], path[k]);
    if path[k - 1] != Some(b) {
      j := k - 1;
    } else {
      j := EnteredAt(path, b, k - 1);
    }
  }

  /** The path has been in these states, in this order, before position k. */
  ghost predicate Passed(path: seq<Option<Status>>, states: seq<Status>, k: nat)
    requires k <= |path|
    decreases |states|
  {
    states == [] || exists j: nat :: j < k && path[j] == Some(states[|states| - 1]) && Passed(path, states[..|states| - 1], j)
  }

  /**
   * A running instance has been through the whole start: on every run from a pending one it was
   * scheduling, preparing its build, restoring its snapshot and starting, in this order.
   */
  lemma RunningHasPassedEveryStage(c: Setup, w: World, es: seq<Event>, id: InstanceId)
    requires IsRun(c, w, es) && w.At(id).Is(Pending) && After(c, w, es).At(id).Is(Running)
    ensures Passed(Path(c, w, es, id), [Scheduling, PreparingBuild, RestoringSnapshot, Starting], |es|)
  {
    var path := Path(c, w, es, id);
    RunsFollowArrows(c, w, es, id);
    var k1 := EnteredAt(path, Running, |es|);
    var k2 := EnteredAt(path, Starting, k1);
    var k3 := EnteredAt(path, RestoringSnapshot, k2);
    var k4 := EnteredAt(path, PreparingBuild, k3);
    if path[k4] == Some(CacheWarming) {
      k4 := EnteredAt(path, CacheWarming, k4);
    }
    assert path[k4] == Some(Scheduling);
    FourPassed(path, k4, k3, k2, k1, |es|);
  }

  lemma FourPassed(path: seq<Option<Status>>, i: nat, j: nat, k: nat, l: nat, n: nat)
    requires i < j < k < l < n <= |path|
    requires path[i] == Some(Scheduling) && path[j] == Some(PreparingBuild) && path[k] == Some(RestoringSnapshot) && path[l] == Some(Starting)
    ensures Passed(path, [Scheduling, PreparingBuild, RestoringSnapshot, Starting], n)
  {
    PassedOne(path, [], Scheduling, i, j);
    assert [] + [Scheduling] == [Scheduling];
    PassedOne(path, [Scheduling], PreparingBuild, j, k);
    assert [Scheduling] + [PreparingBuild] == [Scheduling, PreparingBuild];
    PassedOne(path, [Scheduling, PreparingBuild], RestoringSnapshot, k, l);
    assert [Scheduling, PreparingBuild] + [RestoringSnapshot] == [Scheduling, PreparingBuild, RestoringSnapshot];
    PassedOne(path, [Scheduling, PreparingBuild, RestoringSnapshot], Starting, l, n);
    assert [Scheduling, PreparingBuild, RestoringSnapshot] + [Starting] == [Scheduling, PreparingBuild, RestoringSnapshot, Starting];
  }

  lemma PassedOne(path: seq<Option<Status>>, states: seq<Status>, s: Status, j: nat, k: nat)
    requires j < k <= |path| && path[j] == Some(s) && Passed(path, states, j)
    ensures Passed(path, states + [s], k)
  {
    assert (states + [s])[..|states + [s]| - 1] == states;
  }

  /** And a running instance that comes to be stopped has been stopping and cleaning, unless it failed on the way. */
  lemma StoppedHasBeenCleaned(c: Setup, w: World, es: seq<Event>, id: InstanceId)
    requires IsRun(c, w, es) && w.At(id).Is(Running) && After(c, w, es).At(id).Is(Stopped)
    ensures Passed(Path(c, w, es, id), [Stopping, Cleaning], |es|) || Passed(Path(c, w, es, id), [Failed], |es|)
  {
    var path := Path(c, w, es, id);
    RunsFollowArrows(c, w, es, id);
    var k := CameToRest(path, |es|);
    if path[k] == Some(Cleaning) {
      var j := EnteredAt(path, Cleaning, k);
      PassedOne(path, [], Stopping, j, k);
      PassedOne(path, [Stopping], Cleaning, k, |es|);
    } else {
      PassedOne(path, [], Failed, k, |es|);
    }
  }

  /** Where a running instance left the running side: by failing, or by being cleaned up. */
  lemma {:induction false} CameToRest(path: seq<Option<Status>>, k: nat) returns (j: nat)
    requires FollowsArrows(path) && k < |path| && path[0] == Some(Running)
    requires path[k] !in {Some(Running), Some(Stopping), Some(Cleaning), Some(Failed)}
    ensures j < k && path[j] in {Some(Cleaning), Some(Failed)}
    decreases k
  {
    assert Joined(path[k - 1], path[k]);
    if path[k - 1] in {Some(Running), Some(Stopping), Some(Cleaning), Some(Failed)} {
      j := k - 1;
    } else {
      j := CameToRest(path, k - 1);
    }
  }
}
