/**
 * Runs that really happen: from the empty database to a running instance, down and up again with an
 * old offline mark, and into a failure that a HOST-mode instance cannot come back from.
 */
module LifecycleScenarios {
  import opened Wrappers
  import opened Entities
  import opened Resources
  import opened PortTable
  import opened Sums
  import opened Lifecycle
  import opened LifecycleInvariant
  import opened LifecycleRuns
  import opened LifecycleLimits
  import opened LifecycleSubscriptions
  import Credentials
  import PortPlan

  /** The events lead from w to v, and none of them is an inspection of id. */
  ghost predicate Leads(c: Setup, w: World, es: seq<Event>, v: World, id: InstanceId) {
    IsRun(c, w, es) && After(c, w, es) == v && forall e :: e in es ==> !Inspects(e, id)
  }

  lemma LeadsCons(c: Setup, w: World, e: Event, es: seq<Event>, v: World, id: InstanceId)
    requires Enabled(c, w, e) && !Inspects(e, id) && Leads(c, Step(c, w, e), es, v, id)
    ensures Leads(c, w, [e] + es, v, id)
  {
    RunCons(c, w, e, es);
  }

  lemma {:induction false} LeadsAppend(c: Setup, w: World, es: seq<Event>, u: World, fs: seq<Event>, v: World, id: InstanceId)
    requires Leads(c, w, es, u, id) && Leads(c, u, fs, v, id)
    ensures Leads(c, w, es + fs, v, id)
    decreases |es|
  {
    if es == [] {
      assert es + fs == fs;
    } else {
      assert es[0] in es;
      LeadsAppend(c, Step(c, w, es[0]), es[1..], u, fs, v, id);
      LeadsCons(c, w, es[0], es[1..] + fs, v, id);
      assert [es[0]] + (es[1..] + fs) == es + fs;
    }
  }

  /** Only the slot of id, its reservation and the tables of ports and credentials may have changed. */
  ghost predicate Moved(w: World, v: World, id: InstanceId, s: Slot, reserved: map<NodeId, Vec>) {
    v.At(id) == s && v.reserved == reserved && v.now == w.now && forall other :: other != id ==> v.At(other) == w.At(other)
  }

  lemma SendAccepted(c: Setup, w: World, id: InstanceId)
    requires w.At(id).inst.Some? && w.At(id).inst.value.status.IsStage() && w.At(id).work == Some(InQueue)
    ensures Enabled(c, w, RunStage(id, [], Accepted))
    ensures Moved(w, Step(c, w, RunStage(id, [], Accepted)), id, w.At(id).(work := Some(Polling)), w.reserved)
  {
    StepAt(c, w, RunStage(id, [], Accepted));
  }

  lemma PollSucceeds(c: Setup, w: World, id: InstanceId)
    requires w.At(id).inst.Some? && w.At(id).inst.value.status.IsStage() && w.At(id).work == Some(Polling)
    ensures Enabled(c, w, FinishPoll(id, Succeeded))
    ensures var (t, fx) := PollSlot(w.At(id), Succeeded);
            Moved(w, Step(c, w, FinishPoll(id, Succeeded)), id, t, ReservedAfter(c, w.reserved, w.At(id), fx))
  {
    StepAt(c, w, FinishPoll(id, Succeeded));
  }

  /** A stage whose RPC is accepted and whose operation succeeds. */
  lemma StageSucceeds(c: Setup, w: World, id: InstanceId) returns (es: seq<Event>, v: World)
    requires w.At(id).inst.Some? && w.At(id).inst.value.status.IsStage() && w.At(id).work == Some(InQueue)
    ensures Leads(c, w, es, v, id)
    ensures var s := w.At(id).(work := Some(Polling));
            Moved(w, v, id, PollSlot(s, Succeeded).0, ReservedAfter(c, w.reserved, s, PollSlot(s, Succeeded).1))
  {
    var send, done := RunStage(id, [], Accepted), FinishPoll(id, Succeeded);
    SendAccepted(c, w, id);
    var w1 := Step(c, w, send);
    PollSucceeds(c, w1, id);
    v := Step(c, w1, done);
    LeadsCons(c, w1, done, [], v, id);
    LeadsCons(c, w, send, [done] + [], v, id);
    es := [send] + ([done] + []);
  }

  /** What a completed stop leaves: stopped and unbound, the size still on record. */
  function StoppedSlot(s: Slot): Slot
    requires s.inst.Some?
  {
    s.Put(s.inst.value.(status := Stopped, agent := None)).(work := None, retries := 0)
  }

  lemma StopStages(c: Setup, w: World, id: InstanceId) returns (es: seq<Event>, v: World)
    requires w.At(id).Is(Stopping) && w.At(id).work == Some(InQueue)
    ensures Leads(c, w, es, v, id) && Moved(w, v, id, StoppedSlot(w.At(id)), Release(c, w.reserved, w.At(id)))
  {
    var es1, w1 := StageSucceeds(c, w, id);
    assert w1.At(id) == w.At(id).Advance(Cleaning).(retries := 0);
    var es2, w2 := StageSucceeds(c, w1, id);
    v := w2;
    LeadsAppend(c, w, es1, w1, es2, w2, id);
    es := es1 + es2;
  }

  /** No other instance of its subscription is in the way of a start or stop. */
  predicate Unrivalled(w: World, id: InstanceId) {
    SlotFree(w, id) && IndexFree(w, id)
  }

  /** That holds of every running instance in a reachable state, unless its subscription id is the empty string. */
  lemma RunningIsUnrivalled(c: Setup, w: World, id: InstanceId)
    requires c.Valid() && Reachable(c, w) && w.At(id).Is(Running) && w.At(id).inst.value.subscription != Some("")
    ensures Unrivalled(w, id)
  {
    ReachableSubscriptions(c, w);
    var sub := w.At(id).inst.value.subscription;
    if sub.Some? {
      IndexedRowIsAlone(w, id, sub.value);
      forall other | other in w.slots && other != id
        ensures !OccupiesSubscription(w.slots[other], sub.value)
      {
        CompatibleAt(w, id, other, sub.value);
        CompatibleIsSingle(w.At(id), w.At(other), sub.value);
      }
    }
  }

  lemma TakeDown(c: Setup, w: World, id: InstanceId) returns (es: seq<Event>, v: World)
    requires w.At(id).Is(Running) && IndexFree(w, id)
    ensures Leads(c, w, es, v, id) && Moved(w, v, id, StoppedSlot(w.At(id)), Release(c, w.reserved, w.At(id)))
    ensures Stop(id) in es
  {
    StepAt(c, w, Stop(id));
    var rest, last := StopStages(c, Step(c, w, Stop(id)), id);
    v := last;
    LeadsCons(c, w, Stop(id), rest, last, id);
    es := [Stop(id)] + rest;
  }

  /** Start, promote and place: up to the first stage on the node. */
  lemma Place(c: Setup, w: World, id: InstanceId, p: Placement) returns (es: seq<Event>, v: World)
    requires MayStart(w.At(id)) && Unrivalled(w, id) && Reservable(c, w, p) && PlanOk(id, p)
    ensures Leads(c, w, es, v, id)
    ensures v.At(id) == Bound(w.At(id), p) && v.now == w.now && v.ports == w.ports + p.plan
    ensures v.reserved == w.reserved[c.agents[p.agent] := Add(w.reserved[c.agents[p.agent]], p.req)]
  {
    var w1 := Step(c, w, Start(id));
    StepAt(c, w, Start(id));
    var w2 := Step(c, w1, Promote(id));
    StepAt(c, w1, Promote(id));
    var place := Schedule(id, Scheduled(p));
    assert w2.reserved == w.reserved && w2.ports == w.ports;
    v := Step(c, w2, place);
    StepAt(c, w2, place);
    LeadsCons(c, w2, place, [], v, id);
    LeadsCons(c, w1, Promote(id), [place] + [], v, id);
    LeadsCons(c, w, Start(id), [Promote(id)] + ([place] + []), v, id);
    es := [Start(id)] + ([Promote(id)] + ([place] + []));
  }

  /** From the first stage to running, with nothing to restore. */
  lemma Launch(c: Setup, w: World, id: InstanceId) returns (es: seq<Event>, v: World)
    requires w.At(id).Is(PreparingBuild) && w.At(id).work == Some(InQueue)
    ensures Leads(c, w, es, v, id) && v.now == w.now
    ensures v.At(id).inst == Some(w.At(id).inst.value.(status := Running))
  {
    var es1, w1 := StageSucceeds(c, w, id);
    var skip := RunStage(id, [], NoSnapshot);
    var w2 := Step(c, w1, skip);
    StepAt(c, w1, skip);
    var es2, w3 := StageSucceeds(c, w2, id);
    v := w3;
    LeadsCons(c, w1, skip, es2, w3, id);
    LeadsAppend(c, w, es1, w1, [skip] + es2, w3, id);
    es := es1 + ([skip] + es2);
  }

  lemma BringUp(c: Setup, w: World, id: InstanceId, p: Placement) returns (es: seq<Event>, v: World)
    requires MayStart(w.At(id)) && Unrivalled(w, id) && Reservable(c, w, p) && PlanOk(id, p) && !p.cacheNeeded
    ensures Leads(c, w, es, v, id) && v.now == w.now
    ensures v.At(id).inst == Some(Bound(w.At(id), p).inst.value.(status := Running))
  {
    var es1, w1 := Place(c, w, id, p);
    var es2, w2 := Launch(c, w1, id);
    v := w2;
    LeadsAppend(c, w, es1, w1, es2, w2, id);
    es := es1 + es2;
  }

  // -------------------------------------------------------- stop, wait, start

  /** What an instance has given back can be reserved again on the same agent. */
  function SamePlace(i: Instance, reading: Vec): Placement
    requires i.agent.Some? && i.req.Some?
  {
    Placement(i.agent.value, i.req.value, reading, [], false, i.branch)
  }

  lemma SamePlaceFits(c: Setup, w: World, v: World, id: InstanceId)
    requires c.Valid() && Inv(c, w) && w.At(id).Is(Running)
    requires v.reserved == Release(c, w.reserved, w.At(id))
    ensures w.At(id).inst.value.agent.Some? && w.At(id).inst.value.req.Some?
    ensures var i := w.At(id).inst.value;
            && i.agent.value in c.agents && c.agents[i.agent.value] in v.reserved
            && Reservable(c, v, SamePlace(i, v.reserved[c.agents[i.agent.value]]))
  {
    assert SlotOk(c, w.now, w.slots[id]);
    var i := w.At(id).inst.value;
    var n := c.agents[i.agent.value];
    ReleaseIsExact(c, w, id, n);
    SharesNonNegative(c, w, n);
    assert id in Shares(c, w.slots, n);
    EntryBelowTotal(Shares(c, w.slots, n), id);
    RecheckIsExactAfterH3(c.limits[n], v.reserved[n], v.reserved[n], i.req.value);
  }

  /**
   * A running instance can be stopped, cleaned, left alone for any time, and started again on the
   * same agent, without an inspection in between; its offline mark is then what it was.
   */
  lemma StopWaitStart(c: Setup, w: World, id: InstanceId, wait: nat) returns (es: seq<Event>)
    requires c.Valid() && Inv(c, w) && w.At(id).Is(Running) && Unrivalled(w, id)
    ensures IsRun(c, w, es) && (forall e :: e in es ==> !Inspects(e, id)) && Stop(id) in es
    ensures var v := After(c, w, es); v.At(id).Is(Running) && v.now == w.now + wait && v.At(id).offline == w.At(id).offline
  {
    var down, w1 := TakeDown(c, w, id);
    var w2 := Step(c, w1, Tick(wait));
    SamePlaceFits(c, w, w2, id);
    var i := w.At(id).inst.value;
    var p := SamePlace(i, w2.reserved[c.agents[i.agent.value]]);
    StillFree(w, w1, id);
    assert w2.At(id) == w1.At(id) && Unrivalled(w2, id);
    var up, v := BringUp(c, w2, id, p);
    LeadsCons(c, w1, Tick(wait), up, v, id);
    LeadsAppend(c, w, down, w1, [Tick(wait)] + up, v, id);
    es := down + ([Tick(wait)] + up);
    MarkSurvives(c, w, es, id);
  }

  lemma StillFree(w: World, v: World, id: InstanceId)
    requires Unrivalled(w, id) && w.At(id).inst.Some? && v.At(id).inst.Some?
    requires v.At(id).inst.value.subscription == w.At(id).inst.value.subscription
    requires forall other :: other != id ==> v.At(other) == w.At(other)
    ensures Unrivalled(v, id)
  {
    var sub := w.At(id).inst.value.subscription;
    if sub.Some? {
      forall other | other in v.slots && other != id
        ensures sub.value != "" ==> !OccupiesSubscription(v.slots[other], sub.value)
        ensures !IndexedUnder(v.slots[other], sub.value)
      {
        assert v.At(other) == w.At(other);
      }
    }
  }

  /** Every running instance with an offline mark has such a restart after which the first failed inspection fences it. */
  lemma OldMarkFencesAfterRestart(c: Setup, w: World, id: InstanceId) returns (es: seq<Event>)
    requires c.Valid() && Inv(c, w) && w.At(id).Is(Running) && w.At(id).offline.Some? && Unrivalled(w, id)
    ensures IsRun(c, w, es) && (forall e :: e in es ==> !Inspects(e, id)) && Stop(id) in es
    ensures var v := After(c, w, es);
            v.At(id).Is(Running) && Step(c, v, Inspect(id, UnreachableNodeDown)).At(id).Is(Failed)
  {
    var since := w.At(id).offline.value;
    var wait: nat := c.fencingTimeout + (if since > w.now then since - w.now else 0);
    es := StopWaitStart(c, w, id, wait);
    StaleMarkFencesIff(c, w, es, id);
  }

  // ------------------------------------------------ from the empty database

  lemma CreateFirst(c: Setup, pool: Credentials.Pool, id: InstanceId, req: Option<Vec>) returns (v: World)
    ensures Leads(c, EmptyWorld(c, pool), [Create(id, "game", req, None)] + [], v, id)
    ensures v.At(id) == NO_SLOT.Put(NewInstance("game", req, None)) && Unrivalled(v, id)
    ensures v.reserved == EmptyWorld(c, pool).reserved && v.ports == [] && v.now == 0
  {
    var w, e := EmptyWorld(c, pool), Create(id, "game", req, None);
    v := Step(c, w, e);
    LeadsCons(c, w, e, [], v, id);
  }

  lemma BringUpFirst(c: Setup, pool: Credentials.Pool, id: InstanceId, p: Placement) returns (es: seq<Event>, v: World)
    requires c.Valid() && Unused(pool) && Reservable(c, EmptyWorld(c, pool), p) && p.plan == [] && !p.cacheNeeded
    ensures Leads(c, EmptyWorld(c, pool), es, v, id)
    ensures Inv(c, v) && v.At(id).Is(Running) && v.At(id).offline.None? && v.At(id).inst.value.subscription.None?
  {
    var w := EmptyWorld(c, pool);
    EmptyWorldIsSound(c, pool);
    var created := CreateFirst(c, pool, id, None);
    var rest, ran := BringUp(c, created, id, p);
    v := ran;
    LeadsAppend(c, w, [Create(id, "game", None, None)] + [], created, rest, ran, id);
    es := [Create(id, "game", None, None)] + [] + rest;
    InvOverEveryRun(c, w, es);
    MarkSurvives(c, w, es, id);
  }

  lemma FirstMark(c: Setup, w: World, id: InstanceId)
    requires c.Valid() && Inv(c, w) && w.At(id).Is(Running) && w.At(id).offline.None?
    ensures Enabled(c, w, Inspect(id, UnreachableNodeDown))
    ensures var v := Step(c, w, Inspect(id, UnreachableNodeDown));
            Inv(c, v) && v.At(id) == w.At(id).(offline := Some(w.now))
  {
    StepKeepsInv(c, w, Inspect(id, UnreachableNodeDown));
    StepAt(c, w, Inspect(id, UnreachableNodeDown));
  }

  /**
   * The whole story: on any set-up whose empty node has room for one instance, it is started,
   * inspected once while its node is down, stopped, and started again; the second failed
   * inspection, the first of the new run, fails it.
   */
  lemma OldMarkFencesFromScratch(c: Setup, pool: Credentials.Pool, id: InstanceId, p: Placement) returns (up: seq<Event>, es: seq<Event>)
    requires c.Valid() && Unused(pool) && Reservable(c, EmptyWorld(c, pool), p) && p.plan == [] && !p.cacheNeeded
    ensures IsRun(c, EmptyWorld(c, pool), up) && forall e :: e in up ==> !Inspects(e, id)
    ensures var ran := After(c, EmptyWorld(c, pool), up);
            && Enabled(c, ran, Inspect(id, UnreachableNodeDown))
            && var marked := Step(c, ran, Inspect(id, UnreachableNodeDown));
               && IsRun(c, marked, es) && (forall e :: e in es ==> !Inspects(e, id)) && Stop(id) in es
               && var v := After(c, marked, es);
                  v.At(id).Is(Running) && Step(c, v, Inspect(id, UnreachableNodeDown)).At(id).Is(Failed)
  {
    var events, ran := BringUpFirst(c, pool, id, p);
    up := events;
    FirstMark(c, ran, id);
    es := OldMarkFencesAfterRestart(c, Step(c, ran, Inspect(id, UnreachableNodeDown)), id);
  }

  /** In HOST mode: bound once, failed once, and from then on impossible to plan on that machine. */
  lemma HostFailureFromScratch(c: Setup, pool: Credentials.Pool, id: InstanceId, p: Placement, config: PortPlan.Config) returns (es: seq<Event>)
    requires c.Valid() && Reservable(c, EmptyWorld(c, pool), p) && !p.cacheNeeded
    requires config.mode == PortPlan.HOST
    requires PortPlan.Plan(config, PortPlan.Owner(id, p.agent), []) == Some(p.plan) && p.plan != []
    ensures IsRun(c, EmptyWorld(c, pool), es)
    ensures var v := After(c, EmptyWorld(c, pool), es);
            v.At(id).Is(Failed) && MayRetry(v.At(id)) && PortPlan.Plan(config, PortPlan.Owner(id, p.agent), v.ports).None?
  {
    var w, o := EmptyWorld(c, pool), PortPlan.Owner(id, p.agent);
    var created := CreateFirst(c, pool, id, None);
    PortPlan.EveryPlanIsFresh(config, o, []);
    var placing, placed := Place(c, created, id, p);
    var broken := RunStage(id, [], Broken);
    var v := Step(c, placed, broken);
    StepAt(c, placed, broken);
    LeadsCons(c, placed, broken, [], v, id);
    LeadsAppend(c, created, placing, placed, [broken] + [], v, id);
    LeadsAppend(c, w, [Create(id, "game", None, None)] + [], created, placing + ([broken] + []), v, id);
    es := [Create(id, "game", None, None)] + [] + (placing + ([broken] + []));
    FailedHostInstanceCannotReturn(c, placed, [broken] + [], config, o, []);
    RunCons(c, placed, broken, []);
  }

  // ------------------------------------------------------------ set-ups for it

  function OneNode(agent: AgentId, node: NodeId, limits: Hard): Setup {
    Setup(map[agent := node], map[node := limits], 1, 8, 100, 10)
  }

  /** On a machine without rows every HOST-mode demand can be planned. */
  lemma HostPlanOnEmptyTable(config: PortPlan.Config, o: PortPlan.Owner, proto: Protocol, port: Port)
    requires config.mode == PortPlan.HOST && PortPlan.Demanded(config.excerpts, proto, port)
    ensures PortPlan.Plan(config, o, []).Some? && PortPlan.Plan(config, o, []).value != []
  {
    var d, u := PortPlan.DemandOf(config.excerpts), PortPlan.UsedOn([], o.agent);
    PortPlan.HostPlanFailsIffTaken(d, o, 0, u);
    PortPlan.PlanIsSound(PortPlan.HOST, d, o, 0, u);
    assert d.Has(proto, port) && PortPlan.Serves(PortPlan.Plan(config, o, []).value, proto, port);
  }

  /** An empty node takes any placement that its limits have room for. */
  lemma EmptyNodeTakes(c: Setup, p: Placement)
    requires c.Valid() && p.agent in c.agents && IsRequest(p.req) && p.staleReading == ZERO
    requires ResourcesSatisfied(c.limits[c.agents[p.agent]], p.req)
    ensures Reservable(c, EmptyWorld(c, []), p)
  {
    RecheckIsExactAfterH3(c.limits[c.agents[p.agent]], ZERO, ZERO, p.req);
  }

  /** Both stories happen on any single node with room for the request, whatever ports were planned. */
  lemma RoomForOne(agent: AgentId, node: NodeId, limits: Hard, req: Vec, plan: seq<Mapping>, cacheNeeded: bool)
    requires SaneLimits(limits) && IsRequest(req) && ResourcesSatisfied(limits, req)
    ensures OneNode(agent, node, limits).Valid()
    ensures Reservable(OneNode(agent, node, limits), EmptyWorld(OneNode(agent, node, limits), []), Placement(agent, req, ZERO, plan, cacheNeeded, ""))
  {
    EmptyNodeTakes(OneNode(agent, node, limits), Placement(agent, req, ZERO, plan, cacheNeeded, ""));
  }
}
