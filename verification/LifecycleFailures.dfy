/**
 * The runs, each from an empty database, on which the promises named in LifecycleLimits and
 * LifecycleSubscriptions and in the port mapper fail.
 */
module LifecycleFailures {
  import opened Wrappers
  import opened Entities
  import opened Resources
  import opened PortTable
  import opened Lifecycle
  import opened LifecycleInvariant
  import opened LifecycleRuns
  import opened LifecycleSubscriptions
  import opened LifecycleScenarios
  import PortMapper
  import Credentials
  import PortPlan

  // ------------------------------------------------- two of one subscription

  /** There are these two instances and no others. */
  ghost predicate Pair(w: World, a: InstanceId, b: InstanceId, s: Slot, t: Slot) {
    a != b && w.slots.Keys == {a, b} && w.At(a) == s && w.At(b) == t
  }

  /** A step of one of two instances. */
  lemma PairStep(c: Setup, w: World, e: Event, a: InstanceId, b: InstanceId)
    requires Pair(w, a, b, w.At(a), w.At(b)) && Enabled(c, w, e) && !e.Tick? && e.id == a
    ensures Pair(Step(c, w, e), a, b, Local(c, w.now, w.At(a), e, Admitted(w, e), Granted(w, e)).0, w.At(b))
  {
    StepAt(c, w, e);
  }

  /** Two instances of one subscription have been created, and nothing else happened. */
  lemma CreateTwo(c: Setup, pool: Credentials.Pool, a: InstanceId, b: InstanceId, sub: string) returns (es: seq<Event>, v: World)
    requires a != b
    ensures IsRun(c, EmptyWorld(c, pool), es) && v == After(c, EmptyWorld(c, pool), es)
    ensures var s := NO_SLOT.Put(NewInstance("game", None, Some(sub)));
            Pair(v, a, b, s, s) && v.reserved == EmptyWorld(c, pool).reserved && v.ports == []
  {
    var w := EmptyWorld(c, pool);
    var first, second := Create(a, "game", None, Some(sub)), Create(b, "game", None, Some(sub));
    var w1 := Step(c, w, first);
    v := Step(c, w1, second);
    RunCons(c, w1, second, []);
    RunCons(c, w, first, [second] + []);
    es := [first] + ([second] + []);
  }

  /** Started and promoted, the first of two stopped instances is about to be scheduled. */
  lemma PromoteOne(c: Setup, w: World, a: InstanceId, b: InstanceId) returns (es: seq<Event>, v: World)
    requires Pair(w, a, b, w.At(a), w.At(b)) && w.At(a).Is(Stopped) && w.At(b).Is(Stopped)
    ensures IsRun(c, w, es) && v == After(c, w, es)
    ensures Pair(v, a, b, w.At(a).Advance(Scheduling), w.At(b)) && v.reserved == w.reserved && v.ports == w.ports
  {
    var w1 := Step(c, w, Start(a));
    PairStep(c, w, Start(a), a, b);
    assert Admitted(w, Start(a));
    v := Step(c, w1, Promote(a));
    PairStep(c, w1, Promote(a), a, b);
    RunCons(c, w1, Promote(a), []);
    RunCons(c, w, Start(a), [Promote(a)] + []);
    es := [Start(a)] + ([Promote(a)] + []);
  }

  lemma ScheduleOne(c: Setup, w: World, a: InstanceId, b: InstanceId, o: ScheduleOutcome) returns (es: seq<Event>, v: World)
    requires Pair(w, a, b, w.At(a), w.At(b)) && w.At(a).Is(Stopped) && w.At(b).Is(Stopped)
    requires o.Scheduled? ==> Reservable(c, w, o.placement) && PlanOk(a, o.placement)
    ensures IsRun(c, w, es) && v == After(c, w, es)
    ensures Pair(v, a, b, ScheduleSlot(c, v.now, w.At(a).Advance(Scheduling), o).0, w.At(b))
  {
    var up, w1 := PromoteOne(c, w, a, b);
    var last := Schedule(a, o);
    v := Step(c, w1, last);
    PairStep(c, w1, last, a, b);
    RunCons(c, w1, last, []);
    RunAppend(c, w, up, [last] + []);
    es := up + ([last] + []);
  }

  /** One instance of a subscription fails to be scheduled; the other finds the slot free and is refused all the same. */
  lemma FailedBlocksSubscription(c: Setup, pool: Credentials.Pool, a: InstanceId, b: InstanceId, sub: string) returns (es: seq<Event>)
    requires a != b && sub != ""
    ensures IsRun(c, EmptyWorld(c, pool), es)
    ensures var v := After(c, EmptyWorld(c, pool), es);
            v.At(a).Is(Failed) && MayStart(v.At(b)) && SlotFree(v, b) && Refused(c, v, Start(b))
  {
    var first, w := CreateTwo(c, pool, a, b, sub);
    var rest, v := ScheduleOne(c, w, a, b, Rejected);
    RunAppend(c, EmptyWorld(c, pool), first, rest);
    es := first + rest;
    FreeSlotRefusedIff(c, v, Start(b), sub);
  }

  /** Both started although they share the empty subscription id: leaving cache warming, the first would enter the index beside the second. */
  lemma BlankIdsMeetInIndex(c: Setup, pool: Credentials.Pool, a: InstanceId, b: InstanceId, p: Placement) returns (es: seq<Event>)
    requires a != b && Reservable(c, EmptyWorld(c, pool), p) && p.cacheNeeded && PlanOk(a, p)
    ensures IsRun(c, EmptyWorld(c, pool), es)
    ensures var v, e := After(c, EmptyWorld(c, pool), es), RunStage(a, [], Broken);
            Enabled(c, v, e) && EntersIndex(c, v, e, "") && !IndexFree(v, a)
  {
    var first, w := CreateTwo(c, pool, a, b, "");
    var rest, w1 := ScheduleOne(c, w, a, b, Scheduled(p));
    StartBesideWarming(c, w1, a, b);
    FailBesidePending(c, Step(c, w1, Start(b)), a, b);
    RunCons(c, w1, Start(b), []);
    RunAppend(c, EmptyWorld(c, pool), first, rest);
    RunAppend(c, EmptyWorld(c, pool), first + rest, [Start(b)] + []);
    es := first + rest + ([Start(b)] + []);
  }

  /** Beside a warming instance of the empty subscription id another one can be started. */
  lemma StartBesideWarming(c: Setup, w: World, a: InstanceId, b: InstanceId)
    requires Pair(w, a, b, w.At(a), w.At(b)) && w.At(a).Is(CacheWarming) && w.At(b).Is(Stopped) && MemberOf(w.At(b), "")
    ensures Pair(Step(c, w, Start(b)), a, b, w.At(a), w.At(b).Advance(Pending))
  {
    PairStep(c, w, Start(b), b, a);
  }

  lemma FailBesidePending(c: Setup, w: World, a: InstanceId, b: InstanceId)
    requires Pair(w, a, b, w.At(a), w.At(b)) && w.At(a).Is(CacheWarming) && w.At(a).work == Some(InQueue) && MemberOf(w.At(a), "")
    requires IndexedUnder(w.At(b), "")
    ensures var e := RunStage(a, [], Broken); Enabled(c, w, e) && EntersIndex(c, w, e, "") && !IndexFree(w, a)
  {
    PairStep(c, w, RunStage(a, [], Broken), a, b);
    assert IndexedUnder(w.slots[b], "");
  }

  ghost predicate EverySaveAccepted(sub: string) {
    forall c: Setup, w, e :: c.Valid() && Reachable(c, w) && Enabled(c, w, e) && !e.Tick? && EntersIndex(c, w, e, sub) ==> IndexFree(w, e.id)
  }

  /** The index accepts every save of every run if and only if the subscription id is not the empty string, which the check exempts and the index does not. */
  lemma EverySaveAcceptedIff(sub: string)
    ensures EverySaveAccepted(sub) <==> sub != ""
  {
    if sub != "" {
      forall c: Setup, w, e | c.Valid() && Reachable(c, w) && Enabled(c, w, e) && !e.Tick? && EntersIndex(c, w, e, sub)
        ensures IndexFree(w, e.id)
      {
        NoSaveIsRefused(c, w, e, sub);
      }
    } else {
      var c, es := BlankRun("a", "b");
      var v, e := After(c, EmptyWorld(c, []), es), RunStage("a", [], Broken);
      assert Reachable(c, v) && EntersIndex(c, v, e, "") && !IndexFree(v, e.id);
    }
  }

  lemma BlankRun(a: InstanceId, b: InstanceId) returns (c: Setup, es: seq<Event>)
    requires a != b
    ensures c.Valid() && IsRun(c, EmptyWorld(c, []), es)
    ensures var v, e := After(c, EmptyWorld(c, []), es), RunStage(a, [], Broken);
            Enabled(c, v, e) && EntersIndex(c, v, e, "") && !IndexFree(v, a)
  {
    var limits, req := Hard(1, 1, 1), Vec(Hard(1, 1, 1), 0, 0);
    c := OneNode("agent", "node", limits);
    RoomForOne("agent", "node", limits, req, [], true);
    es := BlankIdsMeetInIndex(c, [], a, b, Placement("agent", req, ZERO, [], true, ""));
  }

  // ------------------------------------------------------------- lost override

  /** An instance created with an explicit size runs, is stopped, and loses the size when the stop fails. */
  lemma OverrideLostFromScratch(c: Setup, pool: Credentials.Pool, id: InstanceId, p: Placement) returns (es: seq<Event>)
    requires Reservable(c, EmptyWorld(c, pool), p) && p.plan == [] && !p.cacheNeeded
    ensures IsRun(c, EmptyWorld(c, pool), es)
    ensures var v := After(c, EmptyWorld(c, pool), es);
            && v.At(id).Is(Stopping) && v.At(id).inst.value.resourceOverride && v.At(id).inst.value.req == Some(p.req)
            && Enabled(c, v, RunStage(id, [], Broken))
            && var u := Step(c, v, RunStage(id, [], Broken));
               u.At(id).inst.Some? && u.At(id).inst.value.resourceOverride && u.At(id).inst.value.req.None?
  {
    var w := EmptyWorld(c, pool);
    var created := CreateFirst(c, pool, id, Some(p.req));
    var rest, ran := BringUp(c, created, id, p);
    var v := Step(c, ran, Stop(id));
    StepAt(c, ran, Stop(id));
    RunCons(c, ran, Stop(id), []);
    RunAppend(c, created, rest, [Stop(id)] + []);
    RunAppend(c, w, [Create(id, "game", Some(p.req), None)] + [], rest + ([Stop(id)] + []));
    es := [Create(id, "game", Some(p.req), None)] + [] + (rest + ([Stop(id)] + []));
    StepAt(c, v, RunStage(id, [], Broken));
  }

  // -------------------------------------------------- an injected port re-planned

  /** A failed first stage gives everything back but the port rows. */
  lemma FailFirstStage(c: Setup, w: World, id: InstanceId, p: Placement, before: map<NodeId, Vec>)
    requires w.At(id).Is(PreparingBuild) && w.At(id).work == Some(InQueue)
    requires w.At(id).inst.value.agent == Some(p.agent) && w.At(id).inst.value.req == Some(p.req)
    requires p.agent in c.agents && c.agents[p.agent] in before && NonNegative(before[c.agents[p.agent]])
    requires w.reserved == before[c.agents[p.agent] := Add(before[c.agents[p.agent]], p.req)]
    ensures Enabled(c, w, RunStage(id, [], Broken))
    ensures var v := Step(c, w, RunStage(id, [], Broken));
            MayStart(v.At(id)) && v.At(id).inst.value.subscription == w.At(id).inst.value.subscription
            && v.ports == w.ports && v.reserved == before
  {
    StepAt(c, w, RunStage(id, [], Broken));
    var n := c.agents[p.agent];
    NoClipping(Add(before[n], p.req), p.req);
    assert Minus(Add(before[n], p.req), p.req) == before[n];
    assert before[n := before[n]] == before;
  }

  /** What the same request can be placed with once the first placement has been given back. */
  lemma PlaceableAgain(c: Setup, w: World, v: World, p: Placement, plan: seq<Mapping>)
    requires Reservable(c, w, p) && v.reserved == w.reserved && Rebindable(v.ports, plan)
    ensures Reservable(c, v, p.(plan := plan))
  {
  }

  predicate PlannedInjected(es: seq<PortPlan.Excerpt>, o: PortPlan.Owner, t: Table, plan: seq<Mapping>) {
    PortPlan.PlanInjected(es, o, PortPlan.UsedOn(t, o.agent)) == Some(plan)
  }

  lemma InjectedPlanBinds(es: seq<PortPlan.Excerpt>, o: PortPlan.Owner, t: Table, plan: seq<Mapping>)
    requires PlannedInjected(es, o, t, plan)
    ensures Rebindable(t, plan) && NoClash(plan) && forall m :: m in plan ==> m.instance == o.instance && m.agent == o.agent
  {
    PortPlan.EveryPlanIsFresh(PortPlan.Config(PortPlan.NAT, true, es), o, t);
  }

  /** On the table that holds only its first plan, the second one is announced under the first one's port. */
  lemma SecondPlanMisannounced(es: seq<PortPlan.Excerpt>, o: PortPlan.Owner, first: seq<Mapping>, second: seq<Mapping>)
    requires PlannedInjected(es, o, [], first) && PlannedInjected(es, o, first, second)
    requires PortPlan.Scanned(es, TCP, PortPlan.GameBase(es))
    ensures var b := PortPlan.GameBlock(es, PortPlan.UsedOn(first, o.agent)).value;
            PortMapper.MeantPort(es, b) == Some(b.host) != PortMapper.FlaggedPort(RowsOf(first + second, o.instance))
  {
    var u := PortPlan.UsedOn([], o.agent);
    PortMapper.EnvAndAddressNameTheBlock(es, o, u);
    PortMapper.PlanBelongsToOwner(es, o, u);
    PortMapper.OneFlaggedRowIffTcpBase(es, o, u);
    PortPlan.BlockReachesAll(es, u);
    PortPlan.BlockReachesAll(es, PortPlan.UsedOn(first, o.agent));
    PortMapper.ReplanNamedIffNothingFlagged(first, es, o);
  }

  /** Placed once, with its first stage failed and nothing left of it but its port rows. */
  lemma PlaceAndFail(c: Setup, pool: Credentials.Pool, id: InstanceId, p: Placement) returns (es: seq<Event>, v: World)
    requires c.Valid() && Reservable(c, EmptyWorld(c, pool), p) && PlanOk(id, p) && !p.cacheNeeded
    ensures IsRun(c, EmptyWorld(c, pool), es) && v == After(c, EmptyWorld(c, pool), es)
    ensures MayStart(v.At(id)) && v.At(id).inst.value.subscription.None?
    ensures v.ports == p.plan && v.reserved == EmptyWorld(c, pool).reserved
  {
    var w := EmptyWorld(c, pool);
    var created := CreateFirst(c, pool, id, None);
    var up, placed := Place(c, created, id, p);
    FailFirstStage(c, placed, id, p, w.reserved);
    var broken := RunStage(id, [], Broken);
    v := Step(c, placed, broken);
    assert w.ports + p.plan == p.plan;
    RunCons(c, placed, broken, []);
    RunAppend(c, created, up, [broken] + []);
    RunAppend(c, w, [Create(id, "game", None, None)] + [], up + ([broken] + []));
    es := [Create(id, "game", None, None)] + [] + (up + ([broken] + []));
  }

  /**
   * The run: an injected instance is placed, its first stage fails, it is started again and placed
   * beside its own old rows; from then on player and game are told the old port.
   */
  lemma InjectedReplanFromScratch(c: Setup, pool: Credentials.Pool, id: InstanceId, p: Placement, config: seq<PortPlan.Excerpt>, second: seq<Mapping>)
    returns (es: seq<Event>)
    requires c.Valid() && Reservable(c, EmptyWorld(c, pool), p) && !p.cacheNeeded
    requires var o := PortPlan.Owner(id, p.agent); PlannedInjected(config, o, [], p.plan) && PlannedInjected(config, o, p.plan, second)
    requires PortPlan.Scanned(config, TCP, PortPlan.GameBase(config))
    ensures IsRun(c, EmptyWorld(c, pool), es)
    ensures var v, o := After(c, EmptyWorld(c, pool), es), PortPlan.Owner(id, p.agent);
            && v.At(id).Is(PreparingBuild) && v.ports == p.plan + second
            && PortMapper.FlaggedPort(RowsOf(v.ports, id))
               != PortMapper.MeantPort(config, PortPlan.GameBlock(config, PortPlan.UsedOn(p.plan, o.agent)).value)
  {
    var w, o := EmptyWorld(c, pool), PortPlan.Owner(id, p.agent);
    InjectedPlanBinds(config, o, [], p.plan);
    InjectedPlanBinds(config, o, p.plan, second);
    var first, failed := PlaceAndFail(c, pool, id, p);
    PlaceableAgain(c, w, failed, p, second);
    var again, v := Place(c, failed, id, p.(plan := second));
    SecondPlanMisannounced(config, o, p.plan, second);
    RunAppend(c, w, first, again);
    es := first + again;
  }

  /** Such plans exist: for one TCP port, first on the empty table and then beside the first plan. */
  lemma TwoPlansExist(o: PortPlan.Owner, base: Port) returns (first: seq<Mapping>, second: seq<Mapping>)
    requires 0 < base < 65535
    ensures var es := [PortPlan.Excerpt(TCP, base, 1, true)];
            && PortPlan.Scanned(es, TCP, PortPlan.GameBase(es))
            && PlannedInjected(es, o, [], first) && PlannedInjected(es, o, first, second)
  {
    var es := [PortPlan.Excerpt(TCP, base, 1, true)];
    assert es[0] in es && PortPlan.Scans(es[0], base);
    OnePortBlock(o, base, PortPlan.UsedOn([], o.agent));
    first := OnePortPlan(o, base, PortPlan.UsedOn([], o.agent), PortPlan.PORT_BEGIN);
    var host := PortPlan.GameBlock(es, PortPlan.UsedOn([], o.agent)).value.host;
    OnlyItsBlock(o, base, PortPlan.UsedOn([], o.agent), first);
    second := OnePortPlan(o, base, PortPlan.UsedOn(first, o.agent),
      if host == PortPlan.PORT_BEGIN then PortPlan.PORT_BEGIN + 1 else PortPlan.PORT_BEGIN);
  }

  lemma OnePortBlock(o: PortPlan.Owner, base: Port, u: PortPlan.PortSets)
    requires 0 < base < 65535
    ensures var es := [PortPlan.Excerpt(TCP, base, 1, true)];
            && PortPlan.GameBase(es) == base && PortPlan.GameLength(es) == 1
            && PortPlan.ExtraRows(es, o, base, 0, 0, u) == Some([])
  {
    var es := [PortPlan.Excerpt(TCP, base, 1, true)];
    assert es[1..] == [];
    assert PortPlan.GameBase(es) == base;
    PortPlan.OneExcerptLength(es[0], base, 1);
    assert PortPlan.ExtraRows(es, o, base, 1, 0, u) == Some([]);
  }

  /** One TCP port is planned wherever one port is free in both protocols. */
  lemma OnePortPlan(o: PortPlan.Owner, base: Port, u: PortPlan.PortSets, q: Port) returns (plan: seq<Mapping>)
    requires 0 < base < 65535 && PortPlan.PORT_BEGIN <= q <= PortPlan.PORT_END && q !in u.tcp && q !in u.udp
    ensures PortPlan.PlanInjected([PortPlan.Excerpt(TCP, base, 1, true)], o, u) == Some(plan)
  {
    var es := [PortPlan.Excerpt(TCP, base, 1, true)];
    OnePortBlock(o, base, u);
    assert PortPlan.RoomAt(u, q, PortPlan.GameLength(es));
    PortPlan.GameBlockExistsIff(es, u);
    OnePortBlock(o, base, PortPlan.MarkBlock(u, PortPlan.GameBlock(es, u).value));
    plan := PortPlan.PlanInjected(es, o, u).value;
  }

  /** And its plan uses no other host port than its block's. */
  lemma OnlyItsBlock(o: PortPlan.Owner, base: Port, u: PortPlan.PortSets, plan: seq<Mapping>)
    requires 0 < base < 65535 && PortPlan.PlanInjected([PortPlan.Excerpt(TCP, base, 1, true)], o, u) == Some(plan)
    ensures var b := PortPlan.GameBlock([PortPlan.Excerpt(TCP, base, 1, true)], u).value;
            forall m :: m in plan ==> m.hostPort == b.host
  {
    var es := [PortPlan.Excerpt(TCP, base, 1, true)];
    var b := PortPlan.GameBlock(es, u).value;
    OnePortBlock(o, base, PortPlan.MarkBlock(u, b));
    PortPlan.BlockRowsExact(PortPlan.ScanOf(es), o, b, 0);
  }
}
