/** Where the two models meet: what the scheduler answers is a step the life cycle allows. */
module SchedulingLink {
  import opened Wrappers
  import opened Entities
  import opened Resources
  import opened PortTable
  import opened Scheduler
  import opened ScheduleAttempts
  import L = Lifecycle

  /** The scheduler's view of a node agrees with the controller's set-up; its reserved counters may be stale. */
  ghost predicate Describes(c: L.Setup, w: L.World, p: Policy, v: View) {
    && v.agent in c.agents && c.agents[v.agent] in c.limits && c.agents[v.agent] in w.reserved
    && c.limits[c.agents[v.agent]] == NodeLimits(v.spec, p.target)
    && NonNegative(v.reserved)
  }

  /** The reservation transaction's own rechecks, on the tables as they are now. */
  ghost predicate TransactionPasses(c: L.Setup, w: L.World, agent: AgentId, req: Vec, plan: seq<Mapping>)
    requires agent in c.agents && c.agents[agent] in c.limits && c.agents[agent] in w.reserved
  {
    RecheckPasses(c.limits[c.agents[agent]], w.reserved[c.agents[agent]], req) && Rebindable(w.ports, plan)
  }

  function PlacementOf(job: Job, result: Result, stale: Vec, plan: seq<Mapping>): L.Placement
    requires result.Scheduled?
  {
    L.Placement(result.agent, job.req, stale, plan, result.cacheNeeded, job.branch)
  }

  /**
   * An answer "scheduled", whose reservation went through on whatever the tables had become since
   * the snapshot, is an enabled scheduling step, and the step leaves the instance in the state the
   * reserve call named.
   */
  lemma ScheduledAnswerIsAStep(c: L.Setup, w: L.World, id: L.InstanceId, p: Policy, job: Job, r: Round, result: Result, plan: seq<Mapping>)
    requires w.At(id).Is(Scheduling) && w.At(id).work == Some(L.InQueue) && IsRequest(job.req)
    requires PlacedIn(p, job, r, result) && UniqueAgents(r.snapshot.value)
    requires forall v :: v in r.snapshot.value ==> Describes(c, w, p, v)
    requires result.agent in c.agents && c.agents[result.agent] in c.limits && c.agents[result.agent] in w.reserved
    requires TransactionPasses(c, w, result.agent, job.req, plan) && L.PlanOk(id, PlacementOf(job, result, ZERO, plan))
    ensures exists b :: b in r.snapshot.value && b.agent == result.agent
              && var e := L.Schedule(id, L.Scheduled(PlacementOf(job, result, b.reserved, plan)));
                 && L.Enabled(c, w, e)
                 && L.Local(c, w.now, w.At(id), e, true, true).0.Is(StatusFor(b))
  {
    var b := ChosenView(p, job, r, result);
    assert Describes(c, w, p, b);
    ChoiceIsAStep(c, w, id, p, job, b, result, plan);
  }

  /** The view the answer was taken from. */
  lemma ChosenView(p: Policy, job: Job, r: Round, result: Result) returns (b: View)
    requires PlacedIn(p, job, r, result) && UniqueAgents(r.snapshot.value)
    ensures b in r.snapshot.value && AnsweredWith(p, job, b, result)
  {
    PlacedOnTheBest(p, job, r, result);
    b :| b in r.snapshot.value && b.agent == result.agent && Eligible(p, job, b)
         && ResourcesSatisfied(Allocatable(NodeLimits(b.spec, p.target), b.reserved), job.req)
         && (result.cacheNeeded <==> !b.cache.Warm());
  }

  ghost predicate AnsweredWith(p: Policy, job: Job, b: View, result: Result) {
    && result.Scheduled? && b.agent == result.agent
    && ResourcesSatisfied(Allocatable(NodeLimits(b.spec, p.target), b.reserved), job.req)
    && (result.cacheNeeded <==> !b.cache.Warm())
  }

  lemma ChoiceIsReservable(c: L.Setup, w: L.World, p: Policy, job: Job, b: View, result: Result, plan: seq<Mapping>)
    requires AnsweredWith(p, job, b, result) && Describes(c, w, p, b) && IsRequest(job.req)
    requires TransactionPasses(c, w, b.agent, job.req, plan)
    ensures L.Reservable(c, w, PlacementOf(job, result, b.reserved, plan))
  {
  }

  lemma ChoiceIsAStep(c: L.Setup, w: L.World, id: L.InstanceId, p: Policy, job: Job, b: View, result: Result, plan: seq<Mapping>)
    requires w.At(id).Is(Scheduling) && w.At(id).work == Some(L.InQueue) && IsRequest(job.req)
    requires AnsweredWith(p, job, b, result) && Describes(c, w, p, b)
    requires TransactionPasses(c, w, b.agent, job.req, plan) && L.PlanOk(id, PlacementOf(job, result, ZERO, plan))
    ensures var e := L.Schedule(id, L.Scheduled(PlacementOf(job, result, b.reserved, plan)));
            L.Enabled(c, w, e) && L.Local(c, w.now, w.At(id), e, true, true).0.Is(StatusFor(b))
  {
    ChoiceIsReservable(c, w, p, job, b, result, plan);
  }
}
