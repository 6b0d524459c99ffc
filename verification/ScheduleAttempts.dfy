/**
 * One call of Schedule: up to retry + 1 rounds of filter, score and reserve, and what it answers.
 * What each round reads and how its reservation ends is given from outside.
 */
module ScheduleAttempts {
  import opened Wrappers
  import opened Entities
  import opened Resources
  import opened Scoring
  import opened Scheduler
  import TextOrder

  datatype ReserveOutcome = Reserved | Conflict | BrokenTx

  /** snapshot None: loading the candidates failed; planOk: the chosen node's ports could still be planned. */
  datatype Round = Round(snapshot: Option<seq<View>>, planOk: bool, reserve: ReserveOutcome)

  datatype Call = Call(agent: AgentId, status: Status, outcome: ReserveOutcome)

  datatype FailCode = NoNodeAgent | NoGameCache | RegionUnreachable | ConfigError | ResourceShortage

  datatype Result =
    | Scheduled(agent: AgentId, score: real, cacheNeeded: bool)
    | Waits
    | Refused(code: FailCode)
    | Error

  /** The answer together with every TryReserve that was issued, in order. */
  datatype Trace = Trace(result: Result, calls: seq<Call>)

  function EligibleOf(p: Policy, job: Job, vs: seq<View>): (r: seq<View>)
    ensures forall v :: v in r <==> v in vs && Eligible(p, job, v)
  {
    if vs == [] then []
    else EligibleOf(p, job, vs[..|vs| - 1]) + (if Eligible(p, job, vs[|vs| - 1]) then [vs[|vs| - 1]] else [])
  }

  predicate HasRegion(vs: seq<View>, region: string) {
    region == "" || exists v :: v in vs && v.rating.location == region
  }

  predicate OnlyRecoverable(p: Policy, job: Job, vs: seq<View>) {
    forall v :: v in vs ==> AllRecoverable(Exclusions(p, job, v))
  }

  /** classifyNoCandidate. */
  function Classify(p: Policy, job: Job, vs: seq<View>): Result {
    if vs == [] then Refused(NoNodeAgent)
    else if job.branch == "" then Refused(NoGameCache)
    else if p.regionForce && !HasRegion(vs, job.region) then Refused(RegionUnreachable)
    else if OnlyRecoverable(p, job, vs) then Waits
    else Refused(NoGameCache)
  }

  function StatusFor(v: View): Status {
    if v.cache.Warm() then PreparingBuild else CacheWarming
  }

  function AnswerFor(p: Policy, job: Job, el: seq<View>): Result
    requires el != []
  {
    var b := Best(p, job, el);
    Scheduled(b.agent, Score(p, job, FreqRange(Frequencies(el)), b), !b.cache.Warm())
  }

  /** A round either decides, or was lost to a race and the next one is tried. */
  datatype RoundEnd = Decided(result: Result, calls: seq<Call>) | LostRace(calls: seq<Call>)

  /** Filter and score of one round: the node to reserve on, or the answer when none is eligible. */
  datatype Pick = Chosen(agent: AgentId, status: Status, answer: Result) | NoneLeft(result: Result)

  function PickFrom(p: Policy, job: Job, vs: seq<View>): Pick {
    var el := EligibleOf(p, job, vs);
    if el == [] then NoneLeft(Classify(p, job, vs))
    else Chosen(Best(p, job, el).agent, StatusFor(Best(p, job, el)), AnswerFor(p, job, el))
  }

  function Conclude(pick: Pick, planOk: bool, reserve: ReserveOutcome): RoundEnd {
    if pick.NoneLeft? then Decided(pick.result, [])
    else if !planOk then LostRace([])
    else
      var calls := [Call(pick.agent, pick.status, reserve)];
      match reserve
      case Reserved => Decided(pick.answer, calls)
      case BrokenTx => Decided(Error, calls)
      case Conflict => LostRace(calls)
  }

  function OneRound(p: Policy, job: Job, r: Round): RoundEnd {
    if r.snapshot.None? then Decided(Error, [])
    else Conclude(PickFrom(p, job, r.snapshot.value), r.planOk, r.reserve)
  }

  /** The retry loop, given how each of its rounds ends. */
  function Loop(ends: seq<RoundEnd>): Trace {
    if ends == [] then Trace(Refused(ResourceShortage), [])
    else
      match ends[0]
      case Decided(result, calls) => Trace(result, calls)
      case LostRace(calls) =>
        var rest := Loop(ends[1..]);
        Trace(rest.result, calls + rest.calls)
  }

  function Ends(p: Policy, job: Job, rounds: seq<Round>): (ends: seq<RoundEnd>)
    ensures |ends| == |rounds|
  {
    if rounds == [] then [] else [OneRound(p, job, rounds[0])] + Ends(p, job, rounds[1..])
  }

  lemma {:induction false} EndsAt(p: Policy, job: Job, rounds: seq<Round>, k: nat)
    requires k < |rounds|
    ensures Ends(p, job, rounds)[k] == OneRound(p, job, rounds[k])
  {
    if k > 0 {
      EndsAt(p, job, rounds[1..], k - 1);
    }
  }

  function Attempts(p: Policy, job: Job, rounds: seq<Round>): Trace {
    Loop(Ends(p, job, rounds))
  }

  predicate CoresDeclaredWhole(job: Job) {
    !job.singleThreaded || (job.req.hard.cpu >= 1000 && job.req.hard.cpu % 1000 == 0)
  }

  function Decide(p: Policy, job: Job, rounds: seq<Round>): Trace {
    if !CoresDeclaredWhole(job) then Trace(Refused(ConfigError), [])
    else if job.branch != "" && job.buildId == 0 then Trace(Refused(NoGameCache), [])
    else Attempts(p, job, rounds)
  }

  // ------------------------------------------------------------------ what it means

  /** This round's reservation succeeded on the best node that passed every hard constraint. */
  ghost predicate PlacedIn(p: Policy, job: Job, r: Round, result: Result) {
    && r.snapshot.Some? && r.planOk && r.reserve == Reserved
    && EligibleOf(p, job, r.snapshot.value) != []
    && result == AnswerFor(p, job, EligibleOf(p, job, r.snapshot.value))
  }

  /** All calls but the last lost a race. */
  ghost predicate LostRacesFirst(calls: seq<Call>) {
    forall k :: 0 <= k < |calls| - 1 ==> calls[k].outcome == Conflict
  }

  /** One success, at the end, for the node and status the answer names. */
  predicate EndsReserved(t: Trace) {
    && t.result.Scheduled? && t.calls != []
    && t.calls[|t.calls| - 1]
       == Call(t.result.agent, if t.result.cacheNeeded then CacheWarming else PreparingBuild, Reserved)
  }

  predicate NothingReserved(calls: seq<Call>) {
    forall k :: 0 <= k < |calls| ==> calls[k].outcome != Reserved
  }

  /** The round found nodes but lost its ports or its reservation to somebody else. */
  ghost predicate Lost(p: Policy, job: Job, r: Round) {
    r.snapshot.Some? && EligibleOf(p, job, r.snapshot.value) != [] && (!r.planOk || r.reserve == Conflict)
  }

  /** How a round can end: at most one call, and only a scheduling round's call succeeded. */
  predicate WellEnded(e: RoundEnd) {
    && |e.calls| <= 1
    && (e.Decided? && e.result.Scheduled? ==> EndsReserved(Trace(e.result, e.calls)))
    && (e.Decided? && !e.result.Scheduled? ==> NothingReserved(e.calls))
    && (e.LostRace? ==> e.calls != [] ==> e.calls[0].outcome == Conflict)
  }

  /** A pick and its answer name the same node; an answer without one neither schedules nor reports a shortage. */
  predicate WellPicked(k: Pick) {
    match k
    case Chosen(agent, status, answer) =>
      answer.Scheduled? && answer.agent == agent && status == (if answer.cacheNeeded then CacheWarming else PreparingBuild)
    case NoneLeft(result) => !result.Scheduled? && result != Refused(ResourceShortage)
  }

  lemma ConcludeEndsWell(k: Pick, planOk: bool, reserve: ReserveOutcome)
    requires WellPicked(k)
    ensures var e := Conclude(k, planOk, reserve);
            && WellEnded(e)
            && (e.Decided? && e.result.Scheduled? <==> k.Chosen? && planOk && reserve == Reserved)
            && (e.Decided? && e.result.Scheduled? ==> e.result == k.answer)
            && (e.LostRace? <==> k.Chosen? && (!planOk || reserve == Conflict))
            && (e.Decided? ==> e.result != Refused(ResourceShortage))
  {
  }

  lemma PicksWell(p: Policy, job: Job, vs: seq<View>)
    ensures WellPicked(PickFrom(p, job, vs))
  {
  }

  lemma RoundEndsWell(p: Policy, job: Job, r: Round)
    ensures var e := OneRound(p, job, r);
            && WellEnded(e)
            && (e.Decided? && e.result.Scheduled? ==> PlacedIn(p, job, r, e.result))
            && (e.LostRace? <==> Lost(p, job, r))
            && (e.Decided? ==> e.result != Refused(ResourceShortage))
  {
    if r.snapshot.Some? {
      PicksWell(p, job, r.snapshot.value);
      ConcludeEndsWell(PickFrom(p, job, r.snapshot.value), r.planOk, r.reserve);
    }
  }

  lemma {:induction false} LoopShape(ends: seq<RoundEnd>)
    requires forall k :: 0 <= k < |ends| ==> WellEnded(ends[k])
    ensures var t := Loop(ends);
            && |t.calls| <= |ends| && LostRacesFirst(t.calls)
            && (if t.result.Scheduled? then EndsReserved(t) else NothingReserved(t.calls))
  {
    if ends != [] {
      assert WellEnded(ends[0]);
      LoopShape(ends[1..]);
    }
  }

  /** The round that decides, or the number of rounds if every one is lost. */
  function FirstDecided(ends: seq<RoundEnd>): (k: nat)
    ensures k <= |ends|
    ensures forall i :: 0 <= i < k ==> ends[i].LostRace?
    ensures k < |ends| ==> ends[k].Decided? && Loop(ends).result == ends[k].result
    ensures k == |ends| ==> Loop(ends).result == Refused(ResourceShortage)
  {
    if ends == [] || ends[0].Decided? then 0 else FirstDecided(ends[1..]) + 1
  }

  /** Exactly one reservation succeeds, in the last call, or none does; at most one call is made per round. */
  lemma OneReservationOrNone(p: Policy, job: Job, rounds: seq<Round>)
    ensures var t := Attempts(p, job, rounds);
            && |t.calls| <= |rounds| && LostRacesFirst(t.calls)
            && (if t.result.Scheduled? then EndsReserved(t) else NothingReserved(t.calls))
  {
    forall k | 0 <= k < |rounds|
      ensures WellEnded(Ends(p, job, rounds)[k])
    {
      EndsAt(p, job, rounds, k);
      RoundEndsWell(p, job, rounds[k]);
    }
    LoopShape(Ends(p, job, rounds));
  }

  ghost predicate PlacedInSome(p: Policy, job: Job, rounds: seq<Round>, result: Result) {
    exists k :: 0 <= k < |rounds| && PlacedIn(p, job, rounds[k], result)
  }

  /** Scheduled means placed, in some round, on that round's best eligible node. */
  lemma ScheduledMeansPlaced(p: Policy, job: Job, rounds: seq<Round>)
    ensures var t := Attempts(p, job, rounds);
            t.result.Scheduled? ==> PlacedInSome(p, job, rounds, t.result)
  {
    var k := FirstDecided(Ends(p, job, rounds));
    if k < |rounds| {
      EndsAt(p, job, rounds, k);
      RoundEndsWell(p, job, rounds[k]);
    }
  }

  /** The chosen node passed every hard constraint, no eligible node scores higher, and ties go to the least id. */
  lemma PlacedOnTheBest(p: Policy, job: Job, r: Round, result: Result)
    requires PlacedIn(p, job, r, result) && UniqueAgents(r.snapshot.value)
    ensures exists b ::
              && b in r.snapshot.value && b.agent == result.agent
              && Eligible(p, job, b)
              && ResourcesSatisfied(Allocatable(NodeLimits(b.spec, p.target), b.reserved), job.req)
              && (result.cacheNeeded <==> !b.cache.Warm())
              && forall v :: v in r.snapshot.value && Eligible(p, job, v) ==>
                   var range := FreqRange(Frequencies(EligibleOf(p, job, r.snapshot.value)));
                   && Score(p, job, range, v) <= result.score
                   && (Score(p, job, range, v) == result.score && v.agent != b.agent ==> TextOrder.Less(b.agent, v.agent))
  {
    var vs := r.snapshot.value;
    var el := EligibleOf(p, job, vs);
    var b := Best(p, job, el);
    EligibleKeepsUnique(p, job, vs);
    EligibleIff(p, job, b);
    forall v | v in vs && Eligible(p, job, v)
      ensures var range := FreqRange(Frequencies(el));
              && Score(p, job, range, v) <= result.score
              && (Score(p, job, range, v) == result.score && v.agent != b.agent ==> TextOrder.Less(b.agent, v.agent))
    {
      BestIsUnbeaten(p, job, el, v);
    }
  }

  lemma {:induction false} EligibleKeepsUnique(p: Policy, job: Job, vs: seq<View>)
    requires UniqueAgents(vs)
    ensures UniqueAgents(EligibleOf(p, job, vs))
  {
    if vs != [] {
      var n := |vs| - 1;
      EligibleKeepsUnique(p, job, vs[..n]);
      var el := EligibleOf(p, job, vs[..n]);
      forall i | 0 <= i < |el|
        ensures el[i].agent != vs[n].agent
      {
        assert el[i] in vs[..n];
      }
    }
  }

  /** The nodes that could take the instance once capacity frees up are all that is in the way. */
  ghost predicate Waitable(p: Policy, job: Job, vs: seq<View>) {
    && vs != [] && job.branch != ""
    && (p.regionForce ==> HasRegion(vs, job.region))
    && forall v :: v in vs ==> !Structural(v)
  }

  lemma QueuedIffWaitable(p: Policy, job: Job, vs: seq<View>)
    ensures Classify(p, job, vs) == Waits <==> Waitable(p, job, vs)
  {
    if job.branch != "" {
      forall v | v in vs
        ensures AllRecoverable(Exclusions(p, job, v)) <==> !Structural(v)
      {
        RecoverableIff(p, job, v);
      }
    }
  }

  /** The round finds no node, but one is worth waiting for. */
  ghost predicate WaitsAt(p: Policy, job: Job, r: Round) {
    r.snapshot.Some? && EligibleOf(p, job, r.snapshot.value) == [] && Waitable(p, job, r.snapshot.value)
  }

  lemma RoundWaitsIff(p: Policy, job: Job, r: Round)
    ensures var e := OneRound(p, job, r);
            e.Decided? && e.result == Waits <==> WaitsAt(p, job, r)
  {
    if r.snapshot.Some? {
      QueuedIffWaitable(p, job, r.snapshot.value);
    }
  }

  ghost predicate QueuedAt(p: Policy, job: Job, rounds: seq<Round>, k: int) {
    0 <= k < |rounds| && WaitsAt(p, job, rounds[k]) && forall i :: 0 <= i < k ==> Lost(p, job, rounds[i])
  }

  /** The instance is queued exactly when, after lost rounds only, a round finds no node but one worth waiting for. */
  lemma QueuedIff(p: Policy, job: Job, rounds: seq<Round>)
    ensures Attempts(p, job, rounds).result == Waits <==> exists k :: QueuedAt(p, job, rounds, k)
  {
    var ends := Ends(p, job, rounds);
    var k := FirstDecided(ends);
    forall i | 0 <= i < |rounds|
      ensures ends[i].LostRace? <==> Lost(p, job, rounds[i])
      ensures ends[i].Decided? && ends[i].result == Waits <==> WaitsAt(p, job, rounds[i])
    {
      EndsAt(p, job, rounds, i);
      RoundEndsWell(p, job, rounds[i]);
      RoundWaitsIff(p, job, rounds[i]);
    }
    if Loop(ends).result == Waits {
      assert QueuedAt(p, job, rounds, k);
    }
    if j :| QueuedAt(p, job, rounds, j) {
      assert ends[j].Decided?;
      assert j == k;
    }
  }

  /** The first round that is not a lost race ends in the answer. */
  ghost predicate EndsAtRound(p: Policy, job: Job, rounds: seq<Round>, k: int) {
    0 <= k < |rounds| && !Lost(p, job, rounds[k]) && forall i :: 0 <= i < k ==> Lost(p, job, rounds[i])
  }

  /** The round breaks off: its nodes could not be read, or its reservation failed for another reason than a lost race. */
  ghost predicate BreaksOff(p: Policy, job: Job, r: Round) {
    r.snapshot.None? || (EligibleOf(p, job, r.snapshot.value) != [] && r.planOk && r.reserve == BrokenTx)
  }

  /**
   * What that round's answer is: an error if it breaks off; scheduled if its reservation went
   * through; otherwise it had no eligible node, and the instance waits or is refused.
   */
  lemma AnswerOfLastRound(p: Policy, job: Job, rounds: seq<Round>, k: int)
    requires EndsAtRound(p, job, rounds, k)
    ensures var r, answer := rounds[k], Attempts(p, job, rounds).result;
            && (answer == Error <==> BreaksOff(p, job, r))
            && (answer.Scheduled? <==> r.snapshot.Some? && EligibleOf(p, job, r.snapshot.value) != [] && r.planOk && r.reserve == Reserved)
            && (answer == Waits || answer.Refused? <==> r.snapshot.Some? && EligibleOf(p, job, r.snapshot.value) == [])
            && (answer == Waits || answer.Refused? ==> answer == Classify(p, job, r.snapshot.value))
  {
    var ends := Ends(p, job, rounds);
    forall i | 0 <= i < |rounds|
      ensures ends[i] == OneRound(p, job, rounds[i]) && (ends[i].LostRace? <==> Lost(p, job, rounds[i]))
    {
      EndsAt(p, job, rounds, i);
      RoundEndsWell(p, job, rounds[i]);
    }
    assert FirstDecided(ends) == k;
    RoundAnswer(p, job, rounds[k]);
  }

  lemma RoundAnswer(p: Policy, job: Job, r: Round)
    requires !Lost(p, job, r)
    ensures var e := OneRound(p, job, r);
            && e.Decided?
            && (e.result == Error <==> BreaksOff(p, job, r))
            && (e.result.Scheduled? <==> r.snapshot.Some? && EligibleOf(p, job, r.snapshot.value) != [] && r.planOk && r.reserve == Reserved)
            && (e.result == Waits || e.result.Refused? <==> r.snapshot.Some? && EligibleOf(p, job, r.snapshot.value) == [])
            && (e.result == Waits || e.result.Refused? ==> e.result == Classify(p, job, r.snapshot.value))
  {
    if r.snapshot.Some? {
      PickAnswers(p, job, r.snapshot.value);
      ConcludedAnswer(PickFrom(p, job, r.snapshot.value), r.planOk, r.reserve);
    }
  }

  lemma PickAnswers(p: Policy, job: Job, vs: seq<View>)
    ensures var pick := PickFrom(p, job, vs);
            && (pick.NoneLeft? <==> EligibleOf(p, job, vs) == [])
            && (pick.NoneLeft? ==> pick.result == Classify(p, job, vs) && (pick.result == Waits || pick.result.Refused?))
            && (pick.Chosen? ==> pick.answer.Scheduled?)
  {
  }

  lemma ConcludedAnswer(pick: Pick, planOk: bool, reserve: ReserveOutcome)
    requires if pick.Chosen? then pick.answer.Scheduled? else pick.result == Waits || pick.result.Refused?
    requires !(pick.Chosen? && (!planOk || reserve == Conflict))
    ensures var e := Conclude(pick, planOk, reserve);
            && e.Decided?
            && (e.result == Error <==> pick.Chosen? && planOk && reserve == BrokenTx)
            && (e.result.Scheduled? <==> pick.Chosen? && planOk && reserve == Reserved)
            && (e.result == Waits || e.result.Refused? <==> pick.NoneLeft?)
            && (pick.NoneLeft? ==> e.result == pick.result)
  {
  }

  /** Which refusal: no agents at all; a forced region without any; else no branch, or a node that waiting does not repair. */
  lemma RefusalCodes(p: Policy, job: Job, vs: seq<View>)
    ensures var outside := p.regionForce && job.region != "" && forall v :: v in vs ==> v.rating.location != job.region;
            && (Classify(p, job, vs) == Refused(NoNodeAgent) <==> vs == [])
            && (Classify(p, job, vs) == Refused(RegionUnreachable) <==> vs != [] && job.branch != "" && outside)
            && (Classify(p, job, vs) == Refused(NoGameCache) <==>
                  vs != [] && (job.branch == "" || (!outside && exists v :: v in vs && Structural(v))))
            && !Classify(p, job, vs).Scheduled? && Classify(p, job, vs) != Error
  {
    QueuedIffWaitable(p, job, vs);
  }

  /** Two refusals come before any attempt: cores not declared in whole numbers for a single-threaded game, and a branch without a build. */
  lemma RefusedUnattempted(p: Policy, job: Job, rounds: seq<Round>)
    ensures var t := Decide(p, job, rounds);
            var fraction := job.singleThreaded && (job.req.hard.cpu < 1000 || job.req.hard.cpu % 1000 != 0);
            if fraction then t == Trace(Refused(ConfigError), [])
            else if job.branch != "" && job.buildId == 0 then t == Trace(Refused(NoGameCache), [])
            else t == Attempts(p, job, rounds)
  {
  }

  /** Only an unbroken series of lost races ends in the resource-shortage failure. */
  lemma GivesUpIffAllLost(p: Policy, job: Job, rounds: seq<Round>)
    ensures Attempts(p, job, rounds).result == Refused(ResourceShortage)
            <==> forall k :: 0 <= k < |rounds| ==> Lost(p, job, rounds[k])
  {
    var ends := Ends(p, job, rounds);
    forall i | 0 <= i < |rounds|
      ensures ends[i].LostRace? <==> Lost(p, job, rounds[i])
      ensures ends[i].Decided? ==> ends[i].result != Refused(ResourceShortage)
    {
      EndsAt(p, job, rounds, i);
      RoundEndsWell(p, job, rounds[i]);
    }
    var k := FirstDecided(ends);
    if k < |rounds| {
      assert !Lost(p, job, rounds[k]);
    }
  }

  // ---------------------------------------------------------------- order of nodes

  lemma CountLast(s: seq<View>, x: View, v: View)
    ensures multiset(s + [x])[v] == multiset(s)[v] + if v == x then 1 else 0
  {
  }

  lemma {:induction false} EligibleCount(p: Policy, job: Job, vs: seq<View>, v: View)
    ensures multiset(EligibleOf(p, job, vs))[v] == if Eligible(p, job, v) then multiset(vs)[v] else 0
  {
    if vs != [] {
      var init, last := vs[..|vs| - 1], vs[|vs| - 1];
      EligibleCount(p, job, init, v);
      OneCountMore(vs, EligibleOf(p, job, init), Eligible(p, job, last), Eligible(p, job, v), v);
    }
  }

  /** The last node counts in both, or in the whole list only. */
  lemma OneCountMore(vs: seq<View>, el: seq<View>, fits: bool, wanted: bool, v: View)
    requires vs != [] && multiset(el)[v] == (if wanted then multiset(vs[..|vs| - 1])[v] else 0)
    requires vs[|vs| - 1] == v ==> fits == wanted
    ensures multiset(el + (if fits then [vs[|vs| - 1]] else []))[v] == if wanted then multiset(vs)[v] else 0
  {
    var last := vs[|vs| - 1];
    assert vs == vs[..|vs| - 1] + [last];
    CountLast(vs[..|vs| - 1], last, v);
    CountLast(el, last, v);
  }

  lemma EligibleReorder(p: Policy, job: Job, vs: seq<View>, us: seq<View>)
    requires SameNodes(vs, us)
    ensures SameNodes(EligibleOf(p, job, vs), EligibleOf(p, job, us))
  {
    forall v
      ensures multiset(EligibleOf(p, job, vs))[v] == multiset(EligibleOf(p, job, us))[v]
    {
      EligibleCount(p, job, vs, v);
      EligibleCount(p, job, us, v);
    }
  }

  /** The same observations, with the nodes possibly listed in another order. */
  ghost predicate SameRound(r: Round, t: Round) {
    && r.planOk == t.planOk && r.reserve == t.reserve && r.snapshot.Some? == t.snapshot.Some?
    && (r.snapshot.Some? ==> SameNodes(r.snapshot.value, t.snapshot.value))
  }

  /** Node ids are a key, frequencies are not negative, and they are settled among the eligible nodes. */
  ghost predicate OrderFree(p: Policy, job: Job, vs: seq<View>) {
    var el := EligibleOf(p, job, vs);
    UniqueAgents(vs) && Measured(Frequencies(el)) && FrequencySettled(p, job, el)
  }

  lemma ClassifyIgnoresOrder(p: Policy, job: Job, vs: seq<View>, us: seq<View>)
    requires SameNodes(vs, us)
    ensures Classify(p, job, vs) == Classify(p, job, us)
  {
    SameNodesBasics(vs, us);
    if OnlyRecoverable(p, job, vs) || OnlyRecoverable(p, job, us) {
      assert OnlyRecoverable(p, job, vs) == OnlyRecoverable(p, job, us);
    }
  }

  lemma AnswerIgnoresOrder(p: Policy, job: Job, vs: seq<View>, us: seq<View>)
    requires vs != [] && SameNodes(vs, us) && UniqueAgents(vs)
    requires Measured(Frequencies(vs)) && FrequencySettled(p, job, vs)
    ensures us != [] && Best(p, job, us) == Best(p, job, vs) && AnswerFor(p, job, us) == AnswerFor(p, job, vs)
  {
    BestIgnoresOrder(p, job, vs, us);
    ScoreUnderReorder(p, job, vs, us, Best(p, job, vs));
  }

  lemma PickIgnoresOrder(p: Policy, job: Job, vs: seq<View>, us: seq<View>)
    requires SameNodes(vs, us) && OrderFree(p, job, vs)
    ensures PickFrom(p, job, vs) == PickFrom(p, job, us)
  {
    var el, fl := EligibleOf(p, job, vs), EligibleOf(p, job, us);
    EligibleReorder(p, job, vs, us);
    SameNodesBasics(el, fl);
    if el == [] {
      ClassifyIgnoresOrder(p, job, vs, us);
    } else {
      EligibleKeepsUnique(p, job, vs);
      AnswerIgnoresOrder(p, job, el, fl);
    }
  }

  lemma RoundIgnoresOrder(p: Policy, job: Job, r: Round, t: Round)
    requires SameRound(r, t) && (r.snapshot.Some? ==> OrderFree(p, job, r.snapshot.value))
    ensures OneRound(p, job, r) == OneRound(p, job, t)
  {
    if r.snapshot.Some? {
      PickIgnoresOrder(p, job, r.snapshot.value, t.snapshot.value);
    }
  }

  /** The whole decision, every reserve call included, is independent of the order nodes are listed in. */
  lemma DecisionIgnoresOrder(p: Policy, job: Job, rs: seq<Round>, ts: seq<Round>)
    requires |rs| == |ts|
    requires forall k :: 0 <= k < |rs| ==> SameRound(rs[k], ts[k])
    requires forall k :: 0 <= k < |rs| && rs[k].snapshot.Some? ==> OrderFree(p, job, rs[k].snapshot.value)
    ensures Attempts(p, job, rs) == Attempts(p, job, ts)
  {
    forall k | 0 <= k < |rs|
      ensures Ends(p, job, rs)[k] == Ends(p, job, ts)[k]
    {
      RoundIgnoresOrder(p, job, rs[k], ts[k]);
      EndsAt(p, job, rs, k);
      EndsAt(p, job, ts, k);
    }
    assert Ends(p, job, rs) == Ends(p, job, ts);
  }

  // ------------------------------------------ when it depends on the order at all

  /** The decision without the score that is reported with it. */
  function Unscored(t: Trace): Trace {
    if t.result.Scheduled? then t.(result := t.result.(score := 0.0)) else t
  }

  function UnscoredEnd(e: RoundEnd): RoundEnd {
    if e.Decided? && e.result.Scheduled? then e.(result := e.result.(score := 0.0)) else e
  }

  /** The same rounds, the nodes of each possibly listed in another order. */
  ghost predicate SameRounds(rs: seq<Round>, ts: seq<Round>) {
    |rs| == |ts| && forall k :: 0 <= k < |rs| ==> SameRound(rs[k], ts[k])
  }

  /** Nodes, statuses, reserve calls and answer are the same for every listing order. */
  ghost predicate DecisionOrderFree(p: Policy, job: Job, rs: seq<Round>) {
    forall ts :: SameRounds(rs, ts) ==> Unscored(Attempts(p, job, ts)) == Unscored(Attempts(p, job, rs))
  }

  /** The decision gets to round k and makes a reserve call there. */
  ghost predicate CallsAt(p: Policy, job: Job, rs: seq<Round>, k: int) {
    && 0 <= k < |rs| && (forall i :: 0 <= i < k ==> Lost(p, job, rs[i]))
    && rs[k].snapshot.Some? && EligibleOf(p, job, rs[k].snapshot.value) != [] && rs[k].planOk
  }

  lemma {:induction false} LoopsAgree(es: seq<RoundEnd>, fs: seq<RoundEnd>)
    requires |es| == |fs|
    requires forall k :: 0 <= k < |es| && (forall i :: 0 <= i < k ==> es[i].LostRace?) ==> UnscoredEnd(es[k]) == UnscoredEnd(fs[k])
    ensures Unscored(Loop(es)) == Unscored(Loop(fs))
  {
    if es != [] {
      assert UnscoredEnd(es[0]) == UnscoredEnd(fs[0]);
      if es[0].LostRace? {
        forall k | 0 <= k < |es[1..]| && (forall i :: 0 <= i < k ==> es[1..][i].LostRace?)
          ensures UnscoredEnd(es[1..][k]) == UnscoredEnd(fs[1..][k])
        {
          assert forall i :: 0 < i < k + 1 ==> es[i] == es[1..][i - 1];
          assert UnscoredEnd(es[k + 1]) == UnscoredEnd(fs[k + 1]);
        }
        LoopsAgree(es[1..], fs[1..]);
      }
    }
  }

  /** A call that differs in a round both loops get to is a difference of the decisions. */
  lemma {:induction false} LoopCallsDiffer(es: seq<RoundEnd>, fs: seq<RoundEnd>, k: nat)
    requires |es| == |fs| && k < |es| && es[..k] == fs[..k] && forall i :: 0 <= i < k ==> es[i].LostRace?
    requires |es[k].calls| == |fs[k].calls| == 1 && es[k].calls != fs[k].calls
    ensures Loop(es).calls != Loop(fs).calls
    decreases k
  {
    if k == 0 {
      assert Loop(es).calls[0] == es[0].calls[0] && Loop(fs).calls[0] == fs[0].calls[0];
    } else {
      assert es[0] == es[..k][0] == fs[0];
      assert es[1..][..k - 1] == es[..k][1..] == fs[1..][..k - 1];
      LoopCallsDiffer(es[1..], fs[1..], k - 1);
      LostRaceFirst(es);
      LostRaceFirst(fs);
    }
  }

  /** What a lost first round adds can be taken off again. */
  lemma LostRaceFirst(es: seq<RoundEnd>)
    requires es != [] && es[0].LostRace?
    ensures Loop(es).result == Loop(es[1..]).result && Loop(es).calls == es[0].calls + Loop(es[1..]).calls
    ensures Loop(es).calls[|es[0].calls|..] == Loop(es[1..]).calls
  {
  }

  /** The same node and answer up to the score, or the same refusal; a pick that is not reserved does not matter. */
  predicate SamePick(a: Pick, b: Pick, planOk: bool) {
    if a.NoneLeft? then a == b
    else
      b.Chosen? && (planOk ==> a.agent == b.agent && a.status == b.status && a.answer.Scheduled? && b.answer.Scheduled?
                               && a.answer.(score := 0.0) == b.answer.(score := 0.0))
  }

  lemma ConcludeUnscored(a: Pick, b: Pick, planOk: bool, reserve: ReserveOutcome)
    requires SamePick(a, b, planOk)
    ensures UnscoredEnd(Conclude(a, planOk, reserve)) == UnscoredEnd(Conclude(b, planOk, reserve))
  {
  }

  lemma PickUnscored(p: Policy, job: Job, vs: seq<View>, us: seq<View>, planOk: bool)
    requires SameNodes(vs, us)
    requires EligibleOf(p, job, vs) != [] && planOk ==> ChoiceIgnoresOrder(p, job, EligibleOf(p, job, vs))
    ensures SamePick(PickFrom(p, job, vs), PickFrom(p, job, us), planOk)
  {
    var el, fl := EligibleOf(p, job, vs), EligibleOf(p, job, us);
    EligibleReorder(p, job, vs, us);
    SameNodesBasics(el, fl);
    if el == [] {
      ClassifyIgnoresOrder(p, job, vs, us);
    } else if planOk {
      assert Best(p, job, fl) == Best(p, job, el);
    }
  }

  /** A round that makes no call, or whose choice does not depend on the order, ends the same up to the score. */
  lemma RoundUnscored(p: Policy, job: Job, r: Round, t: Round)
    requires SameRound(r, t)
    requires r.snapshot.Some? && EligibleOf(p, job, r.snapshot.value) != [] && r.planOk
             ==> ChoiceIgnoresOrder(p, job, EligibleOf(p, job, r.snapshot.value))
    ensures UnscoredEnd(OneRound(p, job, r)) == UnscoredEnd(OneRound(p, job, t))
  {
    if r.snapshot.Some? {
      PickUnscored(p, job, r.snapshot.value, t.snapshot.value, r.planOk);
      ConcludeUnscored(PickFrom(p, job, r.snapshot.value), PickFrom(p, job, t.snapshot.value), r.planOk, r.reserve);
    }
  }

  function IneligibleOf(p: Policy, job: Job, vs: seq<View>): (r: seq<View>)
    ensures forall v :: v in r ==> !Eligible(p, job, v)
  {
    if vs == [] then []
    else IneligibleOf(p, job, vs[..|vs| - 1]) + (if Eligible(p, job, vs[|vs| - 1]) then [] else [vs[|vs| - 1]])
  }

  lemma {:induction false} EligibleAndNot(p: Policy, job: Job, vs: seq<View>)
    ensures multiset(vs) == multiset(EligibleOf(p, job, vs)) + multiset(IneligibleOf(p, job, vs))
  {
    if vs != [] {
      var init, last := vs[..|vs| - 1], vs[|vs| - 1];
      EligibleAndNot(p, job, init);
      OneViewMore(vs, EligibleOf(p, job, init), IneligibleOf(p, job, init), Eligible(p, job, last));
    }
  }

  lemma OneViewMore(vs: seq<View>, el: seq<View>, rest: seq<View>, fits: bool)
    requires vs != [] && multiset(vs[..|vs| - 1]) == multiset(el) + multiset(rest)
    ensures var last := vs[|vs| - 1];
            multiset(vs) == multiset(el + (if fits then [last] else [])) + multiset(rest + (if fits then [] else [last]))
  {
    assert vs == vs[..|vs| - 1] + [vs[|vs| - 1]];
  }

  lemma {:induction false} EligibleOnly(p: Policy, job: Job, us: seq<View>)
    requires forall v :: v in us ==> Eligible(p, job, v)
    ensures EligibleOf(p, job, us) == us
  {
    if us != [] {
      var init, last := us[..|us| - 1], us[|us| - 1];
      assert last in us && us == init + [last];
      assert Eligible(p, job, last);
      EligibleOnly(p, job, init);
    }
  }

  lemma {:induction false} EligibleFirst(p: Policy, job: Job, us: seq<View>, ws: seq<View>)
    requires forall v :: v in us ==> Eligible(p, job, v)
    requires forall w :: w in ws ==> !Eligible(p, job, w)
    ensures EligibleOf(p, job, us + ws) == us
    decreases |ws|
  {
    if ws == [] {
      assert us + ws == us;
      EligibleOnly(p, job, us);
    } else {
      assert (us + ws)[..|us + ws| - 1] == us + ws[..|ws| - 1];
      assert (us + ws)[|us + ws| - 1] == ws[|ws| - 1];
      EligibleFirst(p, job, us, ws[..|ws| - 1]);
    }
  }

  /** Every order of the eligible nodes is the order of some listing of all nodes. */
  lemma RelistEligible(p: Policy, job: Job, vs: seq<View>, us: seq<View>) returns (ws: seq<View>)
    requires SameNodes(EligibleOf(p, job, vs), us)
    ensures SameNodes(vs, ws) && EligibleOf(p, job, ws) == us
  {
    SameNodesBasics(EligibleOf(p, job, vs), us);
    EligibleAndNot(p, job, vs);
    EligibleFirst(p, job, us, IneligibleOf(p, job, vs));
    ws := us + IneligibleOf(p, job, vs);
  }

  lemma OtherBestOtherAgent(p: Policy, job: Job, vs: seq<View>, us: seq<View>)
    requires UniqueAgents(vs) && SameNodes(EligibleOf(p, job, vs), us) && us != [] && EligibleOf(p, job, vs) != []
    requires Best(p, job, us) != Best(p, job, EligibleOf(p, job, vs))
    ensures Best(p, job, us).agent != Best(p, job, EligibleOf(p, job, vs)).agent
  {
    SameNodesBasics(EligibleOf(p, job, vs), us);
    AgentsTellApart(vs, Best(p, job, us), Best(p, job, EligibleOf(p, job, vs)));
  }

  lemma AgentsTellApart(vs: seq<View>, a: View, b: View)
    requires UniqueAgents(vs) && a in vs && b in vs && a != b
    ensures a.agent != b.agent
  {
    var i :| 0 <= i < |vs| && vs[i] == a;
    var j :| 0 <= j < |vs| && vs[j] == b;
  }

  /** The round makes a call, and another listing of its eligible nodes has another best node. */
  ghost predicate Swayed(p: Policy, job: Job, r: Round, us: seq<View>) {
    && r.snapshot.Some? && EligibleOf(p, job, r.snapshot.value) != [] && r.planOk && UniqueAgents(r.snapshot.value)
    && SameNodes(EligibleOf(p, job, r.snapshot.value), us) && us != []
    && Best(p, job, us) != Best(p, job, EligibleOf(p, job, r.snapshot.value))
  }

  /** A round whose choice depends on the order can be read so that it calls another node. */
  lemma OtherReading(p: Policy, job: Job, r: Round, us: seq<View>) returns (t: Round)
    requires Swayed(p, job, r, us)
    ensures SameRound(r, t) && CallsOther(OneRound(p, job, r), OneRound(p, job, t))
  {
    var ws := RelistEligible(p, job, r.snapshot.value, us);
    t := r.(snapshot := Some(ws));
    OtherBestOtherAgent(p, job, r.snapshot.value, us);
    CallOfRound(p, job, r);
    CallOfRound(p, job, t);
  }

  /** Both ends made one call, but not the same. */
  predicate CallsOther(e: RoundEnd, f: RoundEnd) {
    |e.calls| == |f.calls| == 1 && e.calls != f.calls
  }

  ghost predicate LostUntil(p: Policy, job: Job, rs: seq<Round>, k: int) {
    0 <= k < |rs| && forall i :: 0 <= i < k ==> Lost(p, job, rs[i])
  }

  lemma EndsUpdated(p: Policy, job: Job, rs: seq<Round>, k: nat, t: Round)
    requires k < |rs|
    ensures Ends(p, job, rs[k := t]) == Ends(p, job, rs)[k := OneRound(p, job, t)]
  {
    var changed, before := Ends(p, job, rs[k := t]), Ends(p, job, rs);
    forall i: nat | i < |rs|
      ensures changed[i] == before[k := OneRound(p, job, t)][i]
    {
      EndsAt(p, job, rs[k := t], i);
      EndsAt(p, job, rs, i);
    }
  }

  lemma LostUntilEnds(p: Policy, job: Job, rs: seq<Round>, k: nat)
    requires LostUntil(p, job, rs, k)
    ensures forall i :: 0 <= i < k ==> Ends(p, job, rs)[i].LostRace?
    ensures Ends(p, job, rs)[k] == OneRound(p, job, rs[k])
  {
    forall i | 0 <= i < k
      ensures Ends(p, job, rs)[i].LostRace?
    {
      EndsAt(p, job, rs, i);
      RoundEndsWell(p, job, rs[i]);
    }
    EndsAt(p, job, rs, k);
  }

  lemma OneEndChanged(es: seq<RoundEnd>, k: nat, f: RoundEnd)
    requires k < |es| && CallsOther(es[k], f) && forall i :: 0 <= i < k ==> es[i].LostRace?
    ensures Loop(es[k := f]).calls != Loop(es).calls
  {
    var fs := es[k := f];
    assert es[..k] == fs[..k];
    LoopCallsDiffer(es, fs, k);
  }

  lemma CallsDiffer(p: Policy, job: Job, rs: seq<Round>, k: nat, t: Round)
    requires LostUntil(p, job, rs, k) && CallsOther(OneRound(p, job, rs[k]), OneRound(p, job, t))
    ensures Attempts(p, job, rs[k := t]).calls != Attempts(p, job, rs).calls
  {
    LostUntilEnds(p, job, rs, k);
    EndsUpdated(p, job, rs, k, t);
    OneEndChanged(Ends(p, job, rs), k, OneRound(p, job, t));
  }

  lemma NotOrderFree(p: Policy, job: Job, rs: seq<Round>, ts: seq<Round>)
    requires SameRounds(rs, ts) && Attempts(p, job, ts).calls != Attempts(p, job, rs).calls
    ensures !DecisionOrderFree(p, job, rs)
  {
    assert Unscored(Attempts(p, job, ts)).calls != Unscored(Attempts(p, job, rs)).calls;
  }

  /** Where the choice of a reached round depends on the order, so does the decision. */
  lemma ChoiceMatters(p: Policy, job: Job, rs: seq<Round>, k: nat, us: seq<View>)
    requires LostUntil(p, job, rs, k) && Swayed(p, job, rs[k], us)
    ensures !DecisionOrderFree(p, job, rs)
  {
    var t := OtherReading(p, job, rs[k], us);
    SameButOne(rs, k, t);
    CallsDiffer(p, job, rs, k, t);
    NotOrderFree(p, job, rs, rs[k := t]);
  }

  lemma SameButOne(rs: seq<Round>, k: nat, t: Round)
    requires k < |rs| && SameRound(rs[k], t)
    ensures SameRounds(rs, rs[k := t])
  {
  }

  lemma CallOfRound(p: Policy, job: Job, r: Round)
    requires r.snapshot.Some? && EligibleOf(p, job, r.snapshot.value) != [] && r.planOk
    ensures var b := Best(p, job, EligibleOf(p, job, r.snapshot.value)); OneRound(p, job, r).calls == [Call(b.agent, StatusFor(b), r.reserve)]
  {
    CallOfPick(PickFrom(p, job, r.snapshot.value), r.reserve);
  }

  lemma CallOfPick(pick: Pick, reserve: ReserveOutcome)
    requires pick.Chosen?
    ensures Conclude(pick, true, reserve).calls == [Call(pick.agent, pick.status, reserve)]
  {
  }

  /**
   * Nodes, reserve calls and answer of the whole decision do not depend on the order nodes are
   * listed in, if and only if in every round it gets to and makes a call in, frequencies are settled
   * among the eligible nodes or one of them is the best whichever frequency is taken for the lowest.
   */
  lemma DecisionIgnoresOrderIff(p: Policy, job: Job, rs: seq<Round>)
    requires forall k :: 0 <= k < |rs| && rs[k].snapshot.Some? ==>
               UniqueAgents(rs[k].snapshot.value) && Measured(Frequencies(EligibleOf(p, job, rs[k].snapshot.value)))
    ensures DecisionOrderFree(p, job, rs)
            <==> forall k :: CallsAt(p, job, rs, k) ==>
                   var el := EligibleOf(p, job, rs[k].snapshot.value);
                   FrequencySettled(p, job, el) || OneTop(p, job, el)
  {
    forall k | CallsAt(p, job, rs, k)
      ensures var el := EligibleOf(p, job, rs[k].snapshot.value);
              ChoiceIgnoresOrder(p, job, el) <==> FrequencySettled(p, job, el) || OneTop(p, job, el)
    {
      EligibleKeepsUnique(p, job, rs[k].snapshot.value);
      ChoiceIgnoresOrderIff(p, job, EligibleOf(p, job, rs[k].snapshot.value));
    }
    if k: nat :| CallsAt(p, job, rs, k) && !ChoiceIgnoresOrder(p, job, EligibleOf(p, job, rs[k].snapshot.value)) {
      var el := EligibleOf(p, job, rs[k].snapshot.value);
      var us :| SameNodes(el, us) && us != [] && Best(p, job, us) != Best(p, job, el);
      ChoiceMatters(p, job, rs, k, us);
    } else {
      forall ts | SameRounds(rs, ts)
        ensures Unscored(Attempts(p, job, ts)) == Unscored(Attempts(p, job, rs))
      {
        SettledRoundsAgree(p, job, rs, ts);
      }
    }
  }

  lemma ReachedRoundAgrees(p: Policy, job: Job, rs: seq<Round>, ts: seq<Round>, k: nat)
    requires SameRounds(rs, ts) && k < |rs| && forall i :: 0 <= i < k ==> Ends(p, job, rs)[i].LostRace?
    requires CallsAt(p, job, rs, k) ==> ChoiceIgnoresOrder(p, job, EligibleOf(p, job, rs[k].snapshot.value))
    ensures UnscoredEnd(Ends(p, job, rs)[k]) == UnscoredEnd(Ends(p, job, ts)[k])
  {
    forall i | 0 <= i < k
      ensures Lost(p, job, rs[i])
    {
      EndsAt(p, job, rs, i);
      RoundEndsWell(p, job, rs[i]);
    }
    EndsAt(p, job, rs, k);
    EndsAt(p, job, ts, k);
    RoundUnscored(p, job, rs[k], ts[k]);
  }

  lemma SettledRoundsAgree(p: Policy, job: Job, rs: seq<Round>, ts: seq<Round>)
    requires SameRounds(rs, ts)
    requires forall k :: CallsAt(p, job, rs, k) ==> ChoiceIgnoresOrder(p, job, EligibleOf(p, job, rs[k].snapshot.value))
    ensures Unscored(Attempts(p, job, ts)) == Unscored(Attempts(p, job, rs))
  {
    var es, fs := Ends(p, job, rs), Ends(p, job, ts);
    forall k | 0 <= k < |es| && forall i :: 0 <= i < k ==> es[i].LostRace?
      ensures UnscoredEnd(es[k]) == UnscoredEnd(fs[k])
    {
      ReachedRoundAgrees(p, job, rs, ts, k);
    }
    LoopsAgree(es, fs);
  }

  /** A healthy node that differs from others only in id, location and core frequency. */
  function Sample(agent: AgentId, location: string, frequency: real, spec: NodeSpec, reserved: Vec): View {
    View(agent, true, Healthy, Some(0), spec, reserved, true, CacheState(true, false), 0, Normal,
         Rating(location, 0, 0.0, 0.0, frequency))
  }

  /** Scores under the two ranges that knowing or ignoring an unknown frequency gives. */
  lemma FrequencyScores(p: Policy, job: Job, v: View)
    requires p.weights == Weights(0.7, 0.0, 0.0, 0.0, 0.0, 0.0, 1.0, 0.0) && job.singleThreaded && job.region == "eu"
    ensures Score(p, job, Range(1.0, 2.0), v) == (if v.rating.location == "eu" then 0.7 else 0.0) + v.rating.coreFrequency - 1.0
    ensures Score(p, job, Range(0.0, 2.0), v) == (if v.rating.location == "eu" then 0.7 else 0.0) + v.rating.coreFrequency / 2.0
  {
    var w := p.weights;
    assert w.region == 0.7 && w.bandwidth == 0.0 && w.locality == 0.0 && w.history == 0.0;
    assert w.balance == 0.0 && w.degraded == 0.0 && w.frequency == 1.0 && w.cache == 0.0;
    ScaledByFrequency(PartsOf(InputOf(p, job, Range(1.0, 2.0), v)), w);
    ScaledByFrequency(PartsOf(InputOf(p, job, Range(0.0, 2.0), v)), w);
  }

  lemma ScaledByFrequency(parts: Parts, w: Weights)
    requires w == Weights(0.7, 0.0, 0.0, 0.0, 0.0, 0.0, 1.0, 0.0)
    ensures Weighted(parts, w) == 0.7 * parts.region + parts.frequency
  {
    assert Scaled(parts, w) == Parts(0.7 * parts.region, 0.0, 0.0, 0.0, 0.0, 0.0, parts.frequency, 0.0);
  }

  /**
   * A node of unknown frequency decides by its place in the list: listed first it is ignored and
   * the fast node wins, listed last it stretches the range and the node in the region wins.
   */
  lemma UnknownFrequencyDecidesByPosition(p: Policy, job: Job, spec: NodeSpec, reserved: Vec)
    requires p.weights == Weights(0.7, 0.0, 0.0, 0.0, 0.0, 0.0, 1.0, 0.0)
    requires job.singleThreaded && job.region == "eu"
    ensures var unknown, near, fast :=
              Sample("a", "us", 0.0, spec, reserved), Sample("b", "eu", 1.0, spec, reserved), Sample("c", "us", 2.0, spec, reserved);
            Best(p, job, [unknown, near, fast]) == fast && Best(p, job, [near, fast, unknown]) == near
  {
    UnknownFirst(p, job, spec, reserved);
    UnknownLast(p, job, spec, reserved);
  }

  lemma UnknownFirst(p: Policy, job: Job, spec: NodeSpec, reserved: Vec)
    requires p.weights == Weights(0.7, 0.0, 0.0, 0.0, 0.0, 0.0, 1.0, 0.0)
    requires job.singleThreaded && job.region == "eu"
    ensures var fast := Sample("c", "us", 2.0, spec, reserved);
            Best(p, job, [Sample("a", "us", 0.0, spec, reserved), Sample("b", "eu", 1.0, spec, reserved), fast]) == fast
  {
    var unknown, near, fast :=
      Sample("a", "us", 0.0, spec, reserved), Sample("b", "eu", 1.0, spec, reserved), Sample("c", "us", 2.0, spec, reserved);
    RangeOfThree(unknown, near, fast);
    FrequencyScores(p, job, unknown);
    FrequencyScores(p, job, near);
    FrequencyScores(p, job, fast);
    TopOfThree(p, job, Range(1.0, 2.0), unknown, near, fast);
  }

  lemma UnknownLast(p: Policy, job: Job, spec: NodeSpec, reserved: Vec)
    requires p.weights == Weights(0.7, 0.0, 0.0, 0.0, 0.0, 0.0, 1.0, 0.0)
    requires job.singleThreaded && job.region == "eu"
    ensures var near := Sample("b", "eu", 1.0, spec, reserved);
            Best(p, job, [near, Sample("c", "us", 2.0, spec, reserved), Sample("a", "us", 0.0, spec, reserved)]) == near
  {
    var unknown, near, fast :=
      Sample("a", "us", 0.0, spec, reserved), Sample("b", "eu", 1.0, spec, reserved), Sample("c", "us", 2.0, spec, reserved);
    RangeOfThree(near, fast, unknown);
    assert FreqRange(Frequencies([near, fast, unknown])) == Range(0.0, 2.0);
    StretchedScores(p, job, near, fast, unknown);
    TopOfThree(p, job, Range(0.0, 2.0), near, fast, unknown);
  }

  lemma StretchedScores(p: Policy, job: Job, near: View, fast: View, unknown: View)
    requires p.weights == Weights(0.7, 0.0, 0.0, 0.0, 0.0, 0.0, 1.0, 0.0) && job.singleThreaded && job.region == "eu"
    requires near.rating.location == "eu" && fast.rating.location == unknown.rating.location == "us"
    requires near.rating.coreFrequency == 1.0 && fast.rating.coreFrequency == 2.0 && unknown.rating.coreFrequency == 0.0
    ensures var range := Range(0.0, 2.0);
            Score(p, job, range, near) == 1.2 && Score(p, job, range, fast) == 1.0 && Score(p, job, range, unknown) == 0.0
  {
    FrequencyScores(p, job, near);
    FrequencyScores(p, job, fast);
    FrequencyScores(p, job, unknown);
  }

  lemma RangeOfThree(a: View, b: View, c: View)
    ensures var fa, fb, fc := a.rating.coreFrequency, b.rating.coreFrequency, c.rating.coreFrequency;
            FreqRange(Frequencies([a, b, c]))
            == Range(MinStep(MinStep(MinStep(0.0, fa), fb), fc), MaxStep(MaxStep(MaxStep(0.0, fa), fb), fc))
  {
    var fs := Frequencies([a, b, c]);
    assert fs[..2] == [fs[0], fs[1]] && fs[..2][..1] == [fs[0]] && [fs[0]][..0] == [];
    assert FreqRange([fs[0]]) == Range(MinStep(0.0, fs[0]), MaxStep(0.0, fs[0]));
  }

  lemma TopOfThree(p: Policy, job: Job, range: Range, a: View, b: View, c: View)
    ensures Top(p, job, range, [a, b, c])
            == var t := if Beats(p, job, range, b, a) then b else a;
               if Beats(p, job, range, c, t) then c else t
  {
    assert [a, b, c][..2] == [a, b] && [a, b][..1] == [a];
  }

  // -------------------------------------------------------------- forced regions

  /** In this round the region switch is consulted and decides: no node is eligible and none is in the region. */
  ghost predicate RegionDecides(p: Policy, job: Job, r: Round) {
    && r.snapshot.Some? && r.snapshot.value != [] && EligibleOf(p, job, r.snapshot.value) == []
    && job.branch != "" && !HasRegion(r.snapshot.value, job.region)
  }

  /** The decision gets to such a round, all earlier ones being lost races. */
  ghost predicate RegionAsked(p: Policy, job: Job, rounds: seq<Round>, k: int) {
    0 <= k < |rounds| && RegionDecides(p, job, rounds[k]) && forall i :: 0 <= i < k ==> Lost(p, job, rounds[i])
  }

  lemma RoundFollowsRegionIff(p: Policy, q: Policy, job: Job, r: Round)
    requires q == p.(regionForce := !p.regionForce)
    ensures OneRound(p, job, r) != OneRound(q, job, r) <==> RegionDecides(p, job, r)
    ensures RegionDecides(p, job, r) ==>
              OneRound(p, job, r).Decided? && OneRound(q, job, r).Decided? && OneRound(p, job, r).result != OneRound(q, job, r).result
  {
    if r.snapshot.Some? {
      if EligibleOf(p, job, r.snapshot.value) != [] {
        RegionForceSkipped(p, q, job, r);
      } else {
        RegionForceIsNoFilter(p, q, job, r.snapshot.value);
        RefusalFollowsRegionIff(p, q, job, r.snapshot.value);
      }
    }
  }

  lemma RefusalFollowsRegionIff(p: Policy, q: Policy, job: Job, vs: seq<View>)
    requires q == p.(regionForce := !p.regionForce)
    ensures Classify(p, job, vs) != Classify(q, job, vs) <==> vs != [] && job.branch != "" && !HasRegion(vs, job.region)
  {
    forall v | v in vs
      ensures AllRecoverable(Exclusions(p, job, v)) == AllRecoverable(Exclusions(q, job, v))
    {
      assert Exclusions(p, job, v) == Exclusions(q, job, v);
    }
    assert OnlyRecoverable(p, job, vs) == OnlyRecoverable(q, job, vs);
  }

  /** The loop gets to position k, where the two sequences of ends part. */
  ghost predicate PartAt(es: seq<RoundEnd>, fs: seq<RoundEnd>, k: int)
    requires |es| == |fs|
  {
    0 <= k < |es| && es[k] != fs[k] && forall i :: 0 <= i < k ==> es[i].LostRace?
  }

  /** Two loops whose rounds differ in final answers only come out differently exactly where the first deciding round differs. */
  lemma {:induction false} LoopsDifferIff(es: seq<RoundEnd>, fs: seq<RoundEnd>)
    requires |es| == |fs|
    requires forall k :: 0 <= k < |es| && es[k] != fs[k] ==> es[k].Decided? && fs[k].Decided? && es[k].result != fs[k].result
    ensures Loop(es) != Loop(fs) <==> exists k :: PartAt(es, fs, k)
  {
    if es != [] {
      if es[0].Decided? {
        assert es[0] != fs[0] ==> PartAt(es, fs, 0);
      } else {
        assert es[0] == fs[0];
        LoopsDifferIff(es[1..], fs[1..]);
        LostRaceFirst(es);
        LostRaceFirst(fs);
        assert Loop(es) == Loop(fs) <==> Loop(es[1..]) == Loop(fs[1..]);
        if k :| PartAt(es, fs, k) {
          assert PartAt(es[1..], fs[1..], k - 1);
        }
        if k :| PartAt(es[1..], fs[1..], k) {
          assert PartAt(es, fs, k + 1);
        }
      }
    }
  }

  /**
   * The region switch changes the decision if and only if, after lost races only, some round finds
   * no eligible node and no node of the region at all.
   */
  lemma RegionForceMattersIff(p: Policy, q: Policy, job: Job, rounds: seq<Round>)
    requires q == p.(regionForce := !p.regionForce)
    ensures Attempts(p, job, rounds) != Attempts(q, job, rounds) <==> exists k :: RegionAsked(p, job, rounds, k)
  {
    var es, fs := Ends(p, job, rounds), Ends(q, job, rounds);
    forall k | 0 <= k < |rounds|
      ensures es[k] != fs[k] <==> RegionDecides(p, job, rounds[k])
      ensures es[k] != fs[k] ==> es[k].Decided? && fs[k].Decided? && es[k].result != fs[k].result
      ensures es[k].LostRace? <==> Lost(p, job, rounds[k])
    {
      EndsAt(p, job, rounds, k);
      EndsAt(q, job, rounds, k);
      RoundFollowsRegionIff(p, q, job, rounds[k]);
      RoundEndsWell(p, job, rounds[k]);
    }
    LoopsDifferIff(es, fs);
    if k :| PartAt(es, fs, k) {
      assert RegionAsked(p, job, rounds, k);
    }
    if k :| RegionAsked(p, job, rounds, k) {
      assert PartAt(es, fs, k);
    }
  }

  /** So while every round finds an eligible node, forcing the region changes nothing, and the instance may land outside it. */
  lemma ForcedRegionBindsOnlyRefusals(p: Policy, q: Policy, job: Job, rounds: seq<Round>)
    requires q == p.(regionForce := !p.regionForce)
    requires forall k :: 0 <= k < |rounds| ==>
               rounds[k].snapshot.Some? && EligibleOf(p, job, rounds[k].snapshot.value) != []
    ensures Attempts(p, job, rounds) == Attempts(q, job, rounds)
  {
    RegionForceMattersIff(p, q, job, rounds);
  }

  /**
   * And it does: with the region forced, the only node of another region takes the instance
   * whenever it passes the hard constraints.
   */
  lemma PlacedOutsideForcedRegion(p: Policy, job: Job, agent: AgentId, location: string, frequency: real, spec: NodeSpec, reserved: Vec)
    requires p.regionForce && job.region != "" && location != job.region
    requires job.branch != "" && p.staleWindow >= 0
    requires ResourcesSatisfied(Allocatable(NodeLimits(spec, p.target), reserved), job.req)
    ensures var t := Attempts(p, job, [Round(Some([Sample(agent, location, frequency, spec, reserved)]), true, Reserved)]);
            t.result.Scheduled? && t.result.agent == agent && t.calls == [Call(agent, PreparingBuild, Reserved)]
  {
    var v := Sample(agent, location, frequency, spec, reserved);
    EligibleIff(p, job, v);
    assert [v][..0] == [];
    assert EligibleOf(p, job, [v]) == [v];
    var round := Round(Some([v]), true, Reserved);
    assert Ends(p, job, [round]) == [OneRound(p, job, round)];
  }

  lemma RegionForceSkipped(p: Policy, q: Policy, job: Job, r: Round)
    requires q == p.(regionForce := !p.regionForce)
    requires r.snapshot.Some? && EligibleOf(p, job, r.snapshot.value) != []
    ensures OneRound(q, job, r) == OneRound(p, job, r)
  {
    RegionForceIsNoFilter(p, q, job, r.snapshot.value);
    SameAnswerAnyRegionForce(p, q, job, EligibleOf(p, job, r.snapshot.value));
    assert PickFrom(q, job, r.snapshot.value) == PickFrom(p, job, r.snapshot.value);
  }

  lemma SameAnswerAnyRegionForce(p: Policy, q: Policy, job: Job, el: seq<View>)
    requires q == p.(regionForce := !p.regionForce) && el != []
    ensures Best(q, job, el) == Best(p, job, el) && AnswerFor(q, job, el) == AnswerFor(p, job, el)
  {
    RegionForceIsNoScore(p, q, job, FreqRange(Frequencies(el)), el);
  }

  lemma RegionForceIsNoConstraint(p: Policy, q: Policy, job: Job, v: View)
    requires q == p.(regionForce := !p.regionForce)
    ensures Eligible(q, job, v) == Eligible(p, job, v)
  {
    EligibleIff(p, job, v);
    EligibleIff(q, job, v);
  }

  lemma {:induction false} RegionForceIsNoFilter(p: Policy, q: Policy, job: Job, vs: seq<View>)
    requires q == p.(regionForce := !p.regionForce)
    ensures EligibleOf(q, job, vs) == EligibleOf(p, job, vs)
  {
    if vs != [] {
      RegionForceIsNoFilter(p, q, job, vs[..|vs| - 1]);
      RegionForceIsNoConstraint(p, q, job, vs[|vs| - 1]);
    }
  }

  lemma {:induction false} RegionForceIsNoScore(p: Policy, q: Policy, job: Job, range: Range, vs: seq<View>)
    requires q == p.(regionForce := !p.regionForce)
    requires vs != []
    ensures Top(q, job, range, vs) == Top(p, job, range, vs)
    ensures Score(q, job, range, Top(p, job, range, vs)) == Score(p, job, range, Top(p, job, range, vs))
  {
    forall v | v in vs
      ensures Score(q, job, range, v) == Score(p, job, range, v)
    {
      assert InputOf(q, job, range, v) == InputOf(p, job, range, v);
    }
    if |vs| > 1 {
      RegionForceIsNoScore(p, q, job, range, vs[..|vs| - 1]);
    }
  }
}
