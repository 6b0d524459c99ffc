/**
 * The resource-aware scheduler: hard constraints, soft scores, the reservation retry loop and
 * the classification of attempts that found no node (scheduler_impl.go, constraint.go).
 */
module Scheduler {
  import opened Wrappers
  import opened Entities
  import opened Resources
  import opened RealArith
  import opened Scoring
  import TextOrder

  type AgentId = string

  datatype Health = Unknown | Healthy | Degraded | Unhealthy

  datatype CacheState = CacheState(available: bool, downloading: bool)
  {
    predicate Warm() {
      available || downloading
    }
  }

  /** What scoring reads of a node. */
  datatype Rating = Rating(location: string, cpuUsed: int, historyUtil: real, bandwidthRatio: real, coreFrequency: real)

  /** One node as a scheduling attempt reads it; portsFit and cache are the outcomes of its two probes. */
  datatype View = View(
    agent: AgentId,
    enabled: bool,
    health: Health,
    heartbeatAge: Option<int>,
    spec: NodeSpec,
    reserved: Vec,
    portsFit: bool,
    cache: CacheState,
    cacheUsed: int,
    pressure: Pressure,
    rating: Rating)

  /** The scheduler's own settings. */
  datatype Policy = Policy(target: real, staleWindow: int, bufferRatio: real, watermark: real,
                           regionForce: bool, retry: nat, weights: Weights)

  /** The instance to place: branch "" means no branch resolved, cacheSize 0 that nobody knows it. */
  datatype Job = Job(req: Vec, singleThreaded: bool, region: string, lastAgent: Option<AgentId>,
                     branch: string, buildId: nat, cacheSize: nat)

  // ------------------------------------------------------------ hard constraints

  datatype Reason =
    | NotEnabled | NoHeartbeat | StaleHeartbeat | HealthNotSchedulable
    | CpuShort | MemoryShort | DiskShort | PortsShort
    | BranchUnresolved | CacheDiskShort | UnderPressure
  {
    /** Can go away by waiting: the texts that isResourceOnlyReasons does not single out. */
    predicate Recoverable() {
      this !in {NotEnabled, NoHeartbeat, HealthNotSchedulable, BranchUnresolved}
    }
  }

  function Capacity(p: Policy, v: View): Hard {
    Allocatable(NodeLimits(v.spec, p.target), v.reserved)
  }

  function HealthReasons(p: Policy, v: View): seq<Reason> {
    if v.health != Healthy && v.health != Degraded then [HealthNotSchedulable]
    else if v.heartbeatAge.None? then [NoHeartbeat]
    else if v.heartbeatAge.value > p.staleWindow then [StaleHeartbeat]
    else []
  }

  function Shortages(capacity: Hard, req: Vec): seq<Reason> {
    (if capacity.cpu < req.hard.cpu then [CpuShort] else [])
    + (if capacity.mem < req.hard.mem then [MemoryShort] else [])
    + (if capacity.disk < req.hard.disk then [DiskShort] else [])
  }

  /** A node without the cache must be able to hold it, if its size is known. */
  predicate CacheFits(p: Policy, job: Job, v: View) {
    v.cache.Warm() || job.cacheSize == 0
    || job.cacheSize <= CacheDiskBudget(Capacity(p, v).disk, v.cacheUsed, p.bufferRatio)
  }

  /** The reasons recorded against a node: those of the first constraint it fails. */
  function Exclusions(p: Policy, job: Job, v: View): seq<Reason> {
    if !v.enabled then [NotEnabled]
    else if HealthReasons(p, v) != [] then HealthReasons(p, v)
    else if Shortages(Capacity(p, v), job.req) != [] then Shortages(Capacity(p, v), job.req)
    else if !v.portsFit then [PortsShort]
    else if job.branch == "" then [BranchUnresolved]
    else if !CacheFits(p, job, v) then [CacheDiskShort]
    else if v.pressure != Normal then [UnderPressure]
    else []
  }

  predicate Eligible(p: Policy, job: Job, v: View) {
    Exclusions(p, job, v) == []
  }

  /** Passing the filter means passing all hard constraints at once, in whatever order they are tried. */
  lemma EligibleIff(p: Policy, job: Job, v: View)
    ensures Eligible(p, job, v) <==>
            && v.enabled && (v.health == Healthy || v.health == Degraded)
            && v.heartbeatAge.Some? && v.heartbeatAge.value <= p.staleWindow
            && ResourcesSatisfied(Capacity(p, v), job.req)
            && v.portsFit && job.branch != "" && CacheFits(p, job, v) && v.pressure == Normal
  {
    assert Shortages(Capacity(p, v), job.req) == [] <==> ResourcesSatisfied(Capacity(p, v), job.req);
  }

  /** Up, probed and heard from at least once: what no amount of waiting repairs. */
  predicate Structural(v: View) {
    !v.enabled || (v.health != Healthy && v.health != Degraded) || v.heartbeatAge.None?
  }

  predicate AllRecoverable(reasons: seq<Reason>) {
    forall r :: r in reasons ==> r.Recoverable()
  }

  lemma RecoverableIff(p: Policy, job: Job, v: View)
    requires job.branch != ""
    ensures AllRecoverable(Exclusions(p, job, v)) <==> !Structural(v)
  {
    var e := Exclusions(p, job, v);
    if Structural(v) {
      assert e[0] in e;
    }
  }

  // -------------------------------------------------------------------- scoring

  function Utilization(v: View): real {
    var cap := v.spec.coreNum * 1000;
    if cap <= 0 then 0.0
    else (if v.rating.cpuUsed > v.reserved.hard.cpu then v.rating.cpuUsed else v.reserved.hard.cpu) as real / cap as real
  }

  function InputOf(p: Policy, job: Job, range: Range, v: View): ScoreInput {
    ScoreInput(job.region != "" && v.rating.location == job.region,
               job.lastAgent == Some(v.agent),
               Utilization(v), v.rating.historyUtil, v.rating.bandwidthRatio,
               v.health == Degraded, job.singleThreaded, v.rating.coreFrequency, range,
               v.cache.Warm() && Utilization(v) <= p.watermark)
  }

  function Score(p: Policy, job: Job, range: Range, v: View): real {
    ComputeScore(InputOf(p, job, range, v), p.weights)
  }

  // -------------------------------------------------- what a node's fields count for

  /** The larger of what is reserved and what is used of its CPU, as a share of the node's cores. */
  predicate IsLoad(v: View, u: real) {
    if v.spec.coreNum <= 0 then u == 0.0
    else
      var used := if v.rating.cpuUsed > v.reserved.hard.cpu then v.rating.cpuUsed else v.reserved.hard.cpu;
      u * (v.spec.coreNum * 1000) as real == used as real
  }

  lemma UtilizationIsLoad(v: View)
    ensures IsLoad(v, Utilization(v))
  {
  }

  /** What is scored about a node is taken from its own fields and the job's wishes. */
  lemma ScoredFields(p: Policy, job: Job, range: Range, v: View)
    ensures var x := InputOf(p, job, range, v);
            && (x.regionMatch <==> job.region != "" && v.rating.location == job.region)
            && (x.lastNodeMatch <==> job.lastAgent.Some? && job.lastAgent.value == v.agent)
            && IsLoad(v, x.utilization) && x.historyUtil == v.rating.historyUtil && x.bandwidthRatio == v.rating.bandwidthRatio
            && (x.degraded <==> v.health == Degraded)
            && x.singleThreaded == job.singleThreaded && x.coreFrequency == v.rating.coreFrequency && x.range == range
            && (x.cacheAffinity <==> (v.cache.available || v.cache.downloading) && x.utilization <= p.watermark)
  {
    UtilizationIsLoad(v);
  }

  /** A degraded node scores the degraded weight less than if it were healthy. */
  lemma DegradedCosts(p: Policy, job: Job, range: Range, v: View)
    ensures Score(p, job, range, v.(health := Degraded)) == Score(p, job, range, v.(health := Healthy)) - p.weights.degraded
  {
    var x := InputOf(p, job, range, v);
    assert InputOf(p, job, range, v.(health := Degraded)) == x.(degraded := true);
    assert InputOf(p, job, range, v.(health := Healthy)) == x.(degraded := false);
    FlagsAreWorthTheirWeights(x, p.weights);
  }

  /** Higher score first; equal scores by agent id. */
  predicate Beats(p: Policy, job: Job, range: Range, a: View, b: View) {
    Score(p, job, range, a) > Score(p, job, range, b)
    || (Score(p, job, range, a) == Score(p, job, range, b) && TextOrder.Less(a.agent, b.agent))
  }

  function Frequencies(vs: seq<View>): (fs: seq<real>)
    ensures |fs| == |vs|
    ensures forall i :: 0 <= i < |vs| ==> fs[i] == vs[i].rating.coreFrequency
  {
    seq(|vs|, i requires 0 <= i < |vs| => vs[i].rating.coreFrequency)
  }

  ghost predicate UniqueAgents(vs: seq<View>) {
    forall i, j :: 0 <= i < j < |vs| ==> vs[i].agent != vs[j].agent
  }

  /** The one candidate no other beats: the head of the sorted list. */
  function Top(p: Policy, job: Job, range: Range, vs: seq<View>): (v: View)
    requires vs != []
    ensures v in vs
  {
    if |vs| == 1 then vs[0]
    else
      var t := Top(p, job, range, vs[..|vs| - 1]);
      if Beats(p, job, range, vs[|vs| - 1], t) then vs[|vs| - 1] else t
  }

  function Best(p: Policy, job: Job, vs: seq<View>): (v: View)
    requires vs != []
    ensures v in vs
  {
    Top(p, job, FreqRange(Frequencies(vs)), vs)
  }

  lemma BeatsIsStrictOrder(p: Policy, job: Job, range: Range, a: View, b: View, c: View)
    ensures !(Beats(p, job, range, a, b) && Beats(p, job, range, b, a))
    ensures a.agent != b.agent ==> Beats(p, job, range, a, b) || Beats(p, job, range, b, a)
    ensures !Beats(p, job, range, b, a) && !Beats(p, job, range, c, b) && a.agent != b.agent && b.agent != c.agent
            ==> !Beats(p, job, range, c, a)
  {
    TextOrder.Trichotomy(a.agent, b.agent);
    TextOrder.Trichotomy(b.agent, c.agent);
    TextOrder.Trichotomy(a.agent, c.agent);
    if TextOrder.Less(a.agent, b.agent) && TextOrder.Less(b.agent, c.agent) {
      TextOrder.Transitive(a.agent, b.agent, c.agent);
    }
  }

  /** Nobody beats the choice: its score is maximal and among equals its agent id is least. */
  lemma {:induction false} NobodyBeatsTop(p: Policy, job: Job, range: Range, vs: seq<View>)
    requires vs != [] && UniqueAgents(vs)
    ensures forall v :: v in vs ==> !Beats(p, job, range, v, Top(p, job, range, vs))
  {
    var n := |vs| - 1;
    var last := vs[n];
    if n > 0 {
      var t := Top(p, job, range, vs[..n]);
      NobodyBeatsTop(p, job, range, vs[..n]);
      forall v | v in vs
        ensures !Beats(p, job, range, v, Top(p, job, range, vs))
      {
        BeatsIsStrictOrder(p, job, range, last, t, v);
        BeatsIsStrictOrder(p, job, range, last, last, last);
        if v != last {
          assert v in vs[..n];
        }
      }
    } else {
      BeatsIsStrictOrder(p, job, range, last, last, last);
    }
  }

  lemma BestIsUnbeaten(p: Policy, job: Job, vs: seq<View>, v: View)
    requires vs != [] && UniqueAgents(vs) && v in vs
    ensures var range, b := FreqRange(Frequencies(vs)), Best(p, job, vs);
            && Score(p, job, range, v) <= Score(p, job, range, b)
            && (v.agent != b.agent && Score(p, job, range, v) == Score(p, job, range, b) ==> TextOrder.Less(b.agent, v.agent))
  {
    NobodyBeatsTop(p, job, FreqRange(Frequencies(vs)), vs);
    TextOrder.Trichotomy(Best(p, job, vs).agent, v.agent);
  }

  /** A node that another one outscores is not chosen. */
  lemma OutscoredIsNotBest(p: Policy, job: Job, vs: seq<View>, a: View, b: View)
    requires vs != [] && UniqueAgents(vs) && a in vs && b in vs
    requires var range := FreqRange(Frequencies(vs)); Score(p, job, range, a) < Score(p, job, range, b)
    ensures Best(p, job, vs) != a
  {
    BestIsUnbeaten(p, job, vs, b);
  }

  /** The other node is the same but for its name, and has not served the instance last. */
  predicate Twin(job: Job, a: View, b: View) {
    a.agent != b.agent && b == a.(agent := b.agent) && job.lastAgent != Some(a.agent)
  }

  /** Of two nodes that differ in health only, the degraded one is never chosen, if being degraded counts at all. */
  lemma DegradedIsNotBest(p: Policy, job: Job, vs: seq<View>, a: View, b: View)
    requires vs != [] && UniqueAgents(vs) && a in vs && b in vs && p.weights.degraded > 0.0 && p.weights.locality >= 0.0
    requires a.health == Degraded && b.health == Healthy && Twin(job, a.(health := Healthy), b)
    ensures Best(p, job, vs) != a
  {
    var range := FreqRange(Frequencies(vs));
    var h := a.(health := Healthy);
    DegradedCosts(p, job, range, a);
    assert a.(health := Degraded) == a;
    TwinScoresNoLess(p, job, range, h, b);
    OutscoredIsNotBest(p, job, vs, a, b);
  }

  lemma TwinScoresNoLess(p: Policy, job: Job, range: Range, a: View, b: View)
    requires Twin(job, a, b) && p.weights.locality >= 0.0
    ensures Score(p, job, range, b) >= Score(p, job, range, a)
  {
    var x := InputOf(p, job, range, a);
    assert x.(lastNodeMatch := false) == x;
    assert InputOf(p, job, range, b) == x.(lastNodeMatch := job.lastAgent == Some(b.agent));
    FlagsAreWorthTheirWeights(x, p.weights);
  }

  /** Of two nodes that differ in region, cache or history only, the one that has them in its favour outscores the other. */
  lemma FavouredIsChosen(p: Policy, job: Job, vs: seq<View>, a: View, b: View)
    requires vs != [] && UniqueAgents(vs) && a in vs && b in vs && p.weights.NonNegative()
    requires var h := a.(rating := b.rating, cache := b.cache, reserved := b.reserved); Twin(job, h, b)
    requires || (RegionOnly(job, a, b) && p.weights.region > 0.0)
             || (CacheOnly(p, a, b) && p.weights.cache > 0.0)
             || (HistoryOnly(a, b) && p.weights.history > 0.0)
    ensures Best(p, job, vs) != a
  {
    var range := FreqRange(Frequencies(vs));
    var h := a.(rating := b.rating, cache := b.cache, reserved := b.reserved);
    TwinScoresNoLess(p, job, range, h, b);
    if RegionOnly(job, a, b) && p.weights.region > 0.0 {
      RegionFavours(p, job, range, a, b, h);
    } else if CacheOnly(p, a, b) && p.weights.cache > 0.0 {
      CacheFavours(p, job, range, a, b, h);
    } else {
      HistoryFavours(p, job, range, a, b, h);
    }
    OutscoredIsNotBest(p, job, vs, a, b);
  }

  lemma RegionFavours(p: Policy, job: Job, range: Range, a: View, b: View, h: View)
    requires RegionOnly(job, a, b) && h == a.(rating := b.rating)
    ensures Score(p, job, range, h) == Score(p, job, range, a) + p.weights.region
  {
    var x := InputOf(p, job, range, a);
    assert InputOf(p, job, range, h) == x.(regionMatch := true) && x == x.(regionMatch := false);
    RegionWorth(x, p.weights);
  }

  lemma CacheFavours(p: Policy, job: Job, range: Range, a: View, b: View, h: View)
    requires CacheOnly(p, a, b) && h == a.(cache := b.cache) && a.spec == b.spec
    ensures Score(p, job, range, h) == Score(p, job, range, a) + p.weights.cache
  {
    var x := InputOf(p, job, range, a);
    assert Utilization(h) == Utilization(b);
    assert InputOf(p, job, range, h) == x.(cacheAffinity := true) && x == x.(cacheAffinity := false);
    CacheWorth(x, p.weights);
  }

  lemma HistoryFavours(p: Policy, job: Job, range: Range, a: View, b: View, h: View)
    requires HistoryOnly(a, b) && h == a.(rating := b.rating)
    ensures p.weights.history > 0.0 ==> Score(p, job, range, h) > Score(p, job, range, a)
  {
    var x := InputOf(p, job, range, a);
    assert InputOf(p, job, range, h) == x.(historyUtil := b.rating.historyUtil) && x == x.(historyUtil := a.rating.historyUtil);
    var u, v := b.rating.historyUtil, a.rating.historyUtil;
    HistoryWorth(x, p.weights, u, v);
    assert Score(p, job, range, h) == ComputeScore(x.(historyUtil := u), p.weights);
    assert Score(p, job, range, a) == ComputeScore(x.(historyUtil := v), p.weights);
    if p.weights.history > 0.0 {
      MulPositive(p.weights.history, v - u);
    }
  }

  /** b lies in the wanted region and a does not; load and cache are the same. */
  predicate RegionOnly(job: Job, a: View, b: View) {
    && a.cache == b.cache && a.reserved == b.reserved
    && job.region != "" && b.rating.location == job.region != a.rating.location && b.rating == a.rating.(location := job.region)
  }

  /** b has the cache or is fetching it, not loaded beyond the watermark; a has not. */
  predicate CacheOnly(p: Policy, a: View, b: View) {
    a.reserved == b.reserved && a.rating == b.rating && b.cache.Warm() && !a.cache.Warm() && Utilization(b) <= p.watermark
  }

  /** b has been less busy than a; nothing else differs. */
  predicate HistoryOnly(a: View, b: View) {
    && a.cache == b.cache && a.reserved == b.reserved && a.rating == b.rating.(historyUtil := a.rating.historyUtil)
    && 0.0 <= b.rating.historyUtil < a.rating.historyUtil <= 1.0
  }

  // ------------------------------------------------ does the order of nodes matter?

  /** The same nodes, read in another order. */
  ghost predicate SameNodes(s: seq<View>, t: seq<View>) {
    multiset(s) == multiset(t)
  }

  lemma SameNodesBasics(s: seq<View>, t: seq<View>)
    requires SameNodes(s, t)
    ensures |s| == |t|
    ensures forall v :: v in s <==> v in t
  {
    assert |multiset(s)| == |s| && |multiset(t)| == |t|;
    forall v ensures v in s <==> v in t {
      assert v in multiset(s) <==> v in multiset(t);
    }
  }

  function Drop<T>(s: seq<T>, i: nat): seq<T>
    requires i < |s|
  {
    s[..i] + s[i + 1..]
  }

  lemma RemoveAt(s: seq<View>, i: nat)
    requires i < |s|
    ensures multiset(s) == multiset{s[i]} + multiset(Drop(s, i))
    ensures multiset(Drop(s, i)) == multiset(s) - multiset{s[i]}
  {
    assert s == s[..i] + [s[i]] + s[i + 1..];
  }

  lemma {:induction false} ReorderKeepsUnique(s: seq<View>, t: seq<View>)
    requires SameNodes(s, t) && UniqueAgents(s)
    ensures UniqueAgents(t)
  {
    forall i, j | 0 <= i < j < |t|
      ensures t[i].agent != t[j].agent
    {
      RemoveAt(t, i);
      var rest := Drop(t, i);
      assert rest[j - 1] == t[j];
      SameNodesBasics(s, t);
      assert t[i] in t && t[j] in t;
      if t[i] == t[j] {
        assert rest[j - 1] in multiset(rest);
        assert multiset(s)[t[i]] >= 2;
        UniqueCount(s, t[i]);
      } else {
        var a :| 0 <= a < |s| && s[a] == t[i];
        var b :| 0 <= b < |s| && s[b] == t[j];
        assert a < b || b < a;
      }
    }
  }

  lemma {:induction false} UniqueCount(s: seq<View>, v: View)
    requires UniqueAgents(s)
    ensures multiset(s)[v] <= 1
  {
    if v in s {
      var i :| 0 <= i < |s| && s[i] == v;
      RemoveAt(s, i);
      var rest := Drop(s, i);
      assert v !in rest;
    }
  }

  /** Taking a node out takes its frequency out. */
  lemma FrequenciesWithout(vs: seq<View>, i: nat)
    requires i < |vs|
    ensures multiset(Frequencies(vs)) == multiset{vs[i].rating.coreFrequency} + multiset(Frequencies(Drop(vs, i)))
  {
    var f := Frequencies(vs);
    assert f == f[..i] + [f[i]] + f[i + 1..];
    assert Frequencies(Drop(vs, i)) == Drop(f, i);
  }

  lemma Cancel<T>(x: T, a: multiset<T>, b: multiset<T>)
    requires multiset{x} + a == multiset{x} + b
    ensures a == b
  {
    assert a == multiset{x} + a - multiset{x};
    assert b == multiset{x} + b - multiset{x};
  }

  lemma IndexOf<T>(s: seq<T>, x: T) returns (i: nat)
    requires x in multiset(s)
    ensures i < |s| && s[i] == x
  {
    assert x in s;
    i :| 0 <= i < |s| && s[i] == x;
  }

  lemma ReorderAfterDrop(s: seq<View>, i: nat, t: seq<View>, j: nat)
    requires i < |s| && j < |t| && s[i] == t[j]
    requires Reordered(Frequencies(Drop(s, i)), Frequencies(Drop(t, j)))
    ensures Reordered(Frequencies(s), Frequencies(t))
  {
    FrequenciesWithout(s, i);
    FrequenciesWithout(t, j);
  }

  lemma {:induction false} FrequenciesReorder(s: seq<View>, t: seq<View>)
    requires SameNodes(s, t)
    ensures Reordered(Frequencies(s), Frequencies(t))
    decreases |s|
  {
    if s == [] {
      SameNodesBasics(s, t);
      assert t == s;
    } else {
      assert s[0] in multiset(s);
      var i := IndexOf(t, s[0]);
      RemoveAt(s, 0);
      RemoveAt(t, i);
      FrequenciesReorder(Drop(s, 0), Drop(t, i));
      ReorderAfterDrop(s, 0, t, i);
    }
  }

  lemma ReorderedTail(vs: seq<View>, i: nat, fs: seq<real>)
    requires Reordered(Frequencies(vs), fs) && fs != []
    requires i < |vs| && vs[i].rating.coreFrequency == fs[0]
    ensures Reordered(Frequencies(Drop(vs, i)), fs[1..])
  {
    FrequenciesWithout(vs, i);
    assert fs == [fs[0]] + fs[1..];
    Cancel(fs[0], multiset(Frequencies(Drop(vs, i))), multiset(fs[1..]));
  }

  lemma PrependListing(vs: seq<View>, i: nat, tail: seq<View>)
    requires i < |vs| && SameNodes(Drop(vs, i), tail)
    ensures SameNodes(vs, [vs[i]] + tail)
    ensures Frequencies([vs[i]] + tail) == [vs[i].rating.coreFrequency] + Frequencies(tail)
  {
    RemoveAt(vs, i);
  }

  /** Every order of the frequencies is the order of some listing of the nodes. */
  lemma {:induction false} ListingFor(vs: seq<View>, fs: seq<real>) returns (us: seq<View>)
    requires Reordered(Frequencies(vs), fs)
    ensures SameNodes(vs, us) && Frequencies(us) == fs
    decreases |fs|
  {
    if fs == [] {
      SameElements(Frequencies(vs), fs);
      us := vs;
    } else {
      assert fs[0] in multiset(fs);
      var i := IndexOf(Frequencies(vs), fs[0]);
      ReorderedTail(vs, i, fs);
      var tail := ListingFor(Drop(vs, i), fs[1..]);
      PrependListing(vs, i, tail);
      us := [vs[i]] + tail;
    }
  }

  /** Core frequency plays no part, or is known for every node, or for none. */
  ghost predicate FrequencySettled(p: Policy, job: Job, vs: seq<View>) {
    !job.singleThreaded || p.weights.frequency == 0.0 || AllZero(Frequencies(vs)) || AllPositive(Frequencies(vs))
  }

  lemma ScoreSplits(p: Policy, job: Job, r1: Range, r2: Range, v: View)
    ensures Score(p, job, r1, v) - Score(p, job, r2, v)
            == p.weights.frequency * FrequencyPart(job.singleThreaded, v.rating.coreFrequency, r1)
               - p.weights.frequency * FrequencyPart(job.singleThreaded, v.rating.coreFrequency, r2)
  {
    var x1, x2 := InputOf(p, job, r1, v), InputOf(p, job, r2, v);
    var a, b := PartsOf(x1), PartsOf(x2);
    assert b == a.(frequency := b.frequency);
    SumSplits(Scaled(a, p.weights), Scaled(b, p.weights));
  }

  lemma SumSplits(a: Parts, b: Parts)
    requires b == a.(frequency := b.frequency)
    ensures Sum(a) - Sum(b) == a.frequency - b.frequency
  {
  }

  lemma ScoreUnderReorder(p: Policy, job: Job, vs: seq<View>, us: seq<View>, v: View)
    requires SameNodes(vs, us) && Measured(Frequencies(vs)) && FrequencySettled(p, job, vs)
    ensures Score(p, job, FreqRange(Frequencies(us)), v) == Score(p, job, FreqRange(Frequencies(vs)), v)
  {
    FrequenciesReorder(vs, us);
    RangeOfReordered(Frequencies(vs), Frequencies(us));
    ScoreSplits(p, job, FreqRange(Frequencies(us)), FreqRange(Frequencies(vs)), v);
  }

  ghost predicate ScoresIgnoreOrder(p: Policy, job: Job, vs: seq<View>) {
    forall us, v :: SameNodes(vs, us) && v in vs ==>
      Score(p, job, FreqRange(Frequencies(us)), v) == Score(p, job, FreqRange(Frequencies(vs)), v)
  }

  /** One of the slowest and the fastest node is scored differently once the unknown ones drag the minimum to zero. */
  lemma ScoresDifferOn(p: Policy, job: Job, m: real, max: real, v: View)
    requires job.singleThreaded && p.weights.frequency != 0.0 && 0.0 < m <= max
    requires v.rating.coreFrequency == if m == max then max else 0.0
    ensures Score(p, job, Range(m, max), v) != Score(p, job, Range(0.0, max), v)
  {
    var r1, r2, f := Range(m, max), Range(0.0, max), v.rating.coreFrequency;
    PartsDiffer(m, max);
    ScoreSplits(p, job, r1, r2, v);
    ProductsDiffer(p.weights.frequency, FrequencyPart(true, f, r1), FrequencyPart(true, f, r2));
  }

  /** Two listings of nodes with partly unknown frequencies that give some node different scores. */
  lemma UnsettledScoresDiffer(p: Policy, job: Job, vs: seq<View>)
    requires Measured(Frequencies(vs)) && !FrequencySettled(p, job, vs)
    ensures !ScoresIgnoreOrder(p, job, vs)
  {
    var fs := Frequencies(vs);
    var first, last := MixedExtremes(fs);
    RangeOfReordered(fs, first);
    RangeOfReordered(fs, last);
    var m, max := FreqRange(first).min, FreqRange(fs).max;
    var v := SlowestOrFastest(vs, m);
    var us := ListingFor(vs, first);
    var ws := ListingFor(vs, last);
    ScoresDifferOn(p, job, m, max, v);
  }

  lemma SlowestOrFastest(vs: seq<View>, m: real) returns (v: View)
    requires Measured(Frequencies(vs)) && !AllPositive(Frequencies(vs)) && m in Frequencies(vs) && m > 0.0
    ensures v in vs && m <= FreqRange(Frequencies(vs)).max
    ensures v.rating.coreFrequency == if m == FreqRange(Frequencies(vs)).max then m else 0.0
  {
    var fs := Frequencies(vs);
    MaxIsTheMaximum(fs);
    var i :| 0 <= i < |fs| && fs[i] == m;
    var j :| 0 <= j < |fs| && fs[j] <= 0.0;
    v := if m == FreqRange(fs).max then vs[i] else vs[j];
  }

  lemma PartsDiffer(m: real, max: real)
    requires 0.0 < m <= max
    ensures m == max ==> FrequencyPart(true, max, Range(m, max)) != FrequencyPart(true, max, Range(0.0, max))
    ensures m < max ==> FrequencyPart(true, 0.0, Range(m, max)) != FrequencyPart(true, 0.0, Range(0.0, max))
  {
    if m < max {
      var d := max - m;
      assert (0.0 - m) / d * d == 0.0 - m;
    } else {
      assert max / max == 1.0;
    }
  }

  lemma ProductsDiffer(w: real, a: real, b: real)
    requires w != 0.0 && a != b
    ensures w * a - w * b != 0.0
  {
    assert w * a - w * b == w * (a - b);
  }

  /** Scores are a property of the node set, whatever order it is listed in, exactly when frequencies are settled. */
  lemma ScoresIgnoreOrderIff(p: Policy, job: Job, vs: seq<View>)
    requires Measured(Frequencies(vs))
    ensures ScoresIgnoreOrder(p, job, vs) <==> FrequencySettled(p, job, vs)
  {
    if FrequencySettled(p, job, vs) {
      forall us, v | SameNodes(vs, us) && v in vs
        ensures Score(p, job, FreqRange(Frequencies(us)), v) == Score(p, job, FreqRange(Frequencies(vs)), v)
      {
        ScoreUnderReorder(p, job, vs, us, v);
      }
    } else {
      UnsettledScoresDiffer(p, job, vs);
    }
  }

  /** Then the chosen node does not depend on the order either. */
  lemma BestIgnoresOrder(p: Policy, job: Job, vs: seq<View>, us: seq<View>)
    requires vs != [] && SameNodes(vs, us) && UniqueAgents(vs)
    requires Measured(Frequencies(vs)) && FrequencySettled(p, job, vs)
    ensures us != [] && Best(p, job, us) == Best(p, job, vs)
  {
    SameNodesBasics(vs, us);
    ReorderKeepsUnique(vs, us);
    var r1, r2 := FreqRange(Frequencies(vs)), FreqRange(Frequencies(us));
    var a, b := Best(p, job, vs), Best(p, job, us);
    NobodyBeatsTop(p, job, r1, vs);
    NobodyBeatsTop(p, job, r2, us);
    ScoreUnderReorder(p, job, vs, us, a);
    ScoreUnderReorder(p, job, vs, us, b);
    BeatsIsStrictOrder(p, job, r1, a, b, b);
    assert a.agent == b.agent;
    var i :| 0 <= i < |vs| && vs[i] == a;
    assert b in vs;
    var j :| 0 <= j < |vs| && vs[j] == b;
  }

  /** Under one frequency range the best node is the same in every order. */
  lemma TopIgnoresOrder(p: Policy, job: Job, range: Range, vs: seq<View>, us: seq<View>)
    requires vs != [] && us != [] && SameNodes(vs, us) && UniqueAgents(vs)
    ensures Top(p, job, range, us) == Top(p, job, range, vs)
  {
    SameNodesBasics(vs, us);
    ReorderKeepsUnique(vs, us);
    var a, b := Top(p, job, range, vs), Top(p, job, range, us);
    NobodyBeatsTop(p, job, range, vs);
    NobodyBeatsTop(p, job, range, us);
    BeatsIsStrictOrder(p, job, range, a, b, b);
    assert a.agent == b.agent;
    var i :| 0 <= i < |vs| && vs[i] == a;
    assert b in vs;
    var j :| 0 <= j < |vs| && vs[j] == b;
  }

  /** The node chosen when f is taken for the lowest frequency. */
  function TopFrom(p: Policy, job: Job, vs: seq<View>, f: real): View
    requires vs != []
  {
    Top(p, job, Range(f, FreqRange(Frequencies(vs)).max), vs)
  }

  ghost predicate ChoiceIgnoresOrder(p: Policy, job: Job, vs: seq<View>)
    requires vs != []
  {
    forall us :: SameNodes(vs, us) && us != [] ==> Best(p, job, us) == Best(p, job, vs)
  }

  /** One node is the best whichever of the frequencies is taken for the lowest. */
  ghost predicate OneTop(p: Policy, job: Job, vs: seq<View>)
    requires vs != []
  {
    forall f, g :: f in Frequencies(vs) && g in Frequencies(vs) ==> TopFrom(p, job, vs, f) == TopFrom(p, job, vs, g)
  }

  /** Whatever the order, the choice is the best node for one of the frequencies taken as the lowest. */
  lemma BestIsSomeTop(p: Policy, job: Job, vs: seq<View>, us: seq<View>)
    requires vs != [] && us != [] && SameNodes(vs, us) && UniqueAgents(vs) && Measured(Frequencies(vs))
    ensures var f := FreqRange(Frequencies(us)).min; f in Frequencies(vs) && Best(p, job, us) == TopFrom(p, job, vs, f)
  {
    var fs, gs := Frequencies(vs), Frequencies(us);
    FrequenciesReorder(vs, us);
    SameElements(fs, gs);
    RangeOfReordered(fs, gs);
    MinIsAmong(gs);
    TopIgnoresOrder(p, job, FreqRange(gs), vs, us);
  }

  /** And each of them is, for some order. */
  lemma EveryTopIsChosen(p: Policy, job: Job, vs: seq<View>, f: real) returns (us: seq<View>)
    requires vs != [] && UniqueAgents(vs) && Measured(Frequencies(vs)) && !FrequencySettled(p, job, vs) && f in Frequencies(vs)
    ensures us != [] && SameNodes(vs, us) && Best(p, job, us) == TopFrom(p, job, vs, f)
  {
    var t := OrderWithMin(Frequencies(vs), f);
    us := ListingFor(vs, t);
    SameNodesBasics(vs, us);
    BestIsSomeTop(p, job, vs, us);
  }

  /**
   * The choice is a property of the node set exactly when frequencies are settled, or one node is
   * the best whichever of the candidates' frequencies is taken for the lowest.
   */
  lemma ChoiceIgnoresOrderIff(p: Policy, job: Job, vs: seq<View>)
    requires vs != [] && UniqueAgents(vs) && Measured(Frequencies(vs))
    ensures ChoiceIgnoresOrder(p, job, vs) <==> FrequencySettled(p, job, vs) || OneTop(p, job, vs)
  {
    if FrequencySettled(p, job, vs) {
      forall us | SameNodes(vs, us) && us != []
        ensures Best(p, job, us) == Best(p, job, vs)
      {
        BestIgnoresOrder(p, job, vs, us);
      }
    } else {
      if OneTop(p, job, vs) {
        forall us | SameNodes(vs, us) && us != []
          ensures Best(p, job, us) == Best(p, job, vs)
        {
          BestIsSomeTop(p, job, vs, us);
          BestIsSomeTop(p, job, vs, vs);
        }
      }
      if ChoiceIgnoresOrder(p, job, vs) {
        forall f, g | f in Frequencies(vs) && g in Frequencies(vs)
          ensures TopFrom(p, job, vs, f) == TopFrom(p, job, vs, g)
        {
          var us := EveryTopIsChosen(p, job, vs, f);
          var ts := EveryTopIsChosen(p, job, vs, g);
        }
      }
    }
  }
}
