/** The scheduler object: candidates are filtered, scored and sorted in place, outcomes are counted. */
module ResourceScheduler {
  import opened Wrappers
  import opened Entities
  import opened Resources
  import opened Scoring
  import opened Scheduler
  import opened ScheduleAttempts
  import TextOrder

  class NodeCandidate {
    const view: View
    var excluded: bool
    var reasons: seq<Reason>
    var score: real

    constructor (v: View)
      ensures view == v && !excluded && reasons == [] && score == 0.0
    {
      view, excluded, reasons, score := v, false, [], 0.0;
    }

    /** Record one more reason against the node. */
    method Exclude(why: seq<Reason>)
      modifies this`excluded, this`reasons
      ensures excluded && reasons == old(reasons) + why
    {
      excluded, reasons := true, reasons + why;
    }
  }

  function ViewsOf(cs: seq<NodeCandidate>): (vs: seq<View>)
    ensures |vs| == |cs|
    ensures forall i :: 0 <= i < |cs| ==> vs[i] == cs[i].view
  {
    seq(|cs|, i requires 0 <= i < |cs| => cs[i].view)
  }

  /** What is recorded against each candidate. */
  ghost function ReasonsOf(cs: seq<NodeCandidate>): (ex: seq<seq<Reason>>)
    reads cs
    ensures |ex| == |cs|
    ensures forall i :: 0 <= i < |cs| ==> ex[i] == cs[i].reasons
  {
    seq(|cs|, i requires 0 <= i < |cs| reads cs => cs[i].reasons)
  }

  lemma ViewsAppend(cs: seq<NodeCandidate>, c: NodeCandidate)
    ensures ViewsOf(cs + [c]) == ViewsOf(cs) + [c.view]
  {
  }

  ghost predicate Distinct(cs: seq<NodeCandidate>) {
    forall i, j :: 0 <= i < j < |cs| ==> cs[i] != cs[j]
  }

  ghost predicate Explains(p: Policy, job: Job, v: View, why: seq<Reason>) {
    why == Exclusions(p, job, v)
  }

  ghost predicate AllExplained(p: Policy, job: Job, vs: seq<View>, ex: seq<seq<Reason>>) {
    |ex| == |vs| && forall i {:trigger Explains(p, job, vs[i], ex[i])} :: 0 <= i < |vs| ==> Explains(p, job, vs[i], ex[i])
  }

  /** The nodes nothing was recorded against. */
  ghost function Kept(vs: seq<View>, ex: seq<seq<Reason>>): seq<View>
    requires |vs| == |ex|
  {
    if vs == [] then []
    else Kept(vs[..|vs| - 1], ex[..|vs| - 1]) + (if ex[|vs| - 1] == [] then [vs[|vs| - 1]] else [])
  }

  lemma {:induction false} KeptIsEligible(p: Policy, job: Job, vs: seq<View>, ex: seq<seq<Reason>>)
    requires AllExplained(p, job, vs, ex)
    ensures Kept(vs, ex) == EligibleOf(p, job, vs)
  {
    if vs != [] {
      var n := |vs| - 1;
      forall i | 0 <= i < n
        ensures Explains(p, job, vs[..n][i], ex[..n][i])
      {
        assert Explains(p, job, vs[i], ex[i]);
      }
      KeptIsEligible(p, job, vs[..n], ex[..n]);
      assert Explains(p, job, vs[n], ex[n]);
    }
  }

  ghost predicate AllPass(ex: seq<seq<Reason>>) {
    ex == [] || (AllPass(ex[..|ex| - 1]) && AllRecoverable(ex[|ex| - 1]))
  }

  lemma {:induction false} RecoverableByReasons(p: Policy, job: Job, vs: seq<View>, ex: seq<seq<Reason>>)
    requires AllExplained(p, job, vs, ex)
    ensures AllPass(ex) == OnlyRecoverable(p, job, vs)
  {
    if vs != [] {
      var n := |vs| - 1;
      forall i | 0 <= i < n
        ensures Explains(p, job, vs[..n][i], ex[..n][i])
      {
        assert Explains(p, job, vs[i], ex[i]);
      }
      RecoverableByReasons(p, job, vs[..n], ex[..n]);
      assert Explains(p, job, vs[n], ex[n]);
      assert vs == vs[..n] + [vs[n]];
    }
  }

  /** The order the scored candidates are sorted in. */
  predicate Before(a: NodeCandidate, b: NodeCandidate)
    reads a, b
  {
    a.score > b.score || (a.score == b.score && TextOrder.Less(a.view.agent, b.view.agent))
  }

  lemma UnbeatenIsTop(p: Policy, job: Job, range: Range, vs: seq<View>, v: View)
    requires UniqueAgents(vs) && v in vs
    requires forall u :: u in vs ==> !Beats(p, job, range, u, v)
    ensures Top(p, job, range, vs) == v
  {
    NobodyBeatsTop(p, job, range, vs);
    var t := Top(p, job, range, vs);
    BeatsIsStrictOrder(p, job, range, t, v, v);
    assert t.agent == v.agent;
    var i :| 0 <= i < |vs| && vs[i] == v;
    var j :| 0 <= j < |vs| && vs[j] == t;
  }

  class ResourceAwareScheduler {
    const policy: Policy
    var attempts: map<string, nat>

    constructor (p: Policy)
      ensures policy == p && attempts == map[]
    {
      policy, attempts := p, map[];
    }

    method Record(outcome: string)
      modifies this
      ensures attempts == old(attempts)[outcome := (if outcome in old(attempts) then old(attempts)[outcome] else 0) + 1]
    {
      attempts := attempts[outcome := (if outcome in attempts then attempts[outcome] else 0) + 1];
    }

    // ------------------------------------------------------------- constraints

    method ConstraintEnabled(c: NodeCandidate) returns (ok: bool)
      modifies c`excluded, c`reasons
      ensures ok <==> c.view.enabled
      ensures ok ==> c.reasons == old(c.reasons) && c.excluded == old(c.excluded)
      ensures !ok ==> c.excluded && c.reasons == old(c.reasons) + [NotEnabled]
    {
      if !c.view.enabled {
        c.Exclude([NotEnabled]);
        return false;
      }
      return true;
    }

    method ConstraintHealth(c: NodeCandidate) returns (ok: bool)
      modifies c`excluded, c`reasons
      ensures ok <==> HealthReasons(policy, c.view) == []
      ensures ok ==> c.reasons == old(c.reasons) && c.excluded == old(c.excluded)
      ensures !ok ==> c.excluded && c.reasons == old(c.reasons) + HealthReasons(policy, c.view)
    {
      match c.view.health {
        case Healthy | Degraded =>
          if c.view.heartbeatAge.None? {
            c.Exclude([NoHeartbeat]);
            return false;
          }
          if c.view.heartbeatAge.value > policy.staleWindow {
            c.Exclude([StaleHeartbeat]);
            return false;
          }
          return true;
        case _ =>
          c.Exclude([HealthNotSchedulable]);
          return false;
      }
    }

    method ConstraintResources(c: NodeCandidate, req: Vec) returns (ok: bool)
      modifies c`excluded, c`reasons
      ensures ok <==> Shortages(Capacity(policy, c.view), req) == []
      ensures ok ==> c.reasons == old(c.reasons) && c.excluded == old(c.excluded)
      ensures !ok ==> c.excluded && c.reasons == old(c.reasons) + Shortages(Capacity(policy, c.view), req)
    {
      var capacity := Capacity(policy, c.view);
      if ResourcesSatisfied(capacity, req) {
        return true;
      }
      c.Exclude(Shortages(capacity, req));
      return false;
    }

    method ConstraintPorts(c: NodeCandidate) returns (ok: bool)
      modifies c`excluded, c`reasons
      ensures ok <==> c.view.portsFit
      ensures ok ==> c.reasons == old(c.reasons) && c.excluded == old(c.excluded)
      ensures !ok ==> c.excluded && c.reasons == old(c.reasons) + [PortsShort]
    {
      if !c.view.portsFit {
        c.Exclude([PortsShort]);
        return false;
      }
      return true;
    }

    method ConstraintCacheDisk(c: NodeCandidate, job: Job) returns (ok: bool)
      modifies c`excluded, c`reasons
      ensures ok <==> CacheFits(policy, job, c.view)
      ensures ok ==> c.reasons == old(c.reasons) && c.excluded == old(c.excluded)
      ensures !ok ==> c.excluded && c.reasons == old(c.reasons) + [CacheDiskShort]
    {
      if c.view.cache.available || c.view.cache.downloading {
        return true;
      }
      if job.cacheSize == 0 {
        return true;
      }
      var budget := CacheDiskBudget(Capacity(policy, c.view).disk, c.view.cacheUsed, policy.bufferRatio);
      if job.cacheSize > budget {
        c.Exclude([CacheDiskShort]);
        return false;
      }
      return true;
    }

    method ConstraintPressure(c: NodeCandidate) returns (ok: bool)
      modifies c`excluded, c`reasons
      ensures ok <==> c.view.pressure == Normal
      ensures ok ==> c.reasons == old(c.reasons) && c.excluded == old(c.excluded)
      ensures !ok ==> c.excluded && c.reasons == old(c.reasons) + [UnderPressure]
    {
      if c.view.pressure == Normal {
        return true;
      }
      c.Exclude([UnderPressure]);
      return false;
    }

    /** The constraints in order, stopping at the first that fails. */
    method ApplyConstraints(c: NodeCandidate, job: Job) returns (ok: bool)
      requires c.reasons == [] && !c.excluded
      modifies c`excluded, c`reasons
      ensures ok == Eligible(policy, job, c.view)
      ensures c.reasons == Exclusions(policy, job, c.view) && c.excluded == !ok
    {
      ok := ConstraintEnabled(c);
      if !ok { return; }
      ok := ConstraintHealth(c);
      if !ok { return; }
      ok := ConstraintResources(c, job.req);
      if !ok { return; }
      ok := ConstraintPorts(c);
      if !ok { return; }
      if job.branch == "" {
        c.Exclude([BranchUnresolved]);
        return false;
      }
      ok := ConstraintCacheDisk(c, job);
      if !ok { return; }
      ok := ConstraintPressure(c);
    }

    // ---------------------------------------------------------------- one round

    method LoadCandidates(vs: seq<View>) returns (cs: seq<NodeCandidate>)
      ensures fresh(cs) && Distinct(cs) && ViewsOf(cs) == vs
      ensures forall i :: 0 <= i < |cs| ==> cs[i].reasons == [] && !cs[i].excluded
    {
      cs := [];
      for k := 0 to |vs|
        invariant |cs| == k && fresh(cs) && Distinct(cs)
        invariant forall i :: 0 <= i < k ==> cs[i].view == vs[i] && cs[i].reasons == [] && !cs[i].excluded
      {
        var c := new NodeCandidate(vs[k]);
        cs := cs + [c];
      }
    }

    method IsResourceOnlyReasons(reasons: seq<Reason>) returns (b: bool)
      ensures b == AllRecoverable(reasons)
    {
      for k := 0 to |reasons|
        invariant AllRecoverable(reasons[..k])
      {
        if !reasons[k].Recoverable() {
          return false;
        }
        assert reasons[..k + 1] == reasons[..k] + [reasons[k]];
      }
      assert reasons[..|reasons|] == reasons;
      return true;
    }

    /** One turn of the filter loop. */
    method Consider(c: NodeCandidate, job: Job, eligible: seq<NodeCandidate>, allResourceOnly: bool)
      returns (kept: seq<NodeCandidate>, recoverable: bool)
      requires c.reasons == [] && !c.excluded
      modifies c`excluded, c`reasons
      ensures Explains(policy, job, c.view, c.reasons)
      ensures kept == if c.reasons == [] then eligible + [c] else eligible
      ensures recoverable == (allResourceOnly && AllRecoverable(c.reasons))
    {
      kept, recoverable := eligible, allResourceOnly;
      var ok := ApplyConstraints(c, job);
      if ok {
        kept := eligible + [c];
      } else {
        var resourceOnly := IsResourceOnlyReasons(c.reasons);
        if !resourceOnly {
          recoverable := false;
        }
      }
    }

    /** After k candidates: what is recorded, who is eligible, and whether all recorded reasons can pass. */
    ghost predicate FilteredTo(job: Job, cs: seq<NodeCandidate>, k: nat, ex: seq<seq<Reason>>, eligible: seq<NodeCandidate>, allResourceOnly: bool)
      requires k <= |cs|
    {
      && AllExplained(policy, job, ViewsOf(cs)[..k], ex)
      && ViewsOf(eligible) == Kept(ViewsOf(cs)[..k], ex)
      && allResourceOnly == AllPass(ex)
    }

    /** The first k candidates carry their reasons, the others are untouched. */
    ghost predicate JudgedTo(cs: seq<NodeCandidate>, k: nat, ex: seq<seq<Reason>>)
      reads cs
    {
      && k == |ex| <= |cs|
      && (forall i :: 0 <= i < k ==> cs[i].reasons == ex[i])
      && (forall i :: k <= i < |cs| ==> cs[i].reasons == [] && !cs[i].excluded)
    }

    /** Eligible candidates are taken from the first k, each once. */
    ghost predicate PickedFrom(eligible: seq<NodeCandidate>, cs: seq<NodeCandidate>, k: nat)
      requires k <= |cs|
    {
      Distinct(eligible) && forall c :: c in eligible ==> c in cs[..k]
    }

    method ConsiderNext(cs: seq<NodeCandidate>, k: nat, job: Job, eligible: seq<NodeCandidate>, allResourceOnly: bool, ghost ex: seq<seq<Reason>>)
      returns (kept: seq<NodeCandidate>, recoverable: bool, ghost ex': seq<seq<Reason>>)
      requires Distinct(cs) && k < |cs| && JudgedTo(cs, k, ex) && PickedFrom(eligible, cs, k)
      requires FilteredTo(job, cs, k, ex, eligible, allResourceOnly)
      modifies cs[k]
      ensures JudgedTo(cs, k + 1, ex') && PickedFrom(kept, cs, k + 1)
      ensures FilteredTo(job, cs, k + 1, ex', kept, recoverable)
    {
      kept, recoverable := Consider(cs[k], job, eligible, allResourceOnly);
      ex' := ex + [cs[k].reasons];
      FilteredNext(job, cs, k, ex, eligible, allResourceOnly, cs[k].reasons);
      PickedNext(eligible, cs, k);
    }

    lemma FilteredNext(job: Job, cs: seq<NodeCandidate>, k: nat, ex: seq<seq<Reason>>, eligible: seq<NodeCandidate>,
                       allResourceOnly: bool, why: seq<Reason>)
      requires k < |cs| && FilteredTo(job, cs, k, ex, eligible, allResourceOnly) && Explains(policy, job, cs[k].view, why)
      ensures FilteredTo(job, cs, k + 1, ex + [why], if why == [] then eligible + [cs[k]] else eligible,
                         allResourceOnly && AllRecoverable(why))
    {
      ExplainNext(policy, job, ViewsOf(cs), k, ex, why);
      ViewsAppend(eligible, cs[k]);
    }

    lemma PickedNext(eligible: seq<NodeCandidate>, cs: seq<NodeCandidate>, k: nat)
      requires Distinct(cs) && k < |cs| && PickedFrom(eligible, cs, k)
      ensures PickedFrom(eligible, cs, k + 1) && PickedFrom(eligible + [cs[k]], cs, k + 1)
    {
      assert cs[k] !in cs[..k];
      assert cs[..k + 1] == cs[..k] + [cs[k]];
    }

    /** Run the constraints on every candidate; ex is what was recorded against each. */
    method RunConstraints(cs: seq<NodeCandidate>, job: Job)
      returns (eligible: seq<NodeCandidate>, allResourceOnly: bool, ghost ex: seq<seq<Reason>>)
      requires Distinct(cs) && forall i :: 0 <= i < |cs| ==> cs[i].reasons == [] && !cs[i].excluded
      modifies cs
      ensures JudgedTo(cs, |cs|, ex) && PickedFrom(eligible, cs, |cs|)
      ensures FilteredTo(job, cs, |cs|, ex, eligible, allResourceOnly)
    {
      eligible, allResourceOnly, ex := [], true, [];
      for k := 0 to |cs|
        invariant JudgedTo(cs, k, ex) && PickedFrom(eligible, cs, k)
        invariant FilteredTo(job, cs, k, ex, eligible, allResourceOnly)
      {
        eligible, allResourceOnly, ex := ConsiderNext(cs, k, job, eligible, allResourceOnly, ex);
      }
    }

    /** The filter step: who is eligible, and whether everything recorded against the others can pass. */
    method FilterCandidates(cs: seq<NodeCandidate>, job: Job) returns (eligible: seq<NodeCandidate>, allResourceOnly: bool)
      requires Distinct(cs) && forall i :: 0 <= i < |cs| ==> cs[i].reasons == [] && !cs[i].excluded
      modifies cs
      ensures ViewsOf(eligible) == EligibleOf(policy, job, ViewsOf(cs)) && Distinct(eligible)
      ensures forall c :: c in eligible ==> c in cs
      ensures allResourceOnly == OnlyRecoverable(policy, job, ViewsOf(cs))
      ensures AllExplained(policy, job, ViewsOf(cs), ReasonsOf(cs))
    {
      ghost var ex;
      eligible, allResourceOnly, ex := RunConstraints(cs, job);
      assert ViewsOf(cs)[..|cs|] == ViewsOf(cs) && cs[..|cs|] == cs;
      KeptIsEligible(policy, job, ViewsOf(cs), ex);
      RecoverableByReasons(policy, job, ViewsOf(cs), ex);
      assert ReasonsOf(cs) == ex;
    }

    lemma ExplainNext(p: Policy, job: Job, vs: seq<View>, k: nat, ex: seq<seq<Reason>>, why: seq<Reason>)
      requires k < |vs| && AllExplained(p, job, vs[..k], ex) && Explains(p, job, vs[k], why)
      ensures AllExplained(p, job, vs[..k + 1], ex + [why])
      ensures AllPass(ex + [why]) == (AllPass(ex) && AllRecoverable(why))
      ensures Kept(vs[..k + 1], ex + [why]) == Kept(vs[..k], ex) + if why == [] then [vs[k]] else []
    {
      forall i | 0 <= i < k + 1
        ensures Explains(p, job, vs[..k + 1][i], (ex + [why])[i])
      {
        if i < k {
          assert Explains(p, job, vs[..k][i], ex[i]);
        }
      }
      assert vs[..k + 1][..k] == vs[..k] && (ex + [why])[..k] == ex;
    }

    /** The library's stable sort by score, then agent id, here by insertion from the left. */
    method SliceStable(s: seq<NodeCandidate>) returns (sorted: seq<NodeCandidate>)
      ensures multiset(sorted) == multiset(s)
      ensures forall i, j :: 0 <= i < j < |sorted| ==> !Before(sorted[j], sorted[i])
    {
      sorted := [];
      for k := 0 to |s|
        invariant multiset(sorted) == multiset(s[..k])
        invariant forall i, j :: 0 <= i < j < |sorted| ==> !Before(sorted[j], sorted[i])
      {
        var at := |sorted|;
        while at > 0 && Before(s[k], sorted[at - 1])
          invariant 0 <= at <= |sorted|
          invariant forall j :: at <= j < |sorted| ==> Before(s[k], sorted[j])
        {
          at := at - 1;
        }
        SortedInsert(sorted, at, s[k]);
        assert s[..k + 1] == s[..k] + [s[k]];
        assert sorted == sorted[..at] + sorted[at..];
        sorted := sorted[..at] + [s[k]] + sorted[at..];
      }
      assert s[..|s|] == s;
    }

    lemma SortedInsert(sorted: seq<NodeCandidate>, at: nat, x: NodeCandidate)
      requires at <= |sorted|
      requires forall i, j :: 0 <= i < j < |sorted| ==> !Before(sorted[j], sorted[i])
      requires at > 0 ==> !Before(x, sorted[at - 1])
      requires forall j :: at <= j < |sorted| ==> Before(x, sorted[j])
      ensures var r := sorted[..at] + [x] + sorted[at..];
              forall i, j :: 0 <= i < j < |r| ==> !Before(r[j], r[i])
    {
      var r := sorted[..at] + [x] + sorted[at..];
      forall i, j | 0 <= i < j < |r|
        ensures !Before(r[j], r[i])
      {
        if j == at && i < at - 1 {
          NotBeforeTransitive(sorted[i], sorted[at - 1], x);
        } else if i == at {
          NotBeforeTransitive(x, x, r[j]);
          BeforeIsAsymmetric(x, r[j]);
        }
      }
    }

    lemma BeforeIsAsymmetric(a: NodeCandidate, b: NodeCandidate)
      requires Before(a, b)
      ensures !Before(b, a)
    {
      TextOrder.Trichotomy(a.view.agent, b.view.agent);
    }

    lemma NotBeforeTransitive(a: NodeCandidate, b: NodeCandidate, c: NodeCandidate)
      ensures !Before(b, a) && !Before(c, b) ==> !Before(c, a)
    {
      TextOrder.Trichotomy(a.view.agent, b.view.agent);
      TextOrder.Trichotomy(b.view.agent, c.view.agent);
      TextOrder.Trichotomy(a.view.agent, c.view.agent);
      if TextOrder.Less(a.view.agent, b.view.agent) && TextOrder.Less(b.view.agent, c.view.agent) {
        TextOrder.Transitive(a.view.agent, b.view.agent, c.view.agent);
      }
    }

    /** Score every eligible node, sort, take the head. */
    method PickBest(eligible: seq<NodeCandidate>, job: Job) returns (best: NodeCandidate)
      requires eligible != [] && Distinct(eligible) && UniqueAgents(ViewsOf(eligible))
      modifies eligible
      ensures best in eligible && best.view == Best(policy, job, ViewsOf(eligible))
      ensures best.score == Score(policy, job, FreqRange(Frequencies(ViewsOf(eligible))), best.view)
    {
      ghost var vs := ViewsOf(eligible);
      var range := MeasureRange(Frequencies(ViewsOf(eligible)));
      for k := 0 to |eligible|
        invariant forall i :: 0 <= i < k ==> eligible[i].score == Score(policy, job, range, eligible[i].view)
      {
        eligible[k].score := ComputeScore(InputOf(policy, job, range, eligible[k].view), policy.weights);
      }
      var sorted := SliceStable(eligible);
      SameMembers(sorted, eligible);
      best := sorted[0];
      assert best in sorted;
      forall u | u in vs
        ensures !Beats(policy, job, range, u, best.view)
      {
        var i :| 0 <= i < |vs| && vs[i] == u;
        assert eligible[i] in sorted;
        var j :| 0 <= j < |sorted| && sorted[j] == eligible[i];
        TextOrder.Trichotomy(best.view.agent, best.view.agent);
      }
      UnbeatenIsTop(policy, job, range, vs, best.view);
    }

    lemma SameMembers(s: seq<NodeCandidate>, t: seq<NodeCandidate>)
      requires multiset(s) == multiset(t)
      ensures |s| == |t| && forall c :: c in s <==> c in t
    {
      assert |multiset(s)| == |s| && |multiset(t)| == |t|;
      forall c ensures c in s <==> c in t {
        assert c in multiset(s) <==> c in multiset(t);
      }
    }

    method ClassifyNoCandidate(vs: seq<View>, job: Job, allResourceOnly: bool) returns (r: Result)
      requires allResourceOnly == OnlyRecoverable(policy, job, vs)
      modifies this
      ensures r == Classify(policy, job, vs)
      ensures attempts == Counted(old(attempts), r)
    {
      if |vs| == 0 {
        Record("failed");
        return Refused(NoNodeAgent);
      }
      if job.branch == "" {
        Record("failed");
        return Refused(NoGameCache);
      }
      if policy.regionForce {
        var found := HasRegionMatch(vs, job.region);
        if !found {
          Record("failed");
          return Refused(RegionUnreachable);
        }
      }
      if allResourceOnly {
        Record("queued");
        return Waits;
      }
      Record("failed");
      return Refused(NoGameCache);
    }

    method HasRegionMatch(vs: seq<View>, region: string) returns (found: bool)
      ensures found == HasRegion(vs, region)
    {
      if region == "" {
        return true;
      }
      for k := 0 to |vs|
        invariant forall i :: 0 <= i < k ==> vs[i].rating.location != region
      {
        if vs[k].rating.location == region {
          return true;
        }
      }
      return false;
    }

    lemma PickFromBest(p: Policy, job: Job, vs: seq<View>, b: View, score: real)
      requires EligibleOf(p, job, vs) != [] && b == Best(p, job, EligibleOf(p, job, vs))
      requires score == Score(p, job, FreqRange(Frequencies(EligibleOf(p, job, vs))), b)
      ensures PickFrom(p, job, vs) == Chosen(b.agent, StatusFor(b), Scheduled(b.agent, score, !b.cache.Warm()))
    {
    }

    /** Load, filter and score once: the node to reserve on, or the counted answer when none is eligible. */
    method ChooseNode(job: Job, vs: seq<View>) returns (pick: Pick)
      requires UniqueAgents(vs)
      modifies this
      ensures pick == PickFrom(policy, job, vs)
      ensures attempts == if pick.NoneLeft? then Counted(old(attempts), pick.result) else old(attempts)
    {
      var cs := LoadCandidates(vs);
      var eligible, allResourceOnly := FilterCandidates(cs, job);
      if |eligible| == 0 {
        var refused := ClassifyNoCandidate(vs, job, allResourceOnly);
        return NoneLeft(refused);
      }
      EligibleKeepsUnique(policy, job, vs);
      forall i | 0 <= i < |eligible|
        ensures fresh(eligible[i])
      {
        assert eligible[i] in cs;
      }
      assert attempts == old(attempts);
      var best := PickBest(eligible, job);
      assert attempts == old(attempts);
      var cacheNeeded := !(best.view.cache.available || best.view.cache.downloading);
      var status := PreparingBuild;
      if cacheNeeded {
        status := CacheWarming;
      }
      PickFromBest(policy, job, vs, best.view, best.score);
      return Chosen(best.view.agent, status, Scheduled(best.view.agent, best.score, cacheNeeded));
    }

    /** One round: the chosen node's ports are planned again, then the reservation is tried. */
    method TryRound(job: Job, r: Round) returns (e: RoundEnd)
      requires r.snapshot.Some? ==> UniqueAgents(r.snapshot.value)
      modifies this
      ensures e == OneRound(policy, job, r)
      ensures attempts == if e.Decided? then Counted(old(attempts), e.result) else old(attempts)
    {
      if r.snapshot.None? {
        return Decided(Error, []);
      }
      var pick := ChooseNode(job, r.snapshot.value);
      PicksWell(policy, job, r.snapshot.value);
      if pick.NoneLeft? {
        return Decided(pick.result, []);
      }
      if !r.planOk {
        return LostRace([]);
      }
      var calls := [Call(pick.agent, pick.status, r.reserve)];
      match r.reserve {
        case Conflict =>
          return LostRace(calls);
        case BrokenTx =>
          return Decided(Error, calls);
        case Reserved =>
          Record("scheduled");
          return Decided(pick.answer, calls);
      }
    }

    /** Schedule: the answer is Decide's, and it is counted once under its outcome; errors are not counted. */
    method Schedule(job: Job, rounds: seq<Round>) returns (t: Trace)
      requires |rounds| == policy.retry + 1
      requires forall k :: 0 <= k < |rounds| && rounds[k].snapshot.Some? ==> UniqueAgents(rounds[k].snapshot.value)
      modifies this
      ensures t == Decide(policy, job, rounds)
      ensures attempts == Counted(old(attempts), t.result)
    {
      if job.singleThreaded && (job.req.hard.cpu < 1000 || job.req.hard.cpu % 1000 != 0) {
        Record("failed");
        return Trace(Refused(ConfigError), []);
      }
      if job.branch != "" && job.buildId == 0 {
        Record("failed");
        return Trace(Refused(NoGameCache), []);
      }
      t := RunAttempts(job, rounds);
    }

    /** The retry loop of Schedule. */
    method RunAttempts(job: Job, rounds: seq<Round>) returns (t: Trace)
      requires |rounds| == policy.retry + 1
      requires forall k :: 0 <= k < |rounds| && rounds[k].snapshot.Some? ==> UniqueAgents(rounds[k].snapshot.value)
      modifies this
      ensures t == Attempts(policy, job, rounds)
      ensures attempts == Counted(old(attempts), t.result)
    {
      var calls := [];
      ghost var ends := Ends(policy, job, rounds);
      for attempt := 0 to policy.retry + 1
        invariant attempts == old(attempts)
        invariant Loop(ends) == Prepend(calls, Loop(ends[attempt..]))
      {
        var e := TryRound(job, rounds[attempt]);
        EndsAt(policy, job, rounds, attempt);
        assert e == ends[attempt];
        LoopStep(ends, attempt, calls);
        calls := calls + e.calls;
        if e.Decided? {
          return Trace(e.result, calls);
        }
      }
      Record("failed");
      return Trace(Refused(ResourceShortage), calls);
    }
  }

  ghost function Prepend(calls: seq<Call>, t: Trace): Trace {
    Trace(t.result, calls + t.calls)
  }

  lemma LoopStep(ends: seq<RoundEnd>, k: nat, calls: seq<Call>)
    requires k < |ends|
    ensures Prepend(calls, Loop(ends[k..]))
            == if ends[k].Decided? then Trace(ends[k].result, calls + ends[k].calls)
               else Prepend(calls + ends[k].calls, Loop(ends[k + 1..]))
  {
    assert ends[k..][0] == ends[k] && ends[k..][1..] == ends[k + 1..];
  }

  /** Which counter an answer goes to. */
  function CounterOf(r: Result): string {
    match r
    case Scheduled(_, _, _) => "scheduled"
    case Waits => "queued"
    case Refused(_) => "failed"
    case Error => ""
  }

  function Counted(attempts: map<string, nat>, r: Result): map<string, nat> {
    if r.Error? then attempts
    else attempts[CounterOf(r) := (if CounterOf(r) in attempts then attempts[CounterOf(r)] else 0) + 1]
  }

  function CountedAll(attempts: map<string, nat>, rs: seq<Result>): map<string, nat>
    decreases |rs|
  {
    if rs == [] then attempts else CountedAll(Counted(attempts, rs[0]), rs[1..])
  }

  function Reading(attempts: map<string, nat>, name: string): nat {
    if name in attempts then attempts[name] else 0
  }

  function HowMany(rs: seq<Result>, kind: Result -> bool): nat {
    if rs == [] then 0 else (if kind(rs[0]) then 1 else 0) + HowMany(rs[1..], kind)
  }

  /** The counters tell how often each answer was given; a repository error is no answer and is not counted. */
  lemma {:induction false} CountersCountAnswers(attempts: map<string, nat>, rs: seq<Result>)
    ensures var after := CountedAll(attempts, rs);
            && Reading(after, "scheduled") == Reading(attempts, "scheduled") + HowMany(rs, (r: Result) => r.Scheduled?)
            && Reading(after, "queued") == Reading(attempts, "queued") + HowMany(rs, (r: Result) => r.Waits?)
            && Reading(after, "failed") == Reading(attempts, "failed") + HowMany(rs, (r: Result) => r.Refused?)
            && after.Keys - attempts.Keys <= {"scheduled", "queued", "failed"}
    decreases |rs|
  {
    if rs != [] {
      CountersCountAnswers(Counted(attempts, rs[0]), rs[1..]);
    }
  }

  // --------------------------------------------------------------- branch choice

  datatype Branch = Branch(name: string, enabled: bool, lastBuildId: nat)

  const PUBLIC := "public"

  ghost predicate Offers(bs: seq<Branch>, name: string) {
    exists b :: b in bs && b.enabled && b.name == name
  }

  /** resolveBranch: the public branch if enabled, else the first enabled one, else "". */
  method ResolveBranch(bs: seq<Branch>) returns (name: string)
    ensures Offers(bs, "public") ==> name == "public"
    ensures !Offers(bs, "public") && name != "" ==>
              exists k :: 0 <= k < |bs| && bs[k].enabled && bs[k].name == name
                          && forall i :: 0 <= i < k ==> !bs[i].enabled || bs[i].name == ""
    ensures name == "" <==> forall b :: b in bs ==> !b.enabled || b.name == ""
  {
    var fallback := "";
    for k := 0 to |bs|
      invariant forall i :: 0 <= i < k ==> !bs[i].enabled || bs[i].name != PUBLIC
      invariant fallback == "" ==> forall i :: 0 <= i < k ==> !bs[i].enabled || bs[i].name == ""
      invariant fallback != "" ==>
                  exists i :: 0 <= i < k && bs[i].enabled && bs[i].name == fallback
                              && forall j :: 0 <= j < i ==> !bs[j].enabled || bs[j].name == ""
    {
      if !bs[k].enabled {
        continue;
      }
      if bs[k].name == PUBLIC {
        assert bs[k] in bs;
        return bs[k].name;
      }
      if fallback == "" {
        fallback := bs[k].name;
      }
    }
    return fallback;
  }
}
