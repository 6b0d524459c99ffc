/**
 * Pressure hysteresis (pressure_monitor.go): a node's status climbs after enough consecutive loaded
 * rounds and returns to Normal after enough consecutive unloaded ones. Utilization is in percent.
 */
module PressureMonitor {
  import opened Entities
  import opened Resources

  datatype Limits = Limits(warning: real, critical: real, observe: nat, recover: nat)
  {
    predicate Positive() {
      observe > 0 && recover > 0
    }

    /** The lower of the two thresholds: at or above it a round counts as loaded. */
    function Low(): real {
      if warning <= critical then warning else critical
    }

    predicate Loaded(u: real) {
      u >= Low()
    }

    function Level(u: real): Pressure {
      if u >= critical then Critical else Warning
    }
  }

  /** NewPressureMonitor's corrections of its arguments. */
  function Sanitize(warning: real, critical: real, observe: int, recover: int): (l: Limits)
    ensures l.Positive()
  {
    var w := if warning <= 0.0 || warning > 100.0 then 85.0 else warning;
    var c := if critical <= w || critical > 100.0 then 95.0 else critical;
    Limits(w, c, if observe <= 0 then 3 else observe, if recover <= 0 then 3 else recover)
  }

  /** The corrected thresholds can still be inverted: exactly when the fallback of 95 falls below a high warning threshold. */
  lemma InvertedIff(warning: real, critical: real, observe: int, recover: int)
    ensures var l := Sanitize(warning, critical, observe, recover);
            l.critical < l.warning <==> 95.0 < warning <= 100.0 && (critical <= warning || critical > 100.0)
  {
  }

  datatype State = State(status: Pressure, up: nat, down: nat)

  const START := State(Normal, 0, 0)

  /** pressureStep. */
  function Step(l: Limits, s: State, u: real): State {
    if u >= l.critical then
      State(if s.up + 1 >= l.observe then Critical else s.status, s.up + 1, 0)
    else if u >= l.warning then
      State(if s.up + 1 >= l.observe then Warning else s.status, s.up + 1, 0)
    else if s.status == Normal then State(Normal, 0, s.down)
    else if s.down + 1 >= l.recover then State(Normal, 0, 0)
    else State(s.status, 0, s.down + 1)
  }

  function Run(l: Limits, us: seq<real>): State {
    if us == [] then START else Step(l, Run(l, us[..|us| - 1]), us[|us| - 1])
  }

  // ------------------------------------------------------------ what a run leaves

  /** Length of the trailing stretch of loaded rounds. */
  function LoadedRun(l: Limits, us: seq<real>): (n: nat)
    ensures n <= |us|
    ensures forall i :: |us| - n <= i < |us| ==> l.Loaded(us[i])
    ensures n < |us| ==> !l.Loaded(us[|us| - n - 1])
  {
    if us == [] || !l.Loaded(us[|us| - 1]) then 0 else LoadedRun(l, us[..|us| - 1]) + 1
  }

  /** Length of the trailing stretch of unloaded rounds. */
  function IdleRun(l: Limits, us: seq<real>): (n: nat)
    ensures n <= |us|
    ensures forall i :: |us| - n <= i < |us| ==> !l.Loaded(us[i])
    ensures n < |us| ==> l.Loaded(us[|us| - n - 1])
  {
    if us == [] || l.Loaded(us[|us| - 1]) then 0 else IdleRun(l, us[..|us| - 1]) + 1
  }

  /** Round i ends a stretch of loaded rounds long enough to set the status. */
  predicate Alarm(l: Limits, us: seq<real>, i: int) {
    0 <= i < |us| && LoadedRun(l, us[..i + 1]) >= l.observe && l.Loaded(us[i])
  }

  predicate Recovered(l: Limits, us: seq<real>, j: int) {
    0 <= j < |us| && IdleRun(l, us[..j + 1]) >= l.recover
  }

  /** Round i is the last to have set the status, and no recovery has followed. */
  ghost predicate Standing(l: Limits, us: seq<real>, i: int) {
    && Alarm(l, us, i)
    && (forall k :: i < k < |us| ==> !Alarm(l, us, k))
    && (forall j :: i < j < |us| ==> !Recovered(l, us, j))
  }

  lemma PrefixFacts(l: Limits, us: seq<real>)
    requires us != []
    ensures forall k :: 0 <= k < |us| - 1 ==> (Alarm(l, us, k) <==> Alarm(l, us[..|us| - 1], k))
    ensures forall k :: 0 <= k < |us| - 1 ==> (Recovered(l, us, k) <==> Recovered(l, us[..|us| - 1], k))
  {
    forall k | 0 <= k < |us| - 1
      ensures Alarm(l, us, k) <==> Alarm(l, us[..|us| - 1], k)
      ensures Recovered(l, us, k) <==> Recovered(l, us[..|us| - 1], k)
    {
      assert us[..|us| - 1][..k + 1] == us[..k + 1];
    }
  }

  /** The counters: up is the trailing stretch of loaded rounds; down, while not Normal, the unloaded stretch. */
  lemma {:induction false} CountersAreRuns(l: Limits, us: seq<real>)
    requires l.Positive()
    ensures var s := Run(l, us);
            && s.up == LoadedRun(l, us)
            && s.down == (if s.status == Normal then 0 else IdleRun(l, us))
            && (s.status != Normal ==> s.down < l.recover)
  {
    if us != [] {
      CountersAreRuns(l, us[..|us| - 1]);
    }
  }

  /** Extending by one round: the new round takes over, ends, or leaves the standing alarm. */
  lemma StandingAfter(l: Limits, us: seq<real>, i: int)
    requires us != []
    ensures var n := |us| - 1;
            Standing(l, us, i) <==>
              (i == n && Alarm(l, us, n)) || (Standing(l, us[..n], i) && !Alarm(l, us, n) && !Recovered(l, us, n))
  {
    var n := |us| - 1;
    if i < n && Standing(l, us, i) {
      StillStood(l, us, i);
    }
    if Standing(l, us[..n], i) && !Alarm(l, us, n) && !Recovered(l, us, n) {
      StandsOn(l, us, i);
    }
  }

  lemma StillStood(l: Limits, us: seq<real>, i: int)
    requires us != [] && i < |us| - 1 && Standing(l, us, i)
    ensures Standing(l, us[..|us| - 1], i) && !Alarm(l, us, |us| - 1) && !Recovered(l, us, |us| - 1)
  {
    var n := |us| - 1;
    var before := us[..n];
    PrefixFacts(l, us);
    assert forall k :: 0 <= k < n ==> (Alarm(l, us, k) <==> Alarm(l, before, k)) && (Recovered(l, us, k) <==> Recovered(l, before, k));
  }

  lemma StandsOn(l: Limits, us: seq<real>, i: int)
    requires us != [] && Standing(l, us[..|us| - 1], i) && !Alarm(l, us, |us| - 1) && !Recovered(l, us, |us| - 1)
    ensures Standing(l, us, i)
  {
    var n := |us| - 1;
    var before := us[..n];
    PrefixFacts(l, us);
    assert forall k :: 0 <= k < n ==> (Alarm(l, us, k) <==> Alarm(l, before, k)) && (Recovered(l, us, k) <==> Recovered(l, before, k));
  }

  /**
   * The status, from the samples alone: raised exactly while some alarm stands, at the level of the
   * sample that last raised it.
   */
  lemma {:induction false} StatusIsStandingAlarm(l: Limits, us: seq<real>)
    requires l.Positive()
    ensures Run(l, us).status != Normal <==> exists i :: Standing(l, us, i)
    ensures forall i :: Standing(l, us, i) ==> Run(l, us).status == l.Level(us[i])
  {
    if us != [] {
      var n := |us| - 1;
      var before := us[..n];
      StatusIsStandingAlarm(l, before);
      forall i
        ensures Standing(l, us, i) <==>
                  (i == n && Alarm(l, us, n)) || (Standing(l, before, i) && !Alarm(l, us, n) && !Recovered(l, us, n))
      {
        StandingAfter(l, us, i);
      }
      StatusStep(l, us);
      if Alarm(l, us, n) {
        assert Standing(l, us, n);
      } else if Run(l, before).status != Normal && !Recovered(l, us, n) {
        var i :| Standing(l, before, i);
        assert Standing(l, us, i) && us[i] == before[i];
      }
      forall i | Standing(l, us, i)
        ensures Run(l, us).status == l.Level(us[i])
      {
        assert i < n ==> Standing(l, before, i) && us[i] == before[i];
      }
    }
  }

  /** One round's effect on the status, in terms of alarms and recoveries. */
  lemma StatusStep(l: Limits, us: seq<real>)
    requires l.Positive() && us != []
    ensures var n := |us| - 1;
            Run(l, us).status == if Alarm(l, us, n) then l.Level(us[n])
                                 else if Recovered(l, us, n) then Normal else Run(l, us[..n]).status
  {
    CountersAreRuns(l, us[..|us| - 1]);
    CountersAreRuns(l, us);
    assert us[..|us|] == us;
  }

  // ------------------------------------------------- a monitor that starts late

  /** The rounds of a monitor whose first reading of the stored status was `stored`: counters start at zero. */
  function RunFrom(l: Limits, stored: Pressure, us: seq<real>): State {
    if us == [] then State(stored, 0, 0) else Step(l, RunFrom(l, stored, us[..|us| - 1]), us[|us| - 1])
  }

  /** Some round set or cleared the status, whatever it was before. */
  ghost predicate Decided(l: Limits, us: seq<real>) {
    exists k :: Alarm(l, us, k) || Recovered(l, us, k)
  }

  lemma DecidedAfter(l: Limits, us: seq<real>)
    requires us != []
    ensures Decided(l, us) <==> Decided(l, us[..|us| - 1]) || Alarm(l, us, |us| - 1) || Recovered(l, us, |us| - 1)
  {
    var n := |us| - 1;
    PrefixFacts(l, us);
    if k :| Alarm(l, us, k) || Recovered(l, us, k) {
      assert k < n ==> Alarm(l, us[..n], k) || Recovered(l, us[..n], k);
    }
    if k :| Alarm(l, us[..n], k) || Recovered(l, us[..n], k) {
      assert Alarm(l, us, k) || Recovered(l, us, k);
    }
  }

  /**
   * Whatever status was stored, it stands until the first alarm or recovery; from then on the
   * monitor agrees with one that had started from Normal.
   */
  lemma {:induction false} StoredStatusStandsUntilDecided(l: Limits, stored: Pressure, us: seq<real>)
    requires l.Positive()
    ensures var s := RunFrom(l, stored, us);
            && s.status == (if Decided(l, us) then Run(l, us).status else stored)
            && s.up == LoadedRun(l, us)
            && s.down == (if s.status == Normal then 0 else IdleRun(l, us)) && (s.status != Normal ==> s.down < l.recover)
  {
    if us != [] {
      var n := |us| - 1;
      assert us[..n + 1] == us;
      StoredStatusStandsUntilDecided(l, stored, us[..n]);
      DecidedAfter(l, us);
      StatusStep(l, us);
    }
  }

  /** A node leaves Normal only in a round that completes a full observation stretch. */
  lemma LeavesNormalOnlyAfterObservation(l: Limits, us: seq<real>)
    requires l.Positive() && us != []
    requires Run(l, us[..|us| - 1]).status == Normal && Run(l, us).status != Normal
    ensures LoadedRun(l, us) >= l.observe && l.Loaded(us[|us| - 1])
    ensures Run(l, us).status == Critical <==> us[|us| - 1] >= l.critical
  {
    CountersAreRuns(l, us);
    CountersAreRuns(l, us[..|us| - 1]);
  }

  /** It returns to Normal in the very round that completes the recovery stretch. */
  lemma ReturnsToNormalIff(l: Limits, us: seq<real>)
    requires l.Positive() && us != [] && Run(l, us[..|us| - 1]).status != Normal
    ensures Run(l, us).status == Normal <==> IdleRun(l, us) >= l.recover
    ensures Run(l, us).status == Normal ==> IdleRun(l, us) == l.recover
  {
    CountersAreRuns(l, us[..|us| - 1]);
    CountersAreRuns(l, us);
  }

  /** With inverted thresholds Warning is never reported: every alarm is Critical, even below the warning threshold. */
  lemma InvertedNeverWarns(l: Limits, us: seq<real>)
    requires l.Positive() && l.critical < l.warning
    ensures Run(l, us).status != Warning
  {
    StatusIsStandingAlarm(l, us);
    if i :| Standing(l, us, i) {
      assert l.Loaded(us[i]);
    }
  }

  // ----------------------------------------------------------------- the monitor

  datatype Sample = Sample(cpuUsed: int, memUsed: int)

  /** The newest n samples; the list is in time order. */
  function LastSamples(samples: seq<Sample>, n: nat): (r: seq<Sample>)
    ensures |r| == (if |samples| <= n then |samples| else n)
    ensures r == samples[|samples| - |r|..]
  {
    if |samples| <= n then samples else samples[|samples| - n..]
  }

  function Share(used: int, capacity: int): real {
    if capacity > 0 then used as real / capacity as real else 0.0
  }

  function CpuShare(spec: NodeSpec, s: Sample): real {
    Share(s.cpuUsed, spec.coreNum * 1000)
  }

  function MemShare(spec: NodeSpec, s: Sample): real {
    Share(s.memUsed, spec.memoryMb * 1024 * 1024)
  }

  /** u is the peak of the samples' shares, CPU or memory, in percent; 0 if there is none above 0. */
  ghost predicate IsPeak(spec: NodeSpec, samples: seq<Sample>, u: real) {
    && u >= 0.0
    && (forall i :: 0 <= i < |samples| ==> CpuShare(spec, samples[i]) * 100.0 <= u && MemShare(spec, samples[i]) * 100.0 <= u)
    && (u == 0.0 || exists i :: 0 <= i < |samples| && (CpuShare(spec, samples[i]) * 100.0 == u || MemShare(spec, samples[i]) * 100.0 == u))
  }

  class Monitor {
    const limits: Limits
    var counts: map<string, nat>
    var downs: map<string, nat>
    ghost var history: map<string, seq<real>>

    ghost function HistoryOf(node: string): seq<real>
      reads this
    {
      if node in history then history[node] else []
    }

    function Up(node: string): nat
      reads this
    {
      if node in counts then counts[node] else 0
    }

    function Down(node: string): nat
      reads this
    {
      if node in downs then downs[node] else 0
    }

    /** The node's counters and this status are those of the rounds it has been through, from Normal on. */
    ghost predicate Tracks(node: string, status: Pressure)
      reads this
    {
      State(status, Up(node), Down(node)) == Run(limits, HistoryOf(node))
    }

    constructor (warning: real, critical: real, observe: int, recover: int)
      ensures limits == Sanitize(warning, critical, observe, recover)
      ensures forall node :: HistoryOf(node) == [] && Tracks(node, Normal)
    {
      limits := Sanitize(warning, critical, observe, recover);
      counts, downs, history := map[], map[], map[];
    }

    method LatestUtilization(samples: seq<Sample>, spec: NodeSpec) returns (u: real)
      ensures IsPeak(spec, samples, u)
    {
      var cpuMax, memMax := 0.0, 0.0;
      for k := 0 to |samples|
        invariant cpuMax >= 0.0 && memMax >= 0.0
        invariant forall i :: 0 <= i < k ==> CpuShare(spec, samples[i]) <= cpuMax && MemShare(spec, samples[i]) <= memMax
        invariant cpuMax == 0.0 || exists i :: 0 <= i < k && CpuShare(spec, samples[i]) == cpuMax
        invariant memMax == 0.0 || exists i :: 0 <= i < k && MemShare(spec, samples[i]) == memMax
      {
        var pct := CpuShare(spec, samples[k]);
        if pct > cpuMax {
          cpuMax := pct;
        }
        pct := MemShare(spec, samples[k]);
        if pct > memMax {
          memMax := pct;
        }
      }
      if cpuMax > memMax {
        return cpuMax * 100.0;
      }
      return memMax * 100.0;
    }

    method PressureStep(u: real, status: Pressure, up: nat, down: nat) returns (s: State)
      ensures s == Step(limits, State(status, up, down), u)
    {
      var st, up', down' := status, up, down;
      if u >= limits.critical {
        up' := up' + 1;
        down' := 0;
        if up' >= limits.observe && st != Critical {
          st := Critical;
        }
      } else if u >= limits.warning {
        up' := up' + 1;
        down' := 0;
        if up' >= limits.observe && st != Warning {
          st := Warning;
        }
      } else {
        up' := 0;
        if st != Normal {
          down' := down' + 1;
          if down' >= limits.recover {
            st := Normal;
            down' := 0;
          }
        }
      }
      return State(st, up', down');
    }

    /**
     * One round for a node with any stored status: without samples nothing changes; otherwise status
     * and counters make one step on the window's peak, so a status that tracked the rounds still does.
     */
    method EvaluateNode(node: string, status: Pressure, spec: NodeSpec, samples: seq<Sample>) returns (now: Pressure)
      modifies this
      ensures samples == [] ==> now == status && counts == old(counts) && downs == old(downs) && history == old(history)
      ensures samples != [] ==>
                exists u :: IsPeak(spec, LastSamples(samples, limits.observe), u) && HistoryOf(node) == old(HistoryOf(node)) + [u]
                            && State(now, Up(node), Down(node)) == Step(limits, State(status, old(Up(node)), old(Down(node))), u)
      ensures old(Tracks(node, status)) ==> Tracks(node, now)
      ensures forall other :: other != node ==>
                HistoryOf(other) == old(HistoryOf(other)) && Up(other) == old(Up(other)) && Down(other) == old(Down(other))
    {
      if |samples| == 0 {
        return status;
      }
      var recent := LastSamples(samples, limits.observe);
      var u := LatestUtilization(recent, spec);
      var s := PressureStep(u, status, Up(node), Down(node));
      ghost var rounds := HistoryOf(node);
      assert (rounds + [u])[..|rounds|] == rounds;
      counts := counts[node := s.up];
      downs := downs[node := s.down];
      history := history[node := rounds + [u]];
      return s.status;
    }
  }
}
