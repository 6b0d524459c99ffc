/**
 * Can a node take one more process? Smoothing, percentiles, trends and the chain of checks of the
 * resource predictor (service.rs and predict.rs), over reals.
 */
module Predictor {
  import opened Wrappers
  import opened RealArith

  ghost predicate Within(values: seq<real>, lo: real, hi: real) {
    forall i :: 0 <= i < |values| ==> lo <= values[i] <= hi
  }

  function Max(x: real, y: real): real {
    if x >= y then x else y
  }

  // ------------------------------------------------------------------------ EWMA

  /** The smoothed value after the last of the values. */
  function Smoothed(values: seq<real>, alpha: real): real
    requires values != []
  {
    if |values| == 1 then values[0]
    else alpha * values[|values| - 1] + (1.0 - alpha) * Smoothed(values[..|values| - 1], alpha)
  }

  predicate IsWeight(alpha: real) {
    0.0 < alpha <= 1.0
  }

  function EwmaOf(values: seq<real>, alpha: real): Option<real> {
    if values == [] || !IsWeight(alpha) then None else Some(Smoothed(values, alpha))
  }

  /** ewma. */
  method Ewma(values: seq<real>, alpha: real) returns (r: Option<real>)
    ensures r == EwmaOf(values, alpha)
  {
    if |values| == 0 {
      return None;
    }
    if alpha <= 0.0 || alpha > 1.0 {
      return None;
    }
    var result := values[0];
    for k := 1 to |values|
      invariant result == Smoothed(values[..k], alpha)
    {
      assert values[..k + 1][..k] == values[..k];
      result := alpha * values[k] + (1.0 - alpha) * result;
    }
    assert values[..|values|] == values;
    return Some(result);
  }

  /** No value without samples, or with a weight that is not above 0 and at most 1; one sample is its own value. */
  lemma SmoothedFrom(values: seq<real>, alpha: real)
    ensures EwmaOf(values, alpha).None? <==> values == [] || alpha <= 0.0 || alpha > 1.0
    ensures |values| == 1 && 0.0 < alpha <= 1.0 ==> EwmaOf(values, alpha) == Some(values[0])
  {
  }

  /** Every further sample draws the smoothed value towards itself by the weight's share of the distance. */
  lemma SmoothedStep(values: seq<real>, next: real, alpha: real)
    requires values != [] && 0.0 < alpha <= 1.0
    ensures EwmaOf(values + [next], alpha).value - EwmaOf(values, alpha).value == alpha * (next - EwmaOf(values, alpha).value)
  {
    assert (values + [next])[..|values|] == values;
  }

  lemma BlendBetween(alpha: real, x: real, y: real, lo: real, hi: real)
    requires 0.0 <= alpha <= 1.0 && lo <= x <= hi && lo <= y <= hi
    ensures lo <= alpha * x + (1.0 - alpha) * y <= hi
  {
    MulNonNegative(alpha, x - lo);
    MulNonNegative(alpha, hi - x);
    MulNonNegative(1.0 - alpha, y - lo);
    MulNonNegative(1.0 - alpha, hi - y);
  }

  /** Smoothing never leaves the range of the samples. */
  lemma {:induction false} SmoothedBetween(values: seq<real>, alpha: real, lo: real, hi: real)
    requires values != [] && IsWeight(alpha) && Within(values, lo, hi)
    ensures lo <= Smoothed(values, alpha) <= hi
  {
    if |values| > 1 {
      var init := values[..|values| - 1];
      SmoothedBetween(init, alpha, lo, hi);
      BlendBetween(alpha, values[|values| - 1], Smoothed(init, alpha), lo, hi);
    }
  }

  ghost predicate Pointwise(a: seq<real>, b: seq<real>) {
    |a| == |b| && forall i :: 0 <= i < |a| ==> a[i] <= b[i]
  }

  /** Raising samples never lowers the smoothed value. */
  lemma {:induction false} SmoothedMonotone(a: seq<real>, b: seq<real>, alpha: real)
    requires a != [] && Pointwise(a, b) && IsWeight(alpha)
    ensures Smoothed(a, alpha) <= Smoothed(b, alpha)
  {
    if |a| > 1 {
      var n := |a| - 1;
      SmoothedMonotone(a[..n], b[..n], alpha);
      MulNonNegative(alpha, b[n] - a[n]);
      MulNonNegative(1.0 - alpha, Smoothed(b[..n], alpha) - Smoothed(a[..n], alpha));
    }
  }

  // ------------------------------------------------------------------ percentile

  ghost predicate Sorted(s: seq<real>) {
    forall i, j :: 0 <= i < j < |s| ==> s[i] <= s[j]
  }

  function Insert(x: real, s: seq<real>): (r: seq<real>)
    ensures multiset(r) == multiset(s) + multiset{x}
  {
    if s == [] then [x]
    else if x <= s[0] then [x] + s
    else
      assert s == [s[0]] + s[1..];
      [s[0]] + Insert(x, s[1..])
  }

  lemma {:induction false} InsertSorted(x: real, s: seq<real>)
    requires Sorted(s)
    ensures Sorted(Insert(x, s))
  {
    if s != [] && x > s[0] {
      InsertSorted(x, s[1..]);
      HeadBelowAll(x, s, Insert(x, s[1..]));
    }
  }

  lemma HeadBelowAll(x: real, s: seq<real>, t: seq<real>)
    requires Sorted(s) && s != [] && s[0] <= x && multiset(t) == multiset{x} + multiset(s[1..])
    ensures forall i :: 0 <= i < |t| ==> s[0] <= t[i]
  {
    forall i | 0 <= i < |t|
      ensures s[0] <= t[i]
    {
      assert t[i] in multiset(t);
      if t[i] != x {
        assert t[i] in s[1..];
      }
    }
  }

  /** A sorted copy. */
  function SortedCopy(values: seq<real>): (s: seq<real>)
    ensures multiset(s) == multiset(values)
  {
    if values == [] then []
    else
      assert values == [values[0]] + values[1..];
      Insert(values[0], SortedCopy(values[1..]))
  }

  lemma {:induction false} SortedCopyIsSorted(values: seq<real>)
    ensures Sorted(SortedCopy(values)) && |SortedCopy(values)| == |values|
  {
    if values != [] {
      SortedCopyIsSorted(values[1..]);
      InsertSorted(values[0], SortedCopy(values[1..]));
    }
    assert |multiset(SortedCopy(values))| == |multiset(values)|;
  }

  /** The head of a sorted list is at most anything in it. */
  lemma HeadIsLeast(s: seq<real>, x: real)
    requires Sorted(s) && x in multiset(s)
    ensures s != [] && s[0] <= x
  {
    assert x in s;
    var i :| 0 <= i < |s| && s[i] == x;
  }

  lemma TailMultiset(s: seq<real>)
    requires s != []
    ensures multiset(s[1..]) == multiset(s) - multiset{s[0]}
  {
    assert s == [s[0]] + s[1..];
  }

  lemma SameHead(s: seq<real>, t: seq<real>)
    requires Sorted(s) && Sorted(t) && multiset(s) == multiset(t) && s != []
    ensures t != [] && s[0] == t[0] && multiset(s[1..]) == multiset(t[1..])
  {
    assert s[0] in multiset(s);
    HeadIsLeast(t, s[0]);
    assert t[0] in multiset(t);
    HeadIsLeast(s, t[0]);
    TailMultiset(s);
    TailMultiset(t);
  }

  /** Two sorted lists of the same values are the same list. */
  lemma {:induction false} SortedIsUnique(s: seq<real>, t: seq<real>)
    requires Sorted(s) && Sorted(t) && multiset(s) == multiset(t)
    ensures s == t
    decreases |s|
  {
    if s == [] {
      assert |multiset(t)| == 0;
    } else {
      SameHead(s, t);
      SortedIsUnique(s[1..], t[1..]);
      assert s == [s[0]] + s[1..] && t == [t[0]] + t[1..];
    }
  }

  function Ceil(x: real): int {
    if x == x.Floor as real then x.Floor else x.Floor + 1
  }

  /** The value at a fractional rank, linearly between its neighbours. */
  function AtRank(s: seq<real>, rank: real): real
    requires s != [] && 0.0 <= rank <= (|s| - 1) as real
  {
    var lower, upper := rank.Floor, Ceil(rank);
    if lower == upper then s[lower]
    else s[lower] + (s[upper] - s[lower]) * (rank - lower as real)
  }

  function Rank(percentile: real, n: nat): real {
    percentile / 100.0 * (n - 1) as real
  }

  lemma RankInRange(percentile: real, n: nat)
    requires n > 0 && 0.0 <= percentile <= 100.0
    ensures 0.0 <= Rank(percentile, n) <= (n - 1) as real
  {
    var q, m := percentile / 100.0, (n - 1) as real;
    MulNonNegative(q, m);
    MulNonNegative(1.0 - q, m);
  }

  /** percentile. */
  function PercentileOf(values: seq<real>, percentile: real): Option<real> {
    if values == [] || percentile < 0.0 || percentile > 100.0 then None
    else
      var s := SortedCopy(values);
      assert |multiset(s)| == |multiset(values)| == |values|;
      if |s| == 1 then Some(s[0])
      else
        assert 0.0 <= Rank(percentile, |s|) <= (|s| - 1) as real by {
          RankInRange(percentile, |s|);
        }
        Some(AtRank(s, Rank(percentile, |s|)))
  }

  /** No percentile of nothing, or beyond 0 and 100. */
  lemma PercentileExistsIff(values: seq<real>, percentile: real)
    ensures PercentileOf(values, percentile).Some? <==> values != [] && 0.0 <= percentile <= 100.0
  {
  }

  /** The rank goes with the percentile, from the first sample at 0 to the last at 100. */
  lemma RankIsProportional(percentile: real, n: nat)
    requires n > 0
    ensures Rank(percentile, n) * 100.0 == percentile * (n - 1) as real
  {
    var q, m := percentile / 100.0, (n - 1) as real;
    assert q * 100.0 == percentile;
    assert q * m * 100.0 == q * 100.0 * m;
  }

  /** The percentile is the value at its rank among the sorted samples. */
  lemma PercentileIsAtRank(values: seq<real>, percentile: real)
    requires values != [] && 0.0 <= percentile <= 100.0
    ensures |SortedCopy(values)| == |values| && 0.0 <= Rank(percentile, |values|) <= (|values| - 1) as real
    ensures PercentileOf(values, percentile) == Some(AtRank(SortedCopy(values), Rank(percentile, |values|)))
  {
    SortedCopyIsSorted(values);
    RankInRange(percentile, |values|);
  }

  /** At a whole rank that is the sample of this rank, and in between it lies on the line between the two neighbours. */
  lemma AtRankLinear(s: seq<real>, rank: real, k: nat, w: real)
    requires s != [] && 0.0 <= rank <= (|s| - 1) as real && k < |s|
    requires 0.0 <= w < 1.0 && rank == k as real + w && (k == |s| - 1 ==> w == 0.0)
    ensures AtRank(s, rank) == if w == 0.0 then s[k] else s[k] + (s[k + 1] - s[k]) * w
  {
    assert rank.Floor == k;
    assert rank - k as real == w;
  }

  lemma InterpolatesBetween(lo: real, hi: real, w: real)
    requires lo <= hi && 0.0 <= w <= 1.0
    ensures lo <= lo + (hi - lo) * w <= hi
  {
    MulNonNegative(hi - lo, w);
    MulNonNegative(hi - lo, 1.0 - w);
  }

  lemma AtRankBetween(s: seq<real>, rank: real)
    requires Sorted(s) && s != [] && 0.0 <= rank <= (|s| - 1) as real
    ensures s[rank.Floor] <= AtRank(s, rank) <= s[Ceil(rank)]
  {
    if rank.Floor != Ceil(rank) {
      InterpolatesBetween(s[rank.Floor], s[Ceil(rank)], rank - rank.Floor as real);
    }
  }

  lemma AtRankMonotone(s: seq<real>, r1: real, r2: real)
    requires Sorted(s) && s != [] && 0.0 <= r1 <= r2 <= (|s| - 1) as real
    ensures AtRank(s, r1) <= AtRank(s, r2)
  {
    AtRankBetween(s, r1);
    AtRankBetween(s, r2);
    if r1.Floor == r2.Floor && Ceil(r1) == Ceil(r2) && r1.Floor != Ceil(r1) {
      MulNonNegative(s[Ceil(r1)] - s[r1.Floor], r2 - r1);
    } else if r1 != r2 {
      assert r1.Floor as real <= r1 < r1.Floor as real + 1.0 && r2.Floor as real <= r2 < r2.Floor as real + 1.0;
      assert Ceil(r1) <= r2.Floor;
    }
  }

  /** The interpolated percentile lies between the least and the greatest sample. */
  lemma PercentileBetween(values: seq<real>, percentile: real, lo: real, hi: real)
    requires PercentileOf(values, percentile).Some? && Within(values, lo, hi)
    ensures lo <= PercentileOf(values, percentile).value <= hi
  {
    var s := SortedCopy(values);
    SortedCopyIsSorted(values);
    forall i | 0 <= i < |s|
      ensures lo <= s[i] <= hi
    {
      assert s[i] in multiset(values);
    }
    if |s| > 1 {
      RankInRange(percentile, |s|);
      AtRankBetween(s, Rank(percentile, |s|));
    }
  }

  /** It never falls as the rank rises. */
  lemma PercentileMonotone(values: seq<real>, p: real, q: real)
    requires values != [] && 0.0 <= p <= q <= 100.0
    ensures PercentileOf(values, p).value <= PercentileOf(values, q).value
  {
    var s := SortedCopy(values);
    SortedCopyIsSorted(values);
    if |s| > 1 {
      RankMonotone(p, q, |s|);
      AtRankMonotone(s, Rank(p, |s|), Rank(q, |s|));
    }
  }

  lemma RankMonotone(p: real, q: real, n: nat)
    requires n > 0 && 0.0 <= p <= q <= 100.0
    ensures 0.0 <= Rank(p, n) <= Rank(q, n) <= (n - 1) as real
  {
    RankInRange(p, n);
    RankInRange(q, n);
    MulNonNegative(q / 100.0 - p / 100.0, (n - 1) as real);
  }

  /** The ends of the scale are the least and the greatest sample. */
  lemma PercentileEnds(values: seq<real>)
    requires values != []
    ensures PercentileOf(values, 0.0) == Some(SortedCopy(values)[0])
    ensures PercentileOf(values, 100.0) == Some(SortedCopy(values)[|SortedCopy(values)| - 1])
    ensures |SortedCopy(values)| == |values|
  {
    SortedCopyIsSorted(values);
    var n := |values|;
    assert Rank(0.0, n) == 0.0 && Rank(100.0, n) == (n - 1) as real;
  }

  /** It depends on the samples, not on their order. */
  lemma PercentileIgnoresOrder(a: seq<real>, b: seq<real>, percentile: real)
    requires multiset(a) == multiset(b)
    ensures PercentileOf(a, percentile) == PercentileOf(b, percentile)
  {
    assert |multiset(a)| == |a| && |multiset(b)| == |b|;
    SortedCopyIsSorted(a);
    SortedCopyIsSorted(b);
    SortedIsUnique(SortedCopy(a), SortedCopy(b));
  }

  // ---------------------------------------------------------------------- trends

  function Sum(values: seq<real>): real {
    if values == [] then 0.0 else Sum(values[..|values| - 1]) + values[|values| - 1]
  }

  function Average(values: seq<real>): real
    requires values != []
  {
    Sum(values) / |values| as real
  }

  /** trend_increase: later half minus earlier half; trend_drop is its negation. */
  function TrendIncrease(values: seq<real>): Option<real> {
    if |values| < 4 then None
    else Some(Average(values[|values| / 2..]) - Average(values[..|values| / 2]))
  }

  function TrendDrop(values: seq<real>): Option<real> {
    if |values| < 4 then None
    else Some(Average(values[..|values| / 2]) - Average(values[|values| / 2..]))
  }

  lemma OneMore(x: real, n: nat)
    ensures x * (n + 1) as real == x * n as real + x
  {
    assert (n + 1) as real == n as real + 1.0;
  }

  lemma {:induction false} SumBetween(values: seq<real>, lo: real, hi: real)
    requires Within(values, lo, hi)
    ensures lo * |values| as real <= Sum(values) <= hi * |values| as real
  {
    if values != [] {
      SumBetween(values[..|values| - 1], lo, hi);
      OneMore(lo, |values| - 1);
      OneMore(hi, |values| - 1);
    }
  }

  lemma QuotientBetween(sum: real, n: real, lo: real, hi: real)
    requires n > 0.0 && lo * n <= sum <= hi * n
    ensures lo <= sum / n <= hi
  {
    var q := sum / n;
    assert q * n == sum;
    CancelPositive(lo, q, n);
    CancelPositive(q, hi, n);
  }

  lemma AverageBetween(values: seq<real>, lo: real, hi: real)
    requires values != [] && Within(values, lo, hi)
    ensures lo <= Average(values) <= hi
  {
    SumBetween(values, lo, hi);
    QuotientBetween(Sum(values), |values| as real, lo, hi);
  }

  /** Samples that never fall show no drop, samples that never rise show no increase, and the two trends mirror each other. */
  lemma TrendFollowsSamples(values: seq<real>)
    requires |values| >= 4
    ensures TrendIncrease(values).value == -TrendDrop(values).value
    ensures Sorted(values) ==> TrendIncrease(values).value >= 0.0
    ensures (forall i, j :: 0 <= i < j < |values| ==> values[i] >= values[j]) ==> TrendDrop(values).value >= 0.0
  {
    var m, n := |values| / 2, |values|;
    if Sorted(values) {
      AverageBetween(values[..m], values[0], values[m]);
      AverageBetween(values[m..], values[m], values[n - 1]);
    }
    if forall i, j :: 0 <= i < j < n ==> values[i] >= values[j] {
      AverageBetween(values[..m], values[m], values[0]);
      AverageBetween(values[m..], values[n - 1], values[m]);
    }
  }

  // ------------------------------------------------------------------ the decision

  datatype Snapshot = Snapshot(cpu: real, memUsage: real, memTotal: real, memAvailable: real,
                               swapUsed: Option<real>, swapTotal: Option<real>)

  datatype Expected = Expected(cpu: real, memory: real, swap: Option<real>, cpuMultiplier: real, memMultiplier: real)

  datatype Thresholds = Thresholds(cpu: real, memory: real, reserved: real, cpuMargin: real, memMargin: real,
                                   cpuTrend: real, memDrop: real, instantCpu: real)

  datatype Switches = Switches(percentile: bool, ewma: bool, trend: bool, swap: bool)

  datatype Config = Config(limits: Thresholds, on: Switches, alpha: real, cpuPercentile: real, memPercentile: real)

  datatype Input = Input(current: Snapshot, history: seq<Snapshot>, expected: Expected, config: Config)

  datatype Reason = InstantCpu | CpuHigh | MemoryHigh | MemoryShort | CpuRising | MemoryFalling | SwapHigh | Enough

  datatype Risk = Low | Medium | High | Critical
  {
    function Grade(): nat {
      match this case Low => 0 case Medium => 1 case High => 2 case Critical => 3
    }
  }

  datatype Result = Result(canStart: bool, risk: Risk, cpu: real, memory: real, memAvailable: real,
                           measured: Measured, reasons: seq<Reason>)

  /** The intermediate values that are reported along with the decision. */
  datatype Measured = Measured(cpuEwma: Option<real>, memUsageEwma: Option<real>, cpuPercentile: Option<real>,
                               memPercentile: Option<real>, cpuTrend: Option<real>, memDrop: Option<real>)

  function CpuValues(x: Input): seq<real> {
    seq(|x.history|, i requires 0 <= i < |x.history| => x.history[i].cpu) + [x.current.cpu]
  }

  function MemUsageValues(x: Input): seq<real> {
    seq(|x.history|, i requires 0 <= i < |x.history| => x.history[i].memUsage) + [x.current.memUsage]
  }

  function MemAvailableValues(x: Input): seq<real> {
    seq(|x.history|, i requires 0 <= i < |x.history| => x.history[i].memAvailable) + [x.current.memAvailable]
  }

  function When<T>(on: bool, o: Option<T>): Option<T> {
    if on then o else None
  }

  function OrElse(o: Option<real>, fallback: real): real {
    if o.Some? then o.value else fallback
  }

  function MeasuredOf(x: Input): Measured {
    var on := x.config.on;
    Measured(When(on.ewma, EwmaOf(CpuValues(x), x.config.alpha)),
             When(on.ewma, EwmaOf(MemUsageValues(x), x.config.alpha)),
             When(on.percentile, PercentileOf(CpuValues(x), x.config.cpuPercentile)),
             When(on.percentile, PercentileOf(MemAvailableValues(x), x.config.memPercentile)),
             When(on.trend, TrendIncrease(CpuValues(x))),
             When(on.trend, TrendDrop(MemAvailableValues(x))))
  }

  /** choose_cpu_base: the smoothed value if there is one, raised to the percentile. */
  function CpuBase(x: Input): real {
    var base := OrElse(MeasuredOf(x).cpuEwma, x.current.cpu);
    var p := MeasuredOf(x).cpuPercentile;
    if p.Some? then Max(base, p.value) else base
  }

  function MemAvailableBase(x: Input): real {
    OrElse(MeasuredOf(x).memPercentile, x.current.memAvailable)
  }

  function ExpectedCpu(x: Input): real {
    x.expected.cpu * x.expected.cpuMultiplier
  }

  function ExpectedMemory(x: Input): real {
    x.expected.memory * x.expected.memMultiplier
  }

  function ProjectedCpu(x: Input): real {
    CpuBase(x) + ExpectedCpu(x) + x.config.limits.cpuMargin
  }

  function ProjectedMemAvailable(x: Input): real {
    MemAvailableBase(x) - ExpectedMemory(x) - x.config.limits.memMargin
  }

  /** calculate_projected_memory_percent. */
  function MemoryPercent(total: real, available: real): real {
    if total <= 0.0 then 0.0 else Max((total - available) / total * 100.0, 0.0)
  }

  function ProjectedMemory(x: Input): real {
    MemoryPercent(x.current.memTotal, ProjectedMemAvailable(x))
  }

  /** check_swap_risk. */
  predicate SwapRisk(current: Snapshot, expected: Expected) {
    current.swapTotal.Some? && current.swapTotal.value > 0.0
    && (OrElse(current.swapUsed, 0.0) + OrElse(expected.swap, 0.0)) / current.swapTotal.value > 0.8
  }

  predicate Above(o: Option<real>, limit: real) {
    o.Some? && o.value > limit
  }

  /** Whether a check stands in the way of starting. */
  predicate Blocks(x: Input, r: Reason) {
    match r
    case CpuHigh => ProjectedCpu(x) > x.config.limits.cpu
    case MemoryHigh => ProjectedMemory(x) > x.config.limits.memory
    case MemoryShort => ProjectedMemAvailable(x) < x.config.limits.reserved
    case CpuRising => Above(MeasuredOf(x).cpuTrend, x.config.limits.cpuTrend)
    case MemoryFalling => Above(MeasuredOf(x).memDrop, x.config.limits.memDrop)
    case SwapHigh => x.config.on.swap && SwapRisk(x.current, x.expected)
    case InstantCpu => false
    case Enough => false
  }

  predicate CanStart(x: Input) {
    !Blocks(x, CpuHigh) && !Blocks(x, MemoryHigh) && !Blocks(x, MemoryShort)
    && !Blocks(x, CpuRising) && !Blocks(x, MemoryFalling) && !Blocks(x, SwapHigh)
  }

  predicate InstantCpuExceeded(x: Input) {
    x.current.cpu > x.config.limits.instantCpu
  }

  function Note(reasons: seq<Reason>, applies: bool, why: Reason): seq<Reason> {
    if applies then reasons + [why] else reasons
  }

  /** The reasons in the order the checks run. */
  function Collected(x: Input): seq<Reason> {
    var cpu := Note(Note([], InstantCpuExceeded(x), InstantCpu), Blocks(x, CpuHigh), CpuHigh);
    var memory := Note(Note(cpu, Blocks(x, MemoryHigh), MemoryHigh), Blocks(x, MemoryShort), MemoryShort);
    var trend := Note(Note(memory, Blocks(x, CpuRising), CpuRising), Blocks(x, MemoryFalling), MemoryFalling);
    Note(trend, Blocks(x, SwapHigh), SwapHigh)
  }

  function Reported(x: Input): seq<Reason> {
    if Collected(x) == [] then [Enough] else Collected(x)
  }

  /** A trend exceeds its limit: the later half of at least four samples averages that much more, or less, than the earlier half. */
  predicate TrendExceeds(on: bool, rise: Option<real>, limit: real) {
    on && rise.Some? && rise.value > limit
  }

  /** Swap is tight: there is some, and used and expected swap together take more than four fifths of it. */
  predicate SwapTight(current: Snapshot, expected: Expected) {
    var used := match current.swapUsed case Some(u) => u case None => 0.0;
    var more := match expected.swap case Some(m) => m case None => 0.0;
    current.swapTotal.Some? && current.swapTotal.value > 0.0 && used + more > current.swapTotal.value * 0.8
  }

  /** A start is allowed exactly while every projection keeps its limit, limits included, no trend exceeds its own, and swap is not tight. */
  lemma CanStartIff(x: Input)
    ensures var l, on := x.config.limits, x.config.on;
            CanStart(x) <==>
              && ProjectedCpu(x) <= l.cpu && ProjectedMemory(x) <= l.memory && ProjectedMemAvailable(x) >= l.reserved
              && !TrendExceeds(on.trend, TrendIncrease(CpuValues(x)), l.cpuTrend)
              && !TrendExceeds(on.trend, TrendDrop(MemAvailableValues(x)), l.memDrop)
              && !(on.swap && SwapTight(x.current, x.expected))
  {
    SwapRiskIff(x.current, x.expected);
  }

  /** And a warning is given exactly if the CPU is above the instant limit right now. */
  lemma WarnedIff(x: Input)
    ensures InstantCpu in Reported(x) <==> x.current.cpu > x.config.limits.instantCpu
  {
    ReportedIff(x, InstantCpu);
  }

  lemma SwapRiskIff(current: Snapshot, expected: Expected)
    ensures SwapRisk(current, expected) <==> SwapTight(current, expected)
  {
    if current.swapTotal.Some? && current.swapTotal.value > 0.0 {
      var total, sum := current.swapTotal.value, OrElse(current.swapUsed, 0.0) + OrElse(expected.swap, 0.0);
      QuotientAbove(sum, total, 0.8);
    }
  }

  lemma QuotientAbove(x: real, d: real, t: real)
    requires d > 0.0
    ensures x / d > t <==> x > d * t
  {
    var q := x / d;
    assert q * d == x;
    ProductOrder(t, q, d);
  }

  /** A reason is reported exactly if its check blocks, or it is the CPU warning, or all is well. */
  lemma ReportedIff(x: Input, why: Reason)
    ensures Reported(x) != []
    ensures why in Reported(x) <==>
              Blocks(x, why) || (why == InstantCpu && InstantCpuExceeded(x))
              || (why == Enough && CanStart(x) && !InstantCpuExceeded(x))
  {
    NotesOnly(x, why);
    EmptyIffNothing(x);
  }

  lemma InNote(reasons: seq<Reason>, applies: bool, why: Reason, r: Reason)
    ensures r in Note(reasons, applies, why) <==> r in reasons || (applies && r == why)
    ensures Note(reasons, applies, why) == [] <==> reasons == [] && !applies
  {
  }

  lemma NotesOnly(x: Input, r: Reason)
    ensures r in Collected(x) <==> Blocks(x, r) || (r == InstantCpu && InstantCpuExceeded(x))
  {
    var a := Note([], InstantCpuExceeded(x), InstantCpu);
    var b := Note(a, Blocks(x, CpuHigh), CpuHigh);
    var c := Note(b, Blocks(x, MemoryHigh), MemoryHigh);
    var d := Note(c, Blocks(x, MemoryShort), MemoryShort);
    var e := Note(d, Blocks(x, CpuRising), CpuRising);
    InNote([], InstantCpuExceeded(x), InstantCpu, r);
    InNote(a, Blocks(x, CpuHigh), CpuHigh, r);
    InNote(b, Blocks(x, MemoryHigh), MemoryHigh, r);
    InNote(c, Blocks(x, MemoryShort), MemoryShort, r);
    InNote(d, Blocks(x, CpuRising), CpuRising, r);
    InNote(e, Blocks(x, MemoryFalling), MemoryFalling, r);
    InNote(Note(e, Blocks(x, MemoryFalling), MemoryFalling), Blocks(x, SwapHigh), SwapHigh, r);
  }

  lemma EmptyIffNothing(x: Input)
    ensures Collected(x) == [] <==> CanStart(x) && !InstantCpuExceeded(x)
  {
    if Collected(x) != [] {
      var r := Collected(x)[0];
      assert r in Collected(x);
      NotesOnly(x, r);
    } else {
      NotesOnly(x, InstantCpu);
      NotesOnly(x, CpuHigh);
      NotesOnly(x, MemoryHigh);
      NotesOnly(x, MemoryShort);
      NotesOnly(x, CpuRising);
      NotesOnly(x, MemoryFalling);
      NotesOnly(x, SwapHigh);
    }
  }

  /** The values predict_can_start_process derives from the samples, in its order. */
  method Measure(x: Input) returns (m: Measured)
    ensures m == MeasuredOf(x)
  {
    var cpuEwma: Option<real>, memEwma: Option<real> := None, None;
    if x.config.on.ewma {
      cpuEwma := Ewma(CpuValues(x), x.config.alpha);
      memEwma := Ewma(MemUsageValues(x), x.config.alpha);
    }
    var cpuPercentile: Option<real>, memPercentile: Option<real> := None, None;
    if x.config.on.percentile {
      cpuPercentile := PercentileOf(CpuValues(x), x.config.cpuPercentile);
      memPercentile := PercentileOf(MemAvailableValues(x), x.config.memPercentile);
    }
    var cpuTrend: Option<real>, memDrop: Option<real> := None, None;
    if x.config.on.trend {
      cpuTrend := TrendIncrease(CpuValues(x));
      memDrop := TrendDrop(MemAvailableValues(x));
    }
    m := Measured(cpuEwma, memEwma, cpuPercentile, memPercentile, cpuTrend, memDrop);
  }

  /** choose_cpu_base. */
  method ChooseCpuBase(x: Input, m: Measured) returns (base: real, reasons: seq<Reason>)
    requires m == MeasuredOf(x)
    ensures base == CpuBase(x) && reasons == Note([], InstantCpuExceeded(x), InstantCpu)
  {
    base, reasons := x.current.cpu, [];
    if m.cpuEwma.Some? {
      base := m.cpuEwma.value;
    }
    if m.cpuPercentile.Some? {
      base := Max(base, m.cpuPercentile.value);
    }
    if x.current.cpu > x.config.limits.instantCpu {
      reasons := reasons + [InstantCpu];
    }
  }

  /** The checks on the projected values. */
  method CheckProjections(x: Input, cpu: real, memory: real, available: real, warned: seq<Reason>)
    returns (canStart: bool, reasons: seq<Reason>)
    requires cpu == ProjectedCpu(x) && memory == ProjectedMemory(x) && available == ProjectedMemAvailable(x)
    ensures canStart == (!Blocks(x, CpuHigh) && !Blocks(x, MemoryHigh) && !Blocks(x, MemoryShort))
    ensures reasons == Note(Note(Note(warned, Blocks(x, CpuHigh), CpuHigh), Blocks(x, MemoryHigh), MemoryHigh),
                            Blocks(x, MemoryShort), MemoryShort)
  {
    canStart, reasons := true, warned;
    if cpu > x.config.limits.cpu {
      canStart := false;
      reasons := reasons + [CpuHigh];
    }
    if memory > x.config.limits.memory {
      canStart := false;
      reasons := reasons + [MemoryHigh];
    }
    if available < x.config.limits.reserved {
      canStart := false;
      reasons := reasons + [MemoryShort];
    }
  }

  /** The checks on trends and swap. */
  method CheckTrendsAndSwap(x: Input, m: Measured, soFar: bool, found: seq<Reason>) returns (canStart: bool, reasons: seq<Reason>)
    requires m == MeasuredOf(x)
    ensures canStart == (soFar && !Blocks(x, CpuRising) && !Blocks(x, MemoryFalling) && !Blocks(x, SwapHigh))
    ensures reasons == Note(Note(Note(found, Blocks(x, CpuRising), CpuRising), Blocks(x, MemoryFalling), MemoryFalling),
                            Blocks(x, SwapHigh), SwapHigh)
  {
    canStart, reasons := soFar, found;
    if Above(m.cpuTrend, x.config.limits.cpuTrend) {
      canStart := false;
      reasons := reasons + [CpuRising];
    }
    if Above(m.memDrop, x.config.limits.memDrop) {
      canStart := false;
      reasons := reasons + [MemoryFalling];
    }
    if x.config.on.swap && SwapRisk(x.current, x.expected) {
      canStart := false;
      reasons := reasons + [SwapHigh];
    }
  }

  /** The grade of an input: classify_risk on its projections. */
  function RiskOf(x: Input): Risk {
    ClassifyRisk(ProjectedCpu(x), x.config.limits.cpu, ProjectedMemAvailable(x), x.config.limits.reserved)
  }

  /** predict_can_start_process: one check after the other. */
  method PredictCanStart(x: Input) returns (r: Result)
    ensures r == Result(CanStart(x), RiskOf(x), ProjectedCpu(x), ProjectedMemory(x), ProjectedMemAvailable(x),
                        MeasuredOf(x), Reported(x))
  {
    var m := Measure(x);
    var cpuBase, warned := ChooseCpuBase(x, m);
    var cpu := cpuBase + ExpectedCpu(x) + x.config.limits.cpuMargin;
    var available := OrElse(m.memPercentile, x.current.memAvailable) - ExpectedMemory(x) - x.config.limits.memMargin;
    var memory := MemoryPercent(x.current.memTotal, available);
    var fits, found := CheckProjections(x, cpu, memory, available, warned);
    var canStart, reasons := CheckTrendsAndSwap(x, m, fits, found);
    assert reasons == Collected(x);
    if |reasons| == 0 {
      reasons := [Enough];
    }
    r := Result(canStart, ClassifyRisk(cpu, x.config.limits.cpu, available, x.config.limits.reserved),
                cpu, memory, available, m, reasons);
  }

  /** The recorded memory usage is smoothed and reported, but whatever it was, the decision stays the same. */
  lemma MemoryUsageNeverDecides(x: Input, y: Input)
    requires y.expected == x.expected && y.config == x.config && |y.history| == |x.history|
    requires y.current.(memUsage := 0.0) == x.current.(memUsage := 0.0)
    requires forall i :: 0 <= i < |x.history| ==> y.history[i].(memUsage := 0.0) == x.history[i].(memUsage := 0.0)
    ensures CanStart(y) == CanStart(x) && Reported(y) == Reported(x) && RiskOf(y) == RiskOf(x)
  {
    SameDecisiveSamples(x, y);
    assert MeasuredOf(y).(memUsageEwma := None) == MeasuredOf(x).(memUsageEwma := None);
    assert ProjectedCpu(y) == ProjectedCpu(x) && ProjectedMemAvailable(y) == ProjectedMemAvailable(x);
    assert forall r :: Blocks(y, r) == Blocks(x, r);
  }

  lemma SameDecisiveSamples(x: Input, y: Input)
    requires |y.history| == |x.history| && y.current.(memUsage := 0.0) == x.current.(memUsage := 0.0)
    requires forall i :: 0 <= i < |x.history| ==> y.history[i].(memUsage := 0.0) == x.history[i].(memUsage := 0.0)
    ensures CpuValues(y) == CpuValues(x) && MemAvailableValues(y) == MemAvailableValues(x)
    ensures SwapRisk(y.current, x.expected) == SwapRisk(x.current, x.expected)
    ensures InstantCpuExceeded(y.(config := x.config)) == InstantCpuExceeded(x)
  {
    forall i | 0 <= i < |x.history|
      ensures y.history[i].cpu == x.history[i].cpu && y.history[i].memAvailable == x.history[i].memAvailable
    {
      assert y.history[i].cpu == y.history[i].(memUsage := 0.0).cpu;
      assert y.history[i].memAvailable == y.history[i].(memUsage := 0.0).memAvailable;
    }
    assert y.current.cpu == y.current.(memUsage := 0.0).cpu;
  }

  /** a expects no more than b of anything: a larger multiplier counts as more where the larger demand is not negative. */
  ghost predicate ExpectsNoMore(a: Expected, b: Expected) {
    && a.cpu <= b.cpu && a.memory <= b.memory && OrElse(a.swap, 0.0) <= OrElse(b.swap, 0.0)
    && 0.0 <= a.cpuMultiplier <= b.cpuMultiplier && (a.cpuMultiplier == b.cpuMultiplier || b.cpu >= 0.0)
    && 0.0 <= a.memMultiplier <= b.memMultiplier && (a.memMultiplier == b.memMultiplier || b.memory >= 0.0)
  }

  lemma SwapRiskMonotone(s: Snapshot, a: Expected, b: Expected)
    requires OrElse(a.swap, 0.0) <= OrElse(b.swap, 0.0)
    ensures SwapRisk(s, a) ==> SwapRisk(s, b)
  {
    if SwapRisk(s, a) {
      var used, total := OrElse(s.swapUsed, 0.0), s.swapTotal.value;
      DivideMonotone(used + OrElse(a.swap, 0.0), used + OrElse(b.swap, 0.0), total);
    }
  }

  lemma ProductMonotone(x: real, y: real, m: real, n: real)
    requires x <= y && 0.0 <= m <= n && (m == n || y >= 0.0)
    ensures x * m <= y * n
  {
    ScaleMonotone(m, x, y);
    if m < n {
      ScaleMonotone(y, m, n);
    }
  }

  lemma ProjectionsMonotone(x: Input, e: Expected)
    requires ExpectsNoMore(x.expected, e)
    ensures var y := x.(expected := e);
            ProjectedCpu(x) <= ProjectedCpu(y) && ProjectedMemAvailable(x) >= ProjectedMemAvailable(y)
  {
    SameSamples(x, e);
    DemandMonotone(x, x.(expected := e));
  }

  lemma DemandMonotone(x: Input, y: Input)
    requires ExpectsNoMore(x.expected, y.expected)
    ensures ExpectedCpu(x) <= ExpectedCpu(y) && ExpectedMemory(x) <= ExpectedMemory(y)
  {
    ProductMonotone(x.expected.cpu, y.expected.cpu, x.expected.cpuMultiplier, y.expected.cpuMultiplier);
    ProductMonotone(x.expected.memory, y.expected.memory, x.expected.memMultiplier, y.expected.memMultiplier);
  }

  lemma ProjectedMemoryMonotone(x: Input, e: Expected)
    requires ExpectsNoMore(x.expected, e)
    ensures ProjectedMemory(x) <= ProjectedMemory(x.(expected := e))
  {
    ProjectionsMonotone(x, e);
    PercentMonotone(x.current.memTotal, ProjectedMemAvailable(x), ProjectedMemAvailable(x.(expected := e)));
  }

  lemma PercentMonotone(total: real, more: real, less: real)
    requires more >= less
    ensures MemoryPercent(total, more) <= MemoryPercent(total, less)
  {
    if total > 0.0 {
      DivideMonotone(total - more, total - less, total);
    }
  }

  /** A node that reports no memory counts as using none of it. */
  lemma NoMemoryNoUsage(x: Input)
    requires x.current.memTotal <= 0.0
    ensures ProjectedMemory(x) == 0.0
  {
  }

  /** A process that expects more of any resource is never admitted where a smaller one was refused. */
  lemma MoreDemandNeverHelps(x: Input, e: Expected)
    requires ExpectsNoMore(x.expected, e)
    ensures CanStart(x.(expected := e)) ==> CanStart(x)
    ensures forall r :: Blocks(x, r) ==> Blocks(x.(expected := e), r)
    ensures x.config.limits.cpu >= 0.0 ==> RiskOf(x).Grade() <= RiskOf(x.(expected := e)).Grade()
  {
    ProjectionsMonotone(x, e);
    if x.config.limits.cpu >= 0.0 {
      var y := x.(expected := e);
      GradeRises(ProjectedCpu(x), ProjectedCpu(y), x.config.limits.cpu, ProjectedMemAvailable(x), ProjectedMemAvailable(y),
        x.config.limits.reserved);
    }
    ProjectedMemoryMonotone(x, e);
    SwapRiskMonotone(x.current, x.expected, e);
    SameSamples(x, e);
  }

  lemma SameSamples(x: Input, e: Expected)
    ensures var y := x.(expected := e);
            && CpuValues(y) == CpuValues(x) && MemAvailableValues(y) == MemAvailableValues(x)
            && CpuBase(y) == CpuBase(x) && MemAvailableBase(y) == MemAvailableBase(x)
  {
    var y := x.(expected := e);
    assert CpuValues(y) == CpuValues(x) && MemAvailableValues(y) == MemAvailableValues(x);
  }

  /**
   * What a demand costs: as much CPU and available memory as is demanded, times the multiplier it is
   * demanded with; the margins come on top, and without demand and margins the base is what is projected.
   */
  lemma DemandIsChargedInFull(x: Input, e: Expected)
    ensures var y := x.(expected := e);
            && ProjectedCpu(y) - ProjectedCpu(x) == e.cpu * e.cpuMultiplier - x.expected.cpu * x.expected.cpuMultiplier
            && ProjectedMemAvailable(x) - ProjectedMemAvailable(y) == e.memory * e.memMultiplier - x.expected.memory * x.expected.memMultiplier
    ensures x.expected.cpu == 0.0 ==> ProjectedCpu(x) == CpuBase(x) + x.config.limits.cpuMargin
    ensures x.expected.memory == 0.0 ==> ProjectedMemAvailable(x) == MemAvailableBase(x) - x.config.limits.memMargin
  {
    SameSamples(x, e);
  }

  /** The bases: smoothed CPU if that is on, never below the percentile; the memory percentile if that is on; else what is measured now. */
  lemma Bases(x: Input)
    ensures var smoothed := if x.config.on.ewma then EwmaOf(CpuValues(x), x.config.alpha) else None;
            var p := if x.config.on.percentile then PercentileOf(CpuValues(x), x.config.cpuPercentile) else None;
            var q := if x.config.on.percentile then PercentileOf(MemAvailableValues(x), x.config.memPercentile) else None;
            && (p.None? ==> CpuBase(x) == if smoothed.Some? then smoothed.value else x.current.cpu)
            && (p.Some? ==> CpuBase(x) >= p.value && (CpuBase(x) == p.value || CpuBase(x) == if smoothed.Some? then smoothed.value else x.current.cpu))
            && (p.Some? && smoothed.Some? ==> CpuBase(x) >= smoothed.value)
            && MemAvailableBase(x) == if q.Some? then q.value else x.current.memAvailable
  {
  }

  /** The projected usage is what is not available, in percent of the total, and never negative. */
  lemma ProjectedMemoryIsShareUsed(x: Input)
    requires x.current.memTotal > 0.0
    ensures ProjectedMemAvailable(x) <= x.current.memTotal ==>
              ProjectedMemory(x) * x.current.memTotal == (x.current.memTotal - ProjectedMemAvailable(x)) * 100.0
    ensures ProjectedMemAvailable(x) > x.current.memTotal ==> ProjectedMemory(x) == 0.0
  {
    var total, used := x.current.memTotal, x.current.memTotal - ProjectedMemAvailable(x);
    var q := used / total;
    assert q * total == used;
    if used >= 0.0 {
      DivideMonotone(0.0, used, total);
      assert q * 100.0 * total == q * total * 100.0;
    } else {
      DivideMonotone(used, 0.0, total);
      QuotientIs(0.0, 0.0, total);
    }
  }

  /** The instant CPU limit is only reported: whatever it is set to, the decision stays the same. */
  lemma InstantLimitNeverBlocks(x: Input, limit: real)
    ensures var y := x.(config := x.config.(limits := x.config.limits.(instantCpu := limit)));
            CanStart(y) == CanStart(x)
  {
    var y := x.(config := x.config.(limits := x.config.limits.(instantCpu := limit)));
    SameBases(x, limit);
    assert ProjectedCpu(y) == ProjectedCpu(x) && ProjectedMemAvailable(y) == ProjectedMemAvailable(x);
    assert ProjectedMemory(y) == ProjectedMemory(x);
  }

  lemma SameBases(x: Input, limit: real)
    ensures var y := x.(config := x.config.(limits := x.config.limits.(instantCpu := limit)));
            && CpuBase(y) == CpuBase(x) && MemAvailableBase(y) == MemAvailableBase(x)
            && CpuValues(y) == CpuValues(x) && MemAvailableValues(y) == MemAvailableValues(x)
  {
    var y := x.(config := x.config.(limits := x.config.limits.(instantCpu := limit)));
    assert CpuValues(y) == CpuValues(x) && MemAvailableValues(y) == MemAvailableValues(x);
  }

  /** A ratio as IEEE arithmetic compares it: dividing by zero gives an infinity, and nothing compares with 0 / 0. */
  predicate RatioAtLeast(x: real, d: real, t: real) {
    if d == 0.0 then x > 0.0 else x / d >= t
  }

  /** classify_risk. */
  function ClassifyRisk(cpu: real, cpuLimit: real, available: real, reserved: real): Risk {
    var m := if reserved > 0.0 then 1.0 - available / reserved else 0.0;
    if RatioAtLeast(cpu, cpuLimit, 1.0) || m >= 1.0 then Critical
    else if RatioAtLeast(cpu, cpuLimit, 0.85) || m >= 0.8 then High
    else if RatioAtLeast(cpu, cpuLimit, 0.7) || m >= 0.5 then Medium
    else Low
  }

  /** The projected CPU has reached this part of a threshold; nothing is part of a threshold of zero, anything above it is all of it. */
  predicate Reaches(cpu: real, limit: real, part: real) {
    if limit > 0.0 then cpu >= limit * part else if limit < 0.0 then cpu <= limit * part else cpu > 0.0
  }

  /** Not more than this part of the reserve is left, where there is a reserve. */
  predicate Uses(available: real, reserved: real, part: real) {
    reserved > 0.0 && available <= reserved * part
  }

  /**
   * The bands: critical from the whole threshold, or with nothing left of the reserve; high from
   * 85 percent, or a fifth left; medium from 70 percent, or half left.
   */
  lemma RiskBands(cpu: real, cpuLimit: real, available: real, reserved: real)
    ensures var g := ClassifyRisk(cpu, cpuLimit, available, reserved).Grade();
            && (g >= 3 <==> Reaches(cpu, cpuLimit, 1.0) || Uses(available, reserved, 0.0))
            && (g >= 2 <==> Reaches(cpu, cpuLimit, 0.85) || Uses(available, reserved, 0.2))
            && (g >= 1 <==> Reaches(cpu, cpuLimit, 0.7) || Uses(available, reserved, 0.5))
  {
    ReachesIff(cpu, cpuLimit, 1.0);
    ReachesIff(cpu, cpuLimit, 0.85);
    ReachesIff(cpu, cpuLimit, 0.7);
    if reserved > 0.0 {
      UsesIff(available, reserved, 0.0);
      UsesIff(available, reserved, 0.2);
      UsesIff(available, reserved, 0.5);
      BandsNest(available, reserved);
    }
    if cpuLimit > 0.0 {
      ScaleMonotone(cpuLimit, 0.7, 0.85);
      ScaleMonotone(cpuLimit, 0.85, 1.0);
    } else if cpuLimit < 0.0 {
      ScaleMonotone(-cpuLimit, 0.7, 0.85);
      ScaleMonotone(-cpuLimit, 0.85, 1.0);
    }
  }

  lemma BandsNest(available: real, reserved: real)
    requires reserved > 0.0
    ensures Uses(available, reserved, 0.0) ==> Uses(available, reserved, 0.2)
    ensures Uses(available, reserved, 0.2) ==> Uses(available, reserved, 0.5)
  {
    ScaleMonotone(reserved, 0.0, 0.2);
    ScaleMonotone(reserved, 0.2, 0.5);
  }

  lemma ReachesIff(cpu: real, limit: real, part: real)
    ensures RatioAtLeast(cpu, limit, part) <==> Reaches(cpu, limit, part)
  {
    if limit > 0.0 {
      QuotientAtLeast(cpu, limit, part);
    } else if limit < 0.0 {
      FlipSigns(cpu, limit);
      QuotientAtLeast(-cpu, -limit, part);
      assert (-limit) * part == -(limit * part);
    }
  }

  lemma UsesIff(available: real, reserved: real, part: real)
    requires reserved > 0.0
    ensures 1.0 - available / reserved >= 1.0 - part <==> Uses(available, reserved, part)
  {
    QuotientAbove(available, reserved, part);
  }

  lemma QuotientAtLeast(x: real, d: real, t: real)
    requires d > 0.0
    ensures x / d >= t <==> x >= d * t
  {
    var q := x / d;
    assert q * d == x;
    ProductOrder(q, t, d);
  }

  /** The grade does not fall when the projected CPU rises and the projected memory falls. */
  ghost predicate GradeFollowsDemand(cpuLimit: real) {
    forall cpu1, cpu2, available1, available2, reserved :: cpu1 <= cpu2 && available1 >= available2 ==>
      ClassifyRisk(cpu1, cpuLimit, available1, reserved).Grade() <= ClassifyRisk(cpu2, cpuLimit, available2, reserved).Grade()
  }

  /** More demand never lowers the grade, if and only if the CPU threshold is not negative. */
  lemma RiskMonotoneIff(cpuLimit: real)
    ensures GradeFollowsDemand(cpuLimit) <==> cpuLimit >= 0.0
  {
    if cpuLimit >= 0.0 {
      forall cpu1, cpu2, available1, available2, reserved | cpu1 <= cpu2 && available1 >= available2
        ensures ClassifyRisk(cpu1, cpuLimit, available1, reserved).Grade() <= ClassifyRisk(cpu2, cpuLimit, available2, reserved).Grade()
      {
        GradeRises(cpu1, cpu2, cpuLimit, available1, available2, reserved);
      }
    } else {
      assert cpuLimit / cpuLimit == 1.0;
      assert 0.0 / cpuLimit == 0.0;
      assert ClassifyRisk(cpuLimit, cpuLimit, 0.0, 0.0) == Critical && ClassifyRisk(0.0, cpuLimit, 0.0, 0.0) == Low;
    }
  }

  lemma GradeRises(cpu1: real, cpu2: real, cpuLimit: real, available1: real, available2: real, reserved: real)
    requires cpuLimit >= 0.0 && cpu1 <= cpu2 && available1 >= available2
    ensures ClassifyRisk(cpu1, cpuLimit, available1, reserved).Grade() <= ClassifyRisk(cpu2, cpuLimit, available2, reserved).Grade()
  {
    if cpuLimit > 0.0 {
      DivideMonotone(cpu1, cpu2, cpuLimit);
    }
    if reserved > 0.0 {
      DivideMonotone(available2, available1, reserved);
    }
  }

  /**
   * A start that is allowed is graded critical exactly when it uses up a positive CPU threshold to
   * the point, or when the threshold is negative.
   */
  lemma AllowedYetCriticalIff(x: Input)
    requires CanStart(x)
    ensures var limit := x.config.limits.cpu;
            RiskOf(x) == Critical <==> (limit > 0.0 && ProjectedCpu(x) == limit) || limit < 0.0
  {
    var cpu, limit := ProjectedCpu(x), x.config.limits.cpu;
    if limit > 0.0 {
      QuotientAgainstOne(cpu, limit);
    } else if limit < 0.0 {
      QuotientAgainstOne(-cpu, -limit);
      FlipSigns(cpu, limit);
    }
    if x.config.limits.reserved > 0.0 {
      QuotientAgainstOne(ProjectedMemAvailable(x), x.config.limits.reserved);
    }
  }

  lemma QuotientAgainstOne(x: real, d: real)
    requires d > 0.0
    ensures x / d >= 1.0 <==> x >= d
    ensures x / d > 0.0 <==> x > 0.0
  {
    var q := x / d;
    assert q * d == x && d / d == 1.0;
    if x >= d {
      DivideMonotone(d, x, d);
    }
    if q >= 1.0 {
      ScaleMonotone(d, 1.0, q);
    }
    if q > 0.0 {
      MulPositive(q, d);
    }
    if x > 0.0 && q <= 0.0 {
      MulNonNegative(-q, d);
    }
  }
}
