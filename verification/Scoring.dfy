/** Soft preferences among nodes that passed every hard constraint (scoring.go, freqRange), over reals. */
module Scoring {
  import opened RealArith

  datatype Weights = Weights(region: real, bandwidth: real, locality: real, history: real, balance: real,
                             degraded: real, frequency: real, cache: real)
  {
    predicate NonNegative() {
      region >= 0.0 && bandwidth >= 0.0 && locality >= 0.0 && history >= 0.0 && balance >= 0.0
      && degraded >= 0.0 && frequency >= 0.0 && cache >= 0.0
    }
  }

  const DEFAULT_WEIGHTS := Weights(1.0, 0.8, 0.5, 0.6, 0.7, 2.0, 0.0, 2.0)

  /** The spread of core frequencies among the candidates being compared. */
  datatype Range = Range(min: real, max: real)

  datatype ScoreInput = ScoreInput(
    regionMatch: bool,
    lastNodeMatch: bool,
    utilization: real,
    historyUtil: real,
    bandwidthRatio: real,
    degraded: bool,
    singleThreaded: bool,
    coreFrequency: real,
    range: Range,
    cacheAffinity: bool)

  function Clamp01(v: real): (r: real)
    ensures 0.0 <= r <= 1.0
    ensures 0.0 <= v <= 1.0 ==> r == v
  {
    if v < 0.0 then 0.0 else if v > 1.0 then 1.0 else v
  }

  function Flag(b: bool): real {
    if b then 1.0 else 0.0
  }

  function FrequencyPart(singleThreaded: bool, f: real, range: Range): real {
    if singleThreaded && range.max > range.min then (f - range.min) / (range.max - range.min) else 0.0
  }

  /** The contribution of each preference before weighting. */
  datatype Parts = Parts(region: real, bandwidth: real, locality: real, history: real, balance: real,
                         degraded: real, frequency: real, cache: real)
  {
    predicate AtMost(q: Parts) {
      region <= q.region && bandwidth <= q.bandwidth && locality <= q.locality && history <= q.history
      && balance <= q.balance && degraded <= q.degraded && frequency <= q.frequency && cache <= q.cache
    }
  }

  function PartsOf(x: ScoreInput): Parts {
    Parts(Flag(x.regionMatch), Clamp01(x.bandwidthRatio), Flag(x.lastNodeMatch), 1.0 - Clamp01(x.historyUtil),
          1.0 - Clamp01(x.utilization), -Flag(x.degraded),
          FrequencyPart(x.singleThreaded, x.coreFrequency, x.range), Flag(x.cacheAffinity))
  }

  function Scaled(p: Parts, w: Weights): Parts {
    Parts(w.region * p.region, w.bandwidth * p.bandwidth, w.locality * p.locality, w.history * p.history,
          w.balance * p.balance, w.degraded * p.degraded, w.frequency * p.frequency, w.cache * p.cache)
  }

  function Sum(p: Parts): real {
    p.region + p.bandwidth + p.locality + p.history + p.balance + p.degraded + p.frequency + p.cache
  }

  function Weighted(p: Parts, w: Weights): real {
    Sum(Scaled(p, w))
  }

  function ComputeScore(x: ScoreInput, w: Weights): real {
    Weighted(PartsOf(x), w)
  }

  /** b is at least as good as a on every preference, in the same comparison. */
  predicate Dominates(b: ScoreInput, a: ScoreInput) {
    && (a.regionMatch ==> b.regionMatch)
    && (a.lastNodeMatch ==> b.lastNodeMatch)
    && b.utilization <= a.utilization
    && b.historyUtil <= a.historyUtil
    && b.bandwidthRatio >= a.bandwidthRatio
    && (b.degraded ==> a.degraded)
    && b.singleThreaded == a.singleThreaded
    && b.range == a.range
    && b.coreFrequency >= a.coreFrequency
    && (a.cacheAffinity ==> b.cacheAffinity)
  }

  // ------------------------------------------------- what a preference is worth

  /** A node with nothing in its favour and nothing against it scores nothing. */
  lemma NothingScoresNothing(range: Range, w: Weights)
    ensures ComputeScore(ScoreInput(false, false, 1.0, 1.0, 0.0, false, false, 0.0, range, false), w) == 0.0
  {
  }

  // one lemma a part: the score is linear in each

  lemma RegionPart(p: Parts, w: Weights, u: real, v: real)
    ensures Weighted(p.(region := u), w) - Weighted(p.(region := v), w) == w.region * (u - v)
  {
    var a, b := Scaled(p.(region := u), w), Scaled(p.(region := v), w);
    assert a == b.(region := w.region * u) && b.region == w.region * v;
    Distribute(w.region, u, v);
  }

  lemma LocalityPart(p: Parts, w: Weights, u: real, v: real)
    ensures Weighted(p.(locality := u), w) - Weighted(p.(locality := v), w) == w.locality * (u - v)
  {
    var a, b := Scaled(p.(locality := u), w), Scaled(p.(locality := v), w);
    assert a == b.(locality := w.locality * u) && b.locality == w.locality * v;
    Distribute(w.locality, u, v);
  }

  lemma CachePart(p: Parts, w: Weights, u: real, v: real)
    ensures Weighted(p.(cache := u), w) - Weighted(p.(cache := v), w) == w.cache * (u - v)
  {
    var a, b := Scaled(p.(cache := u), w), Scaled(p.(cache := v), w);
    assert a == b.(cache := w.cache * u) && b.cache == w.cache * v;
    Distribute(w.cache, u, v);
  }

  lemma DegradedPart(p: Parts, w: Weights, u: real, v: real)
    ensures Weighted(p.(degraded := u), w) - Weighted(p.(degraded := v), w) == w.degraded * (u - v)
  {
    var a, b := Scaled(p.(degraded := u), w), Scaled(p.(degraded := v), w);
    assert a == b.(degraded := w.degraded * u) && b.degraded == w.degraded * v;
    Distribute(w.degraded, u, v);
  }

  lemma BalancePart(p: Parts, w: Weights, u: real, v: real)
    ensures Weighted(p.(balance := u), w) - Weighted(p.(balance := v), w) == w.balance * (u - v)
  {
    var a, b := Scaled(p.(balance := u), w), Scaled(p.(balance := v), w);
    assert a == b.(balance := w.balance * u) && b.balance == w.balance * v;
    Distribute(w.balance, u, v);
  }

  lemma HistoryPart(p: Parts, w: Weights, u: real, v: real)
    ensures Weighted(p.(history := u), w) - Weighted(p.(history := v), w) == w.history * (u - v)
  {
    var a, b := Scaled(p.(history := u), w), Scaled(p.(history := v), w);
    assert a == b.(history := w.history * u) && b.history == w.history * v;
    Distribute(w.history, u, v);
  }

  lemma BandwidthPart(p: Parts, w: Weights, u: real, v: real)
    ensures Weighted(p.(bandwidth := u), w) - Weighted(p.(bandwidth := v), w) == w.bandwidth * (u - v)
  {
    var a, b := Scaled(p.(bandwidth := u), w), Scaled(p.(bandwidth := v), w);
    assert a == b.(bandwidth := w.bandwidth * u) && b.bandwidth == w.bandwidth * v;
    Distribute(w.bandwidth, u, v);
  }

  lemma PlacePart(p: Parts, w: Weights, u: real, v: real)
    ensures Weighted(p.(frequency := u), w) - Weighted(p.(frequency := v), w) == w.frequency * (u - v)
  {
    var a, b := Scaled(p.(frequency := u), w), Scaled(p.(frequency := v), w);
    assert a == b.(frequency := w.frequency * u) && b.frequency == w.frequency * v;
    Distribute(w.frequency, u, v);
  }

  lemma RegionWorth(x: ScoreInput, w: Weights)
    ensures ComputeScore(x.(regionMatch := true), w) == ComputeScore(x.(regionMatch := false), w) + w.region
  {
    var p := PartsOf(x.(regionMatch := false));
    assert PartsOf(x.(regionMatch := true)) == p.(region := 1.0) && p == p.(region := 0.0);
    RegionPart(p, w, 1.0, 0.0);
  }

  lemma LocalityWorth(x: ScoreInput, w: Weights)
    ensures ComputeScore(x.(lastNodeMatch := true), w) == ComputeScore(x.(lastNodeMatch := false), w) + w.locality
  {
    var p := PartsOf(x.(lastNodeMatch := false));
    assert PartsOf(x.(lastNodeMatch := true)) == p.(locality := 1.0) && p == p.(locality := 0.0);
    LocalityPart(p, w, 1.0, 0.0);
  }

  lemma CacheWorth(x: ScoreInput, w: Weights)
    ensures ComputeScore(x.(cacheAffinity := true), w) == ComputeScore(x.(cacheAffinity := false), w) + w.cache
  {
    var p := PartsOf(x.(cacheAffinity := false));
    assert PartsOf(x.(cacheAffinity := true)) == p.(cache := 1.0) && p == p.(cache := 0.0);
    CachePart(p, w, 1.0, 0.0);
  }

  lemma DegradedWorth(x: ScoreInput, w: Weights)
    ensures ComputeScore(x.(degraded := true), w) == ComputeScore(x.(degraded := false), w) - w.degraded
  {
    var p := PartsOf(x.(degraded := false));
    assert PartsOf(x.(degraded := true)) == p.(degraded := -1.0) && p == p.(degraded := 0.0);
    DegradedPart(p, w, -1.0, 0.0);
  }

  lemma LoadWorth(x: ScoreInput, w: Weights, u: real, v: real)
    requires 0.0 <= u <= 1.0 && 0.0 <= v <= 1.0
    ensures ComputeScore(x.(utilization := u), w) - ComputeScore(x.(utilization := v), w) == w.balance * (v - u)
  {
    var p := PartsOf(x);
    assert PartsOf(x.(utilization := u)) == p.(balance := 1.0 - u) && PartsOf(x.(utilization := v)) == p.(balance := 1.0 - v);
    BalancePart(p, w, 1.0 - u, 1.0 - v);
  }

  lemma HistoryWorth(x: ScoreInput, w: Weights, u: real, v: real)
    requires 0.0 <= u <= 1.0 && 0.0 <= v <= 1.0
    ensures ComputeScore(x.(historyUtil := u), w) - ComputeScore(x.(historyUtil := v), w) == w.history * (v - u)
  {
    var p := PartsOf(x);
    assert PartsOf(x.(historyUtil := u)) == p.(history := 1.0 - u) && PartsOf(x.(historyUtil := v)) == p.(history := 1.0 - v);
    HistoryPart(p, w, 1.0 - u, 1.0 - v);
  }

  lemma BandwidthWorth(x: ScoreInput, w: Weights, u: real, v: real)
    requires 0.0 <= u <= 1.0 && 0.0 <= v <= 1.0
    ensures ComputeScore(x.(bandwidthRatio := u), w) - ComputeScore(x.(bandwidthRatio := v), w) == w.bandwidth * (u - v)
  {
    var p := PartsOf(x);
    assert PartsOf(x.(bandwidthRatio := u)) == p.(bandwidth := u) && PartsOf(x.(bandwidthRatio := v)) == p.(bandwidth := v);
    BandwidthPart(p, w, u, v);
  }

  /** Each yes-or-no preference is worth its weight, for or against, whatever else holds. */
  lemma FlagsAreWorthTheirWeights(x: ScoreInput, w: Weights)
    ensures ComputeScore(x.(regionMatch := true), w) == ComputeScore(x.(regionMatch := false), w) + w.region
    ensures ComputeScore(x.(lastNodeMatch := true), w) == ComputeScore(x.(lastNodeMatch := false), w) + w.locality
    ensures ComputeScore(x.(cacheAffinity := true), w) == ComputeScore(x.(cacheAffinity := false), w) + w.cache
    ensures ComputeScore(x.(degraded := true), w) == ComputeScore(x.(degraded := false), w) - w.degraded
  {
    RegionWorth(x, w);
    LocalityWorth(x, w);
    CacheWorth(x, w);
    DegradedWorth(x, w);
  }

  /** Load, history and bandwidth are worth their weight times the difference, within 0 and 1. */
  lemma LoadsAreWorthTheirDifference(x: ScoreInput, w: Weights, u: real, v: real)
    requires 0.0 <= u <= 1.0 && 0.0 <= v <= 1.0
    ensures ComputeScore(x.(utilization := u), w) - ComputeScore(x.(utilization := v), w) == w.balance * (v - u)
    ensures ComputeScore(x.(historyUtil := u), w) - ComputeScore(x.(historyUtil := v), w) == w.history * (v - u)
    ensures ComputeScore(x.(bandwidthRatio := u), w) - ComputeScore(x.(bandwidthRatio := v), w) == w.bandwidth * (u - v)
  {
    LoadWorth(x, w, u, v);
    HistoryWorth(x, w, u, v);
    BandwidthWorth(x, w, u, v);
  }

  /** And nothing beyond. */
  lemma BeyondIsNoBetter(x: ScoreInput, w: Weights, low: real, high: real)
    requires low < 0.0 && high > 1.0
    ensures ComputeScore(x.(utilization := low), w) == ComputeScore(x.(utilization := 0.0), w)
    ensures ComputeScore(x.(utilization := high), w) == ComputeScore(x.(utilization := 1.0), w)
    ensures ComputeScore(x.(historyUtil := low), w) == ComputeScore(x.(historyUtil := 0.0), w)
    ensures ComputeScore(x.(historyUtil := high), w) == ComputeScore(x.(historyUtil := 1.0), w)
    ensures ComputeScore(x.(bandwidthRatio := low), w) == ComputeScore(x.(bandwidthRatio := 0.0), w)
    ensures ComputeScore(x.(bandwidthRatio := high), w) == ComputeScore(x.(bandwidthRatio := 1.0), w)
  {
  }

  /** Core frequency counts for single-threaded instances among nodes that differ in it, by its place in their range. */
  lemma FrequencyIsWorthItsPlace(x: ScoreInput, w: Weights, f: real, g: real)
    ensures x.singleThreaded && x.range.max > x.range.min ==>
              ComputeScore(x.(coreFrequency := f), w) - ComputeScore(x.(coreFrequency := g), w)
              == w.frequency * ((f - g) / (x.range.max - x.range.min))
    ensures !x.singleThreaded || x.range.max <= x.range.min ==>
              ComputeScore(x.(coreFrequency := f), w) == ComputeScore(x.(coreFrequency := g), w)
    ensures ComputeScore(x.(singleThreaded := true, coreFrequency := x.range.min), w) == ComputeScore(x.(singleThreaded := false), w)
  {
    var p := PartsOf(x);
    assert PartsOf(x.(coreFrequency := f)) == p.(frequency := FrequencyPart(x.singleThreaded, f, x.range));
    assert PartsOf(x.(coreFrequency := g)) == p.(frequency := FrequencyPart(x.singleThreaded, g, x.range));
    if x.singleThreaded && x.range.max > x.range.min {
      var d := x.range.max - x.range.min;
      FrequencyPartWorth(p, w, f - x.range.min, g - x.range.min, d);
      assert (f - x.range.min) - (g - x.range.min) == f - g;
    }
    LowestFrequencyCountsNothing(x, w);
  }

  lemma FrequencyPartWorth(p: Parts, w: Weights, f: real, g: real, d: real)
    requires d > 0.0
    ensures Weighted(p.(frequency := f / d), w) - Weighted(p.(frequency := g / d), w) == w.frequency * ((f - g) / d)
  {
    PlacePart(p, w, f / d, g / d);
    DifferenceOfQuotients(f, g, d);
  }

  lemma LowestFrequencyCountsNothing(x: ScoreInput, w: Weights)
    ensures ComputeScore(x.(singleThreaded := true, coreFrequency := x.range.min), w) == ComputeScore(x.(singleThreaded := false), w)
  {
    var d := x.range.max - x.range.min;
    if d > 0.0 {
      QuotientIs(0.0, 0.0, d);
    }
    assert PartsOf(x.(singleThreaded := true, coreFrequency := x.range.min)) == PartsOf(x.(singleThreaded := false));
  }

  lemma DifferenceOfQuotients(x: real, y: real, d: real)
    requires d > 0.0
    ensures x / d - y / d == (x - y) / d
  {
    var p, q := x / d, y / d;
    assert p * d == x && q * d == y;
    Distribute(d, p, q);
    QuotientIs(p - q, x - y, d);
  }

  lemma Distribute(w: real, x: real, y: real)
    ensures w * x - w * y == w * (x - y)
  {
  }

  lemma ScaleStrict(w: real, x: real, y: real)
    requires w > 0.0 && x < y
    ensures w * x < w * y
  {
    assert w * (y - x) > 0.0;
  }

  lemma PartsMonotone(a: ScoreInput, b: ScoreInput)
    requires Dominates(b, a)
    ensures PartsOf(a).AtMost(PartsOf(b))
  {
    if a.range.max > a.range.min {
      DivideMonotone(a.coreFrequency - a.range.min, b.coreFrequency - a.range.min, a.range.max - a.range.min);
    }
  }

  lemma ScaledMonotone(p: Parts, q: Parts, w: Weights)
    requires w.NonNegative() && p.AtMost(q)
    ensures Scaled(p, w).AtMost(Scaled(q, w))
  {
    ScaleMonotone(w.region, p.region, q.region);
    ScaleMonotone(w.bandwidth, p.bandwidth, q.bandwidth);
    ScaleMonotone(w.locality, p.locality, q.locality);
    ScaleMonotone(w.history, p.history, q.history);
    ScaleMonotone(w.balance, p.balance, q.balance);
    ScaleMonotone(w.degraded, p.degraded, q.degraded);
    ScaleMonotone(w.frequency, p.frequency, q.frequency);
    ScaleMonotone(w.cache, p.cache, q.cache);
  }

  lemma SumMonotone(p: Parts, q: Parts)
    requires p.AtMost(q)
    ensures Sum(p) <= Sum(q)
  {
  }

  /** With non-negative weights no preference ever works against a node. */
  lemma ScoreIsMonotone(a: ScoreInput, b: ScoreInput, w: Weights)
    requires w.NonNegative() && Dominates(b, a)
    ensures ComputeScore(a, w) <= ComputeScore(b, w)
  {
    PartsMonotone(a, b);
    ScaledMonotone(PartsOf(a), PartsOf(b), w);
    SumMonotone(Scaled(PartsOf(a), w), Scaled(PartsOf(b), w));
  }

  lemma DefaultSum(p: Parts)
    ensures Weighted(p, DEFAULT_WEIGHTS)
            == p.region + 0.8 * p.bandwidth + 0.5 * p.locality + 0.6 * p.history + 0.7 * p.balance
               + 2.0 * p.degraded + 2.0 * p.cache
  {
    var w := DEFAULT_WEIGHTS;
    assert w.region == 1.0 && w.bandwidth == 0.8 && w.locality == 0.5 && w.history == 0.6;
    assert w.balance == 0.7 && w.degraded == 2.0 && w.frequency == 0.0 && w.cache == 2.0;
  }

  /** With the default weights a node that already holds the cache beats any merely less loaded one. */
  lemma CacheBeatsLoad(warm: ScoreInput, cold: ScoreInput)
    requires warm.cacheAffinity && !cold.cacheAffinity
    requires warm.regionMatch == cold.regionMatch && warm.lastNodeMatch == cold.lastNodeMatch
    requires warm.degraded == cold.degraded && warm.bandwidthRatio == cold.bandwidthRatio
    ensures ComputeScore(warm, DEFAULT_WEIGHTS) >= ComputeScore(cold, DEFAULT_WEIGHTS) + 0.7
  {
    DefaultSum(PartsOf(warm));
    DefaultSum(PartsOf(cold));
  }

  // ------------------------------------------------------------ frequency range

  function MinStep(min: real, f: real): real {
    if min == 0.0 || f < min then f else min
  }

  function MaxStep(max: real, f: real): real {
    if f > max then f else max
  }

  /** What the freqRange loop has computed after the candidates fs, in list order. */
  function FreqRange(fs: seq<real>): Range {
    if fs == [] then Range(0.0, 0.0)
    else
      var r := FreqRange(fs[..|fs| - 1]);
      Range(MinStep(r.min, fs[|fs| - 1]), MaxStep(r.max, fs[|fs| - 1]))
  }

  ghost predicate AllZero(fs: seq<real>) {
    forall i :: 0 <= i < |fs| ==> fs[i] == 0.0
  }

  ghost predicate AllPositive(fs: seq<real>) {
    forall i :: 0 <= i < |fs| ==> fs[i] > 0.0
  }

  ghost predicate Measured(fs: seq<real>) {
    forall i :: 0 <= i < |fs| ==> fs[i] >= 0.0
  }

  /** The maximum never depends on the order. */
  lemma {:induction false} MaxIsTheMaximum(fs: seq<real>)
    requires Measured(fs)
    ensures forall i :: 0 <= i < |fs| ==> fs[i] <= FreqRange(fs).max
    ensures FreqRange(fs).max in fs || FreqRange(fs).max == 0.0
    ensures FreqRange(fs).max >= 0.0
  {
    if fs != [] {
      MaxIsTheMaximum(fs[..|fs| - 1]);
    }
  }

  lemma {:induction false} MinOfZeros(fs: seq<real>)
    requires AllZero(fs)
    ensures FreqRange(fs) == Range(0.0, 0.0)
  {
    if fs != [] {
      MinOfZeros(fs[..|fs| - 1]);
    }
  }

  lemma {:induction false} MinOfPositives(fs: seq<real>)
    requires AllPositive(fs) && fs != []
    ensures FreqRange(fs).min in fs
    ensures forall i :: 0 <= i < |fs| ==> FreqRange(fs).min <= fs[i]
  {
    if |fs| > 1 {
      MinOfPositives(fs[..|fs| - 1]);
    }
  }

  /** Zeros in front are forgotten; a zero at the end wins. */
  lemma {:induction false} ZerosFirst(zs: seq<real>, ps: seq<real>)
    requires AllZero(zs) && AllPositive(ps) && ps != []
    ensures FreqRange(zs + ps).min == FreqRange(ps).min
  {
    var init := ps[..|ps| - 1];
    assert (zs + ps)[..|zs + ps| - 1] == zs + init;
    if init == [] {
      assert zs + init == zs;
      MinOfZeros(zs);
    } else {
      ZerosFirst(zs, init);
    }
  }

  lemma {:induction false} ZerosLast(ps: seq<real>, zs: seq<real>)
    requires AllZero(zs) && AllPositive(ps) && zs != []
    ensures FreqRange(ps + zs).min == 0.0
  {
    var init := zs[..|zs| - 1];
    var before := ps + init;
    assert (ps + zs)[..|ps + zs| - 1] == before;
    if init != [] {
      ZerosLast(ps, init);
    } else {
      assert before == ps;
      if ps != [] {
        MinOfPositives(ps);
      }
    }
  }

  /** The same candidates in another order. */
  ghost predicate Reordered(s: seq<real>, t: seq<real>) {
    multiset(s) == multiset(t)
  }

  lemma SameElements(s: seq<real>, t: seq<real>)
    requires Reordered(s, t)
    ensures forall f :: f in s <==> f in t
    ensures |s| == |t|
    ensures Measured(s) ==> Measured(t)
    ensures AllZero(s) ==> AllZero(t)
    ensures AllPositive(s) ==> AllPositive(t)
  {
    assert |multiset(s)| == |s| && |multiset(t)| == |t|;
    forall f ensures f in s <==> f in t {
      assert f in multiset(s) <==> f in multiset(t);
    }
    forall i | 0 <= i < |t|
      ensures t[i] in s
    {
      assert t[i] in t;
    }
  }

  function Zeros(fs: seq<real>): (r: seq<real>)
    ensures AllZero(r)
  {
    if fs == [] then [] else (if fs[0] == 0.0 then [fs[0]] else []) + Zeros(fs[1..])
  }

  function Positives(fs: seq<real>): (r: seq<real>)
    ensures AllPositive(r)
  {
    if fs == [] then [] else (if fs[0] > 0.0 then [fs[0]] else []) + Positives(fs[1..])
  }

  lemma {:induction false} Partition(fs: seq<real>)
    requires Measured(fs)
    ensures multiset(fs) == multiset(Zeros(fs)) + multiset(Positives(fs))
  {
    if fs != [] {
      assert fs == [fs[0]] + fs[1..];
      Partition(fs[1..]);
    }
  }

  ghost predicate RangeIgnoresOrder(fs: seq<real>) {
    forall t :: Reordered(fs, t) ==> FreqRange(t) == FreqRange(fs)
  }

  lemma RangeOfReordered(fs: seq<real>, t: seq<real>)
    requires Measured(fs) && Reordered(fs, t)
    ensures FreqRange(t).max == FreqRange(fs).max
    ensures AllZero(fs) || AllPositive(fs) ==> FreqRange(t) == FreqRange(fs)
  {
    SameElements(fs, t);
    MaxIsTheMaximum(fs);
    MaxIsTheMaximum(t);
    if AllZero(fs) {
      MinOfZeros(fs);
      MinOfZeros(t);
    } else if AllPositive(fs) {
      MinOfPositives(fs);
      MinOfPositives(t);
    }
  }

  /** The two extreme orders of a list that mixes unknown (zero) and known frequencies. */
  lemma MixedExtremes(fs: seq<real>) returns (first: seq<real>, last: seq<real>)
    requires Measured(fs) && !AllZero(fs) && !AllPositive(fs)
    ensures Reordered(fs, first) && Reordered(fs, last)
    ensures FreqRange(first).min > 0.0 && FreqRange(last).min == 0.0
    ensures FreqRange(first).min in fs
  {
    var zs, ps := Zeros(fs), Positives(fs);
    Partition(fs);
    BothKinds(fs);
    first, last := zs + ps, ps + zs;
    ZerosFirst(zs, ps);
    ZerosLast(ps, zs);
    MinOfPositives(ps);
    SameElements(fs, first);
    assert FreqRange(ps).min in first;
  }

  /** The minimum of the loop is one of the frequencies, if not always the least. */
  lemma {:induction false} MinIsAmong(fs: seq<real>)
    requires Measured(fs) && fs != []
    ensures FreqRange(fs).min in fs
  {
    if |fs| > 1 {
      MinIsAmong(fs[..|fs| - 1]);
    }
  }

  /** Some order makes any chosen one of them the minimum: the positive ones last after the unknown ones, or an unknown one last. */
  lemma OrderWithMin(fs: seq<real>, f: real) returns (t: seq<real>)
    requires Measured(fs) && !AllZero(fs) && !AllPositive(fs) && f in fs
    ensures Reordered(fs, t) && FreqRange(t).min == f
  {
    var zs, ps := Zeros(fs), Positives(fs);
    Partition(fs);
    BothKinds(fs);
    if f == 0.0 {
      t := ps + zs;
      ZerosLast(ps, zs);
    } else {
      InPositives(fs, f);
      var others := TakeOut(ps, f);
      ZerosLast(others, zs);
      t := others + zs + [f];
      assert t[..|t| - 1] == others + zs;
    }
  }

  lemma {:induction false} InPositives(fs: seq<real>, f: real)
    requires f in fs && f > 0.0
    ensures f in Positives(fs)
  {
    if fs[0] != f {
      InPositives(fs[1..], f);
    }
  }

  lemma TakeOut(ps: seq<real>, f: real) returns (others: seq<real>)
    requires AllPositive(ps) && f in ps
    ensures AllPositive(others) && multiset(ps) == multiset(others) + multiset{f}
  {
    var i :| 0 <= i < |ps| && ps[i] == f;
    assert ps == ps[..i] + [f] + ps[i + 1..];
    others := ps[..i] + ps[i + 1..];
  }

  lemma {:induction false} BothKinds(fs: seq<real>)
    requires Measured(fs)
    ensures !AllPositive(fs) ==> Zeros(fs) != []
    ensures !AllZero(fs) ==> Positives(fs) != []
  {
    if fs != [] {
      BothKinds(fs[1..]);
    }
  }

  /**
   * The normalization range is a property of the candidates, whatever their order, exactly when
   * their frequencies are all known or all unknown (zero).
   */
  lemma RangeIgnoresOrderIff(fs: seq<real>)
    requires Measured(fs)
    ensures RangeIgnoresOrder(fs) <==> AllZero(fs) || AllPositive(fs)
  {
    if AllZero(fs) || AllPositive(fs) {
      forall t | Reordered(fs, t)
        ensures FreqRange(t) == FreqRange(fs)
      {
        RangeOfReordered(fs, t);
      }
    } else {
      var first, last := MixedExtremes(fs);
      assert FreqRange(first) != FreqRange(last);
    }
  }

  /** freqRange. */
  method MeasureRange(fs: seq<real>) returns (r: Range)
    ensures r == FreqRange(fs)
  {
    var min, max := 0.0, 0.0;
    for k := 0 to |fs|
      invariant Range(min, max) == FreqRange(fs[..k])
    {
      var f := fs[k];
      assert fs[..k + 1][..k] == fs[..k] && fs[..k + 1][k] == f;
      if min == 0.0 || f < min {
        min := f;
      }
      if f > max {
        max := f;
      }
    }
    assert fs[..|fs|] == fs;
    r := Range(min, max);
  }
}
