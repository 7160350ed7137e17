/** Single-feature statistics of a labeled population (src/airi/evaluation/calculator.py):
    what one report says about a list of rows, written as functions. `Calculator` holds the
    loops that compute it; the `*Laws` modules say what the report means on the raw rows.
    Decimal arithmetic is modelled exactly, by `real`. */
module Evaluation {
  import opened Options
  import opened Sorting

  datatype Row = Row(value: Option<real>, bad: bool)

  datatype Policy = Policy(bins: nat, epsilon: real, percentiles: seq<nat>, minLabeledSamples: nat)

  /** What `EvaluationPolicy` validates on construction. */
  ghost predicate ValidPolicy(policy: Policy) {
    && 2 <= policy.bins <= 20
    && 0.0 < policy.epsilon <= 0.01
    && policy.percentiles != []
    && (forall p | p in policy.percentiles :: p in {50, 75, 90, 95, 99})
    && (forall i, j | 0 <= i < j < |policy.percentiles| :: policy.percentiles[i] != policy.percentiles[j])
  }

  datatype Bin = Bin(
    bucket: nat, isNull: bool, lower: Option<real>, upper: Option<real>,
    count: nat, good: nat, bad: nat, badRate: Option<real>, lift: Option<real>,
    goodPct: Option<real>, badPct: Option<real>, woe: Option<real>, ivComponent: Option<real>)

  datatype Direction = HigherIsRiskier | LowerIsRiskier | Undetermined

  datatype KsResult = KsResult(
    available: bool, value: Option<real>, ascending: Option<real>, descending: Option<real>,
    bucket: Option<nat>, direction: Direction, split: Option<real>)

  datatype Origin = Percentile(p: nat) | KsBestSplit

  datatype Candidate = Candidate(
    threshold: real, atLeast: bool, sources: seq<Origin>,
    hitCount: nat, hitRate: Option<real>, badCount: nat, goodCount: nat,
    badRate: Option<real>, precision: Option<real>, recall: Option<real>, lift: Option<real>)

  datatype Distribution = Distribution(
    count: nat, nullCount: nat, min: Option<real>, max: Option<real>, mean: Option<real>,
    p25: Option<real>, p50: Option<real>, p75: Option<real>,
    p90: Option<real>, p95: Option<real>, p99: Option<real>)

  datatype Warning =
    | InsufficientSample | ClassImbalanceExtreme | CoverageTooLow
    | OverallBadRateZero | KsNotAvailable | DirectionUndetermined

  datatype Report = Report(
    metricName: string, totalSample: nat, labeledSample: nat, goodCount: nat, badCount: nat,
    nonNullMetric: nat, nullMetric: nat, coverage: Option<real>, badRate: Option<real>,
    distribution: Distribution, requestedBins: nat, actualBins: nat, bins: seq<Bin>,
    ks: KsResult, iv: Option<real>, epsilon: real, candidates: seq<Candidate>,
    warnings: seq<Warning>)

  // ------------------------------------------------------------ rows

  function Values(rows: seq<Row>): (r: seq<real>)
    ensures |r| <= |rows|
    ensures forall v :: v in r <==> Row(Some(v), true) in rows || Row(Some(v), false) in rows
  {
    if rows == [] then []
    else
      var rest := Values(rows[1..]);
      assert rows == [rows[0]] + rows[1..];
      match rows[0].value
      case Some(v) =>
        assert rows[0] == Row(Some(v), true) || rows[0] == Row(Some(v), false);
        [v] + rest
      case None => rest
  }

  lemma {:induction false} ValueOfRow(rows: seq<Row>, r: Row)
    requires r in rows && r.value.Some?
    ensures r.value.value in Values(rows)
  {
    assert r == Row(Some(r.value.value), true) || r == Row(Some(r.value.value), false);
  }

  function IsNull(): Row -> bool { (r: Row) => r.value.None? }

  function IsBad(): Row -> bool { (r: Row) => r.bad }

  function SortedValues(rows: seq<Row>): seq<real> { SortBy(RealLe, Values(rows)) }

  function NullRows(rows: seq<Row>): seq<Row> { Filter(IsNull(), rows) }

  function Sum(s: seq<real>): real { if s == [] then 0.0 else s[0] + Sum(s[1..]) }

  function Min(s: seq<real>): (m: real)
    requires s != []
    ensures m in s && forall v | v in s :: m <= v
  {
    assert s == [s[0]] + s[1..];
    if |s| == 1 then s[0] else var m := Min(s[1..]); if s[0] <= m then s[0] else m
  }

  function Max(s: seq<real>): (m: real)
    requires s != []
    ensures m in s && forall v | v in s :: v <= m
  {
    assert s == [s[0]] + s[1..];
    if |s| == 1 then s[0] else var m := Max(s[1..]); if m <= s[0] then s[0] else m
  }

  // ------------------------------------------------------------ quantiles and ratios

  /** Linear interpolation at a fractional index. */
  function At(values: seq<real>, position: real): real
    requires 0.0 <= position <= (|values| - 1) as real
  {
    var lo := position.Floor;
    var hi := if lo + 1 <= |values| - 1 then lo + 1 else |values| - 1;
    values[lo] + (values[hi] - values[lo]) * (position - lo as real)
  }

  function Position(count: nat, percentile: real): (position: real)
    requires count > 0 && 0.0 <= percentile <= 100.0
    ensures 0.0 <= position <= (count - 1) as real
  {
    var position := (count - 1) as real * percentile / 100.0;
    assert (count - 1) as real * percentile <= (count - 1) as real * 100.0;
    position
  }

  function Quantile(values: seq<real>, percentile: real): Option<real>
    requires 0.0 <= percentile <= 100.0
  {
    if values == [] then None else Some(At(values, Position(|values|, percentile)))
  }

  function Ratio(numerator: int, denominator: int): Option<real> {
    if denominator != 0 then Some(numerator as real / denominator as real) else None
  }

  function Lift(rate: Option<real>, overall: Option<real>): Option<real> {
    if rate.Some? && overall.Some? && overall.value != 0.0 then Some(rate.value / overall.value) else None
  }

  // ------------------------------------------------------------ bins

  function CutPoints(values: seq<real>, bins: nat, i: nat): seq<real>
    requires values != [] && 1 <= i
    decreases bins - i
  {
    if i >= bins then []
    else [Quantile(values, CutPercentile(bins, i)).value] + CutPoints(values, bins, i + 1)
  }

  function CutPercentile(bins: nat, i: nat): (percentile: real)
    requires i < bins
    ensures 0.0 <= percentile <= 100.0
  {
    var percentile := i as real * 100.0 / bins as real;
    DivideWithin(i as real * 100.0, bins as real, 100.0);
    percentile
  }

  lemma {:induction false} DivideWithin(a: real, b: real, limit: real)
    requires 0.0 < b && 0.0 <= a <= limit * b
    ensures 0.0 <= a / b <= limit
  {
    assert a / b * b == a;
  }

  function Boundaries(values: seq<real>, bins: nat): seq<real> {
    if values == [] then [] else SortedSet(RealLe, CutPoints(values, bins, 1))
  }

  /** Python's `bisect_right` on sorted boundaries: how many of them are at most `v`. */
  function BisectRight(boundaries: seq<real>, v: real): (k: nat)
    ensures k <= |boundaries|
  {
    if boundaries == [] || v < boundaries[0] then 0 else 1 + BisectRight(boundaries[1..], v)
  }

  function InBucket(boundaries: seq<real>, k: nat): Row -> bool {
    (r: Row) => r.value.Some? && BisectRight(boundaries, r.value.value) == k
  }

  function Bucket(rows: seq<Row>, boundaries: seq<real>, k: nat): (group: seq<Row>)
    ensures group != [] ==> group[0].value.Some?
  {
    var group := Filter(InBucket(boundaries, k), rows);
    assert group != [] ==> group[0] in group;
    group
  }

  function Bad(rows: seq<Row>): nat { Count(IsBad(), rows) }

  function Good(rows: seq<Row>): nat {
    CountIsFilter(IsBad(), rows);
    |rows| - Bad(rows)
  }

  function Summarize(index: nat, group: seq<Row>, overall: Option<real>): Bin {
    var isNull := group == [] || group[0].value.None?;
    var rate := Ratio(Bad(group), |group|);
    var values := Values(group);
    Bin(index, isNull,
        if isNull || values == [] then None else Some(Min(values)),
        if isNull || values == [] then None else Some(Max(values)),
        |group|, Good(group), Bad(group), rate, Lift(rate, overall), None, None, None, None)
  }

  function Groups(rows: seq<Row>, boundaries: seq<real>, k: nat): seq<seq<Row>>
    decreases |boundaries| + 1 - k
  {
    if k > |boundaries| then []
    else
      (if Bucket(rows, boundaries, k) != [] then [Bucket(rows, boundaries, k)] else [])
      + Groups(rows, boundaries, k + 1)
  }

  function SummarizeAll(groups: seq<seq<Row>>, overall: Option<real>): seq<Bin> {
    seq(|groups|, (i: nat) requires i < |groups| => Summarize(i, groups[i], overall))
  }

  function AllGroups(rows: seq<Row>, boundaries: seq<real>): seq<seq<Row>> {
    Groups(rows, boundaries, 0) + (if NullRows(rows) != [] then [NullRows(rows)] else [])
  }

  function RawBins(rows: seq<Row>, policy: Policy): seq<Bin> {
    var boundaries := Boundaries(SortedValues(rows), policy.bins);
    SummarizeAll(AllGroups(rows, boundaries), Ratio(Bad(rows), |rows|))
  }

  // ------------------------------------------------------------ information value

  /** Additively smoothed share of one class that falls into one bin. */
  function Share(part: nat, total: nat, bins: nat, epsilon: real): (share: real)
    requires total > 0 && epsilon > 0.0
    ensures share > 0.0
  {
    var denominator := total as real + epsilon * bins as real;
    assert epsilon * bins as real >= 0.0;
    PositiveQuotient(part as real + epsilon, denominator);
    (part as real + epsilon) / denominator
  }

  lemma {:induction false} PositiveQuotient(a: real, b: real)
    requires a > 0.0 && b > 0.0
    ensures a / b > 0.0
  {
    assert a / b * b == a;
  }

  /** Weight of evidence of one bin. */
  function Woe(goodPct: real, badPct: real, ln: real -> real): real
    requires badPct > 0.0
  {
    ln(goodPct / badPct)
  }

  function Component(goodPct: real, badPct: real, ln: real -> real): real
    requires badPct > 0.0
  {
    (goodPct - badPct) * Woe(goodPct, badPct, ln)
  }

  function Smooth(bin: Bin, good: nat, bad: nat, bins: nat, epsilon: real, ln: real -> real): Bin
    requires good > 0 && bad > 0 && epsilon > 0.0
  {
    var gp := Share(bin.good, good, bins, epsilon);
    var bp := Share(bin.bad, bad, bins, epsilon);
    bin.(goodPct := Some(gp), badPct := Some(bp), woe := Some(Woe(gp, bp, ln)), ivComponent := Some(Component(gp, bp, ln)))
  }

  function SmoothAll(bins: seq<Bin>, good: nat, bad: nat, epsilon: real, ln: real -> real): seq<Bin>
    requires good > 0 && bad > 0 && epsilon > 0.0
  {
    seq(|bins|, (i: nat) requires i < |bins| => Smooth(bins[i], good, bad, |bins|, epsilon, ln))
  }

  function IvPart(bin: Bin): real { if bin.ivComponent.Some? then bin.ivComponent.value else 0.0 }

  function SumIv(bins: seq<Bin>): real {
    if bins == [] then 0.0 else SumIv(bins[..|bins| - 1]) + IvPart(bins[|bins| - 1])
  }

  // ------------------------------------------------------------ KS

  function IsNumeric(): Bin -> bool { (b: Bin) => !b.isNull }

  function Numeric(bins: seq<Bin>): seq<Bin> { Filter(IsNumeric(), bins) }

  /** Good (bad) members of the first `i` bins. */
  function CumGood(bins: seq<Bin>, i: nat): nat
    requires i <= |bins|
  {
    if i == 0 then 0 else CumGood(bins, i - 1) + bins[i - 1].good
  }

  function CumBad(bins: seq<Bin>, i: nat): nat
    requires i <= |bins|
  {
    if i == 0 then 0 else CumBad(bins, i - 1) + bins[i - 1].bad
  }

  /** A count as a fraction of a nonzero total. */
  function Frac(part: nat, total: nat): real
    requires total != 0
  {
    part as real / total as real
  }

  /** The signed gap between the class distributions after bin `i`. */
  function Gap(bins: seq<Bin>, i: nat): real
    requires i < |bins| && CumGood(bins, |bins|) != 0 && CumBad(bins, |bins|) != 0
  {
    Frac(CumGood(bins, i + 1), CumGood(bins, |bins|)) - Frac(CumBad(bins, i + 1), CumBad(bins, |bins|))
  }

  function Abs(x: real): real { if x < 0.0 then -x else x }

  /** The first index of greatest magnitude: `max(range(n), key=...)`. */
  function ArgMax(gaps: seq<real>): (index: nat)
    requires gaps != []
    ensures index < |gaps|
    ensures forall j | 0 <= j < |gaps| :: Abs(gaps[j]) <= Abs(gaps[index])
    ensures forall j | 0 <= j < index :: Abs(gaps[j]) < Abs(gaps[index])
  {
    if |gaps| == 1 then 0
    else
      var best := ArgMax(gaps[..|gaps| - 1]);
      if Abs(gaps[|gaps| - 1]) > Abs(gaps[best]) then |gaps| - 1 else best
  }

  function Gaps(bins: seq<Bin>): seq<real>
    requires CumGood(bins, |bins|) != 0 && CumBad(bins, |bins|) != 0
  {
    seq(|bins|, (i: nat) requires i < |bins| => Gap(bins, i))
  }

  const KS_NOT_AVAILABLE := KsResult(false, None, None, None, None, Undetermined, None)

  function DirectionOf(gap: real): Direction {
    if gap > 0.0 then HigherIsRiskier else if gap < 0.0 then LowerIsRiskier else Undetermined
  }

  function KsFrom(numeric: seq<Bin>, gaps: seq<real>): KsResult
    requires |gaps| == |numeric| > 0
  {
    var index := ArgMax(gaps);
    var maximum := Abs(gaps[index]);
    var direction := DirectionOf(gaps[index]);
    var split :=
      if direction == HigherIsRiskier && index + 1 < |numeric| then numeric[index + 1].lower
      else if direction == LowerIsRiskier then numeric[index].upper
      else None;
    KsResult(true, Some(maximum), Some(maximum), Some(maximum), Some(numeric[index].bucket), direction, split)
  }

  function Ks(numeric: seq<Bin>): KsResult {
    if CumGood(numeric, |numeric|) != 0 && CumBad(numeric, |numeric|) != 0
    then KsFrom(numeric, Gaps(numeric))
    else KS_NOT_AVAILABLE
  }

  // ------------------------------------------------------------ threshold candidates

  predicate Hits(threshold: real, atLeast: bool, v: Option<real>) {
    v.Some? && (if atLeast then v.value >= threshold else v.value <= threshold)
  }

  function Hit(threshold: real, atLeast: bool): Row -> bool {
    (r: Row) => Hits(threshold, atLeast, r.value)
  }

  /** The requested percentile values, in request order, then the KS split if there is one. */
  function Proposals(values: seq<real>, percentiles: seq<nat>, split: Option<real>): seq<(real, Origin)>
    requires values != [] && forall p | p in percentiles :: p <= 100
  {
    seq(|percentiles|, (i: nat) requires i < |percentiles| && percentiles[i] in percentiles =>
      (Quantile(values, percentiles[i] as real).value, Percentile(percentiles[i])))
    + (if split.Some? then [(split.value, KsBestSplit)] else [])
  }

  function Thresholds(proposals: seq<(real, Origin)>): seq<real> {
    if proposals == [] then [] else [proposals[0].0] + Thresholds(proposals[1..])
  }

  function SourcesOf(proposals: seq<(real, Origin)>, threshold: real): seq<Origin> {
    if proposals == [] then []
    else (if proposals[0].0 == threshold then [proposals[0].1] else []) + SourcesOf(proposals[1..], threshold)
  }

  function Measure(rows: seq<Row>, threshold: real, atLeast: bool, sources: seq<Origin>): Candidate {
    var hits := Filter(Hit(threshold, atLeast), rows);
    var rate := Ratio(Bad(hits), |hits|);
    Candidate(threshold, atLeast, sources, |hits|, Ratio(|hits|, |rows|), Bad(hits), Good(hits),
              rate, rate, Ratio(Bad(hits), Bad(rows)), Lift(rate, Ratio(Bad(rows), |rows|)))
  }

  function Candidates(rows: seq<Row>, policy: Policy, ks: KsResult): seq<Candidate>
    requires forall p | p in policy.percentiles :: p <= 100
    requires ks.direction != Undetermined ==> Values(rows) != []
  {
    if ks.direction == Undetermined then []
    else
      SortedNonEmpty(Values(rows));
      var proposals := Proposals(SortedValues(rows), policy.percentiles, ks.split);
      var thresholds := SortedSet(RealLe, Thresholds(proposals));
      seq(|thresholds|, (i: nat) requires i < |thresholds| =>
        Measure(rows, thresholds[i], ks.direction == HigherIsRiskier, SourcesOf(proposals, thresholds[i])))
  }

  lemma {:induction false} SortedNonEmpty(values: seq<real>)
    ensures values != [] ==> SortBy(RealLe, values) != []
  {
    RealLeOrder();
    SortedPermutation(RealLe, values);
  }

  // ------------------------------------------------------------ the report

  function PercentileOf(rows: seq<Row>, p: nat): Option<real>
    requires p <= 100
  {
    Quantile(SortedValues(rows), p as real)
  }

  function DistributionOf(rows: seq<Row>): Distribution {
    var values := SortedValues(rows);
    Distribution(
      |values|, |NullRows(rows)|,
      if values != [] then Some(values[0]) else None,
      if values != [] then Some(values[|values| - 1]) else None,
      if values != [] then Some(Sum(values) / |values| as real) else None,
      PercentileOf(rows, 25), PercentileOf(rows, 50), PercentileOf(rows, 75),
      PercentileOf(rows, 90), PercentileOf(rows, 95), PercentileOf(rows, 99))
  }

  function Bins(rows: seq<Row>, policy: Policy, ln: real -> real): seq<Bin>
    requires policy.epsilon > 0.0
  {
    var raw := RawBins(rows, policy);
    if Good(rows) != 0 && Bad(rows) != 0 then SmoothAll(raw, Good(rows), Bad(rows), policy.epsilon, ln) else raw
  }

  lemma {:induction false} NoValuesNoGroups(rows: seq<Row>, boundaries: seq<real>, k: nat)
    requires Values(rows) == []
    ensures Groups(rows, boundaries, k) == []
    decreases |boundaries| + 1 - k
  {
    if k <= |boundaries| {
      forall r | r in rows ensures r.value.None? {
        if r.value.Some? { ValueOfRow(rows, r); }
      }
      NoValuesNoGroups(rows, boundaries, k + 1);
    }
  }

  lemma {:induction false} NoValuesOnlyNulls(rows: seq<Row>, policy: Policy)
    requires Values(rows) == []
    ensures forall i | 0 <= i < |RawBins(rows, policy)| :: RawBins(rows, policy)[i].isNull
  {
    NoValuesNoGroups(rows, Boundaries(SortedValues(rows), policy.bins), 0);
    var nulls := NullRows(rows);
    if nulls != [] { assert nulls[0] in nulls; }
  }

  /** A risk direction can only come from rows that carry a value. */
  lemma {:induction false} DirectionNeedsValues(rows: seq<Row>, policy: Policy, ln: real -> real)
    requires policy.epsilon > 0.0
    ensures Ks(Numeric(Bins(rows, policy, ln))).direction != Undetermined ==> Values(rows) != []
  {
    if Values(rows) == [] {
      NoValuesOnlyNulls(rows, policy);
      CountZero(IsNumeric(), Bins(rows, policy, ln));
      CountIsFilter(IsNumeric(), Bins(rows, policy, ln));
    }
  }

  function WarningsOf(rows: seq<Row>, policy: Policy, ks: KsResult): seq<Warning> {
    (if |rows| < policy.minLabeledSamples then [InsufficientSample] else [])
    + (if Good(rows) == 0 || Bad(rows) == 0 then [ClassImbalanceExtreme] else [])
    + (if Values(rows) == [] then [CoverageTooLow] else [])
    + (if Bad(rows) == 0 then [OverallBadRateZero] else [])
    + (if !ks.available then [KsNotAvailable] else [])
    + (if ks.direction == Undetermined then [DirectionUndetermined] else [])
  }

  /** The whole report on `rows`, for natural logarithm `ln`. */
  function Evaluate(name: string, rows: seq<Row>, total: nat, policy: Policy, ln: real -> real): Report
    requires ValidPolicy(policy)
  {
    DirectionNeedsValues(rows, policy, ln);
    var bins := Bins(rows, policy, ln);
    var numeric := Numeric(bins);
    var ks := Ks(numeric);
    var iv := if Good(rows) != 0 && Bad(rows) != 0 then Some(SumIv(bins)) else None;
    Report(
      name, total, |rows|, Good(rows), Bad(rows), |SortedValues(rows)|, |NullRows(rows)|,
      Ratio(|SortedValues(rows)|, |rows|), Ratio(Bad(rows), |rows|),
      DistributionOf(rows), policy.bins, |numeric|, bins, ks, iv, policy.epsilon,
      Candidates(rows, policy, ks), WarningsOf(rows, policy, ks))
  }
}
