/** The calculator does not depend on the units of the metric: rescaling and shifting all values
    rescales the values in the report and changes nothing else. */
module UnitsLaws {
  import opened Options
  import opened Sorting
  import opened Evaluation

  /** A change of units with a positive scale. */
  datatype Units = Units(scale: real, shift: real)

  function In(u: Units, v: real): real { u.scale * v + u.shift }

  function InOption(u: Units, v: Option<real>): Option<real> { if v.Some? then Some(In(u, v.value)) else None }

  function InAll(u: Units, s: seq<real>): seq<real> { if s == [] then [] else [In(u, s[0])] + InAll(u, s[1..]) }

  function InRow(u: Units, r: Row): Row { Row(InOption(u, r.value), r.bad) }

  function InRows(u: Units, rows: seq<Row>): (r: seq<Row>) {
    if rows == [] then [] else [InRow(u, rows[0])] + InRows(u, rows[1..])
  }

  lemma {:induction false} ScaleGrows(c: real, v: real, w: real)
    requires c > 0.0 && v < w
    ensures c * v < c * w
  {
  }

  lemma {:induction false} InOrder(u: Units, v: real, w: real)
    requires u.scale > 0.0
    ensures In(u, v) <= In(u, w) <==> v <= w
    ensures In(u, v) == In(u, w) <==> v == w
  {
    if v < w {
      ScaleGrows(u.scale, v, w);
    } else if w < v {
      ScaleGrows(u.scale, w, v);
    }
  }

  lemma {:induction false} InAllAt(u: Units, s: seq<real>)
    ensures |InAll(u, s)| == |s| && forall i | 0 <= i < |s| :: InAll(u, s)[i] == In(u, s[i])
  {
    if s != [] { InAllAt(u, s[1..]); }
  }

  lemma {:induction false} InRowsAt(u: Units, rows: seq<Row>)
    ensures |InRows(u, rows)| == |rows| && forall i | 0 <= i < |rows| :: InRows(u, rows)[i] == InRow(u, rows[i])
  {
    if rows != [] { InRowsAt(u, rows[1..]); }
  }

  lemma {:induction false} InRowsAppend(u: Units, a: seq<Row>, b: seq<Row>)
    ensures InRows(u, a + b) == InRows(u, a) + InRows(u, b)
  {
    InRowsAt(u, a);
    InRowsAt(u, b);
    InRowsAt(u, a + b);
  }

  // ------------------------------------------------------------ sorted values

  lemma {:induction false} ValuesIn(u: Units, rows: seq<Row>)
    ensures Values(InRows(u, rows)) == InAll(u, Values(rows))
  {
    hide In;
    if rows != [] {
      ValuesIn(u, rows[1..]);
      assert InRows(u, rows)[1..] == InRows(u, rows[1..]);
      if rows[0].value.Some? { assert InAll(u, Values(rows))[1..] == InAll(u, Values(rows[1..])); }
    }
  }

  lemma {:induction false} InsertIn(u: Units, x: real, s: seq<real>)
    requires u.scale > 0.0
    ensures Insert(RealLe, In(u, x), InAll(u, s)) == InAll(u, Insert(RealLe, x, s))
  {
    if s != [] {
      InOrder(u, x, s[0]);
      hide In;
      InsertIn(u, x, s[1..]);
      assert InAll(u, s)[1..] == InAll(u, s[1..]);
      if !RealLe(x, s[0]) { assert ([s[0]] + Insert(RealLe, x, s[1..]))[1..] == Insert(RealLe, x, s[1..]); }
      if RealLe(x, s[0]) { assert ([x] + s)[1..] == s; }
    }
  }

  lemma {:induction false} SortIn(u: Units, s: seq<real>)
    requires u.scale > 0.0
    ensures SortBy(RealLe, InAll(u, s)) == InAll(u, SortBy(RealLe, s))
  {
    hide In;
    if s != [] {
      SortIn(u, s[1..]);
      assert InAll(u, s)[1..] == InAll(u, s[1..]);
      InsertIn(u, s[0], SortBy(RealLe, s[1..]));
    }
  }

  lemma {:induction false} SortedIn(u: Units, rows: seq<Row>)
    requires u.scale > 0.0
    ensures SortedValues(InRows(u, rows)) == InAll(u, SortedValues(rows))
  {
    ValuesIn(u, rows);
    SortIn(u, Values(rows));
  }

  // ------------------------------------------------------------ quantiles and boundaries

  lemma {:induction false} InterpolateIn(u: Units, lo: real, hi: real, w: real)
    ensures In(u, lo + (hi - lo) * w) == In(u, lo) + (In(u, hi) - In(u, lo)) * w
  {
    assert u.scale * ((hi - lo) * w) == (u.scale * hi - u.scale * lo) * w;
  }

  lemma {:induction false} QuantileIn(u: Units, values: seq<real>, percentile: real)
    requires 0.0 <= percentile <= 100.0
    ensures Quantile(InAll(u, values), percentile) == InOption(u, Quantile(values, percentile))
  {
    InAllAt(u, values);
    if values != [] {
      var position := Position(|values|, percentile);
      var lo := position.Floor;
      var hi := if lo + 1 <= |values| - 1 then lo + 1 else |values| - 1;
      InterpolateIn(u, values[lo], values[hi], position - lo as real);
      hide In;
      assert At(InAll(u, values), position) == In(u, At(values, position));
    }
  }

  lemma {:induction false} CutPointsIn(u: Units, values: seq<real>, bins: nat, i: nat)
    requires values != [] && InAll(u, values) != [] && 1 <= i
    ensures CutPoints(InAll(u, values), bins, i) == InAll(u, CutPoints(values, bins, i))
    decreases bins - i
  {
    if i < bins {
      QuantileIn(u, values, CutPercentile(bins, i));
      CutPointsIn(u, values, bins, i + 1);
      hide Quantile, In;
      assert CutPoints(values, bins, i)[1..] == CutPoints(values, bins, i + 1);
    }
  }

  lemma {:induction false} DedupIn(u: Units, s: seq<real>)
    requires u.scale > 0.0
    ensures Dedup(InAll(u, s)) == InAll(u, Dedup(s))
  {
    InAllAt(u, s);
    if |s| >= 2 {
      InOrder(u, s[0], s[1]);
      hide In;
      assert InAll(u, s)[1..] == InAll(u, s[1..]);
      DedupIn(u, s[1..]);
      if s[0] != s[1] { assert Dedup(s)[1..] == Dedup(s[1..]); }
    }
  }

  lemma {:induction false} BoundariesIn(u: Units, values: seq<real>, bins: nat)
    requires u.scale > 0.0
    ensures Boundaries(InAll(u, values), bins) == InAll(u, Boundaries(values, bins))
  {
    InAllAt(u, values);
    if values != [] {
      CutPointsIn(u, values, bins, 1);
      SortIn(u, CutPoints(values, bins, 1));
      DedupIn(u, SortBy(RealLe, CutPoints(values, bins, 1)));
    }
  }

  lemma {:induction false} BisectIn(u: Units, boundaries: seq<real>, v: real)
    requires u.scale > 0.0
    ensures BisectRight(InAll(u, boundaries), In(u, v)) == BisectRight(boundaries, v)
  {
    if boundaries != [] {
      InOrder(u, boundaries[0], v);
      hide In;
      assert InAll(u, boundaries)[1..] == InAll(u, boundaries[1..]);
      BisectIn(u, boundaries[1..], v);
    }
  }

  // ------------------------------------------------------------ groups and bins

  lemma {:induction false} FilterIn(u: Units, p: Row -> bool, q: Row -> bool, rows: seq<Row>)
    requires forall r: Row :: q(InRow(u, r)) == p(r)
    ensures Filter(q, InRows(u, rows)) == InRows(u, Filter(p, rows))
  {
    hide InRow;
    if rows != [] {
      FilterIn(u, p, q, rows[1..]);
      assert InRows(u, rows)[1..] == InRows(u, rows[1..]);
      InRowsAppend(u, if p(rows[0]) then [rows[0]] else [], Filter(p, rows[1..]));
    }
  }

  lemma {:induction false} CountIn(u: Units, rows: seq<Row>)
    ensures Bad(InRows(u, rows)) == Bad(rows) && |InRows(u, rows)| == |rows|
  {
    if rows != [] {
      CountIn(u, rows[1..]);
      assert InRows(u, rows)[1..] == InRows(u, rows[1..]);
    }
  }

  lemma {:induction false} BucketIn(u: Units, rows: seq<Row>, boundaries: seq<real>, k: nat)
    requires u.scale > 0.0
    ensures Bucket(InRows(u, rows), InAll(u, boundaries), k) == InRows(u, Bucket(rows, boundaries, k))
  {
    var p, q := InBucket(boundaries, k), InBucket(InAll(u, boundaries), k);
    forall r: Row ensures q(InRow(u, r)) == p(r) {
      if r.value.Some? { BisectIn(u, boundaries, r.value.value); }
    }
    FilterIn(u, p, q, rows);
  }

  ghost predicate GroupsIn(u: Units, x: seq<seq<Row>>, y: seq<seq<Row>>) {
    |x| == |y| && forall i | 0 <= i < |x| :: x[i] == InRows(u, y[i])
  }

  lemma {:induction false} GroupsPrepend(u: Units, x: seq<seq<Row>>, group: seq<Row>, y: seq<seq<Row>>)
    requires GroupsIn(u, x, y)
    ensures GroupsIn(u, [InRows(u, group)] + x, [group] + y)
  {
    hide InRows;
  }

  lemma {:induction false} BucketsIn(u: Units, rows: seq<Row>, boundaries: seq<real>, k: nat)
    requires u.scale > 0.0
    ensures GroupsIn(u, Groups(InRows(u, rows), InAll(u, boundaries), k), Groups(rows, boundaries, k))
    decreases |boundaries| + 1 - k
  {
    InAllAt(u, boundaries);
    hide Bucket, InAll, In;
    if k <= |boundaries| {
      var group := Bucket(rows, boundaries, k);
      BucketIn(u, rows, boundaries, k);
      CountIn(u, group);
      BucketsIn(u, rows, boundaries, k + 1);
      hide InRows;
      GroupsPrepend(u, Groups(InRows(u, rows), InAll(u, boundaries), k + 1), group, Groups(rows, boundaries, k + 1));
      hide GroupsIn;
    }
  }

  lemma {:induction false} NullsIn(u: Units, rows: seq<Row>)
    ensures NullRows(InRows(u, rows)) == InRows(u, NullRows(rows)) && |NullRows(InRows(u, rows))| == |NullRows(rows)|
  {
    FilterIn(u, IsNull(), IsNull(), rows);
    CountIn(u, NullRows(rows));
  }

  lemma {:induction false} AllGroupsIn(u: Units, rows: seq<Row>, boundaries: seq<real>)
    requires u.scale > 0.0
    ensures GroupsIn(u, AllGroups(InRows(u, rows), InAll(u, boundaries)), AllGroups(rows, boundaries))
  {
    BucketsIn(u, rows, boundaries, 0);
    NullsIn(u, rows);
    hide Groups, InRows, InAll, NullRows;
  }

  function InBin(u: Units, b: Bin): Bin { b.(lower := InOption(u, b.lower), upper := InOption(u, b.upper)) }

  ghost predicate BinsIn(u: Units, x: seq<Bin>, y: seq<Bin>) {
    |x| == |y| && forall i | 0 <= i < |x| :: x[i] == InBin(u, y[i])
  }

  lemma {:induction false} ExtremesIn(u: Units, s: seq<real>)
    requires u.scale > 0.0 && s != []
    ensures InAll(u, s) != [] && Min(InAll(u, s)) == In(u, Min(s)) && Max(InAll(u, s)) == In(u, Max(s))
  {
    hide In;
    if |s| > 1 {
      assert InAll(u, s)[1..] == InAll(u, s[1..]);
      ExtremesIn(u, s[1..]);
      InOrder(u, s[0], Min(s[1..]));
      InOrder(u, Max(s[1..]), s[0]);
    }
  }

  lemma {:induction false} SummaryIn(u: Units, index: nat, group: seq<Row>, overall: Option<real>)
    requires u.scale > 0.0
    ensures Summarize(index, InRows(u, group), overall) == InBin(u, Summarize(index, group, overall))
  {
    CountIn(u, group);
    InRowsAt(u, group);
    ValuesIn(u, group);
    InAllAt(u, Values(group));
    if Values(group) != [] { ExtremesIn(u, Values(group)); }
    hide Values, InRows, InAll, Min, Max, Bad, Ratio, Lift, In;
  }

  lemma {:induction false} RawBinsIn(u: Units, rows: seq<Row>, policy: Policy)
    requires u.scale > 0.0
    ensures BinsIn(u, RawBins(InRows(u, rows), policy), RawBins(rows, policy))
  {
    var boundaries, overall := Boundaries(SortedValues(rows), policy.bins), Ratio(Bad(rows), |rows|);
    SortedIn(u, rows);
    BoundariesIn(u, SortedValues(rows), policy.bins);
    AllGroupsIn(u, rows, boundaries);
    CountIn(u, rows);
    hide Boundaries, SortedValues, InRows, InAll, AllGroups, Summarize, InBin, Ratio, Bad;
    var x, y := AllGroups(InRows(u, rows), InAll(u, boundaries)), AllGroups(rows, boundaries);
    forall i: nat | i < |x| ensures Summarize(i, x[i], overall) == InBin(u, Summarize(i, y[i], overall)) {
      SummaryIn(u, i, y[i], overall);
    }
  }

  lemma {:induction false} SmoothIn(
      u: Units, x: seq<Bin>, y: seq<Bin>, good: nat, bad: nat, epsilon: real, ln: real -> real)
    requires BinsIn(u, x, y) && good > 0 && bad > 0 && epsilon > 0.0
    ensures BinsIn(u, SmoothAll(x, good, bad, epsilon, ln), SmoothAll(y, good, bad, epsilon, ln))
  {
    hide Share, Woe, Component, InOption;
  }

  lemma {:induction false} AllBinsIn(u: Units, rows: seq<Row>, policy: Policy, ln: real -> real)
    requires u.scale > 0.0 && policy.epsilon > 0.0
    ensures BinsIn(u, Bins(InRows(u, rows), policy, ln), Bins(rows, policy, ln))
    ensures Bad(InRows(u, rows)) == Bad(rows) && Good(InRows(u, rows)) == Good(rows) && |InRows(u, rows)| == |rows|
  {
    hide RawBins, InRows, BinsIn, SmoothAll;
    CountIn(u, rows);
    assert Good(InRows(u, rows)) == Good(rows);
    hide Bad, Good;
    RawBinsIn(u, rows, policy);
    if Good(rows) != 0 && Bad(rows) != 0 {
      SmoothIn(u, RawBins(InRows(u, rows), policy), RawBins(rows, policy), Good(rows), Bad(rows), policy.epsilon, ln);
    }
  }

  // ------------------------------------------------------------ KS and information value

  lemma {:induction false} NumericIn(u: Units, x: seq<Bin>, y: seq<Bin>)
    requires BinsIn(u, x, y)
    ensures BinsIn(u, Numeric(x), Numeric(y)) && SumIv(x) == SumIv(y)
  {
    SumIvIn(u, x, y);
    hide InOption, SumIv;
    if x != [] { NumericIn(u, x[1..], y[1..]); }
  }

  lemma {:induction false} SumIvIn(u: Units, x: seq<Bin>, y: seq<Bin>)
    requires BinsIn(u, x, y)
    ensures SumIv(x) == SumIv(y)
  {
    if x != [] { SumIvIn(u, x[..|x| - 1], y[..|y| - 1]); }
  }

  lemma {:induction false} CumIn(u: Units, x: seq<Bin>, y: seq<Bin>, i: nat)
    requires BinsIn(u, x, y) && i <= |x|
    ensures CumGood(x, i) == CumGood(y, i) && CumBad(x, i) == CumBad(y, i)
  {
    hide InOption;
    if i > 0 { CumIn(u, x, y, i - 1); }
  }

  function InKs(u: Units, ks: KsResult): KsResult { ks.(split := InOption(u, ks.split)) }

  lemma {:induction false} KsIn(u: Units, x: seq<Bin>, y: seq<Bin>)
    requires BinsIn(u, x, y)
    ensures Ks(x) == InKs(u, Ks(y))
  {
    CumIn(u, x, y, |x|);
    hide InOption, Frac, ArgMax;
    if Ks(y).available {
      forall i | 0 <= i < |x| ensures Gap(x, i) == Gap(y, i) { CumIn(u, x, y, i + 1); }
      assert Gaps(x) == Gaps(y);
      hide Gap, CumGood, CumBad;
    }
  }

  // ------------------------------------------------------------ candidates

  function InProposals(u: Units, proposals: seq<(real, Origin)>): seq<(real, Origin)> {
    if proposals == [] then [] else [(In(u, proposals[0].0), proposals[0].1)] + InProposals(u, proposals[1..])
  }

  lemma {:induction false} InProposalsAt(u: Units, proposals: seq<(real, Origin)>)
    ensures |InProposals(u, proposals)| == |proposals|
    ensures forall i | 0 <= i < |proposals| :: InProposals(u, proposals)[i] == (In(u, proposals[i].0), proposals[i].1)
  {
    if proposals != [] { InProposalsAt(u, proposals[1..]); }
  }

  lemma {:induction false} ProposalsIn(u: Units, values: seq<real>, percentiles: seq<nat>, split: Option<real>)
    requires values != [] && InAll(u, values) != [] && forall p | p in percentiles :: p <= 100
    ensures Proposals(InAll(u, values), percentiles, InOption(u, split))
            == InProposals(u, Proposals(values, percentiles, split))
  {
    InProposalsAt(u, Proposals(values, percentiles, split));
    hide In, Quantile;
    forall i | 0 <= i < |percentiles| && percentiles[i] in percentiles
      ensures Quantile(InAll(u, values), percentiles[i] as real).value == In(u, Quantile(values, percentiles[i] as real).value)
    {
      QuantileIn(u, values, percentiles[i] as real);
    }
  }

  lemma {:induction false} ThresholdsIn(u: Units, proposals: seq<(real, Origin)>)
    ensures Thresholds(InProposals(u, proposals)) == InAll(u, Thresholds(proposals))
  {
    hide In;
    if proposals != [] {
      assert InProposals(u, proposals)[1..] == InProposals(u, proposals[1..]);
      assert Thresholds(proposals)[1..] == Thresholds(proposals[1..]);
      ThresholdsIn(u, proposals[1..]);
    }
  }

  lemma {:induction false} SourcesIn(u: Units, proposals: seq<(real, Origin)>, t: real)
    requires u.scale > 0.0
    ensures SourcesOf(InProposals(u, proposals), In(u, t)) == SourcesOf(proposals, t)
  {
    hide In;
    if proposals != [] {
      InOrder(u, proposals[0].0, t);
      assert InProposals(u, proposals)[1..] == InProposals(u, proposals[1..]);
      SourcesIn(u, proposals[1..], t);
    }
  }

  function InCandidate(u: Units, c: Candidate): Candidate { c.(threshold := In(u, c.threshold)) }

  lemma {:induction false} MeasureIn(u: Units, rows: seq<Row>, t: real, atLeast: bool, sources: seq<Origin>)
    requires u.scale > 0.0
    ensures Measure(InRows(u, rows), In(u, t), atLeast, sources) == InCandidate(u, Measure(rows, t, atLeast, sources))
  {
    forall r: Row ensures Hit(In(u, t), atLeast)(InRow(u, r)) == Hit(t, atLeast)(r) {
      if r.value.Some? {
        InOrder(u, r.value.value, t);
        InOrder(u, t, r.value.value);
      }
    }
    FilterIn(u, Hit(t, atLeast), Hit(In(u, t), atLeast), rows);
    CountIn(u, rows);
    CountIn(u, Filter(Hit(t, atLeast), rows));
    hide In, InRows, Filter, Bad, Ratio, Lift;
  }

  function InCandidates(u: Units, cs: seq<Candidate>): seq<Candidate> {
    seq(|cs|, (i: nat) requires i < |cs| => InCandidate(u, cs[i]))
  }

  /** The thresholds proposed for the converted rows are the converted thresholds. */
  lemma {:induction false} ProposedIn(u: Units, rows: seq<Row>, percentiles: seq<nat>, split: Option<real>)
    requires u.scale > 0.0 && (forall p | p in percentiles :: p <= 100)
    requires Values(rows) != [] && Values(InRows(u, rows)) != []
    ensures SortedValues(rows) != [] && SortedValues(InRows(u, rows)) != []
    ensures var proposals := Proposals(SortedValues(rows), percentiles, split);
            && Proposals(SortedValues(InRows(u, rows)), percentiles, InOption(u, split)) == InProposals(u, proposals)
            && SortedSet(RealLe, Thresholds(InProposals(u, proposals))) == InAll(u, SortedSet(RealLe, Thresholds(proposals)))
  {
    SortedNonEmpty(Values(rows));
    SortedIn(u, rows);
    InAllAt(u, SortedValues(rows));
    var proposals := Proposals(SortedValues(rows), percentiles, split);
    ProposalsIn(u, SortedValues(rows), percentiles, split);
    ThresholdsIn(u, proposals);
    SortIn(u, Thresholds(proposals));
    DedupIn(u, SortBy(RealLe, Thresholds(proposals)));
    hide In, InRows, SortBy, Dedup, Thresholds, Proposals, Values;
  }

  lemma {:induction false} CandidatesIn(u: Units, rows: seq<Row>, policy: Policy, ks: KsResult)
    requires u.scale > 0.0 && forall p | p in policy.percentiles :: p <= 100
    requires ks.direction != Undetermined ==> Values(rows) != [] && Values(InRows(u, rows)) != []
    ensures Candidates(InRows(u, rows), policy, InKs(u, ks)) == InCandidates(u, Candidates(rows, policy, ks))
  {
    if ks.direction != Undetermined {
      hide In, InRows, InAll, Measure, InCandidate, SortedSet, Thresholds, Proposals, Values, SortedValues, SourcesOf,
           InProposals, InOption;
      ProposedIn(u, rows, policy.percentiles, ks.split);
      var proposals := Proposals(SortedValues(rows), policy.percentiles, ks.split);
      var thresholds := SortedSet(RealLe, Thresholds(proposals));
      InAllAt(u, thresholds);
      forall i | 0 <= i < |thresholds|
        ensures Measure(InRows(u, rows), In(u, thresholds[i]), ks.direction == HigherIsRiskier,
                        SourcesOf(InProposals(u, proposals), In(u, thresholds[i])))
                == InCandidate(u, Measure(rows, thresholds[i], ks.direction == HigherIsRiskier,
                                          SourcesOf(proposals, thresholds[i])))
      {
        SourcesIn(u, proposals, thresholds[i]);
        MeasureIn(u, rows, thresholds[i], ks.direction == HigherIsRiskier, SourcesOf(proposals, thresholds[i]));
      }
    }
  }

  // ------------------------------------------------------------ the report

  function InDistribution(u: Units, d: Distribution): Distribution {
    d.(min := InOption(u, d.min), max := InOption(u, d.max), mean := InOption(u, d.mean),
       p25 := InOption(u, d.p25), p50 := InOption(u, d.p50), p75 := InOption(u, d.p75),
       p90 := InOption(u, d.p90), p95 := InOption(u, d.p95), p99 := InOption(u, d.p99))
  }

  function InReport(u: Units, r: Report): Report {
    r.(distribution := InDistribution(u, r.distribution),
       bins := seq(|r.bins|, (i: nat) requires i < |r.bins| => InBin(u, r.bins[i])),
       ks := InKs(u, r.ks), candidates := InCandidates(u, r.candidates))
  }

  lemma {:induction false} SumIn(u: Units, s: seq<real>)
    ensures Sum(InAll(u, s)) == u.scale * Sum(s) + u.shift * |s| as real
  {
    if s != [] {
      SumIn(u, s[1..]);
      assert InAll(u, s)[1..] == InAll(u, s[1..]);
      Distribute(u, s[0], Sum(s[1..]), |s[1..]|);
    }
  }

  lemma {:induction false} Distribute(u: Units, v: real, sum: real, n: nat)
    ensures In(u, v) + (u.scale * sum + u.shift * n as real) == u.scale * (v + sum) + u.shift * (n + 1) as real
  {
  }

  lemma {:induction false} MeanIn(u: Units, sum: real, total: real, n: nat)
    requires n > 0 && total == u.scale * sum + u.shift * n as real
    ensures total / n as real == In(u, sum / n as real)
  {
    var m := sum / n as real;
    assert sum == m * n as real;
    assert u.scale * sum == u.scale * m * n as real;
    assert total == In(u, m) * n as real;
  }

  lemma {:induction false} PercentileIn(u: Units, rows: seq<Row>, p: nat)
    requires u.scale > 0.0 && p <= 100
    ensures PercentileOf(InRows(u, rows), p) == InOption(u, PercentileOf(rows, p))
  {
    SortedIn(u, rows);
    QuantileIn(u, SortedValues(rows), p as real);
    hide Quantile, SortedValues, In;
  }

  function MeanOf(values: seq<real>): Option<real> {
    if values != [] then Some(Sum(values) / |values| as real) else None
  }

  lemma {:induction false} MeansIn(u: Units, values: seq<real>)
    ensures MeanOf(InAll(u, values)) == InOption(u, MeanOf(values))
  {
    InAllAt(u, values);
    if values != [] {
      SumIn(u, values);
      MeanIn(u, Sum(values), Sum(InAll(u, values)), |values|);
    }
  }

  lemma {:induction false} DistributionIn(u: Units, rows: seq<Row>)
    requires u.scale > 0.0
    ensures DistributionOf(InRows(u, rows)) == InDistribution(u, DistributionOf(rows))
  {
    hide In, InAll, InRows, Sum, PercentileOf, SortedValues, NullRows;
    var values := SortedValues(rows);
    SortedIn(u, rows);
    NullsIn(u, rows);
    InAllAt(u, values);
    MeansIn(u, values);
    assert MeanOf(values) == DistributionOf(rows).mean;
    assert MeanOf(InAll(u, values)) == DistributionOf(InRows(u, rows)).mean;
    PercentileIn(u, rows, 25);
    PercentileIn(u, rows, 50);
    PercentileIn(u, rows, 75);
    PercentileIn(u, rows, 90);
    PercentileIn(u, rows, 95);
    PercentileIn(u, rows, 99);
    hide MeanOf;
  }

  /** Measuring the metric in other units gives the same report in those units: every value in it is
      converted, and every count, rate, lift, KS value, bucket, direction, information value and
      warning is the same. */
  lemma {:induction false} ReportFollowsUnits(
      name: string, rows: seq<Row>, total: nat, policy: Policy, ln: real -> real, u: Units)
    requires ValidPolicy(policy) && u.scale > 0.0
    ensures Evaluate(name, InRows(u, rows), total, policy, ln) == InReport(u, Evaluate(name, rows, total, policy, ln))
  {
    var x, y := Bins(InRows(u, rows), policy, ln), Bins(rows, policy, ln);
    DirectionNeedsValues(rows, policy, ln);
    DirectionNeedsValues(InRows(u, rows), policy, ln);
    CountsIn(u, rows);
    hide *;
    AllBinsIn(u, rows, policy, ln);
    NumericIn(u, x, y);
    KsIn(u, Numeric(x), Numeric(y));
    PercentilesBounded(policy);
    KsDirectionKept(u, Ks(Numeric(y)));
    CandidatesIn(u, rows, policy, Ks(Numeric(y)));
    PartsConvert(rows, policy, ln, u);
    Assemble(name, rows, total, policy, ln, u);
  }

  lemma {:induction false} CountsIn(u: Units, rows: seq<Row>)
    requires u.scale > 0.0
    ensures |SortedValues(InRows(u, rows))| == |SortedValues(rows)| && |NullRows(InRows(u, rows))| == |NullRows(rows)|
    ensures Values(InRows(u, rows)) == [] <==> Values(rows) == []
  {
    SortedIn(u, rows);
    ValuesIn(u, rows);
    InAllAt(u, SortedValues(rows));
    InAllAt(u, Values(rows));
    NullsIn(u, rows);
  }

  lemma {:induction false} PartsConvert(rows: seq<Row>, policy: Policy, ln: real -> real, u: Units)
    requires ValidPolicy(policy) && u.scale > 0.0
    ensures PartsConverted(rows, policy, ln, u)
  {
    var x, y := Bins(InRows(u, rows), policy, ln), Bins(rows, policy, ln);
    hide InRows, Bins, Numeric, Ks, Values, SortedValues, NullRows, Bad, Good, SumIv, DistributionOf, InDistribution,
         InKs;
    CountsIn(u, rows);
    AllBinsIn(u, rows, policy, ln);
    NumericIn(u, x, y);
    KsIn(u, Numeric(x), Numeric(y));
    DistributionIn(u, rows);
  }

  lemma {:induction false} PercentilesBounded(policy: Policy)
    requires ValidPolicy(policy)
    ensures policy.epsilon > 0.0 && forall p | p in policy.percentiles :: p <= 100
  {
  }

  lemma {:induction false} KsDirectionKept(u: Units, ks: KsResult)
    ensures InKs(u, ks).direction == ks.direction && InKs(u, ks).available == ks.available
  {
  }

  /** Every part of the report of the converted rows is the converted part. */
  ghost predicate PartsConverted(rows: seq<Row>, policy: Policy, ln: real -> real, u: Units)
    requires ValidPolicy(policy)
  {
    var converted, x, y := InRows(u, rows), Bins(InRows(u, rows), policy, ln), Bins(rows, policy, ln);
    && BinsIn(u, x, y) && |Numeric(x)| == |Numeric(y)| && SumIv(x) == SumIv(y)
    && Bad(converted) == Bad(rows) && Good(converted) == Good(rows) && |converted| == |rows|
    && |SortedValues(converted)| == |SortedValues(rows)| && |NullRows(converted)| == |NullRows(rows)|
    && (Values(converted) == [] <==> Values(rows) == [])
    && DistributionOf(converted) == InDistribution(u, DistributionOf(rows))
    && Ks(Numeric(x)) == InKs(u, Ks(Numeric(y)))
  }

  lemma {:induction false} Assemble(
      name: string, rows: seq<Row>, total: nat, policy: Policy, ln: real -> real, u: Units)
    requires ValidPolicy(policy) && PartsConverted(rows, policy, ln, u)
    requires var ks := Ks(Numeric(Bins(rows, policy, ln)));
             && (ks.direction != Undetermined ==> Values(rows) != [] && Values(InRows(u, rows)) != [])
             && Candidates(InRows(u, rows), policy, InKs(u, ks)) == InCandidates(u, Candidates(rows, policy, ks))
    ensures Evaluate(name, InRows(u, rows), total, policy, ln) == InReport(u, Evaluate(name, rows, total, policy, ln))
  {
    hide InRows, Bins, Numeric, Ks, Values, SortedValues, NullRows, Bad, Good, SumIv, DistributionOf, InBin,
         InDistribution, Candidates, InCandidates, Ratio, InOption;
    var x, y := Bins(InRows(u, rows), policy, ln), Bins(rows, policy, ln);
    assert x == seq(|y|, (i: nat) requires i < |y| => InBin(u, y[i]));
  }
}
