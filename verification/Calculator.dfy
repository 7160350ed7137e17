/** The loops of `_calculate` (src/airi/evaluation/calculator.py), each proved to compute the
    function that `Evaluation` defines. */
module Calculator {
  import opened Options
  import opened Sorting
  import opened Evaluation

  lemma {:induction false} BucketNext(rows: seq<Row>, row: Row, boundaries: seq<real>)
    ensures forall k: nat :: Bucket(rows + [row], boundaries, k)
              == Bucket(rows, boundaries, k)
                 + (if row.value.Some? && BisectRight(boundaries, row.value.value) == k then [row] else [])
  {
    forall k: nat ensures Bucket(rows + [row], boundaries, k)
              == Bucket(rows, boundaries, k)
                 + (if row.value.Some? && BisectRight(boundaries, row.value.value) == k then [row] else [])
    {
      FilterAppend(InBucket(boundaries, k), rows, [row]);
    }
  }

  lemma {:induction false} EmptyBuckets(boundaries: seq<real>)
    ensures forall k: nat :: Bucket([], boundaries, k) == []
  {
  }

  /** `groups[bisect_right(boundaries, value)].append(...)` over all rows with a value. */
  method GroupRows(rows: seq<Row>, boundaries: seq<real>) returns (groups: map<nat, seq<Row>>)
    ensures forall k: nat :: k in groups <==> Bucket(rows, boundaries, k) != []
    ensures forall k | k in groups :: groups[k] == Bucket(rows, boundaries, k)
  {
    hide Bucket, BisectRight, Filter;
    groups := map[];
    EmptyBuckets(boundaries);
    for i := 0 to |rows|
      invariant forall k: nat :: k in groups <==> Bucket(rows[..i], boundaries, k) != []
      invariant forall k | k in groups :: groups[k] == Bucket(rows[..i], boundaries, k)
    {
      var row := rows[i];
      assert rows[..i + 1] == rows[..i] + [row];
      BucketNext(rows[..i], row, boundaries);
      if row.value.Some? {
        var k := BisectRight(boundaries, row.value.value);
        groups := groups[k := (if k in groups then groups[k] else []) + [row]];
      }
    }
    assert rows[..|rows|] == rows;
  }

  lemma {:induction false} NextGroup(ordered: seq<seq<Row>>, rows: seq<Row>, boundaries: seq<real>, k: nat)
    requires k <= |boundaries|
    ensures var bucket := Bucket(rows, boundaries, k);
            ordered + Groups(rows, boundaries, k)
            == (if bucket != [] then ordered + [bucket] else ordered) + Groups(rows, boundaries, k + 1)
  {
    hide Bucket;
  }

  lemma {:induction false} NoGroupsLeft(ordered: seq<seq<Row>>, rows: seq<Row>, boundaries: seq<real>)
    ensures ordered + Groups(rows, boundaries, |boundaries| + 1) == ordered
  {
  }

  /** The groups in ascending key order, then the rows without a value if there are any. */
  method OrderGroups(rows: seq<Row>, boundaries: seq<real>) returns (ordered: seq<seq<Row>>)
    ensures ordered == AllGroups(rows, boundaries)
  {
    var groups := GroupRows(rows, boundaries);
    ordered := [];
    var k := 0;
    assert ordered + Groups(rows, boundaries, 0) == Groups(rows, boundaries, 0);
    hide Bucket, Groups, NullRows;
    while k <= |boundaries|
      invariant 0 <= k <= |boundaries| + 1
      invariant ordered + Groups(rows, boundaries, k) == Groups(rows, boundaries, 0)
    {
      NextGroup(ordered, rows, boundaries, k);
      if k in groups { ordered := ordered + [groups[k]]; }
      k := k + 1;
    }
    NoGroupsLeft(ordered, rows, boundaries);
    var nulls := NullRows(rows);
    if nulls != [] { ordered := ordered + [nulls]; }
  }

  /** A nonempty group whose rows all have a value or all lack one. */
  ghost predicate Homogeneous(group: seq<Row>) {
    group != [] && ((forall r | r in group :: r.value.Some?) || (forall r | r in group :: r.value.None?))
  }

  method BuildBins(groups: seq<seq<Row>>, overall: Option<real>) returns (bins: seq<Bin>)
    requires forall g | g in groups :: Homogeneous(g)
    ensures bins == SummarizeAll(groups, overall)
  {
    bins := [];
    hide *;
    for index := 0 to |groups|
      invariant |bins| == index && forall k | 0 <= k < index :: bins[k] == Summarize(k, groups[k], overall)
    {
      var group := groups[index];
      assert group in groups;
      GroupSummary(index, group, overall);
      var isNull := group[0].value.None?;
      var nbad := Bad(group);
      var rate := Ratio(nbad, |group|);
      bins := bins + [Bin(index, isNull,
                          if isNull then None else Some(Min(Values(group))),
                          if isNull then None else Some(Max(Values(group))),
                          |group|, |group| - nbad, nbad, rate, Lift(rate, overall), None, None, None, None)];
    }
    AllSummarized(bins, groups, overall);
  }

  /** What the summary of a group is when its first row tells whether it has values. */
  lemma {:induction false} GroupSummary(index: nat, group: seq<Row>, overall: Option<real>)
    requires Homogeneous(group)
    ensures group != [] && Bad(group) <= |group| && (group[0].value.Some? ==> Values(group) != [])
    ensures var isNull, rate := group[0].value.None?, Ratio(Bad(group), |group|);
            Summarize(index, group, overall)
            == Bin(index, isNull,
                   if isNull then None else Some(Min(Values(group))),
                   if isNull then None else Some(Max(Values(group))),
                   |group|, |group| - Bad(group), Bad(group), rate, Lift(rate, overall), None, None, None, None)
  {
    assert group[0] in group;
    CountIsFilter(IsBad(), group);
    if group[0].value.Some? { ValueOfRow(group, group[0]); }
    hide Values, Count, Ratio, Lift, Min, Max;
  }

  lemma {:induction false} AllSummarized(bins: seq<Bin>, groups: seq<seq<Row>>, overall: Option<real>)
    requires |bins| == |groups| && forall k | 0 <= k < |groups| :: bins[k] == Summarize(k, groups[k], overall)
    ensures bins == SummarizeAll(groups, overall)
  {
    hide Summarize;
  }

  /** The information-value loop: smooths each bin and adds up the components. */
  method SmoothBins(bins: seq<Bin>, good: nat, bad: nat, epsilon: real, ln: real -> real)
    returns (smoothed: seq<Bin>, iv: real)
    requires good > 0 && bad > 0 && epsilon > 0.0
    ensures smoothed == SmoothAll(bins, good, bad, epsilon, ln)
    ensures iv == SumIv(smoothed)
  {
    smoothed, iv := [], 0.0;
    for i := 0 to |bins|
      invariant smoothed == SmoothAll(bins, good, bad, epsilon, ln)[..i]
      invariant iv == SumIv(smoothed)
    {
      var bucket := bins[i];
      var gp := Share(bucket.good, good, |bins|, epsilon);
      var bp := Share(bucket.bad, bad, |bins|, epsilon);
      var woe := Woe(gp, bp, ln);
      var part := (gp - bp) * woe;
      assert part == Component(gp, bp, ln);
      hide Share, Component, Woe;
      assert SmoothAll(bins, good, bad, epsilon, ln)[i] == Smooth(bucket, good, bad, |bins|, epsilon, ln);
      iv := iv + part;
      var before := smoothed;
      smoothed := smoothed + [bucket.(goodPct := Some(gp), badPct := Some(bp), woe := Some(woe), ivComponent := Some(part))];
      assert smoothed[..|smoothed| - 1] == before;
    }
  }

  /** The KS loop: cumulative class counts, their gaps, and the split at the widest one. */
  method ScanKs(numeric: seq<Bin>) returns (ks: KsResult)
    ensures ks == Ks(numeric)
  {
    var ngood, nbad := CumGood(numeric, |numeric|), CumBad(numeric, |numeric|);
    if ngood == 0 || nbad == 0 { return KS_NOT_AVAILABLE; }
    var cumgood, cumbad := 0, 0;
    var gaps: seq<real> := [];
    for i := 0 to |numeric|
      invariant cumgood == CumGood(numeric, i) && cumbad == CumBad(numeric, i)
      invariant gaps == Gaps(numeric)[..i]
    {
      cumgood := cumgood + numeric[i].good;
      cumbad := cumbad + numeric[i].bad;
      gaps := gaps + [Frac(cumgood, ngood) - Frac(cumbad, nbad)];
    }
    var index := ArgMax(gaps);
    var maximum := Abs(gaps[index]);
    var direction := DirectionOf(gaps[index]);
    var split := None;
    if direction == HigherIsRiskier && index + 1 < |numeric| {
      split := numeric[index + 1].lower;
    } else if direction == LowerIsRiskier {
      split := numeric[index].upper;
    }
    ks := KsResult(true, Some(maximum), Some(maximum), Some(maximum), Some(numeric[index].bucket), direction, split);
  }

  lemma {:induction false} SourcesAppend(proposals: seq<(real, Origin)>, p: (real, Origin), t: real)
    ensures SourcesOf(proposals + [p], t) == SourcesOf(proposals, t) + (if p.0 == t then [p.1] else [])
    ensures Thresholds(proposals + [p]) == Thresholds(proposals) + [p.0]
  {
    var all := proposals + [p];
    if proposals == [] {
      assert all == [p];
    } else {
      assert all[1..] == proposals[1..] + [p];
      assert all[0] == proposals[0];
      SourcesAppend(proposals[1..], p, t);
      assert SourcesOf(all, t) == (if all[0].0 == t then [all[0].1] else []) + SourcesOf(all[1..], t);
      assert Thresholds(all) == [all[0].0] + Thresholds(all[1..]);
    }
  }

  lemma {:induction false} FiledNext(proposals: seq<(real, Origin)>, p: (real, Origin))
    ensures forall t :: SourcesOf(proposals + [p], t) == SourcesOf(proposals, t) + (if p.0 == t then [p.1] else [])
    ensures Thresholds(proposals + [p]) == Thresholds(proposals) + [p.0]
  {
    hide SourcesOf;
    forall t ensures SourcesOf(proposals + [p], t) == SourcesOf(proposals, t) + (if p.0 == t then [p.1] else []) {
      SourcesAppend(proposals, p, t);
    }
    SourcesAppend(proposals, p, p.0);
  }

  lemma {:induction false} NothingFiled()
    ensures Thresholds([]) == [] && forall t :: SourcesOf([], t) == []
  {
  }

  /** The `sources` dictionary: its keys in insertion order, and the origins filed under each. */
  method FileSources(proposals: seq<(real, Origin)>) returns (keys: seq<real>, sources: map<real, seq<Origin>>)
    ensures forall t :: t in keys <==> t in Thresholds(proposals)
    ensures forall t :: t in sources <==> t in Thresholds(proposals)
    ensures forall t | t in sources :: sources[t] == SourcesOf(proposals, t)
  {
    hide SourcesOf, Thresholds;
    keys, sources := [], map[];
    NothingFiled();
    for i := 0 to |proposals|
      invariant forall t :: t in keys <==> t in Thresholds(proposals[..i])
      invariant forall t :: t in sources <==> t in Thresholds(proposals[..i])
      invariant forall t :: SourcesOf(proposals[..i], t) == if t in sources then sources[t] else []
    {
      var (t, origin) := proposals[i];
      assert proposals[..i + 1] == proposals[..i] + [proposals[i]];
      FiledNext(proposals[..i], proposals[i]);
      if t !in sources { keys := keys + [t]; }
      sources := sources[t := (if t in sources then sources[t] else []) + [origin]];
    }
    assert proposals[..|proposals|] == proposals;
  }

  /** The candidate loop over the filed thresholds in ascending order. */
  method MeasureCandidates(rows: seq<Row>, policy: Policy, ks: KsResult) returns (candidates: seq<Candidate>)
    requires ValidPolicy(policy)
    requires ks.direction != Undetermined ==> Values(rows) != []
    ensures candidates == Candidates(rows, policy, ks)
  {
    candidates := [];
    if ks.direction == Undetermined { return; }
    CanPropose(rows, policy);
    hide *;
    var values := SortedValues(rows);
    var proposals := Proposals(values, policy.percentiles, ks.split);
    var keys, sources := FileSources(proposals);
    var sorted := SortedSet(RealLe, keys);
    SortedAreFiled(keys, sources, proposals);
    candidates := MeasureEach(rows, ks.direction == HigherIsRiskier, sorted, sources);
    CandidatesMeasured(rows, policy, ks, proposals, sources, candidates);
  }

  method MeasureEach(rows: seq<Row>, high: bool, sorted: seq<real>, sources: map<real, seq<Origin>>)
    returns (candidates: seq<Candidate>)
    requires forall i | 0 <= i < |sorted| :: sorted[i] in sources
    ensures |candidates| == |sorted|
    ensures forall i | 0 <= i < |sorted| :: candidates[i] == Measure(rows, sorted[i], high, sources[sorted[i]])
  {
    hide *;
    candidates := [];
    for i := 0 to |sorted|
      invariant |candidates| == i
      invariant forall k | 0 <= k < i :: candidates[k] == Measure(rows, sorted[k], high, sources[sorted[k]])
    {
      var candidate := MeasureThreshold(rows, sorted[i], high, sources[sorted[i]]);
      candidates := candidates + [candidate];
    }
  }

  lemma {:induction false} CanPropose(rows: seq<Row>, policy: Policy)
    requires ValidPolicy(policy) && Values(rows) != []
    ensures SortedValues(rows) != [] && forall p | p in policy.percentiles :: p <= 100
  {
    SortedNonEmpty(Values(rows));
  }

  /** The thresholds in the loop's order, each filed with its origins. */
  ghost predicate Filed(sorted: seq<real>, sources: map<real, seq<Origin>>, proposals: seq<(real, Origin)>) {
    forall i | 0 <= i < |sorted| :: sorted[i] in sources && sources[sorted[i]] == SourcesOf(proposals, sorted[i])
  }

  lemma {:induction false} SortedAreFiled(
      keys: seq<real>, sources: map<real, seq<Origin>>, proposals: seq<(real, Origin)>)
    requires forall t :: t in keys <==> t in Thresholds(proposals)
    requires forall t :: t in sources <==> t in Thresholds(proposals)
    requires forall t | t in sources :: sources[t] == SourcesOf(proposals, t)
    ensures SortedSet(RealLe, keys) == SortedSet(RealLe, Thresholds(proposals))
    ensures forall i | 0 <= i < |SortedSet(RealLe, keys)| :: SortedSet(RealLe, keys)[i] in sources
    ensures Filed(SortedSet(RealLe, keys), sources, proposals)
  {
    hide SortedSet, Thresholds, SourcesOf;
    KeysSorted(keys, Thresholds(proposals));
    var sorted := SortedSet(RealLe, keys);
    forall i | 0 <= i < |sorted| ensures sorted[i] in sources {
      RealLeOrder();
      SortedSetProperties(RealLe, keys);
      assert sorted[i] in sorted;
    }
  }

  lemma {:induction false} CandidatesMeasured(
      rows: seq<Row>, policy: Policy, ks: KsResult, proposals: seq<(real, Origin)>, sources: map<real, seq<Origin>>,
      candidates: seq<Candidate>)
    requires ValidPolicy(policy) && ks.direction != Undetermined && Values(rows) != [] && SortedValues(rows) != []
    requires forall p | p in policy.percentiles :: p <= 100
    requires proposals == Proposals(SortedValues(rows), policy.percentiles, ks.split)
    requires Filed(SortedSet(RealLe, Thresholds(proposals)), sources, proposals)
    requires |candidates| == |SortedSet(RealLe, Thresholds(proposals))|
    requires var sorted := SortedSet(RealLe, Thresholds(proposals));
             forall i | 0 <= i < |sorted| ::
               && sorted[i] in sources
               && candidates[i] == Measure(rows, sorted[i], ks.direction == HigherIsRiskier, sources[sorted[i]])
    ensures candidates == Candidates(rows, policy, ks)
  {
    hide Measure, SourcesOf, SortedSet, Thresholds, Proposals, SortedValues, Values;
  }

  method MeasureThreshold(rows: seq<Row>, threshold: real, high: bool, sources: seq<Origin>) returns (c: Candidate)
    ensures c == Measure(rows, threshold, high, sources)
  {
    var hits := Filter(Hit(threshold, high), rows);
    CountIsFilter(IsBad(), hits);
    var hitBad := Bad(hits);
    var rate := Ratio(hitBad, |hits|);
    c := Candidate(threshold, high, sources, |hits|, Ratio(|hits|, |rows|), hitBad, |hits| - hitBad,
                   rate, rate, Ratio(hitBad, Bad(rows)), Lift(rate, Ratio(Bad(rows), |rows|)));
  }

  lemma {:induction false} KeysSorted(keys: seq<real>, thresholds: seq<real>)
    requires forall t :: t in keys <==> t in thresholds
    ensures SortedSet(RealLe, keys) == SortedSet(RealLe, thresholds)
  {
    RealLeOrder();
    SortedSetProperties(RealLe, keys);
    SortedSetProperties(RealLe, thresholds);
    IncreasingUnique(RealLe, SortedSet(RealLe, keys), SortedSet(RealLe, thresholds));
  }

  lemma {:induction false} GroupsUniform(rows: seq<Row>, boundaries: seq<real>, k: nat)
    ensures forall g | g in Groups(rows, boundaries, k) :: g != [] && forall r | r in g :: r.value.Some?
    decreases |boundaries| + 1 - k
  {
    if k <= |boundaries| { GroupsUniform(rows, boundaries, k + 1); }
  }

  lemma {:induction false} AllHomogeneous(rows: seq<Row>, boundaries: seq<real>)
    ensures forall g | g in AllGroups(rows, boundaries) :: Homogeneous(g)
  {
    GroupsUniform(rows, boundaries, 0);
  }

  /** Grouping, summarizing and smoothing: the bins of the report and its information value. */
  method BinPopulation(rows: seq<Row>, policy: Policy, ln: real -> real) returns (bins: seq<Bin>, iv: Option<real>)
    requires ValidPolicy(policy)
    ensures bins == Bins(rows, policy, ln)
    ensures iv == if Good(rows) != 0 && Bad(rows) != 0 then Some(SumIv(bins)) else None
  {
    var boundaries := Boundaries(SortedValues(rows), policy.bins);
    var ordered := OrderGroups(rows, boundaries);
    AllHomogeneous(rows, boundaries);
    bins := BuildBins(ordered, Ratio(Bad(rows), |rows|));
    iv := None;
    assert bins == RawBins(rows, policy);
    hide AllGroups, SummarizeAll, Boundaries, SortedValues, RawBins, SmoothAll, SumIv;
    if Good(rows) != 0 && Bad(rows) != 0 {
      var smoothed, sum := SmoothBins(bins, Good(rows), Bad(rows), policy.epsilon, ln);
      bins, iv := smoothed, Some(sum);
    }
  }

  /** `calculate`: the report assembled step by step is the specified one. */
  method Calculate(name: string, rows: seq<Row>, total: nat, policy: Policy, ln: real -> real) returns (report: Report)
    requires ValidPolicy(policy)
    ensures report == Evaluate(name, rows, total, policy, ln)
  {
    DirectionNeedsValues(rows, policy, ln);
    hide SortedValues, NullRows, Quantile, Numeric, Ks, Candidates, Bins, SumIv, Bad, Good, Values, DistributionOf,
         Ratio;
    var values := SortedValues(rows);
    var nulls := NullRows(rows);
    var good, bad := Good(rows), Bad(rows);
    var warnings := if |rows| < policy.minLabeledSamples then [InsufficientSample] else [];
    warnings := warnings + if good == 0 || bad == 0 then [ClassImbalanceExtreme] else [];
    warnings := warnings + if Values(rows) == [] then [CoverageTooLow] else [];
    warnings := warnings + if bad == 0 then [OverallBadRateZero] else [];
    var bins, iv := BinPopulation(rows, policy, ln);
    var numeric := Numeric(bins);
    var ks := ScanKs(numeric);
    warnings := warnings + if !ks.available then [KsNotAvailable] else [];
    var candidates := MeasureCandidates(rows, policy, ks);
    warnings := warnings + if ks.direction == Undetermined then [DirectionUndetermined] else [];
    assert warnings == WarningsOf(rows, policy, ks);
    hide WarningsOf;
    report := Report(
      name, total, |rows|, good, bad, |values|, |nulls|, Ratio(|values|, |rows|), Ratio(bad, |rows|),
      DistributionOf(rows), policy.bins, |numeric|, bins, ks, iv, policy.epsilon, candidates, warnings);
  }
}
