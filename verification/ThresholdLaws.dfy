/** Quantiles of sorted values, and the threshold candidates derived from them. */
module ThresholdLaws {
  import opened Options
  import opened Sorting
  import opened Evaluation
  import opened BinningLaws
  import opened KsLaws

  // ------------------------------------------------------------ quantiles

  lemma {:induction false} Interpolate(a: real, b: real, f: real, g: real)
    requires a <= b && 0.0 <= f <= g <= 1.0
    ensures a <= a + (b - a) * f <= a + (b - a) * g <= b
  {
    assert (b - a) * f <= (b - a) * g;
    assert (b - a) * g <= (b - a) * 1.0;
    assert (b - a) * f >= 0.0;
  }

  /** Interpolation stays between the two neighbouring values. */
  lemma {:induction false} AtBetweenNeighbours(values: seq<real>, position: real)
    requires Ordered(RealLe, values) && 0.0 <= position <= (|values| - 1) as real
    ensures values[position.Floor] <= At(values, position)
    ensures position.Floor + 1 < |values| ==> At(values, position) <= values[position.Floor + 1]
    ensures position.Floor + 1 == |values| ==> At(values, position) == values[position.Floor]
  {
    var lo := position.Floor;
    if lo + 1 < |values| {
      assert RealLe(values[lo], values[lo + 1]);
      Interpolate(values[lo], values[lo + 1], position - lo as real, 1.0);
    }
  }

  lemma {:induction false} AtMonotone(values: seq<real>, p: real, q: real)
    requires Ordered(RealLe, values) && 0.0 <= p <= q <= (|values| - 1) as real
    ensures At(values, p) <= At(values, q)
  {
    AtBetweenNeighbours(values, p);
    AtBetweenNeighbours(values, q);
    var lo := p.Floor;
    if lo == q.Floor {
      if lo + 1 < |values| {
        assert RealLe(values[lo], values[lo + 1]);
        Interpolate(values[lo], values[lo + 1], p - lo as real, q - lo as real);
      }
    } else if lo + 1 < q.Floor {
      assert RealLe(values[lo + 1], values[q.Floor]);
    }
  }

  lemma {:induction false} PositionMonotone(count: nat, p: real, q: real)
    requires count > 0 && 0.0 <= p <= q <= 100.0
    ensures Position(count, p) <= Position(count, q)
  {
    ScaleMonotone((count - 1) as real, p, q);
  }

  lemma {:induction false} ScaleMonotone(c: real, p: real, q: real)
    requires c >= 0.0 && p <= q
    ensures c * p <= c * q
  {
  }

  /** On sorted values a quantile lies between the extremes and grows with the percentile. */
  lemma {:induction false} QuantileMonotone(values: seq<real>, p: real, q: real)
    requires Ordered(RealLe, values) && values != [] && 0.0 <= p <= q <= 100.0
    ensures values[0] <= Quantile(values, p).value <= Quantile(values, q).value <= values[|values| - 1]
  {
    var n := |values|;
    var a, b := Position(n, p), Position(n, q);
    PositionMonotone(n, p, q);
    assert At(values, 0.0) == values[0];
    assert At(values, (n - 1) as real) == values[n - 1];
    hide At, Position, RealLe;
    AtMonotone(values, a, b);
    AtMonotone(values, 0.0, a);
    AtMonotone(values, b, (n - 1) as real);
  }

  // ------------------------------------------------------------ candidates

  lemma {:induction false} ThresholdsMembers(proposals: seq<(real, Origin)>, t: real)
    ensures t in Thresholds(proposals) <==> Proposed(proposals, t)
    ensures |Thresholds(proposals)| == |proposals|
  {
    if proposals != [] {
      ThresholdsMembers(proposals[1..], t);
      if exists i :: 0 <= i < |proposals| && proposals[i].0 == t {
        var i :| 0 <= i < |proposals| && proposals[i].0 == t;
        if i > 0 { assert proposals[1..][i - 1].0 == t; }
      }
      if t in Thresholds(proposals[1..]) {
        var i :| 0 <= i < |proposals[1..]| && proposals[1..][i].0 == t;
        assert proposals[i + 1].0 == t;
      }
    }
  }

  lemma {:induction false} SourcesMembers(proposals: seq<(real, Origin)>, t: real, origin: Origin)
    ensures origin in SourcesOf(proposals, t) <==> (t, origin) in proposals
  {
    if proposals != [] {
      SourcesMembers(proposals[1..], t, origin);
      assert proposals == [proposals[0]] + proposals[1..];
    }
  }

  /** Hits of a rule shrink as an "at least" threshold grows and grow with an "at most" one. */
  lemma {:induction false} HitsMonotone(rows: seq<Row>, t: real, u: real, atLeast: bool, bad: bool)
    requires t <= u
    ensures atLeast ==> HitCount(rows, u, true, bad) <= HitCount(rows, t, true, bad)
    ensures !atLeast ==> HitCount(rows, t, false, bad) <= HitCount(rows, u, false, bad)
  {
    if atLeast {
      CountMonotone(HitClass(u, true, bad), HitClass(t, true, bad), rows);
    } else {
      CountMonotone(HitClass(t, false, bad), HitClass(u, false, bad), rows);
    }
  }

  /** A measured candidate counts exactly the rows its rule hits, class by class. */
  lemma {:induction false} MeasureCounts(rows: seq<Row>, t: real, atLeast: bool, sources: seq<Origin>)
    ensures var c := Measure(rows, t, atLeast, sources);
            && c.badCount == HitCount(rows, t, atLeast, true)
            && c.goodCount == HitCount(rows, t, atLeast, false)
            && c.hitCount == c.badCount + c.goodCount
  {
    var hits := Filter(Hit(t, atLeast), rows);
    CountIsFilter(IsBad(), hits);
    ClassSizeCounts(hits, true);
    ClassSizeCounts(hits, false);
    CountOfFilter(IsClass(true), Hit(t, atLeast), HitClass(t, atLeast, true), rows);
    CountOfFilter(IsClass(false), Hit(t, atLeast), HitClass(t, atLeast, false), rows);
  }

  /** A threshold between the extremes is hit by at least one row. */
  lemma {:induction false} SomeRowHits(rows: seq<Row>, t: real, atLeast: bool)
    requires Values(rows) != []
    requires SortedValues(rows) != []
    requires SortedValues(rows)[0] <= t <= SortedValues(rows)[|SortedValues(rows)| - 1]
    ensures HitCount(rows, t, atLeast, true) + HitCount(rows, t, atLeast, false) > 0
  {
    var values := SortedValues(rows);
    RealLeOrder();
    SortedPermutation(RealLe, Values(rows));
    SameElements(values, Values(rows));
    var v := if atLeast then values[|values| - 1] else values[0];
    assert v in values;
    var r := RowWith(rows, v);
    CountZero(HitClass(t, atLeast, r.bad), rows);
    assert HitClass(t, atLeast, r.bad)(r);
  }

  /** A candidate that reports what its rule selects from the rows, at least one of them. */
  ghost predicate CountsRows(c: Candidate, rows: seq<Row>, atLeast: bool) {
    && c.atLeast == atLeast
    && c.badCount == HitCount(rows, c.threshold, atLeast, true)
    && c.goodCount == HitCount(rows, c.threshold, atLeast, false)
    && c.hitCount == c.badCount + c.goodCount > 0
    && c.recall == Ratio(c.badCount, Bad(rows))
    && c.precision == c.badRate == Ratio(c.badCount, c.hitCount)
    && c.hitRate == Ratio(c.hitCount, |rows|) && c.lift == Lift(c.badRate, Ratio(Bad(rows), |rows|))
  }

  /** Hits and bad hits shrink along ascending "at least" thresholds, grow along "at most" ones. */
  ghost predicate HitsNested(low: Candidate, high: Candidate, atLeast: bool) {
    if atLeast then high.hitCount <= low.hitCount && high.badCount <= low.badCount
    else low.hitCount <= high.hitCount && low.badCount <= high.badCount
  }

  ghost predicate CountsFollowRows(candidates: seq<Candidate>, rows: seq<Row>, atLeast: bool) {
    && (forall i, j | 0 <= i < j < |candidates| :: candidates[i].threshold < candidates[j].threshold)
    && (forall i | 0 <= i < |candidates| :: CountsRows(candidates[i], rows, atLeast))
    && (forall i, j | 0 <= i < j < |candidates| :: HitsNested(candidates[i], candidates[j], atLeast))
  }

  /** Each requested percentile, and the KS split if any, is named by exactly the candidate at its value. */
  ghost predicate NamesSources(candidates: seq<Candidate>, rows: seq<Row>, policy: Policy, split: Option<real>)
    requires ValidPolicy(policy)
  {
    && (forall i, p | 0 <= i < |candidates| && p in policy.percentiles ::
          Percentile(p) in candidates[i].sources <==> Some(candidates[i].threshold) == PercentileOf(rows, p))
    && (forall p | p in policy.percentiles ::
          PercentileOf(rows, p).Some? && Offers(candidates, PercentileOf(rows, p).value))
    && (forall i | 0 <= i < |candidates| ::
          KsBestSplit in candidates[i].sources <==> Some(candidates[i].threshold) == split)
    && (split.Some? ==> Offers(candidates, split.value))
  }

  lemma {:induction false} ProposalsInRange(rows: seq<Row>, policy: Policy, split: Option<real>)
    requires ValidPolicy(policy) && Values(rows) != []
    requires split.Some? ==> split.value in Values(rows)
    ensures var values := SortedValues(rows);
            values != []
            && forall p | p in Proposals(values, policy.percentiles, split) :: values[0] <= p.0 <= values[|values| - 1]
  {
    var values := SortedValues(rows);
    RealLeOrder();
    SortedPermutation(RealLe, Values(rows));
    SameElements(values, Values(rows));
    hide Quantile, SortBy, Values;
    var proposals := Proposals(values, policy.percentiles, split);
    forall i | 0 <= i < |proposals| ensures values[0] <= proposals[i].0 <= values[|values| - 1] {
      if i < |policy.percentiles| {
        assert policy.percentiles[i] in policy.percentiles;
        QuantileMonotone(values, policy.percentiles[i] as real, policy.percentiles[i] as real);
      } else {
        WithinExtremes(values, proposals[i].0);
      }
    }
  }

  lemma {:induction false} WithinExtremes(values: seq<real>, v: real)
    requires Ordered(RealLe, values) && v in values
    ensures values[0] <= v <= values[|values| - 1]
  {
    var k :| 0 <= k < |values| && values[k] == v;
    assert k == 0 || RealLe(values[0], values[k]);
    assert k == |values| - 1 || RealLe(values[k], values[|values| - 1]);
  }

  /** The split of a determined direction is the value of some row. */
  lemma {:induction false} SplitIsValue(rows: seq<Row>, policy: Policy, ln: real -> real)
    requires ValidPolicy(policy)
    ensures var ks := Ks(Numeric(Bins(rows, policy, ln)));
            ks.split.Some? ==> ks.split.value in Values(rows) && ks.direction != Undetermined
  {
    var numeric := Numeric(Bins(rows, policy, ln));
    var boundaries := Boundaries(SortedValues(rows), policy.bins);
    NumericShaped(rows, policy, ln);
    KsRealisedOnRows(rows, policy, ln);
    var ks := Ks(numeric);
    if ks.split.Some? {
      var atLeast := ks.direction == HigherIsRiskier;
      assert IsEdge(numeric, ks.split.value, atLeast);
      EdgeIsValue(numeric, rows, boundaries, ks.split.value, atLeast);
    }
  }

  lemma {:induction false} EdgeIsValue(numeric: seq<Bin>, rows: seq<Row>, boundaries: seq<real>, t: real, atLeast: bool)
    requires Shaped(numeric, rows, boundaries) && IsEdge(numeric, t, atLeast)
    ensures t in Values(rows)
  {
    var i :| 0 <= i < |numeric| && Some(t) == if atLeast then numeric[i].lower else numeric[i].upper;
    var group := Bucket(rows, boundaries, Keys(rows, boundaries, 0)[i]);
    assert t in Values(group);
    var r := RowWith(group, t);
    assert r in rows;
    ValueOfRow(rows, r);
  }

  ghost predicate Proposed(proposals: seq<(real, Origin)>, t: real) {
    exists k :: 0 <= k < |proposals| && proposals[k].0 == t
  }

  ghost predicate Offers(candidates: seq<Candidate>, t: real) {
    exists i :: 0 <= i < |candidates| && candidates[i].threshold == t
  }

  /** One measured candidate per distinct proposed threshold, in ascending order, with the
      proposals that name it. */
  ghost predicate Measures(candidates: seq<Candidate>, rows: seq<Row>, proposals: seq<(real, Origin)>, atLeast: bool) {
    && (forall i | 0 <= i < |candidates| ::
          candidates[i] == Measure(rows, candidates[i].threshold, atLeast, SourcesOf(proposals, candidates[i].threshold)))
    && (forall i, j | 0 <= i < j < |candidates| :: candidates[i].threshold < candidates[j].threshold)
    && (forall i | 0 <= i < |candidates| :: Proposed(proposals, candidates[i].threshold))
    && (forall k | 0 <= k < |proposals| :: Offers(candidates, proposals[k].0))
  }

  lemma {:induction false} CandidatesAscend(rows: seq<Row>, policy: Policy, ks: KsResult)
    requires ValidPolicy(policy) && Values(rows) != [] && ks.direction != Undetermined
    ensures SortedValues(rows) != []
    ensures Measures(Candidates(rows, policy, ks), rows,
                     Proposals(SortedValues(rows), policy.percentiles, ks.split), ks.direction == HigherIsRiskier)
  {
    SortedNonEmpty(Values(rows));
    var proposals := Proposals(SortedValues(rows), policy.percentiles, ks.split);
    var thresholds := SortedSet(RealLe, Thresholds(proposals));
    var candidates := Candidates(rows, policy, ks);
    RealLeOrder();
    SortedSetProperties(RealLe, Thresholds(proposals));
    assert |candidates| == |thresholds|;
    assert forall i | 0 <= i < |candidates| ::
             candidates[i]
             == Measure(rows, thresholds[i], ks.direction == HigherIsRiskier, SourcesOf(proposals, thresholds[i]));
    MeasuresThresholds(candidates, rows, thresholds, proposals, ks.direction == HigherIsRiskier);
  }

  lemma {:induction false} MeasuresThresholds(
      candidates: seq<Candidate>, rows: seq<Row>, thresholds: seq<real>, proposals: seq<(real, Origin)>, atLeast: bool)
    requires |candidates| == |thresholds|
    requires forall i | 0 <= i < |candidates| ::
               candidates[i] == Measure(rows, thresholds[i], atLeast, SourcesOf(proposals, thresholds[i]))
    requires Increasing(RealLe, thresholds)
    requires forall t :: t in thresholds <==> t in Thresholds(proposals)
    ensures Measures(candidates, rows, proposals, atLeast)
  {
    ThresholdsFromProposals(thresholds, proposals);
    hide SourcesOf, Bad, Good, Ratio, Lift;
    forall i | 0 <= i < |candidates|
      ensures candidates[i].threshold == thresholds[i] && Proposed(proposals, candidates[i].threshold)
    {
      assert Proposed(proposals, thresholds[i]);
    }
    forall k | 0 <= k < |proposals| ensures Offers(candidates, proposals[k].0) {
      assert proposals[k].0 in thresholds;
      var i :| 0 <= i < |thresholds| && thresholds[i] == proposals[k].0;
      assert candidates[i].threshold == proposals[k].0;
    }
  }

  lemma {:induction false} ThresholdsFromProposals(thresholds: seq<real>, proposals: seq<(real, Origin)>)
    requires Increasing(RealLe, thresholds)
    requires forall t :: t in thresholds <==> t in Thresholds(proposals)
    ensures forall i, j | 0 <= i < j < |thresholds| :: thresholds[i] < thresholds[j]
    ensures forall i | 0 <= i < |thresholds| :: Proposed(proposals, thresholds[i])
    ensures forall k | 0 <= k < |proposals| :: proposals[k].0 in thresholds
  {
    forall i, j | 0 <= i < j < |thresholds| ensures thresholds[i] < thresholds[j] {
      assert RealLe(thresholds[i], thresholds[j]);
    }
    forall i | 0 <= i < |thresholds| ensures Proposed(proposals, thresholds[i]) {
      ThresholdsMembers(proposals, thresholds[i]);
      assert thresholds[i] in thresholds;
    }
    forall k | 0 <= k < |proposals| ensures proposals[k].0 in thresholds {
      ThresholdsMembers(proposals, proposals[k].0);
      assert Proposed(proposals, proposals[k].0);
    }
  }

  lemma {:induction false} MeasuredCounts(
      candidates: seq<Candidate>, rows: seq<Row>, proposals: seq<(real, Origin)>, atLeast: bool)
    requires Measures(candidates, rows, proposals, atLeast) && Values(rows) != [] && SortedValues(rows) != []
    requires forall p | p in proposals ::
               SortedValues(rows)[0] <= p.0 <= SortedValues(rows)[|SortedValues(rows)| - 1]
    ensures CountsFollowRows(candidates, rows, atLeast)
  {
    hide SortedValues, SourcesOf, HitCount, Values, CountsRows, Measure, HitsNested;
    forall i | 0 <= i < |candidates| ensures CountsRows(candidates[i], rows, atLeast) {
      var t := candidates[i].threshold;
      var k :| 0 <= k < |proposals| && proposals[k].0 == t;
      assert proposals[k] in proposals;
      MeasureCountsRows(rows, t, atLeast, SourcesOf(proposals, t));
    }
    forall i, j | 0 <= i < j < |candidates| ensures HitsNested(candidates[i], candidates[j], atLeast) {
      CandidatesNested(candidates[i], candidates[j], rows, atLeast);
    }
  }

  lemma {:induction false} MeasureCountsRows(rows: seq<Row>, t: real, atLeast: bool, sources: seq<Origin>)
    requires Values(rows) != [] && SortedValues(rows) != []
    requires SortedValues(rows)[0] <= t <= SortedValues(rows)[|SortedValues(rows)| - 1]
    ensures CountsRows(Measure(rows, t, atLeast, sources), rows, atLeast)
  {
    MeasureCounts(rows, t, atLeast, sources);
    SomeRowHits(rows, t, atLeast);
  }

  lemma {:induction false} CandidatesNested(low: Candidate, high: Candidate, rows: seq<Row>, atLeast: bool)
    requires CountsRows(low, rows, atLeast) && CountsRows(high, rows, atLeast) && low.threshold < high.threshold
    ensures HitsNested(low, high, atLeast)
  {
    HitsMonotone(rows, low.threshold, high.threshold, atLeast, true);
    HitsMonotone(rows, low.threshold, high.threshold, atLeast, false);
    hide HitCount, Bad, Ratio;
  }

  lemma {:induction false} OriginsMatch(values: seq<real>, policy: Policy, split: Option<real>, t: real)
    requires ValidPolicy(policy) && values != []
    ensures var sources := SourcesOf(Proposals(values, policy.percentiles, split), t);
            && (forall p | p in policy.percentiles :: Percentile(p) in sources <==> Some(t) == Quantile(values, p as real))
            && (KsBestSplit in sources <==> split == Some(t))
  {
    var proposals := Proposals(values, policy.percentiles, split);
    forall p | p in policy.percentiles
      ensures Percentile(p) in SourcesOf(proposals, t) <==> Some(t) == Quantile(values, p as real)
    {
      SourcesMembers(proposals, t, Percentile(p));
      var i :| 0 <= i < |policy.percentiles| && policy.percentiles[i] == p;
      assert proposals[i] == (Quantile(values, p as real).value, Percentile(p));
      if (t, Percentile(p)) in proposals {
        var k :| 0 <= k < |proposals| && proposals[k] == (t, Percentile(p));
        assert k < |policy.percentiles| && policy.percentiles[k] == p;
      }
    }
    SourcesMembers(proposals, t, KsBestSplit);
    if split.Some? { assert proposals[|policy.percentiles|] == (split.value, KsBestSplit); }
  }

  lemma {:induction false} MeasuredSources(
      candidates: seq<Candidate>, rows: seq<Row>, policy: Policy, split: Option<real>, atLeast: bool)
    requires ValidPolicy(policy) && SortedValues(rows) != []
    requires Measures(candidates, rows, Proposals(SortedValues(rows), policy.percentiles, split), atLeast)
    ensures NamesSources(candidates, rows, policy, split)
  {
    var values := SortedValues(rows);
    var proposals := Proposals(values, policy.percentiles, split);
    ProposalsNamed(values, policy, split);
    hide SortedValues, Quantile, SourcesOf, Proposals, Measure;
    forall i | 0 <= i < |candidates|
      ensures forall p | p in policy.percentiles ::
                Percentile(p) in candidates[i].sources <==> Some(candidates[i].threshold) == PercentileOf(rows, p)
      ensures KsBestSplit in candidates[i].sources <==> split == Some(candidates[i].threshold)
    {
      OriginsMatch(values, policy, split, candidates[i].threshold);
      MeasureKeepsSources(rows, candidates[i].threshold, atLeast, SourcesOf(proposals, candidates[i].threshold));
    }
    forall p | p in policy.percentiles
      ensures PercentileOf(rows, p).Some? && Offers(candidates, PercentileOf(rows, p).value)
    {
      var k :| 0 <= k < |proposals| && Some(proposals[k].0) == Quantile(values, p as real);
    }
  }

  lemma {:induction false} MeasureKeepsSources(rows: seq<Row>, t: real, atLeast: bool, sources: seq<Origin>)
    ensures Measure(rows, t, atLeast, sources).sources == sources
    ensures Measure(rows, t, atLeast, sources).threshold == t
  {
  }

  lemma {:induction false} ProposalsNamed(values: seq<real>, policy: Policy, split: Option<real>)
    requires ValidPolicy(policy) && values != []
    ensures var proposals := Proposals(values, policy.percentiles, split);
            && (forall p | p in policy.percentiles ::
                  exists k :: 0 <= k < |proposals| && Some(proposals[k].0) == Quantile(values, p as real))
            && (split.Some? ==> Proposed(proposals, split.value))
  {
    var proposals := Proposals(values, policy.percentiles, split);
    forall p | p in policy.percentiles
      ensures exists k :: 0 <= k < |proposals| && Some(proposals[k].0) == Quantile(values, p as real)
    {
      var i :| 0 <= i < |policy.percentiles| && policy.percentiles[i] == p;
      assert proposals[i].0 == Quantile(values, p as real).value;
    }
    if split.Some? { assert proposals[|policy.percentiles|].0 == split.value; }
  }

  /** With a determined direction the candidates ascend strictly, each is hit by some row, hit
      and bad counts (hence recall) move one way along the list, each requested percentile and
      the KS split is named by exactly the candidate at its value, and counts are those of the
      raw rows. */
  lemma {:induction false} CandidatesFollowRows(rows: seq<Row>, policy: Policy, ln: real -> real)
    requires ValidPolicy(policy)
    ensures var ks := Ks(Numeric(Bins(rows, policy, ln)));
            ks.direction != Undetermined ==>
              && Values(rows) != []
              && CountsFollowRows(Candidates(rows, policy, ks), rows, ks.direction == HigherIsRiskier)
              && NamesSources(Candidates(rows, policy, ks), rows, policy, ks.split)
  {
    var ks := Ks(Numeric(Bins(rows, policy, ln)));
    if ks.direction != Undetermined {
      DirectionNeedsValues(rows, policy, ln);
      SplitIsValue(rows, policy, ln);
      hide Ks, Numeric, Bins, Values, Candidates, Proposals, SortedValues;
      CandidatesAscend(rows, policy, ks);
      ProposalsInRange(rows, policy, ks.split);
      MeasuredCounts(Candidates(rows, policy, ks), rows,
                     Proposals(SortedValues(rows), policy.percentiles, ks.split), ks.direction == HigherIsRiskier);
      MeasuredSources(Candidates(rows, policy, ks), rows, policy, ks.split, ks.direction == HigherIsRiskier);
    }
  }
}
