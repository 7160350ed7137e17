/** What the KS statistic and its split mean on the raw rows, not on the bins. */
module KsLaws {
  import opened Options
  import opened Sorting
  import opened Evaluation
  import opened BinningLaws

  function HitClass(threshold: real, atLeast: bool, bad: bool): Row -> bool {
    (r: Row) => Hits(threshold, atLeast, r.value) && r.bad == bad
  }

  /** Rows with a value, by class. */
  function Valued(rows: seq<Row>, bad: bool): nat { Count(HasValue(bad), rows) }

  /** Rows of one class that a threshold rule selects. */
  function HitCount(rows: seq<Row>, threshold: real, atLeast: bool, bad: bool): nat {
    Count(HitClass(threshold, atLeast, bad), rows)
  }

  /** Share of the bad rows minus share of the good rows that a threshold rule selects. */
  function Separation(rows: seq<Row>, threshold: real, atLeast: bool): real
    requires Valued(rows, true) != 0 && Valued(rows, false) != 0
  {
    Frac(HitCount(rows, threshold, atLeast, true), Valued(rows, true))
    - Frac(HitCount(rows, threshold, atLeast, false), Valued(rows, false))
  }

  ghost predicate Separates(rows: seq<Row>, threshold: real, atLeast: bool) {
    forall r | r in rows && r.value.Some? :: r.bad <==> Hits(threshold, atLeast, r.value)
  }

  /** `threshold` with this operator is an edge of one of the numeric bins. */
  ghost predicate IsEdge(numeric: seq<Bin>, threshold: real, atLeast: bool) {
    exists i :: 0 <= i < |numeric| && Some(threshold) == if atLeast then numeric[i].lower else numeric[i].upper
  }

  // ------------------------------------------------------------ gaps are separations

  lemma {:induction false} HitsBelow(numeric: seq<Bin>, rows: seq<Row>, boundaries: seq<real>, i: nat, bad: bool)
    requires Shaped(numeric, rows, boundaries) && i < |numeric|
    ensures HitCount(rows, numeric[i].upper.value, false, bad) == CumClass(numeric, i + 1, bad)
  {
    CumulativeAtMost(numeric, rows, boundaries, i, bad);
    CountCongruent(HitClass(numeric[i].upper.value, false, bad), AtMost(numeric[i].upper.value, bad), rows);
  }

  /** The bin that holds the value of a row, after all earlier and before all later ones. */
  lemma {:induction false} BinOf(numeric: seq<Bin>, rows: seq<Row>, r: Row) returns (n: nat)
    requires PartitionsRows(numeric, rows) && r in rows && r.value.Some?
    ensures n < |numeric| && numeric[n].lower.value <= r.value.value <= numeric[n].upper.value
    ensures forall i | 0 <= i < n :: numeric[i].upper.value < numeric[n].lower.value
    ensures forall i | n < i < |numeric| :: numeric[n].upper.value < numeric[i].lower.value
  {
    ValueOfRow(rows, r);
    hide Values, Count, ClassOf, Between;
    assert r.value.value in Values(rows);
    assert exists i :: 0 <= i < |numeric| && numeric[i].lower.value <= r.value.value <= numeric[i].upper.value;
    n :| 0 <= n < |numeric| && numeric[n].lower.value <= r.value.value <= numeric[n].upper.value;
  }

  /** On partitioning bins, "at least the lower bound of bin `i`" is "in no earlier bin". */
  lemma {:induction false} LowerBoundCuts(numeric: seq<Bin>, rows: seq<Row>, i: nat, r: Row)
    requires PartitionsRows(numeric, rows) && i < |numeric| && r in rows && r.value.Some?
    ensures Hits(numeric[i].lower.value, true, r.value) <==> i == 0 || r.value.value > numeric[i - 1].upper.value
  {
    var n := BinOf(numeric, rows, r);
    hide Values, Count, ClassOf, Between;
    assert n < i ==> numeric[n].upper.value < numeric[i].lower.value;
    assert 0 < i && n < i - 1 ==> numeric[n].upper.value < numeric[i - 1].lower.value;
  }

  lemma {:induction false} AboveIsNotBefore(numeric: seq<Bin>, rows: seq<Row>, i: nat, bad: bool)
    requires PartitionsRows(numeric, rows) && i < |numeric|
    ensures forall r | r in rows :: HitClass(numeric[i].lower.value, true, bad)(r)
              <==> HasValue(bad)(r) && !(i > 0 && AtMost(numeric[i - 1].upper.value, bad)(r))
  {
    forall r | r in rows
      ensures HitClass(numeric[i].lower.value, true, bad)(r)
              <==> HasValue(bad)(r) && !(i > 0 && AtMost(numeric[i - 1].upper.value, bad)(r))
    {
      if r.value.Some? { LowerBoundCuts(numeric, rows, i, r); }
    }
  }

  lemma {:induction false} CountAbove(numeric: seq<Bin>, rows: seq<Row>, i: nat, bad: bool)
    requires PartitionsRows(numeric, rows) && i < |numeric|
    ensures HitCount(rows, numeric[i].lower.value, true, bad)
            == Valued(rows, bad) - (if i == 0 then 0 else Count(AtMost(numeric[i - 1].upper.value, bad), rows))
  {
    var above := HitClass(numeric[i].lower.value, true, bad);
    AboveIsNotBefore(numeric, rows, i, bad);
    hide PartitionsRows;
    if i == 0 {
      CountCongruent(above, HasValue(bad), rows);
    } else {
      CountSplit(HasValue(bad), AtMost(numeric[i - 1].upper.value, bad), above, rows);
    }
  }

  lemma {:induction false} HitsAbove(numeric: seq<Bin>, rows: seq<Row>, boundaries: seq<real>, i: nat, bad: bool)
    requires Shaped(numeric, rows, boundaries) && i < |numeric|
    ensures HitCount(rows, numeric[i].lower.value, true, bad)
            == CumClass(numeric, |numeric|, bad) - CumClass(numeric, i, bad)
  {
    ShapedPartitions(numeric, rows, boundaries);
    CountAbove(numeric, rows, i, bad);
    CumulativeTotal(numeric, rows, boundaries, bad);
    if i > 0 { CumulativeAtMost(numeric, rows, boundaries, i - 1, bad); }
  }

  lemma {:induction false} FracBounds(part: nat, total: nat)
    requires part <= total && total > 0
    ensures 0.0 <= Frac(part, total) <= 1.0
    ensures Frac(part, total) == 1.0 <==> part == total
    ensures Frac(part, total) == 0.0 <==> part == 0
  {
    DivideWithin(part as real, total as real, 1.0);
    var q := part as real / total as real;
    assert q * total as real == part as real;
  }

  lemma {:induction false} QuotientUnique(a: real, b: real, q: real)
    requires b != 0.0 && q * b == a
    ensures a / b == q
  {
    assert a / b * b == a;
    assert (a / b - q) * b == 0.0;
  }

  lemma {:induction false} FracComplement(part: nat, total: nat)
    requires part <= total && total > 0
    ensures Frac(total - part, total) == 1.0 - Frac(part, total)
  {
    var q, t := part as real / total as real, total as real;
    assert q * t == part as real;
    assert (1.0 - q) * t == (total - part) as real;
    QuotientUnique((total - part) as real, t, 1.0 - q);
  }

  /** Hit counts of the threshold rules at the bin edges, in terms of running class counts. */
  ghost predicate CountsHits(numeric: seq<Bin>, rows: seq<Row>) {
    && (forall bad :: Valued(rows, bad) == CumClass(numeric, |numeric|, bad))
    && (forall i | 0 <= i < |numeric| :: numeric[i].lower.Some? && numeric[i].upper.Some?)
    && (forall i, bad | 0 <= i < |numeric| ::
          && HitCount(rows, numeric[i].upper.value, false, bad) == CumClass(numeric, i + 1, bad)
          && HitCount(rows, numeric[i].lower.value, true, bad)
             == CumClass(numeric, |numeric|, bad) - CumClass(numeric, i, bad))
  }

  lemma {:induction false} ShapedCountsHits(numeric: seq<Bin>, rows: seq<Row>, boundaries: seq<real>)
    requires Shaped(numeric, rows, boundaries)
    ensures CountsHits(numeric, rows)
  {
    forall bad ensures Valued(rows, bad) == CumClass(numeric, |numeric|, bad) {
      CumulativeTotal(numeric, rows, boundaries, bad);
    }
    forall i, bad | 0 <= i < |numeric|
      ensures && HitCount(rows, numeric[i].upper.value, false, bad) == CumClass(numeric, i + 1, bad)
              && HitCount(rows, numeric[i].lower.value, true, bad)
                 == CumClass(numeric, |numeric|, bad) - CumClass(numeric, i, bad)
    {
      HitsBelow(numeric, rows, boundaries, i, bad);
      HitsAbove(numeric, rows, boundaries, i, bad);
    }
  }

  /** The gap after bin `i` is what "at least the next lower bound" separates, and the negation
      of what "at most this upper bound" separates. */
  lemma {:induction false} GapIsSeparation(numeric: seq<Bin>, rows: seq<Row>, i: nat)
    requires CountsHits(numeric, rows) && i < |numeric|
    requires CumGood(numeric, |numeric|) != 0 && CumBad(numeric, |numeric|) != 0
    ensures Valued(rows, false) == CumGood(numeric, |numeric|) && Valued(rows, true) == CumBad(numeric, |numeric|)
    ensures Separation(rows, numeric[i].upper.value, false) == -Gap(numeric, i)
    ensures Separation(rows, numeric[i].lower.value, true) == if i == 0 then 0.0 else Gap(numeric, i - 1)
  {
    hide Frac;
    assert Valued(rows, true) == CumClass(numeric, |numeric|, true);
    assert Valued(rows, false) == CumClass(numeric, |numeric|, false);
    assert HitCount(rows, numeric[i].upper.value, false, true) == CumClass(numeric, i + 1, true);
    assert HitCount(rows, numeric[i].upper.value, false, false) == CumClass(numeric, i + 1, false);
    assert HitCount(rows, numeric[i].lower.value, true, true) == CumBad(numeric, |numeric|) - CumBad(numeric, i);
    assert HitCount(rows, numeric[i].lower.value, true, false) == CumGood(numeric, |numeric|) - CumGood(numeric, i);
    CumGrows(numeric, i, |numeric|);
    FracComplement(CumGood(numeric, i), CumGood(numeric, |numeric|));
    FracComplement(CumBad(numeric, i), CumBad(numeric, |numeric|));
    FracBounds(CumGood(numeric, 0), CumGood(numeric, |numeric|));
    FracBounds(CumBad(numeric, 0), CumBad(numeric, |numeric|));
  }

  // ------------------------------------------------------------ bounds

  lemma {:induction false} CumGrows(bins: seq<Bin>, i: nat, j: nat)
    requires i <= j <= |bins|
    ensures CumGood(bins, i) <= CumGood(bins, j) && CumBad(bins, i) <= CumBad(bins, j)
  {
    if i < j { CumGrows(bins, i, j - 1); }
  }

  lemma {:induction false} GapBounds(bins: seq<Bin>, i: nat)
    requires CumGood(bins, |bins|) != 0 && CumBad(bins, |bins|) != 0 && i < |bins|
    ensures Abs(Gap(bins, i)) <= 1.0
    ensures i == |bins| - 1 ==> Gap(bins, i) == 0.0
  {
    hide Frac;
    CumGrows(bins, i + 1, |bins|);
    FracBounds(CumGood(bins, i + 1), CumGood(bins, |bins|));
    FracBounds(CumBad(bins, i + 1), CumBad(bins, |bins|));
  }

  /** Everything a caller may conclude from a KS result about the rows themselves. */
  ghost predicate KsDescribes(ks: KsResult, numeric: seq<Bin>, rows: seq<Row>) {
    && (ks.available <==> Valued(rows, true) != 0 && Valued(rows, false) != 0)
    && (!ks.available ==> ks == KS_NOT_AVAILABLE)
    && (ks.available ==>
          && ks.value.Some? && 0.0 <= ks.value.value <= 1.0
          && ks.ascending == ks.descending == ks.value
          && (ks.split.None? <==> ks.direction == Undetermined)
          && (ks.direction == Undetermined <==> ks.value == Some(0.0))
          && (ks.split.Some? ==>
                && IsEdge(numeric, ks.split.value, ks.direction == HigherIsRiskier)
                && Separation(rows, ks.split.value, ks.direction == HigherIsRiskier) == ks.value.value)
          && (forall t, atLeast :: IsEdge(numeric, t, atLeast) ==> Abs(Separation(rows, t, atLeast)) <= ks.value.value))
  }

  lemma {:induction false} EdgeSeparation(numeric: seq<Bin>, rows: seq<Row>, t: real, atLeast: bool)
    requires CountsHits(numeric, rows) && IsEdge(numeric, t, atLeast)
    requires CumGood(numeric, |numeric|) != 0 && CumBad(numeric, |numeric|) != 0
    ensures Valued(rows, true) != 0 && Valued(rows, false) != 0
    ensures Abs(Separation(rows, t, atLeast)) <= Ks(numeric).value.value
  {
    var i :| 0 <= i < |numeric| && Some(t) == if atLeast then numeric[i].lower else numeric[i].upper;
    GapIsSeparation(numeric, rows, i);
    GapWithinKs(numeric, i);
    if i > 0 { GapWithinKs(numeric, i - 1); }
    hide *;
    assert atLeast ==> t == numeric[i].lower.value;
    assert !atLeast ==> t == numeric[i].upper.value;
    AbsOf(if atLeast then (if i == 0 then 0.0 else Gap(numeric, i - 1)) else Gap(numeric, i));
  }

  lemma {:induction false} AbsOf(x: real)
    ensures Abs(-x) == Abs(x) && Abs(0.0) == 0.0
  {
  }

  /** No gap exceeds the reported value. */
  lemma {:induction false} GapWithinKs(numeric: seq<Bin>, i: nat)
    requires CumGood(numeric, |numeric|) != 0 && CumBad(numeric, |numeric|) != 0 && i < |numeric|
    ensures Ks(numeric).value.Some? && 0.0 <= Abs(Gap(numeric, i)) <= Ks(numeric).value.value
  {
    hide Gap, ArgMax;
    var gaps := Gaps(numeric);
    assert Abs(gaps[i]) <= Abs(gaps[ArgMax(gaps)]);
  }

  /** The chosen split lies on an edge and separates the rows by the reported value. */
  lemma {:induction false} SplitSeparation(numeric: seq<Bin>, rows: seq<Row>)
    requires CountsHits(numeric, rows)
    requires CumGood(numeric, |numeric|) != 0 && CumBad(numeric, |numeric|) != 0
    ensures Valued(rows, true) != 0 && Valued(rows, false) != 0
    ensures var ks := Ks(numeric);
            && 0.0 <= ks.value.value <= 1.0
            && (ks.split.None? <==> ks.direction == Undetermined)
            && (ks.direction == Undetermined <==> ks.value == Some(0.0))
            && (ks.split.Some? ==>
                  && IsEdge(numeric, ks.split.value, ks.direction == HigherIsRiskier)
                  && Separation(rows, ks.split.value, ks.direction == HigherIsRiskier) == ks.value.value)
  {
    var gaps, ks := Gaps(numeric), Ks(numeric);
    var index := ArgMax(gaps);
    GapBounds(numeric, index);
    GapIsSeparation(numeric, rows, index);
    hide Separation, Gap, CountsHits;
    if ks.direction == HigherIsRiskier {
      GapIsSeparation(numeric, rows, index + 1);
      assert Some(ks.split.value) == numeric[index + 1].lower;
    } else {
      assert ks.split.Some? ==> Some(ks.split.value) == numeric[index].upper;
    }
  }

  lemma {:induction false} KsDescribesRows(numeric: seq<Bin>, rows: seq<Row>)
    requires CountsHits(numeric, rows)
    requires CumGood(numeric, |numeric|) != 0 && CumBad(numeric, |numeric|) != 0
    ensures KsDescribes(Ks(numeric), numeric, rows)
  {
    SplitSeparation(numeric, rows);
    hide Separation, Gap, CountsHits;
    forall t, atLeast | IsEdge(numeric, t, atLeast)
      ensures Abs(Separation(rows, t, atLeast)) <= Ks(numeric).value.value
    {
      EdgeSeparation(numeric, rows, t, atLeast);
    }
  }

  /** KS is available exactly when both classes have a row with a value; it lies in [0, 1]; its
      split is absent exactly when no direction is determined; used as a threshold rule on the
      raw rows the split separates the classes by exactly the reported value; and no edge of
      any bin, in either direction, separates them by more. */
  lemma {:induction false} KsRealisedOnRows(rows: seq<Row>, policy: Policy, ln: real -> real)
    requires ValidPolicy(policy)
    ensures var numeric := Numeric(Bins(rows, policy, ln)); KsDescribes(Ks(numeric), numeric, rows)
  {
    var numeric := Numeric(Bins(rows, policy, ln));
    NumericShaped(rows, policy, ln);
    ShapedCountsHits(numeric, rows, Boundaries(SortedValues(rows), policy.bins));
    assert Valued(rows, true) == CumClass(numeric, |numeric|, true);
    assert Valued(rows, false) == CumClass(numeric, |numeric|, false);
    if CumGood(numeric, |numeric|) != 0 && CumBad(numeric, |numeric|) != 0 {
      KsDescribesRows(numeric, rows);
    }
  }

  // ------------------------------------------------------------ all thresholds

  /** The rule leaves every bin on one side. */
  ghost predicate SplitsNoBin(numeric: seq<Bin>, t: real, atLeast: bool) {
    forall i | 0 <= i < |numeric| && numeric[i].lower.Some? && numeric[i].upper.Some? ::
      if atLeast then t <= numeric[i].lower.value || numeric[i].upper.value < t
      else numeric[i].upper.value <= t || t < numeric[i].lower.value
  }

  /** The first bin that starts at or above a threshold, if any. */
  lemma {:induction false} FirstAbove(numeric: seq<Bin>, t: real) returns (i: nat)
    requires forall k | 0 <= k < |numeric| :: numeric[k].lower.Some?
    ensures i <= |numeric| && (forall k | 0 <= k < i :: numeric[k].lower.value < t)
    ensures i < |numeric| ==> t <= numeric[i].lower.value
  {
    i := 0;
    while i < |numeric| && numeric[i].lower.value < t
      invariant i <= |numeric| && forall k | 0 <= k < i :: numeric[k].lower.value < t
    {
      i := i + 1;
    }
  }

  /** The first bin that ends above a threshold, if any. */
  lemma {:induction false} FirstBeyond(numeric: seq<Bin>, t: real) returns (i: nat)
    requires forall k | 0 <= k < |numeric| :: numeric[k].upper.Some?
    ensures i <= |numeric| && (forall k | 0 <= k < i :: numeric[k].upper.value <= t)
    ensures i < |numeric| ==> t < numeric[i].upper.value
  {
    i := 0;
    while i < |numeric| && numeric[i].upper.value <= t
      invariant i <= |numeric| && forall k | 0 <= k < i :: numeric[k].upper.value <= t
    {
      i := i + 1;
    }
  }

  /** Two rules select the same rows. */
  ghost predicate SameHits(rows: seq<Row>, t: real, u: real, atLeast: bool) {
    forall r | r in rows :: Hits(t, atLeast, r.value) <==> Hits(u, atLeast, r.value)
  }

  /** A rule that splits no bin selects nothing, or what a bin edge selects. */
  lemma {:induction false} WholeBinRule(numeric: seq<Bin>, rows: seq<Row>, t: real, atLeast: bool)
    requires PartitionsRows(numeric, rows) && SplitsNoBin(numeric, t, atLeast)
    ensures (forall r | r in rows :: !Hits(t, atLeast, r.value))
            || exists u :: IsEdge(numeric, u, atLeast) && SameHits(rows, t, u, atLeast)
  {
    hide ClassOf, Count, Between;
    if atLeast {
      var i := FirstAbove(numeric, t);
      forall r | r in rows && r.value.Some?
        ensures r.value.value >= t <==> i < |numeric| && r.value.value >= numeric[i].lower.value
      {
        var n := BinOf(numeric, rows, r);
      }
      if i < |numeric| {
        assert IsEdge(numeric, numeric[i].lower.value, true) && SameHits(rows, t, numeric[i].lower.value, true);
      }
    } else {
      var i := FirstBeyond(numeric, t);
      forall r | r in rows && r.value.Some?
        ensures r.value.value <= t <==> i > 0 && r.value.value <= numeric[i - 1].upper.value
      {
        var n := BinOf(numeric, rows, r);
      }
      if i > 0 {
        assert IsEdge(numeric, numeric[i - 1].upper.value, false);
        assert SameHits(rows, t, numeric[i - 1].upper.value, false);
      }
    }
  }

  lemma {:induction false} SameHitsSeparate(rows: seq<Row>, t: real, u: real, atLeast: bool)
    requires SameHits(rows, t, u, atLeast) && Valued(rows, true) != 0 && Valued(rows, false) != 0
    ensures Separation(rows, t, atLeast) == Separation(rows, u, atLeast)
  {
    CountCongruent(HitClass(t, atLeast, true), HitClass(u, atLeast, true), rows);
    CountCongruent(HitClass(t, atLeast, false), HitClass(u, atLeast, false), rows);
  }

  lemma {:induction false} NoHitsSeparateNothing(rows: seq<Row>, t: real, atLeast: bool)
    requires Valued(rows, true) != 0 && Valued(rows, false) != 0
    requires forall r | r in rows :: !Hits(t, atLeast, r.value)
    ensures Separation(rows, t, atLeast) == 0.0
  {
    CountZero(HitClass(t, atLeast, true), rows);
    CountZero(HitClass(t, atLeast, false), rows);
  }

  lemma {:induction false} WholeBinRuleBounded(
      ks: KsResult, numeric: seq<Bin>, rows: seq<Row>, t: real, atLeast: bool)
    requires KsDescribes(ks, numeric, rows) && ks.available && PartitionsRows(numeric, rows)
    requires SplitsNoBin(numeric, t, atLeast)
    ensures Abs(Separation(rows, t, atLeast)) <= ks.value.value
  {
    WholeBinRule(numeric, rows, t, atLeast);
    hide Separation, PartitionsRows, SplitsNoBin, IsEdge, Valued;
    if forall r | r in rows :: !Hits(t, atLeast, r.value) {
      NoHitsSeparateNothing(rows, t, atLeast);
      AbsOf(0.0);
    } else {
      var u :| IsEdge(numeric, u, atLeast) && SameHits(rows, t, u, atLeast);
      SameHitsSeparate(rows, t, u, atLeast);
    }
  }

  /** No threshold whatever, on an edge or not, separates the rows by more than the reported value
      unless it splits a bin; so when every bin holds one value only, the reported value is the
      largest separation that any threshold achieves. */
  lemma {:induction false} KsBoundsAllThresholds(rows: seq<Row>, policy: Policy, ln: real -> real)
    requires ValidPolicy(policy)
    ensures var numeric := Numeric(Bins(rows, policy, ln));
            Ks(numeric).available ==>
              && Valued(rows, true) != 0 && Valued(rows, false) != 0 && Ks(numeric).value.Some?
              && (forall t, atLeast | SplitsNoBin(numeric, t, atLeast) ::
                    Abs(Separation(rows, t, atLeast)) <= Ks(numeric).value.value)
              && ((forall i | 0 <= i < |numeric| :: numeric[i].lower == numeric[i].upper) ==>
                    forall t, atLeast :: Abs(Separation(rows, t, atLeast)) <= Ks(numeric).value.value)
  {
    var numeric := Numeric(Bins(rows, policy, ln));
    KsRealisedOnRows(rows, policy, ln);
    NumericShaped(rows, policy, ln);
    ShapedPartitions(numeric, rows, Boundaries(SortedValues(rows), policy.bins));
    hide *;
    if Ks(numeric).available { KsBounds(Ks(numeric), numeric, rows); }
  }

  lemma {:induction false} KsBounds(ks: KsResult, numeric: seq<Bin>, rows: seq<Row>)
    requires KsDescribes(ks, numeric, rows) && ks.available && PartitionsRows(numeric, rows)
    ensures Valued(rows, true) != 0 && Valued(rows, false) != 0 && ks.value.Some?
    ensures forall t, atLeast | SplitsNoBin(numeric, t, atLeast) :: Abs(Separation(rows, t, atLeast)) <= ks.value.value
    ensures (forall i | 0 <= i < |numeric| :: numeric[i].lower == numeric[i].upper) ==>
              forall t, atLeast :: Abs(Separation(rows, t, atLeast)) <= ks.value.value
  {
    hide Separation, IsEdge, Valued, PartitionsRows, Abs;
    forall t, atLeast | SplitsNoBin(numeric, t, atLeast) ensures Abs(Separation(rows, t, atLeast)) <= ks.value.value {
      WholeBinRuleBounded(ks, numeric, rows, t, atLeast);
    }
    if forall i | 0 <= i < |numeric| :: numeric[i].lower == numeric[i].upper {
      forall t, atLeast ensures SplitsNoBin(numeric, t, atLeast) {}
    }
  }

  // ------------------------------------------------------------ bucket and split

  /** The reported bucket is the first bin whose upper bound separates by the KS value, and the
      split is the boundary right above it, or that bound itself when low values are riskier. */
  ghost predicate BucketClosesAtSplit(ks: KsResult, numeric: seq<Bin>, rows: seq<Row>)
    requires ks.available ==> Valued(rows, true) != 0 && Valued(rows, false) != 0
    requires forall i | 0 <= i < |numeric| :: numeric[i].upper.Some?
  {
    ks.available ==>
      && ks.bucket.Some? && ks.bucket.value < |numeric| && ks.value.Some?
      && var b := ks.bucket.value;
         && Abs(Separation(rows, numeric[b].upper.value, false)) == ks.value.value
         && (forall j | 0 <= j < b :: Abs(Separation(rows, numeric[j].upper.value, false)) < ks.value.value)
         && (ks.direction == HigherIsRiskier ==> b + 1 < |numeric| && ks.split == numeric[b + 1].lower)
         && (ks.direction == LowerIsRiskier ==> ks.split == numeric[b].upper)
  }

  /** A KS result names the first bin of the widest gap, and splits right after it. */
  ghost predicate NamesFirstWidest(ks: KsResult, numeric: seq<Bin>, gaps: seq<real>)
    requires |gaps| == |numeric|
  {
    && ks.bucket.Some? && ks.bucket.value < |numeric| && ks.value.Some?
    && var b := ks.bucket.value;
       && Abs(gaps[b]) == ks.value.value && (forall j | 0 <= j < b :: Abs(gaps[j]) < ks.value.value)
       && (ks.direction == HigherIsRiskier ==> b + 1 < |numeric| && ks.split == numeric[b + 1].lower)
       && (ks.direction == LowerIsRiskier ==> ks.split == numeric[b].upper)
  }

  lemma {:induction false} KsFromNames(numeric: seq<Bin>, gaps: seq<real>)
    requires |gaps| == |numeric| > 0 && gaps[|gaps| - 1] == 0.0
    requires forall i | 0 <= i < |numeric| :: numeric[i].bucket == i
    ensures NamesFirstWidest(KsFrom(numeric, gaps), numeric, gaps)
  {
    var index := ArgMax(gaps);
    hide ArgMax;
    assert KsFrom(numeric, gaps).bucket == Some(index);
    assert DirectionOf(gaps[index]) == HigherIsRiskier ==> index + 1 < |numeric|;
  }

  lemma {:induction false} KsBucketClosesAtSplit(rows: seq<Row>, policy: Policy, ln: real -> real)
    requires ValidPolicy(policy)
    ensures var numeric := Numeric(Bins(rows, policy, ln));
            && (Ks(numeric).available ==> Valued(rows, true) != 0 && Valued(rows, false) != 0)
            && (forall i | 0 <= i < |numeric| :: numeric[i].upper.Some?)
            && BucketClosesAtSplit(Ks(numeric), numeric, rows)
  {
    var numeric := Numeric(Bins(rows, policy, ln));
    NumericShaped(rows, policy, ln);
    ShapedCountsHits(numeric, rows, Boundaries(SortedValues(rows), policy.bins));
    KsRealisedOnRows(rows, policy, ln);
    assert forall i | 0 <= i < |numeric| :: numeric[i].bucket == i;
    hide Shaped, KsDescribes, Bins, Numeric, Boundaries, SortedValues;
    if Ks(numeric).available { BucketOfGaps(numeric, rows); }
  }

  lemma {:induction false} BucketOfGaps(numeric: seq<Bin>, rows: seq<Row>)
    requires CountsHits(numeric, rows) && forall i | 0 <= i < |numeric| :: numeric[i].bucket == i
    requires CumGood(numeric, |numeric|) != 0 && CumBad(numeric, |numeric|) != 0
    requires Valued(rows, true) != 0 && Valued(rows, false) != 0
    ensures forall i | 0 <= i < |numeric| :: numeric[i].upper.Some?
    ensures BucketClosesAtSplit(Ks(numeric), numeric, rows)
  {
    var gaps := Gaps(numeric);
    GapBounds(numeric, |numeric| - 1);
    KsFromNames(numeric, gaps);
    assert Ks(numeric) == KsFrom(numeric, gaps);
    assert forall i | 0 <= i < |numeric| :: numeric[i].upper.Some?;
    forall j | 0 <= j < |numeric| ensures Abs(Separation(rows, numeric[j].upper.value, false)) == Abs(gaps[j]) {
      GapIsSeparation(numeric, rows, j);
      AbsOf(Gap(numeric, j));
    }
    hide *;
    SeparationsNamed(KsFrom(numeric, gaps), numeric, rows, gaps);
  }

  lemma {:induction false} SeparationsNamed(ks: KsResult, numeric: seq<Bin>, rows: seq<Row>, gaps: seq<real>)
    requires |gaps| == |numeric| && NamesFirstWidest(ks, numeric, gaps)
    requires Valued(rows, true) != 0 && Valued(rows, false) != 0
    requires forall i | 0 <= i < |numeric| :: numeric[i].upper.Some?
    requires forall j | 0 <= j < |numeric| :: Abs(Separation(rows, numeric[j].upper.value, false)) == Abs(gaps[j])
    ensures BucketClosesAtSplit(ks, numeric, rows)
  {
    hide Separation, Abs, Valued;
  }

  // ------------------------------------------------------------ perfect separation

  function MissClass(threshold: real, atLeast: bool, bad: bool): Row -> bool {
    (r: Row) => r.value.Some? && !Hits(threshold, atLeast, r.value) && r.bad == bad
  }

  lemma {:induction false} FullSeparation(rows: seq<Row>, t: real, atLeast: bool)
    requires Valued(rows, true) != 0 && Valued(rows, false) != 0
    ensures Separation(rows, t, atLeast) == 1.0 <==> Separates(rows, t, atLeast)
  {
    var hitGood, missBad := HitClass(t, atLeast, false), MissClass(t, atLeast, true);
    CountSplit(HasValue(true), HitClass(t, atLeast, true), missBad, rows);
    CountMonotone(hitGood, HasValue(false), rows);
    CountZero(hitGood, rows);
    CountZero(missBad, rows);
    FracBounds(HitCount(rows, t, atLeast, true), Valued(rows, true));
    FracBounds(HitCount(rows, t, atLeast, false), Valued(rows, false));
    assert Separates(rows, t, atLeast) <==> Count(hitGood, rows) == 0 && Count(missBad, rows) == 0 by {
      hide Frac, Count;
      forall r | r in rows && r.value.Some? ensures (r.bad <==> Hits(t, atLeast, r.value)) <==> !hitGood(r) && !missBad(r) {}
    }
    hide Frac, Separates;
  }

  lemma {:induction false} UnitKsSeparates(ks: KsResult, numeric: seq<Bin>, rows: seq<Row>)
    requires KsDescribes(ks, numeric, rows) && ks.available
    ensures ks.value == Some(1.0)
            <==> exists t, atLeast :: IsEdge(numeric, t, atLeast) && Separates(rows, t, atLeast)
  {
    hide Separation, Separates, IsEdge, Valued;
    if ks.value == Some(1.0) {
      FullSeparation(rows, ks.split.value, ks.direction == HigherIsRiskier);
    }
    forall t, atLeast | IsEdge(numeric, t, atLeast) && Separates(rows, t, atLeast) ensures ks.value == Some(1.0) {
      FullSeparation(rows, t, atLeast);
    }
  }

  /** KS is 1 exactly when some bin edge classifies every row with a value correctly. */
  lemma {:induction false} KsIsOneIffSeparable(rows: seq<Row>, policy: Policy, ln: real -> real)
    requires ValidPolicy(policy)
    ensures var numeric := Numeric(Bins(rows, policy, ln));
            Ks(numeric).value == Some(1.0)
            <==> Ks(numeric).available
                 && exists t, atLeast :: IsEdge(numeric, t, atLeast) && Separates(rows, t, atLeast)
  {
    KsRealisedOnRows(rows, policy, ln);
    var numeric := Numeric(Bins(rows, policy, ln));
    if Ks(numeric).available { UnitKsSeparates(Ks(numeric), numeric, rows); }
  }

  // ------------------------------------------------------------ scanning from the top

  function Reverse(bins: seq<Bin>): seq<Bin> {
    seq(|bins|, (i: nat) requires i < |bins| => bins[|bins| - 1 - i])
  }

  lemma {:induction false} CumReverse(bins: seq<Bin>, i: nat)
    requires i <= |bins|
    ensures CumGood(Reverse(bins), i) == CumGood(bins, |bins|) - CumGood(bins, |bins| - i)
    ensures CumBad(Reverse(bins), i) == CumBad(bins, |bins|) - CumBad(bins, |bins| - i)
  {
    if i > 0 { CumReverse(bins, i - 1); }
  }

  lemma {:induction false} GapReverse(bins: seq<Bin>, i: nat)
    requires CumGood(bins, |bins|) != 0 && CumBad(bins, |bins|) != 0 && i < |bins|
    ensures CumGood(Reverse(bins), |bins|) == CumGood(bins, |bins|)
    ensures CumBad(Reverse(bins), |bins|) == CumBad(bins, |bins|)
    ensures Gap(Reverse(bins), i) == if i == |bins| - 1 then 0.0 else -Gap(bins, |bins| - 2 - i)
  {
    hide Frac;
    CumReverse(bins, |bins|);
    CumReverse(bins, i + 1);
    CumGrows(bins, |bins| - i - 1, |bins|);
    FracComplement(CumGood(bins, |bins| - i - 1), CumGood(bins, |bins|));
    FracComplement(CumBad(bins, |bins| - i - 1), CumBad(bins, |bins|));
    FracBounds(CumGood(bins, |bins|), CumGood(bins, |bins|));
    FracBounds(CumBad(bins, |bins|), CumBad(bins, |bins|));
  }

  /** Two lists of gaps that mirror each other's signs, up to the closing zero, peak alike. */
  lemma {:induction false} MirroredPeaks(up: seq<real>, down: seq<real>)
    requires |up| == |down| > 0 && up[|up| - 1] == down[|up| - 1] == 0.0
    requires forall i | 0 <= i < |up| - 1 :: down[i] == -up[|up| - 2 - i]
    ensures Abs(down[ArgMax(down)]) == Abs(up[ArgMax(up)])
  {
    var n, i, j := |up|, ArgMax(up), ArgMax(down);
    hide ArgMax;
    if i < n - 1 { assert down[n - 2 - i] == -up[i]; }
    if j < n - 1 { assert down[j] == -up[n - 2 - j]; }
  }

  /** Scanning the same bins from the top yields the same KS value, availability included. */
  lemma {:induction false} DescendingScanAgrees(bins: seq<Bin>)
    ensures Ks(Reverse(bins)).available == Ks(bins).available
    ensures Ks(Reverse(bins)).value == Ks(bins).descending
  {
    CumReverse(bins, |bins|);
    if Ks(bins).available {
      var n := |bins|;
      hide Gap, CumGood, CumBad, ArgMax;
      forall i | 0 <= i < n ensures Gap(Reverse(bins), i) == if i == n - 1 then 0.0 else -Gap(bins, n - 2 - i) {
        GapReverse(bins, i);
      }
      GapBounds(bins, n - 1);
      MirroredPeaks(Gaps(bins), Gaps(Reverse(bins)));
    }
  }
}
