/** What the interpolated quantile of sorted values is, independently of how it is computed. */
module QuantileLaws {
  import opened Options
  import opened Sorting
  import opened Evaluation
  import opened ThresholdLaws

  function Times(x: real, n: nat): real { x * n as real }

  // ------------------------------------------------------------ ranks

  /** `q` stands `num`/`den` of the way from the first value to the last, counted in ranks: it is the
      value of rank `k` if that rank is met exactly, and otherwise divides the gap to the next value in
      proportion. */
  ghost predicate AtRank(values: seq<real>, num: real, den: real, k: nat, q: real)
    requires values != []
  {
    var reach := Times(num, |values| - 1);
    && Times(den, k) <= reach < Times(den, k + 1)
    && (if reach == Times(den, k) then k < |values| && q == values[k]
        else k + 1 < |values| && (q - values[k]) * den == (values[k + 1] - values[k]) * (reach - Times(den, k)))
  }

  /** The rank that the percentile reaches is the integral part of the position. */
  lemma {:induction false} RankOfPosition(count: nat, percentile: real, k: nat)
    requires count > 0 && 0.0 <= percentile <= 100.0
    ensures Position(count, percentile) * 100.0 == Times(percentile, count - 1)
    ensures Times(100.0, k) <= Times(percentile, count - 1) < Times(100.0, k + 1)
            <==> k == Position(count, percentile).Floor
  {
    var position := Position(count, percentile);
    assert position * 100.0 == (count - 1) as real * percentile;
    hide Position;
  }

  /** The quantile at a percentile is exactly what stands that far along the values. */
  lemma {:induction false} QuantileAtRank(values: seq<real>, percentile: real, k: nat, q: real)
    requires values != [] && 0.0 <= percentile <= 100.0
    requires Times(100.0, k) <= Times(percentile, |values| - 1) < Times(100.0, k + 1)
    ensures Quantile(values, percentile) == Some(q) <==> AtRank(values, percentile, 100.0, k, q)
  {
    var position := Position(|values|, percentile);
    RankOfPosition(|values|, percentile, k);
    hide Position, Times;
    AtMixes(values, position);
    hide At;
    if position != k as real { MixDivides(values[k], values[k + 1], position - k as real, q); }
    HundredTimes(k);
  }

  lemma {:induction false} HundredTimes(k: nat)
    ensures Times(100.0, k) == 100.0 * k as real
  {
  }

  lemma {:induction false} MixDivides(lo: real, hi: real, w: real, q: real)
    ensures q == Mix(lo, hi, w) <==> (q - lo) * 100.0 == (hi - lo) * (100.0 * w)
  {
    assert (hi - lo) * (100.0 * w) == 100.0 * ((hi - lo) * w);
  }

  /** `q` is what stands `num`/`den` of the way along the values. */
  ghost predicate StandsAt(values: seq<real>, num: real, den: real, q: real)
    requires values != []
  {
    exists k: nat :: AtRank(values, num, den, k, q)
  }

  /** The quantile at a percentile is what stands that many hundredths of the way along the values,
      counted in ranks and interpolated between two of them, and nothing else does. */
  lemma {:induction false} QuantileStands(values: seq<real>, percentile: real, q: real)
    requires values != [] && 0.0 <= percentile <= 100.0
    ensures Quantile(values, percentile) == Some(q) <==> StandsAt(values, percentile, 100.0, q)
  {
    var k := Position(|values|, percentile).Floor;
    RankOfPosition(|values|, percentile, k);
    hide Quantile, Position, Times;
    QuantileAtRank(values, percentile, k, q);
    if other: nat :| AtRank(values, percentile, 100.0, other, q) {
      RankOfPosition(|values|, percentile, other);
    }
  }

  /** With `k` the last rank reached, the values up to it are at most the quantile of sorted values and
      those after it at least. */
  lemma {:induction false} QuantileCuts(values: seq<real>, percentile: real, k: nat)
    requires Ordered(RealLe, values) && values != [] && 0.0 <= percentile <= 100.0
    requires Times(100.0, k) <= Times(percentile, |values| - 1) < Times(100.0, k + 1)
    ensures k < |values|
    ensures forall i | 0 <= i <= k :: values[i] <= Quantile(values, percentile).value
    ensures forall i | k < i < |values| :: Quantile(values, percentile).value <= values[i]
  {
    var position := Position(|values|, percentile);
    RankOfPosition(|values|, percentile, k);
    hide Position, Times;
    AtBetweenNeighbours(values, position);
    forall i | 0 <= i <= k ensures values[i] <= values[k] {
      if i < k { assert RealLe(values[i], values[k]); }
    }
    forall i | k < i < |values| ensures values[k + 1] <= values[i] {
      if k + 1 < i { assert RealLe(values[k + 1], values[i]); }
    }
  }

  // ------------------------------------------------------------ the bin boundaries

  /** Only the proportion counts. */
  lemma {:induction false} SameProportion(
      values: seq<real>, num: real, den: real, hundredths: real, k: nat, q: real)
    requires values != [] && den > 0.0 && num * 100.0 == hundredths * den
    ensures AtRank(values, num, den, k, q) <==> AtRank(values, hundredths, 100.0, k, q)
  {
    ReachScales(num, den, hundredths, |values| - 1);
    var reach, percent := Times(num, |values| - 1), Times(hundredths, |values| - 1);
    RankScales(den, reach, percent, k);
    RankScales(den, reach, percent, k + 1);
    hide Times;
    if k + 1 < |values| {
      GapScales(q - values[k], values[k + 1] - values[k], den, reach - Times(den, k), percent - Times(100.0, k));
    }
  }

  lemma {:induction false} SameStand(values: seq<real>, num: real, den: real, hundredths: real, q: real)
    requires values != [] && den > 0.0 && num * 100.0 == hundredths * den
    ensures StandsAt(values, num, den, q) <==> StandsAt(values, hundredths, 100.0, q)
  {
    forall k: nat ensures AtRank(values, num, den, k, q) <==> AtRank(values, hundredths, 100.0, k, q) {
      SameProportion(values, num, den, hundredths, k, q);
    }
    hide AtRank;
  }

  lemma {:induction false} ReachScales(num: real, den: real, hundredths: real, n: nat)
    requires num * 100.0 == hundredths * den
    ensures Times(num, n) * 100.0 == Times(hundredths, n) * den
  {
    assert num * n as real * 100.0 == num * 100.0 * n as real;
    assert hundredths * n as real * den == hundredths * den * n as real;
  }

  lemma {:induction false} RankScales(den: real, reach: real, percent: real, k: nat)
    requires den > 0.0 && reach * 100.0 == percent * den
    ensures (reach - Times(den, k)) * 100.0 == (percent - Times(100.0, k)) * den
    ensures Times(den, k) <= reach <==> Times(100.0, k) <= percent
    ensures Times(den, k) == reach <==> Times(100.0, k) == percent
  {
    assert Times(den, k) * 100.0 == Times(100.0, k) * den;
    SameSign(reach - Times(den, k), percent - Times(100.0, k), den);
  }

  lemma {:induction false} SameSign(a: real, b: real, den: real)
    requires den > 0.0 && a * 100.0 == b * den
    ensures (a >= 0.0 <==> b >= 0.0) && (a == 0.0 <==> b == 0.0)
  {
    if b > 0.0 { assert b * den > 0.0; }
    if b < 0.0 { assert b * den < 0.0; }
  }

  lemma {:induction false} GapScales(part: real, gap: real, den: real, over: real, percent: real)
    requires den > 0.0 && over * 100.0 == percent * den
    ensures part * den == gap * over <==> part * 100.0 == gap * percent
  {
    assert gap * over * 100.0 == gap * (over * 100.0);
    assert gap * (percent * den) == gap * percent * den;
    SameSign(part * den - gap * over, part * 100.0 - gap * percent, den);
  }

  lemma {:induction false} CutIsProportion(bins: nat, i: nat)
    requires i < bins
    ensures i as real * 100.0 == CutPercentile(bins, i) * bins as real
  {
  }

  ghost predicate IsCut(values: seq<real>, i: nat, bins: nat, b: real)
    requires values != []
  {
    StandsAt(values, i as real, bins as real, b)
  }

  /** A cut is what stands that many bins of the way along the values. */
  lemma {:induction false} CutStands(values: seq<real>, bins: nat, i: nat, b: real)
    requires values != [] && i < bins
    ensures Quantile(values, CutPercentile(bins, i)) == Some(b) <==> IsCut(values, i, bins, b)
  {
    var percentile := CutPercentile(bins, i);
    QuantileStands(values, percentile, b);
    CutIsProportion(bins, i);
    hide Quantile, CutPercentile;
    SameStand(values, i as real, bins as real, percentile, b);
    hide StandsAt;
  }

  lemma {:induction false} CutPointMembers(values: seq<real>, bins: nat, from: nat, b: real)
    requires values != [] && 1 <= from
    ensures b in CutPoints(values, bins, from)
            <==> exists i: nat :: from <= i < bins && IsCut(values, i, bins, b)
    decreases bins - from
  {
    if from < bins {
      CutPointMembers(values, bins, from + 1, b);
      CutStands(values, bins, from, b);
      hide IsCut, Quantile, CutPercentile;
      assert b in CutPoints(values, bins, from)
             <==> Quantile(values, CutPercentile(bins, from)) == Some(b) || b in CutPoints(values, bins, from + 1);
    }
  }

  /** The boundaries are exactly what stands 1, 2, ... of `bins` equal parts along the values. */
  lemma {:induction false} BoundariesAreQuantiles(values: seq<real>, bins: nat, b: real)
    ensures b in Boundaries(values, bins)
            <==> values != [] && exists i: nat :: 1 <= i < bins && IsCut(values, i, bins, b)
  {
    if values != [] {
      CutPointMembers(values, bins, 1, b);
      RealLeOrder();
      SortedSetProperties(RealLe, CutPoints(values, bins, 1));
      hide IsCut, CutPoints, SortedSet;
    }
  }

  /** The same values counted from the other end. */
  function Mirror(values: seq<real>): seq<real> {
    seq(|values|, (i: nat) requires i < |values| => -values[|values| - 1 - i])
  }

  /** The point of weight `w` between two values. */
  function Mix(lo: real, hi: real, w: real): real { lo + (hi - lo) * w }

  lemma {:induction false} MixMirrors(lo: real, hi: real, w: real)
    ensures Mix(-hi, -lo, 1.0 - w) == -Mix(lo, hi, w)
  {
    assert (hi - lo) * (1.0 - w) == (hi - lo) - (hi - lo) * w;
  }

  lemma {:induction false} AtMixes(values: seq<real>, position: real)
    requires 0.0 <= position <= (|values| - 1) as real
    ensures position == position.Floor as real ==> At(values, position) == values[position.Floor]
    ensures position != position.Floor as real ==>
              && position.Floor + 1 < |values|
              && At(values, position)
                 == Mix(values[position.Floor], values[position.Floor + 1], position - position.Floor as real)
  {
  }

  lemma {:induction false} AtMirrored(values: seq<real>, position: real)
    requires 0.0 <= position <= (|values| - 1) as real
    ensures At(Mirror(values), (|values| - 1) as real - position) == -At(values, position)
  {
    hide At, Mix;
    var n, lo := |values|, position.Floor;
    var mirrored := (n - 1) as real - position;
    AtMixes(values, position);
    AtMixes(Mirror(values), mirrored);
    if position == lo as real {
      assert mirrored.Floor == n - 1 - lo;
    } else {
      var w := position - lo as real;
      assert mirrored.Floor == n - 2 - lo && mirrored - (n - 2 - lo) as real == 1.0 - w;
      MixMirrors(values[lo], values[lo + 1], w);
    }
  }

  lemma {:induction false} PositionMirrored(count: nat, percentile: real)
    requires count > 0 && 0.0 <= percentile <= 100.0
    ensures Position(count, 100.0 - percentile) == (count - 1) as real - Position(count, percentile)
  {
    assert (count - 1) as real * (100.0 - percentile) == (count - 1) as real * 100.0 - (count - 1) as real * percentile;
  }

  /** Turning the scale around turns the percentile around: the interpolation favours neither end. */
  lemma {:induction false} QuantileMirrors(values: seq<real>, percentile: real)
    requires values != [] && 0.0 <= percentile <= 100.0
    ensures Quantile(Mirror(values), 100.0 - percentile).value == -Quantile(values, percentile).value
  {
    PositionMirrored(|values|, percentile);
    AtMirrored(values, Position(|values|, percentile));
  }

  // ------------------------------------------------------------ the distribution section

  lemma {:induction false} OneMore(x: real, n: nat)
    ensures Times(x, n + 1) == x + Times(x, n)
  {
  }

  lemma {:induction false} SumWithin(s: seq<real>, low: real, high: real)
    requires forall v | v in s :: low <= v <= high
    ensures Times(low, |s|) <= Sum(s) <= Times(high, |s|)
  {
    if s != [] {
      hide Times;
      assert s[0] in s;
      assert forall v | v in s[1..] :: v in s;
      SumWithin(s[1..], low, high);
      OneMore(low, |s| - 1);
      OneMore(high, |s| - 1);
    }
  }

  lemma {:induction false} SumBounds(s: seq<real>, low: real, high: real)
    requires forall v | v in s :: low <= v <= high
    ensures low * |s| as real <= Sum(s) <= high * |s| as real
  {
    SumWithin(s, low, high);
    hide Sum;
  }

  lemma {:induction false} QuotientBounds(low: real, high: real, sum: real, n: nat)
    requires n > 0 && low * n as real <= sum <= high * n as real
    ensures low <= sum / n as real <= high
  {
    var q := sum / n as real;
    assert q * n as real == sum;
    NonnegativeFactor(q - low, n as real);
    NonnegativeFactor(high - q, n as real);
  }

  lemma {:induction false} NonnegativeFactor(x: real, y: real)
    requires y > 0.0 && x * y >= 0.0
    ensures x >= 0.0
  {
  }

  lemma {:induction false} MeanWithin(values: seq<real>)
    requires Ordered(RealLe, values) && values != []
    ensures values[0] <= Sum(values) / |values| as real <= values[|values| - 1]
  {
    forall v | v in values ensures values[0] <= v <= values[|values| - 1] { WithinExtremes(values, v); }
    SumBounds(values, values[0], values[|values| - 1]);
    QuotientBounds(values[0], values[|values| - 1], Sum(values), |values|);
  }

  /** The percentiles of a distribution ascend between its extremes, and so does its mean lie. */
  ghost predicate Ascends(d: Distribution) {
    && d.min.Some? && d.p25.Some? && d.p50.Some? && d.p75.Some? && d.p90.Some? && d.p95.Some? && d.p99.Some?
    && d.max.Some?
    && d.min.value <= d.p25.value <= d.p50.value <= d.p75.value <= d.p90.value <= d.p95.value <= d.p99.value <= d.max.value
    && d.mean.Some? && d.min.value <= d.mean.value <= d.max.value
  }

  lemma {:induction false} ValuesAscend(rows: seq<Row>)
    requires Values(rows) != []
    ensures SortedValues(rows) != [] && Ordered(RealLe, SortedValues(rows))
  {
    SortedNonEmpty(Values(rows));
    RealLeOrder();
    SortedPermutation(RealLe, Values(rows));
  }

  lemma {:induction false} PercentilesAscend(rows: seq<Row>, p: nat, q: nat)
    requires p <= q <= 100 && Values(rows) != []
    ensures var values := SortedValues(rows);
            && values != [] && PercentileOf(rows, p).Some? && PercentileOf(rows, q).Some?
            && values[0] <= PercentileOf(rows, p).value <= PercentileOf(rows, q).value <= values[|values| - 1]
  {
    ValuesAscend(rows);
    hide SortBy, SortedValues, Values;
    QuantileMonotone(SortedValues(rows), p as real, q as real);
  }

  /** Without values nothing is reported; with them everything is, in order; and rows with and
      without value are all the rows. */
  lemma {:induction false} DistributionOrdered(rows: seq<Row>)
    ensures var d := DistributionOf(rows);
            && d.count + d.nullCount == |rows| && (d.count == 0 <==> Values(rows) == [])
            && (Values(rows) == [] ==> d == Distribution(0, |rows|, None, None, None, None, None, None, None, None, None))
            && (Values(rows) != [] ==> Ascends(d))
  {
    ValuesAndNulls(rows);
    SortedLength(rows);
    if Values(rows) != [] {
      hide *;
      FullDistribution(rows);
    }
  }

  lemma {:induction false} SortedLength(rows: seq<Row>)
    ensures |SortedValues(rows)| == |Values(rows)|
    ensures Ordered(RealLe, SortedValues(rows))
  {
    RealLeOrder();
    SortedPermutation(RealLe, Values(rows));
  }

  lemma {:induction false} FullDistribution(rows: seq<Row>)
    requires Values(rows) != []
    ensures Ascends(DistributionOf(rows))
  {
    SortedLength(rows);
    hide PercentileOf, SortedValues, Sum, Values, NullRows, RealLe, Ordered;
    MeanWithin(SortedValues(rows));
    PercentilesAscend(rows, 25, 50);
    PercentilesAscend(rows, 50, 75);
    PercentilesAscend(rows, 75, 90);
    PercentilesAscend(rows, 90, 95);
    PercentilesAscend(rows, 95, 99);
  }

  lemma {:induction false} ValuesAndNulls(rows: seq<Row>)
    ensures |Values(rows)| + |NullRows(rows)| == |rows|
  {
    if rows != [] { ValuesAndNulls(rows[1..]); }
  }

  /** Every figure of the section, on the sorted values themselves: how many there are, the extremes,
      what they add up to, and what stands 25, 50, 75, 90, 95 and 99 hundredths of the way along them. */
  lemma {:induction false} DistributionMeasured(rows: seq<Row>, sorted: seq<real>)
    requires Ordered(RealLe, sorted) && multiset(sorted) == multiset(Values(rows)) && sorted != []
    ensures var d := DistributionOf(rows);
            && d.count == |sorted| && d.nullCount == |rows| - |sorted|
            && d.min == Some(sorted[0]) && d.max == Some(sorted[|sorted| - 1])
            && d.mean.Some? && Times(d.mean.value, |sorted|) == Sum(sorted)
            && Percentile(sorted, 25, d.p25) && Percentile(sorted, 50, d.p50) && Percentile(sorted, 75, d.p75)
            && Percentile(sorted, 90, d.p90) && Percentile(sorted, 95, d.p95) && Percentile(sorted, 99, d.p99)
  {
    SortedUnique(rows, sorted);
    ValuesAndNulls(rows);
    hide Values, NullRows, Sum, SortedValues, PercentileOf, Percentile;
    MeanTimes(Sum(sorted), |sorted|);
    PercentileMeasured(rows, sorted, 25);
    PercentileMeasured(rows, sorted, 50);
    PercentileMeasured(rows, sorted, 75);
    PercentileMeasured(rows, sorted, 90);
    PercentileMeasured(rows, sorted, 95);
    PercentileMeasured(rows, sorted, 99);
  }

  ghost predicate Percentile(sorted: seq<real>, p: nat, q: Option<real>)
    requires sorted != []
  {
    q.Some? && StandsAt(sorted, p as real, 100.0, q.value)
  }

  lemma {:induction false} SortedUnique(rows: seq<Row>, sorted: seq<real>)
    requires Ordered(RealLe, sorted) && multiset(sorted) == multiset(Values(rows))
    ensures SortedValues(rows) == sorted && |sorted| == |Values(rows)|
  {
    RealLeOrder();
    SortedPermutation(RealLe, Values(rows));
    hide Values, SortBy, RealLe;
    OrderedUnique(RealLe, sorted, SortBy(RealLe, Values(rows)));
  }

  lemma {:induction false} MeanTimes(sum: real, n: nat)
    requires n > 0
    ensures Times(sum / n as real, n) == sum
  {
  }

  lemma {:induction false} PercentileMeasured(rows: seq<Row>, sorted: seq<real>, p: nat)
    requires sorted != [] && SortedValues(rows) == sorted && p <= 100
    ensures Percentile(sorted, p, PercentileOf(rows, p))
  {
    hide Quantile, StandsAt, SortedValues;
    QuantileFound(sorted, p);
    QuantileStands(sorted, p as real, Quantile(sorted, p as real).value);
  }

  lemma {:induction false} QuantileFound(values: seq<real>, p: nat)
    requires values != [] && p <= 100
    ensures Quantile(values, p as real).Some?
  {
  }
}
