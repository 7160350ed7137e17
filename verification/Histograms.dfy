/** Monitoring distributions (src/airi/production/monitoring.py `bins_from_values`): equal-width
    bins and one NULL bin, and when the distribution model accepts them. */
module Histograms {
  import opened Options
  import opened Sorting
  import Evaluation
  import BinningLaws

  datatype Bin = Bin(lower: Option<real>, upper: Option<real>, count: nat, isNull: bool)

  datatype Distribution = Distribution(bins: seq<Bin>, total: nat)

  const MAX_BINS := 64

  function Total(bins: seq<Bin>): nat {
    if bins == [] then 0 else Total(bins[..|bins| - 1]) + bins[|bins| - 1].count
  }

  /** The field limit and the `aligned` validator of the distribution model. */
  ghost predicate Accepted(d: Distribution) {
    && |d.bins| <= MAX_BINS
    && (forall i | 0 <= i < |d.bins| && d.bins[i].isNull :: i == |d.bins| - 1)
    && (d.bins != [] ==> Total(d.bins) == d.total && d.total > 0)
  }

  // ------------------------------------------------------------ what a histogram says

  function Present(values: seq<Option<real>>): seq<real> {
    if values == [] then [] else (if values[0].Some? then [values[0].value] else []) + Present(values[1..])
  }

  predicate Inside(lower: Option<real>, upper: Option<real>, v: real) {
    (lower.Some? ==> lower.value <= v) && (upper.Some? ==> v < upper.value)
  }

  function Within(lower: Option<real>, upper: Option<real>): Option<real> -> bool {
    (v: Option<real>) => v.Some? && Inside(lower, upper, v.value)
  }

  function IsAbsent(): Option<real> -> bool { (v: Option<real>) => v.None? }

  function Edge(low: real, high: real, index: int, binCount: int): real
    requires binCount > 0
  {
    low + (high - low) * index as real / binCount as real
  }

  predicate Spread(numeric: seq<real>) { numeric != [] && numeric[0] < numeric[|numeric| - 1] }

  function Width(numeric: seq<real>, binCount: int): nat {
    if numeric == [] then 0 else if Spread(numeric) && binCount > 0 then binCount else 1
  }

  /** Bounds of the numeric bins: open at both ends, equal steps between. */
  function Bound(numeric: seq<real>, binCount: int, i: nat): Option<real> {
    if i == 0 || i >= Width(numeric, binCount) || !Spread(numeric) || binCount <= 0 then None
    else Some(Edge(numeric[0], numeric[|numeric| - 1], i, binCount))
  }

  /** `bins` are the numeric bins of `values` in their half-open intervals, in order. */
  ghost predicate NumericBins(bins: seq<Bin>, values: seq<Option<real>>, binCount: int) {
    var numeric := SortBy(RealLe, Present(values));
    && |bins| == Width(numeric, binCount)
    && forall i | 0 <= i < |bins| ::
         bins[i] == Bin(Bound(numeric, binCount, i), Bound(numeric, binCount, i + 1),
                        Count(Within(Bound(numeric, binCount, i), Bound(numeric, binCount, i + 1)), values), false)
  }

  /** Every value is counted in the interval it lies in, and absent ones in the last, NULL bin. */
  ghost predicate Describes(d: Distribution, values: seq<Option<real>>, binCount: int) {
    && d.total == |values|
    && (values == [] ==> d.bins == [])
    && (values != [] ==>
          && d.bins != []
          && NumericBins(d.bins[..|d.bins| - 1], values, binCount)
          && d.bins[|d.bins| - 1] == Bin(None, None, Count(IsAbsent(), values), true))
  }

  // ------------------------------------------------------------ the algorithm

  method Edges(low: real, high: real, binCount: int) returns (edges: seq<real>)
    ensures |edges| == if low < high && binCount > 0 then binCount - 1 else 0
    ensures forall i | 0 <= i < |edges| :: edges[i] == Edge(low, high, i + 1, binCount)
  {
    edges := [];
    if high <= low || binCount <= 1 { return; }
    for index := 1 to binCount
      invariant |edges| == index - 1
      invariant forall i | 0 <= i < |edges| :: edges[i] == Edge(low, high, i + 1, binCount)
    {
      edges := edges + [low + (high - low) * index as real / binCount as real];
    }
  }

  function FallsIn(edges: seq<real>, k: nat): real -> bool {
    (v: real) => Evaluation.BisectRight(edges, v) == k
  }

  /** One counter per interval, each value counted once. */
  method CountInto(numeric: seq<real>, edges: seq<real>) returns (counts: seq<nat>)
    ensures |counts| == |edges| + 1
    ensures forall k | 0 <= k < |counts| :: counts[k] == Count(FallsIn(edges, k), numeric)
  {
    var counters := new nat[|edges| + 1](_ => 0);
    for i := 0 to |numeric|
      invariant forall k | 0 <= k < counters.Length :: counters[k] == Count(FallsIn(edges, k), numeric[..i])
    {
      var index := Evaluation.BisectRight(edges, numeric[i]);
      assert numeric[..i + 1] == numeric[..i] + [numeric[i]];
      forall k | 0 <= k < counters.Length
        ensures Count(FallsIn(edges, k), numeric[..i + 1]) == counters[k] + (if k == index then 1 else 0)
      {
        CountAppend(FallsIn(edges, k), numeric[..i], [numeric[i]]);
      }
      counters[index] := counters[index] + 1;
    }
    assert numeric[..|numeric|] == numeric;
    counts := counters[..];
  }

  method BinsFromValues(values: seq<Option<real>>, binCount: int) returns (d: Distribution)
    ensures Describes(d, values, binCount)
  {
    var numeric := SortBy(RealLe, Present(values));
    PresentCounts(values);
    SortedPresent(values);
    if values == [] { return Distribution([], 0); }
    var nulls := |values| - |numeric|;
    var bins := NumericBinsOf(values, numeric, binCount);
    var all := bins + [Bin(None, None, nulls, true)];
    assert all[..|all| - 1] == bins;
    d := Distribution(all, |values|);
  }

  method NumericBinsOf(values: seq<Option<real>>, numeric: seq<real>, binCount: int) returns (bins: seq<Bin>)
    requires numeric == SortBy(RealLe, Present(values))
    ensures NumericBins(bins, values, binCount)
  {
    hide SortBy, Count, Present;
    bins := [];
    if numeric == [] { return; }
    var edges := Edges(numeric[0], numeric[|numeric| - 1], binCount);
    var counts := CountInto(numeric, edges);
    hide Bound, Edge, Width;
    for i := 0 to |counts|
      invariant |bins| == i
      invariant forall j | 0 <= j < i ::
                  bins[j] == Bin(Bound(numeric, binCount, j), Bound(numeric, binCount, j + 1),
                                 Count(Within(Bound(numeric, binCount, j), Bound(numeric, binCount, j + 1)), values), false)
    {
      CountsInterval(values, numeric, binCount, edges, i);
      var lower, upper := if i == 0 then None else Some(edges[i - 1]), if i == |edges| then None else Some(edges[i]);
      bins := bins + [Bin(lower, upper, counts[i], false)];
    }
    CountsInterval(values, numeric, binCount, edges, 0);
  }

  // ------------------------------------------------------------ why it is right

  lemma {:induction false} PresentCounts(values: seq<Option<real>>)
    ensures |Present(values)| + Count(IsAbsent(), values) == |values|
  {
    if values != [] { PresentCounts(values[1..]); }
  }

  lemma {:induction false} CountPresent(p: real -> bool, q: Option<real> -> bool, values: seq<Option<real>>)
    requires forall v :: q(v) <==> v.Some? && p(v.value)
    ensures Count(p, Present(values)) == Count(q, values)
  {
    if values != [] {
      CountPresent(p, q, values[1..]);
      CountAppend(p, if values[0].Some? then [values[0].value] else [], Present(values[1..]));
    }
  }

  lemma {:induction false} SortedPresent(values: seq<Option<real>>)
    ensures var numeric := SortBy(RealLe, Present(values));
            && |numeric| == |Present(values)| && multiset(numeric) == multiset(Present(values))
            && (forall v :: v in numeric <==> v in Present(values))
            && forall v | v in numeric :: numeric[0] <= v <= numeric[|numeric| - 1]
  {
    RealLeOrder();
    SortedPermutation(RealLe, Present(values));
    var numeric := SortBy(RealLe, Present(values));
    SameElements(numeric, Present(values));
    forall v | v in numeric ensures numeric[0] <= v <= numeric[|numeric| - 1] {
      var i :| 0 <= i < |numeric| && numeric[i] == v;
      assert i > 0 ==> RealLe(numeric[0], numeric[i]);
      assert i < |numeric| - 1 ==> RealLe(numeric[i], numeric[|numeric| - 1]);
    }
  }

  function Step(range: real, n: int): real
    requires n > 0
  {
    range / n as real
  }

  lemma {:induction false} StepForm(range: real, i: int, n: int)
    requires n > 0
    ensures range * i as real / n as real == Step(range, n) * i as real
  {
  }

  lemma {:induction false} StepWhole(range: real, n: int)
    requires n > 0
    ensures Step(range, n) * n as real == range
    ensures range > 0.0 ==> Step(range, n) > 0.0
  {
  }

  /** The distance of edge `i` from the lowest one. */
  function Offset(step: real, i: int): real { step * i as real }

  lemma {:induction false} EdgeForm(low: real, high: real, i: int, binCount: int)
    requires 0 < binCount
    ensures Edge(low, high, i, binCount) == low + Offset(Step(high - low, binCount), i)
  {
    StepForm(high - low, i, binCount);
    hide Step;
  }

  lemma {:induction false} OffsetOrder(step: real, i: int, j: int)
    requires step > 0.0 && i < j
    ensures Offset(step, i) < Offset(step, j)
  {
  }

  lemma {:induction false} OffsetEnds(range: real, n: int)
    requires n > 0 && range > 0.0
    ensures Step(range, n) > 0.0 && Offset(Step(range, n), 0) == 0.0 && Offset(Step(range, n), n) == range
  {
    StepWhole(range, n);
    hide Step;
  }

  lemma {:induction false} EdgesIncrease(low: real, high: real, i: int, j: int, binCount: int)
    requires low < high && 0 < binCount && i < j
    ensures Edge(low, high, i, binCount) < Edge(low, high, j, binCount)
    ensures 0 < i ==> low < Edge(low, high, i, binCount)
    ensures j < binCount ==> Edge(low, high, j, binCount) < high
  {
    hide *;
    var step := Step(high - low, binCount);
    EdgeForm(low, high, i, binCount);
    EdgeForm(low, high, j, binCount);
    OffsetEnds(high - low, binCount);
    OffsetOrder(step, i, j);
    if 0 < i { OffsetOrder(step, 0, i); }
    if j < binCount { OffsetOrder(step, j, binCount); }
  }

  /** The counter of one interval counts exactly the input values inside it. */
  lemma {:induction false} CountsInterval(
      values: seq<Option<real>>, numeric: seq<real>, binCount: int, edges: seq<real>, k: nat)
    requires numeric == SortBy(RealLe, Present(values)) && numeric != []
    requires |edges| == if Spread(numeric) && binCount > 0 then binCount - 1 else 0
    requires forall i | 0 <= i < |edges| :: edges[i] == Edge(numeric[0], numeric[|numeric| - 1], i + 1, binCount)
    requires k <= |edges|
    ensures |edges| + 1 == Width(numeric, binCount)
    ensures Bound(numeric, binCount, k) == if k == 0 then None else Some(edges[k - 1])
    ensures Bound(numeric, binCount, k + 1) == if k == |edges| then None else Some(edges[k])
    ensures Count(FallsIn(edges, k), numeric)
            == Count(Within(Bound(numeric, binCount, k), Bound(numeric, binCount, k + 1)), values)
  {
    var lower, upper := Bound(numeric, binCount, k), Bound(numeric, binCount, k + 1);
    forall i, j | 0 <= i < j < |edges| ensures RealLe(edges[i], edges[j]) {
      EdgesIncrease(numeric[0], numeric[|numeric| - 1], i + 1, j + 1, binCount);
    }
    forall v: Option<real> ensures Within(lower, upper)(v) <==> v.Some? && FallsIn(edges, k)(v.value) {
      if v.Some? { BisectInside(edges, k, v.value); }
    }
    SortedPresent(values);
    CountIgnoresOrder(FallsIn(edges, k), numeric, Present(values));
    CountPresent(FallsIn(edges, k), Within(lower, upper), values);
  }

  lemma {:induction false} BisectInside(edges: seq<real>, k: nat, v: real)
    requires Ordered(RealLe, edges) && k <= |edges|
    ensures Evaluation.BisectRight(edges, v) == k
            <==> Inside(if k == 0 then None else Some(edges[k - 1]), if k == |edges| then None else Some(edges[k]), v)
  {
    BinningLaws.BisectSplits(edges, v);
    var b := Evaluation.BisectRight(edges, v);
    if 0 < k { assert k - 1 < b <==> edges[k - 1] <= v; }
    if k < |edges| { assert k < b <==> edges[k] <= v; }
  }

  // ------------------------------------------------------------ laws

  lemma {:induction false} BoundsIncrease(numeric: seq<real>, binCount: int, i: nat, j: nat)
    requires i < j && Bound(numeric, binCount, i).Some? && Bound(numeric, binCount, j).Some?
    ensures Bound(numeric, binCount, i).value < Bound(numeric, binCount, j).value
  {
    EdgesIncrease(numeric[0], numeric[|numeric| - 1], i, j, binCount);
  }

  /** The first `i` numeric bins together count the values below their last bound. */
  lemma {:induction false} TotalUpTo(bins: seq<Bin>, values: seq<Option<real>>, binCount: int, i: nat)
    requires NumericBins(bins, values, binCount) && 0 < i <= |bins|
    ensures Total(bins[..i]) == Count(Within(None, Bound(SortBy(RealLe, Present(values)), binCount, i)), values)
  {
    var numeric := SortBy(RealLe, Present(values));
    assert bins[..i][..i - 1] == bins[..i - 1];
    if i == 1 {
      assert bins[..1][..0] == [];
    } else {
      TotalUpTo(bins, values, binCount, i - 1);
      var lower, upper := Bound(numeric, binCount, i - 1), Bound(numeric, binCount, i);
      if upper.Some? { BoundsIncrease(numeric, binCount, i - 1, i); }
      CountSplit(Within(None, upper), Within(None, lower), Within(lower, upper), values);
    }
  }

  /** Counts add up to the number of inputs. */
  lemma {:induction false} CountsAddUp(d: Distribution, values: seq<Option<real>>, binCount: int)
    requires Describes(d, values, binCount)
    ensures Total(d.bins) == d.total == |values|
  {
    if values != [] {
      var bins := d.bins[..|d.bins| - 1];
      PresentCounts(values);
      SortedPresent(values);
      CountPresent((v: real) => true, Within(None, None), values);
      CountAll(Present(values));
      if bins != [] {
        TotalUpTo(bins, values, binCount, |bins|);
        assert bins[..|bins|] == bins;
      }
    }
  }

  lemma {:induction false} CountAll(s: seq<real>)
    ensures Count((v: real) => true, s) == |s|
  {
    if s != [] { CountAll(s[1..]); }
  }

  /** The smallest and the largest value are counted in the first and the last numeric bin. */
  lemma {:induction false} EndBinsNotEmpty(d: Distribution, values: seq<Option<real>>, binCount: int)
    requires Describes(d, values, binCount) && |d.bins| >= 2
    ensures d.bins[0].count >= 1 && d.bins[|d.bins| - 2].count >= 1
  {
    var numeric := SortBy(RealLe, Present(values));
    var last := |d.bins| - 2;
    var bins := d.bins[..|d.bins| - 1];
    assert bins[0] == d.bins[0] && bins[last] == d.bins[last];
    SortedPresent(values);
    var low, high := numeric[0], numeric[|numeric| - 1];
    if Bound(numeric, binCount, 1).Some? { EdgesIncrease(low, high, 1, 2, binCount); }
    if Bound(numeric, binCount, last).Some? { EdgesIncrease(low, high, last - 1, last, binCount); }
    Counted(values, Within(None, Bound(numeric, binCount, 1)), low);
    assert Bound(numeric, binCount, last + 1) == None;
    Counted(values, Within(Bound(numeric, binCount, last), None), high);
  }

  lemma {:induction false} Counted(values: seq<Option<real>>, p: Option<real> -> bool, v: real)
    requires v in Present(values) && p(Some(v))
    ensures Count(p, values) >= 1
  {
    if values[0] != Some(v) { Counted(values[1..], p, v); }
  }

  lemma {:induction false} NumericNotNull(bins: seq<Bin>, values: seq<Option<real>>, binCount: int)
    requires NumericBins(bins, values, binCount)
    ensures forall i | 0 <= i < |bins| :: !bins[i].isNull
  {
    forall i | 0 <= i < |bins| ensures !bins[i].isNull {
      var numeric := SortBy(RealLe, Present(values));
      assert bins[i] == Bin(Bound(numeric, binCount, i), Bound(numeric, binCount, i + 1),
                        Count(Within(Bound(numeric, binCount, i), Bound(numeric, binCount, i + 1)), values), false);
    }
  }

  /** The distribution model accepts the result exactly when it has at most 64 bins: for inputs with
      two different values that means at most 63 requested bins. */
  lemma {:induction false} AcceptedExactly(d: Distribution, values: seq<Option<real>>, binCount: int)
    requires Describes(d, values, binCount)
    ensures Accepted(d) <==> binCount <= 63 || forall v, w | Some(v) in values && Some(w) in values :: v == w
  {
    SpreadExactly(values);
    hide Total, Count, SortBy, Present, Bound;
    CountsAddUp(d, values, binCount);
    if values != [] {
      var bins := d.bins[..|d.bins| - 1];
      NumericNotNull(bins, values, binCount);
      assert forall i | 0 <= i < |bins| :: d.bins[i] == bins[i];
    } else {
      EmptyHasNoSpread();
    }
  }

  /** Two different values are what spreads a distribution over several bins. */
  lemma {:induction false} SpreadExactly(values: seq<Option<real>>)
    ensures !Spread(SortBy(RealLe, Present(values))) <==> forall v, w | Some(v) in values && Some(w) in values :: v == w
  {
    var numeric := SortBy(RealLe, Present(values));
    SortedPresent(values);
    PresentExactly(values);
    hide SortBy, Present;
    if numeric != [] { assert numeric[0] in numeric && numeric[|numeric| - 1] in numeric; }
  }

  lemma {:induction false} PresentExactly(values: seq<Option<real>>)
    ensures forall v :: v in Present(values) <==> Some(v) in values
  {
    if values != [] {
      PresentExactly(values[1..]);
      assert values == [values[0]] + values[1..];
    }
  }

  lemma {:induction false} EmptyHasNoSpread()
    ensures !Spread(SortBy(RealLe, Present([])))
  {
  }

  /** Two distributions describing the same values are equal: the description is complete, and
      depends on the values only up to order. */
  lemma {:induction false} DescriptionComplete(
      d: Distribution, e: Distribution, values: seq<Option<real>>, others: seq<Option<real>>, binCount: int)
    requires Describes(d, values, binCount) && Describes(e, others, binCount) && multiset(values) == multiset(others)
    ensures d == e
  {
    SameElements(values, others);
    PresentIgnoresOrder(values, others);
    CountIgnoresOrder(IsAbsent(), values, others);
    if values != [] {
      var numeric := SortBy(RealLe, Present(values));
      var bins, same := d.bins[..|d.bins| - 1], e.bins[..|e.bins| - 1];
      forall i | 0 <= i < |bins| ensures bins[i] == same[i] {
        CountIgnoresOrder(Within(Bound(numeric, binCount, i), Bound(numeric, binCount, i + 1)), values, others);
      }
      assert bins == same;
      assert d.bins == bins + [d.bins[|d.bins| - 1]];
      assert e.bins == same + [e.bins[|e.bins| - 1]];
    }
  }

  lemma {:induction false} PresentIgnoresOrder(values: seq<Option<real>>, others: seq<Option<real>>)
    requires multiset(values) == multiset(others)
    ensures SortBy(RealLe, Present(values)) == SortBy(RealLe, Present(others))
  {
    forall x ensures multiset(Present(values))[x] == multiset(Present(others))[x] {
      PresentMultiset(values, x);
      PresentMultiset(others, x);
    }
    RealLeOrder();
    SortIgnoresOrder(RealLe, Present(values), Present(others));
  }

  lemma {:induction false} PresentMultiset(values: seq<Option<real>>, x: real)
    ensures multiset(Present(values))[x] == multiset(values)[Some(x)]
  {
    if values != [] {
      PresentMultiset(values[1..], x);
      assert values == [values[0]] + values[1..];
    }
  }
}
