/** The bins of a report are an exact ordered partition of its rows. */
module BinningLaws {
  import opened Options
  import opened Sorting
  import opened Evaluation

  // ------------------------------------------------------------ selecting rows

  function ClassIn(boundaries: seq<real>, k: nat, bad: bool): Row -> bool {
    (r: Row) => r.value.Some? && BisectRight(boundaries, r.value.value) == k && r.bad == bad
  }

  function ClassUpTo(boundaries: seq<real>, k: nat, bad: bool): Row -> bool {
    (r: Row) => r.value.Some? && BisectRight(boundaries, r.value.value) <= k && r.bad == bad
  }

  /** Rows of one class whose value lies in the closed interval from `lower` to `upper`. */
  function Between(lower: real, upper: real, bad: bool): Row -> bool {
    (r: Row) => r.value.Some? && lower <= r.value.value <= upper && r.bad == bad
  }

  function AtMost(t: real, bad: bool): Row -> bool {
    (r: Row) => r.value.Some? && r.value.value <= t && r.bad == bad
  }

  function HasValue(bad: bool): Row -> bool { (r: Row) => r.value.Some? && r.bad == bad }

  function IsClass(bad: bool): Row -> bool { (r: Row) => r.bad == bad }

  /** Members of one class. */
  function ClassSize(rows: seq<Row>, bad: bool): nat { if bad then Bad(rows) else Good(rows) }

  function ClassOf(bin: Bin, bad: bool): nat { if bad then bin.bad else bin.good }

  function CumClass(bins: seq<Bin>, i: nat, bad: bool): nat
    requires i <= |bins|
  {
    if bad then CumBad(bins, i) else CumGood(bins, i)
  }

  lemma {:induction false} ClassSizeCounts(rows: seq<Row>, bad: bool)
    ensures ClassSize(rows, bad) == Count(IsClass(bad), rows)
  {
    CountIsFilter(IsBad(), rows);
    if rows != [] { ClassSizeCounts(rows[1..], bad); CountIsFilter(IsBad(), rows[1..]); }
  }

  // ------------------------------------------------------------ cut points

  lemma {:induction false} BisectMonotone(boundaries: seq<real>, v: real, w: real)
    requires v <= w
    ensures BisectRight(boundaries, v) <= BisectRight(boundaries, w)
  {
    if boundaries != [] && boundaries[0] <= v { BisectMonotone(boundaries[1..], v, w); }
  }

  /** On sorted boundaries the computed index splits them into those at most `v` and those above. */
  lemma {:induction false} BisectSplits(boundaries: seq<real>, v: real)
    requires Ordered(RealLe, boundaries)
    ensures forall j | 0 <= j < |boundaries| :: j < BisectRight(boundaries, v) <==> boundaries[j] <= v
  {
    if boundaries != [] {
      BisectSplits(boundaries[1..], v);
      forall j | 0 <= j < |boundaries|
        ensures j < BisectRight(boundaries, v) <==> boundaries[j] <= v
      {
        if j == 0 { assert RealLe(boundaries[0], boundaries[0]); } else {
          assert boundaries[j] == boundaries[1..][j - 1];
          assert RealLe(boundaries[0], boundaries[j]);
        }
      }
    }
  }

  lemma {:induction false} CutPointCount(values: seq<real>, bins: nat, i: nat)
    requires values != [] && 1 <= i
    ensures |CutPoints(values, bins, i)| == if i < bins then bins - i else 0
    decreases bins - i
  {
    if i < bins { CutPointCount(values, bins, i + 1); }
  }

  /** Boundaries are strictly increasing, and there are fewer of them than requested bins. */
  lemma {:induction false} BoundariesIncrease(values: seq<real>, bins: nat)
    requires bins >= 1
    ensures Increasing(RealLe, Boundaries(values, bins))
    ensures |Boundaries(values, bins)| < bins
  {
    if values != [] {
      RealLeOrder();
      CutPointCount(values, bins, 1);
      SortedSetProperties(RealLe, CutPoints(values, bins, 1));
    }
  }

  // ------------------------------------------------------------ occupied buckets

  /** The occupied buckets from `k` on, in ascending order. */
  function Keys(rows: seq<Row>, boundaries: seq<real>, k: nat): seq<nat>
    decreases |boundaries| + 1 - k
  {
    if k > |boundaries| then []
    else (if Bucket(rows, boundaries, k) != [] then [k] else []) + Keys(rows, boundaries, k + 1)
  }

  ghost predicate Ascending(keys: seq<nat>) {
    forall i, j | 0 <= i < j < |keys| :: keys[i] < keys[j]
  }

  lemma {:induction false} KeysAscend(rows: seq<Row>, boundaries: seq<real>, k: nat)
    ensures Ascending(Keys(rows, boundaries, k))
    ensures forall n :: n in Keys(rows, boundaries, k) <==>
              k <= n <= |boundaries| && Bucket(rows, boundaries, n) != []
    ensures |Keys(rows, boundaries, k)| <= if k <= |boundaries| then |boundaries| + 1 - k else 0
    decreases |boundaries| + 1 - k
  {
    hide Bucket;
    if k <= |boundaries| {
      KeysAscend(rows, boundaries, k + 1);
      var rest := Keys(rows, boundaries, k + 1);
      assert forall i | 0 <= i < |rest| :: rest[i] in rest;
    }
  }

  lemma {:induction false} GroupsAreBuckets(rows: seq<Row>, boundaries: seq<real>, k: nat)
    ensures var keys, groups := Keys(rows, boundaries, k), Groups(rows, boundaries, k);
            |groups| == |keys| && forall i | 0 <= i < |keys| :: groups[i] == Bucket(rows, boundaries, keys[i])
    decreases |boundaries| + 1 - k
  {
    hide Bucket;
    if k <= |boundaries| { GroupsAreBuckets(rows, boundaries, k + 1); }
  }

  /** Every row with a value falls into one of the occupied buckets. */
  lemma {:induction false} RowHasKey(rows: seq<Row>, boundaries: seq<real>, r: Row)
    requires r in rows && r.value.Some?
    ensures BisectRight(boundaries, r.value.value) in Keys(rows, boundaries, 0)
  {
    KeysAscend(rows, boundaries, 0);
    assert r in Bucket(rows, boundaries, BisectRight(boundaries, r.value.value));
  }

  /** A value lies between the extremes of an occupied bucket exactly when it falls into it. */
  lemma {:induction false} BucketIsInterval(rows: seq<Row>, boundaries: seq<real>, k: nat, r: Row)
    requires Bucket(rows, boundaries, k) != [] && r in rows && r.value.Some?
    ensures var values := Values(Bucket(rows, boundaries, k));
            values != []
            && (BisectRight(boundaries, r.value.value) == k <==> Min(values) <= r.value.value <= Max(values))
            && (BisectRight(boundaries, r.value.value) <= k <==> r.value.value <= Max(values))
  {
    var group := Bucket(rows, boundaries, k);
    ValueOfRow(group, group[0]);
    var values := Values(group);
    assert Row(Some(Min(values)), true) in group || Row(Some(Min(values)), false) in group;
    assert Row(Some(Max(values)), true) in group || Row(Some(Max(values)), false) in group;
    assert BisectRight(boundaries, Min(values)) == k == BisectRight(boundaries, Max(values));
    var v := r.value.value;
    if Min(values) <= v { BisectMonotone(boundaries, Min(values), v); }
    if v <= Max(values) { BisectMonotone(boundaries, v, Max(values)); }
    if v > Max(values) { BisectMonotone(boundaries, Max(values), v); }
    if BisectRight(boundaries, v) == k {
      assert r in group;
      ValueOfRow(group, r);
    }
  }

  // ------------------------------------------------------------ shape of the numeric bins

  /** `bins` summarizes the occupied buckets in order. */
  ghost predicate Shaped(bins: seq<Bin>, rows: seq<Row>, boundaries: seq<real>) {
    var keys := Keys(rows, boundaries, 0);
    && |bins| == |keys|
    && forall i | 0 <= i < |bins| ::
         var group := Bucket(rows, boundaries, keys[i]);
         && group != [] && Values(group) != []
         && bins[i].bucket == i && !bins[i].isNull
         && bins[i].lower == Some(Min(Values(group))) && bins[i].upper == Some(Max(Values(group)))
         && bins[i].count == |group| && bins[i].good == Good(group) && bins[i].bad == Bad(group)
         && bins[i].badRate == Ratio(Bad(group), |group|)
         && bins[i].lift == Lift(bins[i].badRate, Ratio(Bad(rows), |rows|))
  }

  lemma {:induction false} NumericPrefix(bins: seq<Bin>, m: nat)
    requires m <= |bins|
    requires forall i | 0 <= i < |bins| :: bins[i].isNull <==> i >= m
    ensures Numeric(bins) == bins[..m]
  {
    if bins != [] {
      if m == 0 {
        NumericPrefix(bins[1..], 0);
      } else {
        NumericPrefix(bins[1..], m - 1);
        assert bins[..m] == [bins[0]] + bins[1..][..m - 1];
      }
    }
  }

  /** `bin` describes the rows without a value. */
  ghost predicate NullShaped(bin: Bin, rows: seq<Row>) {
    var nulls := NullRows(rows);
    && bin.isNull && bin.lower == bin.upper == None
    && bin.count == |nulls| && bin.good == Good(nulls) && bin.bad == Bad(nulls)
    && bin.badRate == Ratio(Bad(nulls), |nulls|)
    && bin.lift == Lift(bin.badRate, Ratio(Bad(rows), |rows|))
  }

  /** The numeric bins come first, followed by the NULL bin when some value is missing. */
  ghost predicate NullsLast(bins: seq<Bin>, numeric: seq<Bin>, rows: seq<Row>) {
    && numeric <= bins
    && (NullRows(rows) == [] ==> bins == numeric)
    && (NullRows(rows) != [] ==> |bins| == |numeric| + 1 && NullShaped(bins[|numeric|], rows))
  }

  lemma {:induction false} RawShape(rows: seq<Row>, policy: Policy)
    ensures var bins, m := RawBins(rows, policy), |Groups(rows, Boundaries(SortedValues(rows), policy.bins), 0)|;
            && |bins| == m + (if NullRows(rows) == [] then 0 else 1)
            && Shaped(bins[..m], rows, Boundaries(SortedValues(rows), policy.bins))
            && (NullRows(rows) != [] ==> NullShaped(bins[m], rows))
  {
    var boundaries := Boundaries(SortedValues(rows), policy.bins);
    var groups, keys, bins := Groups(rows, boundaries, 0), Keys(rows, boundaries, 0), RawBins(rows, policy);
    GroupsAreBuckets(rows, boundaries, 0);
    GroupHeads(rows, boundaries);
    RawBinAt(rows, policy);
    if NullRows(rows) != [] { NullSummary(rows, |groups|); }
    hide *;
    SummariesShaped(bins[..|groups|], groups, keys, rows, boundaries);
  }

  lemma {:induction false} GroupHeads(rows: seq<Row>, boundaries: seq<real>)
    ensures var groups, keys := Groups(rows, boundaries, 0), Keys(rows, boundaries, 0);
            && |groups| == |keys|
            && forall i | 0 <= i < |groups| ::
                 && groups[i] == Bucket(rows, boundaries, keys[i])
                 && groups[i] != [] && groups[i][0].value.Some? && Values(groups[i]) != []
  {
    var groups: seq<seq<Row>> := Groups(rows, boundaries, 0);
    var keys := Keys(rows, boundaries, 0);
    GroupsAreBuckets(rows, boundaries, 0);
    KeysAscend(rows, boundaries, 0);
    hide Groups, Keys;
    forall i: int | 0 <= i < |groups|
      ensures groups[i] != [] && groups[i][0].value.Some? && Values(groups[i]) != []
    {
      assert keys[i] in keys;
      ValueOfRow(groups[i], groups[i][0]);
    }
  }

  /** The raw bins are the summaries of the groups, with the rows without a value last. */
  lemma {:induction false} RawBinAt(rows: seq<Row>, policy: Policy)
    ensures var bins, groups := RawBins(rows, policy), Groups(rows, Boundaries(SortedValues(rows), policy.bins), 0);
            && |bins| == |groups| + (if NullRows(rows) == [] then 0 else 1)
            && (forall i | 0 <= i < |groups| :: bins[i] == Summarize(i, groups[i], Ratio(Bad(rows), |rows|)))
            && (NullRows(rows) != [] ==>
                  bins[|groups|] == Summarize(|groups|, NullRows(rows), Ratio(Bad(rows), |rows|)))
  {
    hide Groups, NullRows, Boundaries, SortedValues, Summarize, Ratio, Bad;
  }

  lemma {:induction false} NullSummary(rows: seq<Row>, index: nat)
    requires NullRows(rows) != []
    ensures NullShaped(Summarize(index, NullRows(rows), Ratio(Bad(rows), |rows|)), rows)
  {
    var nulls := NullRows(rows);
    assert nulls[0] in nulls;
    hide Values, Good, Bad, Ratio, Lift, Min, Max;
  }

  lemma {:induction false} SummariesShaped(
      bins: seq<Bin>, groups: seq<seq<Row>>, keys: seq<nat>, rows: seq<Row>, boundaries: seq<real>)
    requires keys == Keys(rows, boundaries, 0) && |groups| == |keys| == |bins|
    requires forall i | 0 <= i < |groups| ::
               && groups[i] == Bucket(rows, boundaries, keys[i])
               && groups[i] != [] && groups[i][0].value.Some? && Values(groups[i]) != []
    requires forall i | 0 <= i < |bins| :: bins[i] == Summarize(i, groups[i], Ratio(Bad(rows), |rows|))
    ensures Shaped(bins, rows, boundaries)
  {
    hide Keys, Bucket, Values, Good, Bad, Ratio, Lift, Min, Max;
  }

  lemma {:induction false} NumericShaped(rows: seq<Row>, policy: Policy, ln: real -> real)
    requires ValidPolicy(policy)
    ensures Shaped(Numeric(Bins(rows, policy, ln)), rows, Boundaries(SortedValues(rows), policy.bins))
    ensures NullsLast(Bins(rows, policy, ln), Numeric(Bins(rows, policy, ln)), rows)
  {
    RawShape(rows, policy);
    BinsKeepRaw(rows, policy, ln);
    var m := |Groups(rows, Boundaries(SortedValues(rows), policy.bins), 0)|;
    var raw, bins := RawBins(rows, policy), Bins(rows, policy, ln);
    hide RawBins, Bins, Groups, Boundaries, SortedValues, NullRows, Numeric, SameCounts;
    KeptShape(raw, bins, rows, Boundaries(SortedValues(rows), policy.bins), m);
    hide Shaped;
    NumericPrefix(bins, m);
  }

  /** Smoothing adds shares to a bin and changes nothing else. */
  ghost predicate SameCounts(raw: Bin, bin: Bin) {
    raw == bin.(goodPct := raw.goodPct, badPct := raw.badPct, woe := raw.woe, ivComponent := raw.ivComponent)
  }

  lemma {:induction false} BinsKeepRaw(rows: seq<Row>, policy: Policy, ln: real -> real)
    requires ValidPolicy(policy)
    ensures var raw, bins := RawBins(rows, policy), Bins(rows, policy, ln);
            |bins| == |raw| && forall i | 0 <= i < |raw| :: SameCounts(raw[i], bins[i])
  {
    hide RawBins, Good, Bad, Share, Woe, Component;
  }

  lemma {:induction false} KeptShape(raw: seq<Bin>, bins: seq<Bin>, rows: seq<Row>, boundaries: seq<real>, m: nat)
    requires m <= |raw| == |bins| && |raw| == m + (if NullRows(rows) == [] then 0 else 1)
    requires forall i | 0 <= i < |raw| :: SameCounts(raw[i], bins[i])
    requires Shaped(raw[..m], rows, boundaries) && (NullRows(rows) != [] ==> NullShaped(raw[m], rows))
    ensures Shaped(bins[..m], rows, boundaries) && (NullRows(rows) != [] ==> NullShaped(bins[m], rows))
    ensures forall i | 0 <= i < |bins| :: bins[i].isNull <==> i >= m
  {
    hide Keys, Bucket, Values, Good, Bad, NullRows;
    forall i | 0 <= i < m ensures SameCounts(raw[..m][i], bins[..m][i]) && !bins[i].isNull {
      assert SameCounts(raw[i], bins[i]);
      assert !raw[..m][i].isNull;
    }
    if NullRows(rows) != [] { assert SameCounts(raw[m], bins[m]); }
  }

  // ------------------------------------------------------------ the partition theorem

  lemma {:induction false} BucketClassSize(rows: seq<Row>, boundaries: seq<real>, k: nat, bad: bool)
    ensures ClassSize(Bucket(rows, boundaries, k), bad) == Count(ClassIn(boundaries, k, bad), rows)
  {
    ClassSizeCounts(Bucket(rows, boundaries, k), bad);
    CountOfFilter(IsClass(bad), InBucket(boundaries, k), ClassIn(boundaries, k, bad), rows);
  }

  /** Numeric bins as intervals: disjoint, ascending, covering every value, and counting
      exactly the rows of each class between their bounds. */
  ghost predicate PartitionsRows(numeric: seq<Bin>, rows: seq<Row>) {
    && (forall i | 0 <= i < |numeric| ::
          && numeric[i].lower.Some? && numeric[i].upper.Some?
          && numeric[i].lower.value <= numeric[i].upper.value
          && numeric[i].count == numeric[i].good + numeric[i].bad > 0)
    && (forall i, bad | 0 <= i < |numeric| ::
          ClassOf(numeric[i], bad) == Count(Between(numeric[i].lower.value, numeric[i].upper.value, bad), rows))
    && (forall i, j | 0 <= i < j < |numeric| :: numeric[i].upper.value < numeric[j].lower.value)
    && (forall v | v in Values(rows) ::
          exists i :: 0 <= i < |numeric| && numeric[i].lower.value <= v <= numeric[i].upper.value)
  }

  lemma {:induction false} BinCountsInterval(
      numeric: seq<Bin>, rows: seq<Row>, boundaries: seq<real>, i: nat, bad: bool)
    requires Shaped(numeric, rows, boundaries) && i < |numeric|
    ensures ClassOf(numeric[i], bad) == Count(Between(numeric[i].lower.value, numeric[i].upper.value, bad), rows)
  {
    var k := Keys(rows, boundaries, 0)[i];
    BucketClassSize(rows, boundaries, k, bad);
    var between := Between(numeric[i].lower.value, numeric[i].upper.value, bad);
    forall r | r in rows ensures ClassIn(boundaries, k, bad)(r) == between(r) {
      if r.value.Some? { BucketIsInterval(rows, boundaries, k, r); }
    }
    CountCongruent(ClassIn(boundaries, k, bad), between, rows);
  }

  lemma {:induction false} BinsAscend(numeric: seq<Bin>, rows: seq<Row>, boundaries: seq<real>, i: nat, j: nat)
    requires Shaped(numeric, rows, boundaries) && i < j < |numeric|
    ensures numeric[i].upper.value < numeric[j].lower.value
  {
    KeysAscend(rows, boundaries, 0);
    var keys := Keys(rows, boundaries, 0);
    var low := Min(Values(Bucket(rows, boundaries, keys[j])));
    var r := RowWith(Bucket(rows, boundaries, keys[j]), low);
    BucketIsInterval(rows, boundaries, keys[i], r);
  }

  lemma {:induction false} RowWith(rows: seq<Row>, v: real) returns (r: Row)
    requires v in Values(rows)
    ensures r in rows && r.value == Some(v)
  {
    r := if Row(Some(v), true) in rows then Row(Some(v), true) else Row(Some(v), false);
  }

  lemma {:induction false} ShapedPartitions(numeric: seq<Bin>, rows: seq<Row>, boundaries: seq<real>)
    requires Shaped(numeric, rows, boundaries)
    ensures PartitionsRows(numeric, rows)
  {
    var keys := Keys(rows, boundaries, 0);
    forall i, bad | 0 <= i < |numeric|
      ensures ClassOf(numeric[i], bad) == Count(Between(numeric[i].lower.value, numeric[i].upper.value, bad), rows)
    {
      BinCountsInterval(numeric, rows, boundaries, i, bad);
    }
    forall i, j | 0 <= i < j < |numeric| ensures numeric[i].upper.value < numeric[j].lower.value {
      BinsAscend(numeric, rows, boundaries, i, j);
    }
    forall v | v in Values(rows)
      ensures exists i :: 0 <= i < |numeric| && numeric[i].lower.value <= v <= numeric[i].upper.value
    {
      var r := RowWith(rows, v);
      RowHasKey(rows, boundaries, r);
      var i :| 0 <= i < |keys| && keys[i] == BisectRight(boundaries, v);
      BucketIsInterval(rows, boundaries, keys[i], r);
      assert numeric[i].lower.value <= v <= numeric[i].upper.value;
    }
  }

  // ------------------------------------------------------------ cumulative counts

  /** `keys` ascends and contains the bucket of every row that has a value. */
  ghost predicate CoversRows(keys: seq<nat>, rows: seq<Row>, boundaries: seq<real>) {
    && Ascending(keys)
    && forall r | r in rows && r.value.Some? :: BisectRight(boundaries, r.value.value) in keys
  }

  /** Bin `i` counts the rows of bucket `keys[i]`, class by class. */
  ghost predicate CountsKeys(numeric: seq<Bin>, keys: seq<nat>, rows: seq<Row>, boundaries: seq<real>) {
    && |numeric| == |keys|
    && forall i, bad | 0 <= i < |keys| :: ClassOf(numeric[i], bad) == Count(ClassIn(boundaries, keys[i], bad), rows)
  }

  lemma {:induction false} ShapedCounts(numeric: seq<Bin>, rows: seq<Row>, boundaries: seq<real>)
    requires Shaped(numeric, rows, boundaries)
    ensures CoversRows(Keys(rows, boundaries, 0), rows, boundaries)
    ensures CountsKeys(numeric, Keys(rows, boundaries, 0), rows, boundaries)
  {
    var keys := Keys(rows, boundaries, 0);
    KeysAscend(rows, boundaries, 0);
    forall r | r in rows && r.value.Some? ensures BisectRight(boundaries, r.value.value) in keys {
      RowHasKey(rows, boundaries, r);
    }
    forall i, bad | 0 <= i < |keys| ensures ClassOf(numeric[i], bad) == Count(ClassIn(boundaries, keys[i], bad), rows) {
      BucketClassSize(rows, boundaries, keys[i], bad);
    }
  }

  /** Rows up to key `i` are those up to the previous key, if any, and those in bucket `i`. */
  lemma {:induction false} CountUpToKey(keys: seq<nat>, rows: seq<Row>, boundaries: seq<real>, i: nat, bad: bool)
    requires CoversRows(keys, rows, boundaries) && i < |keys|
    ensures Count(ClassUpTo(boundaries, keys[i], bad), rows)
            == (if i == 0 then 0 else Count(ClassUpTo(boundaries, keys[i - 1], bad), rows))
               + Count(ClassIn(boundaries, keys[i], bad), rows)
  {
    var upTo, here := ClassUpTo(boundaries, keys[i], bad), ClassIn(boundaries, keys[i], bad);
    if i == 0 {
      CountCongruent(upTo, here, rows);
    } else {
      CountSplit(upTo, ClassUpTo(boundaries, keys[i - 1], bad), here, rows);
    }
  }

  /** The running class count after bin `i` is the number of rows up to that bin's key. */
  lemma {:induction false} CumulativeUpToKey(
      numeric: seq<Bin>, keys: seq<nat>, rows: seq<Row>, boundaries: seq<real>, i: nat, bad: bool)
    requires CoversRows(keys, rows, boundaries) && CountsKeys(numeric, keys, rows, boundaries) && i < |keys|
    ensures CumClass(numeric, i + 1, bad) == Count(ClassUpTo(boundaries, keys[i], bad), rows)
  {
    CountUpToKey(keys, rows, boundaries, i, bad);
    assert CumClass(numeric, i + 1, bad) == CumClass(numeric, i, bad) + ClassOf(numeric[i], bad);
    if i > 0 { CumulativeUpToKey(numeric, keys, rows, boundaries, i - 1, bad); }
  }

  /** The running class count after bin `i` counts the rows at most that bin's upper bound. */
  lemma {:induction false} CumulativeAtMost(numeric: seq<Bin>, rows: seq<Row>, boundaries: seq<real>, i: nat, bad: bool)
    requires Shaped(numeric, rows, boundaries) && i < |numeric|
    ensures CumClass(numeric, i + 1, bad) == Count(AtMost(numeric[i].upper.value, bad), rows)
  {
    var keys := Keys(rows, boundaries, 0);
    ShapedCounts(numeric, rows, boundaries);
    CumulativeUpToKey(numeric, keys, rows, boundaries, i, bad);
    forall r | r in rows ensures ClassUpTo(boundaries, keys[i], bad)(r) == AtMost(numeric[i].upper.value, bad)(r) {
      if r.value.Some? { BucketIsInterval(rows, boundaries, keys[i], r); }
    }
    CountCongruent(ClassUpTo(boundaries, keys[i], bad), AtMost(numeric[i].upper.value, bad), rows);
  }

  lemma {:induction false} CumulativeLast(
      numeric: seq<Bin>, keys: seq<nat>, rows: seq<Row>, boundaries: seq<real>, bad: bool)
    requires CoversRows(keys, rows, boundaries) && CountsKeys(numeric, keys, rows, boundaries)
    ensures CumClass(numeric, |numeric|, bad) == Count(HasValue(bad), rows)
  {
    if |keys| == 0 {
      CountZero(HasValue(bad), rows);
    } else {
      CumulativeUpToKey(numeric, keys, rows, boundaries, |keys| - 1, bad);
      CountCongruent(ClassUpTo(boundaries, keys[|keys| - 1], bad), HasValue(bad), rows);
    }
  }

  /** The numeric bins together hold every row that has a value. */
  lemma {:induction false} CumulativeTotal(numeric: seq<Bin>, rows: seq<Row>, boundaries: seq<real>, bad: bool)
    requires Shaped(numeric, rows, boundaries)
    ensures CumClass(numeric, |numeric|, bad) == Count(HasValue(bad), rows)
  {
    ShapedCounts(numeric, rows, boundaries);
    CumulativeLast(numeric, Keys(rows, boundaries, 0), rows, boundaries, bad);
  }

  lemma {:induction false} CumPrefix(bins: seq<Bin>, prefix: seq<Bin>, i: nat, bad: bool)
    requires prefix <= bins && i <= |prefix|
    ensures CumClass(bins, i, bad) == CumClass(prefix, i, bad)
  {
    if i > 0 { CumPrefix(bins, prefix, i - 1, bad); }
  }

  function IsNullClass(bad: bool): Row -> bool { (r: Row) => r.value.None? && r.bad == bad }

  /** Good and bad counts over all bins, NULL included, are the totals of the population. */
  lemma {:induction false} BinsConserveClasses(rows: seq<Row>, policy: Policy, ln: real -> real, bad: bool)
    requires ValidPolicy(policy)
    ensures var bins := Bins(rows, policy, ln); CumClass(bins, |bins|, bad) == ClassSize(rows, bad)
  {
    var bins, numeric := Bins(rows, policy, ln), Numeric(Bins(rows, policy, ln));
    var nulls := NullRows(rows);
    NumericShaped(rows, policy, ln);
    TotalWithNulls(bins, numeric, rows, bad);
    hide Bins, Numeric, Boundaries, SortedValues, Filter, Count, CumClass, ClassSize;
    CumulativeTotal(numeric, rows, Boundaries(SortedValues(rows), policy.bins), bad);
    ClassSizeCounts(rows, bad);
    ClassSizeCounts(nulls, bad);
    CountOfFilter(IsClass(bad), IsNull(), IsNullClass(bad), rows);
    CountSplit(IsClass(bad), HasValue(bad), IsNullClass(bad), rows);
  }

  lemma {:induction false} TotalWithNulls(bins: seq<Bin>, numeric: seq<Bin>, rows: seq<Row>, bad: bool)
    requires NullsLast(bins, numeric, rows)
    ensures CumClass(bins, |bins|, bad) == CumClass(numeric, |numeric|, bad) + ClassSize(NullRows(rows), bad)
  {
    CumPrefix(bins, numeric, |numeric|, bad);
    hide NullRows;
    if NullRows(rows) != [] {
      assert CumClass(bins, |bins|, bad) == CumClass(bins, |numeric|, bad) + ClassOf(bins[|numeric|], bad);
    }
  }

  /** The binning of any population is an exact ordered partition of its rows: at most the
      requested number of disjoint ascending intervals, one NULL bin at the end, nothing lost. */
  lemma {:induction false} BinsPartitionRows(rows: seq<Row>, policy: Policy, ln: real -> real)
    requires ValidPolicy(policy)
    ensures var bins, numeric := Bins(rows, policy, ln), Numeric(Bins(rows, policy, ln));
            && PartitionsRows(numeric, rows)
            && |numeric| <= policy.bins
            && NullsLast(bins, numeric, rows)
            && (forall i | 0 <= i < |numeric| :: bins[i].bucket == i)
            && (forall bad :: CumClass(bins, |bins|, bad) == ClassSize(rows, bad))
  {
    var boundaries := Boundaries(SortedValues(rows), policy.bins);
    NumericShaped(rows, policy, ln);
    ShapedPartitions(Numeric(Bins(rows, policy, ln)), rows, boundaries);
    KeysAscend(rows, boundaries, 0);
    BoundariesIncrease(SortedValues(rows), policy.bins);
    forall bad ensures CumClass(Bins(rows, policy, ln), |Bins(rows, policy, ln)|, bad) == ClassSize(rows, bad) {
      BinsConserveClasses(rows, policy, ln, bad);
    }
  }

  // ------------------------------------------------------------ lift

  /** Sum of the lifts of the first `i` bins, each weighted with its row count. */
  function WeightedLift(bins: seq<Bin>, i: nat): real
    requires i <= |bins|
  {
    if i == 0 then 0.0
    else WeightedLift(bins, i - 1)
         + bins[i - 1].count as real * (if bins[i - 1].lift.Some? then bins[i - 1].lift.value else 0.0)
  }

  /** A bin whose lift is its own bad rate over the population's bad rate. */
  ghost predicate HasLift(bin: Bin, rows: seq<Row>) {
    && bin.count > 0
    && bin.lift == Lift(Ratio(bin.bad, bin.count), Ratio(Bad(rows), |rows|))
  }

  lemma {:induction false} LiftTimesCount(bad: nat, count: nat, overall: real)
    requires count > 0 && overall > 0.0
    ensures count as real * (bad as real / count as real / overall) == bad as real / overall
  {
    var rate := bad as real / count as real;
    assert rate * count as real == bad as real;
    assert count as real * (rate / overall) == (count as real * rate) / overall;
  }

  lemma {:induction false} WeightedLiftSums(bins: seq<Bin>, rows: seq<Row>, i: nat)
    requires Bad(rows) > 0 && |rows| > 0 && i <= |bins| && forall b | b in bins :: HasLift(b, rows)
    ensures Ratio(Bad(rows), |rows|).value > 0.0
    ensures WeightedLift(bins, i) == CumBad(bins, i) as real / Ratio(Bad(rows), |rows|).value
  {
    var overall := Ratio(Bad(rows), |rows|).value;
    PositiveQuotient(Bad(rows) as real, |rows| as real);
    if i > 0 {
      WeightedLiftSums(bins, rows, i - 1);
      assert HasLift(bins[i - 1], rows);
      LiftTimesCount(bins[i - 1].bad, bins[i - 1].count, overall);
      AddQuotients(CumBad(bins, i - 1) as real, bins[i - 1].bad as real, overall);
    }
  }

  lemma {:induction false} AddQuotients(a: real, b: real, c: real)
    requires c != 0.0
    ensures a / c + b / c == (a + b) / c
  {
  }

  /** The count-weighted mean of the bin lifts is one whenever some row is bad. */
  lemma {:induction false} LiftsAverageToOne(rows: seq<Row>, policy: Policy, ln: real -> real)
    requires ValidPolicy(policy) && Bad(rows) > 0
    ensures |rows| > 0
    ensures WeightedLift(Bins(rows, policy, ln), |Bins(rows, policy, ln)|) / |rows| as real == 1.0
  {
    var bins := Bins(rows, policy, ln);
    BinsHaveLift(rows, policy, ln);
    BinsConserveClasses(rows, policy, ln, true);
    CountIsFilter(IsBad(), rows);
    WeightedLiftSums(bins, rows, |bins|);
    QuotientOfQuotient(Bad(rows) as real, |rows| as real);
  }

  lemma {:induction false} QuotientOfQuotient(a: real, b: real)
    requires a > 0.0 && b > 0.0
    ensures a / b > 0.0 && a / (a / b) / b == 1.0
  {
    PositiveQuotient(a, b);
    var q := a / b;
    assert q * b == a;
    assert a / q == b;
  }

  lemma {:induction false} ShapedHaveLift(numeric: seq<Bin>, rows: seq<Row>, boundaries: seq<real>)
    requires Shaped(numeric, rows, boundaries)
    ensures forall i | 0 <= i < |numeric| :: HasLift(numeric[i], rows)
  {
    hide Keys, Bucket, Values, Good, Bad, Ratio, Lift;
  }

  lemma {:induction false} NullHasLift(bin: Bin, rows: seq<Row>)
    requires NullShaped(bin, rows) && NullRows(rows) != []
    ensures HasLift(bin, rows)
  {
    hide NullRows, Good, Bad, Ratio, Lift;
  }

  lemma {:induction false} AllHaveLift(bins: seq<Bin>, numeric: seq<Bin>, rows: seq<Row>)
    requires NullsLast(bins, numeric, rows) && forall i | 0 <= i < |numeric| :: HasLift(numeric[i], rows)
    ensures forall b | b in bins :: HasLift(b, rows)
  {
    hide HasLift, NullRows, NullShaped;
    forall i | 0 <= i < |bins| ensures HasLift(bins[i], rows) {
      if i < |numeric| {
        assert numeric[i] == bins[i];
      } else {
        NullHasLift(bins[i], rows);
      }
    }
  }

  lemma {:induction false} BinsHaveLift(rows: seq<Row>, policy: Policy, ln: real -> real)
    requires ValidPolicy(policy)
    ensures forall b | b in Bins(rows, policy, ln) :: HasLift(b, rows)
  {
    var bins, numeric := Bins(rows, policy, ln), Numeric(Bins(rows, policy, ln));
    NumericShaped(rows, policy, ln);
    ShapedHaveLift(numeric, rows, Boundaries(SortedValues(rows), policy.bins));
    hide *;
    AllHaveLift(bins, numeric, rows);
  }
}
