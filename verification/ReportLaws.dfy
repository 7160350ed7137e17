/** Symmetries of the whole report: the order of the rows does not matter, and exchanging the
    two classes only exchanges the direction of risk. */
module ReportLaws {
  import opened Options
  import opened Sorting
  import opened Evaluation
  import opened BinningLaws
  import opened KsLaws
  import QuantileLaws

  // ------------------------------------------------------------ order of the rows

  lemma {:induction false} ValuesMultiplicity(rows: seq<Row>, v: real)
    ensures multiset(Values(rows))[v] == multiset(rows)[Row(Some(v), true)] + multiset(rows)[Row(Some(v), false)]
  {
    if rows != [] {
      ValuesMultiplicity(rows[1..], v);
      assert rows == [rows[0]] + rows[1..];
      assert Values(rows) == (if rows[0].value.Some? then [rows[0].value.value] else []) + Values(rows[1..]);
    }
  }

  lemma {:induction false} ValuesIgnoreOrder(a: seq<Row>, b: seq<Row>)
    requires multiset(a) == multiset(b)
    ensures multiset(Values(a)) == multiset(Values(b))
    ensures SortedValues(a) == SortedValues(b)
    ensures Values(a) == [] <==> Values(b) == []
  {
    forall v ensures multiset(Values(a))[v] == multiset(Values(b))[v] {
      ValuesMultiplicity(a, v);
      ValuesMultiplicity(b, v);
    }
    RealLeOrder();
    SortIgnoresOrder(RealLe, Values(a), Values(b));
    SameElements(Values(a), Values(b));
  }

  /** Rows that all have a value, or all lack one. */
  ghost predicate Uniform(rows: seq<Row>) {
    (forall r | r in rows :: r.value.Some?) || (forall r | r in rows :: r.value.None?)
  }

  lemma {:induction false} SummaryIgnoresOrder(index: nat, a: seq<Row>, b: seq<Row>, overall: Option<real>)
    requires multiset(a) == multiset(b) && Uniform(a)
    ensures Summarize(index, a, overall) == Summarize(index, b, overall)
  {
    SameElements(a, b);
    CountIgnoresOrder(IsBad(), a, b);
    ValuesIgnoreOrder(a, b);
    SameElements(Values(a), Values(b));
    if a != [] { assert a[0] in a && b[0] in a; }
    if Values(a) != [] { ExtremesAgree(Values(a), Values(b)); }
    assert (a == [] || a[0].value.None?) == (b == [] || b[0].value.None?);
    assert Bad(a) == Bad(b) && Good(a) == Good(b);
    hide *;
    SameSummary(index, a, b, overall);
  }

  lemma {:induction false} SameSummary(index: nat, a: seq<Row>, b: seq<Row>, overall: Option<real>)
    requires (a == [] || a[0].value.None?) == (b == [] || b[0].value.None?)
    requires |a| == |b| && Bad(a) == Bad(b) && Good(a) == Good(b) && (Values(a) == [] <==> Values(b) == [])
    requires Values(a) != [] ==> Min(Values(a)) == Min(Values(b)) && Max(Values(a)) == Max(Values(b))
    ensures Summarize(index, a, overall) == Summarize(index, b, overall)
  {
    hide Bad, Good, Values, Min, Max, Ratio, Lift;
  }

  lemma {:induction false} ExtremesAgree(s: seq<real>, t: seq<real>)
    requires s != [] && t != [] && forall v :: v in s <==> v in t
    ensures Min(s) == Min(t) && Max(s) == Max(t)
  {
    assert Min(s) in t && Min(t) in s && Max(s) in t && Max(t) in s;
  }

  ghost predicate SameGroups(a: seq<seq<Row>>, b: seq<seq<Row>>) {
    |a| == |b| && forall i | 0 <= i < |a| :: multiset(a[i]) == multiset(b[i]) && Uniform(a[i])
  }

  lemma {:induction false} BucketIgnoresOrder(a: seq<Row>, b: seq<Row>, boundaries: seq<real>, k: nat)
    requires multiset(a) == multiset(b)
    ensures multiset(Bucket(a, boundaries, k)) == multiset(Bucket(b, boundaries, k))
    ensures Bucket(a, boundaries, k) == [] <==> Bucket(b, boundaries, k) == []
    ensures Uniform(Bucket(a, boundaries, k))
  {
    FilterIgnoresOrder(InBucket(boundaries, k), a, b);
    SameElements(Bucket(a, boundaries, k), Bucket(b, boundaries, k));
  }

  lemma {:induction false} GroupsIgnoreOrder(a: seq<Row>, b: seq<Row>, boundaries: seq<real>, k: nat)
    requires multiset(a) == multiset(b)
    ensures SameGroups(Groups(a, boundaries, k), Groups(b, boundaries, k))
    decreases |boundaries| + 1 - k
  {
    hide Bucket, Uniform;
    if k <= |boundaries| {
      BucketIgnoresOrder(a, b, boundaries, k);
      GroupsIgnoreOrder(a, b, boundaries, k + 1);
      hide SameGroups;
      SameGroupsPrepend(Bucket(a, boundaries, k), Groups(a, boundaries, k + 1), Bucket(b, boundaries, k),
                        Groups(b, boundaries, k + 1));
    }
  }

  lemma {:induction false} SameGroupsPrepend(g: seq<Row>, a: seq<seq<Row>>, k: seq<Row>, b: seq<seq<Row>>)
    requires multiset(g) == multiset(k) && Uniform(g) && SameGroups(a, b)
    ensures SameGroups([g] + a, [k] + b)
  {
    hide Uniform;
  }

  lemma {:induction false} BinsIgnoreOrder(a: seq<Row>, b: seq<Row>, policy: Policy, ln: real -> real)
    requires multiset(a) == multiset(b) && policy.epsilon > 0.0
    ensures Good(a) == Good(b) && Bad(a) == Bad(b) && |a| == |b| && |NullRows(a)| == |NullRows(b)|
    ensures Bins(a, policy, ln) == Bins(b, policy, ln)
  {
    SameElements(a, b);
    CountIgnoresOrder(IsBad(), a, b);
    ValuesIgnoreOrder(a, b);
    NullsIgnoreOrder(a, b);
    AllGroupsIgnoreOrder(a, b, Boundaries(SortedValues(a), policy.bins));
    hide Boundaries, SortedValues, AllGroups, NullRows, SameGroups, Ratio;
    SummariesIgnoreOrder(AllGroups(a, Boundaries(SortedValues(a), policy.bins)),
                         AllGroups(b, Boundaries(SortedValues(a), policy.bins)), Ratio(Bad(a), |a|));
    assert RawBins(a, policy) == RawBins(b, policy);
    hide RawBins;
  }

  lemma {:induction false} NullsIgnoreOrder(a: seq<Row>, b: seq<Row>)
    requires multiset(a) == multiset(b)
    ensures multiset(NullRows(a)) == multiset(NullRows(b)) && |NullRows(a)| == |NullRows(b)|
    ensures Uniform(NullRows(a))
  {
    FilterIgnoresOrder(IsNull(), a, b);
    SameElements(NullRows(a), NullRows(b));
  }

  lemma {:induction false} AllGroupsIgnoreOrder(a: seq<Row>, b: seq<Row>, boundaries: seq<real>)
    requires multiset(a) == multiset(b)
    ensures SameGroups(AllGroups(a, boundaries), AllGroups(b, boundaries))
  {
    NullsIgnoreOrder(a, b);
    GroupsIgnoreOrder(a, b, boundaries, 0);
    hide Uniform, NullRows, Groups;
  }

  lemma {:induction false} SummariesIgnoreOrder(a: seq<seq<Row>>, b: seq<seq<Row>>, overall: Option<real>)
    requires SameGroups(a, b)
    ensures SummarizeAll(a, overall) == SummarizeAll(b, overall)
  {
    forall i: nat | i < |a| ensures Summarize(i, a[i], overall) == Summarize(i, b[i], overall) {
      SummaryIgnoresOrder(i, a[i], b[i], overall);
    }
  }

  lemma {:induction false} MeasureIgnoresOrder(a: seq<Row>, b: seq<Row>, t: real, atLeast: bool, sources: seq<Origin>)
    requires multiset(a) == multiset(b)
    ensures Measure(a, t, atLeast, sources) == Measure(b, t, atLeast, sources)
  {
    var hits := Hit(t, atLeast);
    FilterIgnoresOrder(hits, a, b);
    SameElements(a, b);
    SameElements(Filter(hits, a), Filter(hits, b));
    CountIgnoresOrder(IsBad(), a, b);
    CountIgnoresOrder(IsBad(), Filter(hits, a), Filter(hits, b));
  }

  lemma {:induction false} CandidatesIgnoreOrder(a: seq<Row>, b: seq<Row>, policy: Policy, ks: KsResult)
    requires multiset(a) == multiset(b) && ValidPolicy(policy)
    requires ks.direction != Undetermined ==> Values(a) != [] && Values(b) != []
    ensures Candidates(a, policy, ks) == Candidates(b, policy, ks)
  {
    if ks.direction != Undetermined {
      SortedNonEmpty(Values(a));
      ValuesIgnoreOrder(a, b);
      var atLeast := ks.direction == HigherIsRiskier;
      var proposals := Proposals(SortedValues(a), policy.percentiles, ks.split);
      hide Measure, SortedValues, Proposals, SortedSet, Thresholds, SourcesOf;
      forall t, sources ensures Measure(a, t, atLeast, sources) == Measure(b, t, atLeast, sources) {
        MeasureIgnoresOrder(a, b, t, atLeast, sources);
      }
    }
  }

  /** The report depends on the rows only as a multiset. */
  lemma {:induction false} ReportIgnoresOrder(
      name: string, a: seq<Row>, b: seq<Row>, total: nat, policy: Policy, ln: real -> real)
    requires ValidPolicy(policy) && multiset(a) == multiset(b)
    ensures Evaluate(name, a, total, policy, ln) == Evaluate(name, b, total, policy, ln)
  {
    BinsIgnoreOrder(a, b, policy, ln);
    ValuesIgnoreOrder(a, b);
    DirectionNeedsValues(a, policy, ln);
    DirectionNeedsValues(b, policy, ln);
    CandidatesIgnoreOrder(a, b, policy, Ks(Numeric(Bins(a, policy, ln))));
    hide Bins, Ks, Numeric, Candidates, SortedValues, Quantile, Values, NullRows, Good, Bad;
  }

  // ------------------------------------------------------------ exchanging the classes

  /** The same rows with good and bad exchanged. */
  function Exchange(rows: seq<Row>): seq<Row> {
    if rows == [] then [] else [Row(rows[0].value, !rows[0].bad)] + Exchange(rows[1..])
  }

  lemma {:induction false} ExchangeBasics(rows: seq<Row>)
    ensures |Exchange(rows)| == |rows| && Values(Exchange(rows)) == Values(rows)
    ensures Bad(Exchange(rows)) == Good(rows) && Good(Exchange(rows)) == Bad(rows)
  {
    if rows != [] {
      ExchangeBasics(rows[1..]);
      CountIsFilter(IsBad(), rows[1..]);
      CountIsFilter(IsBad(), Exchange(rows[1..]));
      CountIsFilter(IsBad(), rows);
      CountIsFilter(IsBad(), Exchange(rows));
    }
  }

  lemma {:induction false} ExchangeAppend(a: seq<Row>, b: seq<Row>)
    ensures Exchange(a + b) == Exchange(a) + Exchange(b)
  {
    if a == [] { assert a + b == b; } else {
      assert (a + b)[1..] == a[1..] + b;
      ExchangeAppend(a[1..], b);
    }
  }

  lemma {:induction false} ExchangeFilter(p: Row -> bool, rows: seq<Row>)
    requires forall r: Row :: p(r) == p(Row(r.value, !r.bad))
    ensures Filter(p, Exchange(rows)) == Exchange(Filter(p, rows))
  {
    if rows != [] {
      ExchangeFilter(p, rows[1..]);
      ExchangeAppend(if p(rows[0]) then [rows[0]] else [], Filter(p, rows[1..]));
    }
  }

  /** `x` describes the same rows as `y` with the classes exchanged. */
  ghost predicate Exchanged(x: Bin, y: Bin) {
    && x.bucket == y.bucket && x.isNull == y.isNull && x.lower == y.lower && x.upper == y.upper
    && x.count == y.count && x.good == y.bad && x.bad == y.good
  }

  ghost predicate AllExchanged(x: seq<Bin>, y: seq<Bin>) {
    |x| == |y| && forall i | 0 <= i < |x| :: Exchanged(x[i], y[i])
  }

  lemma {:induction false} ExchangeSummary(index: nat, group: seq<Row>, o1: Option<real>, o2: Option<real>)
    ensures Exchanged(Summarize(index, Exchange(group), o1), Summarize(index, group, o2))
  {
    ExchangeBasics(group);
  }

  lemma {:induction false} BucketExchanges(rows: seq<Row>, boundaries: seq<real>, k: nat)
    ensures Bucket(Exchange(rows), boundaries, k) == Exchange(Bucket(rows, boundaries, k))
    ensures Exchange(Bucket(rows, boundaries, k)) == [] <==> Bucket(rows, boundaries, k) == []
  {
    ExchangeFilter(InBucket(boundaries, k), rows);
    ExchangeBasics(Bucket(rows, boundaries, k));
  }

  lemma {:induction false} ExchangeGroups(rows: seq<Row>, boundaries: seq<real>, k: nat)
    ensures ExchangedGroups(Groups(Exchange(rows), boundaries, k), Groups(rows, boundaries, k))
    decreases |boundaries| + 1 - k
  {
    hide Bucket, Exchange;
    if k <= |boundaries| {
      BucketExchanges(rows, boundaries, k);
      ExchangeGroups(rows, boundaries, k + 1);
      ExchangedPrepend(Groups(Exchange(rows), boundaries, k + 1), Bucket(rows, boundaries, k),
                       Groups(rows, boundaries, k + 1));
      hide ExchangedGroups;
    }
  }

  ghost predicate ExchangedGroups(x: seq<seq<Row>>, y: seq<seq<Row>>) {
    |x| == |y| && forall i | 0 <= i < |x| :: x[i] == Exchange(y[i])
  }

  lemma {:induction false} ExchangedPrepend(x: seq<seq<Row>>, group: seq<Row>, y: seq<seq<Row>>)
    requires ExchangedGroups(x, y)
    ensures ExchangedGroups([Exchange(group)] + x, [group] + y)
  {
    hide Exchange;
  }

  lemma {:induction false} ExchangeBins(rows: seq<Row>, policy: Policy)
    ensures AllExchanged(RawBins(Exchange(rows), policy), RawBins(rows, policy))
  {
    ExchangeBasics(rows);
    var boundaries := Boundaries(SortedValues(rows), policy.bins);
    ExchangeAllGroups(rows, boundaries);
    assert SortedValues(Exchange(rows)) == SortedValues(rows);
    hide Boundaries, Summarize, Exchanged, Ratio, Bad, AllGroups, Exchange, SortedValues;
    var o1, o2 := Ratio(Bad(Exchange(rows)), |rows|), Ratio(Bad(rows), |rows|);
    var x, y := AllGroups(Exchange(rows), boundaries), AllGroups(rows, boundaries);
    forall i: nat | i < |x| ensures Exchanged(Summarize(i, x[i], o1), Summarize(i, y[i], o2)) {
      assert x[i] == Exchange(y[i]);
      ExchangeSummary(i, y[i], o1, o2);
    }
  }

  lemma {:induction false} ExchangeAllGroups(rows: seq<Row>, boundaries: seq<real>)
    ensures var x, y := AllGroups(Exchange(rows), boundaries), AllGroups(rows, boundaries);
            |x| == |y| && forall i | 0 <= i < |x| :: x[i] == Exchange(y[i])
  {
    ExchangeGroups(rows, boundaries, 0);
    ExchangeFilter(IsNull(), rows);
    ExchangeBasics(NullRows(rows));
    hide Groups, Filter, Exchange;
  }

  lemma {:induction false} ExchangeNumeric(x: seq<Bin>, y: seq<Bin>)
    requires AllExchanged(x, y)
    ensures AllExchanged(Numeric(x), Numeric(y))
  {
    if x != [] { ExchangeNumeric(x[1..], y[1..]); }
  }

  lemma {:induction false} ExchangeCum(x: seq<Bin>, y: seq<Bin>, i: nat)
    requires AllExchanged(x, y) && i <= |x|
    ensures CumGood(x, i) == CumBad(y, i) && CumBad(x, i) == CumGood(y, i)
  {
    if i > 0 { ExchangeCum(x, y, i - 1); }
  }

  function Opposite(d: Direction): Direction {
    match d
    case HigherIsRiskier => LowerIsRiskier
    case LowerIsRiskier => HigherIsRiskier
    case Undetermined => Undetermined
  }

  lemma {:induction false} ExchangeKs(x: seq<Bin>, y: seq<Bin>)
    requires AllExchanged(x, y)
    ensures Ks(x).available == Ks(y).available && Ks(x).value == Ks(y).value
    ensures Ks(x).bucket == Ks(y).bucket && Ks(x).direction == Opposite(Ks(y).direction)
  {
    ExchangeCum(x, y, |x|);
    if Ks(y).available {
      var gx, gy := Gaps(x), Gaps(y);
      forall i | 0 <= i < |gx| ensures gx[i] == -gy[i] {
        ExchangeCum(x, y, i + 1);
      }
      hide Gaps, Gap;
      var i, j := ArgMax(gx), ArgMax(gy);
      assert Abs(gx[i]) == Abs(gy[i]) && Abs(gx[j]) == Abs(gy[j]);
      assert i == j;
    }
  }

  /** `ln(1/x) = -ln(x)` for positive arguments. */
  ghost predicate LnReciprocal(ln: real -> real) {
    forall x | x > 0.0 :: ln(1.0 / x) == -ln(x)
  }

  lemma {:induction false} ExchangeComponent(gp: real, bp: real, ln: real -> real)
    requires LnReciprocal(ln) && gp > 0.0 && bp > 0.0
    ensures Component(bp, gp, ln) == Component(gp, bp, ln)
  {
    PositiveQuotient(gp, bp);
    var q := gp / bp;
    assert q * bp == gp;
    assert 1.0 / q * q == 1.0;
    assert 1.0 / q * gp == 1.0 / q * q * bp == bp;
    QuotientUnique(bp, gp, 1.0 / q);
    var w := ln(q);
    assert Woe(bp, gp, ln) == -w;
    assert (bp - gp) * -w == (gp - bp) * w;
  }

  lemma {:induction false} ExchangeSumIv(x: seq<Bin>, y: seq<Bin>)
    requires |x| == |y| && forall i | 0 <= i < |x| :: IvPart(x[i]) == IvPart(y[i])
    ensures SumIv(x) == SumIv(y)
  {
    if x != [] { ExchangeSumIv(x[..|x| - 1], y[..|y| - 1]); }
  }

  lemma {:induction false} ExchangeSmooth(
      x: seq<Bin>, y: seq<Bin>, good: nat, bad: nat, epsilon: real, ln: real -> real)
    requires AllExchanged(x, y) && good > 0 && bad > 0 && epsilon > 0.0 && LnReciprocal(ln)
    ensures var sx, sy := SmoothAll(x, bad, good, epsilon, ln), SmoothAll(y, good, bad, epsilon, ln);
            AllExchanged(sx, sy) && SumIv(sx) == SumIv(sy)
  {
    var sx, sy := SmoothAll(x, bad, good, epsilon, ln), SmoothAll(y, good, bad, epsilon, ln);
    hide Share, Component, Woe;
    forall i | 0 <= i < |x| ensures IvPart(sx[i]) == IvPart(sy[i]) && Exchanged(sx[i], sy[i]) {
      var gp, bp := Share(y[i].good, good, |x|, epsilon), Share(y[i].bad, bad, |x|, epsilon);
      assert Exchanged(x[i], y[i]);
      assert sx[i].ivComponent == Some(Component(bp, gp, ln));
      assert sy[i].ivComponent == Some(Component(gp, bp, ln));
      ExchangeComponent(gp, bp, ln);
    }
    ExchangeSumIv(sx, sy);
  }

  /** Exchanging good and bad labels keeps the KS value, its bucket and the information value,
      and turns the direction of risk around. */
  lemma {:induction false} ExchangeTurnsDirection(
      name: string, rows: seq<Row>, total: nat, policy: Policy, ln: real -> real)
    requires ValidPolicy(policy) && LnReciprocal(ln)
    ensures var x, y := Evaluate(name, Exchange(rows), total, policy, ln), Evaluate(name, rows, total, policy, ln);
            && x.ks.available == y.ks.available && x.ks.value == y.ks.value && x.ks.bucket == y.ks.bucket
            && x.ks.direction == Opposite(y.ks.direction)
            && x.iv == y.iv
            && x.goodCount == y.badCount && x.badCount == y.goodCount
  {
    ExchangeBasics(rows);
    ExchangeBins(rows, policy);
    var x, y := Bins(Exchange(rows), policy, ln), Bins(rows, policy, ln);
    if Good(rows) != 0 && Bad(rows) != 0 {
      ExchangeSmooth(RawBins(Exchange(rows), policy), RawBins(rows, policy), Good(rows), Bad(rows), policy.epsilon, ln);
    }
    assert AllExchanged(x, y);
    ExchangeNumeric(x, y);
    ExchangeKs(Numeric(x), Numeric(y));
    DirectionNeedsValues(Exchange(rows), policy, ln);
    DirectionNeedsValues(rows, policy, ln);
    hide RawBins, Ks, Numeric, Candidates, DistributionOf, SmoothAll, WarningsOf;
  }

  // ------------------------------------------------------------ the figures of a report

  /** The places of the rows that are bad, and of those without a value. */
  function BadPlaces(rows: seq<Row>): set<nat> { set i: nat | i < |rows| && rows[i].bad }

  function EmptyPlaces(rows: seq<Row>): set<nat> { set i: nat | i < |rows| && rows[i].value.None? }

  lemma {:induction false} CountedPlaces(p: Row -> bool, rows: seq<Row>, places: set<nat>)
    requires forall i: nat :: i in places <==> i < |rows| && p(rows[i])
    ensures Count(p, rows) == |places|
    decreases |rows|
  {
    if rows == [] {
      assert places == {};
    } else {
      var n := |rows| - 1;
      assert rows == rows[..n] + [rows[n]];
      CountedPlaces(p, rows[..n], places - {n});
      CountAppend(p, rows[..n], [rows[n]]);
    }
  }

  /** A share: absent for an empty whole, and otherwise what gives the part when multiplied by it. */
  ghost predicate IsShare(share: Option<real>, part: nat, whole: nat) {
    if whole == 0 then share == None else share.Some? && share.value * whole as real == part as real
  }

  /** The counts and rates of a report, counted on the rows. */
  ghost predicate CountsRows(r: Report, rows: seq<Row>) {
    var bad, empty := |BadPlaces(rows)|, |EmptyPlaces(rows)|;
    && r.labeledSample == |rows| && r.badCount == bad && r.goodCount + bad == |rows|
    && r.nullMetric == empty && r.nonNullMetric + empty == |rows|
    && IsShare(r.coverage, r.nonNullMetric, |rows|) && IsShare(r.badRate, bad, |rows|)
    && (r.iv.Some? <==> 0 < bad < |rows|)
  }

  /** Each warning by its own condition on the rows. */
  ghost predicate WarnsOf(r: Report, rows: seq<Row>, policy: Policy) {
    && (InsufficientSample in r.warnings <==> |rows| < policy.minLabeledSamples)
    && (ClassImbalanceExtreme in r.warnings <==> (forall x | x in rows :: x.bad) || (forall x | x in rows :: !x.bad))
    && (CoverageTooLow in r.warnings <==> forall x | x in rows :: x.value.None?)
    && (OverallBadRateZero in r.warnings <==> forall x | x in rows :: !x.bad)
    && (KsNotAvailable in r.warnings <==>
          || (forall x | x in rows && x.value.Some? :: x.bad)
          || (forall x | x in rows && x.value.Some? :: !x.bad))
    && (DirectionUndetermined in r.warnings <==> KsNotAvailable in r.warnings || r.ks.value == Some(0.0))
  }

  lemma {:induction false} ClassesFollow(rows: seq<Row>)
    ensures Good(rows) + Bad(rows) == |rows|
    ensures Bad(rows) == 0 <==> forall x | x in rows :: !x.bad
    ensures Good(rows) == 0 <==> forall x | x in rows :: x.bad
    ensures Values(rows) == [] <==> forall x | x in rows :: x.value.None?
  {
    CountIsFilter(IsBad(), rows);
    CountZero(IsBad(), rows);
    CountAll(IsBad(), rows);
    forall x | x in rows && x.value.Some? ensures Values(rows) != [] { ValueOfRow(rows, x); }
    if Values(rows) != [] {
      var v := Values(rows)[0];
      assert v in Values(rows);
      assert Row(Some(v), true) in rows || Row(Some(v), false) in rows;
    }
  }

  lemma {:induction false} CountAll<T(!new)>(p: T -> bool, s: seq<T>)
    ensures Count(p, s) <= |s|
    ensures Count(p, s) == |s| <==> forall x | x in s :: p(x)
  {
    if s != [] {
      CountAll(p, s[1..]);
      assert s == [s[0]] + s[1..];
    }
  }

  lemma {:induction false} KsFollows(rows: seq<Row>, policy: Policy, ln: real -> real)
    requires ValidPolicy(policy)
    ensures var ks := Ks(Numeric(Bins(rows, policy, ln)));
            && (!ks.available <==> || (forall x | x in rows && x.value.Some? :: x.bad)
                                   || (forall x | x in rows && x.value.Some? :: !x.bad))
            && (ks.direction == Undetermined <==> !ks.available || ks.value == Some(0.0))
  {
    KsRealisedOnRows(rows, policy, ln);
    hide Ks, Bins, Numeric, Separation, IsEdge;
    CountZero(HasValue(true), rows);
    CountZero(HasValue(false), rows);
  }

  lemma {:induction false} RatioIsShare(part: nat, whole: nat)
    ensures IsShare(Ratio(part, whole), part, whole)
  {
  }

  lemma {:induction false} CountsFollow(r: Report, rows: seq<Row>)
    requires r.labeledSample == |rows| && r.badCount == Bad(rows) && r.goodCount == Good(rows)
    requires r.nullMetric == |NullRows(rows)| && r.nonNullMetric == |SortedValues(rows)|
    requires r.coverage == Ratio(|SortedValues(rows)|, |rows|) && r.badRate == Ratio(Bad(rows), |rows|)
    requires r.iv.Some? <==> Good(rows) != 0 && Bad(rows) != 0
    ensures CountsRows(r, rows)
  {
    CountedPlaces(IsBad(), rows, BadPlaces(rows));
    CountedPlaces(IsNull(), rows, EmptyPlaces(rows));
    CountIsFilter(IsBad(), rows);
    CountIsFilter(IsNull(), rows);
    QuantileLaws.ValuesAndNulls(rows);
    QuantileLaws.SortedLength(rows);
    RatioIsShare(|SortedValues(rows)|, |rows|);
    RatioIsShare(Bad(rows), |rows|);
    hide Count, Filter, BadPlaces, EmptyPlaces, Ratio, IsShare, SortedValues, Values;
  }

  lemma {:induction false} WarningsFollow(r: Report, rows: seq<Row>, policy: Policy)
    requires r.warnings == WarningsOf(rows, policy, r.ks)
    requires !r.ks.available <==> || (forall x | x in rows && x.value.Some? :: x.bad)
                                  || (forall x | x in rows && x.value.Some? :: !x.bad)
    requires r.ks.direction == Undetermined <==> !r.ks.available || r.ks.value == Some(0.0)
    ensures WarnsOf(r, rows, policy)
  {
    ClassesFollow(rows);
    WarningsListed(|rows| < policy.minLabeledSamples, Good(rows) == 0 || Bad(rows) == 0, Values(rows) == [], Bad(rows) == 0,
                   !r.ks.available, r.ks.direction == Undetermined);
    hide Good, Bad, Values;
  }

  lemma {:induction false} WarningsListed(few: bool, oneClass: bool, empty: bool, noBad: bool, noKs: bool, undirected: bool)
    ensures var w := (if few then [InsufficientSample] else []) + (if oneClass then [ClassImbalanceExtreme] else [])
                     + (if empty then [CoverageTooLow] else []) + (if noBad then [OverallBadRateZero] else [])
                     + (if noKs then [KsNotAvailable] else []) + (if undirected then [DirectionUndetermined] else []);
            && (InsufficientSample in w <==> few) && (ClassImbalanceExtreme in w <==> oneClass)
            && (CoverageTooLow in w <==> empty) && (OverallBadRateZero in w <==> noBad)
            && (KsNotAvailable in w <==> noKs) && (DirectionUndetermined in w <==> undirected)
  {
    var rows := (if few then [InsufficientSample] else []) + (if oneClass then [ClassImbalanceExtreme] else [])
                + (if empty then [CoverageTooLow] else []);
    assert (InsufficientSample in rows <==> few) && (ClassImbalanceExtreme in rows <==> oneClass)
           && (CoverageTooLow in rows <==> empty);
  }

  /** Every count, rate and warning of the report follows from the rows as stated. */
  lemma {:induction false} ReportFollowsRows(name: string, rows: seq<Row>, total: nat, policy: Policy, ln: real -> real)
    requires ValidPolicy(policy)
    ensures var r := Evaluate(name, rows, total, policy, ln);
            && r.metricName == name && r.totalSample == total && r.requestedBins == policy.bins
            && r.epsilon == policy.epsilon && CountsRows(r, rows) && WarnsOf(r, rows, policy)
  {
    DirectionNeedsValues(rows, policy, ln);
    KsFollows(rows, policy, ln);
    var r := Evaluate(name, rows, total, policy, ln);
    hide Bins, Ks, Numeric, DistributionOf, Candidates, SumIv, Good, Bad, Values, SortedValues, NullRows, Ratio, WarningsOf,
         CountsRows, WarnsOf;
    CountsFollow(r, rows);
    WarningsFollow(r, rows, policy);
  }
}
