/** The documented imperfection of the relationship fixture: for which numbers of enterprises no
    threshold on its own metric separates the labels it ships. */
module FixtureEvaluation {
  import opened Options
  import opened Sorting
  import opened Evaluation
  import opened BinningLaws
  import KsLaws
  import RelationFixture

  /** Labeled entities joined with the query result; an entity without a result row has no value. */
  function EvaluationRows(labeled: seq<RelationFixture.LabeledRow>, result: map<string, nat>): seq<Row> {
    if labeled == [] then []
    else
      var last := labeled[|labeled| - 1];
      EvaluationRows(labeled[..|labeled| - 1], result)
      + [Row(if last.enterpriseId in result then Some(result[last.enterpriseId] as real) else None, last.badFlag == 1)]
  }

  /** The labeled enterprises of the fixture and its query result. */
  function Labeled(n: nat): seq<RelationFixture.LabeledRow> {
    RelationFixture.LabeledUpTo(n)
    + [RelationFixture.LabeledRow(RelationFixture.ISOLATED_ENTERPRISE, 0, RelationFixture.RELATION_PARTITION)]
  }

  function Result(n: nat): map<string, nat> {
    RelationFixture.QueryResult(RelationFixture.Base(n), RelationFixture.Joined(n, n))
  }

  function FixtureRows(n: nat): seq<Row> {
    EvaluationRows(Labeled(n), Result(n))
  }

  lemma {:induction false} EvaluationRowsMember(
      labeled: seq<RelationFixture.LabeledRow>, result: map<string, nat>, k: nat)
    requires k < |labeled|
    ensures Row(if labeled[k].enterpriseId in result then Some(result[labeled[k].enterpriseId] as real) else None,
                labeled[k].badFlag == 1) in EvaluationRows(labeled, result)
  {
    if k < |labeled| - 1 { EvaluationRowsMember(labeled[..|labeled| - 1], result, k); }
  }

  lemma {:induction false} LabeledAt(m: nat, i: nat)
    requires 1 <= i <= m
    ensures |RelationFixture.LabeledUpTo(m)| == m
    ensures RelationFixture.LabeledUpTo(m)[i - 1] == RelationFixture.LabeledOf(i)
  {
    if i < m { LabeledAt(m - 1, i); } else if m > 1 { LabeledAt(m - 1, 1); }
  }

  lemma {:induction false} EvaluationRowsOrigin(
      labeled: seq<RelationFixture.LabeledRow>, result: map<string, nat>, r: Row) returns (k: nat)
    requires r in EvaluationRows(labeled, result)
    ensures k < |labeled|
    ensures r == Row(if labeled[k].enterpriseId in result then Some(result[labeled[k].enterpriseId] as real) else None,
                     labeled[k].badFlag == 1)
  {
    var front := labeled[..|labeled| - 1];
    if r in EvaluationRows(front, result) {
      k := EvaluationRowsOrigin(front, result, r);
    } else {
      k := |labeled| - 1;
    }
  }

  /** How many enterprises the relations of enterprise `i` reach. */
  function Reached(n: nat, i: nat): nat {
    |RelationFixture.Related(RelationFixture.Base(n), RelationFixture.Joined(n, n), RelationFixture.EnterpriseId(i))|
  }

  /** An enterprise with relations is evaluated at the number it reaches. */
  lemma {:induction false} FixtureRowOf(n: nat, i: nat)
    requires 1 <= i <= n && Reached(n, i) > 0
    ensures Row(Some(Reached(n, i) as real), RelationFixture.IsBad(i)) in FixtureRows(n)
  {
    hide RelationFixture.QueryResult, RelationFixture.Base, RelationFixture.Joined, RelationFixture.EnterpriseId,
         RelationFixture.Related, RelationFixture.IsBad;
    LabeledAt(n, i);
    RelationFixture.RelatedIsListed(n, i);
    assert Labeled(n)[i - 1] == RelationFixture.LabeledOf(i);
    EvaluationRowsMember(Labeled(n), Result(n), i - 1);
  }

  /** Every row is that of the isolated enterprise, which is good, or of a numbered one. */
  lemma {:induction false} FixtureRowOrigin(n: nat, r: Row) returns (i: nat)
    requires r in FixtureRows(n)
    ensures i == 0 ==> !r.bad && (r.value.Some? ==> RelationFixture.ISOLATED_ENTERPRISE in Result(n))
    ensures i > 0 ==> i <= n && r.bad == RelationFixture.IsBad(i)
    ensures i > 0 ==> (r.value.Some? <==> RelationFixture.EnterpriseId(i) in Result(n))
    ensures i > 0 && r.value.Some? ==> r.value.value == Result(n)[RelationFixture.EnterpriseId(i)] as real
  {
    hide RelationFixture.QueryResult, RelationFixture.Base, RelationFixture.Joined, RelationFixture.EnterpriseId,
         RelationFixture.IsBad;
    var k := EvaluationRowsOrigin(Labeled(n), Result(n), r);
    LabeledCount(n);
    i := if k < n then k + 1 else 0;
    if k < n { LabeledAt(n, i); }
  }

  lemma {:induction false} LabeledCount(m: nat)
    ensures |RelationFixture.LabeledUpTo(m)| == m
  {
    if m > 0 { LabeledAt(m, m); }
  }

  ghost predicate Separable(rows: seq<Row>) {
    exists t, atLeast :: KsLaws.Separates(rows, t, atLeast)
  }

  /** A good and a bad row of one value cannot be told apart by any threshold. */
  lemma {:induction false} TiesInseparable(rows: seq<Row>, value: real)
    requires Row(Some(value), false) in rows && Row(Some(value), true) in rows
    ensures !Separable(rows)
  {
    forall t, atLeast ensures !KsLaws.Separates(rows, t, atLeast) {
      assert Hits(t, atLeast, Row(Some(value), false).value) == Hits(t, atLeast, Row(Some(value), true).value);
    }
  }

  lemma {:induction false} AboveAll(rows: seq<Row>) returns (t: real)
    ensures forall r | r in rows && r.value.Some? :: r.value.value < t
  {
    t := 0.0;
    if rows != [] {
      t := AboveAll(rows[1..]);
      if rows[0].value.Some? && rows[0].value.value >= t { t := rows[0].value.value + 1.0; }
      assert rows == [rows[0]] + rows[1..];
    }
  }

  /** Without a bad row, a threshold above all values separates. */
  lemma {:induction false} AllGoodSeparable(rows: seq<Row>)
    requires forall r | r in rows :: !r.bad
    ensures Separable(rows)
  {
    var t := AboveAll(rows);
    assert KsLaws.Separates(rows, t, true);
  }

  /** The smallest enterprises: the third is good, the fourth and the eighth are bad. */
  lemma {:induction false} SmallLabels(i: nat)
    requires 1 <= i <= 8
    ensures RelationFixture.IsBad(i) <==> i == 4 || i == 8
    ensures RelationFixture.Expected(i) == if i < 5 then i else i - 5
  {
  }

  lemma {:induction false} FewAreGood(n: nat, r: Row)
    requires n <= 3 && r in FixtureRows(n)
    ensures !r.bad
  {
    hide FixtureRows, Result, RelationFixture.IsBad;
    var i := FixtureRowOrigin(n, r);
    if i > 0 { SmallLabels(i); }
  }

  /** With five to seven enterprises the only bad one reaches four others, and no other does. */
  lemma {:induction false} FourSeparates(n: nat, r: Row)
    requires 5 <= n <= 7 && r in FixtureRows(n) && r.value.Some?
    ensures r.bad <==> r.value.value >= 4.0
  {
    hide FixtureRows, RelationFixture.IsBad, RelationFixture.Expected, RelationFixture.QueryResult,
         RelationFixture.Base, RelationFixture.Joined, RelationFixture.EnterpriseId;
    var i := FixtureRowOrigin(n, r);
    RelationFixture.QueryMeetsContract(n);
    if i > 0 { SmallLabels(i); }
  }

  /** Enterprises three and four of four both reach three others: the last falls short. */
  lemma {:induction false} FourTie()
    ensures !Separable(FixtureRows(4))
  {
    SmallLabels(3);
    SmallLabels(4);
    RelationFixture.CountUnlessWrapped(4, 3);
    RelationFixture.CountFallsShort(4);
    hide FixtureRows, Separable, RelationFixture.IsBad, RelationFixture.Expected, RelationFixture.Related,
         RelationFixture.Base, RelationFixture.Joined, RelationFixture.EnterpriseId;
    FixtureRowOf(4, 3);
    FixtureRowOf(4, 4);
    TiesInseparable(FixtureRows(4), 3.0);
  }

  /** Enterprises three and eight both reach three others. */
  lemma {:induction false} EightTie(n: nat)
    requires n >= 8
    ensures !Separable(FixtureRows(n))
  {
    SmallLabels(3);
    SmallLabels(8);
    RelationFixture.CountIsExpected(n, 3);
    RelationFixture.CountIsExpected(n, 8);
    hide FixtureRows, Separable, RelationFixture.IsBad, RelationFixture.Expected, RelationFixture.Related,
         RelationFixture.Base, RelationFixture.Joined, RelationFixture.EnterpriseId;
    FixtureRowOf(n, 3);
    FixtureRowOf(n, 8);
    TiesInseparable(FixtureRows(n), 3.0);
  }

  /** Some threshold classifies the labeled fixture perfectly exactly if it has at most three, or five
      to seven, enterprises. */
  lemma {:induction false} FixtureSeparatesExactly(n: nat)
    ensures Separable(FixtureRows(n)) <==> n <= 3 || 5 <= n <= 7
  {
    hide FixtureRows, Separable;
    if n <= 3 {
      forall r | r in FixtureRows(n) ensures !r.bad { FewAreGood(n, r); }
      AllGoodSeparable(FixtureRows(n));
    } else if n == 4 {
      FourTie();
    } else if n < 8 {
      forall r | r in FixtureRows(n) && r.value.Some? ensures r.bad <==> r.value.value >= 4.0 { FourSeparates(n, r); }
      FourthRowSeparates(FixtureRows(n));
    } else {
      EightTie(n);
    }
  }

  lemma {:induction false} FourthRowSeparates(rows: seq<Row>)
    requires forall r | r in rows && r.value.Some? :: r.bad <==> r.value.value >= 4.0
    ensures Separable(rows)
  {
    assert KsLaws.Separates(rows, 4.0, true);
  }

  lemma {:induction false} ContractHolds(n: nat)
    requires 5 <= n < 9000
    ensures RelationFixture.ClosedForm(n) && RelationFixture.ISOLATED_ENTERPRISE !in Result(n)
  {
    hide RelationFixture.ClosedForm, RelationFixture.QueryResult, RelationFixture.Base, RelationFixture.Joined,
         RelationFixture.EnterpriseId;
    RelationFixture.ClosedFormExactly(n);
    RelationFixture.QueryMeetsContract(n);
  }

  /** The shipped fixture meets its contract, and no policy makes the calculator report a KS of one
      for it; for another number of enterprises only five to seven can be reported so. */
  lemma {:induction false} FixtureKsBelowOne(n: nat, policy: Policy, ln: real -> real)
    requires ValidPolicy(policy)
    ensures Ks(Numeric(Bins(FixtureRows(n), policy, ln))).value == Some(1.0) ==> 5 <= n <= 7
    ensures var shipped := RelationFixture.ENTERPRISES;
            && RelationFixture.ClosedForm(shipped) && RelationFixture.ISOLATED_ENTERPRISE !in Result(shipped)
            && Ks(Numeric(Bins(FixtureRows(shipped), policy, ln))).value != Some(1.0)
  {
    hide FixtureRows, Ks, Numeric, Bins, Result, RelationFixture.ClosedForm;
    ContractHolds(RelationFixture.ENTERPRISES);
    KsOneNeedsBad(n, policy, ln);
    KsOneNeedsBad(RelationFixture.ENTERPRISES, policy, ln);
  }

  /** A KS of one takes a separating threshold and a bad row. */
  lemma {:induction false} UnitKsMeans(rows: seq<Row>, policy: Policy, ln: real -> real)
    requires ValidPolicy(policy) && Ks(Numeric(Bins(rows, policy, ln))).value == Some(1.0)
    ensures Separable(rows) && exists r :: r in rows && r.bad
  {
    KsLaws.KsIsOneIffSeparable(rows, policy, ln);
    KsLaws.KsRealisedOnRows(rows, policy, ln);
    hide Ks, Numeric, Bins, KsLaws.Separates, KsLaws.IsEdge, KsLaws.Separation, Count;
    assert KsLaws.Valued(rows, true) != 0;
    CountZero(HasValue(true), rows);
  }

  lemma {:induction false} KsOneNeedsBad(n: nat, policy: Policy, ln: real -> real)
    requires ValidPolicy(policy)
    ensures Ks(Numeric(Bins(FixtureRows(n), policy, ln))).value == Some(1.0) ==> 5 <= n <= 7
  {
    hide FixtureRows, Ks, Numeric, Bins, Separable;
    if Ks(Numeric(Bins(FixtureRows(n), policy, ln))).value == Some(1.0) {
      UnitKsMeans(FixtureRows(n), policy, ln);
      FixtureSeparatesExactly(n);
      if n <= 3 {
        var r :| r in FixtureRows(n) && r.bad;
        FewAreGood(n, r);
      }
    }
  }
}
