/** Smoothed class shares and the information value built from them. */
module IvLaws {
  import opened Options
  import opened Sorting
  import opened Evaluation
  import opened BinningLaws

  /** The sign law of the natural logarithm; nothing else about it is needed. */
  ghost predicate LnSign(ln: real -> real) {
    forall x | x > 0.0 :: (ln(x) > 0.0 <==> x > 1.0) && (ln(x) == 0.0 <==> x == 1.0)
  }

  function PctOf(bin: Bin, bad: bool): Option<real> { if bad then bin.badPct else bin.goodPct }

  function SumPct(bins: seq<Bin>, i: nat, bad: bool): real
    requires i <= |bins|
  {
    if i == 0 then 0.0
    else SumPct(bins, i - 1, bad) + (match PctOf(bins[i - 1], bad) case Some(share) => share case None => 0.0)
  }

  lemma {:induction false} SignOfProduct(x: real, y: real)
    requires y > 0.0
    ensures x * y > 0.0 <==> x > 0.0
    ensures x * y == 0.0 <==> x == 0.0
  {
  }

  lemma {:induction false} QuotientOrder(a: real, b: real)
    requires a > 0.0 && b > 0.0
    ensures a / b > 0.0
    ensures a / b > 1.0 <==> a > b
    ensures a / b == 1.0 <==> a == b
  {
    var q := a / b;
    assert q * b == a;
    assert (q - 1.0) * b == a - b;
    SignOfProduct(q - 1.0, b);
    SignOfProduct(q, b);
  }

  /** One component of the information value is nonnegative, and zero only for equal shares. */
  lemma {:induction false} ComponentSign(gp: real, bp: real, ln: real -> real)
    requires LnSign(ln) && gp > 0.0 && bp > 0.0
    ensures Component(gp, bp, ln) >= 0.0
    ensures Component(gp, bp, ln) == 0.0 <==> gp == bp
  {
    QuotientOrder(gp, bp);
    var woe := Woe(gp, bp, ln);
    assert gp > bp <==> woe > 0.0;
    assert gp == bp <==> woe == 0.0;
    ProductSign(gp - bp, woe);
  }

  lemma {:induction false} ProductSign(x: real, y: real)
    requires (x > 0.0 <==> y > 0.0) && (x == 0.0 <==> y == 0.0)
    ensures x * y >= 0.0 && (x * y == 0.0 <==> x == 0.0)
  {
  }

  /** `bins` carry their smoothed shares. */
  ghost predicate Smoothed(bins: seq<Bin>, good: nat, bad: nat, epsilon: real, ln: real -> real)
    requires good > 0 && bad > 0 && epsilon > 0.0
  {
    forall i | 0 <= i < |bins| ::
      var gp, bp := Share(bins[i].good, good, |bins|, epsilon), Share(bins[i].bad, bad, |bins|, epsilon);
      bins[i].goodPct == Some(gp) && bins[i].badPct == Some(bp) && bins[i].ivComponent == Some(Component(gp, bp, ln))
  }

  lemma {:induction false} SumSharesUpTo(bins: seq<Bin>, epsilon: real, denominator: real, i: nat, which: bool)
    requires denominator > 0.0 && i <= |bins|
    requires forall j | 0 <= j < |bins| ::
               PctOf(bins[j], which) == Some((ClassOf(bins[j], which) as real + epsilon) / denominator)
    ensures SumPct(bins, i, which) == (CumClass(bins, i, which) as real + epsilon * i as real) / denominator
  {
    if i > 0 {
      SumSharesUpTo(bins, epsilon, denominator, i - 1, which);
      var before, here := CumClass(bins, i - 1, which), ClassOf(bins[i - 1], which);
      assert CumClass(bins, i, which) == before + here;
      assert PctOf(bins[i - 1], which) == Some((here as real + epsilon) / denominator);
      assert SumPct(bins, i, which) == SumPct(bins, i - 1, which) + (here as real + epsilon) / denominator;
      hide CumClass, ClassOf, SumPct, PctOf;
      OneMoreShare(before, here, epsilon, denominator, i);
    }
  }

  lemma {:induction false} OneMoreShare(before: nat, here: nat, epsilon: real, denominator: real, i: nat)
    requires denominator > 0.0 && i > 0
    ensures (before as real + epsilon * (i - 1) as real) / denominator + (here as real + epsilon) / denominator
            == ((before + here) as real + epsilon * i as real) / denominator
  {
    AddQuotients(before as real + epsilon * (i - 1) as real, here as real + epsilon, denominator);
    assert epsilon * (i - 1) as real + epsilon == epsilon * i as real;
  }

  /** What the information value says about the two share vectors. */
  ghost predicate IvDescribes(bins: seq<Bin>) {
    && (forall i | 0 <= i < |bins| ::
          && bins[i].goodPct.Some? && bins[i].goodPct.value > 0.0
          && bins[i].badPct.Some? && bins[i].badPct.value > 0.0
          && bins[i].ivComponent.Some? && bins[i].ivComponent.value >= 0.0)
    && SumPct(bins, |bins|, false) == 1.0 && SumPct(bins, |bins|, true) == 1.0
    && SumIv(bins) >= 0.0
    && (SumIv(bins) == 0.0 <==> forall i | 0 <= i < |bins| :: bins[i].goodPct == bins[i].badPct)
  }

  lemma {:induction false} SumIvSign(bins: seq<Bin>)
    requires forall i | 0 <= i < |bins| :: IvPart(bins[i]) >= 0.0
    ensures SumIv(bins) >= 0.0
    ensures SumIv(bins) == 0.0 <==> forall i | 0 <= i < |bins| :: IvPart(bins[i]) == 0.0
  {
    if bins != [] { SumIvSign(bins[..|bins| - 1]); }
  }

  lemma {:induction false} NotNegative(x: real, n: nat)
    requires x > 0.0
    ensures x * n as real >= 0.0
  {
  }

  lemma {:induction false} SmoothedSums(
      bins: seq<Bin>, good: nat, bad: nat, epsilon: real, ln: real -> real, which: bool)
    requires good > 0 && bad > 0 && epsilon > 0.0 && Smoothed(bins, good, bad, epsilon, ln)
    requires CumClass(bins, |bins|, which) == if which then bad else good
    ensures SumPct(bins, |bins|, which) == 1.0
  {
    var total := (if which then bad else good) as real + epsilon * |bins| as real;
    NotNegative(epsilon, |bins|);
    SharesOf(bins, good, bad, epsilon, ln, which, total);
    hide *;
    SumSharesUpTo(bins, epsilon, total, |bins|, which);
    QuotientOrder(total, total);
  }

  lemma {:induction false} SharesOf(
      bins: seq<Bin>, good: nat, bad: nat, epsilon: real, ln: real -> real, which: bool, total: real)
    requires good > 0 && bad > 0 && epsilon > 0.0 && Smoothed(bins, good, bad, epsilon, ln)
    requires total == (if which then bad else good) as real + epsilon * |bins| as real
    ensures forall j | 0 <= j < |bins| ::
              total != 0.0 && PctOf(bins[j], which) == Some((ClassOf(bins[j], which) as real + epsilon) / total)
  {
    NotNegative(epsilon, |bins|);
    hide Component;
  }

  lemma {:induction false} SmoothedComponents(bins: seq<Bin>, good: nat, bad: nat, epsilon: real, ln: real -> real)
    requires good > 0 && bad > 0 && epsilon > 0.0 && Smoothed(bins, good, bad, epsilon, ln) && LnSign(ln)
    ensures forall i | 0 <= i < |bins| ::
              && bins[i].goodPct.Some? && bins[i].goodPct.value > 0.0
              && bins[i].badPct.Some? && bins[i].badPct.value > 0.0
              && bins[i].ivComponent.Some? && bins[i].ivComponent.value >= 0.0
              && (bins[i].ivComponent.value == 0.0 <==> bins[i].goodPct == bins[i].badPct)
  {
    forall i | 0 <= i < |bins|
      ensures && bins[i].goodPct.Some? && bins[i].goodPct.value > 0.0
              && bins[i].badPct.Some? && bins[i].badPct.value > 0.0
              && bins[i].ivComponent.Some? && bins[i].ivComponent.value >= 0.0
              && (bins[i].ivComponent.value == 0.0 <==> bins[i].goodPct == bins[i].badPct)
    {
      ComponentSign(Share(bins[i].good, good, |bins|, epsilon), Share(bins[i].bad, bad, |bins|, epsilon), ln);
    }
  }

  /** Whenever both classes occur: every smoothed share is positive, the shares of each class
      sum to one over all bins, every component is nonnegative, and the information value is
      nonnegative and zero exactly when the two share vectors coincide. */
  lemma {:induction false} IvMeasuresDivergence(rows: seq<Row>, policy: Policy, ln: real -> real)
    requires ValidPolicy(policy) && LnSign(ln) && Good(rows) > 0 && Bad(rows) > 0
    ensures IvDescribes(Bins(rows, policy, ln))
  {
    var bins := Bins(rows, policy, ln);
    BinsConserveClasses(rows, policy, ln, false);
    BinsConserveClasses(rows, policy, ln, true);
    assert CumClass(bins, |bins|, false) == Good(rows) && CumClass(bins, |bins|, true) == Bad(rows);
    BinsSmoothed(rows, policy, ln);
    hide Bins, Good, Bad, CumClass, ClassSize, IvDescribes, Smoothed;
    SmoothedDescribes(bins, Good(rows), Bad(rows), policy.epsilon, ln);
  }

  lemma {:induction false} BinsSmoothed(rows: seq<Row>, policy: Policy, ln: real -> real)
    requires ValidPolicy(policy) && Good(rows) > 0 && Bad(rows) > 0
    ensures Smoothed(Bins(rows, policy, ln), Good(rows), Bad(rows), policy.epsilon, ln)
  {
    var raw := RawBins(rows, policy);
    SmoothAllSmooths(raw, Good(rows), Bad(rows), policy.epsilon, ln);
  }

  lemma {:induction false} SmoothAllSmooths(raw: seq<Bin>, good: nat, bad: nat, epsilon: real, ln: real -> real)
    requires good > 0 && bad > 0 && epsilon > 0.0
    ensures Smoothed(SmoothAll(raw, good, bad, epsilon, ln), good, bad, epsilon, ln)
  {
    hide Share, Component, Woe;
    var bins := SmoothAll(raw, good, bad, epsilon, ln);
    forall i | 0 <= i < |bins|
      ensures var gp, bp := Share(bins[i].good, good, |bins|, epsilon), Share(bins[i].bad, bad, |bins|, epsilon);
              bins[i].goodPct == Some(gp) && bins[i].badPct == Some(bp) && bins[i].ivComponent == Some(Component(gp, bp, ln))
    {
      assert bins[i] == Smooth(raw[i], good, bad, |raw|, epsilon, ln);
    }
  }

  lemma {:induction false} SmoothedDescribes(bins: seq<Bin>, good: nat, bad: nat, epsilon: real, ln: real -> real)
    requires good > 0 && bad > 0 && epsilon > 0.0 && Smoothed(bins, good, bad, epsilon, ln) && LnSign(ln)
    requires CumClass(bins, |bins|, false) == good && CumClass(bins, |bins|, true) == bad
    ensures IvDescribes(bins)
  {
    SmoothedSums(bins, good, bad, epsilon, ln, false);
    SmoothedSums(bins, good, bad, epsilon, ln, true);
    SmoothedComponents(bins, good, bad, epsilon, ln);
    hide Smoothed, CumClass, Share, Component;
    assert forall i | 0 <= i < |bins| :: IvPart(bins[i]) == bins[i].ivComponent.value;
    SumIvSign(bins);
  }

  lemma {:induction false} ShareOfCount(part: nat, total: nat, bins: nat, epsilon: real)
    requires total > 0 && epsilon > 0.0
    ensures Share(part, total, bins, epsilon) * (total as real + epsilon * bins as real) == part as real + epsilon
  {
    assert epsilon * bins as real >= 0.0;
  }

  /** The weight is the logarithm of the ratio of two shares, and the component their difference times it. */
  ghost predicate Weighs(weight: real, component: real, goodPct: real, badPct: real, ln: real -> real)
    requires badPct > 0.0
  {
    weight == ln(goodPct / badPct) && component == (goodPct - badPct) * weight
  }

  /** The shares of a bin are its own class counts, each raised by epsilon, out of the class totals
      raised alike; its weight of evidence is the logarithm of their ratio, so positive exactly when
      good outweighs bad, and its component is their difference times that weight. */
  ghost predicate SharesRead(b: Bin, rows: seq<Row>, epsilon: real, bins: nat, ln: real -> real) {
    && b.goodPct.Some? && b.badPct.Some? && b.woe.Some? && b.ivComponent.Some? && b.badPct.value > 0.0
    && Weighs(b.woe.value, b.ivComponent.value, b.goodPct.value, b.badPct.value, ln)
    && b.goodPct.value * (Good(rows) as real + epsilon * bins as real) == b.good as real + epsilon
    && b.badPct.value * (Bad(rows) as real + epsilon * bins as real) == b.bad as real + epsilon
    && (b.woe.value > 0.0 <==> b.goodPct.value > b.badPct.value)
    && (b.woe.value == 0.0 <==> b.goodPct.value == b.badPct.value)
  }

  lemma {:induction false} SmoothedReads(raw: Bin, rows: seq<Row>, epsilon: real, bins: nat, ln: real -> real)
    requires LnSign(ln) && Good(rows) > 0 && Bad(rows) > 0 && epsilon > 0.0
    ensures SharesRead(Smooth(raw, Good(rows), Bad(rows), bins, epsilon, ln), rows, epsilon, bins, ln)
  {
    var gp, bp := Share(raw.good, Good(rows), bins, epsilon), Share(raw.bad, Bad(rows), bins, epsilon);
    ShareOfCount(raw.good, Good(rows), bins, epsilon);
    ShareOfCount(raw.bad, Bad(rows), bins, epsilon);
    QuotientOrder(gp, bp);
    WeightOfShares(gp, bp, ln);
    hide Share, Good, Bad, Component, Weighs;
  }

  lemma {:induction false} WeightOfShares(goodPct: real, badPct: real, ln: real -> real)
    requires badPct > 0.0
    ensures Weighs(Woe(goodPct, badPct, ln), Component(goodPct, badPct, ln), goodPct, badPct, ln)
  {
  }

  /** Whenever both classes occur, every bin of the report reads this way. */
  lemma {:induction false} WeightsFavourGood(rows: seq<Row>, policy: Policy, ln: real -> real)
    requires ValidPolicy(policy) && LnSign(ln) && Good(rows) > 0 && Bad(rows) > 0
    ensures var bins := Bins(rows, policy, ln);
            forall i | 0 <= i < |bins| :: SharesRead(bins[i], rows, policy.epsilon, |bins|, ln)
  {
    var raw, bins := RawBins(rows, policy), Bins(rows, policy, ln);
    hide RawBins, Good, Bad, Smooth, SharesRead;
    forall i | 0 <= i < |bins| ensures SharesRead(bins[i], rows, policy.epsilon, |bins|, ln) {
      SmoothedReads(raw[i], rows, policy.epsilon, |raw|, ln);
    }
  }
}
