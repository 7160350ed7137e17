/** The window transformation of refinement candidates (src/airi/refinement/transform.py) and
    the check that it changed nothing but the window. */
module RefinementTransform {
  import opened Documents
  import opened Options
  import opened Numerals

  datatype Error = ManualOnly | UnsupportedMetric | ParameterInvalid | SemanticDiffInvalid

  datatype Change = NameChange(before: string, after: string)
                  | DisplayNameChange(beforeDisplay: Option<string>, afterDisplay: Option<string>)
                  | DescriptionChange(before: string, after: string)
                  | WindowSizeChange(beforeSize: nat, afterSize: nat)

  function NameFor(days: nat): string { "invoice_amount_" + Decimal(days) + "d" }

  function DisplayNameFor(days: nat): string { "近" + Decimal(days) + "天企业开票金额" }

  function DescriptionFor(days: nat): string { "统计企业近" + Decimal(days) + "天开票金额之和" }

  /** `validate_invoice_metric`: the declared enterprise invoice metrics over thirty days. */
  predicate ValidInvoice(m: MetricIr) {
    && m.joins == [] && m.columnFilters == []
    && ((m.name == "invoice_amount_30d" && m.displayName == Some("近30天企业开票金额")
         && m.aggregation == "sum" && m.aggregationField == Some("invoice_amt"))
        || (m.name == "invoice_count_30d" && m.displayName == Some("近30天企业开票次数")
            && m.aggregation == "count" && m.aggregationField == None))
    && m.entityType == Some("enterprise") && m.entityKey == "seller_tax_no" && m.partitionField == Some("dt")
    && m.source == Source(None, "c_db", "source_fp_jdc_view")
    && m.window == Some(Window(30, "day", "invoice_date", "Asia/Shanghai"))
    && m.filters == [] && m.dimensions == []
  }

  function WithSize(m: MetricIr, size: nat): MetricIr
    requires m.window.Some?
  {
    m.(window := Some(m.window.value.(size := size)))
  }

  /** `validate_candidate_metric`: a 60 or 90 day rewrite of a valid thirty day amount metric. */
  predicate ValidCandidate(m: MetricIr) {
    && m.window.Some? && m.window.value.size in {60, 90}
    && m.name == NameFor(m.window.value.size) && m.displayName == Some(DisplayNameFor(m.window.value.size))
    && ValidInvoice(WithSize(m.(name := "invoice_amount_30d", displayName := Some("近30天企业开票金额")), 30))
  }

  /** The candidate with the four rewritable fields taken back from the baseline. */
  function Restore(candidate: MetricIr, baseline: MetricIr): MetricIr
    requires candidate.window.Some? && baseline.window.Some?
  {
    WithSize(candidate.(name := baseline.name, displayName := baseline.displayName, description := baseline.description),
             baseline.window.value.size)
  }

  function Changes(baseline: MetricIr, candidate: MetricIr): seq<Change>
    requires candidate.window.Some? && baseline.window.Some?
  {
    (if baseline.name != candidate.name then [NameChange(baseline.name, candidate.name)] else [])
    + (if baseline.displayName != candidate.displayName
       then [DisplayNameChange(baseline.displayName, candidate.displayName)] else [])
    + (if baseline.description != candidate.description
       then [DescriptionChange(baseline.description, candidate.description)] else [])
    + [WindowSizeChange(baseline.window.value.size, candidate.window.value.size)]
  }

  /** `semantic_diff` for a hash of metric documents. */
  method SemanticDiff(baseline: MetricIr, candidate: MetricIr, hash: MetricIr -> string)
    returns (r: Result<seq<Change>, Error>)
    requires baseline.window.Some? && candidate.window.Some?
    ensures r.Ok? <==> hash(baseline) == hash(Restore(candidate, baseline)) && ValidCandidate(candidate)
    ensures r.Ok? ==> r.value == Changes(baseline, candidate)
    ensures r.Err? ==> r.error == SemanticDiffInvalid
  {
    var before, after := baseline, candidate;
    var changes: seq<Change> := [];
    if before.name != after.name { changes := changes + [NameChange(before.name, after.name)]; }
    if before.displayName != after.displayName {
      changes := changes + [DisplayNameChange(before.displayName, after.displayName)];
    }
    if before.description != after.description {
      changes := changes + [DescriptionChange(before.description, after.description)];
    }
    changes := changes + [WindowSizeChange(before.window.value.size, after.window.value.size)];
    after := after.(name := before.name);
    after := after.(displayName := before.displayName);
    after := after.(description := before.description);
    after := WithSize(after, before.window.value.size);
    if hash(before) != hash(after) { return Err(SemanticDiffInvalid); }
    if !ValidCandidate(candidate) { return Err(SemanticDiffInvalid); }
    r := Ok(changes);
  }

  /** The rewritten document: name, display name, description and window size replaced. */
  function Rewritten(baseline: MetricIr, days: nat): MetricIr
    requires baseline.window.Some?
  {
    WithSize(baseline.(name := NameFor(days), displayName := Some(DisplayNameFor(days)),
                       description := DescriptionFor(days)), days)
  }

  predicate Transformable(baseline: MetricIr, days: nat) {
    baseline.name == "invoice_amount_30d" && ValidInvoice(baseline) && days in {60, 90}
  }

  /** `transform_window`: a transformable baseline always yields its rewritten document, whose
      semantic diff lists every change, and whose restoration is the baseline again; nothing
      else is accepted, and each rejection names its first reason. */
  method TransformWindow(baseline: MetricIr, days: nat, hash: MetricIr -> string)
    returns (r: Result<(MetricIr, seq<Change>), Error>)
    ensures r.Ok? <==> Transformable(baseline, days)
    ensures r.Ok? ==>
              && r.value.0 == Rewritten(baseline, days) && ValidCandidate(r.value.0)
              && Restore(r.value.0, baseline) == baseline
              && r.value.1 == Changes(baseline, r.value.0)
              && NameChange("invoice_amount_30d", NameFor(days)) in r.value.1
              && WindowSizeChange(30, days) in r.value.1
    ensures r == Err(ManualOnly) <==> baseline.name != "invoice_amount_30d"
    ensures r == Err(UnsupportedMetric) <==> baseline.name == "invoice_amount_30d" && !ValidInvoice(baseline)
    ensures r == Err(ParameterInvalid) <==> baseline.name == "invoice_amount_30d" && ValidInvoice(baseline) && days !in {60, 90}
  {
    if baseline.name != "invoice_amount_30d" { return Err(ManualOnly); }
    if !ValidInvoice(baseline) { return Err(UnsupportedMetric); }
    if days != 60 && days != 90 { return Err(ParameterInvalid); }
    var data := baseline;
    data := data.(name := NameFor(days), displayName := Some(DisplayNameFor(days)), description := DescriptionFor(days));
    data := WithSize(data, days);
    CandidateValid(baseline, days);
    var diff := SemanticDiff(baseline, data, hash);
    NamesDiffer(days, 30);
    r := Ok((data, diff.value));
  }

  lemma {:induction false} NamesDiffer(i: nat, j: nat)
    ensures NameFor(i) == NameFor(j) <==> i == j
    ensures NameFor(30) == "invoice_amount_30d" && DisplayNameFor(30) == "近30天企业开票金额"
  {
    if NameFor(i) == NameFor(j) {
      assert NameFor(i)[15..|NameFor(i)| - 1] == Decimal(i);
      assert NameFor(j)[15..|NameFor(j)| - 1] == Decimal(j);
      DecimalInjective(i, j);
    }
    assert Decimal(3) == "3";
    assert Decimal(30) == "30";
  }

  lemma {:induction false} CandidateValid(baseline: MetricIr, days: nat)
    requires Transformable(baseline, days)
    ensures ValidCandidate(Rewritten(baseline, days)) && Restore(Rewritten(baseline, days), baseline) == baseline
  {
  }

  /** A document without its free parts: schema version, description and aliases. */
  function Fixed(m: MetricIr): MetricIr {
    m.(schemaVersion := "", description := "", sourceAlias := None, aggregationAlias := None)
  }

  /** The declared amount metric, for a window of the given size under the given names. */
  function AmountOver(name: string, displayName: string, size: nat): MetricIr {
    MetricIr("", name, Some(displayName), "", Some("enterprise"), "seller_tax_no", Some("dt"),
             Source(None, "c_db", "source_fp_jdc_view"), "sum", Some("invoice_amt"), [], [],
             Some(Window(size, "day", "invoice_date", "Asia/Shanghai")), None, None, [], [])
  }

  /** Up to the free parts there are two invoice metrics, amount and count over thirty days, and two
      candidates, the amount over sixty and over ninety. A transformable baseline is the amount metric,
      and its rewrite the candidate of that size, described accordingly. */
  lemma {:induction false} DeclaredDocuments(m: MetricIr, days: nat)
    ensures var amount := AmountOver("invoice_amount_30d", "近30天企业开票金额", 30);
            var count := amount.(name := "invoice_count_30d", displayName := Some("近30天企业开票次数"),
                                 aggregation := "count", aggregationField := None);
            && (ValidInvoice(m) <==> Fixed(m) == amount || Fixed(m) == count)
            && (Transformable(m, days) <==> Fixed(m) == amount && (days == 60 || days == 90))
    ensures var sixty := AmountOver("invoice_amount_60d", "近60天企业开票金额", 60);
            var ninety := AmountOver("invoice_amount_90d", "近90天企业开票金额", 90);
            && (ValidCandidate(m) <==> Fixed(m) == sixty || Fixed(m) == ninety)
            && (Transformable(m, 60) ==>
                  Fixed(Rewritten(m, 60)) == sixty && Rewritten(m, 60).description == "统计企业近60天开票金额之和")
            && (Transformable(m, 90) ==>
                  Fixed(Rewritten(m, 90)) == ninety && Rewritten(m, 90).description == "统计企业近90天开票金额之和")
  {
    NamesSpelled();
    hide NameFor, DisplayNameFor, DescriptionFor;
  }

  lemma {:induction false} NamesSpelled()
    ensures NameFor(60) == "invoice_amount_60d" && NameFor(90) == "invoice_amount_90d"
    ensures DisplayNameFor(60) == "近60天企业开票金额" && DisplayNameFor(90) == "近90天企业开票金额"
    ensures DescriptionFor(60) == "统计企业近60天开票金额之和" && DescriptionFor(90) == "统计企业近90天开票金额之和"
  {
    assert Decimal(6) == "6" && Decimal(9) == "9";
    assert Decimal(60) == "60" && Decimal(90) == "90";
  }

  ghost predicate Injective(hash: MetricIr -> string) {
    forall a, b :: hash(a) == hash(b) ==> a == b
  }

  /** What the diff check proves, for an injective hash: a stored document passes it for a
      thirty-day amount baseline exactly when it is the transform of that baseline to its own
      window, up to the free-text description. */
  lemma {:induction false} DiffAcceptsExactlyRewrites(baseline: MetricIr, candidate: MetricIr, hash: MetricIr -> string)
    requires Injective(hash) && ValidInvoice(baseline) && baseline.name == "invoice_amount_30d"
    requires candidate.window.Some?
    ensures hash(baseline) == hash(Restore(candidate, baseline)) && ValidCandidate(candidate)
            <==> candidate.window.value.size in {60, 90}
                 && candidate == Rewritten(baseline, candidate.window.value.size).(description := candidate.description)
  {
    var days := candidate.window.value.size;
    hide NameFor, DisplayNameFor, DescriptionFor;
    if hash(baseline) == hash(Restore(candidate, baseline)) && ValidCandidate(candidate) {
      assert Restore(candidate, baseline) == baseline;
    }
    if days in {60, 90} && candidate == Rewritten(baseline, days).(description := candidate.description) {
      assert Restore(candidate, baseline) == baseline;
    }
  }
}
