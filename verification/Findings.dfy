/** Monitoring findings (src/airi/production/monitoring.py): what one snapshot raises, and the
    merge that makes one snapshot count as one occurrence. */
module Findings {
  import opened Options
  import opened Sorting

  /** In the fixed evaluation order. */
  datatype Kind =
    | ExecutionFailure | LatencyDegradation | CoverageDrop | NullRateIncrease
    | DuplicateIncrease | PopulationShift | MissingMonitoringData

  datatype Severity = Info | Warning | Critical

  datatype Evidence = Measured(value: real, threshold: real) | Reason(reason: string) | Reasons(items: seq<Evidence>)

  datatype Finding = Finding(kind: Kind, severity: Severity, evidence: Evidence)

  datatype Key = Key(kind: Kind, severity: Severity)

  const FINDING_ORDER: seq<Kind> := [
    ExecutionFailure, LatencyDegradation, CoverageDrop, NullRateIncrease,
    DuplicateIncrease, PopulationShift, MissingMonitoringData]

  function Position(kind: Kind): (position: nat)
    ensures position < 7 && FINDING_ORDER[position] == kind
  {
    match kind
    case ExecutionFailure => 0 case LatencyDegradation => 1 case CoverageDrop => 2 case NullRateIncrease => 3
    case DuplicateIncrease => 4 case PopulationShift => 5 case MissingMonitoringData => 6
  }

  predicate InOrder(a: Finding, b: Finding) { Position(a.kind) <= Position(b.kind) }

  function KeyOf(f: Finding): Key { Key(f.kind, f.severity) }

  function HasKey(key: Key): Finding -> bool { (f: Finding) => KeyOf(f) == key }

  // ------------------------------------------------------------ merging

  /** Keys in the order of their first finding. */
  function Keys(findings: seq<Finding>): seq<Key> {
    if findings == [] then []
    else
      var before := Keys(findings[..|findings| - 1]);
      var key := KeyOf(findings[|findings| - 1]);
      if key in before then before else before + [key]
  }

  function EvidenceOf(findings: seq<Finding>): seq<Evidence> {
    if findings == [] then [] else [findings[0].evidence] + EvidenceOf(findings[1..])
  }

  /** One finding for a group of the same key: itself when alone, and otherwise all the evidence. */
  function Merged(key: Key, group: seq<Finding>): Finding {
    if |group| == 1 then group[0] else Finding(key.kind, key.severity, Reasons(EvidenceOf(group)))
  }

  function Groups(findings: seq<Finding>): seq<Finding> {
    seq(|Keys(findings)|, (i: nat) requires i < |Keys(findings)| =>
      Merged(Keys(findings)[i], Filter(HasKey(Keys(findings)[i]), findings)))
  }

  function Merge(findings: seq<Finding>): seq<Finding> { SortBy(InOrder, Groups(findings)) }

  lemma {:induction false} KeysOfNext(findings: seq<Finding>, item: Finding)
    ensures Keys(findings + [item])
            == if Filter(HasKey(KeyOf(item)), findings) == [] then Keys(findings) + [KeyOf(item)] else Keys(findings)
    ensures forall k :: Filter(HasKey(k), findings + [item])
                        == Filter(HasKey(k), findings) + (if k == KeyOf(item) then [item] else [])
  {
    assert (findings + [item])[..|findings + [item]| - 1] == findings;
    KeysExact(findings);
    forall k ensures Filter(HasKey(k), findings + [item])
                     == Filter(HasKey(k), findings) + (if k == KeyOf(item) then [item] else [])
    {
      FilterAppend(HasKey(k), findings, [item]);
    }
  }

  /** The groups so far: every key that occurs, with its findings in order. */
  ghost predicate GroupedBy(grouped: map<Key, seq<Finding>>, findings: seq<Finding>) {
    forall k :: if k in grouped then grouped[k] == Filter(HasKey(k), findings) != [] else Filter(HasKey(k), findings) == []
  }

  lemma {:induction false} GroupedNext(grouped: map<Key, seq<Finding>>, findings: seq<Finding>, item: Finding)
    requires GroupedBy(grouped, findings)
    ensures var key := KeyOf(item);
            && (key in grouped <==> Filter(HasKey(key), findings) != [])
            && GroupedBy(grouped[key := (if key in grouped then grouped[key] else []) + [item]], findings + [item])
  {
    KeysOfNext(findings, item);
    hide HasKey, Filter, Keys, KeyOf;
  }

  lemma {:induction false} GroupsFound(grouped: map<Key, seq<Finding>>, findings: seq<Finding>)
    requires GroupedBy(grouped, findings) && forall k | k in Keys(findings) :: Filter(HasKey(k), findings) != []
    ensures forall k | k in Keys(findings) :: k in grouped && grouped[k] == Filter(HasKey(k), findings)
  {
    hide HasKey, Filter, Keys;
  }

  /** The findings of each key in their order, and the keys in insertion order. */
  method GroupByKey(findings: seq<Finding>) returns (keys: seq<Key>, grouped: map<Key, seq<Finding>>)
    ensures keys == Keys(findings)
    ensures forall k | k in keys :: k in grouped && grouped[k] == Filter(HasKey(k), findings)
  {
    grouped, keys := map[], [];
    assert GroupedBy(grouped, findings[..0]) && keys == Keys(findings[..0]);
    KeysExact(findings);
    hide *;
    for i := 0 to |findings|
      invariant keys == Keys(findings[..i]) && GroupedBy(grouped, findings[..i])
    {
      var item := findings[i];
      var key := KeyOf(item);
      assert findings[..i + 1] == findings[..i] + [item];
      KeysOfNext(findings[..i], item);
      GroupedNext(grouped, findings[..i], item);
      if key !in grouped { keys := keys + [key]; }
      grouped := grouped[key := (if key in grouped then grouped[key] else []) + [item]];
    }
    assert findings[..|findings|] == findings;
    GroupsFound(grouped, findings);
  }

  method MergeByKey(findings: seq<Finding>) returns (merged: seq<Finding>)
    ensures merged == Merge(findings)
  {
    var keys, grouped := GroupByKey(findings);
    merged := [];
    hide Keys, HasKey, Filter, EvidenceOf;
    assert |Groups(findings)| == |keys|;
    for i := 0 to |keys|
      invariant merged == Groups(findings)[..i]
    {
      GroupAt(findings, i);
      hide Groups, Merged;
      var items := grouped[keys[i]];
      merged := merged + [if |items| == 1 then items[0]
                          else Finding(keys[i].kind, keys[i].severity, Reasons(EvidenceOf(items)))];
    }
    assert merged == Groups(findings);
    merged := SortBy(InOrder, merged);
  }

  lemma {:induction false} GroupAt(findings: seq<Finding>, i: nat)
    requires i < |Keys(findings)|
    ensures var key := Keys(findings)[i];
            var group := Filter(HasKey(key), findings);
            && |Groups(findings)| == |Keys(findings)| && Groups(findings)[..i + 1] == Groups(findings)[..i] + [Groups(findings)[i]]
            && Groups(findings)[i]
               == (if |group| == 1 then group[0] else Finding(key.kind, key.severity, Reasons(EvidenceOf(group))))
  {
    hide Keys, HasKey, Filter, EvidenceOf;
  }

  lemma {:induction false} KeysExact(findings: seq<Finding>)
    ensures forall k :: k in Keys(findings) <==> Filter(HasKey(k), findings) != []
    ensures forall i, j | 0 <= i < j < |Keys(findings)| :: Keys(findings)[i] != Keys(findings)[j]
  {
    if findings != [] {
      var prefix, last := findings[..|findings| - 1], findings[|findings| - 1];
      KeysExact(prefix);
      assert findings == prefix + [last];
      forall k ensures k in Keys(findings) <==> Filter(HasKey(k), findings) != [] {
        FilterAppend(HasKey(k), prefix, [last]);
      }
    }
  }

  lemma {:induction false} GroupKey(findings: seq<Finding>, i: nat)
    requires i < |Keys(findings)|
    ensures KeyOf(Groups(findings)[i]) == Keys(findings)[i]
  {
    KeysExact(findings);
    var key := Keys(findings)[i];
    var group := Filter(HasKey(key), findings);
    assert key in Keys(findings);
    assert group[0] in group;
  }

  lemma {:induction false} InOrderOrder()
    ensures TotalPreorder(InOrder)
  {
  }

  ghost predicate Covers(findings: seq<Finding>, merged: seq<Finding>) {
    forall f | f in findings :: exists g :: g in merged && KeyOf(g) == KeyOf(f)
  }

  lemma {:induction false} GroupsCover(findings: seq<Finding>)
    ensures |Groups(findings)| == |Keys(findings)|
    ensures forall i | 0 <= i < |Keys(findings)| :: KeyOf(Groups(findings)[i]) == Keys(findings)[i]
    ensures Covers(findings, Groups(findings)) && Covers(Groups(findings), findings)
  {
    var groups, keys := Groups(findings), Keys(findings);
    KeysExact(findings);
    forall i | 0 <= i < |keys| ensures KeyOf(groups[i]) == keys[i] { GroupKey(findings, i); }
    hide Keys, Groups, Merged;
    forall f | f in findings ensures exists g :: g in groups && KeyOf(g) == KeyOf(f) {
      assert f in Filter(HasKey(KeyOf(f)), findings);
      var i :| 0 <= i < |keys| && keys[i] == KeyOf(f);
      assert groups[i] in groups;
    }
    forall g | g in groups ensures exists f :: f in findings && KeyOf(f) == KeyOf(g) {
      var i :| 0 <= i < |groups| && groups[i] == g;
      assert keys[i] in keys;
      var group := Filter(HasKey(keys[i]), findings);
      assert group[0] in group;
    }
  }

  /** Exactly one merged finding for each type and severity that occurs, and none for others. */
  lemma {:induction false} OnePerKey(findings: seq<Finding>)
    ensures forall i, j | 0 <= i < j < |Merge(findings)| :: KeyOf(Merge(findings)[i]) != KeyOf(Merge(findings)[j])
    ensures Covers(findings, Merge(findings)) && Covers(Merge(findings), findings)
  {
    var m, groups := Merge(findings), Groups(findings);
    InOrderOrder();
    SortedPermutation(InOrder, groups);
    SameElements(m, groups);
    KeysExact(findings);
    GroupsCover(findings);
    hide Merge, Groups, Keys;
    DistinctKeysPermute(groups, m);
  }

  /** Findings with pairwise different keys keep them so under permutation. */
  lemma {:induction false} DistinctKeysPermute(s: seq<Finding>, t: seq<Finding>)
    requires multiset(s) == multiset(t)
    requires forall i, j | 0 <= i < j < |s| :: KeyOf(s[i]) != KeyOf(s[j])
    ensures forall i, j | 0 <= i < j < |t| :: KeyOf(t[i]) != KeyOf(t[j])
  {
    forall i, j | 0 <= i < j < |t| ensures KeyOf(t[i]) != KeyOf(t[j]) {
      var key := KeyOf(t[i]);
      CountIgnoresOrder(HasKey(key), s, t);
      DistinctCount(s, key);
      if KeyOf(t[j]) == key { TwiceCounted(t, key, i, j); }
    }
  }

  lemma {:induction false} DistinctCount(s: seq<Finding>, key: Key)
    requires forall i, j | 0 <= i < j < |s| :: KeyOf(s[i]) != KeyOf(s[j])
    ensures Count(HasKey(key), s) <= 1
  {
    if s != [] {
      DistinctCount(s[1..], key);
      if KeyOf(s[0]) == key {
        forall x | x in s[1..] ensures !HasKey(key)(x) {
          var i :| 0 <= i < |s[1..]| && s[1..][i] == x;
          assert s[i + 1] == x;
        }
        CountZero(HasKey(key), s[1..]);
      }
    }
  }

  lemma {:induction false} TwiceCounted(s: seq<Finding>, key: Key, i: nat, j: nat)
    requires i < j < |s| && KeyOf(s[i]) == key == KeyOf(s[j])
    ensures Count(HasKey(key), s) >= 2
  {
    if i > 0 {
      TwiceCounted(s[1..], key, i - 1, j - 1);
    } else {
      assert s[1..][j - 1] == s[j];
      CountZero(HasKey(key), s[1..]);
      assert s[j] in s[1..];
    }
  }

  /** No evidence is lost, added or reordered: the merged finding of a key carries the evidence of
      all its findings, in their order. */
  lemma {:induction false} EvidencePreserved(findings: seq<Finding>, g: Finding)
    requires g in Merge(findings)
    ensures var group := Filter(HasKey(KeyOf(g)), findings);
            && group != []
            && (if |group| == 1 then g == group[0] else g.evidence == Reasons(EvidenceOf(group)))
            && |EvidenceOf(group)| == |group| && forall i | 0 <= i < |group| :: EvidenceOf(group)[i] == group[i].evidence
  {
    var groups, keys := Groups(findings), Keys(findings);
    InOrderOrder();
    SortedPermutation(InOrder, groups);
    SameElements(Merge(findings), groups);
    KeysExact(findings);
    var i :| 0 <= i < |groups| && groups[i] == g;
    GroupKey(findings, i);
    assert keys[i] in keys;
    EvidenceAt(Filter(HasKey(KeyOf(g)), findings));
  }

  lemma {:induction false} EvidenceAt(group: seq<Finding>)
    ensures |EvidenceOf(group)| == |group|
    ensures forall i | 0 <= i < |group| :: EvidenceOf(group)[i] == group[i].evidence
  {
    if group != [] { EvidenceAt(group[1..]); }
  }

  function OfKind(kind: Kind): Finding -> bool { (f: Finding) => f.kind == kind }

  /** Merged findings follow the evaluation order; severities of one type stay in the order in
      which they first occurred. */
  lemma {:induction false} MergeOrdered(findings: seq<Finding>, kind: Kind)
    ensures Ordered(InOrder, Merge(findings))
    ensures Filter(OfKind(kind), Merge(findings)) == Filter(OfKind(kind), Groups(findings))
  {
    InOrderOrder();
    SortedPermutation(InOrder, Groups(findings));
    SortStable(InOrder, OfKind(kind), Groups(findings));
  }

  /** Merging what is already merged changes nothing. */
  lemma {:induction false} MergeIdempotent(findings: seq<Finding>)
    ensures Merge(Merge(findings)) == Merge(findings)
  {
    var m := Merge(findings);
    OnePerKey(findings);
    MergeOrdered(findings, ExecutionFailure);
    DistinctGroups(m);
    SortOfOrdered(m);
  }

  lemma {:induction false} DistinctGroups(m: seq<Finding>)
    requires forall i, j | 0 <= i < j < |m| :: KeyOf(m[i]) != KeyOf(m[j])
    ensures Groups(m) == m
  {
    DistinctKeys(m);
    forall i | 0 <= i < |m| ensures Groups(m)[i] == m[i] {
      DistinctFilter(m, i);
    }
  }

  lemma {:induction false} DistinctKeys(m: seq<Finding>)
    requires forall i, j | 0 <= i < j < |m| :: KeyOf(m[i]) != KeyOf(m[j])
    ensures |Keys(m)| == |m| && forall i | 0 <= i < |m| :: Keys(m)[i] == KeyOf(m[i])
  {
    if m != [] {
      var prefix := m[..|m| - 1];
      assert forall i | 0 <= i < |prefix| :: prefix[i] == m[i];
      DistinctKeys(prefix);
      assert KeyOf(m[|m| - 1]) !in Keys(prefix);
    }
  }

  lemma {:induction false} DistinctFilter(m: seq<Finding>, i: nat)
    requires i < |m| && forall i, j | 0 <= i < j < |m| :: KeyOf(m[i]) != KeyOf(m[j])
    ensures Filter(HasKey(KeyOf(m[i])), m) == [m[i]]
  {
    var p := HasKey(KeyOf(m[i]));
    assert m == m[..i] + ([m[i]] + m[i + 1..]);
    FilterAppend(p, m[..i], [m[i]] + m[i + 1..]);
    FilterAppend(p, [m[i]], m[i + 1..]);
    NoneFiltered(p, m[..i]);
    NoneFiltered(p, m[i + 1..]);
  }

  lemma {:induction false} NoneFiltered(p: Finding -> bool, s: seq<Finding>)
    requires forall k | 0 <= k < |s| :: !p(s[k])
    ensures Filter(p, s) == []
  {
    if s != [] { NoneFiltered(p, s[1..]); }
  }

  lemma {:induction false} SortOfOrdered(s: seq<Finding>)
    requires Ordered(InOrder, s)
    ensures SortBy(InOrder, s) == s
  {
    if s != [] {
      SortOfOrdered(s[1..]);
      if |s| > 1 { assert InOrder(s[0], s[1]); }
    }
  }

  /** With an injective hash, one snapshot contributes to each alert at most once. */
  lemma {:induction false} AlertsCountedOnce(findings: seq<Finding>, deployment: string, hash: (string, Key) -> string)
    requires forall d1, k1, d2, k2 | hash(d1, k1) == hash(d2, k2) :: d1 == d2 && k1 == k2
    ensures var m := Merge(findings);
            forall i, j | 0 <= i < j < |m| :: hash(deployment, KeyOf(m[i])) != hash(deployment, KeyOf(m[j]))
  {
    OnePerKey(findings);
  }

  // ------------------------------------------------------------ one snapshot

  datatype Freshness = Fresh | Stale | Late
  datatype PsiStatus = PsiAvailable | PsiNotAvailable | PsiBaselineMismatch

  datatype Snapshot = Snapshot(
    succeeded: bool, duration: real, coverage: Option<real>, nullRate: Option<real>, duplicateRate: Option<real>,
    psi: Option<real>, psiStatus: PsiStatus, freshness: Freshness, lagHours: real, observedAt: real)

  datatype Baseline = Baseline(coverage: Option<real>, nullRate: Option<real>)

  datatype Policy = Policy(
    maxFailureRate: real, latencyAbove: real, coverageDrop: real, nullRateIncrease: real, duplicateRate: real,
    psiAbove: real, psiCriticalAbove: real, missingHours: real, staleHours: real)

  /** What the assessment of a snapshot depends on besides the policy; `window` holds whether each
      earlier execution succeeded. */
  datatype Context = Context(
    snapshot: Snapshot, baseline: Option<Baseline>, window: seq<bool>, previousAt: Option<real>, overdue: bool)

  function Failures(window: seq<bool>): nat {
    if window == [] then 0 else Failures(window[..|window| - 1]) + (if window[|window| - 1] then 0 else 1)
  }

  /** The places of the runs that failed. */
  function FailedRuns(runs: seq<bool>): set<nat> { set i: nat | i < |runs| && !runs[i] }

  lemma {:induction false} FailuresCounted(runs: seq<bool>)
    ensures Failures(runs) == |FailedRuns(runs)|
  {
    if runs != [] {
      var last := |runs| - 1;
      FailuresCounted(runs[..last]);
      assert FailedRuns(runs) == FailedRuns(runs[..last]) + if runs[last] then {} else {last};
    } else {
      assert FailedRuns(runs) == {};
    }
  }

  function FailureRate(c: Context): real {
    Failures(c.window + [c.snapshot.succeeded]) as real / (|c.window| + 1) as real
  }

  function Drop(c: Context): Option<real> {
    if c.baseline.Some? && c.baseline.value.coverage.Some? && c.snapshot.coverage.Some?
    then Some(c.baseline.value.coverage.value - c.snapshot.coverage.value) else None
  }

  function NullIncrease(c: Context): Option<real> {
    if c.baseline.Some? && c.baseline.value.nullRate.Some? && c.snapshot.nullRate.Some?
    then Some(c.snapshot.nullRate.value - c.baseline.value.nullRate.value) else None
  }

  function Escalate(value: real, threshold: real): Severity {
    if value > 2.0 * threshold then Critical else Warning
  }

  function Above(value: Option<real>, threshold: real): Option<Severity> {
    if value.Some? && value.value > threshold then Some(Escalate(value.value, threshold)) else None
  }

  predicate DataMissing(c: Context, p: Policy) {
    || (c.previousAt.Some? && c.snapshot.observedAt - c.previousAt.value > p.missingHours)
    || c.snapshot.psiStatus != PsiAvailable || c.snapshot.freshness == Late || c.overdue
  }

  /** How bad a snapshot is in one respect; `None` when nothing is found. */
  function Level(kind: Kind, c: Context, p: Policy): Option<Severity> {
    match kind
    case ExecutionFailure =>
      if FailureRate(c) > p.maxFailureRate
      then Some(if FailureRate(c) >= 1.0 then Critical else Escalate(FailureRate(c), p.maxFailureRate)) else None
    case LatencyDegradation => Above(Some(c.snapshot.duration), p.latencyAbove)
    case CoverageDrop => Above(Drop(c), p.coverageDrop)
    case NullRateIncrease => Above(NullIncrease(c), p.nullRateIncrease)
    case DuplicateIncrease => Above(c.snapshot.duplicateRate, p.duplicateRate)
    case PopulationShift =>
      if c.snapshot.psi.Some? && c.snapshot.psi.value > p.psiAbove
      then Some(if c.snapshot.psi.value > p.psiCriticalAbove then Critical else Warning) else None
    case MissingMonitoringData => if DataMissing(c, p) then Some(Warning) else None
  }

  /** The evidence of a measured finding: the reading and the threshold it exceeds. */
  ghost predicate Shows(f: Finding, c: Context, p: Policy) {
    var s, b := c.snapshot, c.baseline;
    match f.kind
    case ExecutionFailure =>
      && f.evidence.Measured? && f.evidence.threshold == p.maxFailureRate
      && f.evidence.value * (|c.window| + 1) as real == |FailedRuns(c.window + [s.succeeded])| as real
    case LatencyDegradation => f.evidence == Measured(s.duration, p.latencyAbove)
    case CoverageDrop =>
      && b.Some? && b.value.coverage.Some? && s.coverage.Some?
      && f.evidence == Measured(b.value.coverage.value - s.coverage.value, p.coverageDrop)
    case NullRateIncrease =>
      && b.Some? && b.value.nullRate.Some? && s.nullRate.Some?
      && f.evidence == Measured(s.nullRate.value - b.value.nullRate.value, p.nullRateIncrease)
    case DuplicateIncrease => s.duplicateRate.Some? && f.evidence == Measured(s.duplicateRate.value, p.duplicateRate)
    case PopulationShift => s.psi.Some? && f.evidence == Measured(s.psi.value, p.psiAbove)
    case MissingMonitoringData => true
  }

  /** Findings as raised: every one at the level of its kind, each kind with a level raised, in
      evaluation order, and only missing data more than once. */
  ghost predicate RaisedBy(findings: seq<Finding>, c: Context, p: Policy, upTo: nat) {
    && Ordered(InOrder, findings)
    && (forall f | f in findings :: Position(f.kind) < upTo && Level(f.kind, c, p) == Some(f.severity) && Shows(f, c, p))
    && (forall kind: Kind | Position(kind) < upTo && Level(kind, c, p).Some? :: exists f :: f in findings && f.kind == kind)
  }

  method CountFailures(window: seq<bool>) returns (failures: nat)
    ensures failures == Failures(window)
  {
    failures := 0;
    for i := 0 to |window|
      invariant failures == Failures(window[..i])
    {
      assert window[..i + 1][..i] == window[..i];
      if !window[i] { failures := failures + 1; }
    }
    assert window[..|window|] == window;
  }

  lemma {:induction false} RaiseNext(findings: seq<Finding>, c: Context, p: Policy, kind: Kind, evidence: Evidence)
    requires RaisedBy(findings, c, p, Position(kind))
    requires Level(kind, c, p).Some? ==> Shows(Finding(kind, Level(kind, c, p).value, evidence), c, p)
    ensures var next := if Level(kind, c, p).Some? then findings + [Finding(kind, Level(kind, c, p).value, evidence)]
                        else findings;
            RaisedBy(next, c, p, Position(kind) + 1)
  {
    var next := if Level(kind, c, p).Some? then findings + [Finding(kind, Level(kind, c, p).value, evidence)] else findings;
    hide Level, Shows;
    if Level(kind, c, p).Some? { assert next[|findings|].kind == kind; }
    forall i, j | 0 <= i < j < |next| ensures InOrder(next[i], next[j]) {
      if j < |findings| { assert InOrder(findings[i], findings[j]); } else { assert next[i] in findings; }
    }
    forall other: Kind | Position(other) < Position(kind) + 1 && Level(other, c, p).Some?
      ensures exists f :: f in next && f.kind == other
    {
      if other == kind {
        assert next[|findings|] in next;
      } else {
        PositionsDiffer(other, kind);
        var f :| f in findings && f.kind == other;
        assert f in next;
      }
    }
  }

  lemma {:induction false} PositionsDiffer(a: Kind, b: Kind)
    ensures Position(a) == Position(b) <==> a == b
  {
  }

  lemma {:induction false} NothingRaised(c: Context, p: Policy)
    ensures RaisedBy([], c, p, 0)
  {
  }

  /** The failure rate times the number of runs is the number of failed ones. */
  lemma {:induction false} RateShown(c: Context, p: Policy, rate: real)
    requires rate == Failures(c.window + [c.snapshot.succeeded]) as real / (|c.window| + 1) as real
    ensures rate == FailureRate(c)
    ensures forall severity :: Shows(Finding(ExecutionFailure, severity, Measured(rate, p.maxFailureRate)), c, p)
  {
    FailuresCounted(c.window + [c.snapshot.succeeded]);
    hide Failures, FailedRuns;
  }

  /** The failure rate over the window and the present run, and the present run's duration. */
  method RaiseRuns(c: Context, p: Policy) returns (findings: seq<Finding>)
    ensures RaisedBy(findings, c, p, 2)
  {
    hide RaisedBy, Escalate, FailureRate, Failures, FailedRuns;
    findings := [];
    NothingRaised(c, p);
    var failures := CountFailures(c.window + [c.snapshot.succeeded]);
    var rate := failures as real / (|c.window| + 1) as real;
    RateShown(c, p, rate);
    RaiseNext(findings, c, p, ExecutionFailure, Measured(rate, p.maxFailureRate));
    if rate > p.maxFailureRate {
      findings := findings + [Finding(ExecutionFailure, if rate >= 1.0 then Critical else Escalate(rate, p.maxFailureRate),
                                      Measured(rate, p.maxFailureRate))];
    }
    var duration := c.snapshot.duration;
    RaiseNext(findings, c, p, LatencyDegradation, Measured(duration, p.latencyAbove));
    if duration > p.latencyAbove {
      findings := findings + [Finding(LatencyDegradation, Escalate(duration, p.latencyAbove),
                                      Measured(duration, p.latencyAbove))];
    }
  }

  /** The six measured checks, in evaluation order. */
  method RaiseMeasured(c: Context, p: Policy) returns (findings: seq<Finding>)
    ensures RaisedBy(findings, c, p, 6)
  {
    hide RaisedBy, Escalate;
    var runs := RaiseRuns(c, p);
    findings := RaiseQuality(runs, c, p);
    var psi := c.snapshot.psi;
    RaiseNext(findings, c, p, PopulationShift, Measured(if psi.Some? then psi.value else 0.0, p.psiAbove));
    if psi.Some? && psi.value > p.psiAbove {
      findings := findings + [Finding(PopulationShift, if psi.value > p.psiCriticalAbove then Critical else Warning,
                                      Measured(psi.value, p.psiAbove))];
    }
  }

  method RaiseQuality(before: seq<Finding>, c: Context, p: Policy) returns (findings: seq<Finding>)
    requires RaisedBy(before, c, p, 2)
    ensures RaisedBy(findings, c, p, 5)
  {
    hide RaisedBy, Escalate;
    findings := before;
    var drop := Drop(c);
    RaiseNext(findings, c, p, CoverageDrop, Measured(if drop.Some? then drop.value else 0.0, p.coverageDrop));
    if drop.Some? && drop.value > p.coverageDrop {
      findings := findings + [Finding(CoverageDrop, Escalate(drop.value, p.coverageDrop),
                                      Measured(drop.value, p.coverageDrop))];
    }
    var increase := NullIncrease(c);
    RaiseNext(findings, c, p, NullRateIncrease,
              Measured(if increase.Some? then increase.value else 0.0, p.nullRateIncrease));
    if increase.Some? && increase.value > p.nullRateIncrease {
      findings := findings + [Finding(NullRateIncrease, Escalate(increase.value, p.nullRateIncrease),
                                      Measured(increase.value, p.nullRateIncrease))];
    }
    var rate := c.snapshot.duplicateRate;
    RaiseNext(findings, c, p, DuplicateIncrease, Measured(if rate.Some? then rate.value else 0.0, p.duplicateRate));
    if rate.Some? && rate.value > p.duplicateRate {
      findings := findings + [Finding(DuplicateIncrease, Escalate(rate.value, p.duplicateRate),
                                      Measured(rate.value, p.duplicateRate))];
    }
  }

  predicate IsMissing(f: Finding) { f.kind == MissingMonitoringData && f.severity == Warning }

  /** Why a reading counts as missing: a gap since the previous one, no distribution to compare with,
      bins that do not match, a late arrival, or an overdue expectation. */
  ghost predicate MissingBecause(e: Evidence, c: Context, p: Policy) {
    var s := c.snapshot;
    || (&& c.previousAt.Some? && s.observedAt - c.previousAt.value > p.missingHours
        && e == Measured(s.observedAt - c.previousAt.value, p.missingHours))
    || (s.psiStatus == PsiNotAvailable && e == Reason("no_monitoring_baseline_distribution"))
    || (s.psiStatus == PsiBaselineMismatch && e == Reason("distribution_bins_not_aligned"))
    || (s.freshness == Late && e == Measured(s.lagHours, p.staleHours))
    || (c.overdue && e == Reason("monitoring_expectation_overdue"))
  }

  /** Up to four reasons why a reading is missing or cannot be compared. */
  method RaiseMissing(c: Context, p: Policy) returns (missing: seq<Finding>)
    ensures forall f | f in missing :: IsMissing(f)
    ensures missing != [] <==> DataMissing(c, p)
    ensures forall e :: Finding(MissingMonitoringData, Warning, e) in missing <==> MissingBecause(e, c, p)
  {
    missing := [];
    if c.previousAt.Some? {
      var gap := c.snapshot.observedAt - c.previousAt.value;
      if gap > p.missingHours { missing := missing + [Finding(MissingMonitoringData, Warning, Measured(gap, p.missingHours))]; }
    }
    if c.snapshot.psiStatus == PsiNotAvailable {
      missing := missing + [Finding(MissingMonitoringData, Warning, Reason("no_monitoring_baseline_distribution"))];
    } else if c.snapshot.psiStatus == PsiBaselineMismatch {
      missing := missing + [Finding(MissingMonitoringData, Warning, Reason("distribution_bins_not_aligned"))];
    }
    if c.snapshot.freshness == Late {
      missing := missing + [Finding(MissingMonitoringData, Warning, Measured(c.snapshot.lagHours, p.staleHours))];
    }
    if c.overdue { missing := missing + [Finding(MissingMonitoringData, Warning, Reason("monitoring_expectation_overdue"))]; }
    assert forall e :: Finding(MissingMonitoringData, Warning, e) in missing <==> MissingBecause(e, c, p);
    hide MissingBecause, DataMissing;
    SomeReason(c, p);
    if missing != [] { assert missing[0] in missing; }
  }

  lemma {:induction false} SomeReason(c: Context, p: Policy)
    ensures DataMissing(c, p) <==> exists e :: MissingBecause(e, c, p)
  {
    var s := c.snapshot;
    if c.previousAt.Some? && s.observedAt - c.previousAt.value > p.missingHours {
      assert MissingBecause(Measured(s.observedAt - c.previousAt.value, p.missingHours), c, p);
    }
    if s.psiStatus == PsiNotAvailable { assert MissingBecause(Reason("no_monitoring_baseline_distribution"), c, p); }
    if s.psiStatus == PsiBaselineMismatch { assert MissingBecause(Reason("distribution_bins_not_aligned"), c, p); }
    if s.freshness == Late { assert MissingBecause(Measured(s.lagHours, p.staleHours), c, p); }
    if c.overdue { assert MissingBecause(Reason("monitoring_expectation_overdue"), c, p); }
  }

  lemma {:induction false} MissingRaised(findings: seq<Finding>, missing: seq<Finding>, c: Context, p: Policy)
    requires RaisedBy(findings, c, p, 6) && (forall f | f in missing :: IsMissing(f))
    requires (missing != [] <==> DataMissing(c, p))
    ensures RaisedBy(findings + missing, c, p, 7)
  {
    var all := findings + missing;
    assert Level(MissingMonitoringData, c, p) == if missing != [] then Some(Warning) else None;
    hide Level, DataMissing;
    forall i, j | 0 <= i < j < |all| ensures InOrder(all[i], all[j]) {
      if j < |findings| {
        assert InOrder(findings[i], findings[j]);
      } else {
        assert all[j] in missing;
        assert all[i] in findings || all[i] in missing;
      }
    }
    forall f | f in all ensures Position(f.kind) < 7 && Level(f.kind, c, p) == Some(f.severity) && Shows(f, c, p) {
      assert f in findings || f in missing;
    }
    forall kind: Kind | Position(kind) < 7 && Level(kind, c, p).Some? ensures exists f :: f in all && f.kind == kind {
      if kind == MissingMonitoringData {
        assert missing[0] in missing && missing[0] in all;
      } else {
        var f :| f in findings && f.kind == kind;
        assert f in all;
      }
    }
  }

  /** What a snapshot raises, read off the readings themselves: failed runs as a share of all runs,
      critical also when every run failed; a duration; a fall of the coverage and a rise of the null
      rate against the baseline; a duplicate rate; a shift with a critical limit of its own; and, never
      critical, missing data. The other types are critical above twice their threshold. */
  ghost predicate JudgesReadings(merged: seq<Finding>, c: Context, p: Policy) {
    var s, b, n, failed := c.snapshot, c.baseline, |c.window| + 1, |FailedRuns(c.window + [c.snapshot.succeeded])|;
    && (forall g | g in merged :: g.severity != Info)
    && (Raised(merged, ExecutionFailure) <==> failed as real > p.maxFailureRate * n as real)
    && (Reported(merged, ExecutionFailure, Critical) <==>
          && failed as real > p.maxFailureRate * n as real
          && (failed == n || failed as real > 2.0 * p.maxFailureRate * n as real))
    && (Raised(merged, LatencyDegradation) <==> s.duration > p.latencyAbove)
    && (Reported(merged, LatencyDegradation, Critical) <==> s.duration > p.latencyAbove && s.duration > 2.0 * p.latencyAbove)
    && (if b.Some? && b.value.coverage.Some? && s.coverage.Some? then
          && (Raised(merged, CoverageDrop) <==> s.coverage.value + p.coverageDrop < b.value.coverage.value)
          && (Reported(merged, CoverageDrop, Critical) <==>
                && s.coverage.value + p.coverageDrop < b.value.coverage.value
                && s.coverage.value + 2.0 * p.coverageDrop < b.value.coverage.value)
        else !Raised(merged, CoverageDrop))
    && (if b.Some? && b.value.nullRate.Some? && s.nullRate.Some? then
          && (Raised(merged, NullRateIncrease) <==> s.nullRate.value > b.value.nullRate.value + p.nullRateIncrease)
          && (Reported(merged, NullRateIncrease, Critical) <==>
                && s.nullRate.value > b.value.nullRate.value + p.nullRateIncrease
                && s.nullRate.value > b.value.nullRate.value + 2.0 * p.nullRateIncrease)
        else !Raised(merged, NullRateIncrease))
    && (Raised(merged, DuplicateIncrease) <==> s.duplicateRate.Some? && s.duplicateRate.value > p.duplicateRate)
    && (Reported(merged, DuplicateIncrease, Critical) <==>
          && s.duplicateRate.Some? && s.duplicateRate.value > p.duplicateRate
          && s.duplicateRate.value > 2.0 * p.duplicateRate)
    && (Raised(merged, PopulationShift) <==> s.psi.Some? && s.psi.value > p.psiAbove)
    && (Reported(merged, PopulationShift, Critical) <==>
          s.psi.Some? && s.psi.value > p.psiAbove && s.psi.value > p.psiCriticalAbove)
    && (Raised(merged, MissingMonitoringData) <==> exists e :: MissingBecause(e, c, p))
    && !Reported(merged, MissingMonitoringData, Critical)
  }

  /** `assess`: at most one finding per type, strictly in evaluation order; what is raised, and how
      severe it is, follows from the readings; every measured finding carries the reading and the
      threshold, and missing data every reason there is. */
  method Assess(c: Context, p: Policy) returns (merged: seq<Finding>, ordered: seq<Finding>)
    ensures forall i, j | 0 <= i < j < |merged| :: Position(merged[i].kind) < Position(merged[j].kind)
    ensures JudgesReadings(merged, c, p)
    ensures merged == Merge(ordered) && forall f | f in ordered :: Shows(f, c, p)
    ensures forall e :: Finding(MissingMonitoringData, Warning, e) in ordered <==> MissingBecause(e, c, p)
  {
    var measured := RaiseMeasured(c, p);
    var missing := RaiseMissing(c, p);
    MissingRaised(measured, missing, c, p);
    ReasonsRaised(measured, missing, c, p);
    hide *;
    var findings := measured + missing;
    FindingsAscend(findings, c, p);
    SortOfOrdered(findings);
    ordered := SortBy(InOrder, findings);
    merged := MergeByKey(ordered);
    OneLevelEach(findings, c, p);
    LevelsJudge(merged, c, p);
  }

  /** The missing-data findings are those of the last check. */
  lemma {:induction false} ReasonsRaised(measured: seq<Finding>, missing: seq<Finding>, c: Context, p: Policy)
    requires RaisedBy(measured, c, p, 6)
    ensures forall e :: Finding(MissingMonitoringData, Warning, e) in measured + missing
                        <==> Finding(MissingMonitoringData, Warning, e) in missing
  {
    hide Shows, Level, Ordered;
  }

  lemma {:induction false} FindingsAscend(findings: seq<Finding>, c: Context, p: Policy)
    requires RaisedBy(findings, c, p, 7)
    ensures Ordered(InOrder, findings) && forall f | f in findings :: Shows(f, c, p)
  {
    hide Shows, Level, Ordered;
  }

  /** A kind is raised when it has a level. */
  lemma {:induction false} RaisedAtLevel(merged: seq<Finding>, kind: Kind, level: Option<Severity>)
    requires forall severity :: level == Some(severity) <==> Reported(merged, kind, severity)
    ensures Raised(merged, kind) <==> level.Some?
  {
    forall g | g in merged && g.kind == kind ensures Some(g.severity) == level {
      assert Reported(merged, kind, g.severity);
    }
    if level.Some? {
      assert Reported(merged, kind, level.value);
    }
  }

  lemma {:induction false} LevelsJudge(merged: seq<Finding>, c: Context, p: Policy)
    requires forall kind: Kind, severity :: Level(kind, c, p) == Some(severity) <==> Reported(merged, kind, severity)
    ensures JudgesReadings(merged, c, p)
  {
    forall kind: Kind ensures (Raised(merged, kind) <==> Level(kind, c, p).Some?) {
      RaisedAtLevel(merged, kind, Level(kind, c, p));
    }
    forall g | g in merged ensures g.severity != Info {
      assert Reported(merged, g.kind, g.severity);
      assert Level(g.kind, c, p) == Some(g.severity);
    }
    RunsLevel(c, p);
    MissingLevel(c, p);
    hide Reported, Raised, FailureRate, DataMissing, MissingBecause;
  }

  lemma {:induction false} RunsLevel(c: Context, p: Policy)
    ensures var n, failed := |c.window| + 1, |FailedRuns(c.window + [c.snapshot.succeeded])|;
            && (Level(ExecutionFailure, c, p).Some? <==> failed as real > p.maxFailureRate * n as real)
            && (Level(ExecutionFailure, c, p) == Some(Critical) <==>
                  && failed as real > p.maxFailureRate * n as real
                  && (failed == n || failed as real > 2.0 * p.maxFailureRate * n as real))
  {
    var runs := c.window + [c.snapshot.succeeded];
    var n, failed := |runs|, |FailedRuns(runs)|;
    FailuresCounted(runs);
    FailuresWithin(runs);
    hide Failures, FailedRuns;
    RateAbove(failed, n, p.maxFailureRate);
    RateAbove(failed, n, 2.0 * p.maxFailureRate);
    RateFull(failed, n);
  }

  lemma {:induction false} FailuresWithin(runs: seq<bool>)
    ensures Failures(runs) <= |runs|
  {
    if runs != [] { FailuresWithin(runs[..|runs| - 1]); }
  }

  lemma {:induction false} RateAbove(failed: nat, n: nat, limit: real)
    requires n > 0
    ensures failed as real / n as real > limit <==> failed as real > limit * n as real
  {
    var rate := failed as real / n as real;
    assert rate * n as real == failed as real;
    if rate > limit {
      assert (rate - limit) * n as real > 0.0;
    } else {
      assert (limit - rate) * n as real >= 0.0;
    }
  }

  lemma {:induction false} RateFull(failed: nat, n: nat)
    requires n > 0 && failed <= n
    ensures failed as real / n as real >= 1.0 <==> failed == n
  {
    assert failed as real / n as real * n as real == failed as real;
    if failed < n { assert (failed as real / n as real) < 1.0; }
  }

  lemma {:induction false} MissingLevel(c: Context, p: Policy)
    ensures Level(MissingMonitoringData, c, p) == if exists e :: MissingBecause(e, c, p) then Some(Warning) else None
  {
    SomeReason(c, p);
    hide MissingBecause, DataMissing;
  }

  ghost predicate Raised(merged: seq<Finding>, kind: Kind) { exists g :: g in merged && g.kind == kind }

  ghost predicate Reported(merged: seq<Finding>, kind: Kind, severity: Severity) {
    exists g :: g in merged && g.kind == kind && g.severity == severity
  }

  lemma {:induction false} OneLevelEach(findings: seq<Finding>, c: Context, p: Policy)
    requires RaisedBy(findings, c, p, 7)
    ensures var merged := Merge(findings);
            && (forall i, j | 0 <= i < j < |merged| :: Position(merged[i].kind) < Position(merged[j].kind))
            && (forall kind: Kind, severity :: Level(kind, c, p) == Some(severity) <==> Reported(merged, kind, severity))
  {
    hide *;
    var merged := Merge(findings);
    OnePerKey(findings);
    MergeOrdered(findings, ExecutionFailure);
    MergedAtLevel(findings, merged, c, p);
    forall i: nat, j: nat | 0 <= i < j < |merged| ensures Position(merged[i].kind) < Position(merged[j].kind) {
      LaterIsAbove(merged, i, j);
      LevelsSeparate(merged[i], merged[j], c, p);
    }
    forall kind: Kind, severity ensures Level(kind, c, p) == Some(severity) <==> Reported(merged, kind, severity) {
      LevelReported(findings, merged, c, p, kind, severity);
    }
  }

  /** A merged finding has the severity of its level, as the findings of its group have. */
  lemma {:induction false} MergedAtLevel(findings: seq<Finding>, merged: seq<Finding>, c: Context, p: Policy)
    requires RaisedBy(findings, c, p, 7)
    requires Covers(merged, findings)
    ensures forall g | g in merged :: Level(g.kind, c, p) == Some(g.severity)
  {
    hide Level, Ordered;
    forall g | g in merged ensures Level(g.kind, c, p) == Some(g.severity) {
      var f :| f in findings && KeyOf(f) == KeyOf(g);
    }
  }

  /** Findings of two different keys that have the severities of their levels are of two types. */
  lemma {:induction false} LevelsSeparate(f: Finding, g: Finding, c: Context, p: Policy)
    requires Level(f.kind, c, p) == Some(f.severity) && Level(g.kind, c, p) == Some(g.severity)
    requires KeyOf(f) != KeyOf(g) && Position(f.kind) <= Position(g.kind)
    ensures Position(f.kind) < Position(g.kind)
  {
    hide Level, Position;
    PositionsDiffer(f.kind, g.kind);
  }

  lemma {:induction false} LevelReported(
      findings: seq<Finding>, merged: seq<Finding>, c: Context, p: Policy, kind: Kind, severity: Severity)
    requires RaisedBy(findings, c, p, 7)
    requires forall g | g in merged :: Level(g.kind, c, p) == Some(g.severity)
    requires Covers(findings, merged)
    ensures Level(kind, c, p) == Some(severity) <==> Reported(merged, kind, severity)
  {
    hide Level, Ordered;
    if Level(kind, c, p) == Some(severity) {
      assert Position(kind) < 7;
      var f :| f in findings && f.kind == kind;
      var g :| g in merged && KeyOf(g) == KeyOf(f);
    }
  }

  lemma {:induction false} LaterIsAbove(merged: seq<Finding>, i: nat, j: nat)
    requires Ordered(InOrder, merged) && i < j < |merged|
    ensures Position(merged[i].kind) <= Position(merged[j].kind)
  {
    assert InOrder(merged[i], merged[j]);
  }

  // ------------------------------------------------------------ worse readings

  function Rank(level: Option<Severity>): nat {
    match level
    case None => 0 case Some(Info) => 1 case Some(Warning) => 2 case Some(Critical) => 3
  }

  predicate NoLess(worse: Option<real>, value: Option<real>) {
    value.Some? ==> worse.Some? && value.value <= worse.value
  }

  /** A snapshot at least as bad in every measured respect, against the same baseline and history. */
  predicate Worse(worse: Context, c: Context) {
    && worse.baseline == c.baseline && worse.previousAt == c.previousAt && |worse.window| == |c.window|
    && |FailedRuns(worse.window + [worse.snapshot.succeeded])| >= |FailedRuns(c.window + [c.snapshot.succeeded])|
    && worse.snapshot.duration >= c.snapshot.duration
    && (c.snapshot.coverage.Some? ==>
          worse.snapshot.coverage.Some? && worse.snapshot.coverage.value <= c.snapshot.coverage.value)
    && NoLess(worse.snapshot.nullRate, c.snapshot.nullRate)
    && NoLess(worse.snapshot.duplicateRate, c.snapshot.duplicateRate) && NoLess(worse.snapshot.psi, c.snapshot.psi)
    && worse.snapshot.observedAt >= c.snapshot.observedAt
    && (c.snapshot.psiStatus != PsiAvailable ==> worse.snapshot.psiStatus != PsiAvailable)
    && (c.snapshot.freshness == Late ==> worse.snapshot.freshness == Late) && (c.overdue ==> worse.overdue)
  }

  lemma {:induction false} RateOrder(a: nat, b: nat, n: nat)
    requires a <= b && n > 0
    ensures a as real / n as real <= b as real / n as real
  {
  }

  /** A worse snapshot never loses a finding and never lowers its severity, whatever the
      thresholds. */
  lemma {:induction false} WorseNeverQuieter(worse: Context, c: Context, p: Policy, kind: Kind)
    requires Worse(worse, c)
    ensures Rank(Level(kind, c, p)) <= Rank(Level(kind, worse, p))
  {
    FailuresCounted(c.window + [c.snapshot.succeeded]);
    FailuresCounted(worse.window + [worse.snapshot.succeeded]);
    hide Failures, FailedRuns;
    RateOrder(Failures(c.window + [c.snapshot.succeeded]), Failures(worse.window + [worse.snapshot.succeeded]),
              |c.window| + 1);
    assert FailureRate(c) <= FailureRate(worse);
    hide FailureRate;
  }
}
