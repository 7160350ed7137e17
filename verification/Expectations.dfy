/** Telemetry expectations (src/airi/production/expectations.py) and the alerts their findings
    raise: windows, window keys, and what any run of arrivals and evaluations does to the alerts. */
module Expectations {
  import opened Options
  import Findings

  /** Times are microseconds; durations are declared in hours. */
  const HOUR := 3_600_000_000

  datatype Expectation = Expectation(deployment: string, id: string, intervalHours: nat, graceHours: nat, createdAt: int)

  datatype Reading = Reading(observedAt: int, freshness: Findings.Freshness)

  datatype Status = NoSnapshot | Satisfied | DueSoon | Overdue

  datatype Name = TelemetryMissing | TelemetryLate

  /** `telemetry_freshness`: the lag from observation to receipt, never negative, in two steps. */
  function FreshnessOf(observedAt: int, receivedAt: int, freshHours: nat, staleHours: nat): Findings.Freshness {
    var lag := if receivedAt < observedAt then 0 else receivedAt - observedAt;
    if lag <= freshHours * HOUR then Findings.Fresh else if lag <= staleHours * HOUR then Findings.Stale else Findings.Late
  }

  function FreshnessRank(f: Findings.Freshness): nat {
    match f case Fresh => 0 case Stale => 1 case Late => 2
  }

  /** A later receipt is never fresher, an earlier observation never fresher, and a reading from the
      future counts as fresh; the two limits are hours, and included. */
  lemma {:induction false} FreshnessMonotone(
      observed1: int, received1: int, observed2: int, received2: int, freshHours: nat, staleHours: nat)
    requires observed2 <= observed1 && received1 <= received2
    ensures FreshnessRank(FreshnessOf(observed1, received1, freshHours, staleHours))
            <= FreshnessRank(FreshnessOf(observed2, received2, freshHours, staleHours))
    ensures received1 <= observed1 ==> FreshnessOf(observed1, received1, freshHours, staleHours) == Findings.Fresh
    ensures FreshnessOf(observed1, received1, freshHours, staleHours) == Findings.Fresh
            <==> received1 - observed1 <= freshHours * 3_600_000_000
    ensures FreshnessOf(observed1, received1, freshHours, staleHours) == Findings.Late
            <==> && received1 - observed1 > freshHours * 3_600_000_000
                 && received1 - observed1 > staleHours * 3_600_000_000
  {
  }

  // ------------------------------------------------------------ windows

  /** Where the open window starts: at the last observation, or at the declaration. */
  function Due(e: Expectation, last: Option<int>): int {
    (if last.Some? then last.value else e.createdAt) + e.intervalHours * HOUR
  }

  function GraceUntil(e: Expectation, last: Option<int>): int { Due(e, last) + e.graceHours * HOUR }

  /** What the two hashes of an alert key are taken of. */
  datatype Hashes = Hashes(window: (string, string, Option<int>, int) -> string, finding: (string, Name, string) -> string)

  ghost predicate Injective(h: Hashes) {
    && (forall d1, i1, l1, u1, d2, i2, l2, u2 | h.window(d1, i1, l1, u1) == h.window(d2, i2, l2, u2) ::
          d1 == d2 && i1 == i2 && l1 == l2 && u1 == u2)
    && (forall d1, n1, w1, d2, n2, w2 | h.finding(d1, n1, w1) == h.finding(d2, n2, w2) ::
          d1 == d2 && n1 == n2 && w1 == w2)
  }

  function WindowKey(e: Expectation, last: Option<int>, h: Hashes): string {
    h.window(e.deployment, e.id, last, Due(e, last))
  }

  function AlertKey(e: Expectation, name: Name, last: Option<int>, h: Hashes): string {
    h.finding(e.deployment, name, WindowKey(e, last, h))
  }

  // ------------------------------------------------------------ evaluating

  datatype Evaluated = Evaluated(status: Status, findings: seq<Name>, dueAt: int, windowKey: Option<string>)

  function StatusAt(e: Expectation, last: Option<int>, count: nat, now: int): Status {
    if count == 0 then NoSnapshot
    else if now < Due(e, last) then Satisfied
    else if now < GraceUntil(e, last) then DueSoon
    else Overdue
  }

  function FindingsAt(e: Expectation, last: Option<Reading>, now: int): seq<Name> {
    (if now >= GraceUntil(e, ObservedAt(last)) then [TelemetryMissing] else [])
    + (if last.Some? && last.value.freshness == Findings.Late then [TelemetryLate] else [])
  }

  function ObservedAt(last: Option<Reading>): Option<int> {
    if last.Some? then Some(last.value.observedAt) else None
  }

  /** `evaluate_expectation`: the next reading is due the interval after the last one, or after the
      declaration, and overdue the grace period later. Whatever count the caller supplies, silence is a
      finding exactly from the end of the grace period on, and lateness exactly for a late last reading. */
  method EvaluateExpectation(e: Expectation, last: Option<Reading>, now: int, snapshotCount: Option<nat>, h: Hashes)
    returns (r: Evaluated)
    ensures r.status == StatusAt(e, ObservedAt(last),
                                 if snapshotCount.Some? then snapshotCount.value else if last.None? then 0 else 1, now)
    ensures var due := (if last.Some? then last.value.observedAt else e.createdAt) + e.intervalHours * 3_600_000_000;
            var graceUntil := due + e.graceHours * 3_600_000_000;
            && r.dueAt == due && (TelemetryMissing in r.findings <==> now >= graceUntil)
            && (r.status == NoSnapshot <==> snapshotCount == Some(0) || (snapshotCount == None && last == None))
            && (r.status != NoSnapshot ==>
                  && (r.status == Satisfied <==> now < due) && (r.status == DueSoon <==> due <= now < graceUntil)
                  && (r.status == Overdue <==> now >= due && now >= graceUntil))
    ensures TelemetryLate in r.findings <==> last.Some? && last.value.freshness == Findings.Late
    ensures r.findings == FindingsAt(e, last, now)
    ensures r.windowKey == if r.findings == [] then None else Some(WindowKey(e, ObservedAt(last), h))
  {
    var observed := if last.None? then None else Some(last.value.observedAt);
    var arrivalDue := Due(e, observed);
    var graceUntil := arrivalDue + e.graceHours * HOUR;
    var key := h.window(e.deployment, e.id, observed, arrivalDue);
    var count := if snapshotCount.Some? then snapshotCount.value else if last.None? then 0 else 1;
    var status;
    if count == 0 {
      status := NoSnapshot;
    } else if now < arrivalDue {
      status := Satisfied;
    } else if now < graceUntil {
      status := DueSoon;
    } else {
      status := Overdue;
    }
    var findings: seq<Name> := [];
    if status == Overdue || (status == NoSnapshot && now >= graceUntil) { findings := findings + [TelemetryMissing]; }
    if last.Some? && last.value.freshness == Findings.Late { findings := findings + [TelemetryLate]; }
    r := Evaluated(status, findings, arrivalDue, if findings == [] then None else Some(key));
  }

  function StatusRank(s: Status): nat {
    match s case NoSnapshot => 0 case Satisfied => 1 case DueSoon => 2 case Overdue => 3
  }

  /** In a fixed window the status only moves from satisfied over due-soon to overdue, and a later
      reading never makes it worse. */
  lemma {:induction false} StatusMonotone(e: Expectation, last: Option<int>, count: nat, now: int, later: int)
    requires now <= later
    ensures StatusRank(StatusAt(e, last, count, now)) <= StatusRank(StatusAt(e, last, count, later))
    ensures StatusAt(e, last, count, now) == NoSnapshot <==> StatusAt(e, last, count, later) == NoSnapshot
    ensures forall newer: int | last.Some? && last.value <= newer ::
              StatusRank(StatusAt(e, Some(newer), count, now)) <= StatusRank(StatusAt(e, last, count, now))
  {
  }

  /** Two windows of one expectation share a key exactly when they start at the same reading. */
  lemma {:induction false} KeyIdentifiesWindow(
      e: Expectation, n1: Name, l1: Option<int>, n2: Name, l2: Option<int>, h: Hashes)
    requires Injective(h)
    ensures AlertKey(e, n1, l1, h) == AlertKey(e, n2, l2, h) <==> n1 == n2 && l1 == l2
  {
  }

  // ------------------------------------------------------------ whole runs

  datatype Alert = Alert(occurrences: nat, open: bool)

  datatype State = State(readings: seq<Reading>, alerts: map<string, Alert>)

  datatype Event = Arrival(reading: Reading) | Evaluation(now: int) | Decision(key: string)

  /** The reading with the latest observation time; of equal ones the one that arrived last. */
  function Latest(readings: seq<Reading>): Option<Reading> {
    if readings == [] then None
    else
      var before, last := Latest(readings[..|readings| - 1]), readings[|readings| - 1];
      if before.Some? && before.value.observedAt > last.observedAt then before else Some(last)
  }

  function LastObserved(readings: seq<Reading>): Option<int> { ObservedAt(Latest(readings)) }

  /** One alert row per key: the first occurrence creates it, every further one counts and reopens. */
  function Record(alerts: map<string, Alert>, key: string): map<string, Alert> {
    alerts[key := Alert(if key in alerts then alerts[key].occurrences + 1 else 1, true)]
  }

  function RecordAll(
      e: Expectation, alerts: map<string, Alert>, names: seq<Name>, last: Option<int>, h: Hashes): map<string, Alert> {
    if names == [] then alerts
    else Record(RecordAll(e, alerts, names[..|names| - 1], last, h), AlertKey(e, names[|names| - 1], last, h))
  }

  function Step(e: Expectation, s: State, event: Event, h: Hashes): State {
    match event
    case Arrival(reading) => s.(readings := s.readings + [reading])
    case Evaluation(now) =>
      s.(alerts := RecordAll(e, s.alerts, FindingsAt(e, Latest(s.readings), now), LastObserved(s.readings), h))
    case Decision(key) => if key in s.alerts then s.(alerts := s.alerts[key := s.alerts[key].(open := false)]) else s
  }

  function Run(e: Expectation, events: seq<Event>, h: Hashes): State {
    if events == [] then State([], map[])
    else Step(e, Run(e, events[..|events| - 1], h), events[|events| - 1], h)
  }

  /** How many evaluations of a run found `name` in the window that starts at `last`. */
  function Found(e: Expectation, events: seq<Event>, name: Name, last: Option<int>, h: Hashes): nat {
    if events == [] then 0
    else
      var before, event := events[..|events| - 1], events[|events| - 1];
      var readings := Run(e, before, h).readings;
      Found(e, before, name, last, h)
      + (if event.Evaluation? && LastObserved(readings) == last && name in FindingsAt(e, Latest(readings), event.now)
         then 1 else 0)
  }

  function Occurrences(alerts: map<string, Alert>, key: string): nat {
    if key in alerts then alerts[key].occurrences else 0
  }

  lemma {:induction false} RecordAllTwo(
      e: Expectation, alerts: map<string, Alert>, missing: bool, late: bool, last: Option<int>, h: Hashes)
    ensures var names := (if missing then [TelemetryMissing] else []) + (if late then [TelemetryLate] else []);
            var first := if missing then Record(alerts, AlertKey(e, TelemetryMissing, last, h)) else alerts;
            RecordAll(e, alerts, names, last, h) == if late then Record(first, AlertKey(e, TelemetryLate, last, h)) else first
  {
    hide AlertKey, Record;
    var names := (if missing then [TelemetryMissing] else []) + (if late then [TelemetryLate] else []);
    assert RecordAll(e, alerts, [], last, h) == alerts;
    if names != [] {
      if |names| == 2 { assert names[..1] == [TelemetryMissing]; assert names[..1][..0] == []; }
      if |names| == 1 { assert names[..0] == []; }
    }
  }

  lemma {:induction false} FoundNames(e: Expectation, last: Option<Reading>, now: int)
    ensures var missing, late := now >= GraceUntil(e, ObservedAt(last)), last.Some? && last.value.freshness == Findings.Late;
            && FindingsAt(e, last, now) == (if missing then [TelemetryMissing] else []) + (if late then [TelemetryLate] else [])
            && (TelemetryMissing in FindingsAt(e, last, now) <==> missing)
            && (TelemetryLate in FindingsAt(e, last, now) <==> late)
  {
    hide GraceUntil;
  }

  /** Recording under two different keys counts each once. */
  lemma {:induction false} TwoRecorded(
      alerts: map<string, Alert>, first: string, second: string, one: bool, two: bool, key: string)
    requires first != second
    ensures var s := if one then Record(alerts, first) else alerts;
            var t := if two then Record(s, second) else s;
            var hit := (one && key == first) || (two && key == second);
            && Occurrences(t, key) == Occurrences(alerts, key) + (if hit then 1 else 0)
            && (key in t <==> key in alerts || hit)
  {
  }

  lemma {:induction false} RecordCounts(
      e: Expectation, alerts: map<string, Alert>, last: Option<Reading>, now: int, name: Name, window: Option<int>, h: Hashes)
    requires Injective(h)
    ensures var names := FindingsAt(e, last, now);
            var t, key := RecordAll(e, alerts, names, ObservedAt(last), h), AlertKey(e, name, window, h);
            && Occurrences(t, key) == Occurrences(alerts, key) + (if ObservedAt(last) == window && name in names then 1 else 0)
            && (key in t <==> key in alerts || (ObservedAt(last) == window && name in names))
  {
    hide *;
    KeyIdentifiesWindow(e, TelemetryMissing, ObservedAt(last), name, window, h);
    KeyIdentifiesWindow(e, TelemetryLate, ObservedAt(last), name, window, h);
    KeyIdentifiesWindow(e, TelemetryMissing, ObservedAt(last), TelemetryLate, ObservedAt(last), h);
    var missing, late := now >= GraceUntil(e, ObservedAt(last)), last.Some? && last.value.freshness == Findings.Late;
    RecordAllTwo(e, alerts, missing, late, ObservedAt(last), h);
    FoundNames(e, last, now);
    var key := AlertKey(e, name, window, h);
    TwoRecorded(alerts, AlertKey(e, TelemetryMissing, ObservedAt(last), h), AlertKey(e, TelemetryLate, ObservedAt(last), h),
                missing, late, key);
  }

  /** After any run, the alert of a finding and window has been counted exactly once for every
      evaluation that found it there, whatever was decided about it in between; evaluating a window
      again reuses its alert, and no other alert exists for it. */
  lemma {:induction false} OccurrencesCountEvaluations(
      e: Expectation, events: seq<Event>, name: Name, last: Option<int>, h: Hashes)
    requires Injective(h)
    ensures var alerts, key := Run(e, events, h).alerts, AlertKey(e, name, last, h);
            && Occurrences(alerts, key) == Found(e, events, name, last, h)
            && (key in alerts <==> Found(e, events, name, last, h) > 0)
  {
    if events != [] {
      var before, event := events[..|events| - 1], events[|events| - 1];
      var s := Run(e, before, h);
      OccurrencesCountEvaluations(e, before, name, last, h);
      if event.Evaluation? { RecordCounts(e, s.alerts, Latest(s.readings), event.now, name, last, h); }
    }
  }

  lemma {:induction false} LatestIsMax(readings: seq<Reading>)
    ensures readings == [] <==> Latest(readings).None?
    ensures Latest(readings).Some? ==> Latest(readings).value in readings
    ensures forall r | r in readings :: r.observedAt <= Latest(readings).value.observedAt
  {
    if readings != [] {
      LatestIsMax(readings[..|readings| - 1]);
      assert readings == readings[..|readings| - 1] + [readings[|readings| - 1]];
    }
  }

  lemma {:induction false} FoundStartsAtReading(
      e: Expectation, events: seq<Event>, name: Name, observedAt: int, h: Hashes)
    requires forall r | r in Run(e, events, h).readings :: r.observedAt != observedAt
    ensures Found(e, events, name, Some(observedAt), h) == 0
  {
    if events != [] {
      var before := events[..|events| - 1];
      assert forall r | r in Run(e, before, h).readings :: r in Run(e, events, h).readings;
      FoundStartsAtReading(e, before, name, observedAt, h);
      LatestIsMax(Run(e, before, h).readings);
    }
  }

  lemma {:induction false} LastAfterArrival(readings: seq<Reading>, reading: Reading)
    ensures LastObserved(readings + [reading])
            == if forall r | r in readings :: r.observedAt < reading.observedAt then Some(reading.observedAt)
               else LastObserved(readings)
  {
    LatestIsMax(readings);
    LatestIsMax(readings + [reading]);
    assert (readings + [reading])[..|readings|] == readings;
  }

  /** A reading observed later than all before opens a window none of whose alerts exists yet; any
      other arrival leaves the window, and so its alerts, as they were. */
  lemma {:induction false} ArrivalOpensWindowExactly(
      e: Expectation, events: seq<Event>, reading: Reading, name: Name, h: Hashes)
    requires Injective(h)
    ensures var s := Run(e, events, h);
            var t := Step(e, s, Arrival(reading), h);
            && (if forall r | r in s.readings :: r.observedAt < reading.observedAt
                then && AlertKey(e, name, LastObserved(t.readings), h) !in t.alerts
                     && LastObserved(t.readings) == Some(reading.observedAt)
                else LastObserved(t.readings) == LastObserved(s.readings))
            && t.alerts == s.alerts
  {
    var s := Run(e, events, h);
    var t := Step(e, s, Arrival(reading), h);
    assert t.readings == s.readings + [reading] && t.alerts == s.alerts;
    LastAfterArrival(s.readings, reading);
    hide Run, Step, AlertKey, LastObserved, Found, Injective;
    if forall r | r in s.readings :: r.observedAt < reading.observedAt {
      FoundStartsAtReading(e, events, name, reading.observedAt, h);
      OccurrencesCountEvaluations(e, events, name, Some(reading.observedAt), h);
    }
  }
}
