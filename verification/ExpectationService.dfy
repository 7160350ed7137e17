/** Readings and alerts of one expectation as the service keeps them: rows updated in place, each
    call proved equal to a step of the run. */
module ExpectationServices {
  import opened Options
  import opened Expectations

  lemma {:induction false} RecordNext(
      e: Expectation, alerts: map<string, Alert>, names: seq<Name>, i: nat, last: Option<int>, h: Hashes)
    requires i < |names|
    ensures RecordAll(e, alerts, names[..i + 1], last, h)
            == Record(RecordAll(e, alerts, names[..i], last, h), h.finding(e.deployment, names[i], WindowKey(e, last, h)))
  {
    assert names[..i + 1][..i] == names[..i];
    hide Record, WindowKey;
  }

  class ExpectationService {
    const expectation: Expectation
    const hashes: Hashes
    var readings: seq<Reading>
    var alerts: map<string, Alert>

    constructor (expectation: Expectation, hashes: Hashes)
      ensures this.expectation == expectation && this.hashes == hashes
      ensures Snapshot() == Run(expectation, [], hashes)
    {
      this.expectation := expectation;
      this.hashes := hashes;
      readings := [];
      alerts := map[];
    }

    function Snapshot(): State
      reads this
    {
      State(readings, alerts)
    }

    method Arrive(reading: Reading)
      modifies this
      ensures Snapshot() == Step(expectation, old(Snapshot()), Arrival(reading), hashes)
    {
      readings := readings + [reading];
    }

    /** One alert row per key; an existing one is counted up and opened again. */
    method RecordAlert(key: string) returns (created: bool)
      modifies this`alerts
      ensures alerts == Record(old(alerts), key) && created == (key !in old(alerts))
    {
      created := key !in alerts;
      if created {
        alerts := alerts[key := Alert(1, true)];
        return;
      }
      var alert := alerts[key];
      alert := alert.(open := true, occurrences := alert.occurrences + 1);
      alerts := alerts[key := alert];
    }

    method LatestReading() returns (last: Option<Reading>)
      ensures last == Latest(readings)
    {
      last := None;
      for i := 0 to |readings|
        invariant last == Latest(readings[..i])
      {
        assert readings[..i + 1][..i] == readings[..i];
        if last.None? || last.value.observedAt <= readings[i].observedAt { last := Some(readings[i]); }
      }
      assert readings[..|readings|] == readings;
    }

    /** Evaluates at `now` and records one alert per finding of the open window. */
    method Evaluate(now: int) returns (r: Evaluated)
      modifies this
      ensures Snapshot() == Step(expectation, old(Snapshot()), Evaluation(now), hashes)
      ensures r.status == StatusAt(expectation, LastObserved(readings), |readings|, now)
      ensures r.findings == FindingsAt(expectation, Latest(readings), now)
    {
      hide StatusAt, FindingsAt, Record, Latest, RecordAll, WindowKey, Due, GraceUntil;
      var last := LatestReading();
      r := EvaluateExpectation(expectation, last, now, Some(|readings|), hashes);
      RecordFindings(r.findings, ObservedAt(last), if r.windowKey.Some? then r.windowKey.value else "");
    }

    /** One alert per finding, all under the key of the same window. */
    method RecordFindings(findings: seq<Name>, last: Option<int>, window: string)
      requires findings != [] ==> window == WindowKey(expectation, last, hashes)
      modifies this`alerts
      ensures alerts == RecordAll(expectation, old(alerts), findings, last, hashes)
    {
      assert alerts == RecordAll(expectation, old(alerts), findings[..0], last, hashes);
      hide Record, RecordAll, WindowKey;
      for i := 0 to |findings|
        invariant alerts == RecordAll(expectation, old(alerts), findings[..i], last, hashes)
      {
        RecordNext(expectation, old(alerts), findings, i, last, hashes);
        var _ := RecordAlert(hashes.finding(expectation.deployment, findings[i], window));
      }
      assert findings[..|findings|] == findings;
    }

    method Decide(key: string) returns (found: bool)
      modifies this`alerts
      ensures Snapshot() == Step(expectation, old(Snapshot()), Decision(key), hashes)
      ensures found == (key in old(alerts))
    {
      found := key in alerts;
      if found { alerts := alerts[key := alerts[key].(open := false)]; }
    }
  }
}
