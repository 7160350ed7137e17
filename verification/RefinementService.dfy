/** The operations of `RefinementService` (src/airi/refinement/service.py) on the stored rows, run
    by one caller at a time. Each is proved to have exactly the effect of its statements in the
    interleaved lifecycle, so what `RefinementRuns` proves of all interleavings holds of it. */
module RefinementServices {
  import opened Documents
  import opened Options
  import opened RefinementTransform
  import opened Refinement
  import opened RefinementLaws
  import opened RefinementRuns

  datatype ServiceError = NotFound | AlreadyDecided | InputChanged | AlreadyEvaluated | DecisionInvalid

  /** What testing and experimenting with the candidate came to. */
  datatype Experiment = TestFailed | ExperimentFailed | Compared(outcome: Outcome)

  function FinalStatus(e: Experiment): Status { if e.Compared? then Completed else Failed }

  function FinalOutcome(e: Experiment): Outcome { if e.Compared? then e.outcome else Inconclusive }

  /** The statements of an uninterrupted evaluation after its compare-and-set: the stored candidate
      is executed for the test, and again for the experiment. */
  function AfterEntry(s: State, e: Experiment, hash: MetricIr -> string): State {
    var tested := Step(s, Execute(0), hash);
    if e.TestFailed? then Step(tested, SaveFailed(0), hash)
    else
      var measured := Step(Step(tested, SaveExperimenting(0), hash), Execute(0), hash);
      Step(measured, if e.Compared? then SaveCompleted(0, e.outcome) else SaveFailed(0), hash)
  }

  function EnteredState(s: State, run: string, hash: MetricIr -> string): State {
    Step(Step(s, CheckRun(0, run), hash), EnterEvaluation(0), hash)
  }

  /** The statements of an uninterrupted evaluation. */
  function Evaluated(s: State, run: string, e: Experiment, hash: MetricIr -> string): State {
    AfterEntry(EnteredState(s, run, hash), e, hash)
  }

  predicate CanEvaluate(s: State, run: string, hash: MetricIr -> string) {
    PassesChecks(s, run, hash) && run in s.runs && s.runs[run].status == PendingCandidateReview
  }

  lemma {:induction false} EnteredEffect(s: State, run: string, hash: MetricIr -> string)
    requires s.sessions == map[]
    ensures var t := EnteredState(s, run, hash);
            if CanEvaluate(s, run, hash) then
              && SessionOf(t, 0) == Evaluating(run, s.reports[run], Untested) && t.reports == s.reports
              && t.runs == s.runs[run := s.runs[run].(status := Testing)] && Verified(t, run, hash)
            else t.runs == s.runs && t.reports == s.reports && !SessionOf(t, 0).Evaluating?
  {
    ChecksNeedReport(s, run, hash);
    hide PassesChecks, NextDecision, WritesDecision, Transformable, Rewritten;
    assert SessionOf(s, 0) == Idle;
    var checked := Step(s, CheckRun(0, run), hash);
    assert if PassesChecks(s, run, hash) then SessionOf(checked, 0) == Checked(run, s.reports[run], s.candidates[run])
           else checked == s;
  }

  /** What the statements of an uninterrupted evaluation do to the rows: everything or nothing. */
  lemma {:induction false} EvaluateEffect(s: State, run: string, e: Experiment, hash: MetricIr -> string)
    requires s.sessions == map[]
    ensures var t := Evaluated(s, run, e, hash);
            if CanEvaluate(s, run, hash) then
              && t.runs == s.runs[run := RunRow(FinalStatus(e), Some(FinalOutcome(e)), s.runs[run].final)]
              && t.reports == s.reports[run := s.reports[run].(status := FinalStatus(e), outcome := Some(FinalOutcome(e)))]
            else t.runs == s.runs && t.reports == s.reports
  {
    EnteredEffect(s, run, hash);
    hide Step, CanEvaluate, EnteredState, Verified, AfterEntry;
    var entered := EnteredState(s, run, hash);
    if SessionOf(entered, 0).Evaluating? { AfterEntryEffect(entered, e, hash); } else { NothingSaved(entered, e, hash); }
  }

  /** Undisturbed, the second execution finds what the first one found. */
  lemma {:induction false} ExecuteEffect(s: State, hash: MetricIr -> string)
    requires SessionOf(s, 0).Evaluating? && SessionOf(s, 0).phase in {Untested, Opened}
    requires Verified(s, SessionOf(s, 0).run, hash)
    ensures var t, session := Step(s, Execute(0), hash), SessionOf(s, 0);
            && t.runs == s.runs && t.reports == s.reports && Verified(t, session.run, hash)
            && SessionOf(t, 0) == session.(phase := if session.phase == Untested then Tested else Measured)
  {
  }

  lemma {:induction false} OpenEffect(s: State, hash: MetricIr -> string)
    requires SessionOf(s, 0).Evaluating? && SessionOf(s, 0).phase == Tested && Verified(s, SessionOf(s, 0).run, hash)
    ensures var t, session := Step(s, SaveExperimenting(0), hash), SessionOf(s, 0);
            && t.runs == s.runs[session.run := RunRow(Experimenting, session.report.outcome,
                                                      session.run in s.runs && s.runs[session.run].final)]
            && t.reports == s.reports[session.run := session.report.(status := Experimenting)]
            && Verified(t, session.run, hash) && SessionOf(t, 0) == session.(phase := Opened)
  {
  }

  lemma {:induction false} FailEffect(s: State, hash: MetricIr -> string)
    requires SessionOf(s, 0).Evaluating?
    ensures var t, session := Step(s, SaveFailed(0), hash), SessionOf(s, 0);
            && t.runs == s.runs[session.run := RunRow(Failed, Some(Inconclusive),
                                                      session.run in s.runs && s.runs[session.run].final)]
            && t.reports == s.reports[session.run := session.report.(status := Failed, outcome := Some(Inconclusive))]
  {
  }

  lemma {:induction false} CompleteEffect(s: State, outcome: Outcome, hash: MetricIr -> string)
    requires SessionOf(s, 0).Evaluating? && SessionOf(s, 0).phase == Measured
    ensures var t, session := Step(s, SaveCompleted(0, outcome), hash), SessionOf(s, 0);
            && t.runs == s.runs[session.run := RunRow(Completed, Some(outcome),
                                                      session.run in s.runs && s.runs[session.run].final)]
            && t.reports == s.reports[session.run := session.report.(status := Completed, outcome := Some(outcome))]
  {
  }

  lemma {:induction false} AfterTestEffect(s: State, e: Experiment, hash: MetricIr -> string)
    requires SessionOf(s, 0).Evaluating? && SessionOf(s, 0).phase == Tested && Verified(s, SessionOf(s, 0).run, hash)
    requires !e.TestFailed?
    ensures var measured := Step(Step(s, SaveExperimenting(0), hash), Execute(0), hash);
            var t := Step(measured, if e.Compared? then SaveCompleted(0, e.outcome) else SaveFailed(0), hash);
            var session := SessionOf(s, 0);
            && t.runs == s.runs[session.run := RunRow(FinalStatus(e), Some(FinalOutcome(e)),
                                                      session.run in s.runs && s.runs[session.run].final)]
            && t.reports
               == s.reports[session.run := session.report.(status := FinalStatus(e), outcome := Some(FinalOutcome(e)))]
  {
    hide Step, Verified, SessionOf;
    OpenEffect(s, hash);
    var open := Step(s, SaveExperimenting(0), hash);
    ExecuteEffect(open, hash);
    if e.Compared? {
      CompleteEffect(Step(open, Execute(0), hash), e.outcome, hash);
    } else {
      FailEffect(Step(open, Execute(0), hash), hash);
    }
  }

  lemma {:induction false} AfterEntryEffect(s: State, e: Experiment, hash: MetricIr -> string)
    requires SessionOf(s, 0).Evaluating? && SessionOf(s, 0).phase == Untested && Verified(s, SessionOf(s, 0).run, hash)
    ensures var t, session := AfterEntry(s, e, hash), SessionOf(s, 0);
            && t.runs == s.runs[session.run := RunRow(FinalStatus(e), Some(FinalOutcome(e)),
                                                      session.run in s.runs && s.runs[session.run].final)]
            && t.reports
               == s.reports[session.run := session.report.(status := FinalStatus(e), outcome := Some(FinalOutcome(e)))]
  {
    hide Step, Verified, SessionOf;
    ExecuteEffect(s, hash);
    var tested := Step(s, Execute(0), hash);
    if e.TestFailed? { FailEffect(tested, hash); } else { AfterTestEffect(tested, e, hash); }
  }

  lemma {:induction false} NotEvaluating(s: State, hash: MetricIr -> string, a: Action)
    requires a.Execute? || a.SaveExperimenting? || a.SaveFailed? || a.SaveCompleted?
    requires a.session == 0 && !SessionOf(s, 0).Evaluating?
    ensures Step(s, a, hash) == s
  {
  }

  lemma {:induction false} NothingSaved(s: State, e: Experiment, hash: MetricIr -> string)
    requires !SessionOf(s, 0).Evaluating?
    ensures AfterEntry(s, e, hash) == s
  {
    NotEvaluating(s, hash, Execute(0));
    NotEvaluating(s, hash, SaveExperimenting(0));
    NotEvaluating(s, hash, SaveFailed(0));
    NotEvaluating(s, hash, SaveCompleted(0, FinalOutcome(e)));
    hide Step;
  }

  predicate CanConclude(s: State, run: string) {
    && run in s.reports && run in s.runs && Finished(s.reports[run].status) && s.reports[run].finalDecision == None
    && !s.runs[run].final && Finished(s.runs[run].status)
  }

  lemma {:induction false} ReadReportEffect(s: State, run: string, decision: string, hash: MetricIr -> string)
    requires SessionOf(s, 0) == Idle
    ensures var t := Step(s, ReadReport(0, run, decision), hash);
            && t.runs == s.runs && t.reports == s.reports
            && if run in s.reports && Finished(s.reports[run].status) && s.reports[run].finalDecision == None
               then SessionOf(t, 0) == Concluding(run, s.reports[run], decision) else t == s
  {
    hide AfterReadProposal, AfterWriteDecision, AfterCreate, AfterEdit, AfterCheck, AfterEnter, AfterExecute, AfterOpen,
         AfterComplete, AfterFail, AfterConclude;
  }

  lemma {:induction false} ConcludeEffect(s: State, hash: MetricIr -> string)
    ensures var t := Step(s, Conclude(0), hash);
            match SessionOf(s, 0)
            case Concluding(run, report, decision) =>
              if run in s.runs && !s.runs[run].final && Finished(s.runs[run].status) then
                && t.runs == s.runs[run := RunRow(report.status, report.outcome, true)]
                && t.reports == s.reports[run := report.(finalDecision := Some(decision))]
              else t.runs == s.runs && t.reports == s.reports
            case _ => t == s
  {
    hide AfterReadProposal, AfterWriteDecision, AfterCreate, AfterEdit, AfterCheck, AfterEnter, AfterExecute, AfterOpen,
         AfterComplete, AfterFail, AfterReadReport;
  }

  lemma {:induction false} ConcludedEffect(s: State, run: string, decision: string, hash: MetricIr -> string)
    requires s.sessions == map[]
    ensures var t := Step(Step(s, ReadReport(0, run, decision), hash), Conclude(0), hash);
            if CanConclude(s, run) then
              var report := s.reports[run].(finalDecision := Some(decision));
              && t.runs == s.runs[run := RunRow(report.status, report.outcome, true)]
              && t.reports == s.reports[run := report]
            else t.runs == s.runs && t.reports == s.reports
  {
    assert SessionOf(s, 0) == Idle;
    hide Step;
    ReadReportEffect(s, run, decision, hash);
    ConcludeEffect(Step(s, ReadReport(0, run, decision), hash), hash);
  }

  /** The rows that the statements of a finished session leave to the next one. */
  function Committed(s: State): State { s.(sessions := map[]) }

  /** An accepted proposal goes all the way: a new run for it is created with the rewritten document in
      review, its evaluation finishes it with the outcome of the experiment, or inconclusive, and a final
      decision is recorded on it. */
  lemma {:induction false} AcceptedProposalConcludes(
      s: State, run: string, plan: Plan, e: Experiment, decision: string, hash: MetricIr -> string)
    requires s.sessions == map[] && run !in s.runs
    requires plan.proposal in s.decisions && s.decisions[plan.proposal].current.verdict == Accepted
    requires Transformable(plan.baseline, plan.days)
    ensures var created := Step(s, Create(run, plan), hash);
            var evaluated := Committed(Evaluated(created, run, e, hash));
            var concluded := Step(Step(evaluated, ReadReport(0, run, decision), hash), Conclude(0), hash);
            var outcome := if e.Compared? then e.outcome else Inconclusive;
            && run in created.runs && created.runs[run] == RunRow(PendingCandidateReview, None, false)
            && run in created.candidates && created.candidates[run] == Rewritten(plan.baseline, plan.days)
            && run in evaluated.runs
            && evaluated.runs[run] == RunRow(if e.Compared? then Completed else Failed, Some(outcome), false)
            && run in concluded.runs && concluded.runs[run] == evaluated.runs[run].(final := true)
            && run in concluded.reports && concluded.reports[run].finalDecision == Some(decision)
            && concluded.reports[run].outcome == Some(outcome)
  {
    var created := Step(s, Create(run, plan), hash);
    var evaluated := Committed(Evaluated(created, run, e, hash));
    CreatedCanEvaluate(s, run, plan, hash);
    EvaluateEffect(created, run, e, hash);
    hide Step, Evaluated, CanEvaluate, Transformable, Rewritten;
    ConcludedEffect(evaluated, run, decision, hash);
  }

  lemma {:induction false} CreatedCanEvaluate(s: State, run: string, plan: Plan, hash: MetricIr -> string)
    requires s.sessions == map[] && run !in s.runs
    requires plan.proposal in s.decisions && s.decisions[plan.proposal].current.verdict == Accepted
    requires Transformable(plan.baseline, plan.days)
    ensures var t := Step(s, Create(run, plan), hash);
            && CanEvaluate(t, run, hash) && t.sessions == map[]
            && run in t.runs && t.runs[run] == RunRow(PendingCandidateReview, None, false)
            && run in t.reports && t.reports[run] == Report(PendingCandidateReview, None, None)
            && run in t.candidates && t.candidates[run] == Rewritten(plan.baseline, plan.days)
  {
    hide Transformable, Rewritten;
  }

  class RefinementService {
    const hash: MetricIr -> string
    var decisions: map<string, DecisionRow>
    var plans: map<string, Plan>
    var candidates: map<string, MetricIr>
    var rowHashes: map<string, string>
    var runs: map<string, RunRow>
    var reports: map<string, Report>

    constructor (hash: MetricIr -> string)
      ensures Valid() && this.hash == hash && Store() == EMPTY
    {
      this.hash := hash;
      decisions, plans, candidates, rowHashes, runs, reports := map[], map[], map[], map[], map[], map[];
    }

    /** The committed rows as a lifecycle state without open sessions. */
    function Store(): State
      reads this
    {
      State(decisions, plans, candidates, rowHashes, runs, reports, map[], [])
    }

    ghost predicate Valid()
      reads this
    {
      RowsAgree(Store())
    }

    /** Undisturbed, a decision always keeps the whole history; a final verdict or a repeated one
        is refused. */
    method Decide(proposal: string, entry: Entry, newId: string) returns (r: Result<DecisionRow, ServiceError>)
      requires Valid()
      modifies this`decisions
      ensures Valid()
      ensures r.Err? <==> proposal in old(decisions)
                          && old(decisions)[proposal].current.verdict in {Accepted, Rejected, entry.verdict}
      ensures r.Err? ==> decisions == old(decisions) && r.error == AlreadyDecided
      ensures r.Ok? ==>
                && decisions == old(decisions)[proposal := r.value] && r.value.current == entry
                && (proposal in old(decisions) ==>
                      r.value.decisionId == old(decisions)[proposal].decisionId && Appends(old(decisions)[proposal], r.value))
                && (proposal !in old(decisions) ==> r.value == DecisionRow(newId, entry, []))
      ensures var read := Step(old(Store()), ReadProposal(0, proposal, entry), hash);
              decisions == Step(read, WriteDecision(0, newId), hash).decisions
    {
      ReadThenWrite(Store(), 0, proposal, entry, newId, hash);
      hide Step;
      if proposal in decisions {
        var previous := decisions[proposal];
        if Final(previous.current.verdict) { return Err(AlreadyDecided); }
        if previous.current.verdict == entry.verdict { return Err(AlreadyDecided); }
        var next := DecisionRow(previous.decisionId, entry, previous.previous + [previous.current]);
        decisions := decisions[proposal := next];
        return Ok(next);
      }
      decisions := decisions[proposal := DecisionRow(newId, entry, [])];
      r := Ok(decisions[proposal]);
    }

    /** Row fields and document are overwritten with the given report. */
    method Save(run: string, report: Report)
      requires run in runs
      modifies this`runs, this`reports
      ensures runs == old(runs)[run := RunRow(report.status, report.outcome, old(runs)[run].final)]
      ensures reports == old(reports)[run := report]
    {
      runs := runs[run := runs[run].(status := report.status, outcome := report.outcome)];
      reports := reports[run := report];
    }

    /** An evaluation that passes its checks on a run in review finishes it, one way or the other;
        any other changes nothing. */
    method Evaluate(run: string, e: Experiment) returns (r: Result<Report, ServiceError>)
      requires Valid()
      modifies this`runs, this`reports
      ensures Valid()
      ensures r.Ok? <==>
                && run in old(reports) && run in old(runs) && run in old(plans)
                && var plan := old(plans)[run];
                   && old(runs)[run].status == PendingCandidateReview
                   && plan.proposal in old(decisions) && old(decisions)[plan.proposal].current.verdict == Accepted
                   && run in old(candidates) && run in old(rowHashes)
                   && hash(old(candidates)[run]) == old(rowHashes)[run]
                   && Transformable(plan.baseline, plan.days)
                   && hash(old(candidates)[run]) == hash(Rewritten(plan.baseline, plan.days))
      ensures r == Err(AlreadyEvaluated)
              <==> PassesChecks(old(Store()), run, hash) && old(runs)[run].status != PendingCandidateReview
      ensures var t := Evaluated(old(Store()), run, e, hash); runs == t.runs && reports == t.reports
      ensures r.Ok? ==>
                && r.value == reports[run] && r.value.outcome == Some(FinalOutcome(e))
                && r.value.status == FinalStatus(e)
                && runs[run].status == FinalStatus(e) && Finished(runs[run].status)
    {
      EvaluatesExactly(Store(), run, hash);
      hide Evaluated, PassesChecks, CanEvaluate, RowsAgree, Step, Transformable, Rewritten;
      ChecksNeedReport(Store(), run, hash);
      EvaluateEffect(Store(), run, e, hash);
      CanEvaluateMeans(Store(), run, hash);
      if run !in reports { return Err(NotFound); }
      if !PassesChecks(Store(), run, hash) { return Err(InputChanged); }
      RowFound(Store(), run);
      if runs[run].status != PendingCandidateReview { return Err(AlreadyEvaluated); }
      var report := Finish(run, reports[run], e);
      r := Ok(report);
    }

    /** The part of an evaluation after its compare-and-set has won. */
    method Finish(run: string, stored: Report, e: Experiment) returns (report: Report)
      requires Valid() && run in runs && run in reports && stored == reports[run] && stored.finalDecision == None
      requires !runs[run].final
      modifies this`runs, this`reports
      ensures Valid()
      ensures report == stored.(status := FinalStatus(e), outcome := Some(FinalOutcome(e))) && Finished(report.status)
      ensures runs == old(runs)[run := RunRow(FinalStatus(e), Some(FinalOutcome(e)), old(runs)[run].final)]
      ensures reports == old(reports)[run := report]
    {
      hide RowsAgree, RunAgrees, FinalStatus, FinalOutcome, Finished;
      ghost var before := Store();
      FinishedAgrees(stored, e);
      report := stored;
      runs := runs[run := runs[run].(status := Testing)];
      report := report.(status := Testing);
      if !e.TestFailed? {
        report := report.(status := Experimenting);
        Save(run, report);
      }
      if e.Compared? {
        report := report.(status := Completed, outcome := Some(e.outcome));
      } else {
        report := report.(status := Failed, outcome := Some(Inconclusive));
      }
      Save(run, report);
      OneRunRewritten(before, Store(), run);
    }

    /** A final decision is recorded once, only on a finished run, and changes nothing else of it. */
    method FinalDecision(run: string, decision: string) returns (r: Result<Report, ServiceError>)
      requires Valid()
      modifies this`runs, this`reports
      ensures Valid()
      ensures r.Ok? <==> run in old(runs) && Finished(old(runs)[run].status) && !old(runs)[run].final
      ensures var t := Step(Step(old(Store()), ReadReport(0, run, decision), hash), Conclude(0), hash);
              runs == t.runs && reports == t.reports
      ensures r.Ok? ==>
                && runs == old(runs)[run := old(runs)[run].(final := true)]
                && reports == old(reports)[run := old(reports)[run].(finalDecision := Some(decision))]
    {
      ConcludedEffect(Store(), run, decision, hash);
      hide Step, RowsAgree;
      MissingRun(Store(), run);
      if run !in reports { return Err(NotFound); }
      var report := reports[run];
      RowFound(Store(), run);
      if !Finished(report.status) || report.finalDecision != None { return Err(DecisionInvalid); }
      ghost var before := Store();
      runs := runs[run := runs[run].(final := true)];
      report := report.(finalDecision := Some(decision));
      Save(run, report);
      OneRunRewritten(before, Store(), run);
      r := Ok(report);
    }
  }

  /** What the two endings of an evaluation write agrees, row with report. */
  lemma {:induction false} FinishedAgrees(stored: Report, e: Experiment)
    requires stored.finalDecision == None
    ensures var report := stored.(status := FinalStatus(e), outcome := Some(FinalOutcome(e)));
            Finished(report.status) && RunAgrees(RunRow(report.status, report.outcome, false), report)
    ensures FinalStatus(e) == (if e.Compared? then Completed else Failed)
    ensures FinalOutcome(e) == (if e.Compared? then e.outcome else Inconclusive)
  {
  }

  /** What an evaluation needs of the rows. */
  lemma {:induction false} EvaluatesExactly(s: State, run: string, hash: MetricIr -> string)
    ensures CanEvaluate(s, run, hash)
            <==> && run in s.reports && run in s.runs && run in s.plans
                 && var plan := s.plans[run];
                    && s.runs[run].status == PendingCandidateReview
                    && plan.proposal in s.decisions && s.decisions[plan.proposal].current.verdict == Accepted
                    && run in s.candidates && run in s.rowHashes && hash(s.candidates[run]) == s.rowHashes[run]
                    && Transformable(plan.baseline, plan.days)
                    && hash(s.candidates[run]) == hash(Rewritten(plan.baseline, plan.days))
  {
    hide Transformable, Rewritten;
  }

  lemma {:induction false} ChecksNeedReport(s: State, run: string, hash: MetricIr -> string)
    ensures PassesChecks(s, run, hash) ==> run in s.reports && run in s.candidates && Verified(s, run, hash)
  {
  }

  lemma {:induction false} CanEvaluateMeans(s: State, run: string, hash: MetricIr -> string)
    requires RowsAgree(s)
    ensures CanEvaluate(s, run, hash)
            <==> PassesChecks(s, run, hash) && run in s.runs && s.runs[run].status == PendingCandidateReview
    ensures CanEvaluate(s, run, hash) ==> run in s.reports && s.reports[run].finalDecision == None && !s.runs[run].final
    ensures PassesChecks(s, run, hash) ==> run in s.runs
  {
    hide Transformable, Rewritten;
    if run in s.runs { assert RunAgrees(s.runs[run], s.reports[run]); }
  }

  lemma {:induction false} MissingRun(s: State, run: string)
    requires RowsAgree(s)
    ensures run in s.runs <==> run in s.reports
  {
  }

  lemma {:induction false} RowFound(s: State, run: string)
    requires RowsAgree(s) && run in s.reports
    ensures run in s.runs && RunAgrees(s.runs[run], s.reports[run])
  {
  }

  lemma {:induction false} OneRunRewritten(s: State, t: State, run: string)
    requires RowsAgree(s) && run in s.runs && run in t.runs && run in t.reports
    requires t.plans == s.plans && t.candidates == s.candidates && t.rowHashes == s.rowHashes
    requires t.runs == s.runs[run := t.runs[run]] && t.reports == s.reports[run := t.reports[run]]
    requires RunAgrees(t.runs[run], t.reports[run])
    ensures RowsAgree(t)
  {
    hide RunAgrees;
  }
}
