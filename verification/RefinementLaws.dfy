/** What every reachable state of the refinement lifecycle satisfies. */
module RefinementLaws {
  import opened Documents
  import opened Options
  import opened RefinementTransform
  import opened Refinement

  // ------------------------------------------------------------ the invariant

  /** Row and document of one run: an outcome exactly when finished, a final decision exactly
      when recorded and only on finished runs, and agreement once the run is finished. */
  ghost predicate RunAgrees(row: RunRow, report: Report) {
    && (row.outcome.Some? <==> Finished(row.status))
    && (row.final ==> Finished(row.status))
    && (report.finalDecision.Some? <==> row.final)
    && report.outcome == row.outcome
    && (if row.status == Testing then report.status == PendingCandidateReview else report.status == row.status)
  }

  ghost predicate RowsAgree(s: State) {
    && s.runs.Keys == s.reports.Keys == s.plans.Keys == s.candidates.Keys == s.rowHashes.Keys
    && forall r | r in s.runs :: RunAgrees(s.runs[r], s.reports[r])
  }

  /** Every run belongs to a proposal that is accepted, and its baseline can be transformed. */
  ghost predicate PlansAgree(s: State) {
    forall r | r in s.plans ::
      && Transformable(s.plans[r].baseline, s.plans[r].days)
      && s.plans[r].proposal in s.decisions && s.decisions[s.plans[r].proposal].current.verdict == Accepted
  }

  ghost predicate RunsAgree(s: State) { RowsAgree(s) && PlansAgree(s) }

  /** The document hashes equal to a fresh transform of the plan's baseline. */
  ghost predicate MatchesPlan(candidate: MetricIr, plan: Plan, hash: MetricIr -> string) {
    Transformable(plan.baseline, plan.days) && hash(candidate) == hash(Rewritten(plan.baseline, plan.days))
  }

  ghost predicate SessionAgrees(s: State, id: nat, hash: MetricIr -> string) {
    match SessionOf(s, id)
    case Idle => true
    case Deciding(proposal, entry, previous) =>
      previous.Some? ==> !Final(previous.value.current.verdict)
    case Checked(run, report, candidate) =>
      && run in s.runs && run in s.plans && run in s.reports && MatchesPlan(candidate, s.plans[run], hash)
      && (s.runs[run].status == PendingCandidateReview ==> report == s.reports[run])
    case Evaluating(run, report, phase) =>
      && run in s.runs && (s.runs[run].status == Testing || s.runs[run].status == Experimenting)
      && report == Report(PendingCandidateReview, None, None)
    case Concluding(run, report, decision) =>
      && run in s.runs && run in s.reports && Finished(s.runs[run].status) && Finished(report.status)
      && report.finalDecision == None
      && (!s.runs[run].final ==> report == s.reports[run])
  }

  /** At most one session evaluates a run. */
  ghost predicate OneEvaluator(s: State) {
    forall i: nat, j: nat | SessionOf(s, i).Evaluating? && SessionOf(s, j).Evaluating?
                            && SessionOf(s, i).run == SessionOf(s, j).run :: i == j
  }

  function Entries(log: seq<Event>, run: string): nat {
    if log == [] then 0
    else Entries(log[..|log| - 1], run) + (if log[|log| - 1].Entered? && log[|log| - 1].run == run then 1 else 0)
  }

  function Conclusions(log: seq<Event>, run: string): nat {
    if log == [] then 0
    else Conclusions(log[..|log| - 1], run) + (if log[|log| - 1].Concluded? && log[|log| - 1].run == run then 1 else 0)
  }

  /** One entry per run past review, and one conclusion per recorded final decision. */
  ghost predicate LogAgrees(s: State) {
    && (forall r :: Entries(s.log, r) == if r in s.runs && s.runs[r].status != PendingCandidateReview then 1 else 0)
    && (forall r :: Conclusions(s.log, r) == if r in s.runs && s.runs[r].final then 1 else 0)
  }

  ghost predicate Inv(s: State, hash: MetricIr -> string) {
    && RunsAgree(s) && OneEvaluator(s) && LogAgrees(s)
    && forall id: nat :: SessionAgrees(s, id, hash)
  }

  // ------------------------------------------------------------ steps that write no run

  lemma {:induction false} TablesUnmoved(s: State, t: State)
    requires RunsAgree(s) && LogAgrees(s)
    requires t.decisions == s.decisions && t.plans == s.plans && t.candidates == s.candidates
    requires t.rowHashes == s.rowHashes
    requires t.runs == s.runs && t.reports == s.reports && t.log == s.log
    ensures RunsAgree(t) && LogAgrees(t)
  {
    hide MatchesPlan, RunAgrees, Entries, Conclusions;
  }

  lemma {:induction false} EvaluatorLeaves(s: State, t: State, id: nat)
    requires OneEvaluator(s) && !SessionOf(t, id).Evaluating?
    requires forall k: nat | k != id :: SessionOf(t, k) == SessionOf(s, k)
    ensures OneEvaluator(t)
  {
  }

  lemma {:induction false} SessionUnmoved(s: State, t: State, id: nat, hash: MetricIr -> string)
    requires SessionAgrees(s, id, hash) && SessionOf(t, id) == SessionOf(s, id)
    requires t.runs == s.runs && t.reports == s.reports && t.plans == s.plans
    ensures SessionAgrees(t, id, hash)
  {
    hide MatchesPlan;
  }

  /** A step that only gives one session a new, non-evaluating state. */
  lemma {:induction false} SessionStepKeeps(s: State, id: nat, session: Session, hash: MetricIr -> string)
    requires Inv(s, hash) && !session.Evaluating?
    requires SessionAgrees(WithSession(s, id, session), id, hash)
    ensures Inv(WithSession(s, id, session), hash)
  {
    hide RunsAgree, LogAgrees, OneEvaluator, SessionAgrees;
    var t := WithSession(s, id, session);
    assert forall k: nat | k != id :: SessionOf(t, k) == SessionOf(s, k);
    TablesUnmoved(s, t);
    EvaluatorLeaves(s, t, id);
    forall k: nat ensures SessionAgrees(t, k, hash) {
      if k != id { SessionUnmoved(s, t, k, hash); }
    }
  }

  lemma {:induction false} IdleKeeps(s: State, id: nat, hash: MetricIr -> string)
    requires Inv(s, hash)
    ensures Inv(WithSession(s, id, Idle), hash)
  {
    SessionStepKeeps(s, id, Idle, hash);
  }

  lemma {:induction false} ReadStepKeeps(s: State, a: Action, hash: MetricIr -> string)
    requires Inv(s, hash) && (a.ReadProposal? || a.CheckRun? || a.ReadReport?)
    ensures Inv(Step(s, a, hash), hash)
  {
    var t := Step(s, a, hash);
    if t != s {
      ReadEffect(s, a, hash);
      hide Inv, Step, SessionAgrees;
      SessionStepKeeps(s, a.session, SessionOf(t, a.session), hash);
    }
  }

  /** A statement that only reads leaves what it saw in its own session. */
  lemma {:induction false} ReadEffect(s: State, a: Action, hash: MetricIr -> string)
    requires a.ReadProposal? || a.CheckRun? || a.ReadReport?
    requires RowsAgree(s) && Step(s, a, hash) != s
    ensures var t := Step(s, a, hash);
            && t == WithSession(s, a.session, SessionOf(t, a.session))
            && !SessionOf(t, a.session).Evaluating? && SessionAgrees(t, a.session, hash)
  {
    hide Transformable, Rewritten;
  }

  /** An accepted or rejected verdict survives every write: the compare-and-set of a decider that
      read an open verdict cannot match it. */
  lemma {:induction false} WriteRespectsFinal(
      s: State, id: nat, newId: string, hash: MetricIr -> string, proposal: string)
    requires Inv(s, hash) && proposal in s.decisions && Final(s.decisions[proposal].current.verdict)
    ensures var t := Step(s, WriteDecision(id, newId), hash);
            proposal in t.decisions && t.decisions[proposal] == s.decisions[proposal]
  {
    hide RunsAgree, OneEvaluator, LogAgrees, MatchesPlan;
    assert SessionAgrees(s, id, hash);
    hide Inv, AfterReadProposal, AfterCreate, AfterEdit, AfterCheck, AfterEnter, AfterExecute, AfterOpen, AfterComplete,
         AfterFail, AfterReadReport, AfterConclude;
  }

  lemma {:induction false} WriteDecisionKeeps(s: State, id: nat, newId: string, hash: MetricIr -> string)
    requires Inv(s, hash)
    ensures Inv(Step(s, WriteDecision(id, newId), hash), hash)
  {
    var t := Step(s, WriteDecision(id, newId), hash);
    assert t == s || t == WithSession(s, id, Idle).(decisions := t.decisions) by {
      assert t == AfterWriteDecision(s, id, newId);
    }
    hide Step, OneEvaluator, LogAgrees, SessionAgrees, RowsAgree, Transformable;
    if t != s {
      var idle := WithSession(s, id, Idle);
      IdleKeeps(s, id, hash);
      assert RunsAgree(s);
      forall r | r in s.plans
        ensures s.plans[r].proposal in t.decisions && t.decisions[s.plans[r].proposal].current.verdict == Accepted
      {
        WriteRespectsFinal(s, id, newId, hash, s.plans[r].proposal);
      }
      assert PlansAgree(t);
      hide PlansAgree, Inv;
      RowsUntouched(s, t);
      DecisionsIrrelevant(idle, t, hash);
    }
  }

  lemma {:induction false} RowsUntouched(s: State, t: State)
    requires RowsAgree(s) && t.runs == s.runs && t.reports == s.reports && t.plans == s.plans
    requires t.candidates == s.candidates && t.rowHashes == s.rowHashes
    ensures RowsAgree(t)
  {
  }

  lemma {:induction false} DecisionsIrrelevant(s: State, t: State, hash: MetricIr -> string)
    requires Inv(s, hash) && t == s.(decisions := t.decisions) && RunsAgree(t)
    ensures Inv(t, hash)
  {
    forall k: nat ensures SessionAgrees(t, k, hash) { assert SessionAgrees(s, k, hash); }
    assert forall k: nat :: SessionOf(t, k) == SessionOf(s, k);
  }

  /** Runs that exist in `s` are the same in `t`, and sessions and history are unchanged. */
  ghost predicate KeepsRuns(s: State, t: State) {
    && t.sessions == s.sessions && t.log == s.log
    && (forall r | r in s.runs :: r in t.runs && t.runs[r] == s.runs[r])
    && (forall r | r in s.reports :: r in t.reports && t.reports[r] == s.reports[r])
    && (forall r | r in s.plans :: r in t.plans && t.plans[r] == s.plans[r])
    && (forall r | r in t.runs && r !in s.runs :: t.runs[r] == RunRow(PendingCandidateReview, None, false))
  }

  lemma {:induction false} KeepsRunsSession(s: State, t: State, id: nat, hash: MetricIr -> string)
    requires KeepsRuns(s, t) && SessionAgrees(s, id, hash)
    ensures SessionAgrees(t, id, hash) && SessionOf(t, id) == SessionOf(s, id)
  {
    hide MatchesPlan;
  }

  lemma {:induction false} KeepsRunsLog(s: State, t: State)
    requires KeepsRuns(s, t) && LogAgrees(s)
    ensures LogAgrees(t)
  {
    hide MatchesPlan, Entries, Conclusions;
    forall r ensures Entries(t.log, r) == if r in t.runs && t.runs[r].status != PendingCandidateReview then 1 else 0 {
      assert Entries(s.log, r) == if r in s.runs && s.runs[r].status != PendingCandidateReview then 1 else 0;
    }
    forall r ensures Conclusions(t.log, r) == if r in t.runs && t.runs[r].final then 1 else 0 {
      assert Conclusions(s.log, r) == if r in s.runs && s.runs[r].final then 1 else 0;
    }
  }

  lemma {:induction false} KeepsRunsKeeps(s: State, t: State, hash: MetricIr -> string)
    requires Inv(s, hash) && KeepsRuns(s, t) && RunsAgree(t)
    ensures Inv(t, hash)
  {
    KeepsRunsLog(s, t);
    hide LogAgrees, RunsAgree, KeepsRuns;
    forall k: nat ensures SessionAgrees(t, k, hash) && SessionOf(t, k) == SessionOf(s, k) {
      assert SessionAgrees(s, k, hash);
      hide SessionAgrees;
      KeepsRunsSession(s, t, k, hash);
    }
    hide SessionAgrees;
    assert OneEvaluator(t);
  }

  /** `t` is `s` with one new run, created from an accepted proposal. */
  ghost predicate Creates(s: State, t: State, run: string, plan: Plan) {
    && run !in s.runs && Transformable(plan.baseline, plan.days)
    && plan.proposal in s.decisions && s.decisions[plan.proposal].current.verdict == Accepted
    && t.runs == s.runs[run := RunRow(PendingCandidateReview, None, false)]
    && t.reports == s.reports[run := Report(PendingCandidateReview, None, None)]
    && t.plans == s.plans[run := plan] && t.candidates.Keys == s.candidates.Keys + {run}
    && t.rowHashes.Keys == s.rowHashes.Keys + {run}
    && t.decisions == s.decisions && t.sessions == s.sessions && t.log == s.log
  }

  lemma {:induction false} CreateEffect(s: State, run: string, plan: Plan, hash: MetricIr -> string)
    ensures var t := Step(s, Create(run, plan), hash); t == s || Creates(s, t, run, plan)
  {
    hide Transformable, Rewritten;
  }

  lemma {:induction false} CreatePlans(s: State, t: State, run: string, plan: Plan)
    requires PlansAgree(s) && Creates(s, t, run, plan)
    ensures PlansAgree(t)
  {
    hide Transformable;
  }

  lemma {:induction false} CreateKeepsRuns(s: State, t: State, run: string, plan: Plan)
    requires s.runs.Keys == s.reports.Keys == s.plans.Keys && Creates(s, t, run, plan)
    ensures KeepsRuns(s, t)
  {
    hide Transformable;
    assert run !in s.reports && run !in s.plans;
  }

  lemma {:induction false} CreateRows(s: State, t: State, run: string, plan: Plan)
    requires RowsAgree(s) && Creates(s, t, run, plan)
    ensures RowsAgree(t)
  {
    hide Transformable;
    assert run in t.runs && RunAgrees(t.runs[run], t.reports[run]);
    forall r | r in t.runs ensures r in t.reports && RunAgrees(t.runs[r], t.reports[r]) {
      if r != run { assert r in s.runs; }
    }
    assert t.runs.Keys == s.runs.Keys + {run};
    assert t.reports.Keys == s.reports.Keys + {run};
    assert t.plans.Keys == s.plans.Keys + {run};
  }

  lemma {:induction false} CreateRuns(s: State, t: State, run: string, plan: Plan)
    requires RunsAgree(s) && Creates(s, t, run, plan)
    ensures RunsAgree(t) && KeepsRuns(s, t)
  {
    hide PlansAgree, Creates, KeepsRuns, RunAgrees;
    CreatePlans(s, t, run, plan);
    CreateKeepsRuns(s, t, run, plan);
    CreateRows(s, t, run, plan);
  }

  lemma {:induction false} CreateKeeps(s: State, run: string, plan: Plan, hash: MetricIr -> string)
    requires Inv(s, hash)
    ensures Inv(Step(s, Create(run, plan), hash), hash)
  {
    hide RunsAgree, KeepsRuns, LogAgrees, SessionAgrees, OneEvaluator, Step, Creates;
    var t := Step(s, Create(run, plan), hash);
    CreateEffect(s, run, plan, hash);
    if t != s {
      CreateRuns(s, t, run, plan);
      KeepsRunsKeeps(s, t, hash);
    }
  }

  lemma {:induction false} EditRuns(s: State, run: string, candidate: MetricIr, hash: MetricIr -> string)
    requires RunsAgree(s)
    ensures var t := Step(s, EditCandidate(run, candidate), hash); RunsAgree(t) && KeepsRuns(s, t)
  {
    hide Transformable, Rewritten;
  }

  lemma {:induction false} EditKeeps(s: State, run: string, candidate: MetricIr, hash: MetricIr -> string)
    requires Inv(s, hash)
    ensures Inv(Step(s, EditCandidate(run, candidate), hash), hash)
  {
    hide RunsAgree, KeepsRuns, LogAgrees, SessionAgrees, OneEvaluator, Step;
    EditRuns(s, run, candidate, hash);
    KeepsRunsKeeps(s, Step(s, EditCandidate(run, candidate), hash), hash);
  }

  // ------------------------------------------------------------ steps that write one run

  /** Session `id` moves run `run` from one row and document to another; nothing else changes. */
  ghost predicate WritesRun(s: State, t: State, id: nat, run: string, row: RunRow, report: Report) {
    && run in s.runs && run in s.reports
    && t.runs == s.runs[run := row] && t.reports == s.reports[run := report]
    && t.decisions == s.decisions && t.plans == s.plans && t.candidates == s.candidates && t.rowHashes == s.rowHashes
    && forall k: nat | k != id :: SessionOf(t, k) == SessionOf(s, k)
  }

  /** Other sessions tolerate the move: review and finished rows are only left by their own
      compare-and-set, and a finished document only gains its final decision. */
  ghost predicate Tolerable(before: RunRow, beforeReport: Report, after: RunRow, afterReport: Report) {
    && (after.status == PendingCandidateReview ==> before.status == PendingCandidateReview && afterReport == beforeReport)
    && (Finished(before.status) ==> Finished(after.status) && (!after.final ==> afterReport == beforeReport))
    && (before.final ==> after.final)
  }

  lemma {:induction false} OthersTolerate(
      s: State, t: State, id: nat, run: string, row: RunRow, report: Report, hash: MetricIr -> string, k: nat)
    requires Inv(s, hash) && WritesRun(s, t, id, run, row, report) && k != id
    requires Tolerable(s.runs[run], s.reports[run], row, report)
    requires SessionOf(s, k).Evaluating? && SessionOf(s, k).run == run ==> row == s.runs[run]
    ensures SessionAgrees(t, k, hash)
  {
    hide RunsAgree, OneEvaluator, LogAgrees, MatchesPlan;
    assert SessionAgrees(s, k, hash);
    hide Inv;
  }

  lemma {:induction false} WrittenRunsAgree(s: State, t: State, id: nat, run: string, row: RunRow, report: Report)
    requires RunsAgree(s) && WritesRun(s, t, id, run, row, report) && RunAgrees(row, report)
    ensures RunsAgree(t)
  {
    hide Transformable, RunAgrees;
  }

  lemma {:induction false} WrittenOneEvaluator(s: State, t: State, id: nat, run: string, row: RunRow, report: Report)
    requires OneEvaluator(s) && WritesRun(s, t, id, run, row, report)
    requires forall k: nat | k != id && SessionOf(s, k).Evaluating? :: SessionOf(s, k).run != run
    requires SessionOf(t, id).Evaluating? ==> SessionOf(t, id).run == run
    ensures OneEvaluator(t)
  {
  }

  /** What a write of one run leaves to show: the new row and document agree, the others tolerate
      the move, the writer's own session and the history are right, and no evaluator joins. */
  lemma {:induction false} WriteKeeps(
      s: State, t: State, id: nat, run: string, row: RunRow, report: Report, hash: MetricIr -> string)
    requires Inv(s, hash) && WritesRun(s, t, id, run, row, report)
    requires RunAgrees(row, report) && Tolerable(s.runs[run], s.reports[run], row, report)
    requires forall k: nat | k != id && SessionOf(s, k).Evaluating? :: SessionOf(s, k).run != run
    requires SessionOf(t, id).Evaluating? ==> SessionOf(t, id).run == run
    requires SessionAgrees(t, id, hash) && LogAgrees(t)
    ensures Inv(t, hash)
  {
    hide LogAgrees, RunsAgree, RunAgrees, OneEvaluator, SessionAgrees, Tolerable, WritesRun;
    WrittenRunsAgree(s, t, id, run, row, report);
    WrittenOneEvaluator(s, t, id, run, row, report);
    forall k: nat ensures SessionAgrees(t, k, hash) {
      if k != id {
        hide RunsAgree, WritesRun, Tolerable, SessionAgrees;
        OthersTolerate(s, t, id, run, row, report, hash, k);
      }
    }
  }

  lemma {:induction false} LogUnchanged(s: State, t: State, run: string)
    requires LogAgrees(s) && t.log == s.log && run in s.runs && run in t.runs
    requires t.runs == s.runs[run := t.runs[run]] && t.runs[run].final == s.runs[run].final
    requires t.runs[run].status == PendingCandidateReview <==> s.runs[run].status == PendingCandidateReview
    ensures LogAgrees(t)
  {
    hide MatchesPlan;
  }

  lemma {:induction false} EvaluatorOwnsRun(s: State, id: nat, hash: MetricIr -> string)
    requires SessionAgrees(s, id, hash) && RowsAgree(s) && SessionOf(s, id).Evaluating?
    ensures var run := SessionOf(s, id).run;
            && run in s.runs && run in s.reports && !Finished(s.runs[run].status) && !s.runs[run].final
            && s.runs[run].status != PendingCandidateReview
            && SessionOf(s, id).report == Report(PendingCandidateReview, None, None)
  {
    assert RunAgrees(s.runs[SessionOf(s, id).run], s.reports[SessionOf(s, id).run]);
  }

  lemma {:induction false} NoOtherEvaluator(s: State, id: nat)
    requires OneEvaluator(s) && SessionOf(s, id).Evaluating?
    ensures forall k: nat | k != id && SessionOf(s, k).Evaluating? :: SessionOf(s, k).run != SessionOf(s, id).run
  {
  }

  /** The evaluator of a run overwrites row and document with its own copy: no outcome while the
      run is open, an outcome once it is finished, and nobody else's write is lost. */
  lemma {:induction false} SaveStepKeeps(s: State, a: Action, hash: MetricIr -> string)
    requires Inv(s, hash) && (a.SaveExperimenting? || a.SaveCompleted? || a.SaveFailed?)
    ensures Inv(Step(s, a, hash), hash)
  {
    var t, id := Step(s, a, hash), a.session;
    if t != s {
      assert SessionOf(s, id).Evaluating?;
      var run := SessionOf(s, id).run;
      assert SessionAgrees(s, id, hash);
      hide Step, PlansAgree, OneEvaluator, SessionAgrees, RowsAgree, LogAgrees;
      EvaluatorOwnsRun(s, id, hash);
      NoOtherEvaluator(s, id);
      SaveEffect(s, a, hash);
      LogUnchanged(s, t, run);
      hide WritesRun, Tolerable;
      WriteKeeps(s, t, id, run, t.runs[run], t.reports[run], hash);
    }
  }

  lemma {:induction false} SaveEffect(s: State, a: Action, hash: MetricIr -> string)
    requires a.SaveExperimenting? || a.SaveCompleted? || a.SaveFailed?
    requires SessionOf(s, a.session).Evaluating? && Step(s, a, hash) != s
    requires var run := SessionOf(s, a.session).run;
             && run in s.runs && run in s.reports && !Finished(s.runs[run].status) && !s.runs[run].final
             && s.runs[run].status != PendingCandidateReview
             && SessionOf(s, a.session).report == Report(PendingCandidateReview, None, None)
    ensures var t, run := Step(s, a, hash), SessionOf(s, a.session).run;
            && run in t.runs && run in t.reports
            && WritesRun(s, t, a.session, run, t.runs[run], t.reports[run])
            && t.log == s.log && t.runs[run].final == s.runs[run].final && t.runs[run].status != PendingCandidateReview
            && RunAgrees(t.runs[run], t.reports[run])
            && Tolerable(s.runs[run], s.reports[run], t.runs[run], t.reports[run])
            && (SessionOf(t, a.session).Evaluating? ==> SessionOf(t, a.session).run == run)
            && SessionAgrees(t, a.session, hash)
  {
  }

  lemma {:induction false} EnterLog(s: State, t: State, run: string, stored: MetricIr)
    requires LogAgrees(s) && t.log == s.log + [Entered(run, stored)] && run in s.runs
    requires s.runs[run].status == PendingCandidateReview && t.runs == s.runs[run := s.runs[run].(status := Testing)]
    ensures LogAgrees(t)
  {
    assert t.log[..|t.log| - 1] == s.log;
    hide MatchesPlan;
    forall r ensures Entries(t.log, r) == if r in t.runs && t.runs[r].status != PendingCandidateReview then 1 else 0 {
      assert Entries(t.log, r) == Entries(s.log, r) + (if r == run then 1 else 0);
    }
    forall r ensures Conclusions(t.log, r) == if r in t.runs && t.runs[r].final then 1 else 0 {
      assert Conclusions(t.log, r) == Conclusions(s.log, r);
    }
  }

  /** A run still in review has no evaluator, and its document is as it was created. */
  lemma {:induction false} ReviewHasNoEvaluator(s: State, id: nat, hash: MetricIr -> string)
    requires Inv(s, hash) && SessionOf(s, id).Checked? && SessionOf(s, id).run in s.runs
    requires s.runs[SessionOf(s, id).run].status == PendingCandidateReview
    ensures forall k: nat | SessionOf(s, k).Evaluating? :: SessionOf(s, k).run != SessionOf(s, id).run
    ensures var run := SessionOf(s, id).run;
            && run in s.reports && run in s.plans && run in s.candidates
            && MatchesPlan(SessionOf(s, id).candidate, s.plans[run], hash)
            && SessionOf(s, id).report == s.reports[run] == Report(PendingCandidateReview, None, None)
            && s.runs[run] == RunRow(PendingCandidateReview, None, false)
  {
    var run := SessionOf(s, id).run;
    assert SessionAgrees(s, id, hash);
    assert RunAgrees(s.runs[run], s.reports[run]);
    hide LogAgrees, PlansAgree, MatchesPlan;
    forall k: nat | SessionOf(s, k).Evaluating? ensures SessionOf(s, k).run != run {
      assert SessionAgrees(s, k, hash);
    }
  }

  lemma {:induction false} EnterKeeps(s: State, id: nat, hash: MetricIr -> string)
    requires Inv(s, hash)
    ensures Inv(Step(s, EnterEvaluation(id), hash), hash)
  {
    var t := Step(s, EnterEvaluation(id), hash);
    IdleKeeps(s, id, hash);
    if t != s && t != WithSession(s, id, Idle) {
      var run := SessionOf(s, id).run;
      ReviewHasNoEvaluator(s, id, hash);
      hide MatchesPlan, RunsAgree, OneEvaluator;
      EnterEffect(s, id, hash);
      hide Step, SessionAgrees, WritesRun, RunAgrees, Tolerable;
      EnterLog(s, t, run, s.candidates[run]);
      hide LogAgrees;
      WriteKeeps(s, t, id, run, RunRow(Testing, None, false), s.reports[run], hash);
    }
  }

  lemma {:induction false} EnterEffect(s: State, id: nat, hash: MetricIr -> string)
    requires SessionOf(s, id).Checked? && SessionOf(s, id).run in s.runs && SessionOf(s, id).run in s.reports
    requires SessionOf(s, id).run in s.candidates
    requires s.runs[SessionOf(s, id).run] == RunRow(PendingCandidateReview, None, false)
    requires SessionOf(s, id).report == s.reports[SessionOf(s, id).run] == Report(PendingCandidateReview, None, None)
    ensures var session, t := SessionOf(s, id), Step(s, EnterEvaluation(id), hash);
            var row := RunRow(Testing, None, false);
            && WritesRun(s, t, id, session.run, row, s.reports[session.run])
            && t.log == s.log + [Entered(session.run, s.candidates[session.run])]
            && t.runs == s.runs[session.run := s.runs[session.run].(status := Testing)]
            && RunAgrees(row, s.reports[session.run])
            && Tolerable(s.runs[session.run], s.reports[session.run], row, s.reports[session.run])
            && SessionOf(t, id).Evaluating? && SessionOf(t, id).run == session.run && SessionAgrees(t, id, hash)
  {
  }

  /** An execution moves only its own session's phase, and adds at most one execution to the history. */
  ghost predicate Executes(s: State, t: State, id: nat) {
    && SessionOf(s, id).Evaluating? && SessionOf(t, id).Evaluating?
    && SessionOf(t, id).run == SessionOf(s, id).run && SessionOf(t, id).report == SessionOf(s, id).report
    && t == s.(sessions := t.sessions, log := t.log)
    && (t.log == s.log || (|t.log| == |s.log| + 1 && t.log[..|s.log|] == s.log && t.log[|s.log|].Executed?))
    && forall k: nat | k != id :: SessionOf(t, k) == SessionOf(s, k)
  }

  lemma {:induction false} ExecuteEffect(s: State, id: nat, hash: MetricIr -> string)
    ensures var t := Step(s, Execute(id), hash); t == s || Executes(s, t, id)
  {
    hide Verified;
  }

  lemma {:induction false} ExecuteLog(s: State, t: State, id: nat)
    requires LogAgrees(s) && Executes(s, t, id)
    ensures LogAgrees(t)
  {
    if t.log != s.log {
      assert t.log[..|t.log| - 1] == s.log;
      forall r ensures Entries(t.log, r) == Entries(s.log, r) && Conclusions(t.log, r) == Conclusions(s.log, r) {}
    }
  }

  lemma {:induction false} ExecuteEvaluators(s: State, t: State, id: nat)
    requires OneEvaluator(s) && Executes(s, t, id)
    ensures OneEvaluator(t)
  {
    assert forall k: nat :: SessionOf(t, k).Evaluating? <==> SessionOf(s, k).Evaluating?;
    assert forall k: nat | SessionOf(s, k).Evaluating? :: SessionOf(t, k).run == SessionOf(s, k).run;
  }

  lemma {:induction false} ExecuteSession(s: State, t: State, id: nat, k: nat, hash: MetricIr -> string)
    requires SessionAgrees(s, k, hash) && Executes(s, t, id)
    ensures SessionAgrees(t, k, hash)
  {
    hide MatchesPlan;
  }

  lemma {:induction false} ExecuteKeeps(s: State, id: nat, hash: MetricIr -> string)
    requires Inv(s, hash)
    ensures Inv(Step(s, Execute(id), hash), hash)
  {
    hide Step, RowsAgree, PlansAgree, OneEvaluator, LogAgrees, SessionAgrees, Executes;
    var t := Step(s, Execute(id), hash);
    ExecuteEffect(s, id, hash);
    if t != s {
      ExecuteLog(s, t, id);
      ExecuteEvaluators(s, t, id);
      forall k: nat ensures SessionAgrees(t, k, hash) { ExecuteSession(s, t, id, k, hash); }
      ExecuteTables(s, t, id);
    }
  }

  lemma {:induction false} ExecuteTables(s: State, t: State, id: nat)
    requires RowsAgree(s) && PlansAgree(s) && Executes(s, t, id)
    ensures RowsAgree(t) && PlansAgree(t)
  {
    hide RunAgrees, Transformable;
  }

  lemma {:induction false} ConcludeLog(s: State, t: State, run: string, decision: string)
    requires LogAgrees(s) && t.log == s.log + [Concluded(run, decision)] && run in s.runs
    requires !s.runs[run].final && t.runs == s.runs[run := s.runs[run].(final := true)]
    ensures LogAgrees(t)
  {
    assert t.log[..|t.log| - 1] == s.log;
    forall r ensures Entries(t.log, r) == if r in t.runs && t.runs[r].status != PendingCandidateReview then 1 else 0 {
      assert Entries(t.log, r) == Entries(s.log, r);
    }
    forall r ensures Conclusions(t.log, r) == if r in t.runs && t.runs[r].final then 1 else 0 {
      assert Conclusions(t.log, r) == Conclusions(s.log, r) + (if r == run then 1 else 0);
    }
  }

  /** The conclusion that wins its compare-and-set saves exactly the current report plus its own
      final decision: its copy is not stale. */
  lemma {:induction false} ConclusionNotStale(s: State, id: nat, hash: MetricIr -> string)
    requires Inv(s, hash) && SessionOf(s, id).Concluding?
    requires SessionOf(s, id).run in s.runs && !s.runs[SessionOf(s, id).run].final
    ensures var session, t := SessionOf(s, id), Step(s, Conclude(id), hash);
            && session.run in s.reports && session.report == s.reports[session.run]
            && WritesRun(s, t, id, session.run, s.runs[session.run].(final := true),
                         s.reports[session.run].(finalDecision := Some(session.decision)))
            && t.log == s.log + [Concluded(session.run, session.decision)] && SessionOf(t, id) == Idle
  {
    hide PlansAgree, LogAgrees, OneEvaluator, SessionAgrees, RunAgrees, Step, WritesRun;
    assert SessionAgrees(s, id, hash);
    assert RowsAgree(s);
    hide Inv;
    ConcludeEffect(s, id, hash);
  }

  lemma {:induction false} ConcludeEffect(s: State, id: nat, hash: MetricIr -> string)
    requires SessionAgrees(s, id, hash) && RowsAgree(s) && SessionOf(s, id).Concluding?
    requires SessionOf(s, id).run in s.runs && !s.runs[SessionOf(s, id).run].final
    ensures var session, t := SessionOf(s, id), Step(s, Conclude(id), hash);
            && session.run in s.reports && session.report == s.reports[session.run]
            && WritesRun(s, t, id, session.run, s.runs[session.run].(final := true),
                         s.reports[session.run].(finalDecision := Some(session.decision)))
            && t.log == s.log + [Concluded(session.run, session.decision)] && SessionOf(t, id) == Idle
  {
    assert RunAgrees(s.runs[SessionOf(s, id).run], s.reports[SessionOf(s, id).run]);
    hide RowsAgree, Transformable, Rewritten, PassesChecks;
  }

  lemma {:induction false} FinishedHasNoEvaluator(s: State, run: string, hash: MetricIr -> string)
    requires Inv(s, hash) && run in s.runs && Finished(s.runs[run].status)
    ensures forall k: nat | SessionOf(s, k).Evaluating? :: SessionOf(s, k).run != run
    ensures run in s.reports && RunAgrees(s.runs[run], s.reports[run])
  {
    hide LogAgrees, PlansAgree, MatchesPlan;
    forall k: nat | SessionOf(s, k).Evaluating? ensures SessionOf(s, k).run != run {
      assert SessionAgrees(s, k, hash);
    }
  }

  lemma {:induction false} ConcludeKeeps(s: State, id: nat, hash: MetricIr -> string)
    requires Inv(s, hash)
    ensures Inv(Step(s, Conclude(id), hash), hash)
  {
    hide Step, RunsAgree, OneEvaluator, LogAgrees, SessionAgrees, MatchesPlan;
    var t := Step(s, Conclude(id), hash);
    IdleKeeps(s, id, hash);
    ConcludeCases(s, id, hash);
    if t != s && t != WithSession(s, id, Idle) {
      hide WithSession;
      var run, decision := SessionOf(s, id).run, SessionOf(s, id).decision;
      ConclusionNotStale(s, id, hash);
      FinishedHasNoEvaluator(s, run, hash);
      var row, report := s.runs[run].(final := true), s.reports[run].(finalDecision := Some(decision));
      ConcludedShape(s, t, id, run, row, report, decision, hash);
      ConcludeLog(s, t, run, decision);
      hide WritesRun, RunAgrees, Tolerable, Inv;
      WriteKeeps(s, t, id, run, row, report, hash);
    }
  }

  lemma {:induction false} ConcludeCases(s: State, id: nat, hash: MetricIr -> string)
    ensures var t := Step(s, Conclude(id), hash);
            || t == s || t == WithSession(s, id, Idle)
            || (SessionOf(s, id).Concluding? && SessionOf(s, id).run in s.runs && !s.runs[SessionOf(s, id).run].final
                && Finished(s.runs[SessionOf(s, id).run].status))
  {
  }

  lemma {:induction false} ConcludedShape(
      s: State, t: State, id: nat, run: string, row: RunRow, report: Report, decision: string, hash: MetricIr -> string)
    requires WritesRun(s, t, id, run, row, report) && SessionOf(t, id) == Idle
    requires RunAgrees(s.runs[run], s.reports[run]) && Finished(s.runs[run].status)
    requires row == s.runs[run].(final := true) && report == s.reports[run].(finalDecision := Some(decision))
    ensures RunAgrees(row, report) && Tolerable(s.runs[run], s.reports[run], row, report) && SessionAgrees(t, id, hash)
  {
  }

  // ------------------------------------------------------------ every step, every run

  lemma {:induction false} StepKeeps(s: State, a: Action, hash: MetricIr -> string)
    requires Inv(s, hash)
    ensures Inv(Step(s, a, hash), hash)
  {
    hide Inv;
    match a
    case WriteDecision(id, newId) => WriteDecisionKeeps(s, id, newId, hash);
    case Create(run, plan) => CreateKeeps(s, run, plan, hash);
    case EditCandidate(run, candidate) => EditKeeps(s, run, candidate, hash);
    case EnterEvaluation(id) => EnterKeeps(s, id, hash);
    case Execute(id) => ExecuteKeeps(s, id, hash);
    case Conclude(id) => ConcludeKeeps(s, id, hash);
    case Abort(id) => IdleKeeps(s, id, hash);
    case ReadProposal(_, _, _) => ReadStepKeeps(s, a, hash);
    case CheckRun(_, _) => ReadStepKeeps(s, a, hash);
    case ReadReport(_, _, _) => ReadStepKeeps(s, a, hash);
    case _ => SaveStepKeeps(s, a, hash);
  }

  /** Under any interleaving of deciders, evaluators and concluders, with stale reads, aborts and
      edits of stored candidates, every reachable state satisfies the invariant. */
  lemma {:induction false} ReachableAgrees(actions: seq<Action>, hash: MetricIr -> string)
    ensures Inv(Run(actions, hash), hash)
  {
    if actions != [] {
      ReachableAgrees(actions[..|actions| - 1], hash);
      StepKeeps(Run(actions[..|actions| - 1], hash), actions[|actions| - 1], hash);
    }
  }

  // ------------------------------------------------------------ continuing a run

  lemma {:induction false} RunContinues(before: seq<Action>, after: seq<Action>, hash: MetricIr -> string)
    requires after != []
    ensures Run(before + after, hash) == Step(Run(before + after[..|after| - 1], hash), after[|after| - 1], hash)
  {
    hide Step;
    assert (before + after)[..|before + after| - 1] == before + after[..|after| - 1];
  }

  /** Whether a statement belongs to a session. */
  predicate ActsFor(a: Action, id: nat) {
    match a
    case Create(_, _) => false
    case EditCandidate(_, _) => false
    case _ => a.session == id
  }

  /** A session's state only changes by its own statements. */
  lemma {:induction false} SessionStepWaits(s: State, a: Action, hash: MetricIr -> string, id: nat)
    requires !ActsFor(a, id)
    ensures SessionOf(Step(s, a, hash), id) == SessionOf(s, id)
  {
    hide AfterReadProposal, AfterWriteDecision, AfterCreate, AfterEdit, AfterCheck, AfterEnter, AfterExecute,
         AfterOpen, AfterComplete, AfterFail, AfterReadReport, AfterConclude;
  }

  lemma {:induction false} SessionWaits(before: seq<Action>, after: seq<Action>, id: nat, hash: MetricIr -> string)
    requires forall a | a in after :: !ActsFor(a, id)
    ensures SessionOf(Run(before + after, hash), id) == SessionOf(Run(before, hash), id)
    decreases |after|
  {
    if after == [] {
      assert before + after == before;
    } else {
      var prefix := after[..|after| - 1];
      assert forall a | a in prefix :: a in after;
      SessionWaits(before, prefix, id, hash);
      RunContinues(before, after, hash);
      hide Step;
      SessionStepWaits(Run(before + prefix, hash), after[|after| - 1], hash, id);
    }
  }
}
