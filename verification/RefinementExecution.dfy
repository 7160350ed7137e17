/** Which documents the refinement lifecycle executes: the stored candidate can be edited at any
    time, and every execution reads it again. */
module RefinementExecution {
  import opened Documents
  import opened Options
  import opened RefinementTransform
  import opened Refinement
  import opened RefinementLaws

  // ------------------------------------------------------------ the invariant of executions

  ghost predicate MatchesRow(rowHash: string, plan: Plan, hash: MetricIr -> string) {
    Transformable(plan.baseline, plan.days) && rowHash == hash(Rewritten(plan.baseline, plan.days))
  }

  /** The hash column of every candidate is that of its plan's transform. */
  ghost predicate HashesAgree(s: State, hash: MetricIr -> string) {
    forall r | r in s.plans :: r in s.rowHashes && MatchesRow(s.rowHashes[r], s.plans[r], hash)
  }

  /** Every executed document hashed equal to its plan's transform. */
  ghost predicate ExecutionsAgree(s: State, hash: MetricIr -> string) {
    forall i | 0 <= i < |s.log| && s.log[i].Executed? ::
      s.log[i].run in s.plans && MatchesPlan(s.log[i].document, s.plans[s.log[i].run], hash)
  }

  /** The history holds the test, or the experiment, of a run. */
  ghost predicate Ran(log: seq<Event>, run: string, experiment: bool) {
    exists i :: 0 <= i < |log| && log[i].Executed? && log[i].run == run && log[i].experiment == experiment
  }

  ghost predicate PhaseAgrees(s: State, id: nat) {
    match SessionOf(s, id)
    case Evaluating(run, _, phase) =>
      && (phase in {Tested, Opened, Measured} ==> Ran(s.log, run, false))
      && (phase == Measured ==> Ran(s.log, run, true))
    case _ => true
  }

  ghost predicate CompletedRan(s: State) {
    forall r | r in s.runs && s.runs[r].status == Completed :: Ran(s.log, r, false) && Ran(s.log, r, true)
  }

  ghost predicate Executions(s: State, hash: MetricIr -> string) {
    HashesAgree(s, hash) && ExecutionsAgree(s, hash) && CompletedRan(s) && forall id: nat :: PhaseAgrees(s, id)
  }

  // ------------------------------------------------------------ one step

  /** Plans and hash columns are only added, and the history only grows. */
  ghost predicate Grows(s: State, t: State) {
    && (forall r | r in s.plans :: r in t.plans && t.plans[r] == s.plans[r])
    && (forall r | r in s.rowHashes :: r in t.rowHashes && t.rowHashes[r] == s.rowHashes[r])
    && s.log <= t.log
  }

  /** Only creation writes plans and hash columns, and only creation and edits write candidates. */
  lemma {:induction false} TablesStay(s: State, a: Action, hash: MetricIr -> string)
    requires !a.Create?
    ensures var t := Step(s, a, hash);
            && t.plans == s.plans && t.rowHashes == s.rowHashes
            && (!a.EditCandidate? ==> t.candidates == s.candidates)
  {
    hide AfterReadProposal, AfterWriteDecision, AfterCreate, AfterEdit, AfterCheck, AfterEnter, AfterExecute, AfterOpen,
         AfterComplete, AfterFail, AfterReadReport, AfterConclude, SessionOf;
  }

  lemma {:induction false} CreateStays(s: State, run: string, plan: Plan, hash: MetricIr -> string, r: string)
    requires RowsAgree(s) && r in s.plans
    ensures var t := Step(s, Create(run, plan), hash);
            && r in t.plans && t.plans[r] == s.plans[r]
            && r in s.rowHashes && r in t.rowHashes && t.rowHashes[r] == s.rowHashes[r]
            && r in s.candidates && r in t.candidates && t.candidates[r] == s.candidates[r]
  {
    hide Transformable, Rewritten, RunAgrees;
    assert Step(s, Create(run, plan), hash) == AfterCreate(s, run, plan, hash);
    hide Step;
  }

  lemma {:induction false} PlansGrow(s: State, a: Action, hash: MetricIr -> string, r: string)
    requires RowsAgree(s) && r in s.plans
    ensures var t := Step(s, a, hash);
            && r in t.plans && t.plans[r] == s.plans[r]
            && r in s.rowHashes && r in t.rowHashes && t.rowHashes[r] == s.rowHashes[r]
  {
    hide Step, RunAgrees;
    if a.Create? { CreateStays(s, a.run, a.plan, hash, r); } else { TablesStay(s, a, hash); }
  }

  lemma {:induction false} LogGrows(s: State, a: Action, hash: MetricIr -> string)
    ensures s.log <= Step(s, a, hash).log
  {
    hide AfterReadProposal, AfterWriteDecision, AfterCreate, AfterEdit, AfterCheck, AfterOpen, AfterComplete,
         AfterFail, AfterReadReport;
    hide Verified;
  }

  lemma {:induction false} StepGrows(s: State, a: Action, hash: MetricIr -> string)
    requires RowsAgree(s)
    ensures Grows(s, Step(s, a, hash))
  {
    hide Step, RunAgrees;
    LogGrows(s, a, hash);
    forall r | r in s.plans
      ensures var t := Step(s, a, hash);
              r in t.plans && t.plans[r] == s.plans[r] && r in t.rowHashes && t.rowHashes[r] == s.rowHashes[r]
    {
      PlansGrow(s, a, hash, r);
    }
  }

  lemma {:induction false} RanStays(s: State, t: State, run: string, experiment: bool)
    requires Grows(s, t) && Ran(s.log, run, experiment)
    ensures Ran(t.log, run, experiment)
  {
    var i :| 0 <= i < |s.log| && s.log[i].Executed? && s.log[i].run == run && s.log[i].experiment == experiment;
    assert t.log[i] == s.log[i];
  }

  /** A plan that a step adds comes with the hash of its transform. */
  lemma {:induction false} AddedPlan(s: State, a: Action, hash: MetricIr -> string, r: string)
    requires r in Step(s, a, hash).plans && r !in s.plans
    ensures var t := Step(s, a, hash); r in t.rowHashes && MatchesRow(t.rowHashes[r], t.plans[r], hash)
  {
    hide AfterReadProposal, AfterWriteDecision, AfterEdit, AfterCheck, AfterEnter, AfterExecute, AfterOpen,
         AfterComplete, AfterFail, AfterReadReport, AfterConclude;
    hide Transformable, Rewritten;
  }

  lemma {:induction false} HashesStep(s: State, a: Action, hash: MetricIr -> string)
    requires HashesAgree(s, hash) && Grows(s, Step(s, a, hash))
    ensures HashesAgree(Step(s, a, hash), hash)
  {
    hide Step, MatchesRow;
    var t := Step(s, a, hash);
    forall r | r in t.plans ensures r in t.rowHashes && MatchesRow(t.rowHashes[r], t.plans[r], hash) {
      if r !in s.plans { AddedPlan(s, a, hash, r); }
    }
  }

  /** An execution that a step adds is of the stored document, which verified against its row. */
  lemma {:induction false} AddedExecution(s: State, a: Action, hash: MetricIr -> string, i: nat)
    requires |s.log| <= i < |Step(s, a, hash).log| && Step(s, a, hash).log[i].Executed?
    ensures var t, run := Step(s, a, hash), Step(s, a, hash).log[i].run;
            && run in s.candidates && run in s.rowHashes && t.log[i].document == s.candidates[run]
            && hash(s.candidates[run]) == s.rowHashes[run] && t.plans == s.plans
  {
    hide AfterReadProposal, AfterWriteDecision, AfterCreate, AfterEdit, AfterCheck, AfterOpen, AfterComplete,
         AfterFail, AfterReadReport;
  }

  lemma {:induction false} ExecutionsStep(s: State, a: Action, hash: MetricIr -> string)
    requires RowsAgree(s) && HashesAgree(s, hash) && ExecutionsAgree(s, hash) && Grows(s, Step(s, a, hash))
    ensures ExecutionsAgree(Step(s, a, hash), hash)
  {
    hide Step, RunAgrees, Transformable, Rewritten;
    var t := Step(s, a, hash);
    forall i | 0 <= i < |t.log| && t.log[i].Executed?
      ensures t.log[i].run in t.plans && MatchesPlan(t.log[i].document, t.plans[t.log[i].run], hash)
    {
      if i < |s.log| {
        assert t.log[i] == s.log[i];
      } else {
        AddedExecution(s, a, hash, i);
        assert MatchesRow(s.rowHashes[t.log[i].run], s.plans[t.log[i].run], hash);
      }
    }
  }

  /** A statement that makes a session evaluate, or moves its phase, is its own; it enters untested,
      executes, or opens the experiment after the test. */
  lemma {:induction false} EvaluationMoves(s: State, a: Action, hash: MetricIr -> string, k: nat)
    requires SessionOf(Step(s, a, hash), k).Evaluating? && SessionOf(Step(s, a, hash), k) != SessionOf(s, k)
    ensures var t, now, was := Step(s, a, hash), SessionOf(Step(s, a, hash), k), SessionOf(s, k);
            || (a == EnterEvaluation(k) && now.phase == Untested)
            || (a == Execute(k) && was.Evaluating? && now.run == was.run
                && (now.phase == Refused
                    || (t.log != s.log && (if was.phase == Opened then now.phase == Measured else now.phase == Tested))))
            || (a == SaveExperimenting(k) && was.Evaluating? && was.phase == Tested
                && now.run == was.run && now.phase == Opened)
  {
    hide *;
    match a
    case EnterEvaluation(id) => EntryMoves(s, id, hash, k);
    case Execute(id) => ExecutionMoves(s, id, hash, k);
    case SaveExperimenting(id) => OpeningMoves(s, id, hash, k);
    case _ => ReadingMovesNone(s, a, hash, k);
  }

  lemma {:induction false} EntryMoves(s: State, id: nat, hash: MetricIr -> string, k: nat)
    ensures var t := Step(s, EnterEvaluation(id), hash);
            SessionOf(t, k).Evaluating? && SessionOf(t, k) != SessionOf(s, k) ==> id == k && SessionOf(t, k).phase == Untested
  {
    assert Step(s, EnterEvaluation(id), hash) == AfterEnter(s, id);
    hide Step;
  }

  lemma {:induction false} ExecutionMoves(s: State, id: nat, hash: MetricIr -> string, k: nat)
    ensures var t, now, was := Step(s, Execute(id), hash), SessionOf(Step(s, Execute(id), hash), k), SessionOf(s, k);
            now.Evaluating? && now != was ==>
              && id == k && was.Evaluating? && now.run == was.run
              && (now.phase == Refused
                  || (t.log != s.log && (if was.phase == Opened then now.phase == Measured else now.phase == Tested)))
  {
    assert Step(s, Execute(id), hash) == AfterExecute(s, id, hash);
    hide Step, Verified;
  }

  lemma {:induction false} OpeningMoves(s: State, id: nat, hash: MetricIr -> string, k: nat)
    ensures var now, was := SessionOf(Step(s, SaveExperimenting(id), hash), k), SessionOf(s, k);
            now.Evaluating? && now != was ==>
              id == k && was.Evaluating? && was.phase == Tested && now.run == was.run && now.phase == Opened
  {
    assert Step(s, SaveExperimenting(id), hash) == AfterOpen(s, id);
    hide Step;
  }

  /** No other statement makes a session evaluate. */
  lemma {:induction false} ReadingMovesNone(s: State, a: Action, hash: MetricIr -> string, k: nat)
    requires !a.EnterEvaluation? && !a.Execute? && !a.SaveExperimenting?
    ensures var t := Step(s, a, hash); SessionOf(t, k).Evaluating? ==> SessionOf(t, k) == SessionOf(s, k)
  {
    hide AfterWriteDecision, AfterCreate, AfterEdit, AfterEnter, AfterExecute, AfterOpen, AfterComplete, AfterFail,
         AfterConclude;
    hide PassesChecks, Verified;
  }

  lemma {:induction false} PhaseMoves(s: State, a: Action, hash: MetricIr -> string, k: nat)
    requires PhaseAgrees(s, k) && Grows(s, Step(s, a, hash)) && SessionOf(Step(s, a, hash), k) != SessionOf(s, k)
    ensures PhaseAgrees(Step(s, a, hash), k)
  {
    hide Step, Ran, Grows;
    var t := Step(s, a, hash);
    if SessionOf(t, k).Evaluating? {
      EvaluationMoves(s, a, hash, k);
      if a == Execute(k) && t.log != s.log { JustRan(s, k, hash); }
      if SessionOf(s, k).Evaluating? && Ran(s.log, SessionOf(s, k).run, false) { RanStays(s, t, SessionOf(s, k).run, false); }
    }
  }

  lemma {:induction false} JustRan(s: State, id: nat, hash: MetricIr -> string)
    requires Step(s, Execute(id), hash).log != s.log
    ensures SessionOf(s, id).Evaluating?
    ensures Ran(Step(s, Execute(id), hash).log, SessionOf(s, id).run, SessionOf(s, id).phase == Opened)
  {
    var t := Step(s, Execute(id), hash);
    hide Verified;
    assert t.log[|s.log|].Executed?;
  }

  lemma {:induction false} PhasesStep(s: State, a: Action, hash: MetricIr -> string, k: nat)
    requires PhaseAgrees(s, k) && Grows(s, Step(s, a, hash))
    ensures PhaseAgrees(Step(s, a, hash), k)
  {
    hide Step, Ran, Grows;
    var t := Step(s, a, hash);
    if SessionOf(t, k) != SessionOf(s, k) {
      PhaseMoves(s, a, hash, k);
    } else if SessionOf(s, k).Evaluating? {
      var run := SessionOf(s, k).run;
      if Ran(s.log, run, false) { RanStays(s, t, run, false); }
      if Ran(s.log, run, true) { RanStays(s, t, run, true); }
    }
  }

  /** A run that a step completes was completed by an evaluation that had executed twice. */
  lemma {:induction false} CompletedBy(s: State, a: Action, hash: MetricIr -> string, r: string)
    requires RowsAgree(s) && forall id: nat :: PhaseAgrees(s, id) && SessionAgrees(s, id, hash)
    requires r in Step(s, a, hash).runs && Step(s, a, hash).runs[r].status == Completed
    ensures (r in s.runs && s.runs[r].status == Completed) || (Ran(s.log, r, false) && Ran(s.log, r, true))
  {
    hide Step, RowsAgree, PhaseAgrees, SessionAgrees, Ran;
    match a
    case SaveCompleted(id, outcome) => assert PhaseAgrees(s, id); MeasuredCompletes(s, id, outcome, hash, r);
    case Conclude(id) => assert SessionAgrees(s, id, hash); ConcludedWasCompleted(s, id, hash, r);
    case _ => OthersComplete(s, a, hash, r);
  }

  lemma {:induction false} MeasuredCompletes(s: State, id: nat, outcome: Outcome, hash: MetricIr -> string, r: string)
    requires PhaseAgrees(s, id) && r in Step(s, SaveCompleted(id, outcome), hash).runs
    requires Step(s, SaveCompleted(id, outcome), hash).runs[r].status == Completed
    ensures (r in s.runs && s.runs[r].status == Completed) || (Ran(s.log, r, false) && Ran(s.log, r, true))
  {
    hide Ran;
  }

  lemma {:induction false} OthersComplete(s: State, a: Action, hash: MetricIr -> string, r: string)
    requires !a.SaveCompleted? && !a.Conclude?
    requires r in Step(s, a, hash).runs && Step(s, a, hash).runs[r].status == Completed
    ensures r in s.runs && s.runs[r].status == Completed
  {
    hide AfterReadProposal, AfterWriteDecision, AfterEdit, AfterCheck, AfterExecute, AfterComplete,
         AfterReadReport, AfterConclude;
    hide Transformable, Rewritten;
  }

  lemma {:induction false} ConcludedWasCompleted(s: State, id: nat, hash: MetricIr -> string, r: string)
    requires RowsAgree(s) && SessionAgrees(s, id, hash)
    requires r in Step(s, Conclude(id), hash).runs && Step(s, Conclude(id), hash).runs[r].status == Completed
    ensures r in s.runs && s.runs[r].status == Completed
  {
    hide Transformable, Rewritten, MatchesPlan;
    if SessionOf(s, id).Concluding? && SessionOf(s, id).run in s.runs {
      assert RunAgrees(s.runs[SessionOf(s, id).run], s.reports[SessionOf(s, id).run]);
    }
    hide RowsAgree;
  }

  lemma {:induction false} CompletedStep(s: State, a: Action, hash: MetricIr -> string)
    requires Inv(s, hash) && CompletedRan(s) && (forall id: nat :: PhaseAgrees(s, id)) && Grows(s, Step(s, a, hash))
    ensures CompletedRan(Step(s, a, hash))
  {
    hide Step, Ran, Grows, RunAgrees, PlansAgree, OneEvaluator, LogAgrees, PhaseAgrees, SessionAgrees;
    var t := Step(s, a, hash);
    forall r | r in t.runs && t.runs[r].status == Completed ensures Ran(t.log, r, false) && Ran(t.log, r, true) {
      CompletedBy(s, a, hash, r);
      RanStays(s, t, r, false);
      RanStays(s, t, r, true);
    }
  }

  lemma {:induction false} StepKeepsExecutions(s: State, a: Action, hash: MetricIr -> string)
    requires Inv(s, hash) && Executions(s, hash)
    ensures Executions(Step(s, a, hash), hash)
  {
    hide Step, RunAgrees, PlansAgree, OneEvaluator, LogAgrees, SessionAgrees, Grows,
         HashesAgree, ExecutionsAgree, CompletedRan, PhaseAgrees;
    RowsOf(s, hash);
    hide Inv, RowsAgree;
    StepGrows(s, a, hash);
    HashesStep(s, a, hash);
    ExecutionsStep(s, a, hash);
    CompletedStep(s, a, hash);
    forall k: nat ensures PhaseAgrees(Step(s, a, hash), k) { PhasesStep(s, a, hash, k); }
  }

  lemma {:induction false} RowsOf(s: State, hash: MetricIr -> string)
    requires Inv(s, hash)
    ensures RowsAgree(s) && PlansAgree(s)
  {
    hide RowsAgree, PlansAgree, OneEvaluator, LogAgrees, SessionAgrees;
  }

  lemma {:induction false} ReachableExecutions(actions: seq<Action>, hash: MetricIr -> string)
    ensures Executions(Run(actions, hash), hash)
  {
    hide Step;
    if actions != [] {
      ReachableExecutions(actions[..|actions| - 1], hash);
      ReachableAgrees(actions[..|actions| - 1], hash);
      StepKeepsExecutions(Run(actions[..|actions| - 1], hash), actions[|actions| - 1], hash);
    }
  }

  // ------------------------------------------------------------ what is executed

  /** Over every run, with edits of the stored candidate at any moment: what a test or an experiment
      executes is the baseline with the window rewritten, for a proposal that is accepted; taking
      name, display name, description and window size back gives the baseline. */
  lemma {:induction false} ExecutesOnlyTheTransform(actions: seq<Action>, hash: MetricIr -> string, i: nat)
    requires Injective(hash) && i < |Run(actions, hash).log| && Run(actions, hash).log[i].Executed?
    ensures var s, event := Run(actions, hash), Run(actions, hash).log[i];
            && event.run in s.plans && Transformable(s.plans[event.run].baseline, s.plans[event.run].days)
            && event.document == Rewritten(s.plans[event.run].baseline, s.plans[event.run].days)
            && ValidCandidate(event.document)
            && Restore(event.document, s.plans[event.run].baseline) == s.plans[event.run].baseline
            && s.plans[event.run].proposal in s.decisions
            && s.decisions[s.plans[event.run].proposal].current.verdict == Accepted
  {
    ReachableAgrees(actions, hash);
    ReachableExecutions(actions, hash);
    var s, event := Run(actions, hash), Run(actions, hash).log[i];
    hide Run, Transformable, Rewritten, RowsAgree, SessionAgrees, OneEvaluator, LogAgrees, PhaseAgrees, CompletedRan,
         HashesAgree;
    assert MatchesPlan(event.document, s.plans[event.run], hash);
    hide Inv, ValidCandidate, Restore;
    CandidateValid(s.plans[event.run].baseline, s.plans[event.run].days);
  }

  /** A completed run executed its test and its experiment. */
  lemma {:induction false} CompletedRunsExecuted(actions: seq<Action>, hash: MetricIr -> string, run: string)
    requires run in Run(actions, hash).runs && Run(actions, hash).runs[run].status == Completed
    ensures Ran(Run(actions, hash).log, run, false) && Ran(Run(actions, hash).log, run, true)
  {
    ReachableExecutions(actions, hash);
    hide Run, HashesAgree, ExecutionsAgree, PhaseAgrees, Ran;
  }

  // ------------------------------------------------------------ what enters

  /** The document of the last edit of a run's candidate, if any. */
  function LastEdit(actions: seq<Action>, run: string): Option<MetricIr> {
    if actions == [] then None
    else
      var last := actions[|actions| - 1];
      if last.EditCandidate? && last.run == run then Some(last.candidate) else LastEdit(actions[..|actions| - 1], run)
  }

  lemma {:induction false} StoredStep(s: State, a: Action, hash: MetricIr -> string, run: string)
    requires RowsAgree(s) && run in s.candidates
    ensures var t := Step(s, a, hash);
            && run in t.candidates && run in t.plans && t.plans[run] == s.plans[run]
            && t.candidates[run] == if a.EditCandidate? && a.run == run then a.candidate else s.candidates[run]
  {
    hide *;
    CandidateHasRun(s, run);
    match a
    case Create(r, plan) => CreateStays(s, r, plan, hash, run);
    case EditCandidate(r, candidate) => EditStores(s, r, candidate, hash);
    case _ => TablesStay(s, a, hash);
  }

  /** The stored candidate is what the last edit made it, and its plan never changes. */
  lemma {:induction false} StoredAfter(before: seq<Action>, after: seq<Action>, run: string, hash: MetricIr -> string)
    requires run in Run(before, hash).candidates && run in Run(before, hash).plans
    ensures var s, t := Run(before, hash), Run(before + after, hash);
            && run in t.candidates && run in t.plans && t.plans[run] == s.plans[run]
            && t.candidates[run] == match LastEdit(after, run) case Some(document) => document case None => s.candidates[run]
    decreases |after|
  {
    if after == [] {
      assert before + after == before;
    } else {
      var prefix := after[..|after| - 1];
      StoredAfter(before, prefix, run, hash);
      RunContinues(before, after, hash);
      ReachableAgrees(before + prefix, hash);
      hide Run, Step;
      RowsOf(Run(before + prefix, hash), hash);
      hide Inv, RowsAgree;
      StoredStep(Run(before + prefix, hash), after[|after| - 1], hash, run);
    }
  }

  /** The transform of a run's plan. */
  function TransformOf(plan: Plan): MetricIr
    requires Transformable(plan.baseline, plan.days)
  {
    Rewritten(plan.baseline, plan.days)
  }

  lemma {:induction false} EnterLogs(s: State, id: nat, hash: MetricIr -> string)
    requires SessionOf(s, id).Checked? && SessionOf(s, id).run in s.runs && SessionOf(s, id).run in s.candidates
    ensures var t, run := Step(s, EnterEvaluation(id), hash), SessionOf(s, id).run;
            t.log == if s.runs[run].status == PendingCandidateReview then s.log + [Entered(run, s.candidates[run])] else s.log
  {
  }

  lemma {:induction false} CheckRemembers(s: State, id: nat, run: string, hash: MetricIr -> string)
    requires RowsAgree(s) && SessionOf(s, id) == Idle && PassesChecks(s, run, hash)
    ensures var t := Step(s, CheckRun(id, run), hash);
            && SessionOf(t, id).Checked? && SessionOf(t, id).run == run
            && run in t.candidates && run in t.plans && t.candidates == s.candidates && t.plans == s.plans
  {
    hide RunAgrees, Transformable, Rewritten;
  }

  /** After a check and any statements of others, the session still waits to enter, and the stored
      candidate is the transform unless an edit says otherwise. */
  lemma {:induction false} CheckThenWait(
      before: seq<Action>, between: seq<Action>, id: nat, run: string, hash: MetricIr -> string)
    requires Injective(hash) && SessionOf(Run(before, hash), id) == Idle && PassesChecks(Run(before, hash), run, hash)
    requires forall a | a in between :: !ActsFor(a, id)
    ensures var s := Run(before + [CheckRun(id, run)] + between, hash);
            && run in s.candidates && run in s.plans && Transformable(s.plans[run].baseline, s.plans[run].days)
            && SessionOf(s, id).Checked? && SessionOf(s, id).run == run
            && s.candidates[run] == (match LastEdit(between, run)
                                     case Some(document) => document
                                     case None => TransformOf(s.plans[run]))
  {
    var s0, checked := Run(before, hash), before + [CheckRun(id, run)];
    RunContinues(before, [CheckRun(id, run)], hash);
    assert [CheckRun(id, run)][..0] == [] && before + [] == before;
    ReachableAgrees(before, hash);
    hide Run, Step, ActsFor;
    RowsOf(s0, hash);
    hide Inv;
    CheckRemembers(s0, id, run, hash);
    CheckedIsTransform(s0, run, hash);
    hide PassesChecks, RowsAgree, Rewritten, TransformOf;
    StoredAfter(checked, between, run, hash);
    SessionWaits(checked, between, id, hash);
  }

  /** A session that checked a run and enters it later, with anything but its own statements in
      between: the stored document it enters with is the transform of the plan exactly if nobody
      edited the candidate after the check, or the last edit put the transform back. The check's own
      copy is not looked at again. */
  lemma {:induction false} EntersTransformExactly(
      before: seq<Action>, between: seq<Action>, id: nat, run: string, hash: MetricIr -> string)
    requires Injective(hash) && SessionOf(Run(before, hash), id) == Idle && PassesChecks(Run(before, hash), run, hash)
    requires forall a | a in between :: !ActsFor(a, id)
    ensures var s := Run(before + [CheckRun(id, run)] + between, hash);
            var t := Step(s, EnterEvaluation(id), hash);
            && run in s.runs && run in s.candidates && run in s.plans
            && Transformable(s.plans[run].baseline, s.plans[run].days)
            && t.log == (if s.runs[run].status == PendingCandidateReview then s.log + [Entered(run, s.candidates[run])]
                         else s.log)
            && (s.candidates[run] == TransformOf(s.plans[run])
                <==> LastEdit(between, run) in {None, Some(TransformOf(s.plans[run]))})
  {
    hide *;
    var s := Run(before + [CheckRun(id, run)] + between, hash);
    CheckThenWait(before, between, id, run, hash);
    ReachableAgrees(before + [CheckRun(id, run)] + between, hash);
    RowsOf(s, hash);
    CandidateHasRun(s, run);
    EnterLogs(s, id, hash);
  }

  lemma {:induction false} CandidateHasRun(s: State, run: string)
    requires RowsAgree(s)
    ensures run in s.candidates <==> run in s.runs
    ensures run in s.candidates <==> run in s.plans
  {
    hide RunAgrees;
  }

  lemma {:induction false} CheckedIsTransform(s: State, run: string, hash: MetricIr -> string)
    requires Injective(hash) && PassesChecks(s, run, hash)
    ensures run in s.candidates && s.candidates[run] == TransformOf(s.plans[run])
    ensures Transformable(s.plans[run].baseline, s.plans[run].days)
  {
    hide Transformable, Rewritten;
  }

  lemma {:induction false} ExecuteRefuses(s: State, id: nat, hash: MetricIr -> string)
    requires SessionOf(s, id).Evaluating? && SessionOf(s, id).phase in {Untested, Opened}
    requires !Verified(s, SessionOf(s, id).run, hash)
    ensures var t := Step(s, Execute(id), hash);
            t.log == s.log && SessionOf(t, id).Evaluating? && SessionOf(t, id).phase == Refused
  {
    hide Verified, AfterReadProposal, AfterWriteDecision, AfterCreate, AfterEdit, AfterCheck, AfterEnter, AfterOpen,
         AfterComplete, AfterFail, AfterReadReport, AfterConclude;
    assert Step(s, Execute(id), hash) == AfterExecute(s, id, hash);
  }

  lemma {:induction false} EntersUntested(s: State, id: nat, hash: MetricIr -> string)
    requires SessionOf(s, id).Checked? && SessionOf(s, id).run in s.runs && SessionOf(s, id).run in s.candidates
    requires s.runs[SessionOf(s, id).run].status == PendingCandidateReview
    ensures var t, run := Step(s, EnterEvaluation(id), hash), SessionOf(s, id).run;
            && SessionOf(t, id).Evaluating? && SessionOf(t, id).run == run && SessionOf(t, id).phase == Untested
            && run in t.runs && t.runs[run].status == Testing && t.log == s.log + [Entered(run, s.candidates[run])]
            && t.candidates == s.candidates && t.rowHashes == s.rowHashes
  {
  }

  /** An edit to another document between check and compare-and-set does enter evaluation, and stops
      there: the next statement refuses to execute it. */
  lemma {:induction false} EditedDocumentIsRefused(
      s: State, id: nat, run: string, edited: MetricIr, hash: MetricIr -> string)
    requires Injective(hash) && RowsAgree(s) && SessionOf(s, id) == Idle && PassesChecks(s, run, hash)
    requires run in s.runs && s.runs[run].status == PendingCandidateReview
    requires run in s.candidates && edited != s.candidates[run]
    ensures var changed := Step(Step(s, CheckRun(id, run), hash), EditCandidate(run, edited), hash);
            var entered := Step(changed, EnterEvaluation(id), hash);
            var refused := Step(entered, Execute(id), hash);
            && run in entered.runs && entered.runs[run].status == Testing
            && entered.log == s.log + [Entered(run, edited)]
            && refused.log == entered.log && SessionOf(refused, id).Evaluating?
            && SessionOf(refused, id).phase == Refused
  {
    var checked := Step(s, CheckRun(id, run), hash);
    var changed := Step(checked, EditCandidate(run, edited), hash);
    CheckRemembers(s, id, run, hash);
    assert hash(edited) != hash(s.candidates[run]) == s.rowHashes[run];
    assert checked.runs == s.runs && checked.rowHashes == s.rowHashes && checked.log == s.log;
    EditStores(checked, run, edited, hash);
    hide Step, PassesChecks, RowsAgree;
    assert SessionOf(changed, id) == SessionOf(checked, id);
    EntersUntested(changed, id, hash);
    ExecuteRefuses(Step(changed, EnterEvaluation(id), hash), id, hash);
  }

  lemma {:induction false} EditStores(s: State, run: string, edited: MetricIr, hash: MetricIr -> string)
    ensures Step(s, EditCandidate(run, edited), hash)
            == if run in s.candidates then s.(candidates := s.candidates[run := edited]) else s
  {
  }
}
