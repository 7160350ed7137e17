/** The refinement lifecycle (src/airi/refinement/service.py) as interleaved statements of
    concurrent sessions: proposal decisions, evaluation of candidates, final decisions. Every
    write is a compare-and-set against the committed row; what a session read may be stale. An
    evaluation executes the stored candidate twice, for the test and for the experiment, and each
    execution reads and verifies it again (src/airi/execution/service.py). */
module Refinement {
  import opened Documents
  import opened Options
  import opened RefinementTransform

  // ------------------------------------------------------------ proposal decisions

  datatype Verdict = Pending | Accepted | Rejected | NeedMoreEvidence

  datatype Entry = Entry(verdict: Verdict, reviewer: string)

  /** A stored decision: the current entry and the entries it says preceded it. */
  datatype DecisionRow = DecisionRow(decisionId: string, current: Entry, previous: seq<Entry>)

  predicate Final(v: Verdict) { v == Accepted || v == Rejected }

  // ------------------------------------------------------------ runs

  datatype Status = PendingCandidateReview | Testing | Experimenting | Completed | Failed

  datatype Outcome = Improved | Worse | Mixed | Inconclusive

  predicate Finished(s: Status) { s == Completed || s == Failed }

  /** The run row, with `final` for `final_decision_recorded`. */
  datatype RunRow = RunRow(status: Status, outcome: Option<Outcome>, final: bool)

  /** The part of the stored report document that the lifecycle reads and writes. */
  datatype Report = Report(status: Status, outcome: Option<Outcome>, finalDecision: Option<string>)

  /** What a run was created from; the candidate document is stored apart and can be edited. */
  datatype Plan = Plan(proposal: string, baseline: MetricIr, days: nat)

  /** What happened to a run: it entered evaluation with this document stored, this document was
      executed for its test or its experiment, its final decision was recorded. */
  datatype Event =
    | Entered(run: string, stored: MetricIr)
    | Executed(run: string, document: MetricIr, experiment: bool)
    | Concluded(run: string, decision: string)

  /** How far an evaluation has come: before and after the test, before and after the experiment, or
      stopped by a document that no longer verifies. */
  datatype Phase = Untested | Tested | Opened | Measured | Refused

  datatype Session =
    | Idle
    | Deciding(proposal: string, entry: Entry, previous: Option<DecisionRow>)
    | Checked(run: string, report: Report, candidate: MetricIr)
    | Evaluating(run: string, report: Report, phase: Phase)
    | Concluding(run: string, report: Report, decision: string)

  /** `rowHashes` is the hash column of the candidate's row, written at creation and never after. */
  datatype State = State(
    decisions: map<string, DecisionRow>, plans: map<string, Plan>, candidates: map<string, MetricIr>,
    rowHashes: map<string, string>, runs: map<string, RunRow>, reports: map<string, Report>,
    sessions: map<nat, Session>, log: seq<Event>)

  const EMPTY := State(map[], map[], map[], map[], map[], map[], map[], [])

  datatype Action =
    | ReadProposal(session: nat, proposal: string, entry: Entry)
    | WriteDecision(session: nat, newId: string)
    | Create(run: string, plan: Plan)
    | EditCandidate(run: string, candidate: MetricIr)
    | CheckRun(session: nat, run: string)
    | EnterEvaluation(session: nat)
    | Execute(session: nat)
    | SaveExperimenting(session: nat)
    | SaveCompleted(session: nat, outcome: Outcome)
    | SaveFailed(session: nat)
    | ReadReport(session: nat, run: string, decision: string)
    | Conclude(session: nat)
    | Abort(session: nat)

  function SessionOf(s: State, id: nat): Session {
    if id in s.sessions then s.sessions[id] else Idle
  }

  function WithSession(s: State, id: nat, session: Session): State {
    s.(sessions := s.sessions[id := session])
  }

  /** The row a decider writes: a new one, or the one it read moved into its history. */
  function NextDecision(previous: Option<DecisionRow>, entry: Entry, newId: string): DecisionRow {
    match previous
    case None => DecisionRow(newId, entry, [])
    case Some(p) => DecisionRow(p.decisionId, entry, p.previous + [p.current])
  }

  /** Unique proposal for the INSERT; matching identifier and verdict for the UPDATE. */
  predicate WritesDecision(s: State, proposal: string, previous: Option<DecisionRow>) {
    match previous
    case None => proposal !in s.decisions
    case Some(p) =>
      && proposal in s.decisions && s.decisions[proposal].decisionId == p.decisionId
      && s.decisions[proposal].current.verdict == p.current.verdict
  }

  /** `save`: row fields and document are overwritten with the session's copy of the report. */
  function Save(s: State, run: string, report: Report): State {
    s.(runs := s.runs[run := RunRow(report.status, report.outcome, run in s.runs && s.runs[run].final)],
       reports := s.reports[run := report])
  }

  /** `require_approved` on the candidate: the stored document still hashes to its row. */
  predicate Verified(s: State, run: string, hash: MetricIr -> string) {
    run in s.candidates && run in s.rowHashes && hash(s.candidates[run]) == s.rowHashes[run]
  }

  /** The checks of `evaluate` before its compare-and-set: the proposal is still accepted, the stored
      candidate verifies, and it hashes equal to a fresh transform of the baseline. */
  predicate PassesChecks(s: State, run: string, hash: MetricIr -> string) {
    && run in s.reports && run in s.plans && Verified(s, run, hash)
    && s.plans[run].proposal in s.decisions && s.decisions[s.plans[run].proposal].current.verdict == Accepted
    && Transformable(s.plans[run].baseline, s.plans[run].days)
    && hash(s.candidates[run]) == hash(Rewritten(s.plans[run].baseline, s.plans[run].days))
  }

  // ------------------------------------------------------------ statements, each with the tables it may touch

  function AfterReadProposal(s: State, id: nat, proposal: string, entry: Entry): (t: State)
    ensures t == s || t == WithSession(s, id, SessionOf(t, id))
  {
    var previous := if proposal in s.decisions then Some(s.decisions[proposal]) else None;
    if SessionOf(s, id) != Idle then s
    else if previous.Some? && (Final(previous.value.current.verdict) || previous.value.current.verdict == entry.verdict)
    then s
    else WithSession(s, id, Deciding(proposal, entry, previous))
  }

  function AfterWriteDecision(s: State, id: nat, newId: string): (t: State)
    ensures t == s || t == WithSession(s, id, Idle).(decisions := t.decisions)
  {
    match SessionOf(s, id)
    case Deciding(proposal, entry, previous) =>
      if WritesDecision(s, proposal, previous)
      then WithSession(s, id, Idle).(decisions := s.decisions[proposal := NextDecision(previous, entry, newId)])
      else WithSession(s, id, Idle)
    case _ => s
  }

  function AfterCreate(s: State, run: string, plan: Plan, hash: MetricIr -> string): (t: State)
    ensures t == s.(plans := t.plans, candidates := t.candidates, rowHashes := t.rowHashes, runs := t.runs,
                    reports := t.reports)
  {
    if run !in s.runs && plan.proposal in s.decisions && s.decisions[plan.proposal].current.verdict == Accepted
       && Transformable(plan.baseline, plan.days)
    then s.(plans := s.plans[run := plan],
            candidates := s.candidates[run := Rewritten(plan.baseline, plan.days)],
            rowHashes := s.rowHashes[run := hash(Rewritten(plan.baseline, plan.days))],
            runs := s.runs[run := RunRow(PendingCandidateReview, None, false)],
            reports := s.reports[run := Report(PendingCandidateReview, None, None)])
    else s
  }

  function AfterEdit(s: State, run: string, candidate: MetricIr): (t: State)
    ensures t == s.(candidates := t.candidates)
  {
    if run in s.candidates then s.(candidates := s.candidates[run := candidate]) else s
  }

  function AfterCheck(s: State, id: nat, run: string, hash: MetricIr -> string): (t: State)
    ensures t == s || t == WithSession(s, id, SessionOf(t, id))
  {
    if SessionOf(s, id) == Idle && PassesChecks(s, run, hash)
    then WithSession(s, id, Checked(run, s.reports[run], s.candidates[run]))
    else s
  }

  function AfterEnter(s: State, id: nat): (t: State)
    ensures t == s || t == WithSession(s, id, SessionOf(t, id)).(runs := t.runs, log := t.log)
  {
    match SessionOf(s, id)
    case Checked(run, report, candidate) =>
      if run in s.runs && s.runs[run].status == PendingCandidateReview && run in s.candidates
      then WithSession(s, id, Evaluating(run, report, Untested)).(
             runs := s.runs[run := s.runs[run].(status := Testing)], log := s.log + [Entered(run, s.candidates[run])])
      else WithSession(s, id, Idle)
    case _ => s
  }

  function AfterExecute(s: State, id: nat, hash: MetricIr -> string): (t: State)
    ensures t == s || t == WithSession(s, id, SessionOf(t, id)).(log := t.log)
  {
    match SessionOf(s, id)
    case Evaluating(run, report, phase) =>
      if phase != Untested && phase != Opened then s
      else if Verified(s, run, hash)
      then WithSession(s, id, Evaluating(run, report, if phase == Untested then Tested else Measured)).(
             log := s.log + [Executed(run, s.candidates[run], phase == Opened)])
      else WithSession(s, id, Evaluating(run, report, Refused))
    case _ => s
  }

  function AfterOpen(s: State, id: nat): (t: State)
    ensures t == s || t == WithSession(s, id, SessionOf(t, id)).(runs := t.runs, reports := t.reports)
  {
    match SessionOf(s, id)
    case Evaluating(run, report, phase) =>
      if phase == Tested
      then WithSession(Save(s, run, report.(status := Experimenting)), id, Evaluating(run, report, Opened))
      else s
    case _ => s
  }

  function AfterComplete(s: State, id: nat, outcome: Outcome): (t: State)
    ensures t == s || t == WithSession(s, id, Idle).(runs := t.runs, reports := t.reports)
  {
    match SessionOf(s, id)
    case Evaluating(run, report, phase) =>
      if phase == Measured
      then WithSession(Save(s, run, report.(status := Completed, outcome := Some(outcome))), id, Idle)
      else s
    case _ => s
  }

  function AfterFail(s: State, id: nat): (t: State)
    ensures t == s || t == WithSession(s, id, Idle).(runs := t.runs, reports := t.reports)
  {
    match SessionOf(s, id)
    case Evaluating(run, report, phase) =>
      WithSession(Save(s, run, report.(status := Failed, outcome := Some(Inconclusive))), id, Idle)
    case _ => s
  }

  function AfterReadReport(s: State, id: nat, run: string, decision: string): (t: State)
    ensures t == s || t == WithSession(s, id, SessionOf(t, id))
  {
    if SessionOf(s, id) == Idle && run in s.reports && Finished(s.reports[run].status) && s.reports[run].finalDecision == None
    then WithSession(s, id, Concluding(run, s.reports[run], decision))
    else s
  }

  function AfterConclude(s: State, id: nat): (t: State)
    ensures t == s || t == WithSession(s, id, Idle).(runs := t.runs, reports := t.reports, log := t.log)
  {
    match SessionOf(s, id)
    case Concluding(run, report, decision) =>
      if run in s.runs && !s.runs[run].final && Finished(s.runs[run].status)
      then
        var marked := s.(runs := s.runs[run := s.runs[run].(final := true)]);
        WithSession(Save(marked, run, report.(finalDecision := Some(decision))), id, Idle).(
          log := s.log + [Concluded(run, decision)])
      else WithSession(s, id, Idle)
    case _ => s
  }

  function Step(s: State, a: Action, hash: MetricIr -> string): State {
    match a
    case ReadProposal(id, proposal, entry) => AfterReadProposal(s, id, proposal, entry)
    case WriteDecision(id, newId) => AfterWriteDecision(s, id, newId)
    case Create(run, plan) => AfterCreate(s, run, plan, hash)
    case EditCandidate(run, candidate) => AfterEdit(s, run, candidate)
    case CheckRun(id, run) => AfterCheck(s, id, run, hash)
    case EnterEvaluation(id) => AfterEnter(s, id)
    case Execute(id) => AfterExecute(s, id, hash)
    case SaveExperimenting(id) => AfterOpen(s, id)
    case SaveCompleted(id, outcome) => AfterComplete(s, id, outcome)
    case SaveFailed(id) => AfterFail(s, id)
    case ReadReport(id, run, decision) => AfterReadReport(s, id, run, decision)
    case Conclude(id) => AfterConclude(s, id)
    case Abort(id) => WithSession(s, id, Idle)
  }

  /** Any interleaving of any number of sessions: the state after a run from the empty store. */
  function Run(actions: seq<Action>, hash: MetricIr -> string): State {
    if actions == [] then EMPTY else Step(Run(actions[..|actions| - 1], hash), actions[|actions| - 1], hash)
  }
}
