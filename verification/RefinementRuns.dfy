/** What holds over whole runs of the refinement lifecycle, and what does not. */
module RefinementRuns {
  import opened Documents
  import opened Options
  import opened RefinementTransform
  import opened Refinement
  import opened RefinementLaws

  // ------------------------------------------------------------ what never changes again

  lemma {:induction false} VerdictStep(s: State, a: Action, hash: MetricIr -> string, proposal: string)
    requires Inv(s, hash) && proposal in s.decisions && Final(s.decisions[proposal].current.verdict)
    ensures var t := Step(s, a, hash); proposal in t.decisions && t.decisions[proposal] == s.decisions[proposal]
  {
    hide Inv, Transformable, Rewritten, PassesChecks;
    if a.WriteDecision? { WriteRespectsFinal(s, a.session, a.newId, hash, proposal); }
  }

  /** Once a proposal is accepted or rejected, its stored decision is the same after any further
      interleaving of sessions. */
  lemma {:induction false} VerdictsAreFinal(
      before: seq<Action>, after: seq<Action>, hash: MetricIr -> string, proposal: string)
    requires proposal in Run(before, hash).decisions
    requires Final(Run(before, hash).decisions[proposal].current.verdict)
    ensures proposal in Run(before + after, hash).decisions
    ensures Run(before + after, hash).decisions[proposal] == Run(before, hash).decisions[proposal]
    decreases |after|
  {
    if after == [] {
      assert before + after == before;
    } else {
      var prefix, last := after[..|after| - 1], after[|after| - 1];
      VerdictsAreFinal(before, prefix, hash, proposal);
      ReachableAgrees(before + prefix, hash);
      VerdictStep(Run(before + prefix, hash), last, hash, proposal);
      RunContinues(before, after, hash);
    }
  }

  /** How row and document of a finished run may still move: not at all once a final decision is
      recorded, and before that only by recording one. */
  ghost predicate OnlyConcludes(row: RunRow, report: Report, nextRow: RunRow, nextReport: Report) {
    && nextRow.status == row.status && nextRow.outcome == row.outcome
    && nextReport.(finalDecision := report.finalDecision) == report
    && (row.final ==> nextRow == row && nextReport == report)
  }

  lemma {:induction false} SaveLeavesFinished(s: State, a: Action, hash: MetricIr -> string, run: string)
    requires Inv(s, hash) && run in s.runs && Finished(s.runs[run].status)
    requires a.SaveExperimenting? || a.SaveCompleted? || a.SaveFailed?
    ensures var t := Step(s, a, hash);
            && run in s.reports && run in t.runs && run in t.reports
            && OnlyConcludes(s.runs[run], s.reports[run], t.runs[run], t.reports[run])
  {
    hide RunsAgree, LogAgrees, OneEvaluator, RunAgrees, Transformable, Rewritten, PassesChecks;
    RunFound(s, hash, run);
    SessionFound(s, a.session, hash);
    hide Inv;
    if SessionOf(s, a.session).Evaluating? {
      assert SessionOf(s, a.session).run != run;
    }
  }

  lemma {:induction false} ConcludeLeavesFinished(s: State, id: nat, hash: MetricIr -> string, run: string)
    requires run in s.runs && run in s.reports && Finished(s.runs[run].status) && RunAgrees(s.runs[run], s.reports[run])
    requires SessionAgrees(s, id, hash)
    ensures var t := Step(s, Conclude(id), hash);
            && run in t.runs && run in t.reports
            && OnlyConcludes(s.runs[run], s.reports[run], t.runs[run], t.reports[run])
  {
    hide Transformable, Rewritten, MatchesPlan, AfterReadProposal, AfterWriteDecision, AfterCreate, AfterEdit,
         AfterCheck, AfterEnter, AfterExecute, AfterOpen, AfterComplete, AfterFail, AfterReadReport;
  }

  lemma {:induction false} RunFound(s: State, hash: MetricIr -> string, run: string)
    requires Inv(s, hash) && run in s.runs
    ensures run in s.reports && RunAgrees(s.runs[run], s.reports[run])
  {
    hide PlansAgree, OneEvaluator, LogAgrees, SessionAgrees, RunAgrees;
  }

  lemma {:induction false} SessionFound(s: State, id: nat, hash: MetricIr -> string)
    requires Inv(s, hash)
    ensures SessionAgrees(s, id, hash)
  {
    hide RunsAgree, OneEvaluator, LogAgrees, SessionAgrees;
  }

  lemma {:induction false} OthersLeaveRuns(s: State, a: Action, hash: MetricIr -> string, run: string)
    requires run in s.runs && run in s.reports && Finished(s.runs[run].status)
    requires !a.SaveExperimenting? && !a.SaveCompleted? && !a.SaveFailed? && !a.Conclude?
    ensures var t := Step(s, a, hash);
            && run in t.runs && run in t.reports
            && OnlyConcludes(s.runs[run], s.reports[run], t.runs[run], t.reports[run])
  {
    hide Transformable, Rewritten, AfterReadProposal, AfterWriteDecision, AfterEdit, AfterCheck, AfterExecute,
         AfterReadReport, AfterOpen, AfterComplete, AfterFail, AfterConclude;
  }

  lemma {:induction false} FinishedStep(s: State, a: Action, hash: MetricIr -> string, run: string)
    requires Inv(s, hash) && run in s.runs && Finished(s.runs[run].status)
    ensures var t := Step(s, a, hash);
            && run in s.reports && run in t.runs && run in t.reports
            && OnlyConcludes(s.runs[run], s.reports[run], t.runs[run], t.reports[run])
  {
    hide *;
    RunFound(s, hash, run);
    match a
    case SaveExperimenting(_) => SaveLeavesFinished(s, a, hash, run);
    case SaveCompleted(_, _) => SaveLeavesFinished(s, a, hash, run);
    case SaveFailed(_) => SaveLeavesFinished(s, a, hash, run);
    case Conclude(id) => SessionFound(s, id, hash); ConcludeLeavesFinished(s, id, hash, run);
    case _ => OthersLeaveRuns(s, a, hash, run);
  }

  /** A completed or failed run keeps its status and outcome, and its report only gains one final
      decision; once that is recorded nothing of the run changes, whatever sessions do. */
  lemma {:induction false} FinishedRunsAreFrozen(
      before: seq<Action>, after: seq<Action>, hash: MetricIr -> string, run: string)
    requires run in Run(before, hash).runs && Finished(Run(before, hash).runs[run].status)
    ensures var s, t := Run(before, hash), Run(before + after, hash);
            && run in s.reports && run in t.runs && run in t.reports
            && OnlyConcludes(s.runs[run], s.reports[run], t.runs[run], t.reports[run])
    decreases |after|
  {
    if after == [] {
      assert before + after == before;
      ReachableAgrees(before, hash);
      RunFound(Run(before, hash), hash, run);
    } else {
      var prefix, last := after[..|after| - 1], after[|after| - 1];
      FinishedRunsAreFrozen(before, prefix, hash, run);
      ReachableAgrees(before + prefix, hash);
      RunContinues(before, after, hash);
      hide Inv, Run, Step;
      FinishedStep(Run(before + prefix, hash), last, hash, run);
    }
  }

  // ------------------------------------------------------------ at most once, and when

  /** In every reachable state: a run was evaluated exactly once if it left review and never
      otherwise, has an outcome exactly when finished, and was concluded exactly once if its final
      decision is recorded, which only finished runs have. */
  lemma {:induction false} LifecycleHolds(actions: seq<Action>, hash: MetricIr -> string, run: string)
    ensures var s := Run(actions, hash);
            && Entries(s.log, run) <= 1 && Conclusions(s.log, run) <= Entries(s.log, run)
            && (run !in s.runs ==> Entries(s.log, run) == 0)
            && (run in s.runs ==>
                  && run in s.reports
                  && (Entries(s.log, run) == 1 <==> s.runs[run].status != PendingCandidateReview)
                  && (s.runs[run].outcome.Some? <==> Finished(s.runs[run].status))
                  && (Conclusions(s.log, run) == 1 <==> s.reports[run].finalDecision.Some?)
                  && (s.reports[run].finalDecision.Some? ==> Finished(s.runs[run].status)))
  {
    ReachableAgrees(actions, hash);
    var s := Run(actions, hash);
    hide Run, MatchesPlan, PlansAgree, SessionAgrees, OneEvaluator;
    if run in s.runs { assert RunAgrees(s.runs[run], s.reports[run]); }
  }

  // ------------------------------------------------------------ the history is not append-only

  /** The row that `next` leaves keeps every entry the row `stored` had. */
  predicate Appends(stored: DecisionRow, next: DecisionRow) {
    next.previous == stored.previous + [stored.current]
  }

  lemma {:induction false} AppendsSame(stored: DecisionRow, copy: DecisionRow, next: DecisionRow)
    requires next.previous == copy.previous + [copy.current]
    ensures Appends(stored, next) <==> copy.previous == stored.previous && copy.current == stored.current
  {
    if copy.previous + [copy.current] == stored.previous + [stored.current] {
      var n := |copy.previous|;
      assert (copy.previous + [copy.current])[n] == copy.current;
      assert (stored.previous + [stored.current])[n] == stored.current;
      assert copy.previous == (copy.previous + [copy.current])[..n];
      assert stored.previous == (stored.previous + [stored.current])[..n];
    }
  }

  /** How many statements of `after`, run from where `before` leads, changed a stored decision. */
  function Rewrites(before: seq<Action>, after: seq<Action>, proposal: string, hash: MetricIr -> string): nat {
    if after == [] then 0
    else
      var prefix := after[..|after| - 1];
      var s, t := Run(before + prefix, hash), Run(before + after, hash);
      Rewrites(before, prefix, proposal, hash)
      + (if (proposal in s.decisions) == (proposal in t.decisions)
            && (proposal in s.decisions ==> t.decisions[proposal] == s.decisions[proposal]) then 0 else 1)
  }

  lemma {:induction false} NotRewritten(
      before: seq<Action>, after: seq<Action>, proposal: string, hash: MetricIr -> string)
    requires Rewrites(before, after, proposal, hash) == 0 && proposal in Run(before, hash).decisions
    ensures proposal in Run(before + after, hash).decisions
    ensures Run(before + after, hash).decisions[proposal] == Run(before, hash).decisions[proposal]
    decreases |after|
  {
    hide Run;
    if after == [] {
      assert before + after == before;
    } else {
      NotRewritten(before, after[..|after| - 1], proposal, hash);
    }
  }

  /** A decider that can go on: it is idle, and the stored decision is open and says something else. */
  predicate CanDecide(s: State, id: nat, proposal: string, entry: Entry) {
    && SessionOf(s, id) == Idle && proposal in s.decisions
    && !Final(s.decisions[proposal].current.verdict) && s.decisions[proposal].current.verdict != entry.verdict
  }

  lemma {:induction false} ReadRemembers(s: State, id: nat, proposal: string, entry: Entry, hash: MetricIr -> string)
    requires CanDecide(s, id, proposal, entry)
    ensures var t := Step(s, ReadProposal(id, proposal, entry), hash);
            SessionOf(t, id) == Deciding(proposal, entry, Some(s.decisions[proposal])) && t.decisions == s.decisions
  {
  }

  lemma {:induction false} WriteOf(s: State, id: nat, newId: string, hash: MetricIr -> string)
    requires SessionOf(s, id).Deciding? && SessionOf(s, id).previous.Some?
    ensures var session, t := SessionOf(s, id), Step(s, WriteDecision(id, newId), hash);
            var copy := session.previous.value;
            if WritesDecision(s, session.proposal, session.previous)
            then t.decisions == s.decisions[session.proposal :=
                                              DecisionRow(copy.decisionId, session.entry, copy.previous + [copy.current])]
            else t.decisions == s.decisions
  {
  }

  /** Over every run: a decision that is read, and written after any statements of others. A write
      that takes effect leaves exactly the history as it was read, with the entry read at its end;
      every entry recorded after the read is lost. So it appends to the stored history exactly if the
      stored row is the one read. If nothing rewrote the row in between, the write takes effect and
      appends. */
  lemma {:induction false} HistoryKeptExactly(
      before: seq<Action>, between: seq<Action>, id: nat, proposal: string, entry: Entry, newId: string,
      hash: MetricIr -> string)
    requires CanDecide(Run(before, hash), id, proposal, entry)
    requires forall a | a in between :: !ActsFor(a, id)
    ensures var read := Run(before, hash).decisions[proposal];
            var start := before + [ReadProposal(id, proposal, entry)];
            var s := Run(start + between, hash);
            var t := Step(s, WriteDecision(id, newId), hash);
            && (if WritesDecision(s, proposal, Some(read)) then
                  && t.decisions == s.decisions[proposal := DecisionRow(read.decisionId, entry, read.previous + [read.current])]
                  && (Appends(s.decisions[proposal], t.decisions[proposal]) <==> s.decisions[proposal] == read)
                else t.decisions == s.decisions)
            && (Rewrites(start, between, proposal, hash) == 0 ==>
                  WritesDecision(s, proposal, Some(read)) && Appends(s.decisions[proposal], t.decisions[proposal]))
  {
    var read := Run(before, hash).decisions[proposal];
    var start := before + [ReadProposal(id, proposal, entry)];
    var s := Run(start + between, hash);
    RunContinues(before, [ReadProposal(id, proposal, entry)], hash);
    assert [ReadProposal(id, proposal, entry)][..0] == [] && before + [] == before;
    hide Step, Run, ActsFor, Rewrites;
    ReadRemembers(Run(before, hash), id, proposal, entry, hash);
    SessionWaits(start, between, id, hash);
    WriteOf(s, id, newId, hash);
    if Rewrites(start, between, proposal, hash) == 0 { NotRewritten(start, between, proposal, hash); }
    if WritesDecision(s, proposal, Some(read)) {
      AppendsSame(s.decisions[proposal], read, DecisionRow(read.decisionId, entry, read.previous + [read.current]));
    }
  }

  /** An undisturbed read and write by one session: a final verdict or a repeated one stops it, and
      otherwise the compare-and-set matches what it read. */
  lemma {:induction false} ReadThenWrite(
      s: State, id: nat, proposal: string, entry: Entry, newId: string, hash: MetricIr -> string)
    requires SessionOf(s, id) == Idle
    ensures var previous := if proposal in s.decisions then Some(s.decisions[proposal]) else None;
            var read := Step(s, ReadProposal(id, proposal, entry), hash);
            var t := Step(read, WriteDecision(id, newId), hash);
            && read.decisions == s.decisions && SessionOf(t, id) == Idle
            && (forall k: nat | k != id :: SessionOf(t, k) == SessionOf(s, k) == SessionOf(read, k))
            && (if previous.Some? && previous.value.current.verdict in {Accepted, Rejected, entry.verdict} then
                  SessionOf(read, id) == Idle && t.decisions == s.decisions
                else
                  && SessionOf(read, id) == Deciding(proposal, entry, previous)
                  && t.decisions == s.decisions[proposal := NextDecision(previous, entry, newId)])
  {
    var read := Step(s, ReadProposal(id, proposal, entry), hash);
    ReadDecides(s, id, proposal, entry);
    hide AfterReadProposal, AfterWriteDecision;
    assert read == AfterReadProposal(s, id, proposal, entry);
    WriteDecides(read, id, newId);
    assert Step(read, WriteDecision(id, newId), hash) == AfterWriteDecision(read, id, newId);
    hide Step, SessionOf, NextDecision;
  }

  lemma {:induction false} ReadDecides(s: State, id: nat, proposal: string, entry: Entry)
    requires SessionOf(s, id) == Idle
    ensures var previous := if proposal in s.decisions then Some(s.decisions[proposal]) else None;
            var read := AfterReadProposal(s, id, proposal, entry);
            && read.decisions == s.decisions
            && (forall k: nat | k != id :: SessionOf(read, k) == SessionOf(s, k))
            && (if previous.Some? && previous.value.current.verdict in {Accepted, Rejected, entry.verdict} then
                  SessionOf(read, id) == Idle
                else SessionOf(read, id) == Deciding(proposal, entry, previous))
  {
  }

  lemma {:induction false} WriteDecides(s: State, id: nat, newId: string)
    ensures var t := AfterWriteDecision(s, id, newId);
            && (forall k: nat | k != id :: SessionOf(t, k) == SessionOf(s, k))
            && (SessionOf(s, id) == Idle ==> t == s)
            && match SessionOf(s, id)
               case Deciding(proposal, entry, previous) =>
                 previous == (if proposal in s.decisions then Some(s.decisions[proposal]) else None) ==>
                   SessionOf(t, id) == Idle && t.decisions == s.decisions[proposal := NextDecision(previous, entry, newId)]
               case _ => true
  {
    hide NextDecision;
  }

  /** Session 1 records the first verdict and session 2 reads it. */
  function ReadEarly(s: State, hash: MetricIr -> string): State {
    var first := Step(Step(s, ReadProposal(1, "p", Entry(Pending, "a")), hash), WriteDecision(1, "d"), hash);
    Step(first, ReadProposal(2, "p", Entry(Rejected, "b")), hash)
  }

  /** Session 3 moves the verdict to need-more-evidence and back. */
  function AwayAndBack(s: State, hash: MetricIr -> string): State {
    var away := Step(Step(s, ReadProposal(3, "p", Entry(NeedMoreEvidence, "c")), hash), WriteDecision(3, "d"), hash);
    Step(Step(away, ReadProposal(3, "p", Entry(Pending, "c")), hash), WriteDecision(3, "d"), hash)
  }

  /** A write that loses history, from the empty store: the late session's comparison sees the
      verdict it read and overwrites two recorded entries with its stale copy. */
  lemma {:induction false} HistoryCanBeLost(hash: MetricIr -> string)
    ensures var s := AwayAndBack(ReadEarly(EMPTY, hash), hash);
            var t := Step(s, WriteDecision(2, "d"), hash);
            && s.decisions == map["p" := DecisionRow("d", Entry(Pending, "c"),
                                                     [Entry(Pending, "a"), Entry(NeedMoreEvidence, "c")])]
            && t.decisions == map["p" := DecisionRow("d", Entry(Rejected, "b"), [Entry(Pending, "a")])]
  {
    hide *;
    FirstRead(hash);
    var early := ReadEarly(EMPTY, hash);
    SecondVerdicts(early, hash);
    LateWrite(AwayAndBack(early, hash), hash);
  }

  lemma {:induction false} FirstRead(hash: MetricIr -> string)
    ensures var s := ReadEarly(EMPTY, hash);
            && s.decisions == map["p" := DecisionRow("d", Entry(Pending, "a"), [])]
            && SessionOf(s, 2) == Deciding("p", Entry(Rejected, "b"), Some(DecisionRow("d", Entry(Pending, "a"), [])))
            && SessionOf(s, 3) == Idle
  {
    hide Step;
    ReadThenWrite(EMPTY, 1, "p", Entry(Pending, "a"), "d", hash);
    var first := Step(Step(EMPTY, ReadProposal(1, "p", Entry(Pending, "a")), hash), WriteDecision(1, "d"), hash);
    assert first.decisions == map["p" := DecisionRow("d", Entry(Pending, "a"), [])];
    ReadThenWrite(first, 2, "p", Entry(Rejected, "b"), "d", hash);
  }

  lemma {:induction false} SecondVerdicts(s: State, hash: MetricIr -> string)
    requires s.decisions == map["p" := DecisionRow("d", Entry(Pending, "a"), [])] && SessionOf(s, 3) == Idle
    ensures var t := AwayAndBack(s, hash);
            && t.decisions == map["p" := DecisionRow("d", Entry(Pending, "c"),
                                                     [Entry(Pending, "a"), Entry(NeedMoreEvidence, "c")])]
            && SessionOf(t, 2) == SessionOf(s, 2)
  {
    hide Step, SessionOf;
    var row := DecisionRow("d", Entry(Pending, "a"), []);
    VerdictMoves(s, row, Entry(NeedMoreEvidence, "c"), hash);
    var away := Step(Step(s, ReadProposal(3, "p", Entry(NeedMoreEvidence, "c")), hash), WriteDecision(3, "d"), hash);
    var moved := DecisionRow("d", Entry(NeedMoreEvidence, "c"), row.previous + [row.current]);
    VerdictMoves(away, moved, Entry(Pending, "c"), hash);
    assert moved.previous + [moved.current] == [Entry(Pending, "a"), Entry(NeedMoreEvidence, "c")];
  }

  lemma {:induction false} VerdictMoves(s: State, row: DecisionRow, entry: Entry, hash: MetricIr -> string)
    requires s.decisions == map["p" := row] && SessionOf(s, 3) == Idle
    requires !Final(row.current.verdict) && row.current.verdict != entry.verdict
    ensures var t := Step(Step(s, ReadProposal(3, "p", entry), hash), WriteDecision(3, "d"), hash);
            && t.decisions == map["p" := DecisionRow(row.decisionId, entry, row.previous + [row.current])]
            && SessionOf(t, 3) == Idle && SessionOf(t, 2) == SessionOf(s, 2)
  {
    hide Step, SessionOf;
    ReadThenWrite(s, 3, "p", entry, "d", hash);
  }

  lemma {:induction false} LateWrite(s: State, hash: MetricIr -> string)
    requires "p" in s.decisions && s.decisions["p"].decisionId == "d" && s.decisions["p"].current.verdict == Pending
    requires SessionOf(s, 2) == Deciding("p", Entry(Rejected, "b"), Some(DecisionRow("d", Entry(Pending, "a"), [])))
    ensures Step(s, WriteDecision(2, "d"), hash).decisions
            == s.decisions["p" := DecisionRow("d", Entry(Rejected, "b"), [Entry(Pending, "a")])]
  {
    WriteOf(s, 2, "d", hash);
    hide Step;
    var copy := DecisionRow("d", Entry(Pending, "a"), []);
    assert copy.previous + [copy.current] == [Entry(Pending, "a")];
  }
}
